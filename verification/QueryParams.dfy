/** Text-protocol parameters: the loop that writes values between the pieces of the query, interrupted
    by stream values and taken up again. */
module QueryParams {
  import opened Bytes
  import opened Framing
  import opened OutputModel
  import opened Escaping
  import opened PacketOutputStream
  import opened Placeholders
  import opened TextCommand
  import opened Utf8

  // ---------- the text that is sent ----------

  function EndOf(pos: seq<nat>, n: nat): nat
    requires 2 * n <= |pos|
  {
    if n == 0 then 0 else pos[2 * n - 1]
  }

  lemma SpanBounds(sql: seq<byte>, pos: seq<nat>, n: nat)
    requires Spans(sql, pos) && 2 * n <= |pos|
    ensures EndOf(pos, n) <= |sql|
    ensures 2 * n < |pos| ==> EndOf(pos, n) <= pos[2 * n] < pos[2 * n + 1] <= |sql| && pos[2 * n + 1] == EndOf(pos, n + 1)
  {
    if n > 0 {
      OnMark(sql, pos, n - 1);
      assert pos[2 * (n - 1) + 1] == pos[2 * n - 1];
      if 2 * n < |pos| {
        assert pos[2 * (n - 1) + 1] <= pos[2 * (n - 1) + 2];
      }
    }
  }

  /** The query up to its `n`-th placeholder, a text in the place of each. */
  function Upto(sql: seq<byte>, pos: seq<nat>, texts: seq<seq<byte>>, n: nat): seq<byte>
    requires Spans(sql, pos) && 2 * n <= |pos| && n <= |texts|
  {
    if n == 0 then []
    else
      SpanBounds(sql, pos, n - 1);
      Upto(sql, pos, texts, n - 1) + sql[EndOf(pos, n - 1)..pos[2 * n - 2]] + texts[n - 1]
  }

  /** The whole query with its placeholders replaced. */
  function Substituted(sql: seq<byte>, pos: seq<nat>, texts: seq<seq<byte>>): seq<byte>
    requires Spans(sql, pos) && |pos| / 2 <= |texts|
  {
    SpanBounds(sql, pos, |pos| / 2);
    Upto(sql, pos, texts, |pos| / 2) + sql[EndOf(pos, |pos| / 2)..]
  }

  /** Nothing of the query is lost or doubled: with a question mark for every placeholder the text
      is the query itself. */
  lemma {:induction false} UptoItself(sql: seq<byte>, pos: seq<nat>, texts: seq<seq<byte>>, n: nat)
    requires Spans(sql, pos) && 2 * n <= |pos| && n <= |texts|
    requires forall k :: 0 <= k < n ==> texts[k] == [0x3f]
    ensures EndOf(pos, n) <= |sql| && Upto(sql, pos, texts, n) == sql[..EndOf(pos, n)]
    decreases n
  {
    hide Spans, Upto;
    SpanBounds(sql, pos, n);
    UptoNext(sql, pos, texts, n);
    if n > 0 {
      UptoItself(sql, pos, texts, n - 1);
      OnMark(sql, pos, n - 1);
      TakePiece(sql, EndOf(pos, n - 1), pos[2 * n - 2]);
    }
  }

  lemma UptoNext(sql: seq<byte>, pos: seq<nat>, texts: seq<seq<byte>>, n: nat)
    requires Spans(sql, pos) && 2 * n <= |pos| && n <= |texts|
    ensures n == 0 ==> Upto(sql, pos, texts, n) == []
    ensures n > 0 ==>
              && EndOf(pos, n - 1) <= pos[2 * n - 2] <= |sql|
              && Upto(sql, pos, texts, n)
                 == Upto(sql, pos, texts, n - 1) + sql[EndOf(pos, n - 1)..pos[2 * n - 2]] + texts[n - 1]
  {
    hide Spans;
    if n > 0 {
      SpanBounds(sql, pos, n - 1);
    }
  }

  lemma TakePiece(sql: seq<byte>, a: nat, b: nat)
    requires a <= b < |sql|
    ensures sql[..b + 1] == sql[..a] + sql[a..b] + [sql[b]]
  {
  }

  lemma OnMark(sql: seq<byte>, pos: seq<nat>, k: nat)
    requires Spans(sql, pos) && 2 * k < |pos|
    ensures pos[2 * k] < |sql| && pos[2 * k + 1] == pos[2 * k] + 1 && sql[pos[2 * k]] == 0x3f
  {
  }

  lemma SubstitutedItself(sql: seq<byte>, pos: seq<nat>, texts: seq<seq<byte>>)
    requires Spans(sql, pos) && |pos| / 2 <= |texts|
    requires forall k :: 0 <= k < |pos| / 2 ==> texts[k] == [0x3f]
    ensures Substituted(sql, pos, texts) == sql
  {
    var n := |pos| / 2;
    UptoItself(sql, pos, texts, n);
    assert sql[..EndOf(pos, n)] + sql[EndOf(pos, n)..] == sql;
  }

  /** Texts that come later do not matter yet. */
  lemma {:induction false} UptoAgrees(sql: seq<byte>, pos: seq<nat>, texts: seq<seq<byte>>, more: seq<seq<byte>>, n: nat)
    requires Spans(sql, pos) && 2 * n <= |pos| && n <= |texts| && n <= |more|
    requires forall k :: 0 <= k < n ==> texts[k] == more[k]
    ensures Upto(sql, pos, texts, n) == Upto(sql, pos, more, n)
    decreases n
  {
    if n > 0 {
      UptoAgrees(sql, pos, texts, more, n - 1);
    }
  }

  /** A value as the loop sees it: an ASCII text such as a number's, a string (on a connection whose
      encoding is utf8), a buffer, or a stream. */
  datatype Value = Inline(text: seq<byte>) | Text(str: seq<u16>) | Buf(data: seq<byte>) | Stream

  /** `_BINARY `, in front of the literal of a buffer. */
  const BINARY: seq<byte> := [0x5f, 0x42, 0x49, 0x4e, 0x41, 0x52, 0x59, 0x20]

  /** The literal that chunks become. */
  function Literal(cs: Option<Charset>, chunks: seq<seq<byte>>): seq<byte> {
    [QUOTE] + EscapeAll(cs, chunks) + [QUOTE]
  }

  /** The server reads a streamed literal as the bytes of the stream, however it was chunked. */
  lemma LiteralIsRead(cs: Option<Charset>, table: seq<Form>, chunks: seq<seq<byte>>, rest: seq<byte>)
    requires Served(cs, table)
    ensures var s := Literal(cs, chunks) + rest;
            s[0] == QUOTE && LexTo(QUOTE, table, s[1..]) == Closed(Flatten(chunks), rest)
  {
    hide LexTo, EscapeAll, Served;
    EscapeRoundTrip(QUOTE, cs, table, chunks, rest);
    var s := Literal(cs, chunks) + rest;
    assert s[1..] == EscapeAll(cs, chunks) + ([QUOTE] + rest);
  }

  /** The text up to a later placeholder starts with that up to an earlier one. */
  lemma {:induction false} UptoGrows(sql: seq<byte>, pos: seq<nat>, texts: seq<seq<byte>>, k: nat, n: nat)
    requires Spans(sql, pos) && 2 * n <= |pos| && n <= |texts| && k <= n
    ensures Upto(sql, pos, texts, k) <= Upto(sql, pos, texts, n)
    decreases n
  {
    hide Spans, Upto;
    if k < n {
      UptoGrows(sql, pos, texts, k, n - 1);
      UptoNext(sql, pos, texts, n);
    }
  }

  lemma {:induction false} EscapeOneMore(cs: Option<Charset>, chunks: seq<seq<byte>>, chunk: seq<byte>)
    ensures EscapeAll(cs, chunks + [chunk]) == EscapeAll(cs, chunks) + Escape(cs, chunk)
    decreases |chunks|
  {
    hide Escape;
    if chunks == [] {
      assert [chunk][1..] == [] && EscapeAll(cs, []) == [];
    } else {
      EscapeOneMore(cs, chunks[1..], chunk);
      assert (chunks + [chunk])[1..] == chunks[1..] + [chunk];
    }
  }

  /** What is written for a value, whose literal, if it is one, is made of these chunks. */
  function TextOf(cs: Option<Charset>, value: Value, chunks: seq<seq<byte>>): seq<byte> {
    match value
    case Inline(text) => text
    case Text(_) => Literal(cs, chunks)
    case Buf(_) => BINARY + Literal(cs, chunks)
    case Stream => Literal(cs, chunks)
  }

  /** The chunks a value can have: a string is one encoding of it, with a question mark or U+FFFD
      for a lone surrogate; a buffer is its bytes; a stream has those it delivers. */
  predicate Encodes(value: Value, chunks: seq<seq<byte>>) {
    match value
    case Inline(_) => chunks == []
    case Text(str) =>
      (chunks == [Utf8Bytes(str)] || chunks == [MarkedBytes(str)]) && (WellFormed(str) ==> chunks == [Utf8Bytes(str)])
    case Buf(data) => chunks == [data]
    case Stream => true
  }

  /** The text of each of the first values, given the chunks of the literals among them. */
  function TextsOf(cs: Option<Charset>, values: seq<Value>, parts: seq<seq<seq<byte>>>): (t: seq<seq<byte>>)
    requires |parts| <= |values|
    ensures |t| == |parts|
    ensures forall k :: 0 <= k < |t| ==> t[k] == TextOf(cs, values[k], parts[k])
  {
    seq(|parts|, k requires 0 <= k < |parts| => TextOf(cs, values[k], parts[k]))
  }

  /** What has been written once the values of `parts` are. */
  function Written(sql: seq<byte>, pos: seq<nat>, cs: Option<Charset>, values: seq<Value>, parts: seq<seq<seq<byte>>>)
    : seq<byte>
    requires Spans(sql, pos) && 2 * |parts| <= |pos| && |parts| <= |values|
  {
    Upto(sql, pos, TextsOf(cs, values, parts), |parts|)
  }

  /** One more value: the piece in front of its placeholder, and its text. */
  lemma WrittenNext(sql: seq<byte>, pos: seq<nat>, cs: Option<Charset>, values: seq<Value>, parts: seq<seq<seq<byte>>>,
                    chunks: seq<seq<byte>>)
    requires Spans(sql, pos) && 2 * |parts| + 2 <= |pos| && |parts| < |values|
    ensures var n := |parts|;
            && EndOf(pos, n) <= pos[2 * n] <= |sql|
            && Written(sql, pos, cs, values, parts + [chunks])
               == Written(sql, pos, cs, values, parts) + sql[EndOf(pos, n)..pos[2 * n]] + TextOf(cs, values[n], chunks)
  {
    hide Spans, EndOf, TextOf;
    var n := |parts|;
    SpanBounds(sql, pos, n);
    UptoAgrees(sql, pos, TextsOf(cs, values, parts), TextsOf(cs, values, parts + [chunks]), n);
  }

  /** The server reads every literal of a query, up to its own closing quote, as the chunks it is made
      of: the bytes of the buffer or stream, or the encoding of the string. */
  lemma EveryLiteralIsRead(sql: seq<byte>, pos: seq<nat>, cs: Option<Charset>, values: seq<Value>,
                           parts: seq<seq<seq<byte>>>, k: nat, table: seq<Form>)
    returns (front: seq<byte>, rest: seq<byte>)
    requires Spans(sql, pos) && |parts| == |pos| / 2 <= |values| && k < |parts| && Served(cs, table)
    requires !values[k].Inline? && Encodes(values[k], parts[k])
    ensures Substituted(sql, pos, TextsOf(cs, values, parts)) == front + Literal(cs, parts[k]) + rest
    ensures LexTo(QUOTE, table, (Literal(cs, parts[k]) + rest)[1..]) == Closed(Flatten(parts[k]), rest)
    ensures values[k].Buf? ==> Flatten(parts[k]) == values[k].data
    ensures values[k].Text? && WellFormed(values[k].str) ==> Flatten(parts[k]) == Utf8Bytes(values[k].str)
  {
    hide *;
    front, rest := LiteralStands(sql, pos, cs, values, parts, k);
    LiteralIsRead(cs, table, parts[k], rest);
    WhatIsRead(values[k], parts[k]);
  }

  lemma LiteralStands(sql: seq<byte>, pos: seq<nat>, cs: Option<Charset>, values: seq<Value>,
                      parts: seq<seq<seq<byte>>>, k: nat) returns (front: seq<byte>, rest: seq<byte>)
    requires Spans(sql, pos) && |parts| == |pos| / 2 <= |values| && k < |parts| && !values[k].Inline?
    ensures Substituted(sql, pos, TextsOf(cs, values, parts)) == front + Literal(cs, parts[k]) + rest
    ensures |Literal(cs, parts[k])| >= 2
  {
    hide Spans, Upto, EscapeAll, EndOf;
    var texts, n := TextsOf(cs, values, parts), |parts|;
    UptoNext(sql, pos, texts, k + 1);
    UptoGrows(sql, pos, texts, k + 1, n);
    SpanBounds(sql, pos, n);
    var piece := Upto(sql, pos, texts, k) + sql[EndOf(pos, k)..pos[2 * k]];
    front := if values[k].Buf? then piece + BINARY else piece;
    rest := Behind(piece, BINARY, Literal(cs, parts[k]), texts[k], Upto(sql, pos, texts, k + 1), Upto(sql, pos, texts, n),
                   sql[EndOf(pos, n)..]);
  }

  lemma Behind(piece: seq<byte>, binary: seq<byte>, lit: seq<byte>, text: seq<byte>, a: seq<byte>, b: seq<byte>,
               end: seq<byte>) returns (rest: seq<byte>)
    requires a == piece + text && a <= b
    ensures text == lit ==> b + end == piece + lit + rest
    ensures text == binary + lit ==> b + end == piece + binary + lit + rest
  {
    rest := b[|a|..] + end;
    assert b + end == a + rest;
  }

  lemma WhatIsRead(value: Value, chunks: seq<seq<byte>>)
    requires Encodes(value, chunks)
    ensures value.Buf? ==> Flatten(chunks) == value.data
    ensures value.Text? && WellFormed(value.str) ==> Flatten(chunks) == Utf8Bytes(value.str)
  {
    hide Utf8Bytes, MarkedBytes, WellFormed;
    OnePart(chunks);
  }

  lemma OnePart(chunks: seq<seq<byte>>)
    ensures |chunks| == 1 ==> Flatten(chunks) == chunks[0]
  {
    if |chunks| == 1 {
      assert chunks[1..] == [] && chunks[0] + [] == chunks[0];
    }
  }

  /** A COM_QUERY being written to a packet stream with a buffer of any size. A method that throws
      leaves the command with nothing of it sent. */
  class Query {
    const out: PacketOutputStream
    const encodedSql: seq<byte>
    const paramPositions: seq<nat>
    const values: seq<Value>
    const charset: Option<Charset>
    var paramPos: nat
    var sqlPos: nat
    var valueIdx: nat
    var sending: bool
    var flushed: bool
    /** what had been sent before the command, the room in the buffer it started in, what should have
        been written behind its first byte, and what has become of it */
    ghost var base: seq<byte>
    ghost var room: nat
    ghost var text: seq<byte>
    ghost var state: Sending
    /** for every value handled so far, the chunks of its literal */
    ghost var parts: seq<seq<seq<byte>>>

    constructor (out: PacketOutputStream, sql: seq<byte>, positions: seq<nat>, values: seq<Value>,
                 charset: Option<Charset>)
      requires Spans(sql, positions) && |positions| / 2 <= |values|
      requires forall v :: v in values && v.Text? ==> charset.None?
      ensures this.out == out && encodedSql == sql && paramPositions == positions && this.values == values
      ensures this.charset == charset && Valid() && parts == [] && text == [] && !sending && !flushed
    {
      this.out, encodedSql, paramPositions, this.values, this.charset := out, sql, positions, values, charset;
      paramPos, sqlPos, valueIdx, sending, flushed, base, text, parts := 0, 0, 0, false, false, [], [], [];
    }

    ghost predicate Valid()
      reads this
    {
      && Spans(encodedSql, paramPositions) && |paramPositions| / 2 <= |values|
      && valueIdx == |parts| <= |paramPositions| / 2 && paramPos == 2 * valueIdx
      && sqlPos == EndOf(paramPositions, valueIdx) && sqlPos <= |encodedSql|
      && (forall v :: v in values && v.Text? ==> charset.None?)
    }

    ghost function Text(): seq<byte>
      requires Valid()
      reads this
    {
      Written(encodedSql, paramPositions, charset, values, parts)
    }

    /** Every literal is that of its value. */
    ghost predicate Faithful()
      reads this
    {
      |parts| <= |values| && forall k :: 0 <= k < |parts| ==> Encodes(values[k], parts[k])
    }

    /** The command is open. */
    ghost predicate Open()
      reads this`base, this`room, this`text, this`state, out, out.buf
    {
      out.Holds(base, state) && state.room >= MAX_PAYLOAD && Carries(state, room, [0x03] + text)
    }

    /** A write has thrown: nothing of the command is sent, which happens only in a buffer larger than
        the maximum and to a command that does not fit one frame. */
    ghost predicate Broken()
      reads this`base, this`room, this`text, out
    {
      out.wire == base && room > MAX_PAYLOAD && 1 + |text| > MAX_PAYLOAD
    }

    /** Between two values: the first `valueIdx` placeholders are replaced. */
    ghost predicate Between()
      reads this, out, out.buf
    {
      Valid() && Faithful() && Open() && !flushed && text == Text()
    }

    /** In a stream: everything but the closing quote of its literal is written. */
    ghost predicate InStream()
      reads this, out, out.buf
    {
      && Valid() && Faithful() && Open() && !flushed && sending && valueIdx > 0 && values[valueIdx - 1] == Stream
      && text + [QUOTE] == Text()
    }

    /** The query with each placeholder replaced by the text of its value. */
    ghost function Whole(): seq<byte>
      requires Spans(encodedSql, paramPositions) && |parts| == |paramPositions| / 2 <= |values|
      reads this`parts
    {
      Substituted(encodedSql, paramPositions, TextsOf(charset, values, parts))
    }

    /** Everything is on the wire: the frames of the query exactly if it has stayed intact, as it does
        in a buffer of ordinary size, or if it fits one frame. */
    ghost predicate Sent()
      reads this, out
    {
      && Spans(encodedSql, paramPositions) && |parts| == |paramPositions| / 2 <= |values|
      && Faithful() && flushed && !sending && text == Whole()
      && out.wire == base + Wire(state) && Carries(state, room, [0x03] + Whole())
      && (out.wire == base + EncodeFrames(Split([0x03] + Whole(), 0)) <==> Intact(state, [0x03] + Whole()))
      && (room <= MAX_PAYLOAD || 1 + |Whole()| <= MAX_PAYLOAD ==> Intact(state, [0x03] + Whole()))
    }

    /** A step of the command: `data` should have been written. */
    lemma Extended(data: seq<byte>, next: Sending)
      requires Carries(next, room, [0x03] + text + data)
      ensures Carries(next, room, [0x03] + (text + data))
    {
      assert [0x03] + text + data == [0x03] + (text + data);
    }

    /** `writeBuffer` of a part of `arr` into the open command. */
    method Put(arr: seq<byte>, off: nat, len: nat) returns (thrown: bool)
      requires Open() && off + len <= |arr|
      modifies this`text, this`state, out, out.buf
      ensures out.buf == old(out.buf) || fresh(out.buf)
      ensures if thrown then Broken() && text == old(text) else Open() && text == old(text) + arr[off..off + len]
      ensures |old(state).p| > MAX_PAYLOAD || !old(state).held
      ensures NextPart(old(state), arr, off, len) == if thrown then None else Some(state)
    {
      hide Sends, Write, OutputModel.Stream, NextPart, Carries;
      ghost var data := arr[off..off + len];
      ghost var next := Step(arr, off, len);
      thrown := out.WriteBuffer(arr, off, len);
      if !thrown {
        Extended(data, next.value);
        text, state := text + data, next.value;
      }
    }

    ghost method Step(arr: seq<byte>, off: nat, len: nat) returns (next: Option<Sending>)
      requires Open() && off + len <= |arr|
      ensures Ok(out.View()) && (state.held ==> |state.p| > MAX_PAYLOAD) && next == NextPart(state, arr, off, len)
      ensures next.None? <==> Stuck(out.View(), len) && off < out.pos - MAX_BUFFER_SIZE
      ensures next.None? ==> Broken()
      ensures CanWrite(out.View(), len) ==> Sends(Write(out.View(), arr[off..off + len]), base, next.value)
      ensures Stuck(out.View(), len) && next.Some? ==>
                Sends(OutputModel.Stream(Clipped(out.View()), arr[off - out.Lost(out.pos)..off + len]), base, next.value)
      ensures next.Some? ==>
                next.value.room >= MAX_PAYLOAD && Carries(next.value, room, [0x03] + text + arr[off..off + len])
    {
      hide Sends, Write, OutputModel.Stream, NextPart, Carries;
      SendsFacts(out.View(), base, state);
      PartSends(out.View(), base, state, arr, off, len);
      PartCarries(state, room, [0x03] + text, arr, off, len);
      next := NextPart(state, arr, off, len);
    }

    /** `writeStringAscii` */
    method PutAscii(str: seq<byte>) returns (thrown: bool)
      requires Open()
      modifies this`text, this`state, out, out.buf
      ensures out.buf == old(out.buf) || fresh(out.buf)
      ensures if thrown then Broken() && text == old(text) else Open() && text == old(text) + str
    {
      hide Sends, Write, OutputModel.Stream, NextPart, Carries;
      assert str[0..|str|] == str;
      ghost var next := Step(str, 0, |str|);
      thrown := out.WriteStringAscii(str);
      if !thrown {
        Extended(str, next.value);
        text, state := text + str, next.value;
      }
    }

    /** `writeInt8(QUOTE)` */
    method PutQuote() returns (thrown: bool)
      requires Open()
      modifies this`text, this`state, out, out.buf
      ensures out.buf == old(out.buf) || fresh(out.buf)
      ensures if thrown then Broken() && text == old(text) else Open() && text == old(text) + [QUOTE]
    {
      hide Sends, Write, OutputModel.Stream, NextPart, Carries;
      LE1(QUOTE);
      assert [QUOTE][0..1] == [QUOTE];
      ghost var next := Step([QUOTE], 0, 1);
      thrown := out.WriteInt(QUOTE, 1);
      if !thrown {
        Extended([QUOTE], next.value);
        text, state := text + [QUOTE], next.value;
      }
    }

    /** The escape of the connection's character set. */
    method PutEscaped(chunk: seq<byte>)
      requires Open()
      modifies this`text, this`state, out, out.buf
      ensures Open() && (out.buf == old(out.buf) || fresh(out.buf)) && text == old(text) + Escape(charset, chunk)
    {
      hide Sends, Escape, NextEscape, Carries;
      ghost var x := Escape(charset, chunk);
      EscapeLength(charset, chunk);
      EscapeCarries(state, room, [0x03] + text, x, 2 * |chunk|);
      match charset {
        case None => out.WriteBufferEscapeFast(chunk, base, state);
        case Some(mb) => out.WriteBufferEscapeMb(mb, chunk, base, state);
      }
      Extended(x, NextEscape(state, x, 2 * |chunk|));
      text, state := text + x, NextEscape(state, x, 2 * |chunk|);
    }

    /** `writeStringEscapeQuote` under utf8: a literal of the string's encoding. */
    method PutString(str: seq<u16>) returns (thrown: bool, ghost chunks: seq<seq<byte>>)
      requires Open()
      modifies this`text, this`state, out, out.buf
      ensures out.buf == old(out.buf) || fresh(out.buf)
      ensures Encodes(Value.Text(str), chunks)
      ensures if thrown then out.wire == base && room > MAX_PAYLOAD && 1 + |old(text) + Literal(None, chunks)| > MAX_PAYLOAD
              else Open() && text == old(text) + Literal(None, chunks)
    {
      hide Sends, Escape, NextPart, Carries, Utf8Bytes, MarkedBytes, InPlace;
      SendsFacts(out.View(), base, state);
      ghost var sure := out.SureRoom(str);
      chunks := if sure then [MarkedBytes(str)] else [Utf8Bytes(str)];
      StringLiteral(str);
      ghost var lit := Literal(None, chunks);
      ghost var s;
      ghost var s0 := state;
      thrown, s := out.WriteUtf8StringEscapeQuote(str, base, state);
      if sure {
        PartCarries(s0, room, [0x03] + text, lit, 0, |lit|);
        assert lit[0..|lit|] == lit;
      } else {
        QuotedCarries(s0, room, [0x03] + text, Utf8Bytes(str));
      }
      if !thrown {
        Extended(lit, s);
        text, state := text + lit, s;
      }
    }

    /** The piece of the query in front of the next placeholder, whose value is taken up. */
    method NextPiece() returns (thrown: bool)
      requires Valid() && Open() && valueIdx < |paramPositions| / 2
      modifies this`text, this`state, this`paramPos, this`sqlPos, this`valueIdx, out, out.buf
      ensures out.buf == old(out.buf) || fresh(out.buf)
      ensures old(sqlPos) <= paramPositions[2 * old(valueIdx)] <= |encodedSql|
      ensures thrown ==> Broken()
      ensures !thrown ==>
                && Open() && text == old(text) + encodedSql[old(sqlPos)..paramPositions[2 * old(valueIdx)]]
                && valueIdx == old(valueIdx) + 1 && paramPos == 2 * valueIdx
                && sqlPos == EndOf(paramPositions, valueIdx) <= |encodedSql|
    {
      hide Spans, EndOf, Open, NextPart;
      SpanBounds(encodedSql, paramPositions, valueIdx);
      SpanBounds(encodedSql, paramPositions, valueIdx + 1);
      thrown := Put(encodedSql, sqlPos, paramPositions[paramPos] - sqlPos);
      if thrown {
        return;
      }
      sqlPos := paramPositions[paramPos + 1];
      paramPos := paramPos + 2;
      valueIdx := valueIdx + 1;
    }

    /** A value that is written at once. */
    method WriteValue() returns (thrown: bool)
      requires Between() && valueIdx < |paramPositions| / 2 && values[valueIdx] != Stream
      modifies this`text, this`state, this`paramPos, this`sqlPos, this`valueIdx, this`parts, out, out.buf
      ensures out.buf == old(out.buf) || fresh(out.buf)
      ensures if thrown then Broken() else Between() && |parts| == |old(parts)| + 1 && old(parts) <= parts
    {
      hide Spans, EndOf, Written, Open, Encodes, TextOf;
      ghost var front, n := text, |parts|;
      var value := values[valueIdx];
      InText(values, valueIdx);
      thrown := NextPiece();
      if thrown {
        return;
      }
      ghost var chunks;
      thrown, chunks := PutValue(value);
      if !thrown {
        WrittenNext(encodedSql, paramPositions, charset, values, parts, chunks);
        parts := parts + [chunks];
      }
    }

    /** The switch over the types of a value. */
    method PutValue(value: Value) returns (thrown: bool, ghost chunks: seq<seq<byte>>)
      requires Open() && value != Stream && (value.Text? ==> charset.None?)
      modifies this`text, this`state, out, out.buf
      ensures out.buf == old(out.buf) || fresh(out.buf)
      ensures if thrown then Broken() else Open() && text == old(text) + TextOf(charset, value, chunks)
      ensures !thrown ==> Encodes(value, chunks)
    {
      hide Open, Utf8Bytes, MarkedBytes;
      ghost var before := text;
      match value {
        case Inline(str) =>
          chunks := [];
          thrown := PutAscii(str);
        case Text(str) =>
          thrown, chunks := PutString(str);
          if thrown {
            text := before + Literal(None, chunks);
          }
        case Buf(data) =>
          chunks := [data];
          thrown := PutBuffer(data);
      }
    }

    /** `_BINARY`, and the literal of the bytes. */
    method PutBuffer(data: seq<byte>) returns (thrown: bool)
      requires Open()
      modifies this`text, this`state, out, out.buf
      ensures out.buf == old(out.buf) || fresh(out.buf)
      ensures if thrown then Broken() else Open() && text == old(text) + (BINARY + Literal(charset, [data]))
    {
      hide Open, Escape;
      ghost var before := text;
      OneChunk(charset, data);
      thrown := PutAscii(BINARY + [QUOTE]);
      if thrown {
        return;
      }
      PutEscaped(data);
      thrown := PutQuote();
      assert before + (BINARY + [QUOTE]) + Escape(charset, data) + [QUOTE]
          == before + (BINARY + ([QUOTE] + Escape(charset, data) + [QUOTE]));
    }

    /** A stream value: the quote, and then its events. */
    method StartStream() returns (thrown: bool)
      requires Between() && valueIdx < |paramPositions| / 2 && values[valueIdx] == Stream
      modifies this`text, this`state, this`paramPos, this`sqlPos, this`valueIdx, this`sending, this`parts, out, out.buf
      ensures out.buf == old(out.buf) || fresh(out.buf)
      ensures if thrown then Broken() else InStream() && parts == old(parts) + [[]]
    {
      hide Spans, EndOf, Written, Literal, Open;
      WrittenNext(encodedSql, paramPositions, charset, values, parts, []);
      EmptyLiteral(charset);
      thrown := NextPiece();
      if thrown {
        return;
      }
      parts := parts + [[]];
      sending := true;
      ghost var piece := text;
      thrown := PutQuote();
      assert piece + ([QUOTE] + [QUOTE]) == piece + [QUOTE] + [QUOTE];
    }

    /** A chunk of the stream. */
    method OnData(chunk: seq<byte>)
      requires InStream()
      modifies this`text, this`state, this`parts, out, out.buf
      ensures InStream() && (out.buf == old(out.buf) || fresh(out.buf)) && |parts| == |old(parts)|
      ensures parts == old(parts)[|parts| - 1 := old(parts)[|parts| - 1] + [chunk]]
    {
      hide Spans, EndOf, Written, Literal, Open;
      ghost var n := |parts| - 1;
      ghost var before, chunks := parts[..n], parts[n];
      assert parts == before + [chunks];
      WrittenNext(encodedSql, paramPositions, charset, values, before, chunks);
      WrittenNext(encodedSql, paramPositions, charset, values, before, chunks + [chunk]);
      ghost var front := Written(encodedSql, paramPositions, charset, values, before)
        + encodedSql[EndOf(paramPositions, n)..paramPositions[2 * n]];
      LiteralGrows(charset, chunks, chunk, text, front);
      PutEscaped(chunk);
      parts := parts[n := chunks + [chunk]];
      assert parts == before + [chunks + [chunk]];
    }

    /** The end of the stream: the closing quote, and on with the values behind it. */
    method OnEnd() returns (thrown: bool)
      requires InStream()
      modifies this`text, this`state, this`paramPos, this`sqlPos, this`valueIdx, this`sending, this`flushed, this`parts,
               out, out.buf
      ensures if thrown then Broken() else (InStream() || Sent()) && old(parts) <= parts
    {
      hide Open, Written;
      thrown := PutQuote();
      if !thrown {
        thrown := ParamWritten();
      }
    }

    /** `_paramWritten`: the loop taken up behind a stream. */
    method ParamWritten() returns (thrown: bool)
      requires Between() && sending
      modifies this`text, this`state, this`paramPos, this`sqlPos, this`valueIdx, this`sending, this`flushed, this`parts,
               out, out.buf
      ensures if thrown then Broken() else (InStream() || Sent()) && old(parts) <= parts
    {
      hide Spans, EndOf, Written, Open;
      while valueIdx < |paramPositions| / 2
        invariant Between() && sending && old(parts) <= parts && (out.buf == old(out.buf) || fresh(out.buf))
        decreases |paramPositions| / 2 - valueIdx
      {
        if values[valueIdx] == Stream {
          thrown := StartStream();
          return;
        }
        thrown := WriteValue();
        if thrown {
          return;
        }
      }
      thrown := Finish();
    }

    /** The rest of the query, and the end of the command. */
    method Finish() returns (thrown: bool)
      requires Between() && valueIdx == |paramPositions| / 2
      modifies this`text, this`state, this`sending, this`flushed, out, out.buf
      ensures if thrown then Broken() else Sent()
      ensures |old(state).p| > MAX_PAYLOAD || !old(state).held
      ensures NextPart(old(state), encodedSql, sqlPos, |encodedSql| - sqlPos) == if thrown then None else Some(state)
    {
      hide Spans, EndOf, Sends, Split, EncodeFrames, OutputModel.FlushBuffer, Wire, Carries, NextPart, Intact, Encodes;
      SpanBounds(encodedSql, paramPositions, valueIdx);
      assert encodedSql[sqlPos..sqlPos + (|encodedSql| - sqlPos)] == encodedSql[sqlPos..];
      thrown := Put(encodedSql, sqlPos, |encodedSql| - sqlPos);
      if thrown {
        return;
      }
      EndsExactly(out.View(), base, state, room, [0x03] + text);
      out.Flush();
      flushed := true;
      sending := false;
    }

    /** What the last flush leaves on the wire, by the command `c` that should have been written. */
    lemma EndsExactly(o: Out, before: seq<byte>, s: Sending, room: nat, c: seq<byte>)
      requires Sends(o, before, s) && Carries(s, room, c)
      ensures Ok(o) && o.mark.None? && !o.after && OutputModel.Flush(o).wire == before + Wire(s)
      ensures OutputModel.Flush(o).wire == before + EncodeFrames(Split(c, 0)) <==> Intact(s, c)
      ensures room <= MAX_PAYLOAD || |c| <= MAX_PAYLOAD ==> Intact(s, c)
    {
      hide Sends, Split, EncodeFrames, OutputModel.Flush, Wire, Carries, Intact;
      SendsFacts(o, before, s);
      SendsEnd(o, before, s);
      WireExactly(s, room, c);
      SameTail(before, Wire(s), EncodeFrames(Split(c, 0)));
    }

    lemma SameTail(a: seq<byte>, x: seq<byte>, y: seq<byte>)
      ensures a + x == a + y <==> x == y
    {
      assert (a + x)[|a|..] == x && (a + y)[|a|..] == y;
    }

    /** `start`: the command's first byte, then the loop, which returns at the first stream. */
    method Start() returns (thrown: bool)
      requires Valid() && parts == [] && text == [] && !sending && !flushed
      requires out.Valid() && Ok(out.View()) && out.markPos == -1 && !out.bufContainDataAfterMark
      requires out.sequenceNo == -1
      modifies this, out, out.buf
      ensures if thrown then Broken() else InStream() || Sent()
      ensures base == old(out.wire) && room == OutputModel.Room(old(out.buf.Length))
      ensures paramPositions == [] ==>
                NextPart(Sending([0x03], MAX_PAYLOAD, room, false), encodedSql, 0, |encodedSql|)
                == (if thrown then None else Some(state)) && (!thrown ==> Sent())
    {
      hide Spans, Written, Open;
      Begin();
      while valueIdx < |paramPositions| / 2
        invariant Between() && !sending && base == old(out.wire) && room == OutputModel.Room(old(out.buf.Length))
        invariant out.buf == old(out.buf) || fresh(out.buf)
        invariant paramPositions == [] ==> state == Sending([0x03], MAX_PAYLOAD, room, false)
        decreases |paramPositions| / 2 - valueIdx
      {
        if values[valueIdx] == Stream {
          thrown := StartStream();
          return;
        }
        thrown := WriteValue();
        if thrown {
          return;
        }
      }
      thrown := Finish();
    }

    method Begin()
      requires Valid() && parts == [] && text == [] && !sending && !flushed
      requires out.Valid() && Ok(out.View()) && out.markPos == -1 && !out.bufContainDataAfterMark
      requires out.sequenceNo == -1
      modifies this`base, this`room, this`state, out, out.buf
      ensures Between() && !sending && base == old(out.wire) && room == OutputModel.Room(old(out.buf.Length))
      ensures out.buf == old(out.buf) || fresh(out.buf)
      ensures state == Sending([0x03], MAX_PAYLOAD, room, false)
    {
      hide Spans, EndOf, Sends, Write, OutputModel.Stream, Written, OutputModel.StartPacket, Carries, CanWrite;
      base, room := out.wire, OutputModel.Room(out.buf.Length);
      FirstByte(out.View());
      out.StartPacket();
      LE1(0x03);
      state := Sending([0x03], MAX_PAYLOAD, room, false);
      var thrown := out.WriteInt(0x03, 1);
      assert [0x03] + text == [0x03];
      NothingWritten();
    }

    /** A command begins with one byte, for which every buffer has room. */
    lemma FirstByte(o: Out)
      requires Ok(o) && o.mark.None? && !o.after && o.seqNo == -1
      ensures var p, s := OutputModel.StartPacket(o), Sending([0x03], MAX_PAYLOAD, OutputModel.Room(o.cap), false);
              CanWrite(p, 1) && Sends(Write(p, [0x03]), o.wire, s) && Carries(s, s.room, [0x03])
    {
      hide Sends, Write, OutputModel.Stream;
      var s := Sending([], MAX_PAYLOAD, OutputModel.Room(o.cap), false);
      Fresh(o);
      assert [0x03][0..1] == [0x03] && [] + [0x03] == [0x03];
      PartSends(OutputModel.StartPacket(o), o.wire, s, [0x03], 0, 1);
      PartCarries(s, s.room, [], [0x03], 0, 1);
    }

    lemma NothingWritten()
      requires Valid() && parts == []
      ensures Text() == [] && Faithful()
    {
    }
  }

  /** A query of 17000000 bytes in the buffer that a batch refused at a row of 20000000 bytes leaves: it
      is sent as one frame that announces another length. */
  method OverrunningQuery(out: PacketOutputStream, sql: seq<byte>)
    requires |sql| == 17000000 && out.Valid() && Ok(out.View()) && out.markPos == -1 && !out.bufContainDataAfterMark
    requires out.sequenceNo == -1 && out.buf.Length == 20000014
    modifies out, out.buf
    ensures out.wire == old(out.wire) + EncodeFrame(Frame([0x03] + sql, 0))
    ensures out.wire != old(out.wire) + EncodeFrames(Split([0x03] + sql, 0))
  {
    hide EncodeFrame, Split, EncodeFrames, Sends, Carries;
    NoSpans(sql);
    var q := new Query(out, sql, [], [], None);
    ghost var base := out.wire;
    assert sql[0..|sql|] == sql && sql[0..] == sql;
    var thrown := q.Start();
    assert [] + sql == sql;
  }

  lemma InText(values: seq<Value>, i: nat)
    requires i < |values|
    ensures values[i] in values
  {
  }

  lemma OneChunk(cs: Option<Charset>, data: seq<byte>)
    ensures Literal(cs, [data]) == [QUOTE] + Escape(cs, data) + [QUOTE]
  {
    hide Escape;
    assert [data][1..] == [] && EscapeAll(cs, []) == [] && Escape(cs, data) + [] == Escape(cs, data);
    assert EscapeAll(cs, [data]) == Escape(cs, data);
  }

  /** The literal of a string, written in place or from a copy. */
  lemma StringLiteral(str: seq<u16>)
    ensures [QUOTE] + InPlace(str) + [QUOTE] == Literal(None, [MarkedBytes(str)])
    ensures Literal(None, [Utf8Bytes(str)]) == [QUOTE] + Escape(None, Utf8Bytes(str)) + [QUOTE]
    ensures WellFormed(str) ==> MarkedBytes(str) == Utf8Bytes(str)
  {
    InPlaceIsEscape(str);
    OneChunk(None, MarkedBytes(str));
    OneChunk(None, Utf8Bytes(str));
    if WellFormed(str) {
      NothingMarked(str);
    }
  }

  lemma {:induction false} NothingMarked(str: seq<u16>)
    requires WellFormed(str)
    ensures MarkedPoints(str) == CodePoints(str)
    decreases |str|
  {
    if str != [] {
      NothingMarked(str[Units(str)..]);
    }
  }

  /** Quote, copy and quote carry the command on by the literal. */
  lemma QuotedCarries(s: Sending, room: nat, c: seq<byte>, copy: seq<byte>)
    requires Carries(s, room, c) && s.room >= MAX_PAYLOAD
    ensures s.held ==> |s.p| > MAX_PAYLOAD
    ensures |Escape(None, copy)| <= 2 * |copy|
    ensures var x, r := Literal(None, [copy]), NextQuoted(s, Escape(None, copy), 2 * |copy|);
            if r.None? then room > MAX_PAYLOAD && |c + x| > MAX_PAYLOAD
            else Carries(r.value, room, c + x) && r.value.room >= MAX_PAYLOAD
  {
    hide Escape, Carries, Literal;
    var x := Escape(None, copy);
    EscapeLength(None, copy);
    OneChunk(None, copy);
    assert [QUOTE][0..1] == [QUOTE];
    PartCarries(s, room, c, [QUOTE], 0, 1);
    var a := NextPart(s, [QUOTE], 0, 1);
    if a.Some? {
      EscapeCarries(a.value, room, c + [QUOTE], x, 2 * |copy|);
      PartCarries(NextEscape(a.value, x, 2 * |copy|), room, c + [QUOTE] + x, [QUOTE], 0, 1);
      assert c + [QUOTE] + x + [QUOTE] == c + ([QUOTE] + x + [QUOTE]);
    }
  }

  lemma EmptyLiteral(cs: Option<Charset>)
    ensures Literal(cs, []) == [QUOTE] + [QUOTE]
  {
  }

  /** A chunk more: its escaped bytes go in front of the closing quote. */
  lemma LiteralGrows(cs: Option<Charset>, chunks: seq<seq<byte>>, chunk: seq<byte>, out: seq<byte>, front: seq<byte>)
    requires out + [QUOTE] == front + Literal(cs, chunks)
    ensures out + Escape(cs, chunk) + [QUOTE] == front + Literal(cs, chunks + [chunk])
  {
    hide Escape, EscapeAll;
    EscapeOneMore(cs, chunks, chunk);
    var all := front + Literal(cs, chunks);
    assert out == (out + [QUOTE])[..|out|] == all[..|all| - 1] == front + ([QUOTE] + EscapeAll(cs, chunks));
  }
}
