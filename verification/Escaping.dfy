/** Escaping of literals: the byte-wise escape that knows multi-byte characters, the way a server
    reads a literal back, and UTF-8 text escaped in place. */
module Escaping {
  import opened Bytes

  const QUOTE: byte := 0x27
  const DBL_QUOTE: byte := 0x22
  const ZERO_BYTE: byte := 0x00
  const SLASH: byte := 0x5c

  predicate Special(b: byte) { b == QUOTE || b == SLASH || b == DBL_QUOTE || b == ZERO_BYTE }

  // ---------- multi-byte recognizers ----------

  /** cp932 shares the ranges of sjis. */
  datatype Charset = Big5 | Gbk | Sjis | Gb18030

  predicate IsHead(cs: Charset, b: byte) {
    match cs
    case Big5 => 0xa1 <= b <= 0xfe
    case Gbk => 0x81 <= b <= 0xfe
    case Sjis => 0x81 <= b <= 0x9f || 0xe0 <= b <= 0xfc
    case Gb18030 => 0x81 <= b <= 0xfe
  }

  predicate GbEven2(b: byte) { 0x40 <= b <= 0x7e || 0x80 <= b <= 0xfe }

  predicate GbEven4(b: byte) { 0x30 <= b <= 0x39 }

  /** Length of the multi-byte character at `i`, 0 when the bytes up to `n` do not make one. */
  function Length(cs: Charset, buf: seq<byte>, i: nat, n: nat): nat
    requires i < n <= |buf|
  {
    if i + 1 >= n then 0
    else
      var t := buf[i + 1];
      match cs
      case Big5 => if 0x40 <= t <= 0x7e || 0xa1 <= t <= 0xfe then 2 else 0
      case Gbk => if 0x40 <= t <= 0x7e || 0x80 <= t <= 0xfe then 2 else 0
      case Sjis => if 0x40 <= t <= 0x7e || 0x80 <= t <= 0xfc then 2 else 0
      case Gb18030 =>
        if GbEven2(t) then 2
        else if i + 3 < n && GbEven4(t) && IsHead(cs, buf[i + 2]) && GbEven4(buf[i + 3]) then 4
        else 0
  }

  /** Length of a character of two or more bytes that `s` starts with under the client character
      set, 0 if there is none; `None` stands for the sets that need no recognizer. */
  function CharLen(cs: Option<Charset>, s: seq<byte>): (n: nat)
    requires s != []
    ensures n == 0 || 2 <= n <= |s|
  {
    if cs.Some? && IsHead(cs.value, s[0]) then Length(cs.value, s, 0, |s|) else 0
  }

  // ---------- the character sets, byte by byte ----------

  /** A range of bytes, first and last. */
  type Range = (byte, byte)

  /** The characters of one length: for each of their bytes, the ranges it can be in. */
  type Form = seq<seq<Range>>

  /** The characters of two and four bytes of the sets a server may be told of. */
  function Table(cs: Option<Charset>): seq<Form> {
    match cs
    case None => []
    case Some(Big5) => [[[(0xa1, 0xfe)], [(0x40, 0x7e), (0xa1, 0xfe)]]]
    case Some(Gbk) => [[[(0x81, 0xfe)], [(0x40, 0x7e), (0x80, 0xfe)]]]
    case Some(Sjis) => [[[(0x81, 0x9f), (0xe0, 0xfc)], [(0x40, 0x7e), (0x80, 0xfc)]]]
    case Some(Gb18030) =>
      [[[(0x81, 0xfe)], [(0x40, 0x7e), (0x80, 0xfe)]],
       [[(0x81, 0xfe)], [(0x30, 0x39)], [(0x81, 0xfe)], [(0x30, 0x39)]]]
  }

  predicate InRanges(b: byte, rs: seq<Range>) { exists k :: 0 <= k < |rs| && rs[k].0 <= b <= rs[k].1 }

  predicate Matches(s: seq<byte>, form: Form) {
    |form| <= |s| && forall k :: 0 <= k < |form| ==> InRanges(s[k], form[k])
  }

  /** Length of the character that `s` starts with, 0 if none of the forms matches. */
  function CharOf(table: seq<Form>, s: seq<byte>): (n: nat)
    ensures n <= |s|
  {
    if table == [] then 0 else if Matches(s, table[0]) then |table[0]| else CharOf(table[1..], s)
  }

  lemma OneRange(b: byte, r: Range)
    ensures InRanges(b, [r]) <==> r.0 <= b <= r.1
  {
    assert r.0 <= b <= r.1 ==> [r][0] == r;
  }

  lemma TwoRanges(b: byte, r: Range, t: Range)
    ensures InRanges(b, [r, t]) <==> r.0 <= b <= r.1 || t.0 <= b <= t.1
  {
    assert [r, t][0] == r && [r, t][1] == t;
  }

  lemma TwoBytes(s: seq<byte>, a: seq<Range>, b: seq<Range>)
    ensures Matches(s, [a, b]) <==> |s| >= 2 && InRanges(s[0], a) && InRanges(s[1], b)
  {
    hide InRanges;
  }

  lemma FourBytes(s: seq<byte>, a: seq<Range>, b: seq<Range>, c: seq<Range>, d: seq<Range>)
    ensures Matches(s, [a, b, c, d])
            <==> |s| >= 4 && InRanges(s[0], a) && InRanges(s[1], b) && InRanges(s[2], c) && InRanges(s[3], d)
  {
    hide InRanges;
    var form := [a, b, c, d];
    assert form[0] == a && form[1] == b && form[2] == c && form[3] == d;
  }

  lemma OneForm(f: Form, s: seq<byte>)
    ensures CharOf([f], s) == if Matches(s, f) then |f| else 0
  {
    hide Matches;
    assert [f][1..] == [];
  }

  /** The recognizers find exactly the characters of the tables. */
  lemma CharLenIsCharOf(cs: Option<Charset>, s: seq<byte>)
    requires s != []
    ensures CharLen(cs, s) == CharOf(Table(cs), s)
  {
    hide InRanges, Matches, CharOf;
    if cs.Some? {
      match cs.value {
        case Big5 => TwoByteSet(Big5, s, [(0xa1, 0xfe)], [(0x40, 0x7e), (0xa1, 0xfe)]);
        case Gbk => TwoByteSet(Gbk, s, [(0x81, 0xfe)], [(0x40, 0x7e), (0x80, 0xfe)]);
        case Sjis => TwoByteSet(Sjis, s, [(0x81, 0x9f), (0xe0, 0xfc)], [(0x40, 0x7e), (0x80, 0xfc)]);
        case Gb18030 => FourByteSet(s);
      }
    } else {
      NoForms(s);
    }
  }

  lemma NoForms(s: seq<byte>)
    ensures CharOf([], s) == 0
  {
  }

  lemma TwoByteSet(cs: Charset, s: seq<byte>, a: seq<Range>, b: seq<Range>)
    requires s != [] && cs != Gb18030 && Table(Some(cs)) == [[a, b]]
    ensures CharLen(Some(cs), s) == CharOf([[a, b]], s)
  {
    hide InRanges, Matches, CharOf;
    OneForm([a, b], s);
    TwoBytes(s, a, b);
    OneRange(s[0], (0xa1, 0xfe));
    OneRange(s[0], (0x81, 0xfe));
    TwoRanges(s[0], (0x81, 0x9f), (0xe0, 0xfc));
    if |s| >= 2 {
      TwoRanges(s[1], (0x40, 0x7e), (0xa1, 0xfe));
      TwoRanges(s[1], (0x40, 0x7e), (0x80, 0xfe));
      TwoRanges(s[1], (0x40, 0x7e), (0x80, 0xfc));
    }
  }

  lemma FourByteSet(s: seq<byte>)
    requires s != []
    ensures CharLen(Some(Gb18030), s) == CharOf(Table(Some(Gb18030)), s)
  {
    hide InRanges, Matches, CharOf;
    var odd, even2, even4: seq<Range> := [(0x81, 0xfe)], [(0x40, 0x7e), (0x80, 0xfe)], [(0x30, 0x39)];
    TwoForms([odd, even2], [odd, even4, odd, even4], s);
    TwoBytes(s, odd, even2);
    FourBytes(s, odd, even4, odd, even4);
    OneRange(s[0], (0x81, 0xfe));
    if |s| >= 2 {
      TwoRanges(s[1], (0x40, 0x7e), (0x80, 0xfe));
      OneRange(s[1], (0x30, 0x39));
    }
    if |s| >= 4 {
      OneRange(s[2], (0x81, 0xfe));
      OneRange(s[3], (0x30, 0x39));
    }
  }

  lemma TwoForms(f: Form, g: Form, s: seq<byte>)
    ensures CharOf([f, g], s) == if Matches(s, f) then |f| else if Matches(s, g) then |g| else 0
  {
    hide Matches;
    OneForm(g, s);
    assert [f, g][1..] == [g];
  }

  // ---------- escaping and reading back ----------

  function Escape(cs: Option<Charset>, val: seq<byte>): seq<byte> {
    if val == [] then []
    else
      var n := CharLen(cs, val);
      if n > 0 then val[..n] + Escape(cs, val[n..])
      else if (cs.Some? && IsHead(cs.value, val[0])) || Special(val[0]) then
        [SLASH, val[0]] + Escape(cs, val[1..])
      else [val[0]] + Escape(cs, val[1..])
  }

  datatype Lexed = Closed(text: seq<byte>, rest: seq<byte>) | Unterminated

  function Text(t: seq<byte>, l: Lexed): Lexed {
    match l
    case Closed(text, rest) => Closed(t + text, rest)
    case Unterminated => Unterminated
  }

  /** The server's lexer behind an opening quote `q`: a multi-byte character of its table is taken
      before escapes are looked at, a backslash makes the next byte literal, the quote ends the literal. */
  function LexTo(q: byte, table: seq<Form>, s: seq<byte>): Lexed
    decreases |s|
  {
    if s == [] then Unterminated
    else
      var n := CharOf(table, s);
      if n > 0 then Text(s[..n], LexTo(q, table, s[n..]))
      else if s[0] == SLASH then
        if |s| == 1 then Unterminated else Text([s[1]], LexTo(q, table, s[2..]))
      else if s[0] == q then Closed([], s[1..])
      else Text([s[0]], LexTo(q, table, s[1..]))
  }

  predicate IsQuote(q: byte) { q == QUOTE || q == DBL_QUOTE }

  lemma LengthShift(cs: Charset, buf: seq<byte>, i: nat)
    requires i < |buf|
    ensures Length(cs, buf, i, |buf|) == Length(cs, buf[i..], 0, |buf| - i)
  {
  }

  /** A recognised character stays one whatever follows it. */
  lemma CharLenPrefix(cs: Option<Charset>, s: seq<byte>, tail: seq<byte>)
    requires s != [] && CharLen(cs, s) > 0
    ensures CharLen(cs, s[..CharLen(cs, s)] + tail) == CharLen(cs, s)
  {
    var n := CharLen(cs, s);
    var t := s[..n] + tail;
    assert t[0] == s[0] && t[1] == s[1];
    if n == 4 {
      assert t[2] == s[2] && t[3] == s[3];
    }
  }

  lemma TextTwice(a: seq<byte>, b: seq<byte>, l: Lexed)
    ensures Text(a, Text(b, l)) == Text(a + b, l)
  {
    if l.Closed? {
      assert a + (b + l.text) == a + b + l.text;
    }
  }

  /** The lexer takes the escaped bytes back as they were and is then where it would be without. */
  lemma {:induction false} LexEscape(q: byte, cs: Option<Charset>, val: seq<byte>, tail: seq<byte>)
    requires IsQuote(q)
    ensures LexTo(q, Table(cs), Escape(cs, val) + tail) == Text(val, LexTo(q, Table(cs), tail))
    decreases |val|
  {
    hide Escape, LexTo, CharLen, Text, IsQuote, Table;
    if val == [] {
      NothingEscaped(cs, tail);
      TextNothing(LexTo(q, Table(cs), tail));
    } else {
      var n := CharLen(cs, val);
      if n > 0 {
        LexEscape(q, cs, val[n..], tail);
        LexChar(q, cs, val, n, tail);
        TextTwice(val[..n], val[n..], LexTo(q, Table(cs), tail));
        assert val == val[..n] + val[n..];
      } else {
        LexEscape(q, cs, val[1..], tail);
        LexByte(q, cs, val, tail);
        TextTwice([val[0]], val[1..], LexTo(q, Table(cs), tail));
        assert val == [val[0]] + val[1..];
      }
    }
  }

  lemma NothingEscaped(cs: Option<Charset>, tail: seq<byte>)
    ensures Escape(cs, []) + tail == tail
  {
  }

  lemma LexChar(q: byte, cs: Option<Charset>, val: seq<byte>, n: nat, tail: seq<byte>)
    requires val != [] && n == CharLen(cs, val) > 0
    ensures LexTo(q, Table(cs), Escape(cs, val) + tail)
            == Text(val[..n], LexTo(q, Table(cs), Escape(cs, val[n..]) + tail))
  {
    hide CharLen, CharOf, Table;
    var s := val[..n] + (Escape(cs, val[n..]) + tail);
    assert Escape(cs, val) + tail == s;
    CharLenPrefix(cs, val, Escape(cs, val[n..]) + tail);
    CharLenIsCharOf(cs, s);
    assert s[..n] == val[..n] && s[n..] == Escape(cs, val[n..]) + tail;
  }

  lemma LexByte(q: byte, cs: Option<Charset>, val: seq<byte>, tail: seq<byte>)
    requires val != [] && CharLen(cs, val) == 0 && IsQuote(q)
    ensures LexTo(q, Table(cs), Escape(cs, val) + tail)
            == Text([val[0]], LexTo(q, Table(cs), Escape(cs, val[1..]) + tail))
  {
    hide CharOf, Table, Escape, LexTo;
    var more := Escape(cs, val[1..]) + tail;
    ByteEscaped(cs, val);
    if (cs.Some? && IsHead(cs.value, val[0])) || Special(val[0]) {
      var s := [SLASH, val[0]] + more;
      assert Escape(cs, val) + tail == s;
      CharLenIsCharOf(cs, s);
      LexSlash(q, Table(cs), val[0], more);
    } else {
      var s := [val[0]] + more;
      assert Escape(cs, val) + tail == s;
      CharLenIsCharOf(cs, s);
      LexOne(q, Table(cs), val[0], more);
    }
  }

  lemma ByteEscaped(cs: Option<Charset>, val: seq<byte>)
    requires val != [] && CharLen(cs, val) == 0
    ensures var marked := (cs.Some? && IsHead(cs.value, val[0])) || Special(val[0]);
            Escape(cs, val) == (if marked then [SLASH, val[0]] else [val[0]]) + Escape(cs, val[1..])
  {
    hide CharLen, IsHead;
  }

  function EscapeAll(cs: Option<Charset>, chunks: seq<seq<byte>>): seq<byte> {
    if chunks == [] then [] else Escape(cs, chunks[0]) + EscapeAll(cs, chunks[1..])
  }

  lemma {:induction false} LexEscapeAll(q: byte, cs: Option<Charset>, chunks: seq<seq<byte>>, tail: seq<byte>)
    requires IsQuote(q)
    ensures LexTo(q, Table(cs), EscapeAll(cs, chunks) + tail) == Text(Flatten(chunks), LexTo(q, Table(cs), tail))
  {
    hide Escape, LexTo, Table;
    if chunks == [] {
      assert EscapeAll(cs, chunks) + tail == tail;
      TextNothing(LexTo(q, Table(cs), tail));
    } else {
      var more := EscapeAll(cs, chunks[1..]) + tail;
      assert EscapeAll(cs, chunks) + tail == Escape(cs, chunks[0]) + more;
      LexEscape(q, cs, chunks[0], more);
      LexEscapeAll(q, cs, chunks[1..], tail);
      TextTwice(chunks[0], Flatten(chunks[1..]), LexTo(q, Table(cs), tail));
    }
  }

  lemma TextNothing(l: Lexed)
    ensures Text([], l) == l
  {
  }

  lemma ClosesHere(q: byte, cs: Option<Charset>, rest: seq<byte>)
    requires IsQuote(q)
    ensures LexTo(q, Table(cs), [q] + rest) == Closed([], rest)
  {
    hide CharOf, Table;
    CharLenIsCharOf(cs, [q] + rest);
    assert ([q] + rest)[1..] == rest;
  }

  // ---------- what is written, byte for byte ----------

  /** In each set a lead byte and a backslash are one character, which is written as it is. */
  lemma LeadAndBackslash(cs: Charset, lead: byte)
    requires InRanges(lead, Table(Some(cs))[0][0])
    ensures CharOf(Table(Some(cs)), [lead, SLASH]) == 2 && Escape(Some(cs), [lead, SLASH]) == [lead, SLASH]
  {
    hide CharOf;
    CharLenIsCharOf(Some(cs), [lead, SLASH]);
    match cs {
      case Big5 => OneRange(lead, (0xa1, 0xfe));
      case Gbk => OneRange(lead, (0x81, 0xfe));
      case Sjis => TwoRanges(lead, (0x81, 0x9f), (0xe0, 0xfc));
      case Gb18030 => OneRange(lead, (0x81, 0xfe));
    }
    assert [lead, SLASH][..2] == [lead, SLASH] && [lead, SLASH][2..] == [] && Escape(Some(cs), []) == [];
  }

  /** A lead byte with a quote behind it, or at the end, is escaped, and so is the quote. */
  lemma LoneLead(cs: Charset, lead: byte)
    requires InRanges(lead, Table(Some(cs))[0][0])
    ensures Escape(Some(cs), [lead]) == [SLASH, lead]
    ensures Escape(Some(cs), [lead, QUOTE]) == [SLASH, lead, SLASH, QUOTE]
  {
    match cs {
      case Big5 => OneRange(lead, (0xa1, 0xfe));
      case Gbk => OneRange(lead, (0x81, 0xfe));
      case Sjis => TwoRanges(lead, (0x81, 0x9f), (0xe0, 0xfc));
      case Gb18030 => OneRange(lead, (0x81, 0xfe));
    }
    assert [lead][1..] == [] && [lead, QUOTE][1..] == [QUOTE] && [QUOTE][1..] == [];
    assert Escape(Some(cs), [QUOTE]) == [SLASH, QUOTE] + Escape(Some(cs), []);
  }

  /** A byte that the escape has to do something about. */
  predicate Marked(table: seq<Form>, b: byte) {
    || b == QUOTE || b == DBL_QUOTE || b == SLASH || b == ZERO_BYTE
    || exists f :: 0 <= f < |table| && table[f] != [] && InRanges(b, table[f][0])
  }

  /** Nothing else is touched: a text without such bytes is written as it is. */
  lemma {:induction false} PlainStays(cs: Option<Charset>, val: seq<byte>)
    requires forall b :: b in val ==> !Marked(Table(cs), b)
    ensures Escape(cs, val) == val
  {
    hide Marked;
    if val != [] {
      NotMarked(cs, val[0]);
      PlainStays(cs, val[1..]);
      assert val == [val[0]] + val[1..];
    }
  }

  lemma NotMarked(cs: Option<Charset>, b: byte)
    requires !Marked(Table(cs), b)
    ensures !Special(b) && (cs.Some? ==> !IsHead(cs.value, b))
  {
    hide InRanges;
    if cs.Some? {
      assert !InRanges(b, Table(cs)[0][0]);
      match cs.value {
        case Big5 => OneRange(b, (0xa1, 0xfe));
        case Gbk => OneRange(b, (0x81, 0xfe));
        case Sjis => TwoRanges(b, (0x81, 0x9f), (0xe0, 0xfc));
        case Gb18030 => OneRange(b, (0x81, 0xfe));
      }
    }
  }

  /** Every zero byte that is written has a backslash in front of it. */
  lemma {:induction false} ZeroIsEscaped(cs: Option<Charset>, val: seq<byte>, i: nat)
    requires i < |Escape(cs, val)| && Escape(cs, val)[i] == ZERO_BYTE
    ensures i > 0 && Escape(cs, val)[i - 1] == SLASH
    decreases |val|
  {
    var n := CharLen(cs, val);
    if n > 0 {
      ZeroIsEscaped(cs, val[n..], i - n);
    } else if (cs.Some? && IsHead(cs.value, val[0])) || Special(val[0]) {
      if i > 1 {
        ZeroIsEscaped(cs, val[1..], i - 2);
      }
    } else {
      ZeroIsEscaped(cs, val[1..], i - 1);
    }
  }

  // ---------- the sets without a recognizer ----------

  /** No byte of a multi-byte character is below 0x80, as in UTF-8. */
  predicate High(table: seq<Form>) {
    forall f, k, j :: 0 <= f < |table| && 0 <= k < |table[f]| && 0 <= j < |table[f][k]| ==> table[f][k][j].0 >= 0x80
  }

  lemma {:induction false} HighChar(table: seq<Form>, s: seq<byte>, i: nat)
    requires High(table) && i < CharOf(table, s)
    ensures s[i] >= 0x80
  {
    if table != [] {
      if Matches(s, table[0]) {
        assert InRanges(s[i], table[0][i]);
      } else {
        HighTail(table);
        HighChar(table[1..], s, i);
      }
    }
  }

  lemma HighTail(table: seq<Form>)
    requires High(table) && table != []
    ensures High(table[1..])
  {
    forall f, k, j | 0 <= f < |table[1..]| && 0 <= k < |table[1..][f]| && 0 <= j < |table[1..][f][k]|
      ensures table[1..][f][k][j].0 >= 0x80
    {
      assert table[1..][f] == table[f + 1];
    }
  }

  /** The bytes of one character leave the escape as they came in. */
  lemma {:induction false} HighStays(val: seq<byte>, n: nat)
    requires n <= |val| && AllHigh(val[..n])
    ensures Escape(None, val) == val[..n] + Escape(None, val[n..])
    decreases n
  {
    if n > 0 {
      FrontOfCons(val[0], val[1..], n);
      assert [val[0]] + val[1..] == val;
      HighStays(val[1..], n - 1);
      assert val[1..][n - 1..] == val[n..] && val[..n] == [val[0]] + val[1..][..n - 1];
    } else {
      assert val[0..] == val;
    }
  }

  predicate AllHigh(s: seq<byte>) { forall i :: 0 <= i < |s| ==> s[i] >= 0x80 }

  /** If the escaped text starts with a byte of at least 0x80, it is that of the text. */
  lemma HighOne(val: seq<byte>, tail: seq<byte>)
    requires (tail == [] || tail[0] < 0x80) && Escape(None, val) + tail != []
    requires (Escape(None, val) + tail)[0] >= 0x80
    ensures val != [] && Escape(None, val) + tail == [val[0]] + (Escape(None, val[1..]) + tail)
  {
    hide Escape;
    NothingEscaped(None, tail);
    if val != [] {
      ByteEscaped(None, val);
    }
  }

  /** How far the escaped text starts with such bytes. */
  lemma {:induction false} HighFront(val: seq<byte>, tail: seq<byte>, n: nat)
    requires n <= |Escape(None, val) + tail| && (tail == [] || tail[0] < 0x80)
    requires AllHigh((Escape(None, val) + tail)[..n])
    ensures n <= |val| && (Escape(None, val) + tail)[..n] == val[..n] && AllHigh(val[..n])
    decreases n
  {
    hide Escape;
    if n > 0 {
      var s := Escape(None, val) + tail;
      assert s[..n][0] == s[0];
      HighOne(val, tail);
      var more := Escape(None, val[1..]) + tail;
      FrontOfCons(val[0], more, n);
      HighFront(val[1..], tail, n - 1);
      FrontOfCons(val[0], val[1..], n);
      assert [val[0]] + val[1..] == val;
    }
  }

  lemma FrontOfCons(x: byte, more: seq<byte>, n: nat)
    requires 0 < n <= 1 + |more|
    ensures ([x] + more)[..n] == [x] + more[..n - 1]
    ensures AllHigh(([x] + more)[..n]) <==> x >= 0x80 && AllHigh(more[..n - 1])
  {
    var s, t := ([x] + more)[..n], more[..n - 1];
    assert s == [x] + t;
    if AllHigh(s) {
      assert s[0] == x && forall i :: 0 <= i < |t| ==> t[i] == s[i + 1];
    }
  }

  /** On connections whose set has no character with a byte below 0x80 the byte-wise escape is enough:
      the server, taking its multi-byte characters whole, reads the text back. */
  lemma {:induction false} PlainIsRead(q: byte, table: seq<Form>, val: seq<byte>, rest: seq<byte>)
    requires IsQuote(q) && High(table)
    ensures LexTo(q, table, Escape(None, val) + ([q] + rest)) == Closed(val, rest)
    decreases |val|
  {
    hide Escape, LexTo, CharOf, High;
    var s := Escape(None, val) + ([q] + rest);
    var n := CharOf(table, s);
    forall i | 0 <= i < n
      ensures s[..n][i] >= 0x80
    {
      HighChar(table, s, i);
    }
    HighFront(val, [q] + rest, n);
    if n > 0 {
      HighStays(val, n);
      PlainIsRead(q, table, val[n..], rest);
      PlainChar(q, table, val, n, rest);
      assert val == val[..n] + val[n..];
    } else if val == [] {
      NothingEscaped(None, [q] + rest);
      PlainEnd(q, table, rest);
    } else {
      PlainIsRead(q, table, val[1..], rest);
      PlainByte(q, table, val, rest);
      assert val == [val[0]] + val[1..];
    }
  }

  lemma PlainChar(q: byte, table: seq<Form>, val: seq<byte>, n: nat, rest: seq<byte>)
    requires n == CharOf(table, Escape(None, val) + ([q] + rest)) && 0 < n <= |val|
    requires Escape(None, val) == val[..n] + Escape(None, val[n..])
    requires LexTo(q, table, Escape(None, val[n..]) + ([q] + rest)) == Closed(val[n..], rest)
    ensures LexTo(q, table, Escape(None, val) + ([q] + rest)) == Closed(val[..n] + val[n..], rest)
  {
    hide CharOf, Escape;
    var s := Escape(None, val) + ([q] + rest);
    assert s[..n] == val[..n] && s[n..] == Escape(None, val[n..]) + ([q] + rest);
  }

  lemma PlainEnd(q: byte, table: seq<Form>, rest: seq<byte>)
    requires IsQuote(q) && CharOf(table, [q] + rest) == 0
    ensures LexTo(q, table, [q] + rest) == Closed([], rest)
  {
    hide CharOf;
    assert ([q] + rest)[1..] == rest;
  }

  lemma PlainByte(q: byte, table: seq<Form>, val: seq<byte>, rest: seq<byte>)
    requires IsQuote(q) && val != [] && CharOf(table, Escape(None, val) + ([q] + rest)) == 0
    requires LexTo(q, table, Escape(None, val[1..]) + ([q] + rest)) == Closed(val[1..], rest)
    ensures LexTo(q, table, Escape(None, val) + ([q] + rest)) == Closed([val[0]] + val[1..], rest)
  {
    hide CharOf, Escape, LexTo;
    var more := Escape(None, val[1..]) + ([q] + rest);
    ByteEscaped(None, val);
    if Special(val[0]) {
      assert Escape(None, val) + ([q] + rest) == [SLASH, val[0]] + more;
      LexSlash(q, table, val[0], more);
    } else {
      assert Escape(None, val) + ([q] + rest) == [val[0]] + more;
      LexOne(q, table, val[0], more);
    }
  }

  lemma LexSlash(q: byte, table: seq<Form>, b: byte, more: seq<byte>)
    requires CharOf(table, [SLASH, b] + more) == 0
    ensures LexTo(q, table, [SLASH, b] + more) == Text([b], LexTo(q, table, more))
  {
    hide CharOf;
    assert ([SLASH, b] + more)[2..] == more;
  }

  lemma LexOne(q: byte, table: seq<Form>, b: byte, more: seq<byte>)
    requires CharOf(table, [b] + more) == 0 && b != SLASH && b != q
    ensures LexTo(q, table, [b] + more) == Text([b], LexTo(q, table, more))
  {
    hide CharOf;
    assert ([b] + more)[1..] == more;
  }

  /** The characters of UTF-8, with surrogates and codes past U+10FFFF left out. */
  const UTF8: seq<Form> := [
    [[(0xc2, 0xdf)], [(0x80, 0xbf)]],
    [[(0xe0, 0xe0)], [(0xa0, 0xbf)], [(0x80, 0xbf)]],
    [[(0xe1, 0xec), (0xee, 0xef)], [(0x80, 0xbf)], [(0x80, 0xbf)]],
    [[(0xed, 0xed)], [(0x80, 0x9f)], [(0x80, 0xbf)]],
    [[(0xf0, 0xf0)], [(0x90, 0xbf)], [(0x80, 0xbf)], [(0x80, 0xbf)]],
    [[(0xf1, 0xf3)], [(0x80, 0xbf)], [(0x80, 0xbf)], [(0x80, 0xbf)]],
    [[(0xf4, 0xf4)], [(0x80, 0x8f)], [(0x80, 0xbf)], [(0x80, 0xbf)]]]

  lemma Utf8IsHigh()
    ensures High(UTF8) && Served(None, UTF8)
  {
  }

  lemma {:induction false} EscapeLength(cs: Option<Charset>, val: seq<byte>)
    ensures |Escape(cs, val)| <= 2 * |val|
    decreases |val|
  {
    if val != [] {
      var n := CharLen(cs, val);
      EscapeLength(cs, val[if n > 0 then n else 1..]);
    }
  }

  lemma {:induction false} EscapePlainAppend(a: seq<byte>, b: seq<byte>)
    ensures Escape(None, a + b) == Escape(None, a) + Escape(None, b)
  {
    if a == [] {
      assert a + b == b;
    } else {
      assert (a + b)[1..] == a[1..] + b;
      EscapePlainAppend(a[1..], b);
    }
  }

  lemma {:induction false} PlainAll(chunks: seq<seq<byte>>)
    ensures EscapeAll(None, chunks) == Escape(None, Flatten(chunks))
  {
    hide Escape;
    if chunks == [] {
      NothingEscaped(None, []);
    } else {
      PlainAll(chunks[1..]);
      EscapePlainAppend(chunks[0], Flatten(chunks[1..]));
    }
  }

  /** The characters a server knows on a connection for which the program uses this recognizer: those
      of the set, or for a set that needs none, any without a byte below 0x80. */
  predicate Served(cs: Option<Charset>, table: seq<Form>) { if cs.Some? then table == Table(cs) else High(table) }

  /** For every character set and every way to cut the payload into chunks, also in the middle of a
      character, the server reads the payload back and ends the literal at the final quote only,
      whichever of the two quotes encloses it. */
  lemma EscapeRoundTrip(q: byte, cs: Option<Charset>, table: seq<Form>, chunks: seq<seq<byte>>, rest: seq<byte>)
    requires IsQuote(q) && Served(cs, table)
    ensures LexTo(q, table, EscapeAll(cs, chunks) + ([q] + rest)) == Closed(Flatten(chunks), rest)
  {
    hide EscapeAll, LexTo, Table, High, Escape;
    if cs.Some? {
      LexEscapeAll(q, cs, chunks, [q] + rest);
      ClosesHere(q, cs, rest);
      assert Flatten(chunks) + [] == Flatten(chunks);
    } else {
      PlainAll(chunks);
      PlainIsRead(q, table, Flatten(chunks), rest);
    }
  }
}
