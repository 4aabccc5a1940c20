/** Splitting SQL text at semicolons: the byte automaton, and what rescanning an unfinished
    statement gives. */
module SqlScan {
  import opened Bytes
  import opened SqlTokens

  datatype State = Normal | String | SlashStarComment | Escape | EOLComment | Backtick

  datatype Scan = Scan(state: State, lastChar: byte, singleQuotes: bool)

  const START: Scan := Scan(Normal, 0, false)

  /** One byte. In the state after a backslash, only the enclosing quote is looked at. */
  function Next(s: Scan, b: byte): Scan {
    if s.state == Escape && !((b == QUOTE_BYTE && s.singleQuotes) || (b == DBL_QUOTE_BYTE && !s.singleQuotes)) then
      Scan(String, b, s.singleQuotes)
    else Switch(s, b).(lastChar := b)
  }

  function Switch(s: Scan, b: byte): Scan {
    if b == STAR_BYTE then
      if s.state == Normal && s.lastChar == SLASH_BYTE then s.(state := SlashStarComment) else s
    else if b == SLASH_BYTE then
      if s.state == SlashStarComment && s.lastChar == STAR_BYTE then s.(state := Normal)
      else if s.state == Normal && s.lastChar == SLASH_BYTE then s.(state := EOLComment) else s
    else if b == HASH_BYTE then
      if s.state == Normal then s.(state := EOLComment) else s
    else if b == MINUS_BYTE then
      if s.state == Normal && s.lastChar == MINUS_BYTE then s.(state := EOLComment) else s
    else if b == LINE_FEED_BYTE then
      if s.state == EOLComment then s.(state := Normal) else s
    else if b == DBL_QUOTE_BYTE then
      if s.state == Normal then s.(state := String, singleQuotes := false)
      else if s.state == String && !s.singleQuotes then s.(state := Normal)
      else if s.state == Escape then s.(state := String) else s
    else if b == QUOTE_BYTE then
      if s.state == Normal then s.(state := String, singleQuotes := true)
      else if s.state == String && s.singleQuotes then s.(state := Normal)
      else if s.state == Escape then s.(state := String) else s
    else if b == BACKSLASH_BYTE then
      if s.state == String then s.(state := Escape) else s
    else if b == RADICAL_BYTE then
      if s.state == Backtick then s.(state := Normal)
      else if s.state == Normal then s.(state := Backtick) else s
    else s
  }

  predicate Splits(s: Scan, b: byte) { b == SEMICOLON_BYTE && s.state == Normal }

  /** Statements found, and the bytes of the unfinished one. */
  datatype Pieces = Pieces(queries: seq<seq<byte>>, tail: seq<byte>)

  function Put(q: seq<byte>, p: Pieces): Pieces { p.(queries := [q] + p.queries) }

  /** Splitting `text` when `cur` has been read of the current statement. */
  function SplitFrom(s: Scan, cur: seq<byte>, text: seq<byte>): Pieces
    decreases |text|
  {
    if text == [] then Pieces([], cur)
    else if Splits(s, text[0]) then Put(cur, SplitFrom(Next(s, text[0]), [], text[1..]))
    else SplitFrom(Next(s, text[0]), cur + [text[0]], text[1..])
  }

  /** One scan of a whole text. */
  function Split(text: seq<byte>): Pieces { SplitFrom(START, [], text) }

  function Run(s: Scan, text: seq<byte>): Scan
    decreases |text|
  {
    if text == [] then s else Run(Next(s, text[0]), text[1..])
  }

  // ---------- scanning again from the start of a statement ----------

  predicate Telling(b: byte) { b == STAR_BYTE || b == SLASH_BYTE || b == MINUS_BYTE }

  /** Two states that no byte tells apart. */
  predicate Alike(a: Scan, b: Scan) {
    && a.state == b.state
    && (a.state == String || a.state == Escape ==> a.singleQuotes == b.singleQuotes)
    && (a.lastChar == b.lastChar || (!Telling(a.lastChar) && !Telling(b.lastChar)))
  }

  lemma AlikeNext(a: Scan, b: Scan, c: byte)
    requires Alike(a, b)
    ensures Alike(Next(a, c), Next(b, c)) && (Splits(a, c) <==> Splits(b, c))
  {
  }

  lemma {:induction false} AlikeSplit(a: Scan, b: Scan, cur: seq<byte>, text: seq<byte>)
    requires Alike(a, b)
    ensures SplitFrom(a, cur, text) == SplitFrom(b, cur, text)
    decreases |text|
  {
    hide Next, Alike, Splits;
    if text != [] {
      AlikeNext(a, b, text[0]);
      AlikeSplit(Next(a, text[0]), Next(b, text[0]), [], text[1..]);
      AlikeSplit(Next(a, text[0]), Next(b, text[0]), cur + [text[0]], text[1..]);
    }
  }

  lemma {:induction false} RunSnoc(s: Scan, text: seq<byte>, b: byte)
    ensures Run(s, text + [b]) == Next(Run(s, text), b)
    decreases |text|
  {
    hide Next;
    if text == [] {
      assert (text + [b])[1..] == [];
    } else {
      assert (text + [b])[1..] == text[1..] + [b];
      RunSnoc(Next(s, text[0]), text[1..], b);
    }
  }

  /** Scanning on from `cur` in one go: `cur` has no place to split. */
  predicate Whole(s: Scan, cur: seq<byte>)
    decreases |cur|
  {
    cur == [] || (!Splits(s, cur[0]) && Whole(Next(s, cur[0]), cur[1..]))
  }

  lemma {:induction false} WholeSnoc(s: Scan, cur: seq<byte>, b: byte)
    requires Whole(s, cur) && !Splits(Run(s, cur), b)
    ensures Whole(s, cur + [b])
    decreases |cur|
  {
    hide Next, Splits;
    if cur == [] {
      assert (cur + [b])[1..] == [];
    } else {
      assert (cur + [b])[1..] == cur[1..] + [b];
      WholeSnoc(Next(s, cur[0]), cur[1..], b);
    }
  }

  lemma {:induction false} WholeSplit(s: Scan, acc: seq<byte>, cur: seq<byte>, text: seq<byte>)
    requires Whole(s, cur)
    ensures SplitFrom(s, acc, cur + text) == SplitFrom(Run(s, cur), acc + cur, text)
    decreases |cur|
  {
    hide Next, Splits;
    if cur == [] {
      assert cur + text == text && acc + cur == acc;
    } else {
      assert (cur + text)[1..] == cur[1..] + text;
      WholeSplit(Next(s, cur[0]), acc + [cur[0]], cur[1..], text);
      assert acc + [cur[0]] + cur[1..] == acc + cur;
    }
  }

  /** `cur` is an unfinished statement that a fresh scan would read into a state like `s`. */
  predicate Reading(s: Scan, cur: seq<byte>) { Whole(START, cur) && Alike(Run(START, cur), s) }

  lemma ReadingNext(s: Scan, cur: seq<byte>, b: byte)
    requires Reading(s, cur)
    ensures if Splits(s, b) then Reading(Next(s, b), []) else Reading(Next(s, b), cur + [b])
  {
    hide Next;
    AlikeNext(Run(START, cur), s, b);
    RunSnoc(START, cur, b);
    if Splits(s, b) {
      AfterSemicolon(s);
    } else {
      WholeSnoc(START, cur, b);
    }
  }

  lemma AfterSemicolon(s: Scan)
    requires Splits(s, SEMICOLON_BYTE)
    ensures Alike(START, Next(s, SEMICOLON_BYTE))
  {
  }

  function Join(p: Pieces, q: Pieces): Pieces { Pieces(p.queries + q.queries, q.tail) }

  /** Scanning `a` and, later, what it left over together with `b` from a fresh start, finds the
      statements of one scan. */
  lemma {:induction false} Rescan(s: Scan, cur: seq<byte>, a: seq<byte>, b: seq<byte>)
    requires Reading(s, cur)
    ensures var p := SplitFrom(s, cur, a);
            SplitFrom(s, cur, a + b) == Join(p, Split(p.tail + b))
    decreases |a|
  {
    hide Next, Splits, Reading;
    if a == [] {
      RescanEmpty(s, cur, b);
      assert a + b == b;
    } else {
      assert (a + b)[1..] == a[1..] + b;
      ReadingNext(s, cur, a[0]);
      if Splits(s, a[0]) {
        Rescan(Next(s, a[0]), [], a[1..], b);
        PutJoin(cur, SplitFrom(Next(s, a[0]), [], a[1..]), b);
      } else {
        Rescan(Next(s, a[0]), cur + [a[0]], a[1..], b);
      }
    }
  }

  lemma PutJoin(q: seq<byte>, p: Pieces, b: seq<byte>)
    ensures Put(q, Join(p, Split(p.tail + b))) == Join(Put(q, p), Split(p.tail + b))
  {
    hide Split;
    assert [q] + (p.queries + Split(p.tail + b).queries) == [q] + p.queries + Split(p.tail + b).queries;
  }

  lemma RescanEmpty(s: Scan, cur: seq<byte>, b: seq<byte>)
    requires Reading(s, cur)
    ensures SplitFrom(s, cur, b) == Join(Pieces([], cur), Split(cur + b))
  {
    hide Next;
    WholeSplit(START, [], cur, b);
    assert [] + cur == cur;
    AlikeSplit(Run(START, cur), s, cur, b);
    var p := Split(cur + b);
    assert [] + p.queries == p.queries;
  }

  lemma SplitAgain(a: seq<byte>, b: seq<byte>)
    ensures Split(a + b) == Join(Split(a), Split(Split(a).tail + b))
  {
    Rescan(START, [], a, b);
  }

  // ---------- nothing is lost ----------

  function Text(queries: seq<seq<byte>>): seq<byte> {
    if queries == [] then [] else queries[0] + [SEMICOLON_BYTE] + Text(queries[1..])
  }

  /** The statements with their semicolons, and the tail, are the text. */
  lemma {:induction false} SplitReproduces(s: Scan, cur: seq<byte>, text: seq<byte>)
    ensures var p := SplitFrom(s, cur, text);
            Text(p.queries) + p.tail == cur + text
    decreases |text|
  {
    hide Next;
    if text == [] {
      assert Text([]) + cur == cur + text;
    } else if Splits(s, text[0]) {
      var p := SplitFrom(Next(s, text[0]), [], text[1..]);
      SplitReproduces(Next(s, text[0]), [], text[1..]);
      assert ([cur] + p.queries)[1..] == p.queries;
      assert cur + [SEMICOLON_BYTE] + Text(p.queries) + p.tail == cur + [SEMICOLON_BYTE] + (Text(p.queries) + p.tail);
      assert cur + [SEMICOLON_BYTE] + ([] + text[1..]) == cur + text;
    } else {
      SplitReproduces(Next(s, text[0]), cur + [text[0]], text[1..]);
      assert cur + [text[0]] + text[1..] == cur + text;
    }
  }

  /** No statement can be split further, nor can the tail. */
  lemma {:induction false} SplitIsFinest(s: Scan, cur: seq<byte>, text: seq<byte>)
    requires Reading(s, cur)
    ensures var p := SplitFrom(s, cur, text);
            Whole(START, p.tail) && forall q :: q in p.queries ==> Whole(START, q)
    decreases |text|
  {
    if text != [] {
      ReadingNext(s, cur, text[0]);
      hide Next, Splits;
      if Splits(s, text[0]) {
        SplitIsFinest(Next(s, text[0]), [], text[1..]);
      } else {
        SplitIsFinest(Next(s, text[0]), cur + [text[0]], text[1..]);
      }
    }
  }
}
