/** Which question marks of a query are placeholders: the scanner of the connector against a reading
    of the query token by token. */
module Placeholders {
  import opened Bytes
  import opened SqlTokens

  const MARK: byte := 0x3f

  // ---------- the tokens of a query ----------

  predicate OpensComment(q: seq<byte>, i: nat) {
    i + 1 < |q| && q[i] == SLASH_BYTE && q[i + 1] == STAR_BYTE
  }

  predicate OpensLine(q: seq<byte>, i: nat) {
    i + 1 < |q| && q[i] == MINUS_BYTE && q[i + 1] == MINUS_BYTE && (i + 2 >= |q| || q[i + 2] <= 0x20)
  }

  /** Where the token that begins at `i` ends: a string, a quoted name, a comment, or one byte. With
      `quick` as the scanner sees it: a question mark takes the byte behind it along, and the star
      that opens a comment may also be the one that closes it. */
  function TokenEnd(q: seq<byte>, i: nat, quick: bool): (e: nat)
    requires i < |q|
    ensures i < e <= |q|
  {
    var c := q[i];
    if c == MARK then (if quick then Min(i + 2, |q|) else i + 1)
    else if c == QUOTE_BYTE || c == DBL_QUOTE_BYTE then StringEnd(q, i + 1, c)
    else if c == RADICAL_BYTE then Behind(q, i + 1, RADICAL_BYTE)
    else if c == HASH_BYTE then Behind(q, i + 1, LINE_FEED_BYTE)
    else if OpensLine(q, i) then Behind(q, i + 2, LINE_FEED_BYTE)
    else if OpensComment(q, i) then CommentEnd(q, if quick then i + 1 else i + 2)
    else i + 1
  }

  /** The question marks that are tokens of their own, from `i` on. */
  function Marks(q: seq<byte>, i: nat, quick: bool): seq<nat>
    requires i <= |q|
    decreases |q| - i
  {
    if i == |q| then []
    else (if q[i] == MARK then [i] else []) + Marks(q, TokenEnd(q, i, quick), quick)
  }

  /** The placeholders of a query. */
  function Reference(q: seq<byte>): seq<nat> {
    Marks(q, 0, false)
  }

  function Pairs(marks: seq<nat>): seq<nat> {
    if marks == [] then [] else [marks[0], marks[0] + 1] + Pairs(marks[1..])
  }

  lemma {:induction false} PairsSnoc(marks: seq<nat>, i: nat)
    ensures Pairs(marks + [i]) == Pairs(marks) + [i, i + 1]
  {
    if marks != [] {
      assert (marks + [i])[1..] == marks[1..] + [i];
      PairsSnoc(marks[1..], i);
    }
  }

  // ---------- the scanner ----------

  /** Pairs of positions, one byte each, in order, on question marks. */
  predicate Spans(sql: seq<byte>, pos: seq<nat>) {
    && |pos| % 2 == 0
    && (forall k :: 0 <= k < |pos| / 2 ==>
          pos[2 * k] < |sql| && pos[2 * k + 1] == pos[2 * k] + 1 && sql[pos[2 * k]] == MARK)
    && (forall k :: 0 <= k < |pos| / 2 - 1 ==> pos[2 * k + 1] <= pos[2 * k + 2])
  }

  lemma NoSpans(sql: seq<byte>)
    ensures Spans(sql, [])
  {
  }

  lemma SpanAdded(sql: seq<byte>, pos: seq<nat>, i: nat)
    requires Spans(sql, pos) && i < |sql| && sql[i] == MARK
    requires pos != [] ==> pos[|pos| - 1] <= i
    ensures Spans(sql, pos + [i, i + 1])
  {
    var more := pos + [i, i + 1];
    forall k | 0 <= k < |more| / 2
      ensures more[2 * k] < |sql| && more[2 * k + 1] == more[2 * k] + 1 && sql[more[2 * k]] == MARK
    {
      if 2 * k < |pos| {
        assert more[2 * k] == pos[2 * k] && more[2 * k + 1] == pos[2 * k + 1];
      }
    }
  }

  datatype State = Normal | Str | SlashStarComment | Esc | EOLComment | Backtick

  /** Where the token under way ends, by the state of the scanner in front of the byte `i`: an
      ordinary byte is known to have opened a comment only with the byte behind it. */
  function Start(q: seq<byte>, i: nat, state: State, last: byte, single: bool): (n: nat)
    requires i <= |q|
    ensures n <= |q|
  {
    match state
    case Normal => if i > 0 && Opens(q, i, last) then i - 1 else i
    case Str => StringEnd(q, i, Quote(single))
    case Esc => if i == |q| then i else StringEnd(q, i + 1, Quote(single))
    case Backtick => Behind(q, i, RADICAL_BYTE)
    case EOLComment => Behind(q, i, LINE_FEED_BYTE)
    case SlashStarComment => CommentEnd(q, if i > 0 && last == STAR_BYTE then i - 1 else i)
  }

  function Quote(single: bool): byte {
    if single then QUOTE_BYTE else DBL_QUOTE_BYTE
  }

  /** The byte `i` makes the byte in front of it, `last`, the opener of a comment. */
  predicate Opens(q: seq<byte>, i: nat, last: byte)
    requires i <= |q|
  {
    && i < |q|
    && (|| (last == SLASH_BYTE && q[i] == STAR_BYTE)
        || (last == MINUS_BYTE && q[i] == MINUS_BYTE && (i + 1 >= |q| || q[i + 1] <= 0x20)))
  }

  /** `last` is the byte in front, where it can matter. */
  predicate Follows(q: seq<byte>, i: nat, state: State, last: byte) {
    && i <= |q|
    && (state == SlashStarComment ==> i > 0 && last == q[i - 1])
    && (state == Normal && (last == SLASH_BYTE || last == MINUS_BYTE) ==> i > 0 && last == q[i - 1])
  }

  /** What one byte does to the state, placeholders aside. */
  function Switch(query: seq<byte>, i: nat, state: State, last: byte, single: bool): (State, bool)
    requires i < |query|
  {
    var c := query[i];
    if c == STAR_BYTE then (if state == Normal && last == SLASH_BYTE then SlashStarComment else state, single)
    else if c == HASH_BYTE then (if state == Normal then EOLComment else state, single)
    else if c == MINUS_BYTE then
      (if state == Normal && last == MINUS_BYTE && (i + 1 >= |query| || query[i + 1] <= 0x20) then EOLComment
       else state,
       single)
    else if c == LINE_FEED_BYTE then (if state == EOLComment then Normal else state, single)
    else if c == DBL_QUOTE_BYTE then
      if state == Normal then (Str, false)
      else if state == Str && !single then (Normal, single)
      else if state == Esc then (Str, single)
      else (state, single)
    else if c == QUOTE_BYTE then
      if state == Normal then (Str, true)
      else if state == Str && single then (Normal, single)
      else if state == Esc then (Str, single)
      else (state, single)
    else if c == BACKSLASH_BYTE then (if state == Str then Esc else state, single)
    else if c == RADICAL_BYTE then
      (if state == Backtick then Normal else if state == Normal then Backtick else state, single)
    else (state, single)
  }

  /** `splitQuery`: a placeholder takes its own byte and jumps over the one behind it. */
  method SplitQuery(query: seq<byte>) returns (paramPositions: seq<nat>)
    ensures paramPositions == Pairs(Marks(query, 0, true))
    ensures Spans(query, paramPositions)
  {
    hide Spans, Pairs, Switch, Start, Marks, TokenEnd, Follows;
    paramPositions := [];
    NoSpans(query);
    Begins(query);
    var state, lastChar: byte, singleQuotes := Normal, 0, false;
    ghost var found: seq<nat> := [];
    var i := 0;
    while i < |query|
      invariant i <= |query| + 1 && Follows(query, Min(i, |query|), state, lastChar)
      invariant Spans(query, paramPositions) && paramPositions == Pairs(found)
      invariant paramPositions != [] ==> paramPositions[|paramPositions| - 1] <= i
      invariant Marks(query, 0, true)
             == found + Marks(query, Start(query, Min(i, |query|), state, lastChar, singleQuotes), true)
    {
      var currentChar := query[i];
      if && state == Esc
         && !((currentChar == QUOTE_BYTE && singleQuotes) || (currentChar == DBL_QUOTE_BYTE && !singleQuotes)) {
        Escaped(query, i, lastChar, singleQuotes);
        state := Str;
        lastChar := currentChar;
      } else if currentChar == SLASH_BYTE && state == SlashStarComment && lastChar == STAR_BYTE {
        CommentClosed(query, i, singleQuotes);
        state := Normal;
        lastChar := 0;
      } else {
        if currentChar == MARK && state == Normal {
          Marked(query, i, lastChar, singleQuotes);
          SpanAdded(query, paramPositions, i);
          PairsSnoc(found, i);
          found := found + [i];
          paramPositions := paramPositions + [i, i + 1];
          i := i + 1;
        } else {
          var s := Switch(query, i, state, lastChar, singleQuotes);
          Switched(query, i, state, lastChar, singleQuotes);
          state, singleQuotes := s.0, s.1;
        }
        lastChar := currentChar;
      }
      i := i + 1;
    }
    Ended(query, state, lastChar, singleQuotes);
    assert found + [] == found;
  }

  // ---------- one byte of the scanner ----------

  lemma Begins(q: seq<byte>)
    ensures Start(q, 0, Normal, 0, false) == 0 && Follows(q, 0, Normal, 0) && Pairs([]) == []
  {
  }

  lemma Ended(q: seq<byte>, state: State, last: byte, single: bool)
    requires Follows(q, |q|, state, last)
    ensures Marks(q, Start(q, |q|, state, last, single), true) == []
  {
  }

  lemma Escaped(q: seq<byte>, i: nat, last: byte, single: bool)
    requires i < |q|
    ensures Start(q, i, Esc, last, single) == Start(q, i + 1, Str, q[i], single) && Follows(q, i + 1, Str, q[i])
  {
  }

  lemma CommentClosed(q: seq<byte>, i: nat, single: bool)
    requires i < |q| && Follows(q, i, SlashStarComment, STAR_BYTE) && q[i] == SLASH_BYTE
    ensures Start(q, i, SlashStarComment, STAR_BYTE, single) == Start(q, i + 1, Normal, 0, single)
    ensures Follows(q, i + 1, Normal, 0)
  {
  }

  lemma Marked(q: seq<byte>, i: nat, last: byte, single: bool)
    requires i < |q| && q[i] == MARK
    ensures Marks(q, Start(q, i, Normal, last, single), true)
         == [i] + Marks(q, Start(q, Min(i + 2, |q|), Normal, MARK, single), true)
    ensures Follows(q, Min(i + 2, |q|), Normal, MARK)
  {
  }

  lemma Switched(q: seq<byte>, i: nat, state: State, last: byte, single: bool)
    requires i < |q| && Follows(q, i, state, last)
    requires state == Esc ==> q[i] == Quote(single)
    requires !(q[i] == SLASH_BYTE && state == SlashStarComment && last == STAR_BYTE)
    requires !(q[i] == MARK && state == Normal)
    ensures var s := Switch(q, i, state, last, single);
            && Follows(q, i + 1, s.0, q[i])
            && Marks(q, Start(q, i, state, last, single), true) == Marks(q, Start(q, i + 1, s.0, q[i], s.1), true)
  {
    match state
    case Normal => FromNormal(q, i, last, single);
    case SlashStarComment => InComment(q, i, last, single);
    case _ =>
  }

  lemma FromNormal(q: seq<byte>, i: nat, last: byte, single: bool)
    requires i < |q| && Follows(q, i, Normal, last) && q[i] != MARK
    ensures var s := Switch(q, i, Normal, last, single);
            && Follows(q, i + 1, s.0, q[i])
            && Marks(q, Start(q, i, Normal, last, single), true) == Marks(q, Start(q, i + 1, s.0, q[i], s.1), true)
  {
    hide Switch, Start, TokenEnd;
    if Opens(q, i, last) {
      SecondByte(q, i, last, single);
    } else {
      FirstByte(q, i, last, single);
    }
  }

  /** The byte `i` completes the opener of a comment, which begins in front of it. */
  lemma SecondByte(q: seq<byte>, i: nat, last: byte, single: bool)
    requires i < |q| && Follows(q, i, Normal, last) && Opens(q, i, last)
    ensures var s, n := Switch(q, i, Normal, last, single), Start(q, i, Normal, last, single);
            && Follows(q, i + 1, s.0, q[i]) && n < |q| && q[n] != MARK
            && TokenEnd(q, n, true) == Start(q, i + 1, s.0, q[i], s.1)
  {
    assert TokenEnd(q, i - 1, true) == if q[i] == STAR_BYTE then CommentEnd(q, i) else Behind(q, i + 1, LINE_FEED_BYTE);
  }

  /** The byte `i` begins a token. */
  lemma FirstByte(q: seq<byte>, i: nat, last: byte, single: bool)
    requires i < |q| && Follows(q, i, Normal, last) && q[i] != MARK && !Opens(q, i, last)
    ensures Start(q, i, Normal, last, single) == i
    ensures var s := Switch(q, i, Normal, last, single);
            && Follows(q, i + 1, s.0, q[i])
            && Start(q, i + 1, s.0, q[i], s.1) == if Opens(q, i + 1, q[i]) then i else TokenEnd(q, i, true)
  {
  }

  lemma InComment(q: seq<byte>, i: nat, last: byte, single: bool)
    requires i < |q| && Follows(q, i, SlashStarComment, last) && !(q[i] == SLASH_BYTE && last == STAR_BYTE)
    ensures Switch(q, i, SlashStarComment, last, single) == (SlashStarComment, single)
    ensures Start(q, i, SlashStarComment, last, single) == Start(q, i + 1, SlashStarComment, q[i], single)
  {
    assert Start(q, i, SlashStarComment, last, single) == CommentEnd(q, i);
  }

  // ---------- when the scanner finds the placeholders ----------

  /** A byte that means something at the start of a token. */
  predicate Special(c: byte) {
    || c == MARK || c == QUOTE_BYTE || c == DBL_QUOTE_BYTE || c == RADICAL_BYTE
    || c == HASH_BYTE || c == SLASH_BYTE || c == MINUS_BYTE
  }

  /** The token at `i` leads the scanner astray: a question mark with a special byte close behind, or
      a comment whose first byte is a slash. */
  predicate Tight(q: seq<byte>, i: nat)
    requires i < |q|
  {
    || (q[i] == MARK && i + 1 < |q| && Special(q[i + 1]))
    || (OpensComment(q, i) && i + 2 < |q| && q[i + 2] == SLASH_BYTE)
  }

  /** No token from `i` on is tight. */
  predicate Loose(q: seq<byte>, i: nat)
    requires i <= |q|
    decreases |q| - i
  {
    i < |q| ==> !Tight(q, i) && Loose(q, TokenEnd(q, i, false))
  }

  lemma {:induction false} LooseAgrees(q: seq<byte>, i: nat)
    requires i <= |q| && Loose(q, i)
    ensures Marks(q, i, true) == Marks(q, i, false)
    decreases |q| - i
  {
    if i < |q| {
      LooseAgrees(q, TokenEnd(q, i, false));
      LooseToken(q, i);
    }
  }

  /** A token ends where it does whatever comes two bytes behind it. */
  lemma TokenEndLocal(q: seq<byte>, p: seq<byte>, n: nat, i: nat)
    requires i < |q| && TokenEnd(q, i, false) + 2 <= n <= |q| && n <= |p| && q[..n] == p[..n]
    ensures TokenEnd(p, i, false) == TokenEnd(q, i, false)
  {
    var c := q[i];
    assert forall k :: 0 <= k < n ==> p[k] == q[..n][k] == q[k];
    if c == QUOTE_BYTE || c == DBL_QUOTE_BYTE {
      StringEndLocal(q, p, n, i + 1, c);
    } else if c == RADICAL_BYTE || c == HASH_BYTE {
      BehindLocal(q, p, n, i + 1, if c == HASH_BYTE then LINE_FEED_BYTE else RADICAL_BYTE);
    } else if OpensLine(q, i) {
      BehindLocal(q, p, n, i + 2, LINE_FEED_BYTE);
    } else if OpensComment(q, i) {
      CommentEndLocal(q, p, n, i + 2);
    }
  }

  /** What makes the scanner and the reference part at a tight token. */
  function Ending(c: byte, comment: bool): seq<byte> {
    if comment then [MARK]
    else if c == MARK then []
    else if c == SLASH_BYTE then [STAR_BYTE, MARK]
    else if c == MINUS_BYTE then [MINUS_BYTE, 0x20, MARK]
    else [MARK]
  }

  lemma OneByte(p: seq<byte>, i: nat, quick: bool)
    requires i < |p| && (!Special(p[i]) || (p[i] == MINUS_BYTE && !OpensLine(p, i)))
    ensures Marks(p, i, quick) == Marks(p, i + 1, quick)
  {
  }

  lemma LastMark(p: seq<byte>, i: nat, quick: bool)
    requires |p| == i + 1 && p[i] == MARK
    ensures Marks(p, i, quick) == [i]
  {
  }

  lemma MarkBehind(p: seq<byte>, i: nat)
    requires |p| == i + 2 && p[i] == MARK && p[i + 1] == MARK
    ensures Marks(p, i, true) != Marks(p, i, false)
  {
    LastMark(p, i + 1, false);
    assert Marks(p, i, true) == [i];
  }

  lemma QuoteBehind(p: seq<byte>, i: nat)
    requires |p| == i + 3 && p[i] == MARK && p[i + 2] == MARK
    requires p[i + 1] in [QUOTE_BYTE, DBL_QUOTE_BYTE, RADICAL_BYTE, HASH_BYTE]
    ensures Marks(p, i, true) != Marks(p, i, false)
  {
    LastMark(p, i + 2, true);
    assert TokenEnd(p, i + 1, false) == i + 3;
    assert Marks(p, i + 1, false) == [];
  }

  lemma SlashBehind(p: seq<byte>, i: nat)
    requires |p| == i + 4 && p[i] == MARK && p[i + 1] == SLASH_BYTE && p[i + 2] == STAR_BYTE && p[i + 3] == MARK
    ensures Marks(p, i, true) != Marks(p, i, false)
  {
    OneByte(p, i + 2, true);
    LastMark(p, i + 3, true);
    assert TokenEnd(p, i + 1, false) == CommentEnd(p, i + 3) == i + 4;
    assert Marks(p, i + 1, false) == [];
  }

  lemma MinusBehind(p: seq<byte>, i: nat)
    requires |p| == i + 5 && p[i] == MARK && p[i + 1] == p[i + 2] == MINUS_BYTE && p[i + 3] == 0x20 && p[i + 4] == MARK
    ensures Marks(p, i, true) != Marks(p, i, false)
  {
    OneByte(p, i + 2, true);
    OneByte(p, i + 3, true);
    LastMark(p, i + 4, true);
    assert Behind(p, i + 4, LINE_FEED_BYTE) == i + 5;
    assert TokenEnd(p, i + 1, false) == Behind(p, i + 3, LINE_FEED_BYTE) == i + 5;
    assert Marks(p, i + 1, false) == [];
  }

  lemma SlashFirst(p: seq<byte>, i: nat)
    requires |p| == i + 4 && p[i] == SLASH_BYTE && p[i + 1] == STAR_BYTE && p[i + 2] == SLASH_BYTE && p[i + 3] == MARK
    ensures Marks(p, i, true) != Marks(p, i, false)
  {
    LastMark(p, i + 3, true);
    assert TokenEnd(p, i, true) == i + 3;
    assert CommentEnd(p, i + 3) == i + 4;
    assert TokenEnd(p, i, false) == CommentEnd(p, i + 2) == i + 4;
  }

  lemma TightMisleads(q: seq<byte>, i: nat, n: nat, rest: seq<byte>)
    requires i < |q| && Tight(q, i) && n == (if q[i] == MARK then i + 2 else i + 3) <= |q|
    requires rest == Ending(q[i + 1], q[i] != MARK)
    ensures Marks(q[..n] + rest, i, true) != Marks(q[..n] + rest, i, false)
  {
    hide Marks;
    var p := q[..n] + rest;
    if q[i] != MARK {
      SlashFirst(p, i);
    } else if q[i + 1] == MARK {
      MarkBehind(p, i);
    } else if q[i + 1] == SLASH_BYTE {
      SlashBehind(p, i);
    } else if q[i + 1] == MINUS_BYTE {
      MinusBehind(p, i);
    } else {
      QuoteBehind(p, i);
    }
  }

  /** A query with a tight token is misread as soon as the bytes behind that token are the wrong ones. */
  lemma {:induction false} TightIsMisread(q: seq<byte>, i: nat) returns (n: nat, rest: seq<byte>)
    requires i <= |q| && !Loose(q, i)
    ensures i + 2 <= n <= |q| && Marks(q[..n] + rest, i, true) != Marks(q[..n] + rest, i, false)
    decreases |q| - i
  {
    if Tight(q, i) {
      n, rest := if q[i] == MARK then i + 2 else i + 3, Ending(q[i + 1], q[i] != MARK);
      TightMisleads(q, i, n, rest);
    } else {
      var e := TokenEnd(q, i, false);
      n, rest := TightIsMisread(q, e);
      var p := q[..n] + rest;
      assert q[..n] == p[..n] && forall k :: 0 <= k < n ==> p[k] == q[k];
      TokenEndLocal(q, p, n, i);
      LooseToken(p, i);
      ghost var first := if p[i] == MARK then [i] else [];
      assert (first + Marks(p, e, true))[|first|..] == Marks(p, e, true);
      assert (first + Marks(p, e, false))[|first|..] == Marks(p, e, false);
    }
  }

  /** In front of a token that is not tight the scanner and the reference stand together. */
  lemma LooseToken(p: seq<byte>, i: nat)
    requires i < |p| && !Tight(p, i)
    ensures Marks(p, i, true) == (if p[i] == MARK then [i] else []) + Marks(p, TokenEnd(p, i, false), true)
  {
    if p[i] == MARK && i + 1 < |p| {
      assert TokenEnd(p, i + 1, true) == i + 2 == TokenEnd(p, i, true);
    } else if OpensComment(p, i) {
      assert CommentEnd(p, i + 1) == CommentEnd(p, i + 2);
    }
  }

  /** The scanner finds the placeholders of every query without a tight token; with one, the query up
      to it has an ending with which it does not. */
  lemma FoundExactly(q: seq<byte>)
    ensures Loose(q, 0) ==> Marks(q, 0, true) == Reference(q)
    ensures !Loose(q, 0) ==>
              exists n: nat, rest: seq<byte> ::
                n <= |q| && Marks(q[..n] + rest, 0, true) != Reference(q[..n] + rest)
  {
    if Loose(q, 0) {
      LooseAgrees(q, 0);
    } else {
      var n, rest := TightIsMisread(q, 0);
      assert n <= |q| && Marks(q[..n] + rest, 0, true) != Reference(q[..n] + rest);
    }
  }

  /** A question mark in a comment is taken for a placeholder when the comment stands directly behind one. */
  lemma CommentExample()
    ensures var q := [MARK, SLASH_BYTE, STAR_BYTE, MARK, STAR_BYTE, SLASH_BYTE];
            Marks(q, 0, true) == [0, 3] && Reference(q) == [0]
  {
    var q := [MARK, SLASH_BYTE, STAR_BYTE, MARK, STAR_BYTE, SLASH_BYTE];
    assert Marks(q, 6, true) == [];
    OneByte(q, 2, true);
    assert Marks(q, 5, true) == [] && Marks(q, 3, true) == [3];
    assert CommentEnd(q, 4) == 6;
    assert TokenEnd(q, 1, false) == CommentEnd(q, 3) == 6;
    assert Marks(q, 1, false) == [];
  }
}
