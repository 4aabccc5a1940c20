/** Where the statements of an SQL file end: the byte automaton against a reading token by token. */
module SqlPieces {
  import opened Bytes
  import opened SqlTokens
  import opened SqlScan

  // ---------- the tokens of a file ----------

  predicate OpensComment(q: seq<byte>, i: nat) {
    i + 1 < |q| && q[i] == SLASH_BYTE && q[i + 1] == STAR_BYTE
  }

  /** Two hyphens or two slashes. */
  predicate OpensLine(q: seq<byte>, i: nat) {
    i + 1 < |q| && q[i] == q[i + 1] && (q[i] == MINUS_BYTE || q[i] == SLASH_BYTE)
  }

  /** Where the token that begins at `i` ends: a string, a quoted name, a comment, or one byte. With
      `quick` as the automaton sees it: the star that opens a comment may also be the one that closes
      it, and the slash that closes a comment is a token of its own, which may open the next one. */
  function TokenEnd(q: seq<byte>, i: nat, quick: bool): (e: nat)
    requires i < |q|
    ensures i < e <= |q|
  {
    var c := q[i];
    if c == QUOTE_BYTE || c == DBL_QUOTE_BYTE then StringEnd(q, i + 1, c)
    else if c == RADICAL_BYTE then Behind(q, i + 1, RADICAL_BYTE)
    else if c == HASH_BYTE then Behind(q, i + 1, LINE_FEED_BYTE)
    else if OpensLine(q, i) then Behind(q, i + 2, LINE_FEED_BYTE)
    else if OpensComment(q, i) then
      var j := CommentSlash(q, if quick then i + 1 else i + 2);
      if quick || j == |q| then j else j + 1
    else i + 1
  }

  /** The semicolons that are tokens of their own, from `i` on. */
  function Ends(q: seq<byte>, i: nat, quick: bool): seq<nat>
    requires i <= |q|
    decreases |q| - i
  {
    if i == |q| then []
    else (if q[i] == SEMICOLON_BYTE then [i] else []) + Ends(q, TokenEnd(q, i, quick), quick)
  }

  /** Positions of semicolons, in order, from `b` on. */
  predicate Cuts(q: seq<byte>, b: nat, ends: seq<nat>)
    decreases |ends|
  {
    b <= |q| && (ends == [] || (b <= ends[0] < |q| && Cuts(q, ends[0] + 1, ends[1..])))
  }

  /** The statements of a text that ends them there, from `b` on. */
  function CutAt(q: seq<byte>, b: nat, ends: seq<nat>): (p: Pieces)
    requires Cuts(q, b, ends)
    ensures |p.queries| == |ends|
    decreases |ends|
  {
    if ends == [] then Pieces([], q[b..]) else Put(q[b..ends[0]], CutAt(q, ends[0] + 1, ends[1..]))
  }

  lemma {:induction false} EndsCut(q: seq<byte>, b: nat, i: nat, quick: bool)
    requires b <= i <= |q|
    ensures Cuts(q, b, Ends(q, i, quick))
    decreases |q| - i
  {
    if i < |q| {
      var e := TokenEnd(q, i, quick);
      if q[i] == SEMICOLON_BYTE {
        EndsCut(q, i + 1, e, quick);
        assert Ends(q, i, quick)[1..] == Ends(q, e, quick);
      } else {
        EndsCut(q, b, e, quick);
        assert [] + Ends(q, e, quick) == Ends(q, e, quick);
      }
    }
  }

  /** The statements of a file, by its tokens. */
  function Reference(q: seq<byte>): Pieces {
    EndsCut(q, 0, 0, false);
    CutAt(q, 0, Ends(q, 0, false))
  }

  // ---------- the automaton, byte by byte ----------

  function Quote(single: bool): byte { if single then QUOTE_BYTE else DBL_QUOTE_BYTE }

  /** The byte `i` makes the one in front of it the opener of a comment. */
  predicate Opens(q: seq<byte>, i: nat, last: byte) {
    && i < |q|
    && (|| (last == SLASH_BYTE && (q[i] == STAR_BYTE || q[i] == SLASH_BYTE))
        || (last == MINUS_BYTE && q[i] == MINUS_BYTE))
  }

  /** Where the token under way ends, by the state of the automaton in front of the byte `i`. */
  function Start(q: seq<byte>, i: nat, s: Scan): (n: nat)
    requires i <= |q|
    ensures n <= |q|
  {
    match s.state
    case Normal => if i > 0 && Opens(q, i, s.lastChar) then i - 1 else i
    case String => StringEnd(q, i, Quote(s.singleQuotes))
    case Escape => if i == |q| then i else StringEnd(q, i + 1, Quote(s.singleQuotes))
    case Backtick => Behind(q, i, RADICAL_BYTE)
    case EOLComment => Behind(q, i, LINE_FEED_BYTE)
    case SlashStarComment => CommentSlash(q, if i > 0 && s.lastChar == STAR_BYTE then i - 1 else i)
  }

  /** `lastChar` is the byte in front. */
  predicate Follows(q: seq<byte>, i: nat, s: Scan) {
    && i <= |q| && s.lastChar == (if i == 0 then 0 else q[i - 1])
    && (s.state == SlashStarComment ==> i > 0)
  }

  lemma OneStep(q: seq<byte>, i: nat, s: Scan)
    requires i < |q| && Follows(q, i, s)
    ensures Follows(q, i + 1, Next(s, q[i]))
    ensures Ends(q, Start(q, i, s), true)
            == (if Splits(s, q[i]) then [i] else []) + Ends(q, Start(q, i + 1, Next(s, q[i])), true)
  {
    hide Ends;
    match s.state
    case Normal => FromNormal(q, i, s);
    case SlashStarComment => InComment(q, i, s);
    case _ => InToken(q, i, s);
  }

  lemma InToken(q: seq<byte>, i: nat, s: Scan)
    requires i < |q| && Follows(q, i, s) && s.state != Normal && s.state != SlashStarComment
    ensures Follows(q, i + 1, Next(s, q[i])) && !Splits(s, q[i])
    ensures Start(q, i, s) == Start(q, i + 1, Next(s, q[i]))
  {
  }

  lemma InComment(q: seq<byte>, i: nat, s: Scan)
    requires i < |q| && Follows(q, i, s) && s.state == SlashStarComment
    ensures Follows(q, i + 1, Next(s, q[i])) && !Splits(s, q[i])
    ensures Ends(q, Start(q, i, s), true) == Ends(q, Start(q, i + 1, Next(s, q[i])), true)
  {
    if q[i] == SLASH_BYTE && s.lastChar == STAR_BYTE {
      assert Start(q, i, s) == i;
      SlashAgain(q, i);
    } else {
      assert Start(q, i, s) == CommentSlash(q, i);
    }
  }

  /** The slash that closes a comment opens another one with the byte behind it, or is passed over. */
  lemma SlashAgain(q: seq<byte>, i: nat)
    requires i < |q| && q[i] == SLASH_BYTE
    ensures Ends(q, i, true) == Ends(q, if Opens(q, i + 1, SLASH_BYTE) then i else i + 1, true)
  {
  }

  lemma FromNormal(q: seq<byte>, i: nat, s: Scan)
    requires i < |q| && Follows(q, i, s) && s.state == Normal
    ensures Follows(q, i + 1, Next(s, q[i]))
    ensures Ends(q, Start(q, i, s), true)
            == (if Splits(s, q[i]) then [i] else []) + Ends(q, Start(q, i + 1, Next(s, q[i])), true)
  {
    hide Next, Start, TokenEnd;
    if i > 0 && Opens(q, i, s.lastChar) {
      SecondByte(q, i, s);
    } else {
      FirstByte(q, i, s);
    }
  }

  /** The byte `i` completes the opener of a comment, which begins in front of it. */
  lemma SecondByte(q: seq<byte>, i: nat, s: Scan)
    requires 0 < i < |q| && Follows(q, i, s) && s.state == Normal && Opens(q, i, s.lastChar)
    ensures Start(q, i, s) == i - 1 && Follows(q, i + 1, Next(s, q[i]))
    ensures q[i - 1] != SEMICOLON_BYTE && q[i] != SEMICOLON_BYTE
    ensures TokenEnd(q, i - 1, true) == Start(q, i + 1, Next(s, q[i]))
  {
  }

  /** The byte `i` begins a token. */
  lemma FirstByte(q: seq<byte>, i: nat, s: Scan)
    requires i < |q| && Follows(q, i, s) && s.state == Normal && !(i > 0 && Opens(q, i, s.lastChar))
    ensures Start(q, i, s) == i && Follows(q, i + 1, Next(s, q[i]))
    ensures var n := Start(q, i + 1, Next(s, q[i]));
            if Opens(q, i + 1, q[i]) then n == i && q[i] != SEMICOLON_BYTE else n == TokenEnd(q, i, true)
  {
  }

  /** The automaton ends the statements at the semicolons that are quick tokens of their own. */
  lemma {:induction false} SplitsAtEnds(q: seq<byte>, b: nat, i: nat, s: Scan)
    requires b <= i <= |q| && Follows(q, i, s)
    ensures Cuts(q, b, Ends(q, Start(q, i, s), true))
    ensures SplitFrom(s, q[b..i], q[i..]) == CutAt(q, b, Ends(q, Start(q, i, s), true))
    decreases |q| - i
  {
    hide *;
    if i == |q| {
      AtTheEnd(q, s);
      NothingLeft(q, b, s);
    } else {
      OneStep(q, i, s);
      var rest := Ends(q, Start(q, i + 1, Next(s, q[i])), true);
      if Splits(s, q[i]) {
        SplitsAtEnds(q, i + 1, i + 1, Next(s, q[i]));
        SplitHere(q, b, i, s, rest);
      } else {
        SplitsAtEnds(q, b, i + 1, Next(s, q[i]));
        assert [] + rest == rest;
        ReadOn(q, b, i, s);
      }
    }
  }

  lemma NothingLeft(q: seq<byte>, b: nat, s: Scan)
    requires b <= |q|
    ensures Cuts(q, b, []) && SplitFrom(s, q[b..|q|], q[|q|..]) == CutAt(q, b, [])
  {
    assert q[b..|q|] == q[b..];
  }

  lemma SplitHere(q: seq<byte>, b: nat, i: nat, s: Scan, rest: seq<nat>)
    requires b <= i < |q| && Splits(s, q[i]) && Cuts(q, i + 1, rest)
    requires SplitFrom(Next(s, q[i]), q[i + 1..i + 1], q[i + 1..]) == CutAt(q, i + 1, rest)
    ensures Cuts(q, b, [i] + rest) && SplitFrom(s, q[b..i], q[i..]) == CutAt(q, b, [i] + rest)
  {
    hide Next, Splits;
    assert q[i..][0] == q[i] && q[i..][1..] == q[i + 1..];
    assert q[i + 1..i + 1] == [] && ([i] + rest)[1..] == rest;
  }

  lemma ReadOn(q: seq<byte>, b: nat, i: nat, s: Scan)
    requires b <= i < |q| && !Splits(s, q[i])
    ensures SplitFrom(s, q[b..i], q[i..]) == SplitFrom(Next(s, q[i]), q[b..i + 1], q[i + 1..])
  {
    hide Next, Splits;
    assert q[i..][0] == q[i] && q[i..][1..] == q[i + 1..];
    assert q[b..i] + [q[i]] == q[b..i + 1];
  }

  lemma AtTheEnd(q: seq<byte>, s: Scan)
    requires Follows(q, |q|, s)
    ensures Ends(q, Start(q, |q|, s), true) == []
  {
  }

  /** One scan of any text. */
  lemma SplitIsQuick(q: seq<byte>)
    ensures Cuts(q, 0, Ends(q, 0, true)) && Split(q) == CutAt(q, 0, Ends(q, 0, true))
  {
    hide Ends, SplitFrom, CutAt, Cuts;
    SplitsAtEnds(q, 0, 0, START);
    assert q[0..0] == [] && q[0..] == q;
  }

  // ---------- when the statements are found ----------

  /** The comment at `i` leads the automaton astray: its first byte is a slash, or a star or slash stands
      directly behind it. */
  predicate Tight(q: seq<byte>, i: nat)
    requires i < |q|
  {
    OpensComment(q, i)
    && (|| (i + 2 < |q| && q[i + 2] == SLASH_BYTE)
        || var e := TokenEnd(q, i, false);
           e < |q| && (q[e] == STAR_BYTE || q[e] == SLASH_BYTE))
  }

  /** No comment from `i` on is tight. */
  predicate Loose(q: seq<byte>, i: nat)
    requires i <= |q|
    decreases |q| - i
  {
    i < |q| ==> !Tight(q, i) && Loose(q, TokenEnd(q, i, false))
  }

  /** In front of a token that is not tight the automaton and the reference stand together. */
  lemma LooseToken(q: seq<byte>, i: nat)
    requires i < |q| && !Tight(q, i)
    ensures Ends(q, i, true) == (if q[i] == SEMICOLON_BYTE then [i] else []) + Ends(q, TokenEnd(q, i, false), true)
  {
    hide Ends;
    EndsStep(q, i, true);
    if OpensComment(q, i) {
      var j := CommentSlash(q, i + 2);
      assert CommentSlash(q, i + 1) == j;
      if j < |q| {
        SlashFound(q, i + 2);
        SlashAgain(q, j);
      }
    }
  }

  lemma {:induction false} SlashFound(q: seq<byte>, i: nat)
    requires i <= |q| && CommentSlash(q, i) < |q|
    ensures q[CommentSlash(q, i)] == SLASH_BYTE && q[CommentSlash(q, i) - 1] == STAR_BYTE
    decreases |q| - i
  {
    if i + 1 < |q| && !(q[i] == STAR_BYTE && q[i + 1] == SLASH_BYTE) {
      SlashFound(q, i + 1);
    }
  }

  lemma {:induction false} LooseAgrees(q: seq<byte>, i: nat)
    requires i <= |q| && Loose(q, i)
    ensures Ends(q, i, true) == Ends(q, i, false)
    decreases |q| - i
  {
    if i < |q| {
      LooseAgrees(q, TokenEnd(q, i, false));
      LooseToken(q, i);
    }
  }

  /** A token ends where it does whatever comes two bytes behind it. */
  lemma TokenEndLocal(q: seq<byte>, p: seq<byte>, n: nat, i: nat)
    requires i < |q| && TokenEnd(q, i, false) + 2 <= n <= |q| && n <= |p| && q[..n] == p[..n]
    ensures TokenEnd(p, i, false) == TokenEnd(q, i, false)
  {
    var c := q[i];
    assert forall k :: 0 <= k < n ==> p[k] == q[..n][k] == q[k];
    if c == QUOTE_BYTE || c == DBL_QUOTE_BYTE {
      StringEndLocal(q, p, n, i + 1, c);
    } else if c == RADICAL_BYTE || c == HASH_BYTE {
      BehindLocal(q, p, n, i + 1, if c == HASH_BYTE then LINE_FEED_BYTE else RADICAL_BYTE);
    } else if OpensLine(q, i) {
      BehindLocal(q, p, n, i + 2, LINE_FEED_BYTE);
    } else if OpensComment(q, i) {
      CommentSlashLocal(q, p, n, i + 2);
    }
  }

  lemma EndsStep(q: seq<byte>, i: nat, quick: bool)
    requires i < |q|
    ensures Ends(q, i, quick)
            == (if q[i] == SEMICOLON_BYTE then [i] else []) + Ends(q, TokenEnd(q, i, quick), quick)
    ensures Ends(q, |q|, quick) == []
  {
    hide TokenEnd;
  }

  lemma LastEnd(p: seq<byte>, i: nat, quick: bool)
    requires |p| == i + 1 && p[i] == SEMICOLON_BYTE
    ensures Ends(p, i, quick) == [i]
  {
  }

  /** A comment whose first byte is a slash, and a semicolon. */
  lemma SlashFirst(p: seq<byte>, i: nat)
    requires |p| == i + 4 && OpensComment(p, i) && p[i + 2] == SLASH_BYTE && p[i + 3] == SEMICOLON_BYTE
    ensures |Ends(p, i, true)| == 1 && |Ends(p, i, false)| == 0
  {
    LastEnd(p, i + 3, true);
    assert CommentSlash(p, i + 1) == i + 2 && TokenEnd(p, i, true) == i + 2;
    assert TokenEnd(p, i + 2, true) == i + 3;
    assert CommentSlash(p, i + 3) == |p| && CommentSlash(p, i + 2) == |p|;
  }

  /** A comment, a star or slash, and a semicolon. */
  lemma CloseBehind(p: seq<byte>, i: nat)
    requires OpensComment(p, i) && i + 2 < |p| && p[i + 2] != SLASH_BYTE
    requires var e := TokenEnd(p, i, false);
             |p| == e + 2 && (p[e] == STAR_BYTE || p[e] == SLASH_BYTE) && p[e + 1] == SEMICOLON_BYTE
    ensures |Ends(p, i, true)| == 0 && |Ends(p, i, false)| == 1
  {
    hide Ends;
    var e := TokenEnd(p, i, false);
    SlashFound(p, i + 2);
    assert CommentSlash(p, i + 1) == CommentSlash(p, i + 2) == e - 1 == TokenEnd(p, i, true);
    LastEnd(p, e + 1, false);
    assert TokenEnd(p, e, false) == e + 1;
    if p[e] == STAR_BYTE {
      assert CommentSlash(p, e + 1) == |p| && CommentSlash(p, e) == |p| == TokenEnd(p, e - 1, true);
    } else {
      assert Behind(p, e + 2, LINE_FEED_BYTE) == |p| && Behind(p, e + 1, LINE_FEED_BYTE) == |p|;
      assert TokenEnd(p, e - 1, true) == |p|;
    }
    EndsStep(p, i, true);
    EndsStep(p, e - 1, true);
    EndsStep(p, i, false);
    EndsStep(p, e, false);
  }

  lemma TightMisleads(q: seq<byte>, i: nat) returns (n: nat, rest: seq<byte>)
    requires i < |q| && Tight(q, i)
    ensures TokenEnd(q, i, false) < n <= |q| || n == i + 3 <= |q|
    ensures |Ends(q[..n] + rest, i, true)| != |Ends(q[..n] + rest, i, false)|
  {
    hide Ends;
    var e := TokenEnd(q, i, false);
    rest := [SEMICOLON_BYTE];
    if i + 2 < |q| && q[i + 2] == SLASH_BYTE {
      n := i + 3;
      SlashFirst(q[..n] + rest, i);
    } else {
      n := e + 1;
      var p := q[..n] + rest;
      assert q[..n] == p[..n];
      CommentSlashLocal(q, p, n, i + 2);
      CloseBehind(p, i);
    }
  }

  /** A file with a tight comment is split wrongly as soon as the bytes behind it are the wrong ones. */
  lemma {:induction false} TightIsMissplit(q: seq<byte>, i: nat) returns (n: nat, rest: seq<byte>)
    requires i <= |q| && !Loose(q, i)
    ensures i + 2 <= n <= |q| && |Ends(q[..n] + rest, i, true)| != |Ends(q[..n] + rest, i, false)|
    decreases |q| - i
  {
    hide Ends, Tight;
    if Tight(q, i) {
      n, rest := TightMisleads(q, i);
    } else {
      var e := TokenEnd(q, i, false);
      n, rest := TightIsMissplit(q, e);
      SameFront(q, i, n, rest);
    }
  }

  lemma SameFront(q: seq<byte>, i: nat, n: nat, rest: seq<byte>)
    requires i < |q| && !Tight(q, i) && TokenEnd(q, i, false) + 2 <= n <= |q|
    requires var e := TokenEnd(q, i, false);
             |Ends(q[..n] + rest, e, true)| != |Ends(q[..n] + rest, e, false)|
    ensures |Ends(q[..n] + rest, i, true)| != |Ends(q[..n] + rest, i, false)|
  {
    var p := q[..n] + rest;
    assert q[..n] == p[..n] && forall k :: 0 <= k < n ==> p[k] == q[k];
    TokenEndLocal(q, p, n, i);
    LooseToken(p, i);
  }

  /** The automaton finds the statements of every file without a tight comment; with one, the file up to
      it has an ending with which it does not. */
  lemma StatementsExactly(q: seq<byte>)
    ensures Loose(q, 0) ==> Split(q) == Reference(q)
    ensures !Loose(q, 0) ==>
              exists n: nat, rest: seq<byte> :: n <= |q| && Split(q[..n] + rest) != Reference(q[..n] + rest)
  {
    hide Ends, Split, Loose;
    if Loose(q, 0) {
      LooseAgrees(q, 0);
      SplitIsQuick(q);
    } else {
      var n, rest := TightIsMissplit(q, 0);
      var p := q[..n] + rest;
      SplitIsQuick(p);
      EndsCut(p, 0, 0, false);
      assert n <= |q| && Split(q[..n] + rest) != Reference(q[..n] + rest);
    }
  }

  // ---------- the bytes of the tokens ----------

  /** A token with a semicolon in it, and one behind it. */
  lemma OnlyTheLast(text: string)
    requires |text| > 0 && var q := Ascii(text);
             q[0] != SEMICOLON_BYTE && q[|q| - 1] == SEMICOLON_BYTE && TokenEnd(q, 0, false) == |q| - 1
    requires TokenEnd(Ascii(text), 0, true) == |text| - 1
    ensures Ends(Ascii(text), 0, false) == Ends(Ascii(text), 0, true) == [|text| - 1]
  {
    var q := Ascii(text);
    LastEnd(q, |q| - 1, false);
    LastEnd(q, |q| - 1, true);
  }

  lemma SingleQuoted()
    ensures Ends(Ascii("'a;';"), 0, false) == Ends(Ascii("'a;';"), 0, true) == [4]
  {
    var q := Ascii("'a;';");
    assert StringEnd(q, 3, QUOTE_BYTE) == 4 && StringEnd(q, 2, QUOTE_BYTE) == 4;
    OnlyTheLast("'a;';");
  }

  lemma DoubleQuoted()
    ensures Ends(Ascii("\"a;\";"), 0, false) == Ends(Ascii("\"a;\";"), 0, true) == [4]
  {
    var q := Ascii("\"a;\";");
    assert StringEnd(q, 3, DBL_QUOTE_BYTE) == 4 && StringEnd(q, 2, DBL_QUOTE_BYTE) == 4;
    OnlyTheLast("\"a;\";");
  }

  lemma BackslashQuoted()
    ensures Ends(Ascii("'\\';';"), 0, false) == Ends(Ascii("'\\';';"), 0, true) == [5]
  {
    var q := Ascii("'\\';';");
    assert StringEnd(q, 4, QUOTE_BYTE) == 5 && StringEnd(q, 3, QUOTE_BYTE) == 5;
    OnlyTheLast("'\\';';");
  }

  lemma QuotedName()
    ensures Ends(Ascii("`a;`;"), 0, false) == Ends(Ascii("`a;`;"), 0, true) == [4]
  {
    var q := Ascii("`a;`;");
    assert Behind(q, 3, RADICAL_BYTE) == 4 && Behind(q, 2, RADICAL_BYTE) == 4;
    OnlyTheLast("`a;`;");
  }

  lemma HashLine()
    ensures Ends(Ascii("#;\n;"), 0, false) == Ends(Ascii("#;\n;"), 0, true) == [3]
  {
    var q := Ascii("#;\n;");
    assert Behind(q, 2, LINE_FEED_BYTE) == 3;
    OnlyTheLast("#;\n;");
  }

  lemma HyphenLine()
    ensures Ends(Ascii("--;\n;"), 0, false) == Ends(Ascii("--;\n;"), 0, true) == [4]
  {
    var q := Ascii("--;\n;");
    assert Behind(q, 3, LINE_FEED_BYTE) == 4;
    OnlyTheLast("--;\n;");
  }

  lemma SlashLine()
    ensures Ends(Ascii("//;\n;"), 0, false) == Ends(Ascii("//;\n;"), 0, true) == [4]
  {
    var q := Ascii("//;\n;");
    assert Behind(q, 3, LINE_FEED_BYTE) == 4;
    OnlyTheLast("//;\n;");
  }

  /** The automaton and the reference, behind a comment. */
  lemma Comment()
    ensures Ends(Ascii("/*;*/;"), 0, false) == Ends(Ascii("/*;*/;"), 0, true) == [5]
  {
    var q := Ascii("/*;*/;");
    assert CommentSlash(q, 3) == 4 && CommentSlash(q, 2) == 4 && CommentSlash(q, 1) == 4;
    LastEnd(q, 5, false);
    LastEnd(q, 5, true);
    assert TokenEnd(q, 4, true) == 5 && Ends(q, 4, true) == [5];
  }

  /** A file in which a statement is lost to a comment that has ended. */
  lemma SlashBehindComment()
    ensures Split(Ascii("/**//;")).queries == [] && Reference(Ascii("/**//;")).queries == [Ascii("/**//")]
  {
    hide SplitFrom;
    var q := Ascii("/**//;");
    assert CommentSlash(q, 2) == 3;
    assert TokenEnd(q, 0, false) == 4;
    CloseBehind(q, 0);
    SplitIsQuick(q);
    EndsCut(q, 0, 0, false);
    LastEnd(q, 5, false);
    EndsStep(q, 0, false);
    EndsStep(q, 4, false);
    assert Ends(q, 0, false) == [5] && q[0..5] == Ascii("/**//");
  }
}
