/** UTF-16 strings as JavaScript holds them, written as escaped UTF-8 in place or by way of an
    encoded copy. */
module Utf8 {
  import opened Bytes
  import opened Escaping

  type u16 = x: int | 0 <= x < 65536

  type point = u: int | 0 <= u < 0x110000

  predicate High(c: u16) { 0xd800 <= c < 0xdc00 }

  predicate Low(c: u16) { 0xdc00 <= c < 0xe000 }

  // ---------- the encoded copy ----------

  /** Code points of section 2.1 of RFC 2781; a surrogate without its partner becomes U+FFFD. */
  function CodePoints(s: seq<u16>): seq<point> {
    if s == [] then []
    else if High(s[0]) && |s| >= 2 && Low(s[1]) then
      [0x10000 + (s[0] as int - 0xd800) * 0x400 + (s[1] as int - 0xdc00)] + CodePoints(s[2..])
    else if High(s[0]) || Low(s[0]) then [0xfffd] + CodePoints(s[1..])
    else [s[0]] + CodePoints(s[1..])
  }

  /** The table of section 3 of RFC 3629. */
  function EncodePoint(u: point): seq<byte> {
    if u < 0x80 then [u]
    else if u < 0x800 then [0xc0 + u / 64, 0x80 + u % 64]
    else if u < 0x10000 then [0xe0 + u / 4096, 0x80 + u / 64 % 64, 0x80 + u % 64]
    else [0xf0 + u / 262144, 0x80 + u / 4096 % 64, 0x80 + u / 64 % 64, 0x80 + u % 64]
  }

  function EncodePoints(us: seq<point>): seq<byte> {
    if us == [] then [] else EncodePoint(us[0]) + EncodePoints(us[1..])
  }

  /** `Buffer.from(str, 'utf8')` */
  function Utf8Bytes(s: seq<u16>): seq<byte> { EncodePoints(CodePoints(s)) }

  // ---------- the in-place writer ----------

  /** How many code units the writer takes at once. */
  function Units(s: seq<u16>): (n: nat)
    requires s != []
    ensures 1 <= n <= |s|
  {
    if High(s[0]) && |s| >= 2 && Low(s[1]) then 2 else 1
  }

  /** The bytes it puts for them; the operands of its bit operations have no bit in common, so
      `|` is addition, and shifts and masks are division and remainder. */
  function Piece(s: seq<u16>): (p: seq<byte>)
    requires s != []
    ensures |p| <= 3 * Units(s)
  {
    var c := s[0] as int;
    if c < 0x80 then (if Special(c) then [SLASH, c] else [c])
    else if c < 0x800 then [0xc0 + c / 64, 0x80 + c % 64]
    else if 0xd800 <= c < 0xe000 then
      if c < 0xdc00 then
        if |s| < 2 then [0x3f]
        else if 0xdc00 <= s[1] < 0xe000 then
          var pair := c * 1024 + s[1] as int + (0x010000 - 0xd800 * 1024 - 0xdc00);
          [0xf0 + pair / 262144, 0x80 + pair / 4096 % 64, 0x80 + pair / 64 % 64, 0x80 + pair % 64]
        else [0x3f]
      else [0x3f]
    else [0xe0 + c / 4096, 0x80 + c / 64 % 64, 0x80 + c % 64]
  }

  function InPlace(s: seq<u16>): seq<byte> {
    if s == [] then [] else Piece(s) + InPlace(s[Units(s)..])
  }

  // ---------- both agree ----------

  /** Every surrogate has its partner. */
  predicate WellFormed(s: seq<u16>) {
    s == [] ||
    if High(s[0]) then |s| >= 2 && Low(s[1]) && WellFormed(s[2..])
    else !Low(s[0]) && WellFormed(s[1..])
  }

  lemma {:induction false} InPlaceLength(s: seq<u16>)
    ensures |InPlace(s)| <= 3 * |s|
    decreases |s|
  {
    if s != [] {
      InPlaceLength(s[Units(s)..]);
    }
  }

  /** The escaped bytes of the code point at the head of `s`. */
  lemma FirstPoint(s: seq<u16>) returns (u: point)
    requires s != []
    ensures CodePoints(s) == [u] + CodePoints(s[Units(s)..])
    ensures (High(s[0]) || Low(s[0])) && Units(s) == 1 ==> u == 0xfffd && |Piece(s)| == 1
    ensures !((High(s[0]) || Low(s[0])) && Units(s) == 1) ==> Escape(None, EncodePoint(u)) == Piece(s)
  {
    if Units(s) == 2 {
      u := 0x10000 + (s[0] as int - 0xd800) * 0x400 + (s[1] as int - 0xdc00);
      var e := EncodePoint(u);
      PlainFour(e[0], e[1], e[2], e[3]);
    } else if High(s[0]) || Low(s[0]) {
      u := 0xfffd;
    } else {
      u := s[0];
      var e := EncodePoint(u);
      if u < 0x80 {
        assert Escape(None, [u]) == Piece(s) by { assert Escape(None, [u][1..]) == []; }
      } else if u < 0x800 {
        PlainTwo(e[0], e[1]);
      } else {
        PlainThree(e[0], e[1], e[2]);
      }
    }
  }

  lemma PlainOne(a: byte, more: seq<byte>)
    requires a >= 0x80
    ensures Escape(None, [a] + more) == [a] + Escape(None, more)
  {
    assert ([a] + more)[1..] == more;
  }

  lemma PlainTwo(a: byte, b: byte)
    requires a >= 0x80 && b >= 0x80
    ensures Escape(None, [a, b]) == [a, b]
  {
    PlainOne(b, []);
    PlainOne(a, [b]);
    assert [a] + [b] == [a, b] && [b] + [] == [b];
  }

  lemma PlainThree(a: byte, b: byte, c: byte)
    requires a >= 0x80 && b >= 0x80 && c >= 0x80
    ensures Escape(None, [a, b, c]) == [a, b, c]
  {
    PlainTwo(b, c);
    PlainOne(a, [b, c]);
    assert [a] + [b, c] == [a, b, c];
  }

  lemma PlainFour(a: byte, b: byte, c: byte, d: byte)
    requires a >= 0x80 && b >= 0x80 && c >= 0x80 && d >= 0x80
    ensures Escape(None, [a, b, c, d]) == [a, b, c, d]
  {
    PlainThree(b, c, d);
    PlainOne(a, [b, c, d]);
    assert [a] + [b, c, d] == [a, b, c, d];
  }

  lemma EscapeFirst(s: seq<u16>, u: point)
    requires s != [] && CodePoints(s) == [u] + CodePoints(s[Units(s)..])
    ensures Escape(None, Utf8Bytes(s)) == Escape(None, EncodePoint(u)) + Escape(None, Utf8Bytes(s[Units(s)..]))
  {
    hide EncodePoint, Escape;
    assert CodePoints(s)[1..] == CodePoints(s[Units(s)..]);
    EscapePlainAppend(EncodePoint(u), Utf8Bytes(s[Units(s)..]));
  }

  lemma {:induction false} WellFormedAgrees(s: seq<u16>)
    requires WellFormed(s)
    ensures InPlace(s) == Escape(None, Utf8Bytes(s))
    decreases |s|
  {
    hide EncodePoint, Escape, Piece, Utf8Bytes, CodePoints;
    if s == [] {
      NothingToEncode();
    } else {
      var u := FirstPoint(s);
      EscapeFirst(s, u);
      WellFormedAgrees(s[Units(s)..]);
    }
  }

  lemma NothingToEncode()
    ensures Escape(None, Utf8Bytes([])) == []
  {
  }

  lemma Replacement()
    ensures Escape(None, EncodePoint(0xfffd)) == [0xef, 0xbf, 0xbd]
  {
    PlainThree(0xef, 0xbf, 0xbd);
  }

  /** Each lone surrogate is one byte in place and three in the copy. */
  lemma {:induction false} CopyIsLonger(s: seq<u16>)
    ensures |InPlace(s)| <= |Escape(None, Utf8Bytes(s))|
    ensures !WellFormed(s) ==> |InPlace(s)| < |Escape(None, Utf8Bytes(s))|
    decreases |s|
  {
    hide EncodePoint, Escape, Piece, Utf8Bytes, CodePoints;
    if s == [] {
      NothingToEncode();
    } else {
      var u := FirstPoint(s);
      EscapeFirst(s, u);
      CopyIsLonger(s[Units(s)..]);
      Replacement();
    }
  }

  /** The in-place writer puts what the copying one does exactly for well-formed strings. */
  lemma InPlaceExact(s: seq<u16>)
    ensures InPlace(s) == Escape(None, Utf8Bytes(s)) <==> WellFormed(s)
  {
    if WellFormed(s) {
      WellFormedAgrees(s);
    } else {
      CopyIsLonger(s);
    }
  }

  // ---------- what is written in place ----------

  /** The code points of the in-place writer: a lone surrogate becomes a question mark. */
  function MarkedPoints(s: seq<u16>): seq<point> {
    if s == [] then []
    else if Units(s) == 1 && (High(s[0]) || Low(s[0])) then [0x3f] + MarkedPoints(s[1..])
    else [CodePoints(s)[0]] + MarkedPoints(s[Units(s)..])
  }

  function MarkedBytes(s: seq<u16>): seq<byte> { EncodePoints(MarkedPoints(s)) }

  /** The in-place writer too puts the escape of an encoding of the string. */
  lemma {:induction false} InPlaceIsEscape(s: seq<u16>)
    ensures InPlace(s) == Escape(None, MarkedBytes(s))
    decreases |s|
  {
    hide EncodePoint, Escape, Piece, CodePoints;
    if s == [] {
      assert MarkedBytes(s) == [];
      NothingToEscape();
    } else {
      var u := FirstPoint(s);
      var v: point := if Units(s) == 1 && (High(s[0]) || Low(s[0])) then 0x3f else u;
      assert MarkedPoints(s) == [v] + MarkedPoints(s[Units(s)..]);
      assert MarkedPoints(s)[1..] == MarkedPoints(s[Units(s)..]);
      EscapePlainAppend(EncodePoint(v), MarkedBytes(s[Units(s)..]));
      QuestionMark(s);
      InPlaceIsEscape(s[Units(s)..]);
    }
  }

  lemma NothingToEscape()
    ensures Escape(None, []) == []
  {
  }

  lemma QuestionMark(s: seq<u16>)
    requires s != []
    ensures Units(s) == 1 && (High(s[0]) || Low(s[0])) ==> Piece(s) == [0x3f] == Escape(None, EncodePoint(0x3f))
  {
    assert EncodePoint(0x3f) == [0x3f] && [0x3f][1..] == [] && Escape(None, []) == [];
  }

  /** A high surrogate alone: a question mark in place, U+FFFD through the copy. */
  lemma LoneSurrogateExample()
    ensures InPlace([0xd800]) == [0x3f]
    ensures Escape(None, Utf8Bytes([0xd800])) == [0xef, 0xbf, 0xbd]
  {
    assert [0xd800][1..] == [] && InPlace([]) == [] && CodePoints([]) == [] && EncodePoints([]) == [];
    assert CodePoints([0xd800]) == [0xfffd] + CodePoints([]);
    assert [0xfffd][1..] == [];
    assert Utf8Bytes([0xd800]) == EncodePoint(0xfffd);
    Replacement();
  }
}
