/** Reading UTF-8 back: the code points of the bytes, and the string they make. */
module Utf8Reader {
  import opened Bytes
  import opened Utf8

  predicate Tail(b: byte) { 0x80 <= b < 0xc0 }

  predicate Surrogate(u: int) { 0xd800 <= u < 0xe000 }

  /** The code point that the bytes start with and how many of them it takes: one to four bytes, of which
      the first tells how many, and no more than are needed (section 3 of RFC 3629). */
  function DecodeOne(s: seq<byte>): (r: Option<(point, nat)>)
    ensures r.Some? ==> 1 <= r.value.1 <= |s|
  {
    if s == [] then None
    else if s[0] < 0x80 then Some((s[0], 1))
    else if 0xc2 <= s[0] < 0xe0 && |s| >= 2 && Tail(s[1]) then
      Some(((s[0] as int - 0xc0) * 64 + (s[1] as int - 0x80), 2))
    else if 0xe0 <= s[0] < 0xf0 && |s| >= 3 && Tail(s[1]) && Tail(s[2]) then
      var u := (s[0] as int - 0xe0) * 4096 + (s[1] as int - 0x80) * 64 + (s[2] as int - 0x80);
      if u >= 0x800 && !Surrogate(u) then Some((u, 3)) else None
    else if 0xf0 <= s[0] < 0xf5 && |s| >= 4 && Tail(s[1]) && Tail(s[2]) && Tail(s[3]) then
      var u := (s[0] as int - 0xf0) * 262144 + (s[1] as int - 0x80) * 4096
               + (s[2] as int - 0x80) * 64 + (s[3] as int - 0x80);
      if 0x10000 <= u < 0x110000 then Some((u, 4)) else None
    else None
  }

  function Decode(s: seq<byte>): Option<seq<point>>
    decreases |s|
  {
    if s == [] then Some([])
    else
      match DecodeOne(s)
      case None => None
      case Some((u, n)) =>
        match Decode(s[n..])
        case None => None
        case Some(more) => Some([u] + more)
  }

  /** Code points as UTF-16 (section 2.1 of RFC 2781). */
  function Utf16(us: seq<point>): seq<u16> {
    if us == [] then []
    else (if us[0] < 0x10000 then [us[0]]
          else [0xd800 + (us[0] - 0x10000) / 0x400, 0xdc00 + (us[0] - 0x10000) % 0x400])
         + Utf16(us[1..])
  }

  lemma DecodeEncoded(u: point, more: seq<byte>)
    requires !Surrogate(u)
    ensures DecodeOne(EncodePoint(u) + more) == Some((u, |EncodePoint(u)|))
  {
    hide DecodeOne;
    var s := EncodePoint(u) + more;
    SixBits(u);
    if u < 0x80 {
      One(s);
    } else if u < 0x800 {
      Two(s, u / 64, u % 64);
    } else if u < 0x10000 {
      Three(s, u / 4096, u / 64 % 64, u % 64);
    } else {
      Four(s, u / 262144, u / 4096 % 64, u / 64 % 64, u % 64);
    }
  }

  lemma SixBits(u: nat)
    ensures u == 64 * (u / 64) + u % 64
    ensures u == 4096 * (u / 4096) + 64 * (u / 64 % 64) + u % 64
    ensures u == 262144 * (u / 262144) + 4096 * (u / 4096 % 64) + 64 * (u / 64 % 64) + u % 64
  {
    assert u / 64 / 64 == u / 4096 && u / 4096 / 64 == u / 262144;
  }

  lemma One(s: seq<byte>)
    requires s != [] && s[0] < 0x80
    ensures DecodeOne(s) == Some((s[0], 1))
  {
  }

  lemma Two(s: seq<byte>, a: nat, b: nat)
    requires |s| >= 2 && s[0] == 0xc0 + a && s[1] == 0x80 + b && 2 <= a < 32 && b < 64
    ensures DecodeOne(s) == Some((64 * a + b, 2))
  {
  }

  lemma Three(s: seq<byte>, a: nat, b: nat, c: nat)
    requires |s| >= 3 && s[0] == 0xe0 + a && s[1] == 0x80 + b && s[2] == 0x80 + c && a < 16 && b < 64 && c < 64
    requires 4096 * a + 64 * b + c >= 0x800 && !Surrogate(4096 * a + 64 * b + c)
    ensures DecodeOne(s) == Some((4096 * a + 64 * b + c, 3))
  {
  }

  lemma Four(s: seq<byte>, a: nat, b: nat, c: nat, d: nat)
    requires |s| >= 4 && s[0] == 0xf0 + a && s[1] == 0x80 + b && s[2] == 0x80 + c && s[3] == 0x80 + d
    requires a < 5 && b < 64 && c < 64 && d < 64 && 0x10000 <= 262144 * a + 4096 * b + 64 * c + d < 0x110000
    ensures DecodeOne(s) == Some((262144 * a + 4096 * b + 64 * c + d, 4))
  {
  }

  lemma {:induction false} DecodeAll(us: seq<point>)
    requires forall u :: u in us ==> !Surrogate(u)
    ensures Decode(EncodePoints(us)) == Some(us)
  {
    hide EncodePoint, DecodeOne;
    if us != [] {
      var first, more := EncodePoint(us[0]), EncodePoints(us[1..]);
      DecodeEncoded(us[0], more);
      DecodeAll(us[1..]);
      assert (first + more)[|first|..] == more && [us[0]] + us[1..] == us;
      NotEmpty(us[0]);
    }
  }

  lemma NotEmpty(u: point)
    ensures EncodePoint(u) != []
  {
  }

  lemma {:induction false} NoSurrogates(s: seq<u16>)
    ensures forall u :: u in CodePoints(s) ==> !Surrogate(u)
    decreases |s|
  {
    if s != [] {
      NoSurrogates(s[Units(s)..]);
    }
  }

  lemma {:induction false} PointsBack(s: seq<u16>)
    requires WellFormed(s)
    ensures Utf16(CodePoints(s)) == s
    decreases |s|
  {
    if s != [] {
      var n := Units(s);
      PointsBack(s[n..]);
      assert CodePoints(s)[1..] == CodePoints(s[n..]);
      assert s == s[..n] + s[n..];
    }
  }

  /** The bytes of every string are read as its code points, and those of a string without a lone
      surrogate are the string. */
  lemma StringIsRead(s: seq<u16>)
    ensures Decode(Utf8Bytes(s)) == Some(CodePoints(s))
    ensures WellFormed(s) ==> Utf16(CodePoints(s)) == s
  {
    hide CodePoints, EncodePoints, Decode, WellFormed, Utf16;
    NoSurrogates(s);
    DecodeAll(CodePoints(s));
    if WellFormed(s) {
      PointsBack(s);
    }
  }
}
