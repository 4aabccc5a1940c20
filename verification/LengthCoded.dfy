/** Length-coded integers and the values they announce. */
module LengthCoded {
  import opened Bytes

  /** The writes of `writeLengthCoded`. */
  function LengthOps(n: nat): seq<seq<byte>> {
    if n < 0xfb then [[n]]
    else if n < 65536 then [[0xfc], LE(n, 2)]
    else if n < 16777216 then [[0xfd], LE(n, 3)]
    else [[0xfe], LE(n, 8)]
  }

  function LengthEncoded(data: seq<byte>): seq<seq<byte>> { LengthOps(|data|) + [data] }

  /** A length-coded value and what is left behind it; None when the bytes are too few or the length
      null. */
  function ReadLengthCoded(s: seq<byte>): Option<(seq<byte>, seq<byte>)> {
    if s == [] then None
    else
      var w := if s[0] < 0xfb then 0 else if s[0] == 0xfc then 2 else if s[0] == 0xfd then 3 else 8;
      if s[0] == 0xfb || s[0] == 0xff || |s| < 1 + w then None
      else
        var n := if w == 0 then s[0] as nat else FromLE(s[1..1 + w]);
        if |s| < 1 + w + n then None else Some((s[1 + w..1 + w + n], s[1 + w + n..]))
  }

  lemma One(x: seq<byte>)
    ensures Flatten([x]) == x
  {
  }

  lemma LERead(v: nat, n: nat)
    requires (n == 2 && v < 65536) || (n == 3 && v < 16777216) || (n == 8 && v < 0x1_0000_0000)
    ensures FromLE(LE(v, n)) == v
  {
    Pow256Values();
    LERoundTrip(v, n);
  }

  lemma ReadLengthOps(n: nat, rest: seq<byte>)
    requires n < 0x1_0000_0000 && n <= |rest|
    ensures ReadLengthCoded(Flatten(LengthOps(n)) + rest) == Some((rest[..n], rest[n..]))
  {
    if n < 0xfb {
      One([n]);
      var s := [n] + rest;
      assert s[1..1 + n] == rest[..n] && s[1 + n..] == rest[n..];
    } else {
      var w := if n < 65536 then 2 else if n < 16777216 then 3 else 8;
      LERead(n, w);
      var ops := LengthOps(n);
      assert ops[1..] == [LE(n, w)] && Flatten([LE(n, w)]) == LE(n, w);
      var s := Flatten(ops) + rest;
      assert s == ops[0] + LE(n, w) + rest;
      assert s[1..1 + w] == LE(n, w) && s[1 + w..1 + w + n] == rest[..n] && s[1 + w + n..] == rest[n..];
    }
  }

  lemma ReadLengthEncoded(data: seq<byte>, tail: seq<byte>)
    requires |data| < 0x1_0000_0000
    ensures ReadLengthCoded(Flatten(LengthEncoded(data)) + tail) == Some((data, tail))
  {
    FlattenSnoc(LengthOps(|data|), data);
    ReadLengthOps(|data|, data + tail);
    assert Flatten(LengthOps(|data|)) + data + tail == Flatten(LengthOps(|data|)) + (data + tail);
    assert (data + tail)[..|data|] == data && (data + tail)[|data|..] == tail;
  }
}
