/** Well-known binary as anyone may write it, each object in its own byte order, and what the reader
    makes of it. */
module WkbDocs {
  import opened Bytes
  import opened Wkb

  type Spot = (double, double)

  /** An object of the format; a byte order of 0 is big-endian. The parts of a multi-geometry or a
      collection are objects again. */
  datatype Doc =
    | PointDoc(order: byte, at: Spot)
    | LineDoc(order: byte, spots: seq<Spot>)
    | PolygonDoc(order: byte, rings: seq<seq<Spot>>)
    | PartsDoc(order: byte, kind: nat, parts: seq<Doc>)

  predicate Fine(d: Doc) {
    match d
    case PointDoc(_, _) => true
    case LineDoc(_, spots) => |spots| < 0x8000_0000
    case PolygonDoc(_, rings) =>
      |rings| < 0x8000_0000 && forall i :: 0 <= i < |rings| ==> |rings[i]| < 0x8000_0000
    case PartsDoc(_, kind, parts) => 4 <= kind <= 7 && |parts| < 0x8000_0000 && forall p :: p in parts ==> Fine(p)
  }

  // ---------- the bytes ----------

  /** A number of `n` bytes, the low byte first or last. */
  function Ordered(v: int, n: nat, le: bool): (s: seq<byte>)
    ensures |s| == n
  {
    ReverseLength(LE(v, n));
    if le then LE(v, n) else Reverse(LE(v, n))
  }

  lemma {:induction false} ReverseLength(s: seq<byte>)
    ensures |Reverse(s)| == |s|
  {
    if s != [] {
      ReverseLength(s[1..]);
    }
  }

  function SpotBytes(p: Spot, le: bool): seq<byte> { Ordered(p.0, 8, le) + Ordered(p.1, 8, le) }

  function SpotsBytes(spots: seq<Spot>, le: bool): seq<byte> {
    if spots == [] then [] else SpotBytes(spots[0], le) + SpotsBytes(spots[1..], le)
  }

  function RingDocs(rings: seq<seq<Spot>>, le: bool): seq<byte> {
    if rings == [] then []
    else Ordered(|rings[0]|, 4, le) + SpotsBytes(rings[0], le) + RingDocs(rings[1..], le)
  }

  function PartDocs(parts: seq<Doc>): seq<byte>
    decreases parts, 0
  {
    if parts == [] then [] else DocBytes(parts[0]) + PartDocs(parts[1..])
  }

  function KindOf(d: Doc): nat {
    match d
    case PointDoc(_, _) => 1
    case LineDoc(_, _) => 2
    case PolygonDoc(_, _) => 3
    case PartsDoc(_, kind, _) => kind
  }

  function ContentBytes(d: Doc): seq<byte>
    decreases d, 1
  {
    var le := d.order != 0;
    match d
    case PointDoc(_, at) => SpotBytes(at, le)
    case LineDoc(_, spots) => Ordered(|spots|, 4, le) + SpotsBytes(spots, le)
    case PolygonDoc(_, rings) => Ordered(|rings|, 4, le) + RingDocs(rings, le)
    case PartsDoc(_, _, parts) => Ordered(|parts|, 4, le) + PartDocs(parts)
  }

  function DocBytes(d: Doc): seq<byte>
    decreases d, 2
  {
    [d.order] + Ordered(KindOf(d), 4, d.order != 0) + ContentBytes(d)
  }

  // ---------- what they stand for ----------

  function SpotValue(p: Spot): Value { Arr([Num(p.0), Num(p.1)]) }

  function SpotValues(spots: seq<Spot>): seq<Value> {
    if spots == [] then [] else [SpotValue(spots[0])] + SpotValues(spots[1..])
  }

  function RingsOf(rings: seq<seq<Spot>>): seq<Value> {
    if rings == [] then [] else [Arr(SpotValues(rings[0]))] + RingsOf(rings[1..])
  }

  /** Inside a multi-geometry points, lines and polygons are given without their type. */
  function PartValues(parts: seq<Doc>, inner: bool): seq<Value> {
    if parts == [] then [] else [DocValue(parts[0], inner)] + PartValues(parts[1..], inner)
  }

  function DocValue(d: Doc, inner: bool): Value {
    match d
    case PointDoc(_, at) => if inner then SpotValue(at) else Obj(1, SpotValue(at))
    case LineDoc(_, spots) => if inner then Arr(SpotValues(spots)) else Obj(2, Arr(SpotValues(spots)))
    case PolygonDoc(_, rings) => if inner then Arr(RingsOf(rings)) else Obj(3, Arr(RingsOf(rings)))
    case PartsDoc(_, kind, parts) => Obj(kind, Arr(PartValues(parts, kind != 7)))
  }

  // ---------- numbers ----------

  lemma {:induction false} ReverseSnoc(s: seq<byte>, b: byte)
    ensures Reverse(s + [b]) == [b] + Reverse(s)
  {
    if s == [] {
      assert [b][1..] == [] && s + [b] == [b];
    } else {
      assert (s + [b])[1..] == s[1..] + [b];
      ReverseSnoc(s[1..], b);
    }
  }

  lemma {:induction false} ReverseTwice(s: seq<byte>)
    ensures Reverse(Reverse(s)) == s
  {
    if s != [] {
      ReverseTwice(s[1..]);
      ReverseSnoc(Reverse(s[1..]), s[0]);
      assert [s[0]] + s[1..] == s;
    }
  }

  lemma OrderedIsRead(v: nat, n: nat, le: bool)
    requires v < Pow256(n)
    ensures FromBytes(Ordered(v, n, le), le) == v
  {
    LERoundTrip(v, n);
    ReverseTwice(LE(v, n));
  }

  lemma CountIsRead(n: nat, le: bool, tail: seq<byte>)
    requires n < 0x8000_0000
    ensures ReadInt32(Ordered(n, 4, le) + tail, le) == Got(n, tail)
  {
    hide Ordered, FromBytes;
    Pow256Values();
    OrderedIsRead(n, 4, le);
    var s := Ordered(n, 4, le) + tail;
    assert s[..4] == Ordered(n, 4, le) && s[4..] == tail;
  }

  lemma SpotIsRead(p: Spot, le: bool, tail: seq<byte>)
    ensures ReadXY(SpotBytes(p, le) + tail, le) == Got(SpotValue(p), tail)
  {
    hide Ordered, FromBytes;
    Pow256Values();
    OrderedIsRead(p.0, 8, le);
    OrderedIsRead(p.1, 8, le);
    var x, y := Ordered(p.0, 8, le), Ordered(p.1, 8, le);
    var s := x + y + tail;
    assert s[..8] == x && s[8..16] == y && s[16..] == tail;
  }

  lemma {:induction false} SpotsAreRead(spots: seq<Spot>, le: bool, tail: seq<byte>)
    ensures ReadPoints(SpotsBytes(spots, le) + tail, le, |spots|) == Got(SpotValues(spots), tail)
  {
    hide SpotBytes, ReadXY, SpotValue, ReadPoints, SpotsBytes, SpotValues;
    if spots == [] {
      NoSpots(le, tail);
    } else {
      var rest := SpotsBytes(spots[1..], le) + tail;
      SpotIsRead(spots[0], le, rest);
      SpotsAreRead(spots[1..], le, tail);
      MoreSpots(spots, le, tail);
      OnePoint(SpotBytes(spots[0], le) + rest, le, |spots|, SpotValue(spots[0]), rest);
    }
  }

  lemma NoSpots(le: bool, tail: seq<byte>)
    ensures ReadPoints(SpotsBytes([], le) + tail, le, 0) == Got(SpotValues([]), tail)
  {
    assert [] + tail == tail;
  }

  lemma MoreSpots(spots: seq<Spot>, le: bool, tail: seq<byte>)
    requires spots != []
    ensures SpotsBytes(spots, le) + tail == SpotBytes(spots[0], le) + (SpotsBytes(spots[1..], le) + tail)
    ensures SpotValues(spots) == [SpotValue(spots[0])] + SpotValues(spots[1..])
  {
    hide SpotBytes, SpotValue;
  }

  lemma OnePoint(s: seq<byte>, le: bool, n: nat, v: Value, rest: seq<byte>)
    requires n > 0 && ReadXY(s, le) == Got(v, rest) && ReadPoints(rest, le, n - 1).Got?
    ensures var r := ReadPoints(rest, le, n - 1);
            ReadPoints(s, le, n) == Got([v] + r.value, r.rest)
  {
    hide ReadXY;
  }

  lemma LineIsRead(spots: seq<Spot>, le: bool, tail: seq<byte>)
    requires |spots| < 0x8000_0000
    ensures ReadLine(Ordered(|spots|, 4, le) + SpotsBytes(spots, le) + tail, le) == Got(Arr(SpotValues(spots)), tail)
  {
    hide Ordered, ReadInt32, ReadPoints, SpotsBytes;
    var rest := SpotsBytes(spots, le) + tail;
    CountIsRead(|spots|, le, rest);
    SpotsAreRead(spots, le, tail);
    assert Ordered(|spots|, 4, le) + SpotsBytes(spots, le) + tail == Ordered(|spots|, 4, le) + rest;
  }

  lemma {:induction false} RingsAreRead(rings: seq<seq<Spot>>, le: bool, tail: seq<byte>)
    requires forall i :: 0 <= i < |rings| ==> |rings[i]| < 0x8000_0000
    ensures ReadRings(RingDocs(rings, le) + tail, le, |rings|) == Got(RingsOf(rings), tail)
  {
    hide Ordered, ReadLine, SpotsBytes, SpotValues;
    if rings == [] {
      assert [] + tail == tail;
    } else {
      var rest := RingDocs(rings[1..], le) + tail;
      LineIsRead(rings[0], le, rest);
      RingsAreRead(rings[1..], le, tail);
      assert RingDocs(rings, le) + tail == Ordered(|rings[0]|, 4, le) + SpotsBytes(rings[0], le) + rest;
    }
  }

  // ---------- objects ----------

  lemma HeaderIsRead(d: Doc, tail: seq<byte>, inner: bool)
    requires Fine(d)
    ensures var t, s := ContentBytes(d) + tail, DocBytes(d) + tail;
            |t| < |s| && ReadObject(s, inner) == ReadContent(t, d.order != 0, KindOf(d), inner, |s|)
  {
    hide Ordered, ReadInt32, ContentBytes, ReadContent;
    var t := ContentBytes(d) + tail;
    CountIsRead(KindOf(d), d.order != 0, t);
    var s := DocBytes(d) + tail;
    assert s == [d.order] + (Ordered(KindOf(d), 4, d.order != 0) + t);
    assert s[1..] == Ordered(KindOf(d), 4, d.order != 0) + t;
  }

  /** The reader gives back every object of the format, whatever byte order each of its parts is in, and
      touches nothing behind it. */
  lemma {:induction false} DocIsRead(d: Doc, inner: bool, tail: seq<byte>)
    requires Fine(d)
    ensures ReadObject(DocBytes(d) + tail, inner) == Got(DocValue(d, inner), tail)
    decreases d, 1
  {
    hide Ordered, ReadInt32, ReadObject, ReadObjects, DocBytes, ReadLine, ReadRings, ReadXY, SpotsBytes, SpotBytes;
    hide PartDocs, RingDocs;
    HeaderIsRead(d, tail, inner);
    var le := d.order != 0;
    match d
    case PointDoc(_, at) => SpotIsRead(at, le, tail);
    case LineDoc(_, spots) => LineIsRead(spots, le, tail);
    case PolygonDoc(_, rings) =>
      CountIsRead(|rings|, le, RingDocs(rings, le) + tail);
      RingsAreRead(rings, le, tail);
      assert ContentBytes(d) + tail == Ordered(|rings|, 4, le) + (RingDocs(rings, le) + tail);
    case PartsDoc(_, kind, parts) =>
      CountIsRead(|parts|, le, PartDocs(parts) + tail);
      PartsAreRead(parts, kind != 7, tail);
      assert ContentBytes(d) + tail == Ordered(|parts|, 4, le) + (PartDocs(parts) + tail);
  }

  lemma {:induction false} PartsAreRead(parts: seq<Doc>, inner: bool, tail: seq<byte>)
    requires forall p :: p in parts ==> Fine(p)
    ensures ReadObjects(PartDocs(parts) + tail, inner, |parts|) == Got(PartValues(parts, inner), tail)
    decreases parts, 0
  {
    hide ReadObject, DocBytes, DocValue, Fine;
    if parts == [] {
      assert [] + tail == tail;
    } else {
      var rest := PartDocs(parts[1..]) + tail;
      assert parts[0] in parts && forall p :: p in parts[1..] ==> p in parts;
      DocIsRead(parts[0], inner, rest);
      PartsAreRead(parts[1..], inner, tail);
      assert PartDocs(parts) + tail == DocBytes(parts[0]) + rest;
    }
  }

  // ---------- what is not of the format ----------

  /** An object of another kind is read as null, and what is behind its header is left. */
  lemma UnknownKind(order: byte, kind: nat, inner: bool, tail: seq<byte>)
    requires kind == 0 || 8 <= kind < 0x8000_0000
    ensures ReadObject([order] + Ordered(kind, 4, order != 0) + tail, inner) == Got(Null, tail)
  {
    hide Ordered, ReadInt32;
    CountIsRead(kind, order != 0, tail);
    var s := [order] + Ordered(kind, 4, order != 0) + tail;
    assert s[1..] == Ordered(kind, 4, order != 0) + tail;
  }

  /** A count with its highest bit set is negative, and so a line of no positions. */
  lemma NegativeCount(n: nat, le: bool, tail: seq<byte>)
    requires 0x8000_0000 <= n < 0x1_0000_0000
    ensures ReadLine(Ordered(n, 4, le) + tail, le) == Got(Arr([]), tail)
  {
    hide Ordered, FromBytes;
    Pow256Values();
    OrderedIsRead(n, 4, le);
    var s := Ordered(n, 4, le) + tail;
    assert s[..4] == Ordered(n, 4, le) && s[4..] == tail;
  }

  // ---------- doubles that are no numbers ----------

  /** The bits of infinity, of a quiet NaN with either sign, and of the NaN next to infinity. */
  lemma NaNBits()
    ensures !IsNaN(0x7ff0_0000_0000_0000) && IsNaN(0x7ff8_0000_0000_0000)
    ensures IsNaN(0xfff8_0000_0000_0000) && IsNaN(0x7ff0_0000_0000_0001) && !IsNaN(0x7fef_ffff_ffff_ffff)
  {
  }

  /** A point is dropped exactly if it has fewer than two numbers or one of the first two is none. */
  lemma PointDropped(c: Coord)
    ensures Kept(Point(c)) == None <==> |c| < 2 || IsNaN(c[0]) || IsNaN(c[1])
  {
  }
}
