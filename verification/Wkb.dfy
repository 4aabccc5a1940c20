/** Well-known binary geometries: what the encoder keeps of a value, the bytes for it, and the
    reader (section 8.2 of OGC 06-103r4). */
module Wkb {
  import opened Bytes

  /** A double by its bits. */
  type double = x: int | 0 <= x < 0x1_0000_0000_0000_0000

  predicate IsNaN(d: double) {
    d / 0x10_0000_0000_0000 % 2048 == 2047 && d % 0x10_0000_0000_0000 != 0
  }

  /** A position, of any number of coordinates. */
  type Coord = seq<double>

  datatype Geometry =
    | Point(p: Coord)
    | LineString(ps: seq<Coord>)
    | Polygon(rings: seq<seq<Coord>>)
    | MultiPoint(ps: seq<Coord>)
    | MultiLineString(lines: seq<seq<Coord>>)
    | MultiPolygon(polys: seq<seq<seq<Coord>>>)
    | GeometryCollection(gs: seq<Geometry>)

  // ---------- what the encoder keeps ----------

  predicate GoodPoint(c: Coord) { |c| >= 2 && !IsNaN(c[0]) && !IsNaN(c[1]) }

  function KeptPoint(c: Coord): Option<Coord> { if GoodPoint(c) then Some(c[..2]) else None }

  /** A line or a polygon with a bad position is dropped as a whole. */
  function AllPoints(ps: seq<Coord>): Option<seq<Coord>> {
    if ps == [] then Some([])
    else
      match AllPoints(ps[1..])
      case None => None
      case Some(more) => if GoodPoint(ps[0]) then Some([ps[0][..2]] + more) else None
  }

  function AllRings(rings: seq<seq<Coord>>): Option<seq<seq<Coord>>> {
    if rings == [] then Some([])
    else
      match AllRings(rings[1..])
      case None => None
      case Some(more) =>
        match AllPoints(rings[0])
        case None => None
        case Some(ring) => Some([ring] + more)
  }

  /** The parts of a multi-geometry or a collection are kept up to the first bad one. */
  function SomePoints(ps: seq<Coord>): seq<Coord> {
    if ps == [] || !GoodPoint(ps[0]) then [] else [ps[0][..2]] + SomePoints(ps[1..])
  }

  function SomeLines(lines: seq<seq<Coord>>): seq<seq<Coord>> {
    if lines == [] then []
    else
      match AllPoints(lines[0])
      case None => []
      case Some(line) => [line] + SomeLines(lines[1..])
  }

  function SomePolys(polys: seq<seq<seq<Coord>>>): seq<seq<seq<Coord>>> {
    if polys == [] then []
    else
      match AllRings(polys[0])
      case None => []
      case Some(poly) => [poly] + SomePolys(polys[1..])
  }

  function SomeGeometries(gs: seq<Geometry>): seq<Geometry> {
    if gs == [] then []
    else
      match Kept(gs[0])
      case None => []
      case Some(g) => [g] + SomeGeometries(gs[1..])
  }

  function Kept(g: Geometry): Option<Geometry> {
    match g
    case Point(c) => (match KeptPoint(c) case None => None case Some(k) => Some(Point(k)))
    case LineString(ps) => (match AllPoints(ps) case None => None case Some(k) => Some(LineString(k)))
    case Polygon(rings) => (match AllRings(rings) case None => None case Some(k) => Some(Polygon(k)))
    case MultiPoint(ps) => Some(MultiPoint(SomePoints(ps)))
    case MultiLineString(lines) => Some(MultiLineString(SomeLines(lines)))
    case MultiPolygon(polys) => Some(MultiPolygon(SomePolys(polys)))
    case GeometryCollection(gs) => Some(GeometryCollection(SomeGeometries(gs)))
  }

  // ---------- the bytes ----------

  function Header(kind: nat): seq<byte> { [1] + LE(kind, 4) }

  function XY(c: Coord): seq<byte> {
    LE(if |c| > 0 then c[0] else 0, 8) + LE(if |c| > 1 then c[1] else 0, 8)
  }

  function PointsBytes(ps: seq<Coord>): seq<byte> {
    if ps == [] then [] else PointsBytes(ps[..|ps| - 1]) + XY(ps[|ps| - 1])
  }

  function RingBytes(ring: seq<Coord>): seq<byte> { LE(|ring|, 4) + PointsBytes(ring) }

  function RingsBytes(rings: seq<seq<Coord>>): seq<byte> {
    if rings == [] then [] else RingsBytes(rings[..|rings| - 1]) + RingBytes(rings[|rings| - 1])
  }

  function PointWkb(c: Coord): seq<byte> { Header(1) + XY(c) }

  function LineWkb(ps: seq<Coord>): seq<byte> { Header(2) + LE(|ps|, 4) + PointsBytes(ps) }

  function PolygonWkb(rings: seq<seq<Coord>>): seq<byte> { Header(3) + LE(|rings|, 4) + RingsBytes(rings) }

  function PointParts(ps: seq<Coord>): seq<byte> {
    if ps == [] then [] else PointWkb(ps[0]) + PointParts(ps[1..])
  }

  function LineParts(lines: seq<seq<Coord>>): seq<byte> {
    if lines == [] then [] else LineWkb(lines[0]) + LineParts(lines[1..])
  }

  function PolygonParts(polys: seq<seq<seq<Coord>>>): seq<byte> {
    if polys == [] then [] else PolygonWkb(polys[0]) + PolygonParts(polys[1..])
  }

  function GeometryParts(gs: seq<Geometry>): seq<byte> {
    if gs == [] then [] else Encode(gs[0]) + GeometryParts(gs[1..])
  }

  function Encode(g: Geometry): seq<byte> {
    match g
    case Point(c) => PointWkb(c)
    case LineString(ps) => LineWkb(ps)
    case Polygon(rings) => PolygonWkb(rings)
    case MultiPoint(ps) => Header(4) + LE(|ps|, 4) + PointParts(ps)
    case MultiLineString(lines) => Header(5) + LE(|lines|, 4) + LineParts(lines)
    case MultiPolygon(polys) => Header(6) + LE(|polys|, 4) + PolygonParts(polys)
    case GeometryCollection(gs) => Header(7) + LE(|gs|, 4) + GeometryParts(gs)
  }

  // ---------- the reader ----------

  /** What the reader builds: numbers, arrays, and objects of a geometry type. */
  datatype Value = Num(bits: nat) | Arr(items: seq<Value>) | Obj(kind: nat, content: Value) | Null

  datatype Read<+T> = Got(value: T, rest: seq<byte>) | RangeError

  function FromBytes(s: seq<byte>, le: bool): nat { if le then FromLE(s) else FromLE(Reverse(s)) }

  function Reverse(s: seq<byte>): seq<byte> {
    if s == [] then [] else Reverse(s[1..]) + [s[0]]
  }

  /** `readInt32LE` and `readInt32BE`; out of the buffer they throw. */
  function ReadInt32(s: seq<byte>, le: bool): Read<int> {
    if |s| < 4 then RangeError
    else
      var v := FromBytes(s[..4], le);
      Got(if v >= 0x8000_0000 then v - 0x1_0000_0000 else v, s[4..])
  }

  /** `parseCoordinates` */
  function ReadXY(s: seq<byte>, le: bool): Read<Value> {
    if |s| < 16 then RangeError
    else Got(Arr([Num(FromBytes(s[..8], le)), Num(FromBytes(s[8..16], le))]), s[16..])
  }

  function ReadPoints(s: seq<byte>, le: bool, n: nat): Read<seq<Value>> {
    if n == 0 then Got([], s)
    else
      match ReadXY(s, le)
      case RangeError => RangeError
      case Got(p, rest) =>
        match ReadPoints(rest, le, n - 1)
        case RangeError => RangeError
        case Got(ps, rest') => Got([p] + ps, rest')
  }

  function ReadLine(s: seq<byte>, le: bool): Read<Value> {
    match ReadInt32(s, le)
    case RangeError => RangeError
    case Got(n, rest) =>
      match ReadPoints(rest, le, Max(0, n))
      case RangeError => RangeError
      case Got(ps, rest') => Got(Arr(ps), rest')
  }

  function ReadRings(s: seq<byte>, le: bool, n: nat): Read<seq<Value>>
    decreases n
  {
    if n == 0 then Got([], s)
    else
      match ReadLine(s, le)
      case RangeError => RangeError
      case Got(ring, rest) =>
        match ReadRings(rest, le, n - 1)
        case RangeError => RangeError
        case Got(more, rest') => Got([ring] + more, rest')
  }

  function Wrap(inner: bool, kind: nat, r: Read<Value>): Read<Value> {
    match r
    case RangeError => RangeError
    case Got(v, rest) => Got(if inner then v else Obj(kind, v), rest)
  }

  /** `readGeometryObject`; a value inside a multi-geometry is given without its type. */
  function ReadObject(s: seq<byte>, inner: bool): (r: Read<Value>)
    ensures r.Got? ==> |r.rest| < |s|
    decreases |s|, 0
  {
    if s == [] then RangeError
    else
      var le := s[0] != 0;
      match ReadInt32(s[1..], le)
      case RangeError => RangeError
      case Got(kind, t) => ReadContent(t, le, kind, inner, |s|)
  }

  function ReadContent(t: seq<byte>, le: bool, kind: int, inner: bool, ghost bound: nat): (r: Read<Value>)
    requires |t| < bound
    ensures r.Got? ==> |r.rest| <= |t|
    decreases |t|, 2
  {
    if kind == 1 then Wrap(inner, 1, ReadXY(t, le))
    else if kind == 2 then ShorterLine(t, le); Wrap(inner, 2, ReadLine(t, le))
    else if kind == 3 then
      match ReadInt32(t, le)
      case RangeError => RangeError
      case Got(n, rest) =>
        ShorterRings(rest, le, Max(0, n));
        Wrap(inner, 3, ToArr(ReadRings(rest, le, Max(0, n))))
    else if 4 <= kind <= 7 then
      match ReadInt32(t, le)
      case RangeError => RangeError
      case Got(n, rest) => Wrap(false, kind, ToArr(ReadObjects(rest, kind != 7, Max(0, n))))
    else Got(Null, t)
  }

  function ToArr(r: Read<seq<Value>>): Read<Value> {
    match r
    case RangeError => RangeError
    case Got(vs, rest) => Got(Arr(vs), rest)
  }

  /** `parseGeomArray` after its count; every object brings its own byte order. */
  function ReadObjects(s: seq<byte>, inner: bool, n: nat): (r: Read<seq<Value>>)
    ensures r.Got? ==> |r.rest| <= |s|
    decreases |s|, 1, n
  {
    if n == 0 then Got([], s)
    else
      match ReadObject(s, inner)
      case RangeError => RangeError
      case Got(v, rest) =>
        match ReadObjects(rest, inner, n - 1)
        case RangeError => RangeError
        case Got(vs, rest') => Got([v] + vs, rest')
  }

  lemma ShorterPoints(s: seq<byte>, le: bool, n: nat)
    ensures var r := ReadPoints(s, le, n); r.Got? ==> |r.rest| <= |s|
  {
  }

  lemma ShorterLine(s: seq<byte>, le: bool)
    ensures var r := ReadLine(s, le); r.Got? ==> |r.rest| <= |s|
  {
    match ReadInt32(s, le)
    case RangeError =>
    case Got(n, rest) => ShorterPoints(rest, le, Max(0, n));
  }

  lemma ShorterRings(s: seq<byte>, le: bool, n: nat)
    ensures var r := ReadRings(s, le, n); r.Got? ==> |r.rest| <= |s|
    decreases n
  {
    if n > 0 {
      ShorterLine(s, le);
      match ReadLine(s, le)
      case RangeError =>
      case Got(_, rest) => ShorterRings(rest, le, n - 1);
    }
  }

  /** `readGeometry`: nothing for an empty value, else the object behind the four bytes of the SRID. */
  function ReadGeometry(buf: seq<byte>): Option<Read<Value>> {
    if buf == [] then None
    else if |buf| < 4 then Some(RangeError)
    else Some(ReadObject(buf[4..], false))
  }
}
