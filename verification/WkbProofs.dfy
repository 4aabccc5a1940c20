/** What the reader makes of the encoder's bytes. */
module WkbProofs {
  import opened Bytes
  import opened Wkb

  // ---------- the value a geometry is ----------

  function CoordValue(c: Coord): Value { Arr(Nums(c)) }

  function Nums(c: Coord): seq<Value> { if c == [] then [] else [Num(c[0])] + Nums(c[1..]) }

  function LineValues(ps: seq<Coord>): seq<Value> {
    if ps == [] then [] else [CoordValue(ps[0])] + LineValues(ps[1..])
  }

  function RingValues(rings: seq<seq<Coord>>): seq<Value> {
    if rings == [] then [] else [Arr(LineValues(rings[0]))] + RingValues(rings[1..])
  }

  function PolyValues(polys: seq<seq<seq<Coord>>>): seq<Value> {
    if polys == [] then [] else [Arr(RingValues(polys[0]))] + PolyValues(polys[1..])
  }

  function GeometryValues(gs: seq<Geometry>): seq<Value> {
    if gs == [] then [] else [ToValue(gs[0])] + GeometryValues(gs[1..])
  }

  function ToValue(g: Geometry): Value {
    match g
    case Point(c) => Obj(1, CoordValue(c))
    case LineString(ps) => Obj(2, Arr(LineValues(ps)))
    case Polygon(rings) => Obj(3, Arr(RingValues(rings)))
    case MultiPoint(ps) => Obj(4, Arr(LineValues(ps)))
    case MultiLineString(lines) => Obj(5, Arr(RingValues(lines)))
    case MultiPolygon(polys) => Obj(6, Arr(PolyValues(polys)))
    case GeometryCollection(gs) => Obj(7, Arr(GeometryValues(gs)))
  }

  // ---------- geometries that can be written as they are ----------

  predicate Counts(n: nat) { n < 0x8000_0000 }

  predicate TidyLine(ps: seq<Coord>) { Counts(|ps|) && forall i :: 0 <= i < |ps| ==> |ps[i]| == 2 }

  predicate TidyRings(rings: seq<seq<Coord>>) {
    Counts(|rings|) && forall i :: 0 <= i < |rings| ==> TidyLine(rings[i])
  }

  /** Every position has two coordinates, and every count fits the four bytes it is written in. */
  predicate Tidy(g: Geometry) {
    match g
    case Point(c) => |c| == 2
    case LineString(ps) => TidyLine(ps)
    case Polygon(rings) => TidyRings(rings)
    case MultiPoint(ps) => TidyLine(ps)
    case MultiLineString(lines) => TidyRings(lines)
    case MultiPolygon(polys) => Counts(|polys|) && forall i :: 0 <= i < |polys| ==> TidyRings(polys[i])
    case GeometryCollection(gs) => Counts(|gs|) && forall i :: 0 <= i < |gs| ==> Tidy(gs[i])
  }

  // ---------- numbers ----------

  lemma ReadCount(n: nat, rest: seq<byte>)
    requires Counts(n)
    ensures ReadInt32(LE(n, 4) + rest, true) == Got(n, rest)
  {
    Pow256Values();
    LERoundTrip(n, 4);
    assert (LE(n, 4) + rest)[..4] == LE(n, 4) && (LE(n, 4) + rest)[4..] == rest;
  }

  lemma ReadPosition(c: Coord, rest: seq<byte>)
    requires |c| == 2
    ensures ReadXY(XY(c) + rest, true) == Got(CoordValue(c), rest)
  {
    Pow256Values();
    LERoundTrip(c[0], 8);
    LERoundTrip(c[1], 8);
    hide LE, FromLE;
    var s := XY(c) + rest;
    assert s[..8] == LE(c[0], 8) && s[8..16] == LE(c[1], 8) && s[16..] == rest;
    NumsTwo(c);
  }

  lemma NumsTwo(c: Coord)
    requires |c| == 2
    ensures Nums(c) == [Num(c[0]), Num(c[1])]
  {
    assert c[1..][1..] == [] && Nums([]) == [];
    assert Nums(c[1..]) == [Num(c[1])] + Nums(c[1..][1..]);
  }

  lemma {:induction false} PointsCons(ps: seq<Coord>)
    requires ps != []
    ensures PointsBytes(ps) == XY(ps[0]) + PointsBytes(ps[1..])
    decreases |ps|
  {
    hide XY;
    var n := |ps| - 1;
    if n == 0 {
      assert ps[..0] == [] && ps[1..] == [];
    } else {
      PointsCons(ps[..n]);
      assert ps[..n][1..] == ps[1..][..n - 1];
      assert XY(ps[0]) + PointsBytes(ps[1..][..n - 1]) + XY(ps[n])
          == XY(ps[0]) + (PointsBytes(ps[1..][..n - 1]) + XY(ps[n]));
    }
  }

  lemma {:induction false} RingsCons(rings: seq<seq<Coord>>)
    requires rings != []
    ensures RingsBytes(rings) == RingBytes(rings[0]) + RingsBytes(rings[1..])
    decreases |rings|
  {
    hide RingBytes;
    var n := |rings| - 1;
    if n == 0 {
      assert rings[..0] == [] && rings[1..] == [];
    } else {
      RingsCons(rings[..n]);
      assert rings[..n][1..] == rings[1..][..n - 1];
      assert RingBytes(rings[0]) + RingsBytes(rings[1..][..n - 1]) + RingBytes(rings[n])
          == RingBytes(rings[0]) + (RingsBytes(rings[1..][..n - 1]) + RingBytes(rings[n]));
    }
  }

  lemma {:induction false} ReadLinePoints(ps: seq<Coord>, tail: seq<byte>)
    requires forall i :: 0 <= i < |ps| ==> |ps[i]| == 2
    ensures ReadPoints(PointsBytes(ps) + tail, true, |ps|) == Got(LineValues(ps), tail)
    decreases |ps|
  {
    hide ReadXY, XY, CoordValue;
    if ps == [] {
      assert PointsBytes(ps) + tail == tail;
    } else {
      PointsCons(ps);
      var rest := PointsBytes(ps[1..]) + tail;
      assert PointsBytes(ps) + tail == XY(ps[0]) + rest;
      ReadPosition(ps[0], rest);
      ReadLinePoints(ps[1..], tail);
    }
  }

  lemma ReadOneLine(ps: seq<Coord>, tail: seq<byte>)
    requires TidyLine(ps)
    ensures ReadLine(RingBytes(ps) + tail, true) == Got(Arr(LineValues(ps)), tail)
  {
    hide ReadInt32, ReadPoints;
    assert RingBytes(ps) + tail == LE(|ps|, 4) + (PointsBytes(ps) + tail);
    ReadCount(|ps|, PointsBytes(ps) + tail);
    ReadLinePoints(ps, tail);
  }

  lemma {:induction false} ReadPolygonRings(rings: seq<seq<Coord>>, tail: seq<byte>)
    requires forall i :: 0 <= i < |rings| ==> TidyLine(rings[i])
    ensures ReadRings(RingsBytes(rings) + tail, true, |rings|) == Got(RingValues(rings), tail)
    decreases |rings|
  {
    hide ReadLine, RingBytes, TidyLine;
    if rings == [] {
      assert RingsBytes(rings) + tail == tail;
    } else {
      RingsCons(rings);
      var rest := RingsBytes(rings[1..]) + tail;
      assert RingsBytes(rings) + tail == RingBytes(rings[0]) + rest;
      ReadOneLine(rings[0], rest);
      ReadPolygonRings(rings[1..], tail);
    }
  }

  // ---------- objects ----------

  lemma ReadHeader(kind: nat, rest: seq<byte>, inner: bool)
    requires kind <= 7
    ensures var s := Header(kind) + rest;
            |s| >= 5 && ReadObject(s, inner) == ReadContent(rest, true, kind, inner, |s|)
  {
    hide ReadInt32, ReadContent;
    var s := Header(kind) + rest;
    assert s[1..] == LE(kind, 4) + rest;
    ReadCount(kind, rest);
  }

  lemma ReadPointObject(c: Coord, inner: bool, tail: seq<byte>)
    requires |c| == 2
    ensures ReadObject(PointWkb(c) + tail, inner) == Got(if inner then CoordValue(c) else Obj(1, CoordValue(c)), tail)
  {
    hide ReadXY, XY, CoordValue, Header;
    assert PointWkb(c) + tail == Header(1) + (XY(c) + tail);
    ReadHeader(1, XY(c) + tail, inner);
    ReadPosition(c, tail);
  }

  lemma ReadLineObject(ps: seq<Coord>, inner: bool, tail: seq<byte>)
    requires TidyLine(ps)
    ensures ReadObject(LineWkb(ps) + tail, inner)
            == Got(if inner then Arr(LineValues(ps)) else Obj(2, Arr(LineValues(ps))), tail)
  {
    hide ReadLine, Header;
    assert LineWkb(ps) + tail == Header(2) + (RingBytes(ps) + tail);
    ReadHeader(2, RingBytes(ps) + tail, inner);
    ReadOneLine(ps, tail);
  }

  lemma ReadPolygonObject(rings: seq<seq<Coord>>, inner: bool, tail: seq<byte>)
    requires TidyRings(rings)
    ensures ReadObject(PolygonWkb(rings) + tail, inner)
            == Got(if inner then Arr(RingValues(rings)) else Obj(3, Arr(RingValues(rings))), tail)
  {
    hide ReadRings, Header, ReadInt32, RingsBytes;
    var rest := RingsBytes(rings) + tail;
    assert PolygonWkb(rings) + tail == Header(3) + (LE(|rings|, 4) + rest);
    ReadHeader(3, LE(|rings|, 4) + rest, inner);
    ReadCount(|rings|, rest);
    ReadPolygonRings(rings, tail);
  }

  lemma {:induction false} ReadPointParts(ps: seq<Coord>, tail: seq<byte>)
    requires forall i :: 0 <= i < |ps| ==> |ps[i]| == 2
    ensures ReadObjects(PointParts(ps) + tail, true, |ps|) == Got(LineValues(ps), tail)
    decreases |ps|
  {
    hide ReadObject, PointWkb, CoordValue;
    if ps == [] {
      assert PointParts(ps) + tail == tail;
    } else {
      var rest := PointParts(ps[1..]) + tail;
      assert PointParts(ps) + tail == PointWkb(ps[0]) + rest;
      ReadPointObject(ps[0], true, rest);
      ReadPointParts(ps[1..], tail);
    }
  }

  lemma {:induction false} ReadLineParts(lines: seq<seq<Coord>>, tail: seq<byte>)
    requires forall i :: 0 <= i < |lines| ==> TidyLine(lines[i])
    ensures ReadObjects(LineParts(lines) + tail, true, |lines|) == Got(RingValues(lines), tail)
    decreases |lines|
  {
    hide ReadObject, LineWkb, TidyLine;
    if lines == [] {
      assert LineParts(lines) + tail == tail;
    } else {
      var rest := LineParts(lines[1..]) + tail;
      assert LineParts(lines) + tail == LineWkb(lines[0]) + rest;
      ReadLineObject(lines[0], true, rest);
      ReadLineParts(lines[1..], tail);
    }
  }

  lemma {:induction false} ReadPolygonParts(polys: seq<seq<seq<Coord>>>, tail: seq<byte>)
    requires forall i :: 0 <= i < |polys| ==> TidyRings(polys[i])
    ensures ReadObjects(PolygonParts(polys) + tail, true, |polys|) == Got(PolyValues(polys), tail)
    decreases |polys|
  {
    hide ReadObject, PolygonWkb, TidyRings;
    if polys == [] {
      assert PolygonParts(polys) + tail == tail;
    } else {
      var rest := PolygonParts(polys[1..]) + tail;
      assert PolygonParts(polys) + tail == PolygonWkb(polys[0]) + rest;
      ReadPolygonObject(polys[0], true, rest);
      ReadPolygonParts(polys[1..], tail);
    }
  }

  lemma {:induction false} ReadGeometryParts(gs: seq<Geometry>, tail: seq<byte>)
    requires forall i :: 0 <= i < |gs| ==> Tidy(gs[i])
    ensures ReadObjects(GeometryParts(gs) + tail, false, |gs|) == Got(GeometryValues(gs), tail)
    decreases gs
  {
    hide ReadObject, Encode, Tidy, ToValue;
    if gs == [] {
      assert GeometryParts(gs) + tail == tail;
    } else {
      var rest := GeometryParts(gs[1..]) + tail;
      assert GeometryParts(gs) + tail == Encode(gs[0]) + rest;
      ReadEncoded(gs[0], rest);
      ReadGeometryParts(gs[1..], tail);
    }
  }

  lemma ReadMulti(kind: nat, n: nat, parts: seq<byte>, vs: seq<Value>, tail: seq<byte>)
    requires 4 <= kind <= 7 && Counts(n)
    requires ReadObjects(parts + tail, kind != 7, n) == Got(vs, tail)
    ensures ReadObject(Header(kind) + LE(n, 4) + parts + tail, false) == Got(Obj(kind, Arr(vs)), tail)
  {
    hide ReadObjects, Header, ReadInt32;
    var rest := parts + tail;
    assert Header(kind) + LE(n, 4) + parts + tail == Header(kind) + (LE(n, 4) + rest);
    ReadHeader(kind, LE(n, 4) + rest, false);
    ReadCount(n, rest);
  }

  /** A tidy geometry comes back as it was, and nothing behind it is touched. */
  lemma {:induction false} ReadEncoded(g: Geometry, tail: seq<byte>)
    requires Tidy(g)
    ensures ReadObject(Encode(g) + tail, false) == Got(ToValue(g), tail)
    decreases g
  {
    hide ReadObject, PointWkb, LineWkb, PolygonWkb, Header, CoordValue;
    match g {
      case Point(c) => ReadPointObject(c, false, tail);
      case LineString(ps) => ReadLineObject(ps, false, tail);
      case Polygon(rings) => ReadPolygonObject(rings, false, tail);
      case MultiPoint(ps) =>
        ReadPointParts(ps, tail);
        ReadMulti(4, |ps|, PointParts(ps), LineValues(ps), tail);
      case MultiLineString(lines) =>
        ReadLineParts(lines, tail);
        ReadMulti(5, |lines|, LineParts(lines), RingValues(lines), tail);
      case MultiPolygon(polys) =>
        ReadPolygonParts(polys, tail);
        ReadMulti(6, |polys|, PolygonParts(polys), PolyValues(polys), tail);
      case GeometryCollection(gs) =>
        ReadGeometryParts(gs, tail);
        ReadMulti(7, |gs|, GeometryParts(gs), GeometryValues(gs), tail);
    }
  }

  // ---------- any geometry ----------

  predicate CountsOf(g: Geometry) {
    match g
    case Point(c) => true
    case LineString(ps) => Counts(|ps|)
    case Polygon(rings) => Counts(|rings|) && forall i :: 0 <= i < |rings| ==> Counts(|rings[i]|)
    case MultiPoint(ps) => Counts(|ps|)
    case MultiLineString(lines) => Counts(|lines|) && forall i :: 0 <= i < |lines| ==> Counts(|lines[i]|)
    case MultiPolygon(polys) =>
      && Counts(|polys|)
      && forall i :: 0 <= i < |polys| ==>
           Counts(|polys[i]|) && forall j :: 0 <= j < |polys[i]| ==> Counts(|polys[i][j]|)
    case GeometryCollection(gs) => Counts(|gs|) && forall i :: 0 <= i < |gs| ==> CountsOf(gs[i])
  }

  lemma {:induction false} AllPointsTidy(ps: seq<Coord>)
    ensures AllPoints(ps).Some? ==>
              |AllPoints(ps).value| == |ps| && forall i :: 0 <= i < |ps| ==> |AllPoints(ps).value[i]| == 2
  {
    hide GoodPoint;
    if ps != [] {
      AllPointsTidy(ps[1..]);
      assert GoodPoint(ps[0]) ==> |ps[0]| >= 2 by { if GoodPoint(ps[0]) { GoodHasTwo(ps[0]); } }
    }
  }

  lemma GoodHasTwo(c: Coord)
    requires GoodPoint(c)
    ensures |c| >= 2
  {
  }

  lemma {:induction false} AllRingsTidy(rings: seq<seq<Coord>>)
    requires forall i :: 0 <= i < |rings| ==> Counts(|rings[i]|)
    ensures AllRings(rings).Some? ==>
              |AllRings(rings).value| == |rings| && forall i :: 0 <= i < |rings| ==> TidyLine(AllRings(rings).value[i])
  {
    hide AllPoints;
    if rings != [] {
      AllRingsTidy(rings[1..]);
      AllPointsTidy(rings[0]);
    }
  }

  lemma {:induction false} SomePointsTidy(ps: seq<Coord>)
    ensures |SomePoints(ps)| <= |ps| && forall i :: 0 <= i < |SomePoints(ps)| ==> |SomePoints(ps)[i]| == 2
  {
    if ps != [] {
      SomePointsTidy(ps[1..]);
    }
  }

  lemma {:induction false} SomeLinesTidy(lines: seq<seq<Coord>>)
    requires forall i :: 0 <= i < |lines| ==> Counts(|lines[i]|)
    ensures |SomeLines(lines)| <= |lines| && forall i :: 0 <= i < |SomeLines(lines)| ==> TidyLine(SomeLines(lines)[i])
  {
    hide AllPoints;
    if lines != [] {
      SomeLinesTidy(lines[1..]);
      AllPointsTidy(lines[0]);
    }
  }

  lemma {:induction false} SomePolysTidy(polys: seq<seq<seq<Coord>>>)
    requires forall i :: 0 <= i < |polys| ==>
               Counts(|polys[i]|) && forall j :: 0 <= j < |polys[i]| ==> Counts(|polys[i][j]|)
    ensures |SomePolys(polys)| <= |polys| && forall i :: 0 <= i < |SomePolys(polys)| ==> TidyRings(SomePolys(polys)[i])
  {
    hide AllRings;
    if polys != [] {
      SomePolysTidy(polys[1..]);
      AllRingsTidy(polys[0]);
    }
  }

  lemma {:induction false} SomeGeometriesTidy(gs: seq<Geometry>)
    requires forall i :: 0 <= i < |gs| ==> CountsOf(gs[i])
    ensures |SomeGeometries(gs)| <= |gs|
    ensures forall i :: 0 <= i < |SomeGeometries(gs)| ==> Tidy(SomeGeometries(gs)[i])
    decreases gs
  {
    hide Kept, Tidy, CountsOf;
    if gs != [] {
      SomeGeometriesTidy(gs[1..]);
      KeptTidy(gs[0]);
    }
  }

  /** What the encoder keeps is tidy. */
  lemma {:induction false} KeptTidy(g: Geometry)
    requires CountsOf(g)
    ensures Kept(g).Some? ==> Tidy(Kept(g).value)
    decreases g
  {
    hide AllPoints, AllRings, SomePoints, SomeLines, SomePolys, SomeGeometries;
    match g {
      case Point(c) =>
      case LineString(ps) => AllPointsTidy(ps);
      case Polygon(rings) => AllRingsTidy(rings);
      case MultiPoint(ps) => SomePointsTidy(ps);
      case MultiLineString(lines) => SomeLinesTidy(lines);
      case MultiPolygon(polys) => SomePolysTidy(polys);
      case GeometryCollection(gs) => SomeGeometriesTidy(gs);
    }
  }

  /** `getBufferFromGeometryValue` as a value: nothing for a geometry it does not keep. */
  function Written(g: Geometry): Option<seq<byte>> {
    match Kept(g) case None => None case Some(k) => Some(Encode(k))
  }

  /** For every geometry, reading back what was written behind any SRID gives what was kept of it,
      to the last byte. */
  lemma WrittenIsRead(g: Geometry, srid: seq<byte>)
    requires CountsOf(g) && |srid| == 4
    ensures Written(g).Some? ==> ReadGeometry(srid + Written(g).value) == Some(Got(ToValue(Kept(g).value), []))
  {
    hide Kept, Encode, ReadObject;
    if Written(g).Some? {
      KeptTidy(g);
      var b := Written(g).value;
      ReadEncoded(Kept(g).value, []);
      assert (srid + b)[4..] == b == b + [];
    }
  }

  // ---------- exactly when a geometry comes back ----------

  predicate Good2(c: Coord) { |c| == 2 && GoodPoint(c) }

  predicate GoodLine(ps: seq<Coord>) { ps == [] || (Good2(ps[0]) && GoodLine(ps[1..])) }

  predicate GoodRings(rings: seq<seq<Coord>>) { rings == [] || (GoodLine(rings[0]) && GoodRings(rings[1..])) }

  predicate GoodPolys(polys: seq<seq<seq<Coord>>>) {
    polys == [] || (GoodRings(polys[0]) && GoodPolys(polys[1..]))
  }

  /** Every position is two numbers, none of them NaN. */
  predicate Clean(g: Geometry) {
    match g
    case Point(c) => Good2(c)
    case LineString(ps) => GoodLine(ps)
    case Polygon(rings) => GoodRings(rings)
    case MultiPoint(ps) => GoodLine(ps)
    case MultiLineString(lines) => GoodRings(lines)
    case MultiPolygon(polys) => GoodPolys(polys)
    case GeometryCollection(gs) => forall i :: 0 <= i < |gs| ==> Clean(gs[i])
  }

  lemma ConsEq<T>(a: T, more: seq<T>, s: seq<T>)
    requires s != []
    ensures [a] + more == s <==> a == s[0] && more == s[1..]
  {
    var t := [a] + more;
    assert t[0] == a && t[1..] == more;
    if a == s[0] && more == s[1..] {
      assert t == s;
    }
  }

  lemma TwoOf(c: Coord)
    requires |c| >= 2
    ensures c[..2] == c <==> |c| == 2
  {
  }

  lemma {:induction false} AllPointsExact(ps: seq<Coord>)
    ensures AllPoints(ps) == Some(ps) <==> GoodLine(ps)
    decreases |ps|
  {
    if ps != [] {
      AllPointsExact(ps[1..]);
      match AllPoints(ps[1..])
      case None =>
      case Some(more) =>
        if GoodPoint(ps[0]) {
          TwoOf(ps[0]);
          ConsEq(ps[0][..2], more, ps);
        }
    }
  }

  lemma {:induction false} SomePointsExact(ps: seq<Coord>)
    ensures SomePoints(ps) == ps <==> GoodLine(ps)
    decreases |ps|
  {
    if ps != [] {
      SomePointsExact(ps[1..]);
      if GoodPoint(ps[0]) {
        TwoOf(ps[0]);
        ConsEq(ps[0][..2], SomePoints(ps[1..]), ps);
      }
    }
  }

  lemma {:induction false} AllRingsExact(rings: seq<seq<Coord>>)
    ensures AllRings(rings) == Some(rings) <==> GoodRings(rings)
    decreases |rings|
  {
    hide AllPoints, GoodLine;
    if rings != [] {
      AllRingsExact(rings[1..]);
      AllPointsExact(rings[0]);
      if AllRings(rings[1..]).Some? && AllPoints(rings[0]).Some? {
        ConsEq(AllPoints(rings[0]).value, AllRings(rings[1..]).value, rings);
      }
    }
  }

  lemma {:induction false} SomeLinesExact(lines: seq<seq<Coord>>)
    ensures SomeLines(lines) == lines <==> GoodRings(lines)
    decreases |lines|
  {
    hide AllPoints, GoodLine;
    if lines != [] {
      SomeLinesExact(lines[1..]);
      AllPointsExact(lines[0]);
      if AllPoints(lines[0]).Some? {
        ConsEq(AllPoints(lines[0]).value, SomeLines(lines[1..]), lines);
      }
    }
  }

  lemma {:induction false} SomePolysExact(polys: seq<seq<seq<Coord>>>)
    ensures SomePolys(polys) == polys <==> GoodPolys(polys)
    decreases |polys|
  {
    hide AllRings, GoodRings;
    if polys != [] {
      SomePolysExact(polys[1..]);
      AllRingsExact(polys[0]);
      if AllRings(polys[0]).Some? {
        ConsEq(AllRings(polys[0]).value, SomePolys(polys[1..]), polys);
      }
    }
  }

  lemma {:induction false} SomeGeometriesExact(gs: seq<Geometry>)
    ensures SomeGeometries(gs) == gs <==> forall i :: 0 <= i < |gs| ==> Clean(gs[i])
    decreases gs
  {
    hide Kept, Clean;
    if gs != [] {
      SomeGeometriesExact(gs[1..]);
      KeptExact(gs[0]);
      if Kept(gs[0]).Some? {
        ConsEq(Kept(gs[0]).value, SomeGeometries(gs[1..]), gs);
      }
      assert gs == [gs[0]] + gs[1..];
    }
  }

  /** The encoder keeps a geometry as it is exactly when every position is two numbers. */
  lemma {:induction false} KeptExact(g: Geometry)
    ensures Kept(g) == Some(g) <==> Clean(g)
    decreases g
  {
    hide AllPoints, AllRings, SomePoints, SomeLines, SomePolys, SomeGeometries, GoodLine, GoodRings, GoodPolys;
    match g {
      case Point(c) => if GoodPoint(c) { TwoOf(c); }
      case LineString(ps) => AllPointsExact(ps);
      case Polygon(rings) => AllRingsExact(rings);
      case MultiPoint(ps) => SomePointsExact(ps);
      case MultiLineString(lines) => SomeLinesExact(lines);
      case MultiPolygon(polys) => SomePolysExact(polys);
      case GeometryCollection(gs) => SomeGeometriesExact(gs);
    }
  }

  // ---------- different geometries are different values ----------

  lemma {:induction false} NumsDiffer(a: Coord, b: Coord)
    requires Nums(a) == Nums(b)
    ensures a == b
    decreases |a|
  {
    if a != [] && b != [] {
      assert Nums(a)[0] == Nums(b)[0] && Nums(a)[1..] == Nums(b)[1..];
      NumsDiffer(a[1..], b[1..]);
      assert a == [a[0]] + a[1..] && b == [b[0]] + b[1..];
    }
  }

  lemma {:induction false} LinesDiffer(a: seq<Coord>, b: seq<Coord>)
    requires LineValues(a) == LineValues(b)
    ensures a == b
    decreases |a|
  {
    if a != [] && b != [] {
      assert LineValues(a)[0] == LineValues(b)[0] && LineValues(a)[1..] == LineValues(b)[1..];
      NumsDiffer(a[0], b[0]);
      LinesDiffer(a[1..], b[1..]);
      assert a == [a[0]] + a[1..] && b == [b[0]] + b[1..];
    }
  }

  lemma {:induction false} RingsDiffer(a: seq<seq<Coord>>, b: seq<seq<Coord>>)
    requires RingValues(a) == RingValues(b)
    ensures a == b
    decreases |a|
  {
    if a != [] && b != [] {
      assert RingValues(a)[0] == RingValues(b)[0] && RingValues(a)[1..] == RingValues(b)[1..];
      LinesDiffer(a[0], b[0]);
      RingsDiffer(a[1..], b[1..]);
      assert a == [a[0]] + a[1..] && b == [b[0]] + b[1..];
    }
  }

  lemma {:induction false} PolysDiffer(a: seq<seq<seq<Coord>>>, b: seq<seq<seq<Coord>>>)
    requires PolyValues(a) == PolyValues(b)
    ensures a == b
    decreases |a|
  {
    if a != [] && b != [] {
      assert PolyValues(a)[0] == PolyValues(b)[0] && PolyValues(a)[1..] == PolyValues(b)[1..];
      RingsDiffer(a[0], b[0]);
      PolysDiffer(a[1..], b[1..]);
      assert a == [a[0]] + a[1..] && b == [b[0]] + b[1..];
    }
  }

  lemma {:induction false} CollectionsDiffer(a: seq<Geometry>, b: seq<Geometry>)
    requires GeometryValues(a) == GeometryValues(b)
    ensures a == b
    decreases a
  {
    hide ToValue;
    if a != [] && b != [] {
      assert GeometryValues(a)[0] == GeometryValues(b)[0] && GeometryValues(a)[1..] == GeometryValues(b)[1..];
      ValuesDiffer(a[0], b[0]);
      CollectionsDiffer(a[1..], b[1..]);
      assert a == [a[0]] + a[1..] && b == [b[0]] + b[1..];
    }
  }

  /** The value a caller gets tells the geometry. */
  lemma {:induction false} ValuesDiffer(a: Geometry, b: Geometry)
    requires ToValue(a) == ToValue(b)
    ensures a == b
    decreases a
  {
    hide LineValues, RingValues, PolyValues, GeometryValues;
    match a {
      case Point(c) => NumsDiffer(c, b.p);
      case LineString(ps) => LinesDiffer(ps, b.ps);
      case Polygon(rings) => RingsDiffer(rings, b.rings);
      case MultiPoint(ps) => LinesDiffer(ps, b.ps);
      case MultiLineString(lines) => RingsDiffer(lines, b.lines);
      case MultiPolygon(polys) => PolysDiffer(polys, b.polys);
      case GeometryCollection(gs) => CollectionsDiffer(gs, b.gs);
    }
  }

  /** Writing a geometry and reading it back gives that geometry if and only if every position in
      it is two numbers that are not NaN. */
  lemma GeometryRoundTrip(g: Geometry, srid: seq<byte>)
    requires CountsOf(g) && |srid| == 4
    ensures Written(g).Some? && ReadGeometry(srid + Written(g).value) == Some(Got(ToValue(g), [])) <==> Clean(g)
  {
    hide Kept, Clean, ReadGeometry, Encode, ToValue;
    KeptExact(g);
    WrittenIsRead(g, srid);
    if Kept(g).Some? && ToValue(Kept(g).value) == ToValue(g) {
      ValuesDiffer(Kept(g).value, g);
    }
  }

  /** A third number is lost on the way. */
  lemma ThirdNumberExample(x: double, y: double, z: double)
    requires !IsNaN(x) && !IsNaN(y)
    ensures Written(Point([x, y, z])).Some?
    ensures ReadGeometry([0, 0, 0, 0] + Written(Point([x, y, z])).value) == Some(Got(ToValue(Point([x, y])), []))
  {
    hide ReadGeometry, Encode, IsNaN, ToValue;
    assert [x, y, z][..2] == [x, y];
    WrittenIsRead(Point([x, y, z]), [0, 0, 0, 0]);
  }

  /** A bad position drops the parts behind it, good ones too. */
  lemma BadPartExample(p: Coord, q: Coord)
    requires Good2(p) && Good2(q)
    ensures Kept(MultiPoint([p, [], q])) == Some(MultiPoint([p]))
  {
    var ps: seq<Coord> := [p, [], q];
    assert ps[1..][0] == [] && SomePoints(ps[1..]) == [];
    TwoOf(p);
    assert SomePoints(ps) == [ps[0][..2]] + SomePoints(ps[1..]) == [p];
    assert Kept(MultiPoint(ps)) == Some(MultiPoint(SomePoints(ps)));
  }
}
