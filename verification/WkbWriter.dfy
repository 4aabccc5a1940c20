/** `getBufferFromGeometryValue`: buffers allocated at their final size and filled by a moving
    position. */
module WkbWriter {
  import opened Bytes
  import opened Wkb
  import opened WkbProofs

  // ---------- what the loops have written so far ----------

  lemma {:induction false} AllPointsGood(ps: seq<Coord>)
    ensures AllPoints(ps).Some? <==> forall i :: 0 <= i < |ps| ==> GoodPoint(ps[i])
    decreases |ps|
  {
    if ps != [] {
      AllPointsGood(ps[1..]);
      assert ps == [ps[0]] + ps[1..];
    }
  }

  /** Only the first two numbers of a position reach the buffer. */
  lemma {:induction false} KeptPointsBytes(ps: seq<Coord>)
    requires AllPoints(ps).Some?
    ensures |AllPoints(ps).value| == |ps| && PointsBytes(AllPoints(ps).value) == PointsBytes(ps)
    decreases |ps|
  {
    if ps != [] {
      KeptPointsBytes(ps[1..]);
      PointsCons(ps);
      var k := AllPoints(ps).value;
      PointsCons(k);
      assert k[1..] == AllPoints(ps[1..]).value;
      assert XY(k[0]) == XY(ps[0]);
    }
  }

  lemma {:induction false} AllRingsGood(rings: seq<seq<Coord>>)
    ensures AllRings(rings).Some? <==> forall i :: 0 <= i < |rings| ==> AllPoints(rings[i]).Some?
    decreases |rings|
  {
    hide AllPoints;
    if rings != [] {
      AllRingsGood(rings[1..]);
      assert rings == [rings[0]] + rings[1..];
    }
  }

  lemma {:induction false} KeptRingsBytes(rings: seq<seq<Coord>>)
    requires AllRings(rings).Some?
    ensures |AllRings(rings).value| == |rings| && RingsBytes(AllRings(rings).value) == RingsBytes(rings)
    decreases |rings|
  {
    hide AllPoints, PointsBytes;
    if rings != [] {
      KeptRingsBytes(rings[1..]);
      KeptPointsBytes(rings[0]);
      RingsCons(rings);
      var k := AllRings(rings).value;
      RingsCons(k);
      assert k[1..] == AllRings(rings[1..]).value;
    }
  }

  lemma {:induction false} PointsSize(ps: seq<Coord>)
    ensures |PointsBytes(ps)| == 16 * |ps|
    decreases |ps|
  {
    hide LE;
    if ps != [] {
      PointsSize(ps[..|ps| - 1]);
    }
  }

  lemma PointsNext(ps: seq<Coord>, i: nat)
    requires i < |ps|
    ensures PointsBytes(ps[..i + 1]) == PointsBytes(ps[..i]) + XY(ps[i])
  {
    assert ps[..i + 1][..i] == ps[..i];
  }

  lemma RingsNext(rings: seq<seq<Coord>>, i: nat)
    requires i < |rings|
    ensures RingsBytes(rings[..i + 1]) == RingsBytes(rings[..i]) + RingBytes(rings[i])
  {
    assert rings[..i + 1][..i] == rings[..i];
  }

  lemma {:induction false} RingsRoom(rings: seq<seq<Coord>>, i: nat)
    requires i < |rings|
    ensures |RingsBytes(rings[..i])| + 4 + 16 * |rings[i]| <= |RingsBytes(rings)|
    decreases |rings| - i
  {
    hide RingsBytes;
    RingsNext(rings, i);
    PointsSize(rings[i]);
    if i + 1 < |rings| {
      RingsRoom(rings, i + 1);
    } else {
      assert rings[..i + 1] == rings;
    }
  }

  // ---------- the parts of a multi-geometry are geometries ----------

  function AsPoints(ps: seq<Coord>): seq<Geometry> {
    if ps == [] then [] else [Point(ps[0])] + AsPoints(ps[1..])
  }

  function AsLines(lines: seq<seq<Coord>>): seq<Geometry> {
    if lines == [] then [] else [LineString(lines[0])] + AsLines(lines[1..])
  }

  function AsPolygons(polys: seq<seq<seq<Coord>>>): seq<Geometry> {
    if polys == [] then [] else [Polygon(polys[0])] + AsPolygons(polys[1..])
  }

  /** A list of parts with its count in front, cut at the first part that cannot be written. */
  function PartsBytes(kind: nat, gs: seq<Geometry>): seq<byte> {
    Header(kind) + LE(|SomeGeometries(gs)|, 4) + GeometryParts(SomeGeometries(gs))
  }

  predicate Simple(g: Geometry) { CountsOf(g) && (g.Point? || g.LineString? || g.Polygon?) }

  lemma PartsCons(gs: seq<Geometry>, k: Geometry)
    requires gs != [] && Kept(gs[0]) == Some(k)
    ensures |SomeGeometries(gs)| == 1 + |SomeGeometries(gs[1..])|
    ensures GeometryParts(SomeGeometries(gs)) == Encode(k) + GeometryParts(SomeGeometries(gs[1..]))
  {
    hide Kept, Encode;
    var s := SomeGeometries(gs);
    assert s == [k] + SomeGeometries(gs[1..]);
    assert s[0] == k && s[1..] == SomeGeometries(gs[1..]);
  }

  lemma {:induction false} PointsAreParts(ps: seq<Coord>)
    ensures forall i :: 0 <= i < |AsPoints(ps)| ==> Simple(AsPoints(ps)[i])
    ensures |AsPoints(ps)| == |ps| && |SomeGeometries(AsPoints(ps))| == |SomePoints(ps)|
    ensures GeometryParts(SomeGeometries(AsPoints(ps))) == PointParts(SomePoints(ps))
    decreases |ps|
  {
    hide PointWkb, GoodPoint;
    if ps != [] {
      PointsAreParts(ps[1..]);
      assert AsPoints(ps)[1..] == AsPoints(ps[1..]);
      if GoodPoint(ps[0]) {
        GoodHasTwo(ps[0]);
        var k := SomePoints(ps);
        assert k[0] == ps[0][..2] && k[1..] == SomePoints(ps[1..]);
        PartsCons(AsPoints(ps), Point(k[0]));
      }
    }
  }

  lemma {:induction false} LinesAreParts(lines: seq<seq<Coord>>)
    requires forall i :: 0 <= i < |lines| ==> Counts(|lines[i]|)
    ensures forall i :: 0 <= i < |AsLines(lines)| ==> Simple(AsLines(lines)[i])
    ensures |AsLines(lines)| == |lines| && |SomeGeometries(AsLines(lines))| == |SomeLines(lines)|
    ensures GeometryParts(SomeGeometries(AsLines(lines))) == LineParts(SomeLines(lines))
    decreases |lines|
  {
    hide LineWkb, AllPoints;
    if lines != [] {
      LinesAreParts(lines[1..]);
      assert AsLines(lines)[1..] == AsLines(lines[1..]);
      if AllPoints(lines[0]).Some? {
        var k := SomeLines(lines);
        assert k[0] == AllPoints(lines[0]).value && k[1..] == SomeLines(lines[1..]);
        PartsCons(AsLines(lines), LineString(k[0]));
      }
    }
  }

  lemma {:induction false} PolygonsAreParts(polys: seq<seq<seq<Coord>>>)
    requires forall i :: 0 <= i < |polys| ==>
               Counts(|polys[i]|) && forall j :: 0 <= j < |polys[i]| ==> Counts(|polys[i][j]|)
    ensures forall i :: 0 <= i < |AsPolygons(polys)| ==> Simple(AsPolygons(polys)[i])
    ensures |AsPolygons(polys)| == |polys| && |SomeGeometries(AsPolygons(polys))| == |SomePolys(polys)|
    ensures GeometryParts(SomeGeometries(AsPolygons(polys))) == PolygonParts(SomePolys(polys))
    decreases |polys|
  {
    hide PolygonWkb, AllRings;
    if polys != [] {
      PolygonsAreParts(polys[1..]);
      assert AsPolygons(polys)[1..] == AsPolygons(polys[1..]);
      if AllRings(polys[0]).Some? {
        var k := SomePolys(polys);
        assert k[0] == AllRings(polys[0]).value && k[1..] == SomePolys(polys[1..]);
        PartsCons(AsPolygons(polys), Polygon(k[0]));
      }
    }
  }

  lemma SuffixStep(gs: seq<Geometry>, i: nat)
    requires i < |gs|
    ensures SomeGeometries(gs[i..])
            == match Kept(gs[i]) case None => [] case Some(g) => [g] + SomeGeometries(gs[i + 1..])
  {
    hide Kept;
    assert gs[i..][0] == gs[i] && gs[i..][1..] == gs[i + 1..];
  }

  lemma PartsSnoc(sub: seq<seq<byte>>, g: Geometry, more: seq<Geometry>)
    ensures Flatten(sub + [Encode(g)]) + GeometryParts(more) == Flatten(sub) + GeometryParts([g] + more)
  {
    hide Encode, Flatten;
    FlattenSnoc(sub, Encode(g));
    assert ([g] + more)[0] == g && ([g] + more)[1..] == more;
  }

  // ---------- the writer ----------

  /** One of the buffer's own writers: `bytes` from `pos` on, the filled part growing by them. */
  method Put(a: array<byte>, pos: nat, bytes: seq<byte>)
    requires pos + |bytes| <= a.Length
    modifies a
    ensures a[..pos + |bytes|] == old(a[..pos]) + bytes
  {
    for i := 0 to |bytes|
      invariant a[..pos + i] == old(a[..pos]) + bytes[..i]
    {
      a[pos + i] := bytes[i];
    }
  }

  method PutHeader(a: array<byte>, kind: nat)
    requires a.Length >= 5
    modifies a
    ensures a[..5] == Header(kind)
  {
    Put(a, 0, [1]);
    Put(a, 1, LE(kind, 4));
  }

  method PutXY(a: array<byte>, pos: nat, c: Coord)
    requires pos + 16 <= a.Length && |c| >= 2
    modifies a
    ensures a[..pos + 16] == old(a[..pos]) + XY(c)
  {
    hide LE;
    Put(a, pos, LE(c[0], 8));
    Put(a, pos + 8, LE(c[1], 8));
  }

  method PointBuffer(c: Coord) returns (geo: Option<seq<byte>>)
    ensures geo == Written(Point(c))
  {
    var geoBuff := new byte[21];
    PutHeader(geoBuff, 1);
    if |c| >= 2 && !IsNaN(c[0]) && !IsNaN(c[1]) {
      PutXY(geoBuff, 5, c);
      assert geoBuff[..] == geoBuff[..21] == PointWkb(c[..2]);
      return Some(geoBuff[..]);
    }
    return None;
  }

  /** The points of a line or a ring from `pos` on; false at the first bad one. */
  method PutPoints(a: array<byte>, start: nat, ps: seq<Coord>) returns (ok: bool)
    requires start + 16 * |ps| <= a.Length
    modifies a
    ensures ok <==> AllPoints(ps).Some?
    ensures ok ==> a[..start + 16 * |ps|] == old(a[..start]) + PointsBytes(ps)
  {
    hide AllPoints, XY, PointsBytes;
    AllPointsGood(ps);
    EmptyPoints(ps);
    for i := 0 to |ps|
      invariant forall k :: 0 <= k < i ==> GoodPoint(ps[k])
      invariant a[..start + 16 * i] == old(a[..start]) + PointsBytes(ps[..i])
    {
      if !(|ps[i]| >= 2 && !IsNaN(ps[i][0]) && !IsNaN(ps[i][1])) {
        return false;
      }
      PutXY(a, start + 16 * i, ps[i]);
      PointsNext(ps, i);
      assert old(a[..start]) + PointsBytes(ps[..i]) + XY(ps[i])
          == old(a[..start]) + (PointsBytes(ps[..i]) + XY(ps[i]));
    }
    assert ps[..|ps|] == ps;
    return true;
  }

  lemma EmptyPoints(ps: seq<Coord>)
    ensures PointsBytes(ps[..0]) == []
  {
  }

  method LineBuffer(ps: seq<Coord>) returns (geo: Option<seq<byte>>)
    requires Counts(|ps|)
    ensures geo == Written(LineString(ps))
  {
    hide AllPoints, PointsBytes, LE, Header;
    var geoBuff := new byte[9 + 16 * |ps|];
    PutHeader(geoBuff, 2);
    Put(geoBuff, 5, LE(|ps|, 4));
    var ok := PutPoints(geoBuff, 9, ps);
    if !ok {
      return None;
    }
    KeptPointsBytes(ps);
    assert geoBuff[..] == geoBuff[..9 + 16 * |ps|];
    return Some(geoBuff[..]);
  }

  method RingsSize(rings: seq<seq<Coord>>) returns (size: nat)
    ensures size == |RingsBytes(rings)|
  {
    hide RingBytes, RingsBytes;
    size := 0;
    EmptyRings(rings);
    for i := 0 to |rings|
      invariant size == |RingsBytes(rings[..i])|
    {
      RingsNext(rings, i);
      RingLength(rings[i]);
      size := size + 4 + 16 * |rings[i]|;
    }
    assert rings[..|rings|] == rings;
  }

  lemma EmptyRings(rings: seq<seq<Coord>>)
    ensures RingsBytes(rings[..0]) == []
  {
  }

  lemma RingLength(ring: seq<Coord>)
    ensures |RingBytes(ring)| == 4 + 16 * |ring|
  {
    PointsSize(ring);
  }

  /** One ring: its count, then its points. */
  method PutRing(a: array<byte>, pos: nat, ring: seq<Coord>) returns (ok: bool)
    requires pos + 4 + 16 * |ring| <= a.Length
    modifies a
    ensures ok <==> AllPoints(ring).Some?
    ensures ok ==> a[..pos + 4 + 16 * |ring|] == old(a[..pos]) + RingBytes(ring)
  {
    hide AllPoints, PointsBytes, LE;
    Put(a, pos, LE(|ring|, 4));
    ok := PutPoints(a, pos + 4, ring);
  }

  method PutRings(a: array<byte>, rings: seq<seq<Coord>>) returns (ok: bool)
    requires a.Length == 9 + |RingsBytes(rings)|
    modifies a
    ensures ok <==> AllRings(rings).Some?
    ensures ok ==> a[..] == old(a[..9]) + RingsBytes(rings)
  {
    hide AllPoints, AllRings, RingsBytes, RingBytes;
    AllRingsGood(rings);
    EmptyRings(rings);
    var pos := 9;
    for i := 0 to |rings|
      invariant forall k :: 0 <= k < i ==> AllPoints(rings[k]).Some?
      invariant pos == 9 + |RingsBytes(rings[..i])| <= a.Length
      invariant a[..pos] == old(a[..9]) + RingsBytes(rings[..i])
    {
      RingsRoom(rings, i);
      RingsNext(rings, i);
      RingLength(rings[i]);
      var ringOk := PutRing(a, pos, rings[i]);
      if !ringOk {
        return false;
      }
      pos := pos + 4 + 16 * |rings[i]|;
      assert old(a[..9]) + RingsBytes(rings[..i]) + RingBytes(rings[i])
          == old(a[..9]) + (RingsBytes(rings[..i]) + RingBytes(rings[i]));
    }
    assert rings[..|rings|] == rings && a[..] == a[..pos];
    return true;
  }

  method PolygonBuffer(rings: seq<seq<Coord>>) returns (geo: Option<seq<byte>>)
    requires Counts(|rings|) && forall i :: 0 <= i < |rings| ==> Counts(|rings[i]|)
    ensures geo == Written(Polygon(rings))
  {
    hide AllRings, RingsBytes, LE, Header;
    var size := RingsSize(rings);
    var geoBuff := new byte[9 + size];
    PutHeader(geoBuff, 3);
    Put(geoBuff, 5, LE(|rings|, 4));
    var ok := PutRings(geoBuff, rings);
    if !ok {
      return None;
    }
    KeptRingsBytes(rings);
    return Some(geoBuff[..]);
  }

  function Level(g: Geometry): nat {
    if g.Point? || g.LineString? || g.Polygon? then 0
    else if g.MultiPoint? || g.MultiLineString? || g.MultiPolygon? then 2
    else 3
  }

  /** The nine bytes in front and the parts behind them, up to the first part that is null. */
  method PartsBuffer(kind: nat, gs: seq<Geometry>, ghost level: nat) returns (geo: seq<byte>)
    requires Counts(|gs|) && forall i :: 0 <= i < |gs| ==> CountsOf(gs[i])
    requires level == 3 || forall i :: 0 <= i < |gs| ==> Level(gs[i]) < level
    ensures geo == PartsBytes(kind, gs)
    decreases level, gs
  {
    hide CountsOf, Kept, SomeGeometries, GeometryParts, Encode, Flatten, LE, Header;
    var geoBuff := new byte[9];
    PutHeader(geoBuff, kind);
    var subArrays: seq<seq<byte>> := [];
    NoParts();
    assert gs[0..] == gs;
    var i := 0;
    while i < |gs|
      invariant 0 <= i <= |gs| && geoBuff[..5] == Header(kind)
      invariant |subArrays| + |SomeGeometries(gs[i..])| == |SomeGeometries(gs)|
      invariant Flatten(subArrays) + GeometryParts(SomeGeometries(gs[i..])) == GeometryParts(SomeGeometries(gs))
    {
      var tmpBuf := GetBufferFromGeometryValue(gs[i]);
      SuffixStep(gs, i);
      if tmpBuf.None? {
        break;
      }
      PartsSnoc(subArrays, Kept(gs[i]).value, SomeGeometries(gs[i + 1..]));
      subArrays := subArrays + [tmpBuf.value];
      i := i + 1;
    }
    if i == |gs| {
      assert gs[i..] == [];
    }
    assert SomeGeometries(gs[i..]) == [];
    Put(geoBuff, 5, LE(|subArrays|, 4));
    assert geoBuff[..] == geoBuff[..9];
    return geoBuff[..] + Flatten(subArrays);
  }

  lemma NoParts()
    ensures Flatten<byte>([]) == [] && SomeGeometries([]) == [] && GeometryParts([]) == []
  {
  }

  /** The whole encoder: null for what it does not keep, otherwise exactly the bytes of what it keeps. */
  method GetBufferFromGeometryValue(value: Geometry) returns (geo: Option<seq<byte>>)
    requires CountsOf(value)
    ensures geo == Written(value)
    decreases Level(value), value
  {
    hide AsPoints, AsLines, AsPolygons, SomePoints, SomeLines, SomePolys, SomeGeometries;
    hide PointParts, LineParts, PolygonParts, GeometryParts, AllPoints, AllRings, LE, Header, KeptPoint;
    hide PointWkb, LineWkb, PolygonWkb;
    match value {
      case Point(c) =>
        geo := PointBuffer(c);
      case LineString(ps) =>
        geo := LineBuffer(ps);
      case Polygon(rings) =>
        geo := PolygonBuffer(rings);
      case MultiPoint(ps) =>
        PointsAreParts(ps);
        var b := PartsBuffer(4, AsPoints(ps), 1);
        geo := Some(b);
      case MultiLineString(lines) =>
        LinesAreParts(lines);
        var b := PartsBuffer(5, AsLines(lines), 1);
        geo := Some(b);
      case MultiPolygon(polys) =>
        PolygonsAreParts(polys);
        var b := PartsBuffer(6, AsPolygons(polys), 1);
        geo := Some(b);
      case GeometryCollection(gs) =>
        var b := PartsBuffer(7, gs, 3);
        geo := Some(b);
    }
  }
}
