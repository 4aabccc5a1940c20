/** `readGeometry`: a position that the nested readers move over one buffer. */
module WkbReader {
  import opened Bytes
  import opened Wkb

  /** Values already pushed in front of what the rest of a loop reads. */
  function Prepend(vs: seq<Value>, r: Read<seq<Value>>): Read<seq<Value>> {
    match r
    case RangeError => RangeError
    case Got(more, rest) => Got(vs + more, rest)
  }

  lemma PrependSnoc(vs: seq<Value>, v: Value, r: Read<seq<Value>>)
    ensures Prepend(vs + [v], r) == Prepend(vs, Prepend([v], r))
  {
    if r.Got? {
      assert vs + [v] + r.value == vs + ([v] + r.value);
    }
  }

  class GeometryReader {
    const geoBuf: seq<byte>
    var geoPos: nat

    constructor (buf: seq<byte>)
      ensures geoBuf == buf && geoPos == 4
    {
      geoBuf, geoPos := buf, 4;
    }

    /** The bytes from the position on. */
    function Rest(): seq<byte>
      reads this
    {
      if geoPos <= |geoBuf| then geoBuf[geoPos..] else []
    }

    /** The outcome of a read at an earlier position is the one the format says, and the position
        has moved over exactly what was read; `None` stands for the RangeError of the buffer. */
    predicate Did<T(==)>(out: Option<T>, r: Read<T>)
      reads this
    {
      match r
      case RangeError => out == None
      case Got(v, rest) => out == Some(v) && geoPos <= |geoBuf| && Rest() == rest
    }

    method ReadInt32(byteOrder: bool) returns (v: Option<int>)
      modifies this`geoPos
      ensures Did(v, Wkb.ReadInt32(old(Rest()), byteOrder))
    {
      hide FromBytes;
      if geoPos + 4 > |geoBuf| {
        return None;
      }
      var n: int := FromBytes(geoBuf[geoPos..geoPos + 4], byteOrder);
      assert geoBuf[geoPos..][..4] == geoBuf[geoPos..geoPos + 4];
      v := Some(if n >= 0x8000_0000 then n - 0x1_0000_0000 else n);
      geoPos := geoPos + 4;
    }

    method ParseCoordinates(byteOrder: bool) returns (v: Option<Value>)
      modifies this`geoPos
      ensures Did(v, ReadXY(old(Rest()), byteOrder))
    {
      hide FromBytes;
      geoPos := geoPos + 16;
      if geoPos > |geoBuf| {
        return None;
      }
      ghost var s := old(Rest());
      assert geoBuf[geoPos - 16..geoPos - 8] == s[..8] && geoBuf[geoPos - 8..geoPos] == s[8..16];
      var x := FromBytes(geoBuf[geoPos - 16..geoPos - 8], byteOrder);
      var y := FromBytes(geoBuf[geoPos - 8..geoPos], byteOrder);
      v := Some(Arr([Num(x), Num(y)]));
    }

    /** The points of one line: a count, then that many positions. */
    method ParseLine(byteOrder: bool) returns (v: Option<Value>)
      modifies this`geoPos
      ensures Did(v, ReadLine(old(Rest()), byteOrder))
    {
      hide Wkb.ReadInt32, ReadPoints, ReadXY;
      var pointNumber := ReadInt32(byteOrder);
      if pointNumber.None? {
        return None;
      }
      var n := Max(0, pointNumber.value);
      ghost var s := Rest();
      var coordinates: seq<Value> := [];
      EmptyPrepend(ReadPoints(s, byteOrder, n));
      var i := 0;
      while i < n
        invariant 0 <= i <= n && geoPos <= |geoBuf|
        invariant ReadPoints(s, byteOrder, n) == Prepend(coordinates, ReadPoints(Rest(), byteOrder, n - i))
      {
        PointsStep(Rest(), byteOrder, n - i);
        var p := ParseCoordinates(byteOrder);
        if p.None? {
          return None;
        }
        PrependSnoc(coordinates, p.value, ReadPoints(Rest(), byteOrder, n - i - 1));
        coordinates := coordinates + [p.value];
        i := i + 1;
      }
      PointsStep(Rest(), byteOrder, 0);
      assert coordinates + [] == coordinates;
      v := Some(Arr(coordinates));
    }

    method ParseRings(byteOrder: bool, n: nat) returns (v: Option<Value>)
      requires geoPos <= |geoBuf|
      modifies this`geoPos
      ensures Did(v, ToArr(ReadRings(old(Rest()), byteOrder, n)))
    {
      hide ReadRings, ReadLine;
      ghost var s := Rest();
      var polygonCoordinates: seq<Value> := [];
      EmptyPrepend(ReadRings(s, byteOrder, n));
      var ring := 0;
      while ring < n
        invariant 0 <= ring <= n && geoPos <= |geoBuf|
        invariant ReadRings(s, byteOrder, n) == Prepend(polygonCoordinates, ReadRings(Rest(), byteOrder, n - ring))
      {
        RingsStep(Rest(), byteOrder, n - ring);
        var line := ParseLine(byteOrder);
        if line.None? {
          return None;
        }
        PrependSnoc(polygonCoordinates, line.value, ReadRings(Rest(), byteOrder, n - ring - 1));
        polygonCoordinates := polygonCoordinates + [line.value];
        ring := ring + 1;
      }
      RingsStep(Rest(), byteOrder, 0);
      assert polygonCoordinates + [] == polygonCoordinates;
      v := Some(Arr(polygonCoordinates));
    }

    ghost function Left(): nat
      reads this
    {
      |Rest()|
    }

    /** One object; inside a multi-geometry only its coordinates are handed up. */
    method ReadGeometryObject(inner: bool) returns (v: Option<Value>)
      modifies this`geoPos
      ensures Did(v, ReadObject(old(Rest()), inner))
      decreases Left(), 0
    {
      hide Wkb.ReadInt32, ReadContent;
      ghost var s := Rest();
      var first := geoPos;
      geoPos := geoPos + 1;
      // reading past the end gives no byte order, and the next read then fails
      if first >= |geoBuf| {
        return None;
      }
      var byteOrder := geoBuf[first] != 0;
      assert Rest() == s[1..];
      var wkbType := ReadInt32(byteOrder);
      if wkbType.None? {
        return None;
      }
      IntMoves(s[1..], byteOrder);
      v := ReadBody(byteOrder, wkbType.value, inner, |s|);
    }

    method ReadBody(byteOrder: bool, wkbType: int, inner: bool, ghost bound: nat) returns (v: Option<Value>)
      requires geoPos <= |geoBuf| && Left() < bound
      modifies this`geoPos
      ensures Did(v, ReadContent(old(Rest()), byteOrder, wkbType, inner, bound))
      decreases Left(), 2
    {
      hide Wkb.ReadInt32, ReadRings, ReadXY, ReadLine, ReadObjects;
      if wkbType == 1 {
        v := ParseCoordinates(byteOrder);
      } else if wkbType == 2 {
        v := ParseLine(byteOrder);
      } else if wkbType == 3 {
        var numRings := ReadInt32(byteOrder);
        if numRings.None? {
          return None;
        }
        v := ParseRings(byteOrder, Max(0, numRings.value));
      } else if 4 <= wkbType <= 7 {
        v := ParseGeomArray(byteOrder, wkbType != 7);
      } else {
        return Some(Null);
      }
      if v.Some? && (wkbType >= 4 || !inner) {
        v := Some(Obj(wkbType, v.value));
      }
    }

    method ParseGeomArray(byteOrder: bool, inner: bool) returns (v: Option<Value>)
      requires geoPos <= |geoBuf|
      modifies this`geoPos
      ensures Did(v, ReadArray(old(Rest()), byteOrder, inner))
      decreases Left(), 1
    {
      hide Wkb.ReadInt32, ReadObjects, ReadObject;
      var number := ReadInt32(byteOrder);
      if number.None? {
        return None;
      }
      IntMoves(old(Rest()), byteOrder);
      var n := Max(0, number.value);
      ghost var s := Rest();
      var coordinates: seq<Value> := [];
      EmptyPrepend(ReadObjects(s, inner, n));
      var i := 0;
      while i < n
        invariant 0 <= i <= n && geoPos <= |geoBuf| && Left() <= |s|
        invariant ReadObjects(s, inner, n) == Prepend(coordinates, ReadObjects(Rest(), inner, n - i))
      {
        ghost var here := Rest();
        ObjectsStep(here, inner, n - i);
        var o := ReadGeometryObject(inner);
        if o.None? {
          return None;
        }
        PrependSnoc(coordinates, o.value, ReadObjects(Rest(), inner, n - i - 1));
        coordinates := coordinates + [o.value];
        i := i + 1;
      }
      ObjectsStep(Rest(), inner, 0);
      assert coordinates + [] == coordinates;
      v := Some(Arr(coordinates));
    }
  }

  /** `parseGeomArray` with its count. */
  function ReadArray(s: seq<byte>, le: bool, inner: bool): Read<Value> {
    match Wkb.ReadInt32(s, le)
    case RangeError => RangeError
    case Got(n, rest) => ToArr(ReadObjects(rest, inner, Max(0, n)))
  }

  lemma EmptyPrepend(r: Read<seq<Value>>)
    ensures Prepend([], r) == r
  {
    if r.Got? {
      assert [] + r.value == r.value;
    }
  }

  lemma IntMoves(s: seq<byte>, le: bool)
    ensures var r := Wkb.ReadInt32(s, le); r.Got? ==> |r.rest| < |s|
  {
  }

  lemma PointsStep(s: seq<byte>, le: bool, n: nat)
    ensures n == 0 ==> ReadPoints(s, le, n) == Got([], s)
    ensures n > 0 && ReadXY(s, le).RangeError? ==> ReadPoints(s, le, n).RangeError?
    ensures n > 0 && ReadXY(s, le).Got? ==>
              ReadPoints(s, le, n) == Prepend([ReadXY(s, le).value], ReadPoints(ReadXY(s, le).rest, le, n - 1))
  {
    hide ReadXY;
  }

  lemma RingsStep(s: seq<byte>, le: bool, n: nat)
    ensures n == 0 ==> ReadRings(s, le, n) == Got([], s)
    ensures n > 0 && ReadLine(s, le).RangeError? ==> ReadRings(s, le, n).RangeError?
    ensures n > 0 && ReadLine(s, le).Got? ==>
              ReadRings(s, le, n) == Prepend([ReadLine(s, le).value], ReadRings(ReadLine(s, le).rest, le, n - 1))
  {
    hide ReadLine;
  }

  lemma ObjectsStep(s: seq<byte>, inner: bool, n: nat)
    ensures n == 0 ==> ReadObjects(s, inner, n) == Got([], s)
    ensures n > 0 && ReadObject(s, inner).RangeError? ==> ReadObjects(s, inner, n).RangeError?
    ensures n > 0 && ReadObject(s, inner).Got? ==>
              && |ReadObject(s, inner).rest| < |s|
              && ReadObjects(s, inner, n)
                 == Prepend([ReadObject(s, inner).value], ReadObjects(ReadObject(s, inner).rest, inner, n - 1))
  {
    hide ReadContent;
  }

  /** The default value for an empty field, a RangeError for a cut one, else the geometry. */
  method ReadGeometryField(geoBuf: seq<byte>) returns (absent: bool, v: Option<Value>)
    ensures absent <==> ReadGeometry(geoBuf).None?
    ensures !absent ==> v == (match ReadGeometry(geoBuf).value case RangeError => None case Got(x, _) => Some(x))
  {
    hide ReadObject;
    if |geoBuf| == 0 {
      return true, None;
    }
    var reader := new GeometryReader(geoBuf);
    EmptyObject();
    v := reader.ReadGeometryObject(false);
    return false, v;
  }

  lemma EmptyObject()
    ensures ReadObject([], false) == RangeError
  {
  }
}
