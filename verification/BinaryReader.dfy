/** A server that reads binary parameters by the types announced for them, and what it gets. */
module BinaryReader {
  import opened Bytes
  import opened LengthCoded
  import opened BinaryParams

  /** What a server stores: text and bytes, whole numbers, the 64 bits of a double, a date. */
  datatype Stored =
    | NoValue
    | Integer(i: int)
    | Double(bits: nat)
    | Chars(text: seq<byte>)
    | Binary(data: seq<byte>)
    | DateTime(date: Moment)

  // ---------- reading ----------

  /** Two's complement. */
  function Signed(s: seq<byte>): int {
    if s != [] && s[|s| - 1] >= 128 then FromLE(s) - Pow256(|s|) else FromLE(s)
  }

  /** Decimal digits, the most significant first. */
  function Decimal(s: seq<byte>): Option<nat> {
    if s == [] then None
    else
      var last := s[|s| - 1];
      if !(0x30 <= last <= 0x39) then None
      else if |s| == 1 then Some(last - 0x30)
      else match Decimal(s[..|s| - 1]) case None => None case Some(n) => Some(10 * n + (last - 0x30))
  }

  /** A length byte, year, month, day, hour, minute, second, and microseconds if they are sent. */
  function ReadDate(s: seq<byte>): Option<(Stored, seq<byte>)> {
    if s == [] || !(s[0] == 7 || s[0] == 11) || |s| < 1 + s[0] then None
    else
      var micros := if s[0] == 7 then 0 else FromLE(s[8..12]);
      Some((DateTime(Moment(FromLE(s[1..3]), s[3], s[4], s[5], s[6], s[7], micros / 1000)), s[1 + s[0]..]))
  }

  function Fixed(n: nat, s: seq<byte>, make: seq<byte> -> Stored): Option<(Stored, seq<byte>)> {
    if |s| < n then None else Some((make(s[..n]), s[n..]))
  }

  /** One value, by its type alone. */
  function ReadValue(t: nat, s: seq<byte>): Option<(Stored, seq<byte>)> {
    if t == TINY then Fixed(1, s, x => Integer(Signed(x)))
    else if t == INT then Fixed(4, s, x => Integer(Signed(x)))
    else if t == BIGINT then Fixed(8, s, x => Integer(Signed(x)))
    else if t == DOUBLE then Fixed(8, s, x => Double(FromLE(x)))
    else if t == DATETIME || t == TIMESTAMP then ReadDate(s)
    else
      match ReadLengthCoded(s)
      case None => None
      case Some((data, rest)) =>
        if t == VAR_STRING then Some((Chars(data), rest))
        else if t == BLOB then Some((Binary(data), rest))
        else if t == NEWDECIMAL then
          match Decimal(data) case None => None case Some(n) => Some((Integer(n), rest))
        else None
  }

  /** The indicator in front of a value: 0 when the value follows, 1 when it is null. */
  function ReadParam(t: nat, s: seq<byte>): Option<(Stored, seq<byte>)> {
    if s == [] then None
    else if s[0] == 1 then Some((NoValue, s[1..]))
    else if s[0] == 0 then ReadValue(t, s[1..])
    else None
  }

  function ReadRow(types: seq<nat>, s: seq<byte>): Option<(seq<Stored>, seq<byte>)>
    decreases |types|
  {
    if types == [] then Some(([], s))
    else
      match ReadParam(types[0], s)
      case None => None
      case Some((v, rest)) =>
        match ReadRow(types[1..], rest)
        case None => None
        case Some((vs, left)) => Some(([v] + vs, left))
  }

  // ---------- what a value stands for ----------

  /** The stored value is the parameter. An integer too large for 64 bits may arrive as text, and a
      number as its double. */
  predicate Stands(v: Stored, p: Param) {
    match p
    case Null => v == NoValue
    case Bool(b) => v == Integer(if b then 1 else 0)
    case BigInt(n) => v == Integer(n) || (v.Chars? && n >= 0 && Decimal(v.text) == Some(n))
    case Number(whole, bits) => v == Double(bits) || (whole.Some? && v == Integer(whole.value))
    case Text(s) => v == Chars(s)
    case Date(d) => v == DateTime(d)
    case Buffer(s) => v == Binary(s)
    case SqlString(s) => v == Chars(s)
    case GeoJson(g) => v == if g.None? then NoValue else Binary([0, 0, 0, 0] + g.value)
    case Json(s) => v == Chars(s)
  }

  predicate RowStands(vs: seq<Stored>, row: Row) {
    |vs| <= |row| && forall i :: 0 <= i < |vs| ==> Stands(vs[i], row[i])
  }

  /** Lengths a JavaScript buffer can have, integers of at most 64 bits below zero, and dates whose
      year fits two bytes. */
  predicate Sized(p: Param) {
    match p
    case BigInt(n) => -TWO_63 <= n && |Digits(Max(0, n))| < 0x1_0000_0000
    case Number(_, bits) => bits < 0x1_0000_0000_0000_0000
    case Text(s) => |s| < 0x1_0000_0000
    case Date(d) =>
      && 0 <= d.year < 65536 && 1 <= d.month <= 12 && 1 <= d.day <= 31
      && 0 <= d.hour < 24 && 0 <= d.minute < 60 && 0 <= d.second < 60 && 0 <= d.millisecond < 1000
    case Buffer(s) => |s| < 0x1_0000_0000
    case SqlString(s) => |s| < 0x1_0000_0000
    case GeoJson(g) => g.Some? ==> |g.value| < 0xffff_fff0
    case Json(s) => |s| < 0x1_0000_0000
    case _ => true
  }

  predicate RowSized(row: Row) { forall p :: p in row ==> Sized(p) }

  // ---------- numbers, digits and dates ----------

  lemma {:induction false} LEIsResidue(v: int, n: nat)
    ensures FromLE(LE(v, n)) == v % Pow256(n) < Pow256(n)
    decreases n
  {
    if n > 0 {
      LEIsResidue(v / 256, n - 1);
      assert LE(v, n)[1..] == LE(v / 256, n - 1);
      SplitResidue(v, Pow256(n - 1));
    } else {
      assert v % 1 == 0;
    }
  }

  lemma SplitResidue(v: int, m: int)
    requires m > 0
    ensures v % (256 * m) == v % 256 + 256 * ((v / 256) % m)
  {
    var q, r := v / 256, v % 256;
    assert q == m * (q / m) + q % m;
    assert v == (256 * m) * (q / m) + (256 * (q % m) + r);
    Residue(v, 256 * m, q / m, 256 * (q % m) + r);
  }

  lemma Residue(v: int, m: int, q: int, r: int)
    requires v == m * q + r && 0 <= r < m
    ensures v % m == r
  {
    var k := v / m - q;
    assert v == m * (v / m) + v % m;
    assert m * k == r - v % m;
    AtLeast(m, k);
  }

  lemma AtLeast(m: int, k: int)
    requires m > 0
    ensures (k >= 1 ==> m * k >= m) && (k <= -1 ==> m * k <= -m)
  {
  }

  /** The last byte has the weight of half the range. */
  lemma {:induction false} LastByte(s: seq<byte>)
    requires s != []
    ensures FromLE(s) == FromLE(s[..|s| - 1]) + Pow256(|s| - 1) * s[|s| - 1]
    ensures 0 <= FromLE(s[..|s| - 1]) < Pow256(|s| - 1)
    decreases |s|
  {
    if |s| > 1 {
      LastByte(s[1..]);
      assert s[1..][..|s| - 2] == s[..|s| - 1][1..];
      assert s[1..][|s| - 2] == s[|s| - 1];
      Times256(Pow256(|s| - 2), s[|s| - 1]);
    } else {
      assert s[1..] == [] && s[..0] == [];
    }
  }

  lemma Times256(m: int, x: int)
    ensures 256 * (m * x) == (256 * m) * x
  {
  }

  lemma SignedRead(v: int, n: nat)
    requires n > 0 && -128 * Pow256(n - 1) <= v < 128 * Pow256(n - 1)
    ensures Signed(LE(v, n)) == v
  {
    hide FromLE, LE, Pow256;
    var s := LE(v, n);
    LEIsResidue(v, n);
    LastByte(s);
    assert Pow256(n) == 256 * Pow256(n - 1) by { Pow256Step(n); }
    TopByte(v, Pow256(n - 1), FromLE(s), FromLE(s[..n - 1]), s[n - 1]);
  }

  lemma Pow256Step(n: nat)
    requires n > 0
    ensures Pow256(n) == 256 * Pow256(n - 1)
  {
  }

  /** The residue of `v` by 256 m, whose top byte says on which side of zero `v` is. */
  lemma TopByte(v: int, m: int, x: int, low: int, top: byte)
    requires m > 0 && -128 * m <= v < 128 * m && x == v % (256 * m) && x == low + m * top && 0 <= low < m
    ensures v == if top >= 128 then x - 256 * m else x
  {
    if v >= 0 {
      Residue(v, 256 * m, 0, v);
    } else {
      Residue(v, 256 * m, -1, v + 256 * m);
    }
    if top >= 128 {
      Scaled(m, 128, top);
    } else {
      Scaled(m, top, 127);
    }
  }

  lemma Scaled(m: int, a: int, b: int)
    requires m > 0 && a <= b
    ensures m * a <= m * b
  {
  }

  lemma {:induction false} DigitsRead(n: nat)
    ensures Digits(n) != [] && Decimal(Digits(n)) == Some(n)
    decreases n
  {
    if n >= 10 {
      DigitsRead(n / 10);
      var s := Digits(n);
      assert s[..|s| - 1] == Digits(n / 10);
    }
  }

  lemma DateRead(d: Moment, tail: seq<byte>)
    requires Sized(Date(d))
    ensures ReadDate(DateBytes(d) + tail) == Some((DateTime(d), tail))
  {
    hide LE, FromLE, Pow256;
    var s, year := DateBytes(d) + tail, LE(d.year, 2);
    DateFields(d);
    assert s[1..3] == year && s[3] == d.month && s[4] == d.day;
    assert s[5] == d.hour && s[6] == d.minute && s[7] == d.second;
    if d.millisecond != 0 {
      assert s[8..12] == LE(d.millisecond * 1000, 4);
    }
    assert s[1 + s[0]..] == tail;
  }

  lemma DateFields(d: Moment)
    requires 0 <= d.year < 65536 && 0 <= d.millisecond < 1000
    ensures FromLE(LE(d.year, 2)) == d.year && FromLE(LE(d.millisecond * 1000, 4)) == d.millisecond * 1000
  {
    Pow256Values();
    LERoundTrip(d.year, 2);
    LERoundTrip(d.millisecond * 1000, 4);
  }

  lemma FixedRead(n: nat, data: seq<byte>, tail: seq<byte>, make: seq<byte> -> Stored)
    requires |data| == n
    ensures Fixed(n, Flatten([data]) + tail, make) == Some((make(data), tail))
  {
    One(data);
    assert (data + tail)[..n] == data && (data + tail)[n..] == tail;
  }

  lemma Ranges()
    ensures 128 * Pow256(0) == 128 && 128 * Pow256(3) == 0x8000_0000 && 128 * Pow256(7) == TWO_63
  {
    Pow256Values();
    assert Pow256(4) == 256 * Pow256(3) && Pow256(8) == 256 * Pow256(7) && Pow256(0) == 1;
  }

  // ---------- a value, a row ----------

  predicate Reads(r: Option<(Stored, seq<byte>)>, p: Param, tail: seq<byte>) {
    r.Some? && r.value.1 == tail && Stands(r.value.0, p)
  }

  /** A value is read as itself under every type it can be announced with, and nothing behind it is
      touched. */
  lemma ValueIsRead(t: nat, p: Param, tail: seq<byte>)
    requires !p.Null? && p != GeoJson(None) && Announced(t, p) && Sized(p)
    ensures Reads(ReadValue(t, Flatten(ValueOps(p)) + tail), p, tail)
  {
    hide Digits, Decimal, ReadLengthCoded, LengthOps, LengthEncoded, LE, FromLE, Pow256;
    hide Fixed, ReadDate, DateBytes, Signed;
    Ranges();
    match p {
      case Bool(b) =>
        One([if b then 1 else 0]);
        FlagRead(b, tail);
      case BigInt(n) =>
        if n >= TWO_63 {
          DigitsRead(n);
          ReadLengthEncoded(Digits(n), tail);
        } else {
          SignedRead(n, 8);
          FixedRead(8, LE(n, 8), tail, x => Integer(Signed(x)));
        }
      case Number(whole, bits) =>
        if IsInt(p) {
          SignedRead(whole.value, 4);
          FixedRead(4, LE(whole.value, 4), tail, x => Integer(Signed(x)));
        } else {
          Pow256Values();
          LERoundTrip(bits, 8);
          FixedRead(8, LE(bits, 8), tail, x => Double(FromLE(x)));
        }
      case Text(s) => ReadLengthEncoded(s, tail);
      case Date(d) =>
        One(DateBytes(d));
        DateRead(d, tail);
      case Buffer(s) => ReadLengthEncoded(s, tail);
      case SqlString(s) => ReadLengthEncoded(s, tail);
      case GeoJson(g) => ReadLengthEncoded([0, 0, 0, 0] + g.value, tail);
      case Json(s) => ReadLengthEncoded(s, tail);
    }
  }

  lemma FlagRead(b: bool, tail: seq<byte>)
    ensures Fixed(1, [if b then 1 else 0] + tail, x => Integer(Signed(x)))
            == Some((Integer(if b then 1 else 0), tail))
  {
    var data: seq<byte> := [if b then 1 else 0];
    assert (data + tail)[..1] == data && (data + tail)[1..] == tail;
    assert data[1..] == [] && FromLE(data) == data[0] + 256 * FromLE([]);
    assert Signed(data) == data[0];
  }

  lemma ParamIsRead(t: nat, p: Param, tail: seq<byte>)
    requires Announced(t, p) && Sized(p)
    ensures Reads(ReadParam(t, Flatten(ParamOps(p)) + tail), p, tail)
  {
    hide ReadValue, ValueOps, Announced, Sized;
    if p.Null? || p == GeoJson(None) {
      One([1]);
      assert ([1] + tail)[1..] == tail;
    } else {
      ValueIsRead(t, p, tail);
      var v := Flatten(ValueOps(p));
      FlattenAppend([[0]], ValueOps(p));
      One([0]);
      assert ([0] + v + tail)[1..] == v + tail;
    }
  }

  lemma {:induction false} ReadRowSnoc(types: seq<nat>, t: nat, s: seq<byte>)
    requires var r := ReadRow(types, s);
             r.Some? && ReadParam(t, r.value.1).Some?
    ensures var r := ReadRow(types, s);
            var v := ReadParam(t, r.value.1);
            ReadRow(types + [t], s) == Some((r.value.0 + [v.value.0], v.value.1))
    decreases |types|
  {
    hide ReadParam;
    if types == [] {
      var v := ReadParam(t, s).value;
      assert types + [t] == [t] && [t][1..] == [] && ReadRow([], v.1) == Some(([], v.1));
      assert [] + [v.0] == [v.0] + [];
    } else {
      assert (types + [t])[1..] == types[1..] + [t];
      var first := ReadParam(types[0], s).value;
      ReadRowSnoc(types[1..], t, first.1);
      var rest := ReadRow(types[1..], first.1).value;
      var v := ReadParam(t, rest.1).value;
      assert [first.0] + (rest.0 + [v.0]) == [first.0] + rest.0 + [v.0];
    }
  }

  /** A server that knows the announced types gets back the values of the row, each as itself, and
      stands behind its last byte. */
  predicate RowReads(r: Option<(seq<Stored>, seq<byte>)>, row: Row, n: nat, tail: seq<byte>) {
    r.Some? && r.value.1 == tail && |r.value.0| == n && RowStands(r.value.0, row)
  }

  lemma {:induction false} RowIsRead(types: seq<nat>, row: Row, n: nat, tail: seq<byte>)
    requires n <= |types| && n <= |row|
    requires forall i :: 0 <= i < n ==> Announced(types[i], row[i]) && Sized(row[i])
    ensures RowReads(ReadRow(types[..n], RowBytes(row, n) + tail), row, n, tail)
  {
    hide ReadParam, Announced, Sized, Stands, RowBytes;
    if n == 0 {
      NoValues(row, tail);
    } else {
      var last := Flatten(ParamOps(row[n - 1]));
      RowBytesSnoc(row, n);
      ParamIsRead(types[n - 1], row[n - 1], tail);
      RowIsRead(types, row, n - 1, last + tail);
      assert RowBytes(row, n - 1) + last + tail == RowBytes(row, n - 1) + (last + tail);
      ReadRowSnoc(types[..n - 1], types[n - 1], RowBytes(row, n - 1) + (last + tail));
      assert types[..n] == types[..n - 1] + [types[n - 1]];
    }
  }

  lemma NoValues(row: Row, tail: seq<byte>)
    ensures RowBytes(row, 0) + tail == tail
  {
  }

  /** The rows that `parameterHeaderFromValue` and `checkSameHeader` let through are announced, and
      announced rows are read as themselves. */
  lemma CheckedRowIsRead(types: seq<nat>, row: Row, tail: seq<byte>)
    requires |types| <= |row| && RowSized(row)
    ensures types == HeaderTypes(row, |types|) || SameHeader(types, row) ==> RowAnnounced(types, row)
    ensures RowAnnounced(types, row) ==>
              RowReads(ReadRow(types, RowBytes(row, |types|) + tail), row, |types|, tail)
  {
    hide ReadRow, RowBytes, Sized, SameType, HeaderType, RowReads;
    assert types[..|types|] == types;
    if RowAnnounced(types, row) {
      RowIsRead(types, row, |types|, tail);
    }
  }

  // ---------- which values share a type ----------

  /** The announced type tells the kind of a value. */
  lemma TypeTells(p: Param)
    ensures HeaderType(p) == TINY <==> p.Bool?
    ensures HeaderType(p) == INT <==>
              p.Number? && p.whole.Some? && -0x8000_0000 <= p.whole.value <= 0x7fff_fffe
    ensures HeaderType(p) == DOUBLE <==>
              p.Number? && !(p.whole.Some? && -0x8000_0000 <= p.whole.value <= 0x7fff_fffe)
    ensures HeaderType(p) == BIGINT <==> p.BigInt? && p.big < TWO_63
    ensures HeaderType(p) == NEWDECIMAL <==> p.BigInt? && p.big >= TWO_63
    ensures HeaderType(p) == DATETIME <==> p.Date?
    ensures HeaderType(p) == BLOB <==> p.Buffer? || p.GeoJson?
    ensures HeaderType(p) == VAR_STRING <==> p.Null? || p.Text? || p.SqlString? || p.Json?
  {
  }

  /** A value may stand under the type announced for another one. */
  predicate Joins(first: Param, p: Param) {
    || p.Null?
    || (p.BigInt? && p.big >= TWO_63 && HeaderType(first) == VAR_STRING)
    || (!p.Date? && !(p.BigInt? && p.big >= TWO_63) && HeaderType(p) == HeaderType(first))
  }

  /** A row joins a command that another row opened exactly if each of its values is null or of the type
      announced; but a date never joins, not even under a date, and an integer past 64 bits joins texts
      and not its like. */
  lemma SharesHeader(first: Row, row: Row, n: nat)
    requires n <= |first| && n <= |row|
    ensures SameHeader(HeaderTypes(first, n), row) <==> forall i :: 0 <= i < n ==> Joins(first[i], row[i])
  {
    var types := HeaderTypes(first, n);
    forall i | 0 <= i < n
      ensures SameType(types[i], row[i]) <==> Joins(first[i], row[i])
    {
      assert types[i] == HeaderType(first[i]);
    }
  }

  /** Two rows with a date in the same column are never sent in one command unless the second is cut off. */
  lemma DatesApart(first: Row, row: Row, n: nat, i: nat)
    requires n <= |first| && n <= |row| && i < n && row[i].Date?
    ensures !SameHeader(HeaderTypes(first, n), row)
  {
    SharesHeader(first, row, n);
    assert !Joins(first[i], row[i]);
  }
}
