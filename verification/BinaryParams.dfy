/** Binary parameter values: the column types announced for a row and the bytes written for it. */
module BinaryParams {
  import opened Bytes
  import opened LengthCoded

  const TINY: nat := 1
  const INT: nat := 3
  const DOUBLE: nat := 5
  const TIMESTAMP: nat := 7
  const BIGINT: nat := 8
  const DATETIME: nat := 12
  const NEWDECIMAL: nat := 246
  const BLOB: nat := 252
  const VAR_STRING: nat := 253

  /** The fields of a date in the time zone of the client. */
  datatype Moment =
    Moment(year: int, month: int, day: int, hour: int, minute: int, second: int, millisecond: int)

  /** A JavaScript parameter, texts already encoded. `whole` is set when a number is an integer,
      `bits` is its double representation. */
  datatype Param =
    | Null
    | Bool(b: bool)
    | BigInt(big: int)
    | Number(whole: Option<int>, bits: nat)
    | Text(text: seq<byte>)
    | Date(date: Moment)
    | Buffer(data: seq<byte>)
    | SqlString(sql: seq<byte>)
    | GeoJson(wkb: Option<seq<byte>>)
    | Json(json: seq<byte>)

  const TWO_63: int := 0x8000_0000_0000_0000

  predicate IsInt(p: Param) {
    p.Number? && p.whole.Some? && -2147483648 <= p.whole.value < 2147483647
  }

  /** One entry of `parameterHeaderFromValue`. */
  function HeaderType(p: Param): nat {
    match p
    case Null => VAR_STRING
    case Bool(_) => TINY
    case BigInt(v) => if v >= TWO_63 then NEWDECIMAL else BIGINT
    case Number(_, _) => if IsInt(p) then INT else DOUBLE
    case Text(_) => VAR_STRING
    case Date(_) => DATETIME
    case Buffer(_) => BLOB
    case SqlString(_) => VAR_STRING
    case GeoJson(_) => BLOB
    case Json(_) => VAR_STRING
  }

  /** One turn of `checkSameHeader`, with its own idea of dates and large integers. */
  predicate SameType(t: nat, p: Param) {
    match p
    case Null => true
    case Bool(_) => t == TINY
    case BigInt(v) => if v >= TWO_63 then t == VAR_STRING else t == BIGINT
    case Number(_, _) => if IsInt(p) then t == INT else t == DOUBLE
    case Text(_) => t == VAR_STRING
    case Date(_) => t == TIMESTAMP
    case Buffer(_) => t == BLOB
    case SqlString(_) => t == VAR_STRING
    case GeoJson(_) => t == BLOB
    case Json(_) => t == VAR_STRING
  }

  function Digits(n: nat): seq<byte> {
    if n < 10 then [48 + n] else Digits(n / 10) + [48 + n % 10]
  }

  /** `writeBinaryDate`: the number of bytes that follow, and microseconds only if there are any. */
  function DateBytes(d: Moment): (s: seq<byte>)
    ensures |s| == 8 || |s| == 12
  {
    [if d.millisecond == 0 then 7 else 11] + LE(d.year, 2)
    + [d.month % 256, d.day % 256, d.hour % 256, d.minute % 256, d.second % 256]
    + if d.millisecond == 0 then [] else LE(d.millisecond * 1000, 4)
  }

  /** The writes of `writeParam`. */
  function ValueOps(p: Param): seq<seq<byte>>
    requires !p.Null? && p != GeoJson(None)
  {
    match p
    case Bool(b) => [[if b then 1 else 0]]
    case BigInt(v) => if v >= TWO_63 then LengthEncoded(Digits(v)) else [LE(v, 8)]
    case Number(whole, bits) => if IsInt(p) then [LE(whole.value, 4)] else [LE(bits, 8)]
    case Text(s) => LengthEncoded(s)
    case Date(d) => [DateBytes(d)]
    case Buffer(s) => LengthEncoded(s)
    case SqlString(s) => LengthEncoded(s)
    case GeoJson(g) => LengthEncoded([0, 0, 0, 0] + g.value)
    case Json(s) => LengthEncoded(s)
  }

  /** The writes for one value of a bulk row: an indicator byte, then the value unless it is null. */
  function ParamOps(p: Param): seq<seq<byte>> {
    if p.Null? || p == GeoJson(None) then [[1]] else [[0]] + ValueOps(p)
  }

  type Row = seq<Param>

  function HeaderTypes(row: Row, n: nat): (types: seq<nat>)
    requires n <= |row|
    ensures |types| == n
  {
    seq(n, i requires 0 <= i < n => HeaderType(row[i]))
  }

  predicate SameHeader(types: seq<nat>, row: Row)
    requires |types| <= |row|
  {
    forall i :: 0 <= i < |types| ==> SameType(types[i], row[i])
  }

  /** The first `n` values of a row, one write after the other. */
  function RowOps(row: Row, n: nat): seq<seq<byte>>
    requires n <= |row|
  {
    if n == 0 then [] else RowOps(row, n - 1) + ParamOps(row[n - 1])
  }

  function RowBytes(row: Row, n: nat): seq<byte>
    requires n <= |row|
  {
    Flatten(RowOps(row, n))
  }

  /** The announced type is one the row was checked against or was made from. */
  predicate Announced(t: nat, p: Param) { SameType(t, p) || t == HeaderType(p) }

  predicate RowAnnounced(types: seq<nat>, row: Row) {
    |types| <= |row| && forall i :: 0 <= i < |types| ==> Announced(types[i], row[i])
  }

  lemma RowBytesSnoc(row: Row, n: nat)
    requires 1 <= n <= |row|
    ensures RowBytes(row, n) == RowBytes(row, n - 1) + Flatten(ParamOps(row[n - 1]))
  {
    FlattenAppend(RowOps(row, n - 1), ParamOps(row[n - 1]));
  }

  /** A row starts with the indicator byte of its first value. */
  lemma {:induction false} RowFirstByte(row: Row, n: nat)
    requires 1 <= n <= |row|
    ensures RowBytes(row, n) != [] && RowBytes(row, n)[0] <= 1
  {
    hide ValueOps;
    RowBytesSnoc(row, n);
    if n > 1 {
      RowFirstByte(row, n - 1);
    } else {
      assert RowBytes(row, 0) == [];
    }
  }
}
