/** COM_STMT_BULK_EXECUTE: how the rows of a batch are cut into commands. First what the program
    does with its buffer, then a reference cutter that only counts bytes. */
module BulkModel {
  import opened Bytes
  import opened OutputModel
  import opened BinaryParams

  /** Statement id, whether the server can send unit results, number of parameters, and the
      `maxAllowedPacket` option (None or 0 when not set). */
  datatype Config = Config(stmtId: int, unitResults: bool, paramCount: nat, maxAllowed: Option<nat>)

  /** The types are sent, and unit results asked for if the server has them. */
  function Flags(cfg: Config): int { if cfg.unitResults then 192 else 128 }

  predicate Limited(cfg: Config) { cfg.maxAllowed.Some? && cfg.maxAllowed.value > 0 }

  function MaxPacketLength(cfg: Config): nat {
    Min(MAX_BUFFER_SIZE, (if Limited(cfg) then cfg.maxAllowed.value else 16777216) + 4)
  }

  /** `checkMaxAllowedLength` refuses `n` more bytes. */
  predicate Refused(cfg: Config, o: Out, n: nat) {
    Limited(cfg) && o.cmdLength + n >= cfg.maxAllowed.value
  }

  function TypeOps(types: seq<nat>): seq<seq<byte>> {
    if types == [] then [] else TypeOps(types[..|types| - 1]) + [LE(types[|types| - 1], 2)]
  }

  /** The writes that start a command. */
  function HeaderOps(cfg: Config, types: seq<nat>): seq<seq<byte>> {
    [[0xfa], LE(cfg.stmtId, 4), LE(Flags(cfg), 2)] + TypeOps(types)
  }

  function HeaderBytes(cfg: Config, types: seq<nat>): seq<byte> { Flatten(HeaderOps(cfg, types)) }

  predicate RowsOk(cfg: Config, rows: seq<Row>) {
    cfg.paramCount <= 65535 && forall r :: r in rows ==> cfg.paramCount <= |r|
  }

  lemma {:induction false} TypeOpsLength(types: seq<nat>)
    ensures |Flatten(TypeOps(types))| == 2 * |types|
  {
    if types != [] {
      TypeOpsLength(types[..|types| - 1]);
      FlattenSnoc(TypeOps(types[..|types| - 1]), LE(types[|types| - 1], 2));
    }
  }

  lemma HeaderLength(cfg: Config, types: seq<nat>)
    ensures |HeaderBytes(cfg, types)| == 7 + 2 * |types|
    ensures HeaderBytes(cfg, types)[0] == 0xfa
  {
    var first := [[0xfa], LE(cfg.stmtId, 4), LE(Flags(cfg), 2)];
    FlattenAppend(first, TypeOps(types));
    TypeOpsLength(types);
    assert first[1..] == [LE(cfg.stmtId, 4), LE(Flags(cfg), 2)];
    assert first[1..][1..] == [LE(Flags(cfg), 2)];
    assert Flatten([LE(Flags(cfg), 2)]) == LE(Flags(cfg), 2);
    assert Flatten(first[1..]) == LE(cfg.stmtId, 4) + LE(Flags(cfg), 2);
    assert Flatten(first) == [0xfa] + (LE(cfg.stmtId, 4) + LE(Flags(cfg), 2));
  }

  // ---------- what the program does ----------

  /** The wire and the number of commands counted: at the end, on the error path, or when a row
      could not be written. */
  datatype Outcome = Done(o: Out, packets: nat) | Failed(o: Out, packets: nat) | Thrown(o: Out, packets: nat)

  /** Between two commands; `left` is the row kept beyond a sent mark, which fills its buffer if that
      is larger than the maximum. With no such row the buffer is whatever the last command left. */
  predicate Between(o: Out, left: Option<seq<byte>>) {
    && o.seqNo == -1 && o.mark.None? && !o.after && 4 <= o.cap
    && (left.Some? ==> o.cap <= MAX_BUFFER_SIZE || 4 + |left.value| == o.cap)
  }

  /** A command is open. */
  predicate Ready(o: Out) { Ok(o) && !o.after }

  function StartCommand(cfg: Config, o: Out, types: seq<nat>, left: Option<seq<byte>>): (r: Out)
    requires Between(o, left) && |types| <= 65535
    ensures Ready(r) && r.mark.None? && Pos(r) <= MAX_BUFFER_SIZE
    ensures left.Some? ==> r.cap <= MAX_BUFFER_SIZE || Pos(r) + |left.value| > r.cap
  {
    StartCommandOk(cfg, o, types, left);
    Writes(StartPacket(o), HeaderOps(cfg, types))
  }

  lemma StartCommandOk(cfg: Config, o: Out, types: seq<nat>, left: Option<seq<byte>>)
    requires Between(o, left) && |types| <= 65535
    ensures Goes(StartPacket(o), HeaderOps(cfg, types))
    ensures var r := Writes(StartPacket(o), HeaderOps(cfg, types));
            && Ready(r) && r.mark.None? && Pos(r) <= MAX_BUFFER_SIZE
            && r == StartPacket(o).(cap := r.cap, body := HeaderBytes(cfg, types))
            && Top(r) == Top(o) && (left.Some? ==> r.cap <= MAX_BUFFER_SIZE || Pos(r) + |left.value| > r.cap)
  {
    HeaderLength(cfg, types);
    FittingWrites(StartPacket(o), HeaderOps(cfg, types));
  }

  /** Writes that stay within the buffer, as far as it can grow, only fill it. */
  lemma {:induction false} FittingWrites(o: Out, ws: seq<seq<byte>>)
    requires Ready(o) && Pos(o) + |Flatten(ws)| <= Top(o)
    ensures Goes(o, ws)
    ensures var r := Writes(o, ws);
            r == Append(o, Flatten(ws)).(cap := r.cap) && Top(r) == Top(o)
    decreases |ws|
  {
    hide Write, Stream;
    if ws == [] {
      assert o.body + [] == o.body;
    } else {
      FittingWrite(o, ws[0]);
      FittingWrites(Write(o, ws[0]), ws[1..]);
      assert o.body + ws[0] + Flatten(ws[1..]) == o.body + Flatten(ws);
    }
  }

  lemma FittingWrite(o: Out, data: seq<byte>)
    requires Ready(o) && Pos(o) + |data| <= Top(o)
    ensures CanWrite(o, |data|)
    ensures var r := Write(o, data);
            r == Append(o, data).(cap := r.cap) && Ready(r) && Top(r) == Top(o)
  {
    hide Write, Stream;
    WriteCases(o, data);
    WriteOk(o, data);
    WriteCapacity(o, data);
    if Fits(o, data) {
      FitsAtOnce(o, data);
    }
  }

  /** `main_loop`: a new command, the left-over row if any, then rows. */
  function RunCommand(cfg: Config, o: Out, types: seq<nat>, left: Option<seq<byte>>, rows: seq<Row>, n: nat): Outcome
    requires Between(o, left) && |types| == cfg.paramCount && RowsOk(cfg, rows)
    requires left.None? ==> rows != []
    decreases |rows|, 1
  {
    var o1 := StartCommand(cfg, o, types, left);
    if left.None? then RunRows(cfg, o1, types, rows, n + 1)
    else if Refused(cfg, o1, |left.value|) then Failed(o1, n)
    else
      LeftoverOk(o1, left.value);
      var o2 := Mark(Write(o1, left.value));
      if rows == [] then Done(Flush(o2), n + 1) else RunRows(cfg, o2, types, rows, n + 1)
  }

  lemma LeftoverOk(o: Out, data: seq<byte>)
    requires Ready(o) && o.mark.None? && Pos(o) <= MAX_BUFFER_SIZE
    requires o.cap <= MAX_BUFFER_SIZE || Pos(o) + |data| > o.cap
    ensures CanWrite(o, |data|)
    ensures var r := Write(o, data);
            Ready(Mark(r)) && r.cap <= MAX_BUFFER_SIZE
  {
    WriteCases(o, data);
    WriteOk(o, data);
    WriteCapacity(o, data);
    if Pos(o) + |data| > MAX_BUFFER_SIZE {
      StreamOk(o.(cap := MAX_BUFFER_SIZE), data);
    }
  }

  /** `parameter_loop` */
  function RunRows(cfg: Config, o: Out, types: seq<nat>, rows: seq<Row>, n: nat): Outcome
    requires Ready(o) && |types| == cfg.paramCount && RowsOk(cfg, rows) && rows != []
    decreases |rows|, 0
  {
    if !Goes(o, RowOps(rows[0], cfg.paramCount)) then Thrown(o, n)
    else
      var o1 := Writes(o, RowOps(rows[0], cfg.paramCount));
      if o1.mark.Some? && (o1.after || Pos(o1) > MaxPacketLength(cfg)) then
        StopAtMarkOk(o1);
        var (o2, left) := ResetMark(Mark(StopAtMark(o1)));
        RunCommand(cfg, o2, types, left, rows[1..], n)
      else if o1.after then
        var (o2, left) := ResetMark(Mark(o1));
        RunCommand(cfg, o2, types, left, rows[1..], n)
      else if rows[1..] == [] then Done(Flush(Mark(o1)), n)
      else if !SameHeader(types, rows[1]) then
        RunCommand(cfg, Flush(Mark(o1)), HeaderTypes(rows[1], cfg.paramCount), None, rows[1..], n)
      else RunRows(cfg, Mark(o1), types, rows[1..], n)
  }

  /** `sendComStmtBulkExecute` */
  function Run(cfg: Config, o: Out, rows: seq<Row>): Outcome
    requires Between(o, None) && RowsOk(cfg, rows) && rows != []
  {
    RunCommand(cfg, o, HeaderTypes(rows[0], cfg.paramCount), None, rows, 0)
  }

  // ---------- the reference cutter ----------

  /** A command of whole rows under one header. */
  datatype Command = Command(types: seq<nat>, rows: seq<Row>)

  function RowsBytes(rows: seq<Row>, n: nat): seq<byte>
    requires forall r :: r in rows ==> n <= |r|
  {
    if rows == [] then [] else RowsBytes(rows[..|rows| - 1], n) + RowBytes(rows[|rows| - 1], n)
  }

  function CommandBytes(cfg: Config, c: Command): seq<byte>
    requires RowsOk(cfg, c.rows)
  {
    HeaderBytes(cfg, c.types) + RowsBytes(c.rows, cfg.paramCount)
  }

  /** How much of an open command of `n` bytes is still in the buffer. */
  function InBuffer(n: nat): nat { if n == 0 then 0 else (n - 1) % 0xffffff + 1 }

  /** The row does not fit the packet that the command is filling. */
  predicate Overflows(cfg: Config, c: Command, row: Row)
    requires RowsOk(cfg, c.rows) && cfg.paramCount <= |row|
  {
    4 + InBuffer(|CommandBytes(cfg, c)|) + |RowBytes(row, cfg.paramCount)| > MaxPacketLength(cfg)
  }

  /** The commands for `rows`, `c` being the one open; false when a row is refused. */
  datatype Cut = Cut(commands: seq<Command>, complete: bool)

  function Put(c: Command, cut: Cut): Cut { cut.(commands := [c] + cut.commands) }

  /** A row that overflows a command that has rows goes to a new command under the same header,
      and the row after it is not checked against that header; any other row joins the command,
      and the next row ends it if its types differ. */
  function CutRows(cfg: Config, c: Command, rows: seq<Row>): (cut: Cut)
    requires RowsOk(cfg, c.rows) && RowsOk(cfg, rows) && |c.types| == cfg.paramCount
    ensures forall d :: d in cut.commands ==> RowsOk(cfg, d.rows)
    decreases |rows|
  {
    if rows == [] then Cut([c], true)
    else if c.rows != [] && Overflows(cfg, c, rows[0]) then
      if Limited(cfg) && |RowBytes(rows[0], cfg.paramCount)| >= cfg.maxAllowed.value then Cut([c], false)
      else Put(c, CutRows(cfg, Command(c.types, [rows[0]]), rows[1..]))
    else
      var c1 := c.(rows := c.rows + [rows[0]]);
      if rows[1..] != [] && !SameHeader(c.types, rows[1]) then
        Put(c1, CutRows(cfg, Command(HeaderTypes(rows[1], cfg.paramCount), []), rows[1..]))
      else CutRows(cfg, c1, rows[1..])
  }

  function Bodies(cfg: Config, cs: seq<Command>): seq<seq<byte>>
    requires forall c :: c in cs ==> RowsOk(cfg, c.rows)
  {
    if cs == [] then [] else [CommandBytes(cfg, cs[0])] + Bodies(cfg, cs[1..])
  }

  /** After `n` bytes of a row kept beyond a sent mark, one of the non-empty writes `ws` starts when
      the bytes of the row so far are exactly one full frame. */
  predicate HitsFull(n: nat, ws: seq<seq<byte>>)
    decreases |ws|
  {
    ws != [] && ((n == 0xffffff && ws[0] != []) || HitsFull(n + |ws[0]|, ws[1..]))
  }

  /** The same for a row behind a mark that still stands: the writes fill the `room` left in the
      buffer, the first that does not fit sends the mark, and one of the others starts there. */
  predicate Hits(n: nat, ws: seq<seq<byte>>, room: int)
    decreases |ws|
  {
    ws != []
    && if n + |ws[0]| <= room then Hits(n + |ws[0]|, ws[1..], room) else HitsFull(n + |ws[0]|, ws[1..])
  }

  /** The first row of the command in a buffer with that room neither overruns it nor, later, does a
      row that is cut off into a new command hit a full frame. A command that has been sent leaves an
      ordinary buffer. */
  predicate Safe(cfg: Config, c: Command, rows: seq<Row>, room: nat)
    requires RowsOk(cfg, c.rows) && RowsOk(cfg, rows) && |c.types| == cfg.paramCount
    decreases |rows|
  {
    rows == []
    || if c.rows != [] && Overflows(cfg, c, rows[0]) then
         !Hits(0, RowOps(rows[0], cfg.paramCount), room - InBuffer(|CommandBytes(cfg, c)|))
         && (|| (Limited(cfg) && |RowBytes(rows[0], cfg.paramCount)| >= cfg.maxAllowed.value)
             || Safe(cfg, Command(c.types, [rows[0]]), rows[1..], 0xffffff))
       else
         var c1 := c.(rows := c.rows + [rows[0]]);
         (c.rows == [] ==> !Overruns(|CommandBytes(cfg, c)|, RowOps(rows[0], cfg.paramCount), room))
         && if rows[1..] != [] && !SameHeader(c.types, rows[1]) then
              Safe(cfg, Command(HeaderTypes(rows[1], cfg.paramCount), []), rows[1..], 0xffffff)
            else Safe(cfg, c1, rows[1..], RoomAfter(cfg, c1, room))
  }

  /** A first row that has been streamed leaves a buffer of the maximum size. */
  function RoomAfter(cfg: Config, c: Command, room: nat): nat
    requires RowsOk(cfg, c.rows)
  {
    if |c.rows| == 1 && |CommandBytes(cfg, c)| > 0xffffff then 0xffffff else room
  }
}
