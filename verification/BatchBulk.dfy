/** The bulk command object: it encodes rows into the output stream and cuts them into commands. */
module BatchBulk {
  import opened Bytes
  import opened OutputModel
  import opened LengthCoded
  import opened BinaryParams
  import opened BulkModel
  import opened BulkProofs
  import opened PacketOutputStream

  /** How the inner loop ends: the batch is over, another command follows, or a write has thrown. */
  datatype LoopEnd = BatchOver | NextCommand | RowThrown

  class BatchBulk {
    const cfg: Config
    const values: seq<Row>
    var bulkPacketNo: nat
    var rowIdx: nat
    var vals: Row
    var sending: bool
    var failed: bool
    var parameterHeaderType: seq<nat>
    var lastCmdData: Option<seq<byte>>

    constructor (cfg: Config, values: seq<Row>)
      ensures this.cfg == cfg && this.values == values && bulkPacketNo == 0 && !sending && !failed
    {
      this.cfg := cfg;
      this.values := values;
      bulkPacketNo, rowIdx, vals, sending, failed := 0, 0, [], false, false;
      parameterHeaderType, lastCmdData := [], None;
    }

    /** `parameterHeaderFromValue` */
    method ParameterHeaderFromValue(value: Row) returns (types: seq<nat>)
      requires cfg.paramCount <= |value|
      ensures types == HeaderTypes(value, cfg.paramCount)
    {
      types := [];
      for i := 0 to cfg.paramCount
        invariant types == HeaderTypes(value, i)
      {
        types := types + [HeaderType(value[i])];
      }
    }

    /** `checkSameHeader` */
    method CheckSameHeader(types: seq<nat>, value: Row) returns (same: bool)
      requires |types| == cfg.paramCount <= |value|
      ensures same == SameHeader(types, value)
    {
      for i := 0 to cfg.paramCount
        invariant forall j :: 0 <= j < i ==> SameType(types[j], value[j])
      {
        if !SameType(types[i], value[i]) {
          return false;
        }
      }
      return true;
    }

    /** One value of a row: the null indicator, then `BinaryEncoder.writeParam`. */
    method WriteParam(out: PacketOutputStream, p: Param) returns (thrown: bool)
      requires out.Valid() && Ok(out.View())
      modifies out, out.buf
      ensures out.buf == old(out.buf) || fresh(out.buf)
      ensures out.Made(thrown, old(out.View()), ParamOps(p))
    {
      hide Write, Writes, Goes, LengthEncoded, ValueOps;
      LE1(0);
      LE1(1);
      ghost var o := out.View();
      if p.Null? || p == GeoJson(None) {
        WritesOne(o, [1]);
        thrown := out.WriteInt(0x01, 1);
      } else {
        FirstWrite(o, [0], ValueOps(p));
        thrown := out.WriteInt(0x00, 1);
        if thrown {
          return;
        }
        FirstUnsent(o, [0], ValueOps(p));
        thrown := WriteValue(out, p);
      }
    }

    method WriteValue(out: PacketOutputStream, p: Param) returns (thrown: bool)
      requires !p.Null? && p != GeoJson(None)
      requires out.Valid() && Ok(out.View())
      modifies out, out.buf
      ensures out.buf == old(out.buf) || fresh(out.buf)
      ensures out.Made(thrown, old(out.View()), ValueOps(p))
    {
      hide Write, Writes, Goes, LengthEncoded, Digits, LE, DateBytes;
      match p {
        case Bool(b) =>
          var v := if b then 1 else 0;
          LE1(v);
          thrown := WriteNumber(out, v, 1);
        case BigInt(v) =>
          if v >= TWO_63 {
            thrown := out.WriteLengthEncodedString(Digits(v));
          } else {
            thrown := WriteNumber(out, v, 8);
          }
        case Number(whole, bits) =>
          if IsInt(p) {
            thrown := WriteNumber(out, whole.value, 4);
          } else {
            thrown := WriteNumber(out, bits, 8);
          }
        case Text(text) => thrown := out.WriteLengthEncodedString(text);
        case Date(date) => thrown := WriteBinaryDate(out, date);
        case Buffer(data) => thrown := out.WriteLengthEncodedBuffer(data);
        case SqlString(sql) => thrown := out.WriteLengthEncodedString(sql);
        case GeoJson(wkb) => thrown := out.WriteLengthEncodedBuffer([0, 0, 0, 0] + wkb.value);
        case Json(json) => thrown := out.WriteLengthEncodedString(json);
      }
    }

    method WriteNumber(out: PacketOutputStream, v: int, n: nat) returns (thrown: bool)
      requires out.Valid() && Ok(out.View())
      modifies out, out.buf
      ensures out.buf == old(out.buf) || fresh(out.buf)
      ensures out.Made(thrown, old(out.View()), [LE(v, n)])
    {
      hide Write, Writes, Goes, LE;
      WritesOne(out.View(), LE(v, n));
      thrown := out.WriteInt(v, n);
    }

    /** `writeBinaryDate`: through a copy when there is no room, else in place. */
    method WriteBinaryDate(out: PacketOutputStream, date: Moment) returns (thrown: bool)
      requires out.Valid() && Ok(out.View())
      modifies out, out.buf
      ensures out.buf == old(out.buf) || fresh(out.buf)
      ensures out.Made(thrown, old(out.View()), [DateBytes(date)])
    {
      hide Write, Writes, Goes, DateBytes;
      var len := if date.millisecond == 0 then 7 else 11;
      var tmpBuf: seq<byte> := [len, date.year % 256, date.year / 256 % 256, date.month % 256, date.day % 256,
                                date.hour % 256, date.minute % 256, date.second % 256];
      if date.millisecond != 0 {
        var micro := date.millisecond * 1000;
        tmpBuf := tmpBuf + [micro % 256, micro / 256 % 256, micro / 65536 % 256, micro / 16777216 % 256];
      }
      DateBytesAre(date, tmpBuf);
      WritesOne(out.View(), tmpBuf);
      if len + 1 > out.buf.Length - out.pos {
        assert tmpBuf[0..len + 1] == tmpBuf;
        thrown := out.WriteBuffer(tmpBuf, 0, len + 1);
      } else {
        FitsAtOnce(out.View(), tmpBuf);
        out.Copy(tmpBuf);
        thrown := false;
      }
    }

    method WriteRow(out: PacketOutputStream, row: Row) returns (thrown: bool)
      requires out.Valid() && Ok(out.View()) && cfg.paramCount <= |row|
      modifies out, out.buf
      ensures out.buf == old(out.buf) || fresh(out.buf)
      ensures out.Made(thrown, old(out.View()), RowOps(row, cfg.paramCount))
    {
      ghost var o := out.View();
      hide Write, Writes, ParamOps, Goes, RowOps;
      NothingWritten(o, row);
      for i := 0 to cfg.paramCount
        invariant out.Valid() && (out.buf == old(out.buf) || fresh(out.buf))
        invariant Goes(o, RowOps(row, i)) && out.View() == Writes(o, RowOps(row, i))
      {
        ParamStep(o, row, i, cfg.paramCount);
        thrown := WriteParam(out, row[i]);
        if thrown {
          return;
        }
      }
      return false;
    }

    /** The start of a command: its code, the statement, the flags and the types. */
    method WriteHeader(out: PacketOutputStream, types: seq<nat>, ghost left: Option<seq<byte>>)
      requires out.Valid() && Between(out.View(), left) && |types| == cfg.paramCount <= 65535
      modifies out, out.buf
      ensures out.Valid() && (out.buf == old(out.buf) || fresh(out.buf))
      ensures out.View() == StartCommand(cfg, old(out.View()), types, left)
    {
      hide Write, Goes, LE;
      ghost var o := OutputModel.StartPacket(out.View());
      StartCommandOk(cfg, out.View(), types, left);
      LE1(0xfa);
      ghost var d1: seq<seq<byte>> := [[0xfa]];
      ghost var d2 := d1 + [LE(cfg.stmtId, 4)];
      ghost var first := d2 + [LE(Flags(cfg), 2)];
      assert first == [[0xfa], LE(cfg.stmtId, 4), LE(Flags(cfg), 2)];
      assert [] + [[0xfa]] == d1;
      out.StartPacket();
      var thrown;
      HeaderStep(o, [], [0xfa], HeaderOps(cfg, types));
      NoWrites(o);
      thrown := out.WriteInt(0xfa, 1);
      HeaderStep(o, d1, LE(cfg.stmtId, 4), HeaderOps(cfg, types));
      thrown := out.WriteInt(cfg.stmtId, 4);
      HeaderStep(o, d2, LE(Flags(cfg), 2), HeaderOps(cfg, types));
      thrown := out.WriteInt(Flags(cfg), 2);
      assert out.View() == Writes(o, first);
      WriteTypes(out, types, o, first);
    }

    method WriteTypes(out: PacketOutputStream, types: seq<nat>, ghost o: Out, ghost first: seq<seq<byte>>)
      requires out.Valid() && Goes(o, first + TypeOps(types))
      requires Goes(o, first) && out.View() == Writes(o, first)
      modifies out, out.buf
      ensures out.Valid() && (out.buf == old(out.buf) || fresh(out.buf))
      ensures out.View() == Writes(o, first + TypeOps(types))
    {
      hide Write, Writes, Goes, LE;
      assert types[..0] == [] && first + TypeOps(types[..0]) == first;
      for i := 0 to |types|
        invariant out.Valid() && (out.buf == old(out.buf) || fresh(out.buf))
        invariant Goes(o, first + TypeOps(types[..i]))
        invariant out.View() == Writes(o, first + TypeOps(types[..i]))
      {
        TypeStep(types, i);
        assert first + TypeOps(types[..i + 1]) == first + TypeOps(types[..i]) + [LE(types[i], 2)];
        TypesPrefix(types, i + 1);
        HeaderStep(o, first + TypeOps(types[..i]), LE(types[i], 2), first + TypeOps(types));
        var thrown := out.WriteInt(types[i], 2);
      }
      assert types[..|types|] == types;
    }

    /** What is still to be sent: the rows from `rowIdx`, and the one in `vals` if it is not written. */
    ghost function Rest(pending: bool): seq<Row>
      requires (if pending then 1 else 0) <= rowIdx <= |values|
      reads this`rowIdx
    {
      values[if pending then rowIdx - 1 else rowIdx..]
    }

    /** Where the batch stands: what is still to be done leads to the outcome `goal`. */
    ghost predicate Leads(out: PacketOutputStream, goal: Outcome)
      reads this, out, out.buf
    {
      && out.Valid() && Between(out.View(), lastCmdData) && sending && !failed
      && RowsOk(cfg, values) && |parameterHeaderType| == cfg.paramCount
      && (if lastCmdData.None? then 1 else 0) <= rowIdx <= |values|
      && (lastCmdData.None? ==> vals == values[rowIdx - 1])
      && out.maxAllowedPacket == cfg.maxAllowed
      && RunCommand(cfg, out.View(), parameterHeaderType, lastCmdData, Rest(lastCmdData.None?), bulkPacketNo) == goal
    }

    /** The same inside a command, the row in `vals` being next. */
    ghost predicate InLoop(out: PacketOutputStream, goal: Outcome)
      reads this, out, out.buf
    {
      && out.Valid() && Ready(out.View()) && sending && !failed
      && RowsOk(cfg, values) && |parameterHeaderType| == cfg.paramCount
      && 1 <= rowIdx <= |values| && vals == values[rowIdx - 1]
      && out.maxAllowedPacket == cfg.maxAllowed
      && RunRows(cfg, out.View(), parameterHeaderType, Rest(true), bulkPacketNo) == goal
    }

    /** The outcome once the loops are left: an error, or one last flush. */
    ghost predicate Ends(out: PacketOutputStream, goal: Outcome)
      reads this, out, out.buf
    {
      && out.Valid() && out.sequenceNo >= -1
      && goal == if failed then Failed(out.View(), bulkPacketNo) else Done(OutputModel.Flush(out.View()), bulkPacketNo)
    }

    /** The outcome when a write has thrown: the batch is left as it stands. */
    ghost predicate Throws(out: PacketOutputStream, goal: Outcome)
      reads this, out
    {
      goal.Thrown? && out.wire == goal.o.wire && bulkPacketNo == goal.packets && sending && !failed
    }

    /** One turn of `main_loop`. */
    method OneCommand(out: PacketOutputStream, ghost goal: Outcome) returns (end: LoopEnd)
      requires Leads(out, goal)
      modifies this, out, out.buf
      ensures out.buf == old(out.buf) || fresh(out.buf)
      ensures end.BatchOver? ==> Ends(out, goal)
      ensures end.RowThrown? ==> Throws(out, goal)
      ensures end.NextCommand? ==> Leads(out, goal) && old(rowIdx) <= rowIdx <= |values|
      ensures end.NextCommand? && rowIdx == old(rowIdx) ==> old(lastCmdData).None? && lastCmdData.Some?
    {
      hide RunRows, StartCommand, Write, Stream, OutputModel.Flush;
      bulkPacketNo := bulkPacketNo + 1;
      ghost var left, rest := lastCmdData, Rest(lastCmdData.None?);
      WriteHeader(out, parameterHeaderType, left);
      if lastCmdData.Some? {
        LeftoverOk(out.View(), lastCmdData.value);
        var over := Leftover(out, goal);
        if over {
          return BatchOver;
        }
      }
      end := ParameterLoop(out, goal);
    }

    /** The left-over row of the last command: refused, or written, marked, and followed by the next. */
    method Leftover(out: PacketOutputStream, ghost goal: Outcome) returns (over: bool)
      requires out.Valid() && Ready(out.View()) && out.View().mark.None? && sending && !failed
      requires lastCmdData.Some? && out.pos <= MAX_BUFFER_SIZE && bulkPacketNo > 0
      requires out.buf.Length <= MAX_BUFFER_SIZE || out.pos + |lastCmdData.value| > out.buf.Length
      requires RowsOk(cfg, values) && |parameterHeaderType| == cfg.paramCount && rowIdx <= |values|
      requires out.maxAllowedPacket == cfg.maxAllowed
      requires var o, data := out.View(), lastCmdData.value;
               if Refused(cfg, o, |data|) then goal == Failed(o, bulkPacketNo - 1)
               else
                 && CanWrite(o, |data|) && Ready(OutputModel.Mark(Write(o, data)))
                 && goal == if Rest(false) == [] then
                              Done(OutputModel.Flush(OutputModel.Mark(Write(o, data))), bulkPacketNo)
                            else
                              RunRows(cfg, OutputModel.Mark(Write(o, data)), parameterHeaderType, Rest(false),
                                      bulkPacketNo)
      modifies this, out, out.buf
      ensures out.buf == old(out.buf) || fresh(out.buf)
      ensures over ==> Ends(out, goal)
      ensures !over ==> InLoop(out, goal) && lastCmdData.None? && rowIdx == old(rowIdx) + 1
    {
      hide RunRows, Write, Stream, OutputModel.Flush, Flatten;
      var data := lastCmdData.value;
      if cfg.maxAllowed.Some? && cfg.maxAllowed.value > 0 && out.cmdLength + |data| >= cfg.maxAllowed.value {
        // checkMaxAllowedLength gives an error; throwError takes the command off the count
        sending := false;
        failed := true;
        bulkPacketNo := bulkPacketNo - 1;
        return true;
      }
      assert data[0..|data|] == data;
      var thrown := out.WriteBuffer(data, 0, |data|);
      out.Mark();
      lastCmdData := None;
      if rowIdx >= |values| {
        return true;
      }
      ghost var rest := Rest(false);
      vals := values[rowIdx];
      rowIdx := rowIdx + 1;
      assert Rest(true) == rest;
      return false;
    }

    /** `parameter_loop` */
    method ParameterLoop(out: PacketOutputStream, ghost goal: Outcome) returns (end: LoopEnd)
      requires InLoop(out, goal) && lastCmdData.None?
      modifies this, out, out.buf
      ensures out.buf == old(out.buf) || fresh(out.buf)
      ensures end.BatchOver? ==> Ends(out, goal)
      ensures end.RowThrown? ==> Throws(out, goal)
      ensures end.NextCommand? ==> Leads(out, goal) && old(rowIdx) <= rowIdx
      ensures end.NextCommand? && rowIdx == old(rowIdx) ==> lastCmdData.Some?
    {
      hide RunRows, RunCommand;
      while true
        invariant InLoop(out, goal) && lastCmdData.None? && old(rowIdx) <= rowIdx
        invariant out.buf == old(out.buf) || fresh(out.buf)
        decreases |values| - rowIdx
      {
        var more;
        more, end := OneRow(out, goal);
        if !more {
          return;
        }
      }
    }

    /** One turn of `parameter_loop`: a row, then the decision what to do about it. */
    method OneRow(out: PacketOutputStream, ghost goal: Outcome) returns (more: bool, end: LoopEnd)
      requires InLoop(out, goal) && lastCmdData.None?
      modifies this, out, out.buf
      ensures out.buf == old(out.buf) || fresh(out.buf)
      ensures old(rowIdx) <= rowIdx
      ensures more ==> InLoop(out, goal) && lastCmdData.None? && old(rowIdx) < rowIdx
      ensures !more && end.BatchOver? ==> Ends(out, goal)
      ensures !more && end.RowThrown? ==> Throws(out, goal)
      ensures !more && end.NextCommand? ==> Leads(out, goal)
      ensures !more && end.NextCommand? && rowIdx == old(rowIdx) ==> lastCmdData.Some?
    {
      hide RunRows, RunCommand, Writes, StopAtMark, OutputModel.Flush, SameHeader, RowOps, HeaderTypes;
      ghost var rest := Rest(true);
      assert rest[0] == vals && rest[1..] == Rest(false);
      RowThrows(cfg, out.View(), parameterHeaderType, rest, bulkPacketNo);
      if Goes(out.View(), RowOps(vals, cfg.paramCount)) {
        RunRowsCases(cfg, out.View(), parameterHeaderType, rest, bulkPacketNo);
      }
      more, end := false, NextCommand;
      var thrown := WriteRow(out, vals);
      if thrown {
        end := RowThrown;
        return;
      }
      if out.IsMarked() && (out.HasDataAfterMark() || out.BufIsAfterMaxPacketLength()) {
        StopAtMarkOk(out.View());
        out.FlushBufferStopAtMark();
        KeepLeftover(out, goal);
        return;
      }
      if out.HasDataAfterMark() {
        KeepLeftover(out, goal);
        return;
      }
      out.Mark();
      more, end := NextRow(out, goal);
    }

    /** `out.mark()` and `out.resetMark()`: the row kept beyond the sent mark waits for the next command. */
    method KeepLeftover(out: PacketOutputStream, ghost goal: Outcome)
      requires out.Valid() && Ok(out.View()) && out.View().after && sending && !failed
      requires RowsOk(cfg, values) && |parameterHeaderType| == cfg.paramCount && 1 <= rowIdx <= |values|
      requires out.maxAllowedPacket == cfg.maxAllowed
      requires var (o, left) := OutputModel.ResetMark(OutputModel.Mark(out.View()));
               && left.Some? && Between(o, left)
               && RunCommand(cfg, o, parameterHeaderType, left, Rest(false), bulkPacketNo) == goal
      modifies this`lastCmdData, out
      ensures out.buf == old(out.buf) && lastCmdData.Some? && Leads(out, goal)
    {
      hide RunCommand;
      out.Mark();
      lastCmdData := out.ResetMark();
    }

    /** The row is in: the batch ends, or the next row joins the command, or starts one of its own. */
    method NextRow(out: PacketOutputStream, ghost goal: Outcome) returns (more: bool, end: LoopEnd)
      requires out.Valid() && Ready(out.View()) && sending && !failed && lastCmdData.None?
      requires RowsOk(cfg, values) && |parameterHeaderType| == cfg.paramCount && 1 <= rowIdx <= |values|
      requires out.maxAllowedPacket == cfg.maxAllowed
      requires Between(OutputModel.Flush(out.View()), None)
      requires var rows := Rest(false);
               goal == if rows == [] then Done(OutputModel.Flush(out.View()), bulkPacketNo)
                       else if !SameHeader(parameterHeaderType, rows[0]) then
                         RunCommand(cfg, OutputModel.Flush(out.View()), HeaderTypes(rows[0], cfg.paramCount), None,
                                    rows, bulkPacketNo)
                       else RunRows(cfg, out.View(), parameterHeaderType, rows, bulkPacketNo)
      modifies this, out, out.buf
      ensures out.buf == old(out.buf) || fresh(out.buf)
      ensures old(rowIdx) <= rowIdx
      ensures more ==> InLoop(out, goal) && lastCmdData.None? && old(rowIdx) < rowIdx
      ensures !more && end.BatchOver? ==> Ends(out, goal)
      ensures !more && end.RowThrown? ==> Throws(out, goal)
      ensures !more && end.NextCommand? ==> Leads(out, goal) && old(rowIdx) < rowIdx
    {
      hide RunRows, RunCommand, OutputModel.Flush, SameHeader, HeaderTypes;
      more, end := false, NextCommand;
      ghost var rows := Rest(false);
      if rowIdx >= |values| {
        end := BatchOver;
        return;
      }
      vals := values[rowIdx];
      rowIdx := rowIdx + 1;
      assert rows == Rest(true) && rows[0] == vals;
      var same := CheckSameHeader(parameterHeaderType, vals);
      if !same {
        out.Flush();
        parameterHeaderType := ParameterHeaderFromValue(vals);
        return;
      }
      more := true;
    }

    /** `sendComStmtBulkExecute`. If a write throws, the command is left open and nothing of it has
        been sent. */
    method SendComStmtBulkExecute(out: PacketOutputStream) returns (thrown: bool)
      requires out.Valid() && Between(out.View(), None) && RowsOk(cfg, values) && values != []
      requires out.maxAllowedPacket == cfg.maxAllowed
      modifies this, out, out.buf
      ensures var r := Run(cfg, old(out.View()), values);
              && thrown == r.Thrown? && failed == r.Failed? && sending == thrown && bulkPacketNo == r.packets
              && if thrown then out.wire == r.o.wire else out.Valid() && out.View() == r.o
    {
      hide *;
      ghost var goal := Run(cfg, out.View(), values);
      Begin(out, goal);
      while true
        invariant Leads(out, goal) && rowIdx <= |values| && (out.buf == old(out.buf) || fresh(out.buf))
        decreases |values| - rowIdx, lastCmdData.None?
      {
        var end := OneCommand(out, goal);
        if end.RowThrown? {
          HasThrown(out, goal);
          return true;
        }
        if end.BatchOver? {
          break;
        }
      }
      Finish(out, goal);
      return false;
    }

    method Begin(out: PacketOutputStream, ghost goal: Outcome)
      requires out.Valid() && Between(out.View(), None) && RowsOk(cfg, values) && values != []
      requires out.maxAllowedPacket == cfg.maxAllowed && goal == Run(cfg, out.View(), values)
      modifies this
      ensures Leads(out, goal) && rowIdx <= |values|
    {
      hide RunCommand, HeaderTypes, Between;
      ghost var o := out.View();
      FirstRow();
      assert out.View() == o && Rest(true) == values;
    }

    method FirstRow()
      requires RowsOk(cfg, values) && values != []
      modifies this
      ensures rowIdx == 1 && vals == values[0] && lastCmdData.None? && bulkPacketNo == 0 && sending && !failed
      ensures parameterHeaderType == HeaderTypes(values[0], cfg.paramCount)
    {
      rowIdx := 0;
      vals := values[rowIdx];
      rowIdx := rowIdx + 1;
      parameterHeaderType := ParameterHeaderFromValue(vals);
      lastCmdData := None;
      bulkPacketNo := 0;
      sending := true;
      failed := false;
    }

    lemma HasThrown(out: PacketOutputStream, goal: Outcome)
      requires Throws(out, goal)
      ensures goal.Thrown? && !goal.Failed? && out.wire == goal.o.wire && bulkPacketNo == goal.packets
      ensures sending && !failed
    {
    }

    method Finish(out: PacketOutputStream, ghost goal: Outcome)
      requires Ends(out, goal)
      modifies this`sending, out, out.buf
      ensures out.Valid() && !sending
      ensures out.View() == goal.o && bulkPacketNo == goal.packets && failed == goal.Failed? && !goal.Thrown?
    {
      hide OutputModel.Flush;
      if !failed {
        out.Flush();
      }
      sending := false;
    }
  }

  lemma NoWrites(o: Out)
    requires Ok(o)
    ensures Goes(o, []) && Writes(o, []) == o
  {
  }

  lemma FirstWrite(o: Out, data: seq<byte>, ws: seq<seq<byte>>)
    ensures Goes(o, [data] + ws) <==> CanWrite(o, |data|) && Goes(Write(o, data), ws)
    ensures Goes(o, [data] + ws) ==> Writes(o, [data] + ws) == Writes(Write(o, data), ws)
  {
    hide Write;
    assert ([data] + ws)[1..] == ws;
  }

  lemma FirstUnsent(o: Out, data: seq<byte>, ws: seq<seq<byte>>)
    requires CanWrite(o, |data|)
    ensures Ok(Write(o, data))
    ensures !Goes(Write(o, data), ws) ==> Write(o, data).wire == o.wire
  {
    hide Write, Goes;
    WriteOk(o, data);
    WritesOne(o, data);
    if !Goes(Write(o, data), ws) {
      FailsUnsent(o, [data], ws);
    }
  }

  lemma DateBytesAre(d: Moment, s: seq<byte>)
    requires var first: seq<byte> := [if d.millisecond == 0 then 7 else 11, d.year % 256, d.year / 256 % 256,
                                      d.month % 256, d.day % 256, d.hour % 256, d.minute % 256, d.second % 256];
             var us := d.millisecond * 1000;
             var last: seq<byte> := [us % 256, us / 256 % 256, us / 65536 % 256, us / 16777216 % 256];
             s == first + if d.millisecond == 0 then [] else last
    ensures s == DateBytes(d)
  {
    TwoBytes(d.year);
    FourBytes(d.millisecond * 1000);
  }

  lemma TwoBytes(v: int)
    ensures LE(v, 2) == [v % 256, v / 256 % 256]
  {
    assert LE(v / 256, 1) == [v / 256 % 256] + LE(v / 256 / 256, 0);
  }

  lemma FourBytes(v: int)
    ensures LE(v, 4) == [v % 256, v / 256 % 256, v / 65536 % 256, v / 16777216 % 256]
  {
    TwoBytes(v / 65536);
    assert v / 256 / 256 == v / 65536 && v / 65536 / 256 == v / 16777216;
    assert LE(v, 4) == [v % 256] + LE(v / 256, 3) && LE(v / 256, 3) == [v / 256 % 256] + LE(v / 65536, 2);
  }

  lemma NothingWritten(o: Out, row: Row)
    requires Ok(o)
    ensures Goes(o, RowOps(row, 0)) && Writes(o, RowOps(row, 0)) == o
  {
  }

  /** One more value; if it cannot be written, nor can the row, and nothing has been sent. */
  lemma ParamStep(o: Out, row: Row, i: nat, n: nat)
    requires i < n <= |row| && Goes(o, RowOps(row, i))
    ensures Goes(o, RowOps(row, i + 1)) <==> Goes(Writes(o, RowOps(row, i)), ParamOps(row[i]))
    ensures Goes(o, RowOps(row, i + 1)) ==>
              Writes(o, RowOps(row, i + 1)) == Writes(Writes(o, RowOps(row, i)), ParamOps(row[i]))
    ensures !Goes(o, RowOps(row, i + 1)) ==> !Goes(o, RowOps(row, n)) && Writes(o, RowOps(row, i)).wire == o.wire
  {
    hide Goes, Writes, ParamOps;
    WritesAppend(o, RowOps(row, i), ParamOps(row[i]));
    if !Goes(o, RowOps(row, i + 1)) {
      FailsUnsent(o, RowOps(row, i), ParamOps(row[i]));
      if Goes(o, RowOps(row, n)) {
        RowPrefix(o, row, i + 1, n);
      }
    }
  }

  lemma {:induction false} RowPrefix(o: Out, row: Row, i: nat, n: nat)
    requires i <= n <= |row| && Goes(o, RowOps(row, n))
    ensures Goes(o, RowOps(row, i))
    decreases n - i
  {
    hide Goes, ParamOps;
    if i < n {
      WritesAppend(o, RowOps(row, n - 1), ParamOps(row[n - 1]));
      RowPrefix(o, row, i, n - 1);
    }
  }

  lemma TypeStep(types: seq<nat>, i: nat)
    requires i < |types|
    ensures TypeOps(types[..i + 1]) == TypeOps(types[..i]) + [LE(types[i], 2)]
  {
    assert types[..i + 1][..i] == types[..i];
  }

  lemma {:induction false} TypesPrefix(types: seq<nat>, i: nat)
    requires i <= |types|
    ensures TypeOps(types[..i]) <= TypeOps(types)
    decreases |types| - i
  {
    if i == |types| {
      assert types[..i] == types;
    } else {
      TypeStep(types, i);
      TypesPrefix(types, i + 1);
    }
  }

  /** One more of the writes `all` that are known to be possible. */
  lemma HeaderStep(o: Out, done: seq<seq<byte>>, data: seq<byte>, all: seq<seq<byte>>)
    requires Goes(o, all) && done + [data] <= all
    ensures Goes(o, done) && Goes(o, done + [data])
    ensures CanWrite(Writes(o, done), |data|)
    ensures Writes(o, done + [data]) == Write(Writes(o, done), data)
  {
    hide Write, Goes;
    var rest := all[|done| + 1..];
    assert all == done + [data] + rest;
    WritesAppend(o, done + [data], rest);
    WritesAppend(o, done, [data]);
    WritesOne(Writes(o, done), data);
  }
}
