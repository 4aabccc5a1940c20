/** The program's commands are the reference cutter's, for exactly the safe batches. */
module BulkProofs {
  import opened Bytes
  import opened Framing
  import opened OutputModel
  import opened BinaryParams
  import opened BulkModel

  // ---------- one row behind a mark ----------

  /** The row's bytes so far are kept beyond a sent mark; nothing else goes wrong. */
  lemma {:induction false} AfterWrites(o: Out, ws: seq<seq<byte>>)
    requires Ok(o) && o.after && Settled(o) && !HitsFull(|o.body|, ws)
    ensures Goes(o, ws)
    ensures var r := Writes(o, ws);
            r == Append(o, Flatten(ws)).(cap := r.cap) && Ok(r) && Settled(r)
    decreases |ws|
  {
    hide Write, Stream;
    if ws == [] {
      assert o.body + [] == o.body;
    } else {
      AfterWrite(o, ws[0]);
      AfterWrites(Write(o, ws[0]), ws[1..]);
      assert o.body + ws[0] + Flatten(ws[1..]) == o.body + Flatten(ws);
    }
  }

  lemma AfterWrite(o: Out, data: seq<byte>)
    requires Ok(o) && o.after && Settled(o) && !(|o.body| == 0xffffff && data != [])
    ensures CanWrite(o, |data|)
    ensures var r := Write(o, data);
            r == Append(o, data).(cap := r.cap) && Ok(r) && Settled(r) && r.after
  {
    hide Write, Stream;
    WriteCases(o, data);
    WriteCapacity(o, data);
    WriteOk(o, data);
  }

  /** A buffer of exactly the maximum size is streamed although it belongs to the next command. */
  lemma {:induction false} AfterWritesBad(o: Out, ws: seq<seq<byte>>) returns (f: Frame, rest: seq<byte>)
    requires Ok(o) && o.after && Settled(o) && HitsFull(|o.body|, ws)
    ensures Goes(o, ws)
    ensures Writes(o, ws).wire == o.wire + (EncodeFrame(f) + rest)
    ensures |f.payload| == 0xffffff && f.payload <= o.body + Flatten(ws)
    decreases |ws|
  {
    hide Write, Stream, EncodeFrame;
    if |o.body| == 0xffffff && ws[0] != [] {
      f, rest := BadWrite(o, ws);
      assert f.payload <= o.body + Flatten(ws);
    } else {
      AfterWrite(o, ws[0]);
      f, rest := AfterWritesBad(Write(o, ws[0]), ws[1..]);
      assert o.body + ws[0] + Flatten(ws[1..]) == o.body + Flatten(ws);
    }
  }

  lemma BadWrite(o: Out, ws: seq<seq<byte>>) returns (f: Frame, rest: seq<byte>)
    requires Ok(o) && o.after && Settled(o) && |o.body| == 0xffffff && ws != [] && ws[0] != []
    ensures Goes(o, ws)
    ensures Writes(o, ws).wire == o.wire + (EncodeFrame(f) + rest)
    ensures f == Frame(o.body, (o.seqNo + 1) % 256)
  {
    hide Write, Stream, EncodeFrame, OutputModel.FlushBuffer;
    var data := ws[0];
    var o1 := FlushBuffer(o, false, |data|);
    f := Frame(o.body, (o.seqNo + 1) % 256);
    StreamsAtOnce(o, data);
    StreamWire(o1, data);
    UsableWrites(o, ws);
    WritesWire(Write(o, data), ws[1..]);
    var w := Writes(o, ws).wire;
    rest := w[|o1.wire|..];
    assert w == o1.wire + rest;
    assert o.wire + EncodeFrame(f) + rest == o.wire + (EncodeFrame(f) + rest);
  }

  lemma StreamsAtOnce(o: Out, data: seq<byte>)
    requires Ok(o) && o.after && Settled(o) && |o.body| == 0xffffff && data != []
    ensures CanWrite(o, |data|)
    ensures var o1 := FlushBuffer(o, false, |data|);
            && Pos(o1) <= MAX_BUFFER_SIZE && Write(o, data) == Stream(o1, data)
            && o1.wire == o.wire + EncodeFrame(Frame(o.body, (o.seqNo + 1) % 256))
  {
    hide Write, Stream, EncodeFrame;
    WriteCases(o, data);
    StreamStep(o, data, 0);
    assert data[..0] == [] && data[0..] == data && o.body + [] == o.body;
  }

  // ---------- one row behind a mark that does not fit ----------

  /** An open command with a mark, and the bytes `t` of a row after the mark. */
  predicate Marked(o: Out, t: seq<byte>) {
    && Ready(o) && o.mark.Some? && o.mark.value >= 1
    && o.body[o.mark.value..] == t
  }

  lemma StopAfterAppend(o: Out, x: seq<byte>, cap: nat)
    requires o.mark.Some? && o.mark.value <= |o.body|
    ensures var o1 := Append(o, x).(cap := cap);
            && StopAtMark(o1).wire == StopAtMark(o).wire
            && o1.body[o.mark.value..] == o.body[o.mark.value..] + x
  {
    hide EncodeFrame, MinCapacity;
    assert (o.body + x)[..o.mark.value] == o.body[..o.mark.value];
  }

  lemma StopShape(o: Out, t: seq<byte>)
    requires Marked(o, t)
    ensures var s := StopAtMark(o);
            && s.body == t && s.mark.None? && s.after && s.cmdLength == 0 && s.seqNo >= 0
            && Ok(s) && Settled(s)
  {
    StopAtMarkOk(o);
  }

  /** One write while the mark still stands. */
  lemma MarkedWrite(o: Out, t: seq<byte>, data: seq<byte>)
    requires Marked(o, t)
    ensures CanWrite(o, |data|)
    ensures var r := Write(o, data);
            && (Pos(o) + |data| <= Top(o) ==>
                  && r == Append(o, data).(cap := r.cap) && Marked(r, t + data)
                  && Top(r) == Top(o) && StopAtMark(r).wire == StopAtMark(o).wire)
            && (Pos(o) + |data| > Top(o) ==> r.wire == StopAtMark(o).wire && Sent(r, t + data))
  {
    hide Write, Stream, StopAtMark;
    WriteCases(o, data);
    WriteCapacity(o, data);
    WriteOk(o, data);
    StopShape(o, t);
    StopAfterAppend(o, data, Write(o, data).cap);
    if Pos(o) + |data| <= Top(o) {
      FittingWrite(o, data);
    }
  }

  /** The command has been sent up to the mark and the bytes `t` are kept for the next one. */
  predicate Sent(o: Out, t: seq<byte>) {
    o.body == t && o.mark.None? && o.after && o.cmdLength == 0 && o.seqNo >= 0 && Ok(o) && Settled(o)
  }

  /** The bytes of the row that can be put behind the mark. */
  function Behind(o: Out): int
    requires o.mark.Some?
  {
    Top(o) - 4 - o.mark.value
  }

  lemma {:induction false} MarkedWrites(o: Out, t: seq<byte>, ws: seq<seq<byte>>)
    requires Marked(o, t) && Pos(o) + |Flatten(ws)| > Top(o) && !Hits(|t|, ws, Behind(o))
    ensures Goes(o, ws)
    ensures var r := Writes(o, ws);
            Sent(r, t + Flatten(ws)) && r.wire == StopAtMark(o).wire
    decreases |ws|
  {
    hide Write, Stream, StopAtMark;
    var data, more := ws[0], ws[1..];
    MarkedWrite(o, t, data);
    var o1 := Write(o, data);
    assert t + data + Flatten(more) == t + Flatten(ws);
    if Pos(o) + |data| <= Top(o) {
      MarkedWrites(o1, t + data, more);
    } else {
      AfterWrites(o1, more);
    }
  }

  lemma {:induction false} MarkedWritesBad(o: Out, t: seq<byte>, ws: seq<seq<byte>>)
    returns (f: Frame, rest: seq<byte>)
    requires Marked(o, t) && Hits(|t|, ws, Behind(o))
    ensures Goes(o, ws)
    ensures Writes(o, ws).wire == StopAtMark(o).wire + (EncodeFrame(f) + rest)
    ensures |f.payload| == 0xffffff && f.payload <= t + Flatten(ws)
    decreases |ws|
  {
    hide Write, Stream, StopAtMark, EncodeFrame;
    var data, more := ws[0], ws[1..];
    MarkedWrite(o, t, data);
    var o1 := Write(o, data);
    assert t + data + Flatten(more) == t + Flatten(ws);
    if Pos(o) + |data| <= Top(o) {
      f, rest := MarkedWritesBad(o1, t + data, more);
    } else {
      f, rest := AfterWritesBad(o1, more);
    }
  }

  /** Whatever the row does, the mark stands and nothing is sent, or the wire starts with what was
      marked. */
  lemma {:induction false} MarkedKeeps(o: Out, t: seq<byte>, ws: seq<seq<byte>>)
    requires Marked(o, t)
    ensures Goes(o, ws)
    ensures var r := Writes(o, ws);
            if r.after then StopAtMark(o).wire <= r.wire
            else Marked(r, t + Flatten(ws)) && StopAtMark(r).wire == StopAtMark(o).wire && Pos(r) >= Pos(o)
    decreases |ws|
  {
    hide Write, Stream, StopAtMark;
    if ws == [] {
      assert t + [] == t;
    } else {
      MarkedWrite(o, t, ws[0]);
      var o1 := Write(o, ws[0]);
      assert t + ws[0] + Flatten(ws[1..]) == t + Flatten(ws);
      if Pos(o) + |ws[0]| <= Top(o) {
        MarkedKeeps(o1, t + ws[0], ws[1..]);
      } else {
        UsableWrites(o1, ws[1..]);
        AfterStays(o1, ws[1..]);
        WritesWire(o1, ws[1..]);
      }
    }
  }

  lemma {:induction false} AfterStays(o: Out, ws: seq<seq<byte>>)
    requires o.after && Goes(o, ws)
    ensures Writes(o, ws).after
    decreases |ws|
  {
    hide Write, Stream;
    if ws != [] {
      WriteCases(o, ws[0]);
      if o.cap == MAX_BUFFER_SIZE && !Fits(o, ws[0]) {
        StreamOk(o, ws[0]);
      }
      AfterStays(Write(o, ws[0]), ws[1..]);
    }
  }

  /** A row that hits a full frame is longer than one, so it overflows any packet. */
  lemma {:induction false} HitsFullIsLong(n: nat, ws: seq<seq<byte>>)
    requires HitsFull(n, ws)
    ensures n + |Flatten(ws)| > 0xffffff
    decreases |ws|
  {
    if !(n == 0xffffff && ws[0] != []) {
      HitsFullIsLong(n + |ws[0]|, ws[1..]);
    }
  }

  lemma {:induction false} HitsIsLong(n: nat, ws: seq<seq<byte>>, room: int)
    requires Hits(n, ws, room)
    ensures n + |Flatten(ws)| > Max(room, 0xffffff)
    decreases |ws|
  {
    if n + |ws[0]| <= room {
      HitsIsLong(n + |ws[0]|, ws[1..], room);
    } else {
      HitsFullIsLong(n + |ws[0]|, ws[1..]);
    }
  }

  // ---------- the mark and the command ----------

  /** Command `p` is open behind `base`, and all of it is marked. */
  predicate Open(o: Out, base: seq<byte>, p: seq<byte>) {
    && Ready(o) && o.mark == Some(|o.body|) && o.body != [] && InCommand(o, base, p)
  }

  lemma StopSends(o: Out, base: seq<byte>, p: seq<byte>)
    requires Open(o, base, p)
    ensures StopAtMark(o).wire == base + EncodeFrames(Split(p, 0))
  {
    hide EncodeFrame, EncodeFrames, Split, OutputModel.FlushBuffer, InCommand;
    assert o.body[..|o.body|] == o.body;
    InCommandEnd(o, base, p, 0);
    FlushWire(o, 0, |o.body[|o.body|..]|);
  }

  lemma FlushWire(o: Out, a: nat, b: nat)
    ensures FlushBuffer(o, true, a).wire == FlushBuffer(o, true, b).wire
  {
  }

  /** Command `p` is open behind `base` and has no row yet. */
  predicate Empty(o: Out, base: seq<byte>, p: seq<byte>) {
    Ready(o) && o.mark.None? && o.body != [] && InCommand(o, base, p)
  }

  lemma OpenSize(o: Out, base: seq<byte>, p: seq<byte>)
    requires Open(o, base, p)
    ensures InBuffer(|p|) == |o.body|
  {
    var k, b := o.seqNo + 1, |o.body|;
    assert |p| - 1 == k * 0xffffff + (b - 1);
  }

  lemma {:induction false} StreamNotEmpty(o: Out, data: seq<byte>)
    requires Pos(o) <= MAX_BUFFER_SIZE && (o.body != [] || data != [])
    ensures Stream(o, data).body != []
    decreases |data|, |o.body|
  {
    hide Stream, EncodeFrame;
    var fill := Min(MAX_BUFFER_SIZE - Pos(o), |data|);
    StreamStep(o, data, fill);
    if fill < |data| {
      StreamNotEmpty(FlushBuffer(Append(o, data[..fill]), false, |data| - fill), data[fill..]);
    }
  }

  lemma {:induction false} FirstWrites(o: Out, base: seq<byte>, p: seq<byte>, ws: seq<seq<byte>>)
    requires Empty(o, base, p) && !Overruns(|o.body|, ws, o.cap - 4)
    ensures Goes(o, ws)
    ensures Empty(Writes(o, ws), base, p + Flatten(ws))
    ensures Room(Writes(o, ws).cap) == if |o.body| + |Flatten(ws)| > 0xffffff then 0xffffff else Room(o.cap)
    decreases |ws|
  {
    hide Write, Stream, InCommand;
    InCommandPos(o, base, p);
    if ws == [] {
      assert p + [] == p;
    } else {
      InCommandWrite(o, base, p, ws[0]);
      var o1 := Write(o, ws[0]);
      WriteCases(o, ws[0]);
      if Pos(o) + |ws[0]| > MAX_BUFFER_SIZE {
        StreamNotEmpty(o.(cap := MAX_BUFFER_SIZE), ws[0]);
      } else {
        FittingWrite(o, ws[0]);
      }
      if o1.cap <= MAX_BUFFER_SIZE {
        NoOverrun(|o1.body|, ws[1..], o1.cap - 4);
      }
      FirstWrites(o1, base, p + ws[0], ws[1..]);
      assert p + ws[0] + Flatten(ws[1..]) == p + Flatten(ws);
    }
  }

  lemma MarkOpens(o: Out, base: seq<byte>, p: seq<byte>)
    requires Empty(o, base, p)
    ensures Open(Mark(o), base, p)
  {
  }

  /** A row for which there is room is put behind the mark. */
  lemma RowFits(o: Out, base: seq<byte>, p: seq<byte>, ws: seq<seq<byte>>)
    requires Open(o, base, p) && Pos(o) + |Flatten(ws)| <= Top(o)
    ensures Goes(o, ws)
    ensures var r := Writes(o, ws);
            && r == Append(o, Flatten(ws)).(cap := r.cap) && Top(r) == Top(o)
            && Marked(r, Flatten(ws)) && StopAtMark(r).wire == StopAtMark(o).wire
  {
    hide Write, Stream, Writes, InCommand, StopAtMark;
    FittingWrites(o, ws);
    StopAfterAppend(o, Flatten(ws), Writes(o, ws).cap);
    assert o.body[|o.body|..] == [] && [] + Flatten(ws) == Flatten(ws);
  }

  /** A row that stays within the maximum joins the open command. */
  lemma RowJoins(o: Out, base: seq<byte>, p: seq<byte>, ws: seq<seq<byte>>)
    requires Open(o, base, p) && Pos(o) + |Flatten(ws)| <= MAX_BUFFER_SIZE
    ensures Goes(o, ws)
    ensures var r := Writes(o, ws);
            && Open(Mark(r), base, p + Flatten(ws)) && Room(r.cap) == Room(o.cap)
            && r.mark == o.mark && !r.after && Pos(r) == Pos(o) + |Flatten(ws)|
  {
    hide Write, Stream, Writes, InCommand, StopAtMark;
    RowFits(o, base, p, ws);
    InCommandAppend(o, base, p, Flatten(ws));
    var r := Writes(o, ws);
    InCommandCap(Append(o, Flatten(ws)), base, p + Flatten(ws), r.cap);
    InCommandMark(r, base, p + Flatten(ws));
  }

  lemma InCommandMark(o: Out, base: seq<byte>, p: seq<byte>)
    requires InCommand(o, base, p)
    ensures InCommand(Mark(o), base, p)
  {
  }

  /** What the next command finds after a row has been cut off. */
  lemma CutOff(s: Out, t: seq<byte>)
    requires Sent(s, t)
    ensures var r := ResetMark(Mark(s));
            && r.1 == Some(t) && Between(r.0, Some(t)) && r.0.wire == s.wire && r.0.cmdLength == 0
            && 4 + |t| <= r.0.cap
  {
    assert s.body[..|s.body|] == s.body;
  }

  // ---------- the whole batch ----------

  predicate Agrees(out: Outcome, cfg: Config, base: seq<byte>, cut: Cut, n: nat)
    requires forall d :: d in cut.commands ==> RowsOk(cfg, d.rows)
  {
    && out.o.wire == base + EncodeAll(Bodies(cfg, cut.commands))
    && (if cut.complete then out.Done? else out.Failed?)
    && out.packets + 1 == n + |cut.commands|
  }

  /** Command `c` is being written into a buffer with that room. */
  predicate At(o: Out, cfg: Config, base: seq<byte>, c: Command, room: nat)
    requires RowsOk(cfg, c.rows)
  {
    && Room(o.cap) == room
    && if c.rows == [] then Empty(o, base, CommandBytes(cfg, c)) && |o.body| == |CommandBytes(cfg, c)|
       else Open(o, base, CommandBytes(cfg, c))
  }

  lemma AgreesPut(out: Outcome, cfg: Config, base: seq<byte>, c: Command, cut: Cut, n: nat)
    requires RowsOk(cfg, c.rows) && forall d :: d in cut.commands ==> RowsOk(cfg, d.rows)
    requires Agrees(out, cfg, base + EncodeFrames(Split(CommandBytes(cfg, c), 0)), cut, n + 1)
    ensures Agrees(out, cfg, base, Put(c, cut), n)
  {
    hide CommandBytes, Split, EncodeFrames;
    var p := CommandBytes(cfg, c);
    assert ([c] + cut.commands)[1..] == cut.commands;
    EncodeAllCons(p, Bodies(cfg, cut.commands));
    assert base + EncodeFrames(Split(p, 0)) + EncodeAll(Bodies(cfg, cut.commands))
        == base + (EncodeFrames(Split(p, 0)) + EncodeAll(Bodies(cfg, cut.commands)));
  }

  lemma OneCommand(cfg: Config, base: seq<byte>, c: Command)
    requires RowsOk(cfg, c.rows)
    ensures base + EncodeAll(Bodies(cfg, [c])) == base + EncodeFrames(Split(CommandBytes(cfg, c), 0))
  {
    hide CommandBytes, Split, EncodeFrames;
    EncodeAllCons(CommandBytes(cfg, c), []);
    assert [c][1..] == [];
    assert Bodies(cfg, [c]) == [CommandBytes(cfg, c)] + [];
  }

  lemma AddRow(cfg: Config, c: Command, row: Row)
    requires RowsOk(cfg, c.rows) && cfg.paramCount <= |row|
    ensures CommandBytes(cfg, c.(rows := c.rows + [row])) == CommandBytes(cfg, c) + RowBytes(row, cfg.paramCount)
    ensures RowsOk(cfg, c.rows + [row])
  {
    hide RowBytes, HeaderBytes;
    assert (c.rows + [row])[..|c.rows|] == c.rows;
  }

  lemma NoRows(cfg: Config, types: seq<nat>)
    requires cfg.paramCount <= 65535
    ensures CommandBytes(cfg, Command(types, [])) == HeaderBytes(cfg, types)
  {
  }

  /** A command starts with its header in the buffer. */
  lemma Starts(cfg: Config, o: Out, types: seq<nat>, left: Option<seq<byte>>)
    requires Between(o, left) && |types| == cfg.paramCount <= 65535
    ensures var r := StartCommand(cfg, o, types, left);
            && r.seqNo == -1 && r.cmdLength == o.cmdLength && r.wire == o.wire && r.mark.None? && Ready(r)
            && r.body == CommandBytes(cfg, Command(types, [])) && InCommand(r, o.wire, r.body)
            && At(r, cfg, o.wire, Command(types, []), Room(o.cap))
  {
    hide HeaderBytes;
    StartCommandOk(cfg, o, types, left);
    HeaderLength(cfg, types);
    NoRows(cfg, types);
    var r, h := StartCommand(cfg, o, types, left), HeaderBytes(cfg, types);
    assert o.wire + Full(h, 0) == o.wire;
    assert h[0..] == h;
  }

  /** The left-over row is the first of the new command. */
  lemma LeftStarts(cfg: Config, o: Out, types: seq<nat>, row: Row)
    requires |types| == cfg.paramCount <= 65535 && cfg.paramCount <= |row|
    requires Between(o, Some(RowBytes(row, cfg.paramCount)))
    ensures var data := RowBytes(row, cfg.paramCount);
            var o1 := StartCommand(cfg, o, types, Some(data));
            && CanWrite(o1, |data|)
            && At(Mark(Write(o1, data)), cfg, o.wire, Command(types, [row]), 0xffffff)
  {
    hide Write, Stream, InCommand, RowBytes, HeaderBytes, StartCommand, CommandBytes;
    var data := RowBytes(row, cfg.paramCount);
    var o1 := StartCommand(cfg, o, types, Some(data));
    var p := CommandBytes(cfg, Command(types, []));
    Starts(cfg, o, types, Some(data));
    InCommandWrite(o1, o.wire, p, data);
    LeftoverOk(o1, data);
    WriteCases(o1, data);
    if Pos(o1) + |data| > MAX_BUFFER_SIZE {
      StreamNotEmpty(o1.(cap := MAX_BUFFER_SIZE), data);
    }
    InCommandMark(Write(o1, data), o.wire, p + data);
    AddRow(cfg, Command(types, []), row);
    assert [] + [row] == [row];
  }

  /** `RunRows` in terms of how the first row went. */
  lemma RunRowsCases(cfg: Config, o: Out, types: seq<nat>, rows: seq<Row>, n: nat)
    requires Ready(o) && |types| == cfg.paramCount && RowsOk(cfg, rows) && rows != []
    requires Goes(o, RowOps(rows[0], cfg.paramCount))
    ensures var r, out := Writes(o, RowOps(rows[0], cfg.paramCount)), RunRows(cfg, o, types, rows, n);
            && (r.after || (r.mark.Some? && Pos(r) > MaxPacketLength(cfg)) ==>
                  var s := if r.after then r else StopAtMark(r);
                  var (o2, left) := ResetMark(Mark(s));
                  left.Some? && Between(o2, left) && out == RunCommand(cfg, o2, types, left, rows[1..], n))
            && (!r.after && (r.mark.None? || Pos(r) <= MaxPacketLength(cfg)) ==>
                  && Between(Flush(Mark(r)), None) && Ready(Mark(r))
                  && out == if rows[1..] == [] then Done(Flush(Mark(r)), n)
                            else if !SameHeader(types, rows[1]) then
                              RunCommand(cfg, Flush(Mark(r)), HeaderTypes(rows[1], cfg.paramCount), None, rows[1..], n)
                            else RunRows(cfg, Mark(r), types, rows[1..], n))
  {
    hide Write, Writes, Stream, EncodeFrame, RunCommand, SameHeader, HeaderTypes, RowOps;
    var r := Writes(o, RowOps(rows[0], cfg.paramCount));
    if !r.after && r.mark.Some? {
      StopAtMarkOk(r);
    }
  }

  /** A row that cannot be written ends the batch. */
  lemma RowThrows(cfg: Config, o: Out, types: seq<nat>, rows: seq<Row>, n: nat)
    requires Ready(o) && |types| == cfg.paramCount && RowsOk(cfg, rows) && rows != []
    ensures !Goes(o, RowOps(rows[0], cfg.paramCount)) ==> RunRows(cfg, o, types, rows, n) == Thrown(o, n)
  {
  }

  /** The row does not fit and is cut off: the command is sent and the next one starts with it. */
  lemma CutRow(cfg: Config, o: Out, base: seq<byte>, c: Command, rows: seq<Row>, n: nat, room: nat) returns (o2: Out)
    requires RowsOk(cfg, c.rows) && RowsOk(cfg, rows) && |c.types| == cfg.paramCount && rows != []
    requires c.rows != [] && At(o, cfg, base, c, room) && Overflows(cfg, c, rows[0])
    requires !Hits(0, RowOps(rows[0], cfg.paramCount), room - InBuffer(|CommandBytes(cfg, c)|))
    ensures var left := Some(RowBytes(rows[0], cfg.paramCount));
            && Between(o2, left) && o2.cmdLength == 0 && 4 + |left.value| <= o2.cap
            && o2.wire == base + EncodeFrames(Split(CommandBytes(cfg, c), 0))
            && RunRows(cfg, o, c.types, rows, n) == RunCommand(cfg, o2, c.types, left, rows[1..], n)
  {
    hide Writes, Write, Stream, RunCommand, RunRows, StopAtMark, CommandBytes, RowOps, Hits, Split, EncodeFrames,
         InCommand;
    var ws, p := RowOps(rows[0], cfg.paramCount), CommandBytes(cfg, c);
    OpenSize(o, base, p);
    StopSends(o, base, p);
    assert o.body[|o.body|..] == [] && [] + Flatten(ws) == Flatten(ws);
    UsableWrites(o, ws);
    RunRowsCases(cfg, o, c.types, rows, n);
    var r, s := Writes(o, ws), Writes(o, ws);
    if Pos(o) + |Flatten(ws)| > Top(o) {
      MarkedWrites(o, [], ws);
    } else {
      RowFits(o, base, p, ws);
      StopShape(r, Flatten(ws));
      s := StopAtMark(r);
    }
    CutOff(s, Flatten(ws));
    o2 := ResetMark(Mark(s)).0;
  }

  /** The row fits, or is the first of its command: it joins. */
  lemma JoinRow(cfg: Config, o: Out, base: seq<byte>, c: Command, rows: seq<Row>, n: nat, room: nat) returns (o2: Out)
    requires RowsOk(cfg, c.rows) && RowsOk(cfg, rows) && |c.types| == cfg.paramCount && rows != []
    requires At(o, cfg, base, c, room)
    requires if c.rows == [] then !Overruns(|CommandBytes(cfg, c)|, RowOps(rows[0], cfg.paramCount), room)
             else !Overflows(cfg, c, rows[0])
    ensures RowsOk(cfg, c.rows + [rows[0]])
    ensures var c1 := c.(rows := c.rows + [rows[0]]);
            At(o2, cfg, base, c1, RoomAfter(cfg, c1, room))
    ensures Between(Flush(o2), None)
    ensures RunRows(cfg, o, c.types, rows, n)
            == if rows[1..] == [] then Done(Flush(o2), n)
               else if !SameHeader(c.types, rows[1]) then
                 RunCommand(cfg, Flush(o2), HeaderTypes(rows[1], cfg.paramCount), None, rows[1..], n)
               else RunRows(cfg, o2, c.types, rows[1..], n)
  {
    hide Writes, Write, Stream, RunCommand, RunRows, StopAtMark, CommandBytes, RowOps, Split, EncodeFrames,
         InCommand, SameHeader, HeaderTypes, Flush, Overruns;
    var ws, p := RowOps(rows[0], cfg.paramCount), CommandBytes(cfg, c);
    AddRow(cfg, c, rows[0]);
    if c.rows == [] {
      OverrunsRoom(|o.body|, ws, o.cap);
      FirstWrites(o, base, p, ws);
      MarkOpens(Writes(o, ws), base, p + Flatten(ws));
    } else {
      OpenSize(o, base, p);
      RowJoins(o, base, p, ws);
    }
    RunRowsCases(cfg, o, c.types, rows, n);
    o2 := Mark(Writes(o, ws));
  }

  lemma OverrunsRoom(n: nat, ws: seq<seq<byte>>, cap: nat)
    ensures Overruns(n, ws, Room(cap)) <==> Overruns(n, ws, cap - 4)
  {
    if cap <= MAX_BUFFER_SIZE {
      NoOverrun(n, ws, Room(cap));
      NoOverrun(n, ws, cap - 4);
    }
  }

  lemma FlushSends(o: Out, base: seq<byte>, p: seq<byte>)
    requires Open(o, base, p)
    ensures Flush(o).wire == base + EncodeFrames(Split(p, 0)) && Flush(o).cap == SMALL_BUFFER_SIZE
  {
    hide EncodeFrame, EncodeFrames, Split, InCommand;
    InCommandEnd(o, base, p, 0);
  }

  lemma {:induction false} RowsAgree(cfg: Config, o: Out, base: seq<byte>, c: Command, rows: seq<Row>, n: nat, room: nat)
    requires RowsOk(cfg, c.rows) && RowsOk(cfg, rows) && |c.types| == cfg.paramCount && rows != []
    requires At(o, cfg, base, c, room) && Safe(cfg, c, rows, room)
    ensures Agrees(RunRows(cfg, o, c.types, rows, n), cfg, base, CutRows(cfg, c, rows), n)
    decreases |rows|, 0
  {
    hide RunRows, RunCommand, CommandBytes, RowBytes, RowOps, Hits, Overruns, Split, EncodeFrames, InCommand,
         SameHeader, HeaderTypes, StartCommand, Write, Flush, Overflows, RoomAfter;
    var more := rows[1..];
    if c.rows != [] && Overflows(cfg, c, rows[0]) {
      var o2 := CutRow(cfg, o, base, c, rows, n, room);
      LeftAgrees(cfg, o2, c.types, rows[0], more, n);
      if Limited(cfg) && |RowBytes(rows[0], cfg.paramCount)| >= cfg.maxAllowed.value {
        OneCommand(cfg, base, c);
      } else {
        AgreesPut(RunRows(cfg, o, c.types, rows, n), cfg, base, c, CutRows(cfg, Command(c.types, [rows[0]]), more), n);
      }
    } else {
      var c1 := c.(rows := c.rows + [rows[0]]);
      var o2 := JoinRow(cfg, o, base, c, rows, n, room);
      FlushSends(o2, base, CommandBytes(cfg, c1));
      if more == [] {
        OneCommand(cfg, base, c1);
      } else if !SameHeader(c.types, rows[1]) {
        var types := HeaderTypes(rows[1], cfg.paramCount);
        HeaderAgrees(cfg, Flush(o2), types, more, n);
        AgreesPut(RunRows(cfg, o, c.types, rows, n), cfg, base, c1, CutRows(cfg, Command(types, []), more), n);
      } else {
        RowsAgree(cfg, o2, base, c1, more, n, RoomAfter(cfg, c1, room));
      }
    }
  }

  /** The rest of the batch after a row has been cut off. */
  lemma {:induction false} LeftAgrees(cfg: Config, o: Out, types: seq<nat>, row: Row, rows: seq<Row>, n: nat)
    requires RowsOk(cfg, [row]) && RowsOk(cfg, rows) && |types| == cfg.paramCount
    requires Between(o, Some(RowBytes(row, cfg.paramCount))) && o.cmdLength == 0
    ensures var data, c := RowBytes(row, cfg.paramCount), Command(types, [row]);
            var out := RunCommand(cfg, o, types, Some(data), rows, n);
            if Limited(cfg) && |data| >= cfg.maxAllowed.value
            then out.Failed? && out.o.wire == o.wire && out.packets == n
            else Safe(cfg, c, rows, 0xffffff) ==> Agrees(out, cfg, o.wire, CutRows(cfg, c, rows), n + 1)
    decreases |rows|, 1
  {
    hide RunRows, CommandBytes, RowBytes, RowOps, Hits, Overruns, Split, EncodeFrames, InCommand, SameHeader,
         HeaderTypes, StartCommand, Write, Flush, Overflows;
    var data, c := RowBytes(row, cfg.paramCount), Command(types, [row]);
    Starts(cfg, o, types, Some(data));
    LeftStarts(cfg, o, types, row);
    var o2 := Mark(Write(StartCommand(cfg, o, types, Some(data)), data));
    if rows == [] {
      FlushSends(o2, o.wire, CommandBytes(cfg, c));
      OneCommand(cfg, o.wire, c);
    } else if Safe(cfg, c, rows, 0xffffff) {
      RowsAgree(cfg, o2, o.wire, c, rows, n + 1, 0xffffff);
    }
  }

  /** The rest of the batch under a new header. */
  lemma {:induction false} HeaderAgrees(cfg: Config, o: Out, types: seq<nat>, rows: seq<Row>, n: nat)
    requires RowsOk(cfg, rows) && |types| == cfg.paramCount && rows != []
    requires Between(o, None) && Safe(cfg, Command(types, []), rows, Room(o.cap))
    ensures Agrees(RunCommand(cfg, o, types, None, rows, n), cfg, o.wire, CutRows(cfg, Command(types, []), rows), n + 1)
    decreases |rows|, 1
  {
    hide RunRows, CommandBytes, RowOps, Hits, Split, EncodeFrames, EncodeFrame, InCommand, SameHeader, HeaderTypes,
         StartCommand, Safe, CutRows, Agrees, At;
    Starts(cfg, o, types, None);
    RowsAgree(cfg, StartCommand(cfg, o, types, None), o.wire, Command(types, []), rows, n + 1, Room(o.cap));
  }

  // ---------- unsafe batches ----------

  lemma EndsGrow(o: Out)
    requires Ok(o)
    ensures o.wire <= Flush(Mark(o)).wire && Flush(Mark(o)).cap == SMALL_BUFFER_SIZE
    ensures o.mark.Some? ==> o.wire <= StopAtMark(o).wire
    ensures o.mark.Some? ==> Ok(StopAtMark(o)) && StopAtMark(o).mark.None?
  {
    hide EncodeFrame;
  }

  /** The wire only grows, and no row fails to be written once a mark is set or the buffer is an
      ordinary one. */
  lemma {:induction false} RunRowsWire(cfg: Config, o: Out, types: seq<nat>, rows: seq<Row>, n: nat)
    requires Ready(o) && |types| == cfg.paramCount && RowsOk(cfg, rows) && rows != []
    ensures var ws, out := RowOps(rows[0], cfg.paramCount), RunRows(cfg, o, types, rows, n);
            && o.wire <= out.o.wire
            && (if Goes(o, ws) then Writes(o, ws).wire <= out.o.wire && !out.Thrown? else out == Thrown(o, n))
    decreases |rows|, 0
  {
    hide Writes, Write, Stream, RunCommand, RunRows, Goes, RowOps, SameHeader, HeaderTypes, EncodeFrame, Flush,
         StopAtMark;
    var ws := RowOps(rows[0], cfg.paramCount);
    RowThrows(cfg, o, types, rows, n);
    if Goes(o, ws) {
      var r := Writes(o, ws);
      EndsGrow(r);
      WritesWire(o, ws);
      RunRowsCases(cfg, o, types, rows, n);
      if r.after || (r.mark.Some? && Pos(r) > MaxPacketLength(cfg)) {
        var s := if r.after then r else StopAtMark(r);
        var (o2, left) := ResetMark(Mark(s));
        RunCommandWire(cfg, o2, types, left, rows[1..], n);
      } else if rows[1..] != [] {
        if !SameHeader(types, rows[1]) {
          RunCommandWire(cfg, Flush(Mark(r)), HeaderTypes(rows[1], cfg.paramCount), None, rows[1..], n);
        } else {
          UsableWrites(Mark(r), RowOps(rows[1], cfg.paramCount));
          RunRowsWire(cfg, Mark(r), types, rows[1..], n);
        }
      }
    }
  }

  lemma {:induction false} RunCommandWire(cfg: Config, o: Out, types: seq<nat>, left: Option<seq<byte>>,
                                          rows: seq<Row>, n: nat)
    requires Between(o, left) && |types| == cfg.paramCount && RowsOk(cfg, rows)
    requires left.None? ==> rows != [] && o.cap <= MAX_BUFFER_SIZE
    ensures var out := RunCommand(cfg, o, types, left, rows, n);
            o.wire <= out.o.wire && !out.Thrown?
    decreases |rows|, 1
  {
    hide Writes, Write, Stream, RunRows, RowOps, StartCommand, EncodeFrame, CommandBytes, InCommand;
    Starts(cfg, o, types, left);
    var o1 := StartCommand(cfg, o, types, left);
    if left.None? {
      UsableWrites(o1, RowOps(rows[0], cfg.paramCount));
      RunRowsWire(cfg, o1, types, rows, n + 1);
    } else if !Refused(cfg, o1, |left.value|) {
      LeftoverOk(o1, left.value);
      WriteWire(o1, left.value);
      if rows != [] {
        var o2 := Mark(Write(o1, left.value));
        UsableWrites(o2, RowOps(rows[0], cfg.paramCount));
        RunRowsWire(cfg, o2, types, rows, n + 1);
      }
    }
  }

  /** The wire holds some whole commands, then a full frame of the inside of a row. */
  predicate Broken(wire: seq<byte>, base: seq<byte>, qs: seq<seq<byte>>, f: Frame, rest: seq<byte>) {
    && wire == base + (EncodeAll(qs) + (EncodeFrame(f) + rest))
    && |f.payload| == 0xffffff && f.payload[0] <= 1
  }

  lemma BrokenPut(wire: seq<byte>, base: seq<byte>, q: seq<byte>, qs: seq<seq<byte>>, f: Frame, rest: seq<byte>)
    requires Broken(wire, base + EncodeFrames(Split(q, 0)), qs, f, rest)
    ensures Broken(wire, base, [q] + qs, f, rest)
  {
    hide EncodeFrame, EncodeFrames, Split;
    EncodeAllCons(q, qs);
    var bad := EncodeFrame(f) + rest;
    assert base + EncodeFrames(Split(q, 0)) + (EncodeAll(qs) + bad)
        == base + (EncodeFrames(Split(q, 0)) + EncodeAll(qs) + bad);
  }

  /** The first cut-off row that hits a full frame breaks the wire. */
  lemma BreaksHere(cfg: Config, o: Out, base: seq<byte>, c: Command, rows: seq<Row>, n: nat)
    returns (f: Frame, rest: seq<byte>)
    requires RowsOk(cfg, c.rows) && RowsOk(cfg, rows) && |c.types| == cfg.paramCount && rows != []
    requires Open(o, base, CommandBytes(cfg, c)) && Hits(0, RowOps(rows[0], cfg.paramCount), Behind(o))
    ensures Broken(RunRows(cfg, o, c.types, rows, n).o.wire, base, [CommandBytes(cfg, c)], f, rest)
  {
    hide Writes, RunRows, RowOps, EncodeFrame, EncodeFrames, Split, CommandBytes, InCommand, StopAtMark, Hits, Goes;
    var ws, q := RowOps(rows[0], cfg.paramCount), CommandBytes(cfg, c);
    assert o.body[|o.body|..] == [] && [] + Flatten(ws) == Flatten(ws);
    var more;
    f, more := MarkedWritesBad(o, [], ws);
    RunRowsWire(cfg, o, c.types, rows, n);
    HitsIsLong(0, ws, Behind(o));
    if cfg.paramCount > 0 {
      RowFirstByte(rows[0], cfg.paramCount);
    } else {
      NoParams(rows[0]);
    }
    var w, w1 := RunRows(cfg, o, c.types, rows, n).o.wire, Writes(o, ws).wire;
    rest := more + w[|w1|..];
    StopSends(o, base, q);
    EncodeAllCons(q, []);
    assert [q] + [] == [q] && EncodeAll([]) == [];
    assert w == w1 + w[|w1|..];
    Regroup(base, EncodeFrames(Split(q, 0)), EncodeFrame(f), more, w[|w1|..]);
    assert f.payload[0] == Flatten(ws)[0];
  }

  lemma NoParams(row: Row)
    ensures Flatten(RowOps(row, 0)) == []
  {
  }

  lemma Regroup(a: seq<byte>, b: seq<byte>, c: seq<byte>, d: seq<byte>, e: seq<byte>)
    ensures a + b + (c + d) + e == a + (b + [] + (c + (d + e)))
  {
  }

  /** The first row of the open command overruns the buffer. */
  predicate OverrunsFirst(cfg: Config, c: Command, rows: seq<Row>, room: nat)
    requires RowsOk(cfg, c.rows) && RowsOk(cfg, rows) && rows != []
  {
    c.rows == [] && Overruns(|CommandBytes(cfg, c)|, RowOps(rows[0], cfg.paramCount), room)
  }

  lemma {:induction false} RowsBreak(cfg: Config, o: Out, base: seq<byte>, c: Command, rows: seq<Row>, n: nat, room: nat)
    returns (qs: seq<seq<byte>>, f: Frame, rest: seq<byte>)
    requires RowsOk(cfg, c.rows) && RowsOk(cfg, rows) && |c.types| == cfg.paramCount && rows != []
    requires At(o, cfg, base, c, room) && !Safe(cfg, c, rows, room) && !OverrunsFirst(cfg, c, rows, room)
    ensures Broken(RunRows(cfg, o, c.types, rows, n).o.wire, base, qs, f, rest)
    decreases |rows|, 0
  {
    hide RunRows, RunCommand, CommandBytes, RowBytes, RowOps, Hits, Overruns, Split, EncodeFrames, EncodeFrame,
         InCommand, SameHeader, HeaderTypes, StartCommand, Write, Flush, Overflows, Broken, RoomAfter;
    var more, w := rows[1..], RunRows(cfg, o, c.types, rows, n).o.wire;
    if c.rows != [] && Overflows(cfg, c, rows[0]) {
      if Hits(0, RowOps(rows[0], cfg.paramCount), room - InBuffer(|CommandBytes(cfg, c)|)) {
        OpenSize(o, base, CommandBytes(cfg, c));
        f, rest := BreaksHere(cfg, o, base, c, rows, n);
        qs := [CommandBytes(cfg, c)];
      } else {
        var o2 := CutRow(cfg, o, base, c, rows, n, room);
        qs, f, rest := LeftBreaks(cfg, o2, c.types, rows[0], more, n);
        BrokenPut(w, base, CommandBytes(cfg, c), qs, f, rest);
        qs := [CommandBytes(cfg, c)] + qs;
      }
    } else {
      var c1 := c.(rows := c.rows + [rows[0]]);
      var o2 := JoinRow(cfg, o, base, c, rows, n, room);
      FlushSends(o2, base, CommandBytes(cfg, c1));
      if more == [] || SameHeader(c.types, rows[1]) {
        qs, f, rest := RowsBreak(cfg, o2, base, c1, more, n, RoomAfter(cfg, c1, room));
      } else {
        qs, f, rest := HeaderBreaks(cfg, Flush(o2), HeaderTypes(rows[1], cfg.paramCount), more, n);
        BrokenPut(w, base, CommandBytes(cfg, c1), qs, f, rest);
        qs := [CommandBytes(cfg, c1)] + qs;
      }
    }
  }

  lemma {:induction false} LeftBreaks(cfg: Config, o: Out, types: seq<nat>, row: Row, rows: seq<Row>, n: nat)
    returns (qs: seq<seq<byte>>, f: Frame, rest: seq<byte>)
    requires RowsOk(cfg, [row]) && RowsOk(cfg, rows) && |types| == cfg.paramCount
    requires Between(o, Some(RowBytes(row, cfg.paramCount))) && o.cmdLength == 0
    requires !(Limited(cfg) && |RowBytes(row, cfg.paramCount)| >= cfg.maxAllowed.value)
    requires !Safe(cfg, Command(types, [row]), rows, 0xffffff)
    ensures Broken(RunCommand(cfg, o, types, Some(RowBytes(row, cfg.paramCount)), rows, n).o.wire, o.wire, qs, f, rest)
    decreases |rows|, 1
  {
    hide RunRows, CommandBytes, RowBytes, RowOps, Hits, Overruns, Split, EncodeFrames, EncodeFrame, InCommand,
         SameHeader, HeaderTypes, StartCommand, Write, Flush, Overflows, Broken, At;
    var data, c := RowBytes(row, cfg.paramCount), Command(types, [row]);
    Starts(cfg, o, types, Some(data));
    LeftStarts(cfg, o, types, row);
    var o2 := Mark(Write(StartCommand(cfg, o, types, Some(data)), data));
    qs, f, rest := RowsBreak(cfg, o2, o.wire, c, rows, n + 1, 0xffffff);
  }

  lemma {:induction false} HeaderBreaks(cfg: Config, o: Out, types: seq<nat>, rows: seq<Row>, n: nat)
    returns (qs: seq<seq<byte>>, f: Frame, rest: seq<byte>)
    requires RowsOk(cfg, rows) && |types| == cfg.paramCount && rows != []
    requires Between(o, None) && !Safe(cfg, Command(types, []), rows, Room(o.cap))
    requires o.cap <= MAX_BUFFER_SIZE || !OverrunsFirst(cfg, Command(types, []), rows, Room(o.cap))
    ensures Broken(RunCommand(cfg, o, types, None, rows, n).o.wire, o.wire, qs, f, rest)
    decreases |rows|, 1
  {
    hide RunRows, CommandBytes, RowOps, Hits, Overruns, Split, EncodeFrames, EncodeFrame, InCommand, SameHeader,
         HeaderTypes, StartCommand, Safe, Broken, At;
    var c := Command(types, []);
    if o.cap <= MAX_BUFFER_SIZE {
      NoOverrun(|CommandBytes(cfg, c)|, RowOps(rows[0], cfg.paramCount), Room(o.cap));
    }
    Starts(cfg, o, types, None);
    qs, f, rest := RowsBreak(cfg, StartCommand(cfg, o, types, None), o.wire, c, rows, n + 1, Room(o.cap));
  }

  /** A first row that overruns the buffer of an earlier command fails, or leaves with the header as
      one frame of more bytes than a frame can announce. */
  lemma OverrunBreaks(cfg: Config, o: Out, types: seq<nat>, rows: seq<Row>, n: nat)
    requires RowsOk(cfg, rows) && |types| == cfg.paramCount && rows != [] && Between(o, None)
    requires OverrunsFirst(cfg, Command(types, []), rows, Room(o.cap))
    ensures var out, p := RunCommand(cfg, o, types, None, rows, n), CommandBytes(cfg, Command(types, [rows[0]]));
            && |p| > 0xffffff
            && (out.Thrown? <==> 4 + |p| > o.cap)
            && if out.Thrown? then out.o.wire == o.wire else o.wire + EncodeFrame(Frame(p, 0)) <= out.o.wire
  {
    hide RunRows, CommandBytes, RowOps, Overruns, EncodeFrames, EncodeFrame, InCommand, SameHeader, HeaderTypes,
         StartCommand, Write, Writes;
    var c, ws := Command(types, []), RowOps(rows[0], cfg.paramCount);
    Starts(cfg, o, types, None);
    var o1 := StartCommand(cfg, o, types, None);
    AddRow(cfg, c, rows[0]);
    assert c.rows + [rows[0]] == [rows[0]];
    OverrunsRoom(|o1.body|, ws, o1.cap);
    OverrunWrites(o1, ws);
    RunRowsWire(cfg, o1, types, rows, n + 1);
    if Goes(o1, ws) {
      OverrunSent(cfg, o1, types, rows, n + 1);
    }
  }

  lemma OverrunSent(cfg: Config, o: Out, types: seq<nat>, rows: seq<Row>, n: nat)
    requires Ready(o) && o.mark.None? && o.seqNo == -1 && o.body != []
    requires |types| == cfg.paramCount && RowsOk(cfg, rows) && rows != []
    requires Goes(o, RowOps(rows[0], cfg.paramCount))
    requires Writes(o, RowOps(rows[0], cfg.paramCount)) == Append(o, RowBytes(rows[0], cfg.paramCount))
    requires Pos(o) + |RowBytes(rows[0], cfg.paramCount)| > MAX_BUFFER_SIZE
    ensures var p := o.body + RowBytes(rows[0], cfg.paramCount);
            o.wire + EncodeFrame(Frame(p, 0)) <= RunRows(cfg, o, types, rows, n).o.wire
  {
    hide RunRows, RunCommand, RowOps, EncodeFrame, SameHeader, HeaderTypes, Write, Writes, Goes;
    var m := Mark(Writes(o, RowOps(rows[0], cfg.paramCount)));
    RunRowsCases(cfg, o, types, rows, n);
    OneFrame(m);
    if rows[1..] != [] {
      if SameHeader(types, rows[1]) {
        OverrunStops(cfg, m, types, rows[1..], n);
      } else {
        RunCommandWire(cfg, Flush(m), HeaderTypes(rows[1], cfg.paramCount), None, rows[1..], n);
      }
    }
  }

  /** The row after it is cut off, at the latest when it has been written. */
  lemma OverrunStops(cfg: Config, m: Out, types: seq<nat>, rows: seq<Row>, n: nat)
    requires Ready(m) && m.mark == Some(|m.body|) && m.seqNo == -1 && Pos(m) > MAX_BUFFER_SIZE
    requires |types| == cfg.paramCount && RowsOk(cfg, rows) && rows != []
    ensures m.wire + EncodeFrame(Frame(m.body, 0)) <= RunRows(cfg, m, types, rows, n).o.wire
  {
    hide RunRows, RunCommand, RowOps, EncodeFrame, SameHeader, HeaderTypes, Write, Writes, Goes, StopAtMark;
    var ws := RowOps(rows[0], cfg.paramCount);
    assert m.body[|m.body|..] == [];
    MarkedKeeps(m, [], ws);
    var r := Writes(m, ws);
    StopsInOneFrame(m);
    RunRowsWire(cfg, m, types, rows, n);
    if !r.after {
      RunRowsCases(cfg, m, types, rows, n);
      var (o2, left) := ResetMark(Mark(StopAtMark(r)));
      RunCommandWire(cfg, o2, types, left, rows[1..], n);
    }
  }

  lemma StopsInOneFrame(m: Out)
    requires m.mark == Some(|m.body|) && m.seqNo == -1 && Pos(m) > MAX_BUFFER_SIZE
    ensures StopAtMark(m).wire == m.wire + EncodeFrame(Frame(m.body, 0))
  {
    assert m.body[..|m.body|] == m.body;
  }

  // ---------- results ----------

  function Rows(cs: seq<Command>): seq<Row> {
    if cs == [] then [] else cs[0].rows + Rows(cs[1..])
  }

  /** The commands of `cut` hold the rows `all`, or all those before a row that is refused. */
  predicate KeepsRows(cfg: Config, cut: Cut, all: seq<Row>)
    requires RowsOk(cfg, all)
  {
    var kept := Rows(cut.commands);
    && cut.commands != []
    && (forall d :: d in cut.commands ==> d.rows != [])
    && kept <= all
    && (cut.complete ==> kept == all)
    && (!cut.complete ==>
          && |kept| < |all| && Limited(cfg)
          && |RowBytes(all[|kept|], cfg.paramCount)| >= cfg.maxAllowed.value)
  }

  /** The reference cutter loses, repeats and reorders nothing, and every command has a row. */
  lemma {:induction false} CutKeepsRows(cfg: Config, c: Command, rows: seq<Row>)
    requires RowsOk(cfg, c.rows) && RowsOk(cfg, rows) && |c.types| == cfg.paramCount
    requires c.rows + rows != []
    ensures KeepsRows(cfg, CutRows(cfg, c, rows), c.rows + rows)
    decreases |rows|
  {
    hide Overflows, SameHeader, RowBytes, HeaderTypes, KeepsRows;
    if rows == [] {
      KeepsOne(cfg, c, [], true);
    } else if c.rows != [] && Overflows(cfg, c, rows[0]) {
      if Limited(cfg) && |RowBytes(rows[0], cfg.paramCount)| >= cfg.maxAllowed.value {
        KeepsOne(cfg, c, rows, false);
      } else {
        CutKeepsRows(cfg, Command(c.types, [rows[0]]), rows[1..]);
        assert [rows[0]] + rows[1..] == rows;
        KeepsPut(cfg, c, CutRows(cfg, Command(c.types, [rows[0]]), rows[1..]), rows);
      }
    } else {
      var c1 := c.(rows := c.rows + [rows[0]]);
      assert c1.rows + rows[1..] == c.rows + rows;
      if rows[1..] != [] && !SameHeader(c.types, rows[1]) {
        var c2 := Command(HeaderTypes(rows[1], cfg.paramCount), []);
        assert [] + rows[1..] == rows[1..];
        CutKeepsRows(cfg, c2, rows[1..]);
        KeepsPut(cfg, c1, CutRows(cfg, c2, rows[1..]), rows[1..]);
      } else {
        CutKeepsRows(cfg, c1, rows[1..]);
      }
    }
  }

  lemma KeepsOne(cfg: Config, c: Command, rows: seq<Row>, complete: bool)
    requires RowsOk(cfg, c.rows + rows) && c.rows != []
    requires complete ==> rows == []
    requires !complete ==> rows != [] && Limited(cfg)
    requires !complete ==> cfg.paramCount <= |rows[0]|
    requires !complete ==> |RowBytes(rows[0], cfg.paramCount)| >= cfg.maxAllowed.value
    ensures KeepsRows(cfg, Cut([c], complete), c.rows + rows)
  {
    hide RowBytes;
    assert Rows([c]) == c.rows + Rows([]);
    if !complete {
      assert (c.rows + rows)[|c.rows|] == rows[0];
    }
  }

  lemma KeepsPut(cfg: Config, c: Command, cut: Cut, rows: seq<Row>)
    requires RowsOk(cfg, c.rows) && RowsOk(cfg, rows) && c.rows != [] && KeepsRows(cfg, cut, rows)
    ensures RowsOk(cfg, c.rows + rows) && KeepsRows(cfg, Put(c, cut), c.rows + rows)
  {
    hide RowBytes;
    assert ([c] + cut.commands)[1..] == cut.commands;
    var k := |Rows(cut.commands)|;
    assert Rows(Put(c, cut).commands) == c.rows + Rows(cut.commands);
    if !cut.complete {
      assert (c.rows + rows)[|c.rows| + k] == rows[k];
    }
  }

  function FirstCommand(cfg: Config, rows: seq<Row>): Command
    requires RowsOk(cfg, rows) && rows != []
  {
    Command(HeaderTypes(rows[0], cfg.paramCount), [])
  }

  /** The wire is that of commands, each starting with the bulk-execute byte. */
  predicate WireOfCommands(wire: seq<byte>, base: seq<byte>, ps: seq<seq<byte>>) {
    wire == base + EncodeAll(ps) && forall p :: p in ps ==> p != [] && p[0] == 0xfa
  }

  lemma {:induction false} BodiesStart(cfg: Config, cs: seq<Command>)
    requires forall c :: c in cs ==> RowsOk(cfg, c.rows)
    ensures forall p :: p in Bodies(cfg, cs) ==> p != [] && p[0] == 0xfa
  {
    hide HeaderBytes, RowsBytes;
    if cs != [] {
      HeaderLength(cfg, cs[0].types);
      BodiesStart(cfg, cs[1..]);
    }
  }

  /** For a safe batch the wire carries the reference cutter's commands: whole rows, in order, each
      exactly once (`CutKeepsRows`), and their number is counted. */
  lemma SafeBulk(cfg: Config, o: Out, rows: seq<Row>)
    requires Between(o, None) && RowsOk(cfg, rows) && rows != []
    requires Safe(cfg, FirstCommand(cfg, rows), rows, Room(o.cap))
    ensures var out, cut := Run(cfg, o, rows), CutRows(cfg, FirstCommand(cfg, rows), rows);
            && out.o.wire == o.wire + EncodeAll(Bodies(cfg, cut.commands))
            && (if cut.complete then out.Done? else out.Failed?)
            && out.packets == |cut.commands|
  {
    hide Safe, CutRows, HeaderTypes, Bodies, RunCommand;
    HeaderAgrees(cfg, o, HeaderTypes(rows[0], cfg.paramCount), rows, 0);
  }

  /** Header and first row overrun the buffer that an earlier command left. */
  predicate FirstOverruns(cfg: Config, rows: seq<Row>, cap: nat)
    requires RowsOk(cfg, rows) && rows != []
  {
    OverrunsFirst(cfg, FirstCommand(cfg, rows), rows, Room(cap))
  }

  /** The wire is one of well-formed commands exactly for the safe batches; when the first row
      overruns the buffer, the batch fails or starts with a frame that announces another length. */
  lemma BulkExact(cfg: Config, o: Out, rows: seq<Row>)
    requires Between(o, None) && RowsOk(cfg, rows) && rows != []
    ensures var out := Run(cfg, o, rows);
            if FirstOverruns(cfg, rows, o.cap) then
              var p := CommandBytes(cfg, Command(HeaderTypes(rows[0], cfg.paramCount), [rows[0]]));
              && !Safe(cfg, FirstCommand(cfg, rows), rows, Room(o.cap))
              && |p| > 0xffffff && (out.Thrown? <==> 4 + |p| > o.cap)
              && if out.Thrown? then out.o.wire == o.wire else o.wire + EncodeFrame(Frame(p, 0)) <= out.o.wire
            else
              !out.Thrown? && ((exists ps :: WireOfCommands(out.o.wire, o.wire, ps))
                               <==> Safe(cfg, FirstCommand(cfg, rows), rows, Room(o.cap)))
  {
    hide RunCommand, CutRows, HeaderTypes, Bodies, EncodeFrame, CommandBytes, RowOps, Overruns, Overflows, SameHeader;
    if FirstOverruns(cfg, rows, o.cap) {
      OverrunBreaks(cfg, o, HeaderTypes(rows[0], cfg.paramCount), rows, 0);
    } else {
      SafeExactly(cfg, o, rows);
      FirstGoes(cfg, o, rows);
    }
  }

  lemma FirstGoes(cfg: Config, o: Out, rows: seq<Row>)
    requires Between(o, None) && RowsOk(cfg, rows) && rows != []
    requires !FirstOverruns(cfg, rows, o.cap)
    ensures !Run(cfg, o, rows).Thrown?
  {
    hide RunRows, HeaderTypes, CommandBytes, RowOps, StartCommand, Overruns, InCommand, Writes;
    var types, ws := HeaderTypes(rows[0], cfg.paramCount), RowOps(rows[0], cfg.paramCount);
    Starts(cfg, o, types, None);
    var o1 := StartCommand(cfg, o, types, None);
    OverrunsRoom(|o1.body|, ws, o1.cap);
    FirstWrites(o1, o.wire, CommandBytes(cfg, Command(types, [])), ws);
    RunRowsWire(cfg, o1, types, rows, 1);
  }

  lemma SafeExactly(cfg: Config, o: Out, rows: seq<Row>)
    requires Between(o, None) && RowsOk(cfg, rows) && rows != []
    requires !FirstOverruns(cfg, rows, o.cap)
    ensures (exists ps :: WireOfCommands(Run(cfg, o, rows).o.wire, o.wire, ps))
            <==> Safe(cfg, FirstCommand(cfg, rows), rows, Room(o.cap))
  {
    hide RunCommand, CutRows, Safe, HeaderTypes, Bodies, EncodeFrame;
    var w := Run(cfg, o, rows).o.wire;
    if Safe(cfg, FirstCommand(cfg, rows), rows, Room(o.cap)) {
      SafeBulk(cfg, o, rows);
      var cs := CutRows(cfg, FirstCommand(cfg, rows), rows).commands;
      BodiesStart(cfg, cs);
      assert WireOfCommands(w, o.wire, Bodies(cfg, cs));
    } else {
      var qs, f, rest := HeaderBreaks(cfg, o, HeaderTypes(rows[0], cfg.paramCount), rows, 0);
      forall ps
        ensures !WireOfCommands(w, o.wire, ps)
      {
        if WireOfCommands(w, o.wire, ps) {
          ForeignFrame(qs, f, rest, ps, 0xfa);
          SameTail(o.wire, EncodeAll(ps), EncodeAll(qs) + (EncodeFrame(f) + rest));
        }
      }
    }
  }

  lemma SameTail(a: seq<byte>, x: seq<byte>, y: seq<byte>)
    requires a + x == a + y
    ensures x == y
  {
    assert (a + x)[|a|..] == x && (a + y)[|a|..] == y;
  }

  /** Every batch is safe whose first row does not overrun the buffer and whose rows have no write
      that starts after exactly 0xffffff bytes. */
  lemma {:induction false} NoHitIsSafe(cfg: Config, c: Command, rows: seq<Row>, room: nat)
    requires RowsOk(cfg, c.rows) && RowsOk(cfg, rows) && |c.types| == cfg.paramCount
    requires forall r :: r in rows ==> !HitsFull(0, RowOps(r, cfg.paramCount))
    requires rows != [] ==> !OverrunsFirst(cfg, c, rows, room)
    ensures Safe(cfg, c, rows, room)
    decreases |rows|
  {
    hide Hits, HitsFull, Overflows, SameHeader, RowBytes, HeaderTypes, CommandBytes, RowOps, Overruns;
    if rows != [] {
      var ws, c1 := RowOps(rows[0], cfg.paramCount), c.(rows := c.rows + [rows[0]]);
      OnlyFullHits(0, ws, room - InBuffer(|CommandBytes(cfg, c)|));
      NoHitIsSafe(cfg, Command(c.types, [rows[0]]), rows[1..], 0xffffff);
      NoHitIsSafe(cfg, c1, rows[1..], RoomAfter(cfg, c1, room));
      if rows[1..] != [] {
        var c2 := Command(HeaderTypes(rows[1], cfg.paramCount), []);
        NoOverrun(|CommandBytes(cfg, c2)|, RowOps(rows[1..][0], cfg.paramCount), 0xffffff);
        NoHitIsSafe(cfg, c2, rows[1..], 0xffffff);
      }
    }
  }

  /** A larger buffer only hides such writes; an ordinary one hides none. */
  lemma {:induction false} OnlyFullHits(n: nat, ws: seq<seq<byte>>, room: int)
    ensures Hits(n, ws, room) ==> HitsFull(n, ws)
    ensures n <= room < 0xffffff && HitsFull(n, ws) ==> Hits(n, ws, room)
    decreases |ws|
  {
    if ws != [] {
      OnlyFullHits(n + |ws[0]|, ws[1..], room);
    }
  }
}
