/** Small batches on which the bulk command does not do what it is meant to. */
module BulkExamples {
  import opened Bytes
  import opened Framing
  import opened OutputModel
  import opened LengthCoded
  import opened BinaryParams
  import opened BinaryReader
  import opened BulkModel
  import opened BulkProofs
  import opened BulkTypes

  // ---------- the bytes of one-parameter rows ----------

  lemma OneParam(p: Param)
    ensures RowOps([p], 1) == ParamOps(p) && RowBytes([p], 1) == Flatten(ParamOps(p))
  {
    hide ParamOps;
    assert RowOps([p], 0) == [] && RowOps([p], 1) == [] + ParamOps(p);
  }

  /** A text or buffer of fewer than 251 bytes. */
  lemma ShortValue(p: Param, s: seq<byte>)
    requires (p == Text(s) || p == Buffer(s)) && |s| < 0xfb
    ensures RowOps([p], 1) == [[0], [|s|], s] && RowBytes([p], 1) == [0, |s|] + s
  {
    OneParam(p);
    assert ParamOps(p) == [[0]] + ([[|s|]] + [s]);
    One(s);
    Cons([|s|], [s]);
    Cons([0], [[|s|], s]);
    assert [0] + ([|s|] + s) == [0, |s|] + s;
  }

  lemma Cons(x: seq<byte>, xs: seq<seq<byte>>)
    ensures Flatten([x] + xs) == x + Flatten(xs)
  {
    assert ([x] + xs)[1..] == xs;
  }

  lemma OneRow(row: Row)
    requires |row| == 1
    ensures RowsBytes([row], 1) == RowBytes(row, 1)
  {
    hide RowBytes;
    assert [row][..0] == [] && RowsBytes([], 1) == [];
  }

  /** The first row of a batch opens a command of its own bytes and a header of nine. */
  lemma FirstOfTwo(cfg: Config, row: Row)
    requires cfg.paramCount == 1 && |row| == 1
    ensures |CommandBytes(cfg, Command(HeaderTypes(row, 1), [row]))| == 9 + |RowBytes(row, 1)|
    ensures |CommandBytes(cfg, Command(HeaderTypes(row, 1), []))| == 9
  {
    hide RowBytes, HeaderBytes;
    OneRow(row);
    HeaderLength(cfg, HeaderTypes(row, 1));
  }

  // ---------- a row that hits a full frame ----------

  /** An unsafe batch: a second row whose first value fills a frame to the byte and has a sibling. */
  lemma UnsafeExample(cfg: Config, data: seq<byte>)
    requires cfg.paramCount == 2 && cfg.maxAllowed == None && |data| == 16777210
    ensures var rows := [[Buffer([]), Null], [Buffer(data), Null]];
            !Safe(cfg, FirstCommand(cfg, rows), rows, 0xffffff)
  {
    hide RowBytes, LE, HeaderBytes, RowsBytes, RowOps;
    var rows := [[Buffer([]), Null], [Buffer(data), Null]];
    var c := FirstCommand(cfg, rows);
    var c1 := c.(rows := c.rows + [rows[0]]);
    var ws := RowOps(rows[1], 2);
    FullValue(data);
    HeaderLength(cfg, c.types);
    OnlyFullHits(0, ws, 0xffffff - InBuffer(|CommandBytes(cfg, c1)|));
    HitsFullIsLong(0, ws);
    assert RowBytes(rows[1], 2) == Flatten(ws) by { RowBytesIs(rows[1], 2); }
    assert rows[1..][0] == rows[1] && SameHeader(c.types, rows[1]);
    assert !Safe(cfg, c1, rows[1..], 0xffffff);
  }

  lemma RowBytesIs(row: Row, n: nat)
    requires n <= |row|
    ensures RowBytes(row, n) == Flatten(RowOps(row, n))
  {
  }

  lemma FullValue(data: seq<byte>)
    requires |data| == 16777210
    ensures HitsFull(0, RowOps([Buffer(data), Null], 2))
  {
    var row := [Buffer(data), Null];
    var ops := [[0], [0xfd], LE(16777210, 3), data, [1]];
    assert RowOps(row, 0) == [];
    assert RowOps(row, 1) == [[0]] + ([[0xfd], LE(16777210, 3)] + [data]);
    assert RowOps(row, 2) == RowOps(row, 1) + [[1]];
    assert RowOps(row, 2) == ops;
    assert HitsFull(16777215, ops[1..][1..][1..][1..]);
    assert HitsFull(5, ops[1..][1..][1..]);
    assert HitsFull(2, ops[1..][1..]);
    assert HitsFull(1, ops[1..]);
  }

  // ---------- a refused row ----------

  /** A batch that is refused at its second row: one command is on the wire, and the batch fails. */
  lemma RefusedExample(cfg: Config, o: Out, a: seq<byte>, b: seq<byte>)
    requires cfg.paramCount == 1 && cfg.maxAllowed == Some(20) && |a| == 5 && |b| == 30
    requires Between(o, None) && o.cap <= MAX_BUFFER_SIZE
    ensures var rows := [[Text(a)], [Text(b)]];
            && CutRows(cfg, FirstCommand(cfg, rows), rows) == Cut([Command([VAR_STRING], [rows[0]])], false)
            && Run(cfg, o, rows).Failed? && Run(cfg, o, rows).packets == 1
  {
    hide RowBytes, RowOps, HeaderBytes, RunCommand, CommandBytes;
    var rows := [[Text(a)], [Text(b)]];
    var c := FirstCommand(cfg, rows);
    var c1 := Command(c.types, [rows[0]]);
    ShortValue(Text(a), a);
    ShortValue(Text(b), b);
    FirstOfTwo(cfg, rows[0]);
    NoOverrun(9, RowOps(rows[0], 1), 0xffffff);
    assert c.rows + [rows[0]] == c1.rows && c.types == [VAR_STRING] && rows[1..] == [rows[1]];
    assert Overflows(cfg, c1, rows[1]) && SameHeader(c.types, rows[1]);
    assert CutRows(cfg, c1, rows[1..]) == Cut([c1], false);
    assert !Hits(0, RowOps(rows[1], 1), 0xffffff - InBuffer(|CommandBytes(cfg, c1)|)) by {
      RowBytesIs(rows[1], 1);
      if Hits(0, RowOps(rows[1], 1), 0xffffff - InBuffer(|CommandBytes(cfg, c1)|)) {
        HitsIsLong(0, RowOps(rows[1], 1), 0xffffff - InBuffer(|CommandBytes(cfg, c1)|));
      }
    }
    assert Safe(cfg, c1, rows[1..], 0xffffff);
    SafeBulk(cfg, o, rows);
  }

  // ---------- a row behind a cut-off one ----------

  /** The second row is cut off into a second command, and the third joins it unchecked: a flag under
      the types of texts, which a server cannot read. */
  lemma UncheckedExample(cfg: Config, a: seq<byte>, b: seq<byte>)
    requires cfg.paramCount == 1 && cfg.maxAllowed == Some(20) && |a| == |b| == 5
    ensures var rows := [[Text(a)], [Text(b)], [Bool(true)]];
            && CutRows(cfg, FirstCommand(cfg, rows), rows)
               == Cut([Command([VAR_STRING], [rows[0]]), Command([VAR_STRING], [rows[1], rows[2]])], true)
            && !FollowersAgree(cfg, FirstCommand(cfg, rows), rows, true)
            && ReadRow([VAR_STRING], RowBytes(rows[2], 1)) == None
  {
    hide RowBytes, ReadRow, FollowersAgree, HeaderTypes, RowAnnounced;
    var rows := [[Text(a)], [Text(b)], [Bool(true)]];
    FlagRow();
    UncheckedCut(cfg, a, b);
    BatchIsRead(cfg, rows);
    var c := Command([VAR_STRING], [rows[1], rows[2]]);
    assert c in CutRows(cfg, FirstCommand(cfg, rows), rows).commands && rows[2] in c.rows;
    NotAnnounced();
  }

  lemma NotAnnounced()
    ensures !RowAnnounced([VAR_STRING], [Bool(true)])
  {
    assert !Announced([VAR_STRING][0], [Bool(true)][0]);
  }

  lemma UncheckedCut(cfg: Config, a: seq<byte>, b: seq<byte>)
    requires cfg.paramCount == 1 && cfg.maxAllowed == Some(20) && |a| == |b| == 5
    ensures var rows := [[Text(a)], [Text(b)], [Bool(true)]];
            CutRows(cfg, FirstCommand(cfg, rows), rows)
            == Cut([Command([VAR_STRING], [rows[0]]), Command([VAR_STRING], [rows[1], rows[2]])], true)
  {
    hide RowBytes, Overflows, SameHeader;
    var rows := [[Text(a)], [Text(b)], [Bool(true)]];
    var c := FirstCommand(cfg, rows);
    var c1, c2 := Command(c.types, [rows[0]]), Command(c.types, [rows[1]]);
    UncheckedSizes(cfg, a, b);
    assert c.rows + [rows[0]] == c1.rows && c2.rows + [rows[2]] == [rows[1], rows[2]];
    assert rows[1..] == [rows[1], rows[2]] && rows[1..][1..] == [rows[2]];
    var last := Command(c.types, [rows[1], rows[2]]);
    assert CutRows(cfg, c2, [rows[2]]) == Cut([last], true);
    assert CutRows(cfg, c1, rows[1..]) == Cut([c1] + [last], true);
  }

  /** The second text does not fit behind the first, the flag does behind the second. */
  lemma UncheckedSizes(cfg: Config, a: seq<byte>, b: seq<byte>)
    requires cfg.paramCount == 1 && cfg.maxAllowed == Some(20) && |a| == |b| == 5
    ensures HeaderTypes([Text(a)], 1) == [VAR_STRING] && SameHeader([VAR_STRING], [Text(b)])
    ensures Overflows(cfg, Command([VAR_STRING], [[Text(a)]]), [Text(b)])
    ensures !Overflows(cfg, Command([VAR_STRING], [[Text(b)]]), [Bool(true)])
    ensures |RowBytes([Text(b)], 1)| < 20
  {
    hide RowBytes, HeaderBytes, CommandBytes, RowOps;
    ShortValue(Text(a), a);
    ShortValue(Text(b), b);
    FlagRow();
    FirstOfTwo(cfg, [Text(a)]);
    FirstOfTwo(cfg, [Text(b)]);
    assert HeaderTypes([Text(b)], 1) == [VAR_STRING] == HeaderTypes([Text(a)], 1);
  }

  lemma FlagRow()
    ensures RowBytes([Bool(true)], 1) == [0, 1] && ReadRow([VAR_STRING], [0, 1]) == None
  {
    OneParam(Bool(true));
    assert ParamOps(Bool(true)) == [[0]] + [[1]];
    assert [[0], [1]][1..] == [[1]] && Flatten([[1]]) == [1];
    assert [0, 1][1..] == [1];
  }

  // ---------- the buffer a refused row leaves ----------

  /** A command that is refused at its left-over row keeps that row's buffer, and the next command
      starts in it. */
  lemma RefusedKeepsBuffer(cfg: Config, o: Out, types: seq<nat>, left: seq<byte>, rows: seq<Row>, n: nat)
    requires Between(o, Some(left)) && |types| == cfg.paramCount && RowsOk(cfg, rows)
    requires o.cap > MAX_BUFFER_SIZE && o.cmdLength == 0 && Limited(cfg) && |left| >= cfg.maxAllowed.value
    ensures var out := RunCommand(cfg, o, types, Some(left), rows, n);
            out.Failed? && Between(out.o, None) && Ok(out.o) && out.o.cap == 4 + |left| && out.o.wire == o.wire
  {
    hide Writes, HeaderOps, HeaderBytes;
    StartCommandOk(cfg, o, types, Some(left));
  }

  /** A second row of 20000000 bytes is refused; the next command writes 17000000 bytes into the
      buffer left behind, and they leave as one frame that announces another length. */
  lemma OversizedExample(cfg: Config, o: Out, data: seq<byte>, payload: seq<byte>)
    requires cfg.paramCount == 1 && cfg.maxAllowed == Some(16777216)
    requires |data| == 20000000 && |payload| == 17000000
    requires Between(o, None) && o.cap <= MAX_BUFFER_SIZE
    ensures var out := Run(cfg, o, [[Buffer([])], [Buffer(data)]]);
            && out.Failed? && Between(out.o, None) && out.o.cap == 20000014
            && Goes(StartPacket(out.o), [payload])
            && Flush(Writes(StartPacket(out.o), [payload])).wire
               == out.o.wire + EncodeFrame(Frame(payload, 0))
               != out.o.wire + EncodeFrames(Split(payload, 0))
  {
    hide RowBytes, RowOps, RunCommand, EncodeFrame, EncodeFrames, Split, Writes;
    var out := Run(cfg, o, [[Buffer([])], [Buffer(data)]]);
    LeavesBuffer(cfg, o, data);
    assert Flatten([payload]) == payload by { One(payload); }
    OutputFraming(out.o, [payload]);
    OverrunWrites(StartPacket(out.o), [payload]);
    assert [] + payload == payload;
    OneFrame(Writes(StartPacket(out.o), [payload]));
    SplitIsLonger(payload);
  }

  lemma LeavesBuffer(cfg: Config, o: Out, data: seq<byte>)
    requires cfg.paramCount == 1 && cfg.maxAllowed == Some(16777216) && |data| == 20000000
    requires Between(o, None) && o.cap <= MAX_BUFFER_SIZE
    ensures var out := Run(cfg, o, [[Buffer([])], [Buffer(data)]]);
            out.Failed? && Between(out.o, None) && Ok(out.o) && out.o.cap == 20000014
  {
    hide RowBytes, RowOps, RunCommand, RunRows, CommandBytes, HeaderBytes, Hits, HitsFull, Overruns, InCommand;
    var rows := [[Buffer([])], [Buffer(data)]];
    var c := FirstCommand(cfg, rows);
    var c1 := Command(c.types, [rows[0]]);
    ShortValue(Buffer([]), []);
    FirstOfTwo(cfg, rows[0]);
    LongValue(data);
    assert c.rows + [rows[0]] == c1.rows && rows[1..] == [rows[1]] && rows[1..][1..] == [];
    NoOverrun(9, RowOps(rows[0], 1), 0xffffff);
    assert SameHeader(c.types, rows[1]) && Overflows(cfg, c1, rows[1]);
    Starts(cfg, o, c.types, None);
    var o1 := StartCommand(cfg, o, c.types, None);
    var o2 := JoinRow(cfg, o1, o.wire, c, rows, 1, Room(o.cap));
    OnlyFullHits(0, RowOps(rows[1], 1), 0xffffff - InBuffer(|CommandBytes(cfg, c1)|));
    var o3 := CutRow(cfg, o2, o.wire, c1, rows[1..], 1, RoomAfter(cfg, c1, Room(o.cap)));
    RefusedKeepsBuffer(cfg, o3, c.types, RowBytes(rows[1], 1), [], 1);
    FirstRuns(cfg, o, rows);
  }

  lemma FirstRuns(cfg: Config, o: Out, rows: seq<Row>)
    requires Between(o, None) && RowsOk(cfg, rows) && rows != []
    ensures var types := HeaderTypes(rows[0], cfg.paramCount);
            Run(cfg, o, rows) == RunRows(cfg, StartCommand(cfg, o, types, None), types, rows, 1)
  {
    hide RunRows, StartCommand, HeaderTypes;
  }

  lemma LongValue(data: seq<byte>)
    requires |data| == 20000000
    ensures |RowBytes([Buffer(data)], 1)| == 20000010 && !HitsFull(0, RowOps([Buffer(data)], 1))
  {
    hide LE, RowOps, RowBytes, ParamOps, HitsFull, Flatten;
    var len := LE(20000000, 8);
    OneParam(Buffer(data));
    LongOps(data);
    One(data);
    Cons(len, [data]);
    Cons([0xfe], [len] + [data]);
    Cons([0], [[0xfe]] + ([len] + [data]));
    NoHit(10, data, []);
    NoHit(2, len, [data]);
    NoHit(1, [0xfe], [len] + [data]);
    NoHit(0, [0], [[0xfe]] + ([len] + [data]));
    assert [data] + [] == [data] && !HitsFull(10 + |data|, []) by { NothingHits(10 + |data|); }
  }

  lemma LongOps(data: seq<byte>)
    requires |data| == 20000000
    ensures ParamOps(Buffer(data)) == [[0]] + ([[0xfe]] + ([LE(20000000, 8)] + [data]))
  {
    hide LE;
    assert ParamOps(Buffer(data)) == [[0]] + ([[0xfe], LE(20000000, 8)] + [data]);
  }

  lemma NothingHits(n: nat)
    ensures !HitsFull(n, [])
  {
  }

  lemma NoHit(n: nat, x: seq<byte>, xs: seq<seq<byte>>)
    requires n != 0xffffff
    ensures HitsFull(n, [x] + xs) <==> HitsFull(n + |x|, xs)
  {
    assert ([x] + xs)[1..] == xs;
  }
}
