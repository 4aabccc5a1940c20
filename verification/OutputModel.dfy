/** The output buffer as a value, and what growing, flushing and writing do to it. */
module OutputModel {
  import opened Bytes
  import opened Framing

  const SMALL_BUFFER_SIZE: nat := 256
  const MEDIUM_BUFFER_SIZE: nat := 16384
  const LARGE_BUFFER_SIZE: nat := 131072
  const BIG_BUFFER_SIZE: nat := 1048576
  const MAX_BUFFER_SIZE: nat := 16777219

  /** `wire` is what the socket has been given, `body` is buf[4..pos], `cap` the buffer's length,
      `mark` the offset of markPos in the body. */
  datatype Out = Out(wire: seq<byte>, seqNo: int, body: seq<byte>, cap: nat,
                     mark: Option<nat>, after: bool, cmdLength: nat)

  function Pos(o: Out): nat { 4 + |o.body| }

  predicate Shape(o: Out) {
    && Pos(o) <= o.cap
    && o.seqNo >= -1
    && (o.mark.Some? ==> o.mark.value <= |o.body| && !o.after)
  }

  /** What holds between two writes: a buffer that keeps data beyond a sent mark and is larger than
      the maximum is exactly full. */
  predicate Ok(o: Out) {
    Shape(o) && (o.after && o.cap > MAX_BUFFER_SIZE ==> Pos(o) == o.cap)
  }

  /** A refused bulk command leaves a buffer larger than the maximum to the next command. Filled
      beyond the maximum and with no mark set, it cannot take a write that does not fit: growing
      would cut it down to the maximum, which it has passed. */
  predicate Stuck(o: Out, n: nat) {
    !o.after && o.mark.None? && Pos(o) > MAX_BUFFER_SIZE && Pos(o) + n > o.cap
  }

  predicate CanWrite(o: Out, n: nat) { Ok(o) && !Stuck(o, n) }

  /** A buffer that is stuck keeps what the maximum can hold. */
  function Clipped(o: Out): Out
    requires Pos(o) >= MAX_BUFFER_SIZE
  {
    o.(body := o.body[..0xffffff], cap := MAX_BUFFER_SIZE)
  }

  /** The frame it is sent as: what it still holds, under the length it had. */
  function CutFrame(o: Out): seq<byte>
    requires Pos(o) >= MAX_BUFFER_SIZE
  {
    LE(|o.body|, 3) + [(o.seqNo + 1) % 256] + o.body[..0xffffff]
  }

  function MinCapacity(remaining: nat): nat {
    if remaining + 4 < SMALL_BUFFER_SIZE then SMALL_BUFFER_SIZE
    else if remaining + 4 < MEDIUM_BUFFER_SIZE then MEDIUM_BUFFER_SIZE
    else if remaining + 4 < LARGE_BUFFER_SIZE then LARGE_BUFFER_SIZE
    else if remaining + 4 < BIG_BUFFER_SIZE then BIG_BUFFER_SIZE
    else MAX_BUFFER_SIZE
  }

  /** Sends the buffer as one frame, and an empty frame after a full one that ends the command. */
  function FlushBuffer(o: Out, commandEnd: bool, remaining: nat): Out {
    var sent := o.(wire := o.wire + EncodeFrame(Frame(o.body, (o.seqNo + 1) % 256)), seqNo := o.seqNo + 1,
                   cmdLength := o.cmdLength + |o.body|);
    var ended := if commandEnd && Pos(o) == MAX_BUFFER_SIZE then
                   sent.(wire := sent.wire + EncodeFrame(Frame([], (sent.seqNo + 1) % 256)),
                         seqNo := sent.seqNo + 1, cmdLength := 0)
                 else sent;
    ended.(body := [], cap := MinCapacity(remaining))
  }

  /** Ends the command at the mark; the bytes beyond it are kept for the next command. */
  function StopAtMark(o: Out): Out
    requires o.mark.Some? && o.mark.value <= |o.body|
  {
    var tail := o.body[o.mark.value..];
    var sent := FlushBuffer(o.(body := o.body[..o.mark.value]), true, |tail|);
    sent.(body := tail, cap := Max(SMALL_BUFFER_SIZE, 4 + |tail|), mark := None, after := true, cmdLength := 0)
  }

  function NewCapacity(o: Out, len: nat): nat {
    if len + Pos(o) < MEDIUM_BUFFER_SIZE then MEDIUM_BUFFER_SIZE
    else if len + Pos(o) < LARGE_BUFFER_SIZE then LARGE_BUFFER_SIZE
    else if len + Pos(o) < BIG_BUFFER_SIZE then BIG_BUFFER_SIZE
    else if o.after then len + Pos(o)
    else MAX_BUFFER_SIZE
  }

  function Grow(o: Out, len: nat): (g: Out)
    requires CanWrite(o, len) && Pos(o) + len > o.cap
    ensures Shape(g) && (g == Regrown(o, len) || (o.mark.Some? && Pos(o) + len > MAX_BUFFER_SIZE && g.after))
    ensures g.after ==> Pos(g) + len <= g.cap && (g.cap <= MAX_BUFFER_SIZE || Pos(g) + len == g.cap)
    decreases o.mark.Some?
  {
    if len + Pos(o) > NewCapacity(o, len) && o.mark.Some? then
      var o1 := StopAtMark(o);
      if len + Pos(o1) <= o1.cap then o1 else Grow(o1, len)
    else Regrown(o, len)
  }

  function Regrown(o: Out, len: nat): Out { o.(cap := NewCapacity(o, len)) }

  function Append(o: Out, data: seq<byte>): Out { o.(body := o.body + data) }

  /** `writeBuffer`: make room, then copy or stream. */
  function Write(o: Out, data: seq<byte>): Out
    requires CanWrite(o, |data|)
  {
    var o1 := MakeRoom(o, |data|);
    if Fits(o1, data) then Append(o1, data) else Stream(o1, data)
  }

  function MakeRoom(o: Out, len: nat): (r: Out)
    requires CanWrite(o, len)
    ensures Shape(r)
  {
    if Pos(o) + len <= o.cap then o
    else
      var o1 := if o.cap != MAX_BUFFER_SIZE then Grow(o, len) else o;
      if Pos(o1) + len > o1.cap && o1.mark.Some? then Grow(o1, len) else o1
  }

  lemma MakeRoomFits(o: Out, len: nat)
    requires CanWrite(o, len)
    ensures var r := MakeRoom(o, len);
            Pos(r) + len <= r.cap || (r.cap == MAX_BUFFER_SIZE && r.mark.None?)
  {
  }

  predicate Fits(o: Out, data: seq<byte>) { |data| <= o.cap - Pos(o) }

  /** Fills the buffer and sends it until everything is in. */
  function Stream(o: Out, data: seq<byte>): Out
    requires Pos(o) <= MAX_BUFFER_SIZE
    decreases |data|, |o.body|
  {
    var fill := Min(MAX_BUFFER_SIZE - Pos(o), |data|);
    var o1 := Append(o, data[..fill]);
    if fill == |data| then o1 else Stream(FlushBuffer(o1, false, |data| - fill), data[fill..])
  }

  function StartPacket(o: Out): Out { o.(body := []) }

  /** `flush` */
  function Flush(o: Out): Out {
    FlushBuffer(o, true, 0).(cap := SMALL_BUFFER_SIZE, seqNo := -1, cmdLength := 0, mark := None)
  }

  function Mark(o: Out): Out { o.(mark := Some(|o.body|)) }

  /** `resetMark`: what stood beyond the sent mark is handed back for the next command. */
  function ResetMark(o: Out): (Out, Option<seq<byte>>)
    requires o.mark.Some? && o.mark.value <= |o.body|
  {
    var body := o.body[..o.mark.value];
    if o.after then (o.(body := body, mark := None, seqNo := -1, after := false), Some(body))
    else (o.(body := body, mark := None), None)
  }

  lemma StreamStep(o: Out, data: seq<byte>, fill: nat)
    requires Pos(o) <= MAX_BUFFER_SIZE && fill == Min(MAX_BUFFER_SIZE - Pos(o), |data|)
    ensures var o1 := Append(o, data[..fill]);
            Stream(o, data) == if fill == |data| then o1
                               else Stream(FlushBuffer(o1, false, |data| - fill), data[fill..])
  {
  }

  // ---------- growing and writing keep the buffer well formed ----------

  lemma StopAtMarkOk(o: Out)
    requires Ok(o) && o.mark.Some?
    ensures Ok(StopAtMark(o)) && StopAtMark(o).after && StopAtMark(o).mark.None?
  {
  }

  lemma {:induction false} StreamOk(o: Out, data: seq<byte>)
    requires Shape(o) && Pos(o) <= MAX_BUFFER_SIZE && o.mark.None?
    requires o.cap == MAX_BUFFER_SIZE || (o.cap < MAX_BUFFER_SIZE && Fits(o, data))
    ensures var r := Stream(o, data);
            Ok(r) && r.cap <= MAX_BUFFER_SIZE && r.mark.None? && r.after == o.after
    decreases |data|, |o.body|
  {
    var fill := Min(MAX_BUFFER_SIZE - Pos(o), |data|);
    if fill < |data| {
      StreamOk(FlushBuffer(Append(o, data[..fill]), false, |data| - fill), data[fill..]);
    }
  }

  /** How far the buffer can be filled in place, perhaps after growing. */
  function Top(o: Out): nat { Max(o.cap, MAX_BUFFER_SIZE) }

  /** How many bytes a command can put into a buffer of this size, perhaps after growing. */
  function Room(cap: nat): (room: nat)
    ensures room >= 0xffffff
  {
    Max(cap, MAX_BUFFER_SIZE) - 4
  }

  /** `Write` in three cases: the buffer takes the data, perhaps after growing; the mark is sent
      first; or the buffer is at its maximum and the data is streamed. */
  lemma WriteCases(o: Out, data: seq<byte>)
    requires CanWrite(o, |data|)
    ensures var r := Write(o, data);
            && (o.after && o.cap == MAX_BUFFER_SIZE && !Fits(o, data) ==> r == Stream(o, data))
            && (o.after && (o.cap != MAX_BUFFER_SIZE || Fits(o, data)) ==> r == Append(o.(cap := r.cap), data))
            && (!o.after && Pos(o) + |data| <= Top(o) ==> r == Append(o.(cap := r.cap), data))
            && (!o.after && Pos(o) + |data| > Top(o) && o.mark.Some? ==>
                  r == Append(StopAtMark(o).(cap := r.cap), data))
            && (!o.after && Pos(o) + |data| > Top(o) && o.mark.None? ==>
                  Pos(o) <= MAX_BUFFER_SIZE && r == Stream(o.(cap := MAX_BUFFER_SIZE), data))
  {
  }

  lemma WriteOk(o: Out, data: seq<byte>)
    requires CanWrite(o, |data|)
    ensures Ok(Write(o, data))
  {
    hide Stream;
    WriteCases(o, data);
    if o.after && o.cap == MAX_BUFFER_SIZE && !Fits(o, data) {
      StreamOk(o, data);
    } else if !o.after && Pos(o) + |data| > Top(o) && o.mark.None? {
      StreamOk(o.(cap := MAX_BUFFER_SIZE), data);
    }
  }

  /** Data kept beyond a mark sits in a buffer of a small tier, or fills its buffer. */
  predicate Settled(o: Out) {
    o.after ==> o.cap <= BIG_BUFFER_SIZE || Pos(o) == o.cap
  }

  lemma RoomCapacity(o: Out, len: nat)
    requires CanWrite(o, len)
    ensures var r := MakeRoom(o, len);
            && (!r.after ==> r.cap == o.cap || r.cap <= MAX_BUFFER_SIZE)
            && (r.after && r != o && Pos(r) + len <= r.cap ==> r.cap <= BIG_BUFFER_SIZE || Pos(r) + len == r.cap)
            && (r.after && Pos(r) + len > r.cap ==> r == o)
  {
  }

  lemma WriteCapacity(o: Out, data: seq<byte>)
    requires CanWrite(o, |data|)
    ensures var r := Write(o, data);
            && (!r.after ==> r.cap == o.cap || r.cap <= MAX_BUFFER_SIZE)
            && (Settled(o) && (o.after ==> o.cap != MAX_BUFFER_SIZE || Fits(o, data)) ==> Settled(r))
  {
    hide MakeRoom, Stream;
    RoomCapacity(o, |data|);
    MakeRoomFits(o, |data|);
    var m := MakeRoom(o, |data|);
    if !Fits(m, data) {
      StreamOk(m, data);
    }
  }

  /** A buffer is created and grown to the smallest size that holds what is asked for, and one byte; past
      the largest sizes it is the maximum, or behind a sent mark exactly what is needed. */
  lemma SmallestTier(o: Out, len: nat, tier: nat)
    requires tier in [MEDIUM_BUFFER_SIZE, LARGE_BUFFER_SIZE, BIG_BUFFER_SIZE]
    ensures var n, r := Pos(o) + len, NewCapacity(o, len);
            && (tier > n ==> n < r <= tier)
            && (n >= BIG_BUFFER_SIZE ==> r == if o.after then n else MAX_BUFFER_SIZE)
    ensures tier > len + 4 ==> len + 4 < MinCapacity(len) <= tier
    ensures len + 4 < SMALL_BUFFER_SIZE ==> MinCapacity(len) == SMALL_BUFFER_SIZE
    ensures len + 4 >= BIG_BUFFER_SIZE ==> MinCapacity(len) == MAX_BUFFER_SIZE
  {
  }

  // ---------- how long the command is ----------

  /** The bytes of the command under way, sent or not. */
  function CommandLength(o: Out): int { o.cmdLength + |o.body| }

  lemma {:induction false} StreamCounts(o: Out, data: seq<byte>)
    requires Pos(o) <= MAX_BUFFER_SIZE
    ensures CommandLength(Stream(o, data)) == CommandLength(o) + |data|
    decreases |data|, |o.body|
  {
    hide EncodeFrame;
    var fill := Min(MAX_BUFFER_SIZE - Pos(o), |data|);
    if fill < |data| {
      StreamCounts(FlushBuffer(Append(o, data[..fill]), false, |data| - fill), data[fill..]);
    }
  }

  /** A write adds its bytes to the length of the command that is held against the allowed maximum; it
      starts at nothing, and again at nothing for the next command, be it behind a flush or a mark. */
  lemma WriteCounts(o: Out, data: seq<byte>)
    requires CanWrite(o, |data|)
    ensures !o.after && (o.mark.None? || Pos(o) + |data| <= Top(o)) ==>
              CommandLength(Write(o, data)) == CommandLength(o) + |data|
    ensures Flush(o).cmdLength == 0 && (o.mark.Some? ==> StopAtMark(o).cmdLength == 0)
  {
    hide Write, Stream, EncodeFrame;
    WriteCases(o, data);
    if !o.after && Pos(o) + |data| > Top(o) && o.mark.None? {
      StreamCounts(o.(cap := MAX_BUFFER_SIZE), data);
    }
  }

  // ---------- the wire only grows ----------

  lemma {:induction false} StreamWire(o: Out, data: seq<byte>)
    requires Pos(o) <= MAX_BUFFER_SIZE
    ensures o.wire <= Stream(o, data).wire
    decreases |data|, |o.body|
  {
    hide EncodeFrame, Stream;
    var fill := Min(MAX_BUFFER_SIZE - Pos(o), |data|);
    StreamStep(o, data, fill);
    if fill < |data| {
      StreamWire(FlushBuffer(Append(o, data[..fill]), false, |data| - fill), data[fill..]);
    }
  }

  lemma WriteWire(o: Out, data: seq<byte>)
    requires CanWrite(o, |data|)
    ensures o.wire <= Write(o, data).wire
  {
    hide Write, Stream, EncodeFrame;
    WriteCases(o, data);
    if o.after && o.cap == MAX_BUFFER_SIZE && !Fits(o, data) {
      StreamWire(o, data);
    } else if !o.after && Pos(o) + |data| > Top(o) && o.mark.None? {
      StreamWire(o.(cap := MAX_BUFFER_SIZE), data);
    }
  }

  // ---------- framing of one command ----------

  /** The first `k` full frames of command `p`. */
  function Full(p: seq<byte>, k: nat): seq<byte>
    requires k * 0xffffff <= |p|
  {
    if k == 0 then [] else Full(p, k - 1) + EncodeFrame(FullFrame(p, k - 1))
  }

  function FullFrame(p: seq<byte>, k: nat): Frame
    requires (k + 1) * 0xffffff <= |p|
  {
    Frame(p[k * 0xffffff..(k + 1) * 0xffffff], k % 256)
  }

  /** `p` has been written since the command started behind `base`: so many full frames have been
      sent, with sequence bytes 0, 1, ..., and the buffer holds the rest. */
  predicate InCommand(o: Out, base: seq<byte>, p: seq<byte>) {
    && Pos(o) <= MAX_BUFFER_SIZE
    && o.seqNo >= -1
    && |p| == (o.seqNo + 1) * 0xffffff + |o.body|
    && o.body == p[(o.seqNo + 1) * 0xffffff..]
    && o.wire == base + Full(p, o.seqNo + 1)
  }

  lemma {:induction false} FullPrefix(p: seq<byte>, x: seq<byte>, k: nat)
    requires k * 0xffffff <= |p|
    ensures Full(p + x, k) == Full(p, k)
  {
    hide EncodeFrame;
    if k > 0 {
      FullPrefix(p, x, k - 1);
      assert (p + x)[(k - 1) * 0xffffff..k * 0xffffff] == p[(k - 1) * 0xffffff..k * 0xffffff];
    }
  }

  lemma InCommandAppend(o: Out, base: seq<byte>, p: seq<byte>, x: seq<byte>)
    requires InCommand(o, base, p) && Pos(o) + |x| <= MAX_BUFFER_SIZE
    ensures InCommand(Append(o, x), base, p + x)
  {
    hide Full;
    FullPrefix(p, x, o.seqNo + 1);
  }

  lemma InCommandFlush(o: Out, base: seq<byte>, p: seq<byte>, remaining: nat)
    requires InCommand(o, base, p) && Pos(o) == MAX_BUFFER_SIZE
    ensures InCommand(FlushBuffer(o, false, remaining), base, p)
  {
    hide EncodeFrame, Full;
    var k := o.seqNo + 1;
    FullStep(p, k);
    assert FullFrame(p, k) == Frame(o.body, (o.seqNo + 1) % 256);
    assert base + Full(p, k) + EncodeFrame(FullFrame(p, k)) == base + (Full(p, k) + EncodeFrame(FullFrame(p, k)));
  }

  lemma FullStep(p: seq<byte>, k: nat)
    requires (k + 1) * 0xffffff <= |p|
    ensures Full(p, k + 1) == Full(p, k) + EncodeFrame(FullFrame(p, k))
  {
  }

  lemma {:induction false} InCommandStream(o: Out, base: seq<byte>, p: seq<byte>, data: seq<byte>)
    requires InCommand(o, base, p)
    ensures InCommand(Stream(o, data), base, p + data)
    decreases |data|, |o.body|
  {
    hide InCommand;
    assert Pos(o) <= MAX_BUFFER_SIZE && o.seqNo >= -1 by { InCommandPos(o, base, p); }
    var fill := Min(MAX_BUFFER_SIZE - Pos(o), |data|);
    InCommandAppend(o, base, p, data[..fill]);
    if fill < |data| {
      var o1 := Append(o, data[..fill]);
      InCommandFlush(o1, base, p + data[..fill], |data| - fill);
      InCommandStream(FlushBuffer(o1, false, |data| - fill), base, p + data[..fill], data[fill..]);
      assert p + data[..fill] + data[fill..] == p + data;
    } else {
      assert data[..fill] == data;
    }
  }

  lemma InCommandPos(o: Out, base: seq<byte>, p: seq<byte>)
    requires InCommand(o, base, p)
    ensures Pos(o) <= MAX_BUFFER_SIZE && o.seqNo >= -1
  {
  }

  lemma InCommandCap(o: Out, base: seq<byte>, p: seq<byte>, cap: nat)
    requires InCommand(o, base, p)
    ensures InCommand(o.(cap := cap), base, p)
  {
  }

  /** Writing with no mark set: the command grows by the data, whatever the buffer does, unless the
      data takes an oversized buffer past the maximum. */
  lemma InCommandWrite(o: Out, base: seq<byte>, p: seq<byte>, data: seq<byte>)
    requires Ok(o) && o.mark.None? && !o.after && InCommand(o, base, p)
    requires !(MAX_BUFFER_SIZE < Pos(o) + |data| <= o.cap)
    ensures CanWrite(o, |data|)
    ensures var r := Write(o, data);
            && InCommand(r, base, p + data) && Ok(r) && r.mark.None? && !r.after
            && (r.cap == o.cap || r.cap <= MAX_BUFFER_SIZE)
            && (Pos(o) + |data| > o.cap ==> r.cap <= MAX_BUFFER_SIZE)
            && (Pos(o) + |data| <= MAX_BUFFER_SIZE ==> r == Append(o.(cap := r.cap), data))
  {
    hide InCommand, Write, Stream;
    InCommandPos(o, base, p);
    WriteCases(o, data);
    WriteOk(o, data);
    WriteCapacity(o, data);
    if Pos(o) + |data| <= MAX_BUFFER_SIZE {
      InCommandAppend(o, base, p, data);
      InCommandCap(Append(o, data), base, p + data, Write(o, data).cap);
    } else {
      var o1 := o.(cap := MAX_BUFFER_SIZE);
      StreamOk(o1, data);
      InCommandCap(o, base, p, MAX_BUFFER_SIZE);
      InCommandStream(o1, base, p, data);
    }
  }

  lemma {:induction false} SplitFull(p: seq<byte>, k: nat)
    requires k * 0xffffff <= |p|
    ensures EncodeFrames(Split(p, 0)) == Full(p, k) + EncodeFrames(Split(p[k * 0xffffff..], k))
  {
    hide EncodeFrame, Split, EncodeFrames;
    if k == 0 {
      assert p[0..] == p;
    } else {
      SplitFull(p, k - 1);
      var q := p[(k - 1) * 0xffffff..];
      SplitStep(q, k - 1);
      assert q[..MAX_PAYLOAD] == p[(k - 1) * 0xffffff..k * 0xffffff];
      assert q[MAX_PAYLOAD..] == p[k * 0xffffff..];
    }
  }

  /** Ending the command leaves exactly the reference frames of what was written. */
  lemma InCommandEnd(o: Out, base: seq<byte>, p: seq<byte>, remaining: nat)
    requires InCommand(o, base, p)
    ensures FlushBuffer(o, true, remaining).wire == base + EncodeFrames(Split(p, 0))
  {
    hide EncodeFrame, Split, EncodeFrames, Full;
    var k := o.seqNo + 1;
    SplitFull(p, k);
    EndFrames(o.body, k);
    var last := EncodeFrame(Frame(o.body, k % 256));
    assert base + Full(p, k) + last == base + (Full(p, k) + last);
    if |o.body| == MAX_PAYLOAD {
      var empty := EncodeFrame(Frame([], (k + 1) % 256));
      assert base + Full(p, k) + last + empty == base + (Full(p, k) + (last + empty));
    }
  }

  lemma EndFrames(body: seq<byte>, k: nat)
    requires |body| <= MAX_PAYLOAD
    ensures EncodeFrames(Split(body, k))
            == EncodeFrame(Frame(body, k % 256))
               + (if |body| == MAX_PAYLOAD then EncodeFrame(Frame([], (k + 1) % 256)) else [])
  {
    hide EncodeFrame, Split, EncodeFrames;
    if |body| == MAX_PAYLOAD {
      SplitStep(body, k);
      assert body[..MAX_PAYLOAD] == body && body[MAX_PAYLOAD..] == [];
      SplitLast([], k + 1);
    } else {
      SplitLast(body, k);
    }
  }

  // ---------- whole commands of writes ----------

  /** The writes can be made one after the other. */
  predicate Goes(o: Out, ws: seq<seq<byte>>)
    decreases |ws|
  {
    Ok(o) && (ws == [] || (CanWrite(o, |ws[0]|) && Goes(Write(o, ws[0]), ws[1..])))
  }

  function Writes(o: Out, ws: seq<seq<byte>>): (r: Out)
    requires Goes(o, ws)
    ensures Ok(r)
    decreases |ws|
  {
    if ws == [] then o else Writes(Write(o, ws[0]), ws[1..])
  }

  /** Any write can be made: the buffer has an ordinary size, keeps data beyond a sent mark, or has
      a mark to stop at. */
  predicate Usable(o: Out) { Ok(o) && (o.cap <= MAX_BUFFER_SIZE || o.after || o.mark.Some?) }

  lemma UsableWrite(o: Out, data: seq<byte>)
    requires Usable(o)
    ensures CanWrite(o, |data|) && Usable(Write(o, data))
  {
    hide Write, Stream;
    WriteOk(o, data);
    WriteCases(o, data);
    WriteCapacity(o, data);
    if o.after && o.cap == MAX_BUFFER_SIZE && !Fits(o, data) {
      StreamOk(o, data);
    }
  }

  lemma UsableWrites(o: Out, ws: seq<seq<byte>>)
    requires Usable(o)
    ensures Goes(o, ws) && Usable(Writes(o, ws))
    decreases |ws|
  {
    hide Write;
    if ws != [] {
      UsableWrite(o, ws[0]);
      UsableWrites(Write(o, ws[0]), ws[1..]);
    }
  }

  lemma {:induction false} WritesAppend(o: Out, a: seq<seq<byte>>, b: seq<seq<byte>>)
    ensures Goes(o, a + b) <==> Goes(o, a) && Goes(Writes(o, a), b)
    ensures Goes(o, a + b) ==> Writes(o, a + b) == Writes(Writes(o, a), b)
    decreases |a|
  {
    hide Write;
    if a == [] {
      assert a + b == b;
    } else {
      assert (a + b)[1..] == a[1..] + b;
      if CanWrite(o, |a[0]|) {
        WritesAppend(Write(o, a[0]), a[1..], b);
      }
    }
  }

  lemma WritesOne(o: Out, data: seq<byte>)
    ensures Goes(o, [data]) <==> CanWrite(o, |data|)
    ensures CanWrite(o, |data|) ==> Writes(o, [data]) == Write(o, data)
  {
    hide Write;
    if CanWrite(o, |data|) {
      WriteOk(o, data);
    }
    assert [data][1..] == [];
  }

  /** After `n` bytes of a command, the write that first passes 0xffffff bytes still fits a buffer
      with room for `room` bytes. */
  predicate Overruns(n: nat, ws: seq<seq<byte>>, room: int)
    decreases |ws|
  {
    ws != []
    && if n + |ws[0]| <= 0xffffff then Overruns(n + |ws[0]|, ws[1..], room) else n + |ws[0]| <= room
  }

  lemma {:induction false} NoOverrun(n: nat, ws: seq<seq<byte>>, room: int)
    requires room <= 0xffffff
    ensures !Overruns(n, ws, room)
    decreases |ws|
  {
    if ws != [] {
      NoOverrun(n + |ws[0]|, ws[1..], room);
    }
  }

  lemma {:induction false} WritesWire(o: Out, ws: seq<seq<byte>>)
    requires Goes(o, ws)
    ensures o.wire <= Writes(o, ws).wire
    decreases |ws|
  {
    hide Write;
    if ws != [] {
      WriteWire(o, ws[0]);
      WritesWire(Write(o, ws[0]), ws[1..]);
    }
  }

  /** Nothing has been sent when a later write turns out to be impossible. */
  lemma {:induction false} FailsUnsent(o: Out, a: seq<seq<byte>>, b: seq<seq<byte>>)
    requires Goes(o, a) && !Goes(Writes(o, a), b)
    ensures Writes(o, a).wire == o.wire
    decreases |a|
  {
    hide Write, Stream;
    if a != [] {
      var o1 := Write(o, a[0]);
      if Usable(o1) {
        UsableWrites(o1, a[1..]);
        UsableWrites(Writes(o1, a[1..]), b);
      } else {
        UnsentWrite(o, a[0]);
        FailsUnsent(o1, a[1..], b);
      }
    }
  }

  lemma UnsentWrite(o: Out, data: seq<byte>)
    requires CanWrite(o, |data|) && !Usable(Write(o, data))
    ensures Write(o, data).wire == o.wire
  {
    hide Stream;
    WriteCases(o, data);
    WriteOk(o, data);
    if !o.after && Pos(o) + |data| > Top(o) && o.mark.None? {
      StreamOk(o.(cap := MAX_BUFFER_SIZE), data);
    } else if o.after {
      UsableWrite(o, data);
    }
  }

  /** A sequence of writes with no mark set. */
  lemma {:induction false} InCommandWrites(o: Out, base: seq<byte>, p: seq<byte>, ws: seq<seq<byte>>)
    requires Ok(o) && o.mark.None? && !o.after && InCommand(o, base, p)
    requires !Overruns(|o.body|, ws, o.cap - 4)
    ensures Goes(o, ws)
    ensures var r := Writes(o, ws);
            && InCommand(r, base, p + Flatten(ws)) && r.mark.None? && !r.after
            && (r.cap == o.cap || r.cap <= MAX_BUFFER_SIZE)
            && (Pos(o) + |Flatten(ws)| > MAX_BUFFER_SIZE ==> r.cap <= MAX_BUFFER_SIZE)
    decreases |ws|
  {
    hide Write, InCommand;
    if ws == [] {
      assert p + [] == p;
      InCommandPos(o, base, p);
    } else {
      InCommandWrite(o, base, p, ws[0]);
      var o1 := Write(o, ws[0]);
      if o1.cap <= MAX_BUFFER_SIZE {
        NoOverrun(|o1.body|, ws[1..], o1.cap - 4);
      }
      InCommandWrites(o1, base, p + ws[0], ws[1..]);
      assert p + ws[0] + Flatten(ws[1..]) == p + Flatten(ws);
    }
  }

  /** Writes that overrun fill the buffer as far as they go, and nothing is sent. */
  lemma {:induction false} OverrunWrites(o: Out, ws: seq<seq<byte>>)
    requires Ok(o) && o.mark.None? && !o.after && Pos(o) <= MAX_BUFFER_SIZE
    requires Overruns(|o.body|, ws, o.cap - 4)
    ensures Goes(o, ws) <==> Pos(o) + |Flatten(ws)| <= o.cap
    ensures Goes(o, ws) ==> Writes(o, ws) == Append(o, Flatten(ws))
    ensures Pos(o) + |Flatten(ws)| > MAX_BUFFER_SIZE
    decreases |ws|
  {
    hide Write, Stream;
    assert o.cap > MAX_BUFFER_SIZE by {
      if o.cap <= MAX_BUFFER_SIZE { NoOverrun(|o.body|, ws, o.cap - 4); }
    }
    FitsAtOnce(o, ws[0]);
    var o1 := Write(o, ws[0]);
    assert o.body + ws[0] + Flatten(ws[1..]) == o.body + Flatten(ws);
    if Pos(o1) <= MAX_BUFFER_SIZE {
      OverrunWrites(o1, ws[1..]);
    } else {
      StuckWrites(o1, ws[1..]);
    }
  }

  /** Past the maximum only what fits can be written. */
  lemma {:induction false} StuckWrites(o: Out, ws: seq<seq<byte>>)
    requires Ok(o) && o.mark.None? && !o.after && Pos(o) > MAX_BUFFER_SIZE
    ensures Goes(o, ws) <==> Pos(o) + |Flatten(ws)| <= o.cap
    ensures Goes(o, ws) ==> Writes(o, ws) == Append(o, Flatten(ws))
    decreases |ws|
  {
    hide Write, Stream;
    if ws == [] {
      assert o.body + [] == o.body;
    } else {
      assert o.body + ws[0] + Flatten(ws[1..]) == o.body + Flatten(ws);
      if Pos(o) + |ws[0]| <= o.cap {
        FitsAtOnce(o, ws[0]);
        StuckWrites(Write(o, ws[0]), ws[1..]);
      }
    }
  }

  lemma FitsAtOnce(o: Out, data: seq<byte>)
    requires Ok(o) && Fits(o, data)
    ensures CanWrite(o, |data|) && Write(o, data) == Append(o, data)
    ensures !o.after ==> Ok(Write(o, data))
  {
  }

  lemma InCommandStart(o: Out)
    requires o.seqNo == -1
    ensures InCommand(StartPacket(o), o.wire, [])
  {
    assert o.wire + Full([], 0) == o.wire;
  }

  /** A message of at least one full frame is split into two frames or more. */
  lemma SplitIsLonger(p: seq<byte>)
    requires |p| >= MAX_PAYLOAD
    ensures |EncodeFrames(Split(p, 0))| >= |p| + 8
  {
    hide EncodeFrame, EncodeFrames, Split;
    SplitStep(p, 0);
    SplitCovers(p[MAX_PAYLOAD..], 1);
  }

  lemma {:induction false} SplitCovers(p: seq<byte>, k: nat)
    ensures |EncodeFrames(Split(p, k))| >= |p| + 4
    decreases |p|
  {
    hide EncodeFrame, EncodeFrames, Split;
    if |p| < MAX_PAYLOAD {
      SplitLast(p, k);
    } else {
      SplitStep(p, k);
      SplitCovers(p[MAX_PAYLOAD..], k + 1);
    }
  }

  /** From `startPacket` to `flush` with no mark, writes of any sizes put on the wire exactly the
      reference frames of the bytes written, unless they overrun the buffer an earlier command left:
      then they fail, or leave as one frame that announces another length. */
  lemma OutputFraming(o: Out, ws: seq<seq<byte>>)
    requires Ok(o) && o.mark.None? && !o.after && o.seqNo == -1
    ensures (Goes(StartPacket(o), ws)
             && Flush(Writes(StartPacket(o), ws)).wire == o.wire + EncodeFrames(Split(Flatten(ws), 0)))
            <==> !Overruns(0, ws, o.cap - 4)
  {
    hide InCommand, Writes, Goes, EncodeFrames, Split;
    var o1 := StartPacket(o);
    if Overruns(0, ws, o.cap - 4) {
      OverrunWrites(o1, ws);
      if Goes(o1, ws) {
        SplitIsLonger(Flatten(ws));
        OneFrame(Writes(o1, ws));
      }
    } else {
      InCommandStart(o);
      InCommandWrites(o1, o.wire, [], ws);
      assert [] + Flatten(ws) == Flatten(ws);
      InCommandEnd(Writes(o1, ws), o.wire, Flatten(ws), 0);
    }
  }

  lemma OneFrame(o: Out)
    requires Pos(o) > MAX_BUFFER_SIZE
    ensures |Flush(o).wire| == |o.wire| + 4 + |o.body|
    ensures Flush(o).wire == o.wire + EncodeFrame(Frame(o.body, (o.seqNo + 1) % 256))
  {
  }
}
