/** A command written with no mark, as text commands are, into a buffer of any size: what of it has
    been sent, and what the wire gets in the end. */
module TextCommand {
  import opened Bytes
  import opened Framing
  import opened OutputModel

  /** The bytes `p` of the command so far. They are in the frames sent and in the buffer, the first
      frame announcing `header` bytes; or they are `held`, all of them in a buffer larger than the
      maximum that they have passed, with nothing sent. `room` is what the buffer can take. */
  datatype Sending = Sending(p: seq<byte>, header: nat, room: nat, held: bool)

  /** Frames, the first full, with another length in the header of the first. */
  function Relabel(w: seq<byte>, n: nat): seq<byte> {
    if n == MAX_PAYLOAD || |w| < 3 then w else LE(n, 3) + w[3..]
  }

  /** The buffer holds the rest of `p` behind the full frames sent. */
  predicate Buffered(o: Out, p: seq<byte>) {
    && Pos(o) <= MAX_BUFFER_SIZE && o.seqNo >= -1
    && |p| == (o.seqNo + 1) * 0xffffff + |o.body| && o.body == p[(o.seqNo + 1) * 0xffffff..]
  }

  predicate Sends(o: Out, base: seq<byte>, s: Sending) {
    && Ok(o) && o.mark.None? && !o.after && Room(o.cap) == s.room
    && (o.seqNo == -1 ==> s.header == MAX_PAYLOAD)
    && (s.room > MAX_PAYLOAD ==> o.seqNo == -1)
    && if s.held then Pos(o) > MAX_BUFFER_SIZE && o.seqNo == -1 && o.wire == base && o.body == s.p
       else Buffered(o, s.p) && o.wire == base + Relabel(Full(s.p, o.seqNo + 1), s.header)
  }

  // ---------- what the writes do ----------

  /** `writeBuffer` of a part of `arr`; None when it throws. */
  function NextPart(s: Sending, arr: seq<byte>, off: nat, len: nat): Option<Sending>
    requires off + len <= |arr| && (s.held ==> |s.p| > MAX_PAYLOAD)
  {
    var data := arr[off..off + len];
    if s.held then
      if |s.p| + len <= s.room then Some(s.(p := s.p + data))
      else if off < |s.p| - MAX_PAYLOAD then None
      else
        var again := arr[off - (|s.p| - MAX_PAYLOAD)..off + len];
        Some(Sending(s.p[..MAX_PAYLOAD] + again, MAX_PAYLOAD, MAX_PAYLOAD, false))
    else if s.room > MAX_PAYLOAD && |s.p| + len > MAX_PAYLOAD then
      if |s.p| + len <= s.room then Some(s.(p := s.p + data, held := true))
      else Some(s.(p := s.p + data, room := MAX_PAYLOAD))
    else Some(s.(p := s.p + data))
  }

  /** An escape to `x` that makes room for `worst` bytes. */
  function NextEscape(s: Sending, x: seq<byte>, worst: nat): Sending
    requires |x| <= worst && (s.held ==> |s.p| > MAX_PAYLOAD)
  {
    if |s.p| + worst <= s.room || s.room == MAX_PAYLOAD then
      s.(p := s.p + x, held := s.room > MAX_PAYLOAD && |s.p| + |x| > MAX_PAYLOAD)
    else if s.held then Sending(s.p[..MAX_PAYLOAD] + x, |s.p|, MAX_PAYLOAD, false)
    else s.(p := s.p + x, room := MAX_PAYLOAD)
  }

  /** What is on the wire when the command is ended. */
  function Wire(s: Sending): seq<byte> {
    if s.held then EncodeFrame(Frame(s.p, 0)) else Relabel(EncodeFrames(Split(s.p, 0)), s.header)
  }

  // ---------- headers ----------

  lemma RelabelAppend(a: seq<byte>, b: seq<byte>, n: nat)
    requires |a| >= 3
    ensures Relabel(a + b, n) == Relabel(a, n) + b
  {
    hide LE;
    assert (a + b)[3..] == a[3..] + b;
    assert LE(n, 3) + (a[3..] + b) == LE(n, 3) + a[3..] + b;
  }

  lemma FullLength(p: seq<byte>, k: nat)
    requires 0 < k && k * 0xffffff <= |p|
    ensures |Full(p, k)| >= 4
  {
  }

  // ---------- operations do not look at what was sent ----------

  lemma FlushElsewhere(o: Out, w: seq<byte>, commandEnd: bool, remaining: nat)
    ensures var r := FlushBuffer(o, commandEnd, remaining);
            o.wire <= r.wire && FlushBuffer(o.(wire := w), commandEnd, remaining) == r.(wire := w + r.wire[|o.wire|..])
  {
    hide EncodeFrame, MinCapacity;
    var a := EncodeFrame(Frame(o.body, (o.seqNo + 1) % 256));
    var b := EncodeFrame(Frame([], (o.seqNo + 1 + 1) % 256));
    assert (o.wire + a)[|o.wire|..] == a;
    assert (o.wire + a + b)[|o.wire|..] == a + b && w + a + b == w + (a + b);
  }

  lemma {:induction false} StreamElsewhere(o: Out, w: seq<byte>, data: seq<byte>)
    requires Pos(o) <= MAX_BUFFER_SIZE
    ensures var r := Stream(o, data);
            o.wire <= r.wire && Stream(o.(wire := w), data) == r.(wire := w + r.wire[|o.wire|..])
    decreases |data|, |o.body|
  {
    hide FlushBuffer, Stream;
    var fill := Min(MAX_BUFFER_SIZE - Pos(o), |data|);
    StreamStep(o, data, fill);
    StreamStep(o.(wire := w), data, fill);
    var o1 := Append(o, data[..fill]);
    assert Append(o.(wire := w), data[..fill]) == o1.(wire := w);
    if fill < |data| {
      var f := FlushBuffer(o1, false, |data| - fill);
      FlushElsewhere(o1, w, false, |data| - fill);
      FlushEmpties(o1, false, |data| - fill);
      var w1 := w + f.wire[|o.wire|..];
      StreamElsewhere(f, w1, data[fill..]);
      var r := Stream(f, data[fill..]);
      TwoTails(o.wire, f.wire, r.wire, w);
    } else {
      assert w + o.wire[|o.wire|..] == w;
    }
  }

  lemma FlushEmpties(o: Out, commandEnd: bool, remaining: nat)
    ensures FlushBuffer(o, commandEnd, remaining).body == []
  {
  }

  lemma TwoTails(a: seq<byte>, b: seq<byte>, c: seq<byte>, w: seq<byte>)
    requires a <= b <= c
    ensures w + b[|a|..] + c[|b|..] == w + c[|a|..]
  {
    assert c[|a|..] == c[|a|..|b|] + c[|b|..];
    assert c[|a|..|b|] == b[|a|..];
  }

  // ---------- each step ----------

  /** The frames that a step adds are the same whatever the first one announces. */
  lemma Rewired(base: seq<byte>, s: Sending, k: nat, q: seq<byte>, k': nat, t: seq<byte>)
    requires k * 0xffffff <= |s.p| && k' * 0xffffff <= |q|
    requires k == 0 ==> s.header == MAX_PAYLOAD
    requires base + Full(s.p, k) + t == base + Full(q, k')
    ensures base + Relabel(Full(s.p, k), s.header) + t == base + Relabel(Full(q, k'), s.header)
  {
    hide Full;
    SameTail(base, s, k, t, Full(q, k'));
  }

  lemma SameTail(base: seq<byte>, s: Sending, k: nat, t: seq<byte>, w: seq<byte>)
    requires k * 0xffffff <= |s.p| && (k == 0 ==> s.header == MAX_PAYLOAD)
    requires base + Full(s.p, k) + t == base + w
    ensures base + Relabel(Full(s.p, k), s.header) + t == base + Relabel(w, s.header)
  {
    hide Full, Relabel;
    var a := Full(s.p, k);
    assert a + t == w by {
      assert base + a + t == base + (a + t);
      assert (base + (a + t))[|base|..] == a + t && (base + w)[|base|..] == w;
    }
    if s.header == MAX_PAYLOAD {
      NotRelabelled(a);
      NotRelabelled(w);
    } else {
      FullLength(s.p, k);
      RelabelAppend(a, t, s.header);
      assert base + Relabel(a, s.header) + t == base + (Relabel(a, s.header) + t);
    }
  }

  lemma NotRelabelled(w: seq<byte>)
    ensures Relabel(w, MAX_PAYLOAD) == w
  {
  }

  lemma NoFrames(p: seq<byte>)
    ensures Full(p, 0) == [] && Relabel([], MAX_PAYLOAD) == []
  {
  }

  /** The command with the header it should have. */
  ghost function Proper(o: Out, base: seq<byte>, s: Sending): Out
    requires Buffered(o, s.p)
  {
    o.(wire := base + Full(s.p, o.seqNo + 1))
  }

  lemma ProperInCommand(o: Out, base: seq<byte>, s: Sending)
    requires Buffered(o, s.p)
    ensures InCommand(Proper(o, base, s), base, s.p)
  {
  }

  lemma InCommandBuffered(o: Out, base: seq<byte>, p: seq<byte>)
    requires InCommand(o, base, p)
    ensures Buffered(o, p) && o.wire == base + Full(p, o.seqNo + 1)
  {
  }

  lemma SendsAppend(o: Out, base: seq<byte>, s: Sending, x: seq<byte>)
    requires Sends(o, base, s) && !s.held && Pos(o) + |x| <= Min(o.cap, MAX_BUFFER_SIZE)
    ensures Sends(Append(o, x), base, s.(p := s.p + x))
  {
    hide Full, Relabel;
    FullPrefix(s.p, x, o.seqNo + 1);
  }

  lemma SendsFlush(o: Out, base: seq<byte>, s: Sending, remaining: nat)
    requires Sends(o, base, s) && !s.held && Pos(o) == MAX_BUFFER_SIZE
    ensures Sends(FlushBuffer(o, false, remaining), base, s.(room := MAX_PAYLOAD))
  {
    hide InCommand, Full, Relabel;
    ProperInCommand(o, base, s);
    InCommandFlush(Proper(o, base, s), base, s.p, remaining);
    FlushElsewhere(Proper(o, base, s), o.wire, false, remaining);
    var r := FlushBuffer(Proper(o, base, s), false, remaining);
    InCommandBuffered(r, base, s.p);
    Rewired(base, s, o.seqNo + 1, s.p, r.seqNo + 1, r.wire[|Proper(o, base, s).wire|..]);
  }

  lemma SendsCap(o: Out, base: seq<byte>, s: Sending, cap: nat)
    requires Sends(o, base, s) && !s.held && Pos(o) <= cap <= MAX_BUFFER_SIZE
    ensures Sends(o.(cap := cap), base, s.(room := MAX_PAYLOAD))
  {
  }

  lemma SendsStream(o: Out, base: seq<byte>, s: Sending, data: seq<byte>)
    requires Sends(o, base, s) && !s.held && o.cap == MAX_BUFFER_SIZE
    ensures Sends(Stream(o, data), base, s.(p := s.p + data))
  {
    hide InCommand, Full, Relabel, Stream;
    ProperInCommand(o, base, s);
    var o' := Proper(o, base, s);
    InCommandStream(o', base, s.p, data);
    StreamElsewhere(o', o.wire, data);
    StreamOk(o, data);
    StreamNumbers(o, data);
    var r := Stream(o', data);
    InCommandBuffered(r, base, s.p + data);
    Rewired(base, s, o.seqNo + 1, s.p + data, r.seqNo + 1, r.wire[|o'.wire|..]);
  }

  lemma {:induction false} StreamNumbers(o: Out, data: seq<byte>)
    requires Pos(o) <= MAX_BUFFER_SIZE && o.seqNo >= -1
    ensures Stream(o, data).seqNo >= o.seqNo
    decreases |data|, |o.body|
  {
    hide EncodeFrame;
    var fill := Min(MAX_BUFFER_SIZE - Pos(o), |data|);
    if fill < |data| {
      StreamNumbers(FlushBuffer(Append(o, data[..fill]), false, |data| - fill), data[fill..]);
    }
  }

  /** In an oversized buffer everything stands in place. */
  lemma SendsHold(o: Out, base: seq<byte>, s: Sending, x: seq<byte>)
    requires Sends(o, base, s) && s.room > MAX_PAYLOAD && MAX_PAYLOAD < |s.p| + |x| && Pos(o) + |x| <= o.cap
    ensures Sends(Append(o, x), base, s.(p := s.p + x, held := true))
  {
    Unsent(o, base, s);
  }

  /** Nothing has been sent from an oversized buffer. */
  lemma Unsent(o: Out, base: seq<byte>, s: Sending)
    requires Sends(o, base, s) && s.room > MAX_PAYLOAD
    ensures o.seqNo == -1 && o.body == s.p && o.wire == base && s.header == MAX_PAYLOAD && o.cap == s.room + 4
  {
    NoFrames(s.p);
    assert base + [] == base;
  }

  lemma SendsClipped(o: Out, base: seq<byte>, s: Sending)
    requires Sends(o, base, s) && s.held
    ensures Sends(Clipped(o), base, Sending(s.p[..MAX_PAYLOAD], MAX_PAYLOAD, MAX_PAYLOAD, false))
  {
    NoFrames(s.p[..MAX_PAYLOAD]);
    assert base + [] == base;
  }

  lemma SendsCut(o: Out, base: seq<byte>, s: Sending, r: Out)
    requires Sends(o, base, s) && s.held
    requires Ok(r) && r.mark.None? && !r.after && r.cap <= MAX_BUFFER_SIZE && r.seqNo == 0 && r.body == []
    requires r.wire == base + CutFrame(o)
    ensures Sends(r, base, Sending(s.p[..MAX_PAYLOAD], |s.p|, MAX_PAYLOAD, false))
  {
    hide LE;
    var p := s.p[..MAX_PAYLOAD];
    OneFull(p);
    var f := EncodeFrame(Frame(p, 0));
    assert f[3..] == [0] + p;
    assert Relabel(f, |s.p|) == LE(|s.p|, 3) + ([0] + p) == CutFrame(o);
  }

  lemma OneFull(p: seq<byte>)
    requires |p| == MAX_PAYLOAD
    ensures Full(p, 1) == EncodeFrame(Frame(p, 0))
  {
    hide EncodeFrame;
    assert p[0..0xffffff] == p;
    assert Full(p, 1) == Full(p, 0) + EncodeFrame(FullFrame(p, 0)) == EncodeFrame(FullFrame(p, 0));
  }

  /** `writeBuffer` from any buffer. */
  lemma PartSends(o: Out, base: seq<byte>, s: Sending, arr: seq<byte>, off: nat, len: nat)
    requires Sends(o, base, s) && off + len <= |arr|
    ensures s.held ==> |s.p| > MAX_PAYLOAD
    ensures var r := NextPart(s, arr, off, len);
            && (r.None? <==> Stuck(o, len) && off < Pos(o) - MAX_BUFFER_SIZE)
            && (r.None? ==> o.wire == base)
            && (CanWrite(o, len) ==> Sends(Write(o, arr[off..off + len]), base, r.value))
            && (Stuck(o, len) && r.Some? ==>
                  Sends(Stream(Clipped(o), arr[off - (Pos(o) - MAX_BUFFER_SIZE)..off + len]), base, r.value))
  {
    hide Sends, Write, Stream, Buffered;
    SendsFacts(o, base, s);
    if CanWrite(o, len) {
      WriteSends(o, base, s, arr, off, len);
    } else {
      StuckSends(o, base, s, arr, off, len);
    }
  }

  lemma SendsFacts(o: Out, base: seq<byte>, s: Sending)
    requires Sends(o, base, s)
    ensures Ok(o) && o.mark.None? && !o.after && Room(o.cap) == s.room
    ensures s.held ==> |s.p| > MAX_PAYLOAD && s.room > MAX_PAYLOAD
    ensures s.held <==> Pos(o) > MAX_BUFFER_SIZE
    ensures s.room > MAX_PAYLOAD ==>
              o.body == s.p && o.wire == base && o.cap == s.room + 4 && o.seqNo == -1 && s.header == MAX_PAYLOAD
  {
    if s.room > MAX_PAYLOAD {
      Unsent(o, base, s);
    }
  }

  lemma StuckSends(o: Out, base: seq<byte>, s: Sending, arr: seq<byte>, off: nat, len: nat)
    requires Sends(o, base, s) && off + len <= |arr| && Stuck(o, len)
    ensures s.held && |s.p| > MAX_PAYLOAD && o.wire == base
    ensures var r, lost := NextPart(s, arr, off, len), Pos(o) - MAX_BUFFER_SIZE;
            && (r.None? <==> off < lost)
            && (r.Some? ==> Sends(Stream(Clipped(o), arr[off - lost..off + len]), base, r.value))
  {
    hide Sends, Stream, Buffered;
    SendsFacts(o, base, s);
    var lost := Pos(o) - MAX_BUFFER_SIZE;
    if off >= lost {
      SendsClipped(o, base, s);
      SendsStream(Clipped(o), base, Sending(s.p[..MAX_PAYLOAD], MAX_PAYLOAD, MAX_PAYLOAD, false),
                  arr[off - lost..off + len]);
    }
  }

  lemma WriteSends(o: Out, base: seq<byte>, s: Sending, arr: seq<byte>, off: nat, len: nat)
    requires Sends(o, base, s) && off + len <= |arr| && CanWrite(o, len)
    ensures s.held ==> |s.p| > MAX_PAYLOAD
    ensures var r := NextPart(s, arr, off, len);
            r.Some? && Sends(Write(o, arr[off..off + len]), base, r.value)
  {
    hide Sends, Write, Stream, Buffered, Append;
    SendsFacts(o, base, s);
    var data := arr[off..off + len];
    WriteCases(o, data);
    if Pos(o) + len > Top(o) {
      SendsCap(o, base, s, MAX_BUFFER_SIZE);
      SendsStream(o.(cap := MAX_BUFFER_SIZE), base, s.(room := MAX_PAYLOAD), data);
    } else if o.cap > MAX_BUFFER_SIZE {
      FitsAtOnce(o, data);
      if Pos(o) + len > MAX_BUFFER_SIZE {
        SendsHold(o, base, s, data);
      } else {
        SendsAppend(o, base, s, data);
      }
    } else {
      WriteGrown(o, base, s, data);
    }
  }

  lemma WriteGrown(o: Out, base: seq<byte>, s: Sending, data: seq<byte>)
    requires Sends(o, base, s) && o.cap <= MAX_BUFFER_SIZE && Pos(o) + |data| <= MAX_BUFFER_SIZE
    ensures CanWrite(o, |data|) && Sends(Write(o, data), base, s.(p := s.p + data))
  {
    hide Sends, Write, Stream, Buffered;
    SendsFacts(o, base, s);
    WriteCases(o, data);
    WriteOk(o, data);
    WriteCapacity(o, data);
    var cap := Write(o, data).cap;
    SendsCap(o, base, s, cap);
    SendsAppend(o.(cap := cap), base, s.(room := MAX_PAYLOAD), data);
  }

  /** An escape for whose worst case there is room stands in the buffer as it was. */
  lemma KeptSends(o: Out, base: seq<byte>, s: Sending, x: seq<byte>, worst: nat)
    requires Sends(o, base, s) && |x| <= worst <= o.cap - Pos(o)
    ensures s.held ==> |s.p| > MAX_PAYLOAD
    ensures Sends(Append(o, x), base, NextEscape(s, x, worst))
  {
    hide Sends, Buffered, Append;
    SendsFacts(o, base, s);
    if s.room > MAX_PAYLOAD && |s.p| + |x| > MAX_PAYLOAD {
      SendsHold(o, base, s, x);
    } else {
      SendsAppend(o, base, s, x);
    }
  }

  // ---------- the end ----------

  lemma SendsEnd(o: Out, base: seq<byte>, s: Sending)
    requires Sends(o, base, s)
    ensures Flush(o).wire == base + Wire(s)
  {
    hide EncodeFrame, Split, EncodeFrames, Full, Relabel, InCommand;
    if s.held {
      OneFrame(o);
    } else {
      var o' := Proper(o, base, s);
      ProperInCommand(o, base, s);
      InCommandEnd(o', base, s.p, 0);
      FlushElsewhere(o', o.wire, true, 0);
      var t := FlushBuffer(o', true, 0).wire[|o'.wire|..];
      SameTail(base, s, o.seqNo + 1, t, EncodeFrames(Split(s.p, 0)));
    }
  }

  // ---------- whole commands ----------

  /** `c` are the bytes the command should have; the buffer had room for `room` of them when it
      started. In an ordinary buffer, or if they fit one frame, nothing can have happened to them. */
  predicate Carries(s: Sending, room: nat, c: seq<byte>) {
    && (s.held ==> s.p == c && |c| > MAX_PAYLOAD)
    && (s.header != MAX_PAYLOAD ==> |s.p| < |c|)
    && (s.room > MAX_PAYLOAD ==> s.p == c && s.room == room && s.header == MAX_PAYLOAD)
    && (room <= MAX_PAYLOAD || |c| <= MAX_PAYLOAD ==> Intact(s, c))
  }

  /** The command is in frames, as it should be. */
  predicate Intact(s: Sending, c: seq<byte>) { !s.held && s.header == MAX_PAYLOAD && s.p == c }

  lemma Fresh(o: Out)
    requires Ok(o) && o.mark.None? && !o.after && o.seqNo == -1
    ensures var s := Sending([], MAX_PAYLOAD, Room(o.cap), false);
            Sends(StartPacket(o), o.wire, s) && Carries(s, Room(o.cap), [])
  {
    NoFrames([]);
    assert o.wire + [] == o.wire;
  }

  lemma PartCarries(s: Sending, room: nat, c: seq<byte>, arr: seq<byte>, off: nat, len: nat)
    requires Carries(s, room, c) && off + len <= |arr| && s.room >= MAX_PAYLOAD
    ensures s.held ==> |s.p| > MAX_PAYLOAD
    ensures var r := NextPart(s, arr, off, len);
            if r.None? then room > MAX_PAYLOAD && |c| > MAX_PAYLOAD
            else Carries(r.value, room, c + arr[off..off + len]) && r.value.room >= MAX_PAYLOAD
  {
  }

  lemma EscapeCarries(s: Sending, room: nat, c: seq<byte>, x: seq<byte>, worst: nat)
    requires Carries(s, room, c) && |x| <= worst && s.room >= MAX_PAYLOAD
    ensures s.held ==> |s.p| > MAX_PAYLOAD
    ensures var r := NextEscape(s, x, worst);
            Carries(r, room, c + x) && r.room >= MAX_PAYLOAD
  {
  }

  lemma {:induction false} SplitLength(p: seq<byte>, k: nat)
    ensures |EncodeFrames(Split(p, k))| == |p| + 4 * (|p| / 0xffffff + 1)
    decreases |p|
  {
    hide EncodeFrame, EncodeFrames, Split;
    if |p| < MAX_PAYLOAD {
      SplitLast(p, k);
    } else {
      SplitStep(p, k);
      SplitLength(p[MAX_PAYLOAD..], k + 1);
    }
  }

  /** The wire gets the frames of the command exactly when it is intact. */
  lemma WireExactly(s: Sending, room: nat, c: seq<byte>)
    requires Carries(s, room, c)
    ensures Wire(s) == EncodeFrames(Split(c, 0)) <==> Intact(s, c)
    ensures room <= MAX_PAYLOAD || |c| <= MAX_PAYLOAD ==> Intact(s, c)
  {
    hide EncodeFrame, EncodeFrames, Split;
    if s.held {
      SplitIsLonger(c);
    } else if s.header != MAX_PAYLOAD {
      SplitLength(s.p, 0);
      SplitLength(c, 0);
      SameLength(EncodeFrames(Split(s.p, 0)), s.header);
    } else {
      NotRelabelled(EncodeFrames(Split(s.p, 0)));
      if Wire(s) == EncodeFrames(Split(c, 0)) {
        assert EncodeFrames(Split(s.p, 0)) + [] == EncodeFrames(Split(c, 0)) + [];
        SplitCancel(s.p, c, 0, [], []);
      }
    }
  }

  lemma SameLength(w: seq<byte>, n: nat)
    ensures |Relabel(w, n)| == |w|
  {
  }
}
