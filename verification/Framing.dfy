/** The packet layer of the client/server protocol: a message is cut into frames, each a
    three-byte little-endian length, a sequence byte and a body. A body of 0xffffff bytes says
    that the message goes on in the next frame. This module is the reference for both streams. */
module Framing {
  import opened Bytes

  const MAX_PAYLOAD: nat := 0xffffff

  datatype Frame = Frame(payload: seq<byte>, seqNo: byte)

  datatype Message = Message(payload: seq<byte>, seqNo: byte)

  function EncodeFrame(f: Frame): (s: seq<byte>)
    ensures |s| == 4 + |f.payload|
  {
    LE(|f.payload|, 3) + [f.seqNo] + f.payload
  }

  function EncodeFrames(fs: seq<Frame>): seq<byte> {
    if fs == [] then [] else EncodeFrame(fs[0]) + EncodeFrames(fs[1..])
  }

  /** Length announced by the header that starts `s`. */
  function FrameLen(s: seq<byte>): (n: nat)
    requires |s| >= 3
    ensures n <= MAX_PAYLOAD
  {
    s[0] as int + 256 * s[1] as int + 65536 * s[2] as int
  }

  predicate Complete(s: seq<byte>) {
    |s| >= 4 && |s| >= 4 + FrameLen(s)
  }

  function FirstFrame(s: seq<byte>): Frame
    requires Complete(s)
  {
    Frame(s[4..4 + FrameLen(s)], s[3])
  }

  function AfterFrame(s: seq<byte>): (r: seq<byte>)
    requires Complete(s)
    ensures |r| < |s|
  {
    s[4 + FrameLen(s)..]
  }

  /** Outcome of reading a stream: the messages it completes, the body of the message still
      being merged (if any), and the bytes of an unfinished frame. */
  datatype Scan = Scan(msgs: seq<Message>, open: Option<seq<byte>>, rest: seq<byte>)

  function Merged(open: Option<seq<byte>>, body: seq<byte>): seq<byte> {
    match open
    case None => body
    case Some(acc) => acc + body
  }

  /** Reference reader. */
  function ScanBytes(open: Option<seq<byte>>, s: seq<byte>): Scan
    decreases |s|
  {
    if !Complete(s) then Scan([], open, s)
    else
      var f := FirstFrame(s);
      var r := ScanBytes(NextOpen(open, f), AfterFrame(s));
      r.(msgs := Emitted(open, f) + r.msgs)
  }

  /** What stays open after frame `f`, and the message that `f` completes, if any. */
  function NextOpen(open: Option<seq<byte>>, f: Frame): Option<seq<byte>> {
    if |f.payload| == MAX_PAYLOAD then Some(Merged(open, f.payload)) else None
  }

  function Emitted(open: Option<seq<byte>>, f: Frame): seq<Message> {
    if |f.payload| == MAX_PAYLOAD then [] else [Message(Merged(open, f.payload), f.seqNo)]
  }

  /** A frame of length zero that does not continue a full frame. */
  predicate HasStrayEmptyFrame(open: Option<seq<byte>>, s: seq<byte>)
    decreases |s|
  {
    Complete(s) &&
    (|| (FrameLen(s) == 0 && open.None?)
     || HasStrayEmptyFrame(NextOpen(open, FirstFrame(s)), AfterFrame(s)))
  }

  /** Reference writer: full frames, then a last one that is shorter and possibly empty. */
  function Split(payload: seq<byte>, seqNo: nat): (fs: seq<Frame>)
    ensures |fs| >= 1
  {
    if |payload| < MAX_PAYLOAD then [Frame(payload, seqNo % 256)]
    else [Frame(payload[..MAX_PAYLOAD], seqNo % 256)] + Split(payload[MAX_PAYLOAD..], seqNo + 1)
  }

  /** The wire of a list of messages, each split into frames numbered from 0. */
  function EncodeAll(payloads: seq<seq<byte>>): seq<byte> {
    if payloads == [] then [] else EncodeFrames(Split(payloads[0], 0)) + EncodeAll(payloads[1..])
  }

  /** Sequence byte of the last frame of a split message of `n` bytes. */
  function LastSeq(n: nat, seqNo: nat): byte {
    (seqNo + n / 0xffffff) % 256
  }

  // ---------- lemmas ----------

  lemma FrameHeader(f: Frame, tail: seq<byte>)
    requires |f.payload| <= MAX_PAYLOAD
    ensures var s := EncodeFrame(f) + tail;
            Complete(s) && FirstFrame(s) == f && AfterFrame(s) == tail
  {
    var s := EncodeFrame(f) + tail;
    var n := |f.payload|;
    assert LE(n, 3) == [n % 256, n / 256 % 256, n / 256 / 256 % 256] by {
      assert LE(n / 256 / 256, 1) == [n / 256 / 256 % 256];
      assert LE(n / 256, 2) == [n / 256 % 256] + LE(n / 256 / 256, 1);
    }
    assert s[0] == n % 256 && s[1] == n / 256 % 256 && s[2] == n / 256 / 256 % 256;
    assert FrameLen(s) == n;
    assert s[4..4 + n] == f.payload;
  }

  lemma CompleteAppend(s: seq<byte>, t: seq<byte>)
    requires Complete(s)
    ensures Complete(s + t) && FirstFrame(s + t) == FirstFrame(s)
    ensures FrameLen(s + t) == FrameLen(s) && AfterFrame(s + t) == AfterFrame(s) + t
  {
    assert (s + t)[4..4 + FrameLen(s)] == s[4..4 + FrameLen(s)];
  }

  lemma ScanStep(open: Option<seq<byte>>, s: seq<byte>)
    requires Complete(s)
    ensures var f := FirstFrame(s);
            var r := ScanBytes(NextOpen(open, f), AfterFrame(s));
            ScanBytes(open, s) == Scan(Emitted(open, f) + r.msgs, r.open, r.rest)
  {
  }

  /** Reading a stream in two parts, keeping what the first leaves over, is reading it whole. */
  lemma {:induction false} ScanAppend(open: Option<seq<byte>>, s: seq<byte>, t: seq<byte>)
    ensures var a := ScanBytes(open, s);
            var b := ScanBytes(a.open, a.rest + t);
            ScanBytes(open, s + t) == Scan(a.msgs + b.msgs, b.open, b.rest)
    decreases |s|
  {
    hide Complete, FirstFrame, AfterFrame, NextOpen, Emitted, FrameLen;
    if Complete(s) {
      CompleteAppend(s, t);
      var f := FirstFrame(s);
      var next := NextOpen(open, f);
      ScanAppend(next, AfterFrame(s), t);
      ScanStep(open, s);
      ScanStep(open, s + t);
      var a := ScanBytes(next, AfterFrame(s));
      var b := ScanBytes(a.open, a.rest + t);
      assert Emitted(open, f) + a.msgs + b.msgs == Emitted(open, f) + (a.msgs + b.msgs);
    }
  }

  lemma {:induction false} StrayAppend(open: Option<seq<byte>>, s: seq<byte>, t: seq<byte>)
    ensures var a := ScanBytes(open, s);
            HasStrayEmptyFrame(open, s + t)
            <==> HasStrayEmptyFrame(open, s) || HasStrayEmptyFrame(a.open, a.rest + t)
    decreases |s|
  {
    if Complete(s) {
      CompleteAppend(s, t);
      StrayAppend(NextOpen(open, FirstFrame(s)), AfterFrame(s), t);
    }
  }

  function Payloads(fs: seq<Frame>): (ps: seq<seq<byte>>)
    ensures |ps| == |fs|
  {
    seq(|fs|, i requires 0 <= i < |fs| => fs[i].payload)
  }

  /** Every frame of a split but the last is full, the last is shorter, the sequence byte grows
      by one modulo 256, and the bodies concatenate to the message. */
  lemma {:induction false} SplitShape(payload: seq<byte>, seqNo: nat)
    ensures var fs := Split(payload, seqNo);
            && |fs| == |payload| / 0xffffff + 1
            && |fs[|fs| - 1].payload| < MAX_PAYLOAD
            && (forall i :: 0 <= i < |fs| - 1 ==> |fs[i].payload| == MAX_PAYLOAD)
            && (forall i :: 0 <= i < |fs| ==> fs[i].seqNo == (seqNo + i) % 256)
            && Flatten(Payloads(fs)) == payload
    decreases |payload|
  {
    if |payload| < MAX_PAYLOAD {
      assert Payloads(Split(payload, seqNo)) == [payload] && Flatten([payload]) == payload;
    } else {
      var tail := payload[MAX_PAYLOAD..];
      SplitShape(tail, seqNo + 1);
      var fs, gs := Split(payload, seqNo), Split(tail, seqNo + 1);
      assert fs == [fs[0]] + gs;
      assert Payloads(fs)[0] == payload[..MAX_PAYLOAD] && Payloads(fs)[1..] == Payloads(gs);
      assert payload == payload[..MAX_PAYLOAD] + tail;
    }
  }

  lemma ScanFrame(open: Option<seq<byte>>, f: Frame, tail: seq<byte>)
    requires |f.payload| <= MAX_PAYLOAD
    ensures var r := ScanBytes(NextOpen(open, f), tail);
            ScanBytes(open, EncodeFrame(f) + tail) == Scan(Emitted(open, f) + r.msgs, r.open, r.rest)
    ensures HasStrayEmptyFrame(open, EncodeFrame(f) + tail)
            <==> (f.payload == [] && open.None?) || HasStrayEmptyFrame(NextOpen(open, f), tail)
  {
    FrameHeader(f, tail);
    ScanStep(open, EncodeFrame(f) + tail);
  }

  lemma SplitStep(payload: seq<byte>, seqNo: nat)
    requires |payload| >= MAX_PAYLOAD
    ensures EncodeFrames(Split(payload, seqNo))
            == EncodeFrame(Frame(payload[..MAX_PAYLOAD], seqNo % 256))
               + EncodeFrames(Split(payload[MAX_PAYLOAD..], seqNo + 1))
  {
    var f := Frame(payload[..MAX_PAYLOAD], seqNo % 256);
    var more := Split(payload[MAX_PAYLOAD..], seqNo + 1);
    assert ([f] + more)[1..] == more;
  }

  lemma SplitLast(payload: seq<byte>, seqNo: nat)
    requires |payload| < MAX_PAYLOAD
    ensures EncodeFrames(Split(payload, seqNo)) == EncodeFrame(Frame(payload, seqNo % 256))
  {
    var f := Frame(payload, seqNo % 256);
    assert EncodeFrames([f]) == EncodeFrame(f) + EncodeFrames([]);
  }

  /** Reading back a split message gives that message, with the sequence byte of its last frame. */
  lemma {:induction false} ScanSplit(open: Option<seq<byte>>, payload: seq<byte>, seqNo: nat, tail: seq<byte>)
    ensures var r := ScanBytes(None, tail);
            ScanBytes(open, EncodeFrames(Split(payload, seqNo)) + tail)
            == Scan([Message(Merged(open, payload), LastSeq(|payload|, seqNo))] + r.msgs, r.open, r.rest)
    decreases |payload|
  {
    if |payload| < MAX_PAYLOAD {
      SplitLast(payload, seqNo);
      ScanFrame(open, Frame(payload, seqNo % 256), tail);
    } else {
      var f, more, rest := SplitTail(payload, seqNo, tail);
      ScanFrame(open, f, rest);
      ScanSplit(NextOpen(open, f), more, seqNo + 1, tail);
      MergedTwice(open, f.payload, more);
    }
  }

  lemma SplitTail(payload: seq<byte>, seqNo: nat, tail: seq<byte>)
    returns (f: Frame, more: seq<byte>, rest: seq<byte>)
    requires |payload| >= MAX_PAYLOAD
    ensures f == Frame(payload[..MAX_PAYLOAD], seqNo % 256) && |f.payload| == MAX_PAYLOAD
    ensures more == payload[MAX_PAYLOAD..] && payload == f.payload + more
    ensures rest == EncodeFrames(Split(more, seqNo + 1)) + tail
    ensures EncodeFrames(Split(payload, seqNo)) + tail == EncodeFrame(f) + rest
    ensures LastSeq(|payload|, seqNo) == LastSeq(|more|, seqNo + 1)
  {
    SplitStep(payload, seqNo);
    f := Frame(payload[..MAX_PAYLOAD], seqNo % 256);
    more := payload[MAX_PAYLOAD..];
    rest := EncodeFrames(Split(more, seqNo + 1)) + tail;
  }

  lemma {:induction false} SplitNoStray(open: Option<seq<byte>>, payload: seq<byte>, seqNo: nat, tail: seq<byte>)
    requires payload != [] || open.Some?
    ensures HasStrayEmptyFrame(open, EncodeFrames(Split(payload, seqNo)) + tail) <==> HasStrayEmptyFrame(None, tail)
    decreases |payload|
  {
    if |payload| < MAX_PAYLOAD {
      SplitLast(payload, seqNo);
      ScanFrame(open, Frame(payload, seqNo % 256), tail);
    } else {
      var f, more, rest := SplitTail(payload, seqNo, tail);
      ScanFrame(open, f, rest);
      SplitNoStray(NextOpen(open, f), more, seqNo + 1, tail);
    }
  }

  lemma MergedTwice(open: Option<seq<byte>>, a: seq<byte>, b: seq<byte>)
    ensures Merged(Some(Merged(open, a)), b) == Merged(open, a + b)
  {
    if open.Some? {
      assert open.value + a + b == open.value + (a + b);
    }
  }

  lemma EncodeAllCons(p: seq<byte>, ps: seq<seq<byte>>)
    ensures EncodeAll([p] + ps) == EncodeFrames(Split(p, 0)) + EncodeAll(ps)
  {
    assert ([p] + ps)[1..] == ps;
  }

  /** Split messages can be told apart: what follows the first one is determined by the wire. */
  lemma {:induction false} SplitCancel(p: seq<byte>, q: seq<byte>, k: nat, a: seq<byte>, b: seq<byte>)
    requires EncodeFrames(Split(p, k)) + a == EncodeFrames(Split(q, k)) + b
    ensures p == q && a == b
    decreases |p|
  {
    hide *;
    var f, fa := FirstOfSplit(p, k, a);
    var g, gb := FirstOfSplit(q, k, b);
    FrameHeader(f, fa);
    FrameHeader(g, gb);
    if |p| >= 0xffffff && |q| >= 0xffffff {
      SplitCancel(p[0xffffff..], q[0xffffff..], k + 1, a, b);
      assert p == p[..0xffffff] + p[0xffffff..];
      assert q == q[..0xffffff] + q[0xffffff..];
    }
  }

  /** The first frame of a split message and what follows it. */
  lemma FirstOfSplit(p: seq<byte>, k: nat, tail: seq<byte>) returns (f: Frame, rest: seq<byte>)
    ensures EncodeFrames(Split(p, k)) + tail == EncodeFrame(f) + rest
    ensures |f.payload| <= MAX_PAYLOAD && (p != [] ==> f.payload != [] && f.payload[0] == p[0])
    ensures |p| < 0xffffff ==> f.payload == p && rest == tail
    ensures |p| >= 0xffffff ==>
              f.payload == p[..0xffffff] && rest == EncodeFrames(Split(p[0xffffff..], k + 1)) + tail
  {
    hide EncodeFrame, EncodeFrames, Split;
    if |p| < 0xffffff {
      SplitLast(p, k);
      f, rest := Frame(p, k % 256), tail;
    } else {
      SplitStep(p, k);
      f, rest := Frame(p[..MAX_PAYLOAD], k % 256), EncodeFrames(Split(p[MAX_PAYLOAD..], k + 1)) + tail;
      assert EncodeFrame(f) + EncodeFrames(Split(p[MAX_PAYLOAD..], k + 1)) + tail == EncodeFrame(f) + rest;
    }
  }

  /** A wire on which, after some messages, a frame starts with a byte that no message starts with
      is not the wire of messages. */
  lemma {:induction false} ForeignFrame(qs: seq<seq<byte>>, x: Frame, rest: seq<byte>, ps: seq<seq<byte>>, first: byte)
    requires x.payload != [] && |x.payload| <= MAX_PAYLOAD && x.payload[0] != first
    requires forall p :: p in ps ==> p != [] && p[0] == first
    ensures EncodeAll(qs) + (EncodeFrame(x) + rest) != EncodeAll(ps)
    decreases |qs|
  {
    hide EncodeFrame, EncodeFrames, Split;
    var bad := EncodeFrame(x) + rest;
    FrameHeader(x, rest);
    assert |EncodeAll(qs) + bad| >= 4;
    if EncodeAll(qs) + bad == EncodeAll(ps) {
      assert ps != [];
      if qs == [] {
        assert EncodeAll(qs) + bad == bad;
        var f, tail := FirstOfSplit(ps[0], 0, EncodeAll(ps[1..]));
        FrameHeader(f, tail);
      } else {
        assert EncodeFrames(Split(qs[0], 0)) + EncodeAll(qs[1..]) + bad
            == EncodeFrames(Split(qs[0], 0)) + (EncodeAll(qs[1..]) + bad);
        SplitCancel(qs[0], ps[0], 0, EncodeAll(qs[1..]) + bad, EncodeAll(ps[1..]));
        assert forall p :: p in ps[1..] ==> p in ps;
        ForeignFrame(qs[1..], x, rest, ps[1..], first);
      }
    }
  }

  // ---------- a wire of messages is read back ----------

  function ReadBack(payloads: seq<seq<byte>>): seq<Message> {
    if payloads == [] then []
    else [Message(payloads[0], LastSeq(|payloads[0]|, 0))] + ReadBack(payloads[1..])
  }

  lemma {:induction false} ScanEncodeAll(payloads: seq<seq<byte>>)
    requires [] !in payloads
    ensures ScanBytes(None, EncodeAll(payloads)) == Scan(ReadBack(payloads), None, [])
    ensures !HasStrayEmptyFrame(None, EncodeAll(payloads))
  {
    if payloads != [] {
      ScanEncodeAll(payloads[1..]);
      ScanSplit(None, payloads[0], 0, EncodeAll(payloads[1..]));
      SplitNoStray(None, payloads[0], 0, EncodeAll(payloads[1..]));
    }
  }
}
