/** The pipelined send queue: commands that write at once, commands that stream, and commands whose
    start ends without a word. */
module PipelineModel {
  import opened Bytes

  /** How a `start` ends: all written and `send_end` emitted; still sending; or stopped with an error
      and no `send_end` yet, as a bulk whose leftover row is too long does. */
  datatype Kind = Sync | Streaming | Silent

  datatype Cmd = Cmd(kind: Kind, response: bool)

  /** The bytes of a command on the wire, by the number of the command. */
  datatype Mark = Begin(id: nat) | End(id: nat)

  /** Commands are numbered in the order added. `late` holds the silent ones that have not emitted
      `send_end`, `wire` what has been written and `receive` who was queued for a response. */
  datatype Lines = Lines(added: seq<Cmd>, queue: seq<nat>, streaming: Option<nat>, late: set<nat>,
                         wire: seq<Mark>, receive: seq<nat>)

  /** `nextSendCmd`, reached from a `send_end` when the queue is not empty. */
  function SendNext(s: Lines): Lines
    requires Named(s)
    decreases |s.queue|, 0
  {
    if s.queue == [] || s.streaming == Some(s.queue[0]) then s
    else StartCmd(s.(queue := s.queue[1..]), s.queue[0])
  }

  /** `start` of a command, with what follows from it before the call returns. */
  function StartCmd(s: Lines, c: nat): Lines
    requires Named(s) && c < |s.added|
    decreases |s.queue|, 1
  {
    match s.added[c].kind
    case Sync => SendNext(s.(wire := s.wire + [Begin(c), End(c)]))
    case Streaming => s.(wire := s.wire + [Begin(c)], streaming := Some(c), queue := [c] + s.queue)
    case Silent => s.(wire := s.wire + [Begin(c), End(c)], late := s.late + {c})
  }

  predicate Named(s: Lines) { forall i :: 0 <= i < |s.queue| ==> s.queue[i] < |s.added| }

  /** `addCommandEnablePipeline` */
  function Add(s: Lines, cmd: Cmd): Lines
    requires Named(s)
  {
    var c := |s.added|;
    var t := s.(added := s.added + [cmd], receive := if cmd.response then s.receive + [c] else s.receive);
    if t.queue == [] then StartCmd(t, c) else t.(queue := t.queue + [c])
  }

  /** The stream under way ends: its last bytes, then the listeners of `send_end`, of which the one
      that takes it off the queue comes first. */
  function StreamEnd(s: Lines): Lines
    requires Named(s) && s.streaming.Some? && s.queue != []
  {
    SendNext(s.(wire := s.wire + [End(s.streaming.value)], streaming := None, queue := s.queue[1..]))
  }

  /** A silent command emits `send_end` after all, when the last response to it is an error. */
  function LateEnd(s: Lines, c: nat): Lines
    requires Named(s)
  {
    SendNext(s.(late := s.late - {c}))
  }

  datatype Event = EvAdd(cmd: Cmd) | EvStreamEnd | EvLateEnd(c: nat)

  function Step(s: Lines, ev: Event): Lines
    requires Named(s)
  {
    match ev
    case EvAdd(cmd) => Add(s, cmd)
    case EvStreamEnd => if s.streaming.Some? && s.queue != [] then StreamEnd(s) else s
    case EvLateEnd(c) => if c in s.late then LateEnd(s, c) else s
  }

  const START: Lines := Lines([], [], None, {}, [], [])

  /** Sending on never puts anything new into the queue. */
  lemma {:induction false} QueueShrinks(s: Lines)
    requires Named(s)
    ensures forall x :: x in SendNext(s).queue ==> x in s.queue
    decreases |s.queue|
  {
    if s.queue != [] && s.streaming != Some(s.queue[0]) {
      var c, t := s.queue[0], s.(queue := s.queue[1..]);
      assert s.queue == [c] + t.queue;
      if s.added[c].kind == Sync {
        QueueShrinks(t.(wire := t.wire + [Begin(c), End(c)]));
      }
    }
  }

  // ---------- what every run keeps ----------

  function Numbers(lo: nat, hi: nat): seq<nat>
    requires lo <= hi
    decreases hi
  {
    if lo == hi then [] else Numbers(lo, hi - 1) + [hi - 1]
  }

  /** The bytes of the first `n` commands, one after the other. */
  function Whole(n: nat): seq<Mark> {
    if n == 0 then [] else Whole(n - 1) + [Begin(n - 1), End(n - 1)]
  }

  /** Those of the first `n` commands that wait for a response. */
  function Expecting(added: seq<Cmd>, n: nat): seq<nat>
    requires n <= |added|
  {
    if n == 0 then []
    else Expecting(added, n - 1) + (if added[n - 1].response then [n - 1] else [])
  }

  /** `k` commands have been started, in the order added, each after the one before it was written in
      full; the others wait in that order; a stream under way is the last one started and the head of
      the queue; and if some wait without a stream, the last one started was silent and still is. */
  predicate Ordered(s: Lines, k: nat) {
    && k <= |s.added|
    && s.receive == Expecting(s.added, |s.added|)
    && (match s.streaming
        case Some(c) =>
          && c + 1 == k && s.added[c].kind == Streaming
          && s.wire == Whole(c) + [Begin(c)]
          && s.queue == Numbers(c, |s.added|)
        case None =>
          && s.wire == Whole(k)
          && s.queue == Numbers(k, |s.added|)
          && (k < |s.added| ==> k > 0 && s.added[k - 1].kind == Silent && k - 1 in s.late))
  }

  lemma {:induction false} NumbersAre(lo: nat, hi: nat)
    requires lo <= hi
    ensures |Numbers(lo, hi)| == hi - lo
    ensures forall i :: 0 <= i < hi - lo ==> Numbers(lo, hi)[i] == lo + i
    decreases hi
  {
    if lo < hi {
      NumbersAre(lo, hi - 1);
    }
  }

  lemma NumbersSplit(lo: nat, hi: nat)
    requires lo < hi
    ensures Numbers(lo, hi)[1..] == Numbers(lo + 1, hi) && Numbers(lo, hi)[0] == lo
    ensures [lo] + Numbers(lo + 1, hi) == Numbers(lo, hi)
  {
    hide Numbers;
    NumbersAre(lo, hi);
    NumbersAre(lo + 1, hi);
  }

  lemma OrderedNamed(s: Lines, k: nat)
    requires Ordered(s, k)
    ensures Named(s)
  {
    hide Whole, Expecting;
    if s.streaming.Some? {
      NumbersAre(s.streaming.value, |s.added|);
    } else {
      NumbersAre(k, |s.added|);
    }
  }

  /** What holds between two starts: nothing under way, everything before written. */
  predicate Between(s: Lines, k: nat) {
    && k <= |s.added| && s.streaming == None
    && s.receive == Expecting(s.added, |s.added|)
    && s.wire == Whole(k) && s.queue == Numbers(k, |s.added|)
  }

  lemma BetweenNamed(s: Lines, k: nat)
    requires Between(s, k)
    ensures Named(s)
  {
    NumbersAre(k, |s.added|);
  }

  /** Starting goes on until a stream is under way, a command stays silent, or none is left. */
  lemma {:induction false} SendNextKeeps(s: Lines, k: nat) returns (k': nat)
    requires Between(s, k)
    ensures Named(s) && k <= k' && Ordered(SendNext(s), k') && SendNext(s).added == s.added
    decreases |s.queue|
  {
    hide Numbers, Whole, Expecting;
    BetweenNamed(s, k);
    NumbersAre(k, |s.added|);
    k' := k;
    if k < |s.added| {
      NumbersSplit(k, |s.added|);
      var t := s.(queue := s.queue[1..]);
      match s.added[k].kind
      case Sync =>
        WholeNext(k);
        k' := SendNextKeeps(t.(wire := t.wire + [Begin(k), End(k)]), k + 1);
      case Streaming => k' := k + 1;
      case Silent =>
        WholeNext(k);
        k' := k + 1;
    }
  }

  lemma WholeNext(k: nat)
    ensures Whole(k + 1) == Whole(k) + [Begin(k), End(k)]
  {
  }

  lemma {:induction false} ExpectingPrefix(added: seq<Cmd>, cmd: Cmd, n: nat)
    requires n <= |added|
    ensures Expecting(added + [cmd], n) == Expecting(added, n)
    decreases n
  {
    if n > 0 {
      ExpectingPrefix(added, cmd, n - 1);
    }
  }

  lemma ReceiveGrows(added: seq<Cmd>, cmd: Cmd)
    ensures Expecting(added + [cmd], |added| + 1)
            == Expecting(added, |added|) + (if cmd.response then [|added|] else [])
  {
    ExpectingPrefix(added, cmd, |added|);
  }

  lemma NumbersSnoc(lo: nat, hi: nat)
    requires lo <= hi
    ensures Numbers(lo, hi + 1) == Numbers(lo, hi) + [hi]
  {
  }

  lemma AddKeeps(s: Lines, k: nat, cmd: Cmd) returns (k': nat)
    requires Ordered(s, k)
    ensures Named(s) && k <= k' && Ordered(Add(s, cmd), k')
  {
    hide Numbers, Whole, Expecting, SendNext;
    OrderedNamed(s, k);
    var c := |s.added|;
    ReceiveGrows(s.added, cmd);
    var t := s.(added := s.added + [cmd], receive := if cmd.response then s.receive + [c] else s.receive);
    if s.queue == [] {
      NothingWaits(s, k);
      NumbersSnoc(c, c);
      NumbersAre(c, c);
      var u := t.(queue := [c]);
      k' := SendNextKeeps(u, k);
      FirstStarts(t, c);
    } else {
      if s.streaming.Some? {
        NumbersSnoc(s.streaming.value, c);
      } else {
        NumbersSnoc(k, c);
        NumbersAre(k, c);
      }
      k' := k;
    }
  }

  lemma NothingWaits(s: Lines, k: nat)
    requires Ordered(s, k) && s.queue == []
    ensures s.streaming == None && k == |s.added|
  {
    hide Whole, Expecting;
    if s.streaming.Some? {
      NumbersAre(s.streaming.value, |s.added|);
    } else {
      NumbersAre(k, |s.added|);
    }
  }

  lemma FirstStarts(t: Lines, c: nat)
    requires t.queue == [] && t.streaming == None && c < |t.added|
    ensures Named(t.(queue := [c])) && SendNext(t.(queue := [c])) == StartCmd(t, c)
  {
    assert t.(queue := [c]).queue[1..] == [];
    assert t.(queue := [c]).(queue := []) == t;
  }

  lemma StreamEndKeeps(s: Lines, k: nat) returns (k': nat)
    requires Ordered(s, k) && s.streaming.Some? && s.queue != []
    ensures Named(s) && k <= k' && Ordered(StreamEnd(s), k')
  {
    hide Numbers, Whole, Expecting, SendNext;
    OrderedNamed(s, k);
    var c := s.streaming.value;
    NumbersSplit(c, |s.added|);
    WholeNext(c);
    assert Whole(c) + [Begin(c)] + [End(c)] == Whole(c) + [Begin(c), End(c)];
    k' := SendNextKeeps(s.(wire := s.wire + [End(c)], streaming := None, queue := s.queue[1..]), c + 1);
  }

  lemma LateEndKeeps(s: Lines, k: nat, c: nat) returns (k': nat)
    requires Ordered(s, k)
    ensures Named(s) && k <= k' && Ordered(LateEnd(s, c), k')
  {
    hide Numbers, Whole, Expecting;
    OrderedNamed(s, k);
    if s.streaming.Some? {
      NumbersSplit(s.streaming.value, |s.added|);
      k' := k;
    } else {
      k' := SendNextKeeps(s.(late := s.late - {c}), k);
    }
  }

  lemma StepKeeps(s: Lines, k: nat, ev: Event) returns (k': nat)
    requires Ordered(s, k)
    ensures Named(s) && k <= k' && Ordered(Step(s, ev), k')
  {
    hide Ordered, Add, StreamEnd, LateEnd;
    OrderedNamed(s, k);
    k' := k;
    match ev {
      case EvAdd(cmd) => k' := AddKeeps(s, k, cmd);
      case EvStreamEnd => if s.streaming.Some? && s.queue != [] { k' := StreamEndKeeps(s, k); }
      case EvLateEnd(c) => if c in s.late { k' := LateEndKeeps(s, k, c); }
    }
  }

  /** The state after any events. */
  function Run(events: seq<Event>): (s: Lines)
    ensures exists k :: Ordered(s, k)
    decreases |events|
  {
    if events == [] then
      assert Ordered(START, 0) by { assert Numbers(0, 0) == []; }
      START
    else
      var s := Run(events[..|events| - 1]);
      Proceed(s, events[|events| - 1]);
      Step(s, events[|events| - 1])
  }

  lemma Proceed(s: Lines, ev: Event)
    requires exists k :: Ordered(s, k)
    ensures Named(s) && exists k :: Ordered(Step(s, ev), k)
  {
    hide Ordered, Step;
    var k :| Ordered(s, k);
    var k' := StepKeeps(s, k, ev);
    assert Ordered(Step(s, ev), k');
  }

  /** Every run: some first commands are on the wire, in the order added and one after the other, the
      rest wait in that order; those of them that are answered are the first in the receive queue; and
      a stream under way is the head of the send queue. */
  lemma EveryRun(events: seq<Event>) returns (k: nat)
    ensures var s := Run(events);
            && k <= |s.added| && Ordered(s, k)
            && Expecting(s.added, k) <= s.receive
            && (s.streaming.Some? ==> s.queue != [] && s.queue[0] == s.streaming.value == k - 1)
  {
    hide Run, Numbers, Whole, Expecting;
    k :| Ordered(Run(events), k);
    var s := Run(events);
    ExpectingGrows(s.added, k, |s.added|);
    if s.streaming.Some? {
      NumbersSplit(s.streaming.value, |s.added|);
    }
  }

  lemma {:induction false} ExpectingGrows(added: seq<Cmd>, m: nat, n: nat)
    requires m <= n <= |added|
    ensures Expecting(added, m) <= Expecting(added, n)
    decreases n
  {
    if m < n {
      ExpectingGrows(added, m, n - 1);
    }
  }

  // ---------- when commands are left waiting ----------

  /** Commands wait although nothing is being sent. */
  predicate Stalled(s: Lines) { s.queue != [] && s.streaming == None }

  /** The send queue stalls exactly when the command started last was silent, still is, and others
      were added behind it. Without silent commands it never does. */
  lemma StalledExactly(s: Lines, k: nat)
    requires Ordered(s, k)
    ensures Stalled(s) <==> k < |s.added| && k > 0 && s.added[k - 1].kind == Silent
    ensures Stalled(s) ==> k - 1 in s.late
    ensures (forall c :: 0 <= c < |s.added| ==> s.added[c].kind != Silent) ==> !Stalled(s)
  {
    hide Whole, Expecting;
    if s.streaming.Some? {
      NumbersAre(s.streaming.value, |s.added|);
    } else {
      NumbersAre(k, |s.added|);
    }
  }

  /** Adding more does not help a stalled queue: only a late `send_end` does. */
  lemma StalledStays(s: Lines, ev: Event)
    requires Named(s) && Stalled(s) && !ev.EvLateEnd?
    ensures Stalled(Step(s, ev)) && Step(s, ev).wire == s.wire
  {
  }

  const STREAM: Cmd := Cmd(Streaming, true)
  const QUIET: Cmd := Cmd(Silent, true)
  const PLAIN: Cmd := Cmd(Sync, true)

  /** A stream, a command that stays silent behind it, and a third one that is then never sent. */
  lemma StalledExample()
    ensures var s := Run([EvAdd(STREAM), EvAdd(QUIET), EvAdd(PLAIN), EvStreamEnd]);
            Stalled(s) && s.queue == [2]
  {
    hide Run, Step;
    var s1 := Lines([STREAM], [0], Some(0), {}, [Begin(0)], [0]);
    var s2 := s1.(added := [STREAM, QUIET], queue := [0, 1], receive := [0, 1]);
    var s3 := s1.(added := [STREAM, QUIET, PLAIN], queue := [0, 1, 2], receive := [0, 1, 2]);
    RunStart();
    FirstStep(s1);
    NextSteps(s1, s2, s3);
    LastStep(s3);
    var s4 := Step(s3, EvStreamEnd);
    OneMore([], EvAdd(STREAM), START, s1, [EvAdd(STREAM)]);
    OneMore([EvAdd(STREAM)], EvAdd(QUIET), s1, s2, [EvAdd(STREAM), EvAdd(QUIET)]);
    OneMore([EvAdd(STREAM), EvAdd(QUIET)], EvAdd(PLAIN), s2, s3, [EvAdd(STREAM), EvAdd(QUIET), EvAdd(PLAIN)]);
    OneMore([EvAdd(STREAM), EvAdd(QUIET), EvAdd(PLAIN)], EvStreamEnd, s3, s4,
            [EvAdd(STREAM), EvAdd(QUIET), EvAdd(PLAIN), EvStreamEnd]);
  }

  lemma RunStart()
    ensures Run([]) == START
  {
  }

  lemma FirstStep(s1: Lines)
    requires s1 == Lines([STREAM], [0], Some(0), {}, [Begin(0)], [0])
    ensures Named(START) && Step(START, EvAdd(STREAM)) == s1
  {
  }

  lemma NextSteps(s1: Lines, s2: Lines, s3: Lines)
    requires s1 == Lines([STREAM], [0], Some(0), {}, [Begin(0)], [0])
    requires s2 == s1.(added := [STREAM, QUIET], queue := [0, 1], receive := [0, 1])
    requires s3 == s1.(added := [STREAM, QUIET, PLAIN], queue := [0, 1, 2], receive := [0, 1, 2])
    ensures Named(s1) && Step(s1, EvAdd(QUIET)) == s2
    ensures Named(s2) && Step(s2, EvAdd(PLAIN)) == s3
  {
  }

  lemma LastStep(s3: Lines)
    requires s3 == Lines([STREAM, QUIET, PLAIN], [0, 1, 2], Some(0), {}, [Begin(0)], [0, 1, 2])
    ensures Named(s3) && Stalled(Step(s3, EvStreamEnd)) && Step(s3, EvStreamEnd).queue == [2]
  {
    var t := s3.(wire := s3.wire + [End(0)], streaming := None, queue := s3.queue[1..]);
    assert t.queue == [1, 2];
    assert t.queue[1..] == [2];
    var u := t.(queue := [2]);
    assert StartCmd(u, 1).queue == [2];
    assert SendNext(t) == StartCmd(u, 1);
  }

  lemma OneMore(events: seq<Event>, ev: Event, s: Lines, t: Lines, more: seq<Event>)
    requires Run(events) == s && Named(s) && Step(s, ev) == t && more == events + [ev]
    ensures Run(more) == t
  {
    hide Step;
    assert more[..|events|] == events;
  }
}
