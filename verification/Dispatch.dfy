/** Handing messages to the commands that wait for them. A command is an automaton: its state and
    a message give its next state, or nothing when it has finished (`onPacketReceive` is null). */
module Dispatch {
  import opened Bytes
  import opened Framing

  datatype Event = Received(cmd: nat, m: Message) | Unexpected(m: Message)

  /** `live` holds the commands that still expect packets; the queue may name finished ones. */
  datatype Disp<S> = Disp(queue: seq<nat>, live: map<nat, S>, trace: seq<Event>)

  type Step<!S> = (S, Message) -> Option<S>

  function DropDone<S>(queue: seq<nat>, live: map<nat, S>): (q: seq<nat>)
    ensures q == [] || q[0] in live
  {
    if queue == [] || queue[0] in live then queue else DropDone(queue[1..], live)
  }

  /** The same dispatcher with the finished commands at the head of the queue gone. */
  function Canon<S>(d: Disp<S>): Disp<S> { d.(queue := DropDone(d.queue, d.live)) }

  /** `cmd.onPacketReceive(packet, ...)`: the live commands after `c` has taken `m`. */
  function Taken<S>(step: Step<S>, live: map<nat, S>, c: nat, m: Message): (r: map<nat, S>)
    requires c in live
  {
    match step(live[c], m)
    case Some(s) => live[c := s]
    case None => map k | k in live && k != c :: live[k]
  }

  function Give<S>(step: Step<S>, d: Disp<S>, c: nat, m: Message): Disp<S>
    requires c in d.live
  {
    Disp(d.queue, Taken(step, d.live, c, m), d.trace + [Received(c, m)])
  }

  /** The slow path for one message: find the current command, hand it the message, and take it
      off the queue when it has finished. */
  function DispatchOne<S>(step: Step<S>, d: Disp<S>, m: Message): Disp<S> {
    var q := DropDone(d.queue, d.live);
    if q == [] then Disp([], d.live, d.trace + [Unexpected(m)])
    else
      var e := Give(step, d.(queue := q), q[0], m);
      if q[0] in e.live then e else e.(queue := q[1..])
  }

  function DispatchAll<S>(step: Step<S>, d: Disp<S>, ms: seq<Message>): Disp<S>
    decreases |ms|
  {
    if ms == [] then d else DispatchAll(step, DispatchOne(step, d, ms[0]), ms[1..])
  }

  lemma DropDoneTwice<S>(q: seq<nat>, live: map<nat, S>)
    ensures DropDone(DropDone(q, live), live) == DropDone(q, live)
  {
  }

  lemma DispatchCanon<S>(step: Step<S>, d: Disp<S>, m: Message)
    ensures DispatchOne(step, Canon(d), m) == DispatchOne(step, d, m)
  {
    DropDoneTwice(d.queue, d.live);
  }

  lemma DispatchAllCanon<S>(step: Step<S>, d: Disp<S>, e: Disp<S>, ms: seq<Message>)
    requires Canon(d) == Canon(e)
    ensures Canon(DispatchAll(step, d, ms)) == Canon(DispatchAll(step, e, ms))
  {
    if ms != [] {
      DispatchCanon(step, d, ms[0]);
      DispatchCanon(step, e, ms[0]);
    }
  }

  /** The fast path: the message goes straight to the cached live command at the head, and a
      command that finishes is left in the queue. Up to finished commands at the head, this is
      the slow path. */
  lemma FastRowIsSlowRow<S>(step: Step<S>, d: Disp<S>, m: Message)
    requires d.queue != [] && d.queue[0] in d.live
    ensures Canon(Give(step, d, d.queue[0], m)) == Canon(DispatchOne(step, d, m))
    ensures Give(step, d, d.queue[0], m).trace == DispatchOne(step, d, m).trace
  {
  }

  /** Any mix of fast and slow deliveries: `fast[i]` asks for the fast path, which is taken only
      when the head command is live. */
  function DispatchMixed<S>(step: Step<S>, d: Disp<S>, ms: seq<Message>, fast: seq<bool>): Disp<S>
    requires |fast| == |ms|
    decreases |ms|
  {
    if ms == [] then d
    else
      var e := if fast[0] && d.queue != [] && d.queue[0] in d.live
               then Give(step, d, d.queue[0], ms[0]) else DispatchOne(step, d, ms[0]);
      DispatchMixed(step, e, ms[1..], fast[1..])
  }

  lemma {:induction false} MixedIsSlow<S>(step: Step<S>, d: Disp<S>, ms: seq<Message>, fast: seq<bool>)
    requires |fast| == |ms|
    ensures DispatchMixed(step, d, ms, fast).trace == DispatchAll(step, d, ms).trace
    ensures Canon(DispatchMixed(step, d, ms, fast)) == Canon(DispatchAll(step, d, ms))
    decreases |ms|
  {
    if ms != [] {
      var e := if fast[0] && d.queue != [] && d.queue[0] in d.live
               then Give(step, d, d.queue[0], ms[0]) else DispatchOne(step, d, ms[0]);
      if fast[0] && d.queue != [] && d.queue[0] in d.live {
        FastRowIsSlowRow(step, d, ms[0]);
      }
      MixedIsSlow(step, e, ms[1..], fast[1..]);
      DispatchAllCanon(step, e, DispatchOne(step, d, ms[0]), ms[1..]);
      assert Canon(DispatchMixed(step, d, ms, fast)).trace == Canon(DispatchAll(step, d, ms)).trace;
    }
  }

  // ---------- commands and packets over a connection's life ----------

  datatype Action<S> = Add(cmd: nat, s: S) | Packet(m: Message)

  /** The slow dispatcher over a whole history, finished commands always taken off the queue. */
  function Replay<S>(step: Step<S>, history: seq<Action<S>>): Disp<S>
    decreases |history|
  {
    if history == [] then Disp([], map[], [])
    else
      var d := Replay(step, history[..|history| - 1]);
      match history[|history| - 1]
      case Add(c, s) => Canon(Disp(d.queue + [c], d.live[c := s], d.trace))
      case Packet(m) => Canon(DispatchOne(step, d, m))
  }

  lemma ReplayPacket<S>(step: Step<S>, history: seq<Action<S>>, m: Message)
    ensures Replay(step, history + [Packet(m)]) == Canon(DispatchOne(step, Replay(step, history), m))
  {
    assert (history + [Packet(m)])[..|history|] == history;
  }

  lemma ReplayAdd<S>(step: Step<S>, history: seq<Action<S>>, c: nat, s: S)
    ensures var d := Replay(step, history);
            Replay(step, history + [Add(c, s)]) == Canon(Disp(d.queue + [c], d.live[c := s], d.trace))
  {
    assert (history + [Add(c, s)])[..|history|] == history;
  }

  /** Whatever happens later, what has been delivered stays delivered, in its order. */
  lemma {:induction false} ReplayGrows<S>(step: Step<S>, history: seq<Action<S>>, more: seq<Action<S>>)
    ensures Replay(step, history).trace <= Replay(step, history + more).trace
    decreases |more|
  {
    if more == [] {
      assert history + more == history;
    } else {
      var k := |more| - 1;
      ReplayGrows(step, history, more[..k]);
      assert (history + more)[..|history + more| - 1] == history + more[..k];
    }
  }

  lemma {:induction false} DropDoneAdd<S>(q: seq<nat>, live: map<nat, S>, c: nat, s: S)
    requires c !in q
    ensures DropDone(DropDone(q, live) + [c], live[c := s]) == DropDone(q + [c], live[c := s])
  {
    if q != [] && q[0] !in live {
      assert (q + [c])[1..] == q[1..] + [c];
      DropDoneAdd(q[1..], live, c, s);
    }
  }

  lemma AddCanon<S>(d: Disp<S>, c: nat, s: S)
    requires c !in d.queue
    ensures var e := Canon(d);
            Canon(Disp(e.queue + [c], e.live[c := s], e.trace)) == Canon(Disp(d.queue + [c], d.live[c := s], d.trace))
  {
    DropDoneAdd(d.queue, d.live, c, s);
  }

  /** `currentCmd` is called when the cached command is missing or finished. */
  function Current<S>(d: Disp<S>, cmd: Option<nat>): (r: (Disp<S>, Option<nat>)) {
    if cmd.Some? && cmd.value in d.live then (d, cmd)
    else
      var q := DropDone(d.queue, d.live);
      (d.(queue := q), if q == [] then None else Some(q[0]))
  }

  predicate Cached<S>(d: Disp<S>, cmd: Option<nat>) {
    cmd.Some? && cmd.value in d.live ==> d.queue != [] && d.queue[0] == cmd.value
  }

  /** The slow path with its cache of the current command. */
  function ReceiveBasic<S>(step: Step<S>, d: Disp<S>, cmd: Option<nat>, m: Message): (Disp<S>, Option<nat>)
    requires Cached(d, cmd)
  {
    var (d1, c) := Current(d, cmd);
    if c.None? then (d1.(trace := d1.trace + [Unexpected(m)]), c)
    else
      var e := Give(step, d1, c.value, m);
      if c.value in e.live then (e, c) else (e.(queue := e.queue[1..]), None)
  }

  lemma ReceiveBasicIsDispatch<S>(step: Step<S>, d: Disp<S>, cmd: Option<nat>, m: Message)
    requires Cached(d, cmd)
    ensures var r := ReceiveBasic(step, d, cmd, m);
            r.0 == DispatchOne(step, d, m) && Cached(r.0, r.1)
  {
  }

  function Packets<S>(ms: seq<Message>): (r: seq<Action<S>>)
    ensures |r| == |ms|
  {
    if ms == [] then [] else [Packet(ms[0])] + Packets(ms[1..])
  }

  lemma {:induction false} PacketsAppend<S>(a: seq<Message>, b: seq<Message>)
    ensures Packets<S>(a + b) == Packets(a) + Packets(b)
    decreases |a|
  {
    if a == [] {
      assert a + b == b;
    } else {
      assert (a + b)[1..] == a[1..] + b;
      PacketsAppend<S>(a[1..], b);
    }
  }

  lemma PacketsSnoc<S>(h: seq<Action<S>>, a: seq<Message>, m: Message)
    ensures h + Packets(a) + [Packet(m)] == h + Packets(a + [m])
  {
    PacketsAppend<S>(a, [m]);
    assert Packets<S>([m]) == [Packet(m)];
  }
}
