/** Which command a packet belongs to, told without a queue: from the commands that were added and the
    messages each of them has had. */
module Delivery {
  import opened Bytes
  import opened Framing
  import opened Dispatch

  // ---------- the reference ----------

  /** The state of a command that began in `s` and has had the messages `ms`; None once it has finished. */
  function Fold<S>(step: Step<S>, s: S, ms: seq<Message>): Option<S>
    decreases |ms|
  {
    if ms == [] then Some(s)
    else
      match Fold(step, s, ms[..|ms| - 1])
      case None => None
      case Some(t) => step(t, ms[|ms| - 1])
  }

  /** The commands of a history, in the order they were added. */
  function Added<S>(history: seq<Action<S>>): seq<nat>
    decreases |history|
  {
    if history == [] then []
    else
      var k := |history| - 1;
      Added(history[..k]) + if history[k].Add? then [history[k].cmd] else []
  }

  /** The state a command was added with. */
  function Begun<S>(history: seq<Action<S>>, c: nat): (s: Option<S>)
    ensures s.Some? <==> c in Added(history)
    decreases |history|
  {
    if history == [] then None
    else
      var k := |history| - 1;
      if history[k].Add? && history[k].cmd == c then Some(history[k].s) else Begun(history[..k], c)
  }

  /** No command is added twice. */
  predicate Once<S>(history: seq<Action<S>>)
    decreases |history|
  {
    history == []
    || var k := |history| - 1;
       Once(history[..k]) && (history[k].Add? ==> history[k].cmd !in Added(history[..k]))
  }

  /** The messages a command has had. */
  function Given(trace: seq<Event>, c: nat): seq<Message>
    decreases |trace|
  {
    if trace == [] then []
    else
      var e := trace[|trace| - 1];
      Given(trace[..|trace| - 1], c) + if e.Received? && e.cmd == c then [e.m] else []
  }

  /** What has become of a command that was added: its own messages, folded from its own first state. */
  function Now<S>(step: Step<S>, history: seq<Action<S>>, trace: seq<Event>, c: nat): Option<S> {
    match Begun(history, c)
    case None => None
    case Some(s) => Fold(step, s, Given(trace, c))
  }

  /** The first command that its own messages have not finished. */
  function First<S>(step: Step<S>, history: seq<Action<S>>, trace: seq<Event>, added: seq<nat>): Option<nat> {
    if added == [] then None
    else if Now(step, history, trace, added[0]).Some? then Some(added[0])
    else First(step, history, trace, added[1..])
  }

  function Handed<S>(step: Step<S>, history: seq<Action<S>>, trace: seq<Event>, m: Message): Event {
    match First(step, history, trace, Added(history))
    case None => Unexpected(m)
    case Some(c) => Received(c, m)
  }

  /** The deliveries of a whole history. */
  function Deliveries<S>(step: Step<S>, history: seq<Action<S>>): seq<Event>
    decreases |history|
  {
    if history == [] then []
    else
      var k := |history| - 1;
      var trace := Deliveries(step, history[..k]);
      match history[k]
      case Add(_, _) => trace
      case Packet(m) => trace + [Handed(step, history[..k], trace, m)]
  }

  // ---------- the dispatcher is the reference ----------

  lemma Snoc<S>(history: seq<Action<S>>, a: Action<S>, c: nat)
    ensures Added(history + [a]) == Added(history) + if a.Add? then [a.cmd] else []
    ensures Once(history + [a]) <==> Once(history) && (a.Add? ==> a.cmd !in Added(history))
    ensures Begun(history + [a], c) == if a.Add? && a.cmd == c then Some(a.s) else Begun(history, c)
  {
    assert (history + [a])[..|history|] == history;
  }

  lemma GivenSnoc(trace: seq<Event>, e: Event, c: nat)
    ensures Given(trace + [e], c) == Given(trace, c) + if e.Received? && e.cmd == c then [e.m] else []
  {
    assert (trace + [e])[..|trace|] == trace;
  }

  lemma FoldSnoc<S>(step: Step<S>, s: S, ms: seq<Message>, m: Message)
    ensures Fold(step, s, ms + [m]) == match Fold(step, s, ms) case None => None case Some(t) => step(t, m)
  {
    assert (ms + [m])[..|ms|] == ms;
  }

  /** Exactly the unfinished commands are live, each in the state of its own messages, and the queue is
      what was added without the finished commands at its head. */
  ghost predicate Right<S>(step: Step<S>, history: seq<Action<S>>, d: Disp<S>) {
    && (forall c :: c in d.live <==> Now(step, history, d.trace, c).Some?)
    && (forall c :: c in d.live ==> Now(step, history, d.trace, c) == Some(d.live[c]))
    && d.queue == DropDone(Added(history), d.live)
    && (forall c :: c !in Added(history) ==> Given(d.trace, c) == [])
  }

  lemma {:induction false} FirstIsHead<S>(step: Step<S>, history: seq<Action<S>>, d: Disp<S>, added: seq<nat>)
    requires forall c :: c in d.live <==> Now(step, history, d.trace, c).Some?
    ensures var q := DropDone(added, d.live);
            First(step, history, d.trace, added) == if q == [] then None else Some(q[0])
  {
    hide Now;
    if added != [] {
      FirstIsHead(step, history, d, added[1..]);
    }
  }

  lemma AddRight<S>(step: Step<S>, history: seq<Action<S>>, d: Disp<S>, c: nat, s: S)
    requires Right(step, history, d) && c !in Added(history)
    ensures Right(step, history + [Add(c, s)], Canon(Disp(d.queue + [c], d.live[c := s], d.trace)))
  {
    hide Now;
    Snoc(history, Add(c, s), c);
    LiveIsAdded(step, history, d);
    AddNow(step, history, d, c, s);
    DropDoneAdd(Added(history), d.live, c, s);
  }

  lemma AddNow<S>(step: Step<S>, history: seq<Action<S>>, d: Disp<S>, c: nat, s: S)
    requires Right(step, history, d) && c !in Added(history)
    ensures forall x ::
              Now(step, history + [Add(c, s)], d.trace, x) == if x == c then Some(s) else Now(step, history, d.trace, x)
  {
    hide Fold;
    forall x
      ensures Now(step, history + [Add(c, s)], d.trace, x) == if x == c then Some(s) else Now(step, history, d.trace, x)
    {
      Snoc(history, Add(c, s), x);
      NoMessages(step, s);
    }
  }

  lemma NoMessages<S>(step: Step<S>, s: S)
    ensures Fold(step, s, []) == Some(s)
  {
  }

  lemma LiveIsAdded<S>(step: Step<S>, history: seq<Action<S>>, d: Disp<S>)
    requires Right(step, history, d)
    ensures forall c :: c in d.live ==> c in Added(history)
  {
  }

  /** Dropping with fewer live commands drops no less. */
  lemma {:induction false} DropMore<S>(q: seq<nat>, live: map<nat, S>, less: map<nat, S>)
    requires less.Keys <= live.Keys
    ensures DropDone(DropDone(q, live), less) == DropDone(q, less)
  {
    if q != [] && q[0] !in live {
      assert q[0] !in less;
      DropMore(q[1..], live, less);
    }
  }

  lemma PacketRight<S>(step: Step<S>, history: seq<Action<S>>, d: Disp<S>, m: Message)
    requires Right(step, history, d)
    ensures var e := Canon(DispatchOne(step, d, m));
            Right(step, history + [Packet(m)], e) && e.trace == d.trace + [Handed(step, history, d.trace, m)]
  {
    hide Now, Fold;
    FirstIsHead(step, history, d, Added(history));
    DropDoneTwice(Added(history), d.live);
    if d.queue == [] {
      UnexpectedRight(step, history, d, m);
    } else {
      TakenRight(step, history, d, d.queue[0], m);
      DropMore(Added(history), d.live, Taken(step, d.live, d.queue[0], m));
    }
  }

  lemma UnexpectedRight<S>(step: Step<S>, history: seq<Action<S>>, d: Disp<S>, m: Message)
    requires Right(step, history, d) && d.queue == []
    ensures Right(step, history + [Packet(m)], Disp([], d.live, d.trace + [Unexpected(m)]))
  {
    forall c
      ensures Added(history + [Packet(m)]) == Added(history)
      ensures Given(d.trace + [Unexpected(m)], c) == Given(d.trace, c)
      ensures Now(step, history + [Packet(m)], d.trace + [Unexpected(m)], c) == Now(step, history, d.trace, c)
    {
      Snoc(history, Packet(m), c);
      GivenSnoc(d.trace, Unexpected(m), c);
    }
  }

  lemma TakenRight<S>(step: Step<S>, history: seq<Action<S>>, d: Disp<S>, c: nat, m: Message)
    requires Right(step, history, d) && c in d.live
    ensures var live, trace, h := Taken(step, d.live, c, m), d.trace + [Received(c, m)], history + [Packet(m)];
            && live.Keys <= d.live.Keys && Added(h) == Added(history)
            && (forall x :: x in live <==> Now(step, h, trace, x).Some?)
            && (forall x :: x in live ==> Now(step, h, trace, x) == Some(live[x]))
            && (forall x :: x !in Added(h) ==> Given(trace, x) == [])
  {
    hide Fold;
    var trace, h := d.trace + [Received(c, m)], history + [Packet(m)];
    LiveIsAdded(step, history, d);
    forall x
      ensures Added(h) == Added(history)
      ensures x != c ==> Given(trace, x) == Given(d.trace, x) && Now(step, h, trace, x) == Now(step, history, d.trace, x)
      ensures Now(step, h, trace, c) == step(d.live[c], m)
    {
      Snoc(history, Packet(m), x);
      Snoc(history, Packet(m), c);
      GivenSnoc(d.trace, Received(c, m), x);
      GivenSnoc(d.trace, Received(c, m), c);
      FoldSnoc(step, Begun(history, c).value, Given(d.trace, c), m);
    }
  }

  /** For every history: the deliveries are those of the reference, and a command is live exactly if its
      own messages have not finished it, in the state they lead to. */
  lemma {:induction false} ReplayIsReference<S>(step: Step<S>, history: seq<Action<S>>)
    requires Once(history)
    ensures Right(step, history, Replay(step, history))
    ensures Replay(step, history).trace == Deliveries(step, history)
    decreases |history|
  {
    hide Right, DispatchOne, Handed;
    if history == [] {
      NothingYet(step);
    } else {
      var k := |history| - 1;
      var d := Replay(step, history[..k]);
      ReplayIsReference(step, history[..k]);
      assert history == history[..k] + [history[k]];
      match history[k] {
        case Add(c, s) => AddRight(step, history[..k], d, c, s);
        case Packet(m) => PacketRight(step, history[..k], d, m);
      }
    }
  }

  lemma NothingYet<S>(step: Step<S>)
    ensures Right(step, [], Disp([], map[], []))
  {
  }

  // ---------- what this means for one packet ----------

  predicate Finished<S>(step: Step<S>, history: seq<Action<S>>, c: nat) {
    Now(step, history, Replay(step, history).trace, c).None?
  }

  lemma {:induction false} FirstIs<S>(step: Step<S>, history: seq<Action<S>>, trace: seq<Event>, added: seq<nat>, i: nat)
    requires i <= |added| && forall j :: 0 <= j < i ==> Now(step, history, trace, added[j]).None?
    ensures i == |added| ==> First(step, history, trace, added) == None
    ensures i < |added| && Now(step, history, trace, added[i]).Some? ==>
              First(step, history, trace, added) == Some(added[i])
    decreases i
  {
    hide Now;
    if i > 0 {
      FirstIs(step, history, trace, added[1..], i - 1);
    }
  }

  lemma {:induction false} FirstFound<S>(step: Step<S>, history: seq<Action<S>>, trace: seq<Event>, added: seq<nat>)
    returns (i: nat)
    ensures i <= |added| && forall j :: 0 <= j < i ==> Now(step, history, trace, added[j]).None?
    ensures i < |added| ==> Now(step, history, trace, added[i]).Some?
  {
    hide Now;
    i := 0;
    while i < |added| && Now(step, history, trace, added[i]).None?
      invariant i <= |added| && forall j :: 0 <= j < i ==> Now(step, history, trace, added[j]).None?
    {
      i := i + 1;
    }
  }

  /** A packet goes to the i-th command added exactly if all commands added before it have finished on
      their own messages and it has not; and to nobody exactly if all have finished. */
  lemma PacketBelongs<S>(step: Step<S>, history: seq<Action<S>>, m: Message)
    requires Once(history)
    ensures var added, trace := Added(history), Replay(step, history).trace;
            var next := Replay(step, history + [Packet(m)]).trace;
            && (forall i :: 0 <= i < |added| ==>
                  (next == trace + [Received(added[i], m)] <==>
                   !Finished(step, history, added[i]) && forall j :: 0 <= j < i ==> Finished(step, history, added[j])))
            && (next == trace + [Unexpected(m)] <==> forall j :: 0 <= j < |added| ==> Finished(step, history, added[j]))
  {
    hide Now, DispatchOne, Right;
    var added, trace := Added(history), Replay(step, history).trace;
    ReplayIsReference(step, history);
    ReplayPacket(step, history, m);
    PacketRight(step, history, Replay(step, history), m);
    OnceEach(history);
    var k := FirstFound(step, history, trace, added);
    FirstIs(step, history, trace, added, k);
    var e := Handed(step, history, trace, m);
    assert e == if k == |added| then Unexpected(m) else Received(added[k], m);
    assert (trace + [e])[|trace|] == e;
    forall i | 0 <= i < |added|
      ensures trace + [e] == trace + [Received(added[i], m)] <==> i == k
    {
      assert (trace + [Received(added[i], m)])[|trace|] == Received(added[i], m);
    }
    assert (trace + [Unexpected(m)])[|trace|] == Unexpected(m);
  }

  predicate Distinct(q: seq<nat>) { forall i, j :: 0 <= i < j < |q| ==> q[i] != q[j] }

  lemma {:induction false} OnceEach<S>(history: seq<Action<S>>)
    requires Once(history)
    ensures Distinct(Added(history))
    decreases |history|
  {
    if history != [] {
      var k := |history| - 1;
      var before := Added(history[..k]);
      OnceEach(history[..k]);
      if history[k].Add? {
        assert Added(history) == before + [history[k].cmd];
        assert forall i :: 0 <= i < |before| ==> before[i] in before;
      } else {
        assert before + [] == before;
      }
    }
  }

  /** All but the last of its messages leave the command unfinished. */
  predicate Within<S>(step: Step<S>, history: seq<Action<S>>, trace: seq<Event>, c: nat) {
    var ms := Given(trace, c);
    Begun(history, c).Some? && (ms == [] || Fold(step, Begun(history, c).value, ms[..|ms| - 1]).Some?)
  }

  lemma WithinNext<S>(step: Step<S>, history: seq<Action<S>>, trace: seq<Event>, m: Message, c: nat)
    requires Within(step, history, trace, c)
    ensures Within(step, history, trace + [Handed(step, history, trace, m)], c)
  {
    hide First, Fold;
    var e := Handed(step, history, trace, m);
    GivenSnoc(trace, e, c);
    FirstUnfinished(step, history, trace, Added(history));
    assert (Given(trace, c) + [m])[..|Given(trace, c)|] == Given(trace, c);
    assert Given(trace, c) + [] == Given(trace, c);
  }

  /** No command is handed a message behind the one that finished it. */
  lemma {:induction false} NotPastTheEnd<S>(step: Step<S>, history: seq<Action<S>>, c: nat)
    requires Once(history) && c in Added(history)
    ensures Within(step, history, Deliveries(step, history), c)
    decreases |history|
  {
    hide Handed, Fold, Given;
    var k := |history| - 1;
    var before := history[..k];
    assert history == before + [history[k]];
    Snoc(before, history[k], c);
    if c !in Added(before) {
      ReplayIsReference(step, before);
      NoneGiven(step, before, Replay(step, before), c);
    } else {
      NotPastTheEnd(step, before, c);
      if history[k].Packet? {
        WithinNext(step, before, Deliveries(step, before), history[k].m, c);
      }
    }
  }

  lemma NoneGiven<S>(step: Step<S>, history: seq<Action<S>>, d: Disp<S>, c: nat)
    requires Right(step, history, d) && c !in Added(history)
    ensures Given(d.trace, c) == []
  {
  }

  lemma {:induction false} FirstUnfinished<S>(step: Step<S>, history: seq<Action<S>>, trace: seq<Event>, added: seq<nat>)
    ensures var c := First(step, history, trace, added);
            c.Some? ==> Now(step, history, trace, c.value).Some?
  {
    hide Now;
    if added != [] {
      FirstUnfinished(step, history, trace, added[1..]);
    }
  }
}
