/** When a request waits although nothing is under way, is the pool at its limit? */
module PoolLimit {
  import opened Bytes
  import opened PoolModel
  import opened PoolProofs

  /** Nothing is under way that could create a connection or look at the queue. */
  predicate Quiet(p: Pool) {
    && p.ticks == p.checks == p.errorChecks == 0 && !p.inCreation && !p.retryTask
    && forall id :: id in p.validating ==> !p.validating[id].needCheck
  }

  /** A request that waits below the limit has something under way that manages the size. */
  predicate Filling(p: Pool) {
    || p.requests == [] || Total(p) >= p.opts.connectionLimit
    || p.inCreation || p.retryTask || p.checks > 0 || p.errorChecks > 0
    || exists id :: id in p.validating && p.validating[id].needCheck
  }

  // ---------- a pool that is filled up to its limit ----------

  lemma ManageFills(p: Pool)
    requires !p.closed && p.opts.minimumIdle >= p.opts.connectionLimit
    ensures Filling(Manage(p))
  {
  }

  lemma CheckTimeoutsFills(p: Pool)
    requires Core(p, None) && Filling(p)
    ensures Filling(CheckTimeouts(p))
  {
    hide CheckTimeouts, Core;
    CheckTimeoutsKeeps(p);
  }

  lemma ProcessNextFills(p: Pool)
    requires Core(p, None) && Filling(p)
    ensures Filling(ProcessNext(p))
  {
    hide CheckTimeouts, Core;
    if p.requests != [] {
      if p.idle == [] {
        CheckTimeoutsFills(p);
      } else {
        HandKeeps(p);
        CheckTimeoutsFills(Hand(p));
      }
    }
  }

  /** A search that has dropped a connection asks for a check of the size. */
  lemma {:induction false} FindFills(p: Pool, id: nat, health: seq<Health>, need: bool)
    requires !p.closed && id !in p.validating
    requires p.idle != [] ==> p.idle[0] !in p.active
    requires need || Filling(p)
    ensures Filling(Find(p, id, health, need))
    decreases |p.idle|
  {
    if p.idle != [] {
      match if health == [] then Good else health[0] {
        case Good =>
        case MustPing => PingFills(p, id, need);
        case Bad =>
          SearchFills(p.(idle := p.idle[1..], active := Drop(p.active[p.idle[0] := id], p.idle[0])), id, health[1..]);
      }
    }
  }

  lemma {:induction false} SearchFills(p: Pool, id: nat, health: seq<Health>)
    requires !p.closed
    ensures Filling(Find(p, id, health, true))
    decreases |p.idle|
  {
    if p.idle != [] {
      var c := p.idle[0];
      match if health == [] then Good else health[0] {
        case Good =>
        case MustPing =>
          var q := Find(p, id, health, true);
          assert id in q.validating && q.validating[id].needCheck;
        case Bad => SearchFills(p.(idle := p.idle[1..], active := Drop(p.active[c := id], c)), id, health[1..]);
      }
    }
  }

  lemma PingFills(p: Pool, id: nat, need: bool)
    requires p.idle != [] && p.idle[0] !in p.active && id !in p.validating && (need || Filling(p))
    ensures var c := p.idle[0];
            Filling(p.(idle := p.idle[1..], active := p.active[c := id], validating := p.validating[id := Ping(c, need)]))
  {
    var c := p.idle[0];
    var q := p.(idle := p.idle[1..], active := p.active[c := id], validating := p.validating[id := Ping(c, need)]);
    assert Total(q) == Total(p);
    if need {
      assert q.validating[id].needCheck;
    } else if n :| n in p.validating && p.validating[n].needCheck {
      assert n in q.validating && q.validating[n].needCheck;
    }
  }

  lemma PingDoneFills(p: Pool, id: nat, ok: bool, health: seq<Health>)
    requires Inv(p) && Filling(p) && !p.closed && id in p.validating
    ensures Filling(Step(p, PingDone(id, ok, health)))
  {
    hide Inv, Find;
    var ping := p.validating[id];
    if !ok {
      var p1 := p.(validating := Drop(p.validating, id), active := Drop(p.active, ping.conn));
      SearchFills(p1, id, health);
    } else if n :| n in p.validating && p.validating[n].needCheck {
      if n != id {
        var q := Step(p, PingDone(id, ok, health));
        assert n in q.validating && q.validating[n].needCheck;
      }
    }
  }

  lemma ReleaseFills(p: Pool, c: nat, valid: bool)
    requires Inv(p) && Filling(p) && !p.closed && p.opts.minimumIdle >= p.opts.connectionLimit
    requires Enabled(p, Release(c, valid))
    ensures Filling(Step(p, Release(c, valid)))
  {
    hide Inv, Manage;
    if c in p.active {
      DropSize(p.active, c);
      var p1 := p.(active := Drop(p.active, c));
      if valid {
        assert Total(Step(p, Release(c, valid))) == Total(p);
      } else {
        ManageFills(p1);
      }
    }
  }

  lemma CreatedFills(p: Pool, c: nat)
    requires Inv(p) && !p.closed && p.opts.minimumIdle >= p.opts.connectionLimit && Enabled(p, CreationSucceeded(c))
    ensures Filling(Step(p, CreationSucceeded(c)))
  {
    hide Inv, ProcessNext, Manage;
    var p1 := p.(creations := p.creations - 1, known := p.known + {c}, inCreation := false, idle := p.idle + [c]);
    var p2 := ProcessNext(p1);
    ProcessNextRest(p1);
    if ShouldCreateMoreConnections(p2) {
      ManageFills(p2);
    }
  }

  lemma ProcessNextRest(p: Pool)
    ensures var q := ProcessNext(p);
            q.closed == p.closed && q.opts == p.opts && q.inCreation == p.inCreation
  {
    TimeoutsRest(p);
    if p.requests != [] && p.idle != [] {
      TimeoutsRest(Hand(p));
    }
  }

  lemma {:induction false} TimeoutsRest(p: Pool)
    ensures var q := CheckTimeouts(p);
            q.closed == p.closed && q.opts == p.opts && q.inCreation == p.inCreation
    decreases |p.requests|
  {
    if p.requests != [] && p.requests[0].timeout <= p.now {
      TimeoutsRest(SettleHead(p, Rejected));
    }
  }

  lemma NewFills(p: Pool, health: seq<Health>)
    requires Inv(p) && Filling(p) && !p.closed
    ensures Filling(Step(p, GetConnection(health)))
  {
    hide Find;
    if p.idle != [] {
      FindFills(p.(nextId := p.nextId + 1), p.nextId, health, false);
    }
  }

  lemma StepFills(p: Pool, e: Event)
    requires Inv(p) && Enabled(p, e) && Filling(p) && p.opts.minimumIdle >= p.opts.connectionLimit
    ensures Filling(Step(p, e))
  {
    hide Core, Timed, NotStranded, Alive, Manage, CheckTimeouts, ProcessNext, Find, RejectAll;
    StepKeeps(p, e);
    if p.closed {
      StaysClosed(p, e);
      ClosedIsEmpty(Step(p, e));
    } else {
      match e {
        case GetConnection(health) => NewFills(p, health);
        case PingDone(id, ok, health) => PingDoneFills(p, id, ok, health);
        case Release(c, valid) => ReleaseFills(p, c, valid);
        case Destroy(c) => ManageFills(p.(active := Drop(p.active, c)));
        case IdleTick => TickFills(p);
        case CheckSize => ManageFills(p.(checks := p.checks - 1));
        case CheckAfterError => ManageFills(p.(errorChecks := p.errorChecks - 1));
        case CreationSucceeded(c) => CreatedFills(p, c);
        case RetryFires => ManageFills(p.(retryTask := false));
        case Reap(k) => ManageFills(p.(idle := p.idle[k..]));
        case TimerFires => CheckTimeoutsFills(p);
        case End =>
          EndCloses(p);
          ClosedIsEmpty(Step(p, e));
        case _ =>
      }
    }
  }

  lemma {:induction false} FindRest(p: Pool, id: nat, health: seq<Health>, need: bool)
    ensures Find(p, id, health, need).closed == p.closed
    decreases |p.idle|
  {
    if p.idle != [] && health != [] {
      FindRest(p.(idle := p.idle[1..], active := Drop(p.active[p.idle[0] := id], p.idle[0])), id, health[1..], true);
    }
  }

  lemma {:induction false} RejectRest(p: Pool)
    ensures RejectAll(p).closed == p.closed
    decreases |p.requests|
  {
    if p.requests != [] {
      RejectRest(SettleHead(p, Rejected));
    }
  }

  lemma EndCloses(p: Pool)
    ensures Step(p, End).closed
  {
    if !p.closed {
      RejectRest(p.(closed := true, retryTask := false, timer := None, idle := []));
    }
  }

  lemma StaysClosed(p: Pool, e: Event)
    requires p.closed && Enabled(p, e)
    ensures Step(p, e).closed
  {
    hide CheckTimeouts, Find, RejectAll;
    match e {
      case PingDone(id, ok, health) =>
        FindRest(p.(validating := Drop(p.validating, id), active := Drop(p.active, p.validating[id].conn)), id, health,
                 true);
      case TimerFires => TimeoutsRest(p);
      case _ =>
    }
  }

  lemma ClosedIsEmpty(p: Pool)
    requires Inv(p) && p.closed
    ensures p.requests == []
  {
  }

  lemma TickFills(p: Pool)
    requires Inv(p) && Filling(p) && p.ticks > 0 && !p.closed
    ensures Filling(Step(p, IdleTick))
  {
    hide Core, ProcessNext;
    CountersOnly(p, p.(ticks := p.ticks - 1), None);
    ProcessNextFills(p.(ticks := p.ticks - 1));
  }

  lemma {:induction false} RunFills(p: Pool, es: seq<Event>)
    requires Inv(p) && Run(p, es) && Filling(p) && p.opts.minimumIdle >= p.opts.connectionLimit
    ensures Filling(After(p, es))
    decreases |es|
  {
    hide Inv, Step, Filling;
    if es != [] {
      StepKeeps(p, es[0]);
      StepGrows(p, es[0]);
      StepFills(p, es[0]);
      RunFills(Step(p, es[0]), es[1..]);
    }
  }

  // ---------- a pool that is not ----------

  /** The first `k` connections, each given to the request of the same number. */
  function Given(k: nat): (m: map<nat, nat>)
    ensures |m| == k && forall i: nat :: (i in m <==> i < k) && (i < k ==> m[i] == i)
  {
    if k == 0 then map[] else Given(k - 1)[k - 1 := k - 1]
  }

  function Answers(k: nat): (m: map<nat, Settlement>)
    ensures forall i: nat :: (i in m <==> i < k) && (i < k ==> m[i] == Resolved(i))
  {
    if k == 0 then map[] else Answers(k - 1)[k - 1 := Resolved(k - 1)]
  }

  function Ids(k: nat): (s: set<nat>)
    ensures forall i: nat :: i in s <==> i < k
  {
    if k == 0 then {} else Ids(k - 1) + {k - 1}
  }

  /** `k` requests have got one new connection each; the next one is being created up to the minimum. */
  function Busy(opts: Options, now: int, k: nat): Pool {
    Pool(opts, false, k < opts.minimumIdle, if k < opts.minimumIdle then 1 else 0, Ids(k), [], Given(k), [], None, false,
         0, 0, 0, map[], Answers(k), k, now)
  }

  lemma {:induction false} RunAppend(p: Pool, a: seq<Event>, b: seq<Event>)
    requires Run(p, a) && Run(After(p, a), b)
    ensures Run(p, a + b) && After(p, a + b) == After(After(p, a), b)
    decreases |a|
  {
    hide Step, Enabled;
    if a == [] {
      assert a + b == b;
    } else {
      assert (a + b)[1..] == a[1..] + b;
      RunAppend(Step(p, a[0]), a[1..], b);
    }
  }

  lemma RunOne(p: Pool, e: Event, q: Pool)
    requires Enabled(p, e) && Step(p, e) == q
    ensures Run(p, [e]) && After(p, [e]) == q
  {
    hide Step, Enabled;
    assert [e][1..] == [];
  }

  lemma OneMore(p: Pool, a: seq<Event>, e: Event)
    requires Run(p, a) && Enabled(After(p, a), e)
    ensures Run(p, a + [e]) && After(p, a + [e]) == Step(After(p, a), e)
  {
    hide Step, Enabled;
    RunOne(After(p, a), e, Step(After(p, a), e));
    RunAppend(p, a, [e]);
  }

  /** A request waits in the queue, and a check is under way. */
  function Asked(b: Pool, r: Request): Pool {
    b.(nextId := r.id + 1, checks := 1, requests := [r], timer := Some(r.timeout))
  }

  /** It gets a connection, the next one not being created yet. */
  function Got(b: Pool, c: nat, id: nat): Pool {
    b.(creations := 0, inCreation := false, nextId := id + 1, known := b.known + {c}, active := b.active[c := id],
       settled := b.settled[id := Resolved(c)])
  }

  /** One more request gets one more connection. */
  lemma OneMoreBusy(opts: Options, now: int, k: nat)
    requires opts.minimumIdle < opts.connectionLimit && k < opts.connectionLimit
    ensures var p0 := Busy(opts, now, k);
            var p1 := Step(p0, GetConnection([]));
            && Enabled(p1, CheckSize)
            && var p2 := Step(p1, CheckSize);
               Enabled(p2, CreationSucceeded(k)) && Step(p2, CreationSucceeded(k)) == Busy(opts, now, k + 1)
  {
    hide Step, Busy, Asked, Got;
    var b, r := Busy(opts, now, k), Request(k, now + opts.acquireTimeout);
    AsksOnce(opts, now, k);
    ChecksOnce(opts, now, k);
    BusyParts(opts, now, k);
    Creates(b, k, r);
    NextBusy(opts, now, k);
  }

  lemma AsksOnce(opts: Options, now: int, k: nat)
    ensures Step(Busy(opts, now, k), GetConnection([])) == Asked(Busy(opts, now, k), Request(k, now + opts.acquireTimeout))
  {
  }

  lemma ChecksOnce(opts: Options, now: int, k: nat)
    requires k < opts.connectionLimit
    ensures var p := Asked(Busy(opts, now, k), Request(k, now + opts.acquireTimeout));
            Enabled(p, CheckSize) && Step(p, CheckSize) == p.(checks := 0, inCreation := true, creations := 1)
  {
  }

  lemma Creates(b: Pool, c: nat, r: Request)
    requires b.idle == [] && b.requests == [] && b.timer.None? && b.checks == 0 && !b.closed && c !in b.known
    ensures var p, q := Asked(b, r).(checks := 0, inCreation := true, creations := 1), Got(b, c, r.id);
            && Enabled(p, CreationSucceeded(c))
            && Step(p, CreationSucceeded(c)) == if ShouldCreateMoreConnections(q) then ValidateSize(q) else q
  {
    hide ProcessNext, ShouldCreateMoreConnections, ValidateSize;
    var p := Asked(b, r).(checks := 0, inCreation := true, creations := 1);
    assert p.idle + [c] == [c];
    Served(p.(creations := 0, known := p.known + {c}, inCreation := false, idle := [c]), c, r);
  }

  lemma BusyParts(opts: Options, now: int, k: nat)
    ensures var p := Busy(opts, now, k);
            p.idle == [] && p.requests == [] && !p.closed && k !in p.known && p.timer.None? && p.checks == 0
  {
  }

  /** With its connection handed over, the pool creates the next one if it is below the minimum. */
  lemma NextBusy(opts: Options, now: int, k: nat)
    requires opts.minimumIdle < opts.connectionLimit && k < opts.connectionLimit
    ensures var q := Got(Busy(opts, now, k), k, k);
            Busy(opts, now, k + 1) == if ShouldCreateMoreConnections(q) then ValidateSize(q) else q
  {
    hide Given, Answers, Ids;
    OneGiven(k);
  }

  lemma OneGiven(k: nat)
    ensures Ids(k + 1) == Ids(k) + {k} && Given(k + 1) == Given(k)[k := k]
    ensures Answers(k + 1) == Answers(k)[k := Resolved(k)]
  {
  }

  lemma Served(p: Pool, k: nat, r: Request)
    requires p.idle == [k] && p.requests == [r]
    ensures ProcessNext(p)
            == p.(idle := [], requests := [], timer := None, active := p.active[k := r.id],
                  settled := p.settled[r.id := Resolved(k)])
  {
    assert p.idle[1..] == [] && p.requests[1..] == [];
  }

  lemma {:induction false} FillRun(opts: Options, now: int, k: nat) returns (es: seq<Event>)
    requires opts.minimumIdle < opts.connectionLimit && k <= opts.connectionLimit
    ensures Run(Init(opts, now), es) && After(Init(opts, now), es) == Busy(opts, now, k)
    decreases k
  {
    hide Step, Enabled, Busy, Init;
    if k == 0 {
      es := [];
      StartsBusy(opts, now);
    } else {
      es := FillRun(opts, now, k - 1);
      OneMoreBusy(opts, now, k - 1);
      AlwaysEnabled(Busy(opts, now, k - 1));
      OneMore(Init(opts, now), es, GetConnection([]));
      es := es + [GetConnection([])];
      OneMore(Init(opts, now), es, CheckSize);
      es := es + [CheckSize];
      OneMore(Init(opts, now), es, CreationSucceeded(k - 1));
      es := es + [CreationSucceeded(k - 1)];
    }
  }

  lemma AlwaysEnabled(p: Pool)
    ensures Enabled(p, GetConnection([])) && forall c :: Enabled(p, Destroy(c))
  {
  }

  lemma StartsBusy(opts: Options, now: int)
    requires opts.minimumIdle < opts.connectionLimit
    ensures Init(opts, now) == Busy(opts, now, 0)
  {
  }

  /** From a full pool: two requests wait, one connection comes back and another is destroyed before
      the tick. The check sees an idle connection, and the tick serves one request only. */
  lemma LeftWaiting(opts: Options, now: int) returns (es: seq<Event>)
    requires 2 <= opts.connectionLimit && opts.minimumIdle < opts.connectionLimit && opts.acquireTimeout > 0
    ensures var p := Busy(opts, now, opts.connectionLimit);
            && Run(p, es)
            && var q := After(p, es);
               Quiet(q) && q.requests != [] && Total(q) == opts.connectionLimit - 1
  {
    hide Step, Enabled, Busy;
    var n := opts.connectionLimit;
    var p := Busy(opts, now, n);
    var p1, p2 := TwoWait(opts, now);
    var p3, p4 := OneBackOneGone(opts, now, p2);
    es := [];
    OneMore(p, es, GetConnection([]));
    es := es + [GetConnection([])];
    OneMore(p, es, GetConnection([]));
    es := es + [GetConnection([])];
    OneMore(p, es, CheckSize);
    es := es + [CheckSize];
    OneMore(p, es, CheckSize);
    es := es + [CheckSize];
    OneMore(p, es, Release(0, true));
    es := es + [Release(0, true)];
    OneMore(p, es, Destroy(1));
    es := es + [Destroy(1)];
    LastServed(opts, now, p4);
    OneMore(p, es, IdleTick);
    es := es + [IdleTick];
  }

  /** Two requests wait in a full pool. */
  function Crowded(opts: Options, now: int): Pool {
    var n, due := opts.connectionLimit, now + opts.acquireTimeout;
    Busy(opts, now, n).(nextId := n + 2, requests := [Request(n, due), Request(n + 1, due)], timer := Some(due))
  }

  lemma TwoWait(opts: Options, now: int) returns (p1: Pool, p2: Pool)
    requires opts.minimumIdle < opts.connectionLimit
    ensures var p := Busy(opts, now, opts.connectionLimit);
            && Enabled(p, GetConnection([])) && Enabled(Step(p, GetConnection([])), GetConnection([]))
            && p1 == Step(Step(p, GetConnection([])), GetConnection([]))
            && Enabled(p1, CheckSize) && Enabled(Step(p1, CheckSize), CheckSize)
            && p2 == Step(Step(p1, CheckSize), CheckSize) == Crowded(opts, now)
  {
    var p := Busy(opts, now, opts.connectionLimit);
    var q := Step(p, GetConnection([]));
    p1 := Step(q, GetConnection([]));
    assert p1 == Crowded(opts, now).(checks := 2);
    p2 := Step(Step(p1, CheckSize), CheckSize);
  }

  lemma OneBackOneGone(opts: Options, now: int, p: Pool) returns (p1: Pool, p2: Pool)
    requires 2 <= opts.connectionLimit && opts.minimumIdle < opts.connectionLimit && p == Crowded(opts, now)
    ensures Enabled(p, Release(0, true)) && p1 == Step(p, Release(0, true))
    ensures Enabled(p1, Destroy(1)) && p2 == Step(p1, Destroy(1))
    ensures p2 == p.(active := Drop(Drop(p.active, 0), 1), idle := [0], ticks := 1)
    ensures |p2.active| == opts.connectionLimit - 2 && 0 !in p2.active
  {
    DropSize(p.active, 0);
    p1 := Step(p, Release(0, true));
    assert p1 == p.(active := Drop(p.active, 0), idle := [0], ticks := 1);
    DropSize(p1.active, 1);
    p2 := Step(p1, Destroy(1));
  }

  lemma LastServed(opts: Options, now: int, p: Pool)
    requires 2 <= opts.connectionLimit && opts.acquireTimeout > 0
    requires p == Crowded(opts, now).(active := p.active, idle := [0], ticks := 1)
    requires |p.active| == opts.connectionLimit - 2 && 0 !in p.active && opts.minimumIdle < opts.connectionLimit
    ensures Enabled(p, IdleTick)
    ensures var q := Step(p, IdleTick);
            Quiet(q) && q.requests != [] && Total(q) == opts.connectionLimit - 1
  {
    var p1 := p.(ticks := 0);
    var h := Hand(p1);
    assert h.requests == [p.requests[1]] && h.idle == [] && |h.active| == |p.active| + 1;
    assert CheckTimeouts(h) == h.(timer := Some(p.requests[1].timeout));
  }

  // ---------- the condition ----------

  /** In every run, requests wait in a quiet pool only when it has as many connections as it may:
      exactly if the pool is filled up to its limit anyway, or has one connection. */
  lemma LimitReachedExactly(opts: Options, now: int)
    requires opts.connectionLimit > 0 && opts.acquireTimeout > 0
    ensures (forall es | Run(Init(opts, now), es) ::
               var p := After(Init(opts, now), es);
               Quiet(p) && p.requests != [] ==> |p.active| == opts.connectionLimit)
            <==> opts.minimumIdle >= opts.connectionLimit || opts.connectionLimit == 1
  {
    hide Init, Run, After, Inv;
    if opts.minimumIdle >= opts.connectionLimit || opts.connectionLimit == 1 {
      forall es | Run(Init(opts, now), es)
        ensures var p := After(Init(opts, now), es);
                Quiet(p) && p.requests != [] ==> |p.active| == opts.connectionLimit
      {
        Reached(opts, now, es);
      }
    } else {
      var a := FillRun(opts, now, opts.connectionLimit);
      var b := LeftWaiting(opts, now);
      RunAppend(Init(opts, now), a, b);
    }
  }

  lemma Reached(opts: Options, now: int, es: seq<Event>)
    requires opts.connectionLimit > 0 && Run(Init(opts, now), es)
    requires opts.minimumIdle >= opts.connectionLimit || opts.connectionLimit == 1
    ensures var p := After(Init(opts, now), es);
            Quiet(p) && p.requests != [] ==> |p.active| == opts.connectionLimit
  {
    hide Init, Run, After, Inv;
    var p := After(Init(opts, now), es);
    EveryRun(opts, now, es);
    InitOptions(opts, now);
    InitInv(opts, now);
    RunGrows(Init(opts, now), es);
    if opts.minimumIdle >= opts.connectionLimit {
      NoRequests(opts, now);
      RunFills(Init(opts, now), es);
    }
    if p.active.Keys != {} {
      assert |p.active| != 0;
    }
  }

  lemma NoRequests(opts: Options, now: int)
    ensures Filling(Init(opts, now))
  {
  }
}
