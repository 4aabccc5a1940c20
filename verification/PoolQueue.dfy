/** Whose turn it is: requests and idle connections are taken in order, nobody is turned away early, and
    nothing is created during a back-off. */
module PoolQueue {
  import opened Bytes
  import opened PoolModel
  import opened PoolProofs
  import opened PoolSearch

  // ---------- requests are served in order ----------

  /** The first `k` waiting requests have their answers, the others wait on in their order, newer ones
      behind them. */
  predicate AdvancesBy(p: Pool, q: Pool, k: nat) {
    && k <= |p.requests| && p.requests[k..] <= q.requests
    && (forall i :: 0 <= i < k ==> p.requests[i].id in q.settled)
    && (forall id :: id in p.settled ==> id in q.settled)
  }

  ghost predicate Advances(p: Pool, q: Pool) { exists k: nat :: AdvancesBy(p, q, k) }

  lemma AdvancesTwice(p: Pool, q: Pool, r: Pool)
    requires Advances(p, q) && Advances(q, r)
    ensures Advances(p, r)
  {
    var k: nat :| AdvancesBy(p, q, k);
    var l: nat :| AdvancesBy(q, r, l);
    var m := Min(k + l, |p.requests|);
    TailOfTail(p.requests, q.requests, r.requests, k, l);
    forall i | 0 <= i < m
      ensures p.requests[i].id in r.settled
    {
      if i >= k {
        assert p.requests[i] == q.requests[i - k];
      }
    }
    assert AdvancesBy(p, r, m);
  }

  lemma TailOfTail(a: seq<Request>, b: seq<Request>, c: seq<Request>, k: nat, l: nat)
    requires k <= |a| && l <= |b| && a[k..] <= b && b[l..] <= c
    ensures var m := Min(k + l, |a|);
            a[m..] <= c && forall i :: k <= i < m ==> a[i] == b[i - k]
  {
    var m := Min(k + l, |a|);
    assert forall i :: k <= i < |a| ==> a[i] == a[k..][i - k] == b[i - k];
    if k + l <= |a| {
      assert a[m..] == a[k..][l..];
      assert forall i :: 0 <= i < |a| - m ==> a[m..][i] == b[l..][i] == c[i];
    } else {
      assert a[m..] == [];
    }
  }

  /** Nothing leaves the queue. */
  lemma NobodyServed(p: Pool, q: Pool)
    requires p.requests <= q.requests && forall id :: id in p.settled ==> id in q.settled
    ensures Advances(p, q)
  {
    assert p.requests[0..] == p.requests;
    assert AdvancesBy(p, q, 0);
  }

  lemma HeadServed(p: Pool, q: Pool)
    requires p.requests != [] && q.requests == p.requests[1..] && p.requests[0].id in q.settled
    requires forall id :: id in p.settled ==> id in q.settled
    ensures Advances(p, q)
  {
    assert AdvancesBy(p, q, 1);
  }

  lemma {:induction false} TimeoutsAdvance(p: Pool)
    ensures Advances(p, CheckTimeouts(p))
    decreases |p.requests|
  {
    hide Advances;
    if p.requests != [] && p.requests[0].timeout <= p.now {
      HeadServed(p, SettleHead(p, Rejected));
      TimeoutsAdvance(SettleHead(p, Rejected));
      AdvancesTwice(p, SettleHead(p, Rejected), CheckTimeouts(p));
    } else {
      NobodyServed(p, CheckTimeouts(p));
    }
  }

  lemma {:induction false} RejectionsAdvance(p: Pool)
    ensures Advances(p, RejectAll(p))
    decreases |p.requests|
  {
    hide Advances;
    if p.requests != [] {
      HeadServed(p, SettleHead(p, Rejected));
      RejectionsAdvance(SettleHead(p, Rejected));
      AdvancesTwice(p, SettleHead(p, Rejected), RejectAll(p));
    } else {
      NobodyServed(p, p);
    }
  }

  lemma NextAdvances(p: Pool)
    ensures Advances(p, ProcessNext(p))
  {
    hide Advances, CheckTimeouts;
    if p.requests == [] {
      NobodyServed(p, ProcessNext(p));
    } else if p.idle == [] {
      TimeoutsAdvance(p);
    } else {
      HeadServed(p, Hand(p));
      TimeoutsAdvance(Hand(p));
      AdvancesTwice(p, Hand(p), ProcessNext(p));
    }
  }

  lemma SearchAdvances(p: Pool, q: Pool, id: nat, health: seq<Health>, need: bool, k: nat)
    requires Searched(p, q, id, health, need, k)
    ensures p.requests <= q.requests && forall r :: r in p.settled ==> r in q.settled
    ensures Advances(p, q)
  {
    NobodyServed(p, q);
  }

  /** Managing the size only begins a connection attempt. */
  lemma SizeSame(p: Pool)
    ensures var q := Manage(p); q == p.(inCreation := q.inCreation, creations := q.creations)
    ensures var q := ValidateSize(p); q == p.(inCreation := q.inCreation, creations := q.creations)
  {
    hide ShouldCreateMoreConnections;
  }

  /** Steps that look neither at the queue nor for a connection. */
  predicate Aside(e: Event) {
    || e.Release? || e.Destroy? || e.ConnError? || e.CheckSize? || e.CheckAfterError? || e.CreationFailed?
    || e.RetryFires? || e.Reap? || e.TimePasses?
  }

  lemma AsideKeeps(p: Pool, e: Event)
    requires Enabled(p, e) && Aside(e)
    ensures var q := Step(p, e);
            && q.requests == p.requests && q.settled == p.settled && q.closed == p.closed && q.opts == p.opts
            && q.nextId == p.nextId && q.now >= p.now
  {
    hide Manage, ValidateSize, Drop, Remove;
    match e {
      case Release(c, valid) => SizeSame(p.(active := Drop(p.active, c)));
      case Destroy(c) => SizeSame(p.(active := Drop(p.active, c)));
      case CheckSize => SizeSame(p.(checks := p.checks - 1));
      case CheckAfterError => SizeSame(p.(errorChecks := p.errorChecks - 1));
      case RetryFires => SizeSame(p.(retryTask := false));
      case Reap(k) => SizeSame(p.(idle := p.idle[k..]));
      case _ =>
    }
  }

  lemma StepAdvances(p: Pool, e: Event)
    requires Inv(p) && Enabled(p, e)
    ensures Advances(p, Step(p, e))
  {
    hide Advances, Inv, Find, Enqueue, ProcessNext, CheckTimeouts, RejectAll, ShouldCreateMoreConnections, Manage;
    match e {
      case GetConnection(health) => RequestAdvances(p, health);
      case PingDone(id, ok, health) => AnswerAdvances(p, id, ok, health);
      case IdleTick =>
        NobodyServed(p, p.(ticks := p.ticks - 1));
        NextAdvances(p.(ticks := p.ticks - 1));
        AdvancesTwice(p, p.(ticks := p.ticks - 1), ProcessNext(p.(ticks := p.ticks - 1)));
      case CreationSucceeded(c) => CreationAdvances(p, c);
      case TimerFires => TimeoutsAdvance(p);
      case End =>
        var p1 := p.(closed := true, retryTask := false, timer := None, idle := []);
        NobodyServed(p, p1);
        NobodyServed(p, p);
        RejectionsAdvance(p1);
        AdvancesTwice(p, p1, RejectAll(p1));
      case _ => AsideAdvances(p, e);
    }
  }

  lemma AsideAdvances(p: Pool, e: Event)
    requires Enabled(p, e) && Aside(e)
    ensures Advances(p, Step(p, e))
  {
    hide Advances, Step, Aside;
    AsideKeeps(p, e);
    NobodyServed(p, Step(p, e));
  }

  lemma RequestAdvances(p: Pool, health: seq<Health>)
    requires Inv(p)
    ensures Advances(p, Step(p, GetConnection(health)))
  {
    hide Advances, Find, Inv, Searched, Enqueue;
    var p1, q := p.(nextId := p.nextId + 1), Step(p, GetConnection(health));
    NobodyServed(p, p1);
    if p.closed {
      NobodyServed(p, q);
    } else {
      var k := SomeFirst(p.idle, health);
      GetConnectionSearches(p, health, k);
      SearchAdvances(p1, q, p.nextId, health, false, k);
      AdvancesTwice(p, p1, q);
    }
  }

  lemma AnswerAdvances(p: Pool, id: nat, ok: bool, health: seq<Health>)
    requires Inv(p) && id in p.validating
    ensures Advances(p, Step(p, PingDone(id, ok, health)))
  {
    hide Advances, Find, Inv, Searched;
    var p1 := p.(validating := Drop(p.validating, id), active := Drop(p.active, p.validating[id].conn));
    var k := SomeFirst(p.idle, health);
    var q := Step(p, PingDone(id, ok, health));
    PingAnswerSearches(p, id, ok, health, k);
    if ok {
      NobodyServed(p, q);
    } else {
      NobodyServed(p, p1);
      SearchAdvances(p1, q, id, health, true, k);
      AdvancesTwice(p, p1, q);
    }
  }

  lemma CreationAdvances(p: Pool, c: nat)
    requires p.creations > 0 && c !in p.known
    ensures Advances(p, Step(p, CreationSucceeded(c)))
  {
    hide Advances, ProcessNext, ShouldCreateMoreConnections, ValidateSize;
    var p1 := p.(creations := p.creations - 1, known := p.known + {c}, inCreation := false);
    var p2 := p1.(idle := p1.idle + [c]);
    NobodyServed(p, p1);
    NobodyServed(p, p2);
    NextAdvances(p2);
    AdvancesTwice(p, p2, ProcessNext(p2));
    SizeSame(ProcessNext(p2));
    NobodyServed(ProcessNext(p2), ValidateSize(ProcessNext(p2)));
    AdvancesTwice(p, ProcessNext(p2), ValidateSize(ProcessNext(p2)));
  }

  lemma {:induction false} RunAdvances(p: Pool, es: seq<Event>)
    requires Inv(p) && Run(p, es)
    ensures Advances(p, After(p, es))
    decreases |es|
  {
    hide Advances, Step, Inv;
    if es == [] {
      NobodyServed(p, p);
    } else {
      StepKeeps(p, es[0]);
      StepAdvances(p, es[0]);
      RunAdvances(Step(p, es[0]), es[1..]);
      AdvancesTwice(p, Step(p, es[0]), After(p, es));
    }
  }

  /** In every run from a reachable state, a waiting request gets its answer only after all that were
      waiting before it have theirs. */
  lemma NoOvertaking(p: Pool, es: seq<Event>, i: nat, j: nat)
    requires Inv(p) && Run(p, es) && i < j < |p.requests|
    ensures p.requests[j].id in After(p, es).settled ==> p.requests[i].id in After(p, es).settled
  {
    hide Inv, Step;
    RunAdvances(p, es);
    RunKeeps(p, es);
    var q := After(p, es);
    var k: nat :| AdvancesBy(p, q, k);
    if p.requests[j].id in q.settled && k <= j {
      assert p.requests[j] == p.requests[k..][j - k] == q.requests[j - k];
      WaitingUnsettled(q, j - k);
    }
  }

  lemma WaitingUnsettled(p: Pool, i: nat)
    requires Inv(p) && i < |p.requests|
    ensures p.requests[i].id !in p.settled
  {
    hide Owned, Ordered;
    assert Fresh(p, p.requests[i].id);
  }

  // ---------- nobody is turned away early ----------

  /** The request `id`, if it waits, waits until `t` at least, and if an open pool has rejected it, that time
      has come. */
  predicate Patient(p: Pool, id: nat, t: int) {
    && id < p.nextId && t <= p.now + p.opts.acquireTimeout
    && (forall i :: 0 <= i < |p.requests| && p.requests[i].id == id ==> p.requests[i].timeout >= t)
    && (id in p.settled && p.settled[id] == Rejected ==> p.closed || p.now >= t)
  }

  lemma {:induction false} TimeoutsPatient(p: Pool, id: nat, t: int)
    requires Patient(p, id, t)
    ensures Patient(CheckTimeouts(p), id, t)
    decreases |p.requests|
  {
    if p.requests != [] && p.requests[0].timeout <= p.now {
      TimeoutsPatient(SettleHead(p, Rejected), id, t);
    }
  }

  lemma {:induction false} RejectionsPatient(p: Pool, id: nat, t: int)
    requires Patient(p, id, t) && p.closed
    ensures Patient(RejectAll(p), id, t)
    decreases |p.requests|
  {
    if p.requests != [] {
      RejectionsPatient(SettleHead(p, Rejected), id, t);
    }
  }

  lemma NextPatient(p: Pool, id: nat, t: int)
    requires Patient(p, id, t)
    ensures Patient(ProcessNext(p), id, t)
  {
    hide CheckTimeouts;
    if p.requests != [] {
      TimeoutsPatient(p, id, t);
      if p.idle != [] {
        TimeoutsPatient(Hand(p), id, t);
      }
    }
  }

  lemma SearchPatient(p: Pool, q: Pool, r: nat, health: seq<Health>, need: bool, k: nat, id: nat, t: int)
    requires Patient(p, id, t) && Searched(p, q, r, health, need, k)
    ensures Patient(q, id, t)
  {
  }

  /** The queue and the answers are the same, or the request is not touched. */
  lemma SamePatient(p: Pool, q: Pool, id: nat, t: int)
    requires Patient(p, id, t) && q.requests == p.requests && q.opts == p.opts
    requires id in q.settled && q.settled[id] == Rejected ==> id in p.settled && p.settled[id] == Rejected
    requires q.nextId >= p.nextId && q.now >= p.now && (p.closed ==> q.closed)
    ensures Patient(q, id, t)
  {
  }

  lemma StepPatient(p: Pool, e: Event, id: nat, t: int)
    requires Inv(p) && Patient(p, id, t) && Enabled(p, e)
    ensures Patient(Step(p, e), id, t)
  {
    hide Inv, Patient, Find, Enqueue, ProcessNext, CheckTimeouts, RejectAll, ShouldCreateMoreConnections, Manage;
    match e {
      case GetConnection(health) => RequestPatient(p, health, id, t);
      case PingDone(r, ok, health) => AnswerPatient(p, r, ok, health, id, t);
      case IdleTick =>
        SamePatient(p, p.(ticks := p.ticks - 1), id, t);
        NextPatient(p.(ticks := p.ticks - 1), id, t);
      case CreationSucceeded(c) => CreationPatient(p, c, id, t);
      case TimerFires => TimeoutsPatient(p, id, t);
      case End =>
        SamePatient(p, p.(closed := true, retryTask := false, timer := None, idle := []), id, t);
        RejectionsPatient(p.(closed := true, retryTask := false, timer := None, idle := []), id, t);
      case _ => AsidePatient(p, e, id, t);
    }
  }

  lemma AsidePatient(p: Pool, e: Event, id: nat, t: int)
    requires Enabled(p, e) && Aside(e) && Patient(p, id, t)
    ensures Patient(Step(p, e), id, t)
  {
    hide Patient, Step, Aside;
    AsideKeeps(p, e);
    SamePatient(p, Step(p, e), id, t);
  }

  lemma RequestPatient(p: Pool, health: seq<Health>, id: nat, t: int)
    requires Inv(p) && Patient(p, id, t)
    ensures Patient(Step(p, GetConnection(health)), id, t)
  {
    hide Find, Inv, Searched, Enqueue;
    var p1, q := p.(nextId := p.nextId + 1), Step(p, GetConnection(health));
    SamePatient(p, p1, id, t);
    if p.closed {
      SamePatient(p, q, id, t);
    } else {
      var k := SomeFirst(p.idle, health);
      GetConnectionSearches(p, health, k);
      SearchPatient(p1, q, p.nextId, health, false, k, id, t);
    }
  }

  lemma AnswerPatient(p: Pool, r: nat, ok: bool, health: seq<Health>, id: nat, t: int)
    requires Inv(p) && r in p.validating && Patient(p, id, t)
    ensures Patient(Step(p, PingDone(r, ok, health)), id, t)
  {
    hide Find, Inv, Searched, Patient;
    var p1 := p.(validating := Drop(p.validating, r), active := Drop(p.active, p.validating[r].conn));
    var k := SomeFirst(p.idle, health);
    var q := Step(p, PingDone(r, ok, health));
    PingAnswerSearches(p, r, ok, health, k);
    if ok {
      SamePatient(p, q, id, t);
    } else {
      SamePatient(p, p1, id, t);
      SearchPatient(p1, q, r, health, true, k, id, t);
    }
  }

  lemma CreationPatient(p: Pool, c: nat, id: nat, t: int)
    requires p.creations > 0 && c !in p.known && Patient(p, id, t)
    ensures Patient(Step(p, CreationSucceeded(c)), id, t)
  {
    hide Patient, ProcessNext, ShouldCreateMoreConnections, ValidateSize;
    var p1 := p.(creations := p.creations - 1, known := p.known + {c}, inCreation := false);
    var p2 := p1.(idle := p1.idle + [c]);
    SamePatient(p, p1, id, t);
    SamePatient(p, p2, id, t);
    NextPatient(p2, id, t);
    SizeSame(ProcessNext(p2));
    SamePatient(ProcessNext(p2), ValidateSize(ProcessNext(p2)), id, t);
  }

  lemma {:induction false} RunPatient(p: Pool, es: seq<Event>, id: nat, t: int)
    requires Inv(p) && Patient(p, id, t) && Run(p, es)
    ensures Patient(After(p, es), id, t)
    decreases |es|
  {
    hide Patient, Step, Inv;
    if es != [] {
      StepKeeps(p, es[0]);
      StepPatient(p, es[0], id, t);
      RunPatient(Step(p, es[0]), es[1..], id, t);
    }
  }

  /** In every run an open pool rejects a request only when `acquireTimeout` has passed since it came. */
  lemma NotRejectedEarly(p: Pool, health: seq<Health>, es: seq<Event>)
    requires Inv(p) && !p.closed && Run(Step(p, GetConnection(health)), es)
    ensures var q := After(Step(p, GetConnection(health)), es);
            p.nextId in q.settled && q.settled[p.nextId] == Rejected ==>
              q.closed || q.now >= p.now + p.opts.acquireTimeout
  {
    hide Step, Inv;
    FirstPatient(p, health);
    StepKeeps(p, GetConnection(health));
    RunPatient(Step(p, GetConnection(health)), es, p.nextId, p.now + p.opts.acquireTimeout);
  }

  lemma FirstPatient(p: Pool, health: seq<Health>)
    requires Inv(p) && !p.closed
    ensures Patient(Step(p, GetConnection(health)), p.nextId, p.now + p.opts.acquireTimeout)
  {
    hide Owned, Ordered, Find, Enqueue, Searched;
    var p1 := p.(nextId := p.nextId + 1);
    NotSettledYet(p);
    UnknownNumber(p);
    assert Patient(p1, p.nextId, p.now + p.opts.acquireTimeout);
    var k := SomeFirst(p.idle, health);
    GetConnectionSearches(p, health, k);
    SearchPatient(p1, Step(p, GetConnection(health)), p.nextId, health, false, k, p.nextId,
                  p.now + p.opts.acquireTimeout);
  }

  lemma UnknownNumber(p: Pool)
    requires Accounted(p, None)
    ensures forall i :: 0 <= i < |p.requests| ==> p.requests[i].id != p.nextId
  {
  }

  // ---------- idle connections are used in order ----------

  /** Connections leave the front of the idle queue and join its end, unless one of them fails. */
  predicate IdleMoves(p: Pool, q: Pool, k: nat, more: seq<nat>) {
    && k <= |p.idle + more| && q.idle == (p.idle + more)[k..]
    && forall c :: c in more ==> c !in p.idle
  }

  lemma StepIdle(p: Pool, e: Event) returns (k: nat, more: seq<nat>)
    requires Inv(p) && Enabled(p, e) && !e.ConnError?
    ensures IdleMoves(p, Step(p, e), k, more)
  {
    hide Inv, IdleMoves, Find, Enqueue, ProcessNext, CheckTimeouts, RejectAll, ShouldCreateMoreConnections;
    k, more := 0, [];
    match e {
      case GetConnection(health) => k := RequestIdle(p, health);
      case PingDone(id, ok, health) => k := AnswerIdle(p, id, ok, health);
      case IdleTick =>
        k := NextIdle(p.(ticks := p.ticks - 1), p.closed);
        FrontLeaves(p, Step(p, e), k);
      case CreationSucceeded(c) =>
        more := if p.closed then [] else [c];
        k := CreationIdle(p, c);
      case TimerFires =>
        TimeoutsIdle(p);
        FrontLeaves(p, Step(p, e), 0);
      case End =>
        k := if p.closed then 0 else |p.idle|;
        RejectsOnly(p.(closed := true, retryTask := false, timer := None, idle := []));
        FrontLeaves(p, Step(p, e), k);
      case _ => k, more := AsideIdle(p, e);
    }
  }

  lemma FrontLeaves(p: Pool, q: Pool, k: nat)
    requires k <= |p.idle| && (q.idle == p.idle[k..] || (k == 0 && q.idle == p.idle) || (k == |p.idle| && q.idle == []))
    ensures IdleMoves(p, q, k, [])
  {
    assert p.idle + [] == p.idle && p.idle[0..] == p.idle && p.idle[|p.idle|..] == [];
  }

  lemma RequestIdle(p: Pool, health: seq<Health>) returns (k: nat)
    requires Inv(p)
    ensures IdleMoves(p, Step(p, GetConnection(health)), k, [])
  {
    hide Inv, Find, Enqueue, IdleMoves;
    k := 0;
    if !p.closed {
      var n := SomeFirst(p.idle, health);
      GetConnectionSearches(p, health, n);
      k := Min(n + 1, |p.idle|);
    }
    FrontLeaves(p, Step(p, GetConnection(health)), k);
  }

  lemma AnswerIdle(p: Pool, id: nat, ok: bool, health: seq<Health>) returns (k: nat)
    requires Inv(p) && id in p.validating
    ensures IdleMoves(p, Step(p, PingDone(id, ok, health)), k, [])
  {
    hide Inv, Find, IdleMoves;
    var n := SomeFirst(p.idle, health);
    PingAnswerSearches(p, id, ok, health, n);
    k := if ok then 0 else Min(n + 1, |p.idle|);
    FrontLeaves(p, Step(p, PingDone(id, ok, health)), k);
  }

  lemma CreationIdle(p: Pool, c: nat) returns (k: nat)
    requires Inv(p) && p.creations > 0 && c !in p.known
    ensures IdleMoves(p, Step(p, CreationSucceeded(c)), k, if p.closed then [] else [c])
  {
    hide Ordered, Accounted, Alive, ProcessNext, ShouldCreateMoreConnections, ValidateSize;
    k := 0;
    if p.closed {
      FrontLeaves(p, Step(p, CreationSucceeded(c)), 0);
    } else {
      var p1 := p.(creations := p.creations - 1, known := p.known + {c}, inCreation := false);
      var p2 := p1.(idle := p1.idle + [c]);
      k := NextIdle(p2, false);
      SizeSame(ProcessNext(p2));
    }
  }

  lemma AsideIdle(p: Pool, e: Event) returns (k: nat, more: seq<nat>)
    requires Inv(p) && Enabled(p, e) && Aside(e) && !e.ConnError?
    ensures IdleMoves(p, Step(p, e), k, more)
  {
    hide Accounted, Ordered, Alive, Manage, ValidateSize, Drop;
    k, more := 0, [];
    if e.Release? && e.conn in p.active && !p.closed && e.valid {
      more := [e.conn];
      assert (p.idle + more)[0..] == p.idle + more;
    } else {
      k := if e.Reap? then e.count else 0;
      AsideFront(p, e);
      FrontLeaves(p, Step(p, e), k);
    }
  }

  lemma AsideFront(p: Pool, e: Event)
    requires Enabled(p, e) && Aside(e) && !e.ConnError? && (e.Release? ==> e.conn !in p.active || p.closed || !e.valid)
    ensures Step(p, e).idle == p.idle[if e.Reap? then e.count else 0..]
  {
    hide Manage, ValidateSize, Drop;
    assert p.idle[0..] == p.idle;
    match e {
      case Release(c, valid) => SizeSame(p.(active := Drop(p.active, c)));
      case Destroy(c) => SizeSame(p.(active := Drop(p.active, c)));
      case CheckSize => SizeSame(p.(checks := p.checks - 1));
      case CheckAfterError => SizeSame(p.(errorChecks := p.errorChecks - 1));
      case RetryFires => SizeSame(p.(retryTask := false));
      case Reap(k) => SizeSame(p.(idle := p.idle[k..]));
      case _ =>
    }
  }

  lemma {:induction false} TimeoutsIdle(p: Pool)
    ensures CheckTimeouts(p).idle == p.idle
    decreases |p.requests|
  {
    if p.requests != [] && p.requests[0].timeout <= p.now {
      TimeoutsIdle(SettleHead(p, Rejected));
    }
  }

  lemma NextIdle(p: Pool, skip: bool) returns (k: nat)
    ensures k <= |p.idle| && (skip ==> k == 0) && (!skip ==> ProcessNext(p).idle == p.idle[k..])
  {
    hide CheckTimeouts;
    k := if !skip && p.requests != [] && p.idle != [] then 1 else 0;
    if p.requests != [] {
      TimeoutsIdle(p);
      if p.idle != [] {
        TimeoutsIdle(Hand(p));
      }
    }
    assert p.idle[0..] == p.idle;
  }

  /** A connection is put to use only when none that was idle before it is idle still. */
  lemma LongestIdleFirst(p: Pool, e: Event, i: nat, j: nat)
    requires Inv(p) && Enabled(p, e) && i < j < |p.idle|
    ensures p.idle[j] in Step(p, e).active ==> p.idle[i] !in Step(p, e).idle
  {
    hide Inv, Step, IdleMoves;
    var q := Step(p, e);
    StepKeeps(p, e);
    if e.ConnError? {
      ErrorStarts(p, e.conn, j);
    } else {
      var k, more := StepIdle(p, e);
      if p.idle[j] in q.active {
        FrontOnly(p, q, k, more, i, j);
      }
    }
  }

  lemma FrontOnly(p: Pool, q: Pool, k: nat, more: seq<nat>, i: nat, j: nat)
    requires Inv(p) && Inv(q) && IdleMoves(p, q, k, more) && i < j < |p.idle| && p.idle[j] in q.active
    ensures p.idle[i] !in q.idle
  {
    hide Ordered, Accounted, Alive, Holds;
    var all := p.idle + more;
    if k <= j {
      StillIdle(p, q, k, more, j);
      assert false;
    }
    assert forall n :: 0 <= n < |q.idle| ==> q.idle[n] == all[k + n];
    assert forall n :: k <= n < |p.idle| ==> all[n] == p.idle[n] != p.idle[i];
    assert forall n :: |p.idle| <= n < |all| ==> all[n] in more;
    assert p.idle[i] in p.idle;
  }

  lemma StillIdle(p: Pool, q: Pool, k: nat, more: seq<nat>, j: nat)
    requires IdleMoves(p, q, k, more) && k <= j < |p.idle|
    ensures j - k < |q.idle| && q.idle[j - k] == p.idle[j]
  {
    assert (p.idle + more)[j] == p.idle[j];
  }

  lemma ErrorStarts(p: Pool, c: nat, j: nat)
    requires Inv(p) && j < |p.idle|
    ensures p.idle[j] !in Step(p, ConnError(c)).active
  {
  }

  // ---------- the back-off ----------

  /** While a back-off is pending no connection attempt begins, whatever happens, until it is over. */
  lemma BackOffHolds(p: Pool, e: Event)
    requires Enabled(p, e) && p.retryTask && !e.RetryFires?
    ensures Step(p, e).creations <= p.creations
  {
    hide Find, Enqueue, ProcessNext, CheckTimeouts, RejectAll, ShouldCreateMoreConnections;
    match e {
      case GetConnection(health) => FindCreates(p.(nextId := p.nextId + 1), p.nextId, health, false);
      case PingDone(id, ok, health) =>
        var p1 := p.(validating := Drop(p.validating, id));
        FindCreates(p1.(active := Drop(p1.active, p.validating[id].conn)), id, health, true);
      case IdleTick => NextCreates(p.(ticks := p.ticks - 1));
      case CreationSucceeded(c) =>
        var p1 := p.(creations := p.creations - 1, known := p.known + {c}, inCreation := false);
        NextCreates(p1.(idle := p1.idle + [c]));
      case TimerFires => TimeoutsCreate(p);
      case End => RejectsOnly(p.(closed := true, retryTask := false, timer := None, idle := []));
      case _ =>
    }
  }

  lemma {:induction false} FindCreates(p: Pool, id: nat, health: seq<Health>, need: bool)
    ensures Find(p, id, health, need).creations == p.creations && Enqueue(p, id).creations == p.creations
    decreases |p.idle|
  {
    if p.idle != [] && health != [] && health[0] == Bad {
      FindCreates(p.(idle := p.idle[1..], active := Drop(p.active[p.idle[0] := id], p.idle[0])), id, health[1..], true);
    }
  }

  lemma {:induction false} TimeoutsCreate(p: Pool)
    ensures CheckTimeouts(p).creations == p.creations && CheckTimeouts(p).retryTask == p.retryTask
    decreases |p.requests|
  {
    if p.requests != [] && p.requests[0].timeout <= p.now {
      TimeoutsCreate(SettleHead(p, Rejected));
    }
  }

  lemma NextCreates(p: Pool)
    ensures ProcessNext(p).creations == p.creations && ProcessNext(p).retryTask == p.retryTask
  {
    hide CheckTimeouts;
    if p.requests != [] {
      TimeoutsCreate(p);
      if p.idle != [] {
        TimeoutsCreate(Hand(p));
      }
    }
  }
}
