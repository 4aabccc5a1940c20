/** Which connection a request gets: the search by position, and connections once found bad. */
module PoolSearch {
  import opened Bytes
  import opened PoolModel
  import opened PoolProofs

  // ---------- the search, by position ----------

  /** How the i-th idle connection is found to be; those beyond the list are fine. */
  function HealthAt(health: seq<Health>, i: nat): Health { if i < |health| then health[i] else Good }

  /** The first `k` of the idle connections are bad, and the next one, if there is one, is not. */
  predicate FirstNotBad(idle: seq<nat>, health: seq<Health>, k: nat) {
    && k <= |idle|
    && (forall i :: 0 <= i < k ==> HealthAt(health, i) == Bad)
    && (k < |idle| ==> HealthAt(health, k) != Bad)
  }

  lemma {:induction false} SomeFirst(idle: seq<nat>, health: seq<Health>) returns (k: nat)
    ensures FirstNotBad(idle, health, k)
  {
    k := 0;
    while k < |idle| && HealthAt(health, k) == Bad
      invariant k <= |idle| && forall i :: 0 <= i < k ==> HealthAt(health, i) == Bad
    {
      k := k + 1;
    }
  }

  /** The first that is not bad is handed out if it is good, and kept for
      the request if it must be pinged; with none left the request waits, or is refused by a closed pool.
      The pool size is checked afterwards if one was bad, if it was asked for, or if the request waits. */
  predicate Searched(p: Pool, q: Pool, id: nat, health: seq<Health>, need: bool, k: nat) {
    && FirstNotBad(p.idle, health, k)
    && var check := if need || k > 0 then 1 else 0;
    if k == |p.idle| then
      if p.closed then q == p.(idle := [], checks := p.checks + check, settled := p.settled[id := Rejected])
      else
        var due := p.now + p.opts.acquireTimeout;
        q == p.(idle := [], checks := p.checks + check + 1, requests := p.requests + [Request(id, due)],
                timer := if p.timer.None? then Some(due) else p.timer)
    else
      var c := p.idle[k];
      var p1 := p.(idle := p.idle[k + 1..], active := p.active[c := id]);
      if HealthAt(health, k) == Good then
        q == p1.(checks := p.checks + check, settled := p.settled[id := Resolved(c)])
      else q == p1.(validating := p.validating[id := Ping(c, need || k > 0)])
  }

  predicate IdleApart(p: Pool) {
    && (forall i, j :: 0 <= i < j < |p.idle| ==> p.idle[i] != p.idle[j])
    && (forall i :: 0 <= i < |p.idle| ==> p.idle[i] !in p.active)
  }

  lemma {:induction false} SearchByPosition(p: Pool, id: nat, health: seq<Health>, need: bool, k: nat)
    requires IdleApart(p) && id !in p.settled && id !in p.validating && FirstNotBad(p.idle, health, k)
    ensures Searched(p, Find(p, id, health, need), id, health, need, k)
    decreases k
  {
    hide Searched, Find, FirstNotBad, IdleApart;
    if k == 0 {
      StopsAtOnce(p, id, health, need);
    } else {
      BadFirst(p, id, health, need, k);
      var p1 := p.(idle := p.idle[1..]);
      SearchByPosition(p1, id, health[1..], true, k - 1);
      OneMoreBad(p, Find(p1, id, health[1..], true), id, health, need, k);
    }
  }

  lemma StopsAtOnce(p: Pool, id: nat, health: seq<Health>, need: bool)
    requires IdleApart(p) && id !in p.settled && id !in p.validating && FirstNotBad(p.idle, health, 0)
    ensures Searched(p, Find(p, id, health, need), id, health, need, 0)
  {
  }

  lemma BadFirst(p: Pool, id: nat, health: seq<Health>, need: bool, k: nat)
    requires IdleApart(p) && FirstNotBad(p.idle, health, k) && k > 0
    ensures health != [] && p.idle != [] && FirstNotBad(p.idle[1..], health[1..], k - 1)
    ensures IdleApart(p.(idle := p.idle[1..]))
    ensures Find(p, id, health, need) == Find(p.(idle := p.idle[1..]), id, health[1..], true)
  {
    assert HealthAt(health, 0) == Bad;
    assert forall i :: 0 <= i < |p.idle| - 1 ==> HealthAt(health[1..], i) == HealthAt(health, i + 1);
    assert Drop(p.active[p.idle[0] := id], p.idle[0]) == p.active;
  }

  lemma OneMoreBad(p: Pool, q: Pool, id: nat, health: seq<Health>, need: bool, k: nat)
    requires IdleApart(p) && FirstNotBad(p.idle, health, k) && 0 < k && health != []
    requires Searched(p.(idle := p.idle[1..]), q, id, health[1..], true, k - 1)
    ensures Searched(p, q, id, health, need, k)
  {
    var rest := p.idle[1..];
    assert forall i :: 0 < i < k ==> p.idle[i] == rest[i - 1];
    assert k < |p.idle| ==> p.idle[k] == rest[k - 1] && rest[k..] == p.idle[k + 1..];
    assert HealthAt(health, k) == HealthAt(health[1..], k - 1);
  }

  /** The connections found bad are neither idle nor active any more. */
  lemma BadAreGone(p: Pool, q: Pool, id: nat, health: seq<Health>, need: bool, k: nat)
    requires IdleApart(p) && Searched(p, q, id, health, need, k)
    ensures forall i :: 0 <= i < k ==> p.idle[i] !in q.idle && p.idle[i] !in q.active
  {
  }

  lemma OwnedApart(p: Pool)
    requires Owned(p)
    ensures IdleApart(p)
  {
  }

  /** `getConnection` of a pool that is open and has idle connections. */
  lemma GetConnectionSearches(p: Pool, health: seq<Health>, k: nat)
    requires Inv(p) && !p.closed && FirstNotBad(p.idle, health, k)
    ensures Searched(p.(nextId := p.nextId + 1), Step(p, GetConnection(health)), p.nextId, health, false, k)
  {
    hide Owned, Ordered, Searched, Find;
    OwnedApart(p);
    NotSettledYet(p);
    var p1 := p.(nextId := p.nextId + 1);
    SearchByPosition(p1, p.nextId, health, false, k);
    if p.idle == [] {
      EmptySearch(p1, p.nextId, health);
    }
  }

  lemma EmptySearch(p: Pool, id: nat, health: seq<Health>)
    requires p.idle == []
    ensures Find(p, id, health, false) == Enqueue(p, id)
  {
  }

  /** The answer to a ping: the connection is handed out, or forgotten and the search goes on. */
  lemma PingAnswerSearches(p: Pool, id: nat, ok: bool, health: seq<Health>, k: nat)
    requires Inv(p) && id in p.validating && FirstNotBad(p.idle, health, k)
    ensures var ping, q := p.validating[id], Step(p, PingDone(id, ok, health));
            if ok then
              q == p.(validating := Drop(p.validating, id), settled := p.settled[id := Resolved(ping.conn)],
                      checks := p.checks + if ping.needCheck then 1 else 0)
            else
              var p1 := p.(validating := Drop(p.validating, id), active := Drop(p.active, ping.conn));
              Searched(p1, q, id, health, true, k)
  {
    hide Owned, Ordered, Searched, Find;
    OwnedApart(p);
    NotSettledYet(p);
    var p1 := p.(validating := Drop(p.validating, id), active := Drop(p.active, p.validating[id].conn));
    if !ok {
      SearchByPosition(p1, id, health, true, k);
    }
  }

  // ---------- a connection that is gone stays gone ----------

  /** Known once, and now neither idle nor active nor being pinged. */
  predicate Gone(p: Pool, c: nat) {
    && c in p.known && c !in p.idle && c !in p.active
    && forall r :: r in p.validating ==> p.validating[r].conn != c
  }

  /** It is still gone in `q`, and has been handed to nobody since `p`. */
  predicate NotGiven(p: Pool, q: Pool, c: nat) {
    && Gone(q, c)
    && forall r :: r in q.settled && q.settled[r] == Resolved(c) ==> r in p.settled && p.settled[r] == Resolved(c)
  }

  lemma Twice(p: Pool, q: Pool, r: Pool, c: nat)
    requires NotGiven(p, q, c) && NotGiven(q, r, c)
    ensures NotGiven(p, r, c)
  {
  }

  lemma HeadGives(p: Pool, how: Settlement, c: nat)
    requires Gone(p, c) && p.requests != [] && how != Resolved(c)
    ensures NotGiven(p, SettleHead(p, how), c)
  {
  }

  lemma {:induction false} TimeoutsGive(p: Pool, c: nat)
    requires Gone(p, c)
    ensures NotGiven(p, CheckTimeouts(p), c)
    decreases |p.requests|
  {
    hide NotGiven;
    if p.requests != [] && p.requests[0].timeout <= p.now {
      var q := SettleHead(p, Rejected);
      HeadGives(p, Rejected, c);
      GoneIn(p, q, c);
      TimeoutsGive(q, c);
      Twice(p, q, CheckTimeouts(p), c);
    } else {
      TimerGives(p, CheckTimeouts(p), c);
    }
  }

  lemma TimerGives(p: Pool, q: Pool, c: nat)
    requires Gone(p, c) && q == p.(timer := q.timer)
    ensures NotGiven(p, q, c)
  {
  }

  lemma {:induction false} RejectionsGive(p: Pool, c: nat)
    requires Gone(p, c)
    ensures NotGiven(p, RejectAll(p), c)
    decreases |p.requests|
  {
    if p.requests != [] {
      var q := SettleHead(p, Rejected);
      HeadGives(p, Rejected, c);
      RejectionsGive(q, c);
      Twice(p, q, RejectAll(p), c);
    }
  }

  lemma NextGives(p: Pool, c: nat)
    requires Gone(p, c)
    ensures NotGiven(p, ProcessNext(p), c)
  {
    hide CheckTimeouts, Gone, NotGiven;
    if p.requests == [] {
      TimerGives(p, ProcessNext(p), c);
    } else if p.idle == [] {
      TimeoutsGive(p, c);
    } else {
      HandGives(p, c);
      TimeoutsGive(Hand(p), c);
      Twice(p, Hand(p), ProcessNext(p), c);
    }
  }

  lemma HandGives(p: Pool, c: nat)
    requires Gone(p, c) && p.idle != [] && p.requests != []
    ensures NotGiven(p, Hand(p), c) && Gone(Hand(p), c)
  {
  }

  lemma {:induction false} FindGives(p: Pool, id: nat, health: seq<Health>, need: bool, c: nat)
    requires Gone(p, c)
    ensures NotGiven(p, Find(p, id, health, need), c)
    decreases |p.idle|
  {
    hide Gone, NotGiven, Enqueue, Checked, Settle, Drop;
    if p.idle == [] {
      WaitGives(p, id, need, c);
    } else {
      match if health == [] then Good else health[0] {
        case Good => GoodGives(p, id, need, c);
        case MustPing => PingGives(p, id, need, c);
        case Bad =>
          var p1 := Try(p, id);
          BadGives(p, id, c);
          FindGives(p1.(active := Drop(p1.active, p.idle[0])), id, health[1..], true, c);
          Twice(p, p1.(active := Drop(p1.active, p.idle[0])), Find(p, id, health, need), c);
      }
    }
  }

  lemma WaitGives(p: Pool, id: nat, need: bool, c: nat)
    requires Gone(p, c)
    ensures NotGiven(p, Enqueue(Checked(p, need), id), c)
  {
  }

  lemma GoodGives(p: Pool, id: nat, need: bool, c: nat)
    requires Gone(p, c) && p.idle != []
    ensures NotGiven(p, Settle(Checked(Try(p, id), need), id, Resolved(p.idle[0])), c)
  {
  }

  lemma PingGives(p: Pool, id: nat, need: bool, c: nat)
    requires Gone(p, c) && p.idle != []
    ensures NotGiven(p, Try(p, id).(validating := p.validating[id := Ping(p.idle[0], need)]), c)
  {
  }

  lemma BadGives(p: Pool, id: nat, c: nat)
    requires Gone(p, c) && p.idle != []
    ensures var q := Try(p, id).(active := Drop(Try(p, id).active, p.idle[0]));
            Gone(q, c) && NotGiven(p, q, c)
  {
  }

  lemma {:induction false} RemoveOnly(q: seq<nat>, e: nat)
    ensures forall x :: x in Remove(q, e) ==> x in q && x != e
    ensures e !in Remove(q, e)
  {
    if q != [] {
      RemoveOnly(q[1..], e);
    }
  }

  lemma GoneStays(p: Pool, e: Event, c: nat)
    requires Gone(p, c) && Enabled(p, e)
    ensures NotGiven(p, Step(p, e), c)
  {
    hide Find, ProcessNext, RejectAll, CheckTimeouts, ShouldCreateMoreConnections, Enqueue, NotGiven, Gone;
    match e {
      case GetConnection(health) => RequestGives(p, health, c);
      case PingDone(id, ok, health) => AnswerGives(p, id, ok, health, c);
      case IdleTick =>
        SameGives(p, p.(ticks := p.ticks - 1), c);
        NextGives(p.(ticks := p.ticks - 1), c);
        Twice(p, p.(ticks := p.ticks - 1), Step(p, e), c);
      case CreationSucceeded(x) => CreationGives(p, x, c);
      case TimerFires => TimeoutsGive(p, c);
      case End => EndGives(p, c);
      case _ => OthersGive(p, e, c);
    }
  }

  /** Nothing about connections and answers has changed. */
  lemma SameGives(p: Pool, q: Pool, c: nat)
    requires Gone(p, c) && q.known == p.known && q.idle == p.idle && q.active == p.active
    requires q.validating == p.validating && q.settled == p.settled
    ensures Gone(q, c) && NotGiven(p, q, c)
  {
  }

  lemma RequestGives(p: Pool, health: seq<Health>, c: nat)
    requires Gone(p, c)
    ensures NotGiven(p, Step(p, GetConnection(health)), c)
  {
    hide Find, Gone, NotGiven, Enqueue;
    var p1 := p.(nextId := p.nextId + 1);
    SameGives(p, p1, c);
    if p.closed {
      RejectGives(p1, p.nextId, c);
    } else if p.idle == [] {
      WaitGives(p1, p.nextId, false, c);
    } else {
      FindGives(p1, p.nextId, health, false, c);
    }
    Twice(p, p1, Step(p, GetConnection(health)), c);
  }

  lemma RejectGives(p: Pool, id: nat, c: nat)
    requires Gone(p, c)
    ensures NotGiven(p, Settle(p, id, Rejected), c)
  {
  }

  lemma AnswerGives(p: Pool, id: nat, ok: bool, health: seq<Health>, c: nat)
    requires Gone(p, c) && id in p.validating
    ensures NotGiven(p, Step(p, PingDone(id, ok, health)), c)
  {
    hide Find;
    var p1 := p.(validating := Drop(p.validating, id));
    var p2 := p1.(active := Drop(p1.active, p.validating[id].conn));
    assert Gone(p2, c) && NotGiven(p, p2, c);
    if !ok {
      FindGives(p2, id, health, true, c);
      Twice(p, p2, Step(p, PingDone(id, ok, health)), c);
    }
  }

  lemma CreationGives(p: Pool, x: nat, c: nat)
    requires Gone(p, c) && p.creations > 0 && x !in p.known
    ensures NotGiven(p, Step(p, CreationSucceeded(x)), c)
  {
    hide ProcessNext, ShouldCreateMoreConnections;
    var p1 := p.(creations := p.creations - 1, known := p.known + {x}, inCreation := false);
    assert Gone(p1, c) && NotGiven(p, p1, c);
    if !p.closed {
      var p2 := p1.(idle := p1.idle + [x]);
      assert Gone(p2, c) && NotGiven(p, p2, c);
      hide Gone, NotGiven;
      NextGives(p2, c);
      Twice(p, p2, ProcessNext(p2), c);
      GoneIn(p, ProcessNext(p2), c);
      SameGives(ProcessNext(p2), Step(p, CreationSucceeded(x)), c);
      Twice(p, ProcessNext(p2), Step(p, CreationSucceeded(x)), c);
    }
  }

  lemma GoneIn(p: Pool, q: Pool, c: nat)
    requires NotGiven(p, q, c)
    ensures Gone(q, c)
  {
  }

  lemma EndGives(p: Pool, c: nat)
    requires Gone(p, c)
    ensures NotGiven(p, Step(p, End), c)
  {
    hide RejectAll;
    if !p.closed {
      var q := p.(closed := true, retryTask := false, timer := None, idle := []);
      assert Gone(q, c) && NotGiven(p, q, c);
      RejectionsGive(q, c);
      Twice(p, q, Step(p, End), c);
    }
  }

  lemma OthersGive(p: Pool, e: Event, c: nat)
    requires Gone(p, c) && Enabled(p, e)
    requires e.Release? || e.Destroy? || e.ConnError? || e.CheckSize? || e.CheckAfterError? || e.CreationFailed?
             || e.RetryFires? || e.Reap? || e.TimePasses?
    ensures NotGiven(p, Step(p, e), c)
  {
    hide Gone, NotGiven;
    OthersMove(p, e);
    FewerGive(p, Step(p, e), c);
  }

  /** Idle and active connections come from the idle and active ones, and nothing else is new. */
  predicate Moved(p: Pool, q: Pool) {
    && q.known == p.known && q.validating == p.validating && q.settled == p.settled
    && (forall x :: x in q.idle ==> x in p.idle || (x in p.active && p.active[x] in p.settled))
    && (forall x :: x in q.active ==> x in p.active && q.active[x] == p.active[x])
  }

  lemma FewerGive(p: Pool, q: Pool, c: nat)
    requires Gone(p, c) && Moved(p, q)
    ensures NotGiven(p, q, c)
  {
  }

  lemma OthersMove(p: Pool, e: Event)
    requires Enabled(p, e)
    requires e.Release? || e.Destroy? || e.ConnError? || e.CheckSize? || e.CheckAfterError? || e.CreationFailed?
             || e.RetryFires? || e.Reap? || e.TimePasses?
    ensures Moved(p, Step(p, e))
  {
    hide Manage, ValidateSize, Moved;
    match e {
      case Release(c, valid) => ReleaseMoves(p, c, valid);
      case Destroy(c) => SizeMoves(p, p.(active := Drop(p.active, c)));
      case ConnError(c) => ErrorMoves(p, c);
      case CheckSize => SizeMoves(p, p.(checks := p.checks - 1));
      case CheckAfterError => SizeMoves(p, p.(errorChecks := p.errorChecks - 1));
      case CreationFailed => SizeMoves(p, Step(p, e));
      case RetryFires => SizeMoves(p, p.(retryTask := false));
      case Reap(k) => SizeMoves(p, p.(idle := p.idle[k..]));
      case TimePasses(t) => SizeMoves(p, Step(p, e));
    }
  }

  /** Managing the size moves no connection. */
  lemma SizeMoves(p: Pool, q: Pool)
    requires q.known == p.known && q.validating == p.validating && q.settled == p.settled
    requires (forall x :: x in q.idle ==> x in p.idle) || q.idle == p.idle
    requires forall x :: x in q.active ==> x in p.active && q.active[x] == p.active[x]
    ensures Moved(p, q) && Moved(p, Manage(q)) && Moved(p, ValidateSize(q))
  {
    hide ShouldCreateMoreConnections;
  }

  lemma ReleaseMoves(p: Pool, c: nat, valid: bool)
    requires Enabled(p, Release(c, valid))
    ensures Moved(p, Step(p, Release(c, valid)))
  {
    hide Manage, ValidateSize;
    if c in p.active {
      SizeMoves(p, p.(active := Drop(p.active, c)));
    }
  }

  lemma ErrorMoves(p: Pool, c: nat)
    ensures Moved(p, Step(p, ConnError(c)))
  {
    RemoveOnly(p.idle, c);
  }

  /** A connection that is gone is handed to nobody in any run that follows. */
  lemma {:induction false} GoneForGood(p: Pool, es: seq<Event>, c: nat)
    requires Gone(p, c) && Run(p, es)
    ensures NotGiven(p, After(p, es), c)
    decreases |es|
  {
    hide Step, Gone, NotGiven;
    if es == [] {
      SameGives(p, p, c);
    } else {
      GoneStays(p, es[0], c);
      GoneIn(p, Step(p, es[0]), c);
      GoneForGood(Step(p, es[0]), es[1..], c);
      Twice(p, Step(p, es[0]), After(p, es), c);
    }
  }

  // ---------- pinged connections ----------

  /** A connection being pinged is not idle, and is pinged for one request, which is the one it is
      taken for unless it has been dropped meanwhile. */
  predicate PingApart(p: Pool) {
    && (forall r :: r in p.validating ==>
          && p.validating[r].conn in p.known && p.validating[r].conn !in p.idle
          && (p.validating[r].conn in p.active ==> p.active[p.validating[r].conn] == r))
    && (forall r, t :: r in p.validating && t in p.validating && r != t ==>
          p.validating[r].conn != p.validating[t].conn)
  }

  /** Where idle, active and pinged connections can have come from. */
  predicate Drawn(p: Pool, q: Pool) {
    && p.known <= q.known
    && (forall r :: r in q.validating ==> r in p.validating && q.validating[r] == p.validating[r])
    && (forall x :: x in q.idle ==> x in p.idle || x !in p.known || (x in p.active && p.active[x] in p.settled))
    && (forall x :: x in q.active ==> (x in p.active && q.active[x] == p.active[x]) || x in p.idle || x !in p.known)
  }

  predicate Pending(p: Pool) { forall r :: r in p.validating ==> r !in p.settled }

  lemma DrawnApart(p: Pool, q: Pool)
    requires PingApart(p) && Pending(p) && Drawn(p, q)
    ensures PingApart(q)
  {
  }

  lemma AccountedPending(p: Pool, hand: Option<nat>)
    requires Accounted(p, hand)
    ensures Pending(p)
  {
  }

  lemma SearchedApart(p: Pool, q: Pool, id: nat, health: seq<Health>, need: bool, k: nat)
    requires PingApart(p) && Owned(p) && Pending(p) && id !in p.validating && Searched(p, q, id, health, need, k)
    ensures PingApart(q)
  {
    hide Holds, PingApart, Pending, Owned;
    var mid := q.(validating := p.validating);
    SearchDraws(p, mid, id, k);
    DrawnApart(p, mid);
    if q.validating != p.validating {
      NewPing(p, mid, id, k, need || k > 0);
    }
  }

  lemma SearchDraws(p: Pool, q: Pool, id: nat, k: nat)
    requires k <= |p.idle| && q.known == p.known && q.validating == p.validating
    requires q.idle == if k < |p.idle| then p.idle[k + 1..] else []
    requires q.active == if k < |p.idle| then p.active[p.idle[k] := id] else p.active
    ensures Drawn(p, q)
  {
    assert forall x :: x in q.idle ==> x in p.idle;
  }

  lemma NewPing(p: Pool, q: Pool, id: nat, k: nat, need: bool)
    requires PingApart(p) && Owned(p) && k < |p.idle| && PingApart(q) && q.validating == p.validating
    requires q.idle == p.idle[k + 1..] && q.active == p.active[p.idle[k] := id] && q.known == p.known
    requires id !in p.validating
    ensures PingApart(q.(validating := q.validating[id := Ping(p.idle[k], need)]))
  {
    hide Holds;
    assert p.idle[k] in p.idle && forall i :: k < i < |p.idle| ==> p.idle[i] != p.idle[k];
  }

  lemma NextDraws(p: Pool)
    requires Core(p, None)
    ensures var q := ProcessNext(p);
            && q.known == p.known && q.validating == p.validating && (forall x :: x in q.idle ==> x in p.idle)
            && (forall x :: x in q.active ==> (x in p.active && q.active[x] == p.active[x]) || x in p.idle)
  {
    hide Owned, Accounted, Ordered, CheckTimeouts;
    if p.requests != [] {
      CheckTimeoutsKeeps(p);
      if p.idle != [] {
        HandKeeps(p);
        CheckTimeoutsKeeps(Hand(p));
      }
    }
  }

  lemma StepApart(p: Pool, e: Event)
    requires Inv(p) && PingApart(p) && Enabled(p, e)
    ensures PingApart(Step(p, e))
  {
    hide PingApart, Pending, Owned, Accounted, Ordered, Find, ProcessNext, RejectAll, CheckTimeouts, Enqueue, Drawn;
    AccountedPending(p, None);
    match e {
      case GetConnection(health) => RequestApart(p, health);
      case PingDone(id, ok, health) => AnswerApart(p, id, ok, health);
      case IdleTick =>
        TickDraws(p);
        DrawnApart(p, Step(p, e));
      case CreationSucceeded(x) =>
        CreationDraws(p, x);
        DrawnApart(p, Step(p, e));
      case TimerFires =>
        CheckTimeoutsKeeps(p);
        SameDraws(p, Step(p, e));
        DrawnApart(p, Step(p, e));
      case End =>
        EndDraws(p);
        DrawnApart(p, Step(p, e));
      case _ =>
        OthersMove(p, e);
        MovedDraws(p, Step(p, e));
        DrawnApart(p, Step(p, e));
    }
  }

  lemma MovedDraws(p: Pool, q: Pool)
    requires Moved(p, q)
    ensures Drawn(p, q)
  {
  }

  lemma SameDraws(p: Pool, q: Pool)
    requires q.known == p.known && q.validating == p.validating && q.active == p.active
    requires forall x :: x in q.idle ==> x in p.idle
    ensures Drawn(p, q)
  {
  }

  lemma RequestApart(p: Pool, health: seq<Health>)
    requires Inv(p) && PingApart(p)
    ensures PingApart(Step(p, GetConnection(health)))
  {
    hide PingApart, Pending, Owned, Accounted, Ordered, Find, Enqueue;
    var p1 := p.(nextId := p.nextId + 1);
    AccountedPending(p, None);
    NewIdAccounted(p);
    AccountedPending(p1, Some(p.nextId));
    SameDraws(p, p1);
    DrawnApart(p, p1);
    NotSettledYet(p);
    if p.closed {
      SameDraws(p, Settle(p1, p.nextId, Rejected));
      DrawnApart(p, Settle(p1, p.nextId, Rejected));
    } else {
      var k := SomeFirst(p.idle, health);
      GetConnectionSearches(p, health, k);
      OwnedNumber(p);
      NewNumber(p);
      SearchedApart(p1, Step(p, GetConnection(health)), p.nextId, health, false, k);
    }
  }

  lemma OwnedNumber(p: Pool)
    requires Owned(p)
    ensures Owned(p.(nextId := p.nextId + 1))
  {
  }

  lemma NewNumber(p: Pool)
    requires Accounted(p, None)
    ensures p.nextId !in p.validating
  {
  }

  lemma AnswerApart(p: Pool, id: nat, ok: bool, health: seq<Health>)
    requires Inv(p) && PingApart(p) && id in p.validating
    ensures PingApart(Step(p, PingDone(id, ok, health)))
  {
    hide PingApart, Pending, Owned, Ordered, Accounted, Find, Drawn;
    AccountedPending(p, None);
    var p1 := p.(validating := Drop(p.validating, id), active := Drop(p.active, p.validating[id].conn));
    var k := SomeFirst(p.idle, health);
    PingAnswerSearches(p, id, ok, health, k);
    if ok {
      LessDraws(p, id, Step(p, PingDone(id, ok, health)));
      DrawnApart(p, Step(p, PingDone(id, ok, health)));
    } else {
      LessDraws(p, id, p1);
      DrawnApart(p, p1);
      PingBadOwned(p, id);
      FewerPending(p, id, p1);
      SearchedApart(p1, Step(p, PingDone(id, ok, health)), id, health, true, k);
    }
  }

  lemma FewerPending(p: Pool, id: nat, q: Pool)
    requires Pending(p) && q.settled == p.settled && q.validating == Drop(p.validating, id)
    ensures Pending(q) && id !in q.validating
  {
  }

  lemma LessDraws(p: Pool, id: nat, q: Pool)
    requires q.known == p.known && q.idle == p.idle && q.validating == Drop(p.validating, id)
    requires q.active == p.active || (id in p.validating && q.active == Drop(p.active, p.validating[id].conn))
    ensures Drawn(p, q)
  {
  }

  lemma TickDraws(p: Pool)
    requires Inv(p) && p.ticks > 0
    ensures Drawn(p, Step(p, IdleTick))
  {
    hide Owned, Accounted, Ordered, ProcessNext;
    var p1 := p.(ticks := p.ticks - 1);
    CountersOnly(p, p1, None);
    NextDraws(p1);
  }

  lemma CreationDraws(p: Pool, x: nat)
    requires Inv(p) && p.creations > 0 && x !in p.known
    ensures Drawn(p, Step(p, CreationSucceeded(x)))
  {
    hide Owned, Accounted, Ordered, ProcessNext, ShouldCreateMoreConnections;
    if !p.closed {
      var p1 := p.(creations := p.creations - 1, known := p.known + {x}, inCreation := false);
      var p2 := p1.(idle := p1.idle + [x]);
      CreatedOwned(p, x);
      AccountedSame(p, p2, None);
      OpenOrdered(p, p2);
      NextDraws(p2);
    }
  }

  lemma EndDraws(p: Pool)
    requires Inv(p)
    ensures Drawn(p, Step(p, End))
  {
    hide Owned, Accounted, Ordered, RejectAll;
    if !p.closed {
      RejectsOnly(p.(closed := true, retryTask := false, timer := None, idle := []));
    }
  }

  lemma {:induction false} RejectsOnly(p: Pool)
    ensures var q := RejectAll(p); q == p.(requests := [], settled := q.settled)
    decreases |p.requests|
  {
    if p.requests != [] {
      RejectsOnly(SettleHead(p, Rejected));
    }
  }

  lemma {:induction false} RunApart(p: Pool, es: seq<Event>)
    requires Inv(p) && PingApart(p) && Run(p, es)
    ensures Inv(After(p, es)) && PingApart(After(p, es))
    decreases |es|
  {
    hide Inv, Step, PingApart;
    if es != [] {
      StepKeeps(p, es[0]);
      StepApart(p, es[0]);
      RunApart(Step(p, es[0]), es[1..]);
    }
  }

  // ---------- results ----------

  /** For every reachable state and every run from there: a connection found bad by a search, in front of
      the first that is not, is never handed to anybody again. */
  lemma BadForGood(opts: Options, now: int, es: seq<Event>, health: seq<Health>, k: nat, more: seq<Event>)
    requires opts.connectionLimit > 0 && Run(Init(opts, now), es)
    requires var p := After(Init(opts, now), es);
             && !p.closed && FirstNotBad(p.idle, health, k) && Run(Step(p, GetConnection(health)), more)
    ensures var p := After(Init(opts, now), es);
            var q := Step(p, GetConnection(health));
            forall i :: 0 <= i < k ==> NotGiven(q, After(q, more), p.idle[i])
  {
    hide Inv, Step, PingApart, Init, NotGiven, Searched, HealthAt;
    var p := After(Init(opts, now), es);
    InitInv(opts, now);
    InitApart(opts, now);
    RunApart(Init(opts, now), es);
    BadGone(p, health, k);
    var q := Step(p, GetConnection(health));
    forall i | 0 <= i < k
      ensures NotGiven(q, After(q, more), p.idle[i])
    {
      GoneForGood(q, more, p.idle[i]);
    }
  }

  lemma InitApart(opts: Options, now: int)
    ensures PingApart(Init(opts, now))
  {
  }

  lemma BadGone(p: Pool, health: seq<Health>, k: nat)
    requires Inv(p) && PingApart(p) && !p.closed && FirstNotBad(p.idle, health, k)
    ensures forall i :: 0 <= i < k ==> Gone(Step(p, GetConnection(health)), p.idle[i])
  {
    hide Ordered, Accounted, Step;
    var p1, q := p.(nextId := p.nextId + 1), Step(p, GetConnection(health));
    GetConnectionSearches(p, health, k);
    OwnedNumber(p);
    OwnedApart(p1);
    BadAreGone(p1, q, p.nextId, health, false, k);
    assert forall i :: 0 <= i < k ==> p.idle[i] in p.idle;
  }

  /** The same for a connection whose ping fails. */
  lemma FailedPingForGood(opts: Options, now: int, es: seq<Event>, id: nat, health: seq<Health>, more: seq<Event>)
    requires opts.connectionLimit > 0 && Run(Init(opts, now), es)
    requires var p := After(Init(opts, now), es);
             id in p.validating && Run(Step(p, PingDone(id, false, health)), more)
    ensures var p := After(Init(opts, now), es);
            var q := Step(p, PingDone(id, false, health));
            NotGiven(q, After(q, more), p.validating[id].conn)
  {
    hide Inv, Step, PingApart, Init, NotGiven;
    var p := After(Init(opts, now), es);
    InitInv(opts, now);
    InitApart(opts, now);
    RunApart(Init(opts, now), es);
    FailedGone(p, id, health);
    GoneForGood(Step(p, PingDone(id, false, health)), more, p.validating[id].conn);
  }

  lemma FailedGone(p: Pool, id: nat, health: seq<Health>)
    requires PingApart(p) && id in p.validating
    ensures Gone(Step(p, PingDone(id, false, health)), p.validating[id].conn)
  {
    hide Find;
    var c := p.validating[id].conn;
    var p1 := p.(validating := Drop(p.validating, id), active := Drop(p.active, c));
    assert Gone(p1, c);
    FindGives(p1, id, health, true, c);
  }
}
