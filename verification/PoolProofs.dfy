/** Every step of the pool keeps its invariant. */
module PoolProofs {
  import opened Bytes
  import opened PoolModel

  // ---------- requests leaving the queue ----------

  /** The head request is settled. */
  function SettleHead(p: Pool, how: Settlement): Pool
    requires p.requests != []
  {
    Settle(p.(requests := p.requests[1..]), p.requests[0].id, how)
  }

  lemma WaitingTail(rs: seq<Request>, id: nat)
    requires rs != []
    ensures Waiting(rs, id) <==> rs[0].id == id || Waiting(rs[1..], id)
  {
    if Waiting(rs, id) && rs[0].id != id {
      var i :| 0 <= i < |rs| && rs[i].id == id;
      assert rs[1..][i - 1].id == id;
    }
  }

  lemma WaitingSnoc(rs: seq<Request>, r: Request, id: nat)
    ensures Waiting(rs + [r], id) <==> r.id == id || Waiting(rs, id)
  {
    if Waiting(rs, id) {
      var i :| 0 <= i < |rs| && rs[i].id == id;
      assert (rs + [r])[i].id == id;
    }
    assert (rs + [r])[|rs|] == r;
  }

  lemma SettleHeadAccounted(p: Pool, how: Settlement, hand: Option<nat>)
    requires p.requests != [] && Accounted(p, hand)
    ensures Accounted(SettleHead(p, how), hand)
  {
    hide Waiting;
    forall id: nat
      ensures Waiting(p.requests, id) <==> p.requests[0].id == id || Waiting(p.requests[1..], id)
    {
      WaitingTail(p.requests, id);
    }
  }

  lemma SettleHeadOwned(p: Pool, how: Settlement)
    requires p.requests != [] && Accounted(p, None) && Owned(p)
    ensures Owned(SettleHead(p, how))
  {
  }

  /** What `CheckTimeouts` may change. */
  predicate Shrunk(p: Pool, q: Pool) {
    q == p.(requests := q.requests, settled := q.settled, timer := q.timer) && |q.requests| <= |p.requests|
  }

  predicate NoneExpired(p: Pool) { forall i :: 0 <= i < |p.requests| ==> p.requests[i].timeout > p.now }

  lemma {:induction false} CheckTimeoutsKeeps(p: Pool)
    requires Core(p, None)
    ensures var q := CheckTimeouts(p);
            && Core(q, None) && Timed(q) && Shrunk(p, q) && NoneExpired(q)
            && (NotStranded(p) ==> NotStranded(q)) && (Alive(p) ==> Alive(q))
    decreases |p.requests|
  {
    hide Core, NoneExpired;
    if p.requests != [] && p.requests[0].timeout <= p.now {
      SettleHeadKeeps(p, Rejected);
      CheckTimeoutsKeeps(SettleHead(p, Rejected));
    } else {
      SetTimer(p);
    }
  }

  lemma SettleHeadKeeps(p: Pool, how: Settlement)
    requires p.requests != [] && Core(p, None)
    ensures Core(SettleHead(p, how), None)
  {
    hide Accounted, Owned;
    SettleHeadAccounted(p, how, None);
    SettleHeadOwned(p, how);
  }

  lemma SetTimer(p: Pool)
    requires Core(p, None) && (p.requests == [] || p.requests[0].timeout > p.now)
    ensures Core(CheckTimeouts(p), None) && NoneExpired(CheckTimeouts(p))
  {
    hide Accounted, Owned;
    CountersOnly(p, CheckTimeouts(p), None);
  }

  /** Timers and counters do not matter to what is owned and accounted for. */
  lemma CountersOnly(p: Pool, q: Pool, hand: Option<nat>)
    requires q == p.(timer := q.timer, ticks := q.ticks, checks := q.checks, errorChecks := q.errorChecks)
    requires Core(p, hand)
    ensures Core(q, hand)
  {
    hide Owned, Accounted, Ordered;
    OwnedSame(p, q);
    AccountedSame(p, q, hand);
    OrderedSame(p, q);
  }

  lemma OwnedSame(p: Pool, q: Pool)
    requires q == p.(timer := q.timer, ticks := q.ticks, checks := q.checks, errorChecks := q.errorChecks) && Owned(p)
    ensures Owned(q)
  {
  }

  lemma AccountedSame(p: Pool, q: Pool, hand: Option<nat>)
    requires p.requests == q.requests && p.settled == q.settled && p.validating == q.validating && p.nextId == q.nextId
    requires Accounted(p, hand)
    ensures Accounted(q, hand)
  {
  }

  lemma OrderedSame(p: Pool, q: Pool)
    requires q == p.(timer := q.timer, ticks := q.ticks, checks := q.checks, errorChecks := q.errorChecks) && Ordered(p)
    ensures Ordered(q)
  {
  }

  // ---------- handing over ----------

  lemma HandKeeps(p: Pool)
    requires Core(p, None) && p.idle != [] && p.requests != []
    ensures Core(Hand(p), None)
    ensures p.idle[0] !in p.active && Hand(p).active.Keys != {} && Total(Hand(p)) == Total(p)
  {
    hide Owned, Accounted, Ordered;
    var c := p.idle[0];
    SettleHeadAccounted(p, Resolved(c), None);
    AccountedSame(SettleHead(p, Resolved(c)), Hand(p), None);
    assert c in Hand(p).active.Keys;
    HandOwned(p);
    HandOrdered(p);
    NotActive(p);
  }

  lemma HandOrdered(p: Pool)
    requires Ordered(p) && p.idle != [] && p.requests != []
    ensures Ordered(Hand(p))
  {
  }

  lemma NotActive(p: Pool)
    requires Owned(p) && p.idle != []
    ensures p.idle[0] !in p.active
  {
  }

  lemma HandOwned(p: Pool)
    requires Owned(p) && Accounted(p, None) && p.idle != [] && p.requests != []
    ensures Owned(Hand(p))
  {
    assert Fresh(p, p.requests[0].id);
  }

  /** Handing over takes one connection and one request. */
  lemma ProcessNextKeeps(p: Pool)
    requires Core(p, None)
    ensures var q := ProcessNext(p);
            && Core(q, None) && Timed(q) && Total(q) == Total(p)
            && q.inCreation == p.inCreation && q.retryTask == p.retryTask && q.closed == p.closed
            && (Min(|p.idle|, |p.requests|) <= p.ticks + 1 ==> NotStranded(q))
            && (p.requests != [] && p.idle != [] ==> Alive(q))
            && (p.idle == [] && Alive(p) ==> Alive(q))
            && (p.requests == [] ==> Alive(q))
  {
    hide Accounted, Owned;
    if p.requests == [] {
      TimerFree(p);
    } else if p.idle == [] {
      CheckTimeoutsKeeps(p);
    } else {
      HandKeeps(p);
      CheckTimeoutsKeeps(Hand(p));
    }
  }

  lemma TimerFree(p: Pool)
    requires Core(p, None)
    ensures Core(p.(timer := None), None)
  {
    CountersOnly(p, p.(timer := None), None);
  }

  // ---------- managing the pool size ----------

  lemma ManageKeeps(p: Pool, hand: Option<nat>)
    requires Core(p, hand)
    ensures Core(Manage(p), hand)
  {
    hide Accounted, Ordered;
    AccountedSame(p, Manage(p), hand);
    ManageOwned(p);
    ManageOrdered(p);
  }

  lemma ManageOwned(p: Pool)
    requires Owned(p)
    ensures Owned(Manage(p))
  {
  }

  lemma ManageOrdered(p: Pool)
    requires Ordered(p)
    ensures Ordered(Manage(p))
  {
  }

  /** Managing the size leaves no request without a cause: if nothing is created, something else is
      under way or a connection exists that will come back. */
  lemma ManageAlive(p: Pool)
    requires Core(p, None) && NotStranded(p)
    ensures Alive(Manage(p))
  {
    hide Accounted;
    if p.requests != [] && p.idle == [] && p.active.Keys == {} {
      assert |p.active| == |p.active.Keys| == 0;
    }
  }

  /** `ValidateSize` in one go. */
  lemma ValidateSizeKeeps(p: Pool)
    requires Core(p, None) && Timed(p) && NotStranded(p)
    ensures Inv(ValidateSize(p))
  {
    hide Owned, Accounted;
    ManageKeeps(p, None);
    ManageAlive(p);
  }

  // ---------- looking for a connection ----------

  lemma NotWaiting(rs: seq<Request>, id: nat)
    requires !Waiting(rs, id)
    ensures forall i :: 0 <= i < |rs| ==> rs[i].id != id
  {
  }

  lemma EnqueueAccounted(p: Pool, id: nat)
    requires Accounted(p, Some(id)) && !p.closed
    ensures Accounted(Enqueue(p, id), None)
  {
    hide Waiting;
    var r := Request(id, p.now + p.opts.acquireTimeout);
    forall k: nat
      ensures Waiting(p.requests + [r], k) <==> k == id || Waiting(p.requests, k)
    {
      WaitingSnoc(p.requests, r, k);
    }
    NotWaiting(p.requests, id);
  }

  lemma EnqueueOrdered(p: Pool, id: nat)
    requires Ordered(p) && !p.closed
    ensures Ordered(Enqueue(p, id))
  {
  }

  lemma EnqueueOwned(p: Pool, id: nat)
    requires Owned(p) && !p.closed
    ensures Owned(Enqueue(p, id))
  {
  }

  lemma EnqueueKeeps(p: Pool, id: nat)
    requires Core(p, Some(id)) && Timed(p) && p.idle == []
    ensures Inv(Enqueue(p, id))
  {
    hide Owned, Accounted, Ordered;
    if p.closed {
      SettleInHand(p, id, Rejected);
      ClosedIsQuiet(p, Enqueue(p, id));
    } else {
      EnqueueAccounted(p, id);
      EnqueueOwned(p, id);
      EnqueueOrdered(p, id);
    }
  }

  lemma ClosedIsQuiet(p: Pool, q: Pool)
    requires Ordered(p) && p.closed && Timed(p)
    requires q == p.(settled := q.settled)
    ensures Timed(q) && NotStranded(q) && Alive(q)
  {
  }

  /** The request in hand gets its callback. */
  lemma SettleInHand(p: Pool, id: nat, how: Settlement)
    requires Core(p, Some(id))
    ensures Core(Settle(p, id, how), None)
  {
    SettleAccounted(p, id, how);
    SettleOwned(p, id, how);
    SettleOrdered(p, id, how);
  }

  lemma SettleAccounted(p: Pool, id: nat, how: Settlement)
    requires Accounted(p, Some(id))
    ensures Accounted(Settle(p, id, how), None)
  {
    NotWaiting(p.requests, id);
  }

  lemma SettleOwned(p: Pool, id: nat, how: Settlement)
    requires Owned(p) && id !in p.settled
    ensures Owned(Settle(p, id, how))
  {
  }

  lemma SettleOrdered(p: Pool, id: nat, how: Settlement)
    requires Ordered(p)
    ensures Ordered(Settle(p, id, how))
  {
  }

  /** The head connection is tried for the request in hand. */
  function Try(p: Pool, id: nat): Pool
    requires p.idle != []
  {
    p.(idle := p.idle[1..], active := p.active[p.idle[0] := id])
  }

  /** A connection that is fine goes to the request. */
  lemma TryGood(p: Pool, id: nat, need: bool)
    requires Core(p, Some(id)) && Timed(p) && NotStranded(p) && p.idle != []
    ensures Inv(Settle(Checked(Try(p, id), need), id, Resolved(p.idle[0])))
  {
    hide Owned, Accounted, Ordered;
    var q := Settle(Checked(Try(p, id), need), id, Resolved(p.idle[0]));
    TryGoodOwned(p, id, need);
    SettleAccounted(p, id, Resolved(p.idle[0]));
    AccountedSame(Settle(p, id, Resolved(p.idle[0])), q, None);
    TryOrdered(p, q);
    assert p.idle[0] in q.active.Keys;
  }

  lemma TryGoodOwned(p: Pool, id: nat, need: bool)
    requires Owned(p) && Accounted(p, Some(id)) && p.idle != []
    ensures Owned(Settle(Checked(Try(p, id), need), id, Resolved(p.idle[0])))
  {
  }

  lemma TryOrdered(p: Pool, q: Pool)
    requires Ordered(p) && p.idle != [] && q.idle == p.idle[1..]
    requires q.requests == p.requests && q.now == p.now && q.opts == p.opts
    requires q.closed == p.closed && q.retryTask == p.retryTask
    ensures Ordered(q)
  {
  }

  /** One that must be pinged is kept for the request. */
  lemma TryPing(p: Pool, id: nat, need: bool)
    requires Core(p, Some(id)) && Timed(p) && NotStranded(p) && p.idle != []
    ensures var q := Try(p, id);
            Inv(q.(validating := q.validating[id := Ping(p.idle[0], need)]))
  {
    hide Owned, Accounted, Ordered;
    var q := Try(p, id).(validating := p.validating[id := Ping(p.idle[0], need)]);
    TryPingOwned(p, id, need);
    TryPingAccounted(p, id, need);
    TryOrdered(p, q);
    assert p.idle[0] in q.active.Keys;
  }

  lemma TryPingOwned(p: Pool, id: nat, need: bool)
    requires Owned(p) && Accounted(p, Some(id)) && p.idle != []
    ensures Owned(Try(p, id).(validating := p.validating[id := Ping(p.idle[0], need)]))
  {
  }

  lemma TryPingAccounted(p: Pool, id: nat, need: bool)
    requires Accounted(p, Some(id)) && p.idle != []
    ensures Accounted(Try(p, id).(validating := p.validating[id := Ping(p.idle[0], need)]), None)
  {
    NotWaiting(p.requests, id);
  }

  /** One that is not valid is forgotten. */
  lemma TryBad(p: Pool, id: nat)
    requires Core(p, Some(id)) && Timed(p) && NotStranded(p) && p.idle != []
    ensures var q := Try(p, id);
            var r := q.(active := Drop(q.active, p.idle[0]));
            r == p.(idle := p.idle[1..]) && Core(r, Some(id)) && Timed(r) && NotStranded(r)
  {
    hide Owned, Accounted, Ordered;
    var r := p.(idle := p.idle[1..]);
    TryBadOwned(p, id);
    AccountedSame(p, r, Some(id));
    TryOrdered(p, r);
  }

  lemma TryBadOwned(p: Pool, id: nat)
    requires Owned(p) && p.idle != []
    ensures Drop(p.active[p.idle[0] := id], p.idle[0]) == p.active && Owned(p.(idle := p.idle[1..]))
  {
  }

  lemma {:induction false} FindKeeps(p: Pool, id: nat, health: seq<Health>, need: bool)
    requires Core(p, Some(id)) && Timed(p) && NotStranded(p)
    ensures Inv(Find(p, id, health, need))
    decreases |p.idle|
  {
    hide Core, Inv, Timed, NotStranded, Enqueue;
    if p.idle == [] {
      CheckedKeeps(p, id, need);
      EnqueueKeeps(Checked(p, need), id);
    } else {
      match if health == [] then Good else health[0] {
        case Good => TryGood(p, id, need);
        case MustPing => TryPing(p, id, need);
        case Bad =>
          TryBad(p, id);
          FindKeeps(p.(idle := p.idle[1..]), id, health[1..], true);
      }
    }
  }

  lemma CheckedKeeps(p: Pool, id: nat, need: bool)
    requires Core(p, Some(id)) && Timed(p) && NotStranded(p)
    ensures var q := Checked(p, need);
            Core(q, Some(id)) && Timed(q) && NotStranded(q)
  {
    hide Core;
    CountersOnly(p, Checked(p, need), Some(id));
  }

  // ---------- one lemma per event ----------

  lemma DropSize<V>(m: map<nat, V>, k: nat)
    ensures Drop(m, k).Keys == m.Keys - {k}
    ensures |Drop(m, k)| == if k in m then |m| - 1 else |m|
  {
    assert |Drop(m, k)| == |Drop(m, k).Keys|;
    assert |m| == |m.Keys|;
  }

  lemma NewRequest(p: Pool, health: seq<Health>)
    requires Inv(p)
    ensures Inv(Step(p, GetConnection(health)))
  {
    hide Owned, Accounted, Ordered, Enqueue, Find;
    var id, p1 := p.nextId, p.(nextId := p.nextId + 1);
    NewIdAccounted(p);
    NewIdRest(p);
    if p.closed {
      SettleInHand(p1, id, Rejected);
      ClosedIsQuiet(p1, Settle(p1, id, Rejected));
    } else if p.idle == [] {
      EnqueueKeeps(p1, id);
    } else {
      FindKeeps(p1, id, health, false);
    }
  }

  lemma NewIdAccounted(p: Pool)
    requires Accounted(p, None)
    ensures Accounted(p.(nextId := p.nextId + 1), Some(p.nextId))
  {
  }

  lemma NewIdRest(p: Pool)
    requires Owned(p) && Ordered(p)
    ensures Owned(p.(nextId := p.nextId + 1)) && Ordered(p.(nextId := p.nextId + 1))
  {
  }

  lemma PingAnswered(p: Pool, id: nat, ok: bool, health: seq<Health>)
    requires Inv(p) && id in p.validating
    ensures Inv(Step(p, PingDone(id, ok, health)))
  {
    hide Owned, Accounted, Ordered, Find;
    var ping := p.validating[id];
    var p1 := p.(validating := Drop(p.validating, id));
    TakeInHand(p, id);
    if ok {
      PingOkOwned(p, id);
      var q := Settle(Checked(p1, ping.needCheck), id, Resolved(ping.conn));
      SettleAccounted(p1, id, Resolved(ping.conn));
      AccountedSame(Settle(p1, id, Resolved(ping.conn)), q, None);
      OrderedFrom(p, q);
    } else {
      var p2 := p1.(active := Drop(p1.active, ping.conn));
      PingBadOwned(p, id);
      AccountedSame(p1, p2, Some(id));
      OrderedFrom(p, p2);
      FindKeeps(p2, id, health, true);
    }
  }

  lemma TakeInHand(p: Pool, id: nat)
    requires Accounted(p, None) && id in p.validating
    ensures Accounted(p.(validating := Drop(p.validating, id)), Some(id))
  {
  }

  lemma PingOkOwned(p: Pool, id: nat)
    requires Owned(p) && Accounted(p, None) && id in p.validating
    ensures var ping, p1 := p.validating[id], p.(validating := Drop(p.validating, id));
            Owned(Settle(Checked(p1, ping.needCheck), id, Resolved(ping.conn)))
  {
  }

  lemma PingBadOwned(p: Pool, id: nat)
    requires Owned(p) && Accounted(p, None) && id in p.validating
    ensures Owned(p.(validating := Drop(p.validating, id), active := Drop(p.active, p.validating[id].conn)))
  {
    var c := p.validating[id].conn;
    DropOwned(p, c);
    var p1 := p.(active := Drop(p.active, c));
    forall k | k in p1.active
      ensures Holds(Drop(p.validating, id), p.settled, p1.active[k], k)
    {
      assert Holds(p.validating, p.settled, p.active[k], k);
    }
  }

  lemma DropOwned(p: Pool, c: nat)
    requires Owned(p)
    ensures Owned(p.(active := Drop(p.active, c)))
  {
    DropSize(p.active, c);
  }

  lemma OrderedFrom(p: Pool, q: Pool)
    requires Ordered(p) && q.requests == p.requests && q.now == p.now && q.opts == p.opts
    requires q.closed == p.closed && q.retryTask == p.retryTask && |q.idle| <= |p.idle|
    ensures Ordered(q)
  {
  }

  lemma ActiveDropped(p: Pool, c: nat)
    requires Core(p, None)
    ensures Core(p.(active := Drop(p.active, c)), None)
  {
    hide Accounted;
    DropSize(p.active, c);
    AccountedSame(p, p.(active := Drop(p.active, c)), None);
    OrderedFrom(p, p.(active := Drop(p.active, c)));
  }

  lemma Released(p: Pool, c: nat, valid: bool)
    requires Inv(p)
    ensures Enabled(p, Release(c, valid)) ==> Inv(Step(p, Release(c, valid)))
  {
    hide Owned, Accounted, Ordered;
    if c in p.active {
      var p1 := p.(active := Drop(p.active, c));
      ActiveDropped(p, c);
      if p.closed || !valid {
        ValidateSizeKeeps(p1);
      } else {
        BackToIdle(p, c);
        var q := p1.(idle := p1.idle + [c], ticks := p1.ticks + 1);
        AccountedSame(p, q, None);
        OpenOrdered(p, q);
      }
    }
  }

  lemma BackToIdle(p: Pool, c: nat)
    requires Owned(p) && c in p.active
    ensures Owned(p.(active := Drop(p.active, c), idle := p.idle + [c], ticks := p.ticks + 1))
  {
    DropSize(p.active, c);
  }

  lemma OpenOrdered(p: Pool, q: Pool)
    requires Ordered(p) && !p.closed && !q.closed && q.requests == p.requests && q.now == p.now && q.opts == p.opts
    ensures Ordered(q)
  {
  }

  lemma Destroyed(p: Pool, c: nat)
    requires Inv(p)
    ensures Inv(Step(p, Destroy(c)))
  {
    hide Owned, Accounted, Ordered;
    ActiveDropped(p, c);
    ValidateSizeKeeps(p.(active := Drop(p.active, c)));
  }

  lemma {:induction false} RemoveSub(q: seq<nat>, c: nat)
    requires forall i, j :: 0 <= i < j < |q| ==> q[i] != q[j]
    ensures var r := Remove(q, c);
            && |r| <= |q| && (forall i, j :: 0 <= i < j < |r| ==> r[i] != r[j])
            && (forall x :: x in r ==> x in q && x != c)
  {
    if q != [] {
      RemoveSub(q[1..], c);
      assert forall x :: x in q[1..] ==> x in q && x != q[0];
      assert forall x :: x in Remove(q[1..], c) ==> x in q[1..];
      var r := Remove(q, c);
      assert q[0] != c ==> forall j :: 0 < j < |r| ==> r[j] in Remove(q[1..], c);
    }
  }

  lemma Errored(p: Pool, c: nat)
    requires Inv(p)
    ensures Inv(Step(p, ConnError(c)))
  {
    hide Owned, Accounted, Ordered;
    var q := Step(p, ConnError(c));
    ErroredOwned(p, c);
    AccountedSame(p, q, None);
    OrderedFrom(p, q);
  }

  lemma ErroredOwned(p: Pool, c: nat)
    requires Owned(p)
    ensures Owned(Step(p, ConnError(c))) && |Step(p, ConnError(c)).idle| <= |p.idle|
  {
    var p1 := p.(active := Drop(p.active, c));
    DropOwned(p, c);
    RemoveOwned(p1, c);
    OwnedSame(p1.(idle := Remove(p.idle, c)), Step(p, ConnError(c)));
  }

  lemma RemoveOwned(p: Pool, c: nat)
    requires Owned(p)
    ensures Owned(p.(idle := Remove(p.idle, c))) && |Remove(p.idle, c)| <= |p.idle|
  {
    RemoveSub(p.idle, c);
    var r := Remove(p.idle, c);
    forall i | 0 <= i < |r|
      ensures r[i] !in p.active && r[i] in p.known
    {
      assert r[i] in p.idle;
    }
  }

  lemma Ticked(p: Pool)
    requires Inv(p) && p.ticks > 0
    ensures Inv(Step(p, IdleTick))
  {
    hide Owned, Accounted, Ordered, ProcessNext;
    var p1 := p.(ticks := p.ticks - 1);
    CountersOnly(p, p1, None);
    if p.closed {
      ClosedTick(p, p1);
    } else {
      ProcessNextKeeps(p1);
    }
  }

  lemma ClosedTick(p: Pool, q: Pool)
    requires Inv(p) && p.closed && q == p.(ticks := q.ticks)
    ensures Timed(q) && NotStranded(q) && Alive(q)
  {
  }

  lemma SizeChecked(p: Pool)
    requires Inv(p)
    ensures p.checks > 0 ==> Inv(Step(p, CheckSize))
  {
    hide Owned, Accounted, Ordered;
    if p.checks > 0 {
      CountersOnly(p, p.(checks := p.checks - 1), None);
      ValidateSizeKeeps(p.(checks := p.checks - 1));
    }
  }

  lemma ErrorChecked(p: Pool)
    requires Inv(p)
    ensures p.errorChecks > 0 ==> Inv(Step(p, CheckAfterError))
  {
    hide Owned, Accounted, Ordered;
    if p.errorChecks > 0 {
      var p1 := p.(errorChecks := p.errorChecks - 1);
      CountersOnly(p, p1, None);
      ManageKeeps(p1, None);
      ManageAlive(p1);
    }
  }

  lemma Created(p: Pool, c: nat)
    requires Inv(p) && p.creations > 0 && c !in p.known
    ensures Inv(Step(p, CreationSucceeded(c)))
  {
    hide Owned, Accounted, Ordered, ProcessNext, ShouldCreateMoreConnections;
    var p1 := p.(creations := p.creations - 1, known := p.known + {c}, inCreation := false);
    CreatedOwned(p, c);
    AccountedSame(p, p1, None);
    OrderedFrom(p, p1);
    if p.closed {
      ClosedCreation(p, p1);
    } else {
      var p2 := p1.(idle := p1.idle + [c]);
      AccountedSame(p, p2, None);
      OpenOrdered(p, p2);
      ProcessNextKeeps(p2);
      CreatedAlive(p, p2);
      ValidateSizeKeeps(ProcessNext(p2));
    }
  }

  lemma CreatedAlive(p: Pool, p2: Pool)
    requires Inv(p) && p2.requests == p.requests && p2.idle != []
    requires p2.ticks == p.ticks && |p2.idle| == |p.idle| + 1
    ensures Min(|p2.idle|, |p2.requests|) <= p2.ticks + 1
  {
  }

  lemma CreatedOwned(p: Pool, c: nat)
    requires Owned(p) && p.creations > 0 && c !in p.known
    ensures var p1 := p.(creations := p.creations - 1, known := p.known + {c}, inCreation := false);
            Owned(p1) && (!p.closed ==> Owned(p1.(idle := p1.idle + [c])))
  {
  }

  lemma ClosedCreation(p: Pool, q: Pool)
    requires Inv(p) && p.closed && q == p.(creations := q.creations, known := q.known, inCreation := q.inCreation)
    ensures Timed(q) && NotStranded(q) && Alive(q)
  {
  }

  lemma NotCreated(p: Pool)
    requires Inv(p) && p.creations > 0
    ensures Inv(Step(p, CreationFailed))
  {
    hide Accounted;
    AccountedSame(p, Step(p, CreationFailed), None);
  }

  lemma Retried(p: Pool)
    requires Inv(p)
    ensures p.retryTask ==> Inv(Step(p, RetryFires))
  {
    hide Owned, Accounted, Ordered;
    if p.retryTask {
      var p1 := p.(retryTask := false);
      RetryOwned(p);
      AccountedSame(p, p1, None);
      RetryOrdered(p);
      ManageKeeps(p1, None);
      ManageAlive(p1);
    }
  }

  lemma RetryOwned(p: Pool)
    requires Owned(p)
    ensures Owned(p.(retryTask := false))
  {
  }

  lemma RetryOrdered(p: Pool)
    requires Ordered(p)
    ensures Ordered(p.(retryTask := false))
  {
  }

  lemma Reaped(p: Pool, k: nat)
    requires Inv(p) && Enabled(p, Reap(k))
    ensures Inv(Step(p, Reap(k)))
  {
    hide Owned, Accounted, Ordered;
    var p1 := p.(idle := p.idle[k..]);
    ReapedOwned(p, k);
    AccountedSame(p, p1, None);
    OrderedFrom(p, p1);
    ValidateSizeKeeps(p1);
  }

  lemma ReapedOwned(p: Pool, k: nat)
    requires Owned(p) && k <= |p.idle|
    ensures Owned(p.(idle := p.idle[k..]))
  {
  }

  lemma TimerFired(p: Pool)
    requires Inv(p)
    ensures Enabled(p, TimerFires) ==> Inv(Step(p, TimerFires)) && NoneExpired(Step(p, TimerFires))
  {
    hide Core;
    CheckTimeoutsKeeps(p);
  }

  lemma {:induction false} RejectAllKeeps(p: Pool)
    requires Core(p, None)
    ensures var q := RejectAll(p);
            Core(q, None) && q.requests == [] && q == p.(requests := q.requests, settled := q.settled)
    decreases |p.requests|
  {
    hide Core;
    if p.requests != [] {
      SettleHeadKeeps(p, Rejected);
      RejectAllKeeps(SettleHead(p, Rejected));
    }
  }

  lemma Ended(p: Pool)
    requires Inv(p)
    ensures Inv(Step(p, End))
  {
    if !p.closed {
      EndedQueue(p);
    }
  }

  /** The queue is emptied before the pool counts as closed in `Ordered`, so the proof rejects first. */
  lemma EndedQueue(p: Pool)
    requires Inv(p) && !p.closed
    ensures Inv(Step(p, End))
  {
    hide Owned, Accounted, Ordered, RejectAll;
    var p1 := p.(retryTask := false, timer := None, idle := []);
    RetryOwned(p);
    EndOwned(p);
    AccountedSame(p, p1, None);
    RetryOrdered(p);
    OrderedFrom(p.(retryTask := false), p1);
    RejectAllKeeps(p1);
    RejectAllClosed(p1);
    var q := RejectAll(p1);
    CloseEmpty(q);
  }

  lemma EndOwned(p: Pool)
    requires Owned(p)
    ensures Owned(p.(retryTask := false, timer := None, idle := []))
  {
  }

  lemma {:induction false} RejectAllClosed(p: Pool)
    ensures RejectAll(p.(closed := true)) == RejectAll(p).(closed := true)
    decreases |p.requests|
  {
    if p.requests != [] {
      RejectAllClosed(SettleHead(p, Rejected));
    }
  }

  lemma CloseEmpty(q: Pool)
    requires Core(q, None) && q.requests == [] && q.idle == [] && !q.retryTask && q.timer == None
    ensures Inv(q.(closed := true))
  {
    hide Accounted;
    AccountedSame(q, q.(closed := true), None);
  }

  lemma Later(p: Pool, t: int)
    requires Inv(p) && p.now <= t
    ensures Inv(Step(p, TimePasses(t)))
  {
    hide Accounted;
    AccountedSame(p, p.(now := t), None);
  }

  lemma StepKeeps(p: Pool, e: Event)
    requires Inv(p) && Enabled(p, e)
    ensures Inv(Step(p, e))
  {
    hide Inv, Step;
    match e {
      case GetConnection(health) => NewRequest(p, health);
      case PingDone(id, ok, health) => PingAnswered(p, id, ok, health);
      case Release(c, valid) => Released(p, c, valid);
      case Destroy(c) => Destroyed(p, c);
      case ConnError(c) => Errored(p, c);
      case IdleTick => Ticked(p);
      case CheckSize => SizeChecked(p);
      case CheckAfterError => ErrorChecked(p);
      case CreationSucceeded(c) => Created(p, c);
      case CreationFailed => NotCreated(p);
      case RetryFires => Retried(p);
      case Reap(k) => Reaped(p, k);
      case TimerFires => TimerFired(p);
      case End => Ended(p);
      case TimePasses(t) => Later(p, t);
    }
  }

  // ---------- whole runs ----------

  lemma InitInv(opts: Options, now: int)
    requires opts.connectionLimit > 0
    ensures Inv(Init(opts, now))
  {
  }

  lemma {:induction false} RunKeeps(p: Pool, es: seq<Event>)
    requires Inv(p) && Run(p, es)
    ensures Inv(After(p, es))
    decreases |es|
  {
    hide Inv, Step;
    if es != [] {
      StepKeeps(p, es[0]);
      RunKeeps(Step(p, es[0]), es[1..]);
    }
  }

  /** In every reachable state: connections never exceed the limit, counting one being created;
      idle and active ones are disjoint; a request waits at most as long as something is under way;
      and when no event, creation or back-off is pending, requests wait only for connections that
      are all in use. */
  lemma EveryRun(opts: Options, now: int, es: seq<Event>)
    requires opts.connectionLimit > 0 && Run(Init(opts, now), es)
    ensures var p := After(Init(opts, now), es);
            && Inv(p)
            && |p.idle| + |p.active| <= opts.connectionLimit
            && (!p.closed && p.inCreation ==> |p.idle| + |p.active| < opts.connectionLimit)
            && (p.requests != [] && p.ticks == p.checks == p.errorChecks == 0 && !p.inCreation && !p.retryTask
                ==> p.idle == [] && p.active.Keys != {})
  {
    hide Accounted, Ordered, Timed, Step, Init;
    InitInv(opts, now);
    RunKeeps(Init(opts, now), es);
    RunGrows(Init(opts, now), es);
    InitOptions(opts, now);
  }

  lemma InitOptions(opts: Options, now: int)
    ensures Init(opts, now).opts == opts
  {
  }

  /** A settled request stays settled, with the answer it was given first. */
  predicate Grows(p: Pool, q: Pool) {
    q.opts == p.opts && forall id :: id in p.settled ==> id in q.settled && q.settled[id] == p.settled[id]
  }

  lemma {:induction false} CheckTimeoutsGrows(p: Pool)
    requires Accounted(p, None)
    ensures Grows(p, CheckTimeouts(p))
    decreases |p.requests|
  {
    if p.requests != [] && p.requests[0].timeout <= p.now {
      SettleHeadAccounted(p, Rejected, None);
      assert Fresh(p, p.requests[0].id);
      hide Accounted;
      CheckTimeoutsGrows(SettleHead(p, Rejected));
    }
  }

  lemma {:induction false} RejectAllGrows(p: Pool)
    requires Accounted(p, None)
    ensures Grows(p, RejectAll(p))
    decreases |p.requests|
  {
    if p.requests != [] {
      SettleHeadAccounted(p, Rejected, None);
      assert Fresh(p, p.requests[0].id);
      hide Accounted;
      RejectAllGrows(SettleHead(p, Rejected));
    }
  }

  lemma ProcessNextGrows(p: Pool)
    requires Accounted(p, None)
    ensures Grows(p, ProcessNext(p))
  {
    if p.requests != [] {
      CheckTimeoutsGrows(p);
      if p.idle != [] {
        SettleHeadAccounted(p, Resolved(p.idle[0]), None);
        AccountedSame(SettleHead(p, Resolved(p.idle[0])), Hand(p), None);
        CheckTimeoutsGrows(Hand(p));
        assert Fresh(p, p.requests[0].id);
      }
    }
  }

  lemma {:induction false} FindGrows(p: Pool, id: nat, health: seq<Health>, need: bool)
    requires id !in p.settled
    ensures Grows(p, Find(p, id, health, need))
    decreases |p.idle|
  {
    hide Enqueue, Checked, Settle;
    CheckedSettled(p, need);
    EnqueueGrows(Checked(p, need), id);
    if p.idle != [] {
      var p1 := p.(idle := p.idle[1..], active := p.active[p.idle[0] := id]);
      CheckedSettled(p1, need);
      SettleGrows(Checked(p1, need), id, Resolved(p.idle[0]));
    }
    if p.idle != [] && health != [] && health[0] == Bad {
      var p1 := p.(idle := p.idle[1..], active := Drop(p.active[p.idle[0] := id], p.idle[0]));
      FindGrows(p1, id, health[1..], true);
    }
  }

  lemma EnqueueGrows(p: Pool, id: nat)
    requires id !in p.settled
    ensures Grows(p, Enqueue(p, id))
  {
  }

  lemma SettleGrows(p: Pool, id: nat, how: Settlement)
    requires id !in p.settled
    ensures Grows(p, Settle(p, id, how))
  {
  }

  lemma CheckedSettled(p: Pool, need: bool)
    ensures Checked(p, need).settled == p.settled && Checked(p, need).opts == p.opts
  {
  }

  lemma FindFor(p: Pool, id: nat, health: seq<Health>, need: bool, q: Pool)
    requires id !in p.settled && q.settled == p.settled && q.opts == p.opts
    ensures Grows(p, Find(q, id, health, need)) && Grows(p, Enqueue(q, id))
    ensures forall how :: Grows(p, Settle(Checked(q, need), id, how))
  {
    FindGrows(q, id, health, need);
  }

  lemma NotSettledYet(p: Pool)
    requires Accounted(p, None)
    ensures p.nextId !in p.settled && forall id :: id in p.validating ==> id !in p.settled
  {
  }

  lemma StepGrows(p: Pool, e: Event)
    requires Inv(p) && Enabled(p, e)
    ensures Grows(p, Step(p, e))
  {
    hide Accounted, Owned, Ordered, CheckTimeouts, Find, RejectAll, ProcessNext, Enqueue, Timed, NotStranded, Alive;
    NotSettledYet(p);
    match e {
      case GetConnection(health) => FindFor(p, p.nextId, health, false, p.(nextId := p.nextId + 1));
      case PingDone(id, ok, health) => PingGrows(p, id, ok, health);
      case IdleTick =>
        AccountedSame(p, p.(ticks := p.ticks - 1), None);
        ProcessNextGrows(p.(ticks := p.ticks - 1));
      case CreationSucceeded(c) => CreatedGrows(p, c);
      case TimerFires => CheckTimeoutsGrows(p);
      case End =>
        var p1 := p.(closed := true, retryTask := false, timer := None, idle := []);
        AccountedSame(p, p1, None);
        RejectAllGrows(p1);
      case _ =>
    }
  }

  lemma PingGrows(p: Pool, id: nat, ok: bool, health: seq<Health>)
    requires id in p.validating && id !in p.settled
    ensures Grows(p, Step(p, PingDone(id, ok, health)))
  {
    hide Find, Enqueue;
    var p1 := p.(validating := Drop(p.validating, id));
    FindFor(p, id, health, p.validating[id].needCheck, p1);
    FindFor(p, id, health, true, p1.(active := Drop(p1.active, p.validating[id].conn)));
  }

  lemma CreatedGrows(p: Pool, c: nat)
    requires Accounted(p, None) && p.creations > 0 && c !in p.known
    ensures Grows(p, Step(p, CreationSucceeded(c)))
  {
    hide Accounted, ProcessNext;
    var p2 := p.(creations := p.creations - 1, known := p.known + {c}, inCreation := false, idle := p.idle + [c]);
    AccountedSame(p, p2, None);
    ProcessNextGrows(p2);
  }

  lemma {:induction false} RunGrows(p: Pool, es: seq<Event>)
    requires Inv(p) && Run(p, es)
    ensures Grows(p, After(p, es))
    decreases |es|
  {
    hide Inv, Step;
    if es != [] {
      StepKeeps(p, es[0]);
      StepGrows(p, es[0]);
      RunGrows(Step(p, es[0]), es[1..]);
    }
  }
}
