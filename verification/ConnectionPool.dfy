/** The pool object. Each method is one callback and does the step of that name. */
module ConnectionPool {
  import opened Bytes
  import opened PoolModel

  class ConnectionPool {
    const opts: Options
    var closed: bool
    var connectionInCreation: bool
    // a queue of thread ids
    var idleConnections: seq<nat>
    // thread id to the request the connection was taken for
    var activeConnections: map<nat, nat>
    var requests: seq<Request>
    // when the timers are due, if they are set
    var requestTimeoutId: Option<int>
    var managePoolSizeTask: bool
    // what the event loop holds: queued events, connection attempts, pings, the clock
    var ticks: nat
    var checks: nat
    var errorChecks: nat
    var creations: nat
    var validating: map<nat, Ping>
    var now: int
    // what has been given out: thread ids, request numbers, answers
    var known: set<nat>
    var nextId: nat
    var settled: map<nat, Settlement>

    ghost function View(): Pool
      reads this
    {
      Pool(opts, closed, connectionInCreation, creations, known, idleConnections, activeConnections, requests,
           requestTimeoutId, managePoolSizeTask, ticks, checks, errorChecks, validating, settled, nextId, now)
    }

    constructor (opts: Options, now: int)
      ensures this.opts == opts && View() == Init(opts, now)
    {
      this.opts := opts;
      this.now := now;
      closed, connectionInCreation, managePoolSizeTask := false, false, false;
      idleConnections, activeConnections, requests, requestTimeoutId := [], map[], [], None;
      ticks, checks, errorChecks, creations, nextId := 0, 0, 0, 0, 0;
      validating, settled, known := map[], map[], {};
      new;
      ManagePoolSize();
    }

    predicate ShouldCreate()
      reads this
    {
      var total := |activeConnections| + |idleConnections|;
      var hasPendingRequests := |requests| > 0;
      var needsMinimumIdle := total < opts.minimumIdle;
      var hasCapacity := total < opts.connectionLimit;
      var needsConnectionsForRequests := hasPendingRequests && |idleConnections| == 0;
      !connectionInCreation && (needsMinimumIdle || needsConnectionsForRequests) && hasCapacity && !closed
    }

    method ManagePoolSize()
      modifies this
      ensures View() == Manage(old(View()))
    {
      if !ShouldCreate() || managePoolSizeTask {
        return;
      }
      connectionInCreation := true;
      creations := creations + 1;
    }

    /** `emit('validateSize')`; `end` removes all listeners. */
    method EmitValidateSize()
      modifies this
      ensures View() == ValidateSize(old(View()))
    {
      if !closed {
        ManagePoolSize();
      }
    }

    method CheckRequestTimeouts()
      modifies this
      ensures View() == CheckTimeouts(old(View()))
    {
      CheckIgnoresTimer(View());
      requestTimeoutId := None;
      while |requests| > 0
        invariant CheckTimeouts(View()) == CheckTimeouts(old(View())) && requestTimeoutId.None?
        decreases |requests|
      {
        var request := requests[0];
        if request.timeout <= now {
          requests := requests[1..];
          settled := settled[request.id := Rejected];
        } else {
          requestTimeoutId := Some(request.timeout);
          return;
        }
      }
    }

    method ProcessNextPendingRequest()
      modifies this
      ensures View() == ProcessNext(old(View()))
    {
      hide CheckTimeouts, Hand;
      ghost var p := View();
      if requests == [] {
        requestTimeoutId := None;
        return;
      }
      CheckIgnoresTimer(if p.idle == [] then p else Hand(p));
      HandOver();
      CheckRequestTimeouts();
    }

    /** The first request is taken off the queue, and put back if there is no connection for it. */
    method HandOver()
      requires requests != []
      modifies this
      ensures View() == (if old(View()).idle == [] then old(View()) else Hand(old(View()))).(timer := None)
    {
      requestTimeoutId := None;
      var request := requests[0];
      requests := requests[1..];
      if idleConnections != [] {
        var conn := TakeFirst(request.id);
        settled := settled[request.id := Resolved(conn)];
      } else {
        requests := [request] + requests;
      }
    }

    /** The end of `getConnection` when no connection is at hand. */
    method EnqueueRequest(id: nat)
      modifies this
      ensures View() == Enqueue(old(View()), id)
    {
      if closed {
        settled := settled[id := Rejected];
        return;
      }
      checks := checks + 1;
      requests := requests + [Request(id, now + opts.acquireTimeout)];
      if requestTimeoutId.None? {
        requestTimeoutId := Some(now + opts.acquireTimeout);
      }
    }

    /** `health` says how the next idle connections are: valid at once or not, or to be pinged. */
    method FindValidIdleConnection(id: nat, health: seq<Health>, needPoolSizeCheck: bool)
      modifies this
      ensures View() == Find(old(View()), id, health, needPoolSizeCheck)
      decreases |idleConnections|
    {
      hide Enqueue, Checked;
      if idleConnections == [] {
        CheckSizeIf(needPoolSizeCheck);
        EnqueueRequest(id);
        return;
      }
      var conn := TakeFirst(id);
      match if health == [] then Good else health[0] {
        case Good =>
          CheckSizeIf(needPoolSizeCheck);
          settled := settled[id := Resolved(conn)];
        case MustPing =>
          validating := validating[id := Ping(conn, needPoolSizeCheck)];
        case Bad =>
          activeConnections := Drop(activeConnections, conn);
          FindValidIdleConnection(id, health[1..], true);
      }
    }

    /** `setImmediate` of a `validateSize` event, when the search has dropped a connection. */
    method CheckSizeIf(needPoolSizeCheck: bool)
      modifies this`checks
      ensures View() == Checked(old(View()), needPoolSizeCheck)
    {
      if needPoolSizeCheck {
        checks := checks + 1;
      }
    }

    /** The first idle connection is taken for a request. */
    method TakeFirst(id: nat) returns (conn: nat)
      requires idleConnections != []
      modifies this`idleConnections, this`activeConnections
      ensures conn == old(idleConnections)[0]
      ensures View() == old(View()).(idle := old(idleConnections)[1..], active := old(activeConnections)[conn := id])
    {
      conn := idleConnections[0];
      idleConnections := idleConnections[1..];
      activeConnections := activeConnections[conn := id];
    }

    method GetConnection(health: seq<Health>) returns (id: nat)
      modifies this
      ensures View() == Step(old(View()), Event.GetConnection(health)) && id == old(nextId)
    {
      hide Find, Enqueue;
      id := nextId;
      nextId := nextId + 1;
      if closed {
        settled := settled[id := Rejected];
      } else if idleConnections == [] {
        EnqueueRequest(id);
      } else {
        FindValidIdleConnection(id, health, false);
      }
    }

    /** The answer to a ping. */
    method PingDone(id: nat, ok: bool, health: seq<Health>)
      requires id in validating
      modifies this
      ensures View() == Step(old(View()), Event.PingDone(id, ok, health))
    {
      hide Find;
      var ping := validating[id];
      validating := Drop(validating, id);
      if ok {
        if ping.needCheck {
          checks := checks + 1;
        }
        settled := settled[id := Resolved(ping.conn)];
      } else {
        activeConnections := Drop(activeConnections, ping.conn);
        FindValidIdleConnection(id, health, true);
      }
    }

    method Release(conn: nat, valid: bool)
      requires conn in activeConnections ==> activeConnections[conn] in settled
      modifies this
      ensures View() == Step(old(View()), Event.Release(conn, valid))
    {
      if conn !in activeConnections {
        return;
      }
      activeConnections := Drop(activeConnections, conn);
      if closed {
        EmitValidateSize();
      } else if valid {
        idleConnections := idleConnections + [conn];
        ticks := ticks + 1;
      } else {
        EmitValidateSize();
      }
    }

    method Destroy(conn: nat)
      modifies this
      ensures View() == Step(old(View()), Event.Destroy(conn))
    {
      activeConnections := Drop(activeConnections, conn);
      EmitValidateSize();
    }

    method OnConnectionError(conn: nat)
      modifies this
      ensures View() == Step(old(View()), ConnError(conn))
    {
      activeConnections := Drop(activeConnections, conn);
      ProcessIdleConnectionsOnError(conn);
      errorChecks := errorChecks + 1;
    }

    method ProcessIdleConnectionsOnError(errorConn: nat)
      modifies this`idleConnections
      ensures idleConnections == Remove(old(idleConnections), errorConn)
    {
      hide Remove;
      var idx := 0;
      ghost var goal := Remove(idleConnections, errorConn);
      assert idleConnections[..0] == [] && idleConnections[0..] == idleConnections;
      while idx < |idleConnections|
        invariant idx <= |idleConnections|
        invariant idleConnections[..idx] + Remove(idleConnections[idx..], errorConn) == goal
        decreases |idleConnections| - idx
      {
        var currConn := idleConnections[idx];
        ghost var q := idleConnections;
        RemoveOne(q, idx, errorConn);
        if currConn == errorConn {
          idleConnections := idleConnections[..idx] + idleConnections[idx + 1..];
          assert idleConnections[..idx] == q[..idx] && idleConnections[idx..] == q[idx + 1..];
          continue;
        }
        idx := idx + 1;
      }
      RemoveAll(idleConnections, idx, errorConn);
    }

    method OnIdleTick()
      requires ticks > 0
      modifies this
      ensures View() == Step(old(View()), IdleTick)
    {
      hide ProcessNext;
      ticks := ticks - 1;
      if !closed {
        ProcessNextPendingRequest();
      }
    }

    method OnCheckSize()
      requires checks > 0
      modifies this
      ensures View() == Step(old(View()), CheckSize)
    {
      checks := checks - 1;
      EmitValidateSize();
    }

    method OnCheckAfterError()
      requires errorChecks > 0
      modifies this
      ensures View() == Step(old(View()), CheckAfterError)
    {
      errorChecks := errorChecks - 1;
      if requests != [] {
        ManagePoolSize();
      }
    }

    /** `_prepareNewConnection` and `_onConnectionCreationSuccess` */
    method OnCreated(conn: nat)
      requires creations > 0 && conn !in known
      modifies this
      ensures View() == Step(old(View()), CreationSucceeded(conn))
    {
      hide ProcessNext, Step, Manage;
      CreationStep(View(), conn);
      creations := creations - 1;
      known := known + {conn};
      if closed {
        connectionInCreation := false;
        return;
      }
      idleConnections := idleConnections + [conn];
      connectionInCreation := false;
      ProcessNextPendingRequest();
      if ShouldCreate() {
        EmitValidateSize();
      }
    }

    method OnCreationFailed()
      requires creations > 0
      modifies this
      ensures View() == Step(old(View()), CreationFailed)
    {
      creations := creations - 1;
      connectionInCreation := false;
      if closed {
        return;
      }
      managePoolSizeTask := true;
    }

    method OnRetry()
      requires managePoolSizeTask
      modifies this
      ensures View() == Step(old(View()), RetryFires)
    {
      managePoolSizeTask := false;
      if requests != [] {
        ManagePoolSize();
      }
    }

    /** `unused(i)` says whether the i-th idle connection has been unused for too long. */
    method RemoveIdleConnections(unused: nat -> bool) returns (count: nat)
      requires !closed
      modifies this
      ensures count <= Max(0, |old(idleConnections)| - opts.minimumIdle)
      ensures View() == Step(old(View()), Reap(count))
      ensures forall i :: 0 <= i < count ==> unused(i)
    {
      var maxRemoval := Max(0, |idleConnections| - opts.minimumIdle);
      count := 0;
      ghost var all := idleConnections;
      assert all[0..] == all;
      while count < maxRemoval
        invariant count <= maxRemoval <= |all| && idleConnections == all[count..]
        invariant View() == old(View()).(idle := idleConnections)
        invariant forall i :: 0 <= i < count ==> unused(i)
      {
        if !unused(count) {
          break;
        }
        idleConnections := idleConnections[1..];
        count := count + 1;
      }
      EmitValidateSize();
    }

    method OnRequestTimer()
      requires requestTimeoutId.Some? && requestTimeoutId.value <= now
      modifies this
      ensures View() == Step(old(View()), TimerFires)
    {
      CheckRequestTimeouts();
    }

    method EndPool()
      modifies this
      ensures View() == Step(old(View()), End)
    {
      hide RejectAll, Step;
      EndStep(View());
      if closed {
        return;
      }
      closed := true;
      managePoolSizeTask := false;
      requestTimeoutId := None;
      idleConnections := [];
      RejectRequests();
    }

    method RejectRequests()
      modifies this
      ensures View() == RejectAll(old(View()))
    {
      while requests != []
        invariant RejectAll(View()) == RejectAll(old(View()))
        decreases |requests|
      {
        var task := requests[0];
        requests := requests[1..];
        settled := settled[task.id := Rejected];
      }
    }
  }

  /** What the first of the connections from `i` on adds to those that stay. */
  lemma RemoveOne(q: seq<nat>, i: nat, c: nat)
    requires i < |q|
    ensures q[..i] + Remove(q[i..], c) == (if q[i] == c then q[..i] else q[..i + 1]) + Remove(q[i + 1..], c)
  {
    assert q[i..][1..] == q[i + 1..];
    if q[i] != c {
      assert q[..i] + ([q[i]] + Remove(q[i + 1..], c)) == q[..i + 1] + Remove(q[i + 1..], c);
    }
  }

  lemma RemoveAll(q: seq<nat>, i: nat, c: nat)
    requires i == |q|
    ensures q[..i] + Remove(q[i..], c) == q
  {
  }

  lemma EndStep(p: Pool)
    ensures Step(p, End)
            == if p.closed then p else RejectAll(p.(closed := true, retryTask := false, timer := None, idle := []))
  {
    hide RejectAll;
  }

  lemma CreationStep(p: Pool, c: nat)
    requires p.creations > 0 && c !in p.known
    ensures var p1 := p.(creations := p.creations - 1, known := p.known + {c}, inCreation := false);
            var p2 := ProcessNext(p1.(idle := p1.idle + [c]));
            Step(p, CreationSucceeded(c))
            == if p.closed then p1 else if ShouldCreateMoreConnections(p2) then ValidateSize(p2) else p2
  {
    hide ProcessNext, ShouldCreateMoreConnections, ValidateSize;
  }

  lemma CheckIgnoresTimer(p: Pool)
    ensures CheckTimeouts(p.(timer := None)) == CheckTimeouts(p)
    decreases |p.requests|
  {
    if p.requests != [] && p.requests[0].timeout <= p.now {
      var q := Settle(p.(requests := p.requests[1..]), p.requests[0].id, Rejected);
      CheckIgnoresTimer(q);
      assert Settle(p.(timer := None).(requests := p.requests[1..]), p.requests[0].id, Rejected) == q.(timer := None);
    }
  }
}
