/** The connection pool as a state machine: one atomic step per callback of the event loop. */
module PoolModel {
  import opened Bytes

  datatype Options = Options(connectionLimit: nat, minimumIdle: nat, acquireTimeout: nat)

  datatype Request = Request(id: nat, timeout: int)

  datatype Settlement = Resolved(conn: nat) | Rejected

  /** A request whose candidate connection is being pinged, and whether the pool size is to be
      checked afterwards. */
  datatype Ping = Ping(conn: nat, needCheck: bool)

  /** Connections are named by their thread id, and `active` also says for which request one was
      taken; `known` holds every id ever used. `ticks` counts the `_idle` events queued by
      `release`, `checks` the queued `validateSize` events, `errorChecks` the checks queued by
      connection errors, `creations` the connection attempts under way; `retryTask` is the pending
      back-off and `timer` the time the request timer is due. `settled` holds the requests that got
      their one callback. */
  datatype Pool = Pool(opts: Options, closed: bool, inCreation: bool, creations: nat, known: set<nat>,
                       idle: seq<nat>, active: map<nat, nat>,
                       requests: seq<Request>, timer: Option<int>, retryTask: bool,
                       ticks: nat, checks: nat, errorChecks: nat,
                       validating: map<nat, Ping>, settled: map<nat, Settlement>, nextId: nat, now: int)

  // ---------- the program's steps ----------

  function Total(p: Pool): nat { |p.active| + |p.idle| }

  predicate ShouldCreateMoreConnections(p: Pool) {
    && !p.inCreation
    && (Total(p) < p.opts.minimumIdle || (p.requests != [] && p.idle == []))
    && Total(p) < p.opts.connectionLimit
    && !p.closed
  }

  function Manage(p: Pool): Pool {
    if !ShouldCreateMoreConnections(p) || p.retryTask then p
    else p.(inCreation := true, creations := p.creations + 1)
  }

  /** The event `validateSize`; `end` has removed all listeners of a closed pool. */
  function ValidateSize(p: Pool): Pool { if p.closed then p else Manage(p) }

  function Drop<V>(m: map<nat, V>, k: nat): map<nat, V> { map x | x in m && x != k :: m[x] }

  function Remove(q: seq<nat>, c: nat): seq<nat> {
    if q == [] then [] else if q[0] == c then Remove(q[1..], c) else [q[0]] + Remove(q[1..], c)
  }

  function Settle(p: Pool, id: nat, how: Settlement): Pool { p.(settled := p.settled[id := how]) }

  /** `_checkRequestTimeouts` */
  function CheckTimeouts(p: Pool): Pool
    decreases |p.requests|
  {
    if p.requests == [] then p.(timer := None)
    else if p.requests[0].timeout <= p.now then
      CheckTimeouts(Settle(p.(requests := p.requests[1..]), p.requests[0].id, Rejected))
    else p.(timer := Some(p.requests[0].timeout))
  }

  /** The head request gets the head connection. */
  function Hand(p: Pool): Pool
    requires p.idle != [] && p.requests != []
  {
    var c, id := p.idle[0], p.requests[0].id;
    Settle(p.(idle := p.idle[1..], requests := p.requests[1..], active := p.active[c := id]), id, Resolved(c))
  }

  /** `_processNextPendingRequest` */
  function ProcessNext(p: Pool): Pool {
    if p.requests == [] then p.(timer := None)
    else if p.idle == [] then CheckTimeouts(p)
    else CheckTimeouts(Hand(p))
  }

  /** What `getConnection` does when no idle connection can be had. */
  function Enqueue(p: Pool, id: nat): Pool {
    if p.closed then Settle(p, id, Rejected)
    else
      var due := p.now + p.opts.acquireTimeout;
      p.(checks := p.checks + 1, requests := p.requests + [Request(id, due)],
         timer := if p.timer.None? then Some(due) else p.timer)
  }

  datatype Health = Good | Bad | MustPing

  function Checked(p: Pool, need: bool): Pool { if need then p.(checks := p.checks + 1) else p }

  /** `_findValidIdleConnection`; `health` says how the connections it looks at are. */
  function Find(p: Pool, id: nat, health: seq<Health>, need: bool): Pool
    decreases |p.idle|
  {
    if p.idle == [] then Enqueue(Checked(p, need), id)
    else
      var c := p.idle[0];
      var p1 := p.(idle := p.idle[1..], active := p.active[c := id]);
      match if health == [] then Good else health[0]
      case Good => Settle(Checked(p1, need), id, Resolved(c))
      case MustPing => p1.(validating := p1.validating[id := Ping(c, need)])
      case Bad => Find(p1.(active := Drop(p1.active, c)), id, health[1..], true)
  }

  datatype Event =
    | GetConnection(health: seq<Health>)
    | PingDone(id: nat, ok: bool, health: seq<Health>)
    | Release(conn: nat, valid: bool)
    | Destroy(conn: nat)
    | ConnError(conn: nat)
    | IdleTick
    | CheckSize
    | CheckAfterError
    | CreationSucceeded(conn: nat)
    | CreationFailed
    | RetryFires
    | Reap(count: nat)
    | TimerFires
    | End
    | TimePasses(to: int)

  /** What the environment can do: a connection is released by the request that holds it, new
      connections have new thread ids, timers fire when they are due, and the clock is monotone. */
  predicate Enabled(p: Pool, e: Event) {
    match e
    case PingDone(id, _, _) => id in p.validating
    case Release(c, _) => c in p.active ==> p.active[c] in p.settled
    case IdleTick => p.ticks > 0
    case CheckSize => p.checks > 0
    case CheckAfterError => p.errorChecks > 0
    case CreationSucceeded(c) => p.creations > 0 && c !in p.known
    case CreationFailed => p.creations > 0
    case RetryFires => p.retryTask
    case Reap(k) => !p.closed && k <= Max(0, |p.idle| - p.opts.minimumIdle)
    case TimerFires => p.timer.Some? && p.timer.value <= p.now
    case TimePasses(t) => p.now <= t
    case _ => true
  }

  function RejectAll(p: Pool): Pool
    decreases |p.requests|
  {
    if p.requests == [] then p
    else RejectAll(Settle(p.(requests := p.requests[1..]), p.requests[0].id, Rejected))
  }

  function Step(p: Pool, e: Event): Pool
    requires Enabled(p, e)
  {
    match e
    case GetConnection(health) =>
      var id := p.nextId;
      var p1 := p.(nextId := id + 1);
      if p.closed then Settle(p1, id, Rejected)
      else if p.idle == [] then Enqueue(p1, id)
      else Find(p1, id, health, false)
    case PingDone(id, ok, health) =>
      var ping := p.validating[id];
      var p1 := p.(validating := Drop(p.validating, id));
      if ok then Settle(Checked(p1, ping.needCheck), id, Resolved(ping.conn))
      else Find(p1.(active := Drop(p1.active, ping.conn)), id, health, true)
    case Release(c, valid) =>
      if c !in p.active then p
      else
        var p1 := p.(active := Drop(p.active, c));
        if p.closed || !valid then ValidateSize(p1)
        else p1.(idle := p1.idle + [c], ticks := p1.ticks + 1)
    case Destroy(c) => ValidateSize(p.(active := Drop(p.active, c)))
    case ConnError(c) =>
      p.(active := Drop(p.active, c), idle := Remove(p.idle, c), errorChecks := p.errorChecks + 1)
    case IdleTick =>
      var p1 := p.(ticks := p.ticks - 1);
      if p.closed then p1 else ProcessNext(p1)
    case CheckSize => ValidateSize(p.(checks := p.checks - 1))
    case CheckAfterError =>
      var p1 := p.(errorChecks := p.errorChecks - 1);
      if p.requests != [] then Manage(p1) else p1
    case CreationSucceeded(c) =>
      var p1 := p.(creations := p.creations - 1, known := p.known + {c}, inCreation := false);
      if p.closed then p1
      else
        var p2 := ProcessNext(p1.(idle := p1.idle + [c]));
        if ShouldCreateMoreConnections(p2) then ValidateSize(p2) else p2
    case CreationFailed =>
      p.(creations := p.creations - 1, inCreation := false, retryTask := !p.closed || p.retryTask)
    case RetryFires =>
      var p1 := p.(retryTask := false);
      if p.requests != [] then Manage(p1) else p1
    case Reap(k) => ValidateSize(p.(idle := p.idle[k..]))
    case TimerFires => CheckTimeouts(p)
    case End =>
      if p.closed then p
      else RejectAll(p.(closed := true, retryTask := false, timer := None, idle := []))
    case TimePasses(t) => p.(now := t)
  }

  function Init(opts: Options, now: int): Pool {
    Manage(Pool(opts, false, false, 0, {}, [], map[], [], None, false, 0, 0, 0, map[], map[], 0, now))
  }

  predicate Run(p: Pool, es: seq<Event>)
    decreases |es|
  {
    es == [] || (Enabled(p, es[0]) && Run(Step(p, es[0]), es[1..]))
  }

  function After(p: Pool, es: seq<Event>): Pool
    requires Run(p, es)
    decreases |es|
  {
    if es == [] then p else After(Step(p, es[0]), es[1..])
  }

  // ---------- what every step keeps ----------

  /** Capacity and exclusive ownership: an idle connection is idle once and not active, and an
      active one belongs to the one request that is trying it or was given it. */
  predicate Owned(p: Pool) {
    && (forall i, j :: 0 <= i < j < |p.idle| ==> p.idle[i] != p.idle[j])
    && (forall i :: 0 <= i < |p.idle| ==> p.idle[i] !in p.active && p.idle[i] in p.known)
    && (forall c :: c in p.active ==> c in p.known && Holds(p.validating, p.settled, p.active[c], c))
    && (!p.closed ==> p.creations == if p.inCreation then 1 else 0)
    && Total(p) + (if p.closed then 0 else p.creations) <= p.opts.connectionLimit
  }

  predicate Holds(validating: map<nat, Ping>, settled: map<nat, Settlement>, id: nat, c: nat) {
    || (id in validating && validating[id].conn == c)
    || (id in settled && settled[id] == Resolved(c))
  }

  /** Every request but the one in hand is in exactly one place: waiting, trying a connection, or
      settled for good. */
  predicate Accounted(p: Pool, hand: Option<nat>) {
    && (forall i, j :: 0 <= i < j < |p.requests| ==> p.requests[i].id != p.requests[j].id)
    && (forall i :: 0 <= i < |p.requests| ==> Fresh(p, p.requests[i].id) && p.requests[i].id < p.nextId)
    && (forall id :: id in p.validating ==> id < p.nextId && id !in p.settled)
    && (forall id :: id in p.settled ==> id < p.nextId)
    && (forall id: nat :: id < p.nextId && hand != Some(id) ==> Placed(p, id))
    && (hand.Some? ==> hand.value < p.nextId && !Placed(p, hand.value))
  }

  predicate Fresh(p: Pool, id: nat) { id !in p.settled && id !in p.validating }

  predicate Placed(p: Pool, id: nat) { id in p.settled || id in p.validating || Waiting(p.requests, id) }

  predicate Waiting(rs: seq<Request>, id: nat) { exists i :: 0 <= i < |rs| && rs[i].id == id }

  /** The queue is sorted by deadline. */
  predicate Ordered(p: Pool) {
    && (forall i, j :: 0 <= i < j < |p.requests| ==> p.requests[i].timeout <= p.requests[j].timeout)
    && (forall i :: 0 <= i < |p.requests| ==> p.requests[i].timeout <= p.now + p.opts.acquireTimeout)
    && (p.closed ==> p.requests == [] && p.idle == [] && !p.retryTask)
  }

  /** The timer is set exactly when a request waits, and is due at the first deadline. */
  predicate Timed(p: Pool) {
    p.timer == if p.requests == [] then None else Some(p.requests[0].timeout)
  }

  /** A free connection and a waiting request come with an `_idle` event under way. */
  predicate NotStranded(p: Pool) {
    Min(|p.idle|, |p.requests|) <= p.ticks
  }

  /** A waiting request has something under way that will look at the queue again. */
  predicate Alive(p: Pool) {
    p.requests != [] ==>
      || p.inCreation || p.retryTask || p.checks > 0 || p.errorChecks > 0
      || p.active.Keys != {} || (p.idle != [] && p.ticks > 0)
  }

  predicate Core(p: Pool, hand: Option<nat>) {
    p.opts.connectionLimit > 0 && Owned(p) && Accounted(p, hand) && Ordered(p)
  }

  predicate Inv(p: Pool) {
    Core(p, None) && Timed(p) && NotStranded(p) && Alive(p)
  }
}
