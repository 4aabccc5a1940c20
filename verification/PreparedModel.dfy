/** Server statements, the counted wrappers around them, and the LRU cache that keeps them, as one
    state that events move. */
module PreparedModel {
  import opened Bytes

  /** A `PrepareCacheWrapper` together with the `PrepareResultPacket` it holds. */
  datatype Entry = Entry(use: int, cached: bool, closed: bool)

  /** A `PrepareWrapper`: a handle on one entry. */
  datatype Handle = Handle(entry: nat, closed: bool)

  datatype Slot = Slot(key: string, entry: nat)

  /** `lru` runs from the least to the most recently used; `closes` are the COM_STMT_CLOSE sent. */
  datatype Prep = Prep(max: nat, lru: seq<Slot>, entries: seq<Entry>, handles: seq<Handle>, closes: seq<nat>)

  function Close(p: Prep, e: nat): Prep
    requires e < |p.entries|
  {
    if p.entries[e].closed then p
    else p.(entries := p.entries[e := p.entries[e].(closed := true)], closes := p.closes + [e])
  }

  function UnCache(p: Prep, e: nat): Prep
    requires e < |p.entries|
  {
    var q := p.(entries := p.entries[e := p.entries[e].(cached := false)]);
    if q.entries[e].use == 0 then Close(q, e) else q
  }

  function IncrementUse(p: Prep, e: nat): Prep
    requires e < |p.entries|
  {
    p.(entries := p.entries[e := p.entries[e].(use := p.entries[e].use + 1)],
       handles := p.handles + [Handle(e, false)])
  }

  function DecrementUse(p: Prep, e: nat): Prep
    requires e < |p.entries|
  {
    var q := p.(entries := p.entries[e := p.entries[e].(use := p.entries[e].use - 1)]);
    if q.entries[e].use == 0 && !q.entries[e].cached then Close(q, e) else q
  }

  /** The slot a key is in. */
  function Find(lru: seq<Slot>, key: string): (r: Option<nat>)
    ensures r.Some? ==> r.value < |lru| && lru[r.value].key == key
    ensures r.None? ==> forall i :: 0 <= i < |lru| ==> lru[i].key != key
  {
    if lru == [] then None
    else if lru[0].key == key then Some(0)
    else match Find(lru[1..], key) case None => None case Some(i) => Some(i + 1)
  }

  function Without(lru: seq<Slot>, i: nat): seq<Slot>
    requires i < |lru|
  {
    lru[..i] + lru[i + 1..]
  }

  /** `get` on the cache: a hit becomes the most recent and gets one more handle. */
  function Get(p: Prep, key: string): Prep
    requires Linked(p)
  {
    match Find(p.lru, key)
    case None => p
    case Some(i) => IncrementUse(p.(lru := Without(p.lru, i) + [p.lru[i]]), p.lru[i].entry)
  }

  /** `set`: the entry under the same key, or the oldest one when the cache is full, is disposed of. */
  function Set(p: Prep, key: string, e: nat): Prep
    requires Linked(p) && e < |p.entries|
  {
    match Find(p.lru, key)
    case Some(i) =>
      var q := p.(lru := Without(p.lru, i) + [Slot(key, e)]);
      if p.lru[i].entry != e then UnCache(q, p.lru[i].entry) else q
    case None =>
      if |p.lru| >= p.max && p.lru != [] then
        UnCache(p.(lru := p.lru[1..] + [Slot(key, e)]), p.lru[0].entry)
      else p.(lru := p.lru + [Slot(key, e)])
  }

  /** The server has prepared a statement: it is cached, and its first handle handed out. */
  function Prepared(p: Prep, key: string): Prep
    requires Linked(p)
  {
    var e := |p.entries|;
    IncrementUse(Set(p.(entries := p.entries + [Entry(0, true, false)]), key, e), e)
  }

  /** `close` of a handle, which only works once. */
  function CloseHandle(p: Prep, h: nat): Prep
    requires Linked(p) && h < |p.handles|
  {
    if p.handles[h].closed then p
    else DecrementUse(p.(handles := p.handles[h := p.handles[h].(closed := true)]), p.handles[h].entry)
  }

  function UnCacheAll(p: Prep, slots: seq<Slot>): Prep
    requires forall i :: 0 <= i < |slots| ==> slots[i].entry < |p.entries|
    decreases |slots|
  {
    if slots == [] then p else UnCacheAll(UnCache(p, slots[0].entry), slots[1..])
  }

  /** `reset`: every cached entry is disposed of. */
  function Reset(p: Prep): Prep
    requires Linked(p)
  {
    UnCacheAll(p, p.lru).(lru := [])
  }

  /** Slots and handles name entries that exist. */
  predicate Linked(p: Prep) {
    && (forall i :: 0 <= i < |p.lru| ==> p.lru[i].entry < |p.entries|)
    && (forall h :: 0 <= h < |p.handles| ==> p.handles[h].entry < |p.entries|)
  }

  // ---------- runs ----------

  datatype Event = EvGet(key: string) | EvPrepared(key: string) | EvClose(h: nat) | EvReset

  function Step(p: Prep, ev: Event): Prep
    requires Linked(p)
  {
    match ev
    case EvGet(key) => Get(p, key)
    case EvPrepared(key) => Prepared(p, key)
    case EvClose(h) => if h < |p.handles| then CloseHandle(p, h) else p
    case EvReset => Reset(p)
  }

  function Start(max: nat): Prep { Prep(max, [], [], [], []) }

  // ---------- what every run keeps ----------

  function OpenOn(handles: seq<Handle>, e: nat): nat {
    if handles == [] then 0
    else OpenOn(handles[..|handles| - 1], e)
         + (var h := handles[|handles| - 1]; if h.entry == e && !h.closed then 1 else 0)
  }

  function Open(handles: seq<Handle>): nat {
    if handles == [] then 0
    else Open(handles[..|handles| - 1]) + (if handles[|handles| - 1].closed then 0 else 1)
  }

  /** The count of an entry is the number of its open handles. */
  predicate Counted(p: Prep) {
    forall e :: 0 <= e < |p.entries| ==> p.entries[e].use == OpenOn(p.handles, e)
  }

  predicate InLru(lru: seq<Slot>, e: nat) { exists i :: 0 <= i < |lru| && lru[i].entry == e }

  /** The cache holds exactly the cached entries, each in one slot, under different keys, and no
      more than it may. */
  predicate Cached(p: Prep) {
    && 1 <= p.max && |p.lru| <= p.max
    && (forall i, j :: 0 <= i < j < |p.lru| ==> p.lru[i].key != p.lru[j].key && p.lru[i].entry != p.lru[j].entry)
    && (forall e :: 0 <= e < |p.entries| ==> (p.entries[e].cached <==> InLru(p.lru, e)))
  }

  /** A statement is closed exactly when it is out of the cache with no open handle. */
  predicate Released(p: Prep) {
    forall e :: 0 <= e < |p.entries| ==> (p.entries[e].closed <==> !p.entries[e].cached && p.entries[e].use == 0)
  }

  /** The closes sent are those of the closed statements, one each. */
  predicate Sent(p: Prep) {
    && (forall k :: 0 <= k < |p.closes| ==> p.closes[k] < |p.entries| && p.entries[p.closes[k]].closed)
    && (forall e :: 0 <= e < |p.entries| && p.entries[e].closed ==> e in p.closes)
    && (forall j, k :: 0 <= j < k < |p.closes| ==> p.closes[j] != p.closes[k])
  }

  predicate Inv(p: Prep) { Linked(p) && Counted(p) && Cached(p) && Released(p) && Sent(p) }
}
