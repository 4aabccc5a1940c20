/** The prepared-statement classes: each field changed in place, and every operation a step of the
    model. */
module PreparedStatements {
  import opened Bytes
  import opened PreparedModel

  /** The `close_prepare` listener: the statements it has been told to close. */
  class Listener {
    var closes: seq<PrepareResultPacket>

    constructor ()
      ensures closes == []
    {
      closes := [];
    }
  }

  class PrepareResultPacket {
    // the id the server gave the statement
    const id: int
    const conn: Listener
    var closed: bool
    // its place in the order of preparation
    ghost const no: nat

    constructor (id: int, conn: Listener, ghost no: nat)
      ensures this.id == id && this.conn == conn && this.no == no && !closed
    {
      this.id, this.conn, this.no, closed := id, conn, no, false;
    }

    method Close()
      modifies this`closed, conn
      ensures closed
      ensures conn.closes == if old(closed) then old(conn.closes) else old(conn.closes) + [this]
    {
      if !closed {
        closed := true;
        conn.closes := conn.closes + [this];
      }
    }
  }

  class PrepareCacheWrapper {
    var use: int
    var cached: bool
    const prepare: PrepareResultPacket

    constructor (prepare: PrepareResultPacket)
      ensures this.prepare == prepare && use == 0 && cached
    {
      this.prepare, use, cached := prepare, 0, true;
    }

    function State(): Entry
      reads this, prepare
    {
      Entry(use, cached, prepare.closed)
    }

    method IncrementUse() returns (w: PrepareWrapper)
      modifies this`use
      ensures use == old(use) + 1
      ensures fresh(w) && w.cacheWrapper == this && !w.closed
    {
      use := use + 1;
      w := new PrepareWrapper(this);
    }

    method UnCache()
      modifies this`cached, prepare`closed, prepare.conn
      ensures State() == Entry(old(use), false, old(prepare.closed) || old(use) == 0)
      ensures prepare.conn.closes
              == old(prepare.conn.closes) + if old(!prepare.closed && use == 0) then [prepare] else []
    {
      cached := false;
      if use == 0 {
        prepare.Close();
      }
    }

    method DecrementUse()
      modifies this`use, prepare`closed, prepare.conn
      ensures State() == Entry(old(use) - 1, old(cached), old(prepare.closed) || (old(use) == 1 && !old(cached)))
      ensures prepare.conn.closes
              == old(prepare.conn.closes) + if old(!prepare.closed && use == 1 && !cached) then [prepare] else []
    {
      use := use - 1;
      if use == 0 && !cached {
        prepare.Close();
      }
    }
  }

  class PrepareWrapper {
    var closed: bool
    const cacheWrapper: PrepareCacheWrapper

    constructor (cacheWrapper: PrepareCacheWrapper)
      ensures this.cacheWrapper == cacheWrapper && !closed
    {
      this.cacheWrapper, closed := cacheWrapper, false;
    }
  }

  datatype Item = Item(key: string, value: PrepareCacheWrapper)

  ghost function SlotsOf(items: seq<Item>): (s: seq<Slot>)
    ensures |s| == |items|
    ensures forall i :: 0 <= i < |s| ==> s[i] == Slot(items[i].key, items[i].value.prepare.no)
  {
    seq(|items|, i requires 0 <= i < |items| => Slot(items[i].key, items[i].value.prepare.no))
  }

  /** The cache of a connection, with every wrapper and handle there has been. */
  class LruPrepareCache {
    const max: nat
    const conn: Listener
    var lru: seq<Item>
    ghost var entries: seq<PrepareCacheWrapper>
    ghost var handles: seq<PrepareWrapper>

    constructor (max: nat, conn: Listener)
      requires conn.closes == []
      ensures this.max == max && this.conn == conn && Valid() && View() == Start(max)
    {
      this.max, this.conn := max, conn;
      lru, entries, handles := [], [], [];
    }

    ghost predicate Known(w: PrepareCacheWrapper)
      reads this
    {
      w.prepare.no < |entries| && entries[w.prepare.no] == w
    }

    /** The statements are numbered in the order of preparation, so they and their wrappers are all
        different. */
    ghost predicate Valid()
      reads this
    {
      && (forall i :: 0 <= i < |entries| ==> entries[i].prepare.no == i && entries[i].prepare.conn == conn)
      && (forall i :: 0 <= i < |lru| ==> Known(lru[i].value))
      && (forall h :: 0 <= h < |handles| ==> Known(handles[h].cacheWrapper))
      && (forall g, h :: 0 <= g < h < |handles| ==> handles[g] != handles[h])
    }

    ghost function Packets(): set<PrepareResultPacket>
      reads this
    {
      set i | 0 <= i < |entries| :: entries[i].prepare
    }

    ghost function Slots(): seq<Slot>
      reads this
    {
      SlotsOf(lru)
    }

    ghost function Entries(): seq<Entry>
      reads this, entries, Packets()
    {
      seq(|entries|, i requires 0 <= i < |entries| reads this, entries, Packets() =>
        Entry(entries[i].use, entries[i].cached, entries[i].prepare.closed))
    }

    ghost function Handles(): seq<Handle>
      reads this, handles
    {
      seq(|handles|, h requires 0 <= h < |handles| reads this, handles =>
        Handle(handles[h].cacheWrapper.prepare.no, handles[h].closed))
    }

    ghost function Closes(): seq<nat>
      reads this, conn
    {
      seq(|conn.closes|, i requires 0 <= i < |conn.closes| reads this, conn => conn.closes[i].no)
    }

    ghost function View(): Prep
      reads this, conn, entries, Packets(), handles
    {
      Prep(max, Slots(), Entries(), Handles(), Closes())
    }

    /** A wrapper leaves the cache: the `dispose` callback. */
    method Dispose(w: PrepareCacheWrapper)
      requires Valid() && Known(w)
      modifies w`cached, w.prepare`closed, conn
      ensures Valid() && View() == UnCache(old(View()), w.prepare.no)
    {
      ghost var e := w.prepare.no;
      ghost var before := View();
      w.UnCache();
      assert Entries() == before.entries[e := w.State()];
      assert Handles() == before.handles && Slots() == before.lru;
    }

    /** One more handle on a wrapper. */
    method Take(w: PrepareCacheWrapper) returns (h: PrepareWrapper)
      requires Valid() && Known(w)
      modifies this`handles, w`use
      ensures Valid() && View() == IncrementUse(old(View()), w.prepare.no)
      ensures fresh(h) && handles == old(handles) + [h] && !h.closed && h.cacheWrapper == w
    {
      ghost var e := w.prepare.no;
      ghost var before := View();
      h := w.IncrementUse();
      handles := handles + [h];
      assert Entries() == before.entries[e := w.State()];
      assert Handles() == before.handles + [Handle(e, false)] && Slots() == before.lru;
    }

    /** The slot of a key in the map of the cache. */
    method Search(key: string) returns (r: Option<nat>)
      requires Valid()
      ensures r == Find(Slots(), key)
    {
      var i := 0;
      while i < |lru|
        invariant 0 <= i <= |lru|
        invariant forall k :: 0 <= k < i ==> lru[k].key != key
      {
        if lru[i].key == key {
          FirstFound(Slots(), key, i);
          return Some(i);
        }
        i := i + 1;
      }
      assert forall k :: 0 <= k < |lru| ==> Slots()[k].key != key;
      return None;
    }

    /** The map of the cache in its new order. */
    method Reorder(items: seq<Item>)
      requires Valid() && forall i :: 0 <= i < |items| ==> Known(items[i].value)
      modifies this`lru
      ensures lru == items && Valid()
      ensures View() == old(View()).(lru := Slots()) && Slots() == SlotsOf(items)
    {
      ghost var before := View();
      lru := items;
      assert Entries() == before.entries && Handles() == before.handles;
    }

    /** A hit moves to the end and gets one more handle. */
    method Hit(i: nat) returns (h: PrepareWrapper)
      requires Valid() && i < |lru|
      modifies this`lru, this`handles, entries
      ensures Valid() && handles == old(handles) + [h] && !h.closed
      ensures var p := old(View());
              View() == IncrementUse(p.(lru := Without(p.lru, i) + [p.lru[i]]), p.lru[i].entry)
    {
      hide Find;
      var cachedItem := lru[i];
      ghost var before := View();
      Reorder(lru[..i] + lru[i + 1..] + [cachedItem]);
      assert Slots() == Without(before.lru, i) + [before.lru[i]];
      h := Take(cachedItem.value);
    }

    method Get(key: string) returns (h: PrepareWrapper?)
      requires Valid()
      modifies this`lru, this`handles, entries
      ensures Valid() && View() == PreparedModel.Get(old(View()), key)
      ensures h == null <==> Find(old(Slots()), key).None?
      ensures h != null ==> handles == old(handles) + [h] && !h.closed
    {
      hide Find;
      var found := Search(key);
      if found.None? {
        return null;
      }
      h := Hit(found.value);
    }

    /** A value in the place of another one, which is disposed of unless it is the same. */
    method Replace(i: nat, key: string, value: PrepareCacheWrapper)
      requires Valid() && Known(value) && i < |lru|
      modifies this`lru, entries, Packets(), conn
      ensures Valid()
      ensures var p, e := old(View()), value.prepare.no;
              var q := p.(lru := Without(p.lru, i) + [Slot(key, e)]);
              View() == if p.lru[i].entry != e then UnCache(q, p.lru[i].entry) else q
    {
      hide UnCache;
      ghost var before := View();
      var old' := lru[i].value;
      Reorder(lru[..i] + lru[i + 1..] + [Item(key, value)]);
      assert Slots() == Without(before.lru, i) + [Slot(key, value.prepare.no)];
      if old' != value {
        Dispose(old');
      }
    }

    method Evict(key: string, value: PrepareCacheWrapper)
      requires Valid() && Known(value) && lru != []
      modifies this`lru, entries, Packets(), conn
      ensures Valid()
      ensures var p := old(View());
              View() == UnCache(p.(lru := p.lru[1..] + [Slot(key, value.prepare.no)]), p.lru[0].entry)
    {
      hide UnCache;
      ghost var before := View();
      var oldest := lru[0].value;
      Reorder(lru[1..] + [Item(key, value)]);
      assert Slots() == before.lru[1..] + [Slot(key, value.prepare.no)];
      Dispose(oldest);
    }

    /** `set`: the value under the same key, or else the oldest one of a full cache, is disposed of. */
    method Set(key: string, value: PrepareCacheWrapper)
      requires Valid() && Known(value)
      modifies this`lru, entries, Packets(), conn
      ensures Valid() && View() == PreparedModel.Set(old(View()), key, value.prepare.no)
    {
      hide Find, UnCache, Without, SlotsOf;
      ghost var before := View();
      var found := Search(key);
      if found.Some? {
        Replace(found.value, key, value);
      } else if |lru| >= max && lru != [] {
        Evict(key, value);
      } else {
        Reorder(lru + [Item(key, value)]);
        Appended(lru[..|lru| - 1], Item(key, value));
        assert lru[..|lru| - 1] == old(lru);
      }
    }

    /** `successPrepare`: the new statement is wrapped, cached, and its first handle returned. */
    method SuccessPrepare(key: string, statementId: int) returns (h: PrepareWrapper)
      requires Valid()
      modifies this`lru, this`entries, this`handles, entries, Packets(), conn
      ensures Valid() && View() == Prepared(old(View()), key)
      ensures handles == old(handles) + [h] && h.cacheWrapper.prepare.id == statementId
    {
      hide PreparedModel.Set, IncrementUse;
      ghost var before := View();
      var prepare := new PrepareResultPacket(statementId, conn, |entries|);
      var cached := new PrepareCacheWrapper(prepare);
      entries := entries + [cached];
      assert Entries() == before.entries + [Entry(0, true, false)];
      assert Handles() == before.handles && Slots() == before.lru && Closes() == before.closes;
      Set(key, cached);
      h := Take(cached);
    }

    /** The user's `close` of a handle. */
    method CloseHandle(h: PrepareWrapper, ghost k: nat)
      requires Valid() && k < |handles| && handles[k] == h
      modifies h, h.cacheWrapper, h.cacheWrapper.prepare, conn
      ensures Valid() && View() == PreparedModel.CloseHandle(old(View()), k)
    {
      ghost var before := View();
      if !h.closed {
        h.closed := true;
        assert Handles() == before.handles[k := before.handles[k].(closed := true)];
        Release(h.cacheWrapper);
      }
    }

    method Release(w: PrepareCacheWrapper)
      requires Valid() && Known(w)
      modifies w`use, w.prepare`closed, conn
      ensures Valid() && View() == DecrementUse(old(View()), w.prepare.no)
    {
      ghost var e := w.prepare.no;
      ghost var before := View();
      w.DecrementUse();
      assert Entries() == before.entries[e := w.State()];
      assert Handles() == before.handles && Slots() == before.lru;
    }

    /** `clear` of the cache: every value is disposed of, the oldest first. */
    method Reset()
      requires Valid()
      modifies this`lru, entries, Packets(), conn
      ensures Valid() && View() == PreparedModel.Reset(old(View()))
    {
      hide UnCache;
      ghost var before := View();
      assert before.lru[0..] == before.lru;
      for i := 0 to |lru|
        invariant lru == old(lru) && Valid() && Slots() == before.lru
        invariant forall k :: 0 <= k < |before.lru| ==> before.lru[k].entry < |View().entries|
        invariant UnCacheAll(View(), before.lru[i..]) == UnCacheAll(before, before.lru)
      {
        assert before.lru[i..][1..] == before.lru[i + 1..];
        assert before.lru[i].entry == lru[i].value.prepare.no;
        Dispose(lru[i].value);
      }
      Reorder([]);
    }
  }

  lemma Appended(items: seq<Item>, item: Item)
    ensures SlotsOf(items + [item]) == SlotsOf(items) + [Slot(item.key, item.value.prepare.no)]
  {
  }

  lemma {:induction false} FirstFound(lru: seq<Slot>, key: string, i: nat)
    requires i < |lru| && lru[i].key == key && forall k :: 0 <= k < i ==> lru[k].key != key
    ensures Find(lru, key) == Some(i)
    decreases i
  {
    if i > 0 {
      FirstFound(lru[1..], key, i - 1);
    }
  }
}
