/** What every run of the prepared-statement cache keeps. */
module PreparedProofs {
  import opened PreparedModel

  // ---------- counting handles ----------

  lemma OpenSnoc(handles: seq<Handle>, h: Handle, e: nat)
    ensures OpenOn(handles + [h], e) == OpenOn(handles, e) + (if h.entry == e && !h.closed then 1 else 0)
    ensures Open(handles + [h]) == Open(handles) + (if h.closed then 0 else 1)
  {
    assert (handles + [h])[..|handles|] == handles;
  }

  lemma {:induction false} OpenUpdate(handles: seq<Handle>, h: nat, e: nat)
    requires h < |handles| && !handles[h].closed
    ensures var after := handles[h := handles[h].(closed := true)];
            OpenOn(after, e) == OpenOn(handles, e) - (if handles[h].entry == e then 1 else 0)
    decreases |handles|
  {
    var after := handles[h := handles[h].(closed := true)];
    var n := |handles| - 1;
    if h == n {
      assert after[..n] == handles[..n];
    } else {
      assert after[..n] == handles[..n][h := handles[h].(closed := true)];
      OpenUpdate(handles[..n], h, e);
    }
  }

  // ---------- one entry changed ----------

  /** The cache property with one entry taken as not cached. */
  predicate CachedBut(p: Prep, e: nat)
    requires e < |p.entries|
  {
    Cached(p.(entries := p.entries[e := p.entries[e].(cached := false)]))
  }

  predicate AllBut(p: Prep, e: nat) {
    Linked(p) && e < |p.entries| && Counted(p) && Released(p) && Sent(p) && CachedBut(p, e)
  }

  lemma CloseSent(p: Prep, e: nat)
    requires e < |p.entries| && Sent(p)
    ensures Sent(Close(p, e))
  {
    if !p.entries[e].closed {
      var q := Close(p, e);
      assert e !in p.closes;
      forall x | 0 <= x < |q.entries| && q.entries[x].closed
        ensures x in q.closes
      {
        if x == e {
          assert q.closes[|p.closes|] == e;
        } else {
          assert p.entries[x].closed;
        }
      }
    }
  }

  lemma SentKept(p: Prep, q: Prep)
    requires Sent(p) && q.closes == p.closes && |q.entries| >= |p.entries|
    requires forall e :: 0 <= e < |p.entries| ==> q.entries[e].closed == p.entries[e].closed
    requires forall e :: |p.entries| <= e < |q.entries| ==> !q.entries[e].closed
    ensures Sent(q)
  {
  }

  lemma CachedKept(p: Prep, q: Prep)
    requires Cached(p) && q.lru == p.lru && q.max == p.max && |q.entries| == |p.entries|
    requires forall e :: 0 <= e < |p.entries| ==> q.entries[e].cached == p.entries[e].cached
    ensures Cached(q)
  {
    hide InLru;
  }

  lemma CountedKept(p: Prep, q: Prep)
    requires Counted(p) && q.handles == p.handles && |q.entries| == |p.entries|
    requires forall e :: 0 <= e < |p.entries| ==> q.entries[e].use == p.entries[e].use
    ensures Counted(q)
  {
    hide OpenOn;
  }

  /** Taking an entry out of the cache: closed at once when no handle is open. */
  lemma UnCacheKeeps(p: Prep, e: nat)
    requires AllBut(p, e)
    ensures Inv(UnCache(p, e)) && UnCache(p, e).lru == p.lru && |UnCache(p, e).entries| == |p.entries|
  {
    hide Sent, Cached, Counted;
    var q := p.(entries := p.entries[e := p.entries[e].(cached := false)]);
    var r := UnCache(p, e);
    SentKept(p, q);
    CloseSent(q, e);
    CachedKept(q, r);
    CountedKept(p, r);
  }

  lemma UnCacheOthers(p: Prep, e: nat, x: nat)
    requires e < |p.entries| && x < |p.entries| && x != e
    ensures |UnCache(p, e).entries| == |p.entries| && UnCache(p, e).entries[x] == p.entries[x]
  {
  }

  // ---------- the cache ----------

  lemma MovedSlot(lru: seq<Slot>, i: nat, e: nat)
    requires i < |lru|
    ensures InLru(Without(lru, i) + [lru[i]], e) <==> InLru(lru, e)
  {
    var moved := Without(lru, i) + [lru[i]];
    if InLru(lru, e) {
      var k :| 0 <= k < |lru| && lru[k].entry == e;
      assert moved[if k < i then k else if k == i then |lru| - 1 else k - 1] == lru[k];
    }
    if InLru(moved, e) {
      var k :| 0 <= k < |moved| && moved[k].entry == e;
      assert moved[k] == lru[if k < i then k else if k == |lru| - 1 then i else k + 1];
    }
  }

  /** A hit moves its slot to the end. */
  lemma TouchKeeps(p: Prep, i: nat)
    requires Inv(p) && i < |p.lru|
    ensures Inv(p.(lru := Without(p.lru, i) + [p.lru[i]]))
    ensures p.lru[i].entry < |p.entries| && p.entries[p.lru[i].entry].cached
  {
    hide Counted, Released, Sent, InLru;
    var q := p.(lru := Without(p.lru, i) + [p.lru[i]]);
    forall e | 0 <= e < |p.entries|
      ensures p.entries[e].cached <==> InLru(q.lru, e)
    {
      MovedSlot(p.lru, i, e);
    }
    SlotIsIn(p.lru, i);
    SameParts(p, q);
  }

  lemma SlotIsIn(lru: seq<Slot>, i: nat)
    requires i < |lru|
    ensures InLru(lru, lru[i].entry)
  {
  }

  lemma SameParts(p: Prep, q: Prep)
    requires Counted(p) && Released(p) && Sent(p)
    requires q.entries == p.entries && q.handles == p.handles && q.closes == p.closes
    ensures Counted(q) && Released(q) && Sent(q)
  {
    hide OpenOn;
  }

  /** Giving out one more handle on a cached entry. */
  lemma IncrementKeeps(p: Prep, e: nat)
    requires Inv(p) && e < |p.entries| && p.entries[e].cached
    ensures Inv(IncrementUse(p, e))
  {
    hide Sent, Cached, OpenOn;
    var q := IncrementUse(p, e);
    forall x | 0 <= x < |p.entries|
      ensures q.entries[x].use == OpenOn(q.handles, x)
    {
      OpenSnoc(p.handles, Handle(e, false), x);
    }
    SentKept(p, q);
    CachedKept(p, q);
    CachedOpen(p, e);
  }

  lemma CachedOpen(p: Prep, e: nat)
    requires Released(p) && e < |p.entries| && p.entries[e].cached
    ensures !p.entries[e].closed
  {
  }

  lemma GetKeeps(p: Prep, key: string)
    requires Inv(p)
    ensures Inv(Get(p, key))
  {
    hide Inv, IncrementUse;
    InvLinked(p);
    match Find(p.lru, key)
    case None =>
    case Some(i) =>
      TouchKeeps(p, i);
      IncrementKeeps(p.(lru := Without(p.lru, i) + [p.lru[i]]), p.lru[i].entry);
  }

  lemma InvLinked(p: Prep)
    requires Inv(p)
    ensures Linked(p)
  {
  }

  predicate Distinct(lru: seq<Slot>) {
    forall i, j :: 0 <= i < j < |lru| ==> lru[i].key != lru[j].key && lru[i].entry != lru[j].entry
  }

  /** One slot out, another one in at the end. */
  lemma Exchanged(lru: seq<Slot>, i: nat, s: Slot)
    requires Distinct(lru) && i < |lru|
    requires forall k :: 0 <= k < |lru| && k != i ==> lru[k].key != s.key && lru[k].entry != s.entry
    ensures Distinct(Without(lru, i) + [s])
  {
    var t := Without(lru, i) + [s];
    forall a, b | 0 <= a < b < |t|
      ensures t[a].key != t[b].key && t[a].entry != t[b].entry
    {
      assert t[a] == lru[if a < i then a else a + 1];
      if b < |t| - 1 {
        assert t[b] == lru[if b < i then b else b + 1];
      }
    }
  }

  lemma ExchangedIn(lru: seq<Slot>, i: nat, s: Slot, x: nat)
    requires Distinct(lru) && i < |lru|
    ensures InLru(Without(lru, i) + [s], x) <==> x == s.entry || (InLru(lru, x) && x != lru[i].entry)
  {
    var t := Without(lru, i) + [s];
    assert t[|t| - 1] == s;
    if InLru(lru, x) && x != lru[i].entry {
      var k :| 0 <= k < |lru| && lru[k].entry == x;
      assert t[if k < i then k else k - 1] == lru[k];
    }
    if InLru(t, x) && x != s.entry {
      var k :| 0 <= k < |t| && t[k].entry == x;
      var k' := if k < i then k else k + 1;
      assert t[k] == lru[k'] && k' != i;
    }
  }

  /** A new entry in the place of an old one: only the old one is left to be taken out. */
  lemma ReplaceKeeps(p: Prep, i: nat, key: string, e: nat)
    requires AllBut(p, e) && p.entries[e].cached && i < |p.lru|
    requires forall k :: 0 <= k < |p.lru| && k != i ==> p.lru[k].key != key
    requires !InLru(p.lru, e)
    ensures p.lru[i].entry < |p.entries| && p.lru[i].entry != e
    ensures AllBut(p.(lru := Without(p.lru, i) + [Slot(key, e)]), p.lru[i].entry)
  {
    hide Counted, Released, Sent, InLru;
    var old' := p.lru[i].entry;
    var q := p.(lru := Without(p.lru, i) + [Slot(key, e)]);
    NotInLru(p.lru, e);
    Exchanged(p.lru, i, Slot(key, e));
    forall x | 0 <= x < |p.entries|
      ensures (x != old' && p.entries[x].cached) <==> InLru(q.lru, x)
    {
      ExchangedIn(p.lru, i, Slot(key, e), x);
      SlotIsIn(p.lru, i);
    }
    SameParts(p, q);
  }

  lemma NotInLru(lru: seq<Slot>, e: nat)
    requires !InLru(lru, e)
    ensures forall k :: 0 <= k < |lru| ==> lru[k].entry != e
  {
  }

  lemma AddedIn(lru: seq<Slot>, s: Slot, x: nat)
    ensures InLru(lru + [s], x) <==> x == s.entry || InLru(lru, x)
  {
    var t := lru + [s];
    assert t[|lru|] == s;
    if InLru(lru, x) {
      var k :| 0 <= k < |lru| && lru[k].entry == x;
      assert t[k] == lru[k];
    }
    if InLru(t, x) && x != s.entry {
      var k :| 0 <= k < |t| && t[k].entry == x;
      assert t[k] == lru[k];
    }
  }

  lemma AppendKeeps(p: Prep, key: string, e: nat)
    requires AllBut(p, e) && p.entries[e].cached && |p.lru| < p.max
    requires forall k :: 0 <= k < |p.lru| ==> p.lru[k].key != key
    requires !InLru(p.lru, e)
    ensures Inv(p.(lru := p.lru + [Slot(key, e)]))
  {
    hide Counted, Released, Sent, InLru;
    var q := p.(lru := p.lru + [Slot(key, e)]);
    NotInLru(p.lru, e);
    forall x | 0 <= x < |p.entries|
      ensures p.entries[x].cached <==> InLru(q.lru, x)
    {
      AddedIn(p.lru, Slot(key, e), x);
    }
    SameParts(p, q);
  }

  lemma SetKeeps(p: Prep, key: string, e: nat)
    requires AllBut(p, e) && p.entries[e].cached && !InLru(p.lru, e)
    ensures Inv(Set(p, key, e)) && |Set(p, key, e).entries| == |p.entries|
    ensures Set(p, key, e).entries[e].cached
  {
    hide Counted, Released, Sent, InLru, Inv, AllBut, UnCache;
    AllButParts(p, e);
    match Find(p.lru, key)
    case Some(i) =>
      OneKey(p, e, i);
      ReplaceKeeps(p, i, key, e);
      UnCacheKeeps(p.(lru := Without(p.lru, i) + [Slot(key, e)]), p.lru[i].entry);
      UnCacheOthers(p.(lru := Without(p.lru, i) + [Slot(key, e)]), p.lru[i].entry, e);
    case None =>
      if |p.lru| >= p.max && p.lru != [] {
        assert Without(p.lru, 0) == p.lru[1..];
        ReplaceKeeps(p, 0, key, e);
        UnCacheKeeps(p.(lru := p.lru[1..] + [Slot(key, e)]), p.lru[0].entry);
        UnCacheOthers(p.(lru := p.lru[1..] + [Slot(key, e)]), p.lru[0].entry, e);
      } else {
        AppendKeeps(p, key, e);
      }
  }

  lemma AllButParts(p: Prep, e: nat)
    requires AllBut(p, e)
    ensures Linked(p) && e < |p.entries| && 1 <= p.max
  {
  }

  lemma OneKey(p: Prep, e: nat, i: nat)
    requires AllBut(p, e) && i < |p.lru|
    ensures forall k :: 0 <= k < |p.lru| && k != i ==> p.lru[k].key != p.lru[i].key
  {
    hide Counted, Released, Sent, InLru;
  }

  /** A statement just prepared, not yet in the cache. */
  lemma NewEntry(p: Prep)
    requires Inv(p)
    ensures var q := p.(entries := p.entries + [Entry(0, true, false)]);
            AllBut(q, |p.entries|) && !InLru(q.lru, |p.entries|)
  {
    hide OpenOn, Sent;
    var e := |p.entries|;
    var q := p.(entries := p.entries + [Entry(0, true, false)]);
    NoneOpen(p.handles, e);
    SentKept(p, q);
    NewNotIn(p);
    NewCached(p);
  }

  lemma NewNotIn(p: Prep)
    requires Linked(p)
    ensures !InLru(p.lru, |p.entries|)
  {
  }

  lemma NewCached(p: Prep)
    requires Cached(p) && !InLru(p.lru, |p.entries|)
    ensures CachedBut(p.(entries := p.entries + [Entry(0, true, false)]), |p.entries|)
  {
    hide InLru;
    var q := p.(entries := p.entries + [Entry(0, false, false)]);
    assert p.(entries := p.entries + [Entry(0, true, false)]).entries[|p.entries| := Entry(0, false, false)] == q.entries;
  }

  lemma {:induction false} NoneOpen(handles: seq<Handle>, e: nat)
    requires forall h :: 0 <= h < |handles| ==> handles[h].entry < e
    ensures OpenOn(handles, e) == 0
    decreases |handles|
  {
    if handles != [] {
      NoneOpen(handles[..|handles| - 1], e);
    }
  }

  lemma PreparedKeeps(p: Prep, key: string)
    requires Inv(p)
    ensures Inv(Prepared(p, key))
  {
    hide Inv, AllBut, InLru, Set, IncrementUse;
    InvLinked(p);
    NewEntry(p);
    var q := p.(entries := p.entries + [Entry(0, true, false)]);
    AllButParts(q, |p.entries|);
    SetKeeps(q, key, |p.entries|);
    IncrementKeeps(Set(q, key, |p.entries|), |p.entries|);
  }

  // ---------- handles ----------

  lemma HandleCounts(p: Prep, h: nat, q: Prep)
    requires Counted(p) && Linked(p) && h < |p.handles| && !p.handles[h].closed
    requires q.handles == p.handles[h := p.handles[h].(closed := true)] && |q.entries| == |p.entries|
    requires var e := p.handles[h].entry;
             forall x :: 0 <= x < |p.entries| ==> q.entries[x].use == p.entries[x].use - (if x == e then 1 else 0)
    ensures Counted(q)
  {
    hide OpenOn;
    forall x | 0 <= x < |q.entries|
      ensures q.entries[x].use == OpenOn(q.handles, x)
    {
      OpenUpdate(p.handles, h, x);
    }
  }

  lemma {:induction false} OpenPositive(handles: seq<Handle>, h: nat)
    requires h < |handles| && !handles[h].closed
    ensures OpenOn(handles, handles[h].entry) > 0
    decreases |handles|
  {
    if h < |handles| - 1 {
      OpenPositive(handles[..|handles| - 1], h);
    }
  }

  lemma CloseHandleKeeps(p: Prep, h: nat)
    requires Inv(p) && h < |p.handles|
    ensures Inv(CloseHandle(p, h))
  {
    hide Sent, Cached, Counted, OpenOn, Close;
    if !p.handles[h].closed {
      var e := p.handles[h].entry;
      StillOpen(p, h);
      var q := p.(handles := p.handles[h := p.handles[h].(closed := true)],
                  entries := p.entries[e := p.entries[e].(use := p.entries[e].use - 1)]);
      HandleCounts(p, h, q);
      SentKept(p, q);
      CachedKept(p, q);
      LastUse(q, e);
    }
  }

  /** An entry with an open handle is not closed. */
  lemma StillOpen(p: Prep, h: nat)
    requires Inv(p) && h < |p.handles| && !p.handles[h].closed
    ensures p.entries[p.handles[h].entry].use > 0 && !p.entries[p.handles[h].entry].closed
  {
    hide Sent, Cached, OpenOn;
    OpenPositive(p.handles, h);
  }

  /** The last handle of an uncached entry closes its statement. */
  lemma LastUse(q: Prep, e: nat)
    requires Linked(q) && Counted(q) && Cached(q) && Sent(q) && e < |q.entries| && !q.entries[e].closed
    requires forall x :: 0 <= x < |q.entries| && x != e ==>
               (q.entries[x].closed <==> !q.entries[x].cached && q.entries[x].use == 0)
    ensures Inv(if q.entries[e].use == 0 && !q.entries[e].cached then Close(q, e) else q)
  {
    hide Sent, Cached, Counted;
    if q.entries[e].use == 0 && !q.entries[e].cached {
      var r := Close(q, e);
      CloseSent(q, e);
      CachedKept(q, r);
      CountedKept(q, r);
    }
  }

  // ---------- clearing ----------

  lemma UnCacheLru(p: Prep, e: nat, lru: seq<Slot>)
    requires e < |p.entries|
    ensures UnCache(p, e).(lru := lru) == UnCache(p.(lru := lru), e)
  {
  }

  /** Dropping the first slot leaves its entry to be taken out. */
  lemma DropKeeps(p: Prep)
    requires Inv(p) && p.lru != []
    ensures AllBut(p.(lru := p.lru[1..]), p.lru[0].entry)
  {
    hide Counted, Released, Sent, InLru;
    var q := p.(lru := p.lru[1..]);
    forall x | 0 <= x < |p.entries|
      ensures (x != p.lru[0].entry && p.entries[x].cached) <==> InLru(q.lru, x)
    {
      DroppedIn(p.lru, x);
    }
    SameParts(p, q);
  }

  lemma DroppedIn(lru: seq<Slot>, x: nat)
    requires lru != [] && Distinct(lru)
    ensures InLru(lru[1..], x) <==> InLru(lru, x) && x != lru[0].entry
  {
    if InLru(lru, x) && x != lru[0].entry {
      var k :| 0 <= k < |lru| && lru[k].entry == x;
      assert lru[1..][k - 1] == lru[k];
    }
    if InLru(lru[1..], x) {
      var k :| 0 <= k < |lru| - 1 && lru[1..][k].entry == x;
      assert lru[k + 1].entry == x;
    }
  }

  lemma {:induction false} ClearKeeps(p: Prep, slots: seq<Slot>)
    requires Inv(p.(lru := slots))
    ensures forall i :: 0 <= i < |slots| ==> slots[i].entry < |p.entries|
    ensures Inv(UnCacheAll(p, slots).(lru := []))
    decreases |slots|
  {
    hide Inv, UnCache, AllBut;
    InvLinked(p.(lru := slots));
    if slots != [] {
      var e := slots[0].entry;
      DropKeeps(p.(lru := slots));
      UnCacheKeeps(p.(lru := slots[1..]), e);
      UnCacheLru(p, e, slots[1..]);
      ClearKeeps(UnCache(p, e), slots[1..]);
    }
  }

  lemma ResetKeeps(p: Prep)
    requires Inv(p)
    ensures Linked(p) && Inv(Reset(p)) && Reset(p).lru == []
  {
    hide Inv, UnCacheAll;
    InvLinked(p);
    assert p.(lru := p.lru) == p;
    ClearKeeps(p, p.lru);
  }

  // ---------- runs ----------

  lemma StepKeeps(p: Prep, ev: Event)
    requires Inv(p)
    ensures Linked(p) && Inv(Step(p, ev))
  {
    hide Inv, Get, Prepared, CloseHandle, Reset;
    InvLinked(p);
    match ev {
      case EvGet(key) => GetKeeps(p, key);
      case EvPrepared(key) => PreparedKeeps(p, key);
      case EvClose(h) => if h < |p.handles| { CloseHandleKeeps(p, h); }
      case EvReset => ResetKeeps(p);
    }
  }

  /** The state after any events, from an empty cache. */
  function Run(max: nat, events: seq<Event>): (p: Prep)
    requires max >= 1
    ensures Inv(p)
    decreases |events|
  {
    if events == [] then
      Start(max)
    else
      var q := Run(max, events[..|events| - 1]);
      StepKeeps(q, events[|events| - 1]);
      Step(q, events[|events| - 1])
  }

  // ---------- how many statements are open ----------

  function OpenStatements(p: Prep): set<nat> { set e | 0 <= e < |p.entries| && !p.entries[e].closed }

  function SlotEntries(lru: seq<Slot>): (s: set<nat>)
    ensures |s| <= |lru| && forall i :: 0 <= i < |lru| ==> lru[i].entry in s
    decreases |lru|
  {
    if lru == [] then {} else SlotEntries(lru[..|lru| - 1]) + {lru[|lru| - 1].entry}
  }

  function HandleEntries(handles: seq<Handle>): (s: set<nat>)
    ensures |s| <= Open(handles)
    ensures forall e :: OpenOn(handles, e) > 0 ==> e in s
    decreases |handles|
  {
    if handles == [] then {}
    else
      var more := HandleEntries(handles[..|handles| - 1]);
      if handles[|handles| - 1].closed then more else more + {handles[|handles| - 1].entry}
  }

  lemma OpenIsHeld(p: Prep, e: nat)
    requires Inv(p) && e < |p.entries| && !p.entries[e].closed
    ensures e in SlotEntries(p.lru) + HandleEntries(p.handles)
  {
    hide Sent, OpenOn, Linked;
    if !p.entries[e].cached {
      assert OpenOn(p.handles, e) > 0;
    }
  }

  lemma SmallerSet(a: set<nat>, b: set<nat>)
    requires a <= b
    ensures |a| <= |b|
    decreases |a|
  {
    if a != {} {
      var x :| x in a;
      SmallerSet(a - {x}, b - {x});
    }
  }

  /** Open server statements never outnumber the cache slots in use and the open handles. */
  lemma OpenBound(p: Prep)
    requires Inv(p)
    ensures |OpenStatements(p)| <= |p.lru| + Open(p.handles)
  {
    hide Inv, Open;
    var held := SlotEntries(p.lru) + HandleEntries(p.handles);
    forall e | e in OpenStatements(p)
      ensures e in held
    {
      OpenIsHeld(p, e);
    }
    SmallerSet(OpenStatements(p), held);
  }

  /** Every run: the count of an entry is its open handles, a statement is closed exactly when it is
      out of the cache with no open handle, every close is sent once, and what stays open is held by
      a slot or a handle. */
  lemma EveryRun(max: nat, events: seq<Event>)
    requires max >= 1
    ensures var p := Run(max, events);
            && (forall e :: 0 <= e < |p.entries| ==> p.entries[e].use == OpenOn(p.handles, e))
            && (forall e :: 0 <= e < |p.entries| ==>
                  (p.entries[e].closed <==> !InLru(p.lru, e) && OpenOn(p.handles, e) == 0))
            && (forall e :: 0 <= e < |p.entries| ==> (p.entries[e].closed <==> e in p.closes))
            && (forall j, k :: 0 <= j < k < |p.closes| ==> p.closes[j] != p.closes[k])
            && |p.lru| <= p.max
            && |OpenStatements(p)| <= |p.lru| + Open(p.handles)
  {
    hide Run, OpenOn, Open, InLru, OpenStatements;
    OpenBound(Run(max, events));
  }

  lemma UnCacheGrows(p: Prep, e: nat)
    requires e < |p.entries|
    ensures p.closes <= UnCache(p, e).closes
  {
  }

  lemma {:induction false} AllGrow(p: Prep, slots: seq<Slot>)
    requires forall i :: 0 <= i < |slots| ==> slots[i].entry < |p.entries|
    ensures p.closes <= UnCacheAll(p, slots).closes
    decreases |slots|
  {
    if slots != [] {
      UnCacheGrows(p, slots[0].entry);
      AllGrow(UnCache(p, slots[0].entry), slots[1..]);
    }
  }

  /** A close once sent is never taken back. */
  lemma StepGrows(p: Prep, ev: Event)
    requires Linked(p)
    ensures p.closes <= Step(p, ev).closes
  {
    if ev.EvReset? {
      AllGrow(p, p.lru);
    }
  }
}
