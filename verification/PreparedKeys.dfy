/** Which statement a key leads to, and which keys the cache holds, after any run. */
module PreparedKeys {
  import opened Bytes
  import opened PreparedModel
  import opened PreparedProofs

  // ---------- keys and statements ----------

  /** The keys under which statements were prepared, in the order of the statements. */
  function Keys(events: seq<Event>): seq<string>
    decreases |events|
  {
    if events == [] then []
    else
      var k := |events| - 1;
      Keys(events[..k]) + if events[k].EvPrepared? then [events[k].key] else []
  }

  /** The statement `e` is the one last prepared under `key`. */
  predicate LastUnder(keys: seq<string>, key: string, e: nat) {
    e < |keys| && keys[e] == key && forall x :: e < x < |keys| ==> keys[x] != key
  }

  /** Every slot of the cache leads to the statement last prepared under its key. */
  predicate Right(p: Prep, keys: seq<string>) {
    |p.entries| == |keys| && forall i :: 0 <= i < |p.lru| ==> LastUnder(keys, p.lru[i].key, p.lru[i].entry)
  }

  lemma UnCacheSame(p: Prep, e: nat)
    requires e < |p.entries|
    ensures UnCache(p, e).lru == p.lru && |UnCache(p, e).entries| == |p.entries|
    ensures UnCache(p, e).handles == p.handles
  {
  }

  lemma {:induction false} UnCacheAllSame(p: Prep, slots: seq<Slot>)
    requires forall i :: 0 <= i < |slots| ==> slots[i].entry < |p.entries|
    ensures |UnCacheAll(p, slots).entries| == |p.entries|
    decreases |slots|
  {
    hide UnCache;
    if slots != [] {
      UnCacheSame(p, slots[0].entry);
      UnCacheAllSame(UnCache(p, slots[0].entry), slots[1..]);
    }
  }

  lemma SetSlots(p: Prep, key: string, e: nat)
    requires Linked(p) && e < |p.entries|
    ensures var q := Set(p, key, e);
            && |q.entries| == |p.entries| && q.handles == p.handles
            && q.lru == (match Find(p.lru, key)
                         case Some(i) => Without(p.lru, i)
                         case None => if |p.lru| >= p.max && p.lru != [] then p.lru[1..] else p.lru) + [Slot(key, e)]
  {
    hide UnCache, Find;
    match Find(p.lru, key)
    case Some(i) => UnCacheSame(p.(lru := Without(p.lru, i) + [Slot(key, e)]), p.lru[i].entry);
    case None =>
      if |p.lru| >= p.max && p.lru != [] {
        UnCacheSame(p.(lru := p.lru[1..] + [Slot(key, e)]), p.lru[0].entry);
      }
  }

  /** What each event does to the slots. */
  lemma StepSlots(p: Prep, ev: Event)
    requires Linked(p)
    ensures var q := Step(p, ev);
            |q.entries| == |p.entries| + (if ev.EvPrepared? then 1 else 0) && q.max == p.max
    ensures var q := Step(p, ev);
            match ev
            case EvGet(key) =>
              (match Find(p.lru, key)
               case None => q.lru == p.lru
               case Some(i) => q.lru == Without(p.lru, i) + [p.lru[i]])
            case EvPrepared(key) =>
              q.lru == (match Find(p.lru, key)
                        case Some(i) => Without(p.lru, i)
                        case None => if |p.lru| >= p.max && p.lru != [] then p.lru[1..] else p.lru)
                       + [Slot(key, |p.entries|)]
            case EvClose(h) => q.lru == p.lru
            case EvReset => q.lru == []
  {
    hide Set, Find, UnCacheAll;
    match ev {
      case EvPrepared(key) => SetSlots(p.(entries := p.entries + [Entry(0, true, false)]), key, |p.entries|);
      case EvReset => UnCacheAllSame(p, p.lru);
      case _ =>
    }
    StepMax(p, ev);
  }

  lemma StepMax(p: Prep, ev: Event)
    requires Linked(p)
    ensures Step(p, ev).max == p.max
  {
    if ev.EvReset? {
      AllMax(p, p.lru);
    }
  }

  lemma {:induction false} AllMax(p: Prep, slots: seq<Slot>)
    requires forall i :: 0 <= i < |slots| ==> slots[i].entry < |p.entries|
    ensures UnCacheAll(p, slots).max == p.max
    decreases |slots|
  {
    if slots != [] {
      AllMax(UnCache(p, slots[0].entry), slots[1..]);
    }
  }

  /** A slot of the new cache is one of the old, or the new one at the end. */
  predicate From(q: seq<Slot>, lru: seq<Slot>, s: Slot) {
    q != [] && q[|q| - 1] == s && forall j :: 0 <= j < |q| - 1 ==> q[j] in lru && q[j].key != s.key
  }

  lemma MovedFrom(lru: seq<Slot>, i: nat, s: Slot)
    requires Distinct(lru) && i < |lru| && lru[i].key == s.key
    ensures From(Without(lru, i) + [s], lru, s)
  {
    var q := Without(lru, i) + [s];
    forall j | 0 <= j < |q| - 1
      ensures q[j] in lru && q[j].key != s.key
    {
      assert q[j] == lru[if j < i then j else j + 1];
    }
  }

  lemma AddedFrom(lru: seq<Slot>, max: nat, s: Slot)
    requires forall i :: 0 <= i < |lru| ==> lru[i].key != s.key
    ensures From((if |lru| >= max && lru != [] then lru[1..] else lru) + [s], lru, s)
  {
  }

  lemma RightFrom(p: Prep, q: Prep, keys: seq<string>, more: seq<string>, s: Slot)
    requires Right(p, keys) && From(q.lru, p.lru, s) && |q.entries| == |keys + more|
    requires forall x :: 0 <= x < |more| ==> more[x] == s.key
    requires LastUnder(keys + more, s.key, s.entry)
    ensures Right(q, keys + more)
  {
    forall i | 0 <= i < |q.lru|
      ensures LastUnder(keys + more, q.lru[i].key, q.lru[i].entry)
    {
      if i < |q.lru| - 1 {
        var k :| 0 <= k < |p.lru| && p.lru[k] == q.lru[i];
        assert LastUnder(keys, p.lru[k].key, p.lru[k].entry);
      }
    }
  }

  lemma NewestLast(keys: seq<string>, key: string)
    ensures LastUnder(keys + [key], key, |keys|)
  {
  }

  lemma StepRight(p: Prep, ev: Event, keys: seq<string>)
    requires Inv(p) && Right(p, keys)
    ensures Right(Step(p, ev), keys + if ev.EvPrepared? then [ev.key] else [])
  {
    hide Counted, Released, Sent, Find, Step, LastUnder, Without, InLru;
    StepSlots(p, ev);
    assert keys + [] == keys;
    match ev {
      case EvGet(key) =>
        if Find(p.lru, key).Some? {
          var i := Find(p.lru, key).value;
          MovedFrom(p.lru, i, p.lru[i]);
          assert LastUnder(keys, p.lru[i].key, p.lru[i].entry);
          RightFrom(p, Step(p, ev), keys, [], p.lru[i]);
        }
      case EvPrepared(key) =>
        var s := Slot(key, |p.entries|);
        if Find(p.lru, key).Some? {
          MovedFrom(p.lru, Find(p.lru, key).value, s);
        } else {
          AddedFrom(p.lru, p.max, s);
        }
        NewestLast(keys, key);
        RightFrom(p, Step(p, ev), keys, [key], s);
      case _ =>
    }
  }

  lemma {:induction false} RunRight(max: nat, events: seq<Event>)
    requires max >= 1
    ensures Right(Run(max, events), Keys(events))
    decreases |events|
  {
    hide Right, Step, Inv;
    if events == [] {
      NothingCached(max);
    } else {
      var k := |events| - 1;
      RunRight(max, events[..k]);
      StepRight(Run(max, events[..k]), events[k], Keys(events[..k]));
    }
  }

  lemma NothingCached(max: nat)
    requires max >= 1
    ensures Right(Run(max, []), [])
  {
  }

  /** After every run: a `get` that finds its key hands out one more handle, on the statement last
      prepared under that key, which the server still has; and a statement just prepared gets the handle
      of its own key. */
  lemma HandleIsForKey(max: nat, events: seq<Event>, key: string)
    requires max >= 1
    ensures var p, q := Run(max, events), Run(max, events + [EvGet(key)]);
            Find(p.lru, key).Some? ==>
              && |q.handles| == |p.handles| + 1 && !q.handles[|p.handles|].closed
              && q.handles[|p.handles|].entry < |q.entries| && !q.entries[q.handles[|p.handles|].entry].closed
              && LastUnder(Keys(events), key, q.handles[|p.handles|].entry)
    ensures var p, q := Run(max, events), Run(max, events + [EvPrepared(key)]);
            && |q.handles| == |p.handles| + 1 && !q.handles[|p.handles|].closed
            && LastUnder(Keys(events + [EvPrepared(key)]), key, q.handles[|p.handles|].entry)
            && q.handles[|p.handles|].entry == |Keys(events)|
  {
    hide Run, LastUnder, Keys, Inv;
    var p := Run(max, events);
    RunStep(max, events, EvGet(key));
    RunStep(max, events, EvPrepared(key));
    RunRight(max, events);
    GetHandle(p, key, Keys(events));
    PreparedHandle(p, key);
    KeysStep(events, key);
  }

  lemma RunStep(max: nat, events: seq<Event>, ev: Event)
    requires max >= 1
    ensures Linked(Run(max, events)) && Run(max, events + [ev]) == Step(Run(max, events), ev)
  {
    hide Step;
    assert (events + [ev])[..|events|] == events;
  }

  lemma KeysStep(events: seq<Event>, key: string)
    ensures LastUnder(Keys(events + [EvPrepared(key)]), key, |Keys(events)|)
  {
    assert (events + [EvPrepared(key)])[..|events|] == events;
  }

  lemma GetHandle(p: Prep, key: string, keys: seq<string>)
    requires Inv(p) && Right(p, keys)
    ensures Linked(p)
    ensures var q := Step(p, EvGet(key));
            Find(p.lru, key).Some? ==>
              && |q.handles| == |p.handles| + 1 && !q.handles[|p.handles|].closed
              && q.handles[|p.handles|].entry < |q.entries| && !q.entries[q.handles[|p.handles|].entry].closed
              && LastUnder(keys, key, q.handles[|p.handles|].entry)
  {
    hide Counted, Sent, LastUnder, Without;
    if Find(p.lru, key).Some? {
      var i := Find(p.lru, key).value;
      assert InLru(p.lru, p.lru[i].entry);
      assert LastUnder(keys, p.lru[i].key, p.lru[i].entry);
    }
  }

  lemma PreparedHandle(p: Prep, key: string)
    requires Linked(p)
    ensures var q := Step(p, EvPrepared(key));
            && |q.handles| == |p.handles| + 1 && !q.handles[|p.handles|].closed
            && q.handles[|p.handles|].entry == |p.entries|
  {
    hide Set;
    SetSlots(p.(entries := p.entries + [Entry(0, true, false)]), key, |p.entries|);
  }

  // ---------- databases and texts ----------

  /** The key of a text prepared under a database. */
  function Key(database: string, sql: string): string { database + "|" + sql }

  /** Two statements share a key only if they are the same, as long as no database has a bar in its name. */
  lemma KeyTells(d: string, s: string, d': string, s': string)
    requires '|' !in d && '|' !in d'
    ensures Key(d, s) == Key(d', s') <==> d == d' && s == s'
  {
    var k, k' := Key(d, s), Key(d', s');
    if k == k' {
      assert k[|d|] == '|' && k'[|d'|] == '|';
      assert forall i :: 0 <= i < |d| ==> k[i] == d[i] && d[i] in d;
      assert forall i :: 0 <= i < |d'| ==> k'[i] == d'[i] && d'[i] in d';
      assert k[..|d|] == d && k'[..|d'|] == d' && k[|d| + 1..] == s && k'[|d'| + 1..] == s';
    }
  }

  /** With a bar, every text under that database shares its key with another text under another one. */
  lemma KeyMixes(d: string, s: string) returns (d': string, s': string)
    requires '|' in d
    ensures d' != d && Key(d', s') == Key(d, s)
  {
    var i :| 0 <= i < |d| && d[i] == '|';
    d', s' := d[..i], d[i + 1..] + "|" + s;
    assert d == d' + "|" + d[i + 1..];
  }

  // ---------- least recently used ----------

  /** An event uses a key when it prepares it, or finds it in the cache. */
  predicate Uses(max: nat, before: seq<Event>, ev: Event, key: string)
    requires max >= 1
  {
    ev == EvPrepared(key) || (ev == EvGet(key) && Find(Run(max, before).lru, key).Some?)
  }

  /** When a key was last used since the last reset, counted from 1; 0 if it was not. */
  function LastUse(max: nat, events: seq<Event>, key: string): (n: nat)
    requires max >= 1
    ensures n <= |events|
    decreases |events|
  {
    if events == [] then 0
    else
      var k := |events| - 1;
      if events[k].EvReset? then 0
      else if Uses(max, events[..k], events[k], key) then k + 1
      else LastUse(max, events[..k], key)
  }

  predicate HasKey(lru: seq<Slot>, key: string) { exists i :: 0 <= i < |lru| && lru[i].key == key }

  /** The slots stand in the order of their last use. */
  ghost predicate InOrder(lru: seq<Slot>, use: string -> nat) {
    && (forall i :: 0 <= i < |lru| ==> use(lru[i].key) > 0)
    && (forall i, j :: 0 <= i < j < |lru| ==> use(lru[i].key) < use(lru[j].key))
  }

  /** A key that was used but is not in the cache was used before all that are, of which there are then as
      many as there may be. */
  ghost predicate OldOutside(lru: seq<Slot>, max: nat, use: string -> nat) {
    forall key :: use(key) > 0 && !HasKey(lru, key) ==> |lru| == max && lru != [] && use(key) < use(lru[0].key)
  }

  ghost predicate Recent(p: Prep, use: string -> nat) { InOrder(p.lru, use) && OldOutside(p.lru, p.max, use) }

  lemma FindIs(lru: seq<Slot>, key: string)
    ensures Find(lru, key).Some? <==> HasKey(lru, key)
  {
  }

  /** The uses after the key of `s` was used at time `t`. */
  ghost predicate UsedAt(use: string -> nat, use': string -> nat, key: string, t: nat) {
    use'(key) == t && (forall k :: use(k) < t) && forall k :: k != key ==> use'(k) == use(k)
  }

  /** Some of the slots with other keys, and behind them the one used now. */
  lemma AppendedInOrder(lru: seq<Slot>, use: string -> nat, use': string -> nat, s: Slot, t: nat)
    requires InOrder(lru, use) && UsedAt(use, use', s.key, t) && t > 0
    requires forall i :: 0 <= i < |lru| ==> lru[i].key != s.key
    ensures InOrder(lru + [s], use')
  {
    var q := lru + [s];
    forall i, j | 0 <= i < j < |q|
      ensures use'(q[i].key) < use'(q[j].key)
    {
      assert q[i] == lru[i];
    }
  }

  lemma WithoutIs(lru: seq<Slot>, i: nat)
    requires i < |lru|
    ensures |Without(lru, i)| == |lru| - 1
    ensures forall j :: 0 <= j < |lru| - 1 ==> Without(lru, i)[j] == lru[if j < i then j else j + 1]
  {
  }

  lemma WithoutInOrder(lru: seq<Slot>, use: string -> nat, i: nat)
    requires InOrder(lru, use) && i < |lru|
    ensures InOrder(Without(lru, i), use)
    ensures forall j :: 0 <= j < |lru| - 1 ==> Without(lru, i)[j].key != lru[i].key
  {
    hide Without;
    WithoutIs(lru, i);
  }

  lemma SameKeys(lru: seq<Slot>, i: nat, s: Slot, key: string)
    requires i < |lru| && s.key == lru[i].key
    ensures HasKey(Without(lru, i) + [s], key) <==> HasKey(lru, key)
  {
    hide Without;
    WithoutIs(lru, i);
    var q := Without(lru, i) + [s];
    assert q[|lru| - 1] == s;
    if HasKey(lru, key) {
      var j :| 0 <= j < |lru| && lru[j].key == key;
      assert q[if j == i then |lru| - 1 else if j < i then j else j - 1].key == key;
    }
    if HasKey(q, key) {
      var j :| 0 <= j < |q| && q[j].key == key;
      assert lru[if j == |lru| - 1 then i else if j < i then j else j + 1].key == key;
    }
  }

  lemma KeyAt(lru: seq<Slot>, i: nat)
    requires i < |lru|
    ensures HasKey(lru, lru[i].key)
  {
  }

  lemma TailInOrder(lru: seq<Slot>, use: string -> nat)
    requires InOrder(lru, use)
    ensures lru != [] ==> InOrder(lru[1..], use)
  {
  }

  /** A slot that was used, or whose key got another statement, moves to the end. */
  lemma RecentMoved(p: Prep, q: Prep, use: string -> nat, use': string -> nat, i: nat, s: Slot, t: nat)
    requires Recent(p, use) && i < |p.lru| && s.key == p.lru[i].key && UsedAt(use, use', s.key, t) && t > 0
    requires q.max == p.max && q.lru == Without(p.lru, i) + [s]
    ensures Recent(q, use')
  {
    hide HasKey, InOrder, OldOutside, Without;
    WithoutInOrder(p.lru, use, i);
    WithoutIs(p.lru, i);
    AppendedInOrder(Without(p.lru, i), use, use', s, t);
    forall key
      ensures HasKey(q.lru, key) <==> HasKey(p.lru, key)
    {
      SameKeys(p.lru, i, s, key);
    }
    KeyAt(p.lru, i);
    FirstIsLater(p, q, use, use', i, s, t);
    OutsideKept(p, q, use, use', s, t);
  }

  lemma FirstIsLater(p: Prep, q: Prep, use: string -> nat, use': string -> nat, i: nat, s: Slot, t: nat)
    requires InOrder(p.lru, use) && i < |p.lru| && s.key == p.lru[i].key && UsedAt(use, use', s.key, t)
    requires q.lru == Without(p.lru, i) + [s]
    ensures |q.lru| == |p.lru| && use'(q.lru[0].key) >= use(p.lru[0].key)
  {
    hide Without;
    WithoutIs(p.lru, i);
    if |p.lru| > 1 {
      assert q.lru[0] == Without(p.lru, i)[0];
    }
  }

  lemma OutsideKept(p: Prep, q: Prep, use: string -> nat, use': string -> nat, s: Slot, t: nat)
    requires OldOutside(p.lru, p.max, use) && UsedAt(use, use', s.key, t) && HasKey(p.lru, s.key)
    requires forall key :: HasKey(q.lru, key) <==> HasKey(p.lru, key)
    requires p.lru != [] && |q.lru| == |p.lru| && use'(q.lru[0].key) >= use(p.lru[0].key)
    ensures OldOutside(q.lru, p.max, use')
  {
    hide HasKey;
  }

  /** A new key takes the place of the least recently used one when the cache is full. */
  lemma RecentAdded(p: Prep, q: Prep, use: string -> nat, use': string -> nat, s: Slot, t: nat)
    requires Recent(p, use) && UsedAt(use, use', s.key, t) && t > 0
    requires |p.lru| <= p.max && 1 <= p.max && !HasKey(p.lru, s.key) && q.max == p.max
    requires q.lru == (if |p.lru| >= p.max && p.lru != [] then p.lru[1..] else p.lru) + [s]
    ensures Recent(q, use')
  {
    hide InOrder, OldOutside;
    var rest := if |p.lru| >= p.max && p.lru != [] then p.lru[1..] else p.lru;
    TailInOrder(p.lru, use);
    AppendedInOrder(rest, use, use', s, t);
    if |p.lru| >= p.max && p.lru != [] {
      OutsideShifted(p.lru, p.max, use, use', s, t);
    } else {
      OutsideFilled(p.lru, p.max, use, use', s, t);
    }
  }

  lemma HasKeySnoc(lru: seq<Slot>, s: Slot, key: string)
    ensures HasKey(lru + [s], key) <==> HasKey(lru, key) || key == s.key
  {
    assert (lru + [s])[|lru|] == s;
    if HasKey(lru, key) {
      var j :| 0 <= j < |lru| && lru[j].key == key;
      assert (lru + [s])[j].key == key;
    }
  }

  lemma OutsideFilled(lru: seq<Slot>, max: nat, use: string -> nat, use': string -> nat, s: Slot, t: nat)
    requires OldOutside(lru, max, use) && UsedAt(use, use', s.key, t) && |lru| < max
    ensures OldOutside(lru + [s], max, use')
  {
    hide HasKey;
    forall key
      ensures HasKey(lru + [s], key) <==> HasKey(lru, key) || key == s.key
    {
      HasKeySnoc(lru, s, key);
    }
  }

  lemma OutsideShifted(lru: seq<Slot>, max: nat, use: string -> nat, use': string -> nat, s: Slot, t: nat)
    requires OldOutside(lru, max, use) && InOrder(lru, use) && UsedAt(use, use', s.key, t)
    requires lru != [] && |lru| == max && !HasKey(lru, s.key)
    ensures OldOutside(lru[1..] + [s], max, use')
  {
    var q := lru[1..] + [s];
    assert use'(q[0].key) > use(lru[0].key) by {
      if |lru| > 1 {
        assert q[0] == lru[1] && lru[1].key != s.key;
      }
    }
    forall key | use'(key) > 0 && !HasKey(q, key)
      ensures use'(key) < use'(q[0].key)
    {
      HasKeySnoc(lru[1..], s, key);
      KeyOfCons(lru, key);
    }
  }

  lemma KeyOfCons(lru: seq<Slot>, key: string)
    requires lru != []
    ensures HasKey(lru, key) <==> lru[0].key == key || HasKey(lru[1..], key)
  {
    if HasKey(lru, key) && lru[0].key != key {
      var j :| 0 <= j < |lru| && lru[j].key == key;
      assert lru[1..][j - 1].key == key;
    }
    if HasKey(lru[1..], key) {
      var j :| 0 <= j < |lru| - 1 && lru[1..][j].key == key;
      assert lru[j + 1].key == key;
    }
  }

  lemma StepRecent(p: Prep, ev: Event, use: string -> nat, use': string -> nat, t: nat)
    requires Inv(p) && Recent(p, use) && t > 0 && forall k :: use(k) < t
    requires forall k :: use'(k) == if ev.EvReset? then 0
                                    else if ev == EvPrepared(k) || (ev == EvGet(k) && Find(p.lru, k).Some?) then t
                                    else use(k)
    ensures Linked(p) && Recent(Step(p, ev), use')
  {
    hide Counted, Released, Sent, Find, Step, Without, InLru, HasKey, InOrder, OldOutside;
    StepSlots(p, ev);
    match ev {
      case EvGet(key) =>
        if Find(p.lru, key).Some? {
          var i := Find(p.lru, key).value;
          RecentMoved(p, Step(p, ev), use, use', i, p.lru[i], t);
        } else {
          SameUse(p, Step(p, ev), use, use');
        }
      case EvPrepared(key) =>
        var s := Slot(key, |p.entries|);
        if Find(p.lru, key).Some? {
          RecentMoved(p, Step(p, ev), use, use', Find(p.lru, key).value, s, t);
        } else {
          FindIs(p.lru, key);
          RecentAdded(p, Step(p, ev), use, use', s, t);
        }
      case EvClose(h) => SameUse(p, Step(p, ev), use, use');
      case EvReset => NoUse(Step(p, ev), use');
    }
  }

  lemma SameUse(p: Prep, q: Prep, use: string -> nat, use': string -> nat)
    requires Recent(p, use) && q.lru == p.lru && q.max == p.max && forall k :: use'(k) == use(k)
    ensures Recent(q, use')
  {
  }

  lemma NoUse(q: Prep, use': string -> nat)
    requires q.lru == [] && forall k :: use'(k) == 0
    ensures Recent(q, use')
  {
  }

  /** After every run the cache holds the keys used most recently: its slots are ordered by their last
      use, and a key used since the last reset that is not in it was used before all that are. */
  lemma {:induction false} LeastRecentlyUsed(max: nat, events: seq<Event>)
    requires max >= 1
    ensures Recent(Run(max, events), key => LastUse(max, events, key))
    decreases |events|
  {
    if events == [] {
    } else {
      hide Inv, Step, Recent, Find;
      var k := |events| - 1;
      LeastRecentlyUsed(max, events[..k]);
      StepRecent(Run(max, events[..k]), events[k], key => LastUse(max, events[..k], key),
                 key => LastUse(max, events, key), k + 1);
    }
  }
}
