/** That the cache is an LRU: recency read off the run, against time stamps instead of an order. */
module Recency {
  import opened Options
  import opened ResponseCaches
  import opened CacheRuns

  function Length(run: Run): nat {
    if run.Begin? then 0 else Length(run.before) + 1
  }

  /** The number of the last step that stored or read `key`, or 0. */
  function LastUse(run: Run, key: string): nat {
    match run
    case Begin => 0
    case Then(before, step) =>
      if (step.Put? || step.Read?) && step.key == key then Length(run) else LastUse(before, key)
  }

  lemma {:induction false} LastUseIsPast(run: Run, key: string)
    ensures LastUse(run, key) <= Length(run)
  {
    if run.Then? { LastUseIsPast(run.before, key); }
  }

  /** Each slot was used earlier than the slots after it. */
  ghost predicate OldestFirst(run: Run, items: seq<Slot>) {
    forall i, j :: 0 <= i < j < |items| ==> LastUse(run, items[i].key) < LastUse(run, items[j].key)
  }

  lemma OldestFirstIsDistinct(run: Run, items: seq<Slot>)
    requires OldestFirst(run, items)
    ensures Distinct(items)
  {
    forall i, j | 0 <= i < j < |items| ensures items[i].key != items[j].key {
      assert LastUse(run, items[i].key) < LastUse(run, items[j].key);
    }
  }

  lemma OrderOfRest(run: Run, items: seq<Slot>)
    requires OldestFirst(run, items) && items != []
    ensures OldestFirst(run, items[1..])
    ensures forall s :: s in items[1..] ==> LastUse(run, items[0].key) < LastUse(run, s.key)
  {
    forall s | s in items[1..] ensures LastUse(run, items[0].key) < LastUse(run, s.key) {
      var k :| 0 <= k < |items[1..]| && items[1..][k] == s;
      assert items[k + 1] == s;
    }
  }

  lemma FrontKeepsOrder(run: Run, first: Slot, rest: seq<Slot>)
    requires OldestFirst(run, rest) && forall s :: s in rest ==> LastUse(run, first.key) < LastUse(run, s.key)
    ensures OldestFirst(run, [first] + rest)
  {
  }

  /** The slots without one key keep their order. */
  lemma {:induction false} WithoutKeepsOrder(run: Run, items: seq<Slot>, key: string)
    requires OldestFirst(run, items)
    ensures OldestFirst(run, Without(items, key))
  {
    hide OldestFirst, LastUse;
    if items == [] {
      NothingIsOrdered(run);
    } else {
      OrderOfRest(run, items);
      WithoutKeepsOrder(run, items[1..], key);
      FrontIfOther(run, items, key);
    }
  }

  lemma FrontIfOther(run: Run, items: seq<Slot>, key: string)
    requires items != [] && OldestFirst(run, Without(items[1..], key))
    requires forall s :: s in items[1..] ==> LastUse(run, items[0].key) < LastUse(run, s.key)
    ensures OldestFirst(run, Without(items, key))
  {
    hide OldestFirst, LastUse;
    if items[0].key != key { FrontKeepsOrder(run, items[0], Without(items[1..], key)); }
  }

  /** Adding a key at the recent end at the step that uses it. */
  lemma ExtendedKeepsOrder(run: Run, items: seq<Slot>, key: string, e: Entry)
    requires run.Then? && (run.step.Put? || run.step.Read?) && run.step.key == key
    requires OldestFirst(run.before, items)
    ensures OldestFirst(run, Extended(items, key, e))
  {
    WithoutKeepsOrder(run.before, items, key);
    var kept := Without(items, key);
    var all := Extended(items, key, e);
    forall i, j | 0 <= i < j < |all| ensures LastUse(run, all[i].key) < LastUse(run, all[j].key) {
      assert kept[i] in kept;
      LastUseIsPast(run.before, all[i].key);
      if j < |kept| { assert kept[j] in kept; }
    }
  }

  lemma {:induction false} EvictIsSuffix(items: seq<Slot>, current: int, max: int, key: string) returns (n: nat)
    ensures n <= |items| && Evict(items, current, max, key).items == items[n..]
  {
    if current <= max || items == [] {
      n := 0;
    } else if items[0].key == key {
      n := 1;
    } else {
      var m := EvictIsSuffix(items[1..], current - items[0].entry.size, max, key);
      n := m + 1;
      assert items[1..][m..] == items[n..];
    }
  }

  lemma SuffixKeepsOrder(run: Run, items: seq<Slot>, n: nat)
    requires n <= |items| && OldestFirst(run, items)
    ensures OldestFirst(run, items[n..])
  {
  }

  lemma OtherStepsKeepOrder(run: Run, items: seq<Slot>)
    requires run.Then? && OldestFirst(run.before, items)
    requires run.step.Put? || run.step.Read? ==> Find(items, run.step.key).None?
    ensures OldestFirst(run, items)
  {
    forall i | 0 <= i < |items| ensures LastUse(run, items[i].key) == LastUse(run.before, items[i].key) {
      assert items[i] in items;
    }
  }

  lemma PutKeepsOrder(lim: Limits, run: Run, c: State)
    requires run.Then? && run.step.Put? && OldestFirst(run.before, c.items)
    ensures OldestFirst(run, Stored(lim.capacity, lim.max, c, run.step.key, run.step.entry).items)
  {
    hide OldestFirst, Extended, Evict, SizeAt;
    var key, e := run.step.key, run.step.entry;
    ExtendedKeepsOrder(run, c.items, key, e);
    var all := Extended(c.items, key, e);
    if |all| > lim.capacity { SuffixKeepsOrder(run, all, 1); }
    var added := Added(lim.capacity, c.items, key, e);
    var n := EvictIsSuffix(added, c.current - SizeAt(c.items, key) + e.size, lim.max, key);
    SuffixKeepsOrder(run, added, n);
  }

  lemma ReadKeepsOrder(run: Run, items: seq<Slot>)
    requires run.Then? && run.step.Read? && OldestFirst(run.before, items)
    ensures OldestFirst(run, Touched(items, run.step.key))
  {
    hide OldestFirst, Extended;
    var found := Find(items, run.step.key);
    if found.Some? {
      ExtendedKeepsOrder(run, items, run.step.key, found.value);
    } else {
      OtherStepsKeepOrder(run, items);
    }
  }

  lemma NothingIsOrdered(run: Run)
    ensures OldestFirst(run, [])
  {
  }

  /** On every run, with or without a byte budget, the slots are in the order of their last use: the
      oldest is the least recently used, and it is what every eviction takes. */
  lemma {:induction false} OldestIsLeastRecent(lim: Limits, run: Run)
    ensures OldestFirst(run, Exec(lim, run).items)
  {
    hide OldestFirst, Stored, Touched, Without, SizeAt;
    NothingIsOrdered(run);
    if run.Then? {
      OldestIsLeastRecent(lim, run.before);
      var c := Exec(lim, run.before);
      match run.step
      case Put(_, _) => PutKeepsOrder(lim, run, c);
      case Read(_) => ReadKeepsOrder(run, c.items);
      case Drop(key) =>
        WithoutKeepsOrder(run.before, c.items, key);
        OtherStepsKeepOrder(run, Without(c.items, key));
      case Clear =>
    }
  }

  // ----- Keys that are kept -----

  ghost function Keys(items: seq<Slot>): set<string> {
    set s | s in items :: s.key
  }

  lemma HeldIff(items: seq<Slot>, key: string)
    ensures key in Keys(items) <==> Find(items, key).Some?
  {
    var found := Find(items, key);
    if found.Some? { assert Slot(key, found.value) in items; }
  }

  lemma {:induction false} KeysCount(items: seq<Slot>)
    requires Distinct(items)
    ensures |Keys(items)| == |items|
  {
    if items != [] {
      var init, last := items[..|items| - 1], items[|items| - 1];
      KeysCount(init);
      assert items == init + [last];
      assert Keys(items) == Keys(init) + {last.key};
      assert last.key !in Keys(init);
    }
  }

  /** The keys other than `key` that were stored or read after step `since`. */
  ghost function UsedSince(run: Run, key: string, since: nat): set<string> {
    match run
    case Begin => {}
    case Then(before, step) =>
      UsedSince(before, key, since) +
      if (step.Put? || step.Read?) && step.key != key && Length(run) > since then {step.key} else {}
  }

  /** The keys used later than `key` are among those used since it was. */
  lemma {:induction false} LaterWereUsed(run: Run, key: string, other: string, since: nat)
    requires other != key && LastUse(run, other) > since
    ensures other in UsedSince(run, key, since)
  {
    if run.Then? && !((run.step.Put? || run.step.Read?) && run.step.key == other) {
      LaterWereUsed(run.before, key, other, since);
    }
  }

  lemma Smaller(a: set<string>, b: set<string>)
    requires a <= b
    ensures |a| <= |b|
  {
    var rest := b - a;
    assert b == a + rest;
  }

  /** The run goes on from `shorter` without removing `key`. */
  ghost predicate Keeping(longer: Run, shorter: Run, key: string) {
    longer == shorter ||
    (longer.Then? && Keeping(longer.before, shorter, key) && !longer.step.Clear?
     && !(longer.step.Drop? && longer.step.key == key))
  }

  lemma {:induction false} UsedSinceGrows(run: Run, key: string, since: nat)
    requires run.Then?
    ensures UsedSince(run.before, key, since) <= UsedSince(run, key, since)
  {
  }

  /** Adding loses only the first slot, and that only when the others fill the cache. */
  lemma AddedKeeps(capacity: nat, items: seq<Slot>, key: string, e: Entry, k: string)
    requires Distinct(items) && k in Keys(items) && capacity > 0 && |items| <= capacity
    ensures k in Keys(Added(capacity, items, key, e)) ||
            (|items| == capacity && items[0].key == k && key !in Keys(items))
  {
    var all := Extended(items, key, e);
    HeldIff(items, key);
    if Find(items, key).Some? {
      WithoutDistinct(items, key);
    } else {
      WithoutAbsent(items, key);
    }
    var s :| s in items && s.key == k;
    if k == key {
      assert all[|all| - 1] == Slot(key, e);
      assert |all| <= capacity;
    } else {
      assert s in Without(items, key) && s in all;
      if |all| > capacity { assert all == [all[0]] + all[1..]; }
    }
  }

  lemma {:induction false} CapacityHolds(lim: Limits, run: Run)
    requires lim.capacity > 0 && lim.max <= 0
    ensures |Exec(lim, run).items| <= lim.capacity
  {
    if run.Then? {
      CapacityHolds(lim, run.before);
      OldestIsLeastRecent(lim, run.before);
      var items := Exec(lim, run.before).items;
      OldestFirstIsDistinct(run.before, items);
      if run.step.Read? { WithoutDistinct(items, run.step.key); }
    }
  }

  /** Without a byte budget a key is still held as long as fewer than `capacity` other keys were stored
      or read since it was last used. */
  lemma {:induction false} RecentSurvives(lim: Limits, longer: Run, shorter: Run, key: string)
    requires lim.capacity > 0 && lim.max <= 0 && Keeping(longer, shorter, key)
    requires key in Keys(Exec(lim, shorter).items)
    requires |UsedSince(longer, key, LastUse(shorter, key))| < lim.capacity
    ensures key in Keys(Exec(lim, longer).items)
  {
    if longer != shorter {
      var since := LastUse(shorter, key);
      Smaller(UsedSince(longer.before, key, since), UsedSince(longer, key, since));
      RecentSurvives(lim, longer.before, shorter, key);
      OldestIsLeastRecent(lim, longer.before);
      CapacityHolds(lim, longer.before);
      LastUseGrows(longer.before, shorter, key);
      StepKeepsRecent(lim, longer, key, since);
    }
  }

  lemma {:induction false} LastUseGrows(longer: Run, shorter: Run, key: string)
    requires Keeping(longer, shorter, key)
    ensures LastUse(longer, key) >= LastUse(shorter, key) && Length(longer) >= Length(shorter)
  {
    if longer != shorter {
      LastUseGrows(longer.before, shorter, key);
      LastUseIsPast(longer.before, key);
    }
  }

  lemma StepKeepsRecent(lim: Limits, run: Run, key: string, since: nat)
    requires run.Then? && lim.capacity > 0 && lim.max <= 0
    requires !run.step.Clear? && !(run.step.Drop? && run.step.key == key)
    requires var items := Exec(lim, run.before).items;
             key in Keys(items) && OldestFirst(run.before, items) && |items| <= lim.capacity
    requires LastUse(run.before, key) >= since && |UsedSince(run, key, since)| < lim.capacity
    ensures key in Keys(Exec(lim, run).items)
  {
    var items := Exec(lim, run.before).items;
    OldestFirstIsDistinct(run.before, items);
    var s :| s in items && s.key == key;
    match run.step
    case Put(k, e) =>
      AddedKeeps(lim.capacity, items, k, e, key);
      if |items| == lim.capacity && items[0].key == key && k !in Keys(items) {
        LastUseIsPast(run.before, key);
        OthersWereUsed(run, items, k, since);
        assert false;
      }
    case Read(k) =>
      if Find(items, k).Some? && k != key { assert s in Without(items, k); }
    case Drop(k) => assert s in Without(items, k);
  }

  /** When the oldest of a full cache would go, `capacity` other keys have been used since. */
  lemma OthersWereUsed(run: Run, items: seq<Slot>, k: string, since: nat)
    requires run.Then? && run.step.Put? && run.step.key == k && k !in Keys(items) && items != []
    requires OldestFirst(run.before, items) && since <= LastUse(run.before, items[0].key) <= Length(run.before)
    ensures |UsedSince(run, items[0].key, since)| >= |items|
  {
    var key, rest := items[0].key, items[1..];
    OldestFirstIsDistinct(run.before, items);
    KeysCount(rest);
    forall o | o in Keys(rest) ensures o in UsedSince(run.before, key, since) {
      var s :| s in rest && s.key == o;
      var j :| 0 <= j < |rest| && rest[j] == s;
      assert items[j + 1] == s;
      LaterWereUsed(run.before, key, o, since);
    }
    assert items[0] in items && k != key;
    assert k !in Keys(rest) by { assert forall s :: s in rest ==> s in items; }
    Smaller(Keys(rest) + {k}, UsedSince(run, key, since));
  }

  // ----- Time stamps -----

  /** An LRU without an order: when each key was last used. */
  ghost function Stamps(capacity: nat, run: Run): map<string, nat> {
    match run
    case Begin => map[]
    case Then(before, step) =>
      var m := Stamps(capacity, before);
      match step
      case Put(key, _) =>
        var all := m[key := Length(run)];
        if |all| > capacity then all - {Earliest(all)} else all
      case Read(key) => if key in m then m[key := Length(run)] else m
      case Drop(key) => m - {key}
      case Clear => map[]
  }

  ghost predicate IsEarliest(m: map<string, nat>, key: string) {
    key in m && forall k :: k in m ==> m[key] <= m[k]
  }

  /** A key whose stamp is smallest. */
  ghost function Earliest(m: map<string, nat>): string {
    if key :| IsEarliest(m, key) then key else ""
  }

  ghost predicate StampsOf(run: Run, m: map<string, nat>, items: seq<Slot>) {
    m.Keys == Keys(items) && forall k :: k in m ==> m[k] == LastUse(run, k)
  }

  lemma EarliestIsFirst(run: Run, m: map<string, nat>, items: seq<Slot>)
    requires StampsOf(run, m, items) && OldestFirst(run, items) && items != []
    ensures Earliest(m) == items[0].key
  {
    var first := items[0].key;
    assert items[0] in items && first in m;
    forall k | k in m ensures m[first] <= m[k] && (k != first ==> m[first] < m[k]) {
      var s :| s in items && s.key == k;
      var j :| 0 <= j < |items| && items[j] == s;
    }
    assert IsEarliest(m, first);
  }

  /** Without a byte budget the cache holds exactly the keys that an LRU with time stamps holds. */
  lemma {:induction false} LruByStamps(lim: Limits, run: Run)
    requires lim.capacity > 0 && lim.max <= 0
    ensures StampsOf(run, Stamps(lim.capacity, run), Exec(lim, run).items)
  {
    hide StampsOf, Stored, Touched, Without, SizeAt, OldestFirst;
    if run.Then? {
      LruByStamps(lim, run.before);
      OldestIsLeastRecent(lim, run.before);
      var m, c := Stamps(lim.capacity, run.before), Exec(lim, run.before);
      match run.step
      case Put(key, e) =>
        NoBudget(lim, c, key, e);
        PutByStamps(lim, run, m, c.items);
      case Read(key) => ReadByStamps(run, m, c.items);
      case Drop(key) => DropByStamps(run, m, c.items);
      case Clear => NoStamps(run);
    } else {
      NoStamps(run);
    }
  }

  lemma NoBudget(lim: Limits, c: State, key: string, e: Entry)
    requires lim.max <= 0
    ensures Stored(lim.capacity, lim.max, c, key, e).items == Added(lim.capacity, c.items, key, e)
  {
  }

  lemma NoStamps(run: Run)
    ensures StampsOf(run, map[], [])
  {
  }

  lemma ReadByStamps(run: Run, m: map<string, nat>, items: seq<Slot>)
    requires run.Then? && run.step.Read? && StampsOf(run.before, m, items)
    ensures StampsOf(run, if run.step.key in m then m[run.step.key := Length(run)] else m, Touched(items, run.step.key))
  {
    hide Extended;
    var key := run.step.key;
    HeldIff(items, key);
    if Find(items, key).Some? { ExtendedKeys(items, key, Find(items, key).value); }
  }

  lemma DropByStamps(run: Run, m: map<string, nat>, items: seq<Slot>)
    requires run.Then? && run.step.Drop? && StampsOf(run.before, m, items)
    ensures StampsOf(run, m - {run.step.key}, Without(items, run.step.key))
  {
    var key := run.step.key;
    var kept := Without(items, key);
    forall k | k in Keys(items) - {key} ensures k in Keys(kept) {
      var s :| s in items && s.key == k;
      assert s in kept;
    }
    assert Keys(kept) == Keys(items) - {key};
  }

  lemma ExtendedKeys(items: seq<Slot>, key: string, e: Entry)
    ensures Keys(Extended(items, key, e)) == Keys(items) + {key}
  {
    var all := Extended(items, key, e);
    forall k | k in Keys(items) + {key} ensures k in Keys(all) {
      if k == key {
        assert Slot(key, e) in all;
      } else {
        var s :| s in items && s.key == k;
        assert s in all;
      }
    }
  }

  lemma PutByStamps(lim: Limits, run: Run, m: map<string, nat>, items: seq<Slot>)
    requires run.Then? && run.step.Put? && lim.capacity > 0
    requires OldestFirst(run.before, items) && StampsOf(run.before, m, items)
    ensures var (key, e) := (run.step.key, run.step.entry);
            var all := m[key := Length(run)];
            StampsOf(run, if |all| > lim.capacity then all - {Earliest(all)} else all,
                     Added(lim.capacity, items, key, e))
  {
    var key, e := run.step.key, run.step.entry;
    var all, slots := m[key := Length(run)], Extended(items, key, e);
    StampAdded(run, m, items);
    ExtendedKeepsOrder(run, items, key, e);
    hide Extended, StampsOf, OldestFirst;
    StampsCount(run, all, slots);
    if |slots| > lim.capacity { FirstUnstamped(run, all, slots); }
  }

  lemma StampAdded(run: Run, m: map<string, nat>, items: seq<Slot>)
    requires run.Then? && run.step.Put? && StampsOf(run.before, m, items)
    ensures StampsOf(run, m[run.step.key := Length(run)], Extended(items, run.step.key, run.step.entry))
  {
    hide Extended;
    ExtendedKeys(items, run.step.key, run.step.entry);
  }

  lemma StampsCount(run: Run, m: map<string, nat>, items: seq<Slot>)
    requires StampsOf(run, m, items) && OldestFirst(run, items)
    ensures |m| == |items|
  {
    OldestFirstIsDistinct(run, items);
    KeysCount(items);
    assert |m| == |m.Keys|;
  }

  lemma FirstUnstamped(run: Run, m: map<string, nat>, items: seq<Slot>)
    requires StampsOf(run, m, items) && OldestFirst(run, items) && items != []
    ensures StampsOf(run, m - {Earliest(m)}, items[1..])
  {
    EarliestIsFirst(run, m, items);
    OldestFirstIsDistinct(run, items);
    FirstGone(items);
  }

  lemma FirstGone(items: seq<Slot>)
    requires Distinct(items) && items != []
    ensures Keys(items[1..]) == Keys(items) - {items[0].key}
  {
    forall k | k in Keys(items) - {items[0].key} ensures k in Keys(items[1..]) {
      var s :| s in items && s.key == k;
      var j :| 0 <= j < |items| && items[j] == s;
      assert items[1..][j - 1] == s;
    }
    forall s | s in items[1..] ensures s in items && s.key != items[0].key {
      var j :| 0 <= j < |items[1..]| && items[1..][j] == s;
      assert items[j + 1] == s;
    }
  }
}
