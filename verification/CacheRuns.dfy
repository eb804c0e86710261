/** The response cache over whole runs: what its byte count means, what it keeps, and what a hit
    can return. */
module CacheRuns {
  import opened Options
  import opened ResponseCaches
  import opened Text

  /** Read is the LRU half of Lookup; deleting what it found expired is a Drop of its own, which may
      come after other steps. */
  datatype Step = Put(key: string, entry: Entry) | Read(key: string) | Drop(key: string) | Clear

  datatype Run = Begin | Then(before: Run, step: Step)

  datatype Limits = Limits(capacity: nat, max: int)

  function Next(lim: Limits, c: State, step: Step): State {
    match step
    case Put(key, e) => Stored(lim.capacity, lim.max, c, key, e)
    case Read(key) => State(Touched(c.items, key), c.current)
    case Drop(key) => Deleted(c, key)
    case Clear => State([], 0)
  }

  function Exec(lim: Limits, run: Run): State {
    match run
    case Begin => State([], 0)
    case Then(before, step) => Next(lim, Exec(lim, before), step)
  }

  ghost predicate NonNegative(run: Run) {
    run.Then? ==> NonNegative(run.before) && (run.step.Put? ==> run.step.entry.size >= 0)
  }

  // ----- Bytes -----

  /** The bytes the LRU has evicted on its own since the last purge. */
  function Leaked(lim: Limits, run: Run): int {
    match run
    case Begin => 0
    case Then(before, step) =>
      match step
      case Put(key, e) => Leaked(lim, before) + Bytes(Dropped(lim.capacity, Exec(lim, before).items, key, e))
      case Clear => 0
      case _ => Leaked(lim, before)
  }

  /** The longest recent part of `items` that fits the budget beside the leaked bytes. */
  function Fit(items: seq<Slot>, leaked: int, max: int): seq<Slot> {
    if items == [] || leaked + Bytes(items) <= max then items else Fit(items[1..], leaked, max)
  }

  lemma {:induction false} FitIsLongest(items: seq<Slot>, leaked: int, max: int) returns (j: nat)
    ensures j <= |items| && Fit(items, leaked, max) == items[j..]
    ensures j < |items| ==> leaked + Bytes(items[j..]) <= max
    ensures forall i :: 0 <= i < j ==> leaked + Bytes(items[i..]) > max
  {
    if items == [] || leaked + Bytes(items) <= max {
      j := 0;
      assert items[0..] == items;
    } else {
      var rest := items[1..];
      var k := FitIsLongest(rest, leaked, max);
      j := k + 1;
      assert rest[k..] == items[j..];
      forall i | 0 <= i < j ensures leaked + Bytes(items[i..]) > max {
        if i == 0 { assert items[0..] == items; } else { assert rest[i - 1..] == items[i..]; }
      }
    }
  }

  /** The loop stops at the longest fitting part. */
  lemma {:induction false} EvictFits(items: seq<Slot>, leaked: int, max: int, key: string)
    requires Distinct(items) && (items != [] ==> items[|items| - 1].key == key)
    ensures Evict(items, leaked + Bytes(items), max, key) ==
            State(Fit(items, leaked, max), leaked + Bytes(Fit(items, leaked, max)))
  {
    if items != [] && leaked + Bytes(items) > max {
      if items[0].key == key {
        assert |items| == 1;
      } else {
        EvictFits(items[1..], leaked, max, key);
      }
    }
  }

  ghost predicate Sound(lim: Limits, c: State, leaked: int) {
    && Distinct(c.items) && Sized(c.items) && |c.items| <= lim.capacity
    && leaked >= 0 && c.current == Bytes(c.items) + leaked
  }

  lemma AddedIsSound(lim: Limits, c: State, leaked: int, key: string, e: Entry)
    requires Sound(lim, c, leaked) && e.size >= 0 && lim.capacity > 0
    ensures var items := Added(lim.capacity, c.items, key, e);
            var lost := Bytes(Dropped(lim.capacity, c.items, key, e));
            && lost >= 0 && items != [] && items[|items| - 1] == Slot(key, e)
            && c.current - SizeAt(c.items, key) + e.size == Bytes(items) + leaked + lost
            && Sound(lim, State(items, Bytes(items) + leaked + lost), leaked + lost)
  {
    var all := Extended(c.items, key, e);
    WithoutDistinct(c.items, key);
    BytesWithout(c.items, key);
    BytesAppend(Without(c.items, key), [Slot(key, e)]);
    assert Bytes([Slot(key, e)]) == e.size;
    if |all| > lim.capacity {
      assert Bytes(all) == all[0].entry.size + Bytes(all[1..]);
      assert Bytes(all[..1]) == all[0].entry.size;
      assert all[0] in all;
    }
    forall i, j | 0 <= i < j < |all| ensures all[i].key != all[j].key {
      if j == |all| - 1 { assert all[i] in Without(c.items, key); }
    }
  }

  lemma PartIsSound(lim: Limits, items: seq<Slot>, leaked: int, j: nat)
    requires Sound(lim, State(items, Bytes(items) + leaked), leaked) && j <= |items|
    ensures Sound(lim, State(items[j..], Bytes(items[j..]) + leaked), leaked)
  {
  }

  lemma EvictIsSound(lim: Limits, items: seq<Slot>, leaked: int, key: string)
    requires Sound(lim, State(items, Bytes(items) + leaked), leaked)
    requires items != [] && items[|items| - 1].key == key
    ensures var kept := Fit(items, leaked, lim.max);
            && Evict(items, Bytes(items) + leaked, lim.max, key) == State(kept, Bytes(kept) + leaked)
            && Sound(lim, State(kept, Bytes(kept) + leaked), leaked)
  {
    EvictFits(items, leaked, lim.max, key);
    var j := FitIsLongest(items, leaked, lim.max);
    PartIsSound(lim, items, leaked, j);
  }

  /** A store leaves exactly the longest recent part that fits beside the leaked bytes. */
  lemma StoreKeepsLongestFit(lim: Limits, c: State, leaked: int, key: string, e: Entry)
    requires Sound(lim, c, leaked) && e.size >= 0 && lim.capacity > 0
    ensures var items := Added(lim.capacity, c.items, key, e);
            var leaked' := leaked + Bytes(Dropped(lim.capacity, c.items, key, e));
            var kept := if lim.max > 0 then Fit(items, leaked', lim.max) else items;
            Stored(lim.capacity, lim.max, c, key, e) == State(kept, Bytes(kept) + leaked') &&
            Sound(lim, Stored(lim.capacity, lim.max, c, key, e), leaked')
  {
    hide Added, Dropped, SizeAt, Evict, Fit, Sound, Bytes, Find;
    AddedIsSound(lim, c, leaked, key, e);
    var items := Added(lim.capacity, c.items, key, e);
    EvictIsSound(lim, items, leaked + Bytes(Dropped(lim.capacity, c.items, key, e)), key);
  }

  lemma TouchedIsSound(lim: Limits, c: State, leaked: int, key: string)
    requires Sound(lim, c, leaked) && lim.capacity > 0
    ensures Sound(lim, State(Touched(c.items, key), c.current), leaked)
  {
    var found := Find(c.items, key);
    if found.Some? {
      assert Slot(key, found.value) in c.items;
      WithoutDistinct(c.items, key);
      AddedIsSound(lim, c, leaked, key, found.value);
    }
  }

  lemma DeletedIsSound(lim: Limits, c: State, leaked: int, key: string)
    requires Sound(lim, c, leaked)
    ensures Sound(lim, Deleted(c, key), leaked)
  {
    WithoutDistinct(c.items, key);
    BytesWithout(c.items, key);
  }

  lemma EmptyIsSound(lim: Limits)
    ensures Sound(lim, State([], 0), 0)
  {
  }

  /** In every run the byte count is the live bytes plus the leaked bytes. */
  lemma {:induction false} ByteLaw(lim: Limits, run: Run)
    requires NonNegative(run) && lim.capacity > 0
    ensures Sound(lim, Exec(lim, run), Leaked(lim, run))
  {
    hide Sound, Stored, Touched, Deleted, Dropped, Added, Bytes, Fit;
    EmptyIsSound(lim);
    if run.Then? {
      ByteLaw(lim, run.before);
      var c := Exec(lim, run.before);
      match run.step
      case Put(key, e) => StoreKeepsLongestFit(lim, c, Leaked(lim, run.before), key, e);
      case Read(key) => TouchedIsSound(lim, c, Leaked(lim, run.before), key);
      case Drop(key) => DeletedIsSound(lim, c, Leaked(lim, run.before), key);
      case Clear =>
    }
  }

  /** Under a positive budget live and leaked bytes together never exceed it. */
  lemma {:induction false} BudgetLaw(lim: Limits, run: Run)
    requires NonNegative(run) && lim.capacity > 0 && lim.max > 0
    ensures Bytes(Exec(lim, run).items) + Leaked(lim, run) <= lim.max
  {
    hide Sound, Stored, Touched, Deleted, Dropped, Added, Bytes, Fit, SizeAt;
    CurrentWithinBudget(lim, run);
    LiveAndLeaked(lim, run);
  }

  lemma LiveAndLeaked(lim: Limits, run: Run)
    requires NonNegative(run) && lim.capacity > 0
    ensures var c := Exec(lim, run);
            c.current == Bytes(c.items) + Leaked(lim, run) && Leaked(lim, run) >= 0 && Bytes(c.items) >= 0
  {
    ByteLaw(lim, run);
    BytesNonNegative(Exec(lim, run).items);
  }

  lemma {:induction false} CurrentWithinBudget(lim: Limits, run: Run)
    requires NonNegative(run) && lim.capacity > 0 && lim.max > 0
    ensures Exec(lim, run).current <= lim.max
  {
    hide Sound, Stored, Touched, Dropped, Added, Bytes, Fit, SizeAt;
    if run.Then? {
      CurrentWithinBudget(lim, run.before);
      ByteLaw(lim, run.before);
      var c := Exec(lim, run.before);
      match run.step
      case Put(key, e) => StoreWithinBudget(lim, c, Leaked(lim, run.before), key, e);
      case Read(_) =>
      case Drop(key) => SizeNonNegative(lim, c, Leaked(lim, run.before), key);
      case Clear =>
    }
  }

  lemma SizeNonNegative(lim: Limits, c: State, leaked: int, key: string)
    requires Sound(lim, c, leaked)
    ensures SizeAt(c.items, key) >= 0
  {
  }

  /** The oldest slot was within the budget already, so leaking it cannot break it. */
  lemma StoreWithinBudget(lim: Limits, c: State, leaked: int, key: string, e: Entry)
    requires Sound(lim, c, leaked) && e.size >= 0 && lim.capacity > 0 && lim.max > 0 && c.current <= lim.max
    ensures Stored(lim.capacity, lim.max, c, key, e).current <= lim.max
  {
    hide Added, Dropped, SizeAt, Evict, Distinct, Sized, Stored, Extended, Find, Bytes, Fit;
    StoreKeepsLongestFit(lim, c, leaked, key, e);
    LeakIsPaidFor(lim, c, leaked, key, e);
    FitWithin(Added(lim.capacity, c.items, key, e), leaked + Bytes(Dropped(lim.capacity, c.items, key, e)), lim.max);
  }

  lemma {:induction false} FitWithin(items: seq<Slot>, leaked: int, max: int)
    requires leaked <= max
    ensures leaked + Bytes(Fit(items, leaked, max)) <= max
  {
    if items != [] && leaked + Bytes(items) > max { FitWithin(items[1..], leaked, max); }
  }

  lemma LeakIsPaidFor(lim: Limits, c: State, leaked: int, key: string, e: Entry)
    requires Sound(lim, c, leaked) && lim.capacity > 0
    ensures Bytes(Dropped(lim.capacity, c.items, key, e)) <= Bytes(c.items)
    ensures Dropped(lim.capacity, c.items, key, e) ==
            if Find(c.items, key).None? && |c.items| == lim.capacity then c.items[..1] else []
  {
    WithoutDistinct(c.items, key);
    BytesNonNegative(c.items);
    if Find(c.items, key).None? && |c.items| == lim.capacity {
      WithoutAbsent(c.items, key);
      assert Extended(c.items, key, e)[..1] == c.items[..1];
      assert Bytes(c.items[..1]) == c.items[0].entry.size;
      assert forall s :: s in c.items[1..] ==> s in c.items;
      BytesNonNegative(c.items[1..]);
    }
  }

  /** After a store under a positive budget the entry survives exactly when it fits beside the bytes
      leaked so far, the store's own leak included. */
  lemma StoreUnderBudget(lim: Limits, run: Run, key: string, e: Entry)
    requires NonNegative(run) && lim.capacity > 0 && lim.max > 0 && e.size >= 0
    ensures var after := Then(run, Put(key, e));
            var items := Exec(lim, after).items;
            && (Find(items, key) == Some(e) <==> Leaked(lim, after) + e.size <= lim.max)
            && (Find(items, key).Some? ==> Find(items, key) == Some(e))
  {
    hide Added, Dropped, SizeAt, Stored, Evict, Fit, Find, Bytes, Sized, Distinct;
    ByteLaw(lim, run);
    var c := Exec(lim, run);
    var leaked := Leaked(lim, Then(run, Put(key, e)));
    StoreKeepsLongestFit(lim, c, Leaked(lim, run), key, e);
    AddedIsSound(lim, c, Leaked(lim, run), key, e);
    var added := Added(lim.capacity, c.items, key, e);
    var j := FitIsLongest(added, leaked, lim.max);
    PutSurvives(lim, added, leaked, j, key, e);
  }

  lemma PutSurvives(lim: Limits, added: seq<Slot>, leaked: int, j: nat, key: string, e: Entry)
    requires Distinct(added) && Sized(added) && added != [] && added[|added| - 1] == Slot(key, e)
    requires j <= |added| && leaked >= 0 && lim.max > 0
    requires j < |added| ==> leaked + Bytes(added[j..]) <= lim.max
    requires forall i :: 0 <= i < j ==> leaked + Bytes(added[i..]) > lim.max
    ensures Find(added[j..], key) == Some(e) <==> leaked + e.size <= lim.max
    ensures Find(added[j..], key).Some? ==> Find(added[j..], key) == Some(e)
  {
    var items := added[j..];
    BytesNonNegative(items);
    if j < |added| {
      assert items[..|items| - 1] + [Slot(key, e)] == items;
      BytesAppend(items[..|items| - 1], [Slot(key, e)]);
      assert Bytes([Slot(key, e)]) == e.size;
      BytesNonNegative(items[..|items| - 1]);
      FindLast(items, key, e);
    } else {
      assert added[|added| - 1..] == [Slot(key, e)];
      assert leaked + Bytes(added[|added| - 1..]) > lim.max;
    }
  }

  lemma FindLast(items: seq<Slot>, key: string, e: Entry)
    requires Distinct(items) && items != [] && items[|items| - 1] == Slot(key, e)
    ensures Find(items, key) == Some(e)
  {
    var found := Find(items, key);
    assert Slot(key, e) in items;
    var i :| 0 <= i < |items| && items[i] == Slot(key, found.value);
    assert i == |items| - 1;
  }

  ghost predicate NoClear(longer: Run, shorter: Run) {
    longer == shorter || (longer.Then? && !longer.step.Clear? && NoClear(longer.before, shorter))
  }

  /** Without a purge the leak never heals: an entry too large for what it leaves of the budget is
      gone again after every later store of it. */
  lemma {:induction false} LeakNeverHeals(lim: Limits, run: Run, later: Run)
    requires NonNegative(later) && lim.capacity > 0 && NoClear(later, run)
    ensures Leaked(lim, later) >= Leaked(lim, run)
    ensures later != run && later.step.Put? && lim.max > 0 && Leaked(lim, run) + later.step.entry.size > lim.max ==>
              Find(Exec(lim, later).items, later.step.key) == None
  {
    hide Sound, Stored, Touched, Deleted, Dropped, Added, Bytes, Fit, Find;
    if later != run {
      LeakNeverHeals(lim, run, later.before);
      ByteLaw(lim, later.before);
      if later.step.Put? {
        AddedIsSound(lim, Exec(lim, later.before), Leaked(lim, later.before), later.step.key, later.step.entry);
        if lim.max > 0 { StoreUnderBudget(lim, later.before, later.step.key, later.step.entry); }
      }
    }
  }

  /** One entry of size `max`, then `n` empty ones under other keys. */
  function Filling(max: nat, n: nat): Run {
    if n == 0 then Then(Begin, Put("", BuildBlank(max)))
    else Then(Filling(max, n - 1), Put(Decimal(n), BuildBlank(0)))
  }

  function BuildBlank(size: nat): Entry {
    Entry(200, map[], [], 0, None, size)
  }

  function Filled(max: nat, n: nat): seq<Slot> {
    if n == 0 then [Slot("", BuildBlank(max))] else Filled(max, n - 1) + [Slot(Decimal(n), BuildBlank(0))]
  }

  lemma {:induction false} FilledKeys(max: nat, n: nat, m: nat)
    requires m > n
    ensures forall s :: s in Filled(max, n) ==> s.key != Decimal(m)
  {
    hide Decimal;
    if n > 0 {
      FilledKeys(max, n - 1, m);
      if Decimal(n) == Decimal(m) { DecimalInjective(n, m); }
    }
  }

  lemma {:induction false} FilledLength(max: nat, n: nat)
    ensures |Filled(max, n)| == n + 1 && Filled(max, n)[0] == Slot("", BuildBlank(max))
  {
    if n > 0 { FilledLength(max, n - 1); }
  }

  lemma PutNewKey(lim: Limits, c: State, key: string, e: Entry)
    requires forall s :: s in c.items ==> s.key != key
    requires c.current + e.size <= lim.max
    ensures |c.items| < lim.capacity ==>
              Stored(lim.capacity, lim.max, c, key, e) == State(c.items + [Slot(key, e)], c.current + e.size) &&
              Dropped(lim.capacity, c.items, key, e) == []
    ensures 0 < |c.items| == lim.capacity ==> Dropped(lim.capacity, c.items, key, e) == c.items[..1]
  {
    WithoutAbsent(c.items, key);
    var found := Find(c.items, key);
    assert Extended(c.items, key, e) == c.items + [Slot(key, e)];
    hide Extended, Without, Find;
    assert c.items != [] ==> (c.items + [Slot(key, e)])[..1] == c.items[..1];
  }

  lemma {:induction false} FillingFills(lim: Limits, n: nat)
    requires lim.max > 0 && n < lim.capacity
    ensures Exec(lim, Filling(lim.max, n)) == State(Filled(lim.max, n), lim.max)
    ensures NonNegative(Filling(lim.max, n)) && Leaked(lim, Filling(lim.max, n)) == 0
  {
    hide Decimal, Stored, Dropped;
    if n > 0 {
      FillingFills(lim, n - 1);
      FilledKeys(lim.max, n - 1, n);
      FilledLength(lim.max, n - 1);
      PutNewKey(lim, State(Filled(lim.max, n - 1), lim.max), Decimal(n), BuildBlank(0));
    } else {
      assert Exec(lim, Begin) == State([], 0);
      PutNewKey(lim, State([], 0), "", BuildBlank(lim.max));
    }
  }

  /** Every cache with a positive budget can lose all of it to the leak: after `capacity` + 1 stores
      no entry with a body is ever kept again until a purge. */
  lemma LeakCanTakeEverything(lim: Limits)
    requires lim.max > 0 && lim.capacity > 0
    ensures NonNegative(Filling(lim.max, lim.capacity)) && Leaked(lim, Filling(lim.max, lim.capacity)) == lim.max
  {
    hide Decimal, Stored, Dropped, Next;
    var n := lim.capacity - 1;
    FillingFills(lim, n);
    FilledKeys(lim.max, n, lim.capacity);
    FilledLength(lim.max, n);
    PutNewKey(lim, State(Filled(lim.max, n), lim.max), Decimal(lim.capacity), BuildBlank(0));
    assert Filled(lim.max, n)[..1] == [Slot("", BuildBlank(lim.max))];
    assert Bytes([Slot("", BuildBlank(lim.max))]) == lim.max;
  }

  // ----- Contents -----

  /** An unbounded map: the last entry stored under each key since its last removal. */
  function Ideal(run: Run): map<string, Entry> {
    match run
    case Begin => map[]
    case Then(before, step) =>
      match step
      case Put(key, e) => Ideal(before)[key := e]
      case Read(_) => Ideal(before)
      case Drop(key) => Ideal(before) - {key}
      case Clear => map[]
  }

  function Hit(items: seq<Slot>, key: string, now: int): Option<Entry> {
    match Find(items, key)
    case Some(e) => if Expired(e, now) then None else Some(e)
    case None => None
  }

  function IdealHit(m: map<string, Entry>, key: string, now: int): Option<Entry> {
    if key in m && !Expired(m[key], now) then Some(m[key]) else None
  }

  ghost predicate Backed(items: seq<Slot>, m: map<string, Entry>) {
    forall s :: s in items ==> s.key in m && m[s.key] == s.entry
  }

  lemma {:induction false} EvictKeepsPart(items: seq<Slot>, current: int, max: int, key: string)
    ensures forall s :: s in Evict(items, current, max, key).items ==> s in items
  {
    if items != [] && current > max && items[0].key != key {
      EvictKeepsPart(items[1..], current - items[0].entry.size, max, key);
    }
  }

  lemma {:induction false} ContentsBacked(lim: Limits, run: Run)
    ensures Backed(Exec(lim, run).items, Ideal(run))
  {
    if run.Then? {
      ContentsBacked(lim, run.before);
      var c := Exec(lim, run.before);
      match run.step
      case Put(key, e) =>
        var added := Added(lim.capacity, c.items, key, e);
        assert forall s :: s in added ==> s in Extended(c.items, key, e);
        EvictKeepsPart(added, c.current - SizeAt(c.items, key) + e.size, lim.max, key);
      case Read(key) =>
        assert forall s :: s in Touched(c.items, key) ==> s in c.items;
      case Drop(_) =>
      case Clear =>
    }
  }

  /** A hit is always what an unbounded TTL map would have returned. */
  lemma HitsAreIdeal(lim: Limits, run: Run, key: string, now: int)
    ensures var hit := Hit(Exec(lim, run).items, key, now);
            hit.Some? ==> IdealHit(Ideal(run), key, now) == hit
  {
    ContentsBacked(lim, run);
    var found := Find(Exec(lim, run).items, key);
    if found.Some? { assert Slot(key, found.value) in Exec(lim, run).items; }
  }
}
