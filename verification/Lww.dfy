/** The last-writer-wins map of pkg/crdt/lwwmap.go: its clock order, its lattice laws, and the
    class whose methods update `items` in place. */
module Lww {
  import opened Options

  datatype Clock = Clock(lamport: nat, unixNano: int)

  datatype Entry<V> = Entry(value: V, clock: Clock, tombstone: bool)

  // An entry together with the key it was written under.
  datatype Update<K, V> = Update(key: K, entry: Entry<V>)

  /** True when `lhs` wins over `rhs`; a tie is won by `lhs`. */
  predicate Dominates(lhs: Clock, rhs: Clock) {
    if lhs.lamport > rhs.lamport then true
    else if lhs.lamport < rhs.lamport then false
    else lhs.unixNano >= rhs.unixNano
  }

  /** The test guarding every write: the key is free or the incoming clock dominates. */
  predicate Accepts<K, V>(m: map<K, Entry<V>>, key: K, clock: Clock) {
    key !in m || Dominates(clock, m[key].clock)
  }

  function Put<K, V>(m: map<K, Entry<V>>, key: K, e: Entry<V>): map<K, Entry<V>> {
    if Accepts(m, key, e.clock) then m[key := e] else m
  }

  function Merged<K, V>(m: map<K, Entry<V>>, entries: map<K, Entry<V>>): map<K, Entry<V>> {
    map k | k in m.Keys + entries.Keys ::
      if k in entries && Accepts(m, k, entries[k].clock) then entries[k] else m[k]
  }

  function Cleaned<K, V>(m: map<K, Entry<V>>, ttl: int, now: int): map<K, Entry<V>> {
    if ttl <= 0 then m
    else map k | k in m && !(m[k].tombstone && m[k].clock.unixNano <= now - ttl) :: m[k]
  }

  function Lookup<K, V>(m: map<K, Entry<V>>, key: K): Option<V> {
    if key !in m || m[key].tombstone then None else Some(m[key].value)
  }

  // ----- The order, written out -----

  /** The greater counter wins, and between equal counters the later or the arriving one. */
  lemma OrderIsLexicographic(lhs: Clock, rhs: Clock)
    ensures Dominates(lhs, rhs) <==>
              lhs.lamport > rhs.lamport || (lhs.lamport == rhs.lamport && lhs.unixNano >= rhs.unixNano)
  {
  }

  /** What a write leaves under its key and under the others. */
  lemma PutExactly<K, V>(m: map<K, Entry<V>>, key: K, e: Entry<V>, k: K)
    ensures k in Put(m, key, e) <==> k in m || k == key
    ensures k in m && k != key ==> Put(m, key, e)[k] == m[k]
    ensures key !in m ==> Put(m, key, e)[key] == e
    ensures key in m ==>
              var held := m[key].clock;
              Put(m, key, e)[key] ==
                if e.clock.lamport > held.lamport then e
                else if e.clock.lamport < held.lamport then m[key]
                else if e.clock.unixNano < held.unixNano then m[key]
                else e
  {
  }

  /** What a merge leaves under each key. */
  lemma MergedExactly<K, V>(m: map<K, Entry<V>>, entries: map<K, Entry<V>>, k: K)
    ensures k in Merged(m, entries) <==> k in m || k in entries
    ensures k in m && k !in entries ==> Merged(m, entries)[k] == m[k]
    ensures k !in m && k in entries ==> Merged(m, entries)[k] == entries[k]
    ensures k in m && k in entries ==>
              var (held, came) := (m[k].clock, entries[k].clock);
              Merged(m, entries)[k] ==
                if came.lamport > held.lamport then entries[k]
                else if came.lamport < held.lamport then m[k]
                else if came.unixNano < held.unixNano then m[k]
                else entries[k]
  {
  }

  /** A second write under an equal counter: the later time stays, in whichever order they come. */
  lemma EqualCountersByTime<K, V>(m: map<K, Entry<V>>, key: K, early: Entry<V>, late: Entry<V>)
    requires key !in m && early.clock.lamport == late.clock.lamport && early.clock.unixNano < late.clock.unixNano
    ensures Put(Put(m, key, early), key, late) == m[key := late] == Put(Put(m, key, late), key, early)
    ensures Merged(m[key := early], map[key := late]) == m[key := late] == Merged(m[key := late], map[key := early])
  {
    assert m[key := early][key := late] == m[key := late];
    assert Merged(m[key := early], map[key := late]) == m[key := late];
  }

  // ----- Which update wins -----

  ghost function Updates<K, V>(m: map<K, Entry<V>>): set<Update<K, V>> {
    set k | k in m :: Update(k, m[k])
  }

  /** `m` holds, for each key, one of the updates in `us`, and none of them has a greater clock. */
  ghost predicate IsLatest<K, V>(m: map<K, Entry<V>>, us: set<Update<K, V>>) {
    && (forall k :: k in m ==> Update(k, m[k]) in us)
    && (forall u :: u in us ==> u.key in m && Dominates(m[u.key].clock, u.entry.clock))
  }

  /** `u` has a maximum clock among the updates of its key. */
  ghost predicate IsTop<K, V>(us: set<Update<K, V>>, u: Update<K, V>) {
    u in us && forall v :: v in us && v.key == u.key ==> Dominates(u.entry.clock, v.entry.clock)
  }

  /** Updates of maximum clock for a key coincide; ties below the maximum are harmless. */
  ghost predicate TopTieFree<K, V>(us: set<Update<K, V>>) {
    forall u, v :: u in us && v in us && IsTop(us, u) && IsTop(us, v) && u.key == v.key ==> u == v
  }

  /** Two maps never hold different entries under one key and one clock. */
  ghost predicate Agree<K, V>(a: map<K, Entry<V>>, b: map<K, Entry<V>>) {
    forall k :: k in a && k in b && a[k].clock == b[k].clock ==> a[k] == b[k]
  }

  lemma PutIsLatest<K, V>(m: map<K, Entry<V>>, us: set<Update<K, V>>, key: K, e: Entry<V>)
    requires IsLatest(m, us)
    ensures IsLatest(Put(m, key, e), us + {Update(key, e)})
  {
  }

  lemma MergedIsLatest<K, V>(a: map<K, Entry<V>>, us: set<Update<K, V>>, b: map<K, Entry<V>>, vs: set<Update<K, V>>)
    requires IsLatest(a, us) && IsLatest(b, vs)
    ensures IsLatest(Merged(a, b), us + vs)
  {
  }

  lemma LatestIsUnique<K, V>(a: map<K, Entry<V>>, b: map<K, Entry<V>>, us: set<Update<K, V>>)
    requires IsLatest(a, us) && IsLatest(b, us) && TopTieFree(us)
    ensures a == b
  {
    forall k | k in a ensures k in b && a[k] == b[k] {
      assert Update(k, a[k]).key in b;
      assert IsTop(us, Update(k, a[k])) && IsTop(us, Update(k, b[k]));
    }
    forall k | k in b ensures k in a {
      assert Update(k, b[k]).key in a;
    }
  }

  /** Some update of the same key in `us` has a clock that is not smaller. */
  ghost predicate Beaten<K, V>(us: set<Update<K, V>>, v: Update<K, V>) {
    exists u :: u in us && u.key == v.key && Dominates(u.entry.clock, v.entry.clock)
  }

  lemma BeatenByLatest<K, V>(m: map<K, Entry<V>>, us: set<Update<K, V>>, v: Update<K, V>)
    requires IsLatest(m, us) && Beaten(us, v)
    ensures v.key in m && Dominates(m[v.key].clock, v.entry.clock)
  {
    var u :| u in us && u.key == v.key && Dominates(u.entry.clock, v.entry.clock);
    assert u.key in m && Dominates(m[u.key].clock, u.entry.clock);
  }

  /** Updates that others beat change nothing. */
  lemma LatestOfMore<K, V>(m: map<K, Entry<V>>, us: set<Update<K, V>>, vs: set<Update<K, V>>)
    requires IsLatest(m, us) && us <= vs && forall v :: v in vs ==> Beaten(us, v)
    ensures IsLatest(m, vs)
  {
    hide Beaten, Dominates;
    forall v | v in vs ensures v.key in m && Dominates(m[v.key].clock, v.entry.clock) {
      BeatenByLatest(m, us, v);
    }
  }

  /** Every set of updates has a latest map. */
  lemma {:induction false} LatestExists<K, V>(us: set<Update<K, V>>) returns (m: map<K, Entry<V>>)
    ensures IsLatest(m, us)
  {
    if us == {} {
      m := map[];
    } else {
      var u :| u in us;
      m := LatestExists(us - {u});
      PutIsLatest(m, us - {u}, u.key, u.entry);
      assert us - {u} + {Update(u.key, u.entry)} == us;
      m := Put(m, u.key, u.entry);
    }
  }

  lemma TopReplaces<K, V>(m: map<K, Entry<V>>, us: set<Update<K, V>>, u: Update<K, V>)
    requires IsLatest(m, us) && IsTop(us, u)
    ensures IsLatest(m[u.key := u.entry], us)
  {
  }

  /** One map is latest for `us`. */
  ghost predicate OneLatest<K(!new), V(!new)>(us: set<Update<K, V>>) {
    forall a: map<K, Entry<V>>, b: map<K, Entry<V>> :: IsLatest(a, us) && IsLatest(b, us) ==> a == b
  }

  /** The updates determine the map exactly when no key has two updates of maximum clock. */
  lemma LatestIsUniqueIff<K(!new), V(!new)>(us: set<Update<K, V>>)
    ensures OneLatest(us) <==> TopTieFree(us)
  {
    if TopTieFree(us) {
      forall a: map<K, Entry<V>>, b: map<K, Entry<V>> | IsLatest(a, us) && IsLatest(b, us) ensures a == b {
        LatestIsUnique(a, b, us);
      }
    }
    if OneLatest(us) {
      var m := LatestExists(us);
      forall u, v | u in us && v in us && IsTop(us, u) && IsTop(us, v) && u.key == v.key ensures u == v {
        TopReplaces(m, us, u);
        TopReplaces(m, us, v);
        assert m[u.key := u.entry][u.key] == m[v.key := v.entry][u.key];
      }
    }
  }

  // ----- Lattice laws -----

  lemma MergeIdempotent<K, V>(m: map<K, Entry<V>>)
    ensures Merged(m, m) == m
  {
  }

  lemma MergeAssociative<K, V>(a: map<K, Entry<V>>, b: map<K, Entry<V>>, c: map<K, Entry<V>>)
    ensures Merged(Merged(a, b), c) == Merged(a, Merged(b, c))
  {
  }

  /** Merging commutes exactly when no key has one clock and two entries. */
  lemma MergeCommutesIffAgree<K, V>(a: map<K, Entry<V>>, b: map<K, Entry<V>>)
    ensures Merged(a, b) == Merged(b, a) <==> Agree(a, b)
  {
    if Merged(a, b) == Merged(b, a) {
      forall k | k in a && k in b && a[k].clock == b[k].clock ensures a[k] == b[k] {
        assert Merged(a, b)[k] == b[k] && Merged(b, a)[k] == a[k];
      }
    }
  }

  /** `Cleanup` drops only what no reader could see, and drops every tombstone old enough. */
  lemma CleanupKeepsReads<K, V>(m: map<K, Entry<V>>, ttl: int, now: int, key: K)
    ensures Lookup(Cleaned(m, ttl, now), key) == Lookup(m, key)
    ensures key in m && key !in Cleaned(m, ttl, now) <==>
            ttl > 0 && key in m && m[key].tombstone && m[key].clock.unixNano <= now - ttl
  {
  }

  class LWWMap<K(==), V> {
    var items: map<K, Entry<V>>
    const zero: V

    constructor (zero: V)
      ensures items == map[] && this.zero == zero
    {
      items := map[];
      this.zero := zero;
    }

    method Upsert(key: K, value: V, clock: Clock) returns (changed: bool)
      modifies this
      ensures items == Put(old(items), key, Entry(value, clock, false))
      ensures changed <==> Accepts(old(items), key, clock)
      ensures changed ==> items == old(items)[key := Entry(value, clock, false)]
      ensures !changed ==> items == old(items)
    {
      if key !in items || Dominates(clock, items[key].clock) {
        items := items[key := Entry(value, clock, false)];
        return true;
      }
      return false;
    }

    method Delete(key: K, clock: Clock) returns (changed: bool)
      modifies this
      ensures items == Put(old(items), key, Entry(zero, clock, true))
      ensures changed <==> Accepts(old(items), key, clock)
      ensures changed ==> items == old(items)[key := Entry(zero, clock, true)] && Lookup(items, key) == None
      ensures !changed ==> items == old(items)
    {
      if key !in items || Dominates(clock, items[key].clock) {
        items := items[key := Entry(zero, clock, true)];
        return true;
      }
      return false;
    }

    method Get(key: K) returns (value: V, ok: bool)
      ensures ok <==> key in items && !items[key].tombstone
      ensures if ok then Lookup(items, key) == Some(value) else value == zero && Lookup(items, key) == None
    {
      if key !in items || items[key].tombstone {
        return zero, false;
      }
      return items[key].value, true;
    }

    /** The entries may be visited in any order. */
    method Merge(entries: map<K, Entry<V>>) returns (changed: bool)
      modifies this
      ensures items == Merged(old(items), entries)
      ensures changed <==> exists k :: k in entries && Accepts(old(items), k, entries[k].clock)
      ensures !changed ==> items == old(items)
    {
      changed := false;
      var todo := entries.Keys;
      assert entries - todo == map[];
      while todo != {}
        invariant todo <= entries.Keys
        invariant items == Merged(old(items), entries - todo)
        invariant changed <==> exists k :: k in entries && k !in todo && Accepts(old(items), k, entries[k].clock)
        invariant !changed ==> items == old(items)
      {
        var key :| key in todo;
        var incoming := entries[key];
        assert Accepts(items, key, incoming.clock) <==> Accepts(old(items), key, incoming.clock);
        if key !in items || Dominates(incoming.clock, items[key].clock) {
          items := items[key := incoming];
          changed := true;
        }
        todo := todo - {key};
      }
      assert entries - todo == entries;
    }

    method Cleanup(ttl: int, now: int) returns (removed: nat)
      modifies this
      ensures items == Cleaned(old(items), ttl, now)
      ensures removed == |old(items)| - |items|
    {
      if ttl <= 0 {
        return 0;
      }
      var threshold := now - ttl;
      removed := 0;
      var todo := items.Keys;
      while todo != {}
        invariant todo <= items.Keys <= old(items).Keys
        invariant forall k :: k in items ==> items[k] == old(items)[k]
        invariant forall k :: k in old(items) && k !in todo ==>
          (k in items <==> !(old(items)[k].tombstone && old(items)[k].clock.unixNano <= threshold))
        invariant removed == |old(items)| - |items|
        decreases todo
      {
        var key :| key in todo;
        todo := todo - {key};
        if items[key].tombstone && items[key].clock.unixNano <= threshold {
          assert (items - {key}).Keys == items.Keys - {key};
          items := items - {key};
          removed := removed + 1;
        }
      }
    }
  }
}
