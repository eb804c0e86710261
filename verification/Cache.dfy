/** The byte-budgeted LRU response cache of pkg/cache/cache.go. */
module ResponseCaches {
  import opened Options

  type Header = map<string, seq<string>>

  datatype Entry = Entry(status: int, header: Header, body: seq<bv8>, storedAt: int, expiresAt: Option<int>, size: int)

  datatype Slot = Slot(key: string, entry: Entry)

  /** BuildEntry: the size is the body's length, and a positive TTL sets the expiry. */
  function BuildEntry(status: int, header: Header, body: seq<bv8>, ttl: int, now: int): Entry {
    Entry(status, header, body, now, if ttl > 0 then Some(now + ttl) else None, |body|)
  }

  predicate Expired(e: Entry, now: int) {
    e.expiresAt.Some? && e.expiresAt.value < now
  }

  // ----- The recency list, oldest first -----

  ghost predicate Distinct(items: seq<Slot>) {
    forall i, j :: 0 <= i < j < |items| ==> items[i].key != items[j].key
  }

  function Find(items: seq<Slot>, key: string): (r: Option<Entry>)
    ensures r.Some? ==> Slot(key, r.value) in items
    ensures r.None? ==> forall s :: s in items ==> s.key != key
  {
    if items == [] then None
    else if items[0].key == key then Some(items[0].entry)
    else Find(items[1..], key)
  }

  function Without(items: seq<Slot>, key: string): (r: seq<Slot>)
    ensures forall s :: s in r <==> s in items && s.key != key
    ensures |r| <= |items|
  {
    if items == [] then []
    else if items[0].key == key then Without(items[1..], key)
    else [items[0]] + Without(items[1..], key)
  }

  lemma {:induction false} WithoutAbsent(items: seq<Slot>, key: string)
    requires forall s :: s in items ==> s.key != key
    ensures Without(items, key) == items
  {
    if items != [] {
      WithoutAbsent(items[1..], key);
      assert items[0] in items;
      assert items == [items[0]] + items[1..];
    }
  }

  lemma {:induction false} WithoutDistinct(items: seq<Slot>, key: string)
    requires Distinct(items)
    ensures Distinct(Without(items, key))
    ensures Find(items, key).Some? ==> |Without(items, key)| == |items| - 1
  {
    if items != [] {
      var rest := items[1..];
      WithoutDistinct(rest, key);
      if items[0].key == key {
        assert forall s :: s in rest ==> s.key != key;
        WithoutAbsent(rest, key);
      } else {
        assert forall s :: s in Without(rest, key) ==> s in rest && s.key != items[0].key;
      }
    }
  }

  function Bytes(items: seq<Slot>): int {
    if items == [] then 0 else items[0].entry.size + Bytes(items[1..])
  }

  ghost predicate Sized(items: seq<Slot>) {
    forall s :: s in items ==> s.entry.size >= 0
  }

  lemma {:induction false} BytesAppend(a: seq<Slot>, b: seq<Slot>)
    ensures Bytes(a + b) == Bytes(a) + Bytes(b)
  {
    if a == [] {
      assert a + b == b;
    } else {
      assert (a + b)[1..] == a[1..] + b;
      BytesAppend(a[1..], b);
    }
  }

  lemma {:induction false} BytesNonNegative(items: seq<Slot>)
    requires Sized(items)
    ensures Bytes(items) >= 0
  {
    if items != [] { BytesNonNegative(items[1..]); }
  }

  lemma {:induction false} BytesWithout(items: seq<Slot>, key: string)
    requires Distinct(items)
    ensures Bytes(Without(items, key)) ==
            Bytes(items) - match Find(items, key) case Some(e) => e.size case None => 0
  {
    if items != [] {
      BytesWithout(items[1..], key);
      if items[0].key == key {
        assert forall s :: s in items[1..] ==> s.key != key;
        WithoutAbsent(items[1..], key);
      } else {
        assert ([items[0]] + Without(items[1..], key))[1..] == Without(items[1..], key);
      }
    }
  }

  // ----- Steps of the cache -----

  datatype State = State(items: seq<Slot>, current: int)

  /** The slots after adding at the recent end, before the capacity is enforced. */
  function Extended(items: seq<Slot>, key: string, e: Entry): seq<Slot> {
    Without(items, key) + [Slot(key, e)]
  }

  /** What the LRU evicts on its own when it is full; the byte count does not hear of it. */
  function Dropped(capacity: nat, items: seq<Slot>, key: string, e: Entry): seq<Slot> {
    var all := Extended(items, key, e);
    if |all| > capacity then all[..1] else []
  }

  function Added(capacity: nat, items: seq<Slot>, key: string, e: Entry): seq<Slot> {
    var all := Extended(items, key, e);
    if |all| > capacity then all[1..] else all
  }

  /** The eviction loop. */
  function Evict(items: seq<Slot>, current: int, max: int, key: string): State {
    if current <= max || items == [] then State(items, current)
    else if items[0].key == key then State(items[1..], current - items[0].entry.size)
    else Evict(items[1..], current - items[0].entry.size, max, key)
  }

  function SizeAt(items: seq<Slot>, key: string): int {
    match Find(items, key)
    case Some(e) => e.size
    case None => 0
  }

  function Stored(capacity: nat, max: int, c: State, key: string, e: Entry): State {
    var items := Added(capacity, c.items, key, e);
    var current := c.current - SizeAt(c.items, key) + e.size;
    if max > 0 then Evict(items, current, max, key) else State(items, current)
  }

  /** Reading a key makes it the most recent. */
  function Touched(items: seq<Slot>, key: string): seq<Slot> {
    match Find(items, key)
    case Some(e) => Extended(items, key, e)
    case None => items
  }

  function Deleted(c: State, key: string): State {
    State(Without(c.items, key), c.current - SizeAt(c.items, key))
  }

  /** A lookup touches what it finds and then deletes it if it has expired. */
  function Looked(c: State, key: string, now: int): State {
    var touched := State(Touched(c.items, key), c.current);
    match Find(c.items, key)
    case Some(e) => if Expired(e, now) then Deleted(touched, key) else touched
    case None => touched
  }

  /** The LRU library's cache: a recency list with a capacity. */
  class Lru {
    const capacity: nat
    var items: seq<Slot>

    constructor (capacity: nat)
      requires capacity > 0
      ensures this.capacity == capacity && items == []
    {
      this.capacity := capacity;
      items := [];
    }

    method Peek(key: string) returns (r: Option<Entry>)
      ensures r == Find(items, key)
    {
      r := Find(items, key);
    }

    method Get(key: string) returns (r: Option<Entry>)
      modifies this
      ensures r == Find(old(items), key) && items == Touched(old(items), key)
    {
      r := Find(items, key);
      items := Touched(items, key);
    }

    method Add(key: string, e: Entry)
      modifies this
      ensures items == Added(capacity, old(items), key, e)
    {
      items := Extended(items, key, e);
      if |items| > capacity {
        items := items[1..];
      }
    }

    method RemoveOldest() returns (r: Option<Slot>)
      modifies this
      ensures if old(items) == [] then r == None && items == []
              else r == Some(old(items)[0]) && items == old(items)[1..]
    {
      if items == [] {
        return None;
      }
      r := Some(items[0]);
      items := items[1..];
    }

    method Remove(key: string)
      modifies this
      ensures items == Without(old(items), key)
    {
      items := Without(items, key);
    }

    method Purge()
      modifies this
      ensures items == []
    {
      items := [];
    }
  }

  class ResponseCache {
    const store: Lru
    const maxBytes: int
    var currentBytes: int

    ghost function View(): State reads this, store {
      State(store.items, currentBytes)
    }

    constructor (store: Lru, maxBytes: int)
      requires store.items == []
      ensures this.store == store && this.maxBytes == maxBytes && View() == State([], 0)
    {
      this.store := store;
      this.maxBytes := maxBytes;
      currentBytes := 0;
    }

    /** No entry is a call that does nothing. */
    method Store(key: string, entry: Option<Entry>)
      modifies this, store
      ensures View() == match entry
                        case None => old(View())
                        case Some(e) => Stored(store.capacity, maxBytes, old(View()), key, e)
    {
      hide Find, Evict, Added;
      if entry.None? {
        return;
      }
      var existing := store.Peek(key);
      if existing.Some? {
        currentBytes := currentBytes - existing.value.size;
      }
      store.Add(key, entry.value);
      currentBytes := currentBytes + entry.value.size;
      if maxBytes > 0 {
        EvictOldest(key);
      }
    }

    /** The loop of Store; it ends because every turn removes a slot. */
    method EvictOldest(key: string)
      modifies this, store
      ensures View() == Evict(old(store.items), old(currentBytes), maxBytes, key)
    {
      while currentBytes > maxBytes
        invariant Evict(store.items, currentBytes, maxBytes, key) ==
                  Evict(old(store.items), old(currentBytes), maxBytes, key)
        decreases |store.items|
      {
        var oldest := store.RemoveOldest();
        if oldest.None? {
          break;
        }
        currentBytes := currentBytes - oldest.value.entry.size;
        if oldest.value.key == key {
          return;
        }
      }
    }

    method Delete(key: string)
      modifies this, store
      ensures View() == Deleted(old(View()), key)
    {
      var existing := store.Peek(key);
      if existing.Some? {
        currentBytes := currentBytes - existing.value.size;
      }
      store.Remove(key);
    }

    method Lookup(key: string, now: int) returns (r: Option<Entry>)
      modifies this, store
      ensures r == match Find(old(store.items), key)
                   case Some(e) => if Expired(e, now) then None else Some(e)
                   case None => None
      ensures View() == Looked(old(View()), key, now)
    {
      r := store.Get(key);
      if r.Some? && Expired(r.value, now) {
        Delete(key);
        return None;
      }
    }

    method Purge()
      modifies this, store
      ensures View() == State([], 0)
    {
      store.Purge();
      currentBytes := 0;
    }
  }

  /** NewResponseCache: a capacity that is not positive is refused. */
  method NewResponseCache(capacity: int, maxBytes: int) returns (r: Option<ResponseCache>)
    ensures r.None? <==> capacity <= 0
    ensures r.Some? ==> r.value.store.capacity == capacity && r.value.maxBytes == maxBytes
    ensures r.Some? ==> r.value.View() == State([], 0)
    ensures r.Some? ==> fresh(r.value) && fresh(r.value.store)
  {
    if capacity <= 0 {
      return None;
    }
    var store := new Lru(capacity);
    var c := new ResponseCache(store, maxBytes);
    r := Some(c);
  }
}
