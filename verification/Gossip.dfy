/** Gossip and anti-entropy between replicas: pkg/gossip/service.go. One table per replica; the
    backend and the node halves of the registry run the same code on it. */
module Gossip {
  import opened Lww
  import opened VersionVectors
  import opened Registry

  // ----- Sync entries -----

  datatype SyncEntry<P> = SyncEntry(id: string, record: Announcement<P>, clock: Clock, tomb: bool)

  /** A snapshot's keys, each once, in the order the map happened to yield them. */
  ghost predicate Enumerates<P>(order: seq<string>, items: Records<P>) {
    && (forall i :: 0 <= i < |order| ==> order[i] in items)
    && (forall k :: k in items ==> k in order)
    && (forall i, j :: 0 <= i < j < |order| ==> order[i] != order[j])
  }

  function ToEntry<P>(id: string, e: Entry<Announcement<P>>, zero: Announcement<P>): SyncEntry<P> {
    SyncEntry(id, if e.tombstone then zero else e.value, e.clock, e.tombstone)
  }

  function FromEntry<P>(s: SyncEntry<P>, zero: Announcement<P>): Entry<Announcement<P>> {
    Entry(if s.tomb then zero else s.record, s.clock, s.tomb)
  }

  function ToSync<P>(items: Records<P>, order: seq<string>, zero: Announcement<P>): (out: seq<SyncEntry<P>>)
    requires forall i :: 0 <= i < |order| ==> order[i] in items
    ensures |out| == |order|
    ensures forall i :: 0 <= i < |out| ==> out[i] == ToEntry(order[i], items[order[i]], zero)
  {
    if order == [] then []
    else
      var last := order[|order| - 1];
      ToSync(items, order[..|order| - 1], zero) + [ToEntry(last, items[last], zero)]
  }

  function FromSync<P>(entries: seq<SyncEntry<P>>, zero: Announcement<P>): Records<P> {
    if entries == [] then map[]
    else
      var last := entries[|entries| - 1];
      FromSync(entries[..|entries| - 1], zero)[last.id := FromEntry(last, zero)]
  }

  /** Every tombstone holds the zero value. */
  ghost predicate ZeroTombs<P>(items: Records<P>, zero: Announcement<P>) {
    forall k :: k in items && items[k].tombstone ==> items[k].value == zero
  }

  /** What arrives, whatever the order of the entries. */
  lemma {:induction false} SyncCarries<P>(items: Records<P>, order: seq<string>, zero: Announcement<P>)
    requires forall i :: 0 <= i < |order| ==> order[i] in items
    ensures var got := FromSync(ToSync(items, order, zero), zero);
            && (forall k :: k in got <==> k in order)
            && (forall k :: k in got ==> got[k] == FromEntry(ToEntry(k, items[k], zero), zero))
  {
    if order != [] {
      var init := order[..|order| - 1];
      SyncCarries(items, init, zero);
      var out := ToSync(items, order, zero);
      assert out[..|out| - 1] == ToSync(items, init, zero);
      assert forall k :: k in order <==> k in init || k == order[|order| - 1];
    }
  }

  /** Converting to sync entries in any order and back is the identity exactly on the maps whose
      tombstones hold the zero value. */
  lemma SyncRoundTrip<P>(items: Records<P>, order: seq<string>, zero: Announcement<P>)
    requires Enumerates(order, items)
    ensures FromSync(ToSync(items, order, zero), zero) == items <==> ZeroTombs(items, zero)
  {
    hide ToSync, FromSync;
    SyncCarries(items, order, zero);
    ZeroedIsSame(items, FromSync(ToSync(items, order, zero), zero), zero);
  }

  lemma ZeroedIsSame<P>(items: Records<P>, got: Records<P>, zero: Announcement<P>)
    requires got.Keys == items.Keys
    requires forall k :: k in got ==> got[k] == FromEntry(ToEntry(k, items[k], zero), zero)
    ensures got == items <==> ZeroTombs(items, zero)
  {
    if got == items {
      forall k | k in items && items[k].tombstone ensures items[k].value == zero {
        assert got[k].value == zero;
      }
    }
  }

  /** `out` holds every entry of `items` once, in some order. */
  ghost predicate Lists<P(!new)>(items: Records<P>, zero: Announcement<P>, out: seq<SyncEntry<P>>) {
    exists order :: Enumerates(order, items) && out == ToSync(items, order, zero)
  }

  /** toBackendSyncEntries and toNodeSyncEntries: the map is read in an order of its own. */
  method ToSyncEntries<P(!new)>(items: Records<P>, zero: Announcement<P>) returns (out: seq<SyncEntry<P>>)
    ensures Lists(items, zero, out)
  {
    out := [];
    ghost var order: seq<string> := [];
    var todo := items.Keys;
    while todo != {}
      invariant todo <= items.Keys
      invariant forall k :: k in order <==> k in items && k !in todo
      invariant forall i, j :: 0 <= i < j < |order| ==> order[i] != order[j]
      invariant out == ToSync(items, order, zero)
    {
      var id :| id in todo;
      var entry := items[id];
      var record := SyncEntry(id, zero, entry.clock, entry.tombstone);
      if !entry.tombstone {
        record := record.(record := entry.value);
      }
      out := out + [record];
      assert (order + [id])[..|order|] == order && id !in order;
      order := order + [id];
      todo := todo - {id};
    }
  }

  /** fromBackendSyncEntries and fromNodeSyncEntries. */
  method FromSyncEntries<P>(entries: seq<SyncEntry<P>>, zero: Announcement<P>) returns (out: Records<P>)
    ensures out == FromSync(entries, zero)
  {
    out := map[];
    for i := 0 to |entries|
      invariant out == FromSync(entries[..i], zero)
    {
      var entry := entries[i];
      var value := Entry(zero, entry.clock, entry.tomb);
      if !entry.tomb {
        value := value.(value := entry.record);
      }
      out := out[entry.id := value];
      assert entries[..i + 1][..i] == entries[..i];
    }
    assert entries[..|entries|] == entries;
  }

  // ----- The network -----

  datatype Response<P> = Response(entries: seq<SyncEntry<P>>, vv: Vector)

  /** The replicas, and for each the response to the pull it has under way, if one was sent. A
      replica pulls from one peer at a time, and merges a response at most once. */
  datatype Net<P> = Net(tables: seq<Table<P>>, inbox: map<nat, Response<P>>)

  datatype World<!P> = World(crypto: Crypto<P>, ttl: int, zero: Announcement<P>)

  /** Deliver covers publishing too: any announcement may reach any replica at any time, any number
      of times. A response is received however late, or lost. */
  datatype Step<P> =
    | Deliver(at: nat, announcement: Announcement<P>)
    | Delete(at: nat, id: string, clock: Clock)
    | Answer(at: nat, to: nat, order: seq<string>)
    | Receive(at: nat)
    | Lose(at: nat)
    | Prune(at: nat, now: int)

  datatype Run<P> = Begin | Then(before: Run<P>, step: Step<P>)

  /** Merging a response; an empty one is ignored. */
  ghost function Accept<P>(zero: Announcement<P>, t: Table<P>, r: Response<P>): Table<P> {
    if r.entries == [] then t else MergeDelta(t, FromSync(r.entries, zero), r.vv)
  }

  /** `at` answers another replica that has no pull under way. */
  ghost predicate Answers<P>(s: Net<P>, step: Step<P>) {
    && step.Answer? && step.at < |s.tables| && step.to < |s.tables| && step.to != step.at
    && step.to !in s.inbox && Enumerates(step.order, s.tables[step.at].items)
  }

  ghost function AnswerOf<P>(w: World<P>, t: Table<P>, order: seq<string>): Response<P>
    requires Enumerates(order, t.items)
  {
    Response(ToSync(t.items, order, w.zero), t.vv)
  }

  /** One step; a step that is not possible changes nothing. */
  ghost function Next<P>(w: World<P>, s: Net<P>, step: Step<P>): (s': Net<P>)
    ensures |s'.tables| == |s.tables|
  {
    if step.at >= |s.tables| then s
    else
      var t := s.tables[step.at];
      match step
      case Deliver(at, a) => s.(tables := s.tables[at := Apply(w.crypto, t, a)])
      case Delete(at, id, clock) =>
        s.(tables := s.tables[at := t.(items := Put(t.items, id, Entry(w.zero, clock, true)))])
      case Answer(_, to, order) => if Answers(s, step) then s.(inbox := s.inbox[to := AnswerOf(w, t, order)]) else s
      case Receive(at) =>
        if at in s.inbox then Net(s.tables[at := Accept(w.zero, t, s.inbox[at])], s.inbox - {at}) else s
      case Lose(at) => s.(inbox := s.inbox - {at})
      case Prune(at, now) => s.(tables := s.tables[at := t.(items := Cleaned(t.items, w.ttl, now))])
  }

  /** A run from any state of the network, pulls under way included. */
  ghost function Exec<P>(w: World<P>, start: Net<P>, run: Run<P>): (s: Net<P>)
    ensures |s.tables| == |start.tables|
  {
    match run
    case Begin => start
    case Then(before, step) => Next(w, Exec(w, start, before), step)
  }

  ghost predicate NoPrune<P>(run: Run<P>) {
    match run
    case Begin => true
    case Then(before, step) => !step.Prune? && NoPrune(before)
  }

  /** The run only exchanges state: no new writes and no pruning. */
  ghost predicate PullsOnly<P>(run: Run<P>) {
    match run
    case Begin => true
    case Then(before, step) => (step.Answer? || step.Receive? || step.Lose?) && PullsOnly(before)
  }

  /** mergeSyncResponse: each half with entries is merged, an empty half is left alone. */
  method MergeSyncResponse<M>(store: Store<M>, backends: Response<BackendBody>, nodes: Response<NodeBody>)
    requires store.Valid()
    modifies store.meta, store.metaVV, store.nodes, store.nodeVV
    ensures store.Backends() == Accept(store.meta.zero, old(store.Backends()), backends)
    ensures store.Nodes() == Accept(store.nodes.zero, old(store.Nodes()), nodes)
  {
    if |backends.entries| > 0 {
      var entries := FromSyncEntries(backends.entries, store.meta.zero);
      store.MergeBackendDelta(entries, backends.vv);
    }
    if |nodes.entries| > 0 {
      var entries := FromSyncEntries(nodes.entries, store.nodes.zero);
      store.MergeNodeDelta(entries, nodes.vv);
    }
  }

  /** handleSyncStream: the whole of both tables, whatever the request asked for. */
  method AnswerSync<M>(store: Store<M>)
    returns (backends: Response<BackendBody>, nodes: Response<NodeBody>)
    ensures Lists(store.Backends().items, store.meta.zero, backends.entries) && backends.vv == store.Backends().vv
    ensures Lists(store.Nodes().items, store.nodes.zero, nodes.entries) && nodes.vv == store.Nodes().vv
  {
    var metaEntries := ToSyncEntries(store.meta.items, store.meta.zero);
    var nodeEntries := ToSyncEntries(store.nodes.items, store.nodes.zero);
    backends := Response(metaEntries, store.metaVV.vv);
    nodes := Response(nodeEntries, store.nodeVV.vv);
  }

  // A network of empty tables with no pull under way.
  ghost function Fresh<P>(n: nat): (start: Net<P>)
    ensures |start.tables| == n && forall i :: 0 <= i < n ==> start.tables[i] == Table(map[], map[])
    ensures start.inbox == map[]
  {
    Net(seq(n, i => Table(map[], map[])), map[])
  }

  /** Whatever was sent, what arrives has the zero value in its tombstones. */
  lemma {:induction false} ArrivesZeroed<P>(entries: seq<SyncEntry<P>>, zero: Announcement<P>)
    ensures ZeroTombs(FromSync(entries, zero), zero)
  {
    if entries != [] { ArrivesZeroed(entries[..|entries| - 1], zero); }
  }

  lemma ReceiveIsMerge<P>(w: World<P>, t: Table<P>, r: Response<P>)
    ensures Accept(w.zero, t, r).items == Merged(t.items, FromSync(r.entries, w.zero))
  {
    assert r.entries == [] ==> Merged(t.items, FromSync(r.entries, w.zero)) == t.items;
  }

  /** One pull: the puller ends with exactly the join of both states, and its version vector takes
      every counter of the other side exactly when some entry was accepted, ties included. */
  lemma OnePull<P>(w: World<P>, s: Net<P>, from: nat, to: nat, order: seq<string>)
    requires from < |s.tables| && to < |s.tables| && from != to && to !in s.inbox
    requires ZeroTombs(s.tables[from].items, w.zero) && Enumerates(order, s.tables[from].items)
    ensures var s' := Next(w, Next(w, s, Answer(from, to, order)), Receive(to));
            var (t, f) := (s.tables[to], s.tables[from]);
            && s'.tables[to].items == Merged(t.items, f.items)
            && s'.tables[to].vv == (if AcceptsAny(t, f.items) then BumpedAll(t.vv, f.vv) else t.vv)
            && (forall r :: 0 <= r < |s.tables| && r != to ==> s'.tables[r] == s.tables[r])
            && s'.inbox == s.inbox
  {
    var f := s.tables[from];
    var s1 := Next(w, s, Answer(from, to, order));
    SyncRoundTrip(f.items, order, w.zero);
    assert s1.inbox[to] == AnswerOf(w, f, order);
    PullMerges(w, s.tables[to], f, order);
  }

  /** Receiving the answer of `f`, which lists all of it. */
  lemma PullMerges<P>(w: World<P>, t: Table<P>, f: Table<P>, order: seq<string>)
    requires ZeroTombs(f.items, w.zero) && Enumerates(order, f.items)
    ensures Accept(w.zero, t, AnswerOf(w, f, order)) == MergeDelta(t, f.items, f.vv)
  {
    var r := AnswerOf(w, f, order);
    SyncRoundTrip(f.items, order, w.zero);
    ReceiveIsMerge(w, t, r);
    if r.entries == [] {
      assert f.items == map[];
    }
  }
}
