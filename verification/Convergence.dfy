/** What every run of the gossip network converges to. The reference is the set of updates that
    have reached a replica, directly or inside other replicas' responses. */
module Convergence {
  import Options
  import opened Lww
  import opened VersionVectors
  import opened Registry
  import opened Gossip

  ghost function Reached<P>(w: World<P>, start: Net<P>, run: Run<P>, r: nat): set<Update<string, Announcement<P>>>
    requires r < |start.tables|
    decreases run, 1
  {
    match run
    case Begin => Updates(start.tables[r].items)
    case Then(before, step) =>
      var us := Reached(w, start, before, r);
      if step.at != r then us
      else match step
        case Deliver(_, a) => if Genuine(w.crypto, a) then us + {Update(a.id, EntryOf(a))} else us
        case Delete(_, id, clock) => us + {Update(id, Entry(w.zero, clock, true))}
        case Receive(_) => us + Carried(w, start, before, r)
        case _ => us
  }

  /** What had reached the answering replica when the response now waiting for `r` was sent. */
  ghost function Carried<P>(w: World<P>, start: Net<P>, run: Run<P>, r: nat): set<Update<string, Announcement<P>>>
    decreases run, 0
  {
    match run
    case Begin => if r in start.inbox then Updates(FromSync(start.inbox[r].entries, w.zero)) else {}
    case Then(before, step) =>
      if Answers(Exec(w, start, before), step) && step.to == r then Reached(w, start, before, step.at)
      else if (step.Receive? || step.Lose?) && step.at == r < |start.tables| then {}
      else Carried(w, start, before, r)
  }

  ghost predicate CleanStart<P>(w: World<P>, start: Net<P>) {
    forall r :: 0 <= r < |start.tables| ==> ZeroTombs(start.tables[r].items, w.zero)
  }

  lemma {:induction false} TombsStayZero<P>(w: World<P>, start: Net<P>, run: Run<P>)
    requires CleanStart(w, start)
    ensures forall r :: 0 <= r < |start.tables| ==> ZeroTombs(Exec(w, start, run).tables[r].items, w.zero)
  {
    hide ToSync, FromSync, Enumerates, BumpedAll, Bumped, AcceptsAny, Genuine;
    if run.Then? {
      TombsStayZero(w, start, run.before);
      var s := Exec(w, start, run.before);
      if run.step.Receive? && run.step.at < |start.tables| && run.step.at in s.inbox {
        ReceiveIsMerge(w, s.tables[run.step.at], s.inbox[run.step.at]);
        ArrivesZeroed(s.inbox[run.step.at].entries, w.zero);
      }
    }
  }

  lemma {:induction false} NothingCarried<P>(w: World<P>, start: Net<P>, run: Run<P>, r: nat)
    requires r < |start.tables| && r !in Exec(w, start, run).inbox
    ensures Carried(w, start, run, r) == {}
  {
    if run.Then? && !((run.step.Receive? || run.step.Lose?) && run.step.at == r) {
      NothingCarried(w, start, run.before, r);
    }
  }

  /** In every run without pruning each replica holds, for each key, a maximum-clock update among
      those that have reached it, and so does each waiting response among those it carries. */
  lemma {:induction false} LatestWins<P>(w: World<P>, start: Net<P>, run: Run<P>)
    requires CleanStart(w, start) && NoPrune(run)
    ensures forall r :: 0 <= r < |start.tables| ==>
            IsLatest(Exec(w, start, run).tables[r].items, Reached(w, start, run, r))
    ensures forall r :: r in Exec(w, start, run).inbox ==>
              IsLatest(FromSync(Exec(w, start, run).inbox[r].entries, w.zero), Carried(w, start, run, r))
  {
    match run
    case Begin =>
    case Then(before, step) =>
      LatestWins(w, start, before);
      hide IsLatest, ToSync, FromSync;
      var s, s' := Exec(w, start, before), Exec(w, start, run);
      forall r | 0 <= r < |start.tables| ensures IsLatest(s'.tables[r].items, Reached(w, start, run, r)) {
        if step.at == r { StepKeepsLatest(w, start, before, step); }
      }
      forall r | r in s'.inbox
        ensures IsLatest(FromSync(s'.inbox[r].entries, w.zero), Carried(w, start, run, r))
      {
        if Answers(s, step) && step.to == r {
          TombsStayZero(w, start, before);
          SyncRoundTrip(s.tables[step.at].items, step.order, w.zero);
        }
      }
  }

  /** Written out: the pair of counter and time that a replica holds for a key is lexicographically at
      least that of every update of the key that has reached it, and is one of theirs. */
  lemma LatestInOrder<P>(w: World<P>, start: Net<P>, run: Run<P>, r: nat)
    requires CleanStart(w, start) && NoPrune(run) && r < |start.tables|
    ensures var (items, us) := (Exec(w, start, run).tables[r].items, Reached(w, start, run, r));
            && (forall k :: k in items ==> Update(k, items[k]) in us)
            && (forall u :: u in us ==> u.key in items)
            && (forall u :: u in us ==>
                  var held := items[u.key].clock;
                  held.lamport > u.entry.clock.lamport ||
                  (held.lamport == u.entry.clock.lamport && held.unixNano >= u.entry.clock.unixNano))
  {
    LatestWins(w, start, run);
    var (items, us) := (Exec(w, start, run).tables[r].items, Reached(w, start, run, r));
    assert IsLatest(items, us);
    hide Exec, Reached;
    forall u | u in us ensures u.key in items {
      OrderIsLexicographic(items[u.key].clock, u.entry.clock);
    }
  }

  lemma StepKeepsLatest<P>(w: World<P>, start: Net<P>, before: Run<P>, step: Step<P>)
    requires step.at < |start.tables| && !step.Prune?
    requires var (s, r) := (Exec(w, start, before), step.at);
             && IsLatest(s.tables[r].items, Reached(w, start, before, r))
             && (r in s.inbox ==> IsLatest(FromSync(s.inbox[r].entries, w.zero), Carried(w, start, before, r)))
    ensures var run := Then(before, step);
            IsLatest(Exec(w, start, run).tables[step.at].items, Reached(w, start, run, step.at))
  {
    var s := Exec(w, start, before);
    var items, us := s.tables[step.at].items, Reached(w, start, before, step.at);
    match step
    case Deliver(_, a) => PutIsLatest(items, us, a.id, EntryOf(a));
    case Delete(_, id, clock) => PutIsLatest(items, us, id, Entry(w.zero, clock, true));
    case Answer(_, _, _) =>
    case Lose(_) =>
    case Receive(at) =>
      if at in s.inbox {
        ReceiveIsMerge(w, s.tables[at], s.inbox[at]);
        MergedIsLatest(items, us, FromSync(s.inbox[at].entries, w.zero), Carried(w, start, before, at));
      } else {
        NothingCarried(w, start, before, at);
      }
  }

  /** Replicas reached by the same updates are equal, when no key has two updates of maximum clock. */
  lemma Converges<P>(w: World<P>, start: Net<P>, run: Run<P>, q: nat, r: nat)
    requires CleanStart(w, start) && NoPrune(run) && q < |start.tables| && r < |start.tables|
    requires Reached(w, start, run, q) == Reached(w, start, run, r)
    requires TopTieFree(Reached(w, start, run, q))
    ensures Exec(w, start, run).tables[q].items == Exec(w, start, run).tables[r].items
  {
    LatestWins(w, start, run);
    LatestIsUnique(Exec(w, start, run).tables[q].items, Exec(w, start, run).tables[r].items, Reached(w, start, run, q));
  }

  ghost function Crossed<P>(a: Announcement<P>, b: Announcement<P>): Run<P> {
    Then(Then(Then(Then(Begin, Deliver(0, a)), Deliver(0, b)), Deliver(1, b)), Deliver(1, a))
  }

  lemma CrossedStates<P>(w: World<P>, a: Announcement<P>, b: Announcement<P>)
    requires Genuine(w.crypto, a) && Genuine(w.crypto, b)
    requires a.id == b.id && ClockOf(a) == ClockOf(b)
    ensures Exec(w, Fresh(2), Crossed(a, b)).tables[0].items == map[a.id := EntryOf(b)]
    ensures Exec(w, Fresh(2), Crossed(a, b)).tables[1].items == map[a.id := EntryOf(a)]
  {
    var start := Fresh<P>(2);
    var r1 := Then(Begin, Deliver(0, a));
    var r2 := Then(r1, Deliver(0, b));
    var r3 := Then(r2, Deliver(1, b));
    var s0 := Exec(w, start, Begin);
    var s1 := Next(w, s0, Deliver(0, a));
    assert s1.tables[0].items == map[a.id := EntryOf(a)] && s1.tables[1].items == map[];
    var s2 := Next(w, s1, Deliver(0, b));
    assert s2.tables[0].items == map[a.id := EntryOf(b)] && s2.tables[1].items == map[];
    var s3 := Next(w, s2, Deliver(1, b));
    assert s3.tables[1].items == map[a.id := EntryOf(b)];
    assert Exec(w, start, r1) == s1 && Exec(w, start, r2) == s2 && Exec(w, start, r3) == s3;
    var s4 := Next(w, s3, Deliver(1, a));
    assert Exec(w, start, Crossed(a, b)) == s4;
  }

  lemma CrossedReach<P>(w: World<P>, a: Announcement<P>, b: Announcement<P>)
    requires Genuine(w.crypto, a) && Genuine(w.crypto, b)
    ensures Reached(w, Fresh(2), Crossed(a, b), 0) == Reached(w, Fresh(2), Crossed(a, b), 1)
  {
    var start := Fresh<P>(2);
    var u, v := Update(a.id, EntryOf(a)), Update(b.id, EntryOf(b));
    var r1 := Then(Begin, Deliver(0, a));
    var r2 := Then(r1, Deliver(0, b));
    var r3 := Then(r2, Deliver(1, b));
    assert Reached(w, start, Begin, 0) == {} == Reached(w, start, Begin, 1);
    assert Reached(w, start, r1, 0) == {u} && Reached(w, start, r1, 1) == {};
    assert Reached(w, start, r2, 0) == {u, v} && Reached(w, start, r2, 1) == {};
    assert Reached(w, start, r3, 0) == {u, v} && Reached(w, start, r3, 1) == {v};
  }

  /** The hypothesis is needed: any two announcements that tie and differ, delivered to two replicas
      in opposite orders, leave them different though reached by the same updates. */
  lemma TiesDiverge<P>(w: World<P>, a: Announcement<P>, b: Announcement<P>)
    requires Genuine(w.crypto, a) && Genuine(w.crypto, b)
    requires a.id == b.id && ClockOf(a) == ClockOf(b) && a != b
    ensures CleanStart(w, Fresh(2)) && NoPrune(Crossed(a, b))
    ensures Reached(w, Fresh(2), Crossed(a, b), 0) == Reached(w, Fresh(2), Crossed(a, b), 1)
    ensures Exec(w, Fresh(2), Crossed(a, b)).tables[0].items != Exec(w, Fresh(2), Crossed(a, b)).tables[1].items
  {
    CrossedStates(w, a, b);
    CrossedReach(w, a, b);
    assert map[a.id := EntryOf(a)][a.id] != map[a.id := EntryOf(b)][a.id];
    assert NoPrune(Crossed(a, b).before.before);
  }

  /** Such ties happen: a node that restarts its counter and advertises something else within the
      same second. */
  lemma TiesHappen() returns (w: World<NodeBody>, a: Announcement<NodeBody>, b: Announcement<NodeBody>)
    ensures Genuine(w.crypto, a) && Genuine(w.crypto, b)
    ensures a.id == b.id && ClockOf(a) == ClockOf(b) && a != b
    ensures Exec(w, Fresh(2), Crossed(a, b)).tables[0].items != Exec(w, Fresh(2), Crossed(a, b)).tables[1].items
  {
    var body := NodeBody(false, [], "", "");
    var key := seq(PUBLIC_KEY_SIZE, i => 0);
    a := Announcement("edge", 1, 1_700_000_000, key, [], body);
    b := a.(body := body.(nsServing := true));
    w := World(Crypto(x => Options.Some([]), (k, m, s) => true), 1, a);
    assert |a.key| == PUBLIC_KEY_SIZE;
    TiesDiverge(w, a, b);
  }

  // ----- Anti-entropy -----

  /** Where a run starts from: the table of a replica, or the response waiting for one. */
  datatype Source = Held(at: nat) | InFlight(to: nat)

  /** The sources whose initial state has come to `r` through a time-ordered chain of pulls. */
  ghost function Sources<P>(w: World<P>, start: Net<P>, run: Run<P>, r: nat): set<Source>
    requires r < |start.tables|
    decreases run, 1
  {
    match run
    case Begin => {Held(r)}
    case Then(before, step) =>
      var qs := Sources(w, start, before, r);
      if step.Receive? && step.at == r then qs + SourcesIn(w, start, before, r) else qs
  }

  ghost function SourcesIn<P>(w: World<P>, start: Net<P>, run: Run<P>, r: nat): set<Source>
    decreases run, 0
  {
    match run
    case Begin => if r in start.inbox then {InFlight(r)} else {}
    case Then(before, step) =>
      if Answers(Exec(w, start, before), step) && step.to == r then Sources(w, start, before, step.at)
      else if (step.Receive? || step.Lose?) && step.at == r < |start.tables| then {}
      else SourcesIn(w, start, before, r)
  }

  ghost function UpdatesAt<P>(w: World<P>, start: Net<P>, q: Source): set<Update<string, Announcement<P>>> {
    match q
    case Held(at) => if at < |start.tables| then Updates(start.tables[at].items) else {}
    case InFlight(to) => if to in start.inbox then Updates(FromSync(start.inbox[to].entries, w.zero)) else {}
  }

  ghost function UpdatesOf<P>(w: World<P>, start: Net<P>, qs: set<Source>): set<Update<string, Announcement<P>>> {
    set q, u | q in qs && u in UpdatesAt(w, start, q) :: u
  }

  /** Every replica. */
  ghost function Everyone(n: nat): (qs: set<Source>)
    ensures forall q :: q in qs <==> q.Held? && q.at < n
  {
    if n == 0 then {} else Everyone(n - 1) + {Held(n - 1)}
  }

  /** Every replica and every waiting response. */
  ghost function Everything<P>(start: Net<P>): set<Source> {
    Everyone(|start.tables|) + set r | r in start.inbox :: InFlight(r)
  }

  /** The join of all the tables. */
  ghost function JoinOf<P>(tables: seq<Table<P>>): Records<P> {
    if tables == [] then map[] else Merged(JoinOf(tables[..|tables| - 1]), tables[|tables| - 1].items)
  }

  lemma {:induction false} ReachedFromSources<P>(w: World<P>, start: Net<P>, run: Run<P>)
    requires PullsOnly(run)
    ensures NoPrune(run)
    ensures forall r :: 0 <= r < |start.tables| ==>
              Reached(w, start, run, r) == UpdatesOf(w, start, Sources(w, start, run, r))
    ensures forall r: nat :: Carried(w, start, run, r) == UpdatesOf(w, start, SourcesIn(w, start, run, r))
  {
    match run
    case Begin =>
      forall r | 0 <= r < |start.tables| ensures Reached(w, start, run, r) == UpdatesOf(w, start, {Held(r)}) {
        UpdatesOfOne(w, start, Held(r));
      }
      forall r: nat ensures Carried(w, start, run, r) == UpdatesOf(w, start, SourcesIn(w, start, run, r)) {
        UpdatesOfOne(w, start, InFlight(r));
      }
    case Then(before, step) =>
      ReachedFromSources(w, start, before);
      hide UpdatesOf;
      NoUpdates(w, start);
      forall r | 0 <= r < |start.tables|
        ensures Reached(w, start, run, r) == UpdatesOf(w, start, Sources(w, start, run, r))
      {
        UnionOfUpdates(w, start, Sources(w, start, before, r), SourcesIn(w, start, before, r));
      }
  }

  lemma NoUpdates<P>(w: World<P>, start: Net<P>)
    ensures UpdatesOf(w, start, {}) == {}
  {
  }

  lemma UpdatesOfOne<P>(w: World<P>, start: Net<P>, q: Source)
    ensures UpdatesOf(w, start, {q}) == UpdatesAt(w, start, q)
  {
  }

  lemma UnionOfUpdates<P>(w: World<P>, start: Net<P>, a: set<Source>, b: set<Source>)
    ensures UpdatesOf(w, start, a + b) == UpdatesOf(w, start, a) + UpdatesOf(w, start, b)
  {
  }

  lemma {:induction false} SourcesWithin<P>(w: World<P>, start: Net<P>, run: Run<P>)
    ensures forall r :: 0 <= r < |start.tables| ==> Sources(w, start, run, r) <= Everything(start)
    ensures forall r: nat :: SourcesIn(w, start, run, r) <= Everything(start)
  {
    if run.Then? { SourcesWithin(w, start, run.before); }
  }

  lemma {:induction false} JoinIsLatest<P>(w: World<P>, start: Net<P>)
    ensures IsLatest(JoinOf(start.tables), UpdatesOf(w, start, Everyone(|start.tables|)))
  {
    JoinOfFirst(w, start, |start.tables|);
    assert start.tables[..|start.tables|] == start.tables;
  }

  lemma {:induction false} JoinOfFirst<P>(w: World<P>, start: Net<P>, n: nat)
    requires n <= |start.tables|
    ensures IsLatest(JoinOf(start.tables[..n]), UpdatesOf(w, start, Everyone(n)))
  {
    if n > 0 {
      var us, init, last := UpdatesOf(w, start, Everyone(n - 1)), start.tables[..n - 1], start.tables[n - 1].items;
      JoinOfFirst(w, start, n - 1);
      MergedIsLatest(JoinOf(init), us, last, Updates(last));
      UnionOfUpdates(w, start, Everyone(n - 1), {Held(n - 1)});
      UpdatesOfOne(w, start, Held(n - 1));
      assert Everyone(n) == Everyone(n - 1) + {Held(n - 1)};
      assert start.tables[..n][..n - 1] == init && start.tables[..n][n - 1].items == last;
    }
  }

  /** What waits at the start is no newer than the tables: some replica has, for each entry, one whose
      clock is not smaller. It holds of every state the code reaches. */
  ghost predicate NothingNewWaits<P>(w: World<P>, start: Net<P>) {
    forall r, k :: r in start.inbox && k in FromSync(start.inbox[r].entries, w.zero) ==>
      HeldSomewhere(start, k, FromSync(start.inbox[r].entries, w.zero)[k].clock)
  }

  ghost predicate HeldSomewhere<P>(s: Net<P>, key: string, clock: Clock) {
    exists q :: 0 <= q < |s.tables| && key in s.tables[q].items && Dominates(s.tables[q].items[key].clock, clock)
  }

  /** The waiting responses add nothing to the tables' updates. */
  lemma TablesCoverEverything<P>(w: World<P>, start: Net<P>, m: Records<P>, qs: set<Source>)
    requires NothingNewWaits(w, start) && Everyone(|start.tables|) <= qs <= Everything(start)
    requires IsLatest(m, UpdatesOf(w, start, qs))
    ensures IsLatest(m, UpdatesOf(w, start, Everything(start)))
  {
    var us, vs := UpdatesOf(w, start, qs), UpdatesOf(w, start, Everything(start));
    forall v | v in vs ensures Beaten(us, v) {
      var q :| q in Everything(start) && v in UpdatesAt(w, start, q);
      if q.InFlight? {
        assert HeldSomewhere(start, v.key, v.entry.clock);
        var p :| 0 <= p < |start.tables| && v.key in start.tables[p].items
                 && Dominates(start.tables[p].items[v.key].clock, v.entry.clock);
        var u := Update(v.key, start.tables[p].items[v.key]);
        assert Held(p) in qs && u in UpdatesAt(w, start, Held(p));
      } else {
        assert q in qs;
      }
    }
    LatestOfMore(m, us, vs);
  }

  /** Once a time-ordered chain of pulls links every replica to `r`, `r` equals the join of the
      initial tables, whatever became of the pulls under way at the start. */
  lemma AntiEntropyComplete<P>(w: World<P>, start: Net<P>, run: Run<P>, r: nat)
    requires CleanStart(w, start) && NothingNewWaits(w, start) && PullsOnly(run) && r < |start.tables|
    requires TopTieFree(UpdatesOf(w, start, Everything(start)))
    requires Sources(w, start, run, r) >= Everyone(|start.tables|)
    ensures Exec(w, start, run).tables[r].items == JoinOf(start.tables)
  {
    ReachedFromSources(w, start, run);
    SourcesWithin(w, start, run);
    LatestWins(w, start, run);
    JoinIsLatest(w, start);
    hide IsLatest, UpdatesOf, Everything, TopTieFree, Exec, NothingNewWaits;
    var items := Exec(w, start, run).tables[r].items;
    TablesCoverEverything(w, start, items, Sources(w, start, run, r));
    EveryoneIsPart(start);
    TablesCoverEverything(w, start, JoinOf(start.tables), Everyone(|start.tables|));
    LatestIsUnique(items, JoinOf(start.tables), UpdatesOf(w, start, Everything(start)));
  }

  lemma EveryoneIsPart<P>(start: Net<P>)
    ensures Everyone(|start.tables|) <= Everything(start)
  {
  }

  ghost predicate Extends<P>(longer: Run<P>, shorter: Run<P>) {
    longer == shorter || (longer.Then? && Extends(longer.before, shorter))
  }

  lemma {:induction false} SourcesGrow<P>(w: World<P>, start: Net<P>, longer: Run<P>, shorter: Run<P>, r: nat)
    requires Extends(longer, shorter) && r < |start.tables|
    ensures Sources(w, start, longer, r) >= Sources(w, start, shorter, r)
  {
    if longer != shorter { SourcesGrow(w, start, longer.before, shorter, r); }
  }

  /** Once every replica is linked to every other, all are equal and no later exchange of state
      changes any of them. */
  lemma AntiEntropyIsFinal<P>(w: World<P>, start: Net<P>, run: Run<P>, later: Run<P>)
    requires CleanStart(w, start) && NothingNewWaits(w, start) && PullsOnly(later) && Extends(later, run)
    requires TopTieFree(UpdatesOf(w, start, Everything(start)))
    requires forall r :: 0 <= r < |start.tables| ==> Sources(w, start, run, r) >= Everyone(|start.tables|)
    ensures forall r :: 0 <= r < |start.tables| ==>
              Exec(w, start, later).tables[r].items == Exec(w, start, run).tables[r].items == JoinOf(start.tables)
  {
    PrefixPullsOnly(later, run);
    forall r | 0 <= r < |start.tables|
      ensures Exec(w, start, later).tables[r].items == Exec(w, start, run).tables[r].items == JoinOf(start.tables)
    {
      SourcesGrow(w, start, later, run, r);
      AntiEntropyComplete(w, start, run, r);
      AntiEntropyComplete(w, start, later, r);
    }
  }

  lemma {:induction false} PrefixPullsOnly<P>(longer: Run<P>, shorter: Run<P>)
    requires Extends(longer, shorter) && PullsOnly(longer)
    ensures PullsOnly(shorter)
  {
    if longer != shorter { PrefixPullsOnly(longer.before, shorter); }
  }
}
