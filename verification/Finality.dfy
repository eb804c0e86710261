/** When the exchange of state is over for good, version vectors included. */
module Finality {
  import opened Lww
  import opened VersionVectors
  import opened Registry
  import opened Gossip
  import opened Convergence
  import opened NetworkInvariants

  /** A time-ordered chain of pulls has linked every replica to every other. */
  ghost predicate Linked<P>(w: World<P>, start: Net<P>, run: Run<P>) {
    forall r :: 0 <= r < |start.tables| ==> Sources(w, start, run, r) >= Everyone(|start.tables|)
  }

  /** No further exchange of state changes any replica, its version vector included. */
  ghost predicate Settled<P(!new)>(w: World<P>, start: Net<P>, run: Run<P>) {
    forall later: Run<P> :: Extends(later, run) && PullsOnly(later) ==>
      Exec(w, start, later).tables == Exec(w, start, run).tables
  }

  ghost predicate SameVectors<P>(tables: seq<Table<P>>) {
    forall q, r :: 0 <= q < |tables| && 0 <= r < |tables| ==> tables[q].vv == tables[r].vv
  }

  lemma GrowsBothWays(v: Vector, u: Vector)
    requires GrowsTo(v, u) && GrowsTo(u, v)
    ensures v == u
  {
  }

  /** A join changes nothing exactly when the other side has nothing greater. */
  lemma JoinUnchangedIff(v: Vector, u: Vector)
    ensures BumpedAll(v, u) == v <==> GrowsTo(u, v)
  {
    if BumpedAll(v, u) == v {
      forall n | n in u ensures n in v && u[n] <= v[n] { assert n in BumpedAll(v, u); }
    }
  }

  lemma GrowsTransitive(u: Vector, v: Vector, x: Vector)
    requires GrowsTo(u, v) && GrowsTo(v, x)
    ensures GrowsTo(u, x)
  {
  }

  /** The vector of every waiting response is covered by some replica's. */
  ghost predicate Covered<P>(s: Net<P>) {
    forall r :: r in s.inbox ==> exists q :: 0 <= q < |s.tables| && GrowsTo(s.inbox[r].vv, s.tables[q].vv)
  }

  lemma {:induction false} ResponsesCovered<P>(w: World<P>, start: Net<P>, run: Run<P>)
    requires Covered(start)
    ensures Covered(Exec(w, start, run))
  {
    if run.Then? {
      ResponsesCovered(w, start, run.before);
      var s, s' := Exec(w, start, run.before), Exec(w, start, run);
      forall r | r in s'.inbox ensures exists q :: 0 <= q < |s'.tables| && GrowsTo(s'.inbox[r].vv, s'.tables[q].vv) {
        if r in s.inbox {
          var q :| 0 <= q < |s.tables| && GrowsTo(s.inbox[r].vv, s.tables[q].vv);
          StepGrows(w, s, run.step, q);
          InboxStays(w, s, run.step, r);
          hide Next;
          GrowsTransitive(s.inbox[r].vv, s.tables[q].vv, s'.tables[q].vv);
        } else {
          assert GrowsTo(s'.inbox[r].vv, s'.tables[run.step.at].vv);
        }
      }
    }
  }

  /** Without deletions nothing is pruned, so the clock held for a key never falls. */
  lemma StepKeepsHeld<P>(w: World<P>, s: Net<P>, step: Step<P>, key: string, clock: Clock)
    requires HeldSomewhere(s, key, clock) && AllMatchedLive(w, s) && !step.Delete?
    ensures HeldSomewhere(Next(w, s, step), key, clock)
  {
    var q :| 0 <= q < |s.tables| && key in s.tables[q].items && Dominates(s.tables[q].items[key].clock, clock);
    var items := s.tables[q].items;
    assert MatchedLive(items, s.tables[q].vv);
    hide FromSync, ToSync, Enumerates, Genuine;
    if step.at == q && step.Receive? && q in s.inbox { ReceiveIsMerge(w, s.tables[q], s.inbox[q]); }
    if step.at == q && step.Prune? { PruneKeepsLive(items, w.ttl, step.now); }
    assert key in Next(w, s, step).tables[q].items;
    assert Dominates(Next(w, s, step).tables[q].items[key].clock, clock);
  }

  /** On every run of the code no waiting response is newer than the tables. */
  lemma {:induction false} NothingNewEverWaits<P>(w: World<P>, n: nat, run: Run<P>)
    requires NoDelete(run)
    ensures NothingNewWaits(w, Exec(w, Fresh(n), run))
  {
    if run.Then? {
      NothingNewEverWaits(w, n, run.before);
      VectorsAreLamports(w, n, run.before);
      var s, s', step := Exec(w, Fresh(n), run.before), Exec(w, Fresh(n), run), run.step;
      hide FromSync, ToSync, AllMatchedLive, HeldSomewhere, Matched, Enumerates;
      forall r, k | r in s'.inbox && k in FromSync(s'.inbox[r].entries, w.zero)
        ensures HeldSomewhere(s', k, FromSync(s'.inbox[r].entries, w.zero)[k].clock)
      {
        if r in s.inbox {
          InboxStays(w, s, step, r);
          StepKeepsHeld(w, s, step, k, FromSync(s.inbox[r].entries, w.zero)[k].clock);
        } else {
          AnswerIsHeld(w, s, step, k);
        }
      }
    }
  }

  lemma AnswerIsHeld<P>(w: World<P>, s: Net<P>, step: Step<P>, key: string)
    requires Answers(s, step)
    requires key in FromSync(AnswerOf(w, s.tables[step.at], step.order).entries, w.zero)
    ensures var got := FromSync(AnswerOf(w, s.tables[step.at], step.order).entries, w.zero);
            HeldSomewhere(Next(w, s, step), key, got[key].clock)
  {
    hide FromSync, ToSync;
    SyncCarries(s.tables[step.at].items, step.order, w.zero);
    assert Next(w, s, step).tables[step.at] == s.tables[step.at];
  }

  lemma InboxStays<P>(w: World<P>, s: Net<P>, step: Step<P>, r: nat)
    requires r in s.inbox && r in Next(w, s, step).inbox
    ensures Next(w, s, step).inbox[r] == s.inbox[r]
  {
  }

  /** Under equal entries a pull still joins the vectors, because ties are accepted. */
  lemma SameItemsAccepted<P>(t: Table<P>, f: Table<P>)
    requires t.items == f.items != map[]
    ensures AcceptsAny(t, f.items)
  {
    var k :| k in f.items;
    assert Accepts(t.items, k, f.items[k].clock);
  }

  /** The step of a linked network that could change a vector. */
  lemma LinkedReceive<P>(w: World<P>, t: Table<P>, r: Response<P>)
    requires Accept(w.zero, t, r).items == t.items
    requires t.items == map[] || GrowsTo(r.vv, t.vv)
    ensures Accept(w.zero, t, r) == t
  {
    var got := FromSync(r.entries, w.zero);
    ReceiveIsMerge(w, t, r);
    if t.items == map[] {
      assert got == map[] by {
        if k :| k in got { assert k in Merged(t.items, got); }
      }
    } else {
      JoinUnchangedIff(t.vv, r.vv);
    }
  }

  lemma {:induction false} EqualVectorsSettle<P>(w: World<P>, start: Net<P>, run: Run<P>, later: Run<P>)
    requires CleanStart(w, start) && NothingNewWaits(w, start) && Covered(start)
    requires PullsOnly(later) && Extends(later, run)
    requires TopTieFree(UpdatesOf(w, start, Everything(start))) && Linked(w, start, run)
    requires JoinOf(start.tables) == map[] || SameVectors(Exec(w, start, run).tables)
    ensures Exec(w, start, later).tables == Exec(w, start, run).tables
  {
    if later != run {
      EqualVectorsSettle(w, start, run, later.before);
      var s, s' := Exec(w, start, later.before), Exec(w, start, later);
      AntiEntropyIsFinal(w, start, run, later.before);
      AntiEntropyIsFinal(w, start, run, later);
      ResponsesCovered(w, start, later.before);
      assert s' == Next(w, s, later.step);
      hide *;
      SettledStep(w, s, later.step, JoinOf(start.tables));
    }
  }

  lemma SettledStep<P>(w: World<P>, s: Net<P>, step: Step<P>, join: Records<P>)
    requires (step.Answer? || step.Receive? || step.Lose?) && Covered(s)
    requires forall r :: 0 <= r < |s.tables| ==> s.tables[r].items == join && Next(w, s, step).tables[r].items == join
    requires join == map[] || SameVectors(s.tables)
    ensures Next(w, s, step).tables == s.tables
  {
    hide Accept, GrowsTo;
    var at := step.at;
    if step.Receive? && at < |s.tables| && at in s.inbox {
      var q :| 0 <= q < |s.tables| && GrowsTo(s.inbox[at].vv, s.tables[q].vv);
      assert s.tables[at].items != map[] ==> s.tables[q].vv == s.tables[at].vv;
      assert Next(w, s, step).tables[at] == Accept(w.zero, s.tables[at], s.inbox[at]);
      LinkedReceive(w, s.tables[at], s.inbox[at]);
    }
  }

  /** With unequal vectors one more pull changes one. */
  lemma UnequalVectorsMove<P>(w: World<P>, start: Net<P>, run: Run<P>, from: nat, to: nat) returns (later: Run<P>)
    requires CleanStart(w, start) && PullsOnly(run) && from < |start.tables| && to < |start.tables|
    requires var s := Exec(w, start, run);
             s.tables[from].items == s.tables[to].items != map[] && !GrowsTo(s.tables[from].vv, s.tables[to].vv)
    ensures Extends(later, run) && PullsOnly(later) && Exec(w, start, later).tables != Exec(w, start, run).tables
  {
    var idle := Then(run, Lose(to));
    var s := Exec(w, start, idle);
    assert s.tables == Exec(w, start, run).tables && to !in s.inbox;
    assert Extends(idle, run);
    var order := Enumeration(s.tables[from].items, s.tables[from].items.Keys);
    TombsStayZero(w, start, idle);
    hide Enumerates, GrowsTo;
    OnePull(w, s, from, to, order);
    SameItemsAccepted(s.tables[to], s.tables[from]);
    JoinUnchangedIff(s.tables[to].vv, s.tables[from].vv);
    var answered := Then(idle, Answer(from, to, order));
    later := Then(answered, Receive(to));
    assert Extends(answered, run) && PullsOnly(answered);
  }

  /** A linked network is settled exactly when its entries' join is empty or all version vectors are
      equal already: its entries are final in any case, but ties go on joining vectors. */
  lemma SettledIff<P(!new)>(w: World<P>, start: Net<P>, run: Run<P>)
    requires CleanStart(w, start) && NothingNewWaits(w, start) && Covered(start) && PullsOnly(run)
    requires TopTieFree(UpdatesOf(w, start, Everything(start))) && Linked(w, start, run)
    ensures Settled(w, start, run) <==> JoinOf(start.tables) == map[] || SameVectors(Exec(w, start, run).tables)
  {
    var s := Exec(w, start, run);
    if JoinOf(start.tables) == map[] || SameVectors(s.tables) {
      forall later: Run<P> | Extends(later, run) && PullsOnly(later) ensures Exec(w, start, later).tables == s.tables {
        EqualVectorsSettle(w, start, run, later);
      }
    } else {
      var q, r :| 0 <= q < |s.tables| && 0 <= r < |s.tables| && s.tables[q].vv != s.tables[r].vv;
      AntiEntropyIsFinal(w, start, run, run);
      if GrowsTo(s.tables[q].vv, s.tables[r].vv) && GrowsTo(s.tables[r].vv, s.tables[q].vv) {
        GrowsBothWays(s.tables[q].vv, s.tables[r].vv);
      }
      var (from, to) := if GrowsTo(s.tables[q].vv, s.tables[r].vv) then (r, q) else (q, r);
      var later := UnequalVectorsMove(w, start, run, from, to);
      assert !Settled(w, start, run);
    }
  }

  ghost predicate AllMatched<P>(w: World<P>, s: Net<P>) {
    && (forall r :: 0 <= r < |s.tables| ==> Matched(s.tables[r].items, s.tables[r].vv))
    && (forall r :: r in s.inbox ==> Matched(FromSync(s.inbox[r].entries, w.zero), s.inbox[r].vv))
  }

  lemma {:induction false} PullsKeepMatch<P>(w: World<P>, start: Net<P>, run: Run<P>)
    requires CleanStart(w, start) && PullsOnly(run) && AllMatched(w, start)
    ensures AllMatched(w, Exec(w, start, run))
  {
    hide Next, AllMatched, ZeroTombs;
    if run.Then? {
      PullsKeepMatch(w, start, run.before);
      TombsStayZero(w, start, run.before);
      PullKeepsMatch(w, Exec(w, start, run.before), run.step);
    }
  }

  lemma PullKeepsMatch<P>(w: World<P>, s: Net<P>, step: Step<P>)
    requires AllMatched(w, s) && (step.Answer? || step.Receive? || step.Lose?)
    requires forall r :: 0 <= r < |s.tables| ==> ZeroTombs(s.tables[r].items, w.zero)
    ensures AllMatched(w, Next(w, s, step))
  {
    hide FromSync, ToSync, ZeroTombs;
    if Answers(s, step) {
      SyncRoundTrip(s.tables[step.at].items, step.order, w.zero);
    }
    if step.Receive? && step.at < |s.tables| && step.at in s.inbox {
      AcceptKeepsMatch(w, s.tables[step.at], s.inbox[step.at]);
    }
  }

  /** After any run of the code, its pruning included, let only pulls go on, those under way at that
      moment among them. Once they have linked all replicas, every replica holds the join of all
      entries with exactly their counters, and nothing changes any more. */
  lemma WholeReplicasAgree<P(!new)>(w: World<P>, n: nat, history: Run<P>, run: Run<P>)
    requires NoDelete(history) && PullsOnly(run)
    requires var start := Exec(w, Fresh(n), history);
             TopTieFree(UpdatesOf(w, start, Everything(start))) && Linked(w, start, run)
    ensures var start := Exec(w, Fresh(n), history);
            && Settled(w, start, run)
            && Exec(w, start, run) == Exec(w, Fresh(n), Concat(history, run))
            && forall r :: 0 <= r < n ==>
                 Exec(w, start, run).tables[r] == Table(JoinOf(start.tables), Lamports(JoinOf(start.tables)))
  {
    var start := Exec(w, Fresh(n), history);
    StartIsSound(w, n, history);
    ExecConcat(w, Fresh(n), history, run);
    PullsKeepMatch(w, start, run);
    AntiEntropyIsFinal(w, start, run, run);
    hide Exec, JoinOf, Settled, CleanStart, TopTieFree, Linked, NothingNewWaits, Covered;
    forall r | 0 <= r < n
      ensures Exec(w, start, run).tables[r] == Table(JoinOf(start.tables), Lamports(JoinOf(start.tables)))
    {
      assert Matched(Exec(w, start, run).tables[r].items, Exec(w, start, run).tables[r].vv);
    }
    SettledIff(w, start, run);
  }

  ghost function Concat<P>(first: Run<P>, second: Run<P>): Run<P> {
    match second
    case Begin => first
    case Then(before, step) => Then(Concat(first, before), step)
  }

  lemma {:induction false} ExecConcat<P>(w: World<P>, start: Net<P>, first: Run<P>, second: Run<P>)
    ensures Exec(w, start, Concat(first, second)) == Exec(w, Exec(w, start, first), second)
  {
    if second.Then? { ExecConcat(w, start, first, second.before); }
  }

  /** Every state the code reaches may serve as a start. */
  lemma StartIsSound<P>(w: World<P>, n: nat, history: Run<P>)
    requires NoDelete(history)
    ensures var start := Exec(w, Fresh(n), history);
            CleanStart(w, start) && NothingNewWaits(w, start) && Covered(start) && AllMatched(w, start)
  {
    var start := Exec(w, Fresh(n), history);
    NothingNewEverWaits(w, n, history);
    ResponsesCovered(w, Fresh(n), history);
    VectorsAreLamports(w, n, history);
    hide Matched, Exec, FromSync;
    forall r | 0 <= r < n ensures ZeroTombs(start.tables[r].items, w.zero) {
      assert MatchedLive(start.tables[r].items, start.tables[r].vv);
    }
    forall r | 0 <= r < n ensures Matched(start.tables[r].items, start.tables[r].vv) {
      assert MatchedLive(start.tables[r].items, start.tables[r].vv);
    }
    forall r | r in start.inbox ensures Matched(FromSync(start.inbox[r].entries, w.zero), start.inbox[r].vv) {
      assert MatchedLive(FromSync(start.inbox[r].entries, w.zero), start.inbox[r].vv);
    }
  }
}
