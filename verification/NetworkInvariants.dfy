/** What holds at every replica, and in every response still to be merged, after every run of the network,
    pruning included. */
module NetworkInvariants {
  import opened Options
  import opened Lww
  import opened VersionVectors
  import opened Registry
  import opened Gossip
  import opened Convergence

  // ----- Well-formedness -----

  /** Some replica verified `a`'s signature and applied it during the run. */
  ghost predicate AppliedIn<P>(w: World<P>, n: nat, run: Run<P>, a: Announcement<P>) {
    run.Then? &&
    ((run.step.Deliver? && run.step.at < n && run.step.announcement == a && Genuine(w.crypto, a)) ||
     AppliedIn(w, n, run.before, a))
  }

  ghost predicate WellFormed<P>(w: World<P>, n: nat, run: Run<P>, items: Records<P>) {
    forall k :: k in items ==>
      if items[k].tombstone then items[k].value == w.zero
      else
        var a := items[k].value;
        a.id == k && items[k].clock == ClockOf(a) && AppliedIn(w, n, run, a)
  }

  ghost predicate AllWellFormed<P>(w: World<P>, n: nat, run: Run<P>, s: Net<P>) {
    && (forall r :: 0 <= r < |s.tables| ==> WellFormed(w, n, run, s.tables[r].items))
    && (forall r :: r in s.inbox ==> WellFormed(w, n, run, FromSync(s.inbox[r].entries, w.zero)))
  }

  lemma {:induction false} NetworkWellFormed<P>(w: World<P>, n: nat, run: Run<P>)
    ensures AllWellFormed(w, n, run, Exec(w, Fresh(n), run))
  {
    if run.Then? {
      NetworkWellFormed(w, n, run.before);
      var s, s', step := Exec(w, Fresh(n), run.before), Exec(w, Fresh(n), run), run.step;
      forall r | 0 <= r < n ensures WellFormed(w, n, run, s'.tables[r].items) {
        WellFormedGrows(w, n, run, s.tables[r].items);
        if step.at == r && step.Receive? && r in s.inbox {
          ReceiveIsMerge(w, s.tables[r], s.inbox[r]);
          WellFormedGrows(w, n, run, FromSync(s.inbox[r].entries, w.zero));
        }
      }
      forall r | r in s'.inbox ensures WellFormed(w, n, run, FromSync(s'.inbox[r].entries, w.zero)) {
        if r in s.inbox {
          WellFormedGrows(w, n, run, FromSync(s.inbox[r].entries, w.zero));
        } else {
          SyncRoundTrip(s.tables[step.at].items, step.order, w.zero);
          WellFormedGrows(w, n, run, s.tables[step.at].items);
        }
      }
    }
  }

  lemma WellFormedGrows<P>(w: World<P>, n: nat, run: Run<P>, items: Records<P>)
    requires run.Then? && WellFormed(w, n, run.before, items)
    ensures WellFormed(w, n, run, items)
  {
  }

  /** Some replica received this very announcement with a 32-byte key, an encoding, and a signature
      that verifies for both. */
  ghost predicate SignedDelivery<P>(w: World<P>, n: nat, run: Run<P>, a: Announcement<P>) {
    run.Then? &&
    ((run.step.Deliver? && run.step.at < n && run.step.announcement == a &&
      |a.key| == 32 && w.crypto.encode(a).Some? && w.crypto.verify(a.key, w.crypto.encode(a).value, a.sig)) ||
     SignedDelivery(w, n, run.before, a))
  }

  /** A live entry is under its value's ID, has the clock of its value's own counter and second, and
      was delivered with a signature that verifies. */
  ghost predicate Authentic<P>(w: World<P>, n: nat, run: Run<P>, items: Records<P>) {
    forall k :: k in items && !items[k].tombstone ==>
      var (a, clock) := (items[k].value, items[k].clock);
      && a.id == k && clock.lamport == a.clock && clock.unixNano == WrapInt64(a.atUnix * 1_000_000_000)
      && SignedDelivery(w, n, run, a)
  }

  lemma {:induction false} AppliedWasSigned<P>(w: World<P>, n: nat, run: Run<P>, a: Announcement<P>)
    requires AppliedIn(w, n, run, a)
    ensures SignedDelivery(w, n, run, a)
  {
    RefusalExactly(w.crypto, a);
    hide Genuine;
    if !(run.step.Deliver? && run.step.at < n && run.step.announcement == a && Genuine(w.crypto, a)) {
      AppliedWasSigned(w, n, run.before, a);
    }
  }

  lemma WellFormedIsAuthentic<P>(w: World<P>, n: nat, run: Run<P>, items: Records<P>)
    requires WellFormed(w, n, run, items)
    ensures Authentic(w, n, run, items)
  {
    forall k | k in items && !items[k].tombstone ensures SignedDelivery(w, n, run, items[k].value) {
      AppliedWasSigned(w, n, run, items[k].value);
    }
  }

  /** On every run, whatever is live at a replica or in a waiting response was announced by the holder
      of its key: no forged, altered or unsigned announcement is ever held or passed on. */
  lemma LiveEntriesAreSigned<P>(w: World<P>, n: nat, run: Run<P>)
    ensures var s := Exec(w, Fresh(n), run);
            && (forall r :: 0 <= r < n ==> Authentic(w, n, run, s.tables[r].items))
            && (forall r :: r in s.inbox ==> Authentic(w, n, run, FromSync(s.inbox[r].entries, w.zero)))
  {
    NetworkWellFormed(w, n, run);
    var s := Exec(w, Fresh(n), run);
    forall r | 0 <= r < n ensures Authentic(w, n, run, s.tables[r].items) {
      WellFormedIsAuthentic(w, n, run, s.tables[r].items);
    }
    forall r | r in s.inbox ensures Authentic(w, n, run, FromSync(s.inbox[r].entries, w.zero)) {
      WellFormedIsAuthentic(w, n, run, FromSync(s.inbox[r].entries, w.zero));
    }
  }

  /** Conversely a signed announcement whose clock is not smaller than the one held is held after its
      delivery, with its counter in the vector, and any other delivery changes nothing. */
  lemma SignedIsHeld<P>(w: World<P>, s: Net<P>, at: nat, a: Announcement<P>)
    requires at < |s.tables|
    ensures var (t, s') := (s.tables[at], Next(w, s, Deliver(at, a)));
            var nano := WrapInt64(a.atUnix * 1_000_000_000);
            var verified := |a.key| == 32 && w.crypto.encode(a).Some? &&
                            w.crypto.verify(a.key, w.crypto.encode(a).value, a.sig);
            var newer := a.id !in t.items || a.clock > t.items[a.id].clock.lamport ||
                         (a.clock == t.items[a.id].clock.lamport && nano >= t.items[a.id].clock.unixNano);
            if verified && newer
            then s'.tables[at].items == t.items[a.id := Entry(a, Clock(a.clock, nano), false)] &&
                 At(s'.tables[at].vv, a.id) >= a.clock
            else s' == s
  {
    ApplyExactly(w.crypto, s.tables[at], a);
    hide Apply;
    assert s.tables[at := s.tables[at]] == s.tables;
  }

  /** Hence sync entries lose nothing: on every reachable map, in any order, there and back is the
      identity. */
  lemma ReachableRoundTrip<P>(w: World<P>, n: nat, run: Run<P>, r: nat, order: seq<string>)
    requires r < n && Enumerates(order, Exec(w, Fresh(n), run).tables[r].items)
    ensures var items := Exec(w, Fresh(n), run).tables[r].items;
            FromSync(ToSync(items, order, w.zero), w.zero) == items
  {
    NetworkWellFormed(w, n, run);
    SyncRoundTrip(Exec(w, Fresh(n), run).tables[r].items, order, w.zero);
  }

  // ----- Version vectors -----

  /** Some replica accepted an announcement of `id` with this counter during the run. */
  ghost predicate CountedIn<P>(w: World<P>, n: nat, run: Run<P>, id: string, counter: nat) {
    run.Then? &&
    ((run.step.Deliver? && run.step.at < n && Genuine(w.crypto, run.step.announcement) &&
      run.step.announcement.id == id && run.step.announcement.clock == counter &&
      Accepts(Exec(w, Fresh(n), run.before).tables[run.step.at].items, id, ClockOf(run.step.announcement))) ||
     CountedIn(w, n, run.before, id, counter))
  }

  /** The vector is at least the Lamport clock of each live entry, and each component is a counter
      accepted somewhere. */
  ghost predicate VectorSound<P>(w: World<P>, n: nat, run: Run<P>, items: Records<P>, vv: Vector) {
    && (forall k :: k in items && !items[k].tombstone ==> k in vv && vv[k] >= items[k].clock.lamport)
    && (forall k :: k in vv ==> CountedIn(w, n, run, k, vv[k]))
  }

  ghost predicate AllVectorsSound<P>(w: World<P>, n: nat, run: Run<P>, s: Net<P>) {
    && (forall r :: 0 <= r < |s.tables| ==> VectorSound(w, n, run, s.tables[r].items, s.tables[r].vv))
    && (forall r :: r in s.inbox ==> VectorSound(w, n, run, FromSync(s.inbox[r].entries, w.zero), s.inbox[r].vv))
  }

  lemma {:induction false} VersionVectorsSound<P>(w: World<P>, n: nat, run: Run<P>)
    ensures AllVectorsSound(w, n, run, Exec(w, Fresh(n), run))
  {
    if run.Then? {
      VersionVectorsSound(w, n, run.before);
      var s, s', step := Exec(w, Fresh(n), run.before), Exec(w, Fresh(n), run), run.step;
      forall r | 0 <= r < n ensures VectorSound(w, n, run, s'.tables[r].items, s'.tables[r].vv) {
        VectorSoundGrows(w, n, run, s.tables[r].items, s.tables[r].vv);
        if step.at == r { TableStaysSound(w, n, run, r); }
      }
      forall r | r in s'.inbox
        ensures VectorSound(w, n, run, FromSync(s'.inbox[r].entries, w.zero), s'.inbox[r].vv)
      {
        if r in s.inbox {
          VectorSoundGrows(w, n, run, FromSync(s.inbox[r].entries, w.zero), s.inbox[r].vv);
        } else {
          NetworkWellFormed(w, n, run.before);
          SyncRoundTrip(s.tables[step.at].items, step.order, w.zero);
          VectorSoundGrows(w, n, run, s.tables[step.at].items, s.tables[step.at].vv);
        }
      }
    }
  }

  lemma TableStaysSound<P>(w: World<P>, n: nat, run: Run<P>, r: nat)
    requires run.Then? && r < n && run.step.at == r && AllVectorsSound(w, n, run.before, Exec(w, Fresh(n), run.before))
    ensures VectorSound(w, n, run, Exec(w, Fresh(n), run).tables[r].items, Exec(w, Fresh(n), run).tables[r].vv)
  {
    var s := Exec(w, Fresh(n), run.before);
    VectorSoundGrows(w, n, run, s.tables[r].items, s.tables[r].vv);
    if run.step.Receive? && r in s.inbox {
      var response := s.inbox[r];
      VectorSoundGrows(w, n, run, FromSync(response.entries, w.zero), response.vv);
      ReceiveKeepsVectorSound(w, n, run, s.tables[r], response);
    }
  }

  lemma VectorSoundGrows<P>(w: World<P>, n: nat, run: Run<P>, items: Records<P>, vv: Vector)
    requires run.Then? && VectorSound(w, n, run.before, items, vv)
    ensures VectorSound(w, n, run, items, vv)
  {
  }

  lemma ReceiveKeepsVectorSound<P>(w: World<P>, n: nat, run: Run<P>, t: Table<P>, r: Response<P>)
    requires VectorSound(w, n, run, t.items, t.vv)
    requires VectorSound(w, n, run, FromSync(r.entries, w.zero), r.vv)
    ensures VectorSound(w, n, run, Accept(w.zero, t, r).items, Accept(w.zero, t, r).vv)
  {
    var got := FromSync(r.entries, w.zero);
    if r.entries != [] && !AcceptsAny(t, got) {
      assert Merged(t.items, got) == t.items;
    }
  }

  /** No component of any replica's vector ever shrinks or disappears. */
  lemma {:induction false} VersionVectorsGrow<P>(w: World<P>, start: Net<P>, longer: Run<P>, shorter: Run<P>, r: nat)
    requires Extends(longer, shorter) && r < |start.tables|
    ensures GrowsTo(Exec(w, start, shorter).tables[r].vv, Exec(w, start, longer).tables[r].vv)
  {
    if longer != shorter {
      VersionVectorsGrow(w, start, longer.before, shorter, r);
      StepGrows(w, Exec(w, start, longer.before), longer.step, r);
      hide Next;
    }
  }

  lemma StepGrows<P>(w: World<P>, s: Net<P>, step: Step<P>, r: nat)
    requires r < |s.tables|
    ensures GrowsTo(s.tables[r].vv, Next(w, s, step).tables[r].vv)
  {
    hide FromSync, ToSync, Merged, Cleaned, Put, Genuine, AcceptsAny;
  }

  // ----- Vectors without deletions -----

  /** The store never deletes. */
  ghost predicate NoDelete<P>(run: Run<P>) {
    run.Then? ==> !run.step.Delete? && NoDelete(run.before)
  }

  function Lamports<P>(items: Records<P>): Vector {
    map k | k in items :: items[k].clock.lamport
  }

  ghost predicate NoTombs<P>(items: Records<P>) {
    forall k :: k in items ==> !items[k].tombstone
  }

  ghost predicate Matched<P>(items: Records<P>, vv: Vector) {
    vv == Lamports(items)
  }

  lemma ApplyKeepsMatch<P>(c: Crypto<P>, t: Table<P>, a: Announcement<P>)
    requires Matched(t.items, t.vv)
    ensures Matched(Apply(c, t, a).items, Apply(c, t, a).vv)
    ensures NoTombs(t.items) ==> NoTombs(Apply(c, t, a).items)
  {
  }

  /** The greater clock has the greater Lamport counter, so joining entries joins the counters, and
      an answer with nothing new has no greater counter either. */
  lemma MergeKeepsMatch<P>(t: Table<P>, got: Records<P>, vv: Vector)
    requires Matched(t.items, t.vv) && Matched(got, vv)
    ensures var t' := MergeDelta(t, got, vv); Matched(t'.items, t'.vv)
    ensures NoTombs(t.items) && NoTombs(got) ==> NoTombs(MergeDelta(t, got, vv).items)
  {
    if !AcceptsAny(t, got) { assert Merged(t.items, got) == t.items; }
  }

  lemma PruneKeepsLive<P>(items: Records<P>, ttl: int, now: int)
    requires NoTombs(items)
    ensures Cleaned(items, ttl, now) == items
  {
  }

  ghost predicate MatchedLive<P>(items: Records<P>, vv: Vector) {
    Matched(items, vv) && NoTombs(items)
  }

  ghost predicate AllMatchedLive<P>(w: World<P>, s: Net<P>) {
    && (forall r :: 0 <= r < |s.tables| ==> MatchedLive(s.tables[r].items, s.tables[r].vv))
    && (forall r :: r in s.inbox ==> MatchedLive(FromSync(s.inbox[r].entries, w.zero), s.inbox[r].vv))
  }

  /** On every run of the code, pruning included, a version vector is exactly the Lamport counters of
      its table's entries, at every replica and in every waiting response. */
  lemma {:induction false} VectorsAreLamports<P>(w: World<P>, n: nat, run: Run<P>)
    requires NoDelete(run)
    ensures AllMatchedLive(w, Exec(w, Fresh(n), run))
  {
    if run.Then? {
      VectorsAreLamports(w, n, run.before);
      StepKeepsMatch(w, Exec(w, Fresh(n), run.before), run.step);
    } else {
      FreshMatches(w, n);
    }
  }

  lemma StepKeepsMatch<P>(w: World<P>, s: Net<P>, step: Step<P>)
    requires AllMatchedLive(w, s) && !step.Delete?
    ensures AllMatchedLive(w, Next(w, s, step))
  {
    hide Matched, NoTombs, Apply, Cleaned, FromSync, ToSync, MergeDelta;
    if step.at < |s.tables| {
      var t := s.tables[step.at];
      assert MatchedLive(t.items, t.vv);
      match step
      case Deliver(_, a) => ApplyKeepsMatch(w.crypto, t, a);
      case Answer(_, _, order) => if Answers(s, step) { AnswerKeepsMatch(w, t, order); }
      case Receive(at) =>
        if at in s.inbox {
          assert MatchedLive(FromSync(s.inbox[at].entries, w.zero), s.inbox[at].vv);
          AcceptKeepsMatch(w, t, s.inbox[at]);
        }
      case Prune(_, now) => PruneKeepsLive(t.items, w.ttl, now);
      case Lose(_) =>
    }
  }

  lemma FreshMatches<P>(w: World<P>, n: nat)
    ensures AllMatchedLive(w, Exec(w, Fresh(n), Begin))
  {
  }

  lemma AnswerKeepsMatch<P>(w: World<P>, t: Table<P>, order: seq<string>)
    requires Enumerates(order, t.items) && Matched(t.items, t.vv) && NoTombs(t.items)
    ensures var got := FromSync(AnswerOf(w, t, order).entries, w.zero);
            Matched(got, AnswerOf(w, t, order).vv) && NoTombs(got)
  {
    SyncRoundTrip(t.items, order, w.zero);
  }

  lemma AcceptKeepsMatch<P>(w: World<P>, t: Table<P>, r: Response<P>)
    requires Matched(t.items, t.vv) && Matched(FromSync(r.entries, w.zero), r.vv)
    ensures var t' := Accept(w.zero, t, r);
            Matched(t'.items, t'.vv) && (NoTombs(t.items) && NoTombs(FromSync(r.entries, w.zero)) ==> NoTombs(t'.items))
  {
    MergeKeepsMatch(t, FromSync(r.entries, w.zero), r.vv);
  }

  // ----- Deleted keys -----

  ghost predicate Live<P>(items: Records<P>, id: string) {
    Lookup(items, id).Some?
  }

  /** A live copy of `id` exists at some replica or in a response that is still to be merged. */
  ghost predicate LiveSomewhere<P>(w: World<P>, s: Net<P>, id: string) {
    || (exists r :: 0 <= r < |s.tables| && Live(s.tables[r].items, id))
    || (exists r :: r in s.inbox && r < |s.tables| && Live(FromSync(s.inbox[r].entries, w.zero), id))
  }

  /** The step applies an announcement of `id`: genuine, and not refused for its clock. */
  ghost predicate Announces<P>(w: World<P>, s: Net<P>, step: Step<P>, id: string) {
    && step.Deliver? && step.at < |s.tables| && step.announcement.id == id
    && Genuine(w.crypto, step.announcement) && Accepts(s.tables[step.at].items, id, ClockOf(step.announcement))
  }

  /** `longer` continues `shorter` without applying any announcement of `id`; refused ones may come. */
  ghost predicate QuietSince<P>(w: World<P>, start: Net<P>, longer: Run<P>, shorter: Run<P>, id: string) {
    longer == shorter ||
    (longer.Then? && QuietSince(w, start, longer.before, shorter, id) &&
     !Announces(w, Exec(w, start, longer.before), longer.step, id))
  }

  lemma {:induction false} DeadStaysDead<P>(w: World<P>, start: Net<P>, run: Run<P>, later: Run<P>, id: string)
    requires QuietSince(w, start, later, run, id)
    requires !LiveSomewhere(w, Exec(w, start, run), id)
    ensures !LiveSomewhere(w, Exec(w, start, later), id)
  {
    hide Next, LiveSomewhere, Announces;
    if later != run {
      DeadStaysDead(w, start, run, later.before, id);
      StepKeepsAllDead(w, Exec(w, start, later.before), later.step, id);
    }
  }

  lemma StepKeepsAllDead<P>(w: World<P>, s: Net<P>, step: Step<P>, id: string)
    requires !LiveSomewhere(w, s, id) && !Announces(w, s, step, id)
    ensures !LiveSomewhere(w, Next(w, s, step), id)
  {
    hide FromSync, ToSync, Apply, Cleaned, Put, Accept, Genuine;
    var s' := Next(w, s, step);
    forall r | 0 <= r < |s'.tables| ensures !Live(s'.tables[r].items, id) {
      if step.at == r { StepKeepsDead(w, s, step, id); }
    }
    forall r | r in s'.inbox && r < |s'.tables| ensures !Live(FromSync(s'.inbox[r].entries, w.zero), id) {
      if r !in s.inbox { SyncCarries(s.tables[step.at].items, step.order, w.zero); }
    }
  }

  lemma StepKeepsDead<P>(w: World<P>, s: Net<P>, step: Step<P>, id: string)
    requires step.at < |s.tables| && !LiveSomewhere(w, s, id) && !Announces(w, s, step, id)
    ensures !Live(Next(w, s, step).tables[step.at].items, id)
  {
    if step.Receive? && step.at in s.inbox {
      ReceiveIsMerge(w, s.tables[step.at], s.inbox[step.at]);
    }
    if step.Prune? { CleanupKeepsReads(s.tables[step.at].items, w.ttl, step.now, id); }
  }

  /** Announcing is the only other way back, and it works exactly for a genuine announcement whose
      clock is not refused. Once a replica has pruned its tombstone no clock is refused any more, so
      a duplicate of an announcement made before the deletion brings the key back there. */
  lemma AnnouncedBackIff<P>(w: World<P>, s: Net<P>, r: nat, a: Announcement<P>, now: int)
    requires r < |s.tables| && !Live(s.tables[r].items, a.id)
    ensures var items := s.tables[r].items;
            && (Live(Next(w, s, Deliver(r, a)).tables[r].items, a.id) <==>
                  Genuine(w.crypto, a) && (a.id in items ==> Dominates(ClockOf(a), items[a.id].clock)))
            && (Live(Next(w, Next(w, s, Prune(r, now)), Deliver(r, a)).tables[r].items, a.id) <==>
                  Genuine(w.crypto, a) &&
                  (a.id in items && !(w.ttl > 0 && items[a.id].clock.unixNano <= now - w.ttl) ==>
                     Dominates(ClockOf(a), items[a.id].clock)))
  {
    hide Genuine;
    CleanupKeepsReads(s.tables[r].items, w.ttl, now, a.id);
  }

  // ----- Tombstones that are still there -----

  /** None of `keepers` prunes, and what is delivered of `id`, anywhere, is older than `clock`. The
      other replicas may prune. */
  ghost predicate OnlyOldNews<P>(longer: Run<P>, shorter: Run<P>, keepers: set<nat>, id: string, clock: Clock) {
    longer == shorter ||
    (longer.Then? && OnlyOldNews(longer.before, shorter, keepers, id, clock) &&
        OldNews(longer.step, keepers, id, clock))
  }

  ghost predicate OldNews<P>(step: Step<P>, keepers: set<nat>, id: string, clock: Clock) {
    && (step.Prune? ==> step.at !in keepers)
    && (step.Deliver? && step.announcement.id == id ==> !Dominates(ClockOf(step.announcement), clock))
  }

  ghost predicate Buries<P>(items: Records<P>, id: string, clock: Clock) {
    id in items && items[id].tombstone && Dominates(items[id].clock, clock)
  }

  ghost predicate NoneNewer<P>(items: Records<P>, id: string, clock: Clock) {
    Live(items, id) ==> !Dominates(items[id].clock, clock)
  }

  /** Each of `keepers` has buried `id` at `clock` or later, and every live copy, at another replica or
      in a waiting response, is older than `clock`. The deletion need not have reached everyone. */
  ghost predicate Kept<P>(w: World<P>, s: Net<P>, keepers: set<nat>, id: string, clock: Clock) {
    && (forall r :: r in keepers ==> r < |s.tables| && Buries(s.tables[r].items, id, clock))
    && (forall r :: 0 <= r < |s.tables| ==> NoneNewer(s.tables[r].items, id, clock))
    && (forall r :: r in s.inbox ==> NoneNewer(FromSync(s.inbox[r].entries, w.zero), id, clock))
  }

  lemma MergeKeepsOld<P>(items: Records<P>, got: Records<P>, id: string, clock: Clock)
    requires NoneNewer(items, id, clock) && NoneNewer(got, id, clock)
    ensures NoneNewer(Merged(items, got), id, clock)
    ensures Buries(items, id, clock) ==> Buries(Merged(items, got), id, clock)
  {
  }

  lemma StepKeepsTable<P>(w: World<P>, s: Net<P>, step: Step<P>, keepers: set<nat>, id: string, clock: Clock)
    requires Kept(w, s, keepers, id, clock) && OldNews(step, keepers, id, clock) && step.at < |s.tables|
    ensures var (items, items') := (s.tables[step.at].items, Next(w, s, step).tables[step.at].items);
            NoneNewer(items', id, clock) && (step.at in keepers ==> Buries(items', id, clock))
  {
    hide FromSync, ToSync, Genuine, Enumerates;
    assert NoneNewer(s.tables[step.at].items, id, clock);
    if step.Receive? && step.at in s.inbox {
      ReceiveIsMerge(w, s.tables[step.at], s.inbox[step.at]);
      MergeKeepsOld(s.tables[step.at].items, FromSync(s.inbox[step.at].entries, w.zero), id, clock);
    }
  }

  lemma StepKeepsKept<P>(w: World<P>, s: Net<P>, step: Step<P>, keepers: set<nat>, id: string, clock: Clock)
    requires Kept(w, s, keepers, id, clock) && OldNews(step, keepers, id, clock)
    ensures Kept(w, Next(w, s, step), keepers, id, clock)
  {
    hide FromSync, ToSync, Apply, Cleaned, Put, Accept, Buries, NoneNewer, OldNews;
    if step.at < |s.tables| {
      StepKeepsTable(w, s, step, keepers, id, clock);
      if Answers(s, step) { AnswerKeepsOld(w, s.tables[step.at], step.order, id, clock); }
    }
  }

  lemma AnswerKeepsOld<P>(w: World<P>, t: Table<P>, order: seq<string>, id: string, clock: Clock)
    requires Enumerates(order, t.items) && NoneNewer(t.items, id, clock)
    ensures NoneNewer(FromSync(AnswerOf(w, t, order).entries, w.zero), id, clock)
  {
    hide FromSync, ToSync;
    SyncCarries(t.items, order, w.zero);
  }

  /** A tombstone that has not been pruned holds: while everything live elsewhere is older than the
      deletion, no announcements from before it and no pulls, in any order and number, bring the key
      back at a replica that keeps its tombstone, whatever the others prune. */
  lemma {:induction false} TombstonesHold<P>(
    w: World<P>, start: Net<P>, run: Run<P>, later: Run<P>, keepers: set<nat>, id: string, clock: Clock)
    requires OnlyOldNews(later, run, keepers, id, clock) && Kept(w, Exec(w, start, run), keepers, id, clock)
    ensures Kept(w, Exec(w, start, later), keepers, id, clock)
    ensures forall r :: r in keepers ==>
              r < |start.tables| && !Live(Exec(w, start, later).tables[r].items, id)
  {
    hide Next;
    if later != run {
      TombstonesHold(w, start, run, later.before, keepers, id, clock);
      StepKeepsKept(w, Exec(w, start, later.before), later.step, keepers, id, clock);
    }
  }

  /** If every replica keeps its tombstone and no live copy is left, the key never returns anywhere. */
  lemma {:induction false} AllTombstonesHold<P>(
    w: World<P>, start: Net<P>, run: Run<P>, later: Run<P>, keepers: set<nat>, id: string, clock: Clock)
    requires OnlyOldNews(later, run, keepers, id, clock) && Kept(w, Exec(w, start, run), keepers, id, clock)
    requires forall r :: 0 <= r < |start.tables| ==> r in keepers
    requires !LiveSomewhere(w, Exec(w, start, run), id)
    ensures QuietSince(w, start, later, run, id) && !LiveSomewhere(w, Exec(w, start, later), id)
  {
    if later != run {
      AllTombstonesHold(w, start, run, later.before, keepers, id, clock);
      TombstonesHold(w, start, run, later.before, keepers, id, clock);
      hide Next;
      DeadStaysDead(w, start, run, later, id);
    }
  }

  // ----- How a key comes back -----

  /** What `longer` delivers of `id` after `shorter` is in `news`, any of it any number of times. */
  ghost predicate NewsOnly<P>(longer: Run<P>, shorter: Run<P>, id: string, news: set<Announcement<P>>) {
    longer == shorter ||
    (longer.Then? && NewsOnly(longer.before, shorter, id, news) &&
     (longer.step.Deliver? && longer.step.announcement.id == id ==> longer.step.announcement in news))
  }

  lemma {:induction false} NewsTransitive<P>(a: Run<P>, b: Run<P>, c: Run<P>, id: string, news: set<Announcement<P>>)
    requires NewsOnly(a, b, id, news) && NewsOnly(b, c, id, news)
    ensures NewsOnly(a, c, id, news)
  {
    if a != b { NewsTransitive(a.before, b, c, id, news); }
  }

  lemma {:induction false} MoreNews<P>(longer: Run<P>, shorter: Run<P>, id: string, few: set<Announcement<P>>,
    many: set<Announcement<P>>)
    requires NewsOnly(longer, shorter, id, few) && few <= many
    ensures NewsOnly(longer, shorter, id, many)
  {
    if longer != shorter { MoreNews(longer.before, shorter, id, few, many); }
  }

  /** News of `id` that no replica can verify applies nothing. */
  lemma {:induction false} NewsIsQuiet<P>(w: World<P>, start: Net<P>, longer: Run<P>, shorter: Run<P>, id: string,
    news: set<Announcement<P>>)
    requires NewsOnly(longer, shorter, id, news)
    requires forall a :: a in news && a.id == id ==> !Genuine(w.crypto, a)
    ensures QuietSince(w, start, longer, shorter, id)
  {
    hide Next;
    if longer != shorter { NewsIsQuiet(w, start, longer.before, shorter, id, news); }
  }

  lemma Enumeration<P>(items: Records<P>, keys: set<string>) returns (order: seq<string>)
    requires keys <= items.Keys
    ensures forall k :: k in order <==> k in keys
    ensures forall i, j :: 0 <= i < j < |order| ==> order[i] != order[j]
  {
    order := [];
    var todo := keys;
    while todo != {}
      invariant todo <= keys
      invariant forall k :: k in order <==> k in keys - todo
      invariant forall i, j :: 0 <= i < j < |order| ==> order[i] != order[j]
    {
      var k :| k in todo;
      assert k !in order;
      order := order + [k];
      todo := todo - {k};
    }
  }

  /** A live copy waiting for a replica comes back there: it prunes its tombstone, then merges. */
  lemma PruneThenReceive<P>(w: World<P>, start: Net<P>, run: Run<P>, r: nat, id: string) returns (later: Run<P>)
    requires w.ttl > 0 && r < |start.tables| && r in Exec(w, start, run).inbox
    requires Live(FromSync(Exec(w, start, run).inbox[r].entries, w.zero), id)
    ensures NewsOnly(later, run, id, {}) && Live(Exec(w, start, later).tables[r].items, id)
  {
    var s := Exec(w, start, run);
    var items := s.tables[r].items;
    if Live(items, id) {
      later := run;
    } else {
      var now := if id in items then items[id].clock.unixNano + w.ttl else 0;
      var pruned := Then(run, Prune(r, now));
      later := Then(pruned, Receive(r));
      CleanupKeepsReads(items, w.ttl, now, id);
      ReceiveIsMerge(w, Exec(w, start, pruned).tables[r], s.inbox[r]);
      assert NewsOnly(pruned, run, id, {});
    }
  }

  lemma AnswerCarries<P>(w: World<P>, s: Net<P>, q: nat, r: nat, order: seq<string>, id: string)
    requires q < |s.tables| && r < |s.tables| && q != r && r !in s.inbox
    requires Enumerates(order, s.tables[q].items) && Live(s.tables[q].items, id)
    ensures var s' := Next(w, s, Answer(q, r, order));
            r in s'.inbox && Live(FromSync(s'.inbox[r].entries, w.zero), id)
  {
    hide ToSync, FromSync;
    SyncCarries(s.tables[q].items, order, w.zero);
  }

  /** A replica gives up the pull it has under way and pulls a live copy from another. */
  lemma PullLive<P>(w: World<P>, start: Net<P>, run: Run<P>, q: nat, r: nat, id: string) returns (answered: Run<P>)
    requires q < |start.tables| && r < |start.tables| && q != r && Live(Exec(w, start, run).tables[q].items, id)
    ensures NewsOnly(answered, run, id, {})
    ensures var s' := Exec(w, start, answered); r in s'.inbox && Live(FromSync(s'.inbox[r].entries, w.zero), id)
  {
    hide FromSync, Live;
    var idle := Then(run, Lose(r));
    var s := Exec(w, start, idle);
    assert s.tables == Exec(w, start, run).tables && r !in s.inbox;
    var order := Enumeration(s.tables[q].items, s.tables[q].items.Keys);
    answered := Then(idle, Answer(q, r, order));
    AnswerCarries(w, s, q, r, order, id);
    assert NewsOnly(idle, run, id, {});
  }

  lemma Resurrection<P>(w: World<P>, start: Net<P>, run: Run<P>, r: nat, id: string) returns (later: Run<P>)
    requires w.ttl > 0 && r < |start.tables| && LiveSomewhere(w, Exec(w, start, run), id)
    ensures NewsOnly(later, run, id, {}) && Live(Exec(w, start, later).tables[r].items, id)
  {
    hide Next, FromSync, Live, Exec;
    var s := Exec(w, start, run);
    var q: nat;
    var held := run;
    if i: nat :| i in s.inbox && i < |s.tables| && Live(FromSync(s.inbox[i].entries, w.zero), id) {
      q := i;
      held := PruneThenReceive(w, start, run, q, id);
    } else {
      var i :| 0 <= i < |s.tables| && Live(s.tables[i].items, id);
      q := i;
    }
    if q == r {
      later := held;
    } else {
      var answered := PullLive(w, start, held, q, r, id);
      later := PruneThenReceive(w, start, answered, r, id);
      NewsTransitive(later, answered, held, id, {});
      NewsTransitive(later, held, run, id, {});
    }
  }

  /** Some continuation brings `id` back to life at `r` without announcing it again. */
  ghost predicate CanReturn<P(!new)>(w: World<P>, start: Net<P>, run: Run<P>, r: nat, id: string)
    requires r < |start.tables|
  {
    exists later: Run<P> :: QuietSince(w, start, later, run, id) && Live(Exec(w, start, later).tables[r].items, id)
  }

  /** A key can come back at a replica exactly when a live copy remains at some replica or in a
      response still to be merged. Pruning a tombstone before that is unsafe; afterwards it is safe
      under every interleaving that applies no announcement of the key. */
  lemma ReturnsIffLiveSomewhere<P(!new)>(w: World<P>, start: Net<P>, run: Run<P>, r: nat, id: string)
    requires w.ttl > 0 && r < |start.tables|
    ensures LiveSomewhere(w, Exec(w, start, run), id) <==> CanReturn(w, start, run, r, id)
  {
    if LiveSomewhere(w, Exec(w, start, run), id) {
      var later := Resurrection(w, start, run, r, id);
      NewsIsQuiet(w, start, later, run, id, {});
      assert CanReturn(w, start, run, r, id);
    } else if CanReturn(w, start, run, r, id) {
      var later: Run<P> :| QuietSince(w, start, later, run, id) && Live(Exec(w, start, later).tables[r].items, id);
      DeadStaysDead(w, start, run, later, id);
      assert false;
    }
  }

  /** Some continuation that delivers nothing of `id` but what is in `news` brings it back. */
  ghost predicate CanReturnWith<P(!new)>(w: World<P>, start: Net<P>, run: Run<P>, r: nat, id: string,
    news: set<Announcement<P>>)
    requires r < |start.tables|
  {
    exists later: Run<P> :: NewsOnly(later, run, id, news) && Live(Exec(w, start, later).tables[r].items, id)
  }

  /** With announcements still on their way, a key can come back exactly when a live copy remains or
      one of them is genuine, however old: pruning also forgets what an old announcement lost to. */
  lemma ReturnsIffLiveOrNews<P(!new)>(w: World<P>, start: Net<P>, run: Run<P>, r: nat, id: string,
    news: set<Announcement<P>>)
    requires w.ttl > 0 && r < |start.tables|
    ensures CanReturnWith(w, start, run, r, id, news) <==>
              LiveSomewhere(w, Exec(w, start, run), id) || exists a :: a in news && a.id == id && Genuine(w.crypto, a)
  {
    if LiveSomewhere(w, Exec(w, start, run), id) {
      var later := Resurrection(w, start, run, r, id);
      MoreNews(later, run, id, {}, news);
      assert CanReturnWith(w, start, run, r, id, news);
    } else if a :| a in news && a.id == id && Genuine(w.crypto, a) {
      var later := PruneThenDeliver(w, start, run, r, a, news);
      assert CanReturnWith(w, start, run, r, id, news);
    } else if CanReturnWith(w, start, run, r, id, news) {
      var later: Run<P> :| NewsOnly(later, run, id, news) && Live(Exec(w, start, later).tables[r].items, id);
      NewsIsQuiet(w, start, later, run, id, news);
      DeadStaysDead(w, start, run, later, id);
      assert false;
    }
  }

  lemma PruneThenDeliver<P>(w: World<P>, start: Net<P>, run: Run<P>, r: nat, a: Announcement<P>,
    news: set<Announcement<P>>)
    returns (later: Run<P>)
    requires w.ttl > 0 && r < |start.tables| && a in news && Genuine(w.crypto, a)
    ensures NewsOnly(later, run, a.id, news) && Live(Exec(w, start, later).tables[r].items, a.id)
  {
    hide Genuine, Next, Live;
    var s := Exec(w, start, run);
    var items := s.tables[r].items;
    if Live(items, a.id) {
      later := run;
    } else {
      var now := if a.id in items then items[a.id].clock.unixNano + w.ttl else 0;
      var pruned := Then(run, Prune(r, now));
      later := Then(pruned, Deliver(r, a));
      assert NewsOnly(pruned, run, a.id, news);
      AnnouncedBackIff(w, s, r, a, now);
      assert Exec(w, start, later) == Next(w, Next(w, s, Prune(r, now)), Deliver(r, a));
    }
  }
}
