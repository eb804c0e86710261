/** The breaker under every interleaving of overlapping calls. */
module BreakerRuns {
  import opened Options
  import opened CircuitBreakers

  /** A call entering, a call leaving with the generation it was admitted in, and a look at State. */
  datatype Step = Enter(now: int) | Leave(token: nat, success: bool, now: int) | Look(now: int)

  datatype Run = Begin(now: int) | Then(before: Run, step: Step)

  /** The breaker and the generations of the calls admitted and not yet reported. */
  datatype System = System(breaker: Breaker, outstanding: multiset<nat>)

  /** Leaving consumes an outstanding token: each admitted call reports once. */
  function Next(cfg: Config, s: System, step: Step): System {
    match step
    case Enter(now) =>
      var (b, a) := Enters(cfg, s.breaker, now);
      System(b, if a.Admitted? then s.outstanding + multiset{a.generation} else s.outstanding)
    case Leave(token, success, now) =>
      if token in s.outstanding
      then System(Leaves(cfg, s.breaker, token, success, now), s.outstanding - multiset{token})
      else s
    case Look(now) => s.(breaker := Current(cfg, s.breaker, now))
  }

  function Exec(cfg: Config, run: Run): System {
    match run
    case Begin(now) => System(New(cfg, now), multiset{})
    case Then(before, step) => Next(cfg, Exec(cfg, before), step)
  }

  // ----- Reference counts, read off the run -----

  function One(b: bool): nat { if b then 1 else 0 }

  function AdmittedAs(cfg: Config, s: System, step: Step): Option<nat> {
    if step.Enter? then
      match Enters(cfg, s.breaker, step.now).1
      case Admitted(g) => Some(g)
      case _ => None
    else None
  }

  predicate Reports(s: System, step: Step, token: nat, success: bool) {
    step.Leave? && step.token == token && step.success == success && token in s.outstanding
  }

  /** The calls admitted in generation `g`. */
  function AdmittedIn(cfg: Config, run: Run, g: nat): nat {
    match run
    case Begin(_) => 0
    case Then(before, step) =>
      AdmittedIn(cfg, before, g) + One(AdmittedAs(cfg, Exec(cfg, before), step) == Some(g))
  }

  /** The calls of generation `g` that have succeeded, or failed. */
  function ReportedIn(cfg: Config, run: Run, g: nat, success: bool): nat {
    match run
    case Begin(_) => 0
    case Then(before, step) =>
      ReportedIn(cfg, before, g, success) + One(Reports(Exec(cfg, before), step, g, success))
  }

  // ----- State histories -----

  predicate Legal(from: State, to: State) {
    match from
    case Closed => to == Open
    case Open => to == HalfOpen
    case HalfOpen => to != HalfOpen
  }

  /** The state generation `g` was in. */
  function Kind(log: seq<Transition>, g: nat): State
    requires g <= |log|
  {
    if g == 0 then Closed else log[g - 1].to
  }

  /** The transitions notified form one legal path from Closed. */
  ghost predicate LegalPath(log: seq<Transition>) {
    && (log != [] ==> log[0].from == Closed)
    && (forall i, j :: 0 <= i < |log| && j == i + 1 && j < |log| ==> log[j].from == log[i].to)
    && (forall i :: 0 <= i < |log| ==> Legal(log[i].from, log[i].to))
  }

  ghost predicate History(b: Breaker) {
    |b.notified| == b.generation && b.state == Kind(b.notified, b.generation) && LegalPath(b.notified)
  }

  ghost predicate Tokens(log: seq<Transition>, outstanding: multiset<nat>) {
    forall t :: t in outstanding ==> t <= |log| && Kind(log, t) != Open
  }

  lemma TransitionKeepsHistory(cfg: Config, b: Breaker, to: State, now: int, outstanding: multiset<nat>)
    requires History(b) && Legal(b.state, to) && Tokens(b.notified, outstanding)
    ensures var b' := SetState(cfg, b, to, now);
            History(b') && Tokens(b'.notified, outstanding) && b'.generation == b.generation + 1
  {
    var log, log' := b.notified, SetState(cfg, b, to, now).notified;
    assert LegalPath(log') by {
      forall i, j | 0 <= i < |log'| && j == i + 1 && j < |log'| ensures log'[j].from == log'[i].to {
        assert j < |log| ==> log[j].from == log[i].to;
      }
    }
    forall t | t in outstanding ensures t <= |log'| && Kind(log', t) != Open {
      assert Kind(log, t) != Open;
    }
  }

  lemma CurrentKeepsHistory(cfg: Config, b: Breaker, now: int, outstanding: multiset<nat>)
    requires History(b) && Tokens(b.notified, outstanding)
    ensures var c := Current(cfg, b, now);
            && History(c) && Tokens(c.notified, outstanding)
            && (c.generation == b.generation || (c.generation == b.generation + 1 && c.state == HalfOpen))
  {
    if b.state == Open && Past(b.expiry, now) { TransitionKeepsHistory(cfg, b, HalfOpen, now, outstanding); }
  }

  lemma HistoryIgnoresCounts(b: Breaker, counts: Counts)
    requires History(b)
    ensures History(b.(counts := counts))
  {
  }

  lemma TokensChange(b: Breaker, outstanding: multiset<nat>, t: nat)
    requires History(b) && Tokens(b.notified, outstanding)
    ensures b.state != Open ==> Tokens(b.notified, outstanding + multiset{b.generation})
    ensures Tokens(b.notified, outstanding - multiset{t})
  {
  }

  lemma StepKeepsHistory(cfg: Config, s: System, step: Step)
    requires History(s.breaker) && Tokens(s.breaker.notified, s.outstanding)
    ensures var s' := Next(cfg, s, step); History(s'.breaker) && Tokens(s'.breaker.notified, s'.outstanding)
  {
    hide Current, Inc, History, Tokens, SetState;
    CurrentKeepsHistory(cfg, s.breaker, step.now, s.outstanding);
    var c := Current(cfg, s.breaker, step.now);
    match step
    case Enter(_) =>
      HistoryIgnoresCounts(c, c.counts.OnRequest());
      TokensChange(c, s.outstanding, 0);
    case Leave(token, success, now) =>
      TokensChange(c, s.outstanding, token);
      var rest := s.outstanding - multiset{token};
      var d := c.(counts := if success then c.counts.OnSuccess() else c.counts.OnFailure());
      HistoryIgnoresCounts(c, d.counts);
      if Legal(d.state, Closed) { TransitionKeepsHistory(cfg, d, Closed, now, rest); }
      if Legal(d.state, Open) { TransitionKeepsHistory(cfg, d, Open, now, rest); }
    case Look(_) =>
  }

  /** Every history follows Closed, Open, HalfOpen and then Closed or Open again; the generation
      counts the transitions; no outstanding call belongs to an Open generation. */
  lemma {:induction false} HistoryLaw(cfg: Config, run: Run)
    ensures var s := Exec(cfg, run); History(s.breaker) && Tokens(s.breaker.notified, s.outstanding)
  {
    if run.Then? {
      HistoryLaw(cfg, run.before);
      StepKeepsHistory(cfg, Exec(cfg, run.before), run.step);
    }
  }

  // ----- Conservation -----

  ghost predicate Accounted(cfg: Config, run: Run, t: nat) {
    && AdmittedIn(cfg, run, t) ==
       ReportedIn(cfg, run, t, true) + ReportedIn(cfg, run, t, false) + Exec(cfg, run).outstanding[t]
    && (t > Exec(cfg, run).breaker.generation ==> AdmittedIn(cfg, run, t) == 0)
  }

  lemma GenerationGrows(cfg: Config, s: System, step: Step)
    ensures Next(cfg, s, step).breaker.generation >= s.breaker.generation
    ensures AdmittedAs(cfg, s, step).Some? ==> AdmittedAs(cfg, s, step).value == Next(cfg, s, step).breaker.generation
  {
  }

  lemma OutstandingChanges(cfg: Config, s: System, step: Step, t: nat)
    ensures Next(cfg, s, step).outstanding[t] ==
            s.outstanding[t] + One(AdmittedAs(cfg, s, step) == Some(t))
            - One(Reports(s, step, t, true)) - One(Reports(s, step, t, false))
  {
  }

  /** Every admitted call is a success, a failure, or outstanding, in each generation. */
  lemma {:induction false} AllAccounted(cfg: Config, run: Run, t: nat)
    ensures Accounted(cfg, run, t)
  {
    if run.Then? {
      AllAccounted(cfg, run.before, t);
      GenerationGrows(cfg, Exec(cfg, run.before), run.step);
      OutstandingChanges(cfg, Exec(cfg, run.before), run.step, t);
    }
  }

  ghost predicate Tallied(c: Counts, admitted: nat, succeeded: nat, failed: nat) {
    && Counts32(c.totalRequests, admitted)
    && Counts32(c.totalSuccesses, succeeded)
    && Counts32(c.totalFailures, failed)
  }

  /** A uint32 counter that has been incremented `n` times. */
  predicate Counts32(c: uint32, n: nat) {
    c == n % 4_294_967_296
  }

  lemma TallyOne(c: Counts, admitted: nat, succeeded: nat, failed: nat)
    requires Tallied(c, admitted, succeeded, failed)
    ensures Tallied(c.OnRequest(), admitted + 1, succeeded, failed)
    ensures Tallied(c.OnSuccess(), admitted, succeeded + 1, failed)
    ensures Tallied(c.OnFailure(), admitted, succeeded, failed + 1)
  {
    hide Counts32, Inc;
    IncCounts(c.totalRequests, admitted);
    IncCounts(c.totalSuccesses, succeeded);
    IncCounts(c.totalFailures, failed);
  }

  lemma IncCounts(c: uint32, n: nat)
    requires Counts32(c, n)
    ensures Counts32(Inc(c), n + 1)
  {
  }

  lemma CurrentKeepsTally(cfg: Config, b: Breaker, now: int, admitted: nat, succeeded: nat, failed: nat)
    requires Tallied(b.counts, admitted, succeeded, failed)
    ensures var c := Current(cfg, b, now);
            if c.generation == b.generation then c.state == b.state && Tallied(c.counts, admitted, succeeded, failed)
            else c.generation == b.generation + 1 && b.state == Open && Tallied(c.counts, 0, 0, 0)
  {
    assert Tallied(NO_COUNTS, 0, 0, 0);
  }

  lemma EnterKeepsTally(cfg: Config, b: Breaker, now: int, admitted: nat, succeeded: nat, failed: nat)
    requires Tallied(b.counts, admitted, succeeded, failed)
    ensures var (b', a) := Enters(cfg, b, now);
            && (a.Admitted? ==> a.generation == b'.generation)
            && if b'.generation == b.generation then Tallied(b'.counts, admitted + One(a.Admitted?), succeeded, failed)
               else b'.generation == b.generation + 1 && Tallied(b'.counts, One(a.Admitted?), 0, 0)
  {
    var c := Current(cfg, b, now);
    CurrentKeepsTally(cfg, b, now, admitted, succeeded, failed);
    hide Counts32, Inc, Current;
    if c.generation == b.generation {
      TallyOne(c.counts, admitted, succeeded, failed);
    } else {
      TallyOne(c.counts, 0, 0, 0);
    }
  }

  lemma LeaveKeepsTally(cfg: Config, b: Breaker, token: nat, ok: bool, now: int, admitted: nat, succeeded: nat,
    failed: nat)
    requires Tallied(b.counts, admitted, succeeded, failed)
    requires token <= b.generation && (b.state == Open ==> token != b.generation)
    ensures var b' := Leaves(cfg, b, token, ok, now);
            if b'.generation == b.generation then
              Tallied(b'.counts, admitted, succeeded + One(token == b.generation &&
                  ok), failed + One(token == b.generation && !ok))
            else b'.generation == b.generation + 1 && Tallied(b'.counts, 0, 0, 0)
  {
    var c := Current(cfg, b, now);
    CurrentKeepsTally(cfg, b, now, admitted, succeeded, failed);
    assert Tallied(NO_COUNTS, 0, 0, 0);
    hide Counts32, Inc, Current;
    if token == c.generation { TallyOne(c.counts, admitted, succeeded, failed); }
  }

  /** One step moves the totals exactly as it moves the run's counts, unless it begins a generation,
      which starts from zero with no call outstanding. */
  lemma StepKeepsTally(cfg: Config, s: System, step: Step, admitted: nat, succeeded: nat, failed: nat)
    requires History(s.breaker) && Tokens(s.breaker.notified, s.outstanding)
    requires Tallied(s.breaker.counts, admitted, succeeded, failed)
    ensures var b' := Next(cfg, s, step).breaker;
            var g := b'.generation;
            if g == s.breaker.generation then
              Tallied(b'.counts, admitted + One(AdmittedAs(cfg, s, step) == Some(g)),
                      succeeded + One(Reports(s, step, g, true)), failed + One(Reports(s, step, g, false)))
            else
              g == s.breaker.generation + 1 && !Reports(s, step, g, true) && !Reports(s, step, g, false) &&
              Tallied(b'.counts, One(AdmittedAs(cfg, s, step) == Some(g)), 0, 0)
  {
    hide Tallied, Enters, Leaves, Current;
    match step
    case Enter(now) => EnterKeepsTally(cfg, s.breaker, now, admitted, succeeded, failed);
    case Leave(token, ok, now) =>
      if token in s.outstanding {
        LeaveKeepsTally(cfg, s.breaker, token, ok, now, admitted, succeeded, failed);
      }
    case Look(now) => CurrentKeepsTally(cfg, s.breaker, now, admitted, succeeded, failed);
  }

  /** The totals are the run's own counts for the current generation, whatever interval rollovers
      occurred and whatever older generations reported, modulo 2^32. */
  lemma {:induction false} CountersTrackRun(cfg: Config, run: Run)
    ensures var b := Exec(cfg, run).breaker;
            Tallied(b.counts, AdmittedIn(cfg, run, b.generation),
                    ReportedIn(cfg, run, b.generation, true), ReportedIn(cfg, run, b.generation, false))
  {
    hide Next, AdmittedAs, Reports;
    if run.Then? {
      var s := Exec(cfg, run.before);
      var g, g' := s.breaker.generation, Exec(cfg, run).breaker.generation;
      CountersTrackRun(cfg, run.before);
      HistoryLaw(cfg, run.before);
      StepKeepsTally(cfg, s, run.step, AdmittedIn(cfg, run.before, g),
                     ReportedIn(cfg, run.before, g, true), ReportedIn(cfg, run.before, g, false));
      if g' != g {
        NothingYet(cfg, run.before, g');
      }
    }
  }

  lemma NothingYet(cfg: Config, run: Run, g: nat)
    requires g > Exec(cfg, run).breaker.generation
    ensures AdmittedIn(cfg, run, g) == ReportedIn(cfg, run, g, true) == ReportedIn(cfg, run, g, false) == 0
  {
    AllAccounted(cfg, run, g);
  }

  /** TotalRequests - TotalSuccesses - TotalFailures is the number of outstanding calls of the
      current generation, modulo 2^32; in an Open generation there are none. */
  lemma BreakerConservation(cfg: Config, run: Run)
    ensures var s := Exec(cfg, run);
            var (c, out) := (s.breaker.counts, s.outstanding[s.breaker.generation]);
            && (c.totalRequests - c.totalSuccesses - c.totalFailures - out) % 4_294_967_296 == 0
            && (s.breaker.state == Open ==> out == 0)
  {
    hide Next;
    var s := Exec(cfg, run);
    var g := s.breaker.generation;
    CountersTrackRun(cfg, run);
    AllAccounted(cfg, run, g);
    Difference(s.breaker.counts, AdmittedIn(cfg, run, g), ReportedIn(cfg, run, g, true), ReportedIn(cfg, run, g, false),
               s.outstanding[g]);
    HistoryLaw(cfg, run);
    assert s.breaker.state == Open ==> g !in s.outstanding;
  }

  lemma Difference(c: Counts, a: nat, s: nat, f: nat, o: nat)
    requires Tallied(c, a, s, f) && a == s + f + o
    ensures (c.totalRequests - c.totalSuccesses - c.totalFailures - o) % UINT32 == 0
  {
    var m := a / UINT32 - s / UINT32 - f / UINT32;
    assert c.totalRequests - c.totalSuccesses - c.totalFailures - o == -m * UINT32;
  }

  // ----- Half-open generations -----

  ghost predicate Probing(cfg: Config, b: Breaker, admitted: nat, succeeded: nat, failed: nat) {
    && b.state == HalfOpen && b.counts.requests == admitted <= cfg.maxRequests
    && b.counts.consecSucc == succeeded <= admitted && failed == 0
    && (succeeded < cfg.maxRequests || cfg.maxRequests == 0)
  }

  lemma EnterProbes(cfg: Config, b: Breaker, now: int, admitted: nat, succeeded: nat)
    requires Probing(cfg, b, admitted, succeeded, 0)
    ensures var (b', a) := Enters(cfg, b, now);
            && Probing(cfg, b', admitted + One(a.Admitted?), succeeded, 0)
            && b'.generation == b.generation && (a.Admitted? ==> a.generation == b.generation)
  {
  }

  lemma BeginProbing(cfg: Config, b: Breaker, now: int)
    requires b.state == Open && Current(cfg, b, now).generation != b.generation
    ensures Probing(cfg, Current(cfg, b, now), 0, 0, 0)
    ensures Current(cfg, Current(cfg, b, now), now) == Current(cfg, b, now)
  {
  }

  lemma LeaveProbes(cfg: Config, b: Breaker, token: nat, ok: bool, now: int, admitted: nat, succeeded: nat)
    requires Probing(cfg, b, admitted, succeeded, 0)
    requires token == b.generation ==> succeeded < admitted
    ensures var b' := Leaves(cfg, b, token, ok, now);
            if token != b.generation then b' == b
            else if !ok then b'.state == Open && b'.generation == b.generation + 1
            else if succeeded + 1 == cfg.maxRequests then b'.state == Closed && b'.generation == b.generation + 1
            else Probing(cfg, b', admitted, succeeded + 1, 0) && b'.generation == b.generation
  {
  }

  /** While generation `t` is half-open it has admitted at most MaxRequests calls, fewer than
      MaxRequests have succeeded and none has failed; it has closed exactly when MaxRequests of its
      calls succeeded and none failed, and has reopened exactly when one failed. */
  ghost predicate HalfOpenLaw(cfg: Config, b: Breaker, t: nat, admitted: nat, succeeded: nat, failed: nat) {
    t <= b.generation && t <= |b.notified| && Kind(b.notified, t) == HalfOpen ==>
      admitted <= cfg.maxRequests &&
      if t == b.generation then Probing(cfg, b, admitted, succeeded, failed)
      else t < |b.notified| &&
           if Kind(b.notified, t + 1) == Closed then admitted == succeeded == cfg.maxRequests && failed == 0
           else failed >= 1
  }

  lemma TransitionLog(cfg: Config, b: Breaker, to: State, now: int)
    ensures b.notified <= SetState(cfg, b, to, now).notified
  {
  }

  lemma LogGrows(cfg: Config, s: System, step: Step)
    ensures s.breaker.notified <= Next(cfg, s, step).breaker.notified
  {
    hide SetState;
    var c := Current(cfg, s.breaker, step.now);
    TransitionLog(cfg, s.breaker, HalfOpen, step.now);
    assert s.breaker.notified <= c.notified;
    if step.Leave? {
      var d := c.(counts := if step.success then c.counts.OnSuccess() else c.counts.OnFailure());
      TransitionLog(cfg, d, Closed, step.now);
      TransitionLog(cfg, d, Open, step.now);
    }
  }

  lemma SettledStays(cfg: Config, s: System, step: Step, t: nat, a: nat, x: nat, f: nat)
    requires History(s.breaker) && History(Next(cfg, s, step).breaker) && t < s.breaker.generation
    requires HalfOpenLaw(cfg, s.breaker, t, a, x, f) && a == x + f + s.outstanding[t]
    ensures AdmittedAs(cfg, s, step) != Some(t)
    ensures HalfOpenLaw(cfg, Next(cfg, s, step).breaker, t, a, x + One(Reports(s, step, t, true)),
                        f + One(Reports(s, step, t, false)))
  {
    LogGrows(cfg, s, step);
    GenerationGrows(cfg, s, step);
    hide Next, AdmittedAs, LegalPath, Probing;
    var log, log' := s.breaker.notified, Next(cfg, s, step).breaker.notified;
    assert Kind(log', t) == Kind(log, t) && Kind(log', t + 1) == Kind(log, t + 1);
  }

  lemma ProbingStep(cfg: Config, s: System, step: Step, a: nat, x: nat, f: nat)
    requires History(s.breaker) && History(Next(cfg, s, step).breaker)
    requires HalfOpenLaw(cfg, s.breaker, s.breaker.generation, a, x, f) &&
             a == x + f + s.outstanding[s.breaker.generation]
    ensures var t := s.breaker.generation;
            HalfOpenLaw(cfg, Next(cfg, s, step).breaker, t, a + One(AdmittedAs(cfg, s, step) == Some(t)),
                        x + One(Reports(s, step, t, true)), f + One(Reports(s, step, t, false)))
  {
    var t := s.breaker.generation;
    LogGrows(cfg, s, step);
    if s.breaker.state == HalfOpen {
      match step
      case Enter(now) => EnterProbes(cfg, s.breaker, now, a, x);
      case Leave(token, ok, now) =>
        if token in s.outstanding {
          LeaveProbes(cfg, s.breaker, token, ok, now, a, x);
        }
      case Look(now) =>
    } else {
      hide Next, AdmittedAs, LegalPath, Probing;
      assert Kind(Next(cfg, s, step).breaker.notified, t) == Kind(s.breaker.notified, t) != HalfOpen;
    }
  }

  lemma ProbeBegins(cfg: Config, s: System, step: Step)
    requires Current(cfg, s.breaker, step.now).generation != s.breaker.generation
    requires Current(cfg, s.breaker, step.now).generation !in s.outstanding
    requires step.Leave? ==> step.token in s.outstanding
    ensures var b' := Next(cfg, s, step).breaker;
            && b'.generation == s.breaker.generation + 1
            && Probing(cfg, b', One(AdmittedAs(cfg, s, step) == Some(b'.generation)), 0, 0)
  {
    var c := Current(cfg, s.breaker, step.now);
    BeginProbing(cfg, s.breaker, step.now);
    assert c.generation == s.breaker.generation + 1;
    hide Current;
    if step.Enter? { EnterProbes(cfg, c, step.now, 0, 0); }
  }

  lemma NoProbeBegins(cfg: Config, s: System, step: Step)
    requires Current(cfg, s.breaker, step.now).generation == s.breaker.generation ||
             (step.Leave? && step.token !in s.outstanding)
    ensures var b' := Next(cfg, s, step).breaker;
            b'.generation <= s.breaker.generation + 1 && (b'.generation > s.breaker.generation ==> b'.state != HalfOpen)
  {
    var c := Current(cfg, s.breaker, step.now);
    assert c.generation == s.breaker.generation ==> c.state == s.breaker.state;
    hide Current, Inc;
  }

  /** A step makes at most one transition, and one into HalfOpen starts a clean probe. */
  lemma FreshProbe(cfg: Config, s: System, step: Step, t: nat)
    requires History(s.breaker) && Tokens(s.breaker.notified, s.outstanding) && t > s.breaker.generation
    requires History(Next(cfg, s, step).breaker)
    ensures !Reports(s, step, t, true) && !Reports(s, step, t, false)
    ensures HalfOpenLaw(cfg, Next(cfg, s, step).breaker, t, One(AdmittedAs(cfg, s, step) == Some(t)), 0, 0)
  {
    hide Current, LegalPath, Probing, Next, AdmittedAs;
    assert forall g :: g > s.breaker.generation ==> g !in s.outstanding;
    var c := Current(cfg, s.breaker, step.now);
    if c.generation == s.breaker.generation || (step.Leave? && step.token !in s.outstanding) {
      NoProbeBegins(cfg, s, step);
    } else {
      CurrentKeepsHistory(cfg, s.breaker, step.now, s.outstanding);
      ProbeBegins(cfg, s, step);
    }
    ProbesFit(cfg, Next(cfg, s, step).breaker, One(AdmittedAs(cfg, s, step) == Some(t)));
  }

  lemma ProbesFit(cfg: Config, b: Breaker, admitted: nat)
    ensures Probing(cfg, b, admitted, 0, 0) ==> admitted <= cfg.maxRequests
  {
  }

  lemma HalfOpenAtStart(cfg: Config, run: Run, t: nat)
    ensures run.Begin? ==> HalfOpenLaw(cfg, Exec(cfg, run).breaker, t, 0, 0, 0)
  {
  }

  lemma {:induction false} HalfOpenExactness(cfg: Config, run: Run, t: nat)
    ensures HalfOpenLaw(cfg, Exec(cfg, run).breaker, t,
                        AdmittedIn(cfg, run, t), ReportedIn(cfg, run, t, true), ReportedIn(cfg, run, t, false))
  {
    hide Next, AdmittedAs, Reports, HalfOpenLaw, History, Tokens;
    HalfOpenAtStart(cfg, run, t);
    if run.Then? {
      var s := Exec(cfg, run.before);
      var a := AdmittedIn(cfg, run.before, t);
      var x, f := ReportedIn(cfg, run.before, t, true), ReportedIn(cfg, run.before, t, false);
      HalfOpenExactness(cfg, run.before, t);
      HistoryLaw(cfg, run.before);
      HistoryLaw(cfg, run);
      AllAccounted(cfg, run.before, t);
      if t < s.breaker.generation {
        SettledStays(cfg, s, run.step, t, a, x, f);
      } else if t == s.breaker.generation {
        ProbingStep(cfg, s, run.step, a, x, f);
      } else {
        FreshProbe(cfg, s, run.step, t);
      }
    }
  }

  ghost predicate Extends(longer: Run, shorter: Run) {
    longer == shorter || (longer.Then? && Extends(longer.before, shorter))
  }

  /** With MaxRequests 0 a half-open breaker is never left, however long it runs. */
  lemma {:induction false} NoProbesNoRecovery(cfg: Config, run: Run, later: Run)
    requires cfg.maxRequests == 0 && Exec(cfg, run).breaker.state == HalfOpen && Extends(later, run)
    ensures Exec(cfg, later).breaker == Exec(cfg, run).breaker
  {
    if later != run {
      NoProbesNoRecovery(cfg, run, later.before);
      var s := Exec(cfg, later.before);
      var t := s.breaker.generation;
      HistoryLaw(cfg, later.before);
      HalfOpenExactness(cfg, later.before, t);
      AllAccounted(cfg, later.before, t);
      StuckStep(cfg, s, later.step);
    }
  }

  lemma StuckStep(cfg: Config, s: System, step: Step)
    requires cfg.maxRequests == 0 && s.breaker.state == HalfOpen && s.breaker.generation !in s.outstanding
    ensures Next(cfg, s, step).breaker == s.breaker
  {
  }

  // ----- Tripping -----

  /** A closed breaker opens at a step exactly when that step reports a failure of the current
      generation and the rule holds of the totals since the generation began. */
  lemma TripsExactly(cfg: Config, run: Run, step: Step)
    requires Exec(cfg, run).breaker.state == Closed
    ensures var s, s' := Exec(cfg, run), Exec(cfg, Then(run, step));
            var g := s.breaker.generation;
            s'.breaker.state == Open <==>
              Reports(s, step, g, false) && cfg.readyToTrip(Current(cfg, s.breaker, step.now).counts.OnFailure())
  {
    ClosedStep(cfg, Exec(cfg, run), step);
  }

  lemma ClosedStep(cfg: Config, s: System, step: Step)
    requires s.breaker.state == Closed
    ensures Next(cfg, s, step).breaker.state == Open <==>
              Reports(s, step, s.breaker.generation, false) &&
              cfg.readyToTrip(Current(cfg, s.breaker, step.now).counts.OnFailure())
  {
    var c := Current(cfg, s.breaker, step.now);
    assert c.state == Closed && c.generation == s.breaker.generation;
    hide Current, Inc;
  }

  /** The default rule, read off the run: the trip needs at least 50 calls admitted and over a fifth
      of them failed since the Closed generation began, as counted in uint32. */
  lemma DefaultTrip(cfg: Config, run: Run, step: Step)
    requires Exec(cfg, run).breaker.state == Closed && cfg.readyToTrip == DefaultReadyToTrip
    ensures var g := Exec(cfg, run).breaker.generation;
            var a := AdmittedIn(cfg, run, g) % 4_294_967_296;
            var f := (ReportedIn(cfg, run, g, false) + 1) % 4_294_967_296;
            Exec(cfg, Then(run, step)).breaker.state == Open <==>
              Reports(Exec(cfg, run), step, g, false) && a >= 50 && 5 * f > a
  {
    hide *;
    var s := Exec(cfg, run);
    var g := s.breaker.generation;
    var a, x, f := AdmittedIn(cfg, run, g), ReportedIn(cfg, run, g, true), ReportedIn(cfg, run, g, false);
    TripsExactly(cfg, run, step);
    CountersTrackRun(cfg, run);
    ClosedKeepsTally(cfg, s.breaker, step.now, a, x, f);
    RuleOnTally(Current(cfg, s.breaker, step.now).counts, a, x, f);
  }

  lemma ClosedKeepsTally(cfg: Config, b: Breaker, now: int, a: nat, x: nat, f: nat)
    requires b.state == Closed && Tallied(b.counts, a, x, f)
    ensures Tallied(Current(cfg, b, now).counts, a, x, f)
  {
    hide Tallied, SetState;
    CurrentKeepsTally(cfg, b, now, a, x, f);
  }

  lemma RuleOnTally(c: Counts, a: nat, x: nat, f: nat)
    requires Tallied(c, a, x, f)
    ensures DefaultReadyToTrip(c.OnFailure()) <==>
              a % 4_294_967_296 >= 50 && 5 * ((f + 1) % 4_294_967_296) > a % 4_294_967_296
  {
    hide Inc, DefaultReadyToTrip;
    IncCounts(c.totalFailures, f);
    FifthFailed(c.OnFailure());
  }

  lemma FifthFailed(c: Counts)
    ensures DefaultReadyToTrip(c) <==> c.totalRequests >= 50 && 5 * c.totalFailures > c.totalRequests
  {
    if c.totalRequests >= 50 {
      var f, t := c.totalFailures as real, c.totalRequests as real;
      RatioOver(f, t, f / t, 0.20);
      assert f > 0.20 * t <==> 5.0 * f > t;
    }
  }

  lemma RatioOver(f: real, t: real, r: real, q: real)
    requires t > 0.0 && r == f / t
    ensures r > q <==> f > q * t
  {
    assert r * t == f;
    if r > q { assert (r - q) * t > 0.0; } else { assert (q - r) * t >= 0.0; }
  }

  /** So every trip has at least 50 calls of its generation behind it, and, below 2^32 of them, over
      20% of all the calls it admitted have failed. */
  lemma DefaultTripEvidence(cfg: Config, run: Run, step: Step)
    requires Exec(cfg, run).breaker.state == Closed && cfg.readyToTrip == DefaultReadyToTrip
    ensures var g := Exec(cfg, run).breaker.generation;
            var a, f := AdmittedIn(cfg, run, g), ReportedIn(cfg, run, g, false) + 1;
            Exec(cfg, Then(run, step)).breaker.state == Open ==> a >= 50 && (a < 4_294_967_296 ==> 5 * f > a)
  {
    var g := Exec(cfg, run).breaker.generation;
    var a, f := AdmittedIn(cfg, run, g), ReportedIn(cfg, run, g, false) + 1;
    hide Next;
    DefaultTrip(cfg, run, step);
    AtMost(a);
    AtMost(f);
    if a < UINT32 { assert a % UINT32 == a; }
  }

  lemma AtMost(n: nat)
    ensures n % UINT32 <= n
  {
  }

  // ----- Waiting out the timeout -----

  function LastTime(run: Run): int {
    match run
    case Begin(now) => now
    case Then(_, step) => step.now
  }

  predicate Monotone(run: Run) {
    run.Then? ==> run.step.now >= LastTime(run.before) && Monotone(run.before)
  }

  /** Each opening has been waited out by `now`, unless it is the one still in force. */
  ghost predicate Waited(cfg: Config, b: Breaker, now: int) {
    forall i :: 0 <= i < |b.notified| && b.notified[i].to == Open ==>
      if i == |b.notified| - 1 then b.expiry == Some(b.notified[i].at + cfg.timeout)
      else b.notified[i].at + cfg.timeout < now
  }

  lemma WaitedOn(cfg: Config, b: Breaker, since: int, now: int)
    requires History(b) && Waited(cfg, b, since) && now >= since
    ensures Waited(cfg, Current(cfg, b, now), now)
  {
    assert b.state == Open && b.notified != [] ==> b.notified[|b.notified| - 1].to == Open;
  }

  lemma OpeningIsRecorded(cfg: Config, b: Breaker, to: State, now: int)
    requires History(b) && Waited(cfg, b, now) && b.state != Open && to != b.state
    ensures Waited(cfg, SetState(cfg, b, to, now), now)
  {
    assert b.notified != [] ==> b.notified[|b.notified| - 1].to != Open;
  }

  lemma WaitedLater(cfg: Config, b: Breaker, since: int, now: int, counts: Counts)
    requires Waited(cfg, b, since) && now >= since
    ensures Waited(cfg, b.(counts := counts), now)
  {
  }

  lemma OutstandingIsNotOpen(b: Breaker, outstanding: multiset<nat>)
    requires History(b) && Tokens(b.notified, outstanding) && b.generation in outstanding
    ensures b.state != Open
  {
  }

  lemma StepWaits(cfg: Config, s: System, step: Step, since: int)
    requires History(s.breaker) && Tokens(s.breaker.notified, s.outstanding)
    requires Waited(cfg, s.breaker, since) && step.now >= since
    ensures Waited(cfg, Next(cfg, s, step).breaker, step.now)
  {
    hide Current, Inc, History, Tokens, SetState, Waited;
    WaitedOn(cfg, s.breaker, since, step.now);
    CurrentKeepsHistory(cfg, s.breaker, step.now, s.outstanding);
    WaitedLater(cfg, s.breaker, since, step.now, s.breaker.counts);
    var c := Current(cfg, s.breaker, step.now);
    match step
    case Enter(now) => WaitedLater(cfg, c, now, now, c.counts.OnRequest());
    case Leave(token, success, now) =>
      if token in s.outstanding && token == c.generation {
        var d := c.(counts := if success then c.counts.OnSuccess() else c.counts.OnFailure());
        OutstandingIsNotOpen(c, s.outstanding);
        HistoryIgnoresCounts(c, d.counts);
        WaitedLater(cfg, c, now, now, d.counts);
        if d.state != Closed { OpeningIsRecorded(cfg, d, Closed, now); }
        OpeningIsRecorded(cfg, d, Open, now);
      }
    case Look(_) =>
  }

  lemma {:induction false} OpeningsWaitedOut(cfg: Config, run: Run)
    requires Monotone(run)
    ensures Waited(cfg, Exec(cfg, run).breaker, LastTime(run))
  {
    if run.Then? {
      OpeningsWaitedOut(cfg, run.before);
      HistoryLaw(cfg, run.before);
      StepWaits(cfg, Exec(cfg, run.before), run.step, LastTime(run.before));
    }
  }

  /** With a clock that does not go back, no call is admitted until strictly more than Timeout after
      every opening so far. */
  lemma AdmittedOnlyAfterTimeout(cfg: Config, run: Run, now: int)
    requires Monotone(Then(run, Enter(now)))
    requires AdmittedAs(cfg, Exec(cfg, run), Enter(now)).Some?
    ensures var log := Exec(cfg, Then(run, Enter(now))).breaker.notified;
            forall i :: 0 <= i < |log| && log[i].to == Open ==> now > log[i].at + cfg.timeout
  {
    OpeningsWaitedOut(cfg, Then(run, Enter(now)));
    HistoryLaw(cfg, Then(run, Enter(now)));
    assert Exec(cfg, Then(run, Enter(now))).breaker.state != Open;
  }
}
