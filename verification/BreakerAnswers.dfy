/** What the breaker answers to each call, and what its other counters hold, read off the run. */
module BreakerAnswers {
  import opened Options
  import opened CircuitBreakers
  import opened BreakerRuns

  /** A step that the breaker sees: a call that is not outstanding cannot leave. */
  predicate Seen(s: System, step: Step) {
    step.Leave? ==> step.token in s.outstanding
  }

  /** When the current generation began. */
  function EnteredAt(cfg: Config, run: Run): int {
    match run
    case Begin(now) => now
    case Then(before, step) =>
      if Exec(cfg, run).breaker.generation != Exec(cfg, before).breaker.generation then step.now
      else EnteredAt(cfg, before)
  }

  /** An open generation ends when `timeout` has passed since it began. */
  ghost predicate OpenExpires(cfg: Config, b: Breaker, since: int) {
    b.state == Open ==> b.expiry == Some(since + cfg.timeout)
  }

  lemma SetStateExpires(cfg: Config, b: Breaker, to: State, now: int, since: int)
    requires OpenExpires(cfg, b, since)
    ensures var b' := SetState(cfg, b, to, now);
            && OpenExpires(cfg, b', if b'.generation != b.generation then now else since)
            && b.generation <= b'.generation <= b.generation + 1
  {
  }

  lemma StepExpires(cfg: Config, s: System, step: Step, since: int)
    requires OpenExpires(cfg, s.breaker, since)
    requires History(s.breaker) && Tokens(s.breaker.notified, s.outstanding)
    ensures var b' := Next(cfg, s, step).breaker;
            OpenExpires(cfg, b', if b'.generation != s.breaker.generation then step.now else since)
  {
    var b := s.breaker;
    var c := Current(cfg, b, step.now);
    if b.state == Open && Past(b.expiry, step.now) { SetStateExpires(cfg, b, HalfOpen, step.now, since); }
    assert c.generation != b.generation ==> c.state == HalfOpen;
    var at := if c.generation != b.generation then step.now else since;
    assert OpenExpires(cfg, c, at);
    if step.Leave? && step.token in s.outstanding && step.token == c.generation {
      CurrentKeepsHistory(cfg, b, step.now, s.outstanding);
      OutstandingIsNotOpen(c, s.outstanding);
      assert t: c.generation == b.generation by { TokenIsPast(b, s.outstanding, step.token); }
      hide Current, History, Tokens;
      var d := c.(counts := if step.success then c.counts.OnSuccess() else c.counts.OnFailure());
      SetStateExpires(cfg, d, Closed, step.now, at);
      SetStateExpires(cfg, d, Open, step.now, at);
    }
  }

  lemma TokenIsPast(b: Breaker, outstanding: multiset<nat>, t: nat)
    requires History(b) && Tokens(b.notified, outstanding) && t in outstanding
    ensures t <= b.generation
  {
  }

  lemma {:induction false} OpenUntilTimeout(cfg: Config, run: Run)
    ensures OpenExpires(cfg, Exec(cfg, run).breaker, EnteredAt(cfg, run))
  {
    if run.Then? {
      OpenUntilTimeout(cfg, run.before);
      HistoryLaw(cfg, run.before);
      StepExpires(cfg, Exec(cfg, run.before), run.step, EnteredAt(cfg, run.before));
    }
  }

  /** The answer to a call: closed, it is admitted; open, it is refused until strictly more than the
      timeout has passed, and then the first probe of a new generation; half-open, it is admitted while
      fewer than MaxRequests calls of the generation have been, and told that there are too many
      afterwards. */
  lemma AnswerExactly(cfg: Config, run: Run, now: int)
    ensures var b := Exec(cfg, run).breaker;
            var answer := Enters(cfg, b, now).1;
            match b.state
            case Closed => answer == Admitted(b.generation)
            case Open =>
              answer == (if now <= EnteredAt(cfg, run) + cfg.timeout then CircuitOpen
                         else if cfg.maxRequests > 0 then Admitted(b.generation + 1)
                         else TooManyRequests)
            case HalfOpen =>
              answer == if AdmittedIn(cfg, run, b.generation) < cfg.maxRequests then Admitted(b.generation)
                        else TooManyRequests
  {
    OpenUntilTimeout(cfg, run);
    HistoryLaw(cfg, run);
    HalfOpenExactness(cfg, run, Exec(cfg, run).breaker.generation);
    hide Exec, EnteredAt, AdmittedIn, LegalPath;
  }

  // ----- The interval's own counter -----

  /** The interval that the step falls in: when it began, and the calls admitted in it. A closed interval
      lasts `interval`, and the next begins with the first step after it. */
  function Interval(cfg: Config, run: Run): (int, nat) {
    match run
    case Begin(now) => (now, 0)
    case Then(before, step) =>
      var s, (start, count) := Exec(cfg, before), Interval(cfg, before);
      var one := One(AdmittedAs(cfg, s, step).Some?);
      if Exec(cfg, run).breaker.generation != s.breaker.generation then (step.now, one)
      else if Seen(s, step) && s.breaker.state == Closed && step.now > start + cfg.interval then (step.now, one)
      else (start, count + one)
  }

  ghost predicate Interim(cfg: Config, b: Breaker, start: int, count: nat) {
    && (b.state != Open ==> Counts32(b.counts.requests, count))
    && (b.state == Closed ==> b.expiry == Some(start + cfg.interval))
  }

  lemma CurrentInterim(cfg: Config, b: Breaker, now: int, start: int, count: nat)
    requires Interim(cfg, b, start, count)
    ensures var c := Current(cfg, b, now);
            if c.generation != b.generation then Interim(cfg, c, now, 0)
            else if b.state == Closed && now > start + cfg.interval then Interim(cfg, c, now, 0)
            else c.state == b.state && Interim(cfg, c, start, count)
  {
  }

  lemma SetStateInterim(cfg: Config, b: Breaker, to: State, now: int, start: int, count: nat)
    requires Interim(cfg, b, start, count)
    ensures var b' := SetState(cfg, b, to, now);
            if b'.generation != b.generation then Interim(cfg, b', now, 0) else b' == b
  {
  }

  lemma RequestInterim(cfg: Config, b: Breaker, start: int, count: nat)
    requires Interim(cfg, b, start, count)
    ensures b.state != Open ==> Interim(cfg, b.(counts := b.counts.OnRequest()), start, count + 1)
    ensures Interim(cfg, b.(counts := b.counts.OnSuccess()), start, count)
    ensures Interim(cfg, b.(counts := b.counts.OnFailure()), start, count)
  {
    hide Counts32, Inc;
    if b.state != Open { IncCounts(b.counts.requests, count); }
  }

  lemma EnterInterim(cfg: Config, b: Breaker, now: int, start: int, count: nat)
    requires Interim(cfg, Current(cfg, b, now), start, count)
    ensures var (b', a) := Enters(cfg, b, now);
            b'.generation == Current(cfg, b, now).generation && Interim(cfg, b', start, count + One(a.Admitted?))
  {
    hide Current, Interim, Inc;
    RequestInterim(cfg, Current(cfg, b, now), start, count);
  }

  lemma LeaveInterim(cfg: Config, b: Breaker, token: nat, ok: bool, now: int, start: int, count: nat)
    requires Interim(cfg, Current(cfg, b, now), start, count)
    ensures var (b', c) := (Leaves(cfg, b, token, ok, now), Current(cfg, b, now));
            && b'.generation >= c.generation && (b'.generation > c.generation ==> token == c.generation)
            && Interim(cfg, b', if b'.generation != c.generation then now else start,
                       if b'.generation != c.generation then 0 else count)
  {
    hide Current, Interim, Inc, SetState;
    var c := Current(cfg, b, now);
    RequestInterim(cfg, c, start, count);
    var d := c.(counts := if ok then c.counts.OnSuccess() else c.counts.OnFailure());
    SetStateInterim(cfg, d, Closed, now, start, count);
    SetStateInterim(cfg, d, Open, now, start, count);
    SetStateGrows(cfg, d, Closed, now);
    SetStateGrows(cfg, d, Open, now);
  }

  lemma StepInterim(cfg: Config, s: System, step: Step, start: int, count: nat)
    requires Interim(cfg, s.breaker, start, count)
    requires History(s.breaker) && Tokens(s.breaker.notified, s.outstanding)
    ensures var (b, b') := (s.breaker, Next(cfg, s, step).breaker);
            var one := One(AdmittedAs(cfg, s, step).Some?);
            if b'.generation != b.generation then Interim(cfg, b', step.now, one)
            else if Seen(s, step) && b.state == Closed && step.now > start + cfg.interval
            then Interim(cfg, b', step.now, one)
            else Interim(cfg, b', start, count + one)
  {
    hide Interim, History, Tokens, Enters, Leaves;
    var b := s.breaker;
    var c := Current(cfg, b, step.now);
    CurrentInterim(cfg, b, step.now, start, count);
    assert b.generation <= c.generation;
    var rolled := c.generation != b.generation || (b.state == Closed && step.now > start + cfg.interval);
    var from, so := if rolled then step.now else start, if rolled then 0 else count;
    assert Interim(cfg, c, from, so);
    hide Current;
    match step
    case Enter(now) => EnterInterim(cfg, b, now, from, so);
    case Look(_) =>
    case Leave(token, ok, now) =>
      if token in s.outstanding {
        TokenIsPast(b, s.outstanding, token);
        LeaveInterim(cfg, b, token, ok, now, from, so);
      }
  }

  lemma SetStateGrows(cfg: Config, b: Breaker, to: State, now: int)
    ensures SetState(cfg, b, to, now).generation >= b.generation
    ensures SetState(cfg, b, to, now).generation == b.generation ==> SetState(cfg, b, to, now) == b
  {
  }

  /** While the breaker is not open, Requests counts the calls admitted in the current interval. */
  lemma {:induction false} RequestsCountInterval(cfg: Config, run: Run)
    ensures Interim(cfg, Exec(cfg, run).breaker, Interval(cfg, run).0, Interval(cfg, run).1)
  {
    hide Next, AdmittedAs, Interim, History, Tokens, Seen;
    if run.Then? {
      RequestsCountInterval(cfg, run.before);
      HistoryLaw(cfg, run.before);
      StepInterim(cfg, Exec(cfg, run.before), run.step, Interval(cfg, run.before).0, Interval(cfg, run.before).1);
    } else {
      FirstInterim(cfg, run);
    }
  }

  lemma FirstInterim(cfg: Config, run: Run)
    requires run.Begin?
    ensures Interim(cfg, Exec(cfg, run).breaker, run.now, 0)
  {
  }

  // ----- Streaks -----

  /** How many results of the current generation, counted from the last, are all `ok`. */
  function Streak(cfg: Config, run: Run, ok: bool): nat {
    match run
    case Begin(_) => 0
    case Then(before, step) =>
      var s := Exec(cfg, before);
      var g := s.breaker.generation;
      if Exec(cfg, run).breaker.generation != g then 0
      else if Reports(s, step, g, ok) then Streak(cfg, before, ok) + 1
      else if Reports(s, step, g, !ok) then 0
      else Streak(cfg, before, ok)
  }

  ghost predicate InStreak(c: Counts, successes: nat, failures: nat) {
    Counts32(c.consecSucc, successes) && Counts32(c.consecFail, failures)
  }

  lemma StreakCounts(c: Counts, successes: nat, failures: nat)
    requires InStreak(c, successes, failures)
    ensures InStreak(c.OnRequest(), successes, failures)
    ensures InStreak(c.OnSuccess(), successes + 1, 0) && InStreak(c.OnFailure(), 0, failures + 1)
    ensures InStreak(c.Clear(), successes, failures) && InStreak(NO_COUNTS, 0, 0)
  {
    IncCounts(c.consecSucc, successes);
    IncCounts(c.consecFail, failures);
    hide Inc;
  }

  lemma CurrentInStreak(cfg: Config, b: Breaker, now: int, successes: nat, failures: nat)
    requires InStreak(b.counts, successes, failures)
    ensures var c := Current(cfg, b, now);
            if c.generation == b.generation then InStreak(c.counts, successes, failures)
            else c.generation > b.generation && InStreak(c.counts, 0, 0)
  {
    hide InStreak, Inc;
    StreakCounts(b.counts, successes, failures);
  }

  lemma LeaveInStreak(cfg: Config, b: Breaker, token: nat, ok: bool, now: int, successes: nat, failures: nat)
    requires InStreak(b.counts, successes, failures) && token <= b.generation
    ensures var b' := Leaves(cfg, b, token, ok, now);
            if b'.generation != b.generation then InStreak(b'.counts, 0, 0)
            else if token != b.generation then InStreak(b'.counts, successes, failures)
            else if ok then InStreak(b'.counts, successes + 1, 0)
            else InStreak(b'.counts, 0, failures + 1)
  {
    CurrentInStreak(cfg, b, now, successes, failures);
    var c := Current(cfg, b, now);
    hide Current, InStreak, Inc;
    NoStreaks();
    if c.generation == b.generation { StreakCounts(c.counts, successes, failures); }
  }

  lemma StepInStreak(cfg: Config, s: System, step: Step, successes: nat, failures: nat)
    requires InStreak(s.breaker.counts, successes, failures)
    requires History(s.breaker) && Tokens(s.breaker.notified, s.outstanding)
    ensures var (b, b') := (s.breaker, Next(cfg, s, step).breaker);
            if b'.generation != b.generation then InStreak(b'.counts, 0, 0)
            else if Reports(s, step, b.generation, true) then InStreak(b'.counts, successes + 1, 0)
            else if Reports(s, step, b.generation, false) then InStreak(b'.counts, 0, failures + 1)
            else InStreak(b'.counts, successes, failures)
  {
    hide InStreak, Inc, History, Tokens, Leaves, Current;
    var b := s.breaker;
    var c := Current(cfg, b, step.now);
    CurrentInStreak(cfg, b, step.now, successes, failures);
    StreakCounts(c.counts, if c.generation == b.generation then successes else 0,
                 if c.generation == b.generation then failures else 0);
    if step.Leave? && step.token in s.outstanding {
      TokenIsPast(b, s.outstanding, step.token);
      LeaveInStreak(cfg, b, step.token, step.success, step.now, successes, failures);
    }
  }

  /** ConsecSucc and ConsecFail are the lengths of the streaks, whatever older generations report and
      whatever intervals roll over. */
  lemma {:induction false} StreaksCounted(cfg: Config, run: Run)
    ensures InStreak(Exec(cfg, run).breaker.counts, Streak(cfg, run, true), Streak(cfg, run, false))
  {
    hide Next, InStreak, History, Tokens, Reports;
    NoStreaks();
    if run.Then? {
      StreaksCounted(cfg, run.before);
      HistoryLaw(cfg, run.before);
      ReportsOne(Exec(cfg, run.before), run.step);
      StepInStreak(cfg, Exec(cfg, run.before), run.step, Streak(cfg, run.before, true), Streak(cfg, run.before, false));
    }
  }

  lemma NoStreaks()
    ensures InStreak(NO_COUNTS, 0, 0)
  {
  }

  lemma ReportsOne(s: System, step: Step)
    ensures !(Reports(s, step, s.breaker.generation, true) && Reports(s, step, s.breaker.generation, false))
  {
  }
}
