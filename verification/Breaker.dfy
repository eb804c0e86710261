/** The circuit breaker of pkg/circuitbreaker/circuitbreaker.go: the class, and its steps as
    functions of its state. */
module CircuitBreakers {
  import opened Options

  const UINT32 := 0x1_0000_0000

  type uint32 = x: int | 0 <= x < UINT32

  /** uint32 increments wrap around. */
  function Inc(x: uint32): uint32 {
    (x + 1) % UINT32
  }

  datatype State = Closed | Open | HalfOpen

  datatype Counts = Counts(
    requests: uint32, totalRequests: uint32, totalSuccesses: uint32, totalFailures: uint32,
    consecSucc: uint32, consecFail: uint32)
  {
    function OnRequest(): Counts {
      this.(requests := Inc(requests), totalRequests := Inc(totalRequests))
    }

    function OnSuccess(): Counts {
      this.(totalSuccesses := Inc(totalSuccesses), consecSucc := Inc(consecSucc), consecFail := 0)
    }

    function OnFailure(): Counts {
      this.(totalFailures := Inc(totalFailures), consecFail := Inc(consecFail), consecSucc := 0)
    }

    // Only the interval's own counter is cleared.
    function Clear(): Counts {
      this.(requests := 0)
    }
  }

  const NO_COUNTS := Counts(0, 0, 0, 0, 0, 0)

  datatype Config = Config(maxRequests: uint32, interval: int, timeout: int, readyToTrip: Counts -> bool)

  /** The default rule: at least 50 requests, and a failure rate over 20%. */
  predicate DefaultReadyToTrip(c: Counts) {
    if c.totalRequests < 50 then false
    else c.totalFailures as real / c.totalRequests as real > 0.20
  }

  /** One call of OnStateChange, with the time it was made. */
  datatype Transition = Transition(from: State, to: State, at: int)

  /** The fields of the breaker, and the notifications made so far. No expiry is the zero time. */
  datatype Breaker = Breaker(
    state: State, generation: nat, counts: Counts, expiry: Option<int>, notified: seq<Transition>)

  datatype Admission = Admitted(generation: nat) | CircuitOpen | TooManyRequests

  function New(cfg: Config, now: int): Breaker {
    Breaker(Closed, 0, NO_COUNTS, Some(now + cfg.interval), [])
  }

  /** The zero time lies before every other. */
  predicate Past(expiry: Option<int>, now: int) {
    expiry.None? || expiry.value < now
  }

  function SetState(cfg: Config, b: Breaker, state: State, now: int): Breaker {
    if b.state == state then b
    else
      var expiry := match state
        case Closed => Some(now + cfg.interval)
        case Open => Some(now + cfg.timeout)
        case HalfOpen => None;
      Breaker(state, b.generation + 1, NO_COUNTS, expiry, b.notified + [Transition(b.state, state, now)])
  }

  function Current(cfg: Config, b: Breaker, now: int): Breaker {
    match b.state
    case Closed =>
      if b.expiry.Some? && Past(b.expiry, now)
      then b.(counts := b.counts.Clear(), expiry := Some(now + cfg.interval))
      else b
    case Open => if Past(b.expiry, now) then SetState(cfg, b, HalfOpen, now) else b
    case HalfOpen => b
  }

  function Enters(cfg: Config, b: Breaker, now: int): (Breaker, Admission) {
    var c := Current(cfg, b, now);
    if c.state == Open then (c, CircuitOpen)
    else if c.state == HalfOpen && c.counts.requests >= cfg.maxRequests then (c, TooManyRequests)
    else (c.(counts := c.counts.OnRequest()), Admitted(c.generation))
  }

  function Leaves(cfg: Config, b: Breaker, token: nat, success: bool, now: int): Breaker {
    var c := Current(cfg, b, now);
    if c.generation != token then c
    else if success then
      var d := c.(counts := c.counts.OnSuccess());
      if d.state == HalfOpen && d.counts.consecSucc >= cfg.maxRequests then SetState(cfg, d, Closed, now) else d
    else
      var d := c.(counts := c.counts.OnFailure());
      match d.state
      case Closed => if cfg.readyToTrip(d.counts) then SetState(cfg, d, Open, now) else d
      case HalfOpen => SetState(cfg, d, Open, now)
      case Open => d
  }

  datatype Outcome = Succeeds | Fails | Panics
  datatype CallResult = Refused(reason: Admission) | Returned(ok: bool) | Panicked

  class CircuitBreaker {
    const config: Config
    var state: State
    var generation: nat
    var counts: Counts
    var expiry: Option<int>
    ghost var notified: seq<Transition>

    ghost function View(): Breaker reads this {
      Breaker(state, generation, counts, expiry, notified)
    }

    constructor (config: Config, now: int)
      ensures this.config == config && View() == New(config, now)
    {
      this.config := config;
      state, generation, counts := Closed, 0, NO_COUNTS;
      expiry := Some(now + config.interval);
      notified := [];
    }

    method SetStateTo(next: State, now: int)
      modifies this
      ensures View() == SetState(config, old(View()), next, now)
    {
      if state == next {
        return;
      }
      notified := notified + [Transition(state, next, now)];
      state := next;
      generation := generation + 1;
      counts := NO_COUNTS;
      match next {
        case Closed => expiry := Some(now + config.interval);
        case Open => expiry := Some(now + config.timeout);
        case HalfOpen => expiry := None;
      }
    }

    method CurrentState(now: int) returns (s: State, g: nat)
      modifies this
      ensures View() == Current(config, old(View()), now) && s == state && g == generation
    {
      match state {
        case Closed =>
          if expiry.Some? && expiry.value < now {
            counts := counts.Clear();
            expiry := Some(now + config.interval);
          }
        case Open =>
          if Past(expiry, now) {
            SetStateTo(HalfOpen, now);
          }
        case HalfOpen =>
      }
      return state, generation;
    }

    method BeforeRequest(now: int) returns (a: Admission)
      modifies this
      ensures (View(), a) == Enters(config, old(View()), now)
    {
      var s, g := CurrentState(now);
      if s == Open {
        return CircuitOpen;
      } else if s == HalfOpen && counts.requests >= config.maxRequests {
        return TooManyRequests;
      }
      counts := counts.OnRequest();
      return Admitted(g);
    }

    method AfterRequest(token: nat, success: bool, now: int)
      modifies this
      ensures View() == Leaves(config, old(View()), token, success, now)
    {
      var s, g := CurrentState(now);
      if g != token {
        return;
      }
      if success {
        counts := counts.OnSuccess();
        if s == HalfOpen && counts.consecSucc >= config.maxRequests {
          SetStateTo(Closed, now);
        }
      } else {
        counts := counts.OnFailure();
        match s {
          case Closed =>
            if config.readyToTrip(counts) {
              SetStateTo(Open, now);
            }
          case HalfOpen => SetStateTo(Open, now);
          case Open =>
        }
      }
    }

    /** One call with nothing interleaved: refused, or admitted and reported exactly once; a panic
        is reported as a failure and then continues. */
    method Call(outcome: Outcome, entered: int, left: int) returns (r: CallResult)
      modifies this
      ensures var (b, a) := Enters(config, old(View()), entered);
              match a
              case Admitted(g) =>
                && View() == Leaves(config, b, g, outcome == Succeeds, left)
                && r == (if outcome == Panics then Panicked else Returned(outcome == Succeeds))
              case _ => View() == b && r == Refused(a)
    {
      var a := BeforeRequest(entered);
      if !a.Admitted? {
        return Refused(a);
      }
      if outcome == Panics {
        AfterRequest(a.generation, false, left);
        return Panicked;
      }
      AfterRequest(a.generation, outcome == Succeeds, left);
      return Returned(outcome == Succeeds);
    }
  }
}
