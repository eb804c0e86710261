/** Forgetting idle clients is invisible, exactly when the window outlasts a refill. */
module LimiterRuns {
  import opened Options
  import opened Limiters

  /** Calls of Allow, in order. */
  datatype Run = Begin(at: real) | Then(before: Run, ip: string, now: real)

  function LastTime(run: Run): real {
    if run.Begin? then run.at else run.now
  }

  predicate Monotone(run: Run) {
    run.Then? ==> Monotone(run.before) && run.now >= LastTime(run.before)
  }

  function DnsAfter(p: Params, run: Run): DnsState {
    if run.Begin? then DnsState(map[], None) else AllowDns(p, DnsAfter(p, run.before), run.ip, run.now).0
  }

  function EdgeAfter(p: Params, run: Run): Clients {
    if run.Begin? then map[] else AllowEdge(p, EdgeAfter(p, run.before), run.ip, run.now).0
  }

  /** The two limiters. Only the DNS one lets a call without a client address through. */
  datatype Limiter = Dns | Edge

  predicate Exempt(l: Limiter, ip: string) {
    l == Dns && ip == ""
  }

  /** The reference: each client that is not exempt keeps its bucket for ever. */
  function ForeverAfter(l: Limiter, p: Params, run: Run): Buckets {
    if run.Begin? then map[]
    else if Exempt(l, run.ip) then ForeverAfter(l, p, run.before)
    else AllowForever(p, ForeverAfter(l, p, run.before), run.ip, run.now).0
  }

  predicate Answer(l: Limiter, p: Params, run: Run)
    requires run.Then?
  {
    match l
    case Dns => AllowDns(p, DnsAfter(p, run.before), run.ip, run.now).1
    case Edge => AllowEdge(p, EdgeAfter(p, run.before), run.ip, run.now).1
  }

  predicate ForeverAnswer(l: Limiter, p: Params, run: Run)
    requires run.Then?
  {
    Exempt(l, run.ip) || AllowForever(p, ForeverAfter(l, p, run.before), run.ip, run.now).1
  }

  // ----- Refinement -----

  predicate BucketSound(p: Params, b: Bucket, now: real) {
    0.0 <= b.tokens <= p.burst as real && b.last <= now
  }

  predicate Refilled(p: Params, b: Bucket, now: real) {
    b.tokens + p.rate * (now - b.last) >= p.burst as real
  }

  /** Every client still remembered has its own bucket, and every forgotten one a full bucket. */
  ghost predicate Refines(p: Params, m: Clients, f: Buckets, now: real) {
    && (forall ip :: ip in f ==> BucketSound(p, f[ip], now))
    && (forall ip :: ip in m ==> ip in f && m[ip].bucket == f[ip] && f[ip].last <= m[ip].lastSeen <= now)
    && (forall ip :: ip in f && ip !in m ==> Refilled(p, f[ip], now))
  }

  lemma MulMonotone(r: real, x: real, y: real)
    requires r >= 0.0 && x <= y
    ensures r * x <= r * y
  {
    assert r * (y - x) >= 0.0;
  }

  lemma IdleIsRefilled(p: Params, b: Bucket, lastSeen: real, now: real)
    requires ValidParams(p) && p.window * p.rate >= p.burst as real
    requires BucketSound(p, b, now) && b.last <= lastSeen < now - p.window
    ensures Refilled(p, b, now)
  {
    MulMonotone(p.rate, p.window, now - b.last);
  }

  lemma RefinesLater(p: Params, m: Clients, f: Buckets, now: real, later: real)
    requires ValidParams(p) && Refines(p, m, f, now) && now <= later
    ensures Refines(p, m, f, later)
  {
    forall ip | ip in f && ip !in m ensures Refilled(p, f[ip], later) {
      MulMonotone(p.rate, now - f[ip].last, later - f[ip].last);
      assert Refilled(p, f[ip], now);
    }
    forall ip | ip in f ensures BucketSound(p, f[ip], later) { assert BucketSound(p, f[ip], now); }
  }

  lemma PruneIsInvisible(p: Params, m: Clients, f: Buckets, now: real)
    requires ValidParams(p) && p.window * p.rate >= p.burst as real && Refines(p, m, f, now)
    ensures Refines(p, Pruned(p, m, now), f, now)
  {
    forall ip | ip in f && ip !in Pruned(p, m, now) ensures Refilled(p, f[ip], now) {
      hide Refilled;
      assert BucketSound(p, f[ip], now);
      if ip in m { IdleIsRefilled(p, f[ip], m[ip].lastSeen, now); }
    }
  }

  lemma TakeKeepsSound(p: Params, b: Bucket, now: real)
    requires ValidParams(p) && BucketSound(p, b, now)
    ensures BucketSound(p, Take(p, b, now).0, now)
    ensures Refilled(p, b, now) ==>
            Take(p, b, now) == Take(p, Full(p, now), now) == (Bucket(p.burst as real - 1.0, now), true)
    ensures Take(p, Full(p, now), now) == (Bucket(p.burst as real - 1.0, now), true)
  {
    MulMonotone(p.rate, 0.0, now - b.last);
  }

  lemma TouchRefines(p: Params, m: Clients, f: Buckets, ip: string, now: real)
    requires ValidParams(p) && Refines(p, m, f, now)
    ensures var (m', ok) := Touch(p, m, ip, now); var (f', ok') := AllowForever(p, f, ip, now);
            ok == ok' && Refines(p, m', f', now)
  {
    TakeKeepsSound(p, Full(p, now), now);
    if ip in f { TakeKeepsSound(p, f[ip], now); }
  }

  lemma {:induction false} DnsRefines(p: Params, run: Run)
    requires ValidParams(p) && p.window * p.rate >= p.burst as real && Monotone(run)
    ensures Refines(p, DnsAfter(p, run).entries, ForeverAfter(Dns, p, run), LastTime(run))
    ensures run.Then? ==> Answer(Dns, p, run) == ForeverAnswer(Dns, p, run)
  {
    if run.Then? {
      var s, f := DnsAfter(p, run.before), ForeverAfter(Dns, p, run.before);
      DnsRefines(p, run.before);
      RefinesLater(p, s.entries, f, LastTime(run.before), run.now);
      PruneIsInvisible(p, s.entries, f, run.now);
      TouchRefines(p, Swept(p, s, run.now).entries, f, run.ip, run.now);
    }
  }

  lemma {:induction false} EdgeRefines(p: Params, run: Run)
    requires ValidParams(p) && p.window * p.rate >= p.burst as real && Monotone(run)
    ensures Refines(p, EdgeAfter(p, run), ForeverAfter(Edge, p, run), LastTime(run))
    ensures run.Then? ==> Answer(Edge, p, run) == ForeverAnswer(Edge, p, run)
  {
    if run.Then? {
      var m, f := EdgeAfter(p, run.before), ForeverAfter(Edge, p, run.before);
      EdgeRefines(p, run.before);
      RefinesLater(p, m, f, LastTime(run.before), run.now);
      TouchRefines(p, m, f, run.ip, run.now);
      PruneIsInvisible(p, Touch(p, m, run.ip, run.now).0, AllowForever(p, f, run.ip, run.now).0, run.now);
    }
  }

  /** The answers agree at every call of the run. */
  ghost predicate AgreesThroughout(l: Limiter, p: Params, run: Run) {
    run.Then? ==> Answer(l, p, run) == ForeverAnswer(l, p, run) && AgreesThroughout(l, p, run.before)
  }

  lemma {:induction false} LongWindowAgrees(l: Limiter, p: Params, run: Run)
    requires ValidParams(p) && p.window * p.rate >= p.burst as real && Monotone(run)
    ensures AgreesThroughout(l, p, run)
  {
    if run.Then? {
      LongWindowAgrees(l, p, run.before);
      if l == Dns { DnsRefines(p, run); } else { EdgeRefines(p, run); }
    }
  }

  // ----- The rate bound -----

  predicate Within(longer: Run, shorter: Run, from: real, to: real)
  {
    longer == shorter || (longer.Then? && from <= longer.now <= to && Within(longer.before, shorter, from, to))
  }

  /** How many calls of `ip` after `shorter` were admitted, by the reference and by the limiter. */
  function ForeverAdmits(l: Limiter, p: Params, longer: Run, shorter: Run, ip: string): nat {
    if longer == shorter || longer.Begin? then 0
    else ForeverAdmits(l, p, longer.before, shorter, ip) + if longer.ip == ip &&
         ForeverAnswer(l, p, longer) then 1 else 0
  }

  function Admits(l: Limiter, p: Params, longer: Run, shorter: Run, ip: string): nat {
    if longer == shorter || longer.Begin? then 0
    else Admits(l, p, longer.before, shorter, ip) + if longer.ip == ip && Answer(l, p, longer) then 1 else 0
  }

  function LevelOf(p: Params, f: Buckets, ip: string, now: real): real {
    if ip in f then Level(p, f[ip], now) else p.burst as real
  }

  lemma RefillIs(p: Params, x: real)
    ensures Refill(p, x) == p.rate * x
  {
  }

  lemma RefillAdds(p: Params, x: real, y: real)
    requires p.rate >= 0.0
    ensures Refill(p, x + y) == Refill(p, x) + Refill(p, y)
    ensures y >= 0.0 ==> Refill(p, y) >= 0.0
  {
  }

  lemma LevelGrowth(p: Params, b: Bucket, now: real, later: real)
    requires ValidParams(p) && b.last <= now <= later
    ensures Level(p, b, later) <= Level(p, b, now) + Refill(p, later - now)
  {
    RefillAdds(p, now - b.last, later - now);
    assert now - b.last + (later - now) == later - b.last;
    hide Refill;
  }

  lemma {:induction false} ForeverSound(l: Limiter, p: Params, run: Run)
    requires ValidParams(p) && Monotone(run)
    ensures forall ip :: ip in ForeverAfter(l, p, run) ==> BucketSound(p, ForeverAfter(l, p, run)[ip], LastTime(run))
  {
    if run.Then? {
      ForeverSound(l, p, run.before);
      TakeKeepsSound(p, Full(p, run.now), run.now);
      var f := ForeverAfter(l, p, run.before);
      forall ip | ip in f ensures BucketSound(p, f[ip], run.now) && BucketSound(p, Take(p, f[ip], run.now).0, run.now) {
        assert BucketSound(p, f[ip], LastTime(run.before));
        TakeKeepsSound(p, f[ip], run.now);
      }
    }
  }

  lemma LastBefore(l: Limiter, p: Params, run: Run, ip: string)
    requires ValidParams(p) && Monotone(run)
    ensures ip in ForeverAfter(l, p, run) ==> 0.0 <= ForeverAfter(l, p, run)[ip].tokens
    ensures ip in ForeverAfter(l, p, run) ==> ForeverAfter(l, p, run)[ip].last <= LastTime(run)
  {
    ForeverSound(l, p, run);
    assert ip in ForeverAfter(l, p, run) ==> BucketSound(p, ForeverAfter(l, p, run)[ip], LastTime(run));
  }

  /** Tokens spent since `from`, and tokens left, never exceed a full bucket and the refill since. */
  lemma {:induction false} TokensConserved(l: Limiter, p: Params, longer: Run, shorter: Run, ip: string, from: real,
    to: real, t: real)
    requires ValidParams(p) && Monotone(longer) && Within(longer, shorter, from, to)
    requires !Exempt(l, ip) && t >= from && t >= LastTime(longer)
    ensures ForeverAdmits(l, p, longer, shorter, ip) as real + LevelOf(p, ForeverAfter(l, p, longer), ip, t)
            <= p.burst as real + Refill(p, t - from)
    decreases longer
  {
    hide Level, LevelOf, AllowForever, BucketSound, Refill;
    if longer == shorter {
      RefillAdds(p, 0.0, t - from);
      LevelAtMost(p, ForeverAfter(l, p, longer), ip, t);
    } else {
      var f, f', now := ForeverAfter(l, p, longer.before), ForeverAfter(l, p, longer), longer.now;
      TokensConserved(l, p, longer.before, shorter, ip, from, to, now);
      LastBefore(l, p, longer, ip);
      SpendOne(p, f, longer.ip, ip, now);
      LevelsGrow(p, f', ip, now, t);
      RefillAdds(p, now - from, t - now);
      assert now - from + (t - now) == t - from;
    }
  }

  lemma LevelAtMost(p: Params, f: Buckets, ip: string, t: real)
    ensures LevelOf(p, f, ip, t) <= p.burst as real
  {
  }

  lemma LevelsGrow(p: Params, f: Buckets, ip: string, now: real, later: real)
    requires ValidParams(p) && now <= later && (ip in f ==> f[ip].last <= now)
    ensures LevelOf(p, f, ip, later) <= LevelOf(p, f, ip, now) + Refill(p, later - now)
  {
    hide Level, Refill;
    RefillAdds(p, 0.0, later - now);
    if ip in f { LevelGrowth(p, f[ip], now, later); }
  }

  lemma SpendOne(p: Params, f: Buckets, caller: string, ip: string, now: real)
    requires ValidParams(p)
    ensures var (f', ok) := AllowForever(p, f, caller, now);
            LevelOf(p, f', ip, now) == LevelOf(p, f, ip, now) - (if caller == ip && ok then 1.0 else 0.0)
  {
  }

  /** The remembering limiter admits at most burst + rate * length in any interval. */
  lemma ForeverBound(l: Limiter, p: Params, longer: Run, shorter: Run, ip: string, from: real, to: real)
    requires ValidParams(p) && Monotone(longer) && Within(longer, shorter, from, to)
    requires !Exempt(l, ip) && from <= to && LastTime(shorter) <= to
    ensures ForeverAdmits(l, p, longer, shorter, ip) as real <= p.burst as real + p.rate * (to - from)
  {
    hide *;
    RefillIs(p, to - from);
    RefillBound(l, p, longer, shorter, ip, from, to);
  }

  lemma RefillBound(l: Limiter, p: Params, longer: Run, shorter: Run, ip: string, from: real, to: real)
    requires ValidParams(p) && Monotone(longer) && Within(longer, shorter, from, to)
    requires !Exempt(l, ip) && from <= to && LastTime(shorter) <= to
    ensures ForeverAdmits(l, p, longer, shorter, ip) as real <= p.burst as real + Refill(p, to - from)
  {
    TokensConserved(l, p, longer, shorter, ip, from, to, to);
    LastBefore(l, p, longer, ip);
    hide Refill, ForeverAnswer, LevelOf;
    LevelNonNegative(p, ForeverAfter(l, p, longer), ip, to);
  }

  lemma LevelNonNegative(p: Params, f: Buckets, ip: string, t: real)
    requires ValidParams(p) && (ip in f ==> f[ip].tokens >= 0.0 && f[ip].last <= t)
    ensures LevelOf(p, f, ip, t) >= 0.0
  {
    hide Refill;
    if ip in f { RefillAdds(p, 0.0, t - f[ip].last); }
  }

  lemma {:induction false} AdmitsAsForever(l: Limiter, p: Params, longer: Run, shorter: Run, ip: string)
    requires AgreesThroughout(l, p, longer)
    ensures Admits(l, p, longer, shorter, ip) == ForeverAdmits(l, p, longer, shorter, ip)
  {
    if longer != shorter && longer.Then? { AdmitsAsForever(l, p, longer.before, shorter, ip); }
  }

  /** In any interval each client is admitted at most burst + rate * length times, whatever was
      forgotten in between. */
  lemma RateBound(l: Limiter, p: Params, longer: Run, shorter: Run, ip: string, from: real, to: real)
    requires ValidParams(p) && p.window * p.rate >= p.burst as real && Monotone(longer)
    requires Within(longer, shorter, from, to) && !Exempt(l, ip) && from <= to && LastTime(shorter) <= to
    ensures Admits(l, p, longer, shorter, ip) as real <= p.burst as real + p.rate * (to - from)
  {
    hide *;
    ForeverBound(l, p, longer, shorter, ip, from, to);
    LongWindowAgrees(l, p, longer);
    AdmitsAsForever(l, p, longer, shorter, ip);
  }

  // ----- Every call the bound allows is admitted -----

  /** Later the level is what it was and the refill since, up to the bucket's size. */
  lemma LevelLater(p: Params, f: Buckets, ip: string, now: real, later: real)
    requires ValidParams(p) && now <= later && (ip in f ==> f[ip].last <= now)
    ensures var sum := LevelOf(p, f, ip, now) + Refill(p, later - now);
            LevelOf(p, f, ip, later) == if sum > p.burst as real then p.burst as real else sum
  {
    RefillAdds(p, 0.0, later - now);
    if ip in f {
      RefillAdds(p, now - f[ip].last, later - now);
      assert now - f[ip].last + (later - now) == later - f[ip].last;
    }
    hide Refill;
  }

  /** The bound on tokens is reached over some interval that ends at `t`. */
  lemma {:induction false} TokensAccounted(l: Limiter, p: Params, run: Run, ip: string, t: real)
    returns (shorter: Run, from: real)
    requires ValidParams(p) && Monotone(run) && !Exempt(l, ip) && t >= LastTime(run)
    ensures from <= t && Within(run, shorter, from, t)
    ensures ForeverAdmits(l, p, run, shorter, ip) as real + LevelOf(p, ForeverAfter(l, p, run), ip, t)
            == p.burst as real + Refill(p, t - from)
    decreases run
  {
    hide Level, LevelOf, AllowForever, BucketSound, Refill;
    shorter, from := run, t;
    NoRefill(p, t);
    if run.Begin? {
      NobodyIsFull(p, ip, t);
    } else {
      var f, f', now := ForeverAfter(l, p, run.before), ForeverAfter(l, p, run), run.now;
      var q, start := TokensAccounted(l, p, run.before, ip, now);
      LastBefore(l, p, run, ip);
      SpendOne(p, f, run.ip, ip, now);
      LevelLater(p, f', ip, now, t);
      RefillAdds(p, now - start, t - now);
      assert now - start + (t - now) == t - start;
      if LevelOf(p, f', ip, now) + Refill(p, t - now) <= p.burst as real {
        shorter, from := q, start;
        WithinGrows(run.before, q, start, now, t);
        NotItsOwnPrefix(run, q, start, t);
      }
    }
  }

  lemma NoRefill(p: Params, t: real)
    ensures Refill(p, t - t) == 0.0
  {
    assert t - t == 0.0;
  }

  lemma NobodyIsFull(p: Params, ip: string, t: real)
    ensures LevelOf(p, map[], ip, t) == p.burst as real
  {
  }

  lemma {:induction false} WithinGrows(longer: Run, shorter: Run, from: real, to: real, later: real)
    requires Within(longer, shorter, from, to) && to <= later
    ensures Within(longer, shorter, from, later)
  {
    if longer != shorter { WithinGrows(longer.before, shorter, from, to, later); }
  }

  function Calls(run: Run): nat {
    if run.Begin? then 0 else Calls(run.before) + 1
  }

  lemma {:induction false} PrefixIsShorter(longer: Run, shorter: Run, from: real, to: real)
    requires Within(longer, shorter, from, to)
    ensures Calls(shorter) <= Calls(longer)
  {
    if longer != shorter { PrefixIsShorter(longer.before, shorter, from, to); }
  }

  lemma NotItsOwnPrefix(run: Run, shorter: Run, from: real, to: real)
    requires run.Then? && Within(run.before, shorter, from, to)
    ensures run != shorter
  {
    PrefixIsShorter(run.before, shorter, from, to);
  }

  /** One more call at `now` keeps the bound over every interval that ends then. */
  ghost predicate RoomFor(l: Limiter, p: Params, run: Run, ip: string, now: real) {
    forall shorter, from :: from <= now && Within(run, shorter, from, now) ==>
      Admits(l, p, run, shorter, ip) as real + 1.0 <= p.burst as real + p.rate * (now - from)
  }

  ghost predicate RefillRoom(l: Limiter, p: Params, run: Run, ip: string, now: real) {
    forall shorter, from :: from <= now && Within(run, shorter, from, now) ==>
      Admits(l, p, run, shorter, ip) as real + 1.0 <= p.burst as real + Refill(p, now - from)
  }

  lemma RoomIsRefillRoom(l: Limiter, p: Params, run: Run, ip: string, now: real)
    ensures RoomFor(l, p, run, ip, now) <==> RefillRoom(l, p, run, ip, now)
  {
    hide Admits, Within;
  }

  /** A call is admitted exactly when that keeps the client within burst + rate * length over every
      interval up to now: the limiters refuse nothing else. */
  lemma AdmittedIffRoom(l: Limiter, p: Params, run: Run, ip: string, now: real)
    requires ValidParams(p) && p.window * p.rate >= p.burst as real
    requires Monotone(Then(run, ip, now)) && !Exempt(l, ip)
    ensures Answer(l, p, Then(run, ip, now)) <==> RoomFor(l, p, run, ip, now)
  {
    LongWindowAgrees(l, p, Then(run, ip, now));
    AnswerIsLevel(l, p, run, ip, now);
    RoomIsRefillRoom(l, p, run, ip, now);
    hide *;
    LevelIsRoom(l, p, run, ip, now);
  }

  lemma LevelIsRoom(l: Limiter, p: Params, run: Run, ip: string, now: real)
    requires ValidParams(p) && AgreesThroughout(l, p, run)
    requires Monotone(run) && LastTime(run) <= now && !Exempt(l, ip)
    ensures LevelOf(p, ForeverAfter(l, p, run), ip, now) >= 1.0 <==> RefillRoom(l, p, run, ip, now)
  {
    hide Refill, LevelOf, Level, ForeverAfter, Admits, ForeverAdmits, Within, AgreesThroughout, Monotone, ValidParams;
    if LevelOf(p, ForeverAfter(l, p, run), ip, now) >= 1.0 {
      forall shorter, from | from <= now && Within(run, shorter, from, now)
        ensures Admits(l, p, run, shorter, ip) as real + 1.0 <= p.burst as real + Refill(p, now - from)
      {
        TokensConserved(l, p, run, shorter, ip, from, now, now);
        AdmitsAsForever(l, p, run, shorter, ip);
      }
    } else {
      var shorter, from := TokensAccounted(l, p, run, ip, now);
      AdmitsAsForever(l, p, run, shorter, ip);
      assert !RefillRoom(l, p, run, ip, now);
    }
  }

  lemma AnswerIsLevel(l: Limiter, p: Params, run: Run, ip: string, now: real)
    requires ValidParams(p) && Monotone(run) && now >= LastTime(run) && !Exempt(l, ip)
    ensures ForeverAnswer(l, p, Then(run, ip, now)) <==> LevelOf(p, ForeverAfter(l, p, run), ip, now) >= 1.0
  {
    hide Refill;
    RefillAdds(p, 0.0, 0.0);
    assert now - now == 0.0;
  }

  // ----- Idle clients are forgotten -----

  ghost predicate SeenSince(m: Clients, cutoff: real) {
    forall ip :: ip in m ==> m[ip].lastSeen >= cutoff
  }

  /** What the DNS limiter remembers was seen no earlier than a window before its last cleanup. */
  lemma {:induction false} DnsRemembers(p: Params, run: Run)
    requires ValidParams(p) && Monotone(run)
    ensures var s := DnsAfter(p, run);
            && (s.lastCleanup.None? ==> s.entries == map[])
            && (s.lastCleanup.Some? ==> SeenSince(s.entries, s.lastCleanup.value - p.window))
            && (s.lastCleanup.Some? ==> s.lastCleanup.value <= LastTime(run))
            && (run.Then? && run.ip != "" ==>
                  s.lastCleanup.Some? && run.now - s.lastCleanup.value < p.window / 2.0)
  {
    hide Take;
    if run.Then? { DnsRemembers(p, run.before); }
  }

  /** After each call from a named client, the DNS limiter remembers only clients seen within one and a
      half windows. */
  lemma DnsForgetsIdle(p: Params, run: Run)
    requires ValidParams(p) && Monotone(run) && run.Then? && run.ip != ""
    ensures SeenSince(DnsAfter(p, run).entries, run.now - p.window * 1.5)
  {
    DnsRemembers(p, run);
    hide DnsAfter;
  }

  /** Whom the edge limiter remembers after a call: everyone so far, up to 2048 clients, and above that
      exactly those seen within the window. */
  lemma EdgeForgetsIdle(p: Params, run: Run)
    requires ValidParams(p) && run.Then?
    ensures var (m, m') := (EdgeAfter(p, run.before), EdgeAfter(p, run));
            |m.Keys + {run.ip}| <= 2048 ==> m'.Keys == m.Keys + {run.ip}
    ensures var (m, m') := (EdgeAfter(p, run.before), EdgeAfter(p, run));
            |m.Keys + {run.ip}| > 2048 ==>
              m'.Keys == {run.ip} + set ip | ip in m && ip != run.ip && m[ip].lastSeen >= run.now - p.window
  {
    var m := EdgeAfter(p, run.before);
    var touched := Touch(p, m, run.ip, run.now).0;
    assert touched.Keys == m.Keys + {run.ip} && |touched| == |touched.Keys|;
    hide Take;
  }

  /** The DNS limiter forgets nobody seen within the window. */
  lemma DnsKeepsRecent(p: Params, run: Run, ip: string)
    requires run.Then? && ip in DnsAfter(p, run.before).entries
    requires DnsAfter(p, run.before).entries[ip].lastSeen >= run.now - p.window
    ensures ip in DnsAfter(p, run).entries
  {
    hide Take;
  }

  // ----- The condition is exact -----

  /** `k` more calls of one client at time `t`. */
  function Burst(run: Run, ip: string, t: real, k: nat): Run {
    if k == 0 then run else Then(Burst(run, ip, t, k - 1), ip, t)
  }

  lemma {:induction false} BurstFacts(run: Run, ip: string, t: real, k: nat)
    requires Monotone(run) && t >= LastTime(run)
    ensures Monotone(Burst(run, ip, t, k)) && LastTime(run) <= LastTime(Burst(run, ip, t, k)) <= t
  {
    if k > 0 { BurstFacts(run, ip, t, k - 1); }
  }

  /** Within one instant nothing is swept twice, and each call takes one token. */
  lemma SameInstant(p: Params, s: DnsState, ip: string, t: real, tokens: nat)
    requires ValidParams(p) && ip != "" && 1 <= tokens <= p.burst
    requires s.lastCleanup == Some(t) && ip in s.entries && s.entries[ip].bucket == Bucket(tokens as real, t)
    ensures AllowDns(p, s, ip, t) ==
            (DnsState(s.entries[ip := Client(Bucket((tokens - 1) as real, t), t)], Some(t)), true)
  {
    assert Swept(p, s, t) == s;
  }

  /** A client that is not remembered is let through a whole burst. */
  lemma {:induction false} FreshBurst(p: Params, run: Run, ip: string, t: real, k: nat)
    requires ValidParams(p) && ip != "" && 1 <= k <= p.burst
    requires Swept(p, DnsAfter(p, run), t).lastCleanup == Some(t) && ip !in Swept(p, DnsAfter(p, run), t).entries
    ensures var s := DnsAfter(p, Burst(run, ip, t, k));
            && s.lastCleanup == Some(t) && ip in s.entries
            && s.entries[ip] == Client(Bucket((p.burst - k) as real, t), t)
    ensures Answer(Dns, p, Burst(run, ip, t, k))
  {
    if k == 1 {
      assert Burst(run, ip, t, 0) == run;
    } else {
      FreshBurst(p, run, ip, t, k - 1);
      var s := DnsAfter(p, Burst(run, ip, t, k - 1));
      SameInstant(p, s, ip, t, p.burst - (k - 1));
      hide AllowDns;
    }
  }

  lemma EdgeKeepsCaller(p: Params, m: Clients, ip: string, now: real)
    requires ValidParams(p)
    ensures var (m', ok) := AllowEdge(p, m, ip, now);
            ip in m' && m'[ip] == Client(Take(p, if ip in m then m[ip].bucket else Full(p, now), now).0, now)
  {
  }

  lemma {:induction false} FreshEdgeBurst(p: Params, run: Run, ip: string, t: real, k: nat)
    requires ValidParams(p) && 1 <= k <= p.burst && ip !in EdgeAfter(p, run)
    ensures var m := EdgeAfter(p, Burst(run, ip, t, k)); ip in m && m[ip] == Client(Bucket((p.burst - k) as real, t), t)
    ensures Answer(Edge, p, Burst(run, ip, t, k))
  {
    hide AllowEdge;
    var before := Burst(run, ip, t, k - 1);
    EdgeKeepsCaller(p, EdgeAfter(p, before), ip, t);
    EdgeAnswers(p, before, ip, t);
    if k == 1 {
      assert before == run;
    } else {
      FreshEdgeBurst(p, run, ip, t, k - 1);
    }
  }

  lemma EdgeAnswers(p: Params, run: Run, ip: string, t: real)
    ensures var m := EdgeAfter(p, run);
            Answer(Edge, p, Then(run, ip, t)) == Take(p, if ip in m then m[ip].bucket else Full(p, t), t).1
  {
  }

  // A crowd of other clients, told apart by the lengths of their names.

  function Stranger(n: nat): string {
    seq(n + 1, i => 'x')
  }

  function Crowd(run: Run, t: real, n: nat): Run {
    if n == 0 then run else Then(Crowd(run, t, n - 1), Stranger(n), t)
  }

  function Strangers(n: nat): set<string> {
    set j | 1 <= j <= n :: Stranger(j)
  }

  lemma StrangersDiffer(n: nat)
    requires n >= 1
    ensures Stranger(n) !in Strangers(n - 1) && Stranger(n) != "c" && "c" !in Strangers(n)
    ensures Strangers(n) == Strangers(n - 1) + {Stranger(n)}
  {
    assert |Stranger(n)| == n + 1 && forall j: nat :: |Stranger(j)| == j + 1;
  }

  /** "c" and the first `n` of the crowd are remembered, and nobody else. */
  ghost predicate Gathered(m: Clients, n: nat) {
    m.Keys == {"c"} + Strangers(n) && |m| == n + 1 && m["c"].lastSeen == 0.0
  }

  lemma GatherNone(m: Clients)
    requires m.Keys == {"c"} && m["c"].lastSeen == 0.0
    ensures Gathered(m, 0)
  {
    assert |m| == |m.Keys| && Strangers(0) == {};
  }

  lemma GatherOne(p: Params, m: Clients, t: real, n: nat)
    requires 1 <= n < MAX_CLIENTS && Gathered(m, n - 1)
    ensures Gathered(AllowEdge(p, m, Stranger(n), t).0, n)
  {
    hide AllowEdge, Stranger, Strangers;
    StrangersDiffer(n);
    StrangerJoins(p, m, Stranger(n), t);
  }

  lemma CrowdStep(p: Params, run: Run, t: real, n: nat)
    requires n >= 1
    ensures EdgeAfter(p, Crowd(run, t, n)) == AllowEdge(p, EdgeAfter(p, Crowd(run, t, n - 1)), Stranger(n), t).0
  {
    hide AllowEdge, Stranger;
  }

  lemma {:induction false} CrowdGathers(p: Params, run: Run, t: real, n: nat)
    requires n < MAX_CLIENTS && Gathered(EdgeAfter(p, run), 0)
    ensures Gathered(EdgeAfter(p, Crowd(run, t, n)), n)
  {
    hide AllowEdge, Stranger, Gathered, EdgeAfter;
    if n > 0 {
      CrowdGathers(p, run, t, n - 1);
      CrowdStep(p, run, t, n);
      GatherOne(p, EdgeAfter(p, Crowd(run, t, n - 1)), t, n);
    }
  }

  lemma StrangerJoins(p: Params, m: Clients, ip: string, t: real)
    requires ip !in m && "c" in m && ip != "c"
    ensures var (m', ok) := AllowEdge(p, m, ip, t);
            && (|m| < MAX_CLIENTS ==> m'.Keys == m.Keys + {ip} && |m'| == |m| + 1 && m'["c"] == m["c"])
            && (|m| >= MAX_CLIENTS && m["c"].lastSeen < t - p.window ==> "c" !in m')
  {
    var touched := Touch(p, m, ip, t).0;
    assert touched.Keys == m.Keys + {ip};
    assert |touched| == |touched.Keys| == |m.Keys| + 1;
  }

  lemma CrowdForgets(p: Params, run: Run, t: real)
    requires ValidParams(p) && p.window < t
    requires EdgeAfter(p, run).Keys == {"c"} && EdgeAfter(p, run)["c"].lastSeen == 0.0
    ensures "c" !in EdgeAfter(p, Crowd(run, t, MAX_CLIENTS))
  {
    hide AllowEdge, Stranger, Strangers;
    var n := MAX_CLIENTS - 1;
    GatherNone(EdgeAfter(p, run));
    CrowdGathers(p, run, t, n);
    StrangersDiffer(MAX_CLIENTS);
    StrangerJoins(p, EdgeAfter(p, Crowd(run, t, n)), Stranger(MAX_CLIENTS), t);
    CrowdStep(p, run, t, MAX_CLIENTS);
  }

  lemma {:induction false} OnlyCaller(p: Params, k: nat)
    requires ValidParams(p) && 1 <= k <= p.burst
    ensures var m := EdgeAfter(p, Burst(Begin(0.0), "c", 0.0, k)); m.Keys == {"c"} && m["c"].lastSeen == 0.0
  {
    var before := EdgeAfter(p, Burst(Begin(0.0), "c", 0.0, k - 1));
    if k > 1 { OnlyCaller(p, k - 1); }
    var touched := Touch(p, before, "c", 0.0).0;
    assert touched.Keys == {"c"} && |touched| == |touched.Keys|;
  }

  // ----- Two bursts, and what makes the limiter forget the first -----

  function FirstBurst(p: Params): Run {
    Burst(Begin(0.0), "c", 0.0, p.burst)
  }

  function Forgotten(l: Limiter, p: Params, t: real): Run {
    if l == Dns then FirstBurst(p) else Crowd(FirstBurst(p), t, MAX_CLIENTS)
  }

  function TwoBursts(l: Limiter, p: Params, t: real): Run {
    Burst(Forgotten(l, p, t), "c", t, p.burst)
  }

  lemma FirstBurstPasses(l: Limiter, p: Params, j: nat)
    requires ValidParams(p) && 1 <= j <= p.burst
    ensures Answer(l, p, Burst(Begin(0.0), "c", 0.0, j))
  {
    if l == Dns { FreshBurst(p, Begin(0.0), "c", 0.0, j); } else { FreshEdgeBurst(p, Begin(0.0), "c", 0.0, j); }
  }

  lemma SecondBurstPasses(l: Limiter, p: Params, t: real, j: nat)
    requires ValidParams(p) && p.window < t && 1 <= j <= p.burst
    ensures Answer(l, p, Burst(Forgotten(l, p, t), "c", t, j))
  {
    if l == Dns {
      FreshBurst(p, Begin(0.0), "c", 0.0, p.burst);
      FreshBurst(p, FirstBurst(p), "c", t, j);
    } else {
      OnlyCaller(p, p.burst);
      CrowdForgets(p, FirstBurst(p), t);
      FreshEdgeBurst(p, Forgotten(l, p, t), "c", t, j);
    }
  }

  lemma {:induction false} BurstAdmits(l: Limiter, p: Params, run: Run, ip: string, t: real, k: nat)
    requires forall j :: 0 < j <= k ==> Answer(l, p, Burst(run, ip, t, j))
    ensures Admits(l, p, Burst(run, ip, t, k), Begin(0.0), ip) == Admits(l, p, run, Begin(0.0), ip) + k
  {
    hide Answer;
    if k > 0 { BurstAdmits(l, p, run, ip, t, k - 1); }
  }

  lemma {:induction false} BurstWithin(run: Run, first: Run, ip: string, t: real, k: nat, from: real, to: real)
    requires Within(run, first, from, to) && from <= t <= to
    ensures Within(Burst(run, ip, t, k), first, from, to)
  {
    if k > 0 { BurstWithin(run, first, ip, t, k - 1, from, to); }
  }

  lemma {:induction false} CrowdFacts(l: Limiter, p: Params, run: Run, first: Run, t: real, n: nat)
    requires Monotone(run) && LastTime(run) <= t && Within(run, first, 0.0, t) && t >= 0.0 && first.Begin?
    ensures Monotone(Crowd(run, t, n)) && LastTime(Crowd(run, t, n)) <= t && Within(Crowd(run, t, n), first, 0.0, t)
    ensures Admits(l, p, Crowd(run, t, n), first, "c") == Admits(l, p, run, first, "c")
  {
    if n > 0 {
      CrowdFacts(l, p, run, first, t, n - 1);
      StrangersDiffer(n);
      hide Answer;
    }
  }

  lemma TwoBurstsFacts(l: Limiter, p: Params, t: real)
    requires t >= 0.0
    ensures Monotone(TwoBursts(l, p, t)) && Within(TwoBursts(l, p, t), Begin(0.0), 0.0, t)
    ensures Admits(l, p, Forgotten(l, p, t), Begin(0.0), "c") == Admits(l, p, FirstBurst(p), Begin(0.0), "c")
  {
    BurstFacts(Begin(0.0), "c", 0.0, p.burst);
    BurstWithin(Begin(0.0), Begin(0.0), "c", 0.0, p.burst, 0.0, t);
    CrowdFacts(l, p, FirstBurst(p), Begin(0.0), t, MAX_CLIENTS);
    BurstFacts(Forgotten(l, p, t), "c", t, p.burst);
    BurstWithin(Forgotten(l, p, t), Begin(0.0), "c", t, p.burst, 0.0, t);
  }

  lemma BothBurstsPass(l: Limiter, p: Params, t: real)
    requires ValidParams(p) && p.window < t
    ensures Admits(l, p, TwoBursts(l, p, t), Begin(0.0), "c") == 2 * p.burst
  {
    hide Admits, Answer, Forgotten;
    forall j | 0 < j <= p.burst ensures Answer(l, p, Burst(Begin(0.0), "c", 0.0, j)) { FirstBurstPasses(l, p, j); }
    forall j | 0 < j <= p.burst
        ensures Answer(l, p, Burst(Forgotten(l, p, t), "c", t, j)) { SecondBurstPasses(l, p, t, j); }
    NoneYet(l, p);
    BurstAdmits(l, p, Begin(0.0), "c", 0.0, p.burst);
    TwoBurstsFacts(l, p, t);
    BurstAdmits(l, p, Forgotten(l, p, t), "c", t, p.burst);
  }

  lemma NoneYet(l: Limiter, p: Params)
    ensures Admits(l, p, Begin(0.0), Begin(0.0), "c") == 0
  {
  }

  /** With a shorter window two bursts, one at the start and one just after the window, are all let
      through, which a limiter that remembers would not do. */
  lemma ShortWindowForgives(l: Limiter, p: Params, t: real)
    requires ValidParams(p) && p.window < t && Refill(p, t) < p.burst as real
    ensures Monotone(TwoBursts(l, p, t)) && !AgreesThroughout(l, p, TwoBursts(l, p, t))
  {
    TwoBurstsFacts(l, p, t);
    RefillBound(l, p, TwoBursts(l, p, t), Begin(0.0), "c", 0.0, t);
    BothBurstsPass(l, p, t);
    assert t - 0.0 == t;
    hide TwoBursts, ForeverAdmits, Admits, AgreesThroughout, Within, Monotone, Refill;
    if AgreesThroughout(l, p, TwoBursts(l, p, t)) {
      AdmitsAsForever(l, p, TwoBursts(l, p, t), Begin(0.0), "c");
      assert false;
    }
  }

  /** Each limiter answers as one that never forgets, on every run, exactly when its window is long
      enough to refill a bucket. */
  lemma ForgettingIsInvisibleIff(l: Limiter, p: Params)
    requires ValidParams(p)
    ensures p.window * p.rate >= p.burst as real <==> forall run :: Monotone(run) ==> AgreesThroughout(l, p, run)
  {
    if p.window * p.rate >= p.burst as real {
      forall run | Monotone(run) ensures AgreesThroughout(l, p, run) { LongWindowAgrees(l, p, run); }
    } else {
      var gap := p.burst as real / p.rate;
      assert gap * p.rate == p.burst as real;
      if gap <= p.window { MulMonotone(p.rate, gap, p.window); }
      var t := (p.window + gap) / 2.0;
      assert p.rate * (gap - t) > 0.0;
      assert p.rate * (gap - t) == p.burst as real - p.rate * t;
      ShortWindowForgives(l, p, t);
    }
  }

  /** The settings the two servers fall back on: ten minutes and twice the rate at the edge always
      meet the condition; five minutes and a burst of at least one at the DNS server do exactly when
      the rate is one query in five minutes or more. */
  lemma DefaultWindows(rps: nat, rate: real)
    requires rps > 0 && rate > 0.0
    ensures 600.0 * rps as real >= (2 * rps) as real
    ensures var burst := if (2.0 * rate).Floor < 1 then 1 else (2.0 * rate).Floor;
            300.0 * rate >= burst as real <==> 300.0 * rate >= 1.0
  {
    var n := (2.0 * rate).Floor;
    assert n as real <= 2.0 * rate;
  }
}
