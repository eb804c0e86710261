/** How the edge proxy uses the response cache: pkg/proxy/proxy.go. */
module Proxies {
  import opened Options
  import opened Text
  import opened ResponseCaches
  import opened CacheRuns
  import opened CacheKeys

  datatype Config = Config(cacheEnabled: bool, maxBytes: int, maxItem: int, ttl: int, infinite: bool, negativeTTL: int)

  datatype Upstream = Upstream(status: int, header: Header, body: seq<bv8>)

  const MAX_INT64 := 0x7fff_ffff_ffff_ffff
  const DEFAULT_CAPACITY := 1024

  lemma Quotient(a: int, b: int)
    requires a >= 0 && b > 0
    ensures a / b * b <= a < (a / b + 1) * b
    ensures a / b > 0 <==> b <= a
  {
    var q := a / b;
    assert a == q * b + a % b;
    if q > 0 { assert q * b >= b; }
  }

  /** The capacity New gives the cache: the number of largest items that fit the budget, or 1024. */
  function Capacity(cfg: Config): (n: nat)
    ensures n > 0
    ensures 0 < cfg.maxItem <= cfg.maxBytes ==> n * cfg.maxItem <= cfg.maxBytes < (n + 1) * cfg.maxItem
    ensures !(0 < cfg.maxItem <= cfg.maxBytes) ==> n == 1024
  {
    if cfg.maxBytes > 0 && cfg.maxItem > 0 && cfg.maxBytes / cfg.maxItem > 0
    then
      Quotient(cfg.maxBytes, cfg.maxItem);
      cfg.maxBytes / cfg.maxItem
    else
      if cfg.maxBytes > 0 && cfg.maxItem > 0 then Quotient(cfg.maxBytes, cfg.maxItem); DEFAULT_CAPACITY
      else DEFAULT_CAPACITY
  }

  function Digits(s: string): Option<nat> {
    if s == "" then Some(0)
    else match Digits(s[..|s| - 1])
      case None => None
      case Some(n) =>
        var c := s[|s| - 1];
        if '0' <= c <= '9' then Some(10 * n + (c as int - '0' as int)) else None
  }

  /** A positive int64 in decimal, with an optional plus sign. */
  function HeightText(raw: string): Option<int> {
    var digits := if raw != "" && raw[0] == '+' then raw[1..] else raw;
    if digits == "" then None
    else match Digits(digits)
      case Some(n) => if 0 < n <= MAX_INT64 then Some(n) else None
      case None => None
  }

  /** The height parameter of a request: its first value. */
  function Height(query: map<string, seq<string>>): Option<int> {
    if "height" !in query || query["height"] == [] then None else HeightText(query["height"][0])
  }

  /** shouldCacheRequest. */
  predicate Cacheable(cfg: Config, r: Request) {
    cfg.cacheEnabled && r.verb == "GET" && Height(r.query).Some?
  }

  function Lower(s: string): (r: string)
    ensures |r| == |s|
    ensures forall i :: 0 <= i < |s| ==>
              r[i] == if 'A' <= s[i] <= 'Z' then (s[i] as int - 'A' as int + 'a' as int) as char else s[i]
  {
    seq(|s|, i requires 0 <= i < |s| => if 'A' <= s[i] <= 'Z' then (s[i] as int + 32) as char else s[i])
  }

  ghost predicate StandsAt(s: string, t: string, i: int) {
    0 <= i <= |s| - |t| && s[i..i + |t|] == t
  }

  /** `t` stands somewhere in `s`. */
  predicate Contains(s: string, t: string): (r: bool)
    ensures r <==> exists i :: StandsAt(s, t, i)
  {
    if |t| > |s| then false
    else if s[..|t|] == t then assert StandsAt(s, t, 0); true
    else if s == [] then false
    else StandsLater(s, t); Contains(s[1..], t)
  }

  lemma SliceOfRest(s: string, i: int, n: nat)
    requires 1 <= i <= |s| - n
    ensures s[i..i + n] == s[1..][i - 1..i - 1 + n]
  {
    var a, b := s[i..i + n], s[1..][i - 1..i - 1 + n];
    assert |a| == |b| && forall k :: 0 <= k < n ==> a[k] == s[i + k] == b[k];
  }

  lemma StandsLater(s: string, t: string)
    requires 0 < |s| && |t| <= |s| && s[..|t|] != t
    ensures (exists i :: StandsAt(s, t, i)) <==> exists i :: StandsAt(s[1..], t, i)
  {
    if i :| StandsAt(s, t, i) {
      assert s[0..0 + |t|] == s[..|t|];
      assert i > 0;
      SliceOfRest(s, i, |t|);
      assert StandsAt(s[1..], t, i - 1);
    }
    if i :| StandsAt(s[1..], t, i) {
      SliceOfRest(s, i + 1, |t|);
      assert StandsAt(s, t, i + 1);
    }
  }

  predicate NegativelyCacheable(r: Request) {
    r.verb == "GET" &&
    var path := Lower(r.path);
    Contains(path, "/txs/") || Contains(path, "/tx/") || Contains(path, "tx_search")
  }

  /** What writeUpstreamResponse stores, and under which key; the header is the one sent on. */
  ghost function ToStore(cfg: Config, r: Request, up: Upstream, now: int): Option<Slot> {
    if !cfg.cacheEnabled then None
    else if Cacheable(cfg, r) && up.status == 200 then
      if cfg.maxItem > 0 && |up.body| > cfg.maxItem then None
      else
        var ttl := if cfg.infinite then 0 else cfg.ttl;
        Some(Slot(KeyOf(r, "height"), BuildEntry(up.status, up.header, up.body, ttl, now)))
    else if cfg.negativeTTL > 0 && up.status == 404 && NegativelyCacheable(r) then
      Some(Slot(KeyOf(r, "404"), BuildEntry(up.status, up.header, up.body, cfg.negativeTTL, now)))
    else None
  }

  // ----- What is stored, written out -----

  /** `zeros` zeros. */
  function Zeros(zeros: nat): string {
    seq(zeros, i => '0')
  }

  lemma DigitsAppend(s: string, k: nat)
    requires Digits(s).Some? && k < 10
    ensures Digits(s + [DIGITS[k]]) == Some(10 * Digits(s).value + k)
  {
    DigitChar(k);
    DigitsLast(s, DIGITS[k], k);
  }

  lemma DigitChar(k: nat)
    requires k < 10
    ensures '0' <= DIGITS[k] <= '9' && DIGITS[k] as int - '0' as int == k
  {
  }

  lemma DigitsLast(s: string, c: char, k: nat)
    requires Digits(s).Some? && '0' <= c <= '9' && c as int - '0' as int == k
    ensures Digits(s + [c]) == Some(10 * Digits(s).value + k)
  {
    var t := s + [c];
    assert t[..|t| - 1] == s && t[|t| - 1] == c;
  }

  lemma {:induction false} DigitsOfZeros(zeros: nat)
    ensures Digits(Zeros(zeros)) == Some(0)
  {
    hide Digits;
    if zeros > 0 {
      DigitsOfZeros(zeros - 1);
      DigitsAppend(Zeros(zeros - 1), 0);
      assert Zeros(zeros) == Zeros(zeros - 1) + [DIGITS[0]];
    } else {
      NoDigits();
      assert Zeros(0) == "";
    }
  }

  lemma NoDigits()
    ensures Digits("") == Some(0)
  {
  }

  lemma {:induction false} DigitsOfDecimal(zeros: nat, n: nat)
    ensures Digits(Zeros(zeros) + Decimal(n)) == Some(n)
  {
    hide Digits, Zeros;
    if n < 10 {
      DigitsOfZeros(zeros);
      DigitsAppend(Zeros(zeros), n);
    } else {
      DigitsOfDecimal(zeros, n / 10);
      DigitsAppend(Zeros(zeros) + Decimal(n / 10), n % 10);
      assert Zeros(zeros) + (Decimal(n / 10) + [DIGITS[n % 10]]) == Zeros(zeros) + Decimal(n / 10) + [DIGITS[n % 10]];
    }
  }

  /** `s` is `n` in decimal after `zeros` zeros; no digit is left of the number 0. */
  ghost predicate Written(s: string, zeros: nat, n: nat) {
    s == Zeros(zeros) + if n == 0 then "" else Decimal(n)
  }

  lemma OneMoreDigit(s: string, zeros: nat, m: nat, k: nat) returns (z: nat)
    requires Written(s, zeros, m) && k < 10
    ensures Written(s + [DIGITS[k]], z, 10 * m + k)
  {
    hide Decimal;
    if m == 0 && k == 0 {
      z := zeros + 1;
      assert Zeros(z) == Zeros(zeros) + [DIGITS[0]];
    } else {
      z := zeros;
      DecimalDigits(m, k);
      if m == 0 {
        assert s == Zeros(zeros);
      } else {
        assert Zeros(zeros) + Decimal(m) + [DIGITS[k]] == Zeros(zeros) + (Decimal(m) + [DIGITS[k]]);
      }
    }
  }

  lemma DecimalDigits(m: nat, k: nat)
    requires k < 10
    ensures m > 0 ==> Decimal(10 * m + k) == Decimal(m) + [DIGITS[k]]
    ensures Decimal(k) == [DIGITS[k]]
  {
    assert (10 * m + k) / 10 == m && (10 * m + k) % 10 == k;
  }

  lemma DigitsSplit(s: string)
    requires s != "" && Digits(s).Some?
    ensures var (front, c) := (s[..|s| - 1], s[|s| - 1]);
            && '0' <= c <= '9' && Digits(front).Some?
            && Digits(s).value == 10 * Digits(front).value + (c as int - '0' as int)
  {
  }

  lemma DigitIs(c: char) returns (k: nat)
    requires '0' <= c <= '9'
    ensures k < 10 && DIGITS[k] == c && k == c as int - '0' as int
  {
    k := c as int - '0' as int;
  }

  /** A text that reads as `n` is its decimal form after some zeros, or only zeros. */
  lemma {:induction false} DigitsAreDecimal(s: string, n: nat) returns (zeros: nat)
    requires Digits(s) == Some(n)
    ensures Written(s, zeros, n)
  {
    if s == "" {
      zeros := 0;
      NoDigits();
    } else {
      DigitsSplit(s);
      hide Digits, Written, DIGITS;
      var front, c := s[..|s| - 1], s[|s| - 1];
      var m := Digits(front).value;
      var z := DigitsAreDecimal(front, m);
      var k := DigitIs(c);
      zeros := OneMoreDigit(front, z, m, k);
      assert s == front + [c];
    }
  }

  /** `raw` is `n` in decimal, after an optional plus sign and any zeros. */
  ghost predicate IsNumeral(raw: string, n: nat) {
    exists zeros :: raw == Zeros(zeros) + Decimal(n) || raw == "+" + (Zeros(zeros) + Decimal(n))
  }

  lemma FirstIsDigit(zeros: nat, n: nat)
    ensures var s := Zeros(zeros) + Decimal(n); s != "" && s[0] != '+'
  {
    hide Decimal;
    if zeros == 0 { assert (Zeros(zeros) + Decimal(n))[0] == Decimal(n)[0]; }
  }

  function Unsigned(raw: string): string {
    if raw != "" && raw[0] == '+' then raw[1..] else raw
  }

  lemma NumeralUnsigned(raw: string, n: nat) returns (zeros: nat)
    requires IsNumeral(raw, n)
    ensures Unsigned(raw) == Zeros(zeros) + Decimal(n)
  {
    hide Decimal, Zeros;
    zeros :| raw == Zeros(zeros) + Decimal(n) || raw == "+" + (Zeros(zeros) + Decimal(n));
    FirstIsDigit(zeros, n);
    if raw == "+" + (Zeros(zeros) + Decimal(n)) { assert raw[0] == '+' && raw[1..] == Zeros(zeros) + Decimal(n); }
  }

  /** A height parameter is read exactly as the positive int64 whose numeral it is. */
  lemma HeightIsNumeral(raw: string, n: nat)
    requires n > 0
    ensures HeightText(raw) == Some(n) <==> n <= 0x7fff_ffff_ffff_ffff && IsNumeral(raw, n)
  {
    hide Digits, Decimal, Zeros, IsNumeral;
    assert HeightText(raw) == Some(n) ==> Digits(Unsigned(raw)) == Some(n) && n <= MAX_INT64;
    assert Unsigned(raw) != "" && Digits(Unsigned(raw)) == Some(n) && n <= MAX_INT64 ==> HeightText(raw) == Some(n);
    if HeightText(raw) == Some(n) {
      var zeros := DigitsAreDecimal(Unsigned(raw), n);
      SignedNumeral(raw, zeros, n);
    }
    if n <= MAX_INT64 && IsNumeral(raw, n) {
      var zeros := NumeralUnsigned(raw, n);
      FirstIsDigit(zeros, n);
      DigitsOfDecimal(zeros, n);
    }
  }

  lemma SignedNumeral(raw: string, zeros: nat, n: nat)
    requires n > 0 && Written(Unsigned(raw), zeros, n)
    ensures IsNumeral(raw, n)
  {
    hide Decimal, Zeros;
    assert raw == Unsigned(raw) || raw == "+" + Unsigned(raw);
  }

  /** No other text is a height: not zero, not a negative number, not one over int64. */
  lemma HeightIsPositive(raw: string)
    ensures HeightText(raw).Some? ==> 0 < HeightText(raw).value <= 0x7fff_ffff_ffff_ffff
  {
  }

  /** Which requests are cacheable. */
  lemma CacheableExactly(cfg: Config, r: Request)
    ensures Cacheable(cfg, r) <==>
              cfg.cacheEnabled && r.verb == "GET" && "height" in r.query && r.query["height"] != [] &&
              exists n: nat :: 0 < n <= 0x7fff_ffff_ffff_ffff && IsNumeral(r.query["height"][0], n)
  {
    if "height" in r.query && r.query["height"] != [] {
      var raw := r.query["height"][0];
      HeightIsPositive(raw);
      if HeightText(raw).Some? { HeightIsNumeral(raw, HeightText(raw).value); }
      if n: nat :| 0 < n <= 0x7fff_ffff_ffff_ffff && IsNumeral(raw, n) { HeightIsNumeral(raw, n); }
    }
  }

  /** Which responses are stored, under which key and until when: a 200 to a cacheable request that is
      not too large, and a 404 to a GET whose lower-cased path names transactions. */
  lemma StoredExactly(cfg: Config, r: Request, up: Upstream, now: int)
    ensures var stored := ToStore(cfg, r, up, now);
            if up.status == 200 then
              && (stored.Some? <==> Cacheable(cfg, r) && (cfg.maxItem <= 0 || |up.body| <= cfg.maxItem))
              && (stored.Some? ==>
                    var until := if cfg.infinite || cfg.ttl <= 0 then None else Some(now + cfg.ttl);
                    stored.value == Slot(KeyOf(r, "height"), Entry(200, up.header, up.body, now, until, |up.body|)))
            else if up.status == 404 then
              && (stored.Some? <==>
                    cfg.cacheEnabled && cfg.negativeTTL > 0 && r.verb == "GET" &&
                    (Contains(Lower(r.path), "/txs/") || Contains(Lower(r.path), "/tx/") ||
                     Contains(Lower(r.path), "tx_search")))
              && (stored.Some? ==>
                    var until := Some(now + cfg.negativeTTL);
                    stored.value == Slot(KeyOf(r, "404"), Entry(404, up.header, up.body, now, until, |up.body|)))
            else stored == None
  {
    hide KeyOf, Height, Contains, Lower;
  }

  class Proxy {
    const cfg: Config
    // No cache is made when caching is disabled.
    const cache: ResponseCache?

    ghost predicate Valid() {
      cache != null <==> cfg.cacheEnabled
    }

    ghost function Owned(): set<object> {
      if cache == null then {} else {cache, cache.store}
    }

    ghost function View(): State
      reads Owned()
    {
      if cache == null then State([], 0) else cache.View()
    }

    constructor (cfg: Config)
      ensures this.cfg == cfg && Valid() && fresh(Owned()) && View() == State([], 0)
      ensures cache != null ==> cache.store.capacity == Capacity(cfg) && cache.maxBytes == cfg.maxBytes
    {
      this.cfg := cfg;
      if cfg.cacheEnabled {
        var made := NewResponseCache(Capacity(cfg), cfg.maxBytes);
        cache := made.value;
      } else {
        cache := null;
      }
    }

    /** The cache half of handleHTTP: a cacheable request is looked up under its height key. */
    method ServeFromCache(r: Request, now: int) returns (served: Option<Entry>)
      requires Valid()
      modifies Owned()
      ensures !Cacheable(cfg, r) ==> served == None && View() == old(View())
      ensures Cacheable(cfg, r) ==>
                served == Hit(old(View()).items, KeyOf(r, "height"), now) &&
                View() == Looked(old(View()), KeyOf(r, "height"), now)
    {
      if !Cacheable(cfg, r) {
        return None;
      }
      var key := CacheKey(r, "height");
      served := cache.Lookup(key, now);
    }

    method WriteUpstreamResponse(r: Request, up: Upstream, now: int)
      requires Valid()
      modifies Owned()
      ensures View() == match ToStore(cfg, r, up, now)
                        case None => old(View())
                        case Some(s) => Stored(cache.store.capacity, cache.maxBytes, old(View()), s.key, s.entry)
    {
      if !cfg.cacheEnabled {
        return;
      }
      if Cacheable(cfg, r) && up.status == 200 {
        if cfg.maxItem > 0 && |up.body| > cfg.maxItem {
          return;
        }
        var ttl := cfg.ttl;
        if cfg.infinite {
          ttl := 0;
        }
        var key := CacheKey(r, "height");
        cache.Store(key, Some(BuildEntry(up.status, up.header, up.body, ttl, now)));
        return;
      }
      if cfg.negativeTTL > 0 && up.status == 404 && NegativelyCacheable(r) {
        var key := CacheKey(r, "404");
        cache.Store(key, Some(BuildEntry(up.status, up.header, up.body, cfg.negativeTTL, now)));
      }
    }
  }

  // ----- Requests that share a key -----

  /** Cacheable requests do collide: every one of them without a query name "" has two cacheable
      extensions with different paths and one key, for each value. */
  lemma CacheableKeysCollide(cfg: Config, r: Request, value: string)
    requires Cacheable(cfg, r) && "" !in r.query
    ensures var q, p := WithEmptyName(r, value), WithLongerPath(r, value);
            && Cacheable(cfg, q) && Cacheable(cfg, p)
            && KeyOf(q, "height") == KeyOf(p, "height") && !SameComponents(q, p)
  {
    PathCanForgeQuery(r, value, "height");
    SameHeight(r.query, r.query["" := [value]]);
  }

  lemma SameHeight(a: map<string, seq<string>>, b: map<string, seq<string>>)
    requires "height" in a && "height" in b && a["height"] == b["height"]
    ensures Height(a) == Height(b)
  {
  }

  // ----- Runs of the proxy -----

  /** What reaches the cache, in order: the response to a request, the reading half of a lookup for a
      request, and the removal of what a lookup found expired, which may come after other steps. */
  datatype Traffic =
    | Start
    | Respond(before: Traffic, request: Request, upstream: Upstream, now: int)
    | Seek(before: Traffic, request: Request)
    | Expire(before: Traffic, request: Request)

  /** The steps the cache takes. */
  ghost function CacheRun(cfg: Config, t: Traffic): Run {
    match t
    case Start => Run.Begin
    case Respond(before, r, up, now) =>
      (match ToStore(cfg, r, up, now)
       case Some(s) => Then(CacheRun(cfg, before), Put(s.key, s.entry))
       case None => CacheRun(cfg, before))
    case Seek(before, r) => Then(CacheRun(cfg, before), Read(KeyOf(r, "height")))
    case Expire(before, r) => Then(CacheRun(cfg, before), Drop(KeyOf(r, "height")))
  }

  ghost function CacheAfter(cfg: Config, t: Traffic): State {
    Exec(Limits(Capacity(cfg), cfg.maxBytes), CacheRun(cfg, t))
  }

  /** What a lookup for `r` at `now` would find. */
  ghost function Served(cfg: Config, t: Traffic, r: Request, now: int): Option<Entry> {
    Hit(CacheAfter(cfg, t).items, KeyOf(r, "height"), now)
  }

  /** A response that was written, with its request. */
  datatype Exchange = Exchange(request: Request, upstream: Upstream, at: int)

  /** The last exchange whose response was stored under `key` and not removed since. */
  ghost function Origin(cfg: Config, t: Traffic, key: string): Option<Exchange> {
    match t
    case Start => None
    case Respond(before, r, up, now) =>
      var s := ToStore(cfg, r, up, now);
      if s.Some? && s.value.key == key then Some(Exchange(r, up, now)) else Origin(cfg, before, key)
    case Seek(before, _) => Origin(cfg, before, key)
    case Expire(before, r) => if KeyOf(r, "height") == key then None else Origin(cfg, before, key)
  }

  /** The methods make these steps: a response, and a lookup as a Seek with its Expire at once. */
  lemma MethodsMakeTraffic(cfg: Config, t: Traffic, r: Request, up: Upstream, now: int)
    ensures CacheAfter(cfg, Respond(t, r, up, now)) ==
            match ToStore(cfg, r, up, now)
            case None => CacheAfter(cfg, t)
            case Some(s) => Stored(Capacity(cfg), cfg.maxBytes, CacheAfter(cfg, t), s.key, s.entry)
    ensures Looked(CacheAfter(cfg, t), KeyOf(r, "height"), now) ==
            if Find(CacheAfter(cfg, t).items, KeyOf(r, "height")).Some? && Served(cfg, t, r, now).None?
            then CacheAfter(cfg, Expire(Seek(t, r), r)) else CacheAfter(cfg, Seek(t, r))
  {
    hide ToStore, KeyOf, Stored, Deleted, Touched;
    var c, key := CacheAfter(cfg, t), KeyOf(r, "height");
    assert CacheAfter(cfg, Seek(t, r)) == State(Touched(c.items, key), c.current);
    assert CacheAfter(cfg, Expire(Seek(t, r), r)) == Deleted(CacheAfter(cfg, Seek(t, r)), key);
  }

  /** The unbounded map holds exactly what the origins stored. */
  lemma {:induction false} IdealIsOrigin(cfg: Config, t: Traffic, key: string)
    ensures key in Ideal(CacheRun(cfg, t)) <==> Origin(cfg, t, key).Some?
    ensures Origin(cfg, t, key).Some? ==>
              var o := Origin(cfg, t, key).value;
              ToStore(cfg, o.request, o.upstream, o.at) == Some(Slot(key, Ideal(CacheRun(cfg, t))[key]))
  {
    hide ToStore, KeyOf;
    if !t.Start? { IdealIsOrigin(cfg, t.before, key); }
  }

  lemma {:induction false} TrafficNonNegative(cfg: Config, t: Traffic)
    ensures NonNegative(CacheRun(cfg, t))
  {
    hide KeyOf, Cacheable, NegativelyCacheable;
    if !t.Start? { TrafficNonNegative(cfg, t.before); }
  }

  /** Every hit has an origin: the last exchange stored under that key, whose response it is. */
  lemma HitHasOrigin(cfg: Config, t: Traffic, key: string, now: int)
    requires Hit(CacheAfter(cfg, t).items, key, now).Some?
    ensures Origin(cfg, t, key).Some?
    ensures var o := Origin(cfg, t, key).value;
            ToStore(cfg, o.request, o.upstream, o.at) == Some(Slot(key, Hit(CacheAfter(cfg, t).items, key, now).value))
  {
    hide ToStore;
    HitsAreIdeal(Limits(Capacity(cfg), cfg.maxBytes), CacheRun(cfg, t), key, now);
    IdealIsOrigin(cfg, t, key);
  }

  /** What is held for a request is served exactly while it is fresh: for ever with an infinite or no
      TTL, and otherwise through the TTL after its response came; nothing else is served. */
  lemma ServedIffFresh(cfg: Config, t: Traffic, r: Request, now: int)
    ensures Served(cfg, t, r, now).Some? ==> Find(CacheAfter(cfg, t).items, KeyOf(r, "height")).Some?
    ensures Find(CacheAfter(cfg, t).items, KeyOf(r, "height")).Some? ==>
              Origin(cfg, t, KeyOf(r, "height")).Some? &&
              (Served(cfg, t, r, now).Some? <==>
                 cfg.infinite || cfg.ttl <= 0 || now <= Origin(cfg, t, KeyOf(r, "height")).value.at + cfg.ttl)
  {
    hide KeyOf, ToStore, Origin, CacheAfter, Cacheable, CacheRun, Expired;
    var key, items := KeyOf(r, "height"), CacheAfter(cfg, t).items;
    var found := Find(items, key);
    if found.Some? {
      HeldIsOrigin(cfg, t, key);
      var o := Origin(cfg, t, key).value;
      HeldExpiry(cfg, o, r, found.value, now);
    }
  }

  lemma HeldIsOrigin(cfg: Config, t: Traffic, key: string)
    requires Find(CacheAfter(cfg, t).items, key).Some?
    ensures Origin(cfg, t, key).Some?
    ensures var o := Origin(cfg, t, key).value;
            ToStore(cfg, o.request, o.upstream, o.at) == Some(Slot(key, Find(CacheAfter(cfg, t).items, key).value))
  {
    hide ToStore;
    var found := Find(CacheAfter(cfg, t).items, key);
    assert Slot(key, found.value) in CacheAfter(cfg, t).items;
    ContentsBacked(Limits(Capacity(cfg), cfg.maxBytes), CacheRun(cfg, t));
    IdealIsOrigin(cfg, t, key);
  }

  lemma HeldExpiry(cfg: Config, o: Exchange, r: Request, e: Entry, now: int)
    requires ToStore(cfg, o.request, o.upstream, o.at) == Some(Slot(KeyOf(r, "height"), e))
    ensures !Expired(e, now) <==> cfg.infinite || cfg.ttl <= 0 || now <= o.at + cfg.ttl
  {
    hide KeyOf, ToStore, Cacheable, Contains, Lower;
    PositiveAndNegativeKeysDiffer(r, o.request);
    StoredExactly(cfg, o.request, o.upstream, o.at);
  }

  /** A served response was the upstream's 200 to the origin of its key. */
  lemma ServedWasStored(cfg: Config, t: Traffic, r: Request, now: int)
    requires Served(cfg, t, r, now).Some?
    ensures Origin(cfg, t, KeyOf(r, "height")).Some?
    ensures var (e, o) := (Served(cfg, t, r, now).value, Origin(cfg, t, KeyOf(r, "height")).value);
            && Cacheable(cfg, o.request) && KeyOf(o.request, "height") == KeyOf(r, "height")
            && e.body == o.upstream.body && e.header == o.upstream.header && e.status == o.upstream.status == 200
  {
    var key := KeyOf(r, "height");
    HitHasOrigin(cfg, t, key, now);
    var o := Origin(cfg, t, key).value;
    hide KeyOf, Cacheable, NegativelyCacheable, Origin, CacheAfter;
    PositiveAndNegativeKeysDiffer(r, o.request);
  }

  /** Every response served from the cache has status 200: what is stored after a 404 is never
      found by any lookup. */
  lemma ServedIsOk(cfg: Config, t: Traffic, r: Request, now: int)
    ensures Served(cfg, t, r, now).Some? ==> Served(cfg, t, r, now).value.status == 200
  {
    if Served(cfg, t, r, now).Some? { ServedWasStored(cfg, t, r, now); }
  }

  /** Whatever paths and queries were sent, the origin had the same method and host, and was on the
      same chain when that is read from the host. */
  lemma ServedFromSameHost(cfg: Config, t: Traffic, r: Request, now: int)
    requires Served(cfg, t, r, now).Some? && Framed(r)
    ensures Origin(cfg, t, KeyOf(r, "height")).Some?
    ensures var q := Origin(cfg, t, KeyOf(r, "height")).value.request;
            Framed(q) ==>
              q.verb == r.verb && StripPort(q.host) == StripPort(r.host) &&
                  (ChainFromHost(r) ==> ChainOf(q) == ChainOf(r))
  {
    hide KeyOf, StripPort, Framed, Origin, Served, ChainFromHost, ChainOf;
    ServedWasStored(cfg, t, r, now);
    var q := Origin(cfg, t, KeyOf(r, "height")).value.request;
    if Framed(q) {
      KeysFixFrame(q, r, "height");
      SameHostSameChain(q, r);
    }
  }

  /** When neither holds a separator, the origin had the same path and query pairs too. */
  lemma ServedAnswersSameRequest(cfg: Config, t: Traffic, r: Request, now: int)
    requires Served(cfg, t, r, now).Some? && Clean(r)
    ensures Origin(cfg, t, KeyOf(r, "height")).Some?
    ensures var q := Origin(cfg, t, KeyOf(r, "height")).value.request; Clean(q) ==> SameComponents(q, r)
  {
    hide KeyOf, SameComponents, Clean, Origin, Served;
    ServedWasStored(cfg, t, r, now);
    var q := Origin(cfg, t, KeyOf(r, "height")).value.request;
    if Clean(q) { KeysIdentifyRequests(q, "height", r, "height"); }
  }

  lemma SameHostSameChain(q: Request, r: Request)
    requires StripPort(q.host) == StripPort(r.host)
    ensures ChainFromHost(r) ==> ChainOf(q) == ChainOf(r)
  {
  }

  /** The separators matter: the response to one of two colliding requests is served to the other,
      for every cacheable request they extend and every response that fits the cache. */
  lemma ServedAcross(cfg: Config, r: Request, value: string, up: Upstream, now: int)
    requires Cacheable(cfg, r) && "" !in r.query && up.status == 200
    requires cfg.maxItem <= 0 || |up.body| <= cfg.maxItem
    requires cfg.maxBytes <= 0 || |up.body| <= cfg.maxBytes
    ensures var (q, p) := (WithEmptyName(r, value), WithLongerPath(r, value));
            var t := Respond(Start, p, up, now);
            && Cacheable(cfg, q) && Cacheable(cfg, p) && !SameComponents(q, p)
            && Served(cfg, t, q, now).Some? && Served(cfg, t, q, now).value.body == up.body
            && Origin(cfg, t, KeyOf(q, "height")) == Some(Exchange(p, up, now))
  {
    var q, p := WithEmptyName(r, value), WithLongerPath(r, value);
    CacheableKeysCollide(cfg, r, value);
    FirstStored(cfg, p, up, now);
  }

  lemma FirstSlot(cfg: Config, p: Request, up: Upstream, now: int) returns (e: Entry)
    requires Cacheable(cfg, p) && up.status == 200 && (cfg.maxItem <= 0 || |up.body| <= cfg.maxItem)
    ensures ToStore(cfg, p, up, now) == Some(Slot(KeyOf(p, "height"), e))
    ensures e.body == up.body && e.size == |up.body| && !Expired(e, now)
  {
    e := BuildEntry(up.status, up.header, up.body, if cfg.infinite then 0 else cfg.ttl, now);
    assert cfg.cacheEnabled;
    hide KeyOf, Cacheable, NegativelyCacheable;
  }

  lemma FirstStored(cfg: Config, p: Request, up: Upstream, now: int)
    requires Cacheable(cfg, p) && up.status == 200
    requires cfg.maxItem <= 0 || |up.body| <= cfg.maxItem
    requires cfg.maxBytes <= 0 || |up.body| <= cfg.maxBytes
    ensures var t := Respond(Start, p, up, now);
            && Served(cfg, t, p, now).Some? && Served(cfg, t, p, now).value.body == up.body
            && Origin(cfg, t, KeyOf(p, "height")) == Some(Exchange(p, up, now))
  {
    hide KeyOf, Cacheable, Capacity, ToStore, Stored, Find, CacheAfter, Expired;
    var e := FirstSlot(cfg, p, up, now);
    StoredAlone(Capacity(cfg), cfg.maxBytes, KeyOf(p, "height"), e);
    NothingAtStart(cfg);
    MethodsMakeTraffic(cfg, Start, p, up, now);
  }

  lemma NothingAtStart(cfg: Config)
    ensures CacheAfter(cfg, Start) == State([], 0)
  {
  }

  lemma StoredAlone(capacity: nat, max: int, key: string, e: Entry)
    requires capacity > 0 && (max <= 0 || e.size <= max)
    ensures Stored(capacity, max, State([], 0), key, e).items == [Slot(key, e)]
    ensures Find([Slot(key, e)], key) == Some(e)
  {
  }

  /** Under the proxy's own stores the byte count is honest up to the leak, and with a positive
      budget it never exceeds it. */
  lemma ProxyBytes(cfg: Config, t: Traffic)
    ensures var lim := Limits(Capacity(cfg), cfg.maxBytes);
            && CacheAfter(cfg, t).current == Bytes(CacheAfter(cfg, t).items) + Leaked(lim, CacheRun(cfg, t))
            && (cfg.maxBytes > 0 ==> CacheAfter(cfg, t).current <= cfg.maxBytes)
  {
    var lim := Limits(Capacity(cfg), cfg.maxBytes);
    TrafficNonNegative(cfg, t);
    LiveAndLeaked(lim, CacheRun(cfg, t));
    if cfg.maxBytes > 0 { BudgetLaw(lim, CacheRun(cfg, t)); }
  }
}
