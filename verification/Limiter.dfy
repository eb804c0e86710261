/** The per-client rate limiters of pkg/dnsplugin/plugin.go and pkg/proxy/rate_limiter.go, with the
    token bucket they rely on. Times and tokens are real numbers. */
module Limiters {
  import opened Options

  /** Tokens per second, bucket size, and how long an idle client is remembered. */
  datatype Params = Params(rate: real, burst: nat, window: real)

  predicate ValidParams(p: Params) {
    p.rate > 0.0 && p.burst >= 1 && p.window > 0.0
  }

  datatype Bucket = Bucket(tokens: real, last: real)

  function Full(p: Params, now: real): Bucket {
    Bucket(p.burst as real, now)
  }

  /** The tokens that arrive in a stretch of time. */
  function Refill(p: Params, elapsed: real): real {
    p.rate * elapsed
  }

  /** The tokens available at `now`; no time passes backwards. */
  function Level(p: Params, b: Bucket, now: real): real {
    var elapsed := if now < b.last then 0.0 else now - b.last;
    var tokens := b.tokens + Refill(p, elapsed);
    if tokens > p.burst as real then p.burst as real else tokens
  }

  /** Take one token if there is one; a refusal leaves the bucket as it was. */
  function Take(p: Params, b: Bucket, now: real): (Bucket, bool) {
    var level := Level(p, b, now);
    if level >= 1.0 then (Bucket(level - 1.0, now), true) else (b, false)
  }

  datatype Client = Client(bucket: Bucket, lastSeen: real)

  type Clients = map<string, Client>

  function Pruned(p: Params, m: Clients, now: real): Clients {
    map ip | ip in m && !(m[ip].lastSeen < now - p.window) :: m[ip]
  }

  function Touch(p: Params, m: Clients, ip: string, now: real): (Clients, bool) {
    var (b, ok) := Take(p, if ip in m then m[ip].bucket else Full(p, now), now);
    (m[ip := Client(b, now)], ok)
  }

  // ----- The DNS limiter: prunes before the check, once a period -----

  datatype DnsState = DnsState(entries: Clients, lastCleanup: Option<real>)

  function CleanupPeriod(ttl: real): real {
    if ttl / 2.0 > 0.0 then ttl / 2.0 else if ttl > 0.0 then ttl else 60.0
  }

  function Swept(p: Params, s: DnsState, now: real): DnsState {
    if s.lastCleanup.None? || now - s.lastCleanup.value >= CleanupPeriod(p.window)
    then DnsState(Pruned(p, s.entries, now), Some(now))
    else s
  }

  /** A query without a client address is never limited. */
  function AllowDns(p: Params, s: DnsState, ip: string, now: real): (DnsState, bool) {
    if ip == "" then (s, true)
    else
      var swept := Swept(p, s, now);
      var (entries, ok) := Touch(p, swept.entries, ip, now);
      (swept.(entries := entries), ok)
  }

  class RequestLimiter {
    const params: Params
    const cleanupPeriod: real
    var entries: Clients
    var lastCleanup: Option<real>

    ghost function View(): DnsState reads this {
      DnsState(entries, lastCleanup)
    }

    constructor (params: Params)
      ensures this.params == params && cleanupPeriod == CleanupPeriod(params.window)
      ensures View() == DnsState(map[], None)
    {
      this.params := params;
      cleanupPeriod := CleanupPeriod(params.window);
      entries := map[];
      lastCleanup := None;
    }

    method Allow(ip: string, now: real) returns (ok: bool)
      requires cleanupPeriod == CleanupPeriod(params.window)
      modifies this
      ensures (View(), ok) == AllowDns(params, old(View()), ip, now)
    {
      if ip == "" {
        return true;
      }
      if lastCleanup.None? || now - lastCleanup.value >= cleanupPeriod {
        entries := Sweep(params, entries, now);
        lastCleanup := Some(now);
      }
      var entry := if ip in entries then entries[ip].bucket else Full(params, now);
      var (bucket, allowed) := Take(params, entry, now);
      entries := entries[ip := Client(bucket, now)];
      return allowed;
    }
  }

  /** The deletion loop both limiters run. */
  method Sweep(p: Params, m: Clients, now: real) returns (r: Clients)
    ensures r == Pruned(p, m, now)
  {
    r := m;
    var cutoff := now - p.window;
    var todo := m.Keys;
    while todo != {}
      invariant todo <= m.Keys
      invariant r.Keys <= m.Keys && forall ip :: ip in r ==> r[ip] == m[ip]
      invariant forall ip :: ip in m ==> (ip in r <==> ip in todo || !(m[ip].lastSeen < cutoff))
    {
      var ip :| ip in todo;
      todo := todo - {ip};
      if m[ip].lastSeen < cutoff {
        r := r - {ip};
      }
    }
  }

  // ----- The edge limiter: prunes after the check, once there are many clients -----

  const MAX_CLIENTS := 2048

  function AllowEdge(p: Params, m: Clients, ip: string, now: real): (Clients, bool) {
    var (touched, ok) := Touch(p, m, ip, now);
    (if |touched| > MAX_CLIENTS then Pruned(p, touched, now) else touched, ok)
  }

  class ClientRateLimiter {
    const params: Params
    var clients: Clients

    constructor (params: Params)
      ensures this.params == params && clients == map[]
    {
      this.params := params;
      clients := map[];
    }

    method Allow(ip: string, now: real) returns (allowed: bool)
      modifies this
      ensures (clients, allowed) == AllowEdge(params, old(clients), ip, now)
    {
      var bucket := if ip in clients then clients[ip].bucket else Full(params, now);
      var (next, ok) := Take(params, bucket, now);
      clients := clients[ip := Client(next, now)];
      allowed := ok;
      if |clients| > MAX_CLIENTS {
        clients := Sweep(params, clients, now);
      }
    }
  }

  // ----- The reference: a limiter that keeps every client for ever -----

  type Buckets = map<string, Bucket>

  function AllowForever(p: Params, f: Buckets, ip: string, now: real): (Buckets, bool) {
    var (b, ok) := Take(p, if ip in f then f[ip] else Full(p, now), now);
    (f[ip := b], ok)
  }
}
