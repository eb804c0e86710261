/** The registry store of pkg/registry/store.go. Backend metadata and node adverts are signed
    announcements kept in two replicated tables of the same shape. */
module Registry {
  import opened Options
  import opened Lww
  import opened VersionVectors

  type Bytes = seq<bv8>

  /** BackendMeta and NodeAdvert: the fields the store reads, and the rest as `body`. */
  datatype Announcement<P> = Announcement(id: string, clock: nat, atUnix: int, key: Bytes, sig: Bytes, body: P)

  datatype BackendBody = BackendBody(
    host: string, ips: seq<Bytes>, country: string, region: string, chain: string,
    caps: map<string, bool>, archival: bool)

  datatype NodeBody = NodeBody(nsServing: bool, ips: seq<Bytes>, country: string, region: string)

  type Records<P> = map<string, Entry<Announcement<P>>>

  /** A replicated table with its version vector. */
  datatype Table<P> = Table(items: Records<P>, vv: Vector)

  datatype ApplyError = MissingKey | EncodingFailed | InvalidSignature
  datatype Applied = Changed(changed: bool) | Rejected(error: ApplyError)

  /** The canonical encoding and ed25519 verification, both left uninterpreted. */
  datatype Crypto<!P> = Crypto(encode: Announcement<P> -> Option<Bytes>, verify: (Bytes, Bytes, Bytes) -> bool)

  const PUBLIC_KEY_SIZE := 32
  const NANOS_PER_SECOND := 1_000_000_000
  const TWO63 := 0x8000_0000_0000_0000
  const TWO64 := 0x1_0000_0000_0000_0000

  /** An int64 product keeps the low 64 bits. */
  function WrapInt64(x: int): (r: int)
    ensures -0x8000_0000_0000_0000 <= r < 0x8000_0000_0000_0000 && (x - r) % 0x1_0000_0000_0000_0000 == 0
    ensures -0x8000_0000_0000_0000 <= x < 0x8000_0000_0000_0000 ==> r == x
  {
    (x + TWO63) % TWO64 - TWO63
  }

  function ClockOf<P>(a: Announcement<P>): Clock {
    Clock(a.clock, WrapInt64(a.atUnix * NANOS_PER_SECOND))
  }

  function EntryOf<P>(a: Announcement<P>): Entry<Announcement<P>> {
    Entry(a, ClockOf(a), false)
  }

  /** The error an announcement is refused with, if any. */
  function Refusal<P>(c: Crypto<P>, a: Announcement<P>): Option<ApplyError> {
    if |a.key| != PUBLIC_KEY_SIZE then Some(MissingKey)
    else match c.encode(a)
      case None => Some(EncodingFailed)
      case Some(bytes) => if c.verify(a.key, bytes, a.sig) then None else Some(InvalidSignature)
  }

  function Genuine<P>(c: Crypto<P>, a: Announcement<P>): bool {
    Refusal(c, a) == None
  }

  /** Which error is returned: that of the first check to fail, the key's length, the encoding and the
      signature, in this order. */
  lemma RefusalExactly<P>(c: Crypto<P>, a: Announcement<P>)
    ensures Refusal(c, a) == Some(MissingKey) <==> |a.key| != 32
    ensures Refusal(c, a) == Some(EncodingFailed) <==> |a.key| == 32 && c.encode(a).None?
    ensures Refusal(c, a) == Some(InvalidSignature) <==>
              |a.key| == 32 && c.encode(a).Some? && !c.verify(a.key, c.encode(a).value, a.sig)
    ensures Genuine(c, a) <==>
              |a.key| == 32 && c.encode(a).Some? && c.verify(a.key, c.encode(a).value, a.sig)
  {
  }

  /** What applying leaves: nothing changes unless the signature verifies and the clock, read from the
      announcement's own counter and second, is not smaller than the one held. */
  lemma ApplyExactly<P>(c: Crypto<P>, t: Table<P>, a: Announcement<P>)
    ensures var nano := WrapInt64(a.atUnix * 1_000_000_000);
            var verified := |a.key| == 32 && c.encode(a).Some? && c.verify(a.key, c.encode(a).value, a.sig);
            var newer := a.id !in t.items || a.clock > t.items[a.id].clock.lamport ||
                         (a.clock == t.items[a.id].clock.lamport && nano >= t.items[a.id].clock.unixNano);
            Apply(c, t, a) ==
              if verified && newer
              then Table(t.items[a.id := Entry(a, Clock(a.clock, nano), false)],
                         if a.id !in t.vv || t.vv[a.id] < a.clock then t.vv[a.id := a.clock] else t.vv)
              else t
  {
  }

  function Apply<P>(c: Crypto<P>, t: Table<P>, a: Announcement<P>): Table<P> {
    if Genuine(c, a) && Accepts(t.items, a.id, ClockOf(a))
    then Table(t.items[a.id := EntryOf(a)], Bumped(t.vv, a.id, a.clock))
    else t
  }

  ghost predicate AcceptsAny<P>(t: Table<P>, entries: Records<P>) {
    exists k :: k in entries && Accepts(t.items, k, entries[k].clock)
  }

  ghost function MergeDelta<P>(t: Table<P>, entries: Records<P>, vv: Vector): Table<P> {
    Table(Merged(t.items, entries), if AcceptsAny(t, entries) then BumpedAll(t.vv, vv) else t.vv)
  }

  datatype TimedMetric<M> = TimedMetric(value: M, receivedAt: int)

  class Store<M> {
    const meta: LWWMap<string, Announcement<BackendBody>>
    const metaVV: VersionVector
    const nodes: LWWMap<string, Announcement<NodeBody>>
    const nodeVV: VersionVector
    var metrics: map<string, TimedMetric<M>>
    const metricsTTL: int

    ghost predicate Valid() {
      metaVV != nodeVV && metricsTTL > 0
    }

    ghost function Backends(): Table<BackendBody> reads meta, metaVV {
      Table(meta.items, metaVV.vv)
    }

    ghost function Nodes(): Table<NodeBody> reads nodes, nodeVV {
      Table(nodes.items, nodeVV.vv)
    }

    constructor (ttl: int, noBackend: Announcement<BackendBody>, noNode: Announcement<NodeBody>)
      ensures Valid() && Backends() == Table(map[], map[]) && Nodes() == Table(map[], map[]) && metrics == map[]
      ensures metricsTTL == if ttl <= 0 then 10_000_000_000 else ttl
      ensures meta.zero == noBackend && nodes.zero == noNode
    {
      metricsTTL := if ttl <= 0 then 10 * NANOS_PER_SECOND else ttl;
      meta := new LWWMap(noBackend);
      metaVV := new VersionVector();
      nodes := new LWWMap(noNode);
      nodeVV := new VersionVector();
      metrics := map[];
    }

    method ApplyBackendMeta(c: Crypto<BackendBody>, a: Announcement<BackendBody>) returns (r: Applied)
      requires Valid()
      modifies meta, metaVV
      ensures Backends() == Apply(c, old(Backends()), a)
      ensures r == match Refusal(c, a)
                   case Some(e) => Rejected(e)
                   case None => Changed(Accepts(old(meta.items), a.id, ClockOf(a)))
      ensures r.Changed? <==> |a.key| == 32 && c.encode(a).Some? && c.verify(a.key, c.encode(a).value, a.sig)
    {
      r := ApplyTo(c, meta, metaVV, a);
    }

    method ApplyNodeAdvert(c: Crypto<NodeBody>, a: Announcement<NodeBody>) returns (r: Applied)
      requires Valid()
      modifies nodes, nodeVV
      ensures Nodes() == Apply(c, old(Nodes()), a)
      ensures r == match Refusal(c, a)
                   case Some(e) => Rejected(e)
                   case None => Changed(Accepts(old(nodes.items), a.id, ClockOf(a)))
      ensures r.Changed? <==> |a.key| == 32 && c.encode(a).Some? && c.verify(a.key, c.encode(a).value, a.sig)
    {
      r := ApplyTo(c, nodes, nodeVV, a);
    }

    method MergeBackendDelta(entries: Records<BackendBody>, vv: Vector)
      requires Valid()
      modifies meta, metaVV
      ensures Backends() == MergeDelta(old(Backends()), entries, vv)
    {
      var changed := meta.Merge(entries);
      if changed {
        metaVV.BumpAll(vv);
      }
    }

    method MergeNodeDelta(entries: Records<NodeBody>, vv: Vector)
      requires Valid()
      modifies nodes, nodeVV
      ensures Nodes() == MergeDelta(old(Nodes()), entries, vv)
    {
      var changed := nodes.Merge(entries);
      if changed {
        nodeVV.BumpAll(vv);
      }
    }

    /** Expired metrics go; tombstones past the TTL go; the version vectors stay. */
    method Prune(now: int)
      requires Valid()
      modifies this, meta, nodes
      ensures metrics == map id | id in old(metrics) &&
              now - old(metrics)[id].receivedAt <= metricsTTL :: old(metrics)[id]
      ensures Backends() == Table(Cleaned(old(meta.items), metricsTTL, now), old(metaVV.vv))
      ensures Nodes() == Table(Cleaned(old(nodes.items), metricsTTL, now), old(nodeVV.vv))
    {
      var todo := metrics.Keys;
      while todo != {}
        invariant todo <= metrics.Keys <= old(metrics).Keys
        invariant unchanged(meta) && unchanged(nodes)
        invariant forall id :: id in metrics ==> metrics[id] == old(metrics)[id]
        invariant forall id :: id in old(metrics) && id !in todo ==>
          (id in metrics <==> now - old(metrics)[id].receivedAt <= metricsTTL)
        decreases todo
      {
        var id :| id in todo;
        todo := todo - {id};
        if now - metrics[id].receivedAt > metricsTTL {
          metrics := metrics - {id};
        }
      }
      var _ := meta.Cleanup(metricsTTL, now);
      var _ := nodes.Cleanup(metricsTTL, now);
    }
  }

  /** The common body of the two Apply methods: check, upsert, bump when changed. */
  method ApplyTo<P>(c: Crypto<P>, items: LWWMap<string, Announcement<P>>, vv: VersionVector, a: Announcement<P>)
    returns (r: Applied)
    modifies items, vv
    ensures Table(items.items, vv.vv) == Apply(c, old(Table(items.items, vv.vv)), a)
    ensures r == match Refusal(c, a)
                 case Some(e) => Rejected(e)
                 case None => Changed(Accepts(old(items.items), a.id, ClockOf(a)))
  {
    if |a.key| != PUBLIC_KEY_SIZE {
      return Rejected(MissingKey);
    }
    var encoded := c.encode(a);
    if encoded.None? {
      return Rejected(EncodingFailed);
    }
    if !c.verify(a.key, encoded.value, a.sig) {
      return Rejected(InvalidSignature);
    }
    var changed := items.Upsert(a.id, a, ClockOf(a));
    if changed {
      vv.Bump(a.id, a.clock);
    }
    r := Changed(changed);
  }
}
