/** The SOA serial that pkg/dnsplugin/provider.go derives from the node version vector. */
module ZoneSerials {
  import opened VersionVectors
  import Registry
  import Gossip
  import Convergence
  import NetworkInvariants

  const MAX32: nat := 0xffff_ffff
  const RANGE32: nat := 0x1_0000_0000
  const RANGE64: nat := 0x1_0000_0000_0000_0000

  /** The true sum of the counters. */
  ghost function Sum(v: Vector): nat {
    if v == map[] then 0 else var n :| n in v; v[n] + Sum(v - {n})
  }

  /** Any component may be taken first. */
  lemma {:induction false} SumFrom(v: Vector, n: string)
    requires n in v
    ensures Sum(v) == v[n] + Sum(v - {n})
    decreases v
  {
    var k :| k in v && Sum(v) == v[k] + Sum(v - {k});
    if k != n {
      SumFrom(v - {k}, n);
      SumFrom(v - {n}, k);
      assert v - {k} - {n} == v - {n} - {k};
    }
  }

  lemma {:induction false} SumGrows(v: Vector, w: Vector)
    requires GrowsTo(v, w)
    ensures Sum(v) <= Sum(w)
    decreases v
  {
    if v != map[] {
      var n :| n in v;
      SumFrom(v, n);
      SumFrom(w, n);
      SumGrows(v - {n}, w - {n});
    }
  }

  /** The sum is positive as soon as one counter is. */
  lemma SumPositive(v: Vector, n: string)
    requires n in v && v[n] > 0
    ensures Sum(v) > 0
  {
    SumFrom(v, n);
  }

  /** What one query returns and remembers. */
  ghost function Next(prev: nat, v: Vector, now: nat): nat {
    var sum := Sum(v) % RANGE64;
    if sum == 0 then now % RANGE32
    else if sum % MAX32 > prev then sum % MAX32
    else if prev == MAX32 then prev
    else prev + 1
  }

  class RegistryZoneView<M> {
    const store: Registry.Store<M>
    var serialCache: nat

    constructor (store: Registry.Store<M>)
      ensures this.store == store && serialCache == 0
    {
      this.store := store;
      serialCache := 0;
    }

    /** The counters are summed in any order, in 64 bits. */
    method ZoneSerial(now: nat) returns (serial: nat)
      requires serialCache <= MAX32
      modifies this
      ensures serial == serialCache == Next(old(serialCache), store.Nodes().vv, now)
      ensures serial <= MAX32
    {
      var snapshot := store.nodeVV.vv;
      var sum := 0;
      var todo := snapshot.Keys;
      assert snapshot - todo == map[];
      while todo != {}
        invariant todo <= snapshot.Keys
        invariant sum == Sum(snapshot - todo) % RANGE64
        invariant serialCache == old(serialCache)
      {
        var node :| node in todo;
        SumFrom(snapshot - (todo - {node}), node);
        assert snapshot - (todo - {node}) - {node} == snapshot - todo;
        sum := (sum + snapshot[node]) % RANGE64;
        todo := todo - {node};
      }
      assert snapshot - todo == snapshot;
      if sum == 0 {
        serialCache := now % RANGE32;
        return serialCache;
      }
      serial := sum % MAX32;
      var prev := serialCache;
      if serial <= prev {
        serial := if prev == MAX32 then prev else prev + 1;
      }
      serialCache := serial;
    }
  }

  /** Exactly when one query does not go back, and exactly when it moves on. */
  lemma StepGoesBackIff(prev: nat, v: Vector, now: nat)
    requires prev <= MAX32
    ensures Next(prev, v, now) <= MAX32
    ensures Next(prev, v, now) >= prev <==> Sum(v) % RANGE64 != 0 || now % RANGE32 >= prev
    ensures Sum(v) % RANGE64 != 0 ==> (Next(prev, v, now) > prev <==> prev < MAX32)
  {
  }

  // ----- Runs of queries -----

  datatype Query = Query(vector: Vector, now: nat)

  /** The serial remembered after the first `k` queries. */
  ghost function SerialAfter(qs: seq<Query>, k: nat): nat
    requires k <= |qs|
  {
    if k == 0 then 0 else Next(SerialAfter(qs, k - 1), qs[k - 1].vector, qs[k - 1].now)
  }

  /** What query `i` returned. */
  ghost function Serial(qs: seq<Query>, i: nat): nat
    requires i < |qs|
  {
    SerialAfter(qs, i + 1)
  }

  /** Vectors that only grow, a clock that does not go back, and no wrap of either. */
  ghost predicate Orderly(qs: seq<Query>) {
    && (forall i, j :: 0 <= i <= j < |qs| ==> GrowsTo(qs[i].vector, qs[j].vector) && qs[i].now <= qs[j].now)
    && (forall i :: 0 <= i < |qs| ==> qs[i].now < 4_294_967_296)
    && (forall i :: 0 <= i < |qs| ==> Sum(qs[i].vector) < 18_446_744_073_709_551_616)
  }

  lemma {:induction false} SerialFits(qs: seq<Query>, k: nat)
    requires k <= |qs|
    ensures SerialAfter(qs, k) <= MAX32
  {
    if k > 0 {
      SerialFits(qs, k - 1);
      StepGoesBackIff(SerialAfter(qs, k - 1), qs[k - 1].vector, qs[k - 1].now);
    }
  }

  /** While every counter is still 0 the serial is the clock. */
  lemma {:induction false} SerialBeforeCounters(qs: seq<Query>, k: nat)
    requires Orderly(qs) && k < |qs| && Sum(qs[k].vector) == 0
    ensures Serial(qs, k) == qs[k].now
    ensures SerialAfter(qs, k) <= qs[k].now
  {
    if k > 0 {
      SumGrows(qs[k - 1].vector, qs[k].vector);
      SerialBeforeCounters(qs, k - 1);
    }
  }

  lemma {:induction false} NeverDecreases(qs: seq<Query>, i: nat, j: nat)
    requires Orderly(qs) && i <= j < |qs|
    ensures Serial(qs, i) <= Serial(qs, j) <= 4_294_967_295
  {
    hide Next, GrowsTo, Sum;
    SerialFits(qs, j + 1);
    if i < j {
      NeverDecreases(qs, i, j - 1);
      if Sum(qs[j].vector) == 0 {
        SerialBeforeCounters(qs, j);
      } else {
        SerialFits(qs, j);
        StepGoesBackIff(SerialAfter(qs, j), qs[j].vector, qs[j].now);
      }
    }
  }

  /** Once some counter is positive every query adds at least one, until 2^32 - 1, where it stays. */
  lemma {:induction false} StrictOnceCounted(qs: seq<Query>, i: nat, j: nat, node: string)
    requires Orderly(qs) && i <= j < |qs|
    requires node in qs[i].vector && qs[i].vector[node] > 0
    ensures Serial(qs, j) == 4_294_967_295 || Serial(qs, j) >= Serial(qs, i) + (j - i)
    ensures Serial(qs, i) == 4_294_967_295 ==> Serial(qs, j) == 4_294_967_295
  {
    hide Next, Sum;
    if i < j {
      StrictOnceCounted(qs, i, j - 1, node);
      SumPositive(qs[j].vector, node);
      SerialFits(qs, j);
      StepGoesBackIff(SerialAfter(qs, j), qs[j].vector, qs[j].now);
    }
  }

  // ----- The serial in closed form -----

  /** The number a query reads: the clock while every counter is 0, and afterwards the sum of the
      counters modulo 2^32 - 1. */
  ghost function Number(q: Query): nat {
    if Sum(q.vector) == 0 then q.now else Sum(q.vector) % 4_294_967_295
  }

  /** How many of the queries from `i` up to and without `j` found a positive counter. */
  ghost function Counted(qs: seq<Query>, i: nat, j: nat): nat
    requires i <= j <= |qs|
  {
    if i == j then 0 else Counted(qs, i, j - 1) + if Sum(qs[j - 1].vector) > 0 then 1 else 0
  }

  /** How far query `i` alone drives the serial of query `j`: its number, and one for each later query
      that found a positive counter. Before the first query the serial is 0. */
  ghost function Drive(qs: seq<Query>, i: int, j: nat): nat
    requires -1 <= i <= j < |qs|
  {
    if i == -1 then Counted(qs, 0, j + 1) else Number(qs[i]) + Counted(qs, i + 1, j + 1)
  }

  /** Query `i` drives furthest of all up to `j`. */
  ghost predicate Furthest(qs: seq<Query>, i: int, j: nat)
    requires j < |qs|
  {
    -1 <= i <= j && forall k :: -1 <= k <= j ==> Drive(qs, k, j) <= Drive(qs, i, j)
  }

  lemma DriveOn(qs: seq<Query>, i: int, j: nat)
    requires -1 <= i < j < |qs| && j >= 1
    ensures Drive(qs, i, j) == Drive(qs, i, j - 1) + if Sum(qs[j].vector) > 0 then 1 else 0
  {
  }

  lemma DriveFirst(qs: seq<Query>)
    requires qs != []
    ensures Drive(qs, -1, 0) == if Sum(qs[0].vector) > 0 then 1 else 0
  {
    assert Counted(qs, 0, 0) == 0;
  }

  lemma DriveOwn(qs: seq<Query>, j: nat)
    requires j < |qs|
    ensures Drive(qs, j, j) == Number(qs[j])
  {
  }

  /** What one query of an orderly run returns, from the serial before it. */
  lemma SerialStep(qs: seq<Query>, j: nat)
    requires Orderly(qs) && j < |qs|
    ensures var (prev, sum) := (if j == 0 then 0 else Serial(qs, j - 1), Sum(qs[j].vector));
            Serial(qs, j) ==
              if sum == 0 then qs[j].now
              else if sum % 4_294_967_295 > prev then sum % 4_294_967_295
              else if prev + 1 > 4_294_967_295 then 4_294_967_295
              else prev + 1
  {
    SerialFits(qs, j);
    assert qs[j].now < RANGE32 && Sum(qs[j].vector) < RANGE64;
    assert Serial(qs, j) == Next(SerialAfter(qs, j), qs[j].vector, qs[j].now);
    hide Sum, Orderly, SerialAfter;
    NextWithoutWrap(SerialAfter(qs, j), qs[j].vector, qs[j].now);
  }

  lemma NextWithoutWrap(prev: nat, v: Vector, now: nat)
    requires prev <= MAX32 && now < RANGE32 && Sum(v) < RANGE64
    ensures Next(prev, v, now) ==
              if Sum(v) == 0 then now
              else if Sum(v) % 4_294_967_295 > prev then Sum(v) % 4_294_967_295
              else if prev + 1 > 4_294_967_295 then 4_294_967_295
              else prev + 1
  {
    hide Sum;
  }

  /** A query that finds a positive counter returns at least the sum of the counters modulo 2^32 - 1,
      and exactly that whenever it exceeds the serial before. */
  lemma SerialReadsSum(qs: seq<Query>, j: nat)
    requires Orderly(qs) && j < |qs| && Sum(qs[j].vector) > 0
    ensures Serial(qs, j) >= Sum(qs[j].vector) % 4_294_967_295
    ensures Sum(qs[j].vector) % 4_294_967_295 > (if j == 0 then 0 else Serial(qs, j - 1)) ==>
              Serial(qs, j) == Sum(qs[j].vector) % 4_294_967_295
  {
    SerialStep(qs, j);
  }

  /** In every orderly run the serial is the furthest that any query so far drives it, and at most
      2^32 - 1. */
  lemma {:induction false} SerialIsFurthest(qs: seq<Query>, j: nat) returns (i: int)
    requires Orderly(qs) && j < |qs|
    ensures Furthest(qs, i, j)
    ensures Serial(qs, j) == if Drive(qs, i, j) > 4_294_967_295 then 4_294_967_295 else Drive(qs, i, j)
  {
    hide Sum, Drive, Serial, Orderly;
    SerialStep(qs, j);
    DriveOwn(qs, j);
    OrderlyPrefix(qs, j);
    if Sum(qs[j].vector) == 0 {
      i := j;
      forall k | -1 <= k <= j ensures Drive(qs, k, j) <= qs[j].now { ClockDrivesFurthest(qs, k, j); }
    } else {
      var before := -1;
      if j > 0 {
        before := SerialIsFurthest(qs, j - 1);
        DriveOn(qs, before, j);
      } else {
        DriveFirst(qs);
      }
      i := if Number(qs[j]) > Drive(qs, before, j) then j else before;
      forall k | -1 <= k <= j ensures Drive(qs, k, j) <= Drive(qs, i, j) {
        if k < j && j > 0 { DriveOn(qs, k, j); }
      }
    }
  }

  lemma OrderlyPrefix(qs: seq<Query>, j: nat)
    requires Orderly(qs) && j < |qs|
    ensures qs[j].now < 4_294_967_296
  {
  }

  lemma {:induction false} NoneCounted(qs: seq<Query>, i: nat, j: nat)
    requires Orderly(qs) && i <= j < |qs| && Sum(qs[j].vector) == 0
    ensures Counted(qs, i, j + 1) == 0
  {
    if i < j {
      SumGrows(qs[j - 1].vector, qs[j].vector);
      NoneCounted(qs, i, j - 1);
    }
  }

  lemma ClockDrivesFurthest(qs: seq<Query>, k: int, j: nat)
    requires Orderly(qs) && -1 <= k <= j < |qs| && Sum(qs[j].vector) == 0
    ensures Drive(qs, k, j) <= qs[j].now
  {
    if k == -1 {
      NoneCounted(qs, 0, j);
    } else {
      SumGrows(qs[k].vector, qs[j].vector);
      if k < j { NoneCounted(qs, k + 1, j); }
      assert qs[k].now <= qs[j].now;
    }
  }

  /** The serials one replica hands out while the whole network runs on between queries. */
  lemma NetworkSerials<P>(w: Gossip.World<P>, start: Gossip.Net<P>, r: nat, moments: seq<Gossip.Run<P>>, qs: seq<Query>)
    requires r < |start.tables| && |moments| == |qs|
    requires forall i, j :: 0 <= i <= j < |qs| ==> Convergence.Extends(moments[j], moments[i]) && qs[i].now <= qs[j].now
    requires forall i :: 0 <= i < |qs| ==> qs[i].vector == Gossip.Exec(w, start, moments[i]).tables[r].vv
    requires forall i :: 0 <= i < |qs| ==> qs[i].now < 4_294_967_296
    requires forall i :: 0 <= i < |qs| ==> Sum(qs[i].vector) < 18_446_744_073_709_551_616
    ensures forall i, j :: 0 <= i <= j < |qs| ==> Serial(qs, i) <= Serial(qs, j)
    ensures forall i, j, n :: 0 <= i < j < |qs| && n in qs[i].vector && qs[i].vector[n] > 0 ==>
              Serial(qs, i) < Serial(qs, j) || Serial(qs, j) == MAX32
  {
    forall i, j | 0 <= i <= j < |qs| ensures GrowsTo(qs[i].vector, qs[j].vector) {
      NetworkInvariants.VersionVectorsGrow(w, start, moments[j], moments[i], r);
    }
    forall i, j | 0 <= i <= j < |qs| ensures Serial(qs, i) <= Serial(qs, j) {
      NeverDecreases(qs, i, j);
    }
    forall i, j, n | 0 <= i < j < |qs| && n in qs[i].vector && qs[i].vector[n] > 0
      ensures Serial(qs, i) < Serial(qs, j) || Serial(qs, j) == MAX32
    {
      StrictOnceCounted(qs, i, j, n);
    }
  }

  /** The hypothesis on sums is needed: a sum of 2^64 reads as 0, and the clock's stamp is then
      behind the serial already given out. */
  lemma WrappedSumGoesBack()
    ensures var full := map["a" := 18_446_744_073_709_551_615];
            var qs := [Query(map[], 1000), Query(full, 1000), Query(full["b" := 1], 1000)];
            && GrowsTo(map[], full) && GrowsTo(full, full["b" := 1])
            && Serial(qs, 0) == 1000 && Serial(qs, 1) == 1001 && Serial(qs, 2) == 1000
  {
    var full: Vector := map["a" := 18_446_744_073_709_551_615];
    var over := full["b" := 1];
    var qs := [Query(map[], 1000), Query(full, 1000), Query(over, 1000)];
    SumFrom(full, "a");
    SumFrom(over, "b");
    assert over - {"b"} == full;
    assert full - {"a"} == map[];
    assert SerialAfter(qs, 1) == 1000;
    assert 18_446_744_073_709_551_615 % MAX32 == 0;
    assert SerialAfter(qs, 2) == 1001;
    assert SerialAfter(qs, 3) == 1000;
  }

  /** The hypothesis on the clock is needed: with no counters the stamp wraps to 0 in 2106. */
  lemma WrappedClockGoesBack()
    ensures var qs := [Query(map[], 4_294_967_295), Query(map[], 4_294_967_296)];
            Serial(qs, 0) == 4_294_967_295 && Serial(qs, 1) == 0
  {
    var qs := [Query(map[], MAX32), Query(map[], RANGE32)];
    assert SerialAfter(qs, 1) == MAX32;
  }
}
