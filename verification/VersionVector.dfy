/** The version vectors of pkg/crdt/lwwmap.go: a counter per node, their partial order, and the
    digest that stands for them. */
module VersionVectors {
  import opened Text

  type Vector = map<string, nat>

  datatype Comparison = Concurrent | Descendant | Ancestor | Equal

  /** A node that is absent counts as 0. */
  function At(v: Vector, node: string): nat {
    if node in v then v[node] else 0
  }

  function Bumped(v: Vector, node: string, counter: nat): Vector {
    if node !in v || counter > v[node] then v[node := counter] else v
  }

  /** The effect of bumping `v` by every component of `w`. */
  function BumpedAll(v: Vector, w: Vector): Vector {
    map n | n in v.Keys + w.Keys ::
      if n !in v then w[n] else if n in w && w[n] > v[n] then w[n] else v[n]
  }

  /** Every component present in `old` is still present and has not become smaller. */
  ghost predicate GrowsTo(v: Vector, w: Vector) {
    forall n :: n in v ==> n in w && v[n] <= w[n]
  }

  ghost predicate Covers(v: Vector, w: Vector) {
    forall n :: At(v, n) >= At(w, n)
  }

  /** The relation `Compare` is to report, from the pointwise order alone. */
  ghost function Relation(v: Vector, w: Vector): Comparison {
    if Covers(v, w) && Covers(w, v) then Equal
    else if Covers(v, w) then Descendant
    else if Covers(w, v) then Ancestor
    else Concurrent
  }

  function Swap(c: Comparison): Comparison {
    match c
    case Descendant => Ancestor
    case Ancestor => Descendant
    case _ => c
  }

  lemma RelationLaws(v: Vector, w: Vector)
    ensures Relation(w, v) == Swap(Relation(v, w))
    ensures Relation(v, w) == Equal <==> forall n :: At(v, n) == At(w, n)
  {
    if Relation(v, w) == Equal {
      forall n ensures At(v, n) == At(w, n) { assert At(v, n) >= At(w, n) && At(w, n) >= At(v, n); }
    }
  }

  // ----- Digests -----

  function Render(node: string, counter: nat): string {
    node + ['='] + Decimal(counter)
  }

  ghost function Rendered(v: Vector): set<string> {
    set n | n in v :: Render(n, v[n])
  }

  /** What `Digest` promises: the rendered components, each once, in order. */
  ghost predicate IsDigest(v: Vector, d: seq<string>) {
    SortedBy(Leq, d) && multiset(d) == multiset(Rendered(v))
  }

  /** The last '=' of a component splits it in one way, even if the node name holds '='. */
  lemma RenderInjective(a: string, m: nat, b: string, n: nat)
    requires Render(a, m) == Render(b, n)
    ensures a == b && m == n
  {
    SplitAtLast('=', a, Decimal(m), b, Decimal(n));
    DecimalInjective(m, n);
  }

  /** Equal digests come from equal vectors, and a vector has one digest. */
  lemma DigestIdentifiesVector(v: Vector, d: seq<string>, w: Vector, e: seq<string>)
    requires IsDigest(v, d) && IsDigest(w, e)
    ensures d == e <==> v == w
  {
    if d == e {
      assert forall s :: s in Rendered(v) <==> s in multiset(d);
      assert forall s :: s in Rendered(w) <==> s in multiset(d);
      RenderedDeterminesVector(v, w);
      RenderedDeterminesVector(w, v);
    }
    if v == w {
      LeqIsAntisymmetric();
      SortedIsUnique(Leq, d, e);
    }
  }

  lemma RenderedDeterminesVector(v: Vector, w: Vector)
    requires Rendered(v) <= Rendered(w)
    ensures forall n :: n in v ==> n in w && v[n] == w[n]
  {
    forall n | n in v ensures n in w && v[n] == w[n] {
      assert Render(n, v[n]) in Rendered(w);
      var k :| k in w && Render(k, w[k]) == Render(n, v[n]);
      RenderInjective(k, w[k], n, v[n]);
    }
  }

  /** Equal digests imply the answer Equal; the converse holds exactly when the two vectors keep
      zero counters for the same nodes. */
  lemma DigestsAndRelation(v: Vector, d: seq<string>, w: Vector, e: seq<string>)
    requires IsDigest(v, d) && IsDigest(w, e)
    ensures d == e ==> Relation(v, w) == Equal
    ensures Relation(v, w) == Equal ==> (d == e <==> v.Keys == w.Keys)
    ensures Relation(v, w) == Equal && 0 !in v.Values && 0 !in w.Values ==> d == e
  {
    DigestIdentifiesVector(v, d, w, e);
    RelationLaws(v, w);
    if Relation(v, w) == Equal {
      assert forall n :: n in v && n in w ==> At(v, n) == v[n] && At(w, n) == w[n];
      if 0 !in v.Values && 0 !in w.Values {
        forall n ensures n in v <==> n in w {
          assert At(v, n) == At(w, n);
          assert n in v ==> v[n] in v.Values;
          assert n in w ==> w[n] in w.Values;
        }
        assert v.Keys == w.Keys;
      }
    }
  }

  lemma BumpOneMore(v: Vector, w: Vector, todo: set<string>, node: string)
    requires todo <= w.Keys && node in todo
    ensures BumpedAll(v, w - (todo - {node})) == Bumped(BumpedAll(v, w - todo), node, w[node])
  {
  }

  class VersionVector {
    var vv: Vector

    constructor ()
      ensures vv == map[]
    {
      vv := map[];
    }

    method Bump(node: string, counter: nat)
      modifies this
      ensures vv == Bumped(old(vv), node, counter)
      ensures GrowsTo(old(vv), vv) && At(vv, node) >= counter
    {
      if node !in vv || counter > vv[node] {
        vv := vv[node := counter];
      }
    }

    /** The loop of `MergeBackendDelta` and `MergeNodeDelta`, in any order of `other`. */
    method BumpAll(other: Vector)
      modifies this
      ensures vv == BumpedAll(old(vv), other)
      ensures GrowsTo(old(vv), vv)
    {
      var todo := other.Keys;
      assert other - todo == map[];
      while todo != {}
        invariant todo <= other.Keys
        invariant vv == BumpedAll(old(vv), other - todo)
      {
        var node :| node in todo;
        BumpOneMore(old(vv), other, todo, node);
        Bump(node, other[node]);
        todo := todo - {node};
      }
      assert other - todo == other;
    }

    method Compare(other: Vector) returns (c: Comparison)
      ensures c == Relation(vv, other)
    {
      var selfGreater, otherGreater := false, false;
      var keys := vv.Keys + other.Keys;
      var todo := keys;
      while todo != {}
        invariant todo <= keys
        invariant selfGreater <==> exists n :: n in keys - todo && At(vv, n) > At(other, n)
        invariant otherGreater <==> exists n :: n in keys - todo && At(vv, n) < At(other, n)
        invariant !(selfGreater && otherGreater)
      {
        var node :| node in todo;
        var s, o := At(vv, node), At(other, node);
        if s > o {
          selfGreater := true;
        } else if s < o {
          otherGreater := true;
        }
        todo := todo - {node};
        if selfGreater && otherGreater {
          return Concurrent;
        }
      }
      assert keys - todo == keys;
      assert forall n :: n !in keys ==> At(vv, n) == At(other, n);
      if selfGreater {
        return Descendant;
      } else if otherGreater {
        return Ancestor;
      }
      return Equal;
    }

    method Digest() returns (d: seq<string>)
      ensures IsDigest(vv, d)
    {
      if |vv| == 0 {
        return [];
      }
      var keys := [];
      var todo := vv.Keys;
      ghost var done: set<string> := {};
      while todo != {}
        invariant todo <= vv.Keys
        invariant done == set n | n in vv.Keys - todo :: Render(n, vv[n])
        invariant multiset(keys) == multiset(done)
      {
        var node :| node in todo;
        var text := Render(node, vv[node]);
        assert text !in done by {
          if text in done {
            var n :| n in vv.Keys - todo && Render(n, vv[n]) == text;
            RenderInjective(n, vv[n], node, vv[node]);
            assert false;
          }
        }
        keys := keys + [text];
        todo := todo - {node};
        done := done + {text};
      }
      assert done == Rendered(vv);
      d := Sort(keys);
    }
  }
}
