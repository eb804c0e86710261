/** Exactly when a cacheable request has its cache key to itself among all cacheable requests. */
module KeySharing {
  import opened Options
  import opened Text
  import opened CacheKeys
  import opened Proxies

  // ----- Readings of a key -----

  /** What the pairs add to a key's text. */
  function Tail(pairs: seq<Pair>): string {
    if pairs == [] then "" else ['|'] + TextOf(pairs[0]) + Tail(pairs[1..])
  }

  /** A pair that makes a request cacheable. */
  predicate ValidPair(p: Pair) {
    p.name == "height" && HeightText(p.value).Some?
  }

  /** `s` is the path and the canonical pairs of some cacheable request. */
  ghost predicate Reads(s: string, path: string, pairs: seq<Pair>) {
    && path + Tail(pairs) == s && SortedBy(PairLeq, pairs)
    && exists j :: 0 <= j < |pairs| && ValidPair(pairs[j])
  }

  ghost predicate OnlyReading(s: string, path: string, pairs: seq<Pair>) {
    forall other, others :: Reads(s, other, others) ==> other == path && others == pairs
  }

  ghost function PairsIn(r: Request): seq<Pair> {
    PairsOf(r.query, Names(r.query))
  }

  /** No other cacheable request has `r`'s key. */
  ghost predicate OwnKey(cfg: Config, r: Request) {
    forall q :: Cacheable(cfg, q) && Framed(q) && KeyOf(q, "height") == KeyOf(r, "height") ==> SameComponents(q, r)
  }

  lemma {:induction false} BodyIsTail(path: string, pairs: seq<Pair>)
    ensures Join('|', [path] + Texts(pairs)) == path + Tail(pairs)
    decreases pairs
  {
    hide TextOf;
    if pairs == [] {
      assert [path] + Texts(pairs) == [path];
    } else {
      var p, rest := pairs[0], pairs[1..];
      assert pairs == [p] + rest;
      FrontPair(path, p, rest);
      BodyIsTail(path + ['|'] + TextOf(p), rest);
      assert path + ['|'] + TextOf(p) + Tail(rest) == path + (['|'] + TextOf(p) + Tail(rest));
    }
  }

  lemma {:induction false} TailAppend(a: seq<Pair>, b: seq<Pair>)
    ensures Tail(a + b) == Tail(a) + Tail(b)
  {
    if a == [] {
      assert a + b == b;
    } else {
      assert (a + b)[1..] == a[1..] + b;
      TailAppend(a[1..], b);
    }
  }

  lemma CountedIsIn(pairs: seq<Pair>, p: Pair) returns (j: nat)
    requires multiset(pairs)[p] > 0
    ensures j < |pairs| && pairs[j] == p
  {
    assert p in pairs;
    j :| 0 <= j < |pairs| && pairs[j] == p;
  }

  /** A cacheable request reads its own key. */
  lemma ReadsOwn(cfg: Config, r: Request)
    requires Cacheable(cfg, r)
    ensures Reads(Body(r), r.path, PairsIn(r))
  {
    var p := Pair("height", r.query["height"][0]);
    assert Multiplicity(r.query, p) > 0;
    PairsMultiset(r.query);
    hide PairsOf, Names;
    var j := CountedIsIn(PairsIn(r), p);
    BodyIsTail(r.path, PairsIn(r));
  }

  // ----- A request for every reading -----

  function AddPair(query: map<string, seq<string>>, p: Pair): map<string, seq<string>> {
    query[p.name := [p.value] + if p.name in query then query[p.name] else []]
  }

  function QueryOf(pairs: seq<Pair>): map<string, seq<string>> {
    if pairs == [] then map[] else AddPair(QueryOf(pairs[1..]), pairs[0])
  }

  lemma AddPairCounts(query: map<string, seq<string>>, p: Pair, x: Pair)
    ensures Multiplicity(AddPair(query, p), x) == Multiplicity(query, x) + if x == p then 1 else 0
  {
  }

  lemma {:induction false} QueryOfCounts(pairs: seq<Pair>, x: Pair)
    ensures Multiplicity(QueryOf(pairs), x) == multiset(pairs)[x]
  {
    hide AddPair, Multiplicity;
    if pairs != [] {
      QueryOfCounts(pairs[1..], x);
      AddPairCounts(QueryOf(pairs[1..]), pairs[0], x);
      assert pairs == [pairs[0]] + pairs[1..];
    } else {
      EmptyQueryCounts(x);
    }
  }

  lemma EmptyQueryCounts(x: Pair)
    ensures Multiplicity(map[], x) == 0
  {
  }

  /** The query of `pairs` with the values of one name led by that of pair `j`. */
  function QueryLedBy(pairs: seq<Pair>, j: nat): map<string, seq<string>>
    requires j < |pairs|
  {
    AddPair(QueryOf(pairs[..j] + pairs[j + 1..]), pairs[j])
  }

  lemma QueryLedByCounts(pairs: seq<Pair>, j: nat, x: Pair)
    requires j < |pairs|
    ensures Multiplicity(QueryLedBy(pairs, j), x) == multiset(pairs)[x]
  {
    hide AddPair, Multiplicity;
    AddPairCounts(QueryOf(pairs[..j] + pairs[j + 1..]), pairs[j], x);
    QueryOfCounts(pairs[..j] + pairs[j + 1..], x);
    assert pairs == pairs[..j] + [pairs[j]] + pairs[j + 1..];
  }

  /** The canonical pairs of that query are the sorted list it was made from. */
  lemma QueryLedByPairs(pairs: seq<Pair>, j: nat)
    requires j < |pairs| && SortedBy(PairLeq, pairs)
    ensures PairsOf(QueryLedBy(pairs, j), Names(QueryLedBy(pairs, j))) == pairs
  {
    hide PairsOf, Names, Multiplicity, QueryLedBy;
    var query := QueryLedBy(pairs, j);
    PairsMultiset(query);
    var canonical := PairsOf(query, Names(query));
    forall x ensures multiset(canonical)[x] == multiset(pairs)[x] { QueryLedByCounts(pairs, j, x); }
    assert multiset(canonical) == multiset(pairs);
    PairLeqIsAntisymmetric();
    SortedIsUnique(PairLeq, canonical, pairs);
  }

  /** The request that `r` becomes with another path and other pairs. */
  ghost function Rewritten(r: Request, path: string, pairs: seq<Pair>, j: nat): Request
    requires j < |pairs|
  {
    r.(path := path, query := QueryLedBy(pairs, j))
  }

  lemma RewrittenReads(cfg: Config, r: Request, path: string, pairs: seq<Pair>, j: nat)
    requires Cacheable(cfg, r) && Framed(r) && Reads(Body(r), path, pairs)
    requires j < |pairs| && ValidPair(pairs[j])
    ensures var q := Rewritten(r, path, pairs, j);
            && Cacheable(cfg, q) && Framed(q) && KeyOf(q, "height") == KeyOf(r, "height")
            && q.path == path && PairsIn(q) == pairs
  {
    var q := Rewritten(r, path, pairs, j);
    assert q.query["height"][0] == pairs[j].value;
    hide QueryLedBy, KeyOf, StripPort, PairsOf, Names, Tail, HeightText;
    QueryLedByPairs(pairs, j);
    BodyIsTail(path, pairs);
    assert Body(q) == Body(r);
    KeysFixFrame(q, r, "height");
  }

  /** A key is its request's own exactly when its text has no other reading. */
  lemma OwnKeyIsOnly(cfg: Config, r: Request)
    requires Cacheable(cfg, r) && Framed(r)
    ensures OwnKey(cfg, r) <==> OnlyReading(Body(r), r.path, PairsIn(r))
  {
    hide KeyOf, Body, Reads, Cacheable, Framed, PairsOf, Names, SameComponents;
    if OnlyReading(Body(r), r.path, PairsIn(r)) {
      forall q | Cacheable(cfg, q) && Framed(q) && KeyOf(q, "height") == KeyOf(r, "height")
        ensures SameComponents(q, r)
      {
        KeysFixFrame(q, r, "height");
        ReadsOwn(cfg, q);
        SamePathAndPairs(q, r);
      }
    }
    if OwnKey(cfg, r) {
      forall path, pairs | Reads(Body(r), path, pairs) ensures path == r.path && pairs == PairsIn(r) {
        var j := ValidAt(Body(r), path, pairs);
        RewrittenReads(cfg, r, path, pairs, j);
        SamePathAndPairs(Rewritten(r, path, pairs, j), r);
      }
    }
  }

  lemma ValidAt(s: string, path: string, pairs: seq<Pair>) returns (j: nat)
    requires Reads(s, path, pairs)
    ensures j < |pairs| && ValidPair(pairs[j])
  {
    j :| 0 <= j < |pairs| && ValidPair(pairs[j]);
  }

  lemma SamePathAndPairs(q: Request, r: Request)
    ensures SameComponents(q, r) <==>
              q.verb == r.verb && StripPort(q.host) == StripPort(r.host) && q.path == r.path && PairsIn(q) == PairsIn(r)
  {
    PairsCanonical(q.query, r.query);
  }

  // ----- Short readings -----

  /** A cut of a text: a '|' at `i`, a valid height from there to `j`, and at most one more pair, with
      its '=' at `e`. */
  datatype Cut = Cut(i: nat, j: nat, e: nat)

  predicate IsCut(s: string, c: Cut) {
    && c.i + 8 <= c.j <= |s| && s[c.i] == '|' && s[c.i + 1..c.i + 8] == "height="
    && HeightText(s[c.i + 8..c.j]).Some?
    && if c.j == |s| then c.e == |s|
       else c.j < c.e < |s| && s[c.j] == '|' && s[c.e] == '=' && PairLeq(HeightOf(s, c), NextOf(s, c))
  }

  function HeightOf(s: string, c: Cut): Pair
    requires c.i + 8 <= c.j <= |s|
  {
    Pair("height", s[c.i + 8..c.j])
  }

  function NextOf(s: string, c: Cut): Pair
    requires c.j < c.e < |s|
  {
    Pair(s[c.j + 1..c.e], s[c.e + 1..])
  }

  function CutPairs(s: string, c: Cut): seq<Pair>
    requires IsCut(s, c)
  {
    if c.j == |s| then [HeightOf(s, c)] else [HeightOf(s, c), NextOf(s, c)]
  }

  /** There is no second cut. */
  ghost predicate OneCut(s: string) {
    forall c, d :: IsCut(s, c) && IsCut(s, d) ==> c == d
  }

  ghost predicate Short(pairs: seq<Pair>) {
    0 < |pairs| <= 2 && ValidPair(pairs[0])
  }

  lemma TailEmpty()
    ensures Tail([]) == []
  {
  }

  lemma TailStep(pairs: seq<Pair>, j: nat)
    requires j < |pairs|
    ensures Tail(pairs[j..]) == ['|'] + TextOf(pairs[j]) + Tail(pairs[j + 1..])
  {
    assert pairs[j..][0] == pairs[j] && pairs[j..][1..] == pairs[j + 1..];
  }

  lemma TailIsText(p: Pair)
    ensures Tail([p]) == ['|'] + TextOf(p)
  {
    assert Tail([]) == [];
  }

  lemma TailOne(p: Pair)
    ensures Tail([p]) == ['|'] + p.name + ['='] + p.value
  {
    assert Tail([]) == [];
  }

  lemma TailTwo(p: Pair, q: Pair)
    ensures Tail([p, q]) == ['|'] + p.name + ['='] + p.value + ['|'] + q.name + ['='] + q.value
  {
    assert [p, q][1..] == [q];
    TailOne(q);
  }

  lemma HeightPiece(s: string, i: nat, j: nat)
    requires i + 8 <= j <= |s| && s[i] == '|' && s[i + 1..i + 8] == "height="
    ensures s[i..j] == ['|'] + "height" + ['='] + s[i + 8..j]
  {
    assert s[i..j] == [s[i]] + s[i + 1..i + 8] + s[i + 8..j];
    assert "height=" == "height" + ['='];
  }

  lemma NextPiece(s: string, j: nat, e: nat)
    requires j < e < |s| && s[j] == '|' && s[e] == '='
    ensures s[j..] == ['|'] + s[j + 1..e] + ['='] + s[e + 1..]
  {
  }

  lemma HeightTail(s: string, c: Cut)
    requires IsCut(s, c)
    ensures Tail([HeightOf(s, c)]) == s[c.i..c.j]
  {
    hide PairLeq, HeightText, Tail;
    HeightPiece(s, c.i, c.j);
    TailOne(HeightOf(s, c));
  }

  lemma NextTail(s: string, c: Cut)
    requires IsCut(s, c) && c.j < |s|
    ensures Tail([NextOf(s, c)]) == s[c.j..]
  {
    hide PairLeq, HeightText, Tail;
    NextPiece(s, c.j, c.e);
    TailOne(NextOf(s, c));
  }

  lemma Pieces(s: string, i: nat, j: nat)
    requires i <= j <= |s|
    ensures s[..i] + s[i..] == s && s[i..j] + s[j..] == s[i..] && (j == |s| ==> s[i..j] == s[i..])
  {
  }

  lemma CutText(s: string, c: Cut)
    requires IsCut(s, c)
    ensures s[..c.i] + Tail(CutPairs(s, c)) == s
  {
    HeightTail(s, c);
    Pieces(s, c.i, c.j);
    if c.j < |s| {
      NextTail(s, c);
      var p, q := HeightOf(s, c), NextOf(s, c);
      hide Tail, HeightOf, NextOf;
      TailAppend([p], [q]);
      assert [p] + [q] == [p, q];
    }
  }

  /** Each cut is a short reading. */
  lemma CutReads(s: string, c: Cut)
    requires IsCut(s, c)
    ensures Reads(s, s[..c.i], CutPairs(s, c)) && Short(CutPairs(s, c))
  {
    CutText(s, c);
    hide PairLeq, HeightText, Tail, TextOf;
    assert ValidPair(CutPairs(s, c)[0]);
  }

  /** Each short reading is a cut. */
  lemma ShortIsCut(s: string, path: string, pairs: seq<Pair>) returns (c: Cut)
    requires Reads(s, path, pairs) && Short(pairs)
    ensures IsCut(s, c) && path == s[..c.i] && pairs == CutPairs(s, c)
  {
    hide PairLeq, HeightText, Tail, TextOf;
    var p := pairs[0];
    var front := path + Tail([p]);
    var i, j := |path|, |front|;
    FrontText(path, p);
    if |pairs| == 1 {
      assert pairs == [p];
      assert s[..j] == front == s;
      c := Cut(i, j, j);
    } else {
      var q := pairs[1];
      assert pairs == [p, q] == [p] + [q];
      TailAppend([p], [q]);
      Regroup(path, Tail([p]), Tail([q]));
      c := Cut(i, j, j + 1 + |q.name|);
      BackCut(s, front, q);
    }
    FrontCut(s, path, p, i, j);
  }

  lemma FrontText(path: string, p: Pair)
    requires p.name == "height"
    ensures path + Tail([p]) == path + ['|'] + "height=" + p.value
  {
    TailOne(p);
    assert p.name + ['='] == "height=";
  }

  lemma BackCut(s: string, front: string, q: Pair)
    requires s == front + Tail([q])
    ensures var (j, e) := (|front|, |front| + 1 + |q.name|);
            && e < |s| && s[..j] == front && s[j] == '|' && s[e] == '='
            && s[j + 1..e] == q.name && s[e + 1..] == q.value
  {
    TailOne(q);
    hide Tail;
    var j, e := |front|, |front| + 1 + |q.name|;
    assert s == front + (['|'] + q.name + ['='] + q.value);
    assert s[j + 1..e] == q.name && s[e + 1..] == q.value;
  }

  lemma FrontCut(s: string, path: string, p: Pair, i: nat, j: nat)
    requires j <= |s| && s[..j] == path + ['|'] + "height=" + p.value && i == |path|
    ensures j == i + 8 + |p.value| && s[..i] == path && s[i] == '|' && s[i + 1..i + 8] == "height=" &&
            s[i + 8..j] == p.value
  {
    var f := s[..j];
    assert f[..i] == path && f[i] == '|' && f[i + 1..i + 8] == "height=" && f[i + 8..] == p.value;
  }

  lemma CutsDiffer(s: string, c: Cut, d: Cut)
    requires IsCut(s, c) && IsCut(s, d) && s[..c.i] == s[..d.i] && CutPairs(s, c) == CutPairs(s, d)
    ensures c == d
  {
    hide PairLeq, HeightText;
    assert |s[..c.i]| == c.i && |s[..d.i]| == d.i;
    assert |HeightOf(s, c).value| == c.j - c.i - 8 && |HeightOf(s, d).value| == d.j - d.i - 8;
    if c.j < |s| {
      assert |NextOf(s, c).name| == c.e - c.j - 1 && |NextOf(s, d).name| == d.e - d.j - 1;
    }
  }

  // ----- Shortening a reading -----

  lemma {:induction false} LeqPrefix(a: string, b: string)
    ensures Leq(a, a + b)
  {
    if a != [] {
      assert (a + b)[1..] == a[1..] + b;
      LeqPrefix(a[1..], b);
    }
  }

  lemma LongerValue(p: Pair, q: Pair, more: string)
    requires PairLeq(p, q)
    ensures PairLeq(p, Pair(q.name, q.value + more))
  {
    LeqPrefix(q.value, more);
    if p.name == q.name { LeqTransitive(p.value, q.value, q.value + more); }
  }

  /** The pairs from the `j`-th on, all after the next in that one's value. */
  function Shortened(pairs: seq<Pair>, j: nat): seq<Pair>
    requires j < |pairs|
  {
    if j + 1 == |pairs| then [pairs[j]]
    else [pairs[j], Pair(pairs[j + 1].name, pairs[j + 1].value + Tail(pairs[j + 2..]))]
  }

  lemma ShortenedReads(s: string, path: string, pairs: seq<Pair>, j: nat)
    requires Reads(s, path, pairs) && j < |pairs| && ValidPair(pairs[j])
    ensures Reads(s, path + Tail(pairs[..j]), Shortened(pairs, j)) && Short(Shortened(pairs, j))
  {
    hide PairLeq, ValidPair, Tail;
    var front, short := Tail(pairs[..j]), Shortened(pairs, j);
    assert pairs == pairs[..j] + pairs[j..];
    TailAppend(pairs[..j], pairs[j..]);
    ShortenedTail(pairs, j);
    assert path + front + Tail(short) == path + (front + Tail(short));
    ShortenedSorted(pairs, j);
    assert ValidPair(short[0]);
  }

  lemma ShortenedSorted(pairs: seq<Pair>, j: nat)
    requires SortedBy(PairLeq, pairs) && j < |pairs|
    ensures SortedBy(PairLeq, Shortened(pairs, j))
  {
    hide PairLeq, Tail;
    if j + 1 < |pairs| { LongerValue(pairs[j], pairs[j + 1], Tail(pairs[j + 2..])); }
  }

  lemma ShortenedTail(pairs: seq<Pair>, j: nat)
    requires j < |pairs|
    ensures Tail(Shortened(pairs, j)) == Tail(pairs[j..])
  {
    var p := pairs[j];
    assert pairs[j..][0] == p && pairs[j..][1..] == pairs[j + 1..];
    TailOne(p);
    if j + 1 == |pairs| {
      assert pairs[j..] == [p];
    } else {
      var q, more := pairs[j + 1], Tail(pairs[j + 2..]);
      assert pairs[j + 1..][0] == q && pairs[j + 1..][1..] == pairs[j + 2..];
      TailTwo(p, Pair(q.name, q.value + more));
      assert ['|'] + p.name + ['='] + p.value + ['|'] + q.name + ['='] + (q.value + more)
          == ['|'] + (p.name + ['='] + p.value) + (['|'] + (q.name + ['='] + q.value) + more);
    }
  }

  /** The path ends in the text of a pair that may stand before `p`. */
  predicate YieldsPair(path: string, p: Pair) {
    exists i, e ::
      0 <= i < e < |path| && path[i] == '|' && path[e] == '=' &&
        PairLeq(Pair(path[i + 1..e], path[e + 1..]), p)
  }

  lemma PathEnd(path: string, i: nat, e: nat)
    requires i < e < |path| && path[i] == '|' && path[e] == '='
    ensures path == path[..i] + Tail([Pair(path[i + 1..e], path[e + 1..])])
  {
    hide Tail;
    NextPiece(path, i, e);
    TailOne(Pair(path[i + 1..e], path[e + 1..]));
    Pieces(path, i, i);
  }

  lemma Regroup(a: string, b: string, c: string)
    ensures a + b + c == a + (b + c)
  {
  }

  lemma YieldedPair(path: string, p: Pair) returns (front: string, x: Pair)
    requires YieldsPair(path, p)
    ensures path == front + Tail([x]) && |front| < |path| && PairLeq(x, p)
  {
    var i, e :| 0 <= i < e < |path| && path[i] == '|' && path[e] == '=' &&
                PairLeq(Pair(path[i + 1..e], path[e + 1..]), p);
    front, x := path[..i], Pair(path[i + 1..e], path[e + 1..]);
    hide Tail, PairLeq;
    PathEnd(path, i, e);
  }

  lemma InFrontReads(s: string, front: string, x: Pair, pairs: seq<Pair>)
    requires Reads(s, front + Tail([x]), pairs) && pairs != [] && PairLeq(x, pairs[0])
    ensures Reads(s, front, [x] + pairs)
  {
    hide PairLeq, Tail, ValidPair;
    TailAppend([x], pairs);
    Regroup(front, Tail([x]), Tail(pairs));
    SortedInFront(x, pairs);
    var j := ValidAt(s, front + Tail([x]), pairs);
    assert ValidPair(([x] + pairs)[j + 1]);
  }

  lemma PairFromPath(s: string, path: string, pairs: seq<Pair>)
    requires Reads(s, path, pairs) && pairs != [] && YieldsPair(path, pairs[0])
    ensures !OnlyReading(s, path, pairs)
  {
    hide Reads, YieldsPair, PairLeq, Tail;
    var front, x := YieldedPair(path, pairs[0]);
    InFrontReads(s, front, x, pairs);
  }

  lemma PairLeqTransitive(p: Pair, q: Pair, r: Pair)
    requires PairLeq(p, q) && PairLeq(q, r)
    ensures PairLeq(p, r)
  {
    if p.name == q.name == r.name {
      LeqTransitive(p.value, q.value, r.value);
    } else if p.name != q.name && q.name != r.name {
      LeqTransitive(p.name, q.name, r.name);
      if p.name == r.name { LeqAntisymmetric(p.name, q.name); }
    }
  }

  lemma SortedInFront(x: Pair, pairs: seq<Pair>)
    requires SortedBy(PairLeq, pairs) && pairs != [] && PairLeq(x, pairs[0])
    ensures SortedBy(PairLeq, [x] + pairs)
  {
    forall j | 0 <= j < |pairs| ensures PairLeq(x, pairs[j]) {
      if j > 0 { PairLeqTransitive(x, pairs[0], pairs[j]); }
    }
    hide PairLeq;
  }

  /** A path that ends in a pair's text yields it. */
  lemma EndsInPair(front: string, x: Pair, p: Pair)
    requires PairLeq(x, p)
    ensures YieldsPair(front + ['|'] + TextOf(x), p)
  {
    var path := front + ['|'] + TextOf(x);
    var i, e := |front|, |front| + 1 + |x.name|;
    assert path[i] == '|' && path[e] == '=';
    assert path[i + 1..e] == x.name && path[e + 1..] == x.value;
  }

  /** A second way to split the last pair: at the '=' of a pair inside its value. */
  lemma SplitsFurther(s: string, path: string, p: Pair, x: Pair, y: Pair, more: string)
    requires Reads(s, path, [p, Pair(x.name, x.value + (['|'] + TextOf(y) + more))]) && ValidPair(p)
    ensures var q := Pair(x.name + ['='] + x.value + ['|'] + y.name, y.value + more);
            Reads(s, path, [p, q]) && q != Pair(x.name, x.value + (['|'] + TextOf(y) + more))
  {
    hide HeightText;
    var z := Pair(x.name, x.value + (['|'] + TextOf(y) + more));
    var q := Pair(x.name + ['='] + x.value + ['|'] + y.name, y.value + more);
    assert [p, z][0] == p && [p, z][1] == z && PairLeq(p, z);
    LongerName(p, x.name, ['='] + x.value + ['|'] + y.name, z.value, q.value);
    assert x.name + (['='] + x.value + ['|'] + y.name) == q.name;
    TailTwo(p, z);
    TailTwo(p, q);
    assert q.name + ['='] + q.value == z.name + ['='] + z.value;
    assert |q.name| > |z.name|;
    assert ValidPair([p, q][0]);
    SplitsSame(p, z, q);
  }

  lemma SplitsSame(p: Pair, z: Pair, q: Pair)
    requires q.name + ['='] + q.value == z.name + ['='] + z.value
    ensures Tail([p, q]) == Tail([p, z])
  {
    assert [p, q][1..] == [q] && [p, z][1..] == [z];
    TailOne(q);
    TailOne(z);
    assert ['|'] + q.name + ['='] + q.value == ['|'] + (q.name + ['='] + q.value);
    assert ['|'] + z.name + ['='] + z.value == ['|'] + (z.name + ['='] + z.value);
  }

  lemma LongerName(p: Pair, name: string, more: string, v: string, u: string)
    requires PairLeq(p, Pair(name, v)) && more != []
    ensures PairLeq(p, Pair(name + more, u))
  {
    LeqPrefix(name, more);
    assert |name + more| > |name|;
    if p.name == name {
      assert p.name != name + more;
    } else {
      LeqTransitive(p.name, name, name + more);
      if p.name == name + more { LeqAntisymmetric(name + more, name); }
    }
  }

  // ----- The exact condition -----

  /** One short reading, nothing in the path to read as a pair before it, and no other cut. */
  ghost predicate SoleReading(s: string, path: string, pairs: seq<Pair>) {
    Short(pairs) && !YieldsPair(path, pairs[0]) && OneCut(s)
  }

  lemma SoleIsOnly(s: string, path: string, pairs: seq<Pair>)
    requires Reads(s, path, pairs) && SoleReading(s, path, pairs)
    ensures OnlyReading(s, path, pairs)
  {
    hide HeightText, PairLeq, Tail, TextOf, IsCut, Reads, Short, YieldsPair;
    forall other, others | Reads(s, other, others) ensures other == path && others == pairs {
      var j := ValidAt(s, other, others);
      ShortenedReads(s, other, others, j);
      SameShort(s, path, pairs, other + Tail(others[..j]), Shortened(others, j));
      SameAsShortened(s, path, pairs, other, others, j);
    }
  }

  lemma SameShort(s: string, path: string, pairs: seq<Pair>, other: string, others: seq<Pair>)
    requires Reads(s, path, pairs) && Short(pairs) && Reads(s, other, others) && Short(others) && OneCut(s)
    ensures other == path && others == pairs
  {
    hide IsCut, Reads;
    var c := ShortIsCut(s, path, pairs);
    var d := ShortIsCut(s, other, others);
    assert c == d;
  }

  lemma SameAsShortened(s: string, path: string, pairs: seq<Pair>, other: string, others: seq<Pair>, j: nat)
    requires Reads(s, path, pairs) && SoleReading(s, path, pairs)
    requires Reads(s, other, others) && j < |others| && ValidPair(others[j])
    requires path == other + Tail(others[..j]) && pairs == Shortened(others, j)
    ensures other == path && others == pairs
  {
    hide ValidPair, IsCut, OneCut, PairLeq, YieldsPair, TextOf, Tail;
    if j > 0 {
      var x, front := others[j - 1], Tail(others[..j - 1]);
      assert others[..j] == others[..j - 1] + [x];
      TailAppend(others[..j - 1], [x]);
      TailIsText(x);
      assert path == (other + front) + ['|'] + TextOf(x);
      assert PairLeq(x, others[j]) && pairs[0] == others[j];
      EndsInPair(other + front, x, pairs[0]);
      assert false;
    }
    assert others[..0] == [] && Tail([]) == [] && other + [] == other by { TailEmpty(); }
    if |others| == 1 {
      assert others == [others[0]];
    } else if |others| == 2 {
      TailEmpty();
      assert others[2..] == [] && others[1].value + [] == others[1].value;
      assert others == [others[0], others[1]];
    } else {
      var x, y, more := others[1], others[2], Tail(others[3..]);
      TailStep(others, 2);
      assert pairs[1] == Pair(x.name, x.value + (['|'] + TextOf(y) + more));
      assert pairs == [pairs[0], pairs[1]];
      SplitsFurther(s, path, pairs[0], x, y, more);
      var q := Pair(x.name + ['='] + x.value + ['|'] + y.name, y.value + more);
      SameShort(s, path, pairs, path, [pairs[0], q]);
      assert false;
    }
  }

  lemma OnlyIsSole(s: string, path: string, pairs: seq<Pair>)
    requires Reads(s, path, pairs) && OnlyReading(s, path, pairs)
    ensures SoleReading(s, path, pairs)
  {
    hide HeightText, PairLeq, Tail, TextOf, IsCut, Reads, YieldsPair;
    var j := ValidAt(s, path, pairs);
    ShortenedReads(s, path, pairs, j);
    assert Short(pairs);
    if YieldsPair(path, pairs[0]) { PairFromPath(s, path, pairs); }
    forall c, d | IsCut(s, c) && IsCut(s, d) ensures c == d { OnlyOneCut(s, path, pairs, c, d); }
  }

  lemma OnlyOneCut(s: string, path: string, pairs: seq<Pair>, c: Cut, d: Cut)
    requires OnlyReading(s, path, pairs) && IsCut(s, c) && IsCut(s, d)
    ensures c == d
  {
    hide Reads, Short, HeightText, PairLeq;
    CutReads(s, c);
    CutReads(s, d);
    CutsDiffer(s, c, d);
  }

  /** A cacheable request's key is its own among all cacheable requests exactly when it has a valid
      height and at most one more pair, in this order, its path does not end in the text of a pair
      that could come first, and its key's text can be cut in one way only. */
  lemma OwnKeyIff(cfg: Config, r: Request)
    requires Cacheable(cfg, r) && Framed(r)
    ensures OwnKey(cfg, r) <==> SoleReading(Body(r), r.path, PairsIn(r))
  {
    hide Body, Reads, SoleReading, OwnKey, Cacheable, Framed, PairsOf, Names, OnlyReading;
    OwnKeyIsOnly(cfg, r);
    ReadsOwn(cfg, r);
    if OnlyReading(Body(r), r.path, PairsIn(r)) { OnlyIsSole(Body(r), r.path, PairsIn(r)); }
    if SoleReading(Body(r), r.path, PairsIn(r)) { SoleIsOnly(Body(r), r.path, PairsIn(r)); }
  }

  /** With three pairs or more the key is always shared. */
  lemma ManyPairsShare(cfg: Config, r: Request) returns (q: Request)
    requires Cacheable(cfg, r) && Framed(r) && |PairsIn(r)| >= 3
    ensures Cacheable(cfg, q) && Framed(q) && KeyOf(q, "height") == KeyOf(r, "height") && !SameComponents(q, r)
  {
    hide KeyOf, Body, Cacheable, Framed, PairsOf, Names, SameComponents;
    OwnKeyIff(cfg, r);
    q :| Cacheable(cfg, q) && Framed(q) && KeyOf(q, "height") == KeyOf(r, "height") && !SameComponents(q, r);
  }

  // ----- Plain paths -----

  lemma {:induction false} DigitsOnly(s: string)
    requires Digits(s).Some?
    ensures forall c :: c in s ==> '0' <= c <= '9'
  {
    if s != "" {
      DigitsOnly(s[..|s| - 1]);
      assert s == s[..|s| - 1] + [s[|s| - 1]];
    }
  }

  lemma HeightIsPlain(v: string)
    requires HeightText(v).Some?
    ensures v != "" && '|' !in v && '=' !in v
  {
    hide Digits;
    if v[0] == '+' {
      DigitsOnly(v[1..]);
      assert v == ['+'] + v[1..];
    } else {
      DigitsOnly(v);
    }
  }

  lemma PlainPathYieldsNothing(path: string, p: Pair)
    requires !SpellsPair(path)
    ensures !YieldsPair(path, p)
  {
  }

  /** After a path that spells no pair, no cut begins before the path ends. */
  lemma CutAfterPath(s: string, path: string, c: Cut)
    requires !SpellsPair(path) && |path| <= |s| && s[..|path|] == path && IsCut(s, c)
    ensures c.i + 7 >= |path| && s[c.i + 7] == '='
  {
    assert s[c.i + 7] == s[c.i + 1..c.i + 8][6] == '=';
  }

  /** Where the signs stand after the path, when its only pair is a height. */
  lemma OneHeightText(path: string, h: string, s: string)
    requires s == path + ['|'] + "height=" + h && '=' !in h && '|' !in h
    ensures s[..|path|] == path && |s| == |path| + 8 + |h|
    ensures forall k :: |path| <= k < |s| && s[k] == '=' ==> k == |path| + 7
    ensures forall k :: |path| < k < |s| ==> s[k] != '|'
  {
    var rest := ['|'] + "height=" + h;
    assert s == path + rest;
    assert forall k :: |path| <= k < |s| ==> s[k] == rest[k - |path|];
    assert forall k :: 8 <= k < |rest| ==> rest[k] == h[k - 8];
  }

  /** A cacheable request whose only pair is its height, and whose path spells no pair, has its key to
      itself. */
  lemma LoneHeightIsOwn(cfg: Config, r: Request)
    requires Cacheable(cfg, r) && Framed(r) && !SpellsPair(r.path) && |PairsIn(r)| == 1
    ensures OwnKey(cfg, r)
  {
    hide KeyOf, Body, Cacheable, Framed, PairsOf, Names, SameComponents, OwnKey, IsCut, PairLeq, HeightText;
    OwnKeyIff(cfg, r);
    ReadsOwn(cfg, r);
    var s, pairs := Body(r), PairsIn(r);
    var p := pairs[0];
    assert pairs == [p];
    FrontText(r.path, p);
    HeightIsPlain(p.value);
    PlainPathYieldsNothing(r.path, p);
    forall c, d | IsCut(s, c) && IsCut(s, d) ensures c == d {
      OnlyCutOfOne(s, r.path, p.value, c);
      OnlyCutOfOne(s, r.path, p.value, d);
    }
  }

  lemma OnlyCutOfOne(s: string, path: string, h: string, c: Cut)
    requires s == path + ['|'] + "height=" + h && '=' !in h && '|' !in h && !SpellsPair(path) && IsCut(s, c)
    ensures c == Cut(|path|, |s|, |s|)
  {
    hide HeightText, PairLeq, SpellsPair;
    OneHeightText(path, h, s);
    CutAfterPath(s, path, c);
  }

  /** The end of a height pair's text. */
  predicate EndsInHeight(p: Pair) {
    HeightText(p.value).Some? && (p.name == "height" || (|p.name| >= 7 && p.name[|p.name| - 7..] == "|height"))
  }

  /** Where the signs stand from `a` on: two '=', one before `j` and one at `b`, and no '|' between `a`
      and `j`. */
  ghost predicate Signs(s: string, a: nat, j: nat, b: nat) {
    && a + 8 < j < b < |s| && s[j] == '|' && s[b] == '='
    && (forall k :: a <= k < |s| && s[k] == '=' ==> k == a + 7 || k == b)
    && (forall k :: a < k < j ==> s[k] != '|')
  }

  lemma OnePairText(q: Pair, rest: string)
    requires rest == ['|'] + q.name + ['='] + q.value && '=' !in q.name && '=' !in q.value
    ensures |rest| == 2 + |q.name| + |q.value| && rest[0] == '|' && rest[1 + |q.name|] == '='
    ensures rest[1..1 + |q.name|] == q.name && rest[2 + |q.name|..] == q.value
    ensures forall k :: 0 <= k < |rest| && rest[k] == '=' ==> k == 1 + |q.name|
  {
    var n := |q.name|;
    assert forall k :: 1 <= k < 1 + n ==> rest[k] == q.name[k - 1];
    assert forall k :: 2 + n <= k < |rest| ==> rest[k] == q.value[k - 2 - n];
  }

  lemma SignsHere(s: string, front: string, rest: string, a: nat, n: nat)
    requires s == front + rest && a + 8 < |front| && 1 + n < |rest| && rest[0] == '|' && rest[1 + n] == '='
    requires forall k :: 0 <= k < |rest| && rest[k] == '=' ==> k == 1 + n
    requires forall k :: a <= k < |front| && front[k] == '=' ==> k == a + 7
    requires forall k :: a < k < |front| ==> front[k] != '|'
    ensures Signs(s, a, |front|, |front| + 1 + n)
  {
    var j := |front|;
    assert forall k :: 0 <= k < j ==> s[k] == front[k];
    forall k | a <= k < |s| && s[k] == '=' ensures k == a + 7 || k == j + 1 + n {
      if k >= j { assert rest[k - j] == '='; }
    }
  }

  lemma TwoPairsText(path: string, h: string, q: Pair, s: string)
    requires s == path + ['|'] + "height=" + h + (['|'] + q.name + ['='] + q.value)
    requires h != "" && '=' !in h && '|' !in h && '=' !in q.name && '=' !in q.value
    ensures var (j, b) := (|path| + 8 + |h|, |path| + 9 + |h| + |q.name|);
            && Signs(s, |path|, j, b) && s[..|path|] == path && s[j + 1..b] == q.name && s[b + 1..] == q.value
  {
    hide *;
    var front := path + ['|'] + "height=" + h;
    var rest := ['|'] + q.name + ['='] + q.value;
    OneHeightText(path, h, front);
    OnePairText(q, rest);
    SignsHere(s, front, rest, |path|, |q.name|);
    Slices(s, front, rest, |path|, |q.name|);
  }

  lemma Slices(s: string, front: string, rest: string, a: nat, n: nat)
    requires s == front + rest && a <= |front| && 1 + n < |rest|
    ensures s[..a] == front[..a] && s[|front| + 1..|front| + 1 + n] == rest[1..1 + n]
    ensures s[|front| + 1 + n + 1..] == rest[2 + n..]
  {
  }

  lemma CutsOfTwo(s: string, path: string, j: nat, b: nat, c: Cut)
    requires Signs(s, |path|, j, b) && s[..|path|] == path && !SpellsPair(path) && IsCut(s, c)
    ensures c == Cut(|path|, j, b) || c == Cut(b - 7, |s|, |s|)
  {
    CutAfterPath(s, path, c);
    HeightIsPlain(s[c.i + 8..c.j]);
    hide HeightText, PairLeq, SpellsPair;
    NoBarInside(s, c.i + 8, c.j);
  }

  lemma NoBarInside(s: string, i: nat, j: nat)
    requires i <= j <= |s| && '|' !in s[i..j]
    ensures forall k :: i <= k < j ==> s[k] != '|'
  {
    forall k | i <= k < j ensures s[k] != '|' { assert s[i..j][k - i] == s[k]; }
  }

  lemma LateCut(s: string, a: nat, j: nat, b: nat, q: Pair)
    requires Signs(s, a, j, b) && q.name == s[j + 1..b] && q.value == s[b + 1..]
    ensures IsCut(s, Cut(b - 7, |s|, |s|)) <==> EndsInHeight(q)
  {
    hide HeightText, PairLeq;
    var i, n := b - 7, |q.name|;
    assert "height=" == "height" + ['='];
    assert s[i + 1..i + 8] == s[i + 1..b] + ['='];
    SameFront(s[i + 1..b], "height");
    assert s[i + 8..|s|] == q.value;
    assert IsCut(s, Cut(i, |s|, |s|)) <==> HeightText(q.value).Some? && s[i] == '|' && s[i + 1..b] == "height";
    hide IsCut;
    if n >= 7 {
      BarInFront(s, i, b);
      assert q.name[n - 7..] == s[i..b];
    } else if n == 6 {
      assert s[i + 1..b] == q.name;
    }
  }

  lemma BarInFront(s: string, i: nat, b: nat)
    requires i < b <= |s|
    ensures s[i..b] == "|height" <==> s[i] == '|' && s[i + 1..b] == "height"
  {
    assert "|height" == ['|'] + "height";
    assert s[i..b] == [s[i]] + s[i + 1..b];
    if s[i..b] == "|height" { assert s[i + 1..b] == s[i..b][1..] == "|height"[1..]; }
  }

  lemma SameFront(a: string, b: string)
    ensures a + ['='] == b + ['='] <==> a == b
  {
    if a + ['='] == b + ['='] { SameTail(a, b, ['=']); }
  }

  /** With one more pair that holds no '=' of its own, after a path that spells no pair, the key is
      shared exactly when the text ends in a second valid height. */
  lemma OneMorePairIff(cfg: Config, r: Request)
    requires Cacheable(cfg, r) && Framed(r) && !SpellsPair(r.path)
    requires |PairsIn(r)| == 2 && ValidPair(PairsIn(r)[0])
    requires '=' !in PairsIn(r)[1].name && '=' !in PairsIn(r)[1].value
    ensures OwnKey(cfg, r) <==> !EndsInHeight(PairsIn(r)[1])
  {
    hide KeyOf, Body, Cacheable, Framed, PairsOf, Names, SameComponents, OwnKey, IsCut, PairLeq, HeightText,
        EndsInHeight;
    OwnKeyIff(cfg, r);
    ReadsOwn(cfg, r);
    var s, pairs := Body(r), PairsIn(r);
    var p, q := pairs[0], pairs[1];
    PlainPathYieldsNothing(r.path, p);
    HeightIsPlain(p.value);
    TwoText(s, r.path, pairs);
    TwoPairsText(r.path, p.value, q, s);
    TwoCuts(s, r.path, pairs, |r.path| + 8 + |p.value|, |r.path| + 9 + |p.value| + |q.name|);
  }

  lemma TwoCuts(s: string, path: string, pairs: seq<Pair>, j: nat, b: nat)
    requires Reads(s, path, pairs) && Short(pairs) && |pairs| == 2 && !SpellsPair(path)
    requires Signs(s, |path|, j, b) && s[..|path|] == path
    requires pairs[1].name == s[j + 1..b] && pairs[1].value == s[b + 1..]
    ensures OneCut(s) <==> !EndsInHeight(pairs[1])
  {
    hide IsCut, Reads, PairLeq, HeightText, EndsInHeight, SpellsPair;
    LateCut(s, |path|, j, b, pairs[1]);
    var late := Cut(b - 7, |s|, |s|);
    var own := ShortIsCut(s, path, pairs);
    assert own.j != |s|;
    CutsOfTwo(s, path, j, b, own);
    forall c | IsCut(s, c) ensures c == own || c == late { CutsOfTwo(s, path, j, b, c); }
  }

  lemma TwoText(s: string, path: string, pairs: seq<Pair>)
    requires Reads(s, path, pairs) && |pairs| == 2 && ValidPair(pairs[0])
    ensures s == path + ['|'] + "height=" + pairs[0].value + (['|'] + pairs[1].name + ['='] + pairs[1].value)
  {
    var p, q := pairs[0], pairs[1];
    hide Tail, PairLeq, HeightText;
    assert pairs == [p] + [q];
    TailAppend([p], [q]);
    FrontText(path, p);
    TailOne(q);
    Regroup(path, Tail([p]), Tail([q]));
  }
}
