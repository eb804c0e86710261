/** Cache keys and chain names: pkg/proxy/helpers.go. */
module CacheKeys {
  import opened Options
  import opened Text

  /** The parts of an HTTP request that the key and the chain are read from. */
  datatype Request = Request(
    verb: string, host: string, urlHost: string, path: string, query: map<string, seq<string>>, chainHeader: string)

  datatype Pair = Pair(name: string, value: string)

  // ----- Hosts -----

  /** The index of the last `c`, or -1. */
  function LastIndex(s: string, c: char): (i: int)
    ensures -1 <= i < |s|
    ensures i >= 0 ==> s[i] == c
    ensures forall j :: i < j < |s| ==> s[j] != c
  {
    if s == [] then -1
    else if s[|s| - 1] == c then |s| - 1
    else LastIndex(s[..|s| - 1], c)
  }

  function TrimBrackets(s: string): string {
    if s != [] && s[0] in "[]" then TrimBrackets(s[1..])
    else if s != [] && s[|s| - 1] in "[]" then TrimBrackets(s[..|s| - 1])
    else s
  }

  /** The host of net.SplitHostPort for a text that does not begin with '[' and hold a ':', or
      nothing where it reports an error. */
  function SplitHostPort(host: string): Option<string> {
    var i := LastIndex(host, ':');
    if i < 0 || ':' in host[..i] || '[' in host || ']' in host then None else Some(host[..i])
  }

  function StripPort(host: string): string {
    if host == "" then ""
    else if host[0] == '[' && LastIndex(host, ':') != -1 then TrimBrackets(host[..LastIndex(host, ':')])
    else match SplitHostPort(host)
      case Some(h) => h
      case None => host
  }

  function TrimDot(s: string): string {
    if s != [] && s[|s| - 1] == '.' then s[..|s| - 1] else s
  }

  /** strings.Split on one separator. */
  function Split(s: string, sep: char): (parts: seq<string>)
    ensures parts != [] && (|parts| >= 2 <==> sep in s)
    ensures Join(sep, parts) == s && forall i :: 0 <= i < |parts| ==> sep !in parts[i]
  {
    if sep !in s then [s]
    else
      var i := FirstIndex(s, sep);
      assert s == s[..i] + [sep] + s[i + 1..];
      [s[..i]] + Split(s[i + 1..], sep)
  }

  function FirstIndex(s: string, c: char): (i: nat)
    requires c in s
    ensures i < |s| && s[i] == c && c !in s[..i]
  {
    if s[0] == c then 0
    else
      assert s == [s[0]] + s[1..];
      var i := FirstIndex(s[1..], c) + 1;
      assert s[..i] == [s[0]] + s[1..][..i - 1];
      i
  }

  function HostLabels(r: Request): seq<string> {
    var host := StripPort(r.host);
    Split(TrimDot(if host == "" then StripPort(r.urlHost) else host), '.')
  }

  /** The chain of a request, or nothing where extractChain reports an error. */
  function ChainOf(r: Request): Option<string> {
    var parts := HostLabels(r);
    if |parts| >= 2 then Some(parts[1])
    else if r.chainHeader == "" then None
    else Some(r.chainHeader)
  }

  /** The chain is read from r.Host, not from the URL or the header. */
  predicate ChainFromHost(r: Request) {
    StripPort(r.host) != "" && '.' in TrimDot(StripPort(r.host))
  }

  // ----- Keys -----

  ghost function Listed(s: set<string>): (r: seq<string>)
    ensures multiset(r) == multiset(s)
  {
    if s == {} then []
    else
      var k :| k in s;
      assert s == {k} + (s - {k});
      [k] + Listed(s - {k})
  }

  function PairsFor(name: string, values: seq<string>): (r: seq<Pair>)
    ensures |r| == |values| && forall i :: 0 <= i < |r| ==> r[i] == Pair(name, values[i])
  {
    seq(|values|, i requires 0 <= i < |values| => Pair(name, values[i]))
  }

  /** The query pairs under the given names, the values of each name in order. */
  function PairsOf(query: map<string, seq<string>>, names: seq<string>): seq<Pair>
    requires forall n :: n in names ==> n in query
  {
    if names == [] then []
    else PairsFor(names[0], Sort(query[names[0]])) + PairsOf(query, names[1..])
  }

  ghost function Names(query: map<string, seq<string>>): (r: seq<string>)
    ensures multiset(r) == multiset(query.Keys) && SortedBy(Leq, r)
    ensures forall n :: n in r <==> n in query
  {
    var r := Sort(Listed(query.Keys));
    assert forall n :: n in r <==> n in multiset(r);
    r
  }

  function TextOf(p: Pair): string {
    p.name + ['='] + p.value
  }

  function Texts(pairs: seq<Pair>): (r: seq<string>)
    ensures |r| == |pairs| && forall i :: 0 <= i < |r| ==> r[i] == TextOf(pairs[i])
  {
    seq(|pairs|, i requires 0 <= i < |pairs| => TextOf(pairs[i]))
  }

  ghost function Parts(r: Request, suffix: string): seq<string> {
    [r.verb, StripPort(r.host), r.path] + Texts(PairsOf(r.query, Names(r.query))) +
        if suffix != "" then [suffix] else []
  }

  ghost function KeyOf(r: Request, suffix: string): string {
    Join('|', Parts(r, suffix))
  }

  /** The names of the query, sorted; the map may yield them in any order. */
  method SortedNames(query: map<string, seq<string>>) returns (keys: seq<string>)
    ensures keys == Names(query)
  {
    keys := [];
    var todo := query.Keys;
    while todo != {}
      invariant todo <= query.Keys
      invariant multiset(keys) == multiset(query.Keys - todo)
    {
      var name :| name in todo;
      keys := keys + [name];
      todo := todo - {name};
      assert query.Keys - todo == (query.Keys - todo - {name}) + {name};
    }
    assert query.Keys - todo == query.Keys;
    keys := Sort(keys);
    LeqIsAntisymmetric();
    SortedIsUnique(Leq, keys, Names(query));
  }

  /** The inner loop of cacheKey; `front` and `done` are the parts written so far. */
  method WriteValues(written: string, name: string, values: seq<string>, ghost front: seq<string>,
    ghost done: seq<Pair>)
    returns (key: string)
    requires front != [] && written == Join('|', front + Texts(done))
    ensures key == Join('|', front + Texts(done + PairsFor(name, values)))
  {
    key := written;
    assert done + PairsFor(name, values[..0]) == done;
    for j := 0 to |values|
      invariant key == Join('|', front + Texts(done + PairsFor(name, values[..j])))
    {
      key := key + ['|'] + name + ['='] + values[j];
      ghost var sofar := done + PairsFor(name, values[..j]);
      assert done + PairsFor(name, values[..j + 1]) == sofar + [Pair(name, values[j])];
      TextsAppend(front, sofar, Pair(name, values[j]));
    }
    assert values[..|values|] == values;
  }

  lemma TextsAppend(front: seq<string>, pairs: seq<Pair>, p: Pair)
    requires front != []
    ensures Join('|', front + Texts(pairs + [p])) == Join('|', front + Texts(pairs)) + ['|'] + p.name + ['='] + p.value
  {
    assert front + Texts(pairs + [p]) == (front + Texts(pairs)) + [TextOf(p)];
    JoinAppend('|', front + Texts(pairs), TextOf(p));
    var k := Join('|', front + Texts(pairs));
    assert k + ['|'] + TextOf(p) == k + ['|'] + p.name + ['='] + p.value;
  }

  lemma JoinThree(a: string, b: string, c: string)
    ensures Join('|', [a, b, c]) == a + ['|'] + b + ['|'] + c
  {
    JoinAppend('|', [a], b);
    JoinAppend('|', [a, b], c);
    assert [a] + [b] + [c] == [a, b, c];
  }

  lemma NextName(query: map<string, seq<string>>, names: seq<string>, i: nat)
    requires i < |names| && forall n :: n in names ==> n in query
    ensures PairsOf(query, names[..i]) + PairsFor(names[i], Sort(query[names[i]])) == PairsOf(query, names[..i + 1])
  {
    hide Sort, PairsFor, PairsOf;
    PairsOfAppend(query, names[..i], names[i]);
    assert names[..i] + [names[i]] == names[..i + 1];
  }

  lemma KeyStart(r: Request)
    ensures r.verb + ['|'] + StripPort(r.host) + ['|'] + r.path ==
            Join('|', [r.verb, StripPort(r.host), r.path] + Texts(PairsOf(r.query, [])))
  {
    hide StripPort;
    JoinThree(r.verb, StripPort(r.host), r.path);
    var front := [r.verb, StripPort(r.host), r.path];
    assert front + Texts([]) == front;
  }

  lemma KeyEnd(r: Request, suffix: string)
    ensures var written := Join('|', [r.verb, StripPort(r.host), r.path] + Texts(PairsOf(r.query, Names(r.query))));
            KeyOf(r, suffix) == if suffix != "" then written + ['|'] + suffix else written
  {
    hide StripPort, PairsOf, Names, Texts, Join;
    var all := [r.verb, StripPort(r.host), r.path] + Texts(PairsOf(r.query, Names(r.query)));
    if suffix != "" {
      JoinAppend('|', all, suffix);
      assert all + [suffix] == Parts(r, suffix);
    } else {
      assert all == Parts(r, suffix);
    }
  }

  /** cacheKey: a builder over sorted names and sorted values. */
  method CacheKey(r: Request, suffix: string) returns (key: string)
    ensures key == KeyOf(r, suffix)
  {
    hide Join, PairsFor, Names, Texts, PairsOf, KeyOf, StripPort;
    ghost var front := [r.verb, StripPort(r.host), r.path];
    key := r.verb + ['|'] + StripPort(r.host) + ['|'] + r.path;
    KeyStart(r);
    var keys := SortedNames(r.query);
    assert keys[..0] == [];
    for i := 0 to |keys|
      invariant key == Join('|', front + Texts(PairsOf(r.query, keys[..i])))
    {
      key := WriteValues(key, keys[i], Sort(r.query[keys[i]]), front, PairsOf(r.query, keys[..i]));
      NextName(r.query, keys, i);
    }
    assert keys[..|keys|] == keys;
    KeyEnd(r, suffix);
    if suffix != "" {
      key := key + ['|'] + suffix;
    }
  }

  lemma {:induction false} PairsOfAppend(query: map<string, seq<string>>, names: seq<string>, last: string)
    requires last in query && forall n :: n in names ==> n in query
    ensures PairsOf(query, names + [last]) == PairsOf(query, names) + PairsFor(last, Sort(query[last]))
  {
    hide Sort, PairsFor;
    if names != [] {
      assert (names + [last])[1..] == names[1..] + [last];
      PairsOfAppend(query, names[1..], last);
      assert PairsOf(query, names + [last]) ==
             PairsFor(names[0], Sort(query[names[0]])) +
             (PairsOf(query, names[1..]) + PairsFor(last, Sort(query[last])));
    } else {
      assert names + [last] == [last] && [last][1..] == [];
      assert PairsOf(query, [last]) == PairsFor(last, Sort(query[last])) + [];
    }
  }

  // ----- What a key identifies -----

  /** How often the query carries `name=value`. */
  function Multiplicity(query: map<string, seq<string>>, p: Pair): nat {
    if p.name in query then multiset(query[p.name])[p.value] else 0
  }

  /** Method, port-stripped host, path, and the multiset of query pairs. */
  ghost predicate SameComponents(q: Request, r: Request) {
    && q.verb == r.verb && StripPort(q.host) == StripPort(r.host) && q.path == r.path
    && forall p :: Multiplicity(q.query, p) == Multiplicity(r.query, p)
  }

  /** No component holds '|' and no query name holds '='. */
  ghost predicate Clean(r: Request) {
    && '|' !in r.verb && '|' !in StripPort(r.host) && '|' !in r.path
    && forall n :: n in r.query ==> '|' !in n && '=' !in n && forall v :: v in r.query[n] ==> '|' !in v
  }

  predicate PairLeq(p: Pair, q: Pair) {
    if p.name == q.name then Leq(p.value, q.value) else Leq(p.name, q.name)
  }

  lemma PairLeqIsAntisymmetric()
    ensures Antisymmetric(PairLeq)
  {
    forall p, q | PairLeq(p, q) && PairLeq(q, p) ensures p == q {
      if p.name == q.name { LeqAntisymmetric(p.value, q.value); } else { LeqAntisymmetric(p.name, q.name); }
    }
  }

  ghost predicate NoRepeats(names: seq<string>) {
    forall i, j :: 0 <= i < j < |names| ==> names[i] != names[j]
  }

  lemma {:induction false} PairsSorted(query: map<string, seq<string>>, names: seq<string>)
    requires SortedBy(Leq, names) && NoRepeats(names) && forall n :: n in names ==> n in query
    ensures SortedBy(PairLeq, PairsOf(query, names))
    ensures forall p :: p in PairsOf(query, names) ==> p.name in names
  {
    if names != [] {
      PairsSorted(query, names[1..]);
      var first, rest := PairsFor(names[0], Sort(query[names[0]])), PairsOf(query, names[1..]);
      forall i, j | 0 <= i < j < |first + rest| ensures PairLeq((first + rest)[i], (first + rest)[j]) {
        if j >= |first| && i < |first| {
          assert rest[j - |first|] in rest;
          var k :| 0 <= k < |names[1..]| && names[1..][k] == rest[j - |first|].name;
          assert names[k + 1] == rest[j - |first|].name;
        }
      }
    }
  }

  lemma {:induction false} PairsForCount(name: string, values: seq<string>, p: Pair)
    ensures multiset(PairsFor(name, values))[p] == if p.name == name then multiset(values)[p.value] else 0
  {
    if values == [] {
      assert PairsFor(name, values) == [];
    } else {
      var rest := values[1..];
      PairsForCount(name, rest, p);
      assert values == [values[0]] + rest;
      assert PairsFor(name, values) == [Pair(name, values[0])] + PairsFor(name, rest);
    }
  }

  lemma {:induction false} PairsCount(query: map<string, seq<string>>, names: seq<string>, p: Pair)
    requires NoRepeats(names) && forall n :: n in names ==> n in query
    ensures multiset(PairsOf(query, names))[p] == if p.name in names then Multiplicity(query, p) else 0
  {
    if names != [] {
      PairsCount(query, names[1..], p);
      PairsForCount(names[0], Sort(query[names[0]]), p);
      assert names == [names[0]] + names[1..];
      assert p.name in names <==> p.name == names[0] || p.name in names[1..];
      if p.name == names[0] { assert p.name !in names[1..]; }
    }
  }

  lemma NamesDoNotRepeat(query: map<string, seq<string>>)
    ensures NoRepeats(Names(query))
  {
    DistinctFromSet(Names(query), query.Keys);
  }

  lemma RepeatCountsTwice(s: seq<string>, i: nat, j: nat)
    requires i < j < |s|
    ensures s[i] == s[j] ==> multiset(s)[s[i]] >= 2
  {
    assert s == s[..i] + [s[i]] + s[i + 1..j] + [s[j]] + s[j + 1..];
  }

  lemma DistinctFromSet(s: seq<string>, keys: set<string>)
    requires multiset(s) == multiset(keys)
    ensures NoRepeats(s)
  {
    forall i, j | 0 <= i < j < |s| ensures s[i] != s[j] {
      RepeatCountsTwice(s, i, j);
      assert multiset(keys)[s[i]] <= 1;
    }
  }

  lemma PairsMultiset(query: map<string, seq<string>>)
    ensures forall p :: multiset(PairsOf(query, Names(query)))[p] == Multiplicity(query, p)
    ensures SortedBy(PairLeq, PairsOf(query, Names(query)))
  {
    NamesDoNotRepeat(query);
    PairsSorted(query, Names(query));
    forall p ensures multiset(PairsOf(query, Names(query)))[p] == Multiplicity(query, p) {
      PairsCount(query, Names(query), p);
    }
  }

  /** The canonical pair lists agree exactly when the multisets of pairs agree. */
  lemma PairsCanonical(a: map<string, seq<string>>, b: map<string, seq<string>>)
    ensures PairsOf(a, Names(a)) == PairsOf(b, Names(b)) <==> forall p :: Multiplicity(a, p) == Multiplicity(b, p)
  {
    PairsMultiset(a);
    PairsMultiset(b);
    hide PairsOf, Names, Multiplicity, SortedBy;
    var s, t := PairsOf(a, Names(a)), PairsOf(b, Names(b));
    if s == t {
      forall p ensures Multiplicity(a, p) == Multiplicity(b, p) { assert multiset(s)[p] == multiset(t)[p]; }
    }
    if forall p :: Multiplicity(a, p) == Multiplicity(b, p) {
      assert forall p :: multiset(s)[p] == multiset(t)[p];
      assert multiset(s) == multiset(t);
      PairLeqIsAntisymmetric();
      SortedIsUnique(PairLeq, s, t);
    }
  }

  lemma {:induction false} PairsComeFromQuery(query: map<string, seq<string>>, names: seq<string>, p: Pair)
    requires forall n :: n in names ==> n in query
    requires p in PairsOf(query, names)
    ensures p.name in query && p.value in query[p.name]
  {
    if names != [] {
      var values := Sort(query[names[0]]);
      if p in PairsFor(names[0], values) {
        assert p.value in multiset(values);
      } else {
        PairsComeFromQuery(query, names[1..], p);
      }
    }
  }

  /** '=' is in every pair's text and in no clean suffix, so neither passes for the other. */
  lemma TextsDecide(a: seq<Pair>, s: string, b: seq<Pair>, t: string, front: seq<string>)
    requires forall p :: p in a || p in b ==> '=' !in p.name
    requires '=' !in s && '=' !in t
    requires var sa := if s != "" then [s] else []; var tb := if t != "" then [t] else [];
             front + Texts(a) + sa == front + Texts(b) + tb
    ensures a == b && s == t
  {
    var sa, tb := if s != "" then [s] else [], if t != "" then [t] else [];
    var x, y := front + Texts(a) + sa, front + Texts(b) + tb;
    assert Texts(a) + sa == x[|front|..] && Texts(b) + tb == y[|front|..];
    var u, v := Texts(a) + sa, Texts(b) + tb;
    assert u == v;
    assert forall i :: 0 <= i < |a| ==> u[i][|a[i].name|] == '=';
    assert forall i :: 0 <= i < |b| ==> v[i][|b[i].name|] == '=';
    assert sa != [] ==> u[|a|] == s;
    assert tb != [] ==> v[|b|] == t;
    assert forall i :: 0 <= i < |a| ==> '=' in u[i];
    assert forall i :: 0 <= i < |b| ==> '=' in v[i];
    assert |a| == |b|;
    assert Texts(a) == u[..|a|] == Texts(b);
    forall i | 0 <= i < |a| ensures a[i] == b[i] {
      assert a[i] in a && b[i] in b;
      assert Texts(a)[i] == TextOf(a[i]) && Texts(b)[i] == TextOf(b[i]);
      SplitAtFirst('=', a[i].name, a[i].value, b[i].name, b[i].value);
    }
    assert sa == u[|a|..] == tb;
  }

  lemma PairsClean(r: Request)
    requires Clean(r)
    ensures forall p :: p in PairsOf(r.query, Names(r.query)) ==> '=' !in p.name && '|' !in TextOf(p)
  {
    hide Sort, Names, PairsOf;
    forall p | p in PairsOf(r.query, Names(r.query)) ensures '=' !in p.name && '|' !in TextOf(p) {
      PairsComeFromQuery(r.query, Names(r.query), p);
    }
  }

  lemma PartsClean(r: Request, suffix: string)
    requires Clean(r) && '|' !in suffix
    ensures Free('|', Parts(r, suffix))
    ensures forall p :: p in PairsOf(r.query, Names(r.query)) ==> '=' !in p.name
  {
    hide Sort, Names, PairsOf, StripPort, TextOf;
    PairsClean(r);
    var pairs, parts := PairsOf(r.query, Names(r.query)), Parts(r, suffix);
    forall i | 0 <= i < |parts| ensures '|' !in parts[i] {
      if 3 <= i < 3 + |pairs| { assert parts[i] == TextOf(pairs[i - 3]) && pairs[i - 3] in pairs; }
    }
  }

  /** Clean requests get the same key exactly when they agree on every component and on the suffix. */
  lemma KeysIdentifyRequests(q: Request, s: string, r: Request, t: string)
    requires Clean(q) && Clean(r)
    requires '|' !in s && '=' !in s && '|' !in t && '=' !in t
    ensures KeyOf(q, s) == KeyOf(r, t) <==> SameComponents(q, r) && s == t
  {
    PairsCanonical(q.query, r.query);
    if KeyOf(q, s) == KeyOf(r, t) {
      PartsClean(q, s);
      PartsClean(r, t);
      JoinInjective('|', Parts(q, s), Parts(r, t));
      PartsAgree(q, s, r, t);
    }
  }

  lemma PartsAgree(q: Request, s: string, r: Request, t: string)
    requires Parts(q, s) == Parts(r, t) && '=' !in s && '=' !in t
    requires forall p :: p in PairsOf(q.query, Names(q.query)) ==> '=' !in p.name
    requires forall p :: p in PairsOf(r.query, Names(r.query)) ==> '=' !in p.name
    ensures q.verb == r.verb && StripPort(q.host) == StripPort(r.host) && q.path == r.path && s == t
    ensures PairsOf(q.query, Names(q.query)) == PairsOf(r.query, Names(r.query))
  {
    hide StripPort, Names, PairsOf;
    assert Parts(q, s)[0] == q.verb && Parts(q, s)[1] == StripPort(q.host) && Parts(q, s)[2] == q.path;
    assert Parts(r, t)[0] == r.verb && Parts(r, t)[1] == StripPort(r.host) && Parts(r, t)[2] == r.path;
    TextsDecide(PairsOf(q.query, Names(q.query)), s, PairsOf(r.query, Names(r.query)), t,
                [q.verb, StripPort(q.host), q.path]);
  }

  /** Agreeing on the components is always enough, clean or not. */
  lemma SameComponentsSameKey(q: Request, r: Request, suffix: string)
    requires SameComponents(q, r)
    ensures KeyOf(q, suffix) == KeyOf(r, suffix)
  {
    PairsCanonical(q.query, r.query);
  }

  lemma JoinFront(rest: seq<string>, b: string, a: string)
    requires rest != []
    ensures Join('|', [a, b] + rest) == a + ['|'] + (b + ['|'] + Join('|', rest))
  {
    assert ([a, b] + rest)[1..] == [b] + rest;
    assert ([b] + rest)[1..] == rest;
  }

  // ----- Any path and query -----

  /** The method and the host hold no '|'; the path and the query may. */
  predicate Framed(r: Request) {
    '|' !in r.verb && '|' !in StripPort(r.host)
  }

  /** The key between the host and the suffix. */
  ghost function Body(r: Request): string {
    Join('|', [r.path] + Texts(PairsOf(r.query, Names(r.query))))
  }

  lemma KeyShape(r: Request, suffix: string)
    ensures KeyOf(r, suffix) ==
            r.verb + ['|'] + (StripPort(r.host) + ['|'] + (Body(r) + if suffix != "" then ['|'] + suffix else []))
  {
    hide StripPort, Names, PairsOf;
    var middle := [r.path] + Texts(PairsOf(r.query, Names(r.query)));
    var rest := middle + if suffix != "" then [suffix] else [];
    assert Parts(r, suffix) == [r.verb, StripPort(r.host)] + rest;
    JoinFront(rest, StripPort(r.host), r.verb);
    if suffix != "" {
      JoinAppend('|', middle, suffix);
      assert Body(r) + ['|'] + suffix == Body(r) + (['|'] + suffix);
    } else {
      assert rest == middle;
    }
  }

  /** Whatever the paths and queries, equal keys fix the method, the host and the text between host
      and suffix. */
  lemma KeysFixFrame(q: Request, r: Request, suffix: string)
    requires Framed(q) && Framed(r)
    ensures KeyOf(q, suffix) == KeyOf(r, suffix) <==>
            q.verb == r.verb && StripPort(q.host) == StripPort(r.host) && Body(q) == Body(r)
  {
    hide KeyOf, Body, StripPort;
    KeyShape(q, suffix);
    KeyShape(r, suffix);
    if KeyOf(q, suffix) == KeyOf(r, suffix) {
      var tail := if suffix != "" then ['|'] + suffix else [];
      var x, y := StripPort(q.host) + ['|'] + (Body(q) + tail), StripPort(r.host) + ['|'] + (Body(r) + tail);
      SplitAtFirst('|', q.verb, x, r.verb, y);
      SplitAtFirst('|', StripPort(q.host), Body(q) + tail, StripPort(r.host), Body(r) + tail);
      SameTail(Body(q), Body(r), tail);
    }
  }

  lemma SameTail(a: string, b: string, tail: string)
    requires a + tail == b + tail
    ensures a == b
  {
    assert |a| == |b|;
    assert a == (a + tail)[..|a|] && b == (b + tail)[..|b|];
  }

  /** No other request has `r`'s key, among all those with a plain method and host. */
  ghost predicate Unshared(r: Request, suffix: string) {
    forall q :: Framed(q) && KeyOf(q, suffix) == KeyOf(r, suffix) ==> SameComponents(q, r)
  }

  ghost predicate HasPair(query: map<string, seq<string>>) {
    exists n :: n in query && query[n] != []
  }

  /** Some '|' of the path is followed later by a '='. */
  ghost predicate SpellsPair(path: string) {
    exists i, j :: 0 <= i < j < |path| && path[i] == '|' && path[j] == '='
  }

  lemma NoPairs(query: map<string, seq<string>>)
    ensures PairsOf(query, Names(query)) == [] <==> !HasPair(query)
  {
    hide Names, PairsOf;
    PairsMultiset(query);
    var pairs := PairsOf(query, Names(query));
    if HasPair(query) {
      var n :| n in query && query[n] != [];
      assert Multiplicity(query, Pair(n, query[n][0])) > 0;
      assert multiset(pairs)[Pair(n, query[n][0])] > 0;
    }
    if pairs != [] {
      var p := pairs[0];
      assert Multiplicity(query, p) == multiset(pairs)[p] > 0;
      assert p.name in query && query[p.name] != [];
    }
  }

  lemma TextsFront(p: Pair, pairs: seq<Pair>)
    ensures Texts([p] + pairs) == [TextOf(p)] + Texts(pairs)
  {
  }

  lemma OnePair(name: string, value: string)
    ensures PairsOf(map[name := [value]], Names(map[name := [value]])) == [Pair(name, value)]
  {
    var query := map[name := [value]];
    assert Names(query) == [name] by {
      assert query.Keys == {name};
      assert multiset(Names(query)) == multiset([name]);
      LeqIsAntisymmetric();
      SortedIsUnique(Leq, Names(query), [name]);
    }
    assert [name][1..] == [];
    assert PairsFor(name, [value]) == [Pair(name, value)];
  }

  lemma BodyWithoutPairs(r: Request)
    requires !HasPair(r.query)
    ensures Body(r) == r.path
  {
    NoPairs(r.query);
    assert Texts([]) == [];
    assert [r.path] + [] == [r.path];
  }

  lemma BodyWithPairs(r: Request)
    requires HasPair(r.query)
    ensures |Body(r)| > |r.path| && Body(r)[..|r.path|] == r.path && SpellsPair(Body(r))
  {
    hide Names, PairsOf;
    NoPairs(r.query);
    var pairs := PairsOf(r.query, Names(r.query));
    var texts := Texts(pairs);
    assert ([r.path] + texts)[1..] == texts;
    assert Body(r) == r.path + ['|'] + Join('|', texts);
    var first := pairs[0];
    assert texts[0] == TextOf(first) && texts == [texts[0]] + texts[1..];
    assert Join('|', texts)[..|texts[0]|] == texts[0];
    assert texts[0][|first.name|] == '=';
    assert Body(r)[|r.path|] == '|';
    assert Body(r)[|r.path| + 1 + |first.name|] == Join('|', texts)[|first.name|] == '=';
  }

  lemma PathTakesPairs(r: Request, suffix: string)
    requires Framed(r) && HasPair(r.query)
    ensures !Unshared(r, suffix)
  {
    var q := r.(path := Body(r), query := map[]);
    BodyWithPairs(r);
    BodyWithoutPairs(q);
    KeysFixFrame(q, r, suffix);
    assert q.path != r.path;
    assert !SameComponents(q, r);
  }

  lemma BodyWithOnePair(r: Request, name: string, value: string)
    requires r.query == map[name := [value]]
    ensures Body(r) == r.path + ['|'] + (name + ['='] + value)
  {
    OnePair(name, value);
    hide Names, PairsOf, Texts, TextOf;
    TextsFront(Pair(name, value), []);
    assert Texts([Pair(name, value)]) == [TextOf(Pair(name, value))] by {
      assert [Pair(name, value)] + [] == [Pair(name, value)];
      assert Texts([]) == [] by { assert |Texts([])| == 0; }
    }
    TextIs(name, value);
    JoinAppend('|', [r.path], TextOf(Pair(name, value)));
    assert [r.path] + [TextOf(Pair(name, value))] == [r.path, TextOf(Pair(name, value))];
  }

  lemma TextIs(name: string, value: string)
    ensures TextOf(Pair(name, value)) == name + ['='] + value
  {
  }

  lemma PathGivesPair(r: Request, suffix: string)
    requires Framed(r) && !HasPair(r.query) && SpellsPair(r.path)
    ensures !Unshared(r, suffix)
  {
    hide KeyOf, Body, SameComponents, HasPair, StripPort;
    var p := r.path;
    var i, j :| 0 <= i < j < |p| && p[i] == '|' && p[j] == '=';
    var name, value := p[i + 1..j], p[j + 1..];
    var q := r.(path := p[..i], query := map[name := [value]]);
    BodyWithoutPairs(r);
    BodyWithOnePair(q, name, value);
    assert p == p[..i] + ['|'] + (name + ['='] + value);
    KeysFixFrame(q, r, suffix);
    OtherPath(q, r);
    assert Framed(q) && KeyOf(q, suffix) == KeyOf(r, suffix);
  }

  lemma OtherPath(q: Request, r: Request)
    ensures q.path != r.path ==> !SameComponents(q, r)
  {
  }

  /** A request's key is its own, among all requests with a plain method and host, exactly when it
      carries no query pair and no '|' of its path is followed by a '='. */
  lemma KeyUnsharedIff(r: Request, suffix: string)
    requires Framed(r)
    ensures Unshared(r, suffix) <==> !HasPair(r.query) && !SpellsPair(r.path)
  {
    hide KeyOf, Body;
    if HasPair(r.query) {
      PathTakesPairs(r, suffix);
    } else if SpellsPair(r.path) {
      PathGivesPair(r, suffix);
    } else {
      forall q | Framed(q) && KeyOf(q, suffix) == KeyOf(r, suffix) ensures SameComponents(q, r) {
        KeysFixFrame(q, r, suffix);
        BodyWithoutPairs(r);
        if HasPair(q.query) { BodyWithPairs(q); } else { BodyWithoutPairs(q); }
        forall p ensures Multiplicity(q.query, p) == Multiplicity(r.query, p) == 0 { }
      }
    }
  }

  /** `r` with one more query pair whose name is empty, and `r` with that pair spelled in its path. */
  function WithEmptyName(r: Request, value: string): Request {
    r.(query := r.query["" := [value]])
  }

  function WithLongerPath(r: Request, value: string): Request {
    r.(path := r.path + "|=" + value)
  }

  lemma EmptyLeads(names: seq<string>)
    requires SortedBy(Leq, names)
    ensures SortedBy(Leq, [""] + names)
  {
    assert forall x: string :: Leq("", x);
    hide Leq;
  }

  lemma OneKeyMore(keys: set<string>, key: string, names: seq<string>)
    requires key !in keys && multiset(names) == multiset(keys)
    ensures multiset([key] + names) == multiset(keys + {key})
  {
  }

  lemma EmptyNameSortsFirst(query: map<string, seq<string>>, value: string)
    requires "" !in query
    ensures Names(query["" := [value]]) == [""] + Names(query)
  {
    hide Leq, Names;
    var longer := query["" := [value]];
    EmptyLeads(Names(query));
    OneKeyMore(query.Keys, "", Names(query));
    assert longer.Keys == query.Keys + {""};
    LeqIsAntisymmetric();
    SortedIsUnique(Leq, Names(longer), [""] + Names(query));
  }

  lemma EmptyNameFirst(query: map<string, seq<string>>, value: string)
    requires "" !in query
    ensures PairsOf(query["" := [value]], Names(query["" := [value]])) ==
            [Pair("", value)] + PairsOf(query, Names(query))
  {
    var longer := query["" := [value]];
    var rest := Names(query);
    EmptyNameSortsFirst(query, value);
    assert Sort([value]) == [value];
    assert PairsFor("", [value]) == [Pair("", value)];
    hide Names, Sort, PairsFor;
    assert ([""] + rest)[1..] == rest;
    SamePairs(longer, query, rest);
  }

  lemma {:induction false} SamePairs(a: map<string, seq<string>>, b: map<string, seq<string>>, names: seq<string>)
    requires forall n :: n in names ==> n in a && n in b && a[n] == b[n]
    ensures PairsOf(a, names) == PairsOf(b, names)
  {
    if names != [] { SamePairs(a, b, names[1..]); }
  }

  lemma JoinedFront(a: string, b: string, rest: seq<string>)
    ensures Join('|', [a, b] + rest) == Join('|', [a + ['|'] + b] + rest)
  {
    assert ([a, b] + rest)[1..] == [b] + rest;
    assert ([b] + rest)[1..] == rest;
    assert ([a + ['|'] + b] + rest)[1..] == rest;
    if rest != [] {
      assert a + ['|'] + (b + ['|'] + Join('|', rest)) == (a + ['|'] + b) + ['|'] + Join('|', rest);
    }
  }

  /** A path can spell a query pair: both requests get one key, though their paths differ. */
  lemma PathCanForgeQuery(r: Request, value: string, suffix: string)
    requires "" !in r.query
    ensures KeyOf(WithEmptyName(r, value), suffix) == KeyOf(WithLongerPath(r, value), suffix)
    ensures !SameComponents(WithEmptyName(r, value), WithLongerPath(r, value))
  {
    hide KeyOf, Body, SameComponents;
    var q, p := WithEmptyName(r, value), WithLongerPath(r, value);
    SameBody(r, value);
    KeyShape(q, suffix);
    KeyShape(p, suffix);
    assert |p.path| > |q.path|;
    OtherPath(q, p);
  }

  lemma LongerPathText(r: Request, value: string)
    ensures WithLongerPath(r, value).path == r.path + ['|'] + TextOf(Pair("", value))
  {
    assert r.path + "|=" + value == r.path + ['|'] + ([] + ['='] + value);
  }

  lemma FrontPair(path: string, p: Pair, pairs: seq<Pair>)
    ensures Join('|', [path] + Texts([p] + pairs)) == Join('|', [path + ['|'] + TextOf(p)] + Texts(pairs))
  {
    hide Texts, TextOf, Join;
    TextsFront(p, pairs);
    assert [path] + ([TextOf(p)] + Texts(pairs)) == [path, TextOf(p)] + Texts(pairs);
    JoinedFront(path, TextOf(p), Texts(pairs));
  }

  lemma SameBody(r: Request, value: string)
    requires "" !in r.query
    ensures Body(WithEmptyName(r, value)) == Body(WithLongerPath(r, value))
  {
    hide Names, PairsOf, Texts, TextOf, Join;
    EmptyNameFirst(r.query, value);
    LongerPathText(r, value);
    FrontPair(r.path, Pair("", value), PairsOf(r.query, Names(r.query)));
  }

  /** The two kinds of entry never share a key, whatever the requests. */
  lemma PositiveAndNegativeKeysDiffer(q: Request, r: Request)
    ensures KeyOf(q, "height") != KeyOf(r, "404")
  {
    var a, b := KeyOf(q, "height"), KeyOf(r, "404");
    KeyEndsWithSuffix(q, "height");
    KeyEndsWithSuffix(r, "404");
    assert a[|a| - 1] == 't' && b[|b| - 1] == '4';
  }

  lemma KeyEndsWithSuffix(r: Request, suffix: string)
    requires suffix != ""
    ensures var k := KeyOf(r, suffix); |k| >= |suffix| && k[|k| - |suffix|..] == suffix
  {
    var front := [r.verb, StripPort(r.host), r.path] + Texts(PairsOf(r.query, Names(r.query)));
    JoinAppend('|', front, suffix);
    assert Parts(r, suffix) == front + [suffix];
  }

  // ----- Keys and chains -----

  /** Every request with a plain method and host that shares `r`'s key is on `r`'s chain. */
  ghost predicate KeyFixesChain(r: Request, suffix: string) {
    forall q :: Framed(q) && KeyOf(q, suffix) == KeyOf(r, suffix) ==> ChainOf(q) == ChainOf(r)
  }

  /** The key fixes the chain exactly when the chain is read from r.Host, whatever paths and queries
      are sent; a chain from the X-Mesh-Chain header or from the URL is not part of the key. */
  lemma KeyFixesChainIffFromHost(r: Request, suffix: string)
    requires Framed(r) && ChainOf(r).Some?
    ensures KeyFixesChain(r, suffix) <==> ChainFromHost(r)
  {
    if ChainFromHost(r) {
      forall q | Framed(q) && KeyOf(q, suffix) == KeyOf(r, suffix) ensures ChainOf(q) == ChainOf(r) {
        KeysFixFrame(q, r, suffix);
      }
    } else {
      var other := if ChainOf(r) == Some("a") then "b" else "a";
      var q := r.(chainHeader := other, urlHost := "x." + other);
      assert SameComponents(q, r);
      SameComponentsSameKey(q, r, suffix);
      OtherChain(q, other);
    }
  }

  lemma OtherChain(q: Request, other: string)
    requires other in ["a", "b"] && q.chainHeader == other && q.urlHost == "x." + other && !ChainFromHost(q)
    ensures ChainOf(q) == Some(other)
  {
    if StripPort(q.host) == "" {
      var u := q.urlHost;
      assert u == ['x', '.'] + other && |u| == 3 && u[0] == 'x' && u[1] == '.' && u[2] in "ab";
      assert LastIndex(u, ':') == -1;
      assert StripPort(u) == u && TrimDot(u) == u;
      assert FirstIndex(u, '.') == 1;
      assert u[..1] == "x" && u[2..] == other && '.' !in other;
      assert Split(other, '.') == [other];
      assert Split(u, '.') == ["x", other];
    }
  }
}
