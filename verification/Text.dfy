/** Strings as the Go code uses them: the order of `sort.Strings`, sorting, separators, and the
    decimal form of `strconv.FormatUint`. */
module Text {

  /** Lexicographic order. */
  predicate Leq(a: string, b: string) {
    a == [] || (b != [] && (a[0] < b[0] || (a[0] == b[0] && Leq(a[1..], b[1..]))))
  }

  /** `a` and `b` agree before `i`, where `a` ends or has the smaller character. */
  ghost predicate FirstSmaller(a: string, b: string, i: int) {
    0 <= i <= |a| && i <= |b| && a[..i] == b[..i] && (i == |a| || (i < |b| && a[i] < b[i]))
  }

  /** The order written out: by the first place where two texts differ, a prefix coming first. */
  lemma {:induction false} OrderIsByFirstDifference(a: string, b: string)
    ensures Leq(a, b) <==> exists i :: FirstSmaller(a, b, i)
  {
    if a == [] {
      assert FirstSmaller(a, b, 0);
    } else if b != [] && a[0] == b[0] {
      OrderIsByFirstDifference(a[1..], b[1..]);
      if i :| FirstSmaller(a[1..], b[1..], i) { EqualHeads(a, b, i + 1); }
      if i :| FirstSmaller(a, b, i) { EqualHeads(a, b, i); }
    } else if b != [] {
      if a[0] < b[0] { assert FirstSmaller(a, b, 0); }
      forall i | FirstSmaller(a, b, i) ensures i == 0 { FirstOfFront(a, b, i); }
    }
  }

  lemma EqualHeads(a: string, b: string, i: int)
    requires a != [] && b != [] && a[0] == b[0] && i > 0
    ensures FirstSmaller(a, b, i) <==> FirstSmaller(a[1..], b[1..], i - 1)
  {
    if i <= |a| && i <= |b| {
      assert a[..i] == [a[0]] + a[1..][..i - 1] && b[..i] == [b[0]] + b[1..][..i - 1];
      assert a[..i][1..] == a[1..][..i - 1] && b[..i][1..] == b[1..][..i - 1];
    }
  }

  lemma FirstOfFront(a: string, b: string, i: int)
    requires a != [] && b != [] && 0 <= i <= |a| && i <= |b| && a[..i] == b[..i]
    ensures i > 0 ==> a[0] == b[0]
  {
    if i > 0 { assert a[0] == a[..i][0] && b[0] == b[..i][0]; }
  }

  lemma {:induction false} LeqTotal(a: string, b: string)
    ensures Leq(a, b) || Leq(b, a)
  {
    if a != [] && b != [] { LeqTotal(a[1..], b[1..]); }
  }

  lemma {:induction false} LeqAntisymmetric(a: string, b: string)
    requires Leq(a, b) && Leq(b, a)
    ensures a == b
  {
    if a != [] && b != [] {
      LeqAntisymmetric(a[1..], b[1..]);
      assert a == [a[0]] + a[1..] && b == [b[0]] + b[1..];
    }
  }

  lemma {:induction false} LeqTransitive(a: string, b: string, c: string)
    requires Leq(a, b) && Leq(b, c)
    ensures Leq(a, c)
  {
    if a != [] && a[0] == b[0] == c[0] { LeqTransitive(a[1..], b[1..], c[1..]); }
  }

  // ----- Sorting -----

  ghost predicate SortedBy<T>(leq: (T, T) -> bool, s: seq<T>) {
    forall i, j :: 0 <= i < j < |s| ==> leq(s[i], s[j])
  }

  ghost predicate Antisymmetric<T(!new)>(leq: (T, T) -> bool) {
    forall x, y :: leq(x, y) && leq(y, x) ==> x == y
  }

  lemma HeadsAgree<T(!new)>(leq: (T, T) -> bool, a: seq<T>, b: seq<T>)
    requires Antisymmetric(leq) && SortedBy(leq, a) && SortedBy(leq, b)
    requires multiset(a) == multiset(b) && a != [] && b != []
    ensures a[0] == b[0]
  {
    assert a[0] in multiset(b) && b[0] in multiset(a);
    var i :| 0 <= i < |b| && b[i] == a[0];
    var j :| 0 <= j < |a| && a[j] == b[0];
  }

  lemma TailMultiset<T>(a: seq<T>)
    requires a != []
    ensures multiset(a[1..]) == multiset(a) - multiset{a[0]}
  {
    assert a == [a[0]] + a[1..];
  }

  /** A sorted list is determined by its elements: sorting forgets the order they came in. */
  lemma {:induction false} SortedIsUnique<T(!new)>(leq: (T, T) -> bool, a: seq<T>, b: seq<T>)
    requires Antisymmetric(leq)
    requires SortedBy(leq, a) && SortedBy(leq, b)
    requires multiset(a) == multiset(b)
    ensures a == b
  {
    assert |a| == |multiset(a)| == |multiset(b)| == |b|;
    if a != [] {
      HeadsAgree(leq, a, b);
      TailMultiset(a);
      TailMultiset(b);
      SortedIsUnique(leq, a[1..], b[1..]);
      assert a == [a[0]] + a[1..] && b == [b[0]] + b[1..];
    }
  }

  lemma LeqIsAntisymmetric()
    ensures Antisymmetric(Leq)
  {
    forall x, y | Leq(x, y) && Leq(y, x) ensures x == y { LeqAntisymmetric(x, y); }
  }

  lemma BelowAll(x: string, s: seq<string>)
    requires SortedBy(Leq, s) && s != [] && Leq(x, s[0])
    ensures SortedBy(Leq, [x] + s)
  {
    forall j | 0 <= j < |s| ensures Leq(x, s[j]) {
      if j > 0 { LeqTransitive(x, s[0], s[j]); }
    }
    hide Leq;
  }

  lemma HeadStays(x: string, s: seq<string>, rest: seq<string>)
    requires SortedBy(Leq, s) && s != [] && !Leq(x, s[0])
    requires SortedBy(Leq, rest) && multiset(rest) == multiset{x} + multiset(s[1..])
    ensures SortedBy(Leq, [s[0]] + rest) && multiset([s[0]] + rest) == multiset{x} + multiset(s)
  {
    LeqTotal(x, s[0]);
    hide Leq;
    assert s == [s[0]] + s[1..];
    forall j | 0 <= j < |rest| ensures Leq(s[0], rest[j]) {
      assert rest[j] in multiset(rest);
      if rest[j] != x { assert rest[j] in s[1..]; }
    }
  }

  function Insert(x: string, s: seq<string>): (r: seq<string>)
    requires SortedBy(Leq, s)
    ensures SortedBy(Leq, r) && multiset(r) == multiset{x} + multiset(s)
  {
    if s == [] then [x]
    else if Leq(x, s[0]) then BelowAll(x, s); [x] + s
    else
      var rest := Insert(x, s[1..]);
      HeadStays(x, s, rest);
      [s[0]] + rest
  }

  /** `sort.Strings`: a sorted rearrangement. */
  function Sort(s: seq<string>): (r: seq<string>)
    ensures SortedBy(Leq, r) && multiset(r) == multiset(s)
  {
    if s == [] then []
    else
      assert s == [s[0]] + s[1..];
      Insert(s[0], Sort(s[1..]))
  }

  // ----- Separators -----

  /** A separator absent from the left parts splits a text in one way only. */
  lemma SplitAtFirst(sep: char, a: string, x: string, b: string, y: string)
    requires sep !in a && sep !in b
    requires a + [sep] + x == b + [sep] + y
    ensures a == b && x == y
  {
    var t, u := a + [sep] + x, b + [sep] + y;
    assert t[|a|] == sep && u[|b|] == sep;
    assert forall i :: 0 <= i < |a| ==> t[i] == a[i];
    assert forall i :: 0 <= i < |b| ==> u[i] == b[i];
    assert |a| == |b|;
    assert a == t[..|a|] && b == u[..|b|];
    assert x == t[|a| + 1..] && y == u[|b| + 1..];
  }

  /** A separator absent from the right parts splits a text in one way only. */
  lemma SplitAtLast(sep: char, a: string, x: string, b: string, y: string)
    requires sep !in x && sep !in y
    requires a + [sep] + x == b + [sep] + y
    ensures a == b && x == y
  {
    var t, u := a + [sep] + x, b + [sep] + y;
    assert |t| == |u|;
    assert t[|a|] == sep && u[|b|] == sep;
    assert forall i :: |a| < i < |t| ==> t[i] == x[i - |a| - 1];
    assert forall i :: |b| < i < |u| ==> u[i] == y[i - |b| - 1];
    assert |a| == |b|;
    assert a == t[..|a|] && b == u[..|b|];
    assert x == t[|a| + 1..] && y == u[|b| + 1..];
  }

  /** The parts, each after the first preceded by the separator. */
  function Join(sep: char, parts: seq<string>): string {
    if parts == [] then ""
    else if |parts| == 1 then parts[0]
    else parts[0] + [sep] + Join(sep, parts[1..])
  }

  ghost predicate Free(sep: char, parts: seq<string>) {
    forall i :: 0 <= i < |parts| ==> sep !in parts[i]
  }

  lemma {:induction false} JoinInjective(sep: char, a: seq<string>, b: seq<string>)
    requires a != [] && b != [] && Free(sep, a) && Free(sep, b)
    requires Join(sep, a) == Join(sep, b)
    ensures a == b
  {
    assert |a| > 1 ==> Join(sep, a)[|a[0]|] == sep;
    assert |b| > 1 ==> Join(sep, b)[|b[0]|] == sep;
    if |a| == 1 || |b| == 1 {
      assert |a| == |b|;
    } else {
      SplitAtFirst(sep, a[0], Join(sep, a[1..]), b[0], Join(sep, b[1..]));
      JoinInjective(sep, a[1..], b[1..]);
      assert a == [a[0]] + a[1..] && b == [b[0]] + b[1..];
    }
  }

  lemma {:induction false} JoinAppend(sep: char, a: seq<string>, last: string)
    requires a != []
    ensures Join(sep, a + [last]) == Join(sep, a) + [sep] + last
  {
    if |a| > 1 {
      assert (a + [last])[1..] == a[1..] + [last];
      JoinAppend(sep, a[1..], last);
      assert Join(sep, a + [last]) == a[0] + [sep] + (Join(sep, a[1..]) + [sep] + last);
    } else {
      assert (a + [last])[1..] == [last];
    }
  }

  // ----- Decimal numerals -----

  const DIGITS := "0123456789"

  function Decimal(n: nat): (r: string)
    ensures r != [] && forall i :: 0 <= i < |r| ==> r[i] in DIGITS
  {
    if n < 10 then [DIGITS[n]] else Decimal(n / 10) + [DIGITS[n % 10]]
  }

  lemma {:induction false} DecimalInjective(m: nat, n: nat)
    requires Decimal(m) == Decimal(n)
    ensures m == n
  {
    var a, b := Decimal(m), Decimal(n);
    assert a[|a| - 1] == DIGITS[m % 10] && b[|b| - 1] == DIGITS[n % 10];
    assert m % 10 == n % 10;
    assert |a| == 1 <==> m < 10;
    assert |b| == 1 <==> n < 10;
    if m >= 10 {
      assert a[..|a| - 1] == Decimal(m / 10) && b[..|b| - 1] == Decimal(n / 10);
      DecimalInjective(m / 10, n / 10);
    }
  }
}
