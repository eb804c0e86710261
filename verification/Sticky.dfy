/** Sticky selection by weighted hash residues: stickyChoice in pkg/selector/selector.go. Weights
    are real numbers. */
module StickySelection {
  const RESIDUES := 1_000_000

  ghost predicate NonNegative(w: seq<real>) {
    forall i :: 0 <= i < |w| ==> w[i] >= 0.0
  }

  /** The sum of the first `i` weights. */
  function Cumulative(w: seq<real>, i: nat): real
    requires i <= |w|
  {
    if i == 0 then 0.0 else Cumulative(w, i - 1) + w[i - 1]
  }

  function Total(w: seq<real>): real {
    Cumulative(w, |w|)
  }

  /** The part of the whole that the first `i` candidates have. */
  function Portion(w: seq<real>, i: nat): real
    requires i <= |w| && Total(w) != 0.0
  {
    Cumulative(w, i) / Total(w)
  }

  /** The loop's test: residue `h` falls at or below the end of candidate `i`. */
  predicate Reaches(w: seq<real>, h: int, i: nat)
    requires i < |w| && Total(w) != 0.0
  {
    h as real / RESIDUES as real <= Portion(w, i + 1)
  }

  /** The first candidate from `i` on that the residue reaches, or the last one. */
  function ChoiceFrom(w: seq<real>, h: int, i: nat): (c: nat)
    requires i <= |w| && w != [] && Total(w) != 0.0
    ensures c < |w|
    decreases |w| - i
  {
    if i == |w| then |w| - 1 else if Reaches(w, h, i) then i else ChoiceFrom(w, h, i + 1)
  }

  method StickyChoice(hash: nat, w: seq<real>) returns (choice: nat, ok: bool)
    ensures Total(w) == 0.0 ==> choice == 0 && (ok <==> w != [])
    ensures Total(w) != 0.0 ==> ok && choice == ChoiceFrom(w, hash % 1_000_000, 0)
  {
    var total := 0.0;
    for i := 0 to |w|
      invariant total == Cumulative(w, i)
    {
      total := total + w[i];
    }
    if total == 0.0 {
      return 0, |w| > 0;
    }
    var r := (hash % RESIDUES) as real / RESIDUES as real;
    var cum := 0.0;
    for i := 0 to |w|
      invariant cum == Cumulative(w, i)
      invariant ChoiceFrom(w, hash % RESIDUES, 0) == ChoiceFrom(w, hash % RESIDUES, i)
    {
      cum := cum + w[i];
      if r <= cum / total {
        return i, true;
      }
    }
    return |w| - 1, true;
  }

  // ----- Shares -----

  /** How many of the residues below `n` go to candidate `i`. */
  function ShareBelow(w: seq<real>, i: nat, n: nat): nat
    requires w != [] && Total(w) != 0.0
  {
    if n == 0 then 0 else ShareBelow(w, i, n - 1) + if ChoiceFrom(w, n - 1, 0) == i then 1 else 0
  }

  function Share(w: seq<real>, i: nat): nat
    requires w != [] && Total(w) != 0.0
  {
    ShareBelow(w, i, RESIDUES)
  }

  /** How many of the residues below `n` go to candidates before `i`. */
  function EarlierBelow(w: seq<real>, i: nat, n: nat): nat
    requires w != [] && Total(w) != 0.0
  {
    if n == 0 then 0 else EarlierBelow(w, i, n - 1) + if ChoiceFrom(w, n - 1, 0) < i then 1 else 0
  }

  lemma {:induction false} ShareIsDifference(w: seq<real>, i: nat, n: nat)
    requires w != [] && Total(w) != 0.0
    ensures ShareBelow(w, i, n) == EarlierBelow(w, i + 1, n) - EarlierBelow(w, i, n)
  {
    if n > 0 { ShareIsDifference(w, i, n - 1); }
  }

  lemma {:induction false} CumulativeGrows(w: seq<real>, i: nat, j: nat)
    requires NonNegative(w) && i <= j <= |w|
    ensures Cumulative(w, i) <= Cumulative(w, j)
    ensures Cumulative(w, i) >= 0.0
    decreases j
  {
    if i < j { CumulativeGrows(w, i, j - 1); } else if i > 0 { CumulativeGrows(w, i - 1, i - 1); }
  }

  lemma DivideOrdered(a: real, b: real, t: real)
    requires a <= b && t > 0.0
    ensures a / t <= b / t && (b - a) / t == b / t - a / t
  {
    var x, y := a / t, b / t;
    assert x * t == a && y * t == b;
    assert x > y ==> (x - y) * t > 0.0;
  }

  lemma DivideEnds(t: real)
    requires t > 0.0
    ensures 0.0 / t == 0.0 && t / t == 1.0
  {
  }

  lemma PortionGrows(w: seq<real>, i: nat, j: nat)
    requires NonNegative(w) && Total(w) > 0.0 && i <= j <= |w|
    ensures 0.0 <= Portion(w, i) <= Portion(w, j) <= 1.0
    ensures Portion(w, |w|) == 1.0 && Portion(w, 0) == 0.0
  {
    DivideEnds(Total(w));
    CumulativeGrows(w, 0, i);
    CumulativeGrows(w, i, j);
    CumulativeGrows(w, j, |w|);
    DivideOrdered(0.0, Cumulative(w, i), Total(w));
    DivideOrdered(Cumulative(w, i), Cumulative(w, j), Total(w));
    DivideOrdered(Cumulative(w, j), Total(w), Total(w));
  }

  /** A residue goes before candidate `i` exactly when it is at most the scaled portion before it. */
  lemma {:induction false} ChoiceBefore(w: seq<real>, h: nat, i: nat, from: nat)
    requires NonNegative(w) && Total(w) > 0.0 && w != [] && h < RESIDUES && from <= i <= |w| && from < |w|
    requires from > 0 ==> !Reaches(w, h, from - 1)
    ensures ChoiceFrom(w, h, from) < i <==> i > 0 && h as real <= RESIDUES as real * Portion(w, i)
    decreases |w| - from
  {
    PortionGrows(w, 0, |w|);
    if Reaches(w, h, from) {
      if i > from { PortionGrows(w, from + 1, i); }
      if i == from && i > 0 { assert !Reaches(w, h, i - 1); }
    } else if from + 1 < |w| {
      if i > from {
        ChoiceBefore(w, h, i, from + 1);
      } else {
        ChoiceAtLeast(w, h, from);
        if i > 0 { PortionGrows(w, i, from + 1); }
      }
    }
  }

  lemma {:induction false} ChoiceAtLeast(w: seq<real>, h: int, i: nat)
    requires w != [] && Total(w) != 0.0 && i < |w|
    ensures ChoiceFrom(w, h, i) >= i
    decreases |w| - i
  {
    if !Reaches(w, h, i) && i + 1 < |w| { ChoiceAtLeast(w, h, i + 1); }
  }

  /** The number of naturals below `n` that are at most `x`. */
  lemma {:induction false} EarlierCount(w: seq<real>, i: nat, n: nat)
    requires NonNegative(w) && Total(w) > 0.0 && w != [] && 0 < i <= |w| && n <= RESIDUES
    ensures var x := (RESIDUES as real * Portion(w, i)).Floor;
            EarlierBelow(w, i, n) == if n <= x + 1 then n else x + 1
  {
    PortionGrows(w, 0, i);
    if n > 0 {
      EarlierCount(w, i, n - 1);
      ChoiceBefore(w, n - 1, i, 0);
    }
  }

  lemma {:induction false} NobodyBeforeFirst(w: seq<real>, n: nat)
    requires w != [] && Total(w) != 0.0
    ensures EarlierBelow(w, 0, n) == 0
  {
    if n > 0 { NobodyBeforeFirst(w, n - 1); }
  }

  /** Each candidate receives within one of its weight's share of the million residues. */
  lemma ShareBound(w: seq<real>, i: nat)
    requires NonNegative(w) && Total(w) > 0.0 && i < |w|
    ensures var fair := 1_000_000.0 * (w[i] / Total(w));
            fair - 1.0 <= Share(w, i) as real <= fair + 1.0
  {
    var x, y := RESIDUES as real * Portion(w, i), RESIDUES as real * Portion(w, i + 1);
    ShareIsDifference(w, i, RESIDUES);
    PortionGrows(w, i, i + 1);
    CumulativeGrows(w, i, i + 1);
    DivideOrdered(Cumulative(w, i), Cumulative(w, i + 1), Total(w));
    assert w[i] == Cumulative(w, i + 1) - Cumulative(w, i);
    assert RESIDUES as real * (w[i] / Total(w)) == y - x;
    EarlierCount(w, i + 1, RESIDUES);
    if i == 0 {
      NobodyBeforeFirst(w, RESIDUES);
      PortionGrows(w, 0, 0);
    } else {
      EarlierCount(w, i, RESIDUES);
    }
  }

  function SharesOfFirst(w: seq<real>, k: nat): nat
    requires w != [] && Total(w) != 0.0
  {
    if k == 0 then 0 else SharesOfFirst(w, k - 1) + Share(w, k - 1)
  }

  /** The residues are partitioned: the shares of all candidates add up to a million. */
  lemma SharesPartition(w: seq<real>)
    requires w != [] && Total(w) != 0.0
    ensures SharesOfFirst(w, |w|) == 1_000_000
  {
    Telescope(w, |w|);
    NobodyBeforeFirst(w, RESIDUES);
    Everyone(w, RESIDUES);
  }

  lemma {:induction false} Telescope(w: seq<real>, k: nat)
    requires w != [] && Total(w) != 0.0
    ensures SharesOfFirst(w, k) == EarlierBelow(w, k, RESIDUES) - EarlierBelow(w, 0, RESIDUES)
  {
    if k > 0 {
      Telescope(w, k - 1);
      ShareIsDifference(w, k - 1, RESIDUES);
    }
  }

  lemma {:induction false} Everyone(w: seq<real>, n: nat)
    requires w != [] && Total(w) != 0.0
    ensures EarlierBelow(w, |w|, n) == n
  {
    if n > 0 { Everyone(w, n - 1); }
  }
}

/** Sticky selection by key, hashing included. */
module StickyKeys {
  import opened SipHash
  import opened StickySelection

  /** The choice for a client's key: which candidate the SipHash-2-4 of its bytes falls to. */
  method ChooseFor(key: seq<bv8>, w: seq<real>) returns (choice: nat, ok: bool)
    ensures Total(w) == 0.0 ==> choice == 0 && (ok <==> w != [])
    ensures Total(w) != 0.0 ==> ok && choice == ChoiceFrom(w, SipHash24(KEY0, KEY1, key) as int % 1_000_000, 0)
  {
    hide SipHash24, Total, ChoiceFrom;
    var h := Hash(key);
    choice, ok := StickyChoice(h as int, w);
  }
}
