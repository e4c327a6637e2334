/** The sizes of the runs on the sorting stack: distinct powers of two, largest first, which makes
    the stack the binary form of the number of items consumed. */
module BinaryRuns {

  predicate PowerOfTwo(n: nat) {
    n == 1 || (n > 1 && n % 2 == 0 && PowerOfTwo(n / 2))
  }

  function Pow2(k: nat): (p: nat)
    ensures p > 0
  {
    if k == 0 then 1 else 2 * Pow2(k - 1)
  }

  function Sum(s: seq<nat>): nat {
    if s == [] then 0 else Sum(s[..|s| - 1]) + s[|s| - 1]
  }

  ghost predicate StrictPowers(s: seq<nat>) {
    && (forall i :: 0 <= i < |s| ==> PowerOfTwo(s[i]))
    && (forall i, j :: 0 <= i < j < |s| ==> s[i] > s[j])
  }

  /** Right after a push or a merge the last two sizes may be equal. */
  ghost predicate AlmostStrict(s: seq<nat>) {
    && (forall i :: 0 <= i < |s| ==> PowerOfTwo(s[i]))
    && (forall i, j :: 0 <= i < j < |s| ==> s[i] >= s[j])
    && (forall i, j :: 0 <= i < j < |s| - 1 ==> s[i] > s[j])
  }

  /** The number of one bits. */
  function Ones(n: nat): nat {
    if n == 0 then 0 else n % 2 + Ones(n / 2)
  }

  lemma {:induction false} PowersDouble(p: nat, q: nat)
    requires PowerOfTwo(p) && PowerOfTwo(q) && p > q
    ensures p >= 2 * q
  {
    if q > 1 {
      PowersDouble(p / 2, q / 2);
    }
  }

  /** Merging the two equal last runs keeps the shape. */
  lemma MergeKeepsShape(s: seq<nat>)
    requires AlmostStrict(s) && |s| >= 2 && s[|s| - 1] == s[|s| - 2]
    ensures AlmostStrict(s[..|s| - 2] + [2 * s[|s| - 1]])
  {
    var q := s[|s| - 1];
    assert 2 * q / 2 == q && PowerOfTwo(2 * q);
    forall i | 0 <= i < |s| - 2
      ensures s[i] >= 2 * q
    {
      PowersDouble(s[i], q);
    }
  }

  lemma PushKeepsShape(s: seq<nat>)
    requires StrictPowers(s)
    ensures AlmostStrict(s + [1])
  {
  }

  lemma {:induction false} AtLeast(s: seq<nat>, e: nat)
    requires StrictPowers(s)
    requires forall i :: 0 <= i < |s| ==> s[i] >= Pow2(e)
    ensures Sum(s) + Pow2(e) >= Pow2(|s| + e)
    decreases |s|
  {
    if s != [] {
      var init, last := s[..|s| - 1], s[|s| - 1];
      forall i | 0 <= i < |init|
        ensures init[i] >= Pow2(e + 1)
      {
        PowersDouble(init[i], last);
      }
      AtLeast(init, e + 1);
    }
  }

  lemma {:induction false} Pow2Monotone(a: nat, b: nat)
    requires Pow2(a) < Pow2(b)
    ensures a < b
  {
    if a > 0 && b > 0 {
      Pow2Monotone(a - 1, b - 1);
    }
  }

  /** The stack never needs more than lb(n) + 1 slots: with fewer than n items consumed there is room
      for one more run. */
  lemma RoomOnStack(s: seq<nat>, n: nat, lb: nat)
    requires StrictPowers(s) && Sum(s) < n < Pow2(lb + 1)
    ensures |s| < lb + 1
  {
    AtLeast(s, 0);
    Pow2Monotone(|s|, lb + 1);
  }

  function Halves(s: seq<nat>): (r: seq<nat>)
    ensures |r| == |s| && forall i :: 0 <= i < |s| ==> r[i] == s[i] / 2
  {
    seq(|s|, i requires 0 <= i < |s| => s[i] / 2)
  }

  lemma {:induction false} HalvesSum(s: seq<nat>)
    requires forall i :: 0 <= i < |s| ==> s[i] % 2 == 0
    ensures Sum(s) == 2 * Sum(Halves(s))
  {
    if s != [] {
      HalvesSum(s[..|s| - 1]);
      assert Halves(s)[..|s| - 1] == Halves(s[..|s| - 1]);
    }
  }

  lemma OnesTwice(n: nat)
    ensures Ones(2 * n) == Ones(n) && Ones(2 * n + 1) == Ones(n) + 1
  {
    assert 2 * n / 2 == n && (2 * n + 1) / 2 == n;
  }

  lemma HalvesStrict(s: seq<nat>)
    requires StrictPowers(s) && forall i :: 0 <= i < |s| ==> s[i] > 1
    ensures StrictPowers(Halves(s)) && Sum(s) == 2 * Sum(Halves(s))
  {
    HalvesSum(s);
  }

  /** The number of runs is the number of one bits of the number of items consumed. */
  lemma {:induction false} RunsAreOnes(s: seq<nat>)
    requires StrictPowers(s)
    ensures |s| == Ones(Sum(s))
    decreases Sum(s), |s|
  {
    if s != [] {
      var init, last := s[..|s| - 1], s[|s| - 1];
      var h := if last == 1 then Halves(init) else Halves(s);
      if last == 1 {
        HalvesStrict(init);
      } else {
        HalvesStrict(s);
      }
      OnesTwice(Sum(h));
      RunsAreOnes(h);
    }
  }

  function LbOf(a: nat): nat {
    if a <= 1 then 0 else 1 + LbOf(a / 2)
  }

  /** The binary logarithm, rounded down. */
  lemma {:induction false} LbBounds(a: nat)
    requires a >= 1
    ensures Pow2(LbOf(a)) <= a < Pow2(LbOf(a) + 1)
  {
    if a > 1 {
      LbBounds(a / 2);
    }
  }

  /** `lb` of src/list.c: shift until one bit is left. */
  method Lb(a0: nat) returns (i: nat)
    ensures i == LbOf(a0)
    ensures a0 >= 1 ==> Pow2(i) <= a0 < Pow2(i + 1)
  {
    i := 0;
    var a := a0;
    while a > 1
      invariant i + LbOf(a) == LbOf(a0)
    {
      a, i := a / 2, i + 1;
    }
    if a0 >= 1 {
      LbBounds(a0);
    }
  }
}
