/** Table sizes: src/primes.c. */
module Primes {

  const PRIME_NUMBERS: seq<nat> := [
    5, 11, 19, 37, 73, 109, 163, 251, 367, 557, 823, 1237, 1861, 2777, 4177, 6247, 9371, 14057, 21089,
    31627, 47431, 71143, 106721, 160073, 240101, 360163, 540217, 810343, 1215497, 1823231, 2734867,
    4102283, 6153409, 9230113, 13845163]

  ghost predicate Increasing(table: seq<nat>) {
    forall i, j :: 0 <= i < j < |table| ==> table[i] < table[j]
  }

  /** `p` is the smallest entry of the table that is at least `size`, or the last one if none is. */
  ghost predicate IsNearest(table: seq<nat>, size: nat, p: nat) {
    && p in table
    && (forall q :: q in table && size <= q ==> size <= p <= q)
    && (forall q :: q in table && p < size ==> q <= p)
  }

  method Nearest(table: seq<nat>, size: nat) returns (p: nat)
    requires table != [] && Increasing(table)
    ensures IsNearest(table, size, p) && table[0] <= p
  {
    for i := 0 to |table|
      invariant forall k :: 0 <= k < i ==> table[k] < size
    {
      if size <= table[i] {
        return table[i];
      }
    }
    return table[|table| - 1];
  }

  lemma {:induction false} Steps(table: seq<nat>, i: nat, j: nat)
    requires forall k :: 0 <= k < |table| - 1 ==> table[k] < table[k + 1]
    requires i < j < |table|
    ensures table[i] < table[j]
  {
    if i + 1 < j {
      Steps(table, i, j - 1);
    }
  }

  lemma StepsIncrease(table: seq<nat>)
    requires forall k :: 0 <= k < |table| - 1 ==> table[k] < table[k + 1]
    ensures Increasing(table)
  {
    forall i, j | 0 <= i < j < |table|
      ensures table[i] < table[j]
    {
      Steps(table, i, j);
    }
  }

  /** `prime_nearest`. */
  method PrimeNearest(size: nat) returns (p: nat)
    ensures IsNearest(PRIME_NUMBERS, size, p) && p > 0
  {
    StepsIncrease(PRIME_NUMBERS);
    p := Nearest(PRIME_NUMBERS, size);
  }
}
