/** What sorting a linked list means: the nodes in descending order of their data, nodes that
    compare equal staying in their original order.  Comparison functions are C callbacks of which
    only the sign of the result is used. */
module StableSort {

  class Node<T> {
    var next: Node?<T>
    const data: T

    /** `list_item_new`. */
    constructor (data: T)
      ensures next == null && this.data == data
    {
      this.next := null;
      this.data := data;
    }
  }

  /** `a` may stand before `b`: the test `res >= 0` of the source. */
  predicate Ge<T>(cmp: (T, T) -> int, a: Node<T>, b: Node<T>) {
    cmp(a.data, b.data) >= 0
  }

  ghost predicate TotalPreorder<T(!new)>(cmp: (T, T) -> int) {
    && (forall a, b :: cmp(a, b) >= 0 || cmp(b, a) >= 0)
    && (forall a, b, c :: cmp(a, b) >= 0 && cmp(b, c) >= 0 ==> cmp(a, c) >= 0)
  }

  ghost predicate Descending<T>(cmp: (T, T) -> int, s: seq<Node<T>>) {
    forall i, j :: 0 <= i < j < |s| ==> Ge(cmp, s[i], s[j])
  }

  /** `x` put in front of the first node of `s` it may stand before. */
  function Place<T>(cmp: (T, T) -> int, x: Node<T>, s: seq<Node<T>>): (r: seq<Node<T>>)
    ensures |r| == |s| + 1
  {
    if s == [] || Ge(cmp, x, s[0]) then [x] + s else [s[0]] + Place(cmp, x, s[1..])
  }

  /** The reference: insertion sort, last node first. */
  function Sorted<T>(cmp: (T, T) -> int, s: seq<Node<T>>): (r: seq<Node<T>>)
    ensures |r| == |s|
  {
    if s == [] then [] else Place(cmp, s[0], Sorted(cmp, s[1..]))
  }

  /** Two descending runs merged, the left one first among equals. */
  function Merge<T>(cmp: (T, T) -> int, a: seq<Node<T>>, b: seq<Node<T>>): (r: seq<Node<T>>)
    ensures |r| == |a| + |b|
  {
    if a == [] then b
    else if b == [] then a
    else if Ge(cmp, a[0], b[0]) then [a[0]] + Merge(cmp, a[1..], b)
    else [b[0]] + Merge(cmp, a, b[1..])
  }

  // ----- the reference is a descending stable permutation, and the only one -----

  lemma {:induction false} PlaceKeeps<T>(cmp: (T, T) -> int, x: Node<T>, s: seq<Node<T>>)
    ensures multiset(Place(cmp, x, s)) == multiset([x] + s)
  {
    if s != [] && !Ge(cmp, x, s[0]) {
      PlaceKeeps(cmp, x, s[1..]);
      assert s == [s[0]] + s[1..];
    }
  }

  lemma {:induction false} PlaceElements<T>(cmp: (T, T) -> int, x: Node<T>, s: seq<Node<T>>, j: nat)
    requires j <= |s|
    ensures Place(cmp, x, s)[j] == x || exists i :: 0 <= i < |s| && Place(cmp, x, s)[j] == s[i]
  {
    if s != [] && !Ge(cmp, x, s[0]) && j > 0 {
      PlaceElements(cmp, x, s[1..], j - 1);
    }
  }

  lemma {:induction false} PlaceDescending<T(!new)>(cmp: (T, T) -> int, x: Node<T>, s: seq<Node<T>>)
    requires TotalPreorder(cmp) && Descending(cmp, s)
    ensures Descending(cmp, Place(cmp, x, s))
  {
    if s != [] && !Ge(cmp, x, s[0]) {
      PlaceDescending(cmp, x, s[1..]);
      forall j | 0 <= j < |s|
        ensures Ge(cmp, s[0], Place(cmp, x, s[1..])[j])
      {
        PlaceElements(cmp, x, s[1..], j);
      }
    }
  }

  /** Sorting permutes and orders. */
  lemma {:induction false} SortedIsOrderedPermutation<T(!new)>(cmp: (T, T) -> int, s: seq<Node<T>>)
    requires TotalPreorder(cmp)
    ensures Descending(cmp, Sorted(cmp, s))
    ensures multiset(Sorted(cmp, s)) == multiset(s)
  {
    if s != [] {
      SortedIsOrderedPermutation(cmp, s[1..]);
      PlaceDescending(cmp, s[0], Sorted(cmp, s[1..]));
      PlaceKeeps(cmp, s[0], Sorted(cmp, s[1..]));
      assert s == [s[0]] + s[1..];
    }
  }

  /** The nodes of `s` that compare equal to `d`, in order. */
  function Equals<T>(cmp: (T, T) -> int, d: T, s: seq<Node<T>>): (r: seq<Node<T>>)
  {
    if s == [] then []
    else if cmp(d, s[0].data) >= 0 && cmp(s[0].data, d) >= 0 then [s[0]] + Equals(cmp, d, s[1..])
    else Equals(cmp, d, s[1..])
  }

  lemma {:induction false} PlaceStable<T(!new)>(cmp: (T, T) -> int, d: T, x: Node<T>, s: seq<Node<T>>)
    requires TotalPreorder(cmp)
    ensures Equals(cmp, d, Place(cmp, x, s)) == Equals(cmp, d, [x] + s)
  {
    assert ([x] + s)[1..] == s;
    if s != [] && !Ge(cmp, x, s[0]) {
      PlaceStable(cmp, d, x, s[1..]);
      assert ([x] + s[1..])[1..] == s[1..];
    }
  }

  /** Sorting is stable. */
  lemma {:induction false} SortedIsStable<T(!new)>(cmp: (T, T) -> int, d: T, s: seq<Node<T>>)
    requires TotalPreorder(cmp)
    ensures Equals(cmp, d, Sorted(cmp, s)) == Equals(cmp, d, s)
  {
    if s != [] {
      SortedIsStable(cmp, d, s[1..]);
      PlaceStable(cmp, d, s[0], Sorted(cmp, s[1..]));
      assert ([s[0]] + Sorted(cmp, s[1..]))[1..] == Sorted(cmp, s[1..]);
    }
  }

  lemma Occurs<T>(x: Node<T>, s: seq<Node<T>>, t: seq<Node<T>>) returns (i: nat)
    requires multiset(s) == multiset(t) && x in s
    ensures i < |t| && t[i] == x
  {
    assert x in multiset(t);
    i :| 0 <= i < |t| && t[i] == x;
  }

  lemma SameFirst<T(!new)>(cmp: (T, T) -> int, s: seq<Node<T>>, t: seq<Node<T>>, j: nat, k: nat)
    requires j < |t| && k < |s| && t[j] == s[0] && s[k] == t[0]
    requires TotalPreorder(cmp) && Descending(cmp, s) && Descending(cmp, t)
    requires Equals(cmp, s[0].data, s) == Equals(cmp, s[0].data, t)
    ensures s[0] == t[0]
  {
    if j != 0 && k != 0 {
      assert Ge(cmp, t[0], t[j]) && Ge(cmp, s[0], s[k]);
    }
    assert Equals(cmp, s[0].data, s)[0] == s[0];
  }

  lemma EqualsRest<T>(cmp: (T, T) -> int, d: T, s: seq<Node<T>>, t: seq<Node<T>>)
    requires s != [] && t != [] && s[0] == t[0]
    requires Equals(cmp, d, s) == Equals(cmp, d, t)
    ensures Equals(cmp, d, s[1..]) == Equals(cmp, d, t[1..])
  {
    var here := if cmp(d, s[0].data) >= 0 && cmp(s[0].data, d) >= 0 then [s[0]] else [];
    EqualsFirst(cmp, d, s, here);
    EqualsFirst(cmp, d, t, here);
    var a, b := Equals(cmp, d, s[1..]), Equals(cmp, d, t[1..]);
    assert (here + a)[|here|..] == a && (here + b)[|here|..] == b;
  }

  lemma EqualsFirst<T>(cmp: (T, T) -> int, d: T, s: seq<Node<T>>, here: seq<Node<T>>)
    requires s != [] && here == if cmp(d, s[0].data) >= 0 && cmp(s[0].data, d) >= 0 then [s[0]] else []
    ensures Equals(cmp, d, s) == here + Equals(cmp, d, s[1..])
  {
  }

  lemma RestMultiset<T>(s: seq<Node<T>>)
    requires s != []
    ensures multiset(s[1..]) == multiset(s) - multiset{s[0]}
  {
    assert s == [s[0]] + s[1..];
  }

  /** There is only one descending stable permutation of a list. */
  lemma {:induction false} StablePermutationUnique<T(!new)>(cmp: (T, T) -> int, s: seq<Node<T>>, t: seq<Node<T>>)
    requires TotalPreorder(cmp)
    requires Descending(cmp, s) && Descending(cmp, t) && multiset(s) == multiset(t)
    requires forall d :: Equals(cmp, d, s) == Equals(cmp, d, t)
    ensures s == t
  {
    if s == [] {
      assert |multiset(t)| == 0;
    } else {
      assert |multiset(s)| == |multiset(t)|;
      var j := Occurs(s[0], s, t);
      var k := Occurs(t[0], t, s);
      SameFirst(cmp, s, t, j, k);
      RestMultiset(s);
      RestMultiset(t);
      forall d
        ensures Equals(cmp, d, s[1..]) == Equals(cmp, d, t[1..])
      {
        EqualsRest(cmp, d, s, t);
      }
      StablePermutationUnique(cmp, s[1..], t[1..]);
    }
  }

  // ----- what the two sorting algorithms rely on -----

  /** Placing commutes with merging as long as it happens on the left. */
  lemma {:induction false} PlaceMerge<T(!new)>(cmp: (T, T) -> int, x: Node<T>, a: seq<Node<T>>, b: seq<Node<T>>)
    requires TotalPreorder(cmp) && Descending(cmp, a) && Descending(cmp, b)
    ensures Merge(cmp, Place(cmp, x, a), b) == Place(cmp, x, Merge(cmp, a, b))
    decreases |a| + |b|
  {
    var xa, m := Place(cmp, x, a), Merge(cmp, a, b);
    if b == [] {
    } else if a == [] {
      if !Ge(cmp, x, b[0]) {
        assert xa == [x];
        PlaceMerge(cmp, x, a, b[1..]);
      } else {
        assert xa[1..] == [];
      }
    } else if Ge(cmp, x, a[0]) {
      assert xa == [x] + a && xa[1..] == a;
      if !Ge(cmp, x, b[0]) {
        PlaceMerge(cmp, x, a, b[1..]);
      }
    } else {
      assert xa[0] == a[0] && xa[1..] == Place(cmp, x, a[1..]);
      if Ge(cmp, a[0], b[0]) {
        PlaceMerge(cmp, x, a[1..], b);
      } else {
        PlaceMerge(cmp, x, a, b[1..]);
      }
    }
  }

  lemma SortedFirst<T>(cmp: (T, T) -> int, s: seq<Node<T>>)
    requires s != []
    ensures Sorted(cmp, s) == Place(cmp, s[0], Sorted(cmp, s[1..]))
  {
  }

  lemma PlaceMergeSorted<T(!new)>(cmp: (T, T) -> int, x: Node<T>, a: seq<Node<T>>, b: seq<Node<T>>)
    requires TotalPreorder(cmp)
    ensures Merge(cmp, Place(cmp, x, Sorted(cmp, a)), Sorted(cmp, b))
         == Place(cmp, x, Merge(cmp, Sorted(cmp, a), Sorted(cmp, b)))
  {
    SortedIsOrderedPermutation(cmp, a);
    SortedIsOrderedPermutation(cmp, b);
    PlaceMerge(cmp, x, Sorted(cmp, a), Sorted(cmp, b));
  }

  /** Merging the sorted halves of a list sorts the list. */
  lemma {:induction false} MergeSorted<T(!new)>(cmp: (T, T) -> int, a: seq<Node<T>>, b: seq<Node<T>>)
    requires TotalPreorder(cmp)
    ensures Merge(cmp, Sorted(cmp, a), Sorted(cmp, b)) == Sorted(cmp, a + b)
  {
    if a == [] {
      assert a + b == b;
    } else {
      MergeSorted(cmp, a[1..], b);
      assert (a + b)[0] == a[0] && (a + b)[1..] == a[1..] + b;
      SortedFirst(cmp, a);
      SortedFirst(cmp, a + b);
      PlaceMergeSorted(cmp, a[0], a[1..], b);
    }
  }

  /** Placing two nodes of which the first sorts strictly below the second, in either order. */
  lemma {:induction false} PlaceSwaps<T(!new)>(cmp: (T, T) -> int, x: Node<T>, y: Node<T>, s: seq<Node<T>>)
    requires TotalPreorder(cmp) && !Ge(cmp, x, y)
    ensures Place(cmp, x, Place(cmp, y, s)) == Place(cmp, y, Place(cmp, x, s))
  {
    if s == [] {
      assert [y][1..] == [];
    } else if Ge(cmp, y, s[0]) {
      assert ([y] + s)[1..] == s;
      if Ge(cmp, x, s[0]) {
        assert ([x] + s)[0] == x;
      }
    } else {
      PlaceSwaps(cmp, x, y, s[1..]);
      assert ([s[0]] + Place(cmp, y, s[1..]))[1..] == Place(cmp, y, s[1..]);
      assert ([s[0]] + Place(cmp, x, s[1..]))[1..] == Place(cmp, x, s[1..]);
    }
  }

  /** Exchanging two neighbours that are strictly out of order. */
  function Swapped<T>(s: seq<Node<T>>, i: nat): (r: seq<Node<T>>)
    requires i + 1 < |s|
    ensures |r| == |s|
  {
    s[i := s[i + 1]][i + 1 := s[i]]
  }

  lemma {:induction false} SwapKeepsSorted<T(!new)>(cmp: (T, T) -> int, s: seq<Node<T>>, i: nat)
    requires TotalPreorder(cmp) && i + 1 < |s| && !Ge(cmp, s[i], s[i + 1])
    ensures Sorted(cmp, Swapped(s, i)) == Sorted(cmp, s)
  {
    var r := Swapped(s, i);
    if i == 0 {
      assert r[1..] == [s[0]] + s[2..] && r[1..][1..] == s[2..] && s[1..][1..] == s[2..];
      PlaceSwaps(cmp, s[0], s[1], Sorted(cmp, s[2..]));
    } else {
      SwapKeepsSorted(cmp, s[1..], i - 1);
      assert r[1..] == Swapped(s[1..], i - 1);
    }
  }

  /** Neighbours in order all along means sorted already. */
  lemma {:induction false} OrderedIsSorted<T>(cmp: (T, T) -> int, s: seq<Node<T>>)
    requires forall i :: 0 <= i < |s| - 1 ==> Ge(cmp, s[i], s[i + 1])
    ensures Sorted(cmp, s) == s
  {
    if |s| > 1 {
      OrderedIsSorted(cmp, s[1..]);
      assert Sorted(cmp, s[1..])[0] == s[1];
    } else if |s| == 1 {
      assert s[1..] == [];
    }
  }

  /** How many nodes of `s` sort strictly above `x`. */
  function Above<T>(cmp: (T, T) -> int, x: Node<T>, s: seq<Node<T>>): nat {
    if s == [] then 0 else (if Ge(cmp, x, s[0]) then 0 else 1) + Above(cmp, x, s[1..])
  }

  /** Pairs strictly out of order. */
  function Inversions<T>(cmp: (T, T) -> int, s: seq<Node<T>>): nat {
    if s == [] then 0 else Above(cmp, s[0], s[1..]) + Inversions(cmp, s[1..])
  }

  lemma {:induction false} AboveSwapped<T>(cmp: (T, T) -> int, x: Node<T>, s: seq<Node<T>>, i: nat)
    requires i + 1 < |s|
    ensures Above(cmp, x, Swapped(s, i)) == Above(cmp, x, s)
  {
    var r := Swapped(s, i);
    if i == 0 {
      assert r[1..] == [s[0]] + s[2..] && r[1..][1..] == s[2..] && s[1..][1..] == s[2..];
    } else {
      AboveSwapped(cmp, x, s[1..], i - 1);
      assert r[1..] == Swapped(s[1..], i - 1);
    }
  }

  /** Each exchange removes exactly one strict inversion. */
  lemma {:induction false} SwapRemovesInversion<T(!new)>(cmp: (T, T) -> int, s: seq<Node<T>>, i: nat)
    requires TotalPreorder(cmp) && i + 1 < |s| && !Ge(cmp, s[i], s[i + 1])
    ensures Inversions(cmp, Swapped(s, i)) == Inversions(cmp, s) - 1
  {
    var r := Swapped(s, i);
    if i == 0 {
      assert r[1..] == [s[0]] + s[2..] && r[1..][1..] == s[2..] && s[1..][1..] == s[2..];
    } else {
      SwapRemovesInversion(cmp, s[1..], i - 1);
      assert r[1..] == Swapped(s[1..], i - 1);
      AboveSwapped(cmp, s[0], s[1..], i - 1);
    }
  }
}
