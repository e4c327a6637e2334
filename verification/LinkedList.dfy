/** The in-place list operations of src/list.c. */
module LinkedList {
  import opened StableSort

  ghost predicate Distinct<T>(s: seq<Node<T>>) {
    forall i, j :: 0 <= i < j < |s| ==> s[i] != s[j]
  }

  ghost predicate Apart<T>(a: seq<Node<T>>, b: seq<Node<T>>) {
    forall x :: x in a ==> x !in b
  }

  /** Each node of `s` points to the one after it; the last may point anywhere. */
  ghost predicate Linked<T>(s: seq<Node<T>>)
    reads s
  {
    forall i :: 0 <= i < |s| - 1 ==> s[i].next == s[i + 1]
  }

  /** Following `next` from `head` visits the nodes of `s` and ends. */
  ghost predicate IsList<T>(head: Node?<T>, s: seq<Node<T>>)
    reads s
  {
    if s == [] then head == null
    else head == s[0] && Linked(s) && s[|s| - 1].next == null
  }

  /** Following `next` from `first` visits the distinct nodes of `s` up to `last`. */
  ghost predicate Segment<T>(first: Node<T>, last: Node<T>, s: seq<Node<T>>)
    reads s
  {
    s != [] && first == s[0] && last == s[|s| - 1] && Linked(s) && Distinct(s)
  }

  /** A part built so far and two lists still to be merged, sharing no node. */
  ghost predicate Merging<T>(first: Node<T>, last: Node<T>, done: seq<Node<T>>,
                             ll: Node?<T>, la: seq<Node<T>>, rl: Node?<T>, lb: seq<Node<T>>)
    reads done, la, lb
  {
    && Segment(first, last, done) && IsList(ll, la) && IsList(rl, lb)
    && Distinct(la) && Distinct(lb) && Apart(done, la) && Apart(done, lb) && Apart(la, lb)
  }

  /** `tmp->next = ll; ll = ll->next; tmp = tmp->next`, for either of the two lists. */
  method TakeNext<T>(first: Node<T>, last: Node<T>, ghost done: seq<Node<T>>,
                     ll: Node<T>, ghost la: seq<Node<T>>, ghost rl: Node?<T>, ghost lb: seq<Node<T>>)
    requires Merging(first, last, done, ll, la, rl, lb)
    modifies last
    ensures la != [] && la[0] == ll
    ensures Merging(first, ll, done + [ll], ll.next, la[1..], rl, lb)
  {
    assert done[|done| - 1] in done && last !in la && last !in lb && la[0] in la;
    last.next := ll;
    assert forall x :: x in la || x in lb ==> x != last && x.next == old(x.next);
    ghost var d := done + [ll];
    assert IsList(rl, lb);
    assert IsList(ll.next, la[1..]);
    forall i | 0 <= i < |d| - 1
      ensures d[i].next == d[i + 1]
    {
      if i < |done| - 1 {
        assert done[i] != last;
      }
    }
  }

  lemma MergingSwap<T>(first: Node<T>, last: Node<T>, done: seq<Node<T>>,
                       ll: Node?<T>, la: seq<Node<T>>, rl: Node?<T>, lb: seq<Node<T>>)
    requires Merging(first, last, done, ll, la, rl, lb)
    ensures Merging(first, last, done, rl, lb, ll, la)
  {
  }

  /** Hanging the rest of a list behind what was built. */
  method Append<T>(first: Node<T>, last: Node<T>, ghost done: seq<Node<T>>, rest: Node?<T>, ghost s: seq<Node<T>>)
    requires Segment(first, last, done) && IsList(rest, s) && Apart(done, s)
    modifies last
    ensures IsList(first, done + s)
  {
    assert done[|done| - 1] in done && last !in s;
    last.next := rest;
    assert forall x :: x in s ==> x != last && x.next == old(x.next);
    ghost var d := done + s;
    forall i | 0 <= i < |d| - 1
      ensures d[i].next == d[i + 1]
    {
      if i < |done| - 1 {
        assert done[i] != last;
      } else if i >= |done| {
        assert d[i] == s[i - |done|] && d[i] in s;
      }
    }
  }

  /** The nodes a merge is about. */
  ghost function Nodes<T>(done: seq<Node<T>>, la: seq<Node<T>>, lb: seq<Node<T>>): set<Node<T>> {
    (set x | x in done) + (set x | x in la) + (set x | x in lb)
  }

  lemma TakeLeft<T>(cmp: (T, T) -> int, done: seq<Node<T>>, la: seq<Node<T>>, lb: seq<Node<T>>)
    requires la != [] && lb != [] && Ge(cmp, la[0], lb[0])
    ensures done + [la[0]] + Merge(cmp, la[1..], lb) == done + Merge(cmp, la, lb)
  {
    assert Merge(cmp, la, lb) == [la[0]] + Merge(cmp, la[1..], lb);
  }

  lemma TakeRight<T>(cmp: (T, T) -> int, done: seq<Node<T>>, la: seq<Node<T>>, lb: seq<Node<T>>)
    requires la != [] && lb != [] && !Ge(cmp, la[0], lb[0])
    ensures done + [lb[0]] + Merge(cmp, la, lb[1..]) == done + Merge(cmp, la, lb)
  {
    assert Merge(cmp, la, lb) == [lb[0]] + Merge(cmp, la, lb[1..]);
  }

  lemma NodesMoved<T>(done: seq<Node<T>>, la: seq<Node<T>>, lb: seq<Node<T>>)
    requires la != []
    ensures Nodes(done + [la[0]], la[1..], lb) == Nodes(done, la, lb)
    ensures Nodes(done + [la[0]], lb, la[1..]) == Nodes(done, lb, la)
  {
    assert la == [la[0]] + la[1..];
  }

  /** One round of the merge loop: the greater head, or the left one of equals, is linked in. */
  method MergeStep<T>(cmp: (T, T) -> int, root: Node<T>, tmp: Node<T>, ghost done: seq<Node<T>>,
                      ll: Node<T>, ghost la: seq<Node<T>>, rl: Node<T>, ghost lb: seq<Node<T>>)
    returns (tmp': Node<T>, ll': Node?<T>, rl': Node?<T>,
             ghost done': seq<Node<T>>, ghost la': seq<Node<T>>, ghost lb': seq<Node<T>>)
    requires Merging(root, tmp, done, ll, la, rl, lb)
    modifies tmp
    ensures Merging(root, tmp', done', ll', la', rl', lb')
    ensures done' + Merge(cmp, la', lb') == done + Merge(cmp, la, lb)
    ensures |la'| + |lb'| < |la| + |lb|
    ensures Nodes(done', la', lb') == Nodes(done, la, lb)
  {
    if cmp(ll.data, rl.data) >= 0 {
      TakeNext(root, tmp, done, ll, la, rl, lb);
      tmp', ll', rl' := ll, ll.next, rl;
      done', la', lb' := done + [ll], la[1..], lb;
      TakeLeft(cmp, done, la, lb);
      NodesMoved(done, la, lb);
    } else {
      MergingSwap(root, tmp, done, ll, la, rl, lb);
      TakeNext(root, tmp, done, rl, lb, ll, la);
      tmp', ll', rl' := rl, ll, rl.next;
      done', la', lb' := done + [rl], la, lb[1..];
      MergingSwap(root, rl, done', rl', lb', ll, la);
      TakeRight(cmp, done, la, lb);
      NodesMoved(done, lb, la);
    }
  }

  lemma MergingStart<T>(ll: Node<T>, la: seq<Node<T>>, rl: Node<T>, lb: seq<Node<T>>)
    requires IsList(ll, la) && IsList(rl, lb) && Distinct(la) && Distinct(lb) && Apart(la, lb)
    ensures Merging(ll, ll, [ll], ll.next, la[1..], rl, lb)
    ensures Nodes([ll], la[1..], lb) == Nodes(la, lb, [])
  {
    assert la == [ll] + la[1..];
  }

  /** The relinking part of `stack_item_sort`. */
  method MergeLists<T>(left: Node<T>, right: Node<T>, cmp: (T, T) -> int,
                       ghost a: seq<Node<T>>, ghost b: seq<Node<T>>)
    returns (root: Node<T>)
    requires a != [] && b != [] && IsList(left, a) && IsList(right, b)
    requires Distinct(a) && Distinct(b) && Apart(a, b)
    modifies Nodes(a, b, [])
    ensures IsList(root, Merge(cmp, a, b))
  {
    var ll: Node?<T> := left;
    var rl: Node?<T> := right;
    ghost var la, lb := a, b;
    if cmp(ll.data, rl.data) >= 0 {
      MergingStart(ll, a, rl, b);
      root := ll;
      ll, la := ll.next, la[1..];
    } else {
      MergingStart(rl, b, ll, a);
      root := rl;
      rl, lb := rl.next, lb[1..];
      MergingSwap(root, root, [root], rl, lb, ll, la);
    }
    var tmp: Node<T> := root;
    ghost var done: seq<Node<T>> := [root];
    while ll != null && rl != null
      invariant Merging(root, tmp, done, ll, la, rl, lb)
      invariant Nodes(done, la, lb) == Nodes(a, b, [])
      invariant done + Merge(cmp, la, lb) == Merge(cmp, a, b)
      decreases |la| + |lb|
    {
      assert tmp in done;
      tmp, ll, rl, done, la, lb := MergeStep(cmp, root, tmp, done, ll, la, rl, lb);
    }
    assert tmp in done;
    if ll != null {
      Append(root, tmp, done, ll, la);
    } else if rl != null {
      Append(root, tmp, done, rl, lb);
    } else {
      Append(root, tmp, done, null, []);
    }
  }
}
