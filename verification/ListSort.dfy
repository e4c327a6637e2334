/** Sorting, reversing and counting singly linked lists in place: src/list.c. */
module ListSort {
  import opened Basics
  import opened StableSort
  import opened LinkedList
  import opened BinaryRuns

  /** `struct stack_item`: a run and its length. */
  datatype StackItem<T> = StackItem(n: int, root: Node?<T>)

  ghost function Elements<T>(s: seq<Node<T>>): set<Node<T>> {
    set x | x in s
  }

  function Flat<T>(chunks: seq<seq<Node<T>>>): seq<Node<T>> {
    if chunks == [] then [] else Flat(chunks[..|chunks| - 1]) + chunks[|chunks| - 1]
  }

  function Sizes<T>(runs: seq<seq<Node<T>>>): (r: seq<nat>)
    ensures |r| == |runs|
    ensures forall k :: 0 <= k < |runs| ==> r[k] == |runs[k]|
  {
    if runs == [] then [] else Sizes(runs[..|runs| - 1]) + [|runs[|runs| - 1]|]
  }

  /** The used slots of the stack hold the given runs, all from among `all`, as lists. */
  ghost predicate OnStack<T>(stack: array<StackItem<T>>, runs: seq<seq<Node<T>>>, all: set<Node<T>>)
    reads stack, all
  {
    && |runs| <= stack.Length
    && (forall k, x :: 0 <= k < |runs| && x in runs[k] ==> x in all)
    && (forall k :: 0 <= k < |runs| ==> stack[k].n == |runs[k]| > 0 && IsList(stack[k].root, runs[k]))
  }

  /** No node is in two runs, or twice in one. */
  ghost predicate Separate<T>(runs: seq<seq<Node<T>>>) {
    && (forall k :: 0 <= k < |runs| ==> Distinct(runs[k]))
    && (forall k, l :: 0 <= k < l < |runs| ==> Apart(runs[k], runs[l]))
  }

  /** Each run is the sorted form of a chunk of the input. */
  ghost predicate SortedRuns<T>(cmp: (T, T) -> int, runs: seq<seq<Node<T>>>, chunks: seq<seq<Node<T>>>) {
    |runs| == |chunks| && forall k :: 0 <= k < |runs| ==> runs[k] == Sorted(cmp, chunks[k])
  }

  /** The runs after merging the last two. */
  ghost function MergedTop<T>(cmp: (T, T) -> int, runs: seq<seq<Node<T>>>): (r: seq<seq<Node<T>>>)
    requires |runs| >= 2
    ensures |r| == |runs| - 1
  {
    runs[..|runs| - 2] + [Merge(cmp, runs[|runs| - 2], runs[|runs| - 1])]
  }

  ghost function JoinedTop<T>(chunks: seq<seq<Node<T>>>): (r: seq<seq<Node<T>>>)
    requires |chunks| >= 2
    ensures |r| == |chunks| - 1
  {
    chunks[..|chunks| - 2] + [chunks[|chunks| - 2] + chunks[|chunks| - 1]]
  }

  // ----- no node is shared -----

  lemma {:induction false} DistinctIsMultiplicity<T>(s: seq<Node<T>>)
    ensures Distinct(s) <==> forall x :: multiset(s)[x] <= 1
  {
    if s != [] {
      var x, t := s[0], s[1..];
      assert s == [x] + t;
      DistinctIsMultiplicity(t);
      if Distinct(s) {
        assert x !in t;
      } else if Distinct(t) {
        assert forall k :: 1 <= k < |s| ==> s[k] == t[k - 1];
        var i, j :| 0 <= i < j < |s| && s[i] == s[j];
        assert t[j - 1] == x && x in multiset(t);
        assert multiset(s)[x] > 1;
      } else {
        var y :| multiset(t)[y] > 1;
        assert multiset(s)[y] > 1;
      }
    }
  }

  lemma SortedSameNodes<T(!new)>(cmp: (T, T) -> int, s: seq<Node<T>>)
    requires TotalPreorder(cmp)
    ensures Elements(Sorted(cmp, s)) == Elements(s)
    ensures Distinct(s) ==> Distinct(Sorted(cmp, s))
  {
    SortedIsOrderedPermutation(cmp, s);
    DistinctIsMultiplicity(s);
    DistinctIsMultiplicity(Sorted(cmp, s));
    var r := Sorted(cmp, s);
    assert forall x :: x in r ==> x in multiset(r) && x in multiset(s) && x in s;
    assert forall x :: x in s ==> x in multiset(s) && x in multiset(r) && x in r;
  }

  lemma DistinctParts<T>(a: seq<Node<T>>, b: seq<Node<T>>)
    requires Distinct(a + b)
    ensures Distinct(a) && Distinct(b) && Apart(a, b)
  {
    var s := a + b;
    assert forall i :: 0 <= i < |a| ==> a[i] == s[i];
    assert forall j :: 0 <= j < |b| ==> b[j] == s[|a| + j];
  }

  lemma {:induction false} ChunksSeparate<T>(chunks: seq<seq<Node<T>>>, rest: seq<Node<T>>)
    requires Distinct(Flat(chunks) + rest)
    ensures Separate(chunks) && (forall k :: 0 <= k < |chunks| ==> Apart(chunks[k], rest))
    decreases |chunks|
  {
    if chunks != [] {
      var init, last := chunks[..|chunks| - 1], chunks[|chunks| - 1];
      assert Flat(chunks) + rest == Flat(init) + (last + rest);
      ChunksSeparate(init, last + rest);
      DistinctParts(Flat(init), last + rest);
      DistinctParts(last, rest);
      forall k | 0 <= k < |init|
        ensures Apart(chunks[k], last) && Apart(chunks[k], rest)
      {
        assert Apart(init[k], last + rest);
        assert forall x :: x in last ==> x in last + rest;
        assert forall x :: x in rest ==> x in last + rest;
      }
    }
  }

  /** Sorting the chunks of a list without repeated nodes makes runs that share no node. */
  lemma RunsSeparate<T(!new)>(cmp: (T, T) -> int, runs: seq<seq<Node<T>>>, chunks: seq<seq<Node<T>>>,
      rest: seq<Node<T>>)
    requires TotalPreorder(cmp) && SortedRuns(cmp, runs, chunks) && Distinct(Flat(chunks) + rest)
    ensures Separate(runs) && (forall k :: 0 <= k < |runs| ==> Apart(runs[k], rest))
  {
    ChunksSeparate(chunks, rest);
    forall k | 0 <= k < |runs|
      ensures Distinct(runs[k]) && Elements(runs[k]) == Elements(chunks[k])
    {
      SortedSameNodes(cmp, chunks[k]);
    }
    forall k, l | 0 <= k < l < |runs|
      ensures Apart(runs[k], runs[l])
    {
      ApartByElements(chunks[k], chunks[l], runs[k], runs[l]);
    }
    forall k | 0 <= k < |runs|
      ensures Apart(runs[k], rest)
    {
      ApartByElements(chunks[k], rest, runs[k], rest);
    }
  }

  lemma ApartByElements<T>(a: seq<Node<T>>, b: seq<Node<T>>, c: seq<Node<T>>, d: seq<Node<T>>)
    requires Apart(a, b) && Elements(a) == Elements(c) && Elements(b) == Elements(d)
    ensures Apart(c, d)
  {
    forall x | x in c
      ensures x !in d
    {
      assert x in Elements(a) && x in a && x !in Elements(b);
    }
  }

  // ----- merging on the stack -----

  lemma {:induction false} MergeElements<T>(cmp: (T, T) -> int, a: seq<Node<T>>, b: seq<Node<T>>)
    ensures forall x :: x in Merge(cmp, a, b) ==> x in a || x in b
    decreases |a| + |b|
  {
    if a != [] && b != [] {
      if Ge(cmp, a[0], b[0]) {
        MergeElements(cmp, a[1..], b);
      } else {
        MergeElements(cmp, a, b[1..]);
      }
    }
  }

  lemma TopMerged<T(!new)>(cmp: (T, T) -> int, runs: seq<seq<Node<T>>>, chunks: seq<seq<Node<T>>>)
    requires TotalPreorder(cmp) && SortedRuns(cmp, runs, chunks) && |runs| >= 2
    ensures SortedRuns(cmp, MergedTop(cmp, runs), JoinedTop(chunks))
    ensures Flat(JoinedTop(chunks)) == Flat(chunks)
  {
    var n := |chunks|;
    MergeSorted(cmp, chunks[n - 2], chunks[n - 1]);
    var init, joined := chunks[..n - 1], JoinedTop(chunks);
    assert init[..|init| - 1] == chunks[..n - 2] && joined[..|joined| - 1] == chunks[..n - 2];
    var a, b, c := Flat(chunks[..n - 2]), chunks[n - 2], chunks[n - 1];
    assert a + b + c == a + (b + c);
  }

  /** `stack_item_sort(&stack[spos - 2], &stack[spos - 1], func)`. */
  method StackItemSort<T(!new)>(stack: array<StackItem<T>>, spos: nat, cmp: (T, T) -> int,
                                ghost runs: seq<seq<Node<T>>>, ghost all: set<Node<T>>)
    requires spos == |runs| >= 2 && OnStack(stack, runs, all) && Separate(runs)
    modifies stack, Nodes(runs[spos - 2], runs[spos - 1], [])
    ensures OnStack(stack, MergedTop(cmp, runs), all)
  {
    var left, right := stack[spos - 2], stack[spos - 1];
    ghost var a, b := runs[spos - 2], runs[spos - 1];
    var root := MergeLists(left.root, right.root, cmp, a, b);
    stack[spos - 2] := StackItem(left.n + right.n, root);
    stack[spos - 1] := StackItem(0, null);
    MergeElements(cmp, a, b);
    ghost var merged := MergedTop(cmp, runs);
    forall k | 0 <= k < |merged|
      ensures stack[k].n == |merged[k]| > 0 && IsList(stack[k].root, merged[k])
    {
      if k < spos - 2 {
        assert Apart(runs[k], a) && Apart(runs[k], b);
        assert old(IsList(stack[k].root, runs[k]));
      }
    }
  }

  // ----- the sorting stack and the rest of the list -----

  /** Halfway through sorting `s`: the runs on the stack are sorted forms of chunks which, with the
      rest of the list, make up `s`. */
  ghost predicate Halfway<T>(cmp: (T, T) -> int, stack: array<StackItem<T>>, runs: seq<seq<Node<T>>>,
                             chunks: seq<seq<Node<T>>>, tmp: Node?<T>, rest: seq<Node<T>>,
                             s: seq<Node<T>>, all: set<Node<T>>)
    reads stack, all
  {
    && Distinct(s) && Flat(chunks) + rest == s && all == Elements(s)
    && SortedRuns(cmp, runs, chunks) && OnStack(stack, runs, all)
    && (forall x :: x in rest ==> x in all) && IsList(tmp, rest)
  }

  lemma FlatPush<T>(chunks: seq<seq<Node<T>>>, rest: seq<Node<T>>)
    requires rest != []
    ensures Flat(chunks + [[rest[0]]]) + rest[1..] == Flat(chunks) + rest
  {
    var chunks' := chunks + [[rest[0]]];
    assert chunks'[..|chunks|] == chunks;
    assert rest == [rest[0]] + rest[1..];
    assert Flat(chunks) + [rest[0]] + rest[1..] == Flat(chunks) + rest;
  }

  lemma PushKeepsRuns<T>(cmp: (T, T) -> int, runs: seq<seq<Node<T>>>, chunks: seq<seq<Node<T>>>, x: Node<T>)
    requires SortedRuns(cmp, runs, chunks)
    ensures SortedRuns(cmp, runs + [[x]], chunks + [[x]])
  {
    SortedOne(cmp, x);
  }

  lemma FirstApart<T(!new)>(cmp: (T, T) -> int, runs: seq<seq<Node<T>>>, chunks: seq<seq<Node<T>>>, rest: seq<Node<T>>)
    requires TotalPreorder(cmp) && SortedRuns(cmp, runs, chunks) && Distinct(Flat(chunks) + rest) && rest != []
    ensures rest[0] !in rest[1..] && forall k :: 0 <= k < |runs| ==> rest[0] !in runs[k]
    ensures rest[0] in rest
  {
    RunsSeparate(cmp, runs, chunks, rest);
    DistinctParts(Flat(chunks), rest);
    forall k | 0 <= k < |runs|
      ensures rest[0] !in runs[k]
    {
      assert Apart(runs[k], rest) && rest[0] in rest;
    }
  }

  lemma HalfwayStart<T>(cmp: (T, T) -> int, stack: array<StackItem<T>>, root: Node?<T>, s: seq<Node<T>>,
      all: set<Node<T>>)
    requires IsList(root, s) && Distinct(s) && all == Elements(s)
    ensures Halfway(cmp, stack, [], [], root, s, s, all)
  {
    assert Flat<T>([]) + s == s;
  }

  /** Cutting the first item off the rest of the list and putting it on the stack. */
  method Detach<T>(stack: array<StackItem<T>>, spos: nat, ghost runs: seq<seq<Node<T>>>, tmp: Node<T>,
                   ghost rest: seq<Node<T>>, ghost all: set<Node<T>>)
    returns (next: Node?<T>)
    requires OnStack(stack, runs, all) && spos == |runs| < stack.Length
    requires rest != [] && IsList(tmp, rest) && tmp !in rest[1..] && tmp in all
    requires forall k :: 0 <= k < |runs| ==> tmp !in runs[k]
    modifies stack, tmp
    ensures OnStack(stack, runs + [[tmp]], all) && IsList(next, rest[1..])
  {
    ghost var rest', runs' := rest[1..], runs + [[tmp]];
    stack[spos] := StackItem(1, tmp);
    next := tmp.next;
    assert IsList(next, rest');
    tmp.next := null;
    assert IsList(next, rest');
    forall k | 0 <= k < |runs'|
      ensures stack[k].n == |runs'[k]| > 0 && IsList(stack[k].root, runs'[k])
    {
      if k < spos {
        assert old(IsList(stack[k].root, runs[k]));
      }
    }
  }

  /** Moving the next item of the list onto the stack as a run of its own. */
  method PushItem<T(!new)>(cmp: (T, T) -> int, stack: array<StackItem<T>>, spos: nat,
                           ghost runs: seq<seq<Node<T>>>, ghost chunks: seq<seq<Node<T>>>, tmp: Node<T>,
                           ghost rest: seq<Node<T>>, ghost s: seq<Node<T>>, ghost all: set<Node<T>>)
    returns (next: Node?<T>)
    requires TotalPreorder(cmp) && Halfway(cmp, stack, runs, chunks, tmp, rest, s, all)
    requires spos == |runs| < stack.Length
    modifies stack, tmp
    ensures rest != [] && Halfway(cmp, stack, runs + [[tmp]], chunks + [[tmp]], next, rest[1..], s, all)
  {
    FirstApart(cmp, runs, chunks, rest);
    next := Detach(stack, spos, runs, tmp, rest, all);
    FlatPush(chunks, rest);
    PushKeepsRuns(cmp, runs, chunks, tmp);
  }

  lemma SortedOne<T>(cmp: (T, T) -> int, x: Node<T>)
    ensures Sorted(cmp, [x]) == [x]
  {
    assert [x][1..] == [];
  }

  /** Merging the last two runs of a stack that is halfway through. */
  method MergeTop<T(!new)>(cmp: (T, T) -> int, stack: array<StackItem<T>>, spos: nat,
                           ghost runs: seq<seq<Node<T>>>, ghost chunks: seq<seq<Node<T>>>, ghost tmp: Node?<T>,
                           ghost rest: seq<Node<T>>, ghost s: seq<Node<T>>, ghost all: set<Node<T>>)
    requires TotalPreorder(cmp) && Halfway(cmp, stack, runs, chunks, tmp, rest, s, all)
    requires spos == |runs| >= 2
    modifies stack, all
    ensures Halfway(cmp, stack, MergedTop(cmp, runs), JoinedTop(chunks), tmp, rest, s, all)
  {
    RunsSeparate(cmp, runs, chunks, rest);
    ghost var a, b := runs[spos - 2], runs[spos - 1];
    assert Apart(a, rest) && Apart(b, rest);
    StackItemSort(stack, spos, cmp, runs, all);
    assert forall x :: x in rest ==> x !in a && x !in b && x.next == old(x.next);
    assert IsList(tmp, rest);
    TopMerged(cmp, runs, chunks);
  }

  lemma {:induction false} SizesSum<T>(chunks: seq<seq<Node<T>>>)
    ensures Sum(Sizes(chunks)) == |Flat(chunks)|
    decreases |chunks|
  {
    if chunks != [] {
      SizesSum(chunks[..|chunks| - 1]);
      assert Sizes(chunks)[..|chunks| - 1] == Sizes(chunks[..|chunks| - 1]);
    }
  }

  lemma SizesPush<T>(chunks: seq<seq<Node<T>>>, x: Node<T>)
    requires StrictPowers(Sizes(chunks))
    ensures AlmostStrict(Sizes(chunks + [[x]]))
  {
    PushKeepsShape(Sizes(chunks));
    assert Sizes(chunks + [[x]]) == Sizes(chunks) + [1];
  }

  lemma SizesMerge<T>(chunks: seq<seq<Node<T>>>)
    requires |chunks| >= 2 && AlmostStrict(Sizes(chunks)) && |chunks[|chunks| - 1]| == |chunks[|chunks| - 2]|
    ensures AlmostStrict(Sizes(JoinedTop(chunks)))
  {
    var z := Sizes(chunks);
    MergeKeepsShape(z);
    assert Sizes(JoinedTop(chunks)) == z[..|z| - 2] + [2 * z[|z| - 1]];
  }

  lemma ItemsConsumed<T>(chunks: seq<seq<Node<T>>>, rest: seq<Node<T>>, s: seq<Node<T>>)
    requires Flat(chunks) + rest == s
    ensures Sum(Sizes(chunks)) == |s| - |rest|
  {
    SizesSum(chunks);
    assert |Flat(chunks) + rest| == |s|;
  }

  /** While items are left, the stack is not full: it holds a run for each one bit of the number of
      items consumed, fewer than lb(n) + 1. */
  lemma RoomForItem<T>(chunks: seq<seq<Node<T>>>, n: nat, left: nat)
    requires StrictPowers(Sizes(chunks)) && Sum(Sizes(chunks)) == n - left && 0 < left <= n
    ensures |chunks| < LbOf(n) + 1
    ensures |chunks| == Ones(n - left)
  {
    LbBounds(n);
    RoomOnStack(Sizes(chunks), n, LbOf(n));
    RunsAreOnes(Sizes(chunks));
  }

  lemma StrictWhenDifferent(z: seq<nat>)
    requires AlmostStrict(z) && (|z| >= 2 ==> z[|z| - 1] != z[|z| - 2])
    ensures StrictPowers(z)
  {
    forall i, j | 0 <= i < j < |z|
      ensures z[i] > z[j]
    {
      if j == |z| - 1 && i < |z| - 2 {
        assert z[i] > z[|z| - 2] >= z[j];
      }
    }
  }

  lemma RecordedSizes<T>(cmp: (T, T) -> int, stack: array<StackItem<T>>, runs: seq<seq<Node<T>>>,
                         chunks: seq<seq<Node<T>>>, all: set<Node<T>>, k: nat)
    requires OnStack(stack, runs, all) && SortedRuns(cmp, runs, chunks) && k < |runs|
    ensures stack[k].n == Sizes(chunks)[k] == |chunks[k]|
  {
    assert runs[k] == Sorted(cmp, chunks[k]);
  }

  /** The inner loop: runs of equal size are merged as a binary counter carries, after which the run
      sizes are distinct powers of two again. */
  method Carry<T(!new)>(cmp: (T, T) -> int, stack: array<StackItem<T>>, spos0: nat,
                        ghost runs0: seq<seq<Node<T>>>, ghost chunks0: seq<seq<Node<T>>>, ghost tmp: Node?<T>,
                        ghost rest: seq<Node<T>>, ghost s: seq<Node<T>>, ghost all: set<Node<T>>)
    returns (spos: nat, ghost runs: seq<seq<Node<T>>>, ghost chunks: seq<seq<Node<T>>>)
    requires TotalPreorder(cmp) && Halfway(cmp, stack, runs0, chunks0, tmp, rest, s, all)
    requires 1 <= spos0 == |runs0| && AlmostStrict(Sizes(chunks0))
    modifies stack, all
    ensures Halfway(cmp, stack, runs, chunks, tmp, rest, s, all)
    ensures 1 <= spos == |runs| && StrictPowers(Sizes(chunks))
  {
    runs, chunks, spos := runs0, chunks0, spos0;
    while spos > 1 && stack[spos - 1].n == stack[spos - 2].n
      invariant 1 <= spos == |runs| == |chunks| <= stack.Length
      invariant Halfway(cmp, stack, runs, chunks, tmp, rest, s, all)
      invariant AlmostStrict(Sizes(chunks))
    {
      RecordedSizes(cmp, stack, runs, chunks, all, spos - 1);
      RecordedSizes(cmp, stack, runs, chunks, all, spos - 2);
      MergeTop(cmp, stack, spos, runs, chunks, tmp, rest, s, all);
      SizesMerge(chunks);
      runs, chunks, spos := MergedTop(cmp, runs), JoinedTop(chunks), spos - 1;
    }
    if spos > 1 {
      RecordedSizes(cmp, stack, runs, chunks, all, spos - 1);
      RecordedSizes(cmp, stack, runs, chunks, all, spos - 2);
    }
    ghost var z := Sizes(chunks);
    assert |z| == spos && (spos > 1 ==> z[spos - 1] != z[spos - 2]);
    StrictWhenDifferent(z);
  }

  /** The outer loop: every push finds a slot on the stack. */
  method PushAll<T(!new)>(cmp: (T, T) -> int, stack: array<StackItem<T>>, root: Node<T>,
                          ghost s: seq<Node<T>>, ghost all: set<Node<T>>)
    returns (spos: nat, ghost runs: seq<seq<Node<T>>>, ghost chunks: seq<seq<Node<T>>>)
    requires TotalPreorder(cmp) && Halfway(cmp, stack, [], [], root, s, s, all)
    requires stack.Length == LbOf(|s|) + 1
    modifies stack, all
    ensures 1 <= spos == |runs| && Halfway(cmp, stack, runs, chunks, null, [], s, all)
  {
    var tmp: Node?<T> := root;
    ghost var rest := s;
    spos, runs, chunks := 0, [], [];
    while tmp != null
      invariant spos == |runs| == |chunks| && (tmp == null ==> spos >= 1)
      invariant Halfway(cmp, stack, runs, chunks, tmp, rest, s, all)
      invariant StrictPowers(Sizes(chunks))
      decreases |rest|
    {
      var item: Node<T> := tmp;
      ItemsConsumed(chunks, rest, s);
      RoomForItem(chunks, |s|, |rest|);
      SizesPush(chunks, item);
      tmp := PushItem(cmp, stack, spos, runs, chunks, item, rest, s, all);
      rest := rest[1..];
      spos, runs, chunks := Carry(cmp, stack, spos + 1, runs + [[item]], chunks + [[item]], tmp, rest, s, all);
    }
  }

  /** The last loop: the remaining runs are merged into one. */
  method MergeAll<T(!new)>(cmp: (T, T) -> int, stack: array<StackItem<T>>, spos0: nat,
                           ghost runs0: seq<seq<Node<T>>>, ghost chunks0: seq<seq<Node<T>>>,
                           ghost s: seq<Node<T>>, ghost all: set<Node<T>>)
    requires TotalPreorder(cmp) && Halfway(cmp, stack, runs0, chunks0, null, [], s, all)
    requires 1 <= spos0 == |runs0|
    modifies stack, all
    ensures stack.Length > 0 && IsList(stack[0].root, Sorted(cmp, s))
  {
    ghost var runs, chunks := runs0, chunks0;
    var spos := spos0;
    while spos > 1
      invariant 1 <= spos == |runs| <= stack.Length
      invariant Halfway(cmp, stack, runs, chunks, null, [], s, all)
    {
      MergeTop(cmp, stack, spos, runs, chunks, null, [], s, all);
      runs, chunks, spos := MergedTop(cmp, runs), JoinedTop(chunks), spos - 1;
    }
    OneChunk(chunks, s);
    assert runs[0] == Sorted(cmp, chunks[0]);
  }

  lemma OneChunk<T>(chunks: seq<seq<Node<T>>>, s: seq<Node<T>>)
    requires |chunks| == 1 && Flat(chunks) + [] == s
    ensures chunks[0] == s
  {
    assert chunks[..0] == [];
  }

  /** One step of turning a list round. */
  method MoveOver<T>(iter: Node<T>, ghost rest: seq<Node<T>>, root2: Node?<T>, ghost done: seq<Node<T>>)
    returns (next: Node?<T>)
    requires IsList(iter, rest) && IsList(root2, done)
    requires Distinct(rest) && Distinct(done) && Apart(rest, done)
    modifies iter
    ensures rest != [] && rest[0] == iter
    ensures IsList(next, rest[1..]) && IsList(iter, [iter] + done)
    ensures Distinct(rest[1..]) && Distinct([iter] + done) && Apart(rest[1..], [iter] + done)
  {
    ghost var rest', done' := rest[1..], [iter] + done;
    assert rest == [iter] + rest' && iter in rest;
    assert iter !in rest' && iter !in done;
    next := iter.next;
    assert IsList(next, rest');
    iter.next := root2;
    assert IsList(next, rest') && IsList(root2, done);
    assert forall i :: 0 < i < |done'| ==> done'[i] == done[i - 1];
  }

  /** `list_pass` without a callback: the length of the list. */
  method ListPass<T>(root: Node?<T>, ghost s: seq<Node<T>>) returns (i: nat)
    requires IsList(root, s)
    ensures i == |s|
  {
    var tmp := root;
    i := 0;
    while tmp != null
      invariant i <= |s| && IsList(tmp, s[i..])
      decreases |s| - i
    {
      tmp, i := tmp.next, i + 1;
    }
  }

  /** The work of `list_sort`: every push onto the stack finds a slot among the lb(n) + 1 that were
      allocated. */
  method SortNodes<T(!new)>(cmp: (T, T) -> int, list: Node?<T>, ghost s: seq<Node<T>>) returns (root: Node?<T>)
    requires IsList(list, s) && Distinct(s) && TotalPreorder(cmp)
    modifies s
    ensures IsList(root, Sorted(cmp, s))
  {
    ghost var all := Elements(s);
    var listLen := ListPass(list, s);
    if listLen < 2 {
      OrderedIsSorted(cmp, s);
      return list;
    }
    var stackLen := Lb(listLen);
    stackLen := stackLen + 1;
    var stack := new StackItem<T>[stackLen];
    HalfwayStart(cmp, stack, list, s, all);
    var spos, runs, chunks := PushAll(cmp, stack, list, s, all);
    MergeAll(cmp, stack, spos, runs, chunks, s, all);
    root := stack[0].root;
  }

  // ----- the simple sort -----

  lemma SwapKeepsNodes<T>(s: seq<Node<T>>, i: nat)
    requires i + 1 < |s| && Distinct(s)
    ensures Distinct(Swapped(s, i))
    ensures Elements(Swapped(s, i)) == Elements(s)
  {
    var r := Swapped(s, i);
    assert s[i] == r[i + 1] && s[i + 1] == r[i];
    assert forall k :: 0 <= k < |s| && k != i && k != i + 1 ==> r[k] == s[k];
    forall x | x in s
      ensures x in r
    {
      var k :| 0 <= k < |s| && s[k] == x;
      assert x == r[if k == i then i + 1 else if k == i + 1 then i else k];
    }
  }

  /** Exchanging the first two nodes. */
  method SwapHead<T>(root: Node<T>, ghost s: seq<Node<T>>) returns (root': Node<T>)
    requires IsList(root, s) && Distinct(s) && |s| >= 2
    modifies Elements(s)
    ensures IsList(root', Swapped(s, 0))
  {
    assert s[1] == root.next;
    var tmp: Node<T> := root.next;
    assert tmp == s[1] && root in Elements(s) && tmp in Elements(s);
    root.next := tmp.next;
    tmp.next := root;
    root' := tmp;
    ghost var r := Swapped(s, 0);
    assert forall k :: 2 <= k < |s| ==> r[k] == s[k] && s[k] != s[0] && s[k] != s[1];
  }

  /** Exchanging `tmp` and the node after it, `prev` standing before them. */
  method SwapNext<T>(ghost root: Node<T>, prev: Node<T>, tmp: Node<T>, ghost s: seq<Node<T>>, ghost p: nat)
    requires IsList(root, s) && Distinct(s) && p + 2 < |s| && s[p] == prev && s[p + 1] == tmp
    modifies Elements(s)
    ensures IsList(root, Swapped(s, p + 1)) && prev.next == s[p + 2]
  {
    assert tmp == prev.next && s[p + 2] == tmp.next;
    assert prev in Elements(s) && tmp in Elements(s) && s[p + 2] in Elements(s);
    prev.next := tmp.next;
    tmp.next := tmp.next.next;
    prev.next.next := tmp;
    ghost var r := Swapped(s, p + 1);
    assert r[p] == prev && r[p + 1] == s[p + 2] && r[p + 2] == tmp;
    assert forall k :: 0 <= k < |s| && k !in {p, p + 1, p + 2} ==>
                         r[k] == s[k] && s[k] != s[p] && s[k] != s[p + 1] && s[k] != s[p + 2];
    forall k | 0 <= k < |r| - 1
      ensures r[k].next == r[k + 1]
    {
      if k !in {p, p + 1, p + 2} {
        assert s[k].next == old(s[k].next) == s[k + 1];
      }
    }
  }

  /** What exchanging an ascending pair achieves. */
  lemma SwapProgress<T(!new)>(cmp: (T, T) -> int, s: seq<Node<T>>, i: nat)
    requires TotalPreorder(cmp) && Distinct(s) && i + 1 < |s| && !Ge(cmp, s[i], s[i + 1])
    ensures Distinct(Swapped(s, i)) && Elements(Swapped(s, i)) == Elements(s)
    ensures Sorted(cmp, Swapped(s, i)) == Sorted(cmp, s)
    ensures Inversions(cmp, Swapped(s, i)) < Inversions(cmp, s)
  {
    SwapKeepsNodes(s, i);
    SwapKeepsSorted(cmp, s, i);
    SwapRemovesInversion(cmp, s, i);
  }

  /** One comparison of the inner loop, of the second and third of `prev`, `tmp` and the node after. */
  method PassStep<T(!new)>(cmp: (T, T) -> int, ghost root: Node<T>, prev: Node<T>, tmp: Node<T>,
                           ghost s0: seq<Node<T>>, ghost p: nat)
    returns (prev': Node<T>, tmp': Node<T>, swapped: bool, ghost s: seq<Node<T>>)
    requires TotalPreorder(cmp) && IsList(root, s0) && Distinct(s0)
    requires p + 2 < |s0| && s0[p] == prev && s0[p + 1] == tmp
    modifies Elements(s0)
    ensures IsList(root, s) && Distinct(s) && |s| == |s0| && Elements(s) == Elements(s0)
    ensures s[p + 1] == prev' && s[p + 2] == tmp' && Sorted(cmp, s) == Sorted(cmp, s0)
    ensures if swapped then Inversions(cmp, s) < Inversions(cmp, s0)
            else s == s0 && Ge(cmp, s[p + 1], s[p + 2])
  {
    assert tmp.next == s0[p + 2] && tmp in Elements(s0);
    swapped := cmp(tmp.data, tmp.next.data) < 0;
    if swapped {
      SwapNext(root, prev, tmp, s0, p);
      SwapProgress(cmp, s0, p + 1);
      prev', tmp', s := prev.next, tmp, Swapped(s0, p + 1);
    } else {
      prev', tmp', s := tmp, tmp.next, s0;
    }
  }

  /** The inner loop: one pass over the list from its second node on.  If no pair was exchanged the
      list is in order from the second node on. */
  method Pass<T(!new)>(cmp: (T, T) -> int, root: Node<T>, ghost s0: seq<Node<T>>)
    returns (end: bool, ghost s: seq<Node<T>>)
    requires TotalPreorder(cmp) && IsList(root, s0) && Distinct(s0) && |s0| >= 2
    modifies Elements(s0)
    ensures IsList(root, s) && Distinct(s) && |s| == |s0| && Elements(s) == Elements(s0)
    ensures Sorted(cmp, s) == Sorted(cmp, s0)
    ensures if end then s == s0 && (forall i :: 1 <= i < |s| - 1 ==> Ge(cmp, s[i], s[i + 1]))
            else Inversions(cmp, s) < Inversions(cmp, s0)
  {
    assert s0[1] == root.next;
    var prev: Node<T>, tmp: Node<T> := root, root.next;
    end, s := true, s0;
    ghost var p := 0;
    while tmp.next != null
      invariant p + 1 < |s| == |s0| && s[p] == prev && s[p + 1] == tmp
      invariant IsList(root, s) && Distinct(s) && Elements(s) == Elements(s0)
      invariant Sorted(cmp, s) == Sorted(cmp, s0)
      invariant if end then s == s0 && (forall i :: 1 <= i <= p ==> Ge(cmp, s[i], s[i + 1]))
                else Inversions(cmp, s) < Inversions(cmp, s0)
      decreases |s| - p
    {
      assert p + 2 < |s| by { assert s[|s| - 1].next == null; }
      var swapped;
      prev, tmp, swapped, s := PassStep(cmp, root, prev, tmp, s, p);
      if swapped {
        end := false;
      }
      p := p + 1;
    }
    OthersPointOn(root, s);
  }

  /** Only the last node of a list points to nothing. */
  lemma OthersPointOn<T>(root: Node<T>, s: seq<Node<T>>)
    requires IsList(root, s)
    ensures forall i :: 0 <= i < |s| - 1 ==> s[i].next != null
  {
    forall i | 0 <= i < |s| - 1
      ensures s[i].next != null
    {
      assert s[i].next == s[i + 1];
    }
  }

  class List<T(!new)> {
    var list: Node?<T>
    ghost var items: seq<Node<T>>

    ghost predicate Valid()
      reads this, items
    {
      IsList(list, items) && Distinct(items)
    }

    /** `list_init`. */
    constructor ()
      ensures Valid() && items == []
    {
      list, items := null, [];
    }

    /** `list_item_add`. */
    method ItemAdd(item: Node<T>)
      requires Valid() && item !in items
      modifies this, item
      ensures Valid() && items == [item] + old(items)
    {
      item.next := list;
      list := item;
      items := [item] + items;
      assert forall x :: x in old(items) ==> x.next == old(x.next);
      assert IsList(item.next, old(items));
      assert forall i :: 0 < i < |items| ==> items[i] == old(items)[i - 1];
    }

    /** `list_reverse`: the same nodes the other way round. */
    method ReverseInPlace()
      requires Valid()
      modifies this, items
      ensures Valid() && items == Reversed(old(items))
    {
      var iter, root2: Node?<T> := list, null;
      ghost var rest, done: seq<Node<T>> := items, [];
      while iter != null
        invariant IsList(iter, rest) && IsList(root2, done)
        invariant Distinct(rest) && Distinct(done) && Apart(rest, done)
        invariant forall x :: x in rest || x in done ==> x in old(items)
        invariant Reversed(rest) + done == Reversed(old(items))
        decreases |rest|
      {
        assert Reversed(rest) + done == Reversed(rest[1..]) + ([iter] + done);
        assert iter in rest;
        var tmp := MoveOver(iter, rest, root2, done);
        root2, done := iter, [iter] + done;
        iter, rest := tmp, rest[1..];
      }
      list, items := root2, done;
    }

    /** `list_sort`: the nodes of the list, relinked into a descending stable order. */
    method Sort(cmp: (T, T) -> int)
      requires Valid() && TotalPreorder(cmp)
      modifies this, Elements(items)
      ensures Valid() && items == Sorted(cmp, old(items))
    {
      var root := SortNodes(cmp, list, items);
      SortedSameNodes(cmp, items);
      list, items := root, Sorted(cmp, items);
    }

    /** `list_sort_simple` on two or more elements: the same node sequence as `Sort`.  An exchange at
        the head does not ask for another pass, and none is needed on its account. */
    method SortSimple(cmp: (T, T) -> int)
      requires Valid() && TotalPreorder(cmp) && |items| >= 2
      modifies this, Elements(items)
      ensures Valid() && items == Sorted(cmp, old(items))
    {
      var root: Node<T> := list;
      ghost var s := items;
      var end := false;
      while !end
        invariant IsList(root, s) && Distinct(s) && |s| >= 2 && Elements(s) == Elements(old(items))
        invariant Sorted(cmp, s) == Sorted(cmp, old(items))
        invariant end ==> Sorted(cmp, s) == s
        decreases if end then 0 else 1 + Inversions(cmp, s)
      {
        root, end, s := HeadAndPass(cmp, root, s);
      }
      list, items := root, s;
    }
  }

  /** One round of the outer loop. */
  method HeadAndPass<T(!new)>(cmp: (T, T) -> int, root0: Node<T>, ghost s0: seq<Node<T>>)
    returns (root: Node<T>, end: bool, ghost s: seq<Node<T>>)
    requires TotalPreorder(cmp) && IsList(root0, s0) && Distinct(s0) && |s0| >= 2
    modifies Elements(s0)
    ensures IsList(root, s) && Distinct(s) && |s| == |s0| && Elements(s) == Elements(s0)
    ensures Sorted(cmp, s) == Sorted(cmp, s0)
    ensures if end then Sorted(cmp, s) == s else Inversions(cmp, s) < Inversions(cmp, s0)
  {
    root, s := root0, s0;
    assert s[1] == root.next;
    if cmp(root.data, root.next.data) < 0 {
      root := SwapHead(root, s);
      SwapProgress(cmp, s, 0);
      assert cmp(s[1].data, s[0].data) >= 0;
      s := Swapped(s, 0);
    }
    assert Ge(cmp, s[0], s[1]);
    end, s := Pass(cmp, root, s);
    if end {
      OrderedIsSorted(cmp, s);
    }
  }
}
