/** The chained hash table of src/hash.c with its in-place resizing.  Keys are compared by equality, as
    all comparison callbacks of the program do. */
module HashTable {
  import opened Arith
  import opened Basics
  import opened HashSlots
  import opened HashChains
  import Primes

  /** What an array of head buckets holds: the chain and the entries of each slot, the number of the
      array, and a set with all buckets in it. */
  datatype Layout<K, V> = Layout(
    chains: seq<seq<Bucket<K, V>>>,
    slots: Slots<K, V>,
    era: nat,
    buckets: set<Bucket<K, V>>)
  {
    ghost function Set(i: nat, c: seq<Bucket<K, V>>, slot: Slot<K, V>, bs: set<Bucket<K, V>>): Layout<K, V>
      requires i < |chains| == |slots|
    {
      Layout(chains[i := c], slots[i := slot], era, bs)
    }
  }

  /** The slot `i`: a chain of known buckets holding the given entries, all tagged (era, i). */
  ghost predicate Holds<K, V>(head: Bucket<K, V>, c: seq<Bucket<K, V>>, slot: Slot<K, V>, era: nat, i: nat)
    reads c
  {
    Chain(head, c, era, i) && Items(c) == slot
  }

  ghost predicate Inside<K, V>(c: seq<Bucket<K, V>>, buckets: set<Bucket<K, V>>) {
    forall b :: b in c ==> b in buckets
  }

  ghost predicate Fits<K, V>(arr: array<Bucket<K, V>>, l: Layout<K, V>) {
    |l.chains| == |l.slots| == arr.Length
  }

  /** The buckets of a chain, one after the other, hold the given entries. */
  ghost predicate Cells<K, V>(c: seq<Bucket<K, V>>, items: Slot<K, V>, era: nat, i: nat, buckets: set<Bucket<K, V>>)
    reads buckets
  {
    if c == [] then items == []
    else
      && items != [] && c[0] in buckets && c[0] !in c[1..]
      && c[0].item == Some(items[0]) && c[0].era == era && c[0].slot == i
      && c[0].next == (if |c| > 1 then c[1] else null)
      && Cells(c[1..], items[1..], era, i, buckets)
  }

  /** The slot `i` again, told bucket by bucket. */
  ghost predicate Listed<K, V>(head: Bucket<K, V>, c: seq<Bucket<K, V>>, slot: Slot<K, V>, era: nat, i: nat,
      buckets: set<Bucket<K, V>>)
    reads buckets
  {
    && c != [] && c[0] == head && head in buckets
    && if head.item.Some? then Cells(c, slot, era, i, buckets)
       else slot == [] && |c| == 1 && head.next == null && head.era == era && head.slot == i
  }

  lemma {:induction false} CellsAre<K, V>(c: seq<Bucket<K, V>>, items: Slot<K, V>, era: nat, i: nat,
      buckets: set<Bucket<K, V>>)
    requires Cells(c, items, era, i, buckets)
    ensures Inside(c, buckets) && Linked(c) && Distinct(c) && Full(c) && Items(c) == items
    ensures forall k :: 0 <= k < |c| ==> c[k].era == era && c[k].slot == i
  {
    if c != [] {
      CellsAre(c[1..], items[1..], era, i, buckets);
      assert forall k :: 1 <= k < |c| ==> c[k] == c[1..][k - 1];
    }
  }

  lemma {:induction false} AreCells<K, V>(c: seq<Bucket<K, V>>, items: Slot<K, V>, era: nat, i: nat,
      buckets: set<Bucket<K, V>>)
    requires Inside(c, buckets) && Linked(c) && Distinct(c) && Full(c) && Items(c) == items
    requires forall k :: 0 <= k < |c| ==> c[k].era == era && c[k].slot == i
    ensures Cells(c, items, era, i, buckets)
  {
    if c != [] {
      assert forall k :: 1 <= k < |c| ==> c[k] == c[1..][k - 1];
      AreCells(c[1..], items[1..], era, i, buckets);
    }
  }

  lemma ListedIsHolds<K, V>(head: Bucket<K, V>, c: seq<Bucket<K, V>>, slot: Slot<K, V>, era: nat, i: nat,
      buckets: set<Bucket<K, V>>)
    requires c != [] && c[0] == head
    ensures Listed(head, c, slot, era, i, buckets) <==> Inside(c, buckets) && Holds(head, c, slot, era, i)
  {
    if head.item.Some? {
      if Listed(head, c, slot, era, i, buckets) { CellsAre(c, slot, era, i, buckets); }
      if Inside(c, buckets) && Holds(head, c, slot, era, i) { AreCells(c, slot, era, i, buckets); }
    } else if |c| == 1 {
      assert c == [head] && c[1..] == [] && Items(c) == [];
    }
  }

  /** The slots of the array from `from` on. */
  ghost predicate StoredFrom<K, V>(arr: array<Bucket<K, V>>, l: Layout<K, V>, from: nat)
    requires Fits(arr, l)
    reads arr, l.buckets
    decreases arr.Length - from
  {
    from >= arr.Length || (
      && Listed(arr[from], l.chains[from], l.slots[from], l.era, from, l.buckets)
      && StoredFrom(arr, l, from + 1))
  }

  /** The array holds the layout. */
  ghost predicate Stored<K, V>(arr: array<Bucket<K, V>>, l: Layout<K, V>)
    reads arr, l.buckets
  {
    Fits(arr, l) && StoredFrom(arr, l, 0)
  }

  ghost predicate EverySlot<K, V>(arr: array<Bucket<K, V>>, l: Layout<K, V>, from: nat)
    requires Fits(arr, l)
    reads arr, l.buckets
  {
    forall i :: from <= i < arr.Length ==>
      Inside(l.chains[i], l.buckets) && Holds(arr[i], l.chains[i], l.slots[i], l.era, i)
  }

  lemma {:induction false} SlotAt<K, V>(arr: array<Bucket<K, V>>, l: Layout<K, V>, from: nat, i: nat)
    requires Fits(arr, l) && from <= i < arr.Length && StoredFrom(arr, l, from)
    ensures Inside(l.chains[i], l.buckets) && Holds(arr[i], l.chains[i], l.slots[i], l.era, i)
    decreases i - from
  {
    if from < i {
      SlotAt(arr, l, from + 1, i);
    } else {
      ListedIsHolds(arr[i], l.chains[i], l.slots[i], l.era, i, l.buckets);
    }
  }

  lemma SlotsOf<K, V>(arr: array<Bucket<K, V>>, l: Layout<K, V>, from: nat)
    requires Fits(arr, l) && StoredFrom(arr, l, from)
    ensures EverySlot(arr, l, from)
  {
    forall i | from <= i < arr.Length
      ensures Inside(l.chains[i], l.buckets) && Holds(arr[i], l.chains[i], l.slots[i], l.era, i)
    {
      SlotAt(arr, l, from, i);
    }
  }

  lemma {:induction false} FromSlots<K, V>(arr: array<Bucket<K, V>>, l: Layout<K, V>, from: nat)
    requires Fits(arr, l) && EverySlot(arr, l, from)
    ensures StoredFrom(arr, l, from)
    decreases arr.Length - from
  {
    if from < arr.Length {
      ListedIsHolds(arr[from], l.chains[from], l.slots[from], l.era, from, l.buckets);
      FromSlots(arr, l, from + 1);
    }
  }

  /** Writing no bucket of the slots from `from` on leaves them as they were. */
  twostate lemma RestKept<K, V>(arr: array<Bucket<K, V>>, new l: Layout<K, V>, new from: nat)
    requires old(allocated(l)) && Fits(arr, l) && old(EverySlot(arr, l, from))
    requires unchanged(arr)
    requires forall b :: b in l.buckets && old(b.era) == l.era && old(b.slot) >= from ==> unchanged(b)
    ensures StoredFrom(arr, l, from)
  {
    forall i | from <= i < arr.Length
      ensures Inside(l.chains[i], l.buckets) && Holds(arr[i], l.chains[i], l.slots[i], l.era, i)
    {
      assert old(Holds(arr[i], l.chains[i], l.slots[i], l.era, i));
      assert forall b :: b in l.chains[i] ==> unchanged(b);
    }
    FromSlots(arr, l, from);
  }

  /** Writing only buckets of the slot `idx` and new ones changes that slot alone. */
  twostate lemma OneChanged<K, V>(arr: array<Bucket<K, V>>, new l: Layout<K, V>, new idx: nat,
                                  new c: seq<Bucket<K, V>>, new slot: Slot<K, V>, new bs: set<Bucket<K, V>>)
    requires old(allocated(l)) && Fits(arr, l) && idx < arr.Length && old(EverySlot(arr, l, 0))
    requires unchanged(arr)
    requires forall b :: b in l.buckets && old(b.era) == l.era && old(b.slot) != idx ==> unchanged(b)
    requires Holds(arr[idx], c, slot, l.era, idx) && l.buckets <= bs && Inside(c, bs)
    ensures Stored(arr, l.Set(idx, c, slot, bs))
  {
    var l' := l.Set(idx, c, slot, bs);
    forall i | 0 <= i < arr.Length
      ensures Inside(l'.chains[i], l'.buckets) && Holds(arr[i], l'.chains[i], l'.slots[i], l'.era, i)
    {
      if i != idx {
        assert old(Holds(arr[i], l.chains[i], l.slots[i], l.era, i));
        assert forall b :: b in l.chains[i] ==> unchanged(b);
      }
    }
    FromSlots(arr, l', 0);
  }

  /** Buckets of the given era only. */
  ghost predicate Tagged<K, V>(buckets: set<Bucket<K, V>>, era: nat)
    reads buckets
  {
    forall b :: b in buckets ==> b.era == era
  }

  /** The bucket array all empty: malloc and memset. */
  method NewArray<K, V>(n: nat, ghost era: nat) returns (arr: array<Bucket<K, V>>, ghost l: Layout<K, V>)
    ensures arr.Length == n && fresh(arr) && fresh(l.buckets) && Tagged(l.buckets, era)
    ensures l.era == era && l.slots == EmptySlots(n) && Stored(arr, l)
  {
    if n == 0 {
      arr := new Bucket<K, V>[0];
      return arr, Layout([], EmptySlots(0), era, {});
    }
    var b0 := new Bucket<K, V>(None, null, era, 0);
    arr := new Bucket<K, V>[n](_ => b0);
    ghost var chains: seq<seq<Bucket<K, V>>>, buckets: set<Bucket<K, V>> := [[b0]], {b0};
    var i := 1;
    while i < n
      invariant 1 <= i <= n && |chains| == i && fresh(buckets) && Tagged(buckets, era)
      invariant arr.Length == n && forall k :: 0 <= k < i ==> chains[k] == [arr[k]] && arr[k] in buckets
      invariant forall k :: 0 <= k < i ==>
                  arr[k].item.None? && arr[k].next == null && arr[k].era == era && arr[k].slot == k
    {
      var b := new Bucket<K, V>(None, null, era, i);
      arr[i] := b;
      chains, buckets := chains + [[b]], buckets + {b};
      i := i + 1;
    }
    l := Layout(chains, EmptySlots(n), era, buckets);
    forall k | 0 <= k < n
      ensures Inside(chains[k], buckets) && Holds(arr[k], chains[k], EmptySlots(n)[k], era, k)
    {
      assert chains[k][1..] == [];
    }
    FromSlots(arr, l, 0);
  }

  /** Inserting an entry into the slot `idx` of an array. */
  method InsertInto<K, V>(arr: array<Bucket<K, V>>, idx: nat, e: Entry<K, V>, ghost l: Layout<K, V>)
    returns (ghost l': Layout<K, V>)
    requires Stored(arr, l) && idx < arr.Length
    modifies l.buckets
    ensures |l.slots| == arr.Length && l'.slots == l.slots[idx := SlotInsert(l.slots[idx], e)] && Stored(arr, l')
    ensures l.buckets <= l'.buckets && fresh(l'.buckets - l.buckets)
  {
    SlotsOf(arr, l, 0);
    ghost var c0 := l.chains[idx];
    assert Holds(arr[idx], c0, l.slots[idx], l.era, idx) && Inside(c0, l.buckets);
    ghost var c := ChainInsert(arr[idx], e, c0, l.era, idx);
    ghost var bs := if |c| > |c0| then l.buckets + {c[1]} else l.buckets;
    assert forall b :: b in c ==> b == c[0] || b == c[|c| - |c0|] || b in c0;
    OneChanged(arr, l, idx, c, SlotInsert(l.slots[idx], e), bs);
    l' := l.Set(idx, c, SlotInsert(l.slots[idx], e), bs);
  }

  /** Moving one bucket of the old array, `bp`, to the slot `idx` of the new one: into the head if that
      is empty; else the bucket itself is relinked, or a copy of it when `bp` is a head. */
  method MoveBucket<K, V>(arr: array<Bucket<K, V>>, idx: nat, bp: Bucket<K, V>, isHead: bool, ghost l: Layout<K, V>)
    returns (collided: bool, ghost l': Layout<K, V>)
    requires Stored(arr, l) && idx < arr.Length && bp.item.Some? && bp.era != l.era && Tagged(l.buckets, l.era)
    modifies arr[idx], bp
    ensures |l.slots| == arr.Length && collided == (l.slots[idx] != [])
    ensures l'.era == l.era && l'.slots == l.slots[idx := SlotInsert(l.slots[idx], old(bp.item.value))]
    ensures Stored(arr, l')
    ensures l.buckets <= l'.buckets && fresh(l'.buckets - l.buckets - {bp}) && Tagged(l'.buckets, l.era)
  {
    SlotsOf(arr, l, 0);
    ghost var c0, slot := l.chains[idx], SlotInsert(l.slots[idx], bp.item.value);
    assert Holds(arr[idx], c0, l.slots[idx], l.era, idx) && Inside(c0, l.buckets);
    ghost var c, moved;
    collided, c, moved := ChainMove(arr[idx], bp, isHead, c0, l.era, idx);
    ghost var bs := if collided then l.buckets + {moved} else l.buckets;
    assert Inside(c, bs) by {
      assert forall b :: b in c ==> b == c[0] || b == moved || b in c0;
    }
    OneChanged(arr, l, idx, c, slot, bs);
    l' := l.Set(idx, c, slot, bs);
  }

  /** The part of an old chain still to be moved. */
  ghost predicate ToMove<K, V>(bp: Bucket?<K, V>, rest: seq<Bucket<K, V>>, items: seq<Entry<K, V>>, era: nat)
    reads rest
  {
    && bp == (if rest == [] then null else rest[0]) && Linked(rest) && Distinct(rest) && |items| == |rest|
    && (forall k :: 0 <= k < |rest| ==> rest[k].era == era && rest[k].item == Some(items[k]))
  }

  /** One round of the inner loop of a resize. */
  method MoveNext<K, V>(hash: K -> nat, arr: array<Bucket<K, V>>, bp: Bucket<K, V>, isHead: bool,
                        ghost rest: seq<Bucket<K, V>>, ghost items: seq<Entry<K, V>>, ghost oldEra: nat,
                        ghost l: Layout<K, V>)
    returns (next: Bucket?<K, V>, collided: bool, ghost l': Layout<K, V>)
    requires arr.Length > 0 && Stored(arr, l) && Tagged(l.buckets, l.era)
    requires ToMove(bp, rest, items, oldEra) && oldEra != l.era
    modifies l.buckets, bp
    ensures |l.slots| == arr.Length && rest != [] && ToMove(next, rest[1..], items[1..], oldEra)
    ensures l'.era == l.era && l'.slots == Insert(hash, l.slots, items[0]) && Stored(arr, l')
    ensures Tagged(l'.buckets, l.era)
    ensures l.buckets <= l'.buckets && fresh(l'.buckets - l.buckets - {bp})
    ensures collided == (l.slots[Index(hash, l.slots, items[0].key)] != [])
  {
    next := bp.next;
    RemIsMod(hash(bp.item.value.key), arr.Length);
    var newIdx := hash(bp.item.value.key) % arr.Length;
    SlotAt(arr, l, 0, newIdx);
    ghost var head, rest' := arr[newIdx], rest[1..];
    assert head in l.chains[newIdx] && head.era == l.era;
    assert ToMove(next, rest', items[1..], oldEra);
    assert head !in rest' && bp !in rest';
    collided, l' := MoveBucket(arr, newIdx, bp, isHead, l);
    assert ToMove(next, rest', items[1..], oldEra);
  }

  /** The inner loop of a resize: the buckets of one old chain go where they hash to now. */
  method MoveChain<K, V>(hash: K -> nat, arr: array<Bucket<K, V>>, oldHead: Bucket<K, V>, ghost l0: Layout<K, V>,
                         ghost c: seq<Bucket<K, V>>, ghost oldEra: nat, ghost slot: nat, ghost mine: set<Bucket<K, V>>)
    returns (collision: nat, ghost l: Layout<K, V>)
    requires arr.Length > 0 && Stored(arr, l0) && Tagged(l0.buckets, l0.era)
    requires Chain(oldHead, c, oldEra, slot) && oldHead.item.Some? && oldEra != l0.era && Inside(c, mine)
    modifies l0.buckets, mine
    ensures |l0.slots| > 0 && l.era == l0.era && l.slots == InsertAll(hash, l0.slots, old(Items(c))) && Stored(arr, l)
    ensures Tagged(l.buckets, l.era) && fresh(l.buckets - l0.buckets - mine)
    ensures Collisions(l0.slots) + collision == Collisions(l.slots)
  {
    ItemsAt(c);
    ghost var items, rest := Items(c), c;
    var bp: Bucket?<K, V> := oldHead;
    collision, l := 0, l0;
    while bp != null
      invariant ToMove(bp, rest, items, oldEra) && Inside(rest, mine)
      invariant Stored(arr, l) && |l.slots| > 0 && l.era == l0.era && Tagged(l.buckets, l.era)
      invariant fresh(l.buckets - l0.buckets - mine)
      invariant InsertAll(hash, l.slots, items) == InsertAll(hash, l0.slots, old(Items(c)))
      invariant Collisions(l0.slots) + collision == Collisions(l.slots)
      decreases |rest|
    {
      InsertCounts(hash, l.slots, items[0]);
      assert bp in rest;
      var collided, next;
      next, collided, l := MoveNext(hash, arr, bp, bp == oldHead, rest, items, oldEra, l);
      if collided {
        collision := collision + 1;
      }
      items, rest, bp := items[1..], rest[1..], next;
    }
  }

  /** One round of the outer loop of a resize. */
  method MoveSlot<K, V>(hash: K -> nat, old': array<Bucket<K, V>>, idx: nat, ghost o: Layout<K, V>,
                        arr: array<Bucket<K, V>>, ghost l0: Layout<K, V>)
    returns (collision: nat, ghost l: Layout<K, V>)
    requires Fits(old', o) && idx < old'.Length && StoredFrom(old', o, idx) && old' != arr
    requires arr.Length > 0 && Stored(arr, l0) && Tagged(l0.buckets, l0.era) && o.era != l0.era
    modifies l0.buckets, o.buckets
    ensures StoredFrom(old', o, idx + 1)
    ensures |l0.slots| > 0 && l.era == l0.era && l.slots == InsertAll(hash, l0.slots, o.slots[idx]) && Stored(arr, l)
    ensures Tagged(l.buckets, l.era) && fresh(l.buckets - l0.buckets - o.buckets)
    ensures Collisions(l0.slots) + collision == Collisions(l.slots)
  {
    SlotsOf(old', o, idx);
    var head := old'[idx];
    ghost var c := o.chains[idx];
    assert Holds(head, c, o.slots[idx], o.era, idx) && Inside(c, o.buckets);
    EmptyHead(head, c, o.era, idx);
    collision, l := 0, l0;
    if head.item.Some? {
      ghost var mine := set b | b in c;
      collision, l := MoveChain(hash, arr, head, l0, c, o.era, idx, mine);
    }
    RestKept(old', o, idx + 1);
  }

  /** The repopulation of a resize: every entry moves to an array of another size. */
  method Repopulate<K, V>(hash: K -> nat, old': array<Bucket<K, V>>, newSize: nat, ghost o: Layout<K, V>)
    returns (arr: array<Bucket<K, V>>, collision: nat, ghost l: Layout<K, V>)
    requires newSize > 0 && Stored(old', o)
    modifies o.buckets
    ensures arr.Length == newSize && fresh(arr)
    ensures l.slots == Rehash(hash, o.slots, newSize) && Stored(arr, l)
    ensures fresh(l.buckets - o.buckets)
    ensures collision == Collisions(l.slots)
  {
    arr, l := NewArray(newSize, o.era + 1);
    EntriesEmpty(l.slots);
    collision := 0;
    var idx := 0;
    assert o.slots[0..] == o.slots;
    while idx < old'.Length
      invariant idx <= old'.Length && |l.slots| == newSize && l.era == o.era + 1
      invariant StoredFrom(old', o, idx)
      invariant Stored(arr, l) && Tagged(l.buckets, l.era) && fresh(l.buckets - o.buckets)
      invariant InsertAll(hash, l.slots, Entries(o.slots[idx..])) == Rehash(hash, o.slots, newSize)
      invariant collision == Collisions(l.slots)
    {
      NextSlot(hash, l.slots, o.slots, idx);
      var more;
      more, l := MoveSlot(hash, old', idx, o, arr, l);
      collision, idx := collision + more, idx + 1;
    }
    assert o.slots[|o.slots|..] == [];
  }

  lemma NextSlot<K, V>(hash: K -> nat, slots: Slots<K, V>, old': Slots<K, V>, idx: nat)
    requires |slots| > 0 && idx < |old'|
    ensures InsertAll(hash, InsertAll(hash, slots, old'[idx]), Entries(old'[idx + 1..]))
         == InsertAll(hash, slots, Entries(old'[idx..]))
  {
    assert old'[idx..][1..] == old'[idx + 1..] && old'[idx..][0] == old'[idx];
    InsertAllAppend(hash, slots, old'[idx], Entries(old'[idx + 1..]));
  }

  /** Removing from the slot `idx` of an array. */
  method RemoveFrom<K(==), V>(arr: array<Bucket<K, V>>, idx: nat, key: K, ghost l: Layout<K, V>)
    returns (ok: bool, last: bool, ghost l': Layout<K, V>)
    requires Stored(arr, l) && idx < arr.Length
    modifies l.buckets
    ensures |l.slots| == arr.Length && l'.buckets == l.buckets
    ensures l'.slots == l.slots[idx := SlotRemove(l.slots[idx], key)] && Stored(arr, l')
    ensures ok == Find(l.slots[idx], key).Some? && (ok ==> last == (|l.slots[idx]| == 1))
  {
    SlotsOf(arr, l, 0);
    ghost var c0 := l.chains[idx];
    assert Holds(arr[idx], c0, l.slots[idx], l.era, idx) && Inside(c0, l.buckets);
    EmptyHead(arr[idx], c0, l.era, idx);
    ghost var c;
    ok, last, c := ChainRemove(arr[idx], key, c0, l.era, idx);
    OneChanged(arr, l, idx, c, SlotRemove(l.slots[idx], key), l.buckets);
    l' := l.Set(idx, c, SlotRemove(l.slots[idx], key), l.buckets);
  }

  /** The body of a removal, with the counters passed along. */
  method RemoveKey<K(==), V>(hash: K -> nat, arr: array<Bucket<K, V>>, key: K, count: nat, collision: nat,
      ghost l: Layout<K, V>)
    returns (ok: bool, count': nat, collision': nat, ghost l': Layout<K, V>)
    requires Stored(arr, l) && Placed(hash, l.slots) && count == |Entries(l.slots)| && collision == Collisions(l.slots)
    modifies l.buckets
    ensures l'.buckets == l.buckets && Stored(arr, l') && Placed(hash, l'.slots)
    ensures |l.slots| > 0 && l'.slots == Remove(hash, l.slots, key) && ok == Lookup(hash, l.slots, key).Some?
    ensures count' == |Entries(l'.slots)| && collision' == Collisions(l'.slots)
  {
    RemIsMod(hash(key), arr.Length);
    var idx := hash(key) % arr.Length;
    RemovePlaces(hash, l.slots, key);
    var last;
    ok, last, l' := RemoveFrom(arr, idx, key, l);
    count', collision' := count, collision;
    if ok {
      RemoveCounts(hash, l.slots, key);
      if !last {
        collision' := collision' - 1;
      }
      count' := count' - 1;
    } else {
      RemoveMisses(hash, l.slots, key);
    }
  }

  /** Replacing in the slot `idx` of an array. */
  method ReplaceIn<K(==), V>(arr: array<Bucket<K, V>>, idx: nat, key: K, data: V, ghost l: Layout<K, V>)
    returns (ok: bool, ghost l': Layout<K, V>)
    requires Stored(arr, l) && idx < arr.Length
    modifies l.buckets
    ensures |l.slots| == arr.Length && l'.buckets == l.buckets
    ensures l'.slots == l.slots[idx := SlotReplace(l.slots[idx], key, data)] && Stored(arr, l')
    ensures ok == Find(l.slots[idx], key).Some?
  {
    SlotsOf(arr, l, 0);
    ghost var c0 := l.chains[idx];
    assert Holds(arr[idx], c0, l.slots[idx], l.era, idx) && Inside(c0, l.buckets);
    ok := ChainReplace(arr[idx], key, data, c0, l.era, idx);
    OneChanged(arr, l, idx, c0, SlotReplace(l.slots[idx], key, data), l.buckets);
    l' := l.Set(idx, c0, SlotReplace(l.slots[idx], key, data), l.buckets);
  }

  ghost predicate Head<K, V>(head: Bucket<K, V>, l: Layout<K, V>, k: nat)
    reads head
  {
    head in l.buckets && head.era == l.era && head.slot == k
  }

  /** What every head looks like before the clearing reaches it. */
  ghost predicate Heads<K, V>(arr: array<Bucket<K, V>>, l: Layout<K, V>)
    reads arr, l.buckets
  {
    forall k :: 0 <= k < arr.Length ==>
      arr[k] in l.buckets && Head(arr[k], l, k) && (arr[k].item.None? ==> arr[k].next == null)
  }

  lemma StoredHeads<K, V>(arr: array<Bucket<K, V>>, l: Layout<K, V>)
    requires Stored(arr, l)
    ensures Heads(arr, l)
  {
    SlotsOf(arr, l, 0);
    forall k | 0 <= k < arr.Length
      ensures Head(arr[k], l, k) && (arr[k].item.None? ==> arr[k].next == null)
    {
      assert Holds(arr[k], l.chains[k], l.slots[k], l.era, k);
      assert arr[k] in l.chains[k];
    }
  }

  /** Zeroing the occupied heads; a head that is vacant already has nothing behind it. */
  method ZeroHeads<K, V>(arr: array<Bucket<K, V>>, ghost l: Layout<K, V>)
    requires Heads(arr, l)
    modifies l.buckets
    ensures Heads(arr, l) && forall k :: 0 <= k < arr.Length ==> arr[k].item.None?
  {
    for i := 0 to arr.Length
      invariant Heads(arr, l) && forall k :: 0 <= k < i ==> arr[k].item.None?
    {
      assert Head(arr[i], l, i);
      if arr[i].item.Some? {
        arr[i].item, arr[i].next := None, null;
      }
    }
  }

  /** Clearing every slot: the heads are zeroed, the buckets behind them forgotten. */
  method CleanAll<K, V>(arr: array<Bucket<K, V>>, ghost l: Layout<K, V>) returns (ghost l': Layout<K, V>)
    requires Stored(arr, l)
    modifies l.buckets
    ensures l'.buckets == l.buckets && l'.slots == EmptySlots(arr.Length) && Stored(arr, l')
  {
    StoredHeads(arr, l);
    SlotsOf(arr, l, 0);
    ZeroHeads(arr, l);
    ghost var chains := seq(arr.Length, k requires 0 <= k < arr.Length reads arr => [arr[k]]);
    l' := Layout(chains, EmptySlots(arr.Length), l.era, l.buckets);
    forall k | 0 <= k < arr.Length
      ensures Inside(chains[k], l.buckets) && Holds(arr[k], chains[k], [], l.era, k)
    {
      assert chains[k][1..] == [] && Head(arr[k], l, k);
    }
    FromSlots(arr, l', 0);
  }

  /** The size picked where `hint` slots are asked for. */
  ghost predicate Suits(hint: nat, size: nat) {
    size > 0 && Primes.IsNearest(Primes.PRIME_NUMBERS, hint, size)
  }

  /** The size of a new bucket array. */
  method SizeFor(hint: nat) returns (size: nat)
    ensures Suits(hint, size)
  {
    size := Primes.PrimeNearest(hint);
  }

  /** The array that replaces `old'` in a resize. */
  method Resized<K, V>(hash: K -> nat, old': array<Bucket<K, V>>, ghost o: Layout<K, V>)
    returns (arr: array<Bucket<K, V>>, collision: nat, ghost l: Layout<K, V>)
    requires Stored(old', o)
    modifies o.buckets
    ensures fresh(arr) && Stored(arr, l) && fresh(l.buckets - o.buckets) && Suits(|o.slots| + 1, |l.slots|)
    ensures |l.slots| > 0 && l.slots == Rehash(hash, o.slots, |l.slots|) && Placed(hash, l.slots)
    ensures |Entries(l.slots)| == |Entries(o.slots)| && collision == Collisions(l.slots)
  {
    var newSize := SizeFor(old'.Length + 1);
    RehashKeeps(hash, o.slots, newSize);
    arr, collision, l := Repopulate(hash, old', newSize, o);
  }

  datatype InsertResult = Inserted | EntryExists

  class Table<K(==), V> {
    const hash: K -> nat
    var arr: array<Bucket<K, V>>
    var count: nat
    var collision: nat
    ghost var layout: Layout<K, V>

    ghost predicate Valid()
      reads this, arr, layout.buckets
    {
      && Stored(arr, layout) && Placed(hash, layout.slots)
      && count == |Entries(layout.slots)| && collision == Collisions(layout.slots)
    }

    /** The slots the table stands for. */
    ghost function Slots(): Slots<K, V>
      reads this
    {
      layout.slots
    }

    /** `hash_table_new`. */
    constructor (hint: nat, hash: K -> nat)
      ensures Valid() && fresh(arr) && fresh(layout.buckets) && this.hash == hash
      ensures Entries(Slots()) == [] && (if hint == 0 then |Slots()| == 31 else Suits(hint, |Slots()|))
    {
      this.hash := hash;
      var size := 31;
      if hint != 0 {
        size := SizeFor(hint);
      }
      var a, l := NewArray(size, 0);
      arr, layout := a, l;
      count, collision := 0, 0;
      EntriesEmpty(l.slots);
    }

    /** Whether an insert resizes first: the ratio of entries to collisions is at most 2, the quotient
        by zero being infinite or undefined. */
    predicate Crowded()
      reads this
    {
      collision != 0 && count as real / collision as real <= 2.0
    }

    /** The resize at the start of an insert. */
    method Resize()
      requires Valid()
      modifies this, layout.buckets
      ensures Valid() && |Slots()| > 0 && Slots() == Rehash(hash, old(Slots()), |Slots()|)
      ensures Suits(|old(Slots())| + 1, |Slots()|)
      ensures fresh(arr) && fresh(layout.buckets - old(layout.buckets)) && count == old(count)
    {
      var a, coll, l := Resized(hash, arr, layout);
      arr, collision, layout := a, coll, l;
    }

    /** The insertion proper, after a possible resize. */
    method Put(key: K, data: V)
      requires Valid()
      modifies this, layout.buckets
      ensures Valid() && arr == old(arr) && fresh(layout.buckets - old(layout.buckets))
      ensures |old(Slots())| > 0 && Slots() == Insert(hash, old(Slots()), Entry(key, data))
    {
      RemIsMod(hash(key), arr.Length);
      var idx := hash(key) % arr.Length;
      InsertCounts(hash, layout.slots, Entry(key, data));
      InsertPlaces(hash, layout.slots, Entry(key, data));
      SlotAt(arr, layout, 0, idx);
      EmptyHead(arr[idx], layout.chains[idx], layout.era, idx);
      var more := if arr[idx].item.Some? then 1 else 0;
      ghost var l := InsertInto(arr, idx, Entry(key, data), layout);
      collision, count, layout := collision + more, count + 1, l;
    }

    /** `_hash_table_insert`. */
    method HashInsert(key: K, data: V)
      requires Valid()
      modifies this, layout.buckets
      ensures Valid() && fresh(layout.buckets - old(layout.buckets))
      ensures if old(Crowded()) then fresh(arr) else arr == old(arr)
      ensures |old(Slots())| > 0 && |Slots()| > 0 && (old(Crowded()) ==> Suits(|old(Slots())| + 1, |Slots()|))
      ensures var before := if old(Crowded()) then Rehash(hash, old(Slots()), |Slots()|) else old(Slots());
              Slots() == Insert(hash, before, Entry(key, data))
    {
      if Crowded() {
        Resize();
      }
      Put(key, data);
    }

    /** `hash_table_lookup`: None stands for every code other than `ret_ok`. */
    method HashLookup(key: K) returns (r: Option<V>)
      requires Valid()
      ensures |Slots()| > 0 && r == Lookup(hash, Slots(), key)
    {
      RemIsMod(hash(key), arr.Length);
      var idx := hash(key) % arr.Length;
      SlotAt(arr, layout, 0, idx);
      ItemsOf(arr[idx], layout.chains[idx], layout.era, idx);
      var nb := ChainFind(arr[idx], key, layout.chains[idx], layout.era, idx);
      r := if nb == null then None else Some(nb.item.value.data);
    }

    /** `hash_table_insert_unique`. */
    method HashInsertUnique(key: K, data: V) returns (r: InsertResult)
      requires Valid()
      modifies this, layout.buckets
      ensures Valid() && fresh(layout.buckets - old(layout.buckets)) && (arr == old(arr) || fresh(arr))
      ensures |old(Slots())| > 0 && |Slots()| > 0
      ensures r.Inserted? && old(Crowded()) ==> Suits(|old(Slots())| + 1, |Slots()|)
      ensures r == if Lookup(hash, old(Slots()), key).Some? then EntryExists else Inserted
      ensures Slots() == if r.EntryExists? then old(Slots()) else
                           var before := if old(Crowded()) then Rehash(hash, old(Slots()), |Slots()|) else old(Slots());
                           Insert(hash, before, Entry(key, data))
    {
      var found := HashLookup(key);
      if found.Some? {
        return EntryExists;
      }
      HashInsert(key, data);
      return Inserted;
    }

    /** `hash_table_remove`. */
    method HashRemove(key: K) returns (ok: bool)
      requires Valid()
      modifies this, layout.buckets
      ensures Valid() && arr == old(arr) && layout.buckets == old(layout.buckets)
      ensures |old(Slots())| > 0 && Slots() == Remove(hash, old(Slots()), key)
      ensures ok == Lookup(hash, old(Slots()), key).Some?
    {
      var n, coll;
      ghost var l;
      ok, n, coll, l := RemoveKey(hash, arr, key, count, collision, layout);
      count, collision, layout := n, coll, l;
    }

    /** `hash_table_replace`. */
    method HashReplace(key: K, data: V) returns (ok: bool)
      requires Valid()
      modifies this, layout.buckets
      ensures Valid() && arr == old(arr) && layout.buckets == old(layout.buckets)
      ensures |old(Slots())| > 0 && Slots() == Replace(hash, old(Slots()), key, data)
      ensures ok == Lookup(hash, old(Slots()), key).Some?
    {
      RemIsMod(hash(key), arr.Length);
      var idx := hash(key) % arr.Length;
      ReplacePlaces(hash, layout.slots, key, data);
      ReplaceCounts(hash, layout.slots, key, data);
      ghost var l;
      ok, l := ReplaceIn(arr, idx, key, data, layout);
      layout := l;
    }

    /** `hash_table_clean`. */
    method HashClean()
      requires Valid()
      modifies this, layout.buckets
      ensures Valid() && arr == old(arr) && layout.buckets == old(layout.buckets)
      ensures Slots() == EmptySlots(|old(Slots())|) && Entries(Slots()) == []
    {
      ghost var l := CleanAll(arr, layout);
      EntriesEmpty(l.slots);
      count, collision, layout := 0, 0, l;
    }
  }

  /** `struct hash_table_iter`; the ghost field is the position of `bucket` in its chain. */
  class Iterator<K(==), V> {
    const table: Table<K, V>
    var bucket: Bucket?<K, V>
    var idx: nat
    ghost var at: nat

    ghost predicate Valid()
      reads this, table, table.arr, table.layout.buckets
    {
      table.Valid() && StandsAt(table.layout, bucket, idx, at)
    }

    /** The entries still to come. */
    ghost function Rest(): seq<Entry<K, V>>
      requires Valid()
      reads this, table, table.arr, table.layout.buckets
    {
      Remaining(table.Slots(), idx, if bucket == null then None else Some(at))
    }

    /** `hash_table_iterate_init`. */
    constructor (table: Table<K, V>)
      requires table.Valid()
      ensures this.table == table && Valid() && Rest() == Entries(table.Slots())
    {
      this.table := table;
      bucket, idx := null, 0;
      new;
      assert table.Slots()[0..] == table.Slots();
    }

    /** `hash_table_iterate`: None when it returns FALSE. */
    method Next() returns (r: Option<Entry<K, V>>)
      requires Valid()
      modifies this
      ensures Valid()
      ensures old(Rest()) == if r.Some? then [r.value] + Rest() else []
      ensures r.None? ==> Rest() == []
    {
      var b, i;
      ghost var pos;
      r, b, i, pos := Advance(table.arr, bucket, idx, at, table.layout);
      bucket, idx, at := b, i, pos;
    }
  }

  /** An iteration stands before slot `idx`, or at a bucket of it. */
  ghost predicate StandsAt<K, V>(l: Layout<K, V>, bucket: Bucket?<K, V>, idx: nat, at: nat) {
    && idx <= |l.chains| == |l.slots|
    && (bucket != null ==>
          && idx < |l.chains| && at < |l.slots[idx]| == |l.chains[idx]| && l.chains[idx][at] == bucket)
  }

  /** What an iteration has still to yield: at a position in slot `i`, or before slot `i`. */
  ghost function Remaining<K, V>(s: Slots<K, V>, i: nat, at: Option<nat>): seq<Entry<K, V>>
    requires i <= |s| && (at.Some? ==> i < |s| && at.value <= |s[i]|)
  {
    match at
    case None => Entries(s[i..])
    case Some(j) => s[i][j..] + Entries(s[i + 1..])
  }

  lemma RemainingStep<K, V>(s: Slots<K, V>, i: nat, j: nat)
    requires i < |s| && j < |s[i]|
    ensures Remaining(s, i, Some(j)) == [s[i][j]] + Remaining(s, i, Some(j + 1))
    ensures j + 1 == |s[i]| ==> Remaining(s, i, Some(j + 1)) == Remaining(s, i + 1, None)
  {
    var slot, rest := s[i], Entries(s[i + 1..]);
    assert slot[j..] == [slot[j]] + slot[j + 1..];
    assert slot[j..] + rest == [slot[j]] + (slot[j + 1..] + rest);
    assert [] + rest == rest;
  }

  lemma RemainingSlot<K, V>(s: Slots<K, V>, i: nat)
    requires i < |s|
    ensures Remaining(s, i, None) == Remaining(s, i, Some(0))
    ensures s[i] == [] ==> Remaining(s, i, None) == Remaining(s, i + 1, None)
  {
    assert s[i..][0] == s[i] && s[i..][1..] == s[i + 1..] && s[i][0..] == s[i];
  }

  /** The loop to the next slot that is not empty. */
  method SkipEmpty<K, V>(arr: array<Bucket<K, V>>, idx: nat, ghost l: Layout<K, V>) returns (i: nat)
    requires Stored(arr, l) && idx <= arr.Length
    ensures idx <= i <= arr.Length == |l.slots| && Remaining(l.slots, i, None) == Remaining(l.slots, idx, None)
    ensures if i < arr.Length then l.slots[i] != [] && Remaining(l.slots, i, None) == Remaining(l.slots, i, Some(0))
            else Remaining(l.slots, i, None) == []
  {
    i := idx;
    while i < arr.Length
      invariant idx <= i <= arr.Length && Remaining(l.slots, i, None) == Remaining(l.slots, idx, None)
    {
      SlotAt(arr, l, 0, i);
      EmptyHead(arr[i], l.chains[i], l.era, i);
      RemainingSlot(l.slots, i);
      if arr[i].item.Some? {
        return;
      }
      i := i + 1;
    }
  }

  /** The body of `hash_table_iterate`. */
  method Advance<K, V>(arr: array<Bucket<K, V>>, bucket: Bucket?<K, V>, idx: nat, ghost at: nat, ghost l: Layout<K, V>)
    returns (r: Option<Entry<K, V>>, bucket': Bucket?<K, V>, idx': nat, ghost at': nat)
    requires Stored(arr, l) && StandsAt(l, bucket, idx, at)
    ensures StandsAt(l, bucket', idx', at')
    ensures var rest := Remaining(l.slots, idx', if bucket' == null then None else Some(at'));
            && Remaining(l.slots, idx, if bucket == null then None else Some(at))
               == (if r.Some? then [r.value] + rest else [])
            && (r.None? ==> rest == [])
  {
    bucket', idx', at' := bucket, idx, at;
    if bucket' == null {
      idx' := SkipEmpty(arr, idx, l);
      if idx' == arr.Length {
        return None, null, idx', at;
      }
      SlotAt(arr, l, 0, idx');
      ItemsOf(arr[idx'], l.chains[idx'], l.era, idx');
      bucket', at' := arr[idx'], 0;
    }
    r, bucket', idx', at' := YieldAndStep(arr, bucket', idx', at', l);
  }

  /** Yielding the entry of a bucket and stepping to the next one. */
  method YieldAndStep<K, V>(arr: array<Bucket<K, V>>, bucket: Bucket<K, V>, idx: nat, ghost at: nat,
      ghost l: Layout<K, V>)
    returns (r: Option<Entry<K, V>>, bucket': Bucket?<K, V>, idx': nat, ghost at': nat)
    requires Stored(arr, l) && StandsAt(l, bucket, idx, at)
    ensures StandsAt(l, bucket', idx', at')
    ensures r.Some?
    ensures Remaining(l.slots, idx, Some(at))
         == [r.value] + Remaining(l.slots, idx', if bucket' == null then None else Some(at'))
  {
    SlotAt(arr, l, 0, idx);
    ghost var c := l.chains[idx];
    ItemsOf(arr[idx], c, l.era, idx);
    RemainingStep(l.slots, idx, at);
    assert at + 1 < |c| ==> c[at].next == c[at + 1];
    r := bucket.item;
    if bucket.next != null {
      bucket', idx', at' := bucket.next, idx, at + 1;
    } else {
      bucket', idx', at' := null, idx + 1, at;
    }
  }

  lemma ItemsOf<K, V>(head: Bucket<K, V>, c: seq<Bucket<K, V>>, era: nat, slot: nat)
    requires Chain(head, c, era, slot)
    ensures head.item.None? ==> Items(c) == []
    ensures head.item.Some? ==> |Items(c)| == |c| && forall i :: 0 <= i < |c| ==> c[i].item == Some(Items(c)[i])
  {
    EmptyHead(head, c, era, slot);
    if head.item.Some? {
      ItemsAt(c);
    }
  }
}
