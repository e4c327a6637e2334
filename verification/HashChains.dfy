/** One chain of the hash table of src/hash.c: a head bucket embedded in the table's array, empty
    when its key is NULL, and the buckets behind it. */
module HashChains {
  import opened Basics
  import opened HashSlots

  /** `struct hash_bucket`; `item` is None when `key` is NULL.  The ghost fields say which table (the
      array it was made for, numbered) and which slot the bucket belongs to. */
  class Bucket<K, V> {
    var item: Option<Entry<K, V>>
    var next: Bucket?<K, V>
    ghost var era: nat
    ghost var slot: nat

    constructor (item: Option<Entry<K, V>>, next: Bucket?<K, V>, ghost era: nat, ghost slot: nat)
      ensures this.item == item && this.next == next && this.era == era && this.slot == slot
    {
      this.item, this.next, this.era, this.slot := item, next, era, slot;
    }
  }

  ghost predicate Linked<K, V>(c: seq<Bucket<K, V>>)
    reads c
  {
    && (forall i :: 0 <= i < |c| - 1 ==> c[i].next == c[i + 1])
    && (c != [] ==> c[|c| - 1].next == null)
  }

  ghost predicate Distinct<K, V>(c: seq<Bucket<K, V>>) {
    forall i, j :: 0 <= i < j < |c| ==> c[i] != c[j]
  }

  ghost predicate Full<K, V>(c: seq<Bucket<K, V>>)
    reads c
  {
    forall i :: 0 <= i < |c| ==> c[i].item.Some?
  }

  /** The chain of a slot: only the head can be empty, and only if it is alone. */
  ghost predicate Chain<K, V>(head: Bucket<K, V>, c: seq<Bucket<K, V>>, era: nat, slot: nat)
    reads c
  {
    && c != [] && c[0] == head && Linked(c) && Distinct(c)
    && (forall i :: 0 <= i < |c| ==> c[i].era == era && c[i].slot == slot)
    && (head.item.None? ==> |c| == 1) && (head.item.Some? ==> Full(c))
  }

  /** The entries stored in a chain. */
  ghost function Items<K, V>(c: seq<Bucket<K, V>>): (r: seq<Entry<K, V>>)
    reads c
  {
    if c == [] then []
    else (if c[0].item.Some? then [c[0].item.value] else []) + Items(c[1..])
  }

  lemma {:induction false} ItemsAt<K, V>(c: seq<Bucket<K, V>>)
    requires Full(c)
    ensures |Items(c)| == |c| && forall i :: 0 <= i < |c| ==> Items(c)[i] == c[i].item.value
  {
    if c != [] {
      ItemsAt(c[1..]);
    }
  }

  lemma ItemsIs<K, V>(c: seq<Bucket<K, V>>, items: seq<Entry<K, V>>)
    requires Full(c) && |items| == |c| && forall i :: 0 <= i < |c| ==> items[i] == c[i].item.value
    ensures Items(c) == items
  {
    ItemsAt(c);
  }

  /** `prev->next = nb->next` with `nb` behind `prev`. */
  method Unlink<K, V>(prev: Bucket<K, V>, nb: Bucket<K, V>, ghost c: seq<Bucket<K, V>>, ghost j: nat)
    returns (ghost c': seq<Bucket<K, V>>)
    requires Linked(c) && Distinct(c) && 0 < j < |c| && c[j - 1] == prev && c[j] == nb
    modifies prev`next
    ensures c' == c[..j] + c[j + 1..] && Linked(c') && Distinct(c')
  {
    prev.next := nb.next;
    c' := c[..j] + c[j + 1..];
    assert forall i :: 0 <= i < |c'| ==> c'[i] == c[if i < j then i else i + 1];
    assert forall i :: 0 <= i < |c| && i != j - 1 ==> c[i] != prev;
  }

  /** `bp->next = head->next; head->next = bp`. */
  method LinkBehind<K, V>(head: Bucket<K, V>, bp: Bucket<K, V>, ghost c: seq<Bucket<K, V>>)
    returns (ghost c': seq<Bucket<K, V>>)
    requires Linked(c) && Distinct(c) && c != [] && c[0] == head && bp !in c
    modifies head`next, bp`next
    ensures c' == [head, bp] + c[1..] && Linked(c') && Distinct(c')
  {
    bp.next := head.next;
    head.next := bp;
    c' := [head, bp] + c[1..];
    assert forall i :: 2 <= i < |c'| ==> c'[i] == c[i - 1] && c[i - 1] in c && c[i - 1] != head;
  }

  /** Hanging a bucket into a chain whose head is taken. */
  method ChainLink<K, V>(head: Bucket<K, V>, bp: Bucket<K, V>, ghost c: seq<Bucket<K, V>>, ghost era: nat,
      ghost slot: nat)
    returns (ghost c': seq<Bucket<K, V>>)
    requires Chain(head, c, era, slot) && head.item.Some?
    requires bp !in c && bp.item.Some? && bp.era == era && bp.slot == slot
    modifies head`next, bp`next
    ensures c' == [head, bp] + c[1..] && Chain(head, c', era, slot)
    ensures Items(c') == SlotInsert(old(Items(c)), bp.item.value)
  {
    ItemsAt(c);
    ghost var items := Items(c);
    c' := LinkBehind(head, bp, c);
    assert forall i :: 2 <= i < |c'| ==> c'[i] == c[i - 1];
    ItemsIs(c', [items[0], bp.item.value] + items[1..]);
  }

  /** Inserting into a chain: into the head if that is empty, else right behind it. */
  method ChainInsert<K, V>(head: Bucket<K, V>, e: Entry<K, V>, ghost c: seq<Bucket<K, V>>, ghost era: nat,
      ghost slot: nat)
    returns (ghost c': seq<Bucket<K, V>>)
    requires Chain(head, c, era, slot)
    modifies head
    ensures Chain(head, c', era, slot) && Items(c') == SlotInsert(old(Items(c)), e)
    ensures c' == c || (|c'| == |c| + 1 && fresh(c'[1]) && c' == [head, c'[1]] + c[1..])
  {
    if head.item.None? {
      head.item := Some(e);
      c' := c;
      assert c[1..] == [];
    } else {
      ghost var items := Items(c);
      var bp := new Bucket(Some(e), null, era, slot);
      assert bp !in c && Items(c) == items;
      c' := ChainLink(head, bp, c, era, slot);
    }
  }

  /** The loop shared by lookup, replace and the uniqueness test: the first bucket holding `key`. */
  method ChainFind<K(==), V>(head: Bucket<K, V>, key: K, ghost c: seq<Bucket<K, V>>, ghost era: nat, ghost slot: nat)
    returns (nb: Bucket?<K, V>)
    requires Chain(head, c, era, slot)
    ensures nb == match Find(Items(c), key) case None => null case Some(j) => if j < |c| then c[j] else null
    ensures nb != null ==> nb in c && nb.item.Some?
  {
    if head.item.None? {
      assert c[1..] == [];
      return null;
    }
    ItemsAt(c);
    nb := head;
    ghost var j := 0;
    while nb != null
      invariant j <= |c| && nb == (if j < |c| then c[j] else null)
      invariant forall k :: 0 <= k < j ==> c[k].item.value.key != key
      decreases |c| - j
    {
      if nb.item.value.key == key {
        FoundFirst(Items(c), key, j);
        return;
      }
      nb, j := nb.next, j + 1;
    }
    FoundNowhere(Items(c), key);
  }

  /** `nb->data = data`. */
  method SetItem<K, V>(head: Bucket<K, V>, nb: Bucket<K, V>, e: Entry<K, V>,
                       ghost c: seq<Bucket<K, V>>, ghost era: nat, ghost slot: nat, ghost j: nat)
    requires Chain(head, c, era, slot) && head.item.Some? && j < |c| && c[j] == nb
    modifies nb`item
    ensures Chain(head, c, era, slot)
    ensures |old(Items(c))| == |c| && Items(c) == old(Items(c))[j := e]
  {
    ItemsAt(c);
    ghost var items := Items(c);
    nb.item := Some(e);
    assert forall k :: 0 <= k < |c| && k != j ==> c[k] != nb;
    ItemsIs(c, items[j := e]);
  }

  /** Replacing the data of the first bucket holding `key`. */
  method ChainReplace<K(==), V>(head: Bucket<K, V>, key: K, data: V, ghost c: seq<Bucket<K, V>>, ghost era: nat,
      ghost slot: nat)
    returns (ok: bool)
    requires Chain(head, c, era, slot)
    modifies c
    ensures Chain(head, c, era, slot) && ok == Find(old(Items(c)), key).Some?
    ensures Items(c) == SlotReplace(old(Items(c)), key, data)
  {
    ghost var found := Find(Items(c), key);
    EmptyHead(head, c, era, slot);
    var nb := ChainFind(head, key, c, era, slot);
    if nb == null {
      return false;
    }
    SetItem(head, nb, Entry(key, data), c, era, slot, found.value);
    return true;
  }

  lemma EmptyHead<K, V>(head: Bucket<K, V>, c: seq<Bucket<K, V>>, era: nat, slot: nat)
    requires Chain(head, c, era, slot)
    ensures |Items(c)| == if head.item.Some? then |c| else 0
  {
    if head.item.Some? {
      ItemsAt(c);
    } else {
      assert c[1..] == [];
    }
  }

  /** Taking out the bucket at `j > 0`. */
  method ChainUnlink<K, V>(head: Bucket<K, V>, prev: Bucket<K, V>, nb: Bucket<K, V>,
                           ghost c: seq<Bucket<K, V>>, ghost era: nat, ghost slot: nat, ghost j: nat)
    returns (ghost c': seq<Bucket<K, V>>)
    requires Chain(head, c, era, slot) && 0 < j < |c| && c[j - 1] == prev && c[j] == nb
    modifies prev`next
    ensures c' == c[..j] + c[j + 1..] && Chain(head, c', era, slot)
    ensures |old(Items(c))| == |c| && Items(c') == Cut(old(Items(c)), j)
  {
    ItemsAt(c);
    ghost var items := Items(c);
    c' := Unlink(prev, nb, c, j);
    assert forall i :: 0 <= i < |c'| ==> c'[i] == c[if i < j then i else i + 1];
    ItemsIs(c', Cut(items, j));
  }

  /** The second bucket moves into the head. */
  method ChainPullUp<K, V>(head: Bucket<K, V>, ghost c: seq<Bucket<K, V>>, ghost era: nat, ghost slot: nat)
    returns (ghost c': seq<Bucket<K, V>>)
    requires Chain(head, c, era, slot) && head.item.Some? && head.next != null
    modifies head
    ensures Chain(head, c', era, slot) && (forall b :: b in c' ==> b in c)
    ensures |old(Items(c))| == |c| && Items(c') == old(Items(c))[1..]
  {
    ItemsAt(c);
    ghost var items := Items(c);
    assert |c| >= 2 && c[1] == head.next;
    var nb: Bucket<K, V> := head.next;
    c' := ChainUnlink(head, head, nb, c, era, slot, 1);
    SetItem(head, head, nb.item.value, c', era, slot, 0);
    assert Cut(items, 1)[0 := items[1]] == items[1..];
  }

  /** Removing the head's entry: the second bucket moves into the head, or the head is cleared. */
  method ChainRemoveHead<K, V>(head: Bucket<K, V>, ghost c: seq<Bucket<K, V>>, ghost era: nat, ghost slot: nat)
    returns (ghost c': seq<Bucket<K, V>>)
    requires Chain(head, c, era, slot) && head.item.Some?
    modifies head
    ensures Chain(head, c', era, slot) && (forall b :: b in c' ==> b in c)
    ensures |old(Items(c))| == |c| && Items(c') == old(Items(c))[1..]
  {
    if head.next != null {
      c' := ChainPullUp(head, c, era, slot);
    } else {
      ItemsAt(c);
      assert |c| == 1 && c[1..] == [];
      head.item := None;
      c' := c;
    }
  }

  /** `hash_table_remove` on one chain. */
  method ChainRemove<K(==), V>(head: Bucket<K, V>, key: K, ghost c: seq<Bucket<K, V>>, ghost era: nat, ghost slot: nat)
    returns (ok: bool, last: bool, ghost c': seq<Bucket<K, V>>)
    requires Chain(head, c, era, slot)
    modifies c
    ensures Chain(head, c', era, slot) && (forall b :: b in c' ==> b in c)
    ensures ok == Find(old(Items(c)), key).Some?
    ensures last == (ok && |c| == 1)
    ensures Items(c') == SlotRemove(old(Items(c)), key)
  {
    EmptyHead(head, c, era, slot);
    if head.item.None? {
      return false, false, c;
    }
    ItemsAt(c);
    ghost var items := Items(c);
    if head.item.value.key == key {
      last := head.next == null;
      c' := ChainRemoveHead(head, c, era, slot);
      FoundFirst(items, key, 0);
      assert Cut(items, 0) == items[1..];
      return true, last, c';
    }
    var prev := head;
    var nb := head.next;
    ghost var j := 1;
    while nb != null
      invariant 1 <= j <= |c| && nb == (if j < |c| then c[j] else null) && prev == c[j - 1]
      invariant forall k :: 0 <= k < j ==> items[k].key != key
      decreases |c| - j
    {
      if nb.item.value.key == key {
        FoundFirst(items, key, j);
        c' := ChainUnlink(head, prev, nb, c, era, slot, j);
        return true, false, c';
      }
      prev, nb, j := nb, nb.next, j + 1;
    }
    FoundNowhere(items, key);
    return false, false, c;
  }

  /** Moving a bucket of another table into this chain. */
  method ChainMove<K, V>(head: Bucket<K, V>, bp: Bucket<K, V>, isHead: bool,
                         ghost c: seq<Bucket<K, V>>, ghost era: nat, ghost slot: nat)
    returns (collided: bool, ghost c': seq<Bucket<K, V>>, ghost moved: Bucket<K, V>)
    requires Chain(head, c, era, slot) && bp !in c && bp.item.Some?
    modifies head, bp
    ensures collided == (old(Items(c)) != []) && Chain(head, c', era, slot)
    ensures Items(c') == SlotInsert(old(Items(c)), old(bp.item.value))
    ensures if collided then c' == [head, moved] + c[1..] && (moved == bp || fresh(moved)) else c' == c
  {
    EmptyHead(head, c, era, slot);
    ghost var e := bp.item.value;
    collided, c', moved := head.item.Some?, c, bp;
    if !collided {
      head.item := bp.item;
      assert c[1..] == [];
    } else {
      ghost var items := Items(c);
      var b := bp;
      if isHead {
        b := new Bucket<K, V>(bp.item, null, era, slot);
      }
      b.era, b.slot := era, slot;
      assert b !in c && Chain(head, c, era, slot) && Items(c) == items;
      c' := ChainLink(head, b, c, era, slot);
      moved := b;
    }
  }
}
