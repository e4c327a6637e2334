/** The order of entries with equal keys: each key is a little list of its own, and what a resize makes of it. */
module HashOrder {
  import opened Arith
  import opened Basics
  import opened HashSlots

  /** The data of a key in a slot, head first. */
  function Of<K(==), V>(slot: Slot<K, V>, key: K): seq<V> {
    if slot == [] then []
    else (if slot[0].key == key then [slot[0].data] else []) + Of(slot[1..], key)
  }

  /** The data of a key in its slot of the table. */
  function InTable<K(==), V>(hash: K -> nat, s: Slots<K, V>, key: K): seq<V>
    requires |s| > 0
  {
    Of(s[hash(key) % |s|], key)
  }

  lemma {:induction false} FindIsFirst<K, V>(slot: Slot<K, V>, key: K)
    ensures match Find(slot, key)
            case None => Of(slot, key) == []
            case Some(j) =>
              && Of(slot, key) != [] && Of(slot, key)[0] == slot[j].data
              && Of(Cut(slot, j), key) == Of(slot, key)[1..]
  {
    if slot != [] {
      if slot[0].key == key {
        assert Cut(slot, 0) == slot[1..];
      } else {
        FindIsFirst(slot[1..], key);
        match Find(slot[1..], key)
        case None =>
        case Some(j) => assert Cut(slot, j + 1) == [slot[0]] + Cut(slot[1..], j);
      }
    }
  }

  lemma {:induction false} CutOthers<K, V>(slot: Slot<K, V>, j: nat, key: K)
    requires j < |slot| && slot[j].key != key
    ensures Of(Cut(slot, j), key) == Of(slot, key)
  {
    if j == 0 {
      assert Cut(slot, 0) == slot[1..];
    } else {
      CutOthers(slot[1..], j - 1, key);
      assert Cut(slot, j) == [slot[0]] + Cut(slot[1..], j - 1);
    }
  }

  lemma OfFirst<K, V>(e: Entry<K, V>, rest: Slot<K, V>, key: K)
    ensures Of([e] + rest, key) == if e.key == key then [e.data] + Of(rest, key) else Of(rest, key)
  {
    assert ([e] + rest)[1..] == rest;
  }

  lemma {:induction false} ReplacedIs<K, V>(slot: Slot<K, V>, key: K, data: V)
    ensures var r := SlotReplace(slot, key, data);
            slot != [] ==>
              r == if slot[0].key == key then [Entry(key, data)] + slot[1..]
                   else [slot[0]] + SlotReplace(slot[1..], key, data)
  {
  }

  lemma {:induction false} FindReplaced<K, V>(slot: Slot<K, V>, key: K, data: V)
    ensures Of(SlotReplace(slot, key, data), key)
         == if Of(slot, key) == [] then [] else [data] + Of(slot, key)[1..]
  {
    if slot != [] {
      ReplacedIs(slot, key, data);
      if slot[0].key == key {
        OfFirst(Entry(key, data), slot[1..], key);
      } else {
        OfFirst(slot[0], SlotReplace(slot[1..], key, data), key);
        FindReplaced(slot[1..], key, data);
      }
    }
  }

  lemma {:induction false} ReplacedOthers<K, V>(slot: Slot<K, V>, key: K, data: V, other: K)
    requires other != key
    ensures Of(SlotReplace(slot, key, data), other) == Of(slot, other)
  {
    if slot != [] {
      ReplacedIs(slot, key, data);
      if slot[0].key == key {
        OfFirst(Entry(key, data), slot[1..], other);
      } else {
        OfFirst(slot[0], SlotReplace(slot[1..], key, data), other);
        ReplacedOthers(slot[1..], key, data, other);
      }
    }
  }

  /** Whether the head of the slot of the key has the key. */
  predicate Heads<K(==), V>(hash: K -> nat, s: Slots<K, V>, key: K)
    requires |s| > 0
  {
    var slot := s[hash(key) % |s|];
    slot != [] && slot[0].key == key
  }

  lemma InsertIs<K, V>(slot: Slot<K, V>, e: Entry<K, V>)
    requires slot != []
    ensures SlotInsert(slot, e) == [slot[0]] + ([e] + slot[1..]) && slot == [slot[0]] + slot[1..]
  {
  }

  /** Where the entry goes among those of its key. */
  function Second<V>(data: V, ds: seq<V>, heads: bool): seq<V> {
    if heads && ds != [] then [ds[0]] + ([data] + ds[1..]) else [data] + ds
  }

  lemma OwnInserted<K, V>(slot: Slot<K, V>, e: Entry<K, V>)
    ensures Of(SlotInsert(slot, e), e.key) == Second(e.data, Of(slot, e.key), slot != [] && slot[0].key == e.key)
  {
    if slot == [] {
      OfFirst(e, [], e.key);
      assert [e] + [] == [e];
    } else {
      InsertIs(slot, e);
      OfFirst(slot[0], [e] + slot[1..], e.key);
      OfFirst(e, slot[1..], e.key);
      OfFirst(slot[0], slot[1..], e.key);
      assert ([slot[0].data] + Of(slot[1..], e.key))[1..] == Of(slot[1..], e.key);
    }
  }

  lemma OthersInserted<K, V>(slot: Slot<K, V>, e: Entry<K, V>, other: K)
    requires other != e.key
    ensures Of(SlotInsert(slot, e), other) == Of(slot, other)
  {
    if slot == [] {
      OfFirst(e, [], other);
      assert [e] + [] == [e];
    } else {
      var first, tail := slot[0], slot[1..];
      InsertIs(slot, e);
      OfFirst(first, [e] + tail, other);
      OfFirst(e, tail, other);
      OfFirst(first, tail, other);
    }
  }

  /** An insert puts the data first, or second if the key is that of the head of its chain; a remove takes the first
      out, a replace exchanges it, a lookup answers it; other keys keep theirs. */
  lemma KeysAreLists<K, V>(hash: K -> nat, s: Slots<K, V>, key: K, data: V, other: K)
    requires |s| > 0
    ensures var old' := InTable(hash, s, key);
            && Lookup(hash, s, key) == (if old' == [] then None else Some(old'[0]))
            && InTable(hash, Remove(hash, s, key), key) == (if old' == [] then [] else old'[1..])
            && InTable(hash, Replace(hash, s, key, data), key) == (if old' == [] then [] else [data] + old'[1..])
            && InTable(hash, Insert(hash, s, Entry(key, data)), key)
               == Second(data, old', Heads(hash, s, key))
    ensures other != key ==>
              && InTable(hash, Remove(hash, s, key), other) == InTable(hash, s, other)
              && InTable(hash, Replace(hash, s, key, data), other) == InTable(hash, s, other)
              && InTable(hash, Insert(hash, s, Entry(key, data)), other) == InTable(hash, s, other)
  {
    RemIsMod(hash(key), |s|);
    var slot := s[hash(key) % |s|];
    FindIsFirst(slot, key);
    FindReplaced(slot, key, data);
    if other != key {
      ReplacedOthers(slot, key, data, other);
      OthersInserted(slot, Entry(key, data), other);
    }
    OwnInserted(slot, Entry(key, data));
    var j := Find(slot, key);
    if j.Some? && other != key {
      CutOthers(slot, j.value, other);
    }
  }

  // ----- after a resize -----

  /** The entries that belong into slot `i` of `n`. */
  function Hashed<K, V>(hash: K -> nat, es: seq<Entry<K, V>>, n: nat, i: nat): seq<Entry<K, V>>
    requires n > 0
  {
    if es == [] then []
    else (if hash(es[0].key) % n == i then [es[0]] else []) + Hashed(hash, es[1..], n, i)
  }

  /** A slot after entries have been inserted one by one: behind the head, the last first. */
  function Behind<K, V>(slot: Slot<K, V>, es: seq<Entry<K, V>>): Slot<K, V> {
    if es == [] then slot
    else if slot == [] then [es[0]] + Reversed(es[1..])
    else [slot[0]] + Reversed(es) + slot[1..]
  }

  lemma BehindOne<K, V>(slot: Slot<K, V>, es: seq<Entry<K, V>>)
    requires es != []
    ensures Behind(SlotInsert(slot, es[0]), es[1..]) == Behind(slot, es)
  {
    var s1 := SlotInsert(slot, es[0]);
    if slot != [] {
      assert s1[1..] == [es[0]] + slot[1..] && s1[0] == slot[0];
      if es[1..] != [] {
        var r := Reversed(es[1..]);
        assert [slot[0]] + r + ([es[0]] + slot[1..]) == [slot[0]] + (r + [es[0]]) + slot[1..];
      } else {
        assert Reversed(es) == [es[0]];
      }
    } else {
      assert s1[1..] == [] && [es[0]] + Reversed(es[1..]) + [] == [es[0]] + Reversed(es[1..]);
    }
  }

  lemma {:induction false} InsertAllSlot<K, V>(hash: K -> nat, s: Slots<K, V>, es: seq<Entry<K, V>>, i: nat)
    requires i < |s|
    ensures InsertAll(hash, s, es)[i] == Behind(s[i], Hashed(hash, es, |s|, i))
    decreases |es|
  {
    if es != [] {
      RemIsMod(hash(es[0].key), |s|);
      InsertAllSlot(hash, Insert(hash, s, es[0]), es[1..], i);
      var hs := Hashed(hash, es, |s|, i);
      if hash(es[0].key) % |s| == i {
        assert hs[0] == es[0] && hs[1..] == Hashed(hash, es[1..], |s|, i);
        BehindOne(s[i], hs);
      } else {
        assert hs == Hashed(hash, es[1..], |s|, i);
      }
    }
  }

  /** A resize leaves in each slot the entries that hash to it: the first of them, in the order of iteration, at its
      head, and behind it the others from the last to the second. */
  lemma RehashOrders<K, V>(hash: K -> nat, s: Slots<K, V>, n: nat, i: nat)
    requires i < n
    ensures var es := Hashed(hash, Entries(s), n, i);
            Rehash(hash, s, n)[i] == if es == [] then [] else [es[0]] + Reversed(es[1..])
  {
    InsertAllSlot(hash, EmptySlots(n), Entries(s), i);
  }
}
