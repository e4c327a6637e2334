/** The contents of a chained hash table, slot by slot, as plain sequences: what the operations of
    src/hash.c do to them, and why they behave as a multimap, and as a map when keys are unique. */
module HashSlots {
  import opened Arith
  import opened Basics

  datatype Entry<K, V> = Entry(key: K, data: V)

  /** The entries of a chain, head first. */
  type Slot<K, V> = seq<Entry<K, V>>

  type Slots<K, V> = seq<Slot<K, V>>

  function EmptySlots<K, V>(n: nat): (s: Slots<K, V>)
    ensures |s| == n && forall i :: 0 <= i < n ==> s[i] == []
  {
    if n == 0 then [] else EmptySlots(n - 1) + [[]]
  }

  /** All entries, in the order of iteration. */
  function Entries<K, V>(s: Slots<K, V>): seq<Entry<K, V>> {
    if s == [] then [] else s[0] + Entries(s[1..])
  }

  /** Entries that are not the head of their chain. */
  function Collisions<K, V>(s: Slots<K, V>): nat {
    if s == [] then 0 else (if s[0] == [] then 0 else |s[0]| - 1) + Collisions(s[1..])
  }

  /** The remainder by repeated subtraction. */
  function Rem(a: nat, n: nat): (r: nat)
    requires n > 0
    ensures r < n
  {
    if a < n then a else Rem(a - n, n)
  }

  lemma {:induction false} RemIsMod(a: nat, n: nat)
    requires n > 0
    ensures Rem(a, n) == a % n
    decreases a
  {
    if a >= n {
      RemIsMod(a - n, n);
      ModShift(a - n, 1, n);
    }
  }

  /** The slot of a key: its hash modulo the number of slots. */
  function Index<K, V>(hash: K -> nat, s: Slots<K, V>, key: K): (i: nat)
    requires |s| > 0
    ensures i < |s|
  {
    Rem(hash(key), |s|)
  }

  /** Every entry is in the slot its key hashes to. */
  ghost predicate Placed<K, V>(hash: K -> nat, s: Slots<K, V>) {
    |s| > 0 && forall i :: 0 <= i < |s| ==> AllIn(hash, s[i], |s|, i)
  }

  ghost predicate AllIn<K, V>(hash: K -> nat, slot: Slot<K, V>, n: nat, i: nat)
    requires n > 0
  {
    forall e :: e in slot ==> Rem(hash(e.key), n) == i
  }

  // ----- one slot -----

  /** A new entry goes right behind the head of its chain. */
  function SlotInsert<K, V>(slot: Slot<K, V>, e: Entry<K, V>): (r: Slot<K, V>)
    ensures |r| == |slot| + 1
  {
    if slot == [] then [e] else [slot[0], e] + slot[1..]
  }

  lemma SlotInsertAdds<K, V>(slot: Slot<K, V>, e: Entry<K, V>)
    ensures multiset(SlotInsert(slot, e)) == multiset(slot) + multiset{e}
  {
    if slot != [] {
      assert slot == [slot[0]] + slot[1..];
    }
  }

  /** The position of the first entry of a key. */
  function Find<K(==), V>(slot: Slot<K, V>, key: K): (r: Option<nat>)
    ensures r.Some? ==> r.value < |slot| && slot[r.value].key == key
    ensures r.Some? ==> forall j :: 0 <= j < r.value ==> slot[j].key != key
    ensures r.None? ==> forall j :: 0 <= j < |slot| ==> slot[j].key != key
  {
    if slot == [] then None
    else if slot[0].key == key then Some(0)
    else match Find(slot[1..], key)
      case None => None
      case Some(j) => Some(j + 1)
  }

  function Cut<T>(s: seq<T>, j: nat): (r: seq<T>)
    requires j < |s|
    ensures |r| == |s| - 1
  {
    s[..j] + s[j + 1..]
  }

  lemma CutTakes<T>(s: seq<T>, j: nat)
    requires j < |s|
    ensures multiset(Cut(s, j)) == multiset(s) - multiset{s[j]}
  {
    assert s == s[..j] + [s[j]] + s[j + 1..];
  }

  /** Removing from a slot takes out the first entry of the key, if there is one. */
  function SlotRemove<K(==), V>(slot: Slot<K, V>, key: K): Slot<K, V> {
    match Find(slot, key)
    case None => slot
    case Some(j) => Cut(slot, j)
  }

  /** Replacing in a slot exchanges the data of the first entry of the key, if there is one. */
  function SlotReplace<K(==), V>(slot: Slot<K, V>, key: K, data: V): (r: Slot<K, V>)
    ensures |r| == |slot|
  {
    match Find(slot, key)
    case None => slot
    case Some(j) => slot[j := Entry(key, data)]
  }

  lemma FoundFirst<K, V>(slot: Slot<K, V>, key: K, j: nat)
    requires j < |slot| && slot[j].key == key && forall k :: 0 <= k < j ==> slot[k].key != key
    ensures Find(slot, key) == Some(j)
  {
  }

  lemma FoundNowhere<K, V>(slot: Slot<K, V>, key: K)
    requires forall k :: 0 <= k < |slot| ==> slot[k].key != key
    ensures Find(slot, key) == None
  {
  }

  // ----- the table -----

  function Insert<K, V>(hash: K -> nat, s: Slots<K, V>, e: Entry<K, V>): (r: Slots<K, V>)
    requires |s| > 0
    ensures |r| == |s|
  {
    var i := Index(hash, s, e.key);
    s[i := SlotInsert(s[i], e)]
  }

  function Lookup<K(==), V>(hash: K -> nat, s: Slots<K, V>, key: K): Option<V>
    requires |s| > 0
  {
    var slot := s[Index(hash, s, key)];
    match Find(slot, key)
    case None => None
    case Some(j) => Some(slot[j].data)
  }

  function Remove<K(==), V>(hash: K -> nat, s: Slots<K, V>, key: K): (r: Slots<K, V>)
    requires |s| > 0
    ensures |r| == |s|
  {
    var i := Index(hash, s, key);
    s[i := SlotRemove(s[i], key)]
  }

  function Replace<K(==), V>(hash: K -> nat, s: Slots<K, V>, key: K, data: V): (r: Slots<K, V>)
    requires |s| > 0
    ensures |r| == |s|
  {
    var i := Index(hash, s, key);
    s[i := SlotReplace(s[i], key, data)]
  }

  /** Inserting a run of entries, first to last. */
  function InsertAll<K, V>(hash: K -> nat, s: Slots<K, V>, es: seq<Entry<K, V>>): (r: Slots<K, V>)
    requires |s| > 0
    ensures |r| == |s|
    decreases |es|
  {
    if es == [] then s else InsertAll(hash, Insert(hash, s, es[0]), es[1..])
  }

  lemma {:induction false} InsertAllAppend<K, V>(hash: K -> nat, s: Slots<K, V>, a: seq<Entry<K, V>>,
      b: seq<Entry<K, V>>)
    requires |s| > 0
    ensures InsertAll(hash, s, a + b) == InsertAll(hash, InsertAll(hash, s, a), b)
    decreases |a|
  {
    if a == [] {
      assert a + b == b;
    } else {
      assert (a + b)[0] == a[0] && (a + b)[1..] == a[1..] + b;
      InsertAllAppend(hash, Insert(hash, s, a[0]), a[1..], b);
    }
  }

  /** Resizing: everything moves to a table of another size, in the order of iteration. */
  function Rehash<K, V>(hash: K -> nat, s: Slots<K, V>, n: nat): (r: Slots<K, V>)
    requires n > 0
    ensures |r| == n
  {
    InsertAll(hash, EmptySlots(n), Entries(s))
  }

  // ----- what a change of one slot does to the whole -----

  lemma AddExchange<T>(a: multiset<T>, b: multiset<T>, out: multiset<T>, come: multiset<T>)
    requires out <= b
    ensures a + (b - out + come) == a + b - out + come
    ensures out <= a + b
  {
  }

  /** What goes out of a slot goes out of the table, and what comes in comes in. */
  lemma {:induction false} ExchangeInSlot<K, V>(s: Slots<K, V>, i: nat, slot: Slot<K, V>,
                                               out: multiset<Entry<K, V>>, come: multiset<Entry<K, V>>)
    requires i < |s| && out <= multiset(s[i])
    requires multiset(slot) == multiset(s[i]) - out + come
    ensures multiset(Entries(s[i := slot])) == multiset(Entries(s)) - out + come
    ensures out <= multiset(Entries(s))
  {
    var r := s[i := slot];
    var first, rest := multiset(s[0]), multiset(Entries(s[1..]));
    if i == 0 {
      assert r[1..] == s[1..];
      AddExchange(rest, first, out, come);
      assert multiset(Entries(r)) == rest + multiset(slot);
    } else {
      ExchangeInSlot(s[1..], i - 1, slot, out, come);
      assert r[1..] == s[1..][i - 1 := slot] && r[0] == s[0];
      AddExchange(first, rest, out, come);
      assert multiset(Entries(r)) == first + multiset(Entries(r[1..]));
    }
  }

  function Tail<K, V>(slot: Slot<K, V>): nat {
    if slot == [] then 0 else |slot| - 1
  }

  lemma {:induction false} CountsUpdate<K, V>(s: Slots<K, V>, i: nat, slot: Slot<K, V>)
    requires i < |s|
    ensures |Entries(s[i := slot])| + |s[i]| == |Entries(s)| + |slot|
    ensures Collisions(s[i := slot]) + Tail(s[i]) == Collisions(s) + Tail(slot)
  {
    var r := s[i := slot];
    if i == 0 {
      assert r[1..] == s[1..];
    } else {
      CountsUpdate(s[1..], i - 1, slot);
      assert r[1..] == s[1..][i - 1 := slot] && r[0] == s[0];
    }
  }

  lemma {:induction false} EntriesMembership<K, V>(s: Slots<K, V>, e: Entry<K, V>)
    ensures e in Entries(s) <==> exists i :: 0 <= i < |s| && e in s[i]
  {
    if s != [] {
      EntriesMembership(s[1..], e);
      assert e in Entries(s) <==> e in s[0] || e in Entries(s[1..]);
      if e in Entries(s[1..]) {
        var i :| 0 <= i < |s[1..]| && e in s[1..][i];
        assert e in s[i + 1];
      }
      forall i | 0 <= i < |s| && e in s[i]
        ensures e in Entries(s)
      {
        if i > 0 { assert e in s[1..][i - 1]; }
      }
    }
  }

  lemma {:induction false} EntriesEmpty<K, V>(s: Slots<K, V>)
    requires forall i :: 0 <= i < |s| ==> s[i] == []
    ensures Entries(s) == [] && Collisions(s) == 0
  {
    if s != [] {
      EntriesEmpty(s[1..]);
    }
  }

  // ----- the multimap -----

  /** In a placed table a key's entries are all in its own slot. */
  lemma InOwnSlot<K, V>(hash: K -> nat, s: Slots<K, V>, e: Entry<K, V>)
    requires Placed(hash, s)
    ensures e in Entries(s) <==> e in s[Index(hash, s, e.key)]
  {
    EntriesMembership(s, e);
    forall i | 0 <= i < |s| && e in s[i]
      ensures i == Index(hash, s, e.key)
    {
      assert AllIn(hash, s[i], |s|, i);
    }
  }

  /** Lookup finds an entry of the key exactly when there is one. */
  lemma LookupFinds<K, V>(hash: K -> nat, s: Slots<K, V>, key: K)
    requires Placed(hash, s)
    ensures Lookup(hash, s, key).Some? ==> Entry(key, Lookup(hash, s, key).value) in Entries(s)
    ensures Lookup(hash, s, key).None? ==> forall e :: e in Entries(s) ==> e.key != key
  {
    var slot := s[Index(hash, s, key)];
    match Find(slot, key)
    case Some(j) =>
      assert slot[j] in slot;
      InOwnSlot(hash, s, slot[j]);
    case None =>
      forall e | e in Entries(s)
        ensures e.key != key
      {
        InOwnSlot(hash, s, e);
      }
  }

  lemma InsertAdds<K, V>(hash: K -> nat, s: Slots<K, V>, e: Entry<K, V>)
    requires |s| > 0
    ensures multiset(Entries(Insert(hash, s, e))) == multiset(Entries(s)) + multiset{e}
  {
    var i := Index(hash, s, e.key);
    SlotInsertAdds(s[i], e);
    ExchangeInSlot(s, i, SlotInsert(s[i], e), multiset{}, multiset{e});
  }

  lemma InsertCounts<K, V>(hash: K -> nat, s: Slots<K, V>, e: Entry<K, V>)
    requires |s| > 0
    ensures |Entries(Insert(hash, s, e))| == |Entries(s)| + 1
    ensures Collisions(Insert(hash, s, e)) == Collisions(s) + (if s[Index(hash, s, e.key)] == [] then 0 else 1)
  {
    var i := Index(hash, s, e.key);
    CountsUpdate(s, i, SlotInsert(s[i], e));
  }

  lemma InsertPlaces<K, V>(hash: K -> nat, s: Slots<K, V>, e: Entry<K, V>)
    requires Placed(hash, s)
    ensures Placed(hash, Insert(hash, s, e))
  {
    var i := Index(hash, s, e.key);
    forall x | x in SlotInsert(s[i], e)
      ensures Rem(hash(x.key), |s|) == i
    {
      assert x == e || x in s[i];
    }
  }

  lemma FoundAt<K, V>(hash: K -> nat, s: Slots<K, V>, key: K) returns (i: nat, j: nat)
    requires |s| > 0 && Lookup(hash, s, key).Some?
    ensures i == Index(hash, s, key) && Find(s[i], key) == Some(j)
    ensures j < |s[i]| && s[i][j] == Entry(key, Lookup(hash, s, key).value)
  {
    i := Index(hash, s, key);
    j := Find(s[i], key).value;
  }

  /** Removing takes out one entry, the one lookup answers with. */
  lemma RemoveTakes<K, V>(hash: K -> nat, s: Slots<K, V>, key: K)
    requires |s| > 0 && Lookup(hash, s, key).Some?
    ensures multiset(Entries(Remove(hash, s, key)))
         == multiset(Entries(s)) - multiset{Entry(key, Lookup(hash, s, key).value)}
  {
    var i, j := FoundAt(hash, s, key);
    assert s[i][j] in s[i];
    CutTakes(s[i], j);
    ExchangeInSlot(s, i, Cut(s[i], j), multiset{s[i][j]}, multiset{});
  }

  /** Removing or replacing a key that is not there changes nothing. */
  lemma RemoveMisses<K, V>(hash: K -> nat, s: Slots<K, V>, key: K)
    requires |s| > 0 && Lookup(hash, s, key).None?
    ensures Remove(hash, s, key) == s
  {
  }

  lemma ReplaceMisses<K, V>(hash: K -> nat, s: Slots<K, V>, key: K, data: V)
    requires |s| > 0 && Lookup(hash, s, key).None?
    ensures Replace(hash, s, key, data) == s
  {
  }

  lemma RemoveCounts<K, V>(hash: K -> nat, s: Slots<K, V>, key: K)
    requires |s| > 0 && Lookup(hash, s, key).Some?
    ensures |Entries(Remove(hash, s, key))| == |Entries(s)| - 1
    ensures Collisions(Remove(hash, s, key)) == Collisions(s) - (if |s[Index(hash, s, key)]| == 1 then 0 else 1)
  {
    var i, j := FoundAt(hash, s, key);
    CountsUpdate(s, i, Cut(s[i], j));
  }

  lemma RemovePlaces<K, V>(hash: K -> nat, s: Slots<K, V>, key: K)
    requires Placed(hash, s)
    ensures Placed(hash, Remove(hash, s, key))
  {
    var i := Index(hash, s, key);
    if Find(s[i], key).Some? {
      var j := Find(s[i], key).value;
      forall x | x in Cut(s[i], j)
        ensures x in s[i]
      {
      }
    }
  }

  lemma UpdateExchange<T>(s: seq<T>, j: nat, f: T)
    requires j < |s|
    ensures multiset(s[j := f]) == multiset(s) - multiset{s[j]} + multiset{f}
  {
  }

  /** Replacing exchanges the data of one entry, the one lookup answers with. */
  lemma ReplaceExchanges<K, V>(hash: K -> nat, s: Slots<K, V>, key: K, data: V)
    requires |s| > 0 && Lookup(hash, s, key).Some?
    ensures multiset(Entries(Replace(hash, s, key, data)))
         == multiset(Entries(s)) - multiset{Entry(key, Lookup(hash, s, key).value)} + multiset{Entry(key, data)}
  {
    var i, j := FoundAt(hash, s, key);
    var e, f := s[i][j], Entry(key, data);
    var slot := s[i][j := f];
    assert e in s[i];
    UpdateExchange(s[i], j, f);
    ExchangeInSlot(s, i, slot, multiset{e}, multiset{f});
  }

  lemma ReplaceCounts<K, V>(hash: K -> nat, s: Slots<K, V>, key: K, data: V)
    requires |s| > 0
    ensures |Entries(Replace(hash, s, key, data))| == |Entries(s)|
    ensures Collisions(Replace(hash, s, key, data)) == Collisions(s)
  {
    var i := Index(hash, s, key);
    CountsUpdate(s, i, SlotReplace(s[i], key, data));
  }

  lemma ReplacePlaces<K, V>(hash: K -> nat, s: Slots<K, V>, key: K, data: V)
    requires Placed(hash, s)
    ensures Placed(hash, Replace(hash, s, key, data))
  {
  }

  lemma FirstMultiset<T>(s: seq<T>)
    requires s != []
    ensures multiset(s) == multiset{s[0]} + multiset(s[1..])
  {
    assert s == [s[0]] + s[1..];
  }

  lemma {:induction false} InsertAllAdds<K, V>(hash: K -> nat, s: Slots<K, V>, es: seq<Entry<K, V>>)
    requires Placed(hash, s)
    ensures Placed(hash, InsertAll(hash, s, es))
    ensures multiset(Entries(InsertAll(hash, s, es))) == multiset(Entries(s)) + multiset(es)
    ensures |Entries(InsertAll(hash, s, es))| == |Entries(s)| + |es|
    decreases |es|
  {
    if es != [] {
      InsertAdds(hash, s, es[0]);
      InsertCounts(hash, s, es[0]);
      InsertPlaces(hash, s, es[0]);
      InsertAllAdds(hash, Insert(hash, s, es[0]), es[1..]);
      FirstMultiset(es);
    }
  }

  /** Resizing keeps every entry and puts it where it belongs. */
  lemma RehashKeeps<K, V>(hash: K -> nat, s: Slots<K, V>, n: nat)
    requires n > 0
    ensures Placed(hash, Rehash(hash, s, n))
    ensures multiset(Entries(Rehash(hash, s, n))) == multiset(Entries(s))
    ensures |Entries(Rehash(hash, s, n))| == |Entries(s)|
  {
    EntriesEmpty(EmptySlots<K, V>(n));
    InsertAllAdds(hash, EmptySlots(n), Entries(s));
  }
}
