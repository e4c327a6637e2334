/** The associative array of src/array.c on top of the hash table.  Variables are values: what the
    program copies with `var_copy` is the value itself. */
module AssocArray {
  import opened Basics
  import opened HashSlots
  import opened HashRefinement
  import opened HashTable

  const INITIAL_SIZE: nat := 32

  /** The map a run of settings leaves. */
  ghost function MapOf<K, V>(es: seq<Entry<K, V>>): map<K, V> {
    if es == [] then map[] else MapOf(es[..|es| - 1])[es[|es| - 1].key := es[|es| - 1].data]
  }

  /** No key is set twice. */
  ghost predicate UniqueKeys<K, V>(es: seq<Entry<K, V>>) {
    es == [] || (UniqueKeys(es[..|es| - 1]) && es[|es| - 1].key !in MapOf(es[..|es| - 1]))
  }

  lemma LastTaken<T>(es: seq<T>)
    requires es != []
    ensures multiset(es[..|es| - 1]) == multiset(es) - multiset{es[|es| - 1]} && es[|es| - 1] in multiset(es)
  {
    assert es == es[..|es| - 1] + [es[|es| - 1]];
  }

  lemma PutBack<K, V>(m: map<K, V>, k: K)
    requires k in m
    ensures (m - {k})[k := m[k]] == m
  {
  }

  lemma {:induction false} GraphIsUnique<K, V>(es: seq<Entry<K, V>>, m: map<K, V>)
    requires IsMap(multiset(es), m)
    ensures UniqueKeys(es) && MapOf(es) == m
  {
    if es == [] {
      assert m.Keys == {};
    } else {
      var e := es[|es| - 1];
      LastTaken(es);
      MapTakes(multiset(es), m, e);
      GraphIsUnique(es[..|es| - 1], m - {e.key});
      PutBack(m, e.key);
    }
  }

  lemma {:induction false} UniqueIsGraph<K, V>(es: seq<Entry<K, V>>)
    requires UniqueKeys(es)
    ensures IsMap(multiset(es), MapOf(es)) && |es| == |MapOf(es)|
  {
    if es != [] {
      var init, e := es[..|es| - 1], es[|es| - 1];
      assert es == init + [e];
      UniqueIsGraph(init);
      MapAdds(multiset(init), MapOf(init), e.key, e.data);
      assert multiset(es) == multiset(init) + multiset{e};
      assert MapOf(es).Keys == MapOf(init).Keys + {e.key};
    }
  }

  /** Settings carried out first to last. */
  ghost function Settle<K, V>(m: map<K, V>, es: seq<Entry<K, V>>): map<K, V>
    decreases |es|
  {
    if es == [] then m else Settle(m[es[0].key := es[0].data], es[1..])
  }

  lemma {:induction false} SettleSnoc<K, V>(m: map<K, V>, es: seq<Entry<K, V>>, e: Entry<K, V>)
    ensures Settle(m, es + [e]) == Settle(m, es)[e.key := e.data]
    decreases |es|
  {
    if es == [] {
      assert [e][1..] == [];
    } else {
      assert (es + [e])[1..] == es[1..] + [e];
      SettleSnoc(m[es[0].key := es[0].data], es[1..], e);
    }
  }

  lemma {:induction false} SettleIsMapOf<K, V>(es: seq<Entry<K, V>>)
    ensures Settle(map[], es) == MapOf(es)
  {
    if es != [] {
      SettleIsMapOf(es[..|es| - 1]);
      SettleSnoc(map[], es[..|es| - 1], es[|es| - 1]);
      assert es == es[..|es| - 1] + [es[|es| - 1]];
    }
  }

  lemma TableLookup<K, V>(hash: K -> nat, s: Slots<K, V>, key: K)
    requires Placed(hash, s) && UniqueKeys(Entries(s))
    ensures Lookup(hash, s, key) == var m := MapOf(Entries(s)); if key in m then Some(m[key]) else None
  {
    UniqueIsGraph(Entries(s));
    LookupIsHasKey(hash, s, key);
    MapHasKey(multiset(Entries(s)), MapOf(Entries(s)), key);
  }

  lemma TableRemove<K, V>(hash: K -> nat, s: Slots<K, V>, key: K)
    requires Placed(hash, s) && UniqueKeys(Entries(s))
    ensures UniqueKeys(Entries(Remove(hash, s, key)))
    ensures MapOf(Entries(Remove(hash, s, key))) == MapOf(Entries(s)) - {key}
    ensures |Entries(Remove(hash, s, key))| == |Entries(s)| - (if Lookup(hash, s, key).Some? then 1 else 0)
    ensures Lookup(hash, s, key).None? ==> Remove(hash, s, key) == s
  {
    var r, m, op := Remove(hash, s, key), MapOf(Entries(s)), OpRemove(key);
    UniqueIsGraph(Entries(s));
    StepRefines(hash, s, op);
    MapStepRefines(multiset(Entries(s)), m, op, Step(hash, s, op).1, multiset(Entries(r)));
    GraphIsUnique(Entries(r), m - {key});
    if Lookup(hash, s, key).Some? { RemoveCounts(hash, s, key); } else { RemoveMisses(hash, s, key); }
  }

  lemma TableInsert<K, V>(hash: K -> nat, s: Slots<K, V>, grow: Option<nat>, key: K, data: V)
    requires Placed(hash, s) && UniqueKeys(Entries(s)) && key !in MapOf(Entries(s)) && (grow.Some? ==> grow.value > 0)
    ensures var r := Insert(hash, Grown(hash, s, grow), Entry(key, data));
            && UniqueKeys(Entries(r)) && MapOf(Entries(r)) == MapOf(Entries(s))[key := data]
            && |Entries(r)| == |Entries(s)| + 1
  {
    var r := Insert(hash, Grown(hash, s, grow), Entry(key, data));
    UniqueIsGraph(Entries(s));
    GrownInserts(hash, s, grow, Entry(key, data));
    MapAdds(multiset(Entries(s)), MapOf(Entries(s)), key, data);
    GraphIsUnique(Entries(r), MapOf(Entries(s))[key := data]);
    InsertCounts(hash, Grown(hash, s, grow), Entry(key, data));
    if grow.Some? { RehashKeeps(hash, s, grow.value); }
  }

  class Array<K(==), V> {
    const table: Table<K, V>
    var nitems: nat

    ghost predicate Valid()
      reads this, table, table.arr, table.layout.buckets
    {
      table.Valid() && UniqueKeys(Entries(table.Slots())) && nitems == |Entries(table.Slots())|
    }

    /** The map the array stands for. */
    ghost function Model(): map<K, V>
      reads table
    {
      MapOf(Entries(table.Slots()))
    }

    /** `nitems` is the number of keys. */
    lemma CountsKeys()
      requires Valid()
      ensures nitems == |Model()|
    {
      UniqueIsGraph(Entries(table.Slots()));
    }

    /** `arr_new`; the hash function of string keys is a parameter. */
    constructor (hash: K -> nat)
      ensures Valid() && Model() == map[]
      ensures fresh(table) && fresh(table.arr) && fresh(table.layout.buckets) && table.hash == hash
    {
      table := new Table(INITIAL_SIZE, hash);
      nitems := 0;
    }

    /** `arr_get_item`. */
    method GetItem(key: K) returns (r: Option<V>)
      requires Valid()
      ensures r == if key in Model() then Some(Model()[key]) else None
    {
      r := table.HashLookup(key);
      TableLookup(table.hash, table.Slots(), key);
    }

    /** `arr_remove_item`. */
    method RemoveItem(key: K) returns (ok: bool)
      requires Valid()
      modifies this, table, table.layout.buckets
      ensures Valid() && table.arr == old(table.arr) && table.layout.buckets == old(table.layout.buckets)
      ensures ok == (key in old(Model())) && Model() == old(Model()) - {key}
    {
      TableLookup(table.hash, table.Slots(), key);
      TableRemove(table.hash, table.Slots(), key);
      var found := table.HashLookup(key);
      if found.None? {
        return false;
      }
      var removed := table.HashRemove(key);
      nitems := nitems - 1;
      return true;
    }

    /** `arr_set_item`: the old item is removed before the new one is inserted. */
    method SetItem(key: K, data: V)
      requires Valid()
      modifies this, table, table.layout.buckets
      ensures Valid() && fresh(table.layout.buckets - old(table.layout.buckets))
      ensures table.arr == old(table.arr) || fresh(table.arr)
      ensures Model() == old(Model())[key := data]
    {
      ghost var was := Model();
      var removed := RemoveItem(key);
      Add(key, data);
      assert (was - {key})[key := data] == was[key := data];
    }

    /** Inserting the item of a new key. */
    method Add(key: K, data: V)
      requires Valid() && key !in Model()
      modifies this, table, table.layout.buckets
      ensures Valid() && fresh(table.layout.buckets - old(table.layout.buckets))
      ensures table.arr == old(table.arr) || fresh(table.arr)
      ensures Model() == old(Model())[key := data]
    {
      ghost var s, crowded := table.Slots(), table.Crowded();
      table.HashInsert(key, data);
      TableInsert(table.hash, s, if crowded then Some(|table.Slots()|) else None, key, data);
      nitems := nitems + 1;
    }

    /** `arr_dup`: the items are set one by one in a new array. */
    method Dup() returns (copy: Array<K, V>)
      requires Valid()
      ensures fresh(copy) && fresh(copy.table) && fresh(copy.table.arr) && fresh(copy.table.layout.buckets)
      ensures copy.Valid() && copy.Model() == Model() && copy.nitems == nitems
    {
      copy := CopyTable(table);
      CountsKeys();
      copy.CountsKeys();
      copy.nitems := nitems;
    }
  }

  /** The copy shares nothing with the table being iterated. */
  ghost predicate Apart<K, V>(copy: Array<K, V>, iter: Iterator<K, V>)
    reads copy.table, iter.table
  {
    && copy.table != iter.table && copy.table.arr != iter.table.arr
    && copy.table.layout.buckets !! iter.table.layout.buckets
  }

  /** One round of `arr_dup`. */
  method CopyItem<K(==), V>(copy: Array<K, V>, iter: Iterator<K, V>) returns (more: bool)
    requires copy.Valid() && iter.Valid() && Apart(copy, iter)
    modifies copy, copy.table, copy.table.layout.buckets, iter
    ensures copy.Valid() && iter.Valid() && Apart(copy, iter)
    ensures fresh(copy.table.layout.buckets - old(copy.table.layout.buckets))
    ensures copy.table.arr == old(copy.table.arr) || fresh(copy.table.arr)
    ensures more == (old(iter.Rest()) != [])
    ensures if more then
              var e := old(iter.Rest())[0];
              iter.Rest() == old(iter.Rest())[1..] && copy.Model() == old(copy.Model())[e.key := e.data]
            else iter.Rest() == [] && copy.Model() == old(copy.Model())
  {
    var item := iter.Next();
    if item.None? {
      return false;
    }
    SetApart(copy, item.value, iter);
    return true;
  }

  /** Setting an item of the copy leaves the iteration where it is. */
  method SetApart<K(==), V>(copy: Array<K, V>, e: Entry<K, V>, iter: Iterator<K, V>)
    requires copy.Valid() && iter.Valid() && Apart(copy, iter)
    modifies copy, copy.table, copy.table.layout.buckets
    ensures copy.Valid() && iter.Valid() && Apart(copy, iter) && iter.Rest() == old(iter.Rest())
    ensures fresh(copy.table.layout.buckets - old(copy.table.layout.buckets))
    ensures copy.table.arr == old(copy.table.arr) || fresh(copy.table.arr)
    ensures copy.Model() == old(copy.Model())[e.key := e.data]
  {
    copy.SetItem(e.key, e.data);
  }

  /** The loop of `arr_dup`. */
  method CopyAll<K(==), V>(copy: Array<K, V>, iter: Iterator<K, V>)
    requires copy.Valid() && iter.Valid() && Apart(copy, iter)
    modifies copy, copy.table, copy.table.layout.buckets, iter
    ensures copy.Valid() && fresh(copy.table.layout.buckets - old(copy.table.layout.buckets))
    ensures copy.table.arr == old(copy.table.arr) || fresh(copy.table.arr)
    ensures copy.Model() == Settle(old(copy.Model()), old(iter.Rest()))
  {
    ghost var all := Settle(copy.Model(), iter.Rest());
    var more := true;
    while more
      invariant copy.Valid() && iter.Valid() && Apart(copy, iter)
      invariant fresh(copy.table.layout.buckets - old(copy.table.layout.buckets))
      invariant copy.table.arr == old(copy.table.arr) || fresh(copy.table.arr)
      invariant Settle(copy.Model(), iter.Rest()) == all && (!more ==> iter.Rest() == [])
      decreases |iter.Rest()|, more
    {
      more := CopyItem(copy, iter);
    }
  }

  /** A new array holding the items of a table. */
  method CopyTable<K(==), V>(table: Table<K, V>) returns (copy: Array<K, V>)
    requires table.Valid()
    ensures fresh(copy) && fresh(copy.table) && fresh(copy.table.arr) && fresh(copy.table.layout.buckets)
    ensures copy.Valid() && copy.Model() == MapOf(Entries(table.Slots()))
  {
    copy := new Array(table.hash);
    var iter := new Iterator(table);
    CopyAll(copy, iter);
    SettleIsMapOf(Entries(table.Slots()));
  }
}
