/** Runs of hash table operations refine a multimap, whatever triggers a resize and whatever size it
    picks; as long as keys are only added through the unique insert they refine a map. */
module HashRefinement {
  import opened Basics
  import opened HashSlots

  /** An operation; `grow` is the new size when the insertion resizes first. */
  datatype Op<K, V> =
    | OpInsert(key: K, data: V, grow: Option<nat>)
    | OpInsertUnique(key: K, data: V, grow: Option<nat>)
    | OpRemove(key: K)
    | OpReplace(key: K, data: V)
    | OpLookup(key: K)
    | OpClean

  datatype Reply<V> = Done | Flag(ok: bool) | Found(data: Option<V>)

  ghost predicate Sized<K, V>(op: Op<K, V>) {
    (op.OpInsert? || op.OpInsertUnique?) && op.grow.Some? ==> op.grow.value > 0
  }

  function Grown<K, V>(hash: K -> nat, s: Slots<K, V>, grow: Option<nat>): (r: Slots<K, V>)
    requires |s| > 0 && (grow.Some? ==> grow.value > 0)
    ensures |r| > 0
  {
    match grow
    case None => s
    case Some(n) => Rehash(hash, s, n)
  }

  /** What the table does. */
  function Step<K(==), V>(hash: K -> nat, s: Slots<K, V>, op: Op<K, V>): (r: (Slots<K, V>, Reply<V>))
    requires |s| > 0 && Sized(op)
    ensures |r.0| > 0
  {
    match op
    case OpInsert(key, data, grow) => (Insert(hash, Grown(hash, s, grow), Entry(key, data)), Done)
    case OpInsertUnique(key, data, grow) =>
      if Lookup(hash, s, key).Some? then (s, Flag(false))
      else (Insert(hash, Grown(hash, s, grow), Entry(key, data)), Flag(true))
    case OpRemove(key) => (Remove(hash, s, key), Flag(Lookup(hash, s, key).Some?))
    case OpReplace(key, data) => (Replace(hash, s, key, data), Flag(Lookup(hash, s, key).Some?))
    case OpLookup(key) => (s, Found(Lookup(hash, s, key)))
    case OpClean => (EmptySlots(|s|), Done)
  }

  ghost predicate HasKey<K, V>(m: multiset<Entry<K, V>>, key: K) {
    exists e :: e in m && e.key == key
  }

  /** What a multimap may do: an operation on a present key picks one of its entries. */
  ghost predicate MultimapStep<K, V>(m: multiset<Entry<K, V>>, op: Op<K, V>, r: Reply<V>, m': multiset<Entry<K, V>>) {
    match op
    case OpInsert(key, data, _) => r == Done && m' == m + multiset{Entry(key, data)}
    case OpInsertUnique(key, data, _) =>
      r == Flag(!HasKey(m, key)) && m' == if HasKey(m, key) then m else m + multiset{Entry(key, data)}
    case OpRemove(key) =>
      if HasKey(m, key) then r == Flag(true) && exists e :: e in m && e.key == key && m' == m - multiset{e}
      else r == Flag(false) && m' == m
    case OpReplace(key, data) =>
      if HasKey(m, key) then
        r == Flag(true) && exists e :: e in m && e.key == key && m' == m - multiset{e} + multiset{Entry(key, data)}
      else r == Flag(false) && m' == m
    case OpLookup(key) =>
      m' == m && r.Found? && (if HasKey(m, key) then r.data.Some? && Entry(key, r.data.value) in m else r.data.None?)
    case OpClean => r == Done && m' == multiset{}
  }

  lemma LookupIsHasKey<K, V>(hash: K -> nat, s: Slots<K, V>, key: K)
    requires Placed(hash, s)
    ensures Lookup(hash, s, key).Some? == HasKey(multiset(Entries(s)), key)
    ensures Lookup(hash, s, key).Some? ==> Entry(key, Lookup(hash, s, key).value) in multiset(Entries(s))
  {
    LookupFinds(hash, s, key);
  }

  lemma GrownInserts<K, V>(hash: K -> nat, s: Slots<K, V>, grow: Option<nat>, e: Entry<K, V>)
    requires Placed(hash, s) && (grow.Some? ==> grow.value > 0)
    ensures Placed(hash, Insert(hash, Grown(hash, s, grow), e))
    ensures multiset(Entries(Insert(hash, Grown(hash, s, grow), e))) == multiset(Entries(s)) + multiset{e}
  {
    if grow.Some? {
      RehashKeeps(hash, s, grow.value);
    }
    InsertAdds(hash, Grown(hash, s, grow), e);
    InsertPlaces(hash, Grown(hash, s, grow), e);
  }

  /** Every operation of a placed table is a step of the multimap and leaves the table placed. */
  lemma StepRefines<K, V>(hash: K -> nat, s: Slots<K, V>, op: Op<K, V>)
    requires Placed(hash, s) && Sized(op)
    ensures Placed(hash, Step(hash, s, op).0)
    ensures MultimapStep(multiset(Entries(s)), op, Step(hash, s, op).1, multiset(Entries(Step(hash, s, op).0)))
  {
    match op
    case OpInsert(key, data, grow) =>
      GrownInserts(hash, s, grow, Entry(key, data));
    case OpInsertUnique(key, data, grow) =>
      LookupIsHasKey(hash, s, key);
      GrownInserts(hash, s, grow, Entry(key, data));
    case OpRemove(key) =>
      LookupIsHasKey(hash, s, key);
      RemovePlaces(hash, s, key);
      if Lookup(hash, s, key).Some? { RemoveTakes(hash, s, key); } else { RemoveMisses(hash, s, key); }
    case OpReplace(key, data) =>
      LookupIsHasKey(hash, s, key);
      ReplacePlaces(hash, s, key, data);
      if Lookup(hash, s, key).Some? {
        ReplaceExchanges(hash, s, key, data);
      } else {
        ReplaceMisses(hash, s, key, data);
      }
    case OpLookup(key) =>
      LookupIsHasKey(hash, s, key);
    case OpClean =>
      EntriesEmpty(EmptySlots<K, V>(|s|));
  }

  // ----- runs -----

  function Run<K(==), V>(hash: K -> nat, s: Slots<K, V>, ops: seq<Op<K, V>>): (r: (Slots<K, V>, seq<Reply<V>>))
    requires |s| > 0 && forall op :: op in ops ==> Sized(op)
    decreases |ops|
  {
    if ops == [] then (s, []) else
      var (s1, r) := Step(hash, s, ops[0]);
      var (s2, rs) := Run(hash, s1, ops[1..]);
      (s2, [r] + rs)
  }

  ghost predicate MultimapRun<K(!new), V(!new)>(m: multiset<Entry<K, V>>, ops: seq<Op<K, V>>, rs: seq<Reply<V>>,
      m': multiset<Entry<K, V>>)
    decreases |ops|
  {
    if ops == [] then rs == [] && m' == m
    else rs != [] && exists m1 :: MultimapStep(m, ops[0], rs[0], m1) && MultimapRun(m1, ops[1..], rs[1..], m')
  }

  lemma {:induction false} RunRefinesFrom<K(!new), V(!new)>(hash: K -> nat, s: Slots<K, V>, ops: seq<Op<K, V>>)
    requires Placed(hash, s) && forall op :: op in ops ==> Sized(op)
    ensures Placed(hash, Run(hash, s, ops).0)
    ensures MultimapRun(multiset(Entries(s)), ops, Run(hash, s, ops).1, multiset(Entries(Run(hash, s, ops).0)))
    decreases |ops|
  {
    if ops != [] {
      var (s1, r) := Step(hash, s, ops[0]);
      var (s2, rs) := Run(hash, s1, ops[1..]);
      StepRefines(hash, s, ops[0]);
      RunRefinesFrom(hash, s1, ops[1..]);
      assert ([r] + rs)[0] == r && ([r] + rs)[1..] == rs;
      assert MultimapStep(multiset(Entries(s)), ops[0], r, multiset(Entries(s1)));
    }
  }

  /** Any run of operations on a new table, of any size, answers as a multimap would. */
  lemma RunRefines<K(!new), V(!new)>(hash: K -> nat, n: nat, ops: seq<Op<K, V>>)
    requires n > 0 && forall op :: op in ops ==> Sized(op)
    ensures Placed(hash, Run(hash, EmptySlots(n), ops).0)
    ensures var (s, rs) := Run(hash, EmptySlots(n), ops); MultimapRun(multiset{}, ops, rs, multiset(Entries(s)))
  {
    EntriesEmpty(EmptySlots<K, V>(n));
    RunRefinesFrom(hash, EmptySlots(n), ops);
  }

  // ----- with unique keys only -----

  /** The bag is the graph of the map: one entry for each key. */
  ghost predicate IsMap<K, V>(bag: multiset<Entry<K, V>>, m: map<K, V>) {
    && (forall e :: e in bag ==> bag[e] == 1 && e.key in m && m[e.key] == e.data)
    && (forall k :: k in m ==> Entry(k, m[k]) in bag)
  }

  function MapStep<K(==), V>(m: map<K, V>, op: Op<K, V>): (map<K, V>, Reply<V>)
    requires !op.OpInsert?
  {
    match op
    case OpInsertUnique(key, data, _) => if key in m then (m, Flag(false)) else (m[key := data], Flag(true))
    case OpRemove(key) => (m - {key}, Flag(key in m))
    case OpReplace(key, data) => if key in m then (m[key := data], Flag(true)) else (m, Flag(false))
    case OpLookup(key) => (m, Found(if key in m then Some(m[key]) else None))
    case OpClean => (map[], Done)
  }

  lemma MapHasKey<K, V>(bag: multiset<Entry<K, V>>, m: map<K, V>, key: K)
    requires IsMap(bag, m)
    ensures HasKey(bag, key) == (key in m)
  {
    if key in m {
      assert Entry(key, m[key]) in bag;
    }
  }

  lemma MapAdds<K, V>(bag: multiset<Entry<K, V>>, m: map<K, V>, key: K, data: V)
    requires IsMap(bag, m) && key !in m
    ensures IsMap(bag + multiset{Entry(key, data)}, m[key := data])
  {
  }

  lemma MapTakes<K, V>(bag: multiset<Entry<K, V>>, m: map<K, V>, e: Entry<K, V>)
    requires IsMap(bag, m) && e in bag
    ensures IsMap(bag - multiset{e}, m - {e.key})
  {
  }

  lemma MapExchanges<K, V>(bag: multiset<Entry<K, V>>, m: map<K, V>, e: Entry<K, V>, data: V)
    requires IsMap(bag, m) && e in bag
    ensures IsMap(bag - multiset{e} + multiset{Entry(e.key, data)}, m[e.key := data])
  {
    MapTakes(bag, m, e);
    MapAdds(bag - multiset{e}, m - {e.key}, e.key, data);
    assert (m - {e.key})[e.key := data] == m[e.key := data];
  }

  /** On a map, a step of the multimap is the step of the map. */
  lemma MapStepRefines<K, V>(bag: multiset<Entry<K, V>>, m: map<K, V>, op: Op<K, V>, r: Reply<V>,
      bag': multiset<Entry<K, V>>)
    requires IsMap(bag, m) && !op.OpInsert? && MultimapStep(bag, op, r, bag')
    ensures IsMap(bag', MapStep(m, op).0) && r == MapStep(m, op).1
  {
    if !op.OpClean? {
      MapHasKey(bag, m, op.key);
    }
    match op
    case OpInsertUnique(key, data, _) =>
      if key !in m { MapAdds(bag, m, key, data); }
    case OpRemove(key) =>
      if key in m {
        var e :| e in bag && e.key == key && bag' == bag - multiset{e};
        MapTakes(bag, m, e);
      } else {
        assert m - {key} == m;
      }
    case OpReplace(key, data) =>
      if key in m {
        var e :| e in bag && e.key == key && bag' == bag - multiset{e} + multiset{Entry(key, data)};
        MapExchanges(bag, m, e, data);
      }
    case OpLookup(key) =>
    case OpClean =>
  }

  /** A map has as many keys as its graph has entries. */
  lemma {:induction false} MapSize<K, V>(bag: multiset<Entry<K, V>>, m: map<K, V>)
    requires IsMap(bag, m)
    ensures |bag| == |m|
    decreases |bag|
  {
    if bag == multiset{} {
      assert m.Keys == {};
    } else {
      var e :| e in bag;
      MapTakes(bag, m, e);
      MapSize(bag - multiset{e}, m - {e.key});
      assert m.Keys == (m - {e.key}).Keys + {e.key};
    }
  }

  function MapRun<K(==), V>(m: map<K, V>, ops: seq<Op<K, V>>): (map<K, V>, seq<Reply<V>>)
    requires forall op :: op in ops ==> !op.OpInsert?
    decreases |ops|
  {
    if ops == [] then (m, []) else
      var (m1, r) := MapStep(m, ops[0]);
      var (m2, rs) := MapRun(m1, ops[1..]);
      (m2, [r] + rs)
  }

  /** Any run without the plain insert answers exactly as a map would. */
  lemma {:induction false} MapRunRefines<K, V>(hash: K -> nat, s: Slots<K, V>, m: map<K, V>, ops: seq<Op<K, V>>)
    requires Placed(hash, s) && IsMap(multiset(Entries(s)), m)
    requires forall op :: op in ops ==> Sized(op) && !op.OpInsert?
    ensures Run(hash, s, ops).1 == MapRun(m, ops).1
    ensures IsMap(multiset(Entries(Run(hash, s, ops).0)), MapRun(m, ops).0)
    ensures Placed(hash, Run(hash, s, ops).0)
    decreases |ops|
  {
    if ops != [] {
      var (s1, r) := Step(hash, s, ops[0]);
      StepRefines(hash, s, ops[0]);
      MapStepRefines(multiset(Entries(s)), m, ops[0], r, multiset(Entries(s1)));
      MapRunRefines(hash, s1, MapStep(m, ops[0]).0, ops[1..]);
    }
  }
}
