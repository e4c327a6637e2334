/** What assigning, combining and deleting do to names and array elements, and what an array literal is, by the
    values of the expressions in them. */
module Updates {
  import opened Ast
  import opened Basics
  import opened Semantics
  import opened Denotation
  import opened Assignments

  // ----- bindings -----

  /** The innermost binding of the name replaced. */
  function Rebind(scopes: seq<Scope>, name: string, v: Eval): (r: seq<Scope>)
    ensures |r| == |scopes|
  {
    if scopes == [] then []
    else if name in scopes[0] then [scopes[0][name := v]] + scopes[1..]
    else [scopes[0]] + Rebind(scopes[1..], name, v)
  }

  /** The innermost binding of the name taken out. */
  function Unbind(scopes: seq<Scope>, name: string): (r: seq<Scope>)
    ensures |r| == |scopes|
  {
    if scopes == [] then []
    else if name in scopes[0] then [scopes[0] - {name}] + scopes[1..]
    else [scopes[0]] + Unbind(scopes[1..], name)
  }

  /** A binding in the current scope. */
  function Bound(scopes: seq<Scope>, name: string, v: Eval): (r: seq<Scope>)
    ensures |r| == |scopes|
  {
    if scopes == [] then [] else [scopes[0][name := v]] + scopes[1..]
  }

  lemma UnderFirst(scopes: seq<Scope>, k: nat, x: Scope)
    requires 0 < k < |scopes|
    ensures [scopes[0]] + scopes[1..][k - 1 := x] == scopes[k := x]
  {
  }

  lemma NoneFound(scopes: seq<Scope>)
    requires scopes != []
    ensures [scopes[0]] + scopes[1..] == scopes
  {
  }

  lemma {:induction false} RebindIs(scopes: seq<Scope>, name: string, v: Eval)
    ensures match FindScope(scopes, name)
            case None => Rebind(scopes, name, v) == scopes
            case Some(k) => Rebind(scopes, name, v) == scopes[k := scopes[k][name := v]]
  {
    if scopes != [] && name !in scopes[0] {
      RebindIs(scopes[1..], name, v);
      match FindScope(scopes[1..], name)
      case None => NoneFound(scopes);
      case Some(k) => UnderFirst(scopes, k + 1, scopes[k + 1][name := v]);
    }
  }

  lemma {:induction false} UnbindIs(scopes: seq<Scope>, name: string)
    ensures match FindScope(scopes, name)
            case None => Unbind(scopes, name) == scopes
            case Some(k) => Unbind(scopes, name) == scopes[k := scopes[k] - {name}]
  {
    if scopes != [] && name !in scopes[0] {
      UnbindIs(scopes[1..], name);
      match FindScope(scopes[1..], name)
      case None => NoneFound(scopes);
      case Some(k) => UnderFirst(scopes, k + 1, scopes[k + 1] - {name});
    }
  }

  /** The new value is found, and every other name has the value it had. */
  lemma {:induction false} RebindFound(scopes: seq<Scope>, name: string, v: Eval, other: string)
    requires Found(scopes, name).Some?
    ensures Found(Rebind(scopes, name, v), name) == Some(v)
    ensures other != name ==> Found(Rebind(scopes, name, v), other) == Found(scopes, other)
  {
    if name !in scopes[0] {
      RebindFound(scopes[1..], name, v, other);
    }
  }

  lemma BoundFound(scopes: seq<Scope>, name: string, v: Eval, other: string)
    requires scopes != []
    ensures Found(Bound(scopes, name, v), name) == Some(v)
    ensures other != name ==> Found(Bound(scopes, name, v), other) == Found(scopes, other)
  {
  }

  // ----- setting a name or an element -----

  /** A name without index or a side-effect-free element. */
  predicate Target(t: Tree) {
    (t.Id? || t.Access?) && Pure(t)
  }

  /** Where the indices have values, what the array becomes; the indices are evaluated again with `st`. */
  function ElementSet(o: Ops, t: Tree, v: Value, m: map<string, Value>, st: State): Res
    requires t.Access? && Pure(t)
  {
    if !HasRoom(SlotsAll(o, t.ind, st.scopes), |st.stack|) then Asserted
    else match DenAll(o, t.ind, st.scopes)
      case None => Aborted
      case Some(vals) => Done(st.(scopes := Rebind(st.scopes, t.name, Array(m[o.key(vals) := v]))), Normal)
  }

  /** Setting a target to a value: a name in the current scope, an element in the innermost array of its name,
      which is a new one in the current scope if there is none. */
  function Written(o: Ops, t: Tree, v: Eval, st: State): Res
    requires Target(t)
  {
    match t
    case Id(name) => Done(st.(scopes := Bound(st.scopes, name, v)), Normal)
    case Access(name, ind) =>
      if v.Array? then Failed(st)
      else match Found(st.scopes, name)
        case None => ElementSet(o, t, v.v, map[], st.(scopes := Bound(st.scopes, name, Array(map[]))))
        case Some(Scalar(_)) => Failed(st)
        case Some(Array(m)) => ElementSet(o, t, v.v, m, st)
  }

  lemma IndexIs(o: Ops, fuel: nat, ind: seq<Tree>, st: State)
    requires AllPure(ind)
    ensures Index(o, fuel, ind, [], st)
         == if !HasRoom(SlotsAll(o, ind, st.scopes), |st.stack|) then KeyStop(Asserted)
            else match DenAll(o, ind, st.scopes) case None => KeyStop(Aborted) case Some(vals) => KeyIs(o.key(vals), st)
  {
    IndexEvaluation(o, fuel, ind, [], st);
    match DenAll(o, ind, st.scopes)
    case None =>
    case Some(vals) => assert [] + vals == vals;
  }

  lemma SetElementRuns(o: Ops, fuel: nat, t: Tree, v: Value, k: nat, st: State)
    requires t.Access? && Pure(t) && FindScope(st.scopes, t.name) == Some(k) && st.scopes[k][t.name].Array?
    ensures SetElement(o, fuel, t, v, k, st) == ElementSet(o, t, v, st.scopes[k][t.name].m, st)
  {
    IndexIs(o, fuel, t.ind, st);
    match DenAll(o, t.ind, st.scopes)
    case None =>
    case Some(vals) => RebindIs(st.scopes, t.name, Array(st.scopes[k][t.name].m[o.key(vals) := v]));
  }

  /** Setting a target is what the values of its indices say. */
  lemma SetRuns(o: Ops, fuel: nat, t: Tree, v: Eval, st: State)
    requires Target(t) && st.scopes != []
    ensures Set(o, fuel, t, v, st) == Written(o, t, v, st)
  {
    match t
    case Id(name) => assert st.scopes[0 := st.scopes[0][name := v]] == Bound(st.scopes, name, v);
    case Access(name, _) =>
      if v.Scalar? {
        FoundIs(st.scopes, name);
        match FindScope(st.scopes, name)
        case None =>
          var st1 := SetIn(st, 0, name, Array(map[]));
          assert st1.scopes == Bound(st.scopes, name, Array(map[]));
          SetElementRuns(o, fuel, t, v.v, 0, st1);
        case Some(k) =>
          if st.scopes[k][name].Array? {
            SetElementRuns(o, fuel, t, v.v, k, st);
          }
      }
  }

  /** After setting, the stack is as before, the name has the value or an array with it, and no other name has
      changed. */
  lemma WrittenReads(o: Ops, t: Tree, v: Eval, st: State, other: string)
    requires Target(t) && st.scopes != [] && Written(o, t, v, st).Done?
    ensures var st1 := Written(o, t, v, st).st;
            && st1 == st.(scopes := st1.scopes) && |st1.scopes| == |st.scopes|
            && (other != t.name ==> Found(st1.scopes, other) == Found(st.scopes, other))
            && match t
               case Id(name) => Found(st1.scopes, name) == Some(v)
               case Access(name, ind) =>
                 && v.Scalar? && Found(st1.scopes, name).Some? && Found(st1.scopes, name).value.Array?
                 && v.v in Found(st1.scopes, name).value.m.Values
  {
    match t
    case Id(name) => BoundFound(st.scopes, name, v, other);
    case Access(name, ind) =>
      var st0 := if Found(st.scopes, name).Some? then st else st.(scopes := Bound(st.scopes, name, Array(map[])));
      BoundFound(st.scopes, name, Array(map[]), other);
      var m := Found(st0.scopes, name).value.m[o.key(DenAll(o, ind, st0.scopes).value) := v.v];
      assert m[o.key(DenAll(o, ind, st0.scopes).value)] == v.v;
      RebindFound(st0.scopes, name, Array(m), other);
  }

  /** An element that has been set reads as its value while its indices mean the same. */
  lemma ElementReads(o: Ops, t: Tree, v: Value, m: map<string, Value>, st: State)
    requires t.Access? && Pure(t) && ElementSet(o, t, v, m, st).Done? && Found(st.scopes, t.name).Some?
    requires DenAll(o, t.ind, ElementSet(o, t, v, m, st).st.scopes) == DenAll(o, t.ind, st.scopes)
    ensures Den(o, t, ElementSet(o, t, v, m, st).st.scopes) == Is(Scalar(v))
  {
    RebindFound(st.scopes, t.name, Array(m[o.key(DenAll(o, t.ind, st.scopes).value) := v]), t.name);
  }

  // ----- assignment to one target -----

  /** An assignment of one expression to one target. */
  function One(t: Tree, e: Tree): Tree {
    Assign(Seq([t]), Seq([e]))
  }

  /** With the value of the right side, if it has one, `st1` being what its traverse leaves. */
  function AssignEnds(o: Ops, t: Tree, e: Tree, st: State): Res
    requires Target(t) && Pure(e)
  {
    if !HasRoom(Slots(o, e, st.scopes), |st.stack|) then Asserted
    else match Den(o, e, st.scopes)
      case Errs(xs) => Failed(st.(stack := st.stack + xs))
      case Dies => Aborted
      case Is(v) => if |st.stack| + 2 >= STACK_SZ then Asserted else Written(o, t, v, st)
  }

  lemma {:induction false} OneSide(o: Ops, fuel: nat, e: Tree, st: State)
    ensures ExecBack(o, fuel, [e], st)
         == match Exec(o, fuel, e, st) case Done(st1, _) => Done(st1, Normal) case r => r
  {
    assert [e][..0] == [];
    var r := Exec(o, fuel, e, st);
    if r.Done? {
      assert ExecBack(o, fuel, [], r.st) == Done(r.st, Normal);
    } else if r.Failed? {
      assert AfterBack(o, [], r.st) == Failed(r.st);
    }
  }

  lemma {:induction false} OneTarget(o: Ops, fuel: nat, t: Tree, v: Eval, st: State)
    ensures SetAll(o, fuel, [t], [v], st)
         == match Set(o, fuel, t, v, st) case Done(st1, _) => Done(st1, Normal) case r => r
  {
    var r := Set(o, fuel, t, v, st);
    if r.Done? {
      assert SetAll(o, fuel, [t][1..], [v][1..], r.st) == Done(r.st, Normal);
    }
  }

  /** The value of the right side is popped, set and pushed again. */
  lemma StoreOne(o: Ops, fuel: nat, t: Tree, v: Eval, st: State)
    requires Target(t) && st.scopes != []
    ensures var r := StoreTop(o, fuel, Seq([t]), st.(stack := st.stack + [v]));
            r == if |st.stack| + 2 >= STACK_SZ then Asserted
                 else if Written(o, t, v, st).Done? then
                   Done(Written(o, t, v, st).st.(stack := st.stack + [v]), Normal)
                 else Written(o, t, v, st)
  {
    var st1 := st.(stack := st.stack + [v]);
    PopNIs(st1, 1);
    if |st.stack| + 2 < STACK_SZ {
      assert TopDown(st1.stack, 1) == [Some(v)] && Below(st1.stack, 1) == st.stack;
      assert Values([Some(v)]) == [v];
      OneTarget(o, fuel, t, v, st);
      SetRuns(o, fuel, t, v, st);
      if Written(o, t, v, st).Done? {
        WrittenReads(o, t, v, st, t.name);
        PushAllIs(Written(o, t, v, st).st, [v]);
      }
    }
  }

  /** An assignment to a name or an element sets it to the value of the right side, in every state. */
  lemma AssignOne(o: Ops, fuel: nat, t: Tree, e: Tree, st: State)
    requires Target(t) && Pure(e) && st.scopes != []
    ensures Exec(o, fuel, One(t, e), st) == AssignEnds(o, t, e, st)
  {
    ExecIs(o, fuel, One(t, e), st);
    ExecIs(o, fuel, Seq([e]), st);
    OneSide(o, fuel, e, st);
    StackEvaluation(o, fuel, e, st);
    var v := Den(o, e, st.scopes);
    if v.Is? {
      StoreAndDrop(o, fuel, t, v.v, st);
    }
  }

  lemma StoreAndDrop(o: Ops, fuel: nat, t: Tree, v: Eval, st: State)
    requires Target(t) && st.scopes != []
    ensures var r := StoreTop(o, fuel, Seq([t]), st.(stack := st.stack + [v]));
            (if r.Done? then RemoveN(r.st, 1) else r)
            == if |st.stack| + 2 >= STACK_SZ then Asserted else Written(o, t, v, st)
  {
    StoreOne(o, fuel, t, v, st);
    var w := Written(o, t, v, st);
    if w.Done? {
      WrittenReads(o, t, v, st, t.name);
      RemovesPushed(w.st, [v]);
    }
  }

  // ----- the operators that assign -----

  /** The operands are combined and the target is set. */
  lemma CombineOne(o: Ops, fuel: nat, t: Tree, e: Tree, op: Opcode, st: State, x: Eval, y: Eval)
    requires Target(t) && st.scopes != []
    ensures StoreCombined(o, fuel, OpAssign(t, e, op), st.(stack := st.stack + [x] + [y]))
         == if |st.stack| + 3 >= STACK_SZ then Asserted
            else match DenBinary(o, op, x, y)
              case Is(v) => Written(o, t, v, st)
              case _ => Failed(st)
  {
    if |st.stack| + 3 < STACK_SZ {
      PushTwoThenPop(st, x, y);
      match DenBinary(o, op, x, y)
      case Is(v) => SetRuns(o, fuel, t, v, st);
      case _ =>
    }
  }

  lemma {:induction false} OpAssignOn(o: Ops, fuel: nat, t: Tree, e: Tree, op: Opcode, st: State)
    ensures match Exec(o, fuel, t, st)
            case Done(st1, _) => (
              var x := Exec(o, fuel, e, st1);
              Exec(o, fuel, OpAssign(t, e, op), st)
              == if x.Done? then StoreCombined(o, fuel, OpAssign(t, e, op), x.st) else x)
            case Failed(st1) => Exec(o, fuel, OpAssign(t, e, op), st) == After(o, e, st1)
            case x => Exec(o, fuel, OpAssign(t, e, op), st) == x
  {
    ExecIs(o, fuel, OpAssign(t, e, op), st);
  }

  /** With a value on the left. */
  lemma OpAssignRight(o: Ops, fuel: nat, t: Tree, e: Tree, op: Opcode, st: State, x: Eval)
    requires Target(t) && Pure(e) && st.scopes != [] && Faithful(o, fuel, t, st) && Den(o, t, st.scopes) == Is(x)
    requires Faithful(o, fuel, e, st.(stack := st.stack + [x]))
    ensures Exec(o, fuel, OpAssign(t, e, op), st) == AssignEnds(o, t, Binary(t, e, op), st)
  {
    var n, m, v := Slots(o, t, st.scopes), Slots(o, e, st.scopes), Den(o, e, st.scopes);
    OpAssignOn(o, fuel, t, e, op, st);
    assert Den(o, Binary(t, e, op), st.scopes) == WithLeft(o, op, x, v);
    assert Slots(o, Binary(t, e, op), st.scopes) == Max(n, RightSlots(m, v));
    if v.Is? {
      CombineOne(o, fuel, t, e, op, st, x, v.v);
      assert st.stack + [] == st.stack;
    } else if v.Errs? {
      assert (st.stack + [x]) + v.left == st.stack + ([x] + v.left);
    }
  }

  /** With an error on the left. */
  lemma OpAssignAfter(o: Ops, fuel: nat, t: Tree, e: Tree, op: Opcode, st: State, xs: seq<Eval>)
    requires Target(t) && Pure(e) && Faithful(o, fuel, t, st) && Den(o, t, st.scopes) == Errs(xs)
    ensures Exec(o, fuel, OpAssign(t, e, op), st) == AssignEnds(o, t, Binary(t, e, op), st)
  {
    var st1, ys := st.(stack := st.stack + xs), Later(e, st.scopes);
    AfterRuns(o, e, st1);
    var n := Slots(o, t, st.scopes);
    OpAssignOn(o, fuel, t, e, op, st);
    AfterEvaluates(Exec(o, fuel, t, st), After(o, e, st1), n, xs, ys, st);
    assert Den(o, Binary(t, e, op), st.scopes) == Errs(xs + ys);
    assert Slots(o, Binary(t, e, op), st.scopes) == Max(n, Atop(xs, ys));
  }

  lemma OpAssignEnds(o: Ops, fuel: nat, t: Tree, e: Tree, op: Opcode, st: State)
    requires Target(t) && Pure(e) && st.scopes != []
    ensures Exec(o, fuel, OpAssign(t, e, op), st) == AssignEnds(o, t, Binary(t, e, op), st)
  {
    StackEvaluation(o, fuel, t, st);
    match Den(o, t, st.scopes)
    case Is(x) =>
      StackEvaluation(o, fuel, e, st.(stack := st.stack + [x]));
      OpAssignRight(o, fuel, t, e, op, st, x);
    case Errs(xs) => OpAssignAfter(o, fuel, t, e, op, st, xs);
    case Dies => OpAssignOn(o, fuel, t, e, op, st);
  }

  /** `x op= e` is `x = x op e`, for names and elements, in every state and with every end. */
  lemma OpAssignIsAssign(o: Ops, fuel: nat, t: Tree, e: Tree, op: Opcode, st: State)
    requires Target(t) && Pure(e) && st.scopes != []
    ensures Exec(o, fuel, OpAssign(t, e, op), st) == Exec(o, fuel, One(t, Binary(t, e, op)), st)
  {
    OpAssignEnds(o, fuel, t, e, op, st);
    AssignOne(o, fuel, t, Binary(t, e, op), st);
  }

  /** `x op= e` with the value `a` of the name and the value `b` of the expression: it succeeds exactly when the
      operator has a value for them in this order and the slots are there; the name has that value in the current
      scope, and nothing else has changed. */
  lemma OpAssignCombines(o: Ops, fuel: nat, name: string, e: Tree, op: Opcode, st: State, a: Value, b: Value)
    requires Pure(e) && st.scopes != []
    requires Found(st.scopes, name) == Some(Scalar(a)) && Den(o, e, st.scopes) == Is(Scalar(b))
    ensures var r := Exec(o, fuel, OpAssign(Id(name), e, op), st);
            && (r.Done? <==> o.binary(op, a, b).Some? && HasRoom(Max(3, Slots(o, e, st.scopes) + 1), |st.stack|))
            && (r.Done? ==>
                  var scope := st.scopes[0][name := Scalar(o.binary(op, a, b).value)];
                  r == Done(st.(scopes := [scope] + st.scopes[1..]), Normal))
  {
    OpAssignEnds(o, fuel, Id(name), e, op, st);
    SlotsAsked(o, e, st.scopes);
    assert Slots(o, Binary(Id(name), e, op), st.scopes) == Max(1, RightSlots(Slots(o, e, st.scopes), Is(Scalar(b))));
  }

  lemma {:induction false} SlotsAsked(o: Ops, t: Tree, scopes: seq<Scope>)
    requires Pure(t) && Den(o, t, scopes).Is?
    ensures Slots(o, t, scopes) > 0
    decreases t
  {
    match t
    case Ternary(c, _, _) => SlotsAsked(o, c, scopes);
    case _ =>
  }

  // ----- deleting -----

  /** Deleting the innermost binding of a name, or one element of it. */
  function Deleted(o: Ops, t: Tree, st: State): Res
    requires Target(t)
  {
    if Found(st.scopes, t.name).None? then Failed(st)
    else match t
      case Id(name) => Done(st.(scopes := Unbind(st.scopes, name)), Normal)
      case Access(name, ind) =>
        if !HasRoom(SlotsAll(o, ind, st.scopes), |st.stack|) then Asserted
        else if DenAll(o, ind, st.scopes).None? || Found(st.scopes, name).value.Scalar? then Aborted
        else
          var m, key := Found(st.scopes, name).value.m, o.key(DenAll(o, ind, st.scopes).value);
          if key in m then Done(st.(scopes := Rebind(st.scopes, name, Array(m - {key}))), Normal) else Failed(st)
  }

  lemma DeleteRuns(o: Ops, fuel: nat, t: Tree, st: State)
    requires Target(t)
    ensures Exec(o, fuel, Del(t), st) == Deleted(o, t, st)
  {
    ExecIs(o, fuel, Del(t), st);
    FoundIs(st.scopes, t.name);
    match t
    case Id(name) => UnbindIs(st.scopes, name);
    case Access(name, ind) =>
      IndexIs(o, fuel, ind, st);
      match DenAll(o, ind, st.scopes)
      case None =>
      case Some(vals) =>
        if Found(st.scopes, name).Some? && Found(st.scopes, name).value.Array? {
          RebindIs(st.scopes, name, Array(Found(st.scopes, name).value.m - {o.key(vals)}));
        }
  }

  // ----- array literals -----

  /** The array of the items from number `i` on: each under the index string of its number. */
  function Filled(o: Ops, items: seq<Tree>, scopes: seq<Scope>, m: map<string, Value>, i: nat): Verdict
    requires AllPure(items)
  {
    if items == [] then Is(Array(m))
    else match Den(o, items[0], scopes)
      case Is(Scalar(x)) => Filled(o, items[1..], scopes, m[o.key([Number(i)]) := x], i + 1)
      case Is(Array(_)) => Dies
      case Errs(xs) => Errs(xs + [Array(m)])
      case Dies => Dies
  }

  function FilledSlots(o: Ops, items: seq<Tree>, scopes: seq<Scope>): nat
    requires AllPure(items)
  {
    if items == [] then 1
    else
      var n := Slots(o, items[0], scopes);
      match Den(o, items[0], scopes)
      case Is(Scalar(_)) => Max(Max(n, 2), FilledSlots(o, items[1..], scopes))
      case Is(Array(_)) => Max(n, 2)
      case Errs(xs) => Max(n, |xs| + 1)
      case Dies => n
  }

  lemma {:induction false} ItemsRun(o: Ops, fuel: nat, items: seq<Tree>, m: map<string, Value>, st: State, i: nat)
    requires AllPure(items)
    ensures Evaluates(Items(o, fuel, items, m, st, i), Filled(o, items, st.scopes, m, i),
                      HasRoom(FilledSlots(o, items, st.scopes), |st.stack|), st)
    decreases items
  {
    ItemsIs(o, fuel, items, m, st, i);
    if items != [] {
      StackEvaluation(o, fuel, items[0], st);
      match Den(o, items[0], st.scopes)
      case Is(x) =>
        if |st.stack| + 2 < STACK_SZ {
          PushThenPop(st, x);
          if x.Scalar? {
            ItemsRun(o, fuel, items[1..], m[o.key([Number(i)]) := x.v], st, i + 1);
          }
        }
      case Errs(xs) => assert (st.stack + xs) + [Array(m)] == st.stack + (xs + [Array(m)]);
      case Dies =>
    }
  }

  /** An array literal of side-effect-free items, errors included. */
  lemma ArrayLiteral(o: Ops, fuel: nat, items: seq<Tree>, st: State)
    requires AllPure(items)
    ensures Evaluates(Exec(o, fuel, Arr(items), st), Filled(o, items, st.scopes, map[], 0),
                      HasRoom(FilledSlots(o, items, st.scopes), |st.stack|), st)
  {
    ItemsRun(o, fuel, items, map[], st, 0);
  }

  /** Different numbers have different index strings. */
  ghost predicate NumbersApart(o: Ops) {
    forall i: nat, j: nat :: o.key([Number(i)]) == o.key([Number(j)]) ==> i == j
  }

  lemma {:induction false} FilledAt(o: Ops, items: seq<Tree>, scopes: seq<Scope>, m: map<string, Value>, i: nat, j: nat)
    requires AllPure(items) && NumbersApart(o) && Filled(o, items, scopes, m, i).Is?
    ensures Filled(o, items, scopes, m, i).v.Array?
    ensures var r := Filled(o, items, scopes, m, i).v.m;
            var key := o.key([Number(j)]);
            if i <= j < i + |items| then key in r && Den(o, items[j - i], scopes) == Is(Scalar(r[key]))
            else (key in r <==> key in m) && (key in m ==> r[key] == m[key])
    decreases items
  {
    if items != [] {
      FilledAt(o, items[1..], scopes, m[o.key([Number(i)]) := Den(o, items[0], scopes).v.v], i + 1, j);
    }
  }

  /** The items of a literal are found under their numbers, and nothing is found under another number. */
  lemma LiteralItems(o: Ops, fuel: nat, items: seq<Tree>, st: State, j: nat)
    requires AllPure(items) && NumbersApart(o) && Exec(o, fuel, Arr(items), st).Done?
    ensures var stack := Exec(o, fuel, Arr(items), st).st.stack;
            && |stack| == |st.stack| + 1 && stack[|st.stack|].Array?
            && var m, key := stack[|st.stack|].m, o.key([Number(j)]);
               && (key in m <==> j < |items|)
               && (j < |items| ==> Den(o, items[j], st.scopes) == Is(Scalar(m[key])))
  {
    ArrayLiteral(o, fuel, items, st);
    FilledAt(o, items, st.scopes, map[], 0, j);
  }
}
