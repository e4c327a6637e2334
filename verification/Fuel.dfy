/** The fuel of the structured semantics only bounds it: more fuel changes no result that was reached. */
module Fuel {
  import opened Ast
  import opened Basics
  import opened Semantics

  lemma {:induction false} ExecMore(o: Ops, f: nat, g: nat, t: Tree, st: State)
    requires f <= g && !Exec(o, f, t, st).Timeout?
    ensures Exec(o, g, t, st) == Exec(o, f, t, st)
    decreases f, t, 9
  {
    ExecIs(o, f, t, st);
    ExecIs(o, g, t, st);
    match t
    case Unary(e, _) => ExecMore(o, f, g, e, st);
    case Binary(l, r, _) =>
      ExecMore(o, f, g, l, st);
      if Exec(o, f, l, st).Done? {
        ExecMore(o, f, g, r, Exec(o, f, l, st).st);
      }
    case Ternary(c, y, n) =>
      CondMore(o, f, g, c, st);
      var b := Cond(o, f, c, st);
      if b.CondIs? {
        ExecMore(o, f, g, if b.b then y else n, b.st);
      }
    case Arr(items) => ItemsMore(o, f, g, items, map[], st, 0);
    case Seq(items) => BackMore(o, f, g, items, st);
    case Access(name, ind) => if FindScope(st.scopes, name).Some? { IndexMore(o, f, g, ind, [], st); }
    case Call(_, _) => CallMore(o, f, g, t, st);
    case Assign(_, _) => AssignMore(o, f, g, t, st);
    case OpAssign(_, _, _) => OpAssignMore(o, f, g, t, st);
    case If(c, body, els) =>
      CondMore(o, f, g, c, st);
      var b := Cond(o, f, c, st);
      if b.CondIs? && (b.b || !els.Null?) {
        ExecMore(o, f, g, if b.b then body else els, b.st);
      }
    case For(init, _, _, _) => ForMore(o, f, g, t, st);
    case While(_, _) => WhileMore(o, f, g, t, st);
    case Do(_, _) => DoMore(o, f, g, t, st);
    case Del(_) => DeleteMore(o, f, g, t, st);
    case Scope(stmts) => AllMore(o, f, g, stmts, st);
    case _ =>
  }

  lemma {:induction false} CondMore(o: Ops, f: nat, g: nat, t: Tree, st: State)
    requires f <= g && Cond(o, f, t, st) != CondStop(Timeout)
    ensures Cond(o, g, t, st) == Cond(o, f, t, st)
    decreases f, t, 10
  {
    ExecMore(o, f, g, t, st);
  }

  lemma {:induction false} AllMore(o: Ops, f: nat, g: nat, stmts: seq<Tree>, st: State)
    requires f <= g && !ExecAll(o, f, stmts, st).Timeout?
    ensures ExecAll(o, g, stmts, st) == ExecAll(o, f, stmts, st)
    decreases f, stmts, 8
  {
    if stmts != [] {
      ExecMore(o, f, g, stmts[0], st);
      var r := Exec(o, f, stmts[0], st);
      if r.Done? && r.out.Normal? {
        AllMore(o, f, g, stmts[1..], r.st);
      }
    }
  }

  lemma {:induction false} BackMore(o: Ops, f: nat, g: nat, items: seq<Tree>, st: State)
    requires f <= g && !ExecBack(o, f, items, st).Timeout?
    ensures ExecBack(o, g, items, st) == ExecBack(o, f, items, st)
    decreases f, items, 8
  {
    if items != [] {
      var last := items[|items| - 1];
      ExecMore(o, f, g, last, st);
      if Exec(o, f, last, st).Done? {
        BackMore(o, f, g, items[..|items| - 1], Exec(o, f, last, st).st);
      }
    }
  }

  lemma {:induction false} ItemsMore(o: Ops, f: nat, g: nat, items: seq<Tree>, m: map<string, Value>, st: State, i: nat)
    requires f <= g && !Items(o, f, items, m, st, i).Timeout?
    ensures Items(o, g, items, m, st, i) == Items(o, f, items, m, st, i)
    decreases f, items, 8
  {
    if items != [] {
      ExecMore(o, f, g, items[0], st);
      if Exec(o, f, items[0], st).Done? {
        var p := Pop(Exec(o, f, items[0], st).st);
        if p.Popped? && p.v.Some? && p.v.value.Scalar? {
          ItemsMore(o, f, g, items[1..], m[o.key([Number(i)]) := p.v.value.v], p.st, i + 1);
        }
      }
    }
  }

  lemma {:induction false} IndexMore(o: Ops, f: nat, g: nat, ind: seq<Tree>, vals: seq<Value>, st: State)
    requires f <= g && Index(o, f, ind, vals, st) != KeyStop(Timeout)
    ensures Index(o, g, ind, vals, st) == Index(o, f, ind, vals, st)
    decreases f, ind, 8
  {
    if ind != [] {
      ExecMore(o, f, g, ind[0], st);
      if Exec(o, f, ind[0], st).Done? {
        var p := Pop(Exec(o, f, ind[0], st).st);
        if p.Popped? && p.v.Some? && p.v.value.Scalar? {
          IndexMore(o, f, g, ind[1..], vals + [p.v.value.v], p.st);
        }
      }
    }
  }

  lemma {:induction false} ArgsMore(o: Ops, f: nat, g: nat, args: seq<Tree>, params: seq<string>, scope: Scope,
      st: State)
    requires |args| == |params| && f <= g && Args(o, f, args, params, scope, st) != ArgsStop(Timeout)
    ensures Args(o, g, args, params, scope, st) == Args(o, f, args, params, scope, st)
    decreases f, args, 8
  {
    if args != [] {
      ExecMore(o, f, g, args[0], st);
      if Exec(o, f, args[0], st).Done? {
        var p := Pop(Exec(o, f, args[0], st).st);
        if p.Popped? && p.v.Some? && params[0] !in scope {
          ArgsMore(o, f, g, args[1..], params[1..], scope[params[0] := p.v.value], p.st);
        }
      }
    }
  }

  lemma {:induction false} CallMore(o: Ops, f: nat, g: nat, t: Tree, st: State)
    requires t.Call? && f <= g && !CallFunction(o, f, t, st).Timeout?
    ensures CallFunction(o, g, t, st) == CallFunction(o, f, t, st)
    decreases f, t, 5
  {
    if t.name in st.funcs && |t.args| == |st.funcs[t.name].params| {
      var d := st.funcs[t.name];
      ArgsMore(o, f, g, t.args, d.params, map[], st);
      var a := Args(o, f, t.args, d.params, map[], st);
      if a.ArgsAre? {
        EnterMore(o, f, g, t, d, a.scope, a.st);
      }
    }
  }

  lemma {:induction false} EnterMore(o: Ops, f: nat, g: nat, t: Tree, d: FuncDef, scope: Scope, st: State)
    requires f <= g && !Enter(o, f, t, d, scope, st).Timeout?
    ensures Enter(o, g, t, d, scope, st) == Enter(o, f, t, d, scope, st)
    decreases f, t, 4
  {
    RunMore(o, f - 1, g - 1, d, scope, st);
  }

  lemma {:induction false} RunMore(o: Ops, f: nat, g: nat, d: FuncDef, scope: Scope, st: State)
    requires f <= g && !RunBody(o, f, d, scope, st).Timeout?
    ensures RunBody(o, g, d, scope, st) == RunBody(o, f, d, scope, st)
    decreases f, d.stmts, 11
  {
    AllMore(o, f, g, d.stmts, st.(scopes := [scope] + st.scopes, func := Some(d)));
  }

  lemma {:induction false} SetMore(o: Ops, f: nat, g: nat, t: Tree, v: Eval, st: State)
    requires f <= g && !Set(o, f, t, v, st).Timeout?
    ensures Set(o, g, t, v, st) == Set(o, f, t, v, st)
    decreases f, t, 5
  {
    if t.Access? && v.Scalar? && st.scopes != [] {
      match FindScope(st.scopes, t.name)
      case None => ElementMore(o, f, g, t, v.v, 0, SetIn(st, 0, t.name, Array(map[])));
      case Some(k) => if st.scopes[k][t.name].Array? { ElementMore(o, f, g, t, v.v, k, st); }
    }
  }

  lemma {:induction false} ElementMore(o: Ops, f: nat, g: nat, t: Tree, v: Value, k: nat, st: State)
    requires t.Access? && f <= g && !SetElement(o, f, t, v, k, st).Timeout?
    ensures SetElement(o, g, t, v, k, st) == SetElement(o, f, t, v, k, st)
    decreases f, t, 4
  {
    IndexMore(o, f, g, t.ind, [], st);
  }

  lemma {:induction false} SetAllMore(o: Ops, f: nat, g: nat, items: seq<Tree>, vs: seq<Eval>, st: State)
    requires |items| == |vs| && f <= g && !SetAll(o, f, items, vs, st).Timeout?
    ensures SetAll(o, g, items, vs, st) == SetAll(o, f, items, vs, st)
    decreases f, items, 8
  {
    if items != [] {
      SetMore(o, f, g, items[0], vs[0], st);
      if Set(o, f, items[0], vs[0], st).Done? {
        SetAllMore(o, f, g, items[1..], vs[1..], Set(o, f, items[0], vs[0], st).st);
      }
    }
  }

  lemma {:induction false} AssignMore(o: Ops, f: nat, g: nat, t: Tree, st: State)
    requires t.Assign? && f <= g && !AssignTop(o, f, t, st).Timeout?
    ensures AssignTop(o, g, t, st) == AssignTop(o, f, t, st)
    decreases f, t, 6
  {
    AssignRestMore(o, f, g, t, st);
  }

  lemma {:induction false} AssignRestMore(o: Ops, f: nat, g: nat, t: Tree, st: State)
    requires t.Assign? && f <= g && !AssignRest(o, f, t, st).Timeout?
    ensures AssignRest(o, g, t, st) == AssignRest(o, f, t, st)
    decreases f, t, 5
  {
    var r := if t.right.Assign? then AssignRest(o, f, t.right, st) else Exec(o, f, t.right, st);
    if t.right.Assign? {
      AssignRestMore(o, f, g, t.right, st);
    } else {
      ExecMore(o, f, g, t.right, st);
    }
    if r.Done? && t.left.Seq? {
      StoreMore(o, f, g, t.left, r.st);
    }
  }

  lemma {:induction false} StoreMore(o: Ops, f: nat, g: nat, left: Tree, st: State)
    requires left.Seq? && f <= g && !StoreTop(o, f, left, st).Timeout?
    ensures StoreTop(o, g, left, st) == StoreTop(o, f, left, st)
    decreases f, left, 9
  {
    var p := PopN(st, |left.items|);
    if p.PoppedAll? && AllSome(p.vs) {
      SetAllMore(o, f, g, left.items, Values(p.vs), p.st);
    }
  }

  lemma {:induction false} OpAssignMore(o: Ops, f: nat, g: nat, t: Tree, st: State)
    requires t.OpAssign? && f <= g && !OpAssignTo(o, f, t, st).Timeout?
    ensures OpAssignTo(o, g, t, st) == OpAssignTo(o, f, t, st)
    decreases f, t, 6
  {
    ExecMore(o, f, g, t.left, st);
    var r := Exec(o, f, t.left, st);
    if r.Done? {
      ExecMore(o, f, g, t.right, r.st);
      var r2 := Exec(o, f, t.right, r.st);
      if r2.Done? {
        var p := PopTwo(r2.st);
        if p.TwoPopped? && Combine(o, t.op, p.left, p.right).Some? {
          SetMore(o, f, g, t.left, Scalar(Combine(o, t.op, p.left, p.right).value), p.st);
        }
      }
    }
  }

  lemma {:induction false} DeleteMore(o: Ops, f: nat, g: nat, t: Tree, st: State)
    requires t.Del? && f <= g && !Delete(o, f, t, st).Timeout?
    ensures Delete(o, g, t, st) == Delete(o, f, t, st)
    decreases f, t, 5
  {
    if t.target.Access? && FindScope(st.scopes, t.target.name).Some? {
      IndexMore(o, f, g, t.target.ind, [], st);
    }
  }

  lemma {:induction false} ForMore(o: Ops, f: nat, g: nat, t: Tree, st: State)
    requires t.For? && f <= g && !Exec(o, f, t, st).Timeout?
    ensures Exec(o, g, t, st) == Exec(o, f, t, st)
    decreases f, t, 8
  {
    if t.init.Null? {
      ForLoopMore(o, f, g, t, st);
    } else {
      ExecMore(o, f, g, t.init, st);
      if Exec(o, f, t.init, st).Done? {
        ForLoopMore(o, f, g, t, Exec(o, f, t.init, st).st);
      }
    }
  }

  lemma {:induction false} ForLoopMore(o: Ops, f: nat, g: nat, t: Tree, st: State)
    requires t.For? && f <= g && !ForLoop(o, f, t, st).Timeout?
    ensures ForLoop(o, g, t, st) == ForLoop(o, f, t, st)
    decreases f, t, 7
  {
    ForRoundMore(o, f, g, t, st);
    var r := ForRound(o, f, t, st);
    if r.Again? {
      ForLoopMore(o, f - 1, g - 1, t, r.st);
    }
  }

  lemma {:induction false} ForRoundMore(o: Ops, f: nat, g: nat, t: Tree, st: State)
    requires t.For? && f <= g && ForRound(o, f, t, st) != Over(Timeout)
    ensures ForRound(o, g, t, st) == ForRound(o, f, t, st)
    decreases f, t, 6
  {
    if !t.cond.Null? {
      CondMore(o, f, g, t.cond, st);
    }
    var c := if t.cond.Null? then CondIs(true, st) else Cond(o, f, t.cond, st);
    if c.CondIs? && c.b {
      ExecMore(o, f, g, t.body, c.st);
      var r := Catch(Exec(o, f, t.body, c.st));
      if r.Again? && !t.step.Null? {
        ExecMore(o, f, g, t.step, r.st);
      }
    }
  }

  lemma {:induction false} WhileMore(o: Ops, f: nat, g: nat, t: Tree, st: State)
    requires t.While? && f <= g && !WhileLoop(o, f, t, st).Timeout?
    ensures WhileLoop(o, g, t, st) == WhileLoop(o, f, t, st)
    decreases f, t, 7
  {
    CondMore(o, f, g, t.cond, st);
    var c := Cond(o, f, t.cond, st);
    if c.CondIs? && c.b && !t.body.Null? {
      ExecMore(o, f, g, t.body, c.st);
    }
    assert WhileRound(o, g, t, st) == WhileRound(o, f, t, st);
    var r := WhileRound(o, f, t, st);
    if r.Again? {
      WhileMore(o, f - 1, g - 1, t, r.st);
    }
  }

  lemma {:induction false} DoMore(o: Ops, f: nat, g: nat, t: Tree, st: State)
    requires t.Do? && f <= g && !DoLoop(o, f, t, st).Timeout?
    ensures DoLoop(o, g, t, st) == DoLoop(o, f, t, st)
    decreases f, t, 7
  {
    DoRoundMore(o, f, g, t, st);
    var r := DoRound(o, f, t, st);
    if r.Again? {
      DoMore(o, f - 1, g - 1, t, r.st);
    }
  }

  lemma {:induction false} DoRoundMore(o: Ops, f: nat, g: nat, t: Tree, st: State)
    requires t.Do? && f <= g && DoRound(o, f, t, st) != Over(Timeout)
    ensures DoRound(o, g, t, st) == DoRound(o, f, t, st)
    decreases f, t, 6
  {
    if !t.body.Null? {
      ExecMore(o, f, g, t.body, st);
    }
    var r := if t.body.Null? then Done(st, Normal) else Exec(o, f, t.body, st);
    if r.Done? && r.out.Normal? {
      CondMore(o, f, g, t.cond, r.st);
    }
  }
}
