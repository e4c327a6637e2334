/** What running a tree does to the function being run: nothing, in the end, and only `return` depends on it. */
module Frames {
  import opened Ast
  import opened Basics
  import opened Semantics

  /** No `return` in it, definitions apart. */
  ghost predicate Returnless(t: Tree) {
    match t
    case Return => false
    case Unary(e, _) => Returnless(e)
    case Binary(l, r, _) => Returnless(l) && Returnless(r)
    case Ternary(c, y, n) => Returnless(c) && Returnless(y) && Returnless(n)
    case Call(_, args) => forall i :: 0 <= i < |args| ==> Returnless(args[i])
    case Access(_, ind) => forall i :: 0 <= i < |ind| ==> Returnless(ind[i])
    case Arr(items) => forall i :: 0 <= i < |items| ==> Returnless(items[i])
    case Seq(items) => forall i :: 0 <= i < |items| ==> Returnless(items[i])
    case Assign(l, r) => Returnless(l) && Returnless(r)
    case OpAssign(l, r, _) => Returnless(l) && Returnless(r)
    case If(c, y, n) => Returnless(c) && Returnless(y) && Returnless(n)
    case For(i, c, s, b) => Returnless(i) && Returnless(c) && Returnless(s) && Returnless(b)
    case While(c, b) => Returnless(c) && Returnless(b)
    case Do(c, b) => Returnless(c) && Returnless(b)
    case Del(e) => Returnless(e)
    case Scope(stmts) => forall i :: 0 <= i < |stmts| ==> Returnless(stmts[i])
    case _ => true
  }

  ghost predicate AllReturnless(ts: seq<Tree>) {
    forall i :: 0 <= i < |ts| ==> Returnless(ts[i])
  }

  function In(st: State, f: Option<FuncDef>): State {
    st.(func := f)
  }

  /** A success leaves the function being run as it was; `q` says that in any other function, `f`, it is the same
      success, and no `return`. */
  ghost predicate Kept(st: State, r: Res, r': Res, f: Option<FuncDef>, q: bool) {
    r.Done? ==> r.st.func == st.func && (q ==> r' == Done(In(r.st, f), r.out) && r.out != Returned)
  }

  ghost predicate CondKept(st: State, c: CondRes, c': CondRes, f: Option<FuncDef>, q: bool) {
    c.CondIs? ==> c.st.func == st.func && (q ==> c' == CondIs(c.b, In(c.st, f)))
  }

  ghost predicate KeyKept(st: State, k: KeyRes, k': KeyRes, f: Option<FuncDef>, q: bool) {
    k.KeyIs? ==> k.st.func == st.func && (q ==> k' == KeyIs(k.key, In(k.st, f)))
  }

  ghost predicate ArgsKept(st: State, a: ArgsRes, a': ArgsRes, f: Option<FuncDef>, q: bool) {
    a.ArgsAre? ==> a.st.func == st.func && (q ==> a' == ArgsAre(a.scope, In(a.st, f)))
  }

  ghost predicate RoundKept(st: State, r: Round, r': Round, f: Option<FuncDef>, q: bool) {
    && (r.Again? ==> r.st.func == st.func && (q ==> r' == Again(In(r.st, f))))
    && (r.Over? ==> Kept(st, r.r, if r'.Over? then r'.r else Timeout, f, q))
  }

  lemma {:induction false} ExecKeeps(o: Ops, n: nat, t: Tree, st: State, f: Option<FuncDef>)
    ensures Kept(st, Exec(o, n, t, st), Exec(o, n, t, In(st, f)), f, Returnless(t))
    decreases n, t, 9
  {
    ExecIs(o, n, t, st);
    ExecIs(o, n, t, In(st, f));
    match t
    case Unary(e, op) => UnaryKeeps(o, n, t, st, f);
    case Binary(l, r, op) => BinaryKeeps(o, n, t, st, f);
    case Ternary(c, y, e) => TernaryKeeps(o, n, t, st, f);
    case Arr(items) => ItemsKeep(o, n, items, map[], st, 0, f);
    case Seq(items) => BackKeeps(o, n, items, st, f);
    case Access(_, _) => ReadKeeps(o, n, t, st, f);
    case Call(_, _) => CallKeeps(o, n, t, st, f);
    case Assign(_, _) => AssignKeeps(o, n, t, st, f);
    case OpAssign(_, _, _) => OpAssignKeeps(o, n, t, st, f);
    case If(_, _, _) => IfKeeps(o, n, t, st, f);
    case For(_, _, _, _) => ForKeeps(o, n, t, st, f);
    case While(_, _) => WhileKeeps(o, n, t, st, f);
    case Do(_, _) => DoKeeps(o, n, t, st, f);
    case Del(_) => DeleteKeeps(o, n, t, st, f);
    case Scope(stmts) => AllKeep(o, n, stmts, st, f);
    case Return => if st.func.Some? { ReturnKeeps(st, st.func.value.rets); }
    case _ =>
  }

  lemma ReturnKeeps(st: State, rets: seq<string>)
    ensures PushReturns(st, rets).Done? ==> PushReturns(st, rets).st.func == st.func
  {
    ResultsKeep(st, rets);
  }

  lemma {:induction false} ResultsKeep(st: State, rets: seq<string>)
    ensures PushLastFirst(st, rets).Done? ==> PushLastFirst(st, rets).st.func == st.func
    decreases |rets|
  {
    if rets != [] && InCurrent(st, rets[|rets| - 1]) {
      ResultsKeep(st.(stack := st.stack + [st.scopes[0][rets[|rets| - 1]]]), rets[..|rets| - 1]);
    }
  }

  lemma {:induction false} UnaryKeeps(o: Ops, n: nat, t: Tree, st: State, f: Option<FuncDef>)
    requires t.Unary?
    ensures Kept(st, Exec(o, n, t, st), Exec(o, n, t, In(st, f)), f, Returnless(t))
    decreases n, t, 8
  {
    ExecKeeps(o, n, t.operand, st, f);
  }

  lemma {:induction false} BinaryKeeps(o: Ops, n: nat, t: Tree, st: State, f: Option<FuncDef>)
    requires t.Binary?
    ensures Kept(st, Exec(o, n, t, st), Exec(o, n, t, In(st, f)), f, Returnless(t))
    decreases n, t, 8
  {
    ExecKeeps(o, n, t.left, st, f);
    var l := Exec(o, n, t.left, st);
    if l.Done? {
      ExecKeeps(o, n, t.right, l.st, f);
      var r := Exec(o, n, t.right, l.st);
      if r.Done? {
        ApplyKeeps(o, t.op, r.st, f);
      }
    } else if l.Failed? {
      AfterFails(o, t.right, l.st);
    }
  }

  lemma ApplyKeeps(o: Ops, op: Opcode, st: State, f: Option<FuncDef>)
    ensures Kept(st, ApplyBinary(o, op, st), ApplyBinary(o, op, In(st, f)), f, true)
  {
  }

  lemma {:induction false} AfterFails(o: Ops, t: Tree, st: State)
    ensures !After(o, t, st).Done?
    decreases t, 0
  {
    match t
    case Unary(e, _) => AfterFails(o, e, st);
    case Ternary(c, _, _) => AfterFails(o, c, st);
    case Binary(l, r, _) =>
      AfterFails(o, l, st);
      if After(o, l, st).Failed? {
        AfterFails(o, r, After(o, l, st).st);
      }
    case OpAssign(l, r, _) =>
      AfterFails(o, l, st);
      if After(o, l, st).Failed? {
        AfterFails(o, r, After(o, l, st).st);
      }
    case Seq(items) => AfterBackFails(o, items, st);
    case Arr(items) =>
      ItemsIs(o, 0, items, map[], st, 0);
      if items != [] {
        AfterFails(o, items[0], st);
      }
    case Call(_, args) => if args != [] { AfterFails(o, args[0], st); }
    case Assign(_, r) => AfterFails(o, r, st);
    case _ =>
  }

  lemma {:induction false} AfterBackFails(o: Ops, items: seq<Tree>, st: State)
    ensures !AfterBack(o, items, st).Done?
    decreases items, 1
  {
    if items != [] {
      var last := items[|items| - 1];
      AfterFails(o, last, st);
      if After(o, last, st).Failed? {
        AfterBackFails(o, items[..|items| - 1], After(o, last, st).st);
      }
    }
  }

  lemma {:induction false} CondKeeps(o: Ops, n: nat, t: Tree, st: State, f: Option<FuncDef>)
    ensures CondKept(st, Cond(o, n, t, st), Cond(o, n, t, In(st, f)), f, Returnless(t))
    decreases n, t, 10
  {
    ExecKeeps(o, n, t, st, f);
  }

  lemma {:induction false} TernaryKeeps(o: Ops, n: nat, t: Tree, st: State, f: Option<FuncDef>)
    requires t.Ternary?
    ensures Kept(st, Exec(o, n, t, st), Exec(o, n, t, In(st, f)), f, Returnless(t))
    decreases n, t, 8
  {
    CondKeeps(o, n, t.cond, st, f);
    var c := Cond(o, n, t.cond, st);
    if c.CondIs? {
      ExecKeeps(o, n, if c.b then t.yes else t.no, c.st, f);
    }
  }

  lemma {:induction false} IfKeeps(o: Ops, n: nat, t: Tree, st: State, f: Option<FuncDef>)
    requires t.If?
    ensures Kept(st, Exec(o, n, t, st), Exec(o, n, t, In(st, f)), f, Returnless(t))
    decreases n, t, 8
  {
    CondKeeps(o, n, t.cond, st, f);
    var c := Cond(o, n, t.cond, st);
    if c.CondIs? && (c.b || !t.els.Null?) {
      ExecKeeps(o, n, if c.b then t.body else t.els, c.st, f);
    }
  }

  lemma {:induction false} AllKeep(o: Ops, n: nat, stmts: seq<Tree>, st: State, f: Option<FuncDef>)
    ensures Kept(st, ExecAll(o, n, stmts, st), ExecAll(o, n, stmts, In(st, f)), f, AllReturnless(stmts))
    decreases n, stmts, 8
  {
    if stmts != [] {
      ExecKeeps(o, n, stmts[0], st, f);
      var r := Exec(o, n, stmts[0], st);
      if r.Done? && r.out.Normal? {
        AllKeep(o, n, stmts[1..], r.st, f);
      }
    }
  }

  lemma {:induction false} BackKeeps(o: Ops, n: nat, items: seq<Tree>, st: State, f: Option<FuncDef>)
    ensures Kept(st, ExecBack(o, n, items, st), ExecBack(o, n, items, In(st, f)), f, AllReturnless(items))
    decreases n, items, 8
  {
    if items != [] {
      var last, rest := items[|items| - 1], items[..|items| - 1];
      ExecKeeps(o, n, last, st, f);
      var r := Exec(o, n, last, st);
      if r.Done? {
        BackKeeps(o, n, rest, r.st, f);
      } else if r.Failed? {
        AfterBackFails(o, rest, r.st);
      }
    }
  }

  lemma {:induction false} ItemsKeep(o: Ops, n: nat, items: seq<Tree>, m: map<string, Value>, st: State, i: nat,
      f: Option<FuncDef>)
    ensures Kept(st, Items(o, n, items, m, st, i), Items(o, n, items, m, In(st, f), i), f, AllReturnless(items))
    decreases n, items, 8
  {
    ItemsIs(o, n, items, m, st, i);
    ItemsIs(o, n, items, m, In(st, f), i);
    if items != [] {
      ExecKeeps(o, n, items[0], st, f);
      var r := Exec(o, n, items[0], st);
      if r.Done? {
        var p := Pop(r.st);
        if p.Popped? && p.v.Some? && p.v.value.Scalar? {
          ItemsKeep(o, n, items[1..], m[o.key([Number(i)]) := p.v.value.v], p.st, i + 1, f);
        }
      }
    }
  }

  lemma {:induction false} IndexKeeps(o: Ops, n: nat, ind: seq<Tree>, vals: seq<Value>, st: State, f: Option<FuncDef>)
    ensures KeyKept(st, Index(o, n, ind, vals, st), Index(o, n, ind, vals, In(st, f)), f, AllReturnless(ind))
    decreases n, ind, 8
  {
    if ind != [] {
      ExecKeeps(o, n, ind[0], st, f);
      var r := Exec(o, n, ind[0], st);
      if r.Done? {
        var p := Pop(r.st);
        if p.Popped? && p.v.Some? && p.v.value.Scalar? {
          IndexKeeps(o, n, ind[1..], vals + [p.v.value.v], p.st, f);
        }
      }
    }
  }

  lemma {:induction false} ReadKeeps(o: Ops, n: nat, t: Tree, st: State, f: Option<FuncDef>)
    requires t.Access?
    ensures Kept(st, ReadAccess(o, n, t, st), ReadAccess(o, n, t, In(st, f)), f, Returnless(t))
    decreases n, t, 5
  {
    IndexKeeps(o, n, t.ind, [], st, f);
    IndexStops(o, n, t.ind, [], st);
  }

  /** Where there is no key the stop is none of success. */
  lemma {:induction false} IndexStops(o: Ops, n: nat, ind: seq<Tree>, vals: seq<Value>, st: State)
    ensures Index(o, n, ind, vals, st).KeyStop? ==> !Index(o, n, ind, vals, st).r.Done?
    decreases |ind|
  {
    if ind != [] {
      var r := Exec(o, n, ind[0], st);
      if r.Done? {
        var p := Pop(r.st);
        if p.Popped? && p.v.Some? && p.v.value.Scalar? {
          IndexStops(o, n, ind[1..], vals + [p.v.value.v], p.st);
        }
      }
    }
  }

  lemma {:induction false} ArgsKeep(o: Ops, n: nat, args: seq<Tree>, params: seq<string>, scope: Scope, st: State,
      f: Option<FuncDef>)
    requires |args| == |params|
    ensures ArgsKept(st, Args(o, n, args, params, scope, st), Args(o, n, args, params, scope, In(st, f)), f,
                     AllReturnless(args))
    decreases n, args, 8
  {
    ArgsIs(o, n, args, params, scope, st);
    ArgsIs(o, n, args, params, scope, In(st, f));
    if args != [] {
      ExecKeeps(o, n, args[0], st, f);
      var r := Exec(o, n, args[0], st);
      if r.Done? {
        var p := Pop(r.st);
        if p.Popped? && p.v.Some? && params[0] !in scope {
          ArgsKeep(o, n, args[1..], params[1..], scope[params[0] := p.v.value], p.st, f);
        }
      }
    }
  }

  lemma {:induction false} ArgsStops(o: Ops, n: nat, args: seq<Tree>, params: seq<string>, scope: Scope, st: State)
    requires |args| == |params|
    ensures var a := Args(o, n, args, params, scope, st); a.ArgsStop? ==> !a.r.Done?
    decreases |args|
  {
    if args != [] {
      ArgsIs(o, n, args, params, scope, st);
      var r := Exec(o, n, args[0], st);
      if r.Done? {
        var p := Pop(r.st);
        if p.Popped? && p.v.Some? && params[0] !in scope {
          ArgsStops(o, n, args[1..], params[1..], scope[params[0] := p.v.value], p.st);
        }
      }
    }
  }

  /** The body runs in its own function and the one before is restored. */
  lemma BodyKeeps(o: Ops, n: nat, d: FuncDef, scope: Scope, st: State, f: Option<FuncDef>)
    ensures Kept(st, RunBody(o, n, d, scope, st), RunBody(o, n, d, scope, In(st, f)), f, true)
  {
    var inner := st.(scopes := [scope] + st.scopes, func := Some(d));
    assert In(st, f).(scopes := [scope] + st.scopes, func := Some(d)) == inner;
    var r := ExecAll(o, n, d.stmts, inner);
  }

  lemma {:induction false} CallKeeps(o: Ops, n: nat, t: Tree, st: State, f: Option<FuncDef>)
    requires t.Call?
    ensures Kept(st, CallFunction(o, n, t, st), CallFunction(o, n, t, In(st, f)), f, Returnless(t))
    decreases n, t, 5
  {
    if t.name in st.funcs && |t.args| == |st.funcs[t.name].params| {
      var d := st.funcs[t.name];
      ArgsKeep(o, n, t.args, d.params, map[], st, f);
      ArgsStops(o, n, t.args, d.params, map[], st);
      var a := Args(o, n, t.args, d.params, map[], st);
      if a.ArgsAre? && n > 0 {
        BodyKeeps(o, n - 1, d, a.scope, a.st, f);
      }
    }
  }

  lemma {:induction false} SetKeeps(o: Ops, n: nat, t: Tree, v: Eval, st: State, f: Option<FuncDef>)
    ensures Kept(st, Set(o, n, t, v, st), Set(o, n, t, v, In(st, f)), f, Returnless(t))
    decreases n, t, 5
  {
    if t.Access? && v.Scalar? && st.scopes != [] {
      match FindScope(st.scopes, t.name)
      case None => ElementKeeps(o, n, t, v.v, 0, SetIn(st, 0, t.name, Array(map[])), f);
      case Some(k) => if st.scopes[k][t.name].Array? { ElementKeeps(o, n, t, v.v, k, st, f); }
    }
  }

  lemma {:induction false} ElementKeeps(o: Ops, n: nat, t: Tree, v: Value, k: nat, st: State, f: Option<FuncDef>)
    requires t.Access?
    ensures Kept(st, SetElement(o, n, t, v, k, st), SetElement(o, n, t, v, k, In(st, f)), f, Returnless(t))
    decreases n, t, 4
  {
    IndexKeeps(o, n, t.ind, [], st, f);
    IndexStops(o, n, t.ind, [], st);
  }

  lemma {:induction false} SetAllKeeps(o: Ops, n: nat, items: seq<Tree>, vs: seq<Eval>, st: State, f: Option<FuncDef>)
    requires |items| == |vs|
    ensures Kept(st, SetAll(o, n, items, vs, st), SetAll(o, n, items, vs, In(st, f)), f, AllReturnless(items))
    decreases n, items, 8
  {
    if items != [] {
      SetKeeps(o, n, items[0], vs[0], st, f);
      var r := Set(o, n, items[0], vs[0], st);
      if r.Done? {
        SetAllKeeps(o, n, items[1..], vs[1..], r.st, f);
      }
    }
  }

  lemma {:induction false} AssignKeeps(o: Ops, n: nat, t: Tree, st: State, f: Option<FuncDef>)
    requires t.Assign?
    ensures Kept(st, AssignTop(o, n, t, st), AssignTop(o, n, t, In(st, f)), f, Returnless(t))
    decreases n, t, 6
  {
    AssignRestKeeps(o, n, t, st, f);
  }

  lemma {:induction false} AssignRestKeeps(o: Ops, n: nat, t: Tree, st: State, f: Option<FuncDef>)
    requires t.Assign?
    ensures Kept(st, AssignRest(o, n, t, st), AssignRest(o, n, t, In(st, f)), f, Returnless(t))
    decreases n, t, 5
  {
    var r := if t.right.Assign? then AssignRest(o, n, t.right, st) else Exec(o, n, t.right, st);
    if t.right.Assign? {
      AssignRestKeeps(o, n, t.right, st, f);
    } else {
      ExecKeeps(o, n, t.right, st, f);
    }
    if r.Done? && t.left.Seq? {
      StoreKeeps(o, n, t.left, r.st, f);
    }
  }

  lemma {:induction false} StoreKeeps(o: Ops, n: nat, left: Tree, st: State, f: Option<FuncDef>)
    requires left.Seq?
    ensures Kept(st, StoreTop(o, n, left, st), StoreTop(o, n, left, In(st, f)), f, Returnless(left))
    decreases n, left, 9
  {
    PopNIs(st, |left.items|);
    PopNIs(In(st, f), |left.items|);
    var p := PopN(st, |left.items|);
    if p.PoppedAll? && AllSome(p.vs) {
      var vs := Values(p.vs);
      SetAllKeeps(o, n, left.items, vs, p.st, f);
      var r := SetAll(o, n, left.items, vs, p.st);
      if r.Done? {
        PushAllIs(r.st, vs);
        PushAllIs(In(r.st, f), vs);
      }
    }
  }

  lemma {:induction false} OpAssignKeeps(o: Ops, n: nat, t: Tree, st: State, f: Option<FuncDef>)
    requires t.OpAssign?
    ensures Kept(st, OpAssignTo(o, n, t, st), OpAssignTo(o, n, t, In(st, f)), f, Returnless(t))
    decreases n, t, 6
  {
    ExecKeeps(o, n, t.left, st, f);
    var l := Exec(o, n, t.left, st);
    if l.Done? {
      ExecKeeps(o, n, t.right, l.st, f);
      var r := Exec(o, n, t.right, l.st);
      if r.Done? {
        CombinedKeeps(o, n, t, r.st, f);
      }
    } else if l.Failed? {
      AfterFails(o, t.right, l.st);
    }
  }

  lemma {:induction false} CombinedKeeps(o: Ops, n: nat, t: Tree, st: State, f: Option<FuncDef>)
    requires t.OpAssign?
    ensures Kept(st, StoreCombined(o, n, t, st), StoreCombined(o, n, t, In(st, f)), f, Returnless(t.left))
    decreases n, t, 5
  {
    var p := PopTwo(st);
    if p.TwoPopped? {
      var x := Combine(o, t.op, p.left, p.right);
      if x.Some? {
        SetKeeps(o, n, t.left, Scalar(x.value), p.st, f);
      }
    }
  }

  lemma {:induction false} DeleteKeeps(o: Ops, n: nat, t: Tree, st: State, f: Option<FuncDef>)
    requires t.Del?
    ensures Kept(st, Delete(o, n, t, st), Delete(o, n, t, In(st, f)), f, Returnless(t))
    decreases n, t, 5
  {
    if t.target.Id? {
      var k := FindScope(st.scopes, t.target.name);
      assert k.Some? ==> RemoveIn(In(st, f), k.value, t.target.name) == In(RemoveIn(st, k.value, t.target.name), f);
    } else if t.target.Access? {
      assert Returnless(t.target) ==> AllReturnless(t.target.ind);
      IndexKeeps(o, n, t.target.ind, [], st, f);
      IndexStops(o, n, t.target.ind, [], st);
    }
  }

  // ----- loops -----

  lemma {:induction false} ForKeeps(o: Ops, n: nat, t: Tree, st: State, f: Option<FuncDef>)
    requires t.For?
    ensures Kept(st, Exec(o, n, t, st), Exec(o, n, t, In(st, f)), f, Returnless(t))
    decreases n, t, 8
  {
    if t.init.Null? {
      ForLoopKeeps(o, n, t, st, f);
    } else {
      ExecKeeps(o, n, t.init, st, f);
      var r := Exec(o, n, t.init, st);
      if r.Done? {
        ForLoopKeeps(o, n, t, r.st, f);
      }
    }
  }

  lemma {:induction false} ForLoopKeeps(o: Ops, n: nat, t: Tree, st: State, f: Option<FuncDef>)
    requires t.For?
    ensures Kept(st, ForLoop(o, n, t, st), ForLoop(o, n, t, In(st, f)), f, Returnless(t))
    decreases n, t, 7
  {
    if n > 0 {
      ForRoundKeeps(o, n, t, st, f);
      var r := ForRound(o, n, t, st);
      if r.Again? {
        ForLoopKeeps(o, n - 1, t, r.st, f);
      }
    }
  }

  lemma {:induction false} ForRoundKeeps(o: Ops, n: nat, t: Tree, st: State, f: Option<FuncDef>)
    requires t.For?
    ensures RoundKept(st, ForRound(o, n, t, st), ForRound(o, n, t, In(st, f)), f, Returnless(t))
    decreases n, t, 6
  {
    if !t.cond.Null? {
      CondKeeps(o, n, t.cond, st, f);
      CondStops(o, n, t.cond, st);
    }
    var c := if t.cond.Null? then CondIs(true, st) else Cond(o, n, t.cond, st);
    if c.CondIs? && c.b {
      ExecKeeps(o, n, t.body, c.st, f);
      var r := Exec(o, n, t.body, c.st);
      CatchKeeps(c.st, r, Exec(o, n, t.body, In(c.st, f)), f, Returnless(t.body));
      var k := Catch(r);
      if k.Again? {
        ForNextKeeps(o, n, t, k.st, f);
      }
    }
  }

  lemma {:induction false} ForNextKeeps(o: Ops, n: nat, t: Tree, st: State, f: Option<FuncDef>)
    requires t.For?
    ensures RoundKept(st, ForNext(o, n, t, st), ForNext(o, n, t, In(st, f)), f, Returnless(t))
    decreases n, t, 5
  {
    if !t.step.Null? {
      ExecKeeps(o, n, t.step, st, f);
    }
  }

  lemma CatchKeeps(st: State, r: Res, r': Res, f: Option<FuncDef>, q: bool)
    requires Kept(st, r, r', f, q)
    ensures RoundKept(st, Catch(r), Catch(r'), f, q)
  {
  }

  lemma CondStops(o: Ops, n: nat, t: Tree, st: State)
    ensures Cond(o, n, t, st).CondStop? ==> !Cond(o, n, t, st).r.Done?
  {
  }

  lemma {:induction false} WhileKeeps(o: Ops, n: nat, t: Tree, st: State, f: Option<FuncDef>)
    requires t.While?
    ensures Kept(st, WhileLoop(o, n, t, st), WhileLoop(o, n, t, In(st, f)), f, Returnless(t))
    decreases n, t, 7
  {
    if n > 0 {
      WhileRoundKeeps(o, n, t, st, f);
      var r := WhileRound(o, n, t, st);
      if r.Again? {
        WhileKeeps(o, n - 1, t, r.st, f);
      }
    }
  }

  lemma {:induction false} WhileRoundKeeps(o: Ops, n: nat, t: Tree, st: State, f: Option<FuncDef>)
    requires t.While?
    ensures RoundKept(st, WhileRound(o, n, t, st), WhileRound(o, n, t, In(st, f)), f, Returnless(t))
    decreases n, t, 6
  {
    CondKeeps(o, n, t.cond, st, f);
    CondStops(o, n, t.cond, st);
    var c := Cond(o, n, t.cond, st);
    if c.CondIs? && c.b && !t.body.Null? {
      ExecKeeps(o, n, t.body, c.st, f);
      CatchKeeps(c.st, Exec(o, n, t.body, c.st), Exec(o, n, t.body, In(c.st, f)), f, Returnless(t.body));
    }
  }

  lemma {:induction false} DoKeeps(o: Ops, n: nat, t: Tree, st: State, f: Option<FuncDef>)
    requires t.Do?
    ensures Kept(st, DoLoop(o, n, t, st), DoLoop(o, n, t, In(st, f)), f, Returnless(t))
    decreases n, t, 7
  {
    if n > 0 {
      DoRoundKeeps(o, n, t, st, f);
      var r := DoRound(o, n, t, st);
      if r.Again? {
        DoKeeps(o, n - 1, t, r.st, f);
      }
    }
  }

  lemma {:induction false} DoRoundKeeps(o: Ops, n: nat, t: Tree, st: State, f: Option<FuncDef>)
    requires t.Do?
    ensures RoundKept(st, DoRound(o, n, t, st), DoRound(o, n, t, In(st, f)), f, Returnless(t))
    decreases n, t, 6
  {
    if !t.body.Null? {
      ExecKeeps(o, n, t.body, st, f);
    }
    var r := if t.body.Null? then Done(st, Normal) else Exec(o, n, t.body, st);
    var r' := if t.body.Null? then Done(In(st, f), Normal) else Exec(o, n, t.body, In(st, f));
    CatchKeeps(st, r, r', f, Returnless(t.body));
    if r.Done? && r.out.Normal? {
      DoTestKeeps(o, n, t, r.st, f);
    }
  }

  lemma {:induction false} DoTestKeeps(o: Ops, n: nat, t: Tree, st: State, f: Option<FuncDef>)
    requires t.Do?
    ensures RoundKept(st, DoTest(o, n, t, st), DoTest(o, n, t, In(st, f)), f, Returnless(t.cond))
    decreases n, t, 5
  {
    CondKeeps(o, n, t.cond, st, f);
    CondStops(o, n, t.cond, st);
  }
}
