/** What a call yields: the values that the scope of the body gives to the results of the function. */
module Calls {
  import opened Ast
  import opened Basics
  import opened Semantics
  import opened Denotation
  import opened Assignments
  import opened Updates
  import opened Control
  import opened Frames

  // ----- results -----

  /** The scope gives a scalar to every result. */
  predicate Gives(scope: Scope, rets: seq<string>) {
    forall i :: 0 <= i < |rets| ==> rets[i] in scope && scope[rets[i]].Scalar?
  }

  function Results(scope: Scope, rets: seq<string>): (r: seq<Eval>)
    requires Gives(scope, rets)
    ensures |r| == |rets| && forall i :: 0 <= i < |rets| ==> r[i] == scope[rets[i]]
  {
    if rets == [] then [] else [scope[rets[0]]] + Results(scope, rets[1..])
  }

  /** The current scope. */
  function Top(st: State): Scope {
    if st.scopes == [] then map[] else st.scopes[0]
  }

  /** The results can be taken from the current scope and fit the stack. */
  predicate CanYield(st: State, rets: seq<string>) {
    Gives(Top(st), rets) && HasRoom(|rets|, |st.stack|)
  }

  /** With the results on the stack, the first on top. */
  function Yielded(st: State, rets: seq<string>): State
    requires CanYield(st, rets)
  {
    st.(stack := st.stack + Reversed(Results(Top(st), rets)))
  }

  lemma {:induction false} ResultsSnoc(scope: Scope, rets: seq<string>)
    requires Gives(scope, rets) && rets != []
    ensures var n := |rets| - 1; Results(scope, rets) == Results(scope, rets[..n]) + [scope[rets[n]]]
  {
  }

  lemma {:induction false} LastFirstIs(st: State, rets: seq<string>)
    ensures PushLastFirst(st, rets).Done? <==> CanYield(st, rets)
    ensures CanYield(st, rets) ==> PushLastFirst(st, rets) == Done(Yielded(st, rets), Normal)
    decreases |rets|
  {
    if rets == [] {
      assert st.stack + [] == st.stack;
    } else {
      var n := |rets| - 1;
      if rets[n] in Top(st) && Top(st)[rets[n]].Scalar? {
        var st1 := st.(stack := st.stack + [Top(st)[rets[n]]]);
        LastFirstIs(st1, rets[..n]);
        assert CanYield(st, rets) <==> Room(st.stack) && CanYield(st1, rets[..n]) by {
          assert forall i :: 0 <= i < n ==> rets[..n][i] == rets[i];
        }
        if CanYield(st, rets) {
          ResultsSnoc(Top(st), rets);
          FirstOnTop(st.stack, Results(Top(st), rets[..n]), Top(st)[rets[n]]);
        }
      }
    }
  }

  lemma ReturnsAre(st: State, rets: seq<string>)
    ensures PushReturns(st, rets).Done? <==> CanYield(st, rets)
    ensures CanYield(st, rets) ==> PushReturns(st, rets) == Done(Yielded(st, rets), Normal)
  {
    LastFirstIs(st, rets);
  }

  // ----- return -----

  /** `st` is left by a `return` in the function `f` that was reached in `end`. */
  predicate ReturnedAt(f: Option<FuncDef>, end: State, st: State) {
    f.Some? && CanYield(end, f.value.rets) && st == Yielded(end, f.value.rets)
  }

  /** Only these can end other than normally. */
  predicate Jumps(t: Tree) {
    t.Return? || t.Break? || t.Continue? || t.Ternary? || t.If? || t.For? || t.While? || t.Do? || t.Scope?
  }

  lemma OthersEndNormally(o: Ops, n: nat, t: Tree, st: State)
    requires !Jumps(t) && Exec(o, n, t, st).Done?
    ensures Exec(o, n, t, st).out == Normal
  {
    ExecIs(o, n, t, st);
    match t
    case Seq(items) => BackEndsNormally(o, n, items, st);
    case Arr(items) => ItemsEndNormally(o, n, items, map[], st, 0);
    case Binary(l, r, op) =>
      BinaryOn(o, n, l, r, op, st);
      if Exec(o, n, l, st).Done? && Exec(o, n, r, Exec(o, n, l, st).st).Done? {
        ApplyEndsNormally(o, op, Exec(o, n, r, Exec(o, n, l, st).st).st);
      }
      if Exec(o, n, l, st).Failed? {
        AfterFails(o, r, Exec(o, n, l, st).st);
      }
    case OpAssign(l, r, op) =>
      OpAssignOn(o, n, l, r, op, st);
      if Exec(o, n, l, st).Done? && Exec(o, n, r, Exec(o, n, l, st).st).Done? {
        StoringEndsNormally(o, n, t, Exec(o, n, r, Exec(o, n, l, st).st).st);
      }
      if Exec(o, n, l, st).Failed? {
        AfterFails(o, r, Exec(o, n, l, st).st);
      }
    case Access(_, ind) => IndexStops(o, n, ind, [], st);
    case Del(e) => if e.Access? { IndexStops(o, n, e.ind, [], st); }
    case Call(_, _) => CallEndsNormally(o, n, t, st);
    case _ =>
  }

  lemma ApplyEndsNormally(o: Ops, op: Opcode, st: State)
    ensures ApplyBinary(o, op, st).Done? ==> ApplyBinary(o, op, st).out == Normal
  {
  }

  lemma CallEndsNormally(o: Ops, n: nat, t: Tree, st: State)
    requires t.Call?
    ensures CallFunction(o, n, t, st).Done? ==> CallFunction(o, n, t, st).out == Normal
  {
    if t.name in st.funcs && |t.args| == |st.funcs[t.name].params| {
      var f := st.funcs[t.name];
      ArgsStops(o, n, t.args, f.params, map[], st);
      var a := Args(o, n, t.args, f.params, map[], st);
      if a.ArgsAre? && n > 0 {
        BodyEndsNormally(o, n - 1, f, a.scope, a.st);
      }
    }
  }

  lemma BodyEndsNormally(o: Ops, n: nat, f: FuncDef, scope: Scope, st: State)
    ensures RunBody(o, n, f, scope, st).Done? ==> RunBody(o, n, f, scope, st).out == Normal
  {
  }

  lemma StoringEndsNormally(o: Ops, n: nat, t: Tree, st: State)
    requires t.OpAssign?
    ensures StoreCombined(o, n, t, st).Done? ==> StoreCombined(o, n, t, st).out == Normal
  {
    var p := PopTwo(st);
    if p.TwoPopped? && Combine(o, t.op, p.left, p.right).Some? {
      SetEndsNormally(o, n, t.left, Scalar(Combine(o, t.op, p.left, p.right).value), p.st);
    }
  }

  lemma SetEndsNormally(o: Ops, n: nat, t: Tree, v: Eval, st: State)
    ensures Set(o, n, t, v, st).Done? ==> Set(o, n, t, v, st).out == Normal
  {
    if t.Access? && st.scopes != [] {
      IndexStops(o, n, t.ind, [], st);
      IndexStops(o, n, t.ind, [], SetIn(st, 0, t.name, Array(map[])));
    }
  }

  lemma {:induction false} BackEndsNormally(o: Ops, n: nat, items: seq<Tree>, st: State)
    ensures ExecBack(o, n, items, st).Done? ==> ExecBack(o, n, items, st).out == Normal
    decreases |items|
  {
    if items != [] {
      var last, rest := items[|items| - 1], items[..|items| - 1];
      var r := Exec(o, n, last, st);
      if r.Done? {
        BackEndsNormally(o, n, rest, r.st);
      } else if r.Failed? {
        AfterBackFails(o, rest, r.st);
      }
    }
  }

  lemma {:induction false} ItemsEndNormally(o: Ops, n: nat, items: seq<Tree>, m: map<string, Value>, st: State, i: nat)
    ensures Items(o, n, items, m, st, i).Done? ==> Items(o, n, items, m, st, i).out == Normal
    decreases |items|
  {
    ItemsIs(o, n, items, m, st, i);
    if items != [] {
      var r := Exec(o, n, items[0], st);
      if r.Done? {
        var p := Pop(r.st);
        if p.Popped? && p.v.Some? && p.v.value.Scalar? {
          ItemsEndNormally(o, n, items[1..], m[o.key([Number(i)]) := p.v.value.v], p.st, i + 1);
        }
      }
    }
  }

  /** Whatever ends by `return` has left the results of the current function on the stack, as the scope at the
      `return` gives them. */
  lemma {:induction false} ReturnLeaves(o: Ops, n: nat, t: Tree, st: State) returns (end: State)
    requires Exec(o, n, t, st).Done? && Exec(o, n, t, st).out == Returned
    ensures ReturnedAt(st.func, end, Exec(o, n, t, st).st)
    decreases n, t, 9
  {
    ExecIs(o, n, t, st);
    end := st;
    if !Jumps(t) {
      OthersEndNormally(o, n, t, st);
    }
    match t
    case Return =>
      ReturnsAre(st, st.func.value.rets);
    case Scope(stmts) => end := ReturnLeavesAll(o, n, stmts, st);
    case If(c, y, e) =>
      CondKeeps(o, n, c, st, st.func);
      CondStops(o, n, c, st);
      var d := Cond(o, n, c, st);
      end := ReturnLeaves(o, n, if d.b then y else e, d.st);
    case Ternary(c, y, e) =>
      CondKeeps(o, n, c, st, st.func);
      CondStops(o, n, c, st);
      var d := Cond(o, n, c, st);
      end := ReturnLeaves(o, n, if d.b then y else e, d.st);
    case For(init, _, _, _) =>
      var r := if init.Null? then Done(st, Normal) else Exec(o, n, init, st);
      if !init.Null? { ExecKeeps(o, n, init, st, st.func); }
      end := ReturnLeavesFor(o, n, t, r.st);
    case While(_, _) => end := ReturnLeavesWhile(o, n, t, st);
    case Do(_, _) => end := ReturnLeavesDo(o, n, t, st);
    case _ =>
  }

  lemma ReturnLeavesAll(o: Ops, n: nat, stmts: seq<Tree>, st: State) returns (end: State)
    requires ExecAll(o, n, stmts, st).Done? && ExecAll(o, n, stmts, st).out == Returned
    ensures ReturnedAt(st.func, end, ExecAll(o, n, stmts, st).st)
    decreases n, stmts, 8
  {
    var r := Exec(o, n, stmts[0], st);
    if r.out == Returned {
      end := ReturnLeaves(o, n, stmts[0], st);
    } else {
      ExecKeeps(o, n, stmts[0], st, st.func);
      end := ReturnLeavesAll(o, n, stmts[1..], r.st);
    }
  }

  lemma ReturnLeavesWhile(o: Ops, n: nat, t: Tree, st: State) returns (end: State)
    requires t.While? && WhileLoop(o, n, t, st).Done? && WhileLoop(o, n, t, st).out == Returned
    ensures ReturnedAt(st.func, end, WhileLoop(o, n, t, st).st)
    decreases n, t, 8
  {
    WhileRoundKeeps(o, n, t, st, st.func);
    CondKeeps(o, n, t.cond, st, st.func);
    CondStops(o, n, t.cond, st);
    match WhileRound(o, n, t, st)
    case Again(st1) => end := ReturnLeavesWhile(o, n - 1, t, st1);
    case Over(_) => end := ReturnLeaves(o, n, t.body, Cond(o, n, t.cond, st).st);
  }

  lemma ReturnLeavesDo(o: Ops, n: nat, t: Tree, st: State) returns (end: State)
    requires t.Do? && DoLoop(o, n, t, st).Done? && DoLoop(o, n, t, st).out == Returned
    ensures ReturnedAt(st.func, end, DoLoop(o, n, t, st).st)
    decreases n, t, 8
  {
    DoRoundKeeps(o, n, t, st, st.func);
    match DoRound(o, n, t, st)
    case Again(st1) => end := ReturnLeavesDo(o, n - 1, t, st1);
    case Over(_) =>
      var r := if t.body.Null? then Done(st, Normal) else Exec(o, n, t.body, st);
      if r.Done? && r.out.Normal? {
        TestEndsNormally(o, n, t, r.st);
        assert false;
      }
      end := ReturnLeaves(o, n, t.body, st);
  }

  lemma TestEndsNormally(o: Ops, n: nat, t: Tree, st: State)
    requires t.Do?
    ensures DoTest(o, n, t, st).Over? && DoTest(o, n, t, st).r.Done? ==> DoTest(o, n, t, st).r.out == Normal
  {
    CondStops(o, n, t.cond, st);
  }

  lemma NextStops(o: Ops, n: nat, t: Tree, st: State)
    requires t.For?
    ensures ForNext(o, n, t, st).Over? ==> !ForNext(o, n, t, st).r.Done?
  {
  }

  lemma ReturnLeavesFor(o: Ops, n: nat, t: Tree, st: State) returns (end: State)
    requires t.For? && ForLoop(o, n, t, st).Done? && ForLoop(o, n, t, st).out == Returned
    ensures ReturnedAt(st.func, end, ForLoop(o, n, t, st).st)
    decreases n, t, 8
  {
    ForRoundKeeps(o, n, t, st, st.func);
    match ForRound(o, n, t, st)
    case Again(st1) => end := ReturnLeavesFor(o, n - 1, t, st1);
    case Over(_) =>
      if !t.cond.Null? {
        CondKeeps(o, n, t.cond, st, st.func);
        CondStops(o, n, t.cond, st);
      }
      var c := if t.cond.Null? then CondIs(true, st) else Cond(o, n, t.cond, st);
      var k := Catch(Exec(o, n, t.body, c.st));
      if k.Again? {
        NextStops(o, n, t, k.st);
        assert false;
      }
      end := ReturnLeaves(o, n, t.body, c.st);
  }

  // ----- calls -----

  /** The parameters with the values of the arguments. */
  function Named(params: seq<string>, vals: seq<Eval>): Scope
    requires |params| == |vals|
  {
    if params == [] then map[] else Named(params[1..], vals[1..])[params[0] := vals[0]]
  }

  predicate Distinct(names: seq<string>) {
    forall i, j :: 0 <= i < j < |names| ==> names[i] != names[j]
  }

  /** Each parameter has the value of its argument, and nothing else is in the scope. */
  lemma {:induction false} NamedAre(params: seq<string>, vals: seq<Eval>, x: string)
    requires |params| == |vals| && Distinct(params)
    ensures x in Named(params, vals) <==> x in params
    ensures forall i :: 0 <= i < |params| && params[i] == x ==>
              x in Named(params, vals) && Named(params, vals)[x] == vals[i]
  {
    if params != [] {
      NamedAre(params[1..], vals[1..], x);
      assert params == [params[0]] + params[1..];
      assert forall i :: 0 < i < |params| ==> params[1..][i - 1] == params[i] && vals[1..][i - 1] == vals[i];
    }
  }

  /** Side-effect-free arguments with these values, and slots for evaluating each and taking it off. */
  predicate Evaluated(o: Ops, args: seq<Tree>, vals: seq<Eval>, st: State) {
    && |args| == |vals| && AllPure(args)
    && forall i :: 0 <= i < |args| ==>
         Den(o, args[i], st.scopes) == Is(vals[i]) && HasRoom(Max(Slots(o, args[i], st.scopes), 2), |st.stack|)
  }

  function Joined(a: Scope, b: Scope): Scope {
    map x | x in a.Keys + b.Keys :: if x in b then b[x] else a[x]
  }

  lemma {:induction false} ArgsRun(o: Ops, n: nat, args: seq<Tree>, params: seq<string>, vals: seq<Eval>, scope: Scope,
      st: State)
    requires |args| == |params| && Evaluated(o, args, vals, st) && Distinct(params)
    requires forall i :: 0 <= i < |params| ==> params[i] !in scope
    ensures Args(o, n, args, params, scope, st) == ArgsAre(Joined(scope, Named(params, vals)), st)
    decreases |args|
  {
    if args == [] {
      assert Joined(scope, map[]) == scope;
    } else {
      FirstArgument(o, n, args, params, vals, scope, st);
      var scope1 := scope[params[0] := vals[0]];
      assert forall i :: 0 < i < |params| ==> params[1..][i - 1] == params[i] && params[i] != params[0];
      ArgsRun(o, n, args[1..], params[1..], vals[1..], scope1, st);
      JoinFirst(scope, params, vals);
    }
  }

  lemma FirstArgument(o: Ops, n: nat, args: seq<Tree>, params: seq<string>, vals: seq<Eval>, scope: Scope, st: State)
    requires args != [] && |args| == |params| && Evaluated(o, args, vals, st) && params[0] !in scope
    ensures Args(o, n, args, params, scope, st) == Args(o, n, args[1..], params[1..], scope[params[0] := vals[0]], st)
  {
    ArgsIs(o, n, args, params, scope, st);
    StackEvaluation(o, n, args[0], st);
    PushThenPop(st, vals[0]);
  }

  lemma JoinFirst(scope: Scope, params: seq<string>, vals: seq<Eval>)
    requires |params| == |vals| > 0 && Distinct(params)
    ensures Joined(scope[params[0] := vals[0]], Named(params[1..], vals[1..])) == Joined(scope, Named(params, vals))
  {
    NamedAre(params[1..], vals[1..], params[0]);
  }

  /** The state in which the body of a call starts. */
  function Start(f: FuncDef, vals: seq<Eval>, st: State): State
    requires |f.params| == |vals|
  {
    State([Named(f.params, vals)] + st.scopes, st.stack, st.funcs, Some(f))
  }

  /** The body of `f`, run from `start`, comes to its end in `end`, or to a `return` there. */
  ghost predicate BodyEnds(o: Ops, n: nat, f: FuncDef, start: State, end: State) {
    && CanYield(end, f.rets)
    && var r := Exec(o, n, Scope(f.stmts), start);
       r == Done(end, Normal) || r == Done(Yielded(end, f.rets), Returned)
  }

  /** What a call leaves when its body has ended in `end`: the scope of the body is gone, its results are on the
      stack, the first on top, and the function before is the current one again. */
  function CallLeaves(f: FuncDef, end: State, st: State): State
    requires CanYield(end, f.rets)
  {
    var scopes := if end.scopes == [] then [] else end.scopes[1..];
    State(scopes, end.stack + Reversed(Results(Top(end), f.rets)), end.funcs, st.func)
  }

  ghost predicate Callable(o: Ops, n: nat, name: string, args: seq<Tree>, vals: seq<Eval>, st: State) {
    && n > 0 && name in st.funcs && Evaluated(o, args, vals, st)
    && |st.funcs[name].params| == |args| && Distinct(st.funcs[name].params)
  }

  lemma CallEnters(o: Ops, n: nat, name: string, args: seq<Tree>, vals: seq<Eval>, st: State)
    requires Callable(o, n, name, args, vals, st)
    ensures var f := st.funcs[name];
            Exec(o, n, Call(name, args), st) == RunBody(o, n - 1, f, Named(f.params, vals), st)
  {
    var f := st.funcs[name];
    ExecIs(o, n, Call(name, args), st);
    ArgsRun(o, n, args, f.params, vals, map[], st);
    assert Joined(map[], Named(f.params, vals)) == Named(f.params, vals);
  }

  /** What a call makes of the end of its body. */
  function CallEnd(f: FuncDef, caller: Option<FuncDef>, r: Res): Res {
    match if r.Done? then FinishFunction(f, caller, r.st, r.out) else r
    case Done(st, _) => Done(PopScope(st), Normal)
    case Failed(st) => Failed(PopScope(st))
    case x => x
  }

  lemma BodyRunsFrom(o: Ops, n: nat, f: FuncDef, vals: seq<Eval>, st: State)
    requires |f.params| == |vals|
    ensures RunBody(o, n, f, Named(f.params, vals), st)
         == CallEnd(f, st.func, Exec(o, n, Scope(f.stmts), Start(f, vals, st)))
  {
    var inner := st.(scopes := [Named(f.params, vals)] + st.scopes);
    assert inner.(func := Some(f)) == Start(f, vals, st);
  }

  lemma EndYields(f: FuncDef, end: State, st: State, r: Res)
    requires CanYield(end, f.rets) && (r == Done(end, Normal) || r == Done(Yielded(end, f.rets), Returned))
    ensures CallEnd(f, st.func, r) == Done(CallLeaves(f, end, st), Normal)
  {
    ReturnsAre(end, f.rets);
  }

  /** A call whose body ends, by `return` or at its end, leaves the values that its scope then gives to the results
      of the function. */
  lemma CallYields(o: Ops, n: nat, name: string, args: seq<Tree>, vals: seq<Eval>, st: State, end: State)
    requires Callable(o, n, name, args, vals, st)
    requires BodyEnds(o, n - 1, st.funcs[name], Start(st.funcs[name], vals, st), end)
    ensures Exec(o, n, Call(name, args), st) == Done(CallLeaves(st.funcs[name], end, st), Normal)
  {
    var f := st.funcs[name];
    CallEnters(o, n, name, args, vals, st);
    BodyRunsFrom(o, n - 1, f, vals, st);
    EndYields(f, end, st, Exec(o, n - 1, Scope(f.stmts), Start(f, vals, st)));
  }

  /** And a call that succeeds has such a body. */
  lemma CallEnded(o: Ops, n: nat, name: string, args: seq<Tree>, vals: seq<Eval>, st: State) returns (end: State)
    requires Callable(o, n, name, args, vals, st) && Exec(o, n, Call(name, args), st).Done?
    ensures BodyEnds(o, n - 1, st.funcs[name], Start(st.funcs[name], vals, st), end)
  {
    var f := st.funcs[name];
    var start := Start(f, vals, st);
    CallEnters(o, n, name, args, vals, st);
    BodyRunsFrom(o, n - 1, f, vals, st);
    var r := Exec(o, n - 1, Scope(f.stmts), start);
    if r.out == Returned {
      end := ReturnLeaves(o, n - 1, Scope(f.stmts), start);
    } else {
      end := r.st;
      ReturnsAre(end, f.rets);
    }
  }

  /** So the successful calls are those whose body ends with its results in its scope. */
  lemma CallsAreBodies(o: Ops, n: nat, name: string, args: seq<Tree>, vals: seq<Eval>, st: State, r: Res)
    requires Callable(o, n, name, args, vals, st) && r.Done?
    ensures var f := st.funcs[name];
            Exec(o, n, Call(name, args), st) == r
            <==> exists end ::
                   BodyEnds(o, n - 1, f, Start(f, vals, st), end) && r == Done(CallLeaves(f, end, st), Normal)
  {
    var f := st.funcs[name];
    if Exec(o, n, Call(name, args), st) == r {
      var end := CallEnded(o, n, name, args, vals, st);
      CallYields(o, n, name, args, vals, st, end);
      assert BodyEnds(o, n - 1, f, Start(f, vals, st), end) && r == Done(CallLeaves(f, end, st), Normal);
    }
    if end :| BodyEnds(o, n - 1, f, Start(f, vals, st), end) && r == Done(CallLeaves(f, end, st), Normal) {
      CallYields(o, n, name, args, vals, st, end);
    }
  }

  /** A definition makes a function of its name: a call of it binds its parameters, runs its statements and yields its
      results, whatever the name meant before. */
  lemma DefinedCall(o: Ops, n: nat, t: Tree, args: seq<Tree>, vals: seq<Eval>, st: State, end: State)
    requires t.Func? && n > 0 && Evaluated(o, args, vals, st) && |t.params| == |args| && Distinct(t.params)
    requires CanYield(end, t.rets)
    requires var f := FuncDef(t.params, t.rets, t.stmts);
             var start := State([Named(t.params, vals)] + st.scopes, st.stack, st.funcs[t.name := f], Some(f));
             var r := Exec(o, n - 1, Scope(t.stmts), start);
             r == Done(end, Normal) || r == Done(Yielded(end, t.rets), Returned)
    ensures var d := Exec(o, n, t, st);
            && d.Done? && d.out == Normal
            && var c := Exec(o, n, Call(t.name, args), d.st);
               && c.Done? && c.st.stack == end.stack + Reversed(Results(Top(end), t.rets))
               && c.st.scopes == (if end.scopes == [] then [] else end.scopes[1..]) && c.st.func == st.func
  {
    var f := FuncDef(t.params, t.rets, t.stmts);
    var st1 := st.(funcs := st.funcs[t.name := f]);
    assert Exec(o, n, t, st) == Done(st1, Normal);
    CallYields(o, n, t.name, args, vals, st1, end);
  }

  // ----- taking the results -----

  /** `x1, ..., xk = f(...)`: each name has the value that the scope of the body gives to its result, in the scope of
      the caller. */
  lemma ResultsAssigned(o: Ops, n: nat, names: seq<Tree>, name: string, args: seq<Tree>, vals: seq<Eval>, st: State,
      end: State)
    requires Callable(o, n, name, args, vals, st)
    requires BodyEnds(o, n - 1, st.funcs[name], Start(st.funcs[name], vals, st), end) && |end.scopes| > 1
    requires var rets := st.funcs[name].rets; |names| == |rets| > 0 && |end.stack| + |rets| + 1 < STACK_SZ
    requires Plain(names) && DistinctNames(names)
    ensures var rets := st.funcs[name].rets;
            var back := State(end.scopes[1..], end.stack, end.funcs, st.func);
            Exec(o, n, Assign(Seq(names), Seq([Call(name, args)])), st)
            == Done(BindCurrent(back, names, Results(end.scopes[0], rets)), Normal)
  {
    var call, rets := Call(name, args), st.funcs[name].rets;
    var values, back := Results(end.scopes[0], rets), State(end.scopes[1..], end.stack, end.funcs, st.func);
    var t := Assign(Seq(names), Seq([call]));
    ExecIs(o, n, t, st);
    ExecIs(o, n, Seq([call]), st);
    OneSide(o, n, call, st);
    CallYields(o, n, name, args, vals, st, end);
    StoreResults(o, n, names, values, back);
    RemovesPushed(BindCurrent(back, names, values), values);
  }

  lemma StoreResults(o: Ops, n: nat, names: seq<Tree>, values: seq<Eval>, st: State)
    requires Plain(names) && |names| == |values| > 0 && st.scopes != [] && |st.stack| + |values| + 1 < STACK_SZ
    ensures StoreTop(o, n, Seq(names), st.(stack := st.stack + Reversed(values)))
         == Done(BindCurrent(st, names, values).(stack := st.stack + values), Normal)
  {
    StoreRuns(o, n, names, st.(stack := st.stack + Reversed(values)));
    StoredTop(st, st.stack, names, values);
  }

  // ----- return at the end -----

  /** A function with a `return` appended to a body without one. */
  function WithReturn(f: FuncDef): FuncDef {
    f.(stmts := f.stmts + [Return])
  }

  /** How a call goes on from the end of its body. */
  function Finished(f: FuncDef, caller: Option<FuncDef>, r: Res): Res {
    if r.Done? then FinishFunction(f, caller, r.st, r.out) else r
  }

  /** `b` is the end `a` of the same body in the function `g`. */
  ghost predicate Moved(a: Res, b: Res, g: FuncDef) {
    (a.Done? <==> b.Done?) && (a.Done? ==> b == Done(In(a.st, Some(g)), a.out) && a.out != Returned)
  }

  lemma MovedFinish(f: FuncDef, a: Res, b: Res, caller: Option<FuncDef>, r: Res)
    requires Moved(a, b, WithReturn(f)) && r.Done?
    ensures var c := if b.Done? && b.out == Normal then ReturnFrom(b.st) else b;
            Finished(f, caller, a) == r <==> Finished(WithReturn(f), caller, c) == r
  {
    if a.Done? {
      ReturnsAre(a.st, f.rets);
      ReturnsAre(b.st, f.rets);
    }
  }

  lemma BodyMoves(o: Ops, n: nat, f: FuncDef, s: State)
    requires AllReturnless(f.stmts) && s.func == Some(f)
    ensures var s' := In(s, Some(WithReturn(f)));
            Moved(ExecAll(o, n, f.stmts, s), ExecAll(o, n, f.stmts, s'), WithReturn(f))
  {
    var g := WithReturn(f);
    AllKeep(o, n, f.stmts, s, Some(g));
    AllKeep(o, n, f.stmts, In(s, Some(g)), Some(f));
    assert In(In(s, Some(g)), Some(f)) == s;
  }

  lemma ReturnRuns(o: Ops, n: nat, stmts: seq<Tree>, s: State)
    ensures var b := ExecAll(o, n, stmts, s);
            ExecAll(o, n, stmts + [Return], s) == if b.Done? && b.out == Normal then ReturnFrom(b.st) else b
  {
    BlockRuns(o, n, stmts, [Return], s);
    var b := ExecAll(o, n, stmts, s);
    assert Exec(o, n, Scope(stmts), s) == b;
    assert Exec(o, n, Scope(stmts + [Return]), s) == ExecAll(o, n, stmts + [Return], s);
    if b.Done? {
      BlockOfOne(o, n, Return, b.st);
    }
  }

  lemma BodyFinishes(o: Ops, n: nat, f: FuncDef, scope: Scope, st: State)
    ensures var inner := In(st.(scopes := [scope] + st.scopes), Some(f));
            RunBody(o, n, f, scope, st)
            == match Finished(f, st.func, ExecAll(o, n, f.stmts, inner))
               case Done(st1, _) => Done(PopScope(st1), Normal)
               case Failed(st1) => Failed(PopScope(st1))
               case x => x
  {
  }

  /** A `return` at the end of a body that comes to its end yields what the end yields. */
  lemma ReturnAtEnd(o: Ops, n: nat, f: FuncDef, scope: Scope, st: State)
    requires AllReturnless(f.stmts)
    ensures var a, b := RunBody(o, n, f, scope, st), RunBody(o, n, WithReturn(f), scope, st);
            a.Done? || b.Done? ==> a == b
  {
    var g := WithReturn(f);
    var s := In(st.(scopes := [scope] + st.scopes), Some(f));
    BodyMoves(o, n, f, s);
    ReturnRuns(o, n, f.stmts, In(s, Some(g)));
    var a, b := ExecAll(o, n, f.stmts, s), ExecAll(o, n, f.stmts, In(s, Some(g)));
    var c := if b.Done? && b.out == Normal then ReturnFrom(b.st) else b;
    var x, y := Finished(f, st.func, a), Finished(g, st.func, c);
    if x.Done? { MovedFinish(f, a, b, st.func, x); }
    if y.Done? { MovedFinish(f, a, b, st.func, y); }
    BodyFinishes(o, n, f, scope, st);
    BodyFinishes(o, n, g, scope, st);
    assert In(s, Some(g)) == In(st.(scopes := [scope] + st.scopes), Some(g));
  }

  /** So calls of the two functions succeed alike, for arguments of any kind. */
  lemma AppendedReturn(o: Ops, n: nat, a: string, b: string, args: seq<Tree>, st: State, r: Res)
    requires a in st.funcs && b in st.funcs && st.funcs[b] == WithReturn(st.funcs[a])
    requires AllReturnless(st.funcs[a].stmts)
    requires r.Done?
    ensures Exec(o, n, Call(a, args), st) == r <==> Exec(o, n, Call(b, args), st) == r
  {
    var f := st.funcs[a];
    ExecIs(o, n, Call(a, args), st);
    ExecIs(o, n, Call(b, args), st);
    if |args| == |f.params| && n > 0 {
      var x := Args(o, n, args, f.params, map[], st);
      if x.ArgsAre? {
        ReturnAtEnd(o, n - 1, f, x.scope, x.st);
      }
    }
  }

  // ----- an example -----

  /** `def [r] f(a) { r = a * 2 }`. */
  function Twice(): FuncDef {
    FuncDef(["a"], ["r"], [One(Id("r"), Binary(Id("a"), Var(Number(2)), OpMul))])
  }

  lemma TwiceStarts(o: Ops, st: State)
    requires |st.stack| + 3 < STACK_SZ
    ensures Named(["a"], [Scalar(Number(3))]) == map["a" := Scalar(Number(3))]
    ensures Evaluated(o, [Var(Number(3))], [Scalar(Number(3))], st)
  {
    var three := Var(Number(3));
    assert ["a"][1..] == [] && [Scalar(Number(3))][1..] == [];
    assert Slots(o, three, st.scopes) == 1 && Den(o, three, st.scopes) == Is(Scalar(Number(3)));
  }

  lemma TwiceEnds(o: Ops, n: nat, v: Value, start: State, end: State)
    requires start.scopes != [] && start.scopes[0] == map["a" := Scalar(Number(3))] && |start.stack| + 3 < STACK_SZ
    requires o.binary(OpMul, Number(3), Number(2)) == Some(v)
    requires end == start.(scopes := [start.scopes[0]["r" := Scalar(v)]] + start.scopes[1..])
    ensures BodyEnds(o, n, Twice(), start, end)
    ensures Results(Top(end), ["r"]) == [Scalar(v)]
  {
    var body := One(Id("r"), Binary(Id("a"), Var(Number(2)), OpMul));
    TwiceBody(o, n, v, start, end);
    BlockOfOne(o, n, body, start);
    assert Twice().stmts == [body];
  }

  /** After it `f(3)` leaves what `3 * 2` is. */
  lemma TwiceYields(o: Ops, n: nat, v: Value, st: State)
    requires n > 0 && "f" in st.funcs && st.funcs["f"] == Twice() && |st.stack| + 3 < STACK_SZ
    requires o.binary(OpMul, Number(3), Number(2)) == Some(v)
    ensures Exec(o, n, Call("f", [Var(Number(3))]), st) == Done(st.(stack := st.stack + [Scalar(v)]), Normal)
  {
    var vals := [Scalar(Number(3))];
    TwiceStarts(o, st);
    var start := Start(Twice(), vals, st);
    var end := start.(scopes := [start.scopes[0]["r" := Scalar(v)]] + start.scopes[1..]);
    TwiceEnds(o, n - 1, v, start, end);
    CallYields(o, n, "f", [Var(Number(3))], vals, st, end);
    assert Reversed([Scalar(v)]) == [Scalar(v)];
  }

  lemma TwiceBody(o: Ops, n: nat, v: Value, start: State, end: State)
    requires start.scopes != [] && start.scopes[0] == map["a" := Scalar(Number(3))] && |start.stack| + 3 < STACK_SZ
    requires o.binary(OpMul, Number(3), Number(2)) == Some(v)
    requires end == start.(scopes := [start.scopes[0]["r" := Scalar(v)]] + start.scopes[1..])
    ensures Exec(o, n, One(Id("r"), Binary(Id("a"), Var(Number(2)), OpMul)), start) == Done(end, Normal)
  {
    var e := Binary(Id("a"), Var(Number(2)), OpMul);
    assert Den(o, Id("a"), start.scopes) == Is(Scalar(Number(3)));
    assert Den(o, Var(Number(2)), start.scopes) == Is(Scalar(Number(2)));
    assert Den(o, e, start.scopes) == Is(Scalar(v)) && Slots(o, e, start.scopes) == 3;
    AssignOne(o, n, Id("r"), e, start);
  }
}
