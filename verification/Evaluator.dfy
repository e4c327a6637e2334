/** The tree evaluator of src/traverse.c on the program's own state: control flow by the counters of
    `helper`, errors by `nerrors`, operands on the value stack, names in the stack of scopes. */
module Evaluator {
  import opened Ast
  import opened Basics
  import S = Semantics

  /** Whether the process goes on, or what has ended it: an assertion of the value stack, or anything else.
      `Spent` when the fuel of the model is. */
  datatype Status = Running | Asserted | Dead | Spent

  datatype Body = ResError | ResOk | ResBreak | ResContinue | ResReturn

  function BodyOf(out: S.Outcome): Body {
    match out
    case Normal => ResOk
    case Broke => ResBreak
    case Continued => ResContinue
    case Returned => ResReturn
  }

  /** No array element is among the targets. */
  predicate NoElement(t: Tree) {
    !t.Access? && (t.Seq? ==> forall i :: 0 <= i < |t.items| ==> !t.items[i].Access?)
  }

  /** What a tree may do to the scopes: anything; or, calling only the functions named, neither delete nor
      write to array elements; or, moreover, not assign outside these functions. */
  datatype Mode = Any | Quiet(names: set<string>) | Still(names: set<string>)

  /** The mode inside a function. */
  function Within(mode: Mode): Mode {
    if mode.Still? then Quiet(mode.names) else mode
  }

  predicate MayCall(name: string, mode: Mode) {
    mode.Any? || name in mode.names
  }

  /** Whether the targets of an assignment are allowed. */
  predicate MaySet(t: Tree, mode: Mode) {
    mode.Any? || (mode.Quiet? && NoElement(t))
  }

  /** Where signals may arise: `break` and `continue` in loops only, `return` in functions only; operands
      send none, and those that are visited even after an error are expressions.  And the tree keeps to the
      mode. */
  ghost predicate Fits(t: Tree, inCycle: bool, inFunc: bool, mode: Mode) {
    match t
    case Break | Continue => inCycle
    case Return => inFunc
    case Unary(e, _) => Fits(e, false, false, mode)
    case Binary(l, r, _) => Fits(l, false, false, mode) && Fits(r, false, false, mode) && IsExpression(r)
    case Ternary(c, y, n) => Fits(c, false, false, mode) && Fits(y, false, false, mode) && Fits(n, false, false, mode)
    case Call(name, args) => MayCall(name, mode) && forall i :: 0 <= i < |args| ==> Fits(args[i], false, false, mode)
    case Access(_, ind) => forall i :: 0 <= i < |ind| ==> Fits(ind[i], false, false, mode)
    case Arr(items) => forall i :: 0 <= i < |items| ==> Fits(items[i], false, false, mode)
    case Seq(items) => AllExpressions(items) && forall i :: 0 <= i < |items| ==> Fits(items[i], false, false, mode)
    case Assign(l, r) => Fits(l, false, false, mode) && Fits(r, false, false, mode) && MaySet(l, mode)
    case OpAssign(l, r, _) =>
      Fits(l, false, false, mode) && Fits(r, false, false, mode) && MaySet(l, mode) && IsExpression(r)
    case If(c, body, els) =>
      Fits(c, false, false, mode) && Fits(body, inCycle, inFunc, mode) && Fits(els, inCycle, inFunc, mode)
    case For(i, c, s, body) =>
      && Fits(i, false, false, mode) && Fits(c, false, false, mode) && Fits(s, false, false, mode)
      && Fits(body, true, inFunc, mode)
    case While(c, body) => Fits(c, false, false, mode) && Fits(body, true, inFunc, mode)
    case Do(c, body) => Fits(c, false, false, mode) && Fits(body, true, inFunc, mode)
    case Del(e) => mode.Any? && Fits(e, false, false, mode)
    case Scope(stmts) => forall i :: 0 <= i < |stmts| ==> Fits(stmts[i], inCycle, inFunc, mode)
    case Func(name, _, _, stmts) =>
      forall i :: 0 <= i < |stmts| ==>
        Fits(stmts[i], false, true, Any) && (MayCall(name, mode) ==> Fits(stmts[i], false, true, Within(mode)))
    case _ => true
  }

  ghost predicate AllFit(ts: seq<Tree>, inCycle: bool, inFunc: bool, mode: Mode) {
    forall i :: 0 <= i < |ts| ==> Fits(ts[i], inCycle, inFunc, mode)
  }

  /** A function can be run, and if it may be called it keeps to the mode. */
  ghost predicate FuncFits(name: string, f: S.FuncDef, mode: Mode) {
    AllFit(f.stmts, false, true, Any) && (MayCall(name, mode) ==> AllFit(f.stmts, false, true, Within(mode)))
  }

  ghost predicate FuncsFit(funcs: map<string, S.FuncDef>, mode: Mode) {
    forall f :: f in funcs ==> FuncFits(f, funcs[f], mode)
  }

  predicate Statement(t: Tree) {
    t.If? || t.For? || t.While? || t.Do? || t.Break? || t.Continue? || t.Return? || t.Del? || t.Scope? || t.Func?
  }

  class Interp {
    const o: S.Ops
    var scopes: seq<S.Scope>
    var stack: seq<S.Eval>
    var funcs: map<string, S.FuncDef>
    var nerrors: nat
    // `helper`
    var isCall: nat
    var isCycle: nat
    var isReturn: nat
    var isBreak: nat
    var isContinue: nat
    var func: Option<S.FuncDef>
    /** What everything run now, functions included, keeps to. */
    ghost var mode: Mode

    /** After `id_table_init`, `function_table_init` and `stack_init`: one scope, and all of it empty. */
    constructor (o: S.Ops)
      ensures this.o == o && Ready() && St() == S.State([map[]], [], map[], None)
      ensures nerrors == isCall == isCycle == 0 && mode == Any
    {
      this.o := o;
      scopes, stack, funcs, func := [map[]], [], map[], None;
      nerrors, isCall, isCycle, isReturn, isBreak, isContinue := 0, 0, 0, 0, 0, 0;
      mode := Any;
    }

    ghost function St(): S.State
      reads this
    {
      S.State(scopes, stack, funcs, func)
    }

    /** What holds between statements: while there is no error no signal is pending. */
    ghost predicate Ready()
      reads this
    {
      scopes != [] && FuncsFit(funcs, mode) && (nerrors == 0 ==> isReturn == isBreak == isContinue == 0)
    }

    /** At most one signal is pending, the outcome's. */
    ghost predicate Signals(out: S.Outcome)
      reads this
    {
      && isBreak == (if out.Broke? then 1 else 0)
      && isContinue == (if out.Continued? then 1 else 0)
      && isReturn == (if out.Returned? then 1 else 0)
    }

    ghost predicate Pending(inCycle: bool, inFunc: bool)
      reads this
    {
      && (isBreak + isContinue > 0 ==> inCycle) && (isReturn > 0 ==> inFunc)
    }

    /** The machine ends where the structured semantics does. */
    ghost predicate Agrees(r: S.Res, s: Status)
      reads this
    {
      match r
      case Done(st, out) => s == Running && nerrors == 0 && St() == st && Signals(out)
      case Failed(st) => s == Running && nerrors > 0 && St() == st
      case Asserted => s == Asserted
      case Aborted => s == Dead
      case Timeout => s == Spent
    }

    /** The scopes are as many as before; those outside the current one are unchanged if what is run is quiet,
        all if it is still. */
    twostate predicate Steady()
      reads this
    {
      && mode == old(mode) && FuncsFit(funcs, mode) && |scopes| == |old(scopes)|
      && (!mode.Any? && scopes != [] ==> scopes[1..] == old(scopes)[1..]) && (mode.Still? ==> scopes == old(scopes))
    }

    /** Error or not, as long as the process goes on the scopes are steady; without an error the counters
        and the current function are restored. */
    twostate predicate Kept(new s: Status)
      reads this
    {
      s == Running ==>
        && Steady() && nerrors >= old(nerrors) && isCycle >= old(isCycle) && isCall >= old(isCall)
        && (nerrors == 0 ==> isCycle == old(isCycle) && isCall == old(isCall) && func == old(func))
    }

    /** How a traversal ends, given what the structured semantics says. */
    twostate predicate Ended(new s: Status, new inCycle: bool, new inFunc: bool, new r: S.Res)
      reads this
    {
      Kept(s) && (s == Running && nerrors == 0 ==> Pending(inCycle, inFunc)) && Agrees(r, s)
    }

    /** `traverse`; after an error only operands are visited. */
    method Traverse(t: Tree, fuel: nat, ghost inCycle: bool, ghost inFunc: bool) returns (s: Status)
      requires Ready() && Fits(t, inCycle, inFunc, mode) && (inCycle ==> isCycle > 0) && (inFunc ==> isCall > 0)
      requires nerrors == 0 || IsExpression(t)
      modifies this
      ensures Ended(s, inCycle, inFunc, S.Run(o, fuel, t, old(St()), old(nerrors) > 0))
      decreases fuel, t, 9, 2
    {
      S.ExecIs(o, fuel, t, St());
      if t.Null? {
        return Dead;
      } else if t.Stub? {
        return Running;
      } else if t.Var? {
        s := PushEval(S.Scalar(t.v));
      } else if t.Id? {
        s := TraverseId(t, fuel);
      } else if t.Unary? {
        s := TraverseUnary(t, fuel);
      } else if t.Binary? {
        s := TraverseOp(t, fuel);
      } else if t.Ternary? {
        s := TraverseTrenary(t, fuel);
      } else {
        s := TraverseMore(t, fuel, inCycle, inFunc);
      }
    }

    /** More cases of `traverse`. */
    method TraverseMore(t: Tree, fuel: nat, ghost inCycle: bool, ghost inFunc: bool) returns (s: Status)
      requires Ready() && Fits(t, inCycle, inFunc, mode) && (inCycle ==> isCycle > 0) && (inFunc ==> isCall > 0)
      requires t.Arr? || t.Seq? || t.Access? || t.Call? || t.Assign? || t.OpAssign? || Statement(t)
      requires nerrors == 0 || IsExpression(t)
      modifies this
      ensures Ended(s, inCycle, inFunc, S.Run(o, fuel, t, old(St()), old(nerrors) > 0))
      decreases fuel, t, 9, 1
    {
      S.ExecIs(o, fuel, t, St());
      if t.Arr? {
        s := TraverseArr(t, fuel);
      } else if t.Seq? {
        s := TraverseSeq(t, fuel);
      } else if t.Access? {
        s := TraverseAccess(t, fuel);
      } else if t.Call? {
        s := TraverseFuncCall(t, fuel);
      } else if t.Assign? {
        s := TraverseAs(t, fuel);
      } else if t.OpAssign? {
        s := TraverseOpAs(t, fuel);
      } else {
        s := TraverseStatement(t, fuel, inCycle, inFunc);
      }
    }

    /** The cases of `traverse` that are statements only. */
    method TraverseStatement(t: Tree, fuel: nat, ghost inCycle: bool, ghost inFunc: bool) returns (s: Status)
      requires Ready() && nerrors == 0 && Fits(t, inCycle, inFunc, mode) && (inCycle ==> isCycle > 0)
      requires inFunc ==> isCall > 0
      requires Statement(t)
      modifies this
      ensures Ended(s, inCycle, inFunc, S.Exec(o, fuel, t, old(St())))
      decreases fuel, t, 9, 0
    {
      S.ExecIs(o, fuel, t, St());
      if t.If? {
        s := TraverseIf(t, fuel, inCycle, inFunc);
      } else if t.For? {
        s := TraverseFor(t, fuel, inFunc);
      } else if t.While? {
        s := TraverseWhile(t, fuel, inFunc);
      } else if t.Do? {
        s := TraverseDo(t, fuel, inFunc);
      } else if t.Scope? {
        s := TraverseScope(t, fuel, inCycle, inFunc);
      } else {
        s := TraverseLast(t, fuel, inCycle, inFunc);
      }
    }

    /** The last cases of `traverse`. */
    method TraverseLast(t: Tree, fuel: nat, ghost inCycle: bool, ghost inFunc: bool) returns (s: Status)
      requires Ready() && nerrors == 0 && Fits(t, inCycle, inFunc, mode) && (inCycle ==> isCycle > 0)
      requires inFunc ==> isCall > 0
      requires t.Break? || t.Continue? || t.Return? || t.Del? || t.Func?
      modifies this
      ensures Ended(s, inCycle, inFunc, S.Exec(o, fuel, t, old(St())))
      decreases fuel, t, 8
    {
      S.ExecIs(o, fuel, t, St());
      if t.Break? {
        isBreak := isBreak + 1;
        return Running;
      } else if t.Continue? {
        isContinue := isContinue + 1;
        return Running;
      } else if t.Return? {
        s := TraverseReturn();
      } else if t.Del? {
        s := TraverseDel(t, fuel);
      } else {
        s := TraverseFuncDef(t, fuel);
      }
    }

    // ----- the value stack -----

    /** `stack_push`. */
    method PushEval(v: S.Eval) returns (s: Status)
      modifies `stack
      ensures match S.Push(old(St()), v) case Done(st, _) => s == Running && St() == st case r => s == Asserted
    {
      if S.STACK_SZ <= |stack| + 1 {
        return Asserted;
      }
      stack := stack + [v];
      return Running;
    }

    /** `stack_pop`. */
    method PopEval() returns (s: Status, v: Option<S.Eval>)
      modifies `stack
      ensures match S.Pop(old(St()))
              case PopAsserted => s == Asserted
              case Popped(x, st) => s == Running && v == x && St() == st
    {
      if S.STACK_SZ <= |stack| + 1 {
        return Asserted, None;
      }
      if stack == [] {
        return Running, None;
      }
      v := Some(stack[|stack| - 1]);
      stack := stack[..|stack| - 1];
      return Running, v;
    }

    // ----- expressions -----

    /** `id_table_lookup_all`. */
    method LookupAll(name: string) returns (k: Option<nat>)
      ensures k == S.FindScope(scopes, name)
    {
      var i := 0;
      assert scopes[0..] == scopes;
      while i < |scopes|
        invariant i <= |scopes|
        invariant match S.FindScope(scopes[i..], name)
                  case None => S.FindScope(scopes, name) == None
                  case Some(j) => S.FindScope(scopes, name) == Some(i + j)
      {
        assert scopes[i..][1..] == scopes[i + 1..];
        if name in scopes[i] {
          return Some(i);
        }
        i := i + 1;
      }
      return None;
    }

    /** `traverse_id`. */
    method TraverseId(t: Tree, fuel: nat) returns (s: Status)
      requires Ready() && t.Id?
      modifies `stack, `nerrors
      ensures Ended(s, false, false, S.Run(o, fuel, t, old(St()), old(nerrors) > 0))
    {
      var k := LookupAll(t.name);
      if k.None? {
        nerrors := nerrors + 1;
        return Running;
      }
      s := PushEval(scopes[k.value][t.name]);
    }

    /** `traverse_unary`. */
    method TraverseUnary(t: Tree, fuel: nat) returns (s: Status)
      requires Ready() && t.Unary? && Fits(t, false, false, mode)
      requires nerrors == 0 || IsExpression(t)
      modifies this
      ensures Ended(s, false, false, S.Run(o, fuel, t, old(St()), old(nerrors) > 0))
      decreases fuel, t, 8
    {
      s := Traverse(t.operand, fuel, false, false);
      if s != Running || nerrors != 0 {
        return;
      }
      s := ApplyUnary(t.op);
    }

    /** `eval_process_unary`. */
    method ApplyUnary(op: Opcode) returns (s: Status)
      requires Ready() && nerrors == 0
      modifies `stack, `nerrors
      ensures Kept(s) && Agrees(S.ApplyUnary(o, op, old(St())), s)
    {
      var v;
      s, v := PopEval();
      if s != Running {
        return;
      }
      if v.None? || v.value.Array? {
        nerrors := nerrors + 1;
        return;
      }
      var x := o.unary(op, v.value.v);
      if x.None? {
        return Dead;
      }
      s := PushEval(S.Scalar(x.value));
    }

    /** `traverse_op`: the right operand is traversed even after an error in the left one. */
    method TraverseOp(t: Tree, fuel: nat) returns (s: Status)
      requires Ready() && t.Binary? && Fits(t, false, false, mode)
      requires nerrors == 0 || IsExpression(t)
      modifies this
      ensures Ended(s, false, false, S.Run(o, fuel, t, old(St()), old(nerrors) > 0))
      decreases fuel, t, 8
    {
      s := Traverse(t.left, fuel, false, false);
      if s != Running {
        return;
      }
      s := Traverse(t.right, fuel, false, false);
      if s != Running || nerrors != 0 {
        return;
      }
      s := ApplyBinary(t.op);
    }

    /** `eval_process_op`. */
    method ApplyBinary(op: Opcode) returns (s: Status)
      requires Ready() && nerrors == 0
      modifies `stack, `nerrors
      ensures Kept(s) && Agrees(S.ApplyBinary(o, op, old(St())), s)
    {
      var x;
      s, x := PopOperands(op);
      if s != Running {
        return;
      }
      if x.None? {
        nerrors := nerrors + 1;
        return;
      }
      s := PushEval(S.Scalar(x.value));
    }

    /** Popping two operands, the right one first, and combining them. */
    method PopOperands(op: Opcode) returns (s: Status, x: Option<Value>)
      modifies `stack
      ensures match S.PopTwo(old(St()))
              case TwoAsserted => s == Asserted
              case TwoPopped(left, right, st) => s == Running && St() == st && x == S.Combine(o, op, left, right)
    {
      var left, right;
      s, right := PopEval();
      if s != Running {
        return s, None;
      }
      s, left := PopEval();
      if s != Running {
        return s, None;
      }
      if left.None? || right.None? || left.value.Array? || right.value.Array? {
        return Running, None;
      }
      return Running, o.binary(op, left.value.v, right.value.v);
    }

    /** `traverse_cond`. */
    method TraverseCond(t: Tree, fuel: nat) returns (s: Status, b: bool)
      requires Ready() && Fits(t, false, false, mode)
      requires nerrors == 0 || IsExpression(t)
      modifies this
      ensures Kept(s) && (s == Running && nerrors == 0 ==> Signals(S.Normal)) && (s == Running && nerrors != 0 ==> !b)
      ensures
        match S.RunCond(o, fuel, t, old(St()), old(nerrors) > 0)
        case CondIs(x, st) => s == Running && nerrors == 0 && St() == st && b == x
        case CondStop(r) => !r.Done? && Agrees(r, s)
      decreases fuel, t, 10
    {
      S.RunCondIs(o, fuel, t, St(), nerrors > 0);
      s := Traverse(t, fuel, false, false);
      if s != Running || nerrors != 0 {
        return s, false;
      }
      s, b := Decide();
    }

    /** The end of `traverse_cond`: the value on top is taken off and tested. */
    method Decide() returns (s: Status, b: bool)
      requires nerrors == 0
      modifies `stack, `nerrors
      ensures match S.Decide(o, old(St()))
              case CondIs(x, st) => s == Running && nerrors == 0 && St() == st && b == x
              case CondStop(r) => !r.Done? && Agrees(r, s) && (s == Running ==> !b)
    {
      var v;
      s, v := PopEval();
      if s != Running {
        return s, false;
      }
      if v.None? {
        nerrors := nerrors + 1;
        return Running, false;
      }
      return Running, S.Truth(o, v.value);
    }

    /** `traverse_trenary`. */
    method TraverseTrenary(t: Tree, fuel: nat) returns (s: Status)
      requires Ready() && t.Ternary? && Fits(t, false, false, mode)
      requires nerrors == 0 || IsExpression(t)
      modifies this
      ensures Ended(s, false, false, S.Run(o, fuel, t, old(St()), old(nerrors) > 0))
      decreases fuel, t, 8
    {
      var b;
      s, b := TraverseCond(t.cond, fuel);
      if s != Running || nerrors != 0 {
        return;
      }
      if b {
        s := Traverse(t.yes, fuel, false, false);
      } else {
        s := Traverse(t.no, fuel, false, false);
      }
    }

    /** `traverse_seq`: from the last to the first, errors or not. */
    method TraverseSeq(t: Tree, fuel: nat) returns (s: Status)
      requires Ready() && t.Seq? && Fits(t, false, false, mode)
      requires nerrors == 0 || IsExpression(t)
      modifies this
      ensures Ended(s, false, false, S.Run(o, fuel, t, old(St()), old(nerrors) > 0))
      decreases fuel, t, 8
    {
      var i: nat := |t.items|;
      assert t.items[..i] == t.items;
      while i > 0
        invariant i <= |t.items| && Ready() && Kept(Running)
        invariant S.RunBack(o, fuel, t.items, old(St()), old(nerrors) > 0)
               == S.RunBack(o, fuel, t.items[..i], St(), nerrors > 0)
      {
        assert t.items[..i][..i - 1] == t.items[..i - 1];
        s := Traverse(t.items[i - 1], fuel, false, false);
        if s != Running {
          return;
        }
        i := i - 1;
      }
      return Running;
    }

    /** `traverse_arr`: after an error in an item the array is pushed as far as it has come. */
    method TraverseArr(t: Tree, fuel: nat) returns (s: Status)
      requires Ready() && t.Arr? && Fits(t, false, false, mode)
      requires nerrors == 0 || IsExpression(t)
      modifies this
      ensures Ended(s, false, false, S.Run(o, fuel, t, old(St()), old(nerrors) > 0))
      decreases fuel, t, 8
    {
      S.RunArr(o, fuel, t, St(), nerrors > 0);
      var arr;
      s, arr := FillArray(t.items, fuel, S.Run(o, fuel, t, St(), nerrors > 0));
      if s != Running {
        return;
      }
      s := PushEval(S.Array(arr));
    }

    /** The loop of `traverse_arr`. */
    method FillArray(items: seq<Tree>, fuel: nat, ghost r: S.Res) returns (s: Status, arr: map<string, Value>)
      requires Ready() && AllFit(items, false, false, mode) && (nerrors == 0 || AllExpressions(items))
      requires FillsTo(r, items, map[], 0, fuel)
      modifies this
      ensures Kept(s) && (s == Running && nerrors == 0 ==> Signals(S.Normal))
      ensures if s != Running then Agrees(r, s)
              else r == if nerrors > 0 then S.Spoiled(S.Push(St(), S.Array(arr))) else S.Push(St(), S.Array(arr))
      decreases fuel, items, 9
    {
      arr := map[];
      var i := 0;
      assert items[0..] == items;
      while i < |items|
        invariant i <= |items| && Ready() && Kept(Running) && (nerrors == 0 || old(nerrors) > 0)
        invariant FillsTo(r, items[i..], arr, i, fuel) && (nerrors > 0 ==> arr == map[])
      {
        assert items[i..][0] == items[i] && items[i..][1..] == items[i + 1..];
        s, arr := FillItem(items[i..], items[i], arr, i, fuel, r);
        if s != Running || nerrors > 0 {
          return;
        }
        i := i + 1;
      }
      assert items[i..] == [];
      S.ItemsIs(o, fuel, [], arr, St(), i);
      return Running, arr;
    }

    /** The rest of `traverse_arr` ends in `r`. */
    ghost predicate FillsTo(r: S.Res, items: seq<Tree>, arr: map<string, Value>, i: nat, fuel: nat)
      reads this
    {
      r == if nerrors > 0 then S.AfterItems(o, items, St()) else S.Items(o, fuel, items, arr, St(), i)
    }

    /** One item of `traverse_arr`. */
    method FillItem(ghost items: seq<Tree>, t: Tree, arr: map<string, Value>, i: nat, fuel: nat, ghost r: S.Res)
      returns (s: Status, m: map<string, Value>)
      requires Ready() && Fits(t, false, false, mode) && (nerrors == 0 || (IsExpression(t) && arr == map[]))
      requires items != [] && t == items[0] && FillsTo(r, items, arr, i, fuel)
      modifies this
      ensures Kept(s) && (s == Running && nerrors == 0 ==> Signals(S.Normal))
      ensures s != Running ==> Agrees(r, s)
      ensures s == Running && nerrors > 0 ==> r == S.Spoiled(S.Push(St(), S.Array(m)))
      ensures s == Running && nerrors == 0 ==> FillsTo(r, items[1..], m, i + 1, fuel)
      decreases fuel, t, 10
    {
      S.ItemsIs(o, fuel, items, arr, St(), i);
      m := arr;
      s := Traverse(t, fuel, false, false);
      if s != Running || nerrors > 0 {
        return;
      }
      s, m := TakeItem(items, arr, i, fuel);
    }

    /** The value of an item is taken off the stack and put into the array. */
    method TakeItem(ghost items: seq<Tree>, arr: map<string, Value>, i: nat, ghost fuel: nat)
      returns (s: Status, m: map<string, Value>)
      requires items != [] && nerrors == 0
      modifies `stack
      ensures var r := S.ItemsOn(o, fuel, items, arr, old(St()), i);
              if s == Running then r == S.Items(o, fuel, items[1..], m, St(), i + 1) else !r.Done? && Agrees(r, s)
    {
      m := arr;
      var v;
      s, v := PopEval();
      if s != Running {
        return;
      }
      if v.None? || v.value.Array? {
        return Dead, m;
      }
      m := arr[o.key([Number(i)]) := v.value.v];
    }

    /** `create_index`: no key after an error, or when a value is missing or an array. */
    method CreateIndex(ind: seq<Tree>, fuel: nat) returns (s: Status, key: Option<string>)
      requires Ready() && nerrors == 0 && AllFit(ind, false, false, mode)
      modifies this
      ensures Kept(s) && (s == Running && nerrors == 0 ==> Signals(S.Normal))
      ensures
        match S.Index(o, fuel, ind, [], old(St()))
        case KeyIs(k, st) => s == Running && nerrors == 0 && St() == st && key == Some(k)
        case KeyStop(r) => !r.Done? && (if s == Running then key == None && r == S.Aborted else Agrees(r, s))
      decreases fuel, ind, 9
    {
      var vals: seq<Value> := [];
      var i := 0;
      assert ind[0..] == ind;
      while i < |ind|
        invariant i <= |ind| && Ready() && Kept(Running)
        invariant nerrors == 0 && S.Index(o, fuel, ind, [], old(St())) == S.Index(o, fuel, ind[i..], vals, St())
      {
        assert ind[i..][0] == ind[i] && ind[i..][1..] == ind[i + 1..];
        s := Traverse(ind[i], fuel, false, false);
        if s != Running || nerrors != 0 {
          return s, None;
        }
        var v;
        s, v := PopEval();
        if s != Running || v.None? || v.value.Array? {
          return s, None;
        }
        vals := vals + [v.value.v];
        i := i + 1;
      }
      return Running, Some(o.key(vals));
    }

    /** `traverse_access`. */
    method TraverseAccess(t: Tree, fuel: nat) returns (s: Status)
      requires Ready() && t.Access? && Fits(t, false, false, mode)
      requires nerrors == 0 || IsExpression(t)
      modifies this
      ensures Ended(s, false, false, S.Run(o, fuel, t, old(St()), old(nerrors) > 0))
      decreases fuel, t, 8
    {
      S.ExecIs(o, fuel, t, St());
      if nerrors != 0 {
        return Running;
      }
      s := ReadElement(t, fuel);
    }

    method ReadElement(t: Tree, fuel: nat) returns (s: Status)
      requires Ready() && nerrors == 0 && t.Access? && Fits(t, false, false, mode)
      modifies this
      ensures Ended(s, false, false, S.ReadAccess(o, fuel, t, old(St())))
      decreases fuel, t, 7
    {
      var k := LookupAll(t.name);
      if k.None? {
        nerrors := nerrors + 1;
        return Running;
      }
      var key;
      s, key := CreateIndex(t.ind, fuel);
      if s != Running {
        return;
      }
      if key.None? || t.name !in scopes[k.value] || scopes[k.value][t.name].Scalar? {
        return Dead;
      }
      var arr := scopes[k.value][t.name].m;
      if key.value !in arr {
        nerrors := nerrors + 2;
        return Running;
      }
      s := PushEval(S.Scalar(arr[key.value]));
    }

    // ----- calls -----

    /** The rest of `add_args_to_scope` ends in `r`; after an error it is over with the first argument. */
    ghost predicate BindsTo(r: S.ArgsRes, args: seq<Tree>, params: seq<string>, scope: S.Scope, fuel: nat)
      requires |args| == |params|
      reads this
    {
      r == if nerrors > 0 then S.ArgsStop(S.AfterFirst(o, args, St())) else S.Args(o, fuel, args, params, scope, St())
    }

    /** `add_args_to_scope`. */
    method AddArgsToScope(args: seq<Tree>, params: seq<string>, fuel: nat, ghost r: S.ArgsRes)
      returns (s: Status, scope: S.Scope)
      requires Ready() && |args| == |params| && AllFit(args, false, false, mode)
      requires nerrors == 0 || AllExpressions(args)
      requires BindsTo(r, args, params, map[], fuel)
      modifies this
      ensures Kept(s) && (s == Running && nerrors == 0 ==> Signals(S.Normal))
      ensures match r
              case ArgsAre(sc, st) => s == Running && nerrors == 0 && St() == st && scope == sc
              case ArgsStop(x) => !x.Done? && Agrees(x, s)
      decreases fuel, args, 9
    {
      scope := map[];
      var i := 0;
      assert args[0..] == args && params[0..] == params;
      while i < |args|
        invariant i <= |args| && Ready() && Kept(Running) && (nerrors == 0 || old(nerrors) > 0)
        invariant BindsTo(r, args[i..], params[i..], scope, fuel)
      {
        assert args[i..][0] == args[i] && args[i..][1..] == args[i + 1..];
        assert params[i..][0] == params[i] && params[i..][1..] == params[i + 1..];
        var more;
        s, scope, more := AddArg(args[i..], params[i..], args[i], params[i], scope, fuel, r);
        if !more {
          return;
        }
        i := i + 1;
      }
      return Running, scope;
    }

    /** One argument: whether the list goes on. */
    method AddArg(ghost args: seq<Tree>, ghost params: seq<string>, t: Tree, name: string, into: S.Scope, fuel: nat,
        ghost r: S.ArgsRes)
      returns (s: Status, scope: S.Scope, more: bool)
      requires Ready() && Fits(t, false, false, mode) && (nerrors == 0 || IsExpression(t))
      requires args != [] && |args| == |params| && t == args[0] && name == params[0]
      requires BindsTo(r, args, params, into, fuel)
      modifies this
      ensures Kept(s) && (s == Running && nerrors == 0 ==> Signals(S.Normal))
      ensures more ==> s == Running && nerrors == 0 && BindsTo(r, args[1..], params[1..], scope, fuel)
      ensures !more ==>
        match r
        case ArgsAre(sc, st) => s == Running && nerrors == 0 && St() == st && scope == sc
        case ArgsStop(x) => !x.Done? && Agrees(x, s)
      decreases fuel, t, 10
    {
      S.ArgsIs(o, fuel, args, params, into, St());
      scope, more := into, false;
      s := Traverse(t, fuel, false, false);
      if s != Running || nerrors != 0 {
        return;
      }
      s, scope, more := TakeArg(args, params, name, into, fuel);
    }

    /** The value of an argument is taken off the stack and bound. */
    method TakeArg(ghost args: seq<Tree>, ghost params: seq<string>, name: string, into: S.Scope, ghost fuel: nat)
      returns (s: Status, scope: S.Scope, more: bool)
      requires args != [] && |args| == |params| && name == params[0] && nerrors == 0
      modifies `stack
      ensures var r := S.ArgsOn(o, fuel, args, params, into, old(St()));
              if more then s == Running && r == S.Args(o, fuel, args[1..], params[1..], scope, St())
              else if s == Running then r == S.ArgsAre(scope, St())
              else r.ArgsStop? && !r.r.Done? && Agrees(r.r, s)
    {
      scope, more := into, false;
      var v;
      s, v := PopEval();
      if s != Running || v.None? {
        return;
      }
      if name in scope {
        return Dead, scope, false;
      }
      scope := scope[name := v.value];
      more := true;
    }

    /** `traverse_func_call`, for functions of the program. */
    method TraverseFuncCall(t: Tree, fuel: nat) returns (s: Status)
      requires Ready() && t.Call? && Fits(t, false, false, mode)
      requires nerrors == 0 || IsExpression(t)
      modifies this
      ensures Ended(s, false, false, S.Run(o, fuel, t, old(St()), old(nerrors) > 0))
      decreases fuel, t, 8
    {
      S.ExecIs(o, fuel, t, St());
      if t.name !in funcs {
        nerrors := nerrors + 1;
        return Running;
      }
      var f := funcs[t.name];
      if |t.args| != |f.params| {
        nerrors := nerrors + 1;
        return Running;
      }
      var scope;
      ghost var r := S.RunArgs(o, fuel, t.args, f.params, St(), nerrors > 0);
      s, scope := AddArgsToScope(t.args, f.params, fuel, r);
      if s != Running || nerrors != 0 {
        return;
      }
      if fuel == 0 {
        return Spent;
      }
      s := CallBody(f, scope, fuel - 1);
    }

    /** `id_table_push`, `exec_function`, `id_table_pop`. */
    method CallBody(f: S.FuncDef, scope: S.Scope, fuel: nat) returns (s: Status)
      requires Ready() && nerrors == 0 && AllFit(f.stmts, false, true, Within(mode))
      modifies this
      ensures Ended(s, false, false, S.RunBody(o, fuel, f, scope, old(St())))
      ensures s == Running && !mode.Any? ==> scopes == old(scopes)
      decreases fuel, f.stmts, 11
    {
      ghost var outer := mode;
      mode := Within(mode);
      scopes := [scope] + scopes;
      s := ExecFunction(f, fuel);
      if s != Running {
        return;
      }
      scopes := scopes[1..];
      mode := outer;
    }

    /** `exec_function`: an error leaves `is_call` and `func` as they are; neither `break` nor `continue`
        can come out of a body. */
    method ExecFunction(f: S.FuncDef, fuel: nat) returns (s: Status)
      requires Ready() && nerrors == 0 && AllFit(f.stmts, false, true, mode)
      modifies this
      ensures Ended(s, false, false, S.RunFunction(o, fuel, f, old(St())))
      decreases fuel, f.stmts, 10
    {
      var saved := func;
      func := Some(f);
      isCall := isCall + 1;
      var res;
      s, res := ExecBody(f.stmts, fuel);
      if s != Running || res == ResError {
        return;
      }
      s := CollectReturn(f, res, saved);
    }

    /** The results of a function: a `return` has pushed them, falling off the end pushes them now. */
    method CollectReturn(f: S.FuncDef, res: Body, caller: Option<S.FuncDef>) returns (s: Status)
      requires scopes != [] && nerrors == 0 && isCall > 0 && (res == ResOk || res == ResReturn)
      requires Signals(if res == ResReturn then S.Returned else S.Normal)
      modifies `isReturn, `nerrors, `stack, `isCall, `func
      ensures Agrees(S.FinishFunction(f, caller, old(St()), if res == ResReturn then S.Returned else S.Normal), s)
      ensures s == Running ==> func == caller && isCall == old(isCall) - 1 && Signals(S.Normal)
    {
      if res == ResReturn {
        isReturn := isReturn - 1;
      } else {
        var ok;
        s, ok := PushReturnArgs(f.rets);
        if s != Running {
          return;
        }
        if !ok {
          nerrors := nerrors + 1;
        }
      }
      s := Running;
      isCall := isCall - 1;
      func := caller;
    }

    /** The loop of `exec_function`. */
    method ExecBody(stmts: seq<Tree>, fuel: nat) returns (s: Status, res: Body)
      requires Ready() && nerrors == 0 && AllFit(stmts, false, true, mode) && isCall > 0
      modifies this
      ensures Ended(s, false, true, S.ExecAll(o, fuel, stmts, old(St())))
      ensures s == Running ==> (res == ResError <==> nerrors != 0)
      ensures s == Running && nerrors == 0 ==>
        var r := S.ExecAll(o, fuel, stmts, old(St()));
        r.Done? && res == if r.out.Normal? then ResOk else ResReturn
      decreases fuel, stmts, 9
    {
      res := ResOk;
      var i := 0;
      assert stmts[0..] == stmts;
      while i < |stmts|
        invariant i <= |stmts| && Ready() && nerrors == 0 && Kept(Running) && res == ResOk
        invariant S.ExecAll(o, fuel, stmts, old(St())) == S.ExecAll(o, fuel, stmts[i..], St())
      {
        assert stmts[i..][0] == stmts[i] && stmts[i..][1..] == stmts[i + 1..];
        s, res := TraverseBody(stmts[i], fuel, false, true);
        if s != Running {
          return;
        }
        match res
        case ResError =>
          return;
        case ResContinue =>
          assert false;
        case ResBreak =>
          assert false;
        case ResReturn =>
          return;
        case ResOk =>
          i := i + 1;
      }
      return Running, ResOk;
    }

    /** `traverse_body`: what the counters say; outside cycles and calls there is nothing to find. */
    method TraverseBody(t: Tree, fuel: nat, ghost inCycle: bool, ghost inFunc: bool) returns (s: Status, res: Body)
      requires Ready() && nerrors == 0 && Fits(t, inCycle, inFunc, mode) && (inCycle ==> isCycle > 0)
      requires inFunc ==> isCall > 0
      modifies this
      ensures Ended(s, inCycle, inFunc, S.Exec(o, fuel, t, old(St())))
      ensures s == Running ==> (res == ResError <==> nerrors != 0)
      ensures s == Running && nerrors == 0 ==>
        res == BodyOf(S.Exec(o, fuel, t, old(St())).out)
      decreases fuel, t, 10
    {
      res := ResError;
      s := Traverse(t, fuel, inCycle, inFunc);
      if s != Running || nerrors != 0 {
        return;
      }
      res := Signalled(S.Exec(o, fuel, t, old(St())).out, inCycle, inFunc);
    }

    /** What the counters say when there is no error. */
    method Signalled(ghost out: S.Outcome, ghost inCycle: bool, ghost inFunc: bool) returns (res: Body)
      requires Signals(out) && Pending(inCycle, inFunc) && (inCycle ==> isCycle > 0) && (inFunc ==> isCall > 0)
      ensures res == BodyOf(out)
    {
      if isContinue > 0 {
        if isCycle > 0 {
          res := ResContinue;
        } else {
          assert false;
        }
      } else if isBreak > 0 {
        if isCycle > 0 {
          res := ResBreak;
        } else {
          assert false;
        }
      } else if isReturn > 0 {
        if isCall > 0 {
          res := ResReturn;
        } else {
          assert false;
        }
      } else {
        res := ResOk;
      }
    }

    /** `push_return_args`. */
    method PushReturnArgs(rets: seq<string>) returns (s: Status, ok: bool)
      requires scopes != []
      modifies `stack
      ensures match S.PushReturns(old(St()), rets)
              case Failed(st) => s == Running && !ok && St() == st
              case Done(st, _) => s == Running && ok && St() == st
              case r => s == if r.Asserted? then Asserted else Dead
    {
      var i: nat := |rets|;
      while i > 0
        invariant i <= |rets| && forall j :: i <= j < |rets| ==> S.InCurrent(St(), rets[j])
      {
        if rets[i - 1] !in scopes[0] {
          return Running, false;
        }
        i := i - 1;
      }
      i := |rets|;
      assert rets[..i] == rets;
      while i > 0
        invariant i <= |rets| && S.PushLastFirst(old(St()), rets) == S.PushLastFirst(St(), rets[..i])
      {
        assert rets[..i][..i - 1] == rets[..i - 1];
        if scopes[0][rets[i - 1]].Array? {
          return Dead, false;
        }
        s := PushEval(scopes[0][rets[i - 1]]);
        if s != Running {
          return s, false;
        }
        i := i - 1;
      }
      return Running, true;
    }

    /** `traverse_return`. */
    method TraverseReturn() returns (s: Status)
      requires Ready() && nerrors == 0
      modifies this
      ensures Ended(s, false, true, S.ReturnFrom(old(St())))
    {
      isReturn := isReturn + 1;
      if func.None? {
        return Dead;
      }
      var ok;
      s, ok := PushReturnArgs(func.value.rets);
      if s == Running && !ok {
        nerrors := nerrors + 1;
      }
    }

    /** `traverse_func_def`. */
    method TraverseFuncDef(t: Tree, fuel: nat) returns (s: Status)
      requires Ready() && nerrors == 0 && t.Func? && Fits(t, false, false, mode)
      modifies `funcs
      ensures Ended(s, false, false, S.Exec(o, fuel, t, old(St())))
    {
      funcs := funcs[t.name := S.FuncDef(t.params, t.rets, t.stmts)];
      return Running;
    }

    // ----- assignments -----

    /** `set_value_node`. */
    method SetValueNode(t: Tree, v: S.Eval, fuel: nat) returns (s: Status)
      requires Ready() && nerrors == 0 && Fits(t, false, false, mode) && !mode.Still? && (mode.Quiet? ==> !t.Access?)
      modifies this
      ensures Ended(s, false, false, S.Set(o, fuel, t, v, old(St())))
      decreases fuel, t, 8
    {
      if t.Id? {
        scopes := scopes[0 := scopes[0][t.name := v]];
        return Running;
      } else if t.Access? {
        s := SetValueNodeAccess(t, v, fuel);
      } else {
        nerrors := nerrors + 1;
        return Running;
      }
    }

    /** `set_value_node_access`. */
    method SetValueNodeAccess(t: Tree, v: S.Eval, fuel: nat) returns (s: Status)
      requires Ready() && mode.Any? && nerrors == 0 && t.Access? && Fits(t, false, false, mode)
      modifies this
      ensures Ended(s, false, false, S.Set(o, fuel, t, v, old(St())))
      decreases fuel, t, 7
    {
      if v.Array? {
        nerrors := nerrors + 1;
        return Running;
      }
      var k := LookupAll(t.name);
      if k.None? {
        scopes := scopes[0 := scopes[0][t.name := S.Array(map[])]];
        k := Some(0);
      } else if scopes[k.value][t.name].Scalar? {
        nerrors := nerrors + 1;
        return Running;
      }
      s := SetElement(t, v.v, k.value, fuel);
    }

    method SetElement(t: Tree, v: Value, k: nat, fuel: nat) returns (s: Status)
      requires Ready() && mode.Any? && nerrors == 0 && t.Access? && Fits(t, false, false, mode) && k < |scopes|
      modifies this
      ensures Ended(s, false, false, S.SetElement(o, fuel, t, v, k, old(St())))
      decreases fuel, t, 6
    {
      var key;
      s, key := CreateIndex(t.ind, fuel);
      if s != Running {
        return;
      }
      if key.None? || t.name !in scopes[k] || scopes[k][t.name].Scalar? {
        return Dead;
      }
      scopes := scopes[k := scopes[k][t.name := S.Array(scopes[k][t.name].m[key.value := v])]];
    }

    /** `set_value_node_n`. */
    method SetValueNodeN(items: seq<Tree>, vs: seq<S.Eval>, fuel: nat) returns (s: Status)
      requires Ready() && nerrors == 0 && |items| == |vs| && AllFit(items, false, false, mode)
      requires !mode.Still? && (mode.Quiet? ==> forall i :: 0 <= i < |items| ==> !items[i].Access?)
      modifies this
      ensures Ended(s, false, false, S.SetAll(o, fuel, items, vs, old(St())))
      decreases fuel, items, 9
    {
      var i := 0;
      assert items[0..] == items && vs[0..] == vs;
      while i < |items|
        invariant i <= |items| && Ready() && nerrors == 0 && Kept(Running)
        invariant S.SetAll(o, fuel, items, vs, old(St())) == S.SetAll(o, fuel, items[i..], vs[i..], St())
      {
        assert items[i..][0] == items[i] && items[i..][1..] == items[i + 1..];
        assert vs[i..][0] == vs[i] && vs[i..][1..] == vs[i + 1..];
        s := SetValueNode(items[i], vs[i], fuel);
        if s != Running || nerrors != 0 {
          return;
        }
        i := i + 1;
      }
      return Running;
    }

    /** `stack_pop_n`. */
    method PopEvals(n: nat) returns (s: Status, vs: seq<Option<S.Eval>>)
      modifies `stack
      ensures match S.PopN(old(St()), n)
              case PopAllAsserted => s == Asserted
              case PoppedAll(xs, st) => s == Running && vs == xs && St() == st
    {
      vs := [];
      S.PopNIs(St(), n);
      var i: nat := n;
      while i > 0
        invariant i <= n && (i < n ==> S.Room(old(stack)))
        invariant vs == S.TopDown(old(stack), n - i) && stack == S.Below(old(stack), n - i)
      {
        var v;
        s, v := PopEval();
        if s != Running {
          return;
        }
        vs := vs + [v];
        i := i - 1;
      }
      return Running, vs;
    }

    /** `stack_push_n`. */
    method PushEvals(vs: seq<S.Eval>) returns (s: Status)
      modifies `stack
      ensures match S.PushAll(old(St()), vs) case Done(st, _) => s == Running && St() == st case r => s == Asserted
    {
      if S.STACK_SZ <= |stack| + 1 {
        return Asserted;
      }
      S.PushAllIs(St(), vs);
      var i := 0;
      while i < |vs|
        invariant i <= |vs| && stack == old(stack) + vs[..i] && (i > 0 ==> |stack| < S.STACK_SZ)
      {
        assert vs[..i + 1] == vs[..i] + [vs[i]];
        s := PushEval(vs[i]);
        if s != Running {
          return;
        }
        i := i + 1;
      }
      assert vs[..i] == vs;
      return Running;
    }

    /** `traverse_as_rest`. */
    method TraverseAsRest(t: Tree, fuel: nat) returns (s: Status)
      requires Ready() && t.Assign? && Fits(t, false, false, mode)
      requires nerrors == 0 || IsExpression(t)
      modifies this
      ensures Ended(s, false, false, S.RunRest(o, fuel, t, old(St()), old(nerrors) > 0))
      decreases fuel, t, 6
    {
      if t.right.Assign? {
        s := TraverseAsRest(t.right, fuel);
      } else {
        s := Traverse(t.right, fuel, false, false);
      }
      if s != Running || nerrors != 0 {
        return;
      }
      if !t.left.Seq? {
        nerrors := nerrors + 1;
        return Running;
      }
      s := StoreTop(t.left, fuel);
    }

    /** The storing in `traverse_as_rest`. */
    method StoreTop(left: Tree, fuel: nat) returns (s: Status)
      requires Ready() && nerrors == 0 && left.Seq? && Fits(left, false, false, mode) && MaySet(left, mode)
      modifies this
      ensures Ended(s, false, false, S.StoreTop(o, fuel, left, old(St())))
      decreases fuel, left, 9
    {
      var vs;
      s, vs := PopEvals(|left.items|);
      if s != Running {
        return;
      }
      if !S.AllSome(vs) {
        nerrors := nerrors + 1;
        return Running;
      }
      var evs := S.Values(vs);
      s := SetValueNodeN(left.items, evs, fuel);
      if s != Running || nerrors != 0 {
        return;
      }
      s := PushEvals(evs);
    }

    /** `traverse_as`. */
    method TraverseAs(t: Tree, fuel: nat) returns (s: Status)
      requires Ready() && t.Assign? && Fits(t, false, false, mode)
      requires nerrors == 0 || IsExpression(t)
      modifies this
      ensures Ended(s, false, false, S.Run(o, fuel, t, old(St()), old(nerrors) > 0))
      decreases fuel, t, 8
    {
      S.ExecIs(o, fuel, t, St());
      s := TraverseAsRest(t, fuel);
      if s != Running || nerrors != 0 {
        return;
      }
      s := RemoveEvals(if t.left.Seq? then |t.left.items| else 0);
    }

    /** `stack_remove_n`. */
    method RemoveEvals(n: nat) returns (s: Status)
      modifies `stack
      ensures match S.RemoveN(old(St()), n) case Done(st, _) => s == Running && St() == st case r => s == Asserted
    {
      var i: nat := n;
      while i > 0
        invariant i <= n && n - i <= |old(stack)| && stack == old(stack)[..|old(stack)| - (n - i)]
      {
        if stack == [] {
          return Asserted;
        }
        stack := stack[..|stack| - 1];
        i := i - 1;
      }
      return Running;
    }

    /** `traverse_op_as`. */
    method TraverseOpAs(t: Tree, fuel: nat) returns (s: Status)
      requires Ready() && t.OpAssign? && Fits(t, false, false, mode)
      requires nerrors == 0 || IsExpression(t)
      modifies this
      ensures Ended(s, false, false, S.Run(o, fuel, t, old(St()), old(nerrors) > 0))
      decreases fuel, t, 8
    {
      S.ExecIs(o, fuel, t, St());
      s := Traverse(t.left, fuel, false, false);
      if s != Running {
        return;
      }
      s := Traverse(t.right, fuel, false, false);
      if s != Running || nerrors != 0 {
        return;
      }
      s := StoreCombined(t, fuel);
    }

    /** The storing in `traverse_op_as`. */
    method StoreCombined(t: Tree, fuel: nat) returns (s: Status)
      requires Ready() && nerrors == 0 && t.OpAssign? && Fits(t, false, false, mode)
      modifies this
      ensures Ended(s, false, false, S.StoreCombined(o, fuel, t, old(St())))
      decreases fuel, t, 7
    {
      var x;
      s, x := PopOperands(t.op);
      if s != Running {
        return;
      }
      if x.None? {
        nerrors := nerrors + 1;
        return;
      }
      s := SetValueNode(t.left, S.Scalar(x.value), fuel);
    }

    /** `traverse_del`. */
    method TraverseDel(t: Tree, fuel: nat) returns (s: Status)
      requires Ready() && nerrors == 0 && t.Del? && Fits(t, false, false, mode)
      modifies this
      ensures Ended(s, false, false, S.Delete(o, fuel, t, old(St())))
      decreases fuel, t, 7
    {
      if !t.target.Id? && !t.target.Access? {
        return Dead;
      }
      var k := LookupAll(t.target.name);
      if k.None? {
        nerrors := nerrors + 1;
        return Running;
      }
      if t.target.Id? {
        scopes := scopes[k.value := scopes[k.value] - {t.target.name}];
        return Running;
      }
      s := DelElement(t.target, k.value, fuel);
    }

    method DelElement(t: Tree, k: nat, fuel: nat) returns (s: Status)
      requires Ready() && nerrors == 0 && mode.Any? && t.Access? && Fits(t, false, false, mode)
      requires S.FindScope(scopes, t.name) == Some(k)
      modifies this
      ensures Ended(s, false, false, S.Delete(o, fuel, Del(t), old(St())))
      decreases fuel, t, 8
    {
      var key;
      s, key := CreateIndex(t.ind, fuel);
      if s != Running {
        return;
      }
      if key.None? || t.name !in scopes[k] || scopes[k][t.name].Scalar? {
        return Dead;
      }
      var arr := scopes[k][t.name].m;
      if key.value !in arr {
        nerrors := nerrors + 1;
        return Running;
      }
      scopes := scopes[k := scopes[k][t.name := S.Array(arr - {key.value})]];
    }

    // ----- control -----

    /** `traverse_if`. */
    method TraverseIf(t: Tree, fuel: nat, ghost inCycle: bool, ghost inFunc: bool) returns (s: Status)
      requires Ready() && nerrors == 0 && t.If? && Fits(t, inCycle, inFunc, mode) && (inCycle ==> isCycle > 0)
      requires inFunc ==> isCall > 0
      modifies this
      ensures Ended(s, inCycle, inFunc, S.Exec(o, fuel, t, old(St())))
      decreases fuel, t, 8
    {
      var b;
      s, b := TraverseCond(t.cond, fuel);
      if s != Running || nerrors != 0 {
        return;
      }
      if b {
        s := Traverse(t.body, fuel, inCycle, inFunc);
      } else if !t.els.Null? {
        s := Traverse(t.els, fuel, inCycle, inFunc);
      }
    }

    /** `traverse_scope`. */
    method TraverseScope(t: Tree, fuel: nat, ghost inCycle: bool, ghost inFunc: bool) returns (s: Status)
      requires Ready() && nerrors == 0 && t.Scope? && Fits(t, inCycle, inFunc, mode) && (inCycle ==> isCycle > 0)
      requires inFunc ==> isCall > 0
      modifies this
      ensures Ended(s, inCycle, inFunc, S.Exec(o, fuel, t, old(St())))
      decreases fuel, t, 8
    {
      var i := 0;
      assert t.stmts[0..] == t.stmts;
      while i < |t.stmts|
        invariant i <= |t.stmts| && Ready() && Kept(Running) && nerrors == 0
        invariant S.ExecAll(o, fuel, t.stmts, old(St())) == S.ExecAll(o, fuel, t.stmts[i..], St())
      {
        assert t.stmts[i..][0] == t.stmts[i] && t.stmts[i..][1..] == t.stmts[i + 1..];
        var res;
        s, res := TraverseBody(t.stmts[i], fuel, inCycle, inFunc);
        if s != Running || res != ResOk {
          return;
        }
        i := i + 1;
      }
      return Running;
    }

    /** How a round of a loop ends. */
    twostate predicate RoundEnded(new s: Status, new again: bool, new inFunc: bool, new r: S.Round)
      reads this
    {
      && Kept(s) && (s == Running && nerrors == 0 ==> Pending(false, inFunc))
      && (s == Running && again ==> nerrors == 0 && Signals(S.Normal))
      && match r
         case Again(st) => s == Running && again && St() == st
         case Over(x) => !again && Agrees(x, s)
    }

    /** `traverse_while`. */
    method TraverseWhile(t: Tree, fuel: nat, ghost inFunc: bool) returns (s: Status)
      requires Ready() && nerrors == 0 && t.While? && Fits(t, false, inFunc, mode) && (inFunc ==> isCall > 0)
      modifies this
      ensures Ended(s, false, inFunc, S.WhileLoop(o, fuel, t, old(St())))
      decreases fuel, t, 8
    {
      isCycle := isCycle + 1;
      var n: nat := fuel;
      while n > 0
        invariant n <= fuel && Ready() && Steady()
        invariant isCycle == old(isCycle) + 1 && isCall == old(isCall) && nerrors == 0 && func == old(func)
        invariant S.WhileLoop(o, fuel, t, old(St())) == S.WhileLoop(o, n, t, St())
        decreases n
      {
        var again;
        s, again := WhileRound(t, n, inFunc);
        if s != Running {
          return;
        }
        if !again {
          isCycle := isCycle - 1;
          return;
        }
        n := n - 1;
      }
      return Spent;
    }

    /** One round: the condition, and the body with the signals it catches. */
    method WhileRound(t: Tree, fuel: nat, ghost inFunc: bool) returns (s: Status, again: bool)
      requires Ready() && nerrors == 0 && t.While? && Fits(t, false, inFunc, mode) && (inFunc ==> isCall > 0)
      requires isCycle > 0
      modifies this
      ensures RoundEnded(s, again, inFunc, S.WhileRound(o, fuel, t, old(St())))
      decreases fuel, t, 7
    {
      var b;
      s, b := TraverseCond(t.cond, fuel);
      if s != Running || !b {
        return s, false;
      }
      if t.body.Null? {
        return Running, true;
      }
      s, again := LoopBody(t.body, fuel, inFunc);
    }

    /** The body of `for` and `while` with the signals they catch. */
    method LoopBody(t: Tree, fuel: nat, ghost inFunc: bool) returns (s: Status, again: bool)
      requires Ready() && nerrors == 0 && Fits(t, true, inFunc, mode) && (inFunc ==> isCall > 0) && isCycle > 0
      modifies this
      ensures RoundEnded(s, again, inFunc, S.Catch(S.Exec(o, fuel, t, old(St()))))
      decreases fuel, t, 11
    {
      ghost var r := S.Exec(o, fuel, t, St());
      var res;
      s, res := TraverseBody(t, fuel, true, inFunc);
      if s != Running {
        return s, false;
      }
      again := Caught(res, r);
    }

    /** What a loop does with the result of its body: whether it goes on. */
    method Caught(res: Body, ghost r: S.Res) returns (again: bool)
      requires res == ResError <==> nerrors != 0
      requires nerrors == 0 ==> r.Done? && Agrees(r, Running) && res == BodyOf(r.out)
      modifies `isContinue, `isBreak
      ensures nerrors != 0 ==> !again && isContinue == old(isContinue) && isBreak == old(isBreak)
      ensures nerrors == 0 ==>
        match S.Catch(r)
        case Again(st) => again && St() == st && Signals(S.Normal)
        case Over(x) => !again && Agrees(x, Running)
    {
      match res
      case ResError =>
        return false;
      case ResContinue =>
        isContinue := isContinue - 1;
        return true;
      case ResBreak =>
        isBreak := isBreak - 1;
        return false;
      case ResReturn =>
        return false;
      case ResOk =>
        return true;
    }

    /** `traverse_do`. */
    method TraverseDo(t: Tree, fuel: nat, ghost inFunc: bool) returns (s: Status)
      requires Ready() && nerrors == 0 && t.Do? && Fits(t, false, inFunc, mode) && (inFunc ==> isCall > 0)
      modifies this
      ensures Ended(s, false, inFunc, S.DoLoop(o, fuel, t, old(St())))
      decreases fuel, t, 8
    {
      isCycle := isCycle + 1;
      var n: nat := fuel;
      while n > 0
        invariant n <= fuel && Ready() && Steady()
        invariant isCycle == old(isCycle) + 1 && isCall == old(isCall) && nerrors == 0 && func == old(func)
        invariant S.DoLoop(o, fuel, t, old(St())) == S.DoLoop(o, n, t, St())
        decreases n
      {
        var again;
        s, again := DoRound(t, n, inFunc);
        if s != Running {
          return;
        }
        if !again {
          isCycle := isCycle - 1;
          return;
        }
        n := n - 1;
      }
      return Spent;
    }

    /** One round: the body with the signals it catches, and the condition unless it was `continue`. */
    method DoRound(t: Tree, fuel: nat, ghost inFunc: bool) returns (s: Status, again: bool)
      requires Ready() && nerrors == 0 && t.Do? && Fits(t, false, inFunc, mode) && (inFunc ==> isCall > 0)
      requires isCycle > 0
      modifies this
      ensures RoundEnded(s, again, inFunc, S.DoRound(o, fuel, t, old(St())))
      decreases fuel, t, 7
    {
      if !t.body.Null? {
        var res;
        ghost var r := S.Exec(o, fuel, t.body, St());
        s, res := TraverseBody(t.body, fuel, true, inFunc);
        if s != Running {
          return s, false;
        }
        again := Caught(res, r);
        if res != ResOk {
          return;
        }
      }
      s, again := DoTest(t, fuel);
    }

    /** The condition of `do`. */
    method DoTest(t: Tree, fuel: nat) returns (s: Status, again: bool)
      requires Ready() && nerrors == 0 && t.Do? && Fits(t.cond, false, false, mode)
      modifies this
      ensures RoundEnded(s, again, false, S.DoTest(o, fuel, t, old(St())))
      decreases fuel, t, 6
    {
      s, again := TraverseCond(t.cond, fuel);
      if s != Running {
        again := false;
      }
    }

    /** `traverse_for`. */
    method TraverseFor(t: Tree, fuel: nat, ghost inFunc: bool) returns (s: Status)
      requires Ready() && nerrors == 0 && t.For? && Fits(t, false, inFunc, mode) && (inFunc ==> isCall > 0)
      modifies this
      ensures Ended(s, false, inFunc, S.Exec(o, fuel, t, old(St())))
      decreases fuel, t, 8
    {
      if !t.init.Null? {
        s := Traverse(t.init, fuel, false, false);
        if s != Running {
          return;
        }
      }
      if nerrors != 0 {
        return Running;
      }
      s := ForRounds(t, fuel, inFunc);
    }

    /** The loop of `traverse_for`; an error in the third expression leaves `is_cycle` counted up. */
    method ForRounds(t: Tree, fuel: nat, ghost inFunc: bool) returns (s: Status)
      requires Ready() && nerrors == 0 && t.For? && Fits(t, false, inFunc, mode) && (inFunc ==> isCall > 0)
      modifies this
      ensures Ended(s, false, inFunc, S.ForLoop(o, fuel, t, old(St())))
      decreases fuel, t, 7
    {
      isCycle := isCycle + 1;
      var n: nat := fuel;
      while n > 0
        invariant n <= fuel && Ready() && Steady()
        invariant isCycle == old(isCycle) + 1 && isCall == old(isCall) && nerrors == 0 && func == old(func)
        invariant S.ForLoop(o, fuel, t, old(St())) == S.ForLoop(o, n, t, St())
        decreases n
      {
        var again;
        s, again := ForRound(t, n, inFunc);
        if s != Running {
          return;
        }
        if !again {
          isCycle := isCycle - 1;
          return;
        }
        s := ForStep(t, n);
        if s != Running || nerrors != 0 {
          return;
        }
        n := n - 1;
      }
      return Spent;
    }

    /** The condition, and the body with the signals it catches. */
    method ForRound(t: Tree, fuel: nat, ghost inFunc: bool) returns (s: Status, again: bool)
      requires Ready() && nerrors == 0 && t.For? && Fits(t, false, inFunc, mode) && (inFunc ==> isCall > 0)
      requires isCycle > 0
      modifies this
      ensures Kept(s) && (s == Running && nerrors == 0 ==> Pending(false, inFunc))
      ensures s == Running && again ==> nerrors == 0 && Signals(S.Normal)
      ensures if s == Running && again then S.ForRound(o, fuel, t, old(St())) == S.ForNext(o, fuel, t, St())
              else S.ForRound(o, fuel, t, old(St())).Over? && Agrees(S.ForRound(o, fuel, t, old(St())).r, s)
      decreases fuel, t, 6
    {
      if !t.cond.Null? {
        var b;
        s, b := TraverseCond(t.cond, fuel);
        if s != Running || !b {
          return s, false;
        }
      }
      s, again := LoopBody(t.body, fuel, inFunc);
    }

    /** The third expression. */
    method ForStep(t: Tree, fuel: nat) returns (s: Status)
      requires Ready() && nerrors == 0 && t.For? && Fits(t.step, false, false, mode)
      modifies this
      ensures Kept(s) && (s == Running && nerrors == 0 ==> Signals(S.Normal))
      ensures match S.ForNext(o, fuel, t, old(St()))
              case Again(st) => s == Running && nerrors == 0 && St() == st
              case Over(r) => !r.Done? && Agrees(r, s)
      decreases fuel, t, 6
    {
      if t.step.Null? {
        return Running;
      }
      s := Traverse(t.step, fuel, false, false);
    }

    /** How a program leaves the interpreter, against the meaning of its tree. */
    ghost predicate ProgramEnds(r: S.Res, s: Status, ok: bool)
      reads this
    {
      match r
      case Done(st, out) => s == Running && ok && St() == st && out == S.Normal && isCall == isCycle == 0
      case Failed(st) => if S.Room(st.stack) then s == Running && !ok && St() == st.(stack := []) else s == Asserted
      case Asserted => s == Asserted
      case Aborted => s == Dead
      case Timeout => s == Spent
    }

    /** The fresh start of `traverse_prog`. */
    method Restart()
      requires scopes != [] && FuncsFit(funcs, mode)
      modifies `nerrors, `isCall, `isCycle, `isReturn, `isBreak, `isContinue, `func
      ensures Ready() && nerrors == 0 && St() == old(St()).(func := None) && isCall == isCycle == 0
    {
      nerrors := 0;
      isCall, isCycle, isReturn, isBreak, isContinue := 0, 0, 0, 0, 0;
      func := None;
    }

    /** `traverse_prog`: after an error the value stack is flushed. */
    method TraverseProg(t: Tree, fuel: nat) returns (s: Status, ok: bool)
      requires scopes != [] && FuncsFit(funcs, mode) && Fits(t, false, false, mode)
      modifies this
      ensures s == Running ==> Steady()
      ensures !t.Null? ==> ProgramEnds(S.Exec(o, fuel, t, old(St()).(func := None)), s, ok)
      ensures t.Null? ==> s == Running && ok && St() == old(St())
    {
      if t.Null? {
        return Running, true;
      }
      Restart();
      s := Traverse(t, fuel, false, false);
      if s != Running {
        return s, false;
      }
      if nerrors != 0 {
        s := Flush();
        return s, false;
      }
      return Running, true;
    }

    /** `traverse_result`: takes the values off the stack, to be shown in that order. */
    method TraverseResult() returns (s: Status, shown: seq<S.Eval>)
      modifies `stack
      ensures if S.Room(old(stack)) then s == Running && stack == [] && shown == Reversed(old(stack)) else s == Asserted
    {
      shown := [];
      ghost var rest := stack;
      while true
        invariant rest == stack && |stack| <= |old(stack)| && (stack == old(stack) || S.Room(old(stack)))
        invariant Reversed(old(stack)) == shown + Reversed(stack)
        decreases |stack|
      {
        var v;
        s, v := PopEval();
        if s != Running || v.None? {
          assert shown + [] == shown;
          return;
        }
        ReversedSnoc(stack, v.value);
        assert rest == stack + [v.value];
        shown := shown + [v.value];
        rest := stack;
      }
    }

    /** `stack_flush`. */
    method Flush() returns (s: Status)
      modifies `stack
      ensures if S.Room(old(stack)) then s == Running && stack == [] else s == Asserted
    {
      if S.STACK_SZ <= |stack| + 1 {
        return Asserted;
      }
      stack := [];
      return Running;
    }
  }
}
