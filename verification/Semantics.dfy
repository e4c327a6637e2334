/** A structured big-step semantics of the language that src/traverse.c runs: every construct maps a state
    to a state and an outcome.  Operators and index strings are parameters; loops and calls are bounded by
    fuel. */
module Semantics {
  import opened Ast
  import opened Basics

  /** `eval_t` and `id_item_t`: a scalar or an array. */
  datatype Eval = Scalar(v: Value) | Array(m: map<string, Value>)

  type Scope = map<string, Eval>

  datatype FuncDef = FuncDef(params: seq<string>, rets: seq<string>, stmts: seq<Tree>)

  /** The scopes, innermost first, the value stack, the function table, and the function being run. */
  datatype State = State(scopes: seq<Scope>, stack: seq<Eval>, funcs: map<string, FuncDef>, func: Option<FuncDef>)

  datatype Outcome = Normal | Broke | Continued | Returned

  /** `Failed`: an error was counted, and this is the state when the traverse returns.  `Asserted`: an
      assertion of the value stack has ended the process.  `Aborted`: `error(1, ...)` or another assertion has. */
  datatype Res = Done(st: State, out: Outcome) | Failed(st: State) | Asserted | Aborted | Timeout

  datatype Ops = Ops(
    binary: (Opcode, Value, Value) -> Option<Value>,
    unary: (Opcode, Value) -> Option<Value>,
    isZero: Value -> bool,
    key: seq<Value> -> string)

  const STACK_SZ: nat := 128

  // ----- the value stack -----

  /** `stack_push`, `stack_pop`: both assert that a slot is free. */
  predicate Room(stack: seq<Eval>) {
    STACK_SZ > |stack| + 1
  }

  function Push(st: State, v: Eval): (r: Res)
    ensures r.Asserted? || (r.Done? && r.out.Normal?)
  {
    if Room(st.stack) then Done(st.(stack := st.stack + [v]), Normal) else Asserted
  }

  datatype Popped = Popped(v: Option<Eval>, st: State) | PopAsserted

  function Pop(st: State): Popped {
    if !Room(st.stack) then PopAsserted
    else if st.stack == [] then Popped(None, st)
    else Popped(Some(st.stack[|st.stack| - 1]), st.(stack := st.stack[..|st.stack| - 1]))
  }

  datatype PoppedAll = PoppedAll(vs: seq<Option<Eval>>, st: State) | PopAllAsserted

  /** `stack_pop_n`: the top first. */
  function PopN(st: State, n: nat): (r: PoppedAll)
    ensures r.PoppedAll? ==> |r.vs| == n
    decreases n
  {
    if n == 0 then PoppedAll([], st)
    else match Pop(st)
      case PopAsserted => PopAllAsserted
      case Popped(v, st1) =>
        match PopN(st1, n - 1)
        case PopAllAsserted => PopAllAsserted
        case PoppedAll(vs, st2) => PoppedAll([v] + vs, st2)
  }

  /** `stack_push_n`. */
  function PushAll(st: State, vs: seq<Eval>): (r: Res)
    ensures r.Asserted? || (r.Done? && r.out.Normal?)
    decreases |vs|
  {
    if !Room(st.stack) then Asserted
    else if vs == [] then Done(st, Normal)
    else if |vs| == 1 then Push(st, vs[0])
    else PushAll(st.(stack := st.stack + [vs[0]]), vs[1..])
  }

  lemma {:induction false} PushAllIs(st: State, vs: seq<Eval>)
    ensures PushAll(st, vs)
         == if !Room(st.stack) || |st.stack| + |vs| >= STACK_SZ then Asserted
            else Done(st.(stack := st.stack + vs), Normal)
    decreases |vs|
  {
    if vs == [] {
      assert st.stack + vs == st.stack;
    } else if |vs| == 1 {
      assert vs == [vs[0]];
    } else if Room(st.stack) {
      PushAllIs(st.(stack := st.stack + [vs[0]]), vs[1..]);
      assert (st.stack + [vs[0]]) + vs[1..] == st.stack + vs;
    }
  }

  /** The `n` topmost values, the top first, None where there are no more. */
  function TopDown(s: seq<Eval>, n: nat): (r: seq<Option<Eval>>)
    ensures |r| == n
  {
    seq(n, i requires 0 <= i => if i < |s| then Some(s[|s| - 1 - i]) else None)
  }

  function Below(s: seq<Eval>, n: nat): seq<Eval> {
    if n <= |s| then s[..|s| - n] else []
  }

  lemma {:induction false} PopNIs(st: State, n: nat)
    ensures PopN(st, n)
         == if n == 0 || Room(st.stack) then PoppedAll(TopDown(st.stack, n), st.(stack := Below(st.stack, n)))
            else PopAllAsserted
    decreases n
  {
    if n > 0 && Room(st.stack) {
      var p := Pop(st);
      PopNIs(p.st, n - 1);
      assert TopDown(st.stack, n) == [p.v] + TopDown(p.st.stack, n - 1);
      assert Below(p.st.stack, n - 1) == Below(st.stack, n);
    } else if n == 0 {
      assert st.stack[..|st.stack|] == st.stack;
    }
  }

  /** The end of a line: the values are shown, or flushed after an error; both assert that a slot is free. */
  function Emptied(r: Res): Res {
    match r
    case Done(st, out) => if Room(st.stack) then Done(st.(stack := []), out) else Asserted
    case Failed(st) => if Room(st.stack) then Failed(st.(stack := [])) else Asserted
    case x => x
  }

  // ----- the scopes -----

  /** `id_table_lookup_all`: the innermost scope with the name. */
  function FindScope(scopes: seq<Scope>, name: string): (r: Option<nat>)
    ensures r.Some? ==> r.value < |scopes| && name in scopes[r.value]
  {
    if scopes == [] then None
    else if name in scopes[0] then Some(0)
    else match FindScope(scopes[1..], name)
      case None => None
      case Some(k) => Some(k + 1)
  }

  function SetIn(st: State, k: nat, name: string, v: Eval): State
    requires k < |st.scopes|
  {
    st.(scopes := st.scopes[k := st.scopes[k][name := v]])
  }

  function RemoveIn(st: State, k: nat, name: string): State
    requires k < |st.scopes|
  {
    st.(scopes := st.scopes[k := st.scopes[k] - {name}])
  }

  /** The array of a name in the scope `k`, as it is now. */
  function ArrayIn(st: State, k: nat, name: string): Option<map<string, Value>> {
    if k < |st.scopes| && name in st.scopes[k] && st.scopes[k][name].Array? then Some(st.scopes[k][name].m) else None
  }

  /** `push_return_args`: all must be variables of the function's own scope; the first ends on top. */
  function PushReturns(st: State, rets: seq<string>): (r: Res)
    ensures !r.Timeout? && (r.Done? ==> r.out.Normal?)
  {
    if exists i :: 0 <= i < |rets| && !InCurrent(st, rets[i]) then Failed(st) else PushLastFirst(st, rets)
  }

  predicate InCurrent(st: State, name: string) {
    st.scopes != [] && name in st.scopes[0]
  }

  function PushLastFirst(st: State, rets: seq<string>): (r: Res)
    ensures !r.Failed? && !r.Timeout? && (r.Done? ==> r.out.Normal?)
    decreases |rets|
  {
    if rets == [] then Done(st, Normal)
    else
      var name := rets[|rets| - 1];
      if !InCurrent(st, name) || st.scopes[0][name].Array? then Aborted
      else if !Room(st.stack) then Asserted
      else PushLastFirst(st.(stack := st.stack + [st.scopes[0][name]]), rets[..|rets| - 1])
  }

  // ----- after an error -----

  /** What a push leaves when an error has been counted before. */
  function Spoiled(r: Res): Res {
    match r
    case Done(st, _) => Failed(st)
    case x => x
  }

  /** Traversing an operand when an error has been counted before: operands of operands are still visited, and
      what needs none is still pushed. */
  function After(o: Ops, t: Tree, st: State): Res
    decreases t
  {
    match t
    case Null => Aborted
    case Var(v) => Spoiled(Push(st, Scalar(v)))
    case Id(name) => (
      match FindScope(st.scopes, name)
      case None => Failed(st)
      case Some(k) => Spoiled(Push(st, st.scopes[k][name])))
    case Unary(e, _) => After(o, e, st)
    case Ternary(c, _, _) => After(o, c, st)
    case Binary(l, r, _) => (
      match After(o, l, st)
      case Failed(st1) => After(o, r, st1)
      case x => x)
    case OpAssign(l, r, _) => (
      match After(o, l, st)
      case Failed(st1) => After(o, r, st1)
      case x => x)
    case Seq(items) => AfterBack(o, items, st)
    case Arr(items) => AfterItems(o, items, st)
    case Call(name, args) =>
      if name !in st.funcs || |args| != |st.funcs[name].params| then Failed(st) else AfterFirst(o, args, st)
    case Assign(_, r) => After(o, r, st)
    case _ => Failed(st)
  }

  /** Of a list of items or arguments only the first is visited. */
  function AfterFirst(o: Ops, items: seq<Tree>, st: State): Res
    decreases items, 0
  {
    if items == [] then Failed(st) else After(o, items[0], st)
  }

  /** An empty array is pushed. */
  function AfterItems(o: Ops, items: seq<Tree>, st: State): Res
    decreases items, 1
  {
    match AfterFirst(o, items, st)
    case Failed(st1) => Spoiled(Push(st1, Array(map[])))
    case x => x
  }

  function AfterBack(o: Ops, items: seq<Tree>, st: State): Res
    decreases items
  {
    if items == [] then Failed(st)
    else match After(o, items[|items| - 1], st)
      case Failed(st1) => AfterBack(o, items[..|items| - 1], st1)
      case x => x
  }

  /** `traverse` of an operand, `bad` saying whether an error has been counted before. */
  function Run(o: Ops, fuel: nat, t: Tree, st: State, bad: bool): Res {
    if bad then After(o, t, st) else Exec(o, fuel, t, st)
  }

  function RunBack(o: Ops, fuel: nat, items: seq<Tree>, st: State, bad: bool): Res {
    if bad then AfterBack(o, items, st) else ExecBack(o, fuel, items, st)
  }

  function RunCond(o: Ops, fuel: nat, t: Tree, st: State, bad: bool): CondRes {
    if bad then CondStop(After(o, t, st)) else Cond(o, fuel, t, st)
  }

  function RunRest(o: Ops, fuel: nat, t: Tree, st: State, bad: bool): Res
    requires t.Assign?
  {
    if bad then After(o, t, st) else AssignRest(o, fuel, t, st)
  }

  // ----- constructs -----

  /** What follows a computation that must complete. */
  datatype CondRes = CondIs(b: bool, st: State) | CondStop(r: Res)

  datatype KeyRes = KeyIs(key: string, st: State) | KeyStop(r: Res)

  datatype ArgsRes = ArgsAre(scope: Scope, st: State) | ArgsStop(r: Res)

  function Exec(o: Ops, fuel: nat, t: Tree, st: State): Res
    decreases fuel, t, 9
  {
    match t
    case Null => Aborted
    case Stub => Done(st, Normal)
    case Var(v) => Push(st, Scalar(v))
    case Id(name) => (
      match FindScope(st.scopes, name)
      case None => Failed(st)
      case Some(k) => Push(st, st.scopes[k][name]))
    case Unary(e, op) => (
      match Exec(o, fuel, e, st)
      case Done(st1, _) => ApplyUnary(o, op, st1)
      case r => r)
    case Binary(l, r, op) => (
      match Exec(o, fuel, l, st)
      case Done(st1, _) => (
        match Exec(o, fuel, r, st1)
        case Done(st2, _) => ApplyBinary(o, op, st2)
        case x => x)
      case Failed(st1) => After(o, r, st1)
      case x => x)
    case Ternary(c, y, n) => (
      match Cond(o, fuel, c, st)
      case CondStop(r) => r
      case CondIs(b, st1) => if b then Exec(o, fuel, y, st1) else Exec(o, fuel, n, st1))
    case Arr(items) => Items(o, fuel, items, map[], st)
    case Seq(items) => ExecBack(o, fuel, items, st)
    case Access(name, ind) => ReadAccess(o, fuel, t, st)
    case Call(name, args) => CallFunction(o, fuel, t, st)
    case Assign(l, r) => AssignTop(o, fuel, t, st)
    case OpAssign(l, r, op) => OpAssignTo(o, fuel, t, st)
    case If(c, body, els) => (
      match Cond(o, fuel, c, st)
      case CondStop(r) => r
      case CondIs(b, st1) =>
        if b then Exec(o, fuel, body, st1)
        else if els.Null? then Done(st1, Normal)
        else Exec(o, fuel, els, st1))
    case For(init, c, step, body) => (
      match if init.Null? then Done(st, Normal) else Exec(o, fuel, init, st)
      case Done(st1, _) => ForLoop(o, fuel, t, st1)
      case r => r)
    case While(c, body) => WhileLoop(o, fuel, t, st)
    case Do(c, body) => DoLoop(o, fuel, t, st)
    case Break => Done(st, Broke)
    case Continue => Done(st, Continued)
    case Return => ReturnFrom(st)
    case Del(target) => Delete(o, fuel, t, st)
    case Scope(stmts) => ExecAll(o, fuel, stmts, st)
    case Func(name, params, rets, stmts) => Done(st.(funcs := st.funcs[name := FuncDef(params, rets, stmts)]), Normal)
  }

  function ReturnFrom(st: State): Res {
    if st.func.None? then Aborted
    else match PushReturns(st, st.func.value.rets)
      case Done(st1, _) => Done(st1, Returned)
      case r => r
  }

  /** The statements of a block, until one does not end normally. */
  function ExecAll(o: Ops, fuel: nat, stmts: seq<Tree>, st: State): Res
    decreases fuel, stmts, 8
  {
    if stmts == [] then Done(st, Normal)
    else match Exec(o, fuel, stmts[0], st)
      case Done(st1, Normal) => ExecAll(o, fuel, stmts[1..], st1)
      case r => r
  }

  /** The right sides of an assignment, last first, errors or not. */
  function ExecBack(o: Ops, fuel: nat, items: seq<Tree>, st: State): Res
    decreases fuel, items, 8
  {
    if items == [] then Done(st, Normal)
    else match Exec(o, fuel, items[|items| - 1], st)
      case Done(st1, _) => ExecBack(o, fuel, items[..|items| - 1], st1)
      case Failed(st1) => AfterBack(o, items[..|items| - 1], st1)
      case r => r
  }

  /** `eval_process_unary` on the top of the stack. */
  function ApplyUnary(o: Ops, op: Opcode, st: State): Res {
    match Pop(st)
    case PopAsserted => Asserted
    case Popped(v, st1) =>
      if v.None? || v.value.Array? then Failed(st1)
      else match o.unary(op, v.value.v)
        case None => Aborted
        case Some(x) => Push(st1, Scalar(x))
  }

  datatype TwoPopped = TwoPopped(left: Option<Eval>, right: Option<Eval>, st: State) | TwoAsserted

  function PopTwo(st: State): TwoPopped {
    match Pop(st)
    case PopAsserted => TwoAsserted
    case Popped(right, st1) =>
      match Pop(st1)
      case PopAsserted => TwoAsserted
      case Popped(left, st2) => TwoPopped(left, right, st2)
  }

  /** `eval_process_op` on two values. */
  function Combine(o: Ops, op: Opcode, left: Option<Eval>, right: Option<Eval>): Option<Value> {
    if left.None? || right.None? || left.value.Array? || right.value.Array? then None
    else o.binary(op, left.value.v, right.value.v)
  }

  function ApplyBinary(o: Ops, op: Opcode, st: State): Res {
    match PopTwo(st)
    case TwoAsserted => Asserted
    case TwoPopped(left, right, st1) =>
      match Combine(o, op, left, right)
      case None => Failed(st1)
      case Some(x) => Push(st1, Scalar(x))
  }

  function Truth(o: Ops, v: Eval): bool {
    v.Array? || !o.isZero(v.v)
  }

  /** `traverse_cond`. */
  function Cond(o: Ops, fuel: nat, t: Tree, st: State): CondRes
    decreases fuel, t, 10
  {
    match Exec(o, fuel, t, st)
    case Done(st1, _) => Decide(o, st1)
    case r => CondStop(r)
  }

  /** The truth of the top of the stack, taken off. */
  function Decide(o: Ops, st: State): CondRes {
    match Pop(st)
    case PopAsserted => CondStop(Asserted)
    case Popped(v, st1) => if v.None? then CondStop(Failed(st1)) else CondIs(Truth(o, v.value), st1)
  }

  /** `traverse_arr`, from the index `i` of the items left; after an error what there is is pushed. */
  function Items(o: Ops, fuel: nat, items: seq<Tree>, m: map<string, Value>, st: State, i: nat := 0): Res
    decreases fuel, items, 8
  {
    if items == [] then Push(st, Array(m))
    else match Exec(o, fuel, items[0], st)
      case Done(st1, _) => ItemsOn(o, fuel, items, m, st1, i)
      case Failed(st1) => Spoiled(Push(st1, Array(m)))
      case r => r
  }

  /** The value of the first item is on the stack. */
  function ItemsOn(o: Ops, fuel: nat, items: seq<Tree>, m: map<string, Value>, st: State, i: nat): Res
    requires items != []
    decreases fuel, items, 7
  {
    match Pop(st)
    case PopAsserted => Asserted
    case Popped(v, st1) =>
      if v.None? || v.value.Array? then Aborted
      else Items(o, fuel, items[1..], m[o.key([Number(i)]) := v.value.v], st1, i + 1)
  }

  /** `create_index`; every caller asserts that there is a key, so an error or a missing value ends the process. */
  function Index(o: Ops, fuel: nat, ind: seq<Tree>, vals: seq<Value>, st: State): KeyRes
    decreases fuel, ind, 8
  {
    if ind == [] then KeyIs(o.key(vals), st)
    else match Exec(o, fuel, ind[0], st)
      case Done(st1, _) => (
        match Pop(st1)
        case PopAsserted => KeyStop(Asserted)
        case Popped(v, st2) =>
          if v.None? || v.value.Array? then KeyStop(Aborted) else Index(o, fuel, ind[1..], vals + [v.value.v], st2))
      case Failed(_) => KeyStop(Aborted)
      case r => KeyStop(r)
  }

  function ReadAccess(o: Ops, fuel: nat, t: Tree, st: State): Res
    requires t.Access?
    decreases fuel, t, 5
  {
    match FindScope(st.scopes, t.name)
    case None => Failed(st)
    case Some(k) =>
      match Index(o, fuel, t.ind, [], st)
      case KeyStop(r) => r
      case KeyIs(key, st1) =>
        match ArrayIn(st1, k, t.name)
        case None => Aborted
        case Some(m) => if key in m then Push(st1, Scalar(m[key])) else Failed(st1)
  }

  /** `add_args_to_scope`: an argument without a value ends the list, with no error. */
  function Args(o: Ops, fuel: nat, args: seq<Tree>, params: seq<string>, scope: Scope, st: State): ArgsRes
    requires |args| == |params|
    decreases fuel, args, 8
  {
    if args == [] then ArgsAre(scope, st)
    else match Exec(o, fuel, args[0], st)
      case Done(st1, _) => ArgsOn(o, fuel, args, params, scope, st1)
      case r => ArgsStop(r)
  }

  /** The value of the first argument is on the stack. */
  function ArgsOn(o: Ops, fuel: nat, args: seq<Tree>, params: seq<string>, scope: Scope, st: State): ArgsRes
    requires |args| == |params| && args != []
    decreases fuel, args, 7
  {
    match Pop(st)
    case PopAsserted => ArgsStop(Asserted)
    case Popped(v, st1) =>
      if v.None? then ArgsAre(scope, st1)
      else if params[0] in scope then ArgsStop(Aborted)
      else Args(o, fuel, args[1..], params[1..], scope[params[0] := v.value], st1)
  }

  function RunArgs(o: Ops, fuel: nat, args: seq<Tree>, params: seq<string>, st: State, bad: bool): ArgsRes
    requires |args| == |params|
  {
    if bad then ArgsStop(AfterFirst(o, args, st)) else Args(o, fuel, args, params, map[], st)
  }

  /** `traverse_func_call`. */
  function CallFunction(o: Ops, fuel: nat, t: Tree, st: State): Res
    requires t.Call?
    decreases fuel, t, 5
  {
    if t.name !in st.funcs then Failed(st)
    else
      var f := st.funcs[t.name];
      if |t.args| != |f.params| then Failed(st)
      else match Args(o, fuel, t.args, f.params, map[], st)
        case ArgsStop(r) => r
        case ArgsAre(scope, st1) => Enter(o, fuel, t, f, scope, st1)
  }

  /** A call costs one unit of fuel. */
  function Enter(o: Ops, fuel: nat, t: Tree, f: FuncDef, scope: Scope, st: State): Res
    decreases fuel, t, 4
  {
    if fuel == 0 then Timeout else RunBody(o, fuel - 1, f, scope, st)
  }

  /** `id_table_push`, `exec_function`, `id_table_pop`. */
  function RunBody(o: Ops, fuel: nat, f: FuncDef, scope: Scope, st: State): Res
    decreases fuel, f.stmts, 11
  {
    match RunFunction(o, fuel, f, st.(scopes := [scope] + st.scopes))
    case Done(st1, _) => Done(PopScope(st1), Normal)
    case Failed(st1) => Failed(PopScope(st1))
    case r => r
  }

  function PopScope(st: State): State {
    st.(scopes := if st.scopes == [] then [] else st.scopes[1..])
  }

  /** `exec_function`; an error in the body leaves the current function set. */
  function RunFunction(o: Ops, fuel: nat, f: FuncDef, st: State): Res
    decreases fuel, f.stmts, 10
  {
    match ExecAll(o, fuel, f.stmts, st.(func := Some(f)))
    case Done(st1, out) => FinishFunction(f, st.func, st1, out)
    case r => r
  }

  /** A `return` has pushed the results, falling off the end pushes them now; `caller` is the function before. */
  function FinishFunction(f: FuncDef, caller: Option<FuncDef>, st: State, out: Outcome): Res {
    match out
    case Returned => Done(st.(func := caller), Normal)
    case Normal => (
      match PushReturns(st, f.rets)
      case Done(st1, _) => Done(st1.(func := caller), Normal)
      case Failed(st1) => Failed(st1.(func := caller))
      case r => r)
    case _ => Failed(st)
  }

  /** `set_value_node`. */
  function Set(o: Ops, fuel: nat, t: Tree, v: Eval, st: State): Res
    decreases fuel, t, 5
  {
    match t
    case Id(name) => if st.scopes == [] then Aborted else Done(SetIn(st, 0, name, v), Normal)
    case Access(name, ind) =>
      if v.Array? then Failed(st)
      else if st.scopes == [] then Aborted
      else (
        match FindScope(st.scopes, name)
        case None => SetElement(o, fuel, t, v.v, 0, SetIn(st, 0, name, Array(map[])))
        case Some(k) => if st.scopes[k][name].Array? then SetElement(o, fuel, t, v.v, k, st) else Failed(st))
    case _ => Failed(st)
  }

  function SetElement(o: Ops, fuel: nat, t: Tree, v: Value, k: nat, st: State): Res
    requires t.Access?
    decreases fuel, t, 4
  {
    match Index(o, fuel, t.ind, [], st)
    case KeyStop(r) => r
    case KeyIs(key, st1) =>
      match ArrayIn(st1, k, t.name)
      case None => Aborted
      case Some(m) => Done(SetIn(st1, k, t.name, Array(m[key := v])), Normal)
  }

  /** `set_value_node_n`. */
  function SetAll(o: Ops, fuel: nat, items: seq<Tree>, vs: seq<Eval>, st: State): Res
    requires |items| == |vs|
    decreases fuel, items, 8
  {
    if items == [] then Done(st, Normal)
    else match Set(o, fuel, items[0], vs[0], st)
      case Done(st1, _) => SetAll(o, fuel, items[1..], vs[1..], st1)
      case r => r
  }

  predicate AllSome(vs: seq<Option<Eval>>) {
    forall i :: 0 <= i < |vs| ==> vs[i].Some?
  }

  function Values(vs: seq<Option<Eval>>): (r: seq<Eval>)
    requires AllSome(vs)
    ensures |r| == |vs| && forall i :: 0 <= i < |vs| ==> r[i] == vs[i].value
  {
    if vs == [] then [] else [vs[0].value] + Values(vs[1..])
  }

  /** `traverse_as_rest`: leaves the values on the stack for the assignment before it in a chain. */
  function AssignRest(o: Ops, fuel: nat, t: Tree, st: State): Res
    requires t.Assign?
    decreases fuel, t, 5
  {
    match if t.right.Assign? then AssignRest(o, fuel, t.right, st) else Exec(o, fuel, t.right, st)
    case Done(st1, _) => if t.left.Seq? then StoreTop(o, fuel, t.left, st1) else Failed(st1)
    case r => r
  }

  function StoreTop(o: Ops, fuel: nat, left: Tree, st: State): Res
    requires left.Seq?
    decreases fuel, left, 9
  {
    match PopN(st, |left.items|)
    case PopAllAsserted => Asserted
    case PoppedAll(vs, st1) =>
      if !AllSome(vs) then Failed(st1)
      else match SetAll(o, fuel, left.items, Values(vs), st1)
        case Done(st2, _) => PushAll(st2, Values(vs))
        case r => r
  }

  /** `stack_remove_n`. */
  function RemoveN(st: State, n: nat): Res {
    if n > |st.stack| then Asserted else Done(st.(stack := st.stack[..|st.stack| - n]), Normal)
  }

  /** `traverse_as`. */
  function AssignTop(o: Ops, fuel: nat, t: Tree, st: State): Res
    requires t.Assign?
    decreases fuel, t, 6
  {
    match AssignRest(o, fuel, t, st)
    case Done(st1, _) => RemoveN(st1, if t.left.Seq? then |t.left.items| else 0)
    case r => r
  }

  /** `traverse_op_as`. */
  function OpAssignTo(o: Ops, fuel: nat, t: Tree, st: State): Res
    requires t.OpAssign?
    decreases fuel, t, 6
  {
    match Exec(o, fuel, t.left, st)
    case Done(st1, _) => (
      match Exec(o, fuel, t.right, st1)
      case Done(st2, _) => StoreCombined(o, fuel, t, st2)
      case r => r)
    case Failed(st1) => After(o, t.right, st1)
    case r => r
  }

  function StoreCombined(o: Ops, fuel: nat, t: Tree, st: State): Res
    requires t.OpAssign?
    decreases fuel, t, 5
  {
    match PopTwo(st)
    case TwoAsserted => Asserted
    case TwoPopped(left, right, st1) =>
      match Combine(o, t.op, left, right)
      case None => Failed(st1)
      case Some(x) => Set(o, fuel, t.left, Scalar(x), st1)
  }

  /** `traverse_del`. */
  function Delete(o: Ops, fuel: nat, t: Tree, st: State): Res
    requires t.Del?
    decreases fuel, t, 5
  {
    match t.target
    case Id(name) => (
      match FindScope(st.scopes, name)
      case None => Failed(st)
      case Some(k) => Done(RemoveIn(st, k, name), Normal))
    case Access(name, ind) => (
      match FindScope(st.scopes, name)
      case None => Failed(st)
      case Some(k) => (
        match Index(o, fuel, ind, [], st)
        case KeyStop(r) => r
        case KeyIs(key, st1) => (
          match ArrayIn(st1, k, name)
          case None => Aborted
          case Some(m) => if key in m then Done(SetIn(st1, k, name, Array(m - {key})), Normal) else Failed(st1))))
    case _ => Aborted
  }

  // ----- loops -----

  /** One round of a loop: another one follows, or it is over. */
  datatype Round = Again(st: State) | Over(r: Res)

  /** What a loop makes of the end of its body: `break` and `return` end it. */
  function Catch(r: Res): Round {
    match r
    case Done(st, Broke) => Over(Done(st, Normal))
    case Done(st, Returned) => Over(Done(st, Returned))
    case Done(st, _) => Again(st)
    case x => Over(x)
  }

  function ForLoop(o: Ops, fuel: nat, t: Tree, st: State): Res
    requires t.For?
    decreases fuel, t, 6
  {
    if fuel == 0 then Timeout
    else match ForRound(o, fuel, t, st)
      case Over(r) => r
      case Again(st1) => ForLoop(o, fuel - 1, t, st1)
  }

  function ForRound(o: Ops, fuel: nat, t: Tree, st: State): Round
    requires t.For?
    decreases fuel, t, 5
  {
    match if t.cond.Null? then CondIs(true, st) else Cond(o, fuel, t.cond, st)
    case CondStop(r) => Over(r)
    case CondIs(b, st1) =>
      if !b then Over(Done(st1, Normal))
      else match Catch(Exec(o, fuel, t.body, st1))
        case Again(st2) => ForNext(o, fuel, t, st2)
        case Over(r) => Over(r)
  }

  function ForNext(o: Ops, fuel: nat, t: Tree, st: State): Round
    requires t.For?
    decreases fuel, t, 4
  {
    match if t.step.Null? then Done(st, Normal) else Exec(o, fuel, t.step, st)
    case Done(st1, _) => Again(st1)
    case r => Over(r)
  }

  function WhileLoop(o: Ops, fuel: nat, t: Tree, st: State): Res
    requires t.While?
    decreases fuel, t, 6
  {
    if fuel == 0 then Timeout
    else match WhileRound(o, fuel, t, st)
      case Over(r) => r
      case Again(st1) => WhileLoop(o, fuel - 1, t, st1)
  }

  function WhileRound(o: Ops, fuel: nat, t: Tree, st: State): Round
    requires t.While?
    decreases fuel, t, 5
  {
    match Cond(o, fuel, t.cond, st)
    case CondStop(r) => Over(r)
    case CondIs(b, st1) =>
      if !b then Over(Done(st1, Normal))
      else if t.body.Null? then Again(st1)
      else Catch(Exec(o, fuel, t.body, st1))
  }

  function DoLoop(o: Ops, fuel: nat, t: Tree, st: State): Res
    requires t.Do?
    decreases fuel, t, 6
  {
    if fuel == 0 then Timeout
    else match DoRound(o, fuel, t, st)
      case Over(r) => r
      case Again(st1) => DoLoop(o, fuel - 1, t, st1)
  }

  /** As coded: `continue` starts the body again without testing the condition. */
  function DoRound(o: Ops, fuel: nat, t: Tree, st: State): Round
    requires t.Do?
    decreases fuel, t, 5
  {
    match if t.body.Null? then Done(st, Normal) else Exec(o, fuel, t.body, st)
    case Done(st1, Normal) => DoTest(o, fuel, t, st1)
    case r => Catch(r)
  }

  function DoTest(o: Ops, fuel: nat, t: Tree, st: State): Round
    requires t.Do?
    decreases fuel, t, 4
  {
    match Cond(o, fuel, t.cond, st)
    case CondStop(r) => Over(r)
    case CondIs(b, st1) => if b then Again(st1) else Over(Done(st1, Normal))
  }

  lemma RunCondIs(o: Ops, fuel: nat, t: Tree, st: State, bad: bool)
    ensures bad ==> RunCond(o, fuel, t, st, bad) == CondStop(Run(o, fuel, t, st, bad))
    ensures !bad ==>
      match Run(o, fuel, t, st, bad)
      case Done(st1, _) => RunCond(o, fuel, t, st, bad) == Decide(o, st1)
      case r => RunCond(o, fuel, t, st, bad) == CondStop(r)
  {
  }

  lemma RunArr(o: Ops, fuel: nat, t: Tree, st: State, bad: bool)
    requires t.Arr?
    ensures !bad ==> Run(o, fuel, t, st, bad) == Items(o, fuel, t.items, map[], st, 0)
    ensures bad ==> Run(o, fuel, t, st, bad) == AfterItems(o, t.items, st)
  {
  }

  /** `traverse_arr` step by step. */
  lemma {:induction false} ItemsIs(o: Ops, fuel: nat, items: seq<Tree>, m: map<string, Value>, st: State, i: nat)
    ensures items == [] ==> Items(o, fuel, items, m, st, i) == Push(st, Array(m))
    ensures items == [] ==> AfterItems(o, items, st) == Spoiled(Push(st, Array(map[])))
    ensures items != [] ==>
      match Exec(o, fuel, items[0], st)
      case Done(st1, _) => Items(o, fuel, items, m, st, i) == ItemsOn(o, fuel, items, m, st1, i)
      case Failed(st1) => Items(o, fuel, items, m, st, i) == Spoiled(Push(st1, Array(m)))
      case r => Items(o, fuel, items, m, st, i) == r
    ensures items != [] ==>
      match After(o, items[0], st)
      case Failed(st1) => AfterItems(o, items, st) == Spoiled(Push(st1, Array(map[])))
      case r => AfterItems(o, items, st) == r
  {
  }

  /** The first argument. */
  lemma {:induction false} ArgsIs(o: Ops, fuel: nat, args: seq<Tree>, params: seq<string>, scope: Scope, st: State)
    requires |args| == |params|
    ensures args == [] ==> Args(o, fuel, args, params, scope, st) == ArgsAre(scope, st)
    ensures args == [] ==> AfterFirst(o, args, st) == Failed(st)
    ensures args != [] ==> AfterFirst(o, args, st) == After(o, args[0], st)
    ensures args != [] ==>
      match Exec(o, fuel, args[0], st)
      case Done(st1, _) => Args(o, fuel, args, params, scope, st) == ArgsOn(o, fuel, args, params, scope, st1)
      case r => Args(o, fuel, args, params, scope, st) == ArgsStop(r)
  {
  }

  // ----- the constructs with functions of their own -----

  lemma ExecIs(o: Ops, fuel: nat, t: Tree, st: State)
    ensures t.Seq? ==> Exec(o, fuel, t, st) == ExecBack(o, fuel, t.items, st)
    ensures t.Access? ==> Exec(o, fuel, t, st) == ReadAccess(o, fuel, t, st)
    ensures t.Call? ==> Exec(o, fuel, t, st) == CallFunction(o, fuel, t, st)
    ensures t.Assign? ==> Exec(o, fuel, t, st) == AssignTop(o, fuel, t, st)
    ensures t.OpAssign? ==> Exec(o, fuel, t, st) == OpAssignTo(o, fuel, t, st)
    ensures t.While? ==> Exec(o, fuel, t, st) == WhileLoop(o, fuel, t, st)
    ensures t.Do? ==> Exec(o, fuel, t, st) == DoLoop(o, fuel, t, st)
    ensures t.Return? ==> Exec(o, fuel, t, st) == ReturnFrom(st)
    ensures t.Del? ==> Exec(o, fuel, t, st) == Delete(o, fuel, t, st)
    ensures t.Scope? ==> Exec(o, fuel, t, st) == ExecAll(o, fuel, t.stmts, st)
    ensures t.Break? ==> Exec(o, fuel, t, st) == Done(st, Broke)
    ensures t.Continue? ==> Exec(o, fuel, t, st) == Done(st, Continued)
    ensures t.Stub? ==> Exec(o, fuel, t, st) == Done(st, Normal)
    ensures t.Null? ==> Exec(o, fuel, t, st) == Aborted
    ensures t.Var? ==> Exec(o, fuel, t, st) == Push(st, Scalar(t.v))
  {
  }
}
