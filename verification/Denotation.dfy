/** Side-effect-free expressions: evaluation on the value stack is evaluation of the expression, errors and
    what they leave on the stack included, within a bound on the stack. */
module Denotation {
  import opened Ast
  import opened Basics
  import opened Semantics

  /** No calls, no assignments, no array initialisers. */
  predicate Pure(t: Tree) {
    match t
    case Var(_) | Id(_) => true
    case Unary(e, _) => Pure(e)
    case Binary(l, r, _) => Pure(l) && Pure(r)
    case Ternary(c, y, n) => Pure(c) && Pure(y) && Pure(n)
    case Access(_, ind) => ind != [] && AllPure(ind)
    case _ => false
  }

  predicate AllPure(ts: seq<Tree>) {
    forall i :: 0 <= i < |ts| ==> Pure(ts[i])
  }

  // ----- the value of an expression -----

  /** A value, or an error with the values that stay on the stack, or the end of the process. */
  datatype Verdict = Is(v: Eval) | Errs(left: seq<Eval>) | Dies

  /** The innermost binding of a name. */
  function Found(scopes: seq<Scope>, name: string): Option<Eval> {
    if scopes == [] then None
    else if name in scopes[0] then Some(scopes[0][name])
    else Found(scopes[1..], name)
  }

  lemma {:induction false} FoundIs(scopes: seq<Scope>, name: string)
    ensures match FindScope(scopes, name)
            case None => Found(scopes, name).None? && forall j :: 0 <= j < |scopes| ==> name !in scopes[j]
            case Some(k) =>
              Found(scopes, name) == Some(scopes[k][name]) && forall j :: 0 <= j < k ==> name !in scopes[j]
  {
    if scopes != [] && name !in scopes[0] {
      FoundIs(scopes[1..], name);
      assert forall j :: 1 <= j < |scopes| ==> scopes[1..][j - 1] == scopes[j];
    }
  }

  /** Zero is the only false value. */
  predicate IsTrue(o: Ops, v: Eval) {
    match v
    case Scalar(x) => !o.isZero(x)
    case Array(_) => true
  }

  /** What an expression still pushes when an error has been counted before it. */
  function Later(t: Tree, scopes: seq<Scope>): seq<Eval>
    requires Pure(t)
    decreases t
  {
    match t
    case Var(v) => [Scalar(v)]
    case Id(name) => if Found(scopes, name).Some? then [Found(scopes, name).value] else []
    case Unary(e, _) => Later(e, scopes)
    case Binary(l, r, _) => Later(l, scopes) + Later(r, scopes)
    case Ternary(c, _, _) => Later(c, scopes)
    case Access(_, _) => []
  }

  /** What an expression comes to in an environment. */
  function Den(o: Ops, t: Tree, scopes: seq<Scope>): Verdict
    requires Pure(t)
    decreases t
  {
    match t
    case Var(v) => Is(Scalar(v))
    case Id(name) => if Found(scopes, name).Some? then Is(Found(scopes, name).value) else Errs([])
    case Unary(e, op) => (
      match Den(o, e, scopes)
      case Is(x) => DenUnary(o, op, x)
      case v => v)
    case Binary(l, r, op) => (
      match Den(o, l, scopes)
      case Is(x) => WithLeft(o, op, x, Den(o, r, scopes))
      case Errs(xs) => Errs(xs + Later(r, scopes))
      case Dies => Dies)
    case Ternary(c, y, n) => (
      match Den(o, c, scopes)
      case Is(x) => if IsTrue(o, x) then Den(o, y, scopes) else Den(o, n, scopes)
      case v => v)
    case Access(name, ind) =>
      if Found(scopes, name).None? then Errs([])
      else match DenAll(o, ind, scopes)
        case None => Dies
        case Some(vals) => Element(Found(scopes, name).value, o.key(vals))
  }

  function DenUnary(o: Ops, op: Opcode, x: Eval): Verdict {
    if x.Array? then Errs([])
    else match o.unary(op, x.v)
      case None => Dies
      case Some(y) => Is(Scalar(y))
  }

  /** With the value `x` of the left operand below. */
  function WithLeft(o: Ops, op: Opcode, x: Eval, right: Verdict): Verdict {
    match right
    case Is(y) => DenBinary(o, op, x, y)
    case Errs(ys) => Errs([x] + ys)
    case Dies => Dies
  }

  function DenBinary(o: Ops, op: Opcode, x: Eval, y: Eval): Verdict {
    if x.Array? || y.Array? then Errs([])
    else match o.binary(op, x.v, y.v)
      case None => Errs([])
      case Some(z) => Is(Scalar(z))
  }

  function Element(arr: Eval, key: string): Verdict {
    if arr.Scalar? then Dies
    else if key in arr.m then Is(Scalar(arr.m[key]))
    else Errs([])
  }

  /** The scalar values of several expressions. */
  function DenAll(o: Ops, ts: seq<Tree>, scopes: seq<Scope>): Option<seq<Value>>
    requires AllPure(ts)
    decreases ts
  {
    if ts == [] then Some([])
    else match Den(o, ts[0], scopes)
      case Is(Scalar(x)) => (
        match DenAll(o, ts[1..], scopes)
        case None => None
        case Some(xs) => Some([x] + xs))
      case _ => None
  }

  // ----- the slots it takes -----

  function Max(a: nat, b: nat): nat {
    if a > b then a else b
  }

  function Above(n: nat): nat {
    if n == 0 then 0 else n + 1
  }

  /** Slots for a right operand above the value of the left one, and for taking both. */
  function RightSlots(n: nat, right: Verdict): nat {
    Max(Above(n), if right.Is? then 3 else 0)
  }

  /** Slots for pushing `ys` over `xs`. */
  function Atop(xs: seq<Eval>, ys: seq<Eval>): nat {
    if ys == [] then 0 else |xs| + |ys|
  }

  /** How many slots above the stack an evaluation in these scopes asks for, the untaken branches left aside;
      0 if it never gets to the stack. */
  function Slots(o: Ops, t: Tree, scopes: seq<Scope>): nat
    requires Pure(t)
    decreases t
  {
    match t
    case Var(_) => 1
    case Id(name) => if Found(scopes, name).Some? then 1 else 0
    case Unary(e, _) => if Den(o, e, scopes).Is? then Max(Slots(o, e, scopes), 2) else Slots(o, e, scopes)
    case Binary(l, r, _) => (
      match Den(o, l, scopes)
      case Is(_) => Max(Slots(o, l, scopes), RightSlots(Slots(o, r, scopes), Den(o, r, scopes)))
      case Errs(xs) => Max(Slots(o, l, scopes), Atop(xs, Later(r, scopes)))
      case Dies => Slots(o, l, scopes))
    case Ternary(c, y, n) =>
      var m := Slots(o, c, scopes);
      if !Den(o, c, scopes).Is? then m
      else Max(Max(m, 2), if IsTrue(o, Den(o, c, scopes).v) then Slots(o, y, scopes) else Slots(o, n, scopes))
    case Access(name, ind) => if Found(scopes, name).Some? then SlotsAll(o, ind, scopes) else 0
  }

  function SlotsAll(o: Ops, ts: seq<Tree>, scopes: seq<Scope>): nat
    requires AllPure(ts)
    decreases ts
  {
    if ts == [] then 0
    else match Den(o, ts[0], scopes)
      case Is(Scalar(_)) => Max(Max(Slots(o, ts[0], scopes), 2), SlotsAll(o, ts[1..], scopes))
      case Is(Array(_)) => Max(Slots(o, ts[0], scopes), 2)
      case _ => Slots(o, ts[0], scopes)
  }

  predicate HasRoom(n: nat, d: nat) {
    n == 0 || d + n < STACK_SZ
  }

  // ----- after an error -----

  /** The values are pushed and the error stays; without room for them an assertion of the stack fires. */
  ghost predicate Spills(r: Res, xs: seq<Eval>, st: State) {
    r == if HasRoom(|xs|, |st.stack|) then Failed(st.(stack := st.stack + xs)) else Asserted
  }

  lemma SpillsNone(st: State)
    ensures Spills(Failed(st), [], st)
  {
    assert st.stack + [] == st.stack;
  }

  lemma SpillsTwice(r: Res, r': Res, xs: seq<Eval>, ys: seq<Eval>, st: State)
    requires Spills(r, xs, st) && (r.Failed? ==> Spills(r', ys, r.st))
    ensures Spills(if r.Failed? then r' else r, xs + ys, st)
  {
    assert (st.stack + xs) + ys == st.stack + (xs + ys);
  }

  /** A traverse after an error pushes exactly what the expression still pushes. */
  lemma {:induction false} AfterRuns(o: Ops, t: Tree, st: State)
    requires Pure(t)
    ensures Spills(After(o, t, st), Later(t, st.scopes), st)
    decreases t
  {
    match t
    case Var(_) =>
    case Id(name) =>
      FoundIs(st.scopes, name);
      SpillsNone(st);
    case Unary(e, _) => AfterRuns(o, e, st);
    case Binary(l, r, _) =>
      AfterRuns(o, l, st);
      var r1 := After(o, l, st);
      if r1.Failed? {
        AfterRuns(o, r, r1.st);
        SpillsTwice(r1, After(o, r, r1.st), Later(l, st.scopes), Later(r, st.scopes), st);
      } else {
        SpillsTwice(r1, r1, Later(l, st.scopes), Later(r, st.scopes), st);
      }
    case Ternary(c, _, _) => AfterRuns(o, c, st);
    case Access(_, _) => SpillsNone(st);
  }

  // ----- evaluation on the stack -----

  /** How the evaluation of an expression ends: without room by an assertion of the stack; with room it
      pushes its value on an untouched stack and changes nothing else, or counts an error and leaves what an
      error leaves, or ends the process otherwise. */
  ghost predicate Evaluates(r: Res, v: Verdict, room: bool, st: State) {
    r == if !room then Asserted
         else match v
           case Is(x) => Done(st.(stack := st.stack + [x]), Normal)
           case Errs(xs) => Failed(st.(stack := st.stack + xs))
           case Dies => Aborted
  }

  ghost predicate Indexes(o: Ops, r: KeyRes, xs: Option<seq<Value>>, vals: seq<Value>, room: bool, st: State) {
    r == if !room then KeyStop(Asserted)
         else match xs
           case None => KeyStop(Aborted)
           case Some(ys) => KeyIs(o.key(vals + ys), st)
  }

  lemma PushThenPop(st: State, v: Eval)
    requires |st.stack| + 2 < STACK_SZ
    ensures Pop(st.(stack := st.stack + [v])) == Popped(Some(v), st)
  {
    assert (st.stack + [v])[..|st.stack|] == st.stack;
  }

  lemma PushTwoThenPop(st: State, v: Eval, w: Eval)
    requires |st.stack| + 3 < STACK_SZ
    ensures PopTwo(st.(stack := st.stack + [v] + [w])) == TwoPopped(Some(v), Some(w), st)
  {
    PushThenPop(st.(stack := st.stack + [v]), w);
    PushThenPop(st, v);
  }

  /** Stack evaluation of an expression is its evaluation. */
  ghost predicate Faithful(o: Ops, fuel: nat, t: Tree, st: State)
    requires Pure(t)
  {
    Evaluates(Exec(o, fuel, t, st), Den(o, t, st.scopes), HasRoom(Slots(o, t, st.scopes), |st.stack|), st)
  }

  lemma UnaryFaithful(o: Ops, fuel: nat, e: Tree, op: Opcode, st: State)
    requires Pure(e) && Faithful(o, fuel, e, st)
    ensures Faithful(o, fuel, Unary(e, op), st)
  {
    var r := Exec(o, fuel, e, st);
    assert Exec(o, fuel, Unary(e, op), st) == if r.Done? then ApplyUnary(o, op, r.st) else r;
    var v := Den(o, e, st.scopes);
    if v.Is? && |st.stack| + 2 < STACK_SZ {
      PushThenPop(st, v.v);
      assert st.stack + [] == st.stack;
    }
  }

  lemma BinaryFaithful(o: Ops, fuel: nat, l: Tree, r: Tree, op: Opcode, st: State)
    requires Pure(l) && Pure(r) && Faithful(o, fuel, l, st)
    requires Den(o, l, st.scopes).Is? ==> Faithful(o, fuel, r, st.(stack := st.stack + [Den(o, l, st.scopes).v]))
    ensures Faithful(o, fuel, Binary(l, r, op), st)
  {
    var v := Den(o, l, st.scopes);
    if v.Is? {
      RightFaithful(o, fuel, l, r, op, st, v.v);
    } else if v.Errs? {
      AfterLeft(o, fuel, l, r, op, st, v.left);
    }
  }

  /** With an error on the left. */
  lemma AfterLeft(o: Ops, fuel: nat, l: Tree, r: Tree, op: Opcode, st: State, xs: seq<Eval>)
    requires Pure(l) && Pure(r) && Faithful(o, fuel, l, st) && Den(o, l, st.scopes) == Errs(xs)
    ensures Faithful(o, fuel, Binary(l, r, op), st)
  {
    var st1, ys := st.(stack := st.stack + xs), Later(r, st.scopes);
    AfterRuns(o, r, st1);
    var n := Slots(o, l, st.scopes);
    BinaryOn(o, fuel, l, r, op, st);
    AfterEvaluates(Exec(o, fuel, l, st), After(o, r, st1), n, xs, ys, st);
    assert Den(o, Binary(l, r, op), st.scopes) == Errs(xs + ys);
    assert Slots(o, Binary(l, r, op), st.scopes) == Max(n, Atop(xs, ys));
  }

  lemma AfterEvaluates(r: Res, r': Res, n: nat, xs: seq<Eval>, ys: seq<Eval>, st: State)
    requires Evaluates(r, Errs(xs), HasRoom(n, |st.stack|), st) && Spills(r', ys, st.(stack := st.stack + xs))
    ensures Evaluates(if r.Failed? then r' else r, Errs(xs + ys), HasRoom(Max(n, Atop(xs, ys)), |st.stack|), st)
  {
    assert (st.stack + xs) + ys == st.stack + (xs + ys);
    assert ys == [] ==> xs + ys == xs;
  }

  /** With a value on the left. */
  lemma RightFaithful(o: Ops, fuel: nat, l: Tree, r: Tree, op: Opcode, st: State, x: Eval)
    requires Pure(l) && Pure(r) && Faithful(o, fuel, l, st) && Den(o, l, st.scopes) == Is(x)
    requires Faithful(o, fuel, r, st.(stack := st.stack + [x]))
    ensures Faithful(o, fuel, Binary(l, r, op), st)
  {
    var n, m, v := Slots(o, l, st.scopes), Slots(o, r, st.scopes), Den(o, r, st.scopes);
    if HasRoom(n, |st.stack|) {
      var st1 := st.(stack := st.stack + [x]);
      BinaryOn(o, fuel, l, r, op, st);
      RightEvaluates(o, op, Exec(o, fuel, r, st1), x, v, m, st);
    }
    assert Den(o, Binary(l, r, op), st.scopes) == WithLeft(o, op, x, v);
    assert Slots(o, Binary(l, r, op), st.scopes) == Max(n, RightSlots(m, v));
  }

  lemma RightEvaluates(o: Ops, op: Opcode, r: Res, x: Eval, v: Verdict, n: nat, st: State)
    requires Evaluates(r, v, HasRoom(n, |st.stack| + 1), st.(stack := st.stack + [x]))
    ensures Evaluates(if r.Done? then ApplyBinary(o, op, r.st) else r, WithLeft(o, op, x, v),
                      HasRoom(RightSlots(n, v), |st.stack|), st)
  {
    if v.Is? {
      Combines(o, op, st, x, v.v);
    } else if v.Errs? {
      assert (st.stack + [x]) + v.left == st.stack + ([x] + v.left);
    }
  }

  lemma {:induction false} BinaryOn(o: Ops, fuel: nat, l: Tree, r: Tree, op: Opcode, st: State)
    ensures match Exec(o, fuel, l, st)
            case Done(st1, _) => (
              var x := Exec(o, fuel, r, st1);
              Exec(o, fuel, Binary(l, r, op), st) == if x.Done? then ApplyBinary(o, op, x.st) else x)
            case Failed(st1) => Exec(o, fuel, Binary(l, r, op), st) == After(o, r, st1)
            case x => Exec(o, fuel, Binary(l, r, op), st) == x
  {
  }

  lemma Combines(o: Ops, op: Opcode, st: State, x: Eval, y: Eval)
    ensures Evaluates(ApplyBinary(o, op, st.(stack := st.stack + [x] + [y])), DenBinary(o, op, x, y),
                      |st.stack| + 3 < STACK_SZ, st)
  {
    if |st.stack| + 3 < STACK_SZ {
      PushTwoThenPop(st, x, y);
      assert st.stack + [] == st.stack;
    }
  }

  lemma TernaryFaithful(o: Ops, fuel: nat, c: Tree, y: Tree, n: Tree, st: State)
    requires Pure(c) && Pure(y) && Pure(n) && Faithful(o, fuel, c, st)
    requires Den(o, c, st.scopes).Is? ==> Faithful(o, fuel, if IsTrue(o, Den(o, c, st.scopes).v) then y else n, st)
    ensures Faithful(o, fuel, Ternary(c, y, n), st)
  {
    var v := Den(o, c, st.scopes);
    if v.Is? && |st.stack| + 2 < STACK_SZ {
      PushThenPop(st, v.v);
    }
  }

  lemma AccessFaithful(o: Ops, fuel: nat, name: string, ind: seq<Tree>, st: State)
    requires ind != [] && AllPure(ind)
    requires Indexes(o, Index(o, fuel, ind, [], st), DenAll(o, ind, st.scopes), [],
                     HasRoom(SlotsAll(o, ind, st.scopes), |st.stack|), st)
    ensures Faithful(o, fuel, Access(name, ind), st)
  {
    ExecIs(o, fuel, Access(name, ind), st);
    FoundIs(st.scopes, name);
    assert st.stack + [] == st.stack;
    match DenAll(o, ind, st.scopes)
    case None =>
    case Some(xs) => assert [] + xs == xs;
  }

  /** Stack evaluation is evaluation, for every expression in every state. */
  lemma {:induction false} StackEvaluation(o: Ops, fuel: nat, t: Tree, st: State)
    requires Pure(t)
    ensures Evaluates(Exec(o, fuel, t, st), Den(o, t, st.scopes), HasRoom(Slots(o, t, st.scopes), |st.stack|), st)
    decreases t
  {
    match t
    case Var(_) =>
    case Id(name) =>
      FoundIs(st.scopes, name);
      assert st.stack + [] == st.stack;
    case Unary(e, op) =>
      StackEvaluation(o, fuel, e, st);
      UnaryFaithful(o, fuel, e, op, st);
    case Binary(l, r, op) =>
      StackEvaluation(o, fuel, l, st);
      if Den(o, l, st.scopes).Is? {
        StackEvaluation(o, fuel, r, st.(stack := st.stack + [Den(o, l, st.scopes).v]));
      }
      BinaryFaithful(o, fuel, l, r, op, st);
    case Ternary(c, y, n) =>
      StackEvaluation(o, fuel, c, st);
      StackEvaluation(o, fuel, y, st);
      StackEvaluation(o, fuel, n, st);
      TernaryFaithful(o, fuel, c, y, n, st);
    case Access(name, ind) =>
      IndexEvaluation(o, fuel, ind, [], st);
      AccessFaithful(o, fuel, name, ind, st);
  }

  lemma {:induction false} IndexEvaluation(o: Ops, fuel: nat, ind: seq<Tree>, vals: seq<Value>, st: State)
    requires AllPure(ind)
    ensures Indexes(o, Index(o, fuel, ind, vals, st), DenAll(o, ind, st.scopes), vals,
                    HasRoom(SlotsAll(o, ind, st.scopes), |st.stack|), st)
    decreases ind
  {
    if ind == [] {
      assert vals + [] == vals;
    } else {
      StackEvaluation(o, fuel, ind[0], st);
      var v := Den(o, ind[0], st.scopes);
      if v.Is? && |st.stack| + 2 < STACK_SZ {
        PushThenPop(st, v.v);
        if v.v.Scalar? {
          IndexEvaluation(o, fuel, ind[1..], vals + [v.v.v], st);
          match DenAll(o, ind[1..], st.scopes)
          case None =>
          case Some(xs) => assert (vals + [v.v.v]) + xs == vals + ([v.v.v] + xs);
        }
      }
    }
  }

  /** Which of its ends a traverse comes to: an assertion of the stack exactly when there is no room, and
      otherwise what the expression comes to. */
  lemma RoomIsExact(o: Ops, fuel: nat, t: Tree, st: State)
    requires Pure(t)
    ensures Exec(o, fuel, t, st) == Asserted <==> !HasRoom(Slots(o, t, st.scopes), |st.stack|)
    ensures Exec(o, fuel, t, st).Done? <==> Den(o, t, st.scopes).Is? && HasRoom(Slots(o, t, st.scopes), |st.stack|)
    ensures Exec(o, fuel, t, st).Failed? <==> Den(o, t, st.scopes).Errs? && HasRoom(Slots(o, t, st.scopes), |st.stack|)
    ensures Exec(o, fuel, t, st) == Aborted
       <==> Den(o, t, st.scopes).Dies? && HasRoom(Slots(o, t, st.scopes), |st.stack|)
  {
    StackEvaluation(o, fuel, t, st);
  }

  /** What success means. */
  lemma SuccessPushesValue(o: Ops, fuel: nat, t: Tree, st: State)
    requires Pure(t) && Exec(o, fuel, t, st).Done?
    ensures Den(o, t, st.scopes).Is?
    ensures Exec(o, fuel, t, st) == Done(st.(stack := st.stack + [Den(o, t, st.scopes).v]), Normal)
  {
    StackEvaluation(o, fuel, t, st);
  }

  /** How many values a line that is this expression leaves to be shown or flushed. */
  function LeftOver(v: Verdict): nat {
    match v
    case Is(_) => 1
    case Errs(xs) => |xs|
    case Dies => 0
  }

  /** When a line ends by an assertion of the stack, at a push, a pop or the emptying of the stack. */
  lemma LineIsExact(o: Ops, fuel: nat, t: Tree, st: State)
    requires Pure(t)
    ensures Emptied(Exec(o, fuel, t, st)) == Asserted
       <==> !HasRoom(Slots(o, t, st.scopes), |st.stack|)
            || (!Den(o, t, st.scopes).Dies? && |st.stack| + LeftOver(Den(o, t, st.scopes)) + 1 >= STACK_SZ)
  {
    StackEvaluation(o, fuel, t, st);
  }

  // ----- a bound without the scopes, for an expression that has a value -----

  /** How many slots above the stack an expression may need. */
  function Need(t: Tree): (n: nat)
    requires Pure(t)
    ensures n >= 1
    decreases t
  {
    match t
    case Var(_) | Id(_) => 1
    case Unary(e, _) => Need(e)
    case Binary(l, r, _) => Max(Need(l), 1 + Need(r))
    case Ternary(c, y, n) => Max(Need(c), Max(Need(y), Need(n)))
    case Access(_, ind) => NeedAll(ind)
  }

  function NeedAll(ts: seq<Tree>): (n: nat)
    requires AllPure(ts)
    ensures n >= 1
    decreases ts
  {
    if ts == [] then 1 else Max(Need(ts[0]), NeedAll(ts[1..]))
  }

  lemma {:induction false} NeedBounds(o: Ops, t: Tree, scopes: seq<Scope>)
    requires Pure(t) && Den(o, t, scopes).Is?
    ensures Slots(o, t, scopes) <= Need(t) + 1
    decreases t
  {
    match t
    case Var(_) | Id(_) =>
    case Unary(e, _) => NeedBounds(o, e, scopes);
    case Binary(l, r, _) =>
      NeedBounds(o, l, scopes);
      NeedBounds(o, r, scopes);
    case Ternary(c, y, n) =>
      NeedBounds(o, c, scopes);
      if IsTrue(o, Den(o, c, scopes).v) {
        NeedBounds(o, y, scopes);
      } else {
        NeedBounds(o, n, scopes);
      }
    case Access(_, ind) => NeedAllBounds(o, ind, scopes);
  }

  lemma {:induction false} NeedAllBounds(o: Ops, ts: seq<Tree>, scopes: seq<Scope>)
    requires AllPure(ts) && DenAll(o, ts, scopes).Some?
    ensures SlotsAll(o, ts, scopes) <= NeedAll(ts) + 1
    decreases ts
  {
    if ts != [] {
      NeedBounds(o, ts[0], scopes);
      NeedAllBounds(o, ts[1..], scopes);
    }
  }

  /** With `Need(t)` slots to spare an expression that has a value gets it. */
  lemma NeedSuffices(o: Ops, fuel: nat, t: Tree, st: State)
    requires Pure(t) && |st.stack| + Need(t) + 1 < STACK_SZ && Den(o, t, st.scopes).Is?
    ensures Exec(o, fuel, t, st) == Done(st.(stack := st.stack + [Den(o, t, st.scopes).v]), Normal)
  {
    NeedBounds(o, t, st.scopes);
    StackEvaluation(o, fuel, t, st);
  }

  predicate TernaryFree(t: Tree) {
    match t
    case Unary(e, _) => TernaryFree(e)
    case Binary(l, r, _) => TernaryFree(l) && TernaryFree(r)
    case Access(_, ind) => forall i :: 0 <= i < |ind| ==> TernaryFree(ind[i])
    case _ => !t.Ternary?
  }

  /** Where there is no branch to choose and no value missing, the bound is what is asked for; a leaf, which
      pops nothing, can do with one slot less. */
  lemma {:induction false} NeedIsExact(o: Ops, t: Tree, scopes: seq<Scope>)
    requires Pure(t) && TernaryFree(t) && Den(o, t, scopes).Is?
    ensures Slots(o, t, scopes) == Need(t) + if t.Var? || t.Id? then 0 else 1
    decreases t
  {
    match t
    case Var(_) | Id(_) =>
    case Unary(e, _) => NeedIsExact(o, e, scopes);
    case Binary(l, r, _) =>
      NeedIsExact(o, l, scopes);
      NeedIsExact(o, r, scopes);
    case Access(_, ind) => NeedAllIsExact(o, ind, scopes);
  }

  lemma {:induction false} NeedAllIsExact(o: Ops, ts: seq<Tree>, scopes: seq<Scope>)
    requires AllPure(ts) && (forall i :: 0 <= i < |ts| ==> TernaryFree(ts[i])) && ts != []
    requires DenAll(o, ts, scopes).Some?
    ensures SlotsAll(o, ts, scopes) == NeedAll(ts) + 1
    decreases ts
  {
    NeedIsExact(o, ts[0], scopes);
    if |ts| > 1 {
      NeedAllIsExact(o, ts[1..], scopes);
    }
  }

  // ----- a bound without the scopes, errors or not -----

  /** The most values an expression pushes after an error. */
  function Most(t: Tree): nat
    requires Pure(t)
    decreases t
  {
    match t
    case Var(_) | Id(_) => 1
    case Unary(e, _) => Most(e)
    case Binary(l, r, _) => Most(l) + Most(r)
    case Ternary(c, _, _) => Most(c)
    case Access(_, _) => 0
  }

  /** The most values an error in an expression leaves; a literal has none. */
  function Spill(t: Tree): Option<nat>
    requires Pure(t)
    decreases t
  {
    match t
    case Var(_) => None
    case Id(_) | Access(_, _) => Some(0)
    case Unary(e, _) => Some(Least(Spill(e)))
    case Binary(l, r, _) => Some(Max(SpillOver(Spill(l), Most(r)), SpillOver(Spill(r), 1)))
    case Ternary(c, y, n) => Either(Spill(c), Either(Spill(y), Spill(n)))
  }

  function Least(a: Option<nat>): nat {
    if a.Some? then a.value else 0
  }

  function SpillOver(a: Option<nat>, n: nat): nat {
    if a.Some? then a.value + n else 0
  }

  function Either(a: Option<nat>, b: Option<nat>): Option<nat> {
    if a.None? then b else Some(Max(a.value, Least(b)))
  }

  /** The most slots above the stack that an expression asks for. */
  function Peak(t: Tree): nat
    requires Pure(t)
    decreases t
  {
    match t
    case Var(_) | Id(_) => 1
    case Unary(e, _) => Max(Peak(e), 2)
    case Binary(l, r, _) => Max(Max(Peak(l), Peak(r) + 1), Max(3, SpillOver(Spill(l), Most(r))))
    case Ternary(c, y, n) => Max(Max(Peak(c), 2), Max(Peak(y), Peak(n)))
    case Access(_, ind) => PeakAll(ind)
  }

  function PeakAll(ts: seq<Tree>): nat
    requires AllPure(ts)
    decreases ts
  {
    if ts == [] then 2 else Max(Peak(ts[0]), PeakAll(ts[1..]))
  }

  lemma {:induction false} MostBounds(t: Tree, scopes: seq<Scope>)
    requires Pure(t)
    ensures |Later(t, scopes)| <= Most(t)
    decreases t
  {
    match t
    case Var(_) | Id(_) | Access(_, _) =>
    case Unary(e, _) => MostBounds(e, scopes);
    case Ternary(c, _, _) => MostBounds(c, scopes);
    case Binary(l, r, _) =>
      MostBounds(l, scopes);
      MostBounds(r, scopes);
  }

  /** What is left is at most `a`. */
  predicate Within(v: Verdict, a: Option<nat>) {
    v.Errs? ==> a.Some? && |v.left| <= a.value
  }

  lemma {:induction false} SpillBounds(o: Ops, t: Tree, scopes: seq<Scope>)
    requires Pure(t)
    ensures Within(Den(o, t, scopes), Spill(t))
    decreases t
  {
    match t
    case Var(_) | Id(_) | Access(_, _) =>
    case Unary(e, _) => SpillBounds(o, e, scopes);
    case Binary(l, r, _) =>
      SpillBounds(o, l, scopes);
      SpillBounds(o, r, scopes);
      MostBounds(r, scopes);
    case Ternary(c, y, n) =>
      SpillBounds(o, c, scopes);
      SpillBounds(o, y, scopes);
      SpillBounds(o, n, scopes);
  }

  lemma {:induction false} PeakBounds(o: Ops, t: Tree, scopes: seq<Scope>)
    requires Pure(t)
    ensures Slots(o, t, scopes) <= Peak(t)
    decreases t
  {
    match t
    case Var(_) | Id(_) =>
    case Unary(e, _) => PeakBounds(o, e, scopes);
    case Binary(l, r, _) =>
      PeakBounds(o, l, scopes);
      PeakBounds(o, r, scopes);
      SpillBounds(o, l, scopes);
      MostBounds(r, scopes);
    case Ternary(c, y, n) =>
      PeakBounds(o, c, scopes);
      PeakBounds(o, y, scopes);
      PeakBounds(o, n, scopes);
    case Access(_, ind) => PeakAllBounds(o, ind, scopes);
  }

  lemma {:induction false} PeakAllBounds(o: Ops, ts: seq<Tree>, scopes: seq<Scope>)
    requires AllPure(ts)
    ensures SlotsAll(o, ts, scopes) <= PeakAll(ts) && PeakAll(ts) >= 2
    decreases ts
  {
    if ts != [] {
      PeakBounds(o, ts[0], scopes);
      PeakAllBounds(o, ts[1..], scopes);
    }
  }

  lemma {:induction false} SpillInPeak(t: Tree)
    requires Pure(t)
    ensures Least(Spill(t)) <= Peak(t)
    decreases t
  {
    match t
    case Var(_) | Id(_) | Access(_, _) =>
    case Unary(e, _) => SpillInPeak(e);
    case Binary(_, r, _) => SpillInPeak(r);
    case Ternary(c, y, n) =>
      SpillInPeak(c);
      SpillInPeak(y);
      SpillInPeak(n);
  }

  lemma PeakPositive(t: Tree)
    requires Pure(t)
    ensures Peak(t) >= 1
  {
    if t.Access? {
      PeakAllPositive(t.ind);
    }
  }

  lemma {:induction false} PeakAllPositive(ts: seq<Tree>)
    requires AllPure(ts)
    ensures PeakAll(ts) >= 2
    decreases ts
  {
    if ts != [] {
      PeakAllPositive(ts[1..]);
    }
  }

  /** With `Peak(t)` slots to spare no assertion of the stack ends the line, errors or not, whatever the
      scopes: not the traverse, nor the showing of the value, nor the flush after an error. */
  lemma PeakSuffices(o: Ops, fuel: nat, t: Tree, st: State)
    requires Pure(t) && |st.stack| + Peak(t) + 1 < STACK_SZ
    ensures Exec(o, fuel, t, st) != Asserted && Emptied(Exec(o, fuel, t, st)) != Asserted
  {
    PeakBounds(o, t, st.scopes);
    SpillBounds(o, t, st.scopes);
    SpillInPeak(t);
    PeakPositive(t);
    StackEvaluation(o, fuel, t, st);
  }

  // ----- the bound of values is not enough for errors -----

  /** `u + 1 + ... + 1`, with `n` ones. */
  function Ones(n: nat): (t: Tree)
    ensures Pure(t)
  {
    if n == 0 then Id("u") else Binary(Ones(n - 1), Var(Number(1)), OpPlus)
  }

  function Repeated(n: nat): (s: seq<Eval>)
    ensures |s| == n
  {
    if n == 0 then [] else Repeated(n - 1) + [Scalar(Number(1))]
  }

  lemma {:induction false} OnesDen(o: Ops, n: nat, scopes: seq<Scope>)
    requires Found(scopes, "u").None?
    ensures Den(o, Ones(n), scopes) == Errs(Repeated(n))
    decreases n
  {
    if n > 0 {
      OnesDen(o, n - 1, scopes);
      assert Later(Var(Number(1)), scopes) == [Scalar(Number(1))];
    }
  }

  lemma {:induction false} OnesSlots(o: Ops, n: nat, scopes: seq<Scope>)
    requires Found(scopes, "u").None?
    ensures Slots(o, Ones(n), scopes) == n
    decreases n
  {
    if n > 0 {
      OnesSlots(o, n - 1, scopes);
      OnesDen(o, n - 1, scopes);
      assert Later(Var(Number(1)), scopes) == [Scalar(Number(1))];
    }
  }

  lemma PlusOne(t: Tree)
    requires Pure(t)
    ensures var sum := Binary(t, Var(Number(1)), OpPlus);
            && Need(sum) == Max(Need(t), 2) && Spill(sum) == Some(SpillOver(Spill(t), 1))
            && Peak(sum) == Max(Max(Peak(t), 3), SpillOver(Spill(t), 1))
  {
    var one := Var(Number(1));
    assert Need(one) == 1 && Peak(one) == 1 && Most(one) == 1 && Spill(one) == None;
  }

  ghost predicate Bounded(t: Tree, n: nat) {
    Pure(t) && Spill(t) == Some(n) && Need(t) <= 2 && Peak(t) == if n == 0 then 1 else Max(3, n)
  }

  lemma BoundedMore(t: Tree, n: nat)
    requires Bounded(t, n)
    ensures Bounded(Binary(t, Var(Number(1)), OpPlus), n + 1)
  {
    PlusOne(t);
  }

  /** Here the second bound is reached, and the first is far below it. */
  lemma {:induction false} OnesBounds(n: nat)
    ensures Bounded(Ones(n), n)
    decreases n
  {
    if n > 0 {
      OnesBounds(n - 1);
      BoundedMore(Ones(n - 1), n - 1);
    }
  }

  lemma OnesRun(o: Ops, fuel: nat, n: nat, st: State)
    requires Found(st.scopes, "u").None? && st.stack == []
    ensures Exec(o, fuel, Ones(n), st) == if n < STACK_SZ then Failed(st.(stack := Repeated(n))) else Asserted
  {
    OnesDen(o, n, st.scopes);
    OnesSlots(o, n, st.scopes);
    StackEvaluation(o, fuel, Ones(n), st);
    assert [] + Repeated(n) == Repeated(n);
  }

  /** With `u` unbound the ones pile up: 128 of them on an empty stack end the process, and 127 do so at the
      flush, though two slots would do if `u` had a value. */
  lemma OnesPileUp(o: Ops, fuel: nat, n: nat, st: State)
    requires Found(st.scopes, "u").None? && st.stack == []
    ensures Need(Ones(n)) <= 2 && (n >= 3 ==> Slots(o, Ones(n), st.scopes) == Peak(Ones(n)))
    ensures Exec(o, fuel, Ones(n), st) == if n < STACK_SZ then Failed(st.(stack := Repeated(n))) else Asserted
    ensures Emptied(Exec(o, fuel, Ones(n), st)) == if n + 1 < STACK_SZ then Failed(st) else Asserted
  {
    OnesBounds(n);
    OnesSlots(o, n, st.scopes);
    OnesRun(o, fuel, n, st);
  }
}
