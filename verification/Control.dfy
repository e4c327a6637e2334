/** What the control constructs do, in terms of their parts alone: conditionals, blocks, and the three loops with
    `break`, `continue` and `return`. */
module Control {
  import opened Ast
  import opened Basics
  import opened Semantics
  import opened Denotation
  import opened Assignments
  import opened Updates

  // ----- conditions -----

  /** How a condition turns out, with the state when its value has been taken off; no test if there is no value,
      or no slot free for taking it off. */
  datatype Test = True(st: State) | False(st: State) | NoTest

  function Tested(o: Ops, fuel: nat, c: Tree, st: State): Test {
    var r := Exec(o, fuel, c, st);
    if !r.Done? || r.st.stack == [] || |r.st.stack| + 1 >= STACK_SZ then NoTest
    else
      var n := |r.st.stack| - 1;
      var below := r.st.(stack := r.st.stack[..n]);
      if IsTrue(o, r.st.stack[n]) then True(below) else False(below)
  }

  /** A side-effect-free condition is tested as its value, on an untouched state. */
  lemma PureTest(o: Ops, fuel: nat, c: Tree, v: Eval, st: State)
    requires Pure(c) && Den(o, c, st.scopes) == Is(v)
    requires HasRoom(Max(Slots(o, c, st.scopes), 2), |st.stack|)
    ensures Tested(o, fuel, c, st) == if IsTrue(o, v) then True(st) else False(st)
  {
    StackEvaluation(o, fuel, c, st);
    assert (st.stack + [v])[..|st.stack|] == st.stack;
  }

  lemma TestIs(o: Ops, fuel: nat, c: Tree, st: State)
    ensures match Tested(o, fuel, c, st)
            case True(st1) => Cond(o, fuel, c, st) == CondIs(true, st1)
            case False(st1) => Cond(o, fuel, c, st) == CondIs(false, st1)
            case NoTest => Cond(o, fuel, c, st).CondStop? && !Cond(o, fuel, c, st).r.Done?
  {
  }

  // ----- conditionals and blocks -----

  /** The branch that the condition chooses is run, and nothing if it is a missing `else`. */
  lemma IfRuns(o: Ops, fuel: nat, c: Tree, y: Tree, n: Tree, st: State)
    ensures match Tested(o, fuel, c, st)
            case True(st1) => Exec(o, fuel, If(c, y, n), st) == Exec(o, fuel, y, st1)
            case False(st1) =>
              Exec(o, fuel, If(c, y, n), st) == if n.Null? then Done(st1, Normal) else Exec(o, fuel, n, st1)
            case NoTest => !Exec(o, fuel, If(c, y, n), st).Done?
  {
    TestIs(o, fuel, c, st);
  }

  /** With a side-effect-free condition: its value chooses, on an untouched state. */
  lemma IfChooses(o: Ops, fuel: nat, c: Tree, y: Tree, n: Tree, v: Eval, st: State)
    requires Pure(c) && Den(o, c, st.scopes) == Is(v) && HasRoom(Max(Slots(o, c, st.scopes), 2), |st.stack|)
    ensures Exec(o, fuel, If(c, y, n), st)
         == if IsTrue(o, v) then Exec(o, fuel, y, st)
            else if n.Null? then Done(st, Normal)
            else Exec(o, fuel, n, st)
  {
    PureTest(o, fuel, c, v, st);
    IfRuns(o, fuel, c, y, n, st);
  }

  /** A block is its first part and, if that ends normally, its second. */
  lemma {:induction false} BlockRuns(o: Ops, fuel: nat, a: seq<Tree>, b: seq<Tree>, st: State)
    ensures var r := Exec(o, fuel, Scope(a), st);
            Exec(o, fuel, Scope(a + b), st) == if r.Done? && r.out.Normal? then Exec(o, fuel, Scope(b), r.st) else r
    decreases |a|
  {
    if a == [] {
      assert a + b == b;
    } else {
      assert (a + b)[1..] == a[1..] + b;
      var r := Exec(o, fuel, a[0], st);
      if r.Done? && r.out.Normal? {
        BlockRuns(o, fuel, a[1..], b, r.st);
        assert Exec(o, fuel, Scope(a[1..]), r.st) == ExecAll(o, fuel, a[1..], r.st);
      }
    }
  }

  /** A block of one statement is that statement, and an empty one does nothing. */
  lemma BlockOfOne(o: Ops, fuel: nat, t: Tree, st: State)
    ensures Exec(o, fuel, Scope([t]), st) == Exec(o, fuel, t, st) && Exec(o, fuel, Scope([]), st) == Done(st, Normal)
  {
    var r := Exec(o, fuel, t, st);
    if r.Done? {
      assert ExecAll(o, fuel, [t][1..], r.st) == Done(r.st, Normal);
    }
  }

  // ----- rounds of loops -----

  /** A loop, a `for` loop after its first expression. */
  predicate Loop(t: Tree) {
    t.While? || t.Do? || (t.For? && t.init.Null?)
  }

  /** What may be missing: the body of `while` and `do`, the expressions of `for`. */
  function Part(o: Ops, fuel: nat, t: Tree, st: State): Res {
    if t.Null? then Done(st, Normal) else Exec(o, fuel, t, st)
  }

  /** The test before the body. */
  function Before(o: Ops, fuel: nat, t: Tree, st: State): Test
    requires Loop(t)
  {
    if t.Do? || (t.For? && t.cond.Null?) then True(st) else Tested(o, fuel, t.cond, st)
  }

  function BodyRuns(o: Ops, fuel: nat, t: Tree, st: State): Res
    requires Loop(t)
  {
    if t.For? then Exec(o, fuel, t.body, st) else Part(o, fuel, t.body, st)
  }

  /** One round leads from `a` to the start of the next in `b`: after the body ended normally or by `continue`, `for`
      runs its third expression, and `do` tests its condition unless it was `continue`. */
  ghost predicate Goes(o: Ops, fuel: nat, t: Tree, a: State, b: State)
    requires Loop(t)
  {
    match Before(o, fuel, t, a)
    case True(a1) => (
      match BodyRuns(o, fuel, t, a1)
      case Done(a2, Normal) =>
        if t.Do? then Tested(o, fuel, t.cond, a2) == True(b)
        else if t.For? then Part(o, fuel, t.step, a2).Done? && Part(o, fuel, t.step, a2).st == b
        else a2 == b
      case Done(a2, Continued) =>
        if t.For? then Part(o, fuel, t.step, a2).Done? && Part(o, fuel, t.step, a2).st == b else a2 == b
      case _ => false)
    case _ => false
  }

  /** The round from `a` is the last, and leaves the loop in `b`: by a false condition, by `break`, or by `return`. */
  ghost predicate Ends(o: Ops, fuel: nat, t: Tree, a: State, b: State, out: Outcome)
    requires Loop(t)
  {
    match Before(o, fuel, t, a)
    case False(a1) => a1 == b && out == Normal
    case NoTest => false
    case True(a1) =>
      match BodyRuns(o, fuel, t, a1)
      case Done(a2, Broke) => a2 == b && out == Normal
      case Done(a2, Returned) => a2 == b && out == Returned
      case Done(a2, Normal) => t.Do? && Tested(o, fuel, t.cond, a2) == False(b) && out == Normal
      case _ => false
  }

  /** The round `r` is as the parts of the loop say. */
  ghost predicate RoundMeans(o: Ops, fuel: nat, t: Tree, a: State, r: Round)
    requires Loop(t)
  {
    && (forall b :: Goes(o, fuel, t, a, b) <==> r == Again(b))
    && (forall b, out :: Ends(o, fuel, t, a, b, out) <==> r == Over(Done(b, out)))
  }

  lemma WhileRoundIs(o: Ops, fuel: nat, t: Tree, a: State)
    requires t.While?
    ensures RoundMeans(o, fuel, t, a, WhileRound(o, fuel, t, a))
  {
    TestIs(o, fuel, t.cond, a);
  }

  lemma DoRoundIs(o: Ops, fuel: nat, t: Tree, a: State)
    requires t.Do?
    ensures RoundMeans(o, fuel, t, a, DoRound(o, fuel, t, a))
  {
    var r := Part(o, fuel, t.body, a);
    if r.Done? {
      TestIs(o, fuel, t.cond, r.st);
    }
  }

  lemma ForRoundIs(o: Ops, fuel: nat, t: Tree, a: State)
    requires t.For? && t.init.Null?
    ensures RoundMeans(o, fuel, t, a, ForRound(o, fuel, t, a))
  {
    if !t.cond.Null? {
      TestIs(o, fuel, t.cond, a);
    }
  }

  function RoundOf(o: Ops, fuel: nat, t: Tree, a: State): Round
    requires Loop(t)
  {
    match t
    case While(_, _) => WhileRound(o, fuel, t, a)
    case Do(_, _) => DoRound(o, fuel, t, a)
    case For(_, _, _, _) => ForRound(o, fuel, t, a)
  }

  lemma RoundsMean(o: Ops, fuel: nat, t: Tree, a: State)
    requires Loop(t)
    ensures RoundMeans(o, fuel, t, a, RoundOf(o, fuel, t, a))
  {
    match t
    case While(_, _) => WhileRoundIs(o, fuel, t, a);
    case Do(_, _) => DoRoundIs(o, fuel, t, a);
    case For(_, _, _, _) => ForRoundIs(o, fuel, t, a);
  }

  /** The loop is its first round and the loop from there. */
  lemma LoopIs(o: Ops, fuel: nat, t: Tree, a: State)
    requires Loop(t)
    ensures fuel == 0 ==> Exec(o, fuel, t, a) == Timeout
    ensures fuel > 0 ==>
      match RoundOf(o, fuel, t, a)
      case Again(b) => Exec(o, fuel, t, a) == Exec(o, fuel - 1, t, b)
      case Over(r) => Exec(o, fuel, t, a) == r
  {
    ExecIs(o, fuel, t, a);
    if fuel > 0 {
      var round := RoundOf(o, fuel, t, a);
      if round.Again? {
        ExecIs(o, fuel - 1, t, round.st);
      }
    }
  }

  /** A round that goes on makes the loop the loop from there. */
  lemma RoundGoes(o: Ops, fuel: nat, t: Tree, a: State, b: State)
    requires Loop(t) && fuel > 0 && Goes(o, fuel, t, a, b)
    ensures Exec(o, fuel, t, a) == Exec(o, fuel - 1, t, b)
  {
    RoundsMean(o, fuel, t, a);
    LoopIs(o, fuel, t, a);
  }

  /** The last round ends it. */
  lemma RoundEnds(o: Ops, fuel: nat, t: Tree, a: State, b: State, out: Outcome)
    requires Loop(t) && fuel > 0 && Ends(o, fuel, t, a, b, out)
    ensures Exec(o, fuel, t, a) == Done(b, out)
  {
    RoundsMean(o, fuel, t, a);
    LoopIs(o, fuel, t, a);
  }

  /** A loop that succeeds has made such a round. */
  lemma RoundWasMade(o: Ops, fuel: nat, t: Tree, a: State) returns (b: State)
    requires Loop(t) && Exec(o, fuel, t, a).Done?
    ensures fuel > 0
    ensures var r := Exec(o, fuel, t, a);
            (Goes(o, fuel, t, a, b) && Exec(o, fuel - 1, t, b) == r) || (b == r.st && Ends(o, fuel, t, a, b, r.out))
  {
    RoundsMean(o, fuel, t, a);
    LoopIs(o, fuel, t, a);
    var round := RoundOf(o, fuel, t, a);
    b := if round.Again? then round.st else Exec(o, fuel, t, a).st;
  }

  // ----- runs of loops -----

  /** The states at the start of the rounds. */
  ghost predicate Rounds(o: Ops, fuel: nat, t: Tree, states: seq<State>)
    requires Loop(t)
  {
    && 0 < |states| <= fuel
    && forall i :: 0 < i < |states| ==> Goes(o, fuel - (i - 1), t, states[i - 1], states[i])
  }

  /** The loop runs through these rounds and ends in the last. */
  ghost predicate Runs(o: Ops, fuel: nat, t: Tree, states: seq<State>, b: State, out: Outcome)
    requires Loop(t)
  {
    Rounds(o, fuel, t, states) && Ends(o, fuel - (|states| - 1), t, states[|states| - 1], b, out)
  }

  lemma {:induction false} RunsSucceed(o: Ops, fuel: nat, t: Tree, states: seq<State>, b: State, out: Outcome)
    requires Loop(t) && Runs(o, fuel, t, states, b, out)
    ensures Exec(o, fuel, t, states[0]) == Done(b, out)
    decreases |states|
  {
    if |states| == 1 {
      RoundEnds(o, fuel, t, states[0], b, out);
    } else {
      assert Goes(o, fuel - (1 - 1), t, states[1 - 1], states[1]);
      RoundGoes(o, fuel, t, states[0], states[1]);
      var later := states[1..];
      forall i | 0 < i < |later| ensures Goes(o, fuel - 1 - (i - 1), t, later[i - 1], later[i]) {
        assert Goes(o, fuel - (i + 1 - 1), t, states[i + 1 - 1], states[i + 1]);
      }
      RunsSucceed(o, fuel - 1, t, later, b, out);
    }
  }

  lemma {:induction false} SuccessRuns(o: Ops, fuel: nat, t: Tree, st: State) returns (states: seq<State>)
    requires Loop(t) && Exec(o, fuel, t, st).Done?
    ensures Runs(o, fuel, t, states, Exec(o, fuel, t, st).st, Exec(o, fuel, t, st).out) && states[0] == st
    decreases fuel
  {
    var r := Exec(o, fuel, t, st);
    var b := RoundWasMade(o, fuel, t, st);
    if b == r.st && Ends(o, fuel, t, st, b, r.out) {
      states := [st];
    } else {
      var later := SuccessRuns(o, fuel - 1, t, b);
      states := [st] + later;
      forall i | 0 < i < |states| ensures Goes(o, fuel - (i - 1), t, states[i - 1], states[i]) {
        if i > 1 {
          assert Goes(o, fuel - 1 - (i - 1 - 1), t, later[i - 1 - 1], later[i - 1]);
        }
      }
    }
  }

  /** A loop succeeds exactly by rounds that lead from the state before it to one that is the last. */
  lemma LoopsAreRounds(o: Ops, fuel: nat, t: Tree, st: State, b: State, out: Outcome)
    requires Loop(t)
    ensures Exec(o, fuel, t, st) == Done(b, out)
       <==> exists states :: Runs(o, fuel, t, states, b, out) && states[0] == st
  {
    if Exec(o, fuel, t, st) == Done(b, out) {
      var states := SuccessRuns(o, fuel, t, st);
      assert Runs(o, fuel, t, states, b, out) && states[0] == st;
    }
    if states :| Runs(o, fuel, t, states, b, out) && states[0] == st {
      RunsSucceed(o, fuel, t, states, b, out);
    }
  }

  /** A loop that ends normally was broken, or ends where its condition has been found false. */
  lemma EndsFalseOrBroken(o: Ops, fuel: nat, t: Tree, st: State) returns (n: nat, a: State)
    requires Loop(t) && Exec(o, fuel, t, st).Done? && Exec(o, fuel, t, st).out == Normal
    ensures var b := Exec(o, fuel, t, st).st;
            && n <= fuel
            && (Tested(o, n, t.cond, a) == False(b) || BodyRuns(o, n, t, a) == Done(b, Broke))
  {
    var states := SuccessRuns(o, fuel, t, st);
    n := fuel - (|states| - 1);
    a := states[|states| - 1];
    match Before(o, n, t, a)
    case True(a1) =>
      match BodyRuns(o, n, t, a1) {
        case Done(a2, Normal) => a := a2;
        case _ => a := a1;
      }
    case _ =>
  }

  /** The first expression of `for` is run once, before the loop. */
  lemma ForStarts(o: Ops, fuel: nat, init: Tree, c: Tree, step: Tree, body: Tree, st: State)
    requires !init.Null?
    ensures var r := Exec(o, fuel, init, st);
            Exec(o, fuel, For(init, c, step, body), st)
            == if r.Done? then Exec(o, fuel, For(Null, c, step, body), r.st) else r
  {
    var r := Exec(o, fuel, init, st);
    if r.Done? {
      SameLoop(o, fuel, init, c, step, body, r.st);
    }
  }

  lemma {:induction false} SameLoop(o: Ops, fuel: nat, init: Tree, c: Tree, step: Tree, body: Tree, st: State)
    ensures ForLoop(o, fuel, For(init, c, step, body), st) == ForLoop(o, fuel, For(Null, c, step, body), st)
    decreases fuel
  {
    if fuel > 0 {
      SameRound(o, fuel, init, c, step, body, st);
      var r := ForRound(o, fuel, For(init, c, step, body), st);
      if r.Again? {
        SameLoop(o, fuel - 1, init, c, step, body, r.st);
      }
    }
  }

  lemma SameRound(o: Ops, fuel: nat, init: Tree, c: Tree, step: Tree, body: Tree, st: State)
    ensures ForRound(o, fuel, For(init, c, step, body), st) == ForRound(o, fuel, For(Null, c, step, body), st)
  {
  }

  // ----- the counted loop -----

  /** The operators `<` and `+` are those of the integers. */
  ghost predicate Arithmetic(o: Ops) {
    forall a: int, b: int ::
      && o.binary(OpPlus, Number(a), Number(b)) == Some(Number(a + b))
      && o.binary(OpLo, Number(a), Number(b)).Some?
      && (o.isZero(o.binary(OpLo, Number(a), Number(b)).value) <==> a >= b)
  }

  /** `i < n`. */
  function Below(name: string, n: int): Tree {
    Binary(Id(name), Var(Number(n)), OpLo)
  }

  /** `i += 1`. */
  function Increment(name: string): Tree {
    OpAssign(Id(name), Var(Number(1)), OpPlus)
  }

  /** `for (i = 0; i < n; i += 1) body`. */
  function Counted(name: string, n: int, body: Tree): Tree {
    For(One(Id(name), Var(Number(0))), Below(name, n), Increment(name), body)
  }

  /** The current scope gives the name this number, and three slots can be used. */
  predicate Counter(st: State, name: string, k: int) {
    && st.scopes != [] && name in st.scopes[0] && st.scopes[0][name] == Scalar(Number(k))
    && |st.stack| + 3 < STACK_SZ
  }

  function SetCounter(st: State, name: string, k: int): State {
    st.(scopes := Bound(st.scopes, name, Scalar(Number(k))))
  }

  lemma BelowTests(o: Ops, fuel: nat, name: string, n: int, k: int, st: State)
    requires Arithmetic(o) && Counter(st, name, k)
    ensures Tested(o, fuel, Below(name, n), st) == if k < n then True(st) else False(st)
  {
    var c := Below(name, n);
    var v := o.binary(OpLo, Number(k), Number(n)).value;
    assert Den(o, Id(name), st.scopes) == Is(Scalar(Number(k)));
    assert Den(o, Var(Number(n)), st.scopes) == Is(Scalar(Number(n)));
    assert Den(o, c, st.scopes) == Is(Scalar(v));
    assert Slots(o, c, st.scopes) == 3;
    PureTest(o, fuel, c, Scalar(v), st);
  }

  lemma IncrementRuns(o: Ops, fuel: nat, name: string, k: int, st: State)
    requires Arithmetic(o) && Counter(st, name, k)
    ensures Exec(o, fuel, Increment(name), st) == Done(SetCounter(st, name, k + 1), Normal)
  {
    assert Slots(o, Var(Number(1)), st.scopes) == 1;
    OpAssignCombines(o, fuel, name, Var(Number(1)), OpPlus, st, Number(k), Number(1));
  }

  /** The states before each run of the body and after the last: the body goes on and leaves the counter alone. */
  ghost predicate Iterates(o: Ops, fuel: nat, name: string, body: Tree, states: seq<State>) {
    forall k :: 0 <= k < |states| - 1 ==> Iteration(o, fuel - k, name, body, k, states[k], states[k + 1])
  }

  ghost predicate Iteration(o: Ops, fuel: int, name: string, body: Tree, k: nat, a: State, b: State) {
    && fuel >= 0
    && match Exec(o, fuel, body, a)
       case Done(m, out) =>
         (out == Normal || out == Continued) && Counter(m, name, k) && b == SetCounter(m, name, k + 1)
       case _ => false
  }

  lemma IterationGoes(o: Ops, fuel: nat, name: string, n: int, body: Tree, k: nat, a: State, b: State)
    requires Arithmetic(o) && Counter(a, name, k) && k < n && Iteration(o, fuel, name, body, k, a, b)
    ensures Goes(o, fuel, For(Null, Below(name, n), Increment(name), body), a, b)
  {
    BelowTests(o, fuel, name, n, k, a);
    IncrementRuns(o, fuel, name, k, Exec(o, fuel, body, a).st);
  }

  lemma IterationRuns(o: Ops, fuel: nat, name: string, n: int, body: Tree, k: nat, a: State, b: State)
    requires Arithmetic(o) && Counter(a, name, k) && k < n && Iteration(o, fuel, name, body, k, a, b) && fuel > 0
    ensures var t := For(Null, Below(name, n), Increment(name), body);
            Exec(o, fuel, t, a) == Exec(o, fuel - 1, t, b)
    ensures Counter(b, name, k + 1)
  {
    IterationGoes(o, fuel, name, n, body, k, a, b);
    RoundGoes(o, fuel, For(Null, Below(name, n), Increment(name), body), a, b);
  }

  lemma CountEnds(o: Ops, fuel: nat, name: string, n: int, body: Tree, a: State)
    requires Arithmetic(o) && Counter(a, name, n) && fuel > 0
    ensures Exec(o, fuel, For(Null, Below(name, n), Increment(name), body), a) == Done(a, Normal)
  {
    BelowTests(o, fuel, name, n, n, a);
    RoundEnds(o, fuel, For(Null, Below(name, n), Increment(name), body), a, a, Normal);
  }

  lemma IterationAt(o: Ops, fuel: nat, name: string, body: Tree, states: seq<State>, k: nat)
    requires Iterates(o, fuel, name, body, states) && k + 1 < |states|
    ensures Iteration(o, fuel - k, name, body, k, states[k], states[k + 1])
  {
  }

  lemma {:induction false} CountedRest(o: Ops, fuel: nat, name: string, n: nat, body: Tree, states: seq<State>, k: nat)
    requires Arithmetic(o) && n < fuel && |states| == n + 1 && Iterates(o, fuel, name, body, states)
    requires k <= n && Counter(states[k], name, k)
    ensures Exec(o, fuel - k, For(Null, Below(name, n), Increment(name), body), states[k]) == Done(states[n], Normal)
    decreases n - k
  {
    if k == n {
      CountEnds(o, fuel - k, name, n, body, states[k]);
    } else {
      var a, b := states[k], states[k + 1];
      IterationAt(o, fuel, name, body, states, k);
      IterationRuns(o, fuel - k, name, n, body, k, a, b);
      CountedRest(o, fuel, name, n, body, states, k + 1);
      assert fuel - k - 1 == fuel - (k + 1);
    }
  }

  /** The counted loop runs a body that goes on and leaves the counter alone exactly `n` times, with the counter
      from 0 to n - 1, and ends with the counter at `n`. */
  lemma CountedRuns(o: Ops, fuel: nat, name: string, n: nat, body: Tree, st: State, states: seq<State>)
    requires Arithmetic(o) && n < fuel && st.scopes != [] && |st.stack| + 3 < STACK_SZ
    requires |states| == n + 1 && states[0] == SetCounter(st, name, 0) && Iterates(o, fuel, name, body, states)
    ensures Exec(o, fuel, Counted(name, n, body), st) == Done(states[n], Normal)
  {
    var zero := Var(Number(0));
    assert Slots(o, zero, st.scopes) == 1 && Den(o, zero, st.scopes) == Is(Scalar(Number(0)));
    AssignOne(o, fuel, Id(name), zero, st);
    ForStarts(o, fuel, One(Id(name), zero), Below(name, n), Increment(name), body, st);
    CountedRest(o, fuel, name, n, body, states, 0);
  }

  lemma SetTwice(st: State, name: string, j: int, k: int)
    requires st.scopes != []
    ensures SetCounter(SetCounter(st, name, j), name, k) == SetCounter(st, name, k)
  {
    var scope, x, y := st.scopes[0], Scalar(Number(j)), Scalar(Number(k));
    assert scope[name := x][name := y] == scope[name := y];
  }

  /** `while (1) break` ends at once. */
  lemma BreakEnds(o: Ops, fuel: nat, v: Value, st: State)
    requires fuel > 0 && |st.stack| + 2 < STACK_SZ && !o.isZero(v)
    ensures Exec(o, fuel, While(Var(v), Break), st) == Done(st, Normal)
  {
    PureTest(o, fuel, Var(v), Scalar(v), st);
    RoundEnds(o, fuel, While(Var(v), Break), st, st, Normal);
  }

  lemma ContinueIterates(o: Ops, fuel: nat, name: string, k: nat, st: State)
    requires st.scopes != [] && |st.stack| + 3 < STACK_SZ
    ensures Iteration(o, fuel, name, Continue, k, SetCounter(st, name, k), SetCounter(st, name, k + 1))
  {
    SetTwice(st, name, k, k + 1);
  }

  /** `for (i = 0; i < n; i += 1) continue` counts to the end. */
  lemma ContinueCounts(o: Ops, fuel: nat, name: string, n: nat, st: State)
    requires Arithmetic(o) && n < fuel && st.scopes != [] && |st.stack| + 3 < STACK_SZ
    ensures Exec(o, fuel, Counted(name, n, Continue), st) == Done(SetCounter(st, name, n), Normal)
  {
    var states := seq(n + 1, k => SetCounter(st, name, k));
    forall k | 0 <= k < |states| - 1 ensures Iteration(o, fuel - k, name, Continue, k, states[k], states[k + 1]) {
      ContinueIterates(o, fuel - k, name, k, st);
    }
    CountedRuns(o, fuel, name, n, Continue, st, states);
  }
}
