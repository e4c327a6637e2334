/** Assignment of side-effect-free expressions: parallel, and chained with lists of any lengths. */
module Assignments {
  import opened Ast
  import opened Basics
  import opened Semantics
  import opened Denotation

  // ----- the right sides -----

  /** The values of several expressions, or an error with what stays on the stack, or the end. */
  datatype Verdicts = Are(vs: seq<Eval>) | ErrsWith(left: seq<Eval>) | Die

  /** What several expressions still push after an error, from the last to the first. */
  function LaterBack(es: seq<Tree>, scopes: seq<Scope>): seq<Eval>
    requires AllPure(es)
    decreases |es|
  {
    if es == [] then [] else Later(es[|es| - 1], scopes) + LaterBack(es[..|es| - 1], scopes)
  }

  /** What several expressions come to in one environment, from the last to the first. */
  function DenBack(o: Ops, es: seq<Tree>, scopes: seq<Scope>): (r: Verdicts)
    requires AllPure(es)
    ensures r.Are? ==> |r.vs| == |es|
    decreases |es|
  {
    if es == [] then Are([])
    else
      var short := es[..|es| - 1];
      match Den(o, es[|es| - 1], scopes)
      case Is(x) => OnTop(x, DenBack(o, short, scopes))
      case Errs(xs) => ErrsWith(xs + LaterBack(short, scopes))
      case Dies => Die
  }

  /** With the value of the last one below. */
  function OnTop(x: Eval, rest: Verdicts): Verdicts {
    match rest
    case Are(vs) => Are(vs + [x])
    case ErrsWith(ys) => ErrsWith([x] + ys)
    case Die => Die
  }

  function SlotsBack(o: Ops, es: seq<Tree>, scopes: seq<Scope>): nat
    requires AllPure(es)
    decreases |es|
  {
    if es == [] then 0
    else
      var short, m := es[..|es| - 1], Slots(o, es[|es| - 1], scopes);
      match Den(o, es[|es| - 1], scopes)
      case Is(_) => Max(m, Above(SlotsBack(o, short, scopes)))
      case Errs(xs) => Max(m, Atop(xs, LaterBack(short, scopes)))
      case Dies => m
  }

  /** All have values exactly when each has one, and these are they. */
  lemma {:induction false} SidesAre(o: Ops, es: seq<Tree>, scopes: seq<Scope>)
    requires AllPure(es)
    ensures DenBack(o, es, scopes).Are? <==> forall i :: 0 <= i < |es| ==> Den(o, es[i], scopes).Is?
    ensures DenBack(o, es, scopes).Are? ==>
              forall i :: 0 <= i < |es| ==> Den(o, es[i], scopes) == Is(DenBack(o, es, scopes).vs[i])
    decreases |es|
  {
    if es != [] {
      var n := |es| - 1;
      SidesAre(o, es[..n], scopes);
      assert forall i :: 0 <= i < n ==> es[..n][i] == es[i];
    }
  }

  lemma {:induction false} AfterBackRuns(o: Ops, es: seq<Tree>, st: State)
    requires AllPure(es)
    ensures Spills(AfterBack(o, es, st), LaterBack(es, st.scopes), st)
    decreases |es|
  {
    if es == [] {
      SpillsNone(st);
    } else {
      var short, e := es[..|es| - 1], es[|es| - 1];
      AfterRuns(o, e, st);
      var r := After(o, e, st);
      if r.Failed? {
        AfterBackRuns(o, short, r.st);
        SpillsTwice(r, AfterBack(o, short, r.st), Later(e, st.scopes), LaterBack(short, st.scopes), st);
      } else {
        SpillsTwice(r, r, Later(e, st.scopes), LaterBack(short, st.scopes), st);
      }
    }
  }

  /** How the right sides end: on the stack with the first one on top, or as one of them ends. */
  ghost predicate Sided(r: Res, v: Verdicts, room: bool, st: State) {
    r == if !room then Asserted
         else match v
           case Are(vs) => Done(st.(stack := st.stack + Reversed(vs)), Normal)
           case ErrsWith(xs) => Failed(st.(stack := st.stack + xs))
           case Die => Aborted
  }

  lemma {:induction false} RightSides(o: Ops, fuel: nat, es: seq<Tree>, st: State)
    requires AllPure(es)
    ensures Sided(ExecBack(o, fuel, es, st), DenBack(o, es, st.scopes),
                  HasRoom(SlotsBack(o, es, st.scopes), |st.stack|), st)
    decreases |es|
  {
    if es == [] {
      assert st.stack + [] == st.stack;
    } else {
      var short, e := es[..|es| - 1], es[|es| - 1];
      StackEvaluation(o, fuel, e, st);
      var v := Den(o, e, st.scopes);
      if v.Is? {
        var st1 := st.(stack := st.stack + [v.v]);
        RightSides(o, fuel, short, st1);
        OneMoreSide(ExecBack(o, fuel, short, st1), DenBack(o, short, st.scopes),
                    HasRoom(SlotsBack(o, short, st.scopes), |st1.stack|), st, v.v);
      } else if v.Errs? {
        var st1, ys := st.(stack := st.stack + v.left), LaterBack(short, st.scopes);
        AfterBackRuns(o, short, st1);
        assert st1.stack + ys == st.stack + (v.left + ys);
        assert ys == [] ==> v.left + ys == v.left;
      }
    }
  }

  lemma OneMoreSide(r: Res, v: Verdicts, room: bool, st: State, x: Eval)
    requires Sided(r, v, room, st.(stack := st.stack + [x]))
    ensures Sided(r, OnTop(x, v), room, st)
  {
    match v
    case Are(vs) => FirstOnTop(st.stack, vs, x);
    case ErrsWith(ys) => assert (st.stack + [x]) + ys == st.stack + ([x] + ys);
    case Die =>
  }

  lemma FirstOnTop(stack: seq<Eval>, rest: seq<Eval>, x: Eval)
    ensures stack + [x] + Reversed(rest) == stack + Reversed(rest + [x])
  {
    ReversedSnoc(rest, x);
    var r := Reversed(rest);
    assert stack + [x] + r == stack + ([x] + r);
  }

  // ----- storing -----

  predicate Plain(ts: seq<Tree>) {
    forall i :: 0 <= i < |ts| ==> ts[i].Id?
  }

  predicate DistinctNames(ts: seq<Tree>)
    requires Plain(ts)
  {
    forall i, j :: 0 <= i < j < |ts| ==> ts[i].name != ts[j].name
  }

  /** Setting names one after the other. */
  function Bind(scope: Scope, names: seq<Tree>, vs: seq<Eval>): Scope
    requires Plain(names) && |names| == |vs|
    decreases |names|
  {
    if names == [] then scope else Bind(scope[names[0].name := vs[0]], names[1..], vs[1..])
  }

  lemma {:induction false} BindOther(scope: Scope, names: seq<Tree>, vs: seq<Eval>, x: string)
    requires Plain(names) && |names| == |vs| && forall i :: 0 <= i < |names| ==> names[i].name != x
    ensures (x in Bind(scope, names, vs) <==> x in scope) && (x in scope ==> Bind(scope, names, vs)[x] == scope[x])
    decreases |names|
  {
    if names != [] {
      BindOther(scope[names[0].name := vs[0]], names[1..], vs[1..], x);
    }
  }

  lemma {:induction false} BindAt(scope: Scope, names: seq<Tree>, vs: seq<Eval>, i: nat)
    requires Plain(names) && |names| == |vs| && DistinctNames(names) && i < |names|
    ensures names[i].name in Bind(scope, names, vs) && Bind(scope, names, vs)[names[i].name] == vs[i]
    decreases |names|
  {
    var scope', x := scope[names[0].name := vs[0]], names[0].name;
    if i == 0 {
      BindOther(scope', names[1..], vs[1..], x);
    } else {
      BindAt(scope', names[1..], vs[1..], i - 1);
    }
  }

  lemma TopValues(s: seq<Eval>, m: nat)
    requires m <= |s|
    ensures AllSome(TopDown(s, m)) && Values(TopDown(s, m)) == Reversed(s[|s| - m..])
  {
    var top := s[|s| - m..];
    forall i | 0 <= i < m ensures Values(TopDown(s, m))[i] == Reversed(top)[i] {
      ReversedAt(top, i);
    }
  }

  lemma {:induction false} SetsInOrder(o: Ops, fuel: nat, names: seq<Tree>, vs: seq<Eval>, st: State)
    requires Plain(names) && |names| == |vs| && st.scopes != []
    ensures SetAll(o, fuel, names, vs, st) == Done(st.(scopes := st.scopes[0 := Bind(st.scopes[0], names, vs)]), Normal)
    decreases |names|
  {
    if names == [] {
      assert st.scopes[0 := st.scopes[0]] == st.scopes;
    } else {
      var st1 := SetIn(st, 0, names[0].name, vs[0]);
      assert Set(o, fuel, names[0], vs[0], st) == Done(st1, Normal);
      SetsInOrder(o, fuel, names[1..], vs[1..], st1);
    }
  }

  function BindCurrent(st: State, names: seq<Tree>, vs: seq<Eval>): State
    requires Plain(names) && |names| == |vs| && st.scopes != []
  {
    st.(scopes := st.scopes[0 := Bind(st.scopes[0], names, vs)])
  }

  /** The values on top are bound, the top one to the first name, and stay on the stack in reverse. */
  function Stored(st: State, names: seq<Tree>): (r: State)
    requires Plain(names) && |names| <= |st.stack| && st.scopes != []
    ensures |r.stack| == |st.stack| && r.scopes != []
  {
    var k := |st.stack| - |names|;
    var vs := Reversed(st.stack[k..]);
    BindCurrent(st, names, vs).(stack := st.stack[..k] + vs)
  }

  /** Storing into one list: an assertion if no slot is free, an error if the stack is too short. */
  function StoreList(st: State, names: seq<Tree>): (r: Res)
    requires Plain(names) && st.scopes != []
    ensures r.Done? ==> r.st.scopes != []
  {
    if !Room(st.stack) then Asserted
    else if |names| > |st.stack| then Failed(st.(stack := []))
    else Done(Stored(st, names), Normal)
  }

  /** The storing of a list is that of the machine. */
  lemma StoreRuns(o: Ops, fuel: nat, names: seq<Tree>, st: State)
    requires Plain(names) && names != [] && st.scopes != []
    ensures StoreTop(o, fuel, Seq(names), st) == StoreList(st, names)
  {
    var m := |names|;
    PopNIs(st, m);
    if Room(st.stack) {
      if m > |st.stack| {
        assert TopDown(st.stack, m)[m - 1].None?;
      } else {
        StoreFits(o, fuel, names, st);
      }
    }
  }

  lemma StoreFits(o: Ops, fuel: nat, names: seq<Tree>, st: State)
    requires Plain(names) && 0 < |names| <= |st.stack| && st.scopes != [] && Room(st.stack)
    ensures StoreTop(o, fuel, Seq(names), st) == Done(Stored(st, names), Normal)
  {
    var m := |names|;
    var st1, vs := st.(stack := Below(st.stack, m)), Reversed(st.stack[|st.stack| - m..]);
    PopNIs(st, m);
    TopValues(st.stack, m);
    SetsInOrder(o, fuel, names, vs, st1);
    PushAllIs(BindCurrent(st1, names, vs), vs);
  }

  // ----- chains -----

  /** `targets[0] = targets[1] = ... = es`. */
  function Chain(targets: seq<seq<Tree>>, es: seq<Tree>): Tree
    requires targets != []
    decreases |targets|
  {
    Assign(Seq(targets[0]), if |targets| == 1 then Seq(es) else Chain(targets[1..], es))
  }

  /** Lists of plain names, of any lengths. */
  predicate Lists(targets: seq<seq<Tree>>) {
    forall i :: 0 <= i < |targets| ==> Plain(targets[i]) && targets[i] != []
  }

  /** Storing into the lists from the last to the first. */
  function StoreChain(st: State, targets: seq<seq<Tree>>): (r: Res)
    requires Lists(targets) && st.scopes != []
    ensures r.Done? ==> r.st.scopes != [] && |r.st.stack| == |st.stack|
    decreases |targets|
  {
    if targets == [] then Done(st, Normal)
    else match StoreChain(st, targets[1..])
      case Done(st1, _) => StoreList(st1, targets[0])
      case x => x
  }

  /** Storing succeeds exactly when a slot is free and there are values for every list. */
  lemma {:induction false} ChainFits(st: State, targets: seq<seq<Tree>>)
    requires Lists(targets) && targets != [] && st.scopes != []
    ensures StoreChain(st, targets).Done?
       <==> Room(st.stack) && forall i :: 0 <= i < |targets| ==> |targets[i]| <= |st.stack|
    ensures StoreChain(st, targets) == Asserted <==> !Room(st.stack)
    decreases |targets|
  {
    var later := targets[1..];
    if later == [] {
      assert StoreChain(st, later) == Done(st, Normal);
    } else {
      ChainFits(st, later);
      assert forall i :: 0 < i < |targets| ==> targets[i] == later[i - 1];
    }
  }

  /** Lists that are not longer than `n` leave what is below `n` values as it is. */
  lemma {:induction false} BelowKept(st: State, targets: seq<seq<Tree>>, n: nat)
    requires Lists(targets) && st.scopes != [] && n <= |st.stack| && StoreChain(st, targets).Done?
    requires forall i :: 0 <= i < |targets| ==> |targets[i]| <= n
    ensures StoreChain(st, targets).st.stack[..|st.stack| - n] == st.stack[..|st.stack| - n]
    decreases |targets|
  {
    if targets != [] {
      BelowKept(st, targets[1..], n);
    }
  }

  /** How a chain ends when as many values as the first list has names are removed at the end. */
  function Trimmed(r: Res, n: nat): Res {
    match r
    case Done(st, _) => RemoveN(st, n)
    case x => x
  }

  /** The whole chain: the right sides, and the storing if they have values. */
  function ChainEnds(o: Ops, targets: seq<seq<Tree>>, es: seq<Tree>, st: State): Res
    requires Lists(targets) && AllPure(es) && st.scopes != []
  {
    if !HasRoom(SlotsBack(o, es, st.scopes), |st.stack|) then Asserted
    else match DenBack(o, es, st.scopes)
      case Are(vs) => StoreChain(st.(stack := st.stack + Reversed(vs)), targets)
      case ErrsWith(xs) => Failed(st.(stack := st.stack + xs))
      case Die => Aborted
  }

  lemma {:induction false} ChainRest(o: Ops, fuel: nat, targets: seq<seq<Tree>>, es: seq<Tree>, st: State)
    requires targets != [] && Lists(targets) && AllPure(es) && st.scopes != []
    ensures AssignRest(o, fuel, Chain(targets, es), st) == ChainEnds(o, targets, es, st)
    decreases |targets|
  {
    var later := targets[1..];
    if |targets| == 1 {
      ExecIs(o, fuel, Seq(es), st);
      RightSides(o, fuel, es, st);
      NoLists(o, es, st);
    } else {
      ChainRest(o, fuel, later, es, st);
    }
    var r := ChainEnds(o, later, es, st);
    if r.Done? {
      StoreRuns(o, fuel, targets[0], r.st);
    }
    ChainOneMore(o, targets, es, st);
  }

  lemma NoLists(o: Ops, es: seq<Tree>, st: State)
    requires AllPure(es) && st.scopes != []
    ensures Sided(ChainEnds(o, [], es, st), DenBack(o, es, st.scopes),
                  HasRoom(SlotsBack(o, es, st.scopes), |st.stack|), st)
  {
  }

  lemma ChainOneMore(o: Ops, targets: seq<seq<Tree>>, es: seq<Tree>, st: State)
    requires targets != [] && Lists(targets) && AllPure(es) && st.scopes != []
    ensures var r := ChainEnds(o, targets[1..], es, st);
            && (r.Done? ==> r.st.scopes != [])
            && ChainEnds(o, targets, es, st) == if r.Done? then StoreList(r.st, targets[0]) else r
  {
  }

  /** An assignment of pure expressions to lists of plain names, chained or not and of any lengths, computes the
      right sides, stores into the lists from right to left, and drops as many values as the first list has
      names. */
  lemma ChainRuns(o: Ops, fuel: nat, targets: seq<seq<Tree>>, es: seq<Tree>, st: State)
    requires targets != [] && Lists(targets) && AllPure(es) && st.scopes != []
    ensures Exec(o, fuel, Chain(targets, es), st) == Trimmed(ChainEnds(o, targets, es, st), |targets[0]|)
  {
    ExecIs(o, fuel, Chain(targets, es), st);
    ChainRest(o, fuel, targets, es, st);
  }

  /** There are values, slots for computing them and one more for popping them, and enough for every list. */
  predicate Storable(o: Ops, targets: seq<seq<Tree>>, es: seq<Tree>, st: State)
    requires AllPure(es)
  {
    && DenBack(o, es, st.scopes).Are? && HasRoom(SlotsBack(o, es, st.scopes), |st.stack|)
    && |st.stack| + |es| + 1 < STACK_SZ
    && forall i :: 0 <= i < |targets| ==> |targets[i]| <= |st.stack| + |es|
  }

  lemma ChainSucceeds(o: Ops, fuel: nat, targets: seq<seq<Tree>>, es: seq<Tree>, st: State)
    requires targets != [] && Lists(targets) && AllPure(es) && st.scopes != []
    ensures ChainEnds(o, targets, es, st).Done? <==> Storable(o, targets, es, st)
    ensures Exec(o, fuel, Chain(targets, es), st).Done? <==> Storable(o, targets, es, st)
  {
    ChainRuns(o, fuel, targets, es, st);
    var v := DenBack(o, es, st.scopes);
    if v.Are? {
      var st1 := st.(stack := st.stack + Reversed(v.vs));
      ChainFits(st1, targets);
      if StoreChain(st1, targets).Done? {
        assert |targets[0]| <= |st1.stack|;
      }
    }
  }

  /** What a chain that succeeds leaves on the stack: its height moves by the difference of the first list and
      the right sides, and if no list is longer than these the stack below is as it was.  So it is unchanged
      exactly when the first list is as long as the right sides. */
  lemma ChainLeaves(o: Ops, fuel: nat, targets: seq<seq<Tree>>, es: seq<Tree>, st: State)
    requires targets != [] && Lists(targets) && AllPure(es) && st.scopes != []
    requires Exec(o, fuel, Chain(targets, es), st).Done?
    ensures var stack := Exec(o, fuel, Chain(targets, es), st).st.stack;
            && |stack| + |targets[0]| == |st.stack| + |es|
            && ((forall i :: 0 <= i < |targets| ==> |targets[i]| <= |es|) ==>
                  && stack[..|st.stack|] == st.stack
                  && (stack == st.stack <==> |targets[0]| == |es|))
  {
    ChainRuns(o, fuel, targets, es, st);
    ChainSucceeds(o, fuel, targets, es, st);
    var vs := DenBack(o, es, st.scopes).vs;
    var st1 := st.(stack := st.stack + Reversed(vs));
    if forall i :: 0 <= i < |targets| ==> |targets[i]| <= |es| {
      BelowKept(st1, targets, |es|);
      assert st1.stack[..|st.stack|] == st.stack;
    }
  }

  /** A single list takes its values from the front and leaves the others on the stack, the last one lowest. */
  lemma SingleLeaves(o: Ops, fuel: nat, names: seq<Tree>, es: seq<Tree>, st: State)
    requires Plain(names) && 0 < |names| <= |es| && AllPure(es) && st.scopes != [] && Storable(o, [names], es, st)
    ensures var vs := DenBack(o, es, st.scopes).vs;
            var left := st.stack + Reversed(vs[|names|..]);
            Exec(o, fuel, Assign(Seq(names), Seq(es)), st)
            == Done(BindCurrent(st, names, vs[..|names|]).(stack := left), Normal)
  {
    var vs, m := DenBack(o, es, st.scopes).vs, |names|;
    ChainRuns(o, fuel, [names], es, st);
    OneList(st.(stack := st.stack + Reversed(vs)), names);
    StoredFront(st, names, vs[..m], vs[m..]);
    assert vs[..m] + vs[m..] == vs;
    RemovesPushed(BindCurrent(st, names, vs[..m]).(stack := st.stack + Reversed(vs[m..])), vs[..m]);
  }

  lemma OneList(st: State, names: seq<Tree>)
    requires Plain(names) && names != [] && st.scopes != []
    ensures StoreChain(st, [names]) == StoreList(st, names)
  {
    assert [names][1..] == [] && StoreChain(st, []) == Done(st, Normal);
  }

  lemma StoredFront(st: State, names: seq<Tree>, front: seq<Eval>, rest: seq<Eval>)
    requires Plain(names) && |names| == |front| && st.scopes != []
    ensures Stored(st.(stack := st.stack + Reversed(front + rest)), names)
         == BindCurrent(st, names, front).(stack := st.stack + Reversed(rest) + front)
  {
    Regrouped(st.stack, front, rest);
    StoredTop(st, st.stack + Reversed(rest), names, front);
  }

  lemma Regrouped(stack: seq<Eval>, front: seq<Eval>, rest: seq<Eval>)
    ensures stack + Reversed(front + rest) == (stack + Reversed(rest)) + Reversed(front)
  {
    ReversedParts(front, rest);
    var f, r := Reversed(front), Reversed(rest);
    assert stack + (r + f) == (stack + r) + f;
  }

  /** The values on top are bound and turned. */
  lemma StoredTop(st: State, low: seq<Eval>, names: seq<Tree>, high: seq<Eval>)
    requires Plain(names) && |names| == |high| && st.scopes != []
    ensures Stored(st.(stack := low + Reversed(high)), names) == BindCurrent(st, names, high).(stack := low + high)
  {
    var s := low + Reversed(high);
    assert s[..|low|] == low && s[|low|..] == Reversed(high);
    ReversedTwice(high);
  }

  lemma {:induction false} ReversedParts(a: seq<Eval>, b: seq<Eval>)
    ensures Reversed(a + b) == Reversed(b) + Reversed(a)
    decreases |a|
  {
    if a == [] {
      assert a + b == b;
    } else {
      assert (a + b)[1..] == a[1..] + b;
      ReversedParts(a[1..], b);
    }
  }

  /** `a = 1, 2` leaves 1 in `a`, and the 2 on the stack. */
  lemma ShortExample(o: Ops, fuel: nat, st: State)
    requires st.scopes != [] && st.stack == []
    ensures var r := Exec(o, fuel, Assign(Seq([Id("a")]), Seq([Var(Number(1)), Var(Number(2))])), st);
            var scope := st.scopes[0]["a" := Scalar(Number(1))];
            r == Done(st.(scopes := st.scopes[0 := scope], stack := [Scalar(Number(2))]), Normal)
  {
    var es, vs, names := [Var(Number(1)), Var(Number(2))], [Scalar(Number(1)), Scalar(Number(2))], [Id("a")];
    ExampleValues(o, [names], st);
    SingleLeaves(o, fuel, names, es, st);
    assert vs[..1] == [vs[0]] && vs[1..] == [vs[1]] && vs[1..][1..] == [];
    assert names[1..] == [] && vs[..1][1..] == [];
  }

  // ----- lists as long as the right sides -----

  /** Plain names, as many in every list as there are values. */
  predicate Targets(targets: seq<seq<Tree>>, n: nat) {
    forall i :: 0 <= i < |targets| ==> Plain(targets[i]) && |targets[i]| == n
  }

  /** The values after `k` reversals. */
  function Turned(vs: seq<Eval>, k: nat): (r: seq<Eval>)
    ensures |r| == |vs|
  {
    if k == 0 then vs else Reversed(Turned(vs, k - 1))
  }

  /** Binding the lists from the last to the first, the values reversed each time. */
  function BindChain(st: State, targets: seq<seq<Tree>>, vs: seq<Eval>): (r: State)
    requires targets != [] && Targets(targets, |vs|) && st.scopes != []
    ensures r.scopes != [] && r.stack == st.stack
    decreases |targets|
  {
    if |targets| == 1 then BindCurrent(st, targets[0], vs)
    else BindCurrent(BindChain(st, targets[1..], vs), targets[0], Turned(vs, |targets| - 1))
  }

  lemma TargetsAreLists(targets: seq<seq<Tree>>, n: nat)
    requires Targets(targets, n) && n > 0
    ensures Lists(targets)
  {
  }

  lemma {:induction false} ChainBinds(st: State, targets: seq<seq<Tree>>, vs: seq<Eval>)
    requires targets != [] && Targets(targets, |vs|) && Lists(targets) && st.scopes != []
    requires |st.stack| + |vs| + 1 < STACK_SZ
    ensures StoreChain(st.(stack := st.stack + Reversed(vs)), targets)
         == Done(BindChain(st, targets, vs).(stack := st.stack + Turned(vs, |targets| - 1)), Normal)
    decreases |targets|
  {
    var k := |targets| - 1;
    var st1 := st.(stack := st.stack + Reversed(vs));
    if k == 0 {
      assert targets[1..] == [] && StoreChain(st1, []) == Done(st1, Normal);
      StoredTop(st, st.stack, targets[0], vs);
    } else {
      ChainBinds(st, targets[1..], vs);
      OneMoreBound(st, st1, targets, vs);
    }
  }

  lemma OneMoreBound(st: State, st1: State, targets: seq<seq<Tree>>, vs: seq<Eval>)
    requires |targets| > 1 && Targets(targets, |vs|) && Lists(targets) && st.scopes != [] && st1.scopes != []
    requires |st.stack| + |vs| + 1 < STACK_SZ
    requires StoreChain(st1, targets[1..])
          == Done(BindChain(st, targets[1..], vs).(stack := st.stack + Turned(vs, |targets| - 2)), Normal)
    ensures StoreChain(st1, targets)
         == Done(BindChain(st, targets, vs).(stack := st.stack + Turned(vs, |targets| - 1)), Normal)
  {
    var w := Turned(vs, |targets| - 2);
    assert Turned(vs, |targets| - 1) == Reversed(w);
    ReversedTwice(w);
    StoredTop(BindChain(st, targets[1..], vs), st.stack, targets[0], Reversed(w));
  }

  /** A chain of equal lists succeeds exactly when it can be stored, and then binds the lists of names from
      right to left, the values reversed each time; the stack is as before. */
  lemma EqualChain(o: Ops, fuel: nat, targets: seq<seq<Tree>>, es: seq<Tree>, st: State)
    requires targets != [] && Targets(targets, |es|) && |es| > 0 && AllPure(es) && st.scopes != []
    ensures var r := Exec(o, fuel, Chain(targets, es), st);
            && (r.Done? <==> Storable(o, targets, es, st))
            && (r.Done? ==> r == Done(BindChain(st, targets, DenBack(o, es, st.scopes).vs), Normal))
  {
    TargetsAreLists(targets, |es|);
    ChainRuns(o, fuel, targets, es, st);
    ChainSucceeds(o, fuel, targets, es, st);
    if Storable(o, targets, es, st) {
      var vs := DenBack(o, es, st.scopes).vs;
      ChainBinds(st, targets, vs);
      RemovesPushed(BindChain(st, targets, vs), Turned(vs, |targets| - 1));
    }
  }

  lemma RemovesPushed(st: State, vs: seq<Eval>)
    ensures RemoveN(st.(stack := st.stack + vs), |vs|) == Done(st, Normal)
  {
    assert (st.stack + vs)[..|st.stack|] == st.stack;
  }

  /** Parallel assignment is simultaneous: if it succeeds every name has the value its expression had in the
      original environment; other names, other scopes and the stack are as before. */
  lemma ParallelAssignment(o: Ops, fuel: nat, names: seq<Tree>, es: seq<Tree>, st: State)
    requires Plain(names) && DistinctNames(names) && |names| == |es| > 0 && AllPure(es) && st.scopes != []
    ensures Exec(o, fuel, Assign(Seq(names), Seq(es)), st).Done? <==> Storable(o, [names], es, st)
    ensures var r := Exec(o, fuel, Assign(Seq(names), Seq(es)), st);
            r.Done? ==>
              && r.out == Normal && |r.st.scopes| == |st.scopes|
              && r.st == st.(scopes := r.st.scopes) && r.st.scopes[1..] == st.scopes[1..]
              && (forall i :: 0 <= i < |names| ==>
                    names[i].name in r.st.scopes[0] && Is(r.st.scopes[0][names[i].name]) == Den(o, es[i], st.scopes))
              && (forall x: string :: (forall i :: 0 <= i < |names| ==> names[i].name != x) ==>
                    && (x in r.st.scopes[0] <==> x in st.scopes[0])
                    && (x in st.scopes[0] ==> r.st.scopes[0][x] == st.scopes[0][x]))
  {
    assert Chain([names], es) == Assign(Seq(names), Seq(es));
    EqualChain(o, fuel, [names], es, st);
    if Storable(o, [names], es, st) {
      BoundAll(st.scopes[0], names, DenBack(o, es, st.scopes).vs);
      SidesAre(o, es, st.scopes);
    }
  }

  /** What binding distinct names leaves. */
  lemma BoundAll(scope: Scope, names: seq<Tree>, vs: seq<Eval>)
    requires Plain(names) && DistinctNames(names) && |names| == |vs|
    ensures forall i :: 0 <= i < |names| ==>
              names[i].name in Bind(scope, names, vs) && Bind(scope, names, vs)[names[i].name] == vs[i]
    ensures forall x: string :: (forall i :: 0 <= i < |names| ==> names[i].name != x) ==>
              (x in Bind(scope, names, vs) <==> x in scope) && (x in scope ==> Bind(scope, names, vs)[x] == scope[x])
  {
    forall i | 0 <= i < |names|
      ensures names[i].name in Bind(scope, names, vs) && Bind(scope, names, vs)[names[i].name] == vs[i]
    {
      BindAt(scope, names, vs, i);
    }
    forall x: string | forall i :: 0 <= i < |names| ==> names[i].name != x
      ensures x in Bind(scope, names, vs) <==> x in scope
      ensures x in scope ==> Bind(scope, names, vs)[x] == scope[x]
    {
      BindOther(scope, names, vs, x);
    }
  }

  /** No name occurs twice in the whole chain. */
  predicate AllDistinct(targets: seq<seq<Tree>>)
    requires forall i :: 0 <= i < |targets| ==> Plain(targets[i])
  {
    && (forall i :: 0 <= i < |targets| ==> DistinctNames(targets[i]))
    && (forall i, j :: 0 <= i < j < |targets| ==> NoneShared(targets[i], targets[j]))
  }

  predicate NoneShared(a: seq<Tree>, b: seq<Tree>)
    requires Plain(a) && Plain(b)
  {
    forall k, l :: 0 <= k < |a| && 0 <= l < |b| ==> a[k].name != b[l].name
  }

  lemma {:induction false} BindChainAt(st: State, targets: seq<seq<Tree>>, vs: seq<Eval>, i: nat, j: nat)
    requires targets != [] && Targets(targets, |vs|) && st.scopes != [] && AllDistinct(targets) && i < |targets|
    requires j < |vs|
    ensures var scope := BindChain(st, targets, vs).scopes[0];
            targets[i][j].name in scope && scope[targets[i][j].name] == Turned(vs, |targets| - 1 - i)[j]
    decreases |targets|
  {
    if i == 0 {
      var before := if |targets| == 1 then st else BindChain(st, targets[1..], vs);
      BindAt(before.scopes[0], targets[0], Turned(vs, |targets| - 1), j);
    } else {
      var later := targets[1..];
      assert targets[i] == later[i - 1];
      BindChainAt(st, later, vs, i - 1, j);
      BindOther(BindChain(st, later, vs).scopes[0], targets[0], Turned(vs, |targets| - 1), targets[i][j].name);
    }
  }

  /** The names of a list have its values. */
  ghost predicate Row(scope: Scope, names: seq<Tree>, vs: seq<Eval>)
    requires Plain(names) && |names| == |vs|
  {
    forall j :: 0 <= j < |vs| ==> names[j].name in scope && scope[names[j].name] == vs[j]
  }

  /** Every list has the values. */
  ghost predicate AllSame(scope: Scope, targets: seq<seq<Tree>>, vs: seq<Eval>)
    requires Targets(targets, |vs|)
  {
    forall i :: 0 <= i < |targets| ==> Row(scope, targets[i], vs)
  }

  /** Every list has the values after a reversal for each list to the right of it. */
  ghost predicate AllTurned(scope: Scope, targets: seq<seq<Tree>>, vs: seq<Eval>)
    requires Targets(targets, |vs|)
  {
    forall i :: 0 <= i < |targets| ==> Row(scope, targets[i], Turned(vs, |targets| - 1 - i))
  }

  lemma BindChainTurns(st: State, targets: seq<seq<Tree>>, vs: seq<Eval>)
    requires targets != [] && Targets(targets, |vs|) && st.scopes != [] && AllDistinct(targets)
    ensures AllTurned(BindChain(st, targets, vs).scopes[0], targets, vs)
  {
    var scope := BindChain(st, targets, vs).scopes[0];
    forall i | 0 <= i < |targets|
      ensures Row(scope, targets[i], Turned(vs, |targets| - 1 - i))
    {
      forall j | 0 <= j < |vs|
        ensures targets[i][j].name in scope && scope[targets[i][j].name] == Turned(vs, |targets| - 1 - i)[j]
      {
        BindChainAt(st, targets, vs, i, j);
      }
    }
  }

  lemma {:induction false} PalindromeTurned(vs: seq<Eval>, k: nat)
    requires Reversed(vs) == vs
    ensures Turned(vs, k) == vs
  {
    if k > 0 {
      PalindromeTurned(vs, k - 1);
    }
  }

  lemma RowUnique(scope: Scope, names: seq<Tree>, vs: seq<Eval>, ws: seq<Eval>)
    requires Plain(names) && |names| == |vs| == |ws| && Row(scope, names, vs) && Row(scope, names, ws)
    ensures vs == ws
  {
    assert forall j :: 0 <= j < |vs| ==> scope[names[j].name] == vs[j] == ws[j];
  }

  lemma TurnedOnce(vs: seq<Eval>)
    ensures Turned(vs, 0) == vs && Turned(vs, 1) == Reversed(vs)
  {
    assert Turned(vs, 1) == Reversed(Turned(vs, 0));
  }

  lemma RowOf(scope: Scope, targets: seq<seq<Tree>>, vs: seq<Eval>, i: nat)
    requires Targets(targets, |vs|) && AllTurned(scope, targets, vs) && i < |targets|
    ensures Row(scope, targets[i], Turned(vs, |targets| - 1 - i))
  {
  }

  lemma AllSameOf(scope: Scope, targets: seq<seq<Tree>>, vs: seq<Eval>)
    requires Targets(targets, |vs|) && AllTurned(scope, targets, vs)
    requires forall k: nat :: Turned(vs, k) == vs
    ensures AllSame(scope, targets, vs)
  {
  }

  lemma PalindromeAllSame(scope: Scope, targets: seq<seq<Tree>>, vs: seq<Eval>)
    requires Targets(targets, |vs|) && AllTurned(scope, targets, vs) && Reversed(vs) == vs
    ensures AllSame(scope, targets, vs)
  {
    forall k: nat ensures Turned(vs, k) == vs {
      PalindromeTurned(vs, k);
    }
    AllSameOf(scope, targets, vs);
  }

  lemma AllSamePalindrome(scope: Scope, targets: seq<seq<Tree>>, vs: seq<Eval>)
    requires |targets| > 1 && Targets(targets, |vs|) && AllTurned(scope, targets, vs) && AllSame(scope, targets, vs)
    ensures Reversed(vs) == vs
  {
    var names, rs := targets[|targets| - 2], Reversed(vs);
    assert Row(scope, names, rs) by {
      RowOf(scope, targets, vs, |targets| - 2);
      TurnedOnce(vs);
    }
    RowUnique(scope, names, vs, rs);
  }

  lemma TurningAgrees(scope: Scope, targets: seq<seq<Tree>>, vs: seq<Eval>)
    requires targets != [] && Targets(targets, |vs|) && AllTurned(scope, targets, vs)
    ensures AllSame(scope, targets, vs) <==> |targets| == 1 || Reversed(vs) == vs
  {
    if |targets| == 1 {
      assert Turned(vs, 0) == vs && Row(scope, targets[0], Turned(vs, |targets| - 1 - 0));
    } else {
      if Reversed(vs) == vs { PalindromeAllSame(scope, targets, vs); }
      if AllSame(scope, targets, vs) { AllSamePalindrome(scope, targets, vs); }
    }
  }

  /** In a chain of any length the list `k` places from the right gets the values reversed `k` times. */
  lemma ChainReverses(o: Ops, fuel: nat, targets: seq<seq<Tree>>, es: seq<Tree>, st: State)
    requires targets != [] && Targets(targets, |es|) && |es| > 0 && AllPure(es) && st.scopes != []
    requires AllDistinct(targets)
    requires Exec(o, fuel, Chain(targets, es), st).Done?
    ensures var r := Exec(o, fuel, Chain(targets, es), st);
            && DenBack(o, es, st.scopes).Are? && r.st.scopes != [] && r.st.stack == st.stack
            && AllTurned(r.st.scopes[0], targets, DenBack(o, es, st.scopes).vs)
  {
    EqualChain(o, fuel, targets, es, st);
    BindChainTurns(st, targets, DenBack(o, es, st.scopes).vs);
  }

  /** So a chain that succeeds gives all its names the values they stand over exactly when it is no chain at
      all or the values read the same backwards. */
  lemma ChainAgrees(o: Ops, fuel: nat, targets: seq<seq<Tree>>, es: seq<Tree>, st: State)
    requires targets != [] && Targets(targets, |es|) && |es| > 0 && AllPure(es) && st.scopes != []
    requires AllDistinct(targets)
    requires Exec(o, fuel, Chain(targets, es), st).Done?
    ensures var r := Exec(o, fuel, Chain(targets, es), st);
            && DenBack(o, es, st.scopes).Are? && r.st.scopes != []
            && (AllSame(r.st.scopes[0], targets, DenBack(o, es, st.scopes).vs)
                <==> |targets| == 1 || Reversed(DenBack(o, es, st.scopes).vs) == DenBack(o, es, st.scopes).vs)
  {
    ChainReverses(o, fuel, targets, es, st);
    TurningAgrees(Exec(o, fuel, Chain(targets, es), st).st.scopes[0], targets, DenBack(o, es, st.scopes).vs);
  }

  lemma ExampleValues(o: Ops, targets: seq<seq<Tree>>, st: State)
    requires st.stack == [] && forall i :: 0 <= i < |targets| ==> |targets[i]| <= 2
    ensures DenBack(o, [Var(Number(1)), Var(Number(2))], st.scopes) == Are([Scalar(Number(1)), Scalar(Number(2))])
    ensures Storable(o, targets, [Var(Number(1)), Var(Number(2))], st)
  {
    var es := [Var(Number(1)), Var(Number(2))];
    assert es[..1] == [es[0]] && es[..1][..0] == [];
    assert DenBack(o, [], st.scopes) == Are([]) && SlotsBack(o, [], st.scopes) == 0;
    assert DenBack(o, es[..1], st.scopes) == Are([] + [Scalar(Number(1))]);
    assert SlotsBack(o, es[..1], st.scopes) == 1;
  }

  lemma ExampleScope(st: State, targets: seq<seq<Tree>>, vs: seq<Eval>)
    requires |targets| == |vs| == 2 && Targets(targets, 2) && AllDistinct(targets) && st.scopes != []
    ensures var scope := BindChain(st, targets, vs).scopes[0];
            && targets[0][0].name in scope && scope[targets[0][0].name] == vs[1]
            && targets[0][1].name in scope && scope[targets[0][1].name] == vs[0]
            && targets[1][0].name in scope && scope[targets[1][0].name] == vs[0]
            && targets[1][1].name in scope && scope[targets[1][1].name] == vs[1]
  {
    TurnedOnce(vs);
    ReversedAt(vs, 0);
    ReversedAt(vs, 1);
    BindChainAt(st, targets, vs, 0, 0);
    BindChainAt(st, targets, vs, 0, 1);
    BindChainAt(st, targets, vs, 1, 0);
    BindChainAt(st, targets, vs, 1, 1);
  }

  lemma ChainOfTwo(a: seq<Tree>, b: seq<Tree>, es: seq<Tree>)
    ensures Chain([a, b], es) == Assign(Seq(a), Assign(Seq(b), Seq(es)))
  {
    assert [a, b][1..] == [b];
  }

  /** `a, b = c, d = 1, 2` leaves 1 in `c` and 2 in `d`, but 2 in `a` and 1 in `b`. */
  lemma ChainExample(o: Ops, fuel: nat, st: State)
    requires st.scopes != [] && st.stack == []
    ensures var inner := Assign(Seq([Id("c"), Id("d")]), Seq([Var(Number(1)), Var(Number(2))]));
            var r := Exec(o, fuel, Assign(Seq([Id("a"), Id("b")]), inner), st);
            && r.Done? && r.st.scopes != [] && {"a", "b", "c", "d"} <= r.st.scopes[0].Keys
            && r.st.scopes[0]["a"] == r.st.scopes[0]["d"] == Scalar(Number(2))
            && r.st.scopes[0]["b"] == r.st.scopes[0]["c"] == Scalar(Number(1))
  {
    var targets, es := [[Id("a"), Id("b")], [Id("c"), Id("d")]], [Var(Number(1)), Var(Number(2))];
    ChainOfTwo(targets[0], targets[1], es);
    ExampleValues(o, targets, st);
    EqualChain(o, fuel, targets, es, st);
    var vs := [Scalar(Number(1)), Scalar(Number(2))];
    ExampleScope(st, targets, vs);
  }
}
