/** From the parser to the evaluator: what an accepted program may rely on, and how it runs. */
module Programs {
  import opened Ast
  import opened Basics
  import opened Blocks
  import opened Syntax
  import opened Expressions
  import St = Statements
  import opened Placement
  import opened Evaluator
  import P = Parser
  import S = Semantics

  /** The tree keeps to the mode; the functions it defines need to only if they may be called. */
  ghost predicate Silent(t: Tree, mode: Mode)
    decreases t
  {
    mode.Any? ||
    match t
    case Unary(e, _) => Silent(e, mode)
    case Binary(l, r, _) => Silent(l, mode) && Silent(r, mode)
    case Ternary(c, y, n) => Silent(c, mode) && Silent(y, mode) && Silent(n, mode)
    case Call(name, args) => name in mode.names && AllSilent(args, mode)
    case Access(_, ind) => AllSilent(ind, mode)
    case Arr(items) => AllSilent(items, mode)
    case Seq(items) => AllSilent(items, mode)
    case Assign(l, r) => MaySet(l, mode) && Silent(l, mode) && Silent(r, mode)
    case OpAssign(l, r, _) => MaySet(l, mode) && Silent(l, mode) && Silent(r, mode)
    case If(c, body, els) => Silent(c, mode) && Silent(body, mode) && Silent(els, mode)
    case For(i, c, s, body) => Silent(i, mode) && Silent(c, mode) && Silent(s, mode) && Silent(body, mode)
    case While(c, body) => Silent(c, mode) && Silent(body, mode)
    case Do(c, body) => Silent(c, mode) && Silent(body, mode)
    case Del(_) => false
    case Scope(stmts) => AllSilent(stmts, mode)
    case Func(name, _, _, stmts) => name in mode.names ==> AllSilent(stmts, Within(mode))
    case _ => true
  }

  ghost predicate AllSilent(ts: seq<Tree>, mode: Mode)
    decreases ts
  {
    forall i :: 0 <= i < |ts| ==> Silent(ts[i], mode)
  }

  // ----- linking keeps both -----

  lemma {:induction false} LinkedPlaced(t: Tree, inCycle: bool, inFunc: bool, mode: Mode)
    requires WellPlaced(t, inCycle, inFunc) && Silent(t, mode)
    ensures WellPlaced(Linked(t), inCycle, inFunc) && Silent(Linked(t), mode)
    decreases t
  {
    match t
    case If(_, body, els) =>
      LinkedPlaced(body, inCycle, inFunc, mode);
      LinkedPlaced(els, inCycle, inFunc, mode);
    case For(_, _, _, body) => LinkedPlaced(body, true, inFunc, mode);
    case While(_, body) => LinkedPlaced(body, true, inFunc, mode);
    case Do(_, body) => LinkedPlaced(body, true, inFunc, mode);
    case Scope(stmts) => VisitedPlaced(stmts, inCycle, inFunc, mode);
    case _ =>
  }

  ghost predicate Run(ts: seq<Tree>, inCycle: bool, inFunc: bool, mode: Mode) {
    forall i :: 0 <= i < |ts| ==> WellPlaced(ts[i], inCycle, inFunc) && Silent(ts[i], mode)
  }

  lemma ScopeRuns(stmts: seq<Tree>, inCycle: bool, inFunc: bool, mode: Mode)
    ensures WellPlaced(Scope(stmts), inCycle, inFunc) && Silent(Scope(stmts), mode)
       <==> Run(stmts, inCycle, inFunc, mode)
  {
  }

  lemma {:induction false} VisitedPlaced(stmts: seq<Tree>, inCycle: bool, inFunc: bool, mode: Mode)
    requires Run(stmts, inCycle, inFunc, mode)
    ensures Run(Visited(stmts), inCycle, inFunc, mode)
    decreases stmts
  {
    if stmts != [] {
      var first := stmts[0];
      if !first.Scope? {
        LinkedPlaced(first, inCycle, inFunc, mode);
        VisitedPlaced(stmts[1..], inCycle, inFunc, mode);
      } else {
        var inside := if |stmts| > 1 then stmts[1..] else first.stmts;
        ScopeRuns(first.stmts, inCycle, inFunc, mode);
        VisitedPlaced(inside, inCycle, inFunc, mode);
        ScopeRuns(Visited(inside), inCycle, inFunc, mode);
      }
    }
  }

  // ----- and what is placed fits -----

  lemma {:induction false} ExpressionFits(t: Tree, inCycle: bool, inFunc: bool, mode: Mode)
    requires IsExpression(t) && Silent(t, mode)
    ensures Fits(t, inCycle, inFunc, mode)
    decreases t, 1
  {
    match t
    case Unary(e, _) => ExpressionFits(e, false, false, mode);
    case Binary(l, r, _) => ExpressionFits(l, false, false, mode); ExpressionFits(r, false, false, mode);
    case Ternary(c, y, n) =>
      ExpressionFits(c, false, false, mode);
      ExpressionFits(y, false, false, mode);
      ExpressionFits(n, false, false, mode);
    case Call(_, args) => ExpressionsFit(args, mode);
    case Access(_, ind) => ExpressionsFit(ind, mode);
    case Arr(items) => ExpressionsFit(items, mode);
    case Seq(items) => ExpressionsFit(items, mode);
    case Assign(l, r) => ExpressionFits(l, false, false, mode); ExpressionFits(r, false, false, mode);
    case OpAssign(l, r, _) => ExpressionFits(l, false, false, mode); ExpressionFits(r, false, false, mode);
    case _ =>
  }

  lemma {:induction false} ExpressionsFit(ts: seq<Tree>, mode: Mode)
    requires AllExpressions(ts) && AllSilent(ts, mode)
    ensures AllFit(ts, false, false, mode)
    decreases ts, 0
  {
    forall i | 0 <= i < |ts| ensures Fits(ts[i], false, false, mode) {
      ExpressionFits(ts[i], false, false, mode);
    }
  }

  /** A well placed statement is fit for the evaluator. */
  lemma {:induction false} PlacedFits(t: Tree, inCycle: bool, inFunc: bool, mode: Mode)
    requires WellPlaced(t, inCycle, inFunc) && Silent(t, mode)
    ensures Fits(t, inCycle, inFunc, mode)
    decreases t, 1
  {
    match t
    case Break | Continue | Return =>
    case If(c, body, els) =>
      ExpressionFits(c, false, false, mode);
      PlacedFits(body, inCycle, inFunc, mode);
      PlacedFits(els, inCycle, inFunc, mode);
    case For(_, _, _, _) | While(_, _) | Do(_, _) => LoopFits(t, inCycle, inFunc, mode);
    case Del(target) => ExpressionFits(target, false, false, mode);
    case Scope(stmts) => AllPlacedFit(stmts, inCycle, inFunc, mode);
    case _ => ExpressionFits(t, inCycle, inFunc, mode);
  }

  lemma {:induction false} LoopFits(t: Tree, inCycle: bool, inFunc: bool, mode: Mode)
    requires t.For? || t.While? || t.Do?
    requires WellPlaced(t, inCycle, inFunc) && Silent(t, mode)
    ensures Fits(t, inCycle, inFunc, mode)
    decreases t, 0
  {
    match t
    case For(init, c, step, body) =>
      ExpressionFits(init, false, false, mode);
      ExpressionFits(c, false, false, mode);
      ExpressionFits(step, false, false, mode);
      PlacedFits(body, true, inFunc, mode);
    case While(c, body) =>
      ExpressionFits(c, false, false, mode);
      PlacedFits(body, true, inFunc, mode);
    case Do(c, body) =>
      ExpressionFits(c, false, false, mode);
      PlacedFits(body, true, inFunc, mode);
  }

  lemma {:induction false} AllPlacedFit(ts: seq<Tree>, inCycle: bool, inFunc: bool, mode: Mode)
    requires Run(ts, inCycle, inFunc, mode)
    ensures AllFit(ts, inCycle, inFunc, mode)
    decreases ts, 0
  {
    forall i | 0 <= i < |ts| ensures Fits(ts[i], inCycle, inFunc, mode) {
      PlacedFits(ts[i], inCycle, inFunc, mode);
    }
  }

  /** What the parser accepts the evaluator can run, bare blocks and all: none of its signals can go astray. */
  lemma AcceptedFits(s: seq<Token>, mode: Mode)
    requires St.ProgramStart(s).0.Some? && Silent(St.ProgramStart(s).0.value, mode)
    ensures Fits(Linked(St.ProgramStart(s).0.value), false, false, mode)
  {
    var t := St.ProgramStart(s).0.value;
    AcceptedIsPlaced(s);
    if WellPlaced(t, false, false) {
      LinkedPlaced(t, false, false, mode);
      PlacedFits(Linked(t), false, false, mode);
    } else {
      BodyFits(t.stmts, Any);
      if MayCall(t.name, mode) {
        BodyFits(t.stmts, Within(mode));
      }
    }
  }

  lemma BodyFits(stmts: seq<Tree>, mode: Mode)
    requires Run(stmts, false, true, mode)
    ensures AllFit(Visited(stmts), false, true, mode)
  {
    VisitedPlaced(stmts, false, true, mode);
    AllPlacedFit(Visited(stmts), false, true, mode);
  }

  /** The tree of the next line, None if it has an error. */
  function Accepted(s: seq<Token>): Option<Tree> {
    St.ProgramStart(Next(s)).0
  }

  /** What a line leaves, given how its program ends: the values on the stack are shown, the last one first,
      or flushed after an error; either ends the process if a slot is not free. */
  ghost predicate LineEnds(r: S.Res, m: Interp, s: Status, ok: bool, shown: seq<S.Eval>)
    reads m
  {
    match S.Emptied(r)
    case Done(st, _) => s == Running && ok && m.St() == st && shown == Reversed(r.st.stack)
    case Failed(st) => s == Running && !ok && m.St() == st && shown == []
    case Asserted => s == Asserted
    case Aborted => s == Dead
    case Timeout => s == Spent
  }

  /** `traverse_prog` and, unless there was an error, `traverse_result`. */
  method RunTree(t: Tree, m: Interp, fuel: nat, ghost mode: Mode) returns (s: Status, ok: bool, shown: seq<S.Eval>)
    requires !t.Null? && m.scopes != [] && FuncsFit(m.funcs, mode) && Fits(t, false, false, mode)
    modifies m
    ensures s == Running ==> |m.scopes| == |old(m.scopes)| && FuncsFit(m.funcs, mode)
    ensures s == Running && !mode.Any? && m.scopes != [] ==> m.scopes[1..] == old(m.scopes)[1..]
    ensures s == Running && mode.Still? ==> m.scopes == old(m.scopes)
    ensures LineEnds(S.Exec(m.o, fuel, t, old(m.St()).(func := None)), m, s, ok, shown)
  {
    m.mode := mode;
    s, ok := m.TraverseProg(t, fuel);
    shown := [];
    if s == Running && ok {
      s, shown := m.TraverseResult();
    }
  }

  /** One round of the main loop: a line is parsed and, if accepted, run.  The interpreter stays fit for the
      next line, and ends where the meaning of the accepted tree, as its blocks are linked, ends.  A line that
      is quiet leaves the outer scopes as they were, one that is still leaves all of them, error or not. */
  method RunLine(p: P.Parser, m: Interp, fuel: nat, ghost mode: Mode) returns (s: Status, ok: bool, shown: seq<S.Eval>)
    requires p.Valid() && !Cur(Next(p.Rest())).TokImport?
    requires m.scopes != [] && FuncsFit(m.funcs, mode)
    requires Accepted(p.Rest()).Some? ==> Silent(Accepted(p.Rest()).value, mode)
    modifies p, p.toks, m
    ensures p.Valid() && (s == Running ==> |m.scopes| == |old(m.scopes)| && FuncsFit(m.funcs, mode))
    ensures s == Running && !mode.Any? && m.scopes != [] ==> m.scopes[1..] == old(m.scopes)[1..]
    ensures s == Running && mode.Still? ==> m.scopes == old(m.scopes)
    ensures match old(Accepted(p.Rest()))
            case None => s == Running && !ok && m.St() == old(m.St()) && shown == []
            case Some(Null) => s == Running && !ok && m.St() == old(m.St()) && shown == []
            case Some(t) => LineEnds(S.Exec(m.o, fuel, Linked(t), old(m.St()).(func := None)), m, s, ok, shown)
  {
    ghost var line := Next(p.Rest());
    var tree := p.ProgramStart();
    if tree.None? || tree.value.Null? {
      return Running, false, [];
    }
    AcceptedFits(line, mode);
    s, ok, shown := RunTree(Linked(tree.value), m, fuel, mode);
  }
}
