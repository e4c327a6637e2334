/** What the nesting checks of src/syntax.c achieve: in every tree the parser makes, `break` and
    `continue` stand in loops only, and `return` in functions only. */
module Placement {
  import opened Ast
  import opened Syntax
  import opened Expressions
  import opened Statements

  /** `break` and `continue` stand in loops only, `return` in functions only, and whatever is to be
      evaluated is an expression; no function is defined inside a statement. */
  ghost predicate WellPlaced(t: Tree, inCycle: bool, inFunc: bool) {
    match t
    case Break | Continue => inCycle
    case Return => inFunc
    case If(c, body, els) => IsExpression(c) && WellPlaced(body, inCycle, inFunc) && WellPlaced(els, inCycle, inFunc)
    case For(init, c, step, body) =>
      IsExpression(init) && IsExpression(c) && IsExpression(step) && WellPlaced(body, true, inFunc)
    case While(c, body) => IsExpression(c) && WellPlaced(body, true, inFunc)
    case Do(c, body) => IsExpression(c) && WellPlaced(body, true, inFunc)
    case Del(target) => IsExpression(target)
    case Scope(stmts) => forall i :: 0 <= i < |stmts| ==> WellPlaced(stmts[i], inCycle, inFunc)
    case _ => IsExpression(t)
  }

  ghost predicate Placed(t: Tree, ctx: Ctx) {
    WellPlaced(t, ctx.cycle > 0, ctx.func > 0)
  }

  ghost predicate AllPlaced(ts: seq<Tree>, ctx: Ctx) {
    forall i :: 0 <= i < |ts| ==> Placed(ts[i], ctx)
  }

  lemma {:induction false} StatementPlaced(s: seq<Token>, e: nat, ctx: Ctx)
    ensures Placed(Statement(s, e, ctx).tree, ctx)
    decreases |s|, 1
  {
    StatementIs(s, e, ctx);
    match Cur(s)
    case TokLBrace => ScopePlaced(Next(s), e, ctx);
    case TokIf => IfPlaced(Next(s), e, ctx);
    case TokFor => ForPlaced(Next(s), e, ctx);
    case TokWhile => WhilePlaced(Next(s), e, ctx);
    case _ => JumpPlaced(s, e, ctx);
  }

  lemma {:induction false} JumpPlaced(s: seq<Token>, e: nat, ctx: Ctx)
    ensures Placed(Jump(s, e, ctx).tree, ctx)
    decreases |s|, 0
  {
    JumpIs(s, e, ctx);
    LastCasesIs(s, e, ctx);
    if Cur(s).TokDo? {
      DoPlaced(Next(s), e, ctx);
    } else if Cur(s).TokDel? {
      if Cur(Next(s)).TokId? {
        IdentifierShape(Next(s)[0].name, Next(Next(s)), e);
      }
    } else {
      ExprShape(s, e);
    }
  }

  lemma {:induction false} BlockPlaced(done: seq<Tree>, s: seq<Token>, e: nat, ctx: Ctx)
    requires AllPlaced(done, ctx)
    ensures AllPlaced(Block(done, s, e, ctx).stmts, ctx)
    decreases |s|, 2
  {
    if s != [] && !Cur(s).TokRBrace? {
      var t := Statement(s, e, ctx);
      StatementPlaced(s, e, ctx);
      var more := if t.tree.Null? then done else done + [t.tree];
      if t.errors == 0 && StmtEnd(Cur(t.rest)) {
        BlockPlaced(more, Next(t.rest), t.errors, ctx);
      }
    }
  }

  lemma {:induction false} ScopePlaced(s: seq<Token>, e: nat, ctx: Ctx)
    ensures Placed(ProcessScope(s, e, ctx).tree, ctx)
    decreases |s|, 3
  {
    BlockPlaced([], s, e, ctx);
  }

  lemma {:induction false} BodyPlaced(s: seq<Token>, e: nat, ctx: Ctx)
    ensures Placed(Body(s, e, ctx).tree, ctx)
    decreases |s|, 4
  {
    if Cur(s).TokLBrace? {
      ScopePlaced(Next(s), e, ctx);
    } else {
      StatementPlaced(SkipEol(s), e, ctx);
    }
  }

  lemma {:induction false} IfPlaced(s: seq<Token>, e: nat, ctx: Ctx)
    ensures Placed(ProcessIf(s, e, ctx).tree, ctx)
    decreases |s|, 6
  {
    var c := Level(0, Next(s), e);
    if Cur(s).TokLPar? && Cur(c.rest).TokRPar? {
      var b := Body(Next(c.rest), c.errors, ctx);
      LevelShape(0, Next(s), e);
      BodyPlaced(Next(c.rest), c.errors, ctx);
      ElsePlaced(c.tree, b.tree, b.rest, b.errors, ctx);
    }
  }

  lemma IfOfPlaced(cond: Tree, body: Tree, els: Tree, ctx: Ctx)
    requires IsExpression(cond) && Placed(body, ctx) && Placed(els, ctx)
    ensures Placed(If(cond, body, els), ctx) && Placed(Stub, ctx)
  {
  }

  lemma {:induction false} ElsePlaced(cond: Tree, body: Tree, s: seq<Token>, e: nat, ctx: Ctx)
    requires IsExpression(cond) && Placed(body, ctx)
    ensures Placed(IfElse(cond, body, s, e, ctx).tree, ctx)
    decreases |s|, 4
  {
    if Cur(SkipEol(s)).TokElse? {
      var s' := SkipEol(Next(SkipEol(s)));
      var els := Statement(s', e, ctx);
      StatementPlaced(s', e, ctx);
      ElseIs(cond, body, s, e, ctx, els);
      IfOfPlaced(cond, body, els.tree, ctx);
    } else {
      NoElseIs(cond, body, s, e, ctx);
      IfOfPlaced(cond, body, Null, ctx);
    }
  }

  lemma {:induction false} ForPlaced(s: seq<Token>, e: nat, ctx: Ctx)
    ensures Placed(ProcessFor(s, e, ctx).tree, ctx)
    decreases |s|, 8
  {
    var e1 := Expr(Next(s), e);
    ExprShape(Next(s), e);
    if Cur(s).TokLPar? && Cur(e1.rest).TokSemicolon? {
      var e2 := Level(0, Next(e1.rest), e1.errors);
      LevelShape(0, Next(e1.rest), e1.errors);
      if Cur(e2.rest).TokSemicolon? {
        StepPlaced(e1.tree, e2.tree, Next(e2.rest), e2.errors, ctx);
      }
    }
  }

  lemma {:induction false} StepPlaced(init: Tree, cond: Tree, s: seq<Token>, e: nat, ctx: Ctx)
    requires IsExpression(init) && IsExpression(cond)
    ensures Placed(ForStep(init, cond, s, e, ctx).tree, ctx)
    decreases |s|, 7
  {
    var step := if Cur(s).TokRPar? then Parsed(Null, s, e) else Expr(s, e);
    ForStepIs(init, cond, s, e, ctx, step);
    ExprShape(s, e);
    if Cur(step.rest).TokRPar? {
      var b := Body(Next(step.rest), step.errors, Deeper(ctx));
      BodyPlaced(Next(step.rest), step.errors, Deeper(ctx));
      ForBodyIs(init, cond, step.tree, Next(step.rest), step.errors, ctx, b);
      ForOfPlaced(init, cond, step.tree, b.tree, ctx);
    }
  }

  lemma ForOfPlaced(init: Tree, cond: Tree, step: Tree, body: Tree, ctx: Ctx)
    requires IsExpression(init) && IsExpression(cond) && IsExpression(step) && Placed(body, Deeper(ctx))
    ensures Placed(For(init, cond, step, body), ctx) && Placed(Stub, ctx)
  {
  }

  lemma {:induction false} WhilePlaced(s: seq<Token>, e: nat, ctx: Ctx)
    ensures Placed(ProcessWhile(s, e, ctx).tree, ctx)
    decreases |s|, 5
  {
    var c := Level(0, Next(s), e);
    if Cur(s).TokLPar? && Cur(c.rest).TokRPar? {
      LevelShape(0, Next(s), e);
      BodyPlaced(Next(c.rest), c.errors, Deeper(ctx));
    }
  }

  lemma {:induction false} DoPlaced(s: seq<Token>, e: nat, ctx: Ctx)
    ensures Placed(ProcessDo(s, e, ctx).tree, ctx)
    decreases |s|, 5
  {
    var b := Body(s, e, Deeper(ctx));
    BodyPlaced(s, e, Deeper(ctx));
    if b.errors == 0 {
      DoPlacedRest(b.tree, SkipEol(b.rest), b.errors, ctx);
    }
  }

  lemma DoPlacedRest(body: Tree, s: seq<Token>, e: nat, ctx: Ctx)
    requires WellPlaced(body, true, ctx.func > 0)
    ensures Placed(DoCond(body, s, e).tree, ctx)
  {
    var c := Level(0, Next(Next(s)), e);
    LevelShape(0, Next(Next(s)), e);
    assert Placed(Do(c.tree, body), ctx) && Placed(Stub, ctx);
    assert DoCond(body, s, e).tree == Stub || DoCond(body, s, e).tree == Do(c.tree, body);
  }

  /** A function whose body is well placed, or an error. */
  ghost predicate FunctionOk(t: Tree, ctx: Ctx) {
    t.Stub? || (t.Func? && AllPlaced(t.stmts, Ctx(ctx.cycle, ctx.func + 1)))
  }

  lemma FunctionPlaced(s: seq<Token>, e: nat, ctx: Ctx)
    ensures FunctionOk(ProcessFunction(s, e, ctx).tree, ctx)
  {
    var rets := NameArr([], Next(s), TokRBracket, MAXRETARGS);
    if Cur(s).TokLBracket? && rets.Names? && Cur(rets.rest).TokRBracket? && Cur(Next(rets.rest)).TokId? {
      var s1 := Next(Next(rets.rest));
      var params := NameArr([], Next(s1), TokRPar, MAXFARGS);
      FunctionIs(s, e, ctx, rets.names, rets.rest);
      if Cur(s1).TokLPar? && params.Names? && Cur(params.rest).TokRPar? {
        FunctionBodyPlaced(Next(rets.rest)[0].name, rets.names, params.names, Next(params.rest), e, ctx);
      }
    }
  }

  lemma FunctionBodyPlaced(name: string, rets: seq<string>, params: seq<string>, s: seq<Token>, e: nat, ctx: Ctx)
    ensures FunctionOk(FunctionBody(name, rets, params, s, e, ctx).tree, ctx)
  {
    if Cur(s).TokLBrace? {
      var inside := Ctx(ctx.cycle, ctx.func + 1);
      BlockPlaced([], Next(s), e, inside);
      FunctionBodyIs(name, rets, params, s, e, ctx, Block([], Next(s), e, inside));
    }
  }

  /** A well placed statement outside any loop and function, or a function. */
  ghost predicate TopPlaced(t: Tree) {
    WellPlaced(t, false, false) || (t.Func? && forall i :: 0 <= i < |t.stmts| ==> WellPlaced(t.stmts[i], false, true))
  }

  /** Every accepted tree is well placed. */
  lemma AcceptedIsPlaced(s: seq<Token>)
    requires ProgramStart(s).0.Some?
    ensures TopPlaced(ProgramStart(s).0.value)
  {
    var ctx := Ctx(0, 0);
    if Cur(s).TokDef? {
      FunctionPlaced(Next(s), 0, ctx);
      var t := ProcessFunction(Next(s), 0, ctx).tree;
      if t.Func? {
        forall i | 0 <= i < |t.stmts| ensures WellPlaced(t.stmts[i], false, true) {
          assert Placed(t.stmts[i], Ctx(0, 1));
        }
      } else {
        assert WellPlaced(t, false, false);
      }
    } else {
      StatementPlaced(s, 0, ctx);
    }
  }
}
