/** The printer covers the grammar: a tree that the parser builds from whatever tokens, without a stub or a missing
    operand in it, can be printed, and is read back. */
module Coverage {
  import opened Ast
  import opened Basics
  import opened Syntax
  import opened Expressions
  import opened Statements
  import opened Printer
  import opened StatementPrinter

  // ----- the statements that are built -----

  /** A statement, in which parts may be stubs or missing. */
  predicate ShapedStmt(t: Tree, cycle: bool, func: bool)
    decreases t
  {
    match t
    case Scope(stmts) => forall i :: 0 <= i < |stmts| ==> !stmts[i].Null? && ShapedStmt(stmts[i], cycle, func)
    case If(c, body, els) =>
      && Shaped(c) && ShapedStmt(body, cycle, func) && ShapedStmt(els, cycle, func) && (els.Null? || !Dangling(body))
    case For(init, c, step, body) => ShapedExpr(init) && Shaped(c) && ShapedExpr(step) && ShapedStmt(body, true, func)
    case While(c, body) => Shaped(c) && ShapedStmt(body, true, func)
    case Do(c, body) => Shaped(c) && ShapedStmt(body, true, func)
    case Break | Continue => cycle
    case Return => func
    case Del(e) => IsLvalue(e) && Shaped(e)
    case _ => ShapedExpr(t)
  }

  predicate ShapedBlock(stmts: seq<Tree>, ctx: Ctx) {
    forall i :: 0 <= i < |stmts| ==> !stmts[i].Null? && ShapedStmt(stmts[i], ctx.cycle > 0, ctx.func > 0)
  }

  /** A statement, and if it ends with an `if` without `else` no `else` follows. */
  predicate Built(r: Parsed, ctx: Ctx) {
    ShapedStmt(r.tree, ctx.cycle > 0, ctx.func > 0) && (Dangling(r.tree) ==> !Cur(SkipEol(r.rest)).TokElse?)
  }

  lemma {:induction false} StatementBuilt(s: seq<Token>, e: nat, ctx: Ctx)
    ensures Built(Statement(s, e, ctx), ctx)
    decreases |s|, 1
  {
    StatementIs(s, e, ctx);
    if Cur(s).TokLBrace? {
      ScopeBuilt(Next(s), e, ctx);
    } else if Cur(s).TokIf? {
      IfBuilt(Next(s), e, ctx);
    } else if Cur(s).TokFor? {
      ForBuilt(Next(s), e, ctx);
    } else if Cur(s).TokWhile? {
      WhileBuilt(Next(s), e, ctx);
    } else {
      JumpBuilt(s, e, ctx);
    }
  }

  lemma {:induction false} JumpBuilt(s: seq<Token>, e: nat, ctx: Ctx)
    ensures Built(Jump(s, e, ctx), ctx)
    decreases |s|, 0
  {
    JumpIs(s, e, ctx);
    LastCasesIs(s, e, ctx);
    if Cur(s).TokDo? {
      DoBuilt(Next(s), e, ctx);
    } else if Cur(s).TokDel? {
      DelBuilt(Next(s), e, ctx);
    } else if !Cur(s).TokBreak? && !Cur(s).TokContinue? && !Cur(s).TokReturn? {
      ExprShaped(s, e);
      ExprIsBuilt(Expr(s, e), ctx);
    }
  }

  lemma ExprIsBuilt(r: Parsed, ctx: Ctx)
    requires ShapedExpr(r.tree)
    ensures Built(r, ctx)
  {
  }

  lemma DelBuilt(s: seq<Token>, e: nat, ctx: Ctx)
    ensures Built(ProcessDel(s, e), ctx)
  {
    if Cur(s).TokId? {
      IdentifierShaped(s[0].name, Next(s), e);
    }
  }

  lemma {:induction false} BlockBuilt(done: seq<Tree>, s: seq<Token>, e: nat, ctx: Ctx)
    requires ShapedBlock(done, ctx)
    ensures ShapedBlock(Block(done, s, e, ctx).stmts, ctx)
    decreases |s|, 2
  {
    if s != [] && !Cur(s).TokRBrace? {
      var t := Statement(s, e, ctx);
      StatementBuilt(s, e, ctx);
      var more := if t.tree.Null? then done else done + [t.tree];
      if t.errors == 0 && StmtEnd(Cur(t.rest)) {
        BlockBuilt(more, Next(t.rest), t.errors, ctx);
      }
    }
  }

  lemma {:induction false} ScopeBuilt(s: seq<Token>, e: nat, ctx: Ctx)
    ensures Built(ProcessScope(s, e, ctx), ctx)
    decreases |s|, 3
  {
    BlockBuilt([], s, e, ctx);
  }

  lemma {:induction false} BodyBuilt(s: seq<Token>, e: nat, ctx: Ctx)
    ensures Built(Statements.Body(s, e, ctx), ctx)
    decreases |s|, 4
  {
    if Cur(s).TokLBrace? {
      ScopeBuilt(Next(s), e, ctx);
    } else {
      StatementBuilt(SkipEol(s), e, ctx);
    }
  }

  lemma {:induction false} IfBuilt(s: seq<Token>, e: nat, ctx: Ctx)
    ensures Built(ProcessIf(s, e, ctx), ctx)
    decreases |s|, 6
  {
    var c := Level(0, Next(s), e);
    if Cur(s).TokLPar? && Cur(c.rest).TokRPar? {
      var b := Statements.Body(Next(c.rest), c.errors, ctx);
      LevelShaped(0, Next(s), e);
      BodyBuilt(Next(c.rest), c.errors, ctx);
      ElseBuilt(c.tree, b, ctx);
    }
  }

  lemma {:induction false} ElseBuilt(cond: Tree, b: Parsed, ctx: Ctx)
    requires Shaped(cond) && Built(b, ctx)
    ensures Built(IfElse(cond, b.tree, b.rest, b.errors, ctx), ctx)
    decreases |b.rest|, 4
  {
    var s := b.rest;
    if Cur(SkipEol(s)).TokElse? {
      var s' := SkipEol(Next(SkipEol(s)));
      var els := Statement(s', b.errors, ctx);
      StatementBuilt(s', b.errors, ctx);
      ElseIs(cond, b.tree, s, b.errors, ctx, els);
      IfIsBuilt(cond, b.tree, els, ctx);
    } else {
      NoElseIs(cond, b.tree, s, b.errors, ctx);
    }
  }

  lemma IfIsBuilt(cond: Tree, body: Tree, els: Parsed, ctx: Ctx)
    requires Shaped(cond) && ShapedStmt(body, ctx.cycle > 0, ctx.func > 0) && !Dangling(body) && Built(els, ctx)
    ensures !els.tree.Null? ==> Built(Parsed(If(cond, body, els.tree), els.rest, els.errors), ctx)
    ensures Built(Parsed(Stub, els.rest, els.errors + 1), ctx)
  {
  }

  lemma {:induction false} ForBuilt(s: seq<Token>, e: nat, ctx: Ctx)
    ensures Built(ProcessFor(s, e, ctx), ctx)
    decreases |s|, 8
  {
    var e1 := Expr(Next(s), e);
    ExprShaped(Next(s), e);
    if Cur(s).TokLPar? && Cur(e1.rest).TokSemicolon? {
      var e2 := Level(0, Next(e1.rest), e1.errors);
      LevelShaped(0, Next(e1.rest), e1.errors);
      if Cur(e2.rest).TokSemicolon? {
        StepBuilt(e1.tree, e2.tree, Next(e2.rest), e2.errors, ctx);
      }
    }
  }

  lemma {:induction false} StepBuilt(init: Tree, cond: Tree, s: seq<Token>, e: nat, ctx: Ctx)
    requires ShapedExpr(init) && Shaped(cond)
    ensures Built(ForStep(init, cond, s, e, ctx), ctx)
    decreases |s|, 7
  {
    var step := if Cur(s).TokRPar? then Parsed(Null, s, e) else Expr(s, e);
    ForStepIs(init, cond, s, e, ctx, step);
    ExprShaped(s, e);
    if Cur(step.rest).TokRPar? {
      var b := Statements.Body(Next(step.rest), step.errors, Deeper(ctx));
      BodyBuilt(Next(step.rest), step.errors, Deeper(ctx));
      ForBodyIs(init, cond, step.tree, Next(step.rest), step.errors, ctx, b);
      ForIsBuilt(init, cond, step.tree, b, ctx);
    }
  }

  lemma ForIsBuilt(init: Tree, cond: Tree, step: Tree, b: Parsed, ctx: Ctx)
    requires ShapedExpr(init) && Shaped(cond) && ShapedExpr(step) && Built(b, Deeper(ctx))
    ensures Built(Parsed(For(init, cond, step, b.tree), b.rest, b.errors), ctx)
    ensures Built(Parsed(Stub, b.rest, b.errors), ctx)
  {
  }

  lemma {:induction false} WhileBuilt(s: seq<Token>, e: nat, ctx: Ctx)
    ensures Built(ProcessWhile(s, e, ctx), ctx)
    decreases |s|, 5
  {
    var c := Level(0, Next(s), e);
    if Cur(s).TokLPar? && Cur(c.rest).TokRPar? {
      LevelShaped(0, Next(s), e);
      BodyBuilt(Next(c.rest), c.errors, Deeper(ctx));
    }
  }

  lemma {:induction false} DoBuilt(s: seq<Token>, e: nat, ctx: Ctx)
    ensures Built(ProcessDo(s, e, ctx), ctx)
    decreases |s|, 5
  {
    var b := Statements.Body(s, e, Deeper(ctx));
    BodyBuilt(s, e, Deeper(ctx));
    if b.errors == 0 {
      DoCondBuilt(b.tree, SkipEol(b.rest), b.errors, ctx);
    }
  }

  lemma DoCondBuilt(body: Tree, s: seq<Token>, e: nat, ctx: Ctx)
    requires ShapedStmt(body, true, ctx.func > 0)
    ensures Built(DoCond(body, s, e), ctx)
  {
    var c := Level(0, Next(Next(s)), e);
    LevelShaped(0, Next(Next(s)), e);
    assert ShapedStmt(Do(c.tree, body), ctx.cycle > 0, ctx.func > 0) && ShapedStmt(Stub, ctx.cycle > 0, ctx.func > 0);
    assert DoCond(body, s, e).tree == Stub || DoCond(body, s, e).tree == Do(c.tree, body);
  }

  // ----- whole trees -----

  /** No stub in it, and nothing missing but what may be. */
  predicate Whole(t: Tree)
    decreases t
  {
    match t
    case Null | Stub => false
    case Unary(e, _) => Whole(e)
    case Binary(l, r, _) => Whole(l) && Whole(r)
    case Ternary(c, y, n) => Whole(c) && Whole(y) && Whole(n)
    case Call(_, args) => forall i :: 0 <= i < |args| ==> Whole(args[i])
    case Access(_, ind) => forall i :: 0 <= i < |ind| ==> Whole(ind[i])
    case Arr(items) => forall i :: 0 <= i < |items| ==> Whole(items[i])
    case Seq(items) => forall i :: 0 <= i < |items| ==> Whole(items[i])
    case Assign(l, r) => Whole(l) && Whole(r)
    case OpAssign(l, r, _) => Whole(l) && Whole(r)
    case If(c, body, els) => Whole(c) && (body.Null? || Whole(body)) && (els.Null? || Whole(els))
    case For(init, c, step, body) =>
      && (init.Null? || Whole(init)) && (c.Null? || Whole(c)) && (step.Null? || Whole(step))
      && (body.Null? || Whole(body))
    case While(c, body) => Whole(c) && (body.Null? || Whole(body))
    case Do(c, body) => Whole(c) && (body.Null? || Whole(body))
    case Del(e) => Whole(e)
    case Scope(stmts) => forall i :: 0 <= i < |stmts| ==> Whole(stmts[i])
    case Func(_, _, _, stmts) => forall i :: 0 <= i < |stmts| ==> Whole(stmts[i])
    case _ => true
  }

  lemma {:induction false} WholeExpression(t: Tree)
    requires Shaped(t) && Whole(t)
    ensures Printable(t)
    decreases t, 0
  {
    match t
    case Unary(e, _) => WholeExpression(e);
    case Binary(l, r, _) => WholeExpression(l); WholeExpression(r);
    case Ternary(c, y, n) =>
      WholeExpression(c);
      WholeExpr(y);
      WholeExpr(n);
    case Call(_, args) => forall i | 0 <= i < |args| ensures Printable(args[i]) { WholeExpression(args[i]); }
    case Access(_, ind) => forall i | 0 <= i < |ind| ensures Printable(ind[i]) { WholeExpression(ind[i]); }
    case _ =>
  }

  lemma {:induction false} WholeItem(t: Tree)
    requires ShapedItem(t) && Whole(t)
    ensures PrintableItem(t)
    decreases t, 1
  {
    if t.Arr? {
      forall i | 0 <= i < |t.items| ensures Printable(t.items[i]) { WholeExpression(t.items[i]); }
    } else {
      WholeExpression(t);
    }
  }

  lemma {:induction false} WholeList(t: Tree)
    requires ShapedList(t) && Whole(t)
    ensures PrintableList(t)
    decreases t, 2
  {
    forall i | 0 <= i < |t.items| ensures PrintableItem(t.items[i]) { WholeItem(t.items[i]); }
  }

  lemma {:induction false} WholeRight(t: Tree)
    requires ShapedRight(t) && Whole(t)
    ensures PrintableRight(t)
    decreases t, 3
  {
    if t.Assign? {
      WholeList(t.left);
      WholeRight(t.right);
    } else {
      WholeList(t);
    }
  }

  lemma {:induction false} WholeExpr(t: Tree)
    requires ShapedExpr(t) && Whole(t)
    ensures PrintableExpr(t)
    decreases t, 3
  {
    if t.Assign? {
      WholeList(t.left);
      WholeRight(t.right);
    } else if t.OpAssign? {
      WholeExpression(t.left);
      WholeExpression(t.right);
    } else {
      WholeExpression(t);
    }
  }

  lemma {:induction false} WholeLoop(t: Tree, cycle: bool, func: bool)
    requires (t.For? || t.While? || t.Do?) && ShapedStmt(t, cycle, func) && Whole(t)
    ensures PrintableStmt(t, cycle, func)
    decreases t, 0
  {
    if !t.body.Null? { WholeStmt(t.body, true, func); }
    if !t.cond.Null? { WholeExpression(t.cond); }
    if t.For? {
      if !t.init.Null? { WholeExpr(t.init); }
      if !t.step.Null? { WholeExpr(t.step); }
    }
  }

  lemma {:induction false} WholeStmt(t: Tree, cycle: bool, func: bool)
    requires ShapedStmt(t, cycle, func) && Whole(t)
    ensures PrintableStmt(t, cycle, func)
    decreases t, 1
  {
    match t
    case Scope(stmts) =>
      forall i | 0 <= i < |stmts| ensures PrintableStmt(stmts[i], cycle, func) { WholeStmt(stmts[i], cycle, func); }
    case If(c, body, els) =>
      WholeExpression(c);
      if !body.Null? { WholeStmt(body, cycle, func); }
      if !els.Null? { WholeStmt(els, cycle, func); }
    case For(_, _, _, _) | While(_, _) | Do(_, _) => WholeLoop(t, cycle, func);
    case Del(e) => WholeExpression(e);
    case Break | Continue | Return =>
    case _ => WholeExpr(t);
  }

  // ----- lines -----

  lemma NamesFit(done: seq<string>, s: seq<Token>, end: Token, limit: nat)
    requires |done| <= limit
    ensures var r := NameArr(done, s, end, limit); r.Names? ==> |r.names| <= limit
    decreases |s|
  {
    if Cur(s) != end && Cur(s).TokId? && |done| < limit && Cur(Next(s)).TokComma? {
      NamesFit(done + [s[0].name], Next(Next(s)), end, limit);
    }
  }

  /** A stub, or a definition that can be printed if it is whole. */
  predicate BuiltFunc(t: Tree) {
    t.Stub? || (t.Func? && ShapedBlock(t.stmts, Ctx(0, 1)) && |t.params| <= MAXFARGS && |t.rets| <= MAXRETARGS)
  }

  lemma FunctionBuilt(s: seq<Token>)
    ensures BuiltFunc(ProcessFunction(s, 0, Ctx(0, 0)).tree)
  {
    var ctx := Ctx(0, 0);
    var rets := NameArr([], Next(s), TokRBracket, MAXRETARGS);
    NamesFit([], Next(s), TokRBracket, MAXRETARGS);
    if Cur(s).TokLBracket? && rets.Names? && Cur(rets.rest).TokRBracket? && Cur(Next(rets.rest)).TokId? {
      var s1 := Next(Next(rets.rest));
      var params := NameArr([], Next(s1), TokRPar, MAXFARGS);
      NamesFit([], Next(s1), TokRPar, MAXFARGS);
      FunctionIs(s, 0, ctx, rets.names, rets.rest);
      if Cur(s1).TokLPar? && params.Names? && Cur(params.rest).TokRPar? {
        FunctionBodyBuilt(Next(rets.rest)[0].name, rets.names, params.names, Next(params.rest));
      }
    }
  }

  lemma FunctionBodyBuilt(name: string, rets: seq<string>, params: seq<string>, s: seq<Token>)
    requires |params| <= MAXFARGS && |rets| <= MAXRETARGS
    ensures BuiltFunc(FunctionBody(name, rets, params, s, 0, Ctx(0, 0)).tree)
  {
    if Cur(s).TokLBrace? {
      BlockBuilt([], Next(s), 0, Ctx(0, 1));
      FunctionBodyIs(name, rets, params, s, 0, Ctx(0, 0), Block([], Next(s), 0, Ctx(0, 1)));
    }
  }

  lemma WholeBlock(stmts: seq<Tree>)
    requires ShapedBlock(stmts, Ctx(0, 1)) && forall i :: 0 <= i < |stmts| ==> Whole(stmts[i])
    ensures PrintableBlock(stmts, false, true)
  {
    forall i | 0 <= i < |stmts| ensures PrintableStmt(stmts[i], false, true) {
      WholeStmt(stmts[i], false, true);
    }
  }

  lemma FunctionIsNoStatement(t: Tree)
    ensures t.Func? ==> !PrintableStmt(t, false, false)
  {
    assert t.Func? ==> PrintableStmt(t, false, false) == PrintableExpr(t) == Printable(t);
  }

  /** Every accepted tree that is whole can be printed, and what is printed is accepted as this tree. */
  lemma AcceptedPrints(s: seq<Token>)
    requires ProgramStart(s).0.Some? && Whole(ProgramStart(s).0.value)
    ensures var t := ProgramStart(s).0.value;
            PrintableLine(t) && ProgramStart(PrintLine(t) + ([TokEol] + [])) == (Some(t), [TokEol] + [])
  {
    var t := ProgramStart(s).0.value;
    if Cur(s).TokDef? {
      FunctionBuilt(Next(s));
      WholeBlock(t.stmts);
    } else {
      StatementBuilt(s, 0, Ctx(0, 0));
      WholeStmt(t, false, false);
      FunctionIsNoStatement(t);
    }
    FollowsEol(t, []);
    LineReads(t, [TokEol] + []);
  }
}
