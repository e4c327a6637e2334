/** Printing statements and definitions, one line each, and why the parser gives back the tree that was printed. */
module StatementPrinter {
  import opened Ast
  import opened Basics
  import opened Syntax
  import opened Statements
  import opened Printer

  // ----- what can be printed -----

  /** It ends with an `if` that an `else` behind it would belong to. */
  predicate Dangling(t: Tree) {
    match t
    case If(_, _, els) => els.Null? || Dangling(els)
    case For(_, _, _, body) => Dangling(body)
    case While(_, body) => Dangling(body)
    case _ => false
  }

  /** A statement where loops (`cycle`) or functions (`func`) are around it; an `else` belongs to the `if` that it
      is printed behind. */
  predicate PrintableStmt(t: Tree, cycle: bool, func: bool)
    decreases t, 0
  {
    match t
    case Scope(stmts) => forall i :: 0 <= i < |stmts| ==> PrintableStmt(stmts[i], cycle, func)
    case If(c, body, els) =>
      && Printable(c) && PrintableBody(body, cycle, func)
      && (els.Null? || (PrintableStmt(els, cycle, func) && !Dangling(body)))
    case For(init, c, step, body) =>
      && (init.Null? || PrintableExpr(init)) && (c.Null? || Printable(c)) && (step.Null? || PrintableExpr(step))
      && PrintableBody(body, true, func)
    case While(c, body) => Printable(c) && PrintableBody(body, true, func)
    case Do(c, body) => Printable(c) && PrintableBody(body, true, func)
    case Break | Continue => cycle
    case Return => func
    case Del(e) => IsLvalue(e) && Printable(e)
    case _ => PrintableExpr(t)
  }

  predicate PrintableBody(t: Tree, cycle: bool, func: bool)
    decreases t, 1
  {
    t.Null? || PrintableStmt(t, cycle, func)
  }

  predicate PrintableBlock(stmts: seq<Tree>, cycle: bool, func: bool) {
    forall i :: 0 <= i < |stmts| ==> PrintableStmt(stmts[i], cycle, func)
  }

  // ----- printing -----

  function PrintStmt(t: Tree, cycle: bool, func: bool): seq<Token>
    requires PrintableStmt(t, cycle, func)
    decreases t, 0
  {
    match t
    case Scope(stmts) => [TokLBrace] + PrintBlock(stmts, cycle, func) + [TokRBrace]
    case If(c, body, els) =>
      [TokIf] + ([TokLPar] + (Print(c, 1, false) + ([TokRPar]
      + (PrintBody(body, cycle, func) + PrintElse(els, cycle, func)))))
    case For(init, c, step, body) =>
      [TokFor] + ([TokLPar] + (PrintPart(init) + ([TokSemicolon] + (PrintTest(c) + ([TokSemicolon]
      + (PrintPart(step) + ([TokRPar] + PrintBody(body, true, func))))))))
    case While(c, body) => [TokWhile] + ([TokLPar] + (Print(c, 1, false) + ([TokRPar] + PrintBody(body, true, func))))
    case Do(c, body) =>
      [TokDo] + (PrintBody(body, true, func) + ([TokEol] + ([TokWhile] + ([TokLPar]
      + (Print(c, 1, false) + [TokRPar])))))
    case Break => [TokBreak]
    case Continue => [TokContinue]
    case Return => [TokReturn]
    case Del(e) => [TokDel] + Print(e, FACTOR, false)
    case _ => PrintExpr(t)
  }

  /** A missing body is an empty line. */
  function PrintBody(t: Tree, cycle: bool, func: bool): seq<Token>
    requires PrintableBody(t, cycle, func)
    decreases t, 1
  {
    if t.Null? then [TokEol] else PrintStmt(t, cycle, func)
  }

  function PrintElse(t: Tree, cycle: bool, func: bool): seq<Token>
    requires PrintableBody(t, cycle, func)
    decreases t, 1
  {
    if t.Null? then [] else [TokEol] + ([TokElse] + PrintStmt(t, cycle, func))
  }

  /** The first and the third expression of `for`. */
  function PrintPart(t: Tree): seq<Token>
    requires t.Null? || PrintableExpr(t)
  {
    if t.Null? then [] else PrintExpr(t)
  }

  function PrintTest(t: Tree): seq<Token>
    requires t.Null? || Printable(t)
  {
    if t.Null? then [] else Print(t, 1, false)
  }

  function PrintBlock(stmts: seq<Tree>, cycle: bool, func: bool): seq<Token>
    requires PrintableBlock(stmts, cycle, func)
    decreases stmts, 1
  {
    if stmts == [] then [] else PrintStmt(stmts[0], cycle, func) + [TokEol] + PrintBlock(stmts[1..], cycle, func)
  }

  // ----- what may follow -----

  /** The tokens do not continue the statement. */
  predicate Follows(t: Tree, more: seq<Token>) {
    match t
    case Scope(_) | Do(_, _) | Break | Continue | Return => true
    case Null => StmtEnd(Cur(more))
    case If(_, body, els) =>
      if els.Null? then Follows(body, more) && !Cur(SkipEol(more)).TokElse? else Follows(els, more)
    case For(_, _, _, body) => Follows(body, more)
    case While(_, body) => Follows(body, more)
    case Del(_) => !Touches(false, Cur(more))
    case _ => Stops(0, Cur(more)) && !Assigns(Cur(more))
  }

  /** An end of line does not, unless an `else` comes after it. */
  lemma {:induction false} FollowsEol(t: Tree, more: seq<Token>)
    requires Dangling(t) ==> !Cur(more).TokElse?
    ensures Follows(t, [TokEol] + more)
  {
    Step(TokEol, more);
    match t
    case If(_, body, els) =>
      if els.Null? {
        FollowsEol(body, more);
      } else {
        FollowsEol(els, more);
      }
    case For(_, _, _, body) => FollowsEol(body, more);
    case While(_, body) => FollowsEol(body, more);
    case _ =>
  }

  lemma Glue(a: seq<Token>, b: seq<Token>, more: seq<Token>)
    ensures (a + b) + more == a + (b + more)
  {
  }

  // ----- first tokens -----

  /** The token starts a statement that is not a block. */
  predicate Starts(t: Token) {
    || t.TokIf? || t.TokFor? || t.TokWhile? || t.TokDo? || t.TokBreak? || t.TokContinue? || t.TokReturn? || t.TokDel?
    || StartsFactor(t) || IsSign(t) || t.TokNot?
  }

  predicate Expressive(t: Token) {
    StartsFactor(t) || IsSign(t) || t.TokNot?
  }

  lemma ExprStarts(t: Tree)
    requires PrintableExpr(t)
    ensures Expressive(PrintExpr(t)[0])
  {
    if t.Assign? {
      var item := t.left.items[0];
      assert PrintableList(t.left) && IsLvalue(item) && PrintableItem(item);
      StartsWell(item, 1, false);
      assert PrintList(t.left)[0] == PrintItem(item)[0] && PrintExpr(t)[0] == PrintList(t.left)[0];
    } else if t.OpAssign? {
      StartsWell(t.left, 1, false);
    } else {
      StartsWell(t, 0, false);
    }
  }

  lemma StmtStarts(t: Tree, cycle: bool, func: bool, more: seq<Token>)
    requires PrintableStmt(t, cycle, func)
    ensures var s := PrintStmt(t, cycle, func);
            s != [] && Cur(s + more) == s[0] && if t.Scope? then s[0] == TokLBrace else Starts(s[0])
  {
    match t
    case Scope(_) =>
    case If(_, _, _) =>
    case For(_, _, _, _) =>
    case While(_, _) =>
    case Do(_, _) =>
    case Break =>
    case Continue =>
    case Return =>
    case Del(_) =>
    case _ => ExprStarts(t);
  }

  lemma {:induction false} NoExpression(k: nat, s: seq<Token>)
    requires StmtEnd(Cur(s)) && k <= TERM
    ensures Level(k, s, 0) == Parsed(Null, s, 0)
    decreases TERM - k
  {
    if k < TERM {
      NoExpression(k + 1, s);
    }
  }

  /** Where nothing is there is no statement. */
  lemma NoStatement(s: seq<Token>, ctx: Ctx)
    requires StmtEnd(Cur(s))
    ensures Expr(s, 0) == Parsed(Null, s, 0) && Statement(s, 0, ctx) == Parsed(Null, s, 0)
  {
    NoExpression(0, s);
    TrenaryIs(s, 0, Parsed(Null, s, 0));
    StatementIs(s, 0, ctx);
    JumpIs(s, 0, ctx);
    LastCasesIs(s, 0, ctx);
  }

  // ----- parsing, construct by construct -----

  lemma ExprStatement(s: seq<Token>, t: Tree, more: seq<Token>, ctx: Ctx)
    requires Expressive(Cur(s)) && Expr(s, 0) == Parsed(t, more, 0)
    ensures Statement(s, 0, ctx) == Parsed(t, more, 0)
  {
    StatementIs(s, 0, ctx);
    JumpIs(s, 0, ctx);
    LastCasesIs(s, 0, ctx);
  }

  lemma ScopeStep(inner: seq<Token>, stmts: seq<Tree>, more: seq<Token>, ctx: Ctx)
    requires Block([], inner, 0, ctx) == Stmts(stmts, [TokRBrace] + more, 0)
    ensures Statement([TokLBrace] + inner, 0, ctx) == Parsed(Scope(stmts), more, 0)
    ensures Statements.Body([TokLBrace] + inner, 0, ctx) == Parsed(Scope(stmts), more, 0)
  {
    Step(TokLBrace, inner);
    Step(TokRBrace, more);
    StatementIs([TokLBrace] + inner, 0, ctx);
  }

  lemma BodyStep(s: seq<Token>, t: Tree, more: seq<Token>, ctx: Ctx)
    requires Statement(s, 0, ctx) == Parsed(t, more, 0) && !Cur(s).TokEol?
    ensures Statements.Body(s, 0, ctx) == Parsed(t, more, 0)
  {
    StatementIs(s, 0, ctx);
  }

  lemma EmptyBody(more: seq<Token>, ctx: Ctx)
    requires StmtEnd(Cur(more))
    ensures Statements.Body([TokEol] + more, 0, ctx) == Parsed(Null, more, 0)
  {
    Step(TokEol, more);
    NoStatement(more, ctx);
  }

  lemma IfStep(cs: seq<Token>, c: Tree, bs: seq<Token>, body: Tree, rest: seq<Token>, ctx: Ctx)
    requires Level(0, cs, 0) == Parsed(c, [TokRPar] + bs, 0) && !c.Null?
    requires Statements.Body(bs, 0, ctx) == Parsed(body, rest, 0)
    ensures Statement([TokIf] + ([TokLPar] + cs), 0, ctx) == IfElse(c, body, rest, 0, ctx)
  {
    Step(TokIf, [TokLPar] + cs);
    Step(TokLPar, cs);
    Step(TokRPar, bs);
    StatementIs([TokIf] + ([TokLPar] + cs), 0, ctx);
  }

  lemma ElseStep(c: Tree, body: Tree, es: seq<Token>, els: Tree, more: seq<Token>, ctx: Ctx)
    requires Statement(es, 0, ctx) == Parsed(els, more, 0) && !els.Null? && !Cur(es).TokEol?
    ensures IfElse(c, body, [TokEol] + ([TokElse] + es), 0, ctx) == Parsed(If(c, body, els), more, 0)
  {
    Step(TokEol, [TokElse] + es);
    Step(TokElse, es);
    ElseIs(c, body, [TokEol] + ([TokElse] + es), 0, ctx, Parsed(els, more, 0));
  }

  lemma WhileStep(cs: seq<Token>, c: Tree, bs: seq<Token>, body: Tree, more: seq<Token>, ctx: Ctx)
    requires Level(0, cs, 0) == Parsed(c, [TokRPar] + bs, 0)
    requires Statements.Body(bs, 0, Deeper(ctx)) == Parsed(body, more, 0)
    ensures Statement([TokWhile] + ([TokLPar] + cs), 0, ctx) == Parsed(While(c, body), more, 0)
  {
    Step(TokWhile, [TokLPar] + cs);
    Step(TokLPar, cs);
    Step(TokRPar, bs);
    StatementIs([TokWhile] + ([TokLPar] + cs), 0, ctx);
  }

  lemma DoStep(bs: seq<Token>, body: Tree, cs: seq<Token>, c: Tree, more: seq<Token>, ctx: Ctx)
    requires Statements.Body(bs, 0, Deeper(ctx)) == Parsed(body, [TokEol] + ([TokWhile] + ([TokLPar] + cs)), 0)
    requires Level(0, cs, 0) == Parsed(c, [TokRPar] + more, 0)
    ensures Statement([TokDo] + bs, 0, ctx) == Parsed(Do(c, body), more, 0)
  {
    Step(TokDo, bs);
    Step(TokEol, [TokWhile] + ([TokLPar] + cs));
    Step(TokWhile, [TokLPar] + cs);
    Step(TokLPar, cs);
    Step(TokRPar, more);
    StatementIs([TokDo] + bs, 0, ctx);
    JumpIs([TokDo] + bs, 0, ctx);
    LastCasesIs([TokDo] + bs, 0, ctx);
  }

  lemma ForInitStep(xs: seq<Token>, init: Tree, cs: seq<Token>, ctx: Ctx)
    requires Expr(xs, 0) == Parsed(init, [TokSemicolon] + cs, 0)
    ensures Statement([TokFor] + ([TokLPar] + xs), 0, ctx) == ForCond(init, cs, 0, ctx)
  {
    Step(TokFor, [TokLPar] + xs);
    Step(TokLPar, xs);
    Step(TokSemicolon, cs);
    StatementIs([TokFor] + ([TokLPar] + xs), 0, ctx);
  }

  lemma ForCondStep(init: Tree, cs: seq<Token>, c: Tree, ss: seq<Token>, ctx: Ctx)
    requires Level(0, cs, 0) == Parsed(c, [TokSemicolon] + ss, 0)
    ensures ForCond(init, cs, 0, ctx) == Statements.ForStep(init, c, ss, 0, ctx)
  {
    Step(TokSemicolon, ss);
  }

  lemma ForLastStep(init: Tree, c: Tree, ss: seq<Token>, step: Tree, bs: seq<Token>, body: Tree, more: seq<Token>,
      ctx: Ctx)
    requires if step.Null? then ss == [TokRPar] + bs
             else !Cur(ss).TokRPar? && Expr(ss, 0) == Parsed(step, [TokRPar] + bs, 0)
    requires Statements.Body(bs, 0, Deeper(ctx)) == Parsed(body, more, 0)
    ensures Statements.ForStep(init, c, ss, 0, ctx) == Parsed(For(init, c, step, body), more, 0)
  {
    Step(TokRPar, bs);
    ForStepIs(init, c, ss, 0, ctx, Parsed(step, [TokRPar] + bs, 0));
    ForBodyIs(init, c, step, bs, 0, ctx, Parsed(body, more, 0));
  }

  lemma DelStep(name: string, es: seq<Token>, e: Tree, more: seq<Token>, ctx: Ctx)
    requires Factor([TokId(name)] + es, 0) == Parsed(e, more, 0) && IsLvalue(e)
    ensures Statement([TokDel] + ([TokId(name)] + es), 0, ctx) == Parsed(Del(e), more, 0)
  {
    var s := [TokDel] + ([TokId(name)] + es);
    Step(TokDel, [TokId(name)] + es);
    Step(TokId(name), es);
    StatementIs(s, 0, ctx);
    JumpIs(s, 0, ctx);
    LastCasesIs(s, 0, ctx);
  }

  lemma JumpStep(tok: Token, more: seq<Token>, ctx: Ctx)
    ensures tok == TokBreak && ctx.cycle > 0 ==> Statement([tok] + more, 0, ctx) == Parsed(Break, more, 0)
    ensures tok == TokContinue && ctx.cycle > 0 ==> Statement([tok] + more, 0, ctx) == Parsed(Continue, more, 0)
    ensures tok == TokReturn && ctx.func > 0 ==> Statement([tok] + more, 0, ctx) == Parsed(Return, more, 0)
  {
    Step(tok, more);
    StatementIs([tok] + more, 0, ctx);
    JumpIs([tok] + more, 0, ctx);
  }

  lemma BlockStep(done: seq<Tree>, s: seq<Token>, t: Tree, rest: seq<Token>, ctx: Ctx)
    requires Statement(s, 0, ctx) == Parsed(t, [TokEol] + rest, 0) && !t.Null? && s != [] && !Cur(s).TokRBrace?
    ensures Block(done, s, 0, ctx) == Block(done + [t], rest, 0, ctx)
  {
    Step(TokEol, rest);
  }

  // ----- parsing undoes printing -----

  lemma {:induction false} StmtReads(t: Tree, more: seq<Token>, ctx: Ctx)
    requires PrintableStmt(t, ctx.cycle > 0, ctx.func > 0) && Follows(t, more)
    ensures Statement(PrintStmt(t, ctx.cycle > 0, ctx.func > 0) + more, 0, ctx) == Parsed(t, more, 0)
    decreases t, 4
  {
    if Jumps(t) {
      JumpReads(t, more, ctx);
    } else if t.Scope? {
      ScopeReads(t, more, ctx);
    } else if t.If? {
      IfReads(t, more, ctx);
    } else if t.For? {
      ForReads(t, more, ctx);
    } else if t.While? {
      WhileReads(t, more, ctx);
    } else if t.Do? {
      DoReads(t, more, ctx);
    } else if t.Del? {
      DelReads(t, more, ctx);
    } else {
      ExprStmtReads(t, more, ctx);
    }
  }

  predicate Jumps(t: Tree) {
    t.Break? || t.Continue? || t.Return?
  }

  lemma JumpReads(t: Tree, more: seq<Token>, ctx: Ctx)
    requires Jumps(t) && PrintableStmt(t, ctx.cycle > 0, ctx.func > 0)
    ensures Statement(PrintStmt(t, ctx.cycle > 0, ctx.func > 0) + more, 0, ctx) == Parsed(t, more, 0)
  {
    JumpStep(PrintStmt(t, ctx.cycle > 0, ctx.func > 0)[0], more, ctx);
  }

  lemma ExprStmtReads(t: Tree, more: seq<Token>, ctx: Ctx)
    requires PrintableExpr(t) && Stops(0, Cur(more)) && !Assigns(Cur(more))
    ensures Statement(PrintExpr(t) + more, 0, ctx) == Parsed(t, more, 0)
  {
    ExprStarts(t);
    assert Cur(PrintExpr(t) + more) == PrintExpr(t)[0];
    ExprReads(t, more);
    ExprStatement(PrintExpr(t) + more, t, more, ctx);
  }

  lemma {:induction false} BodyReads(t: Tree, more: seq<Token>, ctx: Ctx)
    requires PrintableBody(t, ctx.cycle > 0, ctx.func > 0) && Follows(t, more)
    ensures Statements.Body(PrintBody(t, ctx.cycle > 0, ctx.func > 0) + more, 0, ctx) == Parsed(t, more, 0)
    decreases t, 5
  {
    if t.Null? {
      EmptyBody(more, ctx);
    } else {
      StmtStarts(t, ctx.cycle > 0, ctx.func > 0, more);
      StmtReads(t, more, ctx);
      BodyStep(PrintStmt(t, ctx.cycle > 0, ctx.func > 0) + more, t, more, ctx);
    }
  }

  lemma {:induction false} ScopeReads(t: Tree, more: seq<Token>, ctx: Ctx)
    requires t.Scope? && PrintableStmt(t, ctx.cycle > 0, ctx.func > 0)
    ensures Statement(PrintStmt(t, ctx.cycle > 0, ctx.func > 0) + more, 0, ctx) == Parsed(t, more, 0)
    decreases t, 3
  {
    var block := PrintBlock(t.stmts, ctx.cycle > 0, ctx.func > 0);
    var inner := block + ([TokRBrace] + more);
    Associate([TokLBrace], block, [TokRBrace], more);
    assert PrintStmt(t, ctx.cycle > 0, ctx.func > 0) + more == [TokLBrace] + inner;
    BlockReads([], t.stmts, more, ctx);
    assert [] + t.stmts == t.stmts;
    ScopeStep(inner, t.stmts, more, ctx);
  }

  lemma PrintBlockIs(stmts: seq<Tree>, cycle: bool, func: bool, more: seq<Token>)
    requires stmts != [] && PrintableBlock(stmts, cycle, func)
    ensures PrintBlock(stmts, cycle, func) + more
         == PrintStmt(stmts[0], cycle, func) + ([TokEol] + (PrintBlock(stmts[1..], cycle, func) + more))
  {
    Associate(PrintStmt(stmts[0], cycle, func), [TokEol], PrintBlock(stmts[1..], cycle, func), more);
  }

  /** After a statement of a block there is another one, or the end: no `else`. */
  lemma NoElse(stmts: seq<Tree>, cycle: bool, func: bool, more: seq<Token>)
    requires PrintableBlock(stmts, cycle, func)
    ensures !Cur(PrintBlock(stmts, cycle, func) + ([TokRBrace] + more)).TokElse?
  {
    if stmts == [] {
      assert PrintBlock(stmts, cycle, func) + ([TokRBrace] + more) == [TokRBrace] + more;
    } else {
      var tail := [TokEol] + (PrintBlock(stmts[1..], cycle, func) + ([TokRBrace] + more));
      PrintBlockIs(stmts, cycle, func, [TokRBrace] + more);
      StmtStarts(stmts[0], cycle, func, tail);
    }
  }

  lemma {:induction false} BlockReads(done: seq<Tree>, stmts: seq<Tree>, more: seq<Token>, ctx: Ctx)
    requires PrintableBlock(stmts, ctx.cycle > 0, ctx.func > 0)
    ensures Block(done, PrintBlock(stmts, ctx.cycle > 0, ctx.func > 0) + ([TokRBrace] + more), 0, ctx)
         == Stmts(done + stmts, [TokRBrace] + more, 0)
    decreases stmts, 0
  {
    var cycle, func := ctx.cycle > 0, ctx.func > 0;
    var close := [TokRBrace] + more;
    if stmts == [] {
      assert PrintBlock(stmts, cycle, func) + close == close && done + stmts == done;
      Step(TokRBrace, more);
    } else {
      var tail := PrintBlock(stmts[1..], cycle, func) + close;
      PrintBlockIs(stmts, cycle, func, close);
      NoElse(stmts[1..], cycle, func, more);
      OneOfBlock(done, stmts[0], tail, ctx);
      BlockReads(done + [stmts[0]], stmts[1..], more, ctx);
      assert (done + [stmts[0]]) + stmts[1..] == done + stmts;
    }
  }

  lemma {:induction false} OneOfBlock(done: seq<Tree>, t: Tree, tail: seq<Token>, ctx: Ctx)
    requires PrintableStmt(t, ctx.cycle > 0, ctx.func > 0) && !Cur(tail).TokElse?
    ensures Block(done, PrintStmt(t, ctx.cycle > 0, ctx.func > 0) + ([TokEol] + tail), 0, ctx)
         == Block(done + [t], tail, 0, ctx)
    decreases t, 5
  {
    var cycle, func := ctx.cycle > 0, ctx.func > 0;
    FollowsEol(t, tail);
    StmtStarts(t, cycle, func, [TokEol] + tail);
    StmtReads(t, [TokEol] + tail, ctx);
    BlockStep(done, PrintStmt(t, cycle, func) + ([TokEol] + tail), t, tail, ctx);
  }

  lemma {:induction false} IfReads(t: Tree, more: seq<Token>, ctx: Ctx)
    requires t.If? && PrintableStmt(t, ctx.cycle > 0, ctx.func > 0) && Follows(t, more)
    ensures Statement(PrintStmt(t, ctx.cycle > 0, ctx.func > 0) + more, 0, ctx) == Parsed(t, more, 0)
    decreases t, 3
  {
    var cycle, func := ctx.cycle > 0, ctx.func > 0;
    var rest := PrintElse(t.els, cycle, func) + more;
    var bs := PrintBody(t.body, cycle, func) + rest;
    var cs := Print(t.cond, 1, false) + ([TokRPar] + bs);
    PrintIfIs(t, cycle, func, more);
    Step(TokRPar, bs);
    FullReads(0, t.cond, [TokRPar] + bs);
    if t.els.Null? {
      assert rest == more;
      BodyReads(t.body, more, ctx);
      NoElseIs(t.cond, t.body, more, 0, ctx);
    } else {
      ElseReads(t, more, ctx);
    }
    IfStep(cs, t.cond, bs, t.body, rest, ctx);
  }

  lemma PrintElseIs(t: Tree, cycle: bool, func: bool, more: seq<Token>)
    requires PrintableStmt(t, cycle, func) && !t.Null?
    ensures PrintElse(t, cycle, func) + more == [TokEol] + ([TokElse] + (PrintStmt(t, cycle, func) + more))
  {
    Glue([TokEol], [TokElse] + PrintStmt(t, cycle, func), more);
    Glue([TokElse], PrintStmt(t, cycle, func), more);
  }

  lemma {:induction false} ElseReads(t: Tree, more: seq<Token>, ctx: Ctx)
    requires t.If? && PrintableStmt(t, ctx.cycle > 0, ctx.func > 0) && Follows(t, more) && !t.els.Null?
    ensures var rest := PrintElse(t.els, ctx.cycle > 0, ctx.func > 0) + more;
            && Statements.Body(PrintBody(t.body, ctx.cycle > 0, ctx.func > 0) + rest, 0, ctx) == Parsed(t.body, rest, 0)
            && IfElse(t.cond, t.body, rest, 0, ctx) == Parsed(t, more, 0)
    decreases t, 2
  {
    var cycle, func := ctx.cycle > 0, ctx.func > 0;
    var es := PrintStmt(t.els, cycle, func) + more;
    PrintElseIs(t.els, cycle, func, more);
    Step(TokElse, es);
    FollowsEol(t.body, [TokElse] + es);
    BodyReads(t.body, [TokEol] + ([TokElse] + es), ctx);
    LastBranchReads(t, more, ctx);
  }

  lemma {:induction false} LastBranchReads(t: Tree, more: seq<Token>, ctx: Ctx)
    requires t.If? && PrintableStmt(t, ctx.cycle > 0, ctx.func > 0) && Follows(t, more) && !t.els.Null?
    ensures var es := PrintStmt(t.els, ctx.cycle > 0, ctx.func > 0) + more;
            IfElse(t.cond, t.body, [TokEol] + ([TokElse] + es), 0, ctx) == Parsed(t, more, 0)
    decreases t, 1
  {
    StmtStarts(t.els, ctx.cycle > 0, ctx.func > 0, more);
    StmtReads(t.els, more, ctx);
    ElseStep(t.cond, t.body, PrintStmt(t.els, ctx.cycle > 0, ctx.func > 0) + more, t.els, more, ctx);
  }

  lemma PrintIfIs(t: Tree, cycle: bool, func: bool, more: seq<Token>)
    requires t.If? && PrintableStmt(t, cycle, func)
    ensures PrintStmt(t, cycle, func) + more
         == [TokIf] + ([TokLPar] + (Print(t.cond, 1, false) + ([TokRPar]
            + (PrintBody(t.body, cycle, func) + (PrintElse(t.els, cycle, func) + more)))))
  {
    var c, b, e := Print(t.cond, 1, false), PrintBody(t.body, cycle, func), PrintElse(t.els, cycle, func);
    var s4 := b + e;
    var s3 := [TokRPar] + s4;
    var s2 := c + s3;
    var s1 := [TokLPar] + s2;
    Glue([TokIf], s1, more);
    Glue([TokLPar], s2, more);
    Glue(c, s3, more);
    Glue([TokRPar], s4, more);
    Glue(b, e, more);
  }

  lemma {:induction false} WhileReads(t: Tree, more: seq<Token>, ctx: Ctx)
    requires t.While? && PrintableStmt(t, ctx.cycle > 0, ctx.func > 0) && Follows(t, more)
    ensures Statement(PrintStmt(t, ctx.cycle > 0, ctx.func > 0) + more, 0, ctx) == Parsed(t, more, 0)
    decreases t, 3
  {
    var bs := PrintBody(t.body, true, ctx.func > 0) + more;
    var cs := Print(t.cond, 1, false) + ([TokRPar] + bs);
    PrintWhileIs(t, ctx.cycle > 0, ctx.func > 0, more);
    Step(TokRPar, bs);
    FullReads(0, t.cond, [TokRPar] + bs);
    BodyReads(t.body, more, Deeper(ctx));
    WhileStep(cs, t.cond, bs, t.body, more, ctx);
  }

  lemma PrintWhileIs(t: Tree, cycle: bool, func: bool, more: seq<Token>)
    requires t.While? && PrintableStmt(t, cycle, func)
    ensures PrintStmt(t, cycle, func) + more
         == [TokWhile] + ([TokLPar] + (Print(t.cond, 1, false) + ([TokRPar] + (PrintBody(t.body, true, func) + more))))
  {
    var c, b := Print(t.cond, 1, false), PrintBody(t.body, true, func);
    var s3 := [TokRPar] + b;
    var s2 := c + s3;
    var s1 := [TokLPar] + s2;
    Glue([TokWhile], s1, more);
    Glue([TokLPar], s2, more);
    Glue(c, s3, more);
    Glue([TokRPar], b, more);
  }

  lemma {:induction false} DoBodyReads(t: Tree, tail: seq<Token>, ctx: Ctx)
    requires t.Do? && PrintableBody(t.body, true, ctx.func > 0) && !Cur(tail).TokElse?
    ensures var s := PrintBody(t.body, true, ctx.func > 0) + ([TokEol] + tail);
            Statements.Body(s, 0, Deeper(ctx)) == Parsed(t.body, [TokEol] + tail, 0)
    decreases t, 2
  {
    FollowsEol(t.body, tail);
    BodyReads(t.body, [TokEol] + tail, Deeper(ctx));
  }

  lemma {:induction false} DoReads(t: Tree, more: seq<Token>, ctx: Ctx)
    requires t.Do? && PrintableStmt(t, ctx.cycle > 0, ctx.func > 0)
    ensures Statement(PrintStmt(t, ctx.cycle > 0, ctx.func > 0) + more, 0, ctx) == Parsed(t, more, 0)
    decreases t, 3
  {
    var cs := Print(t.cond, 1, false) + ([TokRPar] + more);
    var tail := [TokWhile] + ([TokLPar] + cs);
    PrintDoIs(t, ctx.cycle > 0, ctx.func > 0, more);
    Step(TokRPar, more);
    FullReads(0, t.cond, [TokRPar] + more);
    Step(TokWhile, [TokLPar] + cs);
    DoBodyReads(t, tail, ctx);
    DoStep(PrintBody(t.body, true, ctx.func > 0) + ([TokEol] + tail), t.body, cs, t.cond, more, ctx);
  }

  lemma PrintDoIs(t: Tree, cycle: bool, func: bool, more: seq<Token>)
    requires t.Do? && PrintableStmt(t, cycle, func)
    ensures PrintStmt(t, cycle, func) + more
         == [TokDo] + (PrintBody(t.body, true, func) + ([TokEol] + ([TokWhile] + ([TokLPar]
            + (Print(t.cond, 1, false) + ([TokRPar] + more))))))
  {
    var c, b := Print(t.cond, 1, false), PrintBody(t.body, true, func);
    var s5 := c + [TokRPar];
    var s4 := [TokLPar] + s5;
    var s3 := [TokWhile] + s4;
    var s2 := [TokEol] + s3;
    var s1 := b + s2;
    Glue([TokDo], s1, more);
    Glue(b, s2, more);
    Glue([TokEol], s3, more);
    Glue([TokWhile], s4, more);
    Glue([TokLPar], s5, more);
    Glue(c, [TokRPar], more);
  }

  lemma {:induction false} ForReads(t: Tree, more: seq<Token>, ctx: Ctx)
    requires t.For? && PrintableStmt(t, ctx.cycle > 0, ctx.func > 0) && Follows(t, more)
    ensures Statement(PrintStmt(t, ctx.cycle > 0, ctx.func > 0) + more, 0, ctx) == Parsed(t, more, 0)
    decreases t, 3
  {
    var bs := PrintBody(t.body, true, ctx.func > 0) + more;
    var ss := PrintPart(t.step) + ([TokRPar] + bs);
    var cs := PrintTest(t.cond) + ([TokSemicolon] + ss);
    var xs := PrintPart(t.init) + ([TokSemicolon] + cs);
    PrintForIs(t, ctx.cycle > 0, ctx.func > 0, more);
    Step(TokSemicolon, cs);
    Step(TokSemicolon, ss);
    Step(TokRPar, bs);
    PartReads(t.init, [TokSemicolon] + cs);
    TestReads(t.cond, [TokSemicolon] + ss);
    BodyReads(t.body, more, Deeper(ctx));
    ForInitStep(xs, t.init, cs, ctx);
    ForCondStep(t.init, cs, t.cond, ss, ctx);
    if !t.step.Null? {
      PartReads(t.step, [TokRPar] + bs);
    } else {
      assert ss == [TokRPar] + bs;
    }
    ForLastStep(t.init, t.cond, ss, t.step, bs, t.body, more, ctx);
  }

  lemma PrintForIs(t: Tree, cycle: bool, func: bool, more: seq<Token>)
    requires t.For? && PrintableStmt(t, cycle, func)
    ensures PrintStmt(t, cycle, func) + more
         == [TokFor] + ([TokLPar] + (PrintPart(t.init) + ([TokSemicolon] + (PrintTest(t.cond) + ([TokSemicolon]
            + (PrintPart(t.step) + ([TokRPar] + (PrintBody(t.body, true, func) + more))))))))
  {
    var i, c, e, b := PrintPart(t.init), PrintTest(t.cond), PrintPart(t.step), PrintBody(t.body, true, func);
    var s7 := [TokRPar] + b;
    var s6 := e + s7;
    var s5 := [TokSemicolon] + s6;
    var s4 := c + s5;
    var s3 := [TokSemicolon] + s4;
    var s2 := i + s3;
    var s1 := [TokLPar] + s2;
    Glue([TokFor], s1, more);
    Glue([TokLPar], s2, more);
    Glue(i, s3, more);
    Glue([TokSemicolon], s4, more);
    Glue(c, s5, more);
    Glue([TokSemicolon], s6, more);
    Glue(e, s7, more);
    Glue([TokRPar], b, more);
  }

  lemma PartReads(t: Tree, more: seq<Token>)
    requires (t.Null? || PrintableExpr(t)) && (Cur(more).TokSemicolon? || (Cur(more).TokRPar? && !t.Null?))
    ensures Expr(PrintPart(t) + more, 0) == Parsed(t, more, 0)
    ensures !t.Null? ==> !Cur(PrintPart(t) + more).TokRPar?
  {
    if t.Null? {
      assert PrintPart(t) + more == more;
      NoStatement(more, Ctx(0, 0));
    } else {
      ExprStarts(t);
      assert Cur(PrintExpr(t) + more) == PrintExpr(t)[0];
      ExprReads(t, more);
    }
  }

  lemma TestReads(t: Tree, more: seq<Token>)
    requires (t.Null? || Printable(t)) && Cur(more).TokSemicolon?
    ensures Level(0, PrintTest(t) + more, 0) == Parsed(t, more, 0)
  {
    if t.Null? {
      assert PrintTest(t) + more == more;
      NoExpression(0, more);
    } else {
      FullReads(0, t, more);
    }
  }

  lemma DelReads(t: Tree, more: seq<Token>, ctx: Ctx)
    requires t.Del? && PrintableStmt(t, ctx.cycle > 0, ctx.func > 0) && Follows(t, more)
    ensures Statement(PrintStmt(t, ctx.cycle > 0, ctx.func > 0) + more, 0, ctx) == Parsed(t, more, 0)
  {
    var e := t.target;
    var s := Print(e, FACTOR, false) + more;
    assert PrintStmt(t, ctx.cycle > 0, ctx.func > 0) + more == [TokDel] + s;
    FactorReads(e, false, more);
    assert s[0] == TokId(e.name);
    assert s == [TokId(e.name)] + s[1..];
    DelStep(e.name, s[1..], e, more, ctx);
  }

  // ----- definitions -----

  function PrintNames(names: seq<string>): seq<Token> {
    if names == [] then []
    else if |names| == 1 then [TokId(names[0])]
    else [TokId(names[0])] + ([TokComma] + PrintNames(names[1..]))
  }

  predicate PrintableFunc(t: Tree, cycle: bool) {
    && t.Func? && PrintableBlock(t.stmts, cycle, true)
    && |t.params| <= MAXFARGS && |t.rets| <= MAXRETARGS
  }

  function PrintFunc(t: Tree, cycle: bool): seq<Token>
    requires t.Func? && PrintableBlock(t.stmts, cycle, true)
  {
    [TokDef] + ([TokLBracket] + (PrintNames(t.rets) + ([TokRBracket] + ([TokId(t.name)]
    + ([TokLPar] + (PrintNames(t.params) + ([TokRPar] + ([TokLBrace]
    + (PrintBlock(t.stmts, cycle, true) + [TokRBrace])))))))))
  }

  lemma NameStep(done: seq<string>, name: string, end: Token, more: seq<Token>, limit: nat)
    requires end == TokRBracket || end == TokRPar
    ensures var r := NameArr(done, [TokId(name)] + ([end] + more), end, limit);
            if |done| < limit then r == Names(done + [name], [end] + more) else r.BadNames?
    ensures var r := NameArr(done, [TokId(name)] + ([TokComma] + more), end, limit);
            if |done| < limit then r == NameArr(done + [name], more, end, limit) else r.BadNames?
  {
    Step(TokId(name), [end] + more);
    Step(end, more);
    Step(TokId(name), [TokComma] + more);
    Step(TokComma, more);
  }

  lemma PrintNamesAre(names: seq<string>, close: seq<Token>)
    requires names != []
    ensures PrintNames(names) + close
         == [TokId(names[0])] + if |names| == 1 then close else [TokComma] + (PrintNames(names[1..]) + close)
  {
    if |names| > 1 {
      Glue([TokId(names[0])], [TokComma] + PrintNames(names[1..]), close);
      Glue([TokComma], PrintNames(names[1..]), close);
    }
  }

  lemma FirstName(done: seq<string>, names: seq<string>, end: Token, more: seq<Token>, limit: nat)
    requires (end == TokRBracket || end == TokRPar) && |done| < limit && names != []
    ensures var close := [end] + more;
            NameArr(done, PrintNames(names) + close, end, limit)
            == if |names| == 1 then Names(done + names, close)
               else NameArr(done + [names[0]], PrintNames(names[1..]) + close, end, limit)
  {
    var close := [end] + more;
    PrintNamesAre(names, close);
    if |names| == 1 {
      NameStep(done, names[0], end, more, limit);
      assert done + [names[0]] == done + names;
    } else {
      NameStep(done, names[0], end, PrintNames(names[1..]) + close, limit);
    }
  }

  lemma NoNames(done: seq<string>, end: Token, more: seq<Token>, limit: nat)
    ensures NameArr(done, PrintNames([]) + ([end] + more), end, limit) == Names(done, [end] + more)
  {
    Step(end, more);
    assert PrintNames([]) + ([end] + more) == [end] + more;
  }

  /** Names up to the token that ends them are read if they are not too many. */
  lemma {:induction false} NamesRead(done: seq<string>, names: seq<string>, end: Token, more: seq<Token>, limit: nat)
    requires (end == TokRBracket || end == TokRPar) && |done| + |names| <= limit
    ensures NameArr(done, PrintNames(names) + ([end] + more), end, limit) == Names(done + names, [end] + more)
    decreases |names|
  {
    if names == [] {
      NoNames(done, end, more, limit);
      assert done + names == done;
    } else {
      FirstName(done, names, end, more, limit);
      if |names| > 1 {
        NamesRead(done + [names[0]], names[1..], end, more, limit);
        assert (done + [names[0]]) + names[1..] == done + names;
      }
    }
  }

  /** And are refused if they are. */
  lemma {:induction false} NamesRefused(done: seq<string>, names: seq<string>, end: Token, more: seq<Token>, limit: nat)
    requires (end == TokRBracket || end == TokRPar) && |done| <= limit < |done| + |names|
    ensures NameArr(done, PrintNames(names) + ([end] + more), end, limit).BadNames?
    decreases |names|
  {
    var close := [end] + more;
    PrintNamesAre(names, close);
    NameStep(done, names[0], end, if |names| == 1 then more else PrintNames(names[1..]) + close, limit);
    if |done| < limit {
      NamesRefused(done + [names[0]], names[1..], end, more, limit);
    }
  }

  lemma BodyOfFunction(t: Tree, more: seq<Token>, ctx: Ctx)
    requires t.Func? && PrintableBlock(t.stmts, ctx.cycle > 0, true)
    ensures var s := [TokLBrace] + (PrintBlock(t.stmts, ctx.cycle > 0, true) + ([TokRBrace] + more));
            FunctionBody(t.name, t.rets, t.params, s, 0, ctx) == Parsed(t, more, 0)
  {
    var inner := PrintBlock(t.stmts, ctx.cycle > 0, true) + ([TokRBrace] + more);
    Step(TokLBrace, inner);
    Step(TokRBrace, more);
    BlockReads([], t.stmts, more, Ctx(ctx.cycle, ctx.func + 1));
    assert [] + t.stmts == t.stmts;
    FunctionBodyIs(t.name, t.rets, t.params, [TokLBrace] + inner, 0, ctx, Stmts(t.stmts, [TokRBrace] + more, 0));
  }

  lemma ParamsOfFunction(t: Tree, s: seq<Token>, more: seq<Token>, ctx: Ctx)
    requires t.Func? && FunctionBody(t.name, t.rets, t.params, s, 0, ctx) == Parsed(t, more, 0)
    ensures var r := FunctionParams(t.name, t.rets, [TokLPar] + (PrintNames(t.params) + ([TokRPar] + s)), 0, ctx);
            if |t.params| <= MAXFARGS then r == Parsed(t, more, 0) else r.errors > 0
  {
    Step(TokLPar, PrintNames(t.params) + ([TokRPar] + s));
    Step(TokRPar, s);
    if |t.params| <= MAXFARGS {
      NamesRead([], t.params, TokRPar, s, MAXFARGS);
      assert [] + t.params == t.params;
    } else {
      NamesRefused([], t.params, TokRPar, s, MAXFARGS);
    }
  }

  lemma RestOfFunction(t: Tree, s: seq<Token>, ctx: Ctx)
    requires t.Func?
    ensures var all := [TokLBracket] + (PrintNames(t.rets) + ([TokRBracket] + ([TokId(t.name)] + s)));
            var r := ProcessFunction(all, 0, ctx);
            if |t.rets| <= MAXRETARGS then r == FunctionParams(t.name, t.rets, s, 0, ctx) else r.errors > 0
  {
    var after := [TokId(t.name)] + s;
    Step(TokLBracket, PrintNames(t.rets) + ([TokRBracket] + after));
    Step(TokRBracket, after);
    Step(TokId(t.name), s);
    if |t.rets| <= MAXRETARGS {
      NamesRead([], t.rets, TokRBracket, after, MAXRETARGS);
      assert [] + t.rets == t.rets;
    } else {
      NamesRefused([], t.rets, TokRBracket, after, MAXRETARGS);
    }
  }

  lemma PrintFuncIs(t: Tree, cycle: bool, more: seq<Token>)
    requires t.Func? && PrintableBlock(t.stmts, cycle, true)
    ensures var body := [TokLBrace] + (PrintBlock(t.stmts, cycle, true) + ([TokRBrace] + more));
            var params := [TokLPar] + (PrintNames(t.params) + ([TokRPar] + body));
            PrintFunc(t, cycle) + more
            == [TokDef] + ([TokLBracket] + (PrintNames(t.rets) + ([TokRBracket] + ([TokId(t.name)] + params))))
  {
    var r, p, b := PrintNames(t.rets), PrintNames(t.params), PrintBlock(t.stmts, cycle, true);
    var s9 := b + [TokRBrace];
    var s8 := [TokLBrace] + s9;
    var s7 := [TokRPar] + s8;
    var s6 := p + s7;
    var s5 := [TokLPar] + s6;
    var s4 := [TokId(t.name)] + s5;
    var s3 := [TokRBracket] + s4;
    var s2 := r + s3;
    var s1 := [TokLBracket] + s2;
    Glue([TokDef], s1, more);
    Glue([TokLBracket], s2, more);
    Glue(r, s3, more);
    Glue([TokRBracket], s4, more);
    Glue([TokId(t.name)], s5, more);
    Glue([TokLPar], s6, more);
    Glue(p, s7, more);
    Glue([TokRPar], s8, more);
    Glue([TokLBrace], s9, more);
    Glue(b, [TokRBrace], more);
  }

  /** A printed definition is read back, unless it has too many results or parameters, which is an error. */
  lemma FunctionReads(t: Tree, more: seq<Token>, ctx: Ctx)
    requires t.Func? && PrintableBlock(t.stmts, ctx.cycle > 0, true)
    ensures var r := GlobalExpr(PrintFunc(t, ctx.cycle > 0) + more, 0, ctx);
            if |t.params| <= MAXFARGS && |t.rets| <= MAXRETARGS then r == Parsed(t, more, 0) else r.errors > 0
  {
    var body := [TokLBrace] + (PrintBlock(t.stmts, ctx.cycle > 0, true) + ([TokRBrace] + more));
    var params := [TokLPar] + (PrintNames(t.params) + ([TokRPar] + body));
    var rest := [TokLBracket] + (PrintNames(t.rets) + ([TokRBracket] + ([TokId(t.name)] + params)));
    PrintFuncIs(t, ctx.cycle > 0, more);
    Step(TokDef, rest);
    BodyOfFunction(t, more, ctx);
    ParamsOfFunction(t, body, more, ctx);
    RestOfFunction(t, params, ctx);
  }

  // ----- lines -----

  /** What a line can be: nothing, a statement outside loops and functions, or a definition. */
  predicate PrintableLine(t: Tree) {
    t.Null? || if t.Func? then PrintableFunc(t, false) else PrintableStmt(t, false, false)
  }

  function PrintLine(t: Tree): seq<Token>
    requires PrintableLine(t)
  {
    if t.Null? then [] else if t.Func? then PrintFunc(t, false) else PrintStmt(t, false, false)
  }

  /** Parsing undoes printing: a printed line, followed by what does not continue it, is accepted as the tree that was
      printed, and what follows is left. */
  lemma LineReads(t: Tree, more: seq<Token>)
    requires PrintableLine(t) && Follows(t, more)
    ensures ProgramStart(PrintLine(t) + more) == (Some(t), more)
  {
    var s, ctx := PrintLine(t) + more, Ctx(0, 0);
    if t.Null? {
      assert s == more;
      NoStatement(more, ctx);
    } else if t.Func? {
      FunctionReads(t, more, ctx);
    } else {
      StmtStarts(t, false, false, more);
      StmtReads(t, more, ctx);
    }
  }

  /** Different lines are printed differently. */
  lemma LineInjective(t: Tree, u: Tree)
    requires PrintableLine(t) && PrintableLine(u) && PrintLine(t) == PrintLine(u)
    ensures t == u
  {
    FollowsEol(t, []);
    FollowsEol(u, []);
    LineReads(t, [TokEol] + []);
    LineReads(u, [TokEol] + []);
  }
}
