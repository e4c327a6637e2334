/** What becomes of a line that goes wrong after a part that does not: which errors are counted, which are silent, and
    where the parser goes on. */
module Refusals {
  import opened Ast
  import opened Basics
  import opened Syntax
  import opened Statements
  import opened Printer
  import opened StatementPrinter

  // ----- expressions -----

  /** Where no factor starts there is an error, and the rest of the line is skipped. */
  lemma NoFactor(s: seq<Token>)
    requires !StartsFactor(Cur(s))
    ensures Factor(s, 0) == Parsed(Stub, Sync(s), 1)
  {
  }

  /** So a line that starts with what starts no statement is an error, and is skipped. */
  lemma NothingStarts(s: seq<Token>, ctx: Ctx)
    requires !Starts(Cur(s)) && !StmtEnd(Cur(s)) && !Cur(s).TokLBrace?
    ensures Statement(s, 0, ctx) == Parsed(Stub, Sync(s), 1)
  {
    SyncedAtEnd(s);
    LevelStartsNothing(0, s);
    TrenaryIs(s, 0, Parsed(Stub, Sync(s), 1));
    StatementIs(s, 0, ctx);
    JumpIs(s, 0, ctx);
    LastCasesIs(s, 0, ctx);
  }

  lemma SyncedAtEnd(s: seq<Token>)
    ensures Cur(Sync(s)).TokEol? || Cur(Sync(s)).TokEof?
  {
  }

  lemma {:induction false} LevelStartsNothing(k: nat, s: seq<Token>)
    requires k <= TERM && !Starts(Cur(s)) && !StmtEnd(Cur(s)) && !Cur(s).TokLBrace?
    ensures Level(k, s, 0) == Parsed(Stub, Sync(s), 1)
    decreases TERM - k
  {
    SyncedAtEnd(s);
    if k < TERM {
      LevelStartsNothing(k + 1, s);
    } else {
      NoFactor(s);
      assert Concatenation(s, 0) == Parsed(Stub, Sync(s), 1);
      assert Power(s, 0) == Parsed(Stub, Sync(s), 1);
    }
  }

  /** A group that is not closed is an error, and its expression stands. */
  lemma OpenGroup(t: Tree, more: seq<Token>)
    requires Printable(t) && Stops(0, Cur(more)) && !Cur(more).TokRPar? && (t.Ternary? ==> !Assigns(Cur(more)))
    ensures Factor([TokLPar] + (Print(t, 0, false) + more), 0) == Parsed(t, more, 1)
  {
    Step(TokLPar, Print(t, 0, false) + more);
    TrenaryReads(t, more);
    GroupIs([TokLPar] + (Print(t, 0, false) + more), 0, Parsed(t, more, 0));
  }

  /** A call that is neither closed nor goes on is an error. */
  lemma OpenCall(name: string, t: Tree, more: seq<Token>)
    requires Printable(t) && Stops(1, Cur(more)) && !Cur(more).TokComma? && !Cur(more).TokRPar?
    ensures Factor([TokId(name)] + ([TokLPar] + (Print(t, 1, false) + more)), 0) == Parsed(Stub, more, 1)
  {
    CallStep(name, Print(t, 1, false) + more);
    FullReads(0, t, more);
    StartsWell(t, 1, false);
    CurPrint(t, 1, false, more);
  }

  /** So is an access. */
  lemma OpenAccess(name: string, t: Tree, more: seq<Token>)
    requires Printable(t) && Stops(1, Cur(more)) && !Cur(more).TokComma? && !Cur(more).TokRBracket?
    ensures Factor([TokId(name)] + ([TokLBracket] + (Print(t, 1, false) + more)), 0) == Parsed(Stub, more, 1)
  {
    var s := Print(t, 1, false) + more;
    CallStep(name, s);
    FullReads(0, t, more);
    ArrayAccessIs(name, [], s, 0, Parsed(t, more, 0));
  }

  /** A condition with a branch but no `:` is an error. */
  lemma NoColon(c: Tree, y: Tree, more: seq<Token>)
    requires Printable(c) && PrintableExpr(y) && Stops(0, Cur(more)) && !Assigns(Cur(more)) && !Cur(more).TokColon?
    ensures TrenaryOp(Print(c, 1, false) + ([TokQuestion] + (PrintExpr(y) + more)), 0) == Parsed(Stub, more, 1)
  {
    var ys := PrintExpr(y) + more;
    Step(TokQuestion, ys);
    FullReads(0, c, [TokQuestion] + ys);
    TrenaryIs(Print(c, 1, false) + ([TokQuestion] + ys), 0, Parsed(c, [TokQuestion] + ys, 0));
    ExprReads(y, more);
  }

  /** An assigning operator behind what is no name and no element is an error. */
  lemma NoTarget(t: Tree, op: Opcode, more: seq<Token>)
    requires Printable(t) && !IsLvalue(t)
    ensures Expr(Print(t, 1, false) + ([TokOpAs(op)] + more), 0) == Parsed(Stub, [TokOpAs(op)] + more, 1)
  {
    Step(TokOpAs(op), more);
    ExpressionItemReads(t, [TokOpAs(op)] + more);
  }

  /** A list that starts a line. */
  predicate FirstList(l: Tree) {
    PrintableList(l) && !l.items[0].Arr?
  }

  lemma ListStarts(l: Tree, rest: seq<Token>)
    requires FirstList(l) && EndsItem(Cur(rest)) && !Cur(rest).TokComma?
    ensures var later := MoreItems(l.items[1..]) + rest;
            && TrenaryOp(PrintList(l) + rest, 0) == Parsed(l.items[0], later, 0) && !l.items[0].Null?
            && GetSeq([l.items[0]], later, 0) == Parsed(l, rest, 0)
            && Cur(later) == if |l.items| == 1 then Cur(rest) else TokComma
  {
    PrintListIs(l, rest);
    MoreItemsStart(l.items[1..], rest);
    assert PrintableItem(l.items[0]);
    ExpressionItemReads(l.items[0], MoreItems(l.items[1..]) + rest);
    ListReads(l.items, rest);
    assert Seq(l.items) == l;
  }

  /** A list without `=` is a stub, and no error is counted. */
  lemma ListAlone(l: Tree, more: seq<Token>)
    requires FirstList(l) && |l.items| > 1 && EndsItem(Cur(more)) && !Assigns(Cur(more))
    ensures Expr(PrintList(l) + more, 0) == Parsed(Stub, more, 0)
  {
    ListStarts(l, more);
    AssignIs(l.items[0], false, MoreItems(l.items[1..]) + more, 0, Parsed(l, more, 0));
  }

  /** So is an assignment to what are not all names and elements; the parser goes on behind its `=`. */
  lemma NoTargets(l: Tree, more: seq<Token>)
    requires FirstList(l) && !LvalueSeq(l)
    ensures Expr(PrintList(l) + ([TokAs] + more), 0) == Parsed(Stub, more, 0)
  {
    var rest := [TokAs] + more;
    Step(TokAs, more);
    ListStarts(l, rest);
    AssignIs(l.items[0], false, MoreItems(l.items[1..]) + rest, 0, Parsed(l, rest, 0));
  }

  // ----- statements -----

  /** A condition that is not closed: an error for `if`, none for `while`. */
  lemma OpenCondition(c: Tree, more: seq<Token>, ctx: Ctx)
    requires Printable(c) && Stops(1, Cur(more)) && !Cur(more).TokRPar?
    ensures Statement([TokIf] + ([TokLPar] + (Print(c, 1, false) + more)), 0, ctx) == Parsed(Stub, more, 1)
    ensures Statement([TokWhile] + ([TokLPar] + (Print(c, 1, false) + more)), 0, ctx) == Parsed(Stub, more, 0)
  {
    var s := Print(c, 1, false) + more;
    FullReads(0, c, more);
    Step(TokLPar, s);
    Step(TokIf, [TokLPar] + s);
    Step(TokWhile, [TokLPar] + s);
    StatementIs([TokIf] + ([TokLPar] + s), 0, ctx);
    StatementIs([TokWhile] + ([TokLPar] + s), 0, ctx);
  }

  /** A `for` that breaks off behind its first, second or third expression is a stub, and no error is counted. */
  lemma OpenFor(init: Tree, more: seq<Token>, ctx: Ctx)
    requires PrintableExpr(init) && Stops(0, Cur(more)) && !Assigns(Cur(more)) && !Cur(more).TokSemicolon?
    ensures Statement([TokFor] + ([TokLPar] + (PrintExpr(init) + more)), 0, ctx) == Parsed(Stub, more, 0)
  {
    var s := PrintExpr(init) + more;
    ExprReads(init, more);
    Step(TokLPar, s);
    Step(TokFor, [TokLPar] + s);
    StatementIs([TokFor] + ([TokLPar] + s), 0, ctx);
  }

  lemma OpenTest(init: Tree, c: Tree, more: seq<Token>, ctx: Ctx)
    requires Printable(c) && Stops(1, Cur(more)) && !Cur(more).TokSemicolon?
    ensures ForCond(init, Print(c, 1, false) + more, 0, ctx) == Parsed(Stub, more, 0)
  {
    FullReads(0, c, more);
  }

  lemma OpenStep(init: Tree, c: Tree, step: Tree, more: seq<Token>, ctx: Ctx)
    requires PrintableExpr(step) && Stops(0, Cur(more)) && !Assigns(Cur(more)) && !Cur(more).TokRPar?
    ensures Statements.ForStep(init, c, PrintExpr(step) + more, 0, ctx) == Parsed(Stub, more, 0)
  {
    ExprReads(step, more);
    ExprStarts(step);
    assert Cur(PrintExpr(step) + more) == PrintExpr(step)[0];
    ForStepIs(init, c, PrintExpr(step) + more, 0, ctx, Parsed(step, more, 0));
  }

  /** A `do` without its `while`, or with an open condition, is a stub, and no error is counted; an end of line behind
      its body is gone. */
  lemma OpenDo(body: Tree, more: seq<Token>, ctx: Ctx)
    requires PrintableBody(body, true, ctx.func > 0) && Follows(body, more) && !Cur(SkipEol(more)).TokWhile?
    ensures Statement([TokDo] + (PrintBody(body, true, ctx.func > 0) + more), 0, ctx) == Parsed(Stub, SkipEol(more), 0)
  {
    var s := PrintBody(body, true, ctx.func > 0) + more;
    Step(TokDo, s);
    StatementIs([TokDo] + s, 0, ctx);
    JumpIs([TokDo] + s, 0, ctx);
    LastCasesIs([TokDo] + s, 0, ctx);
    BodyReads(body, more, Deeper(ctx));
  }

  lemma OpenDoCondition(body: Tree, c: Tree, more: seq<Token>)
    requires Printable(c) && Stops(1, Cur(more)) && !Cur(more).TokRPar?
    ensures DoCond(body, [TokWhile] + ([TokLPar] + (Print(c, 1, false) + more)), 0) == Parsed(Stub, more, 0)
  {
    var cs := Print(c, 1, false) + more;
    Step(TokLPar, cs);
    Step(TokWhile, [TokLPar] + cs);
    FullReads(0, c, more);
  }

  /** A statement of a block that is not at its end is an error, and the rest of the line is skipped; so is a block that
      is not closed. */
  lemma OpenBlock(t: Tree, more: seq<Token>, ctx: Ctx)
    requires PrintableStmt(t, ctx.cycle > 0, ctx.func > 0) && Follows(t, more) && !StmtEnd(Cur(more))
    ensures var s := PrintStmt(t, ctx.cycle > 0, ctx.func > 0) + more;
            Statement([TokLBrace] + s, 0, ctx) == Parsed(Stub, Sync(more), 1)
    ensures Statement([TokLBrace], 0, ctx) == Parsed(Stub, [], 1)
  {
    var s := PrintStmt(t, ctx.cycle > 0, ctx.func > 0) + more;
    Step(TokLBrace, s);
    Step(TokLBrace, []);
    StatementIs([TokLBrace] + s, 0, ctx);
    StatementIs([TokLBrace] + [], 0, ctx);
    assert [TokLBrace] + [] == [TokLBrace];
    StmtStarts(t, ctx.cycle > 0, ctx.func > 0, more);
    StmtReads(t, more, ctx);
    assert Block([], s, 0, ctx) == Stmts([t], Sync(more), 1);
  }

  /** `del` of anything but a name or an element is an error. */
  lemma NothingToDelete(s: seq<Token>, ctx: Ctx)
    requires !Cur(s).TokId?
    ensures Statement([TokDel] + s, 0, ctx) == Parsed(Stub, Sync(s), 1)
  {
    Step(TokDel, s);
    StatementIs([TokDel] + s, 0, ctx);
    JumpIs([TokDel] + s, 0, ctx);
    LastCasesIs([TokDel] + s, 0, ctx);
  }

  /** A definition that breaks off is an error, two of them where its body should start, and the rest of the line is
      skipped. */
  lemma OpenDefinition(name: string, rets: seq<string>, params: seq<string>, s: seq<Token>, ctx: Ctx)
    requires |rets| <= MAXRETARGS && |params| <= MAXFARGS
    ensures !Cur(s).TokLBracket? ==> GlobalExpr([TokDef] + s, 0, ctx) == Parsed(Stub, Sync(s), 1)
    ensures !Cur(s).TokId? ==>
              ProcessFunction([TokLBracket] + (PrintNames(rets) + ([TokRBracket] + s)), 0, ctx)
              == Parsed(Stub, Sync(s), 1)
    ensures !Cur(s).TokLPar? ==> FunctionParams(name, rets, s, 0, ctx) == Parsed(Stub, Sync(s), 1)
    ensures !Cur(s).TokLBrace? ==>
              FunctionParams(name, rets, [TokLPar] + (PrintNames(params) + ([TokRPar] + s)), 0, ctx)
              == Parsed(Stub, Sync(s), 2)
  {
    Step(TokDef, s);
    Step(TokLBracket, PrintNames(rets) + ([TokRBracket] + s));
    Step(TokRBracket, s);
    NamesRead([], rets, TokRBracket, s, MAXRETARGS);
    Step(TokLPar, PrintNames(params) + ([TokRPar] + s));
    Step(TokRPar, s);
    NamesRead([], params, TokRPar, s, MAXFARGS);
  }
}
