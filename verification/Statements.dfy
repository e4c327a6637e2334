/** The statement grammar of src/syntax.c as functions, and what its placement checks achieve. */
module Statements {
  import opened Ast
  import opened Basics
  import opened Syntax

  const MAXFARGS: nat := 256
  const MAXRETARGS: nat := 256

  /** The nesting counters `is_cycle` and `is_func` of the program's `helper`. */
  datatype Ctx = Ctx(cycle: nat, func: nat)

  datatype Stmts = Stmts(stmts: seq<Tree>, rest: seq<Token>, errors: nat)

  datatype Names = Names(names: seq<string>, rest: seq<Token>) | BadNames(rest: seq<Token>)

  predicate StmtEnd(t: Token) {
    t.TokEol? || t.TokEof? || t.TokSemicolon?
  }

  function SkipEol(s: seq<Token>): (r: seq<Token>)
    ensures |r| <= |s|
  {
    if Cur(s).TokEol? then Next(s) else s
  }

  /** `statement`. */
  function Statement(s: seq<Token>, e: nat, ctx: Ctx): (r: Parsed)
    ensures |r.rest| <= |s|
    decreases |s|, 1
  {
    match Cur(s)
    case TokLBrace => ProcessScope(Next(s), e, ctx)
    case TokIf => ProcessIf(Next(s), e, ctx)
    case TokFor => ProcessFor(Next(s), e, ctx)
    case TokWhile => ProcessWhile(Next(s), e, ctx)
    case _ => Jump(s, e, ctx)
  }

  /** The part of `statement` for `break`, `continue` and `return`. */
  function Jump(s: seq<Token>, e: nat, ctx: Ctx): (r: Parsed)
    ensures |r.rest| <= |s|
    decreases |s|, 0, 1
  {
    match Cur(s)
    case TokBreak => ProcessBreak(Next(s), e, ctx)
    case TokContinue => ProcessContinue(Next(s), e, ctx)
    case TokReturn => ProcessReturn(Next(s), e, ctx)
    case _ => LastCases(s, e, ctx)
  }

  /** `process_break`. */
  function ProcessBreak(s: seq<Token>, e: nat, ctx: Ctx): Parsed {
    if ctx.cycle == 0 then Parsed(Stub, s, e + 1) else Parsed(Break, s, e)
  }

  /** `process_continue`. */
  function ProcessContinue(s: seq<Token>, e: nat, ctx: Ctx): Parsed {
    if ctx.cycle == 0 then Parsed(Stub, s, e + 1) else Parsed(Continue, s, e)
  }

  /** `process_return`. */
  function ProcessReturn(s: seq<Token>, e: nat, ctx: Ctx): Parsed {
    if ctx.func == 0 then Parsed(Stub, Sync(s), e + 1) else Parsed(Return, s, e)
  }

  /** The rest of `statement`. */
  function LastCases(s: seq<Token>, e: nat, ctx: Ctx): (r: Parsed)
    ensures |r.rest| <= |s|
    decreases |s|, 0, 0
  {
    match Cur(s)
    case TokDo => ProcessDo(Next(s), e, ctx)
    case TokDel => ProcessDel(Next(s), e)
    case _ => Expr(s, e)
  }

  /** `block`; the statements in the order of their links. */
  function Block(done: seq<Tree>, s: seq<Token>, e: nat, ctx: Ctx): (r: Stmts)
    ensures |r.rest| <= |s|
    decreases |s|, 2
  {
    if s == [] || Cur(s).TokRBrace? then Stmts(done, s, e)
    else
      var t := Statement(s, e, ctx);
      var more := if t.tree.Null? then done else done + [t.tree];
      if t.errors != 0 then Stmts(more, t.rest, t.errors)
      else if !StmtEnd(Cur(t.rest)) then Stmts(more, Sync(t.rest), t.errors + 1)
      else Block(more, Next(t.rest), t.errors, ctx)
  }

  /** `process_scope`, after the brace. */
  function ProcessScope(s: seq<Token>, e: nat, ctx: Ctx): (r: Parsed)
    ensures |r.rest| <= |s|
    decreases |s|, 3
  {
    var b := Block([], s, e, ctx);
    if b.errors != 0 then Parsed(Stub, b.rest, b.errors)
    else if !Cur(b.rest).TokRBrace? then Parsed(Stub, b.rest, b.errors + 1)
    else Parsed(Scope(b.stmts), Next(b.rest), b.errors)
  }

  /** The body of a condition or a loop: a scope, or one statement, perhaps on the next line. */
  function Body(s: seq<Token>, e: nat, ctx: Ctx): (r: Parsed)
    ensures |r.rest| <= |s|
    decreases |s|, 4
  {
    if Cur(s).TokLBrace? then ProcessScope(Next(s), e, ctx) else Statement(SkipEol(s), e, ctx)
  }

  /** `process_if`. */
  function ProcessIf(s: seq<Token>, e: nat, ctx: Ctx): (r: Parsed)
    ensures |r.rest| <= |s|
    decreases |s|, 6
  {
    if !Cur(s).TokLPar? then Parsed(Stub, s, e + 1)
    else
      var c := Level(0, Next(s), e);
      if c.tree.Null? || !Cur(c.rest).TokRPar? then Parsed(Stub, c.rest, c.errors + 1)
      else IfBody(c.tree, Next(c.rest), c.errors, ctx)
  }

  function IfBody(cond: Tree, s: seq<Token>, e: nat, ctx: Ctx): (r: Parsed)
    ensures |r.rest| <= |s|
    decreases |s|, 5
  {
    var b := Body(s, e, ctx);
    if b.errors != 0 then Parsed(Stub, b.rest, b.errors + 1) else IfElse(cond, b.tree, b.rest, b.errors, ctx)
  }

  /** An end of line that no `else` follows is given back. */
  function IfElse(cond: Tree, body: Tree, s: seq<Token>, e: nat, ctx: Ctx): (r: Parsed)
    ensures |r.rest| <= |s|
    decreases |s|, 4
  {
    if !Cur(SkipEol(s)).TokElse? then Parsed(If(cond, body, Null), s, e)
    else
      var els := Statement(SkipEol(Next(SkipEol(s))), e, ctx);
      if els.tree.Null? || els.errors != 0 then Parsed(Stub, els.rest, els.errors + 1)
      else Parsed(If(cond, body, els.tree), els.rest, els.errors)
  }

  function Deeper(ctx: Ctx): Ctx {
    ctx.(cycle := ctx.cycle + 1)
  }

  /** `process_for`; its errors are reported but not counted. */
  function ProcessFor(s: seq<Token>, e: nat, ctx: Ctx): (r: Parsed)
    ensures |r.rest| <= |s|
    decreases |s|, 8
  {
    if !Cur(s).TokLPar? then Parsed(Stub, s, e)
    else
      var e1 := Expr(Next(s), e);
      if !Cur(e1.rest).TokSemicolon? then Parsed(Stub, e1.rest, e1.errors)
      else ForCond(e1.tree, Next(e1.rest), e1.errors, ctx)
  }

  function ForCond(init: Tree, s: seq<Token>, e: nat, ctx: Ctx): (r: Parsed)
    ensures |r.rest| <= |s|
    decreases |s|, 7
  {
    var e2 := Level(0, s, e);
    if !Cur(e2.rest).TokSemicolon? then Parsed(Stub, e2.rest, e2.errors)
    else ForStep(init, e2.tree, Next(e2.rest), e2.errors, ctx)
  }

  function ForStep(init: Tree, cond: Tree, s: seq<Token>, e: nat, ctx: Ctx): (r: Parsed)
    ensures |r.rest| <= |s|
    decreases |s|, 6
  {
    var e3 := if Cur(s).TokRPar? then Parsed(Null, s, e) else Expr(s, e);
    if !Cur(e3.rest).TokRPar? then Parsed(Stub, e3.rest, e3.errors)
    else ForBody(init, cond, e3.tree, Next(e3.rest), e3.errors, ctx)
  }

  function ForBody(init: Tree, cond: Tree, step: Tree, s: seq<Token>, e: nat, ctx: Ctx): (r: Parsed)
    ensures |r.rest| <= |s|
    decreases |s|, 5
  {
    var b := Body(s, e, Deeper(ctx));
    if b.errors != 0 then Parsed(Stub, b.rest, b.errors) else Parsed(For(init, cond, step, b.tree), b.rest, b.errors)
  }

  /** `process_while`. */
  function ProcessWhile(s: seq<Token>, e: nat, ctx: Ctx): (r: Parsed)
    ensures |r.rest| <= |s|
    decreases |s|, 5
  {
    if !Cur(s).TokLPar? then Parsed(Stub, s, e)
    else
      var c := Level(0, Next(s), e);
      if !Cur(c.rest).TokRPar? then Parsed(Stub, c.rest, c.errors)
      else
        var b := Body(Next(c.rest), c.errors, Deeper(ctx));
        if b.errors != 0 then Parsed(Stub, b.rest, b.errors) else Parsed(While(c.tree, b.tree), b.rest, b.errors)
  }

  /** `process_do`. */
  function ProcessDo(s: seq<Token>, e: nat, ctx: Ctx): (r: Parsed)
    ensures |r.rest| <= |s|
    decreases |s|, 5
  {
    var b := Body(s, e, Deeper(ctx));
    if b.errors != 0 then Parsed(Stub, b.rest, b.errors) else DoCond(b.tree, SkipEol(b.rest), b.errors)
  }

  function DoCond(body: Tree, s: seq<Token>, e: nat): (r: Parsed)
    ensures |r.rest| <= |s|
  {
    if !Cur(s).TokWhile? then Parsed(Stub, s, e)
    else if !Cur(Next(s)).TokLPar? then Parsed(Stub, Next(s), e)
    else
      var c := Level(0, Next(Next(s)), e);
      if !Cur(c.rest).TokRPar? then Parsed(Stub, c.rest, c.errors) else Parsed(Do(c.tree, body), Next(c.rest), c.errors)
  }

  /** `process_del`. */
  function ProcessDel(s: seq<Token>, e: nat): (r: Parsed)
    ensures |r.rest| <= |s|
  {
    if !Cur(s).TokId? then Parsed(Stub, Sync(s), e + 1)
    else
      var t := Identifier(s[0].name, Next(s), e);
      if IsLvalue(t.tree) then Parsed(Del(t.tree), t.rest, t.errors) else Parsed(Stub, Sync(t.rest), t.errors + 1)
  }

  /** `get_name_arr`. */
  function NameArr(done: seq<string>, s: seq<Token>, end: Token, limit: nat): (r: Names)
    ensures |r.rest| <= |s|
    decreases |s|
  {
    if Cur(s) == end then Names(done, s)
    else if !Cur(s).TokId? then BadNames(s)
    else
      var s1 := Next(s);
      if |done| + 1 > limit then BadNames(s1)
      else if Cur(s1).TokComma? then NameArr(done + [s[0].name], Next(s1), end, limit)
      else if Cur(s1) == end then Names(done + [s[0].name], s1)
      else BadNames(s1)
  }

  function FunctionError(s: seq<Token>, errors: nat): Parsed {
    Parsed(Stub, Sync(s), errors + 1)
  }

  /** `process_function`. */
  function ProcessFunction(s: seq<Token>, e: nat, ctx: Ctx): (r: Parsed)
    ensures |r.rest| <= |s|
  {
    if !Cur(s).TokLBracket? then FunctionError(s, e)
    else
      var rets := NameArr([], Next(s), TokRBracket, MAXRETARGS);
      if rets.BadNames? || !Cur(rets.rest).TokRBracket? then FunctionError(rets.rest, e)
      else if !Cur(Next(rets.rest)).TokId? then FunctionError(Next(rets.rest), e)
      else FunctionParams(Next(rets.rest)[0].name, rets.names, Next(Next(rets.rest)), e, ctx)
  }

  /** `process_function_arguments` and what follows. */
  function FunctionParams(name: string, rets: seq<string>, s: seq<Token>, e: nat, ctx: Ctx): (r: Parsed)
    ensures |r.rest| <= |s|
  {
    if !Cur(s).TokLPar? then FunctionError(s, e)
    else
      var params := NameArr([], Next(s), TokRPar, MAXFARGS);
      if params.BadNames? || !Cur(params.rest).TokRPar? then FunctionError(params.rest, e)
      else FunctionBody(name, rets, params.names, Next(params.rest), e, ctx)
  }

  /** `process_function_body` and what follows. */
  function FunctionBody(name: string, rets: seq<string>, params: seq<string>, s: seq<Token>, e: nat,
      ctx: Ctx): (r: Parsed)
    ensures |r.rest| <= |s|
  {
    if !Cur(s).TokLBrace? then FunctionError(s, e + 1)
    else
      var b := Block([], Next(s), e, ctx.(func := ctx.func + 1));
      if b.errors != 0 || !Cur(b.rest).TokRBrace? then FunctionError(b.rest, b.errors + 1)
      else Parsed(Func(name, params, rets, b.stmts), Next(b.rest), b.errors)
  }

  /** `global_expr`, imports left out. */
  function GlobalExpr(s: seq<Token>, e: nat, ctx: Ctx): (r: Parsed)
    ensures |r.rest| <= |s|
  {
    if Cur(s).TokDef? then ProcessFunction(Next(s), e, ctx) else Statement(s, e, ctx)
  }

  /** `program_start`, from the first token on: the tree is accepted when no error was counted. */
  function ProgramStart(s: seq<Token>): (r: (Option<Tree>, seq<Token>)) {
    var p := GlobalExpr(s, 0, Ctx(0, 0));
    (if p.errors == 0 then Some(p.tree) else None, p.rest)
  }

  // ----- the ends of some of the functions above, given what they call -----

  lemma StatementIs(s: seq<Token>, e: nat, ctx: Ctx)
    ensures Statement(s, e, ctx)
         == if Cur(s).TokLBrace? then ProcessScope(Next(s), e, ctx)
            else if Cur(s).TokIf? then ProcessIf(Next(s), e, ctx)
            else if Cur(s).TokFor? then ProcessFor(Next(s), e, ctx)
            else if Cur(s).TokWhile? then ProcessWhile(Next(s), e, ctx)
            else Jump(s, e, ctx)
  {
  }

  lemma JumpIs(s: seq<Token>, e: nat, ctx: Ctx)
    ensures Jump(s, e, ctx)
         == if Cur(s).TokBreak? then ProcessBreak(Next(s), e, ctx)
            else if Cur(s).TokContinue? then ProcessContinue(Next(s), e, ctx)
            else if Cur(s).TokReturn? then ProcessReturn(Next(s), e, ctx)
            else LastCases(s, e, ctx)
  {
  }

  lemma LastCasesIs(s: seq<Token>, e: nat, ctx: Ctx)
    ensures LastCases(s, e, ctx)
         == if Cur(s).TokDo? then ProcessDo(Next(s), e, ctx)
            else if Cur(s).TokDel? then ProcessDel(Next(s), e)
            else Expr(s, e)
  {
  }

  lemma ForBodyIs(init: Tree, cond: Tree, step: Tree, s: seq<Token>, e: nat, ctx: Ctx, b: Parsed)
    requires b == Body(s, e, Deeper(ctx))
    ensures ForBody(init, cond, step, s, e, ctx)
         == Parsed(if b.errors != 0 then Stub else For(init, cond, step, b.tree), b.rest, b.errors)
  {
  }

  lemma ForStepIs(init: Tree, cond: Tree, s: seq<Token>, e: nat, ctx: Ctx, step: Parsed)
    requires step == if Cur(s).TokRPar? then Parsed(Null, s, e) else Expr(s, e)
    ensures ForStep(init, cond, s, e, ctx)
         == if !Cur(step.rest).TokRPar? then Parsed(Stub, step.rest, step.errors)
            else ForBody(init, cond, step.tree, Next(step.rest), step.errors, ctx)
  {
  }

  lemma NoElseIs(cond: Tree, body: Tree, s: seq<Token>, e: nat, ctx: Ctx)
    requires !Cur(SkipEol(s)).TokElse?
    ensures IfElse(cond, body, s, e, ctx) == Parsed(If(cond, body, Null), s, e)
  {
  }

  lemma ElseIs(cond: Tree, body: Tree, s: seq<Token>, e: nat, ctx: Ctx, els: Parsed)
    requires Cur(SkipEol(s)).TokElse? && els == Statement(SkipEol(Next(SkipEol(s))), e, ctx)
    ensures IfElse(cond, body, s, e, ctx)
         == if els.tree.Null? || els.errors != 0 then Parsed(Stub, els.rest, els.errors + 1)
            else Parsed(If(cond, body, els.tree), els.rest, els.errors)
  {
  }

  lemma FunctionBodyIs(name: string, rets: seq<string>, params: seq<string>, s: seq<Token>, e: nat, ctx: Ctx, b: Stmts)
    requires Cur(s).TokLBrace? && b == Block([], Next(s), e, Ctx(ctx.cycle, ctx.func + 1))
    ensures FunctionBody(name, rets, params, s, e, ctx)
         == if b.errors != 0 || !Cur(b.rest).TokRBrace? then FunctionError(b.rest, b.errors + 1)
            else Parsed(Func(name, params, rets, b.stmts), Next(b.rest), b.errors)
  {
  }

  lemma FunctionIs(s: seq<Token>, e: nat, ctx: Ctx, rets: seq<string>, s1: seq<Token>)
    requires Cur(s).TokLBracket? && NameArr([], Next(s), TokRBracket, MAXRETARGS) == Names(rets, s1)
    requires Cur(s1).TokRBracket?
    ensures ProcessFunction(s, e, ctx)
         == if !Cur(Next(s1)).TokId? then FunctionError(Next(s1), e)
            else FunctionParams(Next(s1)[0].name, rets, Next(Next(s1)), e, ctx)
  {
  }
}
