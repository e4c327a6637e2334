/** No error of an expression goes uncounted: where the error count has not moved there is no stub in the tree, but for
    the assignments that the program refuses without counting. */
module Errors {
  import opened Ast
  import opened Basics
  import opened Syntax
  import opened Statements

  // ----- trees without a counted error -----

  /** An expression with no stub and nothing missing; a branch of a ternary may be a refused assignment. */
  predicate Sound(t: Tree)
    decreases t, 0
  {
    match t
    case Id(_) | Var(_) => true
    case Unary(e, _) => Sound(e)
    case Binary(l, r, _) => Sound(l) && Sound(r)
    case Ternary(c, y, n) => Sound(c) && (y.Stub? || SoundExpr(y)) && (n.Stub? || SoundExpr(n))
    case Call(_, args) => forall i :: 0 <= i < |args| ==> Sound(args[i])
    case Access(_, ind) => forall i :: 0 <= i < |ind| ==> Sound(ind[i])
    case _ => false
  }

  predicate AllSound(ts: seq<Tree>) {
    forall i :: 0 <= i < |ts| ==> Sound(ts[i])
  }

  predicate SoundExpr(t: Tree)
    decreases t, 3
  {
    if t.Assign? then SoundList(t.left) && (t.right.Stub? || SoundRight(t.right))
    else if t.OpAssign? then Sound(t.left) && Sound(t.right)
    else Sound(t)
  }

  predicate SoundRight(t: Tree)
    decreases t, 3
  {
    if t.Assign? then SoundList(t.left) && (t.right.Stub? || SoundRight(t.right)) else SoundList(t)
  }

  predicate SoundList(t: Tree)
    decreases t, 2
  {
    t.Seq? && forall i :: 0 <= i < |t.items| ==> SoundItem(t.items[i])
  }

  predicate SoundItem(t: Tree)
    decreases t, 1
  {
    match t
    case Arr(items) => forall i :: 0 <= i < |items| ==> Sound(items[i])
    case _ => Sound(t)
  }

  predicate AllSoundItems(ts: seq<Tree>) {
    forall i :: 0 <= i < |ts| ==> SoundItem(ts[i])
  }

  /** The error count has grown, or the tree is as it should be. */
  predicate Counted(r: Parsed, e: nat, ok: bool) {
    r.errors > e || (r.errors == e && ok)
  }

  function OrNothing(t: Tree): bool {
    t.Null? || Sound(t)
  }

  // ----- the grammar functions -----

  /** The tokens after the first item go on with a list or an assignment. */
  predicate GoesOn(s: seq<Token>, e: nat) {
    var t := TrenaryOp(s, e);
    !t.tree.Null? && (Cur(t.rest).TokAs? || Cur(t.rest).TokComma?)
  }

  /** An expression: nothing at all, a refused list or assignment, or a sound tree, unless an error is counted. */
  lemma {:induction false} ExprCounts(s: seq<Token>, e: nat)
    ensures var r := Expr(s, e);
            Counted(r, e, r.tree.Null? || (r.tree.Stub? && GoesOn(s, e)) || SoundExpr(r.tree))
    decreases |s|, 40
  {
    var t := TrenaryOp(s, e);
    TrenaryCounts(s, e);
    if !t.tree.Null? {
      if Cur(t.rest).TokAs? || Cur(t.rest).TokComma? {
        if t.errors == e {
          AssignCounts(t.tree, false, t.rest, e);
        } else {
          AssignGrows(t.tree, t.rest, t.errors);
        }
      } else if Cur(t.rest).TokOpAs? && IsLvalue(t.tree) {
        TrenaryCounts(Next(t.rest), t.errors);
      }
    }
  }

  lemma {:induction false} RvalCounts(s: seq<Token>, e: nat)
    ensures var r := GetRval(s, e); Counted(r, e, SoundItem(r.tree) && !r.tree.Null?)
    decreases |s|, 39
  {
    if Cur(s).TokLBrace? {
      ArrayInitCounts([], Next(s), e);
    } else {
      TrenaryCounts(s, e);
    }
  }

  lemma {:induction false} SeqCounts(items: seq<Tree>, s: seq<Token>, e: nat)
    requires AllSoundItems(items)
    ensures var r := GetSeq(items, s, e); Counted(r, e, SoundList(r.tree))
    decreases |s|, 37
  {
    if Cur(s).TokComma? {
      var t := GetRval(Next(s), e);
      RvalCounts(Next(s), e);
      if !t.tree.Null? && t.errors == 0 {
        SeqCounts(items + [t.tree], t.rest, t.errors);
      }
    }
  }

  /** With an error counted before, an assignment is refused. */
  lemma {:induction false} SeqGrows(items: seq<Tree>, s: seq<Token>, e: nat)
    requires e > 0
    ensures GetSeq(items, s, e).errors >= e
    decreases |s|, 37
  {
    if Cur(s).TokComma? {
      var t := GetRval(Next(s), e);
      RvalCounts(Next(s), e);
    }
  }

  lemma {:induction false} AssignGrows(node: Tree, s: seq<Token>, e: nat)
    requires e > 0
    ensures AssignExpr(node, false, s, e).errors >= e
    decreases |s|, 38
  {
    SeqGrows([node], s, e);
    AssignIs(node, false, s, e, GetSeq([node], s, e));
  }

  lemma {:induction false} AssignCounts(node: Tree, nested: bool, s: seq<Token>, e: nat)
    requires SoundItem(node)
    ensures var r := AssignExpr(node, nested, s, e);
            Counted(r, e, r.tree.Stub? || if nested then SoundRight(r.tree) else SoundExpr(r.tree))
    decreases |s|, 38
  {
    var l := GetSeq([node], s, e);
    SeqCounts([node], s, e);
    AssignIs(node, nested, s, e, l);
    if l.errors == 0 && Cur(l.rest).TokAs? && LvalueSeq(l.tree) {
      AssignRightCounts(l.tree, Next(l.rest));
    }
  }

  lemma {:induction false} AssignRightCounts(left: Tree, s: seq<Token>)
    requires SoundList(left)
    ensures var r := AssignRight(left, s); Counted(r, 0, r.tree.Assign? && SoundExpr(r.tree) && SoundRight(r.tree))
    decreases |s|, 40
  {
    var t := GetRval(s, 0);
    RvalCounts(s, 0);
    if t.errors == 0 {
      AssignCounts(t.tree, true, t.rest, 0);
    }
  }

  lemma {:induction false} TrenaryCounts(s: seq<Token>, e: nat)
    ensures var r := TrenaryOp(s, e); Counted(r, e, OrNothing(r.tree))
    decreases |s|, 36
  {
    var c := Level(0, s, e);
    LevelCounts(0, s, e);
    TrenaryIs(s, e, c);
    if !c.tree.Null? && Cur(c.rest).TokQuestion? {
      TernaryCounts(c.tree, Next(c.rest), c.errors);
    }
  }

  lemma {:induction false} TernaryCounts(cond: Tree, s: seq<Token>, e: nat)
    ensures var r := TernaryRest(cond, s, e); Counted(r, e, r.tree.Ternary? && (Sound(cond) ==> Sound(r.tree)))
    decreases |s|, 41
  {
    var y := Expr(s, e);
    ExprCounts(s, e);
    if Cur(y.rest).TokColon? && y.errors == 0 {
      ExprCounts(Next(y.rest), y.errors);
    }
  }

  lemma {:induction false} LevelCounts(k: nat, s: seq<Token>, e: nat)
    requires k <= TERM
    ensures var r := Level(k, s, e); Counted(r, e, OrNothing(r.tree))
    decreases |s|, 35 - 2 * k
  {
    if k < TERM {
      var l := Level(k + 1, s, e);
      LevelCounts(k + 1, s, e);
      if !l.tree.Null? {
        LevelRestCounts(k, l.tree, l.rest, l.errors);
      }
    } else {
      TermCounts(s, e);
    }
  }

  lemma {:induction false} LevelRestCounts(k: nat, left: Tree, s: seq<Token>, e: nat)
    requires k < TERM
    ensures var r := LevelRest(k, left, s, e); Counted(r, e, Sound(left) ==> Sound(r.tree))
    decreases |s|, 34 - 2 * k
  {
    if IsLevelOp(Cur(s), k) {
      var r := Level(k + 1, Next(s), e);
      LevelCounts(k + 1, Next(s), e);
      LevelRestIs(k, left, s, e, r);
      LevelRestCounts(k, Binary(left, OrStub(r.tree), s[0].op), r.rest, r.errors + Missing(r.tree));
    }
  }

  lemma {:induction false} TermCounts(s: seq<Token>, e: nat)
    ensures var r := Term(s, e); Counted(r, e, OrNothing(r.tree))
    decreases |s|, 14
  {
    if IsSign(Cur(s)) {
      PlusCounts(false, s, e);
    } else if Cur(s).TokNot? {
      NotCounts(false, s, e);
    } else {
      PowerCounts(s, e);
    }
  }

  lemma {:induction false} PlusCounts(minus: bool, s: seq<Token>, e: nat)
    ensures var r := UnaryPlus(minus, s, e); Counted(r, e, Sound(r.tree))
    decreases |s|, 13
  {
    if IsSign(Cur(s)) {
      PlusCounts(minus != (Cur(s) == TokOp(OpMinus)), Next(s), e);
    } else {
      PowerCounts(s, e);
    }
  }

  lemma {:induction false} NotCounts(odd: bool, s: seq<Token>, e: nat)
    ensures var r := UnaryNot(odd, s, e); Counted(r, e, Sound(r.tree))
    decreases |s|, 13
  {
    if Cur(s).TokNot? {
      NotCounts(!odd, Next(s), e);
    } else {
      PowerCounts(s, e);
    }
  }

  lemma {:induction false} PowerCounts(s: seq<Token>, e: nat)
    ensures var r := Power(s, e); Counted(r, e, Sound(r.tree))
    decreases |s|, 12
  {
    var l := Concatenation(s, e);
    ConcatenationCounts(s, e);
    if !l.tree.Null? && Cur(l.rest) == TokOp(OpPow) {
      PowerIs(s, e, l);
      PowerCounts(Next(l.rest), l.errors);
    }
  }

  lemma {:induction false} ConcatenationCounts(s: seq<Token>, e: nat)
    ensures var r := Concatenation(s, e); Counted(r, e, Sound(r.tree))
    decreases |s|, 11
  {
    var l := Factor(s, e);
    FactorCounts(s, e);
    if !l.tree.Null? {
      ConcatenationRestCounts(l.tree, l.rest, l.errors);
    }
  }

  lemma {:induction false} ConcatenationRestCounts(left: Tree, s: seq<Token>, e: nat)
    ensures var r := ConcatenationRest(left, s, e); Counted(r, e, Sound(left) ==> Sound(r.tree))
    decreases |s|, 10
  {
    if StartsFactor(Cur(s)) {
      FactorCounts(s, e);
      NextFactorCounts(left, s, e, Factor(s, e), OpStrConcat);
    } else if Cur(s).TokHash? {
      FactorCounts(Next(s), e);
      NextFactorCounts(left, s, e, Factor(Next(s), e), OpOctConcat);
    }
  }

  lemma {:induction false} NextFactorCounts(left: Tree, s: seq<Token>, e: nat, r: Parsed, op: Opcode)
    requires if Cur(s).TokHash? then r == Factor(Next(s), e) else StartsFactor(Cur(s)) && r == Factor(s, e)
    requires op == (if Cur(s).TokHash? then OpOctConcat else OpStrConcat) && Counted(r, e, Sound(r.tree))
    requires |r.rest| < |s|
    ensures var all := ConcatenationRest(left, s, e); Counted(all, e, Sound(left) ==> Sound(all.tree))
    decreases |s|, 0
  {
    ConcatenationRestIs(left, s, e, r, op);
    ConcatenationRestCounts(Binary(left, OrStub(r.tree), op), r.rest, r.errors + Missing(r.tree));
    OneMore(left, r, op, e, ConcatenationRest(left, s, e));
  }

  lemma OneMore(left: Tree, r: Parsed, op: Opcode, e: nat, all: Parsed)
    requires Counted(r, e, Sound(r.tree))
    requires Counted(all, r.errors + Missing(r.tree), Sound(Binary(left, OrStub(r.tree), op)) ==> Sound(all.tree))
    ensures Counted(all, e, Sound(left) ==> Sound(all.tree))
  {
  }

  /** A group can only be missing before an end of line, which is no `)`. */
  lemma {:induction false} NothingBeforeEnd(k: nat, s: seq<Token>, e: nat)
    requires k <= TERM && Level(k, s, e).tree.Null? && Level(k, s, e).errors == e
    ensures !Cur(Level(k, s, e).rest).TokRPar?
    decreases |s|, 60 - k
  {
    if k < TERM {
      var l := Level(k + 1, s, e);
      if l.tree.Null? {
        NothingBeforeEnd(k + 1, s, e);
      } else {
        LevelCounts(k + 1, s, e);
        LevelRestCounts(k, l.tree, l.rest, l.errors);
      }
    } else {
      var t := Cur(s);
      if !t.TokEol? && !t.TokSemicolon? && !t.TokEof? {
        SomethingThere(s, e);
      }
    }
  }

  lemma {:induction false} SomethingThere(s: seq<Token>, e: nat)
    requires !Cur(s).TokEol? && !Cur(s).TokSemicolon? && !Cur(s).TokEof?
    ensures var r := Term(s, e); Counted(r, e, !r.tree.Null?)
    decreases |s|, 15
  {
    if IsSign(Cur(s)) {
      PlusCounts(false, s, e);
    } else if Cur(s).TokNot? {
      NotCounts(false, s, e);
    } else {
      PowerCounts(s, e);
    }
  }

  lemma {:induction false} FactorCounts(s: seq<Token>, e: nat)
    ensures var r := Factor(s, e); Counted(r, e, Sound(r.tree))
    decreases |s|, 9
  {
    if Cur(s).TokLPar? {
      TrenaryCounts(Next(s), e);
      var t := TrenaryOp(Next(s), e);
      GroupIs(s, e, t);
      if t.tree.Null? && t.errors == e {
        GroupThere(Next(s), e);
      }
    } else if Cur(s).TokId? {
      IdentifierCounts(s[0].name, Next(s), e);
    }
  }

  lemma {:induction false} GroupThere(s: seq<Token>, e: nat)
    requires TrenaryOp(s, e).tree.Null? && TrenaryOp(s, e).errors == e
    ensures !Cur(TrenaryOp(s, e).rest).TokRPar?
    decreases |s|, 61
  {
    var c := Level(0, s, e);
    TrenaryIs(s, e, c);
    if c.tree.Null? {
      NothingBeforeEnd(0, s, e);
    } else if Cur(c.rest).TokQuestion? {
      LevelCounts(0, s, e);
      TernaryCounts(c.tree, Next(c.rest), c.errors);
    }
  }

  lemma {:induction false} IdentifierCounts(name: string, s: seq<Token>, e: nat)
    ensures var r := Identifier(name, s, e); Counted(r, e, Sound(r.tree))
    decreases |s|, 41
  {
    if Cur(s).TokLBracket? {
      AccessCounts(name, [], Next(s), e);
    } else if Cur(s).TokLPar? {
      CallCounts(name, [], Next(s), e);
    }
  }

  lemma {:induction false} CallCounts(name: string, args: seq<Tree>, s: seq<Token>, e: nat)
    requires AllSound(args)
    ensures var r := FunctionCall(name, args, s, e); Counted(r, e, Sound(r.tree))
    decreases |s|, 40
  {
    if !Cur(s).TokRPar? {
      var t := Level(0, s, e);
      LevelCounts(0, s, e);
      if !t.tree.Null? && Cur(t.rest).TokComma? && t.errors == e {
        CallCounts(name, args + [t.tree], Next(t.rest), t.errors);
      } else if !t.tree.Null? && Cur(t.rest).TokComma? {
        CallGrows(name, args + [t.tree], Next(t.rest), t.errors);
      }
    }
  }

  lemma {:induction false} CallGrows(name: string, args: seq<Tree>, s: seq<Token>, e: nat)
    ensures FunctionCall(name, args, s, e).errors >= e
    decreases |s|, 40
  {
    if !Cur(s).TokRPar? {
      var t := Level(0, s, e);
      LevelCounts(0, s, e);
      if !t.tree.Null? && Cur(t.rest).TokComma? {
        CallGrows(name, args + [t.tree], Next(t.rest), t.errors);
      }
    }
  }

  lemma {:induction false} AccessCounts(name: string, ind: seq<Tree>, s: seq<Token>, e: nat)
    requires AllSound(ind)
    ensures var r := ArrayAccess(name, ind, s, e); Counted(r, e, Sound(r.tree))
    decreases |s|, 40
  {
    var t := Level(0, s, e);
    LevelCounts(0, s, e);
    if !t.tree.Null? && Cur(t.rest).TokComma? && t.errors == e {
      AccessCounts(name, ind + [t.tree], Next(t.rest), t.errors);
    } else if !t.tree.Null? && Cur(t.rest).TokComma? {
      AccessGrows(name, ind + [t.tree], Next(t.rest), t.errors);
    }
  }

  lemma {:induction false} AccessGrows(name: string, ind: seq<Tree>, s: seq<Token>, e: nat)
    ensures ArrayAccess(name, ind, s, e).errors >= e
    decreases |s|, 40
  {
    var t := Level(0, s, e);
    LevelCounts(0, s, e);
    if !t.tree.Null? && Cur(t.rest).TokComma? {
      AccessGrows(name, ind + [t.tree], Next(t.rest), t.errors);
    }
  }

  /** A missing item gives NULL, for the caller to count. */
  lemma {:induction false} ArrayInitCounts(items: seq<Tree>, s: seq<Token>, e: nat)
    requires AllSound(items)
    ensures var r := ArrayInit(items, s, e); Counted(r, e, r.tree.Null? || SoundItem(r.tree))
    decreases |s|, 40
  {
    var t := Level(0, s, e);
    LevelCounts(0, s, e);
    if !t.tree.Null? && Cur(t.rest).TokComma? && t.errors == e {
      ArrayInitCounts(items + [t.tree], Next(t.rest), t.errors);
    } else if !t.tree.Null? && Cur(t.rest).TokComma? {
      ArrayInitGrows(items + [t.tree], Next(t.rest), t.errors);
    }
  }

  lemma {:induction false} ArrayInitGrows(items: seq<Tree>, s: seq<Token>, e: nat)
    ensures ArrayInit(items, s, e).errors >= e
    decreases |s|, 40
  {
    var t := Level(0, s, e);
    LevelCounts(0, s, e);
    if !t.tree.Null? && Cur(t.rest).TokComma? {
      ArrayInitGrows(items + [t.tree], Next(t.rest), t.errors);
    }
  }

  // ----- statements -----

  /** Errors are never taken back. */
  lemma {:induction false} StatementGrows(s: seq<Token>, e: nat, ctx: Ctx)
    ensures Statement(s, e, ctx).errors >= e
    decreases |s|, 1
  {
    StatementIs(s, e, ctx);
    JumpIs(s, e, ctx);
    LastCasesIs(s, e, ctx);
    if Cur(s).TokLBrace? {
      ScopeGrows(Next(s), e, ctx);
    } else if Cur(s).TokIf? {
      IfGrows(Next(s), e, ctx);
    } else if Cur(s).TokFor? {
      ForGrows(Next(s), e, ctx);
    } else if Cur(s).TokWhile? {
      WhileGrows(Next(s), e, ctx);
    } else if Cur(s).TokDo? {
      DoGrows(Next(s), e, ctx);
    } else if Cur(s).TokDel? {
      if Cur(Next(s)).TokId? {
        IdentifierCounts(Next(s)[0].name, Next(Next(s)), e);
      }
    } else {
      ExprCounts(s, e);
    }
  }

  lemma {:induction false} BlockGrows(done: seq<Tree>, s: seq<Token>, e: nat, ctx: Ctx)
    ensures Block(done, s, e, ctx).errors >= e
    decreases |s|, 2
  {
    if s != [] && !Cur(s).TokRBrace? {
      var t := Statement(s, e, ctx);
      StatementGrows(s, e, ctx);
      if t.errors == 0 && StmtEnd(Cur(t.rest)) {
        BlockGrows(if t.tree.Null? then done else done + [t.tree], Next(t.rest), t.errors, ctx);
      }
    }
  }

  lemma {:induction false} ScopeGrows(s: seq<Token>, e: nat, ctx: Ctx)
    ensures var r := ProcessScope(s, e, ctx); r.errors >= e && (e == 0 ==> Counted(r, e, r.tree.Scope?))
    decreases |s|, 3
  {
    BlockGrows([], s, e, ctx);
  }

  lemma {:induction false} BodyGrows(s: seq<Token>, e: nat, ctx: Ctx)
    ensures Body(s, e, ctx).errors >= e
    decreases |s|, 4
  {
    if Cur(s).TokLBrace? {
      ScopeGrows(Next(s), e, ctx);
    } else {
      StatementGrows(SkipEol(s), e, ctx);
    }
  }

  lemma {:induction false} IfGrows(s: seq<Token>, e: nat, ctx: Ctx)
    ensures var r := ProcessIf(s, e, ctx); Counted(r, e, r.tree.If? && Sound(r.tree.cond))
    decreases |s|, 6
  {
    var c := Level(0, Next(s), e);
    if Cur(s).TokLPar? {
      LevelCounts(0, Next(s), e);
      if !c.tree.Null? && Cur(c.rest).TokRPar? {
        var b := Body(Next(c.rest), c.errors, ctx);
        BodyGrows(Next(c.rest), c.errors, ctx);
        if b.errors == 0 {
          ElseGrows(c.tree, b.tree, b.rest, b.errors, ctx);
        }
      }
    }
  }

  lemma {:induction false} ElseGrows(cond: Tree, body: Tree, s: seq<Token>, e: nat, ctx: Ctx)
    ensures var r := IfElse(cond, body, s, e, ctx); Counted(r, e, r.tree.If? && r.tree.cond == cond)
    decreases |s|, 4
  {
    if Cur(SkipEol(s)).TokElse? {
      var s' := SkipEol(Next(SkipEol(s)));
      StatementGrows(s', e, ctx);
      ElseIs(cond, body, s, e, ctx, Statement(s', e, ctx));
    } else {
      NoElseIs(cond, body, s, e, ctx);
    }
  }

  lemma {:induction false} ForGrows(s: seq<Token>, e: nat, ctx: Ctx)
    ensures ProcessFor(s, e, ctx).errors >= e
    decreases |s|, 8
  {
    var e1 := Expr(Next(s), e);
    if Cur(s).TokLPar? {
      ExprCounts(Next(s), e);
      if Cur(e1.rest).TokSemicolon? {
        var e2 := Level(0, Next(e1.rest), e1.errors);
        LevelCounts(0, Next(e1.rest), e1.errors);
        if Cur(e2.rest).TokSemicolon? {
          StepGrows(e1.tree, e2.tree, Next(e2.rest), e2.errors, ctx);
        }
      }
    }
  }

  lemma {:induction false} StepGrows(init: Tree, cond: Tree, s: seq<Token>, e: nat, ctx: Ctx)
    ensures ForStep(init, cond, s, e, ctx).errors >= e
    decreases |s|, 7
  {
    var step := if Cur(s).TokRPar? then Parsed(Null, s, e) else Expr(s, e);
    ForStepIs(init, cond, s, e, ctx, step);
    ExprCounts(s, e);
    if Cur(step.rest).TokRPar? {
      var b := Body(Next(step.rest), step.errors, Deeper(ctx));
      BodyGrows(Next(step.rest), step.errors, Deeper(ctx));
      ForBodyIs(init, cond, step.tree, Next(step.rest), step.errors, ctx, b);
    }
  }

  lemma {:induction false} WhileGrows(s: seq<Token>, e: nat, ctx: Ctx)
    ensures ProcessWhile(s, e, ctx).errors >= e
    decreases |s|, 5
  {
    var c := Level(0, Next(s), e);
    if Cur(s).TokLPar? {
      LevelCounts(0, Next(s), e);
      if Cur(c.rest).TokRPar? {
        BodyGrows(Next(c.rest), c.errors, Deeper(ctx));
      }
    }
  }

  lemma {:induction false} DoGrows(s: seq<Token>, e: nat, ctx: Ctx)
    ensures ProcessDo(s, e, ctx).errors >= e
    decreases |s|, 5
  {
    var b := Body(s, e, Deeper(ctx));
    BodyGrows(s, e, Deeper(ctx));
    if b.errors == 0 {
      LevelCounts(0, Next(Next(SkipEol(b.rest))), b.errors);
    }
  }

  /** A statement that is no loop and no expression is what its first token says, or an error is counted: of `break`,
      `continue` and `return` exactly outside loops and functions. */
  lemma StatementCounts(s: seq<Token>, e: nat, ctx: Ctx)
    ensures var r := Statement(s, e, ctx);
            && (Cur(s).TokLBrace? && e == 0 ==> Counted(r, e, r.tree.Scope?))
            && (Cur(s).TokIf? ==> Counted(r, e, r.tree.If? && Sound(r.tree.cond)))
            && (Cur(s).TokDel? ==> Counted(r, e, r.tree.Del? && Sound(r.tree.target) && IsLvalue(r.tree.target)))
            && (Cur(s).TokBreak? ==> r.errors == e + (if ctx.cycle == 0 then 1 else 0))
            && (Cur(s).TokContinue? ==> r.errors == e + (if ctx.cycle == 0 then 1 else 0))
            && (Cur(s).TokReturn? ==> r.errors == e + (if ctx.func == 0 then 1 else 0))
  {
    StatementIs(s, e, ctx);
    JumpIs(s, e, ctx);
    LastCasesIs(s, e, ctx);
    if Cur(s).TokLBrace? {
      ScopeGrows(Next(s), e, ctx);
    } else if Cur(s).TokIf? {
      IfGrows(Next(s), e, ctx);
    } else if Cur(s).TokDel? && Cur(Next(s)).TokId? {
      IdentifierCounts(Next(s)[0].name, Next(Next(s)), e);
    }
  }

  /** But a loop that does not go on with its parenthesis is a stub, and no error is counted: the line is accepted. */
  lemma LoopsRefuseSilently(s: seq<Token>, ctx: Ctx)
    requires !Cur(s).TokLPar?
    ensures Statement([TokFor] + s, 0, ctx) == Statement([TokWhile] + s, 0, ctx) == Parsed(Stub, s, 0)
    ensures Statement([TokIf] + s, 0, ctx) == Parsed(Stub, s, 1)
  {
    StatementIs([TokFor] + s, 0, ctx);
    StatementIs([TokWhile] + s, 0, ctx);
    StatementIs([TokIf] + s, 0, ctx);
    assert Next([TokFor] + s) == Next([TokWhile] + s) == Next([TokIf] + s) == s;
  }
}
