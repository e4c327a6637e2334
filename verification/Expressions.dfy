/** What the expression functions of src/syntax.c build, whatever the tokens: expressions and assignments of the
    grammar, with stubs where there was an error, and no statement anywhere in them. */
module Expressions {
  import opened Ast
  import opened Syntax

  // ----- the trees -----

  /** An expression, in which parts may be stubs or missing. */
  predicate Shaped(t: Tree)
    decreases t, 0
  {
    match t
    case Null | Stub | Id(_) | Var(_) => true
    case Unary(e, op) => op in {OpPlus, OpMinus, OpNot, OpNotNot} && Shaped(e)
    case Binary(l, r, op) => op != OpNot && op != OpNotNot && Shaped(l) && Shaped(r)
    case Ternary(c, y, n) => Shaped(c) && ShapedExpr(y) && ShapedExpr(n)
    case Call(_, args) => forall i :: 0 <= i < |args| ==> Shaped(args[i])
    case Access(_, ind) => ind != [] && forall i :: 0 <= i < |ind| ==> Shaped(ind[i])
    case _ => false
  }

  predicate AllShaped(ts: seq<Tree>)
    decreases ts, 0
  {
    forall i :: 0 <= i < |ts| ==> Shaped(ts[i])
  }

  /** An expression or an assignment. */
  predicate ShapedExpr(t: Tree)
    decreases t, 3
  {
    match t
    case Assign(l, r) => LvalueSeq(l) && ShapedList(l) && ShapedRight(r)
    case OpAssign(l, r, _) => IsLvalue(l) && Shaped(l) && Shaped(r)
    case _ => Shaped(t)
  }

  predicate ShapedRight(t: Tree)
    decreases t, 3
  {
    if t.Assign? then LvalueSeq(t.left) && ShapedList(t.left) && ShapedRight(t.right) else t.Stub? || ShapedList(t)
  }

  predicate ShapedList(t: Tree)
    decreases t, 2
  {
    t.Null? || (t.Seq? && t.items != [] && forall i :: 0 <= i < |t.items| ==> ShapedItem(t.items[i]))
  }

  predicate ShapedItem(t: Tree)
    decreases t, 1
  {
    match t
    case Arr(items) => items != [] && forall i :: 0 <= i < |items| ==> Shaped(items[i])
    case _ => Shaped(t)
  }

  predicate AllItems(ts: seq<Tree>) {
    forall i :: 0 <= i < |ts| ==> ShapedItem(ts[i])
  }

  // ----- what is built -----

  lemma {:induction false} ExprShaped(s: seq<Token>, e: nat)
    ensures ShapedExpr(Expr(s, e).tree)
    decreases |s|, 40
  {
    var t := TrenaryOp(s, e);
    TrenaryShaped(s, e);
    match Cur(t.rest)
    case TokAs | TokComma => AssignShaped(t.tree, false, t.rest, t.errors);
    case TokOpAs(op) => TrenaryShaped(Next(t.rest), t.errors);
    case _ =>
  }

  lemma {:induction false} RvalShaped(s: seq<Token>, e: nat)
    ensures ShapedItem(GetRval(s, e).tree)
    decreases |s|, 39
  {
    if Cur(s).TokLBrace? {
      ArrayInitShaped([], Next(s), e);
    } else {
      TrenaryShaped(s, e);
    }
  }

  lemma {:induction false} SeqShaped(items: seq<Tree>, s: seq<Token>, e: nat)
    requires AllItems(items) && items != []
    ensures ShapedList(GetSeq(items, s, e).tree)
    decreases |s|, 37
  {
    if Cur(s).TokComma? {
      var t := GetRval(Next(s), e);
      RvalShaped(Next(s), e);
      SeqShaped(items + [t.tree], t.rest, t.errors);
    }
  }

  lemma {:induction false} AssignShaped(node: Tree, nested: bool, s: seq<Token>, e: nat)
    requires ShapedItem(node)
    ensures ShapedRight(AssignExpr(node, nested, s, e).tree)
    ensures !nested ==> ShapedExpr(AssignExpr(node, nested, s, e).tree)
    decreases |s|, 38
  {
    var l := GetSeq([node], s, e);
    SeqShaped([node], s, e);
    AssignIs(node, nested, s, e, l);
    if Cur(l.rest).TokAs? && LvalueSeq(l.tree) {
      AssignRightShaped(l.tree, Next(l.rest));
    }
  }

  lemma {:induction false} AssignRightShaped(left: Tree, s: seq<Token>)
    requires LvalueSeq(left) && ShapedList(left)
    ensures ShapedRight(AssignRight(left, s).tree) && ShapedExpr(AssignRight(left, s).tree)
    decreases |s|, 40
  {
    var t := GetRval(s, 0);
    RvalShaped(s, 0);
    AssignShaped(t.tree, true, t.rest, 0);
  }

  lemma {:induction false} TrenaryShaped(s: seq<Token>, e: nat)
    ensures Shaped(TrenaryOp(s, e).tree)
    decreases |s|, 36
  {
    var c := Level(0, s, e);
    LevelShaped(0, s, e);
    TrenaryIs(s, e, c);
    if Cur(c.rest).TokQuestion? {
      TernaryShaped(c.tree, Next(c.rest), c.errors);
    }
  }

  lemma {:induction false} TernaryShaped(cond: Tree, s: seq<Token>, e: nat)
    requires Shaped(cond)
    ensures Shaped(TernaryRest(cond, s, e).tree)
    decreases |s|, 41
  {
    var y := Expr(s, e);
    ExprShaped(s, e);
    if Cur(y.rest).TokColon? {
      ExprShaped(Next(y.rest), y.errors);
    }
  }

  lemma {:induction false} LevelShaped(k: nat, s: seq<Token>, e: nat)
    requires k <= TERM
    ensures Shaped(Level(k, s, e).tree)
    decreases |s|, 35 - 2 * k
  {
    if k < TERM {
      var l := Level(k + 1, s, e);
      LevelShaped(k + 1, s, e);
      LevelRestShaped(k, l.tree, l.rest, l.errors);
    } else {
      TermShaped(s, e);
    }
  }

  lemma {:induction false} TermShaped(s: seq<Token>, e: nat)
    ensures Shaped(Term(s, e).tree)
    decreases |s|, 14
  {
    if IsSign(Cur(s)) {
      PlusShaped(false, s, e);
    } else if Cur(s).TokNot? {
      NotShaped(false, s, e);
    } else {
      PowerShaped(s, e);
    }
  }

  lemma {:induction false} LevelRestShaped(k: nat, left: Tree, s: seq<Token>, e: nat)
    requires k < TERM && Shaped(left)
    ensures Shaped(LevelRest(k, left, s, e).tree)
    decreases |s|, 34 - 2 * k
  {
    if IsLevelOp(Cur(s), k) {
      var r := Level(k + 1, Next(s), e);
      LevelShaped(k + 1, Next(s), e);
      LevelRestShaped(k, Binary(left, OrStub(r.tree), s[0].op), r.rest, r.errors + Missing(r.tree));
    }
  }

  lemma {:induction false} PlusShaped(minus: bool, s: seq<Token>, e: nat)
    ensures Shaped(UnaryPlus(minus, s, e).tree)
    decreases |s|, 13
  {
    if IsSign(Cur(s)) {
      PlusShaped(minus != (Cur(s) == TokOp(OpMinus)), Next(s), e);
    } else {
      PowerShaped(s, e);
    }
  }

  lemma {:induction false} NotShaped(odd: bool, s: seq<Token>, e: nat)
    ensures Shaped(UnaryNot(odd, s, e).tree)
    decreases |s|, 13
  {
    if Cur(s).TokNot? {
      NotShaped(!odd, Next(s), e);
    } else {
      PowerShaped(s, e);
    }
  }

  lemma {:induction false} PowerShaped(s: seq<Token>, e: nat)
    ensures Shaped(Power(s, e).tree)
    decreases |s|, 12
  {
    var l := Concatenation(s, e);
    ConcatenationShaped(s, e);
    if !l.tree.Null? && Cur(l.rest) == TokOp(OpPow) {
      PowerIs(s, e, l);
      PowerShaped(Next(l.rest), l.errors);
    }
  }

  lemma {:induction false} ConcatenationShaped(s: seq<Token>, e: nat)
    ensures Shaped(Concatenation(s, e).tree)
    decreases |s|, 11
  {
    var l := Factor(s, e);
    FactorShaped(s, e);
    ConcatenationRestShaped(l.tree, l.rest, l.errors);
  }

  lemma {:induction false} ConcatenationRestShaped(left: Tree, s: seq<Token>, e: nat)
    requires Shaped(left)
    ensures Shaped(ConcatenationRest(left, s, e).tree)
    decreases |s|, 10
  {
    if StartsFactor(Cur(s)) {
      var r := Factor(s, e);
      FactorShaped(s, e);
      ConcatenationRestShaped(Binary(left, OrStub(r.tree), OpStrConcat), r.rest, r.errors + Missing(r.tree));
    } else if Cur(s).TokHash? {
      var r := Factor(Next(s), e);
      FactorShaped(Next(s), e);
      ConcatenationRestShaped(Binary(left, OrStub(r.tree), OpOctConcat), r.rest, r.errors + Missing(r.tree));
    }
  }

  lemma {:induction false} FactorShaped(s: seq<Token>, e: nat)
    ensures Shaped(Factor(s, e).tree)
    decreases |s|, 9
  {
    if Cur(s).TokLPar? {
      TrenaryShaped(Next(s), e);
    } else if Cur(s).TokId? {
      IdentifierShaped(s[0].name, Next(s), e);
    }
  }

  lemma {:induction false} IdentifierShaped(name: string, s: seq<Token>, e: nat)
    ensures Shaped(Identifier(name, s, e).tree)
    decreases |s|, 41
  {
    if Cur(s).TokLBracket? {
      AccessShaped(name, [], Next(s), e);
    } else if Cur(s).TokLPar? {
      CallShaped(name, [], Next(s), e);
    }
  }

  lemma {:induction false} CallShaped(name: string, args: seq<Tree>, s: seq<Token>, e: nat)
    requires AllShaped(args)
    ensures Shaped(FunctionCall(name, args, s, e).tree)
    decreases |s|, 40
  {
    if !Cur(s).TokRPar? {
      var t := Level(0, s, e);
      LevelShaped(0, s, e);
      assert AllShaped(args + [t.tree]);
      if Cur(t.rest).TokComma? {
        CallShaped(name, args + [t.tree], Next(t.rest), t.errors);
      }
    }
  }

  lemma {:induction false} AccessShaped(name: string, ind: seq<Tree>, s: seq<Token>, e: nat)
    requires AllShaped(ind)
    ensures Shaped(ArrayAccess(name, ind, s, e).tree)
    decreases |s|, 40
  {
    var t := Level(0, s, e);
    LevelShaped(0, s, e);
    assert AllShaped(ind + [t.tree]);
    if Cur(t.rest).TokComma? {
      AccessShaped(name, ind + [t.tree], Next(t.rest), t.errors);
    }
  }

  lemma {:induction false} ArrayInitShaped(items: seq<Tree>, s: seq<Token>, e: nat)
    requires AllShaped(items)
    ensures ShapedItem(ArrayInit(items, s, e).tree)
    decreases |s|, 40
  {
    var t := Level(0, s, e);
    LevelShaped(0, s, e);
    assert AllShaped(items + [t.tree]);
    if Cur(t.rest).TokComma? {
      ArrayInitShaped(items + [t.tree], Next(t.rest), t.errors);
    }
  }

  // ----- no statements in them -----

  lemma {:induction false} ShapedIsExpression(t: Tree)
    requires Shaped(t)
    ensures IsExpression(t)
    decreases t, 0
  {
    match t
    case Unary(e, _) => ShapedIsExpression(e);
    case Binary(l, r, _) => ShapedIsExpression(l); ShapedIsExpression(r);
    case Ternary(c, y, n) =>
      ShapedIsExpression(c);
      ShapedExprIsExpression(y);
      ShapedExprIsExpression(n);
    case Call(_, args) => forall i | 0 <= i < |args| ensures IsExpression(args[i]) { ShapedIsExpression(args[i]); }
    case Access(_, ind) => forall i | 0 <= i < |ind| ensures IsExpression(ind[i]) { ShapedIsExpression(ind[i]); }
    case _ =>
  }

  lemma {:induction false} ShapedItemIsExpression(t: Tree)
    requires ShapedItem(t)
    ensures IsExpression(t)
    decreases t, 1
  {
    if t.Arr? {
      forall i | 0 <= i < |t.items| ensures IsExpression(t.items[i]) { ShapedIsExpression(t.items[i]); }
    } else {
      ShapedIsExpression(t);
    }
  }

  lemma {:induction false} ShapedListIsExpression(t: Tree)
    requires ShapedList(t)
    ensures IsExpression(t)
    decreases t, 2
  {
    if t.Seq? {
      forall i | 0 <= i < |t.items| ensures IsExpression(t.items[i]) { ShapedItemIsExpression(t.items[i]); }
    }
  }

  lemma {:induction false} ShapedRightIsExpression(t: Tree)
    requires ShapedRight(t)
    ensures IsExpression(t)
    decreases t, 3
  {
    if t.Assign? {
      ShapedListIsExpression(t.left);
      ShapedRightIsExpression(t.right);
    } else if !t.Stub? {
      ShapedListIsExpression(t);
    }
  }

  lemma {:induction false} ShapedExprIsExpression(t: Tree)
    requires ShapedExpr(t)
    ensures IsExpression(t)
    decreases t, 3
  {
    if t.Assign? {
      ShapedListIsExpression(t.left);
      ShapedRightIsExpression(t.right);
    } else if t.OpAssign? {
      ShapedIsExpression(t.left);
      ShapedIsExpression(t.right);
    } else {
      ShapedIsExpression(t);
    }
  }

  /** Whatever the tokens, `expr` builds expressions only. */
  lemma ExprShape(s: seq<Token>, e: nat)
    ensures IsExpression(Expr(s, e).tree)
  {
    ExprShaped(s, e);
    ShapedExprIsExpression(Expr(s, e).tree);
  }

  lemma LevelShape(k: nat, s: seq<Token>, e: nat)
    requires k <= TERM
    ensures IsExpression(Level(k, s, e).tree)
  {
    LevelShaped(k, s, e);
    ShapedIsExpression(Level(k, s, e).tree);
  }

  lemma IdentifierShape(name: string, s: seq<Token>, e: nat)
    ensures IsExpression(Identifier(name, s, e).tree)
  {
    IdentifierShaped(name, s, e);
    ShapedIsExpression(Identifier(name, s, e).tree);
  }
}
