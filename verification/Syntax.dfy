/** The expression grammar of src/syntax.c as functions on the tokens left and the errors counted. */
module Syntax {
  import opened Ast

  /** What a parsing function leaves: a tree, the tokens left, the error count. */
  datatype Parsed = Parsed(tree: Tree, rest: seq<Token>, errors: nat)

  function Cur(s: seq<Token>): Token {
    if s == [] then TokEof else s[0]
  }

  function Next(s: seq<Token>): (r: seq<Token>)
    ensures |r| == if s == [] then 0 else |s| - 1
  {
    if s == [] then [] else s[1..]
  }

  /** `sync_stream`: skips to the end of the line. */
  function Sync(s: seq<Token>): (r: seq<Token>)
    ensures |r| <= |s|
  {
    if s == [] || s[0] == TokEol then s else Sync(s[1..])
  }

  const TERM: nat := 10

  /** The operators of the ten left-associative levels, loosest first. */
  function LevelOf(op: Opcode): nat {
    match op
    case OpLOr => 0
    case OpLAnd => 1
    case OpBOr => 2
    case OpBXor => 3
    case OpBAnd => 4
    case OpEq | OpNeq => 5
    case OpGr | OpGe | OpLo | OpLe => 6
    case OpShl | OpShr => 7
    case OpPlus | OpMinus => 8
    case OpMul | OpDiv | OpMod => 9
    case _ => 10
  }

  predicate IsLevelOp(t: Token, k: nat) {
    t.TokOp? && LevelOf(t.op) == k
  }

  predicate IsSign(t: Token) {
    t == TokOp(OpPlus) || t == TokOp(OpMinus)
  }

  predicate StartsFactor(t: Token) {
    t.TokLPar? || t.TokId? || t.TokVar?
  }

  predicate IsLvalue(t: Tree) {
    t.Id? || t.Access?
  }

  predicate LvalueSeq(t: Tree) {
    t.Seq? && forall i :: 0 <= i < |t.items| ==> IsLvalue(t.items[i])
  }

  function OrStub(t: Tree): Tree {
    if t.Null? then Stub else t
  }

  function Missing(t: Tree): nat {
    if t.Null? then 1 else 0
  }

  /** `expr`. */
  function Expr(s: seq<Token>, e: nat): (r: Parsed)
    ensures |r.rest| <= |s|
    decreases |s|, 40
  {
    var t := TrenaryOp(s, e);
    if t.tree.Null? then t else
    match Cur(t.rest)
    case TokAs | TokComma => AssignExpr(t.tree, false, t.rest, t.errors)
    case TokOpAs(op) => OpWithAssign(t.tree, op, t.rest, t.errors)
    case _ => t
  }

  /** `op_with_assign`. */
  function OpWithAssign(node: Tree, op: Opcode, s: seq<Token>, e: nat): (r: Parsed)
    requires s != []
    ensures |r.rest| <= |s|
    decreases |s|, 39
  {
    if !IsLvalue(node) then Parsed(Stub, s, e + 1)
    else
      var right := TrenaryOp(Next(s), e);
      if right.tree.Null? then Parsed(Stub, right.rest, right.errors + 1)
      else Parsed(OpAssign(node, right.tree, op), right.rest, right.errors)
  }

  /** `get_rval`. */
  function GetRval(s: seq<Token>, e: nat): (r: Parsed)
    ensures |r.rest| <= |s|
    decreases |s|, 39
  {
    var t := if Cur(s).TokLBrace? then ArrayInit([], Next(s), e) else TrenaryOp(s, e);
    Parsed(t.tree, t.rest, t.errors + Missing(t.tree))
  }

  /** `get_seq`. */
  function GetSeq(items: seq<Tree>, s: seq<Token>, e: nat): (r: Parsed)
    ensures |r.rest| <= |s|
    decreases |s|, 37
  {
    if !Cur(s).TokComma? then Parsed(Seq(items), s, e)
    else
      var t := GetRval(Next(s), e);
      if t.tree.Null? || t.errors != 0 then Parsed(Null, t.rest, t.errors + 1)
      else GetSeq(items + [t.tree], t.rest, t.errors)
  }

  /** `assign`; the two errors that are reported but not counted are as in the program. */
  function AssignExpr(node: Tree, nested: bool, s: seq<Token>, e: nat): (r: Parsed)
    ensures |r.rest| <= |s|
    decreases |s|, 38
  {
    var l := GetSeq([node], s, e);
    if l.tree.Null? || l.errors != 0 then Parsed(Stub, l.rest, l.errors)
    else if !Cur(l.rest).TokAs? then (if nested then l else Parsed(Stub, l.rest, l.errors))
    else if !LvalueSeq(l.tree) then Parsed(Stub, Next(l.rest), l.errors)
    else AssignRight(l.tree, Next(l.rest))
  }

  /** The right side of an assignment, no error having been counted yet. */
  function AssignRight(left: Tree, s: seq<Token>): (r: Parsed)
    ensures |r.rest| <= |s|
    decreases |s|, 40
  {
    var t := GetRval(s, 0);
    if t.tree.Null? || t.errors != 0 then Parsed(Stub, t.rest, t.errors)
    else
      var r := AssignExpr(t.tree, true, t.rest, 0);
      if r.errors != 0 then Parsed(Stub, r.rest, r.errors) else Parsed(Assign(left, r.tree), r.rest, 0)
  }

  /** `trenary_op`. */
  function TrenaryOp(s: seq<Token>, e: nat): (r: Parsed)
    ensures |r.rest| <= |s|
    decreases |s|, 36
  {
    var c := Level(0, s, e);
    if c.tree.Null? || !Cur(c.rest).TokQuestion? then c else TernaryRest(c.tree, Next(c.rest), c.errors)
  }

  /** `trenary_op` after the question mark. */
  function TernaryRest(cond: Tree, s: seq<Token>, e: nat): (r: Parsed)
    ensures |r.rest| <= |s|
    decreases |s|, 41
  {
    var y := Expr(s, e);
    if !Cur(y.rest).TokColon? then Parsed(Stub, y.rest, y.errors + 1)
    else if y.tree.Null? || y.errors != 0 then Parsed(Stub, Next(y.rest), y.errors + 1)
    else
      var n := Expr(Next(y.rest), y.errors);
      if n.tree.Null? || n.errors != 0 then Parsed(Stub, n.rest, n.errors + 1)
      else Parsed(Ternary(cond, y.tree, n.tree), n.rest, n.errors)
  }

  /** `logic_or` (0) ... `mul_expr` (9), `term` (10). */
  function Level(k: nat, s: seq<Token>, e: nat): (r: Parsed)
    requires k <= TERM
    ensures |r.rest| <= |s|
    decreases |s|, 35 - 2 * k
  {
    if k == TERM then Term(s, e)
    else
      var l := Level(k + 1, s, e);
      if l.tree.Null? then l else LevelRest(k, l.tree, l.rest, l.errors)
  }

  /** The loops of `logic_or` ... `mul_expr_rest`. */
  function LevelRest(k: nat, left: Tree, s: seq<Token>, e: nat): (r: Parsed)
    requires k < TERM
    ensures |r.rest| <= |s|
    decreases |s|, 34 - 2 * k
  {
    if !IsLevelOp(Cur(s), k) then Parsed(left, s, e)
    else
      var r := Level(k + 1, Next(s), e);
      LevelRest(k, Binary(left, OrStub(r.tree), s[0].op), r.rest, r.errors + Missing(r.tree))
  }

  /** `term`. */
  function Term(s: seq<Token>, e: nat): (r: Parsed)
    ensures |r.rest| <= |s|
    decreases |s|, 14
  {
    var t := Cur(s);
    if t.TokEol? || t.TokSemicolon? || t.TokEof? then Parsed(Null, s, e)
    else if IsSign(t) then UnaryPlus(false, s, e)
    else if t.TokNot? then UnaryNot(false, s, e)
    else Power(s, e)
  }

  /** `unary_not`: only the parity of the signs counts. */
  function UnaryNot(odd: bool, s: seq<Token>, e: nat): (r: Parsed)
    ensures |r.rest| <= |s|
    decreases |s|, 13
  {
    if Cur(s).TokNot? then UnaryNot(!odd, Next(s), e)
    else
      var t := Power(s, e);
      Parsed(Unary(t.tree, if odd then OpNot else OpNotNot), t.rest, t.errors)
  }

  /** `unary_plus`. */
  function UnaryPlus(minus: bool, s: seq<Token>, e: nat): (r: Parsed)
    ensures |r.rest| <= |s|
    decreases |s|, 13
  {
    if IsSign(Cur(s)) then UnaryPlus(minus != (Cur(s) == TokOp(OpMinus)), Next(s), e)
    else
      var t := Power(s, e);
      Parsed(Unary(t.tree, if minus then OpMinus else OpPlus), t.rest, t.errors)
  }

  /** `power`. */
  function Power(s: seq<Token>, e: nat): (r: Parsed)
    ensures |r.rest| <= |s|
    decreases |s|, 12
  {
    var l := Concatenation(s, e);
    if l.tree.Null? || Cur(l.rest) != TokOp(OpPow) then l
    else
      var r := Power(Next(l.rest), l.errors);
      Parsed(Binary(l.tree, OrStub(r.tree), OpPow), r.rest, r.errors + Missing(r.tree))
  }

  /** `concatenation`. */
  function Concatenation(s: seq<Token>, e: nat): (r: Parsed)
    ensures |r.rest| <= |s|
    decreases |s|, 11
  {
    var l := Factor(s, e);
    if l.tree.Null? then l else ConcatenationRest(l.tree, l.rest, l.errors)
  }

  /** The loop of `concatenation`. */
  function ConcatenationRest(left: Tree, s: seq<Token>, e: nat): (r: Parsed)
    ensures |r.rest| <= |s|
    decreases |s|, 10
  {
    if StartsFactor(Cur(s)) then
      var r := Factor(s, e);
      ConcatenationRest(Binary(left, OrStub(r.tree), OpStrConcat), r.rest, r.errors + Missing(r.tree))
    else if Cur(s).TokHash? then
      var r := Factor(Next(s), e);
      ConcatenationRest(Binary(left, OrStub(r.tree), OpOctConcat), r.rest, r.errors + Missing(r.tree))
    else Parsed(left, s, e)
  }

  /** `factor`. */
  function Factor(s: seq<Token>, e: nat): (r: Parsed)
    ensures |r.rest| <= |s| && (StartsFactor(Cur(s)) ==> |r.rest| < |s|)
    decreases |s|, 9
  {
    match Cur(s)
    case TokLPar =>
      var t := TrenaryOp(Next(s), e);
      if Cur(t.rest).TokRPar? then Parsed(t.tree, Next(t.rest), t.errors) else Parsed(t.tree, t.rest, t.errors + 1)
    case TokId(name) => Identifier(name, Next(s), e)
    case TokVar(v) => Parsed(Var(v), Next(s), e)
    case _ => Parsed(Stub, Sync(s), e + 1)
  }

  /** `identifier`. */
  function Identifier(name: string, s: seq<Token>, e: nat): (r: Parsed)
    ensures |r.rest| <= |s|
    decreases |s|, 41
  {
    match Cur(s)
    case TokLBracket => ArrayAccess(name, [], Next(s), e)
    case TokLPar => FunctionCall(name, [], Next(s), e)
    case _ => Parsed(Id(name), s, e)
  }

  /** `function_call`, after the parenthesis. */
  function FunctionCall(name: string, args: seq<Tree>, s: seq<Token>, e: nat): (r: Parsed)
    ensures |r.rest| <= |s|
    decreases |s|, 40
  {
    if Cur(s).TokRPar? then Parsed(Call(name, args), Next(s), e)
    else
      var t := Level(0, s, e);
      if t.tree.Null? then Parsed(Stub, t.rest, t.errors + 1)
      else if Cur(t.rest).TokComma? then FunctionCall(name, args + [t.tree], Next(t.rest), t.errors)
      else if Cur(t.rest).TokRPar? then Parsed(Call(name, args + [t.tree]), Next(t.rest), t.errors)
      else Parsed(Stub, t.rest, t.errors + 1)
  }

  /** `array_access`, after the bracket. */
  function ArrayAccess(name: string, ind: seq<Tree>, s: seq<Token>, e: nat): (r: Parsed)
    ensures |r.rest| <= |s|
    decreases |s|, 40
  {
    var t := Level(0, s, e);
    if t.tree.Null? then Parsed(Stub, t.rest, t.errors + 1)
    else if Cur(t.rest).TokComma? then ArrayAccess(name, ind + [t.tree], Next(t.rest), t.errors)
    else if Cur(t.rest).TokRBracket? then Parsed(Access(name, ind + [t.tree]), Next(t.rest), t.errors)
    else Parsed(Stub, t.rest, t.errors + 1)
  }

  /** `array_init`, after the brace. */
  function ArrayInit(items: seq<Tree>, s: seq<Token>, e: nat): (r: Parsed)
    ensures |r.rest| <= |s|
    decreases |s|, 40
  {
    var t := Level(0, s, e);
    if t.tree.Null? then Parsed(Null, Sync(t.rest), t.errors)
    else if Cur(t.rest).TokComma? then ArrayInit(items + [t.tree], Next(t.rest), t.errors)
    else if Cur(t.rest).TokRBrace? then Parsed(Arr(items + [t.tree]), Next(t.rest), t.errors)
    else Parsed(Null, Sync(t.rest), t.errors)
  }

  // ----- one round of the loops above, given what they call -----

  lemma LevelRestIs(k: nat, left: Tree, s: seq<Token>, e: nat, r: Parsed)
    requires k < TERM && IsLevelOp(Cur(s), k) && r == Level(k + 1, Next(s), e)
    ensures LevelRest(k, left, s, e)
         == LevelRest(k, Binary(left, if r.tree.Null? then Stub else r.tree, Cur(s).op), r.rest,
                      r.errors + (if r.tree.Null? then 1 else 0))
  {
  }

  lemma ConcatenationRestIs(left: Tree, s: seq<Token>, e: nat, r: Parsed, op: Opcode)
    requires if Cur(s).TokHash? then r == Factor(Next(s), e) else StartsFactor(Cur(s)) && r == Factor(s, e)
    requires op == if Cur(s).TokHash? then OpOctConcat else OpStrConcat
    ensures ConcatenationRest(left, s, e)
         == if r.tree.Null? then ConcatenationRest(Binary(left, Stub, op), r.rest, r.errors + 1)
            else ConcatenationRest(Binary(left, r.tree, op), r.rest, r.errors)
  {
  }

  lemma AssignIs(node: Tree, nested: bool, s: seq<Token>, e: nat, l: Parsed)
    requires l == GetSeq([node], s, e)
    ensures l.tree.Null? || l.errors != 0 ==> AssignExpr(node, nested, s, e) == Parsed(Stub, l.rest, l.errors)
    ensures !l.tree.Null? && l.errors == 0 && !Cur(l.rest).TokAs? ==>
              AssignExpr(node, nested, s, e) == if nested then l else Parsed(Stub, l.rest, l.errors)
    ensures !l.tree.Null? && l.errors == 0 && Cur(l.rest).TokAs? ==>
              AssignExpr(node, nested, s, e)
              == if LvalueSeq(l.tree) then AssignRight(l.tree, Next(l.rest)) else Parsed(Stub, Next(l.rest), 0)
  {
  }

  lemma GroupIs(s: seq<Token>, e: nat, t: Parsed)
    requires Cur(s).TokLPar? && t == TrenaryOp(Next(s), e)
    ensures Factor(s, e)
         == if Cur(t.rest).TokRPar? then Parsed(t.tree, Next(t.rest), t.errors)
            else Parsed(t.tree, t.rest, t.errors + 1)
  {
  }

  lemma ArrayAccessIs(name: string, ind: seq<Tree>, s: seq<Token>, e: nat, t: Parsed)
    requires t == Level(0, s, e)
    ensures ArrayAccess(name, ind, s, e)
         == if t.tree.Null? then Parsed(Stub, t.rest, t.errors + 1)
            else if Cur(t.rest).TokComma? then ArrayAccess(name, ind + [t.tree], Next(t.rest), t.errors)
            else if Cur(t.rest).TokRBracket? then Parsed(Access(name, ind + [t.tree]), Next(t.rest), t.errors)
            else Parsed(Stub, t.rest, t.errors + 1)
  {
  }

  lemma PowerIs(s: seq<Token>, e: nat, l: Parsed)
    requires l == Concatenation(s, e) && !l.tree.Null? && Cur(l.rest) == TokOp(OpPow)
    ensures var r := Power(Next(l.rest), l.errors);
            Power(s, e)
            == if r.tree.Null? then Parsed(Binary(l.tree, Stub, OpPow), r.rest, r.errors + 1)
               else Parsed(Binary(l.tree, r.tree, OpPow), r.rest, r.errors)
  {
  }

  lemma TrenaryIs(s: seq<Token>, e: nat, c: Parsed)
    requires c == Level(0, s, e)
    ensures TrenaryOp(s, e)
         == if c.tree.Null? || !Cur(c.rest).TokQuestion? then c else TernaryRest(c.tree, Next(c.rest), c.errors)
  {
  }
}
