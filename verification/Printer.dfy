/** Printing expression trees, with parentheses where an operand binds looser than its place or a name would touch
    a `(`, and why the parser gives back the tree that was printed. */
module Printer {
  import opened Ast
  import opened Syntax

  // What a parsing function accepts without parentheses: trenary_op 0, the levels 1 to 10, term 11,
  // power 12, concatenation 13, factor 14.
  const POWER: nat := 12
  const CONCATENATION: nat := 13
  const FACTOR: nat := 14

  predicate Printable(t: Tree)
    decreases t, 0
  {
    match t
    case Id(_) | Var(_) => true
    case Binary(l, r, op) => op != OpNot && op != OpNotNot && Printable(l) && Printable(r)
    case Unary(e, op) => op in {OpPlus, OpMinus, OpNot, OpNotNot} && Printable(e)
    case Ternary(c, y, n) => Printable(c) && PrintableExpr(y) && PrintableExpr(n)
    case Call(_, args) => forall i :: 0 <= i < |args| ==> Printable(args[i])
    case Access(_, ind) => ind != [] && forall i :: 0 <= i < |ind| ==> Printable(ind[i])
    case _ => false
  }

  /** What `expr` builds: an expression, or an assignment to names and elements. */
  predicate PrintableExpr(t: Tree)
    decreases t, 3
  {
    match t
    case Assign(l, r) => LvalueSeq(l) && PrintableList(l) && PrintableRight(r)
    case OpAssign(l, r, _) => IsLvalue(l) && Printable(l) && Printable(r)
    case _ => Printable(t)
  }

  /** The right side of an assignment: a list of values, or another assignment. */
  predicate PrintableRight(t: Tree)
    decreases t, 3
  {
    match t
    case Assign(l, r) => LvalueSeq(l) && PrintableList(l) && PrintableRight(r)
    case _ => PrintableList(t)
  }

  predicate PrintableList(t: Tree)
    decreases t, 2
  {
    t.Seq? && t.items != [] && forall i :: 0 <= i < |t.items| ==> PrintableItem(t.items[i])
  }

  /** An array literal or an expression. */
  predicate PrintableItem(t: Tree)
    decreases t, 1
  {
    match t
    case Arr(items) => items != [] && forall i :: 0 <= i < |items| ==> Printable(items[i])
    case _ => Printable(t)
  }

  function Prec(t: Tree): (p: nat)
    ensures p <= FACTOR
  {
    match t
    case Ternary(_, _, _) => 0
    case Binary(_, _, op) =>
      if op == OpPow then POWER else if op == OpStrConcat || op == OpOctConcat then CONCATENATION else LevelOf(op) + 1
    case Unary(_, _) => 11
    case _ => FACTOR
  }

  predicate Parenthesized(t: Tree, need: nat, guard: bool) {
    Prec(t) < need || (guard && t.Id?)
  }

  /** The tokens of `t` where `need` is accepted; `guard` says that `(` follows at once, which an
      identifier must not touch, as that would be a call. */
  function Print(t: Tree, need: nat, guard: bool): (r: seq<Token>)
    requires Printable(t)
    ensures r != []
    decreases t, 1
  {
    if Parenthesized(t, need, guard) then [TokLPar] + Body(t, false) + [TokRPar] else Body(t, guard)
  }

  function Body(t: Tree, guard: bool): (r: seq<Token>)
    requires Printable(t)
    ensures r != []
    decreases t, 0
  {
    match t
    case Id(name) => [TokId(name)]
    case Var(v) => [TokVar(v)]
    case Binary(l, r, op) =>
      if op == OpStrConcat then
        var right := Print(r, FACTOR, guard);
        Print(l, CONCATENATION, right[0].TokLPar?) + right
      else if op == OpOctConcat then Print(l, CONCATENATION, false) + [TokHash] + Print(r, FACTOR, guard)
      else if op == OpPow then Print(l, CONCATENATION, false) + [TokOp(OpPow)] + Print(r, POWER, false)
      else Print(l, LevelOf(op) + 1, false) + [TokOp(op)] + Print(r, LevelOf(op) + 2, false)
    case Unary(e, op) => Signs(op) + Print(e, POWER, false)
    case Ternary(c, y, n) => Print(c, 1, false) + [TokQuestion] + PrintExpr(y) + [TokColon] + PrintExpr(n)
    case Call(name, args) => [TokId(name), TokLPar] + PrintAll(args) + [TokRPar]
    case Access(name, ind) => [TokId(name), TokLBracket] + PrintAll(ind) + [TokRBracket]
  }

  function Signs(op: Opcode): seq<Token> {
    match op
    case OpNot => [TokNot]
    case OpNotNot => [TokNot, TokNot]
    case _ => [TokOp(op)]
  }

  function PrintAll(ts: seq<Tree>): seq<Token>
    requires forall i :: 0 <= i < |ts| ==> Printable(ts[i])
    decreases ts, 2
  {
    if ts == [] then []
    else if |ts| == 1 then Print(ts[0], 1, false)
    else Print(ts[0], 1, false) + [TokComma] + PrintAll(ts[1..])
  }

  /** The tokens of an expression or assignment. */
  function PrintExpr(t: Tree): (r: seq<Token>)
    requires PrintableExpr(t)
    ensures r != []
    decreases t, 4
  {
    if t.Assign? then PrintList(t.left) + [TokAs] + PrintRight(t.right)
    else if t.OpAssign? then Print(t.left, 1, false) + [TokOpAs(t.op)] + Print(t.right, 0, false)
    else Print(t, 0, false)
  }

  function PrintRight(t: Tree): (r: seq<Token>)
    requires PrintableRight(t)
    ensures r != []
    decreases t, 4
  {
    if t.Assign? then PrintList(t.left) + [TokAs] + PrintRight(t.right) else PrintList(t)
  }

  function PrintList(t: Tree): (r: seq<Token>)
    requires PrintableList(t)
    ensures r != []
    decreases t, 3
  {
    PrintItem(t.items[0]) + MoreItems(t.items[1..])
  }

  function PrintItem(t: Tree): (r: seq<Token>)
    requires PrintableItem(t)
    ensures r != []
    decreases t, 2
  {
    if t.Arr? then [TokLBrace] + PrintAll(t.items) + [TokRBrace] else Print(t, 1, false)
  }

  /** The items of a list after the first, each after its comma. */
  function MoreItems(ts: seq<Tree>): seq<Token>
    requires forall i :: 0 <= i < |ts| ==> PrintableItem(ts[i])
    decreases ts, 3
  {
    if ts == [] then [] else [TokComma] + PrintItem(ts[0]) + MoreItems(ts[1..])
  }

  // ----- what may follow -----

  /** The token does not continue a phrase of the given kind. */
  predicate Stops(need: nat, t: Token) {
    && !StartsFactor(t) && !t.TokHash? && !t.TokLBracket?
    && (need <= POWER ==> t != TokOp(OpPow))
    && (t.TokOp? && LevelOf(t.op) < TERM ==> need > LevelOf(t.op) + 1)
    && (need == 0 ==> !t.TokQuestion?)
  }

  predicate Touches(guard: bool, t: Token) {
    t.TokLBracket? || (t.TokLPar? && !guard)
  }

  predicate Assigns(t: Token) {
    t.TokAs? || t.TokComma? || t.TokOpAs?
  }

  lemma {:induction false} StartsWell(t: Tree, need: nat, guard: bool)
    requires Printable(t)
    ensures var f := Print(t, need, guard)[0]; StartsFactor(f) || IsSign(f) || f.TokNot?
    ensures need >= POWER ==> StartsFactor(Print(t, need, guard)[0])
    decreases t
  {
    if !Parenthesized(t, need, guard) {
      match t
      case Binary(l, r, op) =>
        if op == OpStrConcat {
          StartsWell(l, CONCATENATION, Print(r, FACTOR, guard)[0].TokLPar?);
        } else if op == OpOctConcat || op == OpPow {
          StartsWell(l, CONCATENATION, false);
        } else {
          StartsWell(l, LevelOf(op) + 1, false);
        }
      case Ternary(c, _, _) => StartsWell(c, 1, false);
      case _ =>
    }
  }

  lemma CurPrint(t: Tree, need: nat, guard: bool, more: seq<Token>)
    requires Printable(t)
    ensures Cur(Print(t, need, guard) + more) == Print(t, need, guard)[0]
  {
  }

  lemma Step(tok: Token, more: seq<Token>)
    ensures Cur([tok] + more) == tok && Next([tok] + more) == more
  {
  }

  function Flag(t: Tree, need: nat, guard: bool): nat {
    if Parenthesized(t, need, guard) then 1 else 0
  }

  // ----- printing, part by part -----

  lemma PrintGroup(t: Tree, need: nat, guard: bool, more: seq<Token>)
    requires Printable(t) && Parenthesized(t, need, guard)
    ensures Print(t, need, guard) + more == [TokLPar] + (Print(t, 0, false) + ([TokRPar] + more))
  {
  }

  lemma PrintStrConcat(l: Tree, r: Tree, guard: bool, more: seq<Token>)
    requires Printable(l) && Printable(r)
    ensures Print(Binary(l, r, OpStrConcat), CONCATENATION, guard) + more
         == Print(l, CONCATENATION, Print(r, FACTOR, guard)[0].TokLPar?) + (Print(r, FACTOR, guard) + more)
  {
  }

  lemma PrintOctConcat(l: Tree, r: Tree, guard: bool, more: seq<Token>)
    requires Printable(l) && Printable(r)
    ensures Print(Binary(l, r, OpOctConcat), CONCATENATION, guard) + more
         == Print(l, CONCATENATION, false) + ([TokHash] + (Print(r, FACTOR, guard) + more))
  {
  }

  lemma PrintPower(l: Tree, r: Tree, more: seq<Token>)
    requires Printable(l) && Printable(r)
    ensures Print(Binary(l, r, OpPow), POWER, false) + more
         == Print(l, CONCATENATION, false) + ([TokOp(OpPow)] + (Print(r, POWER, false) + more))
  {
  }

  lemma PrintUnary(e: Tree, op: Opcode, more: seq<Token>)
    requires Printable(Unary(e, op))
    ensures Print(Unary(e, op), 11, false) + more == Signs(op) + (Print(e, POWER, false) + more)
  {
  }

  lemma PrintLevel(t: Tree, k: nat, more: seq<Token>)
    requires Printable(t) && k < TERM && Prec(t) == k + 1
    ensures t.Binary? && LevelOf(t.op) == k
    ensures Print(t, k + 1, false) + more
         == Print(t.left, k + 1, false) + ([TokOp(t.op)] + (Print(t.right, k + 2, false) + more))
  {
    Associate(Print(t.left, k + 1, false), [TokOp(t.op)], Print(t.right, k + 2, false), more);
  }

  lemma PrintTernary(c: Tree, y: Tree, n: Tree, more: seq<Token>)
    requires Printable(c) && PrintableExpr(y) && PrintableExpr(n)
    ensures Print(Ternary(c, y, n), 0, false) + more
         == Print(c, 1, false) + ([TokQuestion] + (PrintExpr(y) + ([TokColon] + (PrintExpr(n) + more))))
  {
  }

  lemma PrintSame(t: Tree, need: nat, need': nat, guard: bool)
    requires Printable(t) && (Prec(t) < need <==> Prec(t) < need')
    ensures Print(t, need, guard) == Print(t, need', guard)
  {
  }

  /** What comes after the first of a list of expressions. */
  function After(ts: seq<Tree>, close: seq<Token>): seq<Token>
    requires ts != [] && forall j :: 0 <= j < |ts| ==> Printable(ts[j])
  {
    if |ts| == 1 then close else [TokComma] + (PrintAll(ts[1..]) + close)
  }

  lemma AfterIs(ts: seq<Tree>, close: seq<Token>)
    requires ts != [] && forall j :: 0 <= j < |ts| ==> Printable(ts[j])
    ensures if |ts| == 1 then After(ts, close) == close && ts[1..] == []
            else Cur(After(ts, close)) == TokComma && Next(After(ts, close)) == PrintAll(ts[1..]) + close
  {
    Step(TokComma, if |ts| == 1 then [] else PrintAll(ts[1..]) + close);
  }

  lemma PrintCommaList(ts: seq<Tree>, close: seq<Token>)
    requires ts != [] && forall j :: 0 <= j < |ts| ==> Printable(ts[j])
    ensures PrintAll(ts) + close == Print(ts[0], 1, false) + After(ts, close)
  {
    if |ts| > 1 {
      Associate(Print(ts[0], 1, false), [TokComma], PrintAll(ts[1..]), close);
    }
  }

  lemma Associate(a: seq<Token>, b: seq<Token>, c: seq<Token>, d: seq<Token>)
    ensures (a + b + c) + d == a + (b + (c + d))
  {
  }

  lemma MoveFirst(done: seq<Tree>, ts: seq<Tree>)
    requires ts != []
    ensures (done + [ts[0]]) + ts[1..] == done + ts && (|ts| == 1 ==> done + [ts[0]] == done + ts)
  {
  }

  // ----- parsing, step by step -----

  lemma FactorGroup(inner: seq<Token>, t: Tree, more: seq<Token>)
    requires TrenaryOp(inner, 0) == Parsed(t, [TokRPar] + more, 0)
    ensures Factor([TokLPar] + inner, 0) == Parsed(t, more, 0)
  {
    Step(TokLPar, inner);
    Step(TokRPar, more);
  }

  lemma ConcatenationStep(s: seq<Token>, l: Tree, sep: seq<Token>, right: seq<Token>, r: Tree, more: seq<Token>)
    requires Concatenation(s, 0) == ConcatenationRest(l, sep + right, 0)
    requires Factor(right, 0) == Parsed(r, more, 0) && !r.Null?
    requires sep == [TokHash] || (sep == [] && StartsFactor(Cur(right)))
    ensures var op := if sep == [] then OpStrConcat else OpOctConcat;
            Concatenation(s, 0) == ConcatenationRest(Binary(l, r, op), more, 0)
  {
    assert sep == [] ==> sep + right == right;
    Step(TokHash, right);
  }

  lemma PowerStep(s: seq<Token>, l: Tree, right: seq<Token>, r: Tree, more: seq<Token>)
    requires Concatenation(s, 0) == Parsed(l, [TokOp(OpPow)] + right, 0) && !l.Null?
    requires Power(right, 0) == Parsed(r, more, 0) && !r.Null?
    ensures Power(s, 0) == Parsed(Binary(l, r, OpPow), more, 0)
  {
    Step(TokOp(OpPow), right);
  }

  lemma PlusStep(minus: bool, e: seq<Token>, t: Tree, more: seq<Token>)
    requires Power(e, 0) == Parsed(t, more, 0) && StartsFactor(Cur(e))
    ensures UnaryPlus(minus, e, 0) == Parsed(Unary(t, if minus then OpMinus else OpPlus), more, 0)
  {
  }

  lemma NotStep(odd: bool, e: seq<Token>, t: Tree, more: seq<Token>)
    requires Power(e, 0) == Parsed(t, more, 0) && StartsFactor(Cur(e))
    ensures UnaryNot(odd, e, 0) == Parsed(Unary(t, if odd then OpNot else OpNotNot), more, 0)
  {
  }

  lemma SignsStep(op: Opcode, e: seq<Token>, t: Tree, more: seq<Token>)
    requires op in {OpPlus, OpMinus, OpNot, OpNotNot}
    requires Power(e, 0) == Parsed(t, more, 0) && StartsFactor(Cur(e))
    ensures Term(Signs(op) + e, 0) == Parsed(Unary(t, op), more, 0)
  {
    match op
    case OpNotNot =>
      assert Signs(op) + e == [TokNot] + ([TokNot] + e);
      TakeNot(false, [TokNot] + e);
      TakeNot(true, e);
      NotStep(false, e, t, more);
    case OpNot =>
      TakeNot(false, e);
      NotStep(true, e, t, more);
    case _ =>
      TakeSign(op, e);
      PlusStep(op == OpMinus, e, t, more);
  }

  lemma TakeNot(odd: bool, e: seq<Token>)
    ensures UnaryNot(odd, [TokNot] + e, 0) == UnaryNot(!odd, e, 0)
    ensures Term([TokNot] + e, 0) == UnaryNot(false, [TokNot] + e, 0)
  {
    Step(TokNot, e);
  }

  lemma TakeSign(op: Opcode, e: seq<Token>)
    requires op == OpPlus || op == OpMinus
    ensures Term([TokOp(op)] + e, 0) == UnaryPlus(op == OpMinus, e, 0)
  {
    Step(TokOp(op), e);
  }

  lemma ArgsEnd(name: string, done: seq<Tree>, more: seq<Token>)
    ensures FunctionCall(name, done, [TokRPar] + more, 0) == Parsed(Call(name, done), more, 0)
  {
    Step(TokRPar, more);
  }

  lemma ArgStep(name: string, done: seq<Tree>, s: seq<Token>, a: Tree, later: seq<Token>)
    requires Level(0, s, 0) == Parsed(a, later, 0) && !a.Null? && !Cur(s).TokRPar?
    requires Cur(later).TokRPar? || Cur(later).TokComma?
    ensures FunctionCall(name, done, s, 0) == if Cur(later).TokRPar? then Parsed(Call(name, done + [a]), Next(later), 0)
                                             else FunctionCall(name, done + [a], Next(later), 0)
  {
  }

  lemma IndexStep(name: string, done: seq<Tree>, s: seq<Token>, a: Tree, later: seq<Token>)
    requires Level(0, s, 0) == Parsed(a, later, 0) && !a.Null?
    requires Cur(later).TokRBracket? || Cur(later).TokComma?
    ensures ArrayAccess(name, done, s, 0)
         == if Cur(later).TokRBracket? then Parsed(Access(name, done + [a]), Next(later), 0)
            else ArrayAccess(name, done + [a], Next(later), 0)
  {
  }

  lemma CallStep(name: string, inner: seq<Token>)
    ensures Factor([TokId(name)] + ([TokLPar] + inner), 0) == FunctionCall(name, [], inner, 0)
    ensures Factor([TokId(name)] + ([TokLBracket] + inner), 0) == ArrayAccess(name, [], inner, 0)
  {
    Step(TokId(name), [TokLPar] + inner);
    Step(TokLPar, inner);
    Step(TokId(name), [TokLBracket] + inner);
    Step(TokLBracket, inner);
  }

  lemma LevelPass(k: nat, s: seq<Token>, t: Tree, more: seq<Token>)
    requires k < TERM && Level(k + 1, s, 0) == Parsed(t, more, 0) && !t.Null?
    ensures Level(k, s, 0) == LevelRest(k, t, more, 0)
  {
  }

  lemma LevelStep(k: nat, s: seq<Token>, l: Tree, op: Opcode, right: seq<Token>, r: Tree, more: seq<Token>)
    requires k < TERM && LevelOf(op) == k
    requires Level(k, s, 0) == LevelRest(k, l, [TokOp(op)] + right, 0)
    requires Level(k + 1, right, 0) == Parsed(r, more, 0) && !r.Null?
    ensures Level(k, s, 0) == LevelRest(k, Binary(l, r, op), more, 0)
  {
    Step(TokOp(op), right);
  }

  lemma TernaryStep(s: seq<Token>, c: Tree, ys: seq<Token>, y: Tree, ns: seq<Token>, n: Tree, more: seq<Token>)
    requires Level(0, s, 0) == Parsed(c, [TokQuestion] + ys, 0) && !c.Null?
    requires Expr(ys, 0) == Parsed(y, [TokColon] + ns, 0) && !y.Null?
    requires Expr(ns, 0) == Parsed(n, more, 0) && !n.Null?
    ensures TrenaryOp(s, 0) == Parsed(Ternary(c, y, n), more, 0)
  {
    Step(TokQuestion, ys);
    Step(TokColon, ns);
    assert TernaryRest(c, ys, 0) == Parsed(Ternary(c, y, n), more, 0);
  }

  // ----- parsing undoes printing -----

  lemma {:induction false} FactorReads(t: Tree, guard: bool, more: seq<Token>)
    requires Printable(t) && !Touches(guard, Cur(more))
    ensures Factor(Print(t, FACTOR, guard) + more, 0) == Parsed(t, more, 0)
    decreases t, Flag(t, FACTOR, guard), 1
  {
    if Parenthesized(t, FACTOR, guard) {
      PrintGroup(t, FACTOR, guard, more);
      TrenaryReads(t, [TokRPar] + more);
      FactorGroup(Print(t, 0, false) + ([TokRPar] + more), t, more);
    } else {
      AtomReads(t, guard, more);
    }
  }

  lemma {:induction false} AtomReads(t: Tree, guard: bool, more: seq<Token>)
    requires Printable(t) && !Touches(guard, Cur(more)) && !Parenthesized(t, FACTOR, guard)
    ensures Factor(Print(t, FACTOR, guard) + more, 0) == Parsed(t, more, 0)
    decreases t, 0, 0
  {
    match t
    case Id(name) => Step(TokId(name), more);
    case Var(v) => Step(TokVar(v), more);
    case Call(name, args) =>
      var inner := PrintAll(args) + ([TokRPar] + more);
      assert Print(t, FACTOR, guard) + more == [TokId(name)] + ([TokLPar] + inner);
      CallStep(name, inner);
      ArgsRead(name, [], args, more);
      assert [] + args == args;
    case Access(name, ind) =>
      var inner := PrintAll(ind) + ([TokRBracket] + more);
      assert Print(t, FACTOR, guard) + more == [TokId(name)] + ([TokLBracket] + inner);
      CallStep(name, inner);
      IndicesRead(name, [], ind, more);
      assert [] + ind == ind;
  }

  lemma {:induction false} ArgsRead(name: string, done: seq<Tree>, ts: seq<Tree>, more: seq<Token>)
    requires forall j :: 0 <= j < |ts| ==> Printable(ts[j])
    ensures FunctionCall(name, done, PrintAll(ts) + ([TokRPar] + more), 0) == Parsed(Call(name, done + ts), more, 0)
    decreases ts, 0, 0
  {
    var close := [TokRPar] + more;
    if ts == [] {
      assert [] + close == close && done + [] == done;
      ArgsEnd(name, done, more);
    } else {
      var later := After(ts, close);
      PrintCommaList(ts, close);
      StartsWell(ts[0], 1, false);
      CurPrint(ts[0], 1, false, later);
      AfterIs(ts, close);
      Step(TokRPar, more);
      FullReads(0, ts[0], later);
      ArgStep(name, done, PrintAll(ts) + close, ts[0], later);
      MoveFirst(done, ts);
      if |ts| > 1 {
        ArgsRead(name, done + [ts[0]], ts[1..], more);
      }
    }
  }

  lemma {:induction false} IndicesRead(name: string, done: seq<Tree>, ts: seq<Tree>, more: seq<Token>)
    requires ts != [] && forall j :: 0 <= j < |ts| ==> Printable(ts[j])
    ensures ArrayAccess(name, done, PrintAll(ts) + ([TokRBracket] + more), 0)
         == Parsed(Access(name, done + ts), more, 0)
    decreases ts, 0, 0
  {
    var close := [TokRBracket] + more;
    var later := After(ts, close);
    PrintCommaList(ts, close);
    AfterIs(ts, close);
    Step(TokRBracket, more);
    FullReads(0, ts[0], later);
    IndexStep(name, done, PrintAll(ts) + close, ts[0], later);
    MoveFirst(done, ts);
    if |ts| > 1 {
      IndicesRead(name, done + [ts[0]], ts[1..], more);
    }
  }

  lemma {:induction false} ConcatenationReads(t: Tree, guard: bool, more: seq<Token>)
    requires Printable(t) && !Touches(guard, Cur(more))
    ensures Concatenation(Print(t, CONCATENATION, guard) + more, 0) == ConcatenationRest(t, more, 0)
    decreases t, Flag(t, CONCATENATION, guard), 2
  {
    var s := Print(t, CONCATENATION, guard) + more;
    if t.Binary? && t.op == OpStrConcat {
      var right := Print(t.right, FACTOR, guard);
      StartsWell(t.right, FACTOR, guard);
      CurPrint(t.right, FACTOR, guard, more);
      PrintStrConcat(t.left, t.right, guard, more);
      ConcatenationReads(t.left, right[0].TokLPar?, right + more);
      FactorReads(t.right, guard, more);
      assert [] + (right + more) == right + more;
      ConcatenationStep(s, t.left, [], right + more, t.right, more);
    } else if t.Binary? && t.op == OpOctConcat {
      var right := Print(t.right, FACTOR, guard) + more;
      PrintOctConcat(t.left, t.right, guard, more);
      Step(TokHash, right);
      ConcatenationReads(t.left, false, [TokHash] + right);
      FactorReads(t.right, guard, more);
      ConcatenationStep(s, t.left, [TokHash], right, t.right, more);
    } else {
      PrintSame(t, CONCATENATION, FACTOR, guard);
      FactorReads(t, guard, more);
    }
  }

  lemma {:induction false} PowerReads(t: Tree, more: seq<Token>)
    requires Printable(t) && Stops(POWER, Cur(more))
    ensures Power(Print(t, POWER, false) + more, 0) == Parsed(t, more, 0)
    decreases t, Flag(t, POWER, false), 3
  {
    if t.Binary? && t.op == OpPow {
      PowerTreeReads(t, more);
    } else {
      PrintSame(t, POWER, CONCATENATION, false);
      ConcatenationReads(t, false, more);
    }
  }

  lemma {:induction false} PowerTreeReads(t: Tree, more: seq<Token>)
    requires Printable(t) && Stops(POWER, Cur(more)) && t.Binary? && t.op == OpPow
    ensures Power(Print(t, POWER, false) + more, 0) == Parsed(t, more, 0)
    decreases t, 0, 2
  {
    var right := Print(t.right, POWER, false) + more;
    PrintPower(t.left, t.right, more);
    Step(TokOp(OpPow), right);
    ConcatenationReads(t.left, false, [TokOp(OpPow)] + right);
    PowerReads(t.right, more);
    PowerStep(Print(t, POWER, false) + more, t.left, right, t.right, more);
  }

  lemma {:induction false} TermReads(t: Tree, more: seq<Token>)
    requires Printable(t) && Stops(11, Cur(more))
    ensures Term(Print(t, 11, false) + more, 0) == Parsed(t, more, 0)
    decreases t, Flag(t, 11, false), 4
  {
    if t.Unary? {
      StartsWell(t.operand, POWER, false);
      CurPrint(t.operand, POWER, false, more);
      PrintUnary(t.operand, t.op, more);
      PowerReads(t.operand, more);
      SignsStep(t.op, Print(t.operand, POWER, false) + more, t.operand, more);
    } else {
      PrintSame(t, 11, POWER, false);
      StartsWell(t, POWER, false);
      CurPrint(t, POWER, false, more);
      PowerReads(t, more);
    }
  }

  /** The functions of the levels, when nothing of their own level or tighter follows. */
  lemma {:induction false} FullReads(k: nat, t: Tree, more: seq<Token>)
    requires k <= TERM && Printable(t) && Stops(k + 1, Cur(more))
    ensures Level(k, Print(t, k + 1, false) + more, 0) == Parsed(t, more, 0)
    decreases t, Flag(t, k + 1, false), 5 + 2 * (TERM - k)
  {
    if k == TERM {
      TermReads(t, more);
    } else {
      LevelReads(k, t, more);
    }
  }

  lemma {:induction false} LevelReads(k: nat, t: Tree, more: seq<Token>)
    requires k < TERM && Printable(t) && Stops(k + 2, Cur(more))
    ensures Level(k, Print(t, k + 1, false) + more, 0) == LevelRest(k, t, more, 0)
    decreases t, Flag(t, k + 1, false), 4 + 2 * (TERM - k)
  {
    if Prec(t) == k + 1 {
      PrintLevel(t, k, more);
      var right := Print(t.right, k + 2, false) + more;
      Step(TokOp(t.op), right);
      LevelReads(k, t.left, [TokOp(t.op)] + right);
      FullReads(k + 1, t.right, more);
      LevelStep(k, Print(t, k + 1, false) + more, t.left, t.op, right, t.right, more);
    } else {
      PrintSame(t, k + 1, k + 2, false);
      FullReads(k + 1, t, more);
      LevelPass(k, Print(t, k + 1, false) + more, t, more);
    }
  }

  lemma {:induction false} TrenaryReads(t: Tree, more: seq<Token>)
    requires Printable(t) && Stops(0, Cur(more)) && (t.Ternary? ==> !Assigns(Cur(more)))
    ensures TrenaryOp(Print(t, 0, false) + more, 0) == Parsed(t, more, 0)
    decreases t, Flag(t, 0, false), 40
  {
    if t.Ternary? {
      var no := PrintExpr(t.no) + more;
      var yes := PrintExpr(t.yes) + ([TokColon] + no);
      PrintTernary(t.cond, t.yes, t.no, more);
      Step(TokQuestion, yes);
      Step(TokColon, no);
      FullReads(0, t.cond, [TokQuestion] + yes);
      ExprReads(t.yes, [TokColon] + no);
      ExprReads(t.no, more);
      TernaryStep(Print(t, 0, false) + more, t.cond, yes, t.yes, no, t.no, more);
    } else {
      PrintSame(t, 0, 1, false);
      FullReads(0, t, more);
    }
  }

  // ----- lists and assignments -----

  lemma {:induction false} ArrayReads(done: seq<Tree>, ts: seq<Tree>, more: seq<Token>)
    requires ts != [] && forall j :: 0 <= j < |ts| ==> Printable(ts[j])
    ensures ArrayInit(done, PrintAll(ts) + ([TokRBrace] + more), 0) == Parsed(Arr(done + ts), more, 0)
    decreases ts, 0, 0
  {
    var close := [TokRBrace] + more;
    var later := After(ts, close);
    PrintCommaList(ts, close);
    AfterIs(ts, close);
    Step(TokRBrace, more);
    FullReads(0, ts[0], later);
    ArrayStep(done, PrintAll(ts) + close, ts[0], later);
    MoveFirst(done, ts);
    if |ts| > 1 {
      ArrayReads(done + [ts[0]], ts[1..], more);
    }
  }

  lemma ArrayStep(done: seq<Tree>, s: seq<Token>, a: Tree, later: seq<Token>)
    requires Level(0, s, 0) == Parsed(a, later, 0) && !a.Null?
    requires Cur(later).TokRBrace? || Cur(later).TokComma?
    ensures ArrayInit(done, s, 0)
         == if Cur(later).TokRBrace? then Parsed(Arr(done + [a]), Next(later), 0)
            else ArrayInit(done + [a], Next(later), 0)
  {
  }

  /** The token ends an item of a list. */
  predicate EndsItem(t: Token) {
    Stops(1, t) && !t.TokQuestion?
  }

  lemma {:induction false} ExpressionItemReads(t: Tree, more: seq<Token>)
    requires Printable(t) && EndsItem(Cur(more))
    ensures TrenaryOp(Print(t, 1, false) + more, 0) == Parsed(t, more, 0)
    decreases t, 1, 42
  {
    FullReads(0, t, more);
    TrenaryIs(Print(t, 1, false) + more, 0, Parsed(t, more, 0));
  }

  lemma {:induction false} ArrayItemReads(t: Tree, more: seq<Token>)
    requires PrintableItem(t) && t.Arr?
    ensures GetRval(PrintItem(t) + more, 0) == Parsed(t, more, 0)
    decreases t, 1, 42
  {
    var inner := PrintAll(t.items) + ([TokRBrace] + more);
    assert PrintItem(t) + more == [TokLBrace] + inner;
    Step(TokLBrace, inner);
    ArrayReads([], t.items, more);
    assert [] + t.items == t.items;
  }

  lemma {:induction false} ItemReads(t: Tree, more: seq<Token>)
    requires PrintableItem(t) && EndsItem(Cur(more))
    ensures GetRval(PrintItem(t) + more, 0) == Parsed(t, more, 0)
    decreases t, 1, 43
  {
    if t.Arr? {
      ArrayItemReads(t, more);
    } else {
      StartsWell(t, 1, false);
      CurPrint(t, 1, false, more);
      ExpressionItemReads(t, more);
    }
  }

  lemma MoreItemsAre(ts: seq<Tree>, more: seq<Token>)
    requires ts != [] && forall i :: 0 <= i < |ts| ==> PrintableItem(ts[i])
    ensures MoreItems(ts) + more == [TokComma] + (PrintItem(ts[0]) + (MoreItems(ts[1..]) + more))
  {
    Associate([TokComma], PrintItem(ts[0]), MoreItems(ts[1..]), more);
  }

  lemma MoreItemsStart(ts: seq<Tree>, more: seq<Token>)
    requires forall i :: 0 <= i < |ts| ==> PrintableItem(ts[i])
    ensures Cur(MoreItems(ts) + more) == if ts == [] then Cur(more) else TokComma
  {
    if ts != [] {
      MoreItemsAre(ts, more);
    } else {
      assert MoreItems(ts) + more == more;
    }
  }

  lemma GetSeqStep(done: seq<Tree>, item: seq<Token>, t: Tree, later: seq<Token>)
    requires GetRval(item, 0) == Parsed(t, later, 0) && !t.Null?
    ensures GetSeq(done, [TokComma] + item, 0) == GetSeq(done + [t], later, 0)
  {
    Step(TokComma, item);
  }

  lemma {:induction false} ItemsRead(done: seq<Tree>, ts: seq<Tree>, more: seq<Token>)
    requires (forall i :: 0 <= i < |ts| ==> PrintableItem(ts[i])) && EndsItem(Cur(more)) && !Cur(more).TokComma?
    ensures GetSeq(done, MoreItems(ts) + more, 0) == Parsed(Seq(done + ts), more, 0)
    decreases ts, 0, 0
  {
    if ts == [] {
      assert MoreItems(ts) + more == more && done + ts == done;
    } else {
      var later := MoreItems(ts[1..]) + more;
      MoreItemsAre(ts, more);
      MoreItemsStart(ts[1..], more);
      ItemReads(ts[0], later);
      GetSeqStep(done, PrintItem(ts[0]) + later, ts[0], later);
      ItemsRead(done + [ts[0]], ts[1..], more);
      assert done + [ts[0]] + ts[1..] == done + ts;
    }
  }

  lemma PrintListIs(t: Tree, more: seq<Token>)
    requires PrintableList(t)
    ensures PrintList(t) + more == PrintItem(t.items[0]) + (MoreItems(t.items[1..]) + more)
  {
    var a, b := PrintItem(t.items[0]), MoreItems(t.items[1..]);
    assert (a + b) + more == a + (b + more);
  }

  /** A list after its first item, up to what ends it. */
  lemma ListReads(ts: seq<Tree>, more: seq<Token>)
    requires ts != [] && (forall i :: 0 <= i < |ts| ==> PrintableItem(ts[i])) && EndsItem(Cur(more))
    requires !Cur(more).TokComma?
    ensures GetSeq([ts[0]], MoreItems(ts[1..]) + more, 0) == Parsed(Seq(ts), more, 0)
    decreases ts, 1, 0
  {
    ItemsRead([ts[0]], ts[1..], more);
    assert [ts[0]] + ts[1..] == ts;
  }

  lemma RightStep(left: Tree, s: seq<Token>, first: Tree, later: seq<Token>, right: Tree, more: seq<Token>)
    requires GetRval(s, 0) == Parsed(first, later, 0) && !first.Null?
    requires AssignExpr(first, true, later, 0) == Parsed(right, more, 0)
    ensures AssignRight(left, s) == Parsed(Assign(left, right), more, 0)
  {
  }

  lemma {:induction false} RightReads(left: Tree, t: Tree, more: seq<Token>)
    requires PrintableRight(t) && Stops(0, Cur(more)) && !Assigns(Cur(more))
    ensures AssignRight(left, PrintRight(t) + more) == Parsed(Assign(left, t), more, 0)
    decreases t, 1, 50
  {
    var items := if t.Assign? then t.left.items else t.items;
    var rest := if t.Assign? then [TokAs] + (PrintRight(t.right) + more) else more;
    assert PrintRight(t) + more == PrintList(Seq(items)) + rest;
    PrintListIs(Seq(items), rest);
    var later := MoreItems(items[1..]) + rest;
    MoreItemsStart(items[1..], rest);
    ItemReads(items[0], later);
    ListReads(items, rest);
    AssignIs(items[0], true, later, 0, Parsed(Seq(items), rest, 0));
    if t.Assign? {
      Step(TokAs, PrintRight(t.right) + more);
      RightReads(t.left, t.right, more);
      assert Seq(items) == t.left;
    }
    RightStep(left, PrintRight(t) + more, items[0], later, t, more);
  }

  /** A list of targets, up to the `=` after it. */
  lemma {:induction false} TargetsRead(l: Tree, right: seq<Token>)
    requires LvalueSeq(l) && PrintableList(l)
    ensures var rest := [TokAs] + right;
            var later := MoreItems(l.items[1..]) + rest;
            && TrenaryOp(PrintList(l) + rest, 0) == Parsed(l.items[0], later, 0)
            && GetSeq([l.items[0]], later, 0) == Parsed(l, rest, 0)
            && Cur(later) == if |l.items| == 1 then TokAs else TokComma
    decreases l, 1, 44
  {
    var rest := [TokAs] + right;
    var later := MoreItems(l.items[1..]) + rest;
    PrintListIs(l, rest);
    MoreItemsStart(l.items[1..], rest);
    assert IsLvalue(l.items[0]) && PrintableItem(l.items[0]);
    ExpressionItemReads(l.items[0], later);
    ListReads(l.items, rest);
    assert Seq(l.items) == l;
  }

  lemma {:induction false} AssignReads(t: Tree, more: seq<Token>)
    requires t.Assign? && PrintableExpr(t) && Stops(0, Cur(more)) && !Assigns(Cur(more))
    ensures Expr(PrintExpr(t) + more, 0) == Parsed(t, more, 0)
    decreases t, 1, 51
  {
    var right := PrintRight(t.right) + more;
    var rest := [TokAs] + right;
    assert PrintExpr(t) + more == PrintList(t.left) + rest;
    Step(TokAs, right);
    TargetsRead(t.left, right);
    RightReads(t.left, t.right, more);
    AssignStep(PrintExpr(t) + more, t.left, MoreItems(t.left.items[1..]) + rest, right, t, more);
  }

  lemma AssignStep(s: seq<Token>, l: Tree, later: seq<Token>, right: seq<Token>, t: Tree, more: seq<Token>)
    requires LvalueSeq(l) && l.items != [] && TrenaryOp(s, 0) == Parsed(l.items[0], later, 0)
    requires GetSeq([l.items[0]], later, 0) == Parsed(l, [TokAs] + right, 0)
    requires (Cur(later).TokAs? || Cur(later).TokComma?)
    requires AssignRight(l, right) == Parsed(t, more, 0)
    ensures Expr(s, 0) == Parsed(t, more, 0)
  {
    Step(TokAs, right);
    assert IsLvalue(l.items[0]);
    AssignIs(l.items[0], false, later, 0, Parsed(l, [TokAs] + right, 0));
  }

  lemma {:induction false} OpAssignReads(t: Tree, more: seq<Token>)
    requires t.OpAssign? && PrintableExpr(t) && Stops(0, Cur(more)) && !Assigns(Cur(more))
    ensures Expr(PrintExpr(t) + more, 0) == Parsed(t, more, 0)
    decreases t, 1, 51
  {
    var right := Print(t.right, 0, false) + more;
    assert PrintExpr(t) + more == Print(t.left, 1, false) + ([TokOpAs(t.op)] + right);
    Step(TokOpAs(t.op), right);
    ExpressionItemReads(t.left, [TokOpAs(t.op)] + right);
    TrenaryReads(t.right, more);
  }

  lemma {:induction false} ExprReads(t: Tree, more: seq<Token>)
    requires PrintableExpr(t) && Stops(0, Cur(more)) && !Assigns(Cur(more))
    ensures Expr(PrintExpr(t) + more, 0) == Parsed(t, more, 0)
    decreases t, 1, 52
  {
    if t.Assign? {
      AssignReads(t, more);
    } else if t.OpAssign? {
      OpAssignReads(t, more);
    } else {
      TrenaryReads(t, more);
    }
  }

  /** Parsing undoes printing: the tokens of an expression or assignment, followed by any token that does not
      continue it, parse to exactly that tree, with no error counted. */
  lemma ParsingUndoesPrinting(t: Tree, more: seq<Token>)
    requires PrintableExpr(t) && Stops(0, Cur(more)) && !Assigns(Cur(more))
    ensures Expr(PrintExpr(t) + more, 0) == Parsed(t, more, 0)
  {
    ExprReads(t, more);
  }

  /** Different trees are printed differently. */
  lemma PrintInjective(t: Tree, u: Tree)
    requires PrintableExpr(t) && PrintableExpr(u) && PrintExpr(t) == PrintExpr(u)
    ensures t == u
  {
    ParsingUndoesPrinting(t, []);
    ParsingUndoesPrinting(u, []);
  }

  lemma PrintOneCall(name: string, t: Tree)
    requires Printable(t)
    ensures Printable(Call(name, [t]))
    ensures Print(Call(name, [t]), 0, false) == [TokId(name), TokLPar] + Print(t, 1, false) + [TokRPar]
  {
    assert PrintAll([t]) == Print(t, 1, false);
  }

  /** Why an identifier left of `(` is guarded: with nothing between them, a name and an expression in
      parentheses are not a concatenation but a call. */
  lemma UnguardedIsCall(name: string, t: Tree, more: seq<Token>)
    requires Printable(t) && Stops(0, Cur(more)) && !Assigns(Cur(more))
    ensures Expr([TokId(name), TokLPar] + Print(t, 1, false) + [TokRPar] + more, 0) == Parsed(Call(name, [t]), more, 0)
  {
    PrintOneCall(name, t);
    ParsingUndoesPrinting(Call(name, [t]), more);
  }

  // ----- runs of signs -----

  /** How many of the signs are minus. */
  function Minuses(ops: seq<Opcode>): nat {
    if ops == [] then 0 else (if ops[0] == OpMinus then 1 else 0) + Minuses(ops[1..])
  }

  function SignTokens(ops: seq<Opcode>): seq<Token> {
    if ops == [] then [] else [TokOp(ops[0])] + SignTokens(ops[1..])
  }

  lemma TakeOne(minus: bool, op: Opcode, e: seq<Token>)
    requires op == OpPlus || op == OpMinus
    ensures UnaryPlus(minus, [TokOp(op)] + e, 0) == UnaryPlus(minus != (op == OpMinus), e, 0)
  {
    Step(TokOp(op), e);
  }

  function OddMinuses(ops: seq<Opcode>): bool {
    ops != [] && (ops[0] == OpMinus) != OddMinuses(ops[1..])
  }

  lemma {:induction false} OddIsOdd(ops: seq<Opcode>)
    ensures OddMinuses(ops) <==> Minuses(ops) % 2 == 1
  {
    if ops != [] {
      OddIsOdd(ops[1..]);
    }
  }

  lemma {:induction false} SignRun(minus: bool, ops: seq<Opcode>, e: seq<Token>, t: Tree, more: seq<Token>)
    requires (forall i :: 0 <= i < |ops| ==> ops[i] == OpPlus || ops[i] == OpMinus)
    requires Power(e, 0) == Parsed(t, more, 0) && StartsFactor(Cur(e))
    ensures UnaryPlus(minus, SignTokens(ops) + e, 0)
         == Parsed(Unary(t, if minus != OddMinuses(ops) then OpMinus else OpPlus), more, 0)
    decreases |ops|
  {
    if ops == [] {
      assert SignTokens(ops) + e == e;
      PlusStep(minus, e, t, more);
    } else {
      var rest := SignTokens(ops[1..]) + e;
      assert SignTokens(ops) + e == [TokOp(ops[0])] + rest;
      TakeOne(minus, ops[0], rest);
      SignRun(minus != (ops[0] == OpMinus), ops[1..], e, t, more);
    }
  }

  lemma SignsStart(ops: seq<Opcode>, e: seq<Token>)
    requires ops != [] && (ops[0] == OpPlus || ops[0] == OpMinus)
    ensures Term(SignTokens(ops) + e, 0) == UnaryPlus(false, SignTokens(ops) + e, 0)
  {
    assert (SignTokens(ops) + e)[0] == TokOp(ops[0]);
  }

  /** A run of signs before a power is read as one sign: minus for an odd number of minus signs, else plus. */
  lemma SignsRead(ops: seq<Opcode>, t: Tree, more: seq<Token>)
    requires ops != [] && (forall i :: 0 <= i < |ops| ==> ops[i] == OpPlus || ops[i] == OpMinus)
    requires Printable(t) && Stops(11, Cur(more))
    ensures Term(SignTokens(ops) + (Print(t, POWER, false) + more), 0)
         == Parsed(Unary(t, if Minuses(ops) % 2 == 1 then OpMinus else OpPlus), more, 0)
  {
    var e := Print(t, POWER, false) + more;
    StartsWell(t, POWER, false);
    CurPrint(t, POWER, false, more);
    PowerReads(t, more);
    SignsStart(ops, e);
    SignRun(false, ops, e, t, more);
    OddIsOdd(ops);
  }

  function NotTokens(n: nat): seq<Token> {
    if n == 0 then [] else [TokNot] + NotTokens(n - 1)
  }

  lemma {:induction false} NotRun(odd: bool, n: nat, e: seq<Token>, t: Tree, more: seq<Token>)
    requires Power(e, 0) == Parsed(t, more, 0) && StartsFactor(Cur(e))
    ensures var not := odd == (n % 2 == 0);
            UnaryNot(odd, NotTokens(n) + e, 0) == Parsed(Unary(t, if not then OpNot else OpNotNot), more, 0)
    decreases n
  {
    if n == 0 {
      assert NotTokens(n) + e == e;
      NotStep(odd, e, t, more);
    } else {
      assert NotTokens(n) + e == [TokNot] + (NotTokens(n - 1) + e);
      TakeNot(odd, NotTokens(n - 1) + e);
      NotRun(!odd, n - 1, e, t, more);
    }
  }

  /** A run of `!` before a power is read as one or two, by its parity. */
  lemma NotsRead(n: nat, t: Tree, more: seq<Token>)
    requires n > 0 && Printable(t) && Stops(11, Cur(more))
    ensures Term(NotTokens(n) + (Print(t, POWER, false) + more), 0)
         == Parsed(Unary(t, if n % 2 == 1 then OpNot else OpNotNot), more, 0)
  {
    var e := Print(t, POWER, false) + more;
    StartsWell(t, POWER, false);
    CurPrint(t, POWER, false, more);
    PowerReads(t, more);
    NotRun(false, n, e, t, more);
    assert (NotTokens(n) + e)[0] == TokNot;
  }
}
