/** Tokens and syntax trees (include/lex.h, include/syn_tree.h). */
module Ast {
  import opened Basics

  datatype Value = Number(n: int) | Text(s: string) | Octets(bytes: seq<int>)

  datatype Opcode =
    | OpLOr | OpLAnd | OpBOr | OpBXor | OpBAnd | OpEq | OpNeq | OpGr | OpGe | OpLo | OpLe | OpShl | OpShr
    | OpPlus | OpMinus | OpMul | OpDiv | OpMod | OpPow | OpStrConcat | OpOctConcat | OpNot | OpNotNot

  /** One constructor for all binary operator tokens, one for those that also assign. */
  datatype Token =
    | TokId(name: string) | TokVar(v: Value)
    | TokOp(op: Opcode) | TokOpAs(op: Opcode) | TokAs | TokNot | TokHash
    | TokLPar | TokRPar | TokLBrace | TokRBrace | TokLBracket | TokRBracket
    | TokComma | TokColon | TokQuestion | TokSemicolon | TokDot
    | TokDef | TokIf | TokElse | TokFor | TokDo | TokWhile | TokContinue | TokBreak | TokReturn | TokImport | TokDel
    | TokEol | TokEof | TokUnknown

  /** `Null` is the NULL pointer, `Stub` the node that stands for an error. */
  datatype Tree =
    | Null | Stub
    | Id(name: string) | Var(v: Value)
    | Binary(left: Tree, right: Tree, op: Opcode)
    | Unary(operand: Tree, op: Opcode)
    | Ternary(cond: Tree, yes: Tree, no: Tree)
    | Call(name: string, args: seq<Tree>)
    | Access(name: string, ind: seq<Tree>)
    | Arr(items: seq<Tree>)
    | Seq(items: seq<Tree>)
    | Assign(left: Tree, right: Tree)
    | OpAssign(left: Tree, right: Tree, op: Opcode)
    | If(cond: Tree, body: Tree, els: Tree)
    | For(init: Tree, cond: Tree, step: Tree, body: Tree)
    | While(cond: Tree, body: Tree)
    | Do(cond: Tree, body: Tree)
    | Break | Continue | Return
    | Del(target: Tree)
    | Scope(stmts: seq<Tree>)
    | Func(name: string, params: seq<string>, rets: seq<string>, stmts: seq<Tree>)

  /** No statement anywhere in it. */
  ghost predicate IsExpression(t: Tree) {
    match t
    case Null | Stub | Id(_) | Var(_) => true
    case Unary(e, _) => IsExpression(e)
    case Binary(l, r, _) => IsExpression(l) && IsExpression(r)
    case Ternary(c, y, n) => IsExpression(c) && IsExpression(y) && IsExpression(n)
    case Call(_, args) => forall i :: 0 <= i < |args| ==> IsExpression(args[i])
    case Access(_, ind) => forall i :: 0 <= i < |ind| ==> IsExpression(ind[i])
    case Arr(items) => forall i :: 0 <= i < |items| ==> IsExpression(items[i])
    case Seq(items) => forall i :: 0 <= i < |items| ==> IsExpression(items[i])
    case Assign(l, r) => IsExpression(l) && IsExpression(r)
    case OpAssign(l, r, _) => IsExpression(l) && IsExpression(r)
    case _ => false
  }

  ghost predicate AllExpressions(ts: seq<Tree>) {
    forall i :: 0 <= i < |ts| ==> IsExpression(ts[i])
  }
}
