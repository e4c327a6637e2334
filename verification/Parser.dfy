/** The recursive descent of src/syntax.c on the program's own state: one token of lookahead, one of
    pushback, the error count. */
module Parser {
  import opened Ast
  import opened Basics
  import opened Syntax
  import St = Statements

  /** The token stream: `lex_item`, `lex_item_prev`, `lex_item_future`, `exist_stored_tokens`; the tokens
      the lexer will yield are `input` from `pos` on, then TOK_EOF for ever. */
  class Tokens {
    const input: seq<Token>
    var pos: nat
    var item: Token
    var prev: Token
    var future: Token
    var stored: bool

    ghost predicate Valid()
      reads this
    {
      && pos <= |input| && TokEof !in input
      && (stored ==> item != TokEof && (future == TokEof ==> pos == |input|))
      && (!stored && item == TokEof ==> pos == |input|)
    }

    /** The tokens from the current one on. */
    ghost function Rest(): (r: seq<Token>)
      requires Valid()
      reads this
    {
      if item == TokEof then []
      else if !stored then [item] + input[pos..]
      else if future == TokEof then [item] else [item, future] + input[pos..]
    }

    constructor (input: seq<Token>)
      requires TokEof !in input
      ensures Valid() && this.input == input && pos == 0 && !stored && Rest() == [TokEol] + input
    {
      this.input := input;
      pos, item, prev, future, stored := 0, TokEol, TokEol, TokEol, false;
    }

    /** `tok_next`. */
    method TokNext()
      requires Valid()
      modifies this
      ensures Valid() && Rest() == Next(old(Rest())) && prev == old(item) && !stored
      ensures old(Rest()) != [] ==> |Rest()| < |old(Rest())|
    {
      prev := item;
      if stored {
        item := future;
        stored := false;
      } else if pos < |input| {
        item := input[pos];
        pos := pos + 1;
      } else {
        item := TokEof;
      }
    }

    /** `tok_pop`: the current token goes back, the one before it is current again. */
    method TokPop()
      requires Valid() && !stored && prev != TokEof
      modifies this
      ensures Valid() && Rest() == [old(prev)] + old(Rest())
    {
      stored := true;
      future := item;
      item := prev;
    }
  }

  lemma FirstAndNext(s: seq<Token>)
    requires s != []
    ensures s == [Cur(s)] + Next(s)
  {
  }

  class Parser {
    const toks: Tokens
    var nerrors: nat
    /** `helper`. */
    var isCycle: nat
    var isCond: nat
    var isFunc: nat

    ghost predicate Valid()
      reads this, toks
    {
      toks.Valid()
    }

    ghost function Rest(): seq<Token>
      requires Valid()
      reads this, toks
    {
      toks.Rest()
    }

    /** `current_tok`. */
    function Tok(): (t: Token)
      requires Valid()
      reads this, toks
      ensures t == Cur(Rest())
    {
      toks.item
    }

    /** `match`; the name of an expected identifier does not matter. */
    method Match(wanted: Token) returns (r: bool)
      requires Valid() && wanted != TokEof
      modifies toks
      ensures Valid() && r == (if wanted.TokId? then Cur(old(Rest())).TokId? else Cur(old(Rest())) == wanted)
      ensures if r then
                && Rest() == Next(old(Rest())) && |Rest()| < |old(Rest())|
                && toks.prev == Cur(old(Rest())) && !toks.stored
              else Rest() == old(Rest()) && unchanged(toks)
    {
      r := if wanted.TokId? then Tok().TokId? else Tok() == wanted;
      if r {
        toks.TokNext();
      }
    }

    /** The parser stands where the parsing function ends. */
    ghost predicate Ends(t: Tree, p: Parsed)
      reads this, toks
    {
      Valid() && p == Parsed(t, Rest(), nerrors)
    }

    constructor (toks: Tokens)
      requires toks.Valid()
      ensures this.toks == toks && nerrors == isCycle == isCond == isFunc == 0
    {
      this.toks := toks;
      nerrors, isCycle, isCond, isFunc := 0, 0, 0, 0;
    }

    /** `sync_stream`. */
    method SyncStream()
      requires Valid()
      modifies toks
      ensures Valid() && Rest() == Sync(old(Rest()))
    {
      while Tok() != TokEol && Tok() != TokEof
        invariant Valid() && Sync(Rest()) == Sync(old(Rest())) && Tok() == Cur(Rest())
        decreases |Rest()|
      {
        toks.TokNext();
      }
    }

    /** `expr`. */
    method Expr() returns (t: Tree)
      requires Valid()
      modifies toks, `nerrors
      ensures Ends(t, Syntax.Expr(old(Rest()), old(nerrors)))
      ensures |Rest()| <= |old(Rest())|
      decreases |Rest()|, 40
    {
      t := TrenaryOp();
      if t.Null? {
        return;
      }
      match Tok()
      case TokAs | TokComma => t := Assign(t, 0);
      case TokOpAs(op) => t := OpWithAssign(t);
      case _ =>
    }

    /** `op_with_assign`. */
    method OpWithAssign(node: Tree) returns (t: Tree)
      requires Valid() && Tok().TokOpAs?
      modifies toks, `nerrors
      ensures Ends(t, Syntax.OpWithAssign(node, old(Tok().op), old(Rest()), old(nerrors)))
      ensures |Rest()| <= |old(Rest())|
      decreases |Rest()|, 39
    {
      if !IsLvalue(node) {
        nerrors := nerrors + 1;
        return Stub;
      }
      var op := Tok().op;
      toks.TokNext();
      var right := TrenaryOp();
      if right.Null? {
        nerrors := nerrors + 1;
        return Stub;
      }
      return OpAssign(node, right, op);
    }

    /** `get_rval`. */
    method GetRval() returns (t: Tree)
      requires Valid()
      modifies toks, `nerrors
      ensures Ends(t, Syntax.GetRval(old(Rest()), old(nerrors)))
      ensures |Rest()| <= |old(Rest())|
      decreases |Rest()|, 39
    {
      var brace := Match(TokLBrace);
      if brace {
        t := ArrayInit();
      } else {
        t := TrenaryOp();
      }
      if t.Null? {
        nerrors := nerrors + 1;
      }
    }

    /** `get_seq`. */
    method GetSeq(first: Tree) returns (t: Tree)
      requires Valid()
      modifies toks, `nerrors
      ensures Ends(t, Syntax.GetSeq([first], old(Rest()), old(nerrors)))
      ensures |Rest()| <= |old(Rest())|
      decreases |Rest()|, 37
    {
      var items := [first];
      ghost var all := Syntax.GetSeq(items, Rest(), nerrors);
      while Tok().TokComma?
        invariant Valid() && |Rest()| <= |old(Rest())|
        invariant all == Syntax.GetSeq(items, Rest(), nerrors)
        decreases |Rest()|
      {
        toks.TokNext();
        var node := GetRval();
        if node.Null? || nerrors != 0 {
          nerrors := nerrors + 1;
          return Null;
        }
        items := items + [node];
      }
      return Seq(items);
    }

    /** `assign`. */
    method Assign(first: Tree, nesting: nat) returns (t: Tree)
      requires Valid()
      modifies toks, `nerrors
      ensures Ends(t, Syntax.AssignExpr(first, nesting > 0, old(Rest()), old(nerrors)))
      ensures |Rest()| <= |old(Rest())|
      decreases |Rest()|, 38
    {
      var lseq := GetSeq(first);
      AssignIs(first, nesting > 0, old(Rest()), old(nerrors), Parsed(lseq, Rest(), nerrors));
      if lseq.Null? || nerrors != 0 {
        return Stub;
      }
      var equals := Match(TokAs);
      if !equals {
        return if nesting > 0 then lseq else Stub;
      }
      var lvalues := IsLvalueSeq(lseq);
      if !lvalues {
        return Stub;
      }
      t := AssignRight(lseq, nesting);
    }

    /** The right side of an assignment. */
    method AssignRight(lseq: Tree, nesting: nat) returns (t: Tree)
      requires Valid() && nerrors == 0
      modifies toks, `nerrors
      ensures Ends(t, Syntax.AssignRight(lseq, old(Rest())))
      ensures |Rest()| <= |old(Rest())|
      decreases |Rest()|, 40
    {
      var node := GetRval();
      if node.Null? || nerrors != 0 {
        return Stub;
      }
      var rseq := Assign(node, nesting + 1);
      if nerrors != 0 {
        return Stub;
      }
      return Tree.Assign(lseq, rseq);
    }

    /** `is_lvalue_seq`. */
    method IsLvalueSeq(t: Tree) returns (r: bool)
      ensures r == LvalueSeq(t)
    {
      if !t.Seq? {
        return false;
      }
      for i := 0 to |t.items|
        invariant forall j :: 0 <= j < i ==> IsLvalue(t.items[j])
      {
        if !IsLvalue(t.items[i]) {
          return false;
        }
      }
      return true;
    }

    /** `trenary_op`. */
    method TrenaryOp() returns (t: Tree)
      requires Valid()
      modifies toks, `nerrors
      ensures Ends(t, Syntax.TrenaryOp(old(Rest()), old(nerrors)))
      ensures |Rest()| <= |old(Rest())|
      decreases |Rest()|, 36
    {
      t := Level(0);
      TrenaryIs(old(Rest()), old(nerrors), Parsed(t, Rest(), nerrors));
      if t.Null? {
        return;
      }
      var question := Match(TokQuestion);
      if question {
        t := TernaryRest(t);
      }
    }

    /** `trenary_op` after the question mark. */
    method TernaryRest(cond: Tree) returns (t: Tree)
      requires Valid()
      modifies toks, `nerrors
      ensures Ends(t, Syntax.TernaryRest(cond, old(Rest()), old(nerrors)))
      ensures |Rest()| <= |old(Rest())|
      decreases |Rest()|, 41
    {
      var yes := Expr();
      var colon := Match(TokColon);
      if !colon || yes.Null? || nerrors != 0 {
        nerrors := nerrors + 1;
        return Stub;
      }
      var no := Expr();
      if no.Null? || nerrors != 0 {
        nerrors := nerrors + 1;
        return Stub;
      }
      return Ternary(cond, yes, no);
    }

    /** `logic_or` (0) ... `mul_expr` (9), `term` (10): one loop with the operators of the level. */
    method Level(k: nat) returns (result: Tree)
      requires Valid() && k <= TERM
      modifies toks, `nerrors
      ensures Ends(result, Syntax.Level(k, old(Rest()), old(nerrors)))
      ensures |Rest()| <= |old(Rest())|
      decreases |Rest()|, 35 - 2 * k
    {
      if k == TERM {
        result := Term();
        return;
      }
      result := Level(k + 1);
      if result.Null? {
        return;
      }
      ghost var all := Syntax.Level(k, old(Rest()), old(nerrors));
      while IsLevelOp(Tok(), k)
        invariant Valid() && |Rest()| <= |old(Rest())|
        invariant all == LevelRest(k, result, Rest(), nerrors)
        decreases |Rest()|
      {
        result := LevelStep(k, result);
      }
    }

    /** One round of the loop of a level. */
    method LevelStep(k: nat, left: Tree) returns (result: Tree)
      requires Valid() && k < TERM && IsLevelOp(Tok(), k)
      modifies toks, `nerrors
      ensures Valid() && |Rest()| < |old(Rest())|
      ensures LevelRest(k, result, Rest(), nerrors) == LevelRest(k, left, old(Rest()), old(nerrors))
      decreases |Rest()|, 34 - 2 * k
    {
      ghost var s, e := Rest(), nerrors;
      var op := Tok().op;
      toks.TokNext();
      var right := Level(k + 1);
      LevelRestIs(k, left, s, e, Parsed(right, Rest(), nerrors));
      if right.Null? {
        nerrors := nerrors + 1;
        right := Stub;
      }
      result := Binary(left, right, op);
    }

    /** `term`. */
    method Term() returns (t: Tree)
      requires Valid()
      modifies toks, `nerrors
      ensures Ends(t, Syntax.Term(old(Rest()), old(nerrors)))
      ensures |Rest()| <= |old(Rest())|
      decreases |Rest()|, 14
    {
      if Tok().TokEol? || Tok().TokSemicolon? || Tok().TokEof? {
        return Null;
      } else if IsSign(Tok()) {
        t := UnaryPlus();
      } else if Tok().TokNot? {
        t := UnaryNot();
      } else {
        t := Power();
      }
    }

    /** `unary_not`. */
    method UnaryNot() returns (t: Tree)
      requires Valid()
      modifies toks, `nerrors
      ensures Ends(t, Syntax.UnaryNot(false, old(Rest()), old(nerrors)))
      ensures |Rest()| <= |old(Rest())|
      decreases |Rest()|, 13
    {
      var odd := false;
      while Tok().TokNot?
        invariant Valid() && |Rest()| <= |old(Rest())| && nerrors == old(nerrors)
        invariant Syntax.UnaryNot(odd, Rest(), nerrors) == Syntax.UnaryNot(false, old(Rest()), nerrors)
        decreases |Rest()|
      {
        odd := !odd;
        toks.TokNext();
      }
      var node := Power();
      return Unary(node, if odd then OpNot else OpNotNot);
    }

    /** `unary_plus`. */
    method UnaryPlus() returns (t: Tree)
      requires Valid()
      modifies toks, `nerrors
      ensures Ends(t, Syntax.UnaryPlus(false, old(Rest()), old(nerrors)))
      ensures |Rest()| <= |old(Rest())|
      decreases |Rest()|, 13
    {
      var minus := false;
      while IsSign(Tok())
        invariant Valid() && |Rest()| <= |old(Rest())| && nerrors == old(nerrors)
        invariant Syntax.UnaryPlus(minus, Rest(), nerrors) == Syntax.UnaryPlus(false, old(Rest()), nerrors)
        decreases |Rest()|
      {
        if Tok() == TokOp(OpMinus) {
          minus := !minus;
        }
        toks.TokNext();
      }
      var node := Power();
      return Unary(node, if minus then OpMinus else OpPlus);
    }

    /** `power`. */
    method Power() returns (t: Tree)
      requires Valid()
      modifies toks, `nerrors
      ensures Ends(t, Syntax.Power(old(Rest()), old(nerrors)))
      ensures |Rest()| <= |old(Rest())|
      decreases |Rest()|, 12
    {
      t := Concatenation();
      if t.Null? || Tok() != TokOp(OpPow) {
        return;
      }
      PowerIs(old(Rest()), old(nerrors), Parsed(t, Rest(), nerrors));
      toks.TokNext();
      var right := Power();
      if right.Null? {
        nerrors := nerrors + 1;
        right := Stub;
      }
      return Binary(t, right, OpPow);
    }

    /** `concatenation`: juxtaposition. */
    method Concatenation() returns (result: Tree)
      requires Valid()
      modifies toks, `nerrors
      ensures Ends(result, Syntax.Concatenation(old(Rest()), old(nerrors)))
      ensures |Rest()| <= |old(Rest())|
      decreases |Rest()|, 11
    {
      result := Factor();
      if result.Null? {
        return;
      }
      ghost var all := Syntax.Concatenation(old(Rest()), old(nerrors));
      while StartsFactor(Tok()) || Tok().TokHash?
        invariant Valid() && |Rest()| <= |old(Rest())|
        invariant all == ConcatenationRest(result, Rest(), nerrors)
        decreases |Rest()|
      {
        result := ConcatenationStep(result);
      }
    }

    /** One round of the loop of `concatenation`. */
    method ConcatenationStep(left: Tree) returns (result: Tree)
      requires Valid() && (StartsFactor(Tok()) || Tok().TokHash?)
      modifies toks, `nerrors
      ensures Valid() && |Rest()| < |old(Rest())|
      ensures ConcatenationRest(result, Rest(), nerrors) == ConcatenationRest(left, old(Rest()), old(nerrors))
      decreases |Rest()|, 10
    {
      ghost var s, e := Rest(), nerrors;
      var op := OpStrConcat;
      if Tok().TokHash? {
        op := OpOctConcat;
        toks.TokNext();
      }
      var right := Factor();
      ConcatenationRestIs(left, s, e, Parsed(right, Rest(), nerrors), op);
      if right.Null? {
        nerrors := nerrors + 1;
        right := Stub;
      }
      result := Binary(left, right, op);
    }

    /** `factor`. */
    method Factor() returns (t: Tree)
      requires Valid()
      modifies toks, `nerrors
      ensures Ends(t, Syntax.Factor(old(Rest()), old(nerrors)))
      ensures |Rest()| <= |old(Rest())|
      decreases |Rest()|, 9
    {
      if Tok().TokLPar? {
        ghost var s, e := Rest(), nerrors;
        toks.TokNext();
        t := TrenaryOp();
        GroupIs(s, e, Parsed(t, Rest(), nerrors));
        var closed := Match(TokRPar);
        if !closed {
          nerrors := nerrors + 1;
        }
      } else if Tok().TokId? {
        toks.TokNext();
        t := Identifier();
      } else if Tok().TokVar? {
        toks.TokNext();
        return Var(toks.prev.v);
      } else {
        nerrors := nerrors + 1;
        SyncStream();
        return Stub;
      }
    }

    /** `identifier`: the name is in `lex_item_prev`. */
    method Identifier() returns (t: Tree)
      requires Valid() && toks.prev.TokId?
      modifies toks, `nerrors
      ensures Ends(t, Syntax.Identifier(old(toks.prev.name), old(Rest()), old(nerrors)))
      ensures |Rest()| <= |old(Rest())|
      decreases |Rest()|, 41
    {
      match Tok()
      case TokLBracket => t := ArrayAccess();
      case TokLPar => t := FunctionCall();
      case _ => t := Id(toks.prev.name);
    }

    /** `function_call`. */
    method FunctionCall() returns (t: Tree)
      requires Valid() && toks.prev.TokId? && Tok().TokLPar?
      modifies toks, `nerrors
      ensures Ends(t, Syntax.FunctionCall(old(toks.prev.name), [], Next(old(Rest())), old(nerrors)))
      ensures |Rest()| <= |old(Rest())|
      decreases |Rest()|, 40
    {
      var name := toks.prev.name;
      var args: seq<Tree> := [];
      ghost var all := Syntax.FunctionCall(name, [], Next(Rest()), nerrors);
      toks.TokNext();
      while !Tok().TokRPar?
        invariant Valid() && |Rest()| < |old(Rest())|
        invariant all == Syntax.FunctionCall(name, args, Rest(), nerrors)
        decreases |Rest()|, !Tok().TokRPar?
      {
        var node := Level(0);
        if node.Null? {
          nerrors := nerrors + 1;
          return Stub;
        }
        args := args + [node];
        var comma := Match(TokComma);
        if !comma && !Tok().TokRPar? {
          nerrors := nerrors + 1;
          return Stub;
        }
      }
      toks.TokNext();
      return Call(name, args);
    }

    /** `array_access`. */
    method ArrayAccess() returns (t: Tree)
      requires Valid() && toks.prev.TokId? && Tok().TokLBracket?
      modifies toks, `nerrors
      ensures Ends(t, Syntax.ArrayAccess(old(toks.prev.name), [], Next(old(Rest())), old(nerrors)))
      ensures |Rest()| <= |old(Rest())|
      decreases |Rest()|, 40
    {
      var name := toks.prev.name;
      var ind: seq<Tree> := [];
      ghost var all := Syntax.ArrayAccess(name, [], Next(Rest()), nerrors);
      toks.TokNext();
      var comma := true;
      while comma
        invariant Valid() && |Rest()| < |old(Rest())|
        invariant if comma then all == Syntax.ArrayAccess(name, ind, Rest(), nerrors)
                  else if Cur(Rest()).TokRBracket? then all == Parsed(Access(name, ind), Next(Rest()), nerrors)
                  else all == Parsed(Stub, Rest(), nerrors + 1)
        decreases |Rest()|, comma
      {
        ghost var s, e := Rest(), nerrors;
        var item := Level(0);
        ArrayAccessIs(name, ind, s, e, Parsed(item, Rest(), nerrors));
        if item.Null? {
          nerrors := nerrors + 1;
          return Stub;
        }
        ind := ind + [item];
        comma := Match(TokComma);
      }
      var closed := Match(TokRBracket);
      if !closed {
        nerrors := nerrors + 1;
        return Stub;
      }
      return Access(name, ind);
    }

    /** `array_init`. */
    method ArrayInit() returns (t: Tree)
      requires Valid()
      modifies toks, `nerrors
      ensures Ends(t, Syntax.ArrayInit([], old(Rest()), old(nerrors)))
      ensures |Rest()| <= |old(Rest())|
      decreases |Rest()|, 40
    {
      var items: seq<Tree> := [];
      ghost var all := Syntax.ArrayInit([], Rest(), nerrors);
      var comma := true;
      while comma
        invariant Valid() && |Rest()| <= |old(Rest())|
        invariant if comma then all == Syntax.ArrayInit(items, Rest(), nerrors)
                  else if Cur(Rest()).TokRBrace? then all == Parsed(Arr(items), Next(Rest()), nerrors)
                  else all == Parsed(Null, Sync(Rest()), nerrors)
        decreases |Rest()|, comma
      {
        var item := Level(0);
        if item.Null? {
          SyncStream();
          return Null;
        }
        items := items + [item];
        comma := Match(TokComma);
      }
      var closed := Match(TokRBrace);
      if !closed {
        SyncStream();
        return Null;
      }
      return Arr(items);
    }

    // ----- statements -----

    /** The same, but for the error that a stub still has to be counted for. */
    ghost predicate EndsButCount(t: Tree, p: Parsed)
      reads this, toks
    {
      Valid() && p == Parsed(t, Rest(), if t.Stub? then nerrors + 1 else nerrors)
    }

    ghost function Ctx(): St.Ctx
      reads this
    {
      St.Ctx(isCycle, isFunc)
    }

    /** `statement`. */
    method Statement() returns (t: Tree)
      requires Valid()
      modifies toks, this
      ensures Ends(t, St.Statement(old(Rest()), old(nerrors), old(Ctx()))) && Ctx() == old(Ctx())
      ensures |Rest()| <= |old(Rest())|
      decreases |Rest()|, 1
    {
      St.StatementIs(Rest(), nerrors, Ctx());
      if Tok().TokLBrace? {
        toks.TokNext();
        t := ProcessScope();
      } else if Tok().TokIf? {
        toks.TokNext();
        t := ProcessIf();
      } else if Tok().TokFor? {
        toks.TokNext();
        t := ProcessFor();
      } else if Tok().TokWhile? {
        toks.TokNext();
        t := ProcessWhile();
      } else {
        t := Jump();
      }
    }

    /** The part of `statement` for `break`, `continue` and `return`. */
    method Jump() returns (t: Tree)
      requires Valid()
      modifies toks, this
      ensures Ends(t, St.Jump(old(Rest()), old(nerrors), old(Ctx()))) && Ctx() == old(Ctx())
      ensures |Rest()| <= |old(Rest())|
      decreases |Rest()|, 0, 1
    {
      St.JumpIs(Rest(), nerrors, Ctx());
      if Tok().TokBreak? {
        toks.TokNext();
        t := ProcessBreak();
      } else if Tok().TokContinue? {
        toks.TokNext();
        t := ProcessContinue();
      } else if Tok().TokReturn? {
        toks.TokNext();
        t := ProcessReturn();
      } else {
        t := LastCases();
      }
    }

    /** The rest of `statement`. */
    method LastCases() returns (t: Tree)
      requires Valid()
      modifies toks, this
      ensures Ends(t, St.LastCases(old(Rest()), old(nerrors), old(Ctx()))) && Ctx() == old(Ctx())
      ensures |Rest()| <= |old(Rest())|
      decreases |Rest()|, 0, 0
    {
      St.LastCasesIs(Rest(), nerrors, Ctx());
      if Tok().TokDo? {
        toks.TokNext();
        t := ProcessDo();
      } else if Tok().TokDel? {
        toks.TokNext();
        t := ProcessDel();
      } else {
        t := Expr();
      }
    }

    /** `process_break`. */
    method ProcessBreak() returns (t: Tree)
      requires Valid()
      modifies `nerrors
      ensures Ends(t, St.ProcessBreak(old(Rest()), old(nerrors), old(Ctx())))
    {
      if isCycle == 0 {
        nerrors := nerrors + 1;
        return Stub;
      }
      return Break;
    }

    /** `process_continue`. */
    method ProcessContinue() returns (t: Tree)
      requires Valid()
      modifies `nerrors
      ensures Ends(t, St.ProcessContinue(old(Rest()), old(nerrors), old(Ctx())))
    {
      if isCycle == 0 {
        nerrors := nerrors + 1;
        return Stub;
      }
      return Continue;
    }

    /** `process_return`. */
    method ProcessReturn() returns (t: Tree)
      requires Valid()
      modifies toks, `nerrors
      ensures Ends(t, St.ProcessReturn(old(Rest()), old(nerrors), old(Ctx())))
    {
      if isFunc == 0 {
        nerrors := nerrors + 1;
        SyncStream();
        return Stub;
      }
      return Return;
    }

    /** `block`. */
    method Block() returns (stmts: seq<Tree>)
      requires Valid()
      modifies toks, this
      ensures Valid() && Ctx() == old(Ctx())
      ensures St.Stmts(stmts, Rest(), nerrors) == St.Block([], old(Rest()), old(nerrors), old(Ctx()))
      decreases |Rest()|, 2
    {
      stmts := [];
      ghost var all := St.Block([], Rest(), nerrors, Ctx());
      while Tok() != TokEof && !Tok().TokRBrace?
        invariant Valid() && |Rest()| <= |old(Rest())| && Ctx() == old(Ctx())
        invariant all == St.Block(stmts, Rest(), nerrors, Ctx())
        decreases |Rest()|
      {
        var t := Statement();
        if !t.Null? {
          stmts := stmts + [t];
        }
        if nerrors != 0 {
          return;
        }
        if !St.StmtEnd(Tok()) {
          nerrors := nerrors + 1;
          SyncStream();
          return;
        }
        toks.TokNext();
      }
    }

    /** `process_scope`. */
    method ProcessScope() returns (t: Tree)
      requires Valid()
      modifies toks, this
      ensures Ends(t, St.ProcessScope(old(Rest()), old(nerrors), old(Ctx()))) && Ctx() == old(Ctx())
      ensures |Rest()| <= |old(Rest())|
      decreases |Rest()|, 3
    {
      var stmts := Block();
      if nerrors != 0 {
        return Stub;
      }
      var closed := Match(TokRBrace);
      if !closed {
        nerrors := nerrors + 1;
        return Stub;
      }
      return Scope(stmts);
    }

    /** The body of a condition or a loop. */
    method Body() returns (t: Tree)
      requires Valid()
      modifies toks, this
      ensures Ends(t, St.Body(old(Rest()), old(nerrors), old(Ctx()))) && Ctx() == old(Ctx())
      ensures |Rest()| <= |old(Rest())|
      decreases |Rest()|, 4
    {
      var brace := Match(TokLBrace);
      if !brace {
        var skipped := SkipEol();
        t := Statement();
      } else {
        t := ProcessScope();
      }
    }

    /** `skip_eol`. */
    method SkipEol() returns (skipped: bool)
      requires Valid()
      modifies toks
      ensures Valid() && Rest() == St.SkipEol(old(Rest())) && skipped == Cur(old(Rest())).TokEol?
      ensures |Rest()| <= |old(Rest())|
      ensures skipped ==> !toks.stored && toks.prev == TokEol
    {
      skipped := Match(TokEol);
    }

    /** `process_if`. */
    method ProcessIf() returns (t: Tree)
      requires Valid()
      modifies toks, this
      ensures Ends(t, St.ProcessIf(old(Rest()), old(nerrors), old(Ctx()))) && Ctx() == old(Ctx())
      ensures |Rest()| <= |old(Rest())|
      decreases |Rest()|, 7
    {
      var saved := isCond;
      isCond := isCond + 1;
      t := IfRest();
      if t.Stub? {
        nerrors := nerrors + 1;
      }
      isCond := saved;
    }

    /** `process_if` up to the error exit, taken when the result is a stub. */
    method IfRest() returns (t: Tree)
      requires Valid()
      modifies toks, this
      ensures Valid() && Ctx() == old(Ctx())
      ensures EndsButCount(t, St.ProcessIf(old(Rest()), old(nerrors), old(Ctx())))
      decreases |Rest()|, 6
    {
      var open := Match(TokLPar);
      if !open {
        return Stub;
      }
      var cond := Level(0);
      if cond.Null? {
        return Stub;
      }
      var closed := Match(TokRPar);
      if !closed {
        return Stub;
      }
      t := IfBody(cond);
    }

    /** The body of a condition and what follows it. */
    method IfBody(cond: Tree) returns (t: Tree)
      requires Valid()
      modifies toks, this
      ensures Valid() && Ctx() == old(Ctx())
      ensures EndsButCount(t, St.IfBody(cond, old(Rest()), old(nerrors), old(Ctx())))
      decreases |Rest()|, 5
    {
      var body := Body();
      if nerrors != 0 {
        return Stub;
      }
      t := IfElse(cond, body);
    }

    /** The `else` part, or the giving back of an end of line. */
    method IfElse(cond: Tree, body: Tree) returns (t: Tree)
      requires Valid()
      modifies toks, this
      ensures Valid() && Ctx() == old(Ctx())
      ensures EndsButCount(t, St.IfElse(cond, body, old(Rest()), old(nerrors), old(Ctx())))
      decreases |Rest()|, 4
    {
      ghost var s, e := Rest(), nerrors;
      var skipped := SkipEol();
      if Tok().TokElse? {
        t := ElsePart(cond, body, s);
        return;
      }
      St.NoElseIs(cond, body, s, e, Ctx());
      GiveBack(skipped, s);
      return If(cond, body, Null);
    }

    /** The skipped end of line is given back. */
    method GiveBack(skipped: bool, ghost s: seq<Token>)
      requires Valid() && Rest() == St.SkipEol(s) && skipped == Cur(s).TokEol?
      requires skipped ==> !toks.stored && toks.prev == TokEol
      modifies toks
      ensures Valid() && Rest() == s
    {
      if skipped {
        FirstAndNext(s);
        toks.TokPop();
      }
    }

    /** `else` and the statement after it; `s` is where the body ended. */
    method ElsePart(cond: Tree, body: Tree, ghost s: seq<Token>) returns (t: Tree)
      requires Valid() && Rest() == St.SkipEol(s) && Tok().TokElse?
      modifies toks, this
      ensures Valid() && Ctx() == old(Ctx())
      ensures EndsButCount(t, St.IfElse(cond, body, s, old(nerrors), old(Ctx())))
      decreases |Rest()|, 3
    {
      toks.TokNext();
      var skipped := SkipEol();
      var els := Statement();
      St.ElseIs(cond, body, s, old(nerrors), Ctx(), Parsed(els, Rest(), nerrors));
      return if els.Null? || nerrors != 0 then Stub else If(cond, body, els);
    }

    /** The body of a loop. */
    method LoopBody() returns (t: Tree)
      requires Valid()
      modifies toks, this
      ensures Ends(t, St.Body(old(Rest()), old(nerrors), St.Deeper(old(Ctx())))) && Ctx() == old(Ctx())
      ensures |Rest()| <= |old(Rest())|
      decreases |Rest()|, 5
    {
      isCycle := isCycle + 1;
      t := Body();
      isCycle := isCycle - 1;
    }

    /** `process_for`. */
    method ProcessFor() returns (t: Tree)
      requires Valid()
      modifies toks, this
      ensures Ends(t, St.ProcessFor(old(Rest()), old(nerrors), old(Ctx()))) && Ctx() == old(Ctx())
      ensures |Rest()| <= |old(Rest())|
      decreases |Rest()|, 9
    {
      var open := Match(TokLPar);
      if !open {
        return Stub;
      }
      var expr1 := Expr();
      var semicolon := Match(TokSemicolon);
      if !semicolon {
        return Stub;
      }
      t := ForCond(expr1);
    }

    method ForCond(init: Tree) returns (t: Tree)
      requires Valid()
      modifies toks, this
      ensures Ends(t, St.ForCond(init, old(Rest()), old(nerrors), old(Ctx()))) && Ctx() == old(Ctx())
      ensures |Rest()| <= |old(Rest())|
      decreases |Rest()|, 8
    {
      var expr2 := Level(0);
      var semicolon := Match(TokSemicolon);
      if !semicolon {
        return Stub;
      }
      t := ForStep(init, expr2);
    }

    method ForStep(init: Tree, cond: Tree) returns (t: Tree)
      requires Valid()
      modifies toks, this
      ensures Ends(t, St.ForStep(init, cond, old(Rest()), old(nerrors), old(Ctx()))) && Ctx() == old(Ctx())
      ensures |Rest()| <= |old(Rest())|
      decreases |Rest()|, 7
    {
      var expr3 := Null;
      if !Tok().TokRPar? {
        expr3 := Expr();
      }
      St.ForStepIs(init, cond, old(Rest()), old(nerrors), Ctx(), Parsed(expr3, Rest(), nerrors));
      var closed := Match(TokRPar);
      if !closed {
        return Stub;
      }
      t := ForBody(init, cond, expr3);
    }

    method ForBody(init: Tree, cond: Tree, step: Tree) returns (t: Tree)
      requires Valid()
      modifies toks, this
      ensures Ends(t, St.ForBody(init, cond, step, old(Rest()), old(nerrors), old(Ctx()))) && Ctx() == old(Ctx())
      ensures |Rest()| <= |old(Rest())|
      decreases |Rest()|, 6
    {
      ghost var s, e := Rest(), nerrors;
      var body := LoopBody();
      St.ForBodyIs(init, cond, step, s, e, Ctx(), Parsed(body, Rest(), nerrors));
      if nerrors != 0 {
        return Stub;
      }
      return For(init, cond, step, body);
    }

    /** `process_while`. */
    method ProcessWhile() returns (t: Tree)
      requires Valid()
      modifies toks, this
      ensures Ends(t, St.ProcessWhile(old(Rest()), old(nerrors), old(Ctx()))) && Ctx() == old(Ctx())
      ensures |Rest()| <= |old(Rest())|
      decreases |Rest()|, 6
    {
      var open := Match(TokLPar);
      if !open {
        return Stub;
      }
      var cond := Level(0);
      var closed := Match(TokRPar);
      if !closed {
        return Stub;
      }
      var body := LoopBody();
      if nerrors != 0 {
        return Stub;
      }
      return While(cond, body);
    }

    /** `process_do`. */
    method ProcessDo() returns (t: Tree)
      requires Valid()
      modifies toks, this
      ensures Ends(t, St.ProcessDo(old(Rest()), old(nerrors), old(Ctx()))) && Ctx() == old(Ctx())
      ensures |Rest()| <= |old(Rest())|
      decreases |Rest()|, 6
    {
      var body := LoopBody();
      if nerrors != 0 {
        return Stub;
      }
      var skipped := SkipEol();
      t := DoCond(body);
    }

    method DoCond(body: Tree) returns (t: Tree)
      requires Valid()
      modifies toks, `nerrors
      ensures Ends(t, St.DoCond(body, old(Rest()), old(nerrors)))
      ensures |Rest()| <= |old(Rest())|
    {
      var isWhile := Match(TokWhile);
      if !isWhile {
        return Stub;
      }
      var open := Match(TokLPar);
      if !open {
        return Stub;
      }
      var cond := Level(0);
      var closed := Match(TokRPar);
      if !closed {
        return Stub;
      }
      return Do(cond, body);
    }

    /** `process_del`. */
    method ProcessDel() returns (t: Tree)
      requires Valid()
      modifies toks, `nerrors
      ensures Ends(t, St.ProcessDel(old(Rest()), old(nerrors)))
      ensures |Rest()| <= |old(Rest())|
    {
      var isId := Match(TokId(""));
      if isId {
        var node := Identifier();
        if IsLvalue(node) {
          return Del(node);
        }
      }
      SyncStream();
      nerrors := nerrors + 1;
      return Stub;
    }

    /** `get_name_arr`. */
    method GetNameArr(end: Token, limit: nat) returns (ok: bool, names: seq<string>)
      requires Valid() && end != TokEof && !end.TokId? && !end.TokComma?
      modifies toks
      ensures Valid()
      ensures St.NameArr([], old(Rest()), end, limit) == if ok then St.Names(names, Rest()) else St.BadNames(Rest())
      ensures ok ==> Cur(Rest()) == end
    {
      names := [];
      ghost var all := St.NameArr([], Rest(), end, limit);
      while Tok() != end
        invariant Valid() && all == St.NameArr(names, Rest(), end, limit)
        decreases |Rest()|
      {
        var isId := Match(TokId(""));
        if !isId {
          return false, [];
        }
        if |names| + 1 > limit {
          return false, [];
        }
        names := names + [toks.prev.name];
        var comma := Match(TokComma);
        if !comma && Tok() != end {
          return false, [];
        }
      }
      return true, names;
    }

    /** `process_function`. */
    method ProcessFunction() returns (t: Tree)
      requires Valid()
      modifies toks, this
      ensures Ends(t, St.ProcessFunction(old(Rest()), old(nerrors), old(Ctx())))
      ensures |Rest()| <= |old(Rest())|
      ensures nerrors == 0 ==> Ctx() == old(Ctx())
    {
      t := FunctionRest();
      if t.Stub? {
        nerrors := nerrors + 1;
        SyncStream();
      }
    }

    /** `process_function` up to the error exit, taken when the result is a stub. */
    method FunctionRest() returns (t: Tree)
      requires Valid()
      modifies toks, this
      ensures Valid() && (!t.Stub? ==> Ctx() == old(Ctx()))
      ensures St.ProcessFunction(old(Rest()), old(nerrors), old(Ctx()))
           == if t.Stub? then St.FunctionError(Rest(), nerrors) else Parsed(t, Rest(), nerrors)
    {
      var open := Match(TokLBracket);
      if !open {
        return Stub;
      }
      var ok, rets := GetNameArr(TokRBracket, St.MAXRETARGS);
      if !ok {
        return Stub;
      }
      St.FunctionIs(old(Rest()), nerrors, Ctx(), rets, Rest());
      toks.TokNext();
      var isId := Match(TokId(""));
      if !isId {
        return Stub;
      }
      t := FunctionParams(toks.prev.name, rets);
    }

    /** `process_function_arguments` and what follows. */
    method FunctionParams(name: string, rets: seq<string>) returns (t: Tree)
      requires Valid()
      modifies toks, this
      ensures Valid() && (!t.Stub? ==> Ctx() == old(Ctx()))
      ensures St.FunctionParams(name, rets, old(Rest()), old(nerrors), old(Ctx()))
           == if t.Stub? then St.FunctionError(Rest(), nerrors) else Parsed(t, Rest(), nerrors)
    {
      var open := Match(TokLPar);
      if !open {
        return Stub;
      }
      var ok, params := GetNameArr(TokRPar, St.MAXFARGS);
      if !ok {
        return Stub;
      }
      toks.TokNext();
      t := FunctionBody(name, rets, params);
    }

    /** `process_function_body`; an error leaves `is_func` counted up. */
    method FunctionBody(name: string, rets: seq<string>, params: seq<string>) returns (t: Tree)
      requires Valid()
      modifies toks, this
      ensures Valid() && (!t.Stub? ==> Ctx() == old(Ctx()))
      ensures St.FunctionBody(name, rets, params, old(Rest()), old(nerrors), old(Ctx()))
           == if t.Stub? then St.FunctionError(Rest(), nerrors) else Parsed(t, Rest(), nerrors)
    {
      var open := Match(TokLBrace);
      if !open {
        nerrors := nerrors + 1;
        return Stub;
      }
      ghost var s, e, ctx := old(Rest()), nerrors, Ctx();
      isFunc := isFunc + 1;
      var stmts := Block();
      St.FunctionBodyIs(name, rets, params, s, e, ctx, St.Stmts(stmts, Rest(), nerrors));
      var closed := Closed();
      if !closed {
        nerrors := nerrors + 1;
        return Stub;
      }
      isFunc := isFunc - 1;
      return Func(name, params, rets, stmts);
    }

    /** Whether a body ended well: no error in it, and its brace comes. */
    method Closed() returns (ok: bool)
      requires Valid()
      modifies toks
      ensures Valid() && ok == (nerrors == 0 && Cur(old(Rest())).TokRBrace?)
      ensures Rest() == if ok then Next(old(Rest())) else old(Rest())
    {
      if nerrors != 0 {
        return false;
      }
      ok := Match(TokRBrace);
    }

    /** `global_expr`, for input without imports. */
    method GlobalExpr() returns (t: Tree)
      requires Valid() && !Tok().TokImport?
      modifies toks, this
      ensures Ends(t, St.GlobalExpr(old(Rest()), old(nerrors), old(Ctx())))
    {
      var isDef := Match(TokDef);
      if isDef {
        t := ProcessFunction();
      } else {
        t := Statement();
      }
    }

    /** `program_start`, for input without imports: None stands for `ret_err`. */
    method ProgramStart() returns (tree: Option<Tree>)
      requires Valid() && !Cur(Next(Rest())).TokImport?
      modifies toks, this
      ensures Valid() && (tree, Rest()) == St.ProgramStart(Next(old(Rest())))
    {
      nerrors := 0;
      isCycle, isCond, isFunc := 0, 0, 0;
      toks.TokNext();
      var t := GlobalExpr();
      return if nerrors != 0 then None else Some(t);
    }
  }
}
