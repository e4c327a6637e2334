/** What the statements of a block become when they are strung together.  A bare block keeps its first
    statement in the same link that leads to the next statement of the block it stands in. */
module Blocks {
  import opened Ast

  /** The tree as the evaluator finds it, every block with the statements that following the links visits. */
  function Linked(t: Tree): Tree
    decreases t
  {
    match t
    case If(c, body, els) => If(c, Linked(body), Linked(els))
    case For(i, c, s, body) => For(i, c, s, Linked(body))
    case While(c, body) => While(c, Linked(body))
    case Do(c, body) => Do(c, Linked(body))
    case Scope(stmts) => Scope(Visited(stmts))
    case Func(name, params, rets, stmts) => Func(name, params, rets, Visited(stmts))
    case _ => t
  }

  /** A bare block is left for the statements after it, or, at the end, keeps its own: either way they come
      once as its contents and once more after it. */
  function Visited(stmts: seq<Tree>): seq<Tree>
    decreases stmts
  {
    if stmts == [] then []
    else if !stmts[0].Scope? then [Linked(stmts[0])] + Visited(stmts[1..])
    else
      var inside := if |stmts| > 1 then Visited(stmts[1..]) else Visited(stmts[0].stmts);
      [Scope(inside)] + inside
  }

  /** In every block each bare block repeats what follows it. */
  ghost predicate Unbroken(t: Tree)
    decreases t
  {
    match t
    case If(_, body, els) => Unbroken(body) && Unbroken(els)
    case For(_, _, _, body) => Unbroken(body)
    case While(_, body) => Unbroken(body)
    case Do(_, body) => Unbroken(body)
    case Scope(stmts) => AllUnbroken(stmts)
    case Func(_, _, _, stmts) => AllUnbroken(stmts)
    case _ => true
  }

  ghost predicate AllUnbroken(stmts: seq<Tree>)
    decreases stmts
  {
    stmts == []
    || (&& (if stmts[0].Scope? then stmts[0].stmts == stmts[1..] else Unbroken(stmts[0]))
        && AllUnbroken(stmts[1..]))
  }

  /** A tree is found as it was written exactly when it is unbroken. */
  lemma {:induction false} LinkedSame(t: Tree)
    ensures Linked(t) == t <==> Unbroken(t)
    decreases t
  {
    match t
    case If(_, body, els) => LinkedSame(body); LinkedSame(els);
    case For(_, _, _, body) => LinkedSame(body);
    case While(_, body) => LinkedSame(body);
    case Do(_, body) => LinkedSame(body);
    case Scope(stmts) => VisitedSame(stmts);
    case Func(_, _, _, stmts) => VisitedSame(stmts);
    case _ =>
  }

  lemma {:induction false} VisitedSame(stmts: seq<Tree>)
    ensures Visited(stmts) == stmts <==> AllUnbroken(stmts)
    decreases stmts
  {
    if stmts != [] {
      var first, rest := stmts[0], stmts[1..];
      assert stmts == [first] + rest;
      VisitedSame(rest);
      if !first.Scope? {
        LinkedSame(first);
        assert Visited(stmts)[0] == Linked(first) && Visited(stmts)[1..] == Visited(rest);
      } else {
        var inside := if |stmts| > 1 then Visited(rest) else Visited(first.stmts);
        assert Visited(stmts)[0] == Scope(inside) && Visited(stmts)[1..] == inside;
        if rest == [] {
          VisitedLength(first.stmts);
        }
      }
    }
  }

  lemma VisitedLength(stmts: seq<Tree>)
    ensures Visited(stmts) == [] <==> stmts == []
  {
  }

  /** Without bare blocks in blocks. */
  ghost predicate NoBareBlock(t: Tree) {
    match t
    case If(_, body, els) => NoBareBlock(body) && NoBareBlock(els)
    case For(_, _, _, body) => NoBareBlock(body)
    case While(_, body) => NoBareBlock(body)
    case Do(_, body) => NoBareBlock(body)
    case Scope(stmts) => forall i :: 0 <= i < |stmts| ==> !stmts[i].Scope? && NoBareBlock(stmts[i])
    case Func(_, _, _, stmts) => forall i :: 0 <= i < |stmts| ==> !stmts[i].Scope? && NoBareBlock(stmts[i])
    case _ => true
  }

  lemma {:induction false} NoBareIsUnbroken(t: Tree)
    requires NoBareBlock(t)
    ensures Unbroken(t)
    decreases t
  {
    match t
    case If(_, body, els) => NoBareIsUnbroken(body); NoBareIsUnbroken(els);
    case For(_, _, _, body) => NoBareIsUnbroken(body);
    case While(_, body) => NoBareIsUnbroken(body);
    case Do(_, body) => NoBareIsUnbroken(body);
    case Scope(stmts) => NoneBareIsUnbroken(stmts);
    case Func(_, _, _, stmts) => NoneBareIsUnbroken(stmts);
    case _ =>
  }

  lemma {:induction false} NoneBareIsUnbroken(stmts: seq<Tree>)
    requires forall i :: 0 <= i < |stmts| ==> !stmts[i].Scope? && NoBareBlock(stmts[i])
    ensures AllUnbroken(stmts)
    decreases stmts
  {
    if stmts != [] {
      NoBareIsUnbroken(stmts[0]);
      NoneBareIsUnbroken(stmts[1..]);
    }
  }

  /** In `{ {a} b }` the inner block is lost and `b` comes twice; in `{ {a} }` it is `a` that comes twice. */
  lemma BareBlockExample(a: Tree, b: Tree)
    requires !a.Scope? && !b.Scope? && Linked(a) == a && Linked(b) == b
    ensures Linked(Scope([Scope([a]), b])) == Scope([Scope([b]), b])
    ensures Linked(Scope([Scope([a])])) == Scope([Scope([a]), a])
  {
    assert Visited([a]) == [a] && Visited([b]) == [b];
    assert [Scope([a]), b][1..] == [b];
  }
}
