/** The value stack of src/stack.c: a fixed array whose last slot is never used, and the assertions that
    guard it.  A method returns false when an assertion fails, which ends the process.  Each operation is that of
    the evaluator's stack: both meet the same functions. */
module ValueStack {
  import opened Ast
  import opened Basics
  import S = Semantics

  /** A state with this stack. */
  function Of(s: seq<S.Eval>): S.State {
    S.State([], s, map[], None)
  }

  /** The stack is what the operation leaves, or its assertion has failed. */
  ghost predicate Leaves(r: S.Res, ok: bool, s: seq<S.Eval>) {
    r == if ok then S.Done(Of(s), S.Normal) else S.Asserted
  }

  class Stack {
    var cur: nat
    const sz: nat := S.STACK_SZ
    const arr: array<S.Eval>

    ghost predicate Valid()
      reads this
    {
      cur < sz && arr.Length == sz
    }

    /** The values, the top last. */
    ghost function Contents(): (s: seq<S.Eval>)
      requires Valid()
      reads this, arr
      ensures |s| == cur
    {
      arr[..cur]
    }

    /** `stack_init`. */
    constructor ()
      ensures Valid() && Contents() == [] && fresh(arr)
    {
      arr := new S.Eval[S.STACK_SZ](_ => S.Array(map[]));
      cur := 0;
    }

    /** `stack_push`. */
    method Push(v: S.Eval) returns (ok: bool)
      requires Valid()
      modifies this, arr
      ensures Valid() && ok == S.Room(old(Contents()))
      ensures Contents() == if ok then old(Contents()) + [v] else old(Contents())
      ensures Leaves(S.Push(Of(old(Contents())), v), ok, Contents())
    {
      if sz <= cur + 1 {
        return false;
      }
      arr[cur] := v;
      cur := cur + 1;
      return true;
    }

    /** `stack_pop`: None stands for NULL. */
    method Pop() returns (ok: bool, v: Option<S.Eval>)
      requires Valid()
      modifies this
      ensures Valid() && ok == S.Room(old(Contents()))
      ensures ok ==> (v.None? <==> old(Contents()) == [])
      ensures old(Contents()) == Contents() + if ok && v.Some? then [v.value] else []
      ensures S.Pop(Of(old(Contents()))) == if ok then S.Popped(v, Of(Contents())) else S.PopAsserted
    {
      if sz <= cur + 1 {
        return false, None;
      }
      if cur == 0 {
        return true, None;
      }
      cur := cur - 1;
      return true, Some(arr[cur]);
    }

    /** `stack_push_n`. */
    method PushN(vs: seq<S.Eval>) returns (ok: bool)
      requires Valid()
      modifies this, arr
      ensures Valid() && ok == (S.Room(old(Contents())) && |old(Contents())| + |vs| < sz)
      ensures ok ==> Contents() == old(Contents()) + vs
      ensures Leaves(S.PushAll(Of(old(Contents())), vs), ok, Contents())
    {
      S.PushAllIs(Of(Contents()), vs);
      if sz <= cur + 1 {
        return false;
      }
      for i := 0 to |vs|
        invariant Valid() && Contents() == old(Contents()) + vs[..i]
      {
        var pushed := Push(vs[i]);
        if !pushed {
          return false;
        }
        assert vs[..i + 1] == vs[..i] + [vs[i]];
      }
      assert vs[..|vs|] == vs;
      return true;
    }

    /** `stack_pop_n`: the top first, NULL when there are no more. */
    method PopN(n: nat) returns (ok: bool, vs: seq<Option<S.Eval>>)
      requires Valid()
      modifies this
      ensures Valid() && ok == (n == 0 || S.Room(old(Contents())))
      ensures ok ==> vs == S.TopDown(old(Contents()), n) && Contents() == S.Below(old(Contents()), n)
      ensures S.PopN(Of(old(Contents())), n) == if ok then S.PoppedAll(vs, Of(Contents())) else S.PopAllAsserted
    {
      S.PopNIs(Of(Contents()), n);
      vs := [];
      for i := 0 to n
        invariant Valid() && |vs| == i && (i > 0 ==> S.Room(old(Contents())))
        invariant Contents() == S.Below(old(Contents()), i) && vs == S.TopDown(old(Contents()), i)
      {
        var v;
        ok, v := Pop();
        if !ok {
          return;
        }
        vs := vs + [v];
      }
      return true, vs;
    }

    /** `stack_remove_n`. */
    method RemoveN(n: nat) returns (ok: bool)
      requires Valid()
      modifies this
      ensures Valid() && ok == (n <= |old(Contents())|)
      ensures ok ==> Contents() == old(Contents())[..|old(Contents())| - n]
      ensures Leaves(S.RemoveN(Of(old(Contents())), n), ok, Contents())
    {
      var i := n;
      while i > 0
        invariant Valid() && 0 <= i <= n && n - i <= |old(Contents())|
        invariant Contents() == old(Contents())[..|old(Contents())| - (n - i)]
      {
        if cur == 0 {
          return false;
        }
        cur := cur - 1;
        i := i - 1;
      }
      return true;
    }

    /** `stack_flush`. */
    method Flush() returns (ok: bool)
      requires Valid()
      modifies this
      ensures Valid() && ok == S.Room(old(Contents())) && (ok ==> Contents() == [])
    {
      if sz <= cur + 1 {
        return false;
      }
      cur := 0;
      return true;
    }
  }
}
