/**
 permission_visitor: an undo log that remembers only how many permissions there
 were, against a stack of full copies.
 */
module PermissionUndo {
  import opened Wrappers

  datatype PermissionLevel = PermissionLevel(actor: string, permission: string)

  datatype Op = Visit(p: PermissionLevel) | VisitAgain(p: PermissionLevel) | Push | Pop | Squash

  // ---------------------------------------------------------------------
  // The visitor's state, and the reference with full copies
  // ---------------------------------------------------------------------

  datatype Visitor = Visitor(permissions: seq<PermissionLevel>, sizeStack: seq<nat>)

  /** None stands for the assertion that fails; pop_undo and squash_undo need a mark. */
  function Apply(v: Visitor, op: Op): Option<Visitor> {
    var n := |v.sizeStack|;
    match op
    case Visit(p) => Some(v.(permissions := v.permissions + [p]))
    case VisitAgain(_) => Some(v)
    case Push => Some(v.(sizeStack := v.sizeStack + [|v.permissions|]))
    case Pop =>
      if n == 0 || v.sizeStack[n - 1] > |v.permissions| then None
      else Some(Visitor(v.permissions[..v.sizeStack[n - 1]], v.sizeStack[..n - 1]))
    case Squash =>
      if n == 0 then None else Some(v.(sizeStack := v.sizeStack[..n - 1]))
  }

  datatype Copies = Copies(permissions: seq<PermissionLevel>, saved: seq<seq<PermissionLevel>>)

  function ApplyCopies(c: Copies, op: Op): Option<Copies> {
    var n := |c.saved|;
    match op
    case Visit(p) => Some(c.(permissions := c.permissions + [p]))
    case VisitAgain(_) => Some(c)
    case Push => Some(c.(saved := c.saved + [c.permissions]))
    case Pop => if n == 0 then None else Some(Copies(c.saved[n - 1], c.saved[..n - 1]))
    case Squash => if n == 0 then None else Some(c.(saved := c.saved[..n - 1]))
  }

  function Run(v: Visitor, ops: seq<Op>): Option<Visitor>
    decreases |ops|
  {
    if ops == [] then Some(v)
    else
      var r := Apply(v, ops[0]);
      if r.None? then None else Run(r.value, ops[1..])
  }

  function RunCopies(c: Copies, ops: seq<Op>): Option<Copies>
    decreases |ops|
  {
    if ops == [] then Some(c)
    else
      var r := ApplyCopies(c, ops[0]);
      if r.None? then None else RunCopies(r.value, ops[1..])
  }

  // ---------------------------------------------------------------------
  // Refinement
  // ---------------------------------------------------------------------

  /** Each saved copy is a prefix of the next one, and the last one of the permissions. */
  predicate Nested(c: Copies) {
    && (forall k | 0 <= k < |c.saved| :: c.saved[k] <= c.permissions)
    && (forall k, l | 0 <= k <= l < |c.saved| :: |c.saved[k]| <= |c.saved[l]|)
  }

  /** Mark k is the length of copy k. */
  predicate Refines(v: Visitor, c: Copies) {
    && v.permissions == c.permissions
    && |v.sizeStack| == |c.saved|
    && (forall k | 0 <= k < |c.saved| :: v.sizeStack[k] == |c.saved[k]|)
    && Nested(c)
  }

  lemma RefinesStep(v: Visitor, c: Copies, op: Op)
    requires Refines(v, c)
    ensures Apply(v, op).Some? == ApplyCopies(c, op).Some?
    ensures Apply(v, op).Some? ==> Refines(Apply(v, op).value, ApplyCopies(c, op).value)
  {
    if op.Pop? && |c.saved| > 0 {
      PopStep(v, c);
    }
  }

  lemma PopStep(v: Visitor, c: Copies)
    requires Refines(v, c) && |c.saved| > 0
    ensures Apply(v, Pop).Some? && Refines(Apply(v, Pop).value, ApplyCopies(c, Pop).value)
  {
    var last, rest := c.saved[|c.saved| - 1], c.saved[..|c.saved| - 1];
    assert last <= c.permissions;
    assert v.permissions[..|last|] == last;
    forall k | 0 <= k < |rest| ensures rest[k] <= last {
      assert c.saved[k] <= c.permissions && |c.saved[k]| <= |last|;
      assert c.permissions[..|c.saved[k]|] == last[..|c.saved[k]|];
    }
  }

  /** After any operations the log and the copies agree: one fails exactly when the other does. */
  lemma {:induction false} RunRefines(v: Visitor, c: Copies, ops: seq<Op>)
    requires Refines(v, c)
    ensures Run(v, ops).Some? == RunCopies(c, ops).Some?
    ensures Run(v, ops).Some? ==> Refines(Run(v, ops).value, RunCopies(c, ops).value)
    decreases |ops|
  {
    if ops != [] {
      RefinesStep(v, c, ops[0]);
      if Apply(v, ops[0]).Some? {
        RunRefines(Apply(v, ops[0]).value, ApplyCopies(c, ops[0]).value, ops[1..]);
      }
    }
  }

  const EMPTY := Visitor([], [])

  /** In every reachable state each mark cuts the permissions back to what they were when it was set. */
  lemma ReachableMarks(ops: seq<Op>)
    requires Run(EMPTY, ops).Some?
    ensures var v := Run(EMPTY, ops).value;
            var c := RunCopies(Copies([], []), ops);
            && c.Some? && |c.value.saved| == |v.sizeStack| && v.permissions == c.value.permissions
            && (forall k | 0 <= k < |v.sizeStack| ::
                  v.sizeStack[k] <= |v.permissions| && c.value.saved[k] == v.permissions[..v.sizeStack[k]])
            && (forall k, l | 0 <= k <= l < |v.sizeStack| :: v.sizeStack[k] <= v.sizeStack[l])
  {
    RunRefines(EMPTY, Copies([], []), ops);
  }

  /** The permissions visited, in order; a repeated visit is not recorded. */
  function Visited(ops: seq<Op>): seq<PermissionLevel>
    decreases |ops|
  {
    if ops == [] then []
    else (if ops[0].Visit? then [ops[0].p] else []) + Visited(ops[1..])
  }

  /** Without pop_undo everything visited is kept, in order; push_undo and squash_undo keep the permissions. */
  lemma {:induction false} KeptWithoutPop(v: Visitor, ops: seq<Op>)
    requires Run(v, ops).Some? && forall i | 0 <= i < |ops| :: !ops[i].Pop?
    ensures Run(v, ops).value.permissions == v.permissions + Visited(ops)
    decreases |ops|
  {
    if ops != [] {
      KeptWithoutPop(Apply(v, ops[0]).value, ops[1..]);
    }
  }

  // ---------------------------------------------------------------------
  // When the assertions hold
  // ---------------------------------------------------------------------

  /** The number of open marks after the operations, starting from depth; None once an operation lacks its mark. */
  function Depth(ops: seq<Op>, depth: nat): Option<nat>
    decreases |ops|
  {
    if ops == [] then Some(depth)
    else match ops[0]
      case Push => Depth(ops[1..], depth + 1)
      case Pop => if depth == 0 then None else Depth(ops[1..], depth - 1)
      case Squash => if depth == 0 then None else Depth(ops[1..], depth - 1)
      case _ => Depth(ops[1..], depth)
  }

  /** The bounds part of the assertion never fails: operations fail exactly when they are not matched by a mark. */
  lemma {:induction false} FailsOnlyUnmatched(v: Visitor, c: Copies, ops: seq<Op>)
    requires Refines(v, c)
    ensures Run(v, ops).Some? == Depth(ops, |v.sizeStack|).Some?
    ensures Run(v, ops).Some? ==> |Run(v, ops).value.sizeStack| == Depth(ops, |v.sizeStack|).value
    decreases |ops|
  {
    if ops != [] {
      RefinesStep(v, c, ops[0]);
      if Apply(v, ops[0]).Some? {
        FailsOnlyUnmatched(Apply(v, ops[0]).value, ApplyCopies(c, ops[0]).value, ops[1..]);
      }
    }
  }

  /** What was saved below the marks set by matched operations is not touched. */
  lemma {:induction false} MatchedKeepsSaved(c: Copies, ops: seq<Op>, base: nat)
    requires base <= |c.saved| && Depth(ops, |c.saved| - base).Some?
    ensures RunCopies(c, ops).Some?
    ensures var c' := RunCopies(c, ops).value;
            |c'.saved| == base + Depth(ops, |c.saved| - base).value && c'.saved[..base] == c.saved[..base]
    decreases |ops|
  {
    if ops != [] {
      var c1 := ApplyCopies(c, ops[0]).value;
      assert c1.saved[..base] == c.saved[..base];
      MatchedKeepsSaved(c1, ops[1..], base);
    }
  }

  /**
   Undo is exact: after push_undo, any operations whose own pushes are all popped or squashed,
   and pop_undo, the visitor is as it was before.
   */
  lemma {:induction false} UndoRestores(v: Visitor, c: Copies, ops: seq<Op>)
    requires Refines(v, c) && Depth(ops, 0) == Some(0)
    ensures Run(v, [Push] + ops + [Pop]) == Some(v)
  {
    var v1, c1 := Apply(v, Push).value, ApplyCopies(c, Push).value;
    RefinesStep(v, c, Push);
    MatchedKeepsSaved(c1, ops, |c1.saved|);
    RunRefines(v1, c1, ops);
    var v2, c2 := Run(v1, ops).value, RunCopies(c1, ops).value;
    assert c2.saved == c1.saved;
    RefinesStep(v2, c2, Pop);
    var v3 := Apply(v2, Pop).value;
    assert v3.permissions == v.permissions;
    assert v3.sizeStack == v.sizeStack;
    RunAppend(v1, ops, [Pop]);
    assert Run(v2, [Pop]) == Some(v3);
    assert [Push] + ops + [Pop] == [Push] + (ops + [Pop]);
    assert ([Push] + (ops + [Pop]))[1..] == ops + [Pop];
  }

  lemma {:induction false} RunAppend(v: Visitor, a: seq<Op>, b: seq<Op>)
    ensures Run(v, a + b) == if Run(v, a).Some? then Run(Run(v, a).value, b) else None
    decreases |a|
  {
    if a == [] {
      assert a + b == b;
    } else {
      assert (a + b)[1..] == a[1..] + b;
      if Apply(v, a[0]).Some? {
        RunAppend(Apply(v, a[0]).value, a[1..], b);
      }
    }
  }

  // ---------------------------------------------------------------------
  // The class
  // ---------------------------------------------------------------------

  class PermissionVisitor {
    var permissions: seq<PermissionLevel>
    var sizeStack: seq<nat>

    function View(): Visitor
      reads this
    {
      Visitor(permissions, sizeStack)
    }

    constructor ()
      ensures View() == EMPTY
    {
      permissions, sizeStack := [], [];
    }

    method Call(permission: PermissionLevel)
      modifies this
      ensures Apply(old(View()), Visit(permission)) == Some(View())
      ensures permissions == old(permissions) + [permission] && sizeStack == old(sizeStack)
    {
      permissions := permissions + [permission];
    }

    method PushUndo()
      modifies this
      ensures Apply(old(View()), Push) == Some(View())
      ensures permissions == old(permissions) && sizeStack == old(sizeStack) + [|old(permissions)|]
    {
      sizeStack := sizeStack + [|permissions|];
    }

    /** back() is read before the size is checked; anything stands for what it yields on an empty vector. */
    method PopUndo(anything: nat) returns (ok: bool)
      modifies this
      ensures ok == Apply(old(View()), Pop).Some?
      ensures View() == if ok then Apply(old(View()), Pop).value else old(View())
    {
      var back := if |sizeStack| > 0 then sizeStack[|sizeStack| - 1] else anything;
      ok := back <= |permissions| && |sizeStack| >= 1;
      if ok {
        permissions := permissions[..back];
        sizeStack := sizeStack[..|sizeStack| - 1];
      }
    }

    method SquashUndo() returns (ok: bool)
      modifies this
      ensures ok == Apply(old(View()), Squash).Some?
      ensures View() == if ok then Apply(old(View()), Squash).value else old(View())
    {
      ok := |sizeStack| >= 1;
      if ok {
        sizeStack := sizeStack[..|sizeStack| - 1];
      }
    }
  }
}
