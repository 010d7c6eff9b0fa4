/** LockingBranch: one combination (a linear path) together with the lock that
    records whether the path has already been cut by a flow break. Once a
    branch is locked, statements appended to it are dropped. */
module LockingBranches {
  import opened Options
  import opened Statements

  datatype LockStatus =
    | NoLock
    | LoopBreakLocked      // a `break` was reached
    | LoopContinueLocked   // a `continue` was reached
    | MethodLocked         // a `return` or a `throw` was reached

  datatype LockingBranch = LockingBranch(statements: seq<Stmt>, lockStatus: LockStatus) {
    predicate IsLocked() {
      lockStatus != NoLock
    }
  }

  /** The empty, unlocked combination. */
  const EmptyBranch := LockingBranch([], NoLock)

  /** The lock an unlocked branch takes on right after `s`: a break is
      recognised before a continue, and a continue before a method exit. */
  function LockAfter(s: Stmt): LockStatus {
    if s.isBreakLoopFlowBreak then LoopBreakLocked
    else if s.isContinueLoopFlowBreak then LoopContinueLocked
    else if s.isMethodFlowBreak then MethodLocked
    else NoLock
  }

  lemma LockAfterLocksIffFlowBreak(s: Stmt)
    ensures LockAfter(s) != NoLock <==> IsFlowBreak(s)
  {
  }

  // ---- lock setters and clearers -------------------------------------------

  /** A break lock is taken only by an unlocked branch. */
  function SetBreakLoopLock(b: LockingBranch): (r: LockingBranch)
    ensures r.statements == b.statements
    ensures r.IsLocked()
    ensures b.IsLocked() ==> r == b
    ensures !b.IsLocked() ==> r.lockStatus == LoopBreakLocked
  {
    if !b.IsLocked() then b.(lockStatus := LoopBreakLocked) else b
  }

  /** A continue lock is taken only by an unlocked branch. */
  function SetContinueLoopLock(b: LockingBranch): (r: LockingBranch)
    ensures r.statements == b.statements
    ensures r.IsLocked()
    ensures b.IsLocked() ==> r == b
    ensures !b.IsLocked() ==> r.lockStatus == LoopContinueLocked
  {
    if !b.IsLocked() then b.(lockStatus := LoopContinueLocked) else b
  }

  /** The method lock overwrites whatever lock the branch had. */
  function SetMethodLock(b: LockingBranch): (r: LockingBranch)
    ensures r.statements == b.statements
    ensures r.lockStatus == MethodLocked
  {
    b.(lockStatus := MethodLocked)
  }

  function RemoveContinueLoopLock(b: LockingBranch): (r: LockingBranch)
    ensures r.statements == b.statements
    ensures b.lockStatus == LoopContinueLocked ==> r.lockStatus == NoLock
    ensures b.lockStatus != LoopContinueLocked ==> r == b
  {
    if b.lockStatus == LoopContinueLocked then b.(lockStatus := NoLock) else b
  }

  function RemoveBreakLoopLock(b: LockingBranch): (r: LockingBranch)
    ensures r.statements == b.statements
    ensures b.lockStatus == LoopBreakLocked ==> r.lockStatus == NoLock
    ensures b.lockStatus != LoopBreakLocked ==> r == b
  {
    if b.lockStatus == LoopBreakLocked then b.(lockStatus := NoLock) else b
  }

  /** Clears both loop locks and nothing else: a method lock survives. */
  function RemoveAnyLoopLock(b: LockingBranch): (r: LockingBranch)
    ensures r.statements == b.statements
    ensures r.lockStatus == (if b.lockStatus == MethodLocked then MethodLocked else NoLock)
  {
    RemoveBreakLoopLock(RemoveContinueLoopLock(b))
  }

  function RemoveAnyLock(b: LockingBranch): (r: LockingBranch)
    ensures r.statements == b.statements
    ensures !r.IsLocked()
  {
    b.(lockStatus := NoLock)
  }

  /** Leaving a loop undoes a loop lock taken inside it, but never a method
      lock, which outlives every loop. */
  lemma LoopLockRoundTrip(b: LockingBranch)
    requires !b.IsLocked()
    ensures RemoveAnyLoopLock(SetBreakLoopLock(b)) == b
    ensures RemoveAnyLoopLock(SetContinueLoopLock(b)) == b
    ensures RemoveAnyLoopLock(SetMethodLock(b)) == SetMethodLock(b)
    ensures RemoveAnyLock(SetMethodLock(b)) == b
  {
  }

  // ---- appending -----------------------------------------------------------

  /** setLockStatusIfLockingInstr: the break test comes first, then continue,
      then method exit. */
  function SetLockStatusIfLockingInstr(b: LockingBranch, s: Stmt): (r: LockingBranch)
    ensures r.statements == b.statements
    ensures !b.IsLocked() ==> r.lockStatus == LockAfter(s)
    ensures !IsFlowBreak(s) ==> r == b
  {
    if s.isBreakLoopFlowBreak then SetBreakLoopLock(b)
    else if s.isContinueLoopFlowBreak then SetContinueLoopLock(b)
    else if s.isMethodFlowBreak then SetMethodLock(b)
    else b
  }

  /** LockingBranch(singleInstr): the one-statement path, locked iff the
      statement is a flow break. */
  function SingleStatementBranch(s: Stmt): (r: LockingBranch)
    ensures r.statements == [s]
    ensures r.IsLocked() <==> IsFlowBreak(s)
    ensures r.lockStatus == LockAfter(s)
  {
    SetLockStatusIfLockingInstr(LockingBranch([s], NoLock), s)
  }

  /** add(instr): a null statement, or any statement on a locked branch, is
      dropped; otherwise it is appended and may lock the branch. */
  function Add(b: LockingBranch, instr: Option<Stmt>): (r: LockingBranch)
    ensures instr.None? || b.IsLocked() ==> r == b
    ensures instr.Some? && !b.IsLocked() ==>
      r.statements == b.statements + [instr.value] && r.lockStatus == LockAfter(instr.value)
  {
    if instr.Some? && !b.IsLocked() then
      SetLockStatusIfLockingInstr(b.(statements := b.statements + [instr.value]), instr.value)
    else b
  }

  /** Appending statements one by one, as the loop in add(LockingBranch) and
      the single-combination path of combineWith do. */
  function AddAll(b: LockingBranch, stmts: seq<Stmt>): LockingBranch
    decreases |stmts|
  {
    if |stmts| == 0 then b else AddAll(Add(b, Some(stmts[0])), stmts[1..])
  }

  /** The part of `stmts` a path can reach: everything up to and including
      the first flow break. */
  function ReachablePrefix(stmts: seq<Stmt>): (r: seq<Stmt>)
    ensures r <= stmts
    ensures forall i :: 0 <= i < |r| - 1 ==> !IsFlowBreak(r[i])
    ensures |r| < |stmts| ==> |r| > 0 && IsFlowBreak(r[|r| - 1])
    decreases |stmts|
  {
    if |stmts| == 0 then []
    else if IsFlowBreak(stmts[0]) then [stmts[0]]
    else [stmts[0]] + ReachablePrefix(stmts[1..])
  }

  /** The lock the first flow break of `stmts` sets, or NoLock if there is none. */
  function FirstLock(stmts: seq<Stmt>): (r: LockStatus)
    ensures (forall i :: 0 <= i < |stmts| ==> !IsFlowBreak(stmts[i])) ==> r == NoLock
    decreases |stmts|
  {
    if |stmts| == 0 then NoLock
    else if IsFlowBreak(stmts[0]) then LockAfter(stmts[0])
    else FirstLock(stmts[1..])
  }

  /** Appending a run of statements to an unlocked branch keeps its reachable
      prefix and takes the lock of its first flow break; a locked branch does
      not change. */
  lemma AddAllAppendsReachablePrefix(b: LockingBranch, stmts: seq<Stmt>)
    ensures b.IsLocked() ==> AddAll(b, stmts) == b
    ensures !b.IsLocked() ==>
      AddAll(b, stmts) == LockingBranch(b.statements + ReachablePrefix(stmts), FirstLock(stmts))
  {
    if b.IsLocked() {
      AddAllLockedUnchanged(b, stmts);
    } else {
      AddAllUnlocked(b, stmts);
    }
  }

  lemma {:induction false} AddAllLockedUnchanged(b: LockingBranch, stmts: seq<Stmt>)
    requires b.IsLocked()
    ensures AddAll(b, stmts) == b
    decreases |stmts|
  {
    if |stmts| > 0 {
      AddAllLockedUnchanged(b, stmts[1..]);
    }
  }

  lemma {:induction false} AddAllUnlocked(b: LockingBranch, stmts: seq<Stmt>)
    requires !b.IsLocked()
    ensures AddAll(b, stmts) == LockingBranch(b.statements + ReachablePrefix(stmts), FirstLock(stmts))
    decreases |stmts|
  {
    if |stmts| > 0 {
      var s0, rest := stmts[0], stmts[1..];
      var b' := Add(b, Some(s0));
      LockAfterLocksIffFlowBreak(s0);
      assert AddAll(b, stmts) == AddAll(b', rest);
      if IsFlowBreak(s0) {
        assert b' == LockingBranch(b.statements + [s0], LockAfter(s0)) && b'.IsLocked();
        AddAllLockedUnchanged(b', rest);
        assert ReachablePrefix(stmts) == [s0];
        assert FirstLock(stmts) == LockAfter(s0);
      } else {
        assert b' == LockingBranch(b.statements + [s0], NoLock);
        AddAllUnlocked(b', rest);
        assert ReachablePrefix(stmts) == [s0] + ReachablePrefix(rest);
        assert FirstLock(stmts) == FirstLock(rest);
        assert b.statements + [s0] + ReachablePrefix(rest) == b.statements + ([s0] + ReachablePrefix(rest));
      }
    }
  }

  /** add(LockingBranch): on an unlocked branch, append the other branch's
      statements one by one and then copy its lock status; a locked branch
      does not change. */
  function AddBranch(b: LockingBranch, other: LockingBranch): (r: LockingBranch)
    ensures b.IsLocked() ==> r == b
    ensures !b.IsLocked() ==>
      r == LockingBranch(b.statements + ReachablePrefix(other.statements), other.lockStatus)
  {
    AddAllAppendsReachablePrefix(b, other.statements);
    if !b.IsLocked() then AddAll(b, other.statements).(lockStatus := other.lockStatus) else b
  }

  /** containsSameStatementsAndLockStatusAs: same statement objects in the
      same order and the same lock. */
  function SameStatementsAndLockStatus(a: LockingBranch, b: LockingBranch): (r: bool)
    ensures r <==> a == b
  {
    a.lockStatus == b.lockStatus && a.statements == b.statements
  }
}
