/** CombinationsHolder: the set (kept as an ordered list) of every linear
    path through a statement sequence, built by cross products at branching
    statements and cut by flow breaks. */
module Combinations {
  import opened Options
  import opened Statements
  import opened LockingBranches

  datatype CombinationsHolder = CombinationsHolder(allCombinations: seq<LockingBranch>)

  // ---- construction ----------------------------------------------------------

  /** new CombinationsHolder(addEmptyCombination). */
  function NewHolder(addEmptyCombination: bool): (h: CombinationsHolder)
    ensures addEmptyCombination ==> |h.allCombinations| == 1 && h.allCombinations[0] == EmptyBranch
    ensures !addEmptyCombination ==> h.allCombinations == []
  {
    if addEmptyCombination then CombinationsHolder([EmptyBranch]) else CombinationsHolder([])
  }

  /** fromSingleStatement: exactly one path `[s]`, locked iff `s` is a flow break. */
  function FromSingleStatement(s: Stmt): (h: CombinationsHolder)
    ensures |h.allCombinations| == 1
    ensures h.allCombinations[0].statements == [s]
    ensures h.allCombinations[0].IsLocked() <==> IsFlowBreak(s)
  {
    CombinationsHolder([SingleStatementBranch(s)])
  }

  /** fromOtherCombination: a copy of the list of paths (the statement
      objects themselves are shared, which a value model gets for free). */
  function FromOtherCombination(toBeCopied: CombinationsHolder): (h: CombinationsHolder)
    ensures |h.allCombinations| == |toBeCopied.allCombinations|
    ensures forall i :: 0 <= i < |h.allCombinations| ==>
      SameStatementsAndLockStatus(h.allCombinations[i], toBeCopied.allCombinations[i])
  {
    CombinationsHolder(toBeCopied.allCombinations)
  }

  function IsEmpty(h: CombinationsHolder): (r: bool)
    ensures r <==> h.allCombinations == []
  {
    |h.allCombinations| == 0
  }

  /** appendToAllCombinations(statement). */
  function AppendToAllCombinations(h: CombinationsHolder, s: Option<Stmt>): (r: CombinationsHolder)
    ensures |r.allCombinations| == |h.allCombinations|
    ensures forall i :: 0 <= i < |h.allCombinations| ==> r.allCombinations[i] == Add(h.allCombinations[i], s)
  {
    CombinationsHolder(seq(|h.allCombinations|, i requires 0 <= i < |h.allCombinations| => Add(h.allCombinations[i], s)))
  }

  /** mergeWith: the other holder's paths are added after this holder's. */
  function MergeWith(h: CombinationsHolder, other: CombinationsHolder): (r: CombinationsHolder)
    ensures |r.allCombinations| == |h.allCombinations| + |other.allCombinations|
    ensures r.allCombinations[..|h.allCombinations|] == h.allCombinations
    ensures r.allCombinations[|h.allCombinations|..] == other.allCombinations
  {
    CombinationsHolder(h.allCombinations + other.allCombinations)
  }

  // ---- combineWith -------------------------------------------------------------

  /** The unlocked paths of `combs`, in order. */
  function Unlocked(combs: seq<LockingBranch>): (r: seq<LockingBranch>)
    ensures |r| <= |combs|
    ensures forall c :: c in r <==> c in combs && !c.IsLocked()
    ensures (forall i :: 0 <= i < |combs| ==> !combs[i].IsLocked()) ==> r == combs
    decreases |combs|
  {
    if |combs| == 0 then []
    else if combs[0].IsLocked() then Unlocked(combs[1..])
    else [combs[0]] + Unlocked(combs[1..])
  }

  /** Filtering distributes over concatenation, so the unlocked paths keep
      their order. */
  lemma {:induction false} UnlockedConcat(a: seq<LockingBranch>, b: seq<LockingBranch>)
    ensures Unlocked(a + b) == Unlocked(a) + Unlocked(b)
    decreases |a|
  {
    if |a| == 0 {
      assert a + b == b;
    } else {
      assert (a + b)[0] == a[0];
      assert (a + b)[1..] == a[1..] + b;
      UnlockedConcat(a[1..], b);
    }
  }

  /** Every path of `current` extended by every path of `others`, in the
      order of the two nested loops of combineWith. */
  function Product(current: seq<LockingBranch>, others: seq<LockingBranch>): seq<LockingBranch>
    decreases |current|
  {
    if |current| == 0 then []
    else
      seq(|others|, j requires 0 <= j < |others| => AddBranch(current[0], others[j]))
        + Product(current[1..], others)
  }

  /** The product has one entry per (current, other) pair. */
  lemma {:induction false} ProductLength(current: seq<LockingBranch>, others: seq<LockingBranch>)
    ensures |Product(current, others)| == |current| * |others|
    decreases |current|
  {
    if |current| > 0 {
      ProductLength(current[1..], others);
      assert |current| * |others| == |others| + (|current| - 1) * |others|;
    }
  }

  /** The pair (current[i], others[j]) sits where the nested loops put it. */
  lemma {:induction false} ProductAt(current: seq<LockingBranch>, others: seq<LockingBranch>, i: nat, j: nat)
    requires i < |current| && j < |others|
    ensures i * |others| + j < |Product(current, others)|
    ensures Product(current, others)[i * |others| + j] == AddBranch(current[i], others[j])
    decreases |current|
  {
    var n := |others|;
    ProductLength(current, others);
    ProductLength(current[1..], others);
    if i == 0 {
    } else {
      ProductAt(current[1..], others, i - 1, j);
      assert i * n + j == n + ((i - 1) * n + j);
      assert current[1..][i - 1] == current[i];
    }
  }

  /** Every product entry extends some path of `current` by some path of `others`. */
  lemma {:induction false} ProductMembers(current: seq<LockingBranch>, others: seq<LockingBranch>)
    ensures forall c :: c in Product(current, others) ==>
      exists d, o :: d in current && o in others && c == AddBranch(d, o)
    decreases |current|
  {
    if |current| > 0 {
      ProductMembers(current[1..], others);
      var row := seq(|others|, j requires 0 <= j < |others| => AddBranch(current[0], others[j]));
      assert Product(current, others) == row + Product(current[1..], others);
      forall c | c in Product(current, others)
        ensures exists d, o :: d in current && o in others && c == AddBranch(d, o)
      {
        if c in row {
          var j :| 0 <= j < |row| && row[j] == c;
          assert current[0] in current && others[j] in others;
        } else {
          var d, o :| d in current[1..] && o in others && c == AddBranch(d, o);
          assert d in current;
        }
      }
    }
  }

  /** combineWith, including its two quirks: an empty receiver first copies
      the other holder and then still goes on to combine with it, and the
      single-combination path appends statement by statement, so a lock held
      only in the other path's status is not carried over. */
  function CombineWith(h: CombinationsHolder, other: CombinationsHolder): (r: CombinationsHolder)
    ensures |other.allCombinations| == 0 ==> r == h
    ensures |other.allCombinations| == 1 && |h.allCombinations| > 0 ==> |r.allCombinations| == |h.allCombinations|
    ensures |other.allCombinations| == 1 && |h.allCombinations| == 0 ==> |r.allCombinations| == 1
    ensures |other.allCombinations| >= 2 && |h.allCombinations| > 0 ==>
      |r.allCombinations| == |Unlocked(h.allCombinations)| * |other.allCombinations|
    ensures |other.allCombinations| >= 2 && |h.allCombinations| == 0 ==>
      |r.allCombinations| == |Unlocked(other.allCombinations)| * |other.allCombinations|
  {
    var current := if |h.allCombinations| == 0 then other.allCombinations else h.allCombinations;
    if |other.allCombinations| == 1 then
      var stmts := other.allCombinations[0].statements;
      CombinationsHolder(seq(|current|, i requires 0 <= i < |current| => AddAll(current[i], stmts)))
    else if |other.allCombinations| != 0 then
      ProductLength(Unlocked(current), other.allCombinations);
      CombinationsHolder(Product(Unlocked(current), other.allCombinations))
    else
      CombinationsHolder(current)
  }

  /** With two or more paths on the other side, every unlocked path of the
      receiver is extended by every other path and takes that path's lock;
      locked paths of the receiver are dropped. */
  lemma CombineWithCrossProduct(h: CombinationsHolder, other: CombinationsHolder)
    requires |h.allCombinations| > 0 && |other.allCombinations| >= 2
    ensures |CombineWith(h, other).allCombinations| == |Unlocked(h.allCombinations)| * |other.allCombinations|
    ensures forall i: nat, j: nat :: i < |Unlocked(h.allCombinations)| && j < |other.allCombinations| ==>
      CrossProductEntry(h, other, i, j)
  {
    CombineWithIsProduct(h, other);
    ProductLength(Unlocked(h.allCombinations), other.allCombinations);
    forall i: nat, j: nat | i < |Unlocked(h.allCombinations)| && j < |other.allCombinations|
      ensures CrossProductEntry(h, other, i, j)
    {
      CrossProductEntryHolds(h, other, i, j);
    }
  }

  /** Entry (i, j) of the cross product: the i-th unlocked receiver path
      followed by the reachable part of the j-th other path, with that path's
      lock. */
  predicate CrossProductEntry(h: CombinationsHolder, other: CombinationsHolder, i: nat, j: nat)
    requires i < |Unlocked(h.allCombinations)| && j < |other.allCombinations|
  {
    var r := CombineWith(h, other).allCombinations;
    var cur := Unlocked(h.allCombinations);
    var n := |other.allCombinations|;
    && i * n + j < |r|
    && r[i * n + j] == LockingBranch(cur[i].statements + ReachablePrefix(other.allCombinations[j].statements),
                                     other.allCombinations[j].lockStatus)
  }

  lemma CombineWithIsProduct(h: CombinationsHolder, other: CombinationsHolder)
    requires |h.allCombinations| > 0 && |other.allCombinations| >= 2
    ensures CombineWith(h, other).allCombinations == Product(Unlocked(h.allCombinations), other.allCombinations)
  {
  }

  lemma CrossProductEntryHolds(h: CombinationsHolder, other: CombinationsHolder, i: nat, j: nat)
    requires |h.allCombinations| > 0 && |other.allCombinations| >= 2
    requires i < |Unlocked(h.allCombinations)| && j < |other.allCombinations|
    ensures CrossProductEntry(h, other, i, j)
  {
    var cur := Unlocked(h.allCombinations);
    CombineWithIsProduct(h, other);
    ProductAt(cur, other.allCombinations, i, j);
    assert cur[i] in cur;
  }

  /** Every path the cross product yields continues an unlocked path of the
      receiver: a path cut by a flow break is never extended. */
  lemma CombineWithExtendsOnlyUnlocked(h: CombinationsHolder, other: CombinationsHolder)
    requires |h.allCombinations| > 0 && |other.allCombinations| >= 2
    ensures forall c :: c in CombineWith(h, other).allCombinations ==>
      exists d :: d in h.allCombinations && !d.IsLocked() && d.statements <= c.statements
  {
    var cur := Unlocked(h.allCombinations);
    var os := other.allCombinations;
    var r := CombineWith(h, other).allCombinations;
    assert r == Product(cur, os);
    ProductMembers(cur, os);
    forall c | c in r
      ensures exists d :: d in h.allCombinations && !d.IsLocked() && d.statements <= c.statements
    {
      var d, o :| d in cur && o in os && c == AddBranch(d, o);
      assert c.statements == d.statements + ReachablePrefix(o.statements);
      assert d.statements <= c.statements;
    }
  }

  /** With exactly one path on the other side, its statements are appended to
      every path of a non-empty receiver: locked paths stay as they are, and
      the lock of an extended path comes from the statements themselves. */
  lemma CombineWithSingle(h: CombinationsHolder, other: CombinationsHolder)
    requires |h.allCombinations| > 0 && |other.allCombinations| == 1
    ensures var r := CombineWith(h, other).allCombinations;
            var stmts := other.allCombinations[0].statements;
            && |r| == |h.allCombinations|
            && forall i :: 0 <= i < |r| ==>
                 r[i] == (if h.allCombinations[i].IsLocked() then h.allCombinations[i]
                          else LockingBranch(h.allCombinations[i].statements + ReachablePrefix(stmts), FirstLock(stmts)))
  {
    var stmts := other.allCombinations[0].statements;
    forall i | 0 <= i < |h.allCombinations| {
      AddAllAppendsReachablePrefix(h.allCombinations[i], stmts);
    }
  }

  /** An empty other holder leaves a non-empty receiver unchanged; an empty
      receiver behaves as if it had first been given the other holder's paths. */
  lemma CombineWithEmptySides(h: CombinationsHolder, other: CombinationsHolder)
    ensures |h.allCombinations| > 0 && |other.allCombinations| == 0 ==> CombineWith(h, other) == h
    ensures |h.allCombinations| == 0 ==> CombineWith(h, other) == CombineWith(other, other)
  {
  }

  /** The single-path quirk: an empty receiver combined with a one-path holder
      ends up holding that path's statements twice (when the path is
      unlocked). */
  lemma CombineWithEmptyReceiverDuplicates(s: Stmt)
    requires !IsFlowBreak(s)
    ensures CombineWith(NewHolder(false), FromSingleStatement(s)).allCombinations == [LockingBranch([s, s], NoLock)]
  {
    var b := SingleStatementBranch(s);
    assert b == LockingBranch([s], NoLock);
    AddAllAppendsReachablePrefix(b, [s]);
    assert ReachablePrefix([s]) == [s];
    assert FirstLock([s]) == NoLock;
    assert AddAll(b, [s]) == LockingBranch([s] + [s], NoLock);
    assert [s] + [s] == [s, s];
    var r := CombineWith(NewHolder(false), FromSingleStatement(s)).allCombinations;
    assert FromSingleStatement(s).allCombinations == [b];
    assert |r| == 1 && r[0] == AddAll(b, [s]);
  }

  /** A path already cut by a flow break disappears as soon as the holder is
      combined with a branching statement: only the unlocked path survives,
      once per alternative. */
  lemma CombineWithDropsLockedPaths(l: LockingBranch, u: LockingBranch, o1: LockingBranch, o2: LockingBranch)
    requires l.IsLocked() && !u.IsLocked()
    ensures CombineWith(CombinationsHolder([l, u]), CombinationsHolder([o1, o2])).allCombinations
         == [AddBranch(u, o1), AddBranch(u, o2)]
  {
    assert Unlocked([l, u]) == [u] by {
      assert [l, u][1..] == [u];
      assert [u][1..] == [];
    }
    var os := [o1, o2];
    var row := seq(|os|, j requires 0 <= j < |os| => AddBranch(u, os[j]));
    assert [u][1..] == [];
    assert Product([u], os) == row + Product([], os);
    assert row == [AddBranch(u, o1), AddBranch(u, o2)];
  }

  /** On a receiver with no locked path, the one-path shortcut of combineWith
      and the general cross product agree, provided the other path's lock is
      the one its own statements set. */
  lemma {:induction false} ShortcutAgreesWithProduct(current: seq<LockingBranch>, o: LockingBranch)
    requires forall i :: 0 <= i < |current| ==> !current[i].IsLocked()
    requires o.lockStatus == FirstLock(o.statements)
    ensures Product(current, [o]) == seq(|current|, i requires 0 <= i < |current| => AddAll(current[i], o.statements))
    decreases |current|
  {
    var shortcut := seq(|current|, i requires 0 <= i < |current| => AddAll(current[i], o.statements));
    if |current| > 0 {
      ShortcutAgreesWithProduct(current[1..], o);
      AddAllAppendsReachablePrefix(current[0], o.statements);
      var row := seq(1, j requires 0 <= j < 1 => AddBranch(current[0], [o][j]));
      assert row == [shortcut[0]];
      assert shortcut == [shortcut[0]] + shortcut[1..];
      assert shortcut[1..] == seq(|current[1..]|, i requires 0 <= i < |current[1..]| => AddAll(current[1..][i], o.statements));
    }
  }

  // ---- locks over the whole holder --------------------------------------------

  function SetAllBreakLoopLocks(h: CombinationsHolder): (r: CombinationsHolder)
    ensures |r.allCombinations| == |h.allCombinations|
    ensures forall i :: 0 <= i < |r.allCombinations| ==> r.allCombinations[i] == SetBreakLoopLock(h.allCombinations[i])
  {
    CombinationsHolder(seq(|h.allCombinations|, i requires 0 <= i < |h.allCombinations| => SetBreakLoopLock(h.allCombinations[i])))
  }

  function SetAllContinueLoopLocks(h: CombinationsHolder): (r: CombinationsHolder)
    ensures |r.allCombinations| == |h.allCombinations|
    ensures forall i :: 0 <= i < |r.allCombinations| ==> r.allCombinations[i] == SetContinueLoopLock(h.allCombinations[i])
  {
    CombinationsHolder(seq(|h.allCombinations|, i requires 0 <= i < |h.allCombinations| => SetContinueLoopLock(h.allCombinations[i])))
  }

  function SetAllMethodLocks(h: CombinationsHolder): (r: CombinationsHolder)
    ensures |r.allCombinations| == |h.allCombinations|
    ensures forall i :: 0 <= i < |r.allCombinations| ==> r.allCombinations[i] == SetMethodLock(h.allCombinations[i])
  {
    CombinationsHolder(seq(|h.allCombinations|, i requires 0 <= i < |h.allCombinations| => SetMethodLock(h.allCombinations[i])))
  }

  /** removeAllContinueLoopLocks: clears continue locks and, unlike the other
      two removers, does not filter out duplicates. */
  function RemoveAllContinueLoopLocks(h: CombinationsHolder): (r: CombinationsHolder)
    ensures |r.allCombinations| == |h.allCombinations|
    ensures forall i :: 0 <= i < |r.allCombinations| ==> r.allCombinations[i] == RemoveContinueLoopLock(h.allCombinations[i])
  {
    CombinationsHolder(seq(|h.allCombinations|, i requires 0 <= i < |h.allCombinations| => RemoveContinueLoopLock(h.allCombinations[i])))
  }

  function MapRemoveAnyLoopLock(combs: seq<LockingBranch>): (r: seq<LockingBranch>)
    ensures |r| == |combs|
    ensures forall i :: 0 <= i < |r| ==> r[i] == RemoveAnyLoopLock(combs[i])
  {
    seq(|combs|, i requires 0 <= i < |combs| => RemoveAnyLoopLock(combs[i]))
  }

  function MapRemoveAnyLock(combs: seq<LockingBranch>): (r: seq<LockingBranch>)
    ensures |r| == |combs|
    ensures forall i :: 0 <= i < |r| ==> r[i] == RemoveAnyLock(combs[i])
  {
    seq(|combs|, i requires 0 <= i < |combs| => RemoveAnyLock(combs[i]))
  }

  /** removeAllLoopLocks: clear the loop locks, then filter out duplicates. */
  function RemoveAllLoopLocks(h: CombinationsHolder): (r: CombinationsHolder)
    ensures NoDuplicates(r.allCombinations)
    ensures forall c :: c in r.allCombinations ==> c.lockStatus == NoLock || c.lockStatus == MethodLocked
    ensures forall c :: c in r.allCombinations <==> exists d :: d in h.allCombinations && c == RemoveAnyLoopLock(d)
  {
    var cleared := MapRemoveAnyLoopLock(h.allCombinations);
    CombinationsHolder(FilterOutDuplicates(cleared))
  }

  /** removeAllLocks: clear every lock, then filter out duplicates. */
  function RemoveAllLocks(h: CombinationsHolder): (r: CombinationsHolder)
    ensures NoDuplicates(r.allCombinations)
    ensures forall c :: c in r.allCombinations ==> !c.IsLocked()
    ensures forall c :: c in r.allCombinations <==> exists d :: d in h.allCombinations && c == RemoveAnyLock(d)
  {
    var cleared := MapRemoveAnyLock(h.allCombinations);
    CombinationsHolder(FilterOutDuplicates(cleared))
  }

  // ---- fromBranch -------------------------------------------------------------

  /** The lock fromBranch applies to every path when it meets the flow break
      `s`. Its tests run continue, then break, then method exit: the reverse
      of the first two in setLockStatusIfLockingInstr. A loop flow break
      leaves an already locked path as it is; a method exit overwrites every
      path's lock with its own. */
  function SetAllLocksFor(h: CombinationsHolder, s: Stmt): (r: CombinationsHolder)
    ensures !IsFlowBreak(s) ==> r == h
    ensures |r.allCombinations| == |h.allCombinations|
    ensures forall i :: 0 <= i < |r.allCombinations| ==> r.allCombinations[i].statements == h.allCombinations[i].statements
    ensures IsFlowBreak(s) ==> forall i :: 0 <= i < |r.allCombinations| ==> r.allCombinations[i].IsLocked()
    ensures s.isContinueLoopFlowBreak || s.isBreakLoopFlowBreak ==>
      forall i :: 0 <= i < |r.allCombinations| && h.allCombinations[i].IsLocked() ==> r.allCombinations[i] == h.allCombinations[i]
    ensures s.isContinueLoopFlowBreak ==>
      forall i :: 0 <= i < |r.allCombinations| && !h.allCombinations[i].IsLocked() ==> r.allCombinations[i].lockStatus == LoopContinueLocked
    ensures !s.isContinueLoopFlowBreak && s.isBreakLoopFlowBreak ==>
      forall i :: 0 <= i < |r.allCombinations| && !h.allCombinations[i].IsLocked() ==> r.allCombinations[i].lockStatus == LoopBreakLocked
    ensures !s.isContinueLoopFlowBreak && !s.isBreakLoopFlowBreak && s.isMethodFlowBreak ==>
      forall i :: 0 <= i < |r.allCombinations| ==> r.allCombinations[i].lockStatus == MethodLocked
  {
    if s.isContinueLoopFlowBreak then SetAllContinueLoopLocks(h)
    else if s.isBreakLoopFlowBreak then SetAllBreakLoopLocks(h)
    else if s.isMethodFlowBreak then SetAllMethodLocks(h)
    else h
  }

  /** The loop of fromBranch, from holder `h` on: a flow break locks every
      path and ends the walk; any other statement is combined in through the
      paths it produces itself (`resulting`, its getResultingCombinations). */
  function ExpandFrom(h: CombinationsHolder, instrs: seq<Stmt>, resulting: Stmt -> CombinationsHolder): (r: CombinationsHolder)
    ensures |instrs| == 0 ==> r == h
    ensures |instrs| > 0 && IsFlowBreak(instrs[0]) ==>
      && |r.allCombinations| == |h.allCombinations|
      && (forall i :: 0 <= i < |r.allCombinations| ==> r.allCombinations[i].statements == h.allCombinations[i].statements)
      && (forall i :: 0 <= i < |r.allCombinations| ==> r.allCombinations[i].IsLocked())
    decreases |instrs|
  {
    if |instrs| == 0 then h
    else if IsFlowBreak(instrs[0]) then SetAllLocksFor(h, instrs[0])
    else ExpandFrom(CombineWith(h, resulting(instrs[0])), instrs[1..], resulting)
  }

  /** fromBranch: start from the single empty path. */
  function FromBranch(instructions: seq<Stmt>, resulting: Stmt -> CombinationsHolder): (r: CombinationsHolder)
    ensures |instructions| == 0 ==> r == NewHolder(true)
    ensures |instructions| > 0 && IsFlowBreak(instructions[0]) ==>
      r.allCombinations == [LockingBranch([],
        if instructions[0].isContinueLoopFlowBreak then LoopContinueLocked
        else if instructions[0].isBreakLoopFlowBreak then LoopBreakLocked
        else MethodLocked)]
  {
    ExpandFrom(NewHolder(true), instructions, resulting)
  }

  /** combineWithBranch. */
  function CombineWithBranch(h: CombinationsHolder, instructions: seq<Stmt>, resulting: Stmt -> CombinationsHolder): (r: CombinationsHolder)
    ensures |instructions| == 0 && |h.allCombinations| > 0 ==> r == h
    ensures |instructions| == 0 && |h.allCombinations| == 0 ==> r == NewHolder(true)
  {
    assert |instructions| == 0 ==>
      var current := if |h.allCombinations| == 0 then [EmptyBranch] else h.allCombinations;
      seq(|current|, i requires 0 <= i < |current| => AddAll(current[i], [])) == current;
    CombineWith(h, FromBranch(instructions, resulting))
  }

  /** fromBranch stops at the first flow break: the statements after it play
      no part, the flow break itself is not added to any path, and every path
      built so far gets the lock that flow break stands for. */
  lemma {:induction false} FromBranchStopsAtFirstFlowBreak(h: CombinationsHolder, instrs: seq<Stmt>,
                                                           resulting: Stmt -> CombinationsHolder, k: nat)
    requires k < |instrs| && IsFlowBreak(instrs[k])
    requires forall i :: 0 <= i < k ==> !IsFlowBreak(instrs[i])
    ensures ExpandFrom(h, instrs, resulting) == SetAllLocksFor(ExpandFrom(h, instrs[..k], resulting), instrs[k])
    decreases k
  {
    if k == 0 {
    } else {
      var h' := CombineWith(h, resulting(instrs[0]));
      FromBranchStopsAtFirstFlowBreak(h', instrs[1..], resulting, k - 1);
      assert instrs[1..][..k - 1] == instrs[..k][1..];
    }
  }

  /** The statements are ordinary ones: no flow break, and each stands for
      just itself (its own combinations are the single path holding it). */
  predicate PlainStatements(instrs: seq<Stmt>, resulting: Stmt -> CombinationsHolder) {
    forall i :: 0 <= i < |instrs| ==>
      !IsFlowBreak(instrs[i]) && resulting(instrs[i]) == FromSingleStatement(instrs[i])
  }

  /** Every unlocked path extended by `stmts`; locked paths unchanged. */
  function ExtendUnlocked(combs: seq<LockingBranch>, stmts: seq<Stmt>): (r: seq<LockingBranch>)
    ensures |r| == |combs|
    ensures forall i :: 0 <= i < |r| ==> r[i] == (if combs[i].IsLocked() then combs[i] else combs[i].(statements := combs[i].statements + stmts))
  {
    seq(|combs|, i requires 0 <= i < |combs| =>
      if combs[i].IsLocked() then combs[i] else combs[i].(statements := combs[i].statements + stmts))
  }

  /** Ordinary statements are appended, in order, to every unlocked path of a
      non-empty holder, and the number of paths does not change. */
  lemma {:induction false} ExpandPlainExtendsEveryPath(h: CombinationsHolder, instrs: seq<Stmt>,
                                                       resulting: Stmt -> CombinationsHolder)
    requires |h.allCombinations| > 0
    requires PlainStatements(instrs, resulting)
    ensures ExpandFrom(h, instrs, resulting) == CombinationsHolder(ExtendUnlocked(h.allCombinations, instrs))
    decreases |instrs|
  {
    if |instrs| == 0 {
      forall i | 0 <= i < |h.allCombinations|
        ensures ExtendUnlocked(h.allCombinations, instrs)[i] == h.allCombinations[i]
      {
        assert h.allCombinations[i].statements + instrs == h.allCombinations[i].statements;
      }
      assert ExtendUnlocked(h.allCombinations, instrs) == h.allCombinations;
    } else {
      var s := instrs[0];
      var one := FromSingleStatement(s);
      assert one.allCombinations[0] == LockingBranch([s], NoLock);
      CombineWithSingle(h, one);
      assert ReachablePrefix([s]) == [s];
      assert FirstLock([s]) == NoLock;
      var h' := CombineWith(h, one);
      assert h'.allCombinations == ExtendUnlocked(h.allCombinations, [s]);
      assert PlainStatements(instrs[1..], resulting) by {
        forall i | 0 <= i < |instrs[1..]| ensures !IsFlowBreak(instrs[1..][i]) && resulting(instrs[1..][i]) == FromSingleStatement(instrs[1..][i]) {
          assert instrs[1..][i] == instrs[i + 1];
        }
      }
      ExpandPlainExtendsEveryPath(h', instrs[1..], resulting);
      forall i | 0 <= i < |h.allCombinations|
        ensures ExtendUnlocked(h'.allCombinations, instrs[1..])[i] == ExtendUnlocked(h.allCombinations, instrs)[i]
      {
        var c := h.allCombinations[i];
        if !c.IsLocked() {
          assert c.statements + [s] + instrs[1..] == c.statements + instrs;
        }
      }
    }
  }

  /** A branch of n ordinary statements expands to exactly one unlocked path
      holding all n statements in order. */
  lemma FromBranchOfPlainSequence(instrs: seq<Stmt>, resulting: Stmt -> CombinationsHolder)
    requires PlainStatements(instrs, resulting)
    ensures FromBranch(instrs, resulting) == CombinationsHolder([LockingBranch(instrs, NoLock)])
  {
    ExpandPlainExtendsEveryPath(NewHolder(true), instrs, resulting);
    assert [] + instrs == instrs;
  }

  /** Ordinary statements followed by a `return` or `throw` (a method exit
      that is neither a break nor a continue) expand to one path holding the
      statements before the exit, method-locked; the exit statement and
      everything after it appear in no path. */
  lemma FromBranchWithEarlyExit(instrs: seq<Stmt>, resulting: Stmt -> CombinationsHolder, k: nat)
    requires k < |instrs|
    requires PlainStatements(instrs[..k], resulting)
    requires instrs[k].isMethodFlowBreak && !instrs[k].isBreakLoopFlowBreak && !instrs[k].isContinueLoopFlowBreak
    ensures FromBranch(instrs, resulting) == CombinationsHolder([LockingBranch(instrs[..k], MethodLocked)])
  {
    forall i | 0 <= i < k ensures !IsFlowBreak(instrs[i]) {
      assert instrs[..k][i] == instrs[i];
    }
    FromBranchStopsAtFirstFlowBreak(NewHolder(true), instrs, resulting, k);
    FromBranchOfPlainSequence(instrs[..k], resulting);
  }

  /** One two-way branching statement between ordinary statements: exactly two
      paths, each the shared prefix, one alternative and the shared suffix. */
  lemma FromBranchWithOneConditional(pre: seq<Stmt>, cond: Stmt, post: seq<Stmt>,
                                     resulting: Stmt -> CombinationsHolder, a: seq<Stmt>, b: seq<Stmt>)
    requires PlainStatements(pre, resulting) && PlainStatements(post, resulting)
    requires !IsFlowBreak(cond)
    requires resulting(cond) == CombinationsHolder([LockingBranch(a, NoLock), LockingBranch(b, NoLock)])
    requires forall i :: 0 <= i < |a| ==> !IsFlowBreak(a[i])
    requires forall i :: 0 <= i < |b| ==> !IsFlowBreak(b[i])
    ensures FromBranch(pre + [cond] + post, resulting)
         == CombinationsHolder([LockingBranch(pre + a + post, NoLock), LockingBranch(pre + b + post, NoLock)])
  {
    var all := pre + [cond] + post;
    ExpandSplit(NewHolder(true), pre, [cond] + post, resulting);
    assert all == pre + ([cond] + post);
    FromBranchOfPlainSequence(pre, resulting);
    var h1 := CombinationsHolder([LockingBranch(pre, NoLock)]);
    var alts := resulting(cond);
    var h2 := CombineWith(h1, alts);
    assert ([cond] + post)[1..] == post;
    assert ExpandFrom(h1, [cond] + post, resulting) == ExpandFrom(h2, post, resulting);
    CombineWithIsProduct(h1, alts);
    assert Unlocked(h1.allCombinations) == h1.allCombinations;
    AddBranchPlain(LockingBranch(pre, NoLock), LockingBranch(a, NoLock));
    AddBranchPlain(LockingBranch(pre, NoLock), LockingBranch(b, NoLock));
    assert h2.allCombinations == [LockingBranch(pre + a, NoLock), LockingBranch(pre + b, NoLock)];
    ExpandPlainExtendsEveryPath(h2, post, resulting);
  }

  /** Appending a flow-break-free path to an unlocked one concatenates them. */
  lemma AddBranchPlain(c: LockingBranch, o: LockingBranch)
    requires !c.IsLocked()
    requires forall i :: 0 <= i < |o.statements| ==> !IsFlowBreak(o.statements[i])
    ensures AddBranch(c, o) == LockingBranch(c.statements + o.statements, o.lockStatus)
  {
    ReachablePrefixOfPlain(o.statements);
  }

  lemma {:induction false} ReachablePrefixOfPlain(stmts: seq<Stmt>)
    requires forall i :: 0 <= i < |stmts| ==> !IsFlowBreak(stmts[i])
    ensures ReachablePrefix(stmts) == stmts
    decreases |stmts|
  {
    if |stmts| > 0 {
      ReachablePrefixOfPlain(stmts[1..]);
    }
  }

  /** Walking `a` and then `b` is walking `a + b` when `a` holds no flow break. */
  lemma {:induction false} ExpandSplit(h: CombinationsHolder, a: seq<Stmt>, b: seq<Stmt>, resulting: Stmt -> CombinationsHolder)
    requires forall i :: 0 <= i < |a| ==> !IsFlowBreak(a[i])
    ensures ExpandFrom(h, a + b, resulting) == ExpandFrom(ExpandFrom(h, a, resulting), b, resulting)
    decreases |a|
  {
    if |a| == 0 {
      assert a + b == b;
    } else {
      assert (a + b)[0] == a[0];
      assert (a + b)[1..] == a[1..] + b;
      ExpandSplit(CombineWith(h, resulting(a[0])), a[1..], b, resulting);
    }
  }

  // ---- filterOutDuplicates -------------------------------------------------------

  predicate NoDuplicates<T(==)>(s: seq<T>) {
    forall i, j :: 0 <= i < j < |s| ==> s[i] != s[j]
  }

  /** The loop of filterOutDuplicates: `kept` is the list built so far, and a
      path is added only when no kept path has the same statements and lock. */
  function KeepFirstOccurrences(kept: seq<LockingBranch>, rest: seq<LockingBranch>): (r: seq<LockingBranch>)
    requires NoDuplicates(kept)
    ensures NoDuplicates(r)
    ensures kept <= r
    ensures forall c :: c in r <==> c in kept || c in rest
    decreases |rest|
  {
    if |rest| == 0 then kept
    else if rest[0] in kept then KeepFirstOccurrences(kept, rest[1..])
    else KeepFirstOccurrences(kept + [rest[0]], rest[1..])
  }

  /** filterOutDuplicates: one copy of every path, no two alike. */
  function FilterOutDuplicates(combs: seq<LockingBranch>): (r: seq<LockingBranch>)
    ensures NoDuplicates(r)
    ensures forall c :: c in r <==> c in combs
    ensures |r| <= |combs|
  {
    var r := KeepFirstOccurrences([], combs);
    DistinctElementsBound(r, combs);
    r
  }

  /** A duplicate-free list of elements drawn from `s` is no longer than `s`. */
  lemma {:induction false} DistinctElementsBound<T>(r: seq<T>, s: seq<T>)
    requires NoDuplicates(r)
    requires forall x :: x in r ==> x in s
    ensures |r| <= |s|
    decreases |r|
  {
    if |r| > 0 {
      var x := r[0];
      assert x in r;
      var k :| 0 <= k < |s| && s[k] == x;
      var s' := s[..k] + s[k + 1..];
      var rest := r[1..];
      forall y | y in rest ensures y in s' {
        var m :| 0 <= m < |rest| && rest[m] == y;
        assert y == r[m + 1] && r[m + 1] != r[0];
        assert y in r;
        var n :| 0 <= n < |s| && s[n] == y;
        if n < k {
          assert s'[n] == y;
        } else {
          assert s'[n - 1] == y;
        }
      }
      forall a, b | 0 <= a < b < |rest| ensures rest[a] != rest[b] {
        assert rest[a] == r[a + 1] && rest[b] == r[b + 1];
      }
      DistinctElementsBound(rest, s');
    }
  }

  /** Reference definition: the first occurrence of every path, in order. */
  function FirstOccurrences(s: seq<LockingBranch>): seq<LockingBranch>
    decreases |s|
  {
    if |s| == 0 then []
    else
      var init := s[..|s| - 1];
      FirstOccurrences(init) + (if s[|s| - 1] in init then [] else [s[|s| - 1]])
  }

  lemma {:induction false} FirstOccurrencesElements(s: seq<LockingBranch>)
    ensures forall c :: c in FirstOccurrences(s) <==> c in s
    decreases |s|
  {
    if |s| > 0 {
      var init := s[..|s| - 1];
      FirstOccurrencesElements(init);
      assert s == init + [s[|s| - 1]];
    }
  }

  /** The accumulator loop computes the reference definition: from any
      starting list, it adds the first occurrences of the not-yet-kept paths. */
  lemma {:induction false} KeepFirstIsFirstOccurrences(kept: seq<LockingBranch>, rest: seq<LockingBranch>)
    requires NoDuplicates(kept)
    requires FirstOccurrences(kept) == kept
    ensures KeepFirstOccurrences(kept, rest) == FirstOccurrences(kept + rest)
    decreases |rest|
  {
    if |rest| == 0 {
      assert kept + rest == kept;
    } else {
      var x := rest[0];
      var next := if x in kept then kept else kept + [x];
      FirstOccurrencesElements(kept);
      assert (kept + [x])[..|kept|] == kept;
      assert FirstOccurrences(kept + [x]) == kept + (if x in kept then [] else [x]);
      assert kept + rest == (kept + [x]) + rest[1..];
      if x in kept {
        assert FirstOccurrences(kept + [x]) == kept;
        FirstOccurrencesDropRepeat(kept, x, rest[1..]);
        KeepFirstIsFirstOccurrences(kept, rest[1..]);
      } else {
        assert NoDuplicates(kept + [x]);
        KeepFirstIsFirstOccurrences(kept + [x], rest[1..]);
      }
    }
  }

  /** A repeat of an element already seen contributes nothing. */
  lemma {:induction false} FirstOccurrencesDropRepeat(kept: seq<LockingBranch>, x: LockingBranch, tail: seq<LockingBranch>)
    requires x in kept
    ensures FirstOccurrences(kept + [x] + tail) == FirstOccurrences(kept + tail)
    decreases |tail|
  {
    if |tail| == 0 {
      assert kept + [x] + tail == kept + [x];
      assert (kept + [x])[..|kept|] == kept;
      assert kept + tail == kept;
    } else {
      var a := kept + [x] + tail;
      var b := kept + tail;
      var t' := tail[..|tail| - 1];
      var y := tail[|tail| - 1];
      assert a[..|a| - 1] == kept + [x] + t';
      assert b[..|b| - 1] == kept + t';
      FirstOccurrencesDropRepeat(kept, x, t');
      assert y in kept + [x] + t' <==> y in kept + t';
    }
  }

  /** filterOutDuplicates keeps exactly the first occurrence of each path, in
      the original order. */
  lemma FilterOutDuplicatesKeepsFirstOccurrences(combs: seq<LockingBranch>)
    ensures FilterOutDuplicates(combs) == FirstOccurrences(combs)
  {
    KeepFirstIsFirstOccurrences([], combs);
    assert [] + combs == combs;
  }

  /** A duplicate-free list is its own list of first occurrences. */
  lemma {:induction false} FirstOccurrencesOfDistinct(s: seq<LockingBranch>)
    requires NoDuplicates(s)
    ensures FirstOccurrences(s) == s
    decreases |s|
  {
    if |s| > 0 {
      var init := s[..|s| - 1];
      FirstOccurrencesOfDistinct(init);
      assert s[|s| - 1] !in init;
    }
  }

  /** Filtering twice is filtering once. */
  lemma FilterOutDuplicatesIdempotent(combs: seq<LockingBranch>)
    ensures FilterOutDuplicates(FilterOutDuplicates(combs)) == FilterOutDuplicates(combs)
  {
    var once := FilterOutDuplicates(combs);
    FilterOutDuplicatesKeepsFirstOccurrences(once);
    FirstOccurrencesOfDistinct(once);
  }

  /** Clearing loop locks twice is clearing them once. */
  lemma RemoveAllLoopLocksIdempotent(h: CombinationsHolder)
    ensures RemoveAllLoopLocks(RemoveAllLoopLocks(h)) == RemoveAllLoopLocks(h)
  {
    var once := RemoveAllLoopLocks(h).allCombinations;
    assert MapRemoveAnyLoopLock(once) == once;
    FilterOutDuplicatesKeepsFirstOccurrences(once);
    FirstOccurrencesOfDistinct(once);
  }

  /** Clearing every lock twice is clearing them once. */
  lemma RemoveAllLocksIdempotent(h: CombinationsHolder)
    ensures RemoveAllLocks(RemoveAllLocks(h)) == RemoveAllLocks(h)
  {
    var once := RemoveAllLocks(h).allCombinations;
    forall i | 0 <= i < |once| ensures MapRemoveAnyLock(once)[i] == once[i] {
      assert once[i] in once;
    }
    assert MapRemoveAnyLock(once) == once;
    FilterOutDuplicatesKeepsFirstOccurrences(once);
    FirstOccurrencesOfDistinct(once);
  }
}
