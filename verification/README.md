# Corda flow analyser: path enumeration and protocol matching

This project is a Dafny model of the core of the Corda flow analyser. The analyser reads the Java source of Corda flows and checks that an initiating flow and its responder exchange messages in an order both can follow. Its core has five parts:

- **CombinationsHolder.** It expands a block of statements into every linear path through it. A path is called a *combination*, a `LockingBranch`. A path can be cut by a `break`, a `continue`, or a `return`/`throw`, and it then records this in its lock status.
- **The matcher.** `twoCombinationsMatch` walks the communication statements of one initiating path and one initiated path as two FIFO queues. `checkIfMatchesAndDraw` tries every pair of paths.
- **The companion rules.** These are the `acceptCompanion` rules of `Receive`, of the two-phase `SendAndReceive` and of `CordaSubFlow`.
- **SubFlowBuilder.** It holds the table of Corda library flows that come in initiator/responder pairs, the predicates built on that table, and the order in which a `subFlow(...)` call is classified.
- **ClassDescriptionContainer.** The naming record of a flow class. Its equality and hash are by fully-qualified name.

Modules, one per source concern:

| file | module | models |
|---|---|---|
| `options.dfy` | `Options` | Java `null` as `Option` |
| `statements.dfy` | `Statements` | statement objects, as far as this core sees them |
| `locking_branch.dfy` | `LockingBranches` | the inner class `LockingBranch` |
| `combinations_holder.dfy` | `Combinations` | `CombinationsHolder` except the matcher |
| `companions.dfy` | `Companions` | `Receive`, `SendAndReceive`, `CordaSubFlow` acceptance |
| `matching.dfy` | `Matching` | `twoCombinationsMatch`, `checkIfMatchesAndDraw` |
| `sub_flow_builder.dfy` | `SubFlows` | the pair table, its predicates, the classification order |
| `class_description.dfy` | `ClassDescriptions` | `ClassDescriptionContainer` |

Modelling choices:

- **Value semantics.**
  - A statement is a value `Stmt(id, …)`. Its `id` stands for Java object identity.
  - Paths and holders are immutable values. Every Java operation that mutates a holder becomes a function that returns the new holder.
  - This is exact, because no two holders share a `LockingBranch` object: `fromOtherCombination`, `mergeWith` and `combineWith` all copy paths.
- **SendAndReceive flag.**
  - The only mutable state the matcher touches is `SendAndReceive.isSentConsumed`. It lives on statement objects that all combinations share.
  - It is modelled as an explicit set of the ids whose flag is set. Every acceptance rule takes that set and returns it updated, and the matcher threads it from one pair of paths to the next.
- **Collaborators outside the core are parameters:**
  - Send's own acceptance rule;
  - the subtype relation on types;
  - each statement's `getResultingCombinations`;
  - the outcome of analysing a non-Corda subflow class.
- **Termination without fuel.** The matcher's loop is proved to terminate by a rank: two units per initiating statement, minus one while the head is a `SendAndReceive` whose send half has been used. This works because `SendAndReceive.acceptCompanion` flips its own flag after the companion's rule has run.

Behaviour of the code that a reader might not expect:

- **Locked paths.** `combineWith` keeps a locked path only when the other holder has exactly one path. When the other holder has two or more, locked paths are dropped from the cross product (`Combinations.CombineWithDropsLockedPaths`).
- **The flow-break statement.** `fromBranch` adds no flow-break statement to any path. When it meets one, it locks the paths built so far and stops (`Combinations.FromBranchWithEarlyExit`).
- **Method lock.** The method lock overwrites any lock status, while the two loop locks are taken only by an unlocked path (`LockingBranches.SetMethodLock`, `Combinations.SetAllLocksFor`).
- **Lock of the extended paths.** On the one-path shortcut of `combineWith`, an extended path takes its lock from the appended statements, not from the other path's lock status (`Combinations.CombineWithSingle`).
- **Empty receiver.** An empty receiver first copies the other holder and then still combines with it, so an unlocked single path ends up doubled (`Combinations.CombineWithEmptyReceiverDuplicates`).

## Model

Paths in the source column are relative to the repository root.

| member | source | states |
|---|---|---|
| LockingBranches.LockAfterLocksIffFlowBreak | graph-builder/src/main/java/com/github/lucacampanella/callgraphflows/staticanalyzer/CombinationsHolder.java:56-66 | the lock a statement sets on an unlocked path is not NO_LOCK exactly when the statement is a break, continue or method exit |
| LockingBranches.SetBreakLoopLock | graph-builder/src/main/java/com/github/lucacampanella/callgraphflows/staticanalyzer/CombinationsHolder.java:89-92 | statements unchanged; a locked path keeps its lock; an unlocked one becomes LOOP_BREAK_LOCKED |
| LockingBranches.SetContinueLoopLock | graph-builder/src/main/java/com/github/lucacampanella/callgraphflows/staticanalyzer/CombinationsHolder.java:78-81 | statements unchanged; a locked path keeps its lock; an unlocked one becomes LOOP_CONTINUE_LOCKED |
| LockingBranches.SetMethodLock | graph-builder/src/main/java/com/github/lucacampanella/callgraphflows/staticanalyzer/CombinationsHolder.java:103-105 | the method lock replaces any lock status, statements unchanged |
| LockingBranches.RemoveContinueLoopLock | graph-builder/src/main/java/com/github/lucacampanella/callgraphflows/staticanalyzer/CombinationsHolder.java:72-76 | a continue-locked path becomes NO_LOCK; any other path is returned unchanged; statements unchanged |
| LockingBranches.RemoveBreakLoopLock | graph-builder/src/main/java/com/github/lucacampanella/callgraphflows/staticanalyzer/CombinationsHolder.java:83-87 | a break-locked path becomes NO_LOCK; any other path is returned unchanged; statements unchanged |
| LockingBranches.RemoveAnyLoopLock | graph-builder/src/main/java/com/github/lucacampanella/callgraphflows/staticanalyzer/CombinationsHolder.java:94-97 | both loop locks are cleared, a method lock survives, statements unchanged |
| LockingBranches.RemoveAnyLock | graph-builder/src/main/java/com/github/lucacampanella/callgraphflows/staticanalyzer/CombinationsHolder.java:99-101 | the path is unlocked afterwards, statements unchanged |
| LockingBranches.LoopLockRoundTrip | graph-builder/src/main/java/com/github/lucacampanella/callgraphflows/staticanalyzer/CombinationsHolder.java:72-105 | on an unlocked path, taking a loop lock and clearing loop locks gives the path back; clearing loop locks never undoes a method lock, clearing every lock does |
| LockingBranches.SetLockStatusIfLockingInstr | graph-builder/src/main/java/com/github/lucacampanella/callgraphflows/staticanalyzer/CombinationsHolder.java:56-66 | an unlocked path takes the lock of the statement, break checked before continue before method exit; a statement that is no flow break changes nothing |
| LockingBranches.SingleStatementBranch | graph-builder/src/main/java/com/github/lucacampanella/callgraphflows/staticanalyzer/CombinationsHolder.java:34-37 | the one-statement path holds exactly that statement and is locked iff it is a flow break |
| LockingBranches.Add | graph-builder/src/main/java/com/github/lucacampanella/callgraphflows/staticanalyzer/CombinationsHolder.java:39-45 | null or a locked path: no change; otherwise the statement is appended and the path takes its lock |
| LockingBranches.AddAllAppendsReachablePrefix | graph-builder/src/main/java/com/github/lucacampanella/callgraphflows/staticanalyzer/CombinationsHolder.java:47-51 | appending statements one by one to an unlocked path keeps them up to and including the first flow break and takes that break's lock; a locked path does not change |
| LockingBranches.AddBranch | graph-builder/src/main/java/com/github/lucacampanella/callgraphflows/staticanalyzer/CombinationsHolder.java:47-54 | an unlocked path gets the reachable part of the other path's statements and then the other path's lock status; a locked path does not change |
| LockingBranches.SameStatementsAndLockStatus | graph-builder/src/main/java/com/github/lucacampanella/callgraphflows/staticanalyzer/CombinationsHolder.java:107-109 | true iff both paths hold the same statements in the same order with the same lock |
| Statements.OnlyCompanions | graph-builder/src/main/java/com/github/lucacampanella/callgraphflows/staticanalyzer/CombinationsHolder.java:275-278 | the queue of a path holds only its communication statements, each taken from the path; a path of communication statements only gives a queue of the same length |
| Statements.OnlyCompanionsSingle | graph-builder/src/main/java/com/github/lucacampanella/callgraphflows/staticanalyzer/CombinationsHolder.java:275-278 | a single statement contributes itself when it communicates, and nothing otherwise |
| Statements.OnlyCompanionsConcat | graph-builder/src/main/java/com/github/lucacampanella/callgraphflows/staticanalyzer/CombinationsHolder.java:275-278 | the queue of a concatenation is the concatenation of the queues, so every communication statement is kept, in path order |
| Statements.OnlyCompanionsOfPlain | graph-builder/src/main/java/com/github/lucacampanella/callgraphflows/staticanalyzer/CombinationsHolder.java:275-278 | a path without communication statements gives an empty queue |
| Combinations.NewHolder | graph-builder/src/main/java/com/github/lucacampanella/callgraphflows/staticanalyzer/CombinationsHolder.java:116-120 | one empty unlocked path when asked for, otherwise no path |
| Combinations.FromSingleStatement | graph-builder/src/main/java/com/github/lucacampanella/callgraphflows/staticanalyzer/CombinationsHolder.java:130-134 | exactly one path, holding just the statement, locked iff the statement is a flow break |
| Combinations.FromOtherCombination | graph-builder/src/main/java/com/github/lucacampanella/callgraphflows/staticanalyzer/CombinationsHolder.java:122-128 | same number of paths, each with the same statements and lock as the original |
| Combinations.IsEmpty | graph-builder/src/main/java/com/github/lucacampanella/callgraphflows/staticanalyzer/CombinationsHolder.java:205-207 | true iff the holder has no path |
| Combinations.AppendToAllCombinations | graph-builder/src/main/java/com/github/lucacampanella/callgraphflows/staticanalyzer/CombinationsHolder.java:140-142 | every path, and only it, is extended by add(statement), in order |
| Combinations.MergeWith | graph-builder/src/main/java/com/github/lucacampanella/callgraphflows/staticanalyzer/CombinationsHolder.java:152-156 | the receiver's paths followed by the other holder's paths |
| Combinations.Unlocked | graph-builder/src/main/java/com/github/lucacampanella/callgraphflows/staticanalyzer/CombinationsHolder.java:169-170 | the unlocked paths, no others, in order; all of them when none is locked |
| Combinations.UnlockedConcat | graph-builder/src/main/java/com/github/lucacampanella/callgraphflows/staticanalyzer/CombinationsHolder.java:169-170 | filtering the unlocked paths distributes over concatenation, so it keeps their order |
| Combinations.ProductLength | graph-builder/src/main/java/com/github/lucacampanella/callgraphflows/staticanalyzer/CombinationsHolder.java:168-178 | the nested loops yield one path per (receiver path, other path) pair |
| Combinations.ProductAt | graph-builder/src/main/java/com/github/lucacampanella/callgraphflows/staticanalyzer/CombinationsHolder.java:168-178 | pair (i, j) sits at position i * n + j and is receiver path i extended by other path j |
| Combinations.ProductMembers | graph-builder/src/main/java/com/github/lucacampanella/callgraphflows/staticanalyzer/CombinationsHolder.java:168-178 | every product path extends some receiver path by some other path |
| Combinations.CombineWithCrossProduct | graph-builder/src/main/java/com/github/lucacampanella/callgraphflows/staticanalyzer/CombinationsHolder.java:167-179 | with two or more other paths: (#unlocked receiver paths) x (#other paths) paths, entry (i, j) is unlocked path i followed by the reachable part of other path j, with other path j's lock |
| Combinations.CombineWithExtendsOnlyUnlocked | graph-builder/src/main/java/com/github/lucacampanella/callgraphflows/staticanalyzer/CombinationsHolder.java:167-179 | every path the cross product yields starts with an unlocked receiver path |
| Combinations.CombineWithDropsLockedPaths | graph-builder/src/main/java/com/github/lucacampanella/callgraphflows/staticanalyzer/CombinationsHolder.java:169-176 | a locked receiver path is not carried into the cross product |
| Combinations.ShortcutAgreesWithProduct | graph-builder/src/main/java/com/github/lucacampanella/callgraphflows/staticanalyzer/CombinationsHolder.java:164-175 | on unlocked receiver paths the one-path shortcut and the cross product give the same paths when the other path's lock is the one its statements set |
| Combinations.CombineWithSingle | graph-builder/src/main/java/com/github/lucacampanella/callgraphflows/staticanalyzer/CombinationsHolder.java:164-166 | with one other path: same number of paths; locked paths unchanged, unlocked ones extended by the reachable part of its statements and locked by them |
| Combinations.CombineWithEmptySides | graph-builder/src/main/java/com/github/lucacampanella/callgraphflows/staticanalyzer/CombinationsHolder.java:158-167 | an empty other holder leaves a non-empty receiver unchanged; an empty receiver acts as a copy of the other holder |
| Combinations.CombineWithEmptyReceiverDuplicates | graph-builder/src/main/java/com/github/lucacampanella/callgraphflows/staticanalyzer/CombinationsHolder.java:158-166 | an empty receiver combined with a one-statement holder ends with that statement twice |
| Combinations.CombineWith | graph-builder/src/main/java/com/github/lucacampanella/callgraphflows/staticanalyzer/CombinationsHolder.java:158-180 | an empty other holder leaves the receiver unchanged; one other path keeps the number of paths (one path for an empty receiver); two or more give (#unlocked paths) x (#other paths) paths |
| Combinations.CombineWithBranch | graph-builder/src/main/java/com/github/lucacampanella/callgraphflows/staticanalyzer/CombinationsHolder.java:148-150 | combining with an empty branch leaves a non-empty holder unchanged and turns an empty one into the single empty path |
| Combinations.SetAllLocksFor | graph-builder/src/main/java/com/github/lucacampanella/callgraphflows/staticanalyzer/CombinationsHolder.java:186-200 | the tests run continue, break, method exit: an unlocked path gets LOOP_CONTINUE_LOCKED for a continue (even one that also breaks) and LOOP_BREAK_LOCKED for a break; every path keeps its statements and ends locked; a loop flow break leaves locked paths as they were; a method exit sets METHOD_LOCKED on all; a statement that is no flow break changes nothing |
| Combinations.ExpandFrom | graph-builder/src/main/java/com/github/lucacampanella/callgraphflows/staticanalyzer/CombinationsHolder.java:185-200 | no statements left: the holder is unchanged; a flow break first: same paths, same statements, all locked, and the rest is ignored |
| Combinations.FromBranch | graph-builder/src/main/java/com/github/lucacampanella/callgraphflows/staticanalyzer/CombinationsHolder.java:183-203 | an empty branch gives the single empty path; a branch starting with a flow break gives one empty path locked by the first of continue, break, method exit that the statement is |
| Combinations.SetAllBreakLoopLocks | graph-builder/src/main/java/com/github/lucacampanella/callgraphflows/staticanalyzer/CombinationsHolder.java:237-239 | every path gets setBreakLoopLock, in order, none added or lost |
| Combinations.SetAllContinueLoopLocks | graph-builder/src/main/java/com/github/lucacampanella/callgraphflows/staticanalyzer/CombinationsHolder.java:241-243 | every path gets setContinueLoopLock, in order, none added or lost |
| Combinations.SetAllMethodLocks | graph-builder/src/main/java/com/github/lucacampanella/callgraphflows/staticanalyzer/CombinationsHolder.java:245-247 | every path gets setMethodLock, in order, none added or lost |
| Combinations.RemoveAllContinueLoopLocks | graph-builder/src/main/java/com/github/lucacampanella/callgraphflows/staticanalyzer/CombinationsHolder.java:223-225 | every path gets removeContinueLoopLock, and duplicates are kept |
| Combinations.RemoveAllLoopLocks | graph-builder/src/main/java/com/github/lucacampanella/callgraphflows/staticanalyzer/CombinationsHolder.java:227-230 | no two paths alike, none loop-locked, and the paths are exactly the loop-unlocked originals |
| Combinations.RemoveAllLocks | graph-builder/src/main/java/com/github/lucacampanella/callgraphflows/staticanalyzer/CombinationsHolder.java:232-235 | no two paths alike, none locked, and the paths are exactly the unlocked originals |
| Combinations.FromBranchStopsAtFirstFlowBreak | graph-builder/src/main/java/com/github/lucacampanella/callgraphflows/staticanalyzer/CombinationsHolder.java:183-203 | the walk ends at the first flow break: later statements play no part and the paths built so far get that break's lock, continue checked before break before method exit |
| Combinations.ExpandPlainExtendsEveryPath | graph-builder/src/main/java/com/github/lucacampanella/callgraphflows/staticanalyzer/CombinationsHolder.java:186-200 | statements that are not flow breaks and stand for themselves are appended, in order, to every unlocked path, the number of paths unchanged |
| Combinations.ExpandSplit | graph-builder/src/main/java/com/github/lucacampanella/callgraphflows/staticanalyzer/CombinationsHolder.java:186-200 | walking a + b is walking a and then b, when a holds no flow break |
| Combinations.FromBranchOfPlainSequence | graph-builder/src/main/java/com/github/lucacampanella/callgraphflows/staticanalyzer/CombinationsHolder.java:183-203 | a block of ordinary statements gives exactly one unlocked path holding them all in order |
| Combinations.FromBranchWithEarlyExit | graph-builder/src/main/java/com/github/lucacampanella/callgraphflows/staticanalyzer/CombinationsHolder.java:183-203 | ordinary statements and then a return or throw give one method-locked path holding the statements before it, and neither the exit nor what follows it |
| Combinations.FromBranchWithOneConditional | graph-builder/src/main/java/com/github/lucacampanella/callgraphflows/staticanalyzer/CombinationsHolder.java:183-203 | one two-way branching statement gives exactly two paths: common prefix, one alternative, common suffix |
| Combinations.AddBranchPlain | graph-builder/src/main/java/com/github/lucacampanella/callgraphflows/staticanalyzer/CombinationsHolder.java:47-54 | appending a path with no flow break to an unlocked path concatenates them and copies the lock |
| Combinations.KeepFirstOccurrences | graph-builder/src/main/java/com/github/lucacampanella/callgraphflows/staticanalyzer/CombinationsHolder.java:326-338 | the inner loop keeps the list built so far, adds every path not yet kept, and never adds a second copy |
| Combinations.FilterOutDuplicates | graph-builder/src/main/java/com/github/lucacampanella/callgraphflows/staticanalyzer/CombinationsHolder.java:325-340 | no two paths alike, the same set of paths, never longer |
| Combinations.KeepFirstIsFirstOccurrences | graph-builder/src/main/java/com/github/lucacampanella/callgraphflows/staticanalyzer/CombinationsHolder.java:326-338 | the loop computes the reference definition: the first occurrence of every path, in order |
| Combinations.FilterOutDuplicatesKeepsFirstOccurrences | graph-builder/src/main/java/com/github/lucacampanella/callgraphflows/staticanalyzer/CombinationsHolder.java:325-340 | filterOutDuplicates keeps exactly the first occurrence of each path, in the original order |
| Combinations.FilterOutDuplicatesIdempotent | graph-builder/src/main/java/com/github/lucacampanella/callgraphflows/staticanalyzer/CombinationsHolder.java:325-340 | filtering twice is filtering once |
| Combinations.RemoveAllLoopLocksIdempotent | graph-builder/src/main/java/com/github/lucacampanella/callgraphflows/staticanalyzer/CombinationsHolder.java:227-230 | clearing loop locks twice is clearing them once |
| Combinations.RemoveAllLocksIdempotent | graph-builder/src/main/java/com/github/lucacampanella/callgraphflows/staticanalyzer/CombinationsHolder.java:232-235 | clearing every lock twice is clearing them once |
| Companions.SetSentConsumed | graph-builder/src/main/java/com/github/lucacampanella/callgraphflows/staticanalyzer/instructions/SendAndReceive.java:121-127 | afterwards isSentConsumed of that object is the value given, and no other object's flag changes |
| Companions.HasSendOrReceiveAtThisLevel | graph-builder/src/main/java/com/github/lucacampanella/callgraphflows/staticanalyzer/instructions/SendAndReceive.java:129-132 | always true |
| Companions.IsCordaSubFlow | graph-builder/src/main/java/com/github/lucacampanella/callgraphflows/staticanalyzer/instructions/CordaSubFlow.java:16-19 | always true |
| Companions.ReceiveIsAccepted | graph-builder/src/main/java/com/github/lucacampanella/callgraphflows/staticanalyzer/instructions/Receive.java:81-93 | against a Send: accepted iff the types are equal, flags untouched; against a SendAndReceive: accepted iff the types are equal and its send half is unused, and that half is used up either way; otherwise the incoming verdict, flags untouched |
| Companions.ReceiveAcceptCompanion | graph-builder/src/main/java/com/github/lucacampanella/callgraphflows/staticanalyzer/instructions/Receive.java:73-79 | accepted only by a Send or SendAndReceive that sends exactly the received type; at most that companion's flag changes |
| Companions.ReceiveUsesUpSendHalf | graph-builder/src/main/java/com/github/lucacampanella/callgraphflows/staticanalyzer/instructions/Receive.java:86-90 | once a receive was checked against a SendAndReceive, a second receive of the same object is refused |
| Companions.SendAndReceiveAcceptCompanion | graph-builder/src/main/java/com/github/lucacampanella/callgraphflows/staticanalyzer/instructions/SendAndReceive.java:76-89 | every call flips the object's own flag. Flag clear: the verdict and flags are those of Send's rule for the sent type, then the own flag is set. Flag set: the verdict is Receive's rule for the received type; a SendAndReceive companion gets its flag set and the own flag is cleared; for any other companion only the own flag is cleared |
| Companions.SendAndReceiveTwoPhases | graph-builder/src/main/java/com/github/lucacampanella/callgraphflows/staticanalyzer/instructions/SendAndReceive.java:76-89 | two consecutive calls restore the flag, and the object leaves its queue after exactly one of them |
| Companions.FreshSendAndReceiveSendsFirst | graph-builder/src/main/java/com/github/lucacampanella/callgraphflows/staticanalyzer/instructions/SendAndReceive.java:79-81 | with the flag clear it is judged as a send, and it stays at the head of its queue afterwards |
| Companions.CordaSubFlowAcceptCompanion | graph-builder/src/main/java/com/github/lucacampanella/callgraphflows/staticanalyzer/instructions/CordaSubFlow.java:27-60 | a non-subflow companion and a same known role are refused; with opposite known roles the table decides with the true side as initiating; against a companion with a null role, a true flow is matched against itself and a false flow against the companion as initiating; acceptance needs an initiating special flow on one side |
| Companions.CordaSubFlowAcceptanceSymmetric | graph-builder/src/main/java/com/github/lucacampanella/callgraphflows/staticanalyzer/instructions/CordaSubFlow.java:31-57 | with both roles known, the verdict is the same whichever side runs the test |
| Companions.CordaSubFlowNullRole | graph-builder/src/main/java/com/github/lucacampanella/callgraphflows/staticanalyzer/instructions/CordaSubFlow.java:43-52 | with a null role on the testing side, this flow plays the initiating part, and the initiated part falls to the companion only when it is known to be initiated |
| Companions.AcceptCompanion | graph-builder/src/main/java/com/github/lucacampanella/callgraphflows/staticanalyzer/CombinationsHolder.java:298-301 | a CordaSubFlow leaves every flag alone, a Receive can only set its companion's flag, a SendAndReceive always flips its own |
| Companions.ConsumedAfterAcceptCompanion | graph-builder/src/main/java/com/github/lucacampanella/callgraphflows/staticanalyzer/instructions/SendAndReceive.java:166-169 | after a check, every initiating head leaves its queue except a SendAndReceive whose check was its send half; an initiated SendAndReceive stays when a Receive, or another SendAndReceive in its receive half, has just used its send half, and a sub-flow check leaves its place unchanged |
| Matching.TwoQueuesMatch | graph-builder/src/main/java/com/github/lucacampanella/callgraphflows/staticanalyzer/CombinationsHolder.java:283-315 | both queues empty: the empty match list; exactly one empty: no match; a match list has at least one pair per statement of each queue and starts with the accepted pair of heads |
| Matching.TwoQueuesMatchRound | graph-builder/src/main/java/com/github/lucacampanella/callgraphflows/staticanalyzer/CombinationsHolder.java:283-313 | one round on non-empty queues: a refusal gives no match with the flags the test left; an acceptance gives the pair in front of the walk over the queues left after popping each head that reports itself consumed |
| Matching.AfterRound | graph-builder/src/main/java/com/github/lucacampanella/callgraphflows/staticanalyzer/CombinationsHolder.java:306-312 | a head other than a SendAndReceive is always popped; a SendAndReceive is popped or kept |
| Matching.TwoCombinationsMatchLength | graph-builder/src/main/java/com/github/lucacampanella/callgraphflows/staticanalyzer/CombinationsHolder.java:273-316 | a match list has at least one pair per communication statement of either path |
| Matching.TwoCombinationsMatchSilent | graph-builder/src/main/java/com/github/lucacampanella/callgraphflows/staticanalyzer/CombinationsHolder.java:283-292 | two paths without communication statements match with an empty list; a silent path against one that communicates gives no match |
| Matching.LockStepMatch | graph-builder/src/main/java/com/github/lucacampanella/callgraphflows/staticanalyzer/CombinationsHolder.java:283-315 | with no SendAndReceive on either side (and, for a Send on the initiating side, a Send rule that keeps the flags), the queues match iff they have equal length and match position by position; the pairs are the queues zipped and the flags are unchanged |
| Matching.ReceiveAgainstSend | graph-builder/src/main/java/com/github/lucacampanella/callgraphflows/staticanalyzer/CombinationsHolder.java:283-315 | a receive of T against a send of U matches, with one pair, iff T = U |
| Matching.SendAgainstReceive | graph-builder/src/main/java/com/github/lucacampanella/callgraphflows/staticanalyzer/CombinationsHolder.java:298-301 | under a Send rule that accepts exactly a Receive of the same type, one send against one receive matches with one pair iff the types agree, flags unchanged |
| Matching.SendAndReceiveTogglesAgainstReceiveThenSend | graph-builder/src/main/java/com/github/lucacampanella/callgraphflows/staticanalyzer/instructions/SendAndReceive.java:76-89 | a fresh SendAndReceive(T, U) matches a responder that receives T and then sends U, in two rounds, and leaves its flag as it found it |
| Matching.SendAndReceiveFailsAgainstSendFirst | graph-builder/src/main/java/com/github/lucacampanella/callgraphflows/staticanalyzer/CombinationsHolder.java:298-301 | under that same Send rule, a fresh SendAndReceive against a responder that sends first fails at the first round |
| Matching.AllPairsAt | graph-builder/src/main/java/com/github/lucacampanella/callgraphflows/staticanalyzer/CombinationsHolder.java:211-212 | the pairs of paths are tried in the order of the two nested loops, pair (i, j) at position i * n + j |
| Matching.AppendPair | graph-builder/src/main/java/com/github/lucacampanella/callgraphflows/staticanalyzer/CombinationsHolder.java:212-218 | trying one more pair adds its outcome to the verdict and leaves the flags that pair left |
| Matching.SomePairMatchesIffExists | graph-builder/src/main/java/com/github/lucacampanella/callgraphflows/staticanalyzer/CombinationsHolder.java:209-221 | the verdict is true iff some pair, tried with the flags the earlier pairs left, matches |
| Matching.ConcatPairs | graph-builder/src/main/java/com/github/lucacampanella/callgraphflows/staticanalyzer/CombinationsHolder.java:210-220 | trying one list of pairs and then another is trying their concatenation: the verdicts are or-ed and the second list starts from the flags the first left |
| Matching.MatchRow | graph-builder/src/main/java/com/github/lucacampanella/callgraphflows/staticanalyzer/CombinationsHolder.java:212-218 | the inner loop gives the verdict and flags of one initiating path tried against every initiated path in order, starting from the flags given |
| Matching.CheckIfMatchesAndDraw | graph-builder/src/main/java/com/github/lucacampanella/callgraphflows/staticanalyzer/CombinationsHolder.java:209-221 | the loops compute the verdict over all pairs in order, threading the SendAndReceive flags |
| SubFlows.CordaSpecialFlowsHasSevenEntries | graph-builder/src/main/java/com/github/lucacampanella/callgraphflows/staticanalyzer/instructions/SubFlowBuilder.java:91-112 | the seven puts use seven different keys, so the table has seven entries |
| SubFlows.IsInitiatingByEntry | graph-builder/src/main/java/com/github/lucacampanella/callgraphflows/staticanalyzer/instructions/SubFlowBuilder.java:209-217 | a type is an initiating special flow iff it is a subtype of one of the seven keys of the table |
| SubFlows.IsInitiatedByEntry | graph-builder/src/main/java/com/github/lucacampanella/callgraphflows/staticanalyzer/instructions/SubFlowBuilder.java:219-227 | a type is an initiated special flow iff it is a subtype of one of the six distinct values of the table |
| SubFlows.TableTypesAreCordaTypes | graph-builder/src/main/java/com/github/lucacampanella/callgraphflows/staticanalyzer/instructions/SubFlowBuilder.java:229-231 | every flow named in the table also passes the net.corda prefix test |
| SubFlows.AreMatchingSpecialCordaFlowByEntry | graph-builder/src/main/java/com/github/lucacampanella/callgraphflows/staticanalyzer/instructions/SubFlowBuilder.java:233-242 | two flows match iff, for one of the seven entries, the first is a subtype of its key and the second of its value |
| SubFlows.MatchingImpliesRoles | graph-builder/src/main/java/com/github/lucacampanella/callgraphflows/staticanalyzer/instructions/SubFlowBuilder.java:209-242 | a matching pair is an initiating special flow and an initiated one |
| SubFlows.TablePairsMatch | graph-builder/src/main/java/com/github/lucacampanella/callgraphflows/staticanalyzer/instructions/SubFlowBuilder.java:233-242 | every entry of the table matches itself under any reflexive subtype relation |
| SubFlows.ClassifySubFlow | graph-builder/src/main/java/com/github/lucacampanella/callgraphflows/staticanalyzer/instructions/SubFlowBuilder.java:172-203 | the tests run initiating, then initiated, then the net.corda prefix, then the class analysis; only an unknown Corda flow or a failed analysis leaves the role null |
| SubFlows.SwapIdentitiesFlowIsInitiating | graph-builder/src/main/java/com/github/lucacampanella/callgraphflows/staticanalyzer/instructions/SubFlowBuilder.java:173-180 | SwapIdentitiesFlow is both initiating and initiated, and is classified as initiating |
| ClassDescriptions.GetContainingClassNameOrItself | graph-builder/src/main/java/com/github/lucacampanella/callgraphflows/staticanalyzer/ClassDescriptionContainer.java:101-103 | the containing class name when there is one, else the simple name |
| ClassDescriptions.HasContainingClassIffParentPrepended | graph-builder/src/main/java/com/github/lucacampanella/callgraphflows/staticanalyzer/ClassDescriptionContainer.java:93-95 | a container has a containing class exactly when its name with parent is longer than its simple name |
| ClassDescriptions.GetNameWithParent | graph-builder/src/main/java/com/github/lucacampanella/callgraphflows/staticanalyzer/ClassDescriptionContainer.java:117-119 | a nested class gives exactly the containing name, '$', then the simple name; a top-level class gives its simple name |
| ClassDescriptions.NameWithParentRoundTrip | graph-builder/src/main/java/com/github/lucacampanella/callgraphflows/staticanalyzer/ClassDescriptionContainer.java:117-119 | splitting the name with parent at its first '$' gives back both names when the containing name has no '$' |
| ClassDescriptions.SplitAtFirstDollar | graph-builder/src/main/java/com/github/lucacampanella/callgraphflows/staticanalyzer/ClassDescriptionContainer.java:118 | the inverse used by the round trip: no split iff no '$'; otherwise a '$'-free head and a tail that rebuild the name |
| ClassDescriptions.EqualsIsEquivalence | graph-builder/src/main/java/com/github/lucacampanella/callgraphflows/staticanalyzer/ClassDescriptionContainer.java:121-128 | equals is reflexive, symmetric and transitive on containers, and false for null and other classes |
| ClassDescriptions.EqualsIffSameQualifiedName | graph-builder/src/main/java/com/github/lucacampanella/callgraphflows/staticanalyzer/ClassDescriptionContainer.java:121-128 | two containers are equal iff their fully-qualified names are equal, whatever their other fields |
| ClassDescriptions.JavaStringHash | graph-builder/src/main/java/com/github/lucacampanella/callgraphflows/staticanalyzer/ClassDescriptionContainer.java:130-133 | a 32-bit signed value congruent modulo 2^32 to the base-31 polynomial of the name |
| ClassDescriptions.StringHash | graph-builder/src/main/java/com/github/lucacampanella/callgraphflows/staticanalyzer/ClassDescriptionContainer.java:130-133 | the loop h = 31 h + c with int overflow computes that value |
| ClassDescriptions.HashCode | graph-builder/src/main/java/com/github/lucacampanella/callgraphflows/staticanalyzer/ClassDescriptionContainer.java:130-133 | the hash is a 32-bit signed value |
| ClassDescriptions.EqualsImpliesSameHash | graph-builder/src/main/java/com/github/lucacampanella/callgraphflows/staticanalyzer/ClassDescriptionContainer.java:121-133 | equal containers hash equally |
| ClassDescriptions.AddImportantAnnotation | graph-builder/src/main/java/com/github/lucacampanella/callgraphflows/staticanalyzer/ClassDescriptionContainer.java:81-83 | the annotation is present afterwards, no other annotation is added or removed, and no other field changes |
| ClassDescriptions.AddImportantAnnotationKeepsIdentity | graph-builder/src/main/java/com/github/lucacampanella/callgraphflows/staticanalyzer/ClassDescriptionContainer.java:81-83 | adding an annotation changes neither equality nor the hash |

## Left out

- `Send.java`, `Branch`, `StatementInterface` and `StatementWithCompanionInterface` are not part of this model. The model makes these assumptions about them:
  - Send's acceptance rule (`Send.acceptCompanion`, read as `Send.isAccepted(companion, false, sentType)`, the same call `SendAndReceive` makes for its send half) is a parameter, free to return any verdict and flags. Lemmas that need more name it: `SendKeepsFlags` (flags untouched for every companion but a `SendAndReceive`) or `ExactSendRule` (accepted exactly by a `Receive` of the same type, flags untouched).
  - `isConsumedForCompanionAnalysis` is true for every statement except `SendAndReceive`, as the interface default.
  - `getOnlyStatementWithCompanionStatements` keeps the communication statements of a path in order.
  - `containsSameStatementsAs` is read as equality of the two statement sequences, element by element.
- Statements.TypeName: sent and received types are never null in the model. In the source, `SendAndReceive.receivedType` stays null when the first argument is neither a field read nor a lambda (`SendAndReceive.java:46-59`); the receive half then calls `receivedType.equals(...)` in `Receive.java:84` or `Receive.java:88` and throws a NullPointerException, which the model does not represent.
- Matching.CheckIfMatchesAndDraw: the verdict only. The `createGraphLink` calls on every matched pair draw the diagram, and `SendAndReceive.createGraphLink` (`SendAndReceive.java:91-111`) and `Receive.createGraphLink`, which marks a SendAndReceive companion's send half as used (`Receive.java:95-101`), also set flags, as may `Send.createGraphLink`, which is not part of this model. Those flag changes are not threaded into the next pair, so the verdict of later pairs is exact only when the drawing calls leave the flags as the acceptance tests left them.
- `appendToAllCombinations(Branch)` (`CombinationsHolder.java:144-146`) is left out, because `Branch.add(Branch)` is not part of this model. `combineWithBranch` is modelled (`Combinations.CombineWithBranch`).
- The default and copy constructors of `LockingBranch`, `addCombination` and `getAllCombinations` are left out. With values they are the empty path, identity and field access.
- Logging and the loop counter of `twoCombinationsMatch` are left out.
- `SubFlowBuilder.fromCtStatement` is left out except for its classification order. Source parsing, return types, session names and variable names come from spoon, and the class analysis of a non-Corda subflow is a parameter.
- SubFlows.CordaSpecialFlows: the keys and values are spoon type references in the source. The model uses qualified type names, with the nested `IdentitySyncFlow` classes written with a dot. Only the subtype relation, a parameter, and the `net.corda` prefix test look at them.
- `ClassDescriptionContainer.fromClass`, `getEmpty`, the getters and `setReturnType` are left out. The names are non-null strings in the model. A container from `getEmpty` has a null fully-qualified name, and Java's `equals` and `hashCode` would throw on it.
- ClassDescriptions.JavaStringHash: a Dafny `char` is a Unicode scalar value, while Java hashes UTF-16 code units. The two agree on names made of characters of the Basic Multilingual Plane, which every Java identifier in practice is.
- `AnalyzerWithModel`, `ClassCallStackHolder`, `DrawerUtil`, `Main`, the loop desugaring in `For`/`ForEach` and the graphics classes are left out. They are orchestration, drawing or I/O around this core.
