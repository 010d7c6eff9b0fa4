/** The statement objects the combination engine and the matcher work on.
    Only the capabilities those two components ask of a statement are kept:
    its identity, its three flow-break flags and, for the statements that
    implement StatementWithCompanionInterface, what kind of companion
    statement it is. */
module Statements {
  import opened Options

  /** A Java type as the analyser prints it: its fully-qualified name. */
  type TypeName = string

  /** The communication statements that can be matched against a statement
      of the other party. */
  datatype Companion =
    | Send(sentType: TypeName)
    | Receive(receivedType: TypeName)
    | SendAndReceive(sentType: TypeName, receivedType: TypeName)
    | CordaSubFlow(subFlowType: TypeName, isInitiatingFlow: Option<bool>)

  /** One statement object. `id` stands for the object's identity: combinations
      share statement objects, so two occurrences with the same `id` are the
      same object, and per-object mutable state (the SendAndReceive phase flag)
      is keyed on it. */
  datatype Stmt = Stmt(
    id: nat,
    isBreakLoopFlowBreak: bool,
    isContinueLoopFlowBreak: bool,
    isMethodFlowBreak: bool,
    companion: Option<Companion>)

  /** A statement seen only through its companion interface, as the matcher's
      queues hold it. */
  datatype CompanionStmt = CompanionStmt(id: nat, kind: Companion)

  /** True when the statement ends the path it is on: a `break`, a `continue`,
      a `return` or a `throw`. */
  predicate IsFlowBreak(s: Stmt) {
    s.isBreakLoopFlowBreak || s.isContinueLoopFlowBreak || s.isMethodFlowBreak
  }

  /** The communication statements of a path, in path order: the queue the
      matcher consumes for one combination. */
  function OnlyCompanions(stmts: seq<Stmt>): (r: seq<CompanionStmt>)
    ensures |r| <= |stmts|
    ensures forall k :: 0 <= k < |r| ==>
      exists i :: 0 <= i < |stmts| && stmts[i].id == r[k].id && stmts[i].companion == Some(r[k].kind)
    ensures (forall i :: 0 <= i < |stmts| ==> stmts[i].companion.Some?) ==> |r| == |stmts|
  {
    if |stmts| == 0 then []
    else
      var rest := OnlyCompanions(stmts[1..]);
      var head := stmts[0];
      if head.companion.Some? then [CompanionStmt(head.id, head.companion.value)] + rest else rest
  }
  /** A single statement contributes itself when it is a communication
      statement and nothing otherwise. */
  lemma OnlyCompanionsSingle(s: Stmt)
    ensures s.companion.Some? ==> OnlyCompanions([s]) == [CompanionStmt(s.id, s.companion.value)]
    ensures s.companion.None? ==> OnlyCompanions([s]) == []
  {
    assert [s][1..] == [];
  }

  /** The projection distributes over concatenation: with the one-statement
      case it keeps every communication statement, in path order. */
  lemma {:induction false} OnlyCompanionsConcat(a: seq<Stmt>, b: seq<Stmt>)
    ensures OnlyCompanions(a + b) == OnlyCompanions(a) + OnlyCompanions(b)
    decreases |a|
  {
    if |a| == 0 {
      assert a + b == b;
    } else {
      assert (a + b)[0] == a[0];
      assert (a + b)[1..] == a[1..] + b;
      OnlyCompanionsConcat(a[1..], b);
    }
  }

  /** A path without communication statements gives an empty queue. */
  lemma {:induction false} OnlyCompanionsOfPlain(stmts: seq<Stmt>)
    requires forall i :: 0 <= i < |stmts| ==> stmts[i].companion.None?
    ensures OnlyCompanions(stmts) == []
    decreases |stmts|
  {
    if |stmts| > 0 {
      OnlyCompanionsOfPlain(stmts[1..]);
    }
  }
}
