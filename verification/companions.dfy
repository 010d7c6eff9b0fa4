/** acceptCompanion for the communication statements: Receive, the two-phase
    SendAndReceive and CordaSubFlow. The only mutable state these rules touch
    is SendAndReceive's isSentConsumed flag, kept here as an explicit value
    that every rule takes and returns. */
module Companions {
  import opened Options
  import opened Statements
  import opened SubFlows

  /** The ids of the SendAndReceive objects whose isSentConsumed flag is set.
      A freshly built SendAndReceive starts with the flag cleared. */
  type SentConsumed = set<nat>

  /** The answer of an acceptance test, with the flags as the test left them. */
  datatype Verdict = Verdict(accepted: bool, flags: SentConsumed)

  /** Send's own test (Send.isAccepted: the sent type, the companion and the
      flags in; verdict and flags out). Send.java is not part of this model,
      so the rule is given by the caller. */
  type SendRule = (TypeName, CompanionStmt, SentConsumed) -> Verdict

  /** What the rules need from outside this core. */
  datatype Collaborators = Collaborators(sendIsAccepted: SendRule, isSubtypeOf: SubtypeRelation)

  // ---- SendAndReceive's flag ---------------------------------------------------------

  predicate IsSentConsumed(flags: SentConsumed, id: nat) {
    id in flags
  }

  /** setSentConsumed: sets one object's flag and no other. */
  function SetSentConsumed(flags: SentConsumed, id: nat, sentConsumed: bool): (r: SentConsumed)
    ensures IsSentConsumed(r, id) == sentConsumed
    ensures forall other :: other != id ==> (IsSentConsumed(r, other) <==> IsSentConsumed(flags, other))
  {
    if sentConsumed then flags + {id} else flags - {id}
  }

  /** isConsumedForCompanionAnalysis: a SendAndReceive leaves its queue only
      once its receive half has been used, that is when its flag is clear;
      every other statement leaves after one match (the interface default). */
  predicate IsConsumedForCompanionAnalysis(s: CompanionStmt, flags: SentConsumed) {
    if s.kind.SendAndReceive? then !IsSentConsumed(flags, s.id) else true
  }

  /** hasSendOrReceiveAtThisLevel of Receive and SendAndReceive. */
  function HasSendOrReceiveAtThisLevel(c: Companion): (r: bool)
    requires c.Receive? || c.SendAndReceive?
    ensures r
  {
    true
  }

  /** isCordaSubFlow of CordaSubFlow. */
  function IsCordaSubFlow(c: Companion): (r: bool)
    requires c.CordaSubFlow?
    ensures r
  {
    true
  }

  // ---- Receive ---------------------------------------------------------------------

  /** Receive.isAccepted(companion, accepted, receivedType). A Send matches
      when it sends exactly the received type. A SendAndReceive matches when
      it sends that type and its send half is still unused, and the check
      itself uses up that send half, match or not. Any other companion leaves
      `accepted` as the caller passed it. */
  function ReceiveIsAccepted(companion: CompanionStmt, accepted: bool, receivedType: TypeName, flags: SentConsumed): (v: Verdict)
    ensures companion.kind.Send? ==> v == Verdict(receivedType == companion.kind.sentType, flags)
    ensures companion.kind.SendAndReceive? ==>
      && (v.accepted <==> receivedType == companion.kind.sentType && !IsSentConsumed(flags, companion.id))
      && v.flags == SetSentConsumed(flags, companion.id, true)
    ensures !companion.kind.Send? && !companion.kind.SendAndReceive? ==> v == Verdict(accepted, flags)
  {
    match companion.kind
    case Send(sentType) => Verdict(receivedType == sentType, flags)
    case SendAndReceive(sentType, _) =>
      Verdict(receivedType == sentType && !IsSentConsumed(flags, companion.id),
              SetSentConsumed(flags, companion.id, true))
    case _ => Verdict(accepted, flags)
  }

  /** Receive.acceptCompanion: the static test with `accepted` starting false. */
  function ReceiveAcceptCompanion(receivedType: TypeName, companion: CompanionStmt, flags: SentConsumed): (v: Verdict)
    ensures v.accepted ==> companion.kind.Send? || companion.kind.SendAndReceive?
    ensures v.accepted ==> companion.kind.sentType == receivedType
    ensures v.flags == flags || v.flags == flags + {companion.id}
  {
    ReceiveIsAccepted(companion, false, receivedType, flags)
  }

  /** The send half of a SendAndReceive can be received only once: after any
      check against it, a second receive of the same object is refused. */
  lemma ReceiveUsesUpSendHalf(receivedType: TypeName, companion: CompanionStmt, flags: SentConsumed)
    requires companion.kind.SendAndReceive?
    ensures !ReceiveAcceptCompanion(receivedType, companion, ReceiveAcceptCompanion(receivedType, companion, flags).flags).accepted
  {
  }

  // ---- SendAndReceive ----------------------------------------------------------------

  /** SendAndReceive.acceptCompanion: while its flag is clear it acts as a Send
      of its sent type, otherwise as a Receive of its received type; either
      way it then flips its own flag, after the companion's test ran. */
  function SendAndReceiveAcceptCompanion(self: CompanionStmt, companion: CompanionStmt, flags: SentConsumed,
                                         env: Collaborators): (v: Verdict)
    requires self.kind.SendAndReceive?
    ensures IsSentConsumed(v.flags, self.id) <==> !IsSentConsumed(flags, self.id)
    ensures IsSentConsumed(flags, self.id) ==>
      v.accepted == ReceiveIsAccepted(companion, false, self.kind.receivedType, flags).accepted
    ensures !IsSentConsumed(flags, self.id) ==>
      v.accepted == env.sendIsAccepted(self.kind.sentType, companion, flags).accepted
    ensures !IsSentConsumed(flags, self.id) ==>
      v.flags == SetSentConsumed(env.sendIsAccepted(self.kind.sentType, companion, flags).flags, self.id, true)
    ensures IsSentConsumed(flags, self.id) && companion.kind.SendAndReceive? ==>
      v.flags == SetSentConsumed(SetSentConsumed(flags, companion.id, true), self.id, false)
    ensures IsSentConsumed(flags, self.id) && !companion.kind.SendAndReceive? ==>
      v.flags == SetSentConsumed(flags, self.id, false)
  {
    if !IsSentConsumed(flags, self.id) then
      var sent := env.sendIsAccepted(self.kind.sentType, companion, flags);
      Verdict(sent.accepted, SetSentConsumed(sent.flags, self.id, true))
    else
      var received := ReceiveIsAccepted(companion, false, self.kind.receivedType, flags);
      Verdict(received.accepted, SetSentConsumed(received.flags, self.id, false))
  }

  /** Two consecutive checks put the flag back where it was, and the object
      leaves its queue after exactly one of them. */
  lemma SendAndReceiveTwoPhases(self: CompanionStmt, c1: CompanionStmt, c2: CompanionStmt,
                                flags: SentConsumed, env: Collaborators)
    requires self.kind.SendAndReceive?
    ensures var f1 := SendAndReceiveAcceptCompanion(self, c1, flags, env).flags;
            var f2 := SendAndReceiveAcceptCompanion(self, c2, f1, env).flags;
            && (IsSentConsumed(f2, self.id) <==> IsSentConsumed(flags, self.id))
            && IsConsumedForCompanionAnalysis(self, f1) != IsConsumedForCompanionAnalysis(self, f2)
  {
  }

  /** A fresh SendAndReceive is first matched as a Send, and stays at the head
      of its queue for its receive half. */
  lemma FreshSendAndReceiveSendsFirst(self: CompanionStmt, companion: CompanionStmt, flags: SentConsumed, env: Collaborators)
    requires self.kind.SendAndReceive? && !IsSentConsumed(flags, self.id)
    ensures var v := SendAndReceiveAcceptCompanion(self, companion, flags, env);
            && v.accepted == env.sendIsAccepted(self.kind.sentType, companion, flags).accepted
            && !IsConsumedForCompanionAnalysis(self, v.flags)
  {
  }

  // ---- CordaSubFlow --------------------------------------------------------------------

  /** CordaSubFlow.acceptCompanion. Two subflows with the same known role are
      refused. Otherwise the initiating side is the one whose flag is true and
      the table decides. A null flag makes the Java code throw a
      NullPointerException that is caught, so the role test is skipped and the
      orientation falls back to this flow for that side. */
  function CordaSubFlowAcceptCompanion(self: Companion, companion: Companion, isSubtypeOf: SubtypeRelation): (r: bool)
    requires self.CordaSubFlow?
    ensures !companion.CordaSubFlow? ==> !r
    ensures companion.CordaSubFlow? && self.isInitiatingFlow.Some? && self.isInitiatingFlow == companion.isInitiatingFlow ==> !r
    ensures companion.CordaSubFlow? && self.isInitiatingFlow == Some(true) && companion.isInitiatingFlow == Some(false) ==>
      (r <==> AreMatchingSpecialCordaFlow(self.subFlowType, companion.subFlowType, isSubtypeOf))
    ensures companion.CordaSubFlow? && self.isInitiatingFlow == Some(false) && companion.isInitiatingFlow == Some(true) ==>
      (r <==> AreMatchingSpecialCordaFlow(companion.subFlowType, self.subFlowType, isSubtypeOf))
    ensures companion.CordaSubFlow? && self.isInitiatingFlow == Some(true) && companion.isInitiatingFlow.None? ==>
      (r <==> AreMatchingSpecialCordaFlow(self.subFlowType, self.subFlowType, isSubtypeOf))
    ensures companion.CordaSubFlow? && self.isInitiatingFlow == Some(false) && companion.isInitiatingFlow.None? ==>
      (r <==> AreMatchingSpecialCordaFlow(companion.subFlowType, self.subFlowType, isSubtypeOf))
    ensures r ==> IsInitiatingSpecialCordaFlow(self.subFlowType, isSubtypeOf) || IsInitiatingSpecialCordaFlow(companion.subFlowType, isSubtypeOf)
  {
    if companion.CordaSubFlow? then
      var isEqualInitFlow := self.isInitiatingFlow.Some? && companion.isInitiatingFlow == self.isInitiatingFlow;
      if isEqualInitFlow then false
      else
        var initiatingFlow :=
          match self.isInitiatingFlow
          case Some(initiating) => if initiating then self else companion
          case None => self;
        var initiatedFlow :=
          match companion.isInitiatingFlow
          case Some(initiating) => if initiating then self else companion
          case None => self;
        AreMatchingSpecialCordaFlow(initiatingFlow.subFlowType, initiatedFlow.subFlowType, isSubtypeOf)
    else false
  }

  /** With both roles known, the verdict does not depend on which of the two
      flows runs the test. */
  lemma CordaSubFlowAcceptanceSymmetric(a: Companion, b: Companion, isSubtypeOf: SubtypeRelation)
    requires a.CordaSubFlow? && b.CordaSubFlow?
    requires a.isInitiatingFlow.Some? && b.isInitiatingFlow.Some?
    ensures CordaSubFlowAcceptCompanion(a, b, isSubtypeOf) == CordaSubFlowAcceptCompanion(b, a, isSubtypeOf)
  {
  }

  /** A null role on the testing side never triggers the same-role refusal:
      both sides fall back to this flow, unless the companion is known to be
      initiated, in which case it is the initiated side. */
  lemma CordaSubFlowNullRole(self: Companion, companion: Companion, isSubtypeOf: SubtypeRelation)
    requires self.CordaSubFlow? && companion.CordaSubFlow? && self.isInitiatingFlow.None?
    ensures CordaSubFlowAcceptCompanion(self, companion, isSubtypeOf) <==>
      AreMatchingSpecialCordaFlow(self.subFlowType,
                                  if companion.isInitiatingFlow == Some(false) then companion.subFlowType else self.subFlowType,
                                  isSubtypeOf)
  {
  }

  // ---- dispatch -------------------------------------------------------------------------

  /** acceptCompanion of the statement at the head of the initiating queue,
      checked against the head of the initiated queue. */
  function AcceptCompanion(left: CompanionStmt, right: CompanionStmt, flags: SentConsumed, env: Collaborators): (v: Verdict)
    ensures left.kind.CordaSubFlow? ==> v.flags == flags
    ensures left.kind.Receive? ==> v.flags == flags || v.flags == flags + {right.id}
    ensures left.kind.SendAndReceive? ==> (IsSentConsumed(v.flags, left.id) <==> !IsSentConsumed(flags, left.id))
  {
    match left.kind
    case Send(sentType) => env.sendIsAccepted(sentType, right, flags)
    case Receive(receivedType) => ReceiveAcceptCompanion(receivedType, right, flags)
    case SendAndReceive(_, _) => SendAndReceiveAcceptCompanion(left, right, flags, env)
    case CordaSubFlow(_, _) => Verdict(CordaSubFlowAcceptCompanion(left.kind, right.kind, env.isSubtypeOf), flags)
  }

  /** Which heads leave their queues after a check (isConsumedForCompanionAnalysis
      read with the flags the check left): every head but a SendAndReceive,
      which on the initiating side leaves exactly after its receive half, and
      on the initiated side stays when a Receive or the receive half of
      another SendAndReceive has just used its send half; a sub-flow check
      leaves it where it was. */
  lemma ConsumedAfterAcceptCompanion(left: CompanionStmt, right: CompanionStmt, flags: SentConsumed, env: Collaborators)
    ensures var v := AcceptCompanion(left, right, flags, env);
            IsConsumedForCompanionAnalysis(left, v.flags) <==> (left.kind.SendAndReceive? ==> IsSentConsumed(flags, left.id))
    ensures var v := AcceptCompanion(left, right, flags, env);
            (right.kind.SendAndReceive? &&
             (left.kind.Receive? || (left.kind.SendAndReceive? && IsSentConsumed(flags, left.id) && left.id != right.id)))
            ==> !IsConsumedForCompanionAnalysis(right, v.flags)
    ensures var v := AcceptCompanion(left, right, flags, env);
            left.kind.CordaSubFlow? ==> (IsConsumedForCompanionAnalysis(right, v.flags) <==> IsConsumedForCompanionAnalysis(right, flags))
  {
  }
}
