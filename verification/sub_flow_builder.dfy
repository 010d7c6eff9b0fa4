/** SubFlowBuilder's table of the Corda library flows that come in
    initiator/responder pairs, the tests built on it, and the order in which
    a `subFlow(...)` call is classified. */
module SubFlows {
  import opened Options
  import opened Statements

  /** The subtype relation on types (CtTypeReference.isSubtypeOf), which the
      type model outside this core decides. */
  type SubtypeRelation = (TypeName, TypeName) -> bool

  ghost predicate Reflexive(isSubtypeOf: SubtypeRelation) {
    forall t :: isSubtypeOf(t, t)
  }

  const SendTransactionFlow: TypeName := "net.corda.core.flows.SendTransactionFlow"
  const ReceiveTransactionFlow: TypeName := "net.corda.core.flows.ReceiveTransactionFlow"
  const SendStateAndRefFlow: TypeName := "net.corda.core.flows.SendStateAndRefFlow"
  const ReceiveStateAndRefFlow: TypeName := "net.corda.core.flows.ReceiveStateAndRefFlow"
  const CollectSignaturesFlow: TypeName := "net.corda.core.flows.CollectSignaturesFlow"
  const CollectSignatureFlow: TypeName := "net.corda.core.flows.CollectSignatureFlow"
  const SignTransactionFlow: TypeName := "net.corda.core.flows.SignTransactionFlow"
  const FinalityFlow: TypeName := "net.corda.core.flows.FinalityFlow"
  const ReceiveFinalityFlow: TypeName := "net.corda.core.flows.ReceiveFinalityFlow"
  const SwapIdentitiesFlow: TypeName := "net.corda.confidential.SwapIdentitiesFlow"
  const IdentitySyncFlowSend: TypeName := "net.corda.confidential.IdentitySyncFlow.Send"
  const IdentitySyncFlowReceive: TypeName := "net.corda.confidential.IdentitySyncFlow.Receive"

  /** cordaSpecialFlows, as the static initialiser fills it: initiating flow
      -> the flow that answers it. */
  const CordaSpecialFlows: map<TypeName, TypeName> := map[
    SendTransactionFlow := ReceiveTransactionFlow,
    SendStateAndRefFlow := ReceiveStateAndRefFlow,
    CollectSignaturesFlow := SignTransactionFlow,
    CollectSignatureFlow := SignTransactionFlow,
    FinalityFlow := ReceiveFinalityFlow,
    SwapIdentitiesFlow := SwapIdentitiesFlow,
    IdentitySyncFlowSend := IdentitySyncFlowReceive]

  /** The seven put calls use seven different keys, so none overwrites
      another: CollectSignaturesFlow and CollectSignatureFlow both keep their
      entry. */
  lemma CordaSpecialFlowsHasSevenEntries()
    ensures |CordaSpecialFlows| == 7
  {
    SpecialFlowKeysDistinct();
    SevenDistinctKeys(SendTransactionFlow, SendStateAndRefFlow, CollectSignaturesFlow, CollectSignatureFlow,
                      FinalityFlow, SwapIdentitiesFlow, IdentitySyncFlowSend,
                      ReceiveTransactionFlow, ReceiveStateAndRefFlow, SignTransactionFlow, SignTransactionFlow,
                      ReceiveFinalityFlow, SwapIdentitiesFlow, IdentitySyncFlowReceive);
  }

  lemma SpecialFlowKeysDistinct()
    ensures SendTransactionFlow != SendStateAndRefFlow
    ensures CollectSignatureFlow != SwapIdentitiesFlow
    ensures |SendTransactionFlow| == 40 && |SendStateAndRefFlow| == 40 && |CollectSignaturesFlow| == 42
    ensures |CollectSignatureFlow| == 41 && |FinalityFlow| == 33 && |SwapIdentitiesFlow| == 41
    ensures |IdentitySyncFlowSend| == 44
  {
    assert SendTransactionFlow[25] == 'T' && SendStateAndRefFlow[25] == 'S';
    assert CollectSignatureFlow[12] == 'r' && SwapIdentitiesFlow[12] == 'n';
  }

  /** A map display with seven different keys has seven entries. */
  lemma SevenDistinctKeys<K, V>(k1: K, k2: K, k3: K, k4: K, k5: K, k6: K, k7: K,
                                v1: V, v2: V, v3: V, v4: V, v5: V, v6: V, v7: V)
    requires k1 != k2 && k1 != k3 && k1 != k4 && k1 != k5 && k1 != k6 && k1 != k7
    requires k2 != k3 && k2 != k4 && k2 != k5 && k2 != k6 && k2 != k7
    requires k3 != k4 && k3 != k5 && k3 != k6 && k3 != k7
    requires k4 != k5 && k4 != k6 && k4 != k7
    requires k5 != k6 && k5 != k7
    requires k6 != k7
    ensures |map[k1 := v1, k2 := v2, k3 := v3, k4 := v4, k5 := v5, k6 := v6, k7 := v7]| == 7
  {
    var m := map[k1 := v1, k2 := v2, k3 := v3, k4 := v4, k5 := v5, k6 := v6, k7 := v7];
    assert m.Keys == {k1, k2, k3, k4, k5, k6, k7};
  }

  /** isInitiatingSpecialCordaFlow: a subtype of some initiating flow of the table. */
  predicate IsInitiatingSpecialCordaFlow(t: TypeName, isSubtypeOf: SubtypeRelation) {
    exists k :: k in CordaSpecialFlows && isSubtypeOf(t, k)
  }

  /** isInitiatedSpecialCordaFlow: a subtype of some initiated flow of the table. */
  predicate IsInitiatedSpecialCordaFlow(t: TypeName, isSubtypeOf: SubtypeRelation) {
    exists k :: k in CordaSpecialFlows && isSubtypeOf(t, CordaSpecialFlows[k])
  }

  /** isUnknownSpecialCordaFlow: any other type of the Corda library. */
  predicate IsUnknownSpecialCordaFlow(t: TypeName) {
    "net.corda" <= t
  }

  /** areMatchingSpecialCordaFlow: some single entry of the table covers both
      flows, the first by its initiating side and the second by its
      initiated side. */
  predicate AreMatchingSpecialCordaFlow(initiating: TypeName, initiated: TypeName, isSubtypeOf: SubtypeRelation) {
    exists k :: k in CordaSpecialFlows && isSubtypeOf(initiating, k) && isSubtypeOf(initiated, CordaSpecialFlows[k])
  }

  /** What the table makes of a pair of flows, entry by entry. */
  lemma AreMatchingSpecialCordaFlowByEntry(a: TypeName, b: TypeName, isSubtypeOf: SubtypeRelation)
    ensures AreMatchingSpecialCordaFlow(a, b, isSubtypeOf) <==>
      || (isSubtypeOf(a, SendTransactionFlow) && isSubtypeOf(b, ReceiveTransactionFlow))
      || (isSubtypeOf(a, SendStateAndRefFlow) && isSubtypeOf(b, ReceiveStateAndRefFlow))
      || (isSubtypeOf(a, CollectSignaturesFlow) && isSubtypeOf(b, SignTransactionFlow))
      || (isSubtypeOf(a, CollectSignatureFlow) && isSubtypeOf(b, SignTransactionFlow))
      || (isSubtypeOf(a, FinalityFlow) && isSubtypeOf(b, ReceiveFinalityFlow))
      || (isSubtypeOf(a, SwapIdentitiesFlow) && isSubtypeOf(b, SwapIdentitiesFlow))
      || (isSubtypeOf(a, IdentitySyncFlowSend) && isSubtypeOf(b, IdentitySyncFlowReceive))
  {
  }

  /** The initiating test, entry by entry: a subtype of one of the seven keys. */
  lemma IsInitiatingByEntry(t: TypeName, isSubtypeOf: SubtypeRelation)
    ensures IsInitiatingSpecialCordaFlow(t, isSubtypeOf) <==>
      || isSubtypeOf(t, SendTransactionFlow) || isSubtypeOf(t, SendStateAndRefFlow)
      || isSubtypeOf(t, CollectSignaturesFlow) || isSubtypeOf(t, CollectSignatureFlow)
      || isSubtypeOf(t, FinalityFlow) || isSubtypeOf(t, SwapIdentitiesFlow)
      || isSubtypeOf(t, IdentitySyncFlowSend)
  {
  }

  /** The initiated test, entry by entry: a subtype of one of the values, of
      which there are six different ones since two keys share
      SignTransactionFlow. */
  lemma IsInitiatedByEntry(t: TypeName, isSubtypeOf: SubtypeRelation)
    ensures IsInitiatedSpecialCordaFlow(t, isSubtypeOf) <==>
      || isSubtypeOf(t, ReceiveTransactionFlow) || isSubtypeOf(t, ReceiveStateAndRefFlow)
      || isSubtypeOf(t, SignTransactionFlow) || isSubtypeOf(t, ReceiveFinalityFlow)
      || isSubtypeOf(t, SwapIdentitiesFlow) || isSubtypeOf(t, IdentitySyncFlowReceive)
  {
    assert CordaSpecialFlows[SendTransactionFlow] == ReceiveTransactionFlow;
    assert CordaSpecialFlows[SendStateAndRefFlow] == ReceiveStateAndRefFlow;
    assert CordaSpecialFlows[CollectSignaturesFlow] == SignTransactionFlow;
    assert CordaSpecialFlows[FinalityFlow] == ReceiveFinalityFlow;
    assert CordaSpecialFlows[SwapIdentitiesFlow] == SwapIdentitiesFlow;
    assert CordaSpecialFlows[IdentitySyncFlowSend] == IdentitySyncFlowReceive;
  }

  /** Every flow named in the table lives in the Corda library, so the
      package-prefix test covers it too; it only decides for types the table
      does not cover because it runs after the two table tests. */
  lemma TableTypesAreCordaTypes()
    ensures forall k :: k in CordaSpecialFlows ==>
      IsUnknownSpecialCordaFlow(k) && IsUnknownSpecialCordaFlow(CordaSpecialFlows[k])
  {
    CordaNamesHavePrefix();
    assert CordaSpecialFlows.Keys == {SendTransactionFlow, SendStateAndRefFlow, CollectSignaturesFlow,
      CollectSignatureFlow, FinalityFlow, SwapIdentitiesFlow, IdentitySyncFlowSend};
    assert CordaSpecialFlows.Values == {ReceiveTransactionFlow, ReceiveStateAndRefFlow, SignTransactionFlow,
      ReceiveFinalityFlow, SwapIdentitiesFlow, IdentitySyncFlowReceive};
    forall k | k in CordaSpecialFlows
      ensures IsUnknownSpecialCordaFlow(k) && IsUnknownSpecialCordaFlow(CordaSpecialFlows[k])
    {
      assert CordaSpecialFlows[k] in CordaSpecialFlows.Values;
    }
  }

  /** The twelve names of the table start with the Corda package, in two
      halves to keep each proof small. */
  lemma CordaNamesHavePrefix()
    ensures IsUnknownSpecialCordaFlow(SendTransactionFlow) && IsUnknownSpecialCordaFlow(ReceiveTransactionFlow)
    ensures IsUnknownSpecialCordaFlow(SendStateAndRefFlow) && IsUnknownSpecialCordaFlow(ReceiveStateAndRefFlow)
    ensures IsUnknownSpecialCordaFlow(CollectSignaturesFlow) && IsUnknownSpecialCordaFlow(CollectSignatureFlow)
    ensures IsUnknownSpecialCordaFlow(SignTransactionFlow) && IsUnknownSpecialCordaFlow(FinalityFlow)
    ensures IsUnknownSpecialCordaFlow(ReceiveFinalityFlow) && IsUnknownSpecialCordaFlow(SwapIdentitiesFlow)
    ensures IsUnknownSpecialCordaFlow(IdentitySyncFlowSend) && IsUnknownSpecialCordaFlow(IdentitySyncFlowReceive)
  {
    FirstNamesHavePrefix();
    LastNamesHavePrefix();
  }

  lemma FirstNamesHavePrefix()
    ensures IsUnknownSpecialCordaFlow(SendTransactionFlow) && IsUnknownSpecialCordaFlow(ReceiveTransactionFlow)
    ensures IsUnknownSpecialCordaFlow(SendStateAndRefFlow) && IsUnknownSpecialCordaFlow(ReceiveStateAndRefFlow)
    ensures IsUnknownSpecialCordaFlow(CollectSignaturesFlow) && IsUnknownSpecialCordaFlow(CollectSignatureFlow)
  {
    assert SendTransactionFlow[..9] == "net.corda" && ReceiveTransactionFlow[..9] == "net.corda";
    assert SendStateAndRefFlow[..9] == "net.corda" && ReceiveStateAndRefFlow[..9] == "net.corda";
    assert CollectSignaturesFlow[..9] == "net.corda" && CollectSignatureFlow[..9] == "net.corda";
  }

  lemma LastNamesHavePrefix()
    ensures IsUnknownSpecialCordaFlow(SignTransactionFlow) && IsUnknownSpecialCordaFlow(FinalityFlow)
    ensures IsUnknownSpecialCordaFlow(ReceiveFinalityFlow) && IsUnknownSpecialCordaFlow(SwapIdentitiesFlow)
    ensures IsUnknownSpecialCordaFlow(IdentitySyncFlowSend) && IsUnknownSpecialCordaFlow(IdentitySyncFlowReceive)
  {
    assert SignTransactionFlow[..9] == "net.corda" && FinalityFlow[..9] == "net.corda";
    assert ReceiveFinalityFlow[..9] == "net.corda" && SwapIdentitiesFlow[..9] == "net.corda";
    assert IdentitySyncFlowSend[..9] == "net.corda" && IdentitySyncFlowReceive[..9] == "net.corda";
  }

  /** A matching pair is made of an initiating special flow and an initiated one. */
  lemma MatchingImpliesRoles(a: TypeName, b: TypeName, isSubtypeOf: SubtypeRelation)
    requires AreMatchingSpecialCordaFlow(a, b, isSubtypeOf)
    ensures IsInitiatingSpecialCordaFlow(a, isSubtypeOf)
    ensures IsInitiatedSpecialCordaFlow(b, isSubtypeOf)
  {
  }

  /** Every pair of the table matches, whatever the subtype relation beyond
      reflexivity. */
  lemma TablePairsMatch(isSubtypeOf: SubtypeRelation)
    requires Reflexive(isSubtypeOf)
    ensures forall k :: k in CordaSpecialFlows ==> AreMatchingSpecialCordaFlow(k, CordaSpecialFlows[k], isSubtypeOf)
  {
    forall k | k in CordaSpecialFlows ensures AreMatchingSpecialCordaFlow(k, CordaSpecialFlows[k], isSubtypeOf) {
      assert isSubtypeOf(k, k) && isSubtypeOf(CordaSpecialFlows[k], CordaSpecialFlows[k]);
    }
  }

  // ---- classification in fromCtStatement -------------------------------------------

  datatype SubFlowKind = CordaSubFlowKind | InitiatingSubFlowKind | InlinableSubFlowKind

  /** The statement fromCtStatement builds for a subflow call, and the value
      it gives to its nullable isInitiatingFlow. */
  datatype ClassifiedSubFlow = ClassifiedSubFlow(kind: SubFlowKind, isInitiatingFlow: Option<bool>)

  /** The classification of a subflow of type `t`. `analysis` is what
      analysing a non-Corda subflow's class gives: None when it throws an
      AnalysisErrorException, otherwise whether it has a counterparty. The
      tests run initiating, then initiated, then the Corda package prefix. */
  function ClassifySubFlow(t: TypeName, isSubtypeOf: SubtypeRelation, analysis: Option<bool>): (r: ClassifiedSubFlow)
    ensures IsInitiatingSpecialCordaFlow(t, isSubtypeOf) ==> r == ClassifiedSubFlow(CordaSubFlowKind, Some(true))
    ensures r.isInitiatingFlow == Some(false) && r.kind == CordaSubFlowKind <==>
      !IsInitiatingSpecialCordaFlow(t, isSubtypeOf) && IsInitiatedSpecialCordaFlow(t, isSubtypeOf)
    ensures r.isInitiatingFlow.None? <==>
      && !IsInitiatingSpecialCordaFlow(t, isSubtypeOf) && !IsInitiatedSpecialCordaFlow(t, isSubtypeOf)
      && (IsUnknownSpecialCordaFlow(t) || analysis.None?)
    ensures r.kind == CordaSubFlowKind <==>
      IsInitiatingSpecialCordaFlow(t, isSubtypeOf) || IsInitiatedSpecialCordaFlow(t, isSubtypeOf)
      || IsUnknownSpecialCordaFlow(t) || analysis.None?
    ensures r.kind != CordaSubFlowKind ==>
      r.isInitiatingFlow == analysis && (r.kind == InitiatingSubFlowKind <==> analysis == Some(true))
  {
    if IsInitiatingSpecialCordaFlow(t, isSubtypeOf) then ClassifiedSubFlow(CordaSubFlowKind, Some(true))
    else if IsInitiatedSpecialCordaFlow(t, isSubtypeOf) then ClassifiedSubFlow(CordaSubFlowKind, Some(false))
    else if IsUnknownSpecialCordaFlow(t) then ClassifiedSubFlow(CordaSubFlowKind, None)
    else match analysis
      case None => ClassifiedSubFlow(CordaSubFlowKind, None)
      case Some(hasCounterparty) =>
        if hasCounterparty then ClassifiedSubFlow(InitiatingSubFlowKind, Some(true))
        else ClassifiedSubFlow(InlinableSubFlowKind, Some(false))
  }

  /** SwapIdentitiesFlow answers itself, so it is both an initiating and an
      initiated special flow; the initiating test runs first and wins. */
  lemma SwapIdentitiesFlowIsInitiating(isSubtypeOf: SubtypeRelation, analysis: Option<bool>)
    requires Reflexive(isSubtypeOf)
    ensures IsInitiatedSpecialCordaFlow(SwapIdentitiesFlow, isSubtypeOf)
    ensures ClassifySubFlow(SwapIdentitiesFlow, isSubtypeOf, analysis) == ClassifiedSubFlow(CordaSubFlowKind, Some(true))
  {
    assert isSubtypeOf(SwapIdentitiesFlow, SwapIdentitiesFlow);
    assert CordaSpecialFlows[SwapIdentitiesFlow] == SwapIdentitiesFlow;
  }
}
