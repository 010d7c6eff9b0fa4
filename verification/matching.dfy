/** The protocol matcher: twoCombinationsMatch walks the communication
    statements of one initiating path and one initiated path as two FIFO
    queues, and checkIfMatchesAndDraw tries every pair of paths. */
module Matching {
  import opened Options
  import opened Statements
  import opened LockingBranches
  import opened Companions

  type MatchedPair = (CompanionStmt, CompanionStmt)

  /** The result of twoCombinationsMatch (None standing for Java's null), and
      the SendAndReceive flags as the walk left them. */
  datatype MatchOutcome = MatchOutcome(matches: Option<seq<MatchedPair>>, flags: SentConsumed)

  /** Each initiating statement takes one round, except a SendAndReceive
      whose flag is clear, which takes two (send half, then receive half). */
  function Rank(left: seq<CompanionStmt>, flags: SentConsumed): nat {
    if |left| > 0 && left[0].kind.SendAndReceive? && IsSentConsumed(flags, left[0].id) then 2 * |left| - 1
    else 2 * |left|
  }

  /** The loop of twoCombinationsMatch. Both queues empty: a match, with the
      pairs gathered so far. Exactly one empty: no match. Otherwise the left
      head tests the right head; a refusal ends the walk with no match, an
      acceptance records the pair and pops each head that reports itself
      consumed. */
  function TwoQueuesMatch(left: seq<CompanionStmt>, right: seq<CompanionStmt>, flags: SentConsumed,
                          env: Collaborators): (r: MatchOutcome)
    ensures |left| == 0 && |right| == 0 ==> r == MatchOutcome(Some([]), flags)
    ensures (|left| == 0) != (|right| == 0) ==> r == MatchOutcome(None, flags)
    ensures r.matches.Some? ==> |r.matches.value| >= |left| && |r.matches.value| >= |right|
    ensures r.matches.Some? && |left| > 0 ==>
      r.matches.value[0] == (left[0], right[0]) && AcceptCompanion(left[0], right[0], flags, env).accepted
    decreases Rank(left, flags)
  {
    if |left| == 0 && |right| == 0 then MatchOutcome(Some([]), flags)
    else if |left| == 0 || |right| == 0 then MatchOutcome(None, flags)
    else
      var v := AcceptCompanion(left[0], right[0], flags, env);
      if !v.accepted then MatchOutcome(None, v.flags)
      else
        var left' := if IsConsumedForCompanionAnalysis(left[0], v.flags) then left[1..] else left;
        var right' := if IsConsumedForCompanionAnalysis(right[0], v.flags) then right[1..] else right;
        assert Rank(left', v.flags) < Rank(left, flags);
        var rest := TwoQueuesMatch(left', right', v.flags, env);
        match rest.matches
        case None => MatchOutcome(None, rest.flags)
        case Some(pairs) => MatchOutcome(Some([(left[0], right[0])] + pairs), rest.flags)
  }

  /** The queue a head leaves behind after a round: popped when the head
      reports itself consumed under the flags the round left. */
  function AfterRound(q: seq<CompanionStmt>, flags: SentConsumed): (r: seq<CompanionStmt>)
    requires |q| > 0
    ensures r == q || r == q[1..]
    ensures !q[0].kind.SendAndReceive? ==> r == q[1..]
  {
    if IsConsumedForCompanionAnalysis(q[0], flags) then q[1..] else q
  }

  /** One round of the loop, for two non-empty queues: a refusal ends the
      walk with no match and the flags the test left; an acceptance records
      the pair in front of whatever the walk over the remaining queues gives,
      each head popped exactly when it reports itself consumed. */
  lemma TwoQueuesMatchRound(left: seq<CompanionStmt>, right: seq<CompanionStmt>, flags: SentConsumed, env: Collaborators)
    requires |left| > 0 && |right| > 0
    ensures var v := AcceptCompanion(left[0], right[0], flags, env);
            !v.accepted ==> TwoQueuesMatch(left, right, flags, env) == MatchOutcome(None, v.flags)
    ensures var v := AcceptCompanion(left[0], right[0], flags, env);
            var r := TwoQueuesMatch(left, right, flags, env);
            var rest := TwoQueuesMatch(AfterRound(left, v.flags), AfterRound(right, v.flags), v.flags, env);
            v.accepted ==>
              && r.flags == rest.flags
              && (r.matches.Some? <==> rest.matches.Some?)
              && (r.matches.Some? ==> r.matches.value == [(left[0], right[0])] + rest.matches.value)
  {
  }

  /** twoCombinationsMatch on two paths: their communication statements, in order. */
  function TwoCombinationsMatch(combLeft: LockingBranch, combRight: LockingBranch, flags: SentConsumed,
                                env: Collaborators): MatchOutcome
  {
    TwoQueuesMatch(OnlyCompanions(combLeft.statements), OnlyCompanions(combRight.statements), flags, env)
  }

  predicate Silent(b: LockingBranch) {
    forall i :: 0 <= i < |b.statements| ==> b.statements[i].companion.None?
  }

  /** A match list has at least one pair per communication statement of
      either path. */
  lemma TwoCombinationsMatchLength(combLeft: LockingBranch, combRight: LockingBranch, flags: SentConsumed,
                                   env: Collaborators)
    ensures var r := TwoCombinationsMatch(combLeft, combRight, flags, env);
            r.matches.Some? ==>
              && |r.matches.value| >= |OnlyCompanions(combLeft.statements)|
              && |r.matches.value| >= |OnlyCompanions(combRight.statements)|
  {
  }

  /** Two paths without communication statements match with nothing to pair
      (still a valid protocol); a silent path never matches one that
      communicates. */
  lemma TwoCombinationsMatchSilent(combLeft: LockingBranch, combRight: LockingBranch, flags: SentConsumed,
                                   env: Collaborators)
    ensures Silent(combLeft) && Silent(combRight) ==>
      TwoCombinationsMatch(combLeft, combRight, flags, env) == MatchOutcome(Some([]), flags)
    ensures Silent(combLeft) && |OnlyCompanions(combRight.statements)| > 0 ==>
      TwoCombinationsMatch(combLeft, combRight, flags, env) == MatchOutcome(None, flags)
    ensures Silent(combRight) && |OnlyCompanions(combLeft.statements)| > 0 ==>
      TwoCombinationsMatch(combLeft, combRight, flags, env) == MatchOutcome(None, flags)
  {
    if Silent(combLeft) {
      OnlyCompanionsOfPlain(combLeft.statements);
    }
    if Silent(combRight) {
      OnlyCompanionsOfPlain(combRight.statements);
    }
  }

  /** Send's rule leaves the flags alone for every companion that is not a
      SendAndReceive. */
  ghost predicate SendKeepsFlags(env: Collaborators) {
    forall t: TypeName, c: CompanionStmt, f: SentConsumed :: !c.kind.SendAndReceive? ==> env.sendIsAccepted(t, c, f).flags == f
  }

  /** Send's rule as the mirror of Receive's: towards any companion other
      than a SendAndReceive, a send of T is accepted exactly by a receive of
      T, and the flags are left alone. */
  ghost predicate ExactSendRule(env: Collaborators) {
    forall t: TypeName, c: CompanionStmt, f: SentConsumed :: !c.kind.SendAndReceive? ==>
      env.sendIsAccepted(t, c, f) == Verdict(c.kind.Receive? && c.kind.receivedType == t, f)
  }

  /** Queues without two-phase statements on either side. On such queues no
      Receive or CordaSubFlow test changes a flag, and neither does a Send
      test whose rule keeps the flags. */
  predicate LockStep(left: seq<CompanionStmt>, right: seq<CompanionStmt>) {
    && (forall i :: 0 <= i < |left| ==> !left[i].kind.SendAndReceive?)
    && (forall i :: 0 <= i < |right| ==> !right[i].kind.SendAndReceive?)
  }

  predicate NoSend(left: seq<CompanionStmt>) {
    forall i :: 0 <= i < |left| ==> !left[i].kind.Send?
  }

  function Zip(left: seq<CompanionStmt>, right: seq<CompanionStmt>): (r: seq<MatchedPair>)
    requires |left| == |right|
    ensures |r| == |left|
    ensures forall i :: 0 <= i < |r| ==> r[i] == (left[i], right[i])
  {
    seq(|left|, i requires 0 <= i < |left| => (left[i], right[i]))
  }

  /** Reference for such queues: they match exactly when they have the same
      length and their statements accept each other position by position,
      and the matched pairs are the two queues zipped. A Send on the
      initiating side needs Send's rule to keep the flags. */
  lemma {:induction false} LockStepMatch(left: seq<CompanionStmt>, right: seq<CompanionStmt>, flags: SentConsumed,
                                         env: Collaborators)
    requires LockStep(left, right)
    requires NoSend(left) || SendKeepsFlags(env)
    ensures var r := TwoQueuesMatch(left, right, flags, env);
            && r.flags == flags
            && (r.matches.Some? <==>
                  |left| == |right| && forall i :: 0 <= i < |left| ==> AcceptCompanion(left[i], right[i], flags, env).accepted)
            && (r.matches.Some? ==> r.matches.value == Zip(left, right))
    decreases |left|
  {
    if |left| > 0 && |right| > 0 {
      var v := AcceptCompanion(left[0], right[0], flags, env);
      assert v.flags == flags;
      if v.accepted {
        assert LockStep(left[1..], right[1..]);
        assert NoSend(left) ==> NoSend(left[1..]);
        LockStepMatch(left[1..], right[1..], flags, env);
        var r := TwoQueuesMatch(left, right, flags, env);
        if |left| == |right| && forall i :: 0 <= i < |left| ==> AcceptCompanion(left[i], right[i], flags, env).accepted {
          assert forall i :: 0 <= i < |left[1..]| ==> AcceptCompanion(left[1..][i], right[1..][i], flags, env).accepted by {
            forall i | 0 <= i < |left[1..]| ensures AcceptCompanion(left[1..][i], right[1..][i], flags, env).accepted {
              assert left[1..][i] == left[i + 1] && right[1..][i] == right[i + 1];
            }
          }
          assert r.matches.value == [(left[0], right[0])] + Zip(left[1..], right[1..]);
        }
      }
    }
  }

  /** One receive against one send of the same type matches with exactly one
      pair; any other type leaves no match. */
  lemma ReceiveAgainstSend(r: nat, sId: nat, t: TypeName, u: TypeName, flags: SentConsumed, env: Collaborators)
    ensures TwoQueuesMatch([CompanionStmt(r, Receive(t))], [CompanionStmt(sId, Send(u))], flags, env).matches ==
      (if t == u then Some([(CompanionStmt(r, Receive(t)), CompanionStmt(sId, Send(u)))]) else None)
  {
    var left := [CompanionStmt(r, Receive(t))];
    var right := [CompanionStmt(sId, Send(u))];
    assert left[1..] == [] && right[1..] == [];
    if t == u {
      var rest := TwoQueuesMatch([], [], flags, env);
      assert rest.matches == Some([]);
      assert [(left[0], right[0])] + [] == [(left[0], right[0])];
    }
  }

  /** A fresh SendAndReceive(sent t, received u) answers a responder that
      receives t and then sends u, in two rounds: first as a send, then as a
      receive. Send's own rule is only asked to accept a Receive of the same
      type without touching the flags. */
  lemma SendAndReceiveTogglesAgainstReceiveThenSend(sr: nat, rc: nat, sd: nat, t: TypeName, u: TypeName,
                                                    flags: SentConsumed, env: Collaborators)
    requires sr !in flags
    requires env.sendIsAccepted(t, CompanionStmt(rc, Receive(t)), flags) == Verdict(true, flags)
    ensures var left := [CompanionStmt(sr, SendAndReceive(t, u))];
            var right := [CompanionStmt(rc, Receive(t)), CompanionStmt(sd, Send(u))];
            var r := TwoQueuesMatch(left, right, flags, env);
            && r.matches == Some([(left[0], right[0]), (left[0], right[1])])
            && r.flags == flags
  {
    var left := [CompanionStmt(sr, SendAndReceive(t, u))];
    var right := [CompanionStmt(rc, Receive(t)), CompanionStmt(sd, Send(u))];
    var v1 := AcceptCompanion(left[0], right[0], flags, env);
    assert v1 == Verdict(true, flags + {sr});
    assert right[1..] == [CompanionStmt(sd, Send(u))];
    var v2 := AcceptCompanion(left[0], right[1], flags + {sr}, env);
    assert v2 == Verdict(true, flags);
    assert left[1..] == [] && right[1..][1..] == [];
    var r3 := TwoQueuesMatch([], [], flags, env);
    assert r3 == MatchOutcome(Some([]), flags);
    var r2 := TwoQueuesMatch(left, right[1..], flags + {sr}, env);
    assert r2 == MatchOutcome(Some([(left[0], right[1])] + []), flags);
    assert !IsConsumedForCompanionAnalysis(left[0], flags + {sr});
    assert IsConsumedForCompanionAnalysis(right[0], flags + {sr});
    var r1 := TwoQueuesMatch(left, right, flags, env);
    assert |left| != 0 && |right| != 0;
    assert [(left[0], right[1])] + [] == [(left[0], right[1])];
    assert r1 == MatchOutcome(Some([(left[0], right[0])] + [(left[0], right[1])]), flags);
    assert [(left[0], right[0])] + [(left[0], right[1])] == [(left[0], right[0]), (left[0], right[1])];
  }

  /** One send against one receive, under the mirrored Send rule, matches
      with exactly one pair iff the types agree. */
  lemma SendAgainstReceive(sId: nat, r: nat, t: TypeName, u: TypeName, flags: SentConsumed, env: Collaborators)
    requires ExactSendRule(env)
    ensures TwoQueuesMatch([CompanionStmt(sId, Send(t))], [CompanionStmt(r, Receive(u))], flags, env) ==
      MatchOutcome(if t == u then Some([(CompanionStmt(sId, Send(t)), CompanionStmt(r, Receive(u)))]) else None, flags)
  {
    var left := [CompanionStmt(sId, Send(t))];
    var right := [CompanionStmt(r, Receive(u))];
    assert env.sendIsAccepted(t, right[0], flags) == Verdict(u == t, flags);
    assert left[1..] == [] && right[1..] == [];
    if t == u {
      var rest := TwoQueuesMatch([], [], flags, env);
      assert rest.matches == Some([]);
      assert [(left[0], right[0])] + [] == [(left[0], right[0])];
    }
  }

  /** The same SendAndReceive against a responder that sends first fails at
      the first round: under the mirrored Send rule a send is never accepted
      by another send. */
  lemma SendAndReceiveFailsAgainstSendFirst(sr: nat, rc: nat, sd: nat, t: TypeName, u: TypeName,
                                            flags: SentConsumed, env: Collaborators)
    requires sr !in flags
    requires ExactSendRule(env)
    ensures TwoQueuesMatch([CompanionStmt(sr, SendAndReceive(t, u))],
                           [CompanionStmt(sd, Send(u)), CompanionStmt(rc, Receive(t))], flags, env).matches.None?
  {
    assert !env.sendIsAccepted(t, CompanionStmt(sd, Send(u)), flags).accepted;
  }

  // ---- checkIfMatchesAndDraw ----------------------------------------------------------

  /** The pairs of paths in the order of the two nested loops. */
  function AllPairs(lefts: seq<LockingBranch>, rights: seq<LockingBranch>): seq<(LockingBranch, LockingBranch)>
    decreases |lefts|
  {
    if |lefts| == 0 then []
    else AllPairs(lefts[..|lefts| - 1], rights) + Row(lefts[|lefts| - 1], rights)
  }

  /** One entry per (left, right) pair, pair (i, j) at position i * |rights| + j. */
  lemma {:induction false} AllPairsAt(lefts: seq<LockingBranch>, rights: seq<LockingBranch>, i: nat, j: nat)
    requires i < |lefts| && j < |rights|
    ensures |AllPairs(lefts, rights)| == |lefts| * |rights|
    ensures i * |rights| + j < |AllPairs(lefts, rights)|
    ensures AllPairs(lefts, rights)[i * |rights| + j] == (lefts[i], rights[j])
    decreases |lefts|
  {
    var n := |lefts| - 1;
    var m := |rights|;
    AllPairsLength(lefts, rights);
    AllPairsLength(lefts[..n], rights);
    if i < n {
      AllPairsAt(lefts[..n], rights, i, j);
      assert i * m + j < n * m by {
        assert i * m + j < (i + 1) * m;
        MulMonotone(i + 1, n, m);
      }
      assert lefts[..n][i] == lefts[i];
    } else {
      assert i * m + j == n * m + j;
    }
  }

  lemma MulMonotone(a: nat, b: nat, m: nat)
    requires a <= b
    ensures a * m <= b * m
  {
  }

  lemma {:induction false} AllPairsLength(lefts: seq<LockingBranch>, rights: seq<LockingBranch>)
    ensures |AllPairs(lefts, rights)| == |lefts| * |rights|
    decreases |lefts|
  {
    if |lefts| > 0 {
      var n := |lefts| - 1;
      AllPairsLength(lefts[..n], rights);
      assert |lefts| * |rights| == n * |rights| + |rights|;
    }
  }

  function Row(left: LockingBranch, rights: seq<LockingBranch>): (r: seq<(LockingBranch, LockingBranch)>)
    ensures |r| == |rights|
    ensures forall j :: 0 <= j < |r| ==> r[j] == (left, rights[j])
  {
    seq(|rights|, j requires 0 <= j < |rights| => (left, rights[j]))
  }

  /** One trial of a pair of paths with the flags so far: twoCombinationsMatch
      in checkIfMatchesAndDraw. The fold below is stated for any such trial,
      which keeps its proofs apart from the matcher's own. */
  type PairTest = (LockingBranch, LockingBranch, SentConsumed) -> MatchOutcome

  function PairTester(env: Collaborators): PairTest {
    (l: LockingBranch, r: LockingBranch, f: SentConsumed) => TwoCombinationsMatch(l, r, f, env)
  }

  /** The flags after every pair was tried, in order: the SendAndReceive flags
      carry over from one pair to the next. */
  function FlagsAfter(pairs: seq<(LockingBranch, LockingBranch)>, flags: SentConsumed, test: PairTest): SentConsumed
    decreases |pairs|
  {
    if |pairs| == 0 then flags
    else
      var last := pairs[|pairs| - 1];
      test(last.0, last.1, FlagsAfter(pairs[..|pairs| - 1], flags, test)).flags
  }

  /** Whether some pair matched, each pair being tried with the flags the
      earlier pairs left. */
  function SomePairMatches(pairs: seq<(LockingBranch, LockingBranch)>, flags: SentConsumed, test: PairTest): bool
    decreases |pairs|
  {
    if |pairs| == 0 then false
    else
      var last := pairs[|pairs| - 1];
      var before := pairs[..|pairs| - 1];
      SomePairMatches(before, flags, test)
        || test(last.0, last.1, FlagsAfter(before, flags, test)).matches.Some?
  }

  /** Trying one more pair: the verdict gains that pair's outcome and the
      flags are those the pair left. */
  lemma AppendPair(pairs: seq<(LockingBranch, LockingBranch)>, x: (LockingBranch, LockingBranch),
                   flags: SentConsumed, test: PairTest)
    ensures var o := test(x.0, x.1, FlagsAfter(pairs, flags, test));
            && SomePairMatches(pairs + [x], flags, test) == (SomePairMatches(pairs, flags, test) || o.matches.Some?)
            && FlagsAfter(pairs + [x], flags, test) == o.flags
  {
    var p := pairs + [x];
    assert p[..|p| - 1] == pairs;
    assert p[|p| - 1] == x;
  }

  /** The verdict is true exactly when some pair, tried in its turn, matches. */
  lemma {:induction false} SomePairMatchesIffExists(pairs: seq<(LockingBranch, LockingBranch)>, flags: SentConsumed,
                                                    test: PairTest)
    ensures SomePairMatches(pairs, flags, test) <==>
      exists k :: 0 <= k < |pairs| && PairMatchesInTurn(pairs, k, flags, test)
  {
    if SomePairMatches(pairs, flags, test) {
      var k := MatchingPairInTurn(pairs, flags, test);
    }
    forall k | 0 <= k < |pairs| && PairMatchesInTurn(pairs, k, flags, test) ensures SomePairMatches(pairs, flags, test) {
      PairInTurnMatches(pairs, k, flags, test);
    }
  }

  /** A true verdict names a pair that matched in its turn. */
  lemma {:induction false} MatchingPairInTurn(pairs: seq<(LockingBranch, LockingBranch)>, flags: SentConsumed,
                                              test: PairTest) returns (k: nat)
    requires SomePairMatches(pairs, flags, test)
    ensures k < |pairs| && PairMatchesInTurn(pairs, k, flags, test)
    decreases |pairs|
  {
    var n := |pairs| - 1;
    var before := pairs[..n];
    if SomePairMatches(before, flags, test) {
      k := MatchingPairInTurn(before, flags, test);
      PairMatchesInTurnPrefix(pairs, n, k, flags, test);
    } else {
      k := n;
    }
  }

  /** A pair that matches in its turn makes the verdict true. */
  lemma {:induction false} PairInTurnMatches(pairs: seq<(LockingBranch, LockingBranch)>, k: nat, flags: SentConsumed,
                                             test: PairTest)
    requires k < |pairs| && PairMatchesInTurn(pairs, k, flags, test)
    ensures SomePairMatches(pairs, flags, test)
    decreases |pairs|
  {
    var n := |pairs| - 1;
    var before := pairs[..n];
    assert SomePairMatches(pairs, flags, test) ==
      (SomePairMatches(before, flags, test)
        || test(pairs[n].0, pairs[n].1, FlagsAfter(before, flags, test)).matches.Some?);
    if k < n {
      PairMatchesInTurnPrefix(pairs, n, k, flags, test);
      PairInTurnMatches(before, k, flags, test);
    } else {
      assert pairs[..k] == before && pairs[k] == pairs[n];
    }
  }


  /** Pair k matches when tried with the flags the pairs before it left. */
  predicate PairMatchesInTurn(pairs: seq<(LockingBranch, LockingBranch)>, k: nat, flags: SentConsumed, test: PairTest)
    requires k < |pairs|
  {
    test(pairs[k].0, pairs[k].1, FlagsAfter(pairs[..k], flags, test)).matches.Some?
  }

  lemma PairMatchesInTurnPrefix(pairs: seq<(LockingBranch, LockingBranch)>, n: nat, k: nat, flags: SentConsumed, test: PairTest)
    requires k < n <= |pairs|
    ensures PairMatchesInTurn(pairs[..n], k, flags, test) == PairMatchesInTurn(pairs, k, flags, test)
  {
    assert pairs[..n][..k] == pairs[..k];
    assert pairs[..n][k] == pairs[k];
  }

  lemma AllPairsStep(lefts: seq<LockingBranch>, rights: seq<LockingBranch>, i: nat)
    requires i < |lefts|
    ensures AllPairs(lefts[..i + 1], rights) == AllPairs(lefts[..i], rights) + Row(lefts[i], rights)
  {
    assert lefts[..i + 1][..i] == lefts[..i];
  }

  lemma RowStep(left: LockingBranch, rights: seq<LockingBranch>, j: nat)
    requires j < |rights|
    ensures Row(left, rights[..j + 1]) == Row(left, rights[..j]) + [(left, rights[j])]
  {
  }

  /** Trying the pairs of `a` and then those of `b` is trying `a + b`: the
      verdicts add up and `b` starts from the flags `a` left. */
  lemma {:induction false} ConcatPairs(a: seq<(LockingBranch, LockingBranch)>, b: seq<(LockingBranch, LockingBranch)>,
                                       flags: SentConsumed, test: PairTest)
    ensures SomePairMatches(a + b, flags, test) ==
      (SomePairMatches(a, flags, test) || SomePairMatches(b, FlagsAfter(a, flags, test), test))
    ensures FlagsAfter(a + b, flags, test) == FlagsAfter(b, FlagsAfter(a, flags, test), test)
    decreases |b|
  {
    if |b| == 0 {
      assert a + b == a;
    } else {
      var n := |b| - 1;
      var b', x := b[..n], b[n];
      var ab, fa := a + b, FlagsAfter(a, flags, test);
      ConcatPairs(a, b', flags, test);
      assert ab[..|ab| - 1] == a + b' && ab[|ab| - 1] == x;
      var o := test(x.0, x.1, FlagsAfter(b', fa, test));
      assert FlagsAfter(b, fa, test) == o.flags;
      assert SomePairMatches(b, fa, test) == (SomePairMatches(b', fa, test) || o.matches.Some?);
      assert FlagsAfter(ab, flags, test) == o.flags;
      assert SomePairMatches(ab, flags, test) == (SomePairMatches(a + b', flags, test) || o.matches.Some?);
    }
  }

  /** The inner loop of checkIfMatchesAndDraw: one initiating path against
      every initiated path, starting from the flags the earlier rows left. */
  method MatchRow(left: LockingBranch, rights: seq<LockingBranch>, flags: SentConsumed, env: Collaborators)
    returns (found: bool, flagsOut: SentConsumed)
    ensures found == SomePairMatches(Row(left, rights), flags, PairTester(env))
    ensures flagsOut == FlagsAfter(Row(left, rights), flags, PairTester(env))
  {
    found := false;
    flagsOut := flags;
    assert Row(left, rights[..0]) == [];
    var j := 0;
    while j < |rights|
      invariant 0 <= j <= |rights|
      invariant found == SomePairMatches(Row(left, rights[..j]), flags, PairTester(env))
      invariant flagsOut == FlagsAfter(Row(left, rights[..j]), flags, PairTester(env))
    {
      var outcome := TwoCombinationsMatch(left, rights[j], flagsOut, env);
      if outcome.matches.Some? {
        found := true;
      }
      flagsOut := outcome.flags;
      RowStep(left, rights, j);
      AppendPair(Row(left, rights[..j]), (left, rights[j]), flags, PairTester(env));
      j := j + 1;
    }
    assert rights[..j] == rights;
  }

  /** checkIfMatchesAndDraw, verdict only: tries every (left, right) pair of
      paths in order, threading the SendAndReceive flags, and reports whether
      at least one pair matched. */
  method CheckIfMatchesAndDraw(lefts: seq<LockingBranch>, rights: seq<LockingBranch>, flags: SentConsumed,
                               env: Collaborators)
    returns (foundOneMatch: bool, flagsOut: SentConsumed)
    ensures foundOneMatch == SomePairMatches(AllPairs(lefts, rights), flags, PairTester(env))
    ensures flagsOut == FlagsAfter(AllPairs(lefts, rights), flags, PairTester(env))
  {
    foundOneMatch := false;
    flagsOut := flags;
    var i := 0;
    while i < |lefts|
      invariant 0 <= i <= |lefts|
      invariant foundOneMatch == SomePairMatches(AllPairs(lefts[..i], rights), flags, PairTester(env))
      invariant flagsOut == FlagsAfter(AllPairs(lefts[..i], rights), flags, PairTester(env))
    {
      var rowFound, rowFlags := MatchRow(lefts[i], rights, flagsOut, env);
      ConcatPairs(AllPairs(lefts[..i], rights), Row(lefts[i], rights), flags, PairTester(env));
      AllPairsStep(lefts, rights, i);
      foundOneMatch := foundOneMatch || rowFound;
      flagsOut := rowFlags;
      i := i + 1;
    }
    assert lefts[..i] == lefts;
  }
}
