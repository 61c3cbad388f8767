/**
  The invariant checker: three safety rules that vet a proposed move using
  context the transition table cannot see (authorisation flags and the old
  and new terms), and the aggregate check that runs them in a fixed order.
 */
module Invariants {
  import opened Wrappers
  import opened StateMachine

  /** The stable identifiers of the three rules. */
  datatype InvariantId = S1 | S2 | S3

  /** A violation carries its rule identifier as data of its own, so a
      caller branches on it without reading any message text. */
  datatype InvariantViolation = InvariantViolation(id: InvariantId)

  /** The textual tag of each identifier. */
  function Tag(id: InvariantId): (tag: string)
    ensures |tag| == 6 && tag[..5] == "INV_S"
    ensures tag[5] == match id case S1 => '1' case S2 => '2' case S3 => '3'
  {
    match id
    case S1 => "INV_S1"
    case S2 => "INV_S2"
    case S3 => "INV_S3"
  }

  /** Distinct rules have distinct tags. */
  lemma TagsAreDistinct(a: InvariantId, b: InvariantId)
    ensures Tag(a) == Tag(b) <==> a == b
  {
    if a != b {
      assert Tag(a)[5] != Tag(b)[5];
    }
  }

  /** Negotiation terms: term keys mapped to numeric values. */
  type Terms = map<string, real>

  const UnitPrice: string := "unit_price"

  /** Truth of an optional terms mapping: absent and empty both count as false. */
  predicate Present(t: Option<Terms>) {
    t.Some? && |t.value| > 0
  }

  /**
    INV_S3, terminal absorption: fails exactly when `prev` is terminal and
    the move goes to a different state. A terminal self-move passes.
   */
  function CheckTerminalAbsorption(prev: State, next: State): (r: Outcome<InvariantViolation>)
    ensures r.Fail? <==> IsTerminal(prev) && prev != next
    ensures r.Fail? ==> r.error.id == S3
  {
    if prev in TerminalStates && prev != next then
      Fail(InvariantViolation(S3))
    else
      Pass
  }

  /**
    INV_S1, unauthorised commit: fails exactly when the move goes to COMMIT
    and neither a valid approval nor an emergency override is given.
   */
  function CheckUnauthorizedCommit(approvalValid: bool, emergencyOverride: bool, next: State)
    : (r: Outcome<InvariantViolation>)
    ensures r.Fail? <==> next == Commit && !approvalValid && !emergencyOverride
    ensures next != Commit ==> r.Pass?
    ensures r.Fail? ==> r.error.id == S1
  {
    if next == Commit then
      if !(approvalValid || emergencyOverride) then
        Fail(InvariantViolation(S1))
      else
        Pass
    else
      Pass
  }

  /**
    INV_S2, monotonic concessions: fails exactly when both mappings are
    given, both hold a unit price, and the new price is strictly higher.
    The emptiness guard in front is subsumed by the key tests.
   */
  function CheckMonotonicity(oldTerms: Option<Terms>, newTerms: Option<Terms>)
    : (r: Outcome<InvariantViolation>)
    ensures r.Fail? <==>
              && oldTerms.Some? && newTerms.Some?
              && UnitPrice in oldTerms.value && UnitPrice in newTerms.value
              && newTerms.value[UnitPrice] > oldTerms.value[UnitPrice]
    ensures r.Fail? ==> r.error.id == S2
  {
    if !Present(oldTerms) || !Present(newTerms) then
      Pass
    else if UnitPrice in oldTerms.value && UnitPrice in newTerms.value then
      if newTerms.value[UnitPrice] > oldTerms.value[UnitPrice] then
        Fail(InvariantViolation(S2))
      else
        Pass
    else
      Pass
  }

  /** The first failing outcome of a list of checks, or `Pass` when none fails. */
  function FirstFailure<E>(checks: seq<Outcome<E>>): Outcome<E> {
    if checks == [] then Pass
    else if checks[0].Fail? then checks[0]
    else FirstFailure(checks[1..])
  }

  /** On a list of three checks, `FirstFailure` is the first of them that fails. */
  lemma FirstFailureOfThree<E>(a: Outcome<E>, b: Outcome<E>, c: Outcome<E>)
    ensures FirstFailure([a, b, c]) == if a.Fail? then a else if b.Fail? then b else c
  {
    assert [a, b, c][1..] == [b, c];
    assert [b, c][1..] == [c];
    assert [c][1..] == [];
    assert FirstFailure([c]) == c;
    assert FirstFailure([b, c]) == if b.Fail? then b else c;
  }

  /** `FirstFailure` passes exactly when every check passes, and a failure it
      reports is the earliest one in the list. */
  lemma {:induction false} FirstFailureIsEarliest<E>(checks: seq<Outcome<E>>)
    ensures FirstFailure(checks).Pass? <==> forall i :: 0 <= i < |checks| ==> checks[i].Pass?
    ensures FirstFailure(checks).Fail? ==>
              exists k :: 0 <= k < |checks| && checks[k] == FirstFailure(checks) &&
                          forall i :: 0 <= i < k ==> checks[i].Pass?
  {
    if checks != [] && checks[0].Pass? {
      FirstFailureIsEarliest(checks[1..]);
      if FirstFailure(checks).Fail? {
        var k :| 0 <= k < |checks[1..]| && checks[1..][k] == FirstFailure(checks[1..]) &&
                 forall i :: 0 <= i < k ==> checks[1..][i].Pass?;
        assert checks[k + 1] == FirstFailure(checks);
        assert forall i :: 0 <= i < k + 1 ==> checks[i].Pass? by {
          forall i | 0 <= i < k + 1 ensures checks[i].Pass? {
            if i > 0 { assert checks[i] == checks[1..][i - 1]; }
          }
        }
      }
    }
  }

  /**
    Runs INV_S3, then INV_S1, then (when both terms mappings are non-empty)
    INV_S2, and reports the first violation: the result is the first failure
    of the three individual outcomes in that order.
   */
  function CheckAllInvariants(
    prev: State,
    next: State,
    approvalValid: bool,
    emergencyOverride: bool,
    oldTerms: Option<Terms>,
    newTerms: Option<Terms>
  ): (r: Outcome<InvariantViolation>)
    ensures r == FirstFailure([CheckTerminalAbsorption(prev, next),
                               CheckUnauthorizedCommit(approvalValid, emergencyOverride, next),
                               CheckMonotonicity(oldTerms, newTerms)])
  {
    FirstFailureOfThree(CheckTerminalAbsorption(prev, next),
                        CheckUnauthorizedCommit(approvalValid, emergencyOverride, next),
                        CheckMonotonicity(oldTerms, newTerms));
    var s3 := CheckTerminalAbsorption(prev, next);
    if s3.Fail? then s3
    else
      var s1 := CheckUnauthorizedCommit(approvalValid, emergencyOverride, next);
      if s1.Fail? then s1
      else if Present(oldTerms) && Present(newTerms) then
        CheckMonotonicity(oldTerms, newTerms)
      else
        Pass
  }

  /** The aggregate passes exactly when all three rules pass, and otherwise
      names the first failing rule in the order S3, S1, S2. */
  lemma CheckAllOrder(
    prev: State, next: State, approvalValid: bool, emergencyOverride: bool,
    oldTerms: Option<Terms>, newTerms: Option<Terms>)
    ensures var r := CheckAllInvariants(prev, next, approvalValid, emergencyOverride, oldTerms, newTerms);
      && (r.Pass? <==>
            && CheckTerminalAbsorption(prev, next).Pass?
            && CheckUnauthorizedCommit(approvalValid, emergencyOverride, next).Pass?
            && CheckMonotonicity(oldTerms, newTerms).Pass?)
      && (r.Fail? ==>
            r.error.id == (if CheckTerminalAbsorption(prev, next).Fail? then S3
                           else if CheckUnauthorizedCommit(approvalValid, emergencyOverride, next).Fail? then S1
                           else S2))
  {
    FirstFailureIsEarliest([CheckTerminalAbsorption(prev, next),
                            CheckUnauthorizedCommit(approvalValid, emergencyOverride, next),
                            CheckMonotonicity(oldTerms, newTerms)]);
  }

  /** Leaving a terminal state for another state is reported as INV_S3
      whatever the flags and terms. */
  lemma LeavingTerminalIsS3(
    prev: State, next: State, approvalValid: bool, emergencyOverride: bool,
    oldTerms: Option<Terms>, newTerms: Option<Terms>)
    requires IsTerminal(prev) && next != prev
    ensures CheckAllInvariants(prev, next, approvalValid, emergencyOverride, oldTerms, newTerms)
              == Fail(InvariantViolation(S3))
  {
  }

  /** Either authorisation alone lets a commit through INV_S1. */
  lemma EitherAuthorizationSuffices(approvalValid: bool, emergencyOverride: bool)
    requires approvalValid || emergencyOverride
    ensures CheckUnauthorizedCommit(approvalValid, emergencyOverride, Commit).Pass?
  {
  }

  /** An equal or lower unit price passes INV_S2; so does a missing price
      or a missing mapping. */
  lemma NonIncreasingPricePasses(oldTerms: Option<Terms>, newTerms: Option<Terms>)
    requires
      || oldTerms.None? || newTerms.None?
      || UnitPrice !in oldTerms.value || UnitPrice !in newTerms.value
      || newTerms.value[UnitPrice] <= oldTerms.value[UnitPrice]
    ensures CheckMonotonicity(oldTerms, newTerms).Pass?
  {
  }

  /**
    The two components disagree on a terminal self-move: INV_S3 lets
    COMMIT -> COMMIT (or ABORT -> ABORT) through, and with approval so does
    the whole checker, while the state machine refuses it.
   */
  lemma TerminalSelfMoveDisagreement(s: State)
    requires IsTerminal(s)
    ensures CheckTerminalAbsorption(s, s).Pass?
    ensures CheckAllInvariants(s, s, true, false, None, None).Pass?
    ensures Transition(s, s).Failure?
  {
  }

  /** Every move INV_S3 refuses, the state machine refuses too. */
  lemma TransitionCoversS3(prev: State, next: State)
    requires CheckTerminalAbsorption(prev, next).Fail?
    ensures Transition(prev, next) == Failure(TerminalState(prev))
  {
  }

  /** The scenarios pinned by the repository's tests, with the mirrored
      passing price and the INV_S3 case. */
  lemma DocumentedScenarios()
    ensures CheckAllInvariants(HumanApproval, Commit, false, false, None, None)
              == Fail(InvariantViolation(S1))
    ensures CheckAllInvariants(HumanApproval, Commit, true, false, None, None).Pass?
    ensures CheckAllInvariants(Negotiating, Negotiating, false, false,
                               Some(map[UnitPrice := 0.90]), Some(map[UnitPrice := 1.00]))
              == Fail(InvariantViolation(S2))
    ensures CheckAllInvariants(Negotiating, Negotiating, false, false,
                               Some(map[UnitPrice := 0.90]), Some(map[UnitPrice := 0.85])).Pass?
    ensures CheckAllInvariants(Commit, Negotiating, true, true,
                               Some(map[UnitPrice := 0.90]), Some(map[UnitPrice := 1.00]))
              == Fail(InvariantViolation(S3))
  {
  }
}
