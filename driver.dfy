/**
  A driver for the two components, as the orchestrator uses them: each
  proposed move is first vetted by the invariant checker and then by the
  state machine, and only a move that passes both is applied. A refused
  proposal leaves the state as it was.
 */
module Driver {
  import opened Wrappers
  import opened StateMachine
  import opened Invariants

  /** The per-negotiation record the orchestrator owns. */
  datatype NegotiationContext = NegotiationContext(negotiationId: string, state: State, round: int)

  /** A fresh context starts in INIT at round 0. */
  function NewContext(negotiationId: string): (ctx: NegotiationContext)
    ensures ctx.negotiationId == negotiationId
    ensures ctx.state == Init && !IsTerminal(ctx.state) && ctx.round == 0
  {
    NegotiationContext(negotiationId, Init, 0)
  }

  /** One proposed move together with the context data the checker needs. */
  datatype Proposal = Proposal(
    next: State,
    approvalValid: bool,
    emergencyOverride: bool,
    oldTerms: Option<Terms>,
    newTerms: Option<Terms>)

  /** Why a proposal was refused: by a safety rule, or by the table. */
  datatype Rejection =
    | Violated(violation: InvariantViolation)
    | Illegal(error: TransitionError)

  function CheckProposal(s: State, p: Proposal): Outcome<InvariantViolation> {
    CheckAllInvariants(s, p.next, p.approvalValid, p.emergencyOverride, p.oldTerms, p.newTerms)
  }

  /**
    Checks the invariants, then validates the transition. The proposal is
    accepted exactly when both pass, and then yields its target state; a
    safety violation is reported in preference to an illegal move.
   */
  function Apply(s: State, p: Proposal): (r: Result<State, Rejection>)
    ensures r.Success? <==> CheckProposal(s, p).Pass? && Transition(s, p.next).Success?
    ensures r.Success? ==> r.value == p.next && p.next in Successors(s)
    ensures CheckProposal(s, p).Fail? ==> r == Failure(Violated(CheckProposal(s, p).error))
    ensures CheckProposal(s, p).Pass? && Transition(s, p.next).Failure? ==>
              r == Failure(Illegal(Transition(s, p.next).error))
    ensures IsTerminal(s) ==> r.Failure?
  {
    match CheckProposal(s, p)
    case Fail(v) => Failure(Violated(v))
    case Pass =>
      match Transition(s, p.next)
      case Failure(e) => Failure(Illegal(e))
      case Success(t) => Success(t)
  }

  /** The caller writes an accepted state into its context; a refused
      proposal changes nothing. The identifier and round are never touched. */
  function Advance(ctx: NegotiationContext, p: Proposal): (r: Result<NegotiationContext, Rejection>)
    ensures r.Success? <==> Apply(ctx.state, p).Success?
    ensures r.Success? ==> r.value == ctx.(state := p.next)
    ensures r.Failure? ==> r.error == Apply(ctx.state, p).error
  {
    match Apply(ctx.state, p)
    case Success(t) => Success(ctx.(state := t))
    case Failure(e) => Failure(e)
  }

  /** The state after one proposal: the accepted target, or the old state. */
  function Step(s: State, p: Proposal): State {
    match Apply(s, p)
    case Success(t) => t
    case Failure(_) => s
  }

  /**
    The states after each proposal in turn, starting from `s`: element `i`
    is element `i - 1` (or `s`) stepped by proposal `i`.
   */
  function Run(s: State, proposals: seq<Proposal>): (trace: seq<State>)
    ensures |trace| == |proposals|
    ensures |proposals| > 0 ==> trace[0] == Step(s, proposals[0])
    ensures forall i :: 0 < i < |proposals| ==> trace[i] == Step(trace[i - 1], proposals[i])
    decreases |proposals|
  {
    if proposals == [] then []
    else
      var t := Step(s, proposals[0]);
      [t] + Run(t, proposals[1..])
  }

  /** The state a proposal is applied to: the start, or the previous state. */
  function Before(s: State, trace: seq<State>, i: nat): State
    requires i <= |trace|
  {
    if i == 0 then s else trace[i - 1]
  }

  /** A terminal state never steps anywhere. */
  lemma StepFromTerminal(s: State, p: Proposal)
    requires IsTerminal(s)
    ensures Step(s, p) == s
  {
  }

  /** Once the run reaches a terminal state it stays there for good, however
      the later proposals are chosen. */
  lemma {:induction false} TerminalIsAbsorbing(s: State, proposals: seq<Proposal>, i: nat, j: nat)
    requires i <= j < |proposals|
    requires IsTerminal(Run(s, proposals)[i])
    ensures Run(s, proposals)[j] == Run(s, proposals)[i]
    decreases j
  {
    if i < j {
      var trace := Run(s, proposals);
      TerminalIsAbsorbing(s, proposals, i, j - 1);
      StepFromTerminal(trace[j - 1], proposals[j]);
    }
  }

  /** A run that starts in a terminal state never leaves it. */
  lemma {:induction false} TerminalStartIsAbsorbing(s: State, proposals: seq<Proposal>, j: nat)
    requires IsTerminal(s)
    requires j < |proposals|
    ensures Run(s, proposals)[j] == s
  {
    StepFromTerminal(s, proposals[0]);
    if j > 0 {
      TerminalIsAbsorbing(s, proposals, 0, j);
    }
  }

  /** Every change of state along a run is a legal transition whose
      proposal passed every safety rule. */
  lemma RunMovesAreChecked(s: State, proposals: seq<Proposal>, i: nat)
    requires i < |proposals|
    ensures var trace := Run(s, proposals);
      var prev := Before(s, trace, i);
      trace[i] == prev ||
      (Transition(prev, trace[i]) == Success(trace[i]) && CheckProposal(prev, proposals[i]).Pass?)
  {
  }

  /** A run enters COMMIT only from HUMAN_APPROVAL, and only on a proposal
      that carries an approval or an emergency override. */
  lemma RunCommitIsAuthorized(s: State, proposals: seq<Proposal>, i: nat)
    requires i < |proposals|
    requires Run(s, proposals)[i] == Commit && Before(s, Run(s, proposals), i) != Commit
    ensures Before(s, Run(s, proposals), i) == HumanApproval
    ensures proposals[i].approvalValid || proposals[i].emergencyOverride
  {
    var trace := Run(s, proposals);
    var prev := Before(s, trace, i);
    RunMovesAreChecked(s, proposals, i);
    CommitOnlyFromHumanApproval(prev);
    CheckAllOrder(prev, Commit, proposals[i].approvalValid, proposals[i].emergencyOverride,
                  proposals[i].oldTerms, proposals[i].newTerms);
  }

  /** A proposal that moves to `next` with no terms; approval only when asked. */
  function Move(next: State, approvalValid: bool): Proposal {
    Proposal(next, approvalValid, false, None, None)
  }

  /** A legal move without terms is accepted when it is authorised or does
      not go to COMMIT. */
  lemma MoveAccepted(s: State, next: State, approvalValid: bool)
    requires Transition(s, next).Success?
    requires next == Commit ==> approvalValid
    ensures Step(s, Move(next, approvalValid)) == next
  {
    CheckAllOrder(s, next, approvalValid, false, None, None);
  }

  /** The demonstration run, approval given only for the final commit. */
  const Demonstration: seq<Proposal> := [
    Move(CapabilityDiscovery, false),
    Move(AnchorProposed, false),
    Move(Negotiating, false),
    Move(AgreementDraft, false),
    Move(HumanApproval, false),
    Move(Commit, true)
  ]

  /** The first three demonstration moves are accepted. */
  lemma DemonstrationOpening()
    ensures Run(Init, Demonstration)[0] == CapabilityDiscovery
    ensures Run(Init, Demonstration)[1] == AnchorProposed
    ensures Run(Init, Demonstration)[2] == Negotiating
  {
    MoveAccepted(Init, CapabilityDiscovery, false);
    MoveAccepted(CapabilityDiscovery, AnchorProposed, false);
    MoveAccepted(AnchorProposed, Negotiating, false);
  }

  /** The demonstration run is accepted at every step and ends in COMMIT;
      the later attempt to reopen the negotiation is refused. */
  lemma DemonstrationRun()
    ensures Run(Init, Demonstration) ==
              [CapabilityDiscovery, AnchorProposed, Negotiating, AgreementDraft, HumanApproval, Commit]
    ensures Apply(Commit, Move(Negotiating, false)).Failure?
  {
    DemonstrationOpening();
    MoveAccepted(Negotiating, AgreementDraft, false);
    MoveAccepted(AgreementDraft, HumanApproval, false);
    MoveAccepted(HumanApproval, Commit, true);
  }
}
