/**
  The negotiation state machine: the closed set of states, the absorbing
  terminal subset, the constant table of legal one-step moves, and the
  single transition-validation operation.
 */
module StateMachine {
  import opened Wrappers

  /** The ten states a negotiation can be in. */
  datatype State =
    | Init
    | CapabilityDiscovery
    | AnchorProposed
    | Negotiating
    | Stalled
    | PolicyViolation
    | AgreementDraft
    | HumanApproval
    | Commit
    | Abort

  /** Every state, as a set (used to state that the table is total). */
  const AllStates: set<State> :=
    {Init, CapabilityDiscovery, AnchorProposed, Negotiating, Stalled,
     PolicyViolation, AgreementDraft, HumanApproval, Commit, Abort}

  /** The absorbing states. */
  const TerminalStates: set<State> := {Commit, Abort}

  predicate IsTerminal(s: State) {
    s in TerminalStates
  }

  /** The legal one-step moves, one entry per state. */
  const AllowedTransitions: map<State, set<State>> := map[
    Init := {CapabilityDiscovery},
    CapabilityDiscovery := {AnchorProposed},
    AnchorProposed := {Negotiating},
    Negotiating := {Negotiating, Stalled, PolicyViolation, AgreementDraft},
    Stalled := {Negotiating, Abort},
    PolicyViolation := {Negotiating, Abort},
    AgreementDraft := {HumanApproval},
    HumanApproval := {Commit, Abort},
    Commit := {},
    Abort := {}
  ]

  /** The table lookup with an empty default for a missing entry. */
  function Successors(s: State): set<State> {
    if s in AllowedTransitions then AllowedTransitions[s] else {}
  }

  /** Why a transition was refused: the current state is terminal, or the
      move is not in the table. */
  datatype TransitionError =
    | TerminalState(current: State)
    | NotAllowed(current: State, next: State)

  /**
    Validates the move `current -> next`. A terminal `current` is refused
    whatever `next` is (a self-move included); otherwise the move is legal
    exactly when the table lists it, and a legal move yields `next` itself.
   */
  function Transition(current: State, next: State): (r: Result<State, TransitionError>)
    ensures IsTerminal(current) ==> r == Failure(TerminalState(current))
    ensures !IsTerminal(current) && next !in Successors(current) ==>
              r == Failure(NotAllowed(current, next))
    ensures r.Success? <==> !IsTerminal(current) && next in Successors(current)
    ensures r.Success? ==> r.value == next
  {
    if current in TerminalStates then
      Failure(TerminalState(current))
    else if next !in Successors(current) then
      Failure(NotAllowed(current, next))
    else
      Success(next)
  }

  /** The table has an entry for every state, so the lookup default is
      never used, and both terminal states have no successor. */
  lemma TableIsTotal()
    ensures AllowedTransitions.Keys == AllStates
    ensures forall s: State :: s in AllStates
    ensures forall s: State :: Successors(s) == AllowedTransitions[s]
    ensures AllowedTransitions[Commit] == {} && AllowedTransitions[Abort] == {}
  {
    forall s: State ensures s in AllStates {
      match s
      case Init =>
      case CapabilityDiscovery =>
      case AnchorProposed =>
      case Negotiating =>
      case Stalled =>
      case PolicyViolation =>
      case AgreementDraft =>
      case HumanApproval =>
      case Commit =>
      case Abort =>
    }
  }

  /** Every move out of a terminal state is refused, for every `next`,
      `next == current` included. */
  lemma TerminalRejectsEverything(current: State, next: State)
    requires IsTerminal(current)
    ensures Transition(current, next).Failure?
  {
  }

  /** Only NEGOTIATING has a self-loop. */
  lemma SelfLoopOnlyAtNegotiating(s: State)
    ensures Transition(s, s).Success? <==> s == Negotiating
  {
  }

  /** COMMIT is entered only from HUMAN_APPROVAL. */
  lemma CommitOnlyFromHumanApproval(s: State)
    ensures Transition(s, Commit).Success? <==> s == HumanApproval
  {
  }

  /** ABORT is entered only from STALLED, POLICY_VIOLATION or HUMAN_APPROVAL. */
  lemma AbortPredecessors(s: State)
    ensures Transition(s, Abort).Success? <==>
              s == Stalled || s == PolicyViolation || s == HumanApproval
  {
  }

  /** Consecutive states of `path` are each a successful transition. */
  predicate IsLegalPath(path: seq<State>) {
    forall i :: 0 <= i < |path| - 1 ==> Transition(path[i], path[i + 1]).Success?
  }

  /** Along a path of successful transitions a terminal state can only be
      the last one: no step out of it succeeds. */
  lemma LegalPathEndsAtTerminal(path: seq<State>)
    requires IsLegalPath(path)
    ensures forall i :: 0 <= i < |path| - 1 ==> !IsTerminal(path[i])
  {
    forall i | 0 <= i < |path| - 1 ensures !IsTerminal(path[i]) {
      assert Transition(path[i], path[i + 1]).Success?;
    }
  }

  /** The demonstration path succeeds step by step, and a later move from
      COMMIT back to NEGOTIATING is refused. */
  lemma DemonstrationPath()
    ensures IsLegalPath([Init, CapabilityDiscovery, AnchorProposed, Negotiating,
                         AgreementDraft, HumanApproval, Commit])
    ensures Transition(Commit, Negotiating) == Failure(TerminalState(Commit))
  {
  }
}
