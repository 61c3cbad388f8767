# Negotiation safety kernel

A Dafny model of the safety kernel of a procurement negotiation workflow.
The kernel has two pure components:

- the **state machine** (`StateMachine`, `state_machine.dfy`). It defines the ten
  negotiation states and the terminal subset {COMMIT, ABORT}. It holds the
  constant table of legal one-step moves, `AllowedTransitions`. `Transition`
  refuses any move out of a terminal state, a self-move included, and any move
  the table does not list; otherwise it returns the proposed state unchanged.
- the **invariant checker** (`Invariants`, `invariants.dfy`). It has three
  guards, and each reports a violation tagged with a stable id:
  - INV_S3: terminal absorption;
  - INV_S1: a commit needs an approval or an emergency override;
  - INV_S2: the unit price must not rise.

  `CheckAllInvariants` runs them in the order S3, S1, S2 and reports the first
  failure.

`Wrappers` (`wrappers.dfy`) holds the `Option`, `Result` and `Outcome` types
that replace exceptions and `None`. `Driver` (`driver.dfy`) composes the two
components in check-then-transition order: each proposed move is checked
against the invariants, then validated by the state machine, and a refused
move leaves the state unchanged. The demonstration script `simulate.py` is a
fixed run of this kind. Over that fold the model proves
that a terminal state is never left. It also proves that every change of
state was legal and passed every rule, and that COMMIT is entered only from
HUMAN_APPROVAL with authorisation.

The model keeps one disagreement between the two components as the code has
it. INV_S3 fires only when the state changes, so COMMIT -> COMMIT passes the
checker. `Transition` refuses it (`Invariants.TerminalSelfMoveDisagreement`).

Three points of the code's behaviour that are easy to misread:

- INV_S2 is skipped when a terms mapping is absent and also when it is empty.
  This is Python truthiness (`Invariants.Present`).
- The table lookup falls back to an empty set for a missing entry
  (`StateMachine.Successors`). Nothing checks totality at start-up, so the
  model proves that the table is total instead (`StateMachine.TableIsTotal`).
- INV_S2 compares `unit_price` only. The docstring of `check_monotonicity`
  mentions volume and policy-specific rules, but the code has none.

## Model

| member | source | states |
|---|---|---|
| `StateMachine.Transition` | engine/state_machine.py:48-74 | a terminal current state is refused for every next state; otherwise the move succeeds exactly when the table lists it; success returns the next state itself |
| `StateMachine.TableIsTotal` | engine/state_machine.py:26-42 | the table has an entry for each of the ten states, so the lookup default is never used; COMMIT and ABORT map to the empty set |
| `StateMachine.TerminalRejectsEverything` | engine/state_machine.py:62-66 | from COMMIT or ABORT every transition fails, including the move to the same state |
| `StateMachine.SelfLoopOnlyAtNegotiating` | engine/state_machine.py:30-35 | a self-move succeeds exactly for NEGOTIATING |
| `StateMachine.CommitOnlyFromHumanApproval` | engine/state_machine.py:39 | a move to COMMIT succeeds exactly from HUMAN_APPROVAL |
| `StateMachine.AbortPredecessors` | engine/state_machine.py:36-39 | a move to ABORT succeeds exactly from STALLED, POLICY_VIOLATION or HUMAN_APPROVAL |
| `StateMachine.LegalPathEndsAtTerminal` | tests/test_invariants.py:38-53 | along a path of successful transitions no state before the last is terminal |
| `StateMachine.DemonstrationPath` | simulate.py:14-70 | the path INIT -> ... -> COMMIT is legal step by step, and COMMIT -> NEGOTIATING is refused as a terminal move |
| `Invariants.Tag` | engine/invariants.py:3-7 | S1, S2 and S3 have the tags INV_S1, INV_S2 and INV_S3 |
| `Invariants.TagsAreDistinct` | engine/invariants.py:3-7 | two ids have the same tag only when they are the same id, so a caller can branch on either |
| `Invariants.CheckTerminalAbsorption` | engine/invariants.py:9-23 | fails, with id S3, exactly when the previous state is terminal and differs from the next state |
| `Invariants.CheckUnauthorizedCommit` | engine/invariants.py:25-43 | fails, with id S1, exactly when the next state is COMMIT and both flags are false; never fails for another next state |
| `Invariants.CheckMonotonicity` | engine/invariants.py:45-69 | fails, with id S2, exactly when both mappings are given, both hold a unit price and the new price is strictly higher |
| `Invariants.FirstFailureIsEarliest` | engine/invariants.py:85-89 | the first-failure combinator passes exactly when every check passes, and a failure it reports is the earliest failing check |
| `Invariants.CheckAllInvariants` | engine/invariants.py:72-89 | the aggregate equals the first failure of the S3, S1 and S2 outcomes in that order; the extra emptiness guard in front of S2 changes nothing |
| `Invariants.CheckAllOrder` | engine/invariants.py:85-89 | the aggregate passes exactly when all three checks pass; otherwise it names S3 if S3 fails, else S1 if S1 fails, else S2 |
| `Invariants.LeavingTerminalIsS3` | engine/invariants.py:85 | leaving a terminal state for another state reports S3 whatever the flags and terms |
| `Invariants.EitherAuthorizationSuffices` | engine/invariants.py:39 | an approval alone, or an override alone, lets a commit pass S1 |
| `Invariants.NonIncreasingPricePasses` | engine/invariants.py:60-69 | an equal or lower price, a missing price or a missing mapping passes S2 |
| `Invariants.TerminalSelfMoveDisagreement` | engine/invariants.py:19-23 | a terminal self-move passes S3 and, with approval, the whole checker, while the state machine refuses it |
| `Invariants.TransitionCoversS3` | engine/state_machine.py:62-66 | every move S3 refuses is also refused by the state machine, as a terminal move |
| `Invariants.DocumentedScenarios` | tests/test_invariants.py:55-96 | the scenarios from the tests, with the mirrored passing cases: HUMAN_APPROVAL -> COMMIT without authorisation is S1 and with approval passes; price 0.90 -> 1.00 is S2, 0.90 -> 0.85 passes; COMMIT -> NEGOTIATING is S3 even with both flags |
| `Driver.NewContext` | engine/state_machine.py:76-84 | a new context keeps its id and starts in the non-terminal INIT state at round 0 |
| `Driver.Apply` | simulate.py:49-60 | a proposal is accepted exactly when the invariants pass and the transition is legal, and then yields its target, a listed successor; a violation is reported ahead of an illegal move; when the rules pass and the table refuses, the transition's own error is reported; nothing leaves a terminal state |
| `Driver.Advance` | simulate.py:16 | an accepted proposal writes only the new state into the context; a refused one reports the same rejection and changes nothing |
| `Driver.Run` | tests/test_invariants.py:46-53 | the trace has one state per proposal, each the previous state stepped by that proposal |
| `Driver.StepFromTerminal` | engine/state_machine.py:62-66 | from a terminal state a proposal never changes the state |
| `Driver.TerminalIsAbsorbing` | tests/test_invariants.py:38-53 | once a run reaches a terminal state, every later state equals it |
| `Driver.TerminalStartIsAbsorbing` | tests/test_invariants.py:38-53 | a run that starts in a terminal state stays in it at every step |
| `Driver.RunMovesAreChecked` | simulate.py:49-60 | each state of a run equals the previous one, or is reached by a legal transition whose proposal passed every rule |
| `Driver.RunCommitIsAuthorized` | engine/invariants.py:25-43 | a run enters COMMIT only from HUMAN_APPROVAL and only on a proposal with an approval or an override |
| `Driver.DemonstrationOpening` | simulate.py:14-27 | the first three moves of the demonstration are accepted |
| `Driver.DemonstrationRun` | simulate.py:14-70 | the demonstration run reaches CAPABILITY_DISCOVERY ... HUMAN_APPROVAL, COMMIT in turn, and the later attempt to reopen it is refused |

## Left out

- Exception classes and message text. A transition error records which guard fired. A violation records only its rule id.
- Unit prices are `real` values. The IEEE float behaviour of Python (NaN, rounding) is not modelled; the code only compares with `>`.
- Terms values are numbers only. The code's dictionaries could hold other values: two strings (or two lists or tuples) compare by Python's ordering, and mixed types raise `TypeError`. Neither is modelled.
- Volume monotonicity and other policy-driven rules. The docstrings mention them, but the code does not implement them.
- The redacted context fields and the unused imports.
- The demonstration script's printing. The script sets the round counter to 1, which the model does not track; `Driver.Advance` never changes the round.
- Driver.Apply: it checks the invariants on every proposal. The demonstration script calls the checker only before the commit step. Every other step of the script starts from a non-terminal state, has no terms and does not go to COMMIT, so all three rules pass there.
- The random generation of state sequences in the fuzz test. The model proves its property for every sequence of proposals instead.
