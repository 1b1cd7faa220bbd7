/** The record types of delta/delta.go that the legacy automaton uses. */
module DeltaTypes {
  /** A state label; its textual form is opaque. */
  type State = string

  /** One edge of the legacy automaton. */
  datatype Delta = Delta(startState: State, token: string, endState: State)

  /** The table key of the legacy automaton. */
  datatype Trigger = Trigger(state: State, token: string)
}
