/** Edges, table keys and table entries of delta.go. */
module Transitions {
  import opened StateSets

  /** An input symbol. Symbols are plain strings, so the sentinels below can
      also appear in a caller's alphabet. */
  type Token = string

  /** The sentinel symbol of a transition that consumes no input. */
  const Epsilon: Token := "EPSILON"

  /** The argument of a transition table: a state and a symbol. */
  datatype StateTokenPair = StateTokenPair(state: State, token: Token)

  /** A deterministic table entry. */
  datatype Delta = Delta(key: StateTokenPair, next: State)

  /** A non-deterministic table entry; `next` is a reference to a state set. */
  datatype NDelta = NDelta(key: StateTokenPair, next: StateSet)

  /** A deterministic table: at most one state per key. */
  type Deltas = map<StateTokenPair, State>

  /** A non-deterministic table: at most one state-set object per key. */
  type NDeltas = map<StateTokenPair, StateSet>

  /** An edge from `start` to `end` on `token`. */
  datatype Transition = Transition(start: State, token: Token, end: State)

  /** An edge from `start` to every state of `end` on `token`. */
  datatype NTransition = NTransition(start: State, token: Token, end: StateSet)

  /** The ways construction of an automaton can fail. */
  datatype BuildError =
    | FinalNotFound     // a final state is not a declared state
    | StartNotFound     // an edge leaves an undeclared state
    | EndNotFound       // an edge enters an undeclared state
    | TokenNotFound     // an edge's symbol is not admitted by the alphabet
    | DuplicateDelta    // two edges share a (state, symbol) key

  /** The table entry an edge contributes: keyed by its start and symbol. */
  function DeltaOf(t: Transition): (d: Delta)
    ensures d.key.state == t.start && d.key.token == t.token
    ensures d.next == t.end
  {
    Delta(StateTokenPair(t.start, t.token), t.end)
  }

  /** The table entry of a non-deterministic edge. Its `next` is the very
      object the edge holds, shared and not copied. */
  function NDeltaOf(n: NTransition): (d: NDelta)
    ensures d.key.state == n.start && d.key.token == n.token
    ensures d.next == n.end
  {
    NDelta(StateTokenPair(n.start, n.token), n.end)
  }

  /** Two keys are equal exactly when their states and their symbols are.
      A sanity fact about the key type, which Go compares field by field. */
  lemma KeyEquality(a: StateTokenPair, b: StateTokenPair)
    ensures a == b <==> a.state == b.state && a.token == b.token
  {
  }
}
