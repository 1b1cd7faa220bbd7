/** Small value types shared by the automaton modules. */
module Outcomes {

  datatype Option<T> = None | Some(value: T)

  /** A construction that either yields a value or fails with an error. */
  datatype Result<T, E> = Ok(value: T) | Err(error: E)

  /** Where a walk over an input string ends: either every symbol was
      consumed and the cursor is `at`, or no transition applied to the next
      symbol and the cursor stayed at `at`. */
  datatype Halt<C> = Consumed(at: C) | Stuck(at: C)
}
