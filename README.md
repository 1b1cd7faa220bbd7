# fsa in Dafny

A model of the Go library `fsa`, which builds finite-state automata and runs them on strings. It has three automata:

- a deterministic automaton (`DFA`):
  - construction rejects undeclared final and edge states (the start state is not checked), symbols that are neither in the alphabet nor `ANY_SYMBOL`, and duplicate edges;
  - the cursor is a single state;
  - a symbol without an edge of its own may follow an edge on the wildcard symbol `ANY_SYMBOL`.
- a non-deterministic automaton (`NFA`):
  - construction rejects undeclared start and end states of edges, symbols that are neither in the alphabet nor `EPSILON`, and duplicate edges; the finals and the start state are not checked;
  - edges lead to shared, mutable state sets;
  - the cursor is a state set;
  - a step follows the edges on the symbol, then one layer of `EPSILON` edges;
  - a string is accepted only when the cursor holds every final state.
- the legacy `Automaton` of `fsa.go`:
  - construction does no validation, and later edges overwrite earlier ones;
  - a step needs the symbol in the alphabet;
  - there is no wildcard.

The supporting types are:

- the mutable `StateSet`;
- the edge and table-entry records;
- the `ExpressionSet` and `Language` types that feed a batch of strings to `DFA.AcceptsLanguage`.

## How it is structured

The project is split into modules:

| module | file | models |
|---|---|---|
| `Outcomes` | outcomes.dfy | `Option`, `Result` and `Halt` |
| `StateSets` | state.dfy | `state.go` |
| `Transitions` | delta.dfy | `delta.go` |
| `Languages` | language.dfy | `language.go` |
| `Dfa` | dfa.dfy | `dfa.go` |
| `Nfa` | nfa.dfy | `nfa.go` |
| `DeltaTypes` | legacy_delta.dfy | `delta/delta.go` |
| `Fsa` | fsa.dfy | `fsa.go` |
| `DfaExamples` | dfa_examples.dfy | the automata of `dfa_test.go` |
| `NfaExamples` | nfa_examples.dfy | the automaton of `nfa_test.go` |

Every Go type whose methods change it in place is a Dafny `class`, with `modifies` clauses on its methods.

Each automaton has specification functions:

- construction as `BuildTable`, `NBuildTable` or `TableOf`;
- the input walk as `Run`;
- acceptance as `AcceptsFrom`.

The class methods are proved against these functions. Their properties are proved as lemmas:

- construction succeeds exactly when every edge is valid and the keys are distinct;
- the built table holds exactly the edges' entries;
- the first failure decides the error;
- `Run` composes over concatenation;
- over a built table, the walk ends at its starting cursor or at declared states (the start state itself is never checked);
- when no edge is on `EPSILON`, a lifted DFA table makes the NFA walk the DFA walk;
- the legacy walk agrees with the DFA walk when every edge symbol is in the alphabet and none is the wildcard.

Each test automaton is built through the construction specification. The language the test claims for it is proved for every input.

Go errors are the payload-free `BuildError` values of an `Option` or `Result`. The error text is not modelled. Strings are sequences of characters, and one character stands for the one byte `behead` and `split` take.

## Model

| member | source | states |
|---|---|---|
| StateSets.StateSet.constructor | state.go:65-69 | A new state set is empty. |
| StateSets.StateSet.Contains | state.go:42-44 | The answer is true exactly when the state is in the set; a state never added reads as absent. |
| StateSets.StateSet.Add | state.go:28-30 | The state becomes a member and no other membership changes. |
| StateSets.StateSet.AddSlice | state.go:32-36 | The set grows by exactly the elements of the slice. |
| StateSets.StateSet.Remove | state.go:38-40 | The state is no longer a member and no other membership changes. |
| StateSets.StateSet.Subset | state.go:46-53 | The answer is true exactly when every member of this set is in the other one. |
| StateSets.StateSet.Superset | state.go:55-57 | The answer is true exactly when every member of the other set is in this one. |
| StateSets.StateSet.Union | state.go:59-63 | This set becomes the union of both sets. The argument set is not changed. |
| StateSets.NewStateSet | state.go:71-77 | The result is a fresh set holding exactly the states of the slice, with duplicates collapsed. |
| Transitions.DeltaOf | delta.go:61-70 | The entry's key is the edge's start state and symbol, and its next state is the edge's end state. |
| Transitions.NDeltaOf | delta.go:43-52 | The entry's key is the edge's start state and symbol. Its next field is the edge's own state-set object, not a copy. |
| Transitions.KeyEquality | delta.go:72-76 | Two keys are equal exactly when their states and their symbols are equal. |
| Languages.ExpressionSet.constructor | language.go:8-10 | A new expression set is empty. |
| Languages.ExpressionSet.Add | language.go:22-24 | The string becomes a member and no other membership changes. |
| Languages.ExpressionSet.Remove | language.go:26-28 | The string is no longer a member and no other membership changes. |
| Languages.ExpressionSet.Copy | language.go:30-36 | The result is a fresh set with the same strings. |
| Languages.ExpressionSet.Union | language.go:38-44 | The result is a fresh set holding the strings of both sets. Neither operand changes. |
| Languages.NewExpressionSet | language.go:12-20 | The result is a fresh set holding exactly the strings of the slice, and no error is ever reported. |
| Languages.Language.constructor | language.go:46-48 | A language holds the given expression set. |
| Languages.NewLanguage | language.go:50-59 | The language's strings are exactly those of the slice, and no error is ever reported. |
| Dfa.SentinelsDistinct | dfa.go:7 | The wildcard sentinel is different from the epsilon sentinel of delta.go:6. |
| Dfa.Behead | dfa.go:119-127 | Head and tail concatenate to the input. The head is empty only for the empty input, and is one character otherwise. |
| Dfa.StringsContains | dfa.go:129-136 | The answer is true exactly when the string occurs in the slice. |
| Dfa.BuildTableSnoc | dfa.go:53-57 | One more edge either keeps an earlier failure or goes through the checks of addDelta on the table built so far. |
| Dfa.SnocConditions | dfa.go:100-113 | Distinct keys and valid edges are decided one edge at a time. |
| Dfa.BuildTableOk | dfa.go:100-117 | The edges build a table exactly when every edge has a declared start and end and an admitted symbol, and no two edges share a key. |
| Dfa.BuildTableEntries | dfa.go:110-115 | A built table has exactly the edges' keys, and each key maps to its edge's end state. |
| Dfa.BuildTableKeys | dfa.go:110-115 | The keys of a built table are exactly the keys of the edges. |
| Dfa.BuildTableValues | dfa.go:110-115 | In a built table, each edge's key is present and maps to that edge's end state. |
| Dfa.BuildTableSize | dfa.go:110-115 | A built table has one entry per edge. |
| Dfa.BuildTableDeclared | dfa.go:100-117 | A built table holds only declared states and admitted symbols. |
| Dfa.BuildTableFirstFailure | dfa.go:53-57 | Once a prefix of the edges fails, the whole list fails with that same error. |
| Dfa.RunAppend | dfa.go:70-84 | Walking `u + v` is walking `u`, then walking `v` from where `u` stopped. A stuck walk stays stuck. |
| Dfa.RunStaysDeclared | dfa.go:141-153 | Over a built table, the walk ends at its starting cursor or at a declared state. |
| Dfa.NoFinalsRejectAll | dfa.go:71-73 | With no final states, no string is accepted, not even the empty one. |
| Dfa.DFA.constructor | dfa.go:38-46 | The new automaton holds the given fields and an empty table. |
| Dfa.DFA.Reset | dfa.go:62-65 | The cursor becomes the start state. |
| Dfa.DFA.AddDelta | dfa.go:98-117 | Checks the start state, then the end state, then the symbol (the alphabet or the wildcard), then for a duplicate key. On the first failing check it reports that error and leaves the table unchanged. Otherwise it inserts the edge's entry. |
| Dfa.DFA.TakeTransition | dfa.go:138-153 | The step succeeds exactly when the cursor has an edge on the symbol, and then moves along it. Otherwise the cursor stays. |
| Dfa.DFA.Accepts | dfa.go:67-84 | The result is acceptance, per the specification, from the cursor on entry: an exact edge first, then the wildcard edge. The cursor ends where the walk stopped. |
| Dfa.DFA.AcceptsFromStart | dfa.go:67-69 | The result is acceptance from the start state, as the documentation of Accepts states. |
| Dfa.DFA.AcceptsLanguage | dfa.go:86-96 | From the start state, the result is true exactly when every string of the language is accepted from the start state. On a rejection there is no reset: the cursor stays where the walk of a rejected string stopped. |
| Dfa.NewDFA | dfa.go:30-60 | The finals are checked first, then each edge in order, and the first failure is the result. On success the automaton is fresh, its table is exactly the specified one, its cursor is the start state, and its invariant holds. |
| DfaExamples.NothingBuilds | dfa_test.go:32-43 | The empty automaton builds. |
| DfaExamples.AcceptsNothing | dfa_test.go:44-55 | The automaton with no final states accepts no string. |
| DfaExamples.OnlyEmptyBuilds | dfa_test.go:57-80 | The one-wildcard-edge automaton builds with the expected table. |
| DfaExamples.AcceptsOnlyEmpty | dfa_test.go:81-93 | That automaton accepts exactly the empty string. |
| DfaExamples.BinaryBuilds | dfa_test.go:95-138 | The two-state binary automaton builds with the expected table. |
| DfaExamples.BinaryRun | dfa_test.go:95-138 | On a binary string, the walk from q1 or q2 is consumed. It ends at q1 after a final 0, at q2 after a final 1, and where it began on the empty string. |
| DfaExamples.NonBinaryStuck | dfa_test.go:151-157 | A string with a non-binary symbol leaves the walk stuck. |
| DfaExamples.AcceptsEvenBinary | dfa_test.go:139-150 | A binary string is accepted exactly when it is empty or ends in 0. |
| DfaExamples.RejectsNonBinary | dfa_test.go:151-157 | A string with a non-binary symbol is rejected. |
| DfaExamples.EvenBuilds | dfa_test.go:161-195 | The wildcard cycle automaton builds with the expected table. |
| DfaExamples.EvenRun | dfa_test.go:161-195 | From q1 or q2, the walk alternates between the two states, one per symbol. |
| DfaExamples.AcceptsEvenLength | dfa_test.go:196-208 | A string is accepted exactly when its length is even. |
| DfaExamples.AcceptsEvenLanguage | dfa_test.go:210-269 | Every string of a language is accepted exactly when every string in it has even length. |
| DfaExamples.BuildStep | dfa_test.go:271-312 | Adding one valid edge with a new key to a known table extends that table. |
| DfaExamples.OddBuilds | dfa_test.go:271-312 | The four-state wildcard cycle builds with the expected table. |
| DfaExamples.OddRun | dfa_test.go:271-312 | From the i-th state of the cycle, a walk over w ends at state (i + \|w\|) mod 4. |
| DfaExamples.AcceptsOddLength | dfa_test.go:313-324 | A string is accepted exactly when its length is odd. |
| DfaExamples.OddCursorCarriesOver | dfa_test.go:313-324 | After "a" is accepted from the start state, a second "a" is walked from q1 and rejected. |
| Nfa.EdgesOf | nfa.go:54-76 | Each edge becomes a value edge: its start state, its symbol, and the current contents of its end set. |
| Nfa.NBuildTableSnoc | nfa.go:56-74 | One more edge either keeps an earlier failure or goes through the checks of addDeltas on the table built so far. |
| Nfa.NSnocConditions | nfa.go:57-72 | Distinct keys and valid edges are decided one edge at a time. |
| Nfa.NBuildTableOk | nfa.go:54-76 | The edges build a table exactly when every edge has a declared start, all its end states declared, and a symbol in the alphabet or epsilon, and no two edges share a key. |
| Nfa.NBuildTableEntries | nfa.go:68-73 | A built table has exactly the edges' keys, and each key maps to its edge's end set. |
| Nfa.NBuildTableKeys | nfa.go:68-73 | The keys of a built table are exactly the keys of the edges. |
| Nfa.NBuildTableValues | nfa.go:68-73 | In a built table, each edge's key is present and maps to that edge's end set. |
| Nfa.NBuildTableDeclared | nfa.go:54-76 | A built table holds only declared states and admitted symbols. |
| Nfa.NBuildTableFirstFailure | nfa.go:56-74 | Once a prefix of the edges fails, the whole list fails with that same error. |
| Nfa.WildcardNeedsAlphabet | nfa.go:65-67 | Unlike addDelta, an edge on the wildcard fails construction unless the wildcard is itself in the alphabet. |
| Nfa.SuccessorsAdd | nfa.go:80-88 | The successors of a set with one more state are the old successors plus that state's targets. |
| Nfa.SuccessorsMonotonic | nfa.go:80-88 | More states have at least the same successors. |
| Nfa.NextStatesWithinClosure | nfa.go:89-98 | A step lies within every epsilon-closed set that holds the plain successors. |
| Nfa.NextStatesDeclared | nfa.go:78-100 | Over a table of declared states, a step leads only to declared states. |
| Nfa.RunAppend | nfa.go:38-52 | Walking `u + v` is walking `u`, then walking `v` from where `u` stopped. |
| Nfa.RunStaysDeclared | nfa.go:38-52 | Over a built table, the cursor holds only the states it started with or declared states. |
| Nfa.NoFinalsAcceptConsumed | nfa.go:40-42 | With no final states, every input that is consumed is accepted. |
| Nfa.LiftRun | nfa.go:38-52 | On a deterministic table with no epsilon keys, the NFA walk from {q} is the DFA walk from q, one singleton at a time. |
| Nfa.LiftStep | nfa.go:78-100 | On such a table, a step from {q} is the singleton of q's edge, or empty. |
| Nfa.LiftAccepts | nfa.go:40-42 | On such a table, the NFA accepts exactly when the DFA walk is consumed and every final state is the state it reached. |
| Nfa.LiftAcceptsOneFinal | nfa.go:40-42 | With one final state, NFA and DFA acceptance agree on such a table. |
| Nfa.LiftRejectsTwoFinals | nfa.go:40-42 | With two distinct final states, NFA acceptance rejects every input on such a table. |
| Nfa.ReadUpdate | nfa.go:73 | Storing an edge's set object under a key is the table value updated with that set's contents. |
| Nfa.StoredEntries | nfa.go:68-73 | When no two edges share a key, each edge's key maps to that edge's own set object in the stored table. |
| Nfa.StoredOnSuccess | nfa.go:68-73 | When construction succeeds, each edge's key maps to that edge's own set object in the stored table. |
| Nfa.ReadStored | nfa.go:54-76 | When construction succeeds, the contents of the stored table are the specified table. |
| Nfa.StoredStep | nfa.go:56-74 | One pass of the loop: the next edge's checks run against the stored table read as values, and on success the edge's own set object is stored under its key. |
| Nfa.FailureOf | nfa.go:54-76 | No error is reported exactly when construction succeeds. |
| Nfa.NFA.constructor | nfa.go:17-24 | The new automaton holds the given fields, an empty table and a fresh cursor. |
| Nfa.NFA.Reset | nfa.go:33-36 | The cursor becomes a fresh set holding exactly the start state. |
| Nfa.NFA.AddDeltas | nfa.go:54-76 | The table is replaced. The result is the first failure of the specification, or else a table equal to the specified one whose entries are the edges' own set objects. |
| Nfa.NFA.AddDelta | nfa.go:56-74 | The checks of one edge, in the source's order: start, end states, symbol (alphabet or epsilon), duplicate key. The error is the specification's first failure for that edge. The table gains the edge's entry on success and is unchanged otherwise. |
| Nfa.NFA.EndsDeclared | nfa.go:60-64 | The answer is true exactly when every end state is declared. |
| Nfa.NFA.NextStates | nfa.go:78-100 | A fresh set holding the cursor's successors on the symbol plus one layer of their epsilon successors. |
| Nfa.NFA.MergeTargets | nfa.go:80-98 | The set gains exactly the targets on the symbol of every state in the given set. |
| Nfa.NFA.TakeTransition | nfa.go:102-110 | The step succeeds exactly when it leads somewhere, and then the cursor is that fresh set. Otherwise the cursor stays. |
| Nfa.NFA.Accepts | nfa.go:38-52 | The result is acceptance, per the specification, from the cursor on entry: exact symbol first, then the wildcard. Every final state must be reached. The cursor ends where the walk stopped. |
| Nfa.NewEmptyNFA | nfa.go:17-25 | A fresh automaton over fresh sets of exactly the declared and final states, with the given alphabet and start, an empty table and the cursor {start}. |
| Nfa.NewNFA | nfa.go:11-31 | The result is the first construction failure for the edges as they read on entry, or else a fresh automaton with exactly the specified table, shared edge objects, cursor {start} and its invariant. |
| NfaExamples.BuildStep | nfa_test.go:56-61 | Adding one valid edge with a new key to a known table extends that table. |
| NfaExamples.HalfBuilds | nfa_test.go:19-40 | The first four edges of the test build the first four entries of its table. |
| NfaExamples.TestBuilds | nfa_test.go:8-64 | The test's seven edges build the expected table. |
| NfaExamples.FromAccepting | nfa_test.go:66-78 | Once the cursor holds q4, a string is accepted exactly when it is binary. |
| NfaExamples.FromPrefix | nfa_test.go:66-78 | From each reachable cursor, a binary string is accepted exactly when it completes the pattern. |
| NfaExamples.AcceptsTestLanguage | nfa_test.go:66-78 | From {q1}, a string is accepted exactly when it is binary and contains 11 or 101. |
| NfaExamples.WalkRun | nfa_test.go:82-88 | Over the six reachable cursors, a string is accepted exactly when the cursor walk consumes it and ends on a cursor holding q4. |
| NfaExamples.TestAccepts101 | nfa_test.go:70 | "101" is accepted. |
| NfaExamples.TestAccepts000101 | nfa_test.go:71 | "000101" is accepted. |
| NfaExamples.TestAccepts00101 | nfa_test.go:72 | "00101" is accepted. |
| NfaExamples.TestAccepts0011 | nfa_test.go:73 | "0011" is accepted. |
| NfaExamples.TestRejects0000 | nfa_test.go:74 | "0000" is rejected. |
| NfaExamples.TestRejects100100100 | nfa_test.go:75 | "100100100" is rejected. |
| NfaExamples.TestAccepts1001010100100 | nfa_test.go:76 | "1001010100100" is accepted. |
| NfaExamples.TestAccepts111111111111 | nfa_test.go:77 | "111111111111" is accepted. |
| Fsa.TableKeys | fsa.go:23-29 | The table's keys are exactly the triggers of the deltas. |
| Fsa.LastWriteWins | fsa.go:23-29 | A delta whose trigger no later delta repeats decides that trigger's entry. |
| Fsa.DuplicateOverwrites | fsa.go:28 | For two deltas on one trigger, the later end state is the one kept. |
| Fsa.Split | fsa.go:50-55 | Head and tail concatenate to the input. The head is empty only for the empty input. |
| Fsa.SplitIsBehead | fsa.go:50-55 | `split` and `behead` are the same function. |
| Fsa.RunAppend | fsa.go:38-48 | Walking `u + v` is walking `u`, then walking `v` from where `u` stopped. |
| Fsa.UnknownSymbolStops | fsa.go:66-78 | A symbol outside the alphabet stops the walk even when the table has an edge for it. |
| Fsa.AgreesWithDfa | fsa.go:38-48 | When every edge symbol is in the alphabet and none is the wildcard, the legacy walk is the DFA walk. |
| Fsa.Automaton.constructor | fsa.go:17-22 | The new automaton holds the given fields and an empty table. |
| Fsa.Automaton.Reset | fsa.go:34-36 | The cursor becomes the start state. |
| Fsa.Automaton.InFinalState | fsa.go:57-64 | The answer is true exactly when the cursor is one of the finals. |
| Fsa.Automaton.Recognizes | fsa.go:80-87 | The answer is true exactly when the symbol is in the alphabet. |
| Fsa.Automaton.TakeTransition | fsa.go:66-78 | The step succeeds exactly when the symbol is in the alphabet and the cursor has an edge on it, and then moves along it. Otherwise the cursor stays. |
| Fsa.Automaton.Accepts | fsa.go:38-48 | The result is acceptance, per the legacy specification, from the cursor on entry. The cursor ends where the walk stopped. |
| Fsa.NewAutomaton | fsa.go:16-32 | The result is a fresh automaton whose table is the last-write-wins table of the deltas, with the cursor at the start state. |

## Left out

- Error messages: each Go error is a `BuildError` constant, without its formatted text.
- `String` methods and `NewState` (the `q%d` naming) are not modelled. States are opaque labels.
- Bytes and characters: `behead` and `split` take the first byte, while the model takes the first character. The two differ only on non-ASCII input.
- Map iteration order: Go visits map keys in an unspecified order. The model proves results that hold for every order, and loops choose elements with `:|`.
- Nfa.NFA.NextStates: the epsilon pass is modelled as exactly one layer over the successors found before the pass. Go's `range` over a map that grows during the loop may or may not visit the added keys, so the source can add more than one layer. The model states the one-layer result.
- nfa.go embeds `Automaton` with the fields of `AutomatonBase` in a literal without a type name. The model gives `NFA` the fields of `AutomatonBase`, which the code reads.
- Nfa.NFA.constructor: the source leaves the NFA table and cursor nil until `Reset` and `addDeltas` replace them. The model starts them empty.
- Nfa.NFA.AddDelta and Nfa.NFA.EndsDeclared are the loop body of `addDeltas`, split into methods of their own. Nfa.NFA.MergeTargets is the body shared by the two loops of `nextStates`.
- The gopter properties and the language generators of the tests are not modelled as generators. Their claims are stated as lemmas over every input, from the start state.
- The NFA test strings are stated on the specification table rather than on an `NFA` object.
- `fsa_test.go` calls `NewAutomaton` with a signature different from fsa.go, so it is not part of this model.
- Languages.NewExpressionSet and Languages.NewLanguage: the error they return is always nil and is modelled as a `false` flag.

## Findings

| source | as written | input that shows it | evidently intended | confidence | as-written member | corrected member |
|---|---|---|---|---|---|---|
| dfa.go:67-84 | `Accepts` walks from the cursor the previous call left; only `Reset` restores the start state. The DFA tests in dfa_test.go call it repeatedly with no `Reset`. | The odd-length automaton of dfa_test.go:271-324: `Accepts("a")` returns true, then a second `Accepts("a")` returns false. | Each call walks from the start state, as the comment at dfa.go:67-69 says. | medium, not executed | DfaExamples.OddCursorCarriesOver | Dfa.DFA.AcceptsFromStart |
