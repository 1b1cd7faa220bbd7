/** The deterministic automaton of dfa.go: validated construction, a
    single-state cursor, and acceptance with a wildcard fallback. */
module Dfa {
  import opened Outcomes
  import opened StateSets
  import opened Transitions
  import opened Languages

  /** The wildcard sentinel: an edge on it applies to any input symbol that
      has no edge of its own. */
  const AnySymbol: Token := "ANY_SYMBOL"

  /** A sanity fact about the constants: the wildcard sentinel cannot be
      mistaken for the epsilon sentinel. */
  lemma SentinelsDistinct()
    ensures Epsilon != AnySymbol
  {
  }

  /** Splits off the first symbol: the head is empty only for the empty
      string, and otherwise is exactly one character. */
  function Behead(s: string): (r: (string, string))
    ensures r.0 + r.1 == s
    ensures |r.0| == if s == [] then 0 else 1
  {
    if |s| < 2 then (s, "") else (s[..1], s[1..])
  }

  /** Linear search of a slice of strings. */
  method StringsContains(ss: seq<string>, s: string) returns (b: bool)
    ensures b <==> s in ss
  {
    for i := 0 to |ss|
      invariant s !in ss[..i]
    {
      if ss[i] == s {
        return true;
      }
    }
    return false;
  }

  // ---------------------------------------------------------------------
  // Construction, as a specification

  /** The key an edge occupies in the table. */
  function Key(t: Transition): StateTokenPair
  {
    DeltaOf(t).key
  }

  /** The checks addDelta makes, in its order, before inserting `t`. */
  function AddDeltaSpec(declared: set<State>, alphabet: seq<Token>, table: Deltas, t: Transition)
    : Result<Deltas, BuildError>
  {
    if t.start !in declared then Err(StartNotFound)
    else if t.end !in declared then Err(EndNotFound)
    else if t.token !in alphabet && t.token != AnySymbol then Err(TokenNotFound)
    else if Key(t) in table then Err(DuplicateDelta)
    else Ok(table[Key(t) := DeltaOf(t).next])
  }

  /** The table built from the edges in order, or the first failure. */
  function BuildTable(declared: set<State>, alphabet: seq<Token>, ts: seq<Transition>)
    : Result<Deltas, BuildError>
    decreases |ts|
  {
    if ts == [] then Ok(map[])
    else match BuildTable(declared, alphabet, ts[..|ts| - 1])
      case Err(e) => Err(e)
      case Ok(m) => AddDeltaSpec(declared, alphabet, m, ts[|ts| - 1])
  }

  /** NewDFA as a specification: the final states are checked first, then
      the edges. The start state is not checked. */
  function Build(states: seq<State>, alphabet: seq<Token>, ts: seq<Transition>, finals: seq<State>)
    : Result<Deltas, BuildError>
  {
    if !(Elements(finals) <= Elements(states)) then Err(FinalNotFound)
    else BuildTable(Elements(states), alphabet, ts)
  }

  /** An edge every check of addDelta except the duplicate check admits. */
  predicate EdgeValid(declared: set<State>, alphabet: seq<Token>, t: Transition)
  {
    t.start in declared && t.end in declared && (t.token in alphabet || t.token == AnySymbol)
  }

  predicate KeysDistinct(ts: seq<Transition>)
  {
    forall i, j :: 0 <= i < j < |ts| ==> Key(ts[i]) != Key(ts[j])
  }

  function Keys(ts: seq<Transition>): set<StateTokenPair>
  {
    set t | t in ts :: Key(t)
  }

  /** A table over declared states whose symbols the alphabet admits. */
  ghost predicate TableDeclared(declared: set<State>, alphabet: seq<Token>, table: Deltas)
  {
    forall k :: k in table ==>
      k.state in declared && table[k] in declared && (k.token in alphabet || k.token == AnySymbol)
  }

  /** One more edge: the table of `ts + [t]` is the table of `ts` with `t`
      added by the checks of addDelta. */
  lemma BuildTableSnoc(declared: set<State>, alphabet: seq<Token>, ts: seq<Transition>, t: Transition)
    ensures BuildTable(declared, alphabet, ts).Err? ==>
      BuildTable(declared, alphabet, ts + [t]) == BuildTable(declared, alphabet, ts)
    ensures BuildTable(declared, alphabet, ts).Ok? ==>
      BuildTable(declared, alphabet, ts + [t]) == AddDeltaSpec(declared, alphabet, BuildTable(declared, alphabet, ts).value, t)
  {
    assert (ts + [t])[..|ts + [t]| - 1] == ts;
  }

  predicate AllValid(declared: set<State>, alphabet: seq<Token>, ts: seq<Transition>)
  {
    forall i :: 0 <= i < |ts| ==> EdgeValid(declared, alphabet, ts[i])
  }

  /** Distinct keys and valid edges, one edge at a time. */
  lemma SnocConditions(declared: set<State>, alphabet: seq<Token>, init: seq<Transition>, last: Transition)
    ensures KeysDistinct(init + [last]) <==> KeysDistinct(init) && Key(last) !in Keys(init)
    ensures AllValid(declared, alphabet, init + [last]) <==>
      AllValid(declared, alphabet, init) && EdgeValid(declared, alphabet, last)
  {
    var ts := init + [last];
    if KeysDistinct(ts) {
      assert forall i, j :: 0 <= i < j < |init| ==> Key(init[i]) == Key(ts[i]) && Key(init[j]) == Key(ts[j]);
      forall t | t in init ensures Key(t) != Key(last) {
        var i :| 0 <= i < |init| && init[i] == t;
        assert ts[i] == t && ts[|init|] == last;
      }
    }
    if KeysDistinct(init) && Key(last) !in Keys(init) {
      forall i, j | 0 <= i < j < |ts| ensures Key(ts[i]) != Key(ts[j]) {
        if j < |init| {
          assert ts[i] == init[i] && ts[j] == init[j];
        } else {
          assert ts[i] in init;
        }
      }
    }
    assert forall i :: 0 <= i < |init| ==> ts[i] == init[i];
    assert ts[|init|] == last;
    if AllValid(declared, alphabet, init) && EdgeValid(declared, alphabet, last) {
      forall i | 0 <= i < |ts| ensures EdgeValid(declared, alphabet, ts[i]) {
        if i < |init| {
          assert ts[i] == init[i];
        }
      }
    }
  }

  /** Construction succeeds exactly when every edge is valid and no two
      edges share a key. */
  lemma {:induction false} BuildTableOk(declared: set<State>, alphabet: seq<Token>, ts: seq<Transition>)
    ensures BuildTable(declared, alphabet, ts).Ok? <==> AllValid(declared, alphabet, ts) && KeysDistinct(ts)
  {
    if ts != [] {
      var init, last := ts[..|ts| - 1], ts[|ts| - 1];
      assert ts == init + [last];
      BuildTableSnoc(declared, alphabet, init, last);
      SnocConditions(declared, alphabet, init, last);
      BuildTableOk(declared, alphabet, init);
      if BuildTable(declared, alphabet, init).Ok? {
        BuildTableEntries(declared, alphabet, init);
      }
    }
  }

  /** A successfully built table has exactly the keys of the edges, and
      maps each edge's key to that edge's end. */
  lemma {:induction false} BuildTableEntries(declared: set<State>, alphabet: seq<Token>, ts: seq<Transition>)
    requires BuildTable(declared, alphabet, ts).Ok?
    ensures BuildTable(declared, alphabet, ts).value.Keys == Keys(ts)
    ensures forall i :: 0 <= i < |ts| ==> BuildTable(declared, alphabet, ts).value[Key(ts[i])] == ts[i].end
  {
    BuildTableKeys(declared, alphabet, ts);
    BuildTableValues(declared, alphabet, ts);
  }

  /** The keys of a built table are exactly the edges' keys. */
  lemma {:induction false} BuildTableKeys(declared: set<State>, alphabet: seq<Token>, ts: seq<Transition>)
    requires BuildTable(declared, alphabet, ts).Ok?
    ensures BuildTable(declared, alphabet, ts).value.Keys == Keys(ts)
  {
    if ts != [] {
      var init, last := ts[..|ts| - 1], ts[|ts| - 1];
      assert ts == init + [last];
      BuildTableSnoc(declared, alphabet, init, last);
      BuildTableKeys(declared, alphabet, init);
      assert Keys(ts) == Keys(init) + {Key(last)};
    }
  }

  /** Each edge's key maps to that edge's target in a built table. */
  lemma {:induction false} BuildTableValues(declared: set<State>, alphabet: seq<Token>, ts: seq<Transition>)
    requires BuildTable(declared, alphabet, ts).Ok?
    ensures forall i :: 0 <= i < |ts| ==> Key(ts[i]) in BuildTable(declared, alphabet, ts).value
    ensures forall i :: 0 <= i < |ts| ==> BuildTable(declared, alphabet, ts).value[Key(ts[i])] == ts[i].end
  {
    if ts != [] {
      var init, last := ts[..|ts| - 1], ts[|ts| - 1];
      assert ts == init + [last];
      BuildTableSnoc(declared, alphabet, init, last);
      var m := BuildTable(declared, alphabet, init).value;
      BuildTableValues(declared, alphabet, init);
      var m' := m[Key(last) := last.end];
      assert BuildTable(declared, alphabet, ts).value == m';
      forall i | 0 <= i < |init|
        ensures Key(ts[i]) in m' && m'[Key(ts[i])] == ts[i].end
      {
        assert ts[i] == init[i];
      }
    }
  }

  /** A successfully built table has one entry per edge. */
  lemma {:induction false} BuildTableSize(declared: set<State>, alphabet: seq<Token>, ts: seq<Transition>)
    requires BuildTable(declared, alphabet, ts).Ok?
    ensures |BuildTable(declared, alphabet, ts).value| == |ts|
  {
    if ts != [] {
      var init, last := ts[..|ts| - 1], ts[|ts| - 1];
      assert ts == init + [last];
      BuildTableSnoc(declared, alphabet, init, last);
      var m := BuildTable(declared, alphabet, init).value;
      BuildTableSize(declared, alphabet, init);
      assert Key(last) !in m;
      var m' := m[Key(last) := last.end];
      assert BuildTable(declared, alphabet, ts).value == m';
      assert m'.Keys == m.Keys + {Key(last)};
    }
  }

  /** A successfully built table holds declared states and admitted symbols only. */
  lemma {:induction false} BuildTableDeclared(declared: set<State>, alphabet: seq<Token>, ts: seq<Transition>)
    requires BuildTable(declared, alphabet, ts).Ok?
    ensures TableDeclared(declared, alphabet, BuildTable(declared, alphabet, ts).value)
  {
    if ts != [] {
      var init, last := ts[..|ts| - 1], ts[|ts| - 1];
      assert ts == init + [last];
      BuildTableSnoc(declared, alphabet, init, last);
      var m := BuildTable(declared, alphabet, init).value;
      BuildTableDeclared(declared, alphabet, init);
      assert EdgeValid(declared, alphabet, last);
      assert BuildTable(declared, alphabet, ts).value == m[Key(last) := last.end];
    }
  }

  /** Construction is all-or-nothing and reports the first offending edge:
      once a prefix fails, every extension fails with the same error. */
  lemma {:induction false} BuildTableFirstFailure(declared: set<State>, alphabet: seq<Token>, ts: seq<Transition>, n: nat)
    requires n <= |ts|
    requires BuildTable(declared, alphabet, ts[..n]).Err?
    ensures BuildTable(declared, alphabet, ts) == BuildTable(declared, alphabet, ts[..n])
    decreases |ts| - n
  {
    if n < |ts| {
      assert ts[..n + 1][..n] == ts[..n];
      BuildTableFirstFailure(declared, alphabet, ts, n + 1);
    } else {
      assert ts[..n] == ts;
    }
  }

  // ---------------------------------------------------------------------
  // Acceptance, as a specification

  /** The walk Accepts performs from cursor `q`: each step consumes one
      symbol, taking the exact edge if there is one and the wildcard edge
      otherwise; with neither, the walk is stuck where it is. */
  function Run(table: Deltas, q: State, w: string): Halt<State>
    decreases |w|
  {
    if w == [] then Consumed(q)
    else if StateTokenPair(q, w[..1]) in table then Run(table, table[StateTokenPair(q, w[..1])], w[1..])
    else if StateTokenPair(q, AnySymbol) in table then Run(table, table[StateTokenPair(q, AnySymbol)], w[1..])
    else Stuck(q)
  }

  /** `w` is accepted from `q`: consumed entirely, ending in a final state. */
  predicate AcceptsFrom(table: Deltas, finals: set<State>, q: State, w: string)
  {
    Run(table, q, w).Consumed? && Run(table, q, w).at in finals
  }

  /** Running on `u + v` is running on `u`, then on `v` from where `u` ended. */
  lemma {:induction false} RunAppend(table: Deltas, q: State, u: string, v: string)
    ensures Run(table, q, u + v) ==
      match Run(table, q, u)
      case Consumed(p) => Run(table, p, v)
      case Stuck(p) => Stuck(p)
    decreases |u|
  {
    if u != [] {
      assert (u + v)[..1] == u[..1];
      assert (u + v)[1..] == u[1..] + v;
      var k, wild := StateTokenPair(q, u[..1]), StateTokenPair(q, AnySymbol);
      if k in table {
        RunAppend(table, table[k], u[1..], v);
      } else if wild in table {
        RunAppend(table, table[wild], u[1..], v);
      }
    } else {
      assert u + v == v;
    }
  }

  /** Over a table of declared states, a walk never leaves the declared
      states except by staying at its starting cursor. */
  lemma {:induction false} RunStaysDeclared(table: Deltas, declared: set<State>, alphabet: seq<Token>, q: State, w: string)
    requires TableDeclared(declared, alphabet, table)
    ensures Run(table, q, w).at == q || Run(table, q, w).at in declared
    decreases |w|
  {
    if w != [] {
      var k, wild := StateTokenPair(q, w[..1]), StateTokenPair(q, AnySymbol);
      if k in table {
        RunStaysDeclared(table, declared, alphabet, table[k], w[1..]);
      } else if wild in table {
        RunStaysDeclared(table, declared, alphabet, table[wild], w[1..]);
      }
    }
  }

  /** With no final states nothing is accepted, not even the empty string. */
  lemma NoFinalsRejectAll(table: Deltas, q: State, w: string)
    ensures !AcceptsFrom(table, {}, q, w)
  {
  }

  // ---------------------------------------------------------------------
  // The automaton

  class DFA {
    // The fields of AutomatonBase.
    var states: StateSet
    var alphabet: seq<Token>
    var start: State
    var finals: StateSet
    // The table and the cursor.
    var deltas: Deltas
    var current: State

    /** What construction establishes and every cursor move keeps: the
        finals and the table are over declared states, and the cursor is
        the start state or a declared state. */
    ghost predicate Valid()
      reads this, states, finals
    {
      && finals.states <= states.states
      && TableDeclared(states.states, alphabet, deltas)
      && (current == start || current in states.states)
    }

    /** The struct literal of NewDFA: an empty table and the cursor at its
        zero value until Reset. */
    constructor (states: StateSet, alphabet: seq<Token>, start: State, finals: StateSet)
      ensures this.states == states && this.alphabet == alphabet && this.start == start
      ensures this.finals == finals
      ensures deltas == map[] && current == ""
    {
      this.states := states;
      this.alphabet := alphabet;
      this.start := start;
      this.finals := finals;
      deltas := map[];
      current := "";
    }

    method Reset()
      modifies this`current
      ensures current == start
      ensures old(Valid()) ==> Valid()
    {
      current := start;
    }

    /** Validates `t` and adds its entry; on failure the table is unchanged. */
    method AddDelta(t: Transition) returns (err: Option<BuildError>)
      modifies this`deltas
      ensures match AddDeltaSpec(states.states, alphabet, old(deltas), t)
        case Ok(m) => err == None && deltas == m
        case Err(e) => err == Some(e) && deltas == old(deltas)
    {
      if !states.Contains(t.start) {
        return Some(StartNotFound);
      }
      if !states.Contains(t.end) {
        return Some(EndNotFound);
      }
      var known := StringsContains(alphabet, t.token);
      if !known && t.token != AnySymbol {
        return Some(TokenNotFound);
      }
      var d := DeltaOf(t);
      if d.key in deltas {
        return Some(DuplicateDelta);
      }
      deltas := deltas[d.key := d.next];
      return None;
    }

    /** Moves the cursor along the edge on `s`, if there is one; otherwise
        reports failure and leaves the cursor where it is. */
    method TakeTransition(s: Token) returns (ok: bool)
      modifies this`current
      ensures ok <==> StateTokenPair(old(current), s) in deltas
      ensures current == if ok then deltas[StateTokenPair(old(current), s)] else old(current)
      ensures old(Valid()) ==> Valid()
    {
      var stp := StateTokenPair(current, s);
      if stp in deltas {
        current := deltas[stp];
        return true;
      }
      return false;
    }

    /** Consumes `s` from the current cursor (without resetting first) and
        reports whether it ends in a final state; the cursor is left where
        the walk stopped. */
    method Accepts(s: string) returns (b: bool)
      modifies this`current
      ensures b == AcceptsFrom(deltas, finals.states, old(current), s)
      ensures current == Run(deltas, old(current), s).at
      ensures old(Valid()) ==> Valid()
      decreases |s|
    {
      var (head, tail) := Behead(s);
      if |head| == 0 {
        return finals.Contains(current);
      }
      assert head == s[..1] && tail == s[1..];
      var ok := TakeTransition(head);
      if ok {
        b := Accepts(tail);
        return;
      }
      ok := TakeTransition(AnySymbol);
      if ok {
        b := Accepts(tail);
        return;
      }
      return false;
    }

    /** Acceptance as the documentation of Accepts describes it: the walk
        starts at the start state whatever an earlier call left behind. */
    method AcceptsFromStart(s: string) returns (b: bool)
      modifies this`current
      ensures b == AcceptsFrom(deltas, finals.states, start, s)
      ensures current == Run(deltas, start, s).at
      ensures old(Valid()) ==> Valid()
    {
      Reset();
      b := Accepts(s);
    }

    /** Tests every string of the language, resetting after each accepted
        one and stopping at the first rejection. From the start state it
        accepts exactly when every string is accepted from the start state;
        on a rejection the cursor stays where that string's walk stopped. */
    method AcceptsLanguage(l: Language) returns (b: bool)
      modifies this`current
      ensures old(current) == start ==>
        (b <==> forall w :: w in l.expressions.expressions ==> AcceptsFrom(deltas, finals.states, start, w))
      ensures b ==> current == if l.expressions.expressions == {} then old(current) else start
      ensures old(current) == start && !b ==>
        exists w :: w in l.expressions.expressions && !AcceptsFrom(deltas, finals.states, start, w)
          && current == Run(deltas, start, w).at
      ensures old(Valid()) ==> Valid()
    {
      var all := l.expressions.expressions;
      var rest := all;
      while rest != {}
        invariant rest <= all
        invariant current == if rest == all then old(current) else start
        invariant old(current) == start ==>
          forall w :: w in all && w !in rest ==> AcceptsFrom(deltas, finals.states, start, w)
        invariant old(Valid()) ==> Valid()
        decreases rest
      {
        var w :| w in rest;
        var ok := Accepts(w);
        if !ok {
          return false;
        }
        Reset();
        rest := rest - {w};
      }
      return true;
    }
  }

  /** Builds a DFA: the declared and final state sets, then the finals are
      validated, then every edge in order; the first failure aborts and no
      automaton is returned. On success the cursor is at the start state. */
  method NewDFA(states: seq<State>, alphabet: seq<Token>, start: State, transitions: seq<Transition>, finals: seq<State>)
    returns (r: Result<DFA, BuildError>)
    ensures match Build(states, alphabet, transitions, finals)
      case Err(e) => r == Err(e)
      case Ok(table) =>
        && r.Ok? && fresh(r.value) && fresh(r.value.states) && fresh(r.value.finals)
        && r.value.states.states == Elements(states) && r.value.finals.states == Elements(finals)
        && r.value.alphabet == alphabet && r.value.start == start
        && r.value.deltas == table && r.value.current == start
        && r.value.Valid()
  {
    var declared := NewStateSet(states);
    var accepting := NewStateSet(finals);
    var dfa := new DFA(declared, alphabet, start, accepting);
    for i := 0 to |finals|
      invariant forall j :: 0 <= j < i ==> finals[j] in declared.states
    {
      if !dfa.states.Contains(finals[i]) {
        assert finals[i] in Elements(finals);
        return Err(FinalNotFound);
      }
    }
    assert Elements(finals) <= Elements(states);
    for i := 0 to |transitions|
      invariant dfa.states == declared && dfa.finals == accepting
      invariant dfa.alphabet == alphabet && dfa.start == start
      invariant declared.states == Elements(states) && accepting.states == Elements(finals)
      invariant BuildTable(Elements(states), alphabet, transitions[..i]) == Ok(dfa.deltas)
    {
      assert transitions[..i + 1][..i] == transitions[..i];
      var err := dfa.AddDelta(transitions[i]);
      if err.Some? {
        BuildTableFirstFailure(Elements(states), alphabet, transitions, i + 1);
        return Err(err.value);
      }
    }
    assert transitions[..|transitions|] == transitions;
    BuildTableDeclared(Elements(states), alphabet, transitions);
    dfa.Reset();
    return Ok(dfa);
  }
}
