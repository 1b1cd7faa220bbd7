/** The legacy automaton of fsa.go: no validation on construction, later
    edges overwrite earlier ones with the same trigger, a step needs the
    symbol in the alphabet and an edge, and there is no wildcard. */
module Fsa {
  import opened Outcomes
  import opened DeltaTypes
  import Transitions
  import Dfa

  function TriggerOf(d: Delta): Trigger
  {
    Trigger(d.startState, d.token)
  }

  /** The table NewAutomaton builds: each delta in order, overwriting. */
  function TableOf(ds: seq<Delta>): map<Trigger, State>
    decreases |ds|
  {
    if ds == [] then map[]
    else TableOf(ds[..|ds| - 1])[TriggerOf(ds[|ds| - 1]) := ds[|ds| - 1].endState]
  }

  /** Every delta contributes its trigger, and nothing else is a key. */
  lemma {:induction false} TableKeys(ds: seq<Delta>)
    ensures TableOf(ds).Keys == set d | d in ds :: TriggerOf(d)
    decreases |ds|
  {
    if ds != [] {
      var init := ds[..|ds| - 1];
      assert ds == init + [ds[|ds| - 1]];
      TableKeys(init);
    }
  }

  /** A delta that no later delta overrides decides its trigger. */
  lemma {:induction false} LastWriteWins(ds: seq<Delta>, i: nat)
    requires i < |ds|
    requires forall j :: i < j < |ds| ==> TriggerOf(ds[j]) != TriggerOf(ds[i])
    ensures TriggerOf(ds[i]) in TableOf(ds) && TableOf(ds)[TriggerOf(ds[i])] == ds[i].endState
    decreases |ds|
  {
    if i < |ds| - 1 {
      LastWriteWins(ds[..|ds| - 1], i);
    }
  }

  /** Two deltas on one trigger: the later end state is the one kept, even
      when the earlier one differs. */
  lemma DuplicateOverwrites(a: Delta, b: Delta)
    requires TriggerOf(a) == TriggerOf(b)
    ensures TableOf([a, b]) == map[TriggerOf(a) := b.endState]
  {
    assert [a, b][..1] == [a];
    assert [a][..0] == [];
    assert TableOf([a]) == map[TriggerOf(a) := a.endState];
    assert TableOf([a, b]) == TableOf([a])[TriggerOf(b) := b.endState];
  }

  /** split: the first symbol and the rest; the whole input when it is
      shorter than two symbols. */
  function Split(s: string): (r: (string, string))
    ensures r.0 + r.1 == s
    ensures |r.0| == if s == [] then 0 else 1
  {
    if |s| < 2 then (s, "") else (s[..1], s[1..])
  }

  lemma SplitIsBehead(s: string)
    ensures Split(s) == Dfa.Behead(s)
  {
  }

  /** The walk Accepts performs from `q`: a symbol is consumed only when it
      is in the alphabet and has an edge; there is no fallback. */
  function Run(alphabet: seq<string>, table: map<Trigger, State>, q: State, w: string): Halt<State>
    decreases |w|
  {
    if w == [] then Consumed(q)
    else if w[..1] in alphabet && Trigger(q, w[..1]) in table then Run(alphabet, table, table[Trigger(q, w[..1])], w[1..])
    else Stuck(q)
  }

  predicate AcceptsFrom(alphabet: seq<string>, table: map<Trigger, State>, finals: seq<State>, q: State, w: string)
  {
    Run(alphabet, table, q, w).Consumed? && Run(alphabet, table, q, w).at in finals
  }

  lemma {:induction false} RunAppend(alphabet: seq<string>, table: map<Trigger, State>, q: State, u: string, v: string)
    ensures Run(alphabet, table, q, u + v) ==
      match Run(alphabet, table, q, u)
      case Consumed(p) => Run(alphabet, table, p, v)
      case Stuck(p) => Stuck(p)
    decreases |u|
  {
    if u != [] {
      assert (u + v)[..1] == u[..1];
      assert (u + v)[1..] == u[1..] + v;
      var k := Trigger(q, u[..1]);
      if u[..1] in alphabet && k in table {
        RunAppend(alphabet, table, table[k], u[1..], v);
      }
    } else {
      assert u + v == v;
    }
  }

  /** A symbol outside the alphabet stops the walk even when the table has
      an edge for it. */
  lemma UnknownSymbolStops(alphabet: seq<string>, table: map<Trigger, State>, q: State, w: string)
    requires w != [] && w[..1] !in alphabet
    ensures Run(alphabet, table, q, w) == Stuck(q)
  {
  }

  /** The same table read by the DFA. */
  function AsDeltas(table: map<Trigger, State>): Transitions.Deltas
  {
    map k | k in table :: Transitions.StateTokenPair(k.state, k.token) := table[k]
  }

  /** Where every edge's symbol is in the alphabet and no edge is on the
      wildcard, the legacy walk is the DFA walk. */
  lemma {:induction false} AgreesWithDfa(alphabet: seq<string>, table: map<Trigger, State>, q: State, w: string)
    requires forall k :: k in table ==> k.token in alphabet && k.token != Dfa.AnySymbol
    ensures Run(alphabet, table, q, w) == Dfa.Run(AsDeltas(table), q, w)
    decreases |w|
  {
    if w != [] {
      var k := Trigger(q, w[..1]);
      assert Transitions.StateTokenPair(q, Dfa.AnySymbol) !in AsDeltas(table);
      if k in table {
        AgreesWithDfa(alphabet, table, table[k], w[1..]);
      } else {
        assert Transitions.StateTokenPair(q, w[..1]) !in AsDeltas(table);
      }
    }
  }

  class Automaton {
    var alphabet: seq<string>
    var startState: State
    var deltas: map<Trigger, State>
    var finals: seq<State>
    var current: State

    /** The struct literal of NewAutomaton, with an empty table. */
    constructor (start: State, abc: seq<string>, accepts: seq<State>)
      ensures alphabet == abc && startState == start && finals == accepts
      ensures deltas == map[] && current == ""
    {
      alphabet := abc;
      startState := start;
      finals := accepts;
      deltas := map[];
      current := "";
    }

    method Reset()
      modifies this`current
      ensures current == startState
    {
      current := startState;
    }

    /** inFinalState: a search of the finals slice for the cursor. */
    method InFinalState() returns (b: bool)
      ensures b <==> current in finals
    {
      for i := 0 to |finals|
        invariant current !in finals[..i]
      {
        if finals[i] == current {
          return true;
        }
      }
      assert finals[..|finals|] == finals;
      return false;
    }

    /** recognizes: a search of the alphabet for `t`. */
    method Recognizes(t: string) returns (b: bool)
      ensures b <==> t in alphabet
    {
      for i := 0 to |alphabet|
        invariant t !in alphabet[..i]
      {
        if alphabet[i] == t {
          return true;
        }
      }
      assert alphabet[..|alphabet|] == alphabet;
      return false;
    }

    /** Moves the cursor along the edge on `s` when `s` is in the alphabet
        and the edge exists; otherwise reports failure and keeps it. */
    method TakeTransition(s: string) returns (ok: bool)
      modifies this`current
      ensures ok <==> s in alphabet && Trigger(old(current), s) in deltas
      ensures ok ==> current == deltas[Trigger(old(current), s)]
      ensures !ok ==> current == old(current)
    {
      var known := Recognizes(s);
      if known {
        var t := Trigger(current, s);
        if t in deltas {
          current := deltas[t];
          return true;
        }
      }
      return false;
    }

    /** Consumes `s` from the current cursor and reports whether the walk
        consumed it all and ended in a final state; no reset on entry. */
    method Accepts(s: string) returns (b: bool)
      modifies this`current
      ensures b == AcceptsFrom(alphabet, deltas, finals, old(current), s)
      ensures current == Run(alphabet, deltas, old(current), s).at
      decreases |s|
    {
      var (head, tail) := Split(s);
      if |head| == 0 {
        b := InFinalState();
        return;
      }
      assert head == s[..1] && tail == s[1..];
      var ok := TakeTransition(head);
      if ok {
        b := Accepts(tail);
        return;
      }
      return false;
    }
  }

  /** Builds the legacy automaton: no check of any kind, the table filled
      delta by delta, the cursor at `start`. */
  method NewAutomaton(start: State, abc: seq<string>, deltas: seq<Delta>, accepts: seq<State>)
    returns (a: Automaton)
    ensures fresh(a)
    ensures a.alphabet == abc && a.startState == start && a.finals == accepts
    ensures a.deltas == TableOf(deltas) && a.current == start
  {
    a := new Automaton(start, abc, accepts);
    for i := 0 to |deltas|
      invariant a.alphabet == abc && a.startState == start && a.finals == accepts
      invariant a.deltas == TableOf(deltas[..i])
    {
      assert deltas[..i + 1][..i] == deltas[..i];
      var d := deltas[i];
      var t := Trigger(d.startState, d.token);
      a.deltas := a.deltas[t := d.endState];
    }
    assert deltas[..|deltas|] == deltas;
    a.current := start;
  }
}
