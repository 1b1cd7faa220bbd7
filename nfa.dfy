/** The non-deterministic automaton of nfa.go: construction with edge
    validation, a state-set cursor, a step with a single epsilon layer, and
    acceptance that requires every final state to be reached. */
module Nfa {
  import opened Outcomes
  import opened StateSets
  import opened Transitions
  import Dfa

  /** The table as values: each key's target set as it currently reads. */
  type NTable = map<StateTokenPair, set<State>>

  /** A non-deterministic edge with its target set read out of the object. */
  datatype NEdge = NEdge(start: State, token: Token, ends: set<State>)

  /** The edges as values, in order. */
  ghost function EdgesOf(ts: seq<NTransition>): (es: seq<NEdge>)
    reads set t | t in ts :: t.end
    ensures |es| == |ts|
    ensures forall i :: 0 <= i < |ts| ==> es[i] == NEdge(ts[i].start, ts[i].token, ts[i].end.states)
    decreases |ts|
  {
    if ts == [] then []
    else EdgesOf(ts[..|ts| - 1]) + [NEdge(ts[|ts| - 1].start, ts[|ts| - 1].token, ts[|ts| - 1].end.states)]
  }

  // ---------------------------------------------------------------------
  // Construction, as a specification

  function NKey(e: NEdge): StateTokenPair
  {
    StateTokenPair(e.start, e.token)
  }

  /** The checks addDeltas makes on one edge, in its order. Only Epsilon is
      exempt from the alphabet check: an edge on the wildcard needs the
      wildcard in the alphabet. */
  function NAddDeltaSpec(declared: set<State>, alphabet: seq<Token>, table: NTable, e: NEdge)
    : Result<NTable, BuildError>
  {
    if e.start !in declared then Err(StartNotFound)
    else if !(e.ends <= declared) then Err(EndNotFound)
    else if e.token !in alphabet && e.token != Epsilon then Err(TokenNotFound)
    else if NKey(e) in table then Err(DuplicateDelta)
    else Ok(table[NKey(e) := e.ends])
  }

  function NBuildTable(declared: set<State>, alphabet: seq<Token>, es: seq<NEdge>)
    : Result<NTable, BuildError>
    decreases |es|
  {
    if es == [] then Ok(map[])
    else match NBuildTable(declared, alphabet, es[..|es| - 1])
      case Err(e) => Err(e)
      case Ok(m) => NAddDeltaSpec(declared, alphabet, m, es[|es| - 1])
  }

  predicate NEdgeValid(declared: set<State>, alphabet: seq<Token>, e: NEdge)
  {
    e.start in declared && e.ends <= declared && (e.token in alphabet || e.token == Epsilon)
  }

  predicate NAllValid(declared: set<State>, alphabet: seq<Token>, es: seq<NEdge>)
  {
    forall i :: 0 <= i < |es| ==> NEdgeValid(declared, alphabet, es[i])
  }

  predicate NKeysDistinct(es: seq<NEdge>)
  {
    forall i, j :: 0 <= i < j < |es| ==> NKey(es[i]) != NKey(es[j])
  }

  function NKeys(es: seq<NEdge>): set<StateTokenPair>
  {
    set e | e in es :: NKey(e)
  }

  /** A table over declared states whose symbols are admitted. */
  ghost predicate NTableDeclared(declared: set<State>, alphabet: seq<Token>, table: NTable)
  {
    forall k :: k in table ==>
      k.state in declared && table[k] <= declared && (k.token in alphabet || k.token == Epsilon)
  }

  lemma NBuildTableSnoc(declared: set<State>, alphabet: seq<Token>, es: seq<NEdge>, e: NEdge)
    ensures NBuildTable(declared, alphabet, es).Err? ==>
      NBuildTable(declared, alphabet, es + [e]) == NBuildTable(declared, alphabet, es)
    ensures NBuildTable(declared, alphabet, es).Ok? ==>
      NBuildTable(declared, alphabet, es + [e]) == NAddDeltaSpec(declared, alphabet, NBuildTable(declared, alphabet, es).value, e)
  {
    assert (es + [e])[..|es + [e]| - 1] == es;
  }

  lemma NSnocConditions(declared: set<State>, alphabet: seq<Token>, init: seq<NEdge>, last: NEdge)
    ensures NKeysDistinct(init + [last]) <==> NKeysDistinct(init) && NKey(last) !in NKeys(init)
    ensures NAllValid(declared, alphabet, init + [last]) <==>
      NAllValid(declared, alphabet, init) && NEdgeValid(declared, alphabet, last)
  {
    var es := init + [last];
    assert forall i :: 0 <= i < |init| ==> es[i] == init[i];
    assert es[|init|] == last;
    if NKeysDistinct(es) {
      forall e | e in init ensures NKey(e) != NKey(last) {
        var i :| 0 <= i < |init| && init[i] == e;
        assert es[i] == e;
      }
    }
    if NKeysDistinct(init) && NKey(last) !in NKeys(init) {
      forall i, j | 0 <= i < j < |es| ensures NKey(es[i]) != NKey(es[j]) {
        if j < |init| {
          assert es[i] == init[i] && es[j] == init[j];
        } else {
          assert es[i] in init;
        }
      }
    }
    if NAllValid(declared, alphabet, init) && NEdgeValid(declared, alphabet, last) {
      forall i | 0 <= i < |es| ensures NEdgeValid(declared, alphabet, es[i]) {
        if i < |init| {
          assert es[i] == init[i];
        }
      }
    }
  }

  /** Construction succeeds exactly when every edge is valid and no two
      edges share a key. */
  lemma {:induction false} NBuildTableOk(declared: set<State>, alphabet: seq<Token>, es: seq<NEdge>)
    ensures NBuildTable(declared, alphabet, es).Ok? <==> NAllValid(declared, alphabet, es) && NKeysDistinct(es)
  {
    if es != [] {
      var init, last := es[..|es| - 1], es[|es| - 1];
      assert es == init + [last];
      NBuildTableSnoc(declared, alphabet, init, last);
      NSnocConditions(declared, alphabet, init, last);
      NBuildTableOk(declared, alphabet, init);
      if NBuildTable(declared, alphabet, init).Ok? {
        NBuildTableEntries(declared, alphabet, init);
      }
    }
  }

  /** A built table has exactly the keys of the edges and maps each edge's
      key to that edge's target set. */
  lemma {:induction false} NBuildTableEntries(declared: set<State>, alphabet: seq<Token>, es: seq<NEdge>)
    requires NBuildTable(declared, alphabet, es).Ok?
    ensures NBuildTable(declared, alphabet, es).value.Keys == NKeys(es)
    ensures forall i :: 0 <= i < |es| ==> NBuildTable(declared, alphabet, es).value[NKey(es[i])] == es[i].ends
  {
    NBuildTableKeys(declared, alphabet, es);
    NBuildTableValues(declared, alphabet, es);
  }

  /** The keys of a built table are exactly the edges' keys. */
  lemma {:induction false} NBuildTableKeys(declared: set<State>, alphabet: seq<Token>, es: seq<NEdge>)
    requires NBuildTable(declared, alphabet, es).Ok?
    ensures NBuildTable(declared, alphabet, es).value.Keys == NKeys(es)
  {
    if es != [] {
      var init, last := es[..|es| - 1], es[|es| - 1];
      assert es == init + [last];
      NBuildTableSnoc(declared, alphabet, init, last);
      NBuildTableKeys(declared, alphabet, init);
      assert NKeys(es) == NKeys(init) + {NKey(last)};
    }
  }

  /** Each edge's key maps to that edge's target in a built table. */
  lemma {:induction false} NBuildTableValues(declared: set<State>, alphabet: seq<Token>, es: seq<NEdge>)
    requires NBuildTable(declared, alphabet, es).Ok?
    ensures forall i :: 0 <= i < |es| ==> NKey(es[i]) in NBuildTable(declared, alphabet, es).value
    ensures forall i :: 0 <= i < |es| ==> NBuildTable(declared, alphabet, es).value[NKey(es[i])] == es[i].ends
  {
    if es != [] {
      var init, last := es[..|es| - 1], es[|es| - 1];
      assert es == init + [last];
      NBuildTableSnoc(declared, alphabet, init, last);
      var m := NBuildTable(declared, alphabet, init).value;
      NBuildTableValues(declared, alphabet, init);
      var m' := m[NKey(last) := last.ends];
      assert NBuildTable(declared, alphabet, es).value == m';
      forall i | 0 <= i < |init|
        ensures NKey(es[i]) in m' && m'[NKey(es[i])] == es[i].ends
      {
        assert es[i] == init[i];
      }
    }
  }

  lemma {:induction false} NBuildTableDeclared(declared: set<State>, alphabet: seq<Token>, es: seq<NEdge>)
    requires NBuildTable(declared, alphabet, es).Ok?
    ensures NTableDeclared(declared, alphabet, NBuildTable(declared, alphabet, es).value)
  {
    if es != [] {
      var init, last := es[..|es| - 1], es[|es| - 1];
      assert es == init + [last];
      NBuildTableSnoc(declared, alphabet, init, last);
      var m := NBuildTable(declared, alphabet, init).value;
      NBuildTableDeclared(declared, alphabet, init);
      assert NEdgeValid(declared, alphabet, last);
      assert NBuildTable(declared, alphabet, es).value == m[NKey(last) := last.ends];
    }
  }

  lemma {:induction false} NBuildTableFirstFailure(declared: set<State>, alphabet: seq<Token>, es: seq<NEdge>, n: nat)
    requires n <= |es|
    requires NBuildTable(declared, alphabet, es[..n]).Err?
    ensures NBuildTable(declared, alphabet, es) == NBuildTable(declared, alphabet, es[..n])
    decreases |es| - n
  {
    if n < |es| {
      assert es[..n + 1][..n] == es[..n];
      NBuildTableSnoc(declared, alphabet, es[..n], es[n]);
      assert es[..n] + [es[n]] == es[..n + 1];
      NBuildTableFirstFailure(declared, alphabet, es, n + 1);
    } else {
      assert es[..n] == es;
    }
  }

  /** Unlike the DFA, the NFA admits a wildcard edge only when the wildcard
      sentinel is itself in the alphabet. */
  lemma WildcardNeedsAlphabet(declared: set<State>, alphabet: seq<Token>, es: seq<NEdge>, i: nat)
    requires i < |es| && es[i].token == Dfa.AnySymbol
    requires Dfa.AnySymbol !in alphabet
    ensures NBuildTable(declared, alphabet, es).Err?
  {
    NBuildTableOk(declared, alphabet, es);
    Dfa.SentinelsDistinct();
    assert !NEdgeValid(declared, alphabet, es[i]);
  }

  // ---------------------------------------------------------------------
  // One step, as a specification

  /** The states the edges on `tok` lead to from any state of `from`;
      states without such an edge contribute nothing. */
  function Successors(table: NTable, from: set<State>, tok: Token): set<State>
  {
    set c, q | c in from && StateTokenPair(c, tok) in table && q in table[StateTokenPair(c, tok)] :: q
  }

  /** The target set of one key, empty when the key is absent. */
  function Targets(table: NTable, c: State, tok: Token): set<State>
  {
    if StateTokenPair(c, tok) in table then table[StateTokenPair(c, tok)] else {}
  }

  lemma SuccessorsAdd(table: NTable, from: set<State>, c: State, tok: Token)
    ensures Successors(table, from + {c}, tok) == Successors(table, from, tok) + Targets(table, c, tok)
  {
  }

  /** nextStates: the successors on `tok`, extended by a single layer of
      epsilon edges out of those successors. */
  function NextStatesOf(table: NTable, cur: set<State>, tok: Token): set<State>
  {
    var moved := Successors(table, cur, tok);
    moved + Successors(table, moved, Epsilon)
  }

  /** A set no epsilon edge leads out of. */
  predicate EpsilonClosed(table: NTable, s: set<State>)
  {
    Successors(table, s, Epsilon) <= s
  }

  lemma {:induction false} SuccessorsMonotonic(table: NTable, a: set<State>, b: set<State>, tok: Token)
    requires a <= b
    ensures Successors(table, a, tok) <= Successors(table, b, tok)
  {
    forall q | q in Successors(table, a, tok) ensures q in Successors(table, b, tok) {
      var c :| c in a && StateTokenPair(c, tok) in table && q in table[StateTokenPair(c, tok)];
      assert c in b;
    }
  }

  /** The step stays inside the epsilon closure of the plain successors:
      every epsilon-closed set that holds the successors holds the step. */
  lemma {:induction false} NextStatesWithinClosure(table: NTable, cur: set<State>, tok: Token, closed: set<State>)
    requires Successors(table, cur, tok) <= closed
    requires EpsilonClosed(table, closed)
    ensures NextStatesOf(table, cur, tok) <= closed
  {
    SuccessorsMonotonic(table, Successors(table, cur, tok), closed, Epsilon);
  }

  /** Over a table of declared states the step leads to declared states only. */
  lemma {:induction false} NextStatesDeclared(table: NTable, declared: set<State>, alphabet: seq<Token>, cur: set<State>, tok: Token)
    requires NTableDeclared(declared, alphabet, table)
    ensures NextStatesOf(table, cur, tok) <= declared
  {
    forall c, q | StateTokenPair(c, tok) in table && q in table[StateTokenPair(c, tok)]
      ensures q in declared
    {
      assert table[StateTokenPair(c, tok)] <= declared;
    }
    forall c, q | StateTokenPair(c, Epsilon) in table && q in table[StateTokenPair(c, Epsilon)]
      ensures q in declared
    {
      assert table[StateTokenPair(c, Epsilon)] <= declared;
    }
  }

  // ---------------------------------------------------------------------
  // Acceptance, as a specification

  /** The walk Accepts performs from the cursor set `cur`: each symbol is
      tried exactly, then as the wildcard, from the same cursor; a step
      applies only when it leads somewhere. */
  function Run(table: NTable, cur: set<State>, w: string): Halt<set<State>>
    decreases |w|
  {
    if w == [] then Consumed(cur)
    else if NextStatesOf(table, cur, w[..1]) != {} then Run(table, NextStatesOf(table, cur, w[..1]), w[1..])
    else if NextStatesOf(table, cur, Dfa.AnySymbol) != {} then Run(table, NextStatesOf(table, cur, Dfa.AnySymbol), w[1..])
    else Stuck(cur)
  }

  /** `w` is accepted from `cur` when it is consumed and the cursor then
      holds every final state, not merely one of them. */
  predicate AcceptsFrom(table: NTable, finals: set<State>, cur: set<State>, w: string)
  {
    Run(table, cur, w).Consumed? && finals <= Run(table, cur, w).at
  }

  lemma {:induction false} RunAppend(table: NTable, cur: set<State>, u: string, v: string)
    ensures Run(table, cur, u + v) ==
      match Run(table, cur, u)
      case Consumed(p) => Run(table, p, v)
      case Stuck(p) => Stuck(p)
    decreases |u|
  {
    if u != [] {
      assert (u + v)[..1] == u[..1];
      assert (u + v)[1..] == u[1..] + v;
      var exact, wild := NextStatesOf(table, cur, u[..1]), NextStatesOf(table, cur, Dfa.AnySymbol);
      if exact != {} {
        RunAppend(table, exact, u[1..], v);
      } else if wild != {} {
        RunAppend(table, wild, u[1..], v);
      }
    } else {
      assert u + v == v;
    }
  }

  /** Over a table of declared states, wherever the walk stops the cursor
      holds declared states or states it started with. */
  lemma {:induction false} RunStaysDeclared(table: NTable, declared: set<State>, alphabet: seq<Token>, cur: set<State>, w: string)
    requires NTableDeclared(declared, alphabet, table)
    ensures Run(table, cur, w).at <= cur + declared
    decreases |w|
  {
    if w != [] {
      var exact, wild := NextStatesOf(table, cur, w[..1]), NextStatesOf(table, cur, Dfa.AnySymbol);
      if exact != {} {
        NextStatesDeclared(table, declared, alphabet, cur, w[..1]);
        RunStaysDeclared(table, declared, alphabet, exact, w[1..]);
      } else if wild != {} {
        NextStatesDeclared(table, declared, alphabet, cur, Dfa.AnySymbol);
        RunStaysDeclared(table, declared, alphabet, wild, w[1..]);
      }
    }
  }

  /** With no final states, every consumed input is accepted. */
  lemma NoFinalsAcceptConsumed(table: NTable, cur: set<State>, w: string)
    ensures AcceptsFrom(table, {}, cur, w) <==> Run(table, cur, w).Consumed?
  {
  }

  // ---------------------------------------------------------------------
  // The DFA as a special case

  /** A deterministic table seen as a non-deterministic one. */
  function Lift(table: Deltas): NTable
  {
    map k | k in table :: {table[k]}
  }

  /** Lifted DFA table without epsilon keys: the NFA walk from {q} is the DFA
      walk from q, one singleton cursor at a time. */
  lemma {:induction false} LiftRun(table: Deltas, q: State, w: string)
    requires forall k :: k in table ==> k.token != Epsilon
    ensures Run(Lift(table), {q}, w) ==
      match Dfa.Run(table, q, w)
      case Consumed(p) => Consumed({p})
      case Stuck(p) => Stuck({p})
    decreases |w|
  {
    if w != [] {
      var exact, wild := StateTokenPair(q, w[..1]), StateTokenPair(q, Dfa.AnySymbol);
      LiftStep(table, q, w[..1]);
      LiftStep(table, q, Dfa.AnySymbol);
      if exact in table {
        LiftRun(table, table[exact], w[1..]);
      } else if wild in table {
        LiftRun(table, table[wild], w[1..]);
      }
    }
  }

  lemma LiftStep(table: Deltas, q: State, tok: Token)
    requires forall k :: k in table ==> k.token != Epsilon
    ensures NextStatesOf(Lift(table), {q}, tok) ==
      if StateTokenPair(q, tok) in table then {table[StateTokenPair(q, tok)]} else {}
  {
    var moved := Successors(Lift(table), {q}, tok);
    SuccessorsAdd(Lift(table), {}, q, tok);
    assert {} + {q} == {q};
    assert Successors(Lift(table), moved, Epsilon) == {};
  }

  /** On a lifted DFA table the NFA accepts exactly when the DFA walk is
      consumed and every final state is the one state it reached. */
  lemma LiftAccepts(table: Deltas, finals: set<State>, q: State, w: string)
    requires forall k :: k in table ==> k.token != Epsilon
    ensures AcceptsFrom(Lift(table), finals, {q}, w) <==>
      Dfa.Run(table, q, w).Consumed? && finals <= {Dfa.Run(table, q, w).at}
  {
    LiftRun(table, q, w);
  }

  /** With a single final state the two acceptance rules agree. */
  lemma LiftAcceptsOneFinal(table: Deltas, f: State, q: State, w: string)
    requires forall k :: k in table ==> k.token != Epsilon
    ensures AcceptsFrom(Lift(table), {f}, {q}, w) <==> Dfa.AcceptsFrom(table, {f}, q, w)
  {
    LiftAccepts(table, {f}, q, w);
  }

  /** With two distinct final states the NFA rule accepts nothing on a
      lifted DFA table, where the DFA rule accepts reaching either. */
  lemma LiftRejectsTwoFinals(table: Deltas, f: State, g: State, q: State, w: string)
    requires forall k :: k in table ==> k.token != Epsilon
    requires f != g
    ensures !AcceptsFrom(Lift(table), {f, g}, {q}, w)
  {
    LiftAccepts(table, {f, g}, q, w);
  }

  /** The references addDeltas stores, edge by edge: each edge's key
      mapped to the edge's own state-set object. */
  function Stored(tt: seq<NTransition>): NDeltas
    decreases |tt|
  {
    if tt == [] then map[]
    else Stored(tt[..|tt| - 1])[NDeltaOf(tt[|tt| - 1]).key := tt[|tt| - 1].end]
  }

  /** With distinct keys, every edge's key holds that edge's object. */
  lemma {:induction false} StoredEntries(tt: seq<NTransition>)
    requires forall i, j :: 0 <= i < j < |tt| ==> NDeltaOf(tt[i]).key != NDeltaOf(tt[j]).key
    ensures forall i :: 0 <= i < |tt| ==> NDeltaOf(tt[i]).key in Stored(tt) && Stored(tt)[NDeltaOf(tt[i]).key] == tt[i].end
    decreases |tt|
  {
    if tt != [] {
      var init := tt[..|tt| - 1];
      StoredEntries(init);
      forall i | 0 <= i < |tt|
        ensures NDeltaOf(tt[i]).key in Stored(tt) && Stored(tt)[NDeltaOf(tt[i]).key] == tt[i].end
      {
        if i < |init| {
          assert init[i] == tt[i];
        }
      }
    }
  }

  /** When the edges build a table, their keys are distinct, so every
      edge's key holds that edge's object. */
  lemma StoredOnSuccess(declared: set<State>, alphabet: seq<Token>, tt: seq<NTransition>, es: seq<NEdge>)
    requires |es| == |tt|
    requires forall i :: 0 <= i < |tt| ==> es[i].start == tt[i].start && es[i].token == tt[i].token
    requires NBuildTable(declared, alphabet, es).Ok?
    ensures forall i :: 0 <= i < |tt| ==> NDeltaOf(tt[i]).key in Stored(tt) && Stored(tt)[NDeltaOf(tt[i]).key] == tt[i].end
  {
    NBuildTableOk(declared, alphabet, es);
    forall i, j | 0 <= i < j < |tt|
      ensures NDeltaOf(tt[i]).key != NDeltaOf(tt[j]).key
    {
      assert NKey(es[i]) != NKey(es[j]);
    }
    StoredEntries(tt);
  }

  /** Read through the stored references, the table of edges that build is
      the table construction specifies. */
  lemma {:induction false} ReadStored(declared: set<State>, alphabet: seq<Token>, tt: seq<NTransition>, es: seq<NEdge>)
    requires |es| == |tt|
    requires forall i :: 0 <= i < |tt| ==> es[i] == NEdge(tt[i].start, tt[i].token, tt[i].end.states)
    requires NBuildTable(declared, alphabet, es).Ok?
    ensures Read(Stored(tt)) == NBuildTable(declared, alphabet, es).value
    decreases |tt|
  {
    if tt != [] {
      var n := |tt| - 1;
      var init, last := es[..n], es[n];
      assert es == init + [last];
      NBuildTableSnoc(declared, alphabet, init, last);
      ReadStored(declared, alphabet, tt[..n], init);
      ReadUpdate(Stored(tt[..n]), NDeltaOf(tt[n]).key, tt[n].end);
    }
  }

  /** One pass of addDeltas, heap aside: the next edge goes through the
      checks against the stored table read as values, and on success its
      own object is stored under its key. */
  lemma StoredStep(declared: set<State>, alphabet: seq<Token>, tt: seq<NTransition>, es: seq<NEdge>, i: nat)
    requires i < |tt| && |es| == |tt|
    requires forall k :: 0 <= k < |tt| ==> es[k] == NEdge(tt[k].start, tt[k].token, tt[k].end.states)
    requires NBuildTable(declared, alphabet, es[..i]).Ok?
    ensures NBuildTable(declared, alphabet, es[..i + 1])
      == NAddDeltaSpec(declared, alphabet, Read(Stored(tt[..i])), NEdge(tt[i].start, tt[i].token, tt[i].end.states))
    ensures Stored(tt[..i + 1]) == Stored(tt[..i])[NDeltaOf(tt[i]).key := tt[i].end]
  {
    assert es[..i + 1] == es[..i] + [es[i]];
    assert tt[..i + 1][..i] == tt[..i];
    NBuildTableSnoc(declared, alphabet, es[..i], es[i]);
    ReadStored(declared, alphabet, tt[..i], es[..i]);
  }

  /** The error of a failed check, or None. */
  function FailureOf(r: Result<NTable, BuildError>): (e: Option<BuildError>)
    ensures e.None? <==> r.Ok?
  {
    if r.Err? then Some(r.error) else None
  }

  /** A table of shared state-set objects, read as values. */
  ghost function Read(d: NDeltas): NTable
    reads d.Values
  {
    map k | k in d :: d[k].states
  }

  lemma ReadUpdate(d: NDeltas, k: StateTokenPair, v: StateSet)
    ensures Read(d[k := v]) == Read(d)[k := v.states]
  {
  }

  // ---------------------------------------------------------------------
  // The automaton

  class NFA {
    // The fields of AutomatonBase.
    var states: StateSet
    var alphabet: seq<Token>
    var start: State
    var finals: StateSet
    // The table (its values are the edges' own state-set objects) and the cursor.
    var deltas: NDeltas
    var current: StateSet

    /** The table as values, read through the shared state-set objects. */
    ghost function Table(): NTable
      reads this`deltas, deltas.Values
    {
      Read(deltas)
    }

    /** What construction establishes and every step keeps: the table is
        over declared states and admitted symbols, and the cursor holds
        declared states and possibly the (unchecked) start state. */
    ghost predicate Valid()
      reads this, states, current, deltas.Values
    {
      && NTableDeclared(states.states, alphabet, Table())
      && current.states <= states.states + {start}
    }

    /** The struct literal of NewNFA. The source leaves the table and the
        cursor nil; here they start empty and are replaced before use. */
    constructor (states: StateSet, alphabet: seq<Token>, start: State, finals: StateSet)
      ensures this.states == states && this.alphabet == alphabet && this.start == start
      ensures this.finals == finals && deltas == map[]
      ensures fresh(current)
    {
      this.states := states;
      this.alphabet := alphabet;
      this.start := start;
      this.finals := finals;
      deltas := map[];
      current := new StateSet();
    }

    /** The cursor becomes a fresh set holding exactly the start state. */
    method Reset()
      modifies this`current
      ensures fresh(current) && current.states == {start}
      ensures old(Valid()) ==> Valid()
    {
      current := new StateSet();
      current.Add(start);
    }

    /** Replaces the table by one built from `tt`, validating each edge. On
        success every edge's key maps to that edge's own state-set object.
        After a failure the partial table is left unspecified: NewNFA drops
        the object, so no caller sees it. */
    method AddDeltas(tt: seq<NTransition>) returns (err: Option<BuildError>)
      modifies this`deltas
      ensures old(NBuildTable(states.states, alphabet, EdgesOf(tt))).Err? ==>
        err == Some(old(NBuildTable(states.states, alphabet, EdgesOf(tt))).error)
      ensures old(NBuildTable(states.states, alphabet, EdgesOf(tt))).Ok? ==>
          && err == None && Table() == old(NBuildTable(states.states, alphabet, EdgesOf(tt))).value
          && (forall i :: 0 <= i < |tt| ==> NDeltaOf(tt[i]).key in deltas && deltas[NDeltaOf(tt[i]).key] == tt[i].end)
    {
      ghost var es := EdgesOf(tt);
      ghost var declared := states.states;
      deltas := map[];
      for i := 0 to |tt|
        invariant states.states == declared
        invariant NBuildTable(declared, alphabet, es[..i]).Ok?
        invariant deltas == Stored(tt[..i])
      {
        StoredStep(declared, alphabet, tt, es, i);
        err := AddDelta(tt[i]);
        if err.Some? {
          NBuildTableFirstFailure(declared, alphabet, es, i + 1);
          return;
        }
      }
      assert es[..|tt|] == es && tt[..|tt|] == tt;
      ReadStored(declared, alphabet, tt, es);
      StoredOnSuccess(declared, alphabet, tt, es);
      return None;
    }


    /** One pass of the addDeltas loop: the checks on one edge, in the
        source's order, against the table built so far; the first failing
        check names the error and the table is left alone, otherwise the
        edge's own state-set object is stored under its key. */
    method AddDelta(t: NTransition) returns (err: Option<BuildError>)
      modifies this`deltas
      ensures err == FailureOf(old(NAddDeltaSpec(states.states, alphabet, Table(), NEdge(t.start, t.token, t.end.states))))
      ensures deltas == if err.None? then old(deltas)[NDeltaOf(t).key := t.end] else old(deltas)
    {
      if !states.Contains(t.start) {
        return Some(StartNotFound);
      }
      var endsKnown := EndsDeclared(t.end);
      if !endsKnown {
        return Some(EndNotFound);
      }
      var known := Dfa.StringsContains(alphabet, t.token);
      if !known && t.token != Epsilon {
        return Some(TokenNotFound);
      }
      var d := NDeltaOf(t);
      if d.key in deltas {
        return Some(DuplicateDelta);
      }
      deltas := deltas[d.key := d.next];
      return None;
    }

    /** The end-state check of addDeltas: every state of `end` is declared. */
    method EndsDeclared(end: StateSet) returns (ok: bool)
      ensures ok <==> end.states <= states.states
    {
      var rest := end.states;
      while rest != {}
        invariant rest <= end.states
        invariant end.states - rest <= states.states
        decreases rest
      {
        var s :| s in rest;
        if !states.Contains(s) {
          return false;
        }
        rest := rest - {s};
      }
      return true;
    }

    /** nextStates: a fresh set holding the successors of the cursor on
        `tok`, then one layer of epsilon successors of those. */
    method NextStates(tok: Token) returns (ss: StateSet)
      ensures fresh(ss)
      ensures ss.states == NextStatesOf(Table(), current.states, tok)
    {
      ss := new StateSet();
      MergeTargets(current.states, tok, ss);
      // The epsilon pass visits the successors found so far, once each.
      var layer := ss.states;
      MergeTargets(layer, Epsilon, ss);
    }

    /** The body shared by both loops of nextStates: merges into `ss` the
        target set of every state of `from` on `tok`. */
    method MergeTargets(from: set<State>, tok: Token, ss: StateSet)
      requires ss !in deltas.Values
      modifies ss
      ensures ss.states == old(ss.states) + Successors(Table(), from, tok)
    {
      var rest := from;
      ghost var done: set<State> := {};
      while rest != {}
        invariant done + rest == from && done !! rest
        invariant ss.states == old(ss.states) + Successors(Table(), done, tok)
        decreases rest
      {
        var c :| c in rest;
        SuccessorsAdd(Table(), done, c, tok);
        var stp := StateTokenPair(c, tok);
        if stp in deltas {
          ss.Union(deltas[stp]);
        }
        rest := rest - {c};
        done := done + {c};
      }
    }

    /** Moves the cursor to the next states on `s` when there are any;
        otherwise reports failure and keeps the cursor. */
    method TakeTransition(s: Token) returns (ok: bool)
      modifies this`current
      ensures ok <==> NextStatesOf(Table(), old(current.states), s) != {}
      ensures ok ==> fresh(current) && current.states == NextStatesOf(Table(), old(current.states), s)
      ensures !ok ==> current == old(current)
      ensures old(Valid()) ==> Valid()
    {
      ghost var table, from, declared := Table(), current.states, states.states;
      ghost var wasValid := Valid();
      var ss := NextStates(s);
      if ss.states != {} {
        if wasValid {
          NextStatesDeclared(table, declared, alphabet, from, s);
        }
        current := ss;
        assert Table() == table && states.states == declared;
        return true;
      }
      return false;
    }

    /** Consumes `s` from the current cursor (without resetting first) and
        reports whether the cursor then holds every final state; the cursor
        is left where the walk stopped. */
    method Accepts(s: string) returns (b: bool)
      modifies this`current
      ensures b == AcceptsFrom(Table(), finals.states, old(current.states), s)
      ensures current.states == Run(Table(), old(current.states), s).at
      ensures old(Valid()) ==> Valid()
      decreases |s|
    {
      var (head, tail) := Dfa.Behead(s);
      if |head| == 0 {
        b := finals.Subset(current);
        return;
      }
      assert head == s[..1] && tail == s[1..];
      var ok := TakeTransition(head);
      if ok {
        b := Accepts(tail);
        return;
      }
      ok := TakeTransition(Dfa.AnySymbol);
      if ok {
        b := Accepts(tail);
        return;
      }
      return false;
    }
  }

  /** The first half of NewNFA: the state sets, the struct literal and the
      reset, before any edge is added. */
  method NewEmptyNFA(states: seq<State>, alphabet: seq<Token>, start: State, finals: seq<State>) returns (n: NFA)
    ensures fresh(n) && fresh(n.states) && fresh(n.finals) && fresh(n.current)
    ensures n.states.states == Elements(states) && n.finals.states == Elements(finals)
    ensures n.alphabet == alphabet && n.start == start
    ensures n.deltas == map[] && n.current.states == {start}
  {
    var declared := NewStateSet(states);
    var accepting := NewStateSet(finals);
    n := new NFA(declared, alphabet, start, accepting);
    n.Reset();
  }

  /** Builds an NFA: the declared and final state sets (finals unchecked),
      the cursor reset to {start} (start unchecked), then every edge in
      order; the first failure aborts and no automaton is returned. The
      specification reads the edges' end sets as they are on entry. */
  method NewNFA(states: seq<State>, alphabet: seq<Token>, start: State, finals: seq<State>, transitions: seq<NTransition>)
    returns (r: Result<NFA, BuildError>)
    ensures match old(NBuildTable(Elements(states), alphabet, EdgesOf(transitions)))
      case Err(e) => r == Err(e)
      case Ok(table) =>
        && r.Ok? && fresh(r.value) && fresh(r.value.states) && fresh(r.value.finals) && fresh(r.value.current)
        && r.value.states.states == Elements(states) && r.value.finals.states == Elements(finals)
        && r.value.alphabet == alphabet && r.value.start == start
        && r.value.Table() == table && r.value.current.states == {start}
        && (forall i :: 0 <= i < |transitions| ==>
              NDeltaOf(transitions[i]).key in r.value.deltas && r.value.deltas[NDeltaOf(transitions[i]).key] == transitions[i].end)
        && r.value.Valid()
  {
    ghost var es := EdgesOf(transitions);
    var n := NewEmptyNFA(states, alphabet, start, finals);
    assert EdgesOf(transitions) == es;
    var err := n.AddDeltas(transitions);
    if err.Some? {
      return Err(err.value);
    }
    NBuildTableDeclared(Elements(states), alphabet, es);
    assert n.Valid();
    return Ok(n);
  }
}
