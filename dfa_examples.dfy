/** The automata of the DFA tests, built through the construction
    specification, with the languages the tests claim for them proved for
    every input, from a freshly reset cursor. */
module DfaExamples {
  import opened Outcomes
  import opened StateSets
  import opened Transitions
  import opened Dfa

  // ---------------------------------------------------------------------
  // One state, no edges, no finals: nothing is accepted.

  lemma NothingBuilds()
    ensures Build(["q0"], [], [], []) == Ok(map[])
  {
  }

  lemma AcceptsNothing(w: string)
    ensures !AcceptsFrom(map[], {}, "q0", w)
  {
  }

  // ---------------------------------------------------------------------
  // A single wildcard edge out of the only final state.

  function OnlyEmptyEdges(): seq<Transition>
  {
    [Transition("q1", AnySymbol, "q2")]
  }

  function OnlyEmptyTable(): Deltas
  {
    map[StateTokenPair("q1", AnySymbol) := "q2"]
  }

  /** The wildcard edge is admitted even though the alphabet is empty. */
  lemma OnlyEmptyBuilds()
    ensures Build(["q1", "q2"], [], OnlyEmptyEdges(), ["q1"]) == Ok(OnlyEmptyTable())
  {
    BuildTableSnoc({"q1", "q2"}, [], [], OnlyEmptyEdges()[0]);
    assert [] + [OnlyEmptyEdges()[0]] == OnlyEmptyEdges();
  }

  lemma AcceptsOnlyEmpty(w: string)
    ensures AcceptsFrom(OnlyEmptyTable(), {"q1"}, "q1", w) <==> w == []
  {
    if w != [] {
      assert |w[..1]| == 1 && |AnySymbol| == 10;
      assert Run(OnlyEmptyTable(), "q1", w) == Run(OnlyEmptyTable(), "q2", w[1..]);
    }
  }

  // ---------------------------------------------------------------------
  // Two states over {0, 1}: the empty string and the strings ending in 0.

  function BinaryEdges(): seq<Transition>
  {
    [ Transition("q1", "0", "q1"), Transition("q1", "1", "q2"),
      Transition("q2", "1", "q2"), Transition("q2", "0", "q1") ]
  }

  function BinaryTable(): Deltas
  {
    map[ StateTokenPair("q1", "0") := "q1", StateTokenPair("q1", "1") := "q2",
         StateTokenPair("q2", "1") := "q2", StateTokenPair("q2", "0") := "q1" ]
  }

  lemma BinaryBuilds()
    ensures Build(["q1", "q2"], ["0", "1"], BinaryEdges(), ["q1"]) == Ok(BinaryTable())
  {
    var d, a, es := {"q1", "q2"}, ["0", "1"], BinaryEdges();
    assert Elements(["q1", "q2"]) == d && Elements(["q1"]) == {"q1"};
    BuildTableSnoc(d, a, [], es[0]);
    BuildTableSnoc(d, a, es[..1], es[1]);
    BuildTableSnoc(d, a, es[..2], es[2]);
    BuildTableSnoc(d, a, es[..3], es[3]);
    assert [] + [es[0]] == es[..1];
    assert es[..1] + [es[1]] == es[..2];
    assert es[..2] + [es[2]] == es[..3];
    assert es[..3] + [es[3]] == es;
    assert BuildTable(d, a, es[..1]) == Ok(map[Key(es[0]) := "q1"]);
    assert BuildTable(d, a, es[..2]) == Ok(map[Key(es[0]) := "q1", Key(es[1]) := "q2"]);
    assert BuildTable(d, a, es[..3]) == Ok(map[Key(es[0]) := "q1", Key(es[1]) := "q2", Key(es[2]) := "q2"]);
  }

  predicate Binary(w: string)
  {
    forall i :: 0 <= i < |w| ==> w[i] == '0' || w[i] == '1'
  }

  /** Over {0, 1} the cursor ends in q1 exactly when the last symbol is 0. */
  lemma {:induction false} BinaryRun(q: State, w: string)
    requires q == "q1" || q == "q2"
    requires Binary(w)
    ensures Run(BinaryTable(), q, w) ==
      Consumed(if w == [] then q else if w[|w| - 1] == '0' then "q1" else "q2")
    decreases |w|
  {
    if w != [] {
      assert w[..1] == "0" || w[..1] == "1";
      var next := BinaryTable()[StateTokenPair(q, w[..1])];
      assert next == (if w[0] == '0' then "q1" else "q2");
      BinaryRun(next, w[1..]);
    }
  }

  /** A symbol outside {0, 1} has no edge and no wildcard to fall back on. */
  lemma {:induction false} NonBinaryStuck(q: State, w: string)
    requires q == "q1" || q == "q2"
    requires !Binary(w)
    ensures Run(BinaryTable(), q, w).Stuck?
    decreases |w|
  {
    var k := StateTokenPair(q, w[..1]);
    if w[0] == '0' || w[0] == '1' {
      assert w[..1] == "0" || w[..1] == "1";
      assert !Binary(w[1..]) by {
        var i :| 0 <= i < |w| && w[i] != '0' && w[i] != '1';
        assert w[1..][i - 1] == w[i];
      }
      NonBinaryStuck(BinaryTable()[k], w[1..]);
    } else {
      assert w[..1][0] == w[0];
      assert k !in BinaryTable();
    }
  }

  lemma AcceptsEvenBinary(w: string)
    requires Binary(w)
    ensures AcceptsFrom(BinaryTable(), {"q1"}, "q1", w) <==> (w == [] || w[|w| - 1] == '0')
  {
    BinaryRun("q1", w);
  }

  lemma RejectsNonBinary(w: string)
    requires !Binary(w)
    ensures !AcceptsFrom(BinaryTable(), {"q1"}, "q1", w)
  {
    NonBinaryStuck("q1", w);
  }

  // ---------------------------------------------------------------------
  // Three states joined by wildcard edges, finals q0 and q2: even lengths.

  function EvenEdges(): seq<Transition>
  {
    [ Transition("q0", AnySymbol, "q1"), Transition("q1", AnySymbol, "q2"),
      Transition("q2", AnySymbol, "q1") ]
  }

  function EvenTable(): Deltas
  {
    map[ StateTokenPair("q0", AnySymbol) := "q1", StateTokenPair("q1", AnySymbol) := "q2",
         StateTokenPair("q2", AnySymbol) := "q1" ]
  }

  /** The alphabet holds the wildcard sentinel itself. */
  lemma EvenBuilds()
    ensures Build(["q0", "q1", "q2"], [AnySymbol], EvenEdges(), ["q0", "q2"]) == Ok(EvenTable())
  {
    var d, a, es := {"q0", "q1", "q2"}, [AnySymbol], EvenEdges();
    assert Elements(["q0", "q1", "q2"]) == d && Elements(["q0", "q2"]) == {"q0", "q2"};
    BuildTableSnoc(d, a, [], es[0]);
    BuildTableSnoc(d, a, es[..1], es[1]);
    BuildTableSnoc(d, a, es[..2], es[2]);
    assert [] + [es[0]] == es[..1];
    assert es[..1] + [es[1]] == es[..2];
    assert es[..2] + [es[2]] == es;
    assert BuildTable(d, a, es[..1]) == Ok(map[Key(es[0]) := "q1"]);
    assert BuildTable(d, a, es[..2]) == Ok(map[Key(es[0]) := "q1", Key(es[1]) := "q2"]);
  }

  /** Between q1 and q2 every symbol flips the cursor. */
  lemma {:induction false} EvenRun(q: State, w: string)
    requires q == "q1" || q == "q2"
    ensures Run(EvenTable(), q, w) ==
      Consumed(if |w| % 2 == 0 then q else if q == "q1" then "q2" else "q1")
    decreases |w|
  {
    if w != [] {
      assert |w[..1]| == 1 && |AnySymbol| == 10;
      EvenRun(if q == "q1" then "q2" else "q1", w[1..]);
    }
  }

  lemma AcceptsEvenLength(w: string)
    ensures AcceptsFrom(EvenTable(), {"q0", "q2"}, "q0", w) <==> |w| % 2 == 0
  {
    if w != [] {
      assert |w[..1]| == 1 && |AnySymbol| == 10;
      assert Run(EvenTable(), "q0", w) == Run(EvenTable(), "q1", w[1..]);
      EvenRun("q1", w[1..]);
    }
  }

  /** The batch form: a language is accepted exactly when all its strings
      have even length. */
  lemma AcceptsEvenLanguage(l: set<string>)
    ensures (forall w :: w in l ==> AcceptsFrom(EvenTable(), {"q0", "q2"}, "q0", w)) <==>
            (forall w :: w in l ==> |w| % 2 == 0)
  {
    forall w | w in l {
      AcceptsEvenLength(w);
    }
  }

  // ---------------------------------------------------------------------
  // Four states in a wildcard cycle, finals q1 and q3: odd lengths.

  function OddEdges(): seq<Transition>
  {
    [ Transition("q0", AnySymbol, "q1"), Transition("q1", AnySymbol, "q2"),
      Transition("q2", AnySymbol, "q3"), Transition("q3", AnySymbol, "q0") ]
  }

  function OddTable(): Deltas
  {
    map[ StateTokenPair("q0", AnySymbol) := "q1", StateTokenPair("q1", AnySymbol) := "q2",
         StateTokenPair("q2", AnySymbol) := "q3", StateTokenPair("q3", AnySymbol) := "q0" ]
  }

  /** One more edge of a prefix whose table is known. */
  lemma BuildStep(d: set<State>, a: seq<Token>, es: seq<Transition>, n: nat, m: Deltas, m': Deltas)
    requires n < |es| && BuildTable(d, a, es[..n]) == Ok(m)
    requires AddDeltaSpec(d, a, m, es[n]) == Ok(m')
    ensures BuildTable(d, a, es[..n + 1]) == Ok(m')
  {
    BuildTableSnoc(d, a, es[..n], es[n]);
    assert es[..n] + [es[n]] == es[..n + 1];
  }

  lemma OddBuilds()
    ensures Build(["q0", "q1", "q2", "q3"], [AnySymbol], OddEdges(), ["q1", "q3"]) == Ok(OddTable())
  {
    var d, a, es := {"q0", "q1", "q2", "q3"}, [AnySymbol], OddEdges();
    assert Elements(["q0", "q1", "q2", "q3"]) == d && Elements(["q1", "q3"]) == {"q1", "q3"};
    var m0: Deltas := map[];
    var m1 := m0[StateTokenPair("q0", AnySymbol) := "q1"];
    var m2 := m1[StateTokenPair("q1", AnySymbol) := "q2"];
    var m3 := m2[StateTokenPair("q2", AnySymbol) := "q3"];
    var m4 := m3[StateTokenPair("q3", AnySymbol) := "q0"];
    assert es[..0] == [];
    BuildStep(d, a, es, 0, m0, m1);
    BuildStep(d, a, es, 1, m1, m2);
    BuildStep(d, a, es, 2, m2, m3);
    BuildStep(d, a, es, 3, m3, m4);
    assert es[..4] == es;
    assert m4 == OddTable();
  }

  function Cycle(i: nat): State
  {
    if i % 4 == 0 then "q0" else if i % 4 == 1 then "q1" else if i % 4 == 2 then "q2" else "q3"
  }

  /** From the i-th state of the cycle, `w` ends |w| steps further on. */
  lemma {:induction false} OddRun(i: nat, w: string)
    ensures Run(OddTable(), Cycle(i), w) == Consumed(Cycle(i + |w|))
    decreases |w|
  {
    if w != [] {
      assert |w[..1]| == 1 && |AnySymbol| == 10;
      assert OddTable()[StateTokenPair(Cycle(i), AnySymbol)] == Cycle(i + 1);
      OddRun(i + 1, w[1..]);
    }
  }

  lemma AcceptsOddLength(w: string)
    ensures AcceptsFrom(OddTable(), {"q1", "q3"}, "q0", w) <==> |w| % 2 == 1
  {
    OddRun(0, w);
    var r := |w| % 4;
    assert Cycle(|w|) == Cycle(r);
    assert r == 0 || r == 1 || r == 2 || r == 3;
    assert (r == 1 || r == 3) <==> |w| % 2 == 1;
  }

  /** Accepts keeps the cursor of the previous call: after accepting "a"
      from the start state, a second "a" is walked from q1 and rejected,
      although it has odd length. */
  lemma OddCursorCarriesOver()
    ensures AcceptsFrom(OddTable(), {"q1", "q3"}, "q0", "a")
    ensures Run(OddTable(), "q0", "a").at == "q1"
    ensures !AcceptsFrom(OddTable(), {"q1", "q3"}, Run(OddTable(), "q0", "a").at, "a")
  {
    OddRun(0, "a");
    OddRun(1, "a");
  }
}
