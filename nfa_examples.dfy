/** The automaton of the NFA test, built through the construction
    specification, with the language it accepts from {q1} proved for every
    input: the binary strings holding 11 or 101. */
module NfaExamples {
  import opened Outcomes
  import opened StateSets
  import opened Transitions
  import opened Nfa
  import Dfa
  import DfaExamples

  function TestEdges(): seq<NEdge>
  {
    [ NEdge("q1", "0", {"q1"}), NEdge("q1", "1", {"q1", "q2"}),
      NEdge("q2", "0", {"q3"}), NEdge("q2", Epsilon, {"q3"}),
      NEdge("q3", "1", {"q4"}),
      NEdge("q4", "0", {"q4"}), NEdge("q4", "1", {"q4"}) ]
  }

  function TestTable(): NTable
  {
    map[ StateTokenPair("q1", "0") := {"q1"}, StateTokenPair("q1", "1") := {"q1", "q2"},
         StateTokenPair("q2", "0") := {"q3"}, StateTokenPair("q2", Epsilon) := {"q3"},
         StateTokenPair("q3", "1") := {"q4"},
         StateTokenPair("q4", "0") := {"q4"}, StateTokenPair("q4", "1") := {"q4"} ]
  }

  /** One more edge of a prefix whose table is known. */
  lemma BuildStep(d: set<State>, a: seq<Token>, es: seq<NEdge>, n: nat, m: NTable, m': NTable)
    requires n < |es| && NBuildTable(d, a, es[..n]) == Ok(m)
    requires NAddDeltaSpec(d, a, m, es[n]) == Ok(m')
    ensures NBuildTable(d, a, es[..n + 1]) == Ok(m')
  {
    NBuildTableSnoc(d, a, es[..n], es[n]);
    assert es[..n] + [es[n]] == es[..n + 1];
  }

  /** The table after the first four edges. */
  function HalfTable(): NTable
  {
    map[ StateTokenPair("q1", "0") := {"q1"}, StateTokenPair("q1", "1") := {"q1", "q2"},
         StateTokenPair("q2", "0") := {"q3"}, StateTokenPair("q2", Epsilon) := {"q3"} ]
  }

  lemma HalfBuilds()
    ensures NBuildTable({"q1", "q2", "q3", "q4"}, ["0", "1"], TestEdges()[..4]) == Ok(HalfTable())
  {
    var d, a, es := {"q1", "q2", "q3", "q4"}, ["0", "1"], TestEdges();
    var m0: NTable := map[];
    var m1 := m0[StateTokenPair("q1", "0") := {"q1"}];
    var m2 := m1[StateTokenPair("q1", "1") := {"q1", "q2"}];
    var m3 := m2[StateTokenPair("q2", "0") := {"q3"}];
    var m4 := m3[StateTokenPair("q2", Epsilon) := {"q3"}];
    assert es[..0] == [];
    BuildStep(d, a, es, 0, m0, m1);
    BuildStep(d, a, es, 1, m1, m2);
    BuildStep(d, a, es, 2, m2, m3);
    BuildStep(d, a, es, 3, m3, m4);
    assert m4 == HalfTable();
  }

  lemma TestBuilds()
    ensures NBuildTable({"q1", "q2", "q3", "q4"}, ["0", "1"], TestEdges()) == Ok(TestTable())
  {
    var d, a, es := {"q1", "q2", "q3", "q4"}, ["0", "1"], TestEdges();
    HalfBuilds();
    var m4 := HalfTable();
    var m5 := m4[StateTokenPair("q3", "1") := {"q4"}];
    var m6 := m5[StateTokenPair("q4", "0") := {"q4"}];
    var m7 := m6[StateTokenPair("q4", "1") := {"q4"}];
    BuildStep(d, a, es, 4, m4, m5);
    BuildStep(d, a, es, 5, m5, m6);
    BuildStep(d, a, es, 6, m6, m7);
    assert es[..7] == es;
    assert m7 == TestTable();
  }

  // ---------------------------------------------------------------------
  // The cursors reachable from {q1}

  function A(): set<State> { {"q1"} }
  function B(): set<State> { {"q1", "q2", "q3"} }
  function C(): set<State> { {"q1", "q3"} }
  function D(): set<State> { {"q1", "q2", "q3", "q4"} }
  function E(): set<State> { {"q1", "q3", "q4"} }
  function F(): set<State> { {"q1", "q4"} }

  /** The successors of a set of states of the test table, edge by edge. */
  lemma TestSuccessors(from: set<State>, tok: Token)
    requires from <= {"q1", "q2", "q3", "q4"}
    ensures Successors(TestTable(), from, tok) ==
      (if "q1" in from then Targets(TestTable(), "q1", tok) else {}) +
      (if "q2" in from then Targets(TestTable(), "q2", tok) else {}) +
      (if "q3" in from then Targets(TestTable(), "q3", tok) else {}) +
      (if "q4" in from then Targets(TestTable(), "q4", tok) else {})
  {
  }

  /** A symbol other than 0, 1 and the epsilon marker moves nowhere. */
  lemma NoEdge(from: set<State>, tok: Token)
    requires tok != "0" && tok != "1" && tok != Epsilon
    ensures NextStatesOf(TestTable(), from, tok) == {}
  {
    assert Successors(TestTable(), from, tok) == {};
  }

  /** The target sets of the test table, key by key. */
  lemma TestTargets()
    ensures Targets(TestTable(), "q1", "0") == {"q1"} && Targets(TestTable(), "q1", "1") == {"q1", "q2"}
    ensures Targets(TestTable(), "q2", "0") == {"q3"} && Targets(TestTable(), "q2", "1") == {}
    ensures Targets(TestTable(), "q3", "0") == {} && Targets(TestTable(), "q3", "1") == {"q4"}
    ensures Targets(TestTable(), "q4", "0") == {"q4"} && Targets(TestTable(), "q4", "1") == {"q4"}
    ensures Targets(TestTable(), "q1", Epsilon) == {} && Targets(TestTable(), "q2", Epsilon) == {"q3"}
    ensures Targets(TestTable(), "q3", Epsilon) == {} && Targets(TestTable(), "q4", Epsilon) == {}
  {
  }

  lemma StepA()
    ensures NextStatesOf(TestTable(), A(), "0") == A()
    ensures NextStatesOf(TestTable(), A(), "1") == B()
  {
    StepA0();
    StepA1();
  }

  lemma StepA0()
    ensures NextStatesOf(TestTable(), A(), "0") == A()
  {
    TestTargets();
    TestSuccessors(A(), "0");
    var zero := Successors(TestTable(), A(), "0");
    assert zero == {"q1"};
    TestSuccessors(zero, Epsilon);
  }

  lemma StepA1()
    ensures NextStatesOf(TestTable(), A(), "1") == B()
  {
    TestTargets();
    TestSuccessors(A(), "1");
    var one := Successors(TestTable(), A(), "1");
    assert one == {"q1", "q2"};
    TestSuccessors(one, Epsilon);
  }

  lemma StepB()
    ensures NextStatesOf(TestTable(), B(), "0") == C()
    ensures NextStatesOf(TestTable(), B(), "1") == D()
  {
    StepB0();
    StepB1();
  }

  lemma StepB0()
    ensures NextStatesOf(TestTable(), B(), "0") == C()
  {
    TestTargets();
    TestSuccessors(B(), "0");
    var zero := Successors(TestTable(), B(), "0");
    assert zero == {"q1", "q3"};
    TestSuccessors(zero, Epsilon);
  }

  lemma StepB1()
    ensures NextStatesOf(TestTable(), B(), "1") == D()
  {
    TestTargets();
    TestSuccessors(B(), "1");
    var one := Successors(TestTable(), B(), "1");
    assert one == {"q1", "q2", "q4"};
    TestSuccessors(one, Epsilon);
  }

  lemma StepC()
    ensures NextStatesOf(TestTable(), C(), "0") == A()
    ensures NextStatesOf(TestTable(), C(), "1") == D()
  {
    StepC0();
    StepC1();
  }

  lemma StepC0()
    ensures NextStatesOf(TestTable(), C(), "0") == A()
  {
    TestTargets();
    TestSuccessors(C(), "0");
    var zero := Successors(TestTable(), C(), "0");
    assert zero == {"q1"};
    TestSuccessors(zero, Epsilon);
  }

  lemma StepC1()
    ensures NextStatesOf(TestTable(), C(), "1") == D()
  {
    TestTargets();
    TestSuccessors(C(), "1");
    var one := Successors(TestTable(), C(), "1");
    assert one == {"q1", "q2", "q4"};
    TestSuccessors(one, Epsilon);
  }

  lemma StepD()
    ensures NextStatesOf(TestTable(), D(), "0") == E()
    ensures NextStatesOf(TestTable(), D(), "1") == D()
  {
    StepD0();
    StepD1();
  }

  lemma StepD0()
    ensures NextStatesOf(TestTable(), D(), "0") == E()
  {
    TestTargets();
    TestSuccessors(D(), "0");
    var zero := Successors(TestTable(), D(), "0");
    assert zero == {"q1", "q3", "q4"};
    TestSuccessors(zero, Epsilon);
  }

  lemma StepD1()
    ensures NextStatesOf(TestTable(), D(), "1") == D()
  {
    TestTargets();
    TestSuccessors(D(), "1");
    var one := Successors(TestTable(), D(), "1");
    assert one == {"q1", "q2", "q4"};
    TestSuccessors(one, Epsilon);
  }

  lemma StepE()
    ensures NextStatesOf(TestTable(), E(), "0") == F()
    ensures NextStatesOf(TestTable(), E(), "1") == D()
  {
    StepE0();
    StepE1();
  }

  lemma StepE0()
    ensures NextStatesOf(TestTable(), E(), "0") == F()
  {
    TestTargets();
    TestSuccessors(E(), "0");
    var zero := Successors(TestTable(), E(), "0");
    assert zero == {"q1", "q4"};
    TestSuccessors(zero, Epsilon);
  }

  lemma StepE1()
    ensures NextStatesOf(TestTable(), E(), "1") == D()
  {
    TestTargets();
    TestSuccessors(E(), "1");
    var one := Successors(TestTable(), E(), "1");
    assert one == {"q1", "q2", "q4"};
    TestSuccessors(one, Epsilon);
  }

  lemma StepF()
    ensures NextStatesOf(TestTable(), F(), "0") == F()
    ensures NextStatesOf(TestTable(), F(), "1") == D()
  {
    StepF0();
    StepF1();
  }

  lemma StepF0()
    ensures NextStatesOf(TestTable(), F(), "0") == F()
  {
    TestTargets();
    TestSuccessors(F(), "0");
    var zero := Successors(TestTable(), F(), "0");
    assert zero == {"q1", "q4"};
    TestSuccessors(zero, Epsilon);
  }

  lemma StepF1()
    ensures NextStatesOf(TestTable(), F(), "1") == D()
  {
    TestTargets();
    TestSuccessors(F(), "1");
    var one := Successors(TestTable(), F(), "1");
    assert one == {"q1", "q2", "q4"};
    TestSuccessors(one, Epsilon);
  }

  // ---------------------------------------------------------------------
  // The language

  /** `w` holds 11 or 101 somewhere. */
  predicate HasPattern(w: string)
    decreases |w|
  {
    |w| >= 2 && (w[..2] == "11" || (|w| >= 3 && w[..3] == "101") || HasPattern(w[1..]))
  }

  lemma BinaryCons(w: string)
    requires w != []
    ensures DfaExamples.Binary(w) <==> (w[0] == '0' || w[0] == '1') && DfaExamples.Binary(w[1..])
  {
    if (w[0] == '0' || w[0] == '1') && DfaExamples.Binary(w[1..]) {
      forall i | 0 < i < |w| ensures w[i] == '0' || w[i] == '1' {
        assert w[1..][i - 1] == w[i];
      }
    }
  }

  /** The symbol `w` starts with, as the token Accepts tries. */
  lemma Head(w: string)
    requires w != []
    ensures w[0] == '0' ==> w[..1] == "0"
    ensures w[0] == '1' ==> w[..1] == "1"
    ensures w[0] != '0' && w[0] != '1' ==> w[..1] != "0" && w[..1] != "1" && w[..1] != Epsilon
  {
    assert w[..1] == [w[0]];
  }

  /** The six cursors the test automaton reaches from {q1}. */
  datatype Cursor = CA | CB | CC | CD | CE | CF

  function Cursors(c: Cursor): set<State>
  {
    match c
    case CA => A()
    case CB => B()
    case CC => C()
    case CD => D()
    case CE => E()
    case CF => F()
  }

  /** The cursor after a binary symbol. */
  function Move(c: Cursor, zero: bool): Cursor
  {
    match c
    case CA => if zero then CA else CB
    case CB => if zero then CC else CD
    case CC => if zero then CA else CD
    case CD => if zero then CE else CD
    case CE => if zero then CF else CD
    case CF => if zero then CF else CD
  }

  /** One step of the walk: a binary symbol moves the cursor as Move says,
      any other symbol leaves the walk stuck. */
  lemma RunStep(c: Cursor, w: string)
    requires w != []
    ensures w[0] == '0' || w[0] == '1' ==>
      Run(TestTable(), Cursors(c), w) == Run(TestTable(), Cursors(Move(c, w[0] == '0')), w[1..])
    ensures w[0] != '0' && w[0] != '1' ==> Run(TestTable(), Cursors(c), w) == Stuck(Cursors(c))
  {
    Head(w);
    NoEdge(Cursors(c), Dfa.AnySymbol);
    if w[0] != '0' && w[0] != '1' {
      NoEdge(Cursors(c), w[..1]);
    } else {
      match c
      case CA => StepA();
      case CB => StepB();
      case CC => StepC();
      case CD => StepD();
      case CE => StepE();
      case CF => StepF();
    }
  }

  /** Once q4 is in the cursor it stays: every binary input is accepted and
      nothing else is consumed. */
  lemma {:induction false} FromAccepting(c: Cursor, w: string)
    requires c == CD || c == CE || c == CF
    ensures AcceptsFrom(TestTable(), {"q4"}, Cursors(c), w) <==> DfaExamples.Binary(w)
    decreases |w|
  {
    if w != [] {
      BinaryCons(w);
      RunStep(c, w);
      if w[0] == '0' || w[0] == '1' {
        FromAccepting(Move(c, w[0] == '0'), w[1..]);
      }
    }
  }

  /** What a cursor without q4 remembers of the input read so far: the
      longest suffix that could still start a match. */
  function PrefixOf(c: Cursor): string
  {
    match c
    case CB => "1"
    case CC => "10"
    case _ => ""
  }

  /** One symbol, seen through HasPattern: reaching CD completes a match,
      otherwise the remembered suffix is all that matters. */
  lemma PatternStep(c: Cursor, w: string)
    requires c == CA || c == CB || c == CC
    requires w != [] && (w[0] == '0' || w[0] == '1')
    ensures Move(c, w[0] == '0') == CD ==> HasPattern(PrefixOf(c) + w)
    ensures Move(c, w[0] == '0') != CD ==>
      HasPattern(PrefixOf(c) + w) == HasPattern(PrefixOf(Move(c, w[0] == '0')) + w[1..])
  {
    var rest := w[1..];
    assert PrefixOf(CA) + rest == rest;
    if c == CA {
      assert PrefixOf(CA) + w == w;
      PatternStepA(w);
    } else if c == CB {
      PatternStepB(w);
    } else {
      PatternStepC(w);
    }
  }

  /** Nothing remembered: a 0 is skipped, a 1 is remembered. */
  lemma PatternStepA(w: string)
    requires w != [] && (w[0] == '0' || w[0] == '1')
    ensures w[0] == '0' ==> HasPattern(w) == HasPattern(w[1..])
    ensures w[0] == '1' ==> HasPattern(w) == HasPattern("1" + w[1..])
  {
    var rest := w[1..];
    assert w == [w[0]] + rest;
    if w[0] == '0' {
      ZeroHead(w);
    } else {
      assert w == "1" + rest;
    }
    assert PrefixOf(CA) + w == w;
  }

  /** "1" remembered: a 0 makes "10", a 1 completes "11". */
  lemma PatternStepB(w: string)
    requires w != [] && (w[0] == '0' || w[0] == '1')
    ensures w[0] == '0' ==> HasPattern("1" + w) == HasPattern("10" + w[1..])
    ensures w[0] == '1' ==> HasPattern("1" + w)
  {
    var rest := w[1..];
    assert w == [w[0]] + rest;
    if w[0] == '0' {
      assert "1" + w == "10" + rest;
    } else {
      assert ("1" + w)[..2] == "11";
    }
  }

  /** "10" remembered: a 0 forgets everything, a 1 completes "101". */
  lemma PatternStepC(w: string)
    requires w != [] && (w[0] == '0' || w[0] == '1')
    ensures w[0] == '0' ==> HasPattern("10" + w) == HasPattern(w[1..])
    ensures w[0] == '1' ==> HasPattern("10" + w)
  {
    var rest := w[1..];
    assert w == [w[0]] + rest;
    if w[0] == '0' {
      assert "10" + w == "100" + rest;
      ZeroPrefix("100", rest);
      assert "" + rest == rest;
    } else {
      assert ("10" + w)[..3] == "101";
    }
  }

  /** Before q4 is reached the cursor remembers the last symbols read: none
      that could start a match, 1, or 10. */
  lemma {:induction false} FromPrefix(c: Cursor, w: string)
    requires c == CA || c == CB || c == CC
    ensures AcceptsFrom(TestTable(), {"q4"}, Cursors(c), w) <==>
      DfaExamples.Binary(w) && HasPattern(PrefixOf(c) + w)
    decreases |w|
  {
    if w == [] {
      assert PrefixOf(c) + w == PrefixOf(c);
    } else {
      BinaryCons(w);
      RunStep(c, w);
      if w[0] == '0' || w[0] == '1' {
        var next := Move(c, w[0] == '0');
        PatternStep(c, w);
        if next == CD {
          FromAccepting(CD, w[1..]);
        } else {
          FromPrefix(next, w[1..]);
        }
      }
    }
  }

  /** A leading 0 cannot start a match. */
  lemma ZeroHead(w: string)
    requires w != [] && w[0] == '0'
    ensures HasPattern(w) == HasPattern(w[1..])
  {
    if |w| >= 2 {
      assert w[..2][0] == '0';
    }
    if |w| >= 3 {
      assert w[..3][0] == '0';
    }
  }

  /** Reading 100 forgets everything: no match can start before the last 0. */
  lemma ZeroPrefix(p: string, w: string)
    requires p == "100"
    ensures HasPattern(p + w) == HasPattern(w)
  {
    var s := p + w;
    assert s[..2] == "10";
    if |s| >= 3 {
      assert s[..3] == "100";
    }
    assert s[1..] == "00" + w;
    ZeroHead(s[1..]);
    assert s[1..][1..] == "0" + w;
    ZeroHead("0" + w);
    assert ("0" + w)[1..] == w;
  }

  /** From the reset cursor {q1} the test automaton accepts exactly the
      binary strings that hold 11 or 101. */
  lemma AcceptsTestLanguage(w: string)
    ensures AcceptsFrom(TestTable(), {"q4"}, {"q1"}, w) <==> DfaExamples.Binary(w) && HasPattern(w)
  {
    FromPrefix(CA, w);
    assert "" + w == w;
    assert Cursors(CA) == {"q1"};
  }

  /** The cursor after a whole input, or None at the first symbol outside
      {0, 1}. */
  function Walk(c: Cursor, w: string): Option<Cursor>
    decreases |w|
  {
    if w == [] then Some(c)
    else if w[0] == '0' || w[0] == '1' then Walk(Move(c, w[0] == '0'), w[1..])
    else None
  }

  /** The NFA walk follows Walk, and accepts when it ends on a cursor that
      holds q4. */
  lemma {:induction false} WalkRun(c: Cursor, w: string)
    ensures AcceptsFrom(TestTable(), {"q4"}, Cursors(c), w) <==>
      Walk(c, w).Some? && Walk(c, w).value in {CD, CE, CF}
    decreases |w|
  {
    if w != [] {
      RunStep(c, w);
      if w[0] == '0' || w[0] == '1' {
        WalkRun(Move(c, w[0] == '0'), w[1..]);
      }
    }
  }

  // The expectations of the test table, one input at a time, from the
  // reset cursor Cursors(CA) == {q1}.

  lemma TestAccepts101()
    ensures AcceptsFrom(TestTable(), {"q4"}, Cursors(CA), "101")
  {
    WalkRun(CA, "101");
  }

  lemma TestAccepts000101()
    ensures AcceptsFrom(TestTable(), {"q4"}, Cursors(CA), "000101")
  {
    WalkRun(CA, "000101");
  }

  lemma TestAccepts00101()
    ensures AcceptsFrom(TestTable(), {"q4"}, Cursors(CA), "00101")
  {
    WalkRun(CA, "00101");
  }

  lemma TestAccepts0011()
    ensures AcceptsFrom(TestTable(), {"q4"}, Cursors(CA), "0011")
  {
    WalkRun(CA, "0011");
  }

  lemma TestRejects0000()
    ensures !AcceptsFrom(TestTable(), {"q4"}, Cursors(CA), "0000")
  {
    WalkRun(CA, "0000");
  }

  lemma TestRejects100100100()
    ensures !AcceptsFrom(TestTable(), {"q4"}, Cursors(CA), "100100100")
  {
    WalkRun(CA, "100100100");
  }

  lemma TestAccepts1001010100100()
    ensures AcceptsFrom(TestTable(), {"q4"}, Cursors(CA), "1001010100100")
  {
    var w := "1001010100100";
    AcceptsTestLanguage(w);
    assert w[3..][..3] == "101";
    assert HasPattern(w[3..]);
    assert w[2..][1..] == w[3..];
    assert w[1..][1..] == w[2..];
    assert HasPattern(w[1..]);
  }

  lemma TestAccepts111111111111()
    ensures AcceptsFrom(TestTable(), {"q4"}, Cursors(CA), "111111111111")
  {
    WalkRun(CA, "111111111111");
  }
}
