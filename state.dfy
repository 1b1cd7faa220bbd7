/** Opaque states and the mutable state set of state.go. */
module StateSets {

  /** A state label; the library treats it as an opaque comparable string. */
  type State = string

  /** The elements of a slice of states, duplicates collapsed. */
  function Elements(xs: seq<State>): set<State>
  {
    set x | x in xs
  }

  /** A mutable set of states. The source backs it with a map whose values
      are only ever `true`, so the map is modelled by the set of its keys. */
  class StateSet {
    var states: set<State>

    /** NewEmptyStateSet: a fresh, empty set. */
    constructor ()
      ensures states == {}
    {
      states := {};
    }

    /** Membership; a state never added reads as absent. */
    function Contains(s: State): (b: bool)
      reads this
      ensures b <==> s in states
    {
      s in states
    }

    method Add(s: State)
      modifies this
      ensures Contains(s)
      ensures forall t :: t != s ==> Contains(t) == old(Contains(t))
      ensures states == old(states) + {s}
    {
      states := states + {s};
    }

    method AddSlice(xs: seq<State>)
      modifies this
      ensures states == old(states) + Elements(xs)
    {
      for i := 0 to |xs|
        invariant states == old(states) + Elements(xs[..i])
      {
        assert xs[..i + 1] == xs[..i] + [xs[i]];
        Add(xs[i]);
      }
      assert xs[..|xs|] == xs;
    }

    method Remove(s: State)
      modifies this
      ensures !Contains(s)
      ensures forall t :: t != s ==> Contains(t) == old(Contains(t))
      ensures states == old(states) - {s}
    {
      states := states - {s};
    }

    /** Whether every element of this set is in `tt`; stops at the first
        element that is missing. */
    method Subset(tt: StateSet) returns (b: bool)
      ensures b <==> states <= tt.states
    {
      var rest := states;
      while rest != {}
        invariant rest <= states
        invariant forall k :: k in states && k !in rest ==> k in tt.states
        decreases rest
      {
        var k :| k in rest;
        if !tt.Contains(k) {
          return false;
        }
        rest := rest - {k};
      }
      return true;
    }

    method Superset(tt: StateSet) returns (b: bool)
      ensures b <==> tt.states <= states
    {
      b := tt.Subset(this);
    }

    /** Merges the elements of `tt` into this set in place; `tt` is unchanged. */
    method Union(tt: StateSet)
      modifies this
      ensures states == old(states) + old(tt.states)
      ensures tt.states == old(tt.states)
    {
      var rest := tt.states;
      while rest != {}
        invariant rest <= old(tt.states)
        invariant states == old(states) + (old(tt.states) - rest)
        invariant tt.states == old(tt.states)
        decreases rest
      {
        var k :| k in rest;
        states := states + {k};
        rest := rest - {k};
      }
    }
  }

  /** NewStateSet: a fresh set holding exactly the states of the slice. */
  method NewStateSet(xs: seq<State>) returns (ss: StateSet)
    ensures fresh(ss)
    ensures ss.states == Elements(xs)
  {
    ss := new StateSet();
    for i := 0 to |xs|
      invariant fresh(ss)
      invariant ss.states == Elements(xs[..i])
    {
      assert xs[..i + 1] == xs[..i] + [xs[i]];
      ss.Add(xs[i]);
    }
    assert xs[..|xs|] == xs;
  }
}
