/** The set of strings of language.go, used as a batch of inputs. */
module Languages {

  /** A mutable set of strings; the source's map only ever stores `true`. */
  class ExpressionSet {
    var expressions: set<string>

    /** NewEmptyExpressionSet. */
    constructor ()
      ensures expressions == {}
    {
      expressions := {};
    }

    method Add(s: string)
      modifies this
      ensures s in expressions
      ensures forall t :: t != s ==> (t in expressions <==> t in old(expressions))
      ensures expressions == old(expressions) + {s}
    {
      expressions := expressions + {s};
    }

    method Remove(s: string)
      modifies this
      ensures s !in expressions
      ensures forall t :: t != s ==> (t in expressions <==> t in old(expressions))
      ensures expressions == old(expressions) - {s}
    {
      expressions := expressions - {s};
    }

    /** A fresh set with the same strings; being a distinct object, later
        changes to either one leave the other alone. */
    method Copy() returns (c: ExpressionSet)
      ensures fresh(c)
      ensures c.expressions == expressions
    {
      c := new ExpressionSet();
      var rest := expressions;
      while rest != {}
        invariant fresh(c)
        invariant rest <= expressions
        invariant c.expressions == expressions - rest
        decreases rest
      {
        var k :| k in rest;
        c.Add(k);
        rest := rest - {k};
      }
    }

    /** A fresh set holding the strings of both sets; neither is changed
        (the method modifies nothing that existed before the call). */
    method Union(ee: ExpressionSet) returns (u: ExpressionSet)
      ensures fresh(u)
      ensures u.expressions == expressions + ee.expressions
    {
      u := Copy();
      var rest := ee.expressions;
      while rest != {}
        invariant fresh(u)
        invariant rest <= ee.expressions
        invariant u.expressions == expressions + (ee.expressions - rest)
        decreases rest
      {
        var k :| k in rest;
        u.Add(k);
        rest := rest - {k};
      }
    }
  }

  /** A fresh set of the strings in `ss`, duplicates collapsed. The source
      also returns an error value, which is always nil: `failed` is false. */
  method NewExpressionSet(ss: seq<string>) returns (e: ExpressionSet, failed: bool)
    ensures fresh(e)
    ensures e.expressions == set s | s in ss
    ensures !failed
  {
    e := new ExpressionSet();
    for i := 0 to |ss|
      invariant fresh(e)
      invariant e.expressions == set s | s in ss[..i]
    {
      assert ss[..i + 1] == ss[..i] + [ss[i]];
      e.expressions := e.expressions + {ss[i]};
    }
    assert ss[..|ss|] == ss;
    failed := false;
  }

  /** A language: a set of strings to be checked as a batch. */
  class Language {
    var expressions: ExpressionSet

    constructor (e: ExpressionSet)
      ensures expressions == e
    {
      expressions := e;
    }
  }

  /** NewLanguage never fails; its strings are exactly those of `ss`. */
  method NewLanguage(ss: seq<string>) returns (l: Language, failed: bool)
    ensures fresh(l) && fresh(l.expressions)
    ensures l.expressions.expressions == set s | s in ss
    ensures !failed
  {
    var e;
    e, failed := NewExpressionSet(ss);
    // The source returns early when that error is non-nil; it never is.
    l := new Language(e);
  }
}
