/** The meaning of a filter, in terms of its parts alone. */
module Meanings {
  import opened Wrappers
  import opened Filtering

  // What one restriction asks for.

  /** A restriction of the tags holds of the events that have the tag. */
  lemma TagMeaning(quoted: bool, fields: seq<Value>, comparator: string, name: string, more: seq<Value>, ev: Event)
    ensures var r := Restriction(
                       Some(Comparable(Some(Member(Some(Value(quoted, "tags")), fields)))), comparator,
                       Some(Arg(Some(Comparable(Some(Member(Some(Value(true, name)), more)))), None)));
      RestrictionError(r).None? && (RestrictionHolds(r, ev) <==> name in ev.tags)
  {}

  /** One of the annotations, under the first field, holds of the events that have the value there. */
  lemma AnnotationMeaning(quoted: bool, key: Value, fields: seq<Value>, comparator: string, value: string, more: seq<Value>, ev: Event)
    ensures var r := Restriction(
                       Some(Comparable(Some(Member(Some(Value(quoted, "annotations")), [key] + fields)))), comparator,
                       Some(Arg(Some(Comparable(Some(Member(Some(Value(true, value)), more)))), None)));
      && RestrictionError(r).None?
      && (RestrictionHolds(r, ev) <==> key.value in ev.annotations && ev.annotations[key.value] == value)
  {}

  /** Why a restriction of that form is refused, if it is. */
  lemma RefusedFor(field: Value, fields: seq<Value>, comparator: string, arg: Value, more: seq<Value>)
    ensures RestrictionError(Restriction(Some(Comparable(Some(Member(Some(field), fields)))), comparator,
                                         Some(Arg(Some(Comparable(Some(Member(Some(arg), more)))), None)))) ==
            if field.value == "tags" then if arg.quoted then None else Some(TagsUnquoted)
            else if field.value != "annotations" then Some(UnknownField(field.value))
            else if fields == [] then Some(AnnotationsArgument)
            else if arg.quoted then None
            else Some(AnnotationsUnquoted)
  {}

  /** And without a comparable to compare with. */
  lemma RefusedWithout(field: Value, fields: seq<Value>, comparator: string, arg: Option<Arg>)
    requires arg.Some? ==> arg.value.comparable.None?
    ensures RestrictionError(Restriction(Some(Comparable(Some(Member(Some(field), fields)))), comparator, arg)) ==
            if field.value == "tags" then Some(TagsArgument)
            else if field.value == "annotations" then Some(AnnotationsArgument)
            else Some(UnknownField(field.value))
  {}

  // How parts combine: every law is about concatenated lists and lists of one.

  /** Sequences are a conjunction. */
  lemma SequencesMeaning(a: seq<Sequence>, b: seq<Sequence>, s: Sequence, ev: Event)
    ensures Holds(Expression(a + b), ev) <==> Holds(Expression(a), ev) && Holds(Expression(b), ev)
    ensures Holds(Expression([]), ev) && (SequenceConstrains(s) ==> (Holds(Expression([s]), ev) <==> SequenceHolds(s, ev)))
  {
    Concat(a, b);
    if Holds(Expression(a + b), ev) {
      forall i | 0 <= i < |a| && SequenceConstrains(a[i]) ensures SequenceHolds(a[i], ev) { assert (a + b)[i] == a[i]; }
      forall i | 0 <= i < |b| && SequenceConstrains(b[i]) ensures SequenceHolds(b[i], ev) { assert (a + b)[|a| + i] == b[i]; }
    }
    assert SequenceConstrains(s) && Holds(Expression([s]), ev) ==> SequenceHolds([s][0], ev);
  }

  lemma Concat<T>(a: seq<T>, b: seq<T>)
    ensures forall i :: 0 <= i < |a| ==> (a + b)[i] == a[i]
    ensures forall i :: |a| <= i < |a| + |b| ==> (a + b)[i] == b[i - |a|]
  {}

  /** So are factors. */
  lemma FactorsMeaning(a: seq<Factor>, b: seq<Factor>, f: Factor, ev: Event)
    ensures SequenceHolds(Sequence(a + b), ev) <==> SequenceHolds(Sequence(a), ev) && SequenceHolds(Sequence(b), ev)
    ensures SequenceHolds(Sequence([]), ev) && (FactorConstrains(f) ==> (SequenceHolds(Sequence([f]), ev) <==> FactorHolds(f, ev)))
  {
    Concat(a, b);
    if SequenceHolds(Sequence(a + b), ev) {
      forall i | 0 <= i < |a| && FactorConstrains(a[i]) ensures FactorHolds(a[i], ev) { assert (a + b)[i] == a[i]; }
      forall i | 0 <= i < |b| && FactorConstrains(b[i]) ensures FactorHolds(b[i], ev) { assert (a + b)[|a| + i] == b[i]; }
    }
    assert FactorConstrains(f) && SequenceHolds(Sequence([f]), ev) ==> FactorHolds([f][0], ev);
  }

  /** Terms are alternatives. */
  lemma TermsMeaning(a: seq<Term>, b: seq<Term>, t: Term, ev: Event)
    ensures FactorHolds(Factor(a + b), ev) <==> FactorHolds(Factor(a), ev) || FactorHolds(Factor(b), ev)
    ensures !FactorHolds(Factor([]), ev) && (TermConstrains(t) ==> (FactorHolds(Factor([t]), ev) <==> TermHolds(t, ev)))
  {
    Concat(a, b);
    if FactorHolds(Factor(a), ev) {
      var i :| 0 <= i < |a| && TermConstrains(a[i]) && TermHolds(a[i], ev);
      assert TermConstrains(Factor(a + b).terms[i]);
    }
    if FactorHolds(Factor(b), ev) {
      var i :| 0 <= i < |b| && TermConstrains(b[i]) && TermHolds(b[i], ev);
      assert TermConstrains(Factor(a + b).terms[|a| + i]);
    }
    if TermConstrains(t) { assert TermConstrains(Factor([t]).terms[0]); }
  }

  /** A negation is the opposite, and a restriction or an expression in parentheses stands for itself. */
  lemma TermMeaning(s: Simple, r: Restriction, e: Expression, ev: Event)
    ensures TermHolds(Term(true, Some(s)), ev) <==> !TermHolds(Term(false, Some(s)), ev)
    ensures TermHolds(Term(false, Some(Simple(Some(r), None))), ev) <==> RestrictionHolds(r, ev)
    ensures TermHolds(Term(false, Some(Simple(None, Some(e)))), ev) <==> Holds(e, ev)
  {}

  lemma FilterMeaning(e: Expression, ev: Event)
    ensures Sat(Filter(None), ev) && (Sat(Filter(Some(e)), ev) <==> Holds(e, ev))
  {}

  // The first restriction that is refused decides.

  lemma {:induction false} FirstOfSequences(a: seq<Sequence>, b: seq<Sequence>)
    ensures SequencesError(a + b) == if SequencesError(a).Some? then SequencesError(a) else SequencesError(b)
  {
    if a == [] {
      assert a + b == b;
    } else {
      assert (a + b)[1..] == a[1..] + b;
      FirstOfSequences(a[1..], b);
    }
  }

  lemma {:induction false} FirstOfFactors(a: seq<Factor>, b: seq<Factor>)
    ensures FactorsError(a + b) == if FactorsError(a).Some? then FactorsError(a) else FactorsError(b)
  {
    if a == [] {
      assert a + b == b;
    } else {
      assert (a + b)[1..] == a[1..] + b;
      FirstOfFactors(a[1..], b);
    }
  }

  lemma {:induction false} FirstOfTerms(a: seq<Term>, b: seq<Term>)
    ensures TermsError(a + b) == if TermsError(a).Some? then TermsError(a) else TermsError(b)
  {
    if a == [] {
      assert a + b == b;
    } else {
      assert (a + b)[1..] == a[1..] + b;
      FirstOfTerms(a[1..], b);
    }
  }

  /** A part fails as its own parts do, negated or not. */
  lemma PartsError(s: Sequence, f: Factor, negated: bool, r: Restriction, e: Expression)
    ensures FirstError(Filter(None)).None? && FirstError(Filter(Some(e))) == SequencesError(e.sequences)
    ensures SequencesError([s]) == FactorsError(s.factors) && FactorsError([f]) == TermsError(f.terms)
    ensures TermsError([Term(negated, Some(Simple(Some(r), None)))]) == RestrictionError(r)
    ensures TermsError([Term(negated, Some(Simple(None, Some(e))))]) == SequencesError(e.sequences)
  {
    assert [s][1..] == [] && [f][1..] == [];
    var t, u := Term(negated, Some(Simple(Some(r), None))), Term(negated, Some(Simple(None, Some(e))));
    assert [t][1..] == [] && [u][1..] == [];
    assert TermError(t) == SimpleError(t.simple.value) == RestrictionError(r);
    assert TermError(u) == SimpleError(u.simple.value) == ExpressionError(e);
  }
}
