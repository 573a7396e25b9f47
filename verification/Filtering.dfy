/** The filter syntax tree and its meaning. */
module Filtering {
  import opened Wrappers
  import opened Keys

  datatype Filter = Filter(expression: Option<Expression>)
  datatype Expression = Expression(sequences: seq<Sequence>)
  datatype Sequence = Sequence(factors: seq<Factor>)
  datatype Factor = Factor(terms: seq<Term>)
  datatype Term = Term(negated: bool, simple: Option<Simple>)
  datatype Simple = Simple(restriction: Option<Restriction>, composite: Option<Expression>)
  datatype Restriction = Restriction(comparable: Option<Comparable>, comparator: string, arg: Option<Arg>)
  datatype Arg = Arg(comparable: Option<Comparable>, composite: Option<Expression>)
  datatype Comparable = Comparable(member: Option<Member>)
  datatype Member = Member(value: Option<Value>, fields: seq<Value>)
  datatype Value = Value(quoted: bool, value: string)

  datatype Event = Event(
    id: string,
    typeCode: string,
    externalID: string,
    startTime: Instant,
    endTime: Instant,
    tags: seq<string>,
    annotations: map<string, string>)

  datatype FilterError =
    | InvalidRestriction
    | TagsArgument
    | TagsUnquoted
    | AnnotationsArgument
    | AnnotationsUnquoted
    | UnknownField(name: string)

  /** What a restriction asks for, or why it cannot be evaluated. */
  datatype Target = TagIs(name: string) | AnnotationIs(key: string, value: string) | Ill(error: FilterError)

  function MemberValue(c: Option<Comparable>): Option<Value> {
    if c.None? || c.value.member.None? then None else c.value.member.value.value
  }

  function Resolve(r: Restriction): Target {
    var arg := if r.arg.None? then None else MemberValue(r.arg.value.comparable);
    match MemberValue(r.comparable)
    case None => Ill(InvalidRestriction)
    case Some(field) =>
      if field.value == "tags" then
        if arg.None? then Ill(TagsArgument)
        else if !arg.value.quoted then Ill(TagsUnquoted)
        else TagIs(arg.value.value)
      else if field.value == "annotations" then
        var fields := r.comparable.value.member.value.fields;
        if |fields| == 0 || arg.None? then Ill(AnnotationsArgument)
        else if !arg.value.quoted then Ill(AnnotationsUnquoted)
        else AnnotationIs(fields[0].value, arg.value.value)
      else Ill(UnknownField(field.value))
  }

  // The first restriction, from left to right, that cannot be evaluated.

  function FirstError(f: Filter): Option<FilterError> {
    if f.expression.None? then None else ExpressionError(f.expression.value)
  }

  function ExpressionError(e: Expression): Option<FilterError> {
    SequencesError(e.sequences)
  }

  function SequencesError(ss: seq<Sequence>): Option<FilterError> {
    if ss == [] then None
    else if FactorsError(ss[0].factors).Some? then FactorsError(ss[0].factors)
    else SequencesError(ss[1..])
  }

  function FactorsError(fs: seq<Factor>): Option<FilterError> {
    if fs == [] then None
    else if TermsError(fs[0].terms).Some? then TermsError(fs[0].terms)
    else FactorsError(fs[1..])
  }

  function TermsError(ts: seq<Term>): Option<FilterError> {
    if ts == [] then None
    else if TermError(ts[0]).Some? then TermError(ts[0])
    else TermsError(ts[1..])
  }

  function TermError(t: Term): Option<FilterError> {
    if t.simple.None? then None else SimpleError(t.simple.value)
  }

  function SimpleError(s: Simple): Option<FilterError> {
    if s.composite.Some? then ExpressionError(s.composite.value)
    else if s.restriction.Some? then RestrictionError(s.restriction.value)
    else None
  }

  function RestrictionError(r: Restriction): Option<FilterError> {
    match Resolve(r)
    case Ill(e) => Some(e)
    case _ => None
  }

  // Parts of a tree that constrain nothing: the index evaluator passes over them.

  predicate Constrains(e: Expression) {
    exists i :: 0 <= i < |e.sequences| && SequenceConstrains(e.sequences[i])
  }

  predicate SequenceConstrains(s: Sequence) {
    exists i :: 0 <= i < |s.factors| && FactorConstrains(s.factors[i])
  }

  predicate FactorConstrains(f: Factor) {
    exists i :: 0 <= i < |f.terms| && TermConstrains(f.terms[i])
  }

  predicate TermConstrains(t: Term) {
    t.simple.Some? && SimpleConstrains(t.simple.value)
  }

  predicate SimpleConstrains(s: Simple) {
    if s.composite.Some? then Constrains(s.composite.value) else s.restriction.Some?
  }

  // The meaning of a filter: sequences and factors are conjunctions, terms alternatives.

  predicate Sat(f: Filter, ev: Event) {
    f.expression.None? || Holds(f.expression.value, ev)
  }

  predicate Holds(e: Expression, ev: Event) {
    forall i :: 0 <= i < |e.sequences| && SequenceConstrains(e.sequences[i]) ==> SequenceHolds(e.sequences[i], ev)
  }

  predicate SequenceHolds(s: Sequence, ev: Event) {
    forall i :: 0 <= i < |s.factors| && FactorConstrains(s.factors[i]) ==> FactorHolds(s.factors[i], ev)
  }

  predicate FactorHolds(f: Factor, ev: Event) {
    exists i :: 0 <= i < |f.terms| && TermConstrains(f.terms[i]) && TermHolds(f.terms[i], ev)
  }

  predicate TermHolds(t: Term, ev: Event) {
    t.simple.Some? && SimpleHolds(t.simple.value, ev) != t.negated
  }

  predicate SimpleHolds(s: Simple, ev: Event) {
    if s.composite.Some? then Holds(s.composite.value, ev)
    else s.restriction.Some? && RestrictionHolds(s.restriction.value, ev)
  }

  predicate RestrictionHolds(r: Restriction, ev: Event) {
    match Resolve(r)
    case TagIs(name) => name in ev.tags
    case AnnotationIs(k, v) => k in ev.annotations && ev.annotations[k] == v
    case Ill(_) => false
  }

  // The shape of the trees that the parser builds: no list is empty and nothing is missing.

  predicate ShapedFilter(f: Filter) {
    f.expression.Some? ==> Shaped(f.expression.value)
  }

  predicate Shaped(e: Expression) {
    |e.sequences| > 0 && forall i :: 0 <= i < |e.sequences| ==> ShapedSequence(e.sequences[i])
  }

  predicate ShapedSequence(s: Sequence) {
    |s.factors| > 0 && forall i :: 0 <= i < |s.factors| ==> ShapedFactor(s.factors[i])
  }

  predicate ShapedFactor(f: Factor) {
    |f.terms| > 0 && forall i :: 0 <= i < |f.terms| ==> ShapedTerm(f.terms[i])
  }

  predicate ShapedTerm(t: Term) {
    t.simple.Some? && ShapedSimple(t.simple.value)
  }

  predicate ShapedSimple(s: Simple) {
    match s
    case Simple(None, Some(e)) => Shaped(e)
    case Simple(Some(r), None) => ShapedRestriction(r)
    case _ => false
  }

  predicate ShapedRestriction(r: Restriction) {
    MemberValue(r.comparable).Some? && match r.arg
      case None => r.comparator == ""
      case Some(Arg(Some(c), None)) => MemberValue(Some(c)).Some?
      case Some(Arg(None, Some(e))) => Shaped(e)
      case _ => false
  }

  /** In a tree of that shape every part constrains. */
  lemma {:induction false} ShapedConstrains(e: Expression)
    requires Shaped(e)
    ensures Constrains(e)
  {
    ShapedSequenceConstrains(e.sequences[0]);
  }

  lemma {:induction false} ShapedSequenceConstrains(s: Sequence)
    requires ShapedSequence(s)
    ensures SequenceConstrains(s)
  {
    ShapedFactorConstrains(s.factors[0]);
  }

  lemma {:induction false} ShapedFactorConstrains(f: Factor)
    requires ShapedFactor(f)
    ensures FactorConstrains(f)
  {
    ShapedTermConstrains(f.terms[0]);
  }

  lemma {:induction false} ShapedTermConstrains(t: Term)
    requires ShapedTerm(t)
    ensures TermConstrains(t)
  {
    if t.simple.value.composite.Some? { ShapedConstrains(t.simple.value.composite.value); }
  }

  // One more part of a list.

  lemma SequencesStep(ss: seq<Sequence>, i: nat, n: nat)
    requires i < n == i + 1 <= |ss|
    ensures Constrains(Expression(ss[..n])) <==> Constrains(Expression(ss[..i])) || SequenceConstrains(ss[i])
    ensures forall ev :: Holds(Expression(ss[..n]), ev) <==>
                           Holds(Expression(ss[..i]), ev) && (SequenceConstrains(ss[i]) ==> SequenceHolds(ss[i], ev))
    ensures SequencesError(ss[i..]) == if FactorsError(ss[i].factors).Some? then FactorsError(ss[i].factors) else SequencesError(ss[n..])
  {
    assert ss[..n][i] == ss[i] && forall k :: 0 <= k < i ==> ss[..n][k] == ss[..i][k];
    assert ss[i..][1..] == ss[n..];
  }

  lemma FactorsStep(fs: seq<Factor>, i: nat, n: nat)
    requires i < n == i + 1 <= |fs|
    ensures SequenceConstrains(Sequence(fs[..n])) <==> SequenceConstrains(Sequence(fs[..i])) || FactorConstrains(fs[i])
    ensures forall ev :: SequenceHolds(Sequence(fs[..n]), ev) <==>
                           SequenceHolds(Sequence(fs[..i]), ev) && (FactorConstrains(fs[i]) ==> FactorHolds(fs[i], ev))
    ensures FactorsError(fs[i..]) == if TermsError(fs[i].terms).Some? then TermsError(fs[i].terms) else FactorsError(fs[n..])
  {
    assert fs[..n][i] == fs[i] && forall k :: 0 <= k < i ==> fs[..n][k] == fs[..i][k];
    assert fs[i..][1..] == fs[n..];
  }

  lemma TermsStep(ts: seq<Term>, i: nat, n: nat)
    requires i < n == i + 1 <= |ts|
    ensures FactorConstrains(Factor(ts[..n])) <==> FactorConstrains(Factor(ts[..i])) || TermConstrains(ts[i])
    ensures forall ev :: FactorHolds(Factor(ts[..n]), ev) <==>
                           FactorHolds(Factor(ts[..i]), ev) || (TermConstrains(ts[i]) && TermHolds(ts[i], ev))
    ensures TermsError(ts[i..]) == if TermError(ts[i]).Some? then TermError(ts[i]) else TermsError(ts[n..])
  {
    var less, more := ts[..i], ts[..n];
    assert more[i] == ts[i] && forall k :: 0 <= k < i ==> more[k] == less[k];
    if FactorConstrains(Factor(less)) {
      var k :| 0 <= k < i && TermConstrains(less[k]);
      assert TermConstrains(Factor(more).terms[k]);
    }
    if TermConstrains(ts[i]) { assert TermConstrains(Factor(more).terms[i]); }
    forall ev
      ensures FactorHolds(Factor(more), ev) <==> FactorHolds(Factor(less), ev) || (TermConstrains(ts[i]) && TermHolds(ts[i], ev))
    {
      if FactorHolds(Factor(less), ev) {
        var k :| 0 <= k < i && TermConstrains(less[k]) && TermHolds(less[k], ev);
        assert TermConstrains(Factor(more).terms[k]) && TermHolds(Factor(more).terms[k], ev);
      }
      if TermConstrains(ts[i]) && TermHolds(ts[i], ev) {
        assert TermConstrains(Factor(more).terms[i]) && TermHolds(Factor(more).terms[i], ev);
      }
    }
    assert ts[i..][1..] == ts[n..];
  }
}
