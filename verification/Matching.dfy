/** Memtable items, their Bloom filters, and the filter evaluator that runs over a single item. */
module Matching {
  import opened Words
  import opened Wrappers
  import opened Filtering

  /** A Bloom filter: the bits set so far, and the positions that the hash functions give a string. */
  datatype Bloom = Bloom(hash: string -> set<nat>, bits: set<nat>) {
    function AddString(s: string): Bloom {
      Bloom(hash, bits + hash(s))
    }

    predicate TestString(s: string) {
      hash(s) <= bits
    }
  }

  datatype MemTableItem = MemTableItem(
    event: Option<Event>,
    tags: Bloom,
    annotations: Bloom,
    ts: uint64,
    isDeleted: bool)

  const NoEvent := Event("", "", "", 0, 0, [], map[])

  /** The event of an item; the getters of a missing event return empty values. */
  function EventOf(item: MemTableItem): Event {
    if item.event.Some? then item.event.value else NoEvent
  }

  /** Every tag and annotation of the event passes its Bloom filter. */
  ghost predicate NoFalseNegatives(item: MemTableItem) {
    && (forall t :: t in EventOf(item).tags ==> item.tags.TestString(t))
    && (forall k :: k in EventOf(item).annotations ==> item.annotations.TestString(k + "_" + EventOf(item).annotations[k]))
  }

  method NewMemTableItem(hash: string -> set<nat>, event: Option<Event>, ts: uint64, isDeleted: bool)
    returns (item: MemTableItem)
    ensures item.event == event && item.ts == ts && item.isDeleted == isDeleted
    ensures if event.Some? then EventOf(item) == event.value else EventOf(item).tags == [] && EventOf(item).annotations == map[]
    ensures NoFalseNegatives(item)
  {
    var tags, annotations := Bloom(hash, {}), Bloom(hash, {});
    if event.Some? {
      var i := 0;
      while i < |event.value.tags|
        invariant 0 <= i <= |event.value.tags| && tags.hash == hash
        invariant forall k :: 0 <= k < i ==> tags.TestString(event.value.tags[k])
      {
        tags := tags.AddString(event.value.tags[i]);
        i := i + 1;
      }
      var pending := event.value.annotations.Keys;
      while pending != {}
        invariant pending <= event.value.annotations.Keys && annotations.hash == hash
        invariant forall k :: k in event.value.annotations.Keys - pending ==>
                    annotations.TestString(k + "_" + event.value.annotations[k])
      {
        var k :| k in pending;
        annotations := annotations.AddString(k + "_" + event.value.annotations[k]);
        pending := pending - {k};
      }
    }
    item := MemTableItem(event, tags, annotations, ts, isDeleted);
  }

  function MatchMemTableItem(f: Filter, item: MemTableItem): Result<bool, FilterError> {
    if f.expression.None? then Ok(true) else MatchSequences(f.expression.value.sequences, item)
  }

  function MatchSequences(ss: seq<Sequence>, item: MemTableItem): Result<bool, FilterError> {
    if ss == [] then Ok(true)
    else match MatchFactors(ss[0].factors, item)
      case Err(e) => Err(e)
      case Ok(matched) => if !matched then Ok(false) else MatchSequences(ss[1..], item)
  }

  function MatchFactors(fs: seq<Factor>, item: MemTableItem): Result<bool, FilterError> {
    if fs == [] then Ok(true)
    else match MatchTerms(fs[0].terms, item)
      case Err(e) => Err(e)
      case Ok(matched) => if !matched then Ok(false) else MatchFactors(fs[1..], item)
  }

  function MatchTerms(ts: seq<Term>, item: MemTableItem): Result<bool, FilterError> {
    if ts == [] then Ok(false)
    else match MatchTerm(ts[0], item)
      case Err(e) => Err(e)
      case Ok(matched) => if matched then Ok(true) else MatchTerms(ts[1..], item)
  }

  function MatchTerm(t: Term, item: MemTableItem): Result<bool, FilterError> {
    match (if t.simple.None? then Ok(true) else MatchSimple(t.simple.value, item))
    case Err(e) => Err(e)
    case Ok(matched) => Ok(if t.negated then !matched else matched)
  }

  function MatchSimple(s: Simple, item: MemTableItem): Result<bool, FilterError> {
    if s.composite.Some? then MatchSequences(s.composite.value.sequences, item)
    else if s.restriction.Some? then MatchRestriction(s.restriction.value, item)
    else Ok(true)
  }

  function MatchRestriction(r: Restriction, item: MemTableItem): Result<bool, FilterError> {
    if r.comparable.None? || r.comparable.value.member.None? || r.comparable.value.member.value.value.None? then
      Err(InvalidRestriction)
    else
      var fieldName := r.comparable.value.member.value.value.value.value;
      if fieldName == "tags" then
        if r.arg.None? || r.arg.value.comparable.None? || r.arg.value.comparable.value.member.None?
           || r.arg.value.comparable.value.member.value.value.None? then
          Err(TagsArgument)
        else if !r.arg.value.comparable.value.member.value.value.value.quoted then
          Err(TagsUnquoted)
        else
          var tagName := r.arg.value.comparable.value.member.value.value.value.value;
          if !item.tags.TestString(tagName) then Ok(false) else Ok(tagName in EventOf(item).tags)
      else if fieldName == "annotations" then
        if |r.comparable.value.member.value.fields| == 0 || r.arg.None? || r.arg.value.comparable.None?
           || r.arg.value.comparable.value.member.None?
           || r.arg.value.comparable.value.member.value.value.None? then
          Err(AnnotationsArgument)
        else if !r.arg.value.comparable.value.member.value.value.value.quoted then
          Err(AnnotationsUnquoted)
        else
          var key := r.comparable.value.member.value.fields[0].value;
          var value := r.arg.value.comparable.value.member.value.value.value.value;
          if !item.annotations.TestString(key + "_" + value) then Ok(false)
          else if key in EventOf(item).annotations && EventOf(item).annotations[key] == value then Ok(true)
          else Ok(false)
      else
        Err(UnknownField(fieldName))
  }

  /** On a single restriction the two evaluators also fail alike: with the reason that `Resolve` gives. */
  lemma RestrictionMatch(r: Restriction, item: MemTableItem)
    requires NoFalseNegatives(item)
    ensures MatchRestriction(r, item)
         == if RestrictionError(r).Some? then Err(RestrictionError(r).value) else Ok(RestrictionHolds(r, EventOf(item)))
  {}

  /** On a filter of parser shape the evaluator computes the filter's meaning whenever it succeeds, and it succeeds
      when there is no ill-formed restriction; the Bloom filters never decide against it. */
  lemma MatchIsSat(f: Filter, item: MemTableItem)
    requires ShapedFilter(f) && NoFalseNegatives(item)
    ensures MatchMemTableItem(f, item).Ok? ==> MatchMemTableItem(f, item) == Ok(Sat(f, EventOf(item)))
    ensures FirstError(f).None? ==> MatchMemTableItem(f, item) == Ok(Sat(f, EventOf(item)))
  {
    if f.expression.Some? { SequencesMatch(f.expression.value.sequences, item); }
  }

  /** A success is the meaning, and without an error there is a success. */
  predicate Agrees(m: Result<bool, FilterError>, error: Option<FilterError>, meaning: bool) {
    (m.Ok? ==> m.value == meaning) && (error.None? ==> m.Ok?)
  }

  lemma {:induction false} SequencesMatch(ss: seq<Sequence>, item: MemTableItem)
    requires Shaped(Expression(ss)) || ss == []
    requires NoFalseNegatives(item)
    ensures Agrees(MatchSequences(ss, item), SequencesError(ss), Holds(Expression(ss), EventOf(item)))
    decreases ss, 1
  {
    if ss != [] {
      var head, tail := ss[0], ss[1..];
      assert forall i :: 0 <= i < |tail| ==> tail[i] == ss[i + 1];
      ShapedSequenceConstrains(head);
      FactorsMatch(head.factors, item);
      SequencesMatch(tail, item);
      assert head == Sequence(head.factors);
      assert Holds(Expression(ss), EventOf(item)) <==>
             SequenceHolds(head, EventOf(item)) && Holds(Expression(tail), EventOf(item)) by {
        forall i | 0 <= i < |tail| ensures Expression(tail).sequences[i] == Expression(ss).sequences[i + 1] {}
        assert Expression(ss).sequences[0] == head;
      }
    }
  }

  lemma {:induction false} FactorsMatch(fs: seq<Factor>, item: MemTableItem)
    requires ShapedSequence(Sequence(fs)) || fs == []
    requires NoFalseNegatives(item)
    ensures Agrees(MatchFactors(fs, item), FactorsError(fs), SequenceHolds(Sequence(fs), EventOf(item)))
    decreases fs, 1
  {
    if fs != [] {
      var head, tail := fs[0], fs[1..];
      assert forall i :: 0 <= i < |tail| ==> tail[i] == fs[i + 1];
      ShapedFactorConstrains(head);
      TermsMatch(head.terms, item);
      FactorsMatch(tail, item);
      assert head == Factor(head.terms);
      assert SequenceHolds(Sequence(fs), EventOf(item)) <==>
             FactorHolds(head, EventOf(item)) && SequenceHolds(Sequence(tail), EventOf(item)) by {
        forall i | 0 <= i < |tail| ensures Sequence(tail).factors[i] == Sequence(fs).factors[i + 1] {}
        assert Sequence(fs).factors[0] == head;
      }
    }
  }

  lemma {:induction false} TermsMatch(ts: seq<Term>, item: MemTableItem)
    requires ShapedFactor(Factor(ts)) || ts == []
    requires NoFalseNegatives(item)
    ensures Agrees(MatchTerms(ts, item), TermsError(ts), FactorHolds(Factor(ts), EventOf(item)))
    decreases ts, 1
  {
    if ts != [] {
      var head, tail := ts[0], ts[1..];
      assert forall i :: 0 <= i < |tail| ==> tail[i] == ts[i + 1];
      ShapedTermConstrains(head);
      TermMatch(head, item);
      TermsMatch(tail, item);
      assert FactorHolds(Factor(ts), EventOf(item)) <==>
             TermHolds(head, EventOf(item)) || FactorHolds(Factor(tail), EventOf(item)) by {
        forall i | 0 <= i < |tail| ensures Factor(tail).terms[i] == Factor(ts).terms[i + 1] {}
        assert Factor(ts).terms[0] == head;
      }
    }
  }

  lemma {:induction false} TermMatch(t: Term, item: MemTableItem)
    requires ShapedTerm(t) && NoFalseNegatives(item)
    ensures Agrees(MatchTerm(t, item), TermError(t), TermHolds(t, EventOf(item)))
    decreases t, 1
  {
    var s := t.simple.value;
    if s.composite.Some? {
      var e := s.composite.value;
      assert e == Expression(e.sequences);
      assert TermError(t) == SimpleError(s) == ExpressionError(e);
      SequencesMatch(e.sequences, item);
    } else {
      RestrictionMatch(s.restriction.value, item);
      assert TermError(t) == SimpleError(s) == RestrictionError(s.restriction.value);
    }
    assert Agrees(MatchSimple(s, item), TermError(t), SimpleHolds(s, EventOf(item)));
  }

  // How the evaluator stops early: what it makes of the first part of a list decides, or it goes on with the rest.

  lemma {:induction false} SequencesStop(a: seq<Sequence>, b: seq<Sequence>, item: MemTableItem)
    ensures MatchSequences(a + b, item) == if MatchSequences(a, item) == Ok(true) then MatchSequences(b, item) else MatchSequences(a, item)
  {
    if a == [] {
      assert a + b == b;
    } else {
      assert (a + b)[1..] == a[1..] + b;
      SequencesStop(a[1..], b, item);
    }
  }

  lemma {:induction false} FactorsStop(a: seq<Factor>, b: seq<Factor>, item: MemTableItem)
    ensures MatchFactors(a + b, item) == if MatchFactors(a, item) == Ok(true) then MatchFactors(b, item) else MatchFactors(a, item)
  {
    if a == [] {
      assert a + b == b;
    } else {
      assert (a + b)[1..] == a[1..] + b;
      FactorsStop(a[1..], b, item);
    }
  }

  lemma {:induction false} TermsStop(a: seq<Term>, b: seq<Term>, item: MemTableItem)
    ensures MatchTerms(a + b, item) == if MatchTerms(a, item) == Ok(false) then MatchTerms(b, item) else MatchTerms(a, item)
  {
    if a == [] {
      assert a + b == b;
    } else {
      assert (a + b)[1..] == a[1..] + b;
      TermsStop(a[1..], b, item);
    }
  }

  /** A part alone: an error stays one, negated or not. */
  lemma PartsMatch(s: Sequence, f: Factor, r: Restriction, e: Expression, item: MemTableItem)
    requires NoFalseNegatives(item)
    ensures MatchMemTableItem(Filter(Some(e)), item) == MatchSequences(e.sequences, item)
    ensures MatchSequences([s], item) == MatchFactors(s.factors, item) && MatchFactors([f], item) == MatchTerms(f.terms, item)
    ensures MatchTerms([Term(false, Some(Simple(None, Some(e))))], item) == MatchSequences(e.sequences, item)
    ensures RestrictionError(r).Some? ==>
              forall negated :: MatchTerms([Term(negated, Some(Simple(Some(r), None)))], item) == Err(RestrictionError(r).value)
  {
    assert [s][1..] == [] && [f][1..] == [];
    var t := Term(false, Some(Simple(None, Some(e))));
    assert [t][1..] == [];
    assert MatchTerm(t, item) == MatchSequences(e.sequences, item);
    if RestrictionError(r).Some? {
      forall negated ensures MatchTerms([Term(negated, Some(Simple(Some(r), None)))], item) == Err(RestrictionError(r).value) {
        RestrictionMatch(r, item);
        var u := Term(negated, Some(Simple(Some(r), None)));
        assert MatchTerm(u, item) == Err(RestrictionError(r).value);
      }
    }
  }

  function Word(text: string, quoted: bool): Comparable {
    Comparable(Some(Member(Some(Value(quoted, text)), [])))
  }

  /** A factor of a single restriction. */
  function Plain(r: Restriction): Factor {
    Factor([Term(false, Some(Simple(Some(r), None)))])
  }

  lemma OneTermError(ts: seq<Term>)
    requires |ts| == 1
    ensures TermsError(ts) == TermError(ts[0])
  {}

  /** The converse fails: this evaluator stops early and may never reach an ill-formed restriction.
      The filter is `tags = "x" colour`, on an item without the tag `x`. */
  lemma MatchMayHideErrors(item: MemTableItem, x: string)
    requires x !in EventOf(item).tags
    ensures exists f :: ShapedFilter(f) && FirstError(f) == Some(UnknownField("colour")) && MatchMemTableItem(f, item) == Ok(false)
  {
    var tag := Restriction(Some(Word("tags", false)), "=", Some(Arg(Some(Word(x, true)), None)));
    var bad := Restriction(Some(Word("colour", false)), "", None);
    var fs := [Plain(tag), Plain(bad)];
    var e := Expression([Sequence(fs)]);
    assert Resolve(tag) == TagIs(x);
    assert RestrictionError(tag).None? && RestrictionError(bad) == Some(UnknownField("colour"));
    OneTermError(Plain(tag).terms);
    OneTermError(Plain(bad).terms);
    assert fs[1..] == [Plain(bad)] && FactorsError([Plain(bad)]) == Some(UnknownField("colour"));
    assert FactorsError(fs) == Some(UnknownField("colour"));
    assert SequencesError(e.sequences) == Some(UnknownField("colour"));
    assert MatchTerm(Plain(tag).terms[0], item) == Ok(false);
    assert MatchTerms(Plain(tag).terms, item) == Ok(false);
    assert MatchFactors(fs, item) == Ok(false);
    assert MatchSequences(e.sequences, item) == Ok(false);
    assert ShapedRestriction(tag) && ShapedRestriction(bad);
    assert ShapedFactor(Plain(tag)) && ShapedFactor(Plain(bad));
    assert ShapedSequence(Sequence(fs));
    assert ShapedFilter(Filter(Some(e)));
  }
}
