/** What the parser makes of given tokens: how tightly the parts of a filter bind, and its errors. */
module Readings {
  import opened Wrappers
  import opened Filtering
  import opened Grammar
  import opened Meanings

  function Text(s: string): Lexeme {
    Token(TEXT, s, None)
  }

  /** A string in quotes that unquotes to `s`. */
  function Quoted(s: string): Lexeme {
    Token(STRING, s, Some(s))
  }

  function Mark(kind: Kind): Lexeme
    requires kind != END
  {
    Token(kind, "", None)
  }

  function Equals(): Lexeme {
    Token(COMPARATOR, "=", None)
  }

  function IsTag(name: string): Simple {
    Simple(Some(Restriction(Some(Comparable(Some(Member(Some(Value(false, "tags")), [])))), "=",
                            Some(Arg(Some(Comparable(Some(Member(Some(Value(true, name)), [])))), None)))), None)
  }

  function IsAnnotation(key: string, value: string): Simple {
    Simple(Some(Restriction(Some(Comparable(Some(Member(Some(Value(false, "annotations")), [Value(false, key)])))), "=",
                            Some(Arg(Some(Comparable(Some(Member(Some(Value(true, value)), [])))), None)))), None)
  }

  lemma OneValue(t: Lexeme, rest: seq<Lexeme>)
    requires t.kind == TEXT || (t.kind == STRING && t.unquoted.Some?)
    requires Head(rest) != DOT
    ensures var v := if t.kind == TEXT then Value(false, t.value) else Value(true, t.unquoted.value);
      ParseComparable([t] + rest) == Node(Comparable(Some(Member(Some(v), []))), rest)
  {
    assert ([t] + rest)[1..] == rest;
  }

  lemma DottedValue(t: Lexeme, u: Lexeme, rest: seq<Lexeme>)
    requires t.kind == TEXT && u.kind == TEXT && Head(rest) != DOT
    ensures ParseComparable([t, Mark(DOT), u] + rest)
         == Node(Comparable(Some(Member(Some(Value(false, t.value)), [Value(false, u.value)]))), rest)
  {
    var ts := [t, Mark(DOT), u] + rest;
    assert ts[1..] == [Mark(DOT), u] + rest && ts[1..][1..] == [u] + rest && ([u] + rest)[1..] == rest;
    OneValue(u, rest);
    assert ParseFields(rest) == Node([], rest);
    assert ParseFields(ts[1..]) == Node([Value(false, u.value)] + [], rest);
    assert [Value(false, u.value)] + [] == [Value(false, u.value)];
  }

  lemma ReadTag(name: string, rest: seq<Lexeme>)
    requires Head(rest) != DOT
    ensures ParseSimple([Text("tags"), Equals(), Quoted(name)] + rest) == Node(IsTag(name), rest)
  {
    var ts := [Text("tags"), Equals(), Quoted(name)] + rest;
    var more := [Equals(), Quoted(name)] + rest;
    assert ts == [Text("tags")] + more && more[1..] == [Quoted(name)] + rest;
    OneValue(Text("tags"), more);
    OneValue(Quoted(name), rest);
    assert ParseArg(more[1..]).Node?;
  }

  lemma ReadAnnotation(key: string, value: string, rest: seq<Lexeme>)
    requires Head(rest) != DOT
    ensures ParseSimple([Text("annotations"), Mark(DOT), Text(key), Equals(), Quoted(value)] + rest)
         == Node(IsAnnotation(key, value), rest)
  {
    var ts := [Text("annotations"), Mark(DOT), Text(key), Equals(), Quoted(value)] + rest;
    var more := [Equals(), Quoted(value)] + rest;
    assert ts == [Text("annotations"), Mark(DOT), Text(key)] + more && more[1..] == [Quoted(value)] + rest;
    DottedValue(Text("annotations"), Text(key), more);
    OneValue(Quoted(value), rest);
    assert ParseArg(more[1..]).Node?;
  }

  // Reading the parts of a list one after the other.

  lemma LastTerm(ts: seq<Lexeme>, t: Term, rest: seq<Lexeme>)
    requires ParseTerm(ts) == Node(t, rest) && Head(rest) != OR
    ensures ParseFactor(ts) == Node(Factor([t]), rest)
  {
    hide ParseTerm;
    assert ParseTerms(rest) == Node([], rest);
    assert [t] + [] == [t];
  }

  lemma TwoTerms(ts: seq<Lexeme>, t: Term, more: seq<Lexeme>, u: Term, rest: seq<Lexeme>)
    requires ParseTerm(ts) == Node(t, [Mark(OR)] + more) && ParseTerm(more) == Node(u, rest) && Head(rest) != OR
    ensures ParseFactor(ts) == Node(Factor([t, u]), rest)
  {
    var or := [Mark(OR)] + more;
    assert or[1..] == more;
    assert ParseTerms(rest) == Node([], rest);
    hide ParseTerm;
    assert ParseTerms(or) == Node([u] + [], rest);
    assert [t] + ([u] + []) == [t, u];
  }

  /** Nothing that starts with such a token is a factor. */
  lemma NoFactor(ts: seq<Lexeme>)
    requires Head(ts) in {END, AND, RPAREN}
    ensures ParseFactors(ts) == Node([], ts)
  {
    assert ParseComparable(ts) == Nothing;
    assert ParseRestriction(ts) == Nothing;
    assert ParseComposite(ts) == Nothing;
    assert ParseSimple(ts) == Nothing;
    hide ParseSimple;
    assert ParseTerm(ts) == Nothing;
    assert ParseFactor(ts) == Nothing;
  }

  lemma LastFactor(ts: seq<Lexeme>, f: Factor, rest: seq<Lexeme>)
    requires ParseFactor(ts) == Node(f, rest) && Head(rest) in {END, AND, RPAREN}
    ensures ParseSequence(ts) == Node(Sequence([f]), rest)
  {
    NoFactor(rest);
    hide ParseFactor;
    assert ParseFactors(ts) == Node([f] + [], rest);
    assert [f] + [] == [f];
  }

  lemma TwoFactors(ts: seq<Lexeme>, f: Factor, more: seq<Lexeme>, g: Factor, rest: seq<Lexeme>)
    requires ParseFactor(ts) == Node(f, more) && ParseFactor(more) == Node(g, rest) && Head(rest) in {END, AND, RPAREN}
    ensures ParseSequence(ts) == Node(Sequence([f, g]), rest)
  {
    NoFactor(rest);
    hide ParseFactor;
    assert ParseFactors(more) == Node([g] + [], rest);
    assert ParseFactors(ts) == Node([f] + ([g] + []), rest);
    assert [f] + ([g] + []) == [f, g];
  }

  lemma LastSequence(ts: seq<Lexeme>, s: Sequence, rest: seq<Lexeme>)
    requires ParseSequence(ts) == Node(s, rest) && Head(rest) != AND
    ensures ParseExpression(ts) == Node(Expression([s]), rest)
  {
    hide ParseSequence;
    assert ParseSequences(rest) == Node([], rest);
    assert [s] + [] == [s];
  }

  lemma TwoSequences(ts: seq<Lexeme>, s: Sequence, more: seq<Lexeme>, z: Sequence, rest: seq<Lexeme>)
    requires ParseSequence(ts) == Node(s, [Mark(AND)] + more) && ParseSequence(more) == Node(z, rest) && Head(rest) != AND
    ensures ParseExpression(ts) == Node(Expression([s, z]), rest)
  {
    hide ParseSequence;
    var and := [Mark(AND)] + more;
    assert and[1..] == more;
    assert ParseSequences(rest) == Node([], rest);
    assert ParseSequences(and) == Node([z] + [], rest);
    assert [s] + ([z] + []) == [s, z];
  }

  lemma Enclosed(ts: seq<Lexeme>, e: Expression, rest: seq<Lexeme>)
    requires ParseExpression(ts) == Node(e, [Mark(RPAREN)] + rest)
    ensures ParseTerm([Mark(LPAREN)] + ts) == Node(Term(false, Some(Simple(None, Some(e)))), rest)
  {
    hide ParseExpression;
    var all := [Mark(LPAREN)] + ts;
    assert all[1..] == ts && ([Mark(RPAREN)] + rest)[1..] == rest;
    assert ParseComposite(all) == Node(e, rest);
    assert ParseRestriction(all) == Nothing;
  }

  lemma Plain(ts: seq<Lexeme>, s: Simple, rest: seq<Lexeme>)
    requires ParseSimple(ts) == Node(s, rest) && Head(ts) != NEGATE
    ensures ParseTerm(ts) == Node(Term(false, Some(s)), rest)
    ensures ParseTerm([Mark(NEGATE)] + ts) == Node(Term(true, Some(s)), rest)
  {
    hide ParseSimple;
    assert ([Mark(NEGATE)] + ts)[1..] == ts;
  }

  lemma TagTerm(name: string, rest: seq<Lexeme>)
    requires Head(rest) != DOT
    ensures ParseTerm([Text("tags"), Equals(), Quoted(name)] + rest) == Node(Term(false, Some(IsTag(name))), rest)
    ensures ParseTerm([Mark(NEGATE), Text("tags"), Equals(), Quoted(name)] + rest) == Node(Term(true, Some(IsTag(name))), rest)
  {
    var ts := [Text("tags"), Equals(), Quoted(name)] + rest;
    ReadTag(name, rest);
    Plain(ts, IsTag(name), rest);
    assert [Mark(NEGATE)] + ts == [Mark(NEGATE), Text("tags"), Equals(), Quoted(name)] + rest;
  }

  /** `tags = v OR NOT tags = w annotations.k = x AND (tags = y)`: alternatives bind more tightly than factors side
      by side, and these more tightly than `AND`; parentheses enclose an expression. */
  lemma SampleIsRead(v: string, w: string, k: string, x: string, y: string)
    ensures ParseFilter(
              [Text("tags"), Equals(), Quoted(v), Mark(OR), Mark(NEGATE), Text("tags"), Equals(), Quoted(w),
               Text("annotations"), Mark(DOT), Text(k), Equals(), Quoted(x), Mark(AND),
               Mark(LPAREN), Text("tags"), Equals(), Quoted(y), Mark(RPAREN)])
         == Ok(Filter(Some(Expression([
                             Sequence([Factor([Term(false, Some(IsTag(v))), Term(true, Some(IsTag(w)))]),
                                       Factor([Term(false, Some(IsAnnotation(k, x)))])]),
                             Sequence([Factor([Term(false, Some(Simple(None, Some(Expression([Sequence([Factor([Term(false, Some(IsTag(y)))])])])))))])])
                           ]))))
  {
    hide *;
    var inner := Expression([Sequence([Factor([Term(false, Some(IsTag(y)))])])]);
    var first := Sequence([Factor([Term(false, Some(IsTag(v))), Term(true, Some(IsTag(w)))]), Factor([Term(false, Some(IsAnnotation(k, x)))])]);
    var second := Sequence([Factor([Term(false, Some(Simple(None, Some(inner))))])]);
    var closing: seq<Lexeme> := [Mark(LPAREN), Text("tags"), Equals(), Quoted(y), Mark(RPAREN)];
    SecondSequence(y);
    FirstSequence(v, w, k, x, closing);
    var ts := [Text("tags"), Equals(), Quoted(v)] + ([Mark(OR)] + ([Mark(NEGATE), Text("tags"), Equals(), Quoted(w)]
              + ([Text("annotations"), Mark(DOT), Text(k), Equals(), Quoted(x)] + ([Mark(AND)] + closing))));
    NoMore([]);
    TwoSequences(ts, first, closing, second, []);
    AllRead(ts, Expression([first, second]));
    assert ts == [Text("tags"), Equals(), Quoted(v), Mark(OR), Mark(NEGATE), Text("tags"), Equals(), Quoted(w),
                  Text("annotations"), Mark(DOT), Text(k), Equals(), Quoted(x), Mark(AND),
                  Mark(LPAREN), Text("tags"), Equals(), Quoted(y), Mark(RPAREN)];
  }

  lemma NoMore(ts: seq<Lexeme>)
    requires ts == []
    ensures Head(ts) == END
  {}

  lemma AllRead(ts: seq<Lexeme>, e: Expression)
    requires ts != [] && ParseExpression(ts) == Node(e, [])
    ensures ParseFilter(ts) == Ok(Filter(Some(e)))
  {
    hide ParseExpression;
  }

  lemma FirstSequence(v: string, w: string, k: string, x: string, rest: seq<Lexeme>)
    ensures ParseSequence([Text("tags"), Equals(), Quoted(v)] + ([Mark(OR)] + ([Mark(NEGATE), Text("tags"), Equals(), Quoted(w)]
                          + ([Text("annotations"), Mark(DOT), Text(k), Equals(), Quoted(x)] + ([Mark(AND)] + rest)))))
         == Node(Sequence([Factor([Term(false, Some(IsTag(v))), Term(true, Some(IsTag(w)))]), Factor([Term(false, Some(IsAnnotation(k, x)))])]),
                 [Mark(AND)] + rest)
  {
    var after := [Mark(AND)] + rest;
    var third := [Text("annotations"), Mark(DOT), Text(k), Equals(), Quoted(x)] + after;
    var second := [Mark(NEGATE), Text("tags"), Equals(), Quoted(w)] + third;
    var ts := [Text("tags"), Equals(), Quoted(v)] + ([Mark(OR)] + second);
    assert Head(after) == AND && Head(third) == TEXT && Head([Mark(OR)] + second) == OR;
    hide *;
    ReadAnnotation(k, x, after);
    Plain(third, IsAnnotation(k, x), after);
    LastTerm(third, Term(false, Some(IsAnnotation(k, x))), after);
    TagTerm(w, third);
    TagTerm(v, [Mark(OR)] + second);
    TwoTerms(ts, Term(false, Some(IsTag(v))), second, Term(true, Some(IsTag(w))), third);
    TwoFactors(ts, Factor([Term(false, Some(IsTag(v))), Term(true, Some(IsTag(w)))]), third,
               Factor([Term(false, Some(IsAnnotation(k, x)))]), after);
  }

  lemma SecondSequence(y: string)
    ensures ParseSequence([Mark(LPAREN), Text("tags"), Equals(), Quoted(y), Mark(RPAREN)])
         == Node(Sequence([Factor([Term(false, Some(Simple(None, Some(Expression([Sequence([Factor([Term(false, Some(IsTag(y)))])])])))))])]), [])
  {
    var close: seq<Lexeme> := [Mark(RPAREN)] + [];
    var inside := [Text("tags"), Equals(), Quoted(y)] + close;
    var tag := Term(false, Some(IsTag(y)));
    var e := Expression([Sequence([Factor([tag])])]);
    hide ParseFactor, ParseTerm, ParseSimple, ParseSequence, ParseExpression, IsTag;
    TagTerm(y, close);
    LastTerm(inside, tag, close);
    LastFactor(inside, Factor([tag]), close);
    LastSequence(inside, Sequence([Factor([tag])]), close);
    Enclosed(inside, e, []);
    var ts := [Mark(LPAREN)] + inside;
    LastTerm(ts, Term(false, Some(Simple(None, Some(e)))), []);
    LastFactor(ts, Factor([Term(false, Some(Simple(None, Some(e))))]), []);
    assert ts == [Mark(LPAREN), Text("tags"), Equals(), Quoted(y), Mark(RPAREN)];
  }

  /** And this is what it asks of an event. */
  lemma SampleMeans(v: string, w: string, k: string, x: string, y: string, ev: Event)
    ensures var f := ParseFilter(
                       [Text("tags"), Equals(), Quoted(v), Mark(OR), Mark(NEGATE), Text("tags"), Equals(), Quoted(w),
                        Text("annotations"), Mark(DOT), Text(k), Equals(), Quoted(x), Mark(AND),
                        Mark(LPAREN), Text("tags"), Equals(), Quoted(y), Mark(RPAREN)]);
      f.Ok? && (Sat(f.value, ev) <==>
                  (v in ev.tags || w !in ev.tags) && k in ev.annotations && ev.annotations[k] == x && y in ev.tags)
  {
    SampleIsRead(v, w, k, x, y);
    var one, two := Term(false, Some(IsTag(v))), Term(true, Some(IsTag(w)));
    var three, four := Term(false, Some(IsAnnotation(k, x))), Term(false, Some(IsTag(y)));
    hide ParseFilter;
    TagSimple(v, ev);
    TagSimple(w, ev);
    TagSimple(y, ev);
    AnnotationSimple(k, x, ev);
    var inner := Expression([Sequence([Factor([four])])]);
    var five := Term(false, Some(Simple(None, Some(inner))));
    hide IsTag, IsAnnotation;
    FactorOf(four, ev);
    SequenceOf(Factor([four]), ev);
    ExpressionOf(Sequence([Factor([four])]), ev);
    assert TermConstrains(five) && (TermHolds(five, ev) <==> y in ev.tags) by { TermMeaning(five.simple.value, AnyRestriction(), inner, ev); }
    FactorOf(five, ev);
    SequenceOf(Factor([five]), ev);
    FactorOf(three, ev);
    PairOfTerms(one, two, ev);
    PairOfFactors(Factor([one, two]), Factor([three]), ev);
    PairOfSequences(Sequence([Factor([one, two]), Factor([three])]), Sequence([Factor([five])]), ev);
  }

  function AnyRestriction(): Restriction {
    Restriction(None, "", None)
  }

  lemma TagSimple(name: string, ev: Event)
    ensures TermConstrains(Term(false, Some(IsTag(name)))) && TermConstrains(Term(true, Some(IsTag(name))))
    ensures TermHolds(Term(false, Some(IsTag(name))), ev) <==> name in ev.tags
    ensures TermHolds(Term(true, Some(IsTag(name))), ev) <==> name !in ev.tags
  {
    TagMeaning(false, [], "=", name, [], ev);
  }

  lemma AnnotationSimple(key: string, value: string, ev: Event)
    ensures TermConstrains(Term(false, Some(IsAnnotation(key, value))))
    ensures TermHolds(Term(false, Some(IsAnnotation(key, value))), ev) <==> key in ev.annotations && ev.annotations[key] == value
  {
    AnnotationMeaning(false, Value(false, key), [], "=", value, [], ev);
    assert [Value(false, key)] + [] == [Value(false, key)];
  }

  lemma FactorOf(t: Term, ev: Event)
    requires TermConstrains(t)
    ensures FactorConstrains(Factor([t])) && (FactorHolds(Factor([t]), ev) <==> TermHolds(t, ev))
  {
    TermsMeaning([], [], t, ev);
    assert Factor([t]).terms[0] == t;
  }

  lemma PairOfTerms(t: Term, u: Term, ev: Event)
    requires TermConstrains(t) && TermConstrains(u)
    ensures FactorConstrains(Factor([t, u])) && (FactorHolds(Factor([t, u]), ev) <==> TermHolds(t, ev) || TermHolds(u, ev))
  {
    FactorOf(t, ev);
    FactorOf(u, ev);
    TermsMeaning([t], [u], t, ev);
    assert [t] + [u] == [t, u] && Factor([t, u]).terms[0] == t;
  }

  lemma SequenceOf(f: Factor, ev: Event)
    requires FactorConstrains(f)
    ensures SequenceConstrains(Sequence([f])) && (SequenceHolds(Sequence([f]), ev) <==> FactorHolds(f, ev))
  {
    FactorsMeaning([], [], f, ev);
    assert Sequence([f]).factors[0] == f;
  }

  lemma PairOfFactors(f: Factor, g: Factor, ev: Event)
    requires FactorConstrains(f) && FactorConstrains(g)
    ensures SequenceConstrains(Sequence([f, g]))
    ensures SequenceHolds(Sequence([f, g]), ev) <==> FactorHolds(f, ev) && FactorHolds(g, ev)
  {
    SequenceOf(f, ev);
    SequenceOf(g, ev);
    FactorsMeaning([f], [g], f, ev);
    assert [f] + [g] == [f, g] && Sequence([f, g]).factors[0] == f;
  }

  lemma ExpressionOf(s: Sequence, ev: Event)
    requires SequenceConstrains(s)
    ensures Constrains(Expression([s])) && (Holds(Expression([s]), ev) <==> SequenceHolds(s, ev))
  {
    SequencesMeaning([], [], s, ev);
    assert Expression([s]).sequences[0] == s;
  }

  lemma PairOfSequences(s: Sequence, z: Sequence, ev: Event)
    requires SequenceConstrains(s) && SequenceConstrains(z)
    ensures Holds(Expression([s, z]), ev) <==> SequenceHolds(s, ev) && SequenceHolds(z, ev)
  {
    ExpressionOf(s, ev);
    ExpressionOf(z, ev);
    SequencesMeaning([s], [z], s, ev);
    assert [s] + [z] == [s, z];
  }

  // The errors, each on the least input that has it.

  /** A value that nothing follows, or one of these tokens. */
  lemma JustText(v: string, rest: seq<Lexeme>)
    requires Head(rest) !in {DOT, COMPARATOR}
    ensures exists s :: ParseSimple([Text(v)] + rest) == Node(s, rest)
  {
    OneValue(Text(v), rest);
    var c := Comparable(Some(Member(Some(Value(false, v)), [])));
    assert ParseRestriction([Text(v)] + rest) == Node(Restriction(Some(c), "", None), rest);
  }

  lemma TextSequence(v: string, rest: seq<Lexeme>)
    requires Head(rest) in {END, AND, RPAREN}
    ensures exists s :: ParseSequence([Text(v)] + rest) == Node(s, rest)
  {
    JustText(v, rest);
    var s :| ParseSimple([Text(v)] + rest) == Node(s, rest);
    Plain([Text(v)] + rest, s, rest);
    LastTerm([Text(v)] + rest, Term(false, Some(s)), rest);
    LastFactor([Text(v)] + rest, Factor([Term(false, Some(s))]), rest);
  }

  lemma EmptyIsAll()
    ensures ParseFilter([]) == Ok(Filter(None))
  {}

  lemma NoSequence(kind: Kind)
    requires kind in {AND, RPAREN}
    ensures ParseFilter([Mark(kind)]) == Err(Expected(END))
  {
    NoFactor([Mark(kind)]);
    hide ParseFactors;
    assert ParseSequence([Mark(kind)]) == Nothing;
  }

  lemma AfterAnd(v: string)
    ensures ParseFilter([Text(v), Mark(AND)]) == Err(ExpectedSequence)
  {
    var rest: seq<Lexeme> := [Mark(AND)];
    TextSequence(v, rest);
    assert [Text(v)] + rest == [Text(v), Mark(AND)] && rest[1..] == [];
    NoFactor([]);
    assert ParseSequence([]) == Nothing;
    hide ParseSequence;
    assert ParseSequences(rest) == Failed(ExpectedSequence);
  }

  lemma AfterExpression(v: string)
    ensures ParseFilter([Text(v), Mark(RPAREN)]) == Err(Expected(END))
  {
    var rest: seq<Lexeme> := [Mark(RPAREN)];
    TextSequence(v, rest);
    assert [Text(v)] + rest == [Text(v), Mark(RPAREN)];
    hide ParseSequence;
    assert ParseSequences(rest) == Node([], rest);
  }

  /** An error in the first factor is the error of the filter. */
  lemma FailedFactor(ts: seq<Lexeme>, e: ParseError)
    requires ts != [] && ParseFactor(ts) == Failed(e)
    ensures ParseFilter(ts) == Err(e)
  {
    hide ParseFactor;
    assert ParseFactors(ts) == Failed(e);
    assert ParseSequence(ts) == Failed(e);
  }

  lemma FailedSimple(ts: seq<Lexeme>, e: ParseError)
    requires ts != [] && Head(ts) != NEGATE && ParseSimple(ts) == Failed(e)
    ensures ParseFilter(ts) == Err(e)
  {
    hide ParseSimple;
    assert ParseTerm(ts) == Failed(e);
    FailedFactor(ts, e);
  }

  lemma AfterOr(v: string)
    ensures ParseFilter([Text(v), Mark(OR)]) == Err(ExpectedTerm)
  {
    var rest: seq<Lexeme> := [Mark(OR)];
    JustText(v, rest);
    var s :| ParseSimple([Text(v)] + rest) == Node(s, rest);
    Plain([Text(v)] + rest, s, rest);
    assert [Text(v)] + rest == [Text(v), Mark(OR)] && rest[1..] == [];
    assert ParseTerm([]) == Nothing;
    hide ParseTerm;
    assert ParseTerms(rest) == Failed(ExpectedTerm);
    FailedFactor([Text(v), Mark(OR)], ExpectedTerm);
  }

  lemma AfterNegation()
    ensures ParseFilter([Mark(NEGATE)]) == Err(ExpectedSimple)
  {
    var ts: seq<Lexeme> := [Mark(NEGATE)];
    assert ts[1..] == [] && ParseSimple([]) == Nothing;
    FailedFactor(ts, ExpectedSimple);
  }

  lemma AfterComparator(v: string)
    ensures ParseFilter([Text(v), Equals()]) == Err(ExpectedArg)
  {
    var rest: seq<Lexeme> := [Equals()];
    OneValue(Text(v), rest);
    assert [Text(v)] + rest == [Text(v), Equals()] && rest[1..] == [];
    assert ParseArg([]) == Nothing;
    assert ParseRestriction([Text(v), Equals()]) == Failed(ExpectedArg);
    FailedSimple([Text(v), Equals()], ExpectedArg);
  }

  lemma AfterDot(v: string)
    ensures ParseFilter([Text(v), Mark(DOT)]) == Err(ExpectedValue)
  {
    var ts: seq<Lexeme> := [Text(v), Mark(DOT)];
    assert ts[1..] == [Mark(DOT)] && ts[1..][1..] == [];
    assert ParseFields(ts[1..]) == Failed(ExpectedValue);
    assert ParseRestriction(ts) == Failed(ExpectedValue);
    FailedSimple(ts, ExpectedValue);
  }

  lemma Unopened()
    ensures ParseFilter([Mark(LPAREN)]) == Err(ExpectedExpression)
  {
    var ts: seq<Lexeme> := [Mark(LPAREN)];
    NoFactor([]);
    assert ts[1..] == [] && ParseExpression([]) == Nothing;
    assert ParseRestriction(ts) == Nothing;
    FailedSimple(ts, ExpectedExpression);
  }

  lemma Unclosed(v: string)
    ensures ParseFilter([Mark(LPAREN), Text(v)]) == Err(Expected(RPAREN))
  {
    var ts: seq<Lexeme> := [Mark(LPAREN), Text(v)];
    TextSequence(v, []);
    assert [Text(v)] + [] == ts[1..];
    hide ParseSequence;
    assert ParseSequences([]) == Node([], []);
    assert ParseRestriction(ts) == Nothing;
    assert ParseComposite(ts) == Failed(Expected(RPAREN));
    FailedSimple(ts, Expected(RPAREN));
  }

  lemma BadString(v: string)
    ensures ParseFilter([Token(STRING, v, None)]) == Err(BadQuotes)
  {
    var ts: seq<Lexeme> := [Token(STRING, v, None)];
    assert ParseRestriction(ts) == Failed(BadQuotes);
    FailedSimple(ts, BadQuotes);
  }
}
