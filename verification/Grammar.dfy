/** The filter grammar: which token sequences derive which trees, and a recursive-descent reading of it. */
module Grammar {
  import opened Wrappers
  import opened Filtering

  datatype Kind = COMPARATOR | NEGATE | AND | OR | DOT | LPAREN | RPAREN | COMMA | STRING | TEXT | END

  /** A token; `unquoted` is what unquoting makes of its value, if it can. */
  datatype Token = Token(kind: Kind, value: string, unquoted: Option<string>)

  /** The end is not written: it is what follows the last token. */
  type Lexeme = t: Token | t.kind != END witness Token(DOT, ".", None)

  function Head(ts: seq<Lexeme>): Kind {
    if ts == [] then END else ts[0].kind
  }

  // The grammar, as a relation between trees and token sequences.

  predicate DerivesValue(v: Value, ts: seq<Lexeme>) {
    |ts| == 1 && match ts[0].kind
      case STRING => v.quoted && ts[0].unquoted == Some(v.value)
      case TEXT => !v.quoted && v.value == ts[0].value
      case _ => false
  }

  predicate DerivesFields(vs: seq<Value>, ts: seq<Lexeme>) {
    if vs == [] then ts == []
    else |ts| >= 2 && ts[0].kind == DOT && DerivesValue(vs[0], ts[1..2]) && DerivesFields(vs[1..], ts[2..])
  }

  predicate DerivesComparable(c: Comparable, ts: seq<Lexeme>) {
    c.member.Some? && c.member.value.value.Some? && |ts| >= 1
    && DerivesValue(c.member.value.value.value, ts[..1]) && DerivesFields(c.member.value.fields, ts[1..])
  }

  predicate DerivesRestriction(r: Restriction, ts: seq<Lexeme>) {
    r.comparable.Some? &&
    match r.arg
    case None => r.comparator == "" && DerivesComparable(r.comparable.value, ts)
    case Some(a) =>
      exists k :: 0 <= k < |ts| && ts[k].kind == COMPARATOR && ts[k].value == r.comparator
                  && DerivesComparable(r.comparable.value, ts[..k]) && DerivesArg(a, ts[k + 1..])
  }

  predicate DerivesArg(a: Arg, ts: seq<Lexeme>) {
    match a
    case Arg(Some(c), None) => DerivesComparable(c, ts)
    case Arg(None, Some(e)) => DerivesComposite(e, ts)
    case _ => false
  }

  predicate DerivesComposite(e: Expression, ts: seq<Lexeme>)
    decreases e, 1
  {
    |ts| >= 2 && ts[0].kind == LPAREN && ts[|ts| - 1].kind == RPAREN && DerivesExpression(e, ts[1..|ts| - 1])
  }

  predicate DerivesSimple(s: Simple, ts: seq<Lexeme>) {
    match s
    case Simple(Some(r), None) => DerivesRestriction(r, ts)
    case Simple(None, Some(e)) => DerivesComposite(e, ts)
    case _ => false
  }

  predicate DerivesTerm(t: Term, ts: seq<Lexeme>) {
    t.simple.Some? &&
    if t.negated then ts != [] && ts[0].kind == NEGATE && DerivesSimple(t.simple.value, ts[1..])
    else DerivesSimple(t.simple.value, ts)
  }

  /** One or more terms, separated by `OR`. */
  predicate DerivesTerms(l: seq<Term>, ts: seq<Lexeme>)
    decreases l
  {
    if l == [] then false
    else if |l| == 1 then DerivesTerm(l[0], ts)
    else exists k :: 0 <= k < |ts| && ts[k].kind == OR && DerivesTerm(l[0], ts[..k]) && DerivesTerms(l[1..], ts[k + 1..])
  }

  /** One or more factors, side by side. */
  predicate DerivesFactors(l: seq<Factor>, ts: seq<Lexeme>)
    decreases l
  {
    if l == [] then false
    else if |l| == 1 then DerivesTerms(l[0].terms, ts)
    else exists k :: 0 <= k <= |ts| && DerivesTerms(l[0].terms, ts[..k]) && DerivesFactors(l[1..], ts[k..])
  }

  /** One or more sequences, separated by `AND`. */
  predicate DerivesSequences(l: seq<Sequence>, ts: seq<Lexeme>)
    decreases l
  {
    if l == [] then false
    else if |l| == 1 then DerivesFactors(l[0].factors, ts)
    else exists k :: 0 <= k < |ts| && ts[k].kind == AND && DerivesFactors(l[0].factors, ts[..k]) && DerivesSequences(l[1..], ts[k + 1..])
  }

  predicate DerivesExpression(e: Expression, ts: seq<Lexeme>)
    decreases e, 0
  {
    DerivesSequences(e.sequences, ts)
  }

  predicate DerivesFilter(f: Filter, ts: seq<Lexeme>) {
    match f.expression
    case None => ts == []
    case Some(e) => DerivesExpression(e, ts)
  }

  // The parser, as functions of the tokens that are left.

  datatype ParseError =
    | Expected(kind: Kind)
    | ExpectedSequence
    | ExpectedTerm
    | ExpectedSimple
    | ExpectedArg
    | ExpectedValue
    | ExpectedExpression
    | BadQuotes

  /** A node and what is left after it, nothing here, or a failure. */
  datatype Parse<+T> = Node(node: T, rest: seq<Lexeme>) | Nothing | Failed(error: ParseError)

  function ParseValue(ts: seq<Lexeme>): (p: Parse<Value>)
    ensures p.Node? ==> |p.rest| < |ts|
  {
    if Head(ts) == STRING then
      match ts[0].unquoted
      case None => Failed(BadQuotes)
      case Some(v) => Node(Value(true, v), ts[1..])
    else if Head(ts) == TEXT then Node(Value(false, ts[0].value), ts[1..])
    else Nothing
  }

  function ParseFields(ts: seq<Lexeme>): (p: Parse<seq<Value>>)
    ensures p.Node? ==> |p.rest| <= |ts|
    ensures !p.Nothing?
  {
    if Head(ts) != DOT then Node([], ts)
    else match ParseValue(ts[1..])
      case Failed(e) => Failed(e)
      case Nothing => Failed(ExpectedValue)
      case Node(v, rest) =>
        match ParseFields(rest)
        case Node(vs, left) => Node([v] + vs, left)
        case Failed(e) => Failed(e)
  }

  function ParseComparable(ts: seq<Lexeme>): (p: Parse<Comparable>)
    ensures p.Node? ==> |p.rest| < |ts|
  {
    match ParseValue(ts)
    case Failed(e) => Failed(e)
    case Nothing => Nothing
    case Node(v, rest) =>
      match ParseFields(rest)
      case Node(vs, left) => Node(Comparable(Some(Member(Some(v), vs))), left)
      case Failed(e) => Failed(e)
  }

  function ParseRestriction(ts: seq<Lexeme>): (p: Parse<Restriction>)
    ensures p.Node? ==> |p.rest| < |ts|
    decreases |ts|, 4
  {
    match ParseComparable(ts)
    case Failed(e) => Failed(e)
    case Nothing => Nothing
    case Node(c, rest) =>
      if Head(rest) != COMPARATOR then Node(Restriction(Some(c), "", None), rest)
      else match ParseArg(rest[1..])
        case Failed(e) => Failed(e)
        case Nothing => Failed(ExpectedArg)
        case Node(a, left) => Node(Restriction(Some(c), rest[0].value, Some(a)), left)
  }

  function ParseArg(ts: seq<Lexeme>): (p: Parse<Arg>)
    ensures p.Node? ==> |p.rest| < |ts|
    decreases |ts|, 3
  {
    match ParseComparable(ts)
    case Failed(e) => Failed(e)
    case Node(c, rest) => Node(Arg(Some(c), None), rest)
    case Nothing =>
      match ParseComposite(ts)
      case Failed(e) => Failed(e)
      case Nothing => Nothing
      case Node(e, rest) => Node(Arg(None, Some(e)), rest)
  }

  function ParseComposite(ts: seq<Lexeme>): (p: Parse<Expression>)
    ensures p.Node? ==> |p.rest| < |ts|
    decreases |ts|, 2
  {
    if Head(ts) != LPAREN then Nothing
    else match ParseExpression(ts[1..])
      case Failed(e) => Failed(e)
      case Nothing => Failed(ExpectedExpression)
      case Node(e, rest) => if Head(rest) != RPAREN then Failed(Expected(RPAREN)) else Node(e, rest[1..])
  }

  function ParseSimple(ts: seq<Lexeme>): (p: Parse<Simple>)
    ensures p.Node? ==> |p.rest| < |ts|
    decreases |ts|, 5
  {
    match ParseRestriction(ts)
    case Failed(e) => Failed(e)
    case Node(r, rest) => Node(Simple(Some(r), None), rest)
    case Nothing =>
      match ParseComposite(ts)
      case Failed(e) => Failed(e)
      case Nothing => Nothing
      case Node(e, rest) => Node(Simple(None, Some(e)), rest)
  }

  function ParseTerm(ts: seq<Lexeme>): (p: Parse<Term>)
    ensures p.Node? ==> |p.rest| < |ts|
    decreases |ts|, 6
  {
    var negated := Head(ts) == NEGATE;
    match ParseSimple(if negated then ts[1..] else ts)
    case Failed(e) => Failed(e)
    case Nothing => if negated then Failed(ExpectedSimple) else Nothing
    case Node(s, rest) => Node(Term(negated, Some(s)), rest)
  }

  /** What may follow the first term of a factor. */
  function ParseTerms(ts: seq<Lexeme>): (p: Parse<seq<Term>>)
    ensures p.Node? ==> |p.rest| <= |ts|
    ensures !p.Nothing?
    decreases |ts|, 7
  {
    if Head(ts) != OR then Node([], ts)
    else match ParseTerm(ts[1..])
      case Failed(e) => Failed(e)
      case Nothing => Failed(ExpectedTerm)
      case Node(t, rest) =>
        match ParseTerms(rest)
        case Node(l, left) => Node([t] + l, left)
        case Failed(e) => Failed(e)
  }

  function ParseFactor(ts: seq<Lexeme>): (p: Parse<Factor>)
    ensures p.Node? ==> |p.rest| < |ts|
    decreases |ts|, 8
  {
    match ParseTerm(ts)
    case Failed(e) => Failed(e)
    case Nothing => Nothing
    case Node(t, rest) =>
      match ParseTerms(rest)
      case Node(l, left) => Node(Factor([t] + l), left)
      case Failed(e) => Failed(e)
  }

  function ParseFactors(ts: seq<Lexeme>): (p: Parse<seq<Factor>>)
    ensures p.Node? ==> |p.rest| <= |ts| && (p.node != [] ==> |p.rest| < |ts|)
    ensures p.Node? && p.node == [] ==> p.rest == ts
    ensures !p.Nothing?
    decreases |ts|, 9
  {
    match ParseFactor(ts)
    case Failed(e) => Failed(e)
    case Nothing => Node([], ts)
    case Node(f, rest) =>
      match ParseFactors(rest)
      case Node(l, left) => Node([f] + l, left)
      case Failed(e) => Failed(e)
  }

  function ParseSequence(ts: seq<Lexeme>): (p: Parse<Sequence>)
    ensures p.Node? ==> |p.rest| < |ts|
    decreases |ts|, 10
  {
    match ParseFactors(ts)
    case Failed(e) => Failed(e)
    case Node(l, rest) => if l == [] then Nothing else Node(Sequence(l), rest)
  }

  /** What may follow the first sequence of an expression. */
  function ParseSequences(ts: seq<Lexeme>): (p: Parse<seq<Sequence>>)
    ensures p.Node? ==> |p.rest| <= |ts|
    ensures !p.Nothing?
    decreases |ts|, 11
  {
    if Head(ts) != AND then Node([], ts)
    else match ParseSequence(ts[1..])
      case Failed(e) => Failed(e)
      case Nothing => Failed(ExpectedSequence)
      case Node(s, rest) =>
        match ParseSequences(rest)
        case Node(l, left) => Node([s] + l, left)
        case Failed(e) => Failed(e)
  }

  function ParseExpression(ts: seq<Lexeme>): (p: Parse<Expression>)
    ensures p.Node? ==> |p.rest| < |ts|
    decreases |ts|, 12
  {
    match ParseSequence(ts)
    case Failed(e) => Failed(e)
    case Nothing => Nothing
    case Node(s, rest) =>
      match ParseSequences(rest)
      case Node(l, left) => Node(Expression([s] + l), left)
      case Failed(e) => Failed(e)
  }

  function ParseFilter(ts: seq<Lexeme>): Result<Filter, ParseError> {
    if ts == [] then Ok(Filter(None))
    else match ParseExpression(ts)
      case Failed(e) => Err(e)
      case Nothing => Err(Expected(END))
      case Node(e, rest) => if rest != [] then Err(Expected(END)) else Ok(Filter(Some(e)))
  }
}
