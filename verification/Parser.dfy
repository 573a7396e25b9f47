/** The recursive-descent filter parser, over a lexer with one token of lookahead. */
module Parser {
  import opened Wrappers
  import opened Filtering
  import opened Grammar
  import opened GrammarProofs

  const EndToken := Token(END, "", None)

  class FilterLexer {
    var input: seq<Lexeme>
    var next: Option<Token>

    ghost predicate Valid()
      reads this
    {
      next.Some? && next.value.kind == END ==> next.value == EndToken && input == []
    }

    /** The tokens not taken yet. */
    ghost function Remaining(): seq<Lexeme>
      reads this
    {
      if next.Some? && next.value.kind != END then [next.value] + input else input
    }

    constructor (tokens: seq<Lexeme>)
      ensures Valid() && Remaining() == tokens
    {
      input, next := tokens, None;
    }

    method Next() returns (t: Token)
      requires Valid()
      modifies this
      ensures Valid() && next.None?
      ensures old(Remaining()) == [] ==> t == EndToken && Remaining() == []
      ensures old(Remaining()) != [] ==> t == old(Remaining())[0] && Remaining() == old(Remaining())[1..]
    {
      if next.Some? {
        t := next.value;
        next := None;
      } else if input == [] {
        t := EndToken;
      } else {
        t := input[0];
        input := input[1..];
      }
    }

    method Peek() returns (t: Token)
      requires Valid()
      modifies this
      ensures Valid() && next == Some(t) && Remaining() == old(Remaining())
      ensures t == if Remaining() == [] then EndToken else Remaining()[0]
    {
      if next.None? {
        var n := Next();
        next := Some(n);
      }
      t := next.value;
    }
  }

  /** What a parser method returns and leaves, when the tokens `was` read as `p`. */
  ghost predicate Reads<T>(p: Parse<T>, node: Option<T>, err: Option<ParseError>, was: seq<Lexeme>, now: seq<Lexeme>) {
    match p
    case Node(v, rest) => err.None? && node == Some(v) && now == rest
    case Nothing => err.None? && node.None? && now == was
    case Failed(e) => err == Some(e)
  }

  /** A list read in a loop: what is collected, followed by what the rest reads as. */
  ghost function After<T>(l: seq<T>, p: Parse<seq<T>>): Parse<seq<T>> {
    match p
    case Node(more, rest) => Node(l + more, rest)
    case _ => p
  }

  lemma AfterNothing<T>(p: Parse<seq<T>>)
    ensures After([], p) == p
  {
    if p.Node? { assert [] + p.node == p.node; }
  }

  lemma AfterOne<T>(l: seq<T>, x: T, p: Parse<seq<T>>)
    ensures After(l + [x], p) == After(l, After([x], p))
  {
    if p.Node? { assert l + [x] + p.node == l + ([x] + p.node); }
  }

  class FilterParser {
    const lexer: FilterLexer

    constructor (tokens: seq<Lexeme>)
      ensures fresh(lexer) && lexer.Valid() && lexer.Remaining() == tokens
    {
      lexer := new FilterLexer(tokens);
    }

    method Expect(kind: Kind) returns (err: Option<ParseError>)
      requires lexer.Valid()
      modifies lexer
      ensures lexer.Valid()
      ensures Head(old(lexer.Remaining())) != kind ==> err == Some(Expected(kind)) && lexer.Remaining() == old(lexer.Remaining())
      ensures Head(old(lexer.Remaining())) == kind ==> err.None?
      ensures Head(old(lexer.Remaining())) == kind ==> lexer.Remaining() == if kind == END then [] else old(lexer.Remaining())[1..]
    {
      var t := lexer.Peek();
      if t.kind != kind {
        return Some(Expected(kind));
      }
      t := lexer.Next();
      return None;
    }

    method Accept(kind: Kind) returns (t: Option<Token>)
      requires lexer.Valid()
      modifies lexer
      ensures lexer.Valid() && (t.Some? <==> Head(old(lexer.Remaining())) == kind)
      ensures t.None? ==> lexer.Remaining() == old(lexer.Remaining())
      ensures t.Some? && kind == END ==> lexer.Remaining() == []
      ensures t.Some? && kind != END ==> t.value == old(lexer.Remaining())[0] && lexer.Remaining() == old(lexer.Remaining())[1..]
    {
      var p := lexer.Peek();
      if p.kind != kind {
        return None;
      }
      p := lexer.Next();
      return Some(p);
    }

    method ReadFilter() returns (f: Option<Filter>, err: Option<ParseError>)
      requires lexer.Valid()
      modifies lexer
      ensures match ParseFilter(old(lexer.Remaining()))
              case Ok(parsed) => err.None? && f == Some(parsed) && lexer.Remaining() == []
              case Err(e) => err == Some(e)
    {
      var t := Accept(END);
      if t.Some? {
        return Some(Filter(None)), None;
      }
      var e;
      e, err := ReadExpression();
      if err.Some? {
        return None, err;
      }
      f := Some(Filter(e));
      err := Expect(END);
    }

    method ReadExpression() returns (e: Option<Expression>, err: Option<ParseError>)
      requires lexer.Valid()
      modifies lexer
      ensures lexer.Valid() && Reads(ParseExpression(old(lexer.Remaining())), e, err, old(lexer.Remaining()), lexer.Remaining())
      decreases |lexer.Remaining()|, 12
    {
      var s;
      s, err := ReadSequence();
      if err.Some? || s.None? {
        return None, err;
      }
      ghost var rest := lexer.Remaining();
      var l := [];
      AfterNothing(ParseSequences(rest));
      while true
        invariant lexer.Valid() && err.None? && |lexer.Remaining()| <= |rest|
        invariant ParseSequences(rest) == After(l, ParseSequences(lexer.Remaining()))
        decreases |lexer.Remaining()|
      {
        var and := Accept(AND);
        if and.None? {
          break;
        }
        var more;
        more, err := ReadSequence();
        if err.Some? {
          return None, err;
        }
        if more.None? {
          return None, Some(ExpectedSequence);
        }
        AfterOne(l, more.value, ParseSequences(lexer.Remaining()));
        l := l + [more.value];
      }
      assert l + [] == l;
      e := Some(Expression([s.value] + l));
    }

    method ReadSequence() returns (s: Option<Sequence>, err: Option<ParseError>)
      requires lexer.Valid()
      modifies lexer
      ensures lexer.Valid() && Reads(ParseSequence(old(lexer.Remaining())), s, err, old(lexer.Remaining()), lexer.Remaining())
      decreases |lexer.Remaining()|, 10
    {
      ghost var ts := lexer.Remaining();
      var l := [];
      AfterNothing(ParseFactors(ts));
      while true
        invariant lexer.Valid() && |lexer.Remaining()| <= |ts|
        invariant ParseFactors(ts) == After(l, ParseFactors(lexer.Remaining()))
        invariant l == [] ==> lexer.Remaining() == ts
        decreases |lexer.Remaining()|
      {
        var f;
        f, err := ReadFactor();
        if err.Some? {
          return None, err;
        }
        if f.None? {
          break;
        }
        AfterOne(l, f.value, ParseFactors(lexer.Remaining()));
        l := l + [f.value];
      }
      assert l + [] == l;
      if l == [] {
        return None, None;
      }
      s := Some(Sequence(l));
    }

    method ReadFactor() returns (f: Option<Factor>, err: Option<ParseError>)
      requires lexer.Valid()
      modifies lexer
      ensures lexer.Valid() && Reads(ParseFactor(old(lexer.Remaining())), f, err, old(lexer.Remaining()), lexer.Remaining())
      decreases |lexer.Remaining()|, 8
    {
      var t;
      t, err := ReadTerm();
      if err.Some? || t.None? {
        return None, err;
      }
      ghost var rest := lexer.Remaining();
      var l := [];
      AfterNothing(ParseTerms(rest));
      while true
        invariant lexer.Valid() && err.None? && |lexer.Remaining()| <= |rest|
        invariant ParseTerms(rest) == After(l, ParseTerms(lexer.Remaining()))
        decreases |lexer.Remaining()|
      {
        var or := Accept(OR);
        if or.None? {
          break;
        }
        var more;
        more, err := ReadTerm();
        if err.Some? {
          return None, err;
        }
        if more.None? {
          return None, Some(ExpectedTerm);
        }
        AfterOne(l, more.value, ParseTerms(lexer.Remaining()));
        l := l + [more.value];
      }
      assert l + [] == l;
      f := Some(Factor([t.value] + l));
    }

    method ReadTerm() returns (t: Option<Term>, err: Option<ParseError>)
      requires lexer.Valid()
      modifies lexer
      ensures lexer.Valid() && Reads(ParseTerm(old(lexer.Remaining())), t, err, old(lexer.Remaining()), lexer.Remaining())
      decreases |lexer.Remaining()|, 6
    {
      var n := Accept(NEGATE);
      var s;
      s, err := ReadSimple();
      if err.Some? {
        return None, err;
      }
      if s.None? {
        if n.Some? {
          return None, Some(ExpectedSimple);
        }
        return None, None;
      }
      t := Some(Term(n.Some?, s));
    }

    method ReadSimple() returns (s: Option<Simple>, err: Option<ParseError>)
      requires lexer.Valid()
      modifies lexer
      ensures lexer.Valid() && Reads(ParseSimple(old(lexer.Remaining())), s, err, old(lexer.Remaining()), lexer.Remaining())
      decreases |lexer.Remaining()|, 5
    {
      var r;
      r, err := ReadRestriction();
      if err.Some? {
        return None, err;
      }
      if r.Some? {
        return Some(Simple(r, None)), None;
      }
      var c;
      c, err := ReadComposite();
      if err.Some? || c.None? {
        return None, err;
      }
      s := Some(Simple(None, c));
    }

    method ReadRestriction() returns (r: Option<Restriction>, err: Option<ParseError>)
      requires lexer.Valid()
      modifies lexer
      ensures lexer.Valid() && Reads(ParseRestriction(old(lexer.Remaining())), r, err, old(lexer.Remaining()), lexer.Remaining())
      decreases |lexer.Remaining()|, 4
    {
      var c;
      c, err := ReadComparable();
      if err.Some? || c.None? {
        return None, err;
      }
      var comparator := Accept(COMPARATOR);
      if comparator.None? {
        return Some(Restriction(c, "", None)), None;
      }
      var a;
      a, err := ReadArg();
      if err.Some? {
        return None, err;
      }
      if a.None? {
        return None, Some(ExpectedArg);
      }
      r := Some(Restriction(c, comparator.value.value, a));
    }

    method ReadArg() returns (a: Option<Arg>, err: Option<ParseError>)
      requires lexer.Valid()
      modifies lexer
      ensures lexer.Valid() && Reads(ParseArg(old(lexer.Remaining())), a, err, old(lexer.Remaining()), lexer.Remaining())
      decreases |lexer.Remaining()|, 3
    {
      var c;
      c, err := ReadComparable();
      if err.Some? {
        return None, err;
      }
      if c.Some? {
        return Some(Arg(c, None)), None;
      }
      var e;
      e, err := ReadComposite();
      if err.Some? || e.None? {
        return None, err;
      }
      a := Some(Arg(None, e));
    }

    method ReadComposite() returns (e: Option<Expression>, err: Option<ParseError>)
      requires lexer.Valid()
      modifies lexer
      ensures lexer.Valid() && Reads(ParseComposite(old(lexer.Remaining())), e, err, old(lexer.Remaining()), lexer.Remaining())
      decreases |lexer.Remaining()|, 2
    {
      var lparen := Accept(LPAREN);
      if lparen.None? {
        return None, None;
      }
      e, err := ReadExpression();
      if err.Some? {
        return None, err;
      }
      if e.None? {
        return None, Some(ExpectedExpression);
      }
      err := Expect(RPAREN);
    }

    method ReadComparable() returns (c: Option<Comparable>, err: Option<ParseError>)
      requires lexer.Valid()
      modifies lexer
      ensures lexer.Valid() && Reads(ParseComparable(old(lexer.Remaining())), c, err, old(lexer.Remaining()), lexer.Remaining())
    {
      var m;
      m, err := ReadMember();
      if err.Some? || m.None? {
        return None, err;
      }
      c := Some(Comparable(m));
    }

    method ReadMember() returns (m: Option<Member>, err: Option<ParseError>)
      requires lexer.Valid()
      modifies lexer
      ensures lexer.Valid()
      ensures Reads(ParseComparable(old(lexer.Remaining())), if m.Some? then Some(Comparable(m)) else None, err,
                    old(lexer.Remaining()), lexer.Remaining())
    {
      var v;
      v, err := ReadValue();
      if err.Some? || v.None? {
        return None, err;
      }
      ghost var rest := lexer.Remaining();
      var fields := [];
      AfterNothing(ParseFields(rest));
      while true
        invariant lexer.Valid() && err.None?
        invariant ParseFields(rest) == After(fields, ParseFields(lexer.Remaining()))
        decreases |lexer.Remaining()|
      {
        var dot := Accept(DOT);
        if dot.None? {
          break;
        }
        var field;
        field, err := ReadValue();
        if err.Some? {
          return None, err;
        }
        if field.None? {
          return None, Some(ExpectedValue);
        }
        AfterOne(fields, field.value, ParseFields(lexer.Remaining()));
        fields := fields + [field.value];
      }
      assert fields + [] == fields;
      m := Some(Member(v, fields));
    }

    method ReadValue() returns (v: Option<Value>, err: Option<ParseError>)
      requires lexer.Valid()
      modifies lexer
      ensures lexer.Valid() && Reads(ParseValue(old(lexer.Remaining())), v, err, old(lexer.Remaining()), lexer.Remaining())
    {
      var t := Accept(STRING);
      if t.Some? {
        if t.value.unquoted.None? {
          return None, Some(BadQuotes);
        }
        return Some(Value(true, t.value.unquoted.value)), None;
      }
      t := Accept(TEXT);
      if t.None? {
        return None, None;
      }
      v := Some(Value(false, t.value.value));
      err := None;
    }
  }

  /** Succeeds exactly on the token sequences of the grammar, with the one tree that derives them. */
  method ParseFilterTokens(tokens: seq<Lexeme>) returns (f: Option<Filter>, err: Option<ParseError>)
    ensures forall g :: err.None? && f == Some(g) <==> DerivesFilter(g, tokens)
    ensures err.None? ==> f.Some? && ShapedFilter(f.value)
  {
    var p := new FilterParser(tokens);
    f, err := p.ReadFilter();
    forall g ensures err.None? && f == Some(g) <==> DerivesFilter(g, tokens) {
      hide *;
      ParsesExactlyTheGrammar(tokens, g);
    }
    if err.None? { ParsedIsShaped(tokens, f.value); }
  }
}
