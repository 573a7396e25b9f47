/** The parser accepts exactly the grammar, and the grammar is unambiguous. */
module GrammarProofs {
  import opened Wrappers
  import opened Filtering
  import opened Grammar

  // Soundness: a node derives the tokens that it took.

  ghost predicate Suffix(rest: seq<Lexeme>, ts: seq<Lexeme>) {
    |rest| <= |ts| && ts[|ts| - |rest|..] == rest
  }

  /** The tokens taken from `ts` when `rest` is left. */
  function Used(ts: seq<Lexeme>, rest: seq<Lexeme>): seq<Lexeme>
    requires |rest| <= |ts|
  {
    ts[..|ts| - |rest|]
  }

  lemma SuffixTrans(a: seq<Lexeme>, b: seq<Lexeme>, c: seq<Lexeme>)
    requires Suffix(a, b) && Suffix(b, c)
    ensures Suffix(a, c) && Used(c, a) == Used(c, b) + Used(b, a)
  {}

  /** Taking a first token, and then what follows it. */
  lemma SuffixStep(rest: seq<Lexeme>, ts: seq<Lexeme>)
    requires ts != [] && Suffix(rest, ts[1..])
    ensures Suffix(rest, ts) && Used(ts, rest) == [ts[0]] + Used(ts[1..], rest)
  {}

  lemma SoundValue(ts: seq<Lexeme>)
    ensures var p := ParseValue(ts); p.Node? ==> Suffix(p.rest, ts) && DerivesValue(p.node, Used(ts, p.rest))
  {}

  lemma {:induction false} SoundFields(ts: seq<Lexeme>)
    ensures var p := ParseFields(ts); p.Node? ==> Suffix(p.rest, ts) && DerivesFields(p.node, Used(ts, p.rest))
    decreases |ts|
  {
    var p := ParseFields(ts);
    if p.Node? && Head(ts) == DOT {
      var v := ParseValue(ts[1..]);
      SoundValue(ts[1..]);
      SoundFields(v.rest);
      SuffixTrans(p.rest, v.rest, ts[1..]);
      SuffixStep(p.rest, ts);
      FieldsCons(ts[0], v.node, Used(ts[1..], v.rest), p.node[1..], Used(v.rest, p.rest));
      hide DerivesValue, DerivesFields;
      assert p.node == [v.node] + p.node[1..];
    } else if p.Node? {
      assert Used(ts, p.rest) == [];
    }
  }

  lemma FieldsCons(dot: Lexeme, v: Value, xs: seq<Lexeme>, vs: seq<Value>, ys: seq<Lexeme>)
    requires dot.kind == DOT && DerivesValue(v, xs) && DerivesFields(vs, ys)
    ensures DerivesFields([v] + vs, [dot] + (xs + ys))
  {
    var l, ts := [v] + vs, [dot] + (xs + ys);
    assert l[1..] == vs && ts[1..2] == xs && ts[2..] == ys;
  }

  lemma SoundComparable(ts: seq<Lexeme>)
    ensures var p := ParseComparable(ts); p.Node? ==> Suffix(p.rest, ts) && DerivesComparable(p.node, Used(ts, p.rest))
  {
    var p := ParseComparable(ts);
    if p.Node? {
      var v := ParseValue(ts);
      SoundValue(ts);
      SoundFields(v.rest);
      SuffixTrans(p.rest, v.rest, ts);
      var used := Used(ts, p.rest);
      assert used[..1] == Used(ts, v.rest) && used[1..] == Used(v.rest, p.rest);
    }
  }

  lemma {:induction false} SoundRestriction(ts: seq<Lexeme>)
    ensures var p := ParseRestriction(ts); p.Node? ==> Suffix(p.rest, ts) && DerivesRestriction(p.node, Used(ts, p.rest))
    decreases |ts|, 4
  {
    var p := ParseRestriction(ts);
    SoundComparable(ts);
    if p.Node? && p.node.arg.Some? {
      var c := ParseComparable(ts);
      SoundArg(c.rest[1..]);
      SuffixStep(p.rest, c.rest);
      SuffixTrans(p.rest, c.rest, ts);
      hide DerivesComparable, DerivesArg, DerivesRestriction, ParseComparable, ParseArg;
      RestrictionCons(c.node, Used(ts, c.rest), c.rest[0], p.node.arg.value, Used(c.rest[1..], p.rest));
    }
  }

  lemma RestrictionCons(c: Comparable, xs: seq<Lexeme>, comparator: Lexeme, a: Arg, ys: seq<Lexeme>)
    requires comparator.kind == COMPARATOR && DerivesComparable(c, xs) && DerivesArg(a, ys)
    ensures DerivesRestriction(Restriction(Some(c), comparator.value, Some(a)), xs + ([comparator] + ys))
  {
    hide DerivesComparable, DerivesArg;
    var ts, k := xs + ([comparator] + ys), |xs|;
    assert ts[..k] == xs && ts[k] == comparator && ts[k + 1..] == ys;
  }

  lemma {:induction false} SoundArg(ts: seq<Lexeme>)
    ensures var p := ParseArg(ts); p.Node? ==> Suffix(p.rest, ts) && DerivesArg(p.node, Used(ts, p.rest))
    decreases |ts|, 3
  {
    SoundComparable(ts);
    SoundComposite(ts);
  }

  lemma {:induction false} SoundComposite(ts: seq<Lexeme>)
    ensures var p := ParseComposite(ts); p.Node? ==> Suffix(p.rest, ts) && DerivesComposite(p.node, Used(ts, p.rest))
    decreases |ts|, 2
  {
    var p := ParseComposite(ts);
    if p.Node? {
      var e := ParseExpression(ts[1..]);
      SoundExpression(ts[1..]);
      SuffixStep(e.rest, ts);
      SuffixTrans(p.rest, e.rest, ts);
      var used := Used(ts, p.rest);
      assert used == [ts[0]] + Used(ts[1..], e.rest) + [e.rest[0]];
      assert used[1..|used| - 1] == Used(ts[1..], e.rest);
    }
  }

  lemma {:induction false} SoundSimple(ts: seq<Lexeme>)
    ensures var p := ParseSimple(ts); p.Node? ==> Suffix(p.rest, ts) && DerivesSimple(p.node, Used(ts, p.rest))
    decreases |ts|, 5
  {
    SoundRestriction(ts);
    SoundComposite(ts);
  }

  lemma {:induction false} SoundTerm(ts: seq<Lexeme>)
    ensures var p := ParseTerm(ts); p.Node? ==> Suffix(p.rest, ts) && DerivesTerm(p.node, Used(ts, p.rest))
    decreases |ts|, 6
  {
    var p := ParseTerm(ts);
    if Head(ts) == NEGATE {
      SoundSimple(ts[1..]);
      if p.Node? {
        SuffixStep(p.rest, ts);
        assert Used(ts, p.rest)[1..] == Used(ts[1..], p.rest);
      }
    } else {
      SoundSimple(ts);
    }
  }

  lemma {:induction false} SoundTerms(ts: seq<Lexeme>, first: Term, xs: seq<Lexeme>)
    requires DerivesTerm(first, xs)
    ensures var p := ParseTerms(ts); p.Node? ==> Suffix(p.rest, ts) && DerivesTerms([first] + p.node, xs + Used(ts, p.rest))
    decreases |ts|, 7
  {
    var p := ParseTerms(ts);
    if p.Node? && Head(ts) == OR {
      var t := ParseTerm(ts[1..]);
      SoundTerm(ts[1..]);
      SoundTerms(t.rest, t.node, Used(ts[1..], t.rest));
      SuffixTrans(p.rest, t.rest, ts[1..]);
      SuffixStep(p.rest, ts);
      hide DerivesTerm, DerivesTerms;
      TermsCons(first, xs, ts[0], p.node, Used(ts[1..], p.rest));
    } else if p.Node? {
      assert xs + Used(ts, p.rest) == xs;
    }
  }

  lemma TermsCons(t: Term, xs: seq<Lexeme>, or: Lexeme, l: seq<Term>, ys: seq<Lexeme>)
    requires or.kind == OR && DerivesTerm(t, xs) && DerivesTerms(l, ys)
    ensures DerivesTerms([t] + l, xs + ([or] + ys))
  {
    hide DerivesTerm;
    var m, ts, k := [t] + l, xs + ([or] + ys), |xs|;
    assert m[1..] == l && ts[..k] == xs && ts[k] == or && ts[k + 1..] == ys;
  }

  lemma {:induction false} SoundFactor(ts: seq<Lexeme>)
    ensures var p := ParseFactor(ts); p.Node? ==> Suffix(p.rest, ts) && DerivesTerms(p.node.terms, Used(ts, p.rest))
    decreases |ts|, 8
  {
    var p := ParseFactor(ts);
    SoundTerm(ts);
    if p.Node? {
      var t := ParseTerm(ts);
      SoundTerms(t.rest, t.node, Used(ts, t.rest));
      SuffixTrans(p.rest, t.rest, ts);
    }
  }

  lemma {:induction false} SoundFactors(ts: seq<Lexeme>)
    ensures var p := ParseFactors(ts);
      p.Node? ==> Suffix(p.rest, ts) && (p.node != [] ==> DerivesFactors(p.node, Used(ts, p.rest)))
    decreases |ts|, 9
  {
    var p := ParseFactors(ts);
    SoundFactor(ts);
    if p.Node? && p.node != [] {
      var f := ParseFactor(ts);
      SoundFactors(f.rest);
      SuffixTrans(p.rest, f.rest, ts);
      var used, k := Used(ts, p.rest), |ts| - |f.rest|;
      assert p.node[1..] == ParseFactors(f.rest).node;
      assert used[..k] == Used(ts, f.rest) && used[k..] == Used(f.rest, p.rest);
      if |p.node| == 1 { assert used == Used(ts, f.rest); }
    }
  }

  lemma {:induction false} SoundSequences(ts: seq<Lexeme>, first: Sequence, xs: seq<Lexeme>)
    requires DerivesFactors(first.factors, xs)
    ensures var p := ParseSequences(ts); p.Node? ==> Suffix(p.rest, ts) && DerivesSequences([first] + p.node, xs + Used(ts, p.rest))
    decreases |ts|, 11
  {
    var p := ParseSequences(ts);
    if p.Node? && Head(ts) == AND {
      var s := ParseSequence(ts[1..]);
      SoundFactors(ts[1..]);
      SoundSequences(s.rest, s.node, Used(ts[1..], s.rest));
      SuffixTrans(p.rest, s.rest, ts[1..]);
      SuffixStep(p.rest, ts);
      hide DerivesFactors, DerivesSequences;
      SequencesCons(first, xs, ts[0], p.node, Used(ts[1..], p.rest));
    } else if p.Node? {
      assert xs + Used(ts, p.rest) == xs;
    }
  }

  lemma SequencesCons(s: Sequence, xs: seq<Lexeme>, and: Lexeme, l: seq<Sequence>, ys: seq<Lexeme>)
    requires and.kind == AND && DerivesFactors(s.factors, xs) && DerivesSequences(l, ys)
    ensures DerivesSequences([s] + l, xs + ([and] + ys))
  {
    hide DerivesFactors;
    var m, ts, k := [s] + l, xs + ([and] + ys), |xs|;
    assert m[1..] == l && ts[..k] == xs && ts[k] == and && ts[k + 1..] == ys;
  }

  lemma {:induction false} SoundExpression(ts: seq<Lexeme>)
    ensures var p := ParseExpression(ts); p.Node? ==> Suffix(p.rest, ts) && DerivesExpression(p.node, Used(ts, p.rest))
    decreases |ts|, 12
  {
    var p := ParseExpression(ts);
    SoundFactors(ts);
    if p.Node? {
      var s := ParseSequence(ts);
      SoundSequences(s.rest, s.node, Used(ts, s.rest));
      SuffixTrans(p.rest, s.rest, ts);
    }
  }

  // Completeness: derived tokens are taken, up to what cannot continue them.

  predicate StopsTerm(k: Kind) {
    k != DOT && k != COMPARATOR
  }

  predicate StartsTerm(k: Kind) {
    k == STRING || k == TEXT || k == LPAREN || k == NEGATE
  }

  predicate StopsSequence(k: Kind) {
    StopsTerm(k) && k != OR && !StartsTerm(k)
  }

  predicate StopsExpression(k: Kind) {
    StopsSequence(k) && k != AND
  }

  /** Two ways to cut `ts + rest`. */
  lemma Cut(ts: seq<Lexeme>, k: nat, rest: seq<Lexeme>)
    requires k <= |ts|
    ensures ts + rest == ts[..k] + (ts[k..] + rest)
    ensures k < |ts| ==> ts[k..] + rest != [] && (ts[k..] + rest)[0] == ts[k]
    ensures k < |ts| ==> forall n :: n == k + 1 ==> (ts[k..] + rest)[1..] == ts[n..] + rest
  {}

  lemma CompleteValue(v: Value, ts: seq<Lexeme>, rest: seq<Lexeme>)
    requires DerivesValue(v, ts)
    ensures ParseValue(ts + rest) == Node(v, rest)
  {}

  lemma {:induction false} CompleteFields(vs: seq<Value>, ts: seq<Lexeme>, rest: seq<Lexeme>)
    requires DerivesFields(vs, ts) && Head(rest) != DOT
    ensures ParseFields(ts + rest) == Node(vs, rest)
  {
    if vs == [] {
      assert ts + rest == rest;
    } else {
      CompleteFields(vs[1..], ts[2..], rest);
      var mid := ts[2..] + rest;
      CompleteValue(vs[0], ts[1..2], mid);
      hide DerivesValue, DerivesFields, ParseValue, ParseFields;
      CutField(ts, rest);
      ReadField(ts + rest, vs[0], mid, vs[1..], rest);
      assert [vs[0]] + vs[1..] == vs;
    }
  }

  lemma CutField(ts: seq<Lexeme>, rest: seq<Lexeme>)
    requires |ts| >= 2
    ensures (ts + rest)[1..] == ts[1..2] + (ts[2..] + rest) && Head(ts + rest) == ts[0].kind
  {}

  lemma ReadField(ts: seq<Lexeme>, v: Value, mid: seq<Lexeme>, vs: seq<Value>, rest: seq<Lexeme>)
    requires Head(ts) == DOT && ParseValue(ts[1..]) == Node(v, mid) && ParseFields(mid) == Node(vs, rest)
    ensures ParseFields(ts) == Node([v] + vs, rest)
  {}

  lemma CompleteComparable(c: Comparable, ts: seq<Lexeme>, rest: seq<Lexeme>)
    requires DerivesComparable(c, ts) && Head(rest) != DOT
    ensures ParseComparable(ts + rest) == Node(c, rest)
    ensures ts != [] && (Head(ts) == STRING || Head(ts) == TEXT)
  {
    CompleteValue(c.member.value.value.value, ts[..1], ts[1..] + rest);
    CompleteFields(c.member.value.fields, ts[1..], rest);
    hide DerivesFields, ParseFields, ParseValue;
    Cut(ts, 1, rest);
  }

  lemma {:induction false} CompleteRestriction(r: Restriction, ts: seq<Lexeme>, rest: seq<Lexeme>)
    requires DerivesRestriction(r, ts) && StopsTerm(Head(rest))
    ensures ParseRestriction(ts + rest) == Node(r, rest)
    ensures ts != [] && (Head(ts) == STRING || Head(ts) == TEXT)
    decreases |ts|, 4
  {
    match r.arg
    case None =>
      CompleteComparable(r.comparable.value, ts, rest);
    case Some(a) =>
      var k :| 0 <= k < |ts| && ts[k].kind == COMPARATOR && ts[k].value == r.comparator
               && DerivesComparable(r.comparable.value, ts[..k]) && DerivesArg(a, ts[k + 1..]);
      CompleteComparable(r.comparable.value, ts[..k], ts[k..] + rest);
      CompleteArg(a, ts[k + 1..], rest);
      hide *;
      Cut(ts, k, rest);
      var tail := ts[k..] + rest;
      ReadRestriction(ts + rest, r.comparable.value, tail, a, rest);
  }

  lemma ReadRestriction(ts: seq<Lexeme>, c: Comparable, mid: seq<Lexeme>, a: Arg, rest: seq<Lexeme>)
    requires ParseComparable(ts) == Node(c, mid) && Head(mid) == COMPARATOR && ParseArg(mid[1..]) == Node(a, rest)
    ensures ParseRestriction(ts) == Node(Restriction(Some(c), mid[0].value, Some(a)), rest)
  {}

  lemma {:induction false} CompleteArg(a: Arg, ts: seq<Lexeme>, rest: seq<Lexeme>)
    requires DerivesArg(a, ts) && StopsTerm(Head(rest))
    ensures ParseArg(ts + rest) == Node(a, rest)
    decreases |ts|, 3
  {
    if a.comparable.Some? {
      CompleteComparable(a.comparable.value, ts, rest);
    } else {
      CompleteComposite(a.composite.value, ts, rest);
    }
  }

  lemma {:induction false} CompleteComposite(e: Expression, ts: seq<Lexeme>, rest: seq<Lexeme>)
    requires DerivesComposite(e, ts)
    ensures ParseComposite(ts + rest) == Node(e, rest)
    ensures Head(ts + rest) == LPAREN
    decreases |ts|, 2
  {
    var n := |ts| - 1;
    CompleteExpression(e, ts[1..n], ts[n..] + rest);
    hide DerivesExpression, ParseExpression;
    CutComposite(ts, n, rest);
  }

  lemma CutComposite(ts: seq<Lexeme>, n: nat, rest: seq<Lexeme>)
    requires |ts| >= 2 && n == |ts| - 1
    ensures (ts + rest)[1..] == ts[1..n] + (ts[n..] + rest)
    ensures ts + rest != [] && (ts + rest)[0] == ts[0]
    ensures ts[n..] + rest != [] && (ts[n..] + rest)[0] == ts[n] && (ts[n..] + rest)[1..] == rest
  {}

  lemma {:induction false} CompleteSimple(s: Simple, ts: seq<Lexeme>, rest: seq<Lexeme>)
    requires DerivesSimple(s, ts) && StopsTerm(Head(rest))
    ensures ParseSimple(ts + rest) == Node(s, rest)
    ensures ts != [] && StartsTerm(Head(ts)) && Head(ts) != NEGATE
    decreases |ts|, 5
  {
    if s.restriction.Some? {
      CompleteRestriction(s.restriction.value, ts, rest);
    } else {
      CompleteComposite(s.composite.value, ts, rest);
    }
  }

  lemma {:induction false} CompleteTerm(t: Term, ts: seq<Lexeme>, rest: seq<Lexeme>)
    requires DerivesTerm(t, ts) && StopsTerm(Head(rest))
    ensures ParseTerm(ts + rest) == Node(t, rest)
    ensures ts != [] && StartsTerm(Head(ts))
    decreases |ts|, 6
  {
    if t.negated {
      assert (ts + rest)[1..] == ts[1..] + rest;
      CompleteSimple(t.simple.value, ts[1..], rest);
    } else {
      CompleteSimple(t.simple.value, ts, rest);
    }
  }

  lemma SplitTerms(l: seq<Term>, ts: seq<Lexeme>) returns (k: nat)
    requires DerivesTerms(l, ts) && |l| != 1
    ensures l != [] && k < |ts| && ts[k].kind == OR && DerivesTerm(l[0], ts[..k]) && DerivesTerms(l[1..], ts[k + 1..])
  {
    k :| 0 <= k < |ts| && ts[k].kind == OR && DerivesTerm(l[0], ts[..k]) && DerivesTerms(l[1..], ts[k + 1..]);
  }

  lemma SplitFactors(l: seq<Factor>, ts: seq<Lexeme>) returns (k: nat)
    requires DerivesFactors(l, ts) && |l| != 1
    ensures l != [] && k <= |ts| && DerivesTerms(l[0].terms, ts[..k]) && DerivesFactors(l[1..], ts[k..])
  {
    k :| 0 <= k <= |ts| && DerivesTerms(l[0].terms, ts[..k]) && DerivesFactors(l[1..], ts[k..]);
  }

  lemma SplitSequences(l: seq<Sequence>, ts: seq<Lexeme>) returns (k: nat)
    requires DerivesSequences(l, ts) && |l| != 1
    ensures l != [] && k < |ts| && ts[k].kind == AND && DerivesFactors(l[0].factors, ts[..k]) && DerivesSequences(l[1..], ts[k + 1..])
  {
    k :| 0 <= k < |ts| && ts[k].kind == AND && DerivesFactors(l[0].factors, ts[..k]) && DerivesSequences(l[1..], ts[k + 1..]);
  }

  lemma {:induction false} CompleteFactor(f: Factor, ts: seq<Lexeme>, rest: seq<Lexeme>)
    requires DerivesTerms(f.terms, ts) && StopsTerm(Head(rest)) && Head(rest) != OR
    ensures ParseFactor(ts + rest) == Node(f, rest)
    ensures ts != [] && StartsTerm(Head(ts))
    decreases |ts|, 7
  {
    var l := f.terms;
    if |l| == 1 {
      CompleteTerm(l[0], ts, rest);
      assert ParseTerms(rest) == Node([], rest) && [l[0]] + [] == l;
    } else {
      var k := SplitTerms(l, ts);
      hide DerivesTerms, DerivesTerm, ParseTerm, ParseFactor;
      var tail := ts[k..] + rest;
      CompleteTerm(l[0], ts[..k], tail);
      CompleteFactor(Factor(l[1..]), ts[k + 1..], rest);
      hide *;
      Cut(ts, k, rest);
      ReadTerm(ts + rest, l[0], tail, l[1..], rest);
      assert [l[0]] + l[1..] == l;
    }
  }

  /** A term read ahead of a factor, as its first. */
  lemma ReadTerm(ts: seq<Lexeme>, t: Term, mid: seq<Lexeme>, l: seq<Term>, rest: seq<Lexeme>)
    requires ParseTerm(ts) == Node(t, mid) && Head(mid) == OR && ParseFactor(mid[1..]) == Node(Factor(l), rest)
    ensures ParseFactor(ts) == Node(Factor([t] + l), rest)
  {}

  /** Where no term starts, nothing is found. */
  lemma NothingStarts(ts: seq<Lexeme>)
    requires !StartsTerm(Head(ts))
    ensures ParseFactors(ts) == Node([], ts)
  {
    assert ParseComparable(ts).Nothing? && ParseComposite(ts).Nothing?;
    assert ParseSimple(ts).Nothing?;
    assert ParseTerm(ts).Nothing?;
  }

  lemma {:induction false} CompleteSequence(l: seq<Factor>, ts: seq<Lexeme>, rest: seq<Lexeme>)
    requires DerivesFactors(l, ts) && StopsSequence(Head(rest))
    ensures ParseFactors(ts + rest) == Node(l, rest)
    ensures l != [] && ts != [] && StartsTerm(Head(ts))
    decreases |ts|, 8
  {
    if |l| == 1 {
      CompleteFactor(l[0], ts, rest);
      NothingStarts(rest);
      assert [l[0]] + [] == l;
    } else {
      var k := SplitFactors(l, ts);
      FactorNotEmpty(l[0].terms, ts[..k]);
      hide DerivesTerms, DerivesFactors, ParseFactor, ParseFactors;
      CompleteSequence(l[1..], ts[k..], rest);
      CompleteFactor(l[0], ts[..k], ts[k..] + rest);
      hide *;
      Cut(ts, k, rest);
      ReadFactor(ts + rest, l[0], ts[k..] + rest, l[1..], rest);
      assert [l[0]] + l[1..] == l;
    }
  }

  /** A factor read ahead of others. */
  lemma ReadFactor(ts: seq<Lexeme>, f: Factor, mid: seq<Lexeme>, l: seq<Factor>, rest: seq<Lexeme>)
    requires ParseFactor(ts) == Node(f, mid) && ParseFactors(mid) == Node(l, rest)
    ensures ParseFactors(ts) == Node([f] + l, rest)
  {
    hide ParseFactor;
  }

  lemma {:induction false} FactorNotEmpty(l: seq<Term>, ts: seq<Lexeme>)
    requires DerivesTerms(l, ts)
    ensures ts != []
  {
    if |l| == 1 && !l[0].negated {
      assert DerivesTerm(l[0], ts);
      var s := l[0].simple.value;
      assert DerivesSimple(s, ts);
      match s
      case Simple(Some(r), None) => assert DerivesRestriction(r, ts);
      case Simple(None, Some(e)) => assert DerivesComposite(e, ts);
    }
  }

  lemma {:induction false} CompleteSequences(l: seq<Sequence>, ts: seq<Lexeme>, rest: seq<Lexeme>)
    requires DerivesSequences(l, ts) && StopsExpression(Head(rest))
    ensures ParseExpression(ts + rest) == Node(Expression(l), rest)
    decreases |ts|, 9
  {
    if |l| == 1 {
      CompleteSequence(l[0].factors, ts, rest);
      hide DerivesFactors, DerivesSequences, ParseFactors;
      assert ParseSequence(ts + rest) == Node(l[0], rest);
      assert ParseSequences(rest) == Node([], rest) && [l[0]] + [] == l;
    } else {
      var k := SplitSequences(l, ts);
      hide DerivesFactors, DerivesSequences, ParseFactors, ParseExpression;
      var tail := ts[k..] + rest;
      CompleteSequence(l[0].factors, ts[..k], tail);
      CompleteSequences(l[1..], ts[k + 1..], rest);
      hide *;
      Cut(ts, k, rest);
      ReadSequence(ts + rest, l[0], tail, l[1..], rest);
      assert [l[0]] + l[1..] == l;
    }
  }

  /** A sequence read ahead of an expression, as its first. */
  lemma ReadSequence(ts: seq<Lexeme>, s: Sequence, mid: seq<Lexeme>, l: seq<Sequence>, rest: seq<Lexeme>)
    requires ParseFactors(ts) == Node(s.factors, mid) && s.factors != []
    requires Head(mid) == AND && ParseExpression(mid[1..]) == Node(Expression(l), rest)
    ensures ParseExpression(ts) == Node(Expression([s] + l), rest)
  {}

  lemma {:induction false} CompleteExpression(e: Expression, ts: seq<Lexeme>, rest: seq<Lexeme>)
    requires DerivesExpression(e, ts) && StopsExpression(Head(rest))
    ensures ParseExpression(ts + rest) == Node(e, rest)
    decreases |ts|, 10
  {
    CompleteSequences(e.sequences, ts, rest);
  }

  // The shape of derived trees.

  lemma {:induction false} SequencesShaped(l: seq<Sequence>, ts: seq<Lexeme>)
    requires DerivesSequences(l, ts)
    ensures Shaped(Expression(l))
    decreases l, 1
  {
    if |l| == 1 {
      FactorsShaped(l[0].factors, ts);
    } else {
      var k :| 0 <= k < |ts| && ts[k].kind == AND && DerivesFactors(l[0].factors, ts[..k]) && DerivesSequences(l[1..], ts[k + 1..]);
      FactorsShaped(l[0].factors, ts[..k]);
      SequencesShaped(l[1..], ts[k + 1..]);
      assert forall i :: 1 <= i < |l| ==> l[i] == Expression(l[1..]).sequences[i - 1];
    }
    assert l[0] == Sequence(l[0].factors);
  }

  lemma {:induction false} FactorsShaped(l: seq<Factor>, ts: seq<Lexeme>)
    requires DerivesFactors(l, ts)
    ensures ShapedSequence(Sequence(l))
    decreases l, 1
  {
    if |l| == 1 {
      TermsShaped(l[0].terms, ts);
    } else {
      var k :| 0 <= k <= |ts| && DerivesTerms(l[0].terms, ts[..k]) && DerivesFactors(l[1..], ts[k..]);
      TermsShaped(l[0].terms, ts[..k]);
      FactorsShaped(l[1..], ts[k..]);
      assert forall i :: 1 <= i < |l| ==> l[i] == Sequence(l[1..]).factors[i - 1];
    }
    assert l[0] == Factor(l[0].terms);
  }

  lemma {:induction false} TermsShaped(l: seq<Term>, ts: seq<Lexeme>)
    requires DerivesTerms(l, ts)
    ensures ShapedFactor(Factor(l))
    decreases l, 1
  {
    if |l| == 1 {
      TermShaped(l[0], ts);
    } else {
      var k :| 0 <= k < |ts| && ts[k].kind == OR && DerivesTerm(l[0], ts[..k]) && DerivesTerms(l[1..], ts[k + 1..]);
      TermShaped(l[0], ts[..k]);
      TermsShaped(l[1..], ts[k + 1..]);
      assert forall i :: 1 <= i < |l| ==> l[i] == Factor(l[1..]).terms[i - 1];
    }
  }

  lemma {:induction false} TermShaped(t: Term, ts: seq<Lexeme>)
    requires DerivesTerm(t, ts)
    ensures ShapedTerm(t)
    decreases t, 1
  {
    var s, used := t.simple.value, if t.negated then ts[1..] else ts;
    assert DerivesSimple(s, used);
    match s
    case Simple(Some(r), None) => RestrictionShaped(r, used);
    case Simple(None, Some(e)) => CompositeShaped(e, used);
  }

  lemma {:induction false} CompositeShaped(e: Expression, ts: seq<Lexeme>)
    requires DerivesComposite(e, ts)
    ensures Shaped(e)
    decreases e, 1
  {
    SequencesShaped(e.sequences, ts[1..|ts| - 1]);
    assert e == Expression(e.sequences);
  }

  lemma {:induction false} RestrictionShaped(r: Restriction, ts: seq<Lexeme>)
    requires DerivesRestriction(r, ts)
    ensures ShapedRestriction(r)
    decreases r, 1
  {
    match r.arg
    case None =>
    case Some(a) =>
      var k :| 0 <= k < |ts| && ts[k].kind == COMPARATOR && ts[k].value == r.comparator
               && DerivesComparable(r.comparable.value, ts[..k]) && DerivesArg(a, ts[k + 1..]);
      match a
      case Arg(Some(c), None) =>
      case Arg(None, Some(e)) => CompositeShaped(e, ts[k + 1..]);
  }

  // The main results.

  /** The parser accepts a token sequence, with a given tree, exactly when the grammar derives it so. */
  lemma ParsesExactlyTheGrammar(ts: seq<Lexeme>, f: Filter)
    ensures ParseFilter(ts) == Ok(f) <==> DerivesFilter(f, ts)
  {
    if ParseFilter(ts) == Ok(f) && ts != [] {
      SoundExpression(ts);
      assert Used(ts, []) == ts;
    }
    if DerivesFilter(f, ts) && f.expression.Some? {
      CompleteExpression(f.expression.value, ts, []);
      assert ts + [] == ts;
    }
  }

  /** So the grammar is unambiguous. */
  lemma OneTree(ts: seq<Lexeme>, f: Filter, g: Filter)
    requires DerivesFilter(f, ts) && DerivesFilter(g, ts)
    ensures f == g
  {
    ParsesExactlyTheGrammar(ts, f);
    ParsesExactlyTheGrammar(ts, g);
  }

  /** And every tree that the parser returns has the shape that the evaluators rely on: no list in it is
      empty, and nothing in it is missing. */
  lemma ParsedIsShaped(ts: seq<Lexeme>, f: Filter)
    requires ParseFilter(ts) == Ok(f)
    ensures ShapedFilter(f) && (f.expression.None? <==> ts == [])
  {
    ParsesExactlyTheGrammar(ts, f);
    if f.expression.Some? {
      var l := f.expression.value.sequences;
      SequencesShaped(l, ts);
      assert f.expression.value == Expression(l);
    }
  }
}
