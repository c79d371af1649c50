/** What the patterns hold besides what they mean: where scores come from, and where the compiler
    leaves out a pattern that another conjunct makes superfluous. */
module PatternParts {
  import opened Terms
  import opened Denotation
  import opened Sparql
  import opened Compiler
  import opened SearchText
  import opened SparqlAlgebra
  import opened CompilerProof
  import opened NamedValues
  import FullText

  predicate HasScore(es: Pattern) {
    exists e | e in es :: e.FullTextPattern?
  }

  /** A text search yields a score exactly if scoring is enabled, the text has a token without an early
      wildcard, and it is not an alternative to a regular expression. Then the score is for all such
      tokens, and its variable is a new one. */
  lemma ScoredExactly(v: Operand, text: string, scoring: bool, cnt: nat)
    ensures var ts, (es, c) := FullText.Lex(text, false, ""), ContainsPattern(v, text, scoring, cnt);
            && (HasScore(es) <==>
                  scoring && Searched(ts, false) != [] && (Searched(ts, true) == [] || !LastIsOr(ts, false)))
            && forall e | e in es && e.FullTextPattern? ::
                 e.o == v && Texts(e.tokens) == Searched(ts, false) && e.isUnion == LastIsOr(ts, false)
                 && e.score.Fresh? && cnt < e.score.n <= c
  {
    ReadTextIs(text);
    var r := FullText.ReadText(text);
    var es := ContainsPattern(v, text, scoring, cnt).0;
    if r.contains != [] && scoring && (r.regex == [] || !r.isUnion) {
      assert es[|es| - 1].FullTextPattern?;
    }
  }

  /** The pattern of a resource or a negation, which asks for a typed resource unless `isReal`. */
  lemma FilteredPattern(t: Term, x: Operand, isReal: bool, cfg: Config, cnt: nat) returns (filter: Element)
    requires t.Resource? || (t.Negation? && !IsRegexp(t.subTerm))
    ensures Compile(t, x, isReal, cfg, cnt).0 == (if isReal then [] else [TypePattern(x, V(Fresh(cnt + 1)))]) + [filter]
    ensures filter.Filter? || filter.FilterNotExists?
  {
    var es := Compile(t, x, isReal, cfg, cnt).0;
    filter := es[|es| - 1];
  }

  /** Some conjunct asks for a property or a type, which only a typed resource can have. */
  predicate HasTypedConjunct(ts: seq<Term>) {
    exists k | 0 <= k < |ts| :: ts[k].Comparison? || ts[k].ResourceType?
  }

  /** A resource or a negation among the conjuncts has no pattern of its own that asks for a typed
      resource if some conjunct is a comparison or a type, and has one otherwise. */
  lemma ConjunctIsLean(ts: seq<Term>, i: nat, x: Operand, cfg: Config)
      returns (before: Pattern, n: nat, filter: Element, after: Pattern)
    requires i < |ts| && (ts[i].Resource? || (ts[i].Negation? && !IsRegexp(ts[i].subTerm)))
    ensures Compile(And(ts), x, false, cfg, 0).0 ==
            [Group(before + ((if HasTypedConjunct(ts) then [] else [TypePattern(x, V(Fresh(n)))]) + [filter]) + after)]
    ensures filter.Filter? || filter.FilterNotExists?
  {
    var isReal := HasRealPattern(ts);
    assert isReal == HasTypedConjunct(ts);
    var front := CompileAll(ts[..i], x, isReal, cfg, 0);
    var head := Compile(ts[i], x, isReal, cfg, front.1);
    ConjunctAt(ts, i, x, isReal, cfg);
    filter := FilteredPattern(ts[i], x, isReal, cfg, front.1);
    before, n, after := front.0, front.1 + 1, CompileAll(ts[i + 1..], x, isReal, cfg, head.1).0;
  }

  // ----- what has no pattern -----

  /** An invalid term, an empty text, and a resource compared with a literal by order. */
  predicate HasNoPattern(t: Term, literalRange: set<Uri>) {
    match t
    case Invalid => true
    case Literal(l) => LiteralText(l) == ""
    case Comparison(s, _, c, _, _, _, _, _) =>
      IsValid(s) && s.Literal? && !ComparedAsValue(t, literalRange) && c != Equal && c != Contains
    case _ => false
  }

  lemma {:induction false} NegatedFilterSize(es: Pattern)
    ensures |NegateFirstFilter(es)| == |es|
    decreases |es|
  {
    if es != [] { NegatedFilterSize(es[1..]); }
  }

  /** Exactly these terms are ignored, wherever they stand; a query about one alone returns nothing. */
  lemma IgnoredExactly(w: World, t: Term, x: Operand, isReal: bool, cfg: Config, cnt: nat)
    ensures Compile(t, x, isReal, cfg, cnt).0 == [] <==> HasNoPattern(t, cfg.literalRange)
    ensures HasNoPattern(t, cfg.literalRange) ==> forall v, r :: !Returns(w, Compile(t, x, isReal, cfg, cnt).0, v, r)
  {
    if t.Negation? && IsRegexp(t.subTerm) {
      NegatedFilterSize(Compile(t.subTerm, x, isReal, cfg, cnt).0);
    }
  }

  lemma NothingToSolve(w: World)
    ensures Solutions(w, []) == {map[]}
  {
    var empty: Pattern := [];
    assert Part(w, empty) == {map[]};
    assert Passes(w, empty, map[]);
  }

  lemma GroupAlone(w: World, inner: Pattern)
    ensures Solutions(w, [Group(inner)]) == Solutions(w, inner)
  {
    var es := [Group(inner)];
    PartSingle(w, Group(inner));
    forall m ensures Passes(w, es, m) {
      assert forall e | e in es :: e == Group(inner) && EPasses(w, e, m);
    }
  }

  /** A group without members asks for nothing, a disjunction like a conjunction. */
  lemma EmptyGroupsAskForNothing(w: World, isAnd: bool, x: Operand, isReal: bool, cfg: Config, cnt: nat)
    ensures Solutions(w, Compile(MakeGroup(isAnd, []), x, isReal, cfg, cnt).0) == {map[]}
  {
    NothingToSolve(w);
    GroupAlone(w, []);
  }
}
