/** Compilation commutes with the substitution that NOT EXISTS performs: substituting a node for
    the variable a term was compiled about gives what compiling it about that node gives. */
module CompilerSubst {
  import opened Terms
  import opened Denotation
  import opened Sparql
  import opened Compiler
  import opened CompilerVars
  import FullText

  /** `m` binds none of the variables a term introduces. */
  predicate Avoids(m: Mu, lo: nat, hi: nat, names: set<string>) {
    forall v | v in m :: !Mine(v, lo, hi, names)
  }

  lemma PSubstConcat(a: Pattern, b: Pattern, m: Mu)
    ensures PSubst(a + b, m) == PSubst(a, m) + PSubst(b, m)
  {
  }

  lemma SingleTestSubst(v: Operand, test: Test, m: Mu)
    ensures ESubst(SingleTest(v, test), m) == SingleTest(SubstOperand(v, m), test)
  {
    assert ESubst(SingleTest(v, test), m).atoms == [Atom(false, SubstOperand(v, m), test)];
  }

  lemma ReadingSubst(v: Operand, r: FullText.Reading, scoring: bool, cnt: nat, m: Mu)
    requires SubstOperand(v, m) == v
    ensures PSubst(ReadingPattern(v, r, scoring, cnt).0, m) == ReadingPattern(v, r, scoring, cnt).0
  {
    var es := ReadingPattern(v, r, scoring, cnt).0;
    forall e | e in es ensures ESubst(e, m) == e {
      if e.Filter? {
        assert ESubst(e, m).atoms == e.atoms;
      }
    }
  }

  /** Conditions are about a new variable, so they stay as they are. */
  lemma TestSubst(v: Var, c: Comparator, literal: LiteralValue, scoring: bool, cnt: nat, m: Mu)
    requires v !in m
    ensures PSubst(TestPattern(V(v), c, literal, scoring, cnt).0, m) == TestPattern(V(v), c, literal, scoring, cnt).0
  {
    if c == Contains {
      ReadingSubst(V(v), FullText.ReadText(LiteralText(literal)), scoring, cnt, m);
    } else if c == Regexp {
      SingleTestSubst(V(v), RegexText(LiteralText(literal)), m);
    } else {
      SingleTestSubst(V(v), CompareTo(c, literal), m);
    }
  }

  /** A variable drawn for the main value of a comparison, or its user-given name, is its own. */
  lemma ValueSubst(x: Operand, t: Term, cfg: Config, cnt: nat, m: Mu)
    requires t.Comparison? && Avoids(m, cnt, CompileValue(x, t, cfg, cnt).1, OwnName(t))
    ensures CompileValue(SubstOperand(x, m), t, cfg, cnt).1 == CompileValue(x, t, cfg, cnt).1
    ensures PSubst(CompileValue(x, t, cfg, cnt).0, m) == CompileValue(SubstOperand(x, m), t, cfg, cnt).0
  {
    var literal := if t.subTerm.Literal? then t.subTerm.value else NoLiteral;
    if t.comparator != Equal {
      var main := MainVariable(t.variableName, t.aggregate, cnt);
      MainVariableIsMine(t, cnt);
      var tested := TestPattern(V(main.0), t.comparator, literal, cfg.scoring, main.1);
      var prop := PropertyOperand(t.property, tested.1);
      HeadSubst(x, prop.0, main.0, t.comparator, literal, cfg.scoring, main.1, m);
      ValueShape(x, t, cfg, cnt);
      ValueShape(SubstOperand(x, m), t, cfg, cnt);
    }
  }

  lemma ValueShape(x: Operand, t: Term, cfg: Config, cnt: nat)
    requires t.Comparison? && t.comparator != Equal
    ensures
      var literal := if t.subTerm.Literal? then t.subTerm.value else NoLiteral;
      var main := MainVariable(t.variableName, t.aggregate, cnt);
      var tested := TestPattern(V(main.0), t.comparator, literal, cfg.scoring, main.1);
      var prop := PropertyOperand(t.property, tested.1);
      CompileValue(x, t, cfg, cnt) == ([TriplePattern(x, prop.0, V(main.0))] + tested.0, prop.1)
  {
  }

  lemma HeadSubst(x: Operand, prop: Operand, v: Var, c: Comparator, literal: LiteralValue, scoring: bool, c1: nat, m: Mu)
    requires v !in m && (prop.V? ==> prop.v !in m)
    ensures var tests := TestPattern(V(v), c, literal, scoring, c1).0;
            PSubst([TriplePattern(x, prop, V(v))] + tests, m) == [TriplePattern(SubstOperand(x, m), prop, V(v))] + tests
  {
    TestSubst(v, c, literal, scoring, c1, m);
  }

  lemma LabelSubst(x: Operand, t: Term, cfg: Config, cnt: nat, m: Mu)
    requires t.Comparison? && Avoids(m, cnt, CompileLabel(x, t, cfg, cnt).1, OwnName(t))
    ensures CompileLabel(SubstOperand(x, m), t, cfg, cnt).1 == CompileLabel(x, t, cfg, cnt).1
    ensures PSubst(CompileLabel(x, t, cfg, cnt).0, m) == CompileLabel(SubstOperand(x, m), t, cfg, cnt).0
  {
    var prop := PropertyOperand(t.property, cnt);
    var main := MainVariable(t.variableName, t.aggregate, prop.1);
    MainVariableIsMine(t, prop.1);
    var c := CompileLabel(x, t, cfg, cnt).1;
    forall n | cnt < n <= c ensures Fresh(n) !in m { assert Mine(Fresh(n), cnt, c, OwnName(t)); }
    assert Mine(main.0, cnt, c, OwnName(t));
    LabelSubstAt(x, t, cfg, cnt, m, prop, main);
  }

  lemma LabelSubstAt(x: Operand, t: Term, cfg: Config, cnt: nat, m: Mu, prop: (Operand, nat), main: (Var, nat))
    requires t.Comparison?
    requires prop == PropertyOperand(t.property, cnt) && main == MainVariable(t.variableName, t.aggregate, prop.1)
    requires SubstOperand(prop.0, m) == prop.0 && main.0 !in m
    requires forall n | main.1 < n <= CompileLabel(x, t, cfg, cnt).1 :: Fresh(n) !in m
    ensures CompileLabel(SubstOperand(x, m), t, cfg, cnt).1 == CompileLabel(x, t, cfg, cnt).1
    ensures PSubst(CompileLabel(x, t, cfg, cnt).0, m) == CompileLabel(SubstOperand(x, m), t, cfg, cnt).0
  {
    var literal := if t.subTerm.Literal? then t.subTerm.value else NoLiteral;
    if t.comparator == Equal {
      ChainSubst(x, prop.0, main.0, Fresh(main.1 + 1), N(LitNode(literal)), [], m);
    } else if t.comparator == Contains {
      LabelContainsSubst(x, t, cfg, cnt, m, prop, main, literal);
    } else {
      assert CompileLabel(x, t, cfg, cnt).0 == [];
    }
  }

  lemma LabelContainsSubst(x: Operand, t: Term, cfg: Config, cnt: nat, m: Mu, prop: (Operand, nat), main: (Var, nat),
                           literal: LiteralValue)
    requires t.Comparison? && t.comparator == Contains && literal == if t.subTerm.Literal? then t.subTerm.value else NoLiteral
    requires prop == PropertyOperand(t.property, cnt) && main == MainVariable(t.variableName, t.aggregate, prop.1)
    requires SubstOperand(prop.0, m) == prop.0 && main.0 !in m
    requires forall n | main.1 < n <= CompileLabel(x, t, cfg, cnt).1 :: Fresh(n) !in m
    ensures CompileLabel(SubstOperand(x, m), t, cfg, cnt).1 == CompileLabel(x, t, cfg, cnt).1
    ensures PSubst(CompileLabel(x, t, cfg, cnt).0, m) == CompileLabel(SubstOperand(x, m), t, cfg, cnt).0
  {
    var q, l := Fresh(main.1 + 1), Fresh(main.1 + 2);
    LabelContainsShape(x, t, cfg, cnt, prop, main);
    LabelContainsShape(SubstOperand(x, m), t, cfg, cnt, prop, main);
    TestSubst(l, Contains, literal, cfg.scoring, main.1 + 2, m);
    ChainSubst(x, prop.0, main.0, q, V(l), TestPattern(V(l), Contains, literal, cfg.scoring, main.1 + 2).0, m);
  }

  lemma ChainSubst(x: Operand, prop: Operand, v: Var, q: Var, o: Operand, tests: Pattern, m: Mu)
    requires PSubst(tests, m) == tests && v !in m && q !in m
    requires SubstOperand(prop, m) == prop && SubstOperand(o, m) == o
    ensures PSubst([TriplePattern(x, prop, V(v)), TriplePattern(V(v), V(q), o)] + tests, m)
         == [TriplePattern(SubstOperand(x, m), prop, V(v)), TriplePattern(V(v), V(q), o)] + tests
    ensures PSubst([TriplePattern(x, prop, V(v)), TriplePattern(V(v), V(q), o)], m)
         == [TriplePattern(SubstOperand(x, m), prop, V(v)), TriplePattern(V(v), V(q), o)]
  {
    PairThenSubst(TriplePattern(x, prop, V(v)), TriplePattern(V(v), V(q), o), tests, m);
  }

  lemma PairThenSubst(a: Element, b: Element, tests: Pattern, m: Mu)
    requires PSubst(tests, m) == tests
    ensures PSubst([a, b] + tests, m) == [ESubst(a, m), ESubst(b, m)] + tests
  {
    PSubstConcat([a, b], tests, m);
  }

  lemma LiteralSubst(x: Operand, literal: LiteralValue, cfg: Config, cnt: nat, m: Mu)
    requires Avoids(m, cnt, CompileLiteral(x, literal, cfg, cnt).1, {})
    ensures CompileLiteral(SubstOperand(x, m), literal, cfg, cnt).1 == CompileLiteral(x, literal, cfg, cnt).1
    ensures PSubst(CompileLiteral(x, literal, cfg, cnt).0, m) == CompileLiteral(SubstOperand(x, m), literal, cfg, cnt).0
  {
    if LiteralText(literal) != "" {
      var v1 := Fresh(cnt + 2);
      var (tests, c) := TestPattern(V(v1), Contains, literal, cfg.scoring, cnt + 3);
      forall n | cnt < n <= c + 1 ensures Fresh(n) !in m { assert Mine(Fresh(n), cnt, c + 1, {}); }
      TestSubst(v1, Contains, literal, cfg.scoring, cnt + 3, m);
      PlainSubst(x, V(Fresh(cnt + 1)), V(v1), V(Fresh(cnt + 3)), V(Fresh(c + 1)), tests, m);
    }
  }

  lemma PlainSubst(x: Operand, p1: Operand, v1: Operand, r2: Operand, p2: Operand, tests: Pattern, m: Mu)
    requires PSubst(tests, m) == tests
    requires forall o | o in [p1, v1, r2, p2] :: SubstOperand(o, m) == o
    ensures PSubst([PlainPattern(x, p1, v1, r2, p2, tests)], m) == [PlainPattern(SubstOperand(x, m), p1, v1, r2, p2, tests)]
  {
    var x' := SubstOperand(x, m);
    var a, b := [TriplePattern(x, p1, v1)] + tests, [TriplePattern(x, p1, r2), TriplePattern(r2, p2, v1)] + tests;
    assert PSubst(a, m) == [TriplePattern(x', p1, v1)] + tests by {
      PSubstConcat([TriplePattern(x, p1, v1)], tests, m);
    }
    assert PSubst(b, m) == [TriplePattern(x', p1, r2), TriplePattern(r2, p2, v1)] + tests by {
      PairThenSubst(TriplePattern(x, p1, r2), TriplePattern(r2, p2, v1), tests, m);
    }
    UnionSubst(a, b, m);
  }

  lemma UnionSubst(a: Pattern, b: Pattern, m: Mu)
    ensures ESubst(Union([Group(a), Group(b)]), m) == Union([Group(PSubst(a, m)), Group(PSubst(b, m))])
  {
    var branches := [Group(a), Group(b)];
    var s := PSubst(branches, m);
    assert s[0] == ESubst(branches[0], m) && s[1] == ESubst(branches[1], m);
    assert s == [Group(PSubst(a, m)), Group(PSubst(b, m))];
  }

  lemma FirstNegatedSubst(f: Element, m: Mu)
    requires f.Filter? && f.atoms != []
    ensures var a := f.atoms[0];
            var s := ESubst(f, m).atoms;
            s != [] && ESubst(f.(atoms := [a.(negated := !a.negated)] + f.atoms[1..]), m)
                       == ESubst(f, m).(atoms := [s[0].(negated := !s[0].negated)] + s[1..])
  {
    var a := f.atoms[0];
    var g := f.(atoms := [a.(negated := !a.negated)] + f.atoms[1..]);
    var s := ESubst(f, m).atoms;
    assert ESubst(g, m).atoms == [s[0].(negated := !s[0].negated)] + s[1..];
  }

  lemma {:induction false} NegateFirstFilterSubst(es: Pattern, m: Mu)
    ensures PSubst(NegateFirstFilter(es), m) == NegateFirstFilter(PSubst(es, m))
    decreases |es|
  {
    if es != [] {
      assert es == [es[0]] + es[1..];
      assert PSubst(es, m)[0] == ESubst(es[0], m) && PSubst(es, m)[1..] == PSubst(es[1..], m);
      if es[0].Filter? && es[0].atoms != [] {
        var atoms := es[0].atoms;
        FirstNegatedSubst(es[0], m);
      } else {
        NegateFirstFilterSubst(es[1..], m);
      }
    }
  }

  ghost predicate Commutes(t: Term, x: Operand, isReal: bool, cfg: Config, cnt: nat, m: Mu) {
    && Compile(t, SubstOperand(x, m), isReal, cfg, cnt).1 == Compile(t, x, isReal, cfg, cnt).1
    && PSubst(Compile(t, x, isReal, cfg, cnt).0, m) == Compile(t, SubstOperand(x, m), isReal, cfg, cnt).0
  }

  lemma {:induction false} CompileSubst(t: Term, x: Operand, isReal: bool, cfg: Config, cnt: nat, m: Mu)
    requires Avoids(m, cnt, Compile(t, x, isReal, cfg, cnt).1, Names(t))
    ensures Commutes(t, x, isReal, cfg, cnt, m)
    decreases t, 1
  {
    match t
    case Invalid =>
    case Literal(l) => LiteralSubst(x, l, cfg, cnt, m);
    case Resource(u) => LeafSubst(t, x, isReal, cfg, cnt, m);
    case ResourceType(ts) => LeafSubst(t, x, isReal, cfg, cnt, m);
    case And(subs) =>
      CompileAllSubst(subs, x, HasRealPattern(subs), cfg, cnt, m);
    case Or(subs) =>
      CompileBranchesSubst(subs, x, cfg, cnt, m);
    case Negation(s) =>
      if IsRegexp(s) {
        CompileSubst(s, x, isReal, cfg, cnt, m);
        NegateFirstFilterSubst(Compile(s, x, isReal, cfg, cnt).0, m);
      } else {
        var c1 := if isReal then cnt else cnt + 1;
        CompileSubst(s, x, false, cfg, c1, m);
        NotExistsSubst(x, isReal, Fresh(cnt + 1), Compile(s, x, false, cfg, c1).0, m);
      }
    case Optional(s) =>
      CompileSubst(s, x, false, cfg, cnt, m);
    case Comparison(s, p, _, _, _, _, _, _) =>
      ComparisonSubst(t, x, isReal, cfg, cnt, m);
  }

  lemma NotExistsSubst(x: Operand, isReal: bool, v: Var, inner: Pattern, m: Mu)
    requires isReal || v !in m
    ensures PSubst((if isReal then [] else [TypePattern(x, V(v))]) + [FilterNotExists(inner)], m)
         == (if isReal then [] else [TypePattern(SubstOperand(x, m), V(v))]) + [FilterNotExists(PSubst(inner, m))]
  {
    var f := FilterNotExists(inner);
    if isReal {
      assert [] + [f] == [f];
    } else {
      assert [TypePattern(x, V(v))] + [f] == [TypePattern(x, V(v)), f];
    }
  }

  lemma LeafSubst(t: Term, x: Operand, isReal: bool, cfg: Config, cnt: nat, m: Mu)
    requires t.Resource? || t.ResourceType?
    requires Avoids(m, cnt, Compile(t, x, isReal, cfg, cnt).1, {})
    ensures Commutes(t, x, isReal, cfg, cnt, m)
  {
    var v := V(Fresh(cnt + 1));
    if t.Resource? {
      SingleTestSubst(x, SameNode(UriNode(t.uri)), m);
    } else if |t.types| == 1 {
    } else {
      SingleTestSubst(v, InTypes(t.types), m);
      assert Mine(Fresh(cnt + 1), cnt, cnt + 1, {});
    }
  }

  lemma ComparisonSubst(t: Term, x: Operand, isReal: bool, cfg: Config, cnt: nat, m: Mu)
    requires t.Comparison? && Avoids(m, cnt, Compile(t, x, isReal, cfg, cnt).1, Names(t))
    ensures Commutes(t, x, isReal, cfg, cnt, m)
    decreases t, 0
  {
    var s, p := t.subTerm, t.property;
    var (es, c) := Compile(t, x, isReal, cfg, cnt);
    if IsValid(s) && ((p.Some? && p.value in cfg.literalRange) || t.comparator == Regexp) {
      ValueSubst(x, t, cfg, cnt, m);
    } else if IsValid(s) && s.Literal? {
      LabelSubst(x, t, cfg, cnt, m);
    } else if IsValid(s) && !s.Resource? {
      var (prop, c1) := PropertyOperand(p, cnt);
      var (v, c2) := MainVariable(t.variableName, t.aggregate, c1);
      var (inner, c3) := Compile(s, V(v), false, cfg, c2);
      MainVariableIsMine(t, c1);
      NestedSubst(t, x, prop, v, c2, cfg, cnt, m);
    }
  }

  lemma NestedSubst(t: Term, x: Operand, prop: Operand, v: Var, c2: nat, cfg: Config, cnt: nat, m: Mu)
    requires t.Comparison?
    requires v !in m && (prop.V? ==> prop.v !in m) && cnt <= c2
    requires Avoids(m, cnt, Compile(t.subTerm, V(v), false, cfg, c2).1, Names(t))
    ensures Compile(t.subTerm, V(v), false, cfg, c2).1 == Compile(t.subTerm, SubstOperand(V(v), m), false, cfg, c2).1
    ensures PSubst([LinkPattern(t.inverted, x, prop, V(v))] + Compile(t.subTerm, V(v), false, cfg, c2).0, m)
         == [LinkPattern(t.inverted, SubstOperand(x, m), prop, V(v))] + Compile(t.subTerm, V(v), false, cfg, c2).0
    decreases t.subTerm, 2
  {
    var inner := Compile(t.subTerm, V(v), false, cfg, c2).0;
    CompileSubst(t.subTerm, V(v), false, cfg, c2, m);
  }

  lemma {:induction false} CompileAllSubst(ts: seq<Term>, x: Operand, isReal: bool, cfg: Config, cnt: nat, m: Mu)
    requires Avoids(m, cnt, CompileAll(ts, x, isReal, cfg, cnt).1, AllNames(ts))
    ensures CompileAll(ts, SubstOperand(x, m), isReal, cfg, cnt).1 == CompileAll(ts, x, isReal, cfg, cnt).1
    ensures PSubst(CompileAll(ts, x, isReal, cfg, cnt).0, m) == CompileAll(ts, SubstOperand(x, m), isReal, cfg, cnt).0
    decreases ts, 1
  {
    if ts != [] {
      var (es, c) := Compile(ts[0], x, isReal, cfg, cnt);
      var (rest, c') := CompileAll(ts[1..], x, isReal, cfg, c);
      assert Names(ts[0]) <= AllNames(ts) && AllNames(ts[1..]) <= AllNames(ts);
      CompileSubst(ts[0], x, isReal, cfg, cnt, m);
      CompileAllSubst(ts[1..], x, isReal, cfg, c, m);
      PSubstConcat(es, rest, m);
    }
  }

  lemma {:induction false} CompileBranchesSubst(ts: seq<Term>, x: Operand, cfg: Config, cnt: nat, m: Mu)
    requires Avoids(m, cnt, CompileBranches(ts, x, cfg, cnt).1, AllNames(ts))
    ensures CompileBranches(ts, SubstOperand(x, m), cfg, cnt).1 == CompileBranches(ts, x, cfg, cnt).1
    ensures PSubst(CompileBranches(ts, x, cfg, cnt).0, m) == CompileBranches(ts, SubstOperand(x, m), cfg, cnt).0
    decreases ts, 1
  {
    if ts != [] {
      var (es, c) := Compile(ts[0], x, false, cfg, cnt);
      var (rest, c') := CompileBranches(ts[1..], x, cfg, c);
      assert Names(ts[0]) <= AllNames(ts) && AllNames(ts[1..]) <= AllNames(ts);
      CompileSubst(ts[0], x, false, cfg, cnt, m);
      CompileBranchesSubst(ts[1..], x, cfg, c, m);
    }
  }
}
