/** Fresh variables: what a term compiles to mentions the node it is about, variables from its own
    interval of the counter, and the names the user gave inside it - and nothing else. */
module CompilerVars {
  import opened Terms
  import opened Denotation
  import opened Sparql
  import opened SparqlAlgebra
  import opened Compiler
  import FullText

  function OwnName(t: Term): set<string>
    requires t.Comparison?
  {
    if t.variableName != "" && t.aggregate.NoAggregateFunction? then {t.variableName} else {}
  }

  /** The variable names set inside a term. */
  function Names(t: Term): set<string>
    decreases t
  {
    match t
    case And(subs) => AllNames(subs)
    case Or(subs) => AllNames(subs)
    case Negation(s) => Names(s)
    case Optional(s) => Names(s)
    case Comparison(s, _, _, _, _, _, _, _) => OwnName(t) + Names(s)
    case _ => {}
  }

  function AllNames(ts: seq<Term>): set<string>
    decreases ts
  {
    set s, n | s in ts && n in Names(s) :: n
  }

  /** The variables a term may introduce while the counter runs from `lo` to `hi`. */
  predicate Mine(v: Var, lo: nat, hi: nat, names: set<string>) {
    match v
    case Fresh(n) => lo < n <= hi
    case Named(s) => s in names
    case ResultVar => false
  }

  ghost predicate Within(es: Pattern, x: Operand, lo: nat, hi: nat, names: set<string>) {
    forall v | v in PVars(es) :: v in OperandVars(x) || Mine(v, lo, hi, names)
  }

  /** `x` cannot be mistaken for a variable of a term compiled from `lo` on. */
  predicate Outside(x: Operand, lo: nat, names: set<string>) {
    x.V? ==> match x.v { case Fresh(n) => n <= lo case Named(s) => s !in names case ResultVar => true }
  }

  lemma PVarsCons(e: Element, es: Pattern)
    ensures PVars([e] + es) == EVars(e) + PVars(es)
  {
    PVarsConcat([e], es);
    PVarsSingle(e);
  }

  lemma PVarsPair(a: Element, b: Element)
    ensures PVars([a, b]) == EVars(a) + EVars(b)
  {
    assert [a, b] == [a] + [b];
    PVarsCons(a, [b]);
    PVarsSingle(b);
  }

  lemma ReadingVars(v: Operand, r: FullText.Reading, scoring: bool, cnt: nat)
    ensures var (es, c) := ReadingPattern(v, r, scoring, cnt); Within(es, v, cnt, c, {})
  {
    var (es, c) := ReadingPattern(v, r, scoring, cnt);
    forall e | e in es ensures forall u | u in EVars(e) :: u in OperandVars(v) || Mine(u, cnt, c, {}) {
    }
    EachWithin(es, v, cnt, c, {});
  }

  lemma EachWithin(es: Pattern, x: Operand, lo: nat, hi: nat, names: set<string>)
    requires forall e | e in es :: forall v | v in EVars(e) :: v in OperandVars(x) || Mine(v, lo, hi, names)
    ensures Within(es, x, lo, hi, names)
  {
  }

  lemma TestVars(v: Operand, c: Comparator, literal: LiteralValue, scoring: bool, cnt: nat)
    ensures var (es, c') := TestPattern(v, c, literal, scoring, cnt); Within(es, v, cnt, c', {})
  {
    if c == Contains {
      if LiteralText(literal) != "" {
        ReadingVars(v, FullText.ReadText(LiteralText(literal)), scoring, cnt);
      }
    } else {
      PVarsSingle(TestPattern(v, c, literal, scoring, cnt).0[0]);
    }
  }

  lemma WithinConcat(a: Pattern, b: Pattern, x: Operand, lo: nat, hi: nat, names: set<string>)
    requires Within(a, x, lo, hi, names) && Within(b, x, lo, hi, names)
    ensures Within(a + b, x, lo, hi, names)
  {
    PVarsConcat(a, b);
  }

  /** Seen from a larger interval, a pattern about one of the new variables is one about `x`. */
  lemma WithinMore(es: Pattern, y: Operand, lo: nat, hi: nat, x: Operand, lo': nat, hi': nat, names: set<string>)
    requires Within(es, y, lo, hi, {}) && lo' <= lo && hi <= hi'
    requires y.V? ==> Mine(y.v, lo', hi', names)
    ensures Within(es, x, lo', hi', names)
  {
  }

  /** Conditions on the new variable `v`, after patterns that mention it. */
  lemma TestedVars(head: Pattern, v: Var, c: Comparator, literal: LiteralValue, scoring: bool, c1: nat,
                   x: Operand, lo: nat, hi: nat, names: set<string>)
    requires Within(head, x, lo, hi, names) && Mine(v, lo, hi, names)
    requires lo <= c1 && TestPattern(V(v), c, literal, scoring, c1).1 <= hi
    ensures Within(head + TestPattern(V(v), c, literal, scoring, c1).0, x, lo, hi, names)
  {
    var (tests, c2) := TestPattern(V(v), c, literal, scoring, c1);
    TestVars(V(v), c, literal, scoring, c1);
    WithinMore(tests, V(v), c1, c2, x, lo, hi, names);
    WithinConcat(head, tests, x, lo, hi, names);
  }

  lemma ValueVars(x: Operand, t: Term, cfg: Config, cnt: nat)
    requires t.Comparison?
    ensures var (es, c) := CompileValue(x, t, cfg, cnt); Within(es, x, cnt, c, OwnName(t))
  {
    var literal := if t.subTerm.Literal? then t.subTerm.value else NoLiteral;
    var (es, c) := CompileValue(x, t, cfg, cnt);
    PVarsSingle(es[0]);
    if t.comparator != Equal {
      var (v, c1) := MainVariable(t.variableName, t.aggregate, cnt);
      TestedVars([es[0]], v, t.comparator, literal, cfg.scoring, c1, x, cnt, c, OwnName(t));
    }
  }

  lemma PairWithin(a: Element, b: Element, x: Operand, lo: nat, hi: nat, names: set<string>)
    requires forall v | v in EVars(a) :: v in OperandVars(x) || Mine(v, lo, hi, names)
    requires forall v | v in EVars(b) :: v in OperandVars(x) || Mine(v, lo, hi, names)
    ensures Within([a, b], x, lo, hi, names)
  {
    PVarsPair(a, b);
  }

  lemma LabelVars(x: Operand, t: Term, cfg: Config, cnt: nat)
    requires t.Comparison?
    ensures Within(CompileLabel(x, t, cfg, cnt).0, x, cnt, CompileLabel(x, t, cfg, cnt).1, OwnName(t))
  {
    if t.comparator == Contains {
      LabelContainsCase(x, t, cfg, cnt);
    } else if t.comparator == Equal {
      LabelEqualCase(x, t, cfg, cnt);
    } else {
      assert CompileLabel(x, t, cfg, cnt).0 == [];
    }
  }

  lemma LabelEqualCase(x: Operand, t: Term, cfg: Config, cnt: nat)
    requires t.Comparison? && t.comparator == Equal
    ensures Within(CompileLabel(x, t, cfg, cnt).0, x, cnt, CompileLabel(x, t, cfg, cnt).1, OwnName(t))
  {
    var literal := if t.subTerm.Literal? then t.subTerm.value else NoLiteral;
    var prop := PropertyOperand(t.property, cnt);
    var main := MainVariable(t.variableName, t.aggregate, prop.1);
    ChainWithin(x, prop.0, main.0, cnt, prop.1, main.1, OwnName(t), N(LitNode(literal)), main.1 + 1);
  }

  lemma LabelContainsCase(x: Operand, t: Term, cfg: Config, cnt: nat)
    requires t.Comparison? && t.comparator == Contains
    ensures Within(CompileLabel(x, t, cfg, cnt).0, x, cnt, CompileLabel(x, t, cfg, cnt).1, OwnName(t))
  {
    var literal := if t.subTerm.Literal? then t.subTerm.value else NoLiteral;
    var prop := PropertyOperand(t.property, cnt);
    var main := MainVariable(t.variableName, t.aggregate, prop.1);
    PropertyIsMine(t, cnt);
    MainVariableIsMine(t, prop.1);
    LabelContainsVars(x, prop.0, main.0, literal, cfg.scoring, cnt, prop.1, main.1, OwnName(t));
    LabelContainsShape(x, t, cfg, cnt, prop, main);
  }

  lemma PropertyIsMine(t: Term, cnt: nat)
    requires t.Comparison?
    ensures var (p, c) := PropertyOperand(t.property, cnt); cnt <= c && (p.V? ==> Mine(p.v, cnt, c, OwnName(t)))
  {
  }

  lemma MainVariableIsMine(t: Term, cnt: nat)
    requires t.Comparison?
    ensures var (v, c) := MainVariable(t.variableName, t.aggregate, cnt); cnt <= c && Mine(v, cnt, c, OwnName(t))
  {
  }

  lemma LabelContainsShape(x: Operand, t: Term, cfg: Config, cnt: nat, prop: (Operand, nat), main: (Var, nat))
    requires t.Comparison? && t.comparator == Contains
    requires prop == PropertyOperand(t.property, cnt) && main == MainVariable(t.variableName, t.aggregate, prop.1)
    ensures CompileLabel(x, t, cfg, cnt) ==
            RelatedText(x, prop.0, main.0, if t.subTerm.Literal? then t.subTerm.value else NoLiteral, cfg.scoring, main.1)
  {
  }

  lemma LabelContainsVars(x: Operand, prop: Operand, v: Var, literal: LiteralValue, scoring: bool,
                          cnt: nat, c1: nat, c2: nat, names: set<string>)
    requires cnt <= c1 <= c2 && (prop.V? ==> Mine(prop.v, cnt, c1, names)) && Mine(v, c1, c2, names)
    ensures var (es, c) := RelatedText(x, prop, v, literal, scoring, c2); Within(es, x, cnt, c, names)
  {
    var l := Fresh(c2 + 2);
    var tests := TestPattern(V(l), Contains, literal, scoring, c2 + 2);
    var head := [TriplePattern(x, prop, V(v)), TriplePattern(V(v), V(Fresh(c2 + 1)), V(l))];
    ChainWithin(x, prop, v, cnt, c1, c2, names, V(l), tests.1);
    LabelTested(head, literal, scoring, c2, x, cnt, tests, names);
    assert RelatedText(x, prop, v, literal, scoring, c2) == (head + tests.0, tests.1);
  }

  lemma LabelTested(head: Pattern, literal: LiteralValue, scoring: bool, c: nat, x: Operand, lo: nat,
                    tests: (Pattern, nat), names: set<string>)
    requires tests == TestPattern(V(Fresh(c + 2)), Contains, literal, scoring, c + 2)
    requires lo <= c && Within(head, x, lo, tests.1, names)
    ensures Within(head + tests.0, x, lo, tests.1, names)
  {
    TestedVars(head, Fresh(c + 2), Contains, literal, scoring, c + 2, x, lo, tests.1, names);
  }

  lemma ChainWithin(x: Operand, prop: Operand, v: Var, cnt: nat, c1: nat, c2: nat, names: set<string>, o: Operand, c: nat)
    requires cnt <= c1 <= c2 < c
    requires prop.V? ==> Mine(prop.v, cnt, c1, names)
    requires Mine(v, c1, c2, names)
    requires o.V? ==> Mine(o.v, c2, c, {})
    ensures Within([TriplePattern(x, prop, V(v)), TriplePattern(V(v), V(Fresh(c2 + 1)), o)], x, cnt, c, names)
  {
    PairWithin(TriplePattern(x, prop, V(v)), TriplePattern(V(v), V(Fresh(c2 + 1)), o), x, cnt, c, names);
  }

  lemma UnionWithin(a: Pattern, b: Pattern, x: Operand, lo: nat, hi: nat, names: set<string>)
    requires Within(a, x, lo, hi, names) && Within(b, x, lo, hi, names)
    ensures Within([Union([Group(a), Group(b)])], x, lo, hi, names)
  {
    PVarsPair(Group(a), Group(b));
    PVarsSingle(Union([Group(a), Group(b)]));
  }

  lemma LiteralVars(x: Operand, literal: LiteralValue, cfg: Config, cnt: nat)
    ensures var (es, c) := CompileLiteral(x, literal, cfg, cnt); Within(es, x, cnt, c, {})
  {
    if LiteralText(literal) != "" {
      var v1 := Fresh(cnt + 2);
      var tests := TestPattern(V(v1), Contains, literal, cfg.scoring, cnt + 3);
      PlainVars(x, V(Fresh(cnt + 1)), v1, V(Fresh(cnt + 3)), V(Fresh(tests.1 + 1)), literal, cfg.scoring, cnt);
    }
  }

  lemma PlainVars(x: Operand, p1: Operand, v1: Var, r2: Operand, p2: Operand, literal: LiteralValue, scoring: bool, cnt: nat)
    requires var c := TestPattern(V(v1), Contains, literal, scoring, cnt + 3).1 + 1;
             Mine(v1, cnt, c, {}) && forall o | o in [p1, r2, p2] :: o.V? && Mine(o.v, cnt, c, {})
    ensures var tests := TestPattern(V(v1), Contains, literal, scoring, cnt + 3);
            Within([PlainPattern(x, p1, V(v1), r2, p2, tests.0)], x, cnt, tests.1 + 1, {})
  {
    var tests := TestPattern(V(v1), Contains, literal, scoring, cnt + 3);
    var direct, related := [TriplePattern(x, p1, V(v1))], [TriplePattern(x, p1, r2), TriplePattern(r2, p2, V(v1))];
    TriplesWithin(x, p1, v1, r2, p2, cnt, tests.1 + 1);
    TestedVars(direct, v1, Contains, literal, scoring, cnt + 3, x, cnt, tests.1 + 1, {});
    TestedVars(related, v1, Contains, literal, scoring, cnt + 3, x, cnt, tests.1 + 1, {});
    UnionWithin(direct + tests.0, related + tests.0, x, cnt, tests.1 + 1, {});
  }

  lemma TriplesWithin(x: Operand, p1: Operand, v1: Var, r2: Operand, p2: Operand, cnt: nat, c: nat)
    requires Mine(v1, cnt, c, {}) && forall o | o in [p1, r2, p2] :: o.V? && Mine(o.v, cnt, c, {})
    ensures Within([TriplePattern(x, p1, V(v1))], x, cnt, c, {})
    ensures Within([TriplePattern(x, p1, r2), TriplePattern(r2, p2, V(v1))], x, cnt, c, {})
  {
    assert p1 in [p1, r2, p2] && r2 in [p1, r2, p2] && p2 in [p1, r2, p2];
    EachWithin([TriplePattern(x, p1, V(v1))], x, cnt, c, {});
    PairWithin(TriplePattern(x, p1, r2), TriplePattern(r2, p2, V(v1)), x, cnt, c, {});
  }

  lemma {:induction false} NegateFirstFilterVars(es: Pattern)
    ensures PVars(NegateFirstFilter(es)) == PVars(es)
    decreases |es|
  {
    if es != [] {
      assert es == [es[0]] + es[1..];
      PVarsCons(es[0], es[1..]);
      if es[0].Filter? && es[0].atoms != [] {
        var atoms := es[0].atoms;
        var e := es[0].(atoms := [atoms[0].(negated := !atoms[0].negated)] + atoms[1..]);
        FirstNegatedVars(es[0]);
        PVarsCons(e, es[1..]);
      } else {
        NegateFirstFilterVars(es[1..]);
        PVarsCons(es[0], NegateFirstFilter(es[1..]));
      }
    }
  }

  lemma FirstNegatedVars(f: Element)
    requires f.Filter? && f.atoms != []
    ensures var a := f.atoms[0];
            EVars(f.(atoms := [a.(negated := !a.negated)] + f.atoms[1..])) == EVars(f)
  {
    var a := f.atoms[0];
    var b := a.(negated := !a.negated);
    AtomVars([a], f.atoms[1..], f.isUnion);
    AtomVars([b], f.atoms[1..], f.isUnion);
    assert f.atoms == [a] + f.atoms[1..];
    assert a in [a] && b in [b];
    assert EVars(Filter(f.isUnion, [a])) == OperandVars(a.operand) == EVars(Filter(f.isUnion, [b]));
  }

  lemma AtomVars(a: seq<Atom>, b: seq<Atom>, isUnion: bool)
    ensures EVars(Filter(isUnion, a + b)) == EVars(Filter(isUnion, a)) + EVars(Filter(isUnion, b))
  {
    assert forall c :: c in a + b <==> c in a || c in b;
  }

  /** The variables of a compiled term. */
  lemma {:induction false} CompileVars(t: Term, x: Operand, isReal: bool, cfg: Config, cnt: nat)
    ensures var (es, c) := Compile(t, x, isReal, cfg, cnt); Within(es, x, cnt, c, Names(t))
    decreases t
  {
    match t
    case Invalid =>
    case Literal(l) => LiteralVars(x, l, cfg, cnt);
    case Resource(u) => SimpleVars(t, x, isReal, cfg, cnt);
    case ResourceType(ts) => SimpleVars(t, x, isReal, cfg, cnt);
    case And(subs) =>
      CompileAllVars(subs, x, HasRealPattern(subs), cfg, cnt);
      PVarsSingle(Compile(t, x, isReal, cfg, cnt).0[0]);
    case Or(subs) =>
      CompileBranchesVars(subs, x, cfg, cnt);
      PVarsSingle(Compile(t, x, isReal, cfg, cnt).0[0]);
    case Negation(s) =>
      CompileVars(s, x, false, cfg, if isReal then cnt else cnt + 1);
      CompileVars(s, x, isReal, cfg, cnt);
      NegationVars(s, x, isReal, cfg, cnt);
    case Optional(s) =>
      CompileVars(s, x, false, cfg, cnt);
      PVarsSingle(Compile(t, x, isReal, cfg, cnt).0[0]);
    case Comparison(s, p, cmp, name, aggregate, _, _, inverted) =>
      ComparisonVars(t, x, isReal, cfg, cnt);
  }

  lemma SimpleVars(t: Term, x: Operand, isReal: bool, cfg: Config, cnt: nat)
    requires t.Resource? || t.ResourceType?
    ensures var (es, c) := Compile(t, x, isReal, cfg, cnt); Within(es, x, cnt, c, {})
  {
    var (es, c) := Compile(t, x, isReal, cfg, cnt);
    EachWithin(es, x, cnt, c, {});
  }

  lemma NegationVars(s: Term, x: Operand, isReal: bool, cfg: Config, cnt: nat)
    requires var c0 := if isReal then cnt else cnt + 1;
             var (inner, c) := Compile(s, x, false, cfg, c0); Within(inner, x, c0, c, Names(s))
    requires var (inner, c) := Compile(s, x, isReal, cfg, cnt); Within(inner, x, cnt, c, Names(s))
    ensures var (es, c) := Compile(Negation(s), x, isReal, cfg, cnt); Within(es, x, cnt, c, Names(s))
  {
    if IsRegexp(s) {
      NegateFirstFilterVars(Compile(s, x, isReal, cfg, cnt).0);
    } else {
      var c0 := if isReal then cnt else cnt + 1;
      var (inner, c) := Compile(s, x, false, cfg, c0);
      NotExistsVars(inner, x, cnt, c0, c, Names(s));
    }
  }

  lemma NotExistsVars(inner: Pattern, x: Operand, cnt: nat, c0: nat, c: nat, names: set<string>)
    requires Within(inner, x, c0, c, names) && cnt <= c0 <= c
    ensures Within([FilterNotExists(inner)], x, cnt, c, names)
    ensures cnt < c0 ==> Within([TypePattern(x, V(Fresh(cnt + 1))), FilterNotExists(inner)], x, cnt, c, names)
  {
    PVarsSingle(FilterNotExists(inner));
    PVarsPair(TypePattern(x, V(Fresh(cnt + 1))), FilterNotExists(inner));
  }

  lemma ComparisonVars(t: Term, x: Operand, isReal: bool, cfg: Config, cnt: nat)
    requires t.Comparison?
    ensures var (es, c) := Compile(t, x, isReal, cfg, cnt); Within(es, x, cnt, c, Names(t))
    decreases t, 0
  {
    var s, p := t.subTerm, t.property;
    var (es, c) := Compile(t, x, isReal, cfg, cnt);
    if !IsValid(s) {
      PVarsSingle(es[0]);
    } else if (p.Some? && p.value in cfg.literalRange) || t.comparator == Regexp {
      ValueVars(x, t, cfg, cnt);
    } else if s.Literal? {
      LabelVars(x, t, cfg, cnt);
    } else if s.Resource? {
      PVarsSingle(es[0]);
    } else {
      var (prop, c1) := PropertyOperand(p, cnt);
      var (v, c2) := MainVariable(t.variableName, t.aggregate, c1);
      var (inner, c3) := Compile(s, V(v), false, cfg, c2);
      CompileVars(s, V(v), false, cfg, c2);
      PropertyIsMine(t, cnt);
      MainVariableIsMine(t, c1);
      LinkVars(t.inverted, x, prop, v, inner, cnt, c1, c2, c3, OwnName(t), Names(s));
    }
  }

  /** A link to a new variable and the pattern about that variable. */
  lemma LinkVars(inverted: bool, x: Operand, prop: Operand, v: Var, inner: Pattern, cnt: nat, c1: nat, c2: nat, c3: nat,
                 own: set<string>, names: set<string>)
    requires cnt <= c1 <= c2 <= c3 && (prop.V? ==> Mine(prop.v, cnt, c1, own)) && Mine(v, c1, c2, own)
    requires Within(inner, V(v), c2, c3, names)
    ensures Within([LinkPattern(inverted, x, prop, V(v))] + inner, x, cnt, c3, own + names)
  {
    PVarsCons(LinkPattern(inverted, x, prop, V(v)), inner);
  }

  lemma {:induction false} CompileAllVars(ts: seq<Term>, x: Operand, isReal: bool, cfg: Config, cnt: nat)
    ensures var (es, c) := CompileAll(ts, x, isReal, cfg, cnt); Within(es, x, cnt, c, AllNames(ts))
    decreases ts
  {
    if ts != [] {
      var (es, c) := Compile(ts[0], x, isReal, cfg, cnt);
      var (rest, c') := CompileAll(ts[1..], x, isReal, cfg, c);
      CompileVars(ts[0], x, isReal, cfg, cnt);
      CompileAllVars(ts[1..], x, isReal, cfg, c);
      PVarsConcat(es, rest);
    }
  }

  lemma {:induction false} CompileBranchesVars(ts: seq<Term>, x: Operand, cfg: Config, cnt: nat)
    ensures var (es, c) := CompileBranches(ts, x, cfg, cnt); Within(es, x, cnt, c, AllNames(ts))
    decreases ts
  {
    if ts != [] {
      var (es, c) := Compile(ts[0], x, false, cfg, cnt);
      var (rest, c') := CompileBranches(ts[1..], x, cfg, c);
      CompileVars(ts[0], x, false, cfg, cnt);
      CompileBranchesVars(ts[1..], x, cfg, c);
      PVarsCons(Group(es), rest);
    }
  }
}
