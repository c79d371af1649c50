/** Compiler correctness: the nodes that the compiled pattern binds its variable to are exactly the
    resources that the term matches. */
module CompilerProof {
  import opened Terms
  import opened Denotation
  import opened Sparql
  import opened SparqlAlgebra
  import opened Compiler
  import opened CompilerVars
  import opened CompilerSubst
  import opened CompilerSat
  import Counting

  // ----- what is asked of the term -----

  function ComparedAsValue(t: Term, literalRange: set<Uri>): bool
    requires t.Comparison?
  {
    (t.property.Some? && t.property.value in literalRange) || t.comparator == Regexp
  }

  /** The terms the compiler is meant for: groups are not empty, an operand is valid as a whole or
      says nothing at all, values are compared with literals, related resources with literals only
      for equality or containment (comparisonterm.cpp:113-140), only a known property is inverted, a
      regular expression that is negated has an operand, and no variable name is used twice in one
      conjunction. */
  predicate Compilable(t: Term, literalRange: set<Uri>)
    decreases t
  {
    match t
    case Invalid => false
    case Literal(l) => LiteralText(l) != ""
    case Resource(u) => true
    case ResourceType(ts) => true
    case And(subs) =>
      subs != [] && NamesApart(subs) && forall s | s in subs :: Compilable(s, literalRange)
    case Or(subs) => subs != [] && forall s | s in subs :: Compilable(s, literalRange)
    case Negation(s) => Compilable(s, literalRange) && (IsRegexp(s) ==> IsValid(s.subTerm))
    case Optional(s) => false
    case Comparison(s, p, c, _, _, _, _, inverted) =>
      && IsValid(s) == Says(s)
      && (if !IsValid(s) then inverted ==> p.Some?
          else if ComparedAsValue(t, literalRange) then s.Literal?
          else if s.Literal? then c == Equal || c == Contains
          else (inverted ==> p.Some?) && (s.Resource? || (Compilable(s, literalRange) && OwnName(t) !! Names(s))))
  }

  predicate NamesApart(subs: seq<Term>) {
    forall i, j | 0 <= i < j < |subs| :: Names(subs[i]) !! Names(subs[j])
  }

  // ----- what is asked of the store -----

  /** The assumption stated at negationterm.cpp:51-53: each resource has a type. */
  ghost predicate SubjectsTyped(w: World) {
    forall t | t in w.store :: Typed(w, t.s)
  }

  ghost predicate ObjectsTyped(w: World, p: Option<Uri>) {
    forall t | t in w.store && PropertyFits(p, t.p) :: Typed(w, t.o)
  }

  /** The comparison is compiled to a link to another node, in the given direction. */
  predicate FollowsLink(t: Term, literalRange: set<Uri>)
    requires t.Comparison?
  {
    !Says(t.subTerm) || (!ComparedAsValue(t, literalRange) && !t.subTerm.Literal?)
  }

  /** A property that is followed backwards leads to typed resources. */
  ghost predicate Fits(t: Term, w: World)
    decreases t
  {
    match t
    case And(subs) => forall s | s in subs :: Fits(s, w)
    case Or(subs) => forall s | s in subs :: Fits(s, w)
    case Negation(s) => Fits(s, w)
    case Optional(s) => Fits(s, w)
    case Comparison(s, p, _, _, _, _, _, inverted) =>
      Fits(s, w) && (inverted && FollowsLink(t, w.literalRange) ==> ObjectsTyped(w, p))
    case _ => true
  }

  ghost predicate WorldFits(w: World, t: Term, cfg: Config) {
    cfg.literalRange == w.literalRange && SubjectsTyped(w) && Fits(t, w)
  }

  // ----- what a compiled term finds -----

  /** Some value of the property does not match the regular expression, which is what a `!` in front
      of the filter asks for (negationterm.cpp:34-39). */
  ghost predicate SomeValueFails(w: World, s: Term, r: Node)
    requires s.Comparison?
  {
    s.subTerm.Literal? && exists n :: Linked(w, r, s.property, n) && !w.engine.regexText(LiteralText(s.subTerm.value), n)
  }

  /** Which resources the pattern of a term finds. That is what the term matches, but for regular
      expressions that are negated in place. */
  ghost predicate Found(t: Term, w: World, r: Node)
    decreases t
  {
    match t
    case And(subs) => forall s | s in subs && Says(s) :: Found(s, w, r)
    case Or(subs) => exists s | s in subs :: Says(s) && Found(s, w, r)
    case Negation(s) => if IsRegexp(s) then SomeValueFails(w, s, r) else !Found(s, w, r)
    case Comparison(s, p, c, _, _, _, _, inv) =>
      if IsNested(t, w) then exists v :: Typed(w, v) && LinkedEitherWay(w, inv, r, p, v) && Found(s, w, v)
      else Matches(t, w, r)
    case _ => Matches(t, w, r)
  }

  /** The operand of the comparison is a term about the related resource. */
  predicate IsNested(t: Term, w: World)
    requires t.Comparison?
  {
    Says(t.subTerm) && FollowsLink(t, w.literalRange) && !t.subTerm.Resource?
  }

  /** The resource has exactly one value of the property. */
  ghost predicate OneValue(w: World, r: Node, p: Option<Uri>) {
    exists v :: Linked(w, r, p, v) && forall u | Linked(w, r, p, u) :: u == v
  }

  ghost predicate IsSingle(s: Term, w: World, r: Node)
    requires s.Comparison?
  {
    s.subTerm.Literal? && IsValid(s.subTerm) && OneValue(w, r, s.property)
  }

  /** Every regular expression that is negated in place is about a property with one value of the
      resource it is asked of. */
  ghost predicate SingleAt(t: Term, w: World, r: Node)
    decreases t
  {
    match t
    case And(subs) => forall s | s in subs && Says(s) :: SingleAt(s, w, r)
    case Or(subs) => forall s | s in subs && Says(s) :: SingleAt(s, w, r)
    case Negation(s) =>
      SingleAt(s, w, r) && (IsRegexp(s) ==> IsSingle(s, w, r))
    case Comparison(s, p, _, _, _, _, _, inv) =>
      IsNested(t, w) ==> forall v | Typed(w, v) && LinkedEitherWay(w, inv, r, p, v) :: SingleAt(s, w, v)
    case _ => true
  }

  /** There the pattern finds a resource exactly if the term matches it. */
  lemma {:induction false} FoundIsMatched(t: Term, w: World, r: Node)
    requires SingleAt(t, w, r)
    ensures Found(t, w, r) <==> Matches(t, w, r)
    decreases t
  {
    match t
    case And(subs) => forall s | s in subs && Says(s) ensures Found(s, w, r) <==> Matches(s, w, r) { FoundIsMatched(s, w, r); }
    case Or(subs) => forall s | s in subs && Says(s) ensures Found(s, w, r) <==> Matches(s, w, r) { FoundIsMatched(s, w, r); }
    case Negation(s) =>
      if IsRegexp(s) { OneValueNegates(w, s, r); } else { FoundIsMatched(s, w, r); }
    case Comparison(s, p, _, _, _, _, _, inv) =>
      if IsNested(t, w) {
        forall v | Typed(w, v) && LinkedEitherWay(w, inv, r, p, v) ensures Found(s, w, v) <==> Matches(s, w, v) {
          FoundIsMatched(s, w, v);
        }
      }
    case _ =>
  }

  lemma OneValueNegates(w: World, s: Term, r: Node)
    requires IsRegexp(s) && s.subTerm.Literal? && IsValid(s.subTerm) && OneValue(w, r, s.property)
    ensures SomeValueFails(w, s, r) <==> !Matches(s, w, r)
  {
    var v :| Linked(w, r, s.property, v) && forall u | Linked(w, r, s.property, u) :: u == v;
    assert Matches(s, w, r) <==> HasValue(w, r, s.property, Regexp, s.subTerm.value);
  }

  // ----- the induction hypothesis -----

  /** A term that leaves it to its siblings in an And term to bind the node. */
  predicate LeansOnParent(t: Term, isReal: bool) {
    isReal && (t.Resource? || (t.Negation? && !IsRegexp(t.subTerm)))
  }

  /** Can be a group on its own: binds the node, and only to typed ones. */
  ghost predicate Standalone(w: World, es: Pattern, x: Operand) {
    NoOptional(es) && Binds(w, es, x) && forall r | Sat(w, es, x, r) :: Typed(w, r)
  }

  ghost predicate Correct(w: World, t: Term, es: Pattern, x: Operand, leans: bool) {
    && NoOptional(es)
    && (forall r | Typed(w, r) :: Sat(w, es, x, r) <==> OperandFits(x, r) && Found(t, w, r))
    && (!leans ==> Standalone(w, es, x))
  }

  // ----- comparisons -----

  lemma LinkedIsLink(w: World, inverted: bool, x: Operand, p: Option<Uri>, cnt: nat, r: Node, n: Node)
    ensures (exists q :: IsLink(w, inverted, x, PropertyOperand(p, cnt).0, r, q, n))
       <==> OperandFits(x, r) && LinkedEitherWay(w, inverted, r, p, n)
  {
    var prop := PropertyOperand(p, cnt).0;
    forall q ensures OperandFits(prop, q) <==> PropertyFits(p, q) {
    }
    if OperandFits(x, r) && LinkedEitherWay(w, inverted, r, p, n) {
      var q :| PropertyFits(p, q) && (if inverted then Triple(n, q, r) else Triple(r, q, n)) in w.store;
      assert IsLink(w, inverted, x, prop, r, q, n);
    }
    if q :| IsLink(w, inverted, x, prop, r, q, n) {
      assert PropertyFits(p, q);
    }
  }

  /** Either end of a link that a comparison follows is typed. */
  lemma LinkTypes(w: World, inverted: bool, x: Operand, p: Option<Uri>, cnt: nat, r: Node, q: Node, n: Node)
    requires SubjectsTyped(w) && (inverted ==> p.Some? && ObjectsTyped(w, p))
    requires IsLink(w, inverted, x, PropertyOperand(p, cnt).0, r, q, n)
    ensures Typed(w, r)
  {
  }

  /** A link to a new variable followed by a pattern about that variable. */
  lemma ChainCorrect(w: World, inverted: bool, x: Operand, p: Option<Uri>, c0: nat, v: Var, rest: Pattern)
    requires SubjectsTyped(w) && (inverted ==> p.Some? && ObjectsTyped(w, p))
    requires var prop := PropertyOperand(p, c0).0;
             V(v) != x && prop != V(v) && (prop.V? ==> prop != x) && PVars(rest) !! (OperandVars(x) + OperandVars(prop))
    requires NoOptional(rest)
    ensures var es := [LinkPattern(inverted, x, PropertyOperand(p, c0).0, V(v))] + rest;
            && Standalone(w, es, x)
            && forall r :: Sat(w, es, x, r)
                 <==> OperandFits(x, r) && exists n :: LinkedEitherWay(w, inverted, r, p, n) && Sat(w, rest, V(v), n)
  {
    var prop := PropertyOperand(p, c0).0;
    var es := [LinkPattern(inverted, x, prop, V(v))] + rest;
    BindsLink(w, inverted, x, prop, V(v), rest);
    forall r
      ensures Sat(w, es, x, r) ==> Typed(w, r)
      ensures Sat(w, es, x, r)
         <==> OperandFits(x, r) && exists n :: LinkedEitherWay(w, inverted, r, p, n) && Sat(w, rest, V(v), n)
    {
      ChainAt(w, inverted, x, p, c0, v, rest, r);
    }
  }

  lemma ChainAt(w: World, inverted: bool, x: Operand, p: Option<Uri>, c0: nat, v: Var, rest: Pattern, r: Node)
    requires SubjectsTyped(w) && (inverted ==> p.Some? && ObjectsTyped(w, p))
    requires var prop := PropertyOperand(p, c0).0;
             V(v) != x && prop != V(v) && (prop.V? ==> prop != x) && PVars(rest) !! (OperandVars(x) + OperandVars(prop))
    requires NoOptional(rest)
    ensures var es := [LinkPattern(inverted, x, PropertyOperand(p, c0).0, V(v))] + rest;
            && (Sat(w, es, x, r) ==> Typed(w, r))
            && Sat(w, es, x, r) ==
                 (OperandFits(x, r) && exists n :: LinkedEitherWay(w, inverted, r, p, n) && Sat(w, rest, V(v), n))
  {
    var prop := PropertyOperand(p, c0).0;
    SatChain(w, inverted, x, prop, v, rest, r);
    if q, n :| IsLink(w, inverted, x, prop, r, q, n) && Sat(w, rest, V(v), n) {
      LinkedIsLink(w, inverted, x, p, c0, r, n);
      LinkTypes(w, inverted, x, p, c0, r, q, n);
    }
    if n :| OperandFits(x, r) && LinkedEitherWay(w, inverted, r, p, n) && Sat(w, rest, V(v), n) {
      LinkedIsLink(w, inverted, x, p, c0, r, n);
    }
  }

  /** A link to a fixed node. */
  lemma LinkCorrect(w: World, inverted: bool, x: Operand, p: Option<Uri>, c0: nat, n: Node)
    requires SubjectsTyped(w) && (inverted ==> p.Some? && ObjectsTyped(w, p))
    requires PropertyOperand(p, c0).0.V? ==> PropertyOperand(p, c0).0 != x
    ensures var es := [LinkPattern(inverted, x, PropertyOperand(p, c0).0, N(n))];
            && Standalone(w, es, x)
            && forall r :: Sat(w, es, x, r) <==> OperandFits(x, r) && LinkedEitherWay(w, inverted, r, p, n)
  {
    var prop := PropertyOperand(p, c0).0;
    var es := [LinkPattern(inverted, x, prop, N(n))];
    BindsLinkAlone(w, inverted, x, prop, N(n));
    forall r
      ensures Sat(w, es, x, r) ==> Typed(w, r)
      ensures Sat(w, es, x, r) <==> OperandFits(x, r) && LinkedEitherWay(w, inverted, r, p, n)
    {
      SatLinkToNode(w, inverted, x, prop, n, r);
      LinkedIsLink(w, inverted, x, p, c0, r, n);
      if q :| IsLink(w, inverted, x, prop, r, q, n) {
        LinkTypes(w, inverted, x, p, c0, r, q, n);
      }
    }
  }

  lemma LinkedObject(w: World, r: Node, p: Option<Uri>, n: Node)
    requires Linked(w, r, p, n)
    ensures IsObject(w, n)
  {
  }

  lemma TestsNoOptional(v: Operand, c: Comparator, literal: LiteralValue, scoring: bool, cnt: nat)
    ensures NoOptional(TestPattern(v, c, literal, scoring, cnt).0)
  {
  }

  /** A value of a property is tested; the property's variable may be drawn after the tests. */
  lemma TestedCorrect(w: World, x: Operand, p: Option<Uri>, c0: nat, v: Var, c: Comparator, literal: LiteralValue,
                      scoring: bool, c1: nat)
    requires SubjectsTyped(w) && c != Equal
    requires var prop := PropertyOperand(p, c0).0;
             V(v) != x && prop != V(v) && (prop.V? ==> prop != x) && v != Fresh(c1 + 1)
             && PVars(TestPattern(V(v), c, literal, scoring, c1).0) !! (OperandVars(x) + OperandVars(prop))
    ensures var es := [TriplePattern(x, PropertyOperand(p, c0).0, V(v))] + TestPattern(V(v), c, literal, scoring, c1).0;
            && Standalone(w, es, x)
            && forall r :: Sat(w, es, x, r)
                 <==> OperandFits(x, r) && HasValue(w, r, p, c, literal)
  {
    var tests := TestPattern(V(v), c, literal, scoring, c1).0;
    TestsNoOptional(V(v), c, literal, scoring, c1);
    ChainCorrect(w, false, x, p, c0, v, tests);
    forall r, n | Linked(w, r, p, n) ensures Sat(w, tests, V(v), n) <==> ValueMatches(w, c, literal, n) {
      LinkedObject(w, r, p, n);
      SatTests(w, v, c, literal, scoring, c1, n);
    }
  }

  lemma ValueCorrect(w: World, t: Term, x: Operand, cfg: Config, cnt: nat)
    requires t.Comparison? && t.subTerm.Literal? && IsValid(t.subTerm) && ComparedAsValue(t, w.literalRange)
    requires SubjectsTyped(w) && Outside(x, cnt, OwnName(t))
    ensures Correct(w, t, CompileValue(x, t, cfg, cnt).0, x, false)
  {
    var literal := t.subTerm.value;
    if t.comparator == Equal {
      LinkCorrect(w, false, x, t.property, cnt, LitNode(literal));
    } else {
      var main := MainVariable(t.variableName, t.aggregate, cnt);
      var tests := TestPattern(V(main.0), t.comparator, literal, cfg.scoring, main.1);
      TestVars(V(main.0), t.comparator, literal, cfg.scoring, main.1);
      TestedCorrect(w, x, t.property, tests.1, main.0, t.comparator, literal, cfg.scoring, main.1);
      ValueShape(x, t, cfg, cnt);
    }
  }

  lemma LabelCorrect(w: World, t: Term, x: Operand, cfg: Config, cnt: nat)
    requires t.Comparison? && t.subTerm.Literal? && IsValid(t.subTerm) && !ComparedAsValue(t, w.literalRange)
    requires t.comparator == Equal || t.comparator == Contains
    requires SubjectsTyped(w) && Outside(x, cnt, OwnName(t))
    ensures Correct(w, t, CompileLabel(x, t, cfg, cnt).0, x, false)
  {
    if t.comparator == Equal {
      LabelEqualCorrect(w, t, x, cfg, cnt);
    } else {
      LabelContainsCorrect(w, t, x, cfg, cnt);
    }
  }

  lemma LabelEqualCorrect(w: World, t: Term, x: Operand, cfg: Config, cnt: nat)
    requires t.Comparison? && t.subTerm.Literal? && IsValid(t.subTerm) && !ComparedAsValue(t, w.literalRange)
    requires t.comparator == Equal && SubjectsTyped(w) && Outside(x, cnt, OwnName(t))
    ensures Correct(w, t, CompileLabel(x, t, cfg, cnt).0, x, false)
  {
    var prop := PropertyOperand(t.property, cnt);
    var main := MainVariable(t.variableName, t.aggregate, prop.1);
    var rest := [TriplePattern(V(main.0), V(Fresh(main.1 + 1)), N(LitNode(t.subTerm.value)))];
    LabelEqualSat(w, main.0, main.1, t.subTerm.value);
    PVarsSingle(rest[0]);
    RelatedValueCorrect(w, t, x, cnt, main.0, rest);
    assert CompileLabel(x, t, cfg, cnt).0 == [TriplePattern(x, prop.0, V(main.0))] + rest;
  }

  lemma LabelContainsCorrect(w: World, t: Term, x: Operand, cfg: Config, cnt: nat)
    requires t.Comparison? && t.subTerm.Literal? && IsValid(t.subTerm) && !ComparedAsValue(t, w.literalRange)
    requires t.comparator == Contains && SubjectsTyped(w) && Outside(x, cnt, OwnName(t))
    ensures Correct(w, t, CompileLabel(x, t, cfg, cnt).0, x, false)
  {
    var main := MainVariable(t.variableName, t.aggregate, PropertyOperand(t.property, cnt).1);
    var rest := LabelContainsRest(w, t, x, cfg, cnt, main.0);
    RelatedValueCorrect(w, t, x, cnt, main.0, rest);
  }

  /** What follows the link, and that it fits behind it. */
  lemma LabelContainsRest(w: World, t: Term, x: Operand, cfg: Config, cnt: nat, v: Var) returns (rest: Pattern)
    requires t.Comparison? && t.subTerm.Literal? && t.comparator == Contains
    requires SubjectsTyped(w) && Outside(x, cnt, OwnName(t))
    requires v == MainVariable(t.variableName, t.aggregate, PropertyOperand(t.property, cnt).1).0
    ensures var prop := PropertyOperand(t.property, cnt).0;
            && CompileLabel(x, t, cfg, cnt).0 == [TriplePattern(x, prop, V(v))] + rest
            && V(v) != x && prop != V(v) && (prop.V? ==> prop != x) && PVars(rest) !! (OperandVars(x) + OperandVars(prop))
    ensures NoOptional(rest) && forall n :: Sat(w, rest, V(v), n) <==> HasValue(w, n, None, Contains, t.subTerm.value)
  {
    var main := MainVariable(t.variableName, t.aggregate, PropertyOperand(t.property, cnt).1);
    rest := LabelContainsSat(w, v, main.1, t.subTerm.value, cfg.scoring);
    RestIsApart(t, x, cnt, rest, TestPattern(V(Fresh(main.1 + 2)), Contains, t.subTerm.value, cfg.scoring, main.1 + 2).1);
    LabelContainsText(x, t, cfg, cnt);
  }

  lemma RestIsApart(t: Term, x: Operand, cnt: nat, rest: Pattern, hi: nat)
    requires t.Comparison? && Outside(x, cnt, OwnName(t))
    requires var main := MainVariable(t.variableName, t.aggregate, PropertyOperand(t.property, cnt).1);
             Within(rest, V(main.0), main.1, hi, {})
    ensures var prop := PropertyOperand(t.property, cnt);
            var v := MainVariable(t.variableName, t.aggregate, prop.1).0;
            && V(v) != x && prop.0 != V(v) && (prop.0.V? ==> prop.0 != x)
            && PVars(rest) !! (OperandVars(x) + OperandVars(prop.0))
  {
  }

  lemma LabelContainsText(x: Operand, t: Term, cfg: Config, cnt: nat)
    requires t.Comparison? && t.subTerm.Literal? && t.comparator == Contains
    ensures var prop := PropertyOperand(t.property, cnt);
            var (v, c) := MainVariable(t.variableName, t.aggregate, prop.1);
            CompileLabel(x, t, cfg, cnt).0 ==
            [TriplePattern(x, prop.0, V(v))]
            + ([TriplePattern(V(v), V(Fresh(c + 1)), V(Fresh(c + 2)))]
               + TestPattern(V(Fresh(c + 2)), Contains, t.subTerm.value, cfg.scoring, c + 2).0)
  {
    var prop := PropertyOperand(t.property, cnt);
    LabelContainsShape(x, t, cfg, cnt, prop, MainVariable(t.variableName, t.aggregate, prop.1));
  }

  lemma LabelEqualSat(w: World, v: Var, c: nat, literal: LiteralValue)
    requires SubjectsTyped(w) && v != Fresh(c + 1)
    ensures forall n :: Sat(w, [TriplePattern(V(v), V(Fresh(c + 1)), N(LitNode(literal)))], V(v), n)
                        == HasValue(w, n, None, Equal, literal)
  {
    LinkCorrect(w, false, V(v), None, c, LitNode(literal));
    forall n ensures HasValue(w, n, None, Equal, literal) <==> LinkedEitherWay(w, false, n, None, LitNode(literal)) {
      assert ValueMatches(w, Equal, literal, LitNode(literal));
    }
  }

  lemma LabelContainsSat(w: World, v: Var, c: nat, literal: LiteralValue, scoring: bool) returns (rest: Pattern)
    requires SubjectsTyped(w) && Outside(V(v), c, {})
    ensures rest == [TriplePattern(V(v), V(Fresh(c + 1)), V(Fresh(c + 2)))]
                    + TestPattern(V(Fresh(c + 2)), Contains, literal, scoring, c + 2).0
    ensures NoOptional(rest) && Within(rest, V(v), c, TestPattern(V(Fresh(c + 2)), Contains, literal, scoring, c + 2).1, {})
    ensures forall n :: Sat(w, rest, V(v), n) <==> HasValue(w, n, None, Contains, literal)
  {
    var tests := TestPattern(V(Fresh(c + 2)), Contains, literal, scoring, c + 2);
    rest := [TriplePattern(V(v), V(Fresh(c + 1)), V(Fresh(c + 2)))] + tests.0;
    LabelWithin(v, c, literal, scoring);
    TestVars(V(Fresh(c + 2)), Contains, literal, scoring, c + 2);
    TestsNoOptional(V(Fresh(c + 2)), Contains, literal, scoring, c + 2);
    TestedCorrect(w, V(v), None, c, Fresh(c + 2), Contains, literal, scoring, c + 2);
    assert NoOptional([TriplePattern(V(v), V(Fresh(c + 1)), V(Fresh(c + 2)))]);
    forall n ensures Sat(w, rest, V(v), n) <==> HasValue(w, n, None, Contains, literal) {
      assert OperandFits(V(v), n);
    }
  }

  lemma LabelWithin(v: Var, c: nat, literal: LiteralValue, scoring: bool)
    ensures var tests := TestPattern(V(Fresh(c + 2)), Contains, literal, scoring, c + 2);
            Within([TriplePattern(V(v), V(Fresh(c + 1)), V(Fresh(c + 2)))] + tests.0, V(v), c, tests.1, {})
  {
    var tests := TestPattern(V(Fresh(c + 2)), Contains, literal, scoring, c + 2);
    var head := TriplePattern(V(v), V(Fresh(c + 1)), V(Fresh(c + 2)));
    EachWithin([head], V(v), c, tests.1, {});
    TestedVars([head], Fresh(c + 2), Contains, literal, scoring, c + 2, V(v), c, tests.1, {});
  }

  /** A link to a related resource, one of whose values is tested by `rest`. */
  lemma RelatedValueCorrect(w: World, t: Term, x: Operand, cnt: nat, v: Var, rest: Pattern)
    requires t.Comparison? && t.subTerm.Literal? && IsValid(t.subTerm) && !ComparedAsValue(t, w.literalRange)
    requires SubjectsTyped(w) && NoOptional(rest)
    requires var prop := PropertyOperand(t.property, cnt).0;
             V(v) != x && prop != V(v) && (prop.V? ==> prop != x) && PVars(rest) !! (OperandVars(x) + OperandVars(prop))
    requires forall n :: Sat(w, rest, V(v), n) <==> HasValue(w, n, None, t.comparator, t.subTerm.value)
    ensures Correct(w, t, [TriplePattern(x, PropertyOperand(t.property, cnt).0, V(v))] + rest, x, false)
  {
    ChainCorrect(w, false, x, t.property, cnt, v, rest);
    assert forall r, n :: LinkedEitherWay(w, false, r, t.property, n) == Linked(w, r, t.property, n);
  }

  lemma NestedCorrect(w: World, t: Term, x: Operand, cfg: Config, cnt: nat, prop: (Operand, nat), main: (Var, nat))
    requires t.Comparison? && IsValid(t.subTerm) && !ComparedAsValue(t, w.literalRange)
    requires !t.subTerm.Literal? && !t.subTerm.Resource?
    requires SubjectsTyped(w) && (t.inverted ==> t.property.Some? && ObjectsTyped(w, t.property))
    requires Outside(x, cnt, Names(t)) && OwnName(t) !! Names(t.subTerm)
    requires prop == PropertyOperand(t.property, cnt) && main == MainVariable(t.variableName, t.aggregate, prop.1)
    requires Correct(w, t.subTerm, Compile(t.subTerm, V(main.0), false, cfg, main.1).0, V(main.0), false)
    ensures Correct(w, t, [LinkPattern(t.inverted, x, prop.0, V(main.0))] + Compile(t.subTerm, V(main.0), false, cfg, main.1).0,
                    x, false)
  {
    var inner := Compile(t.subTerm, V(main.0), false, cfg, main.1);
    CompileVars(t.subTerm, V(main.0), false, cfg, main.1);
    ChainCorrect(w, t.inverted, x, t.property, cnt, main.0, inner.0);
    ValidSays(t.subTerm);
  }

  lemma WildcardCorrect(w: World, t: Term, x: Operand, cnt: nat)
    requires t.Comparison? && !Says(t.subTerm)
    requires SubjectsTyped(w) && (t.inverted ==> t.property.Some? && ObjectsTyped(w, t.property))
    requires Outside(x, cnt, OwnName(t))
    ensures var prop := PropertyOperand(t.property, cnt);
            var main := MainVariable(t.variableName, t.aggregate, prop.1);
            Correct(w, t, [LinkPattern(t.inverted, x, prop.0, V(main.0))], x, false)
  {
    var prop := PropertyOperand(t.property, cnt);
    var main := MainVariable(t.variableName, t.aggregate, prop.1);
    ChainCorrect(w, t.inverted, x, t.property, cnt, main.0, []);
    forall n ensures Sat(w, [], V(main.0), n) { SatEmpty(w, V(main.0), n); }
    assert [LinkPattern(t.inverted, x, prop.0, V(main.0))] + [] == [LinkPattern(t.inverted, x, prop.0, V(main.0))];
  }

  // ----- types and resources -----

  lemma TypedIsLinked(w: World, r: Node)
    ensures Typed(w, r) <==> exists n :: LinkedEitherWay(w, false, r, Some(RDF_TYPE.uri), n)
  {
    if Typed(w, r) {
      var ty :| Triple(r, RDF_TYPE, ty) in w.store;
      assert PropertyFits(Some(RDF_TYPE.uri), RDF_TYPE);
      assert LinkedEitherWay(w, false, r, Some(RDF_TYPE.uri), ty);
    }
    if n :| LinkedEitherWay(w, false, r, Some(RDF_TYPE.uri), n) {
      var q :| PropertyFits(Some(RDF_TYPE.uri), q) && Triple(r, q, n) in w.store;
      assert q == RDF_TYPE;
    }
  }

  lemma TypePatternSat(w: World, x: Operand, v: Var)
    requires SubjectsTyped(w) && V(v) != x
    ensures Standalone(w, [TypePattern(x, V(v))], x)
    ensures forall r :: Sat(w, [TypePattern(x, V(v))], x, r) <==> OperandFits(x, r) && Typed(w, r)
  {
    var p := Some(RDF_TYPE.uri);
    ChainCorrect(w, false, x, p, 0, v, []);
    assert [TypePattern(x, V(v))] + [] == [TypePattern(x, V(v))];
    forall r ensures Sat(w, [TypePattern(x, V(v))], x, r) <==> OperandFits(x, r) && Typed(w, r) {
      TypedIsLinked(w, r);
      forall n ensures Sat(w, [], V(v), n) { SatEmpty(w, V(v), n); }
    }
  }

  /** A type pattern in front of conditions on the same node. */
  lemma TypeFirst(w: World, x: Operand, v: Var, rest: Pattern)
    requires SubjectsTyped(w) && V(v) != x && NoOptional(rest) && v !in PVars(rest)
    ensures var es := [TypePattern(x, V(v))] + rest;
            && Standalone(w, es, x)
            && forall r :: Sat(w, es, x, r) <==> Typed(w, r) && OperandFits(x, r) && Sat(w, rest, x, r)
  {
    TypePatternSat(w, x, v);
    BindsLink(w, false, x, N(RDF_TYPE), V(v), rest);
    PVarsSingle(TypePattern(x, V(v)));
    forall r ensures Sat(w, [TypePattern(x, V(v))] + rest, x, r)
      <==> Typed(w, r) && OperandFits(x, r) && Sat(w, rest, x, r)
    {
      SatConcat(w, [TypePattern(x, V(v))], rest, x, r);
    }
  }

  lemma ResourceCorrect(w: World, u: Uri, x: Operand, isReal: bool, cfg: Config, cnt: nat)
    requires SubjectsTyped(w) && Outside(x, cnt, {})
    ensures Correct(w, Resource(u), Compile(Resource(u), x, isReal, cfg, cnt).0, x, isReal)
  {
    var test := SingleTest(x, SameNode(UriNode(u)));
    forall r ensures Sat(w, [test], x, r) <==> OperandFits(x, r) && r == UriNode(u) {
      SatSingleTest(w, x, SameNode(UriNode(u)), r);
    }
    if !isReal {
      PVarsSingle(test);
      TypeFirst(w, x, Fresh(cnt + 1), [test]);
      assert [TypePattern(x, V(Fresh(cnt + 1))), test] == [TypePattern(x, V(Fresh(cnt + 1)))] + [test];
    }
  }

  lemma TypeTermCorrect(w: World, ts: set<Uri>, x: Operand, isReal: bool, cfg: Config, cnt: nat)
    requires SubjectsTyped(w) && Outside(x, cnt, {})
    ensures Correct(w, ResourceType(ts), Compile(ResourceType(ts), x, isReal, cfg, cnt).0, x, false)
  {
    var p := Some(RDF_TYPE.uri);
    forall r, n ensures Linked(w, r, p, n) <==> Triple(r, RDF_TYPE, n) in w.store {
      if Triple(r, RDF_TYPE, n) in w.store { assert PropertyFits(p, RDF_TYPE); }
    }
    if |ts| == 1 {
      LinkCorrect(w, false, x, p, cnt, UriNode(OnlyType(ts)));
      Counting.OnlyMember(ts, OnlyType(ts));
    } else {
      var v := Fresh(cnt + 1);
      var test := SingleTest(V(v), InTypes(ts));
      forall n ensures Sat(w, [test], V(v), n) <==> n.UriNode? && n.uri in ts { SatSingleTest(w, V(v), InTypes(ts), n); }
      PVarsSingle(test);
      ChainCorrect(w, false, x, p, cnt, v, [test]);
      assert [TypePattern(x, V(v)), test] == [TypePattern(x, V(v))] + [test];
    }
  }

  // ----- plain text -----

  lemma PlainCorrect(w: World, literal: LiteralValue, x: Operand, cfg: Config, cnt: nat)
    requires SubjectsTyped(w) && Outside(x, cnt, {}) && LiteralText(literal) != ""
    ensures Correct(w, Literal(literal), CompileLiteral(x, literal, cfg, cnt).0, x, false)
  {
    var direct := DirectCorrect(w, literal, x, cfg, cnt);
    var related := RelatedCorrect(w, literal, x, cfg, cnt);
    UnionOfTwo(w, direct, related, x);
    assert CompileLiteral(x, literal, cfg, cnt).0 == [Union([Group(direct), Group(related)])];
  }

  /** The first branch of a plain text search: a value of the resource itself. */
  lemma DirectCorrect(w: World, literal: LiteralValue, x: Operand, cfg: Config, cnt: nat) returns (es: Pattern)
    requires SubjectsTyped(w) && Outside(x, cnt, {})
    ensures es == [TriplePattern(x, V(Fresh(cnt + 1)), V(Fresh(cnt + 2)))]
                  + TestPattern(V(Fresh(cnt + 2)), Contains, literal, cfg.scoring, cnt + 3).0
    ensures Standalone(w, es, x)
    ensures forall r :: Sat(w, es, x, r) <==> OperandFits(x, r) && HasValue(w, r, None, Contains, literal)
  {
    var v1 := Fresh(cnt + 2);
    es := [TriplePattern(x, V(Fresh(cnt + 1)), V(v1))] + TestPattern(V(v1), Contains, literal, cfg.scoring, cnt + 3).0;
    TestVars(V(v1), Contains, literal, cfg.scoring, cnt + 3);
    TestedCorrect(w, x, None, cnt, v1, Contains, literal, cfg.scoring, cnt + 3);
  }

  /** The second branch of a plain text search: a value of a related resource. */
  lemma RelatedCorrect(w: World, literal: LiteralValue, x: Operand, cfg: Config, cnt: nat) returns (es: Pattern)
    requires SubjectsTyped(w) && Outside(x, cnt, {})
    ensures var tests := TestPattern(V(Fresh(cnt + 2)), Contains, literal, cfg.scoring, cnt + 3);
            es == [TriplePattern(x, V(Fresh(cnt + 1)), V(Fresh(cnt + 3))),
                   TriplePattern(V(Fresh(cnt + 3)), V(Fresh(tests.1 + 1)), V(Fresh(cnt + 2)))] + tests.0
    ensures Standalone(w, es, x)
    ensures forall r :: Sat(w, es, x, r)
                        == (OperandFits(x, r) && exists n :: Linked(w, r, None, n) && HasValue(w, n, None, Contains, literal))
  {
    var p1, v1, r2 := V(Fresh(cnt + 1)), Fresh(cnt + 2), Fresh(cnt + 3);
    var tests := TestPattern(V(v1), Contains, literal, cfg.scoring, cnt + 3);
    var rest := ValueOfRelated(w, literal, cfg, cnt);
    es := [TriplePattern(x, p1, V(r2))] + rest;
    assert es == [TriplePattern(x, p1, V(r2)), TriplePattern(V(r2), V(Fresh(tests.1 + 1)), V(v1))] + tests.0;
    ChainCorrect(w, false, x, None, cnt, r2, rest);
    assert forall r, n :: LinkedEitherWay(w, false, r, None, n) == Linked(w, r, None, n);
  }

  lemma ValueOfRelated(w: World, literal: LiteralValue, cfg: Config, cnt: nat) returns (rest: Pattern)
    requires SubjectsTyped(w)
    ensures var tests := TestPattern(V(Fresh(cnt + 2)), Contains, literal, cfg.scoring, cnt + 3);
            && rest == [TriplePattern(V(Fresh(cnt + 3)), V(Fresh(tests.1 + 1)), V(Fresh(cnt + 2)))] + tests.0
            && Within(rest, V(Fresh(cnt + 3)), cnt + 1, tests.1 + 1, {})
    ensures NoOptional(rest)
    ensures forall n :: Sat(w, rest, V(Fresh(cnt + 3)), n) == HasValue(w, n, None, Contains, literal)
  {
    var tests := TestPattern(V(Fresh(cnt + 2)), Contains, literal, cfg.scoring, cnt + 3);
    RelatedWithin(literal, cfg, cnt);
    RelatedSat(w, literal, cfg, cnt, tests);
    TestsNoOptional(V(Fresh(cnt + 2)), Contains, literal, cfg.scoring, cnt + 3);
    rest := [TriplePattern(V(Fresh(cnt + 3)), V(Fresh(tests.1 + 1)), V(Fresh(cnt + 2)))] + tests.0;
  }

  lemma RelatedSat(w: World, literal: LiteralValue, cfg: Config, cnt: nat, tests: (Pattern, nat))
    requires SubjectsTyped(w)
    requires tests == TestPattern(V(Fresh(cnt + 2)), Contains, literal, cfg.scoring, cnt + 3)
    ensures var rest := [TriplePattern(V(Fresh(cnt + 3)), V(Fresh(tests.1 + 1)), V(Fresh(cnt + 2)))] + tests.0;
            forall n :: Sat(w, rest, V(Fresh(cnt + 3)), n) == HasValue(w, n, None, Contains, literal)
  {
    TestVars(V(Fresh(cnt + 2)), Contains, literal, cfg.scoring, cnt + 3);
    assert PropertyOperand(None, tests.1).0 == V(Fresh(tests.1 + 1));
    assert PVars(tests.0) !! {Fresh(cnt + 3), Fresh(tests.1 + 1)};
    TestedCorrect(w, V(Fresh(cnt + 3)), None, tests.1, Fresh(cnt + 2), Contains, literal, cfg.scoring, cnt + 3);
    var rest := [TriplePattern(V(Fresh(cnt + 3)), V(Fresh(tests.1 + 1)), V(Fresh(cnt + 2)))] + tests.0;
    forall n ensures Sat(w, rest, V(Fresh(cnt + 3)), n) == HasValue(w, n, None, Contains, literal) {
      assert OperandFits(V(Fresh(cnt + 3)), n);
    }
  }

  lemma RelatedWithin(literal: LiteralValue, cfg: Config, cnt: nat)
    ensures var tests := TestPattern(V(Fresh(cnt + 2)), Contains, literal, cfg.scoring, cnt + 3);
            Within([TriplePattern(V(Fresh(cnt + 3)), V(Fresh(tests.1 + 1)), V(Fresh(cnt + 2)))] + tests.0,
                   V(Fresh(cnt + 3)), cnt + 1, tests.1 + 1, {})
  {
    var tests := TestPattern(V(Fresh(cnt + 2)), Contains, literal, cfg.scoring, cnt + 3);
    var head := TriplePattern(V(Fresh(cnt + 3)), V(Fresh(tests.1 + 1)), V(Fresh(cnt + 2)));
    EachWithin([head], V(Fresh(cnt + 3)), cnt + 1, tests.1 + 1, {});
    TestedVars([head], Fresh(cnt + 2), Contains, literal, cfg.scoring, cnt + 3, V(Fresh(cnt + 3)), cnt + 1, tests.1 + 1, {});
  }

  lemma UnionOfTwo(w: World, a: Pattern, b: Pattern, x: Operand)
    requires Standalone(w, a, x) && Standalone(w, b, x)
    ensures Standalone(w, [Union([Group(a), Group(b)])], x)
    ensures forall r :: Sat(w, [Union([Group(a), Group(b)])], x, r) <==> Sat(w, a, x, r) || Sat(w, b, x, r)
  {
    var branches := [Group(a), Group(b)];
    forall r ensures Sat(w, [Union(branches)], x, r) <==> Sat(w, a, x, r) || Sat(w, b, x, r) {
      SatUnion(w, branches, x, r);
      SatGroup(w, a, x, r);
      SatGroup(w, b, x, r);
      assert branches[0] in branches && branches[1] in branches;
    }
    BindsUnion(w, branches, x);
  }

  // ----- negation -----

  /** NOT EXISTS substitutes the node for the variable, which amounts to compiling about the node. */
  lemma NotExistsSat(w: World, s: Term, x: Operand, cfg: Config, cnt: nat, r: Node)
    requires Outside(x, cnt, Names(s)) && OperandFits(x, r)
    requires Correct(w, s, Compile(s, N(r), false, cfg, cnt).0, N(r), false)
    requires Typed(w, r)
    ensures Sat(w, [FilterNotExists(Compile(s, x, false, cfg, cnt).0)], x, r) <==> !Found(s, w, r)
  {
    var inner := Compile(s, x, false, cfg, cnt).0;
    var about := Compile(s, N(r), false, cfg, cnt).0;
    var m := At(UNIT, x, r);
    SatFilterOnly(w, FilterNotExists(inner), x, r);
    CompileSubst(s, x, false, cfg, cnt, m);
    assert SubstOperand(x, m) == N(r);
    assert PSubst(inner, m) == about;
    assert Sat(w, about, N(r), r) <==> Solutions(w, about) != {} by {
      if m' :| m' in Part(w, about) && CanStandFor(m', N(r), r) && Passes(w, about, At(m', N(r), r)) {
        assert m' in Solutions(w, about);
      }
      if m' :| m' in Solutions(w, about) {
        assert m' in Part(w, about) && CanStandFor(m', N(r), r) && Passes(w, about, At(m', N(r), r));
      }
    }
  }

  lemma NegationCorrect(w: World, s: Term, x: Operand, isReal: bool, cfg: Config, cnt: nat)
    requires SubjectsTyped(w) && Outside(x, cnt, Names(s)) && !IsRegexp(s)
    requires forall r | Typed(w, r) ::
               Correct(w, s, Compile(s, N(r), false, cfg, if isReal then cnt else cnt + 1).0, N(r), false)
    ensures Correct(w, Negation(s), Compile(Negation(s), x, isReal, cfg, cnt).0, x, isReal)
  {
    var c1 := if isReal then cnt else cnt + 1;
    var inner := Compile(s, x, false, cfg, c1).0;
    var test := FilterNotExists(inner);
    forall r | Typed(w, r) ensures Sat(w, [test], x, r) <==> OperandFits(x, r) && !Found(s, w, r) {
      if OperandFits(x, r) { NotExistsSat(w, s, x, cfg, c1, r); } else { SatFilterOnly(w, test, x, r); }
    }
    if isReal {
      assert Compile(Negation(s), x, isReal, cfg, cnt).0 == [test];
    } else {
      CompileVars(s, x, false, cfg, c1);
      PVarsSingle(test);
      TypeFirst(w, x, Fresh(cnt + 1), [test]);
    }
  }

  /** The shortcut for a negated regular expression asks for a value that does not match. */
  lemma NegatedRegexpPattern(w: World, s: Term, x: Operand, isReal: bool, cfg: Config, cnt: nat)
    requires IsRegexp(s) && s.subTerm.Literal? && IsValid(s.subTerm)
    requires SubjectsTyped(w) && Outside(x, cnt, OwnName(s))
    ensures var es := Compile(Negation(s), x, isReal, cfg, cnt).0;
            && Standalone(w, es, x)
            && forall r :: Sat(w, es, x, r) <==> OperandFits(x, r) && SomeValueFails(w, s, r)
  {
    var text := LiteralText(s.subTerm.value);
    var main := MainVariable(s.variableName, s.aggregate, cnt);
    var prop := PropertyOperand(s.property, main.1);
    var v := main.0;
    var head := TriplePattern(x, prop.0, V(v));
    var test := SingleTest(V(v), RegexText(text));
    var negated := Filter(false, [Atom(true, V(v), RegexText(text))]);
    assert Compile(s, x, isReal, cfg, cnt).0 == [head] + [test];
    assert Compile(Negation(s), x, isReal, cfg, cnt).0 == NegateFirstFilter([head] + [test]) == [head] + [negated] by {
      assert ([head] + [test])[1..] == [test] && [test][1..] == [];
      assert [Atom(true, V(v), RegexText(text))] + test.atoms[1..] == negated.atoms;
      assert NegateFirstFilter([test]) == [negated] + [];
    }
    forall n ensures Sat(w, [negated], V(v), n) <==> !w.engine.regexText(text, n) {
      SatFilterOnly(w, negated, V(v), n);
      var a := Atom(true, V(v), RegexText(text));
      assert AtomHolds(w, a, At(UNIT, V(v), n)) == !w.engine.regexText(text, n);
      assert a in [a];
    }
    PVarsSingle(negated);
    ChainCorrect(w, false, x, s.property, main.1, v, [negated]);
  }

  lemma NegatedRegexpCorrect(w: World, s: Term, x: Operand, isReal: bool, cfg: Config, cnt: nat)
    requires IsRegexp(s) && Compilable(Negation(s), cfg.literalRange) && WorldFits(w, s, cfg) && Outside(x, cnt, Names(s))
    ensures Correct(w, Negation(s), Compile(Negation(s), x, isReal, cfg, cnt).0, x, false)
  {
    assert OwnName(s) <= Names(s);
    NegatedRegexpPattern(w, s, x, isReal, cfg, cnt);
  }

  function WithRegex(w: World, matches: (string, Node) -> bool): World {
    w.(engine := w.engine.(regexText := matches))
  }

  /** And nowhere else: at a resource, the pattern agrees with the negation for every way the store
      can match regular expressions exactly if the resource has one value. */
  lemma NegatedRegexpExactly(w: World, s: Term, x: Operand, isReal: bool, cfg: Config, cnt: nat, r: Node)
    requires IsRegexp(s) && s.subTerm.Literal? && IsValid(s.subTerm)
    requires SubjectsTyped(w) && Outside(x, cnt, OwnName(s)) && OperandFits(x, r)
    ensures (forall matches :: ShortcutAgrees(WithRegex(w, matches), s, x, isReal, cfg, cnt, r)) <==> OneValue(w, r, s.property)
  {
    forall matches
      ensures var w' := WithRegex(w, matches);
              ShortcutAgrees(w', s, x, isReal, cfg, cnt, r) <==> (SomeValueFails(w', s, r) <==> !Matches(s, w', r))
    {
      var w' := WithRegex(w, matches);
      assert SubjectsTyped(w') by { forall t | t in w'.store ensures Typed(w', t.s) { assert Typed(w, t.s); } }
      NegatedRegexpPattern(w', s, x, isReal, cfg, cnt);
    }
    if OneValue(w, r, s.property) {
      OneValueAgrees(w, s, r);
    } else {
      var matches := ValuesDisagree(w, s, r);
      assert !ShortcutAgrees(WithRegex(w, matches), s, x, isReal, cfg, cnt, r);
    }
  }

  ghost predicate ShortcutAgrees(w: World, s: Term, x: Operand, isReal: bool, cfg: Config, cnt: nat, r: Node) {
    Sat(w, Compile(Negation(s), x, isReal, cfg, cnt).0, x, r) <==> !Matches(s, w, r)
  }

  lemma RegexpMatches(w: World, matches: (string, Node) -> bool, s: Term, r: Node)
    requires IsRegexp(s) && s.subTerm.Literal? && IsValid(s.subTerm)
    ensures var w', text := WithRegex(w, matches), LiteralText(s.subTerm.value);
            && (Matches(s, w', r) <==> exists n :: Linked(w, r, s.property, n) && matches(text, n))
            && (SomeValueFails(w', s, r) <==> exists n :: Linked(w, r, s.property, n) && !matches(text, n))
  {
    var w' := WithRegex(w, matches);
    assert forall n :: Linked(w', r, s.property, n) == Linked(w, r, s.property, n);
    assert Matches(s, w', r) == HasValue(w', r, s.property, Regexp, s.subTerm.value);
  }

  lemma OneValueAgrees(w: World, s: Term, r: Node)
    requires IsRegexp(s) && s.subTerm.Literal? && IsValid(s.subTerm) && OneValue(w, r, s.property)
    ensures forall matches :: SomeValueFails(WithRegex(w, matches), s, r) <==> !Matches(s, WithRegex(w, matches), r)
  {
    var v :| Linked(w, r, s.property, v) && forall u | Linked(w, r, s.property, u) :: u == v;
    forall matches ensures SomeValueFails(WithRegex(w, matches), s, r) <==> !Matches(s, WithRegex(w, matches), r) {
      RegexpMatches(w, matches, s, r);
    }
  }

  /** If there is no value, nothing fails and nothing matches; of two values one can do either. */
  lemma ValuesDisagree(w: World, s: Term, r: Node) returns (matches: (string, Node) -> bool)
    requires IsRegexp(s) && s.subTerm.Literal? && IsValid(s.subTerm) && !OneValue(w, r, s.property)
    ensures !(SomeValueFails(WithRegex(w, matches), s, r) <==> !Matches(s, WithRegex(w, matches), r))
  {
    if a :| Linked(w, r, s.property, a) {
      matches := (text, n) => n == a;
      RegexpMatches(w, matches, s, r);
      var b :| Linked(w, r, s.property, b) && b != a;
    } else {
      matches := (text, n) => true;
      RegexpMatches(w, matches, s, r);
    }
  }

  // ----- the whole term -----

  /** Every term the compiler is meant for compiles to a pattern that is satisfied by what the term
      finds. */
  lemma {:induction false} CompileCorrect(w: World, t: Term, x: Operand, isReal: bool, cfg: Config, cnt: nat)
    requires IsValid(t) && Compilable(t, cfg.literalRange) && WorldFits(w, t, cfg) && Outside(x, cnt, Names(t))
    ensures Correct(w, t, Compile(t, x, isReal, cfg, cnt).0, x, LeansOnParent(t, isReal))
    decreases t, 2
  {
    match t
    case Literal(l) => PlainCorrect(w, l, x, cfg, cnt);
    case Resource(u) => ResourceCorrect(w, u, x, isReal, cfg, cnt);
    case ResourceType(ts) => TypeTermCorrect(w, ts, x, isReal, cfg, cnt);
    case And(subs) => AndCorrect(w, subs, x, cfg, cnt);
    case Or(subs) => OrCorrect(w, subs, x, cfg, cnt);
    case Negation(s) =>
      assert Names(t) == Names(s);
      if IsRegexp(s) {
        NegatedRegexpCorrect(w, s, x, isReal, cfg, cnt);
      } else {
        var c1 := if isReal then cnt else cnt + 1;
        forall r | Typed(w, r) ensures Correct(w, s, Compile(s, N(r), false, cfg, c1).0, N(r), false) {
          CompileCorrect(w, s, N(r), false, cfg, c1);
        }
        NegationCorrect(w, s, x, isReal, cfg, cnt);
      }
    case Comparison(_, _, _, _, _, _, _, _) => ComparisonCorrect(w, t, x, isReal, cfg, cnt);
  }

  lemma ComparisonCorrect(w: World, t: Term, x: Operand, isReal: bool, cfg: Config, cnt: nat)
    requires t.Comparison? && Compilable(t, cfg.literalRange) && WorldFits(w, t, cfg) && Outside(x, cnt, Names(t))
    ensures Correct(w, t, Compile(t, x, isReal, cfg, cnt).0, x, false)
    decreases t, 1
  {
    var s := t.subTerm;
    if !IsValid(s) {
      WildcardCorrect(w, t, x, cnt);
    } else {
      ValidSays(s);
      if ComparedAsValue(t, w.literalRange) {
        ValueCorrect(w, t, x, cfg, cnt);
      } else if s.Literal? {
        LabelCorrect(w, t, x, cfg, cnt);
      } else if s.Resource? {
        LinkCorrect(w, t.inverted, x, t.property, cnt, UriNode(s.uri));
      } else {
        var prop := PropertyOperand(t.property, cnt);
        var main := MainVariable(t.variableName, t.aggregate, prop.1);
        CompileCorrect(w, s, V(main.0), false, cfg, main.1);
        NestedCorrect(w, t, x, cfg, cnt, prop, main);
      }
    }
  }

  /** The conjuncts of an And term, compiled one after the other into one group. */
  ghost predicate AllCorrect(w: World, ts: seq<Term>, es: Pattern, x: Operand, isReal: bool) {
    && NoOptional(es)
    && (forall r | Typed(w, r) :: Sat(w, es, x, r) <==> OperandFits(x, r) && forall t | t in ts :: Found(t, w, r))
    && ((exists t | t in ts :: !LeansOnParent(t, isReal)) ==> Standalone(w, es, x))
  }

  lemma {:induction false} CompileAllCorrect(w: World, ts: seq<Term>, x: Operand, isReal: bool, cfg: Config, cnt: nat)
    requires NamesApart(ts) && forall t | t in ts :: IsValid(t) && Compilable(t, cfg.literalRange) && WorldFits(w, t, cfg)
    requires SubjectsTyped(w) && Outside(x, cnt, AllNames(ts))
    ensures AllCorrect(w, ts, CompileAll(ts, x, isReal, cfg, cnt).0, x, isReal)
    decreases ts, 0
  {
    if ts == [] {
      forall r ensures Sat(w, [], x, r) <==> OperandFits(x, r) { SatEmpty(w, x, r); }
    } else {
      var t, tail := ts[0], ts[1..];
      var head := Compile(t, x, isReal, cfg, cnt);
      var rest := CompileAll(tail, x, isReal, cfg, head.1);
      NamesOfRest(ts);
      CompileCorrect(w, t, x, isReal, cfg, cnt);
      CompileAllCorrect(w, tail, x, isReal, cfg, head.1);
      CompileVars(t, x, isReal, cfg, cnt);
      CompileAllVars(tail, x, isReal, cfg, head.1);
      ConcatCorrect(w, t, tail, head.0, rest.0, x, isReal);
      assert ts == [t] + tail;
    }
  }

  lemma NamesOfRest(ts: seq<Term>)
    requires NamesApart(ts) && ts != []
    ensures Names(ts[0]) <= AllNames(ts) && AllNames(ts[1..]) <= AllNames(ts)
    ensures AllNames(ts[1..]) !! Names(ts[0])
  {
    forall n | n in AllNames(ts[1..]) ensures n !in Names(ts[0]) {
      var s :| s in ts[1..] && n in Names(s);
      var j :| 0 <= j < |ts[1..]| && ts[1..][j] == s;
      assert ts[j + 1] == s;
    }
  }

  lemma ConcatCorrect(w: World, t: Term, tail: seq<Term>, a: Pattern, b: Pattern, x: Operand, isReal: bool)
    requires Correct(w, t, a, x, LeansOnParent(t, isReal)) && AllCorrect(w, tail, b, x, isReal)
    requires PVars(a) * PVars(b) <= OperandVars(x)
    ensures AllCorrect(w, [t] + tail, a + b, x, isReal)
  {
    forall r ensures Sat(w, a + b, x, r) <==> Sat(w, a, x, r) && Sat(w, b, x, r) { SatConcat(w, a, b, x, r); }
    assert forall s :: s in [t] + tail <==> s == t || s in tail;
    PartConcat(w, a, b);
    forall m | m in Part(w, a + b) && x.V? && (Binds(w, a, x) || Binds(w, b, x)) ensures x.v in m {
      var ma, mb := JoinParts(Part(w, a), Part(w, b), m);
    }
  }

  lemma AndCorrect(w: World, subs: seq<Term>, x: Operand, cfg: Config, cnt: nat)
    requires subs != [] && NamesApart(subs)
    requires forall s | s in subs :: IsValid(s) && Compilable(s, cfg.literalRange) && WorldFits(w, s, cfg)
    requires SubjectsTyped(w) && Outside(x, cnt, AllNames(subs))
    ensures Correct(w, And(subs), [Group(CompileAll(subs, x, HasRealPattern(subs), cfg, cnt).0)], x, false)
    decreases subs, 1
  {
    var isReal := HasRealPattern(subs);
    var es := CompileAll(subs, x, isReal, cfg, cnt).0;
    CompileAllCorrect(w, subs, x, isReal, cfg, cnt);
    assert exists t | t in subs :: !LeansOnParent(t, isReal) by {
      if !isReal { assert subs[0] in subs; }
    }
    forall r ensures Sat(w, [Group(es)], x, r) <==> Sat(w, es, x, r) { SatGroup(w, es, x, r); }
    BindsGroup(w, es, x);
    forall s | s in subs ensures Says(s) { ValidSays(s); }
  }

  /** The alternatives of an Or term, each in its own group. */
  ghost predicate BranchesCorrect(w: World, ts: seq<Term>, bs: seq<Element>, x: Operand) {
    && (forall b | b in bs :: b.Group? && Standalone(w, b.inner, x))
    && forall r | Typed(w, r) ::
         (exists b | b in bs :: b.Group? && Sat(w, b.inner, x, r)) == (OperandFits(x, r) && exists t | t in ts :: Found(t, w, r))
  }

  lemma {:induction false} CompileBranchesCorrect(w: World, ts: seq<Term>, x: Operand, cfg: Config, cnt: nat)
    requires forall t | t in ts :: IsValid(t) && Compilable(t, cfg.literalRange) && WorldFits(w, t, cfg)
    requires Outside(x, cnt, AllNames(ts))
    ensures BranchesCorrect(w, ts, CompileBranches(ts, x, cfg, cnt).0, x)
    decreases ts, 0
  {
    if ts != [] {
      var t, tail := ts[0], ts[1..];
      var head := Compile(t, x, false, cfg, cnt);
      var rest := CompileBranches(tail, x, cfg, head.1);
      assert Names(t) <= AllNames(ts) && AllNames(tail) <= AllNames(ts);
      CompileCorrect(w, t, x, false, cfg, cnt);
      CompileBranchesCorrect(w, tail, x, cfg, head.1);
      BranchAdded(w, t, tail, head.0, rest.0, x);
      assert ts == [t] + tail;
    }
  }

  lemma BranchAdded(w: World, t: Term, tail: seq<Term>, es: Pattern, bs: seq<Element>, x: Operand)
    requires Correct(w, t, es, x, false) && BranchesCorrect(w, tail, bs, x)
    ensures BranchesCorrect(w, [t] + tail, [Group(es)] + bs, x)
  {
    assert forall b :: b in [Group(es)] + bs <==> b == Group(es) || b in bs;
    assert forall s :: s in [t] + tail <==> s == t || s in tail;
  }

  lemma OrCorrect(w: World, subs: seq<Term>, x: Operand, cfg: Config, cnt: nat)
    requires subs != []
    requires forall s | s in subs :: IsValid(s) && Compilable(s, cfg.literalRange) && WorldFits(w, s, cfg)
    requires Outside(x, cnt, AllNames(subs))
    ensures Correct(w, Or(subs), [Union(CompileBranches(subs, x, cfg, cnt).0)], x, false)
    decreases subs, 1
  {
    var bs := CompileBranches(subs, x, cfg, cnt).0;
    CompileBranchesCorrect(w, subs, x, cfg, cnt);
    forall r ensures Sat(w, [Union(bs)], x, r) <==> exists b | b in bs :: b.Group? && Sat(w, b.inner, x, r) {
      SatUnion(w, bs, x, r);
      forall b | b in bs ensures Sat(w, [b], x, r) <==> Sat(w, b.inner, x, r) { SatGroup(w, b.inner, x, r); }
    }
    BindsUnion(w, bs, x);
    forall s | s in subs ensures Says(s) { ValidSays(s); }
  }

  // ----- the result -----

  /** The nodes that a group binds a variable to. */
  ghost predicate Returns(w: World, es: Pattern, v: Var, r: Node) {
    exists m :: m in Solutions(w, es) && v in m && m[v] == r
  }

  lemma SatIsReturns(w: World, es: Pattern, v: Var, r: Node)
    requires Binds(w, es, V(v))
    ensures Sat(w, es, V(v), r) <==> Returns(w, es, v, r)
  {
    if m :| m in Part(w, es) && CanStandFor(m, V(v), r) && Passes(w, es, At(m, V(v), r)) {
      assert At(m, V(v), r) == m;
      assert m in Solutions(w, es);
    }
    if m :| m in Solutions(w, es) && v in m && m[v] == r {
      assert At(m, V(v), r) == m;
      assert CanStandFor(m, V(v), r);
    }
  }

  /** The main result: the query "select ?r where { pattern }" returns exactly the typed resources
      that the term finds. */
  lemma CompiledQueryReturnsFound(w: World, t: Term, cfg: Config)
    requires IsValid(t) && Compilable(t, cfg.literalRange) && WorldFits(w, t, cfg)
    ensures forall r :: Returns(w, Compile(t, V(ResultVar), false, cfg, 0).0, ResultVar, r) <==> Typed(w, r) && Found(t, w, r)
  {
    var es := Compile(t, V(ResultVar), false, cfg, 0).0;
    CompileCorrect(w, t, V(ResultVar), false, cfg, 0);
    forall r ensures Returns(w, es, ResultVar, r) <==> Sat(w, es, V(ResultVar), r) { SatIsReturns(w, es, ResultVar, r); }
  }

  /** It returns a resource at which regular expressions can be negated in place exactly if the
      resource is typed and the term matches it. */
  lemma CompiledQueryReturnsMatches(w: World, t: Term, cfg: Config, r: Node)
    requires IsValid(t) && Compilable(t, cfg.literalRange) && WorldFits(w, t, cfg) && SingleAt(t, w, r)
    ensures Returns(w, Compile(t, V(ResultVar), false, cfg, 0).0, ResultVar, r) <==> Typed(w, r) && Matches(t, w, r)
  {
    CompiledQueryReturnsFound(w, t, cfg);
    FoundIsMatched(t, w, r);
  }
}
