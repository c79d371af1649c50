/** The toSparqlGraphPattern methods of the query terms: the pattern each term compiles to, and the
    running counter from which QueryBuilderData hands out variables. */
module Compiler {
  import opened Terms
  import opened Denotation
  import opened Sparql
  import FullText
  import Counting

  /** What the compiler knows besides the term: the properties with a literal range, and whether
      full text scoring is enabled. */
  datatype Config = Config(literalRange: set<Uri>, scoring: bool)

  // ----- variables -----

  /** ComparisonTermPrivate::getMainVariableName */
  function MainVariable(name: string, aggregate: AggregateFunction, cnt: nat): (Var, nat) {
    if name != "" && aggregate.NoAggregateFunction? then (Named(name), cnt) else (Fresh(cnt + 1), cnt + 1)
  }

  /** ComparisonTermPrivate::propertyToString; an invalid property becomes a variable. */
  function PropertyOperand(p: Option<Uri>, cnt: nat): (Operand, nat) {
    if p.Some? then (N(UriNode(p.value)), cnt) else (V(Fresh(cnt + 1)), cnt + 1)
  }

  // ----- full text -----

  function RegexAtoms(v: Operand, tokens: seq<FullText.Token>): seq<Atom> {
    seq(|tokens|, i requires 0 <= i < |tokens| => Atom(tokens[i].negated, v, RegexToken(tokens[i].text)))
  }

  /** The pattern for a scanned text: bif:contains as a scoring pattern where that is possible, as
      one more filter condition where it is not; tokens with early wildcards always as regexes. */
  function ReadingPattern(v: Operand, r: FullText.Reading, scoring: bool, cnt: nat): (res: (Pattern, nat))
    ensures cnt <= res.1
  {
    var regexes := RegexAtoms(v, r.regex);
    var scored := r.contains != [] && scoring && (r.regex == [] || !r.isUnion);
    var atoms := if r.contains != [] && !scored
                 then regexes + [Atom(false, v, BifContains(r.contains, r.isUnion))] else regexes;
    ((if atoms == [] then [] else [Filter(r.isUnion, atoms)])
     + (if scored then [FullTextPattern(v, r.contains, r.isUnion, Fresh(cnt + 1))] else []),
     if scored then cnt + 1 else cnt)
  }

  function ContainsPattern(v: Operand, text: string, scoring: bool, cnt: nat): (res: (Pattern, nat))
    ensures cnt <= res.1
  {
    if text == "" then ([], cnt) else ReadingPattern(v, FullText.ReadText(text), scoring, cnt)
  }

  /** The conditions that a value `v` must meet for a comparison other than by equality. */
  function TestPattern(v: Operand, c: Comparator, literal: LiteralValue, scoring: bool, cnt: nat): (res: (Pattern, nat))
    ensures cnt <= res.1
  {
    if c == Contains then ContainsPattern(v, LiteralText(literal), scoring, cnt)
    else if c == Regexp then ([SingleTest(v, RegexText(LiteralText(literal)))], cnt)
    else ([SingleTest(v, CompareTo(c, literal))], cnt)
  }

  function SingleTest(v: Operand, test: Test): Element {
    Filter(false, [Atom(false, v, test)])
  }

  // ----- terms -----

  predicate HasRealPattern(subs: seq<Term>) {
    exists s | s in subs :: s.Comparison? || s.ResourceType?
  }

  function TypePattern(x: Operand, o: Operand): Element {
    TriplePattern(x, N(RDF_TYPE), o)
  }

  function OnlyType(ts: set<Uri>): Uri
    requires |ts| == 1
  {
    assert ts != {};
    assert forall u | u in ts :: ts == {u} by {
      forall u | u in ts ensures ts == {u} { Counting.OnlyMember(ts, u); }
    }
    var u :| u in ts; u
  }

  /** A comparison with a value of a literal-range property, or by regular expression. */
  function CompileValue(x: Operand, t: Term, cfg: Config, cnt: nat): (r: (Pattern, nat))
    requires t.Comparison?
    ensures cnt <= r.1
  {
    var literal := if t.subTerm.Literal? then t.subTerm.value else NoLiteral;
    if t.comparator == Equal then
      var (prop, c1) := PropertyOperand(t.property, cnt);
      ([TriplePattern(x, prop, N(LitNode(literal)))], c1)
    else
      var (v, c1) := MainVariable(t.variableName, t.aggregate, cnt);
      var (tests, c2) := TestPattern(V(v), t.comparator, literal, cfg.scoring, c1);
      var (prop, c3) := PropertyOperand(t.property, c2);
      ([TriplePattern(x, prop, V(v))] + tests, c3)
  }

  /** A comparison of a resource with a literal: some value of the related resource is compared. */
  function CompileLabel(x: Operand, t: Term, cfg: Config, cnt: nat): (r: (Pattern, nat))
    requires t.Comparison?
    ensures cnt <= r.1
  {
    var literal := if t.subTerm.Literal? then t.subTerm.value else NoLiteral;
    var (prop, c1) := PropertyOperand(t.property, cnt);
    var (v, c2) := MainVariable(t.variableName, t.aggregate, c1);
    var core := TriplePattern(x, prop, V(v));
    var anyProp := V(Fresh(c2 + 1));
    if t.comparator == Equal then
      ([core, TriplePattern(V(v), anyProp, N(LitNode(literal)))], c2 + 1)
    else if t.comparator == Contains then RelatedText(x, prop, v, literal, cfg.scoring, c2)
    else ([], c2 + 1)
  }

  /** Text search in the values of the resource `v` that `x` is linked to. */
  function RelatedText(x: Operand, prop: Operand, v: Var, literal: LiteralValue, scoring: bool, cnt: nat): (r: (Pattern, nat))
    ensures cnt <= r.1
  {
    var l := Fresh(cnt + 2);
    var (tests, c) := TestPattern(V(l), Contains, literal, scoring, cnt + 2);
    ([TriplePattern(x, prop, V(v)), TriplePattern(V(v), V(Fresh(cnt + 1)), V(l))] + tests, c)
  }

  /** A literal outside a comparison: plain text search in the values and in related resources. */
  function CompileLiteral(x: Operand, literal: LiteralValue, cfg: Config, cnt: nat): (r: (Pattern, nat))
    ensures cnt <= r.1
  {
    if LiteralText(literal) == "" then ([], cnt)
    else
      var p1, v1, r2 := V(Fresh(cnt + 1)), V(Fresh(cnt + 2)), V(Fresh(cnt + 3));
      var (tests, c) := TestPattern(v1, Contains, literal, cfg.scoring, cnt + 3);
      ([PlainPattern(x, p1, v1, r2, V(Fresh(c + 1)), tests)], c + 1)
  }

  function PlainPattern(x: Operand, p1: Operand, v1: Operand, r2: Operand, p2: Operand, tests: Pattern): Element {
    Union([Group([TriplePattern(x, p1, v1)] + tests), Group([TriplePattern(x, p1, r2), TriplePattern(r2, p2, v1)] + tests)])
  }

  /** Inserting `!` after the first "FILTER(" of the generated text, if there is one. */
  function NegateFirstFilter(es: Pattern): Pattern {
    if es == [] then []
    else if es[0].Filter? && es[0].atoms != [] then
      var a := es[0].atoms[0];
      [es[0].(atoms := [a.(negated := !a.negated)] + es[0].atoms[1..])] + es[1..]
    else [es[0]] + NegateFirstFilter(es[1..])
  }

  predicate IsRegexp(t: Term) {
    t.Comparison? && t.comparator == Regexp
  }

  /** The pattern for `t` about the node `x`, and the counter afterwards. `isReal` says that the
      parent is an And term with a real pattern. */
  function Compile(t: Term, x: Operand, isReal: bool, cfg: Config, cnt: nat): (r: (Pattern, nat))
    ensures cnt <= r.1
    decreases t
  {
    match t
    case Invalid => ([], cnt)
    case Literal(l) => CompileLiteral(x, l, cfg, cnt)
    case Resource(u) =>
      var filter := SingleTest(x, SameNode(UriNode(u)));
      if isReal then ([filter], cnt) else ([TypePattern(x, V(Fresh(cnt + 1))), filter], cnt + 1)
    case ResourceType(ts) =>
      if |ts| == 1 then ([TypePattern(x, N(UriNode(OnlyType(ts))))], cnt)
      else
        var v := V(Fresh(cnt + 1));
        ([TypePattern(x, v), SingleTest(v, InTypes(ts))], cnt + 1)
    case And(subs) =>
      var (es, c) := CompileAll(subs, x, HasRealPattern(subs), cfg, cnt);
      ([Group(es)], c)
    case Or(subs) =>
      var (branches, c) := CompileBranches(subs, x, cfg, cnt);
      (if subs == [] then [Group([])] else [Union(branches)], c)
    case Negation(s) =>
      if IsRegexp(s) then
        var (es, c) := Compile(s, x, isReal, cfg, cnt);
        (NegateFirstFilter(es), c)
      else
        var c1 := if isReal then cnt else cnt + 1;
        var (inner, c2) := Compile(s, x, false, cfg, c1);
        ((if isReal then [] else [TypePattern(x, V(Fresh(cnt + 1)))]) + [FilterNotExists(inner)], c2)
    case Optional(s) =>
      var (inner, c) := Compile(s, x, false, cfg, cnt);
      ([OptionalPart(inner)], c)
    case Comparison(s, p, c, name, aggregate, _, _, inverted) =>
      if !IsValid(s) then
        var (prop, c1) := PropertyOperand(p, cnt);
        var (v, c2) := MainVariable(name, aggregate, c1);
        ([LinkPattern(inverted, x, prop, V(v))], c2)
      else if (p.Some? && p.value in cfg.literalRange) || c == Regexp then CompileValue(x, t, cfg, cnt)
      else if s.Literal? then CompileLabel(x, t, cfg, cnt)
      else
        var (prop, c1) := PropertyOperand(p, cnt);
        if s.Resource? then ([LinkPattern(inverted, x, prop, N(UriNode(s.uri)))], c1)
        else
          var (v, c2) := MainVariable(name, aggregate, c1);
          var (inner, c3) := Compile(s, V(v), false, cfg, c2);
          ([LinkPattern(inverted, x, prop, V(v))] + inner, c3)
  }

  function CompileAll(ts: seq<Term>, x: Operand, isReal: bool, cfg: Config, cnt: nat): (r: (Pattern, nat))
    ensures cnt <= r.1
    decreases ts
  {
    if ts == [] then ([], cnt)
    else
      var (es, c) := Compile(ts[0], x, isReal, cfg, cnt);
      var (rest, c') := CompileAll(ts[1..], x, isReal, cfg, c);
      (es + rest, c')
  }

  function CompileBranches(ts: seq<Term>, x: Operand, cfg: Config, cnt: nat): (r: (seq<Element>, nat))
    ensures cnt <= r.1
    decreases ts
  {
    if ts == [] then ([], cnt)
    else
      var (es, c) := Compile(ts[0], x, false, cfg, cnt);
      var (rest, c') := CompileBranches(ts[1..], x, cfg, c);
      ([Group(es)] + rest, c')
  }
}
