/** Graph patterns of the W3C SPARQL 1.1 Query Language recommendation, as far as the compiler
    produces them, with the semantics of its sections 8.1, 18.2.2, 18.5 and 18.6: solutions of the
    members of a group are joined in order, and a FILTER applies to the whole group. */
module Sparql {
  import opened Terms
  import opened Denotation
  import FullText

  datatype Var = ResultVar | Fresh(n: nat) | Named(name: string)

  datatype Operand = V(v: Var) | N(node: Node)

  datatype Test =
    | SameNode(node: Node)
    | InTypes(types: set<Uri>)
    | CompareTo(comparator: Comparator, literal: LiteralValue)
    | RegexText(text: string)
    | RegexToken(token: string)
    | BifContains(tokens: seq<FullText.Token>, isUnion: bool)

  /** One conjunct or disjunct of a FILTER, `negated` being a leading `!`. */
  datatype Atom = Atom(negated: bool, operand: Operand, test: Test)

  datatype Element =
    | TriplePattern(s: Operand, p: Operand, o: Operand)
    | FullTextPattern(o: Operand, tokens: seq<FullText.Token>, isUnion: bool, score: Var)
    | Filter(isUnion: bool, atoms: seq<Atom>)
    | FilterNotExists(inner: seq<Element>)
    | Group(inner: seq<Element>)
    | Union(branches: seq<Element>)
    | OptionalPart(inner: seq<Element>)

  /** A triple pattern from `x` to `y`, or from `y` to `x`. */
  function LinkPattern(inverted: bool, x: Operand, p: Operand, y: Operand): Element {
    if inverted then TriplePattern(y, p, x) else TriplePattern(x, p, y)
  }

  type Pattern = seq<Element>

  /** A solution mapping. */
  type Mu = map<Var, Node>

  // ----- size and variables -----

  function ESize(e: Element): nat
    decreases e
  {
    match e
    case FilterNotExists(inner) => 1 + PSize(inner)
    case Group(inner) => 1 + PSize(inner)
    case OptionalPart(inner) => 1 + PSize(inner)
    case Union(branches) => 1 + PSize(branches)
    case _ => 1
  }

  function PSize(es: Pattern): nat
    decreases es
  {
    if es == [] then 0 else PSize(es[..|es| - 1]) + ESize(es[|es| - 1])
  }

  function OperandVars(o: Operand): set<Var> {
    if o.V? then {o.v} else {}
  }

  function EVars(e: Element): set<Var>
    decreases e
  {
    match e
    case TriplePattern(s, p, o) => OperandVars(s) + OperandVars(p) + OperandVars(o)
    case FullTextPattern(o, _, _, score) => OperandVars(o) + {score}
    case Filter(_, atoms) => set a, v | a in atoms && v in OperandVars(a.operand) :: v
    case FilterNotExists(inner) => PVars(inner)
    case Group(inner) => PVars(inner)
    case OptionalPart(inner) => PVars(inner)
    case Union(branches) => PVars(branches)
  }

  function PVars(es: Pattern): set<Var>
    decreases es
  {
    set e, v | e in es && v in EVars(e) :: v
  }

  // ----- substitution (section 18.6) -----

  function SubstOperand(o: Operand, m: Mu): Operand {
    if o.V? && o.v in m then N(m[o.v]) else o
  }

  function SubstAtom(a: Atom, m: Mu): Atom {
    a.(operand := SubstOperand(a.operand, m))
  }

  function ESubst(e: Element, m: Mu): Element
    decreases e
  {
    match e
    case TriplePattern(s, p, o) => TriplePattern(SubstOperand(s, m), SubstOperand(p, m), SubstOperand(o, m))
    case FullTextPattern(o, tokens, isUnion, score) => FullTextPattern(SubstOperand(o, m), tokens, isUnion, score)
    case Filter(isUnion, atoms) => Filter(isUnion, seq(|atoms|, i requires 0 <= i < |atoms| => SubstAtom(atoms[i], m)))
    case FilterNotExists(inner) => FilterNotExists(PSubst(inner, m))
    case Group(inner) => Group(PSubst(inner, m))
    case OptionalPart(inner) => OptionalPart(PSubst(inner, m))
    case Union(branches) => Union(PSubst(branches, m))
  }

  function PSubst(es: Pattern, m: Mu): Pattern
    decreases es
  {
    seq(|es|, i requires 0 <= i < |es| => ESubst(es[i], m))
  }

  lemma {:induction false} ESubstSize(e: Element, m: Mu)
    ensures ESize(ESubst(e, m)) == ESize(e)
    decreases e
  {
    match e
    case FilterNotExists(inner) => PSubstSize(inner, m);
    case Group(inner) => PSubstSize(inner, m);
    case OptionalPart(inner) => PSubstSize(inner, m);
    case Union(branches) => PSubstSize(branches, m);
    case _ =>
  }

  lemma {:induction false} PSubstSize(es: Pattern, m: Mu)
    ensures PSize(PSubst(es, m)) == PSize(es)
    decreases es
  {
    if es != [] {
      ESubstSize(es[|es| - 1], m);
      PSubstSize(es[..|es| - 1], m);
      assert PSubst(es, m)[..|es| - 1] == PSubst(es[..|es| - 1], m);
    }
  }

  // ----- tests -----

  predicate TestHolds(w: World, t: Test, n: Node) {
    match t
    case SameNode(node) => n == node
    case InTypes(types) => n.UriNode? && n.uri in types
    case CompareTo(c, literal) => w.engine.compare(c, n, literal)
    case RegexText(text) => w.engine.regexText(text, n)
    case RegexToken(token) => w.engine.regexToken(token, n)
    case BifContains(tokens, isUnion) => ContainsHolds(w, tokens, isUnion, n)
  }

  predicate ContainsHolds(w: World, tokens: seq<FullText.Token>, isUnion: bool, n: Node) {
    if isUnion then exists t | t in tokens :: w.engine.fullText(t.text, n) != t.negated
    else forall t | t in tokens :: w.engine.fullText(t.text, n) != t.negated
  }

  function ValueOf(o: Operand, m: Mu): Option<Node> {
    match o
    case N(node) => Some(node)
    case V(v) => if v in m then Some(m[v]) else None
  }

  /** True, as opposed to false or an error; an unbound variable is an error. */
  predicate AtomHolds(w: World, a: Atom, m: Mu) {
    var value := ValueOf(a.operand, m);
    value.Some? && TestHolds(w, a.test, value.value) != a.negated
  }

  predicate FilterHolds(w: World, isUnion: bool, atoms: seq<Atom>, m: Mu) {
    if isUnion then exists a | a in atoms :: AtomHolds(w, a, m)
    else forall a | a in atoms :: AtomHolds(w, a, m)
  }

  // ----- evaluation -----

  predicate Compatible(a: Mu, b: Mu) {
    forall v | v in a && v in b :: a[v] == b[v]
  }

  function Join(a: set<Mu>, b: set<Mu>): set<Mu> {
    set m, n | m in a && n in b && Compatible(m, n) :: m + n
  }

  function BindOperand(o: Operand, n: Node): Mu {
    if o.V? then map[o.v := n] else map[]
  }

  function BindTriple(s: Operand, p: Operand, o: Operand, t: Triple): Mu {
    BindOperand(s, t.s) + BindOperand(p, t.p) + BindOperand(o, t.o)
  }

  predicate Fits(s: Operand, p: Operand, o: Operand, t: Triple) {
    var m := BindTriple(s, p, o, t);
    ValueOf(s, m) == Some(t.s) && ValueOf(p, m) == Some(t.p) && ValueOf(o, m) == Some(t.o)
  }

  function TripleSols(w: World, s: Operand, p: Operand, o: Operand): set<Mu> {
    set t | t in w.store && Fits(s, p, o, t) :: BindTriple(s, p, o, t)
  }

  function FullTextSols(w: World, o: Operand, tokens: seq<FullText.Token>, isUnion: bool, score: Var): set<Mu> {
    set t | t in w.store && (o.N? ==> o.node == t.o) && ContainsHolds(w, tokens, isUnion, t.o)
      :: BindOperand(o, t.o)[score := w.engine.score(t.o)]
  }

  lemma {:induction false} ESizeIn(es: Pattern, e: Element)
    requires e in es
    ensures ESize(e) <= PSize(es)
  {
    if e != es[|es| - 1] {
      ESizeIn(es[..|es| - 1], e);
    }
  }

  /** The solutions of a group before its filters are applied. */
  function Part(w: World, es: Pattern): set<Mu>
    decreases PSize(es), |es|, 2
  {
    if es == [] then {map[]}
    else
      var before, last := Part(w, es[..|es| - 1]), es[|es| - 1];
      match last
      case Filter(_, _) => before
      case FilterNotExists(_) => before
      case OptionalPart(inner) => LeftJoin(w, before, inner)
      case _ => Join(before, Sols(w, last))
  }

  /** Section 18.5; the filters of an OPTIONAL group see the solutions it extends. */
  function LeftJoin(w: World, a: set<Mu>, inner: Pattern): set<Mu>
    decreases PSize(inner), |inner|, 3
  {
    var b := Part(w, inner);
    (set m, n | m in a && n in b && Compatible(m, n) && Passes(w, inner, m + n) :: m + n)
    + (set m | m in a && forall n | n in b && Compatible(m, n) :: !Passes(w, inner, m + n))
  }

  function Sols(w: World, e: Element): set<Mu>
    decreases ESize(e), 0, 0
  {
    match e
    case TriplePattern(s, p, o) => TripleSols(w, s, p, o)
    case FullTextPattern(o, tokens, isUnion, score) => FullTextSols(w, o, tokens, isUnion, score)
    case Group(inner) => Solutions(w, inner)
    case Union(branches) => UnionSols(w, branches)
    case _ => {map[]}
  }

  function UnionSols(w: World, branches: seq<Element>): set<Mu>
    decreases PSize(branches), |branches|, 2
  {
    if branches == [] then {}
    else UnionSols(w, branches[..|branches| - 1]) + Sols(w, branches[|branches| - 1])
  }

  /** The solutions of a group. */
  function Solutions(w: World, es: Pattern): set<Mu>
    decreases PSize(es), |es|, 3
  {
    set m | m in Part(w, es) && Passes(w, es, m)
  }

  predicate Passes(w: World, es: Pattern, m: Mu)
    decreases PSize(es), |es|, 1
  {
    forall e | e in es :: (ESizeIn(es, e); EPasses(w, e, m))
  }

  predicate EPasses(w: World, e: Element, m: Mu)
    decreases ESize(e), 0, 0
  {
    match e
    case Filter(isUnion, atoms) => FilterHolds(w, isUnion, atoms, m)
    case FilterNotExists(inner) => PSubstSize(inner, m); Solutions(w, PSubst(inner, m)) == {}
    case _ => true
  }
}
