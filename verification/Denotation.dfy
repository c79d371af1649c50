/** What a query term means: which resources of a triple store it matches. */
module Denotation {
  import opened Terms
  import FullText

  datatype Node = UriNode(uri: Uri) | LitNode(value: LiteralValue)

  datatype Triple = Triple(s: Node, p: Node, o: Node)

  const RDF_TYPE := UriNode("http://www.w3.org/1999/02/22-rdf-syntax-ns#type")

  /** The value tests the store itself carries out. */
  datatype Engine = Engine(
    fullText: (string, Node) -> bool,                    // bif:contains with one token
    regexToken: (string, Node) -> bool,                  // REGEX with the pattern prepared from one token
    regexText: (string, Node) -> bool,                   // REGEX(STR(v), text, 'i')
    compare: (Comparator, Node, LiteralValue) -> bool,   // v < "x" and the like
    score: Node -> Node)                                 // OPTION (score ?s)

  /** A store, the properties whose range is a literal type, and the store's value tests. */
  datatype World = World(store: set<Triple>, literalRange: set<Uri>, engine: Engine)

  predicate HasLiteralRange(w: World, p: Option<Uri>) {
    p.Some? && p.value in w.literalRange
  }

  ghost predicate Typed(w: World, n: Node) {
    exists ty :: Triple(n, RDF_TYPE, ty) in w.store
  }

  predicate PropertyFits(p: Option<Uri>, n: Node) {
    p.Some? ==> n == UriNode(p.value)
  }

  /** `a` has the value `b` for the property; an invalid property is a wildcard. */
  ghost predicate Linked(w: World, a: Node, p: Option<Uri>, b: Node) {
    exists q :: PropertyFits(p, q) && Triple(a, q, b) in w.store
  }

  ghost predicate LinkedEitherWay(w: World, inverted: bool, a: Node, p: Option<Uri>, b: Node) {
    if inverted then Linked(w, b, p, a) else Linked(w, a, p, b)
  }

  predicate TextMatches(w: World, text: string, n: Node) {
    FullText.Accepts(FullText.ReadText(text), token => w.engine.fullText(token, n), token => w.engine.regexToken(token, n))
  }

  /** A term that says nothing (an invalid one, or a group of such) is ignored by the group it is in
      and is a wildcard as the operand of a comparison. For a term whose parts are all valid this
      is always true. */
  predicate Says(t: Term) {
    match t
    case And(subs) => exists s | s in subs :: Says(s)
    case Or(subs) => exists s | s in subs :: Says(s)
    case Negation(s) => Says(s)
    case Optional(s) => Says(s)
    case _ => IsValid(t)
  }

  /** `r` matches the value test of a comparison with a literal operand. */
  predicate ValueMatches(w: World, c: Comparator, literal: LiteralValue, n: Node) {
    match c
    case Equal => n == LitNode(literal)
    case Contains => TextMatches(w, LiteralText(literal), n)
    case Regexp => w.engine.regexText(LiteralText(literal), n)
    case _ => w.engine.compare(c, n, literal)
  }

  ghost predicate Matches(t: Term, w: World, r: Node)
    decreases t
  {
    match t
    case Invalid => true
    case Literal(l) => PlainTextMatches(w, l, r)
    case Resource(u) => r == UriNode(u)
    case ResourceType(ts) => exists ty | ty in ts :: Triple(r, RDF_TYPE, UriNode(ty)) in w.store
    case And(subs) => forall s | s in subs && Says(s) :: Matches(s, w, r)
    case Or(subs) => exists s | s in subs :: Says(s) && Matches(s, w, r)
    case Negation(s) => !Matches(s, w, r)
    case Optional(s) => true
    case Comparison(sub, p, c, _, _, _, _, inv) =>
      if !Says(sub) then exists v :: LinkedEitherWay(w, inv, r, p, v)
      else if HasLiteralRange(w, p) || c == Regexp then
        var literal := if sub.Literal? then sub.value else NoLiteral;
        HasValue(w, r, p, c, literal)
      else if sub.Literal? then
        exists v :: Linked(w, r, p, v) && HasValue(w, v, None, c, sub.value)
      else if sub.Resource? then LinkedEitherWay(w, inv, r, p, UriNode(sub.uri))
      else exists v :: Typed(w, v) && LinkedEitherWay(w, inv, r, p, v) && Matches(sub, w, v)
  }

  /** Some value of `r` for the property passes the test. Compared with a literal, a related
      resource stands for all its values (its label, says the source). */
  ghost predicate HasValue(w: World, r: Node, p: Option<Uri>, c: Comparator, literal: LiteralValue) {
    exists v :: Linked(w, r, p, v) && ValueMatches(w, c, literal, v)
  }

  /** Plain text search: a value of `r` matches, or a value of a resource that `r` is related to. */
  ghost predicate PlainTextMatches(w: World, literal: LiteralValue, r: Node) {
    HasValue(w, r, None, Contains, literal)
    || exists v :: Linked(w, r, None, v) && HasValue(w, v, None, Contains, literal)
  }

  /** Two terms that no store, resource or validity test can tell apart. */
  ghost predicate SameMeaning(a: Term, b: Term) {
    && Says(a) == Says(b)
    && forall w, r :: Matches(a, w, r) == Matches(b, w, r)
  }

  lemma {:induction false} ValidSays(t: Term)
    requires IsValid(t)
    ensures Says(t)
  {
    match t
    case And(subs) => ValidSays(subs[0]); assert subs[0] in subs;
    case Or(subs) => ValidSays(subs[0]); assert subs[0] in subs;
    case Negation(s) => ValidSays(s);
    case Optional(s) => ValidSays(s);
    case _ =>
  }
}
