/** The query term tree (libnepomukcore/query/term.h and its subclasses): its
    constructors, validity, and the equality that Term::operator== computes. */
module Terms {

  datatype Option<+T> = None | Some(value: T)

  type Uri = string

  /** Soprano::LiteralValue: invalid, plain with a language tag, or typed. */
  datatype LiteralValue =
    | NoLiteral
    | PlainLiteral(lexical: string, lang: string)
    | TypedLiteral(lexical: string, datatypeUri: Uri)

  /** LiteralValue::toString; an invalid value has no text. */
  function LiteralText(v: LiteralValue): string {
    if v.NoLiteral? then "" else v.lexical
  }

  datatype Comparator = Contains | Regexp | Equal | Greater | Smaller | GreaterOrEqual | SmallerOrEqual

  datatype AggregateFunction =
    | NoAggregateFunction | Count | DistinctCount | Max | Min | Sum | DistinctSum | Average | DistinctAverage

  datatype SortOrder = Ascending | Descending

  /** An invalid Types::Property is `None`; an invalid Resource has the empty URI. */
  datatype Term =
    | Invalid
    | Literal(value: LiteralValue)
    | Resource(uri: Uri)
    | ResourceType(types: set<Uri>)
    | And(subTerms: seq<Term>)
    | Or(subTerms: seq<Term>)
    | Negation(subTerm: Term)
    | Optional(subTerm: Term)
    | Comparison(subTerm: Term, property: Option<Uri>, comparator: Comparator, variableName: string,
                 aggregate: AggregateFunction, sortWeight: int, sortOrder: SortOrder, inverted: bool)

  /** Query::RequestProperty */
  datatype RequestProperty = RequestProperty(property: Option<Uri>, optional: bool)

  predicate IsGroup(t: Term) {
    t.And? || t.Or?
  }

  predicate IsValid(t: Term) {
    match t
    case Invalid => false
    case Literal(v) => !v.NoLiteral?
    case Resource(u) => u != ""
    case ResourceType(ts) => ts != {}
    case And(subs) => subs != [] && forall s | s in subs :: IsValid(s)
    case Or(subs) => subs != [] && forall s | s in subs :: IsValid(s)
    case Negation(s) => IsValid(s)
    case Optional(s) => IsValid(s)
    case Comparison(_, _, _, _, _, _, _, _) => true
  }

  /** What a term is made of through groups, negations and optional terms; a group without members
      counts as a part. */
  ghost predicate IsPart(p: Term, t: Term)
    decreases t
  {
    if IsGroup(t) && t.subTerms != [] then exists s | s in t.subTerms :: IsPart(p, s)
    else if t.Negation? || t.Optional? then IsPart(p, t.subTerm)
    else p == t
  }

  /** A literal with a value, a resource with a URI, some types, or any comparison. */
  predicate HasContent(p: Term) {
    p.Comparison? || (p.Literal? && p.value != NoLiteral) || (p.Resource? && p.uri != "") || (p.ResourceType? && p.types != {})
  }

  /** A term is valid exactly if each of its parts has some content. */
  lemma {:induction false} ValidByParts(t: Term)
    ensures IsValid(t) <==> forall p | IsPart(p, t) :: HasContent(p)
    decreases t
  {
    if IsGroup(t) {
      forall s | s in t.subTerms ensures IsValid(s) <==> forall p | IsPart(p, s) :: HasContent(p) { ValidByParts(s); }
      if t.subTerms == [] { assert IsPart(t, t); }
    } else if t.Negation? || t.Optional? {
      ValidByParts(t.subTerm);
    } else {
      assert IsPart(t, t);
    }
  }

  // ----- size, the measure for the recursions that compare two terms -----

  function Size(t: Term): nat
    decreases t
  {
    match t
    case And(subs) => 1 + SizeAll(subs)
    case Or(subs) => 1 + SizeAll(subs)
    case Negation(s) => 1 + Size(s)
    case Optional(s) => 1 + Size(s)
    case Comparison(s, _, _, _, _, _, _, _) => 1 + Size(s)
    case _ => 1
  }

  function SizeAll(ts: seq<Term>): nat
    decreases ts
  {
    if ts == [] then 0 else Size(ts[0]) + SizeAll(ts[1..])
  }

  lemma {:induction false} SizeIn(ts: seq<Term>, t: Term)
    requires t in ts
    ensures Size(t) <= SizeAll(ts)
  {
    if t != ts[0] {
      SizeIn(ts[1..], t);
    }
  }

  // ----- equality -----

  /** `a == b`, that is a.d_ptr->equals( b.d_ptr ). Groups are compared by compareQList, which
      only looks for every subterm of `b` among those of `a`; comparisons compare their subterms
      in the opposite direction and do not look at the aggregate function. */
  predicate Equals(a: Term, b: Term)
    decreases Size(a) + Size(b)
  {
    match a
    case Invalid => b.Invalid?
    case Literal(v) => b.Literal? && b.value == v
    case Resource(u) => b.Resource? && b.uri == u
    case ResourceType(ts) => b.ResourceType? && b.types == ts
    case And(subs) =>
      b.And? && |b.subTerms| == |subs| &&
      forall y | y in b.subTerms :: exists x | x in subs :: (SizeIn(subs, x); SizeIn(b.subTerms, y); Equals(x, y))
    case Or(subs) =>
      b.Or? && |b.subTerms| == |subs| &&
      forall y | y in b.subTerms :: exists x | x in subs :: (SizeIn(subs, x); SizeIn(b.subTerms, y); Equals(x, y))
    case Negation(s) => b.Negation? && Equals(s, b.subTerm)
    case Optional(s) => b.Optional? && Equals(s, b.subTerm)
    case Comparison(s, p, c, name, _, weight, order, inv) =>
      b.Comparison? && b.property == p && b.comparator == c && Equals(b.subTerm, s) &&
      b.inverted == inv && b.sortOrder == order && b.sortWeight == weight && b.variableName == name
  }

  /** QList::contains */
  predicate ListContains(ts: seq<Term>, t: Term) {
    exists x | x in ts :: Equals(x, t)
  }

  predicate Distinct(ts: seq<Term>) {
    forall i, j | 0 <= i < j < |ts| :: !Equals(ts[i], ts[j])
  }

  // ----- the builders shared by the optimizer, the parser and the operators -----

  function NegateTerm(t: Term): Term {
    if t.Negation? then t.subTerm else Negation(t)
  }

  function OptionalizeTerm(t: Term): Term {
    if t.Optional? then t else Optional(t)
  }

  function MakeGroup(isAnd: bool, subs: seq<Term>): Term {
    if isAnd then And(subs) else Or(subs)
  }

  /** What one term brings into a group: its own subterms if it is a group of the same kind,
      itself if it is valid, otherwise nothing. */
  function Operands(isAnd: bool, t: Term): seq<Term> {
    if (if isAnd then t.And? else t.Or?) then t.subTerms
    else if IsValid(t) then [t] else []
  }

  function Collapse(isAnd: bool, subs: seq<Term>): Term {
    if |subs| == 0 then Invalid else if |subs| == 1 then subs[0] else MakeGroup(isAnd, subs)
  }

  /** operator&& and operator|| */
  function AndTerms(a: Term, b: Term): Term {
    Collapse(true, Operands(true, a) + Operands(true, b))
  }

  function OrTerms(a: Term, b: Term): Term {
    Collapse(false, Operands(false, a) + Operands(false, b))
  }
}
