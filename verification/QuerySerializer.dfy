/** Terms and queries written as XML and read back (libnepomukcore/query/queryserializer.cpp,
    libnepomukcore/query/comparisonterm.cpp:68-107). */
module QuerySerializer {
  import opened Terms
  import opened Texts
  import opened Xml

  // ----- texts of enumerations -----

  function ComparatorToString(c: Comparator): string {
    match c
    case Contains => ":"
    case Equal => "="
    case Regexp => "regex"
    case Greater => ">"
    case Smaller => "<"
    case GreaterOrEqual => ">="
    case SmallerOrEqual => "<="
  }

  function StringToComparator(s: string): Comparator {
    if s == "=" then Equal
    else if s == "regex" then Regexp
    else if s == ">" then Greater
    else if s == "<" then Smaller
    else if s == ">=" then GreaterOrEqual
    else if s == "<=" then SmallerOrEqual
    else Contains
  }

  function AggregateToString(a: AggregateFunction): string {
    match a
    case Count => "count"
    case DistinctCount => "distinctcount"
    case Max => "max"
    case Min => "min"
    case Sum => "sum"
    case DistinctSum => "distinctsum"
    case Average => "avg"
    case DistinctAverage => "distinctavg"
    case NoAggregateFunction => ""
  }

  function StringToAggregate(s: string): AggregateFunction {
    if s == "count" then Count
    else if s == "distinctcount" then DistinctCount
    else if s == "max" then Max
    else if s == "min" then Min
    else if s == "sum" then Sum
    else if s == "distinctsum" then DistinctSum
    else if s == "avg" then Average
    else if s == "distinctavg" then DistinctAverage
    else NoAggregateFunction
  }

  function OrderText(o: SortOrder): string {
    if o == Ascending then "asc" else "desc"
  }

  function TextOrder(s: string): SortOrder {
    if s == "desc" then Descending else Ascending
  }

  lemma EnumerationsReadBack(c: Comparator, a: AggregateFunction, o: SortOrder)
    ensures StringToComparator(ComparatorToString(c)) == c
    ensures StringToAggregate(AggregateToString(a)) == a
    ensures TextOrder(OrderText(o)) == o
  {
  }

  /** An invalid property or class has the empty URI. */
  function ToProperty(u: Uri): Option<Uri> {
    if u == "" then None else Some(u)
  }

  function ToTypes(u: Uri): set<Uri> {
    if u == "" then {} else {u}
  }

  // ----- writing -----

  /** ResourceTypeTerm::type: whichever comes first in the hash. */
  predicate IsFirst(types: set<Uri>, u: Uri) {
    if types == {} then u == "" else u in types
  }

  function ComparisonAttrs(t: Term): Attrs
    requires t.Comparison?
  {
    var a0: Attrs := if t.property.Some? then map[Property := t.property.value] else map[];
    var a1 := a0[ComparatorAttr := ComparatorToString(t.comparator)];
    var a2 := if t.variableName != "" then a1[VarName := t.variableName] else a1;
    var a3 := if t.aggregate != NoAggregateFunction then a2[Aggregate := AggregateToString(t.aggregate)] else a2;
    var a4 := if t.sortWeight != 0
              then a3[SortWeight := IntText(t.sortWeight)][SortOrderAttr := OrderText(t.sortOrder)] else a3;
    a4[Inverted := BoolText(t.inverted)]
  }

  function LiteralAttrs(v: LiteralValue): Attrs {
    match v
    case PlainLiteral(_, lang) => map[Lang := lang]
    case TypedLiteral(_, dt) => map[Datatype := dt]
    case NoLiteral => map[Datatype := ""]
  }

  function Text(s: string): seq<Token> {
    if s == "" then [] else [Characters(s)]
  }

  function Element(tag: Tag, attrs: Attrs, inside: seq<Token>): seq<Token> {
    [StartElement(tag, attrs)] + inside + [EndElement]
  }

  /** doSerializeTerm. `first` says which type of a set the hash gives first. */
  function Write(t: Term, first: set<Uri> -> Uri): seq<Token>
    decreases t
  {
    match t
    case Invalid => []
    case Literal(v) => Element(LiteralTag, LiteralAttrs(v), Text(LiteralText(v)))
    case Resource(u) => Element(ResourceTag, map[UriAttr := u], [])
    case ResourceType(ts) => Element(TypeTag, map[UriAttr := first(ts)], [])
    case And(subs) => Element(AndTag, map[], WriteAll(subs, first))
    case Or(subs) => Element(OrTag, map[], WriteAll(subs, first))
    case Negation(s) => Element(NotTag, map[], Write(s, first))
    case Optional(s) => Element(OptionalTag, map[], Write(s, first))
    case Comparison(s, _, _, _, _, _, _, _) => Element(ComparisonTag, ComparisonAttrs(t), Write(s, first))
  }

  function WriteAll(ts: seq<Term>, first: set<Uri> -> Uri): seq<Token>
    decreases ts
  {
    if ts == [] then [] else Write(ts[0], first) + WriteAll(ts[1..], first)
  }

  lemma ElementOnto(tag: Tag, attrs: Attrs, inside: seq<Token>, rest: Tokens)
    ensures Onto(Element(tag, attrs, inside), rest) == Cons(StartElement(tag, attrs), Onto(inside, Cons(EndElement, rest)))
  {
    assert Element(tag, attrs, inside)[1..] == inside + [EndElement];
    OntoBoth(inside, [EndElement], rest);
    assert Onto([EndElement], rest) == Cons(EndElement, rest);
  }

  // ----- reading -----

  /** The flag that a caller passes to learn whether reading succeeded, and need not pass. */
  type Flag = Option<bool>

  function SetTo(ok: Flag, value: bool): Flag {
    if ok.Some? then Some(value) else None
  }

  predicate Failed(ok: Flag) {
    ok == Some(false)
  }

  lemma FlagIsSet(ok: Flag, before: Flag)
    requires ok.Some? == before.Some? && !Failed(ok)
    ensures ok == SetTo(before, true)
  {
    if ok.Some? { assert ok.value; }
  }

  /** The term that was read, the flag, and where the reader stands. */
  datatype Read = Read(term: Term, ok: Flag, left: Tokens)

  datatype ReadList = ReadList(terms: seq<Term>, failed: bool, ok: Flag, left: Tokens)

  function ReadLiteral(attrs: Attrs, text: string): Term {
    Literal(if Datatype in attrs then TypedLiteral(text, attrs[Datatype]) else PlainLiteral(text, Value(attrs, Lang)))
  }

  function ReadComparison(attrs: Attrs, sub: Term): Term {
    Comparison(
      sub,
      if Property in attrs then ToProperty(attrs[Property]) else None,
      if ComparatorAttr in attrs then StringToComparator(attrs[ComparatorAttr]) else Contains,
      Value(attrs, VarName),
      if Aggregate in attrs then StringToAggregate(attrs[Aggregate]) else NoAggregateFunction,
      if SortWeight in attrs then IntValue(attrs[SortWeight]) else 0,
      if SortWeight in attrs then TextOrder(Value(attrs, SortOrderAttr)) else Ascending,
      Inverted in attrs && attrs[Inverted] == "true")
  }

  /** The three terms without subterms. */
  function ParseLeaf(tokens: Tokens, ok: Flag): (r: Read)
    requires IsStart(tokens)
    ensures Len(r.left) <= Len(tokens)
  {
    var attrs := tokens.head.attrs;
    if tokens.head.tag == LiteralTag then
      var (text, end) := ElementText(tokens);
      Read(ReadLiteral(attrs, text), SetTo(ok, true), end)
    else
      Read(if tokens.head.tag == ResourceTag then Resource(Value(attrs, UriAttr))
           else ResourceType(ToTypes(Value(attrs, UriAttr))), SetTo(ok, true), NextStart(tokens).1)
  }

  /** The term that is built around the subterm read inside. */
  function WrapRead(tag: Tag, attrs: Attrs, sub: Term): Term {
    if tag == NotTag then NegateTerm(sub) else if tag == OptionalTag then OptionalizeTerm(sub) else ReadComparison(attrs, sub)
  }

  /** An element without its subterm is an error, but for a comparison. */
  function WithoutSubTerm(tag: Tag, attrs: Attrs, ok: Flag, left: Tokens): Read {
    if tag == ComparisonTag then Read(ReadComparison(attrs, Invalid), SetTo(ok, true), left)
    else Read(Invalid, SetTo(ok, false), left)
  }

  function AroundSubTerm(tag: Tag, attrs: Attrs, r: Read): (s: Read)
    ensures Len(s.left) <= Len(r.left)
  {
    if Failed(r.ok) then Read(Invalid, r.ok, r.left)
    else Read(WrapRead(tag, attrs, r.term), r.ok, NextStart(r.left).1)
  }

  /** doParseTerm, called on a start tag. */
  function ParseTerm(tokens: Tokens, ok: Flag): (r: Read)
    requires IsStart(tokens)
    ensures Len(r.left) <= Len(tokens)
    decreases Len(tokens), 1
  {
    var attrs := tokens.head.attrs;
    var tag := tokens.head.tag;
    if tag in {LiteralTag, ResourceTag, TypeTag} then ParseLeaf(tokens, ok)
    else if tag in {AndTag, OrTag} then
      var l := ParseAll(tokens, ok);
      Read(if l.failed then Invalid else MakeGroup(tag == AndTag, l.terms), l.ok, l.left)
    else if tag in {NotTag, OptionalTag, ComparisonTag} then
      var (found, next) := NextStart(tokens);
      if !found then WithoutSubTerm(tag, attrs, ok, next) else AroundSubTerm(tag, attrs, ParseTerm(next, ok))
    else Read(Invalid, SetTo(ok, false), tokens)
  }

  /** The loop over the subterms of a group. */
  function ParseAll(tokens: Tokens, ok: Flag): (r: ReadList)
    ensures Len(r.left) <= Len(tokens)
    decreases Len(tokens), 0
  {
    var (found, next) := NextStart(tokens);
    if !found then ReadList([], false, ok, next)
    else
      var r := ParseTerm(next, ok);
      if Failed(r.ok) then ReadList([], true, r.ok, r.left)
      else
        var l := ParseAll(r.left, r.ok);
        ReadList([r.term] + l.terms, l.failed, l.ok, l.left)
  }

  // ----- what comes back -----

  predicate IsWrapper(t: Term) {
    t.Negation? || t.Optional? || t.Comparison?
  }

  /** The term that reading gives for a written term, and the flag, given the one it starts with. */
  datatype Back = Back(term: Term, ok: Flag)

  datatype BackList = BackList(terms: seq<Term>, failed: bool, ok: Flag)

  function ComesBack(t: Term, first: set<Uri> -> Uri, ok: Flag): (b: Back)
    requires !t.Invalid?
    ensures b.ok.Some? == ok.Some?
    decreases t
  {
    match t
    case Literal(v) => Back(Literal(if v.NoLiteral? then TypedLiteral("", "") else v), SetTo(ok, true))
    case Resource(u) => Back(t, SetTo(ok, true))
    case ResourceType(ts) => Back(ResourceType(ToTypes(first(ts))), SetTo(ok, true))
    case And(subs) => BackGroup(true, AllComeBack(subs, first, ok))
    case Or(subs) => BackGroup(false, AllComeBack(subs, first, ok))
    case Negation(s) => if s.Invalid? then Back(Invalid, SetTo(ok, false)) else BackAround(t, ComesBack(s, first, ok))
    case Optional(s) => if s.Invalid? then Back(Invalid, SetTo(ok, false)) else BackAround(t, ComesBack(s, first, ok))
    case Comparison(s, _, _, _, _, _, _, _) =>
      if s.Invalid? then Back(ComparisonBack(t, Invalid), SetTo(ok, true)) else BackAround(t, ComesBack(s, first, ok))
  }

  function BackGroup(isAnd: bool, l: BackList): Back {
    Back(if l.failed then Invalid else MakeGroup(isAnd, l.terms), l.ok)
  }

  /** What comes back around a subterm. */
  function BackAround(t: Term, b: Back): Back
    requires IsWrapper(t)
  {
    if Failed(b.ok) then Back(Invalid, b.ok)
    else
      Back(if t.Negation? then NegateTerm(b.term) else if t.Optional? then OptionalizeTerm(b.term)
           else ComparisonBack(t, b.term), b.ok)
  }

  /** A sort order without a sort weight is lost. */
  function ComparisonBack(t: Term, sub: Term): Term
    requires t.Comparison?
  {
    t.(subTerm := sub, property := if t.property == Some("") then None else t.property,
       sortOrder := if t.sortWeight == 0 then Ascending else t.sortOrder)
  }

  /** Invalid subterms are not written. */
  function AllComeBack(ts: seq<Term>, first: set<Uri> -> Uri, ok: Flag): (l: BackList)
    ensures l.ok.Some? == ok.Some? && (l.failed ==> Failed(l.ok))
    decreases ts
  {
    if ts == [] then BackList([], false, ok)
    else if ts[0].Invalid? then AllComeBack(ts[1..], first, ok)
    else
      var b := ComesBack(ts[0], first, ok);
      if Failed(b.ok) then BackList([], true, b.ok)
      else
        var l := AllComeBack(ts[1..], first, b.ok);
        BackList([b.term] + l.terms, l.failed, l.ok)
  }

  // ----- the reader gives what comes back -----

  function WrapperTag(t: Term): Tag
    requires IsWrapper(t)
  {
    if t.Negation? then NotTag else if t.Optional? then OptionalTag else ComparisonTag
  }

  function WrapperAttrs(t: Term): Attrs
    requires IsWrapper(t)
  {
    if t.Comparison? then ComparisonAttrs(t) else map[]
  }

  lemma ComparisonReadsBack(t: Term, sub: Term)
    requires t.Comparison?
    ensures ReadComparison(ComparisonAttrs(t), sub) == ComparisonBack(t, sub)
  {
    ComparisonAttrsShape(t, ComparisonAttrs(t));
    EnumerationsReadBack(t.comparator, t.aggregate, t.sortOrder);
    IntReadsBack(t.sortWeight);
  }

  /** Which attributes are written, and their texts. */
  lemma ComparisonAttrsShape(t: Term, a: Attrs)
    requires t.Comparison? && a == ComparisonAttrs(t)
    ensures if t.property.Some? then Property in a && a[Property] == t.property.value else Property !in a
    ensures ComparatorAttr in a && a[ComparatorAttr] == ComparatorToString(t.comparator)
    ensures Value(a, VarName) == t.variableName
    ensures if t.aggregate != NoAggregateFunction then Aggregate in a && a[Aggregate] == AggregateToString(t.aggregate)
            else Aggregate !in a
    ensures if t.sortWeight != 0
            then SortWeight in a && a[SortWeight] == IntText(t.sortWeight) && Value(a, SortOrderAttr) == OrderText(t.sortOrder)
            else SortWeight !in a
    ensures Inverted in a && a[Inverted] == BoolText(t.inverted)
  {
  }

  /** Reading what was written gives what comes back. If that succeeds, the reader stands on the end
      tag that matches, with nothing read of what follows it. */
  ghost predicate Reads(t: Term, first: set<Uri> -> Uri, rest: Tokens, ok: Flag)
    requires !t.Invalid?
  {
    var tokens := Onto(Write(t, first), rest);
    var b := ComesBack(t, first, ok);
    && IsStart(tokens)
    && var r := ParseTerm(tokens, ok);
       r.term == b.term && r.ok == b.ok && (!Failed(b.ok) ==> r.left == Cons(EndElement, rest))
  }

  lemma {:induction false} ReadsTerm(t: Term, first: set<Uri> -> Uri, rest: Tokens, ok: Flag)
    requires !t.Invalid?
    ensures Reads(t, first, rest, ok)
    decreases t, 1
  {
    if t.And? || t.Or? {
      var tag := if t.And? then AndTag else OrTag;
      ElementOnto(tag, map[], WriteAll(t.subTerms, first), rest);
      ReadsAll(StartElement(tag, map[]), t.subTerms, first, rest, ok);
    } else if IsWrapper(t) {
      if !t.subTerm.Invalid? { ReadsTerm(t.subTerm, first, Cons(EndElement, rest), ok); }
      ReadsWrapped(t, first, rest, ok);
    } else {
      ReadsLeaf(t, first, rest, ok);
    }
  }

  lemma ReadsLeaf(t: Term, first: set<Uri> -> Uri, rest: Tokens, ok: Flag)
    requires t.Literal? || t.Resource? || t.ResourceType?
    ensures Reads(t, first, rest, ok)
  {
    match t
    case Literal(v) =>
      ElementOnto(LiteralTag, LiteralAttrs(v), Text(LiteralText(v)), rest);
      ReadsText(StartElement(LiteralTag, LiteralAttrs(v)), LiteralText(v), rest);
    case Resource(u) => ElementOnto(ResourceTag, map[UriAttr := u], [], rest);
    case ResourceType(ts) => ElementOnto(TypeTag, map[UriAttr := first(ts)], [], rest);
  }

  lemma ReadsText(start: Token, text: string, rest: Tokens)
    ensures ElementText(Cons(start, Onto(Text(text), Cons(EndElement, rest)))) == (text, Cons(EndElement, rest))
  {
    if text != "" {
      assert Onto([Characters(text)], Cons(EndElement, rest)) == Cons(Characters(text), Cons(EndElement, rest));
      assert ElementText(Cons(Characters(text), Cons(EndElement, rest))) == ("", Cons(EndElement, rest));
      assert text + "" == text;
    }
  }

  lemma ReadsWrapped(t: Term, first: set<Uri> -> Uri, rest: Tokens, ok: Flag)
    requires IsWrapper(t) && (t.subTerm.Invalid? || Reads(t.subTerm, first, Cons(EndElement, rest), ok))
    ensures Reads(t, first, rest, ok)
  {
    var s := t.subTerm;
    var start := StartElement(WrapperTag(t), WrapperAttrs(t));
    var inside := Onto(Write(s, first), Cons(EndElement, rest));
    ElementOnto(WrapperTag(t), WrapperAttrs(t), Write(s, first), rest);
    WrapperComesBack(t, first, ok);
    if s.Invalid? {
      assert NextStart(Cons(start, inside)) == (false, Cons(EndElement, rest));
    } else {
      assert NextStart(Cons(start, inside)) == (true, inside);
      assert NextStart(Cons(EndElement, Cons(EndElement, rest))) == (false, Cons(EndElement, rest));
    }
  }

  lemma WrapperComesBack(t: Term, first: set<Uri> -> Uri, ok: Flag)
    requires IsWrapper(t)
    ensures var s := t.subTerm;
            var (tag, attrs) := (WrapperTag(t), WrapperAttrs(t));
            ComesBack(t, first, ok) ==
            if s.Invalid? && t.Comparison? then Back(WrapRead(tag, attrs, Invalid), SetTo(ok, true))
            else if s.Invalid? then Back(Invalid, SetTo(ok, false))
            else
              var b := ComesBack(s, first, ok);
              if Failed(b.ok) then Back(Invalid, b.ok) else Back(WrapRead(tag, attrs, b.term), b.ok)
  {
    if t.Comparison? {
      ComparisonReadsBack(t, if t.subTerm.Invalid? then Invalid else ComesBack(t.subTerm, first, ok).term);
    }
  }

  ghost predicate ReadsList(before: Token, ts: seq<Term>, first: set<Uri> -> Uri, rest: Tokens, ok: Flag) {
    var l := ParseAll(Cons(before, Onto(WriteAll(ts, first), Cons(EndElement, rest))), ok);
    var b := AllComeBack(ts, first, ok);
    && l.terms == b.terms && l.failed == b.failed && l.ok == b.ok
    && (!b.failed ==> l.left == Cons(EndElement, rest))
  }

  /** The subterms of a group, from whatever token comes before them up to its end tag. */
  lemma {:induction false} ReadsAll(before: Token, ts: seq<Term>, first: set<Uri> -> Uri, rest: Tokens, ok: Flag)
    ensures ReadsList(before, ts, first, rest, ok)
    decreases ts, 0
  {
    if ts == [] {
      assert NextStart(Cons(before, Cons(EndElement, rest))) == (false, Cons(EndElement, rest));
    } else if ts[0].Invalid? {
      assert WriteAll(ts, first) == WriteAll(ts[1..], first);
      ReadsAll(before, ts[1..], first, rest, ok);
    } else {
      var more := Onto(WriteAll(ts[1..], first), Cons(EndElement, rest));
      OntoBoth(Write(ts[0], first), WriteAll(ts[1..], first), Cons(EndElement, rest));
      ReadsTerm(ts[0], first, more, ok);
      assert NextStart(Cons(before, Onto(Write(ts[0], first), more))) == (true, Onto(Write(ts[0], first), more));
      if !Failed(ComesBack(ts[0], first, ok).ok) { ReadsAll(EndElement, ts[1..], first, rest, ComesBack(ts[0], first, ok).ok); }
    }
  }

  // ----- which terms come back -----

  predicate PicksMembers(first: set<Uri> -> Uri, types: set<Uri>) {
    IsFirst(types, first(types))
  }

  /** Exactly the terms that reading gives back, when it starts with the flag `ok`: groups have
      subterms (unless the flag is already set, or there is none), all of them valid enough to be written, negations
      and optional terms are not nested in their like, types are single, and a sort order comes
      with a sort weight. */
  predicate RoundTrips(t: Term, ok: Flag)
    decreases t
  {
    match t
    case Invalid => false
    case Literal(v) => !v.NoLiteral?
    case Resource(_) => true
    case ResourceType(ts) => "" !in ts && |ts| <= 1
    case And(subs) => (subs != [] || !Failed(ok)) && AllRoundTrip(subs, ok)
    case Or(subs) => (subs != [] || !Failed(ok)) && AllRoundTrip(subs, ok)
    case Negation(s) => !s.Negation? && RoundTrips(s, ok)
    case Optional(s) => !s.Optional? && RoundTrips(s, ok)
    case Comparison(s, p, _, _, _, weight, order, _) =>
      p != Some("") && (weight == 0 ==> order == Ascending) && (s.Invalid? || RoundTrips(s, ok))
  }

  predicate AllRoundTrip(ts: seq<Term>, ok: Flag)
    decreases ts
  {
    ts == [] || (RoundTrips(ts[0], ok) && AllRoundTrip(ts[1..], SetTo(ok, true)))
  }

  lemma {:induction false} AllComeBackShape(ts: seq<Term>, first: set<Uri> -> Uri, ok: Flag)
    ensures var l := AllComeBack(ts, first, ok);
            (!l.failed && (!Failed(ok) || l.terms != []) ==> !Failed(l.ok)) && |l.terms| <= |ts|
    decreases ts
  {
    if ts != [] {
      AllComeBackShape(ts[1..], first, if ts[0].Invalid? then ok else ComesBack(ts[0], first, ok).ok);
    }
  }

  /** What comes back is never larger than what was written. */
  lemma {:induction false} ComesBackSmaller(t: Term, first: set<Uri> -> Uri, ok: Flag)
    requires !t.Invalid?
    ensures Size(ComesBack(t, first, ok).term) <= Size(t)
    decreases t, 1
  {
    match t
    case And(subs) => AllComeBackSmaller(subs, first, ok);
    case Or(subs) => AllComeBackSmaller(subs, first, ok);
    case Negation(s) => if !s.Invalid? { ComesBackSmaller(s, first, ok); }
    case Optional(s) => if !s.Invalid? { ComesBackSmaller(s, first, ok); }
    case Comparison(s, _, _, _, _, _, _, _) => if !s.Invalid? { ComesBackSmaller(s, first, ok); }
    case _ =>
  }

  lemma {:induction false} AllComeBackSmaller(ts: seq<Term>, first: set<Uri> -> Uri, ok: Flag)
    ensures SizeAll(AllComeBack(ts, first, ok).terms) <= SizeAll(ts)
    decreases ts, 0
  {
    if ts != [] && ts[0].Invalid? {
      AllComeBackSmaller(ts[1..], first, ok);
    } else if ts != [] {
      ComesBackSmaller(ts[0], first, ok);
      var b := ComesBack(ts[0], first, ok);
      AllComeBackSmaller(ts[1..], first, b.ok);
      if !Failed(b.ok) {
        var l := AllComeBack(ts[1..], first, b.ok);
        assert ([b.term] + l.terms)[1..] == l.terms;
      }
    }
  }

  lemma TypesComeBack(ts: set<Uri>, first: set<Uri> -> Uri)
    requires PicksMembers(first, ts)
    ensures ToTypes(first(ts)) == ts <==> "" !in ts && |ts| <= 1
  {
    var u := first(ts);
    if ts != {} {
      assert |ts - {u}| == |ts| - 1;
      if |ts| <= 1 { assert ts - {u} == {}; }
    }
  }

  /** Reading a written term gives the same term exactly for the terms of RoundTrips. */
  lemma {:induction false} ComesBackExactly(t: Term, first: set<Uri> -> Uri, ok: Flag)
    requires !t.Invalid? && forall ts :: PicksMembers(first, ts)
    ensures ComesBack(t, first, ok) == Back(t, SetTo(ok, true)) <==> RoundTrips(t, ok)
    decreases t, 1
  {
    match t
    case Literal(v) =>
    case Resource(_) =>
    case ResourceType(ts) => TypesComeBack(ts, first);
    case And(subs) => GroupComesBackExactly(true, subs, first, ok);
    case Or(subs) => GroupComesBackExactly(false, subs, first, ok);
    case Negation(s) =>
      if !s.Invalid? {
        ComesBackExactly(s, first, ok);
        ComesBackSmaller(s, first, ok);
      }
    case Optional(s) =>
      if !s.Invalid? {
        ComesBackExactly(s, first, ok);
        ComesBackSmaller(s, first, ok);
      }
    case Comparison(s, _, _, _, _, _, _, _) => if !s.Invalid? { ComesBackExactly(s, first, ok); }
  }

  lemma {:induction false} GroupComesBackExactly(isAnd: bool, subs: seq<Term>, first: set<Uri> -> Uri, ok: Flag)
    requires forall us :: PicksMembers(first, us)
    ensures BackGroup(isAnd, AllComeBack(subs, first, ok)) == Back(MakeGroup(isAnd, subs), SetTo(ok, true))
       <==> (subs != [] || !Failed(ok)) && AllRoundTrip(subs, ok)
    decreases subs, 1
  {
    var l := AllComeBack(subs, first, ok);
    AllComeBackExactly(subs, first, ok);
    AllComeBackShape(subs, first, ok);
    if !Failed(l.ok) { FlagIsSet(l.ok, ok); }
  }

  lemma {:induction false} AllComeBackExactly(ts: seq<Term>, first: set<Uri> -> Uri, ok: Flag)
    requires forall us :: PicksMembers(first, us)
    ensures var l := AllComeBack(ts, first, ok);
            (!l.failed && l.terms == ts) <==> AllRoundTrip(ts, ok)
    decreases ts, 0
  {
    if ts != [] && ts[0].Invalid? { AllComeBackShape(ts[1..], first, ok); }
    if ts != [] && !ts[0].Invalid? {
      ComesBackExactly(ts[0], first, ok);
      var b := ComesBack(ts[0], first, ok);
      AllComeBackExactly(ts[1..], first, b.ok);
      if !Failed(b.ok) {
        FlagIsSet(b.ok, ok);
        var l := AllComeBack(ts[1..], first, b.ok);
        assert ([b.term] + l.terms)[1..] == l.terms && ([b.term] + l.terms)[0] == b.term;
        assert [ts[0]] + ts[1..] == ts;
      }
    }
  }

  // ----- single terms -----

  /** serializeTerm. */
  function WriteTerm(t: Term, first: set<Uri> -> Uri): seq<Token> {
    [StartDocument] + Write(t, first)
  }

  /** parseTerm, which passes no flag. */
  function ParseTermDocument(document: Tokens): Term {
    var (found, next) := NextStart(document);
    if found then ParseTerm(next, None).term else Invalid
  }

  /** Term::fromString after Term::toString gives the same term exactly for the terms that come
      back without a flag, and for the invalid one. */
  lemma TermRoundTrip(t: Term, first: set<Uri> -> Uri)
    requires forall ts :: PicksMembers(first, ts)
    ensures ParseTermDocument(Onto(WriteTerm(t, first), Nil)) == t <==> t.Invalid? || RoundTrips(t, None)
  {
    OntoBoth([StartDocument], Write(t, first), Nil);
    if !t.Invalid? {
      ReadsTerm(t, first, Nil, None);
      ComesBackExactly(t, first, None);
      var tokens := Onto(Write(t, first), Nil);
      assert NextStart(Cons(StartDocument, tokens)) == (true, tokens);
    }
  }
}
