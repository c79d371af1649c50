/** Queries read from documents that need not come from the writer
    (libnepomukcore/query/queryserializer.cpp:172-325, 418-468). */
module LoadedQueries {
  import opened Terms
  import opened Xml
  import opened QuerySerializer
  import opened StoredQueries

  /** Every comparison that has no sort weight has the ascending order. */
  predicate SortsStraight(t: Term)
    decreases t
  {
    match t
    case And(subs) => AllStraight(subs)
    case Or(subs) => AllStraight(subs)
    case Negation(s) => SortsStraight(s)
    case Optional(s) => SortsStraight(s)
    case Comparison(s, _, _, _, _, weight, order, _) => (weight == 0 ==> order == Ascending) && SortsStraight(s)
    case _ => true
  }

  predicate AllStraight(ts: seq<Term>)
    decreases ts
  {
    ts == [] || (SortsStraight(ts[0]) && AllStraight(ts[1..]))
  }

  /** The terms that come back when they are saved, but for a sort order without a sort weight. */
  predicate IsShaped(t: Term, ok: Flag)
    decreases t
  {
    match t
    case Invalid => false
    case Literal(v) => !v.NoLiteral?
    case Resource(_) => true
    case ResourceType(ts) => "" !in ts && |ts| <= 1
    case And(subs) => (subs != [] || !Failed(ok)) && AreShaped(subs, ok)
    case Or(subs) => (subs != [] || !Failed(ok)) && AreShaped(subs, ok)
    case Negation(s) => !s.Negation? && IsShaped(s, ok)
    case Optional(s) => !s.Optional? && IsShaped(s, ok)
    case Comparison(s, p, _, _, _, _, _, _) => p != Some("") && (s.Invalid? || IsShaped(s, ok))
  }

  predicate AreShaped(ts: seq<Term>, ok: Flag)
    decreases ts
  {
    ts == [] || (IsShaped(ts[0], ok) && AreShaped(ts[1..], SetTo(ok, true)))
  }

  lemma {:induction false} ShapedRoundTrips(t: Term, ok: Flag)
    requires IsShaped(t, ok)
    ensures RoundTrips(t, ok) <==> SortsStraight(t)
    decreases t, 1
  {
    match t
    case And(subs) => AllShapedRoundTrip(subs, ok);
    case Or(subs) => AllShapedRoundTrip(subs, ok);
    case Negation(s) => ShapedRoundTrips(s, ok);
    case Optional(s) => ShapedRoundTrips(s, ok);
    case Comparison(s, _, _, _, _, _, _, _) => if !s.Invalid? { ShapedRoundTrips(s, ok); }
    case _ =>
  }

  lemma {:induction false} AllShapedRoundTrip(ts: seq<Term>, ok: Flag)
    requires AreShaped(ts, ok)
    ensures AllRoundTrip(ts, ok) <==> AllStraight(ts)
    decreases ts, 0
  {
    if ts != [] {
      ShapedRoundTrips(ts[0], ok);
      AllShapedRoundTrip(ts[1..], SetTo(ok, true));
    }
  }

  // ----- terms -----

  /** What reading gives if the caller asks whether it succeeds: a term of that shape, or one that
      says nothing. */
  predicate IsLoaded(r: Read, ok: Flag) {
    r.ok.Some? && if Failed(r.ok) then r.term in {Invalid, And([]), Or([])} else IsShaped(r.term, ok)
  }

  predicate AreLoaded(l: ReadList, ok: Flag) {
    && l.ok.Some?
    && (l.failed ==> Failed(l.ok))
    && (!l.failed ==> l.ok == (if l.terms == [] then ok else Some(true)) && AreShaped(l.terms, ok))
  }

  lemma {:induction false} LoadsTerm(tokens: Tokens, ok: Flag)
    requires IsStart(tokens) && ok.Some?
    ensures IsLoaded(ParseTerm(tokens, ok), ok)
    decreases Len(tokens), 1
  {
    var tag := tokens.head.tag;
    if tag in {LiteralTag, ResourceTag, TypeTag} {
      LoadsLeaf(tokens, ok);
    } else if tag in {AndTag, OrTag} {
      LoadsAll(tokens, ok);
    } else if tag in {NotTag, OptionalTag, ComparisonTag} {
      var (found, next) := NextStart(tokens);
      if found {
        LoadsTerm(next, ok);
        LoadsAround(tag, tokens.head.attrs, ParseTerm(next, ok), ok);
      }
    }
  }

  lemma LoadsLeaf(tokens: Tokens, ok: Flag)
    requires IsStart(tokens) && ok.Some? && tokens.head.tag in {LiteralTag, ResourceTag, TypeTag}
    ensures IsLoaded(ParseLeaf(tokens, ok), ok)
  {
  }

  lemma LoadsAround(tag: Tag, attrs: Attrs, r: Read, ok: Flag)
    requires tag in {NotTag, OptionalTag, ComparisonTag} && IsLoaded(r, ok)
    ensures IsLoaded(AroundSubTerm(tag, attrs, r), ok)
  {
  }

  lemma {:induction false} LoadsAll(tokens: Tokens, ok: Flag)
    requires ok.Some?
    ensures AreLoaded(ParseAll(tokens, ok), ok)
    decreases Len(tokens), 0
  {
    var (found, next) := NextStart(tokens);
    if found {
      LoadsTerm(next, ok);
      var r := ParseTerm(next, ok);
      if !Failed(r.ok) {
        FlagIsSet(r.ok, ok);
        LoadsAll(r.left, r.ok);
        var l := ParseAll(r.left, r.ok);
        assert ([r.term] + l.terms)[1..] == l.terms;
      }
    }
  }

  // ----- queries -----

  predicate IsLoadedTerm(t: Term) {
    t in {Invalid, And([]), Or([])} || IsShaped(t, Some(false))
  }

  predicate HasLoadedTerm(q: StoredQuery) {
    IsLoadedTerm(q.term)
  }

  lemma TermIsLoaded(tokens: Tokens)
    requires IsStart(tokens)
    ensures IsLoadedTerm(ParseTerm(tokens, Some(false)).term)
  {
    LoadsTerm(tokens, Some(false));
  }

  /** Whatever reading a child keeps. */
  ghost predicate IsInvariant(p: StoredQuery -> bool) {
    && (forall attrs, q | p(q) :: p(ReadQueryAttributes(attrs, q)))
    && (forall attrs, q | p(q) :: p(ReadFileAttributes(attrs, q)))
    && (forall attrs, q | p(q) :: p(AddRequest(attrs, q)))
    && (forall attrs, q | p(q) && q.isFile :: p(AddFolder(attrs, q)))
    && (forall tokens, q | p(q) && IsStart(tokens) :: p(WithTerm(tokens, q)))
    && p(NEW_QUERY)
  }

  function AddRequest(attrs: Attrs, q: StoredQuery): StoredQuery {
    q.(requests := q.requests + [ReadRequest(attrs)])
  }

  function WithTerm(tokens: Tokens, q: StoredQuery): StoredQuery
    requires IsStart(tokens)
  {
    q.(term := ParseTerm(tokens, Some(false)).term)
  }

  lemma {:induction false} LoadsInvariant(tokens: Tokens, q: StoredQuery, p: StoredQuery -> bool)
    requires IsInvariant(p) && p(q)
    ensures p(ParseFrom(tokens, q))
    decreases Len(tokens)
  {
    var (found, next) := NextStart(tokens);
    if found {
      var attrs := next.head.attrs;
      if next.head.tag == QueryTag {
        LoadsInvariant(next, ReadQueryAttributes(attrs, q), p);
      } else if next.head.tag == FileQueryTag {
        LoadsInvariant(next, ReadFileAttributes(attrs, ReadQueryAttributes(attrs, q)), p);
      } else if next.head.tag == RequestPropertyTag {
        LoadsInvariant(NextStart(next).1, AddRequest(attrs, q), p);
      } else if next.head.tag == FolderTag {
        if q.isFile { LoadsInvariant(NextStart(next).1, AddFolder(attrs, q), p); }
      } else {
        var r := ParseTerm(next, Some(false));
        assert p(WithTerm(next, q));
        if !Failed(r.ok) { LoadsInvariant(r.left, WithTerm(next, q), p); }
      }
    }
  }

  lemma WellFormedIsInvariant()
    ensures IsInvariant(WellFormed)
  {
  }

  lemma LoadedTermIsInvariant()
    ensures IsInvariant(HasLoadedTerm)
  {
    forall tokens | IsStart(tokens) ensures IsLoadedTerm(ParseTerm(tokens, Some(false)).term) { TermIsLoaded(tokens); }
  }

  /** Whatever document a query is loaded from, it is a proper one, and saving and loading it again
      gives the same query exactly if no comparison has a descending order without a sort weight. */
  lemma SavingKeepsExactly(document: Tokens, first: set<Uri> -> Uri, order: seq<Uri>)
    requires IsOrder(order, ParseQuery(document).includeFolders) && forall ts :: PicksMembers(first, ts)
    ensures var q := ParseQuery(document);
            && WellFormed(q)
            && (ParseQuery(Onto(WriteQuery(q, first, order), Nil)) == q <==> SortsStraight(q.term))
  {
    WellFormedIsInvariant();
    LoadsInvariant(document, NEW_QUERY, WellFormed);
    LoadedTermIsInvariant();
    LoadsInvariant(document, NEW_QUERY, HasLoadedTerm);
    var q := ParseQuery(document);
    QueryRoundTrip(q, first, order);
    if IsShaped(q.term, Some(false)) { ShapedRoundTrips(q.term, Some(false)); }
  }

  // ----- what a document leaves out -----

  /** A comparison is read as a new one, and a query is left as it is, but for what the document says. */
  lemma LeftOutIsDefault(attrs: Attrs, sub: Term, q: StoredQuery)
    ensures var c := ReadComparison(attrs, sub);
            && (Property !in attrs ==> c.property == None) && (VarName !in attrs ==> c.variableName == "")
            && (ComparatorAttr !in attrs ==> c.comparator == Contains)
            && (Aggregate !in attrs ==> c.aggregate == NoAggregateFunction)
            && (SortWeight !in attrs ==> c.sortWeight == 0 && c.sortOrder == Ascending)
            && (Inverted !in attrs ==> !c.inverted)
    ensures var r := ReadQueryAttributes(attrs, q);
            && (Limit !in attrs ==> r.limit == q.limit) && (Offset !in attrs ==> r.offset == q.offset)
            && (FullTextScoring !in attrs ==> r.scoring == q.scoring)
            && (FullTextScoringOrder !in attrs ==> r.scoringOrder == q.scoringOrder)
            && (Flags !in attrs ==> r.noRestrictions == q.noRestrictions && r.withExcerpts == q.withExcerpts)
    ensures Include in attrs && attrs[Include] == "true" && Recursive !in attrs ==>
              AddFolder(attrs, q) == q.(includeFolders := q.includeFolders[Value(attrs, Url) := true])
    ensures Include !in attrs ==> AddFolder(attrs, q) == q.(excludeFolders := q.excludeFolders + [Value(attrs, Url)])
  {
  }

  /** A text that names nothing is read as the default, too. */
  lemma UnknownIsDefault(text: string)
    ensures var c := StringToComparator(text); c == Contains || text == ComparatorToString(c)
    ensures var a := StringToAggregate(text); a == NoAggregateFunction || text == AggregateToString(a)
    ensures var o := TextOrder(text); o == Ascending || text == OrderText(o)
  {
  }
}
