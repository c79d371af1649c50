/** Whole queries written as XML and read back (libnepomukcore/query/queryserializer.cpp:312-468). */
module StoredQueries {
  import opened Counting
  import opened Terms
  import opened Texts
  import opened Xml
  import opened QuerySerializer

  /** The fields of QueryPrivate; the two flags of QueryFlags and the two of FileMode one by one. */
  datatype StoredQuery = StoredQuery(
    term: Term, limit: int, offset: int, scoring: bool, scoringOrder: SortOrder,
    noRestrictions: bool, withExcerpts: bool, requests: seq<RequestProperty>,
    isFile: bool, files: bool, folders: bool, includeFolders: map<Uri, bool>, excludeFolders: seq<Uri>)

  const NEW_QUERY := StoredQuery(Invalid, 0, 0, false, Descending, false, false, [], false, true, true, map[], [])

  // ----- attributes -----

  function FlagNames(noRestrictions: bool, withExcerpts: bool): seq<string> {
    (if noRestrictions then ["NoResultRestrictions"] else []) + (if withExcerpts then ["WithFullTextExcerpt"] else [])
  }

  function QueryAttrs(q: StoredQuery): Attrs {
    var a: Attrs := if q.isFile then map[QueryFilesAttr := BoolText(q.files), QueryFoldersAttr := BoolText(q.folders)] else map[];
    a[Limit := IntText(q.limit)][Offset := IntText(q.offset)][FullTextScoring := BoolText(q.scoring)]
     [FullTextScoringOrder := OrderText(q.scoringOrder)]
     [Flags := JoinBars(FlagNames(q.noRestrictions, q.withExcerpts))]
  }

  function ReadQueryAttributes(attrs: Attrs, q: StoredQuery): StoredQuery {
    q.(limit := if Limit in attrs then IntValue(attrs[Limit]) else q.limit,
       offset := if Offset in attrs then IntValue(attrs[Offset]) else q.offset,
       scoring := if FullTextScoring in attrs then attrs[FullTextScoring] == "true" else q.scoring,
       scoringOrder := if FullTextScoringOrder in attrs then TextOrder(attrs[FullTextScoringOrder]) else q.scoringOrder,
       noRestrictions := if Flags in attrs then "NoResultRestrictions" in SplitBars(attrs[Flags], "") else q.noRestrictions,
       withExcerpts := if Flags in attrs then "WithFullTextExcerpt" in SplitBars(attrs[Flags], "") else q.withExcerpts)
  }

  function ReadFileAttributes(attrs: Attrs, q: StoredQuery): StoredQuery {
    q.(isFile := true, files := Value(attrs, QueryFilesAttr) == "true", folders := Value(attrs, QueryFoldersAttr) == "true")
  }

  // ----- children -----

  function RequestAttrs(r: RequestProperty): Attrs {
    map[UriAttr := if r.property.Some? then r.property.value else "", OptionalAttr := BoolText(r.optional)]
  }

  function ReadRequest(attrs: Attrs): RequestProperty {
    RequestProperty(ToProperty(Value(attrs, UriAttr)), Value(attrs, OptionalAttr) == "true")
  }

  function IncludeAttrs(url: Uri, recursive: bool): Attrs {
    map[Url := url, Include := "true", Recursive := BoolText(recursive)]
  }

  function ExcludeAttrs(url: Uri): Attrs {
    map[Url := url, Include := "false"]
  }

  function AddFolder(attrs: Attrs, q: StoredQuery): StoredQuery {
    if Value(attrs, Include) == "true"
    then q.(includeFolders := q.includeFolders[Value(attrs, Url) := Value(attrs, Recursive) != "false"])
    else q.(excludeFolders := q.excludeFolders + [Value(attrs, Url)])
  }

  function WriteRequests(rs: seq<RequestProperty>): seq<Token> {
    if rs == [] then [] else Element(RequestPropertyTag, RequestAttrs(rs[0]), []) + WriteRequests(rs[1..])
  }

  function WriteIncludes(order: seq<Uri>, included: map<Uri, bool>): seq<Token>
    requires forall u | u in order :: u in included
  {
    if order == [] then []
    else
      assert order[0] in order;
      Element(FolderTag, IncludeAttrs(order[0], included[order[0]]), []) + WriteIncludes(order[1..], included)
  }

  function WriteExcludes(urls: seq<Uri>): seq<Token> {
    if urls == [] then [] else Element(FolderTag, ExcludeAttrs(urls[0]), []) + WriteExcludes(urls[1..])
  }

  predicate IsOrder(order: seq<Uri>, included: map<Uri, bool>) {
    NoRepeats(order) && (forall u | u in order :: u in included) && forall u | u in included :: u in order
  }

  function WriteFolders(q: StoredQuery, order: seq<Uri>): seq<Token>
    requires IsOrder(order, q.includeFolders)
  {
    if q.isFile then WriteIncludes(order, q.includeFolders) + WriteExcludes(q.excludeFolders) else []
  }

  /** serializeQuery. `order` is the order in which the hash of include folders is walked. */
  function WriteQuery(q: StoredQuery, first: set<Uri> -> Uri, order: seq<Uri>): seq<Token>
    requires IsOrder(order, q.includeFolders)
  {
    [StartDocument] + Element(if q.isFile then FileQueryTag else QueryTag, QueryAttrs(q),
      WriteRequests(q.requests) + (WriteFolders(q, order) + Write(q.term, first)))
  }

  /** The loop of parseQuery. */
  function ParseFrom(tokens: Tokens, q: StoredQuery): StoredQuery
    decreases Len(tokens)
  {
    var (found, next) := NextStart(tokens);
    if !found then q
    else
      var attrs := next.head.attrs;
      match next.head.tag
      case QueryTag => ParseFrom(next, ReadQueryAttributes(attrs, q))
      case FileQueryTag => ParseFrom(next, ReadFileAttributes(attrs, ReadQueryAttributes(attrs, q)))
      case RequestPropertyTag => ParseFrom(NextStart(next).1, q.(requests := q.requests + [ReadRequest(attrs)]))
      case FolderTag => if !q.isFile then NEW_QUERY else ParseFrom(NextStart(next).1, AddFolder(attrs, q))
      case _ =>
        var r := ParseTerm(next, Some(false));
        if Failed(r.ok) then q.(term := r.term) else ParseFrom(r.left, q.(term := r.term))
  }

  function ParseQuery(document: Tokens): StoredQuery {
    ParseFrom(document, NEW_QUERY)
  }

  // ----- round trip -----

  /** What the setters of Query and FileQuery can make: file mode and folders belong to file
      queries, and no property has an empty URI. */
  predicate WellFormed(q: StoredQuery) {
    && (!q.isFile ==> q.files && q.folders && q.includeFolders == map[] && q.excludeFolders == [])
    && forall r | r in q.requests :: r.property != Some("")
  }

  lemma FlagsReadBack(noRestrictions: bool, withExcerpts: bool)
    ensures SplitBars(JoinBars(FlagNames(noRestrictions, withExcerpts)), "") == FlagNames(noRestrictions, withExcerpts)
  {
    assert '|' !in "NoResultRestrictions" && '|' !in "WithFullTextExcerpt";
    JoinSplits(FlagNames(noRestrictions, withExcerpts));
  }

  lemma AttrsReadBack(q: StoredQuery)
    ensures ReadQueryAttributes(QueryAttrs(q), NEW_QUERY) ==
            NEW_QUERY.(limit := q.limit, offset := q.offset, scoring := q.scoring, scoringOrder := q.scoringOrder,
                       noRestrictions := q.noRestrictions, withExcerpts := q.withExcerpts)
  {
    IntReadsBack(q.limit);
    IntReadsBack(q.offset);
    FlagsReadBack(q.noRestrictions, q.withExcerpts);
    assert |"NoResultRestrictions"| != |"WithFullTextExcerpt"|;
  }

  /** A child without children: the loop reads it and goes on behind it. */
  lemma ReadsChild(before: Token, tag: Tag, attrs: Attrs, rest: Tokens, q: StoredQuery)
    requires tag == RequestPropertyTag || (tag == FolderTag && q.isFile)
    ensures ParseFrom(Cons(before, Onto(Element(tag, attrs, []), rest)), q) ==
            ParseFrom(Cons(EndElement, rest),
                      if tag == FolderTag then AddFolder(attrs, q) else q.(requests := q.requests + [ReadRequest(attrs)]))
  {
    ElementOnto(tag, attrs, [], rest);
    var tokens := Cons(StartElement(tag, attrs), Cons(EndElement, rest));
    assert NextStart(Cons(before, tokens)) == (true, tokens);
    assert NextStart(tokens) == (false, Cons(EndElement, rest));
  }

  lemma RequestReadsBack(r: RequestProperty)
    requires r.property != Some("")
    ensures ReadRequest(RequestAttrs(r)) == r
  {
  }

  function Requested(q: StoredQuery, rs: seq<RequestProperty>): StoredQuery {
    q.(requests := q.requests + rs)
  }

  lemma RequestedTwice(q: StoredQuery, rs: seq<RequestProperty>)
    requires rs != []
    ensures Requested(Requested(q, [rs[0]]), rs[1..]) == Requested(q, rs)
  {
    assert q.requests + [rs[0]] + rs[1..] == q.requests + rs;
  }

  lemma {:induction false} ReadsRequests(before: Token, rs: seq<RequestProperty>, rest: Tokens, q: StoredQuery)
    requires forall r | r in rs :: r.property != Some("")
    ensures ParseFrom(Cons(before, Onto(WriteRequests(rs), rest)), q) ==
            ParseFrom(Cons(if rs == [] then before else EndElement, rest), Requested(q, rs))
    decreases |rs|
  {
    if rs == [] {
      assert Requested(q, rs) == q by { assert q.requests + rs == q.requests; }
    } else {
      assert rs[0] in rs;
      var more := Onto(WriteRequests(rs[1..]), rest);
      OntoBoth(Element(RequestPropertyTag, RequestAttrs(rs[0]), []), WriteRequests(rs[1..]), rest);
      ReadsChild(before, RequestPropertyTag, RequestAttrs(rs[0]), more, q);
      RequestReadsBack(rs[0]);
      ReadsRequests(EndElement, rs[1..], rest, Requested(q, [rs[0]]));
      RequestedTwice(q, rs);
    }
  }

  function Included(q: StoredQuery, order: seq<Uri>, included: map<Uri, bool>): StoredQuery
    requires forall u | u in order :: u in included
  {
    q.(includeFolders := q.includeFolders + map u | u in order :: included[u])
  }

  lemma MergedTwice(m: map<Uri, bool>, order: seq<Uri>, included: map<Uri, bool>)
    requires order != [] && forall u | u in order :: u in included
    ensures order[0] in included
    ensures m[order[0] := included[order[0]]] + (map u | u in order[1..] :: included[u]) == m + map u | u in order :: included[u]
  {
    assert order[0] in order && forall v :: v in order <==> v == order[0] || v in order[1..];
  }

  lemma FolderReadsBack(q: StoredQuery, u: Uri, recursive: bool)
    ensures AddFolder(IncludeAttrs(u, recursive), q) == q.(includeFolders := q.includeFolders[u := recursive])
  {
  }

  lemma IncludedTwice(q: StoredQuery, order: seq<Uri>, included: map<Uri, bool>)
    requires order != [] && forall u | u in order :: u in included
    ensures order[0] in included
    ensures Included(AddFolder(IncludeAttrs(order[0], included[order[0]]), q), order[1..], included) == Included(q, order, included)
  {
    MergedTwice(q.includeFolders, order, included);
    FolderReadsBack(q, order[0], included[order[0]]);
  }

  lemma {:induction false} ReadsIncludes(before: Token, order: seq<Uri>, included: map<Uri, bool>, rest: Tokens, q: StoredQuery)
    requires q.isFile && forall u | u in order :: u in included
    ensures ParseFrom(Cons(before, Onto(WriteIncludes(order, included), rest)), q) ==
            ParseFrom(Cons(if order == [] then before else EndElement, rest), Included(q, order, included))
    decreases |order|
  {
    if order == [] {
      assert Included(q, order, included) == q by { assert Included(q, order, included).includeFolders == q.includeFolders; }
    } else {
      var u := order[0];
      assert u in order;
      var more := Onto(WriteIncludes(order[1..], included), rest);
      OntoBoth(Element(FolderTag, IncludeAttrs(u, included[u]), []), WriteIncludes(order[1..], included), rest);
      ReadsChild(before, FolderTag, IncludeAttrs(u, included[u]), more, q);
      ReadsIncludes(EndElement, order[1..], included, rest, AddFolder(IncludeAttrs(u, included[u]), q));
      IncludedTwice(q, order, included);
    }
  }

  function Excluded(q: StoredQuery, urls: seq<Uri>): StoredQuery {
    q.(excludeFolders := q.excludeFolders + urls)
  }

  lemma ExcludedTwice(q: StoredQuery, urls: seq<Uri>)
    requires urls != []
    ensures Excluded(AddFolder(ExcludeAttrs(urls[0]), q), urls[1..]) == Excluded(q, urls)
  {
    assert q.excludeFolders + [urls[0]] + urls[1..] == q.excludeFolders + urls;
  }

  lemma {:induction false} ReadsExcludes(before: Token, urls: seq<Uri>, rest: Tokens, q: StoredQuery)
    requires q.isFile
    ensures ParseFrom(Cons(before, Onto(WriteExcludes(urls), rest)), q) ==
            ParseFrom(Cons(if urls == [] then before else EndElement, rest), Excluded(q, urls))
    decreases |urls|
  {
    if urls == [] {
      assert Excluded(q, urls) == q by { assert q.excludeFolders + urls == q.excludeFolders; }
    } else {
      OntoBoth(Element(FolderTag, ExcludeAttrs(urls[0]), []), WriteExcludes(urls[1..]), rest);
      ReadsChild(before, FolderTag, ExcludeAttrs(urls[0]), Onto(WriteExcludes(urls[1..]), rest), q);
      ReadsExcludes(EndElement, urls[1..], rest, AddFolder(ExcludeAttrs(urls[0]), q));
      ExcludedTwice(q, urls);
    }
  }

  /** The term, which is the last child, and the end of the query. */
  lemma ReadsQueryTerm(before: Token, t: Term, first: set<Uri> -> Uri, q: StoredQuery)
    requires q.term == Invalid
    ensures ParseFrom(Cons(before, Onto(Write(t, first), Cons(EndElement, Nil))), q) ==
            q.(term := if t.Invalid? then Invalid else ComesBack(t, first, Some(false)).term)
  {
    var end := Cons(EndElement, Nil);
    if t.Invalid? {
      assert NextStart(Cons(before, end)) == (false, end);
    } else {
      ReadsTerm(t, first, end, Some(false));
      var tokens := Onto(Write(t, first), end);
      assert NextStart(Cons(before, tokens)) == (true, tokens);
      TermTag(t, first, end);
      var q1 := q.(term := ComesBack(t, first, Some(false)).term);
      assert NextStart(Cons(EndElement, end)) == (false, end);
      assert ParseFrom(Cons(EndElement, end), q1) == q1;
    }
  }

  lemma TermTag(t: Term, first: set<Uri> -> Uri, rest: Tokens)
    requires !t.Invalid?
    ensures var tokens := Onto(Write(t, first), rest);
            IsStart(tokens) && tokens.head.tag !in {QueryTag, FileQueryTag, RequestPropertyTag, FolderTag}
  {
    ReadsTerm(t, first, rest, Some(false));
  }

  function StartOf(q: StoredQuery): Token {
    StartElement(if q.isFile then FileQueryTag else QueryTag, QueryAttrs(q))
  }

  lemma DocumentShape(q: StoredQuery, first: set<Uri> -> Uri, order: seq<Uri>)
    requires IsOrder(order, q.includeFolders)
    ensures Onto(WriteQuery(q, first, order), Nil) ==
            Cons(StartDocument, Cons(StartOf(q),
              Onto(WriteRequests(q.requests), Onto(WriteFolders(q, order), Onto(Write(q.term, first), Cons(EndElement, Nil))))))
  {
    var tag := if q.isFile then FileQueryTag else QueryTag;
    var term, folders := Write(q.term, first), WriteFolders(q, order);
    var inside := WriteRequests(q.requests) + (folders + term);
    ElementOnto(tag, QueryAttrs(q), inside, Nil);
    OntoBoth([StartDocument], Element(tag, QueryAttrs(q), inside), Nil);
    OntoBoth(WriteRequests(q.requests), folders + term, Cons(EndElement, Nil));
    OntoBoth(folders, term, Cons(EndElement, Nil));
  }

  /** A query comes back with everything but its term unchanged, and its term as terms come back. */
  lemma QueryComesBack(q: StoredQuery, first: set<Uri> -> Uri, order: seq<Uri>)
    requires WellFormed(q) && IsOrder(order, q.includeFolders)
    ensures ParseQuery(Onto(WriteQuery(q, first, order), Nil)) ==
            q.(term := if q.term.Invalid? then Invalid else ComesBack(q.term, first, Some(false)).term)
  {
    DocumentShape(q, first, order);
    var term := Onto(Write(q.term, first), Cons(EndElement, Nil));
    var folders := Onto(WriteFolders(q, order), term);
    ReadsHead(q, Onto(WriteRequests(q.requests), folders));
    ReadsRequests(StartOf(q), q.requests, folders, HeadOf(q));
    var q1 := Requested(HeadOf(q), q.requests);
    assert q1.requests == q.requests;
    var last := ReadsFolders(q, if q.requests == [] then StartOf(q) else EndElement, order, term, q1);
    ReadsQueryTerm(last, q.term, first, q1.(includeFolders := q.includeFolders, excludeFolders := q.excludeFolders));
  }

  /** The query after its start tag. */
  function HeadOf(q: StoredQuery): StoredQuery {
    q.(term := Invalid, requests := [], includeFolders := map[], excludeFolders := [])
  }

  lemma ReadsHead(q: StoredQuery, rest: Tokens)
    requires WellFormed(q)
    ensures ParseQuery(Cons(StartDocument, Cons(StartOf(q), rest))) == ParseFrom(Cons(StartOf(q), rest), HeadOf(q))
  {
    AttrsReadBack(q);
    assert NextStart(Cons(StartDocument, Cons(StartOf(q), rest))) == (true, Cons(StartOf(q), rest));
  }

  lemma ReadsFolders(q: StoredQuery, before: Token, order: seq<Uri>, rest: Tokens, q1: StoredQuery) returns (last: Token)
    requires WellFormed(q) && IsOrder(order, q.includeFolders)
    requires q1.isFile == q.isFile && q1.includeFolders == map[] && q1.excludeFolders == []
    ensures ParseFrom(Cons(before, Onto(WriteFolders(q, order), rest)), q1) ==
            ParseFrom(Cons(last, rest), q1.(includeFolders := q.includeFolders, excludeFolders := q.excludeFolders))
  {
    last := before;
    if q.isFile {
      OntoBoth(WriteIncludes(order, q.includeFolders), WriteExcludes(q.excludeFolders), rest);
      last := ReadsFileFolders(q, before, order, rest, q1);
    }
  }

  lemma ReadsFileFolders(q: StoredQuery, before: Token, order: seq<Uri>, rest: Tokens, q1: StoredQuery) returns (last: Token)
    requires q1.isFile && q1.includeFolders == map[] && q1.excludeFolders == [] && IsOrder(order, q.includeFolders)
    ensures ParseFrom(Cons(before, Onto(WriteIncludes(order, q.includeFolders), Onto(WriteExcludes(q.excludeFolders), rest))), q1) ==
            ParseFrom(Cons(last, rest), q1.(includeFolders := q.includeFolders, excludeFolders := q.excludeFolders))
  {
    var middle := if order == [] then before else EndElement;
    last := if q.excludeFolders == [] then middle else EndElement;
    ReadsIncludes(before, order, q.includeFolders, Onto(WriteExcludes(q.excludeFolders), rest), q1);
    var q2 := Included(q1, order, q.includeFolders);
    assert q2.includeFolders == q.includeFolders;
    ReadsExcludes(middle, q.excludeFolders, rest, q2);
    assert q2.excludeFolders + q.excludeFolders == q.excludeFolders;
  }

  /** Reading that fails gives the invalid term or an empty group. */
  lemma FailureShape(t: Term, first: set<Uri> -> Uri, ok: Flag)
    requires !t.Invalid? && Failed(ComesBack(t, first, ok).ok)
    ensures ComesBack(t, first, ok).term in {Invalid, And([]), Or([])}
  {
    if t.And? || t.Or? { AllComeBackShape(t.subTerms, first, ok); }
  }

  /** Saving and loading gives the same query exactly when its term is one that comes back, is the
      invalid term that stands for none, or is an empty group, which is read as an error but kept. */
  lemma QueryRoundTrip(q: StoredQuery, first: set<Uri> -> Uri, order: seq<Uri>)
    requires WellFormed(q) && IsOrder(order, q.includeFolders) && forall ts :: PicksMembers(first, ts)
    ensures ParseQuery(Onto(WriteQuery(q, first, order), Nil)) == q <==>
            q.term in {Invalid, And([]), Or([])} || RoundTrips(q.term, Some(false))
  {
    QueryComesBack(q, first, order);
    if !q.term.Invalid? { TermComesBack(q.term, first); }
  }

  lemma TermComesBack(t: Term, first: set<Uri> -> Uri)
    requires !t.Invalid? && forall ts :: PicksMembers(first, ts)
    ensures ComesBack(t, first, Some(false)).term == t <==> t in {And([]), Or([])} || RoundTrips(t, Some(false))
  {
    var b := ComesBack(t, first, Some(false));
    ComesBackExactly(t, first, Some(false));
    if Failed(b.ok) { FailureShape(t, first, Some(false)); } else { FlagIsSet(b.ok, Some(false)); }
    assert AllComeBack([], first, Some(false)) == BackList([], false, Some(false));
  }
}
