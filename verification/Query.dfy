/** Query::toSparqlQuery (libnepomukcore/query/query.cpp:409-541) up to the text of the query: the
    term that is built from a query, optimized twice and compiled, and the resources it returns. */
module Query {
  import opened Terms
  import opened Denotation
  import opened OptimizerSoundness
  import opened Texts
  import FullText

  datatype FileMode = QueryFiles | QueryFolders | QueryFilesAndFolders

  datatype Folder = Folder(url: string, recursive: bool)

  /** The folders come in the order in which their hash and list are walked, as texts of URLs. */
  datatype FileRestriction = FileRestriction(mode: FileMode, included: seq<Folder>, excluded: seq<string>)

  datatype Query = Query(term: Term, requestProperties: seq<RequestProperty>, file: Option<FileRestriction>)

  const FILE_DATA_OBJECT: Uri := "http://www.semanticdesktop.org/ontologies/2007/03/22/nfo#FileDataObject"
  const FOLDER: Uri := "http://www.semanticdesktop.org/ontologies/2007/03/22/nfo#Folder"
  const NIE_URL: Uri := "http://www.semanticdesktop.org/ontologies/2007/01/19/nie#url"
  const XSD_STRING: Uri := "http://www.w3.org/2001/XMLSchema#string"

  // ----- building the term -----

  function UrlMatches(regex: string): Term {
    Comparison(Literal(TypedLiteral(regex, XSD_STRING)), Some(NIE_URL), Regexp, "", NoAggregateFunction, 0, Ascending, false)
  }

  function IncludePattern(f: Folder): string {
    "(^" + f.url + if f.recursive then ")" else "[^/]*$)"
  }

  function IncludePatterns(fs: seq<Folder>): (r: seq<string>)
    ensures forall p :: p in r <==> exists f | f in fs :: p == IncludePattern(f)
  {
    if fs == [] then []
    else
      assert forall f :: f in fs <==> f == fs[0] || f in fs[1..];
      [IncludePattern(fs[0])] + IncludePatterns(fs[1..])
  }

  function ExcludePattern(urls: string): string {
    "^(" + urls + ")"
  }

  /** QueryPrivate::createFolderFilter */
  function FolderFilter(f: FileRestriction): Term {
    var main := if f.included != [] then AndTerms(Invalid, UrlMatches(JoinBars(IncludePatterns(f.included)))) else Invalid;
    if f.excluded != [] then AndTerms(main, NegateTerm(UrlMatches(ExcludePattern(JoinBars(f.excluded))))) else main
  }

  function FileModeTerm(mode: FileMode): Term {
    match mode
    case QueryFiles => And([ResourceType({FILE_DATA_OBJECT}), NegateTerm(ResourceType({FOLDER}))])
    case QueryFolders => ResourceType({FOLDER})
    case QueryFilesAndFolders => ResourceType({FILE_DATA_OBJECT})
  }

  function FileTerms(f: FileRestriction): seq<Term> {
    [FileModeTerm(f.mode)] + if IsValid(FolderFilter(f)) then [FolderFilter(f)] else []
  }

  function Restricted(q: Query): Term {
    if q.file.None? then q.term else And([q.term] + FileTerms(q.file.value))
  }

  function RequestName(i: nat): string {
    "reqProp" + NatText(i + 1)
  }

  function RequestTerm(rp: RequestProperty, i: nat): Term {
    Comparison(Invalid, rp.property, Contains, RequestName(i), NoAggregateFunction, 0, Ascending, false)
  }

  function Request(rp: RequestProperty, i: nat): Term {
    if rp.optional then OptionalizeTerm(RequestTerm(rp, i)) else RequestTerm(rp, i)
  }

  predicate IsLeftOut(rp: RequestProperty, askOrCount: bool) {
    rp.optional && askOrCount
  }

  /** The loop over the request properties; optional ones are left out of ask and count queries. */
  function WithRequests(t: Term, rps: seq<RequestProperty>, i: nat, askOrCount: bool): Term
    requires i <= |rps|
    decreases |rps| - i
  {
    if i == |rps| then t
    else
      WithRequests(if IsLeftOut(rps[i], askOrCount) then t else AndTerms(t, Request(rps[i], i)), rps, i + 1, askOrCount)
  }

  function BuiltTerm(q: Query, askOrCount: bool): Term {
    WithRequests(Restricted(q), q.requestProperties, 0, askOrCount)
  }

  method BuildTerm(q: Query, askOrCount: bool) returns (t: Term)
    ensures t == BuiltTerm(q, askOrCount)
  {
    t := Restricted(q);
    for i := 0 to |q.requestProperties|
      invariant WithRequests(t, q.requestProperties, i, askOrCount) == BuiltTerm(q, askOrCount)
    {
      var rp := q.requestProperties[i];
      if rp.optional && !askOrCount {
        t := AndTerms(t, OptionalizeTerm(RequestTerm(rp, i)));
      } else if !rp.optional {
        t := AndTerms(t, RequestTerm(rp, i));
      }
    }
  }

  // ----- what the operators mean -----

  /** operator&& and operator|| take the subterms of a group of their own kind, and any other term
      only if it is valid as a whole. */
  predicate Taken(isAnd: bool, t: Term) {
    (if isAnd then t.And? else t.Or?) || IsValid(t)
  }

  lemma OperandsSay(isAnd: bool, t: Term, w: World, r: Node)
    ensures (exists s | s in Operands(isAnd, t) :: Says(s)) <==> Taken(isAnd, t) && Says(t)
    ensures GroupMeans(isAnd, Operands(isAnd, t), w, r)
         == if Taken(isAnd, t) && Says(t) then Matches(t, w, r) else isAnd
  {
    var ts := Operands(isAnd, t);
    if (if isAnd then t.And? else t.Or?) {
      assert ts == t.subTerms;
    } else if IsValid(t) {
      ValidSays(t);
      assert t in ts && forall s | s in ts :: s == t;
    }
  }

  lemma CollapseMeans(isAnd: bool, ts: seq<Term>, w: World, r: Node)
    ensures Says(Collapse(isAnd, ts)) <==> exists s | s in ts :: Says(s)
    ensures GroupMeans(isAnd, ts, w, r)
         == if Says(Collapse(isAnd, ts)) then Matches(Collapse(isAnd, ts), w, r) else isAnd
  {
    if |ts| == 1 {
      assert ts[0] in ts && forall s | s in ts :: s == ts[0];
    }
  }

  lemma OperatorMeans(isAnd: bool, a: Term, b: Term, w: World, r: Node)
    ensures var t := Collapse(isAnd, Operands(isAnd, a) + Operands(isAnd, b));
            && (Says(t) <==> (Taken(isAnd, a) && Says(a)) || (Taken(isAnd, b) && Says(b)))
            && (if Says(t) then Matches(t, w, r) else isAnd)
               == Both(isAnd, if Taken(isAnd, a) && Says(a) then Matches(a, w, r) else isAnd,
                              if Taken(isAnd, b) && Says(b) then Matches(b, w, r) else isAnd)
  {
    var xs, ys := Operands(isAnd, a), Operands(isAnd, b);
    OperandsSay(isAnd, a, w, r);
    OperandsSay(isAnd, b, w, r);
    GroupMeansConcat(isAnd, xs, ys, w, r);
    CollapseMeans(isAnd, xs + ys, w, r);
    assert forall s :: s in xs + ys <==> s in xs || s in ys;
  }

  /** `&&` asks for both operands; one that says nothing, or that is neither a conjunction nor valid,
      is dropped. */
  lemma AndTermsMeans(w: World, a: Term, b: Term, r: Node)
    ensures Says(AndTerms(a, b)) <==> (Taken(true, a) && Says(a)) || (Taken(true, b) && Says(b))
    ensures Says(AndTerms(a, b)) ==>
              (Matches(AndTerms(a, b), w, r) <==>
                 (Taken(true, a) && Says(a) ==> Matches(a, w, r)) && (Taken(true, b) && Says(b) ==> Matches(b, w, r)))
  {
    OperatorMeans(true, a, b, w, r);
  }

  /** `||` likewise asks for one of them. */
  lemma OrTermsMeans(w: World, a: Term, b: Term, r: Node)
    ensures Says(OrTerms(a, b)) <==> (Taken(false, a) && Says(a)) || (Taken(false, b) && Says(b))
    ensures Says(OrTerms(a, b)) ==>
              (Matches(OrTerms(a, b), w, r) <==>
                 (Taken(false, a) && Says(a) && Matches(a, w, r)) || (Taken(false, b) && Says(b) && Matches(b, w, r)))
  {
    OperatorMeans(false, a, b, w, r);
  }

  // ----- the built term as a list of conjuncts -----

  function Requests(rps: seq<RequestProperty>, i: nat, askOrCount: bool): seq<Term>
    requires i <= |rps|
    decreases |rps| - i
  {
    if i == |rps| then []
    else
      (if IsLeftOut(rps[i], askOrCount) then [] else [Request(rps[i], i)]) + Requests(rps, i + 1, askOrCount)
  }

  /** The query's own term, then the file restriction, then the request properties. */
  function Conjuncts(q: Query, askOrCount: bool): seq<Term> {
    Operands(true, Restricted(q)) + Requests(q.requestProperties, 0, askOrCount)
  }

  lemma ConjunctAdded(t: Term, x: Term)
    requires IsValid(x) && !x.And?
    ensures Operands(true, AndTerms(t, x)) == Operands(true, t) + [x] && Taken(true, AndTerms(t, x))
  {
    var ts := Operands(true, t) + [x];
    assert ts[|ts| - 1] == x;
    if |ts| == 1 { assert ts == [x]; }
  }

  lemma {:induction false} RequestsAdded(t: Term, rps: seq<RequestProperty>, i: nat, askOrCount: bool)
    requires i <= |rps|
    ensures Operands(true, WithRequests(t, rps, i, askOrCount)) == Operands(true, t) + Requests(rps, i, askOrCount)
    ensures Requests(rps, i, askOrCount) == [] ==> WithRequests(t, rps, i, askOrCount) == t
    decreases |rps| - i
  {
    if i < |rps| {
      var x, rest := Request(rps[i], i), Requests(rps, i + 1, askOrCount);
      if IsLeftOut(rps[i], askOrCount) {
        RequestsAdded(t, rps, i + 1, askOrCount);
        assert [] + rest == rest;
      } else {
        ConjunctAdded(t, x);
        RequestsAdded(AndTerms(t, x), rps, i + 1, askOrCount);
        Regroup(Operands(true, t), x, rest);
      }
    }
  }

  lemma Regroup(ts: seq<Term>, x: Term, rest: seq<Term>)
    ensures (ts + [x]) + rest == ts + ([x] + rest)
  {
  }

  /** No comparison in it sorts the results. */
  predicate IsUnsorted(t: Term)
    decreases t
  {
    match t
    case And(subs) => forall s | s in subs :: IsUnsorted(s)
    case Or(subs) => forall s | s in subs :: IsUnsorted(s)
    case Negation(s) => IsUnsorted(s)
    case Optional(s) => IsUnsorted(s)
    case Comparison(s, _, _, _, _, weight, _, _) => weight == 0 && IsUnsorted(s)
    case _ => true
  }

  lemma {:induction false} RequestsAreUnsorted(rps: seq<RequestProperty>, i: nat, askOrCount: bool)
    requires i <= |rps|
    ensures forall x | x in Requests(rps, i, askOrCount) :: IsUnsorted(x)
    decreases |rps| - i
  {
    if i < |rps| {
      RequestsAreUnsorted(rps, i + 1, askOrCount);
      assert IsUnsorted(RequestTerm(rps[i], i));
      assert IsUnsorted(Request(rps[i], i));
    }
  }

  lemma OperatorKeepsUnsorted(a: Term, b: Term)
    requires IsUnsorted(a) && IsUnsorted(b)
    ensures IsUnsorted(AndTerms(a, b))
  {
    var ts := Operands(true, a) + Operands(true, b);
    forall t | t in ts ensures IsUnsorted(t) {}
    if |ts| == 1 { assert ts[0] in ts; }
  }

  lemma UrlMatchesIsUnsorted(regex: string)
    ensures IsUnsorted(UrlMatches(regex)) && IsUnsorted(NegateTerm(UrlMatches(regex)))
  {
    assert IsUnsorted(UrlMatches(regex));
  }

  lemma FileTermsAreUnsorted(f: FileRestriction)
    ensures forall x | x in FileTerms(f) :: IsUnsorted(x)
  {
    var included, excluded := JoinBars(IncludePatterns(f.included)), ExcludePattern(JoinBars(f.excluded));
    UrlMatchesIsUnsorted(included);
    UrlMatchesIsUnsorted(excluded);
    OperatorKeepsUnsorted(Invalid, UrlMatches(included));
    var main := if f.included != [] then AndTerms(Invalid, UrlMatches(included)) else Invalid;
    OperatorKeepsUnsorted(main, NegateTerm(UrlMatches(excluded)));
    var kind := ResourceType({FOLDER});
    assert IsUnsorted(kind) && IsUnsorted(NegateTerm(kind));
  }

  /** Only the query's own term has a say in the order of the results. */
  lemma OnlyOwnTermSorts(q: Query, askOrCount: bool)
    requires IsUnsorted(q.term)
    ensures forall x | x in Conjuncts(q, askOrCount) :: IsUnsorted(x)
  {
    RequestsAreUnsorted(q.requestProperties, 0, askOrCount);
    if q.file.Some? { FileTermsAreUnsorted(q.file.value); }
  }

  /** What a file query adds: the wanted kinds of file, and the folders. */
  ghost predicate IsWantedFile(w: World, f: FileRestriction, r: Node) {
    && (match f.mode
        case QueryFiles => HasType(w, r, FILE_DATA_OBJECT) && !HasType(w, r, FOLDER)
        case QueryFolders => HasType(w, r, FOLDER)
        case QueryFilesAndFolders => HasType(w, r, FILE_DATA_OBJECT))
    && (f.included != [] ==> exists d | d in f.included :: UrlFits(w, r, IncludePattern(d)))
    && !exists url | url in f.excluded :: UrlFits(w, r, ExcludePattern(url))
  }

  ghost predicate HasType(w: World, r: Node, ty: Uri) {
    Triple(r, RDF_TYPE, UriNode(ty)) in w.store
  }

  /** A URL of the resource matches the regular expression. */
  ghost predicate UrlFits(w: World, r: Node, regex: string) {
    exists v :: Linked(w, r, Some(NIE_URL), v) && w.engine.regexText(regex, v)
  }

  /** The store reads the joined regular expressions of these folders as alternatives. */
  ghost predicate FoldersRead(w: World, f: FileRestriction) {
    && (f.included != [] ==> forall n ::
          w.engine.regexText(JoinBars(IncludePatterns(f.included)), n)
          <==> exists d | d in f.included :: w.engine.regexText(IncludePattern(d), n))
    && (f.excluded != [] ==> forall n ::
          w.engine.regexText(ExcludePattern(JoinBars(f.excluded)), n)
          <==> exists u | u in f.excluded :: w.engine.regexText(ExcludePattern(u), n))
  }

  lemma UrlMatchesMeans(w: World, regex: string, r: Node)
    ensures IsValid(UrlMatches(regex)) && Says(UrlMatches(regex))
    ensures Matches(UrlMatches(regex), w, r) <==> UrlFits(w, r, regex)
  {
    var l := TypedLiteral(regex, XSD_STRING);
    assert forall v :: ValueMatches(w, Regexp, l, v) == w.engine.regexText(regex, v);
  }

  lemma IncludedMean(w: World, f: FileRestriction, r: Node)
    requires FoldersRead(w, f) && f.included != []
    ensures UrlFits(w, r, JoinBars(IncludePatterns(f.included)))
       <==> exists d | d in f.included :: UrlFits(w, r, IncludePattern(d))
  {
    if v :| Linked(w, r, Some(NIE_URL), v) && w.engine.regexText(JoinBars(IncludePatterns(f.included)), v) {
      var d :| d in f.included && w.engine.regexText(IncludePattern(d), v);
      assert UrlFits(w, r, IncludePattern(d));
    }
    if d :| d in f.included && UrlFits(w, r, IncludePattern(d)) {
      var v :| Linked(w, r, Some(NIE_URL), v) && w.engine.regexText(IncludePattern(d), v);
    }
  }

  lemma ExcludedMean(w: World, f: FileRestriction, r: Node)
    requires FoldersRead(w, f) && f.excluded != []
    ensures UrlFits(w, r, ExcludePattern(JoinBars(f.excluded)))
       <==> exists u | u in f.excluded :: UrlFits(w, r, ExcludePattern(u))
  {
    if v :| Linked(w, r, Some(NIE_URL), v) && w.engine.regexText(ExcludePattern(JoinBars(f.excluded)), v) {
      var u :| u in f.excluded && w.engine.regexText(ExcludePattern(u), v);
      assert UrlFits(w, r, ExcludePattern(u));
    }
    if u :| u in f.excluded && UrlFits(w, r, ExcludePattern(u)) {
      var v :| Linked(w, r, Some(NIE_URL), v) && w.engine.regexText(ExcludePattern(u), v);
    }
  }

  /** The folder filter asks for a URL in an included folder, if there are any, and for none in an
      excluded one; without folders it is invalid. */
  lemma FolderFilterMeans(w: World, f: FileRestriction, r: Node)
    requires FoldersRead(w, f)
    ensures var filter := FolderFilter(f);
            && (IsValid(filter) <==> f.included != [] || f.excluded != []) && IsValid(filter) == Says(filter)
            && (IsValid(filter) ==> (Matches(filter, w, r) <==>
                  (f.included != [] ==> exists d | d in f.included :: UrlFits(w, r, IncludePattern(d)))
                  && !exists url | url in f.excluded :: UrlFits(w, r, ExcludePattern(url))))
  {
    var included := IncludedTerm(f);
    var excluded := Negation(UrlMatches(ExcludePattern(JoinBars(f.excluded))));
    UrlMatchesMeans(w, ExcludePattern(JoinBars(f.excluded)), r);
    IncludedTermMeans(w, f, r);
    if f.excluded != [] {
      ExcludedMean(w, f, r);
      AndTermsMeans(w, included, excluded, r);
    }
  }

  /** The folder filter without the excluded folders. */
  function IncludedTerm(f: FileRestriction): Term {
    if f.included != [] then UrlMatches(JoinBars(IncludePatterns(f.included))) else Invalid
  }

  lemma IncludedTermMeans(w: World, f: FileRestriction, r: Node)
    requires FoldersRead(w, f)
    ensures f.included != [] ==> AndTerms(Invalid, IncludedTerm(f)) == IncludedTerm(f)
    ensures IsValid(IncludedTerm(f)) == Says(IncludedTerm(f)) == (f.included != [])
    ensures f.included != [] ==>
              (Matches(IncludedTerm(f), w, r) <==> exists d | d in f.included :: UrlFits(w, r, IncludePattern(d)))
  {
    if f.included != [] {
      UrlMatchesMeans(w, JoinBars(IncludePatterns(f.included)), r);
      IncludedMean(w, f, r);
      assert [] + [IncludedTerm(f)] == [IncludedTerm(f)];
    }
  }

  // ----- which URLs that is -----

  /** STR() of a node */
  function StrOf(n: Node): string {
    match n
    case UriNode(u) => u
    case LitNode(v) => LiteralText(v)
  }

  /** The text begins with the URL, in upper or lower case. */
  predicate Begins(text: string, url: string) {
    FullText.Lower(url) <= FullText.Lower(text)
  }

  /** In the folder or, if that is recursive, anywhere below it. */
  predicate LiesIn(text: string, f: Folder) {
    Begins(text, f.url) && (f.recursive || forall i | |f.url| <= i < |text| :: text[i] != '/')
  }

  /** The store reads the URLs of these folders literally, and the rest of the patterns as regular
      expressions that ignore case. */
  ghost predicate FoldersReadLiterally(w: World, f: FileRestriction) {
    && (forall d, n | d in f.included && d.recursive ::
          w.engine.regexText("(^" + d.url + ")", n) <==> Begins(StrOf(n), d.url))
    && (forall d, n | d in f.included && !d.recursive ::
          w.engine.regexText("(^" + d.url + "[^/]*$)", n)
          <==> Begins(StrOf(n), d.url) && forall i | |d.url| <= i < |StrOf(n)| :: StrOf(n)[i] != '/')
    && (forall u, n | u in f.excluded :: w.engine.regexText("^(" + u + ")", n) <==> Begins(StrOf(n), u))
  }

  /** Then the folder filter admits what has a URL in an included folder, if there are any, and none
      in or below an excluded one. */
  lemma FolderFilterAdmits(w: World, f: FileRestriction, r: Node)
    requires FoldersRead(w, f) && FoldersReadLiterally(w, f) && (f.included != [] || f.excluded != [])
    ensures Matches(FolderFilter(f), w, r) <==>
            && (f.included != [] ==> exists d, v | d in f.included :: Linked(w, r, Some(NIE_URL), v) && LiesIn(StrOf(v), d))
            && !exists u, v | u in f.excluded :: Linked(w, r, Some(NIE_URL), v) && Begins(StrOf(v), u)
  {
    FolderFilterMeans(w, f, r);
    forall d | d in f.included
      ensures UrlFits(w, r, IncludePattern(d)) <==> exists v :: Linked(w, r, Some(NIE_URL), v) && LiesIn(StrOf(v), d)
    {
      assert IncludePattern(d) == if d.recursive then "(^" + d.url + ")" else "(^" + d.url + "[^/]*$)";
      forall v ensures w.engine.regexText(IncludePattern(d), v) <==> LiesIn(StrOf(v), d) {}
    }
    forall u | u in f.excluded
      ensures UrlFits(w, r, ExcludePattern(u)) <==> exists v :: Linked(w, r, Some(NIE_URL), v) && Begins(StrOf(v), u)
    {
    }
  }

  lemma FileModeMeans(w: World, mode: FileMode, r: Node)
    ensures IsValid(FileModeTerm(mode)) && Says(FileModeTerm(mode))
    ensures Matches(FileModeTerm(mode), w, r) <==>
      match mode
      case QueryFiles => HasType(w, r, FILE_DATA_OBJECT) && !HasType(w, r, FOLDER)
      case QueryFolders => HasType(w, r, FOLDER)
      case QueryFilesAndFolders => HasType(w, r, FILE_DATA_OBJECT)
  {
    var file, folder := ResourceType({FILE_DATA_OBJECT}), ResourceType({FOLDER});
    assert Matches(file, w, r) <==> HasType(w, r, FILE_DATA_OBJECT);
    assert Matches(folder, w, r) <==> HasType(w, r, FOLDER);
    ValidSays(FileModeTerm(mode));
    if mode == QueryFiles {
      var subs := [file, Negation(folder)];
      assert IsValid(file) && Says(file) && IsValid(folder) && Says(Negation(folder));
      assert file in subs && Negation(folder) in subs && forall s | s in subs :: s == file || s == Negation(folder);
      assert Matches(And(subs), w, r) <==> Matches(file, w, r) && Matches(Negation(folder), w, r);
    }
  }

  lemma FileTermsMean(w: World, f: FileRestriction, r: Node)
    requires FoldersRead(w, f)
    ensures GroupMeans(true, FileTerms(f), w, r) <==> IsWantedFile(w, f, r)
  {
    var mode, filter := FileModeTerm(f.mode), FolderFilter(f);
    FileModeMeans(w, f.mode, r);
    FolderFilterMeans(w, f, r);
    var tail := if IsValid(filter) then [filter] else [];
    GroupMeansConcat(true, [mode], tail, w, r);
    assert mode in [mode] && GroupMeans(true, [mode], w, r) == Matches(mode, w, r);
    if IsValid(filter) { assert filter in [filter] && GroupMeans(true, [filter], w, r) == Matches(filter, w, r); }
  }

  ghost predicate HasRequested(w: World, rps: seq<RequestProperty>, i: nat, r: Node)
    requires i <= |rps|
  {
    forall k | i <= k < |rps| && !rps[k].optional :: exists v :: Linked(w, r, rps[k].property, v)
  }

  lemma RequestMeans(w: World, rp: RequestProperty, i: nat, r: Node)
    ensures Says(Request(rp, i))
    ensures Matches(Request(rp, i), w, r) <==> rp.optional || exists v :: Linked(w, r, rp.property, v)
  {
    assert forall v :: LinkedEitherWay(w, false, r, rp.property, v) == Linked(w, r, rp.property, v);
  }

  lemma {:induction false} RequestsMean(w: World, rps: seq<RequestProperty>, i: nat, askOrCount: bool, r: Node)
    requires i <= |rps|
    ensures GroupMeans(true, Requests(rps, i, askOrCount), w, r) <==> HasRequested(w, rps, i, r)
    decreases |rps| - i
  {
    if i < |rps| {
      RequestsMean(w, rps, i + 1, askOrCount, r);
      var x, rest := Request(rps[i], i), Requests(rps, i + 1, askOrCount);
      RequestMeans(w, rps[i], i, r);
      RequestedStep(w, rps, i, r);
      if IsLeftOut(rps[i], askOrCount) { assert [] + rest == rest; } else { OneMoreMeans(w, x, rest, r); }
    }
  }

  lemma RequestedStep(w: World, rps: seq<RequestProperty>, i: nat, r: Node)
    requires i < |rps|
    ensures HasRequested(w, rps, i, r) <==>
            (rps[i].optional || exists v :: Linked(w, r, rps[i].property, v)) && HasRequested(w, rps, i + 1, r)
  {
  }

  lemma OneMoreMeans(w: World, x: Term, rest: seq<Term>, r: Node)
    requires Says(x)
    ensures GroupMeans(true, [x] + rest, w, r) <==> Matches(x, w, r) && GroupMeans(true, rest, w, r)
  {
    GroupMeansConcat(true, [x], rest, w, r);
    assert x in [x] && forall s | s in [x] :: s == x;
  }

  /** The query's own term has a part in the built term: `&&` drops one that is neither a conjunction
      nor valid, although it may say something. */
  predicate Counts(q: Query, askOrCount: bool) {
    q.file.Some? || Requests(q.requestProperties, 0, askOrCount) == [] || Taken(true, q.term)
  }

  /** What a query asks for. */
  ghost predicate Wanted(w: World, q: Query, askOrCount: bool, r: Node) {
    && (Counts(q, askOrCount) && Says(q.term) ==> Matches(q.term, w, r))
    && (q.file.Some? ==> IsWantedFile(w, q.file.value, r))
    && HasRequested(w, q.requestProperties, 0, r)
  }

  lemma ConjunctsMean(w: World, q: Query, askOrCount: bool, r: Node)
    requires q.file.Some? ==> FoldersRead(w, q.file.value)
    requires q.file.Some? || Requests(q.requestProperties, 0, askOrCount) != [] || Taken(true, q.term)
    ensures GroupMeans(true, Conjuncts(q, askOrCount), w, r) <==> Wanted(w, q, askOrCount, r)
  {
    RequestsMean(w, q.requestProperties, 0, askOrCount, r);
    GroupMeansConcat(true, Operands(true, Restricted(q)), Requests(q.requestProperties, 0, askOrCount), w, r);
    if q.file.Some? {
      FileTermsMean(w, q.file.value, r);
      GroupMeansConcat(true, [q.term], FileTerms(q.file.value), w, r);
      assert q.term in [q.term] && (GroupMeans(true, [q.term], w, r) <==> (Says(q.term) ==> Matches(q.term, w, r)));
    } else {
      OperandsSay(true, q.term, w, r);
    }
  }

  /** A resource matches the built term exactly when it matches the query's own term, is a file of
      the wanted kind in the wanted folders, and has a value for every mandatory request property.
      Optional request properties make no difference, so dropping them is justified. */
  lemma BuiltTermMeans(w: World, q: Query, askOrCount: bool, r: Node)
    requires (q.file.Some? ==> FoldersRead(w, q.file.value)) && Says(BuiltTerm(q, askOrCount))
    ensures Matches(BuiltTerm(q, askOrCount), w, r) <==> Wanted(w, q, askOrCount, r)
  {
    var built := BuiltTerm(q, askOrCount);
    RequestsAdded(Restricted(q), q.requestProperties, 0, askOrCount);
    if q.file.None? && Requests(q.requestProperties, 0, askOrCount) == [] {
      RequestsMean(w, q.requestProperties, 0, askOrCount, r);
    } else {
      ConjunctsMean(w, q, askOrCount, r);
      OperandsSay(true, built, w, r);
      BuiltIsTaken(q, askOrCount);
    }
  }

  lemma {:induction false} RequestsAreTaken(t: Term, rps: seq<RequestProperty>, i: nat, askOrCount: bool)
    requires i <= |rps| && (Taken(true, t) || Requests(rps, i, askOrCount) != [])
    ensures Taken(true, WithRequests(t, rps, i, askOrCount))
    decreases |rps| - i
  {
    if i < |rps| {
      if IsLeftOut(rps[i], askOrCount) {
        assert Requests(rps, i, askOrCount) == [] + Requests(rps, i + 1, askOrCount) == Requests(rps, i + 1, askOrCount);
        RequestsAreTaken(t, rps, i + 1, askOrCount);
      } else {
        ConjunctAdded(t, Request(rps[i], i));
        RequestsAreTaken(AndTerms(t, Request(rps[i], i)), rps, i + 1, askOrCount);
      }
    }
  }

  lemma BuiltIsTaken(q: Query, askOrCount: bool)
    requires q.file.Some? || Requests(q.requestProperties, 0, askOrCount) != []
    ensures Taken(true, BuiltTerm(q, askOrCount))
  {
    RequestsAreTaken(Restricted(q), q.requestProperties, 0, askOrCount);
  }
}
