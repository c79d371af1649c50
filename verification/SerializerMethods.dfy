/** The serializer as it is: a writer that is appended to and a reader that only moves forward
    (libnepomukcore/query/queryserializer.cpp:96-468), proved against the functions. */
module SerializerMethods {
  import opened Terms
  import opened Xml
  import opened QuerySerializer
  import opened StoredQueries

  // ----- writing -----

  method DoSerializeTerm(xml: XmlWriter, term: Term, first: set<Uri> -> Uri) returns (written: bool)
    modifies xml
    ensures xml.tokens == old(xml.tokens) + Write(term, first)
    ensures written <==> !term.Invalid?
    decreases term
  {
    written := true;
    match term
    case Invalid => written := false;
    case Literal(v) =>
      xml.WriteStart(LiteralTag, LiteralAttrs(v));
      xml.WriteCharacters(LiteralText(v));
      xml.WriteEnd();
    case Resource(u) =>
      xml.WriteStart(ResourceTag, map[UriAttr := u]);
      xml.WriteEnd();
    case ResourceType(ts) =>
      xml.WriteStart(TypeTag, map[UriAttr := first(ts)]);
      xml.WriteEnd();
    case And(subs) =>
      xml.WriteStart(AndTag, map[]);
      SerializeAll(xml, subs, first);
      xml.WriteEnd();
    case Or(subs) =>
      xml.WriteStart(OrTag, map[]);
      SerializeAll(xml, subs, first);
      xml.WriteEnd();
    case Negation(s) =>
      xml.WriteStart(NotTag, map[]);
      var _ := DoSerializeTerm(xml, s, first);
      xml.WriteEnd();
    case Optional(s) =>
      xml.WriteStart(OptionalTag, map[]);
      var _ := DoSerializeTerm(xml, s, first);
      xml.WriteEnd();
    case Comparison(s, _, _, _, _, _, _, _) =>
      xml.WriteStart(ComparisonTag, ComparisonAttrs(term));
      var _ := DoSerializeTerm(xml, s, first);
      xml.WriteEnd();
  }

  /** The loop over the subterms of a group. */
  method SerializeAll(xml: XmlWriter, terms: seq<Term>, first: set<Uri> -> Uri)
    modifies xml
    ensures xml.tokens == old(xml.tokens) + WriteAll(terms, first)
    decreases terms
  {
    for i := 0 to |terms|
      invariant xml.tokens + WriteAll(terms[i..], first) == old(xml.tokens) + WriteAll(terms, first)
    {
      ghost var before := xml.tokens;
      var _ := DoSerializeTerm(xml, terms[i], first);
      assert terms[i..][0] == terms[i] && terms[i..][1..] == terms[i + 1..];
      assert before + (Write(terms[i], first) + WriteAll(terms[i + 1..], first)) == xml.tokens + WriteAll(terms[i + 1..], first);
    }
  }

  method SerializeQuery(query: StoredQuery, first: set<Uri> -> Uri, order: seq<Uri>) returns (tokens: seq<Token>)
    requires IsOrder(order, query.includeFolders)
    ensures tokens == WriteQuery(query, first, order)
  {
    var xml := new XmlWriter();
    xml.WriteStart(if query.isFile then FileQueryTag else QueryTag, QueryAttrs(query));
    SerializeRequests(xml, query.requests);
    SerializeFolders(xml, query, order);
    var _ := DoSerializeTerm(xml, query.term, first);
    xml.WriteEnd();
    tokens := xml.tokens;
    DocumentIs(query, WriteRequests(query.requests), WriteFolders(query, order), Write(query.term, first));
  }

  lemma DocumentIs(query: StoredQuery, requests: seq<Token>, folders: seq<Token>, term: seq<Token>)
    ensures var tag := if query.isFile then FileQueryTag else QueryTag;
            [StartDocument] + [StartElement(tag, QueryAttrs(query))] + requests + folders + term + [EndElement] ==
            [StartDocument] + Element(tag, QueryAttrs(query), requests + (folders + term))
  {
  }

  method SerializeFolders(xml: XmlWriter, query: StoredQuery, order: seq<Uri>)
    requires IsOrder(order, query.includeFolders)
    modifies xml
    ensures xml.tokens == old(xml.tokens) + WriteFolders(query, order)
  {
    if query.isFile {
      SerializeIncludes(xml, order, query.includeFolders);
      SerializeExcludes(xml, query.excludeFolders);
    }
  }

  method SerializeRequests(xml: XmlWriter, requests: seq<RequestProperty>)
    modifies xml
    ensures xml.tokens == old(xml.tokens) + WriteRequests(requests)
  {
    for i := 0 to |requests|
      invariant xml.tokens + WriteRequests(requests[i..]) == old(xml.tokens) + WriteRequests(requests)
    {
      ghost var before := xml.tokens;
      xml.WriteStart(RequestPropertyTag, RequestAttrs(requests[i]));
      xml.WriteEnd();
      assert requests[i..][1..] == requests[i + 1..];
      ghost var w := Element(RequestPropertyTag, RequestAttrs(requests[i]), []);
      assert xml.tokens == before + w;
      assert before + (w + WriteRequests(requests[i + 1..])) == (before + w) + WriteRequests(requests[i + 1..]);
    }
  }

  method SerializeIncludes(xml: XmlWriter, order: seq<Uri>, included: map<Uri, bool>)
    requires forall u | u in order :: u in included
    modifies xml
    ensures xml.tokens == old(xml.tokens) + WriteIncludes(order, included)
  {
    for i := 0 to |order|
      invariant xml.tokens + WriteIncludes(order[i..], included) == old(xml.tokens) + WriteIncludes(order, included)
    {
      ghost var before := xml.tokens;
      xml.WriteStart(FolderTag, IncludeAttrs(order[i], included[order[i]]));
      xml.WriteEnd();
      assert order[i..][1..] == order[i + 1..];
      ghost var w := Element(FolderTag, IncludeAttrs(order[i], included[order[i]]), []);
      assert xml.tokens == before + w;
      assert before + (w + WriteIncludes(order[i + 1..], included)) == (before + w) + WriteIncludes(order[i + 1..], included);
    }
  }

  method SerializeExcludes(xml: XmlWriter, urls: seq<Uri>)
    modifies xml
    ensures xml.tokens == old(xml.tokens) + WriteExcludes(urls)
  {
    for i := 0 to |urls|
      invariant xml.tokens + WriteExcludes(urls[i..]) == old(xml.tokens) + WriteExcludes(urls)
    {
      ghost var before := xml.tokens;
      xml.WriteStart(FolderTag, ExcludeAttrs(urls[i]));
      xml.WriteEnd();
      assert urls[i..][1..] == urls[i + 1..];
      ghost var w := Element(FolderTag, ExcludeAttrs(urls[i]), []);
      assert xml.tokens == before + w;
      assert before + (w + WriteExcludes(urls[i + 1..])) == (before + w) + WriteExcludes(urls[i + 1..]);
    }
  }

  // ----- reading -----

  method DoParseTerm(xml: XmlReader, ok: Flag) returns (term: Term, ok': Flag)
    requires IsStart(xml.rest)
    modifies xml
    ensures var r := ParseTerm(old(xml.rest), ok);
            term == r.term && ok' == r.ok && xml.rest == r.left
    decreases Len(xml.rest), 1
  {
    var tag := xml.rest.head.tag;
    var attrs := xml.rest.head.attrs;
    if tag == LiteralTag {
      var text := xml.ReadElementText();
      return ReadLiteral(attrs, text), SetTo(ok, true);
    } else if tag == ResourceTag {
      var _ := xml.ReadNextStartElement();
      return Resource(Value(attrs, UriAttr)), SetTo(ok, true);
    } else if tag == TypeTag {
      var _ := xml.ReadNextStartElement();
      return ResourceType(ToTypes(Value(attrs, UriAttr))), SetTo(ok, true);
    } else if tag == AndTag || tag == OrTag {
      var subs, failed;
      subs, failed, ok' := ParseSubTerms(xml, ok);
      term := if failed then Invalid else MakeGroup(tag == AndTag, subs);
    } else if tag == NotTag || tag == OptionalTag || tag == ComparisonTag {
      term, ok' := ParseAround(xml, ok);
    } else {
      return Invalid, SetTo(ok, false);
    }
  }

  /** The three elements with one subterm. */
  method ParseAround(xml: XmlReader, ok: Flag) returns (term: Term, ok': Flag)
    requires IsStart(xml.rest) && xml.rest.head.tag in {NotTag, OptionalTag, ComparisonTag}
    modifies xml
    ensures var r := ParseTerm(old(xml.rest), ok);
            term == r.term && ok' == r.ok && xml.rest == r.left
    decreases Len(xml.rest), 0
  {
    var tag := xml.rest.head.tag;
    var attrs := xml.rest.head.attrs;
    var found := xml.ReadNextStartElement();
    if found {
      term, ok' := DoParseTerm(xml, ok);
      if Failed(ok') { return Invalid, ok'; }
      var _ := xml.ReadNextStartElement();
      if tag == NotTag {
        term := NegateTerm(term);
      } else if tag == OptionalTag {
        term := OptionalizeTerm(term);
      } else {
        FlagIsSet(ok', ok');
        term, ok' := ReadComparison(attrs, term), SetTo(ok', true);
      }
    } else if tag == ComparisonTag {
      return ReadComparison(attrs, Invalid), SetTo(ok, true);
    } else {
      return Invalid, SetTo(ok, false);
    }
  }

  /** The loop over the subterms of a group. */
  method ParseSubTerms(xml: XmlReader, ok: Flag) returns (subs: seq<Term>, failed: bool, ok': Flag)
    modifies xml
    ensures var l := ParseAll(old(xml.rest), ok);
            failed == l.failed && ok' == l.ok && xml.rest == l.left && (!failed ==> subs == l.terms)
    decreases Len(xml.rest), 0
  {
    subs, failed, ok' := [], false, ok;
    ghost var whole := ParseAll(xml.rest, ok);
    var found := true;
    while found
      invariant Len(xml.rest) <= Len(old(xml.rest))
      invariant found ==> Resumes(whole, subs, ParseAll(xml.rest, ok'))
      invariant !found ==> Resumes(whole, subs, ReadList([], false, ok', xml.rest))
      decreases found, Len(xml.rest)
    {
      ghost var here := xml.rest;
      found := xml.ReadNextStartElement();
      if found {
        var term;
        ghost var was := ok';
        term, ok' := DoParseTerm(xml, ok');
        if Failed(ok') {
          assert ParseAll(here, was) == ReadList([], true, ok', xml.rest);
          failed := true;
          return;
        }
        assert ParseAll(here, was) == (var l := ParseAll(xml.rest, ok'); ReadList([term] + l.terms, l.failed, l.ok, l.left));
        assert subs + ([term] + ParseAll(xml.rest, ok').terms) == (subs + [term]) + ParseAll(xml.rest, ok').terms;
        subs := subs + [term];
      }
    }
  }

  /** What is read in all is what was read so far and what is still to be read. */
  predicate Resumes(whole: ReadList, subs: seq<Term>, l: ReadList) {
    whole.terms == subs + l.terms && whole.failed == l.failed && whole.ok == l.ok && whole.left == l.left
  }

  method ParseQueryDocument(document: seq<Token>) returns (query: StoredQuery)
    ensures query == ParseQuery(Onto(document, Nil))
  {
    var xml := new XmlReader(document);
    query := NEW_QUERY;
    ghost var whole := ParseQuery(xml.rest);
    while true
      invariant whole == ParseFrom(xml.rest, query)
      decreases Len(xml.rest)
    {
      ghost var here, was := xml.rest, query;
      var found := xml.ReadNextStartElement();
      if !found { return; }
      var attrs := xml.rest.head.attrs;
      match xml.rest.head.tag {
        case QueryTag => query := ReadQueryAttributes(attrs, query);
        case FileQueryTag => query := ReadFileAttributes(attrs, ReadQueryAttributes(attrs, query));
        case RequestPropertyTag =>
          query := query.(requests := query.requests + [ReadRequest(attrs)]);
          var _ := xml.ReadNextStartElement();
        case FolderTag =>
          if !query.isFile { return NEW_QUERY; }
          query := AddFolder(attrs, query);
          var _ := xml.ReadNextStartElement();
        case _ =>
          var term, ok := DoParseTerm(xml, Some(false));
          query := query.(term := term);
          if Failed(ok) { return; }
      }
    }
  }

  // ----- single terms -----

  method SerializeTerm(term: Term, first: set<Uri> -> Uri) returns (tokens: seq<Token>)
    ensures tokens == WriteTerm(term, first)
  {
    var xml := new XmlWriter();
    var _ := DoSerializeTerm(xml, term, first);
    tokens := xml.tokens;
  }

  method ParseTermText(document: seq<Token>) returns (term: Term)
    ensures term == ParseTermDocument(Onto(document, Nil))
  {
    var xml := new XmlReader(document);
    var found := xml.ReadNextStartElement();
    if !found { return Invalid; }
    var read, _ := DoParseTerm(xml, None);
    return read;
  }
}
