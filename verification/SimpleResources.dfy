/** SimpleResource and SimpleResourceGraph (libnepomukcore/datamanagement/simpleresource.cpp,
    libnepomukcore/datamanagement/simpleresourcegraph.cpp). */
module SimpleResources {
  import Terms

  type Uri = Terms.Uri

  /** A QVariant that holds a URL or anything that becomes a literal. */
  datatype Variant = Url(uri: Uri) | Literal(text: string)

  datatype Node = ResourceNode(uri: Uri) | BlankNode(identifier: string) | LiteralNode(text: string)

  datatype Statement = Statement(subject: Node, property: Uri, target: Node)

  /** A QMultiHash may hold a pair several times. */
  type Properties = multiset<(Uri, Variant)>

  datatype SimpleResource = SimpleResource(uri: Uri, properties: Properties)

  // ----- blank names -----

  /** The letters of a counter, lowest digit first. */
  function BlankName(n: nat): (s: string)
    ensures s != "" && forall c | c in s :: 'a' <= c <= 'z'
  {
    var c := 'a' + (n % 26) as char;
    if n < 26 then [c] else [c] + BlankName(n / 26)
  }

  /** Reads a blank name back. */
  function BlankNumber(s: string): int {
    if s == "" then 0 else (s[0] as int - 'a' as int) + 26 * BlankNumber(s[1..])
  }

  lemma {:induction false} BlankNameDecodes(n: nat)
    ensures BlankNumber(BlankName(n)) == n
  {
    if n >= 26 {
      BlankNameDecodes(n / 26);
      assert BlankName(n)[1..] == BlankName(n / 26);
    }
  }

  /** Two counters never give the same name. */
  lemma BlankNamesDiffer(m: nat, n: nat)
    requires BlankName(m) == BlankName(n)
    ensures m == n
  {
    BlankNameDecodes(m);
    BlankNameDecodes(n);
  }

  /** createBlankUri, for the value the counter had. */
  method CreateBlankUri(counter: nat) returns (uri: Uri)
    ensures uri == "_:" + BlankName(counter)
  {
    var idCnt := counter;
    var id := "";
    var again := true;
    while again
      invariant again ==> BlankName(counter) == id + BlankName(idCnt)
      invariant !again ==> BlankName(counter) == id
      decreases again, idCnt
    {
      var rest := idCnt % 26;
      ghost var before := id;
      id := id + ['a' + rest as char];
      if idCnt >= 26 { assert before + BlankName(idCnt) == id + BlankName(idCnt / 26); }
      idCnt := idCnt - rest;
      idCnt := idCnt / 26;
      again := idCnt > 0;
    }
    uri := "_:" + id;
  }

  // ----- one resource -----

  predicate NoDuplicates(p: Properties) {
    forall x | x in p :: p[x] == 1
  }

  function AddProperty(r: SimpleResource, property: Uri, value: Variant): SimpleResource {
    if (property, value) in r.properties then r else r.(properties := r.properties + multiset{(property, value)})
  }

  /** addProperties, for the order in which the hash gives the pairs. */
  function AddProperties(r: SimpleResource, pairs: seq<(Uri, Variant)>): SimpleResource
    decreases |pairs|
  {
    if pairs == [] then r else AddProperties(AddProperty(r, pairs[0].0, pairs[0].1), pairs[1..])
  }

  /** All pairs of both; where both have a pair, the first says how often. */
  function Merged(p: Properties, q: Properties): (m: Properties)
    ensures forall x :: m[x] == if x in p then p[x] else if x in q then 1 else 0
  {
    p + multiset(set x | x in q && x !in p)
  }

  /** In whatever order the pairs come, those that are missing are added once. */
  lemma {:induction false} AddPropertiesMerges(r: SimpleResource, pairs: seq<(Uri, Variant)>)
    ensures AddProperties(r, pairs) == r.(properties := Merged(r.properties, multiset(pairs)))
    decreases |pairs|
  {
    if pairs == [] {
      assert Merged(r.properties, multiset(pairs)) == r.properties;
    } else {
      var x := pairs[0];
      var r1 := AddProperty(r, x.0, x.1);
      AddPropertiesMerges(r1, pairs[1..]);
      assert pairs == [x] + pairs[1..];
      assert multiset(pairs) == multiset{x} + multiset(pairs[1..]);
      assert Merged(r1.properties, multiset(pairs[1..])) == Merged(r.properties, multiset(pairs));
    }
  }

  // ----- nodes -----

  predicate IsBlank(uri: Uri) {
    |uri| >= 2 && uri[..2] == "_:"
  }

  function ConvertIfBlankNode(n: Node): Node {
    if n.ResourceNode? && IsBlank(n.uri) then BlankNode(n.uri[2..]) else n
  }

  function ObjectNode(v: Variant): Node {
    ConvertIfBlankNode(match v case Url(u) => ResourceNode(u) case Literal(t) => LiteralNode(t))
  }

  function NodeToVariant(n: Node): Variant {
    match n
    case ResourceNode(u) => Url(u)
    case BlankNode(id) => Url("_:" + id)
    case LiteralNode(t) => Literal(t)
  }

  /** QVariant::toUrl */
  function ToUrl(v: Variant): Uri {
    match v case Url(u) => u case Literal(t) => t
  }

  lemma NodesReadBack(v: Variant)
    ensures NodeToVariant(ObjectNode(v)) == v
  {
    if v.Url? && IsBlank(v.uri) { assert "_:" + v.uri[2..] == v.uri; }
  }

  // ----- graphs -----

  type Graph = map<Uri, SimpleResource>

  /** Every resource is stored under its own URI, which is never empty. */
  predicate Keyed(g: Graph) {
    forall u | u in g :: u != "" && g[u].uri == u
  }

  function StatementOf(u: Uri, x: (Uri, Variant)): Statement {
    Statement(ConvertIfBlankNode(ResourceNode(u)), x.0, ObjectNode(x.1))
  }

  /** toStatementGraph; a Soprano graph is a set. */
  function Statements(g: Graph): set<Statement> {
    set u, x | u in g && x in g[u].properties :: StatementOf(g[u].uri, x)
  }

  function AddStatement(g: Graph, s: Statement): Graph {
    var u := ToUrl(NodeToVariant(s.subject));
    var r := if u in g then g[u] else SimpleResource(u, multiset{});
    g[u := AddProperty(r.(uri := u), s.property, NodeToVariant(s.target))]
  }

  function AddStatements(g: Graph, list: seq<Statement>): Graph
    decreases |list|
  {
    if list == [] then g else AddStatements(AddStatement(g, list[0]), list[1..])
  }

  /** What a graph of statements can hold of a graph: resources with properties, each pair once. */
  function Stated(g: Graph): Graph {
    map u | u in g && g[u].properties != multiset{} ::
      SimpleResource(u, multiset(set x | x in g[u].properties))
  }

  predicate Has(g: Graph, u: Uri, x: (Uri, Variant)) {
    u in g && x in g[u].properties
  }

  /** The resource and the pair a statement is about. */
  function SubjectOf(s: Statement): Uri {
    ToUrl(NodeToVariant(s.subject))
  }

  function PairOf(s: Statement): (Uri, Variant) {
    (s.property, NodeToVariant(s.target))
  }

  lemma StatementReadsBack(u: Uri, x: (Uri, Variant))
    ensures SubjectOf(StatementOf(u, x)) == u && PairOf(StatementOf(u, x)) == x
  {
    NodesReadBack(Url(u));
    NodesReadBack(x.1);
  }

  /** The node by which a store knows a URI: names that start with "_:" are blank nodes, which lose
      these characters. */
  predicate StandsForUri(n: Node, u: Uri) {
    match n
    case BlankNode(id) => u == "_:" + id
    case ResourceNode(v) => v == u && !("_:" <= u)
    case LiteralNode(_) => false
  }

  predicate StandsFor(n: Node, v: Variant) {
    match v
    case Url(u) => StandsForUri(n, u)
    case Literal(t) => n == LiteralNode(t)
  }

  lemma ConvertedStandsFor(n: Node, u: Uri)
    ensures n == ConvertIfBlankNode(ResourceNode(u)) <==> StandsForUri(n, u)
  {
    if IsBlank(u) { assert u == "_:" + u[2..]; }
    if n.BlankNode? && u == "_:" + n.identifier { assert u[2..] == n.identifier && u[..2] == "_:"; }
  }

  /** The statements of a graph say each pair of each resource, and no created name is taken for that
      of a resource. */
  lemma StatementsExactly(g: Graph, s: Statement)
    requires Keyed(g)
    ensures s in Statements(g) <==>
            exists u, x :: Has(g, u, x) && StandsForUri(s.subject, u) && s.property == x.0 && StandsFor(s.target, x.1)
  {
    forall u, x: (Uri, Variant)
      ensures s == StatementOf(u, x) <==> StandsForUri(s.subject, u) && s.property == x.0 && StandsFor(s.target, x.1)
    {
      ConvertedStandsFor(s.subject, u);
      if x.1.Url? { ConvertedStandsFor(s.target, x.1.uri); }
    }
    if s in Statements(g) {
      var u, x :| u in g && x in g[u].properties && s == StatementOf(g[u].uri, x);
      assert Has(g, u, x);
    }
    if u, x :| Has(g, u, x) && StandsForUri(s.subject, u) && s.property == x.0 && StandsFor(s.target, x.1) {
      assert s == StatementOf(g[u].uri, x);
    }
  }

  predicate IsClean(r: SimpleResource, u: Uri) {
    r.uri == u && u != "" && r.properties != multiset{} && NoDuplicates(r.properties)
  }

  /** No resource without properties and no pair twice. */
  predicate Clean(g: Graph) {
    forall u | u in g :: IsClean(g[u], u)
  }

  lemma AddStatementClean(h: Graph, s: Statement)
    requires Clean(h) && SubjectOf(s) != ""
    ensures Clean(AddStatement(h, s))
  {
    var u := SubjectOf(s);
    if u in h { assert IsClean(h[u], u); }
    assert PairOf(s) in AddStatement(h, s)[u].properties;
  }

  lemma {:induction false} AddStatementsClean(h: Graph, list: seq<Statement>)
    requires Clean(h) && forall s | s in list :: SubjectOf(s) != ""
    ensures Clean(AddStatements(h, list))
    decreases |list|
  {
    if list != [] {
      assert list[0] in list;
      AddStatementClean(h, list[0]);
      AddStatementsClean(AddStatement(h, list[0]), list[1..]);
    }
  }

  lemma {:induction false} AddStatementsHas(h: Graph, list: seq<Statement>, u: Uri, x: (Uri, Variant))
    ensures Has(AddStatements(h, list), u, x) <==> Has(h, u, x) || exists s | s in list :: SubjectOf(s) == u && PairOf(s) == x
    decreases |list|
  {
    if list != [] {
      var h1 := AddStatement(h, list[0]);
      assert Has(h1, u, x) <==> Has(h, u, x) || (SubjectOf(list[0]) == u && PairOf(list[0]) == x);
      AddStatementsHas(h1, list[1..], u, x);
      assert forall s :: s in list <==> s == list[0] || s in list[1..];
    }
  }

  /** A clean graph is known by its pairs. */
  lemma CleanIsStated(h: Graph, g: Graph)
    requires Clean(h) && Keyed(g) && forall u, x :: Has(h, u, x) <==> Has(g, u, x)
    ensures h == Stated(g)
  {
    var t := Stated(g);
    forall u ensures u in h <==> u in t {
      if u in h {
        assert IsClean(h[u], u);
        var x :| x in h[u].properties;
        assert Has(h, u, x);
      }
      if u in t {
        var x :| x in g[u].properties;
        assert Has(g, u, x);
      }
    }
    forall u | u in h ensures h[u] == t[u] {
      assert IsClean(h[u], u);
      forall x ensures h[u].properties[x] == t[u].properties[x] { assert Has(h, u, x) <==> Has(g, u, x); }
    }
  }

  /** Rebuilding a graph from its statements, added in any order and any number of times, gives what
      could be stated of it, blank nodes included. */
  lemma RebuiltFromStatements(g: Graph, list: seq<Statement>)
    requires Keyed(g) && forall s :: s in list <==> s in Statements(g)
    ensures AddStatements(map[], list) == Stated(g)
  {
    forall s | s in list ensures SubjectOf(s) != "" && Has(g, SubjectOf(s), PairOf(s)) {
      var u, x :| u in g && x in g[u].properties && s == StatementOf(g[u].uri, x);
      StatementReadsBack(u, x);
    }
    AddStatementsClean(map[], list);
    var h := AddStatements(map[], list);
    forall u, x ensures Has(h, u, x) <==> Has(g, u, x) {
      AddStatementsHas(map[], list, u, x);
      if Has(g, u, x) {
        StatementReadsBack(u, x);
        assert StatementOf(g[u].uri, x) in Statements(g);
      }
    }
    CleanIsStated(h, g);
  }

  /** The rebuilt graph is the graph itself exactly when it has no empty resource and no pair twice. */
  lemma StatedIsAll(g: Graph)
    requires Keyed(g)
    ensures Stated(g) == g <==> Clean(g)
  {
    if Stated(g) == g {
      forall u | u in g ensures IsClean(g[u], u) {
        assert u in Stated(g) && Stated(g)[u].properties == g[u].properties;
      }
    }
    if Clean(g) { CleanIsStated(g, g); }
  }

  // ----- union -----

  /** operator+=, resource by resource. */
  function Union(g: Graph, other: Graph): Graph {
    map u | u in g.Keys + other.Keys ::
      if u !in other then g[u] else if u !in g then other[u]
      else g[u].(properties := Merged(g[u].properties, other[u].properties))
  }

  predicate NoRepeats(g: Graph) {
    forall u | u in g :: NoDuplicates(g[u].properties)
  }

  /** The union has the pairs of both graphs and keeps the invariants. */
  lemma UnionIsUnion(g: Graph, other: Graph)
    ensures forall u, x :: Has(Union(g, other), u, x) <==> Has(g, u, x) || Has(other, u, x)
    ensures NoRepeats(g) && NoRepeats(other) ==> NoRepeats(Union(g, other))
    ensures Keyed(g) && Keyed(other) ==> Keyed(Union(g, other))
    ensures Clean(g) && Clean(other) ==> Clean(Union(g, other))
  {
    if Clean(g) && Clean(other) {
      forall u | u in Union(g, other) ensures IsClean(Union(g, other)[u], u) {
        if u in g { assert IsClean(g[u], u); }
        if u in other { assert IsClean(other[u], u); }
      }
    }
  }

  lemma UnionWithItself(g: Graph)
    ensures Union(g, g) == g
  {
    forall u | u in g ensures Union(g, g)[u] == g[u] {
      assert Merged(g[u].properties, g[u].properties) == g[u].properties;
    }
  }

  /** One resource more of the other graph. */
  lemma UnionStep(g: Graph, other: Graph, todo: set<Uri>, key: Uri)
    requires key in todo && todo <= other.Keys
    ensures var u := Union(g, other - todo);
            Union(g, other - (todo - {key})) ==
            u[key := if key !in u then other[key]
                     else u[key].(properties := Merged(u[key].properties, other[key].properties))]
  {
    assert other - (todo - {key}) == (other - todo)[key := other[key]];
  }

  method PairsOf(p: Properties) returns (pairs: seq<(Uri, Variant)>)
    ensures multiset(pairs) == p
  {
    pairs := [];
    var left := p;
    while left != multiset{}
      invariant multiset(pairs) + left == p
      decreases |left|
    {
      var x :| x in left;
      left := left - multiset{x};
      pairs := pairs + [x];
    }
  }

  class SimpleResourceGraph {
    var resources: Graph

    constructor ()
      ensures resources == map[]
    {
      resources := map[];
    }

    method Insert(res: SimpleResource)
      requires Keyed(resources) && res.uri != ""
      modifies this
      ensures resources == old(resources)[res.uri := res] && Keyed(resources)
    {
      resources := resources[res.uri := res];
    }

    method Add(uri: Uri, property: Uri, value: Variant)
      requires Keyed(resources)
      modifies this
      ensures Keyed(resources)
      ensures uri == "" ==> resources == old(resources)
      ensures uri != "" ==>
                && uri in resources && (property, value) in resources[uri].properties
                && resources - {uri} == old(resources) - {uri}
                && resources[uri].properties ==
                   Merged(if uri in old(resources) then old(resources)[uri].properties else multiset{}, multiset{(property, value)})
    {
      if uri != "" {
        var res := if uri in resources then resources[uri] else SimpleResource(uri, multiset{});
        resources := resources[uri := AddProperty(res.(uri := uri), property, value)];
      }
    }

    /** addStatement. Each new resource takes a blank name first; one for an empty subject gets
        another, and stays under the empty key. */
    method AddOne(s: Statement, counter: nat) returns (next: nat)
      modifies this
      ensures next == counter + (if SubjectOf(s) in old(resources) then 0 else 1) + (if SubjectOf(s) == "" then 1 else 0)
      ensures SubjectOf(s) != "" ==> resources == AddStatement(old(resources), s)
      ensures SubjectOf(s) == "" ==>
                && "" in resources && resources - {""} == old(resources) - {""}
                && resources[""].uri == "_:" + BlankName(next - 1)
                && resources[""].properties ==
                   Merged(if "" in old(resources) then old(resources)[""].properties else multiset{}, multiset{PairOf(s)})
    {
      var uri := ToUrl(NodeToVariant(s.subject));
      var value := NodeToVariant(s.target);
      next := counter;
      if uri !in resources {
        var name := CreateBlankUri(next);
        next := next + 1;
        resources := resources[uri := SimpleResource(name, multiset{})];
      }
      var newUri := uri;
      if uri == "" {
        newUri := CreateBlankUri(next);
        next := next + 1;
      }
      resources := resources[uri := resources[uri].(uri := newUri)];
      resources := resources[uri := AddProperty(resources[uri], s.property, value)];
    }

    /** operator+=; the hash of the other graph is walked in any order. */
    method AddGraph(other: SimpleResourceGraph)
      modifies this
      ensures resources == Union(old(resources), old(other.resources))
    {
      if other == this {
        UnionWithItself(resources);
      } else if resources == map[] {
        resources := other.resources;
      } else {
        var todo := other.resources.Keys;
        while todo != {}
          invariant todo <= other.resources.Keys
          invariant resources == Union(old(resources), other.resources - todo)
          decreases todo
        {
          var key :| key in todo;
          UnionStep(old(resources), other.resources, todo, key);
          todo := todo - {key};
          if key !in resources {
            resources := resources[key := other.resources[key]];
          } else {
            var pairs := PairsOf(other.resources[key].properties);
            AddPropertiesMerges(resources[key], pairs);
            resources := resources[key := AddProperties(resources[key], pairs)];
          }
        }
        assert other.resources - todo == other.resources;
      }
    }
  }
}
