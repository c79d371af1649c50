/** The compiler as the source runs it: QueryBuilderData hands out variables from a counter that its
    methods advance, keeps the depth and the stack of group terms, and the toSparqlGraphPattern
    methods loop over subterms and characters. */
module QueryBuilder {
  import opened Terms
  import opened Denotation
  import opened Sparql
  import opened Compiler
  import FullText

  class QueryBuilderData {
    const cfg: Config
    var varNameCnt: nat
    var depth: int
    var groupTermStack: seq<Term>

    constructor (cfg: Config)
      ensures this.cfg == cfg && varNameCnt == 0 && depth == 0 && groupTermStack == []
    {
      this.cfg := cfg;
      varNameCnt, depth, groupTermStack := 0, 0, [];
    }

    method UniqueVarName() returns (v: Var)
      modifies this`varNameCnt
      ensures v == Fresh(old(varNameCnt) + 1) && varNameCnt == old(varNameCnt) + 1
    {
      varNameCnt := varNameCnt + 1;
      v := Fresh(varNameCnt);
    }

    method IncreaseDepth()
      modifies this`depth
      ensures depth == old(depth) + 1
    {
      depth := depth + 1;
    }

    method DecreaseDepth()
      modifies this`depth
      ensures depth == old(depth) - 1
    {
      depth := depth - 1;
    }

    method PushGroupTerm(group: Term)
      modifies this`groupTermStack
      ensures groupTermStack == old(groupTermStack) + [group]
    {
      groupTermStack := groupTermStack + [group];
    }

    method PopGroupTerm()
      requires groupTermStack != []
      modifies this`groupTermStack
      ensures groupTermStack == old(groupTermStack)[..|old(groupTermStack)| - 1]
    {
      groupTermStack := groupTermStack[..|groupTermStack| - 1];
    }
  }

  method GetMainVariableName(t: Term, qbd: QueryBuilderData) returns (v: Var)
    requires t.Comparison?
    modifies qbd`varNameCnt
    ensures (v, qbd.varNameCnt) == MainVariable(t.variableName, t.aggregate, old(qbd.varNameCnt))
  {
    if t.variableName != "" && t.aggregate == NoAggregateFunction {
      v := Named(t.variableName);
    } else {
      v := qbd.UniqueVarName();
    }
  }

  method PropertyToString(p: Option<Uri>, qbd: QueryBuilderData) returns (o: Operand)
    modifies qbd`varNameCnt
    ensures (o, qbd.varNameCnt) == PropertyOperand(p, old(qbd.varNameCnt))
  {
    if p.Some? {
      o := N(UriNode(p.value));
    } else {
      var v := qbd.UniqueVarName();
      o := V(v);
    }
  }

  /** The scanner of createContainsPattern: one character at a time, with a quote flag, an
      unfinished token, and two token lists. */
  method ScanText(text: string) returns (r: FullText.Reading)
    ensures r == FullText.ReadText(text)
  {
    r := FullText.START;
    var inQuotes, currentToken := false, "";
    for i := 0 to |text|
      invariant FullText.ReadAll(r, FullText.Lex(text[i..], inQuotes, currentToken)) == FullText.ReadText(text)
    {
      var c := text[i];
      assert text[i..][0] == c && text[i..][1..] == text[i + 1..];
      var tokenEnd := false;
      if FullText.IsQuote(c) {
        inQuotes := !inQuotes;
        tokenEnd := !inQuotes;
      } else if FullText.IsSpace(c) && !inQuotes {
        tokenEnd := true;
      } else {
        currentToken := currentToken + [c];
      }
      if i == |text| - 1 {
        tokenEnd := true;
      }
      if tokenEnd && currentToken != "" {
        ghost var rest := FullText.Lex(text[i + 1..], inQuotes, "");
        assert ([currentToken] + rest)[1..] == rest;
        r := FullText.Read(r, currentToken);
        currentToken := "";
      }
    }
    assert text[|text|..] == "";
  }

  method CreateContainsPattern(v: Operand, text: string, qbd: QueryBuilderData) returns (es: Pattern)
    modifies qbd`varNameCnt
    ensures (es, qbd.varNameCnt) == ContainsPattern(v, text, qbd.cfg.scoring, old(qbd.varNameCnt))
  {
    if text == "" {
      return [];
    }
    var r := ScanText(text);
    var filters := [];
    for i := 0 to |r.regex|
      invariant filters == RegexAtoms(v, r.regex)[..i]
    {
      filters := filters + [Atom(r.regex[i].negated, v, RegexToken(r.regex[i].text))];
    }
    assert filters == RegexAtoms(v, r.regex);
    var scoringPattern := [];
    if r.contains != [] && qbd.cfg.scoring && (r.regex == [] || !r.isUnion) {
      var score := qbd.UniqueVarName();
      scoringPattern := [FullTextPattern(v, r.contains, r.isUnion, score)];
    } else if r.contains != [] {
      filters := filters + [Atom(false, v, BifContains(r.contains, r.isUnion))];
    }
    es := (if filters == [] then [] else [Filter(r.isUnion, filters)]) + scoringPattern;
  }

  method Tests(v: Operand, c: Comparator, literal: LiteralValue, qbd: QueryBuilderData) returns (es: Pattern)
    modifies qbd`varNameCnt
    ensures (es, qbd.varNameCnt) == TestPattern(v, c, literal, qbd.cfg.scoring, old(qbd.varNameCnt))
  {
    if c == Contains {
      es := CreateContainsPattern(v, LiteralText(literal), qbd);
    } else if c == Regexp {
      es := [SingleTest(v, RegexText(LiteralText(literal)))];
    } else {
      es := [SingleTest(v, CompareTo(c, literal))];
    }
  }

  predicate HaveRealTerm(parent: Option<Term>) {
    parent.Some? && parent.value.And? && HasRealPattern(parent.value.subTerms)
  }

  /** Compiling advances the counter as the specification says, and leaves the depth and the stack
      of group terms as they were. */
  method ToSparqlGraphPattern(t: Term, x: Operand, parent: Option<Term>, qbd: QueryBuilderData) returns (es: Pattern)
    modifies qbd
    ensures (es, qbd.varNameCnt) == Compile(t, x, HaveRealTerm(parent), qbd.cfg, old(qbd.varNameCnt))
    ensures qbd.depth == old(qbd.depth) && qbd.groupTermStack == old(qbd.groupTermStack)
    decreases t, 1
  {
    match t {
      case Invalid => es := [];
      case Literal(l) => es := LiteralPattern(l, x, qbd);
      case Resource(u) =>
        es := TypePatternUnlessReal(x, parent, qbd);
        es := es + [SingleTest(x, SameNode(UriNode(u)))];
        assert es == if HaveRealTerm(parent) then [SingleTest(x, SameNode(UriNode(u)))]
                     else [TypePattern(x, V(Fresh(qbd.varNameCnt))), SingleTest(x, SameNode(UriNode(u)))];
      case ResourceType(ts) =>
        if |ts| == 1 {
          es := [TypePattern(x, N(UriNode(OnlyType(ts))))];
        } else {
          var v := qbd.UniqueVarName();
          es := [TypePattern(x, V(v)), SingleTest(V(v), InTypes(ts))];
        }
      case And(_) =>
        GroupsIgnoreParent(t, x, HaveRealTerm(parent), qbd.cfg, qbd.varNameCnt);
        es := AndPattern(t, x, qbd);
      case Or(_) =>
        GroupsIgnoreParent(t, x, HaveRealTerm(parent), qbd.cfg, qbd.varNameCnt);
        es := OrPattern(t, x, qbd);
      case Negation(_) => es := NegationPattern(t, x, parent, qbd);
      case Optional(s) =>
        var inner := ToSparqlGraphPattern(s, x, Some(t), qbd);
        es := [OptionalPart(inner)];
      case Comparison(_, _, _, _, _, _, _, _) => es := ComparisonPattern(t, x, parent, qbd);
    }
  }

  lemma GroupsIgnoreParent(t: Term, x: Operand, isReal: bool, cfg: Config, cnt: nat)
    requires IsGroup(t)
    ensures Compile(t, x, isReal, cfg, cnt) == Compile(t, x, false, cfg, cnt)
  {
  }

  lemma CompileAllFrom(subs: seq<Term>, i: nat, x: Operand, isReal: bool, cfg: Config, cnt: nat)
    requires i < |subs|
    ensures var head := Compile(subs[i], x, isReal, cfg, cnt);
            var rest := CompileAll(subs[i + 1..], x, isReal, cfg, head.1);
            CompileAll(subs[i..], x, isReal, cfg, cnt) == (head.0 + rest.0, rest.1)
  {
    assert subs[i..][0] == subs[i] && subs[i..][1..] == subs[i + 1..];
  }

  method TypePatternUnlessReal(x: Operand, parent: Option<Term>, qbd: QueryBuilderData) returns (es: Pattern)
    modifies qbd`varNameCnt
    ensures HaveRealTerm(parent) ==> es == [] && qbd.varNameCnt == old(qbd.varNameCnt)
    ensures !HaveRealTerm(parent) ==> es == [TypePattern(x, V(Fresh(qbd.varNameCnt)))]
                                      && qbd.varNameCnt == old(qbd.varNameCnt) + 1
  {
    es := [];
    if !HaveRealTerm(parent) {
      var v := qbd.UniqueVarName();
      es := [TypePattern(x, V(v))];
    }
  }

  method AndPattern(t: Term, x: Operand, qbd: QueryBuilderData) returns (es: Pattern)
    requires t.And?
    modifies qbd
    ensures (es, qbd.varNameCnt) == Compile(t, x, false, qbd.cfg, old(qbd.varNameCnt))
    ensures qbd.depth == old(qbd.depth) && qbd.groupTermStack == old(qbd.groupTermStack)
    decreases t, 0
  {
    qbd.PushGroupTerm(t);
    var pattern := Conjuncts(t, x, qbd);
    qbd.PopGroupTerm();
    es := [Group(pattern)];
  }

  method Conjuncts(t: Term, x: Operand, qbd: QueryBuilderData) returns (pattern: Pattern)
    requires t.And?
    modifies qbd
    ensures (pattern, qbd.varNameCnt) == CompileAll(t.subTerms, x, HasRealPattern(t.subTerms), qbd.cfg, old(qbd.varNameCnt))
    ensures qbd.depth == old(qbd.depth) && qbd.groupTermStack == old(qbd.groupTermStack)
    decreases t.subTerms, 0
  {
    var subs := t.subTerms;
    var haveRealPattern := HasRealPattern(subs);
    pattern := [];
    ghost var all := CompileAll(subs, x, haveRealPattern, qbd.cfg, qbd.varNameCnt);
    assert subs[0..] == subs && [] + all.0 == all.0;
    for i := 0 to |subs|
      invariant qbd.depth == old(qbd.depth) && qbd.groupTermStack == old(qbd.groupTermStack)
      invariant all.0 == pattern + CompileAll(subs[i..], x, haveRealPattern, qbd.cfg, qbd.varNameCnt).0
      invariant all.1 == CompileAll(subs[i..], x, haveRealPattern, qbd.cfg, qbd.varNameCnt).1
    {
      CompileAllFrom(subs, i, x, haveRealPattern, qbd.cfg, qbd.varNameCnt);
      var subPattern := ToSparqlGraphPattern(subs[i], x, Some(t), qbd);
      AppendAssociates(pattern, subPattern, CompileAll(subs[i + 1..], x, haveRealPattern, qbd.cfg, qbd.varNameCnt).0);
      pattern := pattern + subPattern;
    }
    assert pattern + [] == pattern;
  }

  lemma AppendAssociates<T>(a: seq<T>, b: seq<T>, c: seq<T>)
    ensures a + (b + c) == (a + b) + c
  {
  }

  method OrPattern(t: Term, x: Operand, qbd: QueryBuilderData) returns (es: Pattern)
    requires t.Or?
    modifies qbd
    ensures (es, qbd.varNameCnt) == Compile(t, x, false, qbd.cfg, old(qbd.varNameCnt))
    ensures qbd.depth == old(qbd.depth) && qbd.groupTermStack == old(qbd.groupTermStack)
    decreases t, 0
  {
    var subs := t.subTerms;
    var branches := [];
    qbd.PushGroupTerm(t);
    ghost var cnt := qbd.varNameCnt;
    ghost var stack := qbd.groupTermStack;
    assert subs[0..] == subs;
    assert [] + CompileBranches(subs, x, qbd.cfg, cnt).0 == CompileBranches(subs, x, qbd.cfg, cnt).0;
    for i := 0 to |subs|
      invariant qbd.depth == old(qbd.depth) && qbd.groupTermStack == stack
      invariant var rest := CompileBranches(subs[i..], x, qbd.cfg, qbd.varNameCnt);
                CompileBranches(subs, x, qbd.cfg, cnt) == (branches + rest.0, rest.1)
    {
      assert subs[i..][0] == subs[i] && subs[i..][1..] == subs[i + 1..];
      var pattern := ToSparqlGraphPattern(subs[i], x, Some(t), qbd);
      ghost var rest := CompileBranches(subs[i + 1..], x, qbd.cfg, qbd.varNameCnt).0;
      assert branches + ([Group(pattern)] + rest) == (branches + [Group(pattern)]) + rest;
      branches := branches + [Group(pattern)];
    }
    assert branches + [] == branches;
    qbd.PopGroupTerm();
    es := if subs == [] then [Group([])] else [Union(branches)];
  }

  method NegationPattern(t: Term, x: Operand, parent: Option<Term>, qbd: QueryBuilderData) returns (es: Pattern)
    requires t.Negation?
    modifies qbd
    ensures (es, qbd.varNameCnt) == Compile(t, x, HaveRealTerm(parent), qbd.cfg, old(qbd.varNameCnt))
    ensures qbd.depth == old(qbd.depth) && qbd.groupTermStack == old(qbd.groupTermStack)
    decreases t, 0
  {
    if IsRegexp(t.subTerm) {
      var pattern := ToSparqlGraphPattern(t.subTerm, x, parent, qbd);
      es := NegateFirstFilter(pattern);
    } else {
      es := TypePatternUnlessReal(x, parent, qbd);
      var inner := ToSparqlGraphPattern(t.subTerm, x, Some(t), qbd);
      es := es + [FilterNotExists(inner)];
    }
  }

  method LiteralPattern(l: LiteralValue, x: Operand, qbd: QueryBuilderData) returns (es: Pattern)
    modifies qbd`varNameCnt
    ensures (es, qbd.varNameCnt) == CompileLiteral(x, l, qbd.cfg, old(qbd.varNameCnt))
  {
    if LiteralText(l) == "" {
      return [];
    }
    var p1 := qbd.UniqueVarName();
    var v1 := qbd.UniqueVarName();
    var r2 := qbd.UniqueVarName();
    var contains := Tests(V(v1), Contains, l, qbd);
    var p2 := qbd.UniqueVarName();
    es := [PlainPattern(x, V(p1), V(v1), V(r2), V(p2), contains)];
  }

  method ComparisonPattern(t: Term, x: Operand, parent: Option<Term>, qbd: QueryBuilderData) returns (es: Pattern)
    requires t.Comparison?
    modifies qbd
    ensures (es, qbd.varNameCnt) == Compile(t, x, HaveRealTerm(parent), qbd.cfg, old(qbd.varNameCnt))
    ensures qbd.depth == old(qbd.depth) && qbd.groupTermStack == old(qbd.groupTermStack)
    decreases t, 0
  {
    var s := t.subTerm;
    if !IsValid(s) {
      var prop := PropertyToString(t.property, qbd);
      var v := GetMainVariableName(t, qbd);
      es := [LinkPattern(t.inverted, x, prop, V(v))];
    } else if (t.property.Some? && t.property.value in qbd.cfg.literalRange) || t.comparator == Regexp {
      es := ValuePattern(t, x, qbd);
    } else {
      var prop := PropertyToString(t.property, qbd);
      if s.Literal? {
        es := LabelPattern(t, x, prop, qbd);
      } else if s.Resource? {
        es := [LinkPattern(t.inverted, x, prop, N(UriNode(s.uri)))];
      } else {
        var v := GetMainVariableName(t, qbd);
        qbd.IncreaseDepth();
        var inner := ToSparqlGraphPattern(s, V(v), Some(t), qbd);
        qbd.DecreaseDepth();
        es := [LinkPattern(t.inverted, x, prop, V(v))] + inner;
      }
    }
  }

  method ValuePattern(t: Term, x: Operand, qbd: QueryBuilderData) returns (es: Pattern)
    requires t.Comparison?
    modifies qbd`varNameCnt
    ensures (es, qbd.varNameCnt) == CompileValue(x, t, qbd.cfg, old(qbd.varNameCnt))
  {
    var literal := if t.subTerm.Literal? then t.subTerm.value else NoLiteral;
    if t.comparator == Equal {
      var prop := PropertyToString(t.property, qbd);
      es := [TriplePattern(x, prop, N(LitNode(literal)))];
    } else {
      var v := GetMainVariableName(t, qbd);
      var tests := Tests(V(v), t.comparator, literal, qbd);
      var prop := PropertyToString(t.property, qbd);
      es := [TriplePattern(x, prop, V(v))] + tests;
    }
  }

  method LabelPattern(t: Term, x: Operand, prop: Operand, qbd: QueryBuilderData) returns (es: Pattern)
    requires t.Comparison?
    requires exists cnt :: (prop, qbd.varNameCnt) == PropertyOperand(t.property, cnt)
    modifies qbd`varNameCnt
    ensures forall cnt | (prop, old(qbd.varNameCnt)) == PropertyOperand(t.property, cnt) ::
              (es, qbd.varNameCnt) == CompileLabel(x, t, qbd.cfg, cnt)
  {
    var literal := if t.subTerm.Literal? then t.subTerm.value else NoLiteral;
    var v := GetMainVariableName(t, qbd);
    var core := TriplePattern(x, prop, V(v));
    var anyProp := qbd.UniqueVarName();
    if t.comparator == Equal {
      es := [core, TriplePattern(V(v), V(anyProp), N(LitNode(literal)))];
    } else if t.comparator == Contains {
      var l := qbd.UniqueVarName();
      var tests := Tests(V(l), Contains, literal, qbd);
      es := [core, TriplePattern(V(v), V(anyProp), V(l))] + tests;
    } else {
      es := [];
    }
  }
}
