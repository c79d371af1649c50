/** Satisfiability of the pattern shapes that terms compile to. */
module CompilerSat {
  import opened Terms
  import opened Denotation
  import opened Sparql
  import opened SparqlAlgebra
  import opened Compiler
  import FullText

  lemma PartFilterOnly(w: World, f: Element)
    requires f.Filter? || f.FilterNotExists?
    ensures Part(w, [f]) == {UNIT}
  {
    assert [f][..0] == [];
  }

  lemma SatEmpty(w: World, x: Operand, r: Node)
    ensures Sat(w, [], x, r) <==> OperandFits(x, r)
  {
    assert UNIT in Part(w, []);
    if OperandFits(x, r) {
      assert CanStandFor(UNIT, x, r) && Passes(w, [], At(UNIT, x, r));
    }
  }

  lemma SatFilterOnly(w: World, f: Element, x: Operand, r: Node)
    requires f.Filter? || f.FilterNotExists?
    ensures Sat(w, [f], x, r) <==> OperandFits(x, r) && EPasses(w, f, At(UNIT, x, r))
  {
    PartFilterOnly(w, f);
    assert f in [f];
    assert Passes(w, [f], At(UNIT, x, r)) == EPasses(w, f, At(UNIT, x, r));
    if OperandFits(x, r) && EPasses(w, f, At(UNIT, x, r)) {
      assert UNIT in Part(w, [f]) && CanStandFor(UNIT, x, r);
    }
  }

  lemma SatSingleTest(w: World, x: Operand, test: Test, r: Node)
    ensures Sat(w, [SingleTest(x, test)], x, r) <==> OperandFits(x, r) && TestHolds(w, test, r)
  {
    SatFilterOnly(w, SingleTest(x, test), x, r);
    var a := Atom(false, x, test);
    assert a in [a];
    if OperandFits(x, r) {
      assert ValueOf(x, At(UNIT, x, r)) == Some(r);
      assert FilterHolds(w, false, [a], At(UNIT, x, r)) == AtomHolds(w, a, At(UNIT, x, r));
    }
  }

  // ----- groups and unions -----

  lemma SolsOfGroup(w: World, es: Pattern, x: Operand, r: Node)
    requires Binds(w, es, x)
    ensures (exists m :: m in Sols(w, Group(es)) && CanStandFor(m, x, r)) <==> Sat(w, es, x, r)
  {
    if m :| m in Sols(w, Group(es)) && CanStandFor(m, x, r) {
      assert Sols(w, Group(es)) == Solutions(w, es);
      assert m in Part(w, es) && (x.V? ==> x.v in m && m[x.v] == r);
      assert At(m, x, r) == m;
    }
    if m :| m in Part(w, es) && CanStandFor(m, x, r) && Passes(w, es, At(m, x, r)) {
      assert At(m, x, r) == m;
      assert Sols(w, Group(es)) == Solutions(w, es);
    }
  }

  /** An element without filters of its own is satisfied by its solutions. */
  lemma SatElement(w: World, e: Element, x: Operand, r: Node)
    requires e.Group? || e.Union? || e.TriplePattern? || e.FullTextPattern?
    ensures Sat(w, [e], x, r) <==> exists m :: m in Sols(w, e) && CanStandFor(m, x, r)
  {
    PartSingle(w, e);
    assert forall m :: Passes(w, [e], m) by {
      forall m ensures Passes(w, [e], m) { assert forall f | f in [e] :: f == e; }
    }
  }

  lemma SatGroup(w: World, es: Pattern, x: Operand, r: Node)
    requires Binds(w, es, x)
    ensures Sat(w, [Group(es)], x, r) <==> Sat(w, es, x, r)
  {
    SatElement(w, Group(es), x, r);
    SolsOfGroup(w, es, x, r);
  }

  lemma BindsGroup(w: World, es: Pattern, x: Operand)
    requires Binds(w, es, x)
    ensures Binds(w, [Group(es)], x)
  {
    PartSingle(w, Group(es));
  }

  lemma {:induction false} UnionSolsOf(w: World, branches: seq<Element>, m: Mu)
    ensures m in UnionSols(w, branches) <==> exists b | b in branches :: m in Sols(w, b)
  {
    if branches != [] {
      var init, last := branches[..|branches| - 1], branches[|branches| - 1];
      UnionSolsOf(w, init, m);
      assert branches == init + [last];
      if b :| b in branches && m in Sols(w, b) {
        assert b in init || b == last;
      }
    }
  }

  lemma SatUnion(w: World, branches: seq<Element>, x: Operand, r: Node)
    requires forall b | b in branches :: b.Group?
    ensures Sat(w, [Union(branches)], x, r) <==> exists b | b in branches :: Sat(w, [b], x, r)
  {
    SatElement(w, Union(branches), x, r);
    forall b | b in branches
      ensures Sat(w, [b], x, r) <==> exists m :: m in Sols(w, b) && CanStandFor(m, x, r)
    {
      SatElement(w, b, x, r);
    }
    forall m ensures m in Sols(w, Union(branches)) <==> exists b | b in branches :: m in Sols(w, b) {
      UnionSolsOf(w, branches, m);
    }
  }

  lemma BindsUnion(w: World, branches: seq<Element>, x: Operand)
    requires forall b | b in branches :: b.Group? && Binds(w, b.inner, x)
    ensures Binds(w, [Union(branches)], x)
  {
    PartSingle(w, Union(branches));
    forall m | m in Part(w, [Union(branches)]) ensures x.V? ==> x.v in m {
      UnionSolsOf(w, branches, m);
      var b :| b in branches && m in Sols(w, b);
    }
  }

  // ----- triple patterns -----

  /** A pattern that starts with a triple pattern about `x` binds it. */
  lemma BindsLink(w: World, inverted: bool, x: Operand, p: Operand, y: Operand, rest: Pattern)
    requires NoOptional(rest)
    ensures Binds(w, [LinkPattern(inverted, x, p, y)] + rest, x)
  {
    var head := LinkPattern(inverted, x, p, y);
    PartConcat(w, [head], rest);
    PartSingle(w, head);
    forall m | m in Part(w, [head] + rest) ensures x.V? ==> x.v in m {
      var a, b := JoinParts(Sols(w, head), Part(w, rest), m);
      var t :| t in w.store && a == BindTriple(head.s, head.p, head.o, t);
    }
  }

  lemma BindsLinkAlone(w: World, inverted: bool, x: Operand, p: Operand, y: Operand)
    ensures Binds(w, [LinkPattern(inverted, x, p, y)], x)
  {
    BindsLink(w, inverted, x, p, y, []);
    assert [LinkPattern(inverted, x, p, y)] + [] == [LinkPattern(inverted, x, p, y)];
  }

  /** One triple pattern between `x` and a fixed node. */
  lemma SatLinkToNode(w: World, inverted: bool, x: Operand, p: Operand, n: Node, r: Node)
    requires p.V? ==> p != x
    ensures Sat(w, [LinkPattern(inverted, x, p, N(n))], x, r) <==> exists q :: IsLink(w, inverted, x, p, r, q, n)
  {
    var e := LinkPattern(inverted, x, p, N(n));
    SatElement(w, e, x, r);
    if m :| m in Sols(w, e) && CanStandFor(m, x, r) {
      var q := LinkOfSolution(w, inverted, x, p, n, r, m);
    }
    if q :| IsLink(w, inverted, x, p, r, q, n) {
      var m := SolutionOfLink(w, inverted, x, p, n, r, q);
    }
  }

  lemma LinkOfSolution(w: World, inverted: bool, x: Operand, p: Operand, n: Node, r: Node, m: Mu) returns (q: Node)
    requires p.V? ==> p != x
    requires m in Sols(w, LinkPattern(inverted, x, p, N(n))) && CanStandFor(m, x, r)
    ensures IsLink(w, inverted, x, p, r, q, n)
  {
    var e := LinkPattern(inverted, x, p, N(n));
    var t :| t in w.store && Fits(e.s, e.p, e.o, t) && m == BindTriple(e.s, e.p, e.o, t);
    q := t.p;
    if inverted {
      assert t == Triple(n, q, t.o);
      assert t.o == r by { if x.V? { assert m[x.v] == t.o; } }
    } else {
      assert t == Triple(t.s, q, n);
      assert t.s == r by { if x.V? { assert m[x.v] == t.s; } }
    }
  }

  lemma SolutionOfLink(w: World, inverted: bool, x: Operand, p: Operand, n: Node, r: Node, q: Node) returns (m: Mu)
    requires p.V? ==> p != x
    requires IsLink(w, inverted, x, p, r, q, n)
    ensures m in Sols(w, LinkPattern(inverted, x, p, N(n))) && CanStandFor(m, x, r)
  {
    m := BindOperand(x, r) + BindOperand(p, q);
    var t := if inverted then Triple(n, q, r) else Triple(r, q, n);
    assert x.V? ==> m[x.v] == r;
    assert p.V? ==> m[p.v] == q;
    if inverted {
      assert BindTriple(N(n), p, x, t) == m;
      assert t in w.store && Fits(N(n), p, x, t);
    } else {
      assert BindTriple(x, p, N(n), t) == m;
      assert t in w.store && Fits(x, p, N(n), t);
    }
  }

  // ----- value tests -----

  /** The regular expressions prepared from tokens. */
  predicate RegexHolds(w: World, tokens: seq<FullText.Token>, isUnion: bool, n: Node) {
    var matches := token => w.engine.regexToken(token, n);
    if isUnion then FullText.SomeHolds(tokens, matches) else FullText.AllHold(tokens, matches)
  }

  ghost predicate IsObject(w: World, n: Node) {
    exists t | t in w.store :: t.o == n
  }

  lemma SatScored(w: World, v: Var, tokens: seq<FullText.Token>, isUnion: bool, score: Var, n: Node)
    requires v != score && IsObject(w, n)
    ensures Sat(w, [FullTextPattern(V(v), tokens, isUnion, score)], V(v), n) <==> ContainsHolds(w, tokens, isUnion, n)
  {
    var e := FullTextPattern(V(v), tokens, isUnion, score);
    SatElement(w, e, V(v), n);
    if m :| m in Sols(w, e) && CanStandFor(m, V(v), n) {
      var t :| t in w.store && ContainsHolds(w, tokens, isUnion, t.o)
               && m == BindOperand(V(v), t.o)[score := w.engine.score(t.o)];
      assert m[v] == t.o;
    }
    if ContainsHolds(w, tokens, isUnion, n) {
      var t :| t in w.store && t.o == n;
      var m := BindOperand(V(v), t.o)[score := w.engine.score(t.o)];
      assert m in Sols(w, e) && m[v] == n;
    }
  }

  predicate TokenTells(w: World, t: FullText.Token, n: Node) {
    w.engine.regexToken(t.text, n) != t.negated
  }

  lemma AtomOfToken(w: World, v: Var, tokens: seq<FullText.Token>, i: nat, n: Node, m: Mu)
    requires v in m && m[v] == n && i < |tokens|
    ensures tokens[i] in tokens && RegexAtoms(V(v), tokens)[i] in RegexAtoms(V(v), tokens)
    ensures AtomHolds(w, RegexAtoms(V(v), tokens)[i], m) == TokenTells(w, tokens[i], n)
  {
  }

  lemma AllAtomsHold(w: World, v: Var, tokens: seq<FullText.Token>, n: Node, m: Mu)
    requires v in m && m[v] == n
    ensures (forall a | a in RegexAtoms(V(v), tokens) :: AtomHolds(w, a, m)) <==> RegexHolds(w, tokens, false, n)
  {
    var atoms := RegexAtoms(V(v), tokens);
    if forall a | a in atoms :: AtomHolds(w, a, m) {
      forall t | t in tokens ensures TokenTells(w, t, n) {
        var i :| 0 <= i < |tokens| && tokens[i] == t;
        AtomOfToken(w, v, tokens, i, n, m);
      }
    }
    if RegexHolds(w, tokens, false, n) {
      forall a | a in atoms ensures AtomHolds(w, a, m) {
        var i :| 0 <= i < |atoms| && atoms[i] == a;
        AtomOfToken(w, v, tokens, i, n, m);
      }
    }
  }

  lemma SomeAtomHolds(w: World, v: Var, tokens: seq<FullText.Token>, n: Node, m: Mu)
    requires v in m && m[v] == n
    ensures (exists a | a in RegexAtoms(V(v), tokens) :: AtomHolds(w, a, m)) <==> RegexHolds(w, tokens, true, n)
  {
    var atoms := RegexAtoms(V(v), tokens);
    if a :| a in atoms && AtomHolds(w, a, m) {
      var i :| 0 <= i < |atoms| && atoms[i] == a;
      AtomOfToken(w, v, tokens, i, n, m);
    }
    if t :| t in tokens && TokenTells(w, t, n) {
      var i :| 0 <= i < |tokens| && tokens[i] == t;
      AtomOfToken(w, v, tokens, i, n, m);
    }
  }

  lemma RegexAtomsHold(w: World, v: Var, tokens: seq<FullText.Token>, n: Node, m: Mu)
    requires v in m && m[v] == n
    ensures (forall a | a in RegexAtoms(V(v), tokens) :: AtomHolds(w, a, m)) <==> RegexHolds(w, tokens, false, n)
    ensures (exists a | a in RegexAtoms(V(v), tokens) :: AtomHolds(w, a, m)) <==> RegexHolds(w, tokens, true, n)
  {
    AllAtomsHold(w, v, tokens, n, m);
    SomeAtomHolds(w, v, tokens, n, m);
  }

  /** A full text pattern or filter accepts a value exactly when the text asks for it, whichever
      way it is split between bif:contains, regular expressions and the scoring pattern. */
  lemma SatReading(w: World, v: Var, r: FullText.Reading, scoring: bool, cnt: nat, n: Node)
    requires IsObject(w, n) && v != Fresh(cnt + 1)
    ensures Sat(w, ReadingPattern(V(v), r, scoring, cnt).0, V(v), n)
       <==> FullText.Accepts(r, token => w.engine.fullText(token, n), token => w.engine.regexToken(token, n))
  {
    var regexes := RegexAtoms(V(v), r.regex);
    var m := At(UNIT, V(v), n);
    RegexAtomsHold(w, v, r.regex, n, m);
    if r.contains != [] && scoring && (r.regex == [] || !r.isUnion) {
      var full := FullTextPattern(V(v), r.contains, r.isUnion, Fresh(cnt + 1));
      SatScored(w, v, r.contains, r.isUnion, Fresh(cnt + 1), n);
      if regexes == [] {
        assert ReadingPattern(V(v), r, scoring, cnt).0 == [full];
      } else {
        var f := Filter(r.isUnion, regexes);
        assert ReadingPattern(V(v), r, scoring, cnt).0 == [f] + [full];
        SatFilterOnly(w, f, V(v), n);
        FilterVars(v, f);
        PVarsSingle(f);
        PVarsSingle(full);
        SatConcat(w, [f], [full], V(v), n);
      }
    } else if r.contains != [] {
      SatFallback(w, v, r, n);
      assert ReadingPattern(V(v), r, scoring, cnt).0
          == [Filter(r.isUnion, regexes + [Atom(false, V(v), BifContains(r.contains, r.isUnion))])];
    } else if regexes != [] {
      SatFilterOnly(w, Filter(r.isUnion, regexes), V(v), n);
      assert ReadingPattern(V(v), r, scoring, cnt).0 == [Filter(r.isUnion, regexes)];
    } else {
      SatEmpty(w, V(v), n);
    }
  }

  lemma FilterVars(v: Var, f: Element)
    requires f.Filter? && forall a | a in f.atoms :: a.operand == V(v)
    ensures EVars(f) <= {v}
  {
  }

  lemma SatFallback(w: World, v: Var, r: FullText.Reading, n: Node)
    requires r.contains != []
    ensures Sat(w, [Filter(r.isUnion, RegexAtoms(V(v), r.regex) + [Atom(false, V(v), BifContains(r.contains, r.isUnion))])],
                V(v), n)
       <==> if r.isUnion then ContainsHolds(w, r.contains, true, n) || RegexHolds(w, r.regex, true, n)
            else ContainsHolds(w, r.contains, false, n) && RegexHolds(w, r.regex, false, n)
  {
    var regexes := RegexAtoms(V(v), r.regex);
    var last := Atom(false, V(v), BifContains(r.contains, r.isUnion));
    var f := Filter(r.isUnion, regexes + [last]);
    var m := At(UNIT, V(v), n);
    RegexAtomsHold(w, v, r.regex, n, m);
    SatFilterOnly(w, f, V(v), n);
    assert forall a :: a in regexes + [last] <==> a in regexes || a == last;
    assert AtomHolds(w, last, m) == ContainsHolds(w, r.contains, r.isUnion, n);
  }

  lemma SatTests(w: World, v: Var, c: Comparator, literal: LiteralValue, scoring: bool, cnt: nat, n: Node)
    requires c != Equal
    requires IsObject(w, n) && v != Fresh(cnt + 1)
    ensures Sat(w, TestPattern(V(v), c, literal, scoring, cnt).0, V(v), n) <==> ValueMatches(w, c, literal, n)
  {
    if c == Contains {
      if LiteralText(literal) == "" {
        SatEmpty(w, V(v), n);
        assert FullText.ReadText("") == FullText.START;
      } else {
        SatReading(w, v, FullText.ReadText(LiteralText(literal)), scoring, cnt, n);
      }
    } else if c == Regexp {
      SatSingleTest(w, V(v), RegexText(LiteralText(literal)), n);
    } else {
      SatSingleTest(w, V(v), CompareTo(c, literal), n);
    }
  }
}
