/** Laws of the pattern semantics: which variables matter where, groups as joins of their parts,
    and satisfiability of a pattern at one node. */
module SparqlAlgebra {
  import opened Denotation
  import opened Sparql

  // ----- joins -----

  lemma JoinHas(a: set<Mu>, b: set<Mu>, m: Mu, n: Mu)
    requires m in a && n in b && Compatible(m, n)
    ensures m + n in Join(a, b)
  {
  }

  lemma JoinParts(a: set<Mu>, b: set<Mu>, m: Mu) returns (x: Mu, y: Mu)
    requires m in Join(a, b)
    ensures x in a && y in b && Compatible(x, y) && m == x + y
  {
    x, y :| x in a && y in b && Compatible(x, y) && m == x + y;
  }

  lemma LeftJoinParts(w: World, a: set<Mu>, inner: Pattern, m: Mu) returns (x: Mu, y: Mu)
    requires m in LeftJoin(w, a, inner) && m !in a
    ensures x in a && y in Part(w, inner) && Compatible(x, y) && m == x + y
  {
    x, y :| x in a && y in Part(w, inner) && Compatible(x, y) && Passes(w, inner, x + y) && m == x + y;
  }

  const UNIT: Mu := map[]

  lemma JoinUnitMember(a: set<Mu>, m: Mu)
    ensures m in Join(a, {UNIT}) <==> m in a
    ensures m in Join({UNIT}, a) <==> m in a
  {
    assert m + UNIT == m && UNIT + m == m;
    if m in a {
      JoinHas(a, {UNIT}, m, UNIT);
      JoinHas({UNIT}, a, UNIT, m);
    }
    if m in Join(a, {UNIT}) {
      var x, y := JoinParts(a, {UNIT}, m);
      assert x + y == x;
    }
    if m in Join({UNIT}, a) {
      var x, y := JoinParts({UNIT}, a, m);
      assert x + y == y;
    }
  }

  lemma JoinUnit(a: set<Mu>)
    ensures Join(a, {UNIT}) == a && Join({UNIT}, a) == a
  {
    forall m ensures (m in Join(a, {UNIT}) <==> m in a) && (m in Join({UNIT}, a) <==> m in a) {
      JoinUnitMember(a, m);
    }
  }

  lemma CompatibleTriple(x: Mu, y: Mu, z: Mu)
    ensures Compatible(x, y) && Compatible(x + y, z) <==> Compatible(y, z) && Compatible(x, y + z)
    ensures Compatible(x, y) && Compatible(x + y, z) ==> (x + y) + z == x + (y + z)
  {
    if Compatible(y, z) && Compatible(x, y + z) {
      forall v | v in x && v in y ensures x[v] == y[v] { assert v in y + z && (y + z)[v] == y[v]; }
      forall v | v in x + y && v in z ensures (x + y)[v] == z[v] { assert v in y + z && (y + z)[v] == z[v]; }
    }
    if Compatible(x, y) && Compatible(x + y, z) {
      forall v | v in y && v in z ensures y[v] == z[v] { assert v in x + y; }
      forall v | v in x && v in y + z ensures x[v] == (y + z)[v] { assert v in x + y; }
    }
  }

  lemma JoinAssociative(a: set<Mu>, b: set<Mu>, c: set<Mu>)
    ensures Join(Join(a, b), c) == Join(a, Join(b, c))
  {
    forall m | m in Join(Join(a, b), c) ensures m in Join(a, Join(b, c)) {
      var xy, z := JoinParts(Join(a, b), c, m);
      var x, y := JoinParts(a, b, xy);
      CompatibleTriple(x, y, z);
      JoinHas(b, c, y, z);
      JoinHas(a, Join(b, c), x, y + z);
    }
    forall m | m in Join(a, Join(b, c)) ensures m in Join(Join(a, b), c) {
      var x, yz := JoinParts(a, Join(b, c), m);
      var y, z := JoinParts(b, c, yz);
      CompatibleTriple(x, y, z);
      JoinHas(a, b, x, y);
      JoinHas(Join(a, b), c, x + y, z);
    }
  }

  predicate NoOptional(es: Pattern) {
    forall e | e in es :: !e.OptionalPart?
  }

  /** A pattern appended without OPTIONAL is joined. */
  lemma {:induction false} PartConcat(w: World, a: Pattern, b: Pattern)
    requires NoOptional(b)
    ensures Part(w, a + b) == Join(Part(w, a), Part(w, b))
    decreases |b|
  {
    if b == [] {
      assert a + b == a;
      JoinUnit(Part(w, a));
    } else {
      var init, last := b[..|b| - 1], b[|b| - 1];
      assert (a + b)[..|a + b| - 1] == a + init && (a + b)[|a + b| - 1] == last;
      PartConcat(w, a, init);
      JoinAssociative(Part(w, a), Part(w, init), Sols(w, last));
    }
  }

  lemma PartSnoc(w: World, es: Pattern, e: Element)
    requires !e.OptionalPart?
    ensures Part(w, es + [e]) == if e.Filter? || e.FilterNotExists? then Part(w, es) else Join(Part(w, es), Sols(w, e))
  {
    assert (es + [e])[..|es|] == es;
  }

  lemma PartSingle(w: World, e: Element)
    requires !e.OptionalPart?
    ensures Part(w, [e]) == Sols(w, e)
  {
    var none: Pattern := [];
    PartSnoc(w, none, e);
    assert none + [e] == [e];
    assert Part(w, none) == {UNIT};
    if !e.Filter? && !e.FilterNotExists? { JoinUnit(Sols(w, e)); }
  }

  // ----- which variables matter -----

  lemma PVarsConcat(a: Pattern, b: Pattern)
    ensures PVars(a + b) == PVars(a) + PVars(b)
  {
    assert forall e :: e in a + b <==> e in a || e in b;
  }

  lemma PVarsSingle(e: Element)
    ensures PVars([e]) == EVars(e)
  {
    assert e in [e];
  }

  lemma PVarsIn(es: Pattern, e: Element)
    requires e in es
    ensures EVars(e) <= PVars(es)
  {
  }

  lemma PVarsSnoc(es: Pattern)
    requires es != []
    ensures PVars(es) == PVars(es[..|es| - 1]) + EVars(es[|es| - 1])
  {
    var init, last := es[..|es| - 1], es[|es| - 1];
    assert es == init + [last];
    PVarsConcat(init, [last]);
    PVarsSingle(last);
  }

  /** Solutions only bind variables of the pattern. */
  lemma {:induction false} PartBinds(w: World, es: Pattern, m: Mu)
    requires m in Part(w, es)
    ensures m.Keys <= PVars(es)
    decreases PSize(es), |es|, 2
  {
    if es != [] {
      PVarsSnoc(es);
      var before, last := Part(w, es[..|es| - 1]), es[|es| - 1];
      match last
      case Filter(_, _) => PartBinds(w, es[..|es| - 1], m);
      case FilterNotExists(_) => PartBinds(w, es[..|es| - 1], m);
      case OptionalPart(inner) =>
        assert PSize(es) == PSize(es[..|es| - 1]) + 1 + PSize(inner);
        if m in before {
          PartBinds(w, es[..|es| - 1], m);
        } else {
          var x, y := LeftJoinParts(w, before, inner, m);
          PartBinds(w, es[..|es| - 1], x);
          PartBinds(w, inner, y);
        }
      case _ =>
        var x, y := JoinParts(before, Sols(w, last), m);
        PartBinds(w, es[..|es| - 1], x);
        SolsBind(w, last, y);
    }
  }

  lemma {:induction false} SolsBind(w: World, e: Element, m: Mu)
    requires m in Sols(w, e)
    ensures m.Keys <= EVars(e)
    decreases ESize(e), 0, 0
  {
    match e
    case Group(inner) => PartBinds(w, inner, m);
    case Union(branches) => UnionBinds(w, branches, m);
    case _ =>
  }

  lemma {:induction false} UnionBinds(w: World, branches: seq<Element>, m: Mu)
    requires m in UnionSols(w, branches)
    ensures m.Keys <= PVars(branches)
    decreases PSize(branches), |branches|, 2
  {
    if branches != [] {
      PVarsSnoc(branches);
      if m in UnionSols(w, branches[..|branches| - 1]) {
        UnionBinds(w, branches[..|branches| - 1], m);
      } else {
        SolsBind(w, branches[|branches| - 1], m);
      }
    }
  }

  predicate AgreeOn(vs: set<Var>, m: Mu, n: Mu) {
    forall v | v in vs :: (v in m <==> v in n) && (v in m ==> m[v] == n[v])
  }

  lemma {:induction false} PSubstAgree(es: Pattern, m: Mu, n: Mu)
    requires AgreeOn(PVars(es), m, n)
    ensures PSubst(es, m) == PSubst(es, n)
    decreases es
  {
    forall i | 0 <= i < |es| ensures ESubst(es[i], m) == ESubst(es[i], n) {
      PVarsIn(es, es[i]);
      ESubstAgree(es[i], m, n);
    }
  }

  lemma {:induction false} ESubstAgree(e: Element, m: Mu, n: Mu)
    requires AgreeOn(EVars(e), m, n)
    ensures ESubst(e, m) == ESubst(e, n)
    decreases e
  {
    match e
    case TriplePattern(s, p, o) =>
    case FullTextPattern(o, tokens, isUnion, score) =>
    case Filter(_, atoms) =>
      forall i | 0 <= i < |atoms| ensures SubstAtom(atoms[i], m) == SubstAtom(atoms[i], n) {
        assert forall v | v in OperandVars(atoms[i].operand) :: v in EVars(e);
      }
    case FilterNotExists(inner) => PSubstAgree(inner, m, n);
    case Group(inner) => PSubstAgree(inner, m, n);
    case OptionalPart(inner) => PSubstAgree(inner, m, n);
    case Union(branches) => PSubstAgree(branches, m, n);
  }

  /** Whether the filters of a pattern hold depends on its own variables only. */
  lemma PassesAgree(w: World, es: Pattern, m: Mu, n: Mu)
    requires AgreeOn(PVars(es), m, n)
    ensures Passes(w, es, m) == Passes(w, es, n)
  {
    forall e | e in es ensures EPasses(w, e, m) == EPasses(w, e, n) {
      PVarsIn(es, e);
      match e
      case Filter(_, atoms) =>
        forall a | a in atoms ensures AtomHolds(w, a, m) == AtomHolds(w, a, n) {
          assert forall v | v in OperandVars(a.operand) :: v in EVars(e);
        }
      case FilterNotExists(inner) => PSubstAgree(inner, m, n);
      case _ =>
    }
  }

  lemma PassesConcat(w: World, a: Pattern, b: Pattern, m: Mu)
    ensures Passes(w, a + b, m) == (Passes(w, a, m) && Passes(w, b, m))
  {
    assert forall e :: e in a + b <==> e in a || e in b;
  }

  // ----- satisfiability at a node -----

  /** A solution extended with the knowledge that `x` stands for `r`. */
  function At(m: Mu, x: Operand, r: Node): Mu {
    if x.V? then m[x.v := r] else m
  }

  predicate CanStandFor(m: Mu, x: Operand, r: Node) {
    match x
    case V(v) => v in m ==> m[v] == r
    case N(node) => node == r
  }

  /** The pattern has a solution in which `x` stands for `r`. */
  ghost predicate Sat(w: World, es: Pattern, x: Operand, r: Node) {
    exists m :: m in Part(w, es) && CanStandFor(m, x, r) && Passes(w, es, At(m, x, r))
  }

  /** Every solution binds `x`, so that the pattern can stand alone as a group. */
  ghost predicate Binds(w: World, es: Pattern, x: Operand) {
    x.V? ==> forall m | m in Part(w, es) :: x.v in m
  }

  /** Patterns that share at most the variable `x` are satisfied independently of each other. */
  lemma SatConcat(w: World, a: Pattern, b: Pattern, x: Operand, r: Node)
    requires NoOptional(b)
    requires PVars(a) * PVars(b) <= OperandVars(x)
    ensures Sat(w, a + b, x, r) <==> Sat(w, a, x, r) && Sat(w, b, x, r)
  {
    PartConcat(w, a, b);
    if Sat(w, a + b, x, r) {
      var m :| m in Part(w, a + b) && CanStandFor(m, x, r) && Passes(w, a + b, At(m, x, r));
      var ma, mb :| ma in Part(w, a) && mb in Part(w, b) && Compatible(ma, mb) && m == ma + mb;
      SatSplit(w, a, b, x, r, ma, mb);
      PassesConcat(w, a, b, At(m, x, r));
    }
    if Sat(w, a, x, r) && Sat(w, b, x, r) {
      var ma :| ma in Part(w, a) && CanStandFor(ma, x, r) && Passes(w, a, At(ma, x, r));
      var mb :| mb in Part(w, b) && CanStandFor(mb, x, r) && Passes(w, b, At(mb, x, r));
      PartBinds(w, a, ma);
      PartBinds(w, b, mb);
      assert Compatible(ma, mb) by {
        forall v | v in ma && v in mb ensures ma[v] == mb[v] { assert v in PVars(a) * PVars(b); }
      }
      JoinHas(Part(w, a), Part(w, b), ma, mb);
      SatSplit(w, a, b, x, r, ma, mb);
      PassesConcat(w, a, b, At(ma + mb, x, r));
    }
  }

  lemma SatSplit(w: World, a: Pattern, b: Pattern, x: Operand, r: Node, ma: Mu, mb: Mu)
    requires PVars(a) * PVars(b) <= OperandVars(x)
    requires ma in Part(w, a) && mb in Part(w, b) && Compatible(ma, mb)
    requires CanStandFor(ma + mb, x, r) || (CanStandFor(ma, x, r) && CanStandFor(mb, x, r))
    ensures CanStandFor(ma + mb, x, r) && CanStandFor(ma, x, r) && CanStandFor(mb, x, r)
    ensures Passes(w, a, At(ma + mb, x, r)) == Passes(w, a, At(ma, x, r))
    ensures Passes(w, b, At(ma + mb, x, r)) == Passes(w, b, At(mb, x, r))
  {
    PartBinds(w, a, ma);
    PartBinds(w, b, mb);
    forall v | v in PVars(a) && v !in OperandVars(x) ensures v !in mb { assert v !in PVars(b); }
    forall v | v in PVars(b) && v !in OperandVars(x) ensures v !in ma { assert v !in PVars(a); }
    PassesAgree(w, a, At(ma + mb, x, r), At(ma, x, r));
    PassesAgree(w, b, At(ma + mb, x, r), At(mb, x, r));
  }

  ghost predicate Edge(w: World, inverted: bool, a: Node, q: Node, b: Node) {
    (if inverted then Triple(b, q, a) else Triple(a, q, b)) in w.store
  }

  predicate OperandFits(o: Operand, n: Node) {
    o.N? ==> o.node == n
  }

  /** The bindings that an edge r -q-> n (or r <-q- n) gives to a triple pattern. */
  function LinkMu(x: Operand, p: Operand, v: Var, r: Node, q: Node, n: Node): Mu {
    BindOperand(x, r) + BindOperand(p, q) + map[v := n]
  }

  ghost predicate IsLink(w: World, inverted: bool, x: Operand, p: Operand, r: Node, q: Node, n: Node) {
    Edge(w, inverted, r, q, n) && OperandFits(x, r) && OperandFits(p, q)
  }

  lemma LinkMuIsBindTriple(inverted: bool, x: Operand, p: Operand, v: Var, r: Node, q: Node, n: Node)
    requires V(v) != x && p != V(v) && (p.V? ==> p != x)
    ensures LinkMu(x, p, v, r, q, n) ==
      if inverted then BindTriple(V(v), p, x, Triple(n, q, r)) else BindTriple(x, p, V(v), Triple(r, q, n))
    ensures OperandFits(x, r) && OperandFits(p, q) <==>
      if inverted then Fits(V(v), p, x, Triple(n, q, r)) else Fits(x, p, V(v), Triple(r, q, n))
  {
    var m := LinkMu(x, p, v, r, q, n);
    var b := if inverted then BindTriple(V(v), p, x, Triple(n, q, r)) else BindTriple(x, p, V(v), Triple(r, q, n));
    assert m.Keys == b.Keys == OperandVars(x) + OperandVars(p) + {v};
    forall y | y in m ensures m[y] == b[y] {
    }
    assert m == b;
  }

  /** A solution of one triple pattern with three different operands is one edge of the store. */
  lemma LinkSols(w: World, inverted: bool, x: Operand, p: Operand, v: Var, m: Mu)
    requires V(v) != x && p != V(v) && (p.V? ==> p != x)
    requires m in Sols(w, LinkPattern(inverted, x, p, V(v)))
    ensures exists r, q, n :: IsLink(w, inverted, x, p, r, q, n) && m == LinkMu(x, p, v, r, q, n)
  {
    var s, o := if inverted then V(v) else x, if inverted then x else V(v);
    var t :| t in w.store && Fits(s, p, o, t) && m == BindTriple(s, p, o, t);
    var r, n := if inverted then t.o else t.s, if inverted then t.s else t.o;
    assert t == if inverted then Triple(n, t.p, r) else Triple(r, t.p, n);
    LinkMuIsBindTriple(inverted, x, p, v, r, t.p, n);
    assert IsLink(w, inverted, x, p, r, t.p, n);
  }

  lemma LinkIsSolution(w: World, inverted: bool, x: Operand, p: Operand, v: Var, r: Node, q: Node, n: Node)
    requires V(v) != x && p != V(v) && (p.V? ==> p != x)
    requires IsLink(w, inverted, x, p, r, q, n)
    ensures LinkMu(x, p, v, r, q, n) in Sols(w, LinkPattern(inverted, x, p, V(v)))
  {
    LinkMuIsBindTriple(inverted, x, p, v, r, q, n);
    var t := if inverted then Triple(n, q, r) else Triple(r, q, n);
    assert t in w.store;
  }

  /** A triple pattern from `x` to a new variable `v`, followed by a pattern about `v` alone. */
  lemma SatChain(w: World, inverted: bool, x: Operand, p: Operand, v: Var, rest: Pattern, r: Node)
    requires V(v) != x && p != V(v) && (p.V? ==> p != x)
    requires NoOptional(rest) && PVars(rest) !! (OperandVars(x) + OperandVars(p))
    ensures Sat(w, [LinkPattern(inverted, x, p, V(v))] + rest, x, r)
      <==> exists q, n :: IsLink(w, inverted, x, p, r, q, n) && Sat(w, rest, V(v), n)
  {
    if Sat(w, [LinkPattern(inverted, x, p, V(v))] + rest, x, r) {
      var q, n := SatChainSplit(w, inverted, x, p, v, rest, r);
    }
    if q, n :| IsLink(w, inverted, x, p, r, q, n) && Sat(w, rest, V(v), n) {
      SatChainMake(w, inverted, x, p, v, rest, r, q, n);
    }
  }

  lemma SatChainSplit(w: World, inverted: bool, x: Operand, p: Operand, v: Var, rest: Pattern, r: Node)
      returns (q: Node, n: Node)
    requires V(v) != x && p != V(v) && (p.V? ==> p != x)
    requires NoOptional(rest) && PVars(rest) !! (OperandVars(x) + OperandVars(p))
    requires Sat(w, [LinkPattern(inverted, x, p, V(v))] + rest, x, r)
    ensures IsLink(w, inverted, x, p, r, q, n) && Sat(w, rest, V(v), n)
  {
    var head := LinkPattern(inverted, x, p, V(v));
    var m, mt, mr := SatOfLink(w, head, rest, x, r);
    LinkSols(w, inverted, x, p, v, mt);
    var r';
    r', q, n :| IsLink(w, inverted, x, p, r', q, n) && mt == LinkMu(x, p, v, r', q, n);
    SameEnds(x, p, v, PVars(rest), r, r', q, n, mr);
    SatChainStep(w, x, p, v, rest, r, q, n, mr);
  }

  /** A solution of an element followed by a pattern, taken apart. */
  lemma SatOfLink(w: World, head: Element, rest: Pattern, x: Operand, r: Node) returns (m: Mu, mt: Mu, mr: Mu)
    requires !head.OptionalPart? && NoOptional(rest) && Sat(w, [head] + rest, x, r)
    ensures mt in Sols(w, head) && mr in Part(w, rest) && mr.Keys <= PVars(rest)
    ensures Compatible(mt, mr) && m == mt + mr && CanStandFor(m, x, r) && Passes(w, rest, At(m, x, r))
  {
    PartConcat(w, [head], rest);
    PartSingle(w, head);
    m :| m in Part(w, [head] + rest) && CanStandFor(m, x, r) && Passes(w, [head] + rest, At(m, x, r));
    PassesConcat(w, [head], rest, At(m, x, r));
    mt, mr := JoinParts(Sols(w, head), Part(w, rest), m);
    PartBinds(w, rest, mr);
  }

  lemma SameEnds(x: Operand, p: Operand, v: Var, vs: set<Var>, r: Node, r': Node, q: Node, n: Node, mr: Mu)
    requires V(v) != x && p != V(v) && (p.V? ==> p != x)
    requires vs !! (OperandVars(x) + OperandVars(p)) && mr.Keys <= vs
    requires Compatible(LinkMu(x, p, v, r', q, n), mr) && CanStandFor(LinkMu(x, p, v, r', q, n) + mr, x, r)
    requires OperandFits(x, r')
    ensures r' == r && CanStandFor(mr, V(v), n)
  {
    var mt := LinkMu(x, p, v, r', q, n);
    assert mt[v] == n;
    if x.V? {
      assert x.v !in mr && mt[x.v] == r';
    }
  }

  lemma SatChainMake(w: World, inverted: bool, x: Operand, p: Operand, v: Var, rest: Pattern,
                     r: Node, q: Node, n: Node)
    requires V(v) != x && p != V(v) && (p.V? ==> p != x)
    requires NoOptional(rest) && PVars(rest) !! (OperandVars(x) + OperandVars(p))
    requires IsLink(w, inverted, x, p, r, q, n) && Sat(w, rest, V(v), n)
    ensures Sat(w, [LinkPattern(inverted, x, p, V(v))] + rest, x, r)
  {
    var mr :| mr in Part(w, rest) && CanStandFor(mr, V(v), n) && Passes(w, rest, At(mr, V(v), n));
    PartBinds(w, rest, mr);
    LinkIsSolution(w, inverted, x, p, v, r, q, n);
    SatChainStep(w, x, p, v, rest, r, q, n, mr);
    CompatibleEnds(x, p, v, PVars(rest), r, q, n, mr);
    SatFromLink(w, LinkPattern(inverted, x, p, V(v)), rest, x, r, LinkMu(x, p, v, r, q, n), mr);
  }

  lemma CompatibleEnds(x: Operand, p: Operand, v: Var, vs: set<Var>, r: Node, q: Node, n: Node, mr: Mu)
    requires V(v) != x && p != V(v) && (p.V? ==> p != x)
    requires vs !! (OperandVars(x) + OperandVars(p)) && mr.Keys <= vs
    requires CanStandFor(mr, V(v), n) && OperandFits(x, r)
    ensures Compatible(LinkMu(x, p, v, r, q, n), mr) && CanStandFor(LinkMu(x, p, v, r, q, n) + mr, x, r)
  {
    var mt := LinkMu(x, p, v, r, q, n);
    forall y | y in mt && y in mr ensures mt[y] == mr[y] {
      assert y in vs && y !in OperandVars(x) && y !in OperandVars(p);
    }
  }

  lemma SatFromLink(w: World, head: Element, rest: Pattern, x: Operand, r: Node, mt: Mu, mr: Mu)
    requires !head.OptionalPart? && !head.Filter? && !head.FilterNotExists? && NoOptional(rest)
    requires mt in Sols(w, head) && mr in Part(w, rest) && Compatible(mt, mr)
    requires CanStandFor(mt + mr, x, r) && Passes(w, rest, At(mt + mr, x, r))
    ensures Sat(w, [head] + rest, x, r)
  {
    PartConcat(w, [head], rest);
    PartSingle(w, head);
    JoinHas(Sols(w, head), Part(w, rest), mt, mr);
    PassesConcat(w, [head], rest, At(mt + mr, x, r));
  }

  lemma SatChainStep(w: World, x: Operand, p: Operand, v: Var, rest: Pattern, r: Node, q: Node, n: Node, mr: Mu)
    requires V(v) != x && p != V(v) && (p.V? ==> p != x)
    requires PVars(rest) !! (OperandVars(x) + OperandVars(p))
    requires mr.Keys <= PVars(rest) && CanStandFor(mr, V(v), n)
    ensures var mt := LinkMu(x, p, v, r, q, n);
            Passes(w, rest, At(mt + mr, x, r)) == Passes(w, rest, At(mr, V(v), n))
  {
    var mt := LinkMu(x, p, v, r, q, n);
    PassesAgree(w, rest, At(mt + mr, x, r), At(mr, V(v), n));
  }
}
