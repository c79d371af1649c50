/** What the variables with a name are bound to: the values that a query selects besides its
    resources (libnepomukcore/query/comparisonterm.cpp:372-414, libnepomukcore/query/query.cpp:422-436). */
module NamedValues {
  import opened Terms
  import opened Denotation
  import opened Sparql
  import opened SparqlAlgebra
  import opened Compiler
  import opened CompilerVars
  import opened CompilerProof
  import opened OptionalParts

  // ----- solutions of a group extend those of its parts -----

  predicate Extends(m: Mu, x: Mu) {
    forall v | v in x :: v in m && m[v] == x[v]
  }

  lemma StepGrows(w: World, es: Pattern, e: Element, m: Mu) returns (x: Mu)
    requires m in Part(w, es + [e])
    ensures x in Part(w, es) && Extends(m, x) && m.Keys <= x.Keys + EVars(e)
  {
    assert (es + [e])[..|es|] == es;
    match e
    case Filter(_, _) => x := m;
    case FilterNotExists(_) => x := m;
    case OptionalPart(inner) =>
      if m in Part(w, es) {
        x := m;
      } else {
        var y;
        x, y := LeftJoinParts(w, Part(w, es), inner, m);
        PartBinds(w, inner, y);
      }
    case _ =>
      var y;
      x, y := JoinParts(Part(w, es), Sols(w, e), m);
      SolsBind(w, e, y);
  }

  lemma {:induction false} PartGrows(w: World, a: Pattern, b: Pattern, m: Mu) returns (x: Mu)
    requires m in Part(w, a + b)
    ensures x in Part(w, a) && Extends(m, x) && m.Keys <= x.Keys + PVars(b)
    decreases |b|
  {
    if b == [] {
      assert a + b == a;
      x := m;
    } else {
      var init, last := b[..|b| - 1], b[|b| - 1];
      assert a + b == (a + init) + [last];
      PVarsSnoc(b);
      var y := StepGrows(w, a + init, last, m);
      x := PartGrows(w, a, init, y);
    }
  }

  lemma TripleHolds(w: World, es: Pattern, k: nat, m: Mu) returns (y: Mu)
    requires k < |es| && es[k].TriplePattern? && m in Part(w, es)
    ensures y in Sols(w, es[k]) && Extends(m, y)
  {
    assert es == (es[..k] + [es[k]]) + es[k + 1..];
    var x := PartGrows(w, es[..k] + [es[k]], es[k + 1..], m);
    PartSnoc(w, es[..k], es[k]);
    var z;
    z, y := JoinParts(Part(w, es[..k]), Sols(w, es[k]), x);
  }

  lemma GroupSolution(w: World, es: Pattern, m: Mu)
    requires m in Solutions(w, [Group(es)])
    ensures m in Part(w, es)
  {
    PartSingle(w, Group(es));
  }

  // ----- the link to a named value -----

  /** The comparison has a variable for the value, as opposed to a value to be equal to. */
  predicate HasMainVariable(t: Term, literalRange: set<Uri>) {
    t.Comparison? &&
    (if !IsValid(t.subTerm) then true
     else if ComparedAsValue(t, literalRange) then t.comparator != Equal
     else if t.subTerm.Literal? then t.comparator == Equal || t.comparator == Contains
     else !t.subTerm.Resource?)
  }

  /** Only links to other resources are followed backwards. */
  predicate IsFollowedBack(t: Term, literalRange: set<Uri>)
    requires t.Comparison?
  {
    t.inverted && (!IsValid(t.subTerm) || (!ComparedAsValue(t, literalRange) && !t.subTerm.Literal?))
  }

  /** It has a name, under which its value is selected. */
  predicate IsSelected(t: Term, literalRange: set<Uri>) {
    HasMainVariable(t, literalRange) && t.variableName != "" && t.aggregate == NoAggregateFunction
  }

  lemma MainLink(t: Term, x: Operand, isReal: bool, cfg: Config, cnt: nat) returns (c: nat)
    requires IsSelected(t, cfg.literalRange)
    ensures var es := Compile(t, x, isReal, cfg, cnt).0;
            && es != []
            && es[0] == LinkPattern(IsFollowedBack(t, cfg.literalRange), x, PropertyOperand(t.property, c).0, V(Named(t.variableName)))
  {
    c := cnt;
    if IsValid(t.subTerm) && ComparedAsValue(t, cfg.literalRange) {
      var literal := if t.subTerm.Literal? then t.subTerm.value else NoLiteral;
      c := TestPattern(V(Named(t.variableName)), t.comparator, literal, cfg.scoring, cnt).1;
    }
  }

  lemma LinkedValue(w: World, inverted: bool, p: Option<Uri>, c: nat, v: Var, y: Mu)
    requires v.Named? && y in Sols(w, LinkPattern(inverted, V(ResultVar), PropertyOperand(p, c).0, V(v)))
    ensures ResultVar in y && v in y && LinkedEitherWay(w, inverted, y[ResultVar], p, y[v])
  {
    var prop := PropertyOperand(p, c).0;
    LinkSols(w, inverted, V(ResultVar), prop, v, y);
    var r, q, n :| IsLink(w, inverted, V(ResultVar), prop, r, q, n) && y == LinkMu(V(ResultVar), prop, v, r, q, n);
    assert PropertyFits(p, q);
  }

  // ----- conjuncts -----

  /** The value of a conjunct with a name: every solution binds it to one that the resource has. */
  lemma SelectedValue(w: World, ts: seq<Term>, i: nat, cfg: Config, m: Mu)
    requires i < |ts| && IsSelected(ts[i], cfg.literalRange)
    requires m in Solutions(w, Compile(And(ts), V(ResultVar), false, cfg, 0).0)
    ensures var v := Named(ts[i].variableName);
            && ResultVar in m && v in m
            && LinkedEitherWay(w, IsFollowedBack(ts[i], cfg.literalRange), m[ResultVar], ts[i].property, m[v])
  {
    var x, isReal := V(ResultVar), HasRealPattern(ts);
    var es := CompileAll(ts, x, isReal, cfg, 0).0;
    GroupSolution(w, es, m);
    var before := CompileAll(ts[..i], x, isReal, cfg, 0);
    var head := Compile(ts[i], x, isReal, cfg, before.1);
    var c := MainLink(ts[i], x, isReal, cfg, before.1);
    ConjunctAt(ts, i, x, isReal, cfg);
    FirstOf(before.0, head.0, CompileAll(ts[i + 1..], x, isReal, cfg, head.1).0);
    var y := TripleHolds(w, es, |before.0|, m);
    LinkedValue(w, IsFollowedBack(ts[i], cfg.literalRange), ts[i].property, c, Named(ts[i].variableName), y);
  }

  lemma FirstOf<T>(a: seq<T>, b: seq<T>, c: seq<T>)
    requires b != []
    ensures (a + b + c)[|a|] == b[0]
  {
  }

  /** Where the pattern of a conjunct lies. */
  lemma ConjunctAt(ts: seq<Term>, i: nat, x: Operand, isReal: bool, cfg: Config)
    requires i < |ts|
    ensures var before := CompileAll(ts[..i], x, isReal, cfg, 0);
            var head := Compile(ts[i], x, isReal, cfg, before.1);
            CompileAll(ts, x, isReal, cfg, 0).0 == before.0 + head.0 + CompileAll(ts[i + 1..], x, isReal, cfg, head.1).0
  {
    var before := CompileAll(ts[..i], x, isReal, cfg, 0);
    var head := Compile(ts[i], x, isReal, cfg, before.1);
    assert ts == (ts[..i] + [ts[i]]) + ts[i + 1..];
    CompileAllConcat(ts[..i] + [ts[i]], ts[i + 1..], x, isReal, cfg, 0);
    CompileAllConcat(ts[..i], [ts[i]], x, isReal, cfg, 0);
    assert [ts[i]][1..] == [] && head.0 + [] == head.0;
  }

  // ----- optional conjuncts -----

  ghost predicate HasSome(w: World, p: Option<Uri>, r: Node) {
    exists v :: Linked(w, r, p, v)
  }

  /** Whatever can be extended is. */
  lemma LeftJoinExtended(w: World, a: set<Mu>, inner: Pattern, m: Mu, n: Mu) returns (x: Mu, y: Mu)
    requires m in LeftJoin(w, a, inner)
    requires n in Part(w, inner) && Compatible(m, n) && Passes(w, inner, m + n)
    ensures x in a && y in Part(w, inner) && Compatible(x, y) && m == x + y
  {
    x, y :| x in a && y in Part(w, inner) && Compatible(x, y) && Passes(w, inner, x + y) && m == x + y;
  }

  lemma LinkPasses(w: World, link: Element, m: Mu)
    requires link.TriplePattern?
    ensures Part(w, [link]) == Sols(w, link) && Passes(w, [link], m)
  {
    PartSingle(w, link);
  }

  /** A value of the resource gives a solution of the link. */
  lemma LinkForValue(w: World, p: Option<Uri>, c: nat, v: Var, m: Mu) returns (y: Mu)
    requires v.Named? && Fresh(c + 1) !in m && v !in m && ResultVar in m && HasSome(w, p, m[ResultVar])
    ensures y in Sols(w, LinkPattern(false, V(ResultVar), PropertyOperand(p, c).0, V(v))) && Compatible(m, y)
  {
    var prop, r := PropertyOperand(p, c).0, m[ResultVar];
    var n :| Linked(w, r, p, n);
    var q :| PropertyFits(p, q) && Triple(r, q, n) in w.store;
    assert IsLink(w, false, V(ResultVar), prop, r, q, n);
    LinkIsSolution(w, false, V(ResultVar), prop, v, r, q, n);
    y := LinkMu(V(ResultVar), prop, v, r, q, n);
  }

  /** An OPTIONAL with one link, behind a pattern that binds the result: it binds its variable exactly
      for the resources that have a value, and to one of these. */
  lemma OptionalLink(w: World, before: Pattern, link: Element, p: Option<Uri>, c: nat, v: Var, m: Mu)
    requires link == LinkPattern(false, V(ResultVar), PropertyOperand(p, c).0, V(v))
    requires v.Named? && v !in PVars(before) && Fresh(c + 1) !in PVars(before) && Binds(w, before, V(ResultVar))
    requires m in Part(w, before + [OptionalPart([link])])
    ensures ResultVar in m && (v in m <==> HasSome(w, p, m[ResultVar])) && (v in m ==> Linked(w, m[ResultVar], p, m[v]))
  {
    LastIsJoined(w, before, [link]);
    if m in Part(w, before) { NothingToAdd(w, before, link, p, c, v, m); } else { LinkAdded(w, before, link, p, c, v, m); }
  }

  lemma LastIsJoined(w: World, before: Pattern, inner: Pattern)
    ensures Part(w, before + [OptionalPart(inner)]) == LeftJoin(w, Part(w, before), inner)
  {
    assert (before + [OptionalPart(inner)])[..|before|] == before;
  }

  lemma NothingToAdd(w: World, before: Pattern, link: Element, p: Option<Uri>, c: nat, v: Var, m: Mu)
    requires link == LinkPattern(false, V(ResultVar), PropertyOperand(p, c).0, V(v))
    requires v.Named? && v !in PVars(before) && Fresh(c + 1) !in PVars(before) && ResultVar in m
    requires m in LeftJoin(w, Part(w, before), [link]) && m in Part(w, before)
    ensures v !in m && !HasSome(w, p, m[ResultVar])
  {
    PartBinds(w, before, m);
    if HasSome(w, p, m[ResultVar]) {
      var n := LinkForValue(w, p, c, v, m);
      LinkPasses(w, link, m + n);
      var x, y := LeftJoinExtended(w, Part(w, before), [link], m, n);
      LinkedValue(w, false, p, c, v, y);
      assert false;
    }
  }

  lemma LinkAdded(w: World, before: Pattern, link: Element, p: Option<Uri>, c: nat, v: Var, m: Mu)
    requires link == LinkPattern(false, V(ResultVar), PropertyOperand(p, c).0, V(v)) && v.Named?
    requires m in LeftJoin(w, Part(w, before), [link]) && m !in Part(w, before)
    ensures ResultVar in m && v in m && Linked(w, m[ResultVar], p, m[v])
  {
    LinkPasses(w, link, m);
    var x, y := LeftJoinParts(w, Part(w, before), [link], m);
    LinkedValue(w, false, p, c, v, y);
  }

  /** A comparison that only asks for a value, and names it. */
  predicate AsksForValue(t: Term) {
    t.Comparison? && !IsValid(t.subTerm) && t.variableName != "" && t.aggregate == NoAggregateFunction && !t.inverted
  }

  /** The value of an optional conjunct with a name: it is there exactly if the resource has one. */
  lemma OptionalValue(w: World, front: seq<Term>, t: Term, back: seq<Term>, cfg: Config, m: Mu)
    requires AsksForValue(t) && NamesApart(front + [Optional(t)] + back)
    requires Binds(w, CompileAll(front, V(ResultVar), HasRealPattern(front + [Optional(t)] + back), cfg, 0).0, V(ResultVar))
    requires m in Solutions(w, Compile(And(front + [Optional(t)] + back), V(ResultVar), false, cfg, 0).0)
    ensures var v := Named(t.variableName);
            && ResultVar in m && (v in m <==> HasSome(w, t.property, m[ResultVar]))
            && (v in m ==> Linked(w, m[ResultVar], t.property, m[v]))
  {
    var x, v, isReal := V(ResultVar), Named(t.variableName), HasRealPattern(front + [Optional(t)] + back);
    var before := CompileAll(front, x, isReal, cfg, 0);
    var opt := Compile(Optional(t), x, isReal, cfg, before.1);
    var after := CompileAll(back, x, isReal, cfg, opt.1);
    OptionalLies(front, t, back, isReal, cfg);
    NameIsElsewhere(front, t, back);
    CompileAllVars(front, x, isReal, cfg, 0);
    CompileAllVars(back, x, isReal, cfg, opt.1);
    GroupSolution(w, before.0 + opt.0 + after.0, m);
    var y := PartGrows(w, before.0 + opt.0, after.0, m);
    OptionalLink(w, before.0, opt.0[0].inner[0], t.property, before.1, v, y);
  }

  lemma OptionalLies(front: seq<Term>, t: Term, back: seq<Term>, isReal: bool, cfg: Config)
    requires AsksForValue(t)
    ensures var x := V(ResultVar);
            var before := CompileAll(front, x, isReal, cfg, 0);
            var opt := Compile(Optional(t), x, isReal, cfg, before.1);
            && CompileAll(front + [Optional(t)] + back, x, isReal, cfg, 0).0
               == before.0 + opt.0 + CompileAll(back, x, isReal, cfg, opt.1).0
            && opt.0 == [OptionalPart([LinkPattern(false, x, PropertyOperand(t.property, before.1).0, V(Named(t.variableName)))])]
  {
    var all := front + [Optional(t)] + back;
    assert all[..|front|] == front && all[|front|] == Optional(t) && all[|front| + 1..] == back;
    ConjunctAt(all, |front|, V(ResultVar), isReal, cfg);
  }

  lemma NameIsElsewhere(front: seq<Term>, t: Term, back: seq<Term>)
    requires AsksForValue(t) && NamesApart(front + [Optional(t)] + back)
    ensures t.variableName !in AllNames(front) && t.variableName !in AllNames(back)
  {
    var all := front + [Optional(t)] + back;
    var k := |front|;
    assert t.variableName in Names(all[k]);
    forall s | s in front ensures t.variableName !in Names(s) {
      var i :| 0 <= i < |front| && front[i] == s;
      assert all[i] == s && Names(all[i]) !! Names(all[k]);
    }
    forall s | s in back ensures t.variableName !in Names(s) {
      var i :| 0 <= i < |back| && back[i] == s;
      assert all[k + 1 + i] == s && Names(all[k]) !! Names(all[k + 1 + i]);
    }
  }
}
