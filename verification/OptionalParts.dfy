/** OPTIONAL parts of a query: harmless behind the conjuncts that bind the result, a restriction in
    front of them. */
module OptionalParts {
  import opened Terms
  import opened Denotation
  import opened Sparql
  import opened SparqlAlgebra
  import opened Compiler
  import opened CompilerVars
  import opened CompilerSat
  import opened CompilerProof

  lemma LeftJoinExtends(w: World, a: set<Mu>, inner: Pattern, m: Mu)
    requires m in a
    ensures exists n :: (n == map[] || (n in Part(w, inner) && Compatible(m, n))) && m + n in LeftJoin(w, a, inner)
  {
    if n :| n in Part(w, inner) && Compatible(m, n) && Passes(w, inner, m + n) {
      assert m + n in LeftJoin(w, a, inner);
    } else {
      assert m in LeftJoin(w, a, inner);
      assert m + map[] == m;
    }
  }

  lemma PartWithOptional(w: World, es: Pattern, inner: Pattern)
    ensures Part(w, es + [OptionalPart(inner)]) == LeftJoin(w, Part(w, es), inner)
  {
    var all := es + [OptionalPart(inner)];
    assert all[..|all| - 1] == es && all[|all| - 1] == OptionalPart(inner);
  }

  /** Bindings that an OPTIONAL part adds do not disturb the filters of what precedes it. */
  lemma ExtensionPasses(w: World, es: Pattern, inner: Pattern, v: Var, m: Mu, n: Mu)
    requires PVars(es) * PVars(inner) <= {v} && v in m
    requires n == map[] || (n in Part(w, inner) && Compatible(m, n))
    ensures Passes(w, es + [OptionalPart(inner)], m + n) == Passes(w, es, m)
    ensures (m + n)[v] == m[v]
  {
    if n != map[] {
      PartBinds(w, inner, n);
    }
    forall u | u in PVars(es) && u in n ensures u == v { assert u in PVars(es) * PVars(inner); }
    PassesAgree(w, es, m + n, m);
    PassesConcat(w, es, [OptionalPart(inner)], m + n);
  }

  /** An OPTIONAL part at the end, sharing only the result variable, neither adds nor removes results. */
  lemma OptionalKeepsResults(w: World, es: Pattern, inner: Pattern, v: Var)
    requires Binds(w, es, V(v)) && PVars(es) * PVars(inner) <= {v}
    ensures Binds(w, es + [OptionalPart(inner)], V(v))
    ensures forall r :: Returns(w, es + [OptionalPart(inner)], v, r) <==> Returns(w, es, v, r)
  {
    var all := es + [OptionalPart(inner)];
    PartWithOptional(w, es, inner);
    forall m' | m' in Part(w, all)
      ensures v in m' && exists m :: m in Part(w, es) && m[v] == m'[v] && Passes(w, all, m') == Passes(w, es, m)
    {
      if m' in Part(w, es) {
        assert m' + map[] == m';
        ExtensionPasses(w, es, inner, v, m', map[]);
      } else {
        var m, n := LeftJoinParts(w, Part(w, es), inner, m');
        ExtensionPasses(w, es, inner, v, m, n);
      }
    }
    forall r ensures Returns(w, all, v, r) <==> Returns(w, es, v, r) {
      if m :| m in Solutions(w, es) && v in m && m[v] == r {
        LeftJoinExtends(w, Part(w, es), inner, m);
        var n :| (n == map[] || (n in Part(w, inner) && Compatible(m, n))) && m + n in Part(w, all);
        ExtensionPasses(w, es, inner, v, m, n);
        assert m + n in Solutions(w, all);
      }
      if m' :| m' in Solutions(w, all) && v in m' && m'[v] == r {
        var m :| m in Part(w, es) && m[v] == m'[v] && Passes(w, all, m') == Passes(w, es, m);
        assert m in Solutions(w, es);
      }
    }
  }

  lemma {:induction false} CompileAllConcat(a: seq<Term>, b: seq<Term>, x: Operand, isReal: bool, cfg: Config, cnt: nat)
    ensures var first := CompileAll(a, x, isReal, cfg, cnt);
            var second := CompileAll(b, x, isReal, cfg, first.1);
            CompileAll(a + b, x, isReal, cfg, cnt) == (first.0 + second.0, second.1)
    decreases |a|
  {
    if a == [] {
      assert a + b == b;
      assert [] + CompileAll(b, x, isReal, cfg, cnt).0 == CompileAll(b, x, isReal, cfg, cnt).0;
    } else {
      assert (a + b)[1..] == a[1..] + b;
      var head := Compile(a[0], x, isReal, cfg, cnt);
      CompileAllConcat(a[1..], b, x, isReal, cfg, head.1);
      var tail := CompileAll(a[1..], x, isReal, cfg, head.1);
      assert head.0 + (tail.0 + CompileAll(b, x, isReal, cfg, tail.1).0)
          == (head.0 + tail.0) + CompileAll(b, x, isReal, cfg, tail.1).0;
    }
  }

  // ----- conjunctions with optional conjuncts anywhere -----

  predicate AllOptional(ts: seq<Term>) {
    forall t | t in ts :: t.Optional?
  }

  ghost predicate Runs(w: World, t: Term, cfg: Config) {
    IsValid(t) && Compilable(t, cfg.literalRange) && WorldFits(w, t, cfg)
  }

  /** The conjuncts that are not optional can be compiled, and so can the optional ones that come
      before anything that binds the result. */
  ghost predicate AllRun(w: World, ts: seq<Term>, isReal: bool, cfg: Config) {
    && (forall t | t in ts && !t.Optional? :: Runs(w, t, cfg))
    && FrontRuns(w, ts, isReal, cfg)
  }

  ghost predicate FrontRuns(w: World, ts: seq<Term>, isReal: bool, cfg: Config) {
    ts == [] ||
    (if ts[0].Optional? then Runs(w, ts[0].subTerm, cfg) && FrontRuns(w, ts[1..], isReal, cfg)
     else LeansOnParent(ts[0], isReal) ==> FrontRuns(w, ts[1..], isReal, cfg))
  }

  ghost predicate SomeoneIsFound(w: World, t: Term) {
    exists n :: Typed(w, n) && Found(t, w, n)
  }

  /** What the order of the conjuncts makes of the result: the first conjunct that can bind it does,
      be it an optional one, unless nothing at all meets that. */
  ghost predicate FrontAllows(w: World, ts: seq<Term>, isReal: bool, r: Node) {
    && ts != []
    && if ts[0].Optional? then
         if SomeoneIsFound(w, ts[0].subTerm) then Found(ts[0].subTerm, w, r) else FrontAllows(w, ts[1..], isReal, r)
       else LeansOnParent(ts[0], isReal) ==> FrontAllows(w, ts[1..], isReal, r)
  }

  /** Every conjunct that is not optional finds the resource. */
  ghost predicate OthersFound(w: World, ts: seq<Term>, r: Node) {
    forall t | t in ts && !t.Optional? :: Found(t, w, r)
  }

  lemma OthersFoundCons(w: World, ts: seq<Term>, r: Node)
    requires ts != []
    ensures OthersFound(w, ts, r) <==> (ts[0].Optional? || Found(ts[0], w, r)) && OthersFound(w, ts[1..], r)
  {
    assert forall t :: t in ts <==> t == ts[0] || t in ts[1..];
  }

  lemma RunsRest(w: World, ts: seq<Term>, cfg: Config)
    requires ts != [] && NamesApart(ts) && forall t | t in ts && !t.Optional? :: Runs(w, t, cfg)
    ensures NamesApart(ts[1..]) && forall t | t in ts[1..] && !t.Optional? :: Runs(w, t, cfg)
  {
    assert forall t | t in ts[1..] :: t in ts;
  }

  /** A pattern with a conjunct appended keeps to its variables. */
  lemma GrownWithin(es: Pattern, head: Pattern, t: Term, lo: nat, hi: nat, names: set<string>)
    requires Within(es, V(ResultVar), 0, lo, names) && Within(head, V(ResultVar), lo, hi, Names(t)) && lo <= hi
    requires Names(t) !! names
    ensures Within(es + head, V(ResultVar), 0, hi, names + Names(t))
    ensures PVars(es) * PVars(head) <= {ResultVar}
  {
    PVarsConcat(es, head);
  }

  // ----- behind something that binds the result -----

  /** The result is bound, and to typed resources only. */
  ghost predicate Bound(w: World, es: Pattern) {
    Binds(w, es, V(ResultVar)) && forall r | Sat(w, es, V(ResultVar), r) :: Typed(w, r)
  }

  lemma JoinedSat(w: World, es: Pattern, b: Pattern)
    requires NoOptional(b) && PVars(es) * PVars(b) <= {ResultVar}
    ensures forall r :: Sat(w, es + b, V(ResultVar), r) <==> Sat(w, es, V(ResultVar), r) && Sat(w, b, V(ResultVar), r)
  {
    forall r ensures Sat(w, es + b, V(ResultVar), r) <==> Sat(w, es, V(ResultVar), r) && Sat(w, b, V(ResultVar), r) {
      SatConcat(w, es, b, V(ResultVar), r);
    }
  }

  lemma FirstBinds(w: World, es: Pattern, b: Pattern)
    requires NoOptional(b) && Binds(w, es, V(ResultVar))
    ensures Binds(w, es + b, V(ResultVar))
  {
    PartConcat(w, es, b);
    forall m | m in Part(w, es + b) ensures ResultVar in m { var ma, mb := JoinParts(Part(w, es), Part(w, b), m); }
  }

  lemma SecondBinds(w: World, es: Pattern, b: Pattern)
    requires NoOptional(b) && Binds(w, b, V(ResultVar))
    ensures Binds(w, es + b, V(ResultVar))
  {
    PartConcat(w, es, b);
    forall m | m in Part(w, es + b) ensures ResultVar in m { var ma, mb := JoinParts(Part(w, es), Part(w, b), m); }
  }

  lemma SolidBehind(w: World, es: Pattern, b: Pattern, t: Term, leans: bool)
    requires Bound(w, es) && Correct(w, t, b, V(ResultVar), leans) && PVars(es) * PVars(b) <= {ResultVar}
    ensures Bound(w, es + b)
    ensures forall r :: Sat(w, es + b, V(ResultVar), r) <==> Sat(w, es, V(ResultVar), r) && Found(t, w, r)
  {
    JoinedSat(w, es, b);
    FirstBinds(w, es, b);
  }

  lemma OptionalBehind(w: World, es: Pattern, inner: Pattern)
    requires Bound(w, es) && PVars(es) * PVars(inner) <= {ResultVar}
    ensures Bound(w, es + [OptionalPart(inner)])
    ensures forall r :: Sat(w, es + [OptionalPart(inner)], V(ResultVar), r) <==> Sat(w, es, V(ResultVar), r)
  {
    OptionalKeepsResults(w, es, inner, ResultVar);
    forall r ensures Sat(w, es + [OptionalPart(inner)], V(ResultVar), r) <==> Sat(w, es, V(ResultVar), r) {
      SatIsReturns(w, es, ResultVar, r);
      SatIsReturns(w, es + [OptionalPart(inner)], ResultVar, r);
    }
  }

  /** Behind a pattern that binds the result, conjuncts restrict it and optional ones do nothing. */
  lemma {:induction false} BehindBound(w: World, es: Pattern, ts: seq<Term>, isReal: bool, cfg: Config, cnt: nat,
                                       names: set<string>)
    requires Bound(w, es) && Within(es, V(ResultVar), 0, cnt, names)
    requires NamesApart(ts) && AllNames(ts) !! names && forall t | t in ts && !t.Optional? :: Runs(w, t, cfg)
    ensures var all := es + CompileAll(ts, V(ResultVar), isReal, cfg, cnt).0;
            Bound(w, all) && forall r :: Sat(w, all, V(ResultVar), r) <==> Sat(w, es, V(ResultVar), r) && OthersFound(w, ts, r)
    decreases |ts|
  {
    var x := V(ResultVar);
    if ts == [] {
      assert es + [] == es;
    } else {
      var t, head := ts[0], Compile(ts[0], x, isReal, cfg, cnt);
      var tail := CompileAll(ts[1..], x, isReal, cfg, head.1);
      NamesOfRest(ts);
      RunsRest(w, ts, cfg);
      CompileVars(t, x, isReal, cfg, cnt);
      GrownWithin(es, head.0, t, cnt, head.1, names);
      OneBehind(w, es, t, isReal, cfg, cnt);
      BehindBound(w, es + head.0, ts[1..], isReal, cfg, head.1, names + Names(t));
      assert es + (head.0 + tail.0) == es + head.0 + tail.0;
      forall r ensures OthersFound(w, ts, r) <==> (t.Optional? || Found(t, w, r)) && OthersFound(w, ts[1..], r) {
        OthersFoundCons(w, ts, r);
      }
    }
  }

  lemma OneBehind(w: World, es: Pattern, t: Term, isReal: bool, cfg: Config, cnt: nat)
    requires Bound(w, es) && (t.Optional? || Runs(w, t, cfg))
    requires PVars(es) * PVars(Compile(t, V(ResultVar), isReal, cfg, cnt).0) <= {ResultVar}
    ensures var grown := es + Compile(t, V(ResultVar), isReal, cfg, cnt).0;
            && Bound(w, grown)
            && forall r :: Sat(w, grown, V(ResultVar), r) <==> Sat(w, es, V(ResultVar), r) && (t.Optional? || Found(t, w, r))
  {
    if t.Optional? {
      var inner := Compile(t.subTerm, V(ResultVar), false, cfg, cnt).0;
      PVarsSingle(OptionalPart(inner));
      OptionalBehind(w, es, inner);
    } else {
      CompileCorrect(w, t, V(ResultVar), isReal, cfg, cnt);
      SolidBehind(w, es, Compile(t, V(ResultVar), isReal, cfg, cnt).0, t, LeansOnParent(t, isReal));
    }
  }

  // ----- in front -----

  /** Nothing is bound yet: filters, and optional parts that found nothing. */
  ghost predicate Unbound(w: World, es: Pattern) {
    Part(w, es) == {UNIT}
  }

  lemma UnitLeftJoin(w: World, inner: Pattern, n: Mu)
    ensures n in LeftJoin(w, {UNIT}, inner) <==> (n in Solutions(w, inner) || (n == UNIT && Solutions(w, inner) == {}))
  {
    assert UNIT + n == n && Compatible(UNIT, n);
    if n in Solutions(w, inner) {
      assert UNIT + n in LeftJoin(w, {UNIT}, inner);
    }
    if n == UNIT && Solutions(w, inner) == {} {
      forall k | k in Part(w, inner) && Compatible(UNIT, k) ensures !Passes(w, inner, UNIT + k) {
        assert UNIT + k == k;
        assert k !in Solutions(w, inner);
      }
    }
    if n in LeftJoin(w, {UNIT}, inner)
       && !(n == UNIT && forall k | k in Part(w, inner) && Compatible(UNIT, k) :: !Passes(w, inner, UNIT + k)) {
      var m, k :| m in {UNIT} && k in Part(w, inner) && Compatible(m, k) && Passes(w, inner, m + k) && n == m + k;
      assert m + k == k;
    } else if n in LeftJoin(w, {UNIT}, inner) {
      forall k ensures k !in Solutions(w, inner) {
        assert UNIT + k == k && Compatible(UNIT, k);
      }
    }
  }

  lemma AnyMatchIsSolution(w: World, s: Term, inner: Pattern)
    requires Correct(w, s, inner, V(ResultVar), false)
    ensures Solutions(w, inner) != {} <==> exists n :: Typed(w, n) && Found(s, w, n)
  {
    var x := V(ResultVar);
    if m :| m in Solutions(w, inner) {
      assert m in Part(w, inner) && ResultVar in m;
      SatIsReturns(w, inner, ResultVar, m[ResultVar]);
      assert Sat(w, inner, x, m[ResultVar]);
    }
    if n :| Typed(w, n) && Found(s, w, n) {
      assert Sat(w, inner, x, n);
      SatIsReturns(w, inner, ResultVar, n);
    }
  }

  /** An OPTIONAL part that finds nothing leaves everything as it was. */
  lemma NothingFound(w: World, es: Pattern, inner: Pattern)
    requires Unbound(w, es) && Solutions(w, inner) == {}
    ensures Unbound(w, es + [OptionalPart(inner)])
    ensures forall r :: Sat(w, es + [OptionalPart(inner)], V(ResultVar), r) <==> Sat(w, es, V(ResultVar), r)
  {
    var all := es + [OptionalPart(inner)];
    PartWithOptional(w, es, inner);
    forall n: Mu ensures n in LeftJoin(w, {UNIT}, inner) <==> n == UNIT { UnitLeftJoin(w, inner, n); }
    forall m ensures Passes(w, all, m) == Passes(w, es, m) { PassesConcat(w, es, [OptionalPart(inner)], m); }
  }

  /** One that finds something binds the result. */
  lemma SomethingFound(w: World, es: Pattern, inner: Pattern, s: Term)
    requires Unbound(w, es) && Solutions(w, inner) != {} && Correct(w, s, inner, V(ResultVar), false)
    requires PVars(es) * PVars(inner) <= {ResultVar}
    ensures Bound(w, es + [OptionalPart(inner)])
    ensures forall r :: Sat(w, es + [OptionalPart(inner)], V(ResultVar), r)
                        <==> Sat(w, es, V(ResultVar), r) && Typed(w, r) && Found(s, w, r)
  {
    var x, all := V(ResultVar), es + [OptionalPart(inner)];
    PartWithOptional(w, es, inner);
    forall n: Mu ensures n in Part(w, all) <==> n in Solutions(w, inner) { UnitLeftJoin(w, inner, n); }
    forall r ensures Sat(w, all, x, r) <==> Sat(w, es, x, r) && Sat(w, inner, x, r) { FoundSat(w, es, inner, r); }
  }

  lemma FoundSat(w: World, es: Pattern, inner: Pattern, r: Node)
    requires Unbound(w, es) && Binds(w, inner, V(ResultVar)) && PVars(es) * PVars(inner) <= {ResultVar}
    requires forall n: Mu :: n in Part(w, es + [OptionalPart(inner)]) <==> n in Solutions(w, inner)
    ensures Sat(w, es + [OptionalPart(inner)], V(ResultVar), r)
       <==> Sat(w, es, V(ResultVar), r) && Sat(w, inner, V(ResultVar), r)
  {
    var x, all := V(ResultVar), es + [OptionalPart(inner)];
    forall m | m in Part(w, inner) && ResultVar in m && m[ResultVar] == r
      ensures At(m, x, r) == m && Passes(w, all, m) == Passes(w, es, At(UNIT, x, r))
    {
      PartBinds(w, inner, m);
      forall v | v in PVars(es) && v in m ensures v == ResultVar { assert v in PVars(es) * PVars(inner); }
      PassesAgree(w, es, m, At(UNIT, x, r));
      PassesConcat(w, es, [OptionalPart(inner)], m);
    }
    assert Sat(w, es, x, r) <==> Passes(w, es, At(UNIT, x, r)) by {
      assert UNIT in Part(w, es) && CanStandFor(UNIT, x, r);
    }
    if m :| m in Part(w, all) && CanStandFor(m, x, r) && Passes(w, all, At(m, x, r)) {
      assert m in Part(w, inner) && CanStandFor(m, x, r) && Passes(w, inner, At(m, x, r));
    }
    if m :| m in Part(w, inner) && CanStandFor(m, x, r) && Passes(w, inner, At(m, x, r)) {
      assert m in Solutions(w, inner);
      if Sat(w, es, x, r) { assert m in Part(w, all) && Passes(w, all, At(m, x, r)); }
    }
  }

  lemma LeaningIsUnbound(w: World, t: Term, isReal: bool, cfg: Config, cnt: nat)
    requires LeansOnParent(t, isReal)
    ensures Unbound(w, Compile(t, V(ResultVar), isReal, cfg, cnt).0)
  {
    var es := Compile(t, V(ResultVar), isReal, cfg, cnt).0;
    assert |es| == 1 && (es[0].Filter? || es[0].FilterNotExists?);
    assert es[..0] == [];
  }

  lemma SolidInFront(w: World, es: Pattern, t: Term, isReal: bool, cfg: Config, cnt: nat)
    requires Unbound(w, es) && Runs(w, t, cfg)
    requires PVars(es) * PVars(Compile(t, V(ResultVar), isReal, cfg, cnt).0) <= {ResultVar}
    ensures var grown := es + Compile(t, V(ResultVar), isReal, cfg, cnt).0;
            && (if LeansOnParent(t, isReal) then Unbound(w, grown) else Bound(w, grown))
            && forall r | Typed(w, r) :: Sat(w, grown, V(ResultVar), r) <==> Sat(w, es, V(ResultVar), r) && Found(t, w, r)
  {
    CompileCorrect(w, t, V(ResultVar), isReal, cfg, cnt);
    if LeansOnParent(t, isReal) { LeaningIsUnbound(w, t, isReal, cfg, cnt); }
    SolidJoins(w, es, Compile(t, V(ResultVar), isReal, cfg, cnt).0, t, LeansOnParent(t, isReal));
  }

  lemma SolidJoins(w: World, es: Pattern, b: Pattern, t: Term, leans: bool)
    requires Unbound(w, es) && Correct(w, t, b, V(ResultVar), leans) && (leans ==> Unbound(w, b))
    requires PVars(es) * PVars(b) <= {ResultVar}
    ensures if leans then Unbound(w, es + b) else Bound(w, es + b)
    ensures forall r | Typed(w, r) :: Sat(w, es + b, V(ResultVar), r) <==> Sat(w, es, V(ResultVar), r) && Found(t, w, r)
  {
    JoinedSat(w, es, b);
    if leans { NeitherBinds(w, es, b); } else { SecondBinds(w, es, b); }
  }

  lemma NeitherBinds(w: World, es: Pattern, b: Pattern)
    requires NoOptional(b) && Unbound(w, es) && Unbound(w, b)
    ensures Unbound(w, es + b)
  {
    PartConcat(w, es, b);
    JoinUnit({UNIT});
  }

  /** As long as nothing binds the result, the conjuncts that follow decide what can be returned. */
  ghost predicate FrontDecides(w: World, es: Pattern, all: Pattern, ts: seq<Term>, isReal: bool) {
    forall r :: Returns(w, all, ResultVar, r)
      <==> Typed(w, r) && Sat(w, es, V(ResultVar), r) && OthersFound(w, ts, r) && FrontAllows(w, ts, isReal, r)
  }

  lemma {:induction false} InFront(w: World, es: Pattern, ts: seq<Term>, isReal: bool, cfg: Config, cnt: nat,
                                   names: set<string>)
    requires Unbound(w, es) && Within(es, V(ResultVar), 0, cnt, names)
    requires NamesApart(ts) && AllNames(ts) !! names && AllRun(w, ts, isReal, cfg)
    ensures FrontDecides(w, es, es + CompileAll(ts, V(ResultVar), isReal, cfg, cnt).0, ts, isReal)
    decreases |ts|
  {
    var x := V(ResultVar);
    if ts == [] {
      assert es + [] == es;
    } else {
      var t, head := ts[0], Compile(ts[0], x, isReal, cfg, cnt);
      var tail := CompileAll(ts[1..], x, isReal, cfg, head.1);
      var grown := es + head.0;
      NamesOfRest(ts);
      RunsRest(w, ts, cfg);
      CompileVars(t, x, isReal, cfg, cnt);
      GrownWithin(es, head.0, t, cnt, head.1, names);
      assert es + (head.0 + tail.0) == grown + tail.0;
      OneInFront(w, es, t, isReal, cfg, cnt);
      if Unbound(w, grown) {
        InFront(w, grown, ts[1..], isReal, cfg, head.1, names + Names(t));
        StillUnbound(w, es, grown, grown + tail.0, ts, isReal);
      } else {
        BehindBound(w, grown, ts[1..], isReal, cfg, head.1, names + Names(t));
        NowBound(w, es, grown, grown + tail.0, ts, isReal);
      }
    }
  }

  /** What the first conjunct does to a pattern that binds nothing. */
  ghost predicate OneMore(w: World, es: Pattern, grown: Pattern, t: Term, isReal: bool) {
    if t.Optional? then
      if SomeoneIsFound(w, t.subTerm) then
        Bound(w, grown) && !Unbound(w, grown)
        && forall r | Typed(w, r) :: Sat(w, grown, V(ResultVar), r) <==> Sat(w, es, V(ResultVar), r) && Found(t.subTerm, w, r)
      else Unbound(w, grown) && forall r :: Sat(w, grown, V(ResultVar), r) <==> Sat(w, es, V(ResultVar), r)
    else
      && (if LeansOnParent(t, isReal) then Unbound(w, grown) else Bound(w, grown) && !Unbound(w, grown))
      && forall r | Typed(w, r) :: Sat(w, grown, V(ResultVar), r) <==> Sat(w, es, V(ResultVar), r) && Found(t, w, r)
  }

  lemma BoundIsNotUnbound(w: World, es: Pattern)
    requires Bound(w, es)
    ensures !Unbound(w, es)
  {
    assert UNIT in {UNIT} && ResultVar !in UNIT;
  }

  lemma OneInFront(w: World, es: Pattern, t: Term, isReal: bool, cfg: Config, cnt: nat)
    requires Unbound(w, es) && Runs(w, if t.Optional? then t.subTerm else t, cfg)
    requires PVars(es) * PVars(Compile(t, V(ResultVar), isReal, cfg, cnt).0) <= {ResultVar}
    ensures OneMore(w, es, es + Compile(t, V(ResultVar), isReal, cfg, cnt).0, t, isReal)
  {
    var x := V(ResultVar);
    var grown := es + Compile(t, x, isReal, cfg, cnt).0;
    if t.Optional? {
      var inner := Compile(t.subTerm, x, false, cfg, cnt).0;
      PVarsSingle(OptionalPart(inner));
      CompileCorrect(w, t.subTerm, x, false, cfg, cnt);
      AnyMatchIsSolution(w, t.subTerm, inner);
      if Solutions(w, inner) == {} { NothingFound(w, es, inner); } else { SomethingFound(w, es, inner, t.subTerm); }
    } else {
      SolidInFront(w, es, t, isReal, cfg, cnt);
    }
    if Bound(w, grown) { BoundIsNotUnbound(w, grown); }
  }

  lemma StillUnbound(w: World, es: Pattern, grown: Pattern, all: Pattern, ts: seq<Term>, isReal: bool)
    requires ts != [] && OneMore(w, es, grown, ts[0], isReal) && Unbound(w, grown)
    requires FrontDecides(w, grown, all, ts[1..], isReal)
    ensures FrontDecides(w, es, all, ts, isReal)
  {
    forall r ensures Returns(w, all, ResultVar, r)
      <==> Typed(w, r) && Sat(w, es, V(ResultVar), r) && OthersFound(w, ts, r) && FrontAllows(w, ts, isReal, r)
    {
      OthersFoundCons(w, ts, r);
    }
  }

  lemma NowBound(w: World, es: Pattern, grown: Pattern, all: Pattern, ts: seq<Term>, isReal: bool)
    requires ts != [] && OneMore(w, es, grown, ts[0], isReal) && !Unbound(w, grown) && Bound(w, all)
    requires forall r :: Sat(w, all, V(ResultVar), r) <==> Sat(w, grown, V(ResultVar), r) && OthersFound(w, ts[1..], r)
    ensures FrontDecides(w, es, all, ts, isReal)
  {
    forall r ensures Returns(w, all, ResultVar, r)
      <==> Typed(w, r) && Sat(w, es, V(ResultVar), r) && OthersFound(w, ts, r) && FrontAllows(w, ts, isReal, r)
    {
      OthersFoundCons(w, ts, r);
      SatIsReturns(w, all, ResultVar, r);
    }
  }

  lemma GroupReturns(w: World, es: Pattern, v: Var, r: Node)
    ensures Returns(w, [Group(es)], v, r) <==> Returns(w, es, v, r)
  {
    PartSingle(w, Group(es));
    assert Solutions(w, [Group(es)]) == Solutions(w, es) by {
      forall m ensures Passes(w, [Group(es)], m) { assert forall e | e in [Group(es)] :: e == Group(es); }
    }
  }

  // ----- the results -----

  /** Optional conjuncts say nothing. */
  lemma OthersAreTheTerm(w: World, ts: seq<Term>, r: Node)
    requires forall t | t in ts && !t.Optional? :: IsValid(t)
    ensures OthersFound(w, ts, r) <==> Found(And(ts), w, r)
  {
    forall t | t in ts && !t.Optional? ensures Says(t) { ValidSays(t); }
  }

  /** A conjunction with optional conjuncts anywhere returns the typed resources that it finds and
      that its front allows. */
  lemma ConjunctionReturns(w: World, ts: seq<Term>, cfg: Config)
    requires NamesApart(ts) && AllRun(w, ts, HasRealPattern(ts), cfg)
    ensures forall r :: Returns(w, Compile(And(ts), V(ResultVar), false, cfg, 0).0, ResultVar, r)
                        <==> Typed(w, r) && Found(And(ts), w, r) && FrontAllows(w, ts, HasRealPattern(ts), r)
  {
    var x, isReal := V(ResultVar), HasRealPattern(ts);
    var es := CompileAll(ts, x, isReal, cfg, 0).0;
    InFront(w, [], ts, isReal, cfg, 0, {});
    assert [] + es == es;
    forall t | t in ts && !t.Optional? ensures IsValid(t) { assert Runs(w, t, cfg); }
    forall r
      ensures Returns(w, [Group(es)], ResultVar, r) <==> Typed(w, r) && Found(And(ts), w, r) && FrontAllows(w, ts, isReal, r)
    {
      GroupReturns(w, es, ResultVar, r);
      SatEmpty(w, x, r);
      OthersAreTheTerm(w, ts, r);
    }
  }

  /** Some conjunct binds the result by itself. */
  predicate SomeBinds(ts: seq<Term>, isReal: bool) {
    exists t | t in ts :: !t.Optional? && !LeansOnParent(t, isReal)
  }

  lemma RealBinds(ts: seq<Term>)
    requires exists t | t in ts :: !t.Optional?
    ensures SomeBinds(ts, HasRealPattern(ts))
  {
    if HasRealPattern(ts) {
      var t :| t in ts && (t.Comparison? || t.ResourceType?);
    }
  }

  /** Past a conjunct that binds the result nothing more is decided. */
  lemma {:induction false} FrontIgnoresRest(w: World, front: seq<Term>, rest: seq<Term>, other: seq<Term>,
                                            isReal: bool, cfg: Config)
    requires SomeBinds(front, isReal)
    ensures forall r :: FrontAllows(w, front + rest, isReal, r) <==> FrontAllows(w, front + other, isReal, r)
    ensures FrontRuns(w, front + rest, isReal, cfg) <==> FrontRuns(w, front + other, isReal, cfg)
    decreases |front|
  {
    assert (front + rest)[1..] == front[1..] + rest && (front + other)[1..] == front[1..] + other;
    assert forall t :: t in front <==> t == front[0] || t in front[1..];
    if SomeBinds(front[1..], isReal) { FrontIgnoresRest(w, front[1..], rest, other, isReal, cfg); }
  }

  lemma WithOptional(front: seq<Term>, s: Term, back: seq<Term>)
    ensures HasRealPattern(front + [Optional(s)] + back) == HasRealPattern(front + back)
    ensures forall w, r :: Found(And(front + [Optional(s)] + back), w, r) == Found(And(front + back), w, r)
  {
    var all := front + [Optional(s)] + back;
    assert forall t :: t in all <==> t in front + back || t == Optional(s);
  }

  lemma ApartWithout(front: seq<Term>, t: Term, back: seq<Term>)
    requires NamesApart(front + [t] + back)
    ensures NamesApart(front + back)
  {
    var all, some, n := front + [t] + back, front + back, |front|;
    forall i, j | 0 <= i < j < |some| ensures Names(some[i]) !! Names(some[j]) {
      assert some[i] == all[if i < n then i else i + 1] && some[j] == all[if j < n then j else j + 1];
    }
  }

  /** An optional conjunct behind one that binds the result is harmless, wherever it stands and
      whatever it asks for. */
  lemma OptionalBehindIsHarmless(w: World, front: seq<Term>, s: Term, back: seq<Term>, cfg: Config)
    requires NamesApart(front + [Optional(s)] + back)
    requires AllRun(w, front + back, HasRealPattern(front + back), cfg) && SomeBinds(front, HasRealPattern(front + back))
    ensures forall r :: Returns(w, Compile(And(front + [Optional(s)] + back), V(ResultVar), false, cfg, 0).0, ResultVar, r)
                        <==> Returns(w, Compile(And(front + back), V(ResultVar), false, cfg, 0).0, ResultVar, r)
  {
    var all, isReal := front + [Optional(s)] + back, HasRealPattern(front + back);
    WithOptional(front, s, back);
    ApartWithout(front, Optional(s), back);
    assert all == front + ([Optional(s)] + back);
    FrontIgnoresRest(w, front, [Optional(s)] + back, back, isReal, cfg);
    forall t | t in all && !t.Optional? ensures Runs(w, t, cfg) { assert t in front + back; }
    ConjunctionReturns(w, all, cfg);
    ConjunctionReturns(w, front + back, cfg);
    forall r ensures FrontAllows(w, all, isReal, r) <==> FrontAllows(w, front + back, isReal, r) {}
  }

  /** One in front of everything that binds the result is not optional: as soon as any resource at
      all meets it, only those that do are returned. */
  lemma OptionalInFrontRestricts(w: World, front: seq<Term>, s: Term, back: seq<Term>, cfg: Config)
    requires NamesApart(front + [Optional(s)] + back) && Runs(w, s, cfg)
    requires forall t | t in front + back :: Runs(w, t, cfg)
    requires forall t | t in front :: LeansOnParent(t, HasRealPattern(front + back))
    requires back != []
    ensures forall r :: Returns(w, Compile(And(front + [Optional(s)] + back), V(ResultVar), false, cfg, 0).0, ResultVar, r)
                        <==> Typed(w, r) && Found(And(front + back), w, r) && (Found(s, w, r) || !SomeoneIsFound(w, s))
  {
    var all, isReal := front + [Optional(s)] + back, HasRealPattern(front + back);
    WithOptional(front, s, back);
    forall t | t in all && !t.Optional? ensures Runs(w, t, cfg) { assert t in front + back; }
    BackBinds(w, front, back, cfg);
    RestrictingFront(w, front, s, back, isReal, cfg);
    ConjunctionReturns(w, all, cfg);
  }

  lemma BackBinds(w: World, front: seq<Term>, back: seq<Term>, cfg: Config)
    requires back != [] && forall t | t in front + back :: Runs(w, t, cfg)
    requires forall t | t in front :: LeansOnParent(t, HasRealPattern(front + back))
    ensures SomeBinds(back, HasRealPattern(front + back))
    ensures forall t | t in front + back :: !t.Optional?
  {
    forall t | t in front + back ensures !t.Optional? { assert Runs(w, t, cfg); }
    assert back[0] in front + back;
    RealBinds(front + back);
    var t :| t in front + back && !t.Optional? && !LeansOnParent(t, HasRealPattern(front + back));
    assert t in back;
  }

  lemma RestrictingFront(w: World, front: seq<Term>, s: Term, back: seq<Term>, isReal: bool, cfg: Config)
    requires Runs(w, s, cfg) && SomeBinds(back, isReal) && forall t | t in front + back :: !t.Optional?
    requires forall t | t in front :: LeansOnParent(t, isReal)
    ensures FrontRuns(w, front + [Optional(s)] + back, isReal, cfg)
    ensures forall r :: FrontAllows(w, front + [Optional(s)] + back, isReal, r) <==> Found(s, w, r) || !SomeoneIsFound(w, s)
  {
    var rest := [Optional(s)] + back;
    forall t | t in back ensures !t.Optional? { assert t in front + back; }
    forall t | t in front ensures !t.Optional? { assert t in front + back; }
    SolidsAllow(w, back, isReal, cfg);
    assert front + [Optional(s)] + back == front + rest && rest[1..] == back;
    LeaningFront(w, front, rest, isReal, cfg);
    forall r ensures FrontAllows(w, rest, isReal, r) <==> Found(s, w, r) || !SomeoneIsFound(w, s) {
      assert FrontAllows(w, back, isReal, r);
    }
  }

  lemma {:induction false} SolidsAllow(w: World, ts: seq<Term>, isReal: bool, cfg: Config)
    requires SomeBinds(ts, isReal) && forall t | t in ts :: !t.Optional?
    ensures FrontRuns(w, ts, isReal, cfg) && forall r :: FrontAllows(w, ts, isReal, r)
    decreases |ts|
  {
    assert ts[0] in ts && forall t :: t in ts <==> t == ts[0] || t in ts[1..];
    if LeansOnParent(ts[0], isReal) { SolidsAllow(w, ts[1..], isReal, cfg); }
  }

  lemma {:induction false} LeaningFront(w: World, front: seq<Term>, rest: seq<Term>, isReal: bool, cfg: Config)
    requires forall t | t in front :: !t.Optional? && LeansOnParent(t, isReal)
    ensures forall r :: FrontAllows(w, front + rest, isReal, r) <==> FrontAllows(w, rest, isReal, r)
    ensures FrontRuns(w, front + rest, isReal, cfg) <==> FrontRuns(w, rest, isReal, cfg)
    decreases |front|
  {
    if front == [] {
      assert front + rest == rest;
    } else {
      assert front[0] in front && (front + rest)[1..] == front[1..] + rest;
      LeaningFront(w, front[1..], rest, isReal, cfg);
    }
  }

  /** Optional conjuncts behind all others: exactly the resources that the others find. */
  lemma OptionalsLast(w: World, core: seq<Term>, opts: seq<Term>, cfg: Config)
    requires core != [] && forall t | t in core :: Runs(w, t, cfg)
    requires AllOptional(opts) && NamesApart(core + opts)
    ensures forall r :: Returns(w, Compile(And(core + opts), V(ResultVar), false, cfg, 0).0, ResultVar, r)
                        <==> Typed(w, r) && Found(And(core + opts), w, r)
  {
    var all := core + opts;
    var isReal := HasRealPattern(all);
    assert forall t :: t in all <==> t in core || t in opts;
    assert core[0] in core && Runs(w, core[0], cfg);
    RealBinds(all);
    assert SomeBinds(core, isReal);
    SolidsAllow(w, core, isReal, cfg);
    FrontIgnoresRest(w, core, opts, [], isReal, cfg);
    assert core + [] == core;
    ConjunctionReturns(w, all, cfg);
  }
}
