/** The values of request properties (libnepomukcore/query/query.cpp:422-436): what a query selects
    besides the resources that it returns. */
module RequestedValues {
  import opened Terms
  import opened Denotation
  import opened Sparql
  import opened SparqlAlgebra
  import opened Compiler
  import opened CompilerVars
  import opened CompilerProof
  import opened Optimizer
  import opened EvenMore
  import opened OptimizerKeeps
  import opened OptionalParts
  import opened NamedValues
  import opened Texts
  import opened Query
  import opened QueryResults
  import opened QueryModes

  // ----- names with or without an aggregate function -----

  /** A comparison in the term carries the name. */
  predicate Carries(t: Term, name: string)
    decreases t
  {
    match t
    case And(subs) => exists s | s in subs :: Carries(s, name)
    case Or(subs) => exists s | s in subs :: Carries(s, name)
    case Negation(s) => Carries(s, name)
    case Optional(s) => Carries(s, name)
    case Comparison(s, _, _, v, _, _, _, _) => v == name || Carries(s, name)
    case _ => false
  }

  lemma {:induction false} CarriesKept(t: Term, name: string)
    requires Carries(Optimized(t), name)
    ensures Carries(t, name)
    decreases t
  {
    match t
    case And(subs) => GroupCarries(true, subs, name);
    case Or(subs) => GroupCarries(false, subs, name);
    case Negation(s) => if s.Negation? { CarriesKept(s.subTerm, name); } else { OptimizedIsNormal(s); CarriesKept(s, name); }
    case Optional(s) => CarriesKept(s, name);
    case Comparison(s, _, _, v, _, _, _, _) => if v != name { CarriesKept(s, name); }
    case _ =>
  }

  lemma {:induction false} GroupCarries(isAnd: bool, subs: seq<Term>, name: string)
    requires Carries(Collapse(isAnd, OptimizedSubs(isAnd, subs, [])), name)
    ensures exists s | s in subs :: Carries(s, name)
    decreases subs
  {
    var members := OptimizedSubs(isAnd, subs, []);
    var x :| x in members && Carries(x, name);
    OptimizedMembers(isAnd, subs, []);
    var s :| s in subs && x in Operands(isAnd, Optimized(s));
    assert Carries(Optimized(s), name);
    CarriesKept(s, name);
  }

  // ----- a request property among the optimized conjuncts -----

  lemma EqualCarries(y: Term, rp: RequestProperty, k: nat)
    requires Equals(y, Request(rp, k))
    ensures Carries(y, RequestName(k))
  {
  }

  lemma FileTermsCarryNothing(f: FileRestriction, name: string)
    requires name != ""
    ensures forall s | s in FileTerms(f) :: !Carries(s, name)
  {
    var included, excluding := UrlMatches(JoinBars(IncludePatterns(f.included))), UrlMatches(ExcludePattern(JoinBars(f.excluded)));
    TwoConjuncts(included, included);
    TwoConjuncts(included, Negation(excluding));
    UrlCarriesNothing(JoinBars(IncludePatterns(f.included)), name);
    UrlCarriesNothing(ExcludePattern(JoinBars(f.excluded)), name);
    PairCarries(included, Negation(excluding), name);
    var file, folder := ResourceType({FILE_DATA_OBJECT}), ResourceType({FOLDER});
    assert !Carries(file, name) && !Carries(folder, name) && !Carries(Negation(folder), name);
    PairCarries(file, Negation(folder), name);
    assert !Carries(FileModeTerm(f.mode), name);
    assert IsValid(FolderFilter(f)) ==> !Carries(FolderFilter(f), name);
  }

  lemma UrlCarriesNothing(regex: string, name: string)
    requires name != ""
    ensures !Carries(UrlMatches(regex), name) && !Carries(Negation(UrlMatches(regex)), name)
  {
    assert !Carries(UrlMatches(regex).subTerm, name);
    assert !Carries(UrlMatches(regex), name);
  }

  lemma PairCarries(a: Term, b: Term, name: string)
    ensures Carries(And([a, b]), name) <==> Carries(a, name) || Carries(b, name)
  {
    assert forall s :: s in [a, b] <==> s == a || s == b;
  }

  lemma RestrictedCarries(q: Query, s: Term, name: string)
    requires s in Operands(true, Restricted(q)) && Carries(s, name) && name != ""
    ensures Carries(q.term, name)
  {
    if q.file.Some? {
      FileTermsCarryNothing(q.file.value, name);
      assert s !in FileTerms(q.file.value);
    }
  }

  /** No comparison of the own term carries a name that is made up for a request property, not even
      one with an aggregate function. */
  predicate NamesAreFree(q: Query) {
    forall k | 0 <= k < |q.requestProperties| :: !Carries(q.term, RequestName(k))
  }

  /** The request property itself is among the optimized conjuncts. */
  lemma RequestIsLeft(w: World, q: Query, k: nat)
    requires NamesAreFree(q) && k < |q.requestProperties|
    ensures Request(q.requestProperties[k], k) in OptimizedSubs(true, Conjuncts(q, false), [])
  {
    var ts, x := Conjuncts(q, false), Request(q.requestProperties[k], k);
    RequestIsConjunct(q, k);
    OptimizedContains(true, ts, []);
    assert ListContains(OptimizedSubs(true, ts, []), x);
    var y :| y in OptimizedSubs(true, ts, []) && Equals(y, x);
    OptimizedMembers(true, ts, []);
    var s :| s in ts && y in Operands(true, Optimized(s));
    OnlyRequestEquals(q, k, s, y);
  }

  lemma RequestIsConjunct(q: Query, k: nat)
    requires k < |q.requestProperties|
    ensures var x := Request(q.requestProperties[k], k);
            x in Conjuncts(q, false) && x in Operands(true, Optimized(x))
  {
    RequestsAt(q.requestProperties, 0);
    RequestShape(q.requestProperties[k], k);
    assert Request(q.requestProperties[k], k) == Requests(q.requestProperties, 0, false)[k];
  }

  /** No other conjunct brings one that is equal to it. */
  lemma OnlyRequestEquals(q: Query, k: nat, s: Term, y: Term)
    requires NamesAreFree(q) && k < |q.requestProperties| && s in Conjuncts(q, false)
    requires y in Operands(true, Optimized(s)) && Equals(y, Request(q.requestProperties[k], k))
    ensures y == Request(q.requestProperties[k], k)
  {
    var rps := q.requestProperties;
    RequestsAt(rps, 0);
    EqualCarries(y, rps[k], k);
    if s in Requests(rps, 0, false) {
      var j :| 0 <= j < |rps| && s == Requests(rps, 0, false)[j];
      RequestShape(rps[j], j);
      EqualRequests(rps[j], j, rps[k], k);
    } else {
      assert Carries(Optimized(s), RequestName(k));
      CarriesKept(s, RequestName(k));
      RestrictedCarries(q, s, RequestName(k));
      assert false;
    }
  }

  // ----- in the final conjunction -----

  lemma BindsMore(w: World, a: Pattern, b: Pattern)
    requires Binds(w, a, V(ResultVar))
    ensures Binds(w, a + b, V(ResultVar))
  {
    forall m | m in Part(w, a + b) ensures ResultVar in m { var x := PartGrows(w, a, b, m); }
  }

  lemma FrontBinds(w: World, fs: seq<Term>, os: seq<Term>, more: seq<Term>, cfg: Config)
    requires fs != [] && (forall t | t in fs :: Runs(w, t, cfg)) && AllOptional(os) && NamesApart(fs + os)
    ensures Binds(w, CompileAll(fs + more, V(ResultVar), HasRealPattern(fs + os), cfg, 0).0, V(ResultVar))
  {
    var x, isReal := V(ResultVar), HasRealPattern(fs + os);
    assert fs[0] in fs && Runs(w, fs[0], cfg) && fs[0] in fs + os;
    RealBinds(fs + os);
    var t :| t in fs + os && !t.Optional? && !LeansOnParent(t, isReal);
    assert t in fs;
    ApartFirst(fs, os);
    CompileAllCorrect(w, fs, x, isReal, cfg, 0);
    CompileAllConcat(fs, more, x, isReal, cfg, 0);
    BindsMore(w, CompileAll(fs, x, isReal, cfg, 0).0, CompileAll(more, x, isReal, cfg, CompileAll(fs, x, isReal, cfg, 0).1).0);
  }

  lemma ApartFirst(a: seq<Term>, b: seq<Term>)
    requires NamesApart(a + b)
    ensures NamesApart(a)
  {
    forall i, j | 0 <= i < j < |a| ensures Names(a[i]) !! Names(a[j]) {
      assert (a + b)[i] == a[i] && (a + b)[j] == a[j];
    }
  }

  /** What a solution says of a property: the variable has a value of the resource, if that has one. */
  ghost predicate Reports(w: World, p: Option<Uri>, v: Var, m: Mu) {
    && ResultVar in m && (v in m <==> HasSome(w, p, m[ResultVar]))
    && (v in m ==> Linked(w, m[ResultVar], p, m[v]))
  }

  lemma MandatoryReports(w: World, ts: seq<Term>, rp: RequestProperty, k: nat, cfg: Config, m: Mu)
    requires RequestTerm(rp, k) in ts && m in Solutions(w, Compile(And(ts), V(ResultVar), false, cfg, 0).0)
    ensures Reports(w, rp.property, Named(RequestName(k)), m) && Named(RequestName(k)) in m
  {
    var i :| 0 <= i < |ts| && ts[i] == RequestTerm(rp, k);
    assert |RequestName(k)| >= 7;
    SelectedValue(w, ts, i, cfg, m);
  }

  lemma OptionalReports(w: World, fs: seq<Term>, os: seq<Term>, rp: RequestProperty, k: nat, cfg: Config, m: Mu)
    requires fs != [] && (forall t | t in fs :: Runs(w, t, cfg)) && AllOptional(os) && NamesApart(fs + os)
    requires Optional(RequestTerm(rp, k)) in os
    requires m in Solutions(w, Compile(And(fs + os), V(ResultVar), false, cfg, 0).0)
    ensures Reports(w, rp.property, Named(RequestName(k)), m)
  {
    var j :| 0 <= j < |os| && os[j] == Optional(RequestTerm(rp, k));
    var front, back := fs + os[..j], os[j + 1..];
    assert fs + os == front + [Optional(RequestTerm(rp, k))] + back;
    assert |RequestName(k)| >= 7;
    FrontBinds(w, fs, os, os[..j], cfg);
    OptionalValue(w, front, RequestTerm(rp, k), back, cfg, m);
  }

  lemma ConjunctionReports(w: World, core: seq<Term>, tail: seq<Term>, first: First, rp: RequestProperty, k: nat,
                           cfg: Config, m: Mu)
    requires PicksMember(first) && Arranged(core, tail, w) && Normal(And(core + tail))
    requires cfg.literalRange == w.literalRange && SubjectsTyped(w)
    requires (exists x | x in core + tail :: !x.Optional?) && Request(rp, k) in core + tail
    requires m in Solutions(w, Compile(Improved(And(core + tail), first), V(ResultVar), false, cfg, 0).0)
    ensures Reports(w, rp.property, Named(RequestName(k)), m) && (!rp.optional ==> Named(RequestName(k)) in m)
  {
    AllFinished(w, core, tail, first);
    var front, opts := SortsOptionals(core, tail);
    SortedKeeps(w, core + tail, front, opts, first);
    ImprovedAllConcat(front, opts, first);
    FinishedFront(w, front, opts, first, cfg);
    var fs, os := ImprovedAll(front, first), ImprovedAll(opts, first);
    assert Improved(And(core + tail), first) == And(fs + os);
    assert Request(rp, k) in front + opts;
    RequestIsSorted(front, opts, first, rp, k);
    if rp.optional { OptionalReports(w, fs, os, rp, k, cfg, m); } else { MandatoryReports(w, fs + os, rp, k, cfg, m); }
  }

  lemma RequestIsSorted(front: seq<Term>, opts: seq<Term>, first: First, rp: RequestProperty, k: nat)
    requires Request(rp, k) in front + opts && NoneOptional(front) && AllOptional(opts)
    ensures Request(rp, k) in if rp.optional then ImprovedAll(opts, first) else ImprovedAll(front, first)
  {
    var x := Request(rp, k);
    assert Improved(RequestTerm(rp, k), first) == RequestTerm(rp, k);
    ImprovedMembersOf(front, first, x);
    ImprovedMembersOf(opts, first, x);
    if rp.optional { assert x in opts; } else { assert x in front; }
  }

  lemma ImprovedMembersOf(ts: seq<Term>, first: First, x: Term)
    requires Improved(x, first) == x
    ensures x in ts ==> x in ImprovedAll(ts, first)
  {
    ImprovedAllAt(ts, first);
    if x in ts {
      var i :| 0 <= i < |ts| && ts[i] == x;
      assert ImprovedAll(ts, first)[i] == x;
    }
  }

  lemma SingleReports(w: World, rp: RequestProperty, k: nat, cfg: Config, m: Mu)
    requires m in Solutions(w, Compile(RequestTerm(rp, k), V(ResultVar), false, cfg, 0).0)
    ensures Reports(w, rp.property, Named(RequestName(k)), m) && Named(RequestName(k)) in m
  {
    var t := RequestTerm(rp, k);
    assert |RequestName(k)| >= 7;
    var c := MainLink(t, V(ResultVar), false, cfg, 0);
    var y := TripleHolds(w, Compile(t, V(ResultVar), false, cfg, 0).0, 0, m);
    LinkedValue(w, false, rp.property, c, Named(RequestName(k)), y);
  }

  /** Every row of the results has, for each request property, a value of its resource if there is
      one; for a mandatory property there always is. */
  lemma RequestedValues(w: World, q: Query, first: First, cfg: Config, k: nat, m: Mu)
    requires PicksMember(first) && cfg.literalRange == w.literalRange
    requires QueryFits(w, q) && AsksForSomething(q, false) && NamesAreFree(q) && k < |q.requestProperties|
    requires m in Solutions(w, Compile(FinalTerm(q, false, first), V(ResultVar), false, cfg, 0).0)
    ensures var rp := q.requestProperties[k];
            var v := Named("reqProp" + NatText(k + 1));
            Reports(w, rp.property, v, m) && (!rp.optional ==> v in m)
  {
    var rp, rps := q.requestProperties[k], q.requestProperties;
    RequestsAt(rps, 0);
    var core, tail := BuiltIsArranged(w, q);
    RequestIsLeft(w, q, k);
    if |core + tail| == 1 {
      assert core + tail == [Request(rp, k)];
      SingleReports(w, rp, k, cfg, m);
    } else {
      ConjunctionReports(w, core, tail, first, rp, k, cfg, m);
    }
  }

  lemma BuiltIsArranged(w: World, q: Query) returns (core: seq<Term>, tail: seq<Term>)
    requires QueryFits(w, q) && AsksForSomething(q, false) && q.requestProperties != []
    ensures Optimized(BuiltTerm(q, false)) == Collapse(true, core + tail) && Arranged(core, tail, w)
    ensures NormalList(true, core + tail) && exists x | x in core + tail :: !x.Optional?
    ensures core + tail == OptimizedSubs(true, Conjuncts(q, false), [])
  {
    RequestsAt(q.requestProperties, 0);
    assert |Requests(q.requestProperties, 0, false)| > 0;
    core, tail := BuiltArranges(w, q, false);
  }
}
