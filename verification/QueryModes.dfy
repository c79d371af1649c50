/** Ask and count queries leave the optional request properties out (libnepomukcore/query/query.cpp:
    422-436). When that changes what they are about, and what a query that asks for nothing else
    returns. */
module QueryModes {
  import opened Terms
  import opened Denotation
  import opened Sparql
  import opened Compiler
  import opened CompilerVars
  import opened CompilerProof
  import opened Optimizer
  import opened OptimizerSoundness
  import opened EvenMore
  import opened OptimizerKeeps
  import opened OptionalParts
  import opened Query
  import opened QueryResults

  // ----- queries that ask for something -----

  /** The conjuncts that are not optional. */
  function Solid(ts: seq<Term>): (r: seq<Term>)
    ensures forall t :: t in r <==> t in ts && !t.Optional?
  {
    if ts == [] then []
    else
      assert forall t :: t in ts <==> t == ts[0] || t in ts[1..];
      (if ts[0].Optional? then [] else [ts[0]]) + Solid(ts[1..])
  }

  lemma {:induction false} SolidConcat(a: seq<Term>, b: seq<Term>)
    ensures Solid(a + b) == Solid(a) + Solid(b)
    decreases |a|
  {
    if a == [] {
      assert a + b == b;
    } else {
      assert (a + b)[1..] == a[1..] + b;
      SolidConcat(a[1..], b);
    }
  }

  lemma {:induction false} SolidIsAll(ts: seq<Term>)
    requires NoneOptional(ts)
    ensures Solid(ts) == ts
  {
    if ts != [] {
      assert ts[0] in ts && forall t | t in ts[1..] :: t in ts;
      SolidIsAll(ts[1..]);
    }
  }

  lemma {:induction false} SolidRequests(rps: seq<RequestProperty>, i: nat)
    requires i <= |rps|
    ensures Solid(Requests(rps, i, false)) == Requests(rps, i, true)
    decreases |rps| - i
  {
    if i < |rps| {
      SolidRequests(rps, i + 1);
      var x, rest := Request(rps[i], i), Requests(rps, i + 1, false);
      assert ([x] + rest)[1..] == rest;
    }
  }

  lemma SolidAppended(acc: seq<Term>, x: Term)
    ensures Solid(AppendNew(acc, [x])) == if x.Optional? then Solid(acc) else AppendNew(Solid(acc), [x])
  {
    OneAppended(acc, x);
    OneAppended(Solid(acc), x);
    SolidConcat(acc, [x]);
    SolidOfOne(x);
    assert Solid(acc) + [] == Solid(acc);
    if !x.Optional? {
      assert ListContains(acc, x) <==> ListContains(Solid(acc), x);
    }
  }

  lemma SolidOfOne(x: Term)
    ensures Solid([x]) == if x.Optional? then [] else [x]
  {
    assert [x][1..] == [] && Solid([]) == [];
  }

  lemma SolidCons(ts: seq<Term>)
    requires ts != []
    ensures Solid(ts) == (if ts[0].Optional? then [] else [ts[0]]) + Solid(ts[1..])
    ensures !ts[0].Optional? ==> Solid(ts) != [] && Solid(ts)[0] == ts[0] && Solid(ts)[1..] == Solid(ts[1..])
    ensures ts[0].Optional? ==> Solid(ts) == Solid(ts[1..])
  {
  }

  /** Optional conjuncts do not decide which of the others are kept. */
  lemma {:induction false} SolidOptimized(ts: seq<Term>, acc: seq<Term>)
    requires forall x | x in ts :: Optimized(x) == x && Operands(true, x) == [x]
    ensures Solid(OptimizedSubs(true, ts, acc)) == OptimizedSubs(true, Solid(ts), Solid(acc))
    decreases |ts|
  {
    if ts != [] {
      var x := ts[0];
      assert x in ts && forall y | y in ts[1..] :: y in ts;
      SolidAppended(acc, x);
      SolidOptimized(ts[1..], AppendNew(acc, [x]));
      SolidCons(ts);
    }
  }

  /** What a final conjunction finds is what its conjuncts that are not optional find. */
  ghost predicate SolidFound(ts: seq<Term>, first: First, w: World, r: Node) {
    forall x | x in ts && !x.Optional? :: Found(Improved(x, first), w, r)
  }

  lemma FinishedFinds(x: Term, first: First, w: World, r: Node)
    requires Finished(x, first, w)
    ensures if x.Optional? then Found(Improved(x, first), w, r) else Says(Improved(x, first))
  {
    if !x.Optional? { ValidSays(Improved(x, first)); }
  }

  lemma FinalFinds(w: World, core: seq<Term>, tail: seq<Term>, first: First, r: Node)
    requires PicksMember(first) && Arranged(core, tail, w) && NormalList(true, core + tail)
    requires exists x | x in core + tail :: !x.Optional?
    ensures Found(Improved(Collapse(true, core + tail), first), w, r) <==> SolidFound(core + tail, first, w, r)
  {
    var all := core + tail;
    if |all| == 1 {
      assert all[0] in all && forall x | x in all :: x == all[0];
    } else {
      AllFinished(w, core, tail, first);
      ImprovedMembers(all, first);
      var improved := ImprovedAll(NamedFirst([], all), first);
      forall x | x in all
        ensures if x.Optional? then Found(Improved(x, first), w, r) else Says(Improved(x, first))
      {
        FinishedFinds(x, first, w, r);
      }
    }
  }

  /** The optimized conjuncts of the two modes differ in optional ones only. */
  lemma SameCore(w: World, q: Query)
    requires QueryFits(w, q)
    ensures Solid(OptimizedSubs(true, Conjuncts(q, false), [])) == OptimizedSubs(true, Conjuncts(q, true), [])
  {
    var base := Operands(true, Restricted(q));
    var full, ask := Requests(q.requestProperties, 0, false), Requests(q.requestProperties, 0, true);
    var core := OptimizedSubs(true, base, []);
    OptimizedSubsConcat(true, base, full, []);
    OptimizedSubsConcat(true, base, ask, []);
    BaseIsSolid(w, q);
    SolidIsAll(core);
    SolidRequests(q.requestProperties, 0);
    AllRequestsFit(q.requestProperties, 0, false);
    SolidOptimized(full, core);
  }

  lemma BaseIsSolid(w: World, q: Query)
    requires QueryFits(w, q)
    ensures NoneOptional(OptimizedSubs(true, Operands(true, Restricted(q)), []))
  {
    var base := Operands(true, Restricted(q));
    RestrictedFits(w, q);
    OptimizedMembers(true, base, []);
    forall x | x in OptimizedSubs(true, base, []) ensures !x.Optional? {
      var s :| s in base && x in Operands(true, Optimized(s));
      BaseOperands(base, w, Names(q.term), s);
    }
  }

  /** What the final term of a query finds, in terms of its optimized conjuncts. */
  lemma QueryFinds(w: World, q: Query, askOrCount: bool, first: First, r: Node)
    requires PicksMember(first) && QueryFits(w, q) && AsksForSomething(q, askOrCount) && Taken(true, BuiltTerm(q, askOrCount))
    ensures Found(FinalTerm(q, askOrCount, first), w, r)
       <==> SolidFound(OptimizedSubs(true, Conjuncts(q, askOrCount), []), first, w, r)
  {
    var ts := Conjuncts(q, askOrCount);
    var base, requests := Operands(true, Restricted(q)), Requests(q.requestProperties, 0, askOrCount);
    RequestsAdded(Restricted(q), q.requestProperties, 0, askOrCount);
    OptimizedConjuncts(BuiltTerm(q, askOrCount));
    OptimizedSubsNormal(true, ts, []);
    RestrictedFits(w, q);
    AllRequestsFit(q.requestProperties, 0, askOrCount);
    var core, tail := Arranges(base, requests, q.requestProperties, w, Names(q.term));
    SomethingStays(w, q, askOrCount);
    FinalFinds(w, core, tail, first, r);
  }

  lemma SomethingStays(w: World, q: Query, askOrCount: bool)
    requires QueryFits(w, q) && AsksForSomething(q, askOrCount) && Taken(true, BuiltTerm(q, askOrCount))
    ensures exists x | x in OptimizedSubs(true, Conjuncts(q, askOrCount), []) :: !x.Optional?
  {
    RequestsAdded(Restricted(q), q.requestProperties, 0, askOrCount);
    if q.file.Some? || Requests(q.requestProperties, 0, askOrCount) != [] {
      var s := SomethingAsked(w, q, askOrCount);
      SomethingIsLeft(Conjuncts(q, askOrCount), s);
    } else {
      NoRequests(q, askOrCount);
      var s := OneOfBase(w, q);
      SomethingIsLeft(Conjuncts(q, askOrCount), s);
    }
  }

  /** An ask or count query is about the same resources as the query itself, whenever that asks for
      something. */
  lemma CountsWhatItReturns(w: World, q: Query, first: First, cfg: Config)
    requires PicksMember(first) && cfg.literalRange == w.literalRange
    requires QueryFits(w, q) && AsksForSomething(q, false)
    ensures forall r :: Returns(w, Compile(FinalTerm(q, true, first), V(ResultVar), false, cfg, 0).0, ResultVar, r)
                        <==> Returns(w, Compile(FinalTerm(q, false, first), V(ResultVar), false, cfg, 0).0, ResultVar, r)
  {
    var rps := q.requestProperties;
    AllRequestsFit(rps, 0, true);
    AllRequestsFit(rps, 0, false);
    RequestsAdded(Restricted(q), rps, 0, true);
    RequestsAdded(Restricted(q), rps, 0, false);
    SolidRequests(rps, 0);
    FinalReturnsFound(w, q, true, first, cfg);
    FinalReturnsFound(w, q, false, first, cfg);
    if Requests(rps, 0, false) != [] || q.file.Some? {
      BuiltIsTaken(q, false);
      AskIsTaken(q);
      SameCore(w, q);
      forall r ensures Found(FinalTerm(q, true, first), w, r) <==> Found(FinalTerm(q, false, first), w, r) {
        QueryFinds(w, q, true, first, r);
        QueryFinds(w, q, false, first, r);
      }
    }
  }

  lemma AskIsTaken(q: Query)
    requires AsksForSomething(q, false) && (Requests(q.requestProperties, 0, false) != [] || q.file.Some?)
    ensures Taken(true, BuiltTerm(q, true))
  {
    AllRequestsFit(q.requestProperties, 0, true);
    RequestsAdded(Restricted(q), q.requestProperties, 0, true);
    if q.file.Some? || Requests(q.requestProperties, 0, true) != [] {
      BuiltIsTaken(q, true);
    } else {
      assert forall k | 0 <= k < |q.requestProperties| :: q.requestProperties[k].optional;
    }
  }

  // ----- queries that ask for optional request properties only -----

  ghost predicate Has(w: World, p: Option<Uri>, r: Node) {
    exists v :: Linked(w, r, p, v)
  }

  ghost predicate SomeoneHas(w: World, p: Option<Uri>) {
    exists n :: Has(w, p, n)
  }

  /** The first of the request properties that anything has at all is one that `r` has. */
  ghost predicate FirstDecides(w: World, rps: seq<RequestProperty>, i: nat, r: Node)
    requires i <= |rps|
    decreases |rps| - i
  {
    i < |rps| && if SomeoneHas(w, rps[i].property) then Has(w, rps[i].property, r) else FirstDecides(w, rps, i + 1, r)
  }

  predicate OnlyOptional(rps: seq<RequestProperty>) {
    forall k | 0 <= k < |rps| :: rps[k].optional
  }

  lemma {:induction false} RequestsAt(rps: seq<RequestProperty>, i: nat)
    requires i <= |rps|
    ensures |Requests(rps, i, false)| == |rps| - i
    ensures forall j | 0 <= j < |rps| - i :: Requests(rps, i, false)[j] == Request(rps[i + j], i + j)
    decreases |rps| - i
  {
    if i < |rps| { RequestsAt(rps, i + 1); }
  }

  lemma EqualRequests(a: RequestProperty, i: nat, b: RequestProperty, j: nat)
    requires Equals(Request(a, i), Request(b, j))
    ensures i == j
  {
    assert Equals(RequestTerm(a, i), RequestTerm(b, j));
    RequestNamesDiffer(i, j);
  }

  lemma RequestsDiffer(rps: seq<RequestProperty>)
    ensures Distinct(Requests(rps, 0, false))
  {
    var ts := Requests(rps, 0, false);
    RequestsAt(rps, 0);
    forall i, j | 0 <= i < j < |ts| ensures !Equals(ts[i], ts[j]) {
      if Equals(ts[i], ts[j]) { EqualRequests(rps[i], i, rps[j], j); }
    }
  }

  lemma {:induction false} RequestsStay(ts: seq<Term>, acc: seq<Term>)
    requires forall x | x in ts :: Optimized(x) == x && Operands(true, x) == [x]
    requires Distinct(acc + ts)
    ensures OptimizedSubs(true, ts, acc) == acc + ts
    decreases |ts|
  {
    if ts == [] {
      assert acc + ts == acc;
    } else {
      var x := ts[0];
      assert x in ts && forall y | y in ts[1..] :: y in ts;
      assert (acc + ts)[|acc|] == x && forall i | 0 <= i < |acc| :: (acc + ts)[i] == acc[i];
      OneAppended(acc, x);
      assert acc + ts == (acc + [x]) + ts[1..];
      RequestsStay(ts[1..], acc + [x]);
    }
  }

  /** Then the optimized term holds just the request properties. */
  lemma OnlyRequestsAreLeft(q: Query)
    requires !AsksForSomething(q, false) && q.requestProperties != []
    ensures OnlyOptional(q.requestProperties)
    ensures Optimized(BuiltTerm(q, false)) == Collapse(true, Requests(q.requestProperties, 0, false))
  {
    var rps, own := q.requestProperties, Operands(true, q.term);
    var requests := Requests(rps, 0, false);
    RequestsAt(rps, 0);
    RequestsAdded(q.term, rps, 0, false);
    BuiltIsTaken(q, false);
    OptimizedConjuncts(BuiltTerm(q, false));
    if IsValid(q.term) { ValidSays(q.term); }
    forall s | s in own ensures !Says(s) { assert q.term.And?; }
    SilentGroup(true, own);
    OptimizedSubsConcat(true, own, requests, []);
    AllRequestsFit(rps, 0, false);
    RequestsDiffer(rps);
    assert [] + requests == requests;
    RequestsStay(requests, []);
  }

  lemma {:induction false} OptionalsUnsorted(acc: seq<Term>, ts: seq<Term>)
    requires AllOptional(ts)
    ensures NamedFirst(acc, ts) == acc + ts
    decreases |ts|
  {
    if ts == [] {
      assert acc + ts == acc;
    } else {
      assert ts[0] in ts && forall t | t in ts[1..] :: t in ts;
      OptionalsUnsorted(acc + [ts[0]], ts[1..]);
      assert acc + ts == (acc + [ts[0]]) + ts[1..];
    }
  }

  lemma AllAreOptional(rps: seq<RequestProperty>)
    requires OnlyOptional(rps)
    ensures AllOptional(Requests(rps, 0, false)) && Requests(rps, 0, true) == []
  {
    var ts := Requests(rps, 0, false);
    RequestsAt(rps, 0);
    forall t | t in ts ensures t.Optional? {
      var k :| 0 <= k < |ts| && ts[k] == t;
    }
    SolidRequests(rps, 0);
    NoneSolid(ts);
  }

  lemma {:induction false} NoneSolid(ts: seq<Term>)
    requires AllOptional(ts)
    ensures Solid(ts) == []
  {
    if ts != [] {
      assert ts[0] in ts && forall t | t in ts[1..] :: t in ts;
      NoneSolid(ts[1..]);
    }
  }

  lemma OptionalRequests(rps: seq<RequestProperty>, first: First)
    requires OnlyOptional(rps)
    ensures AllOptional(Requests(rps, 0, false)) && Improved(And(Requests(rps, 0, false)), first) == And(Requests(rps, 0, false))
    ensures rps != [] ==> Improved(Requests(rps, 0, false)[0], first) == Requests(rps, 0, false)[0]
  {
    var ts := Requests(rps, 0, false);
    RequestsAt(rps, 0);
    forall t | t in ts ensures t.Optional? && Improved(t, first) == t {
      var k :| 0 <= k < |ts| && ts[k] == t;
      assert Improved(RequestTerm(rps[k], k), first) == RequestTerm(rps[k], k);
    }
    OptionalsUnsorted([], ts);
    assert [] + ts == ts;
    ImprovedAllAt(ts, first);
    assert ImprovedAll(ts, first) == ts;
  }

  lemma {:induction false} FirstIsFront(w: World, rps: seq<RequestProperty>, i: nat, r: Node)
    requires SubjectsTyped(w) && OnlyOptional(rps) && i <= |rps|
    ensures FrontAllows(w, Requests(rps, i, false), false, r) <==> FirstDecides(w, rps, i, r)
    decreases |rps| - i
  {
    if i < |rps| {
      FirstIsFront(w, rps, i + 1, r);
      var ts, c := Requests(rps, i, false), RequestTerm(rps[i], i);
      assert ts[0] == Optional(c) && ts[1..] == Requests(rps, i + 1, false);
      forall n ensures Found(c, w, n) <==> Has(w, rps[i].property, n) { RequestFinds(w, rps[i], i, n); }
      forall n | Has(w, rps[i].property, n) ensures Typed(w, n) {
        var v :| Linked(w, n, rps[i].property, v);
      }
    }
  }

  lemma RequestFinds(w: World, rp: RequestProperty, i: nat, n: Node)
    ensures Found(RequestTerm(rp, i), w, n) <==> Has(w, rp.property, n)
  {
    assert forall v :: LinkedEitherWay(w, false, n, rp.property, v) == Linked(w, n, rp.property, v);
  }

  lemma {:induction false} OptionalsRun(w: World, rps: seq<RequestProperty>, i: nat, cfg: Config)
    requires SubjectsTyped(w) && OnlyOptional(rps) && i <= |rps| && cfg.literalRange == w.literalRange
    ensures FrontRuns(w, Requests(rps, i, false), false, cfg)
    decreases |rps| - i
  {
    if i < |rps| {
      OptionalsRun(w, rps, i + 1, cfg);
      var ts := Requests(rps, i, false);
      assert ts[0] == Optional(RequestTerm(rps[i], i)) && ts[1..] == Requests(rps, i + 1, false);
      assert |RequestName(i)| >= 7;
      RequestFits(RequestTerm(rps[i], i), w);
    }
  }

  lemma OneOptional(w: World, x: Term, cfg: Config, r: Node)
    requires x.Optional?
    ensures Returns(w, Compile(x, V(ResultVar), false, cfg, 0).0, ResultVar, r)
       <==> Returns(w, Compile(And([x]), V(ResultVar), false, cfg, 0).0, ResultVar, r)
  {
    var es := Compile(x, V(ResultVar), false, cfg, 0).0;
    assert [x][1..] == [] && es + [] == es && !HasRealPattern([x]);
    assert CompileAll([x], V(ResultVar), false, cfg, 0).0 == es + [];
    GroupReturns(w, es, ResultVar, r);
  }

  lemma OnlyOptionalFinal(q: Query, first: First)
    requires !AsksForSomething(q, false) && q.requestProperties != []
    ensures var ts := Requests(q.requestProperties, 0, false);
            OnlyOptional(q.requestProperties) && FinalTerm(q, false, first) == if |ts| == 1 then ts[0] else And(ts)
  {
    OnlyRequestsAreLeft(q);
    RequestsAt(q.requestProperties, 0);
    OptionalRequests(q.requestProperties, first);
  }

  lemma OptionalsReturn(w: World, rps: seq<RequestProperty>, cfg: Config)
    requires SubjectsTyped(w) && cfg.literalRange == w.literalRange && OnlyOptional(rps)
    ensures forall r :: Returns(w, Compile(And(Requests(rps, 0, false)), V(ResultVar), false, cfg, 0).0, ResultVar, r)
                        <==> Typed(w, r) && FirstDecides(w, rps, 0, r)
  {
    var ts := Requests(rps, 0, false);
    OptionalsAllRun(w, rps, cfg);
    ConjunctionReturns(w, ts, cfg);
    forall r ensures Found(And(ts), w, r) && (FrontAllows(w, ts, false, r) <==> FirstDecides(w, rps, 0, r)) {
      FirstIsFront(w, rps, 0, r);
      OptionalsFind(ts, w, r);
    }
  }

  lemma OptionalsFind(ts: seq<Term>, w: World, r: Node)
    requires AllOptional(ts)
    ensures Found(And(ts), w, r)
  {
  }

  lemma OptionalsAllRun(w: World, rps: seq<RequestProperty>, cfg: Config)
    requires SubjectsTyped(w) && cfg.literalRange == w.literalRange && OnlyOptional(rps)
    ensures var ts := Requests(rps, 0, false);
            NamesApart(ts) && AllOptional(ts) && !HasRealPattern(ts) && AllRun(w, ts, false, cfg)
  {
    AllRequestsFit(rps, 0, false);
    AllAreOptional(rps);
    OptionalsRun(w, rps, 0, cfg);
  }

  /** A query that asks for nothing but optional request properties returns the resources that have
      the first of them that anything has. */
  lemma OnlyOptionalReturns(w: World, q: Query, first: First, cfg: Config)
    requires SubjectsTyped(w) && cfg.literalRange == w.literalRange
    requires !AsksForSomething(q, false) && q.requestProperties != []
    ensures forall r :: Returns(w, Compile(FinalTerm(q, false, first), V(ResultVar), false, cfg, 0).0, ResultVar, r)
                        <==> Typed(w, r) && FirstDecides(w, q.requestProperties, 0, r)
  {
    var ts := Requests(q.requestProperties, 0, false);
    OnlyOptionalFinal(q, first);
    OptionalsReturn(w, q.requestProperties, cfg);
    if |ts| == 1 {
      assert ts == [ts[0]];
      AllAreOptional(q.requestProperties);
      forall r { OneOptional(w, ts[0], cfg, r); }
    }
  }

  // ----- where the modes differ -----

  /** The query's own term has a part in the ask query and none in the query itself exactly if there
      is no file restriction, it is neither a conjunction nor valid, and there are request
      properties, all of them optional. */
  lemma OwnTermIsLostExactly(q: Query)
    ensures Counts(q, false) ==> Counts(q, true)
    ensures Counts(q, true) && !Counts(q, false)
       <==> q.file.None? && !Taken(true, q.term) && q.requestProperties != [] && OnlyOptional(q.requestProperties)
  {
    RequestsAt(q.requestProperties, 0);
    if OnlyOptional(q.requestProperties) {
      AllAreOptional(q.requestProperties);
    } else {
      AllRequestsFit(q.requestProperties, 0, true);
    }
  }

  /** A disjunction with an invalid member, and one optional request property. */
  function HalfValid(p: Option<Uri>): Query {
    Query(Or([Resource("a"), Invalid]), [RequestProperty(p, true)], None)
  }

  /** What is neither a conjunction nor valid adds nothing to a conjunction. */
  lemma LostInAnd(t: Term, x: Term)
    requires !Taken(true, t) && Operands(true, x) == [x]
    ensures AndTerms(t, x) == x
  {
    assert Operands(true, t) + Operands(true, x) == [x];
  }

  lemma HalfValidTerms(p: Option<Uri>)
    ensures var q := HalfValid(p);
            && BuiltTerm(q, true) == q.term && BuiltTerm(q, false) == Optional(RequestTerm(q.requestProperties[0], 0))
            && Says(q.term) && !Taken(true, q.term)
  {
    var q := HalfValid(p);
    var a, rps := Resource("a"), q.requestProperties;
    assert a in q.term.subTerms && Says(a) && Invalid in q.term.subTerms && !IsValid(Invalid);
    assert !IsValid(q.term);
    assert WithRequests(q.term, rps, 0, true) == WithRequests(q.term, rps, 1, true) == q.term;
    RequestShape(rps[0], 0);
    LostInAnd(q.term, Request(rps[0], 0));
    assert WithRequests(q.term, rps, 0, false) == WithRequests(Request(rps[0], 0), rps, 1, false);
  }

  lemma HalfValidFits(p: Option<Uri>, w: World, r: Node)
    requires SubjectsTyped(w)
    ensures QueryFits(w, HalfValid(p)) && QueryFitsAt(w, HalfValid(p), r)
    ensures Matches(HalfValid(p).term, w, r) <==> r == UriNode("a")
  {
    var t, a := HalfValid(p).term, Resource("a");
    HalfValidTerms(p);
    assert a in t.subTerms && forall s | s in t.subTerms :: s == a || s == Invalid;
    assert Supported(t, w) && Names(t) == {};
  }

  lemma HalfValidModes(p: Option<Uri>)
    ensures AsksForSomething(HalfValid(p), true) && !AsksForSomething(HalfValid(p), false)
  {
    HalfValidTerms(p);
    OwnTermIsLostExactly(HalfValid(p));
  }

  /** A resource "b" with the property and nothing else. */
  lemma BHas(p: Option<Uri>, literalRange: set<Uri>) returns (w: World)
    ensures SubjectsTyped(w) && w.literalRange == literalRange && Typed(w, UriNode("b")) && Has(w, p, UriNode("b"))
  {
    var b, x := UriNode("b"), LitNode(NoLiteral);
    var property := if p.Some? then UriNode(p.value) else RDF_TYPE;
    w := World({Triple(b, property, x), Triple(b, RDF_TYPE, x)}, literalRange, YES);
    assert Triple(b, RDF_TYPE, x) in w.store;
    assert Triple(b, property, x) in w.store && PropertyFits(p, property) && Linked(w, b, p, x);
  }

  /** Then the two modes are about different resources. */
  lemma ModesCanDiffer(p: Option<Uri>, first: First, cfg: Config)
    requires PicksMember(first)
    ensures exists w, r :: QueryFits(w, HalfValid(p))
              && Returns(w, Compile(FinalTerm(HalfValid(p), false, first), V(ResultVar), false, cfg, 0).0, ResultVar, r)
              && !Returns(w, Compile(FinalTerm(HalfValid(p), true, first), V(ResultVar), false, cfg, 0).0, ResultVar, r)
  {
    var q, b := HalfValid(p), UriNode("b");
    var w := BHas(p, cfg.literalRange);
    HalfValidTerms(p);
    HalfValidModes(p);
    OwnTermIsLostExactly(q);
    HalfValidFits(p, w, b);
    AskIsAboutTheTerm(w, q, first, cfg, b);
    OnlyOptionalReturns(w, q, first, cfg);
    assert FirstDecides(w, q.requestProperties, 0, b) by { assert q.requestProperties[0].property == p; }
  }

  lemma AskIsAboutTheTerm(w: World, q: Query, first: First, cfg: Config, r: Node)
    requires PicksMember(first) && cfg.literalRange == w.literalRange && QueryFits(w, q) && QueryFitsAt(w, q, r)
    requires AsksForSomething(q, true) && Counts(q, true) && Says(q.term) && !Matches(q.term, w, r)
    ensures !Returns(w, Compile(FinalTerm(q, true, first), V(ResultVar), false, cfg, 0).0, ResultVar, r)
  {
    QueryReturnsWhatItAsksFor(w, q, true, first, cfg, r);
  }
}
