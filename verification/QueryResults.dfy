/** From a query to its results: the term that toSparqlQuery builds (libnepomukcore/query/query.cpp:
    409-457) can be compiled after both passes, with its optional conjuncts at the end. */
module QueryResults {
  import opened Terms
  import opened Denotation
  import opened Sparql
  import opened Compiler
  import opened CompilerVars
  import opened CompilerProof
  import opened Optimizer
  import opened OptimizerSoundness
  import opened EvenMore
  import opened OptimizerKeeps
  import opened OptionalParts
  import opened Texts
  import opened Query

  function FinalTerm(q: Query, askOrCount: bool, first: First): Term {
    Improved(Optimized(BuiltTerm(q, askOrCount)), first)
  }

  /** The query's own term is one the compiler supports, if it says anything, and uses no name that
      is made up for a request property; the store reads the query's folders as alternatives. */
  ghost predicate QueryFits(w: World, q: Query) {
    && SubjectsTyped(w)
    && (q.file.Some? ==> FoldersRead(w, q.file.value))
    && (Says(q.term) ==> Supported(q.term, w))
    && forall i | 0 <= i < |q.requestProperties| :: RequestName(i) !in Names(q.term)
  }

  /** Regular expressions can be negated in place at this resource; for excluded folders that takes
      one URL. */
  ghost predicate QueryFitsAt(w: World, q: Query, r: Node) {
    && (Says(q.term) ==> SingleThrough(q.term, w, r))
    && (q.file.Some? && q.file.value.excluded != [] ==> OneValue(w, r, Some(NIE_URL)))
  }

  /** Something other than optional request properties is asked for. */
  predicate AsksForSomething(q: Query, askOrCount: bool) {
    || (Counts(q, askOrCount) && Says(q.term))
    || q.file.Some?
    || exists k | 0 <= k < |q.requestProperties| :: !q.requestProperties[k].optional
  }

  // ----- the conjuncts of the built term -----

  lemma TwoConjuncts(a: Term, b: Term)
    requires IsValid(a) && IsValid(b) && !a.And? && !b.And?
    ensures AndTerms(a, b) == And([a, b]) && AndTerms(Invalid, b) == b
    ensures forall s :: s in [a, b] <==> s == a || s == b
  {
    assert [a] + [b] == [a, b] && [] + [b] == [b];
  }

  lemma PairFits(a: Term, b: Term, w: World)
    requires Supported(a, w) && Supported(b, w) && Names(a) == {} && Names(b) == {}
    ensures Supported(And([a, b]), w) && Names(And([a, b])) == {}
  {
    var both := [a, b];
    SupportedSays(a, w);
    assert a in both && forall s :: s in both <==> s == a || s == b;
    assert Says(And(both));
  }

  lemma FileTermsFit(w: World, f: FileRestriction)
    ensures forall s | s in FileTerms(f) :: Supported(s, w) && Names(s) == {}
  {
    PairFits(ResourceType({FILE_DATA_OBJECT}), Negation(ResourceType({FOLDER})), w);
    FilterFits(w, f);
  }

  lemma UrlMatchesFits(regex: string, w: World)
    ensures Supported(UrlMatches(regex), w) && Names(UrlMatches(regex)) == {}
    ensures Supported(Negation(UrlMatches(regex)), w)
  {
    assert Names(UrlMatches(regex).subTerm) == {};
  }

  lemma FilterFits(w: World, f: FileRestriction)
    ensures IsValid(FolderFilter(f)) ==> Supported(FolderFilter(f), w) && Names(FolderFilter(f)) == {}
  {
    var included := UrlMatches(JoinBars(IncludePatterns(f.included)));
    var excluded := Negation(UrlMatches(ExcludePattern(JoinBars(f.excluded))));
    TwoConjuncts(included, included);
    TwoConjuncts(included, excluded);
    UrlMatchesFits(JoinBars(IncludePatterns(f.included)), w);
    if f.excluded != [] {
      UrlMatchesFits(ExcludePattern(JoinBars(f.excluded)), w);
      PairFits(included, excluded, w);
    }
  }

  ghost predicate BaseFits(ts: seq<Term>, w: World, names: set<string>) {
    (forall s | s in ts && Says(s) :: Supported(s, w)) && NamesApart(ts) && AllNames(ts) <= names
  }

  lemma SilentNames(t: Term, w: World)
    requires !Says(t)
    ensures Names(t) == {}
  {
    SilentHasNoComparison(t);
    NoComparisonIsPlain(t, w);
  }

  lemma OwnTermFits(w: World, t: Term)
    requires Says(t) ==> Supported(t, w)
    ensures BaseFits(Operands(true, t), w, Names(t))
  {
    if t.And? && !Says(t) {
      forall s | s in t.subTerms ensures Names(s) == {} { SilentNames(s, w); }
    }
  }

  lemma NamelessBehind(t: Term, ts: seq<Term>)
    requires forall s | s in ts :: Names(s) == {}
    ensures NamesApart([t] + ts) && AllNames([t] + ts) <= Names(t)
  {
    var all := [t] + ts;
    forall i, j | 0 <= i < j < |all| ensures Names(all[i]) !! Names(all[j]) { assert all[j] in ts; }
    assert forall s :: s in all <==> s == t || s in ts;
  }

  lemma RestrictedFits(w: World, q: Query)
    requires QueryFits(w, q)
    ensures BaseFits(Operands(true, Restricted(q)), w, Names(q.term))
  {
    if q.file.None? {
      OwnTermFits(w, q.term);
    } else {
      FileTermsFit(w, q.file.value);
      NamelessBehind(q.term, FileTerms(q.file.value));
    }
  }

  predicate IsRequest(x: Term) {
    if x.Optional? then IsRequest(x.subTerm) else x.Comparison? && x.subTerm == Invalid && x.variableName != "" && !x.inverted
  }

  lemma RequestFits(x: Term, w: World)
    requires IsRequest(x) && !x.Optional?
    ensures Settled(x, w) && IsNamed(x) && Says(x) && Optimized(x) == x && Operands(true, x) == [x]
  {
  }

  lemma RequestShape(rp: RequestProperty, i: nat)
    ensures IsRequest(Request(rp, i)) && Optimized(Request(rp, i)) == Request(rp, i) && Says(Request(rp, i))
    ensures Operands(true, Request(rp, i)) == [Request(rp, i)] && Names(Request(rp, i)) == {RequestName(i)}
  {
    var c := RequestTerm(rp, i);
    assert |RequestName(i)| >= 7;
    assert Optimized(c) == c by { assert Optimized(Invalid) == Invalid; }
    assert Optimized(Optional(c)) == OptionalizeTerm(Optimized(c));
    assert Names(c) == {RequestName(i)} && IsValid(c) && IsValid(Optional(c));
  }

  lemma RequestNamesDiffer(i: nat, j: nat)
    requires RequestName(i) == RequestName(j)
    ensures i == j
  {
    assert RequestName(i)[7..] == NatText(i + 1) && RequestName(j)[7..] == NatText(j + 1);
    NatReadsBack(i + 1);
    NatReadsBack(j + 1);
  }

  ghost predicate RequestsFit(ts: seq<Term>, rps: seq<RequestProperty>, i: nat) {
    && NamesApart(ts)
    && (forall x | x in ts :: IsRequest(x) && Optimized(x) == x && Operands(true, x) == [x])
    && forall n | n in AllNames(ts) :: exists k | i <= k < |rps| :: n == RequestName(k)
  }

  ghost predicate HasMandatory(ts: seq<Term>, rps: seq<RequestProperty>, i: nat) {
    forall k | i <= k < |rps| && !rps[k].optional :: Request(rps[k], k) in ts
  }

  lemma {:induction false} AllRequestsFit(rps: seq<RequestProperty>, i: nat, askOrCount: bool)
    requires i <= |rps|
    ensures RequestsFit(Requests(rps, i, askOrCount), rps, i) && HasMandatory(Requests(rps, i, askOrCount), rps, i)
    decreases |rps| - i
  {
    if i < |rps| {
      var rest := Requests(rps, i + 1, askOrCount);
      AllRequestsFit(rps, i + 1, askOrCount);
      if IsLeftOut(rps[i], askOrCount) {
        assert Requests(rps, i, askOrCount) == rest;
        NoMoreFits(rps, i, rest);
      } else {
        assert Requests(rps, i, askOrCount) == [Request(rps[i], i)] + rest;
        OneMoreFits(rps, i, rest);
      }
    }
  }

  lemma NoMoreFits(rps: seq<RequestProperty>, i: nat, rest: seq<Term>)
    requires i < |rps| && RequestsFit(rest, rps, i + 1) && HasMandatory(rest, rps, i + 1) && rps[i].optional
    ensures RequestsFit(rest, rps, i) && HasMandatory(rest, rps, i)
  {
  }

  lemma OneMoreFits(rps: seq<RequestProperty>, i: nat, rest: seq<Term>)
    requires i < |rps| && RequestsFit(rest, rps, i + 1) && HasMandatory(rest, rps, i + 1)
    ensures RequestsFit([Request(rps[i], i)] + rest, rps, i) && HasMandatory([Request(rps[i], i)] + rest, rps, i)
  {
    var x := Request(rps[i], i);
    RequestShape(rps[i], i);
    forall n | n in AllNames(rest) ensures n != RequestName(i) {
      var k :| i + 1 <= k < |rps| && n == RequestName(k);
      if n == RequestName(i) { RequestNamesDiffer(i, k); }
    }
    ApartCons(x, rest);
    assert forall y :: y in [x] + rest <==> y == x || y in rest;
  }

  // ----- the conjuncts after the first pass -----

  lemma {:induction false} OptimizedSubsConcat(isAnd: bool, a: seq<Term>, b: seq<Term>, acc: seq<Term>)
    ensures OptimizedSubs(isAnd, a + b, acc) == OptimizedSubs(isAnd, b, OptimizedSubs(isAnd, a, acc))
    decreases |a|
  {
    if a == [] {
      assert a + b == b;
    } else {
      assert (a + b)[1..] == a[1..] + b;
      OptimizedSubsConcat(isAnd, a[1..], b, AppendNew(acc, Operands(isAnd, Optimized(a[0]))));
    }
  }

  /** The request properties stay behind everything else. */
  lemma {:induction false} RequestsAppended(ts: seq<Term>, acc: seq<Term>) returns (tail: seq<Term>)
    requires forall x | x in ts :: IsRequest(x) && Optimized(x) == x && Operands(true, x) == [x]
    ensures OptimizedSubs(true, ts, acc) == acc + tail && forall x | x in tail :: IsRequest(x)
    decreases |ts|
  {
    if ts == [] {
      tail := [];
    } else {
      var x := ts[0];
      assert x in ts && forall y | y in ts[1..] :: y in ts;
      OneAppended(acc, x);
      if ListContains(acc, x) {
        tail := RequestsAppended(ts[1..], acc);
      } else {
        var rest := RequestsAppended(ts[1..], acc + [x]);
        tail := [x] + rest;
        assert acc + [x] + rest == acc + tail;
      }
    }
  }

  /** What the first pass makes of the conjuncts: those that restrict the result, then request
      properties, all names apart. */
  ghost predicate Arranged(core: seq<Term>, tail: seq<Term>, w: World) {
    && NamesApart(core + tail)
    && (forall x | x in core :: Settled(x, w) && !x.Optional?)
    && forall x | x in tail :: IsRequest(x)
  }

  lemma BaseOperands(ts: seq<Term>, w: World, names: set<string>, s: Term)
    requires BaseFits(ts, w, names) && s in ts
    ensures NamesApart(Operands(true, Optimized(s)))
    ensures forall x | x in Operands(true, Optimized(s)) :: Settled(x, w) && !x.Optional?
  {
    if Says(s) {
      SupportedKept(s, w);
      SettledMembers(true, Optimized(s), w);
    } else {
      SilentGivesNothing(true, s);
    }
  }

  lemma Arranges(base: seq<Term>, requests: seq<Term>, rps: seq<RequestProperty>, w: World, names: set<string>)
      returns (core: seq<Term>, tail: seq<Term>)
    requires BaseFits(base, w, names) && RequestsFit(requests, rps, 0)
    requires forall i | 0 <= i < |rps| :: RequestName(i) !in names
    ensures OptimizedSubs(true, base + requests, []) == core + tail && Arranged(core, tail, w)
  {
    core := OptimizedSubs(true, base, []);
    tail := RequestsAppended(requests, core);
    OptimizedSubsConcat(true, base, requests, []);
    forall s | s in base ensures forall x | x in Operands(true, Optimized(s)) :: Settled(x, w) && !x.Optional? {
      BaseOperands(base, w, names, s);
    }
    OptimizedMembers(true, base, []);
    ApartConcat(base, requests);
    forall s | s in base + requests ensures NamesApart(Operands(true, Optimized(s))) {
      if s in base { BaseOperands(base, w, names, s); }
    }
    OptimizedApart(base + requests, []);
  }

  lemma ApartConcat(a: seq<Term>, b: seq<Term>)
    requires NamesApart(a) && NamesApart(b) && AllNames(a) !! AllNames(b)
    ensures NamesApart(a + b)
  {
    var all := a + b;
    forall i, j | 0 <= i < j < |all| ensures Names(all[i]) !! Names(all[j]) {
      if j < |a| {
        assert all[i] == a[i] && all[j] == a[j];
      } else if i >= |a| {
        assert all[i] == b[i - |a|] && all[j] == b[j - |a|];
      } else {
        assert all[i] in a && all[j] in b;
        assert Names(all[i]) <= AllNames(a) && Names(all[j]) <= AllNames(b);
      }
    }
  }

  // ----- the conjuncts after the second pass -----

  /** The compiled term returns the typed resources that the term finds. */
  ghost predicate ReturnsFound(w: World, t: Term, cfg: Config) {
    forall r :: Returns(w, Compile(t, V(ResultVar), false, cfg, 0).0, ResultVar, r) <==> Typed(w, r) && Found(t, w, r)
  }

  lemma {:induction false} NamedFirstConcat(acc: seq<Term>, a: seq<Term>, b: seq<Term>)
    ensures NamedFirst(acc, a + b) == NamedFirst(NamedFirst(acc, a), b)
    decreases |a|
  {
    if a == [] {
      assert a + b == b;
    } else {
      assert (a + b)[1..] == a[1..] + b;
      NamedFirstConcat(if IsNamed(a[0]) then [a[0]] + acc else acc + [a[0]], a[1..], b);
    }
  }

  predicate NoneOptional(ts: seq<Term>) {
    forall t | t in ts :: !t.Optional?
  }

  /** Mandatory request properties go to the front, optional ones to the end. */
  lemma {:induction false} RequestsSorted(front: seq<Term>, back: seq<Term>, tail: seq<Term>)
      returns (core: seq<Term>, opts: seq<Term>)
    requires NoneOptional(front) && AllOptional(back) && forall x | x in tail :: IsRequest(x)
    ensures NamedFirst(front + back, tail) == core + opts && NoneOptional(core) && AllOptional(opts)
    decreases |tail|
  {
    if tail == [] {
      core, opts := front, back;
    } else {
      var x := tail[0];
      assert x in tail && forall y | y in tail[1..] :: y in tail;
      if x.Optional? {
        core, opts := RequestsSorted(front, back + [x], tail[1..]);
        assert (front + back) + [x] == front + (back + [x]);
      } else {
        core, opts := RequestsSorted([x] + front, back, tail[1..]);
        assert [x] + (front + back) == ([x] + front) + back;
      }
    }
  }

  /** After sorting, everything optional is at the end. */
  lemma SortsOptionals(core: seq<Term>, tail: seq<Term>) returns (front: seq<Term>, opts: seq<Term>)
    requires NoneOptional(core) && forall x | x in tail :: IsRequest(x)
    ensures NamedFirst([], core + tail) == front + opts && NoneOptional(front) && AllOptional(opts)
  {
    NamedFirstConcat([], core, tail);
    NamedFirstPermutes([], core);
    var sorted := NamedFirst([], core);
    assert forall s :: s in sorted <==> s in multiset(sorted) <==> s in multiset(core) <==> s in core;
    front, opts := RequestsSorted(sorted, [], tail);
    assert sorted + [] == sorted;
  }

  lemma {:induction false} ImprovedAllConcat(a: seq<Term>, b: seq<Term>, first: First)
    ensures ImprovedAll(a + b, first) == ImprovedAll(a, first) + ImprovedAll(b, first)
  {
    ImprovedAllAt(a, first);
    ImprovedAllAt(b, first);
    ImprovedAllAt(a + b, first);
  }

  /** A conjunct after the second pass. */
  ghost predicate Finished(x: Term, first: First, w: World) {
    && Names(Improved(x, first)) <= Names(x)
    && (if x.Optional? then Improved(x, first).Optional? else Runnable(Improved(x, first), w))
  }

  lemma {:induction false} RequestIsFinished(x: Term, first: First, w: World)
    requires IsRequest(x)
    ensures Finished(x, first, w) && SingleTypes(x) && (x.Optional? ==> Improved(x, first).Optional?)
    ensures Names(Improved(x, first)) <= Names(x)
    decreases x
  {
    if x.Optional? { RequestIsFinished(x.subTerm, first, w); } else { RequestFits(x, w); }
  }

  lemma ConjunctIsFinished(x: Term, first: First, w: World)
    requires PicksMember(first) && Normal(x) && Settled(x, w) && !x.Optional?
    ensures Finished(x, first, w)
  {
    ImprovedRuns(x, first, w);
  }

  /** Several conjuncts: the final term is a conjunction with its optional conjuncts at the end. */
  lemma FinalConjunction(w: World, core: seq<Term>, tail: seq<Term>, first: First, cfg: Config)
    requires PicksMember(first) && Arranged(core, tail, w) && Normal(And(core + tail))
    requires cfg.literalRange == w.literalRange && SubjectsTyped(w)
    requires exists x | x in core + tail :: !x.Optional?
    ensures ReturnsFound(w, Improved(And(core + tail), first), cfg)
  {
    AllFinished(w, core, tail, first);
    var front, opts := SortsOptionals(core, tail);
    SortedKeeps(w, core + tail, front, opts, first);
    ImprovedAllConcat(front, opts, first);
    FinishedFront(w, front, opts, first, cfg);
    OptionalsLast(w, ImprovedAll(front, first), ImprovedAll(opts, first), cfg);
  }

  lemma AllFinished(w: World, core: seq<Term>, tail: seq<Term>, first: First)
    requires PicksMember(first) && Arranged(core, tail, w) && Normal(And(core + tail))
    ensures forall x | x in core + tail :: Finished(x, first, w)
  {
    forall x | x in core + tail ensures Finished(x, first, w) {
      if x in core { ConjunctIsFinished(x, first, w); } else { RequestIsFinished(x, first, w); }
    }
  }

  lemma SortedKeeps(w: World, members: seq<Term>, front: seq<Term>, opts: seq<Term>, first: First)
    requires NamesApart(members) && (forall x | x in members :: Finished(x, first, w)) && NamedFirst([], members) == front + opts
    ensures forall x :: x in front + opts <==> x in members
    ensures NamesApart(ImprovedAll(front + opts, first))
  {
    var sorted := front + opts;
    NamedFirstPermutes([], members);
    assert forall s :: s in sorted <==> s in multiset(sorted) <==> s in multiset(members) <==> s in members;
    NamedFirstApart([], members);
    ImprovedAllApart(sorted, first);
  }

  lemma FinishedFront(w: World, front: seq<Term>, opts: seq<Term>, first: First, cfg: Config)
    requires NoneOptional(front) && AllOptional(opts) && forall x | x in front + opts :: Finished(x, first, w)
    requires cfg.literalRange == w.literalRange && SubjectsTyped(w)
    requires exists x | x in front + opts :: !x.Optional?
    ensures ImprovedAll(front, first) != [] && AllOptional(ImprovedAll(opts, first))
    ensures forall t | t in ImprovedAll(front, first) :: Runs(w, t, cfg)
  {
    ImprovedAllAt(front, first);
    ImprovedAllAt(opts, first);
    var fs, os := ImprovedAll(front, first), ImprovedAll(opts, first);
    assert front != [] by {
      var x :| x in front + opts && !x.Optional?;
      assert x in front;
    }
    forall t | t in fs ensures Runs(w, t, cfg) {
      var k :| 0 <= k < |fs| && fs[k] == t;
      assert front[k] in front + opts && Finished(front[k], first, w) && front[k] in front;
    }
    forall t | t in os ensures t.Optional? {
      var k :| 0 <= k < |os| && os[k] == t;
      assert opts[k] in front + opts && Finished(opts[k], first, w) && opts[k] in opts;
    }
  }

  /** One conjunct is left, or there was never a conjunction. */
  lemma FinalSingle(w: World, t: Term, first: First, cfg: Config)
    requires PicksMember(first) && Normal(t) && Settled(t, w)
    requires cfg.literalRange == w.literalRange && SubjectsTyped(w)
    ensures ReturnsFound(w, Improved(t, first), cfg)
  {
    ImprovedRuns(t, first, w);
    CompiledQueryReturnsFound(w, Improved(t, first), cfg);
  }

  // ----- the whole way -----

  /** A single valid conjunct is optimized like a conjunction of one. */
  lemma OptimizedConjuncts(t: Term)
    requires Taken(true, t)
    ensures Optimized(t) == Collapse(true, OptimizedSubs(true, Operands(true, t), []))
  {
    if !t.And? {
      var o := Optimized(t);
      ValidOperandKept(t);
      OptimizedIsNormal(t);
      assert [t][1..] == [];
      assert OptimizedSubs(true, [t], []) == OptimizedSubs(true, [], AppendNew([], Operands(true, o)));
      if o.And? { AppendDistinct([], o.subTerms); assert [] + o.subTerms == o.subTerms; } else { OneAppended([], o); }
    }
  }

  lemma {:induction false} AppendDistinct(acc: seq<Term>, ts: seq<Term>)
    requires Distinct(acc + ts)
    ensures AppendNew(acc, ts) == acc + ts
    decreases |ts|
  {
    if ts == [] {
      assert acc + ts == acc;
    } else {
      assert (acc + ts)[|acc|] == ts[0] && forall i | 0 <= i < |acc| :: (acc + ts)[i] == acc[i];
      assert acc + ts == (acc + [ts[0]]) + ts[1..];
      AppendDistinct(acc + [ts[0]], ts[1..]);
    }
  }

  /** Something that is asked for is left in the conjuncts and is not optional. */
  lemma SomethingIsLeft(ts: seq<Term>, s: Term)
    requires s in ts && Says(s) && forall x | x in Operands(true, Optimized(s)) :: !x.Optional?
    ensures exists x | x in OptimizedSubs(true, ts, []) :: !x.Optional?
  {
    OptimizedContains(true, ts, []);
    ValidExactly(s);
    OptimizedIsNormal(s);
    var operands := Operands(true, Optimized(s));
    var x := operands[0];
    assert x in operands && ListContains(OptimizedSubs(true, ts, []), x);
    var y :| y in OptimizedSubs(true, ts, []) && Equals(y, x);
  }

  lemma BuiltIsStable(w: World, q: Query, askOrCount: bool)
    requires QueryFits(w, q) && Taken(true, BuiltTerm(q, askOrCount))
    ensures OperandsStable(BuiltTerm(q, askOrCount))
  {
    var built, ts := BuiltTerm(q, askOrCount), Conjuncts(q, askOrCount);
    RequestsAdded(Restricted(q), q.requestProperties, 0, askOrCount);
    RestrictedFits(w, q);
    AllRequestsFit(q.requestProperties, 0, askOrCount);
    forall s | s in ts ensures OperandsStable(s) {
      if s in Operands(true, Restricted(q)) { SupportedIsStable(s, w); } else { RequestIsStable(s); }
    }
    if !built.And? { assert built in ts; }
  }

  lemma {:induction false} RequestIsStable(x: Term)
    requires IsRequest(x)
    ensures OperandsStable(x)
    decreases x
  {
    if x.Optional? { RequestIsStable(x.subTerm); }
  }

  /** The first pass leaves the conjuncts arranged, and one of them is not optional. */
  lemma BuiltArranges(w: World, q: Query, askOrCount: bool) returns (core: seq<Term>, tail: seq<Term>)
    requires QueryFits(w, q) && AsksForSomething(q, askOrCount)
    requires q.file.Some? || Requests(q.requestProperties, 0, askOrCount) != []
    ensures Optimized(BuiltTerm(q, askOrCount)) == Collapse(true, core + tail) && Arranged(core, tail, w)
    ensures NormalList(true, core + tail) && exists x | x in core + tail :: !x.Optional?
    ensures core + tail == OptimizedSubs(true, Conjuncts(q, askOrCount), [])
  {
    var base, requests := Operands(true, Restricted(q)), Requests(q.requestProperties, 0, askOrCount);
    RestrictedFits(w, q);
    AllRequestsFit(q.requestProperties, 0, askOrCount);
    core, tail := Arranges(base, requests, q.requestProperties, w, Names(q.term));
    RequestsAdded(Restricted(q), q.requestProperties, 0, askOrCount);
    BuiltIsTaken(q, askOrCount);
    OptimizedConjuncts(BuiltTerm(q, askOrCount));
    OptimizedSubsNormal(true, base + requests, []);
    var s := SomethingAsked(w, q, askOrCount);
    SomethingIsLeft(base + requests, s);
  }

  lemma SomethingAsked(w: World, q: Query, askOrCount: bool) returns (s: Term)
    requires QueryFits(w, q) && AsksForSomething(q, askOrCount)
    requires q.file.Some? || Requests(q.requestProperties, 0, askOrCount) != []
    ensures s in Conjuncts(q, askOrCount) && Says(s) && forall x | x in Operands(true, Optimized(s)) :: !x.Optional?
  {
    if q.file.Some? || (Taken(true, q.term) && Says(q.term)) {
      s := OneOfBase(w, q);
    } else {
      AllRequestsFit(q.requestProperties, 0, askOrCount);
      var k :| 0 <= k < |q.requestProperties| && !q.requestProperties[k].optional;
      RequestShape(q.requestProperties[k], k);
      s := Request(q.requestProperties[k], k);
    }
  }

  lemma OneOfBase(w: World, q: Query) returns (s: Term)
    requires QueryFits(w, q) && (q.file.Some? || (Taken(true, q.term) && Says(q.term)))
    ensures s in Operands(true, Restricted(q)) && Says(s) && forall x | x in Operands(true, Optimized(s)) :: !x.Optional?
  {
    var base := Operands(true, Restricted(q));
    RestrictedFits(w, q);
    if q.file.Some? {
      s := FileModeTerm(q.file.value.mode);
      ValidSays(s);
      assert base[1] == s;
    } else {
      OperandsSay(true, q.term, w, UriNode(""));
      s :| s in base && Says(s);
    }
    BaseOperands(base, w, Names(q.term), s);
  }

  // ----- regular expressions that are negated in place -----

  lemma FileTermsSingle(w: World, f: FileRestriction, r: Node)
    requires f.excluded != [] ==> OneValue(w, r, Some(NIE_URL))
    ensures forall s | s in FileTerms(f) :: SingleThrough(s, w, r)
  {
    var included := UrlMatches(JoinBars(IncludePatterns(f.included)));
    var excluded := Negation(UrlMatches(ExcludePattern(JoinBars(f.excluded))));
    TwoConjuncts(included, included);
    TwoConjuncts(included, excluded);
    assert SingleThrough(included, w, r) && (f.excluded != [] ==> SingleThrough(excluded, w, r));
    var mode := FileModeTerm(f.mode);
    assert SingleThrough(mode, w, r) by {
      if mode.And? { assert forall s | s in mode.subTerms :: s == mode.subTerms[0] || s == mode.subTerms[1]; }
    }
  }

  lemma {:induction false} RequestIsSingle(x: Term, w: World, r: Node)
    requires IsRequest(x)
    ensures SingleThrough(x, w, r)
    decreases x
  {
  }

  /** Whatever the built term asks of the resource, it asks of one value. */
  lemma BuiltIsSingle(w: World, q: Query, askOrCount: bool, r: Node)
    requires QueryFitsAt(w, q, r) && Taken(true, BuiltTerm(q, askOrCount))
    ensures SingleThrough(BuiltTerm(q, askOrCount), w, r)
  {
    var built, ts := BuiltTerm(q, askOrCount), Conjuncts(q, askOrCount);
    RequestsAdded(Restricted(q), q.requestProperties, 0, askOrCount);
    AllRequestsFit(q.requestProperties, 0, askOrCount);
    forall s | s in ts && Says(s) ensures SingleThrough(s, w, r) {
      if s in Operands(true, Restricted(q)) { BaseIsSingle(w, q, r, s); } else { RequestIsSingle(s, w, r); }
    }
    if !built.And? {
      ValidSays(built);
      assert built in ts;
    }
  }

  lemma BaseIsSingle(w: World, q: Query, r: Node, s: Term)
    requires QueryFitsAt(w, q, r) && s in Operands(true, Restricted(q)) && Says(s)
    ensures SingleThrough(s, w, r)
  {
    if q.file.Some? {
      FileTermsSingle(w, q.file.value, r);
    } else if q.term.And? {
      assert s in q.term.subTerms && Says(q.term);
    }
  }

  // ----- the results -----

  /** From the query to its results: building, optimizing twice and compiling return a resource
      exactly if it is typed and what the query asks for, wherever regular expressions can be negated
      in place. */
  lemma QueryReturnsWhatItAsksFor(w: World, q: Query, askOrCount: bool, first: First, cfg: Config, r: Node)
    requires PicksMember(first) && cfg.literalRange == w.literalRange
    requires QueryFits(w, q) && AsksForSomething(q, askOrCount) && QueryFitsAt(w, q, r)
    ensures IsValid(FinalTerm(q, askOrCount, first))
    ensures Returns(w, Compile(FinalTerm(q, askOrCount, first), V(ResultVar), false, cfg, 0).0, ResultVar, r)
            <==> Typed(w, r) && Wanted(w, q, askOrCount, r)
  {
    FinalReturnsFound(w, q, askOrCount, first, cfg);
    FinalMeans(w, q, askOrCount, first);
    FinalIsSingle(w, q, askOrCount, first, r);
    FoundIsMatched(FinalTerm(q, askOrCount, first), w, r);
  }

  lemma FinalIsSingle(w: World, q: Query, askOrCount: bool, first: First, r: Node)
    requires AsksForSomething(q, askOrCount) && QueryFitsAt(w, q, r)
    ensures SingleAt(FinalTerm(q, askOrCount, first), w, r)
  {
    var built := BuiltTerm(q, askOrCount);
    if q.file.None? && Requests(q.requestProperties, 0, askOrCount) == [] {
      RequestsAdded(Restricted(q), q.requestProperties, 0, askOrCount);
      NoRequests(q, askOrCount);
    } else {
      BuiltIsTaken(q, askOrCount);
      BuiltIsSingle(w, q, askOrCount, r);
    }
    SingleKept(built, w, r);
    OptimizedIsNormal(built);
    ImprovedSingle(Optimized(built), first, w, r);
  }

  lemma FinalReturnsFound(w: World, q: Query, askOrCount: bool, first: First, cfg: Config)
    requires PicksMember(first) && cfg.literalRange == w.literalRange
    requires QueryFits(w, q) && AsksForSomething(q, askOrCount)
    ensures ReturnsFound(w, FinalTerm(q, askOrCount, first), cfg)
    ensures OperandsStable(BuiltTerm(q, askOrCount))
    ensures IsValid(Optimized(BuiltTerm(q, askOrCount))) && SingleTypes(Optimized(BuiltTerm(q, askOrCount)))
  {
    var built := BuiltTerm(q, askOrCount);
    if q.file.None? && Requests(q.requestProperties, 0, askOrCount) == [] {
      RequestsAdded(Restricted(q), q.requestProperties, 0, askOrCount);
      NoRequests(q, askOrCount);
      OptimizedIsNormal(built);
      SupportedKept(q.term, w);
      SupportedIsStable(q.term, w);
      FinalSingle(w, Optimized(built), first, cfg);
    } else {
      var core, tail := BuiltArranges(w, q, askOrCount);
      BuiltIsTaken(q, askOrCount);
      BuiltIsStable(w, q, askOrCount);
      ManyOrOne(w, core, tail, first, cfg);
    }
  }

  lemma NoRequests(q: Query, askOrCount: bool)
    requires q.file.None? && Requests(q.requestProperties, 0, askOrCount) == [] && AsksForSomething(q, askOrCount)
    ensures Says(q.term)
  {
    AllRequestsFit(q.requestProperties, 0, askOrCount);
    assert forall k | 0 <= k < |q.requestProperties| :: q.requestProperties[k].optional;
  }

  lemma ManyOrOne(w: World, core: seq<Term>, tail: seq<Term>, first: First, cfg: Config)
    requires PicksMember(first) && Arranged(core, tail, w) && NormalList(true, core + tail)
    requires cfg.literalRange == w.literalRange && SubjectsTyped(w)
    requires exists x | x in core + tail :: !x.Optional?
    ensures ReturnsFound(w, Improved(Collapse(true, core + tail), first), cfg)
    ensures SingleTypes(Collapse(true, core + tail)) && IsValid(Collapse(true, core + tail))
  {
    var all := core + tail;
    forall x | x in all ensures SingleTypes(x) { if x in tail { RequestIsFinished(x, first, w); } }
    if |all| == 1 {
      assert all[0] in all && !all[0].Optional?;
      if all[0] in tail { RequestFits(all[0], w); }
      FinalSingle(w, all[0], first, cfg);
    } else {
      FinalConjunction(w, core, tail, first, cfg);
    }
  }

  /** The final term means what the query asks for. */
  lemma FinalMeans(w: World, q: Query, askOrCount: bool, first: First)
    requires PicksMember(first) && (q.file.Some? ==> FoldersRead(w, q.file.value)) && OperandsStable(BuiltTerm(q, askOrCount))
    requires IsValid(Optimized(BuiltTerm(q, askOrCount))) && SingleTypes(Optimized(BuiltTerm(q, askOrCount)))
    ensures IsValid(FinalTerm(q, askOrCount, first))
    ensures forall r :: Matches(FinalTerm(q, askOrCount, first), w, r) <==> Wanted(w, q, askOrCount, r)
  {
    var built := BuiltTerm(q, askOrCount);
    Sound(built);
    OptimizedIsNormal(built);
    SingleTypesKept(Optimized(built), first);
    ImprovedPreserved(Optimized(built), first);
    assert SameMeaning(Optimized(built), built);
    forall r ensures Matches(FinalTerm(q, askOrCount, first), w, r) <==> Wanted(w, q, askOrCount, r) {
      BuiltTermMeans(w, q, askOrCount, r);
    }
  }
}
