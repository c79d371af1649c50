/** QueryPrivate::optimizeEvenMore (libnepomukcore/query/query.cpp:105-188), the second pass that
    runs on an optimized term. */
module EvenMore {
  import opened Terms
  import opened Optimizer
  import opened Denotation
  import Counting

  /** The element a QSet iterates over first; every result holds for any such choice. */
  type First = set<Uri> -> Uri

  ghost predicate PicksMember(first: First) {
    forall s: set<Uri> | s != {} :: first(s) in s
  }

  /** ResourceTypeTerm::type */
  function TypeOf(ts: set<Uri>, first: First): Uri {
    if ts == {} then "" else first(ts)
  }

  function TypeTerms(subs: seq<Term>): seq<Term> {
    if subs == [] then []
    else (if subs[0].ResourceType? then [subs[0]] else []) + TypeTerms(subs[1..])
  }

  function OtherTerms(subs: seq<Term>): seq<Term> {
    if subs == [] then []
    else (if subs[0].ResourceType? then [] else [subs[0]]) + OtherTerms(subs[1..])
  }

  function MergedTypes(ts: seq<Term>, first: First): set<Uri>
    requires forall t | t in ts :: t.ResourceType?
  {
    if ts == [] then {} else {TypeOf(ts[0].types, first)} + MergedTypes(ts[1..], first)
  }

  lemma {:induction false} TypeTermsAreTypes(subs: seq<Term>)
    ensures forall t | t in TypeTerms(subs) :: t.ResourceType?
    ensures forall t :: t in subs <==> t in OtherTerms(subs) || t in TypeTerms(subs)
    ensures forall t | t in OtherTerms(subs) :: !t.ResourceType?
    ensures |TypeTerms(subs)| + |OtherTerms(subs)| == |subs|
  {
    if subs != [] {
      TypeTermsAreTypes(subs[1..]);
    }
  }

  function MergedOr(subs: seq<Term>, first: First): seq<Term> {
    TypeTermsAreTypes(subs);
    var types, others := TypeTerms(subs), OtherTerms(subs);
    if |types| > 1 then others + [ResourceType(MergedTypes(types, first))] else others + types
  }

  /** Comparisons with a variable name go to the front. */
  function NamedFirst(acc: seq<Term>, subs: seq<Term>): seq<Term>
    decreases |subs|
  {
    if subs == [] then acc
    else NamedFirst(if IsNamed(subs[0]) then [subs[0]] + acc else acc + [subs[0]], subs[1..])
  }

  predicate IsNamed(t: Term) {
    t.Comparison? && t.variableName != ""
  }

  function Improved(t: Term, first: First): Term
    decreases Size(t), 0
  {
    match t
    case Or(subs) =>
      var merged := MergedOr(subs, first);
      if |merged| == 1 then merged[0] else Or(merged)
    case And(subs) =>
      NamedFirstSize([], subs);
      And(ImprovedAll(NamedFirst([], subs), first))
    case Optional(s) => OptionalizeTerm(Improved(s, first))
    case Negation(s) => NegateTerm(Improved(s, first))
    case _ => t
  }

  function ImprovedAll(ts: seq<Term>, first: First): seq<Term>
    decreases SizeAll(ts), 1
  {
    if ts == [] then []
    else
      SizePositive(ts[0]);
      [Improved(ts[0], first)] + ImprovedAll(ts[1..], first)
  }

  lemma SizePositive(t: Term)
    ensures Size(t) >= 1
  {
  }

  lemma {:induction false} SizeConcat(a: seq<Term>, b: seq<Term>)
    ensures SizeAll(a + b) == SizeAll(a) + SizeAll(b)
  {
    if a == [] {
      assert a + b == b;
    } else {
      assert (a + b)[1..] == a[1..] + b;
      SizeConcat(a[1..], b);
    }
  }

  lemma {:induction false} NamedFirstSize(acc: seq<Term>, subs: seq<Term>)
    ensures SizeAll(NamedFirst(acc, subs)) == SizeAll(acc) + SizeAll(subs)
    decreases |subs|
  {
    if subs != [] {
      var t := subs[0];
      SizeConcat([t], acc);
      SizeConcat(acc, [t]);
      assert [t][1..] == [] && SizeAll([t]) == Size(t);
      NamedFirstSize(if IsNamed(t) then [t] + acc else acc + [t], subs[1..]);
    }
  }

  /** Sorting the conjuncts only permutes them. */
  lemma {:induction false} NamedFirstPermutes(acc: seq<Term>, subs: seq<Term>)
    ensures multiset(NamedFirst(acc, subs)) == multiset(acc) + multiset(subs)
    decreases |subs|
  {
    if subs != [] {
      var t := subs[0];
      assert subs == [t] + subs[1..];
      NamedFirstPermutes(if IsNamed(t) then [t] + acc else acc + [t], subs[1..]);
    }
  }

  function NamedTerms(ts: seq<Term>): seq<Term> {
    if ts == [] then [] else (if IsNamed(ts[0]) then [ts[0]] else []) + NamedTerms(ts[1..])
  }

  function UnnamedTerms(ts: seq<Term>): seq<Term> {
    if ts == [] then [] else (if IsNamed(ts[0]) then [] else [ts[0]]) + UnnamedTerms(ts[1..])
  }

  function BackToFront(ts: seq<Term>): seq<Term> {
    if ts == [] then [] else BackToFront(ts[1..]) + [ts[0]]
  }

  /** Comparisons with a name come first, the last one foremost, and everything else follows in its
      order. */
  lemma {:induction false} NamedFirstSorts(acc: seq<Term>, ts: seq<Term>)
    ensures NamedFirst(acc, ts) == BackToFront(NamedTerms(ts)) + acc + UnnamedTerms(ts)
    decreases |ts|
  {
    if ts != [] {
      var t, named, rest := ts[0], NamedTerms(ts[1..]), UnnamedTerms(ts[1..]);
      NamedFirstSorts(if IsNamed(t) then [t] + acc else acc + [t], ts[1..]);
      if IsNamed(t) {
        assert ([t] + named)[1..] == named && [] + rest == rest;
        assert BackToFront(named) + ([t] + acc) == BackToFront([t] + named) + acc;
      } else {
        assert [] + named == named;
        assert BackToFront(named) + (acc + [t]) + rest == BackToFront(named) + acc + ([t] + rest);
      }
    }
  }

  // ----- the loops of the source -----

  method Improve(t: Term, first: First) returns (r: Term)
    ensures r == Improved(t, first)
    decreases Size(t)
  {
    match t {
      case Or(subs) =>
        var merged := MergeTypes(subs, first);
        r := if |merged| == 1 then merged[0] else Or(merged);
      case And(subs) =>
        var sorted := [];
        for i := 0 to |subs|
          invariant NamedFirst(sorted, subs[i..]) == NamedFirst([], subs)
        {
          assert subs[i..][1..] == subs[i + 1..];
          sorted := if IsNamed(subs[i]) then [subs[i]] + sorted else sorted + [subs[i]];
        }
        assert subs[|subs|..] == [];
        NamedFirstSize([], subs);
        var newSubs := [];
        for i := 0 to |sorted|
          invariant newSubs + ImprovedAll(sorted[i..], first) == ImprovedAll(sorted, first)
        {
          assert sorted[i..][1..] == sorted[i + 1..];
          SizeIn(sorted, sorted[i]);
          var n := Improve(sorted[i], first);
          newSubs := newSubs + [n];
        }
        assert sorted[|sorted|..] == [];
        r := And(newSubs);
      case Optional(s) =>
        r := Improve(s, first);
        r := OptionalizeTerm(r);
      case Negation(s) =>
        r := Improve(s, first);
        r := NegateTerm(r);
      case _ => r := t;
    }
  }

  method MergeTypes(subs: seq<Term>, first: First) returns (merged: seq<Term>)
    ensures merged == MergedOr(subs, first)
  {
    var types, others := SplitTypes(subs);
    TypeTermsAreTypes(subs);
    if |types| > 1 {
      var newTypes := UniteTypes(types, first);
      merged := others + [ResourceType(newTypes)];
    } else {
      merged := others + types;
    }
  }

  method UniteTypes(types: seq<Term>, first: First) returns (newTypes: set<Uri>)
    requires forall t | t in types :: t.ResourceType?
    ensures newTypes == MergedTypes(types, first)
  {
    newTypes := {};
    for i := 0 to |types|
      invariant newTypes + MergedTypes(types[i..], first) == MergedTypes(types, first)
    {
      assert types[i..][1..] == types[i + 1..];
      newTypes := newTypes + {TypeOf(types[i].types, first)};
    }
  }

  method SplitTypes(subs: seq<Term>) returns (types: seq<Term>, others: seq<Term>)
    ensures types == TypeTerms(subs) && others == OtherTerms(subs)
  {
    types, others := [], [];
    for i := 0 to |subs|
      invariant types + TypeTerms(subs[i..]) == TypeTerms(subs)
      invariant others + OtherTerms(subs[i..]) == OtherTerms(subs)
    {
      assert subs[i..][1..] == subs[i + 1..];
      if subs[i].ResourceType? {
        types := types + [subs[i]];
      } else {
        others := others + [subs[i]];
      }
    }
  }

  // ----- meaning -----

  /** The public interface only builds type terms with one type. */
  predicate SingleTypes(t: Term)
    decreases t
  {
    match t
    case ResourceType(ts) => |ts| == 1
    case And(subs) => forall s | s in subs :: SingleTypes(s)
    case Or(subs) => forall s | s in subs :: SingleTypes(s)
    case Negation(s) => SingleTypes(s)
    case Optional(s) => SingleTypes(s)
    case _ => true
  }

  function AllTypes(ts: seq<Term>): (all: set<Uri>)
    requires forall t | t in ts :: t.ResourceType?
    ensures forall u :: u in all <==> exists t | t in ts :: u in t.types
  {
    if ts == [] then {}
    else
      assert forall t :: t in ts <==> t == ts[0] || t in ts[1..];
      ts[0].types + AllTypes(ts[1..])
  }

  /** Where type terms are merged, every type of theirs is one that some term gives. */
  predicate TypesKept(t: Term, first: First)
    decreases t
  {
    match t
    case Or(subs) =>
      TypeTermsAreTypes(subs);
      |TypeTerms(subs)| > 1 ==> AllTypes(TypeTerms(subs)) <= MergedTypes(TypeTerms(subs), first)
    case And(subs) => forall s | s in subs :: TypesKept(s, first)
    case Negation(s) => TypesKept(s, first)
    case Optional(s) => TypesKept(s, first)
    case _ => true
  }

  lemma {:induction false} SingleTypesKept(t: Term, first: First)
    requires PicksMember(first) && SingleTypes(t)
    ensures TypesKept(t, first)
    decreases t
  {
    match t
    case Or(subs) =>
      TypeTermsAreTypes(subs);
      AllPicked(TypeTerms(subs), first);
    case And(subs) => forall s | s in subs ensures TypesKept(s, first) { SingleTypesKept(s, first); }
    case Negation(s) => SingleTypesKept(s, first);
    case Optional(s) => SingleTypesKept(s, first);
    case _ =>
  }

  lemma {:induction false} AllPicked(ts: seq<Term>, first: First)
    requires PicksMember(first) && forall t | t in ts :: t.ResourceType? && |t.types| == 1
    ensures AllTypes(ts) <= MergedTypes(ts, first)
  {
    if ts != [] {
      Counting.OnlyMember(ts[0].types, first(ts[0].types));
      AllPicked(ts[1..], first);
    }
  }

  lemma {:induction false} MergedAreTypes(ts: seq<Term>, first: First)
    requires PicksMember(first) && forall t | t in ts :: t.ResourceType? && t.types != {}
    ensures MergedTypes(ts, first) <= AllTypes(ts) && (ts != [] ==> MergedTypes(ts, first) != {})
  {
    if ts != [] {
      MergedAreTypes(ts[1..], first);
      assert first(ts[0].types) in MergedTypes(ts, first);
    }
  }

  lemma AllTypesMean(ts: seq<Term>, w: World, r: Node)
    requires forall t | t in ts :: t.ResourceType?
    ensures Matches(ResourceType(AllTypes(ts)), w, r) <==> exists t | t in ts :: Matches(t, w, r)
  {
    if u :| u in AllTypes(ts) && Triple(r, RDF_TYPE, UriNode(u)) in w.store {
      var t :| t in ts && u in t.types;
      assert t == ResourceType(t.types);
    }
    if t :| t in ts && Matches(t, w, r) {
      var u :| u in t.types && Triple(r, RDF_TYPE, UriNode(u)) in w.store;
    }
  }

  ghost predicate SameTypesMatch(ts: seq<Term>, types: set<Uri>) {
    forall w, r :: Matches(ResourceType(types), w, r) <==> exists t | t in ts :: Matches(t, w, r)
  }

  /** A resource whose only type was lost is no longer found. */
  lemma LostType(ts: seq<Term>, types: set<Uri>, lost: Uri)
    requires forall t | t in ts :: t.ResourceType?
    requires lost in AllTypes(ts) && lost !in types
    ensures !SameTypesMatch(ts, types)
  {
    var yes := Engine((_, _) => true, (_, _) => true, (_, _) => true, (_, _, _) => true, n => n);
    var r := UriNode("r");
    var w := World({Triple(r, RDF_TYPE, UriNode(lost))}, {}, yes);
    assert Triple(r, RDF_TYPE, UriNode(lost)) in w.store;
    assert Matches(ResourceType(AllTypes(ts)), w, r);
    AllTypesMean(ts, w, r);
    assert !Matches(ResourceType(types), w, r);
  }

  /** Merging type terms keeps what they match in every store exactly if no type of theirs is lost. */
  lemma MergingExactly(ts: seq<Term>, first: First)
    requires PicksMember(first) && forall t | t in ts :: t.ResourceType? && t.types != {}
    ensures SameTypesMatch(ts, MergedTypes(ts, first)) <==> AllTypes(ts) <= MergedTypes(ts, first)
  {
    MergedAreTypes(ts, first);
    if AllTypes(ts) <= MergedTypes(ts, first) {
      assert AllTypes(ts) == MergedTypes(ts, first);
      forall w, r ensures Matches(ResourceType(AllTypes(ts)), w, r) <==> exists t | t in ts :: Matches(t, w, r) {
        AllTypesMean(ts, w, r);
      }
    } else {
      var lost :| lost in AllTypes(ts) && lost !in MergedTypes(ts, first);
      LostType(ts, MergedTypes(ts, first), lost);
    }
  }

  lemma MergedOrMembers(subs: seq<Term>, first: First)
    requires forall s | s in subs :: IsValid(s)
    ensures forall s | s in MergedOr(subs, first) :: IsValid(s) && (s in subs || s.ResourceType?)
    ensures MergedOr(subs, first) == [] <==> subs == []
  {
    TypeTermsAreTypes(subs);
    var types, others := TypeTerms(subs), OtherTerms(subs);
    if |types| > 1 {
      assert TypeOf(types[0].types, first) in MergedTypes(types, first);
    }
    assert forall s | s in MergedOr(subs, first) :: s in others || s in types || s == ResourceType(MergedTypes(types, first));
  }

  lemma MergedOrMeaning(subs: seq<Term>, first: First, w: World, r: Node)
    requires PicksMember(first) && TypesKept(Or(subs), first)
    requires forall s | s in subs :: IsValid(s)
    ensures (exists s | s in MergedOr(subs, first) :: Matches(s, w, r)) <==> (exists s | s in subs :: Matches(s, w, r))
  {
    TypeTermsAreTypes(subs);
    var types, others := TypeTerms(subs), OtherTerms(subs);
    if |types| > 1 {
      var merged := ResourceType(MergedTypes(types, first));
      MergingExactly(types, first);
      assert SameTypesMatch(types, MergedTypes(types, first));
      MergedMembers(subs, others, types, MergedOr(subs, first), merged, w, r);
    } else {
      assert forall s :: s in MergedOr(subs, first) <==> s in others || s in types;
    }
  }

  lemma MergedMembers(subs: seq<Term>, others: seq<Term>, types: seq<Term>, result: seq<Term>, merged: Term, w: World, r: Node)
    requires forall s :: s in subs <==> s in others || s in types
    requires result == others + [merged] && (Matches(merged, w, r) <==> exists t | t in types :: Matches(t, w, r))
    ensures (exists s | s in result :: Matches(s, w, r)) <==> (exists s | s in subs :: Matches(s, w, r))
  {
    assert forall s :: s in result <==> s in others || s == merged;
  }

  /** No And directly in an And, anywhere. */
  predicate Flat(t: Term)
    decreases t
  {
    match t
    case And(subs) => forall s | s in subs :: !s.And? && Flat(s)
    case Or(subs) => forall s | s in subs :: Flat(s)
    case Negation(s) => Flat(s)
    case Optional(s) => Flat(s)
    case Comparison(s, _, _, _, _, _, _, _) => Flat(s)
    case _ => true
  }

  lemma NormalIsFlat(t: Term)
    requires Normal(t)
    ensures Flat(t)
    decreases t
  {
    match t
    case And(subs) => forall s | s in subs ensures Flat(s) { NormalIsFlat(s); }
    case Or(subs) => forall s | s in subs ensures Flat(s) { NormalIsFlat(s); }
    case Negation(s) => NormalIsFlat(s);
    case Optional(s) => NormalIsFlat(s);
    case Comparison(s, _, _, _, _, _, _, _) => NormalIsFlat(s);
    case _ =>
  }

  /** What the second pass does to a term as seen from outside. */
  ghost predicate Preserved(t: Term, first: First) {
    var i := Improved(t, first);
    && (IsValid(t) ==> IsValid(i))
    && (IsValid(t) ==> forall w, r :: Matches(i, w, r) == Matches(t, w, r))
    && Flat(i)
    && (i.And? ==> t.And?) && (i.Negation? ==> t.Negation?) && (i.Optional? ==> t.Optional?)
  }

  lemma {:induction false} ImprovedAllAt(ts: seq<Term>, first: First)
    ensures |ImprovedAll(ts, first)| == |ts|
    ensures forall k | 0 <= k < |ts| :: ImprovedAll(ts, first)[k] == Improved(ts[k], first)
  {
    if ts != [] {
      ImprovedAllAt(ts[1..], first);
    }
  }

  /** The conjuncts after the pass are exactly the improved conjuncts from before it. */
  lemma ImprovedMembers(subs: seq<Term>, first: First)
    ensures var improved := ImprovedAll(NamedFirst([], subs), first);
            && |improved| == |subs|
            && (forall s | s in subs :: Improved(s, first) in improved)
            && (forall i | i in improved :: exists s | s in subs :: i == Improved(s, first))
  {
    var sorted := NamedFirst([], subs);
    NamedFirstPermutes([], subs);
    assert |multiset(sorted)| == |multiset(subs)|;
    assert forall s :: s in sorted <==> s in multiset(sorted) <==> s in multiset(subs) <==> s in subs;
    ImprovedAllAt(sorted, first);
    var improved := ImprovedAll(sorted, first);
    forall s | s in subs ensures Improved(s, first) in improved {
      var k :| 0 <= k < |sorted| && sorted[k] == s;
      assert improved[k] == Improved(s, first);
    }
    forall i | i in improved ensures exists s | s in subs :: i == Improved(s, first) {
      var k :| 0 <= k < |improved| && improved[k] == i;
      assert sorted[k] in subs;
    }
  }

  lemma ImprovedAndPreserved(subs: seq<Term>, first: First)
    requires subs != [] && forall s | s in subs :: IsValid(s) && !s.And? && Preserved(s, first)
    ensures Preserved(And(subs), first)
  {
    ImprovedMembers(subs, first);
    var improved := ImprovedAll(NamedFirst([], subs), first);
    forall i | i in improved ensures IsValid(i) && !i.And? && Flat(i) && Says(i) {
      var s :| s in subs && i == Improved(s, first);
      ValidSays(i);
    }
    forall s | s in subs ensures Says(s) { ValidSays(s); }
    forall w, r ensures Matches(And(improved), w, r) == Matches(And(subs), w, r) {
      AndMeaning(subs, improved, first, w, r);
    }
  }

  lemma AndMeaning(subs: seq<Term>, improved: seq<Term>, first: First, w: World, r: Node)
    requires forall s | s in subs :: Says(s) && Improved(s, first) in improved
    requires forall i | i in improved :: Says(i) && exists s | s in subs :: i == Improved(s, first)
    requires forall s | s in subs :: IsValid(s) && Preserved(s, first)
    ensures Matches(And(improved), w, r) == Matches(And(subs), w, r)
  {
    forall s | s in subs ensures Matches(Improved(s, first), w, r) == Matches(s, w, r) {
      assert Preserved(s, first);
    }
  }

  lemma ImprovedOrPreserved(subs: seq<Term>, first: First)
    requires PicksMember(first)
    requires forall s | s in subs :: IsValid(s) && Flat(s)
    requires |subs| >= 2 && TypesKept(Or(subs), first)
    ensures Preserved(Or(subs), first)
  {
    var merged := MergedOr(subs, first);
    MergedOrMembers(subs, first);
    if |merged| == 1 {
      TypeTermsAreTypes(subs);
      assert merged[0] in merged && forall s :: s in merged ==> s == merged[0];
      assert merged[0].ResourceType?;
    }
    forall w, r ensures Matches(Improved(Or(subs), first), w, r) == Matches(Or(subs), w, r) {
      ImprovedOrMeaning(subs, first, w, r);
    }
  }

  lemma ImprovedOrMeaning(subs: seq<Term>, first: First, w: World, r: Node)
    requires PicksMember(first)
    requires forall s | s in subs :: IsValid(s)
    requires |subs| >= 2 && TypesKept(Or(subs), first)
    ensures Matches(Improved(Or(subs), first), w, r) == Matches(Or(subs), w, r)
  {
    var merged := MergedOr(subs, first);
    MergedOrMembers(subs, first);
    forall s | s in merged ensures Says(s) { ValidSays(s); }
    forall s | s in subs ensures Says(s) { ValidSays(s); }
    if |merged| == 1 { assert merged[0] in merged && forall s :: s in merged ==> s == merged[0]; }
    MergedOrMeaning(subs, first, w, r);
    assert Matches(Or(subs), w, r) == exists s | s in subs :: Matches(s, w, r);
    assert Matches(Improved(Or(subs), first), w, r) == exists s | s in merged :: Matches(s, w, r);
  }

  /** On a term in normal form the second pass changes neither validity nor meaning, and And terms
      stay flat. */
  lemma {:induction false} ImprovedPreserved(t: Term, first: First)
    requires PicksMember(first) && Normal(t) && TypesKept(t, first)
    ensures Preserved(t, first)
    decreases t
  {
    NormalIsFlat(t);
    match t
    case And(subs) =>
      forall s | s in subs ensures Preserved(s, first) { ImprovedPreserved(s, first); }
      ImprovedAndPreserved(subs, first);
    case Or(subs) =>
      ImprovedOrPreserved(subs, first);
    case Negation(s) => ImprovedPreserved(s, first);
    case Optional(s) => ImprovedPreserved(s, first);
    case _ =>
  }
}
