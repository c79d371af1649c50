/** Term::operator== as a relation. It looks for the subterms of one group in the other in one
    direction only, so it is an equivalence with equal meaning only where groups hold no
    duplicates - which is what the optimizer produces. */
module TermEquality {
  import opened Terms
  import opened Optimizer
  import opened Denotation
  import Counting

  /** Two equal groups: `xs` belongs to the left operand, `ys` to the right one. */
  predicate SubsEqual(xs: seq<Term>, ys: seq<Term>) {
    |ys| == |xs| && forall y | y in ys :: exists x | x in xs :: Equals(x, y)
  }

  lemma GroupsEqual(xs: seq<Term>, ys: seq<Term>)
    ensures Equals(And(xs), And(ys)) == SubsEqual(xs, ys)
    ensures Equals(Or(xs), Or(ys)) == SubsEqual(xs, ys)
  {
  }

  lemma {:induction false} Reflexive(t: Term)
    ensures Equals(t, t)
    decreases t
  {
    match t
    case And(subs) => forall s | s in subs ensures Equals(s, s) { Reflexive(s); }
    case Or(subs) => forall s | s in subs ensures Equals(s, s) { Reflexive(s); }
    case Negation(s) => Reflexive(s);
    case Optional(s) => Reflexive(s);
    case Comparison(s, _, _, _, _, _, _, _) => Reflexive(s);
    case _ =>
  }

  lemma {:induction false} SubsSymmetric(xs: seq<Term>, ys: seq<Term>)
    requires SubsEqual(xs, ys) && Distinct(ys)
    requires forall s | s in xs :: Normal(s)
    requires forall s | s in ys :: Normal(s)
    ensures SubsEqual(ys, xs)
    decreases SizeAll(xs) + SizeAll(ys), 3
  {
    NoSharedPartner(xs, ys);
    PairsSymmetric(xs, ys);
    Counting.TurnAround(xs, ys, Equals);
  }

  lemma {:induction false} PairsSymmetric(xs: seq<Term>, ys: seq<Term>)
    requires forall s | s in xs :: Normal(s)
    requires forall s | s in ys :: Normal(s)
    ensures forall x, y | x in xs && y in ys && Equals(x, y) :: Equals(y, x)
    decreases SizeAll(xs) + SizeAll(ys), 2
  {
    forall x, y | x in xs && y in ys && Equals(x, y) ensures Equals(y, x) {
      SizeIn(xs, x);
      SizeIn(ys, y);
      Symmetric(x, y);
    }
  }

  lemma {:induction false} NoSharedPartner(xs: seq<Term>, ys: seq<Term>)
    requires Distinct(ys)
    requires forall s | s in xs :: Normal(s)
    requires forall s | s in ys :: Normal(s)
    ensures forall i, j, x | 0 <= i < j < |ys| && x in xs :: !(Equals(x, ys[i]) && Equals(x, ys[j]))
    decreases SizeAll(xs) + SizeAll(ys), 2
  {
    forall i, j, x | 0 <= i < j < |ys| && x in xs && Equals(x, ys[i]) && Equals(x, ys[j]) ensures false {
      NotBoth(xs, ys, x, i, j);
    }
  }

  /** Two members equal to the same term would be equal to each other. */
  lemma {:induction false} NotBoth(xs: seq<Term>, ys: seq<Term>, x: Term, i: nat, j: nat)
    requires i < j < |ys| && Normal(ys[i]) && Normal(ys[j])
    requires x in xs && Normal(x) && Equals(x, ys[i]) && Equals(x, ys[j])
    ensures Equals(ys[i], ys[j])
    decreases SizeAll(xs) + SizeAll(ys), 1
  {
    SizeIn(xs, x);
    SizeOfTwo(ys, i, j);
    Symmetric(x, ys[i]);
    Transitive(ys[i], x, ys[j]);
  }

  lemma {:induction false} SizeOfTwo(ts: seq<Term>, i: nat, j: nat)
    requires i < j < |ts|
    ensures Size(ts[i]) + Size(ts[j]) <= SizeAll(ts)
  {
    if i == 0 {
      assert ts[1..][j - 1] == ts[j];
      SizeIn(ts[1..], ts[j]);
    } else {
      SizeOfTwo(ts[1..], i - 1, j - 1);
    }
  }

  lemma {:induction false} Symmetric(a: Term, b: Term)
    requires Normal(a) && Normal(b) && Equals(a, b)
    ensures Equals(b, a)
    decreases Size(a) + Size(b), 1
  {
    match a
    case And(subs) => SubsSymmetric(subs, b.subTerms);
    case Or(subs) => SubsSymmetric(subs, b.subTerms);
    case Negation(s) => Symmetric(s, b.subTerm);
    case Optional(s) => Symmetric(s, b.subTerm);
    case Comparison(s, _, _, _, _, _, _, _) => Symmetric(b.subTerm, s);
    case _ =>
  }

  lemma {:induction false} Transitive(a: Term, b: Term, c: Term)
    requires Normal(a) && Normal(b) && Normal(c)
    requires Equals(a, b) && Equals(b, c)
    ensures Equals(a, c)
    decreases Size(a) + Size(c), 0, Size(b)
  {
    match a
    case And(subs) => SubsTransitive(subs, b.subTerms, c.subTerms);
    case Or(subs) => SubsTransitive(subs, b.subTerms, c.subTerms);
    case Negation(s) => Transitive(s, b.subTerm, c.subTerm);
    case Optional(s) => Transitive(s, b.subTerm, c.subTerm);
    case Comparison(s, _, _, _, _, _, _, _) => Transitive(c.subTerm, b.subTerm, s);
    case _ =>
  }

  lemma {:induction false} SubsTransitive(xs: seq<Term>, ys: seq<Term>, zs: seq<Term>)
    requires SubsEqual(xs, ys) && SubsEqual(ys, zs)
    requires forall s | s in xs :: Normal(s)
    requires forall s | s in ys :: Normal(s)
    requires forall s | s in zs :: Normal(s)
    ensures SubsEqual(xs, zs)
    decreases SizeAll(xs) + SizeAll(zs), 1, SizeAll(ys)
  {
    forall z | z in zs ensures exists x | x in xs :: Equals(x, z) {
      var y :| y in ys && Equals(y, z);
      var x :| x in xs && Equals(x, y);
      SizeIn(xs, x);
      SizeIn(ys, y);
      SizeIn(zs, z);
      Transitive(x, y, z);
    }
  }

  // ----- repeated members -----

  function LongestUri(ts: seq<Term>): (n: nat)
    ensures forall t | t in ts && t.Resource? :: |t.uri| <= n
  {
    if ts == [] then 0
    else
      var rest := LongestUri(ts[1..]);
      if ts[0].Resource? && |ts[0].uri| > rest then |ts[0].uri| else rest
  }

  lemma NewResource(ts: seq<Term>) returns (r: Term)
    ensures r.Resource? && forall t | t in ts :: !Equals(t, r)
  {
    r := Resource(seq(LongestUri(ts) + 1, _ => 'x'));
  }

  lemma TwinIsEnough(ys: seq<Term>, i: nat, j: nat, other: Term)
    requires i < j < |ys| && Equals(ys[i], ys[j])
    ensures SubsEqual(ys[j := other], ys)
  {
    var xs := ys[j := other];
    forall y | y in ys ensures exists x | x in xs :: Equals(x, y) {
      var k :| 0 <= k < |ys| && ys[k] == y;
      Reflexive(y);
      var l := if k == j then i else k;
      assert xs[l] in xs && Equals(xs[l], y);
    }
  }

  /** A list with a repeated member equals some other list that does not equal it: the second of
      the twins can be anything. */
  lemma RepeatBreaksSymmetry(ys: seq<Term>) returns (xs: seq<Term>)
    requires !Distinct(ys)
    ensures SubsEqual(xs, ys) && !SubsEqual(ys, xs)
    ensures (forall s | s in ys :: Normal(s)) ==> forall s | s in xs :: Normal(s)
  {
    var i, j :| 0 <= i < j < |ys| && Equals(ys[i], ys[j]);
    var other := NewResource(ys);
    xs := ys[j := other];
    TwinIsEnough(ys, i, j, other);
    assert xs[j] in xs;
  }

  /** So comparing with a list is symmetric for all partners exactly if the list repeats nothing. */
  lemma SymmetricExactlyWithoutRepeats(ys: seq<Term>)
    requires forall s | s in ys :: Normal(s)
    ensures Distinct(ys) <==>
            forall xs: seq<Term> | SubsEqual(xs, ys) && (forall s | s in xs :: Normal(s)) :: SubsEqual(ys, xs)
  {
    if Distinct(ys) {
      forall xs: seq<Term> | SubsEqual(xs, ys) && (forall s | s in xs :: Normal(s)) ensures SubsEqual(ys, xs) {
        SubsSymmetric(xs, ys);
      }
    } else {
      var xs := RepeatBreaksSymmetry(ys);
    }
  }

  /** In terms of groups: both conjunctions and both disjunctions are equal one way only. */
  lemma NotSymmetricOnDuplicates(ys: seq<Term>)
    requires !Distinct(ys)
    ensures exists xs ::
              Equals(And(xs), And(ys)) && !Equals(And(ys), And(xs)) && Equals(Or(xs), Or(ys)) && !Equals(Or(ys), Or(xs))
  {
    var xs := RepeatBreaksSymmetry(ys);
    GroupsEqual(xs, ys);
    GroupsEqual(ys, xs);
    assert Equals(And(xs), And(ys)) && !Equals(And(ys), And(xs)) && Equals(Or(xs), Or(ys)) && !Equals(Or(ys), Or(xs));
  }

  // ----- what equal terms look like -----

  /** An order of 0, 1, ..., n - 1. */
  predicate IsPermutation(p: seq<nat>, n: nat) {
    |p| == n && (forall i | 0 <= i < n :: p[i] < n) && forall i, j | 0 <= i < j < n :: p[i] != p[j]
  }

  /** `b` is `a` with the members of groups in another order and other aggregate functions. */
  ghost predicate Alike(a: Term, b: Term)
    decreases Size(a) + Size(b), 1
  {
    match a
    case And(xs) => b.And? && AlikeLists(xs, b.subTerms)
    case Or(xs) => b.Or? && AlikeLists(xs, b.subTerms)
    case Negation(s) => b.Negation? && Alike(s, b.subTerm)
    case Optional(s) => b.Optional? && Alike(s, b.subTerm)
    case Comparison(s, _, _, _, _, _, _, _) =>
      b.Comparison? && b == a.(subTerm := b.subTerm, aggregate := b.aggregate) && Alike(s, b.subTerm)
    case _ => b == a
  }

  ghost predicate AlikeLists(xs: seq<Term>, ys: seq<Term>)
    decreases SizeAll(xs) + SizeAll(ys), 2
  {
    exists p: seq<nat> :: IsPermutation(p, |ys|) && |xs| == |ys| &&
      forall j | 0 <= j < |ys| :: (SizeIn(xs, xs[p[j]]); SizeIn(ys, ys[j]); Alike(xs[p[j]], ys[j]))
  }

  lemma {:induction false} AlikeIsEqual(a: Term, b: Term)
    requires Normal(a) && Normal(b) && Alike(a, b)
    ensures Equals(a, b)
    decreases Size(a) + Size(b), 1
  {
    match a
    case And(xs) => AlikeListsAreEqual(xs, b.subTerms);
    case Or(xs) => AlikeListsAreEqual(xs, b.subTerms);
    case Negation(s) => AlikeIsEqual(s, b.subTerm);
    case Optional(s) => AlikeIsEqual(s, b.subTerm);
    case Comparison(s, _, _, _, _, _, _, _) =>
      AlikeIsEqual(s, b.subTerm);
      Symmetric(s, b.subTerm);
    case _ =>
  }

  lemma {:induction false} AlikeListsAreEqual(xs: seq<Term>, ys: seq<Term>)
    requires AlikeLists(xs, ys)
    requires forall s | s in xs :: Normal(s)
    requires forall s | s in ys :: Normal(s)
    ensures SubsEqual(xs, ys)
    decreases SizeAll(xs) + SizeAll(ys), 2
  {
    var p: seq<nat> :| IsPermutation(p, |ys|) && forall j | 0 <= j < |ys| :: Alike(xs[p[j]], ys[j]);
    forall y | y in ys ensures exists x | x in xs :: Equals(x, y) {
      var j :| 0 <= j < |ys| && ys[j] == y;
      SizeIn(xs, xs[p[j]]);
      SizeIn(ys, y);
      AlikeIsEqual(xs[p[j]], y);
    }
  }

  lemma {:induction false} EqualIsAlike(a: Term, b: Term)
    requires Normal(a) && Normal(b) && Equals(a, b)
    ensures Alike(a, b)
    decreases Size(a) + Size(b), 1
  {
    match a
    case And(xs) => EqualListsAreAlike(xs, b.subTerms);
    case Or(xs) => EqualListsAreAlike(xs, b.subTerms);
    case Negation(s) => EqualIsAlike(s, b.subTerm);
    case Optional(s) => EqualIsAlike(s, b.subTerm);
    case Comparison(s, _, _, _, _, _, _, _) =>
      Symmetric(b.subTerm, s);
      EqualIsAlike(s, b.subTerm);
    case _ =>
  }

  /** The place of a member that equals `y`. */
  ghost function Partner(xs: seq<Term>, y: Term): (i: nat)
    requires ListContains(xs, y)
    ensures i < |xs| && Equals(xs[i], y)
  {
    var x :| x in xs && Equals(x, y);
    var i: nat :| i < |xs| && xs[i] == x;
    i
  }

  lemma {:induction false} EqualListsAreAlike(xs: seq<Term>, ys: seq<Term>)
    requires SubsEqual(xs, ys) && Distinct(ys)
    requires forall s | s in xs :: Normal(s)
    requires forall s | s in ys :: Normal(s)
    ensures AlikeLists(xs, ys)
    decreases SizeAll(xs) + SizeAll(ys), 2
  {
    var p := seq(|ys|, j requires 0 <= j < |ys| => (assert ys[j] in ys; Partner(xs, ys[j])));
    forall i, j | 0 <= i < j < |ys| ensures p[i] != p[j] {
      if p[i] == p[j] {
        NotBoth(xs, ys, xs[p[i]], i, j);
        assert false;
      }
    }
    forall j | 0 <= j < |ys| ensures Alike(xs[p[j]], ys[j]) {
      SizeIn(xs, xs[p[j]]);
      SizeIn(ys, ys[j]);
      EqualIsAlike(xs[p[j]], ys[j]);
    }
    assert IsPermutation(p, |ys|);
  }

  /** What `==` computes on normal terms: the order of the members of groups and the aggregate
      functions do not matter, everything else does. */
  lemma EqualsExactly(a: Term, b: Term)
    requires Normal(a) && Normal(b)
    ensures Equals(a, b) <==> Alike(a, b)
  {
    if Equals(a, b) { EqualIsAlike(a, b); }
    if Alike(a, b) { AlikeIsEqual(a, b); }
  }

  // ----- which members an optimized group keeps -----

  /** The members that optimizing a list brings into a group, repetitions included. */
  function Flattened(isAnd: bool, subs: seq<Term>): seq<Term> {
    if subs == [] then [] else Operands(isAnd, Optimized(subs[0])) + Flattened(isAnd, subs[1..])
  }

  /** Those that equal no earlier one, in their order. */
  function FirstOnes(ts: seq<Term>): seq<Term> {
    if ts == [] then []
    else
      var n := |ts| - 1;
      FirstOnes(ts[..n]) + if exists t | t in ts[..n] :: Equals(t, ts[n]) then [] else [ts[n]]
  }

  lemma {:induction false} AppendNewSplits(acc: seq<Term>, a: seq<Term>, b: seq<Term>)
    ensures AppendNew(acc, a + b) == AppendNew(AppendNew(acc, a), b)
    decreases |a|
  {
    if a == [] {
      assert a + b == b;
    } else {
      assert (a + b)[1..] == a[1..] + b;
      AppendNewSplits(if ListContains(acc, a[0]) then acc else acc + [a[0]], a[1..], b);
    }
  }

  lemma {:induction false} AppendsFlattened(isAnd: bool, subs: seq<Term>, acc: seq<Term>)
    ensures OptimizedSubs(isAnd, subs, acc) == AppendNew(acc, Flattened(isAnd, subs))
    decreases |subs|
  {
    if subs != [] {
      var ts := Operands(isAnd, Optimized(subs[0]));
      AppendsFlattened(isAnd, subs[1..], AppendNew(acc, ts));
      AppendNewSplits(acc, ts, Flattened(isAnd, subs[1..]));
    }
  }

  lemma {:induction false} FlattenedIsNormal(isAnd: bool, subs: seq<Term>)
    ensures forall t | t in Flattened(isAnd, subs) :: Normal(t)
    decreases |subs|
  {
    if subs != [] {
      OptimizedIsNormal(subs[0]);
      FlattenedIsNormal(isAnd, subs[1..]);
    }
  }

  lemma {:induction false} FirstOnesAreMembers(ts: seq<Term>)
    ensures forall x | x in FirstOnes(ts) :: x in ts
    decreases |ts|
  {
    if ts != [] { FirstOnesAreMembers(ts[..|ts| - 1]); }
  }

  lemma {:induction false} FirstOnesStandForAll(ts: seq<Term>, t: Term)
    requires t in ts && forall s | s in ts :: Normal(s)
    ensures ListContains(FirstOnes(ts), t)
    decreases |ts|, 0
  {
    var n := |ts| - 1;
    var init := ts[..n];
    if t in init {
      FirstOnesStandForAll(init, t);
    } else if y :| y in init && Equals(y, t) {
      EarlierStandsFor(init, y, t);
    } else {
      Reflexive(t);
    }
  }

  /** What equals an earlier member equals one that is kept. */
  lemma {:induction false} EarlierStandsFor(ts: seq<Term>, y: Term, t: Term)
    requires y in ts && Equals(y, t) && Normal(t) && forall s | s in ts :: Normal(s)
    ensures ListContains(FirstOnes(ts), t)
    decreases |ts|, 1
  {
    FirstOnesStandForAll(ts, y);
    FirstOnesAreMembers(ts);
    var x :| x in FirstOnes(ts) && Equals(x, y);
    Transitive(x, y, t);
  }

  lemma {:induction false} AppendsFirstOnes(ts: seq<Term>)
    requires forall s | s in ts :: Normal(s)
    ensures AppendNew([], ts) == FirstOnes(ts)
    decreases |ts|
  {
    if ts != [] {
      var n := |ts| - 1;
      var init, last := ts[..n], ts[n];
      AppendsFirstOnes(init);
      AppendNewSplits([], init, [last]);
      assert ts == init + [last] && [last][1..] == [];
      FirstOnesAreMembers(init);
      if y :| y in init && Equals(y, last) { EarlierStandsFor(init, y, last); }
    }
  }

  /** An optimized group has its members in their order, and of equal ones the first. */
  lemma KeepsFirstOnes(isAnd: bool, subs: seq<Term>)
    ensures OptimizedSubs(isAnd, subs, []) == FirstOnes(Flattened(isAnd, subs))
  {
    AppendsFlattened(isAnd, subs, []);
    FlattenedIsNormal(isAnd, subs);
    AppendsFirstOnes(Flattened(isAnd, subs));
  }

  // ----- equal terms mean the same -----

  lemma {:induction false} EqualsSameMeaning(a: Term, b: Term)
    requires Normal(a) && Normal(b) && Equals(a, b)
    ensures SameMeaning(a, b)
    decreases Size(a) + Size(b), 0
  {
    match a
    case And(subs) => SubsSameMeaning(subs, b.subTerms);
    case Or(subs) => SubsSameMeaning(subs, b.subTerms);
    case Negation(s) => EqualsSameMeaning(s, b.subTerm);
    case Optional(s) => EqualsSameMeaning(s, b.subTerm);
    case Comparison(s, _, _, _, _, _, _, _) => EqualsSameMeaning(b.subTerm, s);
    case _ =>
  }

  lemma {:induction false} SubsSameMeaning(xs: seq<Term>, ys: seq<Term>)
    requires SubsEqual(xs, ys) && Distinct(ys)
    requires forall s | s in xs :: Normal(s)
    requires forall s | s in ys :: Normal(s)
    ensures SameMeaning(And(xs), And(ys)) && SameMeaning(Or(xs), Or(ys))
    decreases SizeAll(xs) + SizeAll(ys), 2
  {
    SubsSymmetric(xs, ys);
    PartnersSameMeaning(xs, ys);
    PartnersSameMeaning(ys, xs);
    Twins(xs, ys);
    Twins(ys, xs);
    SameMeaningBothWays(And(xs), And(ys));
    SameMeaningBothWays(Or(xs), Or(ys));
  }

  lemma {:induction false} PartnersSameMeaning(xs: seq<Term>, ys: seq<Term>)
    requires SubsEqual(xs, ys)
    requires forall s | s in xs :: Normal(s)
    requires forall s | s in ys :: Normal(s)
    ensures forall y | y in ys :: exists x | x in xs :: SameMeaning(x, y)
    decreases SizeAll(xs) + SizeAll(ys), 1
  {
    forall y | y in ys ensures exists x | x in xs :: SameMeaning(x, y) {
      var x :| x in xs && Equals(x, y);
      SizeIn(xs, x);
      SizeIn(ys, y);
      EqualsSameMeaning(x, y);
    }
  }

  ghost predicate Implies(a: Term, b: Term) {
    forall w, r :: Matches(a, w, r) ==> Matches(b, w, r)
  }

  lemma SameMeaningBothWays(a: Term, b: Term)
    requires Implies(a, b) && Implies(b, a) && Says(a) == Says(b)
    ensures SameMeaning(a, b)
  {
  }

  /** If every member of `ys` has a twin of the same meaning in `xs`, then `xs` says no less. */
  lemma Twins(xs: seq<Term>, ys: seq<Term>)
    requires forall y | y in ys :: exists x | x in xs :: SameMeaning(x, y)
    ensures Says(And(ys)) ==> Says(And(xs))
    ensures Says(Or(ys)) ==> Says(Or(xs))
    ensures Implies(And(xs), And(ys)) && Implies(Or(ys), Or(xs))
  {
    forall w, r | Matches(And(xs), w, r) ensures Matches(And(ys), w, r) {
      forall y | y in ys && Says(y) ensures Matches(y, w, r) {
        var x :| x in xs && SameMeaning(x, y);
      }
    }
    forall w, r | Matches(Or(ys), w, r) ensures Matches(Or(xs), w, r) {
      var y :| y in ys && Says(y) && Matches(y, w, r);
      var x :| x in xs && SameMeaning(x, y);
    }
  }
}
