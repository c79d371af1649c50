/** What the two optimizer passes (libnepomukcore/query/term.cpp:99-160,
    libnepomukcore/query/query.cpp:105-188) keep of what the compiler asks of a term. */
module OptimizerKeeps {
  import opened Terms
  import opened Optimizer
  import opened Denotation
  import opened OptimizerSoundness
  import opened EvenMore
  import opened Compiler
  import opened CompilerVars
  import opened CompilerProof
  import TermEquality

  // ----- what a query may ask for -----

  /** The term, or its negation, can come down to a regular expression comparison. */
  predicate CanBeRegexp(negated: bool, t: Term)
    decreases t
  {
    match t
    case And(subs) => forall s | s in subs && Says(s) :: CanBeRegexp(negated, s)
    case Or(subs) => forall s | s in subs && Says(s) :: CanBeRegexp(negated, s)
    case Negation(s) => CanBeRegexp(!negated, s)
    case Comparison(_, _, _, _, _, _, _, _) => !negated && IsRegexp(t)
    case _ => false
  }

  /** The regular expression comparisons that a term can come down to have operands. */
  predicate RegexpsHaveOperands(t: Term)
    decreases t
  {
    match t
    case And(subs) => forall s | s in subs && Says(s) :: RegexpsHaveOperands(s)
    case Or(subs) => forall s | s in subs && Says(s) :: RegexpsHaveOperands(s)
    case Negation(s) => RegexpsHaveOperands(s)
    case Comparison(s, _, _, _, _, _, _, _) => IsRegexp(t) ==> Says(s)
    case _ => true
  }

  /** What may be asked of a store. Members of groups that say nothing do not matter; values are
      compared with literals, related resources with literals only for equality or containment; only
      a known property is inverted, and leads to typed resources; a regular expression that may be
      negated in place has an operand; names are used once in a conjunction; type terms have one
      type; no operand collapses harmfully; nothing is optional. */
  ghost predicate Supported(t: Term, w: World)
    decreases t
  {
    match t
    case Invalid => false
    case Literal(l) => LiteralText(l) != ""
    case Resource(u) => u != ""
    case ResourceType(ts) => |ts| == 1
    case And(subs) => Says(t) && NamesApart(subs) && forall s | s in subs && Says(s) :: Supported(s, w)
    case Or(subs) => Says(t) && forall s | s in subs && Says(s) :: Supported(s, w)
    case Negation(s) => Supported(s, w) && (CanBeRegexp(false, s) ==> RegexpsHaveOperands(s))
    case Optional(s) => false
    case Comparison(s, p, c, _, _, _, _, inverted) =>
      && (inverted && FollowsLink(t, w.literalRange) ==> ObjectsTyped(w, p))
      && (if !Says(s) then inverted ==> p.Some?
          else if ComparedAsValue(t, w.literalRange) then s.Literal? && IsValid(s)
          else if s.Literal? then IsValid(s) && (c == Equal || c == Contains)
          else (inverted ==> p.Some?) &&
               (s.Resource? || (Supported(s, w) && OwnName(t) !! Names(s) && (Collapses(s) ==> Harmless(t, SoleOf(s).leaf)))))
  }

  lemma {:induction false} SupportedSays(t: Term, w: World)
    requires Supported(t, w)
    ensures Says(t)
    decreases t
  {
    match t
    case Negation(s) => SupportedSays(s, w);
    case _ =>
  }

  // ----- terms that say nothing -----

  predicate NoComparison(t: Term)
    decreases t
  {
    match t
    case And(subs) => forall s | s in subs :: NoComparison(s)
    case Or(subs) => forall s | s in subs :: NoComparison(s)
    case Negation(s) => NoComparison(s)
    case Optional(s) => NoComparison(s)
    case Comparison(_, _, _, _, _, _, _, _) => false
    case _ => true
  }

  lemma {:induction false} SilentHasNoComparison(t: Term)
    requires !Says(t)
    ensures NoComparison(t) && NoComparison(Optimized(t))
    decreases t
  {
    match t
    case And(subs) => SilentGroup(true, subs);
    case Or(subs) => SilentGroup(false, subs);
    case Negation(s) => SilentHasNoComparison(s); if s.Negation? { SilentHasNoComparison(s.subTerm); }
    case Optional(s) => SilentHasNoComparison(s);
    case _ =>
  }

  lemma {:induction false} SilentGroup(isAnd: bool, subs: seq<Term>)
    requires forall s | s in subs :: !Says(s)
    ensures (forall s | s in subs :: NoComparison(s)) && OptimizedSubs(isAnd, subs, []) == []
    decreases subs
  {
    if subs != [] {
      assert subs[0] in subs && forall s | s in subs[1..] :: s in subs;
      SilentHasNoComparison(subs[0]);
      SilentGivesNothing(isAnd, subs[0]);
      SilentGroup(isAnd, subs[1..]);
      assert forall s :: s in subs <==> s == subs[0] || s in subs[1..];
    }
  }

  lemma SilentGivesNothing(isAnd: bool, s: Term)
    requires !Says(s)
    ensures Operands(isAnd, Optimized(s)) == []
  {
    ValidExactly(s);
    OptimizedIsNormal(s);
  }

  lemma {:induction false} NoComparisonIsPlain(t: Term, w: World)
    requires NoComparison(t)
    ensures Names(t) == {} && Fits(t, w) && OperandsStable(t)
    decreases t
  {
    match t
    case And(subs) =>
      forall s | s in subs ensures Names(s) == {} && Fits(s, w) && OperandsStable(s) { NoComparisonIsPlain(s, w); }
    case Or(subs) =>
      forall s | s in subs ensures Names(s) == {} && Fits(s, w) && OperandsStable(s) { NoComparisonIsPlain(s, w); }
    case Negation(s) => NoComparisonIsPlain(s, w);
    case Optional(s) => NoComparisonIsPlain(s, w);
    case _ =>
  }

  lemma {:induction false} SupportedIsStable(t: Term, w: World)
    requires Supported(t, w) || !Says(t)
    ensures OperandsStable(t)
    decreases t
  {
    if !Says(t) {
      SilentHasNoComparison(t);
      NoComparisonIsPlain(t, w);
    } else {
      match t
      case And(subs) => forall s | s in subs ensures OperandsStable(s) { SupportedIsStable(s, w); }
      case Or(subs) => forall s | s in subs ensures OperandsStable(s) { SupportedIsStable(s, w); }
      case Negation(s) => SupportedIsStable(s, w);
      case Comparison(s, _, _, _, _, _, _, _) =>
        if Says(s) && !IsLeaf(s) { SupportedIsStable(s, w); } else { OperandIsStable(s, w); }
      case _ =>
    }
  }

  lemma OperandIsStable(s: Term, w: World)
    requires !Says(s) || IsLeaf(s)
    ensures OperandsStable(s) && !Collapses(s)
  {
    SilentSaysNothing(s);
    if !Says(s) {
      SilentHasNoComparison(s);
      NoComparisonIsPlain(s, w);
    }
  }

  // ----- members of optimized groups -----

  lemma {:induction false} AppendedMembers(acc: seq<Term>, ts: seq<Term>)
    ensures forall x | x in AppendNew(acc, ts) :: x in acc || x in ts
    decreases |ts|
  {
    if ts != [] { AppendedMembers(if ListContains(acc, ts[0]) then acc else acc + [ts[0]], ts[1..]); }
  }

  /** Each of them comes from one subterm. */
  lemma {:induction false} OptimizedMembers(isAnd: bool, subs: seq<Term>, acc: seq<Term>)
    ensures forall x | x in OptimizedSubs(isAnd, subs, acc) ::
              x in acc || exists s | s in subs :: x in Operands(isAnd, Optimized(s))
    decreases |subs|
  {
    if subs != [] {
      var ts := Operands(isAnd, Optimized(subs[0]));
      AppendedMembers(acc, ts);
      OptimizedMembers(isAnd, subs[1..], AppendNew(acc, ts));
      assert subs[0] in subs && forall s | s in subs[1..] :: s in subs;
    }
  }

  lemma {:induction false} AppendedContains(acc: seq<Term>, ts: seq<Term>)
    ensures forall x | x in acc || x in ts :: ListContains(AppendNew(acc, ts), x)
    decreases |ts|
  {
    if ts == [] {
      forall x | x in acc ensures ListContains(acc, x) { TermEquality.Reflexive(x); }
    } else {
      var acc' := if ListContains(acc, ts[0]) then acc else acc + [ts[0]];
      AppendedContains(acc', ts[1..]);
      AppendNewGrows(acc', ts[1..]);
      if ListContains(acc, ts[0]) {
        var y :| y in acc && Equals(y, ts[0]);
        assert y in AppendNew(acc', ts[1..])[..|acc'|];
      }
    }
  }

  /** And each subterm is represented. */
  lemma {:induction false} OptimizedContains(isAnd: bool, subs: seq<Term>, acc: seq<Term>)
    ensures |OptimizedSubs(isAnd, subs, acc)| >= |acc| && OptimizedSubs(isAnd, subs, acc)[..|acc|] == acc
    ensures forall s, x | s in subs && x in Operands(isAnd, Optimized(s)) :: ListContains(OptimizedSubs(isAnd, subs, acc), x)
    decreases |subs|
  {
    if subs != [] {
      var ts := Operands(isAnd, Optimized(subs[0]));
      var acc' := AppendNew(acc, ts);
      AppendedContains(acc, ts);
      AppendNewGrows(acc, ts);
      OptimizedContains(isAnd, subs[1..], acc');
      var all := OptimizedSubs(isAnd, subs, acc);
      assert all[..|acc|] == all[..|acc'|][..|acc|];
      forall x | x in ts ensures ListContains(all, x) {
        var y :| y in acc' && Equals(y, x);
        assert y in all[..|acc'|];
      }
      assert forall s :: s in subs <==> s == subs[0] || s in subs[1..];
    }
  }

  /** If one member is left, every subterm that says anything equals it. */
  lemma OneIsLeft(isAnd: bool, subs: seq<Term>, e: Term, s: Term)
    requires OptimizedSubs(isAnd, subs, []) == [e] && s in subs && Says(s)
    ensures Operands(isAnd, Optimized(s)) == [Optimized(s)] && Equals(e, Optimized(s))
  {
    var o := Optimized(s);
    var ts := Operands(isAnd, o);
    OptimizedContains(isAnd, subs, []);
    ValidExactly(s);
    OptimizedIsNormal(s);
    OptimizedSubsNormal(isAnd, subs, []);
    assert e in [e];
    forall x | x in ts ensures Equals(e, x) { assert ListContains([e], x); }
    if if isAnd then o.And? else o.Or? {
      assert ts[0] in ts && ts[1] in ts;
      TermEquality.Symmetric(e, ts[0]);
      TermEquality.Transitive(ts[0], e, ts[1]);
    } else {
      assert o in ts;
    }
  }

  // ----- comparisons stay -----

  /** `s` is `t` or a member of it, through groups of the same kind. */
  predicate InGroup(isAnd: bool, t: Term, s: Term)
    decreases t
  {
    t == s || ((if isAnd then t.And? else t.Or?) && exists x | x in t.subTerms :: InGroup(isAnd, x, s))
  }

  /** Everything that makes a comparison, but for its operand and its aggregate function. */
  predicate SameComparison(a: Term, b: Term) {
    a.Comparison? && b.Comparison? && a == b.(subTerm := a.subTerm, aggregate := a.aggregate)
  }

  lemma MemberOfGroup(isAnd: bool, subs: seq<Term>, sub: Term, y: Term) returns (x: Term)
    requires sub in subs && y in Operands(isAnd, Optimized(sub))
    ensures x in Operands(isAnd, Collapse(isAnd, OptimizedSubs(isAnd, subs, []))) && Equals(x, y) && Normal(x)
  {
    var members := OptimizedSubs(isAnd, subs, []);
    OptimizedContains(isAnd, subs, []);
    OptimizedSubsNormal(isAnd, subs, []);
    assert ListContains(members, y);
    x :| x in members && Equals(x, y);
    if |members| == 1 { assert members == [members[0]] && members[0] in members; }
  }

  lemma {:induction false} MemberStays(isAnd: bool, t: Term, s: Term) returns (x: Term)
    requires InGroup(isAnd, t, s) && s.Comparison?
    ensures x in Operands(isAnd, Optimized(t)) && Equals(x, Optimized(s)) && Normal(x)
    decreases t
  {
    OptimizedIsNormal(t);
    OptimizedIsNormal(s);
    if t == s {
      x := Optimized(s);
      TermEquality.Reflexive(x);
    } else {
      var sub :| sub in t.subTerms && InGroup(isAnd, sub, s);
      var y := MemberStays(isAnd, sub, s);
      x := MemberOfGroup(isAnd, t.subTerms, sub, y);
      assert Optimized(t) == Collapse(isAnd, OptimizedSubs(isAnd, t.subTerms, []));
      OptimizedIsNormal(sub);
      assert Normal(y);
      TermEquality.Transitive(x, y, Optimized(s));
    }
  }

  /** Whatever comparison is asked for in a group, the optimized group has one with the same
      property, comparator, name, sort weight, order and direction, about an operand like its own. */
  lemma ComparisonStays(isAnd: bool, t: Term, s: Term)
    requires InGroup(isAnd, t, s) && s.Comparison?
    ensures exists x | x in Operands(isAnd, Optimized(t)) ::
              SameComparison(x, s) && TermEquality.Alike(x.subTerm, Optimized(s.subTerm))
  {
    var x := MemberStays(isAnd, t, s);
    OptimizedIsNormal(s);
    TermEquality.EqualIsAlike(x, Optimized(s));
  }

  // ----- negated regular expressions -----

  /** The regular expression comparisons that a term can come down to have one value at `r`. */
  ghost predicate RegexpsSingle(t: Term, w: World, r: Node)
    decreases t
  {
    match t
    case And(subs) => forall s | s in subs && Says(s) :: RegexpsSingle(s, w, r)
    case Or(subs) => forall s | s in subs && Says(s) :: RegexpsSingle(s, w, r)
    case Negation(s) => RegexpsSingle(s, w, r)
    case Comparison(_, _, _, _, _, _, _, _) => IsRegexp(t) ==> IsSingle(t, w, r)
    case _ => true
  }

  /** Whatever regular expression may be negated in place once the term is optimized is about a
      property with one value of the resource it is asked of. */
  ghost predicate SingleThrough(t: Term, w: World, r: Node)
    decreases t
  {
    match t
    case And(subs) => forall s | s in subs && Says(s) :: SingleThrough(s, w, r)
    case Or(subs) => forall s | s in subs && Says(s) :: SingleThrough(s, w, r)
    case Negation(s) => SingleThrough(s, w, r) && (CanBeRegexp(false, s) ==> RegexpsSingle(s, w, r))
    case Comparison(s, p, _, _, _, _, _, inv) =>
      IsNested(t, w) ==> forall v | Typed(w, v) && LinkedEitherWay(w, inv, r, p, v) :: SingleThrough(s, w, v)
    case _ => true
  }

  /** `o` is a regular expression comparison, or the negation of one. */
  predicate IsRegexpOrNot(negated: bool, o: Term) {
    if negated then o.Negation? && IsRegexp(o.subTerm) else IsRegexp(o)
  }

  function RegexpIn(negated: bool, o: Term): Term
    requires IsRegexpOrNot(negated, o)
  {
    if negated then o.subTerm else o
  }

  ghost predicate RegexpExplained(negated: bool, t: Term, w: World, r: Node) {
    IsRegexpOrNot(negated, Optimized(t)) ==>
      && CanBeRegexp(negated, t)
      && (RegexpsHaveOperands(t) ==> IsValid(RegexpIn(negated, Optimized(t)).subTerm))
      && (RegexpsSingle(t, w, r) ==> IsSingle(RegexpIn(negated, Optimized(t)), w, r))
  }

  lemma {:induction false} OptimizedRegexp(negated: bool, t: Term, w: World, r: Node)
    ensures RegexpExplained(negated, t, w, r)
    decreases t
  {
    match t
    case And(subs) => GroupRegexp(true, negated, subs, w, r);
    case Or(subs) => GroupRegexp(false, negated, subs, w, r);
    case Negation(s) =>
      if s.Negation? {
        OptimizedRegexp(negated, s.subTerm, w, r);
        assert RegexpsSingle(t, w, r) == RegexpsSingle(s, w, r) == RegexpsSingle(s.subTerm, w, r);
        assert RegexpsHaveOperands(t) == RegexpsHaveOperands(s) == RegexpsHaveOperands(s.subTerm);
      } else {
        OptimizedRegexp(!negated, s, w, r);
        OptimizedIsNormal(s);
      }
    case Optional(s) => OptimizedIsOptional(t);
    case Comparison(s, _, _, _, _, _, _, _) => ValidExactly(s);
    case _ =>
  }

  lemma ValidOperandKept(s: Term)
    requires IsValid(s)
    ensures IsValid(Optimized(s))
  {
    ValidSays(s);
    ValidExactly(s);
  }

  lemma {:induction false} GroupRegexp(isAnd: bool, negated: bool, subs: seq<Term>, w: World, r: Node)
    ensures var o := Collapse(isAnd, OptimizedSubs(isAnd, subs, []));
            IsRegexpOrNot(negated, o) ==>
              && (forall s | s in subs && Says(s) :: CanBeRegexp(negated, s))
              && ((forall s | s in subs && Says(s) :: RegexpsHaveOperands(s)) ==> IsValid(RegexpIn(negated, o).subTerm))
              && ((forall s | s in subs && Says(s) :: RegexpsSingle(s, w, r)) ==> IsSingle(RegexpIn(negated, o), w, r))
    decreases subs
  {
    var members := OptimizedSubs(isAnd, subs, []);
    var o := Collapse(isAnd, members);
    if IsRegexpOrNot(negated, o) {
      assert members == [o];
      forall s | s in subs && Says(s) ensures CanBeRegexp(negated, s) {
        OneIsLeft(isAnd, subs, o, s);
        OptimizedRegexp(negated, s, w, r);
      }
      OptimizedMembers(isAnd, subs, []);
      assert o in members;
      var s :| s in subs && o in Operands(isAnd, Optimized(s));
      if !Says(s) { SilentGivesNothing(isAnd, s); }
      OneIsLeft(isAnd, subs, o, s);
      OptimizedRegexp(negated, s, w, r);
    }
  }

  /** So the condition survives the first pass. */
  lemma {:induction false} SingleKept(t: Term, w: World, r: Node)
    requires SingleThrough(t, w, r)
    ensures SingleAt(Optimized(t), w, r)
    decreases t
  {
    match t
    case And(subs) => SingleGroup(true, subs, w, r);
    case Or(subs) => SingleGroup(false, subs, w, r);
    case Negation(s) =>
      if s.Negation? {
        SingleKept(s.subTerm, w, r);
      } else {
        SingleKept(s, w, r);
        OptimizedRegexp(false, s, w, r);
        assert RegexpExplained(false, s, w, r);
      }
    case Optional(s) => OptimizedIsOptional(t);
    case Comparison(s, p, _, _, _, _, _, inv) =>
      ValidExactly(s);
      OptimizedIsNormal(s);
      NormalSays(Optimized(s));
      if IsNested(Optimized(t), w) {
        assert IsNested(t, w);
        forall v | Typed(w, v) && LinkedEitherWay(w, inv, r, p, v) ensures SingleAt(Optimized(s), w, v) { SingleKept(s, w, v); }
      }
    case _ =>
  }

  lemma {:induction false} SingleGroup(isAnd: bool, subs: seq<Term>, w: World, r: Node)
    requires forall s | s in subs && Says(s) :: SingleThrough(s, w, r)
    ensures SingleAt(Collapse(isAnd, OptimizedSubs(isAnd, subs, [])), w, r)
    decreases subs
  {
    var members := OptimizedSubs(isAnd, subs, []);
    OptimizedMembers(isAnd, subs, []);
    forall x | x in members ensures SingleAt(x, w, r) {
      var s :| s in subs && x in Operands(isAnd, Optimized(s));
      if Says(s) { SingleKept(s, w, r); } else { SilentGivesNothing(isAnd, s); }
      SingleOperand(isAnd, s, x, w, r);
    }
    if |members| == 1 { assert members[0] in members; }
  }

  lemma SingleOperand(isAnd: bool, s: Term, x: Term, w: World, r: Node)
    requires x in Operands(isAnd, Optimized(s)) && SingleAt(Optimized(s), w, r)
    ensures SingleAt(x, w, r)
  {
    OptimizedIsNormal(s);
    if x != Optimized(s) { ValidSays(x); }
  }

  // ----- names -----

  lemma {:induction false} NamesKept(t: Term)
    ensures Names(Optimized(t)) <= Names(t)
    decreases t
  {
    match t
    case And(subs) => GroupNames(true, subs);
    case Or(subs) => GroupNames(false, subs);
    case Negation(s) => NamesKept(s); if s.Negation? { NamesKept(s.subTerm); }
    case Optional(s) => NamesKept(s);
    case Comparison(s, _, _, _, _, _, _, _) => NamesKept(s);
    case _ =>
  }

  lemma OperandNames(isAnd: bool, o: Term)
    ensures AllNames(Operands(isAnd, o)) <= Names(o)
  {
  }

  lemma {:induction false} GroupNames(isAnd: bool, subs: seq<Term>)
    ensures AllNames(OptimizedSubs(isAnd, subs, [])) <= AllNames(subs)
    ensures Names(Collapse(isAnd, OptimizedSubs(isAnd, subs, []))) <= AllNames(subs)
    decreases subs
  {
    var members := OptimizedSubs(isAnd, subs, []);
    OptimizedMembers(isAnd, subs, []);
    forall x, n | x in members && n in Names(x) ensures n in AllNames(subs) {
      var s :| s in subs && x in Operands(isAnd, Optimized(s));
      NamesKept(s);
      OperandNames(isAnd, Optimized(s));
      assert n in AllNames(Operands(isAnd, Optimized(s)));
    }
    if |members| == 1 { assert members[0] in members; }
  }

  lemma ApartSnoc(acc: seq<Term>, t: Term)
    requires NamesApart(acc) && Names(t) !! AllNames(acc)
    ensures NamesApart(acc + [t]) && AllNames(acc + [t]) == AllNames(acc) + Names(t)
  {
    var all := acc + [t];
    forall i, j | 0 <= i < j < |all| ensures Names(all[i]) !! Names(all[j]) {
      if j == |acc| { assert acc[i] in acc; }
    }
    assert forall s :: s in all <==> s in acc || s == t;
  }

  lemma {:induction false} AppendedApart(acc: seq<Term>, ts: seq<Term>)
    requires NamesApart(acc) && NamesApart(ts) && AllNames(acc) !! AllNames(ts)
    ensures NamesApart(AppendNew(acc, ts)) && AllNames(AppendNew(acc, ts)) <= AllNames(acc) + AllNames(ts)
    decreases |ts|
  {
    if ts != [] {
      NamesOfRest(ts);
      ApartSnoc(acc, ts[0]);
      AppendedApart(if ListContains(acc, ts[0]) then acc else acc + [ts[0]], ts[1..]);
    }
  }

  /** Names stay apart when conjunctions are flattened. */
  lemma {:induction false} OptimizedApart(subs: seq<Term>, acc: seq<Term>)
    requires NamesApart(acc) && NamesApart(subs) && AllNames(acc) !! AllNames(subs)
    requires forall s | s in subs :: NamesApart(Operands(true, Optimized(s)))
    ensures NamesApart(OptimizedSubs(true, subs, acc))
    decreases |subs|
  {
    if subs != [] {
      var ts := Operands(true, Optimized(subs[0]));
      NamesOfRest(subs);
      NamesKept(subs[0]);
      OperandNames(true, Optimized(subs[0]));
      AppendedApart(acc, ts);
      assert subs[0] in subs && forall s | s in subs[1..] :: s in subs;
      OptimizedApart(subs[1..], AppendNew(acc, ts));
    }
  }

  // ----- the first pass -----

  /** What the compiler asks of a term. */
  ghost predicate Runnable(o: Term, w: World) {
    IsValid(o) && Compilable(o, w.literalRange) && Fits(o, w)
  }

  /** The same before type terms are merged. */
  ghost predicate Settled(o: Term, w: World) {
    Runnable(o, w) && SingleTypes(o)
  }

  lemma SettledMembers(isAnd: bool, o: Term, w: World)
    requires Settled(o, w)
    ensures forall x | x in Operands(isAnd, o) :: Settled(x, w)
    ensures isAnd ==> NamesApart(Operands(isAnd, o))
  {
  }

  lemma SettledGroup(isAnd: bool, members: seq<Term>, w: World)
    requires members != [] && (isAnd ==> NamesApart(members)) && forall x | x in members :: Settled(x, w)
    ensures Settled(Collapse(isAnd, members), w)
  {
    if |members| == 1 { assert members[0] in members; }
  }

  /** Optimizing a supported term gives one that can be compiled. */
  lemma {:induction false} SupportedKept(t: Term, w: World)
    requires Supported(t, w)
    ensures Settled(Optimized(t), w)
    decreases t
  {
    match t
    case Literal(_) =>
    case Resource(_) =>
    case ResourceType(_) =>
    case And(subs) => SupportedGroup(true, subs, w);
    case Or(subs) => SupportedGroup(false, subs, w);
    case Negation(s) =>
      SupportedKept(s, w);
      if s.Negation? { SupportedKept(s.subTerm, w); } else { NegationKept(s, w); }
    case Comparison(s, _, _, _, _, _, _, _) =>
      if Says(s) && !IsLeaf(s) { SupportedKept(s, w); }
      OperandKept(t, w);
  }

  lemma NegationKept(s: Term, w: World)
    requires Supported(Negation(s), w) && !s.Negation? && Settled(Optimized(s), w)
    ensures Settled(Optimized(Negation(s)), w)
  {
    OptimizedRegexp(false, s, w, UriNode(""));
    assert RegexpExplained(false, s, w, UriNode(""));
  }

  lemma OperandKept(t: Term, w: World)
    requires t.Comparison? && Supported(t, w)
    requires Says(t.subTerm) && !IsLeaf(t.subTerm) ==> Settled(Optimized(t.subTerm), w)
    ensures Settled(Optimized(t), w)
  {
    var s, o := t.subTerm, Optimized(t.subTerm);
    ValidExactly(s);
    OptimizedIsNormal(s);
    NormalSays(o);
    NamesKept(s);
    if !Says(s) {
      SilentHasNoComparison(s);
      NoComparisonIsPlain(o, w);
    } else if !IsLeaf(s) && IsLeaf(o) {
      LeafExactly(s);
    }
  }

  lemma {:induction false} SupportedGroup(isAnd: bool, subs: seq<Term>, w: World)
    requires exists s | s in subs :: Says(s)
    requires forall s | s in subs && Says(s) :: Supported(s, w)
    requires isAnd ==> NamesApart(subs)
    ensures Settled(Collapse(isAnd, OptimizedSubs(isAnd, subs, [])), w)
    decreases subs
  {
    var members := OptimizedSubs(isAnd, subs, []);
    forall s | s in subs
      ensures forall x | x in Operands(isAnd, Optimized(s)) :: Settled(x, w)
      ensures isAnd ==> NamesApart(Operands(isAnd, Optimized(s)))
    {
      if Says(s) {
        SupportedKept(s, w);
        SettledMembers(isAnd, Optimized(s), w);
      } else {
        SilentGivesNothing(isAnd, s);
      }
    }
    OptimizedMembers(isAnd, subs, []);
    if isAnd { OptimizedApart(subs, []); }
    GroupHasShape(isAnd, subs);
    SilentList(subs);
    SettledGroup(isAnd, members, w);
  }

  // ----- the second pass -----

  lemma MergedRun(subs: seq<Term>, first: First, w: World)
    requires PicksMember(first) && forall s | s in subs :: Settled(s, w)
    ensures forall x | x in MergedOr(subs, first) :: Runnable(x, w) && Names(x) <= AllNames(subs)
  {
    MergedOrMembers(subs, first);
    forall x | x in MergedOr(subs, first) ensures Runnable(x, w) && Names(x) <= AllNames(subs) {
      if x in subs { assert Settled(x, w); } else { assert x.ResourceType?; }
    }
  }

  lemma ImprovedOrRuns(subs: seq<Term>, first: First, w: World)
    requires PicksMember(first) && |subs| >= 2 && forall s | s in subs :: Settled(s, w)
    ensures Runnable(Improved(Or(subs), first), w) && Names(Improved(Or(subs), first)) <= AllNames(subs)
  {
    var merged := MergedOr(subs, first);
    MergedRun(subs, first, w);
    MergedOrMembers(subs, first);
    OrRuns(merged, AllNames(subs), w);
  }

  lemma OrRuns(merged: seq<Term>, names: set<string>, w: World)
    requires merged != [] && forall x | x in merged :: Runnable(x, w) && Names(x) <= names
    ensures Runnable(Or(merged), w) && Names(Or(merged)) <= names
    ensures Runnable(merged[0], w) && Names(merged[0]) <= names
  {
    assert merged[0] in merged;
  }

  lemma {:induction false} NamedFirstApart(acc: seq<Term>, ts: seq<Term>)
    requires NamesApart(acc) && NamesApart(ts) && AllNames(acc) !! AllNames(ts)
    ensures NamesApart(NamedFirst(acc, ts))
    decreases |ts|
  {
    if ts != [] {
      NamesOfRest(ts);
      ApartSnoc(acc, ts[0]);
      ApartCons(ts[0], acc);
      NamedFirstApart(if IsNamed(ts[0]) then [ts[0]] + acc else acc + [ts[0]], ts[1..]);
    }
  }

  lemma NamesCons(t: Term, acc: seq<Term>)
    ensures AllNames([t] + acc) == AllNames(acc) + Names(t)
  {
    assert forall s :: s in [t] + acc <==> s in acc || s == t;
  }

  lemma ApartCons(t: Term, acc: seq<Term>)
    requires NamesApart(acc) && Names(t) !! AllNames(acc)
    ensures NamesApart([t] + acc) && AllNames([t] + acc) == AllNames(acc) + Names(t)
  {
    var all := [t] + acc;
    forall i, j | 0 <= i < j < |all| ensures Names(all[i]) !! Names(all[j]) {
      if i == 0 { assert acc[j - 1] in acc; } else { assert all[i] == acc[i - 1] && all[j] == acc[j - 1]; }
    }
    NamesCons(t, acc);
  }

  /** Names stay apart when conjuncts are improved one by one. */
  lemma ImprovedAllApart(ts: seq<Term>, first: First)
    requires NamesApart(ts) && forall t | t in ts :: Names(Improved(t, first)) <= Names(t)
    ensures NamesApart(ImprovedAll(ts, first))
  {
    ImprovedAllAt(ts, first);
    var improved := ImprovedAll(ts, first);
    forall i, j | 0 <= i < j < |improved| ensures Names(improved[i]) !! Names(improved[j]) {
      assert ts[i] in ts && ts[j] in ts;
    }
  }

  lemma ImprovedAndRuns(subs: seq<Term>, first: First, w: World)
    requires subs != [] && NamesApart(subs)
    requires forall s | s in subs :: Runnable(Improved(s, first), w) && Names(Improved(s, first)) <= Names(s)
    ensures Runnable(Improved(And(subs), first), w) && Names(Improved(And(subs), first)) <= AllNames(subs)
  {
    ImprovedMembers(subs, first);
    NamedFirstPermutes([], subs);
    NamedFirstApart([], subs);
    var sorted := NamedFirst([], subs);
    assert forall s :: s in sorted <==> s in multiset(sorted) <==> s in multiset(subs) <==> s in subs;
    ImprovedAllApart(sorted, first);
  }

  /** The second pass makes no negation and no regular expression. */
  lemma {:induction false} ImprovedShape(t: Term, first: First)
    requires Normal(t)
    ensures (Improved(t, first).Negation? ==> t.Negation?) && (IsRegexp(Improved(t, first)) ==> Improved(t, first) == t)
    decreases t
  {
    match t
    case Or(subs) =>
      TypeTermsAreTypes(subs);
      var merged := MergedOr(subs, first);
      if |merged| == 1 { assert merged[0] in merged; }
    case Negation(s) => ImprovedShape(s, first);
    case _ =>
  }

  lemma {:induction false} ImprovedRuns(t: Term, first: First, w: World)
    requires PicksMember(first) && Normal(t) && Settled(t, w)
    ensures Runnable(Improved(t, first), w) && Names(Improved(t, first)) <= Names(t)
    decreases t
  {
    match t
    case And(subs) =>
      forall s | s in subs ensures Runnable(Improved(s, first), w) && Names(Improved(s, first)) <= Names(s) {
        ImprovedRuns(s, first, w);
      }
      ImprovedAndRuns(subs, first, w);
    case Or(subs) => ImprovedOrRuns(subs, first, w);
    case Negation(s) =>
      ImprovedRuns(s, first, w);
      ImprovedShape(s, first);
    case _ =>
  }

  /** And keeps the condition on regular expressions. */
  lemma {:induction false} ImprovedSingle(t: Term, first: First, w: World, r: Node)
    requires Normal(t) && SingleAt(t, w, r)
    ensures SingleAt(Improved(t, first), w, r)
    decreases t
  {
    match t
    case And(subs) =>
      forall s | s in subs ensures SingleAt(Improved(s, first), w, r) {
        ValidSays(s);
        ImprovedSingle(s, first, w, r);
      }
      ImprovedMembers(subs, first);
    case Or(subs) => MergedSingle(subs, first, w, r);
    case Negation(s) =>
      ImprovedSingle(s, first, w, r);
      ImprovedShape(s, first);
    case _ =>
  }

  lemma MergedSingle(subs: seq<Term>, first: First, w: World, r: Node)
    requires forall s | s in subs :: IsValid(s)
    requires SingleAt(Or(subs), w, r)
    ensures SingleAt(Improved(Or(subs), first), w, r)
  {
    var merged := MergedOr(subs, first);
    MergedOrMembers(subs, first);
    forall s | s in merged ensures SingleAt(s, w, r) { if s in subs { ValidSays(s); } }
    if |merged| == 1 { assert merged[0] in merged; }
  }
}
