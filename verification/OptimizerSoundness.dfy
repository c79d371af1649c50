/** "Optimizes the term without changing its meaning" (libnepomukcore/query/term.h:191): exactly
    how far this is true of Term::optimized. */
module OptimizerSoundness {
  import opened Terms
  import opened Optimizer
  import opened Denotation
  import TermEquality
  import FullText

  // ----- what a term comes down to -----

  /** What is left of a term when groups of one member, repeated members and double negations are
      dissolved: nothing, one literal or resource, possibly negated, or something larger. */
  datatype Sole = Silent | One(negated: bool, leaf: Term) | Many

  function Flip(s: Sole): Sole {
    if s.One? then One(!s.negated, s.leaf) else s
  }

  function Merge(a: Sole, b: Sole): Sole {
    if a.Silent? then b else if b.Silent? || a == b then a else Many
  }

  function SoleOf(t: Term): Sole
    decreases t
  {
    match t
    case Invalid => Silent
    case Literal(_) => if IsValid(t) then One(false, t) else Silent
    case Resource(_) => if IsValid(t) then One(false, t) else Silent
    case ResourceType(_) => if IsValid(t) then Many else Silent
    case And(subs) => SoleOfAll(subs)
    case Or(subs) => SoleOfAll(subs)
    case Negation(s) => Flip(SoleOf(s))
    case Optional(s) => if SoleOf(s).Silent? then Silent else Many
    case Comparison(_, _, _, _, _, _, _, _) => Many
  }

  function SoleOfAll(ts: seq<Term>): Sole
    decreases ts
  {
    if ts == [] then Silent else Merge(SoleOf(ts[0]), SoleOfAll(ts[1..]))
  }

  predicate IsLeaf(t: Term) {
    t.Literal? || t.Resource?
  }

  /** A leaf, or a negated one. */
  predicate IsLeafish(t: Term) {
    IsLeaf(t) || (t.Negation? && IsLeaf(t.subTerm))
  }

  /** The optimized form of a term with this summary. */
  predicate HasShape(o: Term, s: Sole) {
    match s
    case Silent => !IsValid(o)
    case One(negated, leaf) => IsValid(o) && IsLeaf(leaf) && o == if negated then Negation(leaf) else leaf
    case Many => IsValid(o) && !IsLeafish(o)
  }

  /** The members collected for a group with this summary so far. */
  predicate ListHasShape(acc: seq<Term>, s: Sole) {
    match s
    case Silent => acc == []
    case One(_, _) => |acc| == 1 && HasShape(acc[0], s)
    case Many => |acc| >= 2 || (|acc| == 1 && HasShape(acc[0], s))
  }

  lemma {:induction false} AppendNewGrows(acc: seq<Term>, ts: seq<Term>)
    ensures |AppendNew(acc, ts)| >= |acc| && AppendNew(acc, ts)[..|acc|] == acc
    ensures (exists t | t in ts :: !ListContains(acc, t)) ==> |AppendNew(acc, ts)| > |acc|
    decreases |ts|
  {
    if ts != [] {
      assert forall t :: t in ts <==> t == ts[0] || t in ts[1..];
      AppendNewGrows(if ListContains(acc, ts[0]) then acc else acc + [ts[0]], ts[1..]);
    }
  }

  lemma LeafishEquals(x: Term, y: Term)
    requires IsLeafish(x)
    ensures Equals(x, y) <==> x == y
  {
  }

  /** Two members of which neither equals the other make at least two with a leaf in front. */
  lemma TwoOfThem(acc: seq<Term>, ts: seq<Term>)
    requires |acc| <= 1 && (|acc| == 1 ==> IsLeafish(acc[0])) && |ts| >= 2 && Distinct(ts)
    ensures |AppendNew(acc, ts)| >= 2
  {
    if acc == [] {
      assert !ListContains([], ts[0]) && [] + [ts[0]] == [ts[0]];
      assert AppendNew([], ts) == AppendNew([ts[0]], ts[1..]);
      assert ts[1] in ts[1..] && !ListContains([ts[0]], ts[1]);
      AppendNewGrows([ts[0]], ts[1..]);
    } else {
      TermEquality.Reflexive(ts[0]);
      LeafishEquals(acc[0], ts[0]);
      LeafishEquals(acc[0], ts[1]);
      assert ts[0] in ts && ts[1] in ts;
      assert !ListContains(acc, ts[0]) || !ListContains(acc, ts[1]);
      AppendNewGrows(acc, ts);
    }
  }

  /** One more optimized member. */
  lemma AppendedShape(isAnd: bool, acc: seq<Term>, s: Sole, o: Term, so: Sole)
    requires ListHasShape(acc, s) && Normal(o) && HasShape(o, so)
    ensures ListHasShape(AppendNew(acc, Operands(isAnd, o)), Merge(s, so))
  {
    var ts := Operands(isAnd, o);
    AppendNewGrows(acc, ts);
    if so.Many? {
      if if isAnd then o.And? else o.Or? {
        if !s.Many? { TwoOfThem(acc, ts); }
      } else {
        assert ts == [o];
        OneAppended(acc, o);
        if s.One? { LeafishEquals(acc[0], o); }
      }
    } else if so.One? {
      assert ts == [o];
      OneAppended(acc, o);
      if s.One? { LeafishEquals(acc[0], o); }
    }
  }

  lemma OneAppended(acc: seq<Term>, o: Term)
    ensures AppendNew(acc, [o]) == if ListContains(acc, o) then acc else acc + [o]
    ensures |acc| == 1 ==> (ListContains(acc, o) <==> Equals(acc[0], o))
  {
    assert [o][1..] == [];
    if |acc| == 1 { assert acc[0] in acc; }
  }

  lemma {:induction false} SubsHaveShape(isAnd: bool, subs: seq<Term>, acc: seq<Term>, s: Sole)
    requires ListHasShape(acc, s)
    ensures ListHasShape(OptimizedSubs(isAnd, subs, acc), Merge(s, SoleOfAll(subs)))
    decreases subs, 0
  {
    if subs != [] {
      var o := Optimized(subs[0]);
      ShapeOfOptimized(subs[0]);
      OptimizedIsNormal(subs[0]);
      AppendedShape(isAnd, acc, s, o, SoleOf(subs[0]));
      SubsHaveShape(isAnd, subs[1..], AppendNew(acc, Operands(isAnd, o)), Merge(s, SoleOf(subs[0])));
    }
  }

  /** The structure of a term alone says whether its optimized form is valid and whether it is a
      literal, a resource or the negation of one. */
  lemma {:induction false} ShapeOfOptimized(t: Term)
    ensures HasShape(Optimized(t), SoleOf(t))
    decreases t
  {
    match t
    case And(subs) => GroupHasShape(true, subs);
    case Or(subs) => GroupHasShape(false, subs);
    case Negation(s) =>
      if s.Negation? {
        ShapeOfOptimized(s.subTerm);
        assert SoleOf(t) == Flip(Flip(SoleOf(s.subTerm))) == SoleOf(s.subTerm);
      } else {
        ShapeOfOptimized(s);
        OptimizedIsNormal(s);
      }
    case Optional(s) => ShapeOfOptimized(s); OptimizedIsOptional(t);
    case _ =>
  }

  lemma {:induction false} OptimizedIsOptional(t: Term)
    requires t.Optional?
    ensures Optimized(t).Optional?
    decreases t
  {
    if t.subTerm.Optional? { OptimizedIsOptional(t.subTerm); }
  }

  lemma GroupHasShape(isAnd: bool, subs: seq<Term>)
    ensures HasShape(Collapse(isAnd, OptimizedSubs(isAnd, subs, [])), SoleOfAll(subs))
    decreases subs, 1
  {
    SubsHaveShape(isAnd, subs, [], Silent);
    OptimizedSubsNormal(isAnd, subs, []);
    var members := OptimizedSubs(isAnd, subs, []);
    if |members| == 1 { assert members[0] in members; }
  }

  lemma {:induction false} SilentSaysNothing(t: Term)
    ensures SoleOf(t).Silent? <==> !Says(t)
    decreases t
  {
    match t
    case And(subs) => SilentList(subs);
    case Or(subs) => SilentList(subs);
    case Negation(s) => SilentSaysNothing(s);
    case Optional(s) => SilentSaysNothing(s);
    case _ =>
  }

  lemma {:induction false} SilentList(ts: seq<Term>)
    ensures SoleOfAll(ts).Silent? <==> forall t | t in ts :: !Says(t)
    decreases ts
  {
    if ts != [] {
      SilentSaysNothing(ts[0]);
      SilentList(ts[1..]);
      assert forall t :: t in ts <==> t == ts[0] || t in ts[1..];
    }
  }

  /** For every term: the optimized form is valid exactly when the term says anything. */
  lemma ValidExactly(t: Term)
    ensures IsValid(Optimized(t)) <==> Says(t)
  {
    ShapeOfOptimized(t);
    SilentSaysNothing(t);
  }

  /** A term becomes a literal, or a resource, exactly when all members that say anything are that
      one, through all levels of groups and pairs of negations. */
  lemma LeafExactly(t: Term)
    requires Says(t)
    ensures Optimized(t).Literal? <==> SoleOf(t).One? && !SoleOf(t).negated && SoleOf(t).leaf.Literal?
    ensures Optimized(t).Resource? <==> SoleOf(t).One? && !SoleOf(t).negated && SoleOf(t).leaf.Resource?
    ensures IsLeaf(Optimized(t)) ==> SoleOf(t) == One(false, Optimized(t))
  {
    ShapeOfOptimized(t);
    SilentSaysNothing(t);
  }

  // ----- when an operand may come down to a leaf -----

  /** The operand becomes a literal or a resource only through the optimization. */
  predicate Collapses(s: Term) {
    SoleOf(s).One? && !SoleOf(s).negated && s != SoleOf(s).leaf
  }

  /** A comparison reads a literal or a resource as operand differently from a group that matches
      the same, except where no value is looked at, or the empty text either way, or where what it
      is linked to is typed by the link itself. */
  predicate Harmless(t: Term, leaf: Term)
    requires t.Comparison?
  {
    if leaf.Literal? then t.comparator == Regexp && LiteralText(leaf.value) == ""
    else t.comparator == Regexp || (t.inverted && t.property == Some(RDF_TYPE.uri))
  }

  /** No operand of a comparison collapses, unless it does no harm. */
  predicate OperandsStable(t: Term)
    decreases t
  {
    match t
    case And(subs) => forall s | s in subs :: OperandsStable(s)
    case Or(subs) => forall s | s in subs :: OperandsStable(s)
    case Negation(s) => OperandsStable(s)
    case Optional(s) => OperandsStable(s)
    case Comparison(s, _, _, _, _, _, _, _) => OperandsStable(s) && (Collapses(s) ==> Harmless(t, SoleOf(s).leaf))
    case _ => true
  }

  // ----- groups -----

  /** What the members of a group say together. */
  ghost predicate GroupMeans(isAnd: bool, ts: seq<Term>, w: World, r: Node) {
    if isAnd then forall s | s in ts && Says(s) :: Matches(s, w, r)
    else exists s | s in ts :: Says(s) && Matches(s, w, r)
  }

  ghost predicate Both(isAnd: bool, a: bool, b: bool) {
    if isAnd then a && b else a || b
  }

  lemma NormalSays(t: Term)
    requires Normal(t)
    ensures Says(t) == IsValid(t)
    decreases t
  {
    if IsValid(t) {
      ValidSays(t);
    }
    match t
    case Negation(s) => NormalSays(s);
    case Optional(s) => NormalSays(s);
    case _ =>
  }

  lemma GroupMeansConcat(isAnd: bool, a: seq<Term>, b: seq<Term>, w: World, r: Node)
    ensures GroupMeans(isAnd, a + b, w, r) == Both(isAnd, GroupMeans(isAnd, a, w, r), GroupMeans(isAnd, b, w, r))
  {
    assert forall s :: s in a + b <==> s in a || s in b;
  }

  /** Leaving out a term equal to one already in the list changes nothing. */
  lemma DuplicateIsRedundant(isAnd: bool, acc: seq<Term>, t: Term, w: World, r: Node)
    requires NormalList(isAnd, acc) && Normal(t) && IsValid(t) && ListContains(acc, t)
    ensures GroupMeans(isAnd, acc + [t], w, r) == GroupMeans(isAnd, acc, w, r)
  {
    var x :| x in acc && Equals(x, t);
    TermEquality.EqualsSameMeaning(x, t);
    GroupMeansConcat(isAnd, acc, [t], w, r);
    ValidSays(t);
    assert GroupMeans(isAnd, [t], w, r) == Matches(t, w, r) by { assert t in [t]; }
  }

  lemma {:induction false} AppendNewMeans(isAnd: bool, acc: seq<Term>, ts: seq<Term>, w: World, r: Node)
    requires NormalList(isAnd, acc)
    requires forall s | s in ts :: Normal(s) && IsValid(s) && !(if isAnd then s.And? else s.Or?)
    ensures GroupMeans(isAnd, AppendNew(acc, ts), w, r)
         == Both(isAnd, GroupMeans(isAnd, acc, w, r), GroupMeans(isAnd, ts, w, r))
    ensures AppendNew(acc, ts) == [] <==> acc + ts == []
    decreases |ts|
  {
    if ts != [] {
      var t := ts[0];
      var acc' := if ListContains(acc, t) then acc else acc + [t];
      assert NormalList(isAnd, acc');
      AppendNewMeans(isAnd, acc', ts[1..], w, r);
      if ListContains(acc, t) {
        DuplicateIsRedundant(isAnd, acc, t, w, r);
      }
      GroupMeansConcat(isAnd, acc, [t], w, r);
      assert [t] + ts[1..] == ts;
      GroupMeansConcat(isAnd, [t], ts[1..], w, r);
    }
  }

  lemma OperandsMean(isAnd: bool, o: Term, w: World, r: Node)
    requires Normal(o)
    ensures var ts := Operands(isAnd, o);
            && (ts == [] <==> !IsValid(o))
            && (IsValid(o) ==> GroupMeans(isAnd, ts, w, r) == Matches(o, w, r))
            && forall s | s in ts :: Normal(s) && IsValid(s) && !(if isAnd then s.And? else s.Or?)
  {
    if IsValid(o) && !(if isAnd then o.And? else o.Or?) {
      ValidSays(o);
      assert o in [o];
    }
  }

  lemma {:induction false} SubsSound(isAnd: bool, subs: seq<Term>, acc: seq<Term>, w: World, r: Node)
    requires NormalList(isAnd, acc) && forall s | s in subs :: OperandsStable(s)
    ensures GroupMeans(isAnd, OptimizedSubs(isAnd, subs, acc), w, r)
         == Both(isAnd, GroupMeans(isAnd, acc, w, r), GroupMeans(isAnd, subs, w, r))
    ensures OptimizedSubs(isAnd, subs, acc) == [] <==> acc == [] && !exists s | s in subs :: Says(s)
    decreases subs, 0
  {
    if subs != [] {
      var s, o := subs[0], Optimized(subs[0]);
      OptimizedIsNormal(s);
      Sound(s);
      OperandsMean(isAnd, o, w, r);
      var ts := Operands(isAnd, o);
      AppendNewNormal(isAnd, acc, ts);
      AppendNewMeans(isAnd, acc, ts, w, r);
      SubsSound(isAnd, subs[1..], AppendNew(acc, ts), w, r);
      assert [s] + subs[1..] == subs;
      GroupMeansConcat(isAnd, [s], subs[1..], w, r);
      assert s in [s] && (GroupMeans(isAnd, [s], w, r) == if Says(s) then Matches(s, w, r) else isAnd);
    }
  }

  lemma GroupSound(isAnd: bool, subs: seq<Term>)
    requires forall s | s in subs :: OperandsStable(s)
    ensures var o := Collapse(isAnd, OptimizedSubs(isAnd, subs, []));
            && IsValid(o) == (exists s | s in subs :: Says(s))
            && (IsValid(o) ==> forall w, r :: Matches(o, w, r) == GroupMeans(isAnd, subs, w, r))
    decreases subs, 1
  {
    var new_ := OptimizedSubs(isAnd, subs, []);
    var o := Collapse(isAnd, new_);
    OptimizedSubsNormal(isAnd, subs, []);
    forall w, r
      ensures IsValid(o) == (exists s | s in subs :: Says(s))
      ensures IsValid(o) ==> Matches(o, w, r) == GroupMeans(isAnd, subs, w, r)
    {
      SubsSound(isAnd, subs, [], w, r);
      assert |new_| >= 1 ==> new_[0] in new_;
      if |new_| == 1 {
        ValidSays(new_[0]);
      }
    }
    var anyWorld := World({}, {}, Engine((_, _) => true, (_, _) => true, (_, _) => true, (_, _, _) => true, n => n));
    SubsSound(isAnd, subs, [], anyWorld, UriNode(""));
  }

  /** The main result: the optimized term is valid exactly when the term says anything, and then
      it matches the same resources in every store. */
  lemma {:induction false} Sound(t: Term)
    requires OperandsStable(t)
    ensures IsValid(Optimized(t)) == Says(t)
    ensures Says(t) ==> SameMeaning(Optimized(t), t)
    decreases t
  {
    OptimizedIsNormal(t);
    NormalSays(Optimized(t));
    match t
    case And(subs) => GroupSound(true, subs);
    case Or(subs) => GroupSound(false, subs);
    case Negation(s) =>
      if s.Negation? { Sound(s.subTerm); } else { Sound(s); OptimizedIsNormal(s); NegationSound(s); }
    case Optional(s) => Sound(s);
    case Comparison(s, _, _, _, _, _, _, _) =>
      Sound(s);
      OptimizedIsNormal(s);
      NormalSays(Optimized(s));
      ComparisonSound(t);
    case _ => if IsValid(t) { ValidSays(t); }
  }

  lemma NegationSound(s: Term)
    requires Normal(Optimized(s))
    requires IsValid(Optimized(s)) == Says(s) && (Says(s) ==> SameMeaning(Optimized(s), s))
    ensures var o := NegateTerm(Optimized(s));
            IsValid(o) == Says(s) && (Says(s) ==> forall w, r :: Matches(o, w, r) == !Matches(s, w, r))
  {
  }

  lemma ComparisonSound(t: Term)
    requires t.Comparison? && OperandsStable(t)
    requires Says(t.subTerm) ==> SameMeaning(Optimized(t.subTerm), t.subTerm)
    ensures SameMeaning(Optimized(t), t)
  {
    var s, o := t.subTerm, Optimized(t.subTerm);
    ValidExactly(s);
    if Says(s) {
      LeafExactly(s);
      ValidSays(o);
      if Collapses(s) {
        LeafIsLeaf(s);
        HarmlessMeansSame(t, o);
      } else if IsLeaf(s) {
        assert o == s;
      } else {
        assert !IsLeaf(o);
        assert t.(subTerm := o) == Optimized(t);
      }
    } else {
      OptimizedIsNormal(s);
      NormalSays(o);
    }
  }

  // ----- comparisons whose operand collapses -----

  lemma LeafIsLeaf(s: Term)
    requires Says(s) && Collapses(s)
    ensures Optimized(s) == SoleOf(s).leaf && IsLeaf(Optimized(s)) && !IsLeaf(s)
  {
    ShapeOfOptimized(s);
    SilentSaysNothing(s);
  }

  /** `leaf` matches what the operand of `t` matches, but the operand is no leaf. */
  ghost predicate LeafFor(t: Term, leaf: Term) {
    t.Comparison? && Says(t.subTerm) && !IsLeaf(t.subTerm) && IsLeaf(leaf) && IsValid(leaf) && SameMeaning(leaf, t.subTerm)
  }

  lemma HarmlessMeansSame(t: Term, leaf: Term)
    requires LeafFor(t, leaf) && Harmless(t, leaf)
    ensures SameMeaning(t.(subTerm := leaf), t)
  {
    var c, p := t.comparator, t.property;
    forall w, r ensures Matches(t.(subTerm := leaf), w, r) == Matches(t, w, r) {
      if c == Regexp {
        var literal := if leaf.Literal? then leaf.value else NoLiteral;
        assert forall n :: ValueMatches(w, c, literal, n) == ValueMatches(w, c, NoLiteral, n);
      } else if !HasLiteralRange(w, p) {
        var u := UriNode(leaf.uri);
        assert LinkedEitherWay(w, true, r, p, u) ==> Typed(w, u);
        assert Matches(leaf, w, u) == Matches(t.subTerm, w, u);
        assert forall v :: Matches(t.subTerm, w, v) == Matches(leaf, w, v) == (v == u);
      }
    }
  }

  const YES := Engine((_, _) => true, (_, _) => true, (_, _) => true, (_, _, _) => true, n => n)

  lemma YesAccepts(w: World, text: string, n: Node)
    requires w.engine == YES
    ensures TextMatches(w, text, n)
  {
    FullText.NothingIsNegated(FullText.START, FullText.Lex(text, false, ""));
    var reading := FullText.ReadText(text);
    assert reading.contains != [] ==> reading.contains[0] in reading.contains;
    assert reading.regex != [] ==> reading.regex[0] in reading.regex;
  }

  /** A literal operand is looked up in the values of what `r` is linked to, typed or not. */
  lemma LiteralCollapseChanges(t: Term, leaf: Term)
    requires LeafFor(t, leaf) && leaf.Literal? && t.comparator != Regexp
    ensures exists w, r :: Matches(t.(subTerm := leaf), w, r) && !Matches(t, w, r)
  {
    var a, b, q, x := UriNode("a"), UriNode("b"), UriNode("q"), LitNode(leaf.value);
    var p := if t.property.Some? then UriNode(t.property.value) else q;
    var w := World({Triple(a, p, b), Triple(b, q, x)}, {}, YES);
    assert Matches(t.(subTerm := leaf), w, a) by {
      assert Triple(a, p, b) in w.store && PropertyFits(t.property, p) && Linked(w, a, t.property, b);
      assert Triple(b, q, x) in w.store && PropertyFits(None, q) && Linked(w, b, None, x);
      YesAccepts(w, LiteralText(leaf.value), x);
      assert ValueMatches(w, t.comparator, leaf.value, x) && HasValue(w, b, None, t.comparator, leaf.value);
      ValidSays(leaf);
    }
    assert forall v | Typed(w, v) :: v == a;
    assert !Linked(w, a, t.property, a);
    assert !Matches(t, w, a);
  }

  /** A resource operand is found without being typed. */
  lemma ResourceCollapseChanges(t: Term, leaf: Term)
    requires LeafFor(t, leaf) && leaf.Resource? && !Harmless(t, leaf)
    ensures exists w, r :: Matches(t.(subTerm := leaf), w, r) && !Matches(t, w, r)
  {
    var a, u := LitNode(NoLiteral), UriNode(leaf.uri);
    var p := if t.property.Some? then UriNode(t.property.value) else UriNode("q");
    var w := World({if t.inverted then Triple(u, p, a) else Triple(a, p, u)}, {}, YES);
    assert Matches(t.(subTerm := leaf), w, a) by {
      assert (if t.inverted then Triple(u, p, a) else Triple(a, p, u)) in w.store && PropertyFits(t.property, p);
      assert LinkedEitherWay(w, t.inverted, a, t.property, u);
      ValidSays(leaf);
    }
    assert !Typed(w, u);
    assert forall v | Matches(t.subTerm, w, v) :: v == u by {
      forall v ensures Matches(t.subTerm, w, v) == (v == u) { assert Matches(leaf, w, v) == Matches(t.subTerm, w, v); }
    }
    assert !Matches(t, w, a);
  }

  /** A comparison whose operand, itself unharmed, collapses keeps its meaning exactly in the
      harmless cases; in all others some store and resource tell the two terms apart. */
  lemma CollapseExactly(t: Term)
    requires t.Comparison? && OperandsStable(t.subTerm) && Collapses(t.subTerm)
    ensures SameMeaning(Optimized(t), t) <==> Harmless(t, SoleOf(t.subTerm).leaf)
  {
    var s, leaf := t.subTerm, SoleOf(t.subTerm).leaf;
    SilentSaysNothing(s);
    LeafIsLeaf(s);
    ValidExactly(s);
    Sound(s);
    assert LeafFor(t, leaf) && Optimized(t) == t.(subTerm := leaf);
    if Harmless(t, leaf) {
      HarmlessMeansSame(t, leaf);
    } else if leaf.Resource? {
      ResourceCollapseChanges(t, leaf);
    } else if t.comparator == Regexp {
      RegexpCollapseChanges(t, leaf);
    } else {
      LiteralCollapseChanges(t, leaf);
    }
  }

  /** A regular expression that was not there before. */
  lemma RegexpCollapseChanges(t: Term, leaf: Term)
    requires LeafFor(t, leaf) && leaf.Literal? && t.comparator == Regexp && LiteralText(leaf.value) != ""
    ensures exists w, r :: Matches(t.(subTerm := leaf), w, r) && !Matches(t, w, r)
  {
    var a, b, text := UriNode("a"), UriNode("b"), LiteralText(leaf.value);
    var p := if t.property.Some? then UriNode(t.property.value) else UriNode("q");
    var engine := YES.(regexText := (pattern, n) => pattern == text);
    var w := World({Triple(a, p, b)}, {}, engine);
    assert Matches(t.(subTerm := leaf), w, a) by {
      assert Triple(a, p, b) in w.store && PropertyFits(t.property, p) && Linked(w, a, t.property, b);
      assert ValueMatches(w, Regexp, leaf.value, b) && HasValue(w, a, t.property, Regexp, leaf.value);
      ValidSays(leaf);
    }
    assert forall n :: !ValueMatches(w, Regexp, NoLiteral, n);
    assert !HasValue(w, a, t.property, Regexp, NoLiteral);
    assert !Matches(t, w, a);
  }
}
