/** Term::optimized (libnepomukcore/query/term.cpp:99-160). */
module Optimizer {
  import opened Terms

  /** `newSubTerms += t` for each of `ts` that the list does not contain yet. */
  function AppendNew(acc: seq<Term>, ts: seq<Term>): seq<Term>
    decreases |ts|
  {
    if ts == [] then acc
    else AppendNew(if ListContains(acc, ts[0]) then acc else acc + [ts[0]], ts[1..])
  }

  function Optimized(t: Term): Term
    decreases t
  {
    match t
    case And(subs) => Collapse(true, OptimizedSubs(true, subs, []))
    case Or(subs) => Collapse(false, OptimizedSubs(false, subs, []))
    case Negation(s) => if s.Negation? then Optimized(s.subTerm) else NegateTerm(Optimized(s))
    case Optional(s) => if s.Optional? then Optimized(s) else OptionalizeTerm(Optimized(s))
    case Comparison(s, _, _, _, _, _, _, _) => t.(subTerm := Optimized(s))
    case _ => t
  }

  function OptimizedSubs(isAnd: bool, subs: seq<Term>, acc: seq<Term>): seq<Term>
    decreases subs
  {
    if subs == [] then acc
    else OptimizedSubs(isAnd, subs[1..], AppendNew(acc, Operands(isAnd, Optimized(subs[0]))))
  }

  /** The loops of the source, which fill a local list. */
  method Optimize(t: Term) returns (r: Term)
    ensures r == Optimized(t)
    decreases t
  {
    match t {
      case And(subs) =>
        var newSubs := OptimizeSubs(true, subs);
        r := Collapse(true, newSubs);
      case Or(subs) =>
        var newSubs := OptimizeSubs(false, subs);
        r := Collapse(false, newSubs);
      case Negation(s) =>
        if s.Negation? {
          r := Optimize(s.subTerm);
        } else {
          r := Optimize(s);
          r := NegateTerm(r);
        }
      case Optional(s) =>
        r := Optimize(s);
        if !s.Optional? {
          r := OptionalizeTerm(r);
        }
      case Comparison(s, _, _, _, _, _, _, _) =>
        var o := Optimize(s);
        r := t.(subTerm := o);
      case _ => r := t;
    }
  }

  method OptimizeSubs(isAnd: bool, subs: seq<Term>) returns (newSubs: seq<Term>)
    ensures newSubs == OptimizedSubs(isAnd, subs, [])
    decreases subs
  {
    newSubs := [];
    for i := 0 to |subs|
      invariant OptimizedSubs(isAnd, subs[i..], newSubs) == OptimizedSubs(isAnd, subs, [])
    {
      var ot := Optimize(subs[i]);
      var terms := Operands(isAnd, ot);
      ghost var before := newSubs;
      for j := 0 to |terms|
        invariant AppendNew(newSubs, terms[j..]) == AppendNew(before, terms)
      {
        assert terms[j..][1..] == terms[j + 1..];
        if !ListContains(newSubs, terms[j]) {
          newSubs := newSubs + [terms[j]];
        }
      }
      assert terms[|terms|..] == [];
      assert subs[i..][1..] == subs[i + 1..];
    }
    assert subs[|subs|..] == [];
  }

  // ----- the normal form -----

  /** No group directly in a group of its own kind, no double negation or double optional, and
      every group holds at least two valid subterms of which no earlier one equals a later one. */
  predicate Normal(t: Term)
    decreases t
  {
    match t
    case And(subs) => NormalSubs(true, subs) && |subs| >= 2 && forall s | s in subs :: Normal(s)
    case Or(subs) => NormalSubs(false, subs) && |subs| >= 2 && forall s | s in subs :: Normal(s)
    case Negation(s) => !s.Negation? && Normal(s)
    case Optional(s) => !s.Optional? && Normal(s)
    case Comparison(s, _, _, _, _, _, _, _) => Normal(s)
    case _ => true
  }

  predicate NormalSubs(isAnd: bool, subs: seq<Term>) {
    && Distinct(subs)
    && forall s | s in subs :: IsValid(s) && !(if isAnd then s.And? else s.Or?)
  }

  predicate NormalList(isAnd: bool, subs: seq<Term>) {
    NormalSubs(isAnd, subs) && forall s | s in subs :: Normal(s)
  }

  lemma {:induction false} AppendNewNormal(isAnd: bool, acc: seq<Term>, ts: seq<Term>)
    requires NormalList(isAnd, acc)
    requires forall s | s in ts :: Normal(s) && IsValid(s) && !(if isAnd then s.And? else s.Or?)
    ensures NormalList(isAnd, AppendNew(acc, ts))
    decreases |ts|
  {
    if ts != [] {
      var acc' := if ListContains(acc, ts[0]) then acc else acc + [ts[0]];
      assert NormalList(isAnd, acc');
      AppendNewNormal(isAnd, acc', ts[1..]);
    }
  }

  lemma {:induction false} OptimizedSubsNormal(isAnd: bool, subs: seq<Term>, acc: seq<Term>)
    requires NormalList(isAnd, acc)
    ensures NormalList(isAnd, OptimizedSubs(isAnd, subs, acc))
    decreases subs
  {
    if subs != [] {
      var o := Optimized(subs[0]);
      OptimizedIsNormal(subs[0]);
      AppendNewNormal(isAnd, acc, Operands(isAnd, o));
      OptimizedSubsNormal(isAnd, subs[1..], AppendNew(acc, Operands(isAnd, o)));
    }
  }

  /** Every output of the optimizer is in normal form. */
  lemma {:induction false} OptimizedIsNormal(t: Term)
    ensures Normal(Optimized(t))
    decreases t
  {
    match t
    case And(subs) => OptimizedSubsNormal(true, subs, []);
    case Or(subs) => OptimizedSubsNormal(false, subs, []);
    case Negation(s) => if s.Negation? { OptimizedIsNormal(s.subTerm); } else { OptimizedIsNormal(s); }
    case Optional(s) => OptimizedIsNormal(s);
    case Comparison(s, _, _, _, _, _, _, _) => OptimizedIsNormal(s);
    case _ =>
  }

  // ----- idempotence -----

  lemma {:induction false} NormalSubsUnchanged(isAnd: bool, all: seq<Term>, k: nat)
    requires NormalList(isAnd, all) && k <= |all|
    ensures OptimizedSubs(isAnd, all[k..], all[..k]) == all
    decreases all, |all| - k
  {
    if k < |all| {
      var t := all[k];
      assert t in all;
      NormalUnchanged(t);
      assert all[k..][1..] == all[k + 1..];
      assert Operands(isAnd, Optimized(t)) == [t];
      assert !ListContains(all[..k], t);
      assert AppendNew(all[..k], [t]) == AppendNew(all[..k] + [t], []) == all[..k] + [t] == all[..k + 1];
      NormalSubsUnchanged(isAnd, all, k + 1);
    }
  }

  lemma {:induction false} NormalUnchanged(t: Term)
    requires Normal(t)
    ensures Optimized(t) == t
    decreases t
  {
    match t
    case And(subs) => NormalSubsUnchanged(true, subs, 0); assert subs[0..] == subs;
    case Or(subs) => NormalSubsUnchanged(false, subs, 0); assert subs[0..] == subs;
    case Negation(s) => NormalUnchanged(s);
    case Optional(s) => NormalUnchanged(s);
    case Comparison(s, _, _, _, _, _, _, _) => NormalUnchanged(s);
    case _ =>
  }

  /** Optimizing twice gives the very same term as optimizing once. */
  lemma Idempotent(t: Term)
    ensures Optimized(Optimized(t)) == Optimized(t)
  {
    OptimizedIsNormal(t);
    NormalUnchanged(Optimized(t));
  }
}
