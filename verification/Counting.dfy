/** Counting arguments over finite sets and index lists. */
module Counting {

  function Below(n: nat): (s: set<nat>)
    ensures |s| == n
    ensures forall k: nat :: k in s <==> k < n
  {
    if n == 0 then {} else Below(n - 1) + {n - 1}
  }

  predicate NoRepeats<T(==)>(f: seq<T>) {
    forall i, j | 0 <= i < j < |f| :: f[i] != f[j]
  }

  function Elements<T>(f: seq<T>): set<T>
  {
    set x | x in f
  }

  lemma {:induction false} ElementsSize<T>(f: seq<T>)
    requires NoRepeats(f)
    ensures |Elements(f)| == |f|
  {
    if f != [] {
      var init := f[..|f| - 1];
      ElementsSize(init);
      assert Elements(f) == Elements(init) + {f[|f| - 1]};
    }
  }

  lemma {:induction false} SubsetSize<T>(a: set<T>, b: set<T>)
    requires a <= b
    ensures |a| <= |b|
  {
    if a != {} {
      var x :| x in a;
      SubsetSize(a - {x}, b - {x});
    }
  }

  lemma SmallerSubset<T>(a: set<T>, b: set<T>, x: T)
    requires a <= b && x in b && x !in a
    ensures |a| < |b|
  {
    SubsetSize(a, b - {x});
  }

  lemma OnlyMember<T>(s: set<T>, x: T)
    requires |s| == 1 && x in s
    ensures s == {x}
  {
    assert |s - {x}| == 0;
  }

  /** A list of different members of `s` is no longer than `s` is large. */
  lemma NoRepeatsFits<T>(f: seq<T>, s: set<T>)
    requires NoRepeats(f) && Elements(f) <= s
    ensures |f| <= |s|
  {
    ElementsSize(f);
    SubsetSize(Elements(f), s);
  }

  /** A list of |f| different indices below |f| reaches every index. */
  lemma Pigeonhole(f: seq<nat>, k: nat)
    requires NoRepeats(f) && forall i | 0 <= i < |f| :: f[i] < |f|
    requires k < |f|
    ensures k in f
  {
    if k !in f {
      NoRepeatsFits(f, Below(|f|) - {k});
    }
  }

  /** Index in `xs` of a partner of `y`. */
  ghost function Partner<T>(xs: seq<T>, r: (T, T) -> bool, y: T): (i: nat)
    requires exists x | x in xs :: r(x, y)
    ensures i < |xs| && r(xs[i], y)
  {
    var x :| x in xs && r(x, y);
    var i :| 0 <= i < |xs| && xs[i] == x;
    i
  }

  /** Between two lists of the same length, a relation that gives every member of `ys` a partner,
      no two of them the same one, also gives every member of `xs` a partner. */
  lemma EveryoneHasPartner<T>(xs: seq<T>, ys: seq<T>, r: (T, T) -> bool)
    requires |xs| == |ys|
    requires forall y | y in ys :: exists x | x in xs :: r(x, y)
    requires forall i, j, x | 0 <= i < j < |ys| && x in xs :: !(r(x, ys[i]) && r(x, ys[j]))
    ensures forall x | x in xs :: exists y | y in ys :: r(x, y)
  {
    assert forall i | 0 <= i < |ys| :: ys[i] in ys;
    var f := seq(|ys|, i requires 0 <= i < |ys| => Partner(xs, r, ys[i]));
    forall i, j | 0 <= i < j < |f| ensures f[i] != f[j] {
      assert xs[f[i]] in xs;
    }
    forall x | x in xs ensures exists y | y in ys :: r(x, y) {
      var k :| 0 <= k < |xs| && xs[k] == x;
      Pigeonhole(f, k);
      var i :| 0 <= i < |f| && f[i] == k;
      assert r(x, ys[i]);
    }
  }

  /** The same, for a relation that can be turned around. */
  lemma TurnAround<T>(xs: seq<T>, ys: seq<T>, r: (T, T) -> bool)
    requires |xs| == |ys|
    requires forall y | y in ys :: exists x | x in xs :: r(x, y)
    requires forall i, j, x | 0 <= i < j < |ys| && x in xs :: !(r(x, ys[i]) && r(x, ys[j]))
    requires forall x, y | x in xs && y in ys && r(x, y) :: r(y, x)
    ensures forall x | x in xs :: exists y | y in ys :: r(y, x)
  {
    EveryoneHasPartner(xs, ys, r);
  }
}
