/** DependencyTree::cleanup and removeService (server/servicemanager.cpp:58-114). */
module DependencyCleanup {
  import Counting
  import opened Dependencies

  /** The services whose dependencies all exist, all the way down, none of them on a cycle. */
  ghost predicate Good(tree: Tree, s: string) {
    forall x | x == s || Reaches(tree, s, x) :: x in tree && !OnCycle(tree, x)
  }

  ghost function Cleaned(tree: Tree): Tree {
    map s | s in tree && Good(tree, s) :: tree[s]
  }

  /** A service and everything that depends on it. */
  ghost function Dependents(tree: Tree, s: string): set<string> {
    set x | x in tree && (x == s || Reaches(tree, x, s))
  }

  /** `cur` is `all` with the services `gone` taken out, and whatever depends on those is gone too. */
  ghost predicate CutFrom(all: Tree, cur: Tree) {
    && (forall s | s in cur :: s in all && cur[s] == all[s])
    && forall s | s in cur :: forall d | d in cur[s] && d in all :: d in cur
  }

  // ----- reachability in a part of the tree -----

  lemma {:induction false} PathInPart(all: Tree, cur: Tree, p: seq<string>)
    requires forall s | s in cur :: s in all && cur[s] == all[s]
    requires IsPath(cur, p)
    ensures IsPath(all, p)
  {
    forall i | 0 <= i < |p| - 1 ensures p[i + 1] in Deps(all, p[i]) { assert p[i + 1] in Deps(cur, p[i]); }
  }

  lemma PartReaches(all: Tree, cur: Tree, a: string, b: string)
    requires (forall s | s in cur :: s in all && cur[s] == all[s]) && Reaches(cur, a, b)
    ensures Reaches(all, a, b)
  {
    var p :| Joins(cur, p, a, b);
    PathInPart(all, cur, p);
    assert Joins(all, p, a, b);
  }

  /** From a service that is still there, everything it reached is still reached. */
  lemma {:induction false} StillReaches(all: Tree, cur: Tree, p: seq<string>)
    requires CutFrom(all, cur) && IsPath(all, p) && |p| >= 2 && p[0] in cur && p[|p| - 1] in all
    ensures IsPath(cur, p) && p[|p| - 1] in cur
    decreases |p|
  {
    assert p[1] in Deps(all, p[0]);
    if |p| > 2 {
      var q := p[1..];
      assert IsPath(all, q) by {
        forall i | 0 <= i < |q| - 1 ensures q[i + 1] in Deps(all, q[i]) { assert p[i + 2] in Deps(all, p[i + 1]); }
      }
      assert p[2] in Deps(all, p[1]);
      StillReaches(all, cur, q);
      forall i | 0 <= i < |p| - 1 ensures p[i + 1] in Deps(cur, p[i]) {
        if i > 0 { assert q[i] in Deps(cur, q[i - 1]); }
      }
    }
  }

  lemma StillOnCycle(all: Tree, cur: Tree, s: string)
    requires CutFrom(all, cur) && s in cur && OnCycle(all, s)
    ensures OnCycle(cur, s)
  {
    var p :| Joins(all, p, s, s);
    StillReaches(all, cur, p);
    assert Joins(cur, p, s, s);
  }

  // ----- what cleaning keeps -----

  lemma BadSpreads(tree: Tree, s: string, d: string)
    requires s in tree && d in tree[s] && !Good(tree, d)
    ensures !Good(tree, s)
  {
    var x :| (x == d || Reaches(tree, d, x)) && (x !in tree || OnCycle(tree, x));
    ReachesDirectly(tree, s, d);
    if x != d { ReachesThrough(tree, s, d, x); }
  }

  lemma BadSpreadsFar(tree: Tree, s: string, d: string)
    requires Reaches(tree, s, d) && !Good(tree, d)
    ensures !Good(tree, s)
  {
    var x :| (x == d || Reaches(tree, d, x)) && (x !in tree || OnCycle(tree, x));
    if x != d { ReachesThrough(tree, s, d, x); }
  }

  /** The cleaned tree is a part of the tree, closed and free of cycles. */
  lemma CleanedIsSound(tree: Tree)
    ensures forall s | s in Cleaned(tree) :: s in tree && Cleaned(tree)[s] == tree[s]
    ensures Closed(Cleaned(tree)) && Acyclic(Cleaned(tree))
  {
    var clean := Cleaned(tree);
    forall s, d | s in clean && d in clean[s] ensures d in clean {
      ReachesDirectly(tree, s, d);
      if !Good(tree, d) { BadSpreads(tree, s, d); }
    }
    forall s | s in clean ensures !OnCycle(clean, s) {
      if OnCycle(clean, s) { PartReaches(tree, clean, s, s); }
    }
  }

  /** It is the largest such part: every closed part of the tree without cycles lies inside it. */
  lemma CleanedIsMaximal(tree: Tree, part: Tree)
    requires (forall s | s in part :: s in tree && part[s] == tree[s]) && Closed(part) && Acyclic(part)
    ensures part.Keys <= Cleaned(tree).Keys
  {
    assert CutFrom(tree, part);
    forall s | s in part ensures Good(tree, s) {
      forall x | x == s || Reaches(tree, s, x) ensures x in tree && !OnCycle(tree, x) {
        assert x in part by {
          if x != s {
            var p :| Joins(tree, p, s, x);
            InClosedPart(tree, part, p);
          }
        }
        if OnCycle(tree, x) { StillOnCycle(tree, part, x); }
      }
    }
  }

  lemma {:induction false} InClosedPart(tree: Tree, part: Tree, p: seq<string>)
    requires (forall s | s in part :: s in tree && part[s] == tree[s]) && Closed(part)
    requires IsPath(tree, p) && p != [] && p[0] in part
    ensures p[|p| - 1] in part
    decreases |p|
  {
    if |p| > 1 {
      assert p[1] in Deps(tree, p[0]);
      var q := p[1..];
      forall i | 0 <= i < |q| - 1 ensures q[i + 1] in Deps(tree, q[i]) { assert p[i + 2] in Deps(tree, p[i + 1]); }
      InClosedPart(tree, part, q);
    }
  }

  // ----- steps of removeService -----

  /** What holds while removeService walks the hash: `tree` has lost `service` and dependents of it
      only, and the walk is past every remaining service that is not in `todo`. */
  ghost predicate Removing(all: Tree, tree: Tree, service: string, todo: set<string>) {
    && (forall s | s in tree :: s in all && tree[s] == all[s])
    && service in all && service !in tree
    && (forall s | s in all && s !in tree :: s in Dependents(all, service))
    && (forall s | s in tree && s !in todo :: service !in all[s])
    && forall s | s in tree :: forall d | d in all[s] && d in all && d != service :: d in tree
  }

  lemma RemovalStep(all: Tree, before: Tree, tree: Tree, service: string, key: string, todo: set<string>)
    requires Removing(all, before, service, todo + {key}) && key in all && service in all[key]
    requires tree == if key in before then before - Dependents(before, key) else before
    ensures Removing(all, tree, service, todo)
  {
    forall s | s in all && s !in tree ensures s in Dependents(all, service) {
      ReachesDirectly(all, key, service);
      if s in before && s != key {
        PartReaches(all, before, s, key);
        ReachesThrough(all, s, key, service);
      }
    }
    forall s, d | s in tree && d in all[s] && d in all && d != service ensures d in tree {
      assert d in before;
      if d in before && d !in tree {
        assert d == key || Reaches(before, d, key);
        ReachesDirectly(before, s, d);
        if d != key { ReachesThrough(before, s, d, key); }
      }
    }
  }

  lemma {:induction false} DependentIsGone(all: Tree, tree: Tree, service: string, p: seq<string>)
    requires Removing(all, tree, service, {}) && IsPath(all, p) && |p| >= 2 && p[|p| - 1] == service
    ensures p[0] !in tree
    decreases |p|
  {
    assert p[1] in Deps(all, p[0]);
    if |p| > 2 {
      var q := p[1..];
      assert IsPath(all, q) by {
        forall i | 0 <= i < |q| - 1 ensures q[i + 1] in Deps(all, q[i]) { assert p[i + 2] in Deps(all, p[i + 1]); }
      }
      assert p[2] in Deps(all, p[1]);
      DependentIsGone(all, tree, service, q);
    }
  }

  lemma RemovalDone(all: Tree, tree: Tree, service: string)
    requires Removing(all, tree, service, {})
    ensures tree == all - Dependents(all, service)
  {
    forall s | s in Dependents(all, service) ensures s !in tree {
      if s != service {
        var p :| Joins(all, p, s, service);
        DependentIsGone(all, tree, service, p);
      }
    }
  }

  // ----- steps of cleanup -----

  /** What holds while cleanup walks the hash: only bad services are gone, and nothing that
      depended on them is left. */
  ghost predicate Cleaning(all: Tree, tree: Tree) {
    CutFrom(all, tree) && forall s | s in all && s !in tree :: !Good(all, s)
  }

  /** A remaining service that passed both tests of the inner loop. */
  ghost predicate Passed(all: Tree, tree: Tree, s: string) {
    s in all && (forall d | d in all[s] :: d in tree) && !OnCycle(all, s)
  }

  lemma CheckFailed(all: Tree, tree: Tree, service: string, dep: string)
    requires Cleaning(all, tree) && service in tree && dep in tree[service]
    requires dep !in tree || Reaches(tree, dep, service)
    ensures !Good(all, service)
  {
    ReachesDirectly(all, service, dep);
    if dep in tree {
      PartReaches(all, tree, dep, service);
      ReachesThrough(all, service, dep, service);
    }
  }

  lemma RemovalIsCleaning(all: Tree, before: Tree, tree: Tree, service: string)
    requires Cleaning(all, before) && service in before && !Good(all, service)
    requires tree == before - Dependents(before, service)
    ensures Cleaning(all, tree)
  {
    forall s | s in all && s !in tree ensures !Good(all, s) {
      if s in before && s != service {
        PartReaches(all, before, s, service);
        BadSpreadsFar(all, s, service);
      }
    }
    forall s, d | s in tree && d in tree[s] && d in all ensures d in tree {
      assert d in before;
      if d !in tree {
        ReachesDirectly(before, s, d);
        if d != service { ReachesThrough(before, s, d, service); }
      }
    }
  }

  lemma CheckPassed(all: Tree, tree: Tree, service: string)
    requires Cleaning(all, tree) && service in tree
    requires forall d | d in tree[service] :: d in tree && !Reaches(tree, d, service)
    ensures Passed(all, tree, service)
  {
    if OnCycle(all, service) {
      StillOnCycle(all, tree, service);
      ReachesFirst(tree, service, service);
    }
  }

  lemma CleanupDone(all: Tree, tree: Tree)
    requires Cleaning(all, tree) && forall s | s in tree :: Passed(all, tree, s)
    ensures tree == Cleaned(all)
  {
    PartIsClosed(all, tree);
    CleanedIsMaximal(all, tree);
  }

  lemma PartIsClosed(all: Tree, tree: Tree)
    requires CutFrom(all, tree) && forall s | s in tree :: Passed(all, tree, s)
    ensures Closed(tree) && Acyclic(tree)
  {
    forall s | s in tree ensures !OnCycle(tree, s) {
      assert Passed(all, tree, s);
      if OnCycle(tree, s) { PartReaches(all, tree, s, s); }
    }
    forall s, d | s in tree && d in tree[s] ensures d in tree {
      assert Passed(all, tree, s);
    }
  }

  // ----- when cleanup ends -----

  /** The inner loop of cleanup comes to an end on these dependencies: each search up to the first
      missing dependency, or the first one that leads back to the service, ends. */
  ghost predicate ScanEnds(tree: Tree, service: string, deps: seq<string>) {
    || deps == []
    || deps[0] !in tree
    || (SearchEnds(tree, deps[0], service) && (Reaches(tree, deps[0], service) || ScanEnds(tree, service, deps[1..])))
  }

  ghost predicate AllScansEnd(tree: Tree) {
    forall s | s in tree :: ScanEnds(tree, s, tree[s])
  }

  /** The inner loop removes the service. */
  ghost predicate ScanFails(tree: Tree, service: string, deps: seq<string>) {
    exists d | d in deps :: d !in tree || Reaches(tree, d, service)
  }

  lemma ScanFailsFirst(tree: Tree, service: string, deps: seq<string>)
    requires deps != []
    ensures ScanFails(tree, service, deps) <==>
            deps[0] !in tree || Reaches(tree, deps[0], service) || ScanFails(tree, service, deps[1..])
  {
  }

  ghost function Round(tree: Tree, service: string, deps: seq<string>): Tree {
    if service in tree && ScanFails(tree, service, deps) then tree - Dependents(tree, service) else tree
  }

  /** The tree after the outer loop has visited the services of `order`, the last of them last. */
  ghost function Walked(all: Tree, order: seq<string>): Tree {
    if order == [] then all
    else var s := order[|order| - 1]; Round(Walked(all, order[..|order| - 1]), s, Deps(all, s))
  }

  ghost predicate WalkEnds(all: Tree, order: seq<string>) {
    order == [] ||
    (var before, s := order[..|order| - 1], order[|order| - 1];
     WalkEnds(all, before) && ScanEnds(Walked(all, before), s, Deps(all, s)))
  }

  /** Searches in what is left of a tree go as they did in the whole. */
  lemma {:induction false} SameSearch(all: Tree, cur: Tree, s: string, t: string, depth: nat)
    requires CutFrom(all, cur) && (s in all ==> s in cur)
    ensures DependsOn(cur, s, t, depth) == DependsOn(all, s, t, depth)
    decreases depth, 0, 0
  {
    if depth > 0 { SameSearches(all, cur, Deps(all, s), t, depth); }
  }

  lemma {:induction false} SameSearches(all: Tree, cur: Tree, deps: seq<string>, t: string, depth: nat)
    requires CutFrom(all, cur) && depth > 0 && forall d | d in deps && d in all :: d in cur
    ensures AnyDependsOn(cur, deps, t, depth) == AnyDependsOn(all, deps, t, depth)
    decreases depth - 1, 1, |deps|
  {
    if deps != [] {
      assert deps[0] in deps && forall d | d in deps[1..] :: d in deps;
      SameSearch(all, cur, deps[0], t, depth - 1);
      SameSearches(all, cur, deps[1..], t, depth);
    }
  }

  lemma SearchEndsInPart(all: Tree, cur: Tree, s: string, t: string)
    requires CutFrom(all, cur) && s in cur && SearchEnds(all, s, t)
    ensures SearchEnds(cur, s, t)
  {
    SameSearch(all, cur, s, t, |all| + 1);
    if !SearchEnds(cur, s, t) { DepthDecides(cur, s, t, |all| + 1); }
  }

  lemma {:induction false} ScanEndsInPart(all: Tree, cur: Tree, service: string, deps: seq<string>)
    requires CutFrom(all, cur) && service in all && ScanEnds(all, service, deps)
    ensures ScanEnds(cur, service, deps)
    decreases |deps|
  {
    if deps != [] && deps[0] in cur {
      SearchEndsInPart(all, cur, deps[0], service);
      if Reaches(all, deps[0], service) {
        var p :| Joins(all, p, deps[0], service);
        StillReaches(all, cur, p);
        assert Joins(cur, p, deps[0], service);
      } else {
        ScanEndsInPart(all, cur, service, deps[1..]);
      }
    }
  }

  lemma RoundIsCleaning(all: Tree, tree: Tree, service: string)
    requires Cleaning(all, tree) && service in all
    ensures Cleaning(all, Round(tree, service, all[service]))
  {
    if service in tree && ScanFails(tree, service, all[service]) {
      var d :| d in all[service] && (d !in tree || Reaches(tree, d, service));
      CheckFailed(all, tree, service, d);
      RemovalIsCleaning(all, tree, Round(tree, service, all[service]), service);
    }
  }

  lemma {:induction false} WalkedIsCleaning(all: Tree, order: seq<string>)
    requires forall s | s in order :: s in all
    ensures Cleaning(all, Walked(all, order))
    decreases |order|
  {
    if order != [] {
      var before, s := order[..|order| - 1], order[|order| - 1];
      assert s in order && forall x | x in before :: x in order;
      WalkedIsCleaning(all, before);
      RoundIsCleaning(all, Walked(all, before), s);
    }
  }

  lemma {:induction false} WalkEndsIfScansEnd(all: Tree, order: seq<string>)
    requires AllScansEnd(all) && forall s | s in order :: s in all
    ensures WalkEnds(all, order)
    decreases |order|
  {
    if order != [] {
      var before, s := order[..|order| - 1], order[|order| - 1];
      assert s in order && forall x | x in before :: x in order;
      WalkEndsIfScansEnd(all, before);
      WalkedIsCleaning(all, before);
      ScanEndsInPart(all, Walked(all, before), s, Deps(all, s));
    }
  }

  lemma OneMore(all: Tree, order: seq<string>, s: string)
    ensures Walked(all, order + [s]) == Round(Walked(all, order), s, Deps(all, s))
    ensures WalkEnds(all, order + [s]) <==> WalkEnds(all, order) && ScanEnds(Walked(all, order), s, Deps(all, s))
  {
    assert (order + [s])[..|order + [s]| - 1] == order;
  }

  /** What holds while cleanup walks the hash, past the services of `order`. */
  ghost predicate Walking(all: Tree, tree: Tree, order: seq<string>, todo: set<string>) {
    && Counting.NoRepeats(order) && Counting.Elements(order) == all.Keys - todo && todo <= all.Keys
    && WalkEnds(all, order) && tree == Walked(all, order) && Cleaning(all, tree)
    && forall s | s in tree && s !in todo :: Passed(all, tree, s)
  }

  lemma OneMoreVisited(all: Tree, order: seq<string>, todo: set<string>, s: string)
    requires Counting.NoRepeats(order) && Counting.Elements(order) == all.Keys - todo && s in todo && todo <= all.Keys
    ensures Counting.NoRepeats(order + [s]) && Counting.Elements(order + [s]) == all.Keys - (todo - {s})
  {
    var more := order + [s];
    forall i, j | 0 <= i < j < |more| ensures more[i] != more[j] {
      if j == |order| { assert order[i] in Counting.Elements(order); }
    }
    assert Counting.Elements(more) == Counting.Elements(order) + {s};
  }

  lemma WalkOn(all: Tree, tree: Tree, order: seq<string>, todo: set<string>, s: string)
    requires Walking(all, tree, order, todo) && s in todo && ScanEnds(tree, s, all[s])
    ensures Walking(all, Round(tree, s, all[s]), order + [s], todo - {s})
  {
    OneMoreVisited(all, order, todo, s);
    OneMore(all, order, s);
    RoundIsCleaning(all, tree, s);
    var after := Round(tree, s, all[s]);
    forall x | x in after && x !in todo - {s} ensures Passed(all, after, x) {
      if x == s { CheckPassed(all, tree, s); } else { assert Passed(all, tree, x); }
    }
  }

  /** Cleanup ends in every order of the hash exactly when the scan of every service ends on the
      untouched tree. */
  lemma EveryWalkEndsExactly(all: Tree)
    ensures (forall order: seq<string> | Counting.Elements(order) <= all.Keys :: WalkEnds(all, order)) <==> AllScansEnd(all)
  {
    if forall order: seq<string> | Counting.Elements(order) <= all.Keys :: WalkEnds(all, order) {
      forall s | s in all ensures ScanEnds(all, s, all[s]) {
        assert Counting.Elements([s]) <= all.Keys;
        assert WalkEnds(all, [s]) && [s][..0] == [];
      }
    }
    if AllScansEnd(all) {
      forall order: seq<string> | Counting.Elements(order) <= all.Keys ensures WalkEnds(all, order) {
        forall s | s in order ensures s in all { assert s in Counting.Elements(order); }
        WalkEndsIfScansEnd(all, order);
      }
    }
  }

  /** In particular if there is no cycle at all. */
  lemma AcyclicScansEnd(all: Tree)
    requires Acyclic(all)
    ensures AllScansEnd(all)
  {
    forall s | s in all ensures ScanEnds(all, s, all[s]) { AcyclicScanEnds(all, s, all[s]); }
  }

  lemma {:induction false} AcyclicScanEnds(all: Tree, service: string, deps: seq<string>)
    requires Acyclic(all)
    ensures ScanEnds(all, service, deps)
    decreases |deps|
  {
    if deps != [] {
      if MeetsCycle(all, deps[0]) {
        var x :| (x == deps[0] || Reaches(all, deps[0], x)) && OnCycle(all, x);
        assert Reaches(all, x, x);
        ReachesFirst(all, x, x);
      }
      SearchEndsWithoutCycle(all, deps[0], service);
      AcyclicScanEnds(all, service, deps[1..]);
    }
  }

  const DETOUR: Tree := map["a" := ["b"], "b" := ["c"], "c" := ["b"]]

  lemma DetourFromA()
    ensures !WalkEnds(DETOUR, ["a"])
  {
    EndlessSearch(|DETOUR| + 1);
    assert !ScanEnds(DETOUR, "a", DETOUR["a"]);
    assert [] + ["a"] == ["a"];
    OneMore(DETOUR, [], "a");
  }

  lemma DetourFromB()
    ensures WalkEnds(DETOUR, ["b"]) && Walked(DETOUR, ["b"]) == map[]
  {
    assert [] + ["b"] == ["b"];
    OneMore(DETOUR, [], "b");
    ReachesDirectly(DETOUR, "c", "b");
    ReachesDirectly(DETOUR, "a", "b");
    assert DependsOn(DETOUR, "c", "b", |DETOUR| + 1) == Answered(true);
    assert "c" in DETOUR["b"] && ScanEnds(DETOUR, "b", DETOUR["b"]) && ScanFails(DETOUR, "b", DETOUR["b"]);
    assert Dependents(DETOUR, "b") == {"a", "b", "c"};
  }

  /** Where some scan does not end, the order of the hash can decide. */
  lemma OrderDecides()
    ensures !WalkEnds(DETOUR, ["a"]) && WalkEnds(DETOUR, ["b", "a", "c"])
  {
    DetourFromA();
    DetourFromB();
    assert ["b"] + ["a"] == ["b", "a"] && ["b", "a"] + ["c"] == ["b", "a", "c"];
    OneMore(DETOUR, ["b"], "a");
    OneMore(DETOUR, ["b", "a"], "c");
  }

  // ----- the class -----

  class DependencyTree {
    var tree: Tree

    constructor (tree: Tree)
      ensures this.tree == tree
    {
      this.tree := tree;
    }

    method ServicesDependingOn(service: string) returns (names: seq<string>)
      ensures forall s :: s in names <==> s in tree && service in tree[s]
    {
      names := [];
      var todo := tree.Keys;
      while todo != {}
        invariant todo <= tree.Keys
        invariant forall s :: s in names <==> s in tree && s !in todo && service in tree[s]
        decreases todo
      {
        var s :| s in todo;
        todo := todo - {s};
        if service in tree[s] {
          names := names + [s];
        }
      }
    }

    /** Removes a service and everything that depends on it, in whatever order the hash is walked. */
    method RemoveService(service: string)
      modifies this
      ensures tree == if service in old(tree) then old(tree) - Dependents(old(tree), service) else old(tree)
      decreases |tree|
    {
      if service in tree {
        ghost var all := tree;
        tree := tree - {service};
        var tmpTree := tree;
        var todo := tmpTree.Keys;
        Counting.SmallerSubset(tree.Keys, all.Keys, service);
        while todo != {}
          invariant todo <= tmpTree.Keys && tmpTree == all - {service}
          invariant Removing(all, tree, service, todo)
          invariant |tree| < |all|
          decreases todo
        {
          var key :| key in todo;
          ghost var before := tree;
          todo := todo - {key};
          if service in tmpTree[key] {
            RemoveService(key);
            RemovalStep(all, before, tree, service, key, todo);
            Counting.SmallerSubset(tree.Keys, all.Keys, service);
          }
        }
        RemovalDone(all, tree, service);
      }
    }

    /** Keeps exactly the good services. `finished` is false when the search for a cycle does not
        return, which `order`, the services visited so far, decides; nothing is said of the tree then. */
    method Cleanup() returns (finished: bool, ghost order: seq<string>)
      modifies this
      ensures finished ==> tree == Cleaned(old(tree))
      ensures Counting.NoRepeats(order) && Counting.Elements(order) <= old(tree).Keys
      ensures finished <==> WalkEnds(old(tree), order)
      ensures finished ==> Counting.Elements(order) == old(tree).Keys
      ensures AllScansEnd(old(tree)) ==> finished
    {
      ghost var all := tree;
      var tmpTree := tree;
      var todo := tmpTree.Keys;
      order := [];
      while todo != {}
        invariant tmpTree == all && Walking(all, tree, order, todo)
        decreases todo
      {
        var service :| service in todo;
        finished := CheckService(service, tmpTree[service]);
        if !finished {
          OneMoreVisited(all, order, todo, service);
          OneMore(all, order, service);
          order := order + [service];
          if AllScansEnd(all) { EveryWalkEndsExactly(all); }
          return;
        }
        WalkOn(all, Walked(all, order), order, todo, service);
        order := order + [service];
        todo := todo - {service};
      }
      CleanupDone(all, tree);
      finished := true;
    }

    /** The body of the outer loop of cleanup. */
    method CheckService(service: string, dependencies: seq<string>) returns (finished: bool)
      modifies this
      ensures finished <==> ScanEnds(old(tree), service, dependencies)
      ensures finished ==> tree == Round(old(tree), service, dependencies)
    {
      ghost var before := tree;
      var i := 0;
      while i < |dependencies|
        invariant 0 <= i <= |dependencies| && tree == before
        invariant ScanEnds(before, service, dependencies) <==> ScanEnds(before, service, dependencies[i..])
        invariant ScanFails(before, service, dependencies) <==> ScanFails(before, service, dependencies[i..])
      {
        var dep := dependencies[i];
        assert dependencies[i..][1..] == dependencies[i + 1..];
        ScanFailsFirst(tree, service, dependencies[i..]);
        var remove := dep !in tree;
        if !remove {
          var depends := DependsOn(tree, dep, service, |tree| + 1);
          if depends.NoAnswer? { return false; }
          AnswerIsTrue(tree, dep, service, |tree| + 1);
          remove := depends.value;
        }
        if remove {
          RemoveService(service);
          return true;
        }
        i := i + 1;
      }
      finished := true;
    }
  }
}
