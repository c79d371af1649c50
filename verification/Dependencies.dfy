/** Dependency graphs of services as they stand in the DependencyTree hash
    (server/servicemanager.cpp:33-114): reachability, and the search dependsOn makes for it. */
module Dependencies {
  import Counting

  /** Each service and the services it depends on. */
  type Tree = map<string, seq<string>>

  /** The answer of a search that may not end. */
  datatype Answer = NoAnswer | Answered(value: bool)

  /** QHash::value: a service that is not in the tree has no dependencies. */
  function Deps(tree: Tree, s: string): seq<string> {
    if s in tree then tree[s] else []
  }

  // ----- reachability -----

  predicate IsPath(tree: Tree, p: seq<string>) {
    forall i | 0 <= i < |p| - 1 :: p[i + 1] in Deps(tree, p[i])
  }

  predicate Joins(tree: Tree, p: seq<string>, a: string, b: string) {
    |p| >= 2 && p[0] == a && p[|p| - 1] == b && IsPath(tree, p)
  }

  /** `a` depends on `b`, directly or not. */
  ghost predicate Reaches(tree: Tree, a: string, b: string) {
    exists p :: Joins(tree, p, a, b)
  }

  lemma ReachesDirectly(tree: Tree, a: string, b: string)
    requires b in Deps(tree, a)
    ensures Reaches(tree, a, b)
  {
    assert Joins(tree, [a, b], a, b);
  }

  lemma ReachesThrough(tree: Tree, a: string, b: string, c: string)
    requires Reaches(tree, a, b) && Reaches(tree, b, c)
    ensures Reaches(tree, a, c)
  {
    var p :| Joins(tree, p, a, b);
    var q :| Joins(tree, q, b, c);
    assert Joins(tree, p + q[1..], a, c);
  }

  lemma ReachesFirst(tree: Tree, a: string, b: string)
    requires Reaches(tree, a, b)
    ensures exists d | d in Deps(tree, a) :: d == b || Reaches(tree, d, b)
  {
    var p :| Joins(tree, p, a, b);
    assert p[1] in Deps(tree, a);
    if |p| > 2 {
      assert Joins(tree, p[1..], p[1], b);
    }
  }

  /** A path that visits a service twice shows a cycle. */
  lemma RepeatIsCycle(tree: Tree, p: seq<string>, i: nat, j: nat)
    requires IsPath(tree, p) && i < j < |p| && p[i] == p[j]
    ensures Reaches(tree, p[i], p[i])
  {
    assert Joins(tree, p[i..j + 1], p[i], p[i]);
  }

  ghost predicate OnCycle(tree: Tree, s: string) {
    Reaches(tree, s, s)
  }

  ghost predicate Acyclic(tree: Tree) {
    forall s | s in tree :: !OnCycle(tree, s)
  }

  predicate Closed(tree: Tree) {
    forall s | s in tree :: forall d | d in tree[s] :: d in tree
  }

  // ----- the search -----

  /** DependencyTree::dependsOn, given up after `depth` nested calls. */
  function DependsOn(tree: Tree, service: string, dependency: string, depth: nat): Answer
    decreases depth, 0, 0
  {
    if depth == 0 then NoAnswer else AnyDependsOn(tree, Deps(tree, service), dependency, depth)
  }

  function AnyDependsOn(tree: Tree, deps: seq<string>, dependency: string, depth: nat): Answer
    requires depth > 0
    decreases depth - 1, 1, |deps|
  {
    if deps == [] then Answered(false)
    else if deps[0] == dependency then Answered(true)
    else
      match DependsOn(tree, deps[0], dependency, depth - 1)
      case NoAnswer => NoAnswer
      case Answered(true) => Answered(true)
      case Answered(false) => AnyDependsOn(tree, deps[1..], dependency, depth)
  }

  /** An answer of the search is the truth about reachability. */
  lemma {:induction false} AnswerIsTrue(tree: Tree, s: string, t: string, depth: nat)
    requires DependsOn(tree, s, t, depth).Answered?
    ensures DependsOn(tree, s, t, depth).value <==> Reaches(tree, s, t)
    decreases depth, 0, 0
  {
    AnyAnswerIsTrue(tree, Deps(tree, s), t, depth);
    if d :| d in Deps(tree, s) && (d == t || Reaches(tree, d, t)) {
      ReachesDirectly(tree, s, d);
      if d != t { ReachesThrough(tree, s, d, t); }
    }
    if Reaches(tree, s, t) {
      ReachesFirst(tree, s, t);
    }
  }

  lemma {:induction false} AnyAnswerIsTrue(tree: Tree, deps: seq<string>, t: string, depth: nat)
    requires depth > 0 && AnyDependsOn(tree, deps, t, depth).Answered?
    ensures AnyDependsOn(tree, deps, t, depth).value <==> exists d | d in deps :: d == t || Reaches(tree, d, t)
    decreases depth - 1, 1, |deps|
  {
    if deps != [] {
      assert deps[0] in deps;
    }
    if deps != [] && deps[0] != t {
      AnswerIsTrue(tree, deps[0], t, depth - 1);
      if DependsOn(tree, deps[0], t, depth - 1) == Answered(false) {
        AnyAnswerIsTrue(tree, deps[1..], t, depth);
        assert forall d :: d in deps <==> d == deps[0] || d in deps[1..];
      }
    }
  }

  lemma {:induction false} DeeperAgrees(tree: Tree, s: string, t: string, depth: nat)
    requires DependsOn(tree, s, t, depth).Answered?
    ensures DependsOn(tree, s, t, depth + 1) == DependsOn(tree, s, t, depth)
    decreases depth, 0, 0
  {
    AnyDeeperAgrees(tree, Deps(tree, s), t, depth);
  }

  lemma {:induction false} AnyDeeperAgrees(tree: Tree, deps: seq<string>, t: string, depth: nat)
    requires depth > 0 && AnyDependsOn(tree, deps, t, depth).Answered?
    ensures AnyDependsOn(tree, deps, t, depth + 1) == AnyDependsOn(tree, deps, t, depth)
    decreases depth - 1, 1, |deps|
  {
    if deps != [] && deps[0] != t {
      DeeperAgrees(tree, deps[0], t, depth - 1);
      if DependsOn(tree, deps[0], t, depth - 1) == Answered(false) {
        AnyDeeperAgrees(tree, deps[1..], t, depth);
      }
    }
  }

  lemma {:induction false} MuchDeeperAgrees(tree: Tree, s: string, t: string, depth: nat, more: nat)
    requires DependsOn(tree, s, t, depth).Answered? && depth <= more
    ensures DependsOn(tree, s, t, more) == DependsOn(tree, s, t, depth)
    decreases more - depth
  {
    if depth < more {
      DeeperAgrees(tree, s, t, depth);
      MuchDeeperAgrees(tree, s, t, depth + 1, more);
    }
  }

  // ----- how deep is deep enough -----

  /** The search from `s` needs exactly `depth` nested calls. */
  predicate Needs(tree: Tree, s: string, t: string, depth: nat) {
    depth > 0 && DependsOn(tree, s, t, depth).Answered? && DependsOn(tree, s, t, depth - 1).NoAnswer?
  }

  lemma {:induction false} SomeDepNeeds(tree: Tree, deps: seq<string>, t: string, depth: nat)
    requires depth > 1 && AnyDependsOn(tree, deps, t, depth).Answered? && AnyDependsOn(tree, deps, t, depth - 1).NoAnswer?
    ensures exists d | d in deps :: Needs(tree, d, t, depth - 1)
    decreases |deps|
  {
    assert deps[0] in deps;
    if DependsOn(tree, deps[0], t, depth - 2).Answered? {
      DeeperAgrees(tree, deps[0], t, depth - 2);
      SomeDepNeeds(tree, deps[1..], t, depth);
      var d :| d in deps[1..] && Needs(tree, d, t, depth - 1);
      assert d in deps;
    }
  }

  /** The nested calls of a search that needs `depth` of them. */
  lemma {:induction false} CallStack(tree: Tree, s: string, t: string, depth: nat) returns (p: seq<string>)
    requires Needs(tree, s, t, depth)
    ensures |p| == depth && p[0] == s && IsPath(tree, p)
    ensures forall i | 0 <= i < depth :: Needs(tree, p[i], t, depth - i)
    decreases depth
  {
    if depth == 1 {
      p := [s];
    } else {
      SomeDepNeeds(tree, Deps(tree, s), t, depth);
      var d :| d in Deps(tree, s) && Needs(tree, d, t, depth - 1);
      var q := CallStack(tree, d, t, depth - 1);
      p := [s] + q;
      forall i | 0 <= i < depth ensures Needs(tree, p[i], t, depth - i) {
        if i > 0 { assert Needs(tree, q[i - 1], t, (depth - 1) - (i - 1)); }
      }
    }
  }

  lemma PathInside(tree: Tree, p: seq<string>)
    requires IsPath(tree, p) && p != []
    ensures forall i | 0 <= i < |p| - 1 :: p[i] in tree
  {
    forall i | 0 <= i < |p| - 1 ensures p[i] in tree { assert p[i + 1] in Deps(tree, p[i]); }
  }

  /** If the search has not answered after one nested call per service and one more, it never
      does: the recursion of the source does not end. */
  lemma DepthDecides(tree: Tree, s: string, t: string, depth: nat)
    requires DependsOn(tree, s, t, |tree| + 1).NoAnswer?
    ensures DependsOn(tree, s, t, depth).NoAnswer?
  {
    if DependsOn(tree, s, t, depth).Answered? {
      var need := LeastDepth(tree, s, t, depth);
      if need <= |tree| + 1 {
        MuchDeeperAgrees(tree, s, t, need, |tree| + 1);
      } else {
        var p := CallStack(tree, s, t, need);
        PathInside(tree, p);
        var stack := p[..need - 1];
        forall i, j | 0 <= i < j < |stack| ensures stack[i] != stack[j] {
          assert Needs(tree, p[i], t, need - i) && Needs(tree, p[j], t, need - j);
          if p[i] == p[j] { MuchDeeperAgrees(tree, p[j], t, need - j, need - i - 1); }
        }
        Counting.NoRepeatsFits(stack, tree.Keys);
      }
    }
  }

  lemma {:induction false} LeastDepth(tree: Tree, s: string, t: string, depth: nat) returns (need: nat)
    requires DependsOn(tree, s, t, depth).Answered?
    ensures Needs(tree, s, t, need)
  {
    if DependsOn(tree, s, t, depth - 1).Answered? {
      need := LeastDepth(tree, s, t, depth - 1);
    } else {
      need := depth;
    }
  }

  // ----- which searches end -----

  /** The dependencies the search for `t` descends into: up to the first one that is `t` or leads
      to it, and not `t` itself. */
  ghost function TriedDeps(tree: Tree, deps: seq<string>, t: string): seq<string> {
    if deps == [] || deps[0] == t then []
    else if Reaches(tree, deps[0], t) then [deps[0]]
    else [deps[0]] + TriedDeps(tree, deps[1..], t)
  }

  /** The part of the tree that the search for `t` can enter. */
  ghost function Tried(tree: Tree, t: string): Tree {
    map s | s in tree :: TriedDeps(tree, tree[s], t)
  }

  /** `s` or something it depends on, directly or not, is on a cycle. */
  ghost predicate MeetsCycle(tree: Tree, s: string) {
    exists x :: (x == s || Reaches(tree, s, x)) && OnCycle(tree, x)
  }

  ghost predicate SearchEnds(tree: Tree, s: string, t: string) {
    DependsOn(tree, s, t, |tree| + 1).Answered?
  }

  /** The search for `t` from `s` ends exactly when the part of the tree that it can enter has no
      cycle below `s`. */
  lemma SearchEndsExactly(tree: Tree, s: string, t: string)
    ensures SearchEnds(tree, s, t) <==> !MeetsCycle(Tried(tree, t), s)
  {
    var part := Tried(tree, t);
    assert part.Keys == tree.Keys;
    if DependsOn(tree, s, t, |tree| + 1).NoAnswer? {
      var p := OpenCalls(tree, s, t, |tree| + 1);
      PathInside(part, p);
      LongPathMeetsCycle(part, p);
    }
    if MeetsCycle(part, s) {
      var p := EndlessPath(part, s, |tree| + 2);
      PathIsOpen(tree, p, t);
    }
  }

  lemma LongPathMeetsCycle(tree: Tree, p: seq<string>)
    requires IsPath(tree, p) && |p| == |tree| + 2
    ensures MeetsCycle(tree, p[0])
  {
    PathInside(tree, p);
    var stack := p[..|tree| + 1];
    if Counting.NoRepeats(stack) {
      Counting.NoRepeatsFits(stack, tree.Keys);
    } else {
      var i, j :| 0 <= i < j < |stack| && stack[i] == stack[j];
      RepeatIsCycle(tree, p, i, j);
      assert OnCycle(tree, p[i]);
      if i > 0 { assert Joins(tree, p[..i + 1], p[0], p[i]); }
    }
  }

  lemma {:induction false} OpenCalls(tree: Tree, s: string, t: string, depth: nat) returns (p: seq<string>)
    requires DependsOn(tree, s, t, depth).NoAnswer?
    ensures |p| == depth + 1 && p[0] == s && IsPath(Tried(tree, t), p)
    decreases depth
  {
    if depth == 0 {
      p := [s];
    } else {
      var d := SomeDepOpen(tree, Deps(tree, s), t, depth);
      var q := OpenCalls(tree, d, t, depth - 1);
      PathCons(Tried(tree, t), s, q);
      p := [s] + q;
    }
  }

  lemma {:induction false} SomeDepOpen(tree: Tree, deps: seq<string>, t: string, depth: nat) returns (d: string)
    requires depth > 0 && AnyDependsOn(tree, deps, t, depth).NoAnswer?
    ensures d in TriedDeps(tree, deps, t) && DependsOn(tree, d, t, depth - 1).NoAnswer?
    decreases |deps|
  {
    d := deps[0];
    if DependsOn(tree, d, t, depth - 1).Answered? {
      AnswerIsTrue(tree, d, t, depth - 1);
      d := SomeDepOpen(tree, deps[1..], t, depth);
    }
  }

  /** From a service that meets a cycle one can walk as far as one likes. */
  lemma EndlessPath(tree: Tree, s: string, n: nat) returns (p: seq<string>)
    requires MeetsCycle(tree, s) && n > 0
    ensures |p| == n && p[0] == s && IsPath(tree, p)
  {
    var x :| (x == s || Reaches(tree, s, x)) && OnCycle(tree, x);
    var inside := set y | y in tree && Reaches(tree, y, x);
    forall y | Reaches(tree, y, x) ensures y in inside && HasDepInside(tree, inside, y) {
      ReachesFirst(tree, y, x);
      var d :| d in Deps(tree, y) && (d == x || Reaches(tree, d, x));
      ReachesFirst(tree, d, x);
    }
    p := Walk(tree, inside, s, n);
  }

  lemma {:induction false} PathIsOpen(tree: Tree, p: seq<string>, t: string)
    requires p != [] && IsPath(Tried(tree, t), p)
    ensures DependsOn(tree, p[0], t, |p| - 1).NoAnswer?
    decreases |p|
  {
    if |p| > 1 {
      PathTail(Tried(tree, t), p);
      PathIsOpen(tree, p[1..], t);
      assert p[1] in Deps(Tried(tree, t), p[0]);
      OpenDepIsOpen(tree, Deps(tree, p[0]), t, p[1], |p| - 1);
    }
  }

  lemma PathTail(tree: Tree, p: seq<string>)
    requires IsPath(tree, p) && p != []
    ensures IsPath(tree, p[1..])
  {
    var q := p[1..];
    forall i | 0 <= i < |q| - 1 ensures q[i + 1] in Deps(tree, q[i]) { assert p[i + 2] in Deps(tree, p[i + 1]); }
  }

  lemma {:induction false} OpenDepIsOpen(tree: Tree, deps: seq<string>, t: string, d: string, depth: nat)
    requires depth > 0 && d in TriedDeps(tree, deps, t) && DependsOn(tree, d, t, depth - 1).NoAnswer?
    ensures AnyDependsOn(tree, deps, t, depth).NoAnswer?
    decreases |deps|
  {
    if d != deps[0] {
      OpenDepIsOpen(tree, deps[1..], t, d, depth);
      if DependsOn(tree, deps[0], t, depth - 1).Answered? { AnswerIsTrue(tree, deps[0], t, depth - 1); }
    }
  }

  /** Where nothing is to be found, the search ends exactly when no service it depends on is on a
      cycle. */
  lemma FruitlessSearchEndsExactly(tree: Tree, s: string, t: string)
    requires !Reaches(tree, s, t)
    ensures SearchEnds(tree, s, t) <==> !MeetsCycle(tree, s)
  {
    SearchEndsExactly(tree, s, t);
    if MeetsCycle(tree, s) {
      var p := EndlessPath(tree, s, |tree| + 2);
      AllTried(tree, p, t);
      assert Tried(tree, t).Keys == tree.Keys;
      LongPathMeetsCycle(Tried(tree, t), p);
    }
    if MeetsCycle(Tried(tree, t), s) { TriedIsPart(tree, s, t); }
  }

  lemma {:induction false} AllTried(tree: Tree, p: seq<string>, t: string)
    requires IsPath(tree, p) && p != [] && !Reaches(tree, p[0], t)
    ensures IsPath(Tried(tree, t), p)
    decreases |p|
  {
    if |p| > 1 {
      assert p[1] in Deps(tree, p[0]);
      forall d | d in Deps(tree, p[0]) ensures d != t && !Reaches(tree, d, t) {
        ReachesDirectly(tree, p[0], d);
        if Reaches(tree, d, t) { ReachesThrough(tree, p[0], d, t); }
      }
      EveryDepTried(tree, Deps(tree, p[0]), t);
      PathTail(tree, p);
      AllTried(tree, p[1..], t);
      PathCons(Tried(tree, t), p[0], p[1..]);
      assert p == [p[0]] + p[1..];
    }
  }

  lemma {:induction false} EveryDepTried(tree: Tree, deps: seq<string>, t: string)
    requires forall d | d in deps :: d != t && !Reaches(tree, d, t)
    ensures TriedDeps(tree, deps, t) == deps
  {
    if deps != [] {
      assert deps[0] in deps && forall d | d in deps[1..] :: d in deps;
      EveryDepTried(tree, deps[1..], t);
    }
  }

  lemma TriedIsPart(tree: Tree, s: string, t: string)
    requires MeetsCycle(Tried(tree, t), s)
    ensures MeetsCycle(tree, s)
  {
    var p := EndlessPath(Tried(tree, t), s, |tree| + 2);
    forall i | 0 <= i < |p| - 1 ensures p[i + 1] in Deps(tree, p[i]) {
      assert p[i + 1] in Deps(Tried(tree, t), p[i]);
      TriedAreDeps(tree, Deps(tree, p[i]), t);
    }
    LongPathMeetsCycle(tree, p);
  }

  lemma {:induction false} TriedAreDeps(tree: Tree, deps: seq<string>, t: string)
    ensures forall d | d in TriedDeps(tree, deps, t) :: d in deps
  {
    if deps != [] { TriedAreDeps(tree, deps[1..], t); }
  }

  /** Below a service that meets no cycle, every search ends. */
  lemma SearchEndsWithoutCycle(tree: Tree, s: string, t: string)
    requires !MeetsCycle(tree, s)
    ensures SearchEnds(tree, s, t)
  {
    SearchEndsExactly(tree, s, t);
    if MeetsCycle(Tried(tree, t), s) { TriedIsPart(tree, s, t); }
  }

  /** A dependency that leads into a cycle past the service asked for is enough for a search that
      does not end. */
  lemma {:induction false} EndlessSearch(depth: nat)
    ensures var tree: Tree := map["a" := ["b"], "b" := ["c"], "c" := ["b"]];
            DependsOn(tree, "b", "a", depth).NoAnswer? && DependsOn(tree, "c", "a", depth).NoAnswer?
  {
    if depth > 0 {
      EndlessSearch(depth - 1);
    }
  }

  // ----- ranks -----

  predicate IsRank(tree: Tree, rank: map<string, nat>) {
    rank.Keys == tree.Keys && forall s | s in tree :: forall d | d in tree[s] :: d in rank && rank[d] < rank[s]
  }

  ghost predicate HasDepInside(tree: Tree, inside: set<string>, s: string) {
    exists d | d in Deps(tree, s) :: d in inside
  }

  lemma PathCons(tree: Tree, s: string, q: seq<string>)
    requires IsPath(tree, q) && q != [] && q[0] in Deps(tree, s)
    ensures IsPath(tree, [s] + q)
  {
    var p := [s] + q;
    forall i | 0 <= i < |p| - 1 ensures p[i + 1] in Deps(tree, p[i]) {
      if i > 0 { assert q[i] in Deps(tree, q[i - 1]); }
    }
  }

  lemma {:induction false} Walk(tree: Tree, inside: set<string>, s: string, n: nat) returns (p: seq<string>)
    requires s in inside && n > 0
    requires forall x {:trigger HasDepInside(tree, inside, x)} | x in inside :: HasDepInside(tree, inside, x)
    ensures |p| == n && IsPath(tree, p) && p[0] == s && forall x | x in p :: x in inside
    decreases n
  {
    if n == 1 {
      p := [s];
    } else {
      assert HasDepInside(tree, inside, s);
      var d :| d in Deps(tree, s) && d in inside;
      var q := Walk(tree, inside, d, n - 1);
      PathCons(tree, s, q);
      p := [s] + q;
    }
  }

  lemma NoEndlessWalk(tree: Tree, inside: set<string>, p: seq<string>)
    requires Acyclic(tree) && inside <= tree.Keys
    requires IsPath(tree, p) && forall x | x in p :: x in inside
    ensures |p| <= |inside|
  {
    forall i, j | 0 <= i < j < |p| ensures p[i] != p[j] {
      assert p[i] in p;
      if p[i] == p[j] { RepeatIsCycle(tree, p, i, j); }
    }
    Counting.NoRepeatsFits(p, inside);
  }

  /** Some service of a nonempty set depends on no other of it. */
  lemma SinkExists(tree: Tree, inside: set<string>) returns (sink: string)
    requires Acyclic(tree) && inside != {} && inside <= tree.Keys
    ensures sink in inside && forall d | d in tree[sink] :: d !in inside
  {
    if forall x {:trigger HasDepInside(tree, inside, x)} | x in inside :: HasDepInside(tree, inside, x) {
      var s :| s in inside;
      var p := Walk(tree, inside, s, |inside| + 1);
      NoEndlessWalk(tree, inside, p);
    }
    sink :| sink in inside && !HasDepInside(tree, inside, sink);
  }

  lemma {:induction false} RankOf(tree: Tree, inside: set<string>) returns (rank: map<string, nat>)
    requires Acyclic(tree) && inside <= tree.Keys
    ensures rank.Keys == inside
    ensures forall s | s in inside :: forall d | d in tree[s] && d in inside :: rank[d] < rank[s]
    decreases inside
  {
    if inside == {} {
      rank := map[];
    } else {
      var sink := SinkExists(tree, inside);
      var rest := RankOf(tree, inside - {sink});
      rank := map s | s in inside :: if s == sink then 0 else rest[s] + 1;
    }
  }

  /** A closed tree without cycles can be ranked so that every service ranks above those it needs. */
  lemma RankExists(tree: Tree)
    requires Closed(tree) && Acyclic(tree)
    ensures exists rank :: IsRank(tree, rank)
  {
    var rank := RankOf(tree, tree.Keys);
    assert IsRank(tree, rank);
  }
}
