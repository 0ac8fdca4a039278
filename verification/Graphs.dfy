/** Directed graphs as adjacency lists, shared by the import checker and the container. */
module Graphs {
  import opened Common

  type Graph<N> = map<N, seq<N>>

  /** The out-edges of `n` in list order; a node without an entry has none. */
  function Succ<N(==)>(g: Graph<N>, n: N): seq<N> {
    if n in g then g[n] else []
  }

  ghost function Nodes<N(!new)>(g: Graph<N>): set<N> {
    g.Keys + set n, d | n in g && d in g[n] :: d
  }

  ghost predicate Closed<N>(g: Graph<N>) {
    forall n, d :: n in g && d in g[n] ==> d in g
  }

  ghost predicate IsWalk<N>(g: Graph<N>, w: seq<N>) {
    && |w| > 0
    && forall i, j :: 0 <= i && j == i + 1 < |w| ==> w[j] in Succ(g, w[i])
  }

  /** `b` can be reached from `a` along zero or more edges. */
  ghost predicate Reaches<N(!new)>(g: Graph<N>, a: N, b: N) {
    exists w :: IsWalk(g, w) && w[0] == a && w[|w| - 1] == b
  }

  ghost predicate IsCycle<N>(g: Graph<N>, w: seq<N>) {
    IsWalk(g, w) && |w| >= 2 && w[0] == w[|w| - 1]
  }

  ghost predicate OnCycle<N(!new)>(g: Graph<N>, n: N) {
    exists w :: IsCycle(g, w) && w[0] == n
  }

  ghost predicate Acyclic<N(!new)>(g: Graph<N>) {
    forall w :: !IsCycle(g, w)
  }

  /** A cycle that repeats no node apart from its end point. */
  ghost predicate IsSimpleCycle<N>(g: Graph<N>, w: seq<N>) {
    IsCycle(g, w) && Distinct(w[..|w| - 1])
  }

  /** `f` lists every node with out-edges, each after all of its successors. */
  ghost predicate IsTopological<N>(g: Graph<N>, f: seq<N>) {
    && (forall n :: n in g ==> n in f)
    && forall i, d :: 0 <= i < |f| && d in Succ(g, f[i]) ==> d in f[..i]
  }

  lemma ReachesSelf<N(!new)>(g: Graph<N>, a: N)
    ensures Reaches(g, a, a)
  {
    assert IsWalk(g, [a]);
  }

  lemma ReachesStep<N(!new)>(g: Graph<N>, a: N, b: N, c: N)
    requires b in Succ(g, a) && Reaches(g, b, c)
    ensures Reaches(g, a, c)
  {
    var w :| IsWalk(g, w) && w[0] == b && w[|w| - 1] == c;
    assert IsWalk(g, [a] + w);
  }

  /** Reachability is the node itself or reachability from one of its successors. */
  lemma ReachesUnfold<N(!new)>(g: Graph<N>, a: N, c: N)
    ensures Reaches(g, a, c) <==> a == c || exists b :: b in Succ(g, a) && Reaches(g, b, c)
  {
    if Reaches(g, a, c) && a != c {
      var w :| IsWalk(g, w) && w[0] == a && w[|w| - 1] == c;
      var v := w[1..];
      assert IsWalk(g, v) && v[0] == w[1] && v[|v| - 1] == w[|w| - 1];
      assert w[1] in Succ(g, a) && Reaches(g, w[1], c);
    }
    if a == c {
      ReachesSelf(g, a);
    }
    if b :| b in Succ(g, a) && Reaches(g, b, c) {
      ReachesStep(g, a, b, c);
    }
  }

  /** A node is on a cycle exactly when one of its successors leads back to it. */
  lemma OnCycleUnfold<N(!new)>(g: Graph<N>, a: N)
    ensures OnCycle(g, a) <==> exists b :: b in Succ(g, a) && Reaches(g, b, a)
  {
    if OnCycle(g, a) {
      var w :| IsCycle(g, w) && w[0] == a;
      var v := w[1..];
      assert IsWalk(g, v) && v[0] == w[1] && v[|v| - 1] == w[|w| - 1];
      assert w[1] in Succ(g, a) && Reaches(g, w[1], a);
    }
    if b :| b in Succ(g, a) && Reaches(g, b, a) {
      var w :| IsWalk(g, w) && w[0] == b && w[|w| - 1] == a;
      assert IsCycle(g, [a] + w);
    }
  }

  // ---- Reachability around a set of nodes ----

  /** `b` can be reached from `a` without touching `avoid`, ends included. */
  ghost predicate ReachesAvoiding<N(!new)>(g: Graph<N>, avoid: set<N>, a: N, b: N) {
    exists w :: IsWalk(g, w) && w[0] == a && w[|w| - 1] == b && Avoids(w, avoid)
  }

  ghost predicate Avoids<N>(w: seq<N>, avoid: set<N>) {
    forall i :: 0 <= i < |w| ==> w[i] !in avoid
  }

  lemma AvoidingEnds<N(!new)>(g: Graph<N>, avoid: set<N>, a: N, b: N)
    requires ReachesAvoiding(g, avoid, a, b)
    ensures a !in avoid && b !in avoid
  {
  }

  lemma AvoidingSelf<N(!new)>(g: Graph<N>, avoid: set<N>, a: N)
    requires a !in avoid
    ensures ReachesAvoiding(g, avoid, a, a)
  {
    assert IsWalk(g, [a]) && Avoids([a], avoid);
  }

  lemma AvoidingStep<N(!new)>(g: Graph<N>, avoid: set<N>, a: N, b: N, c: N)
    requires a !in avoid && b in Succ(g, a) && ReachesAvoiding(g, avoid, b, c)
    ensures ReachesAvoiding(g, avoid, a, c)
  {
    var w :| IsWalk(g, w) && w[0] == b && w[|w| - 1] == c && Avoids(w, avoid);
    assert IsWalk(g, [a] + w) && Avoids([a] + w, avoid);
  }

  lemma AvoidingLess<N(!new)>(g: Graph<N>, small: set<N>, large: set<N>, a: N, b: N)
    requires small <= large && ReachesAvoiding(g, large, a, b)
    ensures ReachesAvoiding(g, small, a, b)
  {
    var w :| IsWalk(g, w) && w[0] == a && w[|w| - 1] == b && Avoids(w, large);
    assert Avoids(w, small);
  }

  lemma AvoidingNothing<N(!new)>(g: Graph<N>, a: N, b: N)
    ensures ReachesAvoiding(g, {}, a, b) <==> Reaches(g, a, b)
  {
    if Reaches(g, a, b) {
      var w :| IsWalk(g, w) && w[0] == a && w[|w| - 1] == b;
      assert Avoids(w, {});
    }
  }

  lemma SuffixIsWalk<N>(g: Graph<N>, w: seq<N>, k: nat, avoid: set<N>)
    requires IsWalk(g, w) && k < |w| && Avoids(w, avoid)
    ensures IsWalk(g, w[k..]) && w[k..][|w[k..]| - 1] == w[|w| - 1] && Avoids(w[k..], avoid)
  {
    var v := w[k..];
    forall i, j | 0 <= i && j == i + 1 < |v| ensures v[j] in Succ(g, v[i]) {
      assert w[k + j] in Succ(g, w[k + i]);
    }
  }

  lemma AvoidingJoin<N(!new)>(g: Graph<N>, avoid: set<N>, a: N, b: N, c: N)
    requires ReachesAvoiding(g, avoid, a, b) && ReachesAvoiding(g, avoid, b, c)
    ensures ReachesAvoiding(g, avoid, a, c)
  {
    var v :| IsWalk(g, v) && v[0] == a && v[|v| - 1] == b && Avoids(v, avoid);
    var w :| IsWalk(g, w) && w[0] == b && w[|w| - 1] == c && Avoids(w, avoid);
    assert IsWalk(g, v + w[1..]) && Avoids(v + w[1..], avoid);
  }

  /** A way around `avoid` also goes around `more`, or its end is reached from a node of `more`. */
  lemma AvoidingSplit<N(!new)>(g: Graph<N>, avoid: set<N>, more: set<N>, a: N, b: N)
    requires ReachesAvoiding(g, avoid, a, b)
    ensures ReachesAvoiding(g, avoid + more, a, b) || exists t :: t in more && ReachesAvoiding(g, avoid, t, b)
  {
    var w :| IsWalk(g, w) && w[0] == a && w[|w| - 1] == b && Avoids(w, avoid);
    if k :| 0 <= k < |w| && w[k] in more {
      SuffixIsWalk(g, w, k, avoid);
      assert w[k..][0] == w[k];
    } else {
      assert Avoids(w, avoid + more);
    }
  }

  lemma AvoidingUnfold<N(!new)>(g: Graph<N>, avoid: set<N>, a: N, c: N)
    requires a !in avoid
    ensures ReachesAvoiding(g, avoid, a, c) <==> a == c || exists b :: b in Succ(g, a) && ReachesAvoiding(g, avoid, b, c)
  {
    if ReachesAvoiding(g, avoid, a, c) && a != c {
      var w :| IsWalk(g, w) && w[0] == a && w[|w| - 1] == c && Avoids(w, avoid);
      SuffixIsWalk(g, w, 1, avoid);
      assert w[1..][0] == w[1] && w[1] in Succ(g, w[0]);
    }
    if a == c {
      AvoidingSelf(g, avoid, a);
    }
    if b :| b in Succ(g, a) && ReachesAvoiding(g, avoid, b, c) {
      AvoidingStep(g, avoid, a, b, c);
    }
  }

  lemma {:induction false} LeaveForGood<N(!new)>(g: Graph<N>, avoid: set<N>, w: seq<N>)
    requires IsWalk(g, w) && Avoids(w, avoid) && w[|w| - 1] != w[0]
    ensures exists b :: b in Succ(g, w[0]) && ReachesAvoiding(g, avoid + {w[0]}, b, w[|w| - 1])
    decreases |w|
  {
    if k :| 1 <= k < |w| && w[k] == w[0] {
      SuffixIsWalk(g, w, k, avoid);
      LeaveForGood(g, avoid, w[k..]);
    } else {
      SuffixIsWalk(g, w, 1, avoid);
      assert Avoids(w[1..], avoid + {w[0]});
      assert w[1..][0] == w[1] && w[1] in Succ(g, w[0]);
    }
  }

  /** A way from `a` to another node can be taken so that it does not come back to `a`. */
  lemma AvoidingLeaves<N(!new)>(g: Graph<N>, avoid: set<N>, a: N, c: N)
    requires a !in avoid
    ensures ReachesAvoiding(g, avoid, a, c) <==> a == c || exists b :: b in Succ(g, a) && ReachesAvoiding(g, avoid + {a}, b, c)
  {
    if ReachesAvoiding(g, avoid, a, c) && a != c {
      var w :| IsWalk(g, w) && w[0] == a && w[|w| - 1] == c && Avoids(w, avoid);
      LeaveForGood(g, avoid, w);
    }
    if a == c {
      AvoidingSelf(g, avoid, a);
    }
    if b :| b in Succ(g, a) && ReachesAvoiding(g, avoid + {a}, b, c) {
      AvoidingLess(g, avoid, avoid + {a}, b, c);
      AvoidingStep(g, avoid, a, b, c);
    }
  }

  ghost predicate ReachesFromSome<N(!new)>(g: Graph<N>, avoid: set<N>, starts: seq<N>, m: N) {
    exists i :: 0 <= i < |starts| && ReachesAvoiding(g, avoid, starts[i], m)
  }

  /** With what earlier starts reach out of the way, one more start adds what it reaches around that. */
  lemma OneMoreStart<N(!new)>(g: Graph<N>, avoid: set<N>, starts: seq<N>, d: N, grown: set<N>, m: N)
    requires forall t :: t in grown ==> ReachesFromSome(g, avoid, starts, t)
    ensures ReachesFromSome(g, avoid, starts + [d], m) <==>
      ReachesFromSome(g, avoid, starts, m) || ReachesAvoiding(g, avoid + grown, d, m)
  {
    var more := starts + [d];
    assert more[|starts|] == d;
    if i :| 0 <= i < |starts| && ReachesAvoiding(g, avoid, starts[i], m) {
      assert more[i] == starts[i];
    }
    if ReachesAvoiding(g, avoid + grown, d, m) {
      AvoidingLess(g, avoid, avoid + grown, d, m);
    }
    if ReachesAvoiding(g, avoid, d, m) && !ReachesAvoiding(g, avoid + grown, d, m) {
      AvoidingSplit(g, avoid, grown, d, m);
      var t :| t in grown && ReachesAvoiding(g, avoid, t, m);
      var i :| 0 <= i < |starts| && ReachesAvoiding(g, avoid, starts[i], t);
      AvoidingJoin(g, avoid, starts[i], t, m);
    }
  }

  /** Position of a listed node. */
  ghost function IndexOf<N>(f: seq<N>, n: N): (i: nat)
    requires n in f
    ensures i < |f| && f[i] == n && n !in f[..i]
  {
    if f[0] == n then 0 else
      assert n in f[1..];
      var i := 1 + IndexOf(f[1..], n);
      assert f[..i] == [f[0]] + f[1..][..i - 1];
      i
  }

  lemma IndexOfIsLeast<N>(f: seq<N>, n: N, j: nat)
    requires j < |f| && f[j] == n
    ensures IndexOf(f, n) <= j
  {
    assert n !in f[..IndexOf(f, n)];
  }

  lemma {:induction false} RankFallsAlongWalk<N>(g: Graph<N>, f: seq<N>, w: seq<N>)
    requires IsTopological(g, f) && IsWalk(g, w) && |w| >= 2
    ensures w[0] in f && w[|w| - 1] in f && IndexOf(f, w[|w| - 1]) < IndexOf(f, w[0])
  {
    assert w[1] in Succ(g, w[0]) && w[0] in g;
    var i := IndexOf(f, w[0]);
    assert w[1] in f[..i];
    var j := IndexOf(f[..i], w[1]);
    assert f[j] == w[1] && f[..i][..j] == f[..j];
    IndexOfIsLeast(f, w[1], j);
    if |w| > 2 {
      assert w[1..][0] == w[1];
      RankFallsAlongWalk(g, f, w[1..]);
    }
  }

  /** A listing with every node after its successors leaves no room for a cycle. */
  lemma TopologicalOrderExcludesCycles<N(!new)>(g: Graph<N>, f: seq<N>)
    requires IsTopological(g, f)
    ensures Acyclic(g)
  {
    forall w | IsCycle(g, w) ensures false {
      RankFallsAlongWalk(g, f, w);
    }
  }
}
