/** The import-cycle checker of scripts/check-circular-deps.js. */
module CircularDeps {
  import opened Common
  import opened Graphs

  /** A JavaScript Map from file to imports: `order` is its insertion order. */
  datatype ModuleGraph = ModuleGraph(order: seq<string>, deps: Graph<string>) {
    ghost predicate Valid() {
      && Distinct(order)
      && forall n :: n in order <==> n in deps
    }
  }

  type Edge = (string, string)

  // ---- Building the graph ----

  datatype Import = Unresolved | Resolved(file: string)

  /** The imports that resolve to one of the scanned files, in order and with repetitions. */
  function InternalImports(imports: seq<Import>, files: seq<string>): (r: seq<string>)
    ensures forall d :: d in r <==> Resolved(d) in imports && d in files
  {
    if imports == [] then [] else
      var last := imports[|imports| - 1];
      var init := InternalImports(imports[..|imports| - 1], files);
      assert imports == imports[..|imports| - 1] + [last];
      if last.Resolved? && last.file in files then init + [last.file] else init
  }

  predicate Internal(i: Import, files: seq<string>) {
    i.Resolved? && i.file in files
  }

  ghost predicate AreResolved(kept: seq<Import>, deps: seq<string>) {
    |kept| == |deps| && forall k :: 0 <= k < |kept| ==> kept[k] == Resolved(deps[k])
  }

  lemma InternalImportsNext(imports: seq<Import>, files: seq<string>, kept: seq<Import>)
    requires imports != [] && AreResolved(kept, InternalImports(imports[..|imports| - 1], files))
    ensures
      var last := imports[|imports| - 1];
      AreResolved(kept + (if Internal(last, files) then [last] else []), InternalImports(imports, files))
  {
  }

  /** Each import that resolves to a scanned file is listed once for each time it occurs, in order of occurrence. */
  lemma {:induction false} ImportsKeptInOrder(imports: seq<Import>, files: seq<string>) returns (pos: seq<nat>, kept: seq<Import>)
    ensures Selects(imports, pos, kept) && AreResolved(kept, InternalImports(imports, files))
    ensures forall i :: 0 <= i < |imports| ==> (i in pos <==> Internal(imports[i], files))
  {
    if imports == [] {
      pos, kept := [], [];
    } else {
      hide *;
      var init, last := imports[..|imports| - 1], imports[|imports| - 1];
      pos, kept := ImportsKeptInOrder(init, files);
      InternalImportsNext(imports, files, kept);
      pos := SelectsNext(imports, pos, kept, Internal(last, files));
      kept := kept + if Internal(last, files) then [last] else [];
    }
  }

  method Dependencies(imports: seq<Import>, files: seq<string>) returns (dependencies: seq<string>)
    ensures dependencies == InternalImports(imports, files)
  {
    dependencies := [];
    for j := 0 to |imports|
      invariant dependencies == InternalImports(imports[..j], files)
    {
      assert imports[..j + 1][..j] == imports[..j];
      if imports[j].Resolved? && imports[j].file in files {
        dependencies := dependencies + [imports[j].file];
      }
    }
    assert imports[..|imports|] == imports;
  }

  /** The graph handed to the search: every edge ends at a scanned file. */
  method BuildDependencyGraph(files: seq<string>, importsOf: string -> seq<Import>) returns (g: ModuleGraph)
    ensures g.Valid() && Closed(g.deps)
    ensures forall f :: f in g.deps <==> f in files
    ensures forall f :: f in g.deps ==> g.deps[f] == InternalImports(importsOf(f), files)
    ensures Distinct(files) ==> g.order == files
  {
    hide InternalImports;
    g := ModuleGraph([], map[]);
    for i := 0 to |files|
      invariant g.Valid()
      invariant forall f :: f in g.deps <==> f in files[..i]
      invariant forall f :: f in g.deps ==> g.deps[f] == InternalImports(importsOf(f), files)
      invariant Distinct(files) ==> g.order == files[..i]
    {
      var file := files[i];
      var dependencies := Dependencies(importsOf(file), files);
      assert files[..i + 1] == files[..i] + [file];
      g := ModuleGraph(if file in g.deps then g.order else g.order + [file], g.deps[file := dependencies]);
    }
    assert files[..|files|] == files;
  }

  // ---- What the search is measured by ----

  /** Total number of out-edges of the listed nodes. */
  ghost function OutEdges(g: Graph<string>, f: seq<string>): nat {
    if f == [] then 0 else OutEdges(g, f[..|f| - 1]) + |Succ(g, f[|f| - 1])|
  }

  /** The edges from `n` into targets outside `done`, with multiplicity. */
  ghost function EdgesOutside(n: string, targets: seq<string>, done: seq<string>): multiset<Edge> {
    if targets == [] then multiset{} else
      var d := targets[|targets| - 1];
      EdgesOutside(n, targets[..|targets| - 1], done) + (if d in done then multiset{} else multiset{(n, d)})
  }

  /**
   * Back edges of a finish order: the edges whose target does not finish before their source.
   * Defined from the graph and the order alone.
   */
  ghost function BackEdges(g: Graph<string>, f: seq<string>): multiset<Edge> {
    if f == [] then multiset{} else
      var n := f[|f| - 1];
      var before := f[..|f| - 1];
      BackEdges(g, before) + EdgesOutside(n, Succ(g, n), before)
  }

  /** The last edge of each reported cycle. */
  ghost function ClosingEdges(cycles: seq<seq<string>>): multiset<Edge> {
    if cycles == [] then multiset{} else
      var c := cycles[|cycles| - 1];
      ClosingEdges(cycles[..|cycles| - 1]) + if |c| >= 2 then multiset{(c[|c| - 2], c[|c| - 1])} else multiset{}
  }

  lemma {:induction false} EdgesOutsideEmpty(n: string, targets: seq<string>, done: seq<string>)
    requires EdgesOutside(n, targets, done) == multiset{}
    ensures forall d :: d in targets ==> d in done
  {
    if targets != [] {
      var last := targets[|targets| - 1];
      assert last !in done ==> (n, last) in EdgesOutside(n, targets, done);
      assert EdgesOutside(n, targets[..|targets| - 1], done) <= EdgesOutside(n, targets, done);
      EdgesOutsideEmpty(n, targets[..|targets| - 1], done);
    }
  }

  /** Without back edges the finish order is topological on every prefix. */
  lemma {:induction false} NoBackEdgesMeansTopological(g: Graph<string>, f: seq<string>)
    requires BackEdges(g, f) == multiset{}
    ensures forall i, d :: 0 <= i < |f| && d in Succ(g, f[i]) ==> d in f[..i]
  {
    if f != [] {
      var k := |f| - 1;
      assert BackEdges(g, f[..k]) <= BackEdges(g, f);
      assert EdgesOutside(f[k], Succ(g, f[k]), f[..k]) <= BackEdges(g, f);
      NoBackEdgesMeansTopological(g, f[..k]);
      EdgesOutsideEmpty(f[k], Succ(g, f[k]), f[..k]);
      forall i, d | 0 <= i < |f| && d in Succ(g, f[i]) ensures d in f[..i] {
        if i < k { assert f[..k][i] == f[i] && f[..k][..i] == f[..i]; }
      }
    }
  }

  lemma {:induction false} OutEdgesWithout(g: Graph<string>, f: seq<string>, k: nat)
    requires k < |f|
    ensures OutEdges(g, f) == OutEdges(g, f[..k] + f[k + 1..]) + |Succ(g, f[k])|
  {
    var rest := f[..k] + f[k + 1..];
    var last := |f| - 1;
    if k == last {
      assert rest == f[..last];
    } else {
      OutEdgesWithout(g, f[..last], k);
      assert rest[..|rest| - 1] == f[..last][..k] + f[..last][k + 1..];
      assert rest[|rest| - 1] == f[last];
    }
  }

  lemma Without(f: seq<string>, k: nat) returns (rest: seq<string>)
    requires Distinct(f) && k < |f|
    ensures rest == f[..k] + f[k + 1..] && Distinct(rest)
    ensures forall m :: m in rest <==> m in f && m != f[k]
  {
    rest := f[..k] + f[k + 1..];
    forall m | m in f && m != f[k] ensures m in rest {
      var i := IndexOf(f, m);
      assert rest[if i < k then i else i - 1] == m;
    }
    forall m | m in rest ensures m in f && m != f[k] {
      var i := IndexOf(rest, m);
      assert m == f[if i < k then i else i + 1];
    }
  }

  lemma WithoutLast(g: Graph<string>, f: seq<string>) returns (init: seq<string>)
    requires Distinct(f) && f != []
    ensures Distinct(init) && |init| == |f| - 1 && forall m :: m in init <==> m in f && m != f[|f| - 1]
    ensures OutEdges(g, f) == OutEdges(g, init) + |Succ(g, f[|f| - 1])|
  {
    init := Without(f, |f| - 1);
    assert init == f[..|f| - 1];
  }

  /** Listing extra nodes that have no entry in the graph does not change the edge count. */
  lemma {:induction false} OutEdgesSameNodes(g: Graph<string>, f: seq<string>, order: seq<string>)
    requires Distinct(f) && Distinct(order)
    requires forall n :: n in order ==> n in f
    requires forall n :: n in f && n in g ==> n in order
    ensures OutEdges(g, f) == OutEdges(g, order)
    decreases |f|
  {
    if order != [] {
      hide *;
      var n := order[|order| - 1];
      var init := WithoutLast(g, order);
      var k := IndexOf(f, n);
      OutEdgesWithout(g, f, k);
      var rest := Without(f, k);
      OutEdgesSameNodes(g, rest, init);
    } else if f != [] {
      var init := WithoutLast(g, f);
      assert f[|f| - 1] in f;
      OutEdgesSameNodes(g, init, order);
    }
  }

  // ---- The state between calls of the search ----

  /** Adding to a JavaScript Set, listed in insertion order. */
  function Added(s: seq<string>, n: string): seq<string> {
    if n in s then s else s + [n]
  }

  function Deleted(s: seq<string>, n: string): seq<string> {
    if s == [] then [] else (if s[0] == n then [] else [s[0]]) + Deleted(s[1..], n)
  }

  /** Deleting the element added last undoes the addition. */
  lemma {:induction false} DeleteLast(s: seq<string>, n: string)
    requires n !in s
    ensures Deleted(s + [n], n) == s
  {
    if s == [] {
      assert s + [n] == [n];
    } else {
      assert (s + [n])[1..] == s[1..] + [n];
      DeleteLast(s[1..], n);
    }
  }

  /** `path` is the chain of nodes being expanded, and the recursion stack in order; `finished` the completed ones in finish order. */
  ghost predicate Progress(g: Graph<string>, path: seq<string>, stack: seq<string>, visited: set<string>, finished: seq<string>) {
    && Distinct(path) && Distinct(finished)
    && (path != [] ==> IsWalk(g, path))
    && path == stack
    && (forall n :: n in visited <==> n in stack || n in finished)
    && (forall n :: n in stack ==> n !in finished)
    && visited <= Nodes(g)
    && forall n, d :: n in finished && d in Succ(g, n) ==> d in visited
  }

  ghost predicate AllSimple(g: Graph<string>, cycles: seq<seq<string>>) {
    forall c :: c in cycles ==> IsSimpleCycle(g, c)
  }

  lemma ActiveOrFinished(g: Graph<string>, path: seq<string>, stack: seq<string>, visited: set<string>, finished: seq<string>)
    requires Progress(g, path, stack, visited, finished)
    ensures Distinct(path) && (path != [] ==> IsWalk(g, path))
    ensures path == stack && forall n :: n in stack ==> n in visited
    ensures forall n :: n in visited ==> (n in stack <==> n !in finished)
  {
  }

  lemma EnterNode(g: Graph<string>, path: seq<string>, stack: seq<string>, visited: set<string>, finished: seq<string>, node: string)
    requires Progress(g, path, stack, visited, finished) && node in Nodes(g) && node !in visited
    requires path != [] ==> node in Succ(g, path[|path| - 1])
    ensures Progress(g, path + [node], Added(stack, node), visited + {node}, finished)
  {
  }

  lemma LeaveNode(g: Graph<string>, path: seq<string>, stack: seq<string>, visited: set<string>, finished: seq<string>, node: string)
    requires Progress(g, path + [node], stack, visited, finished)
    requires forall d :: d in Succ(g, node) ==> d in visited
    ensures Progress(g, path, Deleted(stack, node), visited, finished + [node])
  {
    var path' := path + [node];
    assert node == path'[|path|] && node in path';
    forall i | 0 <= i < |path| ensures path[i] != node {
      assert path'[i] != path'[|path|];
    }
    DeleteLast(path, node);
    forall n | n in visited ensures n in path || n in finished + [node] {
      assert n in path' ==> n in path || n == node;
    }
    assert forall n :: n in path ==> n in path';
    if path != [] {
      forall i, j | 0 <= i && j == i + 1 < |path| ensures path[j] in Succ(g, path[i]) {
        assert path'[j] in Succ(g, path'[i]);
      }
    }
    assert Distinct(path) by {
      forall i, j | 0 <= i < j < |path| ensures path[i] != path[j] {
        assert path'[i] != path'[j];
      }
    }
  }

  lemma ReportCycle(g: Graph<string>, path: seq<string>, start: nat, node: string)
    requires IsWalk(g, path) && Distinct(path) && start < |path| && path[start] == node
    requires node in Succ(g, path[|path| - 1])
    ensures IsSimpleCycle(g, path[start..] + [node])
  {
    var c := path[start..] + [node];
    assert c[..|c| - 1] == path[start..];
  }

  /** The edges from `n` into the active nodes, with multiplicity. */
  ghost function EdgesInto(n: string, targets: seq<string>, stack: seq<string>): multiset<Edge> {
    if targets == [] then multiset{} else
      var d := targets[|targets| - 1];
      EdgesInto(n, targets[..|targets| - 1], stack) + if d in stack then multiset{(n, d)} else multiset{}
  }

  lemma EdgesIntoNone(n: string, targets: seq<string>, stack: seq<string>, open: multiset<Edge>)
    requires targets == []
    ensures open + EdgesInto(n, targets, stack) == open
  {
  }

  lemma EdgesIntoNext(n: string, targets: seq<string>, i: nat, stack: seq<string>, open: multiset<Edge>)
    requires i < |targets|
    ensures open + EdgesInto(n, targets[..i + 1], stack)
         == open + EdgesInto(n, targets[..i], stack) + if targets[i] in stack then multiset{(n, targets[i])} else multiset{}
  {
    assert targets[..i + 1][..i] == targets[..i];
  }

  lemma SuccIsNode(g: Graph<string>, n: string, d: string)
    requires d in Succ(g, n)
    ensures d in Nodes(g)
  {
  }

  /** Once all targets are visited, the active ones are exactly those not finished. */
  lemma {:induction false} EdgesIntoStack(n: string, targets: seq<string>, stack: seq<string>, finished: seq<string>)
    requires forall d :: d in targets ==> (d in stack <==> d !in finished)
    ensures EdgesInto(n, targets, stack) == EdgesOutside(n, targets, finished)
  {
    if targets != [] {
      assert targets[|targets| - 1] in targets;
      EdgesIntoStack(n, targets[..|targets| - 1], stack, finished);
    }
  }

  /** Array.prototype.indexOf for an element that is present. */
  function FirstIndex(path: seq<string>, node: string): (i: nat)
    requires node in path
    ensures i < |path| && path[i] == node
  {
    if path[0] == node then 0 else 1 + FirstIndex(path[1..], node)
  }

  /**
   * Reports made so far, paired with the finish order: the closing edges of the reports are the
   * back edges of the finished nodes plus `open`, those found from nodes still being expanded.
   */
  ghost predicate Accounted(g: Graph<string>, cycles: seq<seq<string>>, finished: seq<string>, open: multiset<Edge>) {
    AllSimple(g, cycles) && ClosingEdges(cycles) == BackEdges(g, finished) + open
  }

  lemma AccountReport(g: Graph<string>, cycles: seq<seq<string>>, finished: seq<string>, open: multiset<Edge>,
      path: seq<string>, start: nat, node: string)
    requires Accounted(g, cycles, finished, open)
    requires IsWalk(g, path) && Distinct(path) && start < |path| && path[start] == node
    requires node in Succ(g, path[|path| - 1])
    ensures Accounted(g, cycles + [path[start..] + [node]], finished, open + multiset{(path[|path| - 1], node)})
  {
    ReportCycle(g, path, start, node);
    var cycles' := cycles + [path[start..] + [node]];
    assert cycles'[..|cycles'| - 1] == cycles;
  }

  lemma AccountFinish(g: Graph<string>, cycles: seq<seq<string>>, finished: seq<string>, open: multiset<Edge>,
      stack: seq<string>, node: string)
    requires Accounted(g, cycles, finished, open + EdgesInto(node, Succ(g, node), stack))
    requires forall d :: d in Succ(g, node) ==> (d in stack <==> d !in finished)
    ensures Accounted(g, cycles, finished + [node], open)
    ensures OutEdges(g, finished + [node]) == OutEdges(g, finished) + |Succ(g, node)|
  {
    EdgesIntoStack(node, Succ(g, node), stack, finished);
    assert (finished + [node])[..|finished|] == finished;
  }

  // ---- The search as a function ----

  /** What a call adds: the nodes it finishes and the cycles it reports, in order. */
  datatype Trace = Trace(finished: seq<string>, cycles: seq<seq<string>>)

  ghost function Elements(s: seq<string>): set<string> {
    set n | n in s
  }

  ghost function Search(g: Graph<string>, path: seq<string>, visited: set<string>, n: string): Trace
    decreases Nodes(g) - visited, 0
  {
    if n in path then Trace([], [path[FirstIndex(path, n)..] + [n]])
    else if n in visited || n !in Nodes(g) then Trace([], [])
    else
      var t := SearchAll(g, path + [n], visited + {n}, Succ(g, n));
      Trace(t.finished + [n], t.cycles)
  }

  ghost function SearchAll(g: Graph<string>, path: seq<string>, visited: set<string>, targets: seq<string>): Trace
    decreases Nodes(g) - visited, 1, |targets|
  {
    if targets == [] then Trace([], []) else
      var t := SearchAll(g, path, visited, targets[..|targets| - 1]);
      var u := Search(g, path, visited + Elements(t.finished), targets[|targets| - 1]);
      Trace(t.finished + u.finished, t.cycles + u.cycles)
  }

  lemma SearchAllNext(g: Graph<string>, path: seq<string>, visited: set<string>, targets: seq<string>, i: nat)
    requires i < |targets|
    ensures
      var t := SearchAll(g, path, visited, targets[..i]);
      var u := Search(g, path, visited + Elements(t.finished), targets[i]);
      SearchAll(g, path, visited, targets[..i + 1]) == Trace(t.finished + u.finished, t.cycles + u.cycles)
  {
    assert targets[..i + 1][..i] == targets[..i];
  }

  lemma {:induction false} EarlierComesFirst(g: Graph<string>, path: seq<string>, visited: set<string>, targets: seq<string>, i: nat, k: nat)
    requires i <= k <= |targets|
    ensures SearchAll(g, path, visited, targets[..i]).finished <= SearchAll(g, path, visited, targets[..k]).finished
    ensures SearchAll(g, path, visited, targets[..i]).cycles <= SearchAll(g, path, visited, targets[..k]).cycles
    decreases k
  {
    if i < k {
      EarlierComesFirst(g, path, visited, targets, i, k - 1);
      SearchAllNext(g, path, visited, targets, k - 1);
    }
  }

  lemma ElementsAppend(a: seq<string>, b: seq<string>)
    ensures Elements(a + b) == Elements(a) + Elements(b)
  {
  }

  /**
   * A call on an unvisited node finishes exactly the nodes it reaches around the visited ones,
   * itself last.
   */
  lemma {:induction false} SearchFinishes(g: Graph<string>, path: seq<string>, visited: set<string>, n: string)
    requires Elements(path) <= visited
    ensures n in visited ==> Search(g, path, visited, n).finished == []
    ensures n in Nodes(g) && n !in visited ==>
      var f := Search(g, path, visited, n).finished;
      f != [] && f[|f| - 1] == n
    ensures n in Nodes(g) ==> forall m :: m in Search(g, path, visited, n).finished <==> ReachesAvoiding(g, visited, n, m)
    decreases Nodes(g) - visited, 0
  {
    if n in path || n in visited {
      assert n in path ==> n in Elements(path);
      forall m ensures !ReachesAvoiding(g, visited, n, m) {
        if ReachesAvoiding(g, visited, n, m) { AvoidingEnds(g, visited, n, m); }
      }
    } else if n in Nodes(g) {
      hide SearchAll, ReachesAvoiding;
      var inner := SearchAll(g, path + [n], visited + {n}, Succ(g, n));
      ElementsAppend(path, [n]);
      SearchAllFinishes(g, path + [n], visited + {n}, Succ(g, n));
      forall m ensures m in inner.finished + [n] <==> ReachesAvoiding(g, visited, n, m) {
        AvoidingLeaves(g, visited, n, m);
        SomeSuccessor(g, visited + {n}, n, m);
      }
    }
  }

  lemma SomeSuccessor(g: Graph<string>, avoid: set<string>, n: string, m: string)
    ensures ReachesFromSome(g, avoid, Succ(g, n), m) <==> exists b :: b in Succ(g, n) && ReachesAvoiding(g, avoid, b, m)
  {
  }

  lemma {:induction false} SearchAllFinishes(g: Graph<string>, path: seq<string>, visited: set<string>, targets: seq<string>)
    requires Elements(path) <= visited && forall d :: d in targets ==> d in Nodes(g)
    ensures forall m :: m in SearchAll(g, path, visited, targets).finished <==> ReachesFromSome(g, visited, targets, m)
    decreases Nodes(g) - visited, 1, |targets|
  {
    if targets != [] {
      var init, d := targets[..|targets| - 1], targets[|targets| - 1];
      var t := SearchAll(g, path, visited, init);
      hide Search, ReachesFromSome, ReachesAvoiding;
      SearchAllFinishes(g, path, visited, init);
      SearchFinishes(g, path, visited + Elements(t.finished), d);
      assert init + [d] == targets;
      forall m ensures m in SearchAll(g, path, visited, targets).finished <==> ReachesFromSome(g, visited, targets, m) {
        OneMoreStart(g, visited, init, d, Elements(t.finished), m);
      }
    }
  }

  // ---- Order ----

  ghost predicate Covers(g: Graph<string>, avoid: set<string>, starts: seq<string>, block: seq<string>) {
    forall m :: m in block <==> ReachesFromSome(g, avoid, starts, m)
  }

  /** The first `i` targets and what they reach around `avoid` come first in `f`; `last` ends that part. */
  ghost predicate FinishFirst(g: Graph<string>, avoid: set<string>, targets: seq<string>, i: nat, f: seq<string>)
    requires i <= |targets|
  {
    exists j :: 0 <= j <= |f| && Covers(g, avoid, targets[..i], f[..j])
      && (i > 0 && targets[i - 1] !in avoid && !ReachesFromSome(g, avoid, targets[..i - 1], targets[i - 1]) ==>
            j > 0 && f[j - 1] == targets[i - 1])
  }

  /**
   * Everything the earlier targets reach around `avoid` finishes before the next target is
   * entered, and a target not reached before finishes after all that only it reaches.
   */
  ghost predicate InTurn(g: Graph<string>, avoid: set<string>, targets: seq<string>, f: seq<string>) {
    forall i :: 0 <= i <= |targets| ==> FinishFirst(g, avoid, targets, i, f)
  }

  lemma SearchAllInTurn(g: Graph<string>, path: seq<string>, visited: set<string>, targets: seq<string>)
    requires Elements(path) <= visited && forall d :: d in targets ==> d in Nodes(g)
    ensures InTurn(g, visited, targets, SearchAll(g, path, visited, targets).finished)
  {
    hide Search, SearchAll, ReachesFromSome, Elements;
    var f := SearchAll(g, path, visited, targets).finished;
    assert targets[..|targets|] == targets;
    forall i | 0 <= i <= |targets| ensures FinishFirst(g, visited, targets, i, f) {
      var part := SearchAll(g, path, visited, targets[..i]).finished;
      SearchAllFinishes(g, path, visited, targets[..i]);
      EarlierComesFirst(g, path, visited, targets, i, |targets|);
      assert f[..|part|] == part;
      if i > 0 && targets[i - 1] !in visited && !ReachesFromSome(g, visited, targets[..i - 1], targets[i - 1]) {
        EndsWithTarget(g, path, visited, targets, i - 1);
      }
    }
  }

  lemma EndsWithTarget(g: Graph<string>, path: seq<string>, visited: set<string>, targets: seq<string>, i: nat)
    requires Elements(path) <= visited && i < |targets| && forall d :: d in targets ==> d in Nodes(g)
    requires targets[i] !in visited && !ReachesFromSome(g, visited, targets[..i], targets[i])
    ensures var f := SearchAll(g, path, visited, targets[..i + 1]).finished; f != [] && f[|f| - 1] == targets[i]
  {
    hide Search, SearchAll, ReachesFromSome;
    var t := SearchAll(g, path, visited, targets[..i]);
    SearchAllFinishes(g, path, visited, targets[..i]);
    SearchAllNext(g, path, visited, targets, i);
    SearchFinishes(g, path, visited + Elements(t.finished), targets[i]);
  }

  /** The node whose edge closes a reported cycle. */
  ghost function Source(c: seq<string>): string
    requires |c| >= 2
  {
    c[|c| - 2]
  }

  /** Every report is closed by a node of `f`, or by the last node of `path`. */
  ghost predicate ClosedBy(cycles: seq<seq<string>>, f: seq<string>, path: seq<string>) {
    forall k :: 0 <= k < |cycles| ==>
      |cycles[k]| >= 2 && (Source(cycles[k]) in f || (path != [] && Source(cycles[k]) == path[|path| - 1]))
  }

  lemma ClosedByBoth(a: seq<seq<string>>, b: seq<seq<string>>, f: seq<string>, h: seq<string>, path: seq<string>)
    requires ClosedBy(a, f, path) && ClosedBy(b, h, path)
    ensures ClosedBy(a + b, f + h, path)
  {
  }

  lemma ClosedInside(cycles: seq<seq<string>>, f: seq<string>, path: seq<string>, n: string)
    requires ClosedBy(cycles, f, path + [n])
    ensures ClosedBy(cycles, f + [n], path)
  {
  }

  lemma {:induction false} SearchCloses(g: Graph<string>, path: seq<string>, visited: set<string>, n: string)
    ensures var t := Search(g, path, visited, n); ClosedBy(t.cycles, t.finished, path)
    ensures n !in path ==> var t := Search(g, path, visited, n); ClosedBy(t.cycles, t.finished, [])
    decreases Nodes(g) - visited, 0
  {
    if n !in path && n !in visited && n in Nodes(g) {
      hide ClosedBy, SearchAll;
      var t := SearchAll(g, path + [n], visited + {n}, Succ(g, n));
      SearchAllCloses(g, path + [n], visited + {n}, Succ(g, n));
      ClosedInside(t.cycles, t.finished, path, n);
      assert [] + [n] == [n];
      ClosedByLast(t.cycles, t.finished, path, n);
    }
  }

  lemma ClosedByLast(cycles: seq<seq<string>>, f: seq<string>, path: seq<string>, n: string)
    requires ClosedBy(cycles, f, path + [n])
    ensures ClosedBy(cycles, f + [n], [])
  {
  }

  lemma {:induction false} SearchAllCloses(g: Graph<string>, path: seq<string>, visited: set<string>, targets: seq<string>)
    ensures var t := SearchAll(g, path, visited, targets); ClosedBy(t.cycles, t.finished, path)
    decreases Nodes(g) - visited, 1, |targets|
  {
    if targets != [] {
      hide ClosedBy, Search;
      var init, d := targets[..|targets| - 1], targets[|targets| - 1];
      var t := SearchAll(g, path, visited, init);
      SearchAllCloses(g, path, visited, init);
      var u := Search(g, path, visited + Elements(t.finished), d);
      SearchCloses(g, path, visited + Elements(t.finished), d);
      ClosedByBoth(t.cycles, u.cycles, t.finished, u.finished, path);
    } else {
      assert SearchAll(g, path, visited, targets).cycles == [];
    }
  }

  /** No report from position `from` on is closed by a node of `f`. */
  ghost predicate ClosedElsewhere(cycles: seq<seq<string>>, from: nat, f: seq<string>) {
    forall k :: from <= k < |cycles| ==> |cycles[k]| >= 2 && Source(cycles[k]) !in f
  }

  lemma ClosedElsewhereMore(a: seq<seq<string>>, b: seq<seq<string>>, from: nat, f: seq<string>, h: seq<string>)
    requires ClosedElsewhere(a, from, f) && ClosedBy(b, h, []) && forall m :: m in h ==> m !in f
    ensures ClosedElsewhere(a + b, from, f)
  {
  }

  lemma {:induction false} LaterReports(g: Graph<string>, roots: seq<string>, i: nat, k: nat)
    requires i <= k <= |roots| && forall d :: d in roots ==> d in Nodes(g)
    ensures
      var early := SearchAll(g, [], {}, roots[..i]);
      ClosedElsewhere(SearchAll(g, [], {}, roots[..k]).cycles, |early.cycles|, early.finished)
    decreases k
  {
    hide Search, SearchAll, ReachesAvoiding, ClosedBy, ClosedElsewhere;
    if i < k {
      var early, t := SearchAll(g, [], {}, roots[..i]), SearchAll(g, [], {}, roots[..k - 1]);
      LaterReports(g, roots, i, k - 1);
      SearchAllNext(g, [], {}, roots, k - 1);
      EarlierComesFirst(g, [], {}, roots, i, k - 1);
      var seen := {} + Elements(t.finished);
      var u := Search(g, [], seen, roots[k - 1]);
      SearchCloses(g, [], seen, roots[k - 1]);
      SearchFinishes(g, [], seen, roots[k - 1]);
      forall m | m in u.finished ensures m !in early.finished {
        AvoidingEnds(g, seen, roots[k - 1], m);
      }
      ClosedElsewhereMore(t.cycles, u.cycles, |early.cycles|, early.finished, u.finished);
    } else {
      NoReports(SearchAll(g, [], {}, roots[..k]));
    }
  }

  lemma NoReports(t: Trace)
    ensures ClosedElsewhere(t.cycles, |t.cycles|, t.finished)
  {
  }

  /** Reports closed by nodes that the first `i` roots reach are made before all others. */
  ghost predicate ReportsInTurn(g: Graph<string>, roots: seq<string>, cycles: seq<seq<string>>) {
    && (forall k :: 0 <= k < |cycles| ==> |cycles[k]| >= 2)
    && forall i, k, l :: 0 <= i <= |roots| && 0 <= k < l < |cycles| && ReachesFromSome(g, {}, roots[..i], Source(cycles[l]))
         ==> ReachesFromSome(g, {}, roots[..i], Source(cycles[k]))
  }

  lemma RootReportsInTurn(g: Graph<string>, roots: seq<string>)
    requires forall d :: d in roots ==> d in Nodes(g)
    ensures ReportsInTurn(g, roots, SearchAll(g, [], {}, roots).cycles)
  {
    hide Search, SearchAll, ReachesFromSome;
    assert roots[..|roots|] == roots;
    var t := SearchAll(g, [], {}, roots);
    SearchAllCloses(g, [], {}, roots);
    forall i, k, l | 0 <= i <= |roots| && 0 <= k < l < |t.cycles| && ReachesFromSome(g, {}, roots[..i], Source(t.cycles[l]))
      ensures ReachesFromSome(g, {}, roots[..i], Source(t.cycles[k]))
    {
      var early := SearchAll(g, [], {}, roots[..i]);
      EarlierComesFirst(g, [], {}, roots, i, |roots|);
      LaterReports(g, roots, i, |roots|);
      SearchAllCloses(g, [], {}, roots[..i]);
      SearchAllFinishes(g, [], {}, roots[..i]);
      assert l < |early.cycles|;
      assert t.cycles[k] == early.cycles[k];
    }
  }

  /** The state after `t` has been added to an earlier one. */
  ghost predicate Adds(t: Trace, visited: set<string>, finished: seq<string>, cycles: seq<seq<string>>,
      visited': set<string>, finished': seq<string>, cycles': seq<seq<string>>) {
    visited' == visited + Elements(t.finished) && finished' == finished + t.finished && cycles' == cycles + t.cycles
  }

  lemma AddsBoth(t: Trace, u: Trace, v0: set<string>, f0: seq<string>, c0: seq<seq<string>>,
      v1: set<string>, f1: seq<string>, c1: seq<seq<string>>, v2: set<string>, f2: seq<string>, c2: seq<seq<string>>)
    requires Adds(t, v0, f0, c0, v1, f1, c1) && Adds(u, v1, f1, c1, v2, f2, c2)
    ensures Adds(Trace(t.finished + u.finished, t.cycles + u.cycles), v0, f0, c0, v2, f2, c2)
    ensures v1 == v0 + Elements(t.finished)
  {
  }

  lemma AddsLast(t: Trace, n: string, v0: set<string>, f0: seq<string>, c0: seq<seq<string>>,
      v1: set<string>, f1: seq<string>, c1: seq<seq<string>>)
    requires Adds(t, v0 + {n}, f0, c0, v1, f1, c1)
    ensures Adds(Trace(t.finished + [n], t.cycles), v0, f0, c0, v1, f1 + [n], c1)
  {
  }

  lemma AddsNothing(g: Graph<string>, path: seq<string>, visited: set<string>, finished: seq<string>, cycles: seq<seq<string>>, n: string)
    ensures n !in path && n in visited ==>
      Adds(Search(g, path, visited, n), visited, finished, cycles, visited, finished, cycles)
    ensures n in path ==>
      Adds(Search(g, path, visited, n), visited, finished, cycles, visited, finished, cycles + [path[FirstIndex(path, n)..] + [n]])
    ensures Adds(SearchAll(g, path, visited, []), visited, finished, cycles, visited, finished, cycles)
  {
  }

  lemma SearchEnters(g: Graph<string>, path: seq<string>, visited: set<string>, n: string)
    requires n !in path && n !in visited && n in Nodes(g)
    ensures
      var t := SearchAll(g, path + [n], visited + {n}, Succ(g, n));
      Search(g, path, visited, n) == Trace(t.finished + [n], t.cycles)
  {
  }

  /** What `Expand` adds to the finish order, in the order of the dependencies. */
  lemma DependenciesInTurn(g: Graph<string>, path: seq<string>, visited: set<string>, n: string, finished: seq<string>, added: seq<string>)
    requires (forall m :: m in path ==> m in visited) && added == SearchAll(g, path, visited, Succ(g, n)).finished
    ensures InTurn(g, visited, Succ(g, n), (finished + added)[|finished|..])
  {
    assert (finished + added)[|finished|..] == added;
    SearchAllInTurn(g, path, visited, Succ(g, n));
  }

  lemma AddsInTurn(g: Graph<string>, path: seq<string>, visited: set<string>, n: string, finished: seq<string>, cycles: seq<seq<string>>,
      visited': set<string>, finished': seq<string>, cycles': seq<seq<string>>)
    requires forall m :: m in path ==> m in visited
    requires Adds(SearchAll(g, path, visited, Succ(g, n)), visited, finished, cycles, visited', finished', cycles')
    ensures finished <= finished' && InTurn(g, visited, Succ(g, n), finished'[|finished|..])
  {
    hide SearchAll, InTurn;
    DependenciesInTurn(g, path, visited, n, finished, SearchAll(g, path, visited, Succ(g, n)).finished);
  }

  lemma RootsInTurn(g: Graph<string>, roots: seq<string>, t: Trace, finished: seq<string>, cycles: seq<seq<string>>,
      visited': set<string>, finished': seq<string>, cycles': seq<seq<string>>)
    requires forall d :: d in roots ==> d in Nodes(g)
    requires t == SearchAll(g, [], {}, roots) && finished == [] && cycles == []
    requires Adds(t, {}, finished, cycles, visited', finished', cycles')
    ensures InTurn(g, {}, roots, finished') && ReportsInTurn(g, roots, cycles')
  {
    assert finished' == t.finished && cycles' == t.cycles;
    SearchAllInTurn(g, [], {}, roots);
    RootReportsInTurn(g, roots);
  }

  ghost predicate ReachedBefore(g: Graph<string>, roots: seq<string>, i: nat)
    requires i < |roots|
  {
    exists k :: 0 <= k < i && Reaches(g, roots[k], roots[i])
  }

  /** `m` stands in `f` no later than `n`. */
  ghost predicate NoLater(f: seq<string>, m: string, n: string) {
    exists k, l :: 0 <= k <= l < |f| && f[k] == m && f[l] == n
  }

  /** A root that no earlier root reaches finishes no earlier than anything it reaches. */
  lemma RootsFinishLast(g: Graph<string>, roots: seq<string>, finished: seq<string>, i: nat, m: string)
    requires Distinct(finished) && InTurn(g, {}, roots, finished) && i < |roots|
    requires Reaches(g, roots[i], m) && !ReachedBefore(g, roots, i)
    ensures NoLater(finished, m, roots[i])
  {
    hide Reaches, ReachesAvoiding;
    forall a, b ensures ReachesAvoiding(g, {}, a, b) <==> Reaches(g, a, b) {
      AvoidingNothing(g, a, b);
    }
    assert FinishFirst(g, {}, roots, i + 1, finished);
    var j :| 0 <= j <= |finished| && Covers(g, {}, roots[..i + 1], finished[..j])
      && (!ReachesFromSome(g, {}, roots[..i], roots[i]) ==> j > 0 && finished[j - 1] == roots[i]);
    assert roots[..i + 1][i] == roots[i];
    assert m in finished[..j];
    var k :| 0 <= k < j && finished[..j][k] == m;
    assert finished[k] == m;
  }

  // ---- The depth-first search ----

  class CycleDetector {
    const graph: Graph<string>
    var visited: set<string>
    /** A Set, in insertion order. */
    var recursionStack: seq<string>
    var cycles: seq<seq<string>>
    /** Nodes in the order their expansion ended. */
    ghost var finished: seq<string>
    /** Number of calls of `Dfs`. */
    ghost var entries: nat

    constructor (g: Graph<string>)
      ensures graph == g && Progress(graph, [], recursionStack, visited, finished)
      ensures visited == {} && cycles == [] && finished == [] && entries == 0
    {
      graph := g;
      visited, recursionStack, cycles := {}, [], [];
      finished, entries := [], 0;
    }

    /** `open` are the edges already reported from nodes on `path`. */
    method Dfs(node: string, path: seq<string>, ghost open: multiset<Edge>)
      requires Progress(graph, path, recursionStack, visited, finished) && node in Nodes(graph)
      requires path != [] ==> node in Succ(graph, path[|path| - 1])
      requires Accounted(graph, cycles, finished, open)
      modifies this
      ensures Progress(graph, path, recursionStack, visited, finished)
      ensures recursionStack == old(recursionStack) && old(visited) + {node} <= visited
      ensures Accounted(graph, cycles, finished,
                open + if node in recursionStack then multiset{(path[|path| - 1], node)} else multiset{})
      ensures entries - OutEdges(graph, finished) == old(entries) - OutEdges(graph, old(finished)) + 1
      ensures Adds(Search(graph, path, old(visited), node), old(visited), old(finished), old(cycles), visited, finished, cycles)
      decreases Nodes(graph) - visited, 0
    {
      hide *;
      ActiveOrFinished(graph, path, recursionStack, visited, finished);
      entries := entries + 1;
      assert open + multiset{} == open;
      AddsNothing(graph, path, visited, finished, cycles, node);
      if node in recursionStack {
        var cycleStart := FirstIndex(path, node);
        AccountReport(graph, cycles, finished, open, path, cycleStart, node);
        cycles := cycles + [path[cycleStart..] + [node]];
        return;
      }
      if node in visited {
        return;
      }
      EnterNode(graph, path, recursionStack, visited, finished, node);
      SearchEnters(graph, path, visited, node);
      ghost var t := SearchAll(graph, path + [node], visited + {node}, Succ(graph, node));
      visited := visited + {node};
      recursionStack := Added(recursionStack, node);
      Expand(node, path + [node], open);
      ActiveOrFinished(graph, path + [node], recursionStack, visited, finished);
      LeaveNode(graph, path, recursionStack, visited, finished, node);
      AccountFinish(graph, cycles, finished, open, recursionStack, node);
      recursionStack := Deleted(recursionStack, node);
      AddsLast(t, node, old(visited), old(finished), old(cycles), visited, finished, cycles);
      finished := finished + [node];
    }

    /** The loop of `Dfs` over the dependencies of `node`, the last node of `path`. */
    method Expand(node: string, path: seq<string>, ghost open: multiset<Edge>)
      requires Progress(graph, path, recursionStack, visited, finished)
      requires path != [] && path[|path| - 1] == node
      requires Accounted(graph, cycles, finished, open)
      modifies this
      ensures Progress(graph, path, recursionStack, visited, finished)
      ensures recursionStack == old(recursionStack) && old(visited) <= visited
      ensures forall d :: d in Succ(graph, node) ==> d in visited
      ensures Accounted(graph, cycles, finished, open + EdgesInto(node, Succ(graph, node), recursionStack))
      ensures entries - OutEdges(graph, finished) == old(entries) - OutEdges(graph, old(finished)) + |Succ(graph, node)|
      ensures Adds(SearchAll(graph, path, old(visited), Succ(graph, node)), old(visited), old(finished), old(cycles),
                visited, finished, cycles)
      ensures old(finished) <= finished && InTurn(graph, old(visited), Succ(graph, node), finished[|old(finished)|..])
      decreases Nodes(graph) - visited, 1
    {
      hide *;
      var dependencies := Succ(graph, node);
      EdgesIntoNone(node, dependencies[..0], recursionStack, open);
      AddsNothing(graph, path, visited, finished, cycles, node);
      ActiveOrFinished(graph, path, recursionStack, visited, finished);
      for i := 0 to |dependencies|
        invariant Progress(graph, path, recursionStack, visited, finished)
        invariant recursionStack == old(recursionStack) && old(visited) <= visited
        invariant forall j :: 0 <= j < i ==> dependencies[j] in visited
        invariant Accounted(graph, cycles, finished, open + EdgesInto(node, dependencies[..i], recursionStack))
        invariant entries - OutEdges(graph, finished) == old(entries) - OutEdges(graph, old(finished)) + i
        invariant Adds(SearchAll(graph, path, old(visited), dependencies[..i]), old(visited), old(finished), old(cycles),
                    visited, finished, cycles)
      {
        var dep := dependencies[i];
        SuccIsNode(graph, node, dep);
        EdgesIntoNext(node, dependencies, i, recursionStack, open);
        ghost var v1, f1, c1 := visited, finished, cycles;
        ghost var t := SearchAll(graph, path, old(visited), dependencies[..i]);
        SearchAllNext(graph, path, old(visited), dependencies, i);
        Dfs(dep, path, open + EdgesInto(node, dependencies[..i], recursionStack));
        AddsBoth(t, Search(graph, path, v1, dep), old(visited), old(finished), old(cycles), v1, f1, c1, visited, finished, cycles);
      }
      assert dependencies[..|dependencies|] == dependencies;
      AddsInTurn(graph, path, old(visited), node, old(finished), old(cycles), visited, finished, cycles);
    }
  }

  /**
   * The whole search. It reports nothing exactly for acyclic graphs; every report is a simple
   * cycle; the closing edges of the reports are, with multiplicity, the back edges of the finish
   * order; each node is expanded once and `Dfs` is entered once per node and once per edge.
   */
  method DetectCircularDependencies(g: ModuleGraph)
    returns (cycles: seq<seq<string>>, ghost finished: seq<string>, ghost entries: nat)
    requires g.Valid()
    ensures cycles == [] <==> Acyclic(g.deps)
    ensures cycles == [] ==> IsTopological(g.deps, finished)
    ensures forall c :: c in cycles ==> IsSimpleCycle(g.deps, c)
    ensures ClosingEdges(cycles) == BackEdges(g.deps, finished)
    ensures Distinct(finished) && forall n :: n in finished <==> n in Nodes(g.deps)
    ensures entries == |g.order| + OutEdges(g.deps, g.order)
    ensures InTurn(g.deps, {}, g.order, finished) && ReportsInTurn(g.deps, g.order, cycles)
    ensures forall i, m :: 0 <= i < |g.order| && !ReachedBefore(g.deps, g.order, i) && Reaches(g.deps, g.order[i], m) ==>
      NoLater(finished, m, g.order[i])
  {
    hide *;
    var search := new CycleDetector(g.deps);
    ghost var none: multiset<Edge> := multiset{};
    NothingYet(g.deps, search.cycles, search.finished);
    OrderIsNodes(g);
    AddsNothing(g.deps, [], search.visited, search.finished, search.cycles, "");
    for i := 0 to |g.order|
      invariant search.graph == g.deps && search.recursionStack == []
      invariant Progress(g.deps, [], [], search.visited, search.finished)
      invariant forall j :: 0 <= j < i ==> g.order[j] in search.visited
      invariant search.entries == i + OutEdges(g.deps, search.finished)
      invariant Accounted(g.deps, search.cycles, search.finished, none)
      invariant Adds(SearchAll(g.deps, [], {}, g.order[..i]), {}, [], [], search.visited, search.finished, search.cycles)
    {
      assert none + multiset{} == none;
      ghost var v1, f1, c1 := search.visited, search.finished, search.cycles;
      ghost var t := SearchAll(g.deps, [], {}, g.order[..i]);
      SearchAllNext(g.deps, [], {}, g.order, i);
      search.Dfs(g.order[i], [], none);
      AddsBoth(t, Search(g.deps, [], v1, g.order[i]), {}, [], [], v1, f1, c1, search.visited, search.finished, search.cycles);
    }
    assert g.order[..|g.order|] == g.order;
    cycles, finished, entries := search.cycles, search.finished, search.entries;
    AllFinished(g, search.visited, finished);
    RootsInTurn(g.deps, g.order, SearchAll(g.deps, [], {}, g.order), [], [], search.visited, finished, cycles);
    forall i, m | 0 <= i < |g.order| && !ReachedBefore(g.deps, g.order, i) && Reaches(g.deps, g.order[i], m)
      ensures NoLater(finished, m, g.order[i])
    {
      RootsFinishLast(g.deps, g.order, finished, i, m);
    }
    NothingReportedIffAcyclic(g, cycles, finished);
  }

  lemma NothingYet(g: Graph<string>, cycles: seq<seq<string>>, finished: seq<string>)
    requires cycles == [] && finished == []
    ensures Accounted(g, cycles, finished, multiset{}) && OutEdges(g, finished) == 0
  {
  }

  lemma OrderIsNodes(g: ModuleGraph)
    requires g.Valid()
    ensures forall i :: 0 <= i < |g.order| ==> g.order[i] in Nodes(g.deps)
  {
    forall i | 0 <= i < |g.order| ensures g.order[i] in Nodes(g.deps) {
      assert g.order[i] in g.order;
    }
  }

  lemma AllFinished(g: ModuleGraph, visited: set<string>, finished: seq<string>)
    requires g.Valid() && Progress(g.deps, [], [], visited, finished)
    requires forall n :: n in g.order ==> n in visited
    ensures Distinct(finished) && forall n :: n in finished <==> n in Nodes(g.deps)
    ensures OutEdges(g.deps, finished) == OutEdges(g.deps, g.order)
  {
    forall n | n in Nodes(g.deps) ensures n in finished {
      if n !in g.deps {
        var m :| m in g.deps && n in g.deps[m];
        assert m in finished && n in Succ(g.deps, m);
      }
    }
    OutEdgesSameNodes(g.deps, finished, g.order);
  }

  lemma NothingReportedIffAcyclic(g: ModuleGraph, cycles: seq<seq<string>>, finished: seq<string>)
    requires Accounted(g.deps, cycles, finished, multiset{})
    requires forall n :: n in finished <==> n in Nodes(g.deps)
    ensures cycles == [] <==> Acyclic(g.deps)
    ensures cycles == [] ==> IsTopological(g.deps, finished)
    ensures forall c :: c in cycles ==> IsSimpleCycle(g.deps, c)
    ensures ClosingEdges(cycles) == BackEdges(g.deps, finished)
  {
    if cycles == [] {
      NoBackEdgesMeansTopological(g.deps, finished);
      TopologicalOrderExcludesCycles(g.deps, finished);
    } else {
      assert IsSimpleCycle(g.deps, cycles[0]);
    }
  }
}
