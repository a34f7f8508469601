/** The dependency checker of the workspace: cycle detection by three-colour depth-first
    search, and the layer rule.

    Wherever the source iterates in sorted order, the model iterates in any order.
 */
module DependencyCheck {

  type Graph = map<string, set<string>>

  /** Dependencies are workspace members: `extract_deps` keeps no others. */
  ghost predicate Closed(g: Graph) {
    forall n, d | n in g && d in g[n] :: d in g
  }

  // ---------------------------------------------------------------- cycles

  ghost predicate Edge(g: Graph, a: string, b: string) {
    a in g && b in g[a]
  }

  ghost predicate Walk(g: Graph, w: seq<string>) {
    forall i | 0 <= i < |w| - 1 :: Edge(g, w[i], w[i + 1])
  }

  ghost predicate ClosedWalk(g: Graph, w: seq<string>) {
    |w| >= 2 && w[0] == w[|w| - 1] && Walk(g, w)
  }

  ghost predicate Acyclic(g: Graph) {
    forall w :: !ClosedWalk(g, w)
  }

  ghost predicate Distinct(s: seq<string>) {
    forall i, j | 0 <= i < j < |s| :: s[i] != s[j]
  }

  /** A reported cycle: a closed walk that repeats no node but its first. */
  ghost predicate SimpleCycle(g: Graph, w: seq<string>) {
    ClosedWalk(g, w) && Distinct(w[..|w| - 1])
  }

  /** An order in which every node comes after all of its dependencies. */
  ghost predicate Topological(g: Graph, order: seq<string>) {
    forall i | 0 <= i < |order| :: order[i] in g && g[order[i]] <= Elements(order[..i])
  }

  function Elements(s: seq<string>): set<string> {
    set x | x in s
  }

  ghost predicate Ranked(g: Graph, rank: string -> int) {
    forall a, b :: Edge(g, a, b) ==> rank(b) < rank(a)
  }

  lemma {:induction false} WalkDescends(g: Graph, rank: string -> int, w: seq<string>)
    requires Ranked(g, rank) && Walk(g, w) && |w| >= 1
    ensures rank(w[|w| - 1]) <= rank(w[0]) - (|w| - 1)
  {
    if |w| > 1 {
      var tail := w[1..];
      forall i | 0 <= i < |tail| - 1 ensures Edge(g, tail[i], tail[i + 1]) {
        assert Edge(g, w[i + 1], w[i + 2]);
      }
      WalkDescends(g, rank, tail);
      assert Edge(g, w[0], w[1]);
    }
  }

  /** A graph whose edges all lead to lower ranks has no closed walk. */
  lemma RankedIsAcyclic(g: Graph, rank: string -> int)
    requires Ranked(g, rank)
    ensures Acyclic(g)
  {
    forall w ensures !ClosedWalk(g, w) {
      if ClosedWalk(g, w) {
        WalkDescends(g, rank, w);
      }
    }
  }

  function Position(s: seq<string>, x: string): (i: nat)
    ensures i <= |s|
    ensures x in s ==> i < |s| && s[i] == x && x !in s[..i]
  {
    if s == [] || s[0] == x then 0
    else
      var i := 1 + Position(s[1..], x);
      assert x in s ==> s[..i] == [s[0]] + s[1..][..i - 1];
      i
  }

  lemma {:induction false} PositionIsFirst(s: seq<string>, x: string, k: nat)
    requires k < |s| && s[k] == x
    ensures Position(s, x) <= k
  {
    if k > 0 && s[0] != x {
      PositionIsFirst(s[1..], x, k - 1);
    }
  }

  lemma TopologicalIsAcyclic(g: Graph, order: seq<string>)
    requires Topological(g, order) && Elements(order) == g.Keys
    ensures Acyclic(g)
  {
    forall a, b | Edge(g, a, b)
      ensures Position(order, b) < Position(order, a)
    {
      assert a in Elements(order);
      var i := Position(order, a);
      assert b in Elements(order[..i]);
      var k :| 0 <= k < i && order[..i][k] == b;
      assert order[k] == b && b in order;
      PositionIsFirst(order, b, k);
    }
    RankedIsAcyclic(g, x => Position(order, x));
  }

  datatype Color = White | Gray | Black

  function Colored(color: map<string, Color>, c: Color): set<string> {
    set n | n in color && color[n] == c
  }

  /** The variables of the search; `finished` lists the black nodes in the order in which
      they became black. */
  datatype Search = Search(color: map<string, Color>, path: seq<string>, cycles: seq<seq<string>>, finished: seq<string>) {
    function Of(c: Color): set<string> { Colored(color, c) }
  }

  ghost predicate Good(g: Graph, s: Search) {
    && s.color.Keys == g.Keys
    && Elements(s.path) == s.Of(Gray) && Distinct(s.path) && Walk(g, s.path)
    && Elements(s.finished) == s.Of(Black)
    && (forall i | 0 <= i < |s.cycles| :: SimpleCycle(g, s.cycles[i]))
    && (s.cycles == [] ==> Topological(g, s.finished))
  }

  function Enter(s: Search, node: string): Search {
    s.(color := s.color[node := Gray], path := s.path + [node])
  }

  function Report(s: Search, cycle: seq<string>): Search {
    s.(cycles := s.cycles + [cycle])
  }

  function Leave(s: Search, node: string): Search
    requires s.path != []
  {
    s.(color := s.color[node := Black], path := s.path[..|s.path| - 1], finished := s.finished + [node])
  }

  /** What a visit leaves as it found it, and in which direction the rest can change. */
  ghost predicate Progress(before: Search, after: Search) {
    && after.path == before.path && after.Of(Gray) == before.Of(Gray)
    && before.Of(Black) <= after.Of(Black) && after.Of(White) <= before.Of(White)
    && before.cycles <= after.cycles
  }

  lemma ProgressTransitive(a: Search, b: Search, c: Search)
    requires Progress(a, b) && Progress(b, c)
    ensures Progress(a, c)
  {
  }

  lemma ReportProgress(s: Search, cycle: seq<string>)
    ensures Progress(s, Report(s, cycle)) && Report(s, cycle).cycles != []
  {
  }

  /** The whole visit of a node: enter, visit the dependencies, leave. */
  lemma VisitProgress(g: Graph, before: Search, s: Search, node: string)
    requires Good(g, before) && node in before.Of(White)
    requires before.path != [] ==> Edge(g, before.path[|before.path| - 1], node)
    requires Good(g, s) && Progress(Enter(before, node), s)
    requires s.cycles == [] ==> g[node] <= s.Of(Black)
    ensures Good(g, Leave(s, node)) && Progress(before, Leave(s, node)) && node in Leave(s, node).Of(Black)
  {
    hide Topological, SimpleCycle, Walk, Distinct;
    EnterGood(g, before, node);
    LeaveGood(g, s, before.path, node);
    assert node !in before.Of(Gray);
  }

  lemma EnterGood(g: Graph, s: Search, node: string)
    requires Good(g, s) && node in s.Of(White)
    requires s.path != [] ==> Edge(g, s.path[|s.path| - 1], node)
    ensures Good(g, Enter(s, node))
    ensures Enter(s, node).Of(White) == s.Of(White) - {node}
    ensures Enter(s, node).Of(Gray) == s.Of(Gray) + {node}
    ensures Enter(s, node).Of(Black) == s.Of(Black)
  {
    hide Topological, SimpleCycle;
    assert node !in Elements(s.path);
    Entered(g, s.path, node);
  }

  lemma ReportGood(g: Graph, s: Search, dep: string)
    requires Good(g, s) && dep in s.Of(Gray) && s.path != []
    requires Edge(g, s.path[|s.path| - 1], dep)
    ensures dep in s.path && Good(g, Report(s, s.path[Position(s.path, dep)..] + [dep]))
  {
    hide Topological, SimpleCycle;
    assert dep in Elements(s.path);
    Found(g, s.path, Position(s.path, dep), dep);
  }

  lemma LeaveGood(g: Graph, s: Search, before: seq<string>, node: string)
    requires Good(g, s) && s.path == before + [node] && node in g
    requires s.cycles == [] ==> g[node] <= s.Of(Black)
    ensures Good(g, Leave(s, node)) && Leave(s, node).path == before
    ensures Leave(s, node).Of(White) == s.Of(White)
    ensures Leave(s, node).Of(Gray) == s.Of(Gray) - {node}
    ensures Leave(s, node).Of(Black) == s.Of(Black) + {node}
  {
    hide Topological, SimpleCycle, Walk;
    assert node in s.path;
    assert node in s.Of(Gray) by { assert node in Elements(s.path); }
    Left(g, before, node);
    Finished(g, s.finished, node);
    Finished(g, before, node);
    assert Elements(before) == s.Of(Gray) - {node};
  }

  class CycleDetector {
    const graph: Graph
    var color: map<string, Color>
    var path: seq<string>
    var cycles: seq<seq<string>>
    ghost var finished: seq<string>

    ghost function Value(): Search
      reads this
    {
      Search(color, path, cycles, finished)
    }

    constructor (graph: Graph)
      ensures this.graph == graph && Good(graph, Value())
      ensures Value().Of(White) == graph.Keys && path == [] && cycles == []
    {
      this.graph := graph;
      color := map n | n in graph :: White;
      path, cycles, finished := [], [], [];
    }

    method Dfs(node: string)
      requires Closed(graph) && Good(graph, Value()) && node in Value().Of(White)
      requires path != [] ==> Edge(graph, path[|path| - 1], node)
      modifies this
      ensures Good(graph, Value()) && Progress(old(Value()), Value())
      ensures node in Value().Of(Black)
      decreases |Value().Of(White)|
    {
      hide Good, Progress, Colored, Position, Enter, Leave, Report;
      ghost var entered := Enter(Value(), node);
      EnterGood(graph, Value(), node);
      Members(graph, Value());
      color := color[node := Gray];
      path := path + [node];
      EnterMeans(old(Value()), node);
      ProgressStarts(entered);
      var remaining := graph[node];
      while remaining != {}
        invariant Good(graph, Value()) && Progress(entered, Value())
        invariant remaining <= graph[node]
        invariant cycles == [] ==> graph[node] - remaining <= Value().Of(Black)
        decreases remaining
      {
        ghost var before := Value();
        var dep :| dep in remaining;
        remaining := remaining - {dep};
        Members(graph, before);
        ColorOf(before, dep);
        ProgressMeans(entered, before);
        if color[dep] == Gray {
          ReportGood(graph, before, dep);
          var idx := Position(path, dep);
          ReportProgress(before, path[idx..] + [dep]);
          cycles := cycles + [path[idx..] + [dep]];
          ReportMeans(before, path[idx..] + [dep]);
          ProgressTransitive(entered, before, Value());
        } else if color[dep] == White {
          SmallerSet(before.Of(White), old(Value().Of(White)), node);
          Dfs(dep);
          ProgressMeans(before, Value());
          ProgressTransitive(entered, before, Value());
        }
      }
      VisitProgress(graph, old(Value()), Value(), node);
      ProgressMeans(entered, Value());
      ghost var visited := Value();
      path := path[..|path| - 1];
      color := color[node := Black];
      finished := finished + [node];
      LeaveMeans(visited, node);
    }

    method Detect()
      requires Closed(graph) && Good(graph, Value()) && path == [] && cycles == []
      modifies this
      ensures Good(graph, Value())
      ensures forall i | 0 <= i < |cycles| :: SimpleCycle(graph, cycles[i])
      ensures cycles == [] <==> Acyclic(graph)
    {
      hide Topological, SimpleCycle;
      var remaining := graph.Keys;
      while remaining != {}
        invariant Good(graph, Value()) && path == [] && remaining <= graph.Keys
        invariant graph.Keys - remaining <= Value().Of(Black)
        decreases remaining
      {
        var node :| node in remaining;
        remaining := remaining - {node};
        if color[node] == White {
          Dfs(node);
        } else {
          assert node !in Elements(path);
        }
      }
      assert Value().Of(Black) == graph.Keys;
      if cycles == [] {
        TopologicalIsAcyclic(graph, finished);
      } else {
        CycleIsClosedWalk(graph, cycles[0]);
      }
    }
  }

  lemma EnterMeans(s: Search, node: string)
    ensures Enter(s, node) == Search(s.color[node := Gray], s.path + [node], s.cycles, s.finished)
  {
  }

  lemma ReportMeans(s: Search, cycle: seq<string>)
    ensures Report(s, cycle) == Search(s.color, s.path, s.cycles + [cycle], s.finished)
  {
  }

  lemma LeaveMeans(s: Search, node: string)
    requires s.path != []
    ensures Leave(s, node)
         == Search(s.color[node := Black], s.path[..|s.path| - 1], s.cycles, s.finished + [node])
  {
  }

  lemma ColorOf(s: Search, n: string)
    requires n in s.color
    ensures n in s.Of(s.color[n])
  {
  }

  lemma CycleIsClosedWalk(g: Graph, w: seq<string>)
    requires SimpleCycle(g, w)
    ensures !Acyclic(g)
  {
    assert ClosedWalk(g, w);
  }

  lemma ProgressStarts(s: Search)
    ensures Progress(s, s)
  {
  }

  lemma ProgressMeans(a: Search, b: Search)
    requires Progress(a, b)
    ensures b.path == a.path && a.Of(Black) <= b.Of(Black) && b.Of(White) <= a.Of(White) && a.cycles <= b.cycles
  {
  }

  lemma Members(g: Graph, s: Search)
    requires Good(g, s)
    ensures s.color.Keys == g.Keys
    ensures forall c :: s.Of(c) <= g.Keys
  {
  }

  lemma SmallerSet(a: set<string>, b: set<string>, x: string)
    requires a <= b - {x} && x in b
    ensures |a| < |b|
  {
    Subset(a, b - {x});
    assert |b - {x}| == |b| - 1;
  }

  lemma {:induction false} Subset(a: set<string>, b: set<string>)
    requires a <= b
    ensures |a| <= |b|
  {
    if a != {} {
      var x :| x in a;
      Subset(a - {x}, b - {x});
    }
  }

  /** Entering a white node keeps the path a walk of distinct nodes. */
  lemma Entered(g: Graph, path: seq<string>, node: string)
    requires Distinct(path) && Walk(g, path) && node !in path
    requires path != [] ==> Edge(g, path[|path| - 1], node)
    ensures Distinct(path + [node]) && Walk(g, path + [node])
    ensures Elements(path + [node]) == Elements(path) + {node}
  {
    var p := path + [node];
    forall i | 0 <= i < |p| - 1 ensures Edge(g, p[i], p[i + 1]) {
      if i < |path| - 1 { assert Edge(g, path[i], path[i + 1]); }
    }
  }

  lemma Left(g: Graph, path: seq<string>, node: string)
    requires Distinct(path + [node]) && Walk(g, path + [node])
    ensures (path + [node])[..|path|] == path
    ensures Distinct(path) && Walk(g, path) && node !in path
  {
    var p := path + [node];
    assert p[..|path|] == path;
    forall i | 0 <= i < |path| - 1 ensures Edge(g, path[i], path[i + 1]) {
      assert Edge(g, p[i], p[i + 1]);
    }
    forall i | 0 <= i < |path| ensures path[i] != node {
      assert p[i] != p[|path|];
    }
    forall i, j | 0 <= i < j < |path| ensures path[i] != path[j] {
      assert p[i] != p[j];
    }
  }

  lemma Finished(g: Graph, order: seq<string>, node: string)
    ensures Elements(order + [node]) == Elements(order) + {node}
    ensures Topological(g, order) && node in g && g[node] <= Elements(order) ==> Topological(g, order + [node])
  {
    var o := order + [node];
    if Topological(g, order) && node in g && g[node] <= Elements(order) {
      forall i | 0 <= i < |o| ensures o[i] in g && g[o[i]] <= Elements(o[..i]) {
        if i < |order| {
          assert o[i] == order[i] && o[..i] == order[..i];
        } else {
          assert o[..i] == order;
        }
      }
    }
  }

  /** An edge from the end of the path back into it closes a simple cycle. */
  lemma Found(g: Graph, path: seq<string>, idx: nat, dep: string)
    requires Distinct(path) && Walk(g, path) && idx < |path| && path[idx] == dep
    requires Edge(g, path[|path| - 1], dep)
    ensures SimpleCycle(g, path[idx..] + [dep])
  {
    var w := path[idx..] + [dep];
    forall i | 0 <= i < |w| - 1 ensures Edge(g, w[i], w[i + 1]) {
      if i < |w| - 2 { assert Edge(g, path[idx + i], path[idx + i + 1]); }
    }
    var init := w[..|w| - 1];
    assert init == path[idx..];
    forall i, j | 0 <= i < j < |init| ensures init[i] != init[j] {
      assert path[idx + i] != path[idx + j];
    }
  }

  // ---------------------------------------------------------------- layers

  type Layers = map<string, nat>
  type Pairs = set<(string, string)>

  /** The layer rule for one dependency. */
  predicate Violates(layers: Layers, allowed: Pairs, crate: string, dep: string)
    requires crate in layers && dep in layers
  {
    layers[dep] >= layers[crate] && (crate, dep) !in allowed
  }

  method LayerViolations(g: Graph, layers: Layers, allowed: Pairs) returns (violations: seq<(string, string)>)
    requires Closed(g) && g.Keys <= layers.Keys
    ensures forall a, b :: (a, b) in violations <==> Edge(g, a, b) && Violates(layers, allowed, a, b)
    ensures forall a, b :: (a, b) in violations <==>
              a in g && b in g[a] && !(layers[b] < layers[a]) && (a, b) !in allowed
  {
    violations := [];
    var crates := g.Keys;
    while crates != {}
      invariant crates <= g.Keys
      invariant forall a, b :: (a, b) in violations <==> a !in crates && Edge(g, a, b) && Violates(layers, allowed, a, b)
      decreases crates
    {
      var crate :| crate in crates;
      var deps := g[crate];
      ghost var before := violations;
      while deps != {}
        invariant deps <= g[crate]
        invariant forall a, b :: (a, b) in violations <==>
                    || (a, b) in before
                    || (a == crate && b in g[crate] - deps && Violates(layers, allowed, a, b))
        decreases deps
      {
        var dep :| dep in deps;
        deps := deps - {dep};
        if layers[dep] >= layers[crate] {
          if (crate, dep) !in allowed {
            violations := violations + [(crate, dep)];
          }
        }
      }
      crates := crates - {crate};
    }
  }

  /** The exceptions stay inside one layer, and none starts where another ends. */
  ghost predicate HarmlessExceptions(layers: Layers, allowed: Pairs) {
    && (forall a, b | (a, b) in allowed && a in layers && b in layers :: layers[b] == layers[a])
    && (forall a, b, c | (a, b) in allowed :: (b, c) !in allowed)
  }

  ghost function LayerRank(layers: Layers, allowed: Pairs): string -> int {
    x => if x !in layers then 0 else 2 * layers[x] + (if exists y :: (x, y) in allowed then 1 else 0)
  }

  /** A graph that passes the layer rule has no cycle, so cycle detection has nothing left
      to report about it. */
  lemma LayersExcludeCycles(g: Graph, layers: Layers, allowed: Pairs)
    requires Closed(g) && g.Keys <= layers.Keys && HarmlessExceptions(layers, allowed)
    requires forall a, b | Edge(g, a, b) :: !Violates(layers, allowed, a, b)
    ensures Acyclic(g)
  {
    var rank := LayerRank(layers, allowed);
    forall a, b | Edge(g, a, b) ensures rank(b) < rank(a) {
      assert !Violates(layers, allowed, a, b);
      if (a, b) in allowed {
        assert layers[b] == layers[a];
        assert forall c :: (b, c) !in allowed;
      }
    }
    RankedIsAcyclic(g, rank);
  }

  const ALLOWED_SAME_LAYER: Pairs :=
    {("astrcode-core", "astrcode-paths"), ("astrcode-s5r-runtime", "astrcode-extension-sdk")}

  /** The exceptions in force are harmless for every layering that keeps each pair together. */
  lemma AllowedExceptionsAreHarmless(layers: Layers)
    requires {"astrcode-core", "astrcode-paths", "astrcode-s5r-runtime", "astrcode-extension-sdk"} <= layers.Keys
    requires layers["astrcode-core"] == layers["astrcode-paths"]
    requires layers["astrcode-s5r-runtime"] == layers["astrcode-extension-sdk"]
    ensures HarmlessExceptions(layers, ALLOWED_SAME_LAYER)
  {
    assert |"astrcode-core"| == 13 && |"astrcode-paths"| == 14;
    assert |"astrcode-s5r-runtime"| == 20 && |"astrcode-extension-sdk"| == 22;
  }
}
