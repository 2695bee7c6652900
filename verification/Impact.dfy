/** The dependency impact walk: breadth first over the declared graph, with cycles through the root. */
module Impact {
  import opened Prelude
  import opened Sorting
  import Decimal

  datatype Node = Node(id: string, kind: string, dependsOn: seq<string>, restricted: bool)

  datatype Direction = Dependents | Dependencies

  function Known(nodes: seq<Node>): set<string> { set n | n in nodes :: n.id }

  /** A declared dependency, read in the walk's direction. */
  ghost predicate Declared(nodes: seq<Node>, dir: Direction, from: string, to: string)
  {
    exists n | n in nodes :: Points(n, dir, from, to)
  }

  predicate Points(n: Node, dir: Direction, from: string, to: string)
  {
    if dir.Dependencies? then n.id == from && to in n.dependsOn else n.id == to && from in n.dependsOn
  }

  /** An edge of the walk: declared, and leading to a known resource. */
  ghost predicate Edge(nodes: seq<Node>, dir: Direction, from: string, to: string)
  {
    Declared(nodes, dir, from, to) && to in Known(nodes)
  }

  // ---------------------------------------------------------------- the edge map

  function Out(edges: map<string, seq<string>>, id: string): seq<string> { if id in edges then edges[id] else [] }

  /** The edge map holds these edges and those of the node's first `j` dependencies. */
  ghost predicate Filled(edges: map<string, seq<string>>, before: map<string, seq<string>>, node: Node, dir: Direction, j: nat)
    requires j <= |node.dependsOn|
  {
    forall u, w :: w in Out(edges, u) <==> w in Out(before, u) || Points(node.(dependsOn := node.dependsOn[..j]), dir, u, w)
  }

  function From(node: Node, dir: Direction, target: string): string { if dir.Dependencies? then node.id else target }

  function To(node: Node, dir: Direction, target: string): string { if dir.Dependencies? then target else node.id }

  lemma FillOne(edges: map<string, seq<string>>, before: map<string, seq<string>>, node: Node, dir: Direction, j: nat)
    requires j < |node.dependsOn| && Filled(edges, before, node, dir, j)
    ensures var from, to := From(node, dir, node.dependsOn[j]), To(node, dir, node.dependsOn[j]);
      Filled(edges[from := Out(edges, from) + [to]], before, node, dir, j + 1)
  {
    var from, to := From(node, dir, node.dependsOn[j]), To(node, dir, node.dependsOn[j]);
    var edges' := edges[from := Out(edges, from) + [to]];
    assert node.dependsOn[..j + 1] == node.dependsOn[..j] + [node.dependsOn[j]];
    forall u, w ensures w in Out(edges', u) <==> w in Out(before, u) || Points(node.(dependsOn := node.dependsOn[..j + 1]), dir, u, w) {
      assert w in Out(edges', u) <==> w in Out(edges, u) || (u == from && w == to);
      assert w in Out(edges, u) <==> w in Out(before, u) || Points(node.(dependsOn := node.dependsOn[..j]), dir, u, w);
    }
  }

  /** The edge map as the two loops fill it. */
  method BuildEdges(nodes: seq<Node>, dir: Direction) returns (edges: map<string, seq<string>>)
    ensures forall u, w :: w in Out(edges, u) <==> Declared(nodes, dir, u, w)
  {
    edges := map[];
    for i := 0 to |nodes|
      invariant forall u, w :: w in Out(edges, u) <==> Declared(nodes[..i], dir, u, w)
    {
      var node := nodes[i];
      ghost var before := edges;
      for j := 0 to |node.dependsOn|
        invariant Filled(edges, before, node, dir, j)
      {
        FillOne(edges, before, node, dir, j);
        var from, to := From(node, dir, node.dependsOn[j]), To(node, dir, node.dependsOn[j]);
        edges := edges[from := Out(edges, from) + [to]];
      }
      assert node.dependsOn[..|node.dependsOn|] == node.dependsOn;
      DeclaredGrows(nodes, i, dir);
    }
    assert nodes[..|nodes|] == nodes;
  }

  lemma DeclaredGrows(nodes: seq<Node>, i: nat, dir: Direction)
    requires i < |nodes|
    ensures forall u, w :: Declared(nodes[..i + 1], dir, u, w) <==> Declared(nodes[..i], dir, u, w) || Points(nodes[i], dir, u, w)
  {
    assert nodes[..i + 1] == nodes[..i] + [nodes[i]];
    assert forall n :: n in nodes[..i + 1] <==> n in nodes[..i] || n == nodes[i];
  }

  function Filter(ids: seq<string>, known: set<string>): seq<string>
  {
    if ids == [] then [] else (if ids[0] in known then [ids[0]] else []) + Filter(ids[1..], known)
  }

  lemma {:induction false} FilterMembers(ids: seq<string>, known: set<string>, x: string)
    ensures x in Filter(ids, known) <==> x in ids && x in known
  {
    if ids != [] { FilterMembers(ids[1..], known, x); }
  }

  /** The neighbours of a resource, sorted. */
  function Next(edges: map<string, seq<string>>, known: set<string>, id: string): seq<string>
  {
    Sort(Less, Filter(Out(edges, id), known))
  }

  ghost predicate Adjacent(next: string -> seq<string>, u: string, w: string)
  {
    w in next(u)
  }

  /** The walk's neighbour function, as the source closes it over the edge map. */
  function Neighbours(edges: map<string, seq<string>>, known: set<string>): string -> seq<string>
  {
    id => Next(edges, known, id)
  }

  lemma AdjacentIsEdge(nodes: seq<Node>, dir: Direction, edges: map<string, seq<string>>, u: string, w: string)
    requires forall u, w :: w in Out(edges, u) <==> Declared(nodes, dir, u, w)
    ensures Adjacent(Neighbours(edges, Known(nodes)), u, w) <==> Edge(nodes, dir, u, w)
  {
    SortMembers(Less, Filter(Out(edges, u), Known(nodes)), w);
    FilterMembers(Out(edges, u), Known(nodes), w);
  }

  // ---------------------------------------------------------------- paths

  /** A walk along edges. */
  ghost predicate Path(next: string -> seq<string>, p: seq<string>)
  {
    p != [] && forall i | 0 <= i < |p| - 1 :: Adjacent(next, p[i], p[i + 1])
  }

  ghost predicate PathTo(next: string -> seq<string>, root: string, v: string, p: seq<string>)
  {
    Path(next, p) && p[0] == root && p[|p| - 1] == v
  }

  ghost predicate ClosedWalk(next: string -> seq<string>, root: string, c: seq<string>)
  {
    |c| >= 2 && PathTo(next, root, root, c)
  }

  lemma ExtendPath(next: string -> seq<string>, root: string, u: string, p: seq<string>, v: string)
    requires PathTo(next, root, u, p) && Adjacent(next, u, v)
    ensures PathTo(next, root, v, p + [v])
  {
    var longer := p + [v];
    forall i | 0 <= i < |longer| - 1 ensures Adjacent(next, longer[i], longer[i + 1]) {
      if i < |p| - 1 { assert Adjacent(next, p[i], p[i + 1]); }
    }
  }

  // ---------------------------------------------------------------- the walk

  datatype Walk = Walk(depths: map<string, nat>, parents: map<string, string>, queue: seq<string>, cycles: seq<seq<string>>)

  function StartAt(root: string): Walk { Walk(map[root := 0], map[], [root], []) }

  function Discover(w: Walk, current: string, to: string): Walk
    requires current in w.depths
  {
    w.(depths := w.depths[to := w.depths[current] + 1], parents := w.parents[to := current], queue := w.queue + [to])
  }

  /** Every discovered resource but the root hangs one level below its parent. */
  ghost predicate Child(next: string -> seq<string>, w: Walk, v: string)
    requires v in w.depths
  {
    && v in w.parents && w.parents[v] in w.depths && Adjacent(next, w.parents[v], v)
    && w.depths[v] == w.depths[w.parents[v]] + 1
  }

  ghost predicate Tree(next: string -> seq<string>, root: string, w: Walk)
  {
    && root in w.depths && w.depths[root] == 0
    && forall v | v in w.depths :: v == root || Child(next, w, v)
  }

  /** The queue lists the discovered resources once each, level by level. */
  ghost predicate Queued(w: Walk)
  {
    && (forall i | 0 <= i < |w.queue| :: w.queue[i] in w.depths)
    && (forall v | v in w.depths :: v in w.queue)
    && (forall i, j | 0 <= i < j < |w.queue| :: w.queue[i] != w.queue[j] && w.depths[w.queue[i]] <= w.depths[w.queue[j]])
  }

  /** Nothing in the queue is more than one level below `current`. */
  ghost predicate Near(w: Walk, current: string)
    requires current in w.depths
  {
    forall i | 0 <= i < |w.queue| && w.queue[i] in w.depths :: w.depths[w.queue[i]] <= w.depths[current] + 1
  }

  ghost predicate Reached(w: Walk, u: string, x: string)
    requires u in w.depths
  {
    x in w.depths && w.depths[x] <= w.depths[u] + 1
  }

  /** Every neighbour of the first `index` resources is discovered, at most one level below. */
  ghost predicate Explored(next: string -> seq<string>, root: string, w: Walk, index: nat)
    requires index <= |w.queue| && Queued(w)
  {
    forall i, x | 0 <= i < index && Adjacent(next, w.queue[i], x) ::
      Reached(w, w.queue[i], x) && (x == root ==> w.cycles != [])
  }

  ghost predicate CyclesReal(next: string -> seq<string>, root: string, w: Walk)
  {
    forall i | 0 <= i < |w.cycles| :: ClosedWalk(next, root, w.cycles[i])
  }

  ghost predicate Walking(next: string -> seq<string>, root: string, w: Walk, index: nat)
  {
    && Tree(next, root, w) && Queued(w) && index <= |w.queue|
    && Explored(next, root, w, index) && CyclesReal(next, root, w)
    && (index < |w.queue| ==> Near(w, w.queue[index]))
  }

  lemma DiscoverKeepsTree(next: string -> seq<string>, root: string, w: Walk, current: string, to: string)
    requires Tree(next, root, w) && current in w.depths && to !in w.depths && Adjacent(next, current, to)
    ensures Tree(next, root, Discover(w, current, to))
  {
    var w' := Discover(w, current, to);
    forall v | v in w'.depths ensures v == root || Child(next, w', v) {
      if v != to && v != root { assert Child(next, w, v); }
    }
  }

  lemma DiscoverKeepsQueue(w: Walk, current: string, to: string)
    requires Queued(w) && current in w.depths && to !in w.depths && Near(w, current)
    ensures var w' := Discover(w, current, to); Queued(w') && Near(w', current)
  {
    var w' := Discover(w, current, to);
    forall v | v in w'.depths ensures v in w'.queue {
      if v == to { assert w'.queue[|w.queue|] == to; } else { assert v in w.queue; }
    }
    forall i | 0 <= i < |w'.queue|
      ensures w'.queue[i] in w'.depths && w'.depths[w'.queue[i]] <= w'.depths[current] + 1
    {
      assert i < |w.queue| ==> w'.queue[i] == w.queue[i] && w.queue[i] in w.depths;
    }
    forall i, j | 0 <= i < j < |w'.queue|
      ensures w'.queue[i] != w'.queue[j] && w'.depths[w'.queue[i]] <= w'.depths[w'.queue[j]]
    {
      assert w'.queue[i] == w.queue[i] && w.queue[i] in w.depths;
      assert j < |w.queue| ==> w'.queue[j] == w.queue[j] && w.queue[j] in w.depths;
    }
  }

  lemma DiscoverKeepsExplored(next: string -> seq<string>, root: string, w: Walk, current: string, to: string, index: nat)
    requires Queued(w) && index <= |w.queue| && current in w.depths && to !in w.depths
    requires Queued(Discover(w, current, to)) && Explored(next, root, w, index)
    ensures Explored(next, root, Discover(w, current, to), index)
  {
    var w' := Discover(w, current, to);
    forall i, x | 0 <= i < index && Adjacent(next, w'.queue[i], x)
      ensures Reached(w', w'.queue[i], x) && (x == root ==> w'.cycles != [])
    {
      assert w'.queue[i] == w.queue[i] && Adjacent(next, w.queue[i], x);
    }
  }

  /** The parents of `v` up to the root, root first. */
  ghost function Trail(next: string -> seq<string>, root: string, w: Walk, v: string): seq<string>
    requires Tree(next, root, w) && v in w.depths
    decreases w.depths[v]
  {
    if v == root then [root]
    else assert Child(next, w, v); Trail(next, root, w, w.parents[v]) + [v]
  }

  /** The trail is a path of edges, and the depth is its length. */
  lemma {:induction false} TrailIsPath(next: string -> seq<string>, root: string, w: Walk, v: string)
    requires Tree(next, root, w) && v in w.depths
    ensures var p := Trail(next, root, w, v); PathTo(next, root, v, p) && |p| == w.depths[v] + 1
    decreases w.depths[v]
  {
    if v != root {
      assert Child(next, w, v);
      TrailIsPath(next, root, w, w.parents[v]);
      ExtendPath(next, root, w.parents[v], Trail(next, root, w, w.parents[v]), v);
    }
  }

  /** The chain loop: from `current` up the parents, reversed. */
  method ChainTo(next: string -> seq<string>, root: string, w: Walk, current: string)
    returns (chain: seq<string>)
    requires Tree(next, root, w) && current in w.depths
    ensures [root] + chain == Trail(next, root, w, current)
  {
    chain := [];
    var step := current;
    while step != root
      invariant step in w.depths
      invariant Trail(next, root, w, step) + chain == Trail(next, root, w, current)
      decreases w.depths[step]
    {
      assert Child(next, w, step);
      ghost var shorter := Trail(next, root, w, w.parents[step]);
      assert shorter + [step] + chain == shorter + ([step] + chain);
      chain := [step] + chain;
      step := w.parents[step];
    }
  }

  /** What the scan of `current`'s neighbours has done after `k` of them. */
  ghost predicate Scanned(next: string -> seq<string>, root: string, w: Walk, index: nat, k: nat)
  {
    && Tree(next, root, w) && Queued(w) && index < |w.queue| && k <= |next(w.queue[index])|
    && Explored(next, root, w, index) && CyclesReal(next, root, w) && Near(w, w.queue[index])
    && forall m | 0 <= m < k ::
         Reached(w, w.queue[index], next(w.queue[index])[m]) && (next(w.queue[index])[m] == root ==> w.cycles != [])
  }

  lemma ScanDone(next: string -> seq<string>, root: string, w: Walk, index: nat)
    requires index < |w.queue| && Scanned(next, root, w, index, |next(w.queue[index])|)
    ensures Walking(next, root, w, index + 1)
  {
    var current := w.queue[index];
    forall i, x | 0 <= i < index + 1 && Adjacent(next, w.queue[i], x)
      ensures Reached(w, w.queue[i], x) && (x == root ==> w.cycles != [])
    {
      if i == index { var m :| 0 <= m < |next(current)| && next(current)[m] == x; }
    }
    if index + 1 < |w.queue| { assert w.depths[current] <= w.depths[w.queue[index + 1]]; }
  }

  lemma ScanRoot(next: string -> seq<string>, root: string, w: Walk, index: nat, k: nat, chain: seq<string>)
    requires Scanned(next, root, w, index, k) && k < |next(w.queue[index])| && next(w.queue[index])[k] == root
    requires [root] + chain == Trail(next, root, w, w.queue[index])
    ensures Scanned(next, root, w.(cycles := w.cycles + [[root] + chain + [root]]), index, k + 1)
  {
    var current := w.queue[index];
    TrailIsPath(next, root, w, current);
    assert Adjacent(next, current, root);
    ExtendPath(next, root, current, [root] + chain, root);
    var w' := w.(cycles := w.cycles + [[root] + chain + [root]]);
    assert Tree(next, root, w') by {
      forall v | v in w'.depths ensures v == root || Child(next, w', v) { assert v == root || Child(next, w, v); }
    }
    forall i, x | 0 <= i < index && Adjacent(next, w'.queue[i], x)
      ensures Reached(w', w'.queue[i], x) && (x == root ==> w'.cycles != [])
    {
      assert Reached(w, w.queue[i], x);
    }
    forall m | 0 <= m < k + 1 ensures Reached(w', current, next(current)[m]) {
      if m < k { assert Reached(w, current, next(current)[m]); }
    }
  }

  lemma ScanNew(next: string -> seq<string>, root: string, w: Walk, index: nat, k: nat)
    requires Scanned(next, root, w, index, k) && k < |next(w.queue[index])| && next(w.queue[index])[k] !in w.depths
    ensures Scanned(next, root, Discover(w, w.queue[index], next(w.queue[index])[k]), index, k + 1)
  {
    var current := w.queue[index];
    var to := next(current)[k];
    var w' := Discover(w, current, to);
    assert Adjacent(next, current, to);
    DiscoverKeepsTree(next, root, w, current, to);
    DiscoverKeepsQueue(w, current, to);
    DiscoverKeepsExplored(next, root, w, current, to, index);
    forall m | 0 <= m < k + 1 ensures Reached(w', current, next(current)[m]) {
      if m < k { assert Reached(w, current, next(current)[m]); }
    }
  }

  lemma ScanOld(next: string -> seq<string>, root: string, w: Walk, index: nat, k: nat)
    requires Scanned(next, root, w, index, k) && k < |next(w.queue[index])|
    requires next(w.queue[index])[k] in w.depths && next(w.queue[index])[k] != root
    ensures Scanned(next, root, w, index, k + 1)
  {
    var to := next(w.queue[index])[k];
    assert to in w.queue;
    var i :| 0 <= i < |w.queue| && w.queue[i] == to;
  }

  /** The breadth-first loop, with the cycles through the root rebuilt from the parents. */
  method BreadthFirst(next: string -> seq<string>, known: set<string>, root: string) returns (w: Walk)
    requires root in known && forall u, x | Adjacent(next, u, x) :: x in known
    ensures Walking(next, root, w, |w.queue|)
  {
    w := StartAt(root);
    var index := 0;
    while index < |w.queue|
      invariant Walking(next, root, w, index)
      invariant forall v | v in w.depths :: v in known
      decreases known - (set i | 0 <= i < index :: w.queue[i])
    {
      var current := w.queue[index];
      ghost var queue0 := w.queue;
      for k := 0 to |next(current)|
        invariant index < |w.queue| && w.queue[index] == current && queue0 <= w.queue
        invariant Scanned(next, root, w, index, k)
        invariant forall v | v in w.depths :: v in known
      {
        var to := next(current)[k];
        assert Adjacent(next, current, to);
        if to == root {
          var chain := ChainTo(next, root, w, current);
          ScanRoot(next, root, w, index, k, chain);
          w := w.(cycles := w.cycles + [[root] + chain + [root]]);
        } else if to !in w.depths {
          ScanNew(next, root, w, index, k);
          w := Discover(w, current, to);
        } else {
          ScanOld(next, root, w, index, k);
        }
      }
      ScanDone(next, root, w, index);
      OneMoreDone(known, w.queue, queue0, index);
      index := index + 1;
    }
  }

  lemma OneMoreDone(known: set<string>, queue: seq<string>, before: seq<string>, index: nat)
    requires index < |before| && before <= queue && queue[index] in known
    requires forall i, j | 0 <= i < j < |queue| :: queue[i] != queue[j]
    ensures known - (set i | 0 <= i < index + 1 :: queue[i]) < known - (set i | 0 <= i < index :: before[i])
  {
    var less, more := set i | 0 <= i < index :: before[i], set i | 0 <= i < index + 1 :: queue[i];
    assert forall i | 0 <= i < index :: before[i] == queue[i];
    assert less <= more;
    assert queue[index] in more && queue[index] !in less;
  }

  // ---------------------------------------------------------------- what the walk means

  /** A finished walk discovers the end of every path, no deeper than the path is long. */
  lemma {:induction false} PathsAreReached(next: string -> seq<string>, root: string, w: Walk, p: seq<string>)
    requires Walking(next, root, w, |w.queue|) && Path(next, p) && p[0] == root
    ensures p[|p| - 1] in w.depths && w.depths[p[|p| - 1]] <= |p| - 1
    decreases |p|
  {
    if |p| > 1 {
      var shorter := p[..|p| - 1];
      assert forall i | 0 <= i < |shorter| - 1 :: Adjacent(next, shorter[i], shorter[i + 1]) by {
        forall i | 0 <= i < |shorter| - 1 ensures Adjacent(next, shorter[i], shorter[i + 1]) { assert Adjacent(next, p[i], p[i + 1]); }
      }
      PathsAreReached(next, root, w, shorter);
      var u := p[|p| - 2];
      assert Adjacent(next, p[|p| - 2], p[|p| - 1]);
      assert u in w.queue;
      var i :| 0 <= i < |w.queue| && w.queue[i] == u;
      assert Reached(w, w.queue[i], p[|p| - 1]);
    }
  }

  ghost predicate Shortest(next: string -> seq<string>, root: string, v: string, n: nat)
  {
    && (exists p :: PathTo(next, root, v, p) && |p| == n + 1)
    && (forall p | PathTo(next, root, v, p) :: n + 1 <= |p|)
  }

  /** Discovered means reachable, and the depth is the length of a shortest path. */
  lemma DepthIsShortest(next: string -> seq<string>, root: string, w: Walk, v: string)
    requires Walking(next, root, w, |w.queue|)
    ensures v in w.depths <==> exists p :: PathTo(next, root, v, p)
    ensures v in w.depths ==> Shortest(next, root, v, w.depths[v])
  {
    if v in w.depths {
      TrailIsPath(next, root, w, v);
      assert PathTo(next, root, v, Trail(next, root, w, v));
    }
    forall p | PathTo(next, root, v, p) ensures v in w.depths && w.depths[v] + 1 <= |p| {
      PathsAreReached(next, root, w, p);
    }
  }

  /** Every reported cycle is a closed walk through the root, and one is reported exactly when there is one. */
  lemma CyclesExactly(next: string -> seq<string>, root: string, w: Walk)
    requires Walking(next, root, w, |w.queue|)
    ensures forall i | 0 <= i < |w.cycles| :: ClosedWalk(next, root, w.cycles[i])
    ensures w.cycles != [] <==> exists c :: ClosedWalk(next, root, c)
  {
    if w.cycles != [] { assert ClosedWalk(next, root, w.cycles[0]); }
    if c :| ClosedWalk(next, root, c) {
      var p := c[..|c| - 1];
      forall i | 0 <= i < |p| - 1 ensures Adjacent(next, p[i], p[i + 1]) { assert Adjacent(next, c[i], c[i + 1]); }
      PathsAreReached(next, root, w, p);
      var u := c[|c| - 2];
      assert Adjacent(next, c[|c| - 2], c[|c| - 1]);
      assert p[|p| - 1] == u && u in w.queue;
      var i :| 0 <= i < |w.queue| && w.queue[i] == u;
      assert Adjacent(next, w.queue[i], root);
    }
  }

  // ---------------------------------------------------------------- the report

  const REDACTED := "redacted"

  /** The name given to the n-th hidden resource met. */
  function AliasText(n: nat): string { REDACTED + ":" + Decimal.Digits(n) }

  datatype Entry = Entry(name: string, kind: string, depth: nat)

  datatype Missing = Missing(from: string, missingId: string)

  datatype Report = Report(
    direct: seq<Entry>, indirect: seq<Entry>, cycles: seq<seq<string>>, missing: seq<Missing>, redactedCount: nat)

  datatype Refusal = PermissionDenied | ResourceNotFound

  /** Nearer first, then by id. */
  predicate Nearer(depths: map<string, nat>, a: string, b: string)
  {
    a in depths && b in depths && (depths[a] < depths[b] || (depths[a] == depths[b] && Less(a, b)))
  }

  lemma NearerIsOrder(depths: map<string, nat>)
    ensures StrictOrder((a, b) => Nearer(depths, a, b))
  {
    forall a ensures !Nearer(depths, a, a) { LessIrreflexive(a); }
    forall a, b, c | Nearer(depths, a, b) && Nearer(depths, b, c) ensures Nearer(depths, a, c) {
      if depths[a] == depths[b] == depths[c] { LessTransitive(a, b, c); }
    }
  }

  /** The last declaration of an id wins. */
  function ById(nodes: seq<Node>): (m: map<string, Node>)
    ensures m.Keys == Known(nodes)
    ensures forall id | id in m :: m[id] in nodes && m[id].id == id
  {
    if nodes == [] then map[]
    else
      var n := |nodes| - 1;
      assert nodes == nodes[..n] + [nodes[n]];
      ById(nodes[..n])[nodes[n].id := nodes[n]]
  }

  /** Aliases are numbered from one, without repetition, and only for hidden resources. */
  ghost predicate AliasesFine(hidden: set<string>, aliases: map<string, nat>)
  {
    && (forall id | id in aliases :: id in hidden && 1 <= aliases[id] <= |aliases|)
    && (forall a, b | a in aliases && b in aliases && a != b :: aliases[a] != aliases[b])
  }

  /** The name a resource has under the aliases given out. */
  function Show(hidden: set<string>, aliases: map<string, nat>, id: string): string
  {
    if id in hidden && id in aliases then AliasText(aliases[id]) else id
  }

  /** The kind shown beside an entry's name. */
  function KindOf(byId: map<string, Node>, hidden: set<string>, id: string): string
  {
    if id in hidden then REDACTED else if id in byId then byId[id].kind else "unknown"
  }

  /** Later aliases never rename an earlier one. */
  ghost predicate Grown(a: map<string, nat>, b: map<string, nat>) { forall id | id in a :: id in b && b[id] == a[id] }

  ghost predicate ShownAs(hidden: set<string>, aliases: map<string, nat>, ids: seq<string>, shown: seq<string>)
  {
    && |shown| == |ids|
    && forall i | 0 <= i < |ids| :: (ids[i] in hidden ==> ids[i] in aliases) && shown[i] == Show(hidden, aliases, ids[i])
  }

  function IdSet(ids: seq<string>): set<string> { set id | id in ids }

  /** `reveal` over a list: a hidden resource gets the next alias the first time it is met. */
  method RevealAll(hidden: set<string>, given: map<string, nat>, ids: seq<string>) returns (shown: seq<string>, aliases: map<string, nat>)
    requires AliasesFine(hidden, given)
    ensures AliasesFine(hidden, aliases) && Grown(given, aliases) && ShownAs(hidden, aliases, ids, shown)
    ensures aliases.Keys <= given.Keys + IdSet(ids)
  {
    shown, aliases := [], given;
    for i := 0 to |ids|
      invariant AliasesFine(hidden, aliases) && Grown(given, aliases) && ShownAs(hidden, aliases, ids[..i], shown)
      invariant aliases.Keys <= given.Keys + IdSet(ids)
    {
      var id := ids[i];
      ghost var before := aliases;
      if id in hidden && id !in aliases {
        OneMoreAlias(hidden, aliases, id);
        aliases := aliases[id := |aliases| + 1];
      }
      StillShown(hidden, before, aliases, ids[..i], shown);
      ShowOneMore(hidden, aliases, ids, i, shown);
      shown := shown + [Show(hidden, aliases, id)];
    }
    assert ids[..|ids|] == ids;
  }

  lemma OneMoreAlias(hidden: set<string>, aliases: map<string, nat>, id: string)
    requires AliasesFine(hidden, aliases) && id in hidden && id !in aliases
    ensures AliasesFine(hidden, aliases[id := |aliases| + 1])
  {
    assert |aliases[id := |aliases| + 1]| == |aliases| + 1;
  }

  lemma ShowOneMore(hidden: set<string>, aliases: map<string, nat>, ids: seq<string>, i: nat, shown: seq<string>)
    requires i < |ids| && ShownAs(hidden, aliases, ids[..i], shown) && (ids[i] in hidden ==> ids[i] in aliases)
    ensures ShownAs(hidden, aliases, ids[..i + 1], shown + [Show(hidden, aliases, ids[i])])
  {
  }

  lemma StillShown(hidden: set<string>, a: map<string, nat>, b: map<string, nat>, ids: seq<string>, shown: seq<string>)
    requires ShownAs(hidden, a, ids, shown) && Grown(a, b)
    ensures ShownAs(hidden, b, ids, shown)
  {
  }

  /** The reported resources in order: everything discovered but the root, nearest first, ties by id. */
  ghost predicate ListsWalk(w: Walk, root: string, order: seq<string>)
  {
    && (forall v :: v in order <==> v in w.depths && v != root)
    && (forall i, j | 0 <= i < j < |order| :: order[i] != order[j] && Nearer(w.depths, order[i], order[j]))
  }

  lemma SortedMembers(w: Walk, root: string, order: seq<string>, v: string)
    requires Queued(w) && w.queue != [] && w.queue[0] == root && multiset(order) == multiset(w.queue[1..])
    ensures v in order <==> v in w.depths && v != root
  {
    var rest := w.queue[1..];
    assert w.queue == [root] + rest;
    assert v in order <==> v in multiset(order);
    assert v in rest <==> v in multiset(rest);
    assert v in w.depths ==> v in w.queue;
    if v in rest {
      var i :| 0 <= i < |rest| && rest[i] == v;
      assert w.queue[i + 1] == v && w.queue[0] != w.queue[i + 1];
    }
  }

  lemma SortedQueueLists(w: Walk, root: string, order: seq<string>)
    requires Queued(w) && w.queue != [] && w.queue[0] == root
    requires order == Sort((a, b) => Nearer(w.depths, a, b), w.queue[1..])
    ensures ListsWalk(w, root, order)
  {
    var lt := (a, b) => Nearer(w.depths, a, b);
    NearerIsOrder(w.depths);
    SortSorts(lt, w.queue[1..]);
    forall v ensures v in order <==> v in w.depths && v != root { SortedMembers(w, root, order, v); }
    DistinctOnce(w.queue[1..]);
    forall i, j | 0 <= i < j < |order| ensures order[i] != order[j] && Nearer(w.depths, order[i], order[j]) {
      OnceDistinct(order, i, j);
      assert order[i] in order && order[j] in order && !lt(order[j], order[i]);
      LessTotal(order[i], order[j]);
    }
  }

  lemma {:induction false} DistinctOnce(s: seq<string>)
    requires forall i, j | 0 <= i < j < |s| :: s[i] != s[j]
    ensures forall v :: multiset(s)[v] <= 1
  {
    if s != [] {
      DistinctOnce(s[1..]);
      assert s == [s[0]] + s[1..];
      assert s[0] !in s[1..];
    }
  }

  lemma OnceDistinct(s: seq<string>, i: nat, j: nat)
    requires i < j < |s| && forall v :: multiset(s)[v] <= 1
    ensures s[i] != s[j]
  {
    assert s == s[..j] + s[j..];
    assert multiset(s) == multiset(s[..j]) + multiset(s[j..]);
    assert s[..j][i] == s[i] && s[j..][0] == s[j];
    assert multiset(s)[s[i]] == multiset(s[..j])[s[i]] + multiset(s[j..])[s[i]];
    assert multiset(s[..j])[s[i]] >= 1 && multiset(s[j..])[s[j]] >= 1;
  }

  /** Resources hidden from the caller: the restricted ones, unless it may see them. */
  function Hidden(byId: map<string, Node>, canSeeRestricted: bool): set<string>
  {
    if canSeeRestricted then {} else set id | id in byId && byId[id].restricted
  }

  function Unknown(targets: seq<string>, known: set<string>): seq<string>
  {
    if targets == [] then [] else (if targets[0] in known then [] else [targets[0]]) + Unknown(targets[1..], known)
  }

  /** The dangling references of the discovered resources, in discovery order. */
  function Dangling(byId: map<string, Node>, ids: seq<string>): seq<(string, string)>
  {
    if ids == [] then []
    else
      var targets := if ids[0] in byId then Unknown(byId[ids[0]].dependsOn, byId.Keys) else [];
      seq(|targets|, i requires 0 <= i < |targets| => (ids[0], targets[i])) + Dangling(byId, ids[1..])
  }

  function Firsts(pairs: seq<(string, string)>): seq<string>
  {
    seq(|pairs|, i requires 0 <= i < |pairs| => pairs[i].0)
  }

  function EntriesOf(byId: map<string, Node>, hidden: set<string>, w: Walk, order: seq<string>, shown: seq<string>): seq<Entry>
    requires |shown| == |order| && forall i | 0 <= i < |order| :: order[i] in w.depths
  {
    seq(|order|, i requires 0 <= i < |order| => Entry(shown[i], KindOf(byId, hidden, order[i]), w.depths[order[i]]))
  }

  function AtDepth(entries: seq<Entry>, direct: bool): seq<Entry>
  {
    if entries == [] then []
    else (if direct == (entries[0].depth == 1) && entries[0].depth > 0 then [entries[0]] else []) + AtDepth(entries[1..], direct)
  }

  /** The dangling references under the names given out. */
  ghost predicate MissingOf(hidden: set<string>, aliases: map<string, nat>, pairs: seq<(string, string)>, missing: seq<Missing>)
  {
    && |missing| == |pairs|
    && forall i | 0 <= i < |pairs| :: missing[i] == Missing(Show(hidden, aliases, pairs[i].0), pairs[i].1)
  }

  /** The report names the walk's findings: one name per resource throughout, hidden ones by their aliases. */
  ghost predicate Presents(byId: map<string, Node>, hidden: set<string>, w: Walk, order: seq<string>,
                           aliases: map<string, nat>, names: seq<string>, r: Report)
    requires forall i | 0 <= i < |order| :: order[i] in w.depths
  {
    && AliasesFine(hidden, aliases) && r.redactedCount == |aliases|
    && ShownAs(hidden, aliases, order, names)
    && r.direct == AtDepth(EntriesOf(byId, hidden, w, order, names), true) && r.indirect == AtDepth(EntriesOf(byId, hidden, w, order, names), false)
    && |r.cycles| == |w.cycles| && (forall i | 0 <= i < |w.cycles| :: ShownAs(hidden, aliases, w.cycles[i], r.cycles[i]))
    && MissingOf(hidden, aliases, Dangling(byId, w.queue), r.missing)
  }

  /** The walk follows exactly the edges of the graph, to the end, and lists what it found. */
  ghost predicate WalkOf(nodes: seq<Node>, root: string, dir: Direction, next: string -> seq<string>, w: Walk, order: seq<string>)
  {
    && (forall u, x :: Adjacent(next, u, x) <==> Edge(nodes, dir, u, x))
    && Walking(next, root, w, |w.queue|) && ListsWalk(w, root, order)
    && forall i | 0 <= i < |order| :: order[i] in w.depths
  }

  method RevealCycles(hidden: set<string>, given: map<string, nat>, cycles: seq<seq<string>>)
    returns (shown: seq<seq<string>>, aliases: map<string, nat>)
    requires AliasesFine(hidden, given)
    ensures AliasesFine(hidden, aliases) && Grown(given, aliases)
    ensures |shown| == |cycles| && forall i | 0 <= i < |cycles| :: ShownAs(hidden, aliases, cycles[i], shown[i])
  {
    shown, aliases := [], given;
    for i := 0 to |cycles|
      invariant AliasesFine(hidden, aliases) && Grown(given, aliases) && |shown| == i
      invariant forall k | 0 <= k < i :: ShownAs(hidden, aliases, cycles[k], shown[k])
    {
      var names, more := RevealAll(hidden, aliases, cycles[i]);
      forall k | 0 <= k < i ensures ShownAs(hidden, more, cycles[k], shown[k]) {
        StillShown(hidden, aliases, more, cycles[k], shown[k]);
      }
      shown, aliases := shown + [names], more;
    }
  }

  method RevealMissing(hidden: set<string>, given: map<string, nat>, pairs: seq<(string, string)>)
    returns (missing: seq<Missing>, aliases: map<string, nat>)
    requires AliasesFine(hidden, given)
    ensures AliasesFine(hidden, aliases) && Grown(given, aliases) && MissingOf(hidden, aliases, pairs, missing)
    ensures forall i | 0 <= i < |pairs| :: pairs[i].0 in hidden ==> pairs[i].0 in aliases
  {
    var from;
    from, aliases := RevealAll(hidden, given, Firsts(pairs));
    assert forall i | 0 <= i < |pairs| :: Firsts(pairs)[i] == pairs[i].0;
    missing := seq(|pairs|, i requires 0 <= i < |pairs| => Missing(from[i], pairs[i].1));
  }

  lemma StillMissing(hidden: set<string>, a: map<string, nat>, b: map<string, nat>, pairs: seq<(string, string)>, missing: seq<Missing>)
    requires MissingOf(hidden, a, pairs, missing) && Grown(a, b)
    requires forall i | 0 <= i < |pairs| :: pairs[i].0 in hidden ==> pairs[i].0 in a
    ensures MissingOf(hidden, b, pairs, missing)
  {
  }

  method Present(byId: map<string, Node>, hidden: set<string>, w: Walk, order: seq<string>)
    returns (r: Report, ghost aliases: map<string, nat>, ghost names: seq<string>)
    requires forall i | 0 <= i < |order| :: order[i] in w.depths
    ensures Presents(byId, hidden, w, order, aliases, names, r)
  {
    var shown, a1 := RevealAll(hidden, map[], order);
    var missing, a2 := RevealMissing(hidden, a1, Dangling(byId, w.queue));
    var cycles, a3 := RevealCycles(hidden, a2, w.cycles);
    StillShown(hidden, a1, a3, order, shown);
    StillMissing(hidden, a2, a3, Dangling(byId, w.queue), missing);
    var entries := EntriesOf(byId, hidden, w, order, shown);
    aliases, names := a3, shown;
    r := Report(AtDepth(entries, true), AtDepth(entries, false), cycles, missing, |a3|);
  }

  method WalkGraph(nodes: seq<Node>, root: string, dir: Direction)
    returns (w: Walk, order: seq<string>, ghost next: string -> seq<string>)
    requires root in Known(nodes)
    ensures WalkOf(nodes, root, dir, next, w, order)
  {
    var edges := BuildEdges(nodes, dir);
    var neighbours := Neighbours(edges, Known(nodes));
    next := neighbours;
    forall u, x ensures Adjacent(next, u, x) <==> Edge(nodes, dir, u, x) { AdjacentIsEdge(nodes, dir, edges, u, x); }
    w := BreadthFirst(neighbours, Known(nodes), root);
    FirstIsRoot(next, root, w);
    var depths := w.depths;
    order := Sort((a, b) => Nearer(depths, a, b), w.queue[1..]);
    SortedQueueLists(w, root, order);
    assert forall i | 0 <= i < |order| :: order[i] in order;
  }

  /** `analyzeImpact`. */
  method AnalyzeImpact(nodes: seq<Node>, root: string, canRead: bool, canSeeRestricted: bool, dir: Direction)
    returns (r: Result<Report, Refusal>, ghost next: string -> seq<string>, ghost w: Walk, ghost order: seq<string>,
             ghost aliases: map<string, nat>, ghost names: seq<string>)
    ensures r == Err(ResourceNotFound) <==> canRead && root !in Known(nodes)
    ensures r == Err(PermissionDenied) <==>
      !canRead || (root in Known(nodes) && ById(nodes)[root].restricted && !canSeeRestricted)
    ensures r.Ok? ==> WalkOf(nodes, root, dir, next, w, order)
    ensures r.Ok? ==> Presents(ById(nodes), Hidden(ById(nodes), canSeeRestricted), w, order, aliases, names, r.value)
  {
    next, w, order, aliases, names := _ => [], StartAt(root), [], map[], [];
    if !canRead { return Err(PermissionDenied), next, w, order, aliases, names; }
    var byId := ById(nodes);
    if root !in byId { return Err(ResourceNotFound), next, w, order, aliases, names; }
    if byId[root].restricted && !canSeeRestricted { return Err(PermissionDenied), next, w, order, aliases, names; }
    var walk, sorted, neighbours := WalkGraph(nodes, root, dir);
    var report;
    report, aliases, names := Present(byId, Hidden(byId, canSeeRestricted), walk, sorted);
    next, w, order := neighbours, walk, sorted;
    r := Ok(report);
  }

  lemma FirstIsRoot(next: string -> seq<string>, root: string, w: Walk)
    requires Walking(next, root, w, |w.queue|)
    ensures w.queue != [] && w.queue[0] == root
  {
    assert root in w.queue;
    var i :| 0 <= i < |w.queue| && w.queue[i] == root;
  }

  // ---------------------------------------------------------------- the report's meaning

  /**
   * The reported resources are exactly the known resources reachable from the root other than itself, each once,
   * at its shortest-path depth; a cycle is reported exactly when the root lies on one.
   */
  lemma ImpactIsReachability(nodes: seq<Node>, root: string, dir: Direction, next: string -> seq<string>,
                             w: Walk, order: seq<string>, v: string)
    requires WalkOf(nodes, root, dir, next, w, order)
    ensures v in order <==> v != root && exists p :: PathTo(next, root, v, p)
    ensures v in order ==> v in w.depths && w.depths[v] >= 1 && Shortest(next, root, v, w.depths[v])
    ensures w.cycles != [] <==> exists c :: ClosedWalk(next, root, c)
    ensures forall i | 0 <= i < |w.cycles| :: ClosedWalk(next, root, w.cycles[i])
  {
    DepthIsShortest(next, root, w, v);
    CyclesExactly(next, root, w);
    if v in w.depths && v != root { assert Child(next, w, v); }
  }

  /** A plain id that reads like the alias given to a hidden resource. */
  predicate Clash(hidden: set<string>, aliases: map<string, nat>, plain: string, secret: string)
  {
    plain !in hidden && secret in hidden && secret in aliases && plain == AliasText(aliases[secret])
  }

  lemma AliasTextInjective(m: nat, n: nat)
    requires AliasText(m) == AliasText(n)
    ensures m == n
  {
    assert AliasText(m)[|REDACTED| + 1..] == Decimal.Digits(m) && AliasText(n)[|REDACTED| + 1..] == Decimal.Digits(n);
    Decimal.DigitsInjective(m, n);
  }

  /** Two names in a report are equal exactly when they name one resource, or one is a plain id that reads like the other's alias. */
  lemma NamesEqualExactly(hidden: set<string>, aliases: map<string, nat>, a: string, b: string)
    requires AliasesFine(hidden, aliases) && (a in hidden ==> a in aliases) && (b in hidden ==> b in aliases)
    ensures Show(hidden, aliases, a) == Show(hidden, aliases, b) <==> a == b || Clash(hidden, aliases, a, b) || Clash(hidden, aliases, b, a)
  {
    if a in hidden && b in hidden && Show(hidden, aliases, a) == Show(hidden, aliases, b) {
      AliasTextInjective(aliases[a], aliases[b]);
    }
  }

  /** Names tell resources apart. */
  ghost predicate TellsApart(ids: seq<string>, shown: seq<string>)
    requires |ids| == |shown|
  {
    forall i, j | 0 <= i < |ids| && 0 <= j < |ids| :: shown[i] == shown[j] <==> ids[i] == ids[j]
  }

  /** No plain id shown reads like an alias shown. */
  ghost predicate NoClash(hidden: set<string>, aliases: map<string, nat>, ids: seq<string>)
  {
    forall a, b | a in ids && b in ids :: !Clash(hidden, aliases, a, b)
  }

  /**
   * "Names are equal exactly when the resources are" holds of a report's list exactly when no plain id in it reads
   * like an alias in it.
   */
  lemma TellsApartExactly(hidden: set<string>, aliases: map<string, nat>, ids: seq<string>, shown: seq<string>)
    requires AliasesFine(hidden, aliases) && ShownAs(hidden, aliases, ids, shown)
    ensures TellsApart(ids, shown) <==> NoClash(hidden, aliases, ids)
  {
    forall i, j | 0 <= i < |ids| && 0 <= j < |ids|
      ensures shown[i] == shown[j] <==>
              ids[i] == ids[j] || Clash(hidden, aliases, ids[i], ids[j]) || Clash(hidden, aliases, ids[j], ids[i])
    {
      NamesEqualExactly(hidden, aliases, ids[i], ids[j]);
    }
    if TellsApart(ids, shown) {
      forall a, b | a in ids && b in ids ensures !Clash(hidden, aliases, a, b) {
        var i :| 0 <= i < |ids| && ids[i] == a;
        var j :| 0 <= j < |ids| && ids[j] == b;
      }
    }
  }

  function UpTo(k: nat): (r: set<nat>)
    ensures |r| == k && forall n :: n in r <==> 1 <= n <= k
  {
    if k == 0 then {} else UpTo(k - 1) + {k}
  }

  /** Different ids have different aliases, so there are as many aliases as ids. */
  lemma {:induction false} AsManyAliases(aliases: map<string, nat>)
    requires forall a, b | a in aliases && b in aliases && a != b :: aliases[a] != aliases[b]
    ensures |aliases.Values| == |aliases|
    decreases |aliases|
  {
    if aliases != map[] {
      var id :| id in aliases;
      var rest := aliases - {id};
      assert aliases.Keys == rest.Keys + {id};
      AsManyAliases(rest);
      ValuesWithout(aliases, id);
    } else {
      assert aliases.Values == {};
    }
  }

  lemma ValuesWithout(aliases: map<string, nat>, id: string)
    requires id in aliases && forall a, b | a in aliases && b in aliases && a != b :: aliases[a] != aliases[b]
    ensures aliases.Values == (aliases - {id}).Values + {aliases[id]} && aliases[id] !in (aliases - {id}).Values
  {
    var rest := aliases - {id};
    forall n ensures n in aliases.Values <==> n in rest.Values || n == aliases[id] {
      if n in aliases.Values && n != aliases[id] {
        var a :| a in aliases && aliases[a] == n;
        assert a in rest && rest[a] == n;
      }
      if n in rest.Values {
        var a :| a in rest && rest[a] == n;
        assert a in aliases && aliases[a] == n;
      }
    }
  }

  lemma SameSize(a: set<nat>, b: set<nat>)
    requires a <= b && |a| == |b|
    ensures a == b
  {
    assert b == a + (b - a);
    assert |b - a| == 0;
  }

  /** Every number from one to the count of aliases is given to some hidden resource. */
  lemma EveryNumberGiven(hidden: set<string>, aliases: map<string, nat>, n: nat) returns (id: string)
    requires AliasesFine(hidden, aliases) && 1 <= n <= |aliases|
    ensures id in aliases && aliases[id] == n
  {
    AsManyAliases(aliases);
    forall m | m in aliases.Values ensures m in UpTo(|aliases|) { var a :| a in aliases && aliases[a] == m; }
    SameSize(aliases.Values, UpTo(|aliases|));
    assert n in aliases.Values;
    id :| id in aliases && aliases[id] == n;
  }

  /** A visible id of the list reads like one of the first `k` aliases. */
  ghost predicate ReadsLikeAlias(hidden: set<string>, ids: seq<string>, k: nat)
  {
    exists id, n: nat | id in ids && id !in hidden && 1 <= n <= k :: id == AliasText(n)
  }

  /**
   * What a caller can check before asking: when the aliases given out are those of the list itself, its names tell
   * resources apart exactly when no visible id in it is redacted:n with n up to the number of hidden ids in it.
   */
  lemma TellsApartBeforehand(hidden: set<string>, aliases: map<string, nat>, ids: seq<string>, shown: seq<string>)
    requires AliasesFine(hidden, aliases) && ShownAs(hidden, aliases, ids, shown) && aliases.Keys <= IdSet(ids)
    ensures TellsApart(ids, shown) <==> !ReadsLikeAlias(hidden, ids, |hidden * IdSet(ids)|)
  {
    assert aliases.Keys == hidden * IdSet(ids);
    assert |aliases| == |aliases.Keys|;
    TellsApartExactly(hidden, aliases, ids, shown);
    if !NoClash(hidden, aliases, ids) {
      var a, b :| a in ids && b in ids && Clash(hidden, aliases, a, b);
      assert a == AliasText(aliases[b]);
    }
    if ReadsLikeAlias(hidden, ids, |aliases|) {
      var id, n: nat :| id in ids && id !in hidden && 1 <= n <= |aliases| && id == AliasText(n);
      var secret := EveryNumberGiven(hidden, aliases, n);
      assert secret in ids && Clash(hidden, aliases, id, secret);
    }
  }

  /** The same for any two places of the reported cycles, where no kind is shown beside the name. */
  lemma CycleNamesExactly(byId: map<string, Node>, hidden: set<string>, w: Walk, order: seq<string>, aliases: map<string, nat>,
                          names: seq<string>, r: Report, c: nat, i: nat, d: nat, j: nat)
    requires (forall k | 0 <= k < |order| :: order[k] in w.depths) && Presents(byId, hidden, w, order, aliases, names, r)
    requires c < |w.cycles| && d < |w.cycles| && i < |w.cycles[c]| && j < |w.cycles[d]|
    ensures |r.cycles| == |w.cycles| && |r.cycles[c]| == |w.cycles[c]| && |r.cycles[d]| == |w.cycles[d]|
    ensures var a, b := w.cycles[c][i], w.cycles[d][j];
      r.cycles[c][i] == r.cycles[d][j] <==> a == b || Clash(hidden, aliases, a, b) || Clash(hidden, aliases, b, a)
  {
    assert ShownAs(hidden, aliases, w.cycles[c], r.cycles[c]) && ShownAs(hidden, aliases, w.cycles[d], r.cycles[d]);
    NamesEqualExactly(hidden, aliases, w.cycles[c][i], w.cycles[d][j]);
  }

  /** It fails for a visible resource called "redacted:1" beside a hidden one: both are shown under that name. */
  lemma PlainIdReadsLikeAlias()
    ensures var hidden, aliases, ids := {"secret"}, map["secret" := 1], ["redacted:1", "secret"];
      AliasesFine(hidden, aliases) && ShownAs(hidden, aliases, ids, ["redacted:1", "redacted:1"]) && ids[0] != ids[1]
  {
    assert Decimal.Digits(1) == "1" by { assert "1"[..0] == []; }
    assert REDACTED + ":" + "1" == "redacted:1";
    var aliases := map["secret" := 1];
    assert |aliases| == 1;
  }

  /** A resource is shown by its id exactly when it is not hidden, or its id happens to be its own alias. */
  lemma HiddenIdsStayHidden(hidden: set<string>, aliases: map<string, nat>, ids: seq<string>, shown: seq<string>, i: nat)
    requires ShownAs(hidden, aliases, ids, shown) && i < |ids|
    ensures shown[i] == ids[i] <==> ids[i] !in hidden || ids[i] == AliasText(aliases[ids[i]])
  {
  }

  /** Direct and indirect entries together are the ordered entries. */
  lemma {:induction false} DirectThenIndirect(entries: seq<Entry>)
    requires forall i | 0 <= i < |entries| :: entries[i].depth >= 1
    requires forall i, j | 0 <= i < j < |entries| :: entries[i].depth <= entries[j].depth
    ensures AtDepth(entries, true) + AtDepth(entries, false) == entries
  {
    if entries != [] {
      DirectThenIndirect(entries[1..]);
      if entries[0].depth > 1 { NoneDirect(entries); }
    }
  }

  lemma {:induction false} NoneDirect(entries: seq<Entry>)
    requires forall i | 0 <= i < |entries| :: entries[i].depth > 1
    ensures AtDepth(entries, true) == []
  {
    if entries != [] { NoneDirect(entries[1..]); }
  }

  /** The report lists every resource found exactly once, nearest first: its direct entries, then its indirect ones. */
  lemma ReportListsAll(nodes: seq<Node>, root: string, dir: Direction, next: string -> seq<string>, w: Walk, order: seq<string>,
                       byId: map<string, Node>, hidden: set<string>, aliases: map<string, nat>, names: seq<string>, r: Report)
    requires WalkOf(nodes, root, dir, next, w, order) && Presents(byId, hidden, w, order, aliases, names, r)
    ensures r.direct + r.indirect == EntriesOf(byId, hidden, w, order, names)
  {
    forall i | 0 <= i < |order| ensures w.depths[order[i]] >= 1 {
      assert order[i] in order;
      ImpactIsReachability(nodes, root, dir, next, w, order, order[i]);
    }
    forall i, j | 0 <= i < j < |order| ensures w.depths[order[i]] <= w.depths[order[j]] {
      assert Nearer(w.depths, order[i], order[j]);
    }
    DirectThenIndirect(EntriesOf(byId, hidden, w, order, names));
  }
}
