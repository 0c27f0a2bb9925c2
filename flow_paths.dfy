/**
 * `extract_flow_paths`: a depth-first search over the solver's flow map that
 * follows edges carrying positive flow, never takes the same directed edge
 * twice on one path, and records each path that reaches the sink together
 * with its bottleneck.
 */
module FlowPaths {

  type Node = string

  /** The outgoing flows of one node, `flow_dict[u].items()` in dictionary order. */
  type Adjacency = seq<(Node, real)>

  /** `flow_dict`: node to its outgoing flows. */
  type FlowDict = map<Node, Adjacency>

  /** A float that may be `float("inf")`, the flow an edgeless path starts with. */
  datatype ExtReal = Infinite | Finite(value: real)

  /** One recorded `(path, flow)` pair. */
  type PathFlow = (seq<Node>, ExtReal)

  /** `min(flow, f)` for a finite `f`. */
  function Min(a: ExtReal, f: real): (r: ExtReal)
    ensures r.Finite? && r.value <= f
    ensures a.Finite? ==> r.value <= a.value
    ensures r.value == f || (a.Finite? && r.value == a.value)
  {
    match a
    case Infinite => Finite(f)
    case Finite(x) => Finite(if f < x then f else x)
  }

  /** A dictionary has distinct keys, so no target repeats within one adjacency. */
  ghost predicate WellFormed(fd: FlowDict) {
    forall u, i, j :: u in fd && 0 <= i < j < |fd[u]| ==> fd[u][i].0 != fd[u][j].0
  }

  /** The value stored for key `v` in an adjacency (its first entry), 0 when absent. */
  function Lookup(adj: Adjacency, v: Node): real {
    if adj == [] then 0.0 else if adj[0].0 == v then adj[0].1 else Lookup(adj[1..], v)
  }

  /** `flow_dict[u][v]`, 0 for an edge the map does not hold. */
  function FlowOf(fd: FlowDict, u: Node, v: Node): real {
    if u in fd then Lookup(fd[u], v) else 0.0
  }

  /** In a dictionary, the entry at position k is the value `flow_dict[u][v]`. */
  lemma {:induction false} LookupAt(adj: Adjacency, k: nat)
    requires k < |adj|
    requires forall i, j :: 0 <= i < j < |adj| ==> adj[i].0 != adj[j].0
    ensures Lookup(adj, adj[k].0) == adj[k].1
  {
    if k > 0 {
      assert adj[0].0 != adj[k].0;
      LookupAt(adj[1..], k - 1);
    }
  }

  /** Every directed edge the map holds. */
  function Edges(fd: FlowDict): set<(Node, Node)> {
    set u, k | u in fd && 0 <= k < |fd[u]| :: (u, fd[u][k].0)
  }

  /** Marking an unvisited edge of the map shrinks the set of unvisited edges. */
  lemma MarkingShrinks(all: set<(Node, Node)>, visited: set<(Node, Node)>, e: (Node, Node))
    requires e in all && e !in visited
    ensures |all - (visited + {e})| < |all - visited|
  {
    assert all - (visited + {e}) == (all - visited) - {e};
  }

  /**
   * The paths `dfs(u, path, flow)` appends, with `visited` as it stands on
   * entry. The search terminates because every recursive call marks an edge
   * of the map that was unvisited.
   */
  function Dfs(fd: FlowDict, sink: Node, u: Node, path: seq<Node>, flow: ExtReal,
               visited: set<(Node, Node)>): seq<PathFlow>
    decreases |Edges(fd) - visited|, 2, 0
  {
    if u == sink then [(path, flow)] else Explore(fd, sink, u, path, flow, visited, 0)
  }

  /**
   * The paths appended by one iteration of the loop over `flow_dict.get(u, {})`,
   * the one for the entry `(v, f)`: the search below `(u, v)` when the edge
   * carries flow and is unvisited, nothing otherwise.
   */
  function Visit(fd: FlowDict, sink: Node, u: Node, path: seq<Node>, flow: ExtReal,
                 visited: set<(Node, Node)>, v: Node, f: real): seq<PathFlow>
    requires (u, v) in Edges(fd)
    decreases |Edges(fd) - visited|, 0, 0
  {
    if f > 0.0 && (u, v) !in visited then
      MarkingShrinks(Edges(fd), visited, (u, v));
      Dfs(fd, sink, v, path + [v], Min(flow, f), visited + {(u, v)})
    else []
  }

  /** The paths appended by the iterations `k, k+1, ...` of that loop. */
  function Explore(fd: FlowDict, sink: Node, u: Node, path: seq<Node>, flow: ExtReal,
                   visited: set<(Node, Node)>, k: nat): seq<PathFlow>
    decreases |Edges(fd) - visited|, 1, (if u in fd then |fd[u]| else 0) - k
  {
    var adj := if u in fd then fd[u] else [];
    if k >= |adj| then []
    else
      assert (u, adj[k].0) in Edges(fd);
      Visit(fd, sink, u, path, flow, visited, adj[k].0, adj[k].1) + Explore(fd, sink, u, path, flow, visited, k + 1)
  }

  /** What `extract_flow_paths(flow_dict, source, sink)` returns. */
  function FlowPathsOf(fd: FlowDict, source: Node, sink: Node): seq<PathFlow> {
    Dfs(fd, sink, source, [source], Infinite, {})
  }

  /**
   * The recursive `dfs`: `visited` and the result list are the shared
   * mutable set and list of the source, passed in and handed back.
   * `visited` comes back exactly as it went in.
   */
  method DfsWalk(fd: FlowDict, sink: Node, u: Node, path: seq<Node>, flow: ExtReal,
                 paths0: seq<PathFlow>, visited0: set<(Node, Node)>)
    returns (paths: seq<PathFlow>, visited: set<(Node, Node)>)
    ensures visited == visited0
    ensures paths == paths0 + Dfs(fd, sink, u, path, flow, visited0)
    decreases |Edges(fd) - visited0|
  {
    paths, visited := paths0, visited0;
    if u == sink {
      paths := paths + [(path, flow)];
      return;
    }
    var adj := if u in fd then fd[u] else [];
    var k := 0;
    while k < |adj|
      invariant 0 <= k <= |adj|
      invariant visited == visited0
      invariant paths + Explore(fd, sink, u, path, flow, visited0, k)
             == paths0 + Explore(fd, sink, u, path, flow, visited0, 0)
    {
      var v, f := adj[k].0, adj[k].1;
      assert (u, v) in Edges(fd);
      ghost var found := Visit(fd, sink, u, path, flow, visited0, v, f);
      ghost var rest := Explore(fd, sink, u, path, flow, visited0, k + 1);
      assert Explore(fd, sink, u, path, flow, visited0, k) == found + rest;
      ghost var before := paths;
      if f > 0.0 && (u, v) !in visited {
        MarkingShrinks(Edges(fd), visited, (u, v));
        visited := visited + {(u, v)};
        paths, visited := DfsWalk(fd, sink, v, path + [v], Min(flow, f), paths, visited);
        visited := visited - {(u, v)};
      }
      assert paths == before + found;
      ConcatAssoc(before, found, rest);
      k := k + 1;
    }
  }

  /**
   * Regrouping a concatenation. Kept as a lemma so that the loop body of
   * `DfsWalk` sees only this one instance of associativity.
   */
  lemma ConcatAssoc<T>(a: seq<T>, b: seq<T>, c: seq<T>)
    ensures (a + b) + c == a + (b + c)
  {
  }

  /** `extract_flow_paths`: one search from the source with an empty `visited`. */
  method ExtractFlowPaths(fd: FlowDict, source: Node, sink: Node) returns (paths: seq<PathFlow>)
    ensures paths == FlowPathsOf(fd, source, sink)
  {
    var visited;
    paths, visited := DfsWalk(fd, sink, source, [source], Infinite, [], {});
    assert visited == {};
  }

  /** The bottleneck of a path: `float("inf")` lowered by `min` with the flow of each of its edges in turn. */
  function Bottleneck(fd: FlowDict, p: seq<Node>): (r: ExtReal)
    ensures r.Infinite? <==> |p| < 2
  {
    if |p| < 2 then Infinite
    else Min(Bottleneck(fd, p[..|p| - 1]), FlowOf(fd, p[|p| - 2], p[|p| - 1]))
  }

  /** The bottleneck is the least flow along the path's edges, and some edge has exactly that flow. */
  lemma {:induction false} BottleneckIsMinimum(fd: FlowDict, p: seq<Node>)
    requires |p| >= 2
    ensures Bottleneck(fd, p).Finite?
    ensures forall i :: 0 <= i < |p| - 1 ==> Bottleneck(fd, p).value <= FlowOf(fd, p[i], p[i + 1])
    ensures exists i :: 0 <= i < |p| - 1 && Bottleneck(fd, p).value == FlowOf(fd, p[i], p[i + 1])
  {
    var q := p[..|p| - 1];
    var n := |p|;
    if n > 2 {
      BottleneckIsMinimum(fd, q);
      var i :| 0 <= i < |q| - 1 && Bottleneck(fd, q).value == FlowOf(fd, q[i], q[i + 1]);
      if Bottleneck(fd, p).value != FlowOf(fd, p[n - 2], p[n - 1]) {
        assert Bottleneck(fd, p).value == FlowOf(fd, p[i], p[i + 1]);
      }
    } else {
      assert Bottleneck(fd, p).value == FlowOf(fd, p[0], p[1]);
    }
  }

  /** The directed edge from the i-th node of a path to the next. */
  function Hop(p: seq<Node>, i: nat): (Node, Node)
    requires i + 1 < |p|
  {
    (p[i], p[i + 1])
  }

  /**
   * `p` is a path the search from the end of `path` may record: it extends
   * `path`, ends at the sink, passes the sink nowhere before, follows only
   * edges with positive flow that are outside `visited`, and uses no
   * directed edge twice beyond `path`.
   */
  ghost predicate Extends(fd: FlowDict, sink: Node, path: seq<Node>, visited: set<(Node, Node)>, p: seq<Node>) {
    && 1 <= |path| <= |p|
    && p[..|path|] == path
    && p[|p| - 1] == sink
    && (forall i :: |path| - 1 <= i < |p| - 1 ==>
          p[i] != sink && FlowOf(fd, p[i], p[i + 1]) > 0.0 && Hop(p, i) !in visited)
    && (forall i, j :: |path| - 1 <= i < j < |p| - 1 ==> Hop(p, i) != Hop(p, j))
  }

  /** One step back up the search: what holds below edge (u, v) holds at u. */
  lemma ExtendsStep(fd: FlowDict, sink: Node, path: seq<Node>, visited: set<(Node, Node)>,
                    u: Node, v: Node, p: seq<Node>)
    requires |path| >= 1 && path[|path| - 1] == u && u != sink
    requires FlowOf(fd, u, v) > 0.0 && (u, v) !in visited
    requires Extends(fd, sink, path + [v], visited + {(u, v)}, p)
    ensures Extends(fd, sink, path, visited, p)
  {
    var n := |path|;
    var q := path + [v];
    assert p[..n + 1] == q;
    assert p[..n] == path by { assert p[..n] == p[..n + 1][..n]; assert q[..n] == path; }
    assert p[n - 1] == u by { assert p[n - 1] == q[n - 1]; }
    assert p[n] == v by { assert p[n] == q[n]; }
    assert Hop(p, n - 1) == (u, v);
    forall i | n - 1 <= i < |p| - 1
      ensures p[i] != sink && FlowOf(fd, p[i], p[i + 1]) > 0.0 && Hop(p, i) !in visited
    {
    }
    forall i, j | n - 1 <= i < j < |p| - 1
      ensures Hop(p, i) != Hop(p, j)
    {
      if i == n - 1 {
        assert Hop(p, j) !in visited + {(u, v)};
      }
    }
  }

  /** The extended path's bottleneck is the old one lowered by the new edge's flow. */
  lemma BottleneckStep(fd: FlowDict, path: seq<Node>, v: Node)
    requires |path| >= 1
    ensures Bottleneck(fd, path + [v]) == Min(Bottleneck(fd, path), FlowOf(fd, path[|path| - 1], v))
  {
    assert (path + [v])[..|path|] == path;
  }

  /** Everything `dfs(u, path, flow)` records is an extension of `path` carrying its own bottleneck. */
  lemma {:induction false} DfsSound(fd: FlowDict, sink: Node, u: Node, path: seq<Node>, flow: ExtReal,
                                    visited: set<(Node, Node)>)
    requires WellFormed(fd)
    requires |path| >= 1 && path[|path| - 1] == u
    requires flow == Bottleneck(fd, path)
    ensures forall r :: r in Dfs(fd, sink, u, path, flow, visited) ==>
      Extends(fd, sink, path, visited, r.0) && r.1 == Bottleneck(fd, r.0)
    decreases |Edges(fd) - visited|, 2, 0
  {
    if u == sink {
      assert path[..|path|] == path;
    } else {
      ExploreSound(fd, sink, u, path, flow, visited, 0);
    }
  }

  /** The same for the loop iterations from `k` on. */
  lemma {:induction false} ExploreSound(fd: FlowDict, sink: Node, u: Node, path: seq<Node>, flow: ExtReal,
                                        visited: set<(Node, Node)>, k: nat)
    requires WellFormed(fd)
    requires |path| >= 1 && path[|path| - 1] == u && u != sink
    requires flow == Bottleneck(fd, path)
    ensures forall r :: r in Explore(fd, sink, u, path, flow, visited, k) ==>
      Extends(fd, sink, path, visited, r.0) && r.1 == Bottleneck(fd, r.0)
    decreases |Edges(fd) - visited|, 1, (if u in fd then |fd[u]| else 0) - k
  {
    var adj := if u in fd then fd[u] else [];
    if k < |adj| {
      var v, f := adj[k].0, adj[k].1;
      ExploreSound(fd, sink, u, path, flow, visited, k + 1);
      if f > 0.0 && (u, v) !in visited {
        MarkingShrinks(Edges(fd), visited, (u, v));
        LookupAt(adj, k);
        assert FlowOf(fd, u, v) == f;
        BottleneckStep(fd, path, v);
        var below := Dfs(fd, sink, v, path + [v], Min(flow, f), visited + {(u, v)});
        DfsSound(fd, sink, v, path + [v], Min(flow, f), visited + {(u, v)});
        forall r | r in below
          ensures Extends(fd, sink, path, visited, r.0) && r.1 == Bottleneck(fd, r.0)
        {
          ExtendsStep(fd, sink, path, visited, u, v, r.0);
        }
      }
    }
  }

  /**
   * Every path `extract_flow_paths` returns starts at the source and ends at
   * the sink, which it reaches only at its end; every edge along it carries
   * positive flow; no directed edge occurs on it twice; and its recorded flow
   * is its bottleneck.
   */
  lemma FlowPathsSound(fd: FlowDict, source: Node, sink: Node)
    requires WellFormed(fd)
    ensures forall r :: r in FlowPathsOf(fd, source, sink) ==>
      var p := r.0;
      && |p| >= 1 && p[0] == source && p[|p| - 1] == sink
      && (forall i :: 0 <= i < |p| - 1 ==> p[i] != sink && FlowOf(fd, p[i], p[i + 1]) > 0.0)
      && (forall i, j :: 0 <= i < j < |p| - 1 ==> Hop(p, i) != Hop(p, j))
      && r.1 == Bottleneck(fd, p)
  {
    DfsSound(fd, sink, source, [source], Infinite, {});
    forall r | r in FlowPathsOf(fd, source, sink) ensures r.0[0] == source {
      assert r.0[..1] == [source];
    }
  }

  /** When the source is the sink, the result is the single path `[source]` with infinite flow. */
  lemma SourceIsSink(fd: FlowDict, source: Node)
    ensures FlowPathsOf(fd, source, source) == [([source], Infinite)]
  {
  }
}
