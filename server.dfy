/**
 * The `/solve` endpoint: its input guards, the capacity aggregation of
 * `solve_max_flow`, and the path extraction of the solver's flow. The
 * networkx max-flow call is an oracle passed in as a function.
 */
module Server {
  import opened Common
  import FlowPaths

  /** A directed node pair `(u, v)`, the key of `cap_map`. */
  type Pair = (string, string)

  /** What networkx's `maximum_flow` returns for a capacity map, source and sink, or the message it raises. */
  type MaxFlowSolver = (map<Pair, real>, string, string) -> Result<(real, FlowPaths.FlowDict)>

  /** The JSON body: a missing or null `edges` reads as the empty list, a missing endpoint as `None`. */
  datatype Request = Request(edges: seq<EdgeTriple>, source: Option<string>, sink: Option<string>)

  /** A 400 reply with its error message, or the 200 reply of a solved network. */
  datatype Response =
    | BadRequest(error: string)
    | Solved(maxFlow: real, flowDict: FlowPaths.FlowDict, capacities: map<Pair, real>, paths: seq<FlowPaths.PathFlow>)

  const NegativeCapacity := "Capacities must be non-negative"
  const MissingEndpoints := "Source and sink must be provided."
  const MissingEdges := "At least one edge must be provided."

  function PairOf(e: EdgeTriple): Pair {
    (e.0, e.1)
  }

  /** The distinct `(u, v)` pairs of the input edges. */
  function PairsOf(edges: seq<EdgeTriple>): set<Pair> {
    set i | 0 <= i < |edges| :: PairOf(edges[i])
  }

  /** The sum of the capacities of the input edges from `key.0` to `key.1`. */
  function CapacitySum(edges: seq<EdgeTriple>, key: Pair): real {
    if edges == [] then 0.0
    else
      var last := edges[|edges| - 1];
      CapacitySum(edges[..|edges| - 1], key) + (if PairOf(last) == key then last.2 else 0.0)
  }

  /** Some input edge has a negative capacity. */
  predicate HasNegative(edges: seq<EdgeTriple>) {
    exists i :: 0 <= i < |edges| && edges[i].2 < 0.0
  }

  /**
   * The capacity map of an input: each distinct pair with its summed
   * capacity. `cap_map.get(p, 0)` is the total capacity from `p.0` to `p.1`
   * for every pair, present or not, and no entry is negative when no input
   * capacity is.
   */
  function CapacityMap(edges: seq<EdgeTriple>): (m: map<Pair, real>)
    ensures m.Keys == PairsOf(edges)
    ensures forall p :: CapacitySum(edges, p) == if p in m then m[p] else 0.0
    ensures !HasNegative(edges) ==> forall p :: p in m ==> m[p] >= 0.0
  {
    CapacitySumEverywhere(edges);
    map p | p in PairsOf(edges) :: CapacitySum(edges, p)
  }

  /** `CapacitySumBounds` for every pair at once. */
  lemma CapacitySumEverywhere(edges: seq<EdgeTriple>)
    ensures forall p :: p !in PairsOf(edges) ==> CapacitySum(edges, p) == 0.0
    ensures !HasNegative(edges) ==> forall p :: CapacitySum(edges, p) >= 0.0
  {
    forall p ensures p !in PairsOf(edges) ==> CapacitySum(edges, p) == 0.0 {
      CapacitySumBounds(edges, p);
    }
    forall p ensures !HasNegative(edges) ==> CapacitySum(edges, p) >= 0.0 {
      CapacitySumBounds(edges, p);
    }
  }

  /** The distinct pairs of a concatenation are those of its two parts. */
  lemma PairsOfAppend(a: seq<EdgeTriple>, b: seq<EdgeTriple>)
    ensures PairsOf(a + b) == PairsOf(a) + PairsOf(b)
  {
    forall p | p in PairsOf(a + b) ensures p in PairsOf(a) + PairsOf(b) {
      var i :| 0 <= i < |a + b| && PairOf((a + b)[i]) == p;
      if i >= |a| {
        assert (a + b)[i] == b[i - |a|];
      }
    }
    forall p | p in PairsOf(a) + PairsOf(b) ensures p in PairsOf(a + b) {
      if p in PairsOf(a) {
        var i :| 0 <= i < |a| && PairOf(a[i]) == p;
        assert (a + b)[i] == a[i];
      } else {
        var i :| 0 <= i < |b| && PairOf(b[i]) == p;
        assert (a + b)[|a| + i] == b[i];
      }
    }
  }

  /**
   * Aggregating a concatenated edge list merges the two capacity maps: the
   * keys are united and a pair present in both gets the sum of its totals.
   */
  lemma {:induction false} CapacityMapAppend(a: seq<EdgeTriple>, b: seq<EdgeTriple>)
    ensures CapacityMap(a + b).Keys == CapacityMap(a).Keys + CapacityMap(b).Keys
    ensures forall p :: p in CapacityMap(a + b) ==>
      CapacityMap(a + b)[p]
        == (if p in CapacityMap(a) then CapacityMap(a)[p] else 0.0)
         + (if p in CapacityMap(b) then CapacityMap(b)[p] else 0.0)
  {
    PairsOfAppend(a, b);
    forall p | p in CapacityMap(a + b)
      ensures CapacityMap(a + b)[p]
        == (if p in CapacityMap(a) then CapacityMap(a)[p] else 0.0)
         + (if p in CapacityMap(b) then CapacityMap(b)[p] else 0.0)
    {
      CapacitySumAppend(a, b, p);
    }
  }

  /** Aggregating two lists is adding their sums: the split into calls does not matter. */
  lemma {:induction false} CapacitySumAppend(a: seq<EdgeTriple>, b: seq<EdgeTriple>, key: Pair)
    ensures CapacitySum(a + b, key) == CapacitySum(a, key) + CapacitySum(b, key)
    decreases |b|
  {
    if b != [] {
      var b' := b[..|b| - 1];
      assert (a + b)[..|a + b| - 1] == a + b';
      CapacitySumAppend(a, b', key);
    } else {
      assert a + b == a;
    }
  }

  /** A pair that no input edge has sums to zero; with no negative input, no sum is negative. */
  lemma {:induction false} CapacitySumBounds(edges: seq<EdgeTriple>, key: Pair)
    ensures key !in PairsOf(edges) ==> CapacitySum(edges, key) == 0.0
    ensures !HasNegative(edges) ==> CapacitySum(edges, key) >= 0.0
  {
    if edges != [] {
      var init := edges[..|edges| - 1];
      CapacitySumBounds(init, key);
      assert PairsOf(init) <= PairsOf(edges) by {
        forall p | p in PairsOf(init) ensures p in PairsOf(edges) {
          var i :| 0 <= i < |init| && PairOf(init[i]) == p;
          assert edges[i] == init[i];
        }
      }
      assert PairOf(edges[|edges| - 1]) in PairsOf(edges);
      if !HasNegative(edges) {
        assert !HasNegative(init) by {
          forall i | 0 <= i < |init| ensures init[i].2 >= 0.0 { assert edges[i] == init[i]; }
        }
        assert edges[|edges| - 1].2 >= 0.0;
      }
    }
  }

  /**
   * The aggregation loop of `solve_max_flow`: a negative capacity raises
   * `ValueError` before any graph is built; otherwise the map has exactly
   * the distinct input pairs as keys, each with the sum of its capacities.
   */
  method AggregateCapacities(edges: seq<EdgeTriple>) returns (r: Result<map<Pair, real>>)
    ensures r.Err? <==> HasNegative(edges)
    ensures r.Err? ==> r.message == NegativeCapacity
    ensures r.Ok? ==> r.value.Keys == PairsOf(edges)
    ensures r.Ok? ==> forall p :: p in r.value ==> r.value[p] == CapacitySum(edges, p) && r.value[p] >= 0.0
    ensures r.Ok? ==> r.value == CapacityMap(edges)
  {
    var capMap: map<Pair, real> := map[];
    var i := 0;
    while i < |edges|
      invariant 0 <= i <= |edges|
      invariant forall j :: 0 <= j < i ==> edges[j].2 >= 0.0
      invariant capMap.Keys == PairsOf(edges[..i])
      invariant forall p :: CapacitySum(edges[..i], p) == if p in capMap then capMap[p] else 0.0
    {
      var u, v, cap := edges[i].0, edges[i].1, edges[i].2;
      if cap < 0.0 {
        return Err(NegativeCapacity);
      }
      var key := (u, v);
      capMap := capMap[key := (if key in capMap then capMap[key] else 0.0) + cap];
      assert edges[..i + 1][..i] == edges[..i];
      assert PairsOf(edges[..i + 1]) == PairsOf(edges[..i]) + {key} by {
        assert forall j :: 0 <= j < i ==> edges[..i + 1][j] == edges[..i][j];
      }
      i := i + 1;
    }
    assert edges[..i] == edges;
    forall p | p in capMap ensures capMap[p] >= 0.0 {
      CapacitySumBounds(edges, p);
    }
    return Ok(capMap);
  }

  /** Python truthiness of the `source` and `sink` fields: present and not the empty string. */
  predicate Provided(s: Option<string>) {
    s.Some? && s.value != ""
  }

  /**
   * The `/solve` handler. The endpoint guard comes first, then the edge
   * guard, then the capacity check; a solver exception is a 400 with its
   * message; a solved network returns the flow, the flow map, the
   * aggregated capacities and the extracted paths.
   */
  method HandleSolve(req: Request, maxFlow: MaxFlowSolver) returns (resp: Response)
    ensures !Provided(req.source) || !Provided(req.sink) ==> resp == BadRequest(MissingEndpoints)
    ensures Provided(req.source) && Provided(req.sink) && req.edges == [] ==> resp == BadRequest(MissingEdges)
    ensures Provided(req.source) && Provided(req.sink) && req.edges != [] && HasNegative(req.edges) ==>
      resp == BadRequest(NegativeCapacity)
    ensures Provided(req.source) && Provided(req.sink) && req.edges != [] && !HasNegative(req.edges) ==>
      match maxFlow(CapacityMap(req.edges), req.source.value, req.sink.value)
      case Err(message) => resp == BadRequest(message)
      case Ok((value, fd)) =>
        resp == Solved(value, fd, CapacityMap(req.edges), FlowPaths.FlowPathsOf(fd, req.source.value, req.sink.value))
  {
    if !Provided(req.source) || !Provided(req.sink) {
      return BadRequest(MissingEndpoints);
    }
    if req.edges == [] {
      return BadRequest(MissingEdges);
    }
    var source, sink := req.source.value, req.sink.value;
    var aggregated := AggregateCapacities(req.edges);
    if aggregated.Err? {
      return BadRequest(aggregated.message);
    }
    var capacities := aggregated.value;
    var solved := maxFlow(capacities, source, sink);
    if solved.Err? {
      return BadRequest(solved.message);
    }
    var (value, fd) := solved.value;
    var paths := FlowPaths.ExtractFlowPaths(fd, source, sink);
    resp := Solved(value, fd, capacities, paths);
  }
}
