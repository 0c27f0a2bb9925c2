/**
 * The page script: the edge list being edited, the selected row, the shared
 * animation-cancellation flag, the results region and the cached pixel
 * layout, with the event handlers that change them. `alert` and `confirm`
 * become an out-parameter and an in-parameter; `parseFloat` is done by the
 * caller, a NaN arriving as `None`.
 */
module Editor {
  import opened Common
  import opened Text
  import opened Layout
  import opened Animation

  /** One edge of the network, `{from, to, capacity}`. */
  datatype Edge = Edge(from: string, to: string, capacity: real)

  /** The body of `POST /solve`. */
  datatype SolveRequest = SolveRequest(edges: seq<EdgeTriple>, source: string, sink: string)

  /** What a click on the solve button does: an alert, or a request sent. */
  datatype SolveOutcome = Alerted(message: string) | Requested(request: SolveRequest)

  /** The parsed success body; a missing `nodes`, `edges` or `positions` reads as empty. */
  datatype SolveData = SolveData(maxFlow: real, paths: Option<seq<FlowPath>>, nodes: seq<Node>,
                                 edges: seq<(Node, Node)>, positions: map<Node, Point>)

  /** How the request ended: an exception (network or JSON), a non-2xx body, or a success body. */
  datatype Reply = Thrown(message: string) | Refused(error: Option<string>) | Delivered(data: SolveData)

  /** The content of the results region. */
  datatype Results =
    | NoResults
    | ErrorText(text: string)
    | Summary(source: string, sink: string, maxFlow: real, paths: Option<seq<FlowPath>>)

  const AddRejected := "Please fill From, To and numeric Capacity."
  const NoSelection := "No connection selected!"
  const NoEdges := "Please add at least one edge."
  const NoEndpoints := "Please specify Start and End nodes."
  const UnknownError := "Unknown error"

  /** `s.splice(i, 1)` for an index inside the list: drop element `i`, keep the rest in order. */
  function RemoveAt<T>(s: seq<T>, i: nat): (r: seq<T>)
    requires i < |s|
    ensures |r| == |s| - 1
    ensures forall k :: 0 <= k < i ==> r[k] == s[k]
    ensures forall k :: i <= k < |r| ==> r[k] == s[k + 1]
    ensures multiset(r) + multiset{s[i]} == multiset(s)
  {
    assert s == s[..i] + [s[i]] + s[i + 1..];
    s[..i] + s[i + 1..]
  }

  /** `edges.map(e => [e.from, e.to, e.capacity])`. */
  function ToTriples(es: seq<Edge>): (r: seq<EdgeTriple>)
    ensures |r| == |es|
    ensures forall k :: 0 <= k < |es| ==> r[k] == (es[k].from, es[k].to, es[k].capacity)
  {
    if es == [] then [] else [(es[0].from, es[0].to, es[0].capacity)] + ToTriples(es[1..])
  }

  /** The cancellation flag as the animation loop reads it: false at the first check, which runs before any await. */
  function FlagsAfterStart(interleaved: nat -> bool): nat -> bool {
    (i: nat) => i != 0 && interleaved(i)
  }

  /**
   * Inline removal of a row above the selected one leaves `selectedIndex` as
   * it was, so it now designates the edge that followed the selected one, or
   * no edge at all when the selected one was last.
   */
  lemma InlineRemoveAboveSelection(s: seq<Edge>, i: nat, sel: nat)
    requires i < sel < |s|
    ensures sel + 1 < |s| ==> RemoveAt(s, i)[sel] == s[sel + 1]
    ensures sel + 1 == |s| ==> sel == |RemoveAt(s, i)|
    ensures RemoveAt(s, i)[sel - 1] == s[sel]
  {
  }

  class EditorState {
    var edges: seq<Edge>
    var selectedIndex: int
    var animationCancel: bool
    var results: Results
    /** `canvas._posPx`, the layout of the last base-graph render. */
    var cachedPositions: map<Node, Point>
    /** `solveBtn.disabled`, set while a solve is in flight. */
    var solveDisabled: bool

    /** The selection is a row index or -1; it is not kept below `|edges|`. */
    ghost predicate Valid()
      reads this
    {
      selectedIndex >= -1
    }

    constructor ()
      ensures Valid()
      ensures edges == [] && selectedIndex == -1 && !animationCancel && results == NoResults
      ensures cachedPositions == map[] && !solveDisabled
    {
      edges := [];
      selectedIndex := -1;
      animationCancel := false;
      results := NoResults;
      cachedPositions := map[];
      solveDisabled := false;
    }

    /** `clearResultsAndCancelAnimation`. */
    method ClearResultsAndCancelAnimation()
      modifies this`results, this`animationCancel
      ensures results == NoResults && animationCancel
    {
      results := NoResults;
      animationCancel := true;
    }

    /**
     * The add button. An empty trimmed endpoint or a capacity that did not
     * parse is rejected with an alert and changes nothing; otherwise the edge
     * is appended, the selection cleared, the results cleared and the
     * animation cancelled.
     */
    method AddEdge(fromText: string, toText: string, capacity: Option<real>) returns (alert: Option<string>)
      requires Valid()
      modifies this`edges, this`selectedIndex, this`results, this`animationCancel
      ensures Valid()
      ensures Trim(fromText) == "" || Trim(toText) == "" || capacity.None? ==>
        alert == Some(AddRejected) && unchanged(this)
      ensures Trim(fromText) != "" && Trim(toText) != "" && capacity.Some? ==>
        && alert == None
        && edges == old(edges) + [Edge(Trim(fromText), Trim(toText), capacity.value)]
        && selectedIndex == -1 && animationCancel && results == NoResults
    {
      var u := Trim(fromText);
      var v := Trim(toText);
      if u == "" || v == "" || capacity.None? {
        return Some(AddRejected);
      }
      edges := edges + [Edge(u, v, capacity.value)];
      selectedIndex := -1;
      ClearResultsAndCancelAnimation();
      alert := None;
    }

    /**
     * The remove-selected button. A selection outside the list is rejected
     * with an alert and changes nothing; otherwise exactly the selected edge
     * is removed, the selection cleared, the results cleared and the
     * animation cancelled.
     */
    method RemoveSelected() returns (alert: Option<string>)
      requires Valid()
      modifies this`edges, this`selectedIndex, this`results, this`animationCancel
      ensures Valid()
      ensures old(selectedIndex) == -1 || old(selectedIndex) >= |old(edges)| ==>
        alert == Some(NoSelection) && unchanged(this)
      ensures -1 < old(selectedIndex) < |old(edges)| ==>
        && alert == None
        && edges == RemoveAt(old(edges), old(selectedIndex))
        && selectedIndex == -1 && animationCancel && results == NoResults
    {
      if selectedIndex < 0 || selectedIndex >= |edges| {
        return Some(NoSelection);
      }
      edges := RemoveAt(edges, selectedIndex);
      selectedIndex := -1;
      ClearResultsAndCancelAnimation();
      alert := None;
    }

    /** The clear-all button, behind a confirmation. */
    method ClearAll(confirmed: bool)
      requires Valid()
      modifies this`edges, this`selectedIndex, this`results, this`animationCancel
      ensures Valid()
      ensures !confirmed ==> unchanged(this)
      ensures confirmed ==> edges == [] && selectedIndex == -1 && animationCancel && results == NoResults
    {
      if !confirmed {
        return;
      }
      edges := [];
      selectedIndex := -1;
      ClearResultsAndCancelAnimation();
    }

    /** A click on row `i`: deselect it if it was selected, select it otherwise. */
    method ClickRow(i: nat)
      requires Valid() && i < |edges|
      modifies this`selectedIndex
      ensures Valid()
      ensures selectedIndex == if old(selectedIndex) == i then -1 else i
    {
      selectedIndex := if i == selectedIndex then -1 else i;
    }

    /**
     * The inline remove button of row `i`: removes exactly edge `i` and
     * clears the selection only when it was `i`; a higher selection is not
     * shifted down, and neither the results nor the animation are touched.
     */
    method RemoveInline(i: nat)
      requires Valid() && i < |edges|
      modifies this`edges, this`selectedIndex
      ensures Valid()
      ensures edges == RemoveAt(old(edges), i)
      ensures selectedIndex == if old(selectedIndex) == i then -1 else old(selectedIndex)
    {
      edges := RemoveAt(edges, i);
      if selectedIndex == i {
        selectedIndex := -1;
      }
    }

    /**
     * Delete or Backspace on the edge list with a selection: the selected
     * edge is removed when the index is still inside the list (splice past
     * the end removes nothing) and the selection is cleared. The upper bound
     * is not checked, and the results and the animation are not touched.
     */
    method KeyDown(key: string)
      requires Valid()
      modifies this`edges, this`selectedIndex
      ensures Valid()
      ensures (key == "Delete" || key == "Backspace") && old(selectedIndex) >= 0 ==>
        && selectedIndex == -1
        && edges == if old(selectedIndex) < |old(edges)| then RemoveAt(old(edges), old(selectedIndex)) else old(edges)
      ensures !((key == "Delete" || key == "Backspace") && old(selectedIndex) >= 0) ==> unchanged(this)
    {
      if key == "Delete" || key == "Backspace" {
        if selectedIndex >= 0 {
          if selectedIndex < |edges| {
            edges := RemoveAt(edges, selectedIndex);
          }
          selectedIndex := -1;
        }
      }
    }

    /**
     * The solve button up to the request. With no edge, or an empty trimmed
     * source or sink, it alerts (the edge check first) and changes nothing.
     * Otherwise it disables the button, sets the cancellation flag and sends
     * the edges as triples in list order with the trimmed endpoints.
     */
    method Solve(sourceText: string, sinkText: string) returns (outcome: SolveOutcome)
      modifies this`animationCancel, this`solveDisabled
      ensures |edges| == 0 ==> outcome == Alerted(NoEdges) && unchanged(this)
      ensures |edges| > 0 && (Trim(sourceText) == "" || Trim(sinkText) == "") ==>
        outcome == Alerted(NoEndpoints) && unchanged(this)
      ensures |edges| > 0 && Trim(sourceText) != "" && Trim(sinkText) != "" ==>
        && outcome == Requested(SolveRequest(ToTriples(edges), Trim(sourceText), Trim(sinkText)))
        && animationCancel && solveDisabled
    {
      if |edges| == 0 {
        return Alerted(NoEdges);
      }
      var source := Trim(sourceText);
      var sink := Trim(sinkText);
      if source == "" || sink == "" {
        return Alerted(NoEndpoints);
      }
      solveDisabled := true;
      animationCancel := true;
      outcome := Requested(SolveRequest(ToTriples(edges), source, sink));
    }

    /**
     * `drawBaseGraph`: computes and caches the pixel layout and returns the
     * muted arrows, one per result edge whose endpoints both have a position.
     */
    method DrawBaseGraph(data: SolveData, width: real, height: real, fallback: Node -> Point)
      returns (arrows: seq<Segment>)
      modifies this`cachedPositions
      ensures IsLayout(cachedPositions, data.nodes, data.positions, width, height, fallback)
      ensures arrows == Arrows(data.edges, cachedPositions)
    {
      var posPx := ComputeLayout(data.nodes, data.positions, width, height, fallback);
      arrows := Arrows(data.edges, posPx);
      cachedPositions := posPx;
    }

    /**
     * The solve handler after the request: a thrown error or a non-2xx reply
     * only writes the results region and draws nothing; a success writes the
     * summary, renders the base graph, clears the cancellation flag and plays
     * the paths. `interleaved(i)` is the flag at the top of iteration `i >= 1`,
     * as events during the sleeps left it. The button is re-enabled at the end.
     */
    method ReceiveReply(request: SolveRequest, reply: Reply, width: real, height: real,
                        fallback: Node -> Point, interleaved: nat -> bool)
      returns (frames: seq<Frame>)
      modifies this`results, this`cachedPositions, this`animationCancel, this`solveDisabled
      ensures !solveDisabled
      ensures reply.Thrown? ==>
        && results == ErrorText("Error: " + reply.message) && frames == []
        && cachedPositions == old(cachedPositions) && animationCancel == old(animationCancel)
      ensures reply.Refused? ==>
        && results == ErrorText(if reply.error.Some? && reply.error.value != "" then reply.error.value else UnknownError)
        && frames == [] && cachedPositions == old(cachedPositions) && animationCancel == old(animationCancel)
      ensures reply.Delivered? ==>
        && results == Summary(request.source, request.sink, reply.data.maxFlow, reply.data.paths)
        && IsLayout(cachedPositions, reply.data.nodes, reply.data.positions, width, height, fallback)
        && !animationCancel
        && frames == PlayedFrames(reply.data.paths, cachedPositions, FlagsAfterStart(interleaved))
    {
      frames := [];
      match reply {
        case Thrown(message) =>
          results := ErrorText("Error: " + message);
        case Refused(error) =>
          results := ErrorText(if error.Some? && error.value != "" then error.value else UnknownError);
        case Delivered(data) =>
          results := Summary(request.source, request.sink, data.maxFlow, data.paths);
          var _ := DrawBaseGraph(data, width, height, fallback);
          animationCancel := false;
          frames := AnimatePathsSequentially(data.paths, cachedPositions, FlagsAfterStart(interleaved));
      }
      solveDisabled := false;
    }
  }
}
