# Network flow visualizer: editor, animator and flow-path extraction

This Dafny project models the sequential core of a small web tool that edits
a flow network, sends it to a max-flow server, and animates the flow
decomposition the server returns.

On the client side (`static/js/script.js`) the model covers:
- the editor state: the ordered edge list, the selected row (-1 for none), the
  shared animation-cancellation flag, the results region, the cached pixel
  layout and the disabled state of the solve button;
- the event handlers that change that state;
- the bounding-box projection of solver positions into the padded canvas;
- the loop that plays the flow paths one frame at a time.

On the server side (`app.py`) the model covers:
- the capacity aggregation and negative-capacity check of `solve_max_flow`;
- the depth-first extraction of flow paths, `extract_flow_paths`;
- the input guards of the `/solve` handler.

Modules, one per file:
- `Common`: `Option`, `Result`, and the `[from, to, capacity]` triple.
- `Text`: `String.prototype.trim`, using the ECMAScript WhiteSpace and
  LineTerminator code points.
- `Layout`: bounds, projection, and "draw an arrow only between positioned
  nodes".
- `Animation`: `animatePathsSequentially`.
- `Editor`: the class `EditorState` with one method per handler.
- `FlowPaths`: the DFS. There is a pure specification (`Dfs`/`Visit`/`Explore`)
  and a recursive method (`DfsWalk`) that threads the shared `visited` set and
  result list the way the Python closure does.
- `Server`: the aggregation loop and the `/solve` handler. The networkx
  max-flow call is a function parameter.

Calls into code outside the model become inputs:
- `alert` is an `Option<string>` out-parameter.
- `confirm` is a `bool` parameter.
- `parseFloat` is an `Option<real>`, with NaN as `None`.
- `Math.random()` is a `fallback: Node -> Point` parameter.
- The awaited reply is a `Reply` value.
- The cancellation flag at the top of animation iteration `i` is `cancelled(i)`.
- `nx.maximum_flow` is a `MaxFlowSolver` function that returns the flow value
  and flow map, or the message it raises.

JavaScript numbers and Python floats are `real`: idealised arithmetic with no
rounding and no NaN.

The flow map is a map from each node to an ordered adjacency list
`seq<(Node, real)>`. That keeps the Python dictionary's iteration order, which
fixes the order in which paths are found. The claims about the flow along a
path require `WellFormed`, which says no target repeats in an adjacency list.
That holds because the source data is a dictionary.

Behaviour of the handlers that is easy to miss, as the code has it:
- Inline removal (`static/js/script.js:38-39`) clears the selection only when
  the removed row was the selected one. A higher selection is not shifted
  down, so it then names the next edge, or no edge when the selected row was
  last. `Editor.InlineRemoveAboveSelection` states this. The only selection
  invariant the code keeps is `selectedIndex >= -1` (`EditorState.Valid`).
- Inline removal (`static/js/script.js:36-41`) and the Delete/Backspace
  handler (`static/js/script.js:261-269`) neither cancel the animation nor
  clear the results; the add, remove-selected and clear-all buttons do both.
- The Delete/Backspace handler (`static/js/script.js:263`) checks only
  `selectedIndex >= 0`. With a stale selection past the end of the list,
  `splice` removes nothing and the selection is still cleared.
- The client (`static/js/script.js:97-106`) checks "no edges" before the
  source/sink check; the server (`app.py:64-67`) checks source/sink before
  edges.

## Model

| member | source | states |
|---|---|---|
| Text.LeadingSpace | static/js/script.js:60-61 | The count of leading characters removed by `trim` is within bounds. Every counted character is whitespace, and the next one is not. |
| Text.TrailingSpace | static/js/script.js:60-61 | The same for the trailing whitespace that `trim` removes. |
| Text.Trim | static/js/script.js:60-61 | `trim()` returns the infix of its input left after the leading and trailing whitespace: everything dropped before and after it is whitespace. It is empty exactly when the input is all whitespace, otherwise it starts and ends with a non-whitespace character. |
| Text.TrimIdempotent | static/js/script.js:101-102 | Trimming an already trimmed field changes nothing. |
| Layout.ComputeBounds | static/js/script.js:160-165 | The bounds are the defaults [0,1] x [0,1] when there is no position. Otherwise each axis gets the least and greatest supplied coordinate, and some node attains each bound. |
| Layout.BoundingBoxUnique | static/js/script.js:161-165 | Only one box meets that description, so the order of `Object.values` does not matter. |
| Layout.Divisor | static/js/script.js:173-174 | The `|| 1` guard: the divisor is never zero, and it equals the extent when the extent is non-zero. |
| Layout.ToPixel | static/js/script.js:173-175 | Definition: one coordinate, `pad` plus `(c - lo)` divided by the extent (or by 1 when the extent is zero), times `span`. |
| Layout.Project | static/js/script.js:167-168 | Definition: a point projected on both axes, with span `width - 2*pad` for x and `height - 2*pad` for y. |
| Layout.Supplied | static/js/script.js:172 | Definition: a node's supplied position, or the fallback when it has none. |
| Layout.ComputeLayout | static/js/script.js:166-176 | `posPx` has one entry per listed node. Each entry is that node's supplied position, or its fallback, projected under the bounding box of the supplied positions. |
| Layout.LowMapsToPad | static/js/script.js:173-175 | The smallest coordinate of an axis lands on the padding line `pad`. |
| Layout.HighMapsToFarEdge | static/js/script.js:173-175 | With a non-zero extent, the largest coordinate lands on `pad + span`. |
| Layout.DegenerateMapsToPad | static/js/script.js:173-175 | With a zero extent the divisor is 1, so a coordinate equal to the bound lands exactly on `pad`. |
| Layout.ToPixelWithin | static/js/script.js:173-175 | A coordinate between the bounds is projected between `pad` and `pad + span`. |
| Layout.SuppliedPositionsFillPaddedRectangle | static/js/script.js:161-176 | Every supplied position falls in [pad, width-pad] x [pad, height-pad]. Nodes attaining a bound land on that edge. An axis with all coordinates equal collapses onto `pad`. |
| Layout.ThreeNodeExample | static/js/script.js:161-176 | On a 360 x 360 canvas, A(0,0) and B(10,0) project to x 80 and 280, and C(5,10) projects to y 280. |
| Layout.EqualPositionsExample | static/js/script.js:161-176 | Two nodes at (3,3) both project to (pad, pad), with no division by zero. |
| Layout.Arrows | static/js/script.js:180-185 | Definition: the arrows for a list of pairs, in order, skipping a pair with an endpoint that has no position. |
| Layout.ArrowsExactly | static/js/script.js:180-185 | Each drawn arrow comes from a listed pair whose endpoints both have positions, and is drawn at those positions. Every such pair is drawn, and pairs with a missing endpoint are skipped. |
| Layout.AllPositionedAllDrawn | static/js/script.js:180-185 | When every endpoint has a position, every pair is drawn. |
| Animation.ConsecutivePairs | static/js/script.js:240-241 | The inner loop visits `(path[j], path[j+1])` for each j, and none when the path has fewer than two nodes. |
| Animation.PathArrows | static/js/script.js:240-245 | Definition: a path's highlighted arrows are `Arrows` over its consecutive pairs. |
| Animation.FrameOf | static/js/script.js:236-251 | Definition: one iteration draws the base graph again, plus the path's arrows labelled with its flow. |
| Animation.FirstCancelled | static/js/script.js:234-235 | The stopping iteration is the first one whose flag check reads true, or the end. No flag before it is set. |
| Animation.FirstCancelledIs | static/js/script.js:234-235 | That stopping index is uniquely determined by the flags. |
| Animation.PlayedFrames | static/js/script.js:230-255 | A missing `paths` list plays nothing. Otherwise frame i is path i's redraw and arrows, for each i before the first set flag, in order. When the loop stops early, the flag was set at that iteration. |
| Animation.AnimatePathsSequentially | static/js/script.js:230-255 | The nested loops yield exactly `PlayedFrames`. |
| Animation.ShortPathDrawsNothing | static/js/script.js:240 | A path with fewer than two nodes highlights nothing. |
| Animation.PathArrowsExactly | static/js/script.js:240-245 | A path's highlighted arrows are exactly its consecutive pairs whose endpoints both have a position. |
| Animation.FirstPathAlwaysPlays | static/js/script.js:143-144 | The flag is cleared just before the loop starts, so a non-empty path list always plays its first path. |
| Animation.NoCancelPlaysAll | static/js/script.js:234-254 | If the flag is never set, every path is played. |
| Animation.TwoPathExample | static/js/script.js:234-254 | For A-B-C (flow 5) then A-C (flow 2), both frames play in that order. If the flag is set before the second iteration, only the first plays. |
| Editor.RemoveAt | static/js/script.js:38 | `splice(i, 1)` inside the list drops exactly element i. Survivors keep their order, and the length drops by one. |
| Editor.ToTriples | static/js/script.js:114 | The payload has one `[from, to, capacity]` triple per edge, in list order. |
| Editor.FlagsAfterStart | static/js/script.js:143-144 | Definition: the flag reads false at the first check and takes whatever value interleaved events left at later checks. |
| Editor.InlineRemoveAboveSelection | static/js/script.js:38-39 | Removing a row above the selection leaves `selectedIndex` unchanged, so it now names the following edge, or nothing. |
| Editor.EditorState.constructor | static/js/script.js:19-21 | The initial state: no edges, no selection, flag cleared, no results. |
| Editor.EditorState.ClearResultsAndCancelAnimation | static/js/script.js:53-56 | The results are cleared and the cancellation flag is set. |
| Editor.EditorState.AddEdge | static/js/script.js:59-72 | An empty trimmed endpoint or an unparsed capacity raises the alert and changes nothing. Otherwise exactly the trimmed edge is appended after the old list, the selection becomes -1, the flag is set and the results are cleared. |
| Editor.EditorState.RemoveSelected | static/js/script.js:75-84 | A selection outside [0, length) raises the alert and changes nothing. Otherwise exactly the selected edge is removed, the selection becomes -1, the flag is set and the results are cleared. |
| Editor.EditorState.ClearAll | static/js/script.js:87-93 | If confirmation is declined, nothing changes. If accepted, the list is emptied, the selection becomes -1, the flag is set and the results are cleared. |
| Editor.EditorState.ClickRow | static/js/script.js:44-47 | Clicking row i deselects it if it was selected, and selects it otherwise. |
| Editor.EditorState.RemoveInline | static/js/script.js:36-41 | Exactly edge i is removed. The selection is cleared only if it was i. The flag and results are untouched. |
| Editor.EditorState.KeyDown | static/js/script.js:261-269 | Delete or Backspace with a selection of at least 0 clears the selection, and removes the selected edge when the index is inside the list. Any other key, or no selection, changes nothing. |
| Editor.EditorState.Solve | static/js/script.js:96-117 | With no edges, or an empty trimmed source or sink, it alerts (edges checked first) and changes nothing. Otherwise the flag is set, the button is disabled, and the request holds the triples in order with the trimmed endpoints. |
| Editor.EditorState.DrawBaseGraph | static/js/script.js:155-193 | The cached layout is set to the projection described by `IsLayout`. The muted arrows are the result edges whose endpoints both have positions. |
| Editor.EditorState.ReceiveReply | static/js/script.js:119-151 | A thrown error or non-2xx reply writes only the message (or "Unknown error"), draws nothing, and keeps the cached layout. A success writes the summary, caches the layout, clears the flag and plays `PlayedFrames`. The button is re-enabled in every case. |
| FlowPaths.Min | app.py:43 | `min(flow, f)` is finite, at most both arguments, and equal to one of them. |
| FlowPaths.Dfs | app.py:36-39 | Definition: `dfs(u, path, flow)` records `(path, flow)` at the sink, and otherwise runs the loop over `u`'s flow entries. |
| FlowPaths.Visit | app.py:41-44 | Definition: one iteration. It recurses on `v` with `path + [v]`, `min(flow, f)` and the edge marked, when `f > 0` and the edge is unvisited; otherwise it records nothing. |
| FlowPaths.Explore | app.py:40-44 | Definition: the loop, from entry k on, in dictionary order. |
| FlowPaths.FlowPathsOf | app.py:46-47 | Definition: the paths of `dfs(source, [source], inf)` with `visited` empty. |
| FlowPaths.DfsWalk | app.py:36-44 | The recursive `dfs` appends exactly the specified paths, and hands `visited` back exactly as it received it. |
| FlowPaths.ExtractFlowPaths | app.py:31-47 | `extract_flow_paths` returns the paths of one search from the source with empty `visited`, which is empty again at the end. |
| FlowPaths.Bottleneck | app.py:36-46 | The flow recorded for a path starts at `inf` and is lowered by `min` at each edge. It stays infinite exactly when the path has fewer than two nodes. |
| FlowPaths.BottleneckIsMinimum | app.py:36-46 | A path of two or more nodes has a finite bottleneck. It is at most the flow of every edge on the path and equals the flow of one of them. |
| FlowPaths.DfsSound | app.py:36-44 | Everything `dfs(u, path, flow)` records extends `path` to the sink along unvisited positive-flow edges that are not repeated, and carries its bottleneck. |
| FlowPaths.ExploreSound | app.py:40-44 | The same holds for the loop iterations from any index on. |
| FlowPaths.FlowPathsSound | app.py:31-47 | Every returned path starts at the source and ends at the sink, which it reaches only at its end. Each edge along it has `flow_dict[u][v] > 0`, no directed edge repeats, and its flow is the bottleneck. |
| FlowPaths.SourceIsSink | app.py:37-38 | When the source is the sink, the result is the single path `[source]` with infinite flow. |
| Server.CapacityMap | app.py:14-18 | The reference definition of `cap_map`. For every pair, present or not, `cap_map.get(p, 0)` is the total capacity of the input edges with that pair. With no negative input capacity, no entry is negative. |
| Server.CapacityMapAppend | app.py:14-18 | Aggregating a concatenated edge list merges the two capacity maps: the keys are united, and a pair present in both gets the sum of its two totals. |
| Server.CapacitySumAppend | app.py:15-18 | Summing over a concatenation adds the two sums, so the aggregate does not depend on how the input is split. |
| Server.CapacitySumBounds | app.py:15-18 | A pair absent from the input sums to 0. With no negative input capacity, no sum is negative. |
| Server.CapacitySum | app.py:18 | Definition: the sum of the capacities of the input edges with a given pair. |
| Server.Provided | app.py:64 | Definition: Python truthiness of `source` or `sink`, meaning present and not the empty string. |
| Server.AggregateCapacities | app.py:13-18 | It raises the ValueError message exactly when some capacity is negative. Otherwise it returns a map keyed by exactly the distinct pairs, each holding the non-negative sum of its capacities. |
| Server.HandleSolve | app.py:55-103 | A missing or empty source or sink gives 400 before the edge check. An empty edge list then gives 400, and a negative capacity gives 400 with the ValueError message. A solver exception gives 400 with its message. Otherwise the reply carries the flow, flow map, aggregated capacities and extracted paths. |

## Left out

- DOM and canvas output: `drawNode`, the arrow-head trigonometry of `drawArrow`, the HTML built by `refreshEdgeList`, and the HTML of the results region. A frame is a base redraw plus a list of arrow segments, and the results are a `Results` value, not text.
- Clearing the three input fields after an add (static/js/script.js:68) and the solve button's label: these are DOM-only effects.
- Node colouring by the current source field in `drawBaseGraph` (static/js/script.js:187-190): this is drawing output.
- `Math.random()`: it is a fallback parameter fixed for one reply. In the source, each redraw inside the animation draws fresh random positions for unplaced nodes and overwrites `canvas._posPx`. In the model, repeated redraws are identical and the cache is written once per reply.
- `fetch`, `resp.json`, `sleep(1200)` and event-loop interleaving: the reply is an input, and the flag value at each loop boundary is the `interleaved` function. Events that fire during the sleeps are separate handler calls.
- `parseFloat` can accept "Infinity". Reals have no infinity, so capacities are finite in the model.
- Exceptions in the client other than a failed request or an unparseable reply, for example a malformed `paths` entry.
- `nx.maximum_flow` (Edmonds-Karp), `nx.spring_layout` and the DiGraph construction are a foreign library. The solver is a parameter, and the reply's `positions` and `nodes` are not produced by the server model.
- Python dictionary insertion order of `cap_map`, which through the DiGraph determines the order of `edges_out` (app.py:79-80): `cap_map` is a Dafny `map`.
- Flask routing, `jsonify`, the `float`/`str` conversions and the catch-all handler for exceptions not modelled here: malformed edge entries, non-numeric capacities, source/sink values that are neither strings nor absent, and the `RecursionError` Python raises once `dfs` recurses deeper than its recursion limit (one level per edge of the path). `FlowPaths.Dfs` has no depth bound. `source` and `sink` are modelled as absent or a string.
- FlowPaths.FlowPathsSound: it requires `WellFormed` (distinct keys per adjacency), which the source gets for free from Python dictionaries.
