/**
 * `animatePathsSequentially`: the flow paths of a solve result are played in
 * order; before each one the shared cancellation flag is read, and a set flag
 * ends the loop. Every played path is one frame: a full redraw of the base
 * graph followed by one highlighted arrow, labelled with the path's flow, per
 * consecutive node pair whose endpoints both have a pixel position.
 */
module Animation {
  import opened Common
  import opened Layout

  /** One `{path, flow}` entry of the solve result. */
  datatype FlowPath = FlowPath(path: seq<Node>, flow: real)

  /**
   * One played path: a `drawBaseGraph` redraw, then `arrows` drawn in the
   * highlight style, each labelled "`flow` units" at its midpoint.
   */
  datatype Frame = Frame(flow: real, arrows: seq<Segment>)

  /** The pairs `(path[j], path[j+1])` the inner loop visits, in order. */
  function ConsecutivePairs(path: seq<Node>): (r: seq<(Node, Node)>)
    ensures |r| == if |path| < 2 then 0 else |path| - 1
    ensures forall j :: 0 <= j < |r| ==> r[j] == (path[j], path[j + 1])
  {
    if |path| < 2 then [] else [(path[0], path[1])] + ConsecutivePairs(path[1..])
  }

  /** The highlighted arrows of one path. */
  function PathArrows(path: seq<Node>, posPx: map<Node, Point>): seq<Segment> {
    Arrows(ConsecutivePairs(path), posPx)
  }

  /** The frame a path produces when it is played. */
  function FrameOf(p: FlowPath, posPx: map<Node, Point>): Frame {
    Frame(p.flow, PathArrows(p.path, posPx))
  }

  /**
   * The index of the first iteration in `[from, n)` at whose top the flag
   * `cancelled` reads true, or `n` when it never does.
   */
  function FirstCancelled(cancelled: nat -> bool, from: nat, n: nat): (k: nat)
    requires from <= n
    ensures from <= k <= n
    ensures forall i :: from <= i < k ==> !cancelled(i)
    ensures k < n ==> cancelled(k)
    decreases n - from
  {
    if from == n then n
    else if cancelled(from) then from
    else FirstCancelled(cancelled, from + 1, n)
  }

  /** The first cancelled iteration is determined by the flags alone. */
  lemma {:induction false} FirstCancelledIs(cancelled: nat -> bool, from: nat, n: nat, k: nat)
    requires from <= k <= n
    requires forall i :: from <= i < k ==> !cancelled(i)
    requires k < n ==> cancelled(k)
    ensures FirstCancelled(cancelled, from, n) == k
    decreases n - from
  {
    if from < k {
      FirstCancelledIs(cancelled, from + 1, n, k);
    }
  }

  /**
   * The frames played for a solve result, given the value `cancelled(i)` of
   * the cancellation flag at the top of iteration `i`: none when the result
   * carries no `paths`, otherwise the frames of the paths before the first
   * iteration that finds the flag set, in path order.
   */
  function PlayedFrames(paths: Option<seq<FlowPath>>, posPx: map<Node, Point>, cancelled: nat -> bool): (r: seq<Frame>)
    ensures paths.None? ==> r == []
    ensures paths.Some? ==> |r| <= |paths.value|
    ensures paths.Some? ==> forall i :: 0 <= i < |r| ==> r[i] == FrameOf(paths.value[i], posPx) && !cancelled(i)
    ensures paths.Some? && |r| < |paths.value| ==> cancelled(|r|)
  {
    match paths
    case None => []
    case Some(ps) =>
      var k := FirstCancelled(cancelled, 0, |ps|);
      seq(k, i requires 0 <= i < k => FrameOf(ps[i], posPx))
  }

  /**
   * The loop of `animatePathsSequentially` over the cached pixel positions
   * `posPx`; the 1200 ms sleep at the end of each iteration is where user
   * events may set the flag that the next iteration reads.
   */
  method AnimatePathsSequentially(paths: Option<seq<FlowPath>>, posPx: map<Node, Point>, cancelled: nat -> bool)
    returns (frames: seq<Frame>)
    ensures frames == PlayedFrames(paths, posPx, cancelled)
  {
    frames := [];
    if paths.None? {
      return;
    }
    var ps := paths.value;
    var i := 0;
    while i < |ps|
      invariant 0 <= i <= |ps|
      invariant forall j :: 0 <= j < i ==> !cancelled(j)
      invariant |frames| == i
      invariant forall j :: 0 <= j < i ==> frames[j] == FrameOf(ps[j], posPx)
    {
      if cancelled(i) {
        break;
      }
      var path := ps[i].path;
      ghost var pairs := ConsecutivePairs(path);
      var arrows := [];
      var j := 0;
      while j < |path| - 1
        invariant 0 <= j <= |pairs|
        invariant arrows == Arrows(pairs[..j], posPx)
      {
        var u, v := path[j], path[j + 1];
        assert pairs[..j + 1][..j] == pairs[..j];
        if u in posPx && v in posPx {
          arrows := arrows + [Segment(u, v, posPx[u], posPx[v])];
        }
        j := j + 1;
      }
      assert pairs[..j] == pairs;
      frames := frames + [Frame(ps[i].flow, arrows)];
      i := i + 1;
    }
    FirstCancelledIs(cancelled, 0, |ps|, i);
  }

  /** A path of fewer than two nodes highlights nothing. */
  lemma ShortPathDrawsNothing(path: seq<Node>, posPx: map<Node, Point>)
    requires |path| < 2
    ensures PathArrows(path, posPx) == []
  {
  }

  /**
   * The highlighted arrows of a path are exactly its consecutive pairs whose
   * endpoints both have a position.
   */
  lemma PathArrowsExactly(path: seq<Node>, posPx: map<Node, Point>)
    ensures forall s :: s in PathArrows(path, posPx) ==>
      (exists j :: 0 <= j < |path| - 1 && s.u == path[j] && s.v == path[j + 1])
      && s.u in posPx && s.v in posPx && s.from == posPx[s.u] && s.to == posPx[s.v]
    ensures forall j :: 0 <= j < |path| - 1 && path[j] in posPx && path[j + 1] in posPx ==>
      Segment(path[j], path[j + 1], posPx[path[j]], posPx[path[j + 1]]) in PathArrows(path, posPx)
  {
    var pairs := ConsecutivePairs(path);
    ArrowsExactly(pairs, posPx);
    forall s | s in PathArrows(path, posPx)
      ensures exists j :: 0 <= j < |path| - 1 && s.u == path[j] && s.v == path[j + 1]
    {
      var k :| 0 <= k < |pairs| && pairs[k] == (s.u, s.v);
      assert pairs[k] == (path[k], path[k + 1]);
    }
    forall j | 0 <= j < |path| - 1 && path[j] in posPx && path[j + 1] in posPx
      ensures Segment(path[j], path[j + 1], posPx[path[j]], posPx[path[j + 1]]) in PathArrows(path, posPx)
    {
      assert pairs[j] == (path[j], path[j + 1]);
    }
  }

  /**
   * Started right after the solve handler clears the flag, the first path is
   * always played, whatever happens during the later sleeps.
   */
  lemma FirstPathAlwaysPlays(ps: seq<FlowPath>, posPx: map<Node, Point>, cancelled: nat -> bool)
    requires |ps| > 0 && !cancelled(0)
    ensures |PlayedFrames(Some(ps), posPx, cancelled)| >= 1
    ensures PlayedFrames(Some(ps), posPx, cancelled)[0] == FrameOf(ps[0], posPx)
  {
  }

  /** With the flag never set, every path is played, in order. */
  lemma NoCancelPlaysAll(ps: seq<FlowPath>, posPx: map<Node, Point>, cancelled: nat -> bool)
    requires forall i :: 0 <= i < |ps| ==> !cancelled(i)
    ensures |PlayedFrames(Some(ps), posPx, cancelled)| == |ps|
  {
  }

  /**
   * The two-path example: A-B-C with flow 5 then A-C with flow 2. Uncancelled,
   * both frames play in that order; with the flag set before the second
   * iteration, only the first does.
   */
  lemma TwoPathExample(posPx: map<Node, Point>)
    requires "A" in posPx && "B" in posPx && "C" in posPx
    ensures var ps := [FlowPath(["A", "B", "C"], 5.0), FlowPath(["A", "C"], 2.0)];
      && PlayedFrames(Some(ps), posPx, (i: nat) => false)
         == [Frame(5.0, [Segment("A", "B", posPx["A"], posPx["B"]), Segment("B", "C", posPx["B"], posPx["C"])]),
             Frame(2.0, [Segment("A", "C", posPx["A"], posPx["C"])])]
      && PlayedFrames(Some(ps), posPx, (i: nat) => i >= 1)
         == [Frame(5.0, [Segment("A", "B", posPx["A"], posPx["B"]), Segment("B", "C", posPx["B"], posPx["C"])])]
  {
    var ps := [FlowPath(["A", "B", "C"], 5.0), FlowPath(["A", "C"], 2.0)];
    var abc := ConsecutivePairs(["A", "B", "C"]);
    assert abc == [("A", "B"), ("B", "C")];
    assert abc[..1] == [("A", "B")];
    assert abc[..1][..0] == [];
    var ac := ConsecutivePairs(["A", "C"]);
    assert ac == [("A", "C")];
    assert ac[..0] == [];
    var f1 := Frame(5.0, [Segment("A", "B", posPx["A"], posPx["B"]), Segment("B", "C", posPx["B"], posPx["C"])]);
    var f2 := Frame(2.0, [Segment("A", "C", posPx["A"], posPx["C"])]);
    assert Arrows(abc[..1], posPx) == [Segment("A", "B", posPx["A"], posPx["B"])];
    assert Arrows(abc, posPx) == f1.arrows;
    assert Arrows(ac, posPx) == f2.arrows;
    assert FrameOf(ps[0], posPx) == f1;
    assert FrameOf(ps[1], posPx) == f2;
    FirstCancelledIs((i: nat) => false, 0, 2, 2);
    FirstCancelledIs((i: nat) => i >= 1, 0, 2, 1);
  }
}
