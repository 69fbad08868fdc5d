/** The history behind a usage graph (src/ui/widgets/graph.rs): a double-ended queue of the
    last `MaxDataPoints` samples, oldest first, which a push shifts along by one. The samples
    are `f64` in the program and reals here. */
module Graph {
  import opened Wrappers

  const MaxDataPoints: nat := 600

  /** The samples after pushing `x`: the oldest one is dropped when the queue is full. */
  function Pushed(points: seq<real>, x: real): (r: seq<real>)
    ensures |r| >= 1 && r[|r| - 1] == x
    ensures |points| <= MaxDataPoints ==> |r| <= MaxDataPoints
    ensures |points| < MaxDataPoints ==> |r| == |points| + 1
  {
    (if |points| >= MaxDataPoints then points[1..] else points) + [x]
  }

  /** The samples after pushing each of `xs` in turn. */
  function PushedAll(points: seq<real>, xs: seq<real>): (r: seq<real>)
    ensures |points| <= MaxDataPoints ==> |r| <= MaxDataPoints
    ensures |xs| > 0 ==> |r| >= 1 && r[|r| - 1] == xs[|xs| - 1]
    decreases |xs|
  {
    if |xs| == 0 then points else Pushed(PushedAll(points, xs[..|xs| - 1]), xs[|xs| - 1])
  }

  /** The last `n` elements of `s`, or all of them when there are fewer. */
  function LastN(s: seq<real>, n: nat): (r: seq<real>)
    ensures |r| <= n && |r| <= |s|
  {
    if |s| <= n then s else s[|s| - n..]
  }

  /** A push keeps the newest `MaxDataPoints` of the samples and the new one, in order. */
  lemma PushKeepsNewest(points: seq<real>, x: real)
    requires |points| <= MaxDataPoints
    ensures Pushed(points, x) == LastN(points + [x], MaxDataPoints)
    ensures |Pushed(points, x)| <= MaxDataPoints
    ensures |points| == MaxDataPoints ==> Pushed(points, x) == points[1..] + [x]
  {
    if |points| == MaxDataPoints {
      assert (points + [x])[1..] == points[1..] + [x];
    }
  }

  /** Taking the newest `n` twice is taking them once. */
  lemma LastNOfAppend(s: seq<real>, x: real, n: nat)
    requires n > 0
    ensures LastN(LastN(s, n) + [x], n) == LastN(s + [x], n)
  {
    if |s| > n {
      var t := s[|s| - n..];
      assert (t + [x])[1..] == (s + [x])[|s| + 1 - n..];
    }
  }

  /** Pushing a batch of samples is pushing them one by one: the queue holds the newest
      `MaxDataPoints` of the old samples followed by the batch. */
  lemma {:induction false} PushedAllKeepsNewest(points: seq<real>, xs: seq<real>)
    requires |points| <= MaxDataPoints
    ensures PushedAll(points, xs) == LastN(points + xs, MaxDataPoints)
    decreases |xs|
  {
    if |xs| == 0 {
      assert points + xs == points;
    } else {
      var init := xs[..|xs| - 1];
      var x := xs[|xs| - 1];
      PushedAllKeepsNewest(points, init);
      var before := PushedAll(points, init);
      PushKeepsNewest(before, x);
      LastNOfAppend(points + init, x, MaxDataPoints);
      assert points + init + [x] == points + xs;
    }
  }

  /** `MAX_DATA_POINTS.saturating_sub(graph_data_points)`: where the shown window starts. */
  function WindowStart(shown: nat): (r: nat)
    ensures r <= MaxDataPoints
  {
    if shown >= MaxDataPoints then 0 else MaxDataPoints - shown
  }

  /** The largest sample of `points[from..]`, or 0 when that range is empty. */
  function MaxFrom(points: seq<real>, from: nat): (r: real)
    requires from <= |points|
    ensures from < |points| ==> exists i :: from <= i < |points| && points[i] == r
    ensures forall i :: from <= i < |points| ==> points[i] <= r
    ensures from == |points| ==> r == 0.0
    decreases |points| - from
  {
    if from == |points| then 0.0
    else if from + 1 == |points| then points[from]
    else
      var rest := MaxFrom(points, from + 1);
      if points[from] >= rest then points[from] else rest
  }

  /** The deque of samples and the locked maximum of the y axis. */
  class ResGraph {
    var dataPoints: seq<real>
    var maxY: Option<real>

    /** The queue never holds more than `MaxDataPoints` samples. */
    ghost predicate Valid()
      reads this
    {
      |dataPoints| <= MaxDataPoints
    }

    /** `Default`: `MaxDataPoints` zero samples and a y axis locked at 1. */
    constructor ()
      ensures Valid()
      ensures |dataPoints| == MaxDataPoints && forall i :: 0 <= i < MaxDataPoints ==> dataPoints[i] == 0.0
      ensures maxY == Some(1.0)
    {
      var points: seq<real> := [];
      for i := 0 to MaxDataPoints
        invariant |points| == i && forall j :: 0 <= j < i ==> points[j] == 0.0
      {
        points := points + [0.0];
      }
      dataPoints := points;
      maxY := Some(1.0);
    }

    /** `push_data_point`: the oldest sample leaves a full queue, the new one joins at the
        back. */
    method PushDataPoint(x: real)
      requires Valid()
      modifies this
      ensures Valid()
      ensures dataPoints == Pushed(old(dataPoints), x)
      ensures maxY == old(maxY)
    {
      PushKeepsNewest(dataPoints, x);
      if |dataPoints| >= MaxDataPoints {
        dataPoints := dataPoints[1..];
      }
      dataPoints := dataPoints + [x];
    }

    /** `push_data_points`: each sample pushed in order. */
    method PushDataPoints(xs: seq<real>)
      requires Valid()
      modifies this
      ensures Valid()
      ensures dataPoints == PushedAll(old(dataPoints), xs)
      ensures maxY == old(maxY)
    {
      for i := 0 to |xs|
        invariant Valid()
        invariant dataPoints == PushedAll(old(dataPoints), xs[..i])
        invariant maxY == old(maxY)
      {
        assert xs[..i + 1][..i] == xs[..i];
        PushKeepsNewest(dataPoints, xs[i]);
        if |dataPoints| >= MaxDataPoints {
          dataPoints := dataPoints[1..];
        }
        dataPoints := dataPoints + [xs[i]];
      }
      assert xs[..|xs|] == xs;
    }

    /** `data_points`: the samples, oldest first. */
    method DataPoints() returns (r: seq<real>)
      ensures r == dataPoints
    {
      r := dataPoints;
    }

    /** `clear_data_points`. */
    method ClearDataPoints()
      modifies this
      ensures Valid() && dataPoints == [] && maxY == old(maxY)
    {
      dataPoints := [];
    }

    /** `set_locked_max_y`. */
    method SetLockedMaxY(y: Option<real>)
      modifies this
      ensures maxY == y && dataPoints == old(dataPoints)
    {
      maxY := y;
    }

    /** `get_highest_value` with `graph_data_points` set to `shown`: the largest of the
        samples shown, or 0 when none are. The range ends at `MaxDataPoints`, so the queue
        must be full (a cleared, partly refilled queue makes the range panic). */
    function HighestValue(shown: nat): (r: real)
      reads this
      requires |dataPoints| == MaxDataPoints
      ensures shown > 0 ==> exists i :: WindowStart(shown) <= i < MaxDataPoints && dataPoints[i] == r
      ensures forall i :: WindowStart(shown) <= i < MaxDataPoints ==> dataPoints[i] <= r
      ensures shown == 0 ==> r == 0.0
    {
      MaxFrom(dataPoints, WindowStart(shown))
    }
  }
}
