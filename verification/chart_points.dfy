/**
 The de-duplication of chart path points in `extractFromVisibleChart`
 (extension/content.js): walking the parsed `M`/`L` points in order, a point
 is kept only when its x lies more than half a pixel from the last kept x.
 */
module ChartPoints {
  import opened Seqs

  /** A point of the rendered price line, in SVG coordinates. */
  datatype XY = XY(x: real, y: real)

  /** `lastX` before any point is kept. */
  const StartX: real := -1.0

  /** `Math.abs(a - b) > 0.5`. */
  predicate FarApart(a: real, b: real)
  {
    (if a >= b then a - b else b - a) > 0.5
  }

  /** The points whose flag is set, in order. */
  ghost function Select(points: seq<XY>, flags: seq<bool>): (r: seq<XY>)
    requires |flags| == |points|
    ensures |r| <= |points|
  {
    if |points| == 0 then []
    else
      Select(points[..|points| - 1], flags[..|flags| - 1])
      + (if flags[|flags| - 1] then [points[|points| - 1]] else [])
  }

  /** The flagged points form a subsequence of all points. */
  lemma {:induction false} SelectIsSubseq(points: seq<XY>, flags: seq<bool>)
    requires |flags| == |points|
    ensures IsSubseq(Select(points, flags), points)
  {
    if |points| > 0 {
      var n := |points| - 1;
      var init := points[..n];
      SelectIsSubseq(init, flags[..n]);
      assert points == init + [points[n]];
      if flags[n] {
        SubseqSnocBoth(Select(init, flags[..n]), init, points[n]);
      } else {
        assert Select(points, flags) == Select(init, flags[..n]);
        SubseqSnoc(Select(init, flags[..n]), init, points[n]);
      }
    }
  }

  /** Extending the prefix by one point extends the selection by that point when it is flagged. */
  lemma SelectStep(points: seq<XY>, flags: seq<bool>, i: nat, keep: bool)
    requires i < |points| && |flags| == i
    ensures Select(points[..i + 1], flags + [keep])
      == Select(points[..i], flags) + (if keep then [points[i]] else [])
  {
    assert points[..i + 1][..i] == points[..i] && (flags + [keep])[..i] == flags;
  }

  /**
   The de-duplication loop of `extractFromVisibleChart`. `flags[d]` says
   whether point `d` is kept and `lastX[d]` is the x last kept before it
   (`StartX` at first): a point is kept
   exactly when it is more than half a pixel from that x, and the kept points
   are the flagged ones in input order, each far from the one kept before.
   */
  method UniqueX(points: seq<XY>) returns (unique: seq<XY>, ghost flags: seq<bool>, ghost lastX: seq<real>)
    ensures |flags| == |points| && |lastX| == |points| + 1
    ensures lastX[0] == StartX
    ensures forall d :: 0 <= d < |points| ==> (flags[d] <==> FarApart(points[d].x, lastX[d]))
    ensures forall d {:trigger flags[d]} :: 0 <= d < |points| ==> lastX[d + 1] == if flags[d] then points[d].x else lastX[d]
    ensures unique == Select(points, flags)
    ensures |unique| > 0 ==> FarApart(unique[0].x, StartX)
    ensures forall j :: 0 < j < |unique| ==> FarApart(unique[j].x, unique[j - 1].x)
  {
    unique, flags, lastX := [], [], [StartX];
    var last := StartX;
    var i := 0;
    while i < |points|
      invariant 0 <= i <= |points|
      invariant |flags| == i && |lastX| == i + 1
      invariant lastX[0] == StartX && lastX[i] == last
      invariant forall d :: 0 <= d < i ==> (flags[d] <==> FarApart(points[d].x, lastX[d]))
      invariant forall d {:trigger flags[d]} :: 0 <= d < i ==> lastX[d + 1] == if flags[d] then points[d].x else lastX[d]
      invariant unique == Select(points[..i], flags)
      invariant last == if |unique| == 0 then StartX else unique[|unique| - 1].x
      invariant |unique| > 0 ==> FarApart(unique[0].x, StartX)
      invariant forall j :: 0 < j < |unique| ==> FarApart(unique[j].x, unique[j - 1].x)
    {
      var p := points[i];
      var keep := FarApart(p.x, last);
      SelectStep(points, flags, i, keep);
      if keep {
        unique := unique + [p];
        last := p.x;
      }
      flags := flags + [keep];
      lastX := lastX + [last];
      i := i + 1;
    }
    assert points[..i] == points;
  }
}
