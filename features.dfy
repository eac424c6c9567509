/**
 * The features of one blob: its bounding box, its point count and the
 * four-bucket histogram of its points around the integer centre of the box;
 * and the noise filter that decides which blobs are characters.
 */
module Features {
  import opened Raster

  /** A four-bucket quadrant histogram. */
  type Histogram = s: seq<int> | |s| == 4 witness [0, 0, 0, 0]

  /**
   * The features of a blob. The fields are whole numbers: the box width and
   * height, the number of points, and how many points fall in each quadrant.
   */
  datatype Feature = Feature(width: int, height: int, n: int, numbers: Histogram)

  /** Where the running minimum of the box starts. */
  const MinStart: int := 0xFFFF
  /** Where the running maximum of the box starts. */
  const MaxStart: int := -1

  /** Blobs of at most this many points are noise. */
  const NoiseFloor: nat := 15

  /** The number of characters in a captcha. */
  const CharsPerCaptcha: nat := 4

  function Min(a: int, b: int): int {
    if a > b then b else a
  }

  function Max(a: int, b: int): int {
    if a < b then b else a
  }

  /** The running minimum of s, started at start. */
  function MinOf(s: seq<int>, start: int): int {
    if |s| == 0 then start else Min(MinOf(s[..|s| - 1], start), s[|s| - 1])
  }

  /** The running maximum of s, started at start. */
  function MaxOf(s: seq<int>, start: int): int {
    if |s| == 0 then start else Max(MaxOf(s[..|s| - 1], start), s[|s| - 1])
  }

  function Xs(pts: seq<Point>): (xs: seq<int>)
    ensures |xs| == |pts| && forall i :: 0 <= i < |pts| ==> xs[i] == pts[i].x
  {
    if |pts| == 0 then [] else Xs(pts[..|pts| - 1]) + [pts[|pts| - 1].x]
  }

  function Ys(pts: seq<Point>): (ys: seq<int>)
    ensures |ys| == |pts| && forall i :: 0 <= i < |pts| ==> ys[i] == pts[i].y
  {
    if |pts| == 0 then [] else Ys(pts[..|pts| - 1]) + [pts[|pts| - 1].y]
  }

  function Left(pts: seq<Point>): int { MinOf(Xs(pts), MinStart) }
  function Right(pts: seq<Point>): int { MaxOf(Xs(pts), MaxStart) }
  function Up(pts: seq<Point>): int { MinOf(Ys(pts), MinStart) }
  function Down(pts: seq<Point>): int { MaxOf(Ys(pts), MaxStart) }

  /** Halving with the quotient truncated toward zero, as machine integer division does. */
  function Half(a: int): int {
    if a >= 0 then a / 2 else -((-a) / 2)
  }

  /**
   * The bucket of p around the centre (cx, cy): bit 0 says p lies right of
   * cx, bit 1 that it lies below cy; a point on a centre line goes to the
   * low side.
   */
  function Quadrant(p: Point, cx: int, cy: int): (q: int)
    ensures 0 <= q < 4
    ensures (q == 1 || q == 3) <==> p.x > cx
    ensures q >= 2 <==> p.y > cy
  {
    (if p.x > cx then 1 else 0) + (if p.y > cy then 2 else 0)
  }

  /** How many points of pts fall in bucket q around (cx, cy). */
  function CountIn(pts: seq<Point>, cx: int, cy: int, q: int): nat {
    if |pts| == 0 then 0
    else CountIn(pts[..|pts| - 1], cx, cy, q) + (if Quadrant(pts[|pts| - 1], cx, cy) == q then 1 else 0)
  }

  function HistogramOf(pts: seq<Point>, cx: int, cy: int): Histogram {
    [CountIn(pts, cx, cy, 0), CountIn(pts, cx, cy, 1), CountIn(pts, cx, cy, 2), CountIn(pts, cx, cy, 3)]
  }

  /** The features of a blob, with the histogram taken around the truncated centre of its box. */
  function FeaturesOf(pts: seq<Point>): Feature {
    var l, r, u, d := Left(pts), Right(pts), Up(pts), Down(pts);
    Feature(r - l + 1, d - u + 1, |pts|, HistogramOf(pts, Half(l + r), Half(u + d)))
  }

  function Sum(h: Histogram): int {
    h[0] + h[1] + h[2] + h[3]
  }

  /** Computes the features of one blob: a pass for the box, a pass for the histogram. */
  method ExtractFeatures(blob: seq<Point>) returns (f: Feature)
    ensures f == FeaturesOf(blob)
  {
    var n := |blob|;
    var left, right, up, down := MinStart, MaxStart, MinStart, MaxStart;
    for i := 0 to |blob|
      invariant left == Left(blob[..i]) && right == Right(blob[..i])
      invariant up == Up(blob[..i]) && down == Down(blob[..i])
    {
      var p := blob[i];
      BoxStep(blob, i);
      if left > p.x {
        left := p.x;
      }
      if right < p.x {
        right := p.x;
      }
      if up > p.y {
        up := p.y;
      }
      if down < p.y {
        down := p.y;
      }
    }
    assert blob[..|blob|] == blob;
    var cx := Half(left + right);
    var cy := Half(up + down);
    var numbers: Histogram := [0, 0, 0, 0];
    for i := 0 to |blob|
      invariant numbers == HistogramOf(blob[..i], cx, cy)
    {
      var p := blob[i];
      var idx := 0;
      if p.x > cx {
        idx := idx + 1;
      }
      if p.y > cy {
        idx := idx + 2;
      }
      assert idx == Quadrant(p, cx, cy);
      HistogramStep(blob, i, cx, cy);
      numbers := numbers[idx := numbers[idx] + 1];
    }
    f := Feature(right - left + 1, down - up + 1, n, numbers);
  }

  /** Taking in one more point moves each side of the box at most to that point. */
  lemma BoxStep(pts: seq<Point>, i: nat)
    requires i < |pts|
    ensures Left(pts[..i + 1]) == Min(Left(pts[..i]), pts[i].x)
    ensures Right(pts[..i + 1]) == Max(Right(pts[..i]), pts[i].x)
    ensures Up(pts[..i + 1]) == Min(Up(pts[..i]), pts[i].y)
    ensures Down(pts[..i + 1]) == Max(Down(pts[..i]), pts[i].y)
  {
    assert pts[..i + 1][..i] == pts[..i];
    assert Xs(pts[..i + 1]) == Xs(pts[..i]) + [pts[i].x];
    assert Ys(pts[..i + 1]) == Ys(pts[..i]) + [pts[i].y];
    assert (Xs(pts[..i]) + [pts[i].x])[..i] == Xs(pts[..i]);
    assert (Ys(pts[..i]) + [pts[i].y])[..i] == Ys(pts[..i]);
  }

  /** Counting one more point adds to its own bucket only. */
  lemma HistogramStep(pts: seq<Point>, i: nat, cx: int, cy: int)
    requires i < |pts|
    ensures var q := Quadrant(pts[i], cx, cy);
      HistogramOf(pts[..i + 1], cx, cy) == HistogramOf(pts[..i], cx, cy)[q := HistogramOf(pts[..i], cx, cy)[q] + 1]
  {
    assert pts[..i + 1][..i] == pts[..i];
  }

  // ---------------------------------------------------------------------
  // Properties of the features
  // ---------------------------------------------------------------------

  /** Each point lands in exactly one bucket, so the four buckets add up to the point count. */
  lemma {:induction false} HistogramSumsToCount(pts: seq<Point>, cx: int, cy: int)
    ensures Sum(HistogramOf(pts, cx, cy)) == |pts|
  {
    if |pts| > 0 {
      HistogramSumsToCount(pts[..|pts| - 1], cx, cy);
    }
  }

  /** The histogram of a blob's features adds up to its point count. */
  lemma FeatureHistogramSumsToN(pts: seq<Point>)
    ensures Sum(FeaturesOf(pts).numbers) == FeaturesOf(pts).n == |pts|
  {
    var l, r, u, d := Left(pts), Right(pts), Up(pts), Down(pts);
    HistogramSumsToCount(pts, Half(l + r), Half(u + d));
  }

  /**
   * The running minimum never exceeds its start or any element, and it is
   * its start or one of the elements.
   */
  lemma {:induction false} MinOfBounds(s: seq<int>, start: int)
    ensures MinOf(s, start) <= start
    ensures forall i :: 0 <= i < |s| ==> MinOf(s, start) <= s[i]
    ensures MinOf(s, start) == start || exists i :: 0 <= i < |s| && s[i] == MinOf(s, start)
  {
    if |s| > 0 {
      var s' := s[..|s| - 1];
      MinOfBounds(s', start);
      assert forall i :: 0 <= i < |s'| ==> s'[i] == s[i];
      if MinOf(s, start) != start && MinOf(s, start) != s[|s| - 1] {
        var i :| 0 <= i < |s'| && s'[i] == MinOf(s', start);
        assert s[i] == MinOf(s, start);
      }
    }
  }

  lemma {:induction false} MaxOfBounds(s: seq<int>, start: int)
    ensures MaxOf(s, start) >= start
    ensures forall i :: 0 <= i < |s| ==> MaxOf(s, start) >= s[i]
    ensures MaxOf(s, start) == start || exists i :: 0 <= i < |s| && s[i] == MaxOf(s, start)
  {
    if |s| > 0 {
      var s' := s[..|s| - 1];
      MaxOfBounds(s', start);
      assert forall i :: 0 <= i < |s'| ==> s'[i] == s[i];
      if MaxOf(s, start) != start && MaxOf(s, start) != s[|s| - 1] {
        var i :| 0 <= i < |s'| && s'[i] == MaxOf(s', start);
        assert s[i] == MaxOf(s, start);
      }
    }
  }

  /** Every coordinate of every point lies in 0..0xFFFF, as those of a blob of a real image do. */
  predicate InBox(pts: seq<Point>) {
    forall i :: 0 <= i < |pts| ==> 0 <= pts[i].x <= MinStart && 0 <= pts[i].y <= MinStart
  }

  /**
   * For a non-empty blob inside the 0..0xFFFF range the box is tight: every
   * point lies in it and each of its four sides touches a point.
   */
  lemma BoxIsTight(pts: seq<Point>)
    requires |pts| > 0 && InBox(pts)
    ensures forall i :: 0 <= i < |pts| ==>
      Left(pts) <= pts[i].x <= Right(pts) && Up(pts) <= pts[i].y <= Down(pts)
    ensures exists i :: 0 <= i < |pts| && pts[i].x == Left(pts)
    ensures exists i :: 0 <= i < |pts| && pts[i].x == Right(pts)
    ensures exists i :: 0 <= i < |pts| && pts[i].y == Up(pts)
    ensures exists i :: 0 <= i < |pts| && pts[i].y == Down(pts)
  {
    MinOfBounds(Xs(pts), MinStart);
    MaxOfBounds(Xs(pts), MaxStart);
    MinOfBounds(Ys(pts), MinStart);
    MaxOfBounds(Ys(pts), MaxStart);
    assert Xs(pts)[0] == pts[0].x && Ys(pts)[0] == pts[0].y;
    if Left(pts) == MinStart {
      assert pts[0].x == Left(pts);
    }
    if Up(pts) == MinStart {
      assert pts[0].y == Up(pts);
    }
    assert Right(pts) >= pts[0].x >= 0;
    assert Down(pts) >= pts[0].y >= 0;
  }

  /** Any non-empty point list has a box at least one pixel wide and one high. */
  lemma BoxAtLeastOne(pts: seq<Point>)
    requires |pts| > 0
    ensures FeaturesOf(pts).width >= 1 && FeaturesOf(pts).height >= 1
  {
    MinOfBounds(Xs(pts), MinStart);
    MaxOfBounds(Xs(pts), MaxStart);
    MinOfBounds(Ys(pts), MinStart);
    MaxOfBounds(Ys(pts), MaxStart);
    assert Xs(pts)[0] == pts[0].x && Ys(pts)[0] == pts[0].y;
  }

  // ---------------------------------------------------------------------
  // The noise filter
  // ---------------------------------------------------------------------

  /** A blob with more points than the noise floor is a character. */
  predicate IsSignificant(b: seq<Point>) {
    |b| > NoiseFloor
  }

  /** The blobs that are characters, in their original order. */
  function Significant(blobs: seq<seq<Point>>): seq<seq<Point>> {
    if |blobs| == 0 then []
    else Significant(blobs[..|blobs| - 1]) + (if IsSignificant(blobs[|blobs| - 1]) then [blobs[|blobs| - 1]] else [])
  }

  /** The features of each blob, in order. */
  function FeatureList(blobs: seq<seq<Point>>): (fs: seq<Feature>)
    ensures |fs| == |blobs| && forall i :: 0 <= i < |blobs| ==> fs[i] == FeaturesOf(blobs[i])
  {
    if |blobs| == 0 then [] else FeatureList(blobs[..|blobs| - 1]) + [FeaturesOf(blobs[|blobs| - 1])]
  }

  /** One more blob extends the filter's output by that blob exactly when it is significant. */
  lemma SignificantStep(blobs: seq<seq<Point>>, i: nat)
    requires i < |blobs|
    ensures Significant(blobs[..i + 1]) ==
      Significant(blobs[..i]) + (if IsSignificant(blobs[i]) then [blobs[i]] else [])
  {
    assert blobs[..i + 1][..i] == blobs[..i];
  }

  /** One more significant blob adds its features at the end of the feature list. */
  lemma FeatureListStep(blobs: seq<seq<Point>>, i: nat)
    requires i < |blobs| && IsSignificant(blobs[i])
    ensures FeatureList(Significant(blobs[..i + 1])) == FeatureList(Significant(blobs[..i])) + [FeaturesOf(blobs[i])]
  {
    SignificantStep(blobs, i);
    var bs := Significant(blobs[..i]);
    assert (bs + [blobs[i]])[..|bs|] == bs;
  }

  /** Filtering distributes over concatenation. */
  lemma {:induction false} SignificantConcat(a: seq<seq<Point>>, b: seq<seq<Point>>)
    ensures Significant(a + b) == Significant(a) + Significant(b)
    decreases |b|
  {
    if |b| == 0 {
      assert a + b == a;
    } else {
      var b' := b[..|b| - 1];
      assert (a + b)[..|a + b| - 1] == a + b';
      SignificantConcat(a, b');
    }
  }

  /**
   * The filter keeps only blobs above the noise floor, each taken from its
   * input, and never lengthens the list.
   */
  lemma {:induction false} SignificantKeepsCharacters(blobs: seq<seq<Point>>)
    ensures forall i :: 0 <= i < |Significant(blobs)| ==>
      IsSignificant(Significant(blobs)[i]) && Significant(blobs)[i] in blobs
    ensures |Significant(blobs)| <= |blobs|
  {
    if |blobs| > 0 {
      var blobs' := blobs[..|blobs| - 1];
      SignificantKeepsCharacters(blobs');
      assert forall b :: b in blobs' ==> b in blobs;
    }
  }

  /** A blob at or below the noise floor never changes the filter's output. */
  lemma NoiseIsIgnored(a: seq<seq<Point>>, b: seq<Point>, c: seq<seq<Point>>)
    requires !IsSignificant(b)
    ensures Significant(a + [b] + c) == Significant(a + c)
  {
    SignificantConcat(a + [b], c);
    SignificantConcat(a, [b]);
    SignificantConcat(a, c);
    assert [b][..0] == [];
  }

  /** A fifth character at index i means more than four characters in all. */
  lemma MoreThanFour(chars: seq<seq<Point>>, i: nat)
    requires i < |chars| && IsSignificant(chars[i])
    requires |Significant(chars[..i])| == CharsPerCaptcha
    ensures |Significant(chars)| > CharsPerCaptcha
  {
    assert chars[..i + 1][..i] == chars[..i];
    assert chars == chars[..i + 1] + chars[i + 1..];
    SignificantConcat(chars[..i + 1], chars[i + 1..]);
  }

  /** The characters of a prefix of the blobs come first among the characters of all of them. */
  lemma SignificantPrefix(blobs: seq<seq<Point>>, i: nat)
    requires i <= |blobs|
    ensures Significant(blobs) == Significant(blobs[..i]) + Significant(blobs[i..])
  {
    assert blobs == blobs[..i] + blobs[i..];
    SignificantConcat(blobs[..i], blobs[i..]);
  }
}
