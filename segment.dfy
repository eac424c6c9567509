/**
 * Segmentation of a captcha image into ink blobs: the bounded-queue,
 * 8-connected breadth-first search and the column-major scan that seeds it.
 *
 * Each operation has a functional specification (BfsResult, Split) and an
 * imperative method (Bfs, DenoiseAndSplit) proved equal to it; the
 * properties of the segmentation are lemmas about the specifications.
 */
module Segment {
  import opened Raster

  datatype Option<T> = None | Some(value: T)

  /** Capacity of the search's pending queue. */
  const QueueCapacity: nat := 100

  /** Outcome of one search: the blob (None for nil) and the visited table afterwards. */
  datatype BfsOutcome = BfsOutcome(blob: Option<seq<Point>>, visited: set<int>)

  /**
   * The state of the search while the neighbours of one dequeued point are
   * offered: the visited table, the pending queue, and whether a push found
   * the queue full.
   */
  datatype Offer = Offer(visited: set<int>, que: seq<Point>, overflow: bool)

  /** Every key a point that passes the neighbour test can have. */
  function KeyRange(img: Image): set<int> {
    UpTo(img.w * img.h + img.h)
  }

  /** The integers 0..n. */
  function UpTo(n: int): (s: set<int>)
    ensures forall k :: k in s <==> 0 <= k <= n
    decreases if n < 0 then 0 else n + 1
  {
    if n < 0 then {} else UpTo(n - 1) + {n}
  }

  lemma ScanKeyInRange(img: Image, p: Point)
    requires InScanBounds(img, p)
    ensures Key(img, p) in KeyRange(img)
  {
    ScaleMonotone(p.x, img.w, img.h);
  }

  lemma ShrinkingMeasure(range: set<int>, v: set<int>, v': set<int>)
    requires v <= v' && v' - v <= range && v' != v
    ensures |range - v'| < |range - v|
  {
    assert v' - v != {} by {
      assert v' == v + (v' - v);
    }
    assert range - v == (range - v') + (v' - v);
  }

  /**
   * Offers neighbour k of the dequeued point h: one that passes the bounds
   * test, is not yet visited and is ink is marked visited and then pushed; a
   * push onto a full queue overflows, and an overflowed state stays as it is.
   */
  function OfferStep(img: Image, h: Point, k: nat, s: Offer): Offer
    requires k < 8
  {
    if s.overflow then s
    else
      var t := Neighbour(h, k);
      if !InScanBounds(img, t) || Key(img, t) in s.visited || !InkAt(img, t) then s
      else if |s.que| >= QueueCapacity then Offer(s.visited + {Key(img, t)}, s.que, true)
      else Offer(s.visited + {Key(img, t)}, s.que + [t], false)
  }

  /** The state after offering neighbours 0, 1, ..., k-1 of h, in that order. */
  function Offered(img: Image, h: Point, k: nat, s: Offer): Offer
    requires k <= 8
  {
    if k == 0 then s else OfferStep(img, h, k - 1, Offered(img, h, k - 1, s))
  }

  /**
   * Drains the queue: dequeues its head, appends it to the blob and offers
   * its eight neighbours; an overflow makes the whole search return nil.
   */
  function Drain(img: Image, visited: set<int>, ret: seq<Point>, que: seq<Point>): BfsOutcome
    requires |que| <= QueueCapacity
    decreases |KeyRange(img) - visited|, |que|
  {
    if que == [] then BfsOutcome(Some(ret), visited)
    else
      var o := Offered(img, que[0], 8, Offer(visited, que[1..], false));
      OfferedGrows(img, que[0], 8, Offer(visited, que[1..], false));
      if o.overflow then BfsOutcome(None, o.visited)
      else
        if o.visited != visited then
          ShrinkingMeasure(KeyRange(img), visited, o.visited);
          Drain(img, o.visited, ret + [que[0]], o.que)
        else Drain(img, o.visited, ret + [que[0]], o.que)
  }

  /** One round of draining: dequeue the head, offer its neighbours, go on unless a push overflowed. */
  lemma DrainStep(img: Image, visited: set<int>, ret: seq<Point>, que: seq<Point>)
    requires que != [] && |que| <= QueueCapacity
    ensures var o := Offered(img, que[0], 8, Offer(visited, que[1..], false));
      && |o.que| <= QueueCapacity
      && Drain(img, visited, ret, que) ==
         (if o.overflow then BfsOutcome(None, o.visited) else Drain(img, o.visited, ret + [que[0]], o.que))
  {
    OfferedGrows(img, que[0], 8, Offer(visited, que[1..], false));
  }

  /** The search from seed: nil if its key is visited or it is not ink. */
  function BfsResult(img: Image, seed: Point, visited: set<int>): BfsOutcome {
    var key := Key(img, seed);
    if key in visited then BfsOutcome(None, visited)
    else if !InkAt(img, seed) then BfsOutcome(None, visited + {key})
    else Drain(img, visited + {key}, [], [seed])
  }

  /**
   * Offering only grows the visited table, by keys of points that pass the
   * bounds test, keeps the queue within its capacity, and changes nothing
   * when it marks nothing.
   */
  lemma {:induction false} OfferedGrows(img: Image, h: Point, k: nat, s: Offer)
    requires k <= 8 && |s.que| <= QueueCapacity
    ensures var o := Offered(img, h, k, s);
      && s.visited <= o.visited
      && o.visited - s.visited <= KeyRange(img)
      && |o.que| <= QueueCapacity
      && (o.visited == s.visited ==> o == s)
  {
    if k > 0 {
      OfferedGrows(img, h, k - 1, s);
      var m := Offered(img, h, k - 1, s);
      var t := Neighbour(h, k - 1);
      if !m.overflow && InScanBounds(img, t) && Key(img, t) !in m.visited && InkAt(img, t) {
        ScanKeyInRange(img, t);
      }
    }
  }

  /** Offering neighbour k to a state that has not overflowed, spelled out case by case. */
  lemma OfferedNext(img: Image, h: Point, k: nat, s: Offer, v: set<int>, q: seq<Point>)
    requires k < 8 && Offered(img, h, k, s) == Offer(v, q, false)
    ensures var t := Neighbour(h, k);
      Offered(img, h, k + 1, s) ==
        if !InScanBounds(img, t) || Key(img, t) in v || !InkAt(img, t) then Offer(v, q, false)
        else if |q| >= QueueCapacity then Offer(v + {Key(img, t)}, q, true)
        else Offer(v + {Key(img, t)}, q + [t], false)
  {
  }

  /** Once a push has overflowed, offering further neighbours changes nothing. */
  lemma {:induction false} OverflowSticks(img: Image, h: Point, k: nat, n: nat, s: Offer)
    requires k <= n <= 8 && Offered(img, h, k, s).overflow
    ensures Offered(img, h, n, s) == Offered(img, h, k, s)
    decreases n - k
  {
    if k < n {
      OverflowSticks(img, h, k, n - 1, s);
    }
  }

  /** The bounded-queue breadth-first search from (x0, y0). */
  method Bfs(img: Image, x0: int, y0: int, visited: set<int>) returns (blob: Option<seq<Point>>, visited': set<int>)
    ensures BfsOutcome(blob, visited') == BfsResult(img, Point(x0, y0), visited)
  {
    var seed := Point(x0, y0);
    if Key(img, seed) in visited {
      return None, visited;
    }
    visited' := visited + {Key(img, seed)};
    if !InkAt(img, seed) {
      return None, visited';
    }
    var ret: seq<Point> := [];
    var que: seq<Point> := [seed];
    while true
      invariant |que| <= QueueCapacity
      invariant Drain(img, visited', ret, que) == BfsResult(img, seed, visited)
      decreases |KeyRange(img) - visited'|, |que|
    {
      if que == [] {
        return Some(ret), visited';
      }
      DrainStep(img, visited', ret, que);
      var h := que[0];
      que := que[1..];
      ret := ret + [h];
      ghost var start := Offer(visited', que, false);
      for k := 0 to 8
        invariant Offer(visited', que, false) == Offered(img, h, k, start)
      {
        OfferedNext(img, h, k, start, visited', que);
        var t := Neighbour(h, k);
        if t.x < 0 || t.x > img.w || t.y < 0 || t.y > img.h {
          continue;
        }
        if Key(img, t) in visited' {
          continue;
        }
        if !InkAt(img, t) {
          continue;
        }
        visited' := visited' + {Key(img, t)};
        if |que| < QueueCapacity {
          que := que + [t];
        } else {
          OverflowSticks(img, h, k + 1, 8, start);
          return None, visited';
        }
      }
      OfferedGrows(img, h, 8, start);
      if visited' != start.visited {
        ShrinkingMeasure(KeyRange(img), start.visited, visited');
      }
    }
  }

  /** The column-major scan from column i, row j: each pixel seeds one search. */
  function ScanFrom(img: Image, i: nat, j: nat, visited: set<int>): seq<seq<Point>>
    requires i <= img.w && j <= img.h
    decreases img.w - i, img.h - j
  {
    if i == img.w then []
    else if j == img.h then ScanFrom(img, i + 1, 0, visited)
    else
      var o := BfsResult(img, Point(i, j), visited);
      (if o.blob.Some? then [o.blob.value] else []) + ScanFrom(img, i, j + 1, o.visited)
  }

  /** The blobs of an image, in the order the scan finds their seeds. */
  function Split(img: Image): seq<seq<Point>> {
    ScanFrom(img, 0, 0, {})
  }

  /** Scans every pixel of the image as a seed, collecting the blobs found. */
  method DenoiseAndSplit(img: Image) returns (blobs: seq<seq<Point>>)
    ensures blobs == Split(img)
  {
    blobs := [];
    var visited: set<int> := {};
    for i := 0 to img.w
      invariant blobs + ScanFrom(img, i, 0, visited) == Split(img)
    {
      for j := 0 to img.h
        invariant blobs + ScanFrom(img, i, j, visited) == Split(img)
      {
        var points, visited' := Bfs(img, i, j, visited);
        ghost var rest := ScanFrom(img, i, j + 1, visited');
        if points.Some? {
          assert ScanFrom(img, i, j, visited) == [points.value] + rest;
          assert blobs + ([points.value] + rest) == (blobs + [points.value]) + rest;
          blobs := blobs + [points.value];
        } else {
          assert ScanFrom(img, i, j, visited) == rest;
        }
        visited := visited';
      }
    }
  }

  // ---------------------------------------------------------------------
  // Properties of the search and of the scan
  // ---------------------------------------------------------------------

  /** The keys under which the points of s are recorded. */
  function KeysOf(img: Image, s: seq<Point>): set<int> {
    set p | p in s :: Key(img, p)
  }

  lemma KeysOfConcat(img: Image, a: seq<Point>, b: seq<Point>)
    ensures KeysOf(img, a + b) == KeysOf(img, a) + KeysOf(img, b)
  {
  }

  ghost predicate DistinctKeys(img: Image, s: seq<Point>) {
    forall i, j :: 0 <= i < j < |s| ==> Key(img, s[i]) != Key(img, s[j])
  }

  /** Every neighbour of p that passes the bounds test and is ink has its key in visited. */
  ghost predicate ClosedAt(img: Image, p: Point, visited: set<int>) {
    forall k :: 0 <= k < 8 && InScanBounds(img, Neighbour(p, k)) && InkAt(img, Neighbour(p, k)) ==>
      Key(img, Neighbour(p, k)) in visited
  }

  ghost predicate Closed(img: Image, b: seq<Point>, visited: set<int>) {
    forall i :: 0 <= i < |b| ==> ClosedAt(img, b[i], visited)
  }

  /** Point i of s neighbours one of the first n points that precede it. */
  ghost predicate HasParent(s: seq<Point>, i: int, n: int)
    requires 0 <= i < |s|
  {
    exists j :: 0 <= j < n && j < i && Adjacent(s[j], s[i])
  }

  /** Every point of s after the first neighbours an earlier one among the first n. */
  ghost predicate Parents(s: seq<Point>, n: int) {
    forall i :: 0 < i < |s| ==> HasParent(s, i, n)
  }

  ghost predicate AllInk(img: Image, s: seq<Point>) {
    forall i :: 0 <= i < |s| ==> InkAt(img, s[i])
  }

  /** Every point of s after the first passes the neighbour bounds test. */
  ghost predicate TailInBounds(img: Image, s: seq<Point>) {
    forall i :: 0 < i < |s| ==> InScanBounds(img, s[i])
  }

  /**
   * A blob as a search returns it: non-empty, all ink, every point after
   * the seed passes the bounds test and neighbours an earlier point, and no
   * two points share a visited key.
   */
  ghost predicate WellFormedBlob(img: Image, b: seq<Point>) {
    && |b| > 0
    && AllInk(img, b)
    && TailInBounds(img, b)
    && DistinctKeys(img, b)
    && Parents(b, |b|)
  }

  /** The points pushed by offering: fresh keys, past the bounds test, ink and neighbours of h. */
  ghost predicate FreshNeighbours(img: Image, h: Point, visited: set<int>, added: seq<Point>) {
    && KeysOf(img, added) !! visited
    && DistinctKeys(img, added)
    && AllInk(img, added)
    && (forall i :: 0 <= i < |added| ==> InScanBounds(img, added[i]) && Adjacent(h, added[i]))
  }

  /**
   * Without an overflow, offering appends to the queue exactly the points it
   * marks, and those are fresh ink neighbours of h that pass the bounds test.
   */
  lemma {:induction false} OfferedAdded(img: Image, h: Point, k: nat, s: Offer)
    requires k <= 8 && !s.overflow
    ensures var o := Offered(img, h, k, s);
      !o.overflow ==>
        && |s.que| <= |o.que|
        && o.que == s.que + o.que[|s.que|..]
        && o.visited == s.visited + KeysOf(img, o.que[|s.que|..])
        && FreshNeighbours(img, h, s.visited, o.que[|s.que|..])
  {
    if k == 0 {
      assert s.que[|s.que|..] == [];
      return;
    }
    var o := Offered(img, h, k, s);
    var m := Offered(img, h, k - 1, s);
    if o.overflow {
      return;
    }
    OfferedAdded(img, h, k - 1, s);
    if o != m {
      var t := Neighbour(h, k - 1);
      assert Adjacent(h, t);
      assert o.que[|s.que|..] == m.que[|s.que|..] + [t];
      AppendFresh(img, h, t, s.visited, m.que[|s.que|..], m.visited);
    }
  }

  lemma AppendFresh(img: Image, h: Point, t: Point, visited: set<int>, added: seq<Point>, v: set<int>)
    requires v == visited + KeysOf(img, added) && FreshNeighbours(img, h, visited, added)
    requires Key(img, t) !in v && InScanBounds(img, t) && InkAt(img, t) && Adjacent(h, t)
    ensures v + {Key(img, t)} == visited + KeysOf(img, added + [t])
    ensures FreshNeighbours(img, h, visited, added + [t])
  {
    var added' := added + [t];
    KeysOfConcat(img, added, [t]);
    assert KeysOf(img, [t]) == {Key(img, t)};
    forall i, j | 0 <= i < j < |added'|
      ensures Key(img, added'[i]) != Key(img, added'[j])
    {
      assert added'[i] == added[i];
      if j == |added| {
        assert Key(img, added[i]) in KeysOf(img, added);
      } else {
        assert added'[j] == added[j];
      }
    }
    assert forall i :: 0 <= i < |added| ==> added'[i] == added[i];
  }

  /**
   * Without an overflow, every one of the neighbours 0..k-1 of h that passes
   * the bounds test and is ink is visited after they were offered.
   */
  lemma {:induction false} OfferedCloses(img: Image, h: Point, k: nat, s: Offer)
    requires k <= 8
    ensures var o := Offered(img, h, k, s);
      !o.overflow ==>
        forall k' :: 0 <= k' < k && InScanBounds(img, Neighbour(h, k')) && InkAt(img, Neighbour(h, k')) ==>
          Key(img, Neighbour(h, k')) in o.visited
  {
    if k > 0 {
      var o := Offered(img, h, k, s);
      var m := Offered(img, h, k - 1, s);
      OfferedCloses(img, h, k - 1, s);
      assert m.visited <= o.visited;
    }
  }

  /**
   * What holds while the queue drains: the dequeued points ret followed by
   * the queued ones have the seed first, are ink, pass the bounds test after
   * the seed, have distinct keys that were unvisited at the start and are
   * visited now, each neighbours an earlier dequeued point, and every ink
   * neighbour of a dequeued point that passes the bounds test is visited.
   */
  ghost predicate DrainInv(img: Image, v0: set<int>, visited: set<int>, ret: seq<Point>, que: seq<Point>) {
    var s := ret + que;
    && |s| > 0
    && AllInk(img, s)
    && TailInBounds(img, s)
    && DistinctKeys(img, s)
    && KeysOf(img, s) !! v0
    && visited == v0 + KeysOf(img, s)
    && Parents(s, |ret|)
    && Closed(img, ret, visited)
  }

  lemma {:induction false} DrainFacts(img: Image, v0: set<int>, visited: set<int>, ret: seq<Point>, que: seq<Point>)
    requires |que| <= QueueCapacity
    requires DrainInv(img, v0, visited, ret, que)
    ensures var o := Drain(img, visited, ret, que);
      && visited <= o.visited
      && (o.blob.Some? ==>
            var b := o.blob.value;
            && WellFormedBlob(img, b)
            && b[0] == (ret + que)[0]
            && KeysOf(img, b) !! v0
            && o.visited == v0 + KeysOf(img, b)
            && Closed(img, b, o.visited))
    decreases |KeyRange(img) - visited|, |que|
  {
    if que == [] {
      assert ret + que == ret;
      return;
    }
    var h := que[0];
    var start := Offer(visited, que[1..], false);
    var o := Offered(img, h, 8, start);
    OfferedGrows(img, h, 8, start);
    if o.overflow {
      return;
    }
    OfferedAdded(img, h, 8, start);
    OfferedCloses(img, h, 8, start);
    if o.visited != visited {
      ShrinkingMeasure(KeyRange(img), visited, o.visited);
    }
    var added := o.que[|que| - 1..];
    StepInv(img, v0, visited, ret, que, o.visited, added);
    assert o.que == que[1..] + added;
    DrainFacts(img, v0, o.visited, ret + [h], o.que);
    assert (ret + [h] + o.que)[0] == (ret + que)[0];
  }

  /** One dequeue-and-offer step keeps DrainInv. */
  lemma StepInv(img: Image, v0: set<int>, visited: set<int>, ret: seq<Point>, que: seq<Point>, visited': set<int>, added: seq<Point>)
    requires DrainInv(img, v0, visited, ret, que) && que != []
    requires visited' == visited + KeysOf(img, added)
    requires FreshNeighbours(img, que[0], visited, added)
    requires ClosedAt(img, que[0], visited')
    ensures DrainInv(img, v0, visited', ret + [que[0]], que[1..] + added)
  {
    var s := ret + que;
    var ret', que' := ret + [que[0]], que[1..] + added;
    assert ret' + que' == s + added;
    assert s[|ret|] == que[0];
    KeysOfConcat(img, s, added);
    StepDistinct(img, s, added);
    StepInkBounds(img, s, added);
    StepParents(s, |ret|, |ret'|, added);
    StepClosed(img, ret, que[0], visited, visited');
  }

  lemma StepInkBounds(img: Image, s: seq<Point>, added: seq<Point>)
    requires |s| > 0 && AllInk(img, s) && TailInBounds(img, s) && AllInk(img, added)
    requires forall i :: 0 <= i < |added| ==> InScanBounds(img, added[i])
    ensures AllInk(img, s + added) && TailInBounds(img, s + added)
  {
    var s' := s + added;
    assert forall i :: 0 <= i < |s| ==> s'[i] == s[i];
    assert forall i :: |s| <= i < |s'| ==> s'[i] == added[i - |s|];
  }

  lemma StepDistinct(img: Image, s: seq<Point>, added: seq<Point>)
    requires DistinctKeys(img, s) && DistinctKeys(img, added)
    requires KeysOf(img, s) !! KeysOf(img, added)
    ensures DistinctKeys(img, s + added)
  {
    var s' := s + added;
    forall i, j | 0 <= i < j < |s'|
      ensures Key(img, s'[i]) != Key(img, s'[j])
    {
      if j >= |s| {
        assert s'[j] == added[j - |s|];
        assert Key(img, added[j - |s|]) in KeysOf(img, added);
        if i < |s| {
          assert s'[i] == s[i];
          assert Key(img, s[i]) in KeysOf(img, s);
        } else {
          assert s'[i] == added[i - |s|];
        }
      } else {
        assert s'[i] == s[i] && s'[j] == s[j];
      }
    }
  }

  lemma StepParents(s: seq<Point>, n: nat, m: nat, added: seq<Point>)
    requires n < |s| && m == n + 1
    requires Parents(s, n)
    requires forall i :: 0 <= i < |added| ==> Adjacent(s[n], added[i])
    ensures Parents(s + added, m)
  {
    var s' := s + added;
    forall i | 0 < i < |s'|
      ensures HasParent(s', i, m)
    {
      if i < |s| {
        assert HasParent(s, i, n);
        var j :| 0 <= j < n && j < i && Adjacent(s[j], s[i]);
        assert s'[j] == s[j] && s'[i] == s[i];
      } else {
        assert s'[n] == s[n] && s'[i] == added[i - |s|];
      }
    }
  }

  lemma StepClosed(img: Image, ret: seq<Point>, h: Point, visited: set<int>, visited': set<int>)
    requires Closed(img, ret, visited) && visited <= visited' && ClosedAt(img, h, visited')
    ensures Closed(img, ret + [h], visited')
  {
    var ret' := ret + [h];
    forall i | 0 <= i < |ret'|
      ensures ClosedAt(img, ret'[i], visited')
    {
      if i < |ret| {
        assert ret'[i] == ret[i];
        assert ClosedAt(img, ret[i], visited);
      }
    }
  }

  /**
   * The search from seed: its seed key always ends up visited; nil with
   * nothing else visited when the seed is already visited or is not ink;
   * a returned blob starts at the seed, is well formed, consists of keys
   * that were not visited before and are now, and every ink neighbour of
   * its points that passes the bounds test is visited afterwards.
   */
  lemma BfsFacts(img: Image, seed: Point, visited: set<int>)
    ensures var o := BfsResult(img, seed, visited);
      && visited + {Key(img, seed)} <= o.visited
      && (Key(img, seed) in visited ==> o == BfsOutcome(None, visited))
      && (Key(img, seed) !in visited && !InkAt(img, seed) ==> o == BfsOutcome(None, visited + {Key(img, seed)}))
      && (o.blob.Some? ==>
            var b := o.blob.value;
            && WellFormedBlob(img, b)
            && b[0] == seed
            && KeysOf(img, b) !! visited
            && o.visited == visited + KeysOf(img, b)
            && Closed(img, b, o.visited))
  {
    var key := Key(img, seed);
    if key !in visited && InkAt(img, seed) {
      assert KeysOf(img, [seed]) == {key};
      assert [] + [seed] == [seed];
      DrainFacts(img, visited, visited + {key}, [], [seed]);
    }
  }

  predicate SeedAtOrAfter(p: Point, i: int, j: int) {
    p.x > i || (p.x == i && p.y >= j)
  }

  /** p comes strictly before q when x is the outer loop and y the inner one. */
  predicate ColumnMajorBefore(p: Point, q: Point) {
    p.x < q.x || (p.x == q.x && p.y < q.y)
  }

  /**
   * What a scan produces: well-formed blobs seeded at in-image ink pixels,
   * pairwise without a shared key, in column-major order of their seeds.
   */
  ghost predicate Segmentation(img: Image, blobs: seq<seq<Point>>) {
    && (forall m :: 0 <= m < |blobs| ==> WellFormedBlob(img, blobs[m]) && InImage(img, blobs[m][0]))
    && (forall m, n :: 0 <= m < n < |blobs| ==>
          KeysOf(img, blobs[m]) !! KeysOf(img, blobs[n]) && ColumnMajorBefore(blobs[m][0], blobs[n][0]))
  }

  /** Every blob is seeded at or after (i, j) and uses no key of visited. */
  ghost predicate SeededFrom(img: Image, blobs: seq<seq<Point>>, i: int, j: int, visited: set<int>) {
    forall m :: 0 <= m < |blobs| ==>
      |blobs[m]| > 0 && SeedAtOrAfter(blobs[m][0], i, j) && KeysOf(img, blobs[m]) !! visited
  }

  lemma {:induction false} ScanFacts(img: Image, i: nat, j: nat, visited: set<int>)
    requires i <= img.w && j <= img.h
    ensures Segmentation(img, ScanFrom(img, i, j, visited))
    ensures SeededFrom(img, ScanFrom(img, i, j, visited), i, j, visited)
    decreases img.w - i, img.h - j
  {
    if i == img.w {
    } else if j == img.h {
      ScanFacts(img, i + 1, 0, visited);
    } else {
      var o := BfsResult(img, Point(i, j), visited);
      ScanFacts(img, i, j + 1, o.visited);
      ScanStep(img, i, j, visited);
    }
  }

  /** Seeding at (i, j) keeps the scan's facts about the rest of the scan. */
  lemma ScanStep(img: Image, i: nat, j: nat, visited: set<int>)
    requires i < img.w && j < img.h
    requires var o := BfsResult(img, Point(i, j), visited);
      && Segmentation(img, ScanFrom(img, i, j + 1, o.visited))
      && SeededFrom(img, ScanFrom(img, i, j + 1, o.visited), i, j + 1, o.visited)
    ensures Segmentation(img, ScanFrom(img, i, j, visited))
    ensures SeededFrom(img, ScanFrom(img, i, j, visited), i, j, visited)
  {
    var seed := Point(i, j);
    var o := BfsResult(img, seed, visited);
    BfsFacts(img, seed, visited);
    var rest := ScanFrom(img, i, j + 1, o.visited);
    if o.blob.Some? {
      assert ScanFrom(img, i, j, visited) == [o.blob.value] + rest;
      PrependBlob(img, o.blob.value, rest, i, j, visited, o.visited);
    } else {
      assert ScanFrom(img, i, j, visited) == rest;
      SeededEarlier(img, rest, i, j, visited, o.visited);
    }
  }

  /** Facts about blobs seeded after (i, j) avoiding v' hold from (i, j) for any v <= v'. */
  lemma SeededEarlier(img: Image, blobs: seq<seq<Point>>, i: int, j: int, v: set<int>, v': set<int>)
    requires v <= v' && SeededFrom(img, blobs, i, j + 1, v')
    ensures SeededFrom(img, blobs, i, j, v)
  {
  }

  lemma PrependBlob(img: Image, b: seq<Point>, rest: seq<seq<Point>>, i: int, j: int, visited: set<int>, visited': set<int>)
    requires WellFormedBlob(img, b) && b[0] == Point(i, j) && InImage(img, b[0])
    requires KeysOf(img, b) !! visited && visited' == visited + KeysOf(img, b)
    requires Segmentation(img, rest) && SeededFrom(img, rest, i, j + 1, visited')
    ensures Segmentation(img, [b] + rest) && SeededFrom(img, [b] + rest, i, j, visited)
  {
    var S := [b] + rest;
    assert forall m :: 0 < m < |S| ==> S[m] == rest[m - 1];
    forall m, n | 0 <= m < n < |S|
      ensures KeysOf(img, S[m]) !! KeysOf(img, S[n]) && ColumnMajorBefore(S[m][0], S[n][0])
    {
      assert S[n] == rest[n - 1];
      if m > 0 {
        assert S[m] == rest[m - 1];
      }
    }
  }

  /** The blobs of an image form a segmentation of it. */
  lemma SplitFacts(img: Image)
    ensures Segmentation(img, Split(img))
  {
    ScanFacts(img, 0, 0, {});
  }

  /** An image has blobs only if it has an ink pixel: one without ink splits into nothing. */
  lemma BlobsNeedInk(img: Image)
    ensures Split(img) != [] ==> exists p :: InImage(img, p) && InkAt(img, p)
  {
    SplitFacts(img);
    var S := Split(img);
    if S != [] {
      assert WellFormedBlob(img, S[0]) && InImage(img, S[0][0]);
      assert InkAt(img, S[0][0]);
    }
  }
}
