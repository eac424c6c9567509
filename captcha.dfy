/**
 * Nearest-centroid recognition: the centroid of each label is the mean of
 * its training samples, a character is given the label whose centroid's
 * quadrant histogram is nearest in squared Euclidean distance, and a captcha
 * is read only when it holds exactly four characters that all get a label.
 */
module Captcha {
  import opened Raster
  import opened Segment
  import opened Features
  import opened Training

  /** A four-bucket histogram of real values. */
  type RealHistogram = s: seq<real> | |s| == 4 witness [0.0, 0.0, 0.0, 0.0]

  /** The mean features of one label. */
  datatype Centroid = Centroid(width: real, height: real, n: real, numbers: RealHistogram)

  /** The "no candidate yet" score a search for the nearest centroid starts from (1e50). */
  const Sentinel: real := 100000000000000000000000000000000000000000000000000.0

  /** The rune that stands for "no label". */
  const NoLabel: char := '\0'

  /** The features of one sample as a centroid. */
  function AsCentroid(f: Feature): Centroid {
    Centroid(f.width as real, f.height as real, f.n as real,
      [f.numbers[0] as real, f.numbers[1] as real, f.numbers[2] as real, f.numbers[3] as real])
  }

  /** The mean of an entry: each field of its sum divided by its sample count. */
  function Mean(e: Entry): Centroid
    requires e.samples >= 1
  {
    var s := e.samples as real;
    Centroid(e.sum.width as real / s, e.sum.height as real / s, e.sum.n as real / s,
      [e.sum.numbers[0] as real / s, e.sum.numbers[1] as real / s,
       e.sum.numbers[2] as real / s, e.sum.numbers[3] as real / s])
  }

  /** The centroid of every label of a model. */
  function Centroids(entries: map<char, Entry>): map<char, Centroid>
    requires HasSamples(entries)
  {
    map c | c in entries :: Mean(entries[c])
  }

  /** The square of a real; it is never negative. */
  function Sq(x: real): (s: real)
    ensures s >= 0.0
  {
    SquareNonNegative(x);
    x * x
  }

  lemma SquareNonNegative(x: real)
    ensures x * x >= 0.0
  {
    if x < 0.0 {
      assert x * x == (-x) * (-x);
    }
  }

  /** The squared distance between the first k buckets of a centroid and of a feature. */
  function PartialDistance(m: Centroid, f: Feature, k: nat): real
    requires k <= 4
  {
    if k == 0 then 0.0 else PartialDistance(m, f, k - 1) + Sq(m.numbers[k - 1] - f.numbers[k - 1] as real)
  }

  /** The squared Euclidean distance over the four histogram buckets only. */
  function Distance(m: Centroid, f: Feature): real {
    PartialDistance(m, f, 4)
  }

  /** Some label's centroid is closer to f than the sentinel score. */
  predicate HasCandidate(means: map<char, Centroid>, f: Feature) {
    exists c :: c in means && Distance(means[c], f) < Sentinel
  }

  /** c is a label whose centroid is at least as close to f as that of every other label. */
  predicate IsNearest(means: map<char, Centroid>, f: Feature, c: char) {
    c in means && forall d :: d in means ==> Distance(means[c], f) <= Distance(means[d], f)
  }

  /** The recogniser: the table of centroids, one per label. */
  class Classifier {
    var means: map<char, Centroid>

    constructor ()
      ensures means == map[]
    {
      means := map[];
    }

    /**
     * Loads the centroids of a model: every label of the model gets its
     * mean, labels the model does not have keep their centroid.
     */
    method Initialize(entries: map<char, Entry>)
      requires HasSamples(entries)
      modifies this
      ensures means == old(means) + Centroids(entries)
    {
      var todo := entries.Keys;
      while todo != {}
        invariant todo <= entries.Keys
        invariant means == old(means) + map c | c in entries && c !in todo :: Mean(entries[c])
        decreases todo
      {
        var c :| c in todo;
        means := means[c := Mean(entries[c])];
        todo := todo - {c};
      }
    }

    /**
     * The label of one character: one whose centroid is nearest, provided
     * some centroid is closer than the sentinel score, and NoLabel otherwise.
     * Which of several equally near labels is returned is not specified.
     */
    method RecognizeSingle(f: Feature) returns (r: char)
      ensures HasCandidate(means, f) ==> IsNearest(means, f, r) && Distance(means[r], f) < Sentinel
      ensures !HasCandidate(means, f) ==> r == NoLabel
    {
      var score := Sentinel;
      r := NoLabel;
      var todo := means.Keys;
      while todo != {}
        invariant todo <= means.Keys
        invariant score <= Sentinel
        invariant forall d :: d in means && d !in todo ==> score <= Distance(means[d], f)
        invariant score < Sentinel ==> r in means && score == Distance(means[r], f)
        invariant score == Sentinel ==> r == NoLabel
        decreases todo
      {
        var c :| c in todo;
        var model := means[c];
        var dis := 0.0;
        for i := 0 to 4
          invariant dis == PartialDistance(model, f, i)
        {
          dis := dis + Sq(model.numbers[i] - f.numbers[i] as real);
        }
        if score > dis {
          score := dis;
          r := c;
        }
        todo := todo - {c};
      }
    }

    /**
     * Reads a captcha. The answer is either empty or four labels: the
     * labels of the image's four characters in the order their blobs were
     * found. It is empty when the image does not hold exactly four
     * characters, and when some character gets no label.
     */
    method Recognize(img: Image) returns (r: seq<char>)
      ensures r == [] || |r| == CharsPerCaptcha
      ensures |r| == CharsPerCaptcha ==>
        var sig := Significant(Split(img));
        && |sig| == CharsPerCaptcha
        && forall i :: 0 <= i < CharsPerCaptcha ==>
             && r[i] != NoLabel
             && HasCandidate(means, FeaturesOf(sig[i]))
             && IsNearest(means, FeaturesOf(sig[i]), r[i])
      ensures |Significant(Split(img))| != CharsPerCaptcha ==> r == []
      ensures means == map[] ==> r == []
      ensures var sig := Significant(Split(img));
        |sig| == CharsPerCaptcha && NoLabel !in means &&
        (forall i :: 0 <= i < CharsPerCaptcha ==> HasCandidate(means, FeaturesOf(sig[i])))
        ==> |r| == CharsPerCaptcha
    {
      var chars := DenoiseAndSplit(img);
      ghost var sig := Significant(chars);
      var res: seq<char> := [];
      for i := 0 to |chars|
        invariant |res| == |Significant(chars[..i])| <= CharsPerCaptcha
        invariant Significant(chars[..i]) <= sig
        invariant forall k :: 0 <= k < |res| ==>
          res[k] != NoLabel && HasCandidate(means, FeaturesOf(sig[k])) && IsNearest(means, FeaturesOf(sig[k]), res[k])
      {
        var blob := chars[i];
        SignificantStep(chars, i);
        SignificantPrefix(chars, i + 1);
        if |blob| <= NoiseFloor {
          continue;
        }
        if |res| == CharsPerCaptcha {
          MoreThanFour(chars, i);
          return [];
        }
        assert sig[|res|] == blob;
        var feat := ExtractFeatures(blob);
        var ch := RecognizeSingle(feat);
        if ch == NoLabel {
          return [];
        }
        res := res + [ch];
      }
      assert chars[..|chars|] == chars;
      if |res| != CharsPerCaptcha {
        return [];
      }
      assert HasCandidate(means, FeaturesOf(sig[0]));
      return res;
    }
  }

  // ---------------------------------------------------------------------
  // Properties of the centroids and of the distance
  // ---------------------------------------------------------------------

  /** A mean of a balanced sum is balanced: its buckets add up to its point count. */
  lemma MeanBalanced(e: Entry)
    requires e.samples >= 1 && Balanced(e.sum)
    ensures var m := Mean(e); m.numbers[0] + m.numbers[1] + m.numbers[2] + m.numbers[3] == m.n
  {
    var s := e.samples as real;
    var h := e.sum.numbers;
    calc {
      h[0] as real / s + h[1] as real / s + h[2] as real / s + h[3] as real / s;
      (h[0] as real + h[1] as real + h[2] as real + h[3] as real) / s;
      e.sum.n as real / s;
    }
  }

  /** Every centroid of a model built by training is balanced. */
  lemma CentroidsBalanced(entries: map<char, Entry>)
    requires ValidEntries(entries)
    ensures forall c :: c in Centroids(entries) ==>
      var m := Centroids(entries)[c]; m.numbers[0] + m.numbers[1] + m.numbers[2] + m.numbers[3] == m.n
  {
    forall c | c in entries
      ensures var m := Mean(entries[c]); m.numbers[0] + m.numbers[1] + m.numbers[2] + m.numbers[3] == m.n
    {
      MeanBalanced(entries[c]);
    }
  }

  /** A label seen once has that sample's features as its centroid. */
  lemma SingleSampleMean(f: Feature)
    ensures Mean(Entry(1, f)) == AsCentroid(f)
  {
    assert Mean(Entry(1, f)).numbers == AsCentroid(f).numbers;
  }

  lemma {:induction false} PartialDistanceNonNegative(m: Centroid, f: Feature, k: nat)
    requires k <= 4
    ensures PartialDistance(m, f, k) >= 0.0
    ensures PartialDistance(m, f, k) == 0.0 <==> forall i :: 0 <= i < k ==> m.numbers[i] == f.numbers[i] as real
  {
    if k > 0 {
      PartialDistanceNonNegative(m, f, k - 1);
      var x := m.numbers[k - 1] - f.numbers[k - 1] as real;
      if x != 0.0 {
        SqPositive(x);
      }
    }
  }

  /** The distance is zero exactly when the two histograms agree bucket by bucket. */
  lemma DistanceZeroIffSameHistogram(m: Centroid, f: Feature)
    ensures Distance(m, f) >= 0.0
    ensures Distance(m, f) == 0.0 <==> forall i :: 0 <= i < 4 ==> m.numbers[i] == f.numbers[i] as real
  {
    PartialDistanceNonNegative(m, f, 4);
  }

  /** Width, height and point count play no part in the distance. */
  lemma DistanceIgnoresBox(m: Centroid, m': Centroid, f: Feature, f': Feature)
    requires m.numbers == m'.numbers && f.numbers == f'.numbers
    ensures Distance(m, f) == Distance(m', f')
  {
    assert forall k :: 0 <= k <= 4 ==> PartialDistance(m, f, k) == PartialDistance(m', f', k) by {
      forall k | 0 <= k <= 4
        ensures PartialDistance(m, f, k) == PartialDistance(m', f', k)
      {
        PartialDistanceSame(m, m', f, f', k);
      }
    }
  }

  lemma {:induction false} PartialDistanceSame(m: Centroid, m': Centroid, f: Feature, f': Feature, k: nat)
    requires k <= 4 && m.numbers == m'.numbers && f.numbers == f'.numbers
    ensures PartialDistance(m, f, k) == PartialDistance(m', f', k)
  {
    if k > 0 {
      PartialDistanceSame(m, m', f, f', k - 1);
    }
  }

  lemma SqPositive(x: real)
    requires x != 0.0
    ensures Sq(x) > 0.0
  {
    if x > 0.0 {
      calc {
        Sq(x);
        == x * x;
        > 0.0;
      }
    } else {
      var y := -x;
      calc {
        Sq(x);
        == y * y;
        > 0.0;
      }
    }
  }

  /** Bound on the square of a value of bounded magnitude. */
  lemma SqBound(x: real, b: real)
    requires 0.0 <= b && -b <= x <= b
    ensures Sq(x) <= b * b
  {
    if x >= 0.0 {
      assert x * x <= x * b <= b * b;
    } else {
      assert x * x == (-x) * (-x);
      assert (-x) * (-x) <= (-x) * b <= b * b;
    }
  }

  /** The largest bucket value for which the sentinel is out of reach. */
  const Moderate: real := 100000000000000000000.0

  /** Histogram values of realistic size: between 0 and 1e20. */
  predicate ModerateValues(h: seq<real>) {
    forall i :: 0 <= i < |h| ==> 0.0 <= h[i] <= Moderate
  }

  /**
   * With histogram values of realistic size the sentinel score is out of
   * reach, so some label is a candidate exactly when there are centroids: a
   * character gets NoLabel only from an empty table, unless NoLabel is
   * itself a label.
   */
  lemma CandidateIffCentroids(means: map<char, Centroid>, f: Feature)
    requires forall c :: c in means ==> ModerateValues(means[c].numbers)
    requires ModerateValues(AsCentroid(f).numbers)
    ensures HasCandidate(means, f) <==> means != map[]
  {
    if means != map[] {
      var c :| c in means;
      var m := means[c];
      forall i | 0 <= i < 4
        ensures Sq(m.numbers[i] - f.numbers[i] as real) <= Moderate * Moderate
      {
        assert AsCentroid(f).numbers[i] == f.numbers[i] as real;
        SqBound(m.numbers[i] - f.numbers[i] as real, Moderate);
      }
      assert PartialDistance(m, f, 1) <= Moderate * Moderate;
      assert PartialDistance(m, f, 2) <= 2.0 * (Moderate * Moderate);
      assert PartialDistance(m, f, 3) <= 3.0 * (Moderate * Moderate);
      assert PartialDistance(m, f, 4) <= 4.0 * (Moderate * Moderate);
      assert Moderate * Moderate == 10000000000000000000000000000000000000000.0;
    }
  }

  /**
   * A character whose features are exactly some label's centroid is read
   * as a label whose centroid has that character's histogram: the trained
   * label itself, or one indistinguishable from it.
   */
  lemma NearestOfExactMatch(means: map<char, Centroid>, f: Feature, c: char, r: char)
    requires c in means && means[c].numbers == AsCentroid(f).numbers
    requires IsNearest(means, f, r)
    ensures means[r].numbers == AsCentroid(f).numbers
  {
    DistanceZeroIffSameHistogram(means[c], f);
    DistanceZeroIffSameHistogram(means[r], f);
    assert Distance(means[r], f) == 0.0;
    assert forall i :: 0 <= i < 4 ==> means[r].numbers[i] == AsCentroid(f).numbers[i];
  }

  /**
   * Training an empty model on one image with four distinct label bytes and
   * loading it puts each character's features in its own label's centroid.
   */
  lemma TrainedOnceCentroids(feats: seq<Feature>, labels: seq<char>)
    requires |feats| == |labels| == CharsPerCaptcha
    requires forall i, j :: 0 <= i < j < |labels| ==> labels[i] != labels[j]
    requires forall i :: 0 <= i < |feats| ==> Balanced(feats[i])
    ensures ValidEntries(AbsorbAll(map[], feats, labels))
    ensures forall i :: 0 <= i < |labels| ==>
      labels[i] in Centroids(AbsorbAll(map[], feats, labels)) &&
      Centroids(AbsorbAll(map[], feats, labels))[labels[i]] == AsCentroid(feats[i])
  {
    AbsorbAllValid(map[], feats, labels);
    var r := AbsorbAll(map[], feats, labels);
    forall i | 0 <= i < |labels|
      ensures labels[i] in r && Mean(r[labels[i]]) == AsCentroid(feats[i])
    {
      var c := labels[i];
      AbsorbAllEntry(map[], feats, labels, c);
      forall j | 0 <= j < |labels| && j != i
        ensures labels[j] != c
      {
        if j < i {
          assert labels[j] != labels[i];
        } else {
          assert labels[i] != labels[j];
        }
      }
      OnlyOccurrence(feats, labels, i);
      AddFeatureFromZero(feats[i]);
      assert r[c] == Entry(1, feats[i]);
      SingleSampleMean(feats[i]);
    }
  }
}
