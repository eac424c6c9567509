/**
 * The training accumulator: per label, how many character samples were seen
 * and the field-by-field sum of their features. A training image adds its
 * four characters under its four label bytes, or changes nothing at all.
 */
module Training {
  import opened Raster
  import opened Segment
  import opened Features

  /** What the model keeps for one label. */
  datatype Entry = Entry(samples: int, sum: Feature)

  const ZeroFeature: Feature := Feature(0, 0, 0, [0, 0, 0, 0])

  /** The entry a label gets when it is first seen. */
  const EmptyEntry: Entry := Entry(0, ZeroFeature)

  /** Field-by-field sum of two features. */
  function AddFeature(a: Feature, b: Feature): Feature {
    Feature(a.width + b.width, a.height + b.height, a.n + b.n,
      [a.numbers[0] + b.numbers[0], a.numbers[1] + b.numbers[1],
       a.numbers[2] + b.numbers[2], a.numbers[3] + b.numbers[3]])
  }

  /** The entry of label c, or the empty entry when c has none yet. */
  function EntryOf(entries: map<char, Entry>, c: char): Entry {
    if c in entries then entries[c] else EmptyEntry
  }

  /** Adds one sample with features f under the label tag. */
  function Absorb(entries: map<char, Entry>, tag: char, f: Feature): map<char, Entry> {
    var e := EntryOf(entries, tag);
    entries[tag := Entry(e.samples + 1, AddFeature(e.sum, f))]
  }

  /** Adds the samples feats, the i-th under labels[i], in order. */
  function AbsorbAll(entries: map<char, Entry>, feats: seq<Feature>, labels: seq<char>): map<char, Entry>
    requires |feats| == |labels|
  {
    if |feats| == 0 then entries
    else
      var n := |feats| - 1;
      Absorb(AbsorbAll(entries, feats[..n], labels[..n]), labels[n], feats[n])
  }

  /** Labels are taken byte by byte: byte i of the label string is the label of character i. */
  function LabelsOf(labels: seq<Byte>): (cs: seq<char>)
    ensures |cs| == |labels| && forall i :: 0 <= i < |labels| ==> cs[i] as int == labels[i]
  {
    if |labels| == 0 then [] else LabelsOf(labels[..|labels| - 1]) + [labels[|labels| - 1] as char]
  }

  /** How many times c occurs in labels. */
  function Occurrences(labels: seq<char>, c: char): nat {
    if |labels| == 0 then 0
    else Occurrences(labels[..|labels| - 1], c) + (if labels[|labels| - 1] == c then 1 else 0)
  }

  /** The field-by-field sum of the features labelled c. */
  function LabelledSum(feats: seq<Feature>, labels: seq<char>, c: char): Feature
    requires |feats| == |labels|
  {
    if |feats| == 0 then ZeroFeature
    else
      var n := |feats| - 1;
      var s := LabelledSum(feats[..n], labels[..n], c);
      if labels[n] == c then AddFeature(s, feats[n]) else s
  }

  /** The features of the characters of an image, in the order its blobs were found. */
  function CharacterFeatures(img: Image): seq<Feature> {
    FeatureList(Significant(Split(img)))
  }

  /** A feature whose histogram adds up to its point count. */
  predicate Balanced(f: Feature) {
    Sum(f.numbers) == f.n
  }

  /** Every label has seen at least one sample, so that its mean is defined. */
  predicate HasSamples(entries: map<char, Entry>) {
    forall c :: c in entries ==> entries[c].samples >= 1
  }

  /**
   * What every entry the accumulator builds satisfies: at least one sample,
   * so that its mean is defined, and a histogram sum that adds up to its
   * point-count sum.
   */
  predicate ValidEntries(entries: map<char, Entry>) {
    forall c :: c in entries ==> entries[c].samples >= 1 && Balanced(entries[c].sum)
  }

  /** The training model: the per-label accumulated samples. */
  class Model {
    var entries: map<char, Entry>

    predicate Valid()
      reads this
    {
      ValidEntries(entries)
    }

    constructor ()
      ensures entries == map[] && Valid()
    {
      entries := map[];
    }

    /**
     * Adds a training image with its label string, given as its bytes. It
     * succeeds exactly when there are four label bytes and the image holds
     * four characters; then each character's features are added under its
     * label, and otherwise the model is left as it was.
     */
    method AddTrainingData(img: Image, labels: seq<Byte>) returns (ok: bool)
      requires Valid()
      modifies this
      ensures Valid()
      ensures ok <==> |labels| == CharsPerCaptcha && |Significant(Split(img))| == CharsPerCaptcha
      ensures ok ==> entries == AbsorbAll(old(entries), CharacterFeatures(img), LabelsOf(labels))
      ensures !ok ==> entries == old(entries)
    {
      if |labels| != CharsPerCaptcha {
        return false;
      }
      var chars := DenoiseAndSplit(img);
      var feats, fits := CollectFeatures(chars);
      if !fits {
        return false;
      }
      if |feats| != CharsPerCaptcha {
        return false;
      }
      assert feats == CharacterFeatures(img);
      CharacterFeaturesBalanced(img);
      ghost var labelChars := LabelsOf(labels);
      ghost var start := entries;
      for i := 0 to CharsPerCaptcha
        invariant Valid()
        invariant entries == AbsorbAll(start, feats[..i], labelChars[..i])
      {
        AbsorbAllStep(start, feats, labelChars, i);
        var feat := feats[i];
        Accumulate(labels[i] as char, feat);
      }
      assert feats[..CharsPerCaptcha] == feats && labelChars[..CharsPerCaptcha] == labelChars;
      return true;
    }

    /** Adds one sample with features feat under the label tag, creating its entry if needed. */
    method Accumulate(tag: char, feat: Feature)
      requires Valid() && Balanced(feat)
      modifies this
      ensures Valid()
      ensures entries == Absorb(old(entries), tag, feat)
    {
      if tag !in entries {
        entries := entries[tag := EmptyEntry];
      }
      var e := entries[tag];
      var numbers := e.sum.numbers;
      for j := 0 to 4
        invariant |numbers| == 4
        invariant forall j' :: 0 <= j' < j ==> numbers[j'] == e.sum.numbers[j'] + feat.numbers[j']
        invariant forall j' :: j <= j' < 4 ==> numbers[j'] == e.sum.numbers[j']
      {
        numbers := numbers[j := numbers[j] + feat.numbers[j]];
      }
      var sum := Feature(e.sum.width + feat.width, e.sum.height + feat.height, e.sum.n + feat.n, numbers);
      assert sum == AddFeature(e.sum, feat);
      entries := entries[tag := Entry(e.samples + 1, sum)];
    }
  }

  /**
   * The filtering loop of training: the features of the characters among
   * chars, in order, or a failure as soon as a fifth character turns up.
   */
  method CollectFeatures(chars: seq<seq<Point>>) returns (feats: seq<Feature>, fits: bool)
    ensures fits <==> |Significant(chars)| <= CharsPerCaptcha
    ensures fits ==> feats == FeatureList(Significant(chars))
  {
    feats := [];
    for i := 0 to |chars|
      invariant |Significant(chars[..i])| <= CharsPerCaptcha
      invariant feats == FeatureList(Significant(chars[..i]))
    {
      var blob := chars[i];
      SignificantStep(chars, i);
      if |blob| <= NoiseFloor {
        continue;
      }
      if |feats| == CharsPerCaptcha {
        MoreThanFour(chars, i);
        return feats, false;
      }
      var feat := ExtractFeatures(blob);
      FeatureListStep(chars, i);
      feats := feats + [feat];
    }
    assert chars[..|chars|] == chars;
    return feats, true;
  }

  lemma AbsorbAllStep(entries: map<char, Entry>, feats: seq<Feature>, labels: seq<char>, i: nat)
    requires |feats| == |labels| && i < |feats|
    ensures AbsorbAll(entries, feats[..i + 1], labels[..i + 1]) ==
      Absorb(AbsorbAll(entries, feats[..i], labels[..i]), labels[i], feats[i])
  {
    assert feats[..i + 1][..i] == feats[..i] && labels[..i + 1][..i] == labels[..i];
  }

  // ---------------------------------------------------------------------
  // Properties of the accumulator
  // ---------------------------------------------------------------------

  lemma AddFeatureAssociates(a: Feature, b: Feature, c: Feature)
    ensures AddFeature(AddFeature(a, b), c) == AddFeature(a, AddFeature(b, c))
  {
  }

  lemma AddZero(a: Feature)
    ensures AddFeature(a, ZeroFeature) == a
  {
    assert AddFeature(a, ZeroFeature).numbers == a.numbers;
  }

  /** After adding samples under labels, a label has an entry exactly when it had one or occurs among the labels. */
  lemma {:induction false} AbsorbAllKeys(entries: map<char, Entry>, feats: seq<Feature>, labels: seq<char>)
    requires |feats| == |labels|
    ensures forall c :: c in AbsorbAll(entries, feats, labels) <==> c in entries || c in labels
  {
    if |feats| > 0 {
      var n := |feats| - 1;
      assert labels == labels[..n] + [labels[n]];
      AbsorbAllKeys(entries, feats[..n], labels[..n]);
    }
  }

  /** A label's sample count grows by the number of times it occurs among the labels. */
  lemma {:induction false} AbsorbAllSamples(entries: map<char, Entry>, feats: seq<Feature>, labels: seq<char>, c: char)
    requires |feats| == |labels|
    ensures EntryOf(AbsorbAll(entries, feats, labels), c).samples == EntryOf(entries, c).samples + Occurrences(labels, c)
  {
    if |feats| > 0 {
      var n := |feats| - 1;
      AbsorbAllSamples(entries, feats[..n], labels[..n], c);
    }
  }

  /** A label's feature sums grow by the features labelled with it. */
  lemma {:induction false} AbsorbAllSums(entries: map<char, Entry>, feats: seq<Feature>, labels: seq<char>, c: char)
    requires |feats| == |labels|
    ensures EntryOf(AbsorbAll(entries, feats, labels), c).sum == AddFeature(EntryOf(entries, c).sum, LabelledSum(feats, labels, c))
  {
    if |feats| == 0 {
      AddZero(EntryOf(entries, c).sum);
    } else {
      var n := |feats| - 1;
      var fs, ls := feats[..n], labels[..n];
      AbsorbAllSums(entries, fs, ls, c);
      var prev := EntryOf(AbsorbAll(entries, fs, ls), c).sum;
      if labels[n] == c {
        AddFeatureAssociates(EntryOf(entries, c).sum, LabelledSum(fs, ls, c), feats[n]);
        assert EntryOf(AbsorbAll(entries, feats, labels), c).sum == AddFeature(prev, feats[n]);
      } else {
        assert EntryOf(AbsorbAll(entries, feats, labels), c).sum == prev;
      }
    }
  }

  /**
   * After adding samples feats under labels, a label has an entry exactly
   * when it had one before or occurs among the labels; its sample count grew
   * by the number of its occurrences and its sums by the features labelled
   * with it.
   */
  lemma AbsorbAllEntry(entries: map<char, Entry>, feats: seq<Feature>, labels: seq<char>, c: char)
    requires |feats| == |labels|
    ensures var r := AbsorbAll(entries, feats, labels);
      && (c in r <==> c in entries || c in labels)
      && (c in r ==>
            r[c] == Entry(EntryOf(entries, c).samples + Occurrences(labels, c),
                          AddFeature(EntryOf(entries, c).sum, LabelledSum(feats, labels, c))))
  {
    AbsorbAllKeys(entries, feats, labels);
    AbsorbAllSamples(entries, feats, labels, c);
    AbsorbAllSums(entries, feats, labels, c);
  }

  /** A label that does not occur among the labels keeps its entry, or keeps having none. */
  lemma OtherLabelsUnchanged(entries: map<char, Entry>, feats: seq<Feature>, labels: seq<char>, c: char)
    requires |feats| == |labels| && c !in labels
    ensures var r := AbsorbAll(entries, feats, labels);
      (c in r <==> c in entries) && (c in entries ==> r[c] == entries[c])
  {
    AbsorbAllEntry(entries, feats, labels, c);
    NoOccurrences(feats, labels, c);
    AddZero(EntryOf(entries, c).sum);
  }

  lemma {:induction false} NoOccurrences(feats: seq<Feature>, labels: seq<char>, c: char)
    requires |feats| == |labels| && c !in labels
    ensures Occurrences(labels, c) == 0 && LabelledSum(feats, labels, c) == ZeroFeature
  {
    if |feats| > 0 {
      var n := |feats| - 1;
      assert forall x :: x in labels[..n] ==> x in labels;
      NoOccurrences(feats[..n], labels[..n], c);
    }
  }

  /** The zero feature is also a left identity. */
  lemma AddFeatureFromZero(f: Feature)
    ensures AddFeature(ZeroFeature, f) == f
  {
    assert AddFeature(ZeroFeature, f).numbers == f.numbers;
  }

  /** A label that occurs only at index i counts once and sums to feature i. */
  lemma {:induction false} OnlyOccurrence(feats: seq<Feature>, labels: seq<char>, i: nat)
    requires |feats| == |labels| && i < |labels|
    requires forall j :: 0 <= j < |labels| && j != i ==> labels[j] != labels[i]
    ensures Occurrences(labels, labels[i]) == 1
    ensures LabelledSum(feats, labels, labels[i]) == feats[i]
  {
    var n := |labels| - 1;
    var c := labels[i];
    if i == n {
      assert c !in labels[..n];
      NoOccurrences(feats[..n], labels[..n], c);
      AddFeatureFromZero(feats[i]);
    } else {
      OnlyOccurrence(feats[..n], labels[..n], i);
    }
  }

  /** Adding balanced samples keeps every entry valid. */
  lemma {:induction false} AbsorbAllValid(entries: map<char, Entry>, feats: seq<Feature>, labels: seq<char>)
    requires |feats| == |labels| && ValidEntries(entries)
    requires forall i :: 0 <= i < |feats| ==> Balanced(feats[i])
    ensures ValidEntries(AbsorbAll(entries, feats, labels))
  {
    if |feats| > 0 {
      var n := |feats| - 1;
      AbsorbAllValid(entries, feats[..n], labels[..n]);
    }
  }

  /** The features of an image's characters are balanced. */
  lemma CharacterFeaturesBalanced(img: Image)
    ensures forall i :: 0 <= i < |CharacterFeatures(img)| ==> Balanced(CharacterFeatures(img)[i])
  {
    var sig := Significant(Split(img));
    forall i | 0 <= i < |sig|
      ensures Balanced(FeaturesOf(sig[i]))
    {
      FeatureHistogramSumsToN(sig[i]);
    }
  }
}
