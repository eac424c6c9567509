# Captcha recogniser model

A Dafny model of the captcha recogniser in `pkg/captcha`. The recogniser reads
the four-character captchas of a CAS login page with a nearest-centroid
classifier. It works in five stages:

- **Ink test.** A pixel is ink when the sum of the squares of its 16-bit red,
  green and blue channels lies strictly between 80000000 and 5000000000.
- **Segmentation.** Every pixel of the image seeds a breadth-first search over
  the 8-connected ink pixels. The scan is column-major: x in the outer loop, y
  in the inner one. All searches share one visited table, keyed `x*h + y`.
  Each search uses a FIFO queue of capacity 100. A search whose queue
  overflows returns nothing, but the keys it marked stay visited.
- **Features.** Each blob gives a feature: its bounding box, its number of
  points N, and a four-bucket histogram. Each point goes to the quadrant it
  falls in around the integer centre of the box.
- **Recognition.** Blobs of at most 15 points are noise. The image must hold
  exactly four other blobs, the characters. Each character gets the label
  whose centroid histogram is nearest in squared Euclidean distance. The
  answer is all four labels or the empty string.
- **Training.** A labelled image adds each character's features to the
  running sum of its label and counts one more sample for it. It does this
  for all four characters, or changes nothing.

The model has five modules, one per stage, in five files:

| file | module | what it holds |
|---|---|---|
| `raster.dfy` | `Raster` | colours, points, the image reader, the ink test, the neighbour offsets, the visited key, the debug view's per-pixel loop |
| `segment.dfy` | `Segment` | the search and the scan: specification functions, methods proved equal to them, and lemmas about them |
| `features.dfy` | `Features` | feature extraction (specification, method and lemmas) and the noise filter |
| `training.dfy` | `Training` | the training accumulator: class `Model` with `AddTrainingData` |
| `captcha.dfy` | `Captcha` | the classifier: class `Classifier` with `Initialize`, `RecognizeSingle` and `Recognize` |

Each imperative operation is a method. Its loops carry invariants, and its
postcondition ties the result to a pure specification function: `Bfs` to
`BfsResult`, `DenoiseAndSplit` to `Split`, and `ExtractFeatures` to
`FeaturesOf`. The two stateful classes state their new state in terms of
the old one: `AddTrainingData` as `AbsorbAll` of the old entries, and
`Initialize` as the old centroids overridden by `Centroids`. The properties
of the source are proved as lemmas about those specification functions.

Two details of the search are modelled exactly as the code has them:

- The neighbour test rejects only `x < 0`, `x > w`, `y < 0` and `y > h`, so
  the column `x == w` and the row `y == h` pass it. What the image reports
  there is up to the image library, so the image is an uninterpreted pixel
  reader.
- The visited key of the point `(x, h)` equals that of `(x + 1, 0)`
  (`BorderKeyAliases`).

## Model

| member | source | states |
|---|---|---|
| Raster.IsInk | pkg/captcha/image_process.go:54-59 | the ink test of `checkValid`; an ink pixel has some channel of at least 5164 and some channel of at most 40824 |
| Raster.KeyIdentifiesPixel | pkg/captcha/image_process.go:64-66 | the visited key x*h + y of the closure `f` is a faithful index inside the image: it lies in 0..w*h-1, and two in-image pixels share a key exactly when they are the same pixel |
| Raster.ExtremesAreNotInk | pkg/captcha/image_process.go:54-59 | black and full white are never ink, whatever the alpha |
| Raster.InkIgnoresAlpha | pkg/captcha/image_process.go:54-59 | the ink test does not depend on the alpha channel |
| Raster.GreyInkBand | pkg/captcha/image_process.go:54-59 | a grey pixel (r = g = b = v) is ink exactly when 5164 <= v <= 40824 |
| Raster.BorderKeyAliases | pkg/captcha/image_process.go:64-66 | the point (x, h) passes the neighbour test but lies outside the image, and its visited key equals that of (x + 1, 0) |
| Raster.HighlightMarksInk | pkg/captcha/image_process.go:17-23 | a debug pixel is opaque red exactly when the input pixel is ink; every output pixel is opaque; a non-ink pixel keeps the high byte of each channel |
| Raster.DebugDenoise | pkg/captcha/image_process.go:13-25 | returns a fresh w-by-h buffer whose pixel (i, j) is the highlighted input pixel (i, j) |
| Segment.ScanKeyInRange | pkg/captcha/image_process.go:86 | every point that passes the neighbour test has a key in the finite range 0..w*h+h, which bounds how often the search can mark a new key |
| Segment.OfferedGrows | pkg/captcha/image_process.go:83-101 | offering the neighbours of a point only adds keys of points that pass the bounds test, never lets the queue exceed its capacity of 100, and changes nothing when it marks nothing |
| Segment.OverflowSticks | pkg/captcha/image_process.go:96-101 | once a push has found the queue full, the later neighbours change nothing: the search is abandoned with the keys marked so far |
| Segment.Bfs | pkg/captcha/image_process.go:63-108 | the bounded-queue search returns exactly the blob and the visited table of the specification `BfsResult` |
| Segment.OfferedAdded | pkg/captcha/image_process.go:83-101 | without an overflow, offering appends to the queue exactly the new points; each is a neighbour of the dequeued point, is ink, passes the bounds test, and has a key that was unvisited and is now visited |
| Segment.OfferedCloses | pkg/captcha/image_process.go:83-95 | without an overflow, every ink neighbour of the dequeued point that passes the bounds test is visited afterwards |
| Segment.DrainFacts | pkg/captcha/image_process.go:79-107 | draining the queue yields a blob whose points are ink, have distinct fresh keys, and after the first pass the bounds test and each follow a neighbour dequeued before them; every ink neighbour of a blob point that passes the bounds test ends up visited |
| Segment.BfsFacts | pkg/captcha/image_process.go:63-108 | the seed key always ends up visited; a visited seed or a non-ink seed gives nil and marks at most the seed; a returned blob starts at the seed, is well formed, and adds exactly its own keys to the visited table |
| Segment.DenoiseAndSplit | pkg/captcha/image_process.go:36-51 | the nested column-major scan returns exactly `Split(img)` |
| Segment.ScanFacts | pkg/captcha/image_process.go:40-48 | a scan from (i, j) yields well-formed blobs seeded at in-image pixels at or after (i, j), with pairwise disjoint keys, in column-major order of their seeds, avoiding the keys visited before |
| Segment.SplitFacts | pkg/captcha/image_process.go:36-51 | the blobs of an image form a segmentation: well formed, disjoint, ordered by seed |
| Segment.BlobsNeedInk | pkg/captcha/image_process.go:41-47 | an image without an in-image ink pixel splits into no blob |
| Features.Quadrant | pkg/captcha/captcha.go:100-108 | the bucket index is in 0..3; bit 0 is set exactly when x > cx, bit 1 exactly when y > cy |
| Features.ExtractFeatures | pkg/captcha/captcha.go:76-112 | the two loops compute exactly `FeaturesOf(blob)`: box from the 0xFFFF/-1 starts, N, and the quadrant histogram around the truncated centre |
| Features.BoxStep | pkg/captcha/captcha.go:81-94 | one more point updates the running box by a minimum and a maximum on each axis |
| Features.HistogramStep | pkg/captcha/captcha.go:100-109 | one more point increments exactly its own bucket |
| Features.HistogramSumsToCount | pkg/captcha/captcha.go:100-109 | every point lands in exactly one bucket, so the buckets sum to the point count |
| Features.FeatureHistogramSumsToN | pkg/captcha/captcha.go:78-109 | the buckets of a blob's features sum to its N, which is its number of points |
| Features.MinOfBounds | pkg/captcha/captcha.go:80-94 | the running minimum is at most its start and every element, and is the start or one of the elements |
| Features.MaxOfBounds | pkg/captcha/captcha.go:80-94 | the running maximum is at least its start and every element, and is the start or one of the elements |
| Features.BoxIsTight | pkg/captcha/captcha.go:80-94 | for a non-empty blob inside the 0..0xFFFF range every point lies in the box and each of the four extremes is attained by a point of the blob |
| Features.BoxAtLeastOne | pkg/captcha/captcha.go:95-96 | every non-empty point list has width >= 1 and height >= 1 |
| Features.FeatureList | pkg/captcha/captcha.go:58 | the list holds the features of each blob, in order |
| Features.SignificantStep | pkg/captcha/captcha.go:48-52 | one more blob extends the filtered list by itself exactly when it has more than 15 points |
| Features.SignificantConcat | pkg/captcha/captcha.go:48-52 | the noise filter distributes over concatenation |
| Features.SignificantKeepsCharacters | pkg/captcha/captcha.go:48-52 | the filter keeps only blobs of more than 15 points, all taken from its input, and never lengthens the list |
| Features.NoiseIsIgnored | pkg/captcha/captcha.go:48-52 | a blob of at most 15 points can be removed from anywhere in the list without changing the filtered list |
| Features.MoreThanFour | pkg/captcha/captcha.go:53-56 | a significant blob met after four significant ones means the image holds more than four characters |
| Features.SignificantPrefix | pkg/captcha/captcha.go:48-52 | the filtered list is the filtered prefix followed by the filtered rest |
| Training.LabelsOf | pkg/captcha/model.go:52 | label i is the rune with the value of byte i of the label string |
| Training.Model.constructor | pkg/captcha/model.go:15 | a new model is empty and valid |
| Training.Model.AddTrainingData | pkg/captcha/model.go:18-67 | succeeds exactly when there are 4 label bytes and 4 significant blobs; then the entries become `AbsorbAll` of the old entries with the characters' features under their labels; otherwise the entries are unchanged; validity (samples >= 1, balanced sums) is kept |
| Training.Model.Accumulate | pkg/captcha/model.go:51-64 | the entry for the label, created empty when missing, gains one sample and the feature field by field; adding a balanced feature keeps the model valid |
| Training.CollectFeatures | pkg/captcha/model.go:27-44 | fails exactly when there are more than four significant blobs; otherwise returns the features of all significant blobs in order |
| Training.AbsorbAllStep | pkg/captcha/model.go:50-65 | one more character absorbs its feature into its label's entry |
| Training.AbsorbAllKeys | pkg/captcha/model.go:53-55 | after training, a label has an entry exactly when it had one before or is among the labels |
| Training.AbsorbAllSamples | pkg/captcha/model.go:57 | a label gains as many samples as it occurs among the labels, so a label repeated k times gains k |
| Training.AbsorbAllSums | pkg/captcha/model.go:58-64 | a label's sum gains the field-by-field sum of the features of its characters |
| Training.AbsorbAllEntry | pkg/captcha/model.go:50-65 | the combined effect on one label: presence, sample count and sum |
| Training.OtherLabelsUnchanged | pkg/captcha/model.go:50-65 | labels not among the four label bytes keep their entry, or keep having none |
| Training.NoOccurrences | pkg/captcha/model.go:50-65 | a label not among the labels counts zero and sums to the zero feature |
| Training.OnlyOccurrence | pkg/captcha/model.go:50-65 | a label that occurs only at index i counts once and sums to exactly the feature of character i; the other labels may repeat among themselves |
| Training.AbsorbAllValid | pkg/captcha/model.go:53-64 | training keeps every entry at samples >= 1 with histogram buckets summing to N |
| Training.CharacterFeaturesBalanced | pkg/captcha/captcha.go:100-109 | the features of every character of an image have buckets summing to N |
| Captcha.Classifier.constructor | pkg/captcha/captcha.go:13 | the centroid table starts empty |
| Captcha.Classifier.Initialize | pkg/captcha/captcha.go:24-37 | every label of the model gets the mean of its entry; labels absent from the model keep their centroid |
| Captcha.Classifier.RecognizeSingle | pkg/captcha/captcha.go:115-132 | if some centroid is closer than 1e50, returns a label whose centroid is at least as near as every other; otherwise returns rune 0 |
| Captcha.Classifier.Recognize | pkg/captcha/captcha.go:41-73 | the answer is empty or four labels; four labels mean four significant blobs, each with a candidate, each label a nearest one and not rune 0; fewer or more than four characters, or an empty table, give ""; with four characters, candidates for all and rune 0 not a label, the answer has four labels |
| Captcha.MeanBalanced | pkg/captcha/captcha.go:26-34 | the mean of a balanced entry has buckets summing to its mean N |
| Captcha.CentroidsBalanced | pkg/captcha/captcha.go:24-37 | every centroid loaded from a valid model is balanced |
| Captcha.SingleSampleMean | pkg/captcha/captcha.go:26-34 | the centroid of a label seen once is that sample's features |
| Captcha.Sq | pkg/captcha/captcha.go:135-137 | the square of `sqr`; it is never negative |
| Captcha.PartialDistanceNonNegative | pkg/captcha/captcha.go:120-123 | the partial distance over the first k buckets is non-negative, and zero exactly when those buckets agree |
| Captcha.DistanceZeroIffSameHistogram | pkg/captcha/captcha.go:120-123 | the distance is non-negative, and zero exactly when the histograms agree bucket by bucket |
| Captcha.PartialDistanceSame | pkg/captcha/captcha.go:120-123 | the partial distance depends only on the two histograms |
| Captcha.DistanceIgnoresBox | pkg/captcha/captcha.go:119-123 | width, height and N of either side never change the distance |
| Captcha.CandidateIffCentroids | pkg/captcha/captcha.go:115-131 | with bucket values up to 1e20, some centroid is closer than 1e50 exactly when the table is non-empty, so a character gets rune 0 only from an empty table, unless rune 0 is itself a label |
| Captcha.NearestOfExactMatch | pkg/captcha/captcha.go:115-131 | when some centroid equals a character's histogram, the label chosen has a centroid with exactly that histogram |
| Captcha.TrainedOnceCentroids | pkg/captcha/captcha.go:24-37 | training an empty model on one image with four distinct labels and loading it makes each label's centroid its character's features |

## Left out

- gob persistence (`DumpModel`, `DumpModelFile`, `LoadModel`, `LoadModelFile`, pkg/captcha/model.go:69-101) is not modelled. It is the `encoding/gob` library plus file I/O.
- The PNG encoding at the end of `DebugDenoise` (pkg/captcha/image_process.go:27-31) and its error result are not modelled. `Raster.DebugDenoise` returns the pixel buffer.
- Image decoding and `color.RGBA()` conversion are library code. The image is a width, a height and a reader from (x, y) to 16-bit channels. Its bounds are taken to start at (0, 0), as the scan's loop indices assume.
- `Raster.IsInk`: the squared sum uses unbounded integers. In Go it is computed in `uint`, which is 64 bits on the platforms the program targets, so it cannot wrap.
- Floating point is not modelled. Feature fields hold whole counts and are `int`. Centroids and distances are `real`, so rounding in the division by `Samples` and in the sums of squares is not captured. The sentinel 1e50 is the exact real 10^50.
- `Captcha.Classifier.Initialize` requires every entry to have at least one sample (`HasSamples`). The float division by zero a hand-made model could cause is not modelled. Models built by `AddTrainingData` always meet this (`Training.AbsorbAllValid`).
- `Captcha.Classifier.RecognizeSingle` specifies some nearest label, not which one. Go's map iteration order is unspecified, and the code keeps the first strictly better candidate in that order.
- `Captcha.Classifier.Initialize` picks its keys in an arbitrary order. The result does not depend on the order.
- `Captcha.Classifier.Recognize` returns the four runes as a `seq<char>`. The Go string is their UTF-8 encoding, whose byte length exceeds 4 when a label is not ASCII.
- `Captcha.CandidateIffCentroids` assumes bucket values of at most 1e20. Beyond that a distance can reach the 1e50 sentinel.
- The nil checks on the results of `denoiseAndSplit` and `extractFeatures` (pkg/captcha/captcha.go:44 and :59, pkg/captcha/model.go:24 and :39) are not modelled, because neither function can return nil.
- The global `meanModel` is a field of a `Captcha.Classifier` object. Concurrent use of the global is not modelled.
- The `Model` map holds pointers to its entries in Go and values here. Nothing else holds those pointers, so no aliasing is lost.
- The visited table is threaded through `Segment.Bfs` as a value in and a value out. It is not a shared map. Its only owner is the scan, so the effect is the same.
- The converse of `Segment.BlobsNeedInk` does not hold: an ink pixel need not end up in a blob. The ink pixels a search marks before its queue overflows end up in no blob, though the rest of that component can still seed later blobs. Border keys that alias (`Raster.BorderKeyAliases`) can also leave in-image ink out of every blob.
- `Training.CollectFeatures` and `Training.Model.Accumulate` are split out of `AddTrainingData`. They are its first loop and one step of its second loop.
