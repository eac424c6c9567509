/**
 * Pixels, colours and the captcha image as the recogniser sees it.
 *
 * The image is an uninterpreted pixel reader: the segmenter asks it for the
 * colour at (x, y) and never looks behind it, so what it answers (also just
 * outside the image, which the segmenter's neighbour test does ask about) is
 * whatever the image library decides.
 */
module Raster {

  /** A colour channel as the image library reports it: 16 bits. */
  type Channel = c: int | 0 <= c <= 0xFFFF

  /** An 8-bit channel of the debug output image. */
  type Byte = b: int | 0 <= b < 256

  /** A colour with 16-bit red, green, blue and alpha channels. */
  datatype Color = Color(r: Channel, g: Channel, b: Channel, a: Channel)

  datatype Point = Point(x: int, y: int)

  /** A w-by-h captcha image and its pixel reader. */
  datatype Image = Image(w: nat, h: nat, at: (int, int) -> Color)

  /** The open band of squared-channel sums that counts as ink. */
  const InkLow: int := 80000000
  const InkHigh: int := 5000000000

  /** Sum of the squared red, green and blue channels; alpha plays no part. */
  function SquareSum(c: Color): int {
    c.r * c.r + c.g * c.g + c.b * c.b
  }

  /**
   * The ink test: the squared-channel sum lies strictly inside the band. An
   * ink pixel therefore has some channel of at least 5164 and some channel
   * of at most 40824: it is neither too dark nor too light.
   */
  predicate IsInk(c: Color): (ink: bool)
    ensures ink ==> c.r >= 5164 || c.g >= 5164 || c.b >= 5164
    ensures ink ==> c.r <= 40824 || c.g <= 40824 || c.b <= 40824
  {
    InkChannelBounds(c);
    InkLow < SquareSum(c) < InkHigh
  }

  /** The channel bounds that the two ends of the ink band impose. */
  lemma InkChannelBounds(c: Color)
    ensures InkLow < SquareSum(c) ==> c.r >= 5164 || c.g >= 5164 || c.b >= 5164
    ensures SquareSum(c) < InkHigh ==> c.r <= 40824 || c.g <= 40824 || c.b <= 40824
  {
    if c.r < 5164 && c.g < 5164 && c.b < 5164 {
      SquareMonotone(c.r, 5163);
      SquareMonotone(c.g, 5163);
      SquareMonotone(c.b, 5163);
    }
    if c.r > 40824 && c.g > 40824 && c.b > 40824 {
      SquareMonotone(40825, c.r);
      SquareMonotone(40825, c.g);
      SquareMonotone(40825, c.b);
    }
  }

  predicate InkAt(img: Image, p: Point) {
    IsInk(img.at(p.x, p.y))
  }

  /** The eight neighbour offsets, walked in this order by the segmenter. */
  const DeltaX: seq<int> := [0, 1, 1, 1, 0, -1, -1, -1]
  const DeltaY: seq<int> := [1, 1, 0, -1, -1, -1, 0, 1]

  function Neighbour(p: Point, k: nat): Point
    requires k < 8
  {
    Point(p.x + DeltaX[k], p.y + DeltaY[k])
  }

  /** q is one of the eight neighbours of p. */
  predicate Adjacent(p: Point, q: Point) {
    exists k :: 0 <= k < 8 && Neighbour(p, k) == q
  }

  /** The pixels the scan seeds from: 0 <= x < w, 0 <= y < h. */
  predicate InImage(img: Image, p: Point) {
    0 <= p.x < img.w && 0 <= p.y < img.h
  }

  /**
   * The neighbour test of the segmenter: it rejects only x < 0, x > w,
   * y < 0 and y > h, so the column x == w and the row y == h pass it.
   */
  predicate InScanBounds(img: Image, p: Point) {
    0 <= p.x <= img.w && 0 <= p.y <= img.h
  }

  /** The integer under which the visited table records a point. */
  function Key(img: Image, p: Point): int {
    p.x * img.h + p.y
  }

  /**
   * Inside the image the key is a faithful index: it lies in 0..w*h-1 and
   * two pixels share a key only when they are the same pixel.
   */
  lemma KeyIdentifiesPixel(img: Image, p: Point, q: Point)
    requires InImage(img, p) && InImage(img, q)
    ensures 0 <= Key(img, p) < img.w * img.h
    ensures Key(img, p) == Key(img, q) <==> p == q
  {
    RowMajorBounds(p.x, p.y, img.w, img.h);
    if p.x != q.x || p.y != q.y {
      RowMajorDistinct(p.x, p.y, q.x, q.y, img.h);
    }
  }

  /** Column x, row y of a w-by-h grid lands in 0..w*h-1. */
  lemma RowMajorBounds(x: nat, y: nat, w: nat, h: nat)
    requires x < w && y < h
    ensures 0 <= x * h + y < w * h
  {
    ScaleMonotone(x, w - 1, h);
    assert (w - 1) * h + h == w * h;
  }

  /** Distinct cells of a grid with h rows have distinct row-major indices. */
  lemma RowMajorDistinct(x: nat, y: nat, x': nat, y': nat, h: nat)
    requires y < h && y' < h && (x != x' || y != y')
    ensures x * h + y != x' * h + y'
  {
    if x < x' {
      ScaleMonotone(x + 1, x', h);
      assert (x + 1) * h == x * h + h;
    } else if x' < x {
      ScaleMonotone(x' + 1, x, h);
      assert (x' + 1) * h == x' * h + h;
    }
  }

  /** Both extremes are excluded: black and full white are never ink. */
  lemma ExtremesAreNotInk(a: Channel)
    ensures !IsInk(Color(0, 0, 0, a))
    ensures !IsInk(Color(0xFFFF, 0xFFFF, 0xFFFF, a))
  {
  }

  /** The ink test ignores alpha. */
  lemma InkIgnoresAlpha(c: Color, a: Channel)
    ensures IsInk(c) <==> IsInk(c.(a := a))
  {
  }

  lemma ScaleMonotone(a: int, b: int, c: nat)
    requires a <= b
    ensures a * c <= b * c
  {
  }

  lemma SquareMonotone(u: nat, v: nat)
    requires u <= v
    ensures u * u <= v * v
  {
  }

  /**
   * A grey pixel (equal red, green and blue) is ink exactly when its channel
   * value lies in 5164..40824.
   */
  lemma GreyInkBand(v: Channel, a: Channel)
    ensures IsInk(Color(v, v, v, a)) <==> 5164 <= v <= 40824
  {
    if v < 5164 {
      SquareMonotone(v, 5163);
    } else if v > 40824 {
      SquareMonotone(40825, v);
    } else {
      SquareMonotone(5164, v);
      SquareMonotone(v, 40824);
    }
  }

  /**
   * The visited keys alias: the point (x, h), which the neighbour test lets
   * through, is recorded under the same key as the in-image point (x + 1, 0).
   */
  lemma {:induction false} BorderKeyAliases(img: Image, x: int)
    requires 0 <= x < img.w
    ensures InScanBounds(img, Point(x, img.h)) && !InImage(img, Point(x, img.h))
    ensures Key(img, Point(x, img.h)) == Key(img, Point(x + 1, 0))
  {
    calc {
      Key(img, Point(x + 1, 0));
      (x + 1) * img.h;
      x * img.h + img.h;
    }
  }

  /** A pixel of the debug output: 8-bit red, green, blue and alpha. */
  datatype Rgba8 = Rgba8(r: Byte, g: Byte, b: Byte, a: Byte)

  const OpaqueRed: Rgba8 := Rgba8(255, 0, 0, 255)

  /**
   * How the debug view draws one input pixel: ink becomes opaque red, any
   * other pixel keeps the high byte of each colour channel and turns opaque.
   */
  function Highlight(c: Color): Rgba8 {
    if IsInk(c) then OpaqueRed else Rgba8(c.r / 256, c.g / 256, c.b / 256, 255)
  }

  /**
   * The debug view marks exactly the ink pixels: a pixel that is not ink
   * never comes out as opaque red, since its high bytes would put it in the
   * ink band. Every output pixel is opaque, and a non-ink pixel's channels
   * are its input channels cut to their high byte.
   */
  lemma HighlightMarksInk(c: Color)
    ensures Highlight(c) == OpaqueRed <==> IsInk(c)
    ensures Highlight(c).a == 255
    ensures !IsInk(c) ==>
      var o := Highlight(c);
      && o.r * 256 <= c.r < o.r * 256 + 256
      && o.g * 256 <= c.g < o.g * 256 + 256
      && o.b * 256 <= c.b < o.b * 256 + 256
  {
    if c.r / 256 == 255 && c.g / 256 == 0 && c.b / 256 == 0 {
      SquareMonotone(0xFF00, c.r);
      SquareMonotone(c.r, 0xFFFF);
      SquareMonotone(c.g, 255);
      SquareMonotone(c.b, 255);
    }
  }

  /**
   * The per-pixel loop of the debug view: a new w-by-h buffer whose pixel
   * (i, j) is the highlighted input pixel (i, j).
   */
  method DebugDenoise(img: Image) returns (out: array2<Rgba8>)
    ensures fresh(out)
    ensures out.Length0 == img.w && out.Length1 == img.h
    ensures forall i, j :: 0 <= i < img.w && 0 <= j < img.h ==> out[i, j] == Highlight(img.at(i, j))
  {
    out := new Rgba8[img.w, img.h]((i, j) => Rgba8(0, 0, 0, 0));
    for i := 0 to img.w
      invariant forall i', j :: 0 <= i' < i && 0 <= j < img.h ==> out[i', j] == Highlight(img.at(i', j))
    {
      for j := 0 to img.h
        invariant forall i', j' :: 0 <= i' < i && 0 <= j' < img.h ==> out[i', j'] == Highlight(img.at(i', j'))
        invariant forall j' :: 0 <= j' < j ==> out[i, j'] == Highlight(img.at(i, j'))
      {
        var c := img.at(i, j);
        if IsInk(c) {
          out[i, j] := OpaqueRed;
        } else {
          out[i, j] := Rgba8(c.r / 256, c.g / 256, c.b / 256, 255);
        }
      }
    }
  }
}
