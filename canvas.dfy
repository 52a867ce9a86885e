/**
 * The canvas side of a round: the blank-canvas fallback for a missing sketch
 * and the binarised conditioning image handed to the generation pipeline.
 */
module Canvas {
  import opened Wrappers

  /** Fixed canvas size and the intensity of a blank (white) sample. */
  const Height: nat := 512
  const Width: nat := 512
  const Channels: nat := 3
  const White: int := 255

  /** Luminance above this value counts as paper, at or below it as ink. */
  const InkThreshold: int := 128
  /** The value the lookup gives paper: one more than the largest 8-bit intensity. */
  const PaperLevel: int := 256

  /**
   * A raster stored row-major with interleaved channels: the sample for
   * row y, column x and channel c sits at index (y * width + x) * channels + c.
   */
  datatype Raster<T> = Raster(height: nat, width: nat, channels: nat, samples: seq<T>) {
    predicate WellFormed() {
      |samples| == height * width * channels
    }

    predicate SameShape<U>(other: Raster<U>) {
      height == other.height && width == other.width && channels == other.channels
    }
  }

  /** A single-channel (luminance) image, one sample per pixel. */
  datatype Gray = Gray(height: nat, width: nat, samples: seq<int>) {
    predicate WellFormed() {
      |samples| == height * width
    }
  }

  /** The canonical blank sketch: 512 x 512 x 3, every sample white. */
  function Blank(): (r: Raster<int>)
    ensures r.WellFormed()
    ensures r.height == 512 && r.width == 512 && r.channels == 3
    ensures forall i :: 0 <= i < |r.samples| ==> r.samples[i] == 255
  {
    Raster(Height, Width, Channels, seq(Height * Width * Channels, _ => White))
  }

  /** A missing sketch is replaced by the blank canvas; a present one is used as it is. */
  function OrBlank(curr: Option<Raster<int>>): (r: Raster<int>)
    ensures curr.None? ==> r == Blank()
    ensures curr.Some? ==> r == curr.value
    ensures (curr.None? || curr.value.WellFormed()) ==> r.WellFormed()
  {
    match curr
    case None => Blank()
    case Some(sketch) => sketch
  }

  /** The point lookup applied to every sample of the conditioning image. */
  function Threshold(p: int): (r: int)
    ensures r == 0 || r == 256
    ensures r == 256 <==> p > 128
  {
    if p > InkThreshold then PaperLevel else 0
  }

  lemma ThresholdMonotone(p: int, q: int)
    requires p <= q
    ensures Threshold(p) <= Threshold(q)
  {
  }

  /**
   * The conditioning image: the luminance image expanded to three channels
   * (each channel a copy of the luminance) and thresholded sample by sample.
   */
  function Binarize(g: Gray): (r: Raster<int>)
    ensures r.height == g.height && r.width == g.width && r.channels == 3
    ensures |r.samples| == 3 * |g.samples|
    ensures g.WellFormed() ==> r.WellFormed()
    ensures forall i :: 0 <= i < |r.samples| ==> r.samples[i] == 0 || r.samples[i] == 256
  {
    Raster(g.height, g.width, 3,
      seq(3 * |g.samples|, i requires 0 <= i < 3 * |g.samples| => Threshold(g.samples[i / 3])))
  }

  /** Every channel of pixel p of the conditioning image is the threshold of p's luminance. */
  lemma BinarizePixel(g: Gray, p: nat, c: nat)
    requires p < |g.samples| && c < 3
    ensures 3 * p + c < |Binarize(g).samples|
    ensures Binarize(g).samples[3 * p + c] == (if g.samples[p] > 128 then 256 else 0)
  {
    assert (3 * p + c) / 3 == p;
  }

  /**
   * The conditioning image keeps only which side of the threshold each
   * luminance sample falls on: two luminance images of one shape that agree
   * on that side everywhere give the same conditioning image.
   */
  lemma BinarizeSeesOnlyInk(g: Gray, h: Gray)
    requires g.height == h.height && g.width == h.width && |g.samples| == |h.samples|
    requires forall i :: 0 <= i < |g.samples| ==> (g.samples[i] > 128 <==> h.samples[i] > 128)
    ensures Binarize(g) == Binarize(h)
  {
    var a, b := Binarize(g).samples, Binarize(h).samples;
    forall i | 0 <= i < |a| ensures a[i] == b[i] {
      assert i / 3 < |g.samples|;
    }
  }
}
