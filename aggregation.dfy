/**
 * The suggestion overlay: the edge maps of the round's candidates are
 * averaged sample by sample and the average is inverted against white.
 * Arithmetic is exact (reals), not floating point.
 */
module Aggregation {
  import opened Wrappers
  import opened Canvas

  const MaxIntensity: real := 255.0

  function Sum(s: seq<int>): int
  {
    if s == [] then 0 else s[0] + Sum(s[1..])
  }

  /** The arithmetic mean of a non-empty list of samples. */
  function Mean(s: seq<int>): (m: real)
    requires |s| > 0
    ensures m * (|s| as real) == Sum(s) as real
  {
    (Sum(s) as real) / (|s| as real)
  }

  /** The samples at index i of every edge map, in candidate order. */
  function Column(edgeMaps: seq<Raster<int>>, i: nat): seq<int>
    requires forall k :: 0 <= k < |edgeMaps| ==> i < |edgeMaps[k].samples|
  {
    seq(|edgeMaps|, k requires 0 <= k < |edgeMaps| => edgeMaps[k].samples[i])
  }

  predicate InRange(s: seq<int>)
  {
    forall k :: 0 <= k < |s| ==> 0 <= s[k] <= 255
  }

  lemma {:induction false} SumBounds(s: seq<int>)
    requires InRange(s)
    ensures 0 <= Sum(s) <= 255 * |s|
  {
    if s != [] {
      assert InRange(s[1..]) by {
        forall k | 0 <= k < |s[1..]| ensures 0 <= s[1..][k] <= 255 {
          assert s[1..][k] == s[k + 1];
        }
      }
      SumBounds(s[1..]);
    }
  }

  /** The mean of 8-bit samples is again within the 8-bit range. */
  lemma MeanBounds(s: seq<int>)
    requires |s| > 0 && InRange(s)
    ensures 0.0 <= Mean(s) <= 255.0
  {
    SumBounds(s);
    var n := |s| as real;
    assert (Sum(s) as real) <= 255.0 * n;
    assert Mean(s) * n == Sum(s) as real;
  }

  lemma {:induction false} SumConstant(s: seq<int>, v: int)
    requires forall k :: 0 <= k < |s| ==> s[k] == v
    ensures Sum(s) == |s| * v
  {
    if s != [] {
      SumConstant(s[1..], v);
    }
  }

  /** Where every edge map agrees on a value, the consensus is that value. */
  lemma MeanOfAgreeing(s: seq<int>, v: int)
    requires |s| > 0
    requires forall k :: 0 <= k < |s| ==> s[k] == v
    ensures Mean(s) == v as real
  {
    SumConstant(s, v);
    assert (Sum(s) as real) == (|s| as real) * (v as real);
  }

  /**
   * One overlay sample from the normalised sketch sample and the averaged
   * edge sample: the sketch is weighted 0.0, so the result is white minus
   * the average, whatever the sketch holds.
   */
  function OverlaySample(sketch: real, average: real): (r: real)
    ensures r == MaxIntensity - average
  {
    1.0 * (0.0 * sketch + 1.0 - 1.0 * (average / 255.0)) * 255.0
  }

  /** The sketch and all edge maps share one shape, as the elementwise arithmetic needs. */
  predicate Stackable(sketch: Raster<int>, edgeMaps: seq<Raster<int>>)
  {
    && |edgeMaps| > 0
    && sketch.WellFormed()
    && forall k :: 0 <= k < |edgeMaps| ==> edgeMaps[k].WellFormed() && edgeMaps[k].SameShape(sketch)
  }

  /**
   * The suggestion overlay; None where the arrays cannot be combined
   * elementwise (no edge maps, or shapes that differ).
   */
  function Overlay(sketch: Raster<int>, edgeMaps: seq<Raster<int>>): (r: Option<Raster<real>>)
    ensures r.Some? <==> Stackable(sketch, edgeMaps)
    ensures r.Some? ==> r.value.SameShape(sketch) && r.value.WellFormed()
    ensures r.Some? ==> forall i :: 0 <= i < |r.value.samples| ==>
      i < |sketch.samples| && 255.0 - r.value.samples[i] == Mean(Column(edgeMaps, i))
  {
    if !Stackable(sketch, edgeMaps) then None
    else
      var n := |sketch.samples|;
      assert forall k :: 0 <= k < |edgeMaps| ==> |edgeMaps[k].samples| == n;
      Some(Raster(sketch.height, sketch.width, sketch.channels,
        seq(n, i requires 0 <= i < n =>
          OverlaySample(sketch.samples[i] as real / 255.0, Mean(Column(edgeMaps, i))))))
  }

  /** With 8-bit edge maps every overlay sample is an 8-bit intensity. */
  lemma OverlayInRange(sketch: Raster<int>, edgeMaps: seq<Raster<int>>)
    requires Stackable(sketch, edgeMaps)
    requires forall k, i :: 0 <= k < |edgeMaps| && 0 <= i < |edgeMaps[k].samples| ==>
      0 <= edgeMaps[k].samples[i] <= 255
    ensures Overlay(sketch, edgeMaps).Some?
    ensures forall i :: 0 <= i < |Overlay(sketch, edgeMaps).value.samples| ==>
      0.0 <= Overlay(sketch, edgeMaps).value.samples[i] <= 255.0
  {
    var r := Overlay(sketch, edgeMaps).value;
    forall i | 0 <= i < |r.samples|
      ensures 0.0 <= r.samples[i] <= 255.0
    {
      var col := Column(edgeMaps, i);
      assert InRange(col) by {
        forall k | 0 <= k < |col| ensures 0 <= col[k] <= 255 {
          assert col[k] == edgeMaps[k].samples[i];
        }
      }
      MeanBounds(col);
    }
  }

  /** The overlay depends on the sketch only through its shape, never its samples. */
  lemma OverlayIgnoresSketch(a: Raster<int>, b: Raster<int>, edgeMaps: seq<Raster<int>>)
    requires a.SameShape(b) && a.WellFormed() && b.WellFormed()
    ensures Overlay(a, edgeMaps) == Overlay(b, edgeMaps)
  {
    if Stackable(a, edgeMaps) {
      var ra, rb := Overlay(a, edgeMaps).value, Overlay(b, edgeMaps).value;
      assert ra.samples == rb.samples;
    }
  }
}
