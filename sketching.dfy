/**
 * One rendering session: the slot table that persists across rounds, the
 * round controller that fills every slot's seed and renders one candidate
 * per slot, and the reset that starts the session over.
 *
 * The diffusion pipeline, the luminance conversion and the edge detector
 * are external; they enter as function parameters, so a round is a
 * deterministic function of them, the sketch, the table and the draws of
 * the random source.
 */
module Sketching {
  import opened Wrappers
  import opened Canvas
  import opened Aggregation
  import opened Seeds

  /** Number of slots, hence of candidates per round. */
  const NumImages: nat := 3
  /** Inference steps of every pipeline call. */
  const NumSteps: nat := 20

  /** The pipeline: prompt, negative prompt, conditioning image, seed, steps. */
  type Pipe<Pic> = (string, string, Raster<int>, int, nat) -> Pic

  /** What a round hands back: the candidates, then the overlay, then the state itself. */
  datatype Output<Pic> = Candidate(image: Pic) | Suggestion(overlay: Raster<real>) | States(table: array<Slot<Pic>>)

  /**
   * Render one candidate: fall back to the blank canvas, take the
   * luminance, binarise it and run the pipeline with the given seed.
   */
  function Sketch<Pic>(pipe: Pipe<Pic>, toGray: Raster<int> -> Gray, prompt: string, negative: string,
                       curr: Option<Raster<int>>, seed: int, steps: nat): (image: Pic)
    ensures curr.None? ==> image == pipe(prompt, negative, Binarize(toGray(Blank())), seed, steps)
    ensures curr.Some? ==> image == pipe(prompt, negative, Binarize(toGray(curr.value)), seed, steps)
  {
    pipe(prompt, negative, Binarize(toGray(OrBlank(curr))), seed, steps)
  }

  /** A missing sketch renders exactly as the blank canvas does. */
  lemma SketchBlankFallback<Pic>(pipe: Pipe<Pic>, toGray: Raster<int> -> Gray, prompt: string, negative: string,
                                 seed: int, steps: nat)
    ensures Sketch(pipe, toGray, prompt, negative, None, seed, steps)
         == Sketch(pipe, toGray, prompt, negative, Some(Blank()), seed, steps)
  {
  }

  /**
   * Only the thresholded luminance reaches the pipeline: two sketches whose
   * luminance images have one shape and agree everywhere on the side of the
   * threshold render the same candidate for the same seed.
   */
  lemma SketchSeesOnlyInk<Pic>(pipe: Pipe<Pic>, toGray: Raster<int> -> Gray, prompt: string, negative: string,
                               a: Option<Raster<int>>, b: Option<Raster<int>>, seed: int, steps: nat)
    requires var g, h := toGray(OrBlank(a)), toGray(OrBlank(b));
             && g.height == h.height && g.width == h.width && |g.samples| == |h.samples|
             && forall i :: 0 <= i < |g.samples| ==> (g.samples[i] > 128 <==> h.samples[i] > 128)
    ensures Sketch(pipe, toGray, prompt, negative, a, seed, steps)
         == Sketch(pipe, toGray, prompt, negative, b, seed, steps)
  {
    BinarizeSeesOnlyInk(toGray(OrBlank(a)), toGray(OrBlank(b)));
  }

  /** The candidates a round renders from one seed per slot, in slot order. */
  function Renders<Pic>(pipe: Pipe<Pic>, toGray: Raster<int> -> Gray, prompt: string, negative: string,
                        curr: Option<Raster<int>>, seeds: seq<int>): (images: seq<Pic>)
    ensures |images| == |seeds|
  {
    seq(|seeds|, k requires 0 <= k < |seeds| => Sketch(pipe, toGray, prompt, negative, curr, seeds[k], NumSteps))
  }

  /** The edge maps of the candidates, in candidate order. */
  function EdgeMaps<Pic>(hed: Pic -> Raster<int>, images: seq<Pic>): (maps: seq<Raster<int>>)
    ensures |maps| == |images|
    ensures forall k :: 0 <= k < |images| ==> maps[k] == hed(images[k])
  {
    seq(|images|, k requires 0 <= k < |images| => hed(images[k]))
  }

  class Session<Pic> {
    /** The slot table: one [image, seed] record per slot. */
    var slots: array<Slot<Pic>>

    ghost predicate Valid()
      reads this
    {
      slots.Length == NumImages
    }

    /** A new session starts with every slot [None, None]. */
    constructor ()
      ensures Valid() && fresh(slots)
      ensures slots[..] == EmptyTable(NumImages)
    {
      slots := new Slot<Pic>[NumImages](_ => Slot(None, None));
    }

    /**
     * The slot loop of a round. Slot k's seed is kept when it is truthy and
     * otherwise replaced by the next value of `draws`; the seed is written
     * back into the slot and candidate k is rendered with it.
     */
    method RenderSlots(prompt: string, negative: string, curr: Option<Raster<int>>, draws: seq<int>,
                       pipe: Pipe<Pic>, toGray: Raster<int> -> Gray)
      returns (rendered: seq<Pic>)
      requires Valid()
      requires Needed(slots[..]) <= |draws|
      requires forall i :: 0 <= i < |draws| ==> 0 <= draws[i] < SeedRange
      modifies slots
      ensures Valid()
      ensures slots[..] == ResolveTable(old(slots[..]), draws)
      ensures forall k :: 0 <= k < NumImages ==> slots[k].seed.Some?
      ensures forall k :: 0 <= k < NumImages && NeedsDraw(old(slots[k])) ==> 0 <= slots[k].seed.value < SeedRange
      ensures forall k :: 0 <= k < NumImages && !NeedsDraw(old(slots[k])) ==> slots[k] == old(slots[k])
      ensures rendered == Renders(pipe, toGray, prompt, negative, curr, SeedsOf(slots[..]))
    {
      ghost var before := slots[..];
      ghost var after := ResolveTable(before, draws);
      ghost var seeds := SeedsOf(after);
      rendered := [];
      var cursor := 0;
      for k := 0 to NumImages
        invariant cursor == Needed(before[..k])
        invariant forall i :: 0 <= i < k ==> slots[i] == after[i]
        invariant forall i :: k <= i < NumImages ==> slots[i] == old(slots[i])
        invariant |rendered| == k
        invariant forall i :: 0 <= i < k ==> rendered[i] == Sketch(pipe, toGray, prompt, negative, curr, seeds[i], NumSteps)
      {
        var slot := slots[k];
        ResolveSlot(before, draws, k, cursor);
        var seed: int;
        if NeedsDraw(slot) {
          seed := draws[cursor];
          cursor := cursor + 1;
        } else {
          seed := slot.seed.value;
        }
        slots[k] := slot.(seed := Some(seed));
        var image := Sketch(pipe, toGray, prompt, negative, curr, seed, NumSteps);
        assert seeds[k] == seed;
        rendered := rendered + [image];
      }
      assert slots[..] == after;
      forall k | 0 <= k < NumImages && NeedsDraw(before[k])
        ensures 0 <= after[k].seed.value < SeedRange
      {
        FreshSeedInRange(before, draws, k);
      }
    }

    /**
     * One round: the slot loop, then the overlay from the candidates' edge
     * maps, then the bundle of candidates, overlay and state. None stands
     * for the elementwise arithmetic failing (no common shape); the seeds
     * are assigned by then.
     */
    method RunRound(prompt: string, negative: string, curr: Option<Raster<int>>, draws: seq<int>,
                    pipe: Pipe<Pic>, toGray: Raster<int> -> Gray, hed: Pic -> Raster<int>)
      returns (result: Option<seq<Output<Pic>>>)
      requires Valid()
      requires Needed(slots[..]) <= |draws|
      requires forall i :: 0 <= i < |draws| ==> 0 <= draws[i] < SeedRange
      modifies slots
      ensures Valid()
      ensures slots[..] == ResolveTable(old(slots[..]), draws)
      ensures forall k :: 0 <= k < NumImages ==> slots[k].seed.Some?
      ensures forall k :: 0 <= k < NumImages && NeedsDraw(old(slots[k])) ==> 0 <= slots[k].seed.value < SeedRange
      ensures forall k :: 0 <= k < NumImages && !NeedsDraw(old(slots[k])) ==> slots[k] == old(slots[k])
      ensures var images := Renders(pipe, toGray, prompt, negative, curr, SeedsOf(slots[..]));
              var overlay := Overlay(OrBlank(curr), EdgeMaps(hed, images));
              && (result.Some? <==> overlay.Some?)
              && (result.Some? ==>
                    && |result.value| == NumImages + 2
                    && (forall k :: 0 <= k < NumImages ==>
                          result.value[k] == Candidate(Sketch(pipe, toGray, prompt, negative, curr, slots[k].seed.value, NumSteps)))
                    && result.value[NumImages] == Suggestion(overlay.value)
                    && result.value[NumImages + 1] == States(slots))
    {
      var rendered := RenderSlots(prompt, negative, curr, draws, pipe, toGray);
      var overlay := Overlay(OrBlank(curr), EdgeMaps(hed, rendered));
      if overlay.None? {
        return None;
      }
      var candidates := seq(|rendered|, k requires 0 <= k < |rendered| => Candidate(rendered[k]));
      var outputs := candidates + [Suggestion(overlay.value), States(slots)];
      ghost var seeds := SeedsOf(slots[..]);
      forall k | 0 <= k < NumImages
        ensures outputs[k] == Candidate(Sketch(pipe, toGray, prompt, negative, curr, slots[k].seed.value, NumSteps))
      {
        assert outputs[k] == candidates[k];
        assert slots[..][k] == slots[k];
      }
      result := Some(outputs);
    }

    /**
     * Reset: the session gets a freshly built table of [None, None] slots
     * and the canvas goes back to blank. The previous table is not touched,
     * and nothing of the old state reaches the new one.
     */
    method Reset() returns (canvas: Raster<int>)
      modifies this
      ensures Valid() && fresh(slots)
      ensures slots[..] == EmptyTable(NumImages)
      ensures canvas == Blank()
      ensures old(slots)[..] == old(slots[..])
    {
      slots := new Slot<Pic>[NumImages](_ => Slot(None, None));
      canvas := Blank();
    }
  }

  /**
   * A client of the session: a fresh session takes its three seeds from
   * the random source in slot order, a second round draws nothing and keeps
   * them, and a reset clears them again.
   */
  method ReproducibleRegenerate<Pic>(pipe: Pipe<Pic>, toGray: Raster<int> -> Gray, hed: Pic -> Raster<int>)
  {
    var session := new Session<Pic>();
    FreshTableDrawsAll<Pic>(NumImages, [7, 42, 99]);
    var first := session.RunRound("a tree", "", None, [7, 42, 99], pipe, toGray, hed);
    var settled := session.slots[..];
    assert settled == [Slot(None, Some(7)), Slot(None, Some(42)), Slot(None, Some(99))];
    SettledTableUnchanged(settled, []);
    var second := session.RunRound("a tree", "", None, [], pipe, toGray, hed);
    assert session.slots[..] == settled;
    var canvas := session.Reset();
    assert canvas == Blank() && session.slots[..] == EmptyTable(NumImages);
  }
}
