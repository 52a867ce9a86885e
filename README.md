# Sketch-a-Sketch round controller, modelled in Dafny

Sketch-a-Sketch turns a freehand sketch into several AI-rendered candidates.
It then shows the averaged edge map of those candidates as a drawing guide.
This project models the stateful core of `app.py`:

- the **slot table**: `num_images` = 3 records `[image, seed]`, kept across rounds;
- the **round controller** `run_sketching`: for each slot in order it resolves
  `seed = stored or randint(1000)`, writes the seed back into the slot, and
  renders one candidate with it. It then builds the suggestion overlay and
  returns candidates + overlay + state;
- **`reset`**: a fresh table of `[None, None]` slots and a blank 512×512×3 canvas;
- the pixel helpers: the blank-canvas fallback, the conditioning threshold
  `256 if p > 128 else 0`, and the overlay formula
  `(0.0*sketch + 1 − avg/255) * 255`.

Modules, one file each:

- `Wrappers` (`wrappers.dfy`): `Option`, standing for Python's `None`.
- `Canvas` (`canvas.dfy`): rasters, the blank canvas, the fallback, the
  threshold and the binarised conditioning image.
- `Aggregation` (`aggregation.dfy`): the mean of the edge maps and the overlay.
  Arithmetic here is exact (`real`).
- `Seeds` (`seeds.dfy`): the slot record, Python truthiness of a seed
  (`NeedsDraw`), and the specification function `ResolveTable`. It gives the
  table after one round, together with its lemmas.
- `Sketching` (`sketching.dfy`): the render call `Sketch` and the class
  `Session`. The class holds the slot table as an `array` that a round updates
  in place; its methods are the constructor, `RenderSlots`, `RunRound` and `Reset`.

External collaborators are parameters, so a round is a deterministic function
of what it is given:

- `pipe`: the diffusion pipeline, called with prompt, negative prompt,
  conditioning image, seed and step count;
- `toGray`: the luminance conversion;
- `hed`: the edge detector;
- `draws`: the values successive `np.random.randint(1000)` calls return, in order.

Draws are consumed lazily: only a slot whose stored seed is falsy takes one,
exactly as Python's `or` evaluates its right operand only then.

Places where the code does something other than what a reader would expect.
The model follows the code:

- **A seed of 0 is not stable.** A stored seed is kept so that a slot
  re-renders with the same seed until a reset. But `stored or randint(1000)`
  treats a stored 0 as false, so a slot whose seed is 0 is redrawn every round.
  `Seeds.ZeroSeedNotStable` states this for every table, slot and random
  source. `Seeds.SecondRoundReusesSeeds` gives a sufficient condition for a
  second round to reuse every seed: the random source yields no 0.
  `Seeds.ReusedExactlyWhenDrawsNonZero` gives the exact condition: none of the
  draws the round actually took is 0.
- **The threshold.** The lookup `256 if p > 128 else 0` maps every luminance
  above 128 to 256, one more than the largest 8-bit intensity. It maps every
  luminance up to and including 128 to 0.
- **The generator's inputs.** The generator sees the seed, not the slot index:
  `sketch()` is called with prompt, negative prompt, sketch, seed and 20 steps.
  So candidate k is stated to be the pipeline applied to slot k's seed.
- **The slot count.** `reset` takes no slot count. The count is the constant
  `num_images` = 3.

## Model

| member | source | states |
|---|---|---|
| `Canvas.Blank` | app.py:79 | the blank canvas is 512 × 512 × 3 and every sample is 255 |
| `Canvas.OrBlank` | app.py:38 | a missing sketch becomes the blank canvas and a present one is used unchanged; the result is well-formed whenever the input is |
| `Canvas.Threshold` | app.py:47 | the lookup yields 0 or 256, and 256 exactly when p > 128 (so 128 maps to 0) |
| `Canvas.ThresholdMonotone` | app.py:47 | the lookup is monotone in p |
| `Canvas.Binarize` | app.py:43-47 | the conditioning image has the luminance image's height and width, 3 channels, three samples per luminance sample, and only the values 0 and 256 |
| `Canvas.BinarizePixel` | app.py:47 | every channel of pixel p in the conditioning image is the lookup of p's luminance |
| `Canvas.BinarizeSeesOnlyInk` | app.py:47 | two luminance images of one shape that agree everywhere on the side of 128 each sample falls give the same conditioning image |
| `Aggregation.Mean` | app.py:71 | the sample-wise mean over the edge maps: the mean times the number of maps is the sum of their samples |
| `Aggregation.MeanBounds` | app.py:71 | the mean of 8-bit edge samples lies in [0, 255] |
| `Aggregation.MeanOfAgreeing` | app.py:71 | where all edge maps agree on a value v, their mean is v |
| `Aggregation.OverlaySample` | app.py:72-73 | an overlay sample equals 255 minus the averaged edge value, whatever the sketch sample is (its weight is 0.0) |
| `Aggregation.Overlay` | app.py:70-73 | the overlay exists exactly when the sketch and the non-empty edge maps share one shape; it then has that shape, and each sample is 255 minus the sample-wise mean of the edge maps |
| `Aggregation.OverlayInRange` | app.py:71-73 | for edge maps with samples in [0, 255], every overlay sample lies in [0, 255] |
| `Aggregation.OverlayIgnoresSketch` | app.py:72-73 | two sketches of the same shape give the same overlay: the sketch's samples never matter |
| `Seeds.NeedsDraw` | app.py:62 | a slot draws a fresh seed exactly when its stored seed is one of the two falsy values, None and 0 |
| `Seeds.Needed` | app.py:62 | the number of fresh draws a round consumes is at most the number of slots, and 0 when every stored seed is truthy |
| `Seeds.ResolveTable` | app.py:61-63 | a round keeps the slot count, never changes a slot's image field, leaves every slot with a seed, and leaves each truthy-seeded slot exactly as it was |
| `Seeds.ResolvedDraw` | app.py:62 | a slot whose stored seed is None or 0 gets the next unused draw, namely draw number (falsy slots before it), and nothing else about the slot changes |
| `Seeds.FreshSeedInRange` | app.py:62 | a slot whose stored seed is None or 0 receives a seed in [0, 1000) |
| `Seeds.ZeroSeedNotStable` | app.py:62 | for every table, slot and random source: a slot whose stored seed is 0 is not kept but takes the next unused draw, namely draw number (falsy slots before it) |
| `Seeds.SettledTableUnchanged` | app.py:61-63 | a table whose every seed is truthy draws nothing and comes out of a round unchanged |
| `Seeds.SecondRoundReusesSeeds` | app.py:61-63 | a sufficient condition: if the random source yields no 0, a second round draws nothing and reproduces the first round's table exactly |
| `Seeds.ReusedExactlyWhenDrawsNonZero` | app.py:61-63 | after a round every slot holds a truthy seed (so the next round reuses them all) if and only if every draw the round actually took is nonzero |
| `Seeds.EmptyTable` | app.py:78 | the reset table has n slots, each [None, None] |
| `Seeds.FreshTableDrawsAll` | app.py:78 | a round over a reset table draws for every slot, and slot k gets the k-th draw |
| `Sketching.Sketch` | app.py:36-54 | a render runs the pipeline on prompt, negative prompt, `Binarize(toGray(sketch))`, the seed and the step count, where the sketch is the blank canvas when none is given and the given one otherwise |
| `Sketching.SketchBlankFallback` | app.py:38 | rendering with no sketch is the same as rendering the blank canvas |
| `Sketching.SketchSeesOnlyInk` | app.py:43-47 | only the thresholded luminance reaches the pipeline: two sketches whose luminance images have one shape and put every sample on the same side of 128 render the same candidate for the same seed and prompts |
| `Sketching.EdgeMaps` | app.py:70 | one edge map per candidate, in candidate order, each the edge detector applied to that candidate |
| `Sketching.Session.constructor` | app.py:84 | a new session holds 3 slots, each [None, None] |
| `Sketching.Session.RenderSlots` | app.py:61-66 | the slot loop updates the same array in place to the table `ResolveTable` gives; every slot gets a seed; fresh seeds lie in [0, 1000); truthy-seeded slots are untouched; candidate k is rendered with slot k's seed, one per slot, in slot order |
| `Sketching.Session.RunRound` | app.py:56-75 | besides the slot-loop facts, the result is the 3 candidates, then the overlay of their edge maps against the (blank-if-missing) sketch, then the state itself, for length 3 + 2; it is absent only when the overlay arithmetic is undefined |
| `Sketching.Session.Reset` | app.py:77-79 | the session gets a newly allocated table of 3 [None, None] slots and the canvas becomes blank; the old table is left untouched, and the result does not depend on the prior state |

## Left out

- Model loading, device selection, safety checker and scheduler setup
  (app.py:14-30): these initialise foreign libraries.
- The diffusion pipeline and `torch.Generator` seeding (app.py:40-52): an opaque
  external model. It is the function parameter `pipe`, so two renders with equal
  inputs are equal, and nothing more is claimed.
- The HED edge detector (app.py:70): a foreign model. It is the parameter `hed`,
  which returns integer rasters.
- PIL and NumPy conversions: `Image.fromarray`, the `uint8` casts, and
  `.convert('L')`. The conversion to luminance is the parameter `toGray`; it is
  not constrained to keep the sketch's height and width. The
  L-to-RGB copy of the luminance into three channels is modelled; any clamping
  PIL applies to the lookup value 256 is not.
- `np.random.randint(1000)` (app.py:62): replaced by the sequence `draws`, each
  value in [0, 1000). Randomness itself, and the chance of two slots getting
  equal seeds, are not modelled.
- Floating point: the overlay is computed over exact reals. The final `np.uint8`
  truncation (app.py:73) is not modelled.
- NumPy broadcasting and errors: when the sketch and the edge maps do not share
  one shape, or there are no edge maps, `Aggregation.Overlay` gives `None` and
  the round gives `None`. NumPy would either broadcast or raise for those inputs.
  With 3 candidates the list of edge maps is never empty.
- Gradio: the UI layout, the `gr.State` plumbing, the `['composite']` extraction
  (app.py:59) and `demo.launch` (app.py:83-120). The sketch arrives as an
  optional raster.
- Exceptions from the collaborators: the model's collaborators are total
  functions, so a failing pipeline call, and the partly assigned seeds it would
  leave behind, are not modelled.
