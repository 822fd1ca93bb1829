# Image blender: grid layout and transition schedule

A Dafny model of `image_blender.py`. The program reads two directories of
images. It tiles each collection into one near-square canvas. It then builds a
looping hold / cross-fade / hold / fade-back animation between the two canvases.
Four modules follow the program's structure:

- `Grid` (Grid.dfy) models `square_like_concatenation`. The grid shape is
  `cols = ceil(sqrt(n))` and `rows = ceil(n / cols)`. Per-column maximum widths
  and per-row maximum heights are kept in arrays updated in place. The canvas is
  the sum of those maxima. A second loop walks running `x_offset`/`y_offset`
  values to get each image's paste offset. An image is reduced to its
  `Size(width, height)`. Pasting is reduced to the offset the image is pasted at.
- `Transition` (Transition.dfy) models `image_transition` as a method that
  appends frames in four loops. It is proved equal to the declarative
  `Schedule`. `Image.blend` is left uninterpreted: a frame is the descriptor
  `Blend(first, second, numerator, denominator)`, with alpha equal to
  numerator / denominator. The literal alphas 0 and 1 are written as
  `0/steps` and `steps/steps`.
- `Selection` (Selection.dfy) models the filename filter of `main`: a
  case-sensitive suffix match on `.png`, `.jpg` and `.jpeg`. It also models
  Python's `sorted` on strings (code-point lexicographic order) and the count
  guard.
- `Blender` (Blender.dfy) models `main`. The directory listings are given as
  name sequences. `Image.open` is a parameter that maps a name to an image size.
  The result is either `Aborted` or the two layouts plus the frame list handed
  to the GIF encoder.

Three facts about the code shape the model:

- With zero images, `ceil(num_images / num_cols)` at line 9 divides by zero.
  The model makes `|images| > 0` a precondition. `main` never calls the layout
  with zero images.
- The guard at line 72 checks only that the first collection is non-empty.
  Once the two counts are equal, this is the same as checking that either is
  empty (`Selection.MustAbort`).
- The two canvases are handed to `image_transition` at line 79 without comparing their sizes; `Image.blend` needs equal sizes.

## Model

| member | source | states |
|---|---|---|
| Grid.CeilSqrtFrom | image_blender.py:8 | the upward search stops at the least c with c*c >= n: c*c >= n and (c-1)*(c-1) < n |
| Grid.CeilSqrt | image_blender.py:8 | `ceil(sqrt(n))`: c*c >= n and (c-1)*(c-1) < n when c > 0 |
| Grid.CeilDiv | image_blender.py:9 | `ceil(a / d)`: q*d >= a and q*d < a + d |
| Grid.NumRows | image_blender.py:9 | reference definition of `num_rows`: `ceil(num_images / num_cols)` with `num_cols = ceil(sqrt(num_images))`; its bounds are proved in `GridShape` |
| Grid.ColsLeast | image_blender.py:8 | every d with d*d >= n is at least `num_cols`, so `num_cols` is the least such value |
| Grid.GridShape | image_blender.py:7-9 | for n >= 1 the grid has at least one row and column, rows*cols >= n, (rows-1)*cols < n, and rows is cols or cols-1 (near-square) |
| Grid.NearSquare | image_blender.py:8-9 | when c is the least value with c*c >= n and r = ceil(n / c), r is at least 1, (r-1)*c < n, and r is c or c-1 |
| Grid.RowBound | image_blender.py:16 | with at most rows*cols images, `idx // cols` is at most rows, and below rows for an index inside the grid |
| Grid.CellInGrid | image_blender.py:15-19 | every idx < n has row `idx // cols` < rows and column `idx % cols` < cols, so the array writes are in bounds |
| Grid.NextCell | image_blender.py:28-29 | moving to image idx+1 goes one column right in the same row, or wraps to column 0 of the next row exactly when `(idx + 1) % cols == 0` |
| Grid.LineMaxima | image_blender.py:12-19 | reference definition of `max_width_per_col` (`max_height_per_row`) after the first k images: entry g is `LineMax` of line g, so it is all zeros before the loop; `MeasureLines` keeps its arrays equal to it |
| Grid.Lines | image_blender.py:12-19 | reference definition of the two lists when the first loop ends: `LineMaxima` over all images, with `num_cols` (`num_rows`) entries |
| Grid.LineMaxStep | image_blender.py:18-19 | visiting image k raises the max of its own column (row) to the image's width (height) if larger, and changes no other entry |
| Grid.LineMaximaStep | image_blender.py:18-19 | the same step as an in-place update of the whole list of maxima |
| Grid.Cell | image_blender.py:16-17 | reference definition of an image's grid line: column `idx % num_cols`, row `idx // num_cols` (the same expressions recur at lines 28-29); `CellInGrid` proves both are in range |
| Grid.LineMax | image_blender.py:12-19 | the maximum kept for a column (row) after k images: 0 before any image (`[0] * num_cols`), and at least the extent of the latest image when that image is in the line |
| Grid.LineMaxUpper | image_blender.py:12-19 | every image of a column (row) is no wider (taller) than that column's (row's) kept maximum |
| Grid.LineMaxAttained | image_blender.py:12-19 | a kept maximum is 0 or the width (height) of some image of that column (row) |
| Grid.LineMaxMonotone | image_blender.py:12-19 | the maxima start at 0 and never decrease as more images are visited |
| Grid.Sum | image_blender.py:21-22 | `sum`, accumulated left to right: 0 for an empty list, and never below the last entry |
| Grid.Canvas | image_blender.py:21-23 | reference definition of the canvas size `(total_width, total_height)`: the sum of the column maxima by the sum of the row maxima; `InsideCanvas` proves every image fits |
| Grid.PrefixSumStep | image_blender.py:33 | adding column c's width to the sum of the widths left of c gives the sum of the widths up to and including c |
| Grid.PrefixSumMono | image_blender.py:21-22 | a prefix sum of widths (heights) never exceeds a longer prefix sum, nor the canvas total |
| Grid.WithinLine | image_blender.py:18-22 | an image starts at its line's offset and ends no later than the line's end, which is within the canvas |
| Grid.InsideCanvas | image_blender.py:21-23 | every image lies inside the canvas: x + width <= total_width and y + height <= total_height |
| Grid.SeparateCells | image_blender.py:26-36 | images in different columns (rows) occupy disjoint horizontal (vertical) ranges |
| Grid.NoOverlap | image_blender.py:26-36 | two different images are pasted onto disjoint rectangles |
| Grid.SingleImage | image_blender.py:5-38 | one image gives a 1x1 grid, a canvas of exactly that image's size, and a paste at (0, 0) |
| Grid.MeasureLines | image_blender.py:12-19 | the first loop leaves each column's entry at the column's maximum width and each row's entry at the row's maximum height |
| Grid.PasteOffsets | image_blender.py:26-36 | the running offsets paste image idx at the sum of the widths of the columns left of it and the sum of the heights of the rows above it |
| Grid.Origin | image_blender.py:26-36 | reference definition of where image idx of a collection is pasted: `CellCorner` over that collection's column widths and row heights; `InsideCanvas` and `NoOverlap` are stated about it |
| Grid.CellCorner | image_blender.py:26-36 | reference definition of where image idx is pasted: the sum of the widths of the columns left of its cell and of the heights of the rows above it. `PasteOffsets` is proved against it, and `InsideCanvas` shows it lies within the canvas |
| Grid.FirstCell | image_blender.py:26 | the offsets start at (0, 0), the corner of the first cell |
| Grid.MoveOffsets | image_blender.py:28-36 | from the corner of cell idx, adding the column's width, or after the last column resetting x to 0 and adding the row's height to y, gives the corner of cell idx+1 |
| Grid.Composite | image_blender.py:5-38 | reference definition of the whole layout as a value: grid shape, both lists of maxima, canvas and every image's paste offset; `SquareLikeConcatenation` is proved to return it |
| Grid.SquareLikeConcatenation | image_blender.py:5-38 | for n >= 1 images: cols and rows as above, the canvas is the sum of column maxima by the sum of row maxima, each image's offset is its cell's corner, and every image fits inside the canvas |
| Grid.Max | image_blender.py:18-19 | `max` is at least both arguments and equals one of them |
| Transition.Shown | image_blender.py:43-52 | reference definition of which image a frame reproduces unchanged: blending at alpha 0 gives the first image and at alpha 1 the second; `SeamlessLoop` is stated with it |
| Transition.Hold | image_blender.py:43-45 | reference definition of a hold block: `steps` copies of one blend (lines 43-45, and again at lines 52-54) |
| Transition.Fade | image_blender.py:47-50 | reference definition of a fade block: blends at alpha 0/steps, 1/steps, ..., steps/steps in that order (lines 47-50, and with the images swapped at lines 56-59) |
| Transition.Schedule | image_blender.py:40-61 | the schedule has 4*steps+2 frames, each blending at numerator at most steps over denominator steps |
| Transition.ScheduleFrames | image_blender.py:40-61 | exactly 4*steps+2 frames: [0, steps) blend(img1, img2, 0); [steps, 2*steps] blend(img1, img2, i/steps) for i = 0..steps; (2*steps, 3*steps] blend(img1, img2, 1); (3*steps, 4*steps+1] blend(img2, img1, i/steps) |
| Transition.AlphaInRange | image_blender.py:47-48 | every frame's alpha has denominator `steps` and lies in [0, 1] |
| Transition.SeamlessLoop | image_blender.py:40-61 | the first frame shows img1, frame 2*steps shows img2, and the last frame shows img1 again, so the looped animation is seamless |
| Transition.ReverseMirrorsForward | image_blender.py:47-59 | the return fade is the forward fade frame by frame with the two images swapped |
| Transition.SameImage | image_blender.py:40-61 | a transition from an image to itself blends only that image with itself |
| Transition.ImageTransition | image_blender.py:40-61 | the four append loops build exactly `Schedule(img1, img2, steps)`, of 4*steps+2 frames, for steps > 0 |
| Selection.EndsWith | image_blender.py:65 | case-sensitive `endswith`: the last characters of the name equal the suffix, one by one |
| Selection.IsImageName | image_blender.py:65 | `endswith` with the tuple (`.png`, `.jpg`, `.jpeg`) holds exactly when one of the three suffixes matches |
| Selection.FilterImageNames | image_blender.py:65 | the comprehension keeps exactly the names ending in `.png`, `.jpg` or `.jpeg`, each as often as it is listed |
| Selection.LexLeq | image_blender.py:65 | Python's string order: a <= b exactly when a is a prefix of b or a has the smaller code point at the first position where they differ |
| Selection.ShiftByHead | image_blender.py:65 | with equal first characters, prefix and first difference are decided by the rest of the strings |
| Selection.LexLeqTotal | image_blender.py:65 | Python's string order is total |
| Selection.LexLeqTransitive | image_blender.py:65 | Python's string order is transitive |
| Selection.LexLeqAntisymmetric | image_blender.py:65 | two strings each ordered before the other are equal |
| Selection.Sorted | image_blender.py:65 | reference definition of the order `sorted` returns: every earlier name is at most every later name in Python's string order |
| Selection.Insert | image_blender.py:65 | inserting into a sorted list keeps it sorted and adds exactly that one name |
| Selection.InsertFront | image_blender.py:65 | a name ordered before the head of a sorted list keeps it sorted when put in front |
| Selection.InsertBehind | image_blender.py:65 | a name after the head goes into the tail: the result is sorted and holds the list's names plus that one |
| Selection.Sort | image_blender.py:65 | `sorted` returns an ascending permutation of its input |
| Selection.HeadIsLeast | image_blender.py:65 | the first name of a sorted list is ordered before every name in it |
| Selection.SameHead | image_blender.py:65 | two sorted permutations of the same names start with the same name |
| Selection.SortedUnique | image_blender.py:65 | two sorted permutations of the same names are equal, so `Sort` agrees with any correct sort |
| Selection.ImageFileNames | image_blender.py:65-66 | the selected names are sorted, all are image names, and they are a permutation of the image names in the listing |
| Selection.MustAbort | image_blender.py:72 | the run is abandoned exactly when the counts differ or either collection is empty |
| Blender.OpenAll | image_blender.py:69-70 | one opened image per selected name, in the same order |
| Blender.BlendDirectories | image_blender.py:63-81 | aborts, with nothing laid out or blended, exactly when the counts differ or the first is empty; otherwise both collections are non-empty and equally large, each is laid out, and the frames are the 42-frame schedule (steps = 10) between the two layouts |

## Left out

- Pixels. Pixel data, `Image.new`'s zero fill, `Image.paste`'s pixel copy and `Image.blend`'s arithmetic (float alpha, rounding, clamping) are not modelled. An image is its size. A paste is its offset. A blend is a descriptor. `Transition.Shown` assumes only that blending at alpha 0 returns the first image and at alpha 1 the second.
- Floating point. `ceil(sqrt(n))` and `ceil(n / num_cols)` are computed on Python floats. They are modelled as exact integer ceilings. The two agree for every count below 2^52. The float `step / steps` is modelled as an exact fraction.
- Transition.ImageTransition: a negative `steps` is excluded by the `nat` type. In the source every `range` at lines 44, 47, 53 and 56 is then empty, no division runs, and the result is an empty list. `main` always passes 10.
- Errors on bad input. `square_like_concatenation` with zero images and `image_transition` with `steps = 0` raise `ZeroDivisionError`. Both are preconditions (`|images| > 0`, `steps > 0`) instead of modelled error paths. `main` meets both.
- I/O. `os.listdir` is replaced by the listing parameters. `Image.open` is replaced by a function parameter. The GIF written by `save(..., save_all=True, duration=100, loop=0)` and the `print` on abort are not modelled. `Blender.BlendDirectories` returns the frame list that would be saved.
- Canvas sizes. `main` never compares the two canvas sizes. PIL's `Image.blend` rejects images of different sizes. The model blends descriptors, so that failure is not represented.
- model.py and run.py. The PyTorch network and its inference script are not part of this model.
- Aliasing. The hold frames in the source are one shared image object appended `steps` times. The model has values, not objects, so each hold frame is an equal descriptor.
