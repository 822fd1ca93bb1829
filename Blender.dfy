/** `main` of image_blender.py with its I/O replaced by parameters: the two
    directory listings are given as name sequences, and `Image.open` of a file
    of either directory as a function from its name to the image's size. */
module Blender {
  import opened Grid
  import opened Transition
  import opened Selection

  /** The default `steps` of `image_transition`, which `main` relies on. */
  const DefaultSteps: nat := 10

  /** What `main` hands to the GIF encoder, or that it stopped early. */
  datatype Outcome =
    | Aborted
    | Animation(composite1: Layout, composite2: Layout, frames: seq<Frame<Layout>>)

  /** The images opened from the selected names, in order. */
  function OpenAll(names: seq<string>, open: string -> Size): (images: seq<Size>)
    ensures |images| == |names|
    ensures forall i :: 0 <= i < |names| ==> images[i] == open(names[i])
  {
    seq(|names|, i requires 0 <= i < |names| => open(names[i]))
  }

  /** Selects and sorts the image names of both listings, aborts unless the
      two collections are equally large and non-empty, and otherwise lays out
      each collection and builds the transition between the two canvases. */
  method BlendDirectories(listing1: seq<string>, listing2: seq<string>, open1: string -> Size, open2: string -> Size)
      returns (out: Outcome)
    ensures var names1, names2 := ImageFileNames(listing1), ImageFileNames(listing2);
            out.Aborted? <==> MustAbort(|names1|, |names2|)
    ensures out.Animation? ==>
              var images1 := OpenAll(ImageFileNames(listing1), open1);
              var images2 := OpenAll(ImageFileNames(listing2), open2);
              |images1| == |images2| > 0 &&
              out.composite1 == Composite(images1) && out.composite2 == Composite(images2) &&
              out.frames == Schedule(out.composite1, out.composite2, DefaultSteps) &&
              |out.frames| == 4 * DefaultSteps + 2
  {
    var imageFilenames1 := ImageFileNames(listing1);
    var imageFilenames2 := ImageFileNames(listing2);

    var images1 := OpenAll(imageFilenames1, open1);
    var images2 := OpenAll(imageFilenames2, open2);

    if |images1| != |images2| || |images1| == 0 {
      return Aborted;
    }

    var concatenated1 := SquareLikeConcatenation(images1);
    var concatenated2 := SquareLikeConcatenation(images2);

    var allFrames := ImageTransition(concatenated1, concatenated2, DefaultSteps);
    out := Animation(concatenated1, concatenated2, allFrames);
  }
}
