/** Frame schedule of `image_transition` (image_blender.py). `Image.blend` is
    left uninterpreted: a frame is the description of the blend call that
    produced it, with alpha written as the fraction numerator / denominator. */
module Transition {

  datatype Frame<I> = Blend(first: I, second: I, numerator: nat, denominator: nat)

  datatype Option<T> = None | Some(value: T)

  /** The blend weight of a frame: 0 selects `first`, 1 selects `second`. */
  ghost function Alpha<I>(f: Frame<I>): real
    requires f.denominator > 0
  {
    f.numerator as real / f.denominator as real
  }

  /** The image a frame reproduces unchanged, if any: PIL's blend returns
      its first image at alpha 0 and its second at alpha 1. */
  function Shown<I>(f: Frame<I>): Option<I>
  {
    if f.numerator == 0 then Some(f.first)
    else if f.numerator == f.denominator then Some(f.second)
    else None
  }

  /** `steps` copies of one blend: a hold on an endpoint. */
  function Hold<I>(a: I, b: I, numerator: nat, steps: nat): (s: seq<Frame<I>>)
    ensures |s| == steps
  {
    seq(steps, _ => Blend(a, b, numerator, steps))
  }

  /** Blends from a towards b at alpha 0/steps, 1/steps, ..., steps/steps. */
  function Fade<I>(a: I, b: I, steps: nat): (s: seq<Frame<I>>)
    ensures |s| == steps + 1
  {
    seq(steps + 1, i requires 0 <= i <= steps => Blend(a, b, i, steps))
  }

  /** Hold on img1, fade to img2, hold on img2, fade back from img2 to img1. */
  function Schedule<I>(img1: I, img2: I, steps: nat): (s: seq<Frame<I>>)
    ensures |s| == 4 * steps + 2
    ensures forall k :: 0 <= k < |s| ==> s[k].denominator == steps && s[k].numerator <= steps
  {
    Hold(img1, img2, 0, steps) + Fade(img1, img2, steps) +
    Hold(img1, img2, steps, steps) + Fade(img2, img1, steps)
  }

  /** The schedule has 4 * steps + 2 frames, in four blocks:
      [0, steps) hold at alpha 0; [steps, 2 * steps] the forward fade;
      (2 * steps, 3 * steps] hold at alpha 1; (3 * steps, 4 * steps + 1] the
      reverse fade with the two images swapped. */
  lemma ScheduleFrames<I>(img1: I, img2: I, steps: nat, k: nat)
    requires k < |Schedule(img1, img2, steps)|
    ensures |Schedule(img1, img2, steps)| == 4 * steps + 2
    ensures Schedule(img1, img2, steps)[k] ==
            if k < steps then Blend(img1, img2, 0, steps)
            else if k <= 2 * steps then Blend(img1, img2, k - steps, steps)
            else if k <= 3 * steps then Blend(img1, img2, steps, steps)
            else Blend(img2, img1, k - 3 * steps - 1, steps)
  {
    var hold1, fade, hold2, back :=
      Hold(img1, img2, 0, steps), Fade(img1, img2, steps),
      Hold(img1, img2, steps, steps), Fade(img2, img1, steps);
    var s := Schedule(img1, img2, steps);
    assert s == ((hold1 + fade) + hold2) + back;
    if k < steps {
      assert s[k] == hold1[k];
    } else if k <= 2 * steps {
      assert s[k] == fade[k - steps];
    } else if k <= 3 * steps {
      assert s[k] == hold2[k - 2 * steps - 1];
    } else {
      assert s[k] == back[k - 3 * steps - 1];
    }
  }

  /** Every frame blends at a weight k / steps within [0, 1]. */
  lemma AlphaInRange<I>(img1: I, img2: I, steps: nat, k: nat)
    requires steps > 0
    requires k < |Schedule(img1, img2, steps)|
    ensures Schedule(img1, img2, steps)[k].denominator == steps
    ensures 0.0 <= Alpha(Schedule(img1, img2, steps)[k]) <= 1.0
  {
    var f := Schedule(img1, img2, steps)[k];
    FractionInUnitRange(f.numerator as real, f.denominator as real);
  }

  lemma FractionInUnitRange(n: real, d: real)
    requires 0.0 <= n <= d && d > 0.0
    ensures 0.0 <= n / d <= 1.0
  {
    assert (n / d) * d == n;
  }

  /** Played in a loop, the animation is seamless: it starts on img1, shows
      img2 at the end of the forward fade, and ends on img1 again. */
  lemma SeamlessLoop<I>(img1: I, img2: I, steps: nat)
    requires steps > 0
    ensures var s := Schedule(img1, img2, steps);
            Shown(s[0]) == Some(img1) &&
            Shown(s[2 * steps]) == Some(img2) &&
            Shown(s[|s| - 1]) == Some(img1)
  {
    var s := Schedule(img1, img2, steps);
    ScheduleFrames(img1, img2, steps, 0);
    ScheduleFrames(img1, img2, steps, 2 * steps);
    ScheduleFrames(img1, img2, steps, |s| - 1);
  }

  /** The return fade is the forward fade with the two images' roles swapped,
      frame by frame. */
  lemma ReverseMirrorsForward<I>(img1: I, img2: I, steps: nat, i: nat)
    requires i <= steps
    ensures var s := Schedule(img1, img2, steps);
            s[3 * steps + 1 + i].first == s[steps + i].second &&
            s[3 * steps + 1 + i].second == s[steps + i].first &&
            s[3 * steps + 1 + i].numerator == s[steps + i].numerator
  {
    ScheduleFrames(img1, img2, steps, steps + i);
    ScheduleFrames(img1, img2, steps, 3 * steps + 1 + i);
  }

  /** Transitioning an image to itself shows that image in every frame that
      reproduces an image unchanged, and blends it only with itself. */
  lemma SameImage<I>(img: I, steps: nat, k: nat)
    requires k < |Schedule(img, img, steps)|
    ensures Schedule(img, img, steps)[k].first == img
    ensures Schedule(img, img, steps)[k].second == img
  {
    ScheduleFrames(img, img, steps, k);
  }

  /** Builds the frames as `image_transition` does, by appending in four
      loops. `steps` must be positive: the source divides by it. */
  method ImageTransition<I>(img1: I, img2: I, steps: nat) returns (frames: seq<Frame<I>>)
    requires steps > 0
    ensures frames == Schedule(img1, img2, steps)
    ensures |frames| == 4 * steps + 2
  {
    frames := [];

    var image1 := Blend(img1, img2, 0, steps);
    for i := 0 to steps
      invariant frames == Hold(img1, img2, 0, steps)[..i]
    {
      frames := frames + [image1];
    }

    ghost var done := frames;
    for step := 0 to steps + 1
      invariant frames == done + Fade(img1, img2, steps)[..step]
    {
      var blended := Blend(img1, img2, step, steps);
      frames := frames + [blended];
    }

    var image2 := Blend(img1, img2, steps, steps);
    done := frames;
    for i := 0 to steps
      invariant frames == done + Hold(img1, img2, steps, steps)[..i]
    {
      frames := frames + [image2];
    }

    done := frames;
    for step := 0 to steps + 1
      invariant frames == done + Fade(img2, img1, steps)[..step]
    {
      var blended := Blend(img2, img1, step, steps);
      frames := frames + [blended];
    }
  }
}
