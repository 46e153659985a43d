/** `MixImages.execute`: the image bound to `ref` (the noised one) is replaced by a blend of
    itself with the image named by `<original>`. Each pixel takes the share `min(1, 4·gray²)`
    of the noised image and the rest of the original, where gray is computed from the
    original's samples; dark pixels (gray near 0) therefore keep the original. */
module MixImages {
  import opened Grids
  import opened Images
  import opened Outcomes
  import opened Commands

  /** The messages of the command (after its name). */
  const NO_REF := ": ref is required"
  const NO_REF_IMAGE := ", <apply-mix>: cannot find ref image "
  const NO_ORIGINAL_IMAGE := ", <apply-mix>: cannot find original image "
  const SIZE_MISMATCH := ": requires both images to have the same size"

  // ---------------------------------------------------------------------------
  // The blend.

  /** The gray level of an original pixel as `mixImages` computes it: layer 0 plus layer 2
      twice, over 3 (layer 1 does not take part). */
  function Gray(p: seq<real>): real
    requires |p| == DEPTH
  {
    (p[0] + p[2] + p[2]) / 3.0
  }

  /** `4·gray²` capped at 1: the share of the noised image. */
  function Ratio(gray: real): (k: real)
    ensures 0.0 <= k <= 1.0
    ensures k == 1.0 <==> 1.0 <= 4.0 * gray * gray
    ensures gray == 0.0 ==> k == 0.0
  {
    var k := 4.0 * gray * gray;
    if k > 1.0 then 1.0 else k
  }

  /** The share grows with the distance of the gray level from 0. */
  lemma RatioMonotone(g0: real, g1: real)
    requires 0.0 <= g0 <= g1 || g1 <= g0 <= 0.0
    ensures Ratio(g0) <= Ratio(g1)
  {
    assert g0 * g0 <= g1 * g1 by {
      if 0.0 <= g0 {
        assert g0 * g0 <= g0 * g1 <= g1 * g1;
      } else {
        assert g0 * g0 <= g0 * g1 <= g1 * g1;
      }
    }
  }

  /** `ratio·noised + (1 - ratio)·original`. */
  function Blend(k: real, noised: real, original: real): real {
    k * noised + (1.0 - k) * original
  }

  /** A blend with a share in [0, 1] lies between its two samples. */
  lemma BlendBetween(k: real, noised: real, original: real)
    requires 0.0 <= k <= 1.0
    ensures noised <= original ==> noised <= Blend(k, noised, original) <= original
    ensures original <= noised ==> original <= Blend(k, noised, original) <= noised
  {
    var d := noised - original;
    assert Blend(k, noised, original) == original + k * d;
    ShareOf(k, d);
  }

  /** A share in [0, 1] of d lies between 0 and d. */
  lemma ShareOf(k: real, d: real)
    requires 0.0 <= k <= 1.0
    ensures d <= 0.0 ==> d <= k * d <= 0.0
    ensures 0.0 <= d ==> 0.0 <= k * d <= d
  {
    if d <= 0.0 {
      NonNegProduct(1.0 - k, -d);
      NonNegProduct(k, -d);
    } else {
      NonNegProduct(1.0 - k, d);
      NonNegProduct(k, d);
    }
  }

  lemma NonNegProduct(a: real, b: real)
    requires 0.0 <= a && 0.0 <= b
    ensures 0.0 <= a * b
  {
  }

  /** The mixed samples: every sample of pixel (x, y) blends the two images with the share
      given by the original's gray level at (x, y). */
  function Mixed(original: Raster, noised: Raster, w: int, h: int): (s: Raster)
    requires IsImage(original, w, h) && IsImage(noised, w, h)
    ensures IsImage(s, w, h)
    ensures forall x, y, l :: 0 <= x < w && 0 <= y < h && 0 <= l < DEPTH ==>
      s[x][y][l] == Blend(Ratio(Gray(original[x][y])), noised[x][y][l], original[x][y][l])
  {
    seq(w, x requires 0 <= x < w => seq(h, y requires 0 <= y < h => seq(DEPTH, l requires 0 <= l < DEPTH =>
      Blend(Ratio(Gray(original[x][y])), noised[x][y][l], original[x][y][l]))))
  }

  /** Every mixed sample lies between the original's and the noised image's. */
  lemma MixedBetween(original: Raster, noised: Raster, w: int, h: int, x: int, y: int, l: int)
    requires IsImage(original, w, h) && IsImage(noised, w, h)
    requires 0 <= x < w && 0 <= y < h && 0 <= l < DEPTH
    ensures var v := Mixed(original, noised, w, h)[x][y][l];
      (original[x][y][l] <= v <= noised[x][y][l]) || (noised[x][y][l] <= v <= original[x][y][l])
  {
    BlendBetween(Ratio(Gray(original[x][y])), noised[x][y][l], original[x][y][l]);
  }

  /** A pixel whose gray level is 0 keeps the original. */
  lemma DarkKeepsOriginal(original: Raster, noised: Raster, w: int, h: int, x: int, y: int)
    requires IsImage(original, w, h) && IsImage(noised, w, h)
    requires 0 <= x < w && 0 <= y < h && Gray(original[x][y]) == 0.0
    ensures Mixed(original, noised, w, h)[x][y] == original[x][y]
  {
    var s := Mixed(original, noised, w, h);
    assert forall l :: 0 <= l < DEPTH ==> s[x][y][l] == original[x][y][l];
  }

  /** A pixel whose gray level is at least 1/2 away from 0 takes the noised image. */
  lemma BrightTakesNoised(original: Raster, noised: Raster, w: int, h: int, x: int, y: int)
    requires IsImage(original, w, h) && IsImage(noised, w, h)
    requires 0 <= x < w && 0 <= y < h
    requires Gray(original[x][y]) <= -0.5 || 0.5 <= Gray(original[x][y])
    ensures Mixed(original, noised, w, h)[x][y] == noised[x][y]
  {
    var s := Mixed(original, noised, w, h);
    var g := Gray(original[x][y]);
    if 0.5 <= g {
      RatioMonotone(0.5, g);
    } else {
      RatioMonotone(-0.5, g);
    }
    assert forall l :: 0 <= l < DEPTH ==> s[x][y][l] == noised[x][y][l];
  }

  /** Mixing an image with itself gives it back. */
  lemma MixSelf(r: Raster, w: int, h: int)
    requires IsImage(r, w, h)
    ensures Mixed(r, r, w, h) == r
  {
    var s := Mixed(r, r, w, h);
    forall x, y, l | 0 <= x < w && 0 <= y < h && 0 <= l < DEPTH ensures s[x][y][l] == r[x][y][l] {
      BlendBetween(Ratio(Gray(r[x][y])), r[x][y][l], r[x][y][l]);
    }
    RasterExt(s, r, w, h, DEPTH);
  }

  // ---------------------------------------------------------------------------
  // The loops.

  /** The y and layer loops for column x, writing into a, the result's samples. Every read is
      in bounds, where `get` reads the array's own sample. */
  method MixColumn(original: Image, noised: Image, a: array3<real>, x: int,
                   ghost ro: Raster, ghost rn: Raster, ghost b: Raster, ghost t: Raster)
    requires original.Valid() && noised.Valid() && Holds(original.pixel, ro) && Holds(noised.pixel, rn)
    requires noised.width == original.width && noised.height == original.height
    requires a != original.pixel && a != noised.pixel
    requires a.Length0 == original.width && a.Length1 == original.height && a.Length2 == DEPTH
    requires 0 <= x < original.width
    requires IsImage(b, original.width, original.height) && t == Mixed(ro, rn, original.width, original.height)
    requires Progress3(a, b, t, x, 0, 0)
    modifies a
    ensures Progress3(a, b, t, x, a.Length1, 0)
  {
    for y := 0 to original.height
      invariant Progress3(a, b, t, x, y, 0)
    {
      var gray := (original.pixel[x, y, 0] + original.pixel[x, y, 2] + original.pixel[x, y, 2]) / 3.0;
      var ratio := 4.0 * gray * gray;
      if ratio > 1.0 {
        ratio := 1.0;
      }
      assert gray == Gray(ro[x][y]) && ratio == Ratio(gray);
      for l := 0 to DEPTH
        invariant Progress3(a, b, t, x, y, l)
      {
        var v := ratio * noised.pixel[x, y, l] + (1.0 - ratio) * original.pixel[x, y, l];
        Put3(a, b, t, x, y, l, v);
      }
      NextPixel3(a, b, t, x, y);
    }
  }

  /** `mixImages(original, noised)`: images of different sizes are refused; otherwise a new
      image (weights 0) holds the mix. */
  method Mix(original: Image, noised: Image) returns (r: Result<Image>)
    requires original.Valid() && noised.Valid()
    ensures r.Err? <==> original.width != noised.width || original.height != noised.height
    ensures r.Err? ==> r.error == IllegalArgument(SIZE_MISMATCH)
    ensures r.Ok? ==>
      var res := r.value;
      fresh(res) && fresh(res.pixel) && res.Valid() && res.WeightsMatch() &&
      res.width == original.width && res.height == original.height &&
      (forall x, y :: 0 <= x < res.width && 0 <= y < res.height ==> res.weight[x, y] == 0.0) &&
      res.Pixels() == Mixed(original.Pixels(), noised.Pixels(), res.width, res.height)
  {
    if original.width != noised.width || original.height != noised.height {
      return Err(IllegalArgument(SIZE_MISMATCH));
    }
    var res := new Image(original.width, original.height);
    ghost var ro, rn, b := original.Pixels(), noised.Pixels(), res.Pixels();
    ghost var t := Mixed(ro, rn, original.width, original.height);
    assert Holds(original.pixel, ro) && Holds(noised.pixel, rn);
    var px, wt := res.pixel, res.weight;
    label Built:
    for x := 0 to res.width
      invariant unchanged@Built(res, wt) && fresh(px)
      invariant Progress3(px, b, t, x, 0, 0)
    {
      MixColumn(original, noised, px, x, ro, rn, b, t);
      NextColumn3(px, b, t, x);
    }
    Progress3Done(px, b, t);
    return Ok(res);
  }

  // ---------------------------------------------------------------------------
  // The command.

  /** `execute(task)`. In order: a missing `ref`, a missing `<original>`, an unknown ref
      image, an unknown original image and a size mismatch fail with
      `IllegalArgumentException`; otherwise the mix replaces the ref image's binding and every
      other binding is kept. */
  method Execute(task: Task, images: map<string, Image>, preprocess: string -> string)
    returns (r: Result<map<string, Image>>)
    requires forall n :: n in images ==> images[n].Valid()
    ensures task.ref.None? ==> r == Err(IllegalArgument(NO_REF))
    ensures task.ref.Some? ==>
      var refName := preprocess(task.ref.value);
      match Parameter(task.children, "original", preprocess)
      case Err(e) => r == Err(e)
      case Ok(cleanName) =>
        if refName !in images then r == Err(IllegalArgument(NO_REF_IMAGE + refName))
        else if cleanName !in images then r == Err(IllegalArgument(NO_ORIGINAL_IMAGE + cleanName))
        else
          var noised, original := images[refName], images[cleanName];
          if original.width != noised.width || original.height != noised.height then
            r == Err(IllegalArgument(SIZE_MISMATCH))
          else
            r.Ok? && refName in r.value && r.value == images[refName := r.value[refName]] &&
            var res := r.value[refName];
            fresh(res) && fresh(res.pixel) && res.Valid() &&
            res.width == original.width && res.height == original.height &&
            res.Pixels() == Mixed(original.Pixels(), noised.Pixels(), res.width, res.height)
  {
    if task.ref.None? {
      return Err(IllegalArgument(NO_REF));
    }
    var clean := Parameter(task.children, "original", preprocess);
    if clean.Err? {
      return Err(clean.error);
    }
    var cleanName := clean.value;
    var refName := preprocess(task.ref.value);
    if refName !in images {
      return Err(IllegalArgument(NO_REF_IMAGE + refName));
    }
    if cleanName !in images {
      return Err(IllegalArgument(NO_ORIGINAL_IMAGE + cleanName));
    }
    var mixed := Mix(images[cleanName], images[refName]);
    if mixed.Err? {
      return Err(mixed.error);
    }
    r := Ok(images[refName := mixed.value]);
  }
}
