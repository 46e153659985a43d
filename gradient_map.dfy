/** The gradient map of one image channel (`GradientMap`): the values of the channel, their
    forward differences, the edits that copy or scale gradients from another map, and the
    sequential reconstruction that brings the values back in line with the gradients. */
module Gradients {
  import opened Grids
  import opened Relaxation
  import opened Images
  import opened Outcomes

  /** `pasteValues` leaves a target pixel alone when all three of its samples are below this. */
  const PASTE_DARK: real := 0.1

  /** The gradient edits leave a cell alone when the guiding image is below this on all layers. */
  const EDIT_DARK: real := 0.025

  /** Every layer of the pixel is below the threshold. */
  predicate Dark(p: seq<real>, t: real)
    requires |p| == DEPTH
  {
    p[0] < t && p[1] < t && p[2] < t
  }

  function Abs(v: real): (r: real)
    ensures 0.0 <= r && (r == v || r == -v)
  {
    if v < 0.0 then -v else v
  }

  /** n, or 0 when n is negative: the trip count of a loop `for (i = 0; i < n; i++)`. */
  function Count(n: int): nat { if n < 0 then 0 else n }

  /** One past the last position a kernel relaxes on a line of n cells (positions 2 .. n-3),
      and 2 when there is none. */
  function Interior(n: int): (e: int)
    ensures 2 <= e
  {
    if n < 4 then 2 else n - 2
  }

  // ---------------------------------------------------------------------------
  // Construction and error.

  /** The map the constructor builds from layer `channel` of an image: the values are the
      channel (clamped as `Image.get` clamps), gx and gy the forward differences for
      x < w-1 and y < h-1, and 0 on the last column and the last row. */
  function FromChannel(r: Raster, w: int, h: int, channel: int): (f: Field)
    requires 0 <= w && 0 <= h && IsImage(r, w, h)
    ensures f.Valid() && f.width == w && f.height == h && Consistent(f)
    ensures forall x, y :: 0 <= x < w && 0 <= y < h ==> f.val[x][y] == r[x][y][Clamp(channel, 0, DEPTH - 1)]
    ensures forall x, y :: 0 <= x < w && 0 <= y < h && (x == w - 1 || y == h - 1) ==>
      f.gx[x][y] == 0.0 && f.gy[x][y] == 0.0
  {
    var v := Channel(r, w, h, channel);
    Field(w, h, v, DifferencesX(v, w, h), DifferencesY(v, w, h))
  }

  /** One layer of an image, read through `Image.get`'s clamping. */
  function Channel(r: Raster, w: int, h: int, channel: int): (v: Grid)
    requires 0 <= w && 0 <= h && IsImage(r, w, h)
    ensures IsGrid(v, w, h)
  {
    var c := Clamp(channel, 0, DEPTH - 1);
    seq(w, x requires 0 <= x < w => seq(h, y requires 0 <= y < h => r[x][y][c]))
  }

  /** `v[x+1][y] - v[x][y]` for x < w-1 and y < h-1, and 0 elsewhere. */
  function DifferencesX(v: Grid, w: int, h: int): (d: Grid)
    requires 0 <= w && 0 <= h && IsGrid(v, w, h)
    ensures IsGrid(d, w, h)
  {
    seq(w, x requires 0 <= x < w => seq(h, y requires 0 <= y < h =>
      if x < w - 1 && y < h - 1 then v[x + 1][y] - v[x][y] else 0.0))
  }

  /** `v[x][y+1] - v[x][y]` for x < w-1 and y < h-1, and 0 elsewhere. */
  function DifferencesY(v: Grid, w: int, h: int): (d: Grid)
    requires 0 <= w && 0 <= h && IsGrid(v, w, h)
    ensures IsGrid(d, w, h)
  {
    seq(w, x requires 0 <= x < w => seq(h, y requires 0 <= y < h =>
      if x < w - 1 && y < h - 1 then v[x][y + 1] - v[x][y] else 0.0))
  }

  /** The first loop of the constructor: a fresh array holding one channel of the image. */
  method ReadChannel(img: Image, channel: int) returns (v: array2<real>)
    requires img.Valid()
    ensures fresh(v) && v.Length0 == img.width && v.Length1 == img.height
    ensures Snapshot(v) == Channel(img.Pixels(), img.width, img.height, channel)
  {
    var w, h := img.width, img.height;
    ghost var c := Channel(img.Pixels(), w, h, channel);
    v := new real[w, h]((_, _) => 0.0);
    ghost var zero := Snapshot(v);
    for x := 0 to w
      invariant Progress2(v, zero, c, x, 0)
    {
      ReadChannelColumn(img, channel, v, x, zero, c);
    }
    Progress2Done(v, zero, c);
  }

  /** Column x of the constructor's first loop. */
  method ReadChannelColumn(img: Image, channel: int, v: array2<real>, x: int, ghost zero: Grid, ghost c: Grid)
    requires img.Valid() && v.Length0 == img.width && v.Length1 == img.height && 0 <= x < img.width
    requires c == Channel(img.Pixels(), img.width, img.height, channel) && IsGrid(zero, img.width, img.height)
    requires Progress2(v, zero, c, x, 0)
    modifies v
    ensures Progress2(v, zero, c, x + 1, 0)
  {
    for y := 0 to img.height
      invariant Progress2(v, zero, c, x, y)
    {
      Put2(v, zero, c, x, y, img.Get(channel, x, y));
    }
    NextColumn2(v, zero, c, x);
  }

  /** The second loop of the constructor: fresh arrays holding the forward differences. */
  method Differences(v: array2<real>) returns (a: array2<real>, b: array2<real>)
    ensures fresh(a) && fresh(b) && a != b
    ensures a.Length0 == b.Length0 == v.Length0 && a.Length1 == b.Length1 == v.Length1
    ensures Snapshot(a) == DifferencesX(Snapshot(v), v.Length0, v.Length1)
    ensures Snapshot(b) == DifferencesY(Snapshot(v), v.Length0, v.Length1)
  {
    var w, h := v.Length0, v.Length1;
    ghost var dx := DifferencesX(Snapshot(v), w, h);
    ghost var dy := DifferencesY(Snapshot(v), w, h);
    ghost var zero := seq(w, i => seq(h, j => 0.0));
    a := new real[w, h]((_, _) => 0.0);
    b := new real[w, h]((_, _) => 0.0);
    for x := 0 to Count(w - 1)
      invariant Progress2(a, zero, dx, x, 0) && Progress2(b, zero, dy, x, 0)
    {
      DifferencesColumn(v, a, b, x, zero, dx, dy);
    }
    if 0 < w {
      forall i, j | 0 <= i < w && 0 <= j < h ensures a[i, j] == dx[i][j] && b[i, j] == dy[i][j] {
      }
    }
    GridExt(Snapshot(a), dx, w, h);
    GridExt(Snapshot(b), dy, w, h);
  }

  /** One column of the second constructor loop: cells (x, y) for y < h-1. */
  method DifferencesColumn(v: array2<real>, a: array2<real>, b: array2<real>, x: int,
                           ghost zero: Grid, ghost dx: Grid, ghost dy: Grid)
    requires a != b && a != v && b != v
    requires a.Length0 == b.Length0 == v.Length0 && a.Length1 == b.Length1 == v.Length1
    requires 0 <= x < v.Length0 - 1
    requires IsGrid(zero, v.Length0, v.Length1) && forall i, j :: 0 <= i < v.Length0 && 0 <= j < v.Length1 ==> zero[i][j] == 0.0
    requires dx == DifferencesX(Snapshot(v), v.Length0, v.Length1)
    requires dy == DifferencesY(Snapshot(v), v.Length0, v.Length1)
    requires Progress2(a, zero, dx, x, 0) && Progress2(b, zero, dy, x, 0)
    modifies a, b
    ensures Progress2(a, zero, dx, x + 1, 0) && Progress2(b, zero, dy, x + 1, 0)
  {
    var h := v.Length1;
    for y := 0 to Count(h - 1)
      invariant Progress2(a, zero, dx, x, y) && Progress2(b, zero, dy, x, y)
    {
      Put2(a, zero, dx, x, y, v[x + 1, y] - v[x, y]);
      Put2(b, zero, dy, x, y, v[x, y + 1] - v[x, y]);
    }
    if 0 < h {
      Skip2(a, zero, dx, x, h - 1);
      Skip2(b, zero, dy, x, h - 1);
    }
    NextColumn2(a, zero, dx, x);
    NextColumn2(b, zero, dy, x);
  }

  /** How far cell (x, y) is from its gradients: `|gx - dx| + |gy - dy|`. */
  function Residual(f: Field, x: int, y: int): real
    requires f.Valid() && 0 <= x < f.width - 1 && 0 <= y < f.height - 1
  {
    Abs(f.gx[x][y] - (f.val[x + 1][y] - f.val[x][y])) + Abs(f.gy[x][y] - (f.val[x][y + 1] - f.val[x][y]))
  }

  /** The residuals of the cells `getError` visits, x < w-1 and y < h-1. */
  function Residuals(f: Field): (g: Grid)
    requires f.Valid()
    ensures IsGrid(g, Count(f.width - 1), Count(f.height - 1))
  {
    seq(Count(f.width - 1), x requires 0 <= x < Count(f.width - 1) =>
      seq(Count(f.height - 1), y requires 0 <= y < Count(f.height - 1) => Residual(f, x, y)))
  }

  /** `getError`: the summed residuals. */
  function ReconstructionError(f: Field): real
    requires f.Valid()
  {
    Sum(Residuals(f))
  }

  /** The error is never negative, and it is zero exactly when the gradients are the forward
      differences of the values. */
  lemma ErrorZeroIffConsistent(f: Field)
    requires f.Valid()
    ensures 0.0 <= ReconstructionError(f)
    ensures ReconstructionError(f) == 0.0 <==> Consistent(f)
  {
    var g := Residuals(f);
    assert AllNonNegative(g);
    SumNonNegative(g);
    if Consistent(f) {
      assert forall x, y :: 0 <= x < |g| && 0 <= y < |g[x]| ==> g[x][y] == 0.0;
    }
    if ReconstructionError(f) == 0.0 {
      forall x, y | 0 <= x < f.width - 1 && 0 <= y < f.height - 1
        ensures f.gx[x][y] == f.val[x + 1][y] - f.val[x][y] && f.gy[x][y] == f.val[x][y + 1] - f.val[x][y]
      {
        assert g[x][y] == 0.0;
      }
    }
  }

  /** A freshly built map has no error. */
  lemma FreshMapHasNoError(r: Raster, w: int, h: int, channel: int)
    requires 0 <= w && 0 <= h && IsImage(r, w, h)
    ensures ReconstructionError(FromChannel(r, w, h, channel)) == 0.0
  {
    ErrorZeroIffConsistent(FromChannel(r, w, h, channel));
  }

  // ---------------------------------------------------------------------------
  // Pasting values onto an image.

  /** Layer `channel` of every non-dark target pixel covered by the map takes the map's value. */
  function ValuesPasted(r: Raster, tw: int, th: int, f: Field, channel: int): (s: Raster)
    requires IsImage(r, tw, th) && f.Valid() && f.width <= tw && f.height <= th
    ensures IsImage(s, tw, th)
  {
    seq(tw, x requires 0 <= x < tw => seq(th, y requires 0 <= y < th => seq(DEPTH, l requires 0 <= l < DEPTH =>
      if x < f.width && y < f.height && l == channel && !Dark(r[x][y], PASTE_DARK) then f.val[x][y]
      else r[x][y][l])))
  }

  /** `pasteValues` leaves the columns right of the map alone. */
  lemma ValuesPastedRight(r: Raster, tw: int, th: int, f: Field, channel: int)
    requires IsImage(r, tw, th) && f.Valid() && f.width <= tw && f.height <= th
    ensures forall i, j, k :: 0 <= i < tw && 0 <= j < th && 0 <= k < DEPTH && f.width <= i ==>
      ValuesPasted(r, tw, th, f, channel)[i][j][k] == r[i][j][k]
  {
  }

  /** What `pasteValues` adds up: the change of every pasted sample, 0 for skipped pixels. */
  function PasteChanges(r: Raster, tw: int, th: int, f: Field, channel: int): (g: Grid)
    requires IsImage(r, tw, th) && f.Valid() && f.width <= tw && f.height <= th && 0 <= channel < DEPTH
    ensures IsGrid(g, f.width, f.height)
  {
    seq(f.width, x requires 0 <= x < f.width => seq(f.height, y requires 0 <= y < f.height =>
      if Dark(r[x][y], PASTE_DARK) then 0.0 else Abs(r[x][y][channel] - f.val[x][y])))
  }

  /** The difference `pasteValues` reports is never negative, and it is zero exactly when
      pasting changes nothing. */
  lemma PasteDifferenceZeroIffUnchanged(r: Raster, tw: int, th: int, f: Field, channel: int)
    requires IsImage(r, tw, th) && f.Valid() && f.width <= tw && f.height <= th && 0 <= channel < DEPTH
    ensures 0.0 <= Sum(PasteChanges(r, tw, th, f, channel))
    ensures Sum(PasteChanges(r, tw, th, f, channel)) == 0.0 <==> ValuesPasted(r, tw, th, f, channel) == r
  {
    var g := PasteChanges(r, tw, th, f, channel);
    assert AllNonNegative(g);
    SumNonNegative(g);
    if Sum(g) == 0.0 {
      NoChangesUnchanged(r, tw, th, f, channel);
    }
    if ValuesPasted(r, tw, th, f, channel) == r {
      UnchangedNoChanges(r, tw, th, f, channel);
    }
  }

  /** All changes zero: pasting leaves every sample as it was. */
  lemma NoChangesUnchanged(r: Raster, tw: int, th: int, f: Field, channel: int)
    requires IsImage(r, tw, th) && f.Valid() && f.width <= tw && f.height <= th && 0 <= channel < DEPTH
    requires var g := PasteChanges(r, tw, th, f, channel);
      forall x, y :: 0 <= x < |g| && 0 <= y < |g[x]| ==> g[x][y] == 0.0
    ensures ValuesPasted(r, tw, th, f, channel) == r
  {
    var g := PasteChanges(r, tw, th, f, channel);
    var s := ValuesPasted(r, tw, th, f, channel);
    forall x, y, l | 0 <= x < tw && 0 <= y < th && 0 <= l < DEPTH ensures s[x][y][l] == r[x][y][l] {
      if x < f.width && y < f.height && l == channel && !Dark(r[x][y], PASTE_DARK) {
        assert g[x][y] == 0.0;
      }
    }
    RasterExt(s, r, tw, th, DEPTH);
  }

  /** Pasting that changes nothing has every change zero. */
  lemma UnchangedNoChanges(r: Raster, tw: int, th: int, f: Field, channel: int)
    requires IsImage(r, tw, th) && f.Valid() && f.width <= tw && f.height <= th && 0 <= channel < DEPTH
    requires ValuesPasted(r, tw, th, f, channel) == r
    ensures var g := PasteChanges(r, tw, th, f, channel);
      forall x, y :: 0 <= x < |g| && 0 <= y < |g[x]| ==> g[x][y] == 0.0
  {
    var g := PasteChanges(r, tw, th, f, channel);
    var s := ValuesPasted(r, tw, th, f, channel);
    forall x, y | 0 <= x < f.width && 0 <= y < f.height ensures g[x][y] == 0.0 {
      if !Dark(r[x][y], PASTE_DARK) {
        assert s[x][y][channel] == f.val[x][y];
      }
    }
  }

  // ---------------------------------------------------------------------------
  // Gradient edits: a source map placed with its corner at (x, y) on a target map.

  /** |a|^2 + |b|^2, the squared magnitude `pasteGradient` compares. */
  function Magnitude2(a: real, b: real): (m: real)
    ensures 0.0 <= m
  {
    Abs(a) * Abs(a) + Abs(b) * Abs(b)
  }

  /** Target cell (px, py) lies under source cell (px - x, py - y), and the window test of
      an edit lets it through: lo <= p < size - hi on both axes. */
  predicate Covered(s: Field, t: Field, x: int, y: int, px: int, py: int, lo: int, hi: int) {
    lo <= px < t.width - hi && lo <= py < t.height - hi &&
    0 <= px - x < s.width && 0 <= py - y < s.height
  }

  /** The comparison `pasteGradient` makes: `gxb*gxb + gyb*gyb > tx*tx + ty*ty`, with
      gxb, gyb the boosted source gradient and tx, ty the target gradient in absolute value. */
  predicate Stronger(sx: real, sy: real, tx: real, ty: real) {
    Magnitude2(sx, sy) > Magnitude2(tx, ty)
  }

  /** A source gradient scaled by `boost`. */
  function Boosted(g: real, boost: real): real {
    g * boost
  }

  /** `pasteGradient` replaces target cell (px, py): it is in the window (x < tw-1, y < th-1),
      the guiding image is not dark there, and the boosted source gradient is stronger. */
  predicate Replaces(s: Field, t: Field, img: Raster, iw: int, ih: int, x: int, y: int, boost: real, px: int, py: int)
    requires s.Valid() && t.Valid() && IsImage(img, iw, ih) && t.width - 1 <= iw && t.height - 1 <= ih
  {
    Covered(s, t, x, y, px, py, 0, 1) &&
    !Dark(img[px][py], EDIT_DARK) &&
    Stronger(Boosted(s.gx[px - x][py - y], boost), Boosted(s.gy[px - x][py - y], boost), t.gx[px][py], t.gy[px][py])
  }

  /** The target after `pasteGradient`: every replaced cell holds the boosted source gradient. */
  function GradientPasted(s: Field, t: Field, img: Raster, iw: int, ih: int, x: int, y: int, boost: real): (u: Field)
    requires s.Valid() && t.Valid() && IsImage(img, iw, ih) && t.width - 1 <= iw && t.height - 1 <= ih
    ensures u.val == t.val && PastedCells(s, t, img, iw, ih, x, y, boost, u)
  {
    t.(gx := seq(t.width, px requires 0 <= px < t.width => seq(t.height, py requires 0 <= py < t.height =>
          if Replaces(s, t, img, iw, ih, x, y, boost, px, py) then Boosted(s.gx[px - x][py - y], boost) else t.gx[px][py])),
       gy := seq(t.width, px requires 0 <= px < t.width => seq(t.height, py requires 0 <= py < t.height =>
          if Replaces(s, t, img, iw, ih, x, y, boost, px, py) then Boosted(s.gy[px - x][py - y], boost) else t.gy[px][py])))
  }

  /** u has t's shape, and each of its cells is what `pasteGradient` leaves there. */
  ghost predicate PastedCells(s: Field, t: Field, img: Raster, iw: int, ih: int, x: int, y: int, boost: real, u: Field)
    requires s.Valid() && t.Valid() && IsImage(img, iw, ih) && t.width - 1 <= iw && t.height - 1 <= ih
  {
    u.Valid() && u.width == t.width && u.height == t.height &&
    forall px, py :: PastedAt(s, t, img, iw, ih, x, y, boost, u, px, py)
  }

  /** Cell (px, py) of u, when it is one, is what `pasteGradient` leaves there. */
  ghost predicate PastedAt(s: Field, t: Field, img: Raster, iw: int, ih: int, x: int, y: int, boost: real, u: Field,
                           px: int, py: int)
    requires s.Valid() && t.Valid() && IsImage(img, iw, ih) && t.width - 1 <= iw && t.height - 1 <= ih
    requires u.Valid() && u.width == t.width && u.height == t.height
  {
    0 <= px < t.width && 0 <= py < t.height ==>
      u.gx[px][py] == (if Replaces(s, t, img, iw, ih, x, y, boost, px, py) then Boosted(s.gx[px - x][py - y], boost) else t.gx[px][py]) &&
      u.gy[px][py] == (if Replaces(s, t, img, iw, ih, x, y, boost, px, py) then Boosted(s.gy[px - x][py - y], boost) else t.gy[px][py])
  }

  /** Outside the window `pasteGradient` keeps column px of the target. */
  lemma PastedOutside(s: Field, t: Field, img: Raster, iw: int, ih: int, x: int, y: int, boost: real, u: Field, px: int)
    requires s.Valid() && t.Valid() && IsImage(img, iw, ih) && t.width - 1 <= iw && t.height - 1 <= ih
    requires PastedCells(s, t, img, iw, ih, x, y, boost, u) && 0 <= px < t.width
    ensures forall j :: 0 <= j < t.height && !Covered(s, t, x, y, px, j, 0, 1) ==>
      u.gx[px][j] == t.gx[px][j] && u.gy[px][j] == t.gy[px][j]
  {
    forall j | 0 <= j < t.height && !Covered(s, t, x, y, px, j, 0, 1)
      ensures u.gx[px][j] == t.gx[px][j] && u.gy[px][j] == t.gy[px][j]
    {
      assert PastedAt(s, t, img, iw, ih, x, y, boost, u, px, j);
    }
  }

  /** Left and right of the window `pasteGradient` keeps the target. */
  lemma PastedBeside(s: Field, t: Field, img: Raster, iw: int, ih: int, x: int, y: int, boost: real, u: Field)
    requires s.Valid() && t.Valid() && IsImage(img, iw, ih) && t.width - 1 <= iw && t.height - 1 <= ih
    requires PastedCells(s, t, img, iw, ih, x, y, boost, u)
    ensures forall i, j :: 0 <= i < t.width && 0 <= j < t.height && (i < x || x + s.width <= i) ==> u.gx[i][j] == t.gx[i][j] && u.gy[i][j] == t.gy[i][j]
  {
    forall i, j | 0 <= i < t.width && 0 <= j < t.height && (i < x || x + s.width <= i)
      ensures u.gx[i][j] == t.gx[i][j] && u.gy[i][j] == t.gy[i][j]
    {
      assert PastedAt(s, t, img, iw, ih, x, y, boost, u, i, j);
    }
  }

  /** Pasting gradients only ever strengthens them: no cell's magnitude goes down, and a cell
      that changes takes the boosted source gradient. */
  lemma PasteGradientStrengthens(s: Field, t: Field, img: Raster, iw: int, ih: int, x: int, y: int, boost: real)
    requires s.Valid() && t.Valid() && IsImage(img, iw, ih) && t.width - 1 <= iw && t.height - 1 <= ih
    ensures var u := GradientPasted(s, t, img, iw, ih, x, y, boost);
      forall px, py :: 0 <= px < t.width && 0 <= py < t.height ==>
        Magnitude2(t.gx[px][py], t.gy[px][py]) <= Magnitude2(u.gx[px][py], u.gy[px][py])
    ensures var u := GradientPasted(s, t, img, iw, ih, x, y, boost);
      forall px, py :: (0 <= px < t.width && 0 <= py < t.height &&
        (u.gx[px][py] != t.gx[px][py] || u.gy[px][py] != t.gy[px][py])) ==>
        Covered(s, t, x, y, px, py, 0, 1) &&
        u.gx[px][py] == Boosted(s.gx[px - x][py - y], boost) && u.gy[px][py] == Boosted(s.gy[px - x][py - y], boost)
  {
    var u := GradientPasted(s, t, img, iw, ih, x, y, boost);
    forall px, py | 0 <= px < t.width && 0 <= py < t.height
      ensures Magnitude2(t.gx[px][py], t.gy[px][py]) <= Magnitude2(u.gx[px][py], u.gy[px][py])
    {
      if Replaces(s, t, img, iw, ih, x, y, boost, px, py) {
        assert u.gx[px][py] == Boosted(s.gx[px - x][py - y], boost) && u.gy[px][py] == Boosted(s.gy[px - x][py - y], boost);
      } else {
        assert u.gx[px][py] == t.gx[px][py] && u.gy[px][py] == t.gy[px][py];
      }
    }
  }

  /** A zero boost pastes nothing: no gradient is stronger than the zero gradient. */
  lemma PasteZeroBoostKeepsTarget(s: Field, t: Field, img: Raster, iw: int, ih: int, x: int, y: int)
    requires s.Valid() && t.Valid() && IsImage(img, iw, ih) && t.width - 1 <= iw && t.height - 1 <= ih
    ensures GradientPasted(s, t, img, iw, ih, x, y, 0.0) == t
  {
    var u := GradientPasted(s, t, img, iw, ih, x, y, 0.0);
    GridExt(u.gx, t.gx, t.width, t.height);
    GridExt(u.gy, t.gy, t.width, t.height);
  }

  /** Pasting the same source again at the same place changes nothing more. */
  lemma PasteGradientIdempotent(s: Field, t: Field, img: Raster, iw: int, ih: int, x: int, y: int, boost: real)
    requires s.Valid() && t.Valid() && IsImage(img, iw, ih) && t.width - 1 <= iw && t.height - 1 <= ih
    ensures var u := GradientPasted(s, t, img, iw, ih, x, y, boost);
      GradientPasted(s, u, img, iw, ih, x, y, boost) == u
  {
    var u := GradientPasted(s, t, img, iw, ih, x, y, boost);
    var v := GradientPasted(s, u, img, iw, ih, x, y, boost);
    forall px, py | 0 <= px < t.width && 0 <= py < t.height
      ensures v.gx[px][py] == u.gx[px][py] && v.gy[px][py] == u.gy[px][py]
    {
      if Replaces(s, t, img, iw, ih, x, y, boost, px, py) {
        assert !Replaces(s, u, img, iw, ih, x, y, boost, px, py);
      }
    }
    GridExt(v.gx, u.gx, t.width, t.height);
    GridExt(v.gy, u.gy, t.width, t.height);
  }

  /** The factor `multiplyGradient` scales a cell by: `1 - (1 - value) * boost`. */
  function Attenuation(v: real, boost: real): real {
    1.0 - (1.0 - v) * boost
  }

  /** Gradient g scaled by the factor for value v. */
  function Attenuated(g: real, v: real, boost: real): real {
    g * Attenuation(v, boost)
  }

  /** `multiplyGradient` scales target cell (px, py): it lies in the window 1 <= p < size-2
      and the guiding image is not dark there. */
  predicate Scales(s: Field, t: Field, img: Raster, iw: int, ih: int, x: int, y: int, px: int, py: int)
    requires s.Valid() && t.Valid() && IsImage(img, iw, ih) && t.width - 2 <= iw && t.height - 2 <= ih
  {
    Covered(s, t, x, y, px, py, 1, 2) && !Dark(img[px][py], EDIT_DARK)
  }

  /** The target after `multiplyGradient`: scaled cells have both gradients multiplied by the
      attenuation of the source value above them. */
  function GradientMultiplied(s: Field, t: Field, img: Raster, iw: int, ih: int, x: int, y: int, boost: real): (u: Field)
    requires s.Valid() && t.Valid() && IsImage(img, iw, ih) && t.width - 2 <= iw && t.height - 2 <= ih
    ensures u.val == t.val && MultipliedCells(s, t, img, iw, ih, x, y, boost, u)
  {
    t.(gx := seq(t.width, px requires 0 <= px < t.width => seq(t.height, py requires 0 <= py < t.height =>
          if Scales(s, t, img, iw, ih, x, y, px, py) then Attenuated(t.gx[px][py], s.val[px - x][py - y], boost)
          else t.gx[px][py])),
       gy := seq(t.width, px requires 0 <= px < t.width => seq(t.height, py requires 0 <= py < t.height =>
          if Scales(s, t, img, iw, ih, x, y, px, py) then Attenuated(t.gy[px][py], s.val[px - x][py - y], boost)
          else t.gy[px][py])))
  }

  /** u has t's shape, and each of its cells is what `multiplyGradient` leaves there. */
  ghost predicate MultipliedCells(s: Field, t: Field, img: Raster, iw: int, ih: int, x: int, y: int, boost: real, u: Field)
    requires s.Valid() && t.Valid() && IsImage(img, iw, ih) && t.width - 2 <= iw && t.height - 2 <= ih
  {
    u.Valid() && u.width == t.width && u.height == t.height &&
    forall px, py :: MultipliedAt(s, t, img, iw, ih, x, y, boost, u, px, py)
  }

  /** Cell (px, py) of u, when it is one, is what `multiplyGradient` leaves there. */
  ghost predicate MultipliedAt(s: Field, t: Field, img: Raster, iw: int, ih: int, x: int, y: int, boost: real, u: Field,
                               px: int, py: int)
    requires s.Valid() && t.Valid() && IsImage(img, iw, ih) && t.width - 2 <= iw && t.height - 2 <= ih
    requires u.Valid() && u.width == t.width && u.height == t.height
  {
    0 <= px < t.width && 0 <= py < t.height ==>
      u.gx[px][py] == (if Scales(s, t, img, iw, ih, x, y, px, py) then Attenuated(t.gx[px][py], s.val[px - x][py - y], boost) else t.gx[px][py]) &&
      u.gy[px][py] == (if Scales(s, t, img, iw, ih, x, y, px, py) then Attenuated(t.gy[px][py], s.val[px - x][py - y], boost) else t.gy[px][py])
  }

  /** Outside the window `multiplyGradient` keeps column px of the target. */
  lemma MultipliedOutside(s: Field, t: Field, img: Raster, iw: int, ih: int, x: int, y: int, boost: real, u: Field, px: int)
    requires s.Valid() && t.Valid() && IsImage(img, iw, ih) && t.width - 2 <= iw && t.height - 2 <= ih
    requires MultipliedCells(s, t, img, iw, ih, x, y, boost, u) && 0 <= px < t.width
    ensures forall j :: 0 <= j < t.height && !Covered(s, t, x, y, px, j, 1, 2) ==>
      u.gx[px][j] == t.gx[px][j] && u.gy[px][j] == t.gy[px][j]
  {
    forall j | 0 <= j < t.height && !Covered(s, t, x, y, px, j, 1, 2)
      ensures u.gx[px][j] == t.gx[px][j] && u.gy[px][j] == t.gy[px][j]
    {
      assert MultipliedAt(s, t, img, iw, ih, x, y, boost, u, px, j);
    }
  }

  /** Left and right of the window `multiplyGradient` keeps the target. */
  lemma MultipliedBeside(s: Field, t: Field, img: Raster, iw: int, ih: int, x: int, y: int, boost: real, u: Field)
    requires s.Valid() && t.Valid() && IsImage(img, iw, ih) && t.width - 2 <= iw && t.height - 2 <= ih
    requires MultipliedCells(s, t, img, iw, ih, x, y, boost, u)
    ensures forall i, j :: 0 <= i < t.width && 0 <= j < t.height && (i < x || x + s.width <= i) ==> u.gx[i][j] == t.gx[i][j] && u.gy[i][j] == t.gy[i][j]
  {
    forall i, j | 0 <= i < t.width && 0 <= j < t.height && (i < x || x + s.width <= i)
      ensures u.gx[i][j] == t.gx[i][j] && u.gy[i][j] == t.gy[i][j]
    {
      assert MultipliedAt(s, t, img, iw, ih, x, y, boost, u, i, j);
    }
  }

  /** A zero boost multiplies by one everywhere, so the target is unchanged. */
  lemma MultiplyZeroBoostKeepsTarget(s: Field, t: Field, img: Raster, iw: int, ih: int, x: int, y: int)
    requires s.Valid() && t.Valid() && IsImage(img, iw, ih) && t.width - 2 <= iw && t.height - 2 <= ih
    ensures GradientMultiplied(s, t, img, iw, ih, x, y, 0.0) == t
  {
    var u := GradientMultiplied(s, t, img, iw, ih, x, y, 0.0);
    GridExt(u.gx, t.gx, t.width, t.height);
    GridExt(u.gy, t.gy, t.width, t.height);
  }

  /** A source whose values are all 1 multiplies by one everywhere, whatever the boost. */
  lemma MultiplyUnitSourceKeepsTarget(s: Field, t: Field, img: Raster, iw: int, ih: int, x: int, y: int, boost: real)
    requires s.Valid() && t.Valid() && IsImage(img, iw, ih) && t.width - 2 <= iw && t.height - 2 <= ih
    requires forall i, j :: 0 <= i < s.width && 0 <= j < s.height ==> s.val[i][j] == 1.0
    ensures GradientMultiplied(s, t, img, iw, ih, x, y, boost) == t
  {
    var u := GradientMultiplied(s, t, img, iw, ih, x, y, boost);
    GridExt(u.gx, t.gx, t.width, t.height);
    GridExt(u.gy, t.gy, t.width, t.height);
  }

  // ---------------------------------------------------------------------------
  // Orientation difference.

  /** The cross product of the two gradients at a cell: zero when they are parallel. */
  function Cross(f: Field, g: Field, x: int, y: int): real
    requires f.Valid() && g.Valid() && g.width == f.width && g.height == f.height
    requires 0 <= x < f.width && 0 <= y < f.height
  {
    f.gx[x][y] * g.gy[x][y] - f.gy[x][y] * g.gx[x][y]
  }

  /** `d*d/2`, the term one cell contributes. */
  function HalfSquare(d: real): (r: real)
    ensures 0.0 <= r
  {
    d * d / 2.0
  }

  /** `d*d/2` at every cell, the terms `weightedOrientationDifference` adds up. */
  function CrossTerms(f: Field, g: Field): (c: Grid)
    requires f.Valid() && g.Valid() && g.width == f.width && g.height == f.height
    ensures IsGrid(c, f.width, f.height)
  {
    seq(f.width, x requires 0 <= x < f.width => seq(f.height, y requires 0 <= y < f.height =>
      HalfSquare(Cross(f, g, x, y))))
  }

  /** The mean of the terms over the `width * height` cells. */
  function OrientationDifference(f: Field, g: Field): real
    requires f.Valid() && g.Valid() && g.width == f.width && g.height == f.height && f.width * f.height != 0
  {
    Sum(CrossTerms(f, g)) / (f.width * f.height) as real
  }

  /** The orientation difference is non-negative and symmetric, and a map has none with
      itself. */
  lemma OrientationDifferenceMetric(f: Field, g: Field)
    requires f.Valid() && g.Valid() && g.width == f.width && g.height == f.height && f.width * f.height != 0
    ensures 0.0 <= OrientationDifference(f, g)
    ensures OrientationDifference(f, g) == OrientationDifference(g, f)
    ensures OrientationDifference(f, f) == 0.0
  {
    var c := CrossTerms(f, g);
    assert AllNonNegative(c);
    SumNonNegative(c);
    MulMonotone(1, f.width, f.height);
    CrossTermsSymmetric(f, g);
    CrossTermsSelfZero(f);
  }

  /** Swapping the maps negates every cross product and keeps every term. */
  lemma CrossTermsSymmetric(f: Field, g: Field)
    requires f.Valid() && g.Valid() && g.width == f.width && g.height == f.height
    ensures CrossTerms(g, f) == CrossTerms(f, g)
  {
    var c := CrossTerms(f, g);
    var d := CrossTerms(g, f);
    forall x, y | 0 <= x < f.width && 0 <= y < f.height ensures d[x][y] == c[x][y] {
      var p := Cross(f, g, x, y);
      assert Cross(g, f, x, y) == -p;
      assert (-p) * (-p) == p * p;
    }
    GridExt(d, c, f.width, f.height);
  }

  /** A map's gradients are parallel to themselves: every term against itself is zero. */
  lemma CrossTermsSelfZero(f: Field)
    requires f.Valid()
    ensures Sum(CrossTerms(f, f)) == 0.0
  {
    var z := CrossTerms(f, f);
    assert AllNonNegative(z);
    SumNonNegative(z);
    forall x, y | 0 <= x < f.width && 0 <= y < f.height ensures z[x][y] == 0.0 {
      assert Cross(f, f, x, y) == 0.0;
    }
  }

  /** `multiplyGradient` scales both components of a cell by one factor, so it never turns a
      gradient: the edited map has no orientation difference with the original. */
  lemma MultiplyKeepsOrientation(s: Field, t: Field, img: Raster, iw: int, ih: int, x: int, y: int, boost: real)
    requires s.Valid() && t.Valid() && IsImage(img, iw, ih) && t.width - 2 <= iw && t.height - 2 <= ih
    requires t.width * t.height != 0
    ensures OrientationDifference(t, GradientMultiplied(s, t, img, iw, ih, x, y, boost)) == 0.0
  {
    var u := GradientMultiplied(s, t, img, iw, ih, x, y, boost);
    var c := CrossTerms(t, u);
    forall px, py | 0 <= px < t.width && 0 <= py < t.height ensures c[px][py] == 0.0 {
      if Scales(s, t, img, iw, ih, x, y, px, py) {
        var a := Attenuation(s.val[px - x][py - y], boost);
        assert t.gx[px][py] * (t.gy[px][py] * a) - t.gy[px][py] * (t.gx[px][py] * a) == 0.0;
      }
    }
    assert AllNonNegative(c);
    SumNonNegative(c);
  }

  // ---------------------------------------------------------------------------
  // The map itself.

  /** `GradientMap`: `val[x, y]` is the value of cell (x, y), `gx` and `gy` its gradients. */
  class GradientMap {
    var width: int
    var height: int
    var gx: array2<real>
    var gy: array2<real>
    var val: array2<real>

    /** The three arrays have the map's dimensions and are distinct. */
    ghost predicate Valid()
      reads this
    {
      0 <= width && 0 <= height &&
      val.Length0 == width && val.Length1 == height &&
      gx.Length0 == width && gx.Length1 == height &&
      gy.Length0 == width && gy.Length1 == height &&
      gx != gy && gx != val && gy != val
    }

    /** The map as a value. */
    ghost function Model(): (f: Field)
      reads this, gx, gy, val
      requires Valid()
      ensures f.Valid() && f.width == width && f.height == height
    {
      Field(width, height, Snapshot(val), Snapshot(gx), Snapshot(gy))
    }

    /** `GradientMap(img, channelNum)`: the values of one channel and their forward
        differences, so the new map has no error. */
    constructor (img: Image, channel: int)
      requires img.Valid()
      ensures Valid() && Model() == FromChannel(img.Pixels(), img.width, img.height, channel)
      ensures fresh(gx) && fresh(gy) && fresh(val)
    {
      width, height := img.width, img.height;
      var v := ReadChannel(img, channel);
      var a, b := Differences(v);
      gx, gy, val := a, b, v;
    }

    /** `getError`. */
    method GetError() returns (err: real)
      requires Valid()
      ensures err == ReconstructionError(Model())
    {
      ghost var g := Residuals(Model());
      err := 0.0;
      for x := 0 to Count(width - 1)
        invariant err == SumColumns(g, x)
      {
        var e := ColumnError(x);
        err := err + e;
      }
    }

    /** The residuals of column x of `getError`, summed. */
    method ColumnError(x: int) returns (err: real)
      requires Valid() && 0 <= x < width - 1
      ensures err == SumLine(Residuals(Model())[x], |Residuals(Model())[x]|)
    {
      ghost var g := Residuals(Model());
      err := 0.0;
      for y := 0 to Count(height - 1)
        invariant err == SumLine(g[x], y)
      {
        err := err + ResidualAt(x, y);
      }
    }

    /** The residual of cell (x, y), read from the arrays. */
    function ResidualAt(x: int, y: int): (e: real)
      reads this, val, gx, gy
      requires Valid() && 0 <= x < width - 1 && 0 <= y < height - 1
      ensures e == Residuals(Model())[x][y]
    {
      Abs(gx[x, y] - (val[x + 1, y] - val[x, y])) + Abs(gy[x, y] - (val[x, y + 1] - val[x, y]))
    }

    // -------------------------------------------------------------------------
    // The per-line kernels.

    /** `reconstructStepLR(y)`: row y relaxed left to right over x = 2 .. width-3. */
    method ReconstructRowLR(y: int)
      requires Valid() && 0 <= y < height
      modifies val
      ensures Valid() && Model() == SweepLine(LR, old(Model()), y)
    {
      ghost var f := Model();
      ghost var t := SweepLine(LR, f, y).val;
      SweepLineKeeps(LR, f, y);
      RegionStart(val, f.val, t, 2, 2, y, y + 1);
      var n := Interior(width);
      for x := 2 to n
        invariant Region(val, f.val, t, 2, x, y, y + 1)
      {
        StepCellLR(f, y, x);
        var v := (val[x, y] + val[x - 1, y] + gx[x - 1, y]) / 2.0;
        PutRight(val, f.val, t, 2, x, y, y + 1, v);
      }
      RegionDone(val, f.val, t, 2, n, y, y + 1);
    }

    /** `reconstructStepRL(y)`: row y relaxed right to left over x = width-3 .. 2. */
    method ReconstructRowRL(y: int)
      requires Valid() && 0 <= y < height
      modifies val
      ensures Valid() && Model() == SweepLine(RL, old(Model()), y)
    {
      ghost var f := Model();
      ghost var t := SweepLine(RL, f, y).val;
      SweepLineKeeps(RL, f, y);
      var n := Interior(width);
      RegionStart(val, f.val, t, n, n, y, y + 1);
      for x := n downto 2
        invariant Region(val, f.val, t, x, n, y, y + 1)
      {
        StepCellRL(f, y, x);
        var v := (val[x, y] + val[x + 1, y] - gx[x, y]) / 2.0;
        PutLeft(val, f.val, t, x + 1, n, y, y + 1, v);
      }
      RegionDone(val, f.val, t, 2, n, y, y + 1);
    }

    /** `reconstructStepTB(x)`: column x relaxed top to bottom over y = 2 .. height-3. */
    method ReconstructColumnTB(x: int)
      requires Valid() && 0 <= x < width
      modifies val
      ensures Valid() && Model() == SweepLine(TB, old(Model()), x)
    {
      ghost var f := Model();
      ghost var t := SweepLine(TB, f, x).val;
      SweepLineKeeps(TB, f, x);
      RegionStart(val, f.val, t, x, x + 1, 2, 2);
      var n := Interior(height);
      for y := 2 to n
        invariant Region(val, f.val, t, x, x + 1, 2, y)
      {
        StepCellTB(f, x, y);
        var v := (val[x, y] + val[x, y - 1] + gy[x, y - 1]) / 2.0;
        PutBelow(val, f.val, t, x, x + 1, 2, y, v);
      }
      RegionDone(val, f.val, t, x, x + 1, 2, n);
    }

    /** `reconstructStepBT(x)`: column x relaxed bottom to top over y = height-3 .. 2. */
    method ReconstructColumnBT(x: int)
      requires Valid() && 0 <= x < width
      modifies val
      ensures Valid() && Model() == SweepLine(BT, old(Model()), x)
    {
      ghost var f := Model();
      ghost var t := SweepLine(BT, f, x).val;
      SweepLineKeeps(BT, f, x);
      var n := Interior(height);
      RegionStart(val, f.val, t, x, x + 1, n, n);
      for y := n downto 2
        invariant Region(val, f.val, t, x, x + 1, y, n)
      {
        StepCellBT(f, x, y);
        var v := (val[x, y] + val[x, y + 1] - gy[x, y]) / 2.0;
        PutAbove(val, f.val, t, x, x + 1, y + 1, n, v);
      }
      RegionDone(val, f.val, t, x, x + 1, 2, n);
    }

    // -------------------------------------------------------------------------
    // Whole sweeps and the sequential reconstruction.

    /** `reconstructStepLR()`: rows 2 .. height-3 in increasing order. */
    method ReconstructStepLR()
      requires Valid()
      modifies val
      ensures Valid() && Model() == Step(LR, old(Model()))
    {
      ghost var f := Model();
      for y := 2 to Interior(height)
        invariant LinesInRange(LR, f, Range(2, y))
        invariant Valid() && Model() == ApplyLines(LR, f, Range(2, y))
      {
        ApplyLinesSnoc(LR, f, Range(2, y), y);
        ReconstructRowLR(y);
      }
      assert Range(2, Interior(height)) == Range(2, height - 2);
    }

    /** `reconstructStepRL()`: rows 2 .. height-3 in increasing order. */
    method ReconstructStepRL()
      requires Valid()
      modifies val
      ensures Valid() && Model() == Step(RL, old(Model()))
    {
      ghost var f := Model();
      for y := 2 to Interior(height)
        invariant LinesInRange(RL, f, Range(2, y))
        invariant Valid() && Model() == ApplyLines(RL, f, Range(2, y))
      {
        ApplyLinesSnoc(RL, f, Range(2, y), y);
        ReconstructRowRL(y);
      }
      assert Range(2, Interior(height)) == Range(2, height - 2);
    }

    /** `reconstructStepTB()`: columns 2 .. width-3 in increasing order. */
    method ReconstructStepTB()
      requires Valid()
      modifies val
      ensures Valid() && Model() == Step(TB, old(Model()))
    {
      ghost var f := Model();
      for x := 2 to Interior(width)
        invariant LinesInRange(TB, f, Range(2, x))
        invariant Valid() && Model() == ApplyLines(TB, f, Range(2, x))
      {
        ApplyLinesSnoc(TB, f, Range(2, x), x);
        ReconstructColumnTB(x);
      }
      assert Range(2, Interior(width)) == Range(2, width - 2);
    }

    /** `reconstructStepBT()`: columns 2 .. width-3 in increasing order. */
    method ReconstructStepBT()
      requires Valid()
      modifies val
      ensures Valid() && Model() == Step(BT, old(Model()))
    {
      ghost var f := Model();
      for x := 2 to Interior(width)
        invariant LinesInRange(BT, f, Range(2, x))
        invariant Valid() && Model() == ApplyLines(BT, f, Range(2, x))
      {
        ApplyLinesSnoc(BT, f, Range(2, x), x);
        ReconstructColumnBT(x);
      }
      assert Range(2, Interior(width)) == Range(2, width - 2);
    }

    /** `CPUReconstruct(nbSteps)`: step s runs the sweep `KernelOf(s)`. */
    method CPUReconstruct(nbSteps: int)
      requires Valid()
      modifies val
      ensures Valid() && Model() == Reconstruct(old(Model()), nbSteps)
    {
      ghost var f := Model();
      for step := 0 to Count(nbSteps)
        invariant Valid() && Model() == Reconstruct(f, step)
      {
        var phase := step % 4;
        if phase == 0 {
          ReconstructStepLR();
        } else if phase == 1 {
          ReconstructStepTB();
        } else if phase == 2 {
          ReconstructStepRL();
        } else {
          ReconstructStepBT();
        }
      }
    }

    // -------------------------------------------------------------------------
    // Edits.

    /** This map's arrays and the gradient arrays of `target` are all different objects. */
    ghost predicate Apart(target: GradientMap)
      reads this, target
    {
      target.gx != gx && target.gx != gy && target.gx != val &&
      target.gy != gx && target.gy != gy && target.gy != val
    }

    /** `pasteValues(target, channel)`: the values written into one layer of the image, and
        the summed absolute change. */
    method PasteValues(target: Image, channel: int) returns (diff: real)
      requires Valid() && target.Valid() && width <= target.width && height <= target.height
      requires 0 <= channel < DEPTH
      modifies target.pixel
      ensures target.Valid()
      ensures target.Pixels() == ValuesPasted(old(target.Pixels()), target.width, target.height, Model(), channel)
      ensures diff == Sum(PasteChanges(old(target.Pixels()), target.width, target.height, Model(), channel))
    {
      ghost var r := target.Pixels();
      ghost var t := ValuesPasted(r, target.width, target.height, Model(), channel);
      ghost var g := PasteChanges(r, target.width, target.height, Model(), channel);
      var px := target.pixel;
      diff := 0.0;
      var x := 0;
      while x < width
        invariant 0 <= x <= width
        invariant Progress3(px, r, t, x, 0, 0)
        invariant diff == SumColumns(g, x)
      {
        var d := PasteValuesColumn(px, channel, x, r, t, g);
        diff := diff + d;
        x := x + 1;
      }
      ValuesPastedRight(r, target.width, target.height, Model(), channel);
      Progress3Finish(px, r, t, width);
    }

    /** Column x of `pasteValues`. */
    method PasteValuesColumn(px: array3<real>, channel: int, x: int, ghost r: Raster, ghost t: Raster, ghost g: Grid)
      returns (d: real)
      requires Valid() && px.Length2 == DEPTH && width <= px.Length0 && height <= px.Length1
      requires 0 <= channel < DEPTH && 0 <= x < width
      requires IsImage(r, px.Length0, px.Length1)
      requires t == ValuesPasted(r, px.Length0, px.Length1, Model(), channel)
      requires g == PasteChanges(r, px.Length0, px.Length1, Model(), channel)
      requires Progress3(px, r, t, x, 0, 0)
      modifies px
      ensures Progress3(px, r, t, x + 1, 0, 0) && d == SumLine(g[x], |g[x]|)
    {
      d := 0.0;
      var y := 0;
      while y < height
        invariant 0 <= y <= height
        invariant Progress3(px, r, t, x, y, 0)
        invariant d == SumLine(g[x], y)
      {
        var e := PasteValuesCell(px, channel, x, y, r, t, g);
        d := d + e;
        y := y + 1;
      }
      SkipColumnRest3(px, r, t, x, height);
    }

    /** Pixel (x, y) of `pasteValues`, and the change it adds. */
    method PasteValuesCell(px: array3<real>, channel: int, x: int, y: int, ghost r: Raster, ghost t: Raster, ghost g: Grid)
      returns (d: real)
      requires Valid() && px.Length2 == DEPTH && width <= px.Length0 && height <= px.Length1
      requires 0 <= channel < DEPTH && 0 <= x < width && 0 <= y < height
      requires IsImage(r, px.Length0, px.Length1)
      requires t == ValuesPasted(r, px.Length0, px.Length1, Model(), channel)
      requires g == PasteChanges(r, px.Length0, px.Length1, Model(), channel)
      requires Progress3(px, r, t, x, y, 0)
      modifies px
      ensures Progress3(px, r, t, x, y + 1, 0) && d == g[x][y]
    {
      var p := Cell3(px, x, y);
      PendingPixel3(px, r, t, x, y);
      if Dark(p, PASTE_DARK) {
        d := 0.0;
        Skip3(px, r, t, x, y, 0, DEPTH);
      } else {
        d := Abs(p[channel] - val[x, y]);
        Skip3(px, r, t, x, y, 0, channel);
        Put3(px, r, t, x, y, channel, val[x, y]);
        Skip3(px, r, t, x, y, channel + 1, DEPTH);
      }
      NextPixel3(px, r, t, x, y);
    }

    /** `pasteGradient(img, target, x, y, boost)`: this map's gradients, boosted, replace the
        weaker gradients of `target` under it, away from the dark parts of `img`. */
    method PasteGradient(img: Image, target: GradientMap, x: int, y: int, boost: real)
      requires Valid() && target.Valid() && img.Valid() && Apart(target)
      requires target.width - 1 <= img.width && target.height - 1 <= img.height
      modifies target.gx, target.gy
      ensures target.Valid() && Model() == old(Model())
      ensures target.Model() ==
        GradientPasted(Model(), old(target.Model()), img.Pixels(), img.width, img.height, x, y, boost)
    {
      ghost var S := Model();
      ghost var T := target.Model();
      ghost var U := GradientPasted(S, T, img.Pixels(), img.width, img.height, x, y, boost);
      var a, b := target.gx, target.gy;
      PastedBeside(S, T, img.Pixels(), img.width, img.height, x, y, boost, U);
      Progress2Start(a, T.gx, U.gx, x);
      Progress2Start(b, T.gy, U.gy, x);
      for dx := 0 to width
        invariant Model() == S
        invariant Progress2(a, T.gx, U.gx, x + dx, 0) && Progress2(b, T.gy, U.gy, x + dx, 0)
      {
        PasteGradientColumn(img, a, b, x, y, dx, boost, S, T, U);
      }
      Progress2Finish(a, T.gx, U.gx, x + width);
      Progress2Finish(b, T.gy, U.gy, x + width);
    }

    /** Column px = x + dx of `pasteGradient`. */
    method PasteGradientColumn(img: Image, a: array2<real>, b: array2<real>, x: int, y: int, dx: int, boost: real,
                               ghost S: Field, ghost T: Field, ghost U: Field)
      requires Valid() && img.Valid() && S == Model() && T.Valid()
      requires a != b && a != gx && a != gy && a != val && b != gx && b != gy && b != val
      requires a.Length0 == T.width && a.Length1 == T.height && b.Length0 == T.width && b.Length1 == T.height
      requires T.width - 1 <= img.width && T.height - 1 <= img.height
      requires PastedCells(S, T, img.Pixels(), img.width, img.height, x, y, boost, U)
      requires 0 <= dx < width
      requires Progress2(a, T.gx, U.gx, x + dx, 0) && Progress2(b, T.gy, U.gy, x + dx, 0)
      modifies a, b
      ensures Progress2(a, T.gx, U.gx, x + dx + 1, 0) && Progress2(b, T.gy, U.gy, x + dx + 1, 0)
    {
      var px := x + dx;
      if px < 0 || px >= a.Length0 {
        SkipColumn2(a, T.gx, U.gx, px);
        SkipColumn2(b, T.gy, U.gy, px);
        return;
      }
      PastedOutside(S, T, img.Pixels(), img.width, img.height, x, y, boost, U, px);
      if px >= a.Length0 - 1 || px < 0 {
        SkipColumn2(a, T.gx, U.gx, px);
        SkipColumn2(b, T.gy, U.gy, px);
        return;
      }
      SkipCells2(a, T.gx, U.gx, px, 0, y);
      SkipCells2(b, T.gy, U.gy, px, 0, y);
      for dy := 0 to height
        invariant Progress2(a, T.gx, U.gx, px, y + dy) && Progress2(b, T.gy, U.gy, px, y + dy)
      {
        var py := y + dy;
        if py >= a.Length1 - 1 || py < 0 {
          SkipCells2(a, T.gx, U.gx, px, py, py + 1);
          SkipCells2(b, T.gy, U.gy, px, py, py + 1);
        } else {
          PasteGradientCell(img, a, b, x, y, dx, dy, boost, S, T, U);
        }
      }
      SkipCells2(a, T.gx, U.gx, px, y + height, a.Length1);
      SkipCells2(b, T.gy, U.gy, px, y + height, a.Length1);
      NextColumn2(a, T.gx, U.gx, px);
      NextColumn2(b, T.gy, U.gy, px);
    }

    /** Cell (x + dx, y + dy) of `pasteGradient`. */
    method PasteGradientCell(img: Image, a: array2<real>, b: array2<real>, x: int, y: int, dx: int, dy: int, boost: real,
                             ghost S: Field, ghost T: Field, ghost U: Field)
      requires Valid() && img.Valid() && S == Model() && T.Valid()
      requires a != b && a != gx && a != gy && a != val && b != gx && b != gy && b != val
      requires a.Length0 == T.width && a.Length1 == T.height && b.Length0 == T.width && b.Length1 == T.height
      requires T.width - 1 <= img.width && T.height - 1 <= img.height
      requires PastedCells(S, T, img.Pixels(), img.width, img.height, x, y, boost, U)
      requires 0 <= dx < width && 0 <= x + dx < T.width - 1
      requires 0 <= dy < height && 0 <= y + dy < T.height - 1
      requires Progress2(a, T.gx, U.gx, x + dx, y + dy) && Progress2(b, T.gy, U.gy, x + dx, y + dy)
      modifies a, b
      ensures Progress2(a, T.gx, U.gx, x + dx, y + dy + 1) && Progress2(b, T.gy, U.gy, x + dx, y + dy + 1)
    {
      var px, py := x + dx, y + dy;
      assert PastedAt(S, T, img.Pixels(), img.width, img.height, x, y, boost, U, px, py);
      if !Dark(img.Values(px, py), EDIT_DARK) && Stronger(Boosted(gx[dx, dy], boost), Boosted(gy[dx, dy], boost), a[px, py], b[px, py]) {
        PutBoth2(a, b, T.gx, U.gx, T.gy, U.gy, px, py, Boosted(gx[dx, dy], boost), Boosted(gy[dx, dy], boost));
      } else {
        Skip2(a, T.gx, U.gx, px, py);
        Skip2(b, T.gy, U.gy, px, py);
      }
    }

    /** `multiplyGradient(img, target, x, y, boost)`: the gradients of `target` under this
        map are scaled by `1 - (1 - value) * boost`, away from the border and the dark parts
        of `img`. */
    method MultiplyGradient(img: Image, target: GradientMap, x: int, y: int, boost: real)
      requires Valid() && target.Valid() && img.Valid() && Apart(target)
      requires target.width - 2 <= img.width && target.height - 2 <= img.height
      modifies target.gx, target.gy
      ensures target.Valid() && Model() == old(Model())
      ensures target.Model() ==
        GradientMultiplied(Model(), old(target.Model()), img.Pixels(), img.width, img.height, x, y, boost)
    {
      ghost var S := Model();
      ghost var T := target.Model();
      ghost var U := GradientMultiplied(S, T, img.Pixels(), img.width, img.height, x, y, boost);
      var a, b := target.gx, target.gy;
      MultipliedBeside(S, T, img.Pixels(), img.width, img.height, x, y, boost, U);
      Progress2Start(a, T.gx, U.gx, x);
      Progress2Start(b, T.gy, U.gy, x);
      for dx := 0 to width
        invariant Model() == S
        invariant Progress2(a, T.gx, U.gx, x + dx, 0) && Progress2(b, T.gy, U.gy, x + dx, 0)
      {
        MultiplyGradientColumn(img, a, b, x, y, dx, boost, S, T, U);
      }
      Progress2Finish(a, T.gx, U.gx, x + width);
      Progress2Finish(b, T.gy, U.gy, x + width);
    }

    /** Column px = x + dx of `multiplyGradient`. */
    method MultiplyGradientColumn(img: Image, a: array2<real>, b: array2<real>, x: int, y: int, dx: int, boost: real,
                               ghost S: Field, ghost T: Field, ghost U: Field)
      requires Valid() && img.Valid() && S == Model() && T.Valid()
      requires a != b && a != gx && a != gy && a != val && b != gx && b != gy && b != val
      requires a.Length0 == T.width && a.Length1 == T.height && b.Length0 == T.width && b.Length1 == T.height
      requires T.width - 2 <= img.width && T.height - 2 <= img.height
      requires MultipliedCells(S, T, img.Pixels(), img.width, img.height, x, y, boost, U)
      requires 0 <= dx < width
      requires Progress2(a, T.gx, U.gx, x + dx, 0) && Progress2(b, T.gy, U.gy, x + dx, 0)
      modifies a, b
      ensures Progress2(a, T.gx, U.gx, x + dx + 1, 0) && Progress2(b, T.gy, U.gy, x + dx + 1, 0)
    {
      var px := x + dx;
      if px < 0 || px >= a.Length0 {
        SkipColumn2(a, T.gx, U.gx, px);
        SkipColumn2(b, T.gy, U.gy, px);
        return;
      }
      MultipliedOutside(S, T, img.Pixels(), img.width, img.height, x, y, boost, U, px);
      if px >= a.Length0 - 2 || px < 1 {
        SkipColumn2(a, T.gx, U.gx, px);
        SkipColumn2(b, T.gy, U.gy, px);
        return;
      }
      SkipCells2(a, T.gx, U.gx, px, 0, y);
      SkipCells2(b, T.gy, U.gy, px, 0, y);
      for dy := 0 to height
        invariant Progress2(a, T.gx, U.gx, px, y + dy) && Progress2(b, T.gy, U.gy, px, y + dy)
      {
        var py := y + dy;
        if py >= a.Length1 - 2 || py < 1 {
          SkipCells2(a, T.gx, U.gx, px, py, py + 1);
          SkipCells2(b, T.gy, U.gy, px, py, py + 1);
        } else {
          MultiplyGradientCell(img, a, b, x, y, dx, dy, boost, S, T, U);
        }
      }
      SkipCells2(a, T.gx, U.gx, px, y + height, a.Length1);
      SkipCells2(b, T.gy, U.gy, px, y + height, a.Length1);
      NextColumn2(a, T.gx, U.gx, px);
      NextColumn2(b, T.gy, U.gy, px);
    }

    /** Cell (x + dx, y + dy) of `multiplyGradient`. */
    method MultiplyGradientCell(img: Image, a: array2<real>, b: array2<real>, x: int, y: int, dx: int, dy: int, boost: real,
                             ghost S: Field, ghost T: Field, ghost U: Field)
      requires Valid() && img.Valid() && S == Model() && T.Valid()
      requires a != b && a != gx && a != gy && a != val && b != gx && b != gy && b != val
      requires a.Length0 == T.width && a.Length1 == T.height && b.Length0 == T.width && b.Length1 == T.height
      requires T.width - 2 <= img.width && T.height - 2 <= img.height
      requires MultipliedCells(S, T, img.Pixels(), img.width, img.height, x, y, boost, U)
      requires 0 <= dx < width && 1 <= x + dx < T.width - 2
      requires 0 <= dy < height && 1 <= y + dy < T.height - 2
      requires Progress2(a, T.gx, U.gx, x + dx, y + dy) && Progress2(b, T.gy, U.gy, x + dx, y + dy)
      modifies a, b
      ensures Progress2(a, T.gx, U.gx, x + dx, y + dy + 1) && Progress2(b, T.gy, U.gy, x + dx, y + dy + 1)
    {
      var px, py := x + dx, y + dy;
      assert MultipliedAt(S, T, img.Pixels(), img.width, img.height, x, y, boost, U, px, py);
      if Dark(img.Values(px, py), EDIT_DARK) {
        Skip2(a, T.gx, U.gx, px, py);
        Skip2(b, T.gy, U.gy, px, py);
      } else {
        PutBoth2(a, b, T.gx, U.gx, T.gy, U.gy, px, py,
                 Attenuated(a[px, py], val[dx, dy], boost), Attenuated(b[px, py], val[dx, dy], boost));
      }
    }

    // -------------------------------------------------------------------------
    // Flat buffers for the accelerator.

    /** `getValues1D`. */
    method GetValues1D() returns (res: array<real>)
      requires Valid()
      ensures fresh(res) && res[..] == Flatten(Model().val, width, height)
    {
      res := FlattenArray(val);
    }

    /** `getGX1D`. */
    method GetGX1D() returns (res: array<real>)
      requires Valid()
      ensures fresh(res) && res[..] == Flatten(Model().gx, width, height)
    {
      res := FlattenArray(gx);
    }

    /** `getGY1D`. */
    method GetGY1D() returns (res: array<real>)
      requires Valid()
      ensures fresh(res) && res[..] == Flatten(Model().gy, width, height)
    {
      res := FlattenArray(gy);
    }

    /** `setValues1D(in)`: cell (x, y) takes element y*width+x; the gradients are kept. */
    method SetValues1D(input: array<real>)
      requires Valid() && width * height <= input.Length
      modifies val
      ensures Valid() && Model() == old(Model()).(val := Unflatten(input[..], width, height))
    {
      ghost var u := Unflatten(input[..], width, height);
      var p := 0;
      for y := 0 to height
        invariant p == y * width
        invariant forall i, j :: 0 <= i < width && 0 <= j < y ==> val[i, j] == u[i][j]
      {
        SetRow(input, y, u);
        p := p + width;
      }
      GridExt(Snapshot(val), u, width, height);
    }

    /** Row y of `setValues1D`. */
    method SetRow(input: array<real>, y: int, ghost u: Grid)
      requires Valid() && width * height <= input.Length && 0 <= y < height
      requires u == Unflatten(input[..], width, height)
      modifies val
      ensures forall i, j :: 0 <= i < width && 0 <= j < height ==>
        val[i, j] == if j == y then u[i][j] else old(val[i, j])
    {
      for x := 0 to width
        invariant forall i, j :: 0 <= i < width && 0 <= j < height ==>
          val[i, j] == if j == y && i < x then u[i][j] else old(val[i, j])
      {
        UnflattenAt(input[..], width, height, x, y);
        val[x, y] := input[y * width + x];
      }
    }

    // -------------------------------------------------------------------------
    // Comparison.

    /** `weightedOrientationDifference(o)`: maps of different dimensions are refused; an
        empty map divides 0 by 0, which has no real value. */
    method WeightedOrientationDifference(o: GradientMap) returns (r: Result<real>)
      requires Valid() && o.Valid()
      ensures (o.width != width || o.height != height) ==> r == Err(IllegalArgument("dimensions mismatch"))
      ensures (o.width == width && o.height == height && width * height == 0) ==> r == Err(NotANumber)
      ensures (o.width == width && o.height == height && width * height != 0) ==>
        r == Ok(OrientationDifference(Model(), o.Model()))
    {
      if o.width != width || o.height != height {
        return Err(IllegalArgument("dimensions mismatch"));
      }
      ghost var c := CrossTerms(Model(), o.Model());
      var sum := 0.0;
      for x := 0 to width
        invariant sum == SumColumns(c, x)
      {
        var s := CrossColumn(o, x);
        sum := sum + s;
      }
      if width * height == 0 {
        return Err(NotANumber);
      }
      r := Ok(sum / (width * height) as real);
    }

    /** The sum of the `d*d/2` terms down column x. */
    method CrossColumn(o: GradientMap, x: int) returns (s: real)
      requires Valid() && o.Valid() && o.width == width && o.height == height && 0 <= x < width
      ensures s == SumLine(CrossTerms(Model(), o.Model())[x], height)
    {
      ghost var c := CrossTerms(Model(), o.Model());
      s := 0.0;
      for y := 0 to height
        invariant s == SumLine(c[x], y)
      {
        var d := gx[x, y] * o.gy[x, y] - gy[x, y] * o.gx[x, y];
        assert d == Cross(Model(), o.Model(), x, y);
        s := s + HalfSquare(d);
      }
    }
  }

  /** The row-major copy of a two-dimensional array. */
  method FlattenArray(a: array2<real>) returns (res: array<real>)
    ensures fresh(res) && res[..] == Flatten(Snapshot(a), a.Length0, a.Length1)
  {
    var w, h := a.Length0, a.Length1;
    ghost var s := Flatten(Snapshot(a), w, h);
    res := new real[w * h];
    var p := 0;
    for y := 0 to h
      invariant p == y * w && p <= w * h
      invariant forall q :: 0 <= q < p ==> res[q] == s[q]
    {
      FlattenRow(a, res, y, s);
      assert (y + 1) * w == y * w + w;
      p := p + w;
    }
    assert p == w * h;
  }

  /** Row y of the row-major copy: elements y*w .. y*w+w-1. */
  method FlattenRow(a: array2<real>, res: array<real>, y: int, ghost s: seq<real>)
    requires 0 <= y < a.Length1 && res.Length == a.Length0 * a.Length1
    requires s == Flatten(Snapshot(a), a.Length0, a.Length1)
    requires forall q :: 0 <= q < y * a.Length0 ==> res[q] == s[q]
    modifies res
    ensures y * a.Length0 + a.Length0 <= res.Length
    ensures forall q :: 0 <= q < y * a.Length0 + a.Length0 ==> res[q] == s[q]
  {
    var w, h := a.Length0, a.Length1;
    var p := y * w;
    for x := 0 to w
      invariant p == y * w + x
      invariant forall q :: 0 <= q < p ==> res[q] == s[q]
    {
      FlattenAt(Snapshot(a), w, h, x, y);
      res[p] := a[x, y];
      p := p + 1;
    }
    MulMonotone(y + 1, h, w);
  }
}
