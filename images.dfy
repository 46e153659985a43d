/** The image raster the gradient core reads and writes: a width x height x 3 array of
    samples, with the per-pixel accumulation weights, the per-row colour-space tags, and
    the 8-bit channel packing used when images are loaded and written. */
module Images {
  import opened Grids
  import opened Outcomes

  /** Every image has three layers (`getDepth()`). */
  const DEPTH: int := 3

  /** Java's `Float.MAX_VALUE`. */
  const FLOAT_MAX: real := 3.4028235e38

  /** Java's `Float.MIN_VALUE`: the smallest POSITIVE float, not the most negative one. */
  const FLOAT_MIN_VALUE: real := 1.4e-45

  /** The colour space a row is encoded in (`Image.Type`). */
  datatype ColorSpace = RGB | YUV | HSV

  ghost predicate IsImage(r: Raster, w: int, h: int) {
    0 <= w && 0 <= h && IsRaster(r, w, h, DEPTH)
  }

  /** Sample array a holds raster r, cell by cell. */
  ghost predicate Holds(a: array3<real>, r: Raster)
    reads a
  {
    IsImage(r, a.Length0, a.Length1) && a.Length2 == DEPTH &&
    forall i, j, k :: 0 <= i < a.Length0 && 0 <= j < a.Length1 && 0 <= k < DEPTH ==> a[i, j, k] == r[i][j][k]
  }

  /** A freshly allocated image: every sample 0. */
  function Blank(w: nat, h: nat): (r: Raster)
    ensures IsImage(r, w, h)
    ensures forall x, y, l :: 0 <= x < w && 0 <= y < h && 0 <= l < DEPTH ==> r[x][y][l] == 0.0
  {
    seq(w, x => seq(h, y => seq(DEPTH, l => 0.0)))
  }

  /** The raster with sample (x, y, l) replaced by v. */
  function WithSample(r: Raster, w: int, h: int, x: int, y: int, l: int, v: real): (s: Raster)
    requires IsImage(r, w, h) && 0 <= x < w && 0 <= y < h && 0 <= l < DEPTH
    ensures IsImage(s, w, h)
    ensures forall i, j, k :: 0 <= i < w && 0 <= j < h && 0 <= k < DEPTH ==>
      s[i][j][k] == if i == x && j == y && k == l then v else r[i][j][k]
  {
    r[x := r[x][y := r[x][y][l := v]]]
  }

  // ---------------------------------------------------------------------------
  // Whole-raster transformations.

  /** Every sample v replaced by 1 - v (`invert`). */
  function Inverted(r: Raster, w: int, h: int): (s: Raster)
    requires IsImage(r, w, h)
    ensures IsImage(s, w, h)
    ensures forall x, y, l :: 0 <= x < w && 0 <= y < h && 0 <= l < DEPTH ==> s[x][y][l] == 1.0 - r[x][y][l]
  {
    seq(w, x requires 0 <= x < w => seq(h, y requires 0 <= y < h => seq(DEPTH, l requires 0 <= l < DEPTH => 1.0 - r[x][y][l])))
  }

  /** The samples of the given layers replaced by 0 (`toBlack`, `layerToBlack`). */
  function Blackened(r: Raster, w: int, h: int, layers: set<int>): (s: Raster)
    requires IsImage(r, w, h)
    ensures IsImage(s, w, h)
    ensures forall x, y, l :: 0 <= x < w && 0 <= y < h && 0 <= l < DEPTH ==>
      s[x][y][l] == if l in layers then 0.0 else r[x][y][l]
  {
    seq(w, x requires 0 <= x < w => seq(h, y requires 0 <= y < h =>
      seq(DEPTH, l requires 0 <= l < DEPTH => if l in layers then 0.0 else r[x][y][l])))
  }

  /** A quarter turn: pixel (x, y) of a w x h image moves to (y, w-1-x) of an h x w image. */
  function Turned(r: Raster, w: int, h: int): (s: Raster)
    requires IsImage(r, w, h)
    ensures IsImage(s, h, w)
    ensures forall tx, ty, l :: 0 <= tx < h && 0 <= ty < w && 0 <= l < DEPTH ==> s[tx][ty][l] == r[w - 1 - ty][tx][l]
  {
    seq(h, tx requires 0 <= tx < h => seq(w, ty requires 0 <= ty < w =>
      seq(DEPTH, l requires 0 <= l < DEPTH => r[w - 1 - ty][tx][l])))
  }

  /** Inverting twice gives the image back. */
  lemma InvertTwice(r: Raster, w: int, h: int)
    requires IsImage(r, w, h)
    ensures Inverted(Inverted(r, w, h), w, h) == r
  {
    RasterExt(Inverted(Inverted(r, w, h), w, h), r, w, h, DEPTH);
  }

  /** Blackening layer 0, then 1, then 2 is blackening the whole image. */
  lemma LayersMakeBlack(r: Raster, w: int, h: int)
    requires IsImage(r, w, h)
    ensures Blackened(Blackened(Blackened(r, w, h, {0}), w, h, {1}), w, h, {2}) == Blackened(r, w, h, {0, 1, 2})
    ensures forall x, y, l :: 0 <= x < w && 0 <= y < h && 0 <= l < DEPTH ==> Blackened(r, w, h, {0, 1, 2})[x][y][l] == 0.0
  {
    var s := Blackened(Blackened(Blackened(r, w, h, {0}), w, h, {1}), w, h, {2});
    RasterExt(s, Blackened(r, w, h, {0, 1, 2}), w, h, DEPTH);
  }

  /** A quarter turn moves pixel (x, y) to (y, w-1-x). */
  lemma TurnMovesPixel(r: Raster, w: int, h: int, x: int, y: int, l: int)
    requires IsImage(r, w, h) && 0 <= x < w && 0 <= y < h && 0 <= l < DEPTH
    ensures Turned(r, w, h)[y][w - 1 - x][l] == r[x][y][l]
  {
  }

  /** Four quarter turns give the original pixels and dimensions back. */
  lemma FourTurns(r: Raster, w: int, h: int)
    requires IsImage(r, w, h)
    ensures Turned(Turned(Turned(Turned(r, w, h), h, w), w, h), h, w) == r
  {
    var t1 := Turned(r, w, h);
    var t2 := Turned(t1, h, w);
    var t3 := Turned(t2, w, h);
    var t4 := Turned(t3, h, w);
    forall x, y, l | 0 <= x < w && 0 <= y < h && 0 <= l < DEPTH ensures t4[x][y][l] == r[x][y][l] {
      calc {
        t4[x][y][l];
        t3[h - 1 - y][x][l];
        t2[w - 1 - x][h - 1 - y][l];
        t1[y][w - 1 - x][l];
        r[x][y][l];
      }
    }
    RasterExt(t4, r, w, h, DEPTH);
  }

  // ---------------------------------------------------------------------------
  // The extremes `normalize` scans for, in the source's loop order (x, then y, then layer).

  /** Which running extreme a scan keeps. */
  datatype Extreme = Min | Max

  /** One step of `normalize`'s scan: `if (v < min) min = v` or `if (v > max) max = v`. */
  function Keep(e: Extreme, acc: real, v: real): real {
    match e
    case Min => if v < acc then v else acc
    case Max => if v > acc then v else acc
  }

  /** a is at least as extreme as b in e's direction. */
  predicate Beyond(e: Extreme, a: real, b: real) {
    match e
    case Min => a <= b
    case Max => a >= b
  }

  /** The running extreme after the first l layers of pixel p, starting from m. */
  function ScanPixel(e: Extreme, p: seq<real>, l: int, m: real): real
    requires 0 <= l <= |p|
  {
    if l == 0 then m else Keep(e, ScanPixel(e, p, l - 1, m), p[l - 1])
  }

  /** The running extreme after the first y pixels of column c, starting from m. */
  function ScanColumn(e: Extreme, c: seq<seq<real>>, y: int, m: real): real
    requires 0 <= y <= |c|
  {
    if y == 0 then m else ScanPixel(e, c[y - 1], |c[y - 1]|, ScanColumn(e, c, y - 1, m))
  }

  /** The running extreme after the first x columns of r, starting from m. */
  function ScanRaster(e: Extreme, r: Raster, x: int, m: real): real
    requires 0 <= x <= |r|
  {
    if x == 0 then m else ScanColumn(e, r[x - 1], |r[x - 1]|, ScanRaster(e, r, x - 1, m))
  }

  lemma {:induction false} ScanPixelBeyond(e: Extreme, p: seq<real>, l: int, m: real)
    requires 0 <= l <= |p|
    ensures Beyond(e, ScanPixel(e, p, l, m), m)
    ensures forall k :: 0 <= k < l ==> Beyond(e, ScanPixel(e, p, l, m), p[k])
    decreases l
  {
    if l > 0 {
      ScanPixelBeyond(e, p, l - 1, m);
    }
  }

  lemma {:induction false} ScanColumnBeyond(e: Extreme, c: seq<seq<real>>, y: int, m: real)
    requires 0 <= y <= |c|
    ensures Beyond(e, ScanColumn(e, c, y, m), m)
    ensures forall j, k :: 0 <= j < y && 0 <= k < |c[j]| ==> Beyond(e, ScanColumn(e, c, y, m), c[j][k])
    decreases y
  {
    if y > 0 {
      var before := ScanColumn(e, c, y - 1, m);
      ScanColumnBeyond(e, c, y - 1, m);
      ScanPixelBeyond(e, c[y - 1], |c[y - 1]|, before);
    }
  }

  /** The scan's result is at least as extreme as its start and as every sample it visited. */
  lemma {:induction false} ScanRasterBeyond(e: Extreme, r: Raster, x: int, m: real)
    requires 0 <= x <= |r|
    ensures Beyond(e, ScanRaster(e, r, x, m), m)
    ensures forall i, j, k :: 0 <= i < x && 0 <= j < |r[i]| && 0 <= k < |r[i][j]| ==>
      Beyond(e, ScanRaster(e, r, x, m), r[i][j][k])
    decreases x
  {
    if x > 0 {
      var before := ScanRaster(e, r, x - 1, m);
      ScanRasterBeyond(e, r, x - 1, m);
      ScanColumnBeyond(e, r[x - 1], |r[x - 1]|, before);
    }
  }

  /** The minimum `normalize` finds: it starts from Float.MAX_VALUE. */
  function MinSample(r: Raster): real { ScanRaster(Min, r, |r|, FLOAT_MAX) }

  /** The maximum `normalize` finds: it starts from Float.MIN_VALUE, a positive number. */
  function MaxSample(r: Raster): real { ScanRaster(Max, r, |r|, FLOAT_MIN_VALUE) }

  /** MinSample and MaxSample bound every sample, and also their starting values. */
  lemma SamplesWithinExtremes(r: Raster, w: int, h: int)
    requires IsImage(r, w, h)
    ensures MinSample(r) <= FLOAT_MAX && FLOAT_MIN_VALUE <= MaxSample(r)
    ensures forall x, y, l :: 0 <= x < w && 0 <= y < h && 0 <= l < DEPTH ==> MinSample(r) <= r[x][y][l] <= MaxSample(r)
  {
    ScanRasterBeyond(Min, r, |r|, FLOAT_MAX);
    ScanRasterBeyond(Max, r, |r|, FLOAT_MIN_VALUE);
  }

  /** As written, the maximum starts from a positive number, so an image whose samples are all
      zero has extremes 0 and Float.MIN_VALUE and is rescaled rather than left alone. */
  lemma BlankHasDistinctExtremes(w: nat, h: nat)
    requires 0 < w && 0 < h
    ensures MinSample(Blank(w, h)) == 0.0 && MaxSample(Blank(w, h)) == FLOAT_MIN_VALUE
  {
    var r := Blank(w, h);
    SamplesWithinExtremes(r, w, h);
    assert MinSample(r) <= r[0][0][0] == 0.0;
    ScanRasterZero(r, |r|);
  }

  lemma {:induction false} ScanRasterZero(r: Raster, x: int)
    requires 0 <= x <= |r| && forall i, j, k :: 0 <= i < |r| && 0 <= j < |r[i]| && 0 <= k < |r[i][j]| ==> r[i][j][k] == 0.0
    ensures 0.0 <= ScanRaster(Min, r, x, FLOAT_MAX) && ScanRaster(Max, r, x, FLOAT_MIN_VALUE) == FLOAT_MIN_VALUE
    decreases x
  {
    if x > 0 {
      ScanRasterZero(r, x - 1);
      ScanColumnZero(r[x - 1], |r[x - 1]|, ScanRaster(Min, r, x - 1, FLOAT_MAX));
    }
  }

  lemma {:induction false} ScanColumnZero(c: seq<seq<real>>, y: int, m: real)
    requires 0 <= y <= |c| && 0.0 <= m && forall j, k :: 0 <= j < |c| && 0 <= k < |c[j]| ==> c[j][k] == 0.0
    ensures 0.0 <= ScanColumn(Min, c, y, m) && ScanColumn(Max, c, y, FLOAT_MIN_VALUE) == FLOAT_MIN_VALUE
    decreases y
  {
    if y > 0 {
      ScanColumnZero(c, y - 1, m);
      ScanPixelZero(c[y - 1], |c[y - 1]|, ScanColumn(Min, c, y - 1, m));
    }
  }

  lemma {:induction false} ScanPixelZero(p: seq<real>, l: int, m: real)
    requires 0 <= l <= |p| && 0.0 <= m && forall k :: 0 <= k < |p| ==> p[k] == 0.0
    ensures 0.0 <= ScanPixel(Min, p, l, m) && ScanPixel(Max, p, l, FLOAT_MIN_VALUE) == FLOAT_MIN_VALUE
    decreases l
  {
    if l > 0 {
      ScanPixelZero(p, l - 1, m);
    }
  }

  /** One sample mapped linearly from [lo, hi] onto [-1, 1]. */
  function Rescale(v: real, lo: real, hi: real): real
    requires lo != hi
  {
    2.0 * (v - lo) / (hi - lo) - 1.0
  }

  /** The samples mapped linearly from [lo, hi] onto [-1, 1]. */
  function Rescaled(r: Raster, w: int, h: int, lo: real, hi: real): (s: Raster)
    requires IsImage(r, w, h) && lo != hi
    ensures IsImage(s, w, h)
    ensures forall x, y, l :: 0 <= x < w && 0 <= y < h && 0 <= l < DEPTH ==>
      s[x][y][l] == Rescale(r[x][y][l], lo, hi)
  {
    seq(w, x requires 0 <= x < w => seq(h, y requires 0 <= y < h =>
      seq(DEPTH, l requires 0 <= l < DEPTH => Rescale(r[x][y][l], lo, hi))))
  }

  /** The raster `normalize` leaves: unchanged when the extremes it found coincide,
      otherwise rescaled from them. */
  function Normalized(r: Raster, w: int, h: int): (s: Raster)
    requires IsImage(r, w, h)
    ensures IsImage(s, w, h)
  {
    var lo, hi := MinSample(r), MaxSample(r);
    if hi == lo then r else Rescaled(r, w, h, lo, hi)
  }

  /** After `normalize` every sample lies in [-1, 1]; when the extremes coincide nothing changes. */
  lemma NormalizedInRange(r: Raster, w: int, h: int)
    requires IsImage(r, w, h)
    ensures MaxSample(r) == MinSample(r) ==> Normalized(r, w, h) == r
    ensures MaxSample(r) != MinSample(r) ==>
      forall x, y, l :: 0 <= x < w && 0 <= y < h && 0 <= l < DEPTH ==> -1.0 <= Normalized(r, w, h)[x][y][l] <= 1.0
  {
    var lo, hi := MinSample(r), MaxSample(r);
    if hi != lo {
      forall x, y, l | 0 <= x < w && 0 <= y < h && 0 <= l < DEPTH
        ensures -1.0 <= Normalized(r, w, h)[x][y][l] <= 1.0
      {
        SamplesWithinExtremes(r, w, h);
        RescaleBounds(r[x][y][l], lo, hi);
      }
    }
  }

  lemma RescaleBounds(v: real, lo: real, hi: real)
    requires lo <= v <= hi && lo != hi
    ensures -1.0 <= Rescale(v, lo, hi) <= 1.0
  {
    var d := hi - lo;
    assert 0.0 < d;
    assert 0.0 <= (v - lo) / d <= 1.0 by {
      assert (v - lo) / d * d == v - lo;
    }
    assert 2.0 * (v - lo) / d == 2.0 * ((v - lo) / d);
  }

  // ---------------------------------------------------------------------------
  // Weighted accumulation: `weightedPaste` and `normalizeWeights`, one pixel at a time.

  /** A pixel's three layer sums and its weight. */
  datatype Accumulator = Accumulator(sum: seq<real>, weight: real)

  ghost predicate IsPixel(s: seq<real>) { |s| == DEPTH }

  /** `weightedPaste`: add the three source samples and count one more paste. */
  function Paste(a: Accumulator, s: seq<real>): (b: Accumulator)
    requires IsPixel(a.sum) && IsPixel(s)
    ensures IsPixel(b.sum)
  {
    Accumulator(seq(DEPTH, l requires 0 <= l < DEPTH => a.sum[l] + s[l]), a.weight + 1.0)
  }

  /** `normalizeWeights`: a pixel with non-zero weight is divided by it and gets weight 1. */
  function NormalizeWeight(a: Accumulator): (b: Accumulator)
    requires IsPixel(a.sum)
    ensures IsPixel(b.sum)
  {
    if a.weight == 0.0 then a
    else Accumulator(seq(DEPTH, l requires 0 <= l < DEPTH => a.sum[l] / a.weight), 1.0)
  }

  /** The pastes of `sources`, in order, onto a. */
  function PasteAll(a: Accumulator, sources: seq<seq<real>>): (b: Accumulator)
    requires IsPixel(a.sum) && forall k :: 0 <= k < |sources| ==> IsPixel(sources[k])
    ensures IsPixel(b.sum)
    decreases |sources|
  {
    if sources == [] then a else Paste(PasteAll(a, sources[..|sources| - 1]), sources[|sources| - 1])
  }

  /** The sum of layer l over the first n sources. */
  function LayerTotal(sources: seq<seq<real>>, n: int, l: int): real
    requires 0 <= n <= |sources| && 0 <= l < DEPTH && forall k :: 0 <= k < |sources| ==> IsPixel(sources[k])
  {
    if n == 0 then 0.0 else LayerTotal(sources, n - 1, l) + sources[n - 1][l]
  }

  function Unpasted(): Accumulator { Accumulator(seq(DEPTH, l => 0.0), 0.0) }

  lemma {:induction false} PasteAllSums(sources: seq<seq<real>>)
    requires forall k :: 0 <= k < |sources| ==> IsPixel(sources[k])
    ensures PasteAll(Unpasted(), sources).weight == |sources| as real
    ensures forall l :: 0 <= l < DEPTH ==> PasteAll(Unpasted(), sources).sum[l] == LayerTotal(sources, |sources|, l)
    decreases |sources|
  {
    if sources != [] {
      var init := sources[..|sources| - 1];
      PasteAllSums(init);
      forall l | 0 <= l < DEPTH ensures LayerTotal(init, |init|, l) == LayerTotal(sources, |init|, l) {
        LayerTotalPrefix(sources, init, |init|, l);
      }
    }
  }

  lemma {:induction false} LayerTotalPrefix(sources: seq<seq<real>>, init: seq<seq<real>>, n: int, l: int)
    requires forall k :: 0 <= k < |sources| ==> IsPixel(sources[k])
    requires 0 <= n <= |init| <= |sources| && init == sources[..|init|] && 0 <= l < DEPTH
    ensures LayerTotal(init, n, l) == LayerTotal(sources, n, l)
    decreases n
  {
    if n > 0 {
      LayerTotalPrefix(sources, init, n - 1, l);
    }
  }

  /** n >= 1 pastes onto a fresh pixel followed by `normalizeWeights` leave the mean of
      the pasted samples, layer by layer, with weight 1. */
  lemma MeanOfPastes(sources: seq<seq<real>>)
    requires |sources| >= 1 && forall k :: 0 <= k < |sources| ==> IsPixel(sources[k])
    ensures NormalizeWeight(PasteAll(Unpasted(), sources)).weight == 1.0
    ensures forall l :: 0 <= l < DEPTH ==>
      NormalizeWeight(PasteAll(Unpasted(), sources)).sum[l] == LayerTotal(sources, |sources|, l) / |sources| as real
  {
    PasteAllSums(sources);
  }

  // ---------------------------------------------------------------------------
  // The 8-bit channel encoding of `write` and the loader.

  /** Java's `(int)` cast of a float: truncation toward zero. */
  function TruncateToInt(v: real): int {
    if v >= 0.0 then v.Floor else -((-v).Floor)
  }

  /** One component as `write` encodes it: `(int)(256 * v)` clamped to 0..255. */
  function EncodeComponent(v: real): bv32 {
    var n := Clamp(TruncateToInt(256.0 * v), 0, 255);
    ByteOf(n)
  }

  /** A component value 0..255 as the low byte of a word, counted up from 0. */
  function ByteOf(n: int): bv32
    requires 0 <= n < 256
    decreases n
  {
    if n == 0 then 0 else ByteOf(n - 1) + 1
  }

  /** ByteOf inverts reading a low byte as a number. */
  lemma {:induction false} ByteOfValue(c: bv32)
    requires c < 256
    ensures ByteOf(c as int) == c
    decreases c
  {
    if c > 0 {
      ByteOfValue(c - 1);
      assert (c - 1) as int == c as int - 1;
    }
  }

  /** One component as the loader decodes it: `c / 255`. */
  function DecodeComponent(c: bv32): real {
    c as int as real / 255.0
  }

  /** `write`'s word: starting from 0, `color = (color << 8) | component` for layers 0, 1, 2. */
  function PackRGB(c0: bv32, c1: bv32, c2: bv32): bv32 {
    var color: bv32 := 0;
    var color := (color << 8) | c0;
    var color := (color << 8) | c1;
    (color << 8) | c2
  }

  /** The loader's colour branch: bits 16-23, 8-15 and 0-7 for layers 0, 1 and 2. */
  function UnpackRGB(rgb: bv32): (c: seq<bv32>)
    ensures |c| == DEPTH && c[0] < 256 && c[1] < 256 && c[2] < 256
  {
    [(rgb & 0x00FF0000) >> 16, (rgb & 0x0000FF00) >> 8, rgb & 0x000000FF]
  }

  /** The loader's grey-level branch: the low byte for all three layers. */
  function UnpackGray(rgb: bv32): (c: seq<bv32>)
    ensures |c| == DEPTH && c[0] == c[1] == c[2] == UnpackRGB(rgb)[2]
  {
    var b := rgb & 0x000000FF;
    [b, b, b]
  }

  /** The loader reads back exactly the components `write` packed, whatever the alpha byte. */
  lemma UnpackPack(c0: bv32, c1: bv32, c2: bv32, alpha: bv32)
    requires c0 < 256 && c1 < 256 && c2 < 256 && alpha < 256
    ensures UnpackRGB((alpha << 24) | PackRGB(c0, c1, c2)) == [c0, c1, c2]
  {
  }

  /** Over reals, decoding byte c as c/255 and encoding it again gives c. */
  lemma EncodeDecode(c: bv32)
    requires c < 256
    ensures EncodeComponent(DecodeComponent(c)) == c
  {
    var n := c as int;
    ScaledByteTruncates(n);
    ByteOfValue(c);
  }

  /** `(int)(256 * (n / 255))` clamped to 0..255 is n again for every byte value n. */
  lemma ScaledByteTruncates(n: int)
    requires 0 <= n < 256
    ensures Clamp(TruncateToInt(256.0 * (n as real / 255.0)), 0, 255) == n
  {
    var v := 256.0 * (n as real / 255.0);
    assert v == n as real + n as real / 255.0;
    if n < 255 {
      assert n as real <= v < n as real + 1.0;
      assert v.Floor == n;
    } else {
      assert v == 256.0;
      assert v.Floor == 256;
    }
  }

  /** A pixel word the loader decodes is written back as the same 24 colour bits. */
  lemma PixelWordRoundTrip(rgb: bv32)
    ensures var c := UnpackRGB(rgb);
      PackRGB(EncodeComponent(DecodeComponent(c[0])), EncodeComponent(DecodeComponent(c[1])),
              EncodeComponent(DecodeComponent(c[2]))) == rgb & 0x00FFFFFF
  {
    var c := UnpackRGB(rgb);
    EncodeDecode(c[0]);
    EncodeDecode(c[1]);
    EncodeDecode(c[2]);
  }

  /** The three samples the loader stores for one pixel word. */
  function DecodedPixel(word: bv32, gray: bool): (p: seq<real>)
    ensures |p| == DEPTH
  {
    var c := if gray then UnpackGray(word) else UnpackRGB(word);
    seq(DEPTH, l requires 0 <= l < DEPTH => DecodeComponent(c[l]))
  }

  /** The word of every pixel of r. */
  function EncodedWords(r: Raster, w: int, h: int): (t: seq<seq<bv32>>)
    requires IsImage(r, w, h)
    ensures |t| == w && forall x :: 0 <= x < w ==> |t[x]| == h
  {
    seq(w, x requires 0 <= x < w => seq(h, y requires 0 <= y < h => EncodedPixel(r[x][y])))
  }

  /** Shifting in the three layers one by one builds the word of EncodedPixel. */
  lemma PackedIsEncoded(p: seq<real>)
    requires |p| == DEPTH
    ensures Packed(Components(p), DEPTH) == EncodedPixel(p)
  {
    PackedIsPackRGB(Components(p));
  }

  lemma PackedIsPackRGB(c: seq<bv32>)
    requires |c| == DEPTH
    ensures Packed(c, DEPTH) == PackRGB(c[0], c[1], c[2])
  {
    PackedStep(c, 1);
    PackedStep(c, 2);
    PackedStep(c, 3);
    PackRGBSteps(c[0], c[1], c[2]);
  }

  /** One more layer shifted in. */
  lemma PackedStep(c: seq<bv32>, n: int)
    requires 1 <= n <= |c|
    ensures Packed(c, n) == (Packed(c, n - 1) << 8) | c[n - 1]
  {
  }

  lemma PackRGBSteps(c0: bv32, c1: bv32, c2: bv32)
    ensures ((((((0 as bv32) << 8) | c0) << 8) | c1) << 8) | c2 == PackRGB(c0, c1, c2)
  {
  }

  /** The raster the loader builds from the words `getRGB` reports. */
  ghost function Decoded(words: array2<bv32>, gray: bool): (r: Raster)
    reads words
    ensures IsImage(r, words.Length0, words.Length1)
    ensures forall x, y :: 0 <= x < words.Length0 && 0 <= y < words.Length1 ==> r[x][y] == DecodedPixel(words[x, y], gray)
  {
    seq(words.Length0, x requires 0 <= x < words.Length0 reads words =>
      seq(words.Length1, y requires 0 <= y < words.Length1 reads words => DecodedPixel(words[x, y], gray)))
  }

  /** The word `write` stores for one pixel. */
  function EncodedPixel(p: seq<real>): bv32
    requires |p| == DEPTH
  {
    var c := Components(p);
    PackRGB(c[0], c[1], c[2])
  }

  /** The encoded component of every layer of p. */
  function Components(p: seq<real>): (c: seq<bv32>)
    ensures |c| == |p| && forall l :: 0 <= l < |p| ==> c[l] == EncodeComponent(p[l])
  {
    seq(|p|, l requires 0 <= l < |p| => EncodeComponent(p[l]))
  }

  /** The word after `write` has shifted in the first n layers of p. */
  function Packed(c: seq<bv32>, n: int): bv32
    requires 0 <= n <= |c|
  {
    if n == 0 then 0 else (Packed(c, n - 1) << 8) | c[n - 1]
  }

  /** Loading a colour pixel and writing it again reproduces its 24 colour bits; a grey-level
      pixel comes back as its low byte repeated in all three channels. */
  lemma LoadWriteRoundTrip(word: bv32)
    ensures EncodedPixel(DecodedPixel(word, false)) == word & 0x00FFFFFF
    ensures var b := UnpackRGB(word)[2]; EncodedPixel(DecodedPixel(word, true)) == PackRGB(b, b, b)
  {
    var c := UnpackRGB(word);
    EncodeDecode(c[0]);
    EncodeDecode(c[1]);
    EncodeDecode(c[2]);
    assert Components(DecodedPixel(word, false)) == c;
    assert Components(DecodedPixel(word, true)) == [c[2], c[2], c[2]];
    RepackColour(word);
  }

  /** Packing the three colour bytes of a word gives back its low 24 bits. */
  lemma RepackColour(word: bv32)
    ensures PackRGB((word & 0x00FF0000) >> 16, (word & 0x0000FF00) >> 8, word & 0x000000FF) == word & 0x00FFFFFF
  {
  }

  /** `write(String)`: the format is chosen by the file name's ending. */
  function FormatOf(name: string): (r: Result<string>)
    ensures r.Ok? <==> EndsWith(name, "jpg") || EndsWith(name, "png")
    ensures r.Ok? ==> r.value == (if EndsWith(name, "jpg") then "jpg" else "png")
    ensures r.Err? ==> r.error.IllegalArgument?
  {
    if EndsWith(name, "jpg") then Ok("jpg")
    else if EndsWith(name, "png") then Ok("png")
    else Err(IllegalArgument("Unknown extension for " + name + "; use either .jpg or .png"))
  }

  predicate EndsWith(s: string, suffix: string) {
    |suffix| <= |s| && s[|s| - |suffix|..] == suffix
  }

  // ---------------------------------------------------------------------------
  // Whole-raster results of `normalizeWeights`.

  /** A sample divided by its pixel's non-zero weight. */
  function Share(v: real, weight: real): real
    requires weight != 0.0
  {
    v / weight
  }

  /** The samples after `normalizeWeights`: divided by the pixel's weight where it is non-zero. */
  function WeightsDivided(r: Raster, g: Grid, w: int, h: int): (s: Raster)
    requires IsImage(r, w, h) && IsGrid(g, w, h)
    ensures IsImage(s, w, h)
    ensures forall x, y, l :: 0 <= x < w && 0 <= y < h && 0 <= l < DEPTH ==>
      s[x][y][l] == if g[x][y] == 0.0 then r[x][y][l] else Share(r[x][y][l], g[x][y])
  {
    seq(w, x requires 0 <= x < w => seq(h, y requires 0 <= y < h =>
      seq(DEPTH, l requires 0 <= l < DEPTH => if g[x][y] == 0.0 then r[x][y][l] else Share(r[x][y][l], g[x][y]))))
  }

  /** The weights after `normalizeWeights`: 1 wherever they were non-zero. */
  function WeightsReset(g: Grid, w: int, h: int): (t: Grid)
    requires 0 <= w && 0 <= h && IsGrid(g, w, h)
    ensures IsGrid(t, w, h)
    ensures forall x, y :: 0 <= x < w && 0 <= y < h ==> t[x][y] == if g[x][y] == 0.0 then 0.0 else 1.0
  {
    seq(w, x requires 0 <= x < w => seq(h, y requires 0 <= y < h => if g[x][y] == 0.0 then 0.0 else 1.0))
  }

  /** Pixel by pixel, `normalizeWeights` is NormalizeWeight on the pixel's accumulator. */
  lemma NormalizeWeightsPerPixel(r: Raster, g: Grid, w: int, h: int, x: int, y: int)
    requires IsImage(r, w, h) && IsGrid(g, w, h) && 0 <= x < w && 0 <= y < h
    ensures Accumulator(WeightsDivided(r, g, w, h)[x][y], WeightsReset(g, w, h)[x][y])
         == NormalizeWeight(Accumulator(r[x][y], g[x][y]))
  {
    var a := NormalizeWeight(Accumulator(r[x][y], g[x][y]));
    assert WeightsDivided(r, g, w, h)[x][y] == a.sum;
  }

  // ---------------------------------------------------------------------------

  /** An image (`Image`): `pixel[x, y, l]` is layer l of pixel (x, y), `weight[x, y]` the
      number of patches accumulated on the pixel, and `kind[y]` the colour space of row y. */
  class Image {
    var width: int
    var height: int
    var pixel: array3<real>
    var weight: array2<real>
    var kind: array<ColorSpace>

    /** The sample array has the image's dimensions. */
    ghost predicate Valid()
      reads this, pixel
    {
      pixel.Length0 == width && pixel.Length1 == height && pixel.Length2 == DEPTH
    }

    /** The weights have the image's dimensions (`turnLeft` breaks this). */
    ghost predicate WeightsMatch()
      reads this, weight
    {
      weight.Length0 == width && weight.Length1 == height
    }

    ghost function Pixels(): (r: Raster)
      reads this, pixel
      requires Valid()
      ensures IsImage(r, width, height)
    {
      Snapshot3(pixel)
    }

    ghost function Weights(): (g: Grid)
      reads this, weight
      requires WeightsMatch()
      ensures IsGrid(g, width, height)
    {
      Snapshot(weight)
    }

    /** `Image(w, h)`: all samples and weights 0, every row RGB. */
    constructor (w: nat, h: nat)
      ensures Valid() && WeightsMatch() && width == w && height == h
      ensures Pixels() == Blank(w, h)
      ensures forall x, y :: 0 <= x < w && 0 <= y < h ==> weight[x, y] == 0.0
      ensures kind.Length == h && forall y :: 0 <= y < h ==> kind[y] == RGB
      ensures fresh(pixel) && fresh(weight) && fresh(kind)
    {
      width, height := w, h;
      pixel := new real[w, h, DEPTH]((x, y, l) => 0.0);
      weight := new real[w, h]((x, y) => 0.0);
      kind := new ColorSpace[h](y => RGB);
      new;
      RasterExt(Snapshot3(pixel), Blank(w, h), w, h, DEPTH);
    }

    /** `Image(Image src)`: a fresh image with src's samples; the weights start at 0 and every
        row is tagged RGB whatever src's tags are. */
    constructor Copy(src: Image)
      requires src.Valid()
      ensures Valid() && WeightsMatch() && width == src.width && height == src.height
      ensures Pixels() == src.Pixels()
      ensures forall x, y :: 0 <= x < width && 0 <= y < height ==> weight[x, y] == 0.0
      ensures kind.Length == height && forall y :: 0 <= y < height ==> kind[y] == RGB
      ensures fresh(pixel) && fresh(weight) && fresh(kind)
    {
      var px := new real[src.width, src.height, DEPTH]((x, y, l) => 0.0);
      ghost var r := Snapshot3(px);
      ghost var t := src.Pixels();
      for x := 0 to src.width
        invariant Progress3(px, r, t, x, 0, 0)
      {
        for y := 0 to src.height
          invariant Progress3(px, r, t, x, y, 0)
        {
          Put3(px, r, t, x, y, 0, src.pixel[x, y, 0]);
          Put3(px, r, t, x, y, 1, src.pixel[x, y, 1]);
          Put3(px, r, t, x, y, 2, src.pixel[x, y, 2]);
          NextPixel3(px, r, t, x, y);
        }
        NextColumn3(px, r, t, x);
      }
      Progress3Done(px, r, t);
      width, height, pixel := src.width, src.height, px;
      weight := new real[src.width, src.height]((x, y) => 0.0);
      kind := new ColorSpace[src.height](y => RGB);
    }

    /** An image with the given samples: what `Image(String)` builds once the file's
        pixels are decoded; weights 0 and every row RGB. */
    constructor Of(r: Raster, w: nat, h: nat)
      requires IsImage(r, w, h)
      ensures Valid() && WeightsMatch() && width == w && height == h
      ensures Pixels() == r
      ensures fresh(pixel) && fresh(weight) && fresh(kind)
    {
      width, height := w, h;
      pixel := new real[w, h, DEPTH]((x, y, l) requires 0 <= x < w && 0 <= y < h && 0 <= l < DEPTH => r[x][y][l]);
      weight := new real[w, h]((x, y) => 0.0);
      kind := new ColorSpace[h](y => RGB);
      new;
      RasterExt(Snapshot3(pixel), r, w, h, DEPTH);
    }

    /** `Image(String)` after the file is decoded: `words[x, y]` is `getRGB(x, y)`, and `gray`
        says whether the file is a one-byte grey-level image. */
    constructor Load(words: array2<bv32>, gray: bool)
      ensures Valid() && WeightsMatch() && width == words.Length0 && height == words.Length1
      ensures Pixels() == Decoded(words, gray)
      ensures forall x, y :: 0 <= x < width && 0 <= y < height ==> weight[x, y] == 0.0
      ensures kind.Length == height && forall y :: 0 <= y < height ==> kind[y] == RGB
      ensures fresh(pixel) && fresh(weight) && fresh(kind)
    {
      var px := new real[words.Length0, words.Length1, DEPTH]((x, y, l) => 0.0);
      ghost var r := Snapshot3(px);
      ghost var t := Decoded(words, gray);
      for x := 0 to words.Length0
        invariant Progress3(px, r, t, x, 0, 0)
      {
        for y := 0 to words.Length1
          invariant Progress3(px, r, t, x, y, 0)
        {
          var p := DecodedPixel(words[x, y], gray);
          Put3(px, r, t, x, y, 0, p[0]);
          Put3(px, r, t, x, y, 1, p[1]);
          Put3(px, r, t, x, y, 2, p[2]);
          NextPixel3(px, r, t, x, y);
        }
        NextColumn3(px, r, t, x);
      }
      Progress3Done(px, r, t);
      width, height, pixel := words.Length0, words.Length1, px;
      weight := new real[words.Length0, words.Length1]((x, y) => 0.0);
      kind := new ColorSpace[words.Length1](y => RGB);
    }

    /** `write`'s inner loop: the word of pixel (x, y). */
    method EncodePixel(x: int, y: int) returns (color: bv32)
      requires Valid() && 0 <= x < width && 0 <= y < height
      ensures color == EncodedPixel(Pixels()[x][y]) && color == EncodedWords(Pixels(), width, height)[x][y]
    {
      color := 0;
      for l := 0 to DEPTH
        invariant color == Packed(Components(Values(x, y)), l)
      {
        color := (color << 8) | EncodeComponent(pixel[x, y, l]);
      }
      PackedIsEncoded(Values(x, y));
    }

    /** `write` before the file is encoded: the packed word of every pixel. */
    method Encode() returns (words: array2<bv32>)
      requires Valid()
      ensures fresh(words) && words.Length0 == width && words.Length1 == height
      ensures forall x, y :: 0 <= x < width && 0 <= y < height ==> words[x, y] == EncodedWords(Pixels(), width, height)[x][y]
    {
      ghost var t := EncodedWords(Pixels(), width, height);
      words := new bv32[width, height];
      for x := 0 to width
        invariant forall i, j :: 0 <= i < x && 0 <= j < height ==> words[i, j] == t[i][j]
      {
        EncodeColumn(words, x);
      }
    }

    /** Column x of `write`'s loop. */
    method EncodeColumn(words: array2<bv32>, x: int)
      requires Valid() && words.Length0 == width && words.Length1 == height && 0 <= x < width
      modifies words
      ensures forall i, j :: 0 <= i < width && 0 <= j < height ==>
        words[i, j] == if i == x then EncodedWords(Pixels(), width, height)[i][j] else old(words[i, j])
    {
      ghost var t := EncodedWords(Pixels(), width, height);
      for y := 0 to height
        invariant forall i, j :: 0 <= i < width && 0 <= j < height ==>
          words[i, j] == if i == x && j < y then t[i][j] else old(words[i, j])
      {
        var color := EncodePixel(x, y);
        words[x, y] := color;
      }
    }

    /** `get`: the sample at the nearest position inside the image. */
    function Get(layer: int, x: int, y: int): (v: real)
      reads this, pixel
      requires Valid() && 0 < width && 0 < height
      ensures 0 <= x < width && 0 <= y < height && 0 <= layer < DEPTH ==> v == pixel[x, y, layer]
      ensures v == Pixels()[Clamp(x, 0, width - 1)][Clamp(y, 0, height - 1)][Clamp(layer, 0, DEPTH - 1)]
    {
      pixel[Clamp(x, 0, width - 1), Clamp(y, 0, height - 1), Clamp(layer, 0, DEPTH - 1)]
    }

    /** `set`. */
    method Set(layer: int, x: int, y: int, v: real)
      requires Valid() && 0 <= x < width && 0 <= y < height && 0 <= layer < DEPTH
      modifies pixel
      ensures Valid() && Pixels() == WithSample(old(Pixels()), width, height, x, y, layer, v)
    {
      pixel[x, y, layer] := v;
      RasterExt(Pixels(), WithSample(old(Pixels()), width, height, x, y, layer, v), width, height, DEPTH);
    }

    /** `getValues`: the three samples of a pixel. */
    function Values(x: int, y: int): (p: seq<real>)
      reads this, pixel
      requires Valid() && 0 <= x < width && 0 <= y < height
      ensures p == Pixels()[x][y]
    {
      Cell3(pixel, x, y)
    }

    /** `turnLeft`: a fresh sample array, rotated a quarter turn; the weights and row tags
        are left as they were. */
    method TurnLeft()
      requires Valid()
      modifies this
      ensures Valid() && width == old(height) && height == old(width)
      ensures Pixels() == Turned(old(Pixels()), old(width), old(height))
      ensures weight == old(weight) && kind == old(kind) && fresh(pixel)
    {
      ghost var r := Pixels();
      var w, h, src := width, height, pixel;
      var px := new real[h, w, DEPTH]((i, j, k) => 0.0);
      for x := 0 to w
        modifies px
        invariant forall i, j, k :: 0 <= i < x && 0 <= j < h && 0 <= k < DEPTH ==> px[j, w - 1 - i, k] == r[i][j][k]
      {
        TurnColumn(src, px, x);
      }
      forall tx, ty, l | 0 <= tx < h && 0 <= ty < w && 0 <= l < DEPTH
        ensures px[tx, ty, l] == Turned(r, w, h)[tx][ty][l]
      {
        var i, j := w - 1 - ty, tx;
        assert px[j, w - 1 - i, l] == r[i][j][l];
      }
      pixel, width, height := px, h, w;
      RasterExt(Pixels(), Turned(r, w, h), h, w, DEPTH);
    }

    /** `turnLeft`'s loop over column x: it becomes column w-1-x of the turned array. */
    static method TurnColumn(src: array3<real>, dst: array3<real>, x: int)
      requires src != dst && src.Length2 == DEPTH && dst.Length2 == DEPTH
      requires dst.Length0 == src.Length1 && dst.Length1 == src.Length0 && 0 <= x < src.Length0
      modifies dst
      ensures forall i, j, k :: 0 <= i < dst.Length0 && 0 <= j < dst.Length1 && 0 <= k < DEPTH ==>
        dst[i, j, k] == if j == src.Length0 - 1 - x then src[x, i, k] else old(dst[i, j, k])
    {
      var c := src.Length0 - 1 - x;
      for y := 0 to src.Length1
        invariant forall i, j, k :: 0 <= i < dst.Length0 && 0 <= j < dst.Length1 && 0 <= k < DEPTH ==>
          dst[i, j, k] == if j == c && i < y then src[x, i, k] else old(dst[i, j, k])
      {
        for z := 0 to DEPTH
          invariant forall i, j, k :: 0 <= i < dst.Length0 && 0 <= j < dst.Length1 && 0 <= k < DEPTH ==>
            dst[i, j, k] == if j == c && (i < y || (i == y && k < z)) then src[x, i, k] else old(dst[i, j, k])
        {
          dst[y, c, z] := src[x, y, z];
        }
      }
    }

    /** `toBlack`: every sample 0. */
    method ToBlack()
      requires Valid()
      modifies pixel
      ensures Valid() && Pixels() == Blackened(old(Pixels()), width, height, {0, 1, 2})
    {
      ghost var r := Pixels();
      ghost var t := Blackened(r, width, height, {0, 1, 2});
      for x := 0 to width
        invariant Progress3(pixel, r, t, x, 0, 0)
      {
        for y := 0 to height
          invariant Progress3(pixel, r, t, x, y, 0)
        {
          Put3(pixel, r, t, x, y, 0, 0.0);
          Put3(pixel, r, t, x, y, 1, 0.0);
          Put3(pixel, r, t, x, y, 2, 0.0);
          NextPixel3(pixel, r, t, x, y);
        }
        NextColumn3(pixel, r, t, x);
      }
      Progress3Done(pixel, r, t);
    }

    /** `layerToBlack`: layer l set to 0, the other layers kept. */
    method LayerToBlack(layer: int)
      requires Valid() && 0 <= layer < DEPTH
      modifies pixel
      ensures Valid() && Pixels() == Blackened(old(Pixels()), width, height, {layer})
    {
      ghost var r := Pixels();
      ghost var t := Blackened(r, width, height, {layer});
      for x := 0 to width
        invariant Progress3(pixel, r, t, x, 0, 0)
      {
        for y := 0 to height
          invariant Progress3(pixel, r, t, x, y, 0)
        {
          Skip3(pixel, r, t, x, y, 0, layer);
          Put3(pixel, r, t, x, y, layer, 0.0);
          Skip3(pixel, r, t, x, y, layer + 1, DEPTH);
          NextPixel3(pixel, r, t, x, y);
        }
        NextColumn3(pixel, r, t, x);
      }
      Progress3Done(pixel, r, t);
    }

    /** `invert`: every sample v becomes 1 - v. */
    method Invert()
      requires Valid()
      modifies pixel
      ensures Valid() && Pixels() == Inverted(old(Pixels()), width, height)
    {
      ghost var r := Pixels();
      ghost var t := Inverted(r, width, height);
      for x := 0 to width
        invariant Progress3(pixel, r, t, x, 0, 0)
      {
        for y := 0 to height
          invariant Progress3(pixel, r, t, x, y, 0)
        {
          for l := 0 to DEPTH
            invariant Progress3(pixel, r, t, x, y, l)
          {
            Put3(pixel, r, t, x, y, l, 1.0 - pixel[x, y, l]);
          }
          NextPixel3(pixel, r, t, x, y);
        }
        NextColumn3(pixel, r, t, x);
      }
      Progress3Done(pixel, r, t);
    }

    /** `weightedPaste`: adds `source[from..from+3]` to pixel (x, y) and one to its weight. */
    method WeightedPaste(source: array<real>, from: int, x: int, y: int)
      requires Valid() && WeightsMatch() && 0 <= x < width && 0 <= y < height
      requires 0 <= from && from + DEPTH <= source.Length
      modifies pixel, weight
      ensures Valid() && WeightsMatch()
      ensures var a := Paste(Accumulator(old(Pixels())[x][y], old(weight[x, y])), source[from..from + DEPTH]);
        Pixels() == old(Pixels())[x := old(Pixels())[x][y := a.sum]] &&
        Weights() == old(Weights())[x := old(Weights())[x][y := a.weight]]
    {
      ghost var r := Pixels();
      ghost var g := Weights();
      ghost var a := Paste(Accumulator(r[x][y], weight[x, y]), source[from..from + DEPTH]);
      ghost var t := r[x := r[x][y := a.sum]];
      ghost var u := g[x := g[x][y := a.weight]];
      PasteSamples(source, from, x, y, r, t);
      WeightStep(x, y, g, u);
    }

    /** The sample loop of `weightedPaste`. */
    method PasteSamples(source: array<real>, from: int, x: int, y: int, ghost r: Raster, ghost t: Raster)
      requires Valid() && 0 <= x < width && 0 <= y < height
      requires 0 <= from && from + DEPTH <= source.Length
      requires r == Pixels() && IsImage(t, width, height)
      requires forall i, j, l :: 0 <= i < width && 0 <= j < height && 0 <= l < DEPTH ==>
        t[i][j][l] == if i == x && j == y then r[i][j][l] + source[from + l] else r[i][j][l]
      modifies pixel
      ensures Pixels() == t
    {
      Progress3Start(pixel, r, t, x, y);
      for l := 0 to DEPTH
        invariant Progress3(pixel, r, t, x, y, l)
      {
        Put3(pixel, r, t, x, y, l, pixel[x, y, l] + source[from + l]);
      }
      NextPixel3(pixel, r, t, x, y);
      SkipColumnRest3(pixel, r, t, x, y + 1);
      Progress3Finish(pixel, r, t, x + 1);
    }

    /** The weight increment of `weightedPaste`. */
    method WeightStep(x: int, y: int, ghost g: Grid, ghost u: Grid)
      requires WeightsMatch() && 0 <= x < width && 0 <= y < height
      requires g == Weights() && IsGrid(u, width, height)
      requires forall i, j :: 0 <= i < width && 0 <= j < height ==>
        u[i][j] == if i == x && j == y then g[i][j] + 1.0 else g[i][j]
      modifies weight
      ensures Weights() == u
    {
      Progress2Start(weight, g, u, x);
      SkipCells2(weight, g, u, x, 0, y);
      Put2(weight, g, u, x, y, weight[x, y] + 1.0);
      SkipCells2(weight, g, u, x, y + 1, height);
      NextColumn2(weight, g, u, x);
      Progress2Finish(weight, g, u, x + 1);
    }

    /** `normalizeWeights`: every pixel with non-zero weight is divided by it and its weight set to 1. */
    method NormalizeWeights()
      requires Valid() && WeightsMatch()
      modifies pixel, weight
      ensures Valid() && WeightsMatch()
      ensures Pixels() == WeightsDivided(old(Pixels()), old(Weights()), width, height)
      ensures Weights() == WeightsReset(old(Weights()), width, height)
    {
      ghost var r := Pixels();
      ghost var g := Weights();
      ghost var t := WeightsDivided(r, g, width, height);
      ghost var u := WeightsReset(g, width, height);
      for x := 0 to width
        invariant Progress3(pixel, r, t, x, 0, 0)
        invariant Progress2(weight, g, u, x, 0)
      {
        for y := 0 to height
          invariant Progress3(pixel, r, t, x, y, 0)
          invariant Progress2(weight, g, u, x, y)
        {
          NormalizeWeightsPixel(x, y, r, g, t, u);
        }
        NextColumn3(pixel, r, t, x);
        NextColumn2(weight, g, u, x);
      }
      Progress3Done(pixel, r, t);
      Progress2Done(weight, g, u);
    }

    /** Pixel (x, y) of `normalizeWeights`. */
    method NormalizeWeightsPixel(x: int, y: int, ghost r: Raster, ghost g: Grid, ghost t: Raster, ghost u: Grid)
      requires Valid() && WeightsMatch() && 0 <= x < width && 0 <= y < height
      requires IsImage(r, width, height) && IsGrid(g, width, height)
      requires t == WeightsDivided(r, g, width, height) && u == WeightsReset(g, width, height)
      requires Progress3(pixel, r, t, x, y, 0) && Progress2(weight, g, u, x, y)
      modifies pixel, weight
      ensures Progress3(pixel, r, t, x, y + 1, 0) && Progress2(weight, g, u, x, y + 1)
    {
      if weight[x, y] == 0.0 {
        Skip3(pixel, r, t, x, y, 0, DEPTH);
        NextPixel3(pixel, r, t, x, y);
        Skip2(weight, g, u, x, y);
        return;
      }
      for l := 0 to DEPTH
        invariant Progress3(pixel, r, t, x, y, l)
        invariant Progress2(weight, g, u, x, y) && weight[x, y] == g[x][y] != 0.0
      {
        Put3(pixel, r, t, x, y, l, Share(pixel[x, y, l], weight[x, y]));
      }
      NextPixel3(pixel, r, t, x, y);
      Put2(weight, g, u, x, y, 1.0);
    }

    /** The extremes `normalize` finds: a running minimum from Float.MAX_VALUE and a running
        maximum from Float.MIN_VALUE over every sample, in x, y, layer order. */
    method Extremes() returns (lo: real, hi: real)
      requires Valid()
      ensures lo == MinSample(Pixels()) && hi == MaxSample(Pixels())
    {
      ghost var r := Pixels();
      lo, hi := FLOAT_MAX, FLOAT_MIN_VALUE;
      for x := 0 to width
        invariant lo == ScanRaster(Min, r, x, FLOAT_MAX) && hi == ScanRaster(Max, r, x, FLOAT_MIN_VALUE)
      {
        lo, hi := ExtremesColumn(x, lo, hi);
      }
    }

    /** The running extremes carried down column x. */
    method ExtremesColumn(x: int, lo0: real, hi0: real) returns (lo: real, hi: real)
      requires Valid() && 0 <= x < width
      ensures lo == ScanColumn(Min, Pixels()[x], height, lo0) && hi == ScanColumn(Max, Pixels()[x], height, hi0)
    {
      ghost var c := Pixels()[x];
      lo, hi := lo0, hi0;
      for y := 0 to height
        invariant lo == ScanColumn(Min, c, y, lo0) && hi == ScanColumn(Max, c, y, hi0)
      {
        lo, hi := ExtremesPixel(x, y, lo, hi);
      }
    }

    /** The running extremes carried over the layers of pixel (x, y). */
    method ExtremesPixel(x: int, y: int, lo0: real, hi0: real) returns (lo: real, hi: real)
      requires Valid() && 0 <= x < width && 0 <= y < height
      ensures lo == ScanPixel(Min, Pixels()[x][y], DEPTH, lo0) && hi == ScanPixel(Max, Pixels()[x][y], DEPTH, hi0)
    {
      ghost var p := Pixels()[x][y];
      lo, hi := lo0, hi0;
      for l := 0 to DEPTH
        invariant lo == ScanPixel(Min, p, l, lo0) && hi == ScanPixel(Max, p, l, hi0)
      {
        if pixel[x, y, l] > hi {
          hi := pixel[x, y, l];
        }
        if pixel[x, y, l] < lo {
          lo := pixel[x, y, l];
        }
      }
    }

    /** `normalize`: unless the extremes found coincide, maps the samples linearly from them onto [-1, 1]. */
    method Normalize()
      requires Valid()
      modifies pixel
      ensures Valid() && Pixels() == Normalized(old(Pixels()), width, height)
    {
      var lo, hi := Extremes();
      if hi == lo {
        return;
      }
      ghost var r := Pixels();
      ghost var t := Rescaled(r, width, height, lo, hi);
      for x := 0 to width
        invariant Progress3(pixel, r, t, x, 0, 0)
      {
        for y := 0 to height
          invariant Progress3(pixel, r, t, x, y, 0)
        {
          for l := 0 to DEPTH
            invariant Progress3(pixel, r, t, x, y, l)
          {
            Put3(pixel, r, t, x, y, l, Rescale(pixel[x, y, l], lo, hi));
          }
          NextPixel3(pixel, r, t, x, y);
        }
        NextColumn3(pixel, r, t, x);
      }
      Progress3Done(pixel, r, t);
    }
  }
}
