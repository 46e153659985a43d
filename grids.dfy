/** Dense rectangular rasters as values, the snapshots that connect Dafny arrays to them,
    sums over them, and the row-major flattening written out for the accelerator buffers. */
module Grids {

  /** One channel indexed [x][y], as a Java `float[width][height]`. */
  type Grid = seq<seq<real>>

  /** A multi-layer image indexed [x][y][layer], as a Java `float[width][height][depth]`. */
  type Raster = seq<seq<seq<real>>>

  ghost predicate IsGrid(g: Grid, w: int, h: int) {
    |g| == w && forall x :: 0 <= x < w ==> |g[x]| == h
  }

  ghost predicate IsRaster(r: Raster, w: int, h: int, d: int) {
    |r| == w && forall x :: 0 <= x < w ==> IsLine(r[x], h, d)
  }

  ghost predicate IsLine(c: seq<seq<real>>, h: int, d: int) {
    |c| == h && forall y :: 0 <= y < h ==> |c[y]| == d
  }

  /** The value held by a two-dimensional array. */
  ghost function Snapshot(a: array2<real>): (g: Grid)
    reads a
    ensures IsGrid(g, a.Length0, a.Length1)
    ensures forall x, y :: 0 <= x < a.Length0 && 0 <= y < a.Length1 ==> g[x][y] == a[x, y]
  {
    seq(a.Length0, x requires 0 <= x < a.Length0 reads a =>
      seq(a.Length1, y requires 0 <= y < a.Length1 reads a => a[x, y]))
  }

  /** The value held by a three-dimensional array. */
  ghost function Snapshot3(a: array3<real>): (r: Raster)
    reads a
    ensures IsRaster(r, a.Length0, a.Length1, a.Length2)
    ensures forall x, y, l :: 0 <= x < a.Length0 && 0 <= y < a.Length1 && 0 <= l < a.Length2 ==>
      r[x][y][l] == a[x, y, l]
  {
    seq(a.Length0, x requires 0 <= x < a.Length0 reads a =>
      seq(a.Length1, y requires 0 <= y < a.Length1 reads a =>
        seq(a.Length2, l requires 0 <= l < a.Length2 reads a => a[x, y, l])))
  }

  /** The samples of cell (x, y) of a three-dimensional array. */
  function Cell3(a: array3<real>, x: int, y: int): (p: seq<real>)
    reads a
    requires 0 <= x < a.Length0 && 0 <= y < a.Length1
    ensures p == Snapshot3(a)[x][y]
  {
    seq(a.Length2, l requires 0 <= l < a.Length2 reads a => a[x, y, l])
  }

  /** Two grids of the same shape that agree cell by cell are equal. */
  lemma GridExt(g: Grid, k: Grid, w: int, h: int)
    requires IsGrid(g, w, h) && IsGrid(k, w, h)
    requires forall x, y :: 0 <= x < w && 0 <= y < h ==> g[x][y] == k[x][y]
    ensures g == k
  {
    forall x | 0 <= x < w ensures g[x] == k[x] {
      assert |g[x]| == |k[x]| == h;
      assert forall y :: 0 <= y < h ==> g[x][y] == k[x][y];
    }
  }

  /** Two rasters of the same shape that agree sample by sample are equal. */
  lemma RasterExt(r: Raster, s: Raster, w: int, h: int, d: int)
    requires IsRaster(r, w, h, d) && IsRaster(s, w, h, d)
    requires forall x, y, l :: 0 <= x < w && 0 <= y < h && 0 <= l < d ==> r[x][y][l] == s[x][y][l]
    ensures r == s
  {
    forall x | 0 <= x < w ensures r[x] == s[x] {
      forall y | 0 <= y < h ensures r[x][y] == s[x][y] {
        assert |r[x][y]| == |s[x][y]| == d;
        assert forall l :: 0 <= l < d ==> r[x][y][l] == s[x][y][l];
      }
    }
  }

  // ---------------------------------------------------------------------------
  // Sums in the order of the source's nested loops: x outer, y inner.

  /** The sum of the first n elements of a line. */
  function SumLine(s: seq<real>, n: int): real
    requires 0 <= n <= |s|
  {
    if n == 0 then 0.0 else SumLine(s, n - 1) + s[n - 1]
  }

  /** The sum of the first n columns of a grid. */
  function SumColumns(g: Grid, n: int): real
    requires 0 <= n <= |g|
  {
    if n == 0 then 0.0 else SumColumns(g, n - 1) + SumLine(g[n - 1], |g[n - 1]|)
  }

  /** The sum of every cell of a grid. */
  function Sum(g: Grid): real {
    SumColumns(g, |g|)
  }

  ghost predicate AllNonNegative(g: Grid) {
    forall x, y :: 0 <= x < |g| && 0 <= y < |g[x]| ==> 0.0 <= g[x][y]
  }

  lemma {:induction false} SumLineNonNegative(s: seq<real>, n: int)
    requires 0 <= n <= |s|
    requires forall y :: 0 <= y < |s| ==> 0.0 <= s[y]
    ensures 0.0 <= SumLine(s, n)
    ensures SumLine(s, n) == 0.0 <==> forall y :: 0 <= y < n ==> s[y] == 0.0
  {
    if n > 0 {
      SumLineNonNegative(s, n - 1);
    }
  }

  lemma {:induction false} SumColumnsNonNegative(g: Grid, n: int)
    requires 0 <= n <= |g| && AllNonNegative(g)
    ensures 0.0 <= SumColumns(g, n)
    ensures SumColumns(g, n) == 0.0 <==>
      forall x, y :: 0 <= x < n && 0 <= y < |g[x]| ==> g[x][y] == 0.0
  {
    if n > 0 {
      SumColumnsNonNegative(g, n - 1);
      SumLineNonNegative(g[n - 1], |g[n - 1]|);
    }
  }

  /** A sum of non-negative cells is non-negative, and it is zero exactly when every cell is. */
  lemma SumNonNegative(g: Grid)
    requires AllNonNegative(g)
    ensures 0.0 <= Sum(g)
    ensures Sum(g) == 0.0 <==> forall x, y :: 0 <= x < |g| && 0 <= y < |g[x]| ==> g[x][y] == 0.0
  {
    SumColumnsNonNegative(g, |g|);
  }

  // ---------------------------------------------------------------------------
  // Row-major flattening: element y*w+x holds cell (x, y).

  lemma {:induction false} MulMonotone(a: int, b: int, c: int)
    requires a <= b && 0 <= c
    ensures a * c <= b * c
  {
    if c > 0 {
      MulMonotone(a, b, c - 1);
      assert a * c == a * (c - 1) + a && b * c == b * (c - 1) + b;
    }
  }

  lemma CellIndexInRange(x: int, y: int, w: int, h: int)
    requires 0 <= x < w && 0 <= y < h
    ensures 0 <= y * w + x < w * h
  {
    MulMonotone(0, y, w);
    MulMonotone(y, h - 1, w);
    assert (h - 1) * w == h * w - w;
  }

  lemma CellIndexSplits(x: int, y: int, w: int)
    requires 0 <= x < w && 0 <= y
    ensures (y * w + x) / w == y && (y * w + x) % w == x
  {
    var p := y * w + x;
    var q, r := p / w, p % w;
    assert q * w + r == p && 0 <= r < w;
    if q > y {
      MulMonotone(y + 1, q, w);
    } else if q < y {
      MulMonotone(q + 1, y, w);
    }
  }

  lemma LinearIndexSplits(p: int, w: int, h: int)
    requires 0 <= h && 0 <= p < w * h
    ensures 0 < w && 0 <= p % w < w && 0 <= p / w < h && (p / w) * w + p % w == p
  {
    if w <= 0 {
      MulMonotone(w, 0, h);
    } else if p / w >= h {
      MulMonotone(h, p / w, w);
    }
  }

  /** The source's `getValues1D` / `getGX1D` / `getGY1D` layout: row 0, then row 1, ... */
  function Flatten(g: Grid, w: int, h: int): (s: seq<real>)
    requires 0 <= w && 0 <= h && IsGrid(g, w, h)
    ensures |s| == w * h
  {
    Rows(g, w, h, h)
  }

  /** Rows 0 .. n-1 of a grid, one after the other. */
  function Rows(g: Grid, w: int, h: int, n: int): (s: seq<real>)
    requires 0 <= w && 0 <= n <= h && IsGrid(g, w, h)
    ensures |s| == n * w
    decreases n
  {
    if n == 0 then [] else Rows(g, w, h, n - 1) + seq(w, x requires 0 <= x < w => g[x][n - 1])
  }

  /** Element y*w+x of the flattened grid is cell (x, y). */
  lemma FlattenAt(g: Grid, w: int, h: int, x: int, y: int)
    requires 0 <= w && 0 <= h && IsGrid(g, w, h) && 0 <= x < w && 0 <= y < h
    ensures 0 <= y * w + x < w * h && Flatten(g, w, h)[y * w + x] == g[x][y]
  {
    CellIndexInRange(x, y, w, h);
    RowsAt(g, w, h, h, x, y);
  }

  lemma {:induction false} RowsAt(g: Grid, w: int, h: int, n: int, x: int, y: int)
    requires 0 <= w && 0 <= n <= h && IsGrid(g, w, h) && 0 <= x < w && 0 <= y < n
    ensures 0 <= y * w + x < n * w && Rows(g, w, h, n)[y * w + x] == g[x][y]
    decreases n
  {
    CellIndexInRange(x, y, w, n);
    if y < n - 1 {
      RowsAt(g, w, h, n - 1, x, y);
    } else {
      assert y * w == (n - 1) * w;
    }
  }

  /** The source's `setValues1D` layout: cell (x, y) is read from element y*w+x. */
  function Unflatten(s: seq<real>, w: int, h: int): (g: Grid)
    requires 0 <= w && 0 <= h && w * h <= |s|
    ensures IsGrid(g, w, h)
  {
    seq(w, x requires 0 <= x < w =>
      seq(h, y requires 0 <= y < h =>
        CellIndexInRange(x, y, w, h);
        s[y * w + x]))
  }

  /** Cell (x, y) of the unflattened buffer is element y*w+x. */
  lemma UnflattenAt(s: seq<real>, w: int, h: int, x: int, y: int)
    requires 0 <= w && 0 <= h && w * h <= |s| && 0 <= x < w && 0 <= y < h
    ensures 0 <= y * w + x < w * h && Unflatten(s, w, h)[x][y] == s[y * w + x]
  {
    CellIndexInRange(x, y, w, h);
  }

  /** Unflattening a flattened grid gives the grid back. */
  lemma UnflattenFlatten(g: Grid, w: int, h: int)
    requires 0 <= w && 0 <= h && IsGrid(g, w, h)
    ensures Unflatten(Flatten(g, w, h), w, h) == g
  {
    var u := Unflatten(Flatten(g, w, h), w, h);
    forall x, y | 0 <= x < w && 0 <= y < h ensures u[x][y] == g[x][y] {
      FlattenAt(g, w, h, x, y);
      UnflattenAt(Flatten(g, w, h), w, h, x, y);
    }
    GridExt(u, g, w, h);
  }

  /** Flattening an unflattened buffer of exactly w*h elements gives the buffer back. */
  lemma FlattenUnflatten(s: seq<real>, w: int, h: int)
    requires 0 <= w && 0 <= h && |s| == w * h
    ensures Flatten(Unflatten(s, w, h), w, h) == s
  {
    var u := Unflatten(s, w, h);
    var t := Flatten(u, w, h);
    forall p | 0 <= p < |s| ensures t[p] == s[p] {
      LinearIndexSplits(p, w, h);
      var x, y := p % w, p / w;
      FlattenAt(u, w, h, x, y);
      UnflattenAt(s, w, h, x, y);
    }
  }

  /** The nearest value of [lo, hi] to v, as the source's edge-clamped reads compute it. */
  function Clamp(v: int, lo: int, hi: int): (r: int)
    requires lo <= hi
    ensures lo <= r <= hi
    ensures lo <= v <= hi ==> r == v
    ensures v < lo ==> r == lo
    ensures hi < v ==> r == hi
  {
    if v < lo then lo else if v > hi then hi else v
  }

  // ---------------------------------------------------------------------------
  // Progress of a nested loop that rewrites an array cell by cell in x, y, layer order.

  /** Cell (i, j, k) comes before cell (x, y, l) in x-major loop order. */
  predicate Before(i: int, j: int, k: int, x: int, y: int, l: int) {
    i < x || (i == x && (j < y || (j == y && k < l)))
  }

  /** Every cell of a before (x, y, l) holds its value in t, every later cell its value in r. */
  ghost predicate Progress3(a: array3<real>, r: Raster, t: Raster, x: int, y: int, l: int)
    reads a
    requires IsRaster(r, a.Length0, a.Length1, a.Length2) && IsRaster(t, a.Length0, a.Length1, a.Length2)
  {
    forall i, j, k :: 0 <= i < a.Length0 && 0 <= j < a.Length1 && 0 <= k < a.Length2 ==>
      a[i, j, k] == if Before(i, j, k, x, y, l) then t[i][j][k] else r[i][j][k]
  }

  /** Writes cell (x, y, l) of a with its value in t, advancing the progress by one cell. */
  method Put3(a: array3<real>, ghost r: Raster, ghost t: Raster, x: int, y: int, l: int, v: real)
    requires IsRaster(r, a.Length0, a.Length1, a.Length2) && IsRaster(t, a.Length0, a.Length1, a.Length2)
    requires 0 <= x < a.Length0 && 0 <= y < a.Length1 && 0 <= l < a.Length2
    requires Progress3(a, r, t, x, y, l) && v == t[x][y][l]
    modifies a
    ensures Progress3(a, r, t, x, y, l + 1)
  {
    a[x, y, l] := v;
  }

  /** Cells l..m-1 of pixel (x, y) that t leaves as in r need no write. */
  lemma Skip3(a: array3<real>, r: Raster, t: Raster, x: int, y: int, l: int, m: int)
    requires IsRaster(r, a.Length0, a.Length1, a.Length2) && IsRaster(t, a.Length0, a.Length1, a.Length2)
    requires 0 <= x < a.Length0 && 0 <= y < a.Length1 && 0 <= l <= m <= a.Length2
    requires Progress3(a, r, t, x, y, l)
    requires forall k :: l <= k < m ==> t[x][y][k] == r[x][y][k]
    ensures Progress3(a, r, t, x, y, m)
  {
  }

  lemma NextPixel3(a: array3<real>, r: Raster, t: Raster, x: int, y: int)
    requires IsRaster(r, a.Length0, a.Length1, a.Length2) && IsRaster(t, a.Length0, a.Length1, a.Length2)
    requires Progress3(a, r, t, x, y, a.Length2)
    ensures Progress3(a, r, t, x, y + 1, 0)
  {
  }

  lemma NextColumn3(a: array3<real>, r: Raster, t: Raster, x: int)
    requires IsRaster(r, a.Length0, a.Length1, a.Length2) && IsRaster(t, a.Length0, a.Length1, a.Length2)
    requires Progress3(a, r, t, x, a.Length1, 0)
    ensures Progress3(a, r, t, x + 1, 0, 0)
  {
  }

  /** Once the loop has passed every column, the array holds t. */
  lemma Progress3Done(a: array3<real>, r: Raster, t: Raster)
    requires IsRaster(r, a.Length0, a.Length1, a.Length2) && IsRaster(t, a.Length0, a.Length1, a.Length2)
    requires Progress3(a, r, t, a.Length0, 0, 0)
    ensures Snapshot3(a) == t
  {
    RasterExt(Snapshot3(a), t, a.Length0, a.Length1, a.Length2);
  }

  /** Cell (i, j, k) comes before cell (x, y) of layer l in layer-major loop order. */
  predicate BeforeL(i: int, j: int, k: int, l: int, x: int, y: int) {
    k < l || (k == l && (i < x || (i == x && j < y)))
  }

  /** Progress3 for loops nested layer, x, y: every cell before (x, y) of layer l holds its
      value in t, every later cell its value in r. */
  ghost predicate ProgressL(a: array3<real>, r: Raster, t: Raster, l: int, x: int, y: int)
    reads a
    requires IsRaster(r, a.Length0, a.Length1, a.Length2) && IsRaster(t, a.Length0, a.Length1, a.Length2)
  {
    forall i, j, k :: 0 <= i < a.Length0 && 0 <= j < a.Length1 && 0 <= k < a.Length2 ==>
      a[i, j, k] == if BeforeL(i, j, k, l, x, y) then t[i][j][k] else r[i][j][k]
  }

  /** Writes cell (x, y) of layer l with its value in t, advancing the progress by one cell. */
  method PutL(a: array3<real>, ghost r: Raster, ghost t: Raster, l: int, x: int, y: int, v: real)
    requires IsRaster(r, a.Length0, a.Length1, a.Length2) && IsRaster(t, a.Length0, a.Length1, a.Length2)
    requires 0 <= x < a.Length0 && 0 <= y < a.Length1 && 0 <= l < a.Length2
    requires ProgressL(a, r, t, l, x, y) && v == t[x][y][l]
    modifies a
    ensures ProgressL(a, r, t, l, x, y + 1)
  {
    a[x, y, l] := v;
  }

  lemma NextColumnL(a: array3<real>, r: Raster, t: Raster, l: int, x: int)
    requires IsRaster(r, a.Length0, a.Length1, a.Length2) && IsRaster(t, a.Length0, a.Length1, a.Length2)
    requires ProgressL(a, r, t, l, x, a.Length1)
    ensures ProgressL(a, r, t, l, x + 1, 0)
  {
  }

  lemma NextLayerL(a: array3<real>, r: Raster, t: Raster, l: int)
    requires IsRaster(r, a.Length0, a.Length1, a.Length2) && IsRaster(t, a.Length0, a.Length1, a.Length2)
    requires ProgressL(a, r, t, l, a.Length0, 0)
    ensures ProgressL(a, r, t, l + 1, 0, 0)
  {
  }

  lemma ProgressLDone(a: array3<real>, r: Raster, t: Raster)
    requires IsRaster(r, a.Length0, a.Length1, a.Length2) && IsRaster(t, a.Length0, a.Length1, a.Length2)
    requires ProgressL(a, r, t, a.Length2, 0, 0)
    ensures Snapshot3(a) == t
  {
    RasterExt(Snapshot3(a), t, a.Length0, a.Length1, a.Length2);
  }

  /** The two-dimensional counterpart of Progress3, in x, y order. */
  ghost predicate Progress2(a: array2<real>, g: Grid, t: Grid, x: int, y: int)
    reads a
    requires IsGrid(g, a.Length0, a.Length1) && IsGrid(t, a.Length0, a.Length1)
  {
    forall i, j :: 0 <= i < a.Length0 && 0 <= j < a.Length1 ==>
      a[i, j] == if Before(i, j, 0, x, y, 0) then t[i][j] else g[i][j]
  }

  method Put2(a: array2<real>, ghost g: Grid, ghost t: Grid, x: int, y: int, v: real)
    requires IsGrid(g, a.Length0, a.Length1) && IsGrid(t, a.Length0, a.Length1)
    requires 0 <= x < a.Length0 && 0 <= y < a.Length1
    requires Progress2(a, g, t, x, y) && v == t[x][y]
    modifies a
    ensures Progress2(a, g, t, x, y + 1)
  {
    a[x, y] := v;
  }

  /** Put2 on two distinct arrays of the same shape at once. */
  method PutBoth2(a: array2<real>, b: array2<real>, ghost g: Grid, ghost t: Grid, ghost h: Grid, ghost u: Grid,
                  x: int, y: int, v: real, w: real)
    requires a != b && a.Length0 == b.Length0 && a.Length1 == b.Length1
    requires IsGrid(g, a.Length0, a.Length1) && IsGrid(t, a.Length0, a.Length1)
    requires IsGrid(h, a.Length0, a.Length1) && IsGrid(u, a.Length0, a.Length1)
    requires 0 <= x < a.Length0 && 0 <= y < a.Length1
    requires Progress2(a, g, t, x, y) && v == t[x][y]
    requires Progress2(b, h, u, x, y) && w == u[x][y]
    modifies a, b
    ensures Progress2(a, g, t, x, y + 1) && Progress2(b, h, u, x, y + 1)
  {
    a[x, y] := v;
    b[x, y] := w;
  }

  lemma Skip2(a: array2<real>, g: Grid, t: Grid, x: int, y: int)
    requires IsGrid(g, a.Length0, a.Length1) && IsGrid(t, a.Length0, a.Length1)
    requires 0 <= x < a.Length0 && 0 <= y < a.Length1
    requires Progress2(a, g, t, x, y) && t[x][y] == g[x][y]
    ensures Progress2(a, g, t, x, y + 1)
  {
  }

  lemma NextColumn2(a: array2<real>, g: Grid, t: Grid, x: int)
    requires IsGrid(g, a.Length0, a.Length1) && IsGrid(t, a.Length0, a.Length1)
    requires Progress2(a, g, t, x, a.Length1)
    ensures Progress2(a, g, t, x + 1, 0)
  {
  }

  lemma Progress2Done(a: array2<real>, g: Grid, t: Grid)
    requires IsGrid(g, a.Length0, a.Length1) && IsGrid(t, a.Length0, a.Length1)
    requires Progress2(a, g, t, a.Length0, 0)
    ensures Snapshot(a) == t
  {
    GridExt(Snapshot(a), t, a.Length0, a.Length1);
  }

  /** Moving the progress point along column x over cells t leaves as in g, in either
      direction and past either end of the column. */
  lemma SkipCells2(a: array2<real>, g: Grid, t: Grid, x: int, y0: int, y1: int)
    requires IsGrid(g, a.Length0, a.Length1) && IsGrid(t, a.Length0, a.Length1)
    requires Progress2(a, g, t, x, y0)
    requires 0 <= x < a.Length0 ==>
      forall j :: 0 <= j < a.Length1 && (y0 <= j < y1 || y1 <= j < y0) ==> t[x][j] == g[x][j]
    ensures Progress2(a, g, t, x, y1)
  {
  }

  /** A whole column that t leaves as in g, or a column outside the array, needs no write. */
  lemma SkipColumn2(a: array2<real>, g: Grid, t: Grid, x: int)
    requires IsGrid(g, a.Length0, a.Length1) && IsGrid(t, a.Length0, a.Length1)
    requires Progress2(a, g, t, x, 0)
    requires 0 <= x < a.Length0 ==> forall j :: 0 <= j < a.Length1 ==> t[x][j] == g[x][j]
    ensures Progress2(a, g, t, x + 1, 0)
  {
  }

  /** Before the first written column x0, every earlier column t leaves as in g. */
  lemma Progress2Start(a: array2<real>, g: Grid, t: Grid, x0: int)
    requires IsGrid(g, a.Length0, a.Length1) && IsGrid(t, a.Length0, a.Length1)
    requires Snapshot(a) == g
    requires forall i, j :: 0 <= i < a.Length0 && 0 <= j < a.Length1 && i < x0 ==> t[i][j] == g[i][j]
    ensures Progress2(a, g, t, x0, 0)
  {
  }

  /** After the last written column, every later column t leaves as in g. */
  lemma Progress2Finish(a: array2<real>, g: Grid, t: Grid, x1: int)
    requires IsGrid(g, a.Length0, a.Length1) && IsGrid(t, a.Length0, a.Length1)
    requires Progress2(a, g, t, x1, 0)
    requires forall i, j :: 0 <= i < a.Length0 && 0 <= j < a.Length1 && x1 <= i ==> t[i][j] == g[i][j]
    ensures Snapshot(a) == t
  {
    GridExt(Snapshot(a), t, a.Length0, a.Length1);
  }

  /** Before cell (x, y), t leaves every sample as in r. */
  lemma Progress3Start(a: array3<real>, r: Raster, t: Raster, x: int, y: int)
    requires IsRaster(r, a.Length0, a.Length1, a.Length2) && IsRaster(t, a.Length0, a.Length1, a.Length2)
    requires Snapshot3(a) == r
    requires forall i, j, k :: 0 <= i < a.Length0 && 0 <= j < a.Length1 && 0 <= k < a.Length2 && Before(i, j, 0, x, y, 0) ==>
      t[i][j][k] == r[i][j][k]
    ensures Progress3(a, r, t, x, y, 0)
  {
  }

  /** The rest of column x from pixel y on, which t leaves as in r, needs no write. */
  lemma SkipColumnRest3(a: array3<real>, r: Raster, t: Raster, x: int, y: int)
    requires IsRaster(r, a.Length0, a.Length1, a.Length2) && IsRaster(t, a.Length0, a.Length1, a.Length2)
    requires 0 <= x < a.Length0 && 0 <= y <= a.Length1
    requires Progress3(a, r, t, x, y, 0)
    requires forall j, k :: y <= j < a.Length1 && 0 <= k < a.Length2 ==> t[x][j][k] == r[x][j][k]
    ensures Progress3(a, r, t, x + 1, 0, 0)
  {
  }

  /** Pixel (x, y), not yet reached, still holds its original samples. */
  lemma PendingPixel3(a: array3<real>, r: Raster, t: Raster, x: int, y: int)
    requires IsRaster(r, a.Length0, a.Length1, a.Length2) && IsRaster(t, a.Length0, a.Length1, a.Length2)
    requires 0 <= x < a.Length0 && 0 <= y < a.Length1
    requires Progress3(a, r, t, x, y, 0)
    ensures Snapshot3(a)[x][y] == r[x][y]
  {
    assert forall k :: 0 <= k < a.Length2 ==> Snapshot3(a)[x][y][k] == r[x][y][k];
  }

  /** After the last written column, every later column t leaves as in r. */
  lemma Progress3Finish(a: array3<real>, r: Raster, t: Raster, x1: int)
    requires IsRaster(r, a.Length0, a.Length1, a.Length2) && IsRaster(t, a.Length0, a.Length1, a.Length2)
    requires Progress3(a, r, t, x1, 0, 0)
    requires forall i, j, k :: 0 <= i < a.Length0 && 0 <= j < a.Length1 && 0 <= k < a.Length2 && x1 <= i ==>
      t[i][j][k] == r[i][j][k]
    ensures Snapshot3(a) == t
  {
    RasterExt(Snapshot3(a), t, a.Length0, a.Length1, a.Length2);
  }

  // ---------------------------------------------------------------------------
  // A rectangle [x0, x1) x [y0, y1) of a two-dimensional array already holding its final
  // values t while every other cell still holds its original value g; the rectangle grows
  // by one cell per write.

  ghost predicate Region(a: array2<real>, g: Grid, t: Grid, x0: int, x1: int, y0: int, y1: int)
    reads a
    requires IsGrid(g, a.Length0, a.Length1) && IsGrid(t, a.Length0, a.Length1)
  {
    forall i, j :: 0 <= i < a.Length0 && 0 <= j < a.Length1 ==>
      a[i, j] == if x0 <= i < x1 && y0 <= j < y1 then t[i][j] else g[i][j]
  }

  lemma RegionStart(a: array2<real>, g: Grid, t: Grid, x0: int, x1: int, y0: int, y1: int)
    requires IsGrid(g, a.Length0, a.Length1) && IsGrid(t, a.Length0, a.Length1)
    requires Snapshot(a) == g && (x1 <= x0 || y1 <= y0)
    ensures Region(a, g, t, x0, x1, y0, y1)
  {
  }

  /** The rectangle is a row segment and grows to the right. */
  method PutRight(a: array2<real>, ghost g: Grid, ghost t: Grid, x0: int, x1: int, y0: int, y1: int, v: real)
    requires IsGrid(g, a.Length0, a.Length1) && IsGrid(t, a.Length0, a.Length1)
    requires x0 <= x1 && 0 <= x1 < a.Length0 && 0 <= y0 < a.Length1 && y1 == y0 + 1
    requires Region(a, g, t, x0, x1, y0, y1) && v == t[x1][y0]
    modifies a
    ensures Region(a, g, t, x0, x1 + 1, y0, y1)
  {
    a[x1, y0] := v;
  }

  /** The rectangle is a row segment and grows to the left. */
  method PutLeft(a: array2<real>, ghost g: Grid, ghost t: Grid, x0: int, x1: int, y0: int, y1: int, v: real)
    requires IsGrid(g, a.Length0, a.Length1) && IsGrid(t, a.Length0, a.Length1)
    requires x0 <= x1 && 0 <= x0 - 1 < a.Length0 && 0 <= y0 < a.Length1 && y1 == y0 + 1
    requires Region(a, g, t, x0, x1, y0, y1) && v == t[x0 - 1][y0]
    modifies a
    ensures Region(a, g, t, x0 - 1, x1, y0, y1)
  {
    a[x0 - 1, y0] := v;
  }

  /** The rectangle is a column segment and grows downwards. */
  method PutBelow(a: array2<real>, ghost g: Grid, ghost t: Grid, x0: int, x1: int, y0: int, y1: int, v: real)
    requires IsGrid(g, a.Length0, a.Length1) && IsGrid(t, a.Length0, a.Length1)
    requires y0 <= y1 && 0 <= y1 < a.Length1 && 0 <= x0 < a.Length0 && x1 == x0 + 1
    requires Region(a, g, t, x0, x1, y0, y1) && v == t[x0][y1]
    modifies a
    ensures Region(a, g, t, x0, x1, y0, y1 + 1)
  {
    a[x0, y1] := v;
  }

  /** The rectangle is a column segment and grows upwards. */
  method PutAbove(a: array2<real>, ghost g: Grid, ghost t: Grid, x0: int, x1: int, y0: int, y1: int, v: real)
    requires IsGrid(g, a.Length0, a.Length1) && IsGrid(t, a.Length0, a.Length1)
    requires y0 <= y1 && 0 <= y0 - 1 < a.Length1 && 0 <= x0 < a.Length0 && x1 == x0 + 1
    requires Region(a, g, t, x0, x1, y0, y1) && v == t[x0][y0 - 1]
    modifies a
    ensures Region(a, g, t, x0, x1, y0 - 1, y1)
  {
    a[x0, y0 - 1] := v;
  }

  /** Once the cells outside the rectangle already agree, the array holds t. */
  lemma RegionDone(a: array2<real>, g: Grid, t: Grid, x0: int, x1: int, y0: int, y1: int)
    requires IsGrid(g, a.Length0, a.Length1) && IsGrid(t, a.Length0, a.Length1)
    requires Region(a, g, t, x0, x1, y0, y1)
    requires forall i, j :: 0 <= i < a.Length0 && 0 <= j < a.Length1 && !(x0 <= i < x1 && y0 <= j < y1) ==>
      t[i][j] == g[i][j]
    ensures Snapshot(a) == t
  {
    GridExt(Snapshot(a), t, a.Length0, a.Length1);
  }
}
