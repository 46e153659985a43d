/** `SelectiveBlur.execute`: every sample becomes the mean, on its own layer, of the pixels
    of the (2·range+1)² window around it that lie inside the image and whose colour is
    within the threshold of the centre's. All reads come from the bound image, all writes go
    to a copy, and the copy replaces the binding. The option text is read through functions
    the caller supplies: `preprocess` (the script's alias substitution), `parseInt` and
    `parseFloat` (Java's `Integer.parseInt` and `Float.parseFloat`, `None` where they raise). */
module SelectiveBlur {
  import opened Grids
  import opened Images
  import opened Outcomes
  import opened Commands

  /** A pixel position (x, y). */
  type Pos = (int, int)

  // ---------------------------------------------------------------------------
  // The options.

  /** The three `IllegalArgumentException` messages of a blur command (after its name). */
  datatype Messages = Messages(noRef: string, noRange: string, noThreshold: string)

  /** The messages of `SelectiveBlur`; a missing `<threshold>` is reported as a missing `<range>`. */
  const BLUR_MESSAGES: Messages :=
    Messages(": ref is required", ": <range> is required", ", <apply-selective-blur>: <range> is required")

  /** The options as `execute` reads them, in its order: the `ref` attribute, then `<range>`
      parsed as an int, then `<threshold>` parsed as a float. */
  function Options(task: Task, m: Messages, preprocess: string -> string, parseInt: string -> Option<int>,
                   parseFloat: string -> Option<real>): (r: Result<(string, int, real)>)
    ensures task.ref.None? ==> r == Err(IllegalArgument(m.noRef))
    ensures task.ref.Some? && Child(task.children, "range").None? ==> r == Err(IllegalArgument(m.noRange))
    ensures (task.ref.Some? && Child(task.children, "range").Some? && parseInt(preprocess(Child(task.children, "range").value)).Some? &&
             Child(task.children, "threshold").None?) ==> r == Err(IllegalArgument(m.noThreshold))
    ensures r.Ok? <==>
      task.ref.Some? && Child(task.children, "range").Some? && Child(task.children, "threshold").Some? &&
      parseInt(preprocess(Child(task.children, "range").value)).Some? &&
      parseFloat(preprocess(Child(task.children, "threshold").value)).Some?
    ensures r.Ok? ==>
      r.value.0 == preprocess(task.ref.value) &&
      parseInt(preprocess(Child(task.children, "range").value)) == Some(r.value.1) &&
      parseFloat(preprocess(Child(task.children, "threshold").value)) == Some(r.value.2)
  {
    if task.ref.None? then Err(IllegalArgument(m.noRef))
    else
      var name := preprocess(task.ref.value);
      match Child(task.children, "range")
      case None => Err(IllegalArgument(m.noRange))
      case Some(rangeText) =>
        match parseInt(preprocess(rangeText))
        case None => Err(NumberFormat(preprocess(rangeText)))
        case Some(range) =>
          match Child(task.children, "threshold")
          case None => Err(IllegalArgument(m.noThreshold))
          case Some(thresText) =>
            match parseFloat(preprocess(thresText))
            case None => Err(NumberFormat(preprocess(thresText)))
            case Some(thres) => Ok((name, range, thres))
  }

  // ---------------------------------------------------------------------------
  // The window.

  /** `dr*dr + dg*dg + db*db`: the squared RGB distance from the centre colour c to colour p. */
  function Distance2(c: seq<real>, p: seq<real>): (d: real)
    requires |c| == DEPTH && |p| == DEPTH
    ensures 0.0 <= d
    ensures c == p ==> d == 0.0
  {
    var dr, dg, db := p[0] - c[0], p[1] - c[1], p[2] - c[2];
    dr * dr + dg * dg + db * db
  }

  /** Pixel (px, py) lies inside the image and its colour is within the squared threshold t2
      of the colour of (x, y): it passes both `continue` tests of the window loop. */
  predicate Joins(r: Raster, w: int, h: int, x: int, y: int, px: int, py: int, t2: real)
    requires IsImage(r, w, h) && 0 <= x < w && 0 <= y < h
  {
    0 <= px < w && 0 <= py < h && Distance2(r[x][y], r[px][py]) <= t2
  }

  /** The pixels of column px that join (x, y), for py from y + lo to y + hi - 1, in loop order. */
  function ColumnPart(r: Raster, w: int, h: int, x: int, y: int, t2: real, px: int, lo: int, hi: int): seq<Pos>
    requires IsImage(r, w, h) && 0 <= x < w && 0 <= y < h
    decreases hi - lo
  {
    if hi <= lo then []
    else
      var last := if Joins(r, w, h, x, y, px, y + hi - 1, t2) then [(px, y + hi - 1)] else [];
      ColumnPart(r, w, h, x, y, t2, px, lo, hi - 1) + last
  }

  /** The pixels of columns x + lo to x + hi - 1 that join (x, y), column by column. */
  function WindowPart(r: Raster, w: int, h: int, x: int, y: int, range: int, t2: real, lo: int, hi: int): seq<Pos>
    requires IsImage(r, w, h) && 0 <= x < w && 0 <= y < h
    decreases hi - lo
  {
    if hi <= lo then []
    else WindowPart(r, w, h, x, y, range, t2, lo, hi - 1) + ColumnPart(r, w, h, x, y, t2, x + hi - 1, -range, range + 1)
  }

  /** The pixels whose samples the window loops add up for (x, y), in the order they visit them. */
  function Neighbours(r: Raster, w: int, h: int, x: int, y: int, range: int, t2: real): seq<Pos>
    requires IsImage(r, w, h) && 0 <= x < w && 0 <= y < h
  {
    WindowPart(r, w, h, x, y, range, t2, -range, range + 1)
  }

  /** A pixel is in a column part exactly when it lies in that stretch of column px and joins (x, y). */
  lemma {:induction false} ColumnPartExactly(r: Raster, w: int, h: int, x: int, y: int, t2: real, px: int, lo: int, hi: int, p: Pos)
    requires IsImage(r, w, h) && 0 <= x < w && 0 <= y < h
    ensures p in ColumnPart(r, w, h, x, y, t2, px, lo, hi) <==>
      p.0 == px && y + lo <= p.1 < y + hi && Joins(r, w, h, x, y, p.0, p.1, t2)
    decreases hi - lo
  {
    if lo < hi {
      ColumnPartExactly(r, w, h, x, y, t2, px, lo, hi - 1, p);
    }
  }

  /** A pixel is in a window part exactly when it lies in those columns of the window and joins (x, y). */
  lemma {:induction false} WindowPartExactly(r: Raster, w: int, h: int, x: int, y: int, range: int, t2: real, lo: int, hi: int, p: Pos)
    requires IsImage(r, w, h) && 0 <= x < w && 0 <= y < h
    ensures p in WindowPart(r, w, h, x, y, range, t2, lo, hi) <==>
      x + lo <= p.0 < x + hi && y - range <= p.1 <= y + range && Joins(r, w, h, x, y, p.0, p.1, t2)
    decreases hi - lo
  {
    if lo < hi {
      var init := WindowPart(r, w, h, x, y, range, t2, lo, hi - 1);
      var column := ColumnPart(r, w, h, x, y, t2, x + hi - 1, -range, range + 1);
      assert WindowPart(r, w, h, x, y, range, t2, lo, hi) == init + column;
      assert p in init + column <==> p in init || p in column;
      WindowPartExactly(r, w, h, x, y, range, t2, lo, hi - 1, p);
      ColumnPartExactly(r, w, h, x, y, t2, x + hi - 1, -range, range + 1, p);
      var inside := y - range <= p.1 <= y + range && Joins(r, w, h, x, y, p.0, p.1, t2);
      if p.0 == x + hi - 1 {
        assert p !in init;
        assert p in column <==> inside;
      } else {
        assert p !in column;
        assert p in init <==> x + lo <= p.0 < x + hi && inside;
      }
    }
  }

  /** A pixel is averaged exactly when it lies in the clipped window and is close enough in colour. */
  lemma NeighboursExactly(r: Raster, w: int, h: int, x: int, y: int, range: int, t2: real, px: int, py: int)
    requires IsImage(r, w, h) && 0 <= x < w && 0 <= y < h
    ensures (px, py) in Neighbours(r, w, h, x, y, range, t2) <==>
      x - range <= px <= x + range && y - range <= py <= y + range && 0 <= px < w && 0 <= py < h &&
      Distance2(r[x][y], r[px][py]) <= t2
  {
    WindowPartExactly(r, w, h, x, y, range, t2, -range, range + 1, (px, py));
  }

  /** For a non-negative range the centre is always averaged, so the count is at least 1. */
  lemma CentreJoins(r: Raster, w: int, h: int, x: int, y: int, range: int, thres: real)
    requires IsImage(r, w, h) && 0 <= x < w && 0 <= y < h && 0 <= range
    ensures (x, y) in Neighbours(r, w, h, x, y, range, thres * thres)
    ensures |Neighbours(r, w, h, x, y, range, thres * thres)| >= 1
  {
    NeighboursExactly(r, w, h, x, y, range, thres * thres, x, y);
  }

  // ---------------------------------------------------------------------------
  // The average.

  /** Sample l of pixel p; the positions summed are always pixels of the raster (NeighboursExactly),
      and anything else reads as 0. */
  function Sample(r: Raster, p: Pos, l: int): real {
    if 0 <= p.0 < |r| && 0 <= p.1 < |r[p.0]| && 0 <= l < |r[p.0][p.1]| then r[p.0][p.1][l] else 0.0
  }

  /** The `sum` of the window loop: the samples of layer l at the given pixels. */
  function Total(r: Raster, l: int, ps: seq<Pos>): real
    decreases |ps|
  {
    if ps == [] then 0.0 else Total(r, l, ps[..|ps| - 1]) + Sample(r, ps[|ps| - 1], l)
  }

  /** Adding one more pixel to the sum. */
  lemma TotalSnoc(r: Raster, l: int, ps: seq<Pos>, p: Pos)
    ensures Total(r, l, ps + [p]) == Total(r, l, ps) + Sample(r, p, l)
  {
    assert (ps + [p])[..|ps|] == ps;
  }

  /** The sum over two runs of pixels is the sum of their sums. */
  lemma {:induction false} TotalAppend(r: Raster, l: int, a: seq<Pos>, b: seq<Pos>)
    ensures Total(r, l, a + b) == Total(r, l, a) + Total(r, l, b)
    decreases |b|
  {
    if b == [] {
      assert a + b == a;
    } else {
      var init, p := b[..|b| - 1], b[|b| - 1];
      assert b == init + [p];
      assert a + b == (a + init) + [p];
      TotalAppend(r, l, a, init);
      TotalSnoc(r, l, a + init, p);
      TotalSnoc(r, l, init, p);
    }
  }

  /** Samples all within [lo, hi] add up to between n·lo and n·hi. */
  lemma {:induction false} TotalBounds(r: Raster, l: int, ps: seq<Pos>, lo: real, hi: real)
    requires forall i :: 0 <= i < |ps| ==> lo <= Sample(r, ps[i], l) <= hi
    ensures |ps| as real * lo <= Total(r, l, ps) <= |ps| as real * hi
    decreases |ps|
  {
    if ps != [] {
      var init := ps[..|ps| - 1];
      assert forall i :: 0 <= i < |init| ==> init[i] == ps[i];
      TotalBounds(r, l, init, lo, hi);
      assert |ps| as real * lo == |init| as real * lo + lo;
      assert |ps| as real * hi == |init| as real * hi + hi;
    }
  }

  /** The average of samples that all lie in [lo, hi] lies in [lo, hi]. */
  lemma AverageWithin(r: Raster, l: int, ps: seq<Pos>, lo: real, hi: real)
    requires ps != []
    requires forall i :: 0 <= i < |ps| ==> lo <= Sample(r, ps[i], l) <= hi
    ensures lo <= Total(r, l, ps) / |ps| as real <= hi
  {
    TotalBounds(r, l, ps, lo, hi);
    Scale(Total(r, l, ps), |ps| as real, lo, hi);
  }

  /** Dividing n·lo <= s <= n·hi by a positive n. */
  lemma Scale(s: real, n: real, lo: real, hi: real)
    requires 0.0 < n && n * lo <= s <= n * hi
    ensures lo <= s / n <= hi
  {
    var m := s / n;
    assert s == n * m;
  }

  /** The two loops' running sums, as functions of how far they have come: the sum and the
      count of the samples of column px that join (x, y), for py from y + lo to y + hi - 1. */
  function ColumnTotal(r: Raster, w: int, h: int, x: int, y: int, t2: real, l: int, px: int, lo: int, hi: int): real
    requires IsImage(r, w, h) && 0 <= x < w && 0 <= y < h && 0 <= l < DEPTH
    decreases hi - lo
  {
    if hi <= lo then 0.0
    else
      var v := if Joins(r, w, h, x, y, px, y + hi - 1, t2) then r[px][y + hi - 1][l] else 0.0;
      ColumnTotal(r, w, h, x, y, t2, l, px, lo, hi - 1) + v
  }

  function ColumnCount(r: Raster, w: int, h: int, x: int, y: int, t2: real, px: int, lo: int, hi: int): int
    requires IsImage(r, w, h) && 0 <= x < w && 0 <= y < h
    decreases hi - lo
  {
    if hi <= lo then 0
    else ColumnCount(r, w, h, x, y, t2, px, lo, hi - 1) + if Joins(r, w, h, x, y, px, y + hi - 1, t2) then 1 else 0
  }

  /** The same over columns x + lo to x + hi - 1 of the window. */
  function WindowTotal(r: Raster, w: int, h: int, x: int, y: int, range: int, t2: real, l: int, lo: int, hi: int): real
    requires IsImage(r, w, h) && 0 <= x < w && 0 <= y < h && 0 <= l < DEPTH
    decreases hi - lo
  {
    if hi <= lo then 0.0
    else WindowTotal(r, w, h, x, y, range, t2, l, lo, hi - 1) + ColumnTotal(r, w, h, x, y, t2, l, x + hi - 1, -range, range + 1)
  }

  function WindowCount(r: Raster, w: int, h: int, x: int, y: int, range: int, t2: real, lo: int, hi: int): int
    requires IsImage(r, w, h) && 0 <= x < w && 0 <= y < h
    decreases hi - lo
  {
    if hi <= lo then 0
    else WindowCount(r, w, h, x, y, range, t2, lo, hi - 1) + ColumnCount(r, w, h, x, y, t2, x + hi - 1, -range, range + 1)
  }

  /** The column loop's sum and count are those of the pixels it admits. */
  lemma {:induction false} ColumnTotalSumsPart(r: Raster, w: int, h: int, x: int, y: int, t2: real, l: int, px: int, lo: int, hi: int)
    requires IsImage(r, w, h) && 0 <= x < w && 0 <= y < h && 0 <= l < DEPTH
    ensures ColumnTotal(r, w, h, x, y, t2, l, px, lo, hi) == Total(r, l, ColumnPart(r, w, h, x, y, t2, px, lo, hi))
    ensures ColumnCount(r, w, h, x, y, t2, px, lo, hi) == |ColumnPart(r, w, h, x, y, t2, px, lo, hi)|
    decreases hi - lo
  {
    if lo < hi {
      ColumnTotalSumsPart(r, w, h, x, y, t2, l, px, lo, hi - 1);
      var init := ColumnPart(r, w, h, x, y, t2, px, lo, hi - 1);
      if Joins(r, w, h, x, y, px, y + hi - 1, t2) {
        TotalSnoc(r, l, init, (px, y + hi - 1));
      } else {
        assert ColumnPart(r, w, h, x, y, t2, px, lo, hi) == init + [] == init;
      }
    }
  }

  /** The window loops' sum and count are those of the pixels they admit. */
  lemma {:induction false} WindowTotalSumsPart(r: Raster, w: int, h: int, x: int, y: int, range: int, t2: real, l: int, lo: int, hi: int)
    requires IsImage(r, w, h) && 0 <= x < w && 0 <= y < h && 0 <= l < DEPTH
    ensures WindowTotal(r, w, h, x, y, range, t2, l, lo, hi) == Total(r, l, WindowPart(r, w, h, x, y, range, t2, lo, hi))
    ensures WindowCount(r, w, h, x, y, range, t2, lo, hi) == |WindowPart(r, w, h, x, y, range, t2, lo, hi)|
    decreases hi - lo
  {
    if lo < hi {
      var init := WindowPart(r, w, h, x, y, range, t2, lo, hi - 1);
      var column := ColumnPart(r, w, h, x, y, t2, x + hi - 1, -range, range + 1);
      assert WindowPart(r, w, h, x, y, range, t2, lo, hi) == init + column;
      WindowTotalSumsPart(r, w, h, x, y, range, t2, l, lo, hi - 1);
      ColumnTotalSumsPart(r, w, h, x, y, t2, l, x + hi - 1, -range, range + 1);
      TotalAppend(r, l, init, column);
    }
  }

  /** `sum/count` for sample (x, y) of layer l: the mean of the samples of the pixels the
      window admits, of which there is at least one (CentreJoins). */
  function Mean(r: Raster, w: int, h: int, x: int, y: int, l: int, range: int, thres: real): real
    requires IsImage(r, w, h) && 0 <= x < w && 0 <= y < h && 0 <= l < DEPTH && 0 <= range
  {
    var ps := Neighbours(r, w, h, x, y, range, thres * thres);
    CentreJoins(r, w, h, x, y, range, thres);
    Total(r, l, ps) / |ps| as real
  }

  /** The loops' sum divided by their count is the mean, and the count is positive. */
  lemma LoopsAverage(r: Raster, w: int, h: int, x: int, y: int, l: int, range: int, thres: real)
    requires IsImage(r, w, h) && 0 <= x < w && 0 <= y < h && 0 <= l < DEPTH && 0 <= range
    ensures WindowCount(r, w, h, x, y, range, thres * thres, -range, range + 1) >= 1
    ensures WindowTotal(r, w, h, x, y, range, thres * thres, l, -range, range + 1) /
      WindowCount(r, w, h, x, y, range, thres * thres, -range, range + 1) as real == Mean(r, w, h, x, y, l, range, thres)
  {
    WindowTotalSumsPart(r, w, h, x, y, range, thres * thres, l, -range, range + 1);
    CentreJoins(r, w, h, x, y, range, thres);
  }

  /** When every sample the window admits lies in [lo, hi], so does their mean: each output
      sample lies between the least and the greatest sample it averages. */
  lemma MeanWithin(r: Raster, w: int, h: int, x: int, y: int, l: int, range: int, thres: real, lo: real, hi: real)
    requires IsImage(r, w, h) && 0 <= x < w && 0 <= y < h && 0 <= l < DEPTH && 0 <= range
    requires forall px, py ::
      (x - range <= px <= x + range && y - range <= py <= y + range && Joins(r, w, h, x, y, px, py, thres * thres)) ==>
      lo <= r[px][py][l] <= hi
    ensures lo <= Mean(r, w, h, x, y, l, range, thres) <= hi
  {
    var ps := Neighbours(r, w, h, x, y, range, thres * thres);
    CentreJoins(r, w, h, x, y, range, thres);
    forall i | 0 <= i < |ps| ensures lo <= Sample(r, ps[i], l) <= hi {
      NeighboursExactly(r, w, h, x, y, range, thres * thres, ps[i].0, ps[i].1);
    }
    AverageWithin(r, l, ps, lo, hi);
  }

  /** The blurred samples: the mean of every sample's window. */
  function Blurred(r: Raster, w: int, h: int, range: int, thres: real): (s: Raster)
    requires IsImage(r, w, h) && 0 <= range
    ensures IsImage(s, w, h)
    ensures forall x, y, l :: 0 <= x < w && 0 <= y < h && 0 <= l < DEPTH ==> s[x][y][l] == Mean(r, w, h, x, y, l, range, thres)
  {
    seq(w, x requires 0 <= x < w => seq(h, y requires 0 <= y < h => seq(DEPTH, l requires 0 <= l < DEPTH =>
      Mean(r, w, h, x, y, l, range, thres))))
  }

  /** A layer that holds one value everywhere keeps it. */
  lemma FlatLayerKept(r: Raster, w: int, h: int, range: int, thres: real, l: int, c: real)
    requires IsImage(r, w, h) && 0 <= range && 0 <= l < DEPTH
    requires forall x, y :: 0 <= x < w && 0 <= y < h ==> r[x][y][l] == c
    ensures forall x, y :: 0 <= x < w && 0 <= y < h ==> Blurred(r, w, h, range, thres)[x][y][l] == c
  {
    forall x, y | 0 <= x < w && 0 <= y < h ensures Mean(r, w, h, x, y, l, range, thres) == c {
      MeanWithin(r, w, h, x, y, l, range, thres, c, c);
    }
  }

  /** With range 0 every window is its centre alone, and the image comes back unchanged. */
  lemma ZeroRangeKeepsImage(r: Raster, w: int, h: int, thres: real)
    requires IsImage(r, w, h)
    ensures Blurred(r, w, h, 0, thres) == r
  {
    var s := Blurred(r, w, h, 0, thres);
    forall x, y, l | 0 <= x < w && 0 <= y < h && 0 <= l < DEPTH ensures s[x][y][l] == r[x][y][l] {
      MeanWithin(r, w, h, x, y, l, 0, thres, r[x][y][l], r[x][y][l]);
    }
    RasterExt(s, r, w, h, DEPTH);
  }

  // ---------------------------------------------------------------------------
  // The loops.

  /** The colour differences read from the array give the distance of the raster's colours. */
  lemma DistanceOfSamples(a: array3<real>, r: Raster, x: int, y: int, px: int, py: int, dr: real, dg: real, db: real)
    requires Holds(a, r) && 0 <= x < a.Length0 && 0 <= y < a.Length1 && 0 <= px < a.Length0 && 0 <= py < a.Length1
    requires dr == a[px, py, 0] - a[x, y, 0] && dg == a[px, py, 1] - a[x, y, 1] && db == a[px, py, 2] - a[x, y, 2]
    ensures Distance2(r[x][y], r[px][py]) == dr * dr + dg * dg + db * db
  {
    assert r[px][py][0] - r[x][y][0] == dr && r[px][py][1] - r[x][y][1] == dg && r[px][py][2] - r[x][y][2] == db;
  }

  /** The inner window loop, over dy, for column px: the sum and the count of the samples of
      the column that join (x, y). Every read is in bounds, where `get` reads the array's own
      sample. */
  method ColumnSum(img: Image, ghost r: Raster, l: int, x: int, y: int, range: int, t2: real, px: int)
    returns (sum: real, count: int)
    requires img.Valid() && Holds(img.pixel, r)
    requires 0 <= l < DEPTH && 0 <= x < img.width && 0 <= y < img.height && 0 <= range
    ensures sum == ColumnTotal(r, img.width, img.height, x, y, t2, l, px, -range, range + 1)
    ensures count == ColumnCount(r, img.width, img.height, x, y, t2, px, -range, range + 1)
  {
    ghost var w, h := img.width, img.height;
    sum, count := 0.0, 0;
    for dy := -range to range + 1
      invariant sum == ColumnTotal(r, w, h, x, y, t2, l, px, -range, dy)
      invariant count == ColumnCount(r, w, h, x, y, t2, px, -range, dy)
    {
      var py := y + dy;
      assert y + (dy + 1) - 1 == py;
      if px < 0 || py < 0 || px >= img.width || py >= img.height {
        assert !Joins(r, w, h, x, y, px, py, t2);
        continue;
      }
      var dr := img.pixel[px, py, 0] - img.pixel[x, y, 0];
      var dg := img.pixel[px, py, 1] - img.pixel[x, y, 1];
      var db := img.pixel[px, py, 2] - img.pixel[x, y, 2];
      DistanceOfSamples(img.pixel, r, x, y, px, py, dr, dg, db);
      if dr * dr + dg * dg + db * db > t2 {
        assert !Joins(r, w, h, x, y, px, py, t2);
        continue;
      }
      assert Joins(r, w, h, x, y, px, py, t2);
      sum := sum + img.pixel[px, py, l];
      count := count + 1;
    }
  }

  /** The outer window loop, over dx: the sum and the count of the samples the window admits
      for sample (x, y) of layer l. */
  method WindowSum(img: Image, ghost r: Raster, l: int, x: int, y: int, range: int, t2: real)
    returns (sum: real, count: int)
    requires img.Valid() && Holds(img.pixel, r)
    requires 0 <= l < DEPTH && 0 <= x < img.width && 0 <= y < img.height && 0 <= range
    ensures sum == WindowTotal(r, img.width, img.height, x, y, range, t2, l, -range, range + 1)
    ensures count == WindowCount(r, img.width, img.height, x, y, range, t2, -range, range + 1)
  {
    ghost var w, h := img.width, img.height;
    sum, count := 0.0, 0;
    for dx := -range to range + 1
      invariant sum == WindowTotal(r, w, h, x, y, range, t2, l, -range, dx)
      invariant count == WindowCount(r, w, h, x, y, range, t2, -range, dx)
    {
      var columnSum, columnCount := ColumnSum(img, r, l, x, y, range, t2, x + dx);
      assert x + (dx + 1) - 1 == x + dx;
      sum, count := sum + columnSum, count + columnCount;
    }
  }

  /** The y loop for column x of layer l, writing into a, the copy's samples. */
  method BlurColumn(img: Image, a: array3<real>, l: int, x: int, range: int, thres: real, ghost r: Raster, ghost t: Raster)
    requires img.Valid() && Holds(img.pixel, r) && a != img.pixel
    requires a.Length0 == img.width && a.Length1 == img.height && a.Length2 == DEPTH
    requires 0 <= l < DEPTH && 0 <= x < img.width && 0 <= range
    requires t == Blurred(r, img.width, img.height, range, thres)
    requires ProgressL(a, r, t, l, x, 0)
    modifies a
    ensures ProgressL(a, r, t, l, x, a.Length1)
  {
    for y := 0 to img.height
      invariant ProgressL(a, r, t, l, x, y)
    {
      var sum, count := WindowSum(img, r, l, x, y, range, thres * thres);
      LoopsAverage(r, img.width, img.height, x, y, l, range, thres);
      PutL(a, r, t, l, x, y, sum / count as real);
    }
  }

  /** The layer, x and y loops: a copy of img whose every sample is the mean of its window. */
  method Blur(img: Image, range: int, thres: real) returns (res: Image)
    requires img.Valid() && 0 <= range
    ensures fresh(res) && fresh(res.pixel) && res.Valid()
    ensures res.width == img.width && res.height == img.height
    ensures res.Pixels() == Blurred(img.Pixels(), img.width, img.height, range, thres)
  {
    res := new Image.Copy(img);
    ghost var r := img.Pixels();
    ghost var t := Blurred(r, img.width, img.height, range, thres);
    assert Holds(img.pixel, r);
    for l := 0 to DEPTH
      invariant res.Valid() && res.width == img.width && res.height == img.height && fresh(res.pixel)
      invariant ProgressL(res.pixel, r, t, l, 0, 0)
    {
      for x := 0 to res.width
        invariant res.Valid() && res.width == img.width && res.height == img.height && fresh(res.pixel)
        invariant ProgressL(res.pixel, r, t, l, x, 0)
      {
        BlurColumn(img, res.pixel, l, x, range, thres, r, t);
        NextColumnL(res.pixel, r, t, l, x);
      }
      NextLayerL(res.pixel, r, t, l);
    }
    ProgressLDone(res.pixel, r, t);
  }

  // ---------------------------------------------------------------------------
  // The command.

  /** `execute(task)`. The options are checked first; an unknown image then fails on the copy
      constructor (`NullPointerException`); a negative range leaves every count at 0 and Java
      writes 0/0 = NaN into every sample, which reals cannot hold (an image without pixels has
      no sample to write, and its copy is bound unchanged). Otherwise the blurred copy
      replaces the binding and every other binding is kept. */
  method Execute(task: Task, images: map<string, Image>, preprocess: string -> string,
                 parseInt: string -> Option<int>, parseFloat: string -> Option<real>)
    returns (r: Result<map<string, Image>>)
    requires forall n :: n in images ==> images[n].Valid()
    ensures match Options(task, BLUR_MESSAGES, preprocess, parseInt, parseFloat)
      case Err(e) => r == Err(e)
      case Ok((name, range, thres)) =>
        if name !in images then r == Err(NullPointer)
        else if range < 0 && images[name].width > 0 && images[name].height > 0 then r == Err(NotANumber)
        else
          r.Ok? && name in r.value && r.value == images[name := r.value[name]] &&
          var res := r.value[name];
          fresh(res) && fresh(res.pixel) && res.Valid() &&
          res.width == images[name].width && res.height == images[name].height &&
          (range < 0 ==> res.Pixels() == images[name].Pixels()) &&
          (0 <= range ==> res.Pixels() == Blurred(images[name].Pixels(), res.width, res.height, range, thres))
  {
    var options := Options(task, BLUR_MESSAGES, preprocess, parseInt, parseFloat);
    if options.Err? {
      return Err(options.error);
    }
    var (name, range, thres) := options.value;
    if name !in images {
      return Err(NullPointer);
    }
    if range < 0 {
      if images[name].width > 0 && images[name].height > 0 {
        return Err(NotANumber);
      }
      var res := new Image.Copy(images[name]);
      return Ok(images[name := res]);
    }
    var res := Blur(images[name], range, thres);
    r := Ok(images[name := res]);
  }
}
