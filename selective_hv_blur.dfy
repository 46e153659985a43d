/** `SelectiveHVBlur.execute`: the blur of SelectiveBlur restricted to a cross. Every sample
    becomes the mean, on its own layer, of the pixels of its row and of its column at most
    `range` away that lie inside the image and whose colour is within the threshold of the
    centre's. One loop over the offset d visits the horizontal neighbour (x + d, y) and then the
    vertical one (x, y + d), so the centre, visited at d = 0 by both, is counted twice. */
module SelectiveHVBlur {
  import opened Grids
  import opened Images
  import opened Outcomes
  import opened Commands
  import opened SelectiveBlur

  /** Every message of this command names `<apply-selective-blur>`, and a missing
      `<threshold>` is reported as a missing `<range>`. */
  const HV_MESSAGES: Messages :=
    Messages(", <apply-selective-blur>: ref is required", ", <apply-selective-blur>: <range> is required",
             ", <apply-selective-blur>: <range> is required")

  // ---------------------------------------------------------------------------
  // The cross.

  /** The pixels the loop visits for the offsets d from lo to hi - 1, in its order: the
      horizontal neighbour (x + d, y), then the vertical one (x, y + d). */
  function Candidates(x: int, y: int, lo: int, hi: int): seq<Pos>
    decreases hi - lo
  {
    if hi <= lo then [] else Candidates(x, y, lo, hi - 1) + [(x + hi - 1, y), (x, y + hi - 1)]
  }

  /** Pixel p when it joins the centre (x, y), else nothing. */
  function Keep(r: Raster, w: int, h: int, x: int, y: int, t2: real, p: Pos): seq<Pos>
    requires IsImage(r, w, h) && 0 <= x < w && 0 <= y < h
  {
    if Joins(r, w, h, x, y, p.0, p.1, t2) then [p] else []
  }

  /** The pixels of ps that join the centre (x, y), in order and with repetitions. */
  function Admitted(r: Raster, w: int, h: int, x: int, y: int, t2: real, ps: seq<Pos>): seq<Pos>
    requires IsImage(r, w, h) && 0 <= x < w && 0 <= y < h
    decreases |ps|
  {
    if ps == [] then [] else Admitted(r, w, h, x, y, t2, ps[..|ps| - 1]) + Keep(r, w, h, x, y, t2, ps[|ps| - 1])
  }

  /** The pixels averaged for sample (x, y): the candidates of the offsets -range to range that join it. */
  function Arms(r: Raster, w: int, h: int, x: int, y: int, range: int, t2: real): seq<Pos>
    requires IsImage(r, w, h) && 0 <= x < w && 0 <= y < h
  {
    Admitted(r, w, h, x, y, t2, Candidates(x, y, -range, range + 1))
  }

  /** How often p occurs in ps. */
  function Occurrences(ps: seq<Pos>, p: Pos): nat
    decreases |ps|
  {
    if ps == [] then 0 else Occurrences(ps[..|ps| - 1], p) + if ps[|ps| - 1] == p then 1 else 0
  }

  /** Occurrences add up over a concatenation. */
  lemma {:induction false} OccurrencesAppend(ps: seq<Pos>, qs: seq<Pos>, p: Pos)
    ensures Occurrences(ps + qs, p) == Occurrences(ps, p) + Occurrences(qs, p)
    decreases |qs|
  {
    if qs != [] {
      var init := qs[..|qs| - 1];
      assert (ps + qs)[..|ps + qs| - 1] == ps + init;
      assert (ps + qs)[|ps + qs| - 1] == qs[|qs| - 1];
      OccurrencesAppend(ps, init, p);
    } else {
      assert ps + qs == ps;
    }
  }

  /** A singleton holds its element once and nothing else. */
  lemma OccurrencesSingleton(p: Pos, q: Pos)
    ensures Occurrences([p], q) == if p == q then 1 else 0
  {
    assert [p][..0] == [];
  }

  /** p is an element of ps exactly when it occurs in it. */
  lemma {:induction false} OccurrencesIn(ps: seq<Pos>, p: Pos)
    ensures p in ps <==> Occurrences(ps, p) > 0
    decreases |ps|
  {
    if ps != [] {
      var init := ps[..|ps| - 1];
      assert ps == init + [ps[|ps| - 1]];
      OccurrencesIn(init, p);
    }
  }

  /** There are at least as many elements as occurrences of any one of them. */
  lemma {:induction false} OccurrencesAtMostLength(ps: seq<Pos>, p: Pos)
    ensures Occurrences(ps, p) <= |ps|
    decreases |ps|
  {
    if ps != [] {
      OccurrencesAtMostLength(ps[..|ps| - 1], p);
    }
  }

  /** How often the loop visits pixel (px, py) for the offsets lo to hi - 1: the centre twice
      (at d = 0, once as each neighbour), any other pixel of its row or column once, and nothing
      else. */
  lemma {:induction false} CandidatesTimes(x: int, y: int, lo: int, hi: int, px: int, py: int)
    ensures Occurrences(Candidates(x, y, lo, hi), (px, py)) ==
      if px == x && py == y then (if lo <= 0 < hi then 2 else 0)
      else if (py == y && x + lo <= px < x + hi) || (px == x && y + lo <= py < y + hi) then 1
      else 0
    decreases hi - lo
  {
    if lo < hi {
      var d := hi - 1;
      var init := Candidates(x, y, lo, d);
      assert Candidates(x, y, lo, hi) == init + [(x + d, y)] + [(x, y + d)];
      OccurrencesAppend(init + [(x + d, y)], [(x, y + d)], (px, py));
      OccurrencesAppend(init, [(x + d, y)], (px, py));
      OccurrencesSingleton((x + d, y), (px, py));
      OccurrencesSingleton((x, y + d), (px, py));
      CandidatesTimes(x, y, lo, d, px, py);
    }
  }

  /** Filtering keeps the occurrences of a pixel that joins the centre and drops those of one
      that does not. */
  lemma {:induction false} AdmittedTimes(r: Raster, w: int, h: int, x: int, y: int, t2: real, ps: seq<Pos>, px: int, py: int)
    requires IsImage(r, w, h) && 0 <= x < w && 0 <= y < h
    ensures Occurrences(Admitted(r, w, h, x, y, t2, ps), (px, py)) ==
      if Joins(r, w, h, x, y, px, py, t2) then Occurrences(ps, (px, py)) else 0
    decreases |ps|
  {
    if ps != [] {
      var init, p := ps[..|ps| - 1], ps[|ps| - 1];
      OccurrencesAppend(Admitted(r, w, h, x, y, t2, init), Keep(r, w, h, x, y, t2, p), (px, py));
      if Joins(r, w, h, x, y, p.0, p.1, t2) {
        OccurrencesSingleton(p, (px, py));
      }
      AdmittedTimes(r, w, h, x, y, t2, init, px, py);
    }
  }

  /** Filtering a concatenation filters its parts. */
  lemma {:induction false} AdmittedAppend(r: Raster, w: int, h: int, x: int, y: int, t2: real, ps: seq<Pos>, qs: seq<Pos>)
    requires IsImage(r, w, h) && 0 <= x < w && 0 <= y < h
    ensures Admitted(r, w, h, x, y, t2, ps + qs) == Admitted(r, w, h, x, y, t2, ps) + Admitted(r, w, h, x, y, t2, qs)
    decreases |qs|
  {
    if qs == [] {
      assert ps + qs == ps;
    } else {
      var init := qs[..|qs| - 1];
      assert (ps + qs)[..|ps + qs| - 1] == ps + init;
      assert (ps + qs)[|ps + qs| - 1] == qs[|qs| - 1];
      AdmittedAppend(r, w, h, x, y, t2, ps, init);
      var a, b, k := Admitted(r, w, h, x, y, t2, ps), Admitted(r, w, h, x, y, t2, init), Keep(r, w, h, x, y, t2, qs[|qs| - 1]);
      assert (a + b) + k == a + (b + k);
    }
  }

  /** The filtered pair of one offset: each neighbour that joins. */
  lemma AdmittedPair(r: Raster, w: int, h: int, x: int, y: int, t2: real, p: Pos, q: Pos)
    requires IsImage(r, w, h) && 0 <= x < w && 0 <= y < h
    ensures Admitted(r, w, h, x, y, t2, [p, q]) == Keep(r, w, h, x, y, t2, p) + Keep(r, w, h, x, y, t2, q)
  {
    assert [p, q][..1] == [p];
    assert [p][..0] == [];
    assert Admitted(r, w, h, x, y, t2, [p]) == [] + Keep(r, w, h, x, y, t2, p) == Keep(r, w, h, x, y, t2, p);
  }

  /** What offset d adds to the admitted pixels: each of its two neighbours that joins. */
  lemma AdmittedStep(r: Raster, w: int, h: int, x: int, y: int, t2: real, lo: int, d: int)
    requires IsImage(r, w, h) && 0 <= x < w && 0 <= y < h && lo <= d
    ensures Admitted(r, w, h, x, y, t2, Candidates(x, y, lo, d + 1)) ==
      Admitted(r, w, h, x, y, t2, Candidates(x, y, lo, d)) + Keep(r, w, h, x, y, t2, (x + d, y)) + Keep(r, w, h, x, y, t2, (x, y + d))
  {
    var init := Candidates(x, y, lo, d);
    var across, down := (x + d, y), (x, y + d);
    assert d + 1 - 1 == d;
    assert Candidates(x, y, lo, d + 1) == init + [across, down];
    AdmittedAppend(r, w, h, x, y, t2, init, [across, down]);
    AdmittedPair(r, w, h, x, y, t2, across, down);
    var a := Admitted(r, w, h, x, y, t2, init);
    var ka, kd := Keep(r, w, h, x, y, t2, across), Keep(r, w, h, x, y, t2, down);
    assert a + (ka + kd) == (a + ka) + kd;
  }

  /** How often each pixel is averaged: the centre twice, any other pixel of its row or column
      within the range once when it lies in the image and is close enough in colour, and nothing
      else. */
  lemma CrossTimes(r: Raster, w: int, h: int, x: int, y: int, range: int, t2: real, px: int, py: int)
    requires IsImage(r, w, h) && 0 <= x < w && 0 <= y < h
    ensures Occurrences(Arms(r, w, h, x, y, range, t2), (px, py)) ==
      if px == x && py == y then (if 0 <= range && Joins(r, w, h, x, y, x, y, t2) then 2 else 0)
      else if ((py == y && x - range <= px <= x + range) || (px == x && y - range <= py <= y + range)) &&
              Joins(r, w, h, x, y, px, py, t2) then 1
      else 0
  {
    CandidatesTimes(x, y, -range, range + 1, px, py);
    AdmittedTimes(r, w, h, x, y, t2, Candidates(x, y, -range, range + 1), px, py);
  }

  /** A pixel is averaged exactly when it lies in the clipped cross and is close enough in colour. */
  lemma ArmsExactly(r: Raster, w: int, h: int, x: int, y: int, range: int, t2: real, px: int, py: int)
    requires IsImage(r, w, h) && 0 <= x < w && 0 <= y < h
    ensures (px, py) in Arms(r, w, h, x, y, range, t2) <==>
      ((py == y && x - range <= px <= x + range) || (px == x && y - range <= py <= y + range)) &&
      0 <= px < w && 0 <= py < h && Distance2(r[x][y], r[px][py]) <= t2
  {
    CrossTimes(r, w, h, x, y, range, t2, px, py);
    OccurrencesIn(Arms(r, w, h, x, y, range, t2), (px, py));
  }

  /** For a non-negative range the centre is averaged twice, so the count is at least 2. */
  lemma CentreTwice(r: Raster, w: int, h: int, x: int, y: int, range: int, thres: real)
    requires IsImage(r, w, h) && 0 <= x < w && 0 <= y < h && 0 <= range
    ensures Occurrences(Arms(r, w, h, x, y, range, thres * thres), (x, y)) == 2
    ensures |Arms(r, w, h, x, y, range, thres * thres)| >= 2
  {
    var ps := Arms(r, w, h, x, y, range, thres * thres);
    assert Joins(r, w, h, x, y, x, y, thres * thres);
    CrossTimes(r, w, h, x, y, range, thres * thres, x, y);
    OccurrencesAtMostLength(ps, (x, y));
  }

  // ---------------------------------------------------------------------------
  // The average.

  /** The sample of layer l the loop adds for pixel (px, py): its own when it joins, else 0. */
  function ArmSample(r: Raster, w: int, h: int, x: int, y: int, t2: real, l: int, px: int, py: int): real
    requires IsImage(r, w, h) && 0 <= x < w && 0 <= y < h && 0 <= l < DEPTH
  {
    if Joins(r, w, h, x, y, px, py, t2) then r[px][py][l] else 0.0
  }

  /** The loop's running sum after offsets lo to hi - 1. */
  function CrossTotal(r: Raster, w: int, h: int, x: int, y: int, t2: real, l: int, lo: int, hi: int): real
    requires IsImage(r, w, h) && 0 <= x < w && 0 <= y < h && 0 <= l < DEPTH
    decreases hi - lo
  {
    if hi <= lo then 0.0
    else
      var d := hi - 1;
      CrossTotal(r, w, h, x, y, t2, l, lo, d) + ArmSample(r, w, h, x, y, t2, l, x + d, y) + ArmSample(r, w, h, x, y, t2, l, x, y + d)
  }

  /** The loop's running count after offsets lo to hi - 1. */
  function CrossCount(r: Raster, w: int, h: int, x: int, y: int, t2: real, lo: int, hi: int): int
    requires IsImage(r, w, h) && 0 <= x < w && 0 <= y < h
    decreases hi - lo
  {
    if hi <= lo then 0
    else
      var d := hi - 1;
      CrossCount(r, w, h, x, y, t2, lo, d) + (if Joins(r, w, h, x, y, x + d, y, t2) then 1 else 0) +
        (if Joins(r, w, h, x, y, x, y + d, t2) then 1 else 0)
  }

  /** The sum and the count of a kept pixel. */
  lemma KeepTotal(r: Raster, w: int, h: int, x: int, y: int, t2: real, l: int, p: Pos)
    requires IsImage(r, w, h) && 0 <= x < w && 0 <= y < h && 0 <= l < DEPTH
    ensures Total(r, l, Keep(r, w, h, x, y, t2, p)) == ArmSample(r, w, h, x, y, t2, l, p.0, p.1)
    ensures |Keep(r, w, h, x, y, t2, p)| == if Joins(r, w, h, x, y, p.0, p.1, t2) then 1 else 0
  {
    if Joins(r, w, h, x, y, p.0, p.1, t2) {
      assert [p][..0] == [];
    }
  }

  /** The loop's sum and count are those of the pixels it admits. */
  lemma {:induction false} CrossTotalSumsCross(r: Raster, w: int, h: int, x: int, y: int, t2: real, l: int, lo: int, hi: int)
    requires IsImage(r, w, h) && 0 <= x < w && 0 <= y < h && 0 <= l < DEPTH
    ensures CrossTotal(r, w, h, x, y, t2, l, lo, hi) == Total(r, l, Admitted(r, w, h, x, y, t2, Candidates(x, y, lo, hi)))
    ensures CrossCount(r, w, h, x, y, t2, lo, hi) == |Admitted(r, w, h, x, y, t2, Candidates(x, y, lo, hi))|
    decreases hi - lo
  {
    if lo < hi {
      var d := hi - 1;
      AdmittedStep(r, w, h, x, y, t2, lo, d);
      var a := Admitted(r, w, h, x, y, t2, Candidates(x, y, lo, d));
      var ka, kd := Keep(r, w, h, x, y, t2, (x + d, y)), Keep(r, w, h, x, y, t2, (x, y + d));
      CrossTotalSumsCross(r, w, h, x, y, t2, l, lo, d);
      KeepTotal(r, w, h, x, y, t2, l, (x + d, y));
      KeepTotal(r, w, h, x, y, t2, l, (x, y + d));
      TotalAppend(r, l, a, ka);
      TotalAppend(r, l, a + ka, kd);
    }
  }

  /** `sum/count` for sample (x, y) of layer l: the mean of the samples of the pixels the
      cross admits, the centre's twice, of which there are at least two (CentreTwice). */
  function CrossMean(r: Raster, w: int, h: int, x: int, y: int, l: int, range: int, thres: real): real
    requires IsImage(r, w, h) && 0 <= x < w && 0 <= y < h && 0 <= l < DEPTH && 0 <= range
  {
    var ps := Arms(r, w, h, x, y, range, thres * thres);
    CentreTwice(r, w, h, x, y, range, thres);
    Total(r, l, ps) / |ps| as real
  }

  /** The loop's sum divided by its count is the mean, and the count is at least 2. */
  lemma LoopAverage(r: Raster, w: int, h: int, x: int, y: int, l: int, range: int, thres: real)
    requires IsImage(r, w, h) && 0 <= x < w && 0 <= y < h && 0 <= l < DEPTH && 0 <= range
    ensures CrossCount(r, w, h, x, y, thres * thres, -range, range + 1) >= 2
    ensures CrossTotal(r, w, h, x, y, thres * thres, l, -range, range + 1) /
      CrossCount(r, w, h, x, y, thres * thres, -range, range + 1) as real == CrossMean(r, w, h, x, y, l, range, thres)
  {
    CrossTotalSumsCross(r, w, h, x, y, thres * thres, l, -range, range + 1);
    CentreTwice(r, w, h, x, y, range, thres);
  }

  /** When every sample the cross admits lies in [lo, hi], so does their mean. */
  lemma CrossMeanWithin(r: Raster, w: int, h: int, x: int, y: int, l: int, range: int, thres: real, lo: real, hi: real)
    requires IsImage(r, w, h) && 0 <= x < w && 0 <= y < h && 0 <= l < DEPTH && 0 <= range
    requires forall px, py ::
      (((py == y && x - range <= px <= x + range) || (px == x && y - range <= py <= y + range)) &&
       Joins(r, w, h, x, y, px, py, thres * thres)) ==>
      lo <= r[px][py][l] <= hi
    ensures lo <= CrossMean(r, w, h, x, y, l, range, thres) <= hi
  {
    var ps := Arms(r, w, h, x, y, range, thres * thres);
    CentreTwice(r, w, h, x, y, range, thres);
    forall i | 0 <= i < |ps| ensures lo <= Sample(r, ps[i], l) <= hi {
      ArmsExactly(r, w, h, x, y, range, thres * thres, ps[i].0, ps[i].1);
    }
    AverageWithin(r, l, ps, lo, hi);
  }

  /** The blurred samples: the mean of every sample's cross. */
  function CrossBlurred(r: Raster, w: int, h: int, range: int, thres: real): (s: Raster)
    requires IsImage(r, w, h) && 0 <= range
    ensures IsImage(s, w, h)
    ensures forall x, y, l :: 0 <= x < w && 0 <= y < h && 0 <= l < DEPTH ==> s[x][y][l] == CrossMean(r, w, h, x, y, l, range, thres)
  {
    seq(w, x requires 0 <= x < w => seq(h, y requires 0 <= y < h => seq(DEPTH, l requires 0 <= l < DEPTH =>
      CrossMean(r, w, h, x, y, l, range, thres))))
  }

  /** A layer that holds one value everywhere keeps it. */
  lemma CrossFlatLayerKept(r: Raster, w: int, h: int, range: int, thres: real, l: int, c: real)
    requires IsImage(r, w, h) && 0 <= range && 0 <= l < DEPTH
    requires forall x, y :: 0 <= x < w && 0 <= y < h ==> r[x][y][l] == c
    ensures forall x, y :: 0 <= x < w && 0 <= y < h ==> CrossBlurred(r, w, h, range, thres)[x][y][l] == c
  {
    forall x, y | 0 <= x < w && 0 <= y < h ensures CrossMean(r, w, h, x, y, l, range, thres) == c {
      CrossMeanWithin(r, w, h, x, y, l, range, thres, c, c);
    }
  }

  /** With range 0 every cross is its centre, counted twice, and the image comes back unchanged. */
  lemma CrossZeroRangeKeepsImage(r: Raster, w: int, h: int, thres: real)
    requires IsImage(r, w, h)
    ensures CrossBlurred(r, w, h, 0, thres) == r
  {
    var s := CrossBlurred(r, w, h, 0, thres);
    forall x, y, l | 0 <= x < w && 0 <= y < h && 0 <= l < DEPTH ensures s[x][y][l] == r[x][y][l] {
      CrossMeanWithin(r, w, h, x, y, l, 0, thres, r[x][y][l], r[x][y][l]);
    }
    RasterExt(s, r, w, h, DEPTH);
  }

  // ---------------------------------------------------------------------------
  // The loops.

  /** The d loop for sample (x, y) of layer l: its sum and its count. Every read is in bounds,
      where `get` reads the array's own sample. */
  method CrossSum(img: Image, ghost r: Raster, l: int, x: int, y: int, range: int, t2: real)
    returns (sum: real, count: int)
    requires img.Valid() && Holds(img.pixel, r)
    requires 0 <= l < DEPTH && 0 <= x < img.width && 0 <= y < img.height && 0 <= range
    ensures sum == CrossTotal(r, img.width, img.height, x, y, t2, l, -range, range + 1)
    ensures count == CrossCount(r, img.width, img.height, x, y, t2, -range, range + 1)
  {
    ghost var w, h := img.width, img.height;
    sum, count := 0.0, 0;
    for d := -range to range + 1
      invariant sum == CrossTotal(r, w, h, x, y, t2, l, -range, d)
      invariant count == CrossCount(r, w, h, x, y, t2, -range, d)
    {
      var px := x + d;
      var py := y + d;
      assert (d + 1) - 1 == d;
      ghost var sum0, count0 := sum, count;
      if px >= 0 && px < img.width {
        var dr := img.pixel[px, y, 0] - img.pixel[x, y, 0];
        var dg := img.pixel[px, y, 1] - img.pixel[x, y, 1];
        var db := img.pixel[px, y, 2] - img.pixel[x, y, 2];
        DistanceOfSamples(img.pixel, r, x, y, px, y, dr, dg, db);
        if dr * dr + dg * dg + db * db <= t2 {
          sum := sum + img.pixel[px, y, l];
          count := count + 1;
        }
      }
      assert sum == sum0 + ArmSample(r, w, h, x, y, t2, l, px, y);
      assert count == count0 + if Joins(r, w, h, x, y, px, y, t2) then 1 else 0;
      ghost var sum1, count1 := sum, count;
      if py >= 0 && py < img.height {
        var dr := img.pixel[x, py, 0] - img.pixel[x, y, 0];
        var dg := img.pixel[x, py, 1] - img.pixel[x, y, 1];
        var db := img.pixel[x, py, 2] - img.pixel[x, y, 2];
        DistanceOfSamples(img.pixel, r, x, y, x, py, dr, dg, db);
        if dr * dr + dg * dg + db * db <= t2 {
          sum := sum + img.pixel[x, py, l];
          count := count + 1;
        }
      }
      assert sum == sum1 + ArmSample(r, w, h, x, y, t2, l, x, py);
      assert count == count1 + if Joins(r, w, h, x, y, x, py, t2) then 1 else 0;
    }
  }

  /** The y loop for column x of layer l, writing into a, the copy's samples. */
  method CrossBlurColumn(img: Image, a: array3<real>, l: int, x: int, range: int, thres: real, ghost r: Raster, ghost t: Raster)
    requires img.Valid() && Holds(img.pixel, r) && a != img.pixel
    requires a.Length0 == img.width && a.Length1 == img.height && a.Length2 == DEPTH
    requires 0 <= l < DEPTH && 0 <= x < img.width && 0 <= range
    requires t == CrossBlurred(r, img.width, img.height, range, thres)
    requires ProgressL(a, r, t, l, x, 0)
    modifies a
    ensures ProgressL(a, r, t, l, x, a.Length1)
  {
    for y := 0 to img.height
      invariant ProgressL(a, r, t, l, x, y)
    {
      var sum, count := CrossSum(img, r, l, x, y, range, thres * thres);
      LoopAverage(r, img.width, img.height, x, y, l, range, thres);
      PutL(a, r, t, l, x, y, sum / count as real);
    }
  }

  /** The layer, x and y loops: a copy of img whose every sample is the mean of its cross. */
  method CrossBlur(img: Image, range: int, thres: real) returns (res: Image)
    requires img.Valid() && 0 <= range
    ensures fresh(res) && fresh(res.pixel) && res.Valid()
    ensures res.width == img.width && res.height == img.height
    ensures res.Pixels() == CrossBlurred(img.Pixels(), img.width, img.height, range, thres)
  {
    res := new Image.Copy(img);
    ghost var r := img.Pixels();
    ghost var t := CrossBlurred(r, img.width, img.height, range, thres);
    assert Holds(img.pixel, r);
    for l := 0 to DEPTH
      invariant res.Valid() && res.width == img.width && res.height == img.height && fresh(res.pixel)
      invariant ProgressL(res.pixel, r, t, l, 0, 0)
    {
      for x := 0 to res.width
        invariant res.Valid() && res.width == img.width && res.height == img.height && fresh(res.pixel)
        invariant ProgressL(res.pixel, r, t, l, x, 0)
      {
        CrossBlurColumn(img, res.pixel, l, x, range, thres, r, t);
        NextColumnL(res.pixel, r, t, l, x);
      }
      NextLayerL(res.pixel, r, t, l);
    }
    ProgressLDone(res.pixel, r, t);
  }

  // ---------------------------------------------------------------------------
  // The command.

  /** `execute(task)`, with the same order of failures as SelectiveBlur's: the options, then an
      unknown image (`NullPointerException` in the copy constructor), then a negative range
      (every count 0, every sample NaN, unless the image has no pixels). Otherwise the blurred copy replaces the binding and
      every other binding is kept. */
  method Execute(task: Task, images: map<string, Image>, preprocess: string -> string,
                 parseInt: string -> Option<int>, parseFloat: string -> Option<real>)
    returns (r: Result<map<string, Image>>)
    requires forall n :: n in images ==> images[n].Valid()
    ensures match Options(task, HV_MESSAGES, preprocess, parseInt, parseFloat)
      case Err(e) => r == Err(e)
      case Ok((name, range, thres)) =>
        if name !in images then r == Err(NullPointer)
        else if range < 0 && images[name].width > 0 && images[name].height > 0 then r == Err(NotANumber)
        else
          r.Ok? && name in r.value && r.value == images[name := r.value[name]] &&
          var res := r.value[name];
          fresh(res) && fresh(res.pixel) && res.Valid() &&
          res.width == images[name].width && res.height == images[name].height &&
          (range < 0 ==> res.Pixels() == images[name].Pixels()) &&
          (0 <= range ==> res.Pixels() == CrossBlurred(images[name].Pixels(), res.width, res.height, range, thres))
  {
    var options := Options(task, HV_MESSAGES, preprocess, parseInt, parseFloat);
    if options.Err? {
      return Err(options.error);
    }
    var (name, range, thres) := options.value;
    if name !in images {
      return Err(NullPointer);
    }
    if range < 0 {
      if images[name].width > 0 && images[name].height > 0 {
        return Err(NotANumber);
      }
      var res := new Image.Copy(images[name]);
      return Ok(images[name := res]);
    }
    var res := CrossBlur(images[name], range, thres);
    r := Ok(images[name := res]);
  }
}
