/** The reconstruction math of a gradient field: the four directional sweep kernels, the
    sequential whole-raster sweeps and the round-robin reconstruction, as pure functions
    over values, with the properties the solver relies on. */
module Relaxation {
  import opened Grids

  /** A gradient field as a value: the value raster `val` and its forward-difference
      rasters `gx` and `gy`, all `width` by `height`. */
  datatype Field = Field(width: int, height: int, val: Grid, gx: Grid, gy: Grid) {
    ghost predicate Valid() {
      0 <= width && 0 <= height &&
      IsGrid(val, width, height) && IsGrid(gx, width, height) && IsGrid(gy, width, height)
    }
  }

  /** The stored gradients are the exact forward differences of the values wherever the
      source computes them (x < width-1 and y < height-1). */
  ghost predicate Consistent(f: Field)
    requires f.Valid()
  {
    forall x, y :: 0 <= x < f.width - 1 && 0 <= y < f.height - 1 ==>
      f.gx[x][y] == f.val[x + 1][y] - f.val[x][y] && f.gy[x][y] == f.val[x][y + 1] - f.val[x][y]
  }

  /** The four sweep kernels: left to right and right to left along each row, top to
      bottom and bottom to top along each column. */
  datatype Kernel = LR | TB | RL | BT

  /** The kernel the round-robin order runs at a given step. */
  function KernelOf(step: nat): Kernel {
    match step % 4
    case 0 => LR
    case 1 => TB
    case 2 => RL
    case _ => BT
  }

  predicate AlongRows(k: Kernel) { k == LR || k == RL }

  predicate IsForward(k: Kernel) { k == LR || k == TB }

  /** How many lines (rows or columns) a kernel sweeps over. */
  function LineCount(k: Kernel, f: Field): int {
    if AlongRows(k) then f.height else f.width
  }

  /** The line a cell lies on, and its position along that line. */
  function LineIndex(k: Kernel, x: int, y: int): int { if AlongRows(k) then y else x }

  function Position(k: Kernel, x: int, y: int): int { if AlongRows(k) then x else y }

  /** The gradient raster a kernel follows. */
  function Gradient(k: Kernel, f: Field): Grid { if AlongRows(k) then f.gx else f.gy }

  /** Line i of a raster: row i (all x at y = i) or column i (all y at x = i). */
  function LineOf(k: Kernel, f: Field, g: Grid, i: int): (line: seq<real>)
    requires f.Valid() && IsGrid(g, f.width, f.height) && 0 <= i < LineCount(k, f)
    ensures |line| == (if AlongRows(k) then f.width else f.height)
    ensures AlongRows(k) ==> forall x :: 0 <= x < f.width ==> line[x] == g[x][i]
    ensures !AlongRows(k) ==> line == g[i]
  {
    if AlongRows(k) then seq(f.width, x requires 0 <= x < f.width => g[x][i]) else g[i]
  }

  // ---------------------------------------------------------------------------
  // The one-dimensional kernels. Positions 2 .. |r|-3 are relaxed in traversal order;
  // every other position keeps its value.

  /** The value at position i after a forward sweep (LR along a row, TB along a column):
      `(old + new value before it + gradient before it) / 2`. Position 1 is never written. */
  function ForwardAt(r: seq<real>, g: seq<real>, i: int): real
    requires |g| == |r| && 1 <= i < |r| - 2
    decreases i
  {
    if i == 1 then r[1] else (r[i] + ForwardAt(r, g, i - 1) + g[i - 1]) / 2.0
  }

  function Forward(r: seq<real>, g: seq<real>): (r': seq<real>)
    requires |g| == |r|
    ensures |r'| == |r|
  {
    seq(|r|, i requires 0 <= i < |r| => if 2 <= i < |r| - 2 then ForwardAt(r, g, i) else r[i])
  }

  /** The value at position i after a backward sweep (RL along a row, BT along a column):
      `(old + new value after it - gradient here) / 2`. Position |r|-2 is never written. */
  function BackwardAt(r: seq<real>, g: seq<real>, i: int): real
    requires |g| == |r| && 2 <= i <= |r| - 2
    decreases |r| - i
  {
    if i == |r| - 2 then r[i] else (r[i] + BackwardAt(r, g, i + 1) - g[i]) / 2.0
  }

  function Backward(r: seq<real>, g: seq<real>): (r': seq<real>)
    requires |g| == |r|
    ensures |r'| == |r|
  {
    seq(|r|, i requires 0 <= i < |r| => if 2 <= i < |r| - 2 then BackwardAt(r, g, i) else r[i])
  }

  /** Line i of the values after kernel k has swept it. */
  function SweptLine(k: Kernel, f: Field, i: int): (line: seq<real>)
    requires f.Valid() && 0 <= i < LineCount(k, f)
    ensures |line| == (if AlongRows(k) then f.width else f.height)
  {
    var r := LineOf(k, f, f.val, i);
    var g := LineOf(k, f, Gradient(k, f), i);
    if IsForward(k) then Forward(r, g) else Backward(r, g)
  }

  /** The kernel equation of a forward sweep at every position it writes: the new value is
      the mean of the old value and the new value before it plus the gradient before it. */
  lemma ForwardStep(k: Kernel, f: Field, i: int, p: int)
    requires f.Valid() && IsForward(k) && 0 <= i < LineCount(k, f)
    requires 2 <= p < |SweptLine(k, f, i)| - 2
    ensures SweptLine(k, f, i)[p] ==
      (LineOf(k, f, f.val, i)[p] + SweptLine(k, f, i)[p - 1] + LineOf(k, f, Gradient(k, f), i)[p - 1]) / 2.0
  {
  }

  /** The kernel equation of a backward sweep at every position it writes: the new value is
      the mean of the old value and the new value after it minus the gradient here. */
  lemma BackwardStep(k: Kernel, f: Field, i: int, p: int)
    requires f.Valid() && !IsForward(k) && 0 <= i < LineCount(k, f)
    requires 2 <= p < |SweptLine(k, f, i)| - 2
    ensures SweptLine(k, f, i)[p] ==
      (LineOf(k, f, f.val, i)[p] + SweptLine(k, f, i)[p + 1] - LineOf(k, f, Gradient(k, f), i)[p]) / 2.0
  {
    var r, g := LineOf(k, f, f.val, i), LineOf(k, f, Gradient(k, f), i);
    if p + 1 == |r| - 2 {
      assert BackwardAt(r, g, p + 1) == r[p + 1];
    }
  }

  // ---------------------------------------------------------------------------
  // Sweeping a set of lines, each from the field's current values.

  function SweptCell(k: Kernel, f: Field, lines: set<int>, x: int, y: int): real
    requires f.Valid() && 0 <= x < f.width && 0 <= y < f.height
  {
    var i := LineIndex(k, x, y);
    if i in lines then SweptLine(k, f, i)[Position(k, x, y)] else f.val[x][y]
  }

  /** The field after every line in `lines` has been swept by kernel k, each line relaxed
      against the values it had in f; the gradients are never written. */
  function SweepLines(k: Kernel, f: Field, lines: set<int>): (f': Field)
    requires f.Valid()
    ensures f'.Valid() && f'.width == f.width && f'.height == f.height
    ensures f'.gx == f.gx && f'.gy == f.gy
    ensures forall x, y :: 0 <= x < f.width && 0 <= y < f.height ==>
      f'.val[x][y] == SweptCell(k, f, lines, x, y)
  {
    f.(val := seq(f.width, x requires 0 <= x < f.width =>
                seq(f.height, y requires 0 <= y < f.height => SweptCell(k, f, lines, x, y))))
  }

  /** One per-line kernel: the source's `reconstructStepLR(y)`, `reconstructStepRL(y)`,
      `reconstructStepTB(x)` and `reconstructStepBT(x)`. */
  function SweepLine(k: Kernel, f: Field, i: int): (f': Field)
    requires f.Valid() && 0 <= i < LineCount(k, f)
    ensures f'.Valid() && f'.width == f.width && f'.height == f.height
    ensures f'.gx == f.gx && f'.gy == f.gy
  {
    SweepLines(k, f, {i})
  }

  /** One kernel changes only the interior positions 2 .. n-3 of its own line. */
  lemma SweepLineKeeps(k: Kernel, f: Field, i: int)
    requires f.Valid() && 0 <= i < LineCount(k, f)
    ensures AlongRows(k) ==> forall x, y :: (0 <= x < f.width && 0 <= y < f.height &&
      (y != i || x < 2 || f.width - 2 <= x)) ==> SweepLine(k, f, i).val[x][y] == f.val[x][y]
    ensures !AlongRows(k) ==> forall x, y :: (0 <= x < f.width && 0 <= y < f.height &&
      (x != i || y < 2 || f.height - 2 <= y)) ==> SweepLine(k, f, i).val[x][y] == f.val[x][y]
  {
  }

  /** Cell (x, y) of row y after `reconstructStepLR(y)`. */
  lemma StepCellLR(f: Field, y: int, x: int)
    requires f.Valid() && 0 <= y < f.height && 2 <= x < f.width - 2
    ensures var v := SweepLine(LR, f, y).val;
      v[x][y] == (f.val[x][y] + v[x - 1][y] + f.gx[x - 1][y]) / 2.0
  {
    ForwardStep(LR, f, y, x);
  }

  /** Cell (x, y) of row y after `reconstructStepRL(y)`. */
  lemma StepCellRL(f: Field, y: int, x: int)
    requires f.Valid() && 0 <= y < f.height && 2 <= x < f.width - 2
    ensures var v := SweepLine(RL, f, y).val;
      v[x][y] == (f.val[x][y] + v[x + 1][y] - f.gx[x][y]) / 2.0
  {
    BackwardStep(RL, f, y, x);
  }

  /** Cell (x, y) of column x after `reconstructStepTB(x)`. */
  lemma StepCellTB(f: Field, x: int, y: int)
    requires f.Valid() && 0 <= x < f.width && 2 <= y < f.height - 2
    ensures var v := SweepLine(TB, f, x).val;
      v[x][y] == (f.val[x][y] + v[x][y - 1] + f.gy[x][y - 1]) / 2.0
  {
    ForwardStep(TB, f, x, y);
  }

  /** Cell (x, y) of column x after `reconstructStepBT(x)`. */
  lemma StepCellBT(f: Field, x: int, y: int)
    requires f.Valid() && 0 <= x < f.width && 2 <= y < f.height - 2
    ensures var v := SweepLine(BT, f, x).val;
      v[x][y] == (f.val[x][y] + v[x][y + 1] - f.gy[x][y]) / 2.0
  {
    BackwardStep(BT, f, x, y);
  }

  predicate LinesInRange(k: Kernel, f: Field, ks: seq<int>) {
    forall j :: 0 <= j < |ks| ==> 0 <= ks[j] < LineCount(k, f)
  }

  /** The per-line kernel applied to the lines `ks`, one after the other. */
  function ApplyLines(k: Kernel, f: Field, ks: seq<int>): (f': Field)
    requires f.Valid() && LinesInRange(k, f, ks)
    ensures f'.Valid() && f'.width == f.width && f'.height == f.height
    ensures f'.gx == f.gx && f'.gy == f.gy
    decreases |ks|
  {
    if ks == [] then f else ApplyLines(k, SweepLine(k, f, ks[0]), ks[1..])
  }

  /** The integers lo, lo+1, ..., hi-1 in increasing order. */
  function Range(lo: int, hi: int): (r: seq<int>)
    ensures |r| == if lo <= hi then hi - lo else 0
    ensures forall j :: 0 <= j < |r| ==> r[j] == lo + j
    decreases hi - lo
  {
    if hi <= lo then [] else Range(lo, hi - 1) + [hi - 1]
  }

  /** The lines a whole sweep visits: 2 .. LineCount-3. */
  function InteriorLines(k: Kernel, f: Field): seq<int> {
    Range(2, LineCount(k, f) - 2)
  }

  /** A whole sweep, as the source runs it: the per-line kernel on every interior line in
      index order (`reconstructStepLR()` and its three siblings). */
  function Step(k: Kernel, f: Field): (f': Field)
    requires f.Valid()
    ensures f'.Valid() && f'.width == f.width && f'.height == f.height
    ensures f'.gx == f.gx && f'.gy == f.gy
  {
    ApplyLines(k, f, InteriorLines(k, f))
  }

  /** `CPUReconstruct(n)`: steps 0 .. n-1, step s running kernel `KernelOf(s)`. */
  function Reconstruct(f: Field, n: int): (f': Field)
    requires f.Valid()
    ensures f'.Valid() && f'.width == f.width && f'.height == f.height
    ensures f'.gx == f.gx && f'.gy == f.gy
    decreases n
  {
    if n <= 0 then f else Step(KernelOf(n - 1), Reconstruct(f, n - 1))
  }

  // ---------------------------------------------------------------------------
  // Lines are independent: a per-line kernel reads and writes only its own line.

  function Elements(ks: seq<int>): set<int> {
    set j | 0 <= j < |ks| :: ks[j]
  }

  predicate Distinct(ks: seq<int>) {
    forall a, b :: 0 <= a < b < |ks| ==> ks[a] != ks[b]
  }

  /** Sweeping line a changes no cell off line a. */
  lemma SweepLineTouchesOnlyItsLine(k: Kernel, f: Field, a: int, x: int, y: int)
    requires f.Valid() && 0 <= a < LineCount(k, f)
    requires 0 <= x < f.width && 0 <= y < f.height && LineIndex(k, x, y) != a
    ensures SweepLine(k, f, a).val[x][y] == f.val[x][y]
  {
  }

  /** Every line other than a, and every gradient, reads the same after line a is swept. */
  lemma OtherLinesUnchanged(k: Kernel, f: Field, a: int, r: int)
    requires f.Valid() && 0 <= a < LineCount(k, f) && 0 <= r < LineCount(k, f) && r != a
    ensures SweptLine(k, SweepLine(k, f, a), r) == SweptLine(k, f, r)
  {
    var g := SweepLine(k, f, a);
    var lg, lf := LineOf(k, g, g.val, r), LineOf(k, f, f.val, r);
    assert |lg| == |lf|;
    forall j | 0 <= j < |lg| ensures lg[j] == lf[j] {
      if AlongRows(k) {
        SweepLineTouchesOnlyItsLine(k, f, a, j, r);
      } else {
        SweepLineTouchesOnlyItsLine(k, f, a, r, j);
      }
    }
    assert lg == lf;
  }

  /** Sweeping line a and then the lines of R (a not in R) is sweeping R + {a} at once. */
  lemma SweepLinesCompose(k: Kernel, f: Field, a: int, R: set<int>)
    requires f.Valid() && 0 <= a < LineCount(k, f) && a !in R
    ensures SweepLines(k, SweepLine(k, f, a), R) == SweepLines(k, f, R + {a})
  {
    var g := SweepLine(k, f, a);
    var lhs, rhs := SweepLines(k, g, R), SweepLines(k, f, R + {a});
    forall x, y | 0 <= x < f.width && 0 <= y < f.height ensures lhs.val[x][y] == rhs.val[x][y] {
      var i := LineIndex(k, x, y);
      if i in R {
        OtherLinesUnchanged(k, f, a, i);
      }
    }
    GridExt(lhs.val, rhs.val, f.width, f.height);
  }

  /** Running the per-line kernel on distinct lines, in the order given, is the same as
      sweeping all of them against the starting values: the order does not matter. */
  lemma {:induction false} LinesIndependent(k: Kernel, f: Field, ks: seq<int>)
    requires f.Valid() && LinesInRange(k, f, ks) && Distinct(ks)
    ensures ApplyLines(k, f, ks) == SweepLines(k, f, Elements(ks))
    decreases |ks|
  {
    if ks == [] {
      assert Elements(ks) == {};
      var g := SweepLines(k, f, {});
      GridExt(g.val, f.val, f.width, f.height);
    } else {
      var rest := ks[1..];
      assert LinesInRange(k, SweepLine(k, f, ks[0]), rest);
      assert Distinct(rest);
      LinesIndependent(k, SweepLine(k, f, ks[0]), rest);
      assert ks[0] !in Elements(rest);
      SweepLinesCompose(k, f, ks[0], Elements(rest));
      assert Elements(ks) == Elements(rest) + {ks[0]};
    }
  }

  /** The whole lines 2 .. LineCount-3, as a set. */
  function InteriorSet(k: Kernel, f: Field): (S: set<int>)
    ensures forall i :: i in S <==> 2 <= i < LineCount(k, f) - 2
  {
    var ks := InteriorLines(k, f);
    assert forall i :: 2 <= i < LineCount(k, f) - 2 ==> i in Elements(ks) by {
      forall i | 2 <= i < LineCount(k, f) - 2 ensures i in Elements(ks) {
        assert ks[i - 2] == i;
      }
    }
    Elements(ks)
  }

  /** A whole sweep relaxes every interior line against the values before the sweep. */
  lemma StepSweepsInterior(k: Kernel, f: Field)
    requires f.Valid()
    ensures Step(k, f) == SweepLines(k, f, InteriorSet(k, f))
  {
    LinesIndependent(k, f, InteriorLines(k, f));
  }

  /** Running one more line after a prefix of lines: what a loop over increasing lines does
      one iteration at a time. */
  lemma {:induction false} ApplyLinesSnoc(k: Kernel, f: Field, ks: seq<int>, i: int)
    requires f.Valid() && LinesInRange(k, f, ks) && 0 <= i < LineCount(k, f)
    ensures LinesInRange(k, f, ks + [i])
    ensures ApplyLines(k, f, ks + [i]) == SweepLine(k, ApplyLines(k, f, ks), i)
    decreases |ks|
  {
    if ks == [] {
      assert ks + [i] == [i];
      assert [i][1..] == [];
    } else {
      var g := SweepLine(k, f, ks[0]);
      assert LinesInRange(k, g, ks[1..]);
      ApplyLinesSnoc(k, g, ks[1..], i);
      assert (ks + [i])[0] == ks[0];
      assert (ks + [i])[1..] == ks[1..] + [i];
    }
  }

  // ---------------------------------------------------------------------------
  // The 2-pixel border.

  predicate InInterior(f: Field, x: int, y: int) {
    2 <= x < f.width - 2 && 2 <= y < f.height - 2
  }

  /** g differs from f at most in the values of interior cells. */
  ghost predicate SameOutsideInterior(f: Field, g: Field)
    requires f.Valid() && g.Valid()
  {
    g.width == f.width && g.height == f.height && g.gx == f.gx && g.gy == f.gy &&
    forall x, y :: 0 <= x < f.width && 0 <= y < f.height && !InInterior(f, x, y) ==>
      g.val[x][y] == f.val[x][y]
  }

  /** Sweeping interior lines writes only cells with 2 <= x < width-2 and 2 <= y < height-2. */
  lemma SweepLinesWritesInterior(k: Kernel, f: Field, S: set<int>)
    requires f.Valid() && S <= InteriorSet(k, f)
    ensures SameOutsideInterior(f, SweepLines(k, f, S))
  {
    var g := SweepLines(k, f, S);
    forall x, y | 0 <= x < f.width && 0 <= y < f.height && !InInterior(f, x, y)
      ensures g.val[x][y] == f.val[x][y]
    {
      var i, j := LineIndex(k, x, y), Position(k, x, y);
      if i in S {
        var r := LineOf(k, f, f.val, i);
        assert !(2 <= j < |r| - 2);
        assert r[j] == f.val[x][y];
      }
    }
  }

  /** A whole sweep never writes the 2-pixel border nor the gradients. */
  lemma StepKeepsBorder(k: Kernel, f: Field)
    requires f.Valid()
    ensures SameOutsideInterior(f, Step(k, f))
  {
    StepSweepsInterior(k, f);
    SweepLinesWritesInterior(k, f, InteriorSet(k, f));
  }

  /** However many steps run, the border of the values and both gradients are unchanged. */
  lemma {:induction false} ReconstructKeepsBorder(f: Field, n: int)
    requires f.Valid()
    ensures SameOutsideInterior(f, Reconstruct(f, n))
    decreases n
  {
    if n > 0 {
      ReconstructKeepsBorder(f, n - 1);
      StepKeepsBorder(KernelOf(n - 1), Reconstruct(f, n - 1));
    }
  }

  // ---------------------------------------------------------------------------
  // A consistent field is a fixed point of every kernel.

  ghost predicate LineConsistent(r: seq<real>, g: seq<real>) {
    |g| == |r| && forall j :: 0 <= j < |r| - 1 ==> g[j] == r[j + 1] - r[j]
  }

  lemma {:induction false} ForwardAtFixed(r: seq<real>, g: seq<real>, i: int)
    requires LineConsistent(r, g) && 1 <= i < |r| - 2
    ensures ForwardAt(r, g, i) == r[i]
    decreases i
  {
    if i > 1 {
      ForwardAtFixed(r, g, i - 1);
    }
  }

  lemma {:induction false} BackwardAtFixed(r: seq<real>, g: seq<real>, i: int)
    requires LineConsistent(r, g) && 2 <= i <= |r| - 2
    ensures BackwardAt(r, g, i) == r[i]
    decreases |r| - i
  {
    if i < |r| - 2 {
      BackwardAtFixed(r, g, i + 1);
    }
  }

  /** Along a line whose gradient is the exact difference of its values, neither
      one-dimensional kernel changes anything. */
  lemma LineKernelsFixed(r: seq<real>, g: seq<real>)
    requires LineConsistent(r, g)
    ensures Forward(r, g) == r && Backward(r, g) == r
  {
    forall i | 2 <= i < |r| - 2 ensures ForwardAt(r, g, i) == r[i] && BackwardAt(r, g, i) == r[i] {
      ForwardAtFixed(r, g, i);
      BackwardAtFixed(r, g, i);
    }
  }

  /** If gx and gy are the exact forward differences of val, a whole sweep of any of the
      four kernels leaves the field as it was. */
  lemma StepFixesConsistent(k: Kernel, f: Field)
    requires f.Valid() && Consistent(f)
    ensures Step(k, f) == f
  {
    StepSweepsInterior(k, f);
    var g := SweepLines(k, f, InteriorSet(k, f));
    forall i | i in InteriorSet(k, f) ensures SweptLine(k, f, i) == LineOf(k, f, f.val, i) {
      var r, d := LineOf(k, f, f.val, i), LineOf(k, f, Gradient(k, f), i);
      assert LineConsistent(r, d);
      LineKernelsFixed(r, d);
    }
    GridExt(g.val, f.val, f.width, f.height);
  }

  /** Reconstruction from a consistent field, for any number of steps, is the identity. */
  lemma {:induction false} ReconstructFixesConsistent(f: Field, n: int)
    requires f.Valid() && Consistent(f)
    ensures Reconstruct(f, n) == f
    decreases n
  {
    if n > 0 {
      ReconstructFixesConsistent(f, n - 1);
      StepFixesConsistent(KernelOf(n - 1), f);
    }
  }

  /** The ramp val[x][y] = x + y with its exact gradients (gx = gy = 1 wherever computed). */
  function Ramp(w: nat, h: nat): (f: Field)
    ensures f.Valid() && Consistent(f)
  {
    Field(w, h,
      seq(w, x => seq(h, y => (x + y) as real)),
      seq(w, x => seq(h, y => if x < w - 1 && y < h - 1 then 1.0 else 0.0)),
      seq(w, x => seq(h, y => if x < w - 1 && y < h - 1 then 1.0 else 0.0)))
  }

  /** On the 10 x 10 ramp the first relaxed cell keeps its value: (4 + 3 + 1) / 2 = 4. */
  lemma RampScenario(n: int)
    ensures Step(LR, Ramp(10, 10)).val[2][2] == 4.0
    ensures Reconstruct(Ramp(10, 10), n) == Ramp(10, 10)
  {
    StepFixesConsistent(LR, Ramp(10, 10));
    ReconstructFixesConsistent(Ramp(10, 10), n);
  }
}
