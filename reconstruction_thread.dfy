/** The work split of the multi-core reconstruction: in every step, worker `id` of `nbCPU`
    runs the per-line kernel on the interior lines whose index is `id` modulo `nbCPU`. The
    workers are run one after the other; the semaphores that order them are not modelled. */
module Workers {
  import opened Grids
  import opened Relaxation
  import opened Gradients

  /** The lines lo .. hi-1 that worker `id` owns, in increasing order: the indices the loop
      `for (y = lo; y < hi; y++) if (y % nbCPU == id)` runs its kernel on. */
  function Owned(lo: int, hi: int, nbCPU: int, id: int): (o: seq<int>)
    requires 0 < nbCPU
    ensures forall i :: i in o <==> lo <= i < hi && i % nbCPU == id
    ensures forall j :: 0 <= j < |o| ==> lo <= o[j] < hi
    ensures Distinct(o)
    decreases hi - lo
  {
    if hi <= lo then []
    else
      var rest := Owned(lo, hi - 1, nbCPU, id);
      if (hi - 1) % nbCPU == id then rest + [hi - 1] else rest
  }

  /** The lines worker `id` sweeps in a step running kernel k. */
  function WorkerLines(k: Kernel, f: Field, nbCPU: int, id: int): (ks: seq<int>)
    requires 0 < nbCPU
    ensures LinesInRange(k, f, ks) && Distinct(ks)
    ensures forall i :: i in ks <==> 2 <= i < LineCount(k, f) - 2 && i % nbCPU == id
  {
    Owned(2, LineCount(k, f) - 2, nbCPU, id)
  }

  /** A sequence and its set of elements hold the same integers. */
  lemma ElementsAre(ks: seq<int>)
    ensures forall i :: i in Elements(ks) <==> i in ks
  {
    forall i | i in ks ensures i in Elements(ks) {
      var j :| 0 <= j < |ks| && ks[j] == i;
    }
  }

  /** The lines worker `id` sweeps, as a set. */
  function WorkerSet(k: Kernel, f: Field, nbCPU: int, id: int): (S: set<int>)
    requires 0 < nbCPU
    ensures forall i :: i in S <==> 2 <= i < LineCount(k, f) - 2 && i % nbCPU == id
  {
    var ks := WorkerLines(k, f, nbCPU, id);
    ElementsAre(ks);
    Elements(ks)
  }

  /** What worker `id` does to the map in one step. */
  function WorkerStep(k: Kernel, f: Field, nbCPU: int, id: int): (g: Field)
    requires f.Valid() && 0 < nbCPU
    ensures g.Valid() && g.width == f.width && g.height == f.height && g.gx == f.gx && g.gy == f.gy
  {
    ApplyLines(k, f, WorkerLines(k, f, nbCPU, id))
  }

  /** The workers `ids`, one after the other, each running its share of the same step. */
  function RunWorkers(k: Kernel, f: Field, nbCPU: int, ids: seq<int>): (g: Field)
    requires f.Valid() && 0 < nbCPU
    ensures g.Valid() && g.width == f.width && g.height == f.height && g.gx == f.gx && g.gy == f.gy
    decreases |ids|
  {
    if ids == [] then f else RunWorkers(k, WorkerStep(k, f, nbCPU, ids[0]), nbCPU, ids[1..])
  }

  /** The interior lines owned by some worker of `ids`. */
  function CoveredBy(k: Kernel, f: Field, nbCPU: int, ids: seq<int>): (S: set<int>)
    requires 0 < nbCPU
    ensures forall i :: i in S <==> 2 <= i < LineCount(k, f) - 2 && i % nbCPU in ids
    decreases |ids|
  {
    if ids == [] then {}
    else
      var S := WorkerSet(k, f, nbCPU, ids[0]) + CoveredBy(k, f, nbCPU, ids[1..]);
      assert forall i :: i % nbCPU in ids <==> i % nbCPU == ids[0] || i % nbCPU in ids[1..] by {
        assert ids == [ids[0]] + ids[1..];
      }
      S
  }

  // ---------------------------------------------------------------------------
  // The partition.

  /** Two different workers never share a line, and every interior line belongs to the
      worker numbered by its remainder, so the workers 0 .. nbCPU-1 cover the interior. */
  lemma WorkersPartitionInterior(k: Kernel, f: Field, nbCPU: int, a: int, b: int)
    requires 0 < nbCPU
    ensures a != b ==> WorkerSet(k, f, nbCPU, a) * WorkerSet(k, f, nbCPU, b) == {}
    ensures forall i :: i in InteriorSet(k, f) ==> 0 <= i % nbCPU < nbCPU && i in WorkerSet(k, f, nbCPU, i % nbCPU)
    ensures forall i :: i in WorkerSet(k, f, nbCPU, a) ==> i in InteriorSet(k, f)
  {
    if a != b {
      forall i | i in WorkerSet(k, f, nbCPU, a) ensures i !in WorkerSet(k, f, nbCPU, b) {
      }
    }
  }

  /** Sweeping the lines of A and then those of B (disjoint from A) is sweeping A + B at once. */
  lemma SweepLinesUnion(k: Kernel, f: Field, A: set<int>, B: set<int>)
    requires f.Valid() && A * B == {}
    ensures SweepLines(k, SweepLines(k, f, A), B) == SweepLines(k, f, A + B)
  {
    var g := SweepLines(k, f, A);
    var lhs, rhs := SweepLines(k, g, B), SweepLines(k, f, A + B);
    assert forall i :: !(i in A && i in B) by {
      forall i ensures !(i in A && i in B) {
        assert (i in A && i in B) ==> i in A * B;
      }
    }
    forall x, y | 0 <= x < f.width && 0 <= y < f.height ensures lhs.val[x][y] == rhs.val[x][y] {
      var i := LineIndex(k, x, y);
      if i in B {
        LineUntouched(k, f, A, i);
      }
    }
    GridExt(lhs.val, rhs.val, f.width, f.height);
  }

  /** A line outside A reads the same, and relaxes the same, after the lines of A are swept. */
  lemma LineUntouched(k: Kernel, f: Field, A: set<int>, r: int)
    requires f.Valid() && 0 <= r < LineCount(k, f) && r !in A
    ensures SweptLine(k, SweepLines(k, f, A), r) == SweptLine(k, f, r)
  {
    var g := SweepLines(k, f, A);
    var lg, lf := LineOf(k, g, g.val, r), LineOf(k, f, f.val, r);
    assert |lg| == |lf|;
    forall j | 0 <= j < |lg| ensures lg[j] == lf[j] {
      if AlongRows(k) {
        assert SweptCell(k, f, A, j, r) == f.val[j][r];
      } else {
        assert SweptCell(k, f, A, r, j) == f.val[r][j];
      }
    }
    assert lg == lf;
  }

  /** Workers with distinct ids, run one after the other, sweep every line any of them owns,
      each against the values before the step: the outcome does not depend on their order. */
  lemma {:induction false} RunWorkersSweeps(k: Kernel, f: Field, nbCPU: int, ids: seq<int>)
    requires f.Valid() && 0 < nbCPU && Distinct(ids)
    ensures RunWorkers(k, f, nbCPU, ids) == SweepLines(k, f, CoveredBy(k, f, nbCPU, ids))
    decreases |ids|
  {
    if ids == [] {
      var g := SweepLines(k, f, {});
      GridExt(g.val, f.val, f.width, f.height);
    } else {
      var A, rest := WorkerSet(k, f, nbCPU, ids[0]), ids[1..];
      var g := WorkerStep(k, f, nbCPU, ids[0]);
      WorkerStepSweeps(k, f, nbCPU, ids[0]);
      assert Distinct(rest);
      RunWorkersSweeps(k, g, nbCPU, rest);
      var B := CoveredBy(k, f, nbCPU, rest);
      CoveredBySameShape(k, g, f, nbCPU, rest);
      FirstWorkerApart(k, f, nbCPU, ids);
      SweepLinesUnion(k, f, A, B);
    }
  }

  /** One worker relaxes its own lines against the values before the step. */
  lemma WorkerStepSweeps(k: Kernel, f: Field, nbCPU: int, id: int)
    requires f.Valid() && 0 < nbCPU
    ensures WorkerStep(k, f, nbCPU, id) == SweepLines(k, f, WorkerSet(k, f, nbCPU, id))
  {
    LinesIndependent(k, f, WorkerLines(k, f, nbCPU, id));
  }

  /** Which lines are covered depends on the field only through its dimensions. */
  lemma CoveredBySameShape(k: Kernel, f: Field, g: Field, nbCPU: int, ids: seq<int>)
    requires 0 < nbCPU && f.width == g.width && f.height == g.height
    ensures CoveredBy(k, f, nbCPU, ids) == CoveredBy(k, g, nbCPU, ids)
  {
  }

  /** The first of distinct workers shares no line with the others. */
  lemma FirstWorkerApart(k: Kernel, f: Field, nbCPU: int, ids: seq<int>)
    requires 0 < nbCPU && Distinct(ids) && ids != []
    ensures WorkerSet(k, f, nbCPU, ids[0]) * CoveredBy(k, f, nbCPU, ids[1..]) == {}
  {
    assert ids[0] !in ids[1..];
  }

  /** All nbCPU workers, in any order, do exactly what one whole sequential sweep does. */
  lemma WorkersComposeToStep(k: Kernel, f: Field, nbCPU: int, ids: seq<int>)
    requires f.Valid() && 0 < nbCPU && Distinct(ids)
    requires forall id :: id in ids <==> 0 <= id < nbCPU
    ensures RunWorkers(k, f, nbCPU, ids) == Step(k, f)
  {
    RunWorkersSweeps(k, f, nbCPU, ids);
    assert CoveredBy(k, f, nbCPU, ids) == InteriorSet(k, f);
    StepSweepsInterior(k, f);
  }

  // ---------------------------------------------------------------------------
  // The worker.

  /** `ReconstructionThread`: worker `id` of `nbCPU`, all sharing one map. */
  class ReconstructionThread {
    const gradientMap: GradientMap
    const id: int
    const nbCPU: int

    constructor (gm: GradientMap, id: int, nbCPU: int)
      ensures gradientMap == gm && this.id == id && this.nbCPU == nbCPU
    {
      gradientMap := gm;
      this.id := id;
      this.nbCPU := nbCPU;
    }

    /** One turn of the loop of `run()`: a worker that sees `isDone` stops without touching
        the map; otherwise it runs its share of step `step`, the kernel chosen by `step % 4`. */
    method RunStep(step: int, isDone: bool) returns (ran: bool)
      requires gradientMap.Valid() && 0 < nbCPU && 0 <= step
      modifies gradientMap.val
      ensures gradientMap.Valid() && ran == !isDone
      ensures gradientMap.Model() ==
        if isDone then old(gradientMap.Model())
        else WorkerStep(KernelOf(step), old(gradientMap.Model()), nbCPU, id)
    {
      if isDone {
        return false;
      }
      var phase := step % 4;
      if phase == 0 {
        Share(LR);
      } else if phase == 1 {
        Share(TB);
      } else if phase == 2 {
        Share(RL);
      } else {
        Share(BT);
      }
      ran := true;
    }

    /** One case of the switch: the lines 2 .. n-3 whose index is `id` modulo `nbCPU`, in
        increasing order, each swept by the per-line kernel of k. */
    method Share(k: Kernel)
      requires gradientMap.Valid() && 0 < nbCPU
      modifies gradientMap.val
      ensures gradientMap.Valid() && gradientMap.Model() == WorkerStep(k, old(gradientMap.Model()), nbCPU, id)
    {
      var gm := gradientMap;
      ghost var f := gm.Model();
      var n := if AlongRows(k) then gm.height else gm.width;
      for i := 2 to Interior(n)
        invariant LinesInRange(k, f, Owned(2, i, nbCPU, id))
        invariant gm.Valid() && gm.Model() == ApplyLines(k, f, Owned(2, i, nbCPU, id))
      {
        if i % nbCPU == id {
          ApplyLinesSnoc(k, f, Owned(2, i, nbCPU, id), i);
          SweepOne(gm, k, i);
        }
      }
      assert n == LineCount(k, f);
      assert Owned(2, Interior(n), nbCPU, id) == WorkerLines(k, f, nbCPU, id) by {
        if n < 4 {
          assert Owned(2, n - 2, nbCPU, id) == [];
        }
      }
    }
  }

  /** The per-line kernel of k on line i of the map. */
  method SweepOne(gm: GradientMap, k: Kernel, i: int)
    requires gm.Valid() && 0 <= i < LineCount(k, gm.Model())
    modifies gm.val
    ensures gm.Valid() && gm.Model() == SweepLine(k, old(gm.Model()), i)
  {
    if k == LR {
      gm.ReconstructRowLR(i);
    } else if k == RL {
      gm.ReconstructRowRL(i);
    } else if k == TB {
      gm.ReconstructColumnTB(i);
    } else {
      gm.ReconstructColumnBT(i);
    }
  }

  /** The ids of the workers, in order. */
  function Ids(threads: seq<ReconstructionThread>): (ids: seq<int>)
    ensures |ids| == |threads| && forall j :: 0 <= j < |threads| ==> ids[j] == threads[j].id
  {
    seq(|threads|, j requires 0 <= j < |threads| => threads[j].id)
  }

  /** One step of the multi-core reconstruction, with the workers run one after the other
      between two releases of the step lock: each runs its share of the step, and when the
      ids are 0 .. nbCPU-1, each once, together they do what one sequential sweep does. */
  method RunRound(threads: seq<ReconstructionThread>, gm: GradientMap, nbCPU: int, step: int)
    requires gm.Valid() && 0 < nbCPU && 0 <= step
    requires forall j :: 0 <= j < |threads| ==> threads[j].gradientMap == gm && threads[j].nbCPU == nbCPU
    modifies gm.val
    ensures gm.Valid()
    ensures gm.Model() == RunWorkers(KernelOf(step), old(gm.Model()), nbCPU, Ids(threads))
    ensures Distinct(Ids(threads)) && (forall id :: id in Ids(threads) <==> 0 <= id < nbCPU) ==>
      gm.Model() == Step(KernelOf(step), old(gm.Model()))
  {
    ghost var f := gm.Model();
    ghost var ids := Ids(threads);
    for j := 0 to |threads|
      invariant gm.Valid()
      invariant RunWorkers(KernelOf(step), f, nbCPU, ids) == RunWorkers(KernelOf(step), gm.Model(), nbCPU, ids[j..])
    {
      assert ids[j..][0] == threads[j].id && ids[j..][1..] == ids[j + 1..];
      var _ := threads[j].RunStep(step, false);
    }
    assert ids[|threads|..] == [];
    assert Ids(threads) == ids;
    if Distinct(ids) && (forall id :: id in ids <==> 0 <= id < nbCPU) {
      WorkersComposeToStep(KernelOf(step), f, nbCPU, ids);
    }
  }

  /** `MultiCPUReconstruct(nbSteps)` with the lock-step of its semaphores taken as given:
      one worker per processor, all of them finishing step s before any starts step s+1.
      It then computes exactly what the sequential `CPUReconstruct(nbSteps)` computes. */
  method MultiCPUReconstruct(gm: GradientMap, nbCPU: int, nbSteps: int)
    requires gm.Valid() && 0 < nbCPU
    modifies gm.val
    ensures gm.Valid() && gm.Model() == Reconstruct(old(gm.Model()), nbSteps)
  {
    ghost var f := gm.Model();
    var threads := StartThreads(gm, nbCPU);
    for step := 0 to Count(nbSteps)
      invariant gm.Valid() && gm.Model() == Reconstruct(f, step)
    {
      RunRound(threads, gm, nbCPU, step);
    }
  }

  /** The workers 0 .. nbCPU-1 of `MultiCPUReconstruct`, all on the same map. */
  method StartThreads(gm: GradientMap, nbCPU: int) returns (threads: seq<ReconstructionThread>)
    requires 0 < nbCPU
    ensures forall j :: 0 <= j < |threads| ==> threads[j].gradientMap == gm && threads[j].nbCPU == nbCPU
    ensures Distinct(Ids(threads)) && forall id :: id in Ids(threads) <==> 0 <= id < nbCPU
  {
    threads := [];
    for cpu := 0 to nbCPU
      invariant |threads| == cpu
      invariant forall j :: 0 <= j < cpu ==>
        threads[j].gradientMap == gm && threads[j].nbCPU == nbCPU && threads[j].id == j
    {
      var t := new ReconstructionThread(gm, cpu, nbCPU);
      threads := threads + [t];
    }
    var ids := Ids(threads);
    assert forall j :: 0 <= j < nbCPU ==> ids[j] == j;
    forall id | 0 <= id < nbCPU ensures id in ids {
      assert ids[id] == id;
    }
  }
}
