/** The gradient-domain command (`AbstractGradientManipulation.execute`): read the
    reconstruction options from the children of the command element, split the image into one gradient map
    per channel, edit the maps, reconstruct all three with the chosen strategy and paste
    them back, channel by channel. The option text is read through two functions supplied
    by the caller: `preprocess` (the script's alias substitution) and `parse` (Java's
    `Integer.parseInt`, `None` where it raises). */
module Manipulation {
  import opened Grids
  import opened Relaxation
  import opened Images
  import opened Gradients
  import opened Outcomes
  import opened Commands
  import Workers

  // ---------------------------------------------------------------------------
  // The options.

  /** `SINGLE_CORE`, `MULTI_CORES` and `GPU`. */
  datatype Strategy = SingleCore | MultiCores | Gpu

  /** The options of a run: the number of steps, the strategy and the OpenCL platform. */
  datatype Settings = Settings(nbSteps: int, algo: Strategy, gpu: int)

  /** 500 steps on all processors, platform 0: what a task without options runs. */
  const DEFAULTS: Settings := Settings(500, MultiCores, 0)

  function LowerAscii(c: char): (d: char)
    ensures 'A' <= c <= 'Z' ==> d as int == c as int + 32
    ensures !('A' <= c <= 'Z') ==> d == c
  {
    if 'A' <= c <= 'Z' then (c as int + 32) as char else c
  }

  /** `String.equalsIgnoreCase` against a lower-case ASCII name. */
  predicate EqualsIgnoreCase(a: string, lower: string) {
    |a| == |lower| && forall i :: 0 <= i < |a| ==> LowerAscii(a[i]) == lower[i]
  }

  /** The child names that change an option; any other child is skipped. */
  predicate IsOption(t: Tag) {
    t.name == "iterations" || IsStrategy(t)
  }

  predicate IsStrategy(t: Tag) {
    t.name == "multi-core" || t.name == "single-core" || EqualsIgnoreCase(t.name, "gpu")
  }

  /** The strategy a strategy tag selects. */
  function StrategyOf(t: Tag): Strategy
    requires IsStrategy(t)
  {
    if t.name == "multi-core" then MultiCores else if t.name == "single-core" then SingleCore else Gpu
  }

  /** One child of the option loop. */
  function ReadTag(s: Settings, t: Tag, preprocess: string -> string, parse: string -> Option<int>): (r: Result<Settings>)
    ensures r.Err? <==>
      ((t.name == "iterations" && parse(preprocess(t.text)).None?) ||
       (t.name != "iterations" && IsStrategy(t) && StrategyOf(t) == Gpu && t.text != "" && parse(t.text).None?))
    ensures r.Ok? && t.name == "iterations" ==> r.value == s.(nbSteps := parse(preprocess(t.text)).value)
    ensures r.Ok? && t.name != "iterations" && IsStrategy(t) ==> r.value.algo == StrategyOf(t) && r.value.nbSteps == s.nbSteps
    ensures r.Ok? && r.value.gpu != s.gpu ==> t.name != "iterations" && IsStrategy(t) && StrategyOf(t) == Gpu && t.text != ""
    ensures !IsOption(t) ==> r == Ok(s)
  {
    if t.name == "iterations" then
      match parse(preprocess(t.text))
      case None => Err(NumberFormat(preprocess(t.text)))
      case Some(n) => Ok(s.(nbSteps := n))
    else if t.name == "multi-core" then Ok(s.(algo := MultiCores))
    else if t.name == "single-core" then Ok(s.(algo := SingleCore))
    else if EqualsIgnoreCase(t.name, "gpu") then
      if t.text != "" then
        match parse(t.text)
        case None => Err(NumberFormat(t.text))
        case Some(n) => Ok(s.(algo := Gpu, gpu := n))
      else Ok(s.(algo := Gpu))
    else Ok(s)
  }

  /** The children read in order from the settings s; the first failure stops the scan. */
  function ReadTags(s: Settings, ts: seq<Tag>, preprocess: string -> string, parse: string -> Option<int>): Result<Settings>
    decreases |ts|
  {
    if ts == [] then Ok(s)
    else match ReadTag(s, ts[0], preprocess, parse)
      case Err(e) => Err(e)
      case Ok(s') => ReadTags(s', ts[1..], preprocess, parse)
  }

  /** The options of a task. */
  function Parameters(ts: seq<Tag>, preprocess: string -> string, parse: string -> Option<int>): Result<Settings> {
    ReadTags(DEFAULTS, ts, preprocess, parse)
  }

  /** Reading a + b is reading a, then b from where a left off. */
  lemma {:induction false} ReadTagsAppend(s: Settings, a: seq<Tag>, b: seq<Tag>,
                                          preprocess: string -> string, parse: string -> Option<int>)
    ensures ReadTags(s, a + b, preprocess, parse) ==
      match ReadTags(s, a, preprocess, parse)
      case Err(e) => Err(e)
      case Ok(s') => ReadTags(s', b, preprocess, parse)
    decreases |a|
  {
    if a == [] {
      assert a + b == b;
    } else {
      assert (a + b)[0] == a[0] && (a + b)[1..] == a[1..] + b;
      match ReadTag(s, a[0], preprocess, parse)
      case Err(e) =>
      case Ok(s') => ReadTagsAppend(s', a[1..], b, preprocess, parse);
    }
  }

  /** A task without options runs with the defaults. */
  lemma NoOptionsDefaults(ts: seq<Tag>, preprocess: string -> string, parse: string -> Option<int>)
    requires forall i :: 0 <= i < |ts| ==> !IsOption(ts[i])
    ensures Parameters(ts, preprocess, parse) == Ok(Settings(500, MultiCores, 0))
  {
    KeepsThrough(DEFAULTS, ts, preprocess, parse);
  }

  /** Children that are not options leave the settings as they are. */
  lemma {:induction false} KeepsThrough(s: Settings, ts: seq<Tag>, preprocess: string -> string, parse: string -> Option<int>)
    requires forall i :: 0 <= i < |ts| ==> !IsOption(ts[i])
    ensures ReadTags(s, ts, preprocess, parse) == Ok(s)
    decreases |ts|
  {
    if ts != [] {
      KeepsThrough(s, ts[1..], preprocess, parse);
    }
  }

  /** An unknown child anywhere in the list changes nothing. */
  lemma UnknownChildIgnored(a: seq<Tag>, t: Tag, b: seq<Tag>, preprocess: string -> string, parse: string -> Option<int>)
    requires !IsOption(t)
    ensures Parameters(a + [t] + b, preprocess, parse) == Parameters(a + b, preprocess, parse)
  {
    ReadTagsAppend(DEFAULTS, a + [t], b, preprocess, parse);
    ReadTagsAppend(DEFAULTS, a, [t], preprocess, parse);
    ReadTagsAppend(DEFAULTS, a, b, preprocess, parse);
    match ReadTags(DEFAULTS, a, preprocess, parse)
    case Err(e) =>
    case Ok(s) => assert ReadTags(s, [t], preprocess, parse) == Ok(s);
  }

  /** Children that are neither `iterations` tags nor strategy tags keep the step count,
      respectively the strategy. */
  lemma {:induction false} StepsKeptThrough(s: Settings, ts: seq<Tag>, preprocess: string -> string, parse: string -> Option<int>)
    requires forall i :: 0 <= i < |ts| ==> ts[i].name != "iterations"
    ensures ReadTags(s, ts, preprocess, parse).Ok? ==> ReadTags(s, ts, preprocess, parse).value.nbSteps == s.nbSteps
    decreases |ts|
  {
    if ts != [] {
      match ReadTag(s, ts[0], preprocess, parse)
      case Err(e) =>
      case Ok(s') => StepsKeptThrough(s', ts[1..], preprocess, parse);
    }
  }

  lemma {:induction false} StrategyKeptThrough(s: Settings, ts: seq<Tag>, preprocess: string -> string, parse: string -> Option<int>)
    requires forall i :: 0 <= i < |ts| ==> ts[i].name == "iterations" || !IsStrategy(ts[i])
    ensures ReadTags(s, ts, preprocess, parse).Ok? ==> ReadTags(s, ts, preprocess, parse).value.algo == s.algo
    decreases |ts|
  {
    if ts != [] {
      match ReadTag(s, ts[0], preprocess, parse)
      case Err(e) =>
      case Ok(s') => StrategyKeptThrough(s', ts[1..], preprocess, parse);
    }
  }

  /** The last `iterations` child sets the step count. */
  lemma LastIterationsWins(a: seq<Tag>, t: Tag, b: seq<Tag>, preprocess: string -> string, parse: string -> Option<int>)
    requires t.name == "iterations" && forall i :: 0 <= i < |b| ==> b[i].name != "iterations"
    ensures var r := Parameters(a + [t] + b, preprocess, parse);
      r.Ok? ==> parse(preprocess(t.text)).Some? && r.value.nbSteps == parse(preprocess(t.text)).value
  {
    ReadTagsAppend(DEFAULTS, a + [t], b, preprocess, parse);
    ReadTagsAppend(DEFAULTS, a, [t], preprocess, parse);
    match ReadTags(DEFAULTS, a, preprocess, parse)
    case Err(e) =>
    case Ok(s) =>
      match ReadTag(s, t, preprocess, parse)
      case Err(e) =>
      case Ok(s') =>
        assert ReadTags(DEFAULTS, a + [t], preprocess, parse) == Ok(s');
        StepsKeptThrough(s', b, preprocess, parse);
  }

  /** The last strategy child (`multi-core`, `single-core` or `gpu` in any case) sets the
      strategy. */
  lemma LastStrategyWins(a: seq<Tag>, t: Tag, b: seq<Tag>, preprocess: string -> string, parse: string -> Option<int>)
    requires t.name != "iterations" && IsStrategy(t)
    requires forall i :: 0 <= i < |b| ==> b[i].name == "iterations" || !IsStrategy(b[i])
    ensures var r := Parameters(a + [t] + b, preprocess, parse);
      r.Ok? ==> r.value.algo == StrategyOf(t)
  {
    ReadTagsAppend(DEFAULTS, a + [t], b, preprocess, parse);
    ReadTagsAppend(DEFAULTS, a, [t], preprocess, parse);
    match ReadTags(DEFAULTS, a, preprocess, parse)
    case Err(e) =>
    case Ok(s) =>
      match ReadTag(s, t, preprocess, parse)
      case Err(e) =>
      case Ok(s') =>
        assert ReadTags(DEFAULTS, a + [t], preprocess, parse) == Ok(s');
        StrategyKeptThrough(s', b, preprocess, parse);
  }

  /** `<GPU/>` and `<Gpu></Gpu>` select the accelerator and keep the platform index. */
  lemma GpuTagAnyCase(s: Settings, preprocess: string -> string, parse: string -> Option<int>)
    ensures ReadTag(s, Tag("GPU", ""), preprocess, parse) == Ok(s.(algo := Gpu))
    ensures ReadTag(s, Tag("Gpu", ""), preprocess, parse) == Ok(s.(algo := Gpu))
    ensures ReadTag(s, Tag("Single-Core", ""), preprocess, parse) == Ok(s)
  {
    assert EqualsIgnoreCase("GPU", "gpu");
    assert EqualsIgnoreCase("Gpu", "gpu");
    assert !EqualsIgnoreCase("Single-Core", "gpu");
  }

  /** The loop over the children: `nbSteps`, `algoType` and `currentGPU` updated in place. */
  method ReadParameters(ts: seq<Tag>, preprocess: string -> string, parse: string -> Option<int>)
    returns (r: Result<Settings>)
    ensures r == Parameters(ts, preprocess, parse)
  {
    var nbSteps, algoType, currentGPU := 500, MultiCores, 0;
    for i := 0 to |ts|
      invariant Parameters(ts, preprocess, parse) ==
        ReadTags(Settings(nbSteps, algoType, currentGPU), ts[i..], preprocess, parse)
    {
      assert ts[i..][0] == ts[i] && ts[i..][1..] == ts[i + 1..];
      var child := ts[i];
      if child.name == "iterations" {
        var n := parse(preprocess(child.text));
        if n.None? {
          return Err(NumberFormat(preprocess(child.text)));
        }
        nbSteps := n.value;
        continue;
      }
      if child.name == "multi-core" {
        algoType := MultiCores;
        continue;
      }
      if child.name == "single-core" {
        algoType := SingleCore;
        continue;
      }
      if EqualsIgnoreCase(child.name, "gpu") {
        algoType := Gpu;
        if child.text != "" {
          var n := parse(child.text);
          if n.None? {
            return Err(NumberFormat(child.text));
          }
          currentGPU := n.value;
        }
        continue;
      }
    }
    assert ts[|ts|..] == [];
    r := Ok(Settings(nbSteps, algoType, currentGPU));
  }

  // ---------------------------------------------------------------------------
  // The reconstruction strategies.

  /** An OpenCL accelerator, seen from `GPUReconstruct`: given the platform index, the step
      count, the row-major gx, gy and value buffers and the dimensions, the value buffer it
      reads back, or `None` when the platform or the device cannot be used. */
  type Device = (int, int, seq<real>, seq<real>, seq<real>, int, int) -> Option<seq<real>>

  /** The field after reconstruction with the chosen strategy. The two processor strategies
      compute the same sweeps; the accelerator's buffer is written back as `setValues1D`
      writes it. */
  function Reconstructed(f: Field, s: Settings, device: Device): (r: Result<Field>)
    requires f.Valid()
    ensures r.Ok? ==> r.value.Valid() && r.value.width == f.width && r.value.height == f.height
    ensures r.Ok? ==> r.value.gx == f.gx && r.value.gy == f.gy
    ensures s.algo != Gpu ==> r == Ok(Reconstruct(f, s.nbSteps))
  {
    if s.algo != Gpu then Ok(Reconstruct(f, s.nbSteps))
    else
      var w, h := f.width, f.height;
      match device(s.gpu, s.nbSteps, Flatten(f.gx, w, h), Flatten(f.gy, w, h), Flatten(f.val, w, h), w, h)
      case None => Err(DeviceUnavailable)
      case Some(b) => if |b| < w * h then Err(IndexOutOfBounds) else Ok(f.(val := Unflatten(b, w, h)))
  }

  /** An accelerator that hands the value buffer back untouched leaves the field as it was. */
  lemma IdleDeviceKeepsField(f: Field, s: Settings, device: Device)
    requires f.Valid() && s.algo == Gpu
    requires device(s.gpu, s.nbSteps, Flatten(f.gx, f.width, f.height), Flatten(f.gy, f.width, f.height),
                    Flatten(f.val, f.width, f.height), f.width, f.height) == Some(Flatten(f.val, f.width, f.height))
    ensures Reconstructed(f, s, device) == Ok(f)
  {
    UnflattenFlatten(f.val, f.width, f.height);
  }

  /** `GPUReconstruct(currentGPU, nbSteps)`: the map is flattened, handed to the device, and
      the buffer it reads back becomes the values. */
  method GPUReconstruct(gm: GradientMap, currentGPU: int, nbSteps: int, device: Device) returns (r: Result<()>)
    requires gm.Valid()
    modifies gm.val
    ensures gm.Valid()
    ensures var e := Reconstructed(old(gm.Model()), Settings(nbSteps, Gpu, currentGPU), device);
      if r.Ok? then e == Ok(gm.Model()) else e == Err(r.error) && gm.Model() == old(gm.Model())
  {
    var gx := gm.GetGX1D();
    var gy := gm.GetGY1D();
    var values := gm.GetValues1D();
    var back := device(currentGPU, nbSteps, gx[..], gy[..], values[..], gm.width, gm.height);
    if back.None? {
      return Err(DeviceUnavailable);
    }
    var b := back.value;
    if |b| < gm.width * gm.height {
      return Err(IndexOutOfBounds);
    }
    var buffer := new real[|b|](i requires 0 <= i < |b| => b[i]);
    assert buffer[..] == b;
    gm.SetValues1D(buffer);
    r := Ok(());
  }

  /** One `switch (algoType)` of the reconstruction loop; `nbCPU` is the number of
      processors the runtime reports. */
  method ReconstructWith(gm: GradientMap, s: Settings, nbCPU: int, device: Device) returns (r: Result<()>)
    requires gm.Valid() && 0 < nbCPU
    modifies gm.val
    ensures gm.Valid()
    ensures var e := Reconstructed(old(gm.Model()), s, device);
      if r.Ok? then e == Ok(gm.Model()) else e == Err(r.error) && gm.Model() == old(gm.Model())
  {
    match s.algo
    case SingleCore =>
      gm.CPUReconstruct(s.nbSteps);
      r := Ok(());
    case MultiCores =>
      Workers.MultiCPUReconstruct(gm, nbCPU, s.nbSteps);
      r := Ok(());
    case Gpu =>
      r := GPUReconstruct(gm, s.gpu, s.nbSteps, device);
  }

  // ---------------------------------------------------------------------------
  // The edits: `ManualGradientModification.modifyGradient`.

  /** A `<degradation>` child: its numbers parsed, and the samples of its image file. */
  datatype Degradation = Degradation(strength: real, x: int, y: int, pixels: Raster, width: int, height: int)

  ghost predicate ValidDegradation(p: Degradation) {
    0 <= p.width && 0 <= p.height && IsImage(p.pixels, p.width, p.height)
  }

  /** The gradient maps of the three channels, `grad[0]`, `grad[1]` and `grad[2]`. */
  datatype Maps = Maps(m0: Field, m1: Field, m2: Field) {
    /** `grad[l]`. */
    function Level(l: int): Field
      requires 0 <= l < DEPTH
    {
      if l == 0 then m0 else if l == 1 then m1 else m2
    }

    /** The three maps are valid and of w by h cells. */
    ghost predicate Of(w: int, h: int) {
      m0.Valid() && m0.width == w && m0.height == h &&
      m1.Valid() && m1.width == w && m1.height == h &&
      m2.Valid() && m2.width == w && m2.height == h
    }
  }

  /** The map of each channel of an image. */
  function Split(r: Raster, w: int, h: int): (fs: Maps)
    requires 0 <= w && 0 <= h && IsImage(r, w, h)
    ensures fs.Of(w, h)
    ensures forall l :: 0 <= l < DEPTH ==> fs.Level(l) == FromChannel(r, w, h, l)
  {
    Maps(FromChannel(r, w, h, 0), FromChannel(r, w, h, 1), FromChannel(r, w, h, 2))
  }

  /** Level `lvl` of one degradation: channel `lvl` of its image pastes its gradients onto
      map `f`, guided by the image being edited. */
  function Degraded(f: Field, img: Raster, w: int, h: int, d: Degradation, lvl: int): (g: Field)
    requires 0 <= w && 0 <= h && IsImage(img, w, h) && f.Valid() && f.width == w && f.height == h
    requires ValidDegradation(d) && 0 <= lvl < DEPTH
    ensures g.Valid() && g.width == w && g.height == h
  {
    GradientPasted(FromChannel(d.pixels, d.width, d.height, lvl), f, img, w, h, d.x, d.y, d.strength)
  }

  /** One degradation, on each of the three levels. */
  function Degrade(fs: Maps, img: Raster, w: int, h: int, d: Degradation): (gs: Maps)
    requires 0 <= w && 0 <= h && IsImage(img, w, h) && fs.Of(w, h) && ValidDegradation(d)
    ensures gs.Of(w, h)
  {
    Maps(Degraded(fs.m0, img, w, h, d, 0), Degraded(fs.m1, img, w, h, d, 1), Degraded(fs.m2, img, w, h, d, 2))
  }

  /** The degradations in order. */
  function DegradeAll(fs: Maps, img: Raster, w: int, h: int, ds: seq<Degradation>): (gs: Maps)
    requires 0 <= w && 0 <= h && IsImage(img, w, h) && fs.Of(w, h)
    requires forall i :: 0 <= i < |ds| ==> ValidDegradation(ds[i])
    ensures gs.Of(w, h)
    decreases |ds|
  {
    if ds == [] then fs else DegradeAll(Degrade(fs, img, w, h, ds[0]), img, w, h, ds[1..])
  }

  /** The last degradation comes last. */
  lemma {:induction false} DegradeAllSnoc(fs: Maps, img: Raster, w: int, h: int, ds: seq<Degradation>, d: Degradation)
    requires 0 <= w && 0 <= h && IsImage(img, w, h) && fs.Of(w, h) && ValidDegradation(d)
    requires forall i :: 0 <= i < |ds| ==> ValidDegradation(ds[i])
    ensures DegradeAll(fs, img, w, h, ds + [d]) == Degrade(DegradeAll(fs, img, w, h, ds), img, w, h, d)
    decreases |ds|
  {
    if ds == [] {
      assert [] + [d] == [d];
    } else {
      assert (ds + [d])[0] == ds[0] && (ds + [d])[1..] == ds[1..] + [d];
      DegradeAllSnoc(Degrade(fs, img, w, h, ds[0]), img, w, h, ds[1..], d);
    }
  }

  /** One degradation only strengthens gradients: no cell of any map loses magnitude. */
  lemma DegradeStrengthens(fs: Maps, img: Raster, w: int, h: int, d: Degradation, l: int)
    requires 0 <= w && 0 <= h && IsImage(img, w, h) && fs.Of(w, h) && ValidDegradation(d) && 0 <= l < DEPTH
    ensures var f, g := fs.Level(l), Degrade(fs, img, w, h, d).Level(l);
      forall x, y :: 0 <= x < w && 0 <= y < h ==> Magnitude2(f.gx[x][y], f.gy[x][y]) <= Magnitude2(g.gx[x][y], g.gy[x][y])
  {
    PasteGradientStrengthens(FromChannel(d.pixels, d.width, d.height, l), fs.Level(l), img, w, h, d.x, d.y, d.strength);
  }

  /** The degradations only strengthen gradients: no cell of any map loses magnitude. */
  lemma {:induction false} DegradeAllStrengthens(fs: Maps, img: Raster, w: int, h: int, ds: seq<Degradation>, l: int)
    requires 0 <= w && 0 <= h && IsImage(img, w, h) && fs.Of(w, h) && 0 <= l < DEPTH
    requires forall i :: 0 <= i < |ds| ==> ValidDegradation(ds[i])
    ensures var f, g := fs.Level(l), DegradeAll(fs, img, w, h, ds).Level(l);
      forall x, y :: 0 <= x < w && 0 <= y < h ==> Magnitude2(f.gx[x][y], f.gy[x][y]) <= Magnitude2(g.gx[x][y], g.gy[x][y])
    decreases |ds|
  {
    if ds != [] {
      DegradeStrengthens(fs, img, w, h, ds[0], l);
      DegradeAllStrengthens(Degrade(fs, img, w, h, ds[0]), img, w, h, ds[1..], l);
    }
  }

  // ---------------------------------------------------------------------------
  // The whole command.

  /** Each map of the triple reconstructed in turn; the first failure stops the loop. */
  function ReconstructAll(fs: Maps, w: int, h: int, s: Settings, device: Device): (r: Result<Maps>)
    requires fs.Of(w, h)
    ensures r.Ok? ==> r.value.Of(w, h)
  {
    match Reconstructed(fs.m0, s, device)
    case Err(e) => Err(e)
    case Ok(f0) =>
      match Reconstructed(fs.m1, s, device)
      case Err(e) => Err(e)
      case Ok(f1) =>
        match Reconstructed(fs.m2, s, device)
        case Err(e) => Err(e)
        case Ok(f2) => Ok(Maps(f0, f1, f2))
  }

  /** Map l pasted into channel l, for l = 0, 1, 2 in turn. */
  function PasteAll(r: Raster, w: int, h: int, fs: Maps): (s: Raster)
    requires IsImage(r, w, h) && fs.Of(w, h)
    ensures IsImage(s, w, h)
  {
    var r0 := ValuesPasted(r, w, h, fs.m0, 0);
    var r1 := ValuesPasted(r0, w, h, fs.m1, 1);
    ValuesPasted(r1, w, h, fs.m2, 2)
  }

  /** What the command does to the samples of the image it edits. */
  function Manipulated(r: Raster, w: int, h: int, s: Settings, ps: seq<Degradation>, device: Device): (res: Result<Raster>)
    requires 0 <= w && 0 <= h && IsImage(r, w, h)
    requires forall i :: 0 <= i < |ps| ==> ValidDegradation(ps[i])
    ensures res.Ok? ==> IsImage(res.value, w, h)
  {
    var edited := DegradeAll(Split(r, w, h), r, w, h, ps);
    match ReconstructAll(edited, w, h, s, device)
    case Err(e) => Err(e)
    case Ok(fs) => Ok(PasteAll(r, w, h, fs))
  }

  /** Without edits the maps are exact gradients of the image, which the processor
      strategies reconstruct unchanged, so the image comes back as it went in. */
  lemma NoEditsKeepImage(r: Raster, w: int, h: int, s: Settings, device: Device)
    requires 0 <= w && 0 <= h && IsImage(r, w, h) && s.algo != Gpu
    ensures Manipulated(r, w, h, s, [], device) == Ok(r)
  {
    var fs := Split(r, w, h);
    ReconstructFixesConsistent(fs.m0, s.nbSteps);
    ReconstructFixesConsistent(fs.m1, s.nbSteps);
    ReconstructFixesConsistent(fs.m2, s.nbSteps);
    PasteOwnChannel(r, w, h, 0);
    PasteOwnChannel(r, w, h, 1);
    PasteOwnChannel(r, w, h, 2);
  }

  /** Pasting an image's own channel back changes nothing. */
  lemma PasteOwnChannel(r: Raster, w: int, h: int, l: int)
    requires 0 <= w && 0 <= h && IsImage(r, w, h) && 0 <= l < DEPTH
    ensures ValuesPasted(r, w, h, FromChannel(r, w, h, l), l) == r
  {
    var s := ValuesPasted(r, w, h, FromChannel(r, w, h, l), l);
    forall x, y, k | 0 <= x < w && 0 <= y < h && 0 <= k < DEPTH ensures s[x][y][k] == r[x][y][k] {
    }
    RasterExt(s, r, w, h, DEPTH);
  }

  /** The processor strategies never fail. */
  lemma ProcessorsNeverFail(r: Raster, w: int, h: int, s: Settings, ps: seq<Degradation>, device: Device)
    requires 0 <= w && 0 <= h && IsImage(r, w, h) && s.algo != Gpu
    requires forall i :: 0 <= i < |ps| ==> ValidDegradation(ps[i])
    ensures Manipulated(r, w, h, s, ps, device).Ok?
  {
  }

  /** A pixel dark on all three layers stays as it is: none of the three pastes writes it. */
  lemma DarkPixelsKept(r: Raster, w: int, h: int, fs: Maps, x: int, y: int)
    requires IsImage(r, w, h) && fs.Of(w, h) && 0 <= x < w && 0 <= y < h
    requires Dark(r[x][y], PASTE_DARK)
    ensures PasteAll(r, w, h, fs)[x][y] == r[x][y]
  {
    var r0 := ValuesPasted(r, w, h, fs.m0, 0);
    assert r0[x][y] == r[x][y] by {
      assert forall k :: 0 <= k < DEPTH ==> r0[x][y][k] == r[x][y][k];
    }
    var r1 := ValuesPasted(r0, w, h, fs.m1, 1);
    assert r1[x][y] == r[x][y] by {
      assert forall k :: 0 <= k < DEPTH ==> r1[x][y][k] == r0[x][y][k];
    }
    var r2 := ValuesPasted(r1, w, h, fs.m2, 2);
    assert forall k :: 0 <= k < DEPTH ==> r2[x][y][k] == r1[x][y][k];
  }

  // ---------------------------------------------------------------------------
  // The command on objects.

  /** The three maps use nine different arrays. */
  ghost predicate Separate(a: GradientMap, b: GradientMap, c: GradientMap)
    reads a, b, c
  {
    {a.gx, a.gy, a.val} !! {b.gx, b.gy, b.val} &&
    {a.gx, a.gy, a.val} !! {c.gx, c.gy, c.val} &&
    {b.gx, b.gy, b.val} !! {c.gx, c.gy, c.val}
  }

  /** The maps as values. */
  ghost function Models(a: GradientMap, b: GradientMap, c: GradientMap): (fs: Maps)
    reads a, b, c, a.gx, a.gy, a.val, b.gx, b.gy, b.val, c.gx, c.gy, c.val
    requires a.Valid() && b.Valid() && c.Valid() && a.width == b.width == c.width && a.height == b.height == c.height
    ensures fs.Of(a.width, a.height)
    ensures fs == Maps(a.Model(), b.Model(), c.Model())
  {
    Maps(a.Model(), b.Model(), c.Model())
  }

  /** Level `lvl` of one degradation: `new GradientMap(img, lvl).pasteGradient(image, grad[lvl], x, y, strength)`. */
  method DegradeLevel(src: Image, d: Degradation, image: Image, ghost img: Raster, g: GradientMap, lvl: int)
    requires ValidDegradation(d) && src.Valid() && src.Pixels() == d.pixels
    requires src.width == d.width && src.height == d.height
    requires image.Valid() && img == image.Pixels() && g.Valid()
    requires g.width == image.width && g.height == image.height && 0 <= lvl < DEPTH
    modifies g.gx, g.gy
    ensures g.Valid() && g.Model() == Degraded(old(g.Model()), img, g.width, g.height, d, lvl)
  {
    var n := new GradientMap(src, lvl);
    n.PasteGradient(image, g, d.x, d.y, d.strength);
  }

  /** One degradation: its image is loaded, then each of its levels is pasted onto the
      map of the same level. */
  method DegradeOnce(d: Degradation, image: Image, g0: GradientMap, g1: GradientMap, g2: GradientMap)
    requires ValidDegradation(d)
    requires image.Valid() && g0.Valid() && g1.Valid() && g2.Valid() && Separate(g0, g1, g2)
    requires g0.width == g1.width == g2.width == image.width && g0.height == g1.height == g2.height == image.height
    modifies g0.gx, g0.gy, g1.gx, g1.gy, g2.gx, g2.gy
    ensures g0.Valid() && g1.Valid() && g2.Valid()
    ensures Models(g0, g1, g2) == Degrade(old(Models(g0, g1, g2)), image.Pixels(), image.width, image.height, d)
  {
    ghost var img := image.Pixels();
    var src := new Image.Of(d.pixels, d.width, d.height);
    DegradeLevel(src, d, image, img, g0, 0);
    DegradeLevel(src, d, image, img, g1, 1);
    DegradeLevel(src, d, image, img, g2, 2);
  }

  /** `ManualGradientModification.modifyGradient`: the degradations in document order, each
      on the three levels. */
  method ModifyGradient(ds: seq<Degradation>, g0: GradientMap, g1: GradientMap, g2: GradientMap, image: Image)
    requires forall i :: 0 <= i < |ds| ==> ValidDegradation(ds[i])
    requires image.Valid() && g0.Valid() && g1.Valid() && g2.Valid() && Separate(g0, g1, g2)
    requires g0.width == g1.width == g2.width == image.width && g0.height == g1.height == g2.height == image.height
    modifies g0.gx, g0.gy, g1.gx, g1.gy, g2.gx, g2.gy
    ensures g0.Valid() && g1.Valid() && g2.Valid()
    ensures Models(g0, g1, g2) == DegradeAll(old(Models(g0, g1, g2)), image.Pixels(), image.width, image.height, ds)
  {
    ghost var start := Models(g0, g1, g2);
    ghost var img := image.Pixels();
    ghost var w, h := image.width, image.height;
    for i := 0 to |ds|
      invariant g0.Valid() && g1.Valid() && g2.Valid()
      invariant Models(g0, g1, g2) == DegradeAll(start, img, w, h, ds[..i])
    {
      DegradeNext(ds, i, start, img, image, g0, g1, g2);
    }
    assert ds[..|ds|] == ds;
  }

  /** Iteration i of `modifyGradient`'s loop: the maps go from the first i degradations
      applied to the first i + 1. */
  method DegradeNext(ds: seq<Degradation>, i: int, ghost start: Maps, ghost img: Raster, image: Image,
                     g0: GradientMap, g1: GradientMap, g2: GradientMap)
    requires 0 <= i < |ds| && forall j :: 0 <= j < |ds| ==> ValidDegradation(ds[j])
    requires image.Valid() && img == image.Pixels() && g0.Valid() && g1.Valid() && g2.Valid() && Separate(g0, g1, g2)
    requires g0.width == g1.width == g2.width == image.width && g0.height == g1.height == g2.height == image.height
    requires start.Of(image.width, image.height)
    requires Models(g0, g1, g2) == DegradeAll(start, img, image.width, image.height, ds[..i])
    modifies g0.gx, g0.gy, g1.gx, g1.gy, g2.gx, g2.gy
    ensures g0.Valid() && g1.Valid() && g2.Valid()
    ensures Models(g0, g1, g2) == DegradeAll(start, img, image.width, image.height, ds[..i + 1])
  {
    DegradeOnce(ds[i], image, g0, g1, g2);
    assert ds[..i + 1] == ds[..i] + [ds[i]];
    DegradeAllSnoc(start, img, image.width, image.height, ds[..i], ds[i]);
  }

  /** `execute(task)`. The image named by `ref` is edited in place; a missing `ref` fails
      with `IllegalArgumentException`, or with `NullPointerException` when the script has
      aliases (its `preprocess` then dereferences the missing name); an unknown image fails
      with `IllegalArgumentException`, and no map is built in any of these cases. */
  method Execute(task: Task, images: map<string, Image>, aliased: bool, preprocess: string -> string,
                 parse: string -> Option<int>, ds: seq<Degradation>, nbCPU: int, device: Device)
    returns (r: Result<real>)
    requires 0 < nbCPU
    requires forall n :: n in images ==> images[n].Valid()
    requires forall i :: 0 <= i < |ds| ==> ValidDegradation(ds[i])
    modifies if task.ref.Some? && preprocess(task.ref.value) in images then {images[preprocess(task.ref.value)].pixel} else {}
    ensures task.ref.None? ==> r == Err(if aliased then NullPointer else IllegalArgument(": requires a ref"))
    ensures task.ref.Some? && preprocess(task.ref.value) !in images ==> r == Err(IllegalArgument(": cannot find image " + preprocess(task.ref.value)))
    ensures task.ref.Some? && preprocess(task.ref.value) in images ==>
      var image := images[preprocess(task.ref.value)];
      image.Valid() &&
      match Parameters(task.children, preprocess, parse)
      case Err(e) => r == Err(e) && image.Pixels() == old(image.Pixels())
      case Ok(s) =>
        var res := Manipulated(old(image.Pixels()), image.width, image.height, s, ds, device);
        if res.Ok? then r == Ok(0.0) && image.Pixels() == res.value
        else r == Err(res.error) && image.Pixels() == old(image.Pixels())
  {
    if task.ref.None? {
      return Err(if aliased then NullPointer else IllegalArgument(": requires a ref"));
    }
    var imgName := preprocess(task.ref.value);
    if imgName !in images {
      return Err(IllegalArgument(": cannot find image " + imgName));
    }
    var image := images[imgName];
    var options := ReadParameters(task.children, preprocess, parse);
    if options.Err? {
      return Err(options.error);
    }
    r := Manipulate(image, options.value, ds, nbCPU, device);
  }

  /** The body of `execute` once the image and the options are known: the three maps are
      built, edited, reconstructed and pasted back into the image. */
  method Manipulate(image: Image, s: Settings, ds: seq<Degradation>, nbCPU: int, device: Device)
    returns (r: Result<real>)
    requires 0 < nbCPU && image.Valid()
    requires forall i :: 0 <= i < |ds| ==> ValidDegradation(ds[i])
    modifies image.pixel
    ensures image.Valid()
    ensures var res := Manipulated(old(image.Pixels()), image.width, image.height, s, ds, device);
      if res.Ok? then r == Ok(0.0) && image.Pixels() == res.value
      else r == Err(res.error) && image.Pixels() == old(image.Pixels())
  {
    ghost var r0, w, h := image.Pixels(), image.width, image.height;
    var g0, g1, g2 := EditedMaps(image, ds);
    ghost var edited := Models(g0, g1, g2);
    r := RebuildAndPaste(g0, g1, g2, edited, image, s, nbCPU, device);
  }

  /** The reconstruction loop, then the values pasted back into the image when every map
      was reconstructed. */
  method RebuildAndPaste(g0: GradientMap, g1: GradientMap, g2: GradientMap, ghost edited: Maps, image: Image,
                         s: Settings, nbCPU: int, device: Device) returns (r: Result<real>)
    requires g0.Valid() && g1.Valid() && g2.Valid() && Separate(g0, g1, g2) && image.Valid() && 0 < nbCPU
    requires g0.width == g1.width == g2.width == image.width && g0.height == g1.height == g2.height == image.height
    requires Models(g0, g1, g2) == edited
    modifies g0.val, g1.val, g2.val, image.pixel
    ensures image.Valid()
    ensures match ReconstructAll(edited, image.width, image.height, s, device)
      case Err(e) => r == Err(e) && image.Pixels() == old(image.Pixels())
      case Ok(fs) => r == Ok(0.0) && image.Pixels() == PasteAll(old(image.Pixels()), image.width, image.height, fs)
  {
    var done := Reconstruction(g0, g1, g2, s, nbCPU, device);
    if done.Err? {
      return Err(done.error);
    }
    ghost var fs := Models(g0, g1, g2);
    PasteBack(g0, g1, g2, fs, image);
    r := Ok(0.0);
  }

  /** The three maps of the image, built and then edited by the degradations. */
  method EditedMaps(image: Image, ds: seq<Degradation>) returns (g0: GradientMap, g1: GradientMap, g2: GradientMap)
    requires image.Valid()
    requires forall i :: 0 <= i < |ds| ==> ValidDegradation(ds[i])
    ensures g0.Valid() && g1.Valid() && g2.Valid() && Separate(g0, g1, g2)
    ensures fresh(g0.gx) && fresh(g0.gy) && fresh(g0.val) && fresh(g1.gx) && fresh(g1.gy) && fresh(g1.val)
    ensures fresh(g2.gx) && fresh(g2.gy) && fresh(g2.val)
    ensures g0.width == g1.width == g2.width == image.width && g0.height == g1.height == g2.height == image.height
    ensures Models(g0, g1, g2) == DegradeAll(Split(image.Pixels(), image.width, image.height), image.Pixels(),
      image.width, image.height, ds)
  {
    g0, g1, g2 := BuildMaps(image);
    ModifyGradient(ds, g0, g1, g2, image);
  }

  /** `new GradientMap(image, l)` for l = 0, 1, 2. */
  method BuildMaps(image: Image) returns (g0: GradientMap, g1: GradientMap, g2: GradientMap)
    requires image.Valid()
    ensures g0.Valid() && g1.Valid() && g2.Valid() && Separate(g0, g1, g2)
    ensures fresh(g0.gx) && fresh(g0.gy) && fresh(g0.val) && fresh(g1.gx) && fresh(g1.gy) && fresh(g1.val)
    ensures fresh(g2.gx) && fresh(g2.gy) && fresh(g2.val)
    ensures g0.width == g1.width == g2.width == image.width && g0.height == g1.height == g2.height == image.height
    ensures Models(g0, g1, g2) == Split(image.Pixels(), image.width, image.height)
  {
    g0 := new GradientMap(image, 0);
    g1 := new GradientMap(image, 1);
    g2 := new GradientMap(image, 2);
  }

  /** `grad[l].pasteValues(image, l)` for l = 0, 1, 2. */
  method PasteBack(g0: GradientMap, g1: GradientMap, g2: GradientMap, ghost fs: Maps, image: Image)
    requires g0.Valid() && g1.Valid() && g2.Valid() && image.Valid()
    requires g0.width == g1.width == g2.width == image.width && g0.height == g1.height == g2.height == image.height
    requires Models(g0, g1, g2) == fs
    modifies image.pixel
    ensures image.Valid()
    ensures image.Pixels() == PasteAll(old(image.Pixels()), image.width, image.height, fs)
  {
    var _ := g0.PasteValues(image, 0);
    var _ := g1.PasteValues(image, 1);
    var _ := g2.PasteValues(image, 2);
  }

  /** The reconstruction loop of `execute`: the three maps in turn, each with the same
      strategy and step count; a failure stops the loop. */
  method Reconstruction(g0: GradientMap, g1: GradientMap, g2: GradientMap, s: Settings, nbCPU: int, device: Device)
    returns (r: Result<()>)
    requires g0.Valid() && g1.Valid() && g2.Valid() && Separate(g0, g1, g2) && 0 < nbCPU
    requires g0.width == g1.width == g2.width && g0.height == g1.height == g2.height
    modifies g0.val, g1.val, g2.val
    ensures g0.Valid() && g1.Valid() && g2.Valid()
    ensures var e := ReconstructAll(old(Models(g0, g1, g2)), g0.width, g0.height, s, device);
      if r.Ok? then e == Ok(Models(g0, g1, g2)) else e == Err(r.error)
  {
    ghost var fs := Models(g0, g1, g2);
    r := ReconstructWith(g0, s, nbCPU, device);
    if r.Err? {
      return;
    }
    r := ReconstructWith(g1, s, nbCPU, device);
    if r.Err? {
      return;
    }
    r := ReconstructWith(g2, s, nbCPU, device);
  }
}
