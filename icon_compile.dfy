/** The icon registry build of scripts/assets.py as functions of its inputs:
    what each file, each directory and the whole walk contribute to the
    `icons` and `paths` lists and to the frame definitions of the `.c`
    file, and where the build stops with an error. These functions are the
    specification the imperative `IconBuilder.BuildIcons` is proved against. */
module IconCompile {
  import opened Text
  import opened Wrappers
  import opened IconRules
  import opened IconTemplates

  /** The command-line inputs and the text of the firmware's symbol table. */
  datatype Config = Config(inputDir: string, assetsFilename: string, symbols: string)

  /** The foreign services: the image decoder, and the integer read from a
      `frame_rate` file, both keyed by the file's full path. */
  datatype Env = Env(image: string -> Image, readRate: string -> int)

  /** One step of the directory walk: a directory and the names of the files
      directly inside it, already sorted. */
  datatype Step = Step(dirpath: string, filenames: seq<string>)

  /** What a file, a directory or a run of directories adds to the build. */
  datatype Part = Part(icons: seq<IconRecord>, paths: seq<PathEntry>, defs: string)

  const NoPart: Part := Part([], [], "")

  function Cat(p: Part, q: Part): Part
  {
    Part(p.icons + q.icons, p.paths + q.paths, p.defs + q.defs)
  }

  function Skip(cfg: Config, name: string): bool
  {
    Skipped(cfg.assetsFilename, cfg.symbols, name)
  }

  // ------------------------------------------------------------ static icons

  /** One file of a directory without a `frame_rate` file. */
  function StaticIcon(cfg: Config, env: Env, dir: string, filename: string): Result<Part, Error>
  {
    if !IsSupported(filename) then Success(NoPart)
    else
      var name := StaticName(filename);
      if Skip(cfg, name) then Success(NoPart)
      else
        var full := JoinPath(dir, filename);
        match Icon2Header(full, env.image)
        case Failure(e) => Failure(e)
        case Success(img) =>
          var frame := FrameName(name, 0);
          Success(Part([IconRecord(name, img.width, img.height, 0, 1)],
                       [PathEntry(name, StaticPath(full, cfg.inputDir))],
                       FrameDef(frame, img.data) + FramesDef(name, [frame])))
  }

  /** The files of a static directory, in order; the first error stops the scan. */
  function StaticScan(cfg: Config, env: Env, dir: string, files: seq<string>): Result<Part, Error>
    decreases |files|
  {
    if files == [] then Success(NoPart)
    else
      match StaticScan(cfg, env, dir, files[..|files| - 1])
      case Failure(e) => Failure(e)
      case Success(p) =>
        match StaticIcon(cfg, env, dir, files[|files| - 1])
        case Failure(e) => Failure(e)
        case Success(q) => Success(Cat(p, q))
  }

  // -------------------------------------------------------------- animations

  /** The loop state of an animation directory: the size fixed by the first
      frame, the frames seen, the frame rate read, the frame symbols and the
      frame definitions written. */
  datatype Frames = Frames(width: Option<nat>, height: Option<nat>, count: nat, rate: int,
                           names: seq<string>, defs: string)

  const NoFramesYet: Frames := Frames(None, None, 0, 0, [], "")

  predicate FramesInvariant(st: Frames)
  {
    && (st.width.Some? <==> st.count > 0)
    && (st.height.Some? <==> st.count > 0)
    && |st.names| == st.count
    && (st.width.Some? ==> st.width.value <= MaxImageWidth)
    && (st.height.Some? ==> st.height.value <= MaxImageHeight)
  }

  /** The next frame of an animation: decoded, and checked against the size
      `width` x `height` fixed by the first frame, when there was one. */
  function NextFrame(env: Env, full: string, width: Option<nat>, height: Option<nat>): (r: Result<Image, Error>)
    ensures r.Success? ==> FitsDisplay(r.value)
    ensures r.Success? && width.Some? ==> r.value.width == width.value
    ensures r.Success? && height.Some? ==> r.value.height == height.value
  {
    match Icon2Header(full, env.image)
    case Failure(e) => Failure(e)
    case Success(img) =>
      var w := if width.None? then img.width else width.value;
      var h := if height.None? then img.height else height.value;
      if w != img.width || h != img.height then
        Failure(FrameSizeMismatch(full, w, h, img.width, img.height))
      else
        Success(img)
  }

  /** One file of an animation directory. */
  function FrameStep(env: Env, dir: string, name: string, st: Frames, filename: string): (r: Result<Frames, Error>)
    requires FramesInvariant(st)
    ensures r.Success? ==> FramesInvariant(r.value)
  {
    var full := JoinPath(dir, filename);
    if filename == FrameRateFile then Success(st.(rate := env.readRate(full)))
    else if !IsSupported(filename) then Success(st)
    else
      match NextFrame(env, full, st.width, st.height)
      case Failure(e) => Failure(e)
      case Success(img) =>
        var frame := FrameName(name, st.count);
        Success(Frames(Some(img.width), Some(img.height), st.count + 1, st.rate,
                       st.names + [frame], st.defs + FrameDef(frame, img.data)))
  }

  function AnimScan(env: Env, dir: string, name: string, files: seq<string>): (r: Result<Frames, Error>)
    ensures r.Success? ==> FramesInvariant(r.value)
    decreases |files|
  {
    if files == [] then Success(NoFramesYet)
    else
      match AnimScan(env, dir, name, files[..|files| - 1])
      case Failure(e) => Failure(e)
      case Success(st) => FrameStep(env, dir, name, st, files[|files| - 1])
  }

  /** A directory holding a `frame_rate` file: one animated icon, unless a
      supplemental bundle finds it already declared. */
  function AnimatedIcon(cfg: Config, env: Env, dir: string, files: seq<string>): Result<Part, Error>
  {
    var name := AnimatedName(dir);
    if Skip(cfg, name) then Success(NoPart)
    else
      match AnimScan(env, dir, name, files)
      case Failure(e) => Failure(e)
      case Success(st) =>
        if st.rate <= 0 then Failure(BadFrameRate(dir, st.rate))
        else if st.count == 0 then Failure(EmptyAnimation(dir))
        else
          Success(Part([IconRecord(name, st.width.value, st.height.value, st.rate, st.count)],
                       [PathEntry(name, AnimatedPath(dir, cfg.inputDir))],
                       st.defs + FramesDef(name, st.names)))
  }

  // ------------------------------------------------------------- the walk

  /** One directory of the walk, classified by the presence of `frame_rate`. */
  function DirPart(cfg: Config, env: Env, step: Step): Result<Part, Error>
  {
    if step.filenames == [] then Success(NoPart)
    else if FrameRateFile in step.filenames then AnimatedIcon(cfg, env, step.dirpath, step.filenames)
    else StaticScan(cfg, env, step.dirpath, step.filenames)
  }

  function Compile(cfg: Config, env: Env, walk: seq<Step>): Result<Part, Error>
    decreases |walk|
  {
    if walk == [] then Success(NoPart)
    else
      match Compile(cfg, env, walk[..|walk| - 1])
      case Failure(e) => Failure(e)
      case Success(p) =>
        match DirPart(cfg, env, walk[|walk| - 1])
        case Failure(e) => Failure(e)
        case Success(q) => Success(Cat(p, q))
  }

  /** The lists and the two artifacts of a successful build. */
  datatype Build = Build(icons: seq<IconRecord>, paths: seq<PathEntry>, source: string, header: string)

  function BuildOutput(cfg: Config, env: Env, walk: seq<Step>): Result<Build, Error>
  {
    match Compile(cfg, env, walk)
    case Failure(e) => Failure(e)
    case Success(p) =>
      var isMain := IsMainBundle(cfg.assetsFilename);
      Success(Build(p.icons, p.paths,
                    SourceText(cfg.assetsFilename, p.defs, p.icons, p.paths, isMain),
                    HeaderText(isMain, p.icons)))
  }

  // --------------------------------------------- the first error is final

  lemma {:induction false} StaticScanStops(cfg: Config, env: Env, dir: string, files: seq<string>, k: nat)
    requires k <= |files| && StaticScan(cfg, env, dir, files[..k]).Failure?
    ensures StaticScan(cfg, env, dir, files) == StaticScan(cfg, env, dir, files[..k])
    decreases |files|
  {
    if k < |files| {
      var init := files[..|files| - 1];
      assert init[..k] == files[..k];
      StaticScanStops(cfg, env, dir, init, k);
    } else {
      assert files[..k] == files;
    }
  }

  lemma {:induction false} AnimScanStops(env: Env, dir: string, name: string, files: seq<string>, k: nat)
    requires k <= |files| && AnimScan(env, dir, name, files[..k]).Failure?
    ensures AnimScan(env, dir, name, files) == AnimScan(env, dir, name, files[..k])
    decreases |files|
  {
    if k < |files| {
      var init := files[..|files| - 1];
      assert init[..k] == files[..k];
      AnimScanStops(env, dir, name, init, k);
    } else {
      assert files[..k] == files;
    }
  }

  lemma {:induction false} CompileStops(cfg: Config, env: Env, walk: seq<Step>, k: nat)
    requires k <= |walk| && Compile(cfg, env, walk[..k]).Failure?
    ensures Compile(cfg, env, walk) == Compile(cfg, env, walk[..k])
    decreases |walk|
  {
    if k < |walk| {
      var init := walk[..|walk| - 1];
      assert init[..k] == walk[..k];
      CompileStops(cfg, env, init, k);
    } else {
      assert walk[..k] == walk;
    }
  }
}
