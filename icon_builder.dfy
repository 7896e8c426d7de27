/** `icons` of scripts/assets.py as the loops it is: walk the directories,
    write each frame's bytes to the `.c` text as it is decoded, collect the
    `icons` and `paths` lists, then write the descriptors, the registry and
    the header. The method is proved to produce exactly `BuildOutput`. */
module IconBuilder {
  import opened Text
  import opened Wrappers
  import opened IconRules
  import opened IconTemplates
  import opened IconCompile

  method BuildIcons(cfg: Config, env: Env, walk: seq<Step>) returns (r: Result<Build, Error>)
    ensures r == BuildOutput(cfg, env, walk)
  {
    var c := SourcePreamble(cfg.assetsFilename);
    var icons: seq<IconRecord> := [];
    var paths: seq<PathEntry> := [];
    ghost var defs: string := "";
    var isMain := cfg.assetsFilename == MainAssetsFilename;

    for i := 0 to |walk|
      invariant Compile(cfg, env, walk[..i]) == Success(Part(icons, paths, defs))
      invariant c == SourcePreamble(cfg.assetsFilename) + defs
    {
      CompileStep(cfg, env, walk, i, Part(icons, paths, defs));
      var scanned;
      scanned, c := ScanDirectory(cfg, env, walk[i], c);
      if scanned.Failure? {
        CompileFailure(cfg, env, walk, i, scanned.error);
        return Failure(scanned.error);
      }
      Appended(SourcePreamble(cfg.assetsFilename), defs, scanned.value.defs);
      icons := icons + scanned.value.icons;
      paths := paths + scanned.value.paths;
      defs := defs + scanned.value.defs;
    }
    assert walk[..|walk|] == walk;

    ghost var head := c;
    c := WriteDescriptors(c, icons);
    if isMain {
      c := WriteRegistry(c, paths);
    } else {
      assert c == head + Lines(IconDefs(icons)) + "";
    }
    var h := WriteHeader(isMain, icons);
    return Success(Build(icons, paths, c, h));
  }

  /** One directory of the walk: nothing when it is empty, one animation
      when it holds `frame_rate`, its images one by one otherwise. The frame
      bytes are appended to the source text `c0` as they are produced. */
  method ScanDirectory(cfg: Config, env: Env, step: Step, c0: string) returns (r: Result<Part, Error>, c: string)
    ensures r == DirPart(cfg, env, step)
    ensures r.Success? ==> c == c0 + r.value.defs
  {
    var dir := step.dirpath;
    var files := step.filenames;
    c := c0;
    if files == [] {
      return Success(NoPart), c;
    }
    if FrameRateFile in files {
      r, c := ScanAnimated(cfg, env, dir, files, c);
      return;
    }
    r, c := ScanStatic(cfg, env, dir, files, c);
  }

  /** A directory holding `frame_rate`: skipped when already declared,
      otherwise scanned frame by frame, checked for a positive rate and at
      least one frame, and closed with the array of its frame symbols. */
  method ScanAnimated(cfg: Config, env: Env, dir: string, files: seq<string>, c0: string)
    returns (r: Result<Part, Error>, c: string)
    ensures r == AnimatedIcon(cfg, env, dir, files)
    ensures r.Success? ==> c == c0 + r.value.defs
  {
    c := c0;
    var name := AnimatedName(dir);
    if Skip(cfg, name) {
      return Success(NoPart), c;
    }
    var scanned;
    scanned, c := ScanAnimation(env, dir, name, files, c);
    if scanned.Failure? {
      return Failure(scanned.error), c;
    }
    var st := scanned.value;
    if st.rate <= 0 {
      return Failure(BadFrameRate(dir, st.rate)), c;
    }
    if st.count == 0 {
      return Failure(EmptyAnimation(dir)), c;
    }
    var framesDef := FramesDef(name, st.names);
    Appended(c0, st.defs, framesDef);
    c := c + framesDef;
    return Success(Part([IconRecord(name, st.width.value, st.height.value, st.rate, st.count)],
                        [PathEntry(name, AnimatedPath(dir, cfg.inputDir))],
                        st.defs + framesDef)), c;
  }

  /** The files of an animation directory in order: `frame_rate` sets the
      rate, every image becomes the next frame and has its bytes appended to
      the source text `c0` at once. */
  method ScanAnimation(env: Env, dir: string, name: string, files: seq<string>, c0: string)
    returns (r: Result<Frames, Error>, c: string)
    ensures r == AnimScan(env, dir, name, files)
    ensures r.Success? ==> c == c0 + r.value.defs
  {
    c := c0;
    var width: Option<nat> := None;
    var height: Option<nat> := None;
    var frameCount: nat := 0;
    var frameRate: int := 0;
    var frameNames: seq<string> := [];
    ghost var frameDefs: string := "";
    for j := 0 to |files|
      invariant AnimScan(env, dir, name, files[..j])
             == Success(Frames(width, height, frameCount, frameRate, frameNames, frameDefs))
      invariant c == c0 + frameDefs
    {
      var filename := files[j];
      var full := JoinPath(dir, filename);
      AnimScanStep(env, dir, name, files, j);
      if filename == FrameRateFile {
        frameRate := env.readRate(full);
      } else if IsSupported(filename) {
        var next := NextFrame(env, full, width, height);
        if next.Failure? {
          AnimScanStops(env, dir, name, files, j + 1);
          return Failure(next.error), c;
        }
        var img := next.value;
        if width.None? {
          width := Some(img.width);
        }
        if height.None? {
          height := Some(img.height);
        }
        var frame := FrameName(name, frameCount);
        var frameDef := FrameDef(frame, img.data);
        frameNames := frameNames + [frame];
        Appended(c0, frameDefs, frameDef);
        c := c + frameDef;
        frameDefs := frameDefs + frameDef;
        frameCount := frameCount + 1;
      }
    }
    assert files[..|files|] == files;
    return Success(Frames(width, height, frameCount, frameRate, frameNames, c[|c0|..])), c;
  }

  /** The files of a static directory in order: every image not skipped
      becomes a one-frame icon, written to the source text `c0` at once. */
  method ScanStatic(cfg: Config, env: Env, dir: string, files: seq<string>, c0: string)
    returns (r: Result<Part, Error>, c: string)
    ensures r == StaticScan(cfg, env, dir, files)
    ensures r.Success? ==> c == c0 + r.value.defs
  {
    c := c0;
    var icons: seq<IconRecord> := [];
    var paths: seq<PathEntry> := [];
    ghost var defs: string := "";
    for j := 0 to |files|
      invariant StaticScan(cfg, env, dir, files[..j]) == Success(Part(icons, paths, defs))
      invariant c == c0 + defs
    {
      var filename := files[j];
      StaticScanStep(cfg, env, dir, files, j);
      if IsSupported(filename) {
        var name := StaticName(filename);
        if !Skip(cfg, name) {
          var full := JoinPath(dir, filename);
          var decoded := Icon2Header(full, env.image);
          if decoded.Failure? {
            StaticScanStops(cfg, env, dir, files, j + 1);
            return Failure(decoded.error), c;
          }
          var img := decoded.value;
          var frame := FrameName(name, 0);
          var frameDef := FrameDef(frame, img.data);
          var framesDef := FramesDef(name, [frame]);
          c := c + frameDef;
          c := c + framesDef;
          WrittenInOrder(c0, defs, frameDef, framesDef);
          icons := icons + [IconRecord(name, img.width, img.height, 0, 1)];
          paths := paths + [PathEntry(name, StaticPath(full, cfg.inputDir))];
          defs := defs + (frameDef + framesDef);
        } else {
          assert Cat(Part(icons, paths, defs), NoPart) == Part(icons, paths, defs);
        }
      } else {
        assert Cat(Part(icons, paths, defs), NoPart) == Part(icons, paths, defs);
      }
    }
    assert files[..|files|] == files;
    return Success(Part(icons, paths, c[|c0|..])), c;
  }

  /** One descriptor line per icon, in the order of `icons`. */
  method WriteDescriptors(c0: string, icons: seq<IconRecord>) returns (c: string)
    ensures c == c0 + Lines(IconDefs(icons))
  {
    c := c0;
    ghost var lines := IconDefs(icons);
    for k := 0 to |icons|
      invariant c == c0 + Lines(lines[..k])
    {
      var line := IconDef(icons[k]);
      assert line == lines[k];
      LinesOfPrefix(c0, lines, k);
      c := c + line + "\n";
    }
    assert lines[..|icons|] == lines;
  }

  /** The path registry of the main bundle: one entry per element of `paths`. */
  method WriteRegistry(c0: string, paths: seq<PathEntry>) returns (c: string)
    ensures c == c0 + PathsBlock(paths)
  {
    c := c0 + PathsOpen;
    ghost var start := c;
    ghost var lines := PathDefs(paths);
    for k := 0 to |paths|
      invariant c == start + Lines(lines[..k])
    {
      var line := PathDef(paths[k]);
      assert line == lines[k];
      LinesOfPrefix(start, lines, k);
      c := c + line + "\n";
    }
    assert lines[..|paths|] == lines;
    c := c + PathsClose;
  }

  /** The public header: one `extern` declaration per icon. */
  method WriteHeader(isMain: bool, icons: seq<IconRecord>) returns (h: string)
    ensures h == HeaderText(isMain, icons)
  {
    h := HeaderPreamble;
    ghost var lines := ExternDecls(icons);
    for k := 0 to |icons|
      invariant h == HeaderPreamble + Lines(lines[..k])
    {
      var line := ExternDecl(icons[k].name);
      assert line == lines[k];
      LinesOfPrefix(HeaderPreamble, lines, k);
      h := h + line + "\n";
    }
    assert lines[..|icons|] == lines;
    if isMain {
      h := h + MainHeaderTail;
    } else {
      h := h + SupplementalHeaderTail;
    }
  }

  // ---------------------------------------------------- one step at a time

  lemma CompileStep(cfg: Config, env: Env, walk: seq<Step>, i: nat, p: Part)
    requires i < |walk| && Compile(cfg, env, walk[..i]) == Success(p)
    ensures DirPart(cfg, env, walk[i]).Success? ==>
              Compile(cfg, env, walk[..i + 1]) == Success(Cat(p, DirPart(cfg, env, walk[i]).value))
  {
    assert walk[..i + 1][..i] == walk[..i];
  }

  lemma AnimScanStep(env: Env, dir: string, name: string, files: seq<string>, j: nat)
    requires j < |files|
    requires AnimScan(env, dir, name, files[..j]).Success?
    ensures AnimScan(env, dir, name, files[..j + 1])
         == FrameStep(env, dir, name, AnimScan(env, dir, name, files[..j]).value, files[j])
  {
    assert files[..j + 1][..j] == files[..j];
  }

  lemma StaticScanStep(cfg: Config, env: Env, dir: string, files: seq<string>, j: nat)
    requires j < |files|
    requires StaticScan(cfg, env, dir, files[..j]).Success?
    ensures StaticIcon(cfg, env, dir, files[j]).Failure? ==>
              StaticScan(cfg, env, dir, files[..j + 1]) == Failure(StaticIcon(cfg, env, dir, files[j]).error)
    ensures StaticIcon(cfg, env, dir, files[j]).Success? ==>
              StaticScan(cfg, env, dir, files[..j + 1])
              == Success(Cat(StaticScan(cfg, env, dir, files[..j]).value, StaticIcon(cfg, env, dir, files[j]).value))
  {
    assert files[..j + 1][..j] == files[..j];
  }

  // ------------------------------------------------------ an error is final

  /** A directory that fails after the walk so far succeeded fails the build. */
  lemma CompileFailure(cfg: Config, env: Env, walk: seq<Step>, i: nat, e: Error)
    requires i < |walk| && Compile(cfg, env, walk[..i]).Success?
    requires DirPart(cfg, env, walk[i]) == Failure(e)
    ensures BuildOutput(cfg, env, walk) == Failure(e)
  {
    assert walk[..i + 1][..i] == walk[..i];
    CompileStops(cfg, env, walk, i + 1);
  }

  /** One more write extends the text written so far. */
  lemma Appended(c0: string, written: string, x: string)
    ensures c0 + written + x == c0 + (written + x)
  {
  }

  /** Two writes in a row extend the text written so far by both, in order. */
  lemma WrittenInOrder(c0: string, written: string, x: string, y: string)
    ensures c0 + written + x + y == c0 + (written + (x + y))
  {
  }
}
