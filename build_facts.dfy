/** Properties of a whole build: which symbols end up in `icons` and
    `paths`, what the duplicate filter does in each kind of bundle, the
    bounds every record respects, and the line layout of the two generated
    files. */
module BuildFacts {
  import opened Text
  import opened Wrappers
  import opened IconRules
  import opened IconTemplates
  import opened IconCompile
  import opened IconFacts

  // ------------------------------------------------------------ candidates

  function StaticNames(files: seq<string>): (names: seq<string>)
    ensures |names| == |files|
  {
    seq(|files|, k requires 0 <= k < |files| => StaticName(files[k]))
  }

  /** The symbols a directory offers before the duplicate filter: its
      animation when it holds `frame_rate`, one per image otherwise. */
  function Candidates(step: Step): seq<string>
  {
    if step.filenames == [] then []
    else if FrameRateFile in step.filenames then [AnimatedName(step.dirpath)]
    else StaticNames(Images(step.filenames))
  }

  function WalkCandidates(walk: seq<Step>): seq<string>
    decreases |walk|
  {
    if walk == [] then [] else WalkCandidates(walk[..|walk| - 1]) + Candidates(walk[|walk| - 1])
  }

  /** The duplicate filter applied to a list of symbols, order kept. */
  function Unskipped(cfg: Config, names: seq<string>): seq<string>
    decreases |names|
  {
    if names == [] then []
    else
      var n := names[|names| - 1];
      Unskipped(cfg, names[..|names| - 1]) + (if Skip(cfg, n) then [] else [n])
  }

  function Names(icons: seq<IconRecord>): seq<string>
  {
    seq(|icons|, i requires 0 <= i < |icons| => icons[i].name)
  }

  function EntryNames(paths: seq<PathEntry>): seq<string>
  {
    seq(|paths|, i requires 0 <= i < |paths| => paths[i].name)
  }

  lemma {:induction false} UnskippedAppend(cfg: Config, a: seq<string>, b: seq<string>)
    ensures Unskipped(cfg, a + b) == Unskipped(cfg, a) + Unskipped(cfg, b)
    decreases |b|
  {
    if b == [] {
      assert a + b == a;
    } else {
      var b0 := b[..|b| - 1];
      UnskippedAppend(cfg, a, b0);
      assert (a + b)[..|a + b| - 1] == a + b0;
    }
  }

  /** A symbol survives the filter exactly when it is a candidate and the
      bundle is the main one or the symbol table does not declare it. */
  lemma {:induction false} UnskippedMembers(cfg: Config, names: seq<string>)
    ensures forall n :: n in Unskipped(cfg, names) <==>
              n in names && (IsMainBundle(cfg.assetsFilename) || !ApiHasIcon(cfg.symbols, n))
    decreases |names|
  {
    if names != [] {
      var init := names[..|names| - 1];
      UnskippedMembers(cfg, init);
      assert names == init + [names[|names| - 1]];
    }
  }

  /** The main bundle drops nothing, whatever the symbol table says. */
  lemma {:induction false} MainBundleKeepsEveryCandidate(cfg: Config, names: seq<string>)
    requires IsMainBundle(cfg.assetsFilename)
    ensures Unskipped(cfg, names) == names
    decreases |names|
  {
    if names != [] {
      MainBundleKeepsEveryCandidate(cfg, names[..|names| - 1]);
      assert names[..|names| - 1] + [names[|names| - 1]] == names;
    }
  }

  lemma {:induction false} KeptAreUnskippedImages(cfg: Config, files: seq<string>)
    ensures StaticNames(Kept(cfg, files)) == Unskipped(cfg, StaticNames(Images(files)))
    decreases |files|
  {
    if files != [] {
      var init := files[..|files| - 1];
      var x := files[|files| - 1];
      assert init + [x] == files;
      KeptAreUnskippedImages(cfg, init);
      ImagesOneMore(init, x);
      KeptOneMore(cfg, init, x);
      if IsSupported(x) {
        KeptImageNames(cfg, init, x);
      } else {
        assert Images(init) + [] == Images(init);
        assert Kept(cfg, init) + [] == Kept(cfg, init);
      }
    }
  }

  lemma KeptImageNames(cfg: Config, init: seq<string>, x: string)
    requires IsSupported(x)
    requires StaticNames(Kept(cfg, init)) == Unskipped(cfg, StaticNames(Images(init)))
    ensures StaticNames(Kept(cfg, init) + (if !Skip(cfg, StaticName(x)) then [x] else []))
         == Unskipped(cfg, StaticNames(Images(init) + [x]))
  {
    var n := StaticName(x);
    StaticNamesSnoc(Images(init), x);
    UnskippedAppend(cfg, StaticNames(Images(init)), [n]);
    assert [n][..0] == [];
    if Skip(cfg, n) {
      assert Kept(cfg, init) + [] == Kept(cfg, init);
    } else {
      StaticNamesSnoc(Kept(cfg, init), x);
    }
  }

  lemma StaticNamesSnoc(fs: seq<string>, x: string)
    ensures StaticNames(fs + [x]) == StaticNames(fs) + [StaticName(x)]
  {
  }

  lemma StaticRecordNames(env: Env, cfg: Config, dir: string, kept: seq<string>)
    ensures Names(StaticRecords(env, dir, kept)) == StaticNames(kept)
    ensures EntryNames(StaticPaths(cfg, dir, kept)) == StaticNames(kept)
  {
  }

  /** What one directory adds: exactly its unfiltered candidates, in order,
      both to `icons` and to `paths`. */
  lemma DirPartNames(cfg: Config, env: Env, step: Step)
    requires DirPart(cfg, env, step).Success?
    ensures var q := DirPart(cfg, env, step).value;
            Names(q.icons) == Unskipped(cfg, Candidates(step))
            && EntryNames(q.paths) == Unskipped(cfg, Candidates(step))
  {
    var files := step.filenames;
    if files == [] {
    } else if FrameRateFile in files {
      var name := AnimatedName(step.dirpath);
      AnimatedIconSpec(cfg, env, step.dirpath, files);
      assert [name][..0] == [];
    } else {
      StaticScanParts(cfg, env, step.dirpath, files);
      KeptAreUnskippedImages(cfg, files);
      StaticRecordNames(env, cfg, step.dirpath, Kept(cfg, files));
    }
  }

  /** The symbols of a build, in `icons` and in `paths` alike, are the
      candidates of the walk, in walk order, that the duplicate filter keeps. */
  lemma {:induction false} CompileNames(cfg: Config, env: Env, walk: seq<Step>)
    requires Compile(cfg, env, walk).Success?
    ensures var p := Compile(cfg, env, walk).value;
            Names(p.icons) == Unskipped(cfg, WalkCandidates(walk))
            && EntryNames(p.paths) == Unskipped(cfg, WalkCandidates(walk))
    decreases |walk|
  {
    if walk != [] {
      var init := walk[..|walk| - 1];
      var step := walk[|walk| - 1];
      CompileNames(cfg, env, init);
      DirPartNames(cfg, env, step);
      UnskippedAppend(cfg, WalkCandidates(init), Candidates(step));
      var p := Compile(cfg, env, init).value;
      var q := DirPart(cfg, env, step).value;
      assert Compile(cfg, env, walk).value == Cat(p, q);
      NamesAppend(p.icons, q.icons);
      EntryNamesAppend(p.paths, q.paths);
    }
  }

  lemma NamesAppend(a: seq<IconRecord>, b: seq<IconRecord>)
    ensures Names(a + b) == Names(a) + Names(b)
  {
  }

  lemma EntryNamesAppend(a: seq<PathEntry>, b: seq<PathEntry>)
    ensures EntryNames(a + b) == EntryNames(a) + EntryNames(b)
  {
  }

  /** An icon the duplicate filter drops appears in neither list. */
  lemma SkippedNeverEmitted(cfg: Config, env: Env, walk: seq<Step>, name: string)
    requires Compile(cfg, env, walk).Success?
    requires Skip(cfg, name)
    ensures name !in Names(Compile(cfg, env, walk).value.icons)
    ensures name !in EntryNames(Compile(cfg, env, walk).value.paths)
  {
    CompileNames(cfg, env, walk);
    UnskippedMembers(cfg, WalkCandidates(walk));
  }

  /** A directory with no `frame_rate` file and no image adds nothing. */
  lemma {:induction false} NoImagesNoIcons(cfg: Config, env: Env, dir: string, files: seq<string>)
    requires Images(files) == []
    ensures StaticScan(cfg, env, dir, files) == Success(NoPart)
    decreases |files|
  {
    if files != [] {
      var init := files[..|files| - 1];
      assert Images(init) == [];
      NoImagesNoIcons(cfg, env, dir, init);
      StaticIconCases(cfg, env, dir, files[|files| - 1]);
      assert Cat(NoPart, NoPart) == NoPart;
    }
  }

  // -------------------------------------------------------- well-formedness

  /** A record as the build emits it: within the display, a symbol without
      `-` that the duplicate filter keeps, and either a static icon (`I_`,
      rate 0, one frame) or an animation (`A_`, positive rate, some frames). */
  predicate IconOk(cfg: Config, icon: IconRecord)
  {
    && icon.width <= MaxImageWidth && icon.height <= MaxImageHeight
    && '-' !in icon.name
    && !Skip(cfg, icon.name)
    && (|| ("I_" <= icon.name && icon.frameRate == 0 && icon.frameCount == 1)
        || ("A_" <= icon.name && icon.frameRate > 0 && icon.frameCount > 0))
  }

  predicate EntryOk(entry: PathEntry)
  {
    '-' !in entry.name && '\\' !in entry.path
  }

  predicate PartOk(cfg: Config, p: Part)
  {
    (forall i :: 0 <= i < |p.icons| ==> IconOk(cfg, p.icons[i]))
    && (forall i :: 0 <= i < |p.paths| ==> EntryOk(p.paths[i]))
  }

  lemma StaticPartOk(cfg: Config, env: Env, dir: string, files: seq<string>)
    requires StaticScan(cfg, env, dir, files).Success?
    ensures PartOk(cfg, StaticScan(cfg, env, dir, files).value)
  {
    StaticScanSucceedsIff(cfg, env, dir, files);
    StaticScanParts(cfg, env, dir, files);
  }

  lemma AnimatedPartOk(cfg: Config, env: Env, dir: string, files: seq<string>)
    requires AnimatedIcon(cfg, env, dir, files).Success?
    ensures PartOk(cfg, AnimatedIcon(cfg, env, dir, files).value)
  {
    AnimatedIconSpec(cfg, env, dir, files);
  }

  lemma {:induction false} CompileWellFormed(cfg: Config, env: Env, walk: seq<Step>)
    requires Compile(cfg, env, walk).Success?
    ensures PartOk(cfg, Compile(cfg, env, walk).value)
    decreases |walk|
  {
    if walk != [] {
      var init := walk[..|walk| - 1];
      var step := walk[|walk| - 1];
      CompileWellFormed(cfg, env, init);
      if step.filenames != [] {
        if FrameRateFile in step.filenames {
          AnimatedPartOk(cfg, env, step.dirpath, step.filenames);
        } else {
          StaticPartOk(cfg, env, step.dirpath, step.filenames);
        }
      }
      var p := Compile(cfg, env, init).value;
      var q := DirPart(cfg, env, step).value;
      var pq := Cat(p, q);
      forall i | 0 <= i < |pq.icons|
        ensures IconOk(cfg, pq.icons[i])
      {
        if i >= |p.icons| {
          assert pq.icons[i] == q.icons[i - |p.icons|];
        }
      }
      forall i | 0 <= i < |pq.paths|
        ensures EntryOk(pq.paths[i])
      {
        if i >= |p.paths| {
          assert pq.paths[i] == q.paths[i - |p.paths|];
        }
      }
    }
  }

  /** A supplemental bundle never re-emits an icon the firmware already declares. */
  lemma SupplementalOmitsDeclared(cfg: Config, env: Env, walk: seq<Step>)
    requires Compile(cfg, env, walk).Success?
    requires !IsMainBundle(cfg.assetsFilename)
    ensures var p := Compile(cfg, env, walk).value;
            forall i :: 0 <= i < |p.icons| ==> !ApiHasIcon(cfg.symbols, p.icons[i].name)
  {
    CompileWellFormed(cfg, env, walk);
  }

  // ---------------------------------------------------------------- layout

  /** No directory or file name of the walk holds a line break. */
  predicate WalkWithoutNewline(walk: seq<Step>)
  {
    forall i :: 0 <= i < |walk| ==>
      NoNewline(walk[i].dirpath) && forall k :: 0 <= k < |walk[i].filenames| ==> NoNewline(walk[i].filenames[k])
  }

  lemma StaticNameWithoutNewline(f: string)
    requires NoNewline(f)
    ensures NoNewline(StaticName(f))
  {
    var parts := Split(f, '.');
    SplitKeepsAbsent(f, '.', '\n');
    var stem := parts[..|parts| - 1];
    assert forall k :: 0 <= k < |stem| ==> stem[k] == parts[k];
    JoinKeepsAbsent(stem, '_', '\n');
    ReplaceKeepsAbsent(Join(stem, '_'), '-', '_', '\n');
  }

  lemma AnimatedNameWithoutNewline(dir: string)
    requires NoNewline(dir)
    ensures NoNewline(AnimatedName(dir))
  {
    var base := AfterLast(dir, '/');
    assert forall i :: 0 <= i < |base| ==> base[i] in dir;
    ReplaceKeepsAbsent(base, '-', '_', '\n');
  }

  lemma RegistryPathWithoutNewline(p: string, inputDir: string)
    requires NoNewline(p)
    ensures NoNewline(RegistryPath(p, inputDir))
  {
    var rel := DropFirst(RemovePrefix(p, inputDir));
    assert forall i :: 0 <= i < |RemovePrefix(p, inputDir)| ==> RemovePrefix(p, inputDir)[i] in p;
    assert forall i :: 0 <= i < |rel| ==> rel[i] in RemovePrefix(p, inputDir);
    ReplaceKeepsAbsent(rel, '\\', '/', '\n');
  }

  lemma StaticPathWithoutNewline(dir: string, f: string, inputDir: string)
    requires NoNewline(dir) && NoNewline(f)
    ensures NoNewline(StaticPath(JoinPath(dir, f), inputDir))
  {
    var full := JoinPath(dir, f);
    assert NoNewline(full);
    RegistryPathWithoutNewline(full, inputDir);
    var p := RegistryPath(full, inputDir);
    assert forall i :: 0 <= i < |BeforeLast(p, '.')| ==> BeforeLast(p, '.')[i] in p;
  }

  predicate PartWithoutNewline(p: Part)
  {
    (forall i :: 0 <= i < |p.icons| ==> NoNewline(p.icons[i].name))
    && (forall i :: 0 <= i < |p.paths| ==> NoNewline(p.paths[i].name) && NoNewline(p.paths[i].path))
  }

  lemma DirPartWithoutNewline(cfg: Config, env: Env, step: Step)
    requires NoNewline(step.dirpath)
    requires forall k :: 0 <= k < |step.filenames| ==> NoNewline(step.filenames[k])
    requires DirPart(cfg, env, step).Success?
    ensures PartWithoutNewline(DirPart(cfg, env, step).value)
  {
    var files := step.filenames;
    var dir := step.dirpath;
    if files == [] {
    } else if FrameRateFile in files {
      AnimatedIconSpec(cfg, env, dir, files);
      AnimatedNameWithoutNewline(dir);
      RegistryPathWithoutNewline(dir, cfg.inputDir);
    } else {
      StaticScanParts(cfg, env, dir, files);
      var kept := Kept(cfg, files);
      KeptAreListed(cfg, files);
      forall k | 0 <= k < |kept|
        ensures NoNewline(StaticName(kept[k])) && NoNewline(StaticPath(JoinPath(dir, kept[k]), cfg.inputDir))
      {
        StaticNameWithoutNewline(kept[k]);
        StaticPathWithoutNewline(dir, kept[k], cfg.inputDir);
      }
    }
  }

  lemma {:induction false} CompileWithoutNewline(cfg: Config, env: Env, walk: seq<Step>)
    requires WalkWithoutNewline(walk)
    requires Compile(cfg, env, walk).Success?
    ensures PartWithoutNewline(Compile(cfg, env, walk).value)
    decreases |walk|
  {
    if walk != [] {
      var init := walk[..|walk| - 1];
      var step := walk[|walk| - 1];
      assert WalkWithoutNewline(init) by {
        assert forall i :: 0 <= i < |init| ==> init[i] == walk[i];
      }
      CompileWithoutNewline(cfg, env, init);
      DirPartWithoutNewline(cfg, env, step);
      var p := Compile(cfg, env, init).value;
      var q := DirPart(cfg, env, step).value;
      var pq := Cat(p, q);
      assert Compile(cfg, env, walk).value == pq;
      forall i | 0 <= i < |pq.icons|
        ensures NoNewline(pq.icons[i].name)
      {
        if i >= |p.icons| {
          assert pq.icons[i] == q.icons[i - |p.icons|];
        }
      }
      forall i | 0 <= i < |pq.paths|
        ensures NoNewline(pq.paths[i].name) && NoNewline(pq.paths[i].path)
      {
        if i >= |p.paths| {
          assert pq.paths[i] == q.paths[i - |p.paths|];
        }
      }
    }
  }

  /** The generated header is, line by line, the fixed preamble, one
      `extern Icon` line per entry of `icons` in order, and the registry type
      of the main bundle or the include of its header otherwise. */
  lemma BuildHeaderLayout(cfg: Config, env: Env, walk: seq<Step>)
    requires WalkWithoutNewline(walk)
    requires BuildOutput(cfg, env, walk).Success?
    ensures var b := BuildOutput(cfg, env, walk).value;
            Split(b.header, '\n')
              == HeaderPreambleLines + ExternDecls(b.icons) + HeaderTailLines(IsMainBundle(cfg.assetsFilename)) + [""]
  {
    CompileWithoutNewline(cfg, env, walk);
    var p := Compile(cfg, env, walk).value;
    HeaderLayout(IsMainBundle(cfg.assetsFilename), p.icons);
  }

  /** After the frame data, the generated source is, line by line, one
      descriptor per entry of `icons` in order, then for the main bundle only
      the registry with one entry per element of `paths` in order. */
  lemma BuildSourceLayout(cfg: Config, env: Env, walk: seq<Step>)
    requires WalkWithoutNewline(walk)
    requires BuildOutput(cfg, env, walk).Success?
    ensures var b := BuildOutput(cfg, env, walk).value;
            var defs := Compile(cfg, env, walk).value.defs;
            var start := |SourcePreamble(cfg.assetsFilename) + defs|;
            && SourcePreamble(cfg.assetsFilename) + defs <= b.source
            && Split(b.source[start..], '\n')
                 == IconDefs(b.icons) + RegistryLines(b.paths, IsMainBundle(cfg.assetsFilename)) + [""]
  {
    CompileWithoutNewline(cfg, env, walk);
    var p := Compile(cfg, env, walk).value;
    SourceLayout(cfg.assetsFilename, p.defs, p.icons, p.paths, IsMainBundle(cfg.assetsFilename));
  }
}
