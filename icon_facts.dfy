/** What the icon registry build promises, stated with reference definitions
    that do not follow the loop structure: the frames of an animation are
    the images of its directory, a static directory yields one icon per kept
    image, the symbols emitted are the candidates the duplicate filter lets
    through, and every record respects the display bound. */
module IconFacts {
  import opened Text
  import opened Wrappers
  import opened IconRules
  import opened IconTemplates
  import opened IconCompile

  /** What the decoder reports for file `f` of directory `dir`. */
  function ImageOf(env: Env, dir: string, f: string): Image
  {
    env.image(JoinPath(dir, f))
  }

  /** The files `_iconIsSupported` accepts, in the order listed. */
  function Images(files: seq<string>): (images: seq<string>)
    ensures forall k :: 0 <= k < |images| ==> IsSupported(images[k])
    ensures |images| <= |files|
    decreases |files|
  {
    if files == [] then []
    else
      var x := files[|files| - 1];
      Images(files[..|files| - 1]) + (if IsSupported(x) then [x] else [])
  }

  /** A file is among the images exactly when it is listed and accepted. */
  lemma {:induction false} ImagesMembers(files: seq<string>)
    ensures forall x :: x in Images(files) <==> x in files && IsSupported(x)
    decreases |files|
  {
    if files != [] {
      var init := files[..|files| - 1];
      ImagesMembers(init);
      ImagesOneMore(init, files[|files| - 1]);
      assert init + [files[|files| - 1]] == files;
    }
  }

  lemma FrameRateFileIsNoImage()
    ensures !IsSupported(FrameRateFile)
  {
    assert Lower(FrameRateFile) == FrameRateFile;
    SplitWithoutSeparator(FrameRateFile, '.');
  }

  // ------------------------------------------------------------ animations

  /** The frame symbols `_{name}_0` … `_{name}_{n-1}`. */
  function FrameNames(name: string, n: nat): (names: seq<string>)
    ensures |names| == n
  {
    seq(n, k requires 0 <= k < n => FrameName(name, k))
  }

  /** The byte arrays of the frames, in order. */
  function FrameDefsOf(env: Env, dir: string, name: string, frames: seq<string>): string
    decreases |frames|
  {
    if frames == [] then ""
    else
      FrameDefsOf(env, dir, name, frames[..|frames| - 1])
        + FrameDef(FrameName(name, |frames| - 1), ImageOf(env, dir, frames[|frames| - 1]).data)
  }

  /** The value read from the directory's `frame_rate` file, 0 when there is none. */
  function RateOf(env: Env, dir: string, files: seq<string>): int
    decreases |files|
  {
    if files == [] then 0
    else if files[|files| - 1] == FrameRateFile then env.readRate(JoinPath(dir, FrameRateFile))
    else RateOf(env, dir, files[..|files| - 1])
  }

  predicate SameSize(a: Image, b: Image)
  {
    a.width == b.width && a.height == b.height
  }

  /** Every frame fits the display and has the size of the first frame. */
  predicate FramesAgree(env: Env, dir: string, frames: seq<string>)
  {
    forall k :: 0 <= k < |frames| ==>
      FitsDisplay(ImageOf(env, dir, frames[k])) && SameSize(ImageOf(env, dir, frames[k]), ImageOf(env, dir, frames[0]))
  }

  lemma FramesAgreeSnoc(env: Env, dir: string, frames: seq<string>, x: string)
    ensures FramesAgree(env, dir, frames + [x]) <==>
              && FramesAgree(env, dir, frames)
              && FitsDisplay(ImageOf(env, dir, x))
              && (frames != [] ==> SameSize(ImageOf(env, dir, x), ImageOf(env, dir, frames[0])))
  {
    var all := frames + [x];
    if FramesAgree(env, dir, all) {
      forall k | 0 <= k < |frames|
        ensures FitsDisplay(ImageOf(env, dir, frames[k]))
             && SameSize(ImageOf(env, dir, frames[k]), ImageOf(env, dir, frames[0]))
      {
        assert all[k] == frames[k] && all[0] == frames[0];
      }
      assert all[|frames|] == x;
    }
  }

  /** One file of an animation directory, case by case. */
  lemma FrameStepCases(env: Env, dir: string, name: string, st: Frames, x: string)
    requires FramesInvariant(st)
    ensures var r := FrameStep(env, dir, name, st, x);
            var img := ImageOf(env, dir, x);
            && (x == FrameRateFile ==> r == Success(st.(rate := env.readRate(JoinPath(dir, FrameRateFile)))))
            && (x != FrameRateFile && !IsSupported(x) ==> r == Success(st))
            && (x != FrameRateFile && IsSupported(x) ==>
                  (r.Success? <==> FitsDisplay(img) && (st.count > 0 ==> st.width == Some(img.width) && st.height == Some(img.height))))
            && (x != FrameRateFile && IsSupported(x) && r.Success? ==>
                  r.value == Frames(Some(img.width), Some(img.height), st.count + 1, st.rate,
                                    st.names + [FrameName(name, st.count)],
                                    st.defs + FrameDef(FrameName(name, st.count), img.data)))
  {
  }

  /** The loop state `st` records exactly the frames `frames`: their count,
      the symbols `_{name}_0` onwards, their byte arrays in order, and the
      size of the first one. */
  predicate FramesMatch(env: Env, dir: string, name: string, st: Frames, frames: seq<string>)
  {
    && st.count == |frames|
    && st.names == FrameNames(name, |frames|)
    && st.defs == FrameDefsOf(env, dir, name, frames)
    && (frames != [] ==> (st.width == Some(ImageOf(env, dir, frames[0]).width)
                          && st.height == Some(ImageOf(env, dir, frames[0]).height)))
  }

  /** A successful scan of an animation directory has taken exactly its
      images as frames. */
  lemma {:induction false} AnimScanFrames(env: Env, dir: string, name: string, files: seq<string>)
    requires AnimScan(env, dir, name, files).Success?
    ensures FramesMatch(env, dir, name, AnimScan(env, dir, name, files).value, Images(files))
    decreases |files|
  {
    if files != [] {
      var init := files[..|files| - 1];
      var x := files[|files| - 1];
      assert init + [x] == files;
      AnimScanOneMore(env, dir, name, init, x);
      AnimScanFrames(env, dir, name, init);
      if x != FrameRateFile && IsSupported(x) {
        FrameAdded(env, dir, name, init, x);
      } else {
        FramePassed(env, dir, name, init, x);
      }
    }
  }

  lemma AnimScanOneMore(env: Env, dir: string, name: string, init: seq<string>, x: string)
    requires AnimScan(env, dir, name, init + [x]).Success?
    ensures AnimScan(env, dir, name, init).Success?
    ensures AnimScan(env, dir, name, init + [x]) == FrameStep(env, dir, name, AnimScan(env, dir, name, init).value, x)
  {
    var files := init + [x];
    assert files[..|files| - 1] == init;
  }

  lemma ImagesOneMore(init: seq<string>, x: string)
    ensures Images(init + [x]) == Images(init) + (if IsSupported(x) then [x] else [])
  {
    var files := init + [x];
    assert files[..|files| - 1] == init;
  }

  /** The frame-rate file and other files leave the frames as they are. */
  lemma FramePassed(env: Env, dir: string, name: string, init: seq<string>, x: string)
    requires x == FrameRateFile || !IsSupported(x)
    requires AnimScan(env, dir, name, init).Success?
    requires AnimScan(env, dir, name, init + [x]) == FrameStep(env, dir, name, AnimScan(env, dir, name, init).value, x)
    requires FramesMatch(env, dir, name, AnimScan(env, dir, name, init).value, Images(init))
    ensures AnimScan(env, dir, name, init + [x]).Success?
    ensures FramesMatch(env, dir, name, AnimScan(env, dir, name, init + [x]).value, Images(init + [x]))
  {
    FrameRateFileIsNoImage();
    ImagesOneMore(init, x);
    assert Images(init) + [] == Images(init);
    FrameStepCases(env, dir, name, AnimScan(env, dir, name, init).value, x);
  }

  /** An image that the scan accepts becomes the next frame. */
  lemma FrameAdded(env: Env, dir: string, name: string, init: seq<string>, x: string)
    requires x != FrameRateFile && IsSupported(x)
    requires AnimScan(env, dir, name, init).Success?
    requires AnimScan(env, dir, name, init + [x]).Success?
    requires AnimScan(env, dir, name, init + [x]) == FrameStep(env, dir, name, AnimScan(env, dir, name, init).value, x)
    requires FramesMatch(env, dir, name, AnimScan(env, dir, name, init).value, Images(init))
    ensures FramesMatch(env, dir, name, AnimScan(env, dir, name, init + [x]).value, Images(init + [x]))
  {
    var st0 := AnimScan(env, dir, name, init).value;
    var img := ImageOf(env, dir, x);
    FrameStepCases(env, dir, name, st0, x);
    var st := AnimScan(env, dir, name, init + [x]).value;
    assert st == Frames(Some(img.width), Some(img.height), st0.count + 1, st0.rate,
                        st0.names + [FrameName(name, st0.count)],
                        st0.defs + FrameDef(FrameName(name, st0.count), img.data));
    ImagesOneMore(init, x);
    var fs := Images(init);
    FrameNamesSnoc(name, |fs|);
    FrameDefsOfSnoc(env, dir, name, fs, x);
    var frames := fs + [x];
    if fs != [] {
      assert frames[0] == fs[0];
    }
  }

  lemma FrameNamesSnoc(name: string, n: nat)
    ensures FrameNames(name, n) + [FrameName(name, n)] == FrameNames(name, n + 1)
  {
  }

  lemma FrameDefsOfSnoc(env: Env, dir: string, name: string, fs: seq<string>, x: string)
    ensures FrameDefsOf(env, dir, name, fs + [x])
         == FrameDefsOf(env, dir, name, fs) + FrameDef(FrameName(name, |fs|), ImageOf(env, dir, x).data)
  {
    var frames := fs + [x];
    assert frames[..|frames| - 1] == fs;
  }

  /** A successful scan holds the value of the directory's `frame_rate` file. */
  lemma {:induction false} AnimScanRate(env: Env, dir: string, name: string, files: seq<string>)
    requires AnimScan(env, dir, name, files).Success?
    ensures AnimScan(env, dir, name, files).value.rate == RateOf(env, dir, files)
    decreases |files|
  {
    if files != [] {
      var init := files[..|files| - 1];
      AnimScanRate(env, dir, name, init);
      FrameStepCases(env, dir, name, AnimScan(env, dir, name, init).value, files[|files| - 1]);
    }
  }

  /** A scan succeeds exactly when every image fits the display and has the
      size of the first. */
  lemma {:induction false} AnimScanSucceedsIff(env: Env, dir: string, name: string, files: seq<string>)
    ensures AnimScan(env, dir, name, files).Success? <==> FramesAgree(env, dir, Images(files))
    decreases |files|
  {
    if files != [] {
      var init := files[..|files| - 1];
      var x := files[|files| - 1];
      var fs := Images(init);
      AnimScanSucceedsIff(env, dir, name, init);
      FramesAgreeSnoc(env, dir, fs, x);
      if AnimScan(env, dir, name, init).Success? {
        AnimScanFrames(env, dir, name, init);
        FrameStepCases(env, dir, name, AnimScan(env, dir, name, init).value, x);
      }
      if x == FrameRateFile {
        FrameRateFileIsNoImage();
        assert Images(files) == fs;
      } else if !IsSupported(x) {
        assert Images(files) == fs;
      } else {
        assert Images(files) == fs + [x];
      }
    }
  }

  /** The whole outcome of a directory holding `frame_rate`. */
  lemma AnimatedIconSpec(cfg: Config, env: Env, dir: string, files: seq<string>)
    ensures var r := AnimatedIcon(cfg, env, dir, files);
            var name := AnimatedName(dir);
            var frames := Images(files);
            var rate := RateOf(env, dir, files);
            && (Skip(cfg, name) ==> r == Success(NoPart))
            && (!Skip(cfg, name) ==> (r.Success? <==> FramesAgree(env, dir, frames) && rate > 0 && frames != []))
            && (!Skip(cfg, name) && FramesAgree(env, dir, frames) && rate <= 0 ==>
                  r == Failure(BadFrameRate(dir, rate)))
            && (!Skip(cfg, name) && FramesAgree(env, dir, frames) && rate > 0 && frames == [] ==>
                  r == Failure(EmptyAnimation(dir)))
            && (!Skip(cfg, name) && r.Success? ==>
                  r.value == Part([IconRecord(name, ImageOf(env, dir, frames[0]).width,
                                              ImageOf(env, dir, frames[0]).height, rate, |frames|)],
                                  [PathEntry(name, AnimatedPath(dir, cfg.inputDir))],
                                  FrameDefsOf(env, dir, name, frames) + FramesDef(name, FrameNames(name, |frames|))))
  {
    var name := AnimatedName(dir);
    AnimScanSucceedsIff(env, dir, name, files);
    if AnimScan(env, dir, name, files).Success? {
      AnimScanFrames(env, dir, name, files);
      AnimScanRate(env, dir, name, files);
    }
  }

  // ---------------------------------------------------------- static icons

  /** The images of a static directory that the duplicate filter keeps. */
  function Kept(cfg: Config, files: seq<string>): (kept: seq<string>)
    ensures forall k :: 0 <= k < |kept| ==> IsSupported(kept[k]) && !Skip(cfg, StaticName(kept[k]))
    decreases |files|
  {
    if files == [] then []
    else
      var x := files[|files| - 1];
      Kept(cfg, files[..|files| - 1]) + (if IsSupported(x) && !Skip(cfg, StaticName(x)) then [x] else [])
  }

  /** A file is kept exactly when it is listed, accepted, and its symbol
      passes the duplicate filter. */
  lemma {:induction false} KeptMembers(cfg: Config, files: seq<string>)
    ensures forall x :: x in Kept(cfg, files) <==> x in files && IsSupported(x) && !Skip(cfg, StaticName(x))
    decreases |files|
  {
    if files != [] {
      var init := files[..|files| - 1];
      KeptMembers(cfg, init);
      KeptOneMore(cfg, init, files[|files| - 1]);
      assert init + [files[|files| - 1]] == files;
    }
  }

  lemma {:induction false} KeptAreListed(cfg: Config, files: seq<string>)
    ensures forall k :: 0 <= k < |Kept(cfg, files)| ==> Kept(cfg, files)[k] in files
    decreases |files|
  {
    if files != [] {
      var init := files[..|files| - 1];
      KeptAreListed(cfg, init);
      assert forall f :: f in init ==> f in files;
    }
  }

  function StaticRecords(env: Env, dir: string, kept: seq<string>): seq<IconRecord>
  {
    seq(|kept|, k requires 0 <= k < |kept| =>
      IconRecord(StaticName(kept[k]), ImageOf(env, dir, kept[k]).width, ImageOf(env, dir, kept[k]).height, 0, 1))
  }

  /** The registry entry of a static icon. */
  function StaticEntry(cfg: Config, dir: string, f: string): PathEntry
  {
    PathEntry(StaticName(f), StaticPath(JoinPath(dir, f), cfg.inputDir))
  }

  function StaticPaths(cfg: Config, dir: string, kept: seq<string>): seq<PathEntry>
  {
    seq(|kept|, k requires 0 <= k < |kept| => StaticEntry(cfg, dir, kept[k]))
  }

  /** Per static icon, its only frame `_{name}_0` and the one-element frame array. */
  function StaticDefs(env: Env, dir: string, kept: seq<string>): string
    decreases |kept|
  {
    if kept == [] then ""
    else
      var x := kept[|kept| - 1];
      var name := StaticName(x);
      StaticDefs(env, dir, kept[..|kept| - 1])
        + (FrameDef(FrameName(name, 0), ImageOf(env, dir, x).data) + FramesDef(name, [FrameName(name, 0)]))
  }

  predicate AllFit(env: Env, dir: string, files: seq<string>)
  {
    forall k :: 0 <= k < |files| ==> FitsDisplay(ImageOf(env, dir, files[k]))
  }

  /** One file of a static directory, case by case. */
  lemma StaticIconCases(cfg: Config, env: Env, dir: string, x: string)
    ensures var r := StaticIcon(cfg, env, dir, x);
            && (!(IsSupported(x) && !Skip(cfg, StaticName(x))) ==> r == Success(NoPart))
            && (IsSupported(x) && !Skip(cfg, StaticName(x)) ==>
                  (r.Success? <==> FitsDisplay(ImageOf(env, dir, x))))
            && (IsSupported(x) && !Skip(cfg, StaticName(x)) && r.Success? ==>
                  r.value == Part(StaticRecords(env, dir, [x]), StaticPaths(cfg, dir, [x]),
                                  StaticDefs(env, dir, [x])))
  {
    assert [x][..0] == [];
  }

  lemma StaticRecordsAppend(env: Env, dir: string, a: seq<string>, b: seq<string>)
    ensures StaticRecords(env, dir, a + b) == StaticRecords(env, dir, a) + StaticRecords(env, dir, b)
  {
    var l := StaticRecords(env, dir, a + b);
    var rr := StaticRecords(env, dir, a) + StaticRecords(env, dir, b);
    forall k | 0 <= k < |l|
      ensures l[k] == rr[k]
    {
      if k < |a| {
        assert (a + b)[k] == a[k];
      } else {
        assert (a + b)[k] == b[k - |a|];
      }
    }
  }

  lemma StaticPathsAppend(cfg: Config, dir: string, a: seq<string>, b: seq<string>)
    ensures StaticPaths(cfg, dir, a + b) == StaticPaths(cfg, dir, a) + StaticPaths(cfg, dir, b)
  {
    var l := StaticPaths(cfg, dir, a + b);
    var rr := StaticPaths(cfg, dir, a) + StaticPaths(cfg, dir, b);
    forall k | 0 <= k < |l|
      ensures l[k] == rr[k]
    {
      if k < |a| {
        assert (a + b)[k] == a[k];
      } else {
        assert (a + b)[k] == b[k - |a|];
      }
    }
  }

  /** A static directory succeeds exactly when every kept image fits the display. */
  lemma {:induction false} StaticScanSucceedsIff(cfg: Config, env: Env, dir: string, files: seq<string>)
    ensures StaticScan(cfg, env, dir, files).Success? <==> AllFit(env, dir, Kept(cfg, files))
    decreases |files|
  {
    if files != [] {
      var init := files[..|files| - 1];
      var x := files[|files| - 1];
      StaticScanSucceedsIff(cfg, env, dir, init);
      StaticIconCases(cfg, env, dir, x);
      var k0 := Kept(cfg, init);
      if IsSupported(x) && !Skip(cfg, StaticName(x)) {
        var kept := k0 + [x];
        assert Kept(cfg, files) == kept;
        if AllFit(env, dir, kept) {
          assert forall k :: 0 <= k < |k0| ==> kept[k] == k0[k];
          assert kept[|k0|] == x;
        }
      } else {
        assert Kept(cfg, files) == k0;
      }
    }
  }

  /** A successful static directory yields one record `(name, w, h, 0, 1)`,
      one path and one single-frame definition per kept image, in order. */
  lemma {:induction false} StaticScanParts(cfg: Config, env: Env, dir: string, files: seq<string>)
    requires StaticScan(cfg, env, dir, files).Success?
    ensures var kept := Kept(cfg, files);
            StaticScan(cfg, env, dir, files).value
              == Part(StaticRecords(env, dir, kept), StaticPaths(cfg, dir, kept), StaticDefs(env, dir, kept))
    decreases |files|
  {
    if files != [] {
      var init := files[..|files| - 1];
      var x := files[|files| - 1];
      StaticScanParts(cfg, env, dir, init);
      assert init + [x] == files;
      StaticScanSnoc(cfg, env, dir, init, x);
    }
  }

  lemma StaticScanSnoc(cfg: Config, env: Env, dir: string, init: seq<string>, x: string)
    requires StaticScan(cfg, env, dir, init + [x]).Success?
    requires var k0 := Kept(cfg, init);
             StaticScan(cfg, env, dir, init).Success?
             && StaticScan(cfg, env, dir, init).value
                == Part(StaticRecords(env, dir, k0), StaticPaths(cfg, dir, k0), StaticDefs(env, dir, k0))
    ensures var kept := Kept(cfg, init + [x]);
            StaticScan(cfg, env, dir, init + [x]).value
              == Part(StaticRecords(env, dir, kept), StaticPaths(cfg, dir, kept), StaticDefs(env, dir, kept))
  {
    if IsSupported(x) && !Skip(cfg, StaticName(x)) {
      StaticScanSnocKept(cfg, env, dir, init, x);
    } else {
      StaticScanSnocDropped(cfg, env, dir, init, x);
    }
  }

  lemma StaticScanSnocKept(cfg: Config, env: Env, dir: string, init: seq<string>, x: string)
    requires StaticScan(cfg, env, dir, init + [x]).Success?
    requires var k0 := Kept(cfg, init);
             StaticScan(cfg, env, dir, init).Success?
             && StaticScan(cfg, env, dir, init).value
                == Part(StaticRecords(env, dir, k0), StaticPaths(cfg, dir, k0), StaticDefs(env, dir, k0))
    requires IsSupported(x) && !Skip(cfg, StaticName(x))
    ensures var kept := Kept(cfg, init + [x]);
            StaticScan(cfg, env, dir, init + [x]).value
              == Part(StaticRecords(env, dir, kept), StaticPaths(cfg, dir, kept), StaticDefs(env, dir, kept))
  {
    ScanOneMore(cfg, env, dir, init, x);
    KeptOneMore(cfg, init, x);
    KeptSnoc(cfg, env, dir, Kept(cfg, init), x, StaticIcon(cfg, env, dir, x).value);
  }

  /** A file the scan passes over changes neither the scan nor the kept list. */
  lemma StaticScanSnocDropped(cfg: Config, env: Env, dir: string, init: seq<string>, x: string)
    requires !(IsSupported(x) && !Skip(cfg, StaticName(x)))
    ensures StaticScan(cfg, env, dir, init + [x]) == StaticScan(cfg, env, dir, init)
    ensures Kept(cfg, init + [x]) == Kept(cfg, init)
  {
    var files := init + [x];
    assert files[..|files| - 1] == init;
    assert Kept(cfg, init) + [] == Kept(cfg, init);
    assert StaticIcon(cfg, env, dir, x) == Success(NoPart);
    if StaticScan(cfg, env, dir, init).Success? {
      var p := StaticScan(cfg, env, dir, init).value;
      assert Cat(p, NoPart) == p;
    }
  }

  lemma ScanOneMore(cfg: Config, env: Env, dir: string, init: seq<string>, x: string)
    requires StaticScan(cfg, env, dir, init + [x]).Success?
    ensures StaticScan(cfg, env, dir, init).Success? && StaticIcon(cfg, env, dir, x).Success?
    ensures StaticScan(cfg, env, dir, init + [x]).value
         == Cat(StaticScan(cfg, env, dir, init).value, StaticIcon(cfg, env, dir, x).value)
  {
    var files := init + [x];
    assert files[..|files| - 1] == init;
  }

  lemma KeptOneMore(cfg: Config, init: seq<string>, x: string)
    ensures Kept(cfg, init + [x]) == Kept(cfg, init) + (if IsSupported(x) && !Skip(cfg, StaticName(x)) then [x] else [])
  {
    var files := init + [x];
    assert files[..|files| - 1] == init;
  }

  /** The parts of the kept images grow by the parts of one more image. */
  lemma KeptSnoc(cfg: Config, env: Env, dir: string, kept: seq<string>, x: string, q: Part)
    requires IsSupported(x) && !Skip(cfg, StaticName(x))
    requires StaticIcon(cfg, env, dir, x) == Success(q)
    ensures Cat(Part(StaticRecords(env, dir, kept), StaticPaths(cfg, dir, kept), StaticDefs(env, dir, kept)), q)
         == Part(StaticRecords(env, dir, kept + [x]), StaticPaths(cfg, dir, kept + [x]), StaticDefs(env, dir, kept + [x]))
  {
    StaticIconCases(cfg, env, dir, x);
    StaticRecordsAppend(env, dir, kept, [x]);
    StaticPathsAppend(cfg, dir, kept, [x]);
    StaticDefsSnoc(env, dir, kept, x);
  }

  lemma StaticDefsSnoc(env: Env, dir: string, kept: seq<string>, x: string)
    ensures StaticDefs(env, dir, kept + [x]) == StaticDefs(env, dir, kept) + StaticDefs(env, dir, [x])
  {
    assert (kept + [x])[..|kept|] == kept;
    assert [x][..0] == [];
  }
}
