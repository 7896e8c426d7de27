/** The per-file and per-directory rules of the icon registry builder
    (scripts/assets.py): which files are images, the display bound on their
    size, how symbols and registry paths are derived from file and
    directory names, and when a supplemental bundle drops an icon that the
    firmware's symbol table already declares. */
module IconRules {
  import opened Text
  import opened Wrappers

  const SupportedFormats: seq<string> := ["png"]
  const MaxImageWidth: nat := 128
  const MaxImageHeight: nat := 64
  /** The base filename of the main bundle; every other name is a supplemental bundle. */
  const MainAssetsFilename: string := "assets_icons"
  /** The file whose presence makes a directory an animation. */
  const FrameRateFile: string := "frame_rate"

  /** What the image decoder reports for one file: its size and its pixels
      already rendered as a C array initialiser. */
  datatype Image = Image(width: nat, height: nat, data: string)

  /** The exceptions and failed assertions that abort a build. */
  datatype Error =
    | TooBig(file: string, width: nat, height: nat)
    | FrameSizeMismatch(file: string, width: nat, height: nat, frameWidth: nat, frameHeight: nat)
    | BadFrameRate(dir: string, frameRate: int)
    | EmptyAnimation(dir: string)

  /** One entry of the `icons` list: `(name, width, height, frame_rate, frame_count)`. */
  datatype IconRecord = IconRecord(name: string, width: nat, height: nat, frameRate: nat, frameCount: nat)

  /** One entry of the `paths` list: an icon and its path relative to the input directory. */
  datatype PathEntry = PathEntry(name: string, path: string)

  // ---------------------------------------------------------------- format

  /** `_iconIsSupported`: the lower-cased text after the last `.` is a supported format. */
  function IsSupported(filename: string): bool
  {
    Last(Split(Lower(filename), '.')) in SupportedFormats
  }

  /** A file name ending in `.png` in any letter case, or the bare name `png`. */
  ghost predicate HasPngExtension(f: string)
  {
    |f| >= 3 && Lower(f[|f| - 3..]) == "png" && (|f| == 3 || f[|f| - 4] == '.')
  }

  lemma LowerOfSuffix(f: string, k: nat)
    requires k <= |f|
    ensures Lower(f[k..]) == Lower(f)[k..]
  {
  }

  lemma LowerCharDot(c: char)
    ensures LowerChar(c) == '.' <==> c == '.'
  {
  }

  lemma IsSupportedIff(filename: string)
    ensures IsSupported(filename) <==> HasPngExtension(filename)
  {
    if IsSupported(filename) {
      SupportedHasPngExtension(filename);
    }
    if HasPngExtension(filename) {
      PngExtensionIsSupported(filename);
    }
  }

  lemma SupportedHasPngExtension(filename: string)
    requires IsSupported(filename)
    ensures HasPngExtension(filename)
  {
    var low := Lower(filename);
    var n := |filename|;
    var k := LastIndexOf(low, '.');
    assert low[k + 1..] == "png" by {
      LastPartIsAfterLast(low, '.');
      assert Last(Split(low, '.')) == "png";
    }
    assert k == n - 4;
    assert Lower(filename[n - 3..]) == "png" by {
      LowerOfSuffix(filename, n - 3);
    }
    if k >= 0 {
      assert low[k] == '.';
      LowerCharDot(filename[n - 4]);
    }
  }

  lemma PngExtensionIsSupported(filename: string)
    requires HasPngExtension(filename)
    ensures IsSupported(filename)
  {
    var low := Lower(filename);
    var n := |filename|;
    LowerOfSuffix(filename, n - 3);
    assert low[n - 3..] == "png";
    if n == 3 {
      assert low == "png";
      SplitWithoutSeparator(low, '.');
    } else {
      LowerCharDot(filename[n - 4]);
      assert low == low[..n - 4] + ['.'] + "png";
      SplitAfterSeparator(low[..n - 4], '.', "png");
    }
  }

  // ------------------------------------------------------------------ size

  predicate FitsDisplay(img: Image)
  {
    img.width <= MaxImageWidth && img.height <= MaxImageHeight
  }

  /** `_icon2header`: decode `file` with the `image` oracle and refuse it when
      it is wider or taller than the display. */
  function Icon2Header(file: string, image: string -> Image): (r: Result<Image, Error>)
    ensures r.Success? <==> FitsDisplay(image(file))
    ensures r.Success? ==> r.value == image(file)
    ensures r.Failure? ==> r.error == TooBig(file, image(file).width, image(file).height)
  {
    var img := image(file);
    if img.width > MaxImageWidth || img.height > MaxImageHeight then
      Failure(TooBig(file, img.width, img.height))
    else
      Success(img)
  }

  // ----------------------------------------------------------------- names

  /** The symbol of a static icon: `I_`, the file name without its last
      extension with the remaining dots joined by `_`, and `-` turned into `_`. */
  function StaticName(filename: string): (name: string)
    ensures "I_" <= name && '-' !in name
  {
    var parts := Split(filename, '.');
    "I_" + Replace(Join(parts[..|parts| - 1], '_'), '-', '_')
  }

  /** The symbol of an animation: `A_` and the directory's own name with `-` turned into `_`. */
  function AnimatedName(dirpath: string): (name: string)
    ensures "A_" <= name && '-' !in name
  {
    "A_" + Replace(AfterLast(dirpath, '/'), '-', '_')
  }

  /** The symbol of frame `k` of icon `name`: `_{name}_{k}`. */
  function FrameName(name: string, k: nat): string
  {
    "_" + name + "_" + NatToString(k)
  }

  lemma StaticNameOfStem(stem: string, ext: string)
    requires '.' !in ext
    ensures StaticName(stem + "." + ext) == "I_" + Replace(Replace(stem, '.', '_'), '-', '_')
  {
    SplitAfterSeparator(stem, '.', ext);
    var parts := Split(stem + "." + ext, '.');
    assert parts[..|parts| - 1] == Split(stem, '.');
    JoinSplit(stem, '.', '_');
  }

  /** A name with no dot at all (the bare file `png`) gives the symbol `I_`. */
  lemma StaticNameWithoutDot(filename: string)
    requires '.' !in filename
    ensures StaticName(filename) == "I_"
  {
    SplitWithoutSeparator(filename, '.');
  }

  lemma AnimatedNameOfBase(parent: string, base: string)
    requires '/' !in base
    ensures AnimatedName(parent + "/" + base) == "A_" + Replace(base, '-', '_')
  {
    LastPartIsAfterLast(parent + "/" + base, '/');
    SplitAfterSeparator(parent, '/', base);
  }

  lemma FrameNamesDistinct(name: string, j: nat, k: nat)
    requires j != k
    ensures FrameName(name, j) != FrameName(name, k)
  {
    var prefix := "_" + name + "_";
    if FrameName(name, j) == FrameName(name, k) {
      assert NatToString(j) == FrameName(name, j)[|prefix|..];
      assert NatToString(k) == FrameName(name, k)[|prefix|..];
      NatToStringInjective(j, k);
    }
  }

  // ----------------------------------------------------------------- paths

  /** `os.path.join(dir, name)` with the POSIX separator. */
  function JoinPath(dir: string, name: string): string
  {
    if |name| > 0 && name[0] == '/' then name
    else if dir == [] || Last(dir) == '/' then dir + name
    else dir + "/" + name
  }

  /** `s.removeprefix(prefix)`. */
  function RemovePrefix(s: string, prefix: string): string
  {
    if prefix <= s then s[|prefix|..] else s
  }

  /** `s[1:]`. */
  function DropFirst(s: string): string
  {
    if s == [] then [] else s[1..]
  }

  /** The input directory removed, the separator after it dropped, and
      Windows separators turned into `/`. */
  function RegistryPath(p: string, inputDir: string): (path: string)
    ensures '\\' !in path
  {
    Replace(DropFirst(RemovePrefix(p, inputDir)), '\\', '/')
  }

  /** The registry path of an animation is its directory's relative path. */
  function AnimatedPath(dirpath: string, inputDir: string): (path: string)
    ensures '\\' !in path
  {
    RegistryPath(dirpath, inputDir)
  }

  /** The registry path of a static icon is its file's relative path without
      the last extension. */
  function StaticPath(fullFilename: string, inputDir: string): (path: string)
    ensures '\\' !in path
  {
    var p := RegistryPath(fullFilename, inputDir);
    var k := LastIndexOf(p, '.');
    assert k >= 0 ==> p[..k] <= p;
    BeforeLast(p, '.')
  }

  lemma RegistryPathUnderInput(inputDir: string, sep: char, rel: string)
    ensures RegistryPath(inputDir + [sep] + rel, inputDir) == Replace(rel, '\\', '/')
  {
    assert (inputDir + [sep] + rel)[|inputDir|..] == [sep] + rel;
  }

  /** With a trailing separator on the input directory, the character
      dropped after the prefix is the first one of the relative path. */
  lemma RegistryPathTrailingSeparator()
    ensures RegistryPath("in/Anim", "in/") == "nim"
  {
    assert "in/Anim" == "in/" + ['A'] + "nim";
    RegistryPathUnderInput("in/", 'A', "nim");
    assert Replace("nim", '\\', '/') == "nim";
  }

  lemma StaticPathUnderInput(inputDir: string, sep: char, stem: string, ext: string)
    requires '.' !in ext
    ensures StaticPath(inputDir + [sep] + stem + "." + ext, inputDir) == Replace(stem, '\\', '/')
  {
    var rel := stem + "." + ext;
    assert inputDir + [sep] + stem + "." + ext == inputDir + [sep] + rel;
    RegistryPathUnderInput(inputDir, sep, rel);
    var p := Replace(rel, '\\', '/');
    var e := Replace(ext, '\\', '/');
    ReplaceAppend(stem + ".", ext, '\\', '/');
    ReplaceAppend(stem, ".", '\\', '/');
    ReplaceKeepsAbsent(ext, '\\', '/', '.');
    assert p == Replace(stem, '\\', '/') + ['.'] + e;
    LastIndexOfAfterSeparator(Replace(stem, '\\', '/'), '.', e);
  }

  // ------------------------------------------------------------ duplicates

  /** The line fragment by which the firmware's symbol table declares an icon. */
  function IconDeclaration(name: string): string
  {
    "Variable,+," + name + ",Icon,"
  }

  /** `api_has_icon`: a plain substring test on the symbol table text. */
  function ApiHasIcon(symbols: string, name: string): bool
  {
    Contains(symbols, IconDeclaration(name))
  }

  predicate IsMainBundle(assetsFilename: string)
  {
    assetsFilename == MainAssetsFilename
  }

  /** A candidate icon is dropped only from a supplemental bundle, and there
      only when the symbol table already declares it. */
  function Skipped(assetsFilename: string, symbols: string, name: string): (skip: bool)
    ensures skip <==> assetsFilename != MainAssetsFilename
                      && exists i :: OccursAt(symbols, IconDeclaration(name), i)
  {
    ContainsIff(symbols, IconDeclaration(name));
    !IsMainBundle(assetsFilename) && ApiHasIcon(symbols, name)
  }
}
