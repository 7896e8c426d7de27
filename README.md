# Icon registry builder, modelled in Dafny

This project models the `icons` command of `scripts/assets.py` from the
Momentum firmware. The command compiles a tree of PNG icons into a C source
file and a header for the firmware's GUI.

The command walks the input directory. A directory that holds a
`frame_rate` file is one animation: its images, in sorted order, are the
frames. Any other directory yields one static icon per image. A
supplemental bundle passes over an icon whose symbol is already declared
(see below) before decoding it. Every image of an icon that is kept is
checked against the 128×64 display. The frames of an animation must all
have one size, and the animation needs a positive frame rate and at least
one frame; a `frame_rate` directory without any image is an error.

Each icon gets a C symbol: `I_<stem>` for a static icon, `A_<directory>` for
an animation, and `_<symbol>_<k>` for its frames. A supplemental bundle (any
output name other than `assets_icons`) drops an icon whose symbol the
firmware's symbol table already declares. The command then writes, in list
order:

- the frame arrays;
- one descriptor per icon;
- for the main bundle only, a registry mapping each icon to its path relative
  to the input directory;
- a header with one `extern` declaration per icon.

The project also models the closing decision of the `manifest` command:
whether the freshly created manifest is saved.

Layout:

- `text.dfy` (`Text`): the Python string operations the builder relies on:
  `lower` (ASCII letters), `split`, `join`, one-character `replace`, the
  last occurrence of a character (what `os.path.split` and `rsplit(".", 1)`
  cut at), the substring test, `str(n)`, and text written line by line.
  Lemmas give the meaning of `split`/`join`, the substring test, `str(n)`
  and the line-by-line text.
- `icon_rules.dfy` (`IconRules`): the per-file rules. These are the format
  filter, the size gate, symbol and frame naming, registry paths and the
  duplicate filter.
- `icon_templates.dfy` (`IconTemplates`): the C and header templates, with
  lemmas giving the line structure of both generated files.
- `icon_compile.dfy` (`IconCompile`): the build as functions of its inputs,
  per file, per directory and per walk. The first error ends the build.
- `icon_builder.dfy` (`IconBuilder`): `icons` as loops that grow the `icons`
  and `paths` lists and the output text step by step. `BuildIcons` is proved
  to return exactly `IconCompile.BuildOutput`.
- `icon_facts.dfy` (`IconFacts`) and `build_facts.dfy` (`BuildFacts`):
  properties of the build, stated with reference definitions independent of
  the loops.
- `manifest_decision.dfy` (`ManifestDecision`): the save decision.

Inputs that the program reads from outside are parameters of the model:

- the directory walk is a sequence of `(dirpath, filenames)` steps;
- the image decoder is a function from a path to width, height and the
  rendered C array;
- the frame rate is a function from a path to the integer read;
- the symbol table is its text.

The code does the following, which a reader might not expect; the model does
the same:

- A directory without `frame_rate` is simply static; nothing rejects it as a
  broken animation.
- Two files whose symbols coincide (`foo-bar.png` and `foo_bar.png`) are both
  emitted. Nothing detects the collision.
- The duplicate test is a substring search on the symbol table's text, not
  an exact lookup of parsed names.
- The `.c` file is written as the walk goes, so a failing build has already
  written part of it. It is not true that nothing is output before a failure.
- The frame rate is whatever integer the file holds. A negative one is read
  and then rejected by the positivity check.
- A registry path is the directory with the input directory's text removed
  and then one more character dropped (the separator). When the input
  directory is given with a trailing separator, that drop takes the first
  character of the relative path instead: input `in/` and directory
  `in/Anim` register `nim`, not `Anim` (`IconRules.RegistryPathTrailingSeparator`).

## Model

| member | source | states |
|---|---|---|
| `IconRules.IsSupportedIff` | scripts/assets.py:125-127 | `IconRules.IsSupported`, the `_iconIsSupported` test: a file is accepted exactly when its name, case ignored, ends in `.png` or is the bare name `png` |
| `IconRules.Icon2Header` | scripts/assets.py:117-123 | fails exactly when the decoded width exceeds 128 or the height exceeds 64, naming the file and its size; otherwise returns the decoded image unchanged |
| `IconRules.StaticName` | scripts/assets.py:203-205 | a static symbol starts with `I_` and holds no `-` |
| `IconRules.StaticNameOfStem` | scripts/assets.py:203-205 | for `stem.ext`, the symbol is `I_` followed by the stem with `.` and `-` turned into `_` |
| `IconRules.StaticNameWithoutDot` | scripts/assets.py:203-205 | a name without a dot (the bare `png`) gives the symbol `I_` |
| `IconRules.AnimatedName` | scripts/assets.py:155 | an animation symbol starts with `A_` and holds no `-` |
| `IconRules.AnimatedNameOfBase` | scripts/assets.py:155 | the symbol of `parent/base` is `A_` followed by `base` with `-` turned into `_` |
| `IconRules.FrameNamesDistinct` | scripts/assets.py:180 | different frame indices give different frame symbols |
| `IconRules.RegistryPath` | scripts/assets.py:195-196 | a registry path never holds `\` |
| `IconRules.AnimatedPath` | scripts/assets.py:195-196 | an animation's registry path never holds `\` |
| `IconRules.StaticPath` | scripts/assets.py:224-225 | a static icon's registry path never holds `\` |
| `IconRules.RegistryPathUnderInput` | scripts/assets.py:195-196 | a path under the input directory registers as its relative part with `\` turned into `/` |
| `IconRules.RegistryPathTrailingSeparator` | scripts/assets.py:195-196 | with a trailing separator on the input directory the `[1:]` drops the first character of the relative path: `in/` and `in/Anim` register `nim` |
| `IconRules.StaticPathUnderInput` | scripts/assets.py:224-225 | a file `stem.ext` under the input directory registers as its relative stem, extension removed, `\` turned into `/` |
| `IconRules.Skipped` | scripts/assets.py:141-145 | an icon is dropped exactly when the bundle is not `assets_icons` and `Variable,+,<name>,Icon,` occurs somewhere in the symbol table |
| `Text.ContainsIff` | scripts/assets.py:145 | the substring test holds exactly when the pattern occurs at some position |
| `Text.LastPartIsAfterLast` | scripts/assets.py:126 | the last part of a split is the text after the last separator |
| `Text.JoinSplit` | scripts/assets.py:203-205 | joining the parts of a split with `d` replaces every separator by `d` |
| `Text.NatToStringRoundTrip` | scripts/assets.py:27 | the decimal text of a size, rate or count reads back as that number |
| `Text.SplitLines` | scripts/assets.py:12-27 | text written line by line splits back into exactly the lines written |
| `IconTemplates.HeaderLayout` | scripts/assets.py:262-278 | `IconTemplates.HeaderText`, the `.h` file's text: the header is the fixed preamble, one `extern Icon` line per icon in order, then the registry type (main bundle) or the include of `assets_icons.h` |
| `IconTemplates.SourceLayout` | scripts/assets.py:226-252 | `IconTemplates.SourceText`, the `.c` file's text: after the frame data, the source holds one descriptor line per icon in order, then the registry lines only for the main bundle, one per path in order |
| `IconCompile.FrameStep` | scripts/assets.py:165-185 | one file of an animation keeps the scan state consistent: a size is fixed exactly when some frame was taken, one symbol per frame, within the display |
| `IconCompile.NextFrame` | scripts/assets.py:172-178 | a decoded frame is accepted only when it fits the display and, once a first frame fixed the size, has exactly that width and height |
| `IconCompile.AnimScan` | scripts/assets.py:161-185 | a successful scan of an animation directory leaves a consistent scan state |
| `IconCompile.StaticScanStops` | scripts/assets.py:199-212 | once a file of a static directory fails, the directory fails with that error |
| `IconCompile.AnimScanStops` | scripts/assets.py:165-179 | once a frame fails, the animation fails with that error |
| `IconCompile.CompileStops` | scripts/assets.py:147-225 | once a directory fails, the whole build fails with that error |
| `IconBuilder.BuildIcons` | scripts/assets.py:129-281 | `IconCompile.BuildOutput`, the whole build's outcome: the loops return exactly the lists, source text and header text of the build, or its first error |
| `IconBuilder.ScanDirectory` | scripts/assets.py:147-225 | one directory: nothing when empty, an animation when `frame_rate` is present, its images otherwise; the frame text is appended to the source as produced |
| `IconBuilder.ScanAnimated` | scripts/assets.py:153-195 | a `frame_rate` directory returns exactly the animated-icon outcome (skip, frame scan, positive rate, at least one frame) and appends the frames and the frame-symbol array to the source |
| `IconBuilder.ScanAnimation` | scripts/assets.py:161-185 | the frame loop returns exactly the animation scan and appends the frame arrays to the source |
| `IconBuilder.ScanStatic` | scripts/assets.py:199-225 | the static loop returns exactly the static scan and appends each icon's frame and frame array to the source |
| `IconBuilder.WriteDescriptors` | scripts/assets.py:226-237 | appends one descriptor line per icon, in order |
| `IconBuilder.WriteRegistry` | scripts/assets.py:238-252 | appends the registry block with one entry per path, in order |
| `IconBuilder.WriteHeader` | scripts/assets.py:255-278 | produces the header text |
| `IconFacts.Images` | scripts/assets.py:170-171 | the images of a directory are accepted files, no more than were listed |
| `IconFacts.ImagesMembers` | scripts/assets.py:170-171 | a file is among the images exactly when it is listed and `_iconIsSupported` accepts it |
| `IconFacts.FrameRateFileIsNoImage` | scripts/assets.py:167-171 | `frame_rate` is never taken for an image |
| `IconFacts.FrameStepCases` | scripts/assets.py:165-185 | `frame_rate` sets the rate; other non-images change nothing; an image succeeds exactly when it fits and matches the size fixed so far, and becomes frame `_<name>_<count>` |
| `IconFacts.AnimScanFrames` | scripts/assets.py:161-185 | a successful scan took exactly the directory's images as frames (`FramesMatch`): their count, the symbols `_<name>_0` onwards, their byte arrays in order, and the first frame's size |
| `IconFacts.AnimScanRate` | scripts/assets.py:167-168 | a successful scan holds the value read from the directory's `frame_rate` file |
| `IconFacts.AnimScanSucceedsIff` | scripts/assets.py:173-179 | the scan succeeds exactly when every image fits the display and has the first image's size |
| `IconFacts.AnimatedIconSpec` | scripts/assets.py:153-196 | `IconCompile.AnimatedIcon`, the animated-directory outcome: an animation is dropped when skipped; otherwise it succeeds exactly when its frames agree, the rate is positive and there is a frame, with `BadFrameRate` or `EmptyAnimation` as the error; on success it is one record `(A_name, w, h, rate, count)`, its directory path, its frames and its frame array |
| `IconFacts.Kept` | scripts/assets.py:199-210 | the kept files of a static directory are accepted images whose symbols the duplicate filter keeps |
| `IconFacts.KeptMembers` | scripts/assets.py:199-210 | a file is kept exactly when it is listed, accepted, and its symbol passes the duplicate filter |
| `IconFacts.KeptAreListed` | scripts/assets.py:199 | every kept file is one of the directory's files |
| `IconFacts.StaticIconCases` | scripts/assets.py:199-225 | `IconCompile.StaticIcon`, one file of a static directory: a file that is not an image, or is skipped, adds nothing; a kept one succeeds exactly when it fits and adds `(I_name, w, h, 0, 1)`, its path and frame `_<name>_0` |
| `IconFacts.StaticScanSucceedsIff` | scripts/assets.py:199-212 | `IconCompile.StaticScan`, the static-directory outcome: a static directory succeeds exactly when every kept image fits the display |
| `IconFacts.StaticScanParts` | scripts/assets.py:211-225 | a static directory yields one record `(I_name, w, h, 0, 1)`, one path and one single-frame definition per kept image, in order |
| `BuildFacts.UnskippedMembers` | scripts/assets.py:141-145 | a symbol survives the duplicate filter exactly when it is a candidate and the bundle is the main one or the symbol table does not declare it |
| `BuildFacts.MainBundleKeepsEveryCandidate` | scripts/assets.py:156 | the main bundle drops no candidate, whatever the symbol table says |
| `BuildFacts.KeptAreUnskippedImages` | scripts/assets.py:199-210 | the symbols kept in a static directory are its image symbols that the duplicate filter keeps |
| `BuildFacts.DirPartNames` | scripts/assets.py:151-225 | `IconCompile.DirPart`, the outcome of one directory: a directory adds to `icons` and to `paths` exactly its candidates that the filter keeps, in order |
| `BuildFacts.CompileNames` | scripts/assets.py:139-225 | `IconCompile.Compile`, the walk over all directories: the symbols in `icons`, and in `paths` alike, are the walk's candidates in walk order that the filter keeps |
| `BuildFacts.SkippedNeverEmitted` | scripts/assets.py:156-160 | a skipped symbol appears in neither `icons` nor `paths` |
| `BuildFacts.NoImagesNoIcons` | scripts/assets.py:199-201 | a directory without `frame_rate` and with no image adds nothing |
| `BuildFacts.StaticPartOk` | scripts/assets.py:211-225 | every record of a static directory fits the display, is `I_`, rate 0, one frame, and its path has no `\` |
| `BuildFacts.AnimatedPartOk` | scripts/assets.py:161-196 | every record of an animation fits the display, is `A_`, with a positive rate and frames, and its path has no `\` |
| `BuildFacts.CompileWellFormed` | scripts/assets.py:117-225 | every record of a build fits the display, has a symbol without `-` kept by the filter, and is static `(I_, rate 0, 1 frame)` or animated `(A_, rate > 0, frames > 0)`; no path holds `\` |
| `BuildFacts.SupplementalOmitsDeclared` | scripts/assets.py:206-210 | a supplemental bundle emits no icon the symbol table declares |
| `BuildFacts.StaticNameWithoutNewline` | scripts/assets.py:203-205 | a file name without line breaks gives a symbol without line breaks |
| `BuildFacts.AnimatedNameWithoutNewline` | scripts/assets.py:155 | a directory without line breaks gives a symbol without line breaks |
| `BuildFacts.RegistryPathWithoutNewline` | scripts/assets.py:195-196 | a path without line breaks registers without line breaks |
| `BuildFacts.StaticPathWithoutNewline` | scripts/assets.py:224-225 | a static icon's registry path has no line break when its directory and name have none |
| `BuildFacts.DirPartWithoutNewline` | scripts/assets.py:151-225 | a directory whose names have no line break adds symbols and paths without line breaks |
| `BuildFacts.CompileWithoutNewline` | scripts/assets.py:147-225 | a walk whose names have no line break yields symbols and paths without line breaks |
| `BuildFacts.BuildHeaderLayout` | scripts/assets.py:262-278 | the generated header is, line by line, the preamble, one `extern Icon` per entry of `icons` in order, and the main bundle's registry type or the include of `assets_icons.h` |
| `BuildFacts.BuildSourceLayout` | scripts/assets.py:226-252 | after the frame data the generated source is one descriptor per icon in order, then, for the main bundle only, one registry entry per path in order |
| `ManifestDecision.AnyNonEmpty` | scripts/assets.py:310 | `any` over the lists holds exactly when one of them is non-empty |
| `ManifestDecision.ShouldSave` | scripts/assets.py:310-316 | the manifest is saved exactly when some record is only in the old manifest, changed, or only in the new one |

## Left out

- Argument parsing, logging, and opening, writing and closing files. The two generated files are modelled as the text written to them.
- The directory walk itself. The walk is a given sequence of directories, each with its file names already sorted. The sorting of `dirnames` and `filenames` only fixes this order.
- `file2image` and `data_as_carray`: image decoding is foreign code. An oracle gives each path's width, height and rendered array. A file that fails to decode is not modelled.
- Reading `api_symbols.csv` and the `frame_rate` file. The symbol table is its text. The frame rate is the integer an oracle gives for the path. An unreadable file, or text that is not an integer, is not modelled.
- `IconBuilder.BuildIcons`: on a failure it returns only the error. It does not return the partial `.c` text written so far.
- The frame-size, frame-rate and frame-count assertions (scripts/assets.py:178-179, 186-187) are Python `assert` statements, which vanish under `python -O`. The model always performs them. The 128×64 check is a `raise` and stays under `-O` too.
- `Text.LowerChar` folds only ASCII letters, while Python's `lower` folds all of Unicode. No non-ASCII character lower-cases to `p`, `n` or `g`, so the `png` test is unaffected.
- `IconRules.JoinPath` follows POSIX `os.path.join`. Windows drive and separator rules are not modelled.
- `IconRules.AnimatedName` follows POSIX `os.path.split`, which cuts only at `/`; on Windows it also cuts at `\`, which is not modelled.
- The `Manifest` class (`create`, `load`, `save`, `compare`) is not part of this model; only the save decision on its comparison result is. The `exit(255)` for a missing directory is I/O.
- The `copro`, `dolphin` and `packs` commands wrap libraries that are not part of this model.
