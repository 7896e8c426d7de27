/** The text the icon registry builder writes into `<filename>.c` and
    `<filename>.h`: fixed templates filled with symbols, sizes and paths and
    concatenated in the order of the `icons` and `paths` lists. */
module IconTemplates {
  import opened Text
  import opened IconRules

  // ------------------------------------------------------------- templates

  function SourcePreamble(assetsFilename: string): string
  {
    "#include \"" + assetsFilename + ".h\"\n\n#include <gui/icon_i.h>\n\n"
  }

  /** The byte array of one frame. */
  function FrameDef(frameName: string, data: string): string
  {
    "const uint8_t " + frameName + "[] = " + data + ";\n"
  }

  /** The array of frame pointers of one icon, then an empty line. */
  function FramesDef(name: string, frameNames: seq<string>): string
  {
    "const uint8_t* const _" + name + "[] = {" + Join(frameNames, ',') + "};\n" + "\n"
  }

  /** The line, without its newline, that declares an icon in the header. */
  function ExternDecl(name: string): string
  {
    "extern Icon " + name + ";"
  }

  /** The line, without its newline, that defines an icon's descriptor. */
  function IconDef(icon: IconRecord): string
  {
    "Icon " + icon.name + " = {.width=" + NatToString(icon.width)
      + ",.height=" + NatToString(icon.height)
      + ",.frame_count=" + NatToString(icon.frameCount)
      + ",.frame_rate=" + NatToString(icon.frameRate)
      + ",.frames=_" + icon.name + "};"
  }

  /** The line, without its newline, of one registry entry. */
  function PathDef(entry: PathEntry): string
  {
    "    {&" + entry.name + ", \"" + entry.path + "\"},"
  }

  // ------------------------------------------------------ the line blocks

  function ExternDecls(icons: seq<IconRecord>): seq<string>
  {
    seq(|icons|, i requires 0 <= i < |icons| => ExternDecl(icons[i].name))
  }

  function IconDefs(icons: seq<IconRecord>): seq<string>
  {
    seq(|icons|, i requires 0 <= i < |icons| => IconDef(icons[i]))
  }

  function PathDefs(paths: seq<PathEntry>): seq<string>
  {
    seq(|paths|, i requires 0 <= i < |paths| => PathDef(paths[i]))
  }

  function HeaderTail(isMain: bool): string
  {
    if isMain then MainHeaderTail else SupplementalHeaderTail
  }

  function PathsBlock(paths: seq<PathEntry>): string
  {
    PathsOpen + Lines(PathDefs(paths)) + PathsClose
  }

  /** The whole `.h` file. */
  function HeaderText(isMain: bool, icons: seq<IconRecord>): string
  {
    HeaderPreamble + Lines(ExternDecls(icons)) + HeaderTail(isMain)
  }

  /** The whole `.c` file: the preamble, the frame definitions written while
      scanning, one descriptor per icon, and for the main bundle only the
      path registry. */
  function SourceText(assetsFilename: string, frameDefs: string, icons: seq<IconRecord>,
                      paths: seq<PathEntry>, isMain: bool): string
  {
    SourcePreamble(assetsFilename) + frameDefs + Lines(IconDefs(icons))
      + (if isMain then PathsBlock(paths) else "")
  }

  // ------------------------------------------------------ the fixed texts
  // Each multi-line template is kept as its list of lines; `Lines` puts the
  // newline after each of them back.

  const HeaderPreambleLines: seq<string> := ["#pragma once", "", "#include <furi.h>", "#include <gui/icon.h>", ""]
  const MainHeaderTailLines: seq<string> :=
    ["", "typedef struct {", "    const Icon* icon;", "    const char* path;", "} IconPath;", "",
     "extern const IconPath ICON_PATHS[];", "extern const size_t ICON_PATHS_COUNT;"]
  const SupplementalHeaderTailLines: seq<string> := ["#include <assets_icons.h>"]
  const PathsOpenLines: seq<string> := ["", "const IconPath ICON_PATHS[] = {", "#ifndef FURI_RAM_EXEC"]
  // The last line is one template line; it is written as two literals
  // because the verifier sees the characters of a literal this long only in
  // pieces.
  const PathsCloseLines: seq<string> := ["#endif", "};", "const size_t ICON_PATHS_COUNT" + " = COUNT_OF(ICON_PATHS);"]

  const HeaderPreamble: string := Lines(HeaderPreambleLines)
  const MainHeaderTail: string := Lines(MainHeaderTailLines)
  const SupplementalHeaderTail: string := Lines(SupplementalHeaderTailLines)
  const PathsOpen: string := Lines(PathsOpenLines)
  const PathsClose: string := Lines(PathsCloseLines)

  function HeaderTailLines(isMain: bool): seq<string>
  {
    if isMain then MainHeaderTailLines else SupplementalHeaderTailLines
  }

  // --------------------------------------------------------------- layout

  predicate NoNewline(s: string)
  {
    '\n' !in s
  }

  /** The header is, line by line, the fixed preamble, then exactly one
      `extern Icon` declaration per entry of `icons` in the same order, then
      the registry type for the main bundle or the include of the main
      bundle's header otherwise. */
  lemma HeaderLayout(isMain: bool, icons: seq<IconRecord>)
    requires forall i :: 0 <= i < |icons| ==> NoNewline(icons[i].name)
    ensures Split(HeaderText(isMain, icons), '\n')
         == HeaderPreambleLines + ExternDecls(icons) + HeaderTailLines(isMain) + [""]
  {
    var all := HeaderPreambleLines + ExternDecls(icons) + HeaderTailLines(isMain);
    HeaderTextIsLines(isMain, icons);
    assert HeaderText(isMain, icons) + "" == Lines(all);
    HeaderLinesHaveNoNewline(isMain, icons);
    SplitLines(all, "");
  }

  lemma HeaderTextIsLines(isMain: bool, icons: seq<IconRecord>)
    ensures HeaderText(isMain, icons) == Lines(HeaderPreambleLines + ExternDecls(icons) + HeaderTailLines(isMain))
  {
    LinesAppend(HeaderPreambleLines, ExternDecls(icons));
    LinesAppend(HeaderPreambleLines + ExternDecls(icons), HeaderTailLines(isMain));
  }

  lemma HeaderLinesHaveNoNewline(isMain: bool, icons: seq<IconRecord>)
    requires forall i :: 0 <= i < |icons| ==> NoNewline(icons[i].name)
    ensures var all := HeaderPreambleLines + ExternDecls(icons) + HeaderTailLines(isMain);
            forall i :: 0 <= i < |all| ==> '\n' !in all[i]
  {
    FixedHeaderLinesHaveNoNewline(isMain);
    var decls := ExternDecls(icons);
    forall i | 0 <= i < |decls|
      ensures '\n' !in decls[i]
    {
      assert decls[i] == "extern Icon " + icons[i].name + ";";
    }
    NoNewlineInside(HeaderPreambleLines, decls);
    NoNewlineInside(HeaderPreambleLines + decls, HeaderTailLines(isMain));
  }

  lemma FixedHeaderLinesHaveNoNewline(isMain: bool)
    ensures forall k :: 0 <= k < |HeaderPreambleLines| ==> '\n' !in HeaderPreambleLines[k]
    ensures forall k :: 0 <= k < |HeaderTailLines(isMain)| ==> '\n' !in HeaderTailLines(isMain)[k]
  {
    PreambleLinesHaveNoNewline();
    if isMain {
      MainTailLinesHaveNoNewline();
    }
  }

  lemma PreambleLinesHaveNoNewline()
    ensures forall k :: 0 <= k < |HeaderPreambleLines| ==> '\n' !in HeaderPreambleLines[k]
  {
  }

  lemma MainTailLinesHaveNoNewline()
    ensures forall k :: 0 <= k < |MainHeaderTailLines| ==> '\n' !in MainHeaderTailLines[k]
  {
  }

  function RegistryLines(paths: seq<PathEntry>, isMain: bool): seq<string>
  {
    if isMain then PathsOpenLines + PathDefs(paths) + PathsCloseLines else []
  }

  /** After the frame definitions, the source is, line by line, one
      descriptor per entry of `icons` in the same order, followed for the
      main bundle only by the registry with one entry per element of
      `paths` in the same order. */
  lemma SourceLayout(assetsFilename: string, frameDefs: string, icons: seq<IconRecord>,
                     paths: seq<PathEntry>, isMain: bool)
    requires forall i :: 0 <= i < |icons| ==> NoNewline(icons[i].name)
    requires forall i :: 0 <= i < |paths| ==> NoNewline(paths[i].name) && NoNewline(paths[i].path)
    ensures var text := SourceText(assetsFilename, frameDefs, icons, paths, isMain);
            var start := |SourcePreamble(assetsFilename) + frameDefs|;
            start <= |text|
            && Split(text[start..], '\n') == IconDefs(icons) + RegistryLines(paths, isMain) + [""]
  {
    var head := SourcePreamble(assetsFilename) + frameDefs;
    var all := IconDefs(icons) + RegistryLines(paths, isMain);
    var rest := Lines(IconDefs(icons)) + (if isMain then PathsBlock(paths) else "");
    assert SourceText(assetsFilename, frameDefs, icons, paths, isMain) == head + rest;
    assert (head + rest)[|head|..] == rest;
    SourceTailIsLines(icons, paths, isMain);
    assert rest + "" == Lines(all);
    SourceLinesHaveNoNewline(icons, paths, isMain);
    SplitLines(all, "");
  }

  lemma SourceTailIsLines(icons: seq<IconRecord>, paths: seq<PathEntry>, isMain: bool)
    ensures Lines(IconDefs(icons)) + (if isMain then PathsBlock(paths) else "")
         == Lines(IconDefs(icons) + RegistryLines(paths, isMain))
  {
    LinesAppend(IconDefs(icons), RegistryLines(paths, isMain));
    if isMain {
      LinesAppend(PathsOpenLines, PathDefs(paths));
      LinesAppend(PathsOpenLines + PathDefs(paths), PathsCloseLines);
    } else {
      assert IconDefs(icons) + RegistryLines(paths, isMain) == IconDefs(icons);
    }
  }

  lemma SourceLinesHaveNoNewline(icons: seq<IconRecord>, paths: seq<PathEntry>, isMain: bool)
    requires forall i :: 0 <= i < |icons| ==> NoNewline(icons[i].name)
    requires forall i :: 0 <= i < |paths| ==> NoNewline(paths[i].name) && NoNewline(paths[i].path)
    ensures var all := IconDefs(icons) + RegistryLines(paths, isMain);
            forall i :: 0 <= i < |all| ==> '\n' !in all[i]
  {
    var defs := IconDefs(icons);
    forall i | 0 <= i < |defs|
      ensures '\n' !in defs[i]
    {
      IconDefHasNoNewline(icons[i]);
    }
    RegistryLinesHaveNoNewline(paths, isMain);
    NoNewlineInside(defs, RegistryLines(paths, isMain));
  }

  lemma RegistryLinesHaveNoNewline(paths: seq<PathEntry>, isMain: bool)
    requires forall i :: 0 <= i < |paths| ==> NoNewline(paths[i].name) && NoNewline(paths[i].path)
    ensures forall i :: 0 <= i < |RegistryLines(paths, isMain)| ==> '\n' !in RegistryLines(paths, isMain)[i]
  {
    forall i | 0 <= i < |paths|
      ensures '\n' !in PathDefs(paths)[i]
    {
    }
    FixedRegistryLinesHaveNoNewline();
    var reg := RegistryLines(paths, isMain);
    forall i | 0 <= i < |reg|
      ensures '\n' !in reg[i]
    {
      var n := |PathsOpenLines|;
      if i < n {
        assert reg[i] == PathsOpenLines[i];
      } else if i < n + |paths| {
        assert reg[i] == PathDefs(paths)[i - n];
      } else {
        assert reg[i] == PathsCloseLines[i - n - |paths|];
      }
    }
  }

  lemma FixedRegistryLinesHaveNoNewline()
    ensures forall k :: 0 <= k < |PathsOpenLines| ==> '\n' !in PathsOpenLines[k]
    ensures forall k :: 0 <= k < |PathsCloseLines| ==> '\n' !in PathsCloseLines[k]
  {
    PathsOpenLinesHaveNoNewline();
  }

  lemma PathsOpenLinesHaveNoNewline()
    ensures forall k :: 0 <= k < |PathsOpenLines| ==> '\n' !in PathsOpenLines[k]
  {
  }

  lemma IconDefHasNoNewline(icon: IconRecord)
    requires NoNewline(icon.name)
    ensures NoNewline(IconDef(icon))
  {
    DigitsHaveNoNewline(icon.width);
    DigitsHaveNoNewline(icon.height);
    DigitsHaveNoNewline(icon.frameCount);
    DigitsHaveNoNewline(icon.frameRate);
  }

  lemma DigitsHaveNoNewline(n: nat)
    ensures '\n' !in NatToString(n)
  {
  }
}
