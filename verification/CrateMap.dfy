/** The generated block of a crate map: the printer and the two line parsers of
    scripts/check-crate-maps.py, which read each other. */
module CrateMap {
  import opened Wrappers
  import opened Text

  datatype Module = Module(rel: string, names: seq<string>)

  datatype Inventory = Inventory(
    modules: seq<Module>,
    path: seq<string>, external: seq<string>, dev: seq<string>, build: seq<string>,
    reverse: seq<string>)

  const BEGIN := "<!-- crate-map:" + "generated:begin -->"
  const END := "<!-- crate-map:" + "generated:end -->"
  const NOTE_HEAD := "_Generated by " + "`" + "scripts/" + "check-crate-maps.py" + "`"
  const NOTE_TAIL := " from the tree — " + "do not edit " + "inside the markers._"
  const NOTE := NOTE_HEAD + NOTE_TAIL
  const MODULES := "Modules and exported symbols"
  const DEPENDENCIES := "Dependencies (from `Cargo.toml`)"
  const REVERSE := "Reverse dependencies"
  const WORKSPACE := "Workspace crates " + "with a path dependency " + "on this crate:"
  const NONE := "—"

  // ---- the printer ----

  function ExportLine(name: string): string {
    "  - `" + name + "`"
  }

  function BulletLine(name: string): string {
    "- `" + name + "`"
  }

  function ModuleLine(rel: string): string {
    "- [`" + rel + "`](" + rel + ")"
  }

  function Title(section: string): string {
    "### " + section
  }

  function Kind(name: string): string {
    "#### " + name
  }

  function ExportLines(names: seq<string>): (r: seq<string>)
    ensures |r| == |names| && forall i :: 0 <= i < |r| ==> r[i] == ExportLine(names[i])
  {
    seq(|names|, i requires 0 <= i < |names| => ExportLine(names[i]))
  }

  function ModuleLines(modules: seq<Module>): seq<string> {
    if modules == [] then []
    else [ModuleLine(modules[0].rel)] + ExportLines(modules[0].names) + ModuleLines(modules[1..])
  }

  function Bullets(names: seq<string>): (r: seq<string>)
    ensures names == [] ==> r == [NONE]
    ensures names != [] ==> |r| == |names| && forall i :: 0 <= i < |r| ==> r[i] == BulletLine(names[i])
  {
    if names == [] then [NONE] else seq(|names|, i requires 0 <= i < |names| => BulletLine(names[i]))
  }

  function KindLines(kind: string, names: seq<string>): seq<string> {
    [Kind(kind), ""] + Bullets(names) + [""]
  }

  function ModulePart(modules: seq<Module>): seq<string> {
    if modules == [] then [NONE] else ModuleLines(modules)
  }

  function DependencyPart(inv: Inventory): seq<string> {
    KindLines("path", inv.path) + KindLines("external", inv.external) + KindLines("dev", inv.dev)
    + KindLines("build", inv.build)
  }

  function BlockLines(inv: Inventory): seq<string> {
    [BEGIN, "", NOTE, "", Title(MODULES), ""] + ModulePart(inv.modules)
    + ["", Title(DEPENDENCIES), ""] + DependencyPart(inv)
    + [Title(REVERSE), "", WORKSPACE, ""] + Bullets(inv.reverse) + ["", END]
  }

  // ---- the matches ----

  predicate StartsWith(line: string, prefix: string) {
    |prefix| <= |line| && line[..|prefix|] == prefix
  }

  /** The first backtick at or after i. */
  function TickAt(s: string, i: nat): (k: nat)
    requires i <= |s|
    ensures i <= k <= |s| && (k < |s| ==> s[k] == '`') && forall j :: i <= j < k ==> s[j] != '`'
    decreases |s| - i
  {
    if i == |s| || s[i] == '`' then i else TickAt(s, i + 1)
  }

  /** What matches ([^`]+)` at the start of s, and what follows. */
  function Ticked(s: string): Option<(string, string)> {
    var k := TickAt(s, 0);
    if 0 < k < |s| then Some((s[..k], s[k + 1..])) else None
  }

  /** re.match of a module bullet: its path. */
  function MatchModule(line: string): Option<string> {
    if !StartsWith(line, "- [`") then None
    else
      var t := Ticked(line[4..]);
      if t.Some? && StartsWith(t.value.0, "src/") && |t.value.0| > 4 && StartsWith(t.value.1, "]") then
        Some(t.value.0) else None
  }

  /** re.match of an export bullet: its name. */
  function MatchExport(line: string): Option<string> {
    if !StartsWith(line, "  - `") then None
    else
      var t := Ticked(line[5..]);
      if t.Some? then Some(t.value.0) else None
  }

  /** re.search of the first non-empty text between backticks. */
  function SearchTicked(s: string): Option<string>
    decreases |s|
  {
    var k := TickAt(s, 0);
    if k == |s| then None
    else
      var t := Ticked(s[k + 1..]);
      if t.Some? then Some(t.value.0) else SearchTicked(s[k + 1..])
  }

  // ---- the parsers ----

  datatype Sections = Sections(section: string, out: map<string, set<string>>)

  function SectionStep(s: Sections, line: string): Sections {
    if StartsWith(line, "### ") then Sections(line[4..], s.out[line[4..] := {}])
    else if s.section != "" && s.section in s.out && StartsWith(line, "- ") then
      var name := SearchTicked(line);
      if name.Some? then s.(out := s.out[s.section := s.out[s.section] + {name.value}]) else s
    else s
  }

  function ReadSections(s: Sections, lines: seq<string>): Sections
    decreases |lines|
  {
    if lines == [] then s else ReadSections(SectionStep(s, lines[0]), lines[1..])
  }

  datatype Modules = Modules(rel: Option<string>, out: map<string, set<string>>)

  function ModuleStep(s: Modules, line: string): Modules {
    var m := MatchModule(line);
    if m.Some? then Modules(m, s.out[m.value := {}])
    else
      var n := MatchExport(line);
      if s.rel.Some? && s.rel.value in s.out && n.Some? then
        s.(out := s.out[s.rel.value := s.out[s.rel.value] + {n.value}])
      else if !StartsWith(line, "  ") then s.(rel := None)
      else s
  }

  function ReadModules(s: Modules, lines: seq<string>): Modules
    decreases |lines|
  {
    if lines == [] then s else ReadModules(ModuleStep(s, lines[0]), lines[1..])
  }

  /** parse_block_sections. */
  method ParseBlockSections(block: string) returns (out: map<string, set<string>>)
    ensures out == ReadSections(Sections("", map[]), Lines(block)).out
  {
    hide SectionStep;
    var lines := Lines(block);
    var s := Sections("", map[]);
    for i := 0 to |lines|
      invariant ReadSections(s, lines[i..]) == ReadSections(Sections("", map[]), lines)
    {
      s := SectionStep(s, lines[i]);
    }
    out := s.out;
  }

  /** parse_block_modules. */
  method ParseBlockModules(block: string) returns (out: map<string, set<string>>)
    ensures out == ReadModules(Modules(None, map[]), Lines(block)).out
  {
    hide ModuleStep;
    var lines := Lines(block);
    var s := Modules(None, map[]);
    for i := 0 to |lines|
      invariant ReadModules(s, lines[i..]) == ReadModules(Modules(None, map[]), lines)
    {
      s := ModuleStep(s, lines[i]);
    }
    out := s.out;
  }

  /** generated_block: the lines are collected in order and joined. */
  method GeneratedBlock(inv: Inventory) returns (block: string)
    ensures block == Join(BlockLines(inv))
  {
    hide BEGIN, END, NOTE, MODULES, DEPENDENCIES, REVERSE, WORKSPACE, NONE;
    hide Title, Join, DependencyPart, Bullets;
    var lines := [BEGIN, "", NOTE, "", Title(MODULES), ""];
    ghost var head := lines;
    var part := PrintModules(inv.modules);
    lines := lines + part;
    if inv.modules == [] {
      lines := lines + [NONE];
    }
    assert lines == head + ModulePart(inv.modules);
    lines := lines + ["", Title(DEPENDENCIES), ""];
    lines := lines + DependencyPart(inv);
    lines := lines + [Title(REVERSE), "", WORKSPACE, ""];
    lines := lines + Bullets(inv.reverse);
    lines := lines + ["", END];
    block := Join(lines);
  }

  method PrintModules(modules: seq<Module>) returns (lines: seq<string>)
    ensures lines == ModuleLines(modules)
  {
    hide ModuleLine, ExportLines, ModuleLines;
    lines := [];
    assert [] + ModuleLines(modules[0..]) == ModuleLines(modules) by { assert modules[0..] == modules; }
    for i := 0 to |modules|
      invariant lines + ModuleLines(modules[i..]) == ModuleLines(modules)
    {
      ModuleLinesStep(lines, modules, i);
      lines := lines + [ModuleLine(modules[i].rel)];
      lines := lines + ExportLines(modules[i].names);
    }
    NoModuleLines(lines, modules);
  }

  lemma {:induction false} ModuleLinesStep(lines: seq<string>, modules: seq<Module>, i: nat)
    requires i < |modules|
    ensures lines + ModuleLines(modules[i..])
         == lines + [ModuleLine(modules[i].rel)] + ExportLines(modules[i].names) + ModuleLines(modules[i + 1..])
  {
    hide ModuleLine, ExportLines;
    assert modules[i..][0] == modules[i] && modules[i..][1..] == modules[i + 1..];
  }

  lemma {:induction false} NoModuleLines(lines: seq<string>, modules: seq<Module>)
    ensures lines + ModuleLines(modules[|modules|..]) == lines
  {
    assert modules[|modules|..] == [];
  }
}
