/** Printing a block and parsing it gives back what was printed. */
module CrateMapLaws {
  import opened Wrappers
  import opened Text
  import opened CrateMap

  /** An entry the block can carry: no backtick and no line break. */
  predicate Clean(s: string) {
    s != "" && '`' !in s && OneLine(s)
  }

  predicate AllClean(names: seq<string>) {
    forall i :: 0 <= i < |names| ==> Clean(names[i])
  }

  predicate CleanModule(m: Module) {
    Clean(m.rel) && StartsWith(m.rel, "src/") && |m.rel| > 4 && AllClean(m.names)
  }

  predicate CleanInventory(inv: Inventory) {
    && (forall i :: 0 <= i < |inv.modules| ==> CleanModule(inv.modules[i]))
    && (forall i, j :: 0 <= i < j < |inv.modules| ==> inv.modules[i].rel != inv.modules[j].rel)
    && AllClean(inv.path) && AllClean(inv.external) && AllClean(inv.dev) && AllClean(inv.build) && AllClean(inv.reverse)
  }

  // ---- single lines ----

  lemma {:induction false} NoStart(line: string, prefix: string, i: nat)
    requires i < |prefix| && (i < |line| ==> line[i] != prefix[i])
    ensures !StartsWith(line, prefix)
  {
    if i < |line| && |prefix| <= |line| {
      assert line[..|prefix|][i] == line[i];
    }
  }

  lemma {:induction false} TickedOf(name: string, tail: string)
    requires name != "" && '`' !in name
    ensures Ticked(name + ['`'] + tail) == Some((name, tail))
  {
    var s := name + ['`'] + tail;
    assert s[|name|] == '`' && forall j :: 0 <= j < |name| ==> s[j] == name[j];
    var k := TickAt(s, 0);
    assert k == |name|;
    assert s[..k] == name && s[k + 1..] == tail;
  }

  lemma {:induction false} ReadExport(name: string)
    requires Clean(name)
    ensures MatchExport(ExportLine(name)) == Some(name) && MatchModule(ExportLine(name)).None?
    ensures !StartsWith(ExportLine(name), "### ") && !StartsWith(ExportLine(name), "- ")
  {
    var line := ExportLine(name);
    assert line[..5] == "  - `" && line[5..] == name + ['`'] + "";
    TickedOf(name, "");
    NoStart(line, "- [`", 0);
    NoStart(line, "### ", 0);
    NoStart(line, "- ", 0);
    hide Ticked;
  }

  lemma {:induction false} ReadBullet(name: string)
    requires Clean(name)
    ensures SearchTicked(BulletLine(name)) == Some(name)
    ensures StartsWith(BulletLine(name), "- ") && !StartsWith(BulletLine(name), "### ")
    ensures MatchModule(BulletLine(name)).None?
  {
    var line := BulletLine(name);
    assert line[..2] == "- " && line[2] == '`' && line[3..] == name + ['`'] + "";
    TickedOf(name, "");
    assert TickAt(line, 0) == 2;
    NoStart(line, "- [`", 2);
    NoStart(line, "### ", 0);
    hide Ticked;
  }

  lemma {:induction false} ReadModule(rel: string)
    requires Clean(rel) && StartsWith(rel, "src/") && |rel| > 4
    ensures MatchModule(ModuleLine(rel)) == Some(rel) && SearchTicked(ModuleLine(rel)) == Some(rel)
    ensures StartsWith(ModuleLine(rel), "- ") && !StartsWith(ModuleLine(rel), "### ")
  {
    var line := ModuleLine(rel);
    var tail := "](" + rel + ")";
    assert line[..4] == "- [`" && line[..2] == "- " && line[4..] == rel + ['`'] + tail;
    assert tail[..1] == "]";
    TickedOf(rel, tail);
    assert line[3] == '`' && forall j :: 0 <= j < 3 ==> line[j] != '`';
    assert TickAt(line, 0) == 3;
    NoStart(line, "### ", 0);
    hide Ticked;
  }

  // ---- what the patterns match, on any line ----

  /** s is name, a backtick and tail, and name is what a pattern takes between backticks. */
  ghost predicate Quotes(s: string, name: string, tail: string) {
    s == name + ['`'] + tail && name != "" && '`' !in name
  }

  lemma {:induction false} TickedIs(s: string, name: string, tail: string)
    ensures Ticked(s) == Some((name, tail)) <==> Quotes(s, name, tail)
  {
    if Quotes(s, name, tail) {
      TickedOf(name, tail);
    }
    var k := TickAt(s, 0);
    if 0 < k < |s| {
      assert s == s[..k] + ['`'] + s[k + 1..];
    }
  }

  /** A module bullet opens with a link to a quoted path below src/. */
  lemma {:induction false} MatchModuleIs(line: string, rel: string)
    ensures MatchModule(line) == Some(rel) <==>
      exists tail :: line == "- [`" + (rel + ['`'] + ("]" + tail)) && '`' !in rel && |rel| > 4 && rel[..4] == "src/"
  {
    hide Ticked;
    if MatchModule(line) == Some(rel) {
      var t := Ticked(line[4..]).value;
      TickedIs(line[4..], t.0, t.1);
      assert t.1 == "]" + t.1[1..];
      assert line == "- [`" + line[4..];
    }
    if tail :| line == "- [`" + (rel + ['`'] + ("]" + tail)) && '`' !in rel && |rel| > 4 && rel[..4] == "src/" {
      assert line[..4] == "- [`" && line[4..] == rel + ['`'] + ("]" + tail);
      assert ("]" + tail)[..1] == "]";
      TickedIs(line[4..], rel, "]" + tail);
    }
  }

  /** An export bullet is indented and opens with a quoted name. */
  lemma {:induction false} MatchExportIs(line: string, name: string)
    ensures MatchExport(line) == Some(name) <==>
      exists tail :: line == "  - `" + (name + ['`'] + tail) && name != "" && '`' !in name
  {
    hide Ticked;
    if MatchExport(line) == Some(name) {
      var t := Ticked(line[5..]).value;
      TickedIs(line[5..], t.0, t.1);
      assert line == "  - `" + line[5..];
    }
    if tail :| line == "  - `" + (name + ['`'] + tail) && name != "" && '`' !in name {
      assert line[..5] == "  - `" && line[5..] == name + ['`'] + tail;
      TickedIs(line[5..], name, tail);
    }
  }

  /** At position i of s a quoted name opens, and tail follows it. */
  ghost predicate OpensWith(s: string, i: nat, name: string, tail: string) {
    i < |s| && s[i] == '`' && Quotes(s[i + 1..], name, tail)
  }

  ghost predicate OpensAt(s: string, i: nat, name: string) {
    exists tail :: OpensWith(s, i, name, tail)
  }

  /** No quoted name opens in s before position k. */
  ghost predicate NoneBefore(s: string, k: nat) {
    forall j: nat, n :: j < k ==> !OpensAt(s, j, n)
  }

  lemma {:induction false} OpensOrNot(s: string, k: nat)
    requires k < |s| && s[k] == '`'
    ensures var t := Ticked(s[k + 1..]);
      if t.Some? then OpensAt(s, k, t.value.0) else forall n :: !OpensAt(s, k, n)
  {
    var rest := s[k + 1..];
    var t := Ticked(rest);
    hide Ticked;
    if t.Some? {
      TickedIs(rest, t.value.0, t.value.1);
      assert OpensWith(s, k, t.value.0, t.value.1);
    }
    forall n, tail | OpensWith(s, k, n, tail)
      ensures t == Some((n, tail))
    {
      TickedIs(rest, n, tail);
    }
  }

  lemma {:induction false} ShiftOpens(s: string, rest: string, k: nat, j: nat, n: string)
    requires k < j && k < |s| && rest == s[k + 1..]
    ensures OpensAt(s, j, n) <==> OpensAt(rest, j - k - 1, n)
  {
    hide Quotes;
    if j < |s| {
      assert rest[j - k - 1] == s[j] && rest[j - k..] == s[j + 1..];
    }
    var i := j - k - 1;
    if tail :| OpensWith(s, j, n, tail) {
      assert OpensWith(rest, i, n, tail);
    }
    if tail :| OpensWith(rest, i, n, tail) {
      assert OpensWith(s, j, n, tail);
    }
  }

  lemma {:induction false} NoneShifts(s: string, rest: string, k: nat, i: nat)
    requires k < |s| && rest == s[k + 1..] && NoneBefore(s, k + 1) && NoneBefore(rest, i)
    ensures NoneBefore(s, k + 1 + i)
  {
    forall j: nat, n | j < k + 1 + i
      ensures !OpensAt(s, j, n)
    {
      if j > k {
        ShiftOpens(s, rest, k, j, n);
      }
    }
  }

  lemma {:induction false} NoTickNoName(s: string, k: nat)
    requires k <= |s| && forall j :: 0 <= j < k ==> s[j] != '`'
    ensures NoneBefore(s, k)
  {
    hide Quotes;
  }

  lemma {:induction false} TickStep(s: string, k: nat)
    requires k < |s| && s[k] == '`' && NoneBefore(s, k) && Ticked(s[k + 1..]).None?
    ensures NoneBefore(s, k + 1)
  {
    OpensOrNot(s, k);
    hide OpensAt, Ticked;
  }

  lemma {:induction false} SearchStep(s: string)
    ensures var k := TickAt(s, 0);
      SearchTicked(s) == if k == |s| then None
        else if Ticked(s[k + 1..]).Some? then Some(Ticked(s[k + 1..]).value.0) else SearchTicked(s[k + 1..])
  {
    hide Ticked, TickAt;
  }

  /** The search finds the name that opens first, if any does. */
  lemma {:induction false} SearchTickedIs(s: string) returns (i: nat)
    ensures NoneBefore(s, i) && (SearchTicked(s).Some? ==> OpensAt(s, i, SearchTicked(s).value))
    ensures SearchTicked(s).None? ==> i >= |s|
    decreases |s|
  {
    hide OpensAt, Ticked, SearchTicked, NoneBefore;
    var k := TickAt(s, 0);
    NoTickNoName(s, k);
    SearchStep(s);
    i := k;
    if k < |s| {
      var rest := s[k + 1..];
      OpensOrNot(s, k);
      if Ticked(rest).None? {
        TickStep(s, k);
        var m := SearchTickedIs(rest);
        NoneShifts(s, rest, k, m);
        i := k + 1 + m;
        if SearchTicked(rest).Some? {
          ShiftOpens(s, rest, k, i, SearchTicked(rest).value);
        }
      }
    }
  }

  /** A line that is no bullet ends the module above it exactly if it is not indented by two spaces. */
  lemma {:induction false} OtherLine(s: Modules, line: string)
    requires MatchModule(line).None? && (s.rel.None? || MatchExport(line).None?)
    ensures var t := ModuleStep(s, line);
      t.out == s.out && t.rel == if |line| >= 2 && line[0] == ' ' && line[1] == ' ' then s.rel else None
  {
    hide MatchModule, MatchExport;
    assert StartsWith(line, "  ") <==> |line| >= 2 && line[0] == ' ' && line[1] == ' ';
  }

  // ---- one block in full ----

  const EXAMPLE: Inventory := Inventory([Module("src/a", ["f", "G"])], ["p"], ["q"], [], [], ["user"])

  lemma ExampleModule()
    ensures ModuleLine("src/a") == "- [`src/a`](src/a)"
  {
  }

  lemma ExampleItems()
    ensures ExportLine("f") == "  - `f`" && ExportLine("G") == "  - `G`"
    ensures BulletLine("p") == "- `p`" && BulletLine("q") == "- `q`" && BulletLine("user") == "- `user`"
  {
  }

  lemma ExampleKinds()
    ensures Kind("path") == "#### path" && Kind("external") == "#### external"
    ensures Kind("dev") == "#### dev" && Kind("build") == "#### build"
  {
  }

  lemma {:induction false} ExampleParts()
    ensures ModulePart(EXAMPLE.modules) == ["- [`src/a`](src/a)", "  - `f`", "  - `G`"]
    ensures DependencyPart(EXAMPLE) == [
      "#### path", "", "- `p`", "", "#### external", "", "- `q`", "",
      "#### dev", "", NONE, "", "#### build", "", NONE, ""]
    ensures Bullets(EXAMPLE.reverse) == ["- `user`"]
  {
    ExampleModule();
    ExampleItems();
    ExampleKinds();
    hide ModuleLine, ExportLine, BulletLine, Kind, NONE;
    assert EXAMPLE.modules[1..] == [] && ModuleLines([]) == [];
    assert ExportLines(["f", "G"]) == [ExportLine("f"), ExportLine("G")];
    assert Bullets(["p"]) == [BulletLine("p")] && Bullets(["q"]) == [BulletLine("q")];
    assert Bullets(["user"]) == [BulletLine("user")];
  }

  /** The lines printed for a small inventory. */
  lemma {:induction false} ExampleBlock()
    ensures BlockLines(EXAMPLE) == [
      BEGIN, "", NOTE, "", "### " + MODULES, "",
      "- [`src/a`](src/a)", "  - `f`", "  - `G`", "",
      "### " + DEPENDENCIES, "",
      "#### path", "", "- `p`", "", "#### external", "", "- `q`", "",
      "#### dev", "", NONE, "", "#### build", "", NONE, "",
      "### " + REVERSE, "", WORKSPACE, "", "- `user`", "", END]
  {
    ExampleParts();
    hide BEGIN, END, NOTE, WORKSPACE, MODULES, DEPENDENCIES, REVERSE, NONE;
    hide ModulePart, DependencyPart, Bullets, EXAMPLE;
  }

  // ---- sections ----

  lemma {:induction false} SectionsThen(s: Sections, a: seq<string>, b: seq<string>)
    ensures ReadSections(s, a + b) == ReadSections(ReadSections(s, a), b)
    decreases |a|
  {
    hide SectionStep;
    if a == [] {
      assert a + b == b;
    } else {
      assert (a + b)[1..] == a[1..] + b;
      SectionsThen(SectionStep(s, a[0]), a[1..], b);
    }
  }

  /** Lines that are neither a title nor an item. */
  predicate Skipped(line: string) {
    !StartsWith(line, "### ") && !StartsWith(line, "- ")
  }

  lemma {:induction false} SkipAll(s: Sections, lines: seq<string>)
    requires forall i :: 0 <= i < |lines| ==> Skipped(lines[i])
    ensures ReadSections(s, lines) == s
    decreases |lines|
  {
    hide StartsWith;
    if lines != [] {
      assert Skipped(lines[0]);
      SkipAll(s, lines[1..]);
    }
  }

  function Collected(s: Sections, names: set<string>): Sections
    requires s.section in s.out
  {
    s.(out := s.out[s.section := s.out[s.section] + names])
  }

  predicate Open(s: Sections) {
    s.section != "" && s.section in s.out
  }

  function NameSet(names: seq<string>): set<string> {
    set n | n in names
  }

  lemma {:induction false} NameSetMore(names: seq<string>)
    requires names != []
    ensures NameSet(names) == {names[0]} + NameSet(names[1..])
  {
    assert names == [names[0]] + names[1..];
  }

  lemma {:induction false} CollectedTwice(s: Sections, a: set<string>, b: set<string>)
    requires Open(s)
    ensures Collected(Collected(s, a), b) == Collected(s, a + b)
    ensures Collected(s, {}) == s
  {
    assert s.out[s.section] + a + b == s.out[s.section] + (a + b);
    assert s.out[s.section] + {} == s.out[s.section];
  }

  /** Item lines add the names they carry. */
  lemma {:induction false} ReadItems(s: Sections, lines: seq<string>, names: seq<string>)
    requires Open(s) && |lines| == |names|
    requires forall i :: 0 <= i < |lines| ==> IsItem(lines[i], names[i])
    ensures ReadSections(s, lines) == Collected(s, NameSet(names))
    decreases |lines|
  {
    if lines == [] {
      assert NameSet(names) == {};
      CollectedTwice(s, {}, {});
    } else {
      ItemStep(s, lines[0], names[0]);
      var t := Collected(s, {names[0]});
      ReadItems(t, lines[1..], names[1..]);
      NameSetMore(names);
      CollectedTwice(s, {names[0]}, NameSet(names[1..]));
      hide IsItem, Collected, NameSet, SectionStep;
    }
  }

  predicate IsItem(line: string, name: string) {
    StartsWith(line, "- ") && !StartsWith(line, "### ") && SearchTicked(line) == Some(name)
  }

  lemma ItemStep(s: Sections, line: string, name: string)
    requires Open(s) && IsItem(line, name)
    ensures SectionStep(s, line) == Collected(s, {name}) && Open(Collected(s, {name}))
  {
    hide StartsWith, SearchTicked;
  }

  lemma {:induction false} ReadBullets(s: Sections, names: seq<string>)
    requires Open(s) && AllClean(names)
    ensures ReadSections(s, Bullets(names)) == Collected(s, NameSet(names))
  {
    if names == [] {
      NoneSkipped();
      SkipAll(s, Bullets(names));
      CollectedTwice(s, {}, {});
      assert NameSet(names) == {};
    } else {
      forall i | 0 <= i < |names|
        ensures IsItem(Bullets(names)[i], names[i])
      {
        ReadBullet(names[i]);
      }
      hide IsItem, Collected, NameSet;
      ReadItems(s, Bullets(names), names);
    }
  }

  lemma NoneSkipped()
    ensures Skipped(NONE) && Skipped("")
  {
    NoStart(NONE, "### ", 0);
    NoStart(NONE, "- ", 0);
  }

  lemma {:induction false} KindSkipped(kind: string)
    ensures Skipped(Kind(kind))
  {
    NoStart(Kind(kind), "### ", 3);
    NoStart(Kind(kind), "- ", 0);
  }

  lemma {:induction false} ReadKind(s: Sections, kind: string, names: seq<string>)
    requires Open(s) && AllClean(names)
    ensures ReadSections(s, KindLines(kind, names)) == Collected(s, NameSet(names))
  {
    KindSkipped(kind);
    NoneSkipped();
    hide Skipped, Kind, Collected, NameSet, Clean, SectionStep;
    SkipAll(s, [Kind(kind), ""]);
    SectionsThen(s, [Kind(kind), ""], Bullets(names));
    ReadBullets(s, names);
    SectionsThen(s, [Kind(kind), ""] + Bullets(names), [""]);
    SkipAll(Collected(s, NameSet(names)), [""]);
  }

  function Dependencies(inv: Inventory): set<string> {
    NameSet(inv.path) + NameSet(inv.external) + NameSet(inv.dev) + NameSet(inv.build)
  }

  lemma OpenStays(s: Sections, names: set<string>)
    requires Open(s)
    ensures Open(Collected(s, names))
  {
  }

  lemma {:induction false} ReadKinds(s: Sections, inv: Inventory)
    requires Open(s) && AllClean(inv.path) && AllClean(inv.external) && AllClean(inv.dev) && AllClean(inv.build)
    ensures ReadSections(s, DependencyPart(inv)) == Collected(s, Dependencies(inv))
  {
    hide KindLines, Collected, NameSet, AllClean, SectionStep, ReadSections;
    var a, b, c, d := NameSet(inv.path), NameSet(inv.external), NameSet(inv.dev), NameSet(inv.build);
    OpenStays(s, a);
    OpenStays(s, a + b);
    OpenStays(s, a + b + c);
    ReadKind(s, "path", inv.path);
    ReadKind(Collected(s, a), "external", inv.external);
    CollectedTwice(s, a, b);
    ReadKind(Collected(s, a + b), "dev", inv.dev);
    CollectedTwice(s, a + b, c);
    ReadKind(Collected(s, a + b + c), "build", inv.build);
    CollectedTwice(s, a + b + c, d);
    var p, q, r, t := KindLines("path", inv.path), KindLines("external", inv.external), KindLines("dev", inv.dev),
      KindLines("build", inv.build);
    SectionsThen(s, p, q);
    SectionsThen(s, p + q, r);
    SectionsThen(s, p + q + r, t);
  }

  function Rels(modules: seq<Module>): set<string> {
    set i | 0 <= i < |modules| :: modules[i].rel
  }

  lemma {:induction false} RelsMore(modules: seq<Module>)
    requires modules != []
    ensures Rels(modules) == {modules[0].rel} + Rels(modules[1..])
  {
    var rest := modules[1..];
    forall r | r in Rels(modules)
      ensures r in {modules[0].rel} + Rels(rest)
    {
      var i :| 0 <= i < |modules| && modules[i].rel == r;
      if i > 0 {
        assert rest[i - 1].rel == r;
      }
    }
    forall r | r in Rels(rest)
      ensures r in Rels(modules)
    {
      var i :| 0 <= i < |rest| && rest[i].rel == r;
      assert modules[i + 1].rel == r;
    }
  }

  lemma {:induction false} ExportsSkipped(s: Sections, names: seq<string>)
    requires AllClean(names)
    ensures ReadSections(s, ExportLines(names)) == s
  {
    forall i | 0 <= i < |names|
      ensures Skipped(ExportLines(names)[i])
    {
      ReadExport(names[i]);
    }
    hide Skipped;
    SkipAll(s, ExportLines(names));
  }

  lemma {:induction false} ReadOneModule(s: Sections, m: Module)
    requires Open(s) && CleanModule(m)
    ensures ReadSections(s, [ModuleLine(m.rel)] + ExportLines(m.names)) == Collected(s, {m.rel})
  {
    ReadModule(m.rel);
    ReadItems(s, [ModuleLine(m.rel)], [m.rel]);
    assert NameSet([m.rel]) == {m.rel};
    hide Clean, Collected, NameSet, SectionStep, ReadSections, ModuleLine;
    SectionsThen(s, [ModuleLine(m.rel)], ExportLines(m.names));
    ExportsSkipped(Collected(s, {m.rel}), m.names);
  }

  lemma {:induction false} ReadModuleLines(s: Sections, modules: seq<Module>)
    requires Open(s) && forall i :: 0 <= i < |modules| ==> CleanModule(modules[i])
    ensures ReadSections(s, ModuleLines(modules)) == Collected(s, Rels(modules))
    decreases |modules|
  {
    if modules == [] {
      assert Rels(modules) == {};
      CollectedTwice(s, {}, {});
    } else {
      var m := modules[0];
      var first := [ModuleLine(m.rel)] + ExportLines(m.names);
      ReadOneModule(s, m);
      RelsMore(modules);
      OpenStays(s, {m.rel});
      CollectedTwice(s, {m.rel}, Rels(modules[1..]));
      hide CleanModule, Collected, SectionStep, ReadSections, ModuleLine, Rels, Open;
      ReadModuleLines(Collected(s, {m.rel}), modules[1..]);
      SectionsThen(s, first, ModuleLines(modules[1..]));
    }
  }

  lemma {:induction false} ReadModulePart(s: Sections, modules: seq<Module>)
    requires Open(s) && forall i :: 0 <= i < |modules| ==> CleanModule(modules[i])
    ensures ReadSections(s, ModulePart(modules)) == Collected(s, Rels(modules))
  {
    if modules == [] {
      NoneSkipped();
      SkipAll(s, [NONE]);
      assert Rels(modules) == {};
      CollectedTwice(s, {}, {});
    } else {
      hide CleanModule, Collected, ReadSections, Rels;
      ReadModuleLines(s, modules);
    }
  }

  // ---- the whole block, by sections ----

  lemma {:induction false} TitleStep(s: Sections, section: string)
    ensures SectionStep(s, Title(section)) == Sections(section, s.out[section := {}])
  {
    assert Title(section)[..4] == "### " && Title(section)[4..] == section;
  }

  lemma {:induction false} ReadTitled(s: Sections, section: string, rest: seq<string>)
    requires forall i :: 0 <= i < |rest| ==> Skipped(rest[i])
    ensures ReadSections(s, [Title(section)] + rest) == Sections(section, s.out[section := {}])
  {
    TitleStep(s, section);
    hide Skipped, Title, SectionStep;
    SkipAll(Sections(section, s.out[section := {}]), rest);
    assert ([Title(section)] + rest)[1..] == rest;
  }

  lemma FixedSkipped()
    ensures Skipped(BEGIN) && Skipped(NOTE) && Skipped(WORKSPACE) && Skipped(END)
  {
    NoStart(BEGIN, "### ", 0);
    NoStart(BEGIN, "- ", 0);
    NoStart(NOTE, "### ", 0);
    NoStart(NOTE, "- ", 0);
    NoStart(WORKSPACE, "### ", 0);
    NoStart(WORKSPACE, "- ", 0);
    NoStart(END, "### ", 0);
    NoStart(END, "- ", 0);
  }

  lemma TitlesDiffer()
    ensures MODULES != "" && DEPENDENCIES != "" && REVERSE != ""
    ensures MODULES != DEPENDENCIES && MODULES != REVERSE && DEPENDENCIES != REVERSE
  {
    assert |MODULES| == 28 && |DEPENDENCIES| == 32 && |REVERSE| == 20;
  }

  /** What a section reader makes of the block. */
  function Printed(inv: Inventory): map<string, set<string>> {
    map[MODULES := Rels(inv.modules), DEPENDENCIES := Dependencies(inv), REVERSE := NameSet(inv.reverse)]
  }

  lemma {:induction false} ModuleSection(inv: Inventory, lines: seq<string>)
    requires CleanInventory(inv)
    requires lines == [BEGIN, "", NOTE, ""] + ([Title(MODULES)] + [""]) + ModulePart(inv.modules) + [""]
    ensures ReadSections(Sections("", map[]), lines) == Sections(MODULES, map[MODULES := Rels(inv.modules)])
  {
    NoneSkipped();
    FixedSkipped();
    TitlesDiffer();
    var s0, t1, begun := Sections("", map[]), [Title(MODULES)] + [""], Sections(MODULES, map[MODULES := {}]);
    hide Skipped, Title, SectionStep, ModulePart, Rels, BEGIN, NOTE, MODULES, ReadSections;
    SkipAll(s0, [BEGIN, "", NOTE, ""]);
    SectionsThen(s0, [BEGIN, "", NOTE, ""], t1);
    ReadTitled(s0, MODULES, [""]);
    SectionsThen(s0, [BEGIN, "", NOTE, ""] + t1, ModulePart(inv.modules));
    ReadModulePart(begun, inv.modules);
    SectionsThen(s0, [BEGIN, "", NOTE, ""] + t1 + ModulePart(inv.modules), [""]);
    SkipAll(Collected(begun, Rels(inv.modules)), [""]);
    assert {} + Rels(inv.modules) == Rels(inv.modules);
  }

  lemma {:induction false} DependencySection(s: Sections, inv: Inventory)
    requires CleanInventory(inv)
    ensures ReadSections(s, ([Title(DEPENDENCIES)] + [""]) + DependencyPart(inv))
      == Sections(DEPENDENCIES, s.out[DEPENDENCIES := Dependencies(inv)])
  {
    NoneSkipped();
    TitlesDiffer();
    var t, begun := [Title(DEPENDENCIES)] + [""], Sections(DEPENDENCIES, s.out[DEPENDENCIES := {}]);
    hide Skipped, Title, SectionStep, DependencyPart, Dependencies, DEPENDENCIES, ReadSections;
    ReadTitled(s, DEPENDENCIES, [""]);
    SectionsThen(s, t, DependencyPart(inv));
    ReadKinds(begun, inv);
    assert {} + Dependencies(inv) == Dependencies(inv);
  }

  lemma {:induction false} ReverseSection(s: Sections, inv: Inventory)
    requires CleanInventory(inv)
    ensures ReadSections(s, ([Title(REVERSE)] + ["", WORKSPACE, ""]) + Bullets(inv.reverse) + ["", END])
      == Sections(REVERSE, s.out[REVERSE := NameSet(inv.reverse)])
  {
    NoneSkipped();
    FixedSkipped();
    TitlesDiffer();
    var t, begun := [Title(REVERSE)] + ["", WORKSPACE, ""], Sections(REVERSE, s.out[REVERSE := {}]);
    hide Skipped, Title, SectionStep, NameSet, Bullets, REVERSE, WORKSPACE, END, ReadSections;
    ReadTitled(s, REVERSE, ["", WORKSPACE, ""]);
    SectionsThen(s, t, Bullets(inv.reverse));
    ReadBullets(begun, inv.reverse);
    SectionsThen(s, t + Bullets(inv.reverse), ["", END]);
    SkipAll(Collected(begun, NameSet(inv.reverse)), ["", END]);
    assert {} + NameSet(inv.reverse) == NameSet(inv.reverse);
  }

  lemma {:induction false} ThreeReads(s: Sections, a: seq<string>, b: seq<string>, c: seq<string>)
    ensures ReadSections(s, a + b + c) == ReadSections(ReadSections(ReadSections(s, a), b), c)
  {
    hide ReadSections;
    SectionsThen(s, a + b, c);
    SectionsThen(s, a, b);
  }

  lemma {:induction false} BlockInThree(inv: Inventory) returns (a: seq<string>, b: seq<string>, c: seq<string>)
    ensures BlockLines(inv) == a + b + c
    ensures a == [BEGIN, "", NOTE, ""] + ([Title(MODULES)] + [""]) + ModulePart(inv.modules) + [""]
    ensures b == ([Title(DEPENDENCIES)] + [""]) + DependencyPart(inv)
    ensures c == ([Title(REVERSE)] + ["", WORKSPACE, ""]) + Bullets(inv.reverse) + ["", END]
  {
    hide ModulePart, DependencyPart, Bullets, Title, BEGIN, END, NOTE, MODULES, DEPENDENCIES, REVERSE, WORKSPACE;
    a := [BEGIN, "", NOTE, ""] + ([Title(MODULES)] + [""]) + ModulePart(inv.modules) + [""];
    b := ([Title(DEPENDENCIES)] + [""]) + DependencyPart(inv);
    c := ([Title(REVERSE)] + ["", WORKSPACE, ""]) + Bullets(inv.reverse) + ["", END];
  }

  lemma {:induction false} SectionsRead(inv: Inventory)
    requires CleanInventory(inv)
    ensures ReadSections(Sections("", map[]), BlockLines(inv)).out == Printed(inv)
  {
    TitlesDiffer();
    hide CleanInventory, ReadSections, BlockLines, Title, ModulePart, DependencyPart, Bullets, Rels, Dependencies;
    hide NameSet, MODULES, DEPENDENCIES, REVERSE;
    var a, b, c := BlockInThree(inv);
    var s0 := Sections("", map[]);
    ThreeReads(s0, a, b, c);
    ModuleSection(inv, a);
    var s1 := ReadSections(s0, a);
    DependencySection(s1, inv);
    ReverseSection(ReadSections(s1, b), inv);
  }

  // ---- the whole block, by modules ----

  lemma {:induction false} ModulesThen(s: Modules, a: seq<string>, b: seq<string>)
    ensures ReadModules(s, a + b) == ReadModules(ReadModules(s, a), b)
    decreases |a|
  {
    hide ModuleStep;
    if a == [] {
      assert a + b == b;
    } else {
      assert (a + b)[1..] == a[1..] + b;
      ModulesThen(ModuleStep(s, a[0]), a[1..], b);
    }
  }

  /** Outside a module only a module bullet matters. */
  lemma {:induction false} IgnoreAll(s: Modules, lines: seq<string>)
    requires s.rel.None? && forall i :: 0 <= i < |lines| ==> MatchModule(lines[i]).None?
    ensures ReadModules(s, lines) == s
    decreases |lines|
  {
    hide MatchModule, MatchExport, StartsWith;
    if lines != [] {
      assert ModuleStep(s, lines[0]) == s;
      IgnoreAll(s, lines[1..]);
    }
  }

  predicate Inside(s: Modules) {
    s.rel.Some? && s.rel.value in s.out
  }

  function Extended(s: Modules, names: set<string>): Modules
    requires Inside(s)
  {
    s.(out := s.out[s.rel.value := s.out[s.rel.value] + names])
  }

  predicate IsExport(line: string, name: string) {
    MatchModule(line).None? && MatchExport(line) == Some(name)
  }

  lemma {:induction false} ExtendedTwice(s: Modules, a: set<string>, b: set<string>)
    requires Inside(s)
    ensures Inside(Extended(s, a)) && Extended(Extended(s, a), b) == Extended(s, a + b) && Extended(s, {}) == s
  {
    var was := s.out[s.rel.value];
    assert was + a + b == was + (a + b) && was + {} == was;
  }

  lemma ExportStep(s: Modules, line: string, name: string)
    requires Inside(s) && IsExport(line, name)
    ensures ModuleStep(s, line) == Extended(s, {name})
  {
    hide MatchModule, MatchExport, StartsWith;
  }

  lemma {:induction false} ReadExports(s: Modules, lines: seq<string>, names: seq<string>)
    requires Inside(s) && |lines| == |names| && forall i :: 0 <= i < |lines| ==> IsExport(lines[i], names[i])
    ensures ReadModules(s, lines) == Extended(s, NameSet(names))
    decreases |lines|
  {
    if lines == [] {
      assert NameSet(names) == {};
      ExtendedTwice(s, {}, {});
    } else {
      ExportStep(s, lines[0], names[0]);
      NameSetMore(names);
      ExtendedTwice(s, {names[0]}, NameSet(names[1..]));
      ReadExports(Extended(s, {names[0]}), lines[1..], names[1..]);
      hide IsExport, Extended, NameSet, ModuleStep;
    }
  }

  lemma {:induction false} ReadWholeModule(s: Modules, m: Module)
    requires CleanModule(m)
    ensures ReadModules(s, [ModuleLine(m.rel)] + ExportLines(m.names))
      == Modules(Some(m.rel), s.out[m.rel := NameSet(m.names)])
  {
    ReadModule(m.rel);
    forall i | 0 <= i < |m.names|
      ensures IsExport(ExportLines(m.names)[i], m.names[i])
    {
      ReadExport(m.names[i]);
    }
    var begun := Modules(Some(m.rel), s.out[m.rel := {}]);
    hide MatchModule, MatchExport, StartsWith, NameSet, ModuleLine, Clean;
    ReadExports(begun, ExportLines(m.names), m.names);
    assert {} + NameSet(m.names) == NameSet(m.names);
    assert ([ModuleLine(m.rel)] + ExportLines(m.names))[1..] == ExportLines(m.names);
  }

  /** The table the module bullets describe. */
  function Exports(out: map<string, set<string>>, modules: seq<Module>): map<string, set<string>>
    decreases |modules|
  {
    if modules == [] then out else Exports(out[modules[0].rel := NameSet(modules[0].names)], modules[1..])
  }

  lemma {:induction false} ReadAllModules(s: Modules, modules: seq<Module>)
    requires forall i :: 0 <= i < |modules| ==> CleanModule(modules[i])
    ensures ReadModules(s, ModuleLines(modules)).out == Exports(s.out, modules)
    decreases |modules|
  {
    if modules != [] {
      var m := modules[0];
      ReadWholeModule(s, m);
      hide CleanModule, ModuleLine, NameSet, ReadModules;
      ReadAllModules(Modules(Some(m.rel), s.out[m.rel := NameSet(m.names)]), modules[1..]);
      ModulesThen(s, [ModuleLine(m.rel)] + ExportLines(m.names), ModuleLines(modules[1..]));
    }
  }

  /** With distinct paths the table has exactly each module with its exports. */
  lemma {:induction false} ExportsExact(out: map<string, set<string>>, modules: seq<Module>)
    requires forall i, j :: 0 <= i < j < |modules| ==> modules[i].rel != modules[j].rel
    ensures Exports(out, modules).Keys == out.Keys + Rels(modules)
    ensures forall i :: 0 <= i < |modules| ==> Exports(out, modules)[modules[i].rel] == NameSet(modules[i].names)
    ensures forall k :: k in out && k !in Rels(modules) ==> Exports(out, modules)[k] == out[k]
    decreases |modules|
  {
    if modules != [] {
      var m, rest := modules[0], modules[1..];
      var out' := out[m.rel := NameSet(m.names)];
      assert forall i :: 0 <= i < |rest| ==> rest[i] == modules[i + 1];
      ExportsExact(out', rest);
      RelsMore(modules);
      assert m.rel !in Rels(rest);
      hide Rels, NameSet;
      assert Exports(out, modules) == Exports(out', rest);
      forall i | 0 <= i < |modules|
        ensures Exports(out, modules)[modules[i].rel] == NameSet(modules[i].names)
      {
        if i > 0 {
          assert modules[i] == rest[i - 1];
        }
      }
    }
  }

  // ---- lines no module bullet hides in ----

  lemma {:induction false} NotModule(line: string)
    requires line == "" || line[0] != '-'
    ensures MatchModule(line).None?
  {
    NoStart(line, "- [`", 0);
  }

  lemma FixedNotModules(section: string, kind: string)
    ensures MatchModule(BEGIN).None? && MatchModule(NOTE).None? && MatchModule(WORKSPACE).None?
      && MatchModule(END).None?
    ensures MatchModule(NONE).None? && MatchModule("").None? && MatchModule(Title(section)).None?
      && MatchModule(Kind(kind)).None?
  {
    NotModule(BEGIN);
    NotModule(NOTE);
    NotModule(WORKSPACE);
    NotModule(END);
    NotModule(NONE);
    NotModule("");
    NotModule(Title(section));
    NotModule(Kind(kind));
  }

  ghost predicate NoModules(lines: seq<string>) {
    forall i :: 0 <= i < |lines| ==> MatchModule(lines[i]).None?
  }

  lemma {:induction false} BulletsNoModules(names: seq<string>)
    requires AllClean(names)
    ensures NoModules(Bullets(names))
  {
    FixedNotModules("", "");
    forall i | 0 <= i < |names|
      ensures MatchModule(Bullets(names)[i]).None?
    {
      ReadBullet(names[i]);
    }
    hide MatchModule;
  }

  lemma {:induction false} NoModulesThen(a: seq<string>, b: seq<string>)
    requires NoModules(a) && NoModules(b)
    ensures NoModules(a + b)
  {
    hide MatchModule;
  }

  lemma {:induction false} KindNoModules(kind: string, names: seq<string>)
    requires AllClean(names)
    ensures NoModules(KindLines(kind, names))
  {
    FixedNotModules("", kind);
    BulletsNoModules(names);
    hide MatchModule, Kind, Bullets, Clean;
    NoModulesThen([Kind(kind), ""], Bullets(names));
    NoModulesThen([Kind(kind), ""] + Bullets(names), [""]);
  }

  lemma {:induction false} KindsNoModules(inv: Inventory)
    requires CleanInventory(inv)
    ensures NoModules(DependencyPart(inv))
  {
    hide NoModules, KindLines, Clean;
    var p, q, r, t := KindLines("path", inv.path), KindLines("external", inv.external), KindLines("dev", inv.dev),
      KindLines("build", inv.build);
    KindNoModules("path", inv.path);
    KindNoModules("external", inv.external);
    KindNoModules("dev", inv.dev);
    KindNoModules("build", inv.build);
    NoModulesThen(p, q);
    NoModulesThen(p + q, r);
    NoModulesThen(p + q + r, t);
  }

  lemma {:induction false} RestNoModules(inv: Inventory, b: seq<string>, c: seq<string>)
    requires CleanInventory(inv)
    requires b == ([Title(DEPENDENCIES)] + [""]) + DependencyPart(inv)
    requires c == ([Title(REVERSE)] + ["", WORKSPACE, ""]) + Bullets(inv.reverse) + ["", END]
    ensures NoModules(b + c)
  {
    hide MatchModule, Title, Bullets, DependencyPart, WORKSPACE, END, DEPENDENCIES, REVERSE, Clean;
    FixedNotModules(DEPENDENCIES, "");
    FixedNotModules(REVERSE, "");
    var t, u, v := [Title(DEPENDENCIES)] + [""], [Title(REVERSE)] + ["", WORKSPACE, ""], ["", END];
    assert NoModules(t) && NoModules(u) && NoModules(v);
    hide NoModules;
    KindsNoModules(inv);
    BulletsNoModules(inv.reverse);
    NoModulesThen(t, DependencyPart(inv));
    NoModulesThen(u, Bullets(inv.reverse));
    NoModulesThen(u + Bullets(inv.reverse), v);
    NoModulesThen(b, c);
  }

  lemma {:induction false} PartRead(s: Modules, modules: seq<Module>)
    requires s.rel.None? && forall i :: 0 <= i < |modules| ==> CleanModule(modules[i])
    ensures ReadModules(s, ModulePart(modules)).out == Exports(s.out, modules)
  {
    if modules == [] {
      FixedNotModules("", "");
      hide MatchModule, NONE;
      IgnoreAll(s, [NONE]);
    } else {
      hide CleanModule, ReadModules, ModuleLines;
      ReadAllModules(s, modules);
    }
  }

  lemma {:induction false} FrontRead(inv: Inventory, a: seq<string>)
    requires CleanInventory(inv)
    requires a == [BEGIN, "", NOTE, ""] + ([Title(MODULES)] + [""]) + ModulePart(inv.modules) + [""]
    ensures ReadModules(Modules(None, map[]), a) == Modules(None, Exports(map[], inv.modules))
  {
    FixedNotModules(MODULES, "");
    var head := [BEGIN, "", NOTE, ""] + ([Title(MODULES)] + [""]);
    var s0 := Modules(None, map[]);
    hide Title, MatchModule, BEGIN, NOTE, MODULES, ModulePart, Exports, ReadModules, CleanModule;
    IgnoreAll(s0, head);
    PartRead(s0, inv.modules);
    ModulesThen(s0, head, ModulePart(inv.modules));
    ModulesThen(s0, head + ModulePart(inv.modules), [""]);
    BlankCloses(ReadModules(s0, head + ModulePart(inv.modules)));
  }

  lemma BlankCloses(s: Modules)
    ensures ReadModules(s, [""]) == s.(rel := None)
  {
    NotModule("");
    NoStart("", "  - `", 0);
    NoStart("", "  ", 0);
    hide MatchModule, StartsWith;
    assert [""][1..] == [];
  }

  /** Parsing the lines of a block gives the modules with their exports. */
  lemma {:induction false} ModulesRead(inv: Inventory)
    requires CleanInventory(inv)
    ensures ReadModules(Modules(None, map[]), BlockLines(inv)).out == Exports(map[], inv.modules)
  {
    hide CleanInventory, BlockLines, Title, ModulePart, DependencyPart, Bullets, MatchModule, Exports, ReadModules;
    var a, b, c := BlockInThree(inv);
    RestNoModules(inv, b, c);
    FrontRead(inv, a);
    ModulesThen(Modules(None, map[]), a, b + c);
    IgnoreAll(Modules(None, Exports(map[], inv.modules)), b + c);
    assert a + (b + c) == a + b + c;
  }
}
