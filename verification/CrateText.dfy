/** The text of a generated block: its lines split as they were joined, and its end marker occurs
    only at its end, so that regenerating a map file settles. */
module CrateText {
  import opened Wrappers
  import opened Text
  import opened CrateMap
  import opened CrateMapLaws
  import opened CrateSplice

  /** A line that stays one line and holds no end marker. */
  ghost predicate Fit(line: string) {
    OneLine(line) && !Contains(line, END)
  }

  ghost predicate AllFit(lines: seq<string>) {
    forall i :: 0 <= i < |lines| ==> Fit(lines[i])
  }

  // ---- fixed text ----

  /** Printable and without the character every marker starts with. */
  predicate Tame(s: string) {
    forall i :: 0 <= i < |s| ==> (' ' <= s[i] <= '~' || s[i] == '—') && s[i] != '<'
  }

  lemma EndFacts()
    ensures |END| == 32 && END[0] == '<' && Ascii(END)
    ensures '`' !in END && '\n' !in END && '(' !in END && ')' !in END
  {
  }

  predicate Ascii(s: string) {
    forall i :: 0 <= i < |s| ==> ' ' <= s[i] <= '~'
  }

  lemma BeginFacts()
    ensures |BEGIN| == 34 && Ascii(BEGIN)
  {
  }

  lemma TameChar(c: char)
    requires ' ' <= c <= '~' || c == '—'
    ensures !IsBreak(c)
  {
  }

  lemma {:induction false} TameFits(s: string)
    requires Tame(s)
    ensures Fit(s)
  {
    EndFacts();
    hide END;
    forall i | 0 <= i < |s|
      ensures !IsBreak(s[i])
    {
      TameChar(s[i]);
    }
    hide IsBreak;
    AbsentWithout(s, END, '<');
  }

  lemma {:induction false} TameThen(a: string, b: string)
    requires Tame(a) && Tame(b)
    ensures Tame(a + b)
  {
  }

  lemma NoteTame()
    ensures Tame(NOTE)
  {
    assert Tame(NOTE_HEAD);
    NoteTailTame();
    hide NOTE_HEAD, NOTE_TAIL;
    TameThen(NOTE_HEAD, NOTE_TAIL);
  }

  lemma NoteTailTame()
    ensures Tame(NOTE_TAIL)
  {
  }

  lemma WorkspaceTame()
    ensures Tame(WORKSPACE) && Tame(NONE) && Tame("")
  {
  }

  lemma TitlesTame()
    ensures Tame(MODULES) && Tame(DEPENDENCIES)
  {
  }

  lemma ReverseTame()
    ensures Tame(REVERSE) && Tame("### ") && Tame("#### ")
  {
  }

  lemma KindsTame()
    ensures Tame("path") && Tame("external") && Tame("dev") && Tame("build")
  {
  }

  lemma {:induction false} BeginFits()
    ensures Fit(BEGIN)
  {
    EndFacts();
    BeginFacts();
    assert END[25] == 'e' && BEGIN[25] == 'b' && BEGIN[1] == '!' && BEGIN[2] == '-';
    hide BEGIN, END;
    forall i | 0 <= i < 34
      ensures !IsBreak(BEGIN[i])
    {
      TameChar(BEGIN[i]);
    }
    hide IsBreak;
    forall i | 0 <= i
      ensures !At(BEGIN, END, i)
    {
      if i <= 2 {
        NotAt(BEGIN, END, i, if i == 0 then 25 else 0);
      }
    }
  }

  lemma {:induction false} TitleFits(section: string)
    requires Tame(section)
    ensures Fit(Title(section))
  {
    ReverseTame();
    TameThen("### ", section);
    TameFits(Title(section));
  }

  lemma {:induction false} KindFits(kind: string)
    requires Tame(kind)
    ensures Fit(Kind(kind))
  {
    ReverseTame();
    TameThen("#### ", kind);
    TameFits(Kind(kind));
  }

  // ---- lines with entries ----

  lemma {:induction false} FitAcross(a: string, c: char, b: string)
    requires Fit(a) && Fit(b) && c !in END && !IsBreak(c)
    ensures Fit(a + [c] + b)
  {
    hide END, IsBreak, Contains;
    AbsentAcross(a, c, b, END);
  }

  lemma Separators()
    ensures '`' !in END && '(' !in END && ')' !in END && !IsBreak('`') && !IsBreak('(') && !IsBreak(')')
    ensures Tame("- ") && Tame("  - ") && Tame("- [") && Tame("]") && Tame("")
  {
    EndFacts();
  }

  lemma {:induction false} ItemFits(name: string)
    requires Fit(name)
    ensures Fit(BulletLine(name)) && Fit(ExportLine(name))
  {
    Separators();
    hide END, IsBreak;
    TameFits("- ");
    TameFits("  - ");
    TameFits("");
    hide Fit;
    FitAcross(name, '`', "");
    FitAcross("- ", '`', name + ['`'] + "");
    FitAcross("  - ", '`', name + ['`'] + "");
    assert BulletLine(name) == "- " + ['`'] + (name + ['`'] + "");
    assert ExportLine(name) == "  - " + ['`'] + (name + ['`'] + "");
  }

  lemma {:induction false} ModuleFits(rel: string)
    requires Fit(rel)
    ensures Fit(ModuleLine(rel))
  {
    Separators();
    hide END, IsBreak;
    TameFits("- [");
    TameFits("]");
    TameFits("");
    hide Fit;
    var call := rel + [')'] + "";
    FitAcross(rel, ')', "");
    FitAcross("]", '(', call);
    var tail := "]" + ['('] + call;
    FitAcross(rel, '`', tail);
    FitAcross("- [", '`', rel + ['`'] + tail);
    assert ModuleLine(rel) == "- [" + ['`'] + (rel + ['`'] + tail);
  }

  /** No entry holds the end marker. */
  ghost predicate Unmarked(inv: Inventory) {
    && (forall i :: 0 <= i < |inv.modules| ==> Fit(inv.modules[i].rel) && AllFit(inv.modules[i].names))
    && AllFit(inv.path) && AllFit(inv.external) && AllFit(inv.dev) && AllFit(inv.build) && AllFit(inv.reverse)
  }

  // ---- all lines ----

  lemma {:induction false} FitThen(a: seq<string>, b: seq<string>)
    requires AllFit(a) && AllFit(b)
    ensures AllFit(a + b)
  {
    hide Fit;
  }

  lemma {:induction false} BulletsFit(names: seq<string>)
    requires AllFit(names)
    ensures AllFit(Bullets(names))
  {
    WorkspaceTame();
    TameFits(NONE);
    hide Fit, BulletLine, NONE;
    forall i | 0 <= i < |names|
      ensures Fit(BulletLine(names[i]))
    {
      ItemFits(names[i]);
    }
  }

  lemma {:induction false} ExportsFit(names: seq<string>)
    requires AllFit(names)
    ensures AllFit(ExportLines(names))
  {
    hide Fit, ExportLine;
    forall i | 0 <= i < |names|
      ensures Fit(ExportLine(names[i]))
    {
      ItemFits(names[i]);
    }
  }

  lemma {:induction false} ModuleLinesFit(modules: seq<Module>)
    requires forall i :: 0 <= i < |modules| ==> Fit(modules[i].rel) && AllFit(modules[i].names)
    ensures AllFit(ModuleLines(modules))
    decreases |modules|
  {
    hide Fit, ModuleLine, ExportLines;
    if modules != [] {
      var m := modules[0];
      ModuleFits(m.rel);
      ExportsFit(m.names);
      ModuleLinesFit(modules[1..]);
      FitThen([ModuleLine(m.rel)], ExportLines(m.names));
      FitThen([ModuleLine(m.rel)] + ExportLines(m.names), ModuleLines(modules[1..]));
    }
  }

  lemma {:induction false} KindLinesFit(kind: string, names: seq<string>)
    requires Tame(kind) && AllFit(names)
    ensures AllFit(KindLines(kind, names))
  {
    KindFits(kind);
    BulletsFit(names);
    WorkspaceTame();
    TameFits("");
    hide Fit, Kind, Bullets;
    FitThen([Kind(kind), ""], Bullets(names));
    FitThen([Kind(kind), ""] + Bullets(names), [""]);
  }

  lemma {:induction false} DependenciesFit(inv: Inventory)
    requires Unmarked(inv)
    ensures AllFit(DependencyPart(inv))
  {
    hide Fit, KindLines, AllFit;
    KindsTame();
    KindLinesFit("path", inv.path);
    KindLinesFit("external", inv.external);
    KindLinesFit("dev", inv.dev);
    KindLinesFit("build", inv.build);
    FitThen(KindLines("path", inv.path), KindLines("external", inv.external));
    FitThen(KindLines("path", inv.path) + KindLines("external", inv.external), KindLines("dev", inv.dev));
    FitThen(KindLines("path", inv.path) + KindLines("external", inv.external) + KindLines("dev", inv.dev),
      KindLines("build", inv.build));
  }

  lemma {:induction false} ModulePartFits(inv: Inventory)
    requires Unmarked(inv)
    ensures AllFit(ModulePart(inv.modules))
  {
    WorkspaceTame();
    TameFits(NONE);
    hide Fit, NONE;
    ModuleLinesFit(inv.modules);
  }

  lemma FixedFit()
    ensures Fit(BEGIN) && Fit("") && Fit(NOTE) && Fit(WORKSPACE) && Fit(Title(MODULES)) && Fit(Title(DEPENDENCIES))
      && Fit(Title(REVERSE))
  {
    hide BEGIN, END, NOTE, WORKSPACE, MODULES, DEPENDENCIES, REVERSE, Fit, Title, Tame, NONE;
    BeginFits();
    NoteTame();
    WorkspaceTame();
    TitlesTame();
    ReverseTame();
    TameFits("");
    TameFits(NOTE);
    TameFits(WORKSPACE);
    TitleFits(MODULES);
    TitleFits(DEPENDENCIES);
    TitleFits(REVERSE);
  }

  /** The block's lines but for the last, which is the end marker. */
  function Front(inv: Inventory): seq<string> {
    [BEGIN, "", NOTE, "", Title(MODULES), ""] + ModulePart(inv.modules)
    + ["", Title(DEPENDENCIES), ""] + DependencyPart(inv)
    + [Title(REVERSE), "", WORKSPACE, ""] + Bullets(inv.reverse) + [""]
  }

  lemma {:induction false} FrontFits(inv: Inventory)
    requires Unmarked(inv)
    ensures AllFit(Front(inv)) && BlockLines(inv) == Front(inv) + [END]
  {
    hide BEGIN, END, NOTE, WORKSPACE, MODULES, DEPENDENCIES, REVERSE, Fit, Title, NONE, ModulePart, DependencyPart;
    hide Bullets;
    FixedFit();
    ModulePartFits(inv);
    DependenciesFit(inv);
    BulletsFit(inv.reverse);
    var a := [BEGIN, "", NOTE, "", Title(MODULES), ""];
    var b := ["", Title(DEPENDENCIES), ""];
    var c := [Title(REVERSE), "", WORKSPACE, ""];
    FitThen(a, ModulePart(inv.modules));
    FitThen(a + ModulePart(inv.modules), b);
    FitThen(a + ModulePart(inv.modules) + b, DependencyPart(inv));
    FitThen(a + ModulePart(inv.modules) + b + DependencyPart(inv), c);
    FitThen(a + ModulePart(inv.modules) + b + DependencyPart(inv) + c, Bullets(inv.reverse));
    FitThen(a + ModulePart(inv.modules) + b + DependencyPart(inv) + c + Bullets(inv.reverse), [""]);
  }

  // ---- the theorems ----

  lemma {:induction false} JoinLast(lines: seq<string>, last: string)
    requires lines != []
    ensures Join(lines + [last]) == Join(lines) + ['\n'] + last
    decreases |lines|
  {
    var all := lines + [last];
    if |lines| == 1 {
      assert all[1..] == [last] && all[0] == lines[0];
    } else {
      assert all[1..] == lines[1..] + [last];
      JoinLast(lines[1..], last);
    }
  }

  lemma {:induction false} JoinStart(lines: seq<string>)
    requires lines != []
    ensures At(Join(lines), lines[0], 0) && |lines[0]| <= |Join(lines)|
  {
  }

  lemma EndIsFit()
    ensures OneLine(END) && END != "" && |END| == 32 && |BEGIN| == 34 && '\n' !in END
  {
    EndFacts();
    BeginFacts();
    hide BEGIN, END;
    forall i | 0 <= i < 32
      ensures !IsBreak(END[i])
    {
      TameChar(END[i]);
    }
  }

  /** The block's text splits into the lines it was made of. */
  lemma {:induction false} BlockSplits(inv: Inventory)
    requires Unmarked(inv)
    ensures Lines(Join(BlockLines(inv))) == BlockLines(inv)
  {
    FrontFits(inv);
    EndIsFit();
    hide Unmarked, Front, BlockLines, END, Contains, OneLine, Lines, Join;
    LinesOfJoin(Front(inv) + [END]);
  }

  /** What a tree's entries must satisfy for its block to be readable. */
  ghost predicate Printable(inv: Inventory) {
    CleanInventory(inv) && Unmarked(inv)
  }

  /** Printing and parsing: the section reader gets back exactly the module paths, all dependencies
      and the reverse dependencies, and the module reader exactly each module's exports. */
  lemma {:induction false} BlockRoundTrip(inv: Inventory)
    requires Printable(inv)
    ensures var lines := Lines(Join(BlockLines(inv)));
      && ReadSections(Sections("", map[]), lines).out == Printed(inv)
      && var out := ReadModules(Modules(None, map[]), lines).out;
      && out.Keys == Rels(inv.modules)
      && forall i :: 0 <= i < |inv.modules| ==> out[inv.modules[i].rel] == NameSet(inv.modules[i].names)
  {
    BlockSplits(inv);
    SectionsRead(inv);
    ModulesRead(inv);
    ExportsExact(map[], inv.modules);
    hide BlockLines, Lines, Join, ReadSections, ReadModules, Printed, Rels, NameSet, Exports;
  }

  lemma {:induction false} LastIsOnly(front: string, end: string)
    requires '\n' !in end && end != "" && !Contains(front, end)
    ensures forall j :: 0 <= j < |front| + 1 ==> !At(front + ['\n'] + end, end, j)
  {
    forall j | 0 <= j < |front| + 1
      ensures !At(front + ['\n'] + end, end, j)
    {
      if At(front + ['\n'] + end, end, j) {
        NotAcross(front, '\n', end, end, j);
      }
    }
  }

  lemma {:induction false} ClosesWith(front: string, end: string)
    ensures At(front + ['\n'] + end, end, |front| + 1)
  {
    assert (front + ['\n'] + end)[|front| + 1..|front| + 1 + |end|] == end;
  }

  lemma {:induction false} OpensWith(front: string, end: string, begin: string)
    requires At(front, begin, 0)
    ensures At(front + ['\n'] + end, begin, 0)
  {
    assert (front + ['\n'] + end)[0..|begin|] == front[0..|begin|];
  }

  /** A generated block opens with one marker and closes with the only other. */
  lemma {:induction false} GeneratedIsBlock(inv: Inventory)
    requires Unmarked(inv)
    ensures IsBlock(Join(BlockLines(inv)), Markers(BEGIN, END)) && Usable(Markers(BEGIN, END))
  {
    FrontFits(inv);
    EndIsFit();
    assert Front(inv)[0] == BEGIN by {
      hide BEGIN, ModulePart, DependencyPart, Bullets;
    }
    hide Unmarked, Front, BlockLines, BEGIN, END, Contains, OneLine, At, Join;
    var front := Join(Front(inv));
    JoinLast(Front(inv), END);
    JoinStart(Front(inv));
    AbsentFromJoin(Front(inv), END);
    LastIsOnly(front, END);
    ClosesWith(front, END);
    OpensWith(front, END, BEGIN);
  }

  /** Refreshing a map file whose markers are in order keeps everything outside them, settles in one
      run, and leaves the block the check compares equal; with the markers the other way round it
      does neither of the last two. */
  lemma {:induction false} RefreshSettles(text: string, inv: Inventory, b: nat, e: nat)
    requires Unmarked(inv) && Pieces(text, Markers(BEGIN, END), b, e)
    ensures var block, m := Join(BlockLines(inv)), Markers(BEGIN, END);
      var made := Regenerate(text, block, m);
      && e + |END| <= |text| && made == Some(text[..b] + block + text[e + |END|..])
      && (Regenerate(made.value, block, m) == made <==> b <= e)
      && (UpToDate(made.value, block, m) <==> b <= e)
  {
    hide Unmarked, BlockLines, BEGIN, END, Join, Regenerate, UpToDate, CrateSplice.Pieces, IsBlock;
    GeneratedIsBlock(inv);
    MarkerBounds(text, Join(BlockLines(inv)), Markers(BEGIN, END), b, e);
    IdempotentExactly(text, Join(BlockLines(inv)), Markers(BEGIN, END), b, e);
  }

  lemma MarkerStarts()
    ensures |BEGIN| == 34 && |END| == 32 && BEGIN[0] == '<' && END[25] != BEGIN[25]
    ensures forall i :: 1 <= i < |END| ==> END[i] != '<'
  {
  }

  /** A map file with its markers the wrong way round, which no run repairs. */
  lemma {:induction false} MisorderedMap(inv: Inventory, n: nat)
    requires Unmarked(inv)
    ensures Pieces(END + BEGIN, Markers(BEGIN, END), 32, 0)
    ensures var block, m := Join(BlockLines(inv)), Markers(BEGIN, END);
      var t, u := Repeated(END + BEGIN, block, m, n), Repeated(END + BEGIN, block, m, n + 1);
      t.Some? && u.Some? && |u.value| > |t.value| && !UpToDate(t.value, block, m)
  {
    hide Unmarked, BlockLines, Join;
    MarkerStarts();
    hide BEGIN, END;
    Misordered(BEGIN, END);
    GeneratedIsBlock(inv);
    hide At, Find, UpToDate, IsBlock, Regenerate, CrateSplice.Pieces;
    GrowsForever(END + BEGIN, Join(BlockLines(inv)), Markers(BEGIN, END), 32, 0, n);
  }

  lemma {:induction false} Misordered(begin: string, end: string)
    requires |begin| == 34 && |end| == 32 && begin[0] == '<' && end[25] != begin[25]
    requires forall i :: 1 <= i < |end| ==> end[i] != '<'
    ensures Pieces(end + begin, Markers(begin, end), 32, 0)
  {
    var text := end + begin;
    assert text[0..0 + 32] == end && text[32..32 + 34] == begin;
    FindFirst(text, end, 0);
    forall j | 0 <= j < 32
      ensures !At(text, begin, j)
    {
      NotAt(text, begin, j, if j == 0 then 25 else 0);
    }
    FindFirst(text, begin, 32);
  }
}
