/** The byte-budget allocator of scripts/astrea.py: which tensors a policy promotes. */
module Policy {
  import opened Wrappers

  // ---- runtime anchors ----

  predicate EndsWith(s: string, suffix: string) {
    |suffix| <= |s| && s[|s| - |suffix|..] == suffix
  }

  predicate BundlesEnabled(baseFormat: string, promotionFormat: string) {
    baseFormat in {"mq2", "mq3", "mq4", "mq6", "mfp4"} && promotionFormat in {"q8", "f16"}
  }

  const Q_PROJ := ".self_attn.q_proj.weight"
  const QKV_PROJ := ".linear_attn.in_proj_qkv.weight"
  const GATE_PROJ := ".mlp.gate_proj.weight"

  /** Dependent suffixes with the suffix of the tensor that must be promoted with them. */
  const REPLACEMENTS: seq<(string, string)> := [
    (".self_attn.k_proj.weight", Q_PROJ),
    (".self_attn.v_proj.weight", Q_PROJ),
    (".linear_attn.in_proj_z.weight", QKV_PROJ),
    (".linear_attn.in_proj_a.weight", QKV_PROJ),
    (".linear_attn.in_proj_b.weight", QKV_PROJ),
    (".mlp.up_proj.weight", GATE_PROJ)]

  function FirstReplacement(name: string, rules: seq<(string, string)>): (a: Option<string>) {
    if rules == [] then None
    else if EndsWith(name, rules[0].0) then Some(name[..|name| - |rules[0].0|] + rules[0].1)
    else FirstReplacement(name, rules[1..])
  }

  function Anchor(name: string, baseFormat: string, promotionFormat: string): (a: Option<string>) {
    if BundlesEnabled(baseFormat, promotionFormat) then FirstReplacement(name, REPLACEMENTS) else None
  }

  /** The characters 8 and 13 from the end tell every dependent suffix from every anchor suffix. */
  predicate LooksDependent(s: string) {
    |s| >= 13 && (s[|s| - 8] in {'z', 'a', 'b'} || (s[|s| - 8] == 'j' && s[|s| - 13] in {'k', 'v', 'p'}))
  }

  lemma RulesSeparate(i: nat)
    requires i < |REPLACEMENTS|
    ensures LooksDependent(REPLACEMENTS[i].0) && |REPLACEMENTS[i].1| >= 13 && !LooksDependent(REPLACEMENTS[i].1)
  {
  }

  lemma {:induction false} SuffixLooks(s: string, suffix: string)
    requires EndsWith(s, suffix) && |suffix| >= 13
    ensures |suffix| <= |s| && (LooksDependent(s) <==> LooksDependent(suffix))
  {
    var t := s[|s| - |suffix|..];
    assert t[|t| - 8] == s[|s| - 8] && t[|t| - 13] == s[|s| - 13];
  }

  lemma {:induction false} NoReplacement(s: string, k: nat)
    requires k <= |REPLACEMENTS| && !LooksDependent(s)
    ensures FirstReplacement(s, REPLACEMENTS[k..]) == None
    decreases |REPLACEMENTS| - k
  {
    hide LooksDependent, EndsWith;
    if k < |REPLACEMENTS| {
      RulesSeparate(k);
      assert REPLACEMENTS[k..][0] == REPLACEMENTS[k] && REPLACEMENTS[k..][1..] == REPLACEMENTS[k + 1..];
      if EndsWith(s, REPLACEMENTS[k].0) {
        DependentLong(REPLACEMENTS[k].0);
        SuffixLooks(s, REPLACEMENTS[k].0);
      }
      NoReplacement(s, k + 1);
    }
  }

  lemma DependentLong(s: string)
    requires LooksDependent(s)
    ensures |s| >= 13
  {
  }

  lemma {:induction false} ReplacementShape(s: string, k: nat)
    requires k <= |REPLACEMENTS| && FirstReplacement(s, REPLACEMENTS[k..]).Some?
    ensures LooksDependent(s) && !LooksDependent(FirstReplacement(s, REPLACEMENTS[k..]).value)
    decreases |REPLACEMENTS| - k
  {
    hide LooksDependent, EndsWith;
    if k < |REPLACEMENTS| {
      RulesSeparate(k);
      assert REPLACEMENTS[k..][0] == REPLACEMENTS[k] && REPLACEMENTS[k..][1..] == REPLACEMENTS[k + 1..];
      var rule := REPLACEMENTS[k];
      if EndsWith(s, rule.0) {
        DependentLong(rule.0);
        SuffixLooks(s, rule.0);
        AppendEnds(s[..|s| - |rule.0|], rule.1);
        SuffixLooks(s[..|s| - |rule.0|] + rule.1, rule.1);
      } else {
        ReplacementShape(s, k + 1);
      }
    }
  }

  lemma AppendEnds(a: string, b: string)
    ensures EndsWith(a + b, b)
  {
  }

  /** An anchor needs no anchor of its own, so bundles never chain. */
  lemma {:induction false} AnchorNeedsNone(name: string, baseFormat: string, promotionFormat: string)
    requires Anchor(name, baseFormat, promotionFormat).Some?
    ensures var a := Anchor(name, baseFormat, promotionFormat).value;
      a != name && Anchor(a, baseFormat, promotionFormat) == None
  {
    hide LooksDependent;
    assert REPLACEMENTS[0..] == REPLACEMENTS;
    ReplacementShape(name, 0);
    NoReplacement(Anchor(name, baseFormat, promotionFormat).value, 0);
  }

  /** name and a are one prefix followed by these two suffixes. */
  ghost predicate Swaps(name: string, a: string, prefix: string, from: string, to: string) {
    name == prefix + from && a == prefix + to
  }

  /** What tells the six dependent suffixes apart. */
  function Mark(s: string): (char, char)
    requires |s| >= 13
  {
    (s[|s| - 8], if s[|s| - 8] == 'j' then s[|s| - 13] else ' ')
  }

  lemma MarksDiffer(i: nat, j: nat)
    requires i < j < |REPLACEMENTS|
    ensures |REPLACEMENTS[i].0| >= 13 && |REPLACEMENTS[j].0| >= 13
    ensures Mark(REPLACEMENTS[i].0) != Mark(REPLACEMENTS[j].0)
  {
  }

  lemma {:induction false} SuffixMark(s: string, suffix: string)
    requires EndsWith(s, suffix) && |suffix| >= 13
    ensures |s| >= 13 && Mark(s) == Mark(suffix)
  {
    var t := s[|s| - |suffix|..];
    assert t[|t| - 8] == s[|s| - 8] && t[|t| - 13] == s[|s| - 13];
  }

  lemma {:induction false} RuleApplies(name: string, prefix: string, k: nat, i: nat)
    requires k < |REPLACEMENTS| && i <= k && name == prefix + REPLACEMENTS[k].0
    ensures FirstReplacement(name, REPLACEMENTS[i..]) == Some(prefix + REPLACEMENTS[k].1)
    decreases k - i
  {
    hide EndsWith, Mark;
    assert REPLACEMENTS[i..][0] == REPLACEMENTS[i] && REPLACEMENTS[i..][1..] == REPLACEMENTS[i + 1..];
    AppendEnds(prefix, REPLACEMENTS[k].0);
    if i < k {
      MarksDiffer(i, k);
      SuffixMark(name, REPLACEMENTS[k].0);
      if EndsWith(name, REPLACEMENTS[i].0) {
        SuffixMark(name, REPLACEMENTS[i].0);
      }
      RuleApplies(name, prefix, k, i + 1);
    } else {
      assert name[..|name| - |REPLACEMENTS[k].0|] == prefix;
    }
  }

  lemma {:induction false} RuleFound(name: string, a: string, i: nat) returns (k: nat, prefix: string)
    requires i <= |REPLACEMENTS| && FirstReplacement(name, REPLACEMENTS[i..]) == Some(a)
    ensures k < |REPLACEMENTS| && Swaps(name, a, prefix, REPLACEMENTS[k].0, REPLACEMENTS[k].1)
    decreases |REPLACEMENTS| - i
  {
    assert i < |REPLACEMENTS|;
    assert REPLACEMENTS[i..][0] == REPLACEMENTS[i] && REPLACEMENTS[i..][1..] == REPLACEMENTS[i + 1..];
    if EndsWith(name, REPLACEMENTS[i].0) {
      k, prefix := i, name[..|name| - |REPLACEMENTS[i].0|];
    } else {
      k, prefix := RuleFound(name, a, i + 1);
    }
  }

  /** The anchor of a name, in full: one of six suffixes after any prefix, under the rotated base formats and
      the two promotion formats, gives that prefix with the suffix's anchor; every other name has none. */
  lemma {:induction false} AnchorExactly(name: string, a: string, baseFormat: string, promotionFormat: string)
    ensures Anchor(name, baseFormat, promotionFormat) == Some(a) <==>
      && baseFormat in {"mq2", "mq3", "mq4", "mq6", "mfp4"} && promotionFormat in {"q8", "f16"}
      && exists prefix ::
           || Swaps(name, a, prefix, ".self_attn.k_proj.weight", ".self_attn.q_proj.weight")
           || Swaps(name, a, prefix, ".self_attn.v_proj.weight", ".self_attn.q_proj.weight")
           || Swaps(name, a, prefix, ".linear_attn.in_proj_z.weight", ".linear_attn.in_proj_qkv.weight")
           || Swaps(name, a, prefix, ".linear_attn.in_proj_a.weight", ".linear_attn.in_proj_qkv.weight")
           || Swaps(name, a, prefix, ".linear_attn.in_proj_b.weight", ".linear_attn.in_proj_qkv.weight")
           || Swaps(name, a, prefix, ".mlp.up_proj.weight", ".mlp.gate_proj.weight")
  {
    assert REPLACEMENTS[0..] == REPLACEMENTS;
    hide FirstReplacement, EndsWith;
    if Anchor(name, baseFormat, promotionFormat) == Some(a) {
      var k, prefix := RuleFound(name, a, 0);
      RuleIs(name, a, prefix, k);
    }
    forall prefix, k: nat | k < |REPLACEMENTS| && Swaps(name, a, prefix, REPLACEMENTS[k].0, REPLACEMENTS[k].1)
      ensures FirstReplacement(name, REPLACEMENTS) == Some(a)
    {
      RuleApplies(name, prefix, k, 0);
    }
    assert REPLACEMENTS[0] == (".self_attn.k_proj.weight", ".self_attn.q_proj.weight");
    assert REPLACEMENTS[1] == (".self_attn.v_proj.weight", ".self_attn.q_proj.weight");
    assert REPLACEMENTS[2] == (".linear_attn.in_proj_z.weight", ".linear_attn.in_proj_qkv.weight");
    assert REPLACEMENTS[3] == (".linear_attn.in_proj_a.weight", ".linear_attn.in_proj_qkv.weight");
    assert REPLACEMENTS[4] == (".linear_attn.in_proj_b.weight", ".linear_attn.in_proj_qkv.weight");
    assert REPLACEMENTS[5] == (".mlp.up_proj.weight", ".mlp.gate_proj.weight");
  }

  lemma RuleIs(name: string, a: string, prefix: string, k: nat)
    requires k < |REPLACEMENTS| && Swaps(name, a, prefix, REPLACEMENTS[k].0, REPLACEMENTS[k].1)
    ensures
      || Swaps(name, a, prefix, ".self_attn.k_proj.weight", ".self_attn.q_proj.weight")
      || Swaps(name, a, prefix, ".self_attn.v_proj.weight", ".self_attn.q_proj.weight")
      || Swaps(name, a, prefix, ".linear_attn.in_proj_z.weight", ".linear_attn.in_proj_qkv.weight")
      || Swaps(name, a, prefix, ".linear_attn.in_proj_a.weight", ".linear_attn.in_proj_qkv.weight")
      || Swaps(name, a, prefix, ".linear_attn.in_proj_b.weight", ".linear_attn.in_proj_qkv.weight")
      || Swaps(name, a, prefix, ".mlp.up_proj.weight", ".mlp.gate_proj.weight")
  {
    hide Swaps;
  }

  // ---- candidates and picks ----

  /** A candidate tensor with the bytes its promotion would add. */
  datatype Item = Item(name: string, alias: string, extra: nat)

  datatype Role = Plain | AnchorFor(trigger: string) | NeedsAnchor(anchor: string)

  datatype Pick = Pick(item: Item, role: Role)

  datatype Reason = AnchorMissing(anchor: string) | OverBudget(bundleExtra: nat)

  datatype Skip = Skip(item: Item, reason: Reason)

  /** What stays fixed during a run of the allocator. */
  datatype Context = Context(candidates: seq<Item>, baseFormat: string, promotionFormat: string)

  datatype State = State(selected: seq<Pick>, skipped: seq<Skip>, remaining: nat)

  function Names(picks: seq<Pick>): (ns: set<string>) {
    set i | 0 <= i < |picks| :: picks[i].item.name
  }

  function SumExtra(picks: seq<Pick>): (n: nat) {
    if picks == [] then 0 else SumExtra(picks[..|picks| - 1]) + picks[|picks| - 1].item.extra
  }

  function AnchorOf(c: Context, name: string): (a: Option<string>) {
    Anchor(name, c.baseFormat, c.promotionFormat)
  }

  /** The candidate with this name, if there is one. */
  function Find(items: seq<Item>, name: string): (i: Option<Item>)
    ensures i.Some? ==> i.value in items && i.value.name == name
    ensures i.None? ==> forall x :: x in items ==> x.name != name
  {
    if items == [] then None
    else if items[|items| - 1].name == name then Some(items[|items| - 1])
    else Find(items[..|items| - 1], name)
  }

  /** The tensors that must be taken together with item, given what is already selected. */
  function Bundle(c: Context, names: set<string>, item: Item): (b: Option<seq<Pick>>)
  {
    match AnchorOf(c, item.name)
    case None => Some([Pick(item, Plain)])
    case Some(a) =>
      if a in names then Some([Pick(item, NeedsAnchor(a))]) else
        match Find(c.candidates, a)
        case None => None
        case Some(x) => Some([Pick(x, AnchorFor(item.name)), Pick(item, NeedsAnchor(a))])
  }

  /** Picks whose names are not selected yet and not repeated. */
  function Fresh(picks: seq<Pick>, names: set<string>): (r: seq<Pick>) {
    if picks == [] then []
    else if picks[0].item.name in names then Fresh(picks[1..], names)
    else [picks[0]] + Fresh(picks[1..], names + {picks[0].item.name})
  }

  /** One iteration of the allocator. */
  function Step(c: Context, st: State, item: Item): (r: State)
  {
    if item.name in Names(st.selected) then st else
      match Bundle(c, Names(st.selected), item)
      case None => st.(skipped := st.skipped + [Skip(item, AnchorMissing(AnchorName(c, item)))])
      case Some(bundle) =>
        var picks := Fresh(bundle, Names(st.selected));
        if SumExtra(picks) <= st.remaining
        then State(st.selected + picks, st.skipped, st.remaining - SumExtra(picks))
        else st.(skipped := st.skipped + [Skip(item, OverBudget(SumExtra(picks)))])
  }

  function AnchorName(c: Context, item: Item): string {
    match AnchorOf(c, item.name)
    case None => ""
    case Some(a) => a
  }

  /** The allocator after the first n candidates. */
  function Run(c: Context, budget: nat, n: nat): (st: State)
    requires n <= |c.candidates|
  {
    if n == 0 then State([], [], budget) else Step(c, Run(c, budget, n - 1), c.candidates[n - 1])
  }

  /** The inner loop that drops repeated names, and the bundle's size. */
  method Unique(bundle: seq<Pick>, selectedNames: set<string>) returns (unique: seq<Pick>, extra: nat)
    ensures unique == Fresh(bundle, selectedNames) && extra == SumExtra(unique)
  {
    unique, extra := [], 0;
    var seen := selectedNames;
    for i := 0 to |bundle|
      invariant unique + Fresh(bundle[i..], seen) == Fresh(bundle, selectedNames)
      invariant extra == SumExtra(unique)
    {
      var p := bundle[i];
      assert bundle[i..][0] == p && bundle[i..][1..] == bundle[i + 1..];
      if p.item.name !in seen {
        assert (unique + [p])[..|unique|] == unique;
        assert unique + ([p] + Fresh(bundle[i + 1..], seen + {p.item.name})) == (unique + [p])
          + Fresh(bundle[i + 1..], seen + {p.item.name});
        unique := unique + [p];
        extra := extra + p.item.extra;
        seen := seen + {p.item.name};
      }
    }
  }

  method SelectWithinBudget(c: Context, budget: nat) returns (st: State)
    ensures st == Run(c, budget, |c.candidates|)
  {
    var selected: seq<Pick>, skipped: seq<Skip>, remaining: nat := [], [], budget;
    var selectedNames: set<string> := {};
    var k := 0;
    while k < |c.candidates|
      invariant 0 <= k <= |c.candidates|
      invariant State(selected, skipped, remaining) == Run(c, budget, k)
      invariant selectedNames == Names(selected)
    {
      hide Bundle, Fresh, SumExtra;
      var item := c.candidates[k];
      k := k + 1;
      if item.name !in selectedNames {
        var bundle := Bundle(c, selectedNames, item);
        if bundle.None? {
          skipped := skipped + [Skip(item, AnchorMissing(AnchorName(c, item)))];
        } else {
          var picks, extra := Unique(bundle.value, selectedNames);
          if extra <= remaining {
            NamesAppend(selected, picks);
            selected := selected + picks;
            selectedNames := selectedNames + Names(picks);
            remaining := remaining - extra;
          } else {
            skipped := skipped + [Skip(item, OverBudget(extra))];
          }
        }
      }
    }
    st := State(selected, skipped, remaining);
  }

  lemma NamesAppend(a: seq<Pick>, b: seq<Pick>)
    ensures Names(a + b) == Names(a) + Names(b)
  {
    forall x | x in Names(a) + Names(b)
      ensures x in Names(a + b)
    {
      if x in Names(a) {
        var i :| 0 <= i < |a| && a[i].item.name == x;
        assert (a + b)[i].item.name == x;
      } else {
        var i :| 0 <= i < |b| && b[i].item.name == x;
        assert (a + b)[|a| + i].item.name == x;
      }
    }
  }

  // ---- what the allocator guarantees ----

  ghost predicate WellFormed(c: Context) {
    && (forall i :: 0 <= i < |c.candidates| ==> c.candidates[i].extra > 0)
    && forall i, j :: 0 <= i < j < |c.candidates| ==> c.candidates[i].name != c.candidates[j].name
  }

  /** Selected tensors are candidates with pairwise different names. */
  ghost predicate PicksOk(c: Context, sel: seq<Pick>) {
    && (forall i :: 0 <= i < |sel| ==> sel[i].item in c.candidates)
    && forall i, j :: 0 <= i < j < |sel| ==> sel[i].item.name != sel[j].item.name
  }

  /** The anchor of every selected tensor is selected, and earlier. */
  ghost predicate AnchorsFirst(c: Context, sel: seq<Pick>) {
    forall i :: 0 <= i < |sel| && AnchorOf(c, sel[i].item.name).Some? ==>
      exists j :: 0 <= j < i && sel[j].item.name == AnchorOf(c, sel[i].item.name).value
  }

  /** Bytes still needed to promote item once the tensors in names are promoted. */
  ghost function Needed(c: Context, names: set<string>, item: Item): (n: nat) {
    item.extra + match AnchorOf(c, item.name) {
      case None => 0
      case Some(a) => if a in names then 0 else match Find(c.candidates, a) { case None => 0 case Some(x) => x.extra }
    }
  }

  /** A skipped tensor is unselected; its anchor is no candidate, or its bundle does not fit. */
  ghost predicate SkipOk(c: Context, names: set<string>, remaining: nat, s: Skip) {
    && s.item in c.candidates && s.item.name !in names
    && match s.reason {
         case AnchorMissing(a) => AnchorOf(c, s.item.name) == Some(a) && Find(c.candidates, a) == None
         case OverBudget(_) => Needed(c, names, s.item) > remaining
       }
  }

  ghost predicate SkipsOk(c: Context, st: State) {
    && (forall k :: 0 <= k < |st.skipped| ==> SkipOk(c, Names(st.selected), st.remaining, st.skipped[k]))
    && forall j, k :: 0 <= j < k < |st.skipped| ==> st.skipped[j].item.name != st.skipped[k].item.name
  }

  ghost predicate Skipped(st: State, item: Item) {
    exists k :: 0 <= k < |st.skipped| && st.skipped[k].item == item
  }

  /** Each of the first n candidates was selected or skipped; nothing later was skipped. */
  ghost predicate Settled(c: Context, st: State, n: nat) {
    && n <= |c.candidates|
    && (forall k :: 0 <= k < n ==> c.candidates[k].name in Names(st.selected) || Skipped(st, c.candidates[k]))
    && forall k :: n <= k < |c.candidates| ==> !Skipped(st, c.candidates[k])
  }

  ghost predicate Inv(c: Context, budget: nat, st: State, n: nat) {
    && PicksOk(c, st.selected) && AnchorsFirst(c, st.selected)
    && SumExtra(st.selected) + st.remaining == budget
    && SkipsOk(c, st) && Settled(c, st, n)
  }

  /** What the picks of one iteration can be. */
  ghost predicate BundleShape(c: Context, names: set<string>, item: Item, picks: seq<Pick>) {
    || (|picks| == 1 && picks[0].item == item
        && (AnchorOf(c, item.name).Some? ==> AnchorOf(c, item.name).value in names))
    || (|picks| == 2 && picks[1].item == item && AnchorOf(c, item.name) == Some(picks[0].item.name)
        && picks[0].item.name !in names && picks[0].item.name != item.name
        && AnchorOf(c, picks[0].item.name) == None && Find(c.candidates, picks[0].item.name) == Some(picks[0].item))
  }

  lemma {:induction false} BundleIs(c: Context, names: set<string>, item: Item)
    requires item.name !in names && Bundle(c, names, item).Some?
    ensures var picks := Fresh(Bundle(c, names, item).value, names);
      && BundleShape(c, names, item, picks)
      && (AnchorOf(c, item.name).Some? && AnchorOf(c, item.name).value !in names ==>
          SumExtra(picks) == Find(c.candidates, AnchorOf(c, item.name).value).value.extra + item.extra)
      && (AnchorOf(c, item.name).None? || AnchorOf(c, item.name).value in names ==> SumExtra(picks) == item.extra)
  {
    var a := AnchorOf(c, item.name);
    hide Anchor, Find;
    if a.Some? {
      AnchorNeedsNone(item.name, c.baseFormat, c.promotionFormat);
    }
    var bundle := Bundle(c, names, item).value;
    if a.None? || a.value in names {
      assert bundle[1..] == [];
      assert Fresh(bundle, names) == bundle;
      assert bundle[..0] == [];
    } else {
      var x := Find(c.candidates, a.value).value;
      var p, q := Pick(x, AnchorFor(item.name)), Pick(item, NeedsAnchor(a.value));
      assert bundle[1..] == [q] && [q][1..] == [];
      assert Fresh([q], names + {x.name}) == [q];
      assert Fresh(bundle, names) == [p] + [q] == bundle;
      assert bundle[..1] == [p] && [p][..0] == [];
      assert SumExtra([p]) == x.extra;
    }
  }

  lemma {:induction false} SumAppend(a: seq<Pick>, b: seq<Pick>)
    ensures SumExtra(a + b) == SumExtra(a) + SumExtra(b)
    decreases |b|
  {
    if b == [] {
      assert a + b == a;
    } else {
      var b' := b[..|b| - 1];
      SumAppend(a, b');
      assert (a + b)[..|a + b| - 1] == a + b';
    }
  }

  lemma {:induction false} SumMember(picks: seq<Pick>, i: nat)
    requires i < |picks|
    ensures picks[i].item.extra <= SumExtra(picks)
    decreases |picks|
  {
    if i < |picks| - 1 {
      SumMember(picks[..|picks| - 1], i);
    }
  }

  lemma SameName(c: Context, x: Item, y: Item)
    requires WellFormed(c) && x in c.candidates && y in c.candidates && x.name == y.name
    ensures x == y
  {
    var i :| 0 <= i < |c.candidates| && c.candidates[i] == x;
    var j :| 0 <= j < |c.candidates| && c.candidates[j] == y;
  }

  lemma {:induction false} PicksJoin(c: Context, sel: seq<Pick>, item: Item, picks: seq<Pick>)
    requires PicksOk(c, sel) && item in c.candidates && item.name !in Names(sel)
    requires BundleShape(c, Names(sel), item, picks)
    ensures PicksOk(c, sel + picks)
  {
    hide Anchor, AnchorOf;
    assert forall i :: 0 <= i < |sel| ==> sel[i].item.name in Names(sel);
    hide Names;
  }

  lemma {:induction false} AnchorIn(c: Context, sel: seq<Pick>, name: string)
    requires AnchorOf(c, name).Some? && AnchorOf(c, name).value in Names(sel)
    ensures exists j :: 0 <= j < |sel| && sel[j].item.name == AnchorOf(c, name).value
  {
    hide AnchorOf;
  }

  lemma {:induction false} AnchorsJoin(c: Context, sel: seq<Pick>, item: Item, picks: seq<Pick>, i: nat)
    requires AnchorsFirst(c, sel) && BundleShape(c, Names(sel), item, picks)
    requires i < |sel + picks| && AnchorOf(c, (sel + picks)[i].item.name).Some?
    ensures exists j :: 0 <= j < i && (sel + picks)[j].item.name == AnchorOf(c, (sel + picks)[i].item.name).value
  {
    hide Anchor, Find, AnchorOf, Names;
    var all := sel + picks;
    if i < |sel| {
      var j :| 0 <= j < i && sel[j].item.name == AnchorOf(c, sel[i].item.name).value;
      assert all[j] == sel[j];
    } else if |picks| == 1 {
      AnchorIn(c, sel, item.name);
      var j :| 0 <= j < |sel| && sel[j].item.name == AnchorOf(c, item.name).value;
      assert all[j] == sel[j];
    } else {
      assert all[|sel|] == picks[0] && all[|sel| + 1] == picks[1];
    }
  }

  lemma {:induction false} PicksStep(c: Context, sel: seq<Pick>, item: Item, picks: seq<Pick>)
    requires PicksOk(c, sel) && AnchorsFirst(c, sel) && item in c.candidates && item.name !in Names(sel)
    requires BundleShape(c, Names(sel), item, picks)
    ensures PicksOk(c, sel + picks) && AnchorsFirst(c, sel + picks)
  {
    hide AnchorOf, PicksOk, BundleShape, Names;
    PicksJoin(c, sel, item, picks);
    forall i | 0 <= i < |sel + picks| && AnchorOf(c, (sel + picks)[i].item.name).Some?
      ensures exists j :: 0 <= j < i && (sel + picks)[j].item.name == AnchorOf(c, (sel + picks)[i].item.name).value
    {
      AnchorsJoin(c, sel, item, picks, i);
    }
  }

  /** Taking more tensors frees no budget for a skipped bundle. */
  lemma {:induction false} NeededStep(c: Context, sel: seq<Pick>, picks: seq<Pick>, remaining: nat, x: Item)
    requires WellFormed(c) && SumExtra(picks) <= remaining && Needed(c, Names(sel), x) > remaining
    requires forall i :: 0 <= i < |picks| ==> picks[i].item in c.candidates
    ensures Needed(c, Names(sel + picks), x) > remaining - SumExtra(picks)
  {
    hide Anchor, AnchorOf, Find, SumExtra;
    NamesAppend(sel, picks);
    var a := AnchorOf(c, x.name);
    if a.Some? && a.value !in Names(sel) && a.value in Names(picks) {
      var i :| 0 <= i < |picks| && picks[i].item.name == a.value;
      SumMember(picks, i);
      var f := Find(c.candidates, a.value);
      if f.Some? {
        SameName(c, f.value, picks[i].item);
      }
    }
  }

  lemma {:induction false} SkipStep(c: Context, st: State, item: Item, picks: seq<Pick>, s: Skip)
    requires WellFormed(c) && item in c.candidates && item.name !in Names(st.selected)
    requires BundleShape(c, Names(st.selected), item, picks) && SumExtra(picks) <= st.remaining
    requires SkipOk(c, Names(st.selected), st.remaining, s) && s.item != item
    ensures SkipOk(c, Names(st.selected + picks), st.remaining - SumExtra(picks), s)
  {
    hide Anchor, AnchorOf, Find, SumExtra, Names;
    NamesAppend(st.selected, picks);
    PickNames(picks);
    if s.item.name == item.name {
      SameName(c, s.item, item);
    }
    if |picks| == 2 && s.item.name == picks[0].item.name {
      SameName(c, s.item, picks[0].item);
      SumMember(picks, 0);
    }
    if s.reason.OverBudget? {
      NeededStep(c, st.selected, picks, st.remaining, s.item);
    }
  }

  lemma PickNames(picks: seq<Pick>)
    ensures forall x :: x in Names(picks) <==> exists i :: 0 <= i < |picks| && picks[i].item.name == x
  {
  }

  lemma {:induction false} SelectStep(c: Context, budget: nat, st: State, n: nat, picks: seq<Pick>)
    requires WellFormed(c) && n < |c.candidates| && Inv(c, budget, st, n)
    requires c.candidates[n].name !in Names(st.selected)
    requires BundleShape(c, Names(st.selected), c.candidates[n], picks) && SumExtra(picks) <= st.remaining
    ensures Inv(c, budget, State(st.selected + picks, st.skipped, st.remaining - SumExtra(picks)), n + 1)
  {
    hide AnchorOf, Find, SumExtra, SkipOk, PicksOk, AnchorsFirst;
    var item := c.candidates[n];
    var st' := State(st.selected + picks, st.skipped, st.remaining - SumExtra(picks));
    PicksStep(c, st.selected, item, picks);
    SumAppend(st.selected, picks);
    NamesAppend(st.selected, picks);
    forall k | 0 <= k < |st.skipped|
      ensures SkipOk(c, Names(st'.selected), st'.remaining, st.skipped[k])
    {
      assert !Skipped(st, item);
      assert SkipOk(c, Names(st.selected), st.remaining, st.skipped[k]);
      SkipStep(c, st, item, picks, st.skipped[k]);
    }
    assert item.name in Names(picks) by { PickNames(picks); }
    assert forall x :: Skipped(st, x) <==> Skipped(st', x);
  }

  lemma {:induction false} SkipMore(c: Context, budget: nat, st: State, n: nat, reason: Reason)
    requires WellFormed(c) && n < |c.candidates| && Inv(c, budget, st, n)
    requires SkipOk(c, Names(st.selected), st.remaining, Skip(c.candidates[n], reason))
    ensures Inv(c, budget, st.(skipped := st.skipped + [Skip(c.candidates[n], reason)]), n + 1)
  {
    hide AnchorOf, Find, SumExtra, PicksOk, AnchorsFirst, Names, Needed;
    var item := c.candidates[n];
    var st' := st.(skipped := st.skipped + [Skip(item, reason)]);
    assert st'.skipped[|st.skipped|].item == item;
    assert !Skipped(st, item);
    forall k | 0 <= k < |st.skipped|
      ensures st.skipped[k].item.name != item.name
    {
      if st.skipped[k].item.name == item.name {
        SameName(c, st.skipped[k].item, item);
      }
    }
    forall k | 0 <= k < |c.candidates| && k != n
      ensures Skipped(st', c.candidates[k]) <==> Skipped(st, c.candidates[k])
    {
      assert c.candidates[k].name != item.name;
      if Skipped(st, c.candidates[k]) {
        var j :| 0 <= j < |st.skipped| && st.skipped[j].item == c.candidates[k];
        assert st'.skipped[j].item == c.candidates[k];
      }
    }
  }

  lemma {:induction false} AlreadySelected(c: Context, budget: nat, st: State, n: nat)
    requires n < |c.candidates| && Inv(c, budget, st, n) && c.candidates[n].name in Names(st.selected)
    requires WellFormed(c)
    ensures Inv(c, budget, st, n + 1)
  {
    hide PicksOk, AnchorsFirst, SumExtra, Names, SkipOk;
  }

  lemma {:induction false} MissingAnchor(c: Context, st: State, item: Item)
    requires item in c.candidates && item.name !in Names(st.selected) && Bundle(c, Names(st.selected), item).None?
    ensures SkipOk(c, Names(st.selected), st.remaining, Skip(item, AnchorMissing(AnchorName(c, item))))
  {
    hide Anchor, Names;
  }

  lemma {:induction false} TooLarge(c: Context, st: State, item: Item)
    requires item in c.candidates && item.name !in Names(st.selected) && Bundle(c, Names(st.selected), item).Some?
    requires SumExtra(Fresh(Bundle(c, Names(st.selected), item).value, Names(st.selected))) > st.remaining
    ensures var picks := Fresh(Bundle(c, Names(st.selected), item).value, Names(st.selected));
      SkipOk(c, Names(st.selected), st.remaining, Skip(item, OverBudget(SumExtra(picks))))
  {
    BundleIs(c, Names(st.selected), item);
    hide Anchor, Names, Fresh, SumExtra, Find;
  }

  lemma {:induction false} StepKeeps(c: Context, budget: nat, st: State, n: nat)
    requires WellFormed(c) && n < |c.candidates| && Inv(c, budget, st, n)
    ensures Inv(c, budget, Step(c, st, c.candidates[n]), n + 1)
  {
    hide Inv, Names, Bundle, Fresh, SumExtra, AnchorName, WellFormed, BundleShape, SkipOk, Find, AnchorOf;
    var item, names := c.candidates[n], Names(st.selected);
    var bundle := Bundle(c, names, item);
    if item.name in names {
      AlreadySelected(c, budget, st, n);
    } else if bundle.None? {
      MissingAnchor(c, st, item);
      SkipMore(c, budget, st, n, AnchorMissing(AnchorName(c, item)));
    } else {
      BundleIs(c, names, item);
      var picks := Fresh(bundle.value, names);
      if SumExtra(picks) <= st.remaining {
        SelectStep(c, budget, st, n, picks);
      } else {
        TooLarge(c, st, item);
        SkipMore(c, budget, st, n, OverBudget(SumExtra(picks)));
      }
    }
  }

  lemma StartHolds(c: Context, budget: nat)
    ensures Inv(c, budget, State([], [], budget), 0)
  {
  }

  /** For every candidate order and budget the finished policy satisfies: the selected and the
      skipped tensors partition the candidates, anchors come before their dependents, the bytes
      add up to the budget, and no skipped bundle would still fit. */
  lemma {:induction false} PolicyHolds(c: Context, budget: nat, n: nat)
    requires WellFormed(c) && n <= |c.candidates|
    ensures Inv(c, budget, Run(c, budget, n), n)
    decreases n
  {
    hide Inv, Step, WellFormed;
    if n == 0 {
      StartHolds(c, budget);
    } else {
      PolicyHolds(c, budget, n - 1);
      StepKeeps(c, budget, Run(c, budget, n - 1), n - 1);
    }
  }

  // ---- what the report says of each pick and skip ----

  /** Pick i is marked as needing exactly its own anchor, or as plain, or as the anchor of the tensor after it. */
  ghost predicate RoleAt(c: Context, sel: seq<Pick>, i: nat)
    requires i < |sel|
  {
    match AnchorOf(c, sel[i].item.name)
    case Some(a) => sel[i].role == NeedsAnchor(a)
    case None =>
      || sel[i].role == Plain
      || (i + 1 < |sel| && sel[i].role == AnchorFor(sel[i + 1].item.name)
          && AnchorOf(c, sel[i + 1].item.name) == Some(sel[i].item.name))
  }

  ghost predicate RolesOk(c: Context, sel: seq<Pick>) {
    forall i :: 0 <= i < |sel| ==> RoleAt(c, sel, i)
  }

  /** The size reported for a bundle that did not fit is the tensor's, or that and its anchor's. */
  ghost predicate SizeOk(c: Context, s: Skip) {
    match s.reason
    case AnchorMissing(_) => true
    case OverBudget(n) =>
      match AnchorOf(c, s.item.name)
      case None => n == s.item.extra
      case Some(a) =>
        || n == s.item.extra
        || (Find(c.candidates, a).Some? && n == Find(c.candidates, a).value.extra + s.item.extra)
  }

  ghost predicate ReportOk(c: Context, st: State) {
    RolesOk(c, st.selected) && forall k :: 0 <= k < |st.skipped| ==> SizeOk(c, st.skipped[k])
  }

  lemma {:induction false} RolesAppend(c: Context, a: seq<Pick>, b: seq<Pick>)
    requires RolesOk(c, a) && RolesOk(c, b)
    ensures RolesOk(c, a + b)
  {
    hide AnchorOf;
    forall i | 0 <= i < |a + b|
      ensures RoleAt(c, a + b, i)
    {
      if i < |a| {
        assert RoleAt(c, a, i);
      } else {
        assert RoleAt(c, b, i - |a|);
      }
    }
  }

  lemma {:induction false} BundleRoles(c: Context, names: set<string>, item: Item)
    requires item.name !in names && Bundle(c, names, item).Some?
    ensures RolesOk(c, Fresh(Bundle(c, names, item).value, names))
  {
    var a := AnchorOf(c, item.name);
    hide Anchor, Find, AnchorOf;
    if a.Some? {
      AnchorApart(c, item.name);
    }
    var bundle := Bundle(c, names, item).value;
    if a.None? || a.value in names {
      assert bundle[1..] == [];
      assert Fresh(bundle, names) == bundle;
    } else {
      var x := Find(c.candidates, a.value).value;
      var p, q := Pick(x, AnchorFor(item.name)), Pick(item, NeedsAnchor(a.value));
      assert bundle[1..] == [q] && [q][1..] == [];
      assert Fresh([q], names + {x.name}) == [q];
      assert Fresh(bundle, names) == [p] + [q] == bundle;
    }
  }

  lemma {:induction false} AnchorApart(c: Context, name: string)
    requires AnchorOf(c, name).Some?
    ensures AnchorOf(c, name).value != name && AnchorOf(c, AnchorOf(c, name).value) == None
  {
    hide Anchor;
    AnchorNeedsNone(name, c.baseFormat, c.promotionFormat);
  }

  lemma {:induction false} ReportStep(c: Context, st: State, item: Item)
    requires ReportOk(c, st)
    ensures ReportOk(c, Step(c, st, item))
  {
    var names := Names(st.selected);
    var bundle := Bundle(c, names, item);
    if item.name !in names && bundle.Some? {
      BundleRoles(c, names, item);
      BundleIs(c, names, item);
      RolesAppend(c, st.selected, Fresh(bundle.value, names));
    }
    hide RolesOk, Anchor, Fresh, SumExtra, Find, Names;
  }

  /** In every finished policy each pick carries its own anchor's name or that of the tensor it was added for,
      and each skip over budget the size of its bundle. */
  lemma {:induction false} ReportHolds(c: Context, budget: nat, n: nat)
    requires n <= |c.candidates|
    ensures ReportOk(c, Run(c, budget, n))
    decreases n
  {
    hide Step;
    if n > 0 {
      ReportHolds(c, budget, n - 1);
      ReportStep(c, Run(c, budget, n - 1), c.candidates[n - 1]);
    }
  }
}
