/** Writing a promotion candidate from a policy (scripts/astrea.py): filtering the selection,
    re-expanding it to runtime bundles, rewriting the records, and the byte budget end to end. */
module Promotion {
  import opened Wrappers
  import opened Policy

  datatype TensorRecord = TensorRecord(name: string, format: string, shape: seq<nat>, dataSize: nat)

  function ElementCount(shape: seq<nat>): nat {
    if shape == [] then 1 else shape[0] * ElementCount(shape[1..])
  }

  /** Bytes of a tensor in the Q8 format: 34 for every started group of 32 values. */
  function Q8Size(shape: seq<nat>): nat {
    (ElementCount(shape) + 31) / 32 * 34
  }

  lemma {:induction false} ElementsMultiply(a: seq<nat>, b: seq<nat>)
    ensures ElementCount(a + b) == ElementCount(a) * ElementCount(b) && ElementCount([]) == 1
    ensures |a| == 1 ==> ElementCount(a) == a[0]
    decreases |a|
  {
    if a == [] {
      assert a + b == b;
    } else {
      ElementsMultiply(a[1..], b);
      assert (a + b)[1..] == a[1..] + b;
      Associate(a[0], ElementCount(a[1..]), ElementCount(b));
      if |a| == 1 {
        assert a[1..] == [];
      }
    }
  }

  lemma Associate(x: nat, y: nat, z: nat)
    ensures x * (y * z) == x * y * z
  {
  }

  /** The Q8 size is 34 bytes for each of the fewest groups of 32 that hold all elements. */
  lemma {:induction false} Q8SizeIs(shape: seq<nat>) returns (groups: nat)
    ensures Q8Size(shape) == 34 * groups && ElementCount(shape) <= 32 * groups
    ensures groups > 0 ==> 32 * (groups - 1) < ElementCount(shape)
  {
    groups := (ElementCount(shape) + 31) / 32;
  }

  // ---- selected_policy_items ----

  predicate Contains(s: string, sub: string) {
    |sub| <= |s| && (s[..|sub|] == sub || (s != [] && Contains(s[1..], sub)))
  }

  predicate Wanted(item: Item, filters: seq<string>) {
    item.name != "" &&
    (filters == [] || exists k ::
      0 <= k < |filters|
      && (Contains(item.name, filters[k]) || Contains(item.alias, filters[k])))
  }

  /** The wanted names among picks, stopping once the limit is reached after taking one. */
  function Requested(picks: seq<Pick>, filters: seq<string>, limit: Option<int>, taken: nat): (r: seq<string>)
    decreases |picks|
  {
    if picks == [] then []
    else if !Wanted(picks[0].item, filters) then Requested(picks[1..], filters, limit, taken)
    else if limit.Some? && taken + 1 >= limit.value then [picks[0].item.name]
    else [picks[0].item.name] + Requested(picks[1..], filters, limit, taken + 1)
  }

  method SelectedPolicyItems(picks: seq<Pick>, filters: seq<string>, limit: Option<int>) returns (selected: seq<string>)
    ensures selected == Requested(picks, filters, limit, 0)
  {
    hide Wanted;
    selected := [];
    for i := 0 to |picks|
      invariant selected + Requested(picks[i..], filters, limit, |selected|) == Requested(picks, filters, limit, 0)
    {
      assert picks[i..][0] == picks[i] && picks[i..][1..] == picks[i + 1..];
      if Wanted(picks[i].item, filters) {
        ghost var rest := Requested(picks[i + 1..], filters, limit, |selected| + 1);
        assert selected + ([picks[i].item.name] + rest) == (selected + [picks[i].item.name]) + rest;
        selected := selected + [picks[i].item.name];
        if limit.Some? && |selected| >= limit.value {
          return;
        }
      }
    }
  }

  /** s is before, then sub, then after. */
  ghost predicate Splits(s: string, sub: string, before: string, after: string) {
    s == before + sub + after
  }

  /** sub stands somewhere in s. */
  ghost predicate Occurs(s: string, sub: string) {
    exists before, after :: Splits(s, sub, before, after)
  }

  lemma NotAtStart(s: string, sub: string, before: string, after: string)
    requires Splits(s, sub, before, after) && !(|sub| <= |s| && s[..|sub|] == sub)
    ensures before != []
  {
  }

  lemma {:induction false} ContainsIs(s: string, sub: string)
    ensures Contains(s, sub) <==> Occurs(s, sub)
    decreases |s|
  {
    if |sub| <= |s| && s[..|sub|] == sub {
      assert Splits(s, sub, [], s[|sub|..]);
    } else if |sub| <= |s| && s != [] {
      ContainsIs(s[1..], sub);
      if Contains(s[1..], sub) {
        var before, after :| Splits(s[1..], sub, before, after);
        assert Splits(s, sub, [s[0]] + before, after);
      }
      if Occurs(s, sub) {
        var before, after :| Splits(s, sub, before, after);
        NotAtStart(s, sub, before, after);
        assert Splits(s[1..], sub, before[1..], after);
      }
    }
  }

  /** The tensor has a name and, if there are filters, one of them stands in its name or its alias. */
  ghost predicate Matches(item: Item, filters: seq<string>) {
    && item.name != ""
    && (filters != [] ==> exists f :: f in filters && (Occurs(item.name, f) || Occurs(item.alias, f)))
  }

  lemma {:induction false} WantedIs(item: Item, filters: seq<string>)
    ensures Wanted(item, filters) <==> Matches(item, filters)
  {
    hide Occurs, Contains;
    forall f: string
      ensures Contains(item.name, f) <==> Occurs(item.name, f)
      ensures Contains(item.alias, f) <==> Occurs(item.alias, f)
    {
      ContainsIs(item.name, f);
      ContainsIs(item.alias, f);
    }
  }

  /** at lists, in order, the positions of the first matching picks: all of them, or as many as may be taken. */
  ghost predicate FirstMatches(picks: seq<Pick>, filters: seq<string>, most: Option<nat>, at: seq<nat>) {
    && (forall i :: 0 <= i < |at| ==> at[i] < |picks| && Matches(picks[at[i]].item, filters))
    && (forall i, j :: 0 <= i < j < |at| ==> at[i] < at[j])
    && (forall k: nat :: k < |picks| && Matches(picks[k].item, filters) && k !in at ==>
          most == Some(|at|) && forall i :: 0 <= i < |at| ==> at[i] < k)
    && (most.Some? ==> |at| <= most.value)
  }

  function Shifted(at: seq<nat>): seq<nat> {
    seq(|at|, i requires 0 <= i < |at| => at[i] + 1)
  }

  lemma {:induction false} ShiftedMembers(at: seq<nat>, k: nat)
    requires k > 0
    ensures k in Shifted(at) <==> k - 1 in at
  {
    if k - 1 in at {
      var i :| 0 <= i < |at| && at[i] == k - 1;
      assert Shifted(at)[i] == k;
    }
  }

  lemma {:induction false} SkipFirst(picks: seq<Pick>, filters: seq<string>, most: Option<nat>, at: seq<nat>)
    requires picks != [] && !Matches(picks[0].item, filters) && FirstMatches(picks[1..], filters, most, at)
    ensures FirstMatches(picks, filters, most, Shifted(at))
  {
    hide Matches;
    forall k: nat | k < |picks| && Matches(picks[k].item, filters) && k !in Shifted(at)
      ensures most == Some(|at|) && forall i :: 0 <= i < |at| ==> Shifted(at)[i] < k
    {
      ShiftedMembers(at, k);
      assert picks[1..][k - 1] == picks[k];
    }
  }

  lemma {:induction false} TakeFirst(picks: seq<Pick>, filters: seq<string>, most: Option<nat>, at: seq<nat>)
    requires picks != [] && Matches(picks[0].item, filters) && FirstMatches(picks[1..], filters, most, at)
    ensures FirstMatches(picks, filters, if most.Some? then Some(most.value + 1) else None, [0] + Shifted(at))
  {
    hide Matches;
    var all := [0] + Shifted(at);
    assert all[0] == 0;
    forall k: nat | k < |picks| && Matches(picks[k].item, filters) && k !in all
      ensures most == Some(|at|) && forall i :: 0 <= i < |all| ==> all[i] < k
    {
      assert k != 0 && k !in Shifted(at);
      ShiftedMembers(at, k);
      assert picks[1..][k - 1] == picks[k];
    }
  }

  lemma {:induction false} OnlyFirst(picks: seq<Pick>, filters: seq<string>)
    requires picks != [] && Matches(picks[0].item, filters)
    ensures FirstMatches(picks, filters, Some(1), [0])
  {
    hide Matches;
  }

  lemma NothingMatches(filters: seq<string>, most: Option<nat>)
    ensures FirstMatches([], filters, most, [])
  {
  }

  /** names are the names of the picks at these positions. */
  ghost predicate NamesAt(names: seq<string>, picks: seq<Pick>, at: seq<nat>) {
    |names| == |at| && forall i :: 0 <= i < |at| ==> at[i] < |picks| && names[i] == picks[at[i]].item.name
  }

  lemma NamesShifted(names: seq<string>, picks: seq<Pick>, at: seq<nat>)
    requires picks != [] && NamesAt(names, picks[1..], at)
    ensures NamesAt(names, picks, Shifted(at)) && NamesAt([picks[0].item.name] + names, picks, [0] + Shifted(at))
  {
  }

  lemma {:induction false} RequestedFrom(picks: seq<Pick>, filters: seq<string>, limit: Option<int>, taken: nat)
    returns (at: seq<nat>)
    requires limit.Some? ==> taken < limit.value
    ensures FirstMatches(picks, filters, if limit.Some? then Some(limit.value - taken) else None, at)
    ensures NamesAt(Requested(picks, filters, limit, taken), picks, at)
    decreases |picks|
  {
    hide Wanted, Matches, FirstMatches, NamesAt, Shifted;
    if picks == [] {
      NothingMatches(filters, if limit.Some? then Some(limit.value - taken) else None);
      at := [];
      assert NamesAt([], picks, at) by { NoNames(); }
    } else {
      WantedIs(picks[0].item, filters);
      var more := limit.None? || taken + 1 < limit.value;
      if !Matches(picks[0].item, filters) {
        at := RequestedFrom(picks[1..], filters, limit, taken);
        SkipFirst(picks, filters, if limit.Some? then Some(limit.value - taken) else None, at);
        NamesShifted(Requested(picks[1..], filters, limit, taken), picks, at);
        at := Shifted(at);
      } else if more {
        at := RequestedFrom(picks[1..], filters, limit, taken + 1);
        TakeFirst(picks, filters, if limit.Some? then Some(limit.value - taken - 1) else None, at);
        NamesShifted(Requested(picks[1..], filters, limit, taken + 1), picks, at);
        at := [0] + Shifted(at);
      } else {
        OnlyFirst(picks, filters);
        OneName(picks);
        at := [0];
      }
    }
  }

  lemma NoNames()
    ensures NamesAt([], [], [])
  {
  }

  lemma OneName(picks: seq<Pick>)
    requires picks != []
    ensures NamesAt([picks[0].item.name], picks, [0])
  {
  }

  lemma {:induction false} LimitBelowOne(picks: seq<Pick>, filters: seq<string>, limit: int)
    requires limit < 1
    ensures Requested(picks, filters, Some(limit), 0) == Requested(picks, filters, Some(1), 0)
    decreases |picks|
  {
    if picks != [] {
      LimitBelowOne(picks[1..], filters, limit);
    }
  }

  /** How many picks a limit lets through. */
  function AtMost(limit: Option<int>): Option<nat> {
    if limit.None? then None else Some(if limit.value < 1 then 1 else limit.value)
  }

  /** What a run of the writer asks for: the names of exactly the first matching picks, in order, as many as the
      limit allows, which is checked only after taking one and so never below one. */
  lemma {:induction false} RequestedExactly(picks: seq<Pick>, filters: seq<string>, limit: Option<int>)
    returns (at: seq<nat>)
    ensures FirstMatches(picks, filters, AtMost(limit), at)
    ensures NamesAt(Requested(picks, filters, limit, 0), picks, at)
  {
    hide FirstMatches, NamesAt, Requested;
    if limit.Some? && limit.value < 1 {
      LimitBelowOne(picks, filters, limit.value);
      at := RequestedFrom(picks, filters, Some(1), 0);
    } else {
      at := RequestedFrom(picks, filters, limit, 0);
    }
  }

  ghost predicate Distinct(names: seq<string>) {
    forall i, j :: 0 <= i < j < |names| ==> names[i] != names[j]
  }

  ghost predicate Within(names: seq<string>, pool: set<string>) {
    forall i :: 0 <= i < |names| ==> names[i] in pool
  }

  lemma ConsWithin(x: string, r: seq<string>, small: set<string>, pool: set<string>)
    requires Distinct(r) && Within(r, small) && small <= pool && x in pool && x !in small
    ensures Distinct([x] + r) && Within([x] + r, pool) && Within(r, pool) && Distinct([x]) && Within([x], pool)
  {
  }

  /** Requested names are names of picks, without repetition and never empty. */
  lemma {:induction false} RequestedAreSelected(c: Context, picks: seq<Pick>, filters: seq<string>,
                                                limit: Option<int>, taken: nat)
    requires PicksOk(c, picks)
    ensures Within(Requested(picks, filters, limit, taken), Names(picks))
      && Distinct(Requested(picks, filters, limit, taken))
    ensures "" !in Requested(picks, filters, limit, taken)
    decreases |picks|
  {
    if picks != [] {
      var rest := picks[1..];
      assert PicksOk(c, rest);
      HeadName(c, picks);
      hide Names, Within, Distinct, PicksOk;
      RequestedAreSelected(c, rest, filters, limit, taken);
      RequestedAreSelected(c, rest, filters, limit, taken + 1);
      ConsWithin(picks[0].item.name, Requested(rest, filters, limit, taken), Names(rest), Names(picks));
      ConsWithin(picks[0].item.name, Requested(rest, filters, limit, taken + 1), Names(rest), Names(picks));
    }
  }

  lemma HeadName(c: Context, picks: seq<Pick>)
    requires picks != [] && PicksOk(c, picks)
    ensures picks[0].item.name in Names(picks) && Names(picks[1..]) <= Names(picks)
    ensures picks[0].item.name !in Names(picks[1..])
  {
    forall x | x in Names(picks[1..])
      ensures x in Names(picks)
    {
      var i :| 0 <= i < |picks[1..]| && picks[1..][i].item.name == x;
      assert picks[i + 1].item.name == x;
    }
  }

  // ---- expand_runtime_promotion_selection ----

  /** Names to promote in order, and the anchors that had to be added. */
  datatype Expansion = Expansion(names: seq<string>, added: seq<string>)

  function AddOne(c: Context, available: set<string>, e: Expansion, name: string): (r: Option<Expansion>)
  {
    var a := AnchorOf(c, name);
    if a.Some? && a.value !in e.names then
      if a.value !in available then None
      else Some(Expansion(WithName(e.names + [a.value], name), e.added + [a.value]))
    else Some(e.(names := WithName(e.names, name)))
  }

  function WithName(names: seq<string>, name: string): seq<string> {
    if name in names then names else names + [name]
  }

  function Expand(c: Context, available: set<string>, requested: seq<string>, n: nat): (r: Option<Expansion>)
    requires n <= |requested|
  {
    if n == 0 then Some(Expansion([], [])) else
      match Expand(c, available, requested, n - 1)
      case None => None
      case Some(e) => AddOne(c, available, e, requested[n - 1])
  }

  lemma {:induction false} ExpandErr(c: Context, available: set<string>, requested: seq<string>, k: nat, n: nat)
    requires k <= n <= |requested| && Expand(c, available, requested, k).None?
    ensures Expand(c, available, requested, n).None?
    decreases n
  {
    if k < n {
      ExpandErr(c, available, requested, k, n - 1);
    }
  }

  method ExpandSelection(c: Context, available: set<string>, requested: seq<string>) returns (r: Option<Expansion>)
    ensures r == Expand(c, available, requested, |requested|)
  {
    hide AnchorOf;
    var names: seq<string>, added: seq<string> := [], [];
    for i := 0 to |requested|
      invariant Expand(c, available, requested, i) == Some(Expansion(names, added))
    {
      var name := requested[i];
      var anchor := AnchorOf(c, name);
      if anchor.Some? && anchor.value !in names {
        if anchor.value !in available {
          assert Expand(c, available, requested, i + 1).None?;
          ExpandErr(c, available, requested, i + 1, |requested|);
          return None;
        }
        names := names + [anchor.value];
        added := added + [anchor.value];
      }
      if name !in names {
        names := names + [name];
      }
    }
    r := Some(Expansion(names, added));
  }

  /** x was asked for among the first n, or is the anchor of a name that was. */
  ghost predicate AskedFor(c: Context, requested: seq<string>, n: nat, x: string)
    requires n <= |requested|
  {
    exists i :: 0 <= i < n && (requested[i] == x || AnchorOf(c, requested[i]) == Some(x))
  }

  /** The names of an expansion, in full: exactly the requests and their anchors, each once, every anchor before
      its dependents, and the anchors that were added among them. */
  ghost predicate Expanded(c: Context, requested: seq<string>, n: nat, e: Expansion)
    requires n <= |requested|
  {
    && Distinct(e.names) && AnchorsListedFirst(c, e.names)
    && (forall x :: x in e.names <==> AskedFor(c, requested, n, x))
    && (forall x :: x in e.added ==> x in e.names && exists i :: 0 <= i < n && AnchorOf(c, requested[i]) == Some(x))
  }

  lemma AskedMore(c: Context, requested: seq<string>, n: nat, x: string)
    requires n < |requested|
    ensures AskedFor(c, requested, n + 1, x) <==>
      AskedFor(c, requested, n, x) || requested[n] == x || AnchorOf(c, requested[n]) == Some(x)
  {
    hide AnchorOf;
    if AskedFor(c, requested, n, x) {
      var i :| 0 <= i < n && (requested[i] == x || AnchorOf(c, requested[i]) == Some(x));
      assert 0 <= i < n + 1;
    }
    if requested[n] == x || AnchorOf(c, requested[n]) == Some(x) {
      assert 0 <= n < n + 1;
    }
  }

  /** A new name goes to the end of the list, after its anchor. */
  lemma {:induction false} WithNameKeeps(c: Context, names: seq<string>, name: string)
    requires Distinct(names) && AnchorsListedFirst(c, names)
    requires AnchorOf(c, name).Some? ==> AnchorOf(c, name).value in names
    ensures Distinct(WithName(names, name)) && AnchorsListedFirst(c, WithName(names, name))
    ensures forall x :: x in WithName(names, name) <==> x in names || x == name
  {
    hide AnchorOf;
    ListedAppend(c, names, name);
  }

  /** The list with the anchor, if there is one, and then the name. */
  function Front(c: Context, names: seq<string>, name: string): seq<string> {
    if AnchorOf(c, name).Some? then WithName(names, AnchorOf(c, name).value) else names
  }

  lemma {:induction false} AddOneIs(c: Context, available: set<string>, e: Expansion, name: string, r: Expansion)
    requires AddOne(c, available, e, name) == Some(r)
    ensures r.names == WithName(Front(c, e.names, name), name)
    ensures forall x :: x in r.added ==> x in e.added || AnchorOf(c, name) == Some(x)
  {
    hide AnchorOf;
  }

  lemma {:induction false} FrontKeeps(c: Context, names: seq<string>, name: string)
    requires Distinct(names) && AnchorsListedFirst(c, names)
    ensures var r := WithName(Front(c, names, name), name); Distinct(r) && AnchorsListedFirst(c, r)
    ensures forall x ::
      x in WithName(Front(c, names, name), name) <==> x in names || x == name || AnchorOf(c, name) == Some(x)
  {
    hide AnchorOf, Distinct, AnchorsListedFirst, WithName;
    if AnchorOf(c, name).Some? {
      AnchorApart(c, name);
      WithNameKeeps(c, names, AnchorOf(c, name).value);
    }
    WithNameKeeps(c, Front(c, names, name), name);
  }

  lemma {:induction false} AddOneExpands(c: Context, available: set<string>, requested: seq<string>, n: nat,
                                         e: Expansion, r: Expansion)
    requires n < |requested| && Expanded(c, requested, n, e) && AddOne(c, available, e, requested[n]) == Some(r)
    ensures Expanded(c, requested, n + 1, r)
  {
    hide AnchorOf, AskedFor, Distinct, AnchorsListedFirst, AddOne, WithName, Front;
    AddOneIs(c, available, e, requested[n], r);
    FrontKeeps(c, e.names, requested[n]);
    forall x
      ensures x in r.names <==> AskedFor(c, requested, n + 1, x)
    {
      AskedMore(c, requested, n, x);
    }
    forall x | x in r.added
      ensures x in r.names && exists i :: 0 <= i < n + 1 && AnchorOf(c, requested[i]) == Some(x)
    {
      if x in e.added {
        var i :| 0 <= i < n && AnchorOf(c, requested[i]) == Some(x);
      }
    }
  }

  /** An expansion that succeeds lists exactly the requests and their anchors, anchors first. */
  lemma {:induction false} ExpandExactly(c: Context, available: set<string>, requested: seq<string>, n: nat)
    requires n <= |requested| && Expand(c, available, requested, n).Some?
    ensures Expanded(c, requested, n, Expand(c, available, requested, n).value)
    decreases n
  {
    hide AddOne, AnchorOf;
    if n > 0 {
      hide Expanded;
      ExpandExactly(c, available, requested, n - 1);
      AddOneExpands(c, available, requested, n - 1, Expand(c, available, requested, n - 1).value,
        Expand(c, available, requested, n).value);
    }
  }

  /** It fails exactly if some request needs an anchor that is not available and was not asked for before it. */
  lemma {:induction false} ExpandFails(c: Context, available: set<string>, requested: seq<string>, n: nat)
    requires n <= |requested|
    ensures Expand(c, available, requested, n).None? <==>
      exists i :: 0 <= i < n && AnchorOf(c, requested[i]).Some?
        && AnchorOf(c, requested[i]).value !in available && !AskedFor(c, requested, i, AnchorOf(c, requested[i]).value)
    decreases n
  {
    hide AnchorOf, AskedFor;
    if n > 0 {
      ExpandFails(c, available, requested, n - 1);
      if Expand(c, available, requested, n - 1).Some? {
        ExpandExactly(c, available, requested, n - 1);
        hide Distinct, AnchorsListedFirst;
      }
    }
  }

  lemma {:induction false} AddOneInside(c: Context, pool: set<string>, available: set<string>, e: Expansion,
                                        name: string)
    requires pool <= available && name in pool && Distinct(e.names) && Within(e.names, pool)
    requires AnchorOf(c, name).Some? ==> AnchorOf(c, name).value in pool
    ensures AddOne(c, available, e, name).Some?
    ensures var e' := AddOne(c, available, e, name).value;
      Distinct(e'.names) && Within(e'.names, pool) && e.names <= e'.names && name in e'.names
  {
    hide AnchorOf;
  }

  /** Expanding names of a finished policy stays inside the policy's selection. */
  lemma {:induction false} ExpansionInside(c: Context, sel: seq<Pick>, available: set<string>, requested: seq<string>,
                                           n: nat)
    requires AnchorsFirst(c, sel) && Names(sel) <= available && n <= |requested| && Within(requested, Names(sel))
    ensures Expand(c, available, requested, n).Some?
    ensures var e := Expand(c, available, requested, n).value;
      Distinct(e.names) && Within(e.names, Names(sel)) && forall i :: 0 <= i < n ==> requested[i] in e.names
    decreases n
  {
    hide AddOne, Names, AnchorsFirst, AnchorOf;
    if n > 0 {
      assert requested[n - 1] in Names(sel);
      hide Distinct, Within;
      ExpansionInside(c, sel, available, requested, n - 1);
      var before, after := Expand(c, available, requested, n - 1).value, Expand(c, available, requested, n);
      SelectedAnchor(c, sel, requested[n - 1]);
      AddOneInside(c, Names(sel), available, before, requested[n - 1]);
      forall i | 0 <= i < n
        ensures requested[i] in after.value.names
      {
        if i < n - 1 {
          assert requested[i] in before.names;
        }
      }
    }
  }

  lemma {:induction false} SelectedAnchor(c: Context, sel: seq<Pick>, name: string)
    requires AnchorsFirst(c, sel) && name in Names(sel)
    ensures AnchorOf(c, name).Some? ==> AnchorOf(c, name).value in Names(sel)
  {
    hide AnchorOf;
    var i :| 0 <= i < |sel| && sel[i].item.name == name;
    if AnchorOf(c, name).Some? {
      var j :| 0 <= j < i && sel[j].item.name == AnchorOf(c, name).value;
    }
  }

  // ---- without a filter ----

  /** The non-empty names of picks, in order. */
  function NonEmptyNames(picks: seq<Pick>): (r: seq<string>) {
    if picks == [] then [] else
      NonEmptyNames(picks[..|picks| - 1]) + (if picks[|picks| - 1].item.name != "" then [picks[|picks| - 1].item.name]
        else [])
  }

  lemma {:induction false} RequestedAppend(picks: seq<Pick>, p: Pick, taken: nat)
    ensures Requested(picks + [p], [], None, taken)
         == Requested(picks, [], None, taken) + (if p.item.name != "" then [p.item.name] else [])
    decreases |picks|
  {
    if picks == [] {
      assert picks + [p] == [p] && [p][1..] == [];
    } else {
      RequestedAppend(picks[1..], p, taken);
      RequestedAppend(picks[1..], p, taken + 1);
      assert (picks + [p])[1..] == picks[1..] + [p];
    }
  }

  /** With no filter and no limit the writer asks for every selected tensor with a non-empty name. */
  lemma {:induction false} RequestedUnfiltered(picks: seq<Pick>)
    ensures Requested(picks, [], None, 0) == NonEmptyNames(picks)
    decreases |picks|
  {
    if picks != [] {
      hide Requested;
      RequestedUnfiltered(picks[..|picks| - 1]);
      RequestedAppend(picks[..|picks| - 1], picks[|picks| - 1], 0);
      assert picks == picks[..|picks| - 1] + [picks[|picks| - 1]];
    } else {
      assert Requested(picks, [], None, 0) == [];
    }
  }

  lemma {:induction false} NonEmptyMembers(picks: seq<Pick>, x: string)
    ensures x in NonEmptyNames(picks) <==> x in Names(picks) && x != ""
    decreases |picks|
  {
    if picks != [] {
      var init, last := picks[..|picks| - 1], picks[|picks| - 1];
      NonEmptyMembers(init, x);
      assert picks == init + [last];
      NamesAppend(init, [last]);
      assert Names([last]) == {last.item.name} by { assert [last][0] == last; }
    }
  }

  lemma {:induction false} AnchorNotEmpty(c: Context, name: string)
    requires AnchorOf(c, name).Some?
    ensures AnchorOf(c, name).value != ""
  {
    ReplacementNotEmpty(name, 0);
    assert REPLACEMENTS[0..] == REPLACEMENTS;
  }

  lemma {:induction false} ReplacementNotEmpty(name: string, k: nat)
    requires k <= |REPLACEMENTS| && FirstReplacement(name, REPLACEMENTS[k..]).Some?
    ensures FirstReplacement(name, REPLACEMENTS[k..]).value != ""
    decreases |REPLACEMENTS| - k
  {
    if k < |REPLACEMENTS| {
      RulesSeparate(k);
      assert REPLACEMENTS[k..][0] == REPLACEMENTS[k] && REPLACEMENTS[k..][1..] == REPLACEMENTS[k + 1..];
      if !EndsWith(name, REPLACEMENTS[k].0) {
        ReplacementNotEmpty(name, k + 1);
      }
    }
  }

  /** Each name's anchor is listed before it. */
  ghost predicate AnchorsListedFirst(c: Context, names: seq<string>) {
    forall i :: 0 <= i < |names| && AnchorOf(c, names[i]).Some? ==> AnchorOf(c, names[i]).value in names[..i]
  }

  lemma {:induction false} ListedFirst(c: Context, sel: seq<Pick>)
    requires AnchorsFirst(c, sel)
    ensures AnchorsListedFirst(c, NonEmptyNames(sel))
    decreases |sel|
  {
    if sel != [] {
      var init, last := sel[..|sel| - 1], sel[|sel| - 1];
      assert AnchorsFirst(c, init);
      ListedFirst(c, init);
      var names := NonEmptyNames(init);
      hide AnchorOf, NonEmptyNames;
      var a := AnchorOf(c, last.item.name);
      if a.Some? {
        var j :| 0 <= j < |sel| - 1 && sel[j].item.name == a.value;
        assert init[j].item.name == a.value;
        AnchorNotEmpty(c, last.item.name);
        NonEmptyMembers(init, a.value);
      }
      ListedAppend(c, names, last.item.name);
      NonEmptyStep(sel);
    }
  }

  lemma NonEmptyStep(picks: seq<Pick>)
    requires picks != []
    ensures NonEmptyNames(picks)
         == NonEmptyNames(picks[..|picks| - 1]) + (if picks[|picks| - 1].item.name != "" then
           [picks[|picks| - 1].item.name] else [])
  {
  }

  lemma ListedAppend(c: Context, names: seq<string>, name: string)
    requires AnchorsListedFirst(c, names) && (AnchorOf(c, name).Some? ==> AnchorOf(c, name).value in names)
    ensures AnchorsListedFirst(c, names + [name]) && names + [] == names
  {
    hide AnchorOf;
    var all := names + [name];
    assert forall i :: 0 <= i < |names| ==> all[..i] == names[..i] && all[i] == names[i];
    assert all[..|names|] == names;
  }

  /** Expanding a list that already has its anchors in front adds nothing. */
  lemma {:induction false} ExpandKeeps(c: Context, available: set<string>, names: seq<string>, n: nat)
    requires AnchorsListedFirst(c, names) && Distinct(names) && n <= |names|
    ensures Expand(c, available, names, n) == Some(Expansion(names[..n], []))
    decreases n
  {
    if n > 0 {
      hide AnchorOf;
      ExpandKeeps(c, available, names, n - 1);
      assert names[..n] == names[..n - 1] + [names[n - 1]];
    }
  }

  // ---- rewriting the records ----

  datatype Promoted = Promoted(name: string, extra: int)

  /** The rewritten records and the list of promotions. */
  datatype Rewrite = Rewrite(records: seq<TensorRecord>, promoted: seq<Promoted>)

  /** The first n records with the named ones re-encoded as Q8; None where the writer raises.
      packed gives the size of the bytes the quantiser produced for a record. */
  function RewriteRecords(records: seq<TensorRecord>, names: set<string>, baseFormat: string,
                          packed: TensorRecord -> nat, n: nat): (r: Option<Rewrite>)
    requires n <= |records|
    ensures r.Some? ==> |r.value.records| == n
  {
    if n == 0 then Some(Rewrite([], [])) else
      match RewriteRecords(records, names, baseFormat, packed, n - 1)
      case None => None
      case Some(w) =>
        var rec := records[n - 1];
        if rec.name !in names then Some(Rewrite(w.records + [rec], w.promoted))
        else if rec.format != baseFormat || packed(rec) != Q8Size(rec.shape) then None
        else Some(Rewrite(w.records + [TensorRecord(rec.name, "q8", rec.shape, packed(rec))],
                        w.promoted + [Promoted(rec.name, packed(rec) - rec.dataSize)]))
  }

  lemma {:induction false} RewriteErr(records: seq<TensorRecord>, names: set<string>, baseFormat: string,
                                      packed: TensorRecord -> nat, k: nat, n: nat)
    requires k <= n <= |records| && RewriteRecords(records, names, baseFormat, packed, k).None?
    ensures RewriteRecords(records, names, baseFormat, packed, n).None?
    decreases n
  {
    if k < n {
      RewriteErr(records, names, baseFormat, packed, k, n - 1);
    }
  }

  /** Which records of the model a run rewrites. */
  function NamedAt(records: seq<TensorRecord>, names: set<string>, n: nat): (at: seq<nat>)
    requires n <= |records|
    ensures forall k :: 0 <= k < |at| ==> at[k] < n && records[at[k]].name in names
    ensures forall j, k :: 0 <= j < k < |at| ==> at[j] < at[k]
    ensures forall i: nat :: i < n && records[i].name in names ==> i in at
  {
    if n == 0 then [] else
      NamedAt(records, names, n - 1) + if records[n - 1].name in names then [n - 1] else []
  }

  lemma {:induction false} RewriteSucceeds(records: seq<TensorRecord>, names: set<string>, baseFormat: string,
                                           packed: TensorRecord -> nat, n: nat)
    requires n <= |records|
    ensures RewriteRecords(records, names, baseFormat, packed, n).Some? <==>
      forall i :: 0 <= i < n && records[i].name in names ==>
        records[i].format == baseFormat && packed(records[i]) == Q8Size(records[i].shape)
    decreases n
  {
    hide Q8Size;
    if n > 0 {
      RewriteSucceeds(records, names, baseFormat, packed, n - 1);
    }
  }

  /** What record i becomes. */
  function Rewritten(rec: TensorRecord, names: set<string>): TensorRecord {
    if rec.name in names then TensorRecord(rec.name, "q8", rec.shape, Q8Size(rec.shape)) else rec
  }

  lemma {:induction false} RewrittenAt(records: seq<TensorRecord>, names: set<string>, baseFormat: string,
                                       packed: TensorRecord -> nat, n: nat, i: nat)
    requires i < n <= |records| && RewriteRecords(records, names, baseFormat, packed, n).Some?
    ensures RewriteRecords(records, names, baseFormat, packed, n).value.records[i] == Rewritten(records[i], names)
    decreases n
  {
    hide Q8Size;
    if i < n - 1 {
      RewrittenAt(records, names, baseFormat, packed, n - 1, i);
    }
  }

  lemma {:induction false} PromotedAt(records: seq<TensorRecord>, names: set<string>, baseFormat: string,
                                      packed: TensorRecord -> nat, n: nat)
    requires n <= |records| && RewriteRecords(records, names, baseFormat, packed, n).Some?
    ensures var ps, at := RewriteRecords(records, names, baseFormat, packed, n).value.promoted,
      NamedAt(records, names, n);
      |ps| == |at| && forall k :: 0 <= k < |at| ==> ps[k] == PromotionOf(records[at[k]])
    decreases n
  {
    if n > 0 {
      var v, w := RewriteStep(records, names, baseFormat, packed, n);
      hide RewriteRecords, Q8Size;
      PromotedAt(records, names, baseFormat, packed, n - 1);
    }
  }

  /** A promoted record's name and how much its payload grows. */
  function PromotionOf(rec: TensorRecord): Promoted {
    Promoted(rec.name, Q8Size(rec.shape) - rec.dataSize)
  }

  /** The rewrite, in full: it succeeds exactly if every named record is in the base format and packs to its Q8
      size; named records become q8 of that size, all others stay, and each promotion says by how much. */
  lemma {:induction false} RewriteExactly(records: seq<TensorRecord>, names: set<string>, baseFormat: string,
                                          packed: TensorRecord -> nat, n: nat)
    requires n <= |records|
    ensures RewriteRecords(records, names, baseFormat, packed, n).Some? <==>
      forall i :: 0 <= i < n && records[i].name in names ==>
        records[i].format == baseFormat && packed(records[i]) == Q8Size(records[i].shape)
    ensures RewriteRecords(records, names, baseFormat, packed, n).Some? ==>
      var w, at := RewriteRecords(records, names, baseFormat, packed, n).value, NamedAt(records, names, n);
      && (forall i :: 0 <= i < n ==> w.records[i] == if records[i].name in names
            then TensorRecord(records[i].name, "q8", records[i].shape, Q8Size(records[i].shape)) else records[i])
      && |w.promoted| == |at|
      && forall k :: 0 <= k < |at| ==>
           w.promoted[k] == Promoted(records[at[k]].name, Q8Size(records[at[k]].shape) - records[at[k]].dataSize)
  {
    hide Q8Size, RewriteRecords, NamedAt;
    RewriteSucceeds(records, names, baseFormat, packed, n);
    if RewriteRecords(records, names, baseFormat, packed, n).Some? {
      PromotedAt(records, names, baseFormat, packed, n);
      forall i | 0 <= i < n
        ensures RewriteRecords(records, names, baseFormat, packed, n).value.records[i] == Rewritten(records[i], names)
      {
        RewrittenAt(records, names, baseFormat, packed, n, i);
      }
    }
  }

  method PromoteRecords(records: seq<TensorRecord>, names: set<string>, baseFormat: string, packed: TensorRecord -> nat)
    returns (r: Option<Rewrite>)
    ensures r == RewriteRecords(records, names, baseFormat, packed, |records|)
  {
    var out: seq<TensorRecord>, promoted: seq<Promoted> := [], [];
    for i := 0 to |records|
      invariant RewriteRecords(records, names, baseFormat, packed, i) == Some(Rewrite(out, promoted))
    {
      var rec := records[i];
      if rec.name !in names {
        out := out + [rec];
        continue;
      }
      if rec.format != baseFormat || packed(rec) != Q8Size(rec.shape) {
        assert RewriteRecords(records, names, baseFormat, packed, i + 1).None?;
        RewriteErr(records, names, baseFormat, packed, i + 1, |records|);
        return None;
      }
      out := out + [TensorRecord(rec.name, "q8", rec.shape, packed(rec))];
      promoted := promoted + [Promoted(rec.name, packed(rec) - rec.dataSize)];
    }
    r := Some(Rewrite(out, promoted));
  }

  function TotalSize(records: seq<TensorRecord>): nat {
    if records == [] then 0 else TotalSize(records[..|records| - 1]) + records[|records| - 1].dataSize
  }

  function PromotedExtra(ps: seq<Promoted>): int {
    if ps == [] then 0 else PromotedExtra(ps[..|ps| - 1]) + ps[|ps| - 1].extra
  }

  /** The rewritten payloads are larger by exactly the reported extra bytes. */
  lemma {:induction false} RewriteConserves(records: seq<TensorRecord>, names: set<string>, baseFormat: string,
                                            packed: TensorRecord -> nat, n: nat)
    requires n <= |records| && RewriteRecords(records, names, baseFormat, packed, n).Some?
    ensures var w := RewriteRecords(records, names, baseFormat, packed, n).value;
      TotalSize(w.records) == TotalSize(records[..n]) + PromotedExtra(w.promoted)
    decreases n
  {
    if n > 0 {
      RewriteConserves(records, names, baseFormat, packed, n - 1);
      var v, w := RewriteRecords(records, names, baseFormat, packed, n - 1).value,
        RewriteRecords(records, names, baseFormat, packed, n).value;
      hide RewriteRecords, Q8Size;
      assert records[..n][..n - 1] == records[..n - 1];
      assert w.records[..n - 1] == v.records;
      if records[n - 1].name in names {
        assert w.promoted[..|v.promoted|] == v.promoted;
      }
    }
  }

  // ---- the whole writer ----

  datatype Report = Report(rewrite: Rewrite, expansion: Expansion)

  function RecordNames(records: seq<TensorRecord>): (ns: set<string>) {
    set i | 0 <= i < |records| :: records[i].name
  }

  function SkippedNames(skipped: seq<Skip>): (ns: set<string>) {
    set i | 0 <= i < |skipped| :: skipped[i].item.name
  }

  function NameSet(names: seq<string>): (ns: set<string>) {
    set i | 0 <= i < |names| :: names[i]
  }

  function Available(st: State, records: seq<TensorRecord>): (ns: set<string>)
    ensures Names(st.selected) <= ns
  {
    RecordNames(records) + Names(st.selected) + SkippedNames(st.skipped)
  }

  function Promote(c: Context, st: State, records: seq<TensorRecord>, filters: seq<string>, limit: Option<int>,
                   sources: set<string>, packed: TensorRecord -> nat): (r: Option<Report>)
  {
    var requested := Requested(st.selected, filters, limit, 0);
    if c.promotionFormat != "q8" || requested == [] then None else
      match Expand(c, Available(st, records), requested, |requested|)
      case None => None
      case Some(e) =>
        if !(NameSet(e.names) <= sources) then None else
          match RewriteRecords(records, NameSet(e.names), c.baseFormat, packed, |records|)
          case None => None
          case Some(w) => if |w.promoted| != |NameSet(e.names)| then None else Some(Report(w, e))
  }

  method WritePromotionCandidate(c: Context, st: State, records: seq<TensorRecord>, filters: seq<string>,
                                 limit: Option<int>, sources: set<string>, packed: TensorRecord -> nat)
    returns (r: Option<Report>, extra: int)
    ensures r == Promote(c, st, records, filters, limit, sources, packed)
    ensures r.Some? ==> extra == PromotedExtra(r.value.rewrite.promoted)
  {
    hide Requested, Expand, RewriteRecords, NameSet, Available;
    extra := 0;
    if c.promotionFormat != "q8" {
      return None, 0;
    }
    var requested := SelectedPolicyItems(st.selected, filters, limit);
    if requested == [] {
      return None, 0;
    }
    var expanded := ExpandSelection(c, Available(st, records), requested);
    if expanded.None? {
      return None, 0;
    }
    var names := NameSet(expanded.value.names);
    if !(names <= sources) {
      return None, 0;
    }
    var w := PromoteRecords(records, names, c.baseFormat, packed);
    if w.None? || |w.value.promoted| != |names| {
      return None, 0;
    }
    for i := 0 to |w.value.promoted|
      invariant extra == PromotedExtra(w.value.promoted[..i])
    {
      assert w.value.promoted[..i + 1][..i] == w.value.promoted[..i];
      extra := extra + w.value.promoted[i].extra;
    }
    assert w.value.promoted[..|w.value.promoted|] == w.value.promoted;
    r := Some(Report(w.value, expanded.value));
  }

  // ---- the budget, end to end ----

  /** Each candidate is a record of the model in the base format with the size its extra bytes say.
      Where a name is repeated the index keeps the last record. */
  ghost predicate FromRecords(c: Context, records: seq<TensorRecord>) {
    forall x :: x in c.candidates ==>
      exists i :: IsLast(records, i, x.name) && records[i].format == c.baseFormat
        && x.extra == Q8Size(records[i].shape) - records[i].dataSize
  }

  ghost predicate IsLast(records: seq<TensorRecord>, i: int, name: string) {
    0 <= i < |records| && records[i].name == name && forall j :: i < j < |records| ==> records[j].name != name
  }

  function PromotedNames(ps: seq<Promoted>): (ns: set<string>) {
    set i | 0 <= i < |ps| :: ps[i].name
  }

  ghost predicate DistinctPromoted(ps: seq<Promoted>) {
    forall i, j :: 0 <= i < j < |ps| ==> ps[i].name != ps[j].name
  }

  lemma PromotedNamesAppend(ps: seq<Promoted>, p: Promoted)
    ensures PromotedNames(ps + [p]) == PromotedNames(ps) + {p.name}
  {
    forall x | x in PromotedNames(ps) + {p.name}
      ensures x in PromotedNames(ps + [p])
    {
      if x == p.name {
        assert (ps + [p])[|ps|].name == x;
      } else {
        var i :| 0 <= i < |ps| && ps[i].name == x;
        assert (ps + [p])[i].name == x;
      }
    }
  }

  /** As many promotions as distinct names means no name was promoted twice. */
  lemma {:induction false} CountsForceDistinct(ps: seq<Promoted>)
    ensures |PromotedNames(ps)| <= |ps|
    ensures |PromotedNames(ps)| == |ps| ==> DistinctPromoted(ps)
    decreases |ps|
  {
    if ps != [] {
      var init, last := ps[..|ps| - 1], ps[|ps| - 1];
      CountsForceDistinct(init);
      assert ps == init + [last];
      PromotedNamesAppend(init, last);
      assert forall i :: 0 <= i < |init| ==> init[i].name in PromotedNames(init);
    }
  }

  lemma {:induction false} RewriteStep(records: seq<TensorRecord>, names: set<string>, baseFormat: string,
                                       packed: TensorRecord -> nat, n: nat) returns (v: Rewrite, w: Rewrite)
    requires 0 < n <= |records| && RewriteRecords(records, names, baseFormat, packed, n).Some?
    ensures RewriteRecords(records, names, baseFormat, packed, n) == Some(w)
    ensures RewriteRecords(records, names, baseFormat, packed, n - 1) == Some(v)
    ensures var rec := records[n - 1];
      w.promoted == if rec.name in names then v.promoted + [Promoted(rec.name, Q8Size(rec.shape) - rec.dataSize)]
        else v.promoted
  {
    hide Q8Size;
    w := RewriteRecords(records, names, baseFormat, packed, n).value;
    v := RewriteRecords(records, names, baseFormat, packed, n - 1).value;
  }

  /** The promoted names are the requested ones that occur among the records. */
  lemma {:induction false} PromotedCover(records: seq<TensorRecord>, names: set<string>, baseFormat: string,
                                         packed: TensorRecord -> nat, n: nat)
    requires n <= |records| && RewriteRecords(records, names, baseFormat, packed, n).Some?
    ensures var w := RewriteRecords(records, names, baseFormat, packed, n).value;
      && PromotedNames(w.promoted) <= names
      && forall i :: 0 <= i < n && records[i].name in names ==> records[i].name in PromotedNames(w.promoted)
    decreases n
  {
    if n > 0 {
      hide RewriteRecords, PromotedNames;
      var v, w := RewriteStep(records, names, baseFormat, packed, n);
      PromotedCover(records, names, baseFormat, packed, n - 1);
      PromotedNamesAppend(v.promoted,
        Promoted(records[n - 1].name, Q8Size(records[n - 1].shape) - records[n - 1].dataSize));
    }
  }

  /** If no name is promoted twice, each promotion has the size change of the one record with its name. */
  lemma {:induction false} PromotionsMatch(records: seq<TensorRecord>, names: set<string>, baseFormat: string,
                                           packed: TensorRecord -> nat, n: nat)
    requires n <= |records| && RewriteRecords(records, names, baseFormat, packed, n).Some?
    requires DistinctPromoted(RewriteRecords(records, names, baseFormat, packed, n).value.promoted)
    ensures var ps := RewriteRecords(records, names, baseFormat, packed, n).value.promoted;
      forall k, i :: 0 <= k < |ps| && 0 <= i < n && records[i].name == ps[k].name ==>
        ps[k].extra == Q8Size(records[i].shape) - records[i].dataSize
    decreases n
  {
    if n > 0 {
      hide RewriteRecords, PromotedNames, Q8Size;
      var v, w := RewriteStep(records, names, baseFormat, packed, n);
      assert forall i :: 0 <= i < |v.promoted| ==> w.promoted[i] == v.promoted[i];
      assert DistinctPromoted(v.promoted);
      PromotionsMatch(records, names, baseFormat, packed, n - 1);
      PromotedCover(records, names, baseFormat, packed, n - 1);
      PromotedCover(records, names, baseFormat, packed, n);
      var rec := records[n - 1];
      NamesOfPromoted(v.promoted);
      NamesOfPromoted(w.promoted);
      forall k, i | 0 <= k < |w.promoted| && 0 <= i < n && records[i].name == w.promoted[k].name
        ensures w.promoted[k].extra == Q8Size(records[i].shape) - records[i].dataSize
      {
        if rec.name in names {
          assert w.promoted[|v.promoted|].name == rec.name;
        }
      }
    }
  }

  lemma NamesOfPromoted(ps: seq<Promoted>)
    ensures forall x :: x in PromotedNames(ps) <==> exists k :: 0 <= k < |ps| && ps[k].name == x
  {
  }

  /** Promotions with distinct names, each the size of a selected tensor of that name. */
  ghost predicate Matched(ps: seq<Promoted>, sel: seq<Pick>) {
    && DistinctPromoted(ps)
    && (forall i, j :: 0 <= i < j < |sel| ==> sel[i].item.name != sel[j].item.name)
    && (forall k :: 0 <= k < |ps| ==> ps[k].name in Names(sel))
    && (forall k, i :: 0 <= k < |ps| && 0 <= i < |sel| && sel[i].item.name == ps[k].name ==>
      ps[k].extra == sel[i].item.extra)
    && forall i :: 0 <= i < |sel| ==> sel[i].item.extra > 0
  }

  lemma {:induction false} MatchedStep(ps: seq<Promoted>, p: Promoted, sel: seq<Pick>) returns (j: nat)
    requires Matched(ps + [p], sel)
    ensures j < |sel| && sel[j].item.name == p.name && sel[j].item.extra == p.extra
    ensures Matched(ps, Without(sel, j)) && p.name !in PromotedNames(ps)
  {
    var all := ps + [p];
    assert all[|ps|] == p;
    j :| 0 <= j < |sel| && sel[j].item.name == p.name;
    assert forall k :: 0 <= k < |ps| ==> all[k] == ps[k] && ps[k].name != p.name;
    RemoveName(sel, j);
    NamesOfPromoted(ps);
    hide Names, PromotedNames;
    var rest := Without(sel, j);
    forall k, i | 0 <= k < |ps| && 0 <= i < |rest| && rest[i].item.name == ps[k].name
      ensures ps[k].extra == rest[i].item.extra
    {
      assert all[k].name == sel[if i < j then i else i + 1].item.name;
    }
  }

  /** Such promotions add up to at most the selection, and to all of it exactly when every
      selected tensor is among them. */
  lemma {:induction false} SumWithin(ps: seq<Promoted>, sel: seq<Pick>)
    requires Matched(ps, sel)
    ensures PromotedExtra(ps) <= SumExtra(sel)
    ensures PromotedExtra(ps) == SumExtra(sel) <==> Names(sel) <= PromotedNames(ps)
    decreases |ps|
  {
    if ps == [] {
      if sel != [] {
        assert sel[0].item.name in Names(sel);
        SumMember(sel, 0);
      }
    } else {
      var init, last := ps[..|ps| - 1], ps[|ps| - 1];
      assert ps == init + [last];
      hide Matched, Names, SumExtra, PromotedNames;
      var j := MatchedStep(init, last, sel);
      SumWithin(init, Without(sel, j));
      RemoveName(sel, j);
      RemoveExtra(sel, j);
      PromotedNamesAppend(init, last);
    }
  }

  function Without(sel: seq<Pick>, j: nat): (r: seq<Pick>)
    requires j < |sel|
    ensures |r| == |sel| - 1
    ensures forall i :: 0 <= i < |r| ==> r[i] == if i < j then sel[i] else sel[i + 1]
  {
    sel[..j] + sel[j + 1..]
  }

  lemma {:induction false} RemoveExtra(sel: seq<Pick>, j: nat)
    requires j < |sel|
    ensures SumExtra(sel) == SumExtra(Without(sel, j)) + sel[j].item.extra
  {
    var a, b := sel[..j], sel[j + 1..];
    assert sel == a + ([sel[j]] + b);
    assert SumExtra([sel[j]]) == sel[j].item.extra by { assert [sel[j]][..0] == []; }
    hide SumExtra;
    SumAppend(a, [sel[j]] + b);
    SumAppend([sel[j]], b);
    SumAppend(a, b);
  }

  lemma {:induction false} RemoveName(sel: seq<Pick>, j: nat)
    requires j < |sel|
    ensures Names(sel) == Names(Without(sel, j)) + {sel[j].item.name}
    ensures (forall i, k :: 0 <= i < k < |sel| ==> sel[i].item.name != sel[k].item.name) ==>
      sel[j].item.name !in Names(Without(sel, j))
  {
    var r := Without(sel, j);
    forall x | x in Names(sel) && x != sel[j].item.name
      ensures x in Names(r)
    {
      var i :| 0 <= i < |sel| && sel[i].item.name == x;
      if i < j {
        assert r[i] == sel[i];
      } else {
        assert r[i - 1] == sel[i];
      }
    }
    forall x | x in Names(r)
      ensures x in Names(sel)
    {
      var i :| 0 <= i < |r| && r[i].item.name == x;
      if i < j {
        assert r[i] == sel[i];
      } else {
        assert r[i] == sel[i + 1];
      }
    }
  }

  /** The promotions of a successful run match selected tensors of the policy. */
  lemma {:induction false} RunMatches(c: Context, sel: seq<Pick>, records: seq<TensorRecord>, names: set<string>,
                                      packed: TensorRecord -> nat)
    requires WellFormed(c) && PicksOk(c, sel) && FromRecords(c, records) && names <= Names(sel)
    requires RewriteRecords(records, names, c.baseFormat, packed, |records|).Some?
    requires |RewriteRecords(records, names, c.baseFormat, packed, |records|).value.promoted| == |names|
    ensures var ps := RewriteRecords(records, names, c.baseFormat, packed, |records|).value.promoted;
      PromotedNames(ps) == names && Matched(ps, sel)
  {
    var ps := RewriteRecords(records, names, c.baseFormat, packed, |records|).value.promoted;
    hide RewriteRecords, Q8Size, FromRecords;
    PromotedCover(records, names, c.baseFormat, packed, |records|);
    forall x | x in names
      ensures x in PromotedNames(ps)
    {
      var i := RecordOf(c, sel, records, x);
    }
    assert PromotedNames(ps) == names;
    CountsForceDistinct(ps);
    PromotionsMatch(records, names, c.baseFormat, packed, |records|);
    NamesOfPromoted(ps);
    forall k, i | 0 <= k < |ps| && 0 <= i < |sel| && sel[i].item.name == ps[k].name
      ensures ps[k].extra == sel[i].item.extra
    {
      assert sel[i].item.name in Names(sel);
      var r := RecordOf(c, sel, records, ps[k].name);
      assert sel[i].item in c.candidates;
      SizeOf(c, records, sel[i].item, r);
    }
    forall i | 0 <= i < |sel|
      ensures sel[i].item.extra > 0
    {
      assert sel[i].item in c.candidates;
    }
  }

  lemma {:induction false} RecordOf(c: Context, sel: seq<Pick>, records: seq<TensorRecord>, name: string)
    returns (i: nat)
    requires PicksOk(c, sel) && FromRecords(c, records) && name in Names(sel)
    ensures i < |records| && IsLast(records, i, name)
  {
    hide Q8Size;
    var j :| 0 <= j < |sel| && sel[j].item.name == name;
    assert sel[j].item in c.candidates;
    i :| IsLast(records, i, sel[j].item.name);
  }

  lemma {:induction false} SizeOf(c: Context, records: seq<TensorRecord>, x: Item, i: nat)
    requires FromRecords(c, records) && x in c.candidates && IsLast(records, i, x.name)
    ensures x.extra == Q8Size(records[i].shape) - records[i].dataSize
  {
    hide Q8Size;
    var j :| IsLast(records, j, x.name) && records[j].format == c.baseFormat
      && x.extra == Q8Size(records[j].shape) - records[j].dataSize;
    assert i == j;
  }

  /** When the writer succeeds: the promotion format is q8, something is asked for, every anchor is to be had,
      every name has source values, and the named records can be rewritten and are as many as the names. */
  lemma {:induction false} PromoteExactly(c: Context, st: State, records: seq<TensorRecord>, filters: seq<string>,
                                          limit: Option<int>, sources: set<string>, packed: TensorRecord -> nat)
    ensures var requested := Requested(st.selected, filters, limit, 0);
      var e := Expand(c, Available(st, records), requested, |requested|);
      Promote(c, st, records, filters, limit, sources, packed).Some? <==>
        && c.promotionFormat == "q8" && requested != [] && e.Some?
        && (forall x :: x in e.value.names ==> x in sources)
        && (forall i :: 0 <= i < |records| && records[i].name in e.value.names ==>
              records[i].format == c.baseFormat && packed(records[i]) == Q8Size(records[i].shape))
        && |NamedAt(records, NameSet(e.value.names), |records|)| == |e.value.names|
  {
    var requested := Requested(st.selected, filters, limit, 0);
    var e := Expand(c, Available(st, records), requested, |requested|);
    hide Requested, Expand, RewriteRecords, Q8Size, Names;
    if e.Some? {
      var names := NameSet(e.value.names);
      assert forall x :: x in names <==> x in e.value.names;
      ExpandExactly(c, Available(st, records), requested, |requested|);
      DistinctCount(e.value.names);
      RewriteExactly(records, names, c.baseFormat, packed, |records|);
      hide NamedAt, NameSet, Available, RecordNames, SkippedNames, Expanded;
    }
  }

  /** An anchor can be had if a record, a pick or a skip has its name. */
  lemma {:induction false} AvailableIs(st: State, records: seq<TensorRecord>, x: string)
    ensures x in Available(st, records) <==>
      || (exists rec :: rec in records && rec.name == x)
      || (exists p :: p in st.selected && p.item.name == x)
      || (exists k :: k in st.skipped && k.item.name == x)
  {
    assert forall rec :: rec in records ==> rec.name in RecordNames(records);
    assert forall p :: p in st.selected ==> p.item.name in Names(st.selected);
    assert forall k :: k in st.skipped ==> k.item.name in SkippedNames(st.skipped);
  }

  lemma {:induction false} DistinctCount(names: seq<string>)
    requires Distinct(names)
    ensures |NameSet(names)| == |names|
    decreases |names|
  {
    if names != [] {
      var init, last := names[..|names| - 1], names[|names| - 1];
      DistinctCount(init);
      assert forall x :: x in NameSet(init) <==> x in init;
      assert forall x :: x in NameSet(names) <==> x in names;
      assert names == init + [last];
      assert NameSet(names) == NameSet(init) + {last};
    }
  }

  lemma {:induction false} PromoteParts(c: Context, st: State, records: seq<TensorRecord>, filters: seq<string>,
                                        limit: Option<int>, sources: set<string>, packed: TensorRecord -> nat)
    requires Promote(c, st, records, filters, limit, sources, packed).Some?
    ensures var r := Promote(c, st, records, filters, limit, sources, packed).value;
      var requested, names := Requested(st.selected, filters, limit, 0), NameSet(r.expansion.names);
      && Expand(c, Available(st, records), requested, |requested|) == Some(r.expansion)
      && RewriteRecords(records, names, c.baseFormat, packed, |records|) == Some(r.rewrite)
      && |r.rewrite.promoted| == |names|
  {
    hide Requested, Expand, RewriteRecords, NameSet, Available;
  }

  /** For every candidate order, budget, filter and limit: what the writer promotes is part of the
      policy's selection, its extra bytes stay within the budget, and the payloads grow by exactly
      that much. */
  lemma {:induction false} BudgetEndToEnd(c: Context, budget: nat, records: seq<TensorRecord>, filters: seq<string>,
                                          limit: Option<int>, sources: set<string>, packed: TensorRecord -> nat)
    requires WellFormed(c) && FromRecords(c, records)
    ensures var st := Run(c, budget, |c.candidates|);
      var r := Promote(c, st, records, filters, limit, sources, packed);
      r.Some? ==>
        && PromotedNames(r.value.rewrite.promoted) == NameSet(r.value.expansion.names) <= Names(st.selected)
        && PromotedExtra(r.value.rewrite.promoted) <= SumExtra(st.selected) <= budget
        && TotalSize(r.value.rewrite.records) == TotalSize(records) + PromotedExtra(r.value.rewrite.promoted)
  {
    PolicyHolds(c, budget, |c.candidates|);
    var st := Run(c, budget, |c.candidates|);
    assert PicksOk(c, st.selected) && AnchorsFirst(c, st.selected) && SumExtra(st.selected) <= budget;
    hide *;
    if Promote(c, st, records, filters, limit, sources, packed).Some? {
      PromotedWithin(c, st, records, filters, limit, sources, packed);
    }
  }

  lemma {:induction false} PromotedWithin(c: Context, st: State, records: seq<TensorRecord>, filters: seq<string>,
                                          limit: Option<int>, sources: set<string>, packed: TensorRecord -> nat)
    requires WellFormed(c) && FromRecords(c, records) && PicksOk(c, st.selected) && AnchorsFirst(c, st.selected)
    requires Promote(c, st, records, filters, limit, sources, packed).Some?
    ensures var r := Promote(c, st, records, filters, limit, sources, packed).value;
      && PromotedNames(r.rewrite.promoted) == NameSet(r.expansion.names) <= Names(st.selected)
      && PromotedExtra(r.rewrite.promoted) <= SumExtra(st.selected)
      && TotalSize(r.rewrite.records) == TotalSize(records) + PromotedExtra(r.rewrite.promoted)
  {
    hide *;
    var r := Promote(c, st, records, filters, limit, sources, packed).value;
    var requested, names := Requested(st.selected, filters, limit, 0), NameSet(r.expansion.names);
    PromoteParts(c, st, records, filters, limit, sources, packed);
    RequestedAreSelected(c, st.selected, filters, limit, 0);
    assert Names(st.selected) <= Available(st, records);
    ExpansionInside(c, st.selected, Available(st, records), requested, |requested|);
    NamesInside(r.expansion.names, Names(st.selected));
    RunMatches(c, st.selected, records, names, packed);
    SumWithin(r.rewrite.promoted, st.selected);
    RewriteConserves(records, names, c.baseFormat, packed, |records|);
    assert records[..|records|] == records;
  }

  lemma NamesInside(names: seq<string>, pool: set<string>)
    requires Within(names, pool)
    ensures NameSet(names) <= pool
  {
  }

  /** With no filter and no limit no anchor is added, and the promoted bytes are the policy's
      selected bytes if and only if no selected tensor has an empty name, which the writer skips. */
  lemma {:induction false} UnfilteredEqualsPolicy(c: Context, budget: nat, records: seq<TensorRecord>,
                                                  sources: set<string>, packed: TensorRecord -> nat)
    requires WellFormed(c) && FromRecords(c, records)
    ensures var st := Run(c, budget, |c.candidates|);
      var r := Promote(c, st, records, [], None, sources, packed);
      r.Some? ==>
        && r.value.expansion == Expansion(NonEmptyNames(st.selected), [])
        && (PromotedExtra(r.value.rewrite.promoted) == SumExtra(st.selected) <==> "" !in Names(st.selected))
  {
    var st := Run(c, budget, |c.candidates|);
    var r := Promote(c, st, records, [], None, sources, packed);
    PolicyHolds(c, budget, |c.candidates|);
    if r.Some? {
      var requested, names := Requested(st.selected, [], None, 0), NameSet(r.value.expansion.names);
      assert PicksOk(c, st.selected) && AnchorsFirst(c, st.selected);
      hide *;
      PromoteParts(c, st, records, [], None, sources, packed);
      RequestedAreSelected(c, st.selected, [], None, 0);
      RequestedUnfiltered(st.selected);
      ListedFirst(c, st.selected);
      ExpandKeeps(c, Available(st, records), requested, |requested|);
      assert requested[..|requested|] == requested;
      NamesOfList(requested, st.selected);
      RunMatches(c, st.selected, records, names, packed);
      SumWithin(r.value.rewrite.promoted, st.selected);
    }
  }

  lemma {:induction false} NamesOfList(names: seq<string>, sel: seq<Pick>)
    requires names == NonEmptyNames(sel)
    ensures NameSet(names) == Names(sel) - {""}
  {
    hide NonEmptyNames, Names;
    forall x
      ensures x in NameSet(names) <==> x in Names(sel) - {""}
    {
      NonEmptyMembers(sel, x);
    }
  }

  // ---- a policy the writer does not promote in full ----

  const UNNAMED: Item := Item("", "", 18)
  const NAMED: Item := Item("a", "", 18)
  const TWO_ITEMS: Context := Context([UNNAMED, NAMED], "mq4", "q8")
  const TWO_RECORDS: seq<TensorRecord> := [TensorRecord("", "mq4", [32], 16), TensorRecord("a", "mq4", [32], 16)]
  const BOTH: seq<Pick> := [Pick(UNNAMED, Plain), Pick(NAMED, Plain)]

  /** A quantiser that packs every tensor to its Q8 size. */
  function Q8Bytes(r: TensorRecord): nat {
    Q8Size(r.shape)
  }

  lemma {:induction false} ShortHasNoAnchor(c: Context, name: string)
    requires |name| <= 1
    ensures AnchorOf(c, name) == None
  {
    assert REPLACEMENTS[0..] == REPLACEMENTS;
    NoReplacement(name, 0);
  }

  /** A tensor without anchor that fits is selected alone. */
  lemma {:induction false} PlainStep(c: Context, st: State, item: Item)
    requires AnchorOf(c, item.name) == None && item.name !in Names(st.selected) && item.extra <= st.remaining
    ensures Step(c, st, item) == State(st.selected + [Pick(item, Plain)], st.skipped, st.remaining - item.extra)
  {
    hide AnchorOf, Names;
    var picks := [Pick(item, Plain)];
    assert picks[1..] == [] && picks[..0] == [];
    assert Fresh(picks, Names(st.selected)) == picks;
    assert SumExtra(picks) == item.extra;
  }

  lemma {:induction false} BothSelected()
    ensures Run(TWO_ITEMS, 36, 2) == State(BOTH, [], 0)
  {
    ShortHasNoAnchor(TWO_ITEMS, "");
    ShortHasNoAnchor(TWO_ITEMS, "a");
    hide AnchorOf, Step;
    PlainStep(TWO_ITEMS, State([], [], 36), UNNAMED);
    var first := [Pick(UNNAMED, Plain)];
    assert [] + first == first && Names(first) == {""};
    PlainStep(TWO_ITEMS, State(first, [], 18), NAMED);
    assert first + [Pick(NAMED, Plain)] == BOTH;
    assert Run(TWO_ITEMS, 36, 0) == State([], [], 36);
    assert Run(TWO_ITEMS, 36, 1) == State(first, [], 18);
  }

  lemma {:induction false} OneRequested()
    ensures Requested(BOTH, [], None, 0) == ["a"] && "" in Names(BOTH)
  {
    assert BOTH[0].item.name == "" && BOTH[1..] == [Pick(NAMED, Plain)] && BOTH[1..][1..] == [];
    assert Requested(BOTH[1..], [], None, 0) == ["a"];
  }

  lemma {:induction false} OneExpanded(c: Context, available: set<string>)
    ensures Expand(c, available, ["a"], 1) == Some(Expansion(["a"], [])) && NameSet(["a"]) == {"a"}
  {
    ShortHasNoAnchor(c, "a");
    hide AnchorOf;
    assert Expand(c, available, ["a"], 0) == Some(Expansion([], []));
    assert [] + ["a"] == ["a"];
    assert ["a"][0] == "a";
  }

  lemma {:induction false} OneRewritten()
    ensures RewriteRecords(TWO_RECORDS, {"a"}, "mq4", Q8Bytes, 2).Some?
    ensures |RewriteRecords(TWO_RECORDS, {"a"}, "mq4", Q8Bytes, 2).value.promoted| == 1
  {
    hide Q8Size;
    assert RewriteRecords(TWO_RECORDS, {"a"}, "mq4", Q8Bytes, 0) == Some(Rewrite([], []));
    var w := RewriteRecords(TWO_RECORDS, {"a"}, "mq4", Q8Bytes, 1);
    assert w.Some? && w.value.promoted == [];
  }

  lemma FromTwoRecords()
    ensures WellFormed(TWO_ITEMS) && FromRecords(TWO_ITEMS, TWO_RECORDS)
  {
    assert [32][1..] == [] && ElementCount([32]) == 32 && Q8Size([32]) == 34;
    assert IsLast(TWO_RECORDS, 0, "") && IsLast(TWO_RECORDS, 1, "a");
  }

  /** Two tensors, one of them without a name, are selected; the writer succeeds and promotes only the other. */
  lemma {:induction false} UnnamedIsLost()
    ensures var st := Run(TWO_ITEMS, 36, |TWO_ITEMS.candidates|);
      var r := Promote(TWO_ITEMS, st, TWO_RECORDS, [], None, {"a"}, Q8Bytes);
      r.Some? && PromotedExtra(r.value.rewrite.promoted) < SumExtra(st.selected)
  {
    var st := State(BOTH, [], 0);
    BothSelected();
    OneRequested();
    OneExpanded(TWO_ITEMS, Available(st, TWO_RECORDS));
    OneRewritten();
    FromTwoRecords();
    assert |TWO_ITEMS.candidates| == 2 && |TWO_RECORDS| == 2 && TWO_ITEMS.promotionFormat == "q8"
      && TWO_ITEMS.baseFormat == "mq4";
    hide TWO_ITEMS, TWO_RECORDS, BOTH, Requested, Expand, RewriteRecords, NameSet, Available, Run, Names, SumExtra;
    hide WellFormed, FromRecords;
    UnfilteredEqualsPolicy(TWO_ITEMS, 36, TWO_RECORDS, {"a"}, Q8Bytes);
    BudgetEndToEnd(TWO_ITEMS, 36, TWO_RECORDS, [], None, {"a"}, Q8Bytes);
  }
}
