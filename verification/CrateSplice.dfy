/** Replacing the generated block of a map file (generate_crate and the comparison of check_crate,
    scripts/check-crate-maps.py). */
module CrateSplice {
  import opened Wrappers
  import opened Text

  datatype Markers = Markers(begin: string, end: string)

  /** The end marker is not longer than the begin marker, and neither is empty. */
  predicate Usable(m: Markers) {
    0 < |m.end| <= |m.begin|
  }

  /** A block opens with the begin marker, closes with the end marker and holds no earlier one. */
  ghost predicate IsBlock(block: string, m: Markers) {
    && |m.begin| + |m.end| <= |block|
    && At(block, m.begin, 0)
    && At(block, m.end, |block| - |m.end|)
    && forall j :: 0 <= j < |block| - |m.end| ==> !At(block, m.end, j)
  }

  /** The new text of an existing map, None when a marker is missing. */
  function Regenerate(text: string, block: string, m: Markers): Option<string> {
    var b, e := Find(text, m.begin, 0), Find(text, m.end, 0);
    if b.None? || e.None? then None
    else Some(Spliced(text, block, b.value, e.value + |m.end|))
  }

  /** The text before b, the block, and the text from `after` on. */
  function Spliced(text: string, block: string, b: nat, after: nat): string
    requires b <= |text| && after <= |text|
  {
    text[..b] + block + text[after..]
  }

  /** check_crate finds the block it expects; Python slices with crossed ends are empty. */
  predicate UpToDate(text: string, block: string, m: Markers) {
    var b, e := Find(text, m.begin, 0), Find(text, m.end, 0);
    b.Some? && e.Some? && (if b.value <= e.value + |m.end| then text[b.value..e.value + |m.end|] else "") == block
  }

  // ---- where the markers end up ----

  /** The pieces of a regenerated text. */
  ghost predicate Pieces(text: string, m: Markers, b: nat, e: nat) {
    Find(text, m.begin, 0) == Some(b) && Find(text, m.end, 0) == Some(e)
  }

  lemma {:induction false} SamePrefix(text: string, block: string, m: Markers, b: nat, tail: string)
    requires At(text, m.begin, b) && IsBlock(block, m)
    ensures var made := text[..b] + block + tail;
      b + |m.begin| <= |text| && b + |m.begin| <= |made| && made[..b + |m.begin|] == text[..b + |m.begin|]
  {
    var n := b + |m.begin|;
    var made := text[..b] + block + tail;
    assert block[..|m.begin|] == block[0..0 + |m.begin|] == m.begin;
    assert made[..n] == text[..b] + block[..|m.begin|];
    assert text[..n] == text[..b] + text[b..n];
  }

  /** The first begin marker stays where it was. */
  lemma {:induction false} BeginStays(text: string, block: string, m: Markers, b: nat, tail: string)
    requires Usable(m) && Find(text, m.begin, 0) == Some(b) && IsBlock(block, m)
    ensures Find(text[..b] + block + tail, m.begin, 0) == Some(b)
  {
    var made := text[..b] + block + tail;
    SamePrefix(text, block, m, b, tail);
    hide IsBlock, At;
    forall j | 0 <= j <= b
      ensures At(made, m.begin, j) <==> At(text, m.begin, j)
    {
      AtInPrefix(text, made, b + |m.begin|, m.begin, j);
    }
    FindFirst(made, m.begin, b);
  }

  /** An end marker before the first begin marker stays the first one. */
  lemma {:induction false} EarlyEndStays(text: string, block: string, m: Markers, b: nat, e: nat, tail: string)
    requires Usable(m) && Pieces(text, m, b, e) && e < b && IsBlock(block, m)
    ensures Find(text[..b] + block + tail, m.end, 0) == Some(e)
  {
    var made := text[..b] + block + tail;
    SamePrefix(text, block, m, b, tail);
    hide IsBlock, At;
    forall j | 0 <= j <= e
      ensures At(made, m.end, j) <==> At(text, m.end, j)
    {
      AtInPrefix(text, made, b + |m.begin|, m.end, j);
    }
    FindFirst(made, m.end, e);
  }

  /** An occurrence inside the block part is one of the block. */
  lemma {:induction false} InBlock(prefix: string, block: string, tail: string, pat: string, j: nat)
    requires |prefix| <= j && j + |pat| <= |prefix| + |block|
    ensures At(prefix + block + tail, pat, j) <==> At(block, pat, j - |prefix|)
  {
    var made := prefix + block + tail;
    assert made[j..j + |pat|] == block[j - |prefix|..j - |prefix| + |pat|];
  }

  /** If the first end marker comes after the first begin marker, the block's own is the first. */
  lemma {:induction false} BlockEndIsFirst(text: string, block: string, m: Markers, b: nat, e: nat, tail: string)
    requires Usable(m) && Pieces(text, m, b, e) && b <= e && IsBlock(block, m)
    ensures Find(text[..b] + block + tail, m.end, 0) == Some(b + |block| - |m.end|)
  {
    var made := text[..b] + block + tail;
    var last := b + |block| - |m.end|;
    SamePrefix(text, block, m, b, tail);
    forall j | 0 <= j < last
      ensures !At(made, m.end, j)
    {
      hide At;
      if j < b {
        AtInPrefix(text, made, b + |m.begin|, m.end, j);
      } else {
        InBlock(text[..b], block, tail, m.end, j);
      }
    }
    InBlock(text[..b], block, tail, m.end, last);
    hide At;
    FindFirst(made, m.end, last);
  }

  lemma {:induction false} ThreeParts(a: string, x: string, c: string)
    ensures var made := a + x + c;
      made[..|a|] == a && made[|a|..|a| + |x|] == x && made[|a| + |x|..] == c
  {
  }

  lemma {:induction false} Settled(prefix: string, block: string, tail: string, m: Markers)
    requires |m.end| <= |block|
    requires Find(prefix + block + tail, m.begin, 0) == Some(|prefix|)
    requires Find(prefix + block + tail, m.end, 0) == Some(|prefix| + |block| - |m.end|)
    ensures UpToDate(prefix + block + tail, block, m)
    ensures Regenerate(prefix + block + tail, block, m) == Some(prefix + block + tail)
  {
    hide Find;
    ThreeParts(prefix, block, tail);
  }

  lemma {:induction false} NotUpToDate(text: string, block: string, m: Markers, b: nat, e: nat)
    requires Usable(m) && IsBlock(block, m) && Pieces(text, m, b, e) && e < b
    ensures !UpToDate(text, block, m)
  {
    hide Find;
    assert e + |m.end| <= |text|;
    var found := if b <= e + |m.end| then text[b..e + |m.end|] else "";
    assert |found| < |block|;
  }

  lemma {:induction false} MarkerBounds(text: string, block: string, m: Markers, b: nat, e: nat)
    requires IsBlock(block, m) && Pieces(text, m, b, e)
    ensures b <= |text| && e + |m.end| <= |text| && |m.begin| + |m.end| <= |block|
    ensures Regenerate(text, block, m) == Some(Spliced(text, block, b, e + |m.end|))
  {
  }

  // ---- the theorems ----

  /** With the markers in order, regeneration keeps the text before the begin marker and after the
      end marker, leaves a block that check_crate accepts, and a second run changes nothing. */
  lemma {:induction false} RegenerateSettles(text: string, block: string, m: Markers, b: nat, e: nat)
    requires Usable(m) && IsBlock(block, m) && Pieces(text, m, b, e) && b <= e
    ensures var made := Spliced(text, block, b, e + |m.end|);
      && Regenerate(text, block, m) == Some(made)
      && UpToDate(made, block, m)
      && Regenerate(made, block, m) == Some(made)
  {
    hide At, Find, UpToDate, IsBlock, Regenerate;
    MarkerBounds(text, block, m, b, e);
    var prefix, tail := text[..b], text[e + |m.end|..];
    BeginStays(text, block, m, b, tail);
    BlockEndIsFirst(text, block, m, b, e, tail);
    Settled(prefix, block, tail, m);
  }

  /** With an end marker before the first begin marker a run makes the text longer, leaves the two
      markers where they were, and check_crate accepts neither the old text nor the new one. */
  lemma {:induction false} RegenerateGrows(text: string, block: string, m: Markers, b: nat, e: nat)
    requires Usable(m) && IsBlock(block, m) && Pieces(text, m, b, e) && e < b
    ensures var made := Spliced(text, block, b, e + |m.end|);
      && Regenerate(text, block, m) == Some(made)
      && |made| > |text| && Pieces(made, m, b, e)
      && !UpToDate(text, block, m) && !UpToDate(made, block, m)
  {
    hide At, Find, UpToDate, IsBlock, Regenerate;
    MarkerBounds(text, block, m, b, e);
    var tail := text[e + |m.end|..];
    BeginStays(text, block, m, b, tail);
    EarlyEndStays(text, block, m, b, e, tail);
    NotUpToDate(text, block, m, b, e);
    NotUpToDate(Spliced(text, block, b, e + |m.end|), block, m, b, e);
  }

  /** The text after n runs. */
  function Repeated(text: string, block: string, m: Markers, n: nat): Option<string> {
    if n == 0 then Some(text)
    else
      var t := Repeated(text, block, m, n - 1);
      if t.None? then None else Regenerate(t.value, block, m)
  }

  /** So every run makes the text longer, and check_crate never accepts it. */
  lemma {:induction false} GrowsForever(text: string, block: string, m: Markers, b: nat, e: nat, n: nat)
    requires Usable(m) && IsBlock(block, m) && Pieces(text, m, b, e) && e < b
    ensures var t, u := Repeated(text, block, m, n), Repeated(text, block, m, n + 1);
      && t.Some? && Pieces(t.value, m, b, e) && !UpToDate(t.value, block, m)
      && u.Some? && |u.value| > |t.value|
    decreases n
  {
    hide At, Find, UpToDate, IsBlock, Regenerate, Pieces;
    if n > 0 {
      GrowsForever(text, block, m, b, e, n - 1);
      RegenerateGrows(Repeated(text, block, m, n - 1).value, block, m, b, e);
    }
    RegenerateGrows(Repeated(text, block, m, n).value, block, m, b, e);
  }

  /** Regeneration is idempotent, and its result up to date, exactly if the markers are in order. */
  lemma {:induction false} IdempotentExactly(text: string, block: string, m: Markers, b: nat, e: nat)
    requires Usable(m) && IsBlock(block, m) && Pieces(text, m, b, e)
    ensures var made := Regenerate(text, block, m);
      && made.Some?
      && (Regenerate(made.value, block, m) == made <==> b <= e)
      && (UpToDate(made.value, block, m) <==> b <= e)
  {
    if b <= e {
      RegenerateSettles(text, block, m, b, e);
    } else {
      RegenerateGrows(text, block, m, b, e);
    }
    hide IsBlock, At, Find;
  }
}
