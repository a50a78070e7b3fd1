/** The speculative decoding loop of scripts/dflash_diag_iter1_tau.py. The target is any
    next-token function of a token prefix, the drafter any function of the cycle and of the tokens it
    sees. */
module SpecDecode {

  type Token = int

  /** Plain greedy decoding with the target alone: the prompt followed by n tokens. */
  function Greedy(next: seq<Token> -> Token, prompt: seq<Token>, n: nat): (r: seq<Token>)
    ensures |r| == |prompt| + n && prompt <= r
  {
    if n == 0 then prompt else
      var p := Greedy(next, prompt, n - 1);
      p + [next(p)]
  }

  /** One target pass: entry i is the target's token after the cache and the block up to i. */
  function Posterior(next: seq<Token> -> Token, cache: seq<Token>, block: seq<Token>): (post: seq<Token>)
    ensures |post| == |block|
    ensures forall i :: 0 <= i < |post| ==> post[i] == next(cache + block[..i + 1])
  {
    seq(|block|, i requires 0 <= i < |block| => next(cache + block[..i + 1]))
  }

  /** Entry i says whether proposal i agrees with the target. */
  function Matches(block: seq<Token>, post: seq<Token>): (m: seq<nat>)
    requires 1 <= |block| == |post|
    ensures |m| == |block| - 1
    ensures forall i :: 0 <= i < |m| ==> m[i] == if block[i + 1] == post[i] then 1 else 0
  {
    seq(|block| - 1, i requires 0 <= i < |block| - 1 => if block[i + 1] == post[i] then 1 else 0)
  }

  /** Sum of the cumulative products of m, started from carry. */
  function CumprodSum(m: seq<nat>, carry: nat): (s: nat) {
    if m == [] then 0 else carry * m[0] + CumprodSum(m[1..], carry * m[0])
  }

  lemma {:induction false} NoCarry(m: seq<nat>)
    ensures CumprodSum(m, 0) == 0
  {
    if m != [] {
      NoCarry(m[1..]);
    }
  }

  /** The sum of cumulative products is the length of the leading run of agreements. */
  lemma {:induction false} LeadingRun(m: seq<nat>)
    requires forall i :: 0 <= i < |m| ==> m[i] <= 1
    ensures var a := CumprodSum(m, 1);
      a <= |m| && (forall i :: 0 <= i < a ==> m[i] == 1) && (a < |m| ==> m[a] == 0)
  {
    if m != [] {
      if m[0] == 0 {
        NoCarry(m[1..]);
      } else {
        LeadingRun(m[1..]);
      }
    }
  }

  /** If a block starts with the target's own token and its first a proposals agree with the
      target, then the block's first a+1 tokens continue greedy decoding, and the target's
      token after them is the next greedy one. */
  lemma {:induction false} AcceptedIsGreedy(next: seq<Token> -> Token, prompt: seq<Token>, n: nat,
                                            block: seq<Token>, a: nat)
    requires a < |block| && block[0] == next(Greedy(next, prompt, n))
    requires forall i :: 0 <= i < a ==>
      block[i + 1] == Posterior(next, Greedy(next, prompt, n), block)[i]
    ensures Greedy(next, prompt, n) + block[..a + 1] == Greedy(next, prompt, n + a + 1)
    ensures Posterior(next, Greedy(next, prompt, n), block)[a] == next(Greedy(next, prompt, n + a + 1))
  {
    var g := Greedy(next, prompt, n);
    if a == 0 {
      assert block[..1] == [block[0]];
    } else {
      AcceptedIsGreedy(next, prompt, n, block, a - 1);
      assert block[..a + 1] == block[..a] + [block[a]];
      assert g + block[..a + 1] == (g + block[..a]) + [block[a]];
    }
  }

  function Sum(s: seq<nat>): (t: nat) {
    if s == [] then 0 else Sum(s[..|s| - 1]) + s[|s| - 1]
  }

  lemma SumAppend(s: seq<nat>, x: nat)
    ensures Sum(s + [x]) == Sum(s) + x
  {
    assert (s + [x])[..|s|] == s;
  }

  /** A drafter: proposals from the cycle number, the tokens in its cache, the tokens whose features are
      new to it, and the block it is to fill. */
  type Drafter = (nat, seq<Token>, seq<Token>, seq<Token>) -> seq<Token>

  /** The block of one cycle before drafting: the token at start, then masks. */
  function MaskedBlock(first: Token, mask: Token, B: nat): (b: seq<Token>)
    requires B >= 1
    ensures |b| == B && b[0] == first && forall i :: 0 < i < B ==> b[i] == mask
  {
    [first] + seq(B - 1, _ => mask)
  }

  /** The proposals of cycle i, counted from 0, when the cycles before it accepted these lengths: the draft
      cache ends where the cycle before began, and everything greedy since then is new. */
  ghost function Proposals(draft: Drafter, next: seq<Token> -> Token, prompt: seq<Token>, mask: Token, B: nat,
                           accepts: seq<nat>, i: nat): (d: seq<Token>)
    requires B >= 1 && i <= |accepts|
  {
    var g := Greedy(next, prompt, Sum(accepts[..i]));
    var seen := if i == 0 then 0 else |prompt| + Sum(accepts[..i - 1]);
    var from := if seen <= |g| then seen else |g|;
    draft(i + 1, g[..from], g[from..], MaskedBlock(next(g), mask, B))
  }

  /** a is the length of the longest prefix of d that continues greedy decoding after n + 1 tokens. */
  ghost predicate AgreesFor(d: seq<Token>, next: seq<Token> -> Token, prompt: seq<Token>, n: nat, a: nat) {
    && a <= |d|
    && (forall j :: 0 <= j < a ==> d[j] == next(Greedy(next, prompt, n + 1 + j)))
    && (a < |d| ==> d[a] != next(Greedy(next, prompt, n + 1 + a)))
  }

  /** The loop variables of the decoder at a loop head. */
  datatype Head = Head(
    committed: nat,             // start - num_input
    targetCache: seq<Token>,
    draftCache: seq<Token>,     // tokens whose features the draft cache holds
    hidden: seq<Token>)         // tokens whose features are handed to the next draft call

  /** The target cache holds exactly the tokens before start, the draft cache and the pending
      features together cover the same tokens, and all of them are greedy. */
  ghost predicate Aligned(h: Head, next: seq<Token> -> Token, prompt: seq<Token>) {
    && h.targetCache == Greedy(next, prompt, h.committed)
    && h.draftCache + h.hidden == h.targetCache
  }

  /** The buffer: greedy up to and including position start, untouched mask after it. */
  ghost predicate BufferGreedy(buf: seq<Token>, next: seq<Token> -> Token, prompt: seq<Token>, n: nat, mask: Token) {
    && |prompt| + n < |buf|
    && buf[..|prompt| + n + 1] == Greedy(next, prompt, n + 1)
    && forall i :: |prompt| + n < i < |buf| ==> buf[i] == mask
  }

  lemma {:induction false} BufferStart(buf: seq<Token>, next: seq<Token> -> Token, prompt: seq<Token>, n: nat,
                                       mask: Token)
    requires BufferGreedy(buf, next, prompt, n, mask)
    ensures buf[..|prompt| + n] == Greedy(next, prompt, n)
    ensures buf[|prompt| + n] == next(Greedy(next, prompt, n))
  {
    var k := |prompt| + n;
    assert buf[..k + 1] == buf[..k] + [buf[k]];
  }

  /** After the prefill nothing beyond the first token is committed. */
  lemma {:induction false} Prefilled(buf: seq<Token>, next: seq<Token> -> Token, prompt: seq<Token>, mask: Token)
    requires |prompt| < |buf| && buf[..|prompt| + 1] == prompt + [next(prompt)]
    requires forall i :: |prompt| < i < |buf| ==> buf[i] == mask
    ensures BufferGreedy(buf, next, prompt, 0, mask)
    ensures Aligned(Head(0, prompt, [], prompt), next, prompt)
    ensures Sum([]) == 0
  {
    assert Greedy(next, prompt, 0) == prompt;
    assert [] + prompt == prompt;
  }

  lemma {:induction false} BufferAdvance(buf: seq<Token>, buf': seq<Token>, next: seq<Token> -> Token,
                                         prompt: seq<Token>, n: nat, mask: Token, block: seq<Token>, a: nat)
    requires BufferGreedy(buf, next, prompt, n, mask) && |buf'| == |buf|
    requires a < |block| && |prompt| + n + a + 1 < |buf|
    requires block[0] == buf[|prompt| + n]
    requires forall i :: 0 <= i < a ==> block[i + 1] == Posterior(next, Greedy(next, prompt, n), block)[i]
    requires buf'[..|prompt| + n] == buf[..|prompt| + n]
    requires buf'[|prompt| + n..|prompt| + n + a + 1] == block[..a + 1]
    requires buf'[|prompt| + n + a + 1] == Posterior(next, Greedy(next, prompt, n), block)[a]
    requires buf'[|prompt| + n + a + 2..] == buf[|prompt| + n + a + 2..]
    ensures BufferGreedy(buf', next, prompt, n + a + 1, mask)
    ensures buf'[..|prompt| + n + a + 1] == Greedy(next, prompt, n) + block[..a + 1] == Greedy(next, prompt, n + a + 1)
  {
    BufferStart(buf, next, prompt, n, mask);
    AcceptedIsGreedy(next, prompt, n, block, a);
    hide Posterior;
    var k := |prompt| + n;
    assert buf'[..k + a + 1] == buf'[..k] + buf'[k..k + a + 1];
    assert buf'[..k + a + 2] == buf'[..k + a + 1] + [buf'[k + a + 1]];
    forall i | k + a + 1 < i < |buf'|
      ensures buf'[i] == mask
    {
      assert buf'[i] == buf'[k + a + 2..][i - (k + a + 2)] == buf[k + a + 2..][i - (k + a + 2)] == buf[i];
    }
  }

  /** Cycle i of a longer run is cycle i of the shorter one. */
  lemma {:induction false} ProposalsKeep(draft: Drafter, next: seq<Token> -> Token, prompt: seq<Token>, mask: Token,
                                         B: nat, accepts: seq<nat>, a: nat, i: nat)
    requires B >= 1 && i <= |accepts|
    ensures Proposals(draft, next, prompt, mask, B, accepts + [a], i)
         == Proposals(draft, next, prompt, mask, B, accepts, i)
    ensures Sum((accepts + [a])[..i]) == Sum(accepts[..i])
  {
    assert (accepts + [a])[..i] == accepts[..i];
    if i > 0 {
      assert (accepts + [a])[..i - 1] == accepts[..i - 1];
    }
  }

  /** What the loop hands to the drafter is what its history says. */
  lemma {:induction false} ContextIs(draft: Drafter, next: seq<Token> -> Token, prompt: seq<Token>, mask: Token, B: nat,
                                     accepts: seq<nat>, h: Head, block: seq<Token>)
    requires B >= 1 && Aligned(h, next, prompt) && h.committed == Sum(accepts)
    requires |h.draftCache| == if accepts == [] then 0 else |prompt| + Sum(accepts[..|accepts| - 1])
    requires |block| == B && block[0] == next(Greedy(next, prompt, h.committed))
    requires forall i :: 0 < i < B ==> block[i] == mask
    ensures draft(|accepts| + 1, h.draftCache, h.hidden, block)
         == Proposals(draft, next, prompt, mask, B, accepts, |accepts|)
  {
    var g, c := Greedy(next, prompt, h.committed), |h.draftCache|;
    assert accepts[..|accepts|] == accepts;
    assert g[..c] == h.draftCache && g[c..] == h.hidden;
    assert block == MaskedBlock(next(g), mask, B);
  }

  /** The capped loop. For every target, drafter, block size, prompt and cap: everything up to and including
      position `start` is what greedy decoding with the target alone produces, and each accept length is one
      more than the longest prefix of that cycle's own proposals that greedy decoding agrees with. */
  method SpecGenerateCapped(next: seq<Token> -> Token, draft: Drafter, mask: Token, B: nat,
                            input: seq<Token>, maxNew: nat, maxCycles: int)
    returns (output: seq<Token>, accepts: seq<nat>)
    requires B >= 1 && |input| >= 1
    requires forall c, x, y, z :: |draft(c, x, y, z)| == B - 1
    ensures |output| == |input| + maxNew + B
    ensures BufferGreedy(output, next, input, Sum(accepts), mask)
    ensures forall i :: 0 <= i < |accepts| ==> 1 <= accepts[i] <= B
    ensures forall i :: 0 <= i < |accepts| ==>
      AgreesFor(Proposals(draft, next, input, mask, B, accepts, i), next, input, Sum(accepts[..i]), accepts[i] - 1)
    ensures |accepts| <= Sum(accepts) && (accepts != [] ==> Sum(accepts) - accepts[|accepts| - 1] < maxNew)
    ensures Sum(accepts) >= maxNew || |accepts| == (if maxCycles < 0 then 0 else maxCycles)
    ensures maxCycles >= maxNew ==> Sum(accepts) >= maxNew
  {
    hide BufferGreedy, Greedy, Sum, Aligned, Proposals, AgreesFor;
    var numInput := |input|;
    var maxLength := numInput + maxNew;
    var buf := new Token[maxLength + B](_ => mask);
    // prefill: the target reads the prompt, its last logit gives the first token
    forall i | 0 <= i < numInput {
      buf[i] := input[i];
    }
    buf[numInput] := next(input);
    assert buf[..numInput + 1] == input + [next(input)];
    Prefilled(buf[..], next, input, mask);
    var h := Head(0, input, [], input);
    accepts := [];
    var start := numInput;
    var cycles := 0;
    while start < maxLength && cycles < maxCycles
      invariant start == numInput + h.committed <= maxLength + B - 1 && h.committed == Sum(accepts)
      invariant Aligned(h, next, input)
      invariant |h.draftCache| == if accepts == [] then 0 else |input| + Sum(accepts[..|accepts| - 1])
      invariant BufferGreedy(buf[..], next, input, h.committed, mask)
      invariant forall i :: 0 <= i < |accepts| ==> 1 <= accepts[i] <= B
      invariant forall i :: 0 <= i < |accepts| ==>
        AgreesFor(Proposals(draft, next, input, mask, B, accepts, i), next, input, Sum(accepts[..i]), accepts[i] - 1)
      invariant cycles == |accepts| <= h.committed
      invariant cycles <= (if maxCycles < 0 then 0 else maxCycles)
      invariant accepts != [] ==> h.committed - accepts[|accepts| - 1] < maxNew
      decreases maxLength - start
    {
      cycles := cycles + 1;
      var a, h' := Cycle(next, draft, cycles, B, input, buf, start, mask, h, accepts);
      SumAppend(accepts, a);
      ghost var all := accepts + [a];
      forall i | 0 <= i < |all|
        ensures AgreesFor(Proposals(draft, next, input, mask, B, all, i), next, input, Sum(all[..i]), all[i] - 1)
      {
        ProposalsKeep(draft, next, input, mask, B, accepts, a, i);
        if i == |accepts| {
          assert accepts[..i] == accepts;
        }
      }
      assert all[..|accepts|] == accepts;
      accepts := accepts + [a];
      start := start + a;
      h := h';
    }
    output := buf[..];
  }

  /** Overwrite the buffer from start with the accepted part of the block and one more token. */
  method Commit(buf: array<Token>, start: nat, block: seq<Token>, accept: nat, bonus: Token)
    requires accept < |block| && start + accept + 1 < buf.Length
    modifies buf
    ensures buf[..start] == old(buf[..start])
    ensures buf[start..start + accept + 1] == block[..accept + 1]
    ensures buf[start + accept + 1] == bonus
    ensures buf[start + accept + 2..] == old(buf[start + accept + 2..])
  {
    forall i | start <= i < start + accept + 1 {
      buf[i] := block[i - start];
    }
    buf[start + accept + 1] := bonus;
  }

  /** The block read from the buffer: its first token is greedy, the others are masks. */
  lemma {:induction false} BlockRead(buf: seq<Token>, next: seq<Token> -> Token, prompt: seq<Token>, n: nat,
                                     mask: Token, B: nat)
    requires BufferGreedy(buf, next, prompt, n, mask) && B >= 1 && |prompt| + n + B <= |buf|
    ensures var block := buf[|prompt| + n..|prompt| + n + B];
      block[0] == next(Greedy(next, prompt, n)) && forall i :: 0 < i < B ==> block[i] == mask
  {
    BufferStart(buf, next, prompt, n, mask);
  }

  /** The accepted proposals are the longest prefix that greedy decoding agrees with. */
  lemma {:induction false} LongestRun(next: seq<Token> -> Token, prompt: seq<Token>, n: nat, d: seq<Token>, a: nat)
    requires a <= |d|
    requires var block := [next(Greedy(next, prompt, n))] + d;
      var post := Posterior(next, Greedy(next, prompt, n), block);
      (forall i :: 0 <= i < a ==> block[i + 1] == post[i]) && (a < |d| ==> block[a + 1] != post[a])
    ensures AgreesFor(d, next, prompt, n, a)
  {
    var block := [next(Greedy(next, prompt, n))] + d;
    hide Greedy;
    forall j | 0 <= j < a
      ensures d[j] == next(Greedy(next, prompt, n + 1 + j))
    {
      AcceptedIsGreedy(next, prompt, n, block, j);
    }
    AcceptedIsGreedy(next, prompt, n, block, a);
  }

  lemma {:induction false} CacheSizes(h: Head, next: seq<Token> -> Token, prompt: seq<Token>)
    requires Aligned(h, next, prompt)
    ensures h.targetCache == Greedy(next, prompt, h.committed) && |h.targetCache| == |prompt| + h.committed
    ensures |h.draftCache| + |h.hidden| == |prompt| + h.committed
  {
    hide Greedy;
  }

  /** Cropping both caches to the new start keeps them aligned with the committed tokens. */
  lemma {:induction false} HeadAdvances(h: Head, h': Head, next: seq<Token> -> Token, prompt: seq<Token>,
                                        drafted: seq<Token>, block: seq<Token>, a: nat)
    requires Aligned(h, next, prompt) && a < |block| && block[0] == next(Greedy(next, prompt, h.committed))
    requires forall i :: 0 <= i < a ==>
      block[i + 1] == Posterior(next, Greedy(next, prompt, h.committed), block)[i]
    requires |h.draftCache| + |h.hidden| == |prompt| + h.committed == |h.targetCache|
    requires h' == Head(h.committed + a + 1, (h.targetCache + block)[..|prompt| + h.committed + a + 1],
                        (h.draftCache + h.hidden + drafted)[..|prompt| + h.committed], block[..a + 1])
    ensures Aligned(h', next, prompt) && |h'.draftCache| == |prompt| + h.committed
  {
    hide Greedy, Posterior;
    AcceptedIsGreedy(next, prompt, h.committed, block, a);
    assert h'.targetCache == h.targetCache + block[..a + 1];
    assert h'.draftCache == h.draftCache + h.hidden;
  }

  /** One target pass over the block: how many proposals agree, and the target's own token after those. */
  method Verify(next: seq<Token> -> Token, cache: seq<Token>, block: seq<Token>) returns (accept: nat, bonus: Token)
    requires block != []
    ensures accept < |block| && bonus == Posterior(next, cache, block)[accept]
    ensures forall i :: 0 <= i < accept ==> block[i + 1] == Posterior(next, cache, block)[i]
    ensures accept < |block| - 1 ==> block[accept + 1] != Posterior(next, cache, block)[accept]
  {
    hide Posterior;
    var post := Posterior(next, cache, block);
    accept := CumprodSum(Matches(block, post), 1);
    LeadingRun(Matches(block, post));
    bonus := post[accept];
  }

  /** One decode cycle: draft a block, verify it in one target pass, commit the agreed prefix
      and the target's own next token, and crop both caches to the new start. */
  method Cycle(next: seq<Token> -> Token, draft: Drafter, cycle: nat, B: nat, ghost prompt: seq<Token>,
               buf: array<Token>, start: nat, ghost mask: Token, h: Head, ghost accepts: seq<nat>)
    returns (advance: nat, h': Head)
    requires B >= 1 && start == |prompt| + h.committed && start + B < buf.Length
    requires forall c, x, y, z :: |draft(c, x, y, z)| == B - 1
    requires Aligned(h, next, prompt) && BufferGreedy(buf[..], next, prompt, h.committed, mask)
    requires cycle == |accepts| + 1 && h.committed == Sum(accepts)
    requires |h.draftCache| == if accepts == [] then 0 else |prompt| + Sum(accepts[..|accepts| - 1])
    modifies buf
    ensures 1 <= advance <= B
    ensures h'.committed == h.committed + advance && Aligned(h', next, prompt) && |h'.draftCache| == start
    ensures BufferGreedy(buf[..], next, prompt, h'.committed, mask)
    ensures AgreesFor(Proposals(draft, next, prompt, mask, B, accepts, |accepts|), next, prompt, h.committed,
                      advance - 1)
  {
    hide Greedy, Posterior, Matches, CumprodSum, BufferGreedy, Sum, Proposals, AgreesFor, Aligned;
    ghost var before := buf[..];
    CacheSizes(h, next, prompt);
    BufferStart(before, next, prompt, h.committed, mask);
    BlockRead(before, next, prompt, h.committed, mask, B);
    var block := buf[start..start + B];
    // the draft call sees positions [|draftCache|, start + B): one per pending feature and block token
    assert start + B - |h.draftCache| == |h.hidden| + B;
    ContextIs(draft, next, prompt, mask, B, accepts, h, block);
    var proposals := draft(cycle, h.draftCache, h.hidden, block);
    var draftCache := h.draftCache + h.hidden + block;
    draftCache := draftCache[..start];
    block := [block[0]] + proposals;
    var accept, bonus := Verify(next, h.targetCache, block);
    var targetCache := h.targetCache + block;
    Commit(buf, start, block, accept, bonus);
    advance := accept + 1;
    targetCache := targetCache[..start + advance];
    h' := Head(h.committed + advance, targetCache, draftCache, block[..accept + 1]);
    BufferAdvance(before, buf[..], next, prompt, h.committed, mask, block, accept);
    HeadAdvances(h, h', next, prompt, before[start..start + B], block, accept);
    LongestRun(next, prompt, h.committed, proposals, accept);
  }
}
