# hipfire scripts: models and proofs

Dafny models of the parts of hipfire's Python tooling whose correctness is hardest to see, with proofs
of what they promise. Each group of modules follows one component.

- **Rotation and quantisers** (`Hadamard`, `Fwht`, `Mq4`, `E2m1`, `Hfp4`, `Hfp4Row`, `Binary16`, `StoredScale`):
  the sign-flipped 256-point Walsh-Hadamard rotation in its three loop forms, the alternating least-squares
  refit of 4-bit affine blocks, the E2M1 row encoder and the binary16 conversion. Rotation and quantisers
  are over exact reals, binary16 and the stored row scale over bit patterns.
- **HFQ container** (`Bytes`, `Json`, `Hfq`, `HfqLaws`, `HfqPatch`, `HfqExample`, `Utf8Laws`): the byte-level
  writer and readers and in-place patching. Names are byte strings with a UTF-8 test, metadata is raw bytes.
- **Promotion budget** (`Policy`, `Promotion`): the greedy allocator with anchor bundles, the later
  re-expansion of its choice, and the writer that spends the budget.
- **Speculative decoding** (`SpecDecode`): the target is any function of a token prefix, the drafter any
  function of the cycle and the tokens it is given; caches are token sequences.
- **Gate driver** (`Requests`, `Session`, `SessionDriver`, `Ownership`): the message protocol as a class
  checked against a monitor of its trace, for every behaviour of the daemon, pipe and clock; and the
  ownership of the daemon process as a state machine over all interleavings of the main thread, the signal
  handler, the memory sampler and the OS.
- **Code-end checker** (`ElfFormat`, `ElfLaws`, `CodeEnd`, `CodeEndCheck`, `CodeEndLaws`, `CodeEndConverse`,
  `CodeEndExact`): the relation between two ELF files that the checker enforces, the loops that enforce it, and
  what it says, exactly, of the bytes and fields of either file.
- **Its synthetic objects** (`Records`, `CodeEndSynth`, `SynthBytes`, `SynthWriter`, `SynthParse`,
  `SynthSymbols`, `SynthAccepts`, `SynthExamples`): the bytes the self-test's writer produces, that they read
  back, and when the checker accepts them.
- **Crate maps and scratch growth** (`Text`, `CrateMap`, `CrateMapLaws`, `CrateText`, `CrateSplice`,
  `Growers`): printer, parsers and splice of the generated block, and the call-graph closure.

`Wrappers` holds the `Option` and `Result` types they share, `Arithmetic` two functions.

`dafny verify dfyconfig.toml` checks everything.

Where a property does not hold of the code as written, the code is kept and the exact condition is proved:

- A non-empty HFQ tensor can be patched with every payload of its size if and only if its extent starts
  after the header and the index (`HfqPatch.PatchableExactlyWhenClear`, and `HfqPatch.PatchesSafeExactly` for
  sequences of tensors). Neither reader checks this, and `HfqPatch.OverlapBreaksPatch` gives a file that both
  accept and a patch destroys.
- The promoted bytes equal the policy's only if no selected tensor has an empty name, because
  `selected_policy_items` drops empty names (`Promotion.UnfilteredEqualsPolicy`); `Promotion.UnnamedIsLost`
  is a policy whose unnamed tensor is never promoted.
- Regenerating a map file is idempotent only if its first end marker does not come before its first begin
  marker; otherwise the file grows with every run and is never up to date (`CrateSplice.GrowsForever`, and
  `CrateText.MisorderedMap` for a concrete file).
- The driver blocks signals around its check-then-signal and reap steps, but only in the calling thread;
  the model lets the handler run there as well, and safety still holds because interrupted code never
  resumes. What can be lost is the exit status: it is lost exactly if a signal is handled between the wait
  that reaps the leader and the recording of its status (`Ownership.StatusIsReal`), and
  `Ownership.StatusCanBeLost` is such a run.
- A group signal follows a reap if and only if someone else reaps the leader inside the window between the
  check and the send it guards and the main thread's next move is its own step, not the handler's
  (`Ownership.OwnershipSafe`); `Ownership.RaceBreaks` is such a run.
- The self-test's accept case holds for every list of kernels and every tail if and only if the tail is the
  code-end tail, some kernel has code, and no kernel's name reads as `_DYNAMIC`
  (`SynthAccepts.SynthesisAccepted`): the checker takes such a kernel for the dynamic section's symbol and
  reports its address. `SynthExamples.ClashRefused` is such a kernel, `SynthExamples.PlainAccepted` its twin
  under another name.

For one property only a sufficient condition is proved: a reported peak is from a read made before any reap
if no foreign reap falls inside a read's check-then-read window (`Ownership.OwnershipSafe`).
`Ownership.ReadRaceBreaks` shows that the condition cannot be dropped; beyond it the outcome turns on which
of two values read is the larger.

One reading of the code that the model keeps: a `commit_ready` is matched with Python's `==`, so `true` or
`1.0` matches attempt 1, while `done` insists on a true integer.

## Model

| member | source | states |
|---|---|---|
| `Hadamard.WhtIsHadamardSum` | scripts/astrea.py:1007-1022 | the recursive fast transform is, entry by entry, the Hadamard matrix (signs by bit overlap) applied to the input, for every power-of-two length |
| `Hadamard.WhtTwice` | scripts/astrea.py:1194-1207 | applying the transform twice multiplies by the length |
| `Hadamard.WhtEnergy` | scripts/astrea.py:1178-1191 | the transform multiplies the sum of squares by the length |
| `Fwht.StageDoubles` | scripts/astrea.py:1011-1021 | one butterfly stage turns block transforms of size s into block transforms of size 2s; this is what the stride loop repeats |
| `Fwht.PairLoop` | scripts/analyze_quant_mse.py:47-51 | the innermost in-place loop: sums in the first half, differences in the second, everything else untouched |
| `Fwht.NestedStage` | scripts/analyze_quant_mse.py:45-52 | the nested form of one stage, in place, is Stage of the old contents |
| `Fwht.SliceStage` | scripts/astrea.py:1183-1187 | the block-slice form of one stage is the same Stage |
| `Fwht.ReshapeStage` | scripts/analyze_quant_mse.py:79-84 | the reshaped form of one stage is the same Stage |
| `Fwht.TransformNested` | scripts/astrea.py:1010-1021 | the in-place stride loop leaves the full transform of the old array |
| `Fwht.TransformSlices` | scripts/astrea.py:1181-1188 | the slice loop leaves the same transform |
| `Fwht.TransformReshape` | scripts/analyze_quant_mse.py:74-85 | the reshape loop leaves the same transform |
| `Fwht.GenFwhtSigns` | scripts/astrea.py:994-1000 | the generator loop gives the specified sign sequence, all entries 1 or -1 |
| `Fwht.FirstOpening` | scripts/astrea.py:994-1003 | the first sixteen signs from seed 42, as literals |
| `Fwht.SecondOpening` | scripts/astrea.py:994-1004 | the first sixteen signs from seed 1042, as literals |
| `Fwht.RotateNested` | scripts/analyze_quant_mse.py:40-54 | the nested rotation is signs, transform, scaling by 1/16, signs |
| `Fwht.RotateSlices` | scripts/astrea.py:1178-1191 | the slice rotation is the same function |
| `Fwht.RotateReshape` | scripts/analyze_quant_mse.py:57-86 | the reshape rotation is the same function |
| `Fwht.CpuFwht256` | scripts/astrea.py:1007-1022 | raises exactly on a length other than 256, otherwise gives the forward rotation |
| `Fwht.InverseFwht256` | scripts/astrea.py:1194-1207 | the inverse loop gives the rotation with the sign vectors swapped |
| `Fwht.RotateRoundTrip` | scripts/astrea.py:1178-1207 | for any sign vectors, rotating and rotating back with the signs swapped is the identity |
| `Fwht.RotateEnergy` | scripts/astrea.py:1178-1191 | the rotation preserves the sum of squares |
| `Fwht.RotateDistance` | scripts/astrea.py:1178-1191 | the rotation preserves squared distances |
| `Fwht.ForwardInverse` | scripts/astrea.py:1178-1207 | forward and inverse undo each other both ways, and an error made in the rotated domain is the same error in the original domain |
| `Fwht.ForwardIsHadamard` | scripts/astrea.py:1007-1022 | entry i of the forward rotation is the signed Hadamard sum over 16 |
| `Mq4.SolveIsOptimal` | scripts/astrea.py:1236-1245 | with a variance above 1e-12 and a positive covariance no scale and zero fit the codes better than the solved ones; otherwise the scale is kept and no zero fits better at it |
| `Mq4.CodeIsNearest` | scripts/astrea.py:1246-1247 | rounding and clipping picks a code with the least error among all sixteen |
| `Mq4.CodesAreOptimal` | scripts/astrea.py:1246-1247 | so the requantised block has the least squared error among all code blocks |
| `Mq4.MinMaxError` | scripts/astrea.py:1260-1266 | every value of a min/max block decodes to within a thirtieth of the block's range, the least and the greatest exactly |
| `Mq4.ConstantBlock` | scripts/astrea.py:1260-1266 | a block of equal values gets scale 1, its value as zero point and all-zero codes |
| `Mq4.MinMaxDistance` | scripts/astrea.py:1251-1300 | rotation and all, a min/max block is within 256 times the square of a thirtieth of its rotated range |
| `Mq4.LeastSquaresFits` | scripts/astrea.py:1222-1248 | where the min/max codes vary and grow with the values, the least-squares fit is no worse than any scale and zero for those codes |
| `Mq4.RefitImproves` | scripts/astrea.py:1235-1247 | one solve-then-requantise round never increases the squared error and keeps the scale positive |
| `Mq4.RefitsImprove` | scripts/astrea.py:1235-1248 | nor does any number of rounds |
| `Mq4.RefitsRounds` | scripts/astrea.py:1235-1248 | no round keeps the fit, and each further one solves and then requantises |
| `Mq4.FitRounds` | scripts/astrea.py:1235 | a least-squares fit makes the asked number of rounds from the min/max fit, at least one |
| `Mq4.AffineLsRefit` | scripts/astrea.py:1222-1248 | the loop runs max(1, iters) rounds of the specification, and from a positive scale ends no worse than it began |
| `Mq4.DecodeDistance` | scripts/astrea.py:1299-1300 | the squared distance of a decoded block is the fit error |
| `Mq4.BlockNeverWorse` | scripts/astrea.py:1251-1271 | after the inverse rotation a least-squares block is at most as far from the original block as a min/max block |
| `Mq4.RowNeverWorse` | scripts/astrea.py:1293-1300 | the same for every row of whole blocks |
| `Mq4.ThresholdIs` | scripts/astrea.py:1210-1219 | the clip threshold is the ratio times the largest magnitude of the row |
| `Mq4.ClipExactly` | scripts/astrea.py:1210-1219 | a clipped row keeps every value within the threshold and moves the others to its nearer end |
| `Mq4.AcceptedExactly` | scripts/astrea.py:1210-1258 | the code raises exactly on a width that is no multiple of 256, a ratio that is not positive, and empty rows under a ratio below 1 |
| `Mq4.DequantizedBlock` | scripts/astrea.py:1293-1300 | each block of the result is that block of the clipped row, fitted and rotated back on its own |
| `Mq4.LeastSquaresNeverLoses` | scripts/astrea.py:1293-1300 | end to end for every matrix, clip ratio and iteration count: both modes accept the same inputs, and least squares reconstructs the clipped matrix (the input itself from ratio 1 on) at least as closely |
| `E2m1.ThresholdIsNearest` | scripts/astrea.py:1354-1366 | for every real the threshold form picks the first code of least error in the table, ties and negatives included |
| `E2m1.Round` | scripts/astrea.py:1025-1033 | the table scan returns the first nearest code, which is the threshold form for every real |
| `E2m1.InRangeError` | scripts/astrea.py:1354-1366 | within magnitude 6 no value is further than 1 from its code |
| `E2m1.CeilLog2Brackets` | scripts/astrea.py:1073 | the exponent is the least power of two at or above its argument |
| `E2m1.CeilLog2Unique` | scripts/astrea.py:1073 | no other integer has that property |
| `Hfp4.ExpCovers` | scripts/astrea.py:1070-1078 | the clamped block exponent always covers the block maximum over 6 and never needs its upper clamp |
| `Hfp4.ExpIsLeast` | scripts/astrea.py:1070-1078 | every smaller exponent byte would not cover it |
| `Hfp4.ScaledInRange` | scripts/astrea.py:1070-1085 | every scaled value stays within magnitude 6: nothing saturates |
| `Hfp4.CodeError` | scripts/astrea.py:1052-1086 | what a value's code stands for is within one block step of the value, zero rows included |
| `Hfp4.LargestCode` | scripts/astrea.py:1059-1085 | the largest magnitude of a row is six row scales; its block has exponent byte 127 and its code is 7 or 15 |
| `Hfp4Row.EncodeBlock` | scripts/astrea.py:1069-1085 | writes one block's exponent and code pairs in place and nothing else |
| `Hfp4Row.QuantizeRow` | scripts/astrea.py:1052-1086 | raises exactly on a length that is no multiple of 32, a header value that does not fit or a scale beyond binary32; otherwise the bytes hold the scale's binary16 bits, the header and every block |
| `Hfp4Row.ExactReadsBack` | scripts/astrea.py:1052-1086 | with the exact row scale every value reads back within row scale times block scale of the original |
| `Hfp4Row.LargestExact` | scripts/astrea.py:1059-1085 | in the encoded bytes a value of the largest magnitude has exponent byte 127 and code 7 or 15 by its sign, and decodes to itself |
| `Hfp4Row.RowReadsBack` | scripts/astrea.py:1052-1086 | with the scale as stored, truncated to binary16, every value reads back within row scale plus six steps of the stored scale, times block scale |
| `StoredScale.PackIsNearest` | scripts/astrea.py:966-967 | packing a real as binary32 gives a nearest binary32 value |
| `StoredScale.HeaderExactly` | scripts/astrea.py:970-987 | the stored scale is zero exactly below 2^-24 and infinite exactly from 2^16 on; otherwise it is the floor in binary16 |
| `StoredScale.StoredWithinStep` | scripts/astrea.py:1062 | the stored scale is within one binary16 step of the exact one, rounding to binary32 included |
| `Binary16.MasksPartition` | scripts/astrea.py:1121-1155 | of the five masks exactly one selects a pattern, and it stores the scalar result |
| `Binary16.ConvertAll` | scripts/astrea.py:1113-1157 | the five masked stores equal the branching conversion on all 2^32 patterns |
| `Binary16.Truncates` | scripts/astrea.py:978-987 | below 2^16 the result is the floor in steps of binary16: truncation toward zero by less than one step, over normal, subnormal and underflow |
| `Binary16.LargestBelow` | scripts/astrea.py:978-987 | equivalently, a binary16 magnitude is at most the value exactly if it is at most the result |
| `Binary16.OverflowsFrom` | scripts/astrea.py:979-980 | finite values become infinity exactly from 2^16 on |
| `Binary16.Monotone` | scripts/astrea.py:970-987 | a larger finite value never converts to a smaller magnitude |
| `Binary16.SpecialsKept` | scripts/astrea.py:970-977 | NaN stays NaN, infinity stays infinity, nothing else becomes a NaN, and the sign bit is kept |
| `Bytes.UnpackPack` | scripts/astrea.py:1676-1711 | little-endian packing is undone by unpacking |
| `Json.JsonObjectEnd` | scripts/astrea.py:376-398 | the scan loop finds what the specification finds |
| `Json.ObjectEndIgnoresRest` | scripts/astrea.py:376-398 | bytes after the object do not change where it ends |
| `Json.ObjectEndIsExact` | scripts/astrea.py:376-398 | for every object of the bracket-and-string grammar followed by any bytes, the scan ends exactly after it |
| `Hfq.ReadHfqLayout` | scripts/astrea.py:1613-1673 | the reader loop, with its error cases, is the specification ReadLayout |
| `Hfq.WriteHfqLayout` | scripts/astrea.py:1676-1711 | the writer loop, with its error cases, is the specification WriteLayout |
| `HfqLaws.RoundTrip` | scripts/astrea.py:1613-1711 | reading a written layout gives it back, for every layout the writer accepts whose metadata is one object and whose names are UTF-8 |
| `HfqLaws.RoundTripExactly` | scripts/astrea.py:1613-1711 | a layout the writer accepts reads back as itself if and only if its metadata is one object and its names are UTF-8 |
| `HfqLaws.WriterAccepts` | scripts/astrea.py:1676-1711 | the writer raises exactly when a field does not fit its width or a payload has the wrong length |
| `HfqLaws.RecordsCanonical` | scripts/astrea.py:1632-1665 | the index and payload bytes of an accepted file are the ones the writer produces for its records |
| `HfqLaws.RewriteIsStable` | scripts/astrea.py:1613-1711 | the writer accepts the layout of any accepted file exactly if the new payload offset fits 64 bits, as it does for every file shorter than 2^64 - 32 bytes, and the rewritten file reads back as the same layout |
| `HfqLaws.JsonObjectIsOneObject` | scripts/astrea.py:376-398 | every object of the grammar meets the round trip's metadata condition |
| `HfqPatch.CollectTensors` | scripts/astrea.py:544-582 | the index loop gives the specified entries, later duplicates winning |
| `HfqPatch.ReadHfqIndex` | scripts/astrea.py:514-602 | the index reader is its specification |
| `HfqExample.ReadersAgree` | scripts/astrea.py:514-602 | on a file the layout reader accepts the index reader fails exactly if the count field would run into the payloads, and otherwise its entries are the records |
| `HfqExample.OffsetErrors` | scripts/astrea.py:526-532 | which of its errors the index reader raises for crossed, overlong or equal offsets |
| `Utf8Laws.ValidExactly` | scripts/astrea.py:1634-1637 | a name decodes as UTF-8 if and only if it is the encoding of some sequence of Unicode scalar values |
| `HfqExample.ExampleFile` | scripts/astrea.py:1613-1711 | one file byte by byte: what the writer produces, what both readers find in it |
| `HfqPatch.HfqFile.PatchTensor` | scripts/astrea.py:1931-1951 | refuses a wrong size and leaves the file alone; otherwise overwrites exactly the extent |
| `HfqPatch.EntriesMatch` | scripts/astrea.py:544-582 | the entries of the index match the records the layout reader finds field by field, with contiguous extents |
| `HfqPatch.PatchFrame` | scripts/astrea.py:1931-1951 | if the extent is clear of header and index, the patched file re-reads with the same header, metadata and index and one payload replaced |
| `HfqPatch.LookupFindsRecord` | scripts/astrea.py:544-582 | the index leads from each name to the last record of that name: its type, shape, group size, data size and payload offset |
| `HfqPatch.PatchByName` | scripts/astrea.py:1931-1951 | patching through the index replaces the payload of the last tensor of that name, if its extent is clear of header and index or empty |
| `HfqPatch.PatchesFrame` | scripts/astrea.py:1931-1951 | any sequence of patches whose non-empty extents are clear of header and index keeps every byte before the payloads and re-reads as the layout with those payloads replaced |
| `HfqPatch.PatchAllByte` | scripts/astrea.py:1931-1951 | every byte of a file patched at distinct tensors comes from the one patch that writes it, else from the file, else is a zero of the extension |
| `HfqPatch.PatchOrderIrrelevant` | scripts/astrea.py:1931-1951 | for every file and every index, the final file does not depend on the order of patches to distinct tensors, wherever their extents lie |
| `HfqPatch.PatchesSafeExactly` | scripts/astrea.py:1931-1951 | a sequence of tensors re-reads correctly after all patches of their sizes if and only if the extent of each non-empty one starts after header and index |
| `HfqPatch.ParseFixesIndex` | scripts/astrea.py:1613-1673 | two files that parse alike agree on every header, count and index byte, wherever their payloads lie |
| `HfqPatch.PatchableExactlyWhenClear` | scripts/astrea.py:1931-1951 | a non-empty tensor re-reads correctly after every patch of its size if and only if its extent starts after header and index |
| `HfqPatch.FilePatchableExactly` | scripts/astrea.py:1931-1951 | all tensors of a file with a non-empty one can be patched if and only if header and index end before the payload area |
| `HfqPatch.OverlapBreaksPatch` | scripts/astrea.py:1613-1673 | neither reader checks that the index ends before the payloads: a concrete file both accept that a patch of its only tensor makes unreadable |
| `Policy.AnchorNeedsNone` | scripts/astrea.py:1725-1739 | an anchor differs from its tensor and needs no anchor of its own |
| `Policy.AnchorExactly` | scripts/astrea.py:1718-1739 | a name has an anchor exactly if it ends in one of the six suffixes under the five base and two promotion formats, and the anchor is its prefix with that suffix's anchor suffix |
| `Policy.SelectWithinBudget` | scripts/astrea.py:3169-3226 | the selection loop is the run of its step function |
| `Policy.StepKeeps` | scripts/astrea.py:3175-3224 | every iteration keeps the allocator's invariant |
| `Policy.PolicyHolds` | scripts/astrea.py:3160-3226 | for every candidate order and budget: selected and skipped partition the candidates, anchors precede their dependents, selected bytes plus the rest are the budget, and no skipped bundle would still fit |
| `Policy.ReportHolds` | scripts/astrea.py:3175-3224 | every pick is marked with its own anchor, or as plain, or as the anchor of the tensor after it; every skip over budget has the size of its bundle |
| `Promotion.SelectedPolicyItems` | scripts/astrea.py:1796-1808 | the filter loop is its specification |
| `Promotion.RequestedExactly` | scripts/astrea.py:1796-1808 | the names requested are exactly the first named picks with some filter in name or alias, in order, up to the limit, which never acts below one |
| `Promotion.RequestedAreSelected` | scripts/astrea.py:1796-1808 | requested names are distinct selected names and never empty |
| `Promotion.ExpandSelection` | scripts/astrea.py:1755-1793 | the expansion loop, with its error case, is its specification |
| `Promotion.ExpandExactly` | scripts/astrea.py:1755-1793 | an expansion lists exactly the requests and their anchors, each once, anchors before their dependents |
| `Promotion.ExpandFails` | scripts/astrea.py:1773-1791 | it fails exactly if some request needs an anchor that is neither available nor asked for before it |
| `Promotion.AvailableIs` | scripts/astrea.py:1842-1846 | an anchor is available exactly if a record, a pick or a skip has its name |
| `Promotion.ExpansionInside` | scripts/astrea.py:1755-1793 | expanding part of a policy never leaves the policy, never fails and keeps every request |
| `Promotion.ExpandKeeps` | scripts/astrea.py:1755-1793 | a list that has its anchors first is returned unchanged with no anchor added |
| `Promotion.PromoteRecords` | scripts/astrea.py:1855-1901 | the rewrite loop, with its error cases, is its specification |
| `Promotion.RewriteExactly` | scripts/astrea.py:1855-1901 | the rewrite succeeds exactly if every named record is in the base format and packs to its Q8 size; named records become q8 of that size, all others stay, and the promotions list them in order with their growth |
| `Promotion.Q8SizeIs` | scripts/astrea.py:1715-1716 | the Q8 size is 34 bytes for each of the fewest groups of 32 that hold all elements |
| `Promotion.RewriteConserves` | scripts/astrea.py:1855-1901 | the rewritten payloads are larger by exactly the reported extra bytes |
| `Promotion.WritePromotionCandidate` | scripts/astrea.py:1825-1928 | the writer is its specification and reports the sum of the promoted bytes |
| `Promotion.PromoteExactly` | scripts/astrea.py:1825-1908 | when the writer succeeds, as a condition on the policy, the records, the sources and the packed sizes |
| `Promotion.BudgetEndToEnd` | scripts/astrea.py:1825-1928 | for every candidate order, budget, filter and limit the promoted set is inside the selection, its bytes stay within the budget, and the payloads grow by exactly that |
| `Promotion.UnfilteredEqualsPolicy` | scripts/astrea.py:1796-1928 | without filter and limit no anchor is added, and the promoted bytes equal the selected bytes if and only if no selected name is empty (the writer drops empty names) |
| `Promotion.UnnamedIsLost` | scripts/astrea.py:1796-1808 | a policy with an unnamed tensor within budget whose promoted bytes are fewer than the selected ones |
| `SpecDecode.LeadingRun` | scripts/dflash_diag_iter1_tau.py:122 | the sum of cumulative products is the length of the leading run of agreements |
| `SpecDecode.AcceptedIsGreedy` | scripts/dflash_diag_iter1_tau.py:116-125 | an accepted prefix continues greedy decoding and the target's next token is the next greedy one |
| `SpecDecode.BufferAdvance` | scripts/dflash_diag_iter1_tau.py:121-125 | one commit advances the greedy part of the buffer by exactly the accepted tokens |
| `SpecDecode.Commit` | scripts/dflash_diag_iter1_tau.py:123-124 | writes the accepted block and one more token, and nothing else |
| `SpecDecode.Verify` | scripts/dflash_diag_iter1_tau.py:116-122 | one target pass accepts exactly the leading agreements and gives the target's token after them |
| `SpecDecode.Cycle` | scripts/dflash_diag_iter1_tau.py:103-128 | one cycle advances by 1 to B: one more than the longest run of the drafter's proposals that greedy decoding agrees with; target cache, draft cache and pending features stay aligned with the committed tokens |
| `SpecDecode.SpecGenerateCapped` | scripts/dflash_diag_iter1_tau.py:69-129 | for every target, drafter, block size, prompt and cap the committed prefix is target-only greedy decoding; each accept length is one more than the longest run of that cycle's proposals that agrees with it; writes stay in the buffer, accept lengths sum to the progress, and without the cap the loop ends complete |
| `Requests.BuildRequests` | scripts/agentic_gate_driver.py:111-136 | fails exactly on a cell without five fields; attempt ids are 1, 2, ... in order and ids are distinct |
| `Requests.TurnsDistinct` | scripts/agentic_gate_driver.py:120-135 | no two requests of any cell list share an id |
| `Requests.TurnsOfCell` | scripts/agentic_gate_driver.py:119-135 | the one or two requests of each cell, field by field and where they stand; there are no others |
| `Requests.DecimalReads` | scripts/agentic_gate_driver.py:126 | the number in an id reads back as the cell's index |
| `Session.OneOutstanding` | scripts/agentic_gate_driver.py:479-517 | at every moment of every session the protocol allows at most one generate is outstanding |
| `Session.EventTests` | scripts/agentic_gate_driver.py:498-515 | the three tests of an event, on its fields |
| `Session.CommitsCovered` | scripts/agentic_gate_driver.py:501-506 | for every id and attempt, commits never outnumber matching commit_ready events |
| `Session.CleanMeansComplete` | scripts/agentic_gate_driver.py:563-594 | a clean end means: loaded, then each request in order sent and answered by the done with its own id and attempt, with no error in between, then unload sent and acknowledged |
| `SessionDriver.Driver.NextEvent` | scripts/agentic_gate_driver.py:436-459 | skips lines that are no JSON object and reports the next event, the deadline or the end of output; the line it stopped at is what it reports |
| `SessionDriver.Driver.AwaitLoaded` | scripts/agentic_gate_driver.py:461-477 | true exactly if the first loaded or error among the lines is a loaded, before the output ends or the deadline passes |
| `SessionDriver.Driver.RunRequest` | scripts/agentic_gate_driver.py:479-517 | keeps to the protocol; ends clean exactly if the first line that answers the request is its own done and the generate and every commit could be written |
| `SessionDriver.Driver.UnloadModel` | scripts/agentic_gate_driver.py:519-537 | ends clean exactly if the session was, the unload could be written and an unloaded event follows |
| `SessionDriver.Driver.FinishDaemon` | scripts/agentic_gate_driver.py:539-561 | errors stay empty exactly if the daemon exited by itself with status 0 |
| `SessionDriver.FreshTable` | scripts/agentic_gate_driver.py:565-572 | one untouched progress record for each request id, with the attempt of a request of that id |
| `SessionDriver.Driver.Run` | scripts/agentic_gate_driver.py:563-594 | returns 0 if and only if the daemon exited by itself with status 0 and its lines and the pipe are those of a clean session: loaded, for each request its done before any error, all writes accepted, unloaded. Then the trace has each generate sent and later answered by the done with its id and attempt; every run, clean or not, is a trace of the protocol |
| `Ownership.StepKeeps` | scripts/agentic_gate_driver.py:267-433 | every step of the main thread, the handler, the sampler and the OS keeps the ownership invariant |
| `Ownership.OwnershipSafe` | scripts/agentic_gate_driver.py:267-433 | over all interleavings the leader is reaped at most once; a group signal follows a reap if and only if the schedule has a foreign reap inside a check-then-signal window after which the main thread steps on instead of the handler; and every reported peak was read before any reap unless a foreign reap fell in a read's window |
| `Ownership.RacesOf` | scripts/agentic_gate_driver.py:287-296 | in every schedule the state records exactly which raced sends are still to come and which were made |
| `Ownership.StatusIsReal` | scripts/agentic_gate_driver.py:373-433 | an exit status is recorded only for a leader the driver reaped itself; at the end of a run that reaped it, it is recorded if and only if no signal was handled between the wait and the recording |
| `Ownership.ClosedForGood` | scripts/agentic_gate_driver.py:298-306 | over all interleavings, once sampling is closed with the sampler excluded in time no status is read and the peak stays |
| `Ownership.GivenUp` | scripts/agentic_gate_driver.py:320-321 | once the sampler could not be excluded no value it or a last read obtains reaches the peak, unless it had passed that test, and no peak is reported |
| `Ownership.LockBalanced` | scripts/agentic_gate_driver.py:353-371 | the re-entrant lock is as deep after a close as before it |
| `Ownership.LockReleased` | scripts/agentic_gate_driver.py:353-371 | a finished run, interrupted or not, has let go of the lock |
| `Ownership.RaceBreaks` | scripts/agentic_gate_driver.py:287-296 | the signal window is real: a run in which a foreign reap inside it, and none in a read window, makes a signal follow a reap |
| `Ownership.ReadRaceBreaks` | scripts/agentic_gate_driver.py:308-337 | the read window is real: a run in which a foreign reap inside it, and none in a signal window, gives a reported peak from a read after the reap |
| `Ownership.StatusCanBeLost` | scripts/agentic_gate_driver.py:373-433 | a finished run whose leader the driver reaped and whose status is not recorded, because a signal was handled in between |
| `ElfFormat.ParseElf` | scripts/check-pm-code-end.py:149-174 | what is accepted as an ELF file, with every table inside the file |
| `ElfLaws.ParsedExactly` | scripts/check-pm-code-end.py:149-174 | a file is read if and only if its identification bytes and entry sizes are right and its tables and payloads lie inside it |
| `ElfLaws.HeaderFields` | scripts/check-pm-code-end.py:154-156 | which bytes each used field of the ELF header is read from |
| `ElfLaws.SectionFields` | scripts/check-pm-code-end.py:162-163 | which bytes each field of a section header is read from |
| `ElfLaws.PhdrFields` | scripts/check-pm-code-end.py:161 | which bytes each field of a program header is read from |
| `ElfLaws.SymbolFields` | scripts/check-pm-code-end.py:176-184 | which bytes each field of a symbol is read from |
| `ElfLaws.NameIs` | scripts/check-pm-code-end.py:198-202 | a name is spelt by its table from its offset up to a zero byte or the end, bytes above 127 replaced |
| `ElfFormat.SectionBytesEqual` | scripts/check-pm-code-end.py:126-140 | a section header's fields determine its bytes |
| `ElfFormat.PhdrBytesEqual` | scripts/check-pm-code-end.py:150-172 | a program header's fields determine its bytes |
| `CodeEndCheck.Masked` | scripts/check-pm-code-end.py:276-283 | zeroes exactly the masked positions |
| `CodeEndCheck.CompareRegion` | scripts/check-pm-code-end.py:286-299 | equal exactly if equal outside the masks |
| `CodeEndCheck.FindShifts` | scripts/check-pm-code-end.py:372-374 | the file shift is that of the first later section, the address shift that of the first allocated one, or 0 |
| `CodeEndCheck.CheckPost` | scripts/check-pm-code-end.py:395-415 | no error exactly if a later section moved by the uniform shifts and kept its size, or its page end if NOBITS |
| `CodeEndCheck.CheckSections` | scripts/check-pm-code-end.py:379-415 | no error exactly if every section meets its class's rule; also the padding totals |
| `CodeEndCheck.CheckPlacement` | scripts/check-pm-code-end.py:416-432 | no error exactly if the first later section does not overlap the grown .text and, where OLD follows the segment-start rule, sits where the rule puts it |
| `CodeEndCheck.ExpectedPhdr` | scripts/check-pm-code-end.py:439-448 | the list of expected fields is met by exactly the headers that change only what growing .text forces |
| `CodeEndCheck.CheckPhdrs` | scripts/check-pm-code-end.py:434-462 | no error exactly if every program header has its expected fields and the LOAD rules hold |
| `CodeEndCheck.CheckTail` | scripts/check-pm-code-end.py:477-500 | no error exactly if new .text is old .text plus alignment and 96 code-end words on a cache line |
| `CodeEndCheck.CheckSymbols` | scripts/check-pm-code-end.py:519-543 | no error exactly if all symbols moved by their section's shift; the masks cover exactly the moved values |
| `CodeEndCheck.CheckDynamic` | scripts/check-pm-code-end.py:552-557 | no error exactly if _DYNAMIC points at the new .dynamic |
| `CodeEndCheck.CheckKernels` | scripts/check-pm-code-end.py:559-604 | no error exactly if kernel and descriptor bytes and values are unchanged |
| `CodeEndCheck.CompareElf` | scripts/check-pm-code-end.py:310-606 | the whole checker reports no error exactly if the acceptance predicate holds |
| `CodeEndLaws.TextGrows` | scripts/check-pm-code-end.py:477-492 | in an accepted file .text grows by exactly the alignment and tail length, in place |
| `CodeEndLaws.SameShifts` | scripts/check-pm-code-end.py:370-375 | the address and file shifts are determined by OLD |
| `CodeEndLaws.SameSections` | scripts/check-pm-code-end.py:379-432 | so are all section headers |
| `CodeEndLaws.SamePhdrs` | scripts/check-pm-code-end.py:434-462 | so are all program headers |
| `CodeEndLaws.SameByte` | scripts/check-pm-code-end.py:464-551 | so is every byte |
| `CodeEndLaws.Determinacy` | scripts/check-pm-code-end.py:310-606 | against an OLD file that follows the segment-start rule and whose padding ends on pages the checker accepts at most one NEW file |
| `CodeEndLaws.AcceptedByte` | scripts/check-pm-code-end.py:310-606 | the shape of an accepted file: OLD's bytes, the code-end tail, a zero gap, and OLD's remainder uniformly shifted, with only forced fields exempt |
| `CodeEndLaws.AcceptedFields` | scripts/check-pm-code-end.py:310-606 | every field exempt there, read back from the accepted bytes: the table offset, each section and program header, and each moved symbol value is OLD's changed only by what growing .text forces |
| `CodeEndConverse.OldByte` | scripts/check-pm-code-end.py:464-551 | every byte of OLD outside e_shoff, program headers and moved symbol values: NEW's byte in place, zero between .text and the next section, or NEW's byte shifted back |
| `CodeEndConverse.OldDeterminacy` | scripts/check-pm-code-end.py:310-606 | two OLD files with the same section and program headers that are accepted as the origin of one NEW are the same, byte for byte |
| `CodeEndConverse.AcceptedText` | scripts/check-pm-code-end.py:315-321 | in either file the one executable section called .text is the one compared |
| `CodeEndConverse.AcceptedApart` | scripts/check-pm-code-end.py:346-370 | no section of OLD straddles .text, and the first later one is first |
| `CodeEndConverse.AcceptedSection` | scripts/check-pm-code-end.py:337-415 | every section header of NEW on its fields: which stay, how .text grows, and that later sections move by one file offset, allocated ones by one address, padding keeping its page end |
| `CodeEndConverse.AcceptedPhdr` | scripts/check-pm-code-end.py:434-453 | every program header of NEW on its fields: the segment of .text grows with it, those at the first later section move with it and its padding, all others stay |
| `CodeEndConverse.AcceptedLayout` | scripts/check-pm-code-end.py:332-500 | e_shoff is aligned, both tables end their file after all payloads, every LOAD is congruent and large enough, an executable one covers .text, and .text ends on a cache line |
| `CodeEndConverse.AcceptedSymbol` | scripts/check-pm-code-end.py:523-543 | every symbol of every table keeps its fields and moves exactly as its section does |
| `CodeEndConverse.AcceptedDynamic` | scripts/check-pm-code-end.py:552-557 | _DYNAMIC in each table kept has the new address of .dynamic |
| `CodeEndConverse.AcceptedHasKernel` | scripts/check-pm-code-end.py:559-602 | the table of kernels has a function with code in .text |
| `CodeEndConverse.AcceptedKernel` | scripts/check-pm-code-end.py:575-588 | every kernel lies in .text, keeps value and size, and its code byte for byte |
| `CodeEndConverse.AcceptedDescriptor` | scripts/check-pm-code-end.py:589-604 | every descriptor keeps value and size, and its bytes |
| `CodeEndExact.AcceptsExactly` | scripts/check-pm-code-end.py:310-606 | the checker accepts two parsed files if and only if they fit a description on bytes and fields alone: one .text, headers field by field, the old bytes, 0xbf9f0000 words, zero gaps, shifted remainder, symbols that move with their sections, kernels and descriptors in place |
| `CodeEndExact.AcceptedConforms` | scripts/check-pm-code-end.py:310-606 | acceptance implies that description, in the positions the checker found |
| `CodeEndExact.ConformingPasses` | scripts/check-pm-code-end.py:310-606 | files that fit it pass every check |
| `CodeEndExact.SliceBounds` | scripts/check-pm-code-end.py:590-591 | what a descriptor slice with negative or overlong bounds takes |
| `CodeEndSynth.AlignIs` | scripts/check-pm-code-end.py:103-104 | the smallest multiple at or above the argument, for every alignment |
| `CodeEndSynth.AlignSkewIs` | scripts/check-pm-code-end.py:107-110 | the smallest offset at or above the argument that is page-congruent |
| `CodeEndSynth.UniformShift` | scripts/check-pm-code-end.py:692-745 | for any two .text lengths all later offsets shift by the same multiple of 8 |
| `CodeEndSynth.SynthesisFollowsRules` | scripts/check-pm-code-end.py:692-814 | for every non-empty list of dword kernels the untailed and tailed layouts meet all of the checker's placement rules |
| `SynthWriter.BuildText` | scripts/check-pm-code-end.py:693-699 | the nested loop places every kernel on a 256-byte boundary behind NOP padding and records where it starts |
| `SynthWriter.SynthElf` | scripts/check-pm-code-end.py:692-815 | the writer is the specification ElfBytes: every part written at its computed offset |
| `SynthWriter.WritableExactly` | scripts/check-pm-code-end.py:692-815 | the writer raises exactly if the fill word or the names exceed 32 bits, a file offset or address 64 bits, or a descriptor's offset to its code 63 bits |
| `SynthWriter.TextLengthIs` | scripts/check-pm-code-end.py:693-699 | the length of .text is the layout's, a function of the code sizes, and whole dwords wherever the padding loop starts |
| `SynthBytes.DescriptorLeads` | scripts/check-pm-code-end.py:781-785 | each written descriptor is the kernel's own with an offset that leads from its address to the code |
| `Records.ChunkAt` | scripts/check-pm-code-end.py:748-751 | after a sequence of writes at increasing offsets every write is in the file unchanged |
| `Records.SymbolRoundTrip` | scripts/check-pm-code-end.py:176-184 | a written symbol table reads back entry by entry, names resolved through its string table |
| `SynthParse.WritesInOrder` | scripts/check-pm-code-end.py:746-815 | the writer's parts never overlap |
| `SynthParse.NameReads` | scripts/check-pm-code-end.py:198-202 | every name of a string table reads back at its offset, up to its first zero byte |
| `SynthParse.ReadsBack` | scripts/check-pm-code-end.py:149-175 | a written object parses, with the headers and payloads it was written from |
| `SynthSymbols.SymbolTablesOk` | scripts/check-pm-code-end.py:519-543 | between the two objects every symbol keeps its fields and only _DYNAMIC moves, by the shift of .dynamic |
| `SynthSymbols.ClashReported` | scripts/check-pm-code-end.py:552-557 | once .text has grown, a kernel whose name reads as _DYNAMIC fails the address check |
| `SynthAccepts.HeadByteSame` | scripts/check-pm-code-end.py:471-475 | up to the end of the old .text the two objects agree byte for byte outside e_shoff and the program headers |
| `SynthAccepts.BackByteSame` | scripts/check-pm-code-end.py:545-548 | from .dynamic to the section headers they agree byte for byte, shifted, outside the value of _DYNAMIC |
| `SynthAccepts.TailExactly` | scripts/check-pm-code-end.py:700-702 | a tail the writer appends passes the checker's tail rule exactly if the code is whole dwords, the alignment is empty or filled with code-end words, and 96 of them follow |
| `SynthAccepts.SynthesisAccepted` | scripts/check-pm-code-end.py:855-918 | for every list of kernels and every tail that can be written, both objects parse, and the checker accepts the tailed one if and only if its tail passes that rule, some kernel has code and none is named _DYNAMIC |
| `SynthExamples.OneWritable` | scripts/check-pm-code-end.py:692-815 | every single kernel with a name below 2^28 bytes and code below 2^48 is written, with any tail below 2^32 words or none |
| `SynthExamples.SmallAccepted` | scripts/check-pm-code-end.py:855-867 | one kernel of one word under any such name: both objects are written and parse, and the checker accepts exactly if the name does not read as _DYNAMIC |
| `SynthExamples.PlainAccepted` | scripts/check-pm-code-end.py:855-867 | the accept case at one kernel named k |
| `SynthExamples.ClashRefused` | scripts/check-pm-code-end.py:552-557 | a kernel named _DYNAMIC, with code and the right tail, is refused |
| `Text.LinesOfJoin` | scripts/check-crate-maps.py:198-205 | joining lines and splitting them gives the lines back |
| `CrateMap.GeneratedBlock` | scripts/check-crate-maps.py:169-198 | the appended lines are the specified block |
| `CrateMap.ParseBlockSections` | scripts/check-crate-maps.py:201-213 | the section loop is the fold of its step |
| `CrateMap.ParseBlockModules` | scripts/check-crate-maps.py:216-228 | the module loop is the fold of its step |
| `CrateMapLaws.MatchModuleIs` | scripts/check-crate-maps.py:221 | on any line: a module bullet is a link to a quoted path below src/ |
| `CrateMapLaws.MatchExportIs` | scripts/check-crate-maps.py:224 | on any line: an export bullet is indented and opens with a quoted name |
| `CrateMapLaws.SearchTickedIs` | scripts/check-crate-maps.py:210 | on any line: the search finds the quoted name that opens first, if any does |
| `CrateMapLaws.OtherLine` | scripts/check-crate-maps.py:226-227 | a line that is no bullet ends the module above it exactly if it is not indented |
| `CrateMapLaws.ExampleBlock` | scripts/check-crate-maps.py:169-198 | the lines printed for a small inventory, one by one |
| `CrateMapLaws.SectionsRead` | scripts/check-crate-maps.py:201-213 | reading a block by sections gives exactly the module paths, all dependencies and the reverse dependencies |
| `CrateMapLaws.ModulesRead` | scripts/check-crate-maps.py:216-228 | reading a block by modules gives exactly the printed table |
| `CrateText.BlockRoundTrip` | scripts/check-crate-maps.py:169-228 | both parsers applied to the text of a generated block give back exactly what was printed |
| `CrateText.GeneratedIsBlock` | scripts/check-crate-maps.py:169-198 | a generated block starts with the begin marker, and the end marker occurs only at its end |
| `CrateSplice.RegenerateSettles` | scripts/check-crate-maps.py:338-352 | with the markers in order regeneration keeps prefix and suffix, is idempotent, and leaves the block check_crate compares equal |
| `CrateSplice.RegenerateGrows` | scripts/check-crate-maps.py:338-352 | with the first end marker before the first begin marker a run makes the file longer, leaves the markers where they were, and the check passes neither before nor after |
| `CrateSplice.GrowsForever` | scripts/check-crate-maps.py:338-352 | so after any number of runs the next one makes it longer still and the check does not pass |
| `CrateText.MisorderedMap` | scripts/check-crate-maps.py:284-352 | such a file: the two markers alone, end first, for every tree and any number of runs |
| `CrateText.RefreshSettles` | scripts/check-crate-maps.py:284-352 | for every tree and every map file with both markers: the new text is the old one outside the markers with the block between, and it is idempotent, and up to date afterwards, if and only if the first end marker does not precede the first begin marker |
| `Growers.Pass` | scripts/check-scratch-growth.py:66-72 | one pass in any order only adds functions that reach a primitive, and leaves a closed set when nothing changed |
| `Growers.FindGrowers` | scripts/check-scratch-growth.py:59-73 | the loop ends, and for any call map and order returns exactly the functions with a call path to a primitive, primitives removed |

## Left out

- Float rounding, NumPy dtypes and overflow: the rotation and quantiser theorems are over exact reals, and `isfinite` is always true there.
- Real target and draft networks and the internals of hybrid caches: the target is a function of the token prefix and cropping is truncation.
- GGUF and safetensors access, process pools, hashing, argparse and report assembly in `scripts/astrea.py`.
- HfqPatch.ReadHfqIndex: does not decode or parse the JSON metadata, whose errors are those of Python's `json`; the model stops at finding where the object ends, which is what fixes every offset.
- The order in which `build_policy` sorts its candidates: the policy theorems hold for every order of candidates with distinct names and positive extra bytes.
- A missing or negative budget: `build_policy` raises a ValueError before anything is selected.
- Splitting the filter argument at commas, and the report fields of the policy and the writer other than those that carry bytes and names.
- The q8 packing of promoted payloads: only its length enters, as a parameter.
- `weighted_abs_quantile`, `quantize_mfp4g32_values` and the importance-weighted paths.
- SpecDecode.SpecGenerateCapped: a block size of at least 1 and a non-empty prompt are required; smaller ones fail inside the networks.
- The bundle container and `compare_modules` of the code-end checker, its report fields and message texts.
- CodeEndLaws.Determinacy: uniqueness only; existence is shown for the synthetic objects, not for every regular OLD file.
- SynthAccepts.SynthesisAccepted: descriptors have the 64 bytes of the format, and code before the last kernel is whole dwords, without which the padding loop never ends.
- Ownership.OwnershipSafe: for reported peaks only a sufficient condition, as said above; the signal half is exact.
- Which of several errors the code-end checker reports, and what it still compares after a symbol error.
- Pump threads, the output file, wall-clock time and the texts of recorded errors in the driver; timeouts are choices of the environment.
- SessionDriver.Driver.FinishDaemon: what a kill does to the process is in `Ownership`; here it only ends the session.
- `parse_block_hrefs` and the link checks of the crate maps, and reading modules, manifests and reverse dependencies from the tree.
- CrateText.BlockRoundTrip: entries must be free of backticks, line breaks and the end marker, as the tree's names are.
- Extraction of the call map from Rust source and the search for callers in `scripts/check-scratch-growth.py`.
