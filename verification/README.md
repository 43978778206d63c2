# Verification models of an LLM serving engine's tools

This project models the algorithms behind the engine's measuring and operating tools and proves, in
Dafny, what they are relied on for: that a quantizer does not get worse from round to round, that a
recurrence keeps its rounding error bounded for ever, that circular buffers show exactly what an
unbounded log would, that a calibration text is a fair mixture at every length, and exactly when the
control panel keeps every running GPU project stoppable. `dafny verify dfyconfig.toml` checks everything.

| files | what they model |
|---|---|
| `LloydMax`, `LloydMaxGrid`, `Codebook` | the scalar codebook iteration |
| `Hadamard`, `TurboQuant` | the rotation, and the quantizer that works in rotated coordinates |
| `Mxfp4` | block quantization with a shared power-of-two scale (OCP Microscaling Formats (MX) Specification v1.0, sections 5.3.3 and 6.3) |
| `GatedDelta`, `GatedDeltaSlots`, `SlotScan`, `CausalConv` | recurrences with carried state: decode, packed prefill, the verify pass with its snapshots, and the contraction that bounds stored errors |
| `RingColumns`, `DraftRing`, `PrefixRing` | the drafters' circular key-value buffers |
| `DeficitScheduler`, `SchedulerFairness` | the calibration fixture's interleaving |
| `AmaxGather` | gathering sharded maxima and slicing them again |
| `KernelNotes`, `MangledNames`, `Strings` | the metadata scraper and the symbol walker (Itanium C++ ABI, section 5.1) |
| `TraceReport` | phase lookup and the report's counters |
| `ControlPanel`, `PanelRuns`, `PanelSafety`, `PanelLaunches` | the panel's launches and stops, one at a time and as whole interleaved runs |
| `RealArithmetic`, `PowersOfTwo`, `Vectors`, `Wrappers` | optional values, sizes that double, products, inner products, Cauchy-Schwarz and the triangle inequality without square roots |

Numbers are exact reals. Exponentials, sigmoids and square roots appear only through what they
guarantee: a decay in (0, 1], a gate in [0, 1], a key whose square is at most 1, positive weights, a
constant c with c * c * n = 1.

## Where the code and what is said about it differ

- Lloyd-Max: a round can empty a cell and so divide zero by zero (`LloydMax.OccupationCanBeLost`). On
  the source's sample grid this happens exactly above 16 bits (`LloydMaxGrid.CodebookDefinedIff`).
- The Hadamard loop accepts any n but divides by the root of n, not of the size it reached: the result
  is orthonormal only for powers of two (`Hadamard.OrthonormalIffPowerOfTwo`).
- MXFP4: the clamp at 2^-126 lets the exponent reach -128, one below the least e8m0 exponent -127, for
  blocks under 2^-125 (`Mxfp4.SmallestExponent`).
- State stability: decays merely below 1 need not keep the error bounded (`GatedDelta.NoBoundWithoutMargin`). The
  error of all runs with given decays stays within m exactly when the bound computed from them does
  (`GatedDelta.GapWithinIff`); one gamma < 1 for all steps is enough (`GatedDelta.MarginSuffices`) but not
  necessary (`GatedDelta.MarginEveryOtherStep`).
- Draft ring: the distance test alone suggests a window of R positions. Stale drafts beyond the query
  are never shown, but each costs one position of history (`DraftRing.FullWindowIff`). Seeding does not
  clear the slot, so a shorter prompt seeded over an old one leaves old positions in place
  (`DraftRing.Ring.Seed`).
- Calibration fixture: sizes are counted in characters, although the option says bytes. When a source
  is missing, the others do not keep their weights: each settles at its weight plus an equal part of
  the missing one (`SchedulerFairness.DriftFromWeights`).
- Gather: the description gives replication as the case of fewer heads than ranks. The caches then replicate
  heads in groups, and the gather's assertion fails for all of these but a single head
  (`AmaxGather.GatherOfShardsIff`).
- Metadata scraper: splitting on repetition is right exactly when each record starts with a key its
  predecessor has; otherwise a field is filed under a neighbour (`KernelNotes.ParseExactIff`).
- Trace report: "innermost" fails exactly when nested ranges that start together end apart
  (`TraceReport.InnermostIff`, `TraceReport.SharedStartFindsOuter`), and an agent named "all" or left
  blank turns the one-card default into a sum over all (`TraceReport.DefaultIsBusiest`).
- Panel: a repository called "orphan" can take the stop meant for an orphan
  (`PanelSafety.ComposeProjectsStoppableIff`). Setting COMPOSE_PROJECT_NAME by hand can make a GPU launch
  unstoppable (`PanelLaunches.LaunchStoppableIff`). The panel's own documentation says that services survive
  the loss of the state file through orphan recovery; this holds for GPU projects only, and not for one
  whose containers keep restarting (`ControlPanel.OrphanListedIff`).

## Model

| member | source | states |
|---|---|---|
| `LloydMax.LloydMax` | tools/kv_quant_fidelity_eval.py:70-76 | The loop returns the codebook after all rounds of the iteration, or nothing as soon as a round divides zero by zero |
| `LloydMax.Bucketize` | tools/kv_quant_fidelity_eval.py:72 | A sample goes to the first cell whose upper edge is not below it: cells are open on the left, closed on the right |
| `LloydMax.UpdateDefined` | tools/kv_quant_fidelity_eval.py:73-75 | With positive weights a round is defined if and only if every cell holds a sample |
| `LloydMax.MidpointCellIsNearest` | tools/kv_quant_fidelity_eval.py:71-72 | For an increasing codebook the midpoint cell of a sample names a nearest codeword, compared with every other one |
| `LloydMax.UpdateIncreasing` | tools/kv_quant_fidelity_eval.py:71-75 | The recentred codebook is again strictly increasing, so its midpoints are sorted edges for the next round |
| `LloydMax.RecentreExactly` | tools/kv_quant_fidelity_eval.py:73-75 | Moving any first m codewords to their centroids lowers the distortion by exactly the mass-weighted squares of the moves |
| `LloydMax.UpdateDescends` | tools/kv_quant_fidelity_eval.py:70-75 | One round never raises the weighted squared distortion, and lowers it by at least what the codewords moved |
| `LloydMax.RunDescends` | tools/kv_quant_fidelity_eval.py:65-76 | From any round to any later one of a defined run the distortion does not rise |
| `LloydMax.OccupationCanBeLost` | tools/kv_quant_fidelity_eval.py:70-75 | Four samples and three occupied cells whose recentred codebook has an empty cell: the next round is undefined |
| `LloydMaxGrid.SpreadOccupies` | tools/kv_quant_fidelity_eval.py:66-72 | On evenly spaced samples a codebook whose neighbours-but-one are two sample steps apart fills every cell |
| `LloydMaxGrid.SpreadKept` | tools/kv_quant_fidelity_eval.py:66-75 | That spacing survives a round, whatever the positive weights are |
| `LloydMaxGrid.GridRunDefined` | tools/kv_quant_fidelity_eval.py:66-75 | Hence every round from such a codebook is defined |
| `LloydMaxGrid.GridAndStart` | tools/kv_quant_fidelity_eval.py:66-69 | The samples are 400001 even steps from -8 to 8, the first codewords even steps from -2.5 to 2.5 |
| `LloydMaxGrid.CodebookDefinedIff` | tools/kv_quant_fidelity_eval.py:64-76 | With the sample grid, start and 300 rounds of the source the codebook is defined if and only if bits <= 16 |
| `LloydMaxGrid.GaussianCodebook` | tools/kv_quant_fidelity_eval.py:64-76 | Up to 16 bits each of the 300 rounds is defined, keeps the codebook increasing and does not raise the distortion |
| `Codebook.NearestIndex` | tools/kv_quant_fidelity_eval.py:96-98 | The argmin over absolute distances: no codeword is closer |
| `Mxfp4.CodewordIsEncoded` | tools/kv_quant_fidelity_eval.py:29 | The codewords are the values of two exponent bits and one mantissa bit, subnormal for exponent zero |
| `Hadamard.BuildHadamard` | tools/kv_quant_fidelity_eval.py:57-61 | The doubling loop returns the first Sylvester matrix with at least n rows, divided by the root of n |
| `Hadamard.EntryIsWalsh` | tools/kv_quant_fidelity_eval.py:57-61 | Each entry in closed form: minus one if and only if row and column number have an odd number of binary ones in common |
| `Hadamard.RowsOrthogonal` | tools/kv_quant_fidelity_eval.py:58-60 | H H^T = n I for every size the loop reaches |
| `Hadamard.ColumnsOrthogonal` | tools/kv_quant_fidelity_eval.py:58-60 | H^T H = n I |
| `Hadamard.TransformTwice` | tools/kv_quant_fidelity_eval.py:58-60 | Applying the unscaled transform twice multiplies by n |
| `Hadamard.SelfAdjoint` | tools/kv_quant_fidelity_eval.py:58-60 | The transform may be moved to the other side of an inner product |
| `Hadamard.NormalizedInvolution` | tools/kv_quant_fidelity_eval.py:57-61 | The normalized matrix is its own inverse |
| `Hadamard.NormalizedPreservesDot` | tools/kv_quant_fidelity_eval.py:57-61 | The normalized matrix preserves every inner product |
| `Hadamard.OrthonormalIffPowerOfTwo` | tools/kv_quant_fidelity_eval.py:57-61 | What the loop builds for n is orthonormal if and only if n is a power of two |
| `TurboQuantMse.RotRoundTrip` | tools/kv_quant_fidelity_eval.py:90-94 | Un-rotating inverts rotating and the other way round |
| `TurboQuantMse.RotPreservesDot` | tools/kv_quant_fidelity_eval.py:90-91 | Rotation with signs preserves inner products |
| `TurboQuantMse.UnrotPreservesDot` | tools/kv_quant_fidelity_eval.py:93-94 | So does the inverse rotation |
| `TurboQuantMse.ErrorIsometry` | tools/kv_quant_fidelity_eval.py:185-187 | Whatever is put back from rotated coordinates misses x by n^2 times the squared miss there, for any quantizer in between |
| `TurboQuantMse.MseIsOptimal` | tools/kv_quant_fidelity_eval.py:96-104 | No other choice of codewords, rotated back at the same norm, is closer to x than what mse returns |
| `TurboQuantMse.MseHoldsCodewords` | tools/kv_quant_fidelity_eval.py:96-104 | Divided by the norm and rotated again, every coordinate of what mse returns is a codeword nearest to that of x so treated |
| `Mxfp4.FloorLog2Brackets` | tools/kv_quant_fidelity_eval.py:43 | The exponent e of a magnitude a satisfies 2^e <= a < 2^(e+1) |
| `Mxfp4.ScaleBrackets` | tools/kv_quant_fidelity_eval.py:42-43 | The shared scale puts the block maximum between 4 and 8 scales |
| `Mxfp4.BlockQuantizes` | tools/kv_quant_fidelity_eval.py:39-44 | The quantized block rounds every element to a nearest e2m1 value under the shared scale |
| `Mxfp4.RowBlocks` | tools/kv_quant_fidelity_eval.py:39-44 | Every block of 32 in a row is quantized under its own shared scale |
| `Mxfp4.RowElementNearest` | tools/kv_quant_fidelity_eval.py:32-44 | Up to 6 scales no value of the format, of either sign, under the scale of its own block is closer to an element of the row than what the row holds for it |
| `Mxfp4.RowElementBound` | tools/kv_quant_fidelity_eval.py:32-44 | For every element of the row under the scale of its own block: the error bound, the sign, the upper limit and the floor |
| `Mxfp4.ElementBound` | tools/kv_quant_fidelity_eval.py:32-44 | Each element misses by at most a quarter of the larger of its magnitude and the scale, keeps its sign, and stays within 6 scales and above 4 when it was |
| `Mxfp4.ScaleRecomputed` | tools/kv_quant_fidelity_eval.py:42-44 | A quantized block has the scale of the block it came from, whichever way ties went |
| `Mxfp4.Idempotent` | tools/kv_quant_fidelity_eval.py:32-44 | Quantizing a quantized block again returns it unchanged, whichever way ties went either time |
| `Mxfp4.RowIdempotent` | tools/kv_quant_fidelity_eval.py:39-44 | The same for a whole row cut into blocks of 32 |
| `Mxfp4.SmallestExponent` | tools/kv_quant_fidelity_eval.py:42-43 | The stored exponent is at least -128, and at least -127, the least of e8m0, if and only if the block reaches 2^-125 |
| `GatedDelta.NextIsRowwise` | tools/gdn_hip_parity.py:70-77 | A step acts on each row of the state separately: decay, correction towards the value along the key |
| `GatedDelta.StepAnswers` | tools/gdn_hip_parity.py:70-77 | Coordinate i of the output in full: the decayed answer to the query plus the gated miss at the key times key and query; read after the correction |
| `GatedDelta.StepOutputsValue` | tools/gdn_hip_parity.py:70-77 | A token that asks for its own unit key with a full gate outputs its own value |
| `GatedDelta.StepRecallsValue` | tools/gdn_hip_parity.py:70-77 | The delta rule: with a unit key and a full gate the new state answers the key with exactly the value |
| `GatedDelta.StepKeepsOrthogonal` | tools/gdn_hip_parity.py:70-77 | What the state answers to anything orthogonal to the key only decays |
| `GatedDelta.RowContracts` | tools/gdn_hip_parity.py:70-77 | The state-linear part of a step never lengthens a row beyond the decay (gate in [0, 1], key of square at most 1) |
| `GatedDelta.StepContracts` | tools/gdn_hip_parity.py:430-435 | Two states on the same token end at most decay times as far apart in the Frobenius norm |
| `GatedDelta.OutputGap` | tools/gdn_hip_parity.py:451-459 | The squared gap of two outputs is at most the squared gap of the states times the square of the query |
| `GatedDelta.GapBounded` | tools/gdn_hip_parity.py:430-462 | Two runs over the same tokens, each storing its states within its own error, stay at every step within the bound their decays give |
| `GatedDelta.BoundClosedForm` | tools/gdn_hip_parity.py:430-435 | For one decay the bound in closed form: the decayed initial gap plus a geometric part |
| `GatedDelta.BoundBelowLimit` | tools/gdn_hip_parity.py:430-435 | For one decay gamma < 1 the bound never exceeds gamma^n times the initial gap plus eps/(1-gamma) |
| `GatedDelta.BoundAttained` | tools/gdn_hip_parity.py:430-435 | For every stream of decays some pair of runs meets the bound exactly at every step |
| `GatedDelta.GapWithinIff` | tools/gdn_hip_parity.py:430-435 | All pairs of runs with given decays stay within m of each other if and only if the bound of those decays does at every step |
| `GatedDelta.MarginSuffices` | tools/gdn_hip_parity.py:430-435 | Decays at or below one gamma keep the bound at or below that of gamma alone |
| `GatedDelta.MarginEveryOtherStep` | tools/gdn_hip_parity.py:430-435 | A decay of at most 1/2 at every other step keeps the bound within 4 eps and the initial gap, whatever the others are |
| `GatedDelta.NoBoundWithoutMargin` | tools/gdn_hip_parity.py:430-435 | Over one stream of decays that are all below 1 the bound passes every m |
| `GatedDeltaSlots.HeadTokens` | tools/gdn_hip_parity.py:101-107 | Each value head carries its own value, decay and gate |
| `GatedDeltaSlots.GroupsAreConsecutive` | tools/gdn_hip_parity.py:101-104 | The j-th of the HV / H value heads that share query and key g is value head g HV / H + j |
| `GatedDeltaSlots.VerifyBatch` | tools/gdn_hip_parity.py:186-204 | The verify pass over a batch of token tensors with distinct slots: every head of every sequence runs its own recurrence, with its outputs, state and snapshots; other slots keep their contents |
| `GatedDeltaSlots.OracleHead` | tools/gdn_backward_gradcheck.py:56-67 | The second statement of the recurrence, written with its own operations, computes the same outputs |
| `GatedDeltaSlots.OutputsAnswer` | tools/gdn_hip_parity.py:194-204 | All along a stream each output answers its own query from the state its own token has corrected |
| `GatedDeltaSlots.ExactRunIsStored` | tools/gdn_hip_parity.py:187-204 | The exact scan is a stored run with error zero |
| `GatedDeltaSlots.RoundedDecodeStaysClose` | tools/gdn_hip_parity.py:430-462 | A run that rounds every stored state by at most eps stays within eps/(1-gamma) of the exact scan for ever |
| `GatedDeltaSlots.RoundedOutputsStayClose` | tools/gdn_hip_parity.py:451-459 | Its outputs stay, all along the stream, within gamma eps/(1-gamma) times the length of the query of the exact ones |
| `SlotScan.ScanHead` | tools/gdn_hip_parity.py:194-204 | One head of one sequence: final state, the outputs of its rows, its snapshots, and nothing else written |
| `SlotScan.ScanSequence` | tools/gdn_hip_parity.py:190-204 | All heads of one sequence, from the slot or from zero, with every other slot, row and snapshot unchanged |
| `SlotScan.PrefillVerify` | tools/gdn_hip_parity.py:186-204 | The whole batch: what every slot, output and snapshot holds afterwards, even when sequences name the same slot |
| `SlotScan.Decode` | tools/gdn_hip_parity.py:95-109 | One token per request in request order: the state of every slot and every output, null slots skipped, or read as a fixed state as the convolution (lines 365-376) does |
| `SlotScan.ScanSplits` | tools/gdn_hip_parity.py:145-152 | Running xs then ys with the carried state is running xs + ys, outputs and state, for every split |
| `SlotScan.SnapshotIsPrefixState` | tools/gdn_hip_parity.py:163-167 | Snapshot t is the state after exactly t+1 tokens |
| `SlotScan.LastSnapshotIsFinal` | tools/gdn_hip_parity.py:216-219 | The last snapshot is the final state |
| `SlotScan.RollbackIsExact` | tools/gdn_hip_parity.py:163-167 | Installing snapshot accepted-1 and going on gives the outputs and state of a run that only saw the accepted tokens |
| `SlotScan.BatchDoesNotInterfere` | tools/gdn_3c_integration.py:250-278 | With distinct slots each sequence of a batch starts from and leaves what it would alone; other slots keep their contents; a sequence without history ignores its slot |
| `SlotScan.HistoryIsCarried` | tools/gdn_hip_parity.py:195 | A sequence with history starts from what its slot holds and one without from zero; the slot ends with the scan from there |
| `SlotScan.TwoBatchesAreOne` | tools/gdn_hip_parity.py:190-204 | A batch on the first part of a sequence, then one with history on the rest, give the slot and the outputs of one batch on all of it |
| `SlotScan.SharedSlotGoesOn` | tools/gdn_hip_parity.py:190-204 | Of two sequences of a batch in one slot the second, with history, goes on from where the first ended |
| `SlotScan.DecodeLeavesOthers` | tools/gdn_hip_parity.py:97-100 | Slot 0 and every slot no request names are untouched by a decode step |
| `SlotScan.RequestsInOrder` | tools/gdn_hip_parity.py:95-109 | A slot ends with the scan over the requests that name it, in request order |
| `SlotScan.OutputOfRequest` | tools/gdn_hip_parity.py:95-109 | The output of a request is that of one step from what the earlier requests left in its slot; a null request reads the fixed state or leaves the buffer |
| `SlotScan.DecodeDoesNotInterfere` | tools/gdn_3c_integration.py:280-288 | With distinct positive slots each request decodes as a one-token prefill of its own slot would |
| `SlotScan.TokenByToken` | tools/gdn_hip_parity.py:163-165 | Decoding token after token is one scan over all of them |
| `CausalConv.WindowIsDirectSum` | tools/gdn_hip_parity.py:399-408 | The rolled window gives, at every token, the direct weighted sum over history and inputs, and leaves their last W-1 values |
| `CausalConv.TapSumIsDot` | tools/gdn_layer_parity.py:419-424 | The tap-by-tap sum is the inner product with the window |
| `CausalConv.ColdStartIsPaddedSum` | tools/gdn_layer_parity.py:415-425 | From an empty window the incremental form equals the zero-padded sum |
| `CausalConv.OracleConv` | tools/gdn_backward_gradcheck.py:71-82 | The second statement of the convolution computes the same outputs |
| `RingColumns.ColumnsDiffer` | tools/glm_drafter_attn_parity.py:349 | Two positions less than R apart share a column only if they are equal |
| `DraftRing.Ring.constructor` | tools/glm_drafter_attn_parity.py:91-97 | A fresh ring: every column empty |
| `DraftRing.Ring.Visible` | tools/glm_drafter_attn_parity.py:99-102 | What the keep mask shows, as a map: each kept column under its own position |
| `DraftRing.Ring.VisibleIsView` | tools/glm_drafter_attn_parity.py:99-102 | What is kept for a query is exactly what the unbounded log still shows: after the base, within R of the highest write, up to the query |
| `DraftRing.SeedRunsTile` | tools/glm_drafter_attn_parity.py:104-115 | The runs list the seeded positions in order without gap, at most two of them, and inside a run columns never wrap |
| `DraftRing.Ring.SeedValues` | tools/glm_drafter_attn_parity.py:333-343 | Each seeded position has its value in its own column, other slots unchanged |
| `DraftRing.Ring.MarkSeeded` | tools/glm_drafter_attn_parity.py:117-121 | Each seeded position is recorded in its column, the cursor moves to the end, no other column is touched |
| `DraftRing.Ring.Seed` | tools/glm_drafter_attn_parity.py:333-344 | After seeding, the slot stands for the prompt if and only if the columns the prompt does not reach were empty |
| `DraftRing.Ring.Write` | tools/glm_drafter_attn_parity.py:349-350 | A ring write keeps the slot standing for the log with that write |
| `DraftRing.Ring.Step` | tools/glm_drafter_attn_parity.py:346-366 | A step drafts from what the log shows after its own write |
| `DraftRing.Ring.Propose` | tools/glm_drafter_attn_parity.py:607-620 | A propose call drafts exactly the tokens the unbounded log would, and leaves the slot standing for the resulting log, for all n <= R steps |
| `DraftRing.Ring.Accept` | tools/glm_drafter_attn_parity.py:672-676 | Moving the cursor over confirmed tokens keeps the correspondence |
| `DraftRing.RoundsAreLegal` | tools/glm_drafter_attn_parity.py:672-676 | Under both cursor rules a round confirms at least one token and no more than it wrote, for every accept count up to K |
| `DraftRing.Ring.Serve` | tools/glm_drafter_attn_parity.py:635-676 | Any number of propose-and-accept rounds of either head keeps the ring standing for the log, other slots unchanged |
| `DraftRing.ProposeWrites` | tools/glm_drafter_attn_parity.py:607-620 | A propose call writes its own chain from the cursor on and changes nothing else |
| `DraftRing.DraftSeesOwnWrite` | tools/glm_drafter_attn_parity.py:607-620 | Step j drafts from the token before it and from what the ring shows after step j has written |
| `DraftRing.RoundKeepsOk` | tools/glm_drafter_attn_parity.py:635-676 | A round keeps the log contiguous with the cursor near its top and every confirmed value |
| `DraftRing.RoundConfirms` | tools/glm_drafter_attn_parity.py:672-676 | Of the positions a round wrote exactly its own token and the accepted drafts end up below the cursor, for both heads |
| `DraftRing.EveryRoundConfirms` | tools/glm_drafter_attn_parity.py:635-676 | The same of every round of every run, so no accepted draft is lost and no rejected one confirmed |
| `DraftRing.RunKeepsConfirmed` | tools/glm_drafter_attn_parity.py:635-676 | Over every run of rounds: the same, so a confirmed position never changes its value |
| `DraftRing.VisibleDuringRound` | tools/glm_drafter_attn_parity.py:99-102 | Step j of a round sees exactly the positions in max(base, H-R) < p <= q: confirmed values below the cursor, the round's own chain from it on |
| `DraftRing.FullWindowIff` | tools/glm_drafter_attn_parity.py:99-102 | All R positions up to the query are visible if and only if no stale draft lies beyond it or nothing so old was written |
| `PrefixRing.Ring.constructor` | tools/dflash_drafter_attn_bench.py:317-320 | Every column starts without a position |
| `PrefixRing.Ring.Put` | tools/dflash_drafter_attn_bench.py:386-389 | One committed row: new at the top it drops what is cap below it, otherwise it is rewritten in place |
| `PrefixRing.Ring.Fill` | tools/dflash_drafter_attn_bench.py:331-346 | A cold rebuild leaves the newest min(P, cap) rows for every chunk size, so chunked and one-shot fills agree; other slots and the scratch columns are untouched |
| `PrefixRing.Ring.Stage` | tools/dflash_drafter_attn_bench.py:348-353 | A propose step's tail, overlapping what is stored, advances the ring to the grown prefix |
| `PrefixRing.Ring.Visible` | tools/dflash_drafter_attn_bench.py:365-372 | What the mask keeps, as a map from positions to values |
| `PrefixRing.Ring.MaskIsPrefixMask` | tools/dflash_drafter_attn_bench.py:359-377 | For every block query the ring's mask selects exactly what a mask over the whole prefix would; a full-attention layer exactly the newest min(prefix, cap) |
| `PrefixRing.CapacityReachesWindow` | tools/dflash_drafter_attn_bench.py:314 | The source's capacities reach the window and take a block of up to 128 rows |
| `PrefixRing.Ring.Body` | tools/dflash_drafter_attn_bench.py:379-390 | A propose step at the source's capacities: after staging, every query of the block sees exactly its part of the prefix |
| `PrefixRing.MaskRow` | tools/dflash_drafter_attn_bench.py:359-377 | One row entry by entry: ring columns by position, cause and window, then the block's own columns up to the query |
| `PrefixRing.Masks` | tools/dflash_drafter_attn_bench.py:359-377 | The cache by (causal, window, cap) gives every layer its own mask |
| `DeficitScheduler.Cut` | tools/make_kv_calib_fixture.py:48-59 | The segments are the lines in consecutive groups: none torn, lost or moved; a group reaches the size only with its last line, and only the last may fall short |
| `DeficitScheduler.UsableInTurn` | tools/make_kv_calib_fixture.py:60 | Each segment is kept or dropped in its turn, kept if and only if it has over 64 characters and looks like no credential |
| `DeficitScheduler.PickBest` | tools/make_kv_calib_fixture.py:204-210 | The pick is the first of the ready sources furthest below its share; none only when all are used up |
| `DeficitScheduler.BestIff` | tools/make_kv_calib_fixture.py:208-210 | Best means heaviest while nothing is chosen, and then furthest behind its weight of the total in characters; the first of equals |
| `DeficitScheduler.HeaviestFirst` | tools/make_kv_calib_fixture.py:204-210 | The fixture opens with the heaviest source that has a segment |
| `DeficitScheduler.Build` | tools/make_kv_calib_fixture.py:197-218 | The loop makes a greedy choice each time and stops at the target or when every source is used up |
| `DeficitScheduler.TotalsAgree` | tools/make_kv_calib_fixture.py:214-218 | The total is the sum over the sources and the length of the chosen segments |
| `DeficitScheduler.SourcesAgree` | tools/make_kv_calib_fixture.py:215-217 | Each source is charged for exactly the segments its cursor has passed, one for each pick |
| `DeficitScheduler.SegmentsInOrder` | tools/make_kv_calib_fixture.py:214-216 | The k-th choice is the next unused segment of its source: in order, at most once |
| `SchedulerFairness.OvershootIsWithinOneSegment` | tools/make_kv_calib_fixture.py:201-218 | The total passes the target by less than one segment |
| `SchedulerFairness.SharesSumToOne` | tools/make_kv_calib_fixture.py:161-170 | Weights, each raised by an equal part of what missing sources leave, sum to 1 |
| `SchedulerFairness.NeverFarAhead` | tools/make_kv_calib_fixture.py:202-218 | No source is ever ahead of its share by more than (1-e) of a segment |
| `SchedulerFairness.EveryPrefixIsFair` | tools/make_kv_calib_fixture.py:161-170 | Every prefix, while no source is used up, has each source at most 1-e segments ahead of its share e and at most n-2+e behind, however long |
| `SchedulerFairness.DriftFromWeights` | tools/make_kv_calib_fixture.py:161-170 | Shares equal the configured weights if and only if these sum to 1; otherwise a source passes its weight in proportion to the total |
| `AmaxGather.Gather` | tools/kv_fp8_calibrate.py:108-120 | After the broadcast loop in lockstep every rank merges the same rows, those of all ranks in rank order |
| `AmaxGather.MaxAt` | python/minisgl/kvcache/mha_pool.py:153-160 | The running maximum is at least every observation of the head and, unless none was above zero, one of them |
| `AmaxGather.MaxOver` | tools/kv_fp8_calibrate.py:116-117 | The merged entry of replicated tables is at least every rank's and one of them |
| `AmaxGather.GatherDefined` | tools/kv_fp8_calibrate.py:108-120 | The shape assertion passes if and only if there is one rank, full replication, or an even split; what passes has all the heads |
| `AmaxGather.DivEvenIff` | python/minisgl/utils/misc.py:20-26 | How many heads a rank gets: the even quotient, or one when the ranks are a multiple of the heads |
| `AmaxGather.GatherOfShardsIff` | python/minisgl/utils/misc.py:20-26 | Of the shardings the caches use, the gather takes exactly those with no more ranks than heads, and a single replicated head |
| `AmaxGather.SplitGathersToGlobal` | tools/kv_fp8_calibrate.py:97-99 | For every even split the gathered table is that of the unsharded data |
| `AmaxGather.ReplicatedGathersToGlobal` | tools/kv_fp8_calibrate.py:100-102 | Full replication gathers to the same table |
| `AmaxGather.GatherIsGlobal` | tools/kv_fp8_calibrate.py:92-120 | For every number of ranks the gather takes, each rank ends with the table of the unsharded data |
| `AmaxGather.SliceIsOwnMaxima` | tools/kv_quant_fidelity_eval.py:168-171 | Slicing the gathered row for any other even split gives a rank its own maxima |
| `AmaxGather.ShardRowIs` | tools/kv_quant_fidelity_eval.py:168-171 | Which rows can be served and with what: the rank's slice, the row itself, or its one value for every head |
| `KernelNotes.RenderedLine` | tools/kernel_static_resources.py:139-144 | A field line is read back as its field and value, whatever its indentation and padding, with or without quotes and commas |
| `KernelNotes.ParseNotesText` | tools/kernel_static_resources.py:120-150 | The loop over lines is the record scan over the fields it finds; a field line without a colon breaks it |
| `KernelNotes.BreaksIff` | tools/kernel_static_resources.py:139-144 | The scraper breaks if and only if some line is a field key that no colon follows |
| `KernelNotes.FieldsDiffer` | tools/kernel_static_resources.py:112-117 | No two keys are stored under one field, so a field repeats only with its key |
| `KernelNotes.NoteRoundTrip` | tools/kernel_static_resources.py:120-150 | Records rendered in one key order, its first key in each, with any other lines in between, come back from the lines exactly, each whole under its own name |
| `KernelNotes.ParseRoundTrip` | tools/kernel_static_resources.py:132-150 | On the fields alone: records that each start with a key of their predecessor come back whole |
| `KernelNotes.StoredUnderOwnName` | tools/kernel_static_resources.py:135-150 | With distinct names no record is lost and no field moves to a neighbour; the record still holds its name |
| `KernelNotes.ParseExactIff` | tools/kernel_static_resources.py:121-127 | A list of records with distinct names comes back exactly if and only if each record starts with a key its predecessor has |
| `MangledNames.Family` | tools/kernel_static_resources.py:71-83 | The loop, which ends on every input, returns what the walk over the captured text gives |
| `MangledNames.JoinedOneMore` | tools/kernel_static_resources.py:83 | The name is the identifiers in order with "::" between any two |
| `MangledNames.WalkInvertsEncode` | tools/kernel_static_resources.py:74-83 | The walk inverts length-prefix encoding up to any tail no identifier can be read from |
| `MangledNames.StopsIff` | tools/kernel_static_resources.py:75-78 | Such a tail starts with neither a digit nor an L and a digit |
| `MangledNames.FamilyInvertsMangling` | tools/kernel_static_resources.py:64-83 | A mangled plain or nested name, with any internal-linkage marks and any such tail, collapses to its identifiers joined by "::" |
| `MangledNames.TruncatedIdentifier` | tools/kernel_static_resources.py:79-82 | A length beyond the end of the text takes what is left and ends the walk |
| `MangledNames.StaysAsItIs` | tools/kernel_static_resources.py:71-83 | A symbol that is not mangled, spans lines or has nothing after the prefix is reported unchanged |
| `TraceReport.PhaseOf` | tools/canvas_trace_report.py:151-164 | The walk back from the last started range computes the lookup |
| `TraceReport.LastHolding` | tools/canvas_trace_report.py:159-164 | The lookup answers with the newest of the last eight started ranges that holds the time, or with none when none does |
| `TraceReport.FoundIff` | tools/canvas_trace_report.py:151-164 | A phase is found if and only if some range holds the time and fewer than eight started after it |
| `TraceReport.NameIs` | tools/canvas_trace_report.py:151-164 | The name reported is that of a range that holds the time with no later one doing so, or the gap |
| `TraceReport.DisjointFindsIt` | tools/canvas_trace_report.py:154-158 | For ranges that do not overlap the lookup finds a range if and only if it holds the time |
| `TraceReport.InnermostIff` | tools/canvas_trace_report.py:147-155 | For nested ranges what is found is always inside every range that holds the time if and only if ranges that start together end together |
| `TraceReport.SharedStartFindsOuter` | tools/canvas_trace_report.py:147-155 | Two ranges that start together: the outer one is reported |
| `TraceReport.AgentTotals` | tools/canvas_trace_report.py:188-193 | The first pass sums each agent's time in the window and keeps the agents in order of appearance |
| `TraceReport.AgentTimeOfRows` | tools/canvas_trace_report.py:188-193 | An agent's figure is the time of its own rows in the window |
| `TraceReport.FirstsInOrder` | tools/canvas_trace_report.py:188-193 | The agents come in the order their first rows have, none twice |
| `TraceReport.Busiest` | tools/canvas_trace_report.py:197-198 | The first of the agents with the most time |
| `TraceReport.Accumulate` | tools/canvas_trace_report.py:204-222 | The second pass leaves in every counter the tally over the dispatches that count |
| `TraceReport.TallyEntry` | tools/canvas_trace_report.py:217-222 | A counter's entry is the sum over its own items, and only keys that occur have one |
| `TraceReport.TotalsOfRows` | tools/canvas_trace_report.py:204-222 | All counters in terms of the rows: which count, and that the phase is that of the start |
| `TraceReport.CountersAgree` | tools/canvas_trace_report.py:215-222 | All six counters sum to the same total and the same number of dispatches |
| `TraceReport.KernelsRefineFamilies` | tools/canvas_trace_report.py:219-222 | The kernel table breaks every family's time and count down exactly |
| `TraceReport.TotalIsAgents` | tools/canvas_trace_report.py:187-216 | What the report sums is the first pass's figure: the chosen agent's own, or the sum over agents |
| `TraceReport.DefaultIsBusiest` | tools/canvas_trace_report.py:183-202 | The default covers the busiest agent alone, unless that agent is called "all" or has no name: then it sums all |
| `TraceReport.ChooseAgent` | tools/canvas_trace_report.py:187-202 | The filter is the agent asked for, "all" meaning none, or the busiest when there are several |
| `TraceReport.Report` | tools/canvas_trace_report.py:187-222 | Both passes together: the totals under the chosen filter, and what the default total then is |
| `ControlPanel.Settings` | control-panel/server.py:329-334 | A non-empty user value wins, an empty one leaves the default in force, empty defaults set nothing |
| `ControlPanel.NamesAgree` | control-panel/server.py:312-354 | The recorded project is the exported one if and only if the arbiter names it, or nothing else sets it, or it is set to that name |
| `ControlPanel.EnvironmentOf` | control-panel/server.py:336-354 | Variable by variable where a launch and a stop take it from |
| `ControlPanel.StopSeesLaunchEnv` | control-panel/server.py:386-392 | Stopping sees exactly the variables of an unleased launch if and only if the surroundings fix neither project variable to something else |
| `ControlPanel.StopMatchesLaunch` | control-panel/server.py:385-402 | Stopping a recorded launch takes its own project down with its own profile and kind of file |
| `ControlPanel.UntrackedStop` | control-panel/server.py:371-384 | A key without a record stops exactly the containers with the label of the orphan it names, and nothing else |
| `ControlPanel.LiveGpuProjectStoppableIff` | control-panel/server.py:521-541 | A live GPU project can be stopped by one stop if and only if some record is about it or none sits under its orphan key |
| `ControlPanel.SecondStopReachesOrphan` | control-panel/server.py:368-405 | A record under the orphan's key takes one stop and is forgotten; the next stop of that key reaches the orphan |
| `ControlPanel.OrphanListedIff` | control-panel/server.py:521-541 | An untracked project is listed if and only if it carries the GPU prefix and a container of it runs or is paused |
| `ControlPanel.EveryRecordShown` | control-panel/server.py:505-541 | A record is up if and only if a member of its project runs, or, when it has none, a container named like it; all other entries are running orphans |
| `ControlPanel.ExitedIsDown` | control-panel/server.py:511-516 | A record whose only container has exited is down, even beside a running container named like its project |
| `ControlPanel.Panel.LoadState` | control-panel/server.py:70-76 | A missing or unreadable file reads as no records |
| `ControlPanel.Panel.SaveState` | control-panel/server.py:79-81 | The file holds the state afterwards |
| `ControlPanel.Panel.Start` | control-panel/server.py:335-364 | A launch issues one command and stores its record beside the others |
| `ControlPanel.Panel.DoUp` | control-panel/server.py:328-365 | Launching a profile: command, record and key; an unknown repository changes nothing |
| `ControlPanel.Panel.DoCustom` | control-panel/server.py:446-475 | Launching a custom file the same way; a rejected one changes neither the jobs nor the state file |
| `ControlPanel.Panel.DoDown` | control-panel/server.py:368-405 | Stopping a tracked key takes its project down and forgets it; an orphan's containers are removed; anything else is refused |
| `ControlPanel.Panel.BuildState` | control-panel/server.py:500-541 | The listing: every record with its live status, then every running GPU project no record names |
| `PanelSafety.ClashingIff` | control-panel/server.py:355 | Some key of a repository is that of a GPU orphan under any label if and only if its id is "orphan" or starts with "orphan::lease-" |
| `PanelSafety.ComposeClashingIff` | control-panel/server.py:355 | Under a name compose can create, if and only if its id is "orphan" |
| `PanelSafety.StepKeepsSafe` | control-panel/server.py:328-405 | No step of any request, job, container or file loss puts a record under such a key |
| `PanelSafety.GpuProjectsStayStoppable` | control-panel/server.py:521-541 | In every state reachable by interleaved requests, late jobs, container changes and loss of the file, every live GPU project can be stopped from the panel |
| `PanelSafety.AlwaysStoppableIff` | control-panel/server.py:521-541 | For any set of GPU projects, every live one is stoppable by one stop in every reachable state if and only if no repository has a key one of them gets as an orphan |
| `PanelSafety.ComposeProjectsStoppableIff` | control-panel/server.py:521-541 | For the projects compose can create: if and only if no repository is called "orphan" |
| `PanelSafety.LabelledProjectsStoppableIff` | control-panel/server.py:521-541 | For projects under any label: if and only if none is called "orphan" or starts with "orphan::lease-" |
| `PanelLaunches.OwnGpuContainersStayStoppable` | control-panel/server.py:312-322 | Whatever a GPU launch of the panel started can be stopped as long as it runs, when nothing but the panel names the project |
| `PanelLaunches.LaunchStoppableIff` | control-panel/server.py:335-364 | The container of an undisturbed launch can be stopped if and only if its project is the recorded one or carries the GPU prefix |
| `PanelRuns.InterleavedLaunchIsForgotten` | control-panel/server.py:359-364 | Two launches that read the file before either writes it leave only the second record |
| `PanelRuns.OrphanStopEmptiesIt` | control-panel/server.py:375-384 | Stopping an orphan leaves none of its containers and touches no other |
| `PanelRuns.StopRun` | control-panel/server.py:368-405 | A whole undisturbed stop: the record is gone, its project has no container left and every other container is as it was |

## Left out

- GPU kernels, tensor operations, graph capture and model loading: foreign code whose bodies are not part
  of the repository's Python.
- Floating-point rounding, NaN and dtype casts: the models compute with reals. Where the source would
  continue with NaN after an empty cell, `LloydMax.LloydMax` returns nothing.
- GatedDelta.GapBounded: the storage error eps per step is an input; that a particular format stays within
  it for a given state is floating-point analysis and is not modelled. The source's thresholds on relative
  error and cosine over random streams are measurements.
- GatedDeltaSlots.HeadTokens: the gate formulas (softplus, exp, sigmoid, normalization with its epsilon and
  the query scale) are abstract; a token carries their results.
- GatedDeltaSlots.VerifyBatch: asks for distinct slots; the general loop, shared slots included, is
  SlotScan.PrefillVerify.
- CausalConv.WindowIsDirectSum: channels do not interact, so one channel is modelled, with its activation
  as a parameter; the slot loops run it as one head per channel.
- SlotScan.PrefillVerify: also stands for the plain prefill, whose loop is the same without the snapshots;
  the chunked prefill kernels are not modelled.
- TurboQuantMse.MseIsOptimal: the norm is any positive number, which covers the source's half-precision norm
  and its floor; the sign and projection draws are inputs. The two-stage product quantizer, NVFP4, fp8 and the
  attention metrics are not modelled.
- DraftRing.Ring.Propose: one slot at a time; the frame clauses say that slots do not disturb each other,
  which is what batching over distinct slots needs. The k and v buffers, always written together, are one
  buffer. The head's projection and the choice of the next token are functions of what the head may see.
- DraftRing.Ring.Step: attention outputs and the builder's metadata are not modelled, only the columns kept.
- PrefixRing.Ring.Stage: asks for a prefix at least as long as the staged tail, as the source's slices
  do; position tables shared by layers of equal capacity are one ring each.
- PrefixRing.Ring.Fill: takes any chunk size; the source's is 2048.
- DeficitScheduler.UsableInTurn: the credential pattern is a parameter, and building the sources, shuffling
  them and writing the manifest are not modelled.
- SchedulerFairness.EveryPrefixIsFair: holds while no source is used up, as the original promise does.
- AmaxGather.GatherOfShardsIff: what the caches do with replicated groups of heads while serving is not
  modelled, only their number of heads per rank.
- AmaxGather.Gather: the process group is a function that copies the root's buffer; layer selection and
  the text chunking of the same file are not modelled.
- AmaxGather.SplitGathersToGlobal: maxima of magnitudes, with 0 for a head that was never observed.
- KernelNotes.ParseNotesText: starts from lines, so the splitting of the text is left out; integer
  parsing is a parameter, since the round trip does not depend on it.
- MangledNames.Family: digits are the ten ASCII ones.
- TraceReport.Accumulate: reading rows from files, column-name fallbacks, the family patterns and the
  shortened kernel name are parameters; shares and printing are left out.
- ControlPanel.Panel.DoUp: HTTP, authentication, compose files and their defaults, card detection, model lists and
  logs are left out; processes are commands whose effect on the containers is a later step. Names come as
  given, so deriving them (slugs) is left out, as it would only add easy members.
- ControlPanel.Panel.DoCustom: whether the file parses and compose accepts it is an input, and the custom
  files themselves, which even a rejected one overwrites, are not modelled.
- ControlPanel.Panel.DoDown: where a stop sees docker is one point in time; removal of records happens even
  if the command later fails, as in the source.
- ControlPanel.LiveGpuProjectStoppableIff: it is about one stop in one state, and a stop ends a project by
  its name; which of its services the recorded profile reaches is left to compose.
- PanelSafety.GpuProjectsStayStoppable: a state file with valid content of the wrong shape is not modelled;
  a lost, cut-short or stale one is.
- The arbiter is taken at its documented word that it exports the project name; it is not part of this model.
- The register occupancy formula and the other tools' timing and table code: correct but easy.
