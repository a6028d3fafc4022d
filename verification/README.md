# Verified models of the workloads and runtime

This project models, in Dafny 4.11, the algorithms that the processor of this repository runs and the runtime it needs
for them, and proves what they are for. `dafny verify dfyconfig.toml` checks everything.

| part | modules | main result |
|---|---|---|
| Skew (DC3) suffix array | `Perm`, `RadixPass`, `SuffixOrder`, `SkewSample`, `SkewMerge`, `SuffixArray` | the array computed is *the* suffix array |
| Dinic's maximum flow | `FlowNetwork`, `LevelGraph`, `Dinic` | the flow is maximum, the last search's cut minimum; the phases are bounded |
| RV32I on eight base instructions | `Machine`, `Scratch`, `MiniRv`, `Tables`, `Effects`, `Macro*`, `ShiftArith`, `Rv32`, `Expand`, `Destinations`, `Processor`, `SimRelation`, `Simulation`, `GenLut`, `Witness` | the expanded program simulates the original one, over whole runs |
| 64-bit division, double-word multiply and shift | `Bits`, `CountZeros`, `Division`, `SignedDivision`, `Multiply` | exact results for all operands; the one signed overflow characterised |
| CoreMark's linked list | `MergeSpec`, `Mergesort`, `ListEdit` | an in-place, stable sort; removal and its undo |
| QuickLZ level 2 compressor | `QlzTokens`, `QlzFormat`, `QlzEmit`, `QlzGreedy`, `QlzHash`, `QlzTable`, `QlzCompress`, `QuickLz` | the one output that the rules of greedy matching and of giving up call for; bounded, and the source can be recovered |
| Page tables | `PageTables`, `Vme`, `AddressSpace`, `KernelInit`, `KernelMaps`, `Teardown`, `MapCalls` | the tree refines a flat map over any sequence of calls, permissions included; no page is lost from protect to unprotect |
| Brainfuck compiler and executor | `Brainfuck`, `BfCompile`, `BfSource` | the machine stops with a tape exactly when the source text does, character by character |
| 15-puzzle | `Inversions`, `Puzzle`, `PuzzleDistance`, `PuzzleBound`, `ThreeCycles`, `PuzzleSnake`, `PuzzleSolvable` | solvable() accepts exactly the boards that can be solved; the lower bound is the tiles' distance from home, and admissible |
| n queens by bit masks | `BitMask`, `Queens` | the answer counts all placements, each once |
| Tasks on several CPUs | `ThreadOs` | exclusion, resumption and fairness over every interleaving |
| M-step Fibonacci by matrix power | `MatrixAlgebra`, `MatrixFib` | the corner of the power is the recurrence |
| Streaming SHA-256 | `Sha256Spec`, `Sha256`, `Sha256Bits`, `Sha256Constants`, `Sha256Abc` | any chunking gives the FIPS 180-4 hash, whose functions and constants are derived bit by bit |

Conventions. Machine words are naturals, with the wrap-around written out; bit operations on them (`Bits`) are defined bit
by bit and related to arithmetic by lemmas. Only the SHA-256 words are bit-vectors. Code that works in place is modelled
by methods over arrays and classes, each tied to a specification function or predicate on values, and the lemmas are
about those. Hidden function bodies (`hide`) keep the proof obligations small.

## Results that are not what a reader might expect

- **Some macros do not suit every destination.** seqz and seq restore s0 (and s1) after writing rd, so `seqz s0, x` and
  `seq s1, x, y` leave the old value; and with rd = sp the restoring loads go through the new sp. lb and sltz store below
  sp after writing rd, so with rd = sp they write elsewhere: below a number under 511, wrapping around below 0, and lb also
  below a word it finds there. `Destinations` gives the exact conditions for each
  state; `Witness` gives a state on which each of these destinations goes wrong, hence exactly which destinations suit
  each macro (`Witness.DestinationsExactly`). not and srai by 24 are right for sp. The conditional
  branches use tp as the destination of seqz and seq and are not affected.
- **Other operand conditions** (`Expand.Allowed`), beyond the assumption that tp and gp are not used (inst-replace.h:6):
  the logic macros abort on sp, and the two-byte accesses need an offset that leaves room for `1 +`.
- **Dinic's phases.** DFS starts with the finite INF = 0x3f3f3f, so a phase may use that up without blocking the level
  graph, and "at most n - 1 phases" holds only below that: `Dinic.Dinic.Maxflow` bounds the phases by n - 1 plus the
  number of times INF goes into the flow, and from below by the flow over INF.
- **INT64_MIN / -1** wraps to INT64_MIN with remainder 0; `SignedDivision.SignedResults` shows it is the only pair of
  operands on which the C quotient is not returned.
- **The int8_t distance of the puzzle** is exact on all boards up to 5 by 5 and wraps on some from 6 by 6 on
  (`PuzzleDistance.SizeDecides`). A wrapped bound is lower, so `lower_bound()` stays admissible.
- **SHA-256 counts bits in 32 bits.** `Sha256.PaddingExact`: the padding is the standard's exactly for messages below
  2^29 bytes.
- **The scheduler's scan** loops forever on a CPU whose number no task has; `ThreadOs.ScanEnds`.
- **core_list_mergesort's empty list.** A comment speaks of the case nmerges == 0, but before that test the code writes
  through a null tail: `Mergesort.CoreListMergesort` is not ok exactly then.

## Model

| member | source | states |
|---|---|---|
| `SuffixArray.SuffixArray` | 3rd-party/am-kernels/benchmarks/microbench/src/ssort/ssort.cc:25-85 | for every string over 1..K of length n >= 2 with three zeros behind it, terminates with SA[..n] the suffix array: a permutation of 0..n-1 whose suffixes strictly increase; the rest of SA is untouched |
| `SuffixOrder.SuffixArrayUnique` | 3rd-party/am-kernels/benchmarks/microbench/src/ssort/ssort.cc:25 | a text has at most one suffix array, so that result is determined |
| `RadixPass.Sort` | 3rd-party/am-kernels/benchmarks/microbench/src/ssort/ssort.cc:13-23 | the counting sort equals the stable order by key (independent definition: buckets of ascending key, each in the order of the input), and writes nothing else |
| `RadixPass.StablePermutation` | 3rd-party/am-kernels/benchmarks/microbench/src/ssort/ssort.cc:13 | the stable order by key is a permutation of its input |
| `RadixPass.StableOrder` | 3rd-party/am-kernels/benchmarks/microbench/src/ssort/ssort.cc:13 | whatever order P the input already has is refined: keys first, P among equal keys; this is what makes three passes sort triples |
| `RadixPass.CountKeys` | 3rd-party/am-kernels/benchmarks/microbench/src/ssort/ssort.cc:17-18 | after the counting loop c[k] is the number of members with key k |
| `RadixPass.PrefixSums` | 3rd-party/am-kernels/benchmarks/microbench/src/ssort/ssort.cc:19-21 | after the prefix sums c[k] is the number of members with a smaller key, the final offset of bucket k |
| `SkewSample.Positions` | 3rd-party/am-kernels/benchmarks/microbench/src/ssort/ssort.cc:36 | the positions listed are exactly the ones congruent to 1 or 2 modulo 3 (with the dummy when n % 3 == 1), each once |
| `SkewSample.SamplePass` | 3rd-party/am-kernels/benchmarks/microbench/src/ssort/ssort.cc:38-41 | one pass keeps the sample a permutation and refines its order by one more symbol |
| `SkewSample.SortTriples` | 3rd-party/am-kernels/benchmarks/microbench/src/ssort/ssort.cc:38-41 | the three passes list every sampled position once, ascending by triple |
| `SkewSample.NameTriples` | 3rd-party/am-kernels/benchmarks/microbench/src/ssort/ssort.cc:43-51 | after naming, equal triples have equal names, larger triples larger names, and every slot has one |
| `SkewSample.NamesFrom` | 3rd-party/am-kernels/benchmarks/microbench/src/ssort/ssort.cc:43-51 | so the reduced string over 1..name orders its symbols as the text orders its triples |
| `SuffixOrder.LessIsLexLess` | 3rd-party/am-kernels/benchmarks/microbench/src/ssort/ssort.cc:25 | the padded comparison used inside the proof is the lexicographic order of suffixes |
| `SuffixOrder.TripleDecides` | 3rd-party/am-kernels/benchmarks/microbench/src/ssort/ssort.cc:7-12 | a smaller triple means a smaller suffix, zeros included |
| `SuffixOrder.TripleTie` | 3rd-party/am-kernels/benchmarks/microbench/src/ssort/ssort.cc:7-12 | equal triples at different positions hold no padding and pass the comparison on to the positions three on |
| `SuffixOrder.ReducedOrder` | 3rd-party/am-kernels/benchmarks/microbench/src/ssort/ssort.cc:53-59 | suffixes of the reduced string compare exactly as the suffixes of the text they stand for, across the seam between the two halves |
| `SuffixArray.UniqueNamesSorted` | 3rd-party/am-kernels/benchmarks/microbench/src/ssort/ssort.cc:58-59 | when every name is in use, listing slots by name lists them by suffix |
| `SuffixArray.ReducedSorted` | 3rd-party/am-kernels/benchmarks/microbench/src/ssort/ssort.cc:55 | the suffix array of the reduced string lists the slots by suffix of the text |
| `SuffixArray.RankSample` | 3rd-party/am-kernels/benchmarks/microbench/src/ssort/ssort.cc:53-59 | on both branches SA12 lists the sample by suffix and s12 holds the ranks |
| `SkewMerge.InvertNames` | 3rd-party/am-kernels/benchmarks/microbench/src/ssort/ssort.cc:59 | SA12 becomes the inverse of the names |
| `SkewMerge.WriteRanks` | 3rd-party/am-kernels/benchmarks/microbench/src/ssort/ssort.cc:57 | every slot gets its rank |
| `SkewMerge.ZeroSuffixes` | 3rd-party/am-kernels/benchmarks/microbench/src/ssort/ssort.cc:62 | s0 lists every position 0 modulo 3 once, in the order of the suffixes behind them |
| `SkewMerge.SortZeros` | 3rd-party/am-kernels/benchmarks/microbench/src/ssort/ssort.cc:63 | SA0 lists the mod 0 positions in the order of their suffixes |
| `SkewMerge.CompareMod1` | 3rd-party/am-kernels/benchmarks/microbench/src/ssort/ssort.cc:71 | a mod 1 suffix against a mod 0 suffix is decided by one symbol and ranks |
| `SkewMerge.CompareMod2` | 3rd-party/am-kernels/benchmarks/microbench/src/ssort/ssort.cc:72 | a mod 2 suffix against a mod 0 suffix is decided by two symbols and ranks |
| `SkewMerge.CompareDecides` | 3rd-party/am-kernels/benchmarks/microbench/src/ssort/ssort.cc:70-72 | the test of the merge holds exactly when the sampled suffix is the smaller one |
| `SkewMerge.MergeTake` | 3rd-party/am-kernels/benchmarks/microbench/src/ssort/ssort.cc:66-84 | taking the smaller head keeps: what is written is ascending and below everything still to come, and nothing is lost |
| `SkewMerge.Merge` | 3rd-party/am-kernels/benchmarks/microbench/src/ssort/ssort.cc:65-84 | the merge loop with both of its copying endings writes every suffix once, ascending |
| `SkewMerge.AscendingIsSuffixArray` | 3rd-party/am-kernels/benchmarks/microbench/src/ssort/ssort.cc:25 | n ascending suffixes are the suffix array |
| `Dinic.Dinic.constructor` | 3rd-party/am-kernels/benchmarks/microbench/src/dinic/dinic.cc:28-45 | an empty valid network on n vertices with room for maxm edges |
| `Dinic.Dinic.AddEdge` | 3rd-party/am-kernels/benchmarks/microbench/src/dinic/dinic.cc:47-55 | appends the edge and its zero-capacity mate at i ^ 1 (nothing for capacity 0) and keeps the adjacency lists complete |
| `LevelGraph.LinkedAppend` | 3rd-party/am-kernels/benchmarks/microbench/src/dinic/dinic.cc:49-51 | prepending to a list leaves every vertex's list exactly its edges, newest first |
| `Dinic.Dinic.BFS` | 3rd-party/am-kernels/benchmarks/microbench/src/dinic/dinic.cc:57-75 | visited vertices are closed under residual edges and have levels 0..n-1; every one but s is entered by an edge with room from one level above, and no edge with room climbs more than one level; returns vis[t] |
| `Dinic.Dinic.DFS` | 3rd-party/am-kernels/benchmarks/microbench/src/dinic/dinic.cc:77-91 | pushes flow <= a from x to t over admissible edges of the phase, keeps the network valid, changes only edges from the level of x on, and delivers less than a only if t can no longer be reached from x in the level graph; terminates although d is stale at unvisited vertices |
| `LevelGraph.LevelIsDistance` | 3rd-party/am-kernels/benchmarks/microbench/src/dinic/dinic.cc:57-75 | after the search visited means reachable, and the level is the length of a shortest walk of edges with room |
| `LevelGraph.DeadStays` | 3rd-party/am-kernels/benchmarks/microbench/src/dinic/dinic.cc:83-84 | pushes only take edges out of the level graph: a vertex cut off from t stays cut off for the rest of the phase |
| `LevelGraph.PhaseRaises` | 3rd-party/am-kernels/benchmarks/microbench/src/dinic/dinic.cc:93-102 | after a phase no walk to t is shorter than before, and when the phase blocked the level graph every walk is longer |
| `Dinic.NextPhase` | 3rd-party/am-kernels/benchmarks/microbench/src/dinic/dinic.cc:93-102 | hence the sink level found by successive searches never falls, and rises after each phase that pushed less than INF |
| `Dinic.EdgeFacts` | 3rd-party/am-kernels/benchmarks/microbench/src/dinic/dinic.cc:82 | why stale levels are harmless: an edge with room from a visited vertex leads to a visited vertex, whose level is current |
| `Dinic.AugmentAdvances` | 3rd-party/am-kernels/benchmarks/microbench/src/dinic/dinic.cc:83-85 | pushing over one edge completes the way of the units that reached t from its head |
| `FlowNetwork.PushKeepsNetwork` | 3rd-party/am-kernels/benchmarks/microbench/src/dinic/dinic.cc:83-84 | changing an edge by f and its mate by -f keeps capacities and skew symmetry |
| `FlowNetwork.PushNetOut` | 3rd-party/am-kernels/benchmarks/microbench/src/dinic/dinic.cc:83-84 | a push moves f between its two end points and disturbs conservation nowhere else |
| `LevelGraph.SourceAlive` | 3rd-party/am-kernels/benchmarks/microbench/src/dinic/dinic.cc:96-99 | a phase whose search reached t does not start from a dead source |
| `Dinic.FlowStep` | 3rd-party/am-kernels/benchmarks/microbench/src/dinic/dinic.cc:96-99 | hence every phase pushes at least one unit, and the total stays below what can leave s: the outer loop terminates |
| `Dinic.Dinic.Maxflow` | 3rd-party/am-kernels/benchmarks/microbench/src/dinic/dinic.cc:93-102 | terminates; edges and capacities unchanged; started from a conserved flow the result is conserved, maximum among all flows on the network, equal to the capacity of the cut vis, and that cut is minimum; the number of phases is at least flow / INF and at most n - 1 + flow / INF |
| `LevelGraph.ClosedSaturates` | 3rd-party/am-kernels/benchmarks/microbench/src/dinic/dinic.cc:96 | a search that missed t leaves a cut without room |
| `FlowNetwork.ValueAcrossCut` | 3rd-party/am-kernels/benchmarks/microbench/src/dinic/dinic.cc:93-102 | the value of a conserved flow is its net flow over any cut |
| `FlowNetwork.FlowAtMostCut` | 3rd-party/am-kernels/benchmarks/microbench/src/dinic/dinic.cc:93-102 | weak duality: no flow exceeds any cut |
| `FlowNetwork.SaturatedIsOptimal` | 3rd-party/am-kernels/benchmarks/microbench/src/dinic/dinic.cc:93-102 | a flow that saturates a cut is maximum and the cut is minimum |
| `Dinic.ZeroFlowConserved` | 3rd-party/am-kernels/benchmarks/microbench/src/dinic/dinic.cc:47-55 | a network as AddEdge builds it starts conserved with value 0 |
| `Division.Udivmoddi4` | 3rd-party/abstract-machine/klib/src/int64.c:412-620 | quotient and remainder, for all 64-bit a and all b != 0, on every special-case path |
| `Division.DivideByHigh` | 3rd-party/abstract-machine/klib/src/int64.c:446-506 | the divisor's low word is zero: both special cases and the general shift |
| `Division.DivideByLow` | 3rd-party/abstract-machine/klib/src/int64.c:510-558 | the divisor's high word is zero: power of two, and shifts by less than, exactly and more than a word |
| `Division.DivideByBoth` | 3rd-party/abstract-machine/klib/src/int64.c:559-589 | neither word is zero: early exit and general shift |
| `Division.ShiftSubtract` | 3rd-party/abstract-machine/klib/src/int64.c:597-620 | the shift-subtract loop turns q = a << (64 - sr), r = a >> sr into quotient and remainder |
| `Division.DivStep` | 3rd-party/abstract-machine/klib/src/int64.c:599-616 | one round keeps the invariant: bits still to come on top of q, quotient bits below, remainder below d |
| `Division.SignDecides` | 3rd-party/abstract-machine/klib/src/int64.c:612 | the branchless comparison (d - r - 1) >> 63 is all ones exactly when r >= d, for divisors above 2^63 under the condition that holds there |
| `Division.StepsHigh` | 3rd-party/abstract-machine/klib/src/int64.c:491-573 | clz(d) - clz(n) as an unsigned word is huge exactly when n has fewer bits |
| `Division.StepsLow` | 3rd-party/abstract-machine/klib/src/int64.c:531 | 1 + 32 + clz(d.low) - clz(n.high) lies in 2..63 |
| `SignedDivision.Divdi3` | 3rd-party/abstract-machine/klib/src/int64.c:355-365 | the word of the quotient rounded toward zero |
| `SignedDivision.Moddi3` | 3rd-party/abstract-machine/klib/src/int64.c:379-390 | the word of the remainder with the dividend's sign |
| `SignedDivision.Divmoddi4` | 3rd-party/abstract-machine/klib/src/int64.c:369-375 | both, the remainder computed modulo 2^64 from the quotient |
| `SignedDivision.SignedResults` | 3rd-party/abstract-machine/klib/src/int64.c:353-390 | read as signed words these are the C quotient and remainder if and only if the operands are not INT64_MIN / -1, where the quotient wraps to INT64_MIN and the remainder is 0 |
| `SignedDivision.TruncatedUnique` | 3rd-party/abstract-machine/klib/src/int64.c:353 | at most one pair (q, r) satisfies the definition of truncated division |
| `CountZeros.Clzsi2` | 3rd-party/abstract-machine/klib/src/int64.c:626-655 | exactly the number of zeros above the highest one, without a branch |
| `CountZeros.Ctzsi2` | 3rd-party/abstract-machine/klib/src/int64.c:661-695 | exactly the number of zeros below the lowest one |
| `CountZeros.Clzdi2` | 3rd-party/abstract-machine/klib/src/int64.c:711-717 | the same for 64-bit words, through masks |
| `CountZeros.Ctzdi2` | 3rd-party/abstract-machine/klib/src/int64.c:703-709 | the same for 64-bit words, through masks |
| `Multiply.MulWord` | 3rd-party/abstract-machine/am/src/riscv/npc/libgcc/muldi3.S:36-48 | shift-and-add returns the product modulo 2^w, for any word width |
| `Multiply.ProductRound` | 3rd-party/abstract-machine/am/src/riscv/npc/libgcc/multi3.c:60-76 | the loop invariant: accumulated pair plus addend pair times the bits of v still to come is the whole product, and the addend pair loses nothing while bits remain |
| `Multiply.LowProduct` | 3rd-party/abstract-machine/am/src/riscv/npc/libgcc/multi3.c:56-77 | the exact double-word product of two words |
| `Multiply.Multi3` | 3rd-party/abstract-machine/am/src/riscv/npc/libgcc/multi3.c:40-86 | u * v modulo 2^(2w) for all double words |
| `Multiply.Ashldi3Shifts` | 3rd-party/abstract-machine/am/src/riscv/npc/libgcc/ashldi3.c:4-27 | u * 2^b modulo 2^(2w) for every 0 <= b < 2w, on all three branches |
| `Mergesort.CoreListMergesort` | 3rd-party/am-kernels/benchmarks/coremark/src/core_list_join.c:426-496 | writes through a null tail (not ok) exactly when the list is empty; otherwise terminates, changes only next fields of the list's nodes, and leaves them NULL-terminated in the order of the bottom-up merge specification |
| `MergeSpec.MergesortSorts` | 3rd-party/am-kernels/benchmarks/coremark/src/core_list_join.c:426-496 | for every total preorder that order is a permutation, sorted, and stable |
| `Mergesort.SortedList` | 3rd-party/am-kernels/benchmarks/coremark/src/core_list_join.c:426-496 | the two together: the relinked list is the stable sort of the original one |
| `Mergesort.MergePass` | 3rd-party/am-kernels/benchmarks/coremark/src/core_list_join.c:433-484 | one pass relinks the list as its specification, neighbouring runs merged pairwise; nmerges counts the merges; the write of line 484 is through null exactly for the empty list |
| `Mergesort.MergeRuns` | 3rd-party/am-kernels/benchmarks/coremark/src/core_list_join.c:455-479 | merging a run of psize with up to qsize following nodes, behind the current tail |
| `Mergesort.StepAlong` | 3rd-party/am-kernels/benchmarks/coremark/src/core_list_join.c:441-448 | q ends insize nodes on, or at the end of the list |
| `MergeSpec.PassDoublesRuns` | 3rd-party/am-kernels/benchmarks/coremark/src/core_list_join.c:431-495 | a pass over sorted stable runs of k leaves sorted stable runs of 2k |
| `MergeSpec.MergeOrdered` | 3rd-party/am-kernels/benchmarks/coremark/src/core_list_join.c:455-479 | merging keeps sortedness and stability (ties go to the first run) |
| `MergeSpec.MergePermutes` | 3rd-party/am-kernels/benchmarks/coremark/src/core_list_join.c:455-479 | merging loses and invents no node |
| `MergeSpec.OneMerge` | 3rd-party/am-kernels/benchmarks/coremark/src/core_list_join.c:486-491 | when a pass did at most one merge the list is one run |
| `Mergesort.CoreListReverse` | 3rd-party/am-kernels/benchmarks/coremark/src/core_list_join.c:395-403 | the same nodes in opposite order |
| `ListEdit.Remove` | 3rd-party/am-kernels/benchmarks/coremark/src/core_list_join.c:316-326 | item takes over its successor's data; the successor leaves the list carrying item's data; one position and one datum disappear |
| `ListEdit.UndoRemove` | 3rd-party/am-kernels/benchmarks/coremark/src/core_list_join.c:345-355 | links the removed node back behind the modified one and exchanges their data |
| `ListEdit.RemoveAndUndo` | 3rd-party/am-kernels/benchmarks/coremark/src/core_list_join.c:345-355 | undoing a removal restores order and data of the whole list |
| `ListEdit.InsertNew` | 3rd-party/am-kernels/benchmarks/coremark/src/core_list_join.c:282-303 | NULL exactly when either block is used up; otherwise the next free node enters behind the insertion point with a copy of the data |
| `ListEdit.Find` | 3rd-party/am-kernels/benchmarks/coremark/src/core_list_join.c:370-380 | the first node that matches by idx, or by low data byte for negative idx; NULL only when none does |
| `Simulation.RunSim` | 3rd-party/abstract-machine/tools/minirv/inst-replace.h:80-728 | the main theorem: for every program, every careful run of it and every related start, the expanded program runs to the corresponding instruction, with the same registers except tp and gp and the same memory except the dirty bytes below sp and the compare array |
| `Simulation.StepSim` | 3rd-party/abstract-machine/tools/minirv/inst-replace.h:80-728 | the same for one instruction of any kind, with the expansion placed in memory |
| `Expand.CalcRuns` | 3rd-party/abstract-machine/tools/minirv/inst-replace.h:80-657 | every computing macro (sub, slt*, logic, shifts, lb/lh/lhu, seqz, not, sltz): rd gets the value the ISA gives, and besides rd only tp, gp, the 28 scratch bytes and the compare array may change |
| `Destinations.SeqzExactly` | 3rd-party/abstract-machine/tools/minirv/inst-replace.h:255-273 | seqz is right if and only if: for rd = s0, s0 held the answer already; for rd = sp, the word below the answer is the old s0, in the memory as it was before the macro when that word is not where the macro works (and always as it is after); for every other rd, always |
| `Destinations.SeqExactly` | 3rd-party/abstract-machine/tools/minirv/inst-replace.h:226-247 | the same for seq, with both pops: rd = s0 or s1 must hold the answer already, rd = sp must find the old s1 and s0 below the answer |
| `Destinations.SltzExactly` | 3rd-party/abstract-machine/tools/minirv/inst-replace.h:122-126 | the sign arrives in every destination; into sp the second store lands below the doubled top byte, and the macro is right if and only if that changes nothing outside the scratch bytes and the compare array |
| `Destinations.LbExactly` | 3rd-party/abstract-machine/tools/minirv/inst-replace.h:570-576 | lb sp is right if and only if its two stray stores, given as a function of the memory before, change nothing outside the scratch bytes and the compare array |
| `Witness.DestinationsExactly` | 3rd-party/abstract-machine/tools/minirv/inst-replace.h:122-126 | on the flat layout each macro works for all operands and states if and only if: rd is not sp (sltz; lb, lines 570-576), not sp or s0 (seqz, lines 249-273), not sp, s0 or s1 (seq, lines 226-247) |
| `Witness.SltzIntoSpFails` | 3rd-party/abstract-machine/tools/minirv/inst-replace.h:122-126 | a state on which sltz sp, s0 writes a byte at 2^32 - 22 |
| `Witness.LbIntoSpFails` | 3rd-party/abstract-machine/tools/minirv/inst-replace.h:570-576 | a state on which lb sp, 0(s0) writes a byte at 2^32 - 12 |
| `Witness.SeqzIntoS0Fails` | 3rd-party/abstract-machine/tools/minirv/inst-replace.h:255-273 | a concrete state on which seqz s0, x0 leaves 5 instead of 1 |
| `Witness.SeqzIntoSpFails` | 3rd-party/abstract-machine/tools/minirv/inst-replace.h:249-273 | on the same state seqz sp, x0 loses s0 |
| `Witness.SeqFails` | 3rd-party/abstract-machine/tools/minirv/inst-replace.h:226-247 | and seq x0, x0 goes wrong into each of s0, s1 and sp |
| `MacroBasics.SubRuns` | 3rd-party/abstract-machine/tools/minirv/inst-replace.h:110-115 | rs1 - rs2 modulo 2^32, through the table-driven complement |
| `MacroBasics.NotRuns` | 3rd-party/abstract-machine/tools/minirv/inst-replace.h:629-657 | the complement, byte by byte through the xor table; gp is restored |
| `MacroBasics.MsbRuns` | 3rd-party/abstract-machine/tools/minirv/inst-replace.h:122-126 | the sign bit, for destinations other than sp (for sp see Destinations.SltzExactly) |
| `MacroCompare.SltRuns` | 3rd-party/abstract-machine/tools/minirv/inst-replace.h:128-163 | the table entry selected by three signs; s0 and s1 are restored |
| `MacroCompare.SignsDecide` | 3rd-party/abstract-machine/tools/minirv/inst-replace.h:49-63 | the signs of A, B and A - B decide signed and unsigned comparison, for the two tables as listed |
| `MacroLogic.LogicRuns` | 3rd-party/abstract-machine/tools/minirv/inst-replace.h:165-210 | and, or, xor of whole words; only tp is lost |
| `MacroLogic.WordBytewise` | 3rd-party/abstract-machine/tools/minirv/inst-replace.h:176-200 | a word operation is four byte operations |
| `MacroEqual.SeqzRuns` | 3rd-party/abstract-machine/tools/minirv/inst-replace.h:249-273 | the registers left for every destination other than sp, s0 included |
| `MacroEqual.SeqzIntoSp` | 3rd-party/abstract-machine/tools/minirv/inst-replace.h:249-273 | and for sp: the answer arrives, and s0 is loaded from below it |
| `MacroEqual.CheckSameRuns` | 3rd-party/abstract-machine/tools/minirv/inst-replace.h:213-224 | two stores into the compare array and a read tell whether two bytes agree, whatever the array held before |
| `MacroEqual.SeqRuns` | 3rd-party/abstract-machine/tools/minirv/inst-replace.h:226-247 | equality of words by four byte comparisons, for every destination other than sp |
| `MacroEqual.SeqIntoSp` | 3rd-party/abstract-machine/tools/minirv/inst-replace.h:226-247 | and for sp: the answer arrives, and s1 and s0 are loaded from below it |
| `MacroShift.GetShamtRuns` | 3rd-party/abstract-machine/tools/minirv/inst-replace.h:384-390 | the shift amount masked to five bits by table |
| `MacroShift.SllRuns` | 3rd-party/abstract-machine/tools/minirv/inst-replace.h:399-430 | left shift by a register, from four table entries |
| `MacroShiftRight.RightRuns` | 3rd-party/abstract-machine/tools/minirv/inst-replace.h:432-523 | logical and arithmetic right shift by a register |
| `MacroShiftRight.RightImmRuns` | 3rd-party/abstract-machine/tools/minirv/inst-replace.h:432-513 | the same by a constant, the fast path for 24 included |
| `MacroShiftRight.Sra24IntoSp` | 3rd-party/abstract-machine/tools/minirv/inst-replace.h:434-440 | the fast path of srai by 24 is right for sp too, since it uses no scratch byte after writing rd |
| `MacroSlli.SlliAll` | 3rd-party/abstract-machine/tools/minirv/inst-replace.h:526-552 | left shift by any constant, all four expansions |
| `ShiftArith.RightShiftParts` | 3rd-party/abstract-machine/tools/minirv/inst-replace.h:475-512 | a right shift is the shifted top byte plus the shifted rest, and only the top byte carries the sign |
| `ShiftArith.LeftShiftParts` | 3rd-party/abstract-machine/tools/minirv/inst-replace.h:412-429 | the four partial products add up to the left shift modulo 2^32 |
| `ShiftArith.LowCombine` | 3rd-party/abstract-machine/tools/minirv/inst-replace.h:482-502 | three bytes assembled from three table entries fit together without carries |
| `MacroLoads.LbRuns` | 3rd-party/abstract-machine/tools/minirv/inst-replace.h:570-576 | the sign-extended byte, for destinations other than sp (for sp see Destinations.LbExactly) |
| `MacroLoads.LhuRuns` | 3rd-party/abstract-machine/tools/minirv/inst-replace.h:578-585 | halfword from two byte loads |
| `MacroLoads.LhRuns` | 3rd-party/abstract-machine/tools/minirv/inst-replace.h:587-595 | sign-extended halfword |
| `MacroLoads.ShRuns` | 3rd-party/abstract-machine/tools/minirv/inst-replace.h:597-601 | both bytes stored, nothing else outside the scratch bytes |
| `MacroBranch.NotPositiveRuns` | 3rd-party/abstract-machine/tools/minirv/inst-replace.h:336-344 | two sign bits and a table decide x <= 0 |
| `MacroBranch.BranchTestRuns` | 3rd-party/abstract-machine/tools/minirv/inst-replace.h:299-382 | every form of every branch computes the ISA's condition into tp, or its negation where the macro selects the other way |
| `MacroBranch.ResolveRuns` | 3rd-party/abstract-machine/tools/minirv/inst-replace.h:277-292 | tp picks the target or the fall-through address from a two-entry table on the stack |
| `Simulation.BranchRuns` | 3rd-party/abstract-machine/tools/minirv/inst-replace.h:277-382 | a whole branch block reaches the target exactly when the condition holds |
| `Simulation.JumpExact` | 3rd-party/abstract-machine/tools/minirv/inst-replace.h:618-627 | jalr clears no bit of an instruction address |
| `SimRelation.PlainSame` | 3rd-party/abstract-machine/tools/minirv/inst-replace.h:2 | a base instruction with agreeing operands keeps the relation |
| `SimRelation.ValueSame` | 3rd-party/abstract-machine/tools/minirv/inst-replace.h:5-7 | agreeing operands give agreeing values, so unrelated scratch contents cannot leak into results |
| `SimRelation.KeepSim` | 3rd-party/abstract-machine/tools/minirv/inst-replace.h:5-7 | a macro with the right value keeps the relation; its scratch bytes become dirty |
| `Rv32.ExecTyped` | 3rd-party/abstract-machine/tools/minirv/inst-replace.h:2 | the ISA semantics keep registers words and memory bytes |
| `Machine.StepTyped` | 3rd-party/abstract-machine/tools/minirv/inst-replace.h:2 | so do the eight base instructions |
| `Machine.HiLo` | 3rd-party/abstract-machine/tools/minirv/inst-replace.h:605-608 | %hi and %lo add up to the address |
| `Machine.RunAppend` | 3rd-party/abstract-machine/tools/minirv/inst-replace.h:80-728 | straight-line code composes |
| `Processor.BlockRuns` | 3rd-party/abstract-machine/tools/minirv/inst-replace.h:80-728 | a block in code memory does what straight-line execution says |
| `Tables.DoRomByte` | 3rd-party/abstract-machine/tools/minirv/inst-replace.h:39-78 | a table read returns the table's entry |
| `Witness.StartOK` | 3rd-party/abstract-machine/tools/minirv/inst-replace.h:39-90 | the relation has a concrete starting state for any table file, so the theorem is not empty |
| `GenLut.GenTable` | 3rd-party/abstract-machine/tools/minirv/gen-lut.c:10-17 | appends one table, entry (j, i) where row-major order puts it, little-endian |
| `GenLut.Generate` | 3rd-party/abstract-machine/tools/minirv/gen-lut.c:6-29 | the finished file holds the six tables one after the other |
| `GenLut.LutServes` | 3rd-party/abstract-machine/tools/minirv/gen-lut.c:19-24 | placed at the table label, the file holds what the macros look up at the offsets they compute |
| `GenLut.FlatLayoutOK` | 3rd-party/abstract-machine/tools/minirv/inst-replace.h:39-90 | the layout the macros ask for exists |
| `Queens.Run` | 3rd-party/am-kernels/benchmarks/microbench/src/queen/queen.c:26-28 | for 0 <= n <= 31 the answer is, modulo 2^32, the length of every duplicate-free list of exactly all placements of n non-attacking queens |
| `Queens.PlacementsListed` | 3rd-party/am-kernels/benchmarks/microbench/src/queen/queen.c:5-17 | such a list exists, and all of them have the same length |
| `Queens.Dfs` | 3rd-party/am-kernels/benchmarks/microbench/src/queen/queen.c:5-17 | for every partial placement the call returns the number of its completions modulo 2^32 |
| `Queens.OpenColumns` | 3rd-party/am-kernels/benchmarks/microbench/src/queen/queen.c:9 | pos holds exactly the free columns of the next row |
| `Queens.NextMasks` | 3rd-party/am-kernels/benchmarks/microbench/src/queen/queen.c:13 | the shifted masks are exactly the attacks on the row after |
| `Queens.FullWhenDone` | 3rd-party/am-kernels/benchmarks/microbench/src/queen/queen.c:6 | row == FULL exactly when every row has its queen |
| `Queens.CompletionsExact` | 3rd-party/am-kernels/benchmarks/microbench/src/queen/queen.c:5-17 | the enumeration contains a placement if and only if it is a non-attacking completion |
| `Queens.CompletionsDistinct` | 3rd-party/am-kernels/benchmarks/microbench/src/queen/queen.c:5-17 | and contains none twice |
| `BitMask.LowestBit` | 3rd-party/am-kernels/benchmarks/microbench/src/queen/queen.c:11 | pos & (~pos + 1) is the lowest one |
| `Puzzle.Make` | 3rd-party/am-kernels/benchmarks/microbench/src/15pz/puzzle.h:78-115 | the array constructor: valid exactly when the entries are a permutation; blank position and distance as stored |
| `Puzzle.MoveExchanges` | 3rd-party/am-kernels/benchmarks/microbench/src/15pz/puzzle.h:203-305 | each of the four moves exchanges the blank with a neighbour, stays on the board, and changes the Manhattan distance by exactly 1; the incremental distance update is the recomputed one |
| `Puzzle.MoveKeepsSolvable` | 3rd-party/am-kernels/benchmarks/microbench/src/15pz/puzzle.h:316-347 | a move keeps solvable() |
| `Puzzle.MovesKeep` | 3rd-party/am-kernels/benchmarks/microbench/src/15pz/puzzle.h:203-347 | so does every legal sequence; the distance changes by at most its length |
| `Puzzle.Admissible` | 3rd-party/am-kernels/benchmarks/microbench/src/15pz/puzzle.h:360-362 | lower_bound() never exceeds the length of any sequence of moves that solves the puzzle |
| `PuzzleBound.BoundIs` | 3rd-party/am-kernels/benchmarks/microbench/src/15pz/puzzle.h:360-362 | on every valid board it is, as an int8_t, the sum over the tiles of the row and column differences between where the tile is and its home: exact if and only if that sum is at most 127, which up to 5 by 5 it always is, and then 0 exactly on the solved board |
| `PuzzleBound.BoundOfInvalid` | 3rd-party/am-kernels/benchmarks/microbench/src/15pz/puzzle.h:360-362 | on an invalid board it is N cubed |
| `PuzzleBound.MoveBound` | 3rd-party/am-kernels/benchmarks/microbench/src/15pz/puzzle.h:203-305 | every legal move changes it by exactly 1 as long as the sum stays within 127 |
| `PuzzleBound.ManhattanIs` | 3rd-party/am-kernels/benchmarks/microbench/src/15pz/puzzle.h:78-115 | the distance kept with the board, summed over cells and measured from the blank cell's place, is that sum over the tiles |
| `PuzzleBound.NoDistance` | 3rd-party/am-kernels/benchmarks/microbench/src/15pz/puzzle.h:78-115 | the sum is 0 exactly on the solved board |
| `Puzzle.UnsolvableStays` | 3rd-party/am-kernels/benchmarks/microbench/src/15pz/puzzle.h:316-347 | a puzzle that solvable() rejects is solved by no sequence of moves |
| `PuzzleSolvable.SolvableExactly` | 3rd-party/am-kernels/benchmarks/microbench/src/15pz/puzzle.h:316-347 | solvable() accepts exactly the boards that some sequence of tile moves solves, for every board size |
| `PuzzleSolvable.SolvingMoves` | 3rd-party/am-kernels/benchmarks/microbench/src/15pz/puzzle.h:316-347 | the hard direction: an accepted board has such a sequence |
| `PuzzleSnake.Slide` | 3rd-party/am-kernels/benchmarks/microbench/src/15pz/puzzle.h:203-305 | the blank runs along the snake through all cells without changing the order of the tiles |
| `PuzzleSnake.Jumps` | 3rd-party/am-kernels/benchmarks/microbench/src/15pz/puzzle.h:203-305 | between neighbouring rows it moves one tile past those between the two places, either way |
| `PuzzleSolvable.TurnFull` | 3rd-party/am-kernels/benchmarks/microbench/src/15pz/puzzle.h:203-305 | around one turn of the snake any three tiles can be turned, whatever the order of the others |
| `PuzzleSolvable.AllTurns` | 3rd-party/am-kernels/benchmarks/microbench/src/15pz/puzzle.h:203-305 | so can any three tiles on the whole board |
| `PuzzleSolvable.Star` | 3rd-party/am-kernels/benchmarks/microbench/src/15pz/puzzle.h:203-305 | turns that share two places yield all turns of three |
| `PuzzleSolvable.Arrange` | 3rd-party/am-kernels/benchmarks/microbench/src/15pz/puzzle.h:316-347 | turns bring all tiles but the first two into any order wanted; parity decides those |
| `Puzzle.SolvedIsSolvable` | 3rd-party/am-kernels/benchmarks/microbench/src/15pz/puzzle.h:463-474 | solution() is accepted by solvable() |
| `PuzzleDistance.SizeDecides` | 3rd-party/am-kernels/benchmarks/microbench/src/15pz/puzzle.h:99-100 | for boards of up to 128 cells: the int8_t distance is the real one on all boards of a size if and only if the size is at most 5 by 5 |
| `PuzzleDistance.DistanceExact` | 3rd-party/am-kernels/benchmarks/microbench/src/15pz/puzzle.h:99-100 | on a given board it is exact if and only if the distance is at most 127, which up to 5 by 5 is always so |
| `PuzzleDistance.MirroredWraps` | 3rd-party/am-kernels/benchmarks/microbench/src/15pz/puzzle.h:99-100 | from 6 by 6 on, a valid board whose stored distance is wrong: the tiles in descending order behind the blank |
| `PuzzleDistance.PermutedSum` | 3rd-party/am-kernels/benchmarks/microbench/src/15pz/puzzle.h:78-115 | a permutation of the cells is as far from the centre as the cells, which bounds the distance of 5 by 5 boards by 120 |
| `Puzzle.CountInversions` | 3rd-party/am-kernels/benchmarks/microbench/src/15pz/puzzle.h:334-342 | the double loop counts the inversions |
| `Puzzle.IsSolvable` | 3rd-party/am-kernels/benchmarks/microbench/src/15pz/puzzle.h:316-347 | the whole predicate as computed |
| `Puzzle.Solution` | 3rd-party/am-kernels/benchmarks/microbench/src/15pz/puzzle.h:463-474 | the solved board: valid, solvable, distance 0 |
| `Inversions.SwapFlips` | 3rd-party/am-kernels/benchmarks/microbench/src/15pz/puzzle.h:334-346 | exchanging any two entries of a permutation flips the parity of its inversions |
| `BfCompile.Compile` | 3rd-party/am-kernels/benchmarks/microbench/src/bf/bf.c:65-102 | succeeds if and only if the brackets balance, nesting stays within 512 and there are at most 4095 commands; then every bracket pair is linked both ways |
| `BfSource.CompiledText` | 3rd-party/am-kernels/benchmarks/microbench/src/bf/bf.c:65-124 | for every text the compiler accepts and every input: the machine stops with a tape if and only if the text ends with it under a semantics of its characters that knows neither operators nor jumps: > and < move the pointer, + and - change the cell modulo 2^16, . appends the low byte, the comma stores the next input byte, brackets repeat while the cell is not zero, any other character does nothing |
| `BfSource.CompiledSource` | 3rd-party/am-kernels/benchmarks/microbench/src/bf/bf.c:65-124 | every text the compiler accepts has such a meaning |
| `BfSource.AcceptableExactly` | 3rd-party/am-kernels/benchmarks/microbench/src/bf/bf.c:65-102 | the compiler accepts exactly the texts whose brackets balance, nest at most 512 deep, with at most 4095 command characters |
| `BfSource.SameAct` | 3rd-party/am-kernels/benchmarks/microbench/src/bf/bf.c:72-78 | the operator that a command character is compiled to does what the character means |
| `BfSource.SameMeaning` | 3rd-party/am-kernels/benchmarks/microbench/src/bf/bf.c:72-124 | so does the whole structured program |
| `BfCompile.CompiledRuns` | 3rd-party/am-kernels/benchmarks/microbench/src/bf/bf.c:65-124 | the same between the compiled code and the structured loops over operators |
| `BfCompile.CompiledTree` | 3rd-party/am-kernels/benchmarks/microbench/src/bf/bf.c:65-102 | every compiled program is the code of a structured one |
| `BfCompile.TreeOf` | 3rd-party/am-kernels/benchmarks/microbench/src/bf/bf.c:65-102 | balanced commands are those of a structured program |
| `BfCompile.FlattenBalanced` | 3rd-party/am-kernels/benchmarks/microbench/src/bf/bf.c:65-102 | and conversely |
| `BfCompile.LinkedCode` | 3rd-party/am-kernels/benchmarks/microbench/src/bf/bf.c:77-92 | linked operands are what structured control flow needs |
| `BfCompile.MatchUnique` | 3rd-party/am-kernels/benchmarks/microbench/src/bf/bf.c:84-92 | a bracket has one partner |
| `Brainfuck.Simulates` | 3rd-party/am-kernels/benchmarks/microbench/src/bf/bf.c:108-124 | whatever the structured program does, the machine does |
| `Brainfuck.Terminates` | 3rd-party/am-kernels/benchmarks/microbench/src/bf/bf.c:108-124 | when the machine stops, the structured program ends, with the same tape |
| `Brainfuck.Execute` | 3rd-party/am-kernels/benchmarks/microbench/src/bf/bf.c:108-124 | the loop performs the machine's turns in place, stopping early exactly where the machine does |
| `QuickLz.Compress` | 3rd-party/am-kernels/benchmarks/microbench/src/lzip/quicklz.c:642-720 | 0 exactly for sizes 0 and above 0xffffffff - 400; otherwise at most size + 400, at most 255 below 216 bytes; the data is stored raw if and only if it is incompressible by the rule of line 204, and is otherwise the stream of its one greedy token sequence; both sizes read back from the header, and a reference decoder returns the source |
| `QlzGreedy.GreedyUnique` | 3rd-party/am-kernels/benchmarks/microbench/src/lzip/quicklz.c:196-458 | the rules determine every token: of two sequences that follow them one continues the other |
| `QlzGreedy.NotIncompressible` | 3rd-party/am-kernels/benchmarks/microbench/src/lzip/quicklz.c:203-205 | hence a whole sequence that never meets the rule for giving up shows that none does |
| `QlzGreedy.ChosenUnique` | 3rd-party/am-kernels/benchmarks/microbench/src/lzip/quicklz.c:288-335 | a literal only where no slot counted by the 8-bit counter repeats three bytes, otherwise the greatest length that a slot offers, in the first slot that has it: this leaves one token |
| `QlzGreedy.GreedyDescribes` | 3rd-party/am-kernels/benchmarks/microbench/src/lzip/quicklz.c:196-458 | such tokens describe the text |
| `QlzHash.HashBits` | 3rd-party/am-kernels/benchmarks/microbench/src/lzip/quicklz.c:86-104 | bit i of the hash is the parity of bits i, i + 9 and i + 13 of the three bytes |
| `QlzHash.HashDetermined` | 3rd-party/am-kernels/benchmarks/microbench/src/lzip/quicklz.c:86-104 | and it has no other bits |
| `QlzCompress.RatioTest` | 3rd-party/am-kernels/benchmarks/microbench/src/lzip/quicklz.c:203-205 | in terms of the tokens, the test holds exactly when a control word falls due past the middle of the source and the full groups written are longer than the bytes consumed less a 32nd |
| `QlzCompress.CompressCore` | 3rd-party/am-kernels/benchmarks/microbench/src/lzip/quicklz.c:183-467 | 0 if and only if the data is incompressible; otherwise the stream of the greedy tokens of the whole source, within the output bound |
| `QlzCompress.MainLoop` | 3rd-party/am-kernels/benchmarks/microbench/src/lzip/quicklz.c:196-424 | the tokens written are those the rules call for; it gives up exactly at the first control word where the ratio test holds, which keeps output behind input past the middle |
| `QlzCompress.TailLoop` | 3rd-party/am-kernels/benchmarks/microbench/src/lzip/quicklz.c:425-458 | the last bytes become literals; at most one control word falls due |
| `QlzCompress.MainBound` | 3rd-party/am-kernels/benchmarks/microbench/src/lzip/quicklz.c:204-205 | what the abort test is worth: output at most 4 bytes ahead of input, or at most 35/62 of the source and 97 bytes |
| `QlzCompress.PutMatch` | 3rd-party/am-kernels/benchmarks/microbench/src/lzip/quicklz.c:401-412 | the bytes of a match field |
| `QlzCompress.FastWrite` | 3rd-party/am-kernels/benchmarks/microbench/src/lzip/quicklz.c:114-119 | the n low bytes, lowest first, nothing else |
| `QlzTable.Table.FindMatch` | 3rd-party/am-kernels/benchmarks/microbench/src/lzip/quicklz.c:288-335 | finds the longest repetition that a counted slot of the bucket offers, in the first slot that has it, from at least 3 back, of at most 255 bytes and never reaching the last 4; fails exactly when no slot repeats three bytes |
| `QlzTable.Table.Insert` | 3rd-party/am-kernels/benchmarks/microbench/src/lzip/quicklz.c:336-338 | the wrapping 8-bit counter still selects the slot of the oldest of the last four insertions |
| `QlzTable.Table.Reset` | 3rd-party/am-kernels/benchmarks/microbench/src/lzip/quicklz.c:60-71 | clearing only the counters makes every slot unusable |
| `QlzTable.Extend` | 3rd-party/am-kernels/benchmarks/microbench/src/lzip/quicklz.c:305-306 | the repetition is extended as far as it goes or is allowed |
| `QlzTokens.Rebuilds` | 3rd-party/am-kernels/benchmarks/microbench/src/lzip/quicklz.c:285-338 | tokens that describe a text determine it: a decoder that sees only tokens and its own output rebuilds the text |
| `QlzTokens.SameSlot` | 3rd-party/am-kernels/benchmarks/microbench/src/lzip/quicklz.c:396-412 | the decoder's younger table finds, in the slot named, the position the compressor meant |
| `QlzFormat.StreamReadsBack` | 3rd-party/am-kernels/benchmarks/microbench/src/lzip/quicklz.c:485-597 | the byte stream of any token sequence parses back to that sequence |
| `QlzFormat.MatchReadsBack` | 3rd-party/am-kernels/benchmarks/microbench/src/lzip/quicklz.c:528-545 | a match field reads back as written, both lengths of it |
| `QlzFormat.NumberBytes` | 3rd-party/am-kernels/benchmarks/microbench/src/lzip/quicklz.c:95-119 | fast_read undoes fast_write |
| `QlzEmit.WordStep` | 3rd-party/am-kernels/benchmarks/microbench/src/lzip/quicklz.c:398-419 | one flag shifted into the control word, the mark moving down |
| `QlzEmit.FinishWord` | 3rd-party/am-kernels/benchmarks/microbench/src/lzip/quicklz.c:460-463 | the final shifts leave the flags and the top bit |
| `QlzEmit.StreamIs` | 3rd-party/am-kernels/benchmarks/microbench/src/lzip/quicklz.c:196-467 | full groups of 31 and a last group make up the stream |
| `QuickLz.WriteHeader` | 3rd-party/am-kernels/benchmarks/microbench/src/lzip/quicklz.c:699-714 | flags and both sizes in front, the data untouched |
| `QuickLz.DecodesStream` | 3rd-party/am-kernels/benchmarks/microbench/src/lzip/quicklz.c:642-720 | a header and a stream decode to the source |
| `QuickLz.DecodesRaw` | 3rd-party/am-kernels/benchmarks/microbench/src/lzip/quicklz.c:665-669 | so does a header and the raw bytes |
| `AddressSpace.AddrSpace.Map` | 3rd-party/abstract-machine/am/src/x86/qemu/vme.c:141-156 | only the translation of va changes, to exactly the entry asked for or to none, and with it what the entries on the way permit: afterwards the user may write at va if and only if writing was asked for; all other pages keep their contents; succeeds if and only if (given enough free pages) the address is a page of user space, pa is a page, and va is mapped exactly when it is to be unmapped |
| `MapCalls.MapAll` | 3rd-party/abstract-machine/am/src/x86/qemu/vme.c:141-156 | any sequence of map calls acts as its updates of a flat map; with enough pages the calls made are those before the first that is not acceptable in that map; kernel translations and all other pages stay as they were |
| `MapCalls.KernelPath` | 3rd-party/abstract-machine/am/src/x86/qemu/vme.c:141-156 | no acceptable call reaches a kernel path |
| `MapCalls.Life` | 3rd-party/abstract-machine/am/src/x86/qemu/vme.c:117-156 | protect, any map calls, unprotect: the memory is the kernel's again and every page is free again, once |
| `AddressSpace.AddrSpace.Ptwalk` | 3rd-party/abstract-machine/am/src/x86/qemu/vme.c:57-75 | returns the last-level slot of the path, making exactly the missing tables along it; changes no translation; fails only when the pages run out before a table of the path is made |
| `AddressSpace.AddrSpace.Grow` | 3rd-party/abstract-machine/am/src/x86/qemu/vme.c:66-68 | hanging a zeroed fresh page into an absent entry that allows writing, and the user access in the user's tables, changes no translation, no other permission, and keeps the tree |
| `AddressSpace.AddrSpace.SetLeaf` | 3rd-party/abstract-machine/am/src/x86/qemu/vme.c:147-154 | writing a last-level entry changes exactly one translation |
| `AddressSpace.AddrSpace.Protect` | 3rd-party/abstract-machine/am/src/x86/qemu/vme.c:117-135 | a new root with the entries of the kernel's areas copied: a valid address space with no user tables but itself, in which kernel addresses are translated, and permitted, as in the kernel's tables, large pages included, and no others |
| `AddressSpace.CopyAreas` | 3rd-party/abstract-machine/am/src/x86/qemu/vme.c:118-131 | the zeroed table holds the kernel's entries exactly at the slots of the kernel's areas |
| `AddressSpace.ArrivesAtEnd` | 3rd-party/abstract-machine/am/src/x86/qemu/vme.c:124-126 | stepping through an area meets its end once, after all its slots, also when addresses wrap around |
| `AddressSpace.KernelShared` | 3rd-party/abstract-machine/am/src/x86/qemu/vme.c:117-135 | the new root and the kernel's root translate kernel addresses alike |
| `KernelMaps.Protect64` | 3rd-party/abstract-machine/am/src/x86/qemu/vme.c:5-12 | the 64-bit configuration over the boot code's tables: user addresses are clear of the kernel's slots and unmapped, the first 512 GiB stay mapped to themselves by 1-GiB pages; so map is applicable |
| `KernelMaps.Identity64` | 3rd-party/abstract-machine/am/src/x86/qemu/start64.S:11-29 | the boot code's tables map every address below 512 GiB to itself by a large page |
| `KernelMaps.Tables64` | 3rd-party/abstract-machine/am/src/x86/qemu/start64.S:11-29 | they are well-formed four-level tables with large pages in the third |
| `KernelMaps.Slots64` | 3rd-party/abstract-machine/am/src/x86/qemu/vme.c:24-28 | the kernel's area is root slot 0, user space slot 32 |
| `KernelInit.VmeInit` | 3rd-party/abstract-machine/am/src/x86/qemu/vme.c:97-109 | the walks for all kernel pages succeed if and only if there are as many pages as index sequences of tables needed, and leave exactly the kernel's pages mapped, each to itself, writeable and not for the user |
| `KernelInit.MapArea` | 3rd-party/abstract-machine/am/src/x86/qemu/vme.c:102-106 | the loop over one area, which may wrap around |
| `KernelInit.MapPage` | 3rd-party/abstract-machine/am/src/x86/qemu/vme.c:105 | one turn: one more page mapped to itself, exactly the missing tables made |
| `KernelInit.SamePage` | 3rd-party/abstract-machine/am/src/x86/qemu/vme.c:49-75 | two addresses are walked alike exactly when they are on one page |
| `KernelInit.TableCount` | 3rd-party/abstract-machine/am/src/x86/qemu/vme.c:40-47 | one page for each index sequence of a table |
| `KernelMaps.VmeInit32` | 3rd-party/abstract-machine/am/src/x86/qemu/vme.c:97-109 | the 32-bit configuration: 269 pages are enough and no fewer; every address below 1 GiB or of the devices is mapped to itself, no other address is mapped |
| `KernelMaps.Tables32` | 3rd-party/abstract-machine/am/src/x86/qemu/vme.c:97-109 | the walks need exactly 269 tables |
| `KernelMaps.Protect32` | 3rd-party/abstract-machine/am/src/x86/qemu/vme.c:117-135 | protect over the tables vme_init leaves: user addresses unmapped and clear of the kernel's slots, kernel addresses still mapped to themselves |
| `KernelMaps.Slots32` | 3rd-party/abstract-machine/am/src/x86/qemu/vme.c:28-32 | the kernel's areas are root slots 0..255 and 1012..1023, user space 256..511 |
| `Teardown.Unprotect` | 3rd-party/abstract-machine/am/src/x86/qemu/vme.c:137-139 | frees every user table page exactly once and nothing else: no kernel table and no mapped frame |
| `Teardown.Teardown` | 3rd-party/abstract-machine/am/src/x86/qemu/vme.c:77-87 | the same below any table, while pages are freed during the walk |
| `Teardown.Ancestor` | 3rd-party/abstract-machine/am/src/x86/qemu/vme.c:77-87 | every prefix of a user table's indices belongs to a user table |
| `Vme.OwnedGrants` | 3rd-party/abstract-machine/am/src/x86/qemu/vme.c:66-68 | the entries on the way to a table made here permit writing, and user access exactly in a user's tables, so the last entry alone decides |
| `Vme.LinkUser` | 3rd-party/abstract-machine/am/src/x86/qemu/vme.c:66-68 | a fresh table keeps the invariant: the tables made form a tree of distinct pages, apart from the kernel's |
| `Vme.LeafUser` | 3rd-party/abstract-machine/am/src/x86/qemu/vme.c:147-154 | so does any last-level change |
| `Vme.LeafOwner` | 3rd-party/abstract-machine/am/src/x86/qemu/vme.c:57-75 | a walk that ends in a user table went along that table's own indices |
| `Vme.WalkToOwned` | 3rd-party/abstract-machine/am/src/x86/qemu/vme.c:57-75 | and walking along them arrives there |
| `Vme.OwnerInjective` | 3rd-party/abstract-machine/am/src/x86/qemu/vme.c:57-75 | different user tables have different indices |
| `PageTables.LookupLeaf` | 3rd-party/abstract-machine/am/src/x86/qemu/vme.c:49-75 | what a walk of entries arrives at and permits, level by level, is what the last-level slot found by the index path says, with the flags of all entries on the way |
| `PageTables.LinkKeeps` | 3rd-party/abstract-machine/am/src/x86/qemu/vme.c:66-68 | an empty table in an absent entry changes no lookup |
| `PageTables.LeafWrite` | 3rd-party/abstract-machine/am/src/x86/qemu/vme.c:147-154 | a changed last-level entry changes the lookup of exactly one path |
| `PageTables.PathInjective` | 3rd-party/abstract-machine/am/src/x86/qemu/vme.c:5-20 | different pages have different index paths |
| `PageTables.IndexByMask` | 3rd-party/abstract-machine/am/src/x86/qemu/vme.c:49-51 | the mask and shift of a level select its index bits |
| `PageTables.EntryBits` | 3rd-party/abstract-machine/am/src/x86/qemu/vme.c:53-55 | flag tests, or of flags into an aligned address, and baseof, on entries |
| `ThreadOs.Exclusion` | 3rd-party/am-kernels/kernels/thread-os/thread-os.c:22-53 | under every interleaving of interrupts, exchanges and releases no task is on two CPUs and no two tasks are between lock and unlock |
| `ThreadOs.ApplySound` | 3rd-party/am-kernels/kernels/thread-os/thread-os.c:22-53 | the invariant behind it: tasks stay on the CPU of their number, and the lock is held exactly while a task is inside |
| `ThreadOs.ResumesNewest` | 3rd-party/am-kernels/kernels/thread-os/thread-os.c:47-52 | every task's context is the one last saved for it, whatever other CPUs did meanwhile |
| `ThreadOs.EveryTaskServed` | 3rd-party/am-kernels/kernels/thread-os/thread-os.c:49-51 | once a CPU has taken as many interrupts as it has tasks, each of its tasks has had a turn |
| `ThreadOs.CurrentAfter` | 3rd-party/am-kernels/kernels/thread-os/thread-os.c:45-53 | the task on a CPU depends on that CPU's interrupts alone |
| `ThreadOs.LaterIs` | 3rd-party/am-kernels/kernels/thread-os/thread-os.c:49-51 | tasks of a CPU are taken in turn, round-robin |
| `ThreadOs.WithinRound` | 3rd-party/am-kernels/kernels/thread-os/thread-os.c:49-51 | any task of the CPU is at most one round away |
| `ThreadOs.ScanEnds` | 3rd-party/am-kernels/kernels/thread-os/thread-os.c:49-51 | the do-while loop ends if and only if some task has the CPU's number |
| `ThreadOs.ScanUp` | 3rd-party/am-kernels/kernels/thread-os/thread-os.c:49-51 | the loop stops n tasks further on, or at the CPU's first task |
| `ThreadOs.Kernel.constructor` | 3rd-party/am-kernels/kernels/thread-os/thread-os.c:60-70 | nothing runs and nothing is locked at first |
| `ThreadOs.Kernel.Advance` | 3rd-party/am-kernels/kernels/thread-os/thread-os.c:49-51 | current moves in place to where the scan ends |
| `ThreadOs.Kernel.OnInterrupt` | 3rd-party/am-kernels/kernels/thread-os/thread-os.c:45-53 | the handler is one interrupt step of the system and returns the context of the task chosen |
| `MatrixFib.Run` | 3rd-party/am-kernels/benchmarks/microbench/src/fib/fib.c:43-60 | ans is the N-th power of the companion matrix modulo 2^32 and its corner is the N-th term of the M-step recurrence |
| `MatrixFib.Corner` | 3rd-party/am-kernels/benchmarks/microbench/src/fib/fib.c:3 | the corner of the n-th power is f(n), with f(0) = 1 and f = 0 below 0 |
| `MatrixFib.LastRow` | 3rd-party/am-kernels/benchmarks/microbench/src/fib/fib.c:46 | the last row of the n-th power holds the partial sums f(n-1) + ... + f(n-j-1) |
| `MatrixFib.Mult` | 3rd-party/am-kernels/benchmarks/microbench/src/fib/fib.c:16-24 | the product of the matrices held, modulo 2^32 |
| `MatrixFib.Assign` | 3rd-party/am-kernels/benchmarks/microbench/src/fib/fib.c:26-30 | a copy |
| `MatrixFib.Fill` | 3rd-party/am-kernels/benchmarks/microbench/src/fib/fib.c:44-50 | companion matrix and identity |
| `MatrixFib.IndexInjective` | 3rd-party/am-kernels/benchmarks/microbench/src/fib/fib.c:8-14 | different cells have different places in the flat array |
| `MatrixAlgebra.PowAdd` | 3rd-party/am-kernels/benchmarks/microbench/src/fib/fib.c:52-59 | exponents add, which is what squaring relies on |
| `MatrixAlgebra.MulAssociates` | 3rd-party/am-kernels/benchmarks/microbench/src/fib/fib.c:16-24 | matrix products associate |
| `Sha256.HashChunks` | 3rd-party/am-kernels/kernels/blockchain/src/sha256.cpp:113-120 | for every way of cutting a message into chunks: one digest, and below 2^29 bytes it is the FIPS 180-4 hash of the whole message |
| `Sha256Abc.AbcDigest` | 3rd-party/am-kernels/kernels/blockchain/src/sha256.cpp:113-120 | the digest of "abc", proved round by round, is ba7816bf 8f01cfea 414140de 5dae2223 b00361a3 96177a9c b410ff61 f20015ad |
| `Sha256Bits.ChBits` | 3rd-party/am-kernels/kernels/blockchain/include/sha256.h:31 | the choice takes the bit of y where x has a one and of z where x has a zero |
| `Sha256Bits.MajBits` | 3rd-party/am-kernels/kernels/blockchain/include/sha256.h:32 | the majority takes the bit that at least two words have |
| `Sha256Bits.RotrBits` | 3rd-party/am-kernels/kernels/blockchain/include/sha256.h:29 | bit i of a word rotated right by n is its bit i + n modulo 32 |
| `Sha256Bits.SigmaBits` | 3rd-party/am-kernels/kernels/blockchain/include/sha256.h:28-36 | bit i of each sigma is the parity of the bits at its three distances, shifted-out bits counting as zero |
| `Sha256Bits.FieldValue` | 3rd-party/am-kernels/kernels/blockchain/src/sha256.cpp:105-106 | the length field is the number modulo 2^32 in base 256, the highest digit first |
| `Sha256Constants.Constants` | 3rd-party/am-kernels/kernels/blockchain/src/sha256.cpp:4-21 | each of the 64 constants is the first 32 fractional bits of the cube root of its prime |
| `Sha256Constants.InitialWords` | 3rd-party/am-kernels/kernels/blockchain/src/sha256.cpp:60-68 | the initial hash is the first 32 fractional bits of the square roots of the first eight primes |
| `Sha256Constants.FirstPrimes` | 3rd-party/am-kernels/kernels/blockchain/src/sha256.cpp:4-21 | these are the first 64 primes: every prime up to 311 and nothing else, ascending |
| `Sha256Constants.RootUnique` | 3rd-party/am-kernels/kernels/blockchain/src/sha256.cpp:4-21 | the roots determine those bits |
| `Sha256.PaddingExact` | 3rd-party/am-kernels/kernels/blockchain/src/sha256.cpp:100-107 | the padding written is the standard's if and only if the message is below 2^29 bytes |
| `Sha256.Context.constructor` | 3rd-party/am-kernels/kernels/blockchain/src/sha256.cpp:60-71 | the initial state of an empty message |
| `Sha256.Context.Update` | 3rd-party/am-kernels/kernels/blockchain/src/sha256.cpp:73-93 | after any update the object stands for everything fed so far: hash of its whole blocks, the rest buffered, the count modulo 2^32 |
| `Sha256.Context.Pad` | 3rd-party/am-kernels/kernels/blockchain/src/sha256.cpp:100-106 | the last one or two blocks in the buffer are the rest of the padded message |
| `Sha256.Context.Final` | 3rd-party/am-kernels/kernels/blockchain/src/sha256.cpp:95-111 | the digest of everything fed |
| `Sha256.Context.Transform` | 3rd-party/am-kernels/kernels/blockchain/src/sha256.cpp:23-58 | the state becomes the hash of the blocks in turn |
| `Sha256.Context.TransformOne` | 3rd-party/am-kernels/kernels/blockchain/src/sha256.cpp:32-56 | one block: schedule, 64 rounds, addition |
| `Sha256.Context.Expand` | 3rd-party/am-kernels/kernels/blockchain/src/sha256.cpp:32-37 | the message schedule of section 6.2.2 |
| `Sha256.Context.Shift` | 3rd-party/am-kernels/kernels/blockchain/src/sha256.cpp:42-52 | the in-place rotation of the working variables is one round of section 6.2.2 |
| `Sha256.HashSplit` | 3rd-party/am-kernels/kernels/blockchain/src/sha256.cpp:86-88 | hashing whole blocks first and the rest later is hashing all of it |
| `Sha256Spec.PackUnpack` | 3rd-party/am-kernels/kernels/blockchain/include/sha256.h:37-48 | packing undoes unpacking |
| `Sha256Spec.ZeroBytes` | 3rd-party/am-kernels/kernels/blockchain/src/sha256.cpp:100-104 | the zero bytes complete a block |
| `Sha256Spec.FewestZeroBytes` | 3rd-party/am-kernels/kernels/blockchain/src/sha256.cpp:100-104 | with as few as possible |

## Left out

General:

- Whole parts: the processor's RTL, the Verilator simulator and debugger, klib's stdio and string functions (stubs), device and platform layers, boot code, games, the emulator, Dhrystone, and the fixed-data cpu-tests.
- `bench_alloc` and `malloc` become array or object creation; running out of memory is not modelled.
- Overflow of array indices and loop counters (`int i * M + j`, `insize *= 2`, `pc` as an unsigned short) is not modelled; the arrays are taken to be small enough.

By part:

- Suffix array: the benchmark driver draws symbols 0..25, outside the contract stated above `suffixArray`; the function is modelled, not the driver. `int` overflow of counts is not modelled.
- Dinic.Dinic.Maxflow: capacities and flows are unbounded integers; `int` overflow of the total is not modelled.
- 64-bit division: a zero divisor (undefined in C) is excluded; `__builtin_clz` and `__builtin_ctz` are taken as the repository's own `__clzsi2` and `__ctzsi2`. The two unsigned wrappers are one call each.
- CountZeros.Clzsi2: a zero argument, which the code excludes in a comment, is excluded.
- RV32I macros: instructions live in a code memory apart from data, at the addresses the assembler gives them; the eight base instructions themselves run as the hardware runs them. Pseudo-instructions that only rename operands (neg, snez, sgt, beqz, bgt, ...) are instances of the modelled ones; `call` and `tail` are instances of jumps. Code that reads or writes the compare array or relies on memory below sp is outside `Careful`, as the file's assumptions say.
- Expand.CalcRuns: seq as a user-level instruction is not among the computing macros, since only the branches use it; its exact condition is a lemma of its own.
- Mergesort.CoreListMergesort: the comparator is a total preorder without side effects; CoreMark's cmp_complex caches results in the data it compares.
- ListEdit: core_list_init and the benchmark loop around the list are left out.
- QuickLZ: levels 1 and 3 and the streaming buffer are compiled out. The repository's decompressor cannot run, since its copy routine asserts; `QuickLz.Decode` is a reference decoder that follows its parsing and copies byte by byte.
- Page tables: entries are numbers, the allocator is a list of free pages, a panic is a false result. Writing CR3 and CR0 and the TLB are left out. Memory the boot code does not write is taken to be zero. An address space holds its own copy of the memory and the free pages, so that two of them at work at once are not modelled.
- AddressSpace.AddrSpace.Map: the second walk at the end of `map` (vme.c:155) finds every table present and changes nothing.
- Brainfuck.Execute: runs at most a given number of turns, since a Brainfuck program need not stop; the output buffer is unbounded and input past its end reads as 0.
- Puzzle: hash_value, the random constructor and the comparison operators are left out. A tile move of the source mutates a fresh copy; here it is a function on values. Boards have at most 128 cells, as int8_t entries demand.
- Queens.Run: size 31 is included, taking `(1 << 31) - 1` as 2^31 - 1, what two's complement machines compute.
- ThreadOs: printing, stacks and the creation of contexts are left out. An interrupt is one step: a CPU writes only its own current task and the context of its own task, and reads only the fixed ring. That a task spinning in lock gets in eventually is not claimed; with this lock it need not.
- MatrixFib.Run: the exponent and M are parameters; the benchmark's fixed exponent is one instance.
- Sha256.Context.Update: a single chunk is below 2^31 bytes, since the code shifts its block index as an int. The hexadecimal output of `sha256()` is printing. SHA2_UNPACK32 appears twice, on words of the hash and on the integer counter.
