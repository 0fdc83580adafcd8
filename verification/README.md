# Verified core

A Dafny model of the parts of the repository whose correctness is hardest to see by looking at them, with proofs of what
they promise. `dafny verify dfyconfig.toml` checks the whole project.

The parts, and the modules that hold them:

* **Stencil replay analysis** of the shader recompiler. `ShaderIr` gives the shader IR a lane-wise meaning: a `Wave` is one
  execution of a program by the lanes of a wave that computes every value once, a `Run` of `ShaderRuns` one that may come
  back to a block and compute its values again. `GuardImplication` is the guard prover, `GuardCompleteness` how much it proves, `ControlFlowWalk` the cycle test
  over block metadata, `KeptInvocations` and `KeptAnalysis` the must-analysis of stencil exports over all paths,
  `StencilValues` the search for stencil reference values as a recursion, `StencilTrails` what it has to find, said without it,
  `StencilReferences` the search as it runs and all exports together, `StencilRuns` and `StencilLoops` what its answers are
  worth without and with loops, `HelperLanes`, `HelperReference` and `HelperAnalysis` the abstract interpretation of wave
  masks on helper lanes, `ReplayMeaning` what replay stability means for two executions, `HelperOwes` what the analysis must
  not give up on.
* **Mach-O export trie.** `Uleb128`, `ExportTrie` (insertion with edge splitting), `TrieLayout` (the offsets that depend on
  the size of offsets), `TrieNodes` (the node objects), `TrieParser`, `TrieReader` (reading), `TrieRoundTrip`, `TrieBuilder`.
* **ELF symbol rebuild.** `DynStr` (the string table with merged tails), `GnuHash` (the hash section and lookup in it),
  `SymbolOrder` (reorder, relocation fix-up, and the three steps together), `VersionOrder` (the version table beside the
  symbols).
* **Shader disk cache.** `Serial`, `WordVectors` and `PlanCodec` (numbers, lists, values of a plan), `Layouts` (how records
  of fixed fields, pointers, lists and optional parts are stored), `PlanLayout` (the layout of every table of a plan),
  `PlanEntries`, `PlanAgain` and `PlanRefit` (tables and the records of an entry), `PlanTables` (the plan as a whole),
  `PlanOdd` (an entry that is not stored again as it was), `PlanStreams` (the writer and the reader), `PlanObjects` (the
  pointer graph), `PlanPointers` and `PlanTransfer` (tables that point into it, saving and loading), `EntryContainer` (the
  file around an entry), `CacheKey` and `KeyBuilding` (the keys).
* **In-memory shader caches.** `ResultMemo` (the list and index of results), `MemoRuns` (threads sharing it),
  `SourceTable` (sources under a shared lock, and the variants of one), `SourceRuns` (threads sharing both).
* **SPIR-V rewriting.** `Spirv` (the word stream of section 2.3 of the SPIR-V specification), `FragmentPlan`,
  `FragmentChoice` (which outputs are packed and blended), `FragmentRefusal` (when it fails), `FragmentOutputs`,
  `FragmentMeaning`, `FragmentModule`, `FragmentFull`, `FragmentSpecializer` for fragment outputs, `VertexInputs`,
  `VertexPreparation`, `VertexReads` (which instructions read an input), `VertexTypes` and `VertexTyping` (how reads are
  typed), `VertexModule` (the prepared module), `VertexSpecializer` for vertex inputs.
* **Three smaller cores.** `AmprCommands` and `AmprRecorder` (the command recorder), `AmprReader` (recorded commands read
  field by field, as their execution does), `AmprExecution` (whether a read can be executed), `PngFilter` (the filters of section 9
  of ISO/IEC 15948), `SelfRegions` (the placement of SELF segments).

Where the program changes state, the model does: `Resolver`, `Search`, `Analysis`, `Node`, `Reader`, `Writer`,
`HashSection`, `KeyBuilder`, `Memo`, `Table`, `Variants` and `CommandBuffer` are objects, and every method is proved against a
function or a predicate about which the theorems are then stated. Shared tables are modelled twice, as an object whose
methods are the regions under the lock, and as a state machine in which any thread takes any step at any time.

## What the code turns out to do

Some promises hold only under a condition. The condition is proved exactly in each case.

* The search for stencil reference values narrows a select to its first arm when the guard of the export implies the
  condition. In a loop the select may stem from an earlier round, in which the condition was false, and the search does not
  refuse loops. Its answers are right for every program over some control flow if and only if no cycle can be reached from
  the entry (`StencilLoops.RightWithoutCycle`); `StencilLoops.SmallestLoopMisses` is a loop over which one is wrong. The one
  caller that chooses emulation by the answer also asks for `StencilReferenceDefinedForKeptInvocations`, which refuses cycles,
  and then the answer is right (`StencilRuns.AcceptedCovered`). Over any control flow, what is found without narrowing is right
  (`StencilRuns.UnnarrowedCovered`).
* A name of the rebuilt hash section can be missed only when the section includes symbol zero, because a bucket that holds
  zero counts as empty: all names are found if and only if `SymOffset` is at least one, there are no symbols, or the first
  name comes again later (`GnuHash.AllFound`). A section of symbol zero alone misses it (`GnuHash.SymbolZeroMissed`).
* The rebuilt string table is as short as any unless the only value is the empty one, which costs a byte that the leading
  zero byte already provides (`DynStr.ShortestUnlessOnlyEmpty`).
* An export comes back from the trie as itself if and only if it has nothing that its flags do not call for, and a
  re-export's import name contains no NUL; the part of such a name after the first NUL is lost (`TrieRoundTrip.KeptIsSame`).
* The specialized fragment module is a well-formed stream if and only if no entry point already has 65535 words when an
  interface id is added to it: its word count would wrap (`FragmentModule.SpecializedModule`). `FragmentFull.FullOverflows` is
  such a module, which is accepted and specialized to words that do not parse.
* The form in which the code enters a cache key is chosen by a switch that the disk key does not cover. Keys of the two forms
  are equal only if the hash of the code is its first word, or the wave size if there is no code (`CacheKey.FormsDiffer`).
* The guard prover says yes only to implications that every valuation makes true. Where the left guard is an OR of values
  that are neither AND nor OR it says yes to all of them, within its depth (`GuardCompleteness.ImpliesExactly`). Of an AND on
  the left one operand has to imply the right guard alone: from one AND of two values another AND of the same two is not
  proved (`GuardCompleteness.ConjunctionMissed`).
* The flag by which the command recorder knows that a read came before outlives the commands it speaks of: emptying a buffer
  does not clear it. A gather read recorded first in a buffer emptied after a read is refused by the execution. What is
  recorded can be executed if and only if no such read comes before the first command that sets or clears the flag, and
  always when the flag was not kept (`AmprExecution.ExecutesUnlessStale`); `AmprExecution.StaleGather` is such a history.
* The measuring functions of the command recorder accept arguments that the recorders refuse, and refuse a no-operation with
  no data, which is recorded; which ones is stated exactly (`AmprCommands.MeasureLaxer`). A call is measured at the size of
  what it records if and only if it is not a no-operation with data, which is measured as if it had one word less
  (`AmprCommands.MeasuredSize`).
* The SELF tool refuses a segment as escaped if and only if the segment is empty, no load segment, held by no region and
  beyond the end of the result (`SelfRegions.Unwrap`). A load segment that lies inside an earlier region goes where that region
  goes, so its new offset need not be congruent to its own address; the exact condition is `SelfRegions.NewOffsetCongruent`,
  an input that misses it `SelfRegions.CongruenceCanFail`.
* Not every cache entry that is accepted is stored again as it was. A descriptor source whose column flag is zero loses the
  column fields that are read all the same, a table operation above 255 is cut to a byte, and image modes marked as prepared
  for no images come back as not prepared. The entry is the one its plan is stored as if and only if none of the three is the
  case (`PlanTables.PlanEncodes`, `PlanAgain.Plain`); `PlanOdd.StrayDiffers` is an entry of the first kind. For the same
  reason a plan with image modes prepared for no images comes back with them not prepared (`PlanTables.PlanDecodes`).
* Rebuilding the hash section moves the symbols but not their versions. They still match if and only if sorting the versions
  along with the symbols changes nothing, and for every version table if and only if the symbols stand bucket by bucket
  already (`VersionOrder`).
* The whole-quad operation makes a mask constant in every quad whatever went in, so the helper-lane analysis is right about
  it even without the verdict it asks for (`HelperReference.QuadSound`). For replay stability the verdict is needed, since
  helper lanes vote as they like: with it, whole quads of a stable mask are stable (`ReplayMeaning.QuadKept`).

## Model

| member | source | states |
|---|---|---|
| GuardImplication.ConsistentIsBoolean | core/shader/recompiler/StencilReplay.cpp:16-20 | Every execution of a program gives each lane a valuation under which boolean immediates, AND and OR have their meaning |
| GuardImplication.ImpliesSound | core/shader/recompiler/StencilReplay.cpp:22-33 | Under every such valuation, a guard that the prover accepts as implied is true whenever the implying one is, whatever the depth |
| GuardCompleteness.ImpliesExactly | core/shader/recompiler/StencilReplay.cpp:22-33 | Where the left guard is an OR of values that are neither AND nor OR, whatever the right guard is made of, the prover says yes exactly when every valuation that makes the left guard true makes the right one true |
| GuardCompleteness.ConjunctionMissed | core/shader/recompiler/StencilReplay.cpp:28 | Two ANDs of the same values, one of which follows from the other and is not proved from it |
| ControlFlowWalk.Walk | core/shader/recompiler/StencilReplay.cpp:71-82 | The explicit-stack three-colour walk ends, and answers yes exactly when no walk from block 0 meets a block twice |
| ControlFlowWalk.ResolveTargets | core/shader/recompiler/StencilReplay.cpp:57-66 | The successors a terminator names are those with its ids, in order; it fails exactly when an id names no block |
| ControlFlowWalk.FaultControlFlowAcyclic | core/shader/recompiler/StencilReplay.cpp:45-83 | Yes exactly when the metadata has an edge table that passes every check and no cycle can be reached from block 0 in it |
| KeptInvocations.PathWritesTaken | core/shader/recompiler/StencilReplay.cpp:658 | A guard that a path writes under is computed by a lane on that path, and when it is true the lane took a stencil export |
| KeptInvocations.LiveComputed | core/shader/recompiler/StencilReplay.cpp:659-662 | The guard of the last valid-mask export of a block is computed by every lane that runs the block |
| KeptInvocations.ProvesSound | core/shader/recompiler/StencilReplay.cpp:666 | Prover and oracle together: a proved guard is true where the live guard is, for every right oracle |
| KeptInvocations.ReturnDefinesKept | core/shader/recompiler/StencilReplay.cpp:664-668 | At a return that passes the check, a lane whose last valid mask is true has exported a stencil reference under a true guard |
| KeptInvocations.AcceptedDefinesKeptInvocations | core/shader/recompiler/StencilReplay.cpp:612-684 | For every accepted program, execution, lane and entry-to-return path: if the last valid-mask export is true or absent, the lane executed a stencil export whose guard is true |
| KeptAnalysis.MeetDescribes | core/shader/recompiler/StencilReplay.cpp:646-651 | The merge of two states describes exactly the paths of both: the guards all of them write under, and the live guard if they agree |
| KeptAnalysis.ExtendDescribes | core/shader/recompiler/StencilReplay.cpp:653-663 | Running a block's instructions on an exact description of some paths gives one of those paths with the block added |
| KeptAnalysis.RunBlock | core/shader/recompiler/StencilReplay.cpp:653-663 | The loop over the instructions of a block adds just the guards the block writes under and ends with its last live guard |
| KeptAnalysis.Visit | core/shader/recompiler/StencilReplay.cpp:632-640 | The recursive visit refuses only when a cycle can be reached from the entry, and otherwise marks only blocks that can be reached, with all they lead to |
| KeptAnalysis.Resolver.Entry | core/shader/recompiler/StencilReplay.cpp:640-652 | The merge over visited predecessors describes exactly the paths that lead into the block |
| KeptAnalysis.Resolver.Resolve | core/shader/recompiler/StencilReplay.cpp:637-672 | The remembered state of a block describes exactly all paths from the entry through it, and states remembered before stay |
| KeptAnalysis.BuildEdges | core/shader/recompiler/StencilReplay.cpp:618-630 | Successors and predecessors agree, and the answer is no exactly when no edge table fits the metadata |
| KeptAnalysis.StencilReferenceDefinedForKeptInvocations | core/shader/recompiler/StencilReplay.cpp:612-684 | The answer is yes exactly when, over all paths, every reachable return writes unconditionally, or keeps under one guard that is false or provably implies a guard written under |
| StencilValues.BytesCover | core/shader/recompiler/StencilReplay.cpp:556-594 | What the search finds for a component of a value contains its low byte in every execution that computes each value once and in which the active guard is true |
| StencilValues.GuardedSelectCovers | core/shader/recompiler/StencilReplay.cpp:574-576 | When the active guard implies the condition, the first arm alone covers a select |
| StencilValues.PhiCovers | core/shader/recompiler/StencilReplay.cpp:583-591 | What covers all operands of a phi covers the phi, whichever block a lane came from |
| StencilTrails.BytesExact | core/shader/recompiler/StencilReplay.cpp:556-591 | The search finds something exactly when every trail of steps through components, extractions, arms and operands stays within its depth, visits no value twice, never gets stuck, and no more than sixteen low bytes of constants are reached; it then finds all of them and no others |
| StencilTrails.DownwardSearchable | core/shader/recompiler/StencilReplay.cpp:556-591 | Where no value rests on itself and none lies higher than 64, that is the case exactly when no trail gets stuck and no more than sixteen low bytes are reached |
| StencilReferences.ReferenceExact | core/shader/recompiler/StencilReplay.cpp:601-605 | The same for the reference of one export, its second component under its own guard |
| StencilReferences.Search.Values | core/shader/recompiler/StencilReplay.cpp:556-591 | The search with its visiting set computes the plain recursion, and leaves the visiting set as it found it |
| StencilReferences.StencilReferenceValues | core/shader/recompiler/StencilReplay.cpp:595-610 | A non-empty answer is exactly the low bytes of the constants that trails reach from all exports of the program; an empty one means that from some export the search cannot go on, that there are none, or that they are more than sixteen |
| StencilReferences.ReferencesCover | core/shader/recompiler/StencilReplay.cpp:595-610 | In every execution that computes each value once, the low byte of every reference exported under a true guard is in a non-empty answer |
| ShaderRuns.RunIsWave | core/shader/recompiler/StencilReplay.cpp:45-83 | An execution over control flow without a cycle from the entry computes each value once: it is a `Wave`, with the words of every step |
| StencilRuns.AcyclicCovered | core/shader/recompiler/StencilReplay.cpp:556-610 | Over control flow without a cycle from the entry, a non-empty answer has every reference that any execution exports |
| StencilRuns.AcceptedCovered | core/shader/recompiler/SpirvBackend/src/SpirvMemory/SpirvEmitterHelpers.cpp:382-384 | The same for what the test of the same caller accepts, which refuses cycles |
| StencilRuns.BytesCoverRun | core/shader/recompiler/StencilReplay.cpp:556-594 | What the search finds without a guard covers every step of every execution, loops included |
| StencilRuns.UnnarrowedCovered | core/shader/recompiler/StencilReplay.cpp:595-610 | References found without narrowing are all that any execution exports |
| StencilLoops.RightWithoutCycle | core/shader/recompiler/StencilReplay.cpp:556-610 | All answers for the programs over some control flow are right exactly when no cycle can be reached from the entry |
| StencilLoops.LoopMisses | core/shader/recompiler/StencilReplay.cpp:574-576 | Over any walk that comes back to a block there is a program, an answer and an execution that exports a reference outside it |
| StencilLoops.SmallestLoopMisses | core/shader/recompiler/StencilReplay.cpp:574-576 | A block that goes back to itself is such a walk |
| HelperLanes.OwnReadsBit | core/shader/recompiler/StencilReplay.cpp:134-160 | The recognized pattern computes the bit of the lane itself in the mask it returns, in waves of 32 and of 64 |
| HelperLanes.BallotIsRealOnly | core/shader/recompiler/StencilReplay.cpp:267-271 | A ballot over predicates that are false on helper lanes has no helper bit set |
| HelperLanes.AndMeans | core/shader/recompiler/StencilReplay.cpp:272-286 | An AND has no helper bit if either mask has none, and is quad-stable if both are, for either pairing of low and high words |
| HelperLanes.WqmIsQuadStable | core/shader/recompiler/StencilReplay.cpp:287-296 | Whole quad mode gives a mask that is constant within each quad |
| HelperLanes.PhiMeans | core/shader/recompiler/StencilReplay.cpp:297-308 | A phi of masks is as good as the worst of the masks paired by block that come into it |
| HelperLanes.SelectOnHelpers | core/shader/recompiler/StencilReplay.cpp:243-248 | Helper lanes compute the word of the arm the condition is known to choose on them, or of both arms when they agree |
| HelperLanes.LogicOnHelpers | core/shader/recompiler/StencilReplay.cpp:232-242 | What is concluded for AND, OR and the comparisons from what is known of either operand is what every helper lane computes |
| HelperLanes.PhiOnHelpers | core/shader/recompiler/StencilReplay.cpp:249-252 | A phi whose operands all have one word on helper lanes has that word |
| HelperReference.ValueSound | core/shader/recompiler/StencilReplay.cpp:215-255 | The word that the analysis without memo finds for a value is what every helper lane computes in every execution |
| HelperReference.VerdictSound | core/shader/recompiler/StencilReplay.cpp:257-313 | RealOnly means no helper bit, QuadStable no helper bit or a constant in every quad, in every execution and for every lane that sees the mask |
| HelperReference.QuadSound | core/shader/recompiler/StencilReplay.cpp:287-296 | The quad verdict is right whatever the source mask was |
| HelperAnalysis.Analysis.OnHelper | core/shader/recompiler/StencilReplay.cpp:215-255 | Through memo entries, entries still being computed and the depth cut-off, any answer is true of every execution; where no value rests on itself and the depth suffices, the answer is exactly that of the recursion without memo |
| HelperAnalysis.Analysis.Helpers | core/shader/recompiler/StencilReplay.cpp:257-313 | The same for masks, with the stability test that it calls and that calls it back |
| ReplayMeaning.OwnKept | core/shader/recompiler/StencilReplay.cpp:322-324 | A bit of its own that a lane reads from a mask of stable bits is the same in both executions |
| ReplayMeaning.ArgumentsKeep | core/shader/recompiler/StencilReplay.cpp:325-326 | A value of stable operands is stable unless it is a ballot, the number of the lane or a whole-quad mask |
| ReplayMeaning.BallotKept | core/shader/recompiler/StencilReplay.cpp:181-185 | The lanes of a quad that are no helpers see the same votes of each other in a ballot over a stable predicate |
| ReplayMeaning.AndKept | core/shader/recompiler/StencilReplay.cpp:186-188 | An AND of masks with stable bits has stable bits, for either pairing |
| ReplayMeaning.QuadKept | core/shader/recompiler/StencilReplay.cpp:189-200 | So have the whole quads of a mask with stable bits that has no helper bit or is constant in every quad |
| ReplayMeaning.PhiKept | core/shader/recompiler/StencilReplay.cpp:201-210 | So has a phi of such masks, paired by block |
| ReplayMeaning.LaneNumberNotKept | core/shader/recompiler/StencilReplay.cpp:325 | The number of the lane is not stable: a program and an execution in which twins have different ones |
| HelperAnalysis.Analysis.MaskStable | core/shader/recompiler/StencilReplay.cpp:168-213 | An accepted mask has the same bits for twin lanes in any two executions; the test with its two memos, which re-enters the helper analysis, keeps all four memos right; where no value rests on itself and the depth suffices, it answers exactly what the test without memos does |
| HelperAnalysis.Analysis.Stable | core/shader/recompiler/StencilReplay.cpp:315-330 | An accepted value has the same words for twin lanes in any two executions, which agree on the blocks these lanes come from, on which lanes of the quad are helpers and on what is computed by one lane from equal operands; and exactness as for masks |
| HelperOwes.LaneFreeStable | core/shader/recompiler/StencilReplay.cpp:315-330 | A value that rests on no ballot, lane number or whole-quad mask is accepted |
| HelperOwes.FreeBallotStable | core/shader/recompiler/StencilReplay.cpp:181-185 | So is a mask of ballots over such values |
| HelperOwes.DecidedKnown | core/shader/recompiler/StencilReplay.cpp:215-255 | The word of every formula of constants and tests for helper lanes is found, through NOT, AND, OR, comparisons and selects |
| HelperOwes.OneDecides | core/shader/recompiler/StencilReplay.cpp:232-242 | One operand that is known decides an AND or an OR, whatever the other is |
| HelperOwes.NoHelperVotes | core/shader/recompiler/StencilReplay.cpp:257-271 | A ballot over anything that also tests for not being a helper lane is found to have no helper bit |
| HelperAnalysis.Analysis.PairedHigh | core/shader/recompiler/StencilReplay.cpp:300-304 | The high operand of a phi of masks is the last one listed for the block of the low operand |
| Uleb128.WriteUleb | core/libs/nid/src/MachONidPatcher.cpp:123-130 | Appends the encoding of section 7.6 of DWARF 4 |
| Uleb128.UlebSize | core/libs/nid/src/MachONidPatcher.cpp:132-136 | Is the length of that encoding |
| Uleb128.DecodeEncode | core/libs/nid/src/MachONidPatcher.cpp:110-130 | Every 64-bit value reads back from its encoding, wherever it stands, with the cursor behind it |
| Uleb128.SizeMonotone | core/libs/nid/src/MachONidPatcher.cpp:132-136 | A larger value never takes fewer bytes |
| Uleb128.SizeBounded | core/libs/nid/src/MachONidPatcher.cpp:132-136 | A 64-bit value never takes more than ten |
| ExportTrie.InsertAdds | core/libs/nid/src/MachONidPatcher.cpp:281-309 | Inserting fails exactly when the name is taken; otherwise the trie holds that one name more, and sibling labels stay non-empty with distinct first bytes |
| TrieNodes.Node.Insert | core/libs/nid/src/MachONidPatcher.cpp:281-309 | Insertion in place, cutting edges, makes the tree of node objects the trie with the export inserted |
| TrieNodes.Node.Preorder | core/libs/nid/src/MachONidPatcher.cpp:311-314 | Lists the nodes in preorder with the edges naming places in that list |
| TrieLayout.StartMonotone | core/libs/nid/src/MachONidPatcher.cpp:243-252 | One pass over the offsets is monotone in all of them |
| TrieLayout.TerminalForms | core/libs/nid/src/MachONidPatcher.cpp:316-330 | What a node stores, by the bits of the flags: ordinal and name with bit 3, otherwise the address, and the resolver with bit 4 |
| TrieLayout.Pass | core/libs/nid/src/MachONidPatcher.cpp:243-252 | The pass in place computes all starts from the old offsets, and says whether anything changed |
| TrieLayout.Layout | core/libs/nid/src/MachONidPatcher.cpp:240-253 | The loop ends for every trie, with offsets that are consistent, and no consistent layout in this node order has a smaller one anywhere |
| TrieParser.EntryReadsBack | core/libs/nid/src/MachONidPatcher.cpp:198-210 | The terminal bytes of an export read as the export, reduced to what its flags keep |
| TrieParser.ParsesNode | core/libs/nid/src/MachONidPatcher.cpp:191-222 | Parsing a node of a laid out trie gives exactly the exports below it, and no node is met twice |
| TrieReader.ReadTrieString | core/libs/nid/src/MachONidPatcher.cpp:138-145 | Reads up to the NUL, or fails at the end |
| TrieReader.Reader.Node | core/libs/nid/src/MachONidPatcher.cpp:191-222 | The recursive reader with its prefix, visited set and output ends on any bytes, appends what the parse gives before it fails if it does, and restores the prefix |
| TrieReader.Parse | core/libs/nid/src/MachONidPatcher.cpp:224-232 | Range check, empty trie and parse together, for any file, offset and size |
| TrieRoundTrip.InsertReads | core/libs/nid/src/MachONidPatcher.cpp:281-309 | What is read from a trie after an insertion is what was read before and the new export |
| TrieRoundTrip.InsertAllSucceeds | core/libs/nid/src/MachONidPatcher.cpp:236-238 | Inserting a list succeeds exactly when its names are new and pairwise distinct, and fails only with the duplicate error |
| TrieRoundTrip.KeptIsSame | core/libs/nid/src/MachONidPatcher.cpp:316-330 | Exactly which exports read back as themselves |
| TrieBuilder.FewBranches | core/libs/nid/src/MachONidPatcher.cpp:260 | No node has more than 255 children, so that error cannot occur |
| TrieBuilder.WriteNodes | core/libs/nid/src/MachONidPatcher.cpp:254-267 | With a consistent layout the layout mismatch error cannot occur, and the bytes are those of the nodes in order |
| TrieBuilder.BuiltParses | core/libs/nid/src/MachONidPatcher.cpp:191-338 | A consistently laid out trie parses to its exports wherever its bytes stand in a file |
| TrieBuilder.RoundTrip | core/libs/nid/src/MachONidPatcher.cpp:191-338 | For every list of exports with distinct names without NUL, parsing what was built gives exactly those exports, order aside, without an error |
| TrieBuilder.BuildExports | core/libs/nid/src/MachONidPatcher.cpp:234-270 | The builder as it runs refuses duplicate names and nothing else; otherwise its bytes are a multiple of eight and read back as the exports |
| DynStr.Sorted | core/libs/nid/src/ElfNidPatcher.cpp:463-468 | Each value once, in descending order of the reversed strings |
| DynStr.SuffixBetween | core/libs/nid/src/ElfNidPatcher.cpp:465-480 | Whatever sorts between a value and a suffix of it ends in that suffix too |
| DynStr.RootOrFollows | core/libs/nid/src/ElfNidPatcher.cpp:475-480 | A value is a proper suffix of some value exactly when it is one of its predecessor in that order |
| DynStr.BuildTable | core/libs/nid/src/ElfNidPatcher.cpp:470-486 | Every value stands at its recorded offset, and exactly the values that are no proper suffix of another have bytes of their own |
| DynStr.NoneShorter | core/libs/nid/src/ElfNidPatcher.cpp:470-486 | No table that starts with a zero byte and holds all values is shorter, given one value that is not empty |
| DynStr.ShortestUnlessOnlyEmpty | core/libs/nid/src/ElfNidPatcher.cpp:470-486 | The table is as short as any exactly when the values are not just the empty one |
| DynStr.Rebuild | core/libs/nid/src/ElfNidPatcher.cpp:463-503 | The section is filled with the table and zeros, and each value reads back from its offset; it fails only when no table of these values fits the section |
| GnuHash.HashIs | core/libs/nid/src/ElfNidPatcher.cpp:24-29 | The hash is 5381 * 33^n plus the sum of the n bytes, each times 33 to the number of bytes behind it, modulo 2^32 |
| GnuHash.ComputeHash | core/libs/nid/src/ElfNidPatcher.cpp:24-29 | Computes that number |
| GnuHash.FillBloom | core/libs/nid/src/ElfNidPatcher.cpp:155-163 | Each bloom word has just the two bits of each symbol that falls to it |
| GnuHash.FillBuckets | core/libs/nid/src/ElfNidPatcher.cpp:165-172 | Each bucket names its first symbol, zero counting as none |
| GnuHash.FillChain | core/libs/nid/src/ElfNidPatcher.cpp:174-178 | Each chain word has the hash of its symbol above the lowest bit, which is set at the end of a bucket |
| GnuHash.HashSection.Rebuild | core/libs/nid/src/ElfNidPatcher.cpp:135-191 | Refuses exactly when the section is too small, leaving it alone, and otherwise fills all three tables for the names |
| GnuHash.LookupExact | core/libs/nid/src/ElfNidPatcher.cpp:135-191 | The bloom, bucket and chain walk finds a symbol of a name exactly when the section lists one, and nothing for any other name |
| GnuHash.AllFound | core/libs/nid/src/ElfNidPatcher.cpp:165-178 | Exactly when every symbol from SymOffset on can be looked up by its name |
| GnuHash.SymbolZeroMissed | core/libs/nid/src/ElfNidPatcher.cpp:165-178 | A rebuilt section of symbol zero alone, under whose name nothing is found |
| SymbolOrder.StableSort | core/libs/nid/src/ElfNidPatcher.cpp:68-77 | The movable indices, each once, ordered by bucket and otherwise as before |
| SymbolOrder.Reorder | core/libs/nid/src/ElfNidPatcher.cpp:57-100 | The index map is a permutation fixed below SymOffset, records and names follow it, equal buckets keep their order, and buckets become contiguous |
| SymbolOrder.FixupRelocations | core/libs/nid/src/ElfNidPatcher.cpp:102-133 | Every relocation of a section linked to the symbol table gets its moved index; all other sections and indices past the table stay |
| SymbolOrder.MovedNamesSame | core/libs/nid/src/ElfNidPatcher.cpp:119-130 | A moved relocation has its kind unchanged and names the record it named before |
| SymbolOrder.Rehash | core/libs/nid/src/ElfNidPatcher.cpp:511-517 | After the three steps on a section that passes the validation of lines 45-55, lookup is exact for the reordered names and every linked relocation names its old record |
| VersionOrder.VersionsMatch | core/libs/nid/src/ElfNidPatcher.cpp:57-100 | The versions, which the reorder leaves alone, still match their symbols exactly when a stable sort by bucket leaves the version table as it is |
| VersionOrder.AnyVersionsMatch | core/libs/nid/src/ElfNidPatcher.cpp:57-100 | They match whatever they are exactly when the symbols stood bucket by bucket before |
| VersionOrder.VersionsCanDiffer | core/libs/nid/src/ElfNidPatcher.cpp:57-100 | Two symbols in the wrong order of buckets get each other's version |
| Serial.CompactBijection | core/shader/recompiler/ShaderDiskCache.cpp:266-318 | Reading a compact number inverts writing it, and every accepted byte string is the one the writer emits, for all 64-bit values |
| Serial.CountedReads | core/shader/recompiler/ShaderDiskCache.cpp:280-284 | A counted list reads back when its elements do |
| Serial.CountedWrites | core/shader/recompiler/ShaderDiskCache.cpp:374-404 | An accepted counted list stands in the bytes as the writer would write it, when that holds of its elements |
| PlanCodec.CodeOfArgument | core/shader/recompiler/ShaderDiskCache.cpp:1015-1019 | The zigzag code of an argument, null, backward, forward or to itself, decodes to the argument |
| PlanCodec.ArgumentOfCode | core/shader/recompiler/ShaderDiskCache.cpp:1127-1141 | Every accepted code is the code of the argument it decodes to, and that lies inside the storage |
| PlanCodec.NodeDecodes | core/shader/recompiler/ShaderDiskCache.cpp:1004-1027 | A value with its operands and phi blocks decodes from its bytes wherever they stand |
| PlanCodec.NodeEncodes | core/shader/recompiler/ShaderDiskCache.cpp:1107-1151 | A decoded value meets the decoder's range checks, and its bytes are the ones the encoder writes for it |
| Layouts.ShapeReads | core/shader/recompiler/ShaderDiskCache.cpp:320-404 | Whatever is stored by a layout reads back by it, wherever it stands |
| Layouts.ShapeWritten | core/shader/recompiler/ShaderDiskCache.cpp:320-404 | Bytes that are read by a layout are the ones stored by it for what was read, which is in range |
| PlanTables.PlanDecodes | core/shader/recompiler/ShaderDiskCache.cpp:978-1254 | Decoding an encoded plan gives the plan, with image modes that were prepared for no images not prepared, or nothing exactly when an index of lines 1238-1251 is out of range |
| PlanTables.PlanEncodes | core/shader/recompiler/ShaderDiskCache.cpp:1097-1254 | Every accepted entry holds a plan in range, and its plan is encoded to the very bytes it was read from if and only if sources without a column have the default column's fields, table operations are bytes, and image modes are prepared only for images |
| PlanTables.EntriesDiffer | core/shader/recompiler/ShaderDiskCache.cpp:978-1083 | Different entries have different bytes |
| PlanAgain.TablesAgain | core/shader/recompiler/ShaderDiskCache.cpp:1029-1236 | The tables read from an entry are stored as the records they were read from exactly under that condition |
| PlanOdd.StrayDiffers | core/shader/recompiler/ShaderDiskCache.cpp:1187-1209 | An entry with a column flag of zero and a stride of one is accepted, and its plan is encoded to other bytes |
| PlanStreams.Writer.Compact | core/shader/recompiler/ShaderDiskCache.cpp:266-272 | Appends the encoding the theorems speak of |
| PlanStreams.Reader.Compact | core/shader/recompiler/ShaderDiskCache.cpp:306-318 | Advances behind an accepted number or fails for good, on any bytes |
| PlanStreams.Reader.Node | core/shader/recompiler/ShaderDiskCache.cpp:1107-1151 | The same for a value of a plan, with every range check |
| PlanStreams.WritePlan | core/shader/recompiler/ShaderDiskCache.cpp:978-1083 | The appending writer produces the bytes of the whole plan: values, memory info, descriptor sources, blocks, reads, shader info and fill |
| PlanStreams.LoadPlan | core/shader/recompiler/ShaderDiskCache.cpp:1097-1254 | The advancing reader accepts exactly the plans of the theorems: all bytes used, all indices in range, counts of sources and images taken from the plan |
| PlanObjects.Describe | core/shader/recompiler/ShaderDiskCache.cpp:978-1027 | Succeeds exactly when the graph points only into its own storage, and then names every edge by index |
| PlanObjects.Restore | core/shader/recompiler/ShaderDiskCache.cpp:1153-1182 | Builds new values and then their operands, so that the new graph has the given description, cycles included |
| PlanObjects.SameDescription | core/shader/recompiler/ShaderDiskCache.cpp:1153-1182 | Graphs with one description are isomorphic |
| PlanTransfer.PlanComesBack | core/shader/recompiler/ShaderDiskCache.cpp:978-1254 | A plan of objects and the one loaded from its bytes are isomorphic: values, operands, phi blocks, and every table with its pointers into the graph, among them those of descriptor sources and of the fill |
| PlanTransfer.Save | core/shader/recompiler/ShaderDiskCache.cpp:978-1083 | Succeeds exactly when no value and no table points outside the plan, and then gives the bytes of its description |
| PlanTransfer.Load | core/shader/recompiler/ShaderDiskCache.cpp:1097-1254 | Builds new objects with the description that the bytes hold, or nothing exactly when they are not accepted |
| PlanTransfer.SaveAndLoad | core/shader/recompiler/ShaderDiskCache.cpp:978-1254 | One after the other they give an isomorphic plan exactly when nothing points outside and the indices are in range |
| EntryContainer.WrappedLoads | core/shader/recompiler/ShaderDiskCache.cpp:1291-1318 | A wrapped entry loads with its payload |
| EntryContainer.LoadsExactlyWrapped | core/shader/recompiler/ShaderDiskCache.cpp:1291-1318 | A file loads for a key exactly when it is, byte for byte, the wrapped entry of that key and payload |
| EntryContainer.OtherKeyMismatches | core/shader/recompiler/ShaderDiskCache.cpp:1314-1315 | An entry never loads for another key, even when hashes collide |
| CacheKey.KeyWordsInjective | core/shader/recompiler/CacheKey.hpp:15-265 | Equal key words with the code in one form come from equal interfaces: every optional, counted and stage-dependent part can be told from what follows it |
| CacheKey.FormsDiffer | core/shader/recompiler/CacheKey.hpp:21-29 | Key words with a hashed code and with a whole one are equal only if the hash is the first word, or the wave size if there is none |
| CacheKey.KeyInjective | core/shader/recompiler/ShaderDiskCache.cpp:1657-1675 | Equal disk keys come from one build, one list of switches and requests that agree in interface, code words, host subgroup size and layout; keys with the code in different forms are equal only for such a hash |
| CacheKey.HitIsEqualRequest | core/shader/recompiler/ShaderDiskCache.cpp:1291-1318 | A file stored for a request loads for that very request, build and switches and mismatches for every other, but for the same exception |
| KeyBuilding.KeyBuilder.Build | core/shader/recompiler/CacheKey.hpp:15-30 | Appending part by part gives the key words that are proved injective |
| KeyBuilding.KeyBuilder.AppendVertex | core/shader/recompiler/CacheKey.hpp:206-219 | An embedded fetch leaves out the numeric class and stores a zero fetch index; resources come one after another behind their count |
| KeyBuilding.BuildKey | core/shader/recompiler/ShaderDiskCache.cpp:1657-1675 | The disk key as written is the one proved injective |
| ResultMemo.UseSound | core/shader/recompiler/Recompiler.cpp:1256-1291 | Using an entry keeps the entries those of the most recently used keys, in that order |
| ResultMemo.TakeRemove | core/shader/recompiler/Recompiler.cpp:1285-1290 | Dropping the tail of a full list never changes which keys are kept later |
| ResultMemo.Memo.Lookup | core/shader/recompiler/Recompiler.cpp:1252-1263 | A hit is the entry of that key, variant and hash, and moves it to the front; list and index stay in bijection |
| ResultMemo.Memo.Publish | core/shader/recompiler/Recompiler.cpp:1270-1292 | An entry published meanwhile is shared, one of another pair under the same key is replaced, and the list is cut to 256; list and index stay in bijection |
| MemoRuns.MemoSafe | core/shader/recompiler/Recompiler.cpp:1247-1295 | In every state of every interleaving: at most 256 entries with distinct keys, the most recently used ones in order, and every answer made for the pair asked for |
| SourceRuns.OneEntryEach | core/shader/recompiler/Recompiler.cpp:399-438 | In every interleaving, at any two times, two threads hold the same entry exactly when they asked for the same key and code |
| SourceRuns.OneVariantEach | core/shader/recompiler/Recompiler.cpp:1052-1105 | In every interleaving, at any two times, two threads are served the same variant exactly when they asked for the same key, code and layout |
| SourceRuns.VariantsApart | core/shader/recompiler/Recompiler.cpp:1052-1105 | In every state of every interleaving the variants of a source have pairwise different layouts, no two threads compile for one source, and none compiles a layout that is there |
| SourceTable.Table.FindOrAdd | core/shader/recompiler/Recompiler.cpp:420-438 | The region under the exclusive lock looks again before it adds, as the step of those interleavings does |
| SourceTable.Variants.FindOrCompile | core/shader/recompiler/Recompiler.cpp:1052-1098 | The variants keep pairwise different layouts; a known layout is answered, a remembered failure thrown again, and one attempt adds one variant or one failure, as the steps of those interleavings do |
| Spirv.ParseStream | core/shader/recompiler/FragmentOutputSpecialization.hpp:45-59 | The words of well-formed instructions parse back to them |
| Spirv.StreamParse | core/shader/recompiler/FragmentOutputSpecialization.hpp:45-59 | Words that parse are the words of what they parse to |
| FragmentPlan.OutputAt | core/shader/recompiler/FragmentOutputSpecialization.hpp:70-79 | The single output at a location without an index, none, or an error when two share it |
| FragmentPlan.Retyped | core/shader/recompiler/FragmentOutputSpecialization.hpp:80-87 | Packed outputs are float4 outputs of the module |
| FragmentChoice.RetypedMeans | core/shader/recompiler/FragmentOutputSpecialization.hpp:80-87 | They are exactly the outputs without an index whose first location decoration gives a requested location |
| FragmentChoice.PlanChooses | core/shader/recompiler/FragmentOutputSpecialization.hpp:24-98 | Told from constants and decorations: the packed outputs are those at the locations that some constant of value one names, the second source is the output at location 1 when dual-source blending is asked for, and the blended output the one at location 0 |
| FragmentChoice.DecorationsChoose | core/shader/recompiler/FragmentOutputSpecialization.hpp:149-166 | The location of the second source becomes location 0 with index 1, the second color gets these beside the blended output, and entry points get the second color |
| FragmentRefusal.PlanRefused | core/shader/recompiler/FragmentOutputSpecialization.hpp:70-124 | Exactly when no plan can be made: shared locations, a packing that was not prepared or is no float4, a packed second color, a blend without its one float4 output, or no ids left |
| FragmentRefusal.ThrowsExactly | core/shader/recompiler/FragmentOutputSpecialization.hpp:137-216 | Exactly which instructions cannot be rewritten |
| FragmentRefusal.SpecializedRefused | core/shader/recompiler/FragmentOutputSpecialization.hpp:19-220 | Specialization fails exactly for a bad constant, or when something is asked of words that are no module, of a plan that is refused, or of code that cannot be rewritten |
| FragmentPlan.PackedTypesTyped | core/shader/recompiler/FragmentOutputSpecialization.hpp:103-119 | The type of packed outputs is a pointer to four 32-bit words, taken from the module or declared under new consecutive ids |
| FragmentMeaning.PackedStoreMeans | core/shader/recompiler/FragmentOutputSpecialization.hpp:172-180 | A packed output receives the bits the store stored |
| FragmentMeaning.BlendedStoreMeans | core/shader/recompiler/FragmentOutputSpecialization.hpp:181-207 | The pair of stores leaves, in the blended output and the one beside it, the components that the route code selects, for every route code |
| FragmentMeaning.ExpansionMeans | core/shader/recompiler/FragmentOutputSpecialization.hpp:137-216 | Any instruction and what it becomes keep the states of the two modules alike |
| FragmentModule.RewriteShape | core/shader/recompiler/FragmentOutputSpecialization.hpp:136-217 | Every instruction is replaced where it stands, and declarations and moved variables come before the first function |
| FragmentModule.FlattenIds | core/shader/recompiler/FragmentOutputSpecialization.hpp:137-218 | The ids that the rewritten stores take are consecutive over the whole module |
| FragmentModule.ReadyIds | core/shader/recompiler/FragmentOutputSpecialization.hpp:103-135 | The ids of declared types, constants and the second color variable are consecutive from the bound of the module on |
| FragmentModule.PathMeans | core/shader/recompiler/FragmentOutputSpecialization.hpp:137-216 | Along every path through the code the two modules stay alike |
| FragmentModule.SpecializedModule | core/shader/recompiler/FragmentOutputSpecialization.hpp:19-220 | The words of the result, for the outputs that constants and decorations choose; all new ids, of types, constants, variable and rewritten stores, are the numbers from the old bound to the new one, each once; packed outputs have a type that is declared as a pointer to four 32-bit words; and exactly when the result is a well-formed stream |
| FragmentModule.SpecializedMeans | core/shader/recompiler/FragmentOutputSpecialization.hpp:19-220 | From every state and along every path the result leaves the bits of the original in every output, and the routed colors in the blended pair |
| FragmentFull.FullOverflows | core/shader/recompiler/FragmentOutputSpecialization.hpp:159-164 | A module with an entry point of 65535 words is specialized, to words that do not begin with an instruction |
| FragmentSpecializer.SpecializeFragmentOutputs | core/shader/recompiler/FragmentOutputSpecialization.hpp:19-220 | The cursor over the words computes the specialized module of the theorems, and fails exactly when that does |
| VertexInputs.SpecializeVertexInputTypes | core/shader/recompiler/VertexInputSpecialization.hpp:17-25 | Applies the patches in order, and refuses exactly when one is out of range |
| VertexInputs.PatchesRise | core/shader/recompiler/VertexInputSpecialization.hpp:91-121 | Patches rise strictly, so no word is patched twice |
| VertexInputs.PatchesAhead | core/shader/recompiler/VertexInputSpecialization.hpp:91-121 | Every patch lies in the stream |
| VertexInputs.ApplyChooses | core/shader/recompiler/VertexInputSpecialization.hpp:17-25 | Patching a stream for any classes gives the stream of the chosen instructions, at the same boundaries |
| VertexPreparation.InputPointersPoint | core/shader/recompiler/VertexInputSpecialization.hpp:77-81 | The pointer type of an input points, class by class, to so many components of that class |
| VertexReads.RewriteShape | core/shader/recompiler/VertexInputSpecialization.hpp:82-127 | Every instruction is kept where it stands, with a slot exactly where it reads an input, and types and input variables come before the first function |
| VertexTyping.CodeTyped | core/shader/recompiler/VertexInputSpecialization.hpp:96-124 | After patching for any classes, every one-index chain, load and cast that reads an input has the type of the class of that input's location; a cast to unsigned that becomes a copy has the type of what it copies |
| VertexModule.PreparedSpecializes | core/shader/recompiler/VertexInputSpecialization.hpp:27-127 | For the result of the whole preparation and every class assignment: it holds the instructions of the source with new types and input variables, its patches hit pairwise different words inside it, and patching gives a well-formed stream with the same boundaries in which every read of an input is typed by the class of the location it is decorated with, by types declared before it |
| VertexSpecializer.PrepareVertexInputs | core/shader/recompiler/VertexInputSpecialization.hpp:27-127 | The three cursors over the words compute that preparation, and fail exactly when it does |
| AmprCommands.MeasuredSize | core/libs/prx/libSceAmpr/Export.cpp:570-678 | Arguments that a recorder accepts are measured at the size of the command it records, exactly unless it is a no-operation with data; that size is measured with one word more |
| AmprCommands.MeasureLaxer | core/libs/prx/libSceAmpr/Export.cpp:570-678 | Exactly which arguments are measured, beyond those recorded and short of them |
| AmprCommands.StreamCuts | core/libs/prx/libSceAmpr/Export.cpp:29-42 | By the sizes in its headers a recorded stream cuts into exactly the recorded commands |
| AmprReader.CommandDecodes | core/libs/prx/libSceAmpr/Export.cpp:37-412 | Read by the offsets and widths of its fields, whatever follows, every recorded command says what was called and with which arguments |
| AmprReader.HistoryDecodes | core/libs/prx/libSceAmpr/Export.cpp:24-42 | After every history the recorded bytes cut into commands that say so one by one |
| AmprExecution.ExecutesUnlessStale | core/libs/prx/libkernel/Apr/src/Apr.cpp:556-586 | Exactly when every gather or scatter read that a history has recorded has a read before it to continue |
| AmprExecution.StaleGather | core/libs/prx/libSceAmpr/Export.cpp:383-392 | A read, a reset of the buffer and a gather read: it is recorded with nothing to continue |
| AmprRecorder.CommandBuffer.Append | core/libs/prx/libSceAmpr/Export.cpp:29-35 | The command is copied behind the others if memory is bound and it fits, and otherwise nothing changes |
| AmprRecorder.CommandBuffer.Record | core/libs/prx/libSceAmpr/Export.cpp:360-412 | Every recorder changes the buffer as its rules say, a failing call changes nothing, and offset, count and bytes stay those of the recorded calls, which `AmprReader` reads back |
| AmprRecorder.MapsAlternate | core/libs/prx/libSceAmpr/Export.cpp:195-201 | In every history a successful map end has a begin that no end has closed, and a successful begin has none |
| AmprRecorder.OneBetween | core/libs/prx/libSceAmpr/Export.cpp:368-374 | Between two successful begins lies a successful end, and between two ends a begin |
| AmprRecorder.GatherAfterRead | core/libs/prx/libSceAmpr/Export.cpp:80-87 | In every history a gather or scatter read succeeds only after a read that no reset has undone |
| AmprRecorder.PlayFits | core/libs/prx/libSceAmpr/Export.cpp:24-35 | In every history the recorded bytes fit the bound memory and every recorded call had valid arguments |
| AmprRecorder.GrowsAsMeasured | core/libs/prx/libSceAmpr/Export.cpp:570-678 | A successful call grows the stream by its measured size, a no-operation with data by that of one word more |
| AmprRecorder.HistoryCuts | core/libs/prx/libSceAmpr/Export.cpp:24-42 | After every history the bytes are exactly as many well-formed commands as were recorded |
| PngFilter.PaethIsNearest | core/Decoder/Png/src/Png.cpp:80-87 | The predictor is the first of left, up and upper left that is nearest to left + up - upper left |
| PngFilter.PredictionIsStandard | core/Decoder/Png/src/Png.cpp:89-117 | Each of the five types predicts exactly what table 9.1 of ISO/IEC 15948 says |
| PngFilter.UnfilterFilter | core/Decoder/Png/src/Png.cpp:80-117 | Undoing a filter as section 9 of ISO/IEC 15948 says gives the row back, for all five types and any row above |
| PngFilter.FilterRow | core/Decoder/Png/src/Png.cpp:89-117 | Fills the buffer with the filtered row and returns its cost, the distances of its bytes from zero modulo 256 |
| PngFilter.BestRow | core/Decoder/Png/src/Png.cpp:180-192 | The stored filter is enabled, none enabled is cheaper, and ties go to the lowest type |
| PngFilter.FilterImage | core/Decoder/Png/src/Png.cpp:164-193 | Refuses exactly the arguments the encoder refuses, channels, compression level, filters, size or pixels; otherwise every row stands in the buffer under its best filter |
| PngFilter.UndoneIsImage | core/Decoder/Png/src/Png.cpp:178-193 | Undoing the filters of that buffer, each row from the undone one above, gives the pixels row by row |
| SelfRegions.CollectRegions | tools/unwrap_self.py:190-206 | Collects the regions of the load segments and then those of other segments that none of them holds |
| SelfRegions.CollectedRegions | tools/unwrap_self.py:190-206 | Every non-empty load segment has a region with its own address and alignment, every other region is of a segment that no region before it holds and has neither, and every non-empty segment is held |
| SelfRegions.SortOrders | tools/unwrap_self.py:208 | The regions are sorted by where they begin, and those that begin alike keep their order |
| SelfRegions.PlaceCongruent | tools/unwrap_self.py:211-215 | A region goes at or above the cursor, congruent to its address modulo its alignment when that is a power of two |
| SelfRegions.StartsPlaced | tools/unwrap_self.py:208-216 | All regions lie at or above the cursor, one behind the other |
| SelfRegions.SegmentReadsSame | tools/unwrap_self.py:218-227 | A non-empty segment reads the same bytes at its new offset |
| SelfRegions.NewOffsetCongruent | tools/unwrap_self.py:208-227 | Exactly when a segment's new offset is congruent to its own address: always in its own region, and in another by where that one was placed |
| SelfRegions.CongruenceCanFail | tools/unwrap_self.py:208-227 | A load segment inside an earlier one whose new offset is not congruent to its address |
| SelfRegions.Unwrap | tools/unwrap_self.py:190-229 | The regions are those of the segments, sorted and placed one behind the other above the headers, congruent to their addresses; every segment has its new offset, and the non-empty ones read the same bytes there, also after the headers are written; it is refused if and only if a segment that is empty and no load segment lies beyond the end of the result and no region holds it |

## Left out

What the model assumes or does not say:

- `GuardImplies` and the IR class internals are not part of this model; the oracle's answers are assumed right, and `Resolve` is the identity.
- A `Wave` computes each value at most once per lane, so it is an execution of acyclic control flow (`ShaderRuns.RunIsWave`). The helper-lane analysis (lines 347-388 of StencilReplay.cpp) and the analysis of kept invocations (lines 632-640) refuse cycles before they rely on it; the search for reference values does not, and is proved for executions with loops in `StencilRuns` and `StencilLoops`. There any successor of a block may be taken, and what a branch tests is not modelled.
- HelperAnalysis.Analysis.Stable: equal words and bits are claimed for lanes that are no helpers, between quads in the same half of their waves, since the halves of a mask are ballots of their own. That lanes take the same path is not derived from stable conditions: the two executions are taken to enter blocks alike, and only values that both compute are compared.
- HelperAnalysis.Analysis.MaskStable: the record of restricted values and own masks that the test keeps for `Check`, and `Check` itself with what only it uses, are not modelled. Exactness is stated for values that do not rest on themselves and heights of at most 128.
- StencilReferences.StencilReferenceValues: the answer is a set; that it is listed in ascending order is not modelled.
- KeptAnalysis.StencilReferenceDefinedForKeptInvocations: a missing predecessor or instruction record cannot be expressed; export flags are part of the instruction.
- TrieBuilder.BuildExports: names without NUL, exports that together stay below 2^64 bytes; offsets are unbounded numbers shown to stay below 2^64.
- TrieReader.Parse: Mach-O load commands, where the trie is found and how chained imports are patched are not modelled.
- DynStr.Rebuild: the collection of names from symbols, dynamic and version entries and the remapping of those entries are not modelled; characters compare as unsigned bytes; sections are below 4 GiB.
- GnuHash.HashSection.Rebuild: tables are sequences of words rather than bytes of the file, bloom words are sets of bit numbers, so byte order and overlapping sections are not modelled.
- SymbolOrder.Rehash: records and relocations are entities rather than bytes; name offsets of symbols without a use are not modelled.
- PlanTables.PlanDecodes: the fields of a plan that are plain numbers are unnamed, in the order they are stored; names of resources are byte strings.
- PlanTables.PlanEncodes: entries of at most 4 GiB; deltas of crafted entries beyond 63 bits, whose arithmetic the language leaves undefined, are taken as numbers.
- PlanTransfer.PlanComesBack: the compact copy that `CompactPlan` makes of an accepted plan is not modelled.
- EntryContainer.LoadsExactlyWrapped: the byte hash and the versions of a build are parameters.
- CacheKey.KeyInjective: states equality of what the key covers. It does not cover, among others, the contents of user data beyond their number, and some target fields. The hash of code is any function. Counts above the size of an array, which throw, cannot be expressed.
- ResultMemo.Memo.Publish: a list iterator is modelled by the entry it points at, and the mixing of variant id and hash is any function.
- SourceTable.Variants.FindOrCompile: compiling, loading from disk and storing to it are one attempt with an arbitrary outcome; the making of plans under the mutex of a source is not modelled.
- FragmentMeaning.ExpansionMeans: packed and blended outputs are operands only of stores, their variables, decorations, names and entry points; the code refuses ten other opcodes but not, say, a call that takes the pointer. Instructions other than stores and the new ones mean whatever they mean, as long as they neither see nor touch what is new or what they do not have as an operand. Well-typedness is stated for the new declarations. All messages of errors are one failure.
- VertexModule.PreparedSpecializes: the module is laid out as section 2.4 of the SPIR-V specification says, types before functions and reads in them. Inputs are read through one-index access chains and loads are consumed by casts; other uses of an input are not claimed to be typed.
- AmprReader.CommandDecodes: arguments fit the types of their parameters, and texts of markers have no NUL inside. What the execution then does with a read, a store or a wait is not modelled, only what it reads from a command and whether a read has one to continue.
- AmprRecorder.CommandBuffer.Record: null buffers, texts and data, `ConstructNop`, the remap, protect and residency recorders and the execution of a stream are not modelled.
- PngFilter.FilterImage: `appendChunk`, `ParseHeader` and the compression of the buffer are not modelled.
- SelfRegions.Unwrap: reading the container's records and headers and the entropy test are not modelled; the program header table is assumed to end before 0x400.

Not modelled at all, because it would add only easier members or concerns input and output: files, mappings and renames of the
disk store, environment switches and counters, compiler passes, the PE patcher, the shader cache pack, the small ABI headers,
and the remaining system libraries.
