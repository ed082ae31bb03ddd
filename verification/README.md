# Tumblers, arrangements and a crash-safe blob store

This project models, in Dafny, three layers of the repository and proves what they promise.

* **The address algebra** (`Tumblers`, `Arithmetic`, `Spans`, `SpanSets`, `SpanSetAlgebra`, `SpanSetSweeps`, `Addresses`).
  Tumblers are nonempty sequences of naturals in lexicographic, prefix-smaller order; spans are half-open intervals held as
  start and width; span-sets have a sort-and-sweep normal form and two cursor sweeps. Every denotation is a set of
  tumblers of every length, so each law is for all of them.
* **Document arrangements** (`Runs`, `RunLists`, `RunListLoops`, `RunUnions`, `VSpaces`, `Reads`, `Chains`, `States`, `Journals`,
  `StaleEdits`, `Seats`, `Forms`, `Shots`). A run-list stands for the plain sequence of addresses `RunLists.Flat`, and every
  operation is proved against that sequence. The journal fold is a pure function, and its class invariants hold from
  genesis under every sequence of records. Chain contiguity among full element positions ties this layer to the first.
* **The blob store** (`LogLines`, `Logs`, `KeyedLogs`, `Clocks`, `BlobNames`, `UploadLogs`, `Leases`, `LeaseReads`, `BlobDisks`,
  `PartialPaths`, `Partials`, `Finishes`, `Instants`, `Stores`, `Streams`, `Opens`, `Spellings`, `Deposits`). Classes over an
  explicit disk. A file holds its live bytes and every content a crash may leave since its last sync; a directory holds its
  live names and every version a crash may leave since its own. Each act of an append, a compaction, a reconciliation, a
  stream, a finish or an open may fail, and a crash may fall after any of them, or inside an append or a rewrite. What a
  crash leaves is judged by what the next open reads. A stream holds no copy of its partial: its handle names a file of the
  store's disk, and every act of it is an act there.

Loops in the source are methods with loops here, each proved to compute a function whose properties are lemmas. Code made of
expressions is functions. Objects updated in place (logs, maps, streams, the store, partial directories) are classes.

**What the model takes as given.** A crash leaves a file, or a directory, as it was at some moment since its last sync, with
the write in flight cut anywhere; a rename is one act. A sync that fails changes nothing of what a crash may leave; of a
partial it may also drop what was not durable yet, and no later sync of the file answers for that until the file has been
cut back to durable bytes (`BlobDisks.FailedSync`, `BlobDisks.SyncedFile`). How each act of the disk goes is a parameter (a
"fate"). A log's lines are bytes, and whether a line is a JSON object, how a record is rendered and how it is parsed are
parameters: they read back what they render, and read no designation, hex or offset the source's own parse refuses
(`BlobNames`, `UploadLogs.ReadableRecord`, `Leases.ReadableLease`). `Spellings` gives one spelling that meets this. The hash
is a parameter whose names the name check admits (`Stores.NamesAreHex`). Of its collisions nothing is asked but of a finish:
no live lease on the bytes' hash is of another size than the bytes (`Finishes.SizesAgree`), which holds over any file
standing at the name where contents that hash alike there are alike (`Finishes.SameContentAgrees`). That these conditions
are met together is shown by stores built and driven: `Deposits.ServeEmpty` serves an empty root, `Deposits.ServeOneDeposit`
makes a deposit in it, and `Deposits.StrandOne` reaches the edge described next. The unstable sort of the run union is any
ascending order (`RunUnions.PiecesOfIsUnion`, `RunUnions.UnionIsOrderBlind`), the library sorts are insertion sorts, and an
ordered map's walk is a selection in its keys' order (`Orders`). Documents key the maps by their tumbler; addresses and runs
that the source's types keep well-formed carry that as a predicate (`JournalStands`, `AllStanding`).

**One law has an edge, and this is where it lies.** That every live lease the next open reads names its file holds of the
program except in one family. A lease whose line landed whole while its sync and its cut back both failed is in no map; the
pruner's read then finds no live lease on the hash and takes the file, and a crash leaves a live lease over no file
(`Stores.StrandALease` drives there any store that serves and holds such a file). The condition is exact. The pruner's act on a
hash leaves some crash that strands a lease on it if and only if, before the act, some crash would have left a live lease on
it to be read (`Stores.Store.RenameAside`, `Stores.Store.UnlinkBlob`). Such a lease, once an open reads it, is served over no
file; its hash is then lost until a finish puts a file durably there again. Over every reachable state a crash may strand a
live lease if and only if it may be read and its hash is one so taken or so lost (`Stores.Store.StrandsExactly`); an open
serves every other live lease over its durable file, and loses exactly the hashes whose file the crash did not leave
(`Opens.OpenStore`, `Opens.ServedStrandsExactly`). What a caller can read first is the stop: while the lease log takes appends
no lease is stranded but on a hash the open already found without its file (`Stores.Store.UnstoppedStrandsNone`).

## Model

| member | source | states |
|---|---|---|
| Tumblers.LtTotal | crates/skep-address/src/tumbler.rs:217-221 | any two tumblers of any lengths are ordered one way, the other way, or equal |
| Tumblers.LtTransitive | crates/skep-address/src/tumbler.rs:217-221 | the order is transitive across mixed lengths |
| Tumblers.LtAsymmetric | crates/skep-address/src/tumbler.rs:217-221 | the order is strict |
| Arithmetic.AddAdvances | crates/skep-address/src/arithmetic.rs:91-99 | a sum lies strictly past its start |
| Arithmetic.AddLeftCancels | crates/skep-address/src/arithmetic.rs:91-99 | equal sums from one start come from equal displacements |
| Arithmetic.AddForgetsPastTheActionPoint | crates/skep-address/src/arithmetic.rs:91-99 | two starts sum alike exactly when they agree through the action point |
| Arithmetic.SubByFilling | crates/skep-address/src/arithmetic.rs:130-152 | the filling loop computes the difference, and refuses exactly where it does |
| Arithmetic.DisplacementRoundTrips | crates/skep-address/src/arithmetic.rs:241-252 | for ordered endpoints a displacement exists exactly when the difference is in the sum's domain and sums back to the far endpoint |
| Arithmetic.ReachDeterminesWidth | crates/skep-address/src/arithmetic.rs:130-152 | at one length, width and reach determine each other |
| Arithmetic.SplitWidthsCompose | crates/skep-address/src/span.rs:499-512 | the two widths of a split sum to the whole width |
| Arithmetic.ShiftComposes | crates/skep-address/src/arithmetic.rs:279-283 | ordinal shifts add up |
| Arithmetic.ShiftOrders | crates/skep-address/src/arithmetic.rs:279-283 | shifts of one position are ordered, and equal, as their amounts are |
| Arithmetic.NextAtLengthIsLeast | crates/skep-address/src/arithmetic.rs:297-299 | nothing of the same length lies between a tumbler and its next |
| Arithmetic.SubtreeInterval | crates/skep-address/src/arithmetic.rs:297-299 | the interval to the next at length holds exactly the extensions of the tumbler |
| Spans.EndsDetermineSpan | crates/skep-address/src/span.rs:151-179 | a level-uniform span is rebuilt from its endpoints |
| Spans.ClassificationMeaning | crates/skep-address/src/span.rs:312-335 | each case of the classification says what it means of the two denotations, for spans of any lengths |
| Spans.IntersectIsMeet | crates/skep-address/src/span.rs:434-437 | the intersection is refused exactly outside the gate and otherwise denotes the common tumblers |
| Spans.MergeIsUnion | crates/skep-address/src/span.rs:450-461 | a merge denotes the union |
| Spans.MergeRefusedApart | crates/skep-address/src/span.rs:450-461 | a merge is refused exactly outside the gate, and withheld exactly where the two neither meet nor touch |
| Spans.SplitPartitions | crates/skep-address/src/span.rs:499-512 | a split's two parts partition the span at the point, and the widths compose |
| Spans.SubtreeCapturesExtensions | crates/skep-address/src/span.rs:246-249 | the subtree span denotes exactly the extensions of its point |
| Spans.SpanDifferenceDenotes | crates/skep-address/src/span.rs:533-563 | the pairwise difference denotes the set difference |
| SpanSetSweeps.ScanLevelClass | crates/skep-address/src/spanset.rs:129-140 | the level gate answers the one length every component shares, or refuses where there is none |
| SpanSetSweeps.Normalize | crates/skep-address/src/spanset.rs:180-208 | the sweep preserves denotation and leaves a normalized set, refusing exactly where the gate does |
| SpanSets.IsNormalizedMeaning | crates/skep-address/src/spanset.rs:214-219 | a set is its own canonical form exactly when level-uniform, ascending and pairwise separated |
| SpanSets.CanonIsNormalized | crates/skep-address/src/spanset.rs:180-219 | normalizing is idempotent |
| SpanSets.NormalFormIsUnique | crates/skep-address/src/spanset.rs:180-208 | a denotation has one normal form, across lengths too |
| SpanSets.CanonIsCanonical | crates/skep-address/src/spanset.rs:489-527 | two level-uniform sets denote alike exactly when they normalize to equal values |
| SpanSets.EquivIsDenotational | crates/skep-address/src/spanset.rs:506-508 | the oracle answers exactly for level-uniform sets, and its answer is equality of denotations |
| SpanSets.EquivAcrossClasses | crates/skep-address/src/spanset.rs:489-508 | nonempty sets of two length classes answer false, and no error |
| SpanSets.UnionCommutes | crates/skep-address/src/spanset.rs:357-371 | union commutes up to canonical form, refusals included |
| SpanSets.UnionIdempotent | crates/skep-address/src/spanset.rs:357-371 | union is idempotent up to canonical form |
| SpanSets.UnionAssociates | crates/skep-address/src/spanset.rs:357-371 | union associates up to canonical form |
| SpanSetAlgebra.IntersectSetsIsIntersection | crates/skep-address/src/spanset.rs:417-432 | the sweep denotes exactly the intersection, over tumblers of every length, and is already normalized |
| SpanSetAlgebra.DifferenceSetsIsDifference | crates/skep-address/src/spanset.rs:452-487 | the sweep denotes exactly the difference, is already normalized, and has at most as many spans as both operands |
| SpanSetSweeps.IntersectByCursors | crates/skep-address/src/spanset.rs:417-432 | the two cursors compute that intersection |
| SpanSetSweeps.DifferenceByCursors | crates/skep-address/src/spanset.rs:452-487 | the outer and inner cursors compute that difference |
| SpanSetSweeps.Hull | crates/skep-address/src/spanset.rs:558-587 | one walk finds the hull: it contains every point, every level-uniform span of its length that does contains it, and it is withheld for no points and refused for extremes of two lengths |
| SpanSetSweeps.HullIsTight | crates/skep-address/src/spanset.rs:558-581 | any level-uniform span of the points' length holding the extremes holds the whole hull |
| SpanSetAlgebra.CoverDenotesExtensions | crates/skep-address/src/spanset.rs:602-604 | a cover denotes exactly the extensions of its points, at every mix of lengths |
| SpanSetAlgebra.ClassOfDenotes | crates/skep-address/src/spanset.rs:156-165 | a level class denotes exactly what its components do, and is uniform where they are |
| Addresses.ScanT4 | crates/skep-address/src/address.rs:159-192 | the one scan counts separators and finds every violated clause, each once |
| Addresses.Validate | crates/skep-address/src/address.rs:255-264 | validation admits exactly the T4-valid tumblers, unchanged |
| Addresses.FieldsAreNonempty | crates/skep-address/src/address.rs:405-409 | fields are present exactly by level, nonempty, and open on a nonzero component |
| Addresses.ParentIsLongestValidPrefix | crates/skep-address/src/address.rs:567-578 | the parent is the longest T4-valid proper prefix |
| Addresses.DocumentOfIsDocument | crates/skep-address/src/address.rs:587-601 | the origin document never fails validation and is a document the address extends |
| Addresses.IncGateIsExact | crates/skep-address/src/arithmetic.rs:191-197 | an increment is T4-valid exactly when its gate admits it |
| Addresses.CheckedInc | crates/skep-address/src/arithmetic.rs:224-230 | the checked increment answers the increment exactly where the gate admits it |
| Addresses.ElemAddrReadsBack | crates/skep-address/src/arithmetic.rs:363-379 | a minted element is a full element position that reads back its document, subspace and ordinal |
| Addresses.ElementPositionIsMinted | crates/skep-address/src/arithmetic.rs:363-379 | every full element position is the mint of what it reads back |
| Addresses.ShiftKeepsElementPosition | crates/skep-arrangement/src/run.rs:344-350 | an ordinal shift of a full element position is one, in the same chain |
| Addresses.ChainsAreContiguous | crates/skep-arrangement/src/run_union.rs:13-32 | among full element positions of every length, one chain's positions lie together in the order |
| Addresses.ExtentHoldsItsPositions | crates/skep-arrangement/src/run.rs:453-456 | an I-extent holds, of all full element positions, exactly the run's own |
| Runs.NewRun | crates/skep-arrangement/src/run.rs:289-297 | the checked door: zero width judged first, then the start's shape |
| Runs.ExtentIsExact | crates/skep-arrangement/src/run.rs:453-456 | I-extent membership of a full element position is membership among the run's addresses |
| Runs.SearchLowerBound | crates/skep-arrangement/src/run.rs:518-531 | the binary search finds the threshold: exactly the offsets below it lie before the bound |
| Runs.OffsetsCoveredByIsExact | crates/skep-arrangement/src/run.rs:488-531 | both branches compute exactly the offsets whose address the span holds, for spans of any shape |
| RunLists.MergedIsUnique | crates/skep-arrangement/src/run_list.rs:88-103 | the maximally merged decomposition of a sequence is unique |
| RunLists.CoalescedIsCanonical | crates/skep-arrangement/src/run_list.rs:97-103 | coalescing decides equality of the sequences, and fixes exactly the merged lists |
| RunLists.CoalescedKeeps | crates/skep-arrangement/src/run_list.rs:97-103 | coalescing keeps the sequence and merges maximally |
| RunListLoops.CoalesceRuns | crates/skep-arrangement/src/run_list.rs:78-103 | the accumulating loop computes the coalesce |
| RunListLoops.SplitByBlocks | crates/skep-arrangement/src/run_list.rs:121-153 | the prefix-sum walk computes the split at a boundary, for any ordinal |
| RunLists.SplitRunsSplitsFlat | crates/skep-arrangement/src/run_list.rs:107-153 | a split cuts the plain sequence at the clamped boundary |
| RunLists.PointIsIndex | crates/skep-arrangement/src/run_list.rs:331-346 | a position is bound exactly in the dense prefix, and holds that entry of the sequence |
| RunLists.HoldsIsExact | crates/skep-arrangement/src/run_list.rs:348-357 | membership by I-extent is membership in the sequence, for every full element position |
| RunLists.SpliceInRefines | crates/skep-arrangement/src/run_list.rs:385-390 | a splice inserts at the clamped boundary and leaves the list merged |
| RunLists.AppendRefines | crates/skep-arrangement/src/run_list.rs:401-403 | an append puts the run's addresses last |
| RunLists.RemoveRangeRefines | crates/skep-arrangement/src/run_list.rs:411-417 | a removal drops the clamped range and closes the gap |
| RunLists.ReorderRefines | crates/skep-arrangement/src/run_list.rs:444-462 | the transpose computes the transpose of the plain sequence and leaves the list merged |
| RunLists.ReorderPermutes | crates/skep-arrangement/src/run_list.rs:431-462 | any cut vector whatsoever permutes the addresses |
| RunLists.PivotMeaning | crates/skep-arrangement/src/run_list.rs:419-430 | three ascending cuts exchange the two regions between them |
| RunLists.SwapMeaning | crates/skep-arrangement/src/run_list.rs:419-430 | four ascending cuts exchange the outer two around the middle |
| RunListLoops.ReorderByPeeling | crates/skep-arrangement/src/run_list.rs:444-462 | the peeling loop computes the transpose |
| RunLists.ResolveRangeRefines | crates/skep-arrangement/src/run_list.rs:540-551 | a range resolves to exactly its arranged part |
| RunLists.ResolveFromRefines | crates/skep-arrangement/src/run_list.rs:567-569 | a suffix resolves to everything from the boundary on |
| RunLists.ClipIsMerged | crates/skep-arrangement/src/run_list.rs:502-523 | a clip of a merged list opens no seam |
| RunLists.RemoveThenSpliceUndoes | crates/skep-arrangement/src/run_list.rs:405-551 | what a range resolves to, spliced back where it was removed, gives the identical run-list |
| RunLists.PivotUndoes | crates/skep-arrangement/src/run_list.rs:444-462 | a pivot then the complementary pivot gives the identical run-list |
| RunUnions.Of | crates/skep-arrangement/src/run_union.rs:83-108 | the sort and the sweep, with the last reach kept beside it, compute the union |
| RunUnions.PiecesOfIsUnion | crates/skep-arrangement/src/run_union.rs:83-108 | for any ascending order the pieces are sorted, disjoint, non-abutting, and hold exactly what the runs hold |
| RunUnions.UnionHoldsTheAddresses | crates/skep-arrangement/src/run_union.rs:143-169 | the union's runs hold exactly the addresses some run of the set holds |
| RunUnions.CoversIsExact | crates/skep-arrangement/src/run_union.rs:109-137 | the one search is true exactly when every address of the run is held by some run of the set |
| RunUnions.SearchCovers | crates/skep-arrangement/src/run_union.rs:130-137 | the binary search answers that question |
| RunUnions.UnionWidthCountsDistinct | crates/skep-arrangement/src/shot.rs:278-299 | the summed piece widths count the distinct addresses, each in one piece |
| RunUnions.UnionIsOrderBlind | crates/skep-arrangement/src/run_union.rs:83-108 | the order the sort leaves equal starts in changes no owned piece |
| VSpaces.VSpanRoundTrips | crates/skep-arrangement/src/vspace.rs:140-150 | the V-span constructor and reader are inverse |
| Reads.ProjectByBlocks | crates/skep-arrangement/src/reads.rs:364-386 | the block-by-cover loops compute the projection, and its normalize never refuses |
| Reads.ProjectIsExact | crates/skep-arrangement/src/reads.rs:364-386 | the projection holds exactly the positions whose address the coverage holds, for coverages of mixed lengths and shapes |
| Reads.ArrangesAnyIsNonemptyProjection | crates/skep-arrangement/src/reads.rs:388-417 | the emptiness test is exactly a nonempty projection |
| Reads.ArrangesAnyIsExact | crates/skep-arrangement/src/reads.rs:388-417 | and is true exactly when some arranged address lies in the coverage |
| Reads.DeletionsByClass | crates/skep-arrangement/src/reads.rs:461-475 | the per-class loop computes the deletions, an absent class subtracting nothing |
| Reads.DeletionsAreExact | crates/skep-arrangement/src/reads.rs:461-475 | the computation never faults and holds, of full element positions, exactly those recorded and not arranged |
| Chains.TrunkIsIteratedParent | crates/skep-arrangement/src/chain.rs:43-85 | the trunk is the parent taken once per version component, is idempotent, and is the address itself off the document tier |
| Chains.BirthVersionShape | crates/skep-arrangement/src/chain.rs:142-145 | a birth version is its trunk followed by the component one, and nothing else is |
| States.ResolveReadsPoints | crates/skep-arrangement/src/reads.rs:70-72 | a resolution is the addresses the point read gives across the arranged part of the span |
| Journals.EveryReplayIsSound | crates/skep-arrangement/src/state.rs:890-1158 | from genesis, under every sequence of records: lists maximally merged and standing, R made of extents, present containment recorded |
| Journals.ImageIsRecorded | crates/skep-arrangement/src/state.rs:170-190 | the content image lies in R over every tumbler of every length |
| Journals.RecordsOnlyGrow | crates/skep-arrangement/src/provenance.rs:112-120 | no later state of R loses or reorders a span |
| Journals.NoFalseNegatives | crates/skep-arrangement/src/reads.rs:596-598 | the historical read misses no document that holds an address of the coverage now |
| Journals.CandidatesInOrder | crates/skep-arrangement/src/provenance.rs:169-181 | the walk answers exactly those documents, in tumbler order, each once |
| Journals.DeletionsAreHistoryLessPresent | crates/skep-arrangement/src/reads.rs:461-475 | over every replay, a full element position is reported deleted exactly when recorded and not arranged |
| Journals.ArrangedAtIsLastChange | crates/skep-arrangement/src/state.rs:250-269 | the arranged-at position is the last content-changing record's, and no other record moves it |
| Journals.ForkSourceIsSnapshotSource | crates/skep-arrangement/src/state.rs:231-249 | over every journal, whatever it repeats, a fork source is the source of the last snapshot naming the document, an empty one included |
| Journals.ForkSourceIsWrittenOnce | crates/skep-arrangement/src/state.rs:231-249 | a document a version minted once has its source from that record on in every later state, and none before |
| Journals.ShotTermsAreTheShots | crates/skep-arrangement/src/state.rs:219-230 | over every journal, a member's terms are those of the last shot placing it |
| Journals.ShotTermsAreWrittenOnce | crates/skep-arrangement/src/state.rs:219-230 | a member a shot minted once has that shot's terms from that record on, and none before |
| Journals.BirthExtentIsItsMints | crates/skep-arrangement/src/state.rs:787-796 | a birth extent is noted by the first minting record with its count, only for a birth version, and never moved |
| Journals.DraftBaseIsLastMove | crates/skep-arrangement/src/state.rs:270-292 | a draft's base is what the last staging, landing or rendering record left, a rendering keeping its source and clearing its marker |
| StaleEdits.RefusesExactlyTheMoved | crates/skep-arrangement/src/ops.rs:624-630 | an edit is refused exactly when a record committed past its position changed the content |
| StaleEdits.RefusalNamesTheLastChange | crates/skep-arrangement/src/ops.rs:624-630 | a refusal names the typed position and the last change's |
| StaleEdits.LetThroughMeansUnmoved | crates/skep-arrangement/src/ops.rs:624-630 | an edit let through meets the identical content run-list it was typed against |
| Seats.StageIsExact | crates/skep-arrangement/src/seat.rs:85-99 | staging admits exactly the home links not already in the list, and refuses in order |
| Seats.ListIsSeatingOrder | crates/skep-arrangement/src/state.rs:1032-1043 | a link list is exactly the links seated, in seating order |
| Seats.SeatedLinksAreUnique | crates/skep-arrangement/src/seat.rs:85-99 | over every run, seated links are pairwise distinct and homed where they are seated |
| Shots.BuildAddressForm | crates/skep-arrangement/src/shot.rs:216-235 | the loop with its window accumulator computes the address form |
| Shots.RequestAndCommitAgree | crates/skep-arrangement/src/shot.rs:188-235 | for any placement keeping windows and laying trunk positions of each value run's count, with any carried tail, both forms spell one body |
| Shots.MemberSpellsTheRequest | crates/skep-arrangement/src/shot.rs:419-431 | the same, read off the state the shot's record leaves |
| Forms.FormsAgree | crates/skep-arrangement/src/shot.rs:354-387 | two merged forms spell one body exactly when they sign the same thing at every position |
| Shots.ReinsertedValuesCountsPositions | crates/skep-arrangement/src/shot.rs:278-299 | the re-inserted values are the distinct named-draft positions the request arranges |
| LogLines.ReadsBack | crates/skep-util/src/file.rs:112-127 | whole lines and a newline-free tail read back as themselves |
| LogLines.WholeLines | crates/skep-blobs/src/jsonl.rs:676-687 | the loop answers the lines before the first that is no object, and their bytes |
| LogLines.TornWrite | crates/skep-blobs/src/jsonl.rs:16-28 | a line's write cut anywhere leaves the lines before it, the line itself only whole, and never damage |
| Logs.Log.Open | crates/skep-blobs/src/jsonl.rs:306-312 | the open holds exactly what it read, keeps the bytes of a damaged cut, and takes appends |
| Logs.Log.AppendBy | crates/skep-blobs/src/jsonl.rs:416-440 | each answer is one step of a run; at every instant a crash keeps every synced line, and this one only where its write landed whole |
| Logs.Log.RefuseIfStopped | crates/skep-blobs/src/jsonl.rs:452-458 | a stop refuses and counts, and changes nothing else |
| Logs.Log.Compact | crates/skep-blobs/src/jsonl.rs:508-564 | each answer is one step of a run; left alone exactly by count; at every instant a crash leaves an old reading or the whole rewrite; a failure past the rename stops the log |
| Logs.SyncedLinesSurvive | crates/skep-blobs/src/jsonl.rs:376-564 | over every run of appends, failures, stops, rewrites however they end, crashes and opens, what the next open reads is within what the answers alone allow |
| Logs.AcknowledgedLinesAreRead | crates/skep-blobs/src/jsonl.rs:376-564 | the lines a synced append, a completed rewrite or an open answered durable are read in their places by every open from then on, until a later rewrite stands and its own lines are |
| Logs.CrashInsideAppend | crates/skep-blobs/src/jsonl.rs:416-440 | a crash at any instant inside an append leaves what a run whose last append stopped the log there makes readable |
| Logs.CrashInsideRewrite | crates/skep-blobs/src/jsonl.rs:508-564 | and one inside a rewrite, what a run whose rewrite stopped past its rename does |
| Logs.CrashThenOpen | crates/skep-blobs/src/jsonl.rs:593-608 | what an open reads after any crash is one step of a run, and a crash leaves no damage |
| KeyedLogs.CountDecides | crates/skep-blobs/src/jsonl.rs:460-515 | an equal count means the lines are exactly the current entries, each once |
| KeyedLogs.CoveredByKept | crates/skep-blobs/src/uploads.rs:451-455 | whatever a crash leaves still holds every entry the map holds, at its value or one a failed append left whole as the log stopped |
| UploadLogs.UploadRecords.Write | crates/skep-blobs/src/uploads.rs:451-455 | the map moves only once the line is durable |
| UploadLogs.UploadRecords.Retire | crates/skep-blobs/src/uploads.rs:471-476 | the map's entry goes first, whatever the line's end |
| UploadLogs.UploadRecords.MarkReceived | crates/skep-blobs/src/uploads.rs:399-417 | offset and expiry set, the rest kept, durable with its line; refused exactly for no held upload of the principal |
| UploadLogs.UploadRecords.SetBack | crates/skep-blobs/src/uploads.rs:433-439 | lowers an offset, keeps its expiry, and raises nothing |
| UploadLogs.UploadRecords.Create | crates/skep-blobs/src/uploads.rs:352-373 | a record at offset zero, or no record |
| UploadLogs.UploadRecords.Compact | crates/skep-blobs/src/uploads.rs:488-492 | left alone or rewritten, the log holds exactly the current records, each once |
| UploadLogs.UploadRecords.CompactIfPast | crates/skep-blobs/src/uploads.rs:507-569 | runs exactly past the trigger or over a stop |
| UploadLogs.ReopenUploads | crates/skep-blobs/src/uploads.rs:237-242 | after any crash every upload is held again, at its record or one a failed append left whole |
| Leases.DropMovesNoAnswer | crates/skep-blobs/src/lease.rs:189-198 | dropping what the horizon has passed changes no answer then or later |
| Leases.LeaseMap.Retain | crates/skep-blobs/src/lease/map.rs:73-90 | exactly the kept leases stay, the index holding their keys and no others |
| Leases.LeaseLog.DropPastHorizon | crates/skep-blobs/src/lease.rs:189-198 | drops exactly the leases past the horizon, and moves no answer |
| Leases.LeaseLog.AppendSynced | crates/skep-blobs/src/lease.rs:233-237 | the map moves only once the lease is durable; at every instant of the append a crash leaves no lease unknown but that one |
| Leases.LeaseLog.Compact | crates/skep-blobs/src/lease.rs:315-317 | left alone or rewritten, the log holds exactly the leases held; at every instant of the rewrite a crash leaves no lease unknown |
| Leases.LeaseLog.CrashReadsKnown | crates/skep-blobs/src/lease.rs:370-382 | nothing a crash leaves reads as a lease never held, save one a failed append left whole or one past the horizon |
| Leases.ReopenLeases | crates/skep-blobs/src/lease.rs:178-186 | a crash and an open change no answer at any later instant, where the log had not stopped |
| LeaseReads.AnyLive | crates/skep-blobs/src/lease.rs:297-303 | the walk of the hash's own range answers exactly whether any principal holds a live lease on it; a name the asked one begins is never read as it |
| LeaseReads.LiveOf | crates/skep-blobs/src/lease.rs:259-261 | a principal's live leases, exactly, in designation and then hex order |
| Partials.Reconcile | crates/skep-blobs/src/partials.rs:202-287 | the walk and the sweep leave exactly the specified records and files, do nothing over a reconciled root, and whatever fails lose no lease its file at any moment and leave every partial durable as it stands |
| Partials.FailureFreeIsReconciled | crates/skep-blobs/src/partials.rs:202-287 | with no failure every record stands over a partial of exactly its offset, and every pinned partial is named |
| Partials.ReconciledIsFixed | crates/skep-blobs/src/partials.rs:202-287 | a second reconciliation at the same instant changes nothing |
| Partials.RefusedRemovalsCostNoUpload | crates/skep-blobs/src/partials.rs:37-54 | whatever removals fail, a standing upload keeps its record, its partial and the bytes both agree on |
| PartialPaths.SurvivesWithItsDirectory | crates/skep-blobs/src/partials.rs:108-134 | a partial its directory's sync made durable there survives every crash if and only if the directory's own entry in the root is durable |
| PartialPaths.CreatedIsHeld | crates/skep-blobs/src/partials.rs:118-134 | the directory's sync holds a new partial's name, and the root's next sync makes it durable |
| Streams.Resume | crates/skep-blobs/src/partials/handle.rs:106-143 | over any serving store: refusals in order, a longer partial cut back to the offset and never a shorter one extended; the stream opened hashes exactly the bytes up to it, and its syncs answer for what they write, whatever sync of the file failed before |
| Streams.Stream.Sync | crates/skep-blobs/src/partials/handle.rs:199-213 | past a sync a stream takes for good all a crash leaves of its file is the bytes hashed, though a sync retried over one that failed answers and makes nothing durable: the tear keeps a stream from taking that one |
| Streams.Stream.Append | crates/skep-blobs/src/store.rs:1678-1690 | refusals in order; bytes written and hashed by a write that succeeded, and by no other; at every grain the partial is synced on the disk before the record is marked; no other partial and no other record moves |
| Streams.Stream.Settle | crates/skep-blobs/src/store.rs:1713-1719 | a settle that answers has the record at the bytes written, over a partial durable to them; one that received nothing writes nothing |
| Streams.Stream.Receive | crates/skep-blobs/src/store.rs:1731-1737 | the one act a grain and a settle share: the record is marked only past the partial's sync, and a failure of either leaves the offset |
| Streams.Stream.SettledOffsetSurvives | crates/skep-blobs/src/store.rs:1731-1737 | over any stream its store's acts reach, its partial's name standing and the designation's root entry durable: whatever a crash leaves of the log and of the disk's names, each on its own, and whatever the next reconciliation's removals refuse, a standing upload keeps its record at or past the settled offset over a partial of that length that begins with the settled bytes |
| Streams.Stream.Finish | crates/skep-blobs/src/store.rs:1811-1891 | a stream's finish names the file by the hash of exactly the bytes the stream wrote, a torn stream finishes nothing, and where nothing fails it finishes |
| Streams.OtherStreamStands | crates/skep-blobs/src/store.rs:285-292 | a stream stands, its file, name, bytes and record untouched, through every act on another upload |
| Streams.EndedStreamStands | crates/skep-blobs/src/store.rs:292-295 | a stream whose upload is ended or expired under it stays one whose acts answer that no upload is held |
| BlobDisks.CrashKeepsDurable | crates/skep-blobs/src/store.rs:1739-1765 | a durable file is in everything a crash may leave, whole and under its hash, even where the crash picks each name on its own among its unsynced versions |
| BlobDisks.CrashKeepsGood | crates/skep-blobs/src/store.rs:1739-1765 | a crash that leaves no whole file at a name over good files only is one that found the name missing from some version |
| Finishes.InstalledStands | crates/skep-blobs/src/store.rs:1859-1859 | the rename over a hash's name keeps a file for every lease, those on that hash and those whose file was lost before included |
| Finishes.SameContentAgrees | crates/skep-blobs/src/store.rs:1739-1749 | what the replace asks of the hash holds over a file standing at the name where contents that hash alike there are alike |
| Finishes.LinkThenInstallKeeps | crates/skep-blobs/src/store.rs:1845-1859 | while a replace runs the hash is never without a file, and no file loses its last name |
| Stores.Store.Finish | crates/skep-blobs/src/store.rs:1811-1891 | the whole finish, any act of it failing: every lease keeps a durable file and every other upload its partial, name, file and bytes at every instant, what each answer leaves, and the aside queued exactly where it answers over a replaced file; where no act fails and the partial stands, it finishes |
| Stores.Store.InstallDurably | crates/skep-blobs/src/store.rs:1839-1870 | past the last sync the hash's file is durable, the first finish into a new directory included, and a hash lost before is lost no more |
| Stores.Store.SyncRoot | crates/skep-blobs/src/store.rs:1864-1870 | a directory is entered as synced only once its entry is durable |
| Stores.Store.CreateUpload | crates/skep-blobs/src/store.rs:1092-1110 | a partial durably named in its directory and a record at offset zero, or no record and no partial its removal could take; no other upload and no other name moves |
| Stores.Store.MarkReceived | crates/skep-blobs/src/uploads.rs:399-417 | a record moves to an offset its partial is durable to, and no other record moves |
| Stores.Store.EndUpload | crates/skep-blobs/src/store.rs:1181-1187 | the partial and then the record, no other upload's partial touched; a removal refused leaves the record standing |
| Stores.Store.ExpireUpload | crates/skep-blobs/src/store.rs:1256-1267 | the same for an expired upload alone, a standing one left as it is |
| Stores.Store.RenameAside | crates/skep-blobs/src/store.rs:729-746 | costs no held lease its file; some crash past it strands a lease on the hash if and only if some crash before it left a live lease on the hash to be read |
| Stores.Store.UnlinkBlob | crates/skep-blobs/src/store.rs:698-703 | the direct form, under the same if and only if |
| Stores.Store.RemoveAside | crates/skep-blobs/src/store.rs:767-773 | removes that aside alone, absent being done; no lease and no partial is touched |
| Stores.Store.UnlinkAsides | crates/skep-blobs/src/store.rs:1204-1219 | the queue is emptied in order to the first failure: those done are gone, no other name or file is touched, and the failed one still stands at the head |
| Stores.Store.CompactLeases | crates/skep-blobs/src/lease.rs:335-341 | keeps a file for every lease at every instant of the rewrite, and one whose rewrite alone can be read lifts every excuse |
| Stores.Store.CompactUploadsIfPast | crates/skep-blobs/src/uploads.rs:507-569 | the upload log's runtime compaction moves no record and no lease |
| Stores.Store.EveryInstantKeepsLeases | crates/skep-blobs/src/store.rs:1739-1765 | at every instant since the open, those inside an append or a rewrite of the lease log included, and whatever a crash then leaves of names, files and log, every live lease the next open reads has its whole file, unless its hash was out then |
| Stores.Store.EveryLiveLeaseNamesItsFile | crates/skep-blobs/src/store.rs:1739-1765 | after any crash now every live lease the next open reads names a whole file with the hashed bytes and the leased size, durable from then on, unless its hash is out |
| Stores.Store.StrandsExactly | crates/skep-media/src/pruner.rs:609-631 | over every reachable state a crash may strand a live lease if and only if it may leave it read and its hash is out: taken by the pruner while it might have been read, or found without its file by the open, and not durably named since |
| Stores.Store.UnstoppedStrandsNone | crates/skep-blobs/src/store.rs:876-878 | while the lease log takes appends, which a caller can read, no crash strands a lease whose file the open found or a finish has since put there |
| Stores.Store.ReadIsInFlight | crates/skep-blobs/src/jsonl.rs:416-440 | where no live lease is held on a hash, a crash may leave one read on it if and only if a failed append left one whole |
| Opens.SweepAsides | crates/skep-blobs/src/blobs.rs:285-312 | the asides left are those the volume would not remove, and no partial's path is touched |
| Opens.OpenStore | crates/skep-blobs/src/store.rs:497-556 | a crash and the whole open over it, any act failing and any lease stranded: what it serves has a durable file for every live lease save exactly those whose file the crash did not leave, each on a hash out before; exactly the reconciled records and partials, both logs taking appends, and every directory's entry durable; where no act it needs fails it serves, whatever removals are refused |
| Opens.ServedStrandsExactly | crates/skep-media/src/pruner.rs:609-631 | over what an open served a crash may strand a live lease if and only if it may leave it read and its hash is one the open lost |
| Opens.SettledOffsetIsServed | crates/skep-blobs/src/store.rs:1692-1737 | from a settle to the store served after a crash, the partial's name standing and its directory's root entry durable: the upload at or past the offset settled, over a durable partial of exactly its offset that begins with the settled bytes |
| Stores.StrandALease | crates/skep-media/src/pruner.rs:609-631 | from any serving store with a whole file no live lease is held on, a lease on it left whole by a failed append and then pruned may be stranded |
| Deposits.Deposit | crates/skep-blobs/src/store.rs:1092-1110 | where no act fails, an upload created, streamed, settled and finished over any serving store ends with the file of exactly its bytes durable under their hash and leased, and no other upload moved |
| Deposits.ServeOneDeposit | crates/skep-blobs/src/store.rs:497-556 | such stores are: one is served over an empty root and takes a deposit |
| Deposits.StrandOne | crates/skep-media/src/pruner.rs:609-631 | and the edge is reached from it |

## Left out

- Partials.Reconcile: records are walked in identifier order, the source's map having none.
- Opens.OpenStore: the refusal of links and special files, the hard-link probe and the sync of the board's own directory above the root are not among its acts; a failed open is modelled by what it serves, nothing.
- An open is stated over a directory left as it stood at one moment since its last sync, a rename being one act; that a live lease keeps its file and a settled offset its partial is stated over a crash that picks each name on its own.
- What an open finds counts as durable, so a process killed and a power loss before the next sync of what it left are not told apart.
- A sync of a log or of a directory that fails is taken to lose nothing a later sync of it would answer for.
- The text of errors, operator lines, names, modes, listings, free space, the hard-link probe and the walk refusing links.
- Serialization of checkpoints and its decode doors; JSON itself.
- Ownership and publication gates, the reading and deposit surfaces, address allocation and the operations that stage records.
- Budgets, costs and heap claims; the pending-bytes sums; the inspection and the operator's pull.
- Concurrency of the store's locks: the acts here are one at a time, as the finish lock and the callers' exclusions make them.
- The upload log's refusal of another build's hash function.
