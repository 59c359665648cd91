# Trichinosis pool workflow — a verified model

This project models the trichinosis screen of the laboratory system
(`src/components/Triquinosis.tsx`). It covers three things:

- **Pool allocation.** `handleGeneratePools` walks the jornada's tropas in id
  order and gives their animals consecutive order numbers from 1. It cuts them
  into pools of 20 (normal jornada) or 10 (suspect jornada). Each pool records
  its three-digit number, sample count, weight, order range and composition.
  A trailing pool of fewer than 4 animals is then folded into the pool before
  it.
- **Recording a verdict.** `handleUpdatePoolResult` refuses a positive pool
  without larvae. It clears the larvae count and observations of a negative
  pool. The normalised verdict replaces the pool's result.
- **Finishing the jornada.** `handleFinishJornada` refuses to finish without
  pools or while any pool is pending. Otherwise, once confirmed, the jornada
  becomes completed. The same predicate highlights the Finish button and
  shows the ADA button. The Finish button stays clickable either way, and
  the handler's guards do the refusing.

Around these sit the screen's pure rules: the tropa filter, the summary counts,
the reagent doses chosen by a pool's sample count, and the row colour.

Modules, one per file:

- `records.dfy` (`Records`): the record shapes of `src/types.ts`, pool numbers
  (`toString().padStart(3, '0')`), and the three composition texts with their
  `join` and `split`.
- `allocator.dfy` (`PoolAllocator`): the allocation loop as an imperative
  method proved against a reference definition of the compositions (`Parts`),
  the tail merge, the id sort and the whole generation.
- `jornada.dfy` (`Jornada`): verdict normalisation, finish gating, and a
  `Session` class holding the jornada's kind, status and stored pools, whose
  methods are the three handlers.
- `summary.dfy` (`Summary`): the tropa filter, the summary counts, the reagent
  rule and the row tone.

Model choices:

- A composition is a sequence of `Part(tropa, count)`. The three stored texts
  (`composition`, `composition_tropas`, `composition_counts`) are rendered from
  it by `Join` and proved to behave as the source's string operations.
- The store is represented by the session's pool sequence and an id counter.
- The user's confirmation is an input of `Finish`.
- Pool numbers and counts are unbounded integers; JavaScript numbers are exact
  at the sizes involved.

## Model

| member | source | states |
|---|---|---|
| Records.DecimalRoundTrip | src/components/Triquinosis.tsx:276 | The decimal text of a natural number reads back as that number. |
| Records.PoolNumberRoundTrip | src/components/Triquinosis.tsx:276 | The zero-padded number of pool k is all digits and reads back as k. It is exactly three characters iff k <= 999. |
| Records.PoolNumbersDistinct | src/components/Triquinosis.tsx:276 | Pools at different positions get different numbers. |
| Records.PoolNumberOrder | src/components/Triquinosis.tsx:89 | For j < k <= 999, pool j's number sorts strictly before pool k's as a string, so reloading pools sorted by `pool_number` keeps generation order. |
| Records.JoinAppend | src/components/Triquinosis.tsx:282-284 | Joining a concatenation of two non-empty lists is joining each and putting the separator between. |
| Records.MergedTexts | src/components/Triquinosis.tsx:301-303 | Rendering two concatenated compositions gives the first's texts, then "/" (or ", " for `composition`), then the second's. |
| Records.SplitJoin | src/components/Triquinosis.tsx:283-284 | Splitting a '/'-joined list on '/' gives the list back when no item contains '/'. |
| Records.CompositionAlignment | src/components/Triquinosis.tsx:283-284 | `composition_counts` splits into one field per part, and field i reads back as part i's count. `composition_tropas` splits into the parts' tropa numbers when none contains '/'. |
| PoolAllocator.PiecesOfTropa | src/components/Triquinosis.tsx:262-268 | The parts a tropa contributes all carry its number, each holds 1..size animals, and together they hold its animals. There is at least one iff its count is positive. |
| PoolAllocator.PartsCoverTropas | src/components/Triquinosis.tsx:258-291 | The parts of all tropas hold all their animals, each part at least one. |
| PoolAllocator.ClosePool | src/components/Triquinosis.tsx:273-288 | Closing the open pool appends a well-formed pool (next number, weight 5 x count, range from the next order number) and leaves an empty open pool. |
| PoolAllocator.TakingStep | src/components/Triquinosis.tsx:262-290 | One round of the inner loop keeps its invariant. The closed pools stay well formed, chained and (but for a last pool of the last tropa) full. Taken and remaining animals add up. What was appended is a prefix of the tropa's parts. |
| PoolAllocator.TakeFromTropa | src/components/Triquinosis.tsx:258-291 | Taking all of tropa k moves the allocation state from the first k tropas to the first k+1. |
| PoolAllocator.DraftPools | src/components/Triquinosis.tsx:249-291 | As written, before the merge: pools are numbered 001.., weigh 5 x count and are chained from order 1. Every pool but the last holds `size`, the last 1..size. They cover `Covered(ts)` animals. Their compositions in order are a prefix of the tropas' parts, and all of them when the last tropa has animals. |
| PoolAllocator.CoveredAll | src/components/Triquinosis.tsx:262-273 | The as-written loop covers at most the tropas' animals. It covers all of them iff the last tropa has animals or the total is a multiple of the pool size. |
| PoolAllocator.TrailingEmptyTropaDropsAnimals | src/components/Triquinosis.tsx:262-273 | For tropas A (5 animals) then B (0), the drafted pools cover none of the 5 animals. |
| PoolAllocator.AbsorbWellFormed | src/components/Triquinosis.tsx:298-300 | The merged pool keeps its number and start. Its weight is 5 x the new count, its range ends at the absorbed pool's end, and its composition holds its count. |
| PoolAllocator.MergeTailPreserves | src/components/Triquinosis.tsx:294-306 | The merge removes exactly one pool when it fires (more than one pool, last under 4) and nothing otherwise. It leaves the earlier pools unchanged and keeps the list well formed, its total and its compositions in order. |
| PoolAllocator.MergeTailFloor | src/components/Triquinosis.tsx:294-306 | After the merge every pool holds at least 4 animals unless there is only one pool. |
| PoolAllocator.MergeTailOnce | src/components/Triquinosis.tsx:294-306 | Merging a second time changes nothing. |
| PoolAllocator.AbsorbTexts | src/components/Triquinosis.tsx:301-303 | The merged pool's three texts are the source's concatenations of the two pools' texts. |
| PoolAllocator.MergeLastPools | src/components/Triquinosis.tsx:294-306 | The in-place merge of the drafted list computes the reference merge `MergeTail`. |
| PoolAllocator.InsertSorted | src/components/Triquinosis.tsx:256 | Inserting a tropa into an id-sorted list keeps it sorted and adds exactly that tropa. |
| PoolAllocator.SortById | src/components/Triquinosis.tsx:256 | The sorted tropas are in ascending id order and are a permutation of the input. |
| PoolAllocator.PositivesKeepParts | src/components/Triquinosis.tsx:260-262 | Setting aside tropas without animals changes neither the total nor the parts, and leaves a last tropa with animals. |
| PoolAllocator.AsWrittenIsAllocation | src/components/Triquinosis.tsx:249-306 | When the last tropa has animals, the as-written drafts, merged, are already an `Allocation` of all the tropas. |
| PoolAllocator.AllocationUnique | src/components/Triquinosis.tsx:249-306 | Any two allocations of the same tropas into pools of the same size are equal, field by field: the pool count, every count, range, number, weight and composition follow from the tropas and the size. |
| PoolAllocator.AsWrittenMatchesCorrected | src/components/Triquinosis.tsx:249-306 | When the last tropa has animals, the as-written drafts, merged, are exactly the pools of any allocation of the tropas, so the source and the corrected generation return the same pools. |
| PoolAllocator.MergedAllocation | src/components/Triquinosis.tsx:249-306 | Drafting the tropas that hold animals and merging the tail yields an `Allocation` of all the tropas. |
| PoolAllocator.AllocatePools | src/components/Triquinosis.tsx:249-306 | The pools returned are an `Allocation`: numbered, weighed and chained from 1. They cover every animal. Their compositions are the tropas' parts in order. All but the last are full, the last holds 1..size+3, and at least 4 when there are several. |
| PoolAllocator.GeneratePools | src/components/Triquinosis.tsx:228-306 | Refused with no open jornada, then with no tropas. Otherwise an allocation of the tropas in id order into pools of 20 (normal) or 10. |
| Jornada.Normalise | src/components/Triquinosis.tsx:428-436 | Refused (invalid result) iff the verdict is P with larvae <= 0. ND is stored with 0 larvae and no observations. P is stored as given. Every accepted reading is consistent. |
| Jornada.NormaliseFixpoint | src/components/Triquinosis.tsx:428-436 | Every consistent reading is accepted and stored unchanged. |
| Jornada.NormaliseIgnoresNegativeDetails | src/components/Triquinosis.tsx:433-436 | ND is stored the same whatever larvae count and observations came with it. |
| Jornada.PendingCountZero | src/components/Triquinosis.tsx:339-340 | The pending count is zero iff no pool is pending. |
| Jornada.CanFinishIffGuards | src/components/Triquinosis.tsx:334-343 | The predicate that highlights the Finish button and shows the ADA button (lines 681 and 1011) holds iff both of the handler's guards pass: there are pools and none is pending. |
| Jornada.IndexOf | server.ts:428-437 | The pool found has the requested id. When none is found, no pool has that id. |
| Jornada.StoredValid | src/components/Triquinosis.tsx:274-285 | Storing a well-formed allocation gives pools with distinct issued ids, well-formed drafts and consistent readings. |
| Jornada.RecordValid | src/components/Triquinosis.tsx:438-445 | Replacing one pool's reading by a consistent one keeps the session's pools valid. |
| Jornada.Session.constructor | src/components/Triquinosis.tsx:133-143 | A started jornada is open and has no pools. |
| Jornada.Session.GeneratePools | src/components/Triquinosis.tsx:228-328 | Refused and nothing changes with no open jornada or no tropas. Otherwise the old pools are replaced by the corrected allocation of the tropas in id order (tropas without animals set aside, as in the Findings below), stored pending with fresh ids. Kind and status are unchanged. On the Findings input the source's session ends with no pools; this one stores one pool of 5. |
| Jornada.RegenerationIdempotent | src/components/Triquinosis.tsx:228-328 | Two generations from the same tropas in the same kind of jornada store the same drafts, all pending, differing only in the fresh ids. |
| Jornada.Session.RecordResult | src/components/Triquinosis.tsx:428-454 | Refused (nothing changes) for P without larvae, for a jornada no longer open, and for an unknown pool id. It succeeds iff none of these applies. Then only that pool's verdict, larvae and observations change, to the normalised reading. |
| Jornada.Session.Finish | src/components/Triquinosis.tsx:330-366 | Refused without pools, refused with the pending count while any pool is pending, and cancelled without confirmation. It succeeds iff the jornada is open, the enable predicate holds and the user confirms. Then only the status changes, to completed. |
| Summary.FilteredTropas | src/components/Triquinosis.tsx:214-218 | The filter keeps exactly the tropas of the chosen kind (internal: flag 1, external: flag 0, all: every tropa) and never adds any. |
| Summary.FilterAppend | src/components/Triquinosis.tsx:214-218 | Filtering distributes over concatenation, so kept tropas keep their order. |
| Summary.FilterAll | src/components/Triquinosis.tsx:217 | The "all" filter returns the list unchanged. |
| Summary.FilterPartition | src/components/Triquinosis.tsx:215-216 | Internal plus external tropas never exceed all tropas. They equal all tropas iff every flag is 0 or 1. |
| Summary.CountsPartition | src/components/Triquinosis.tsx:996-1006 | The ND, P and pending counts add up to the pool count, and the pending count is the one the finish handler reports. |
| Summary.TotalPermutation | src/components/Triquinosis.tsx:986 | The animal total does not depend on the tropas' order. |
| Summary.TotalIsAllocated | src/components/Triquinosis.tsx:986 | With no negative counts, the displayed total is the allocator's total. |
| Summary.TotalMatchesPools | src/components/Triquinosis.tsx:986 | With no negative counts, the displayed "Total Animales" equals the animals in the generated pools. |
| Summary.OnlyLastHalfDose | src/components/Triquinosis.tsx:925-927 | In a generated pool list, every pool but the last gets the full dose (1500 ml, 15 g, 15 ml); only the last can get the small dose for fewer than 10 samples. |
| Summary.ToneMatchesDose | src/components/Triquinosis.tsx:855 | A row is red iff its pool is positive. A row that is not red is amber iff its pool takes the small dose of lines 925-927, and plain iff it takes the full dose. |
| Summary.FreshRowsPlain | src/components/Triquinosis.tsx:855 | Right after generation every pool row but the last is plain: the pools are pending and full. |

## Left out

- All `fetch` calls and the server's SQL layer. This includes loading the
  jornada, its pools and its tropas, and the `Promise.all` delete-then-insert
  of pools (src/components/Triquinosis.tsx:242-247, 309-323). The session holds
  the pools directly. A partial failure of the concurrent deletes or inserts is
  not modelled.
- Pool ids come from a counter in the session, standing in for the store's
  autoincrement ids.
- `alert`, `confirm` and React state setters. A confirmation is the `confirmed`
  input of `Finish`, and an alert is an `Err` result.
- Jornada.Session.RecordResult: the handler itself does not check the jornada's
  status. The refusal once the jornada is completed reflects that the screen
  lists pools only of the open jornada (src/components/Triquinosis.tsx:78-100).
- Jornada.Session.RecordResult: a server error on the update is not modelled.
  An unknown id is the store's 404 (server.ts:434-437).
- Larvae counts are integers. A fractional count typed into the form is not
  modelled.
- Summary.Reagents: the amounts are stated in millilitres and tenths of a gram
  or millilitre (7.5 g as 75), because the model has no decimals.
- Records.PoolNumberOrder: the reload's `localeCompare` is modelled as plain
  character order, and order is proved only for the first 999 pools. With
  1000 or more pools the numbers grow to four digits and string order no
  longer follows generation order.
- Records.CompositionAlignment: tropa numbers that themselves contain '/' break
  the alignment of `composition_tropas`; the lemma assumes none does.
- Temperature logging and the 44–46 °C check (floating point), PDF and Excel
  export, and the ADA document (src/components/Triquinosis.tsx:411-426,
  456-637). These are rendering and foreign libraries.
- Tropa creation and editing, and jornada start and edit beyond the initial
  open state. The other screens (Results, Techniques, Customers, Samples and
  the rest) are outside this model.

## Findings

| source | as written | input that shows it | evidently intended | confidence | as-written member | corrected member |
|---|---|---|---|---|---|---|
| src/components/Triquinosis.tsx:262-273 | A pool is closed early only inside the last tropa's loop. When the last tropa has no animals its loop never runs, so the open partial pool is never closed and its animals get no pool. | Tropas A with 5 animals, then B with 0, in a normal jornada: no pool is generated and 5 animals are not analysed. | Every animal is put in a pool. | high, not executed | PoolAllocator.TrailingEmptyTropaDropsAnimals | PoolAllocator.GeneratePools |

`PoolAllocator.DraftPools` models the loop as written: its coverage is
`Covered`, which falls short of the total in exactly the case above
(`PoolAllocator.CoveredAll`). The corrected generation sets tropas without
animals aside before drafting (`PoolAllocator.Positives`). This changes
nothing when the last tropa has animals: the parts and total stay the same
(`PoolAllocator.PositivesKeepParts`), and the as-written drafts, merged, are
then already an allocation of all the tropas
(`PoolAllocator.AsWrittenIsAllocation`). Since an allocation is fully
determined by the tropas and the pool size (`PoolAllocator.AllocationUnique`),
the source and the corrected generation then return exactly the same pools
(`PoolAllocator.AsWrittenMatchesCorrected`).
With that change `PoolAllocator.AllocatePools` covers every animal. The
session (`Jornada.Session.GeneratePools`) stores the corrected allocation, so
on the input above it stores one pool of 5 animals where the source stores
none.
