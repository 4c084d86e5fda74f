# Fast Positive Tuples, modelled in Dafny

A tuple of this library lives in one array of four-byte units. Descriptors of its loose fields
grow down from `pivot` to `head`, payload grows up from `pivot` to `tail`, and the first units of
the payload are the preplaced part whose shape the schema gives. A descriptor is a tag (genus and
id) and an offset relative to itself. Freed payload is described by descriptors too, the holes;
a hole of size zero is a spare place in the index. Two junk counters say how many holes there are
and how many units they hold.

## What is modelled

The allocator is written twice. `Gear`, `Compaction` and `Operations` define every operation as a
function from state to state, branch by branch; `TupleRw` holds the object with its array, whose
methods do the same in place, with the loops of the source, and are proved to compute those
functions. Everything else is proved about the functions:

- `Ledger`, `Tuples`: the invariant. The units from the preplaced part to the end of data are
  partitioned by the live chunks and the holes, the counters are exact (`Layout`), no two holes
  touch, none touches the end of data, the first descriptor is not an empty hole (`Coalesced`).
- `Searching`, `Keeping`, `Merging`, `Indexing`, `Allocating`, `Adding`, `Reclaiming`,
  `Reallocating`: what each operation of the gear keeps. `Framing`: that it touches no other field.
- `Compacting`, `Moving`, `Defragmenting`, `Compactness`: the two steps of compactify.
- `Abstract`, `Writing`, `Stepping`, `Assigning`, `Growth`, `Running`: the tuple as a bag of fields
  and a list of preplaced values, what every operation does to it and to the length of the index,
  and runs of operations. `Policy`: when an operation throws, what it then asks for and where it puts
  its payload, all said of gaps, spare descriptors and free units. `Genera`: the types by name, how
  long their values are, and the headers of those of variable length.
- `Relocating`, `Autogrowth`, `Footprint`, `Rebalancing`, `Retrying`, `Managed`: the rebalancing of
  the two ends within the buffer, runs with it, and the catch-and-retry loops.
- `Intervals`, `Audit`, `Agreement`: the auditor, and that it and the allocator agree.
- `Serializing`: taking a tuple as it is and fetching it again.

The other parts stand for themselves: `Words`, `Shifts`, `Reciprocals`, `Division`, `Digits` are the
128-bit arithmetic and its text form; `Scanning` is the search for a tag; `Tags` and `Schemas` are
the schema; `Buffers` is the reference counter of a shared buffer as a protocol of steps.

A unit of the array has the two halves of a descriptor and a third component, `own`: the number of
units its owner has reserved. No branch of the operations reads it; it says what callers promise
with `have`. Payload headers are read where the source reads them, and `Written` says that both
agree, which every operation keeps.

## Where the source does not do what it means to

Operations take a mode. `AsWritten` is the source with its assertions switched on, the audit of the
whole tuple before and after each operation (`fast_positive/tuples/details/rw.h:1050-1054`)
included; `Repaired` differs in the eight places below and nowhere else. Hole sizes are unbounded
in both, which makes no difference in a buffer with at most 2047 units besides the preplaced part
(`Rebalancing.WalkHolesFit`). For the mode as written each guard is exact: `Running.StepIff` says
that the operation is sound if and only if its guard holds, and `Defects` has for each place a
steady tuple that passes the audit and on which it fails.

- `src/gear.cxx:263` asserts that a field without payload is an in-place one, which a null nested
  tuple appended to a collection is not. Guard: the value has payload or is in place.
- `src/gear.cxx:300` shifts what is left of a split hole by its own size, the sibling at line 253
  by the size of the field. Guard: no split, or a split in half.
- `src/gear.cxx:591` compares the beginning of the chunk with the end of data where its end is
  meant, so a swap that gives the last chunk away leaves a hole at the end of data. Guard: no swap,
  or not the last chunk.
- `src/gear.cxx:393` raises the junk volume before `src/gear.cxx:417` can throw. Guard: there is a
  neighbouring hole, the tail, or a descriptor.
- `src/gear.cxx:784` takes for granted that a descriptor to be moved has payload. Guard: no absent
  loose field has a hole after it in the index.
- `src/gear.cxx:791` asserts that the place below the packed index is not the first unit, which it
  is when one hole was the only spare place. Guard: space below the index, or not exactly one hole.
- `src/gear.cxx:831-836` takes for granted that a preplaced field has payload, which line 819 does
  not. Guard: no absent preplaced field, or no data to move.
- `src/audit.cxx:91` allows for no more descriptors and variable-length preplaced fields together
  than a tuple may have loose fields. Neither the limit a tuple is created with nor the rebalancing
  keeps to that, so an operation that lengthens the index can fail the check after it. Guard: the
  fixed-size fields have payload, and the limit is kept by the longer index. Repaired no check is
  made, and runs need not pass the audit: without rebalancing all runs of a fresh tuple do exactly
  when its places for loose fields and its references are within the limit
  (`Rebalancing.RunsPassAudit`), with it exactly when the whole buffer is (`WalksPassAudit`).

Other findings, all proved:

- A hole size has eleven bits (`fast_positive/tuples/essentials.h:362-367`), a hole may be larger. The
  model's sizes are unbounded; `Tags.HoleSizeFits` and `Agreement.HoleSizesFit` say when they agree.
- A schema whose preplaced part ends at byte 16384 or later cannot be searched from its end: the
  offset does not fit into the tag it is looked for with (`src/schema.cxx:365-367`), so that
  iterating backwards fails an assertion or finds nothing, and `next_by_offset` goes back to an
  early field. Up to there the searches are what they should be (`Schemas.SearchIff`, `NextIff`,
  `PrevIff`, `EndIsLost`).
- Rebalancing does not keep the boundary between index and payload where reset wants it
  (`src/rw.cxx:611`). A tuple without loose fields that is asked for more data than there is behind
  its end gives up its whole index (`Rebalancing.FreshLosesIndex`), another one gets more index than
  a tuple may have fields (`IndexOutgrowsReset`). `RebalancedResets` tells before the call.
- The audit does not see payload lost in a tuple without any chunk (`src/audit.cxx:298`).
- The quick checks of a read-only tuple refuse the largest tuple that can be taken
  (`src/audit.cxx:361`): with assertions on `src/rw.cxx:643-644` stops the take, without them the
  tuple cannot be fetched again. The constructor from a read-only tuple checks the buffer
  before it cuts its end to the limit on tuples (`src/rw.cxx:713-724`), so with a large reserve of
  items the copy may not fit: `Serializing.ReserveOverruns` has the exact condition and
  `BulkyOverruns` such a tuple. The round trip holds exactly under `Fetchable`.
- In `reciprocal_2by1` (`fast_positive/erthink/erthink_128.h:682`) `d + 1` wraps for the largest
  word. The result is right all the same.

## Model

| member | source | states |
|---|---|---|
| `Searching.LookupFindsBest` | src/gear.cxx:97-147 | In best-fit mode the search, which stops as soon as it has met as many holes as the junk counter says, returns the smallest hole that fits, the lowest address on a tie, and nothing exactly when none fits |
| `Searching.ScanFindsBest` | src/gear.cxx:131-146 | From any descriptor on, with the rest of the counter, the loop completes the search although excesses are subtracted with wrap-around |
| `Searching.BestFitIsUnique` | src/gear.cxx:97-114 | Size and address leave only one best hole |
| `Searching.LookupExactFinds` | src/gear.cxx:117-123 | In exact-size mode the search returns the first hole of that size in the index, and nothing exactly when there is none |
| `Searching.AdjacentFound` | src/gear.cxx:150-168 | The pair returned is the hole that ends where the chunk begins and the one that begins where it ends; nothing means there is no such hole, although the loop stops when the counter is used up |
| `Keeping.TrimKeepsLayout` | src/gear.cxx:170-207 | The cascade of trim_hole ends, keeps the layout with exact counters, leaves no empty hole in front and only shortens the index and the data |
| `Keeping.TrimWhenClear` | src/gear.cxx:170-207 | As long as no hole reaches the end of data the cascade drops empty descriptors only |
| `Keeping.TrimAtTail` | src/gear.cxx:170-207 | If one hole reaches the end of data the cascade either stops before it or gives its payload back, and then no hole reaches the new end |
| `Merging.MergeIsJoin` | src/gear.cxx:307-329 | merge_holes joins the payload of two touching holes in the descriptor that survives, and trims the index exactly when the other one was the first |
| `Merging.MergeWhenClear` | src/gear.cxx:307-329 | Merging away from the end of data keeps layout, counters and the position of the merged hole |
| `Merging.MergeAtTail` | src/gear.cxx:307-329 | Merging with a hole that reaches the end of data restores maximal coalescing whether the trim has removed the merged hole already or not |
| `Merging.ReleaseKeeps` | src/gear.cxx:331-364 | After release_loose the payload area is again exactly partitioned, the counters are exact, no two holes touch, none touches the end of data and the first descriptor is not an empty hole |
| `Indexing.IndexAllocReserves` | src/gear.cxx:218-233 | index_alloc gives a descriptor that counts as an empty hole, from the index or from the space below it, and throws with nothing changed exactly when there is neither |
| `Allocating.FromTailKeeps` | src/gear.cxx:235-242 | Payload taken from the tail belongs to the reference, and layout and coalescing are kept |
| `Allocating.FromHoleKeeps` | src/gear.cxx:243-259 | Payload taken from a hole, whole or split, belongs to the reference; the remainder, if any, is a hole again, and layout and coalescing are kept, even when the hole was the first descriptor and the index is trimmed |
| `Adding.AllocLooseKeeps` | src/gear.cxx:261-305 | alloc_loose adds a descriptor with this tag that owns exactly the units asked for, or throws with nothing changed; as written the layout survives exactly when no hole is split or it is split in half; the assertion on the tag at line 263 is part of the insert, and when it throws is `Policy.AllocLoosePolicy` |
| `Adding.SplitMisplaced` | src/gear.cxx:300 | Shifting the remainder by its own size breaks the layout whenever that differs from the size of the field |
| `Reclaiming.ReleaseDataKeeps` | src/gear.cxx:367-429 | release_data turns the chunk into, or adds it to, exactly one hole, or gives it back to the tail; other holes stay. It throws only without a neighbour, away from the tail and without a descriptor, and as written has then raised the volume |
| `Reallocating.CachedHoleIsFresh` | src/gear.cxx:542-555 | The hole found before the release, weighed against the one the release makes, is the one a fresh search finds |
| `Reallocating.ReleaseAndAllocNeverThrows` | src/gear.cxx:534-565 | Once realloc_data begins to release, neither the release nor the allocation can run out of index or data space |
| `Reallocating.SwapKeeps` | src/gear.cxx:579-601 | The swap keeps the layout and gives the reference the hole; as written coalescing survives exactly when the chunk given away was not the last |
| `Reallocating.ReallocKeeps` | src/gear.cxx:431-631 | realloc_data is all or nothing on all its growth and shrink paths: it throws with the whole state unchanged, and only for want of what it reports, or completes with the layout kept, exactly the units asked for, and maximal coalescing but for the swap of the last chunk as written; when it throws is `Policy.ReallocPolicy` |
| `Framing.ReallocUntouched` | src/gear.cxx:431-631 | realloc_data changes no descriptor and no payload of another field |
| `Framing.AllocLooseUntouched` | src/gear.cxx:261-305 | alloc_loose brings one field to life and changes no other |
| `Framing.ReleaseUntouched` | src/gear.cxx:331-364 | release_loose, with all its merging and trimming, changes no other field |
| `Compaction.PackKeepsEntries` | src/gear.cxx:775-787 | The loop over the index keeps the live descriptors, their order, their tags and the places they refer to, wherever it moves them |
| `Compacting.IndexStep` | src/gear.cxx:761-797 | After the first step the live descriptors stand in order at the end of the index, without holes, and own what they owned |
| `Moving.SortLinesUp` | src/gear.cxx:849-853 | Sorting lines the chunks up by address without losing or adding one |
| `Moving.MoveAllMoves` | src/gear.cxx:855-870 | Moving the chunks down in ascending order within the same units overwrites none before it has moved: each arrives intact and its reference has followed it |
| `Defragmenting.AllFollowed` | src/gear.cxx:811-869 | The vector holds every chunk once, and after the loop every reference points at its chunk while nothing else below the data has changed |
| `Compactness.CompactifyKeeps` | src/gear.cxx:757-875 | compactify keeps the order and the tags of the live descriptors and every value; no hole is left, the index has shrunk by the junk count and the data by the junk volume |
| `Compactness.CompactifyAsWrittenIff` | src/gear.cxx:757-875 | As written it meets its own assertions exactly when no absent loose field would have to move, the index is not brimful and, if data has to move, no preplaced field is absent; then it does the same |
| `Compactness.CountsMeet` | src/gear.cxx:788-870 | The other counts that compactify asserts are right in every steady tuple: as many descriptors are left over as there are holes, there is something to move when there is junk, the vector is as long as was counted, and the last chunk ends with the new data |
| `Stepping.InsertKeeps` | fast_positive/tuples/details/rw.h:1448-1503 | Where no assertion stops it, an insert adds exactly the new field to the bag of fields, or throws with nothing changed |
| `Assigning.EraseKeeps` | fast_positive/tuples/details/rw.h:357-366 | Erasing a loose field never throws and removes exactly that field |
| `Assigning.EmptyKeeps` | fast_positive/tuples/details/rw.h:339-350 | Erasing a preplaced value makes it absent and changes nothing else; it throws exactly when there is neither a neighbouring hole, nor the tail, nor a descriptor, and as written has then raised the volume |
| `Assigning.ReallocShows` | fast_positive/tuples/details/rw.h:1382-1444 | Assigning a value of another length changes that field only, or throws with nothing changed |
| `Assigning.FillKeeps` | fast_positive/tuples/details/rw.h:1382-1444 | Assigning to an absent field gives it its value and changes nothing else, or throws with nothing changed |
| `Assigning.OverwriteKeeps` | fast_positive/tuples/details/rw.h:1382-1444 | A value of the same length is written in place |
| `Growth.GrowthIs` | src/gear.cxx:209-631 | An operation that completes lengthens the index by one exactly when it needs a descriptor, for a field or for a hole of its own, and no empty hole is in the index; otherwise the index is no longer than it was. It never throws where it would lengthen the index |
| `Policy.AllocLoosePolicy` | src/gear.cxx:261-305 | alloc_loose throws if and only if it wants a descriptor and neither an empty hole nor space below the index is left, or the units are neither in a gap nor at the end of data, and asks for both; otherwise it takes the descriptor of a gap that fits exactly, else the first empty hole, else the unit below the index, and its payload from the smallest gap that fits, else from the end of data |
| `Policy.ReallocPolicy` | src/gear.cxx:431-631 | realloc_data throws if and only if none of these is possible: without gaps, to resize the last chunk in place, or to cut or move with a descriptor for what is left; with gaps, to grow into those beside the chunk, to change places with a gap of exactly the length or resize the last chunk when nothing else can be done with it, and otherwise to cut, or to move to free units or a gap. It says what it asks for, and otherwise where the chunk is, best fit included |
| `Policy.AllocPlaces` | src/gear.cxx:235-259 | alloc_data throws if and only if the units are neither in a gap nor at the end of data, and takes them from the smallest gap that fits, else from the end |
| `Policy.ThrowsIff` | fast_positive/tuples/details/rw.h:1320-1503 | Each operation throws if and only if the ledger lacks what it needs, and asks for exactly that; erasing a loose field and compactify never do |
| `Policy.DescriptorIs` | src/gear.cxx:218-233 | index_alloc takes the first empty hole of the index, else the unit below it, and throws exactly when there is neither |
| `Policy.StretchesIs` | src/gear.cxx:513-524 | The neighbouring holes found are the gaps that touch the chunk, and their sizes add up to what it can grow by |
| `Running.ActIff` | src/gear.cxx:209-875 | Between the checks each operation is sound exactly under the part of its guard that is not about the audit |
| `Running.ClosingCheck` | fast_positive/tuples/details/rw.h:1362 | The check after a sound operation fails exactly when the operation has left the limit of the auditor |
| `Running.EveryFieldIsLegal` | fast_positive/tuples/details/rw.h:339-366 | Every loose field the user sees can be erased, and assigned every value that is proper for its type |
| `Running.StepIff` | fast_positive/tuples/details/rw.h:339-366 | Each operation, in either mode and as written with the audits before and after it, has its effect on the bag of fields and keeps the invariant, or throws with nothing changed, if and only if its guard held before the call; repaired the guard always holds |
| `Running.StepKeeps` | src/gear.cxx:209-875 | Under its guard an operation leads from one steady tuple to another and does to the view what it says |
| `Running.RunKeeps` | src/gear.cxx:209-875 | Over every run the invariant is kept and the tuple refines a bag of fields together with the preplaced values |
| `Running.RunPartitions` | src/gear.cxx:209-875 | After every run each unit between the preplaced part and the end of data belongs to exactly one live chunk or hole; junk count and volume are exact |
| `Running.RunStays` | src/gear.cxx:209-875 | The boundary between index and payload never moves, so the index never outgrows its share |
| `Running.ResetIsSteady` | src/rw.cxx:609-626 | reset gives an empty tuple in which every preplaced field has its initial value; the boundary, the buffer and the units below the preplaced part and past the data are as they were |
| `Running.FreshRun` | src/rw.cxx:609-626 | Whatever is done to a fresh tuple, it is steady and shows what the operations say; repaired without conditions, as written under the guards |
| `Defects.SplitOverlaps` | src/gear.cxx:300 | A one-unit field allocated from a three-unit hole puts the remainder over the payload of another field |
| `Defects.SwapLeavesHoleAtTail` | src/gear.cxx:591 | Swapping away the last chunk leaves a hole at the end of data |
| `Defects.ThrowRaisesVolume` | src/gear.cxx:393 | Erasing without room throws with the volume raised |
| `Defects.AbsentPreplacedAsserts` | src/gear.cxx:831-836 | An absent preplaced field makes compactify fail its assertion |
| `Defects.AbsentLooseAsserts` | src/gear.cxx:783-784 | An absent loose field before a hole makes compactify fail its assertion |
| `Defects.BrimfulIndexAsserts` | src/gear.cxx:791-792 | A single hole in an index with no space below it makes compactify fail its assertion |
| `Defects.AbsentInsertAsserts` | src/gear.cxx:263 | Appending a field without payload fails the assertion of alloc_loose, where repaired it is added |
| `Defects.LimitForgetsReferences` | src/audit.cxx:91 | With one variable-length preplaced field, the insert that takes the last of 8191 places does what it should and fails the check after it |
| `Defects.LimitForgetsRebalancing` | src/audit.cxx:420-421 | With a boundary that rebalancing has moved past the limit, so does the insert of the 8192nd loose field |
| `TupleRw.TupleRw.constructor` | fast_positive/tuples/details/rw.h:192-208 | Before its initial image is placed a new tuple has an empty index, no payload and no junk |
| `TupleRw.TupleRw.FromImage` | src/rw.cxx:691-741 | The units after the header are copied to where the index reserve puts them, with the counters of the audit |
| `TupleRw.TupleRw.Lookup` | src/scan_portable.cxx:31-38 | The first descriptor with the tag |
| `TupleRw.TupleRw.LookupHoleExactly` | src/gear.cxx:117-123 | The loop computes the exact-size search |
| `TupleRw.TupleRw.LookupHole` | src/gear.cxx:117-147 | The loop with its counter computes the best-fit search |
| `TupleRw.TupleRw.Better` | src/gear.cxx:97-114 | Of two holes that fit the smaller wins, of two as large the one nearer to the start, and one that fits wins over one that does not, although the excess of the latter wraps around |
| `TupleRw.TupleRw.LookupAdjacentHoles` | src/gear.cxx:150-168 | The loop computes the two neighbouring holes |
| `TupleRw.TupleRw.Trim` | src/gear.cxx:170-207 | The loop over the front of the index computes trim_hole |
| `TupleRw.TupleRw.AllocTail` | src/gear.cxx:209-216 | Tail allocation in place, or the exception — the new state of all fields and of the array equals that of the specification function |
| `TupleRw.TupleRw.AllocIndex` | src/gear.cxx:218-233 | A descriptor in place, or the exception — the new state of all fields and of the array equals that of the specification function |
| `TupleRw.TupleRw.AllocChunk` | src/gear.cxx:235-259 | alloc_data in place — the new state of all fields and of the array equals that of the specification function |
| `TupleRw.TupleRw.AllocField` | src/gear.cxx:261-305 | alloc_loose in place — the new state of all fields and of the array equals that of the specification function |
| `TupleRw.TupleRw.Merge` | src/gear.cxx:307-329 | merge_holes in place — the new state of all fields and of the array equals that of the specification function |
| `TupleRw.TupleRw.ReleaseField` | src/gear.cxx:331-364 | release_loose in place — the new state of all fields and of the array equals that of the specification function |
| `TupleRw.TupleRw.ReleaseChunk` | src/gear.cxx:367-429 | release_data in place — the new state of all fields and of the array equals that of the specification function |
| `TupleRw.TupleRw.ReallocIntact` | src/gear.cxx:458-508 | The branch of realloc_data without holes in place — the new state of all fields and of the array equals that of the specification function |
| `TupleRw.TupleRw.Swap` | src/gear.cxx:579-610 | The swap and the resize of the last chunk in place — the new state of all fields and of the array equals that of the specification function |
| `TupleRw.TupleRw.ReleaseThenAlloc` | src/gear.cxx:534-565 | The common end of realloc_data in place — the new state of all fields and of the array equals that of the specification function |
| `TupleRw.TupleRw.Realloc` | src/gear.cxx:431-631 | realloc_data in place — the new state of all fields and of the array equals that of the specification function |
| `TupleRw.TupleRw.EmptyPreplaced` | fast_positive/tuples/details/rw.h:339-350 | Erasing a preplaced field in place — the new state of all fields and of the array equals that of the specification function |
| `TupleRw.TupleRw.OverlappedCopy` | src/gear.cxx:635-683 | Copying down within the array, ranges overlapping |
| `TupleRw.TupleRw.PackDescriptors` | src/gear.cxx:775-794 | The first loop of compactify in place — the new state of all fields and of the array equals that of the specification function |
| `TupleRw.TupleRw.CollectRefs` | src/gear.cxx:829-838 | The chunks of the preplaced references; fails exactly where the source asserts |
| `TupleRw.TupleRw.CollectLoose` | src/gear.cxx:841-846 | The chunks of the descriptors, the last one first |
| `TupleRw.TupleRw.MoveChunks` | src/gear.cxx:855-870 | The second loop of compactify in place — the new state of all fields and of the array equals that of the specification function |
| `TupleRw.TupleRw.Compactify` | src/gear.cxx:757-875 | compactify in place — the new state of all fields and of the array equals that of the specification function |
| `TupleRw.TupleRw.DebugCheck` | fast_positive/tuples/details/rw.h:1050-1054 | As written the method audits the tuple it is called on, and says whether it passes |
| `TupleRw.TupleRw.Insert` | fast_positive/tuples/details/rw.h:1448-1503 | The object stays valid and its contents gain exactly the field, or it throws unchanged, under the guard of the step; the checks before and after are made |
| `TupleRw.TupleRw.Erase` | fast_positive/tuples/details/rw.h:357-366 | The object loses exactly the field, or a check fails |
| `TupleRw.TupleRw.Assign` | fast_positive/tuples/details/rw.h:1320-1444 | The field has its new value and the rest its old, or it throws unchanged, under the guard of the step |
| `TupleRw.TupleRw.Optimize` | src/gear.cxx:985-992 | The contents are the same without junk, under the guard of the step |
| `TupleRw.TupleRw.ResetTo` | src/rw.cxx:609-626 | reset in place; nothing when its sanity checks fail |
| `TupleRw.TupleRw.Take` | src/rw.cxx:628-646 | The header and the units from head to tail, unless the sizes or, as written, the audit of what has been taken fail the assertions |
| `TupleRw.CreateFromBuffer` | src/rw.cxx:782-796 | Audit, then construction: the method computes the fetch that the round trip is proved about, and reports reserve and space exactly when the buffer is too small |
| `Relocating.RelocatedKeeps` | src/autogrowth.cxx:77-87 | A tuple moved as a whole by any distance, into any buffer, keeps layout, coalescing, counters, the order of fields and every value, because references are relative |
| `Footprint.NoOtherArrangement` | src/autogrowth.cxx:39-48 | When junk and free units do not cover the request no arrangement whatsoever of a tuple that shows the same in this buffer has the room |
| `Footprint.Needs` | src/autogrowth.cxx:28-30 | Units in use less the junk are one for each loose field, the preplaced part, and the units of all values |
| `Autogrowth.IndexShare` | src/autogrowth.cxx:53-63 | The reserve below the index is its proportional share of the free units, rounded up, unless its own need or that of the data bounds it |
| `Autogrowth.DataShare` | src/autogrowth.cxx:64-74 | The reserve after the data is its proportional share, rounded down, unless its own need or that of the index bounds it |
| `Autogrowth.ManageMakesRoom` | src/autogrowth.cxx:22-90 | The in-place branch is taken and completes if and only if the tuple passes the check on entry, junk and free units cover the request within the limits and compactify is safe; then both ends have what was asked for, no hole is left, every field is as it was, no unit has left the buffer, and the tuple passes the check at the end. Otherwise it says whether the request exceeds the limits or needs another buffer, each exactly when it does |
| `Rebalancing.WalkKeeps` | src/autogrowth.cxx:22-90 | Over every run of operations and rebalancings the invariant is kept and the fields change as the operations say; repaired without conditions, as written under the guards |
| `Rebalancing.WalkPassesAudit` | src/audit.cxx:404-449 | Where such a run ends, the tuple passes the audit exactly when its descriptors and references are within the limit; as written they always are |
| `Rebalancing.ResetIsFresh` | src/rw.cxx:609-626 | What reset leaves is fresh, with nothing in its index, and passes the check at its end exactly when its references are within the limit |
| `Rebalancing.RunsPassAudit` | src/audit.cxx:91 | All runs of a fresh tuple without rebalancing pass the audit if and only if the places for loose fields it was created with and its references are within the limit |
| `Rebalancing.WalksPassAudit` | src/audit.cxx:91 | With rebalancing they all do if and only if the buffer without the preplaced part, all of which the index can fill, and the references are within the limit |
| `Rebalancing.RebalancedPivot` | src/autogrowth.cxx:46-88 | Where the boundary between index and payload is after a rebalancing, said of the tuple before it: live descriptors and payload share the free units |
| `Rebalancing.RebalancedResets` | src/rw.cxx:611-613 | The tuple may still be reset after a rebalancing if and only if that boundary is within the limit and not at the start of the buffer |
| `Rebalancing.FreshLosesIndex` | src/autogrowth.cxx:64-74 | A fresh tuple asked for one unit of data more than there is behind its end has no index afterwards, and reset refuses it |
| `Rebalancing.IndexOutgrowsReset` | src/autogrowth.cxx:53-63 | One field in twenty thousand units, asked for one more unit of index, ends with a boundary that reset refuses |
| `Rebalancing.WalkHolesFit` | fast_positive/tuples/essentials.h:362-367 | In a buffer with at most 2047 units besides the preplaced part every hole of every run has a size that its descriptor can hold |
| `Retrying.InsertDeficit` | src/gear.cxx:216-305 | What a failed insert reports as missing is missing |
| `Retrying.AssignDeficit` | src/gear.cxx:431-631 | What a failed assignment reports as missing is missing |
| `Retrying.InsertRetried` | src/autogrowth.cxx:216-226 | An insert that threw succeeds after one in-place pass and adds exactly its field; as written the checks around it pass exactly when live descriptors, the new one and references are within the limit |
| `Retrying.AssignRetried` | src/autogrowth.cxx:202-214 | An assignment that threw needs at most two in-place passes to complete between its checks |
| `Retrying.EraseRetried` | src/autogrowth.cxx:277-288 | Erasing a preplaced field cannot throw a second time, as the comment in the loop says |
| `Managed.SetOnce` | src/autogrowth.cxx:202-214 | Under its guard one attempt to set a field is sound, checks included, a value without payload leaves an absent field absent, and what is reported is missing |
| `Managed.RepairedIsSecure` | src/autogrowth.cxx:202-214 | Repaired the guards of an attempt, of the rebalancing and of the repetition hold for every steady tuple |
| `Managed.SpaciousIsSecure` | src/autogrowth.cxx:202-214 | Once room has been made every guard holds, in either mode, if as written the index may grow by one within the limit |
| `Managed.SetFits` | src/autogrowth.cxx:202-214 | With free space for the value only a unit below the index can be missing |
| `Managed.MoveDown` | src/autogrowth.cxx:80-83 | memmove to lower units, overlapping |
| `Managed.MoveUp` | src/autogrowth.cxx:80-83 | memmove to higher units, overlapping |
| `Managed.TupleRwManaged.MoveBlock` | src/autogrowth.cxx:79-88 | The units from head to tail and the three positions move together |
| `Managed.TupleRwManaged.ComputeShift` | src/autogrowth.cxx:49-74 | Nothing moves while both ends have room; otherwise, when the free units cover the request, the distance keeps the tuple inside the buffer and leaves at least the wanted room at both ends |
| `Managed.TupleRwManaged.ManageSpaceDeficit` | src/autogrowth.cxx:22-90 | The method computes the specified rebalancing with its checks, or leaves the tuple alone when the request is too large or needs another buffer |
| `Managed.TupleRwManaged.Set` | src/autogrowth.cxx:202-214 | The catch-and-retry loop ends; the token then has the value and everything else is as before, or nothing has changed; neither the assertions of the rebalancing nor a check ever fail; repaired without conditions, as written under guards that hold from the first pass on. It finishes whenever the first attempt completes, and whenever junk and free units cover the value and a descriptor; it refuses at once what they do not cover, and is too large or needs another buffer only for want of the units of the value and a descriptor |
| `Intervals.UpperBound` | src/audit.cxx:121-130 | The first interval that begins after the given offset |
| `Intervals.MapInsert` | src/audit.cxx:120-168 | The map stays sorted, disjoint and never touching; the insertion is refused exactly when it overlaps the covered set, which otherwise becomes the union, three-way merges included |
| `Audit.Auditor.CheckChunk` | src/audit.cxx:170-189 | A chunk is accepted exactly when it has a proper size, lies inside the payload and overlaps none before it; the map then covers it too |
| `Audit.Auditor.CheckLoose` | src/audit.cxx:191-225 | A descriptor is accepted exactly when it is well formed and its chunk is; holes are counted |
| `Audit.CoverageDecides` | src/audit.cxx:298-319 | The map being one interval from the preplaced part to the end of data means that the chunks cover exactly that |
| `Audit.AuditAdjacent` | src/audit.cxx:321-340 | The second map has as many intervals as there are holes exactly when no two holes touch |
| `Audit.AuditTuple` | src/audit.cxx:228-351 | The verdict is good exactly for tuples whose descriptors and references are within the limit, whose chunks are well formed, pairwise disjoint and, if there are any, cover exactly the payload; the holes are counted exactly |
| `Audit.AuditRw` | src/audit.cxx:404-449 | The verdict is good exactly when the positions are in order and in their limits, the layout is acceptable, no two holes touch and the junk counters are exact |
| `Agreement.AuditSound` | src/audit.cxx:404-449 | What the audit accepts has the layout of the allocator if and only if it has a chunk or ends with its preplaced part |
| `Agreement.LostSpaceAccepted` | src/audit.cxx:298-319 | Without any chunk the audit accepts a tuple that has lost a unit |
| `Agreement.AuditComplete` | src/audit.cxx:404-449 | A steady tuple passes, junk counters and the pass over neighbouring holes included, if and only if its fixed-size fields have payload and its descriptors and references are within the limit |
| `Agreement.AuditIff` | src/audit.cxx:404-449 | The audit accepts exactly the tuples whose chunks share out the payload, with exact counters, lengths as declared, no two holes side by side, payload for the fixed-size fields and no more descriptors and references than the limit, but for what is lost past the preplaced part when there is no chunk |
| `Agreement.FurnishedIsSeen` | src/audit.cxx:210-215 | Whether the fixed-size fields have payload can be seen in the bag of fields |
| `Agreement.HoleSizesFit` | fast_positive/tuples/essentials.h:362-367 | With at most 2047 units of payload every hole has a size that its descriptor can hold |
| `Serializing.HeaderReadsBack` | src/rw.cxx:628-646 | Index size, payload size and the flag for preplaced fields are read back from the header as they were written |
| `Serializing.TakenIff` | src/rw.cxx:628-646 | Without assertions on what is taken every tuple with no more loose fields than the limit can be taken |
| `Serializing.TakenPasses` | src/audit.cxx:354-402 | What is taken passes the read-only audit, and so the assertion of the take, exactly when the tuple is shorter than the largest buffer and within the limit of the auditor; the audit counts its holes exactly |
| `Serializing.RoundTrip` | src/rw.cxx:628-646 | Taking a tuple and fetching it gives a steady tuple with the same fields in the same order, the same preplaced values and the same counters and the reserve asked for, which passes the check at the end of the constructor, if and only if size, limit, reserve and buffer allow |
| `Serializing.Refusals` | src/rw.cxx:691-724 | Each refusal of the fetch is answered exactly in its case: what has been taken does not pass the audit, the arguments exceed their limits, the payload is too large for the schema, the buffer is too small |
| `Serializing.ReserveOverruns` | src/rw.cxx:691-724 | The copy would end past the new tuple if and only if the checks before it pass and the buffer holds the reserve of items and the payload but the largest tuple does not |
| `Serializing.BulkyOverruns` | src/rw.cxx:691-724 | One nested tuple of sixty thousand units, fetched with a reserve of eight thousand items, is such a case |
| `Serializing.LargestIsLost` | src/audit.cxx:361-362 | A tuple that fills the largest buffer fails the assertion when it is taken, and taken in a build without assertions it can never be fetched |
| `Genera.LooseSizes` | fast_positive/tuples/details/meta.h:64-280 | The table of loose fields gives each type of fixed length the units that its bits take, none if they fit into the descriptor, and the genera of variable length are the four that have headers |
| `Genera.PreplacedSizes` | fast_positive/tuples/details/meta.h:64-280 | The table of preplaced fields gives each type the bytes of its value, or of a reference, four times the units of a loose one, aligned to its size but to no more than a unit |
| `Genera.EveryGenus` | fast_positive/tuples/essentials.h:134-189 | Each number below that of a hole stands for exactly one type |
| `Genera.TextReadsBack` | fast_positive/tuples/details/field.h:58-94 | A text of any length is read back from its header, tiny or large, with the units it takes |
| `Genera.VarbinReadsBack` | fast_positive/tuples/details/field.h:120-147 | So is a binary value of any length that fits |
| `Genera.NestedReadsBack` | src/rw.cxx:628-646 | A nested tuple is as long as the header says that it was taken with |
| `Genera.PropertyReadsBack` | fast_positive/tuples/details/field.h:252-287 | So is a property |
| `Genera.StoredIsProper` | fast_positive/tuples/details/field.h:73-94 | Every value as it is stored is one that the operations accept for its type |
| `Words.AddWraps` | fast_positive/erthink/erthink_128.h:308-312 | The sum modulo 2^128, the carry found by comparison |
| `Words.SubWraps` | fast_positive/erthink/erthink_128.h:329-333 | The difference modulo 2^128, the borrow found by comparison |
| `Words.CompareIsOrder` | fast_positive/erthink/erthink_128.h:350-384 | The comparisons are the order of the values |
| `Words.UmulIsProduct` | fast_positive/erthink/erthink_128.h:406-419 | The four partial products and their carries give the exact 128-bit product |
| `Shifts.ShlWraps` | fast_positive/erthink/erthink_128.h:486-496 | Left shift multiplies by the power of two modulo 2^128, for every distance below 128 |
| `Shifts.ShrDivides` | fast_positive/erthink/erthink_128.h:502-511 | Right shift divides by the power of two, for every distance below 128 |
| `Shifts.ClzNormalises` | fast_positive/erthink/erthink_128.h:753 | Shifting by the leading zeros sets the top bit and loses none |
| `Reciprocals.Reciprocal2by1IsExact` | fast_positive/erthink/erthink_128.h:676-687 | The table look-up and four refinement steps, with all their wrap-around, give floor((2^128 - 1) / d) - 2^64 for every normalised word |
| `Reciprocals.LargestReciprocal` | fast_positive/erthink/erthink_128.h:682-686 | For the largest word d + 1 wraps to zero, which spoils one step, and the result is exact all the same |
| `Reciprocals.ReciprocalIsFloor` | fast_positive/erthink/erthink_128.h:676-687 | What is proved of the reciprocal is its definition by division |
| `Division.Reciprocal3by2` | fast_positive/erthink/erthink_128.h:689-701 | The exact reciprocal floor((2^192 - 1) / d) - 2^64 of every normalised double word, through at most two corrections in each stage |
| `Division.Reciprocal2IsFloor` | fast_positive/erthink/erthink_128.h:689-701 | What is proved of it is its definition by division |
| `Division.Divmod2by1` | fast_positive/erthink/erthink_128.h:704-716 | Quotient and remainder of two words by one, after at most two corrections |
| `Division.Divmod3by2` | fast_positive/erthink/erthink_128.h:719-732 | Quotient and remainder of three words by two, after at most two corrections |
| `Division.DivideByWord` | fast_positive/erthink/erthink_128.h:736-747 | Two divisions of two words by one with normalising shifts give the quotient and remainder by one word |
| `Division.DivmodU128` | fast_positive/erthink/erthink_128.h:735-765 | Every division but by zero returns q and r with x = q * y + r and r < y |
| `Digits.Digit2Char` | fast_positive/erthink/erthink_128.h:629-632 | The character is a figure or a small letter and is read back as the digit |
| `Digits.CharIsDigit` | fast_positive/erthink/erthink_128.h:622-627 | A character is a digit exactly when it is a figure or a letter of either size, with the value it stands for |
| `Digits.LargeLetters` | fast_positive/erthink/erthink_128.h:622-627 | Large letters are read as the same digits |
| `Digits.MulSmall` | fast_positive/erthink/erthink_128.h:784-793 | Multiplying by the base is exact as long as the product fits |
| `Digits.TextMeans` | fast_positive/erthink/erthink_128.h:904-921 | The text consists of digits of the base, denotes the number and has no leading zero |
| `Digits.ToString` | fast_positive/erthink/erthink_128.h:904-921 | The loop writes that text, or refuses the base |
| `Digits.FromChars` | fast_positive/erthink/erthink_128.h:988-1022 | The loop computes the specified scan, after the specified prefix, with the specified error |
| `Digits.LongestRunIsRead` | fast_positive/erthink/erthink_128.h:1005-1021 | from_chars stops at the first character that is no digit of the base; the value is the number that the digits before it stand for if that fits, and without a digit there is an error |
| `Digits.DigitsAreRead` | fast_positive/erthink/erthink_128.h:1005-1021 | Every non-empty text of digits whose number fits is read to its end, without error, as that number |
| `Digits.TextRoundTrip` | fast_positive/erthink/erthink_128.h:904-1022 | For every 128-bit value and every base from 2 to 36 reading what was written consumes the whole text and returns the value |
| `Digits.DecimalRoundTrip` | fast_positive/erthink/erthink_128.h:991-1002 | Decimal text is also read back when the base is to be found out |
| `Digits.PrefixedRoundTrip` | fast_positive/erthink/erthink_128.h:991-1002 | With the prefix of either size hexadecimal text is read back, and octal text with a zero |
| `Digits.RoundTrip` | fast_positive/erthink/erthink_128.h:904-1022 | The two methods one after the other return the value and no error |
| `Scanning.ScanUnrolled` | src/scan_portable.cxx:51-103 | The scan unrolled eight times returns what the reference loop returns, for every length |
| `Scanning.WindowBelow` | src/scan_SSE2.cxx:99-103 | Looking at the window that ends with a short index and shifting the mask shows exactly its descriptors |
| `Scanning.WindowAbove` | src/scan_SSE2.cxx:104-107 | Looking at the window that begins with a short index and shortening the mask shows exactly its descriptors |
| `Scanning.LowestIsFirst` | src/scan_SSE2.cxx:60-72 | The lowest set bit stands for the first match |
| `Scanning.ScanTail` | src/scan_SSE2.cxx:134-162 | The last windows, one of which overlaps the one before it, find the first match of the rest |
| `Scanning.ScanBlocked` | src/scan_SSE2.cxx:85-163 | The blocked scan returns what the reference loop returns, for every length and every lane width |
| `Scanning.ScanSSE2` | src/scan_SSE2.cxx:85-163 | With windows of four descriptors the scan returns what the reference loop returns |
| `Scanning.ScanAVX2` | src/scan_AVX2.cxx:79-157 | So it does with windows of eight |
| `Scanning.ScanAVX512` | src/scan_AVX512.cxx:83-161 | And with windows of sixteen |
| `Buffers.StepKeeps` | src/1Hippeus/buffer.cxx:152-206 | Every step of add_reference and detach, the plain read and the decrement being separate steps, keeps the invariant of the counter |
| `Buffers.RunKeeps` | src/1Hippeus/buffer.cxx:152-206 | So does every interleaving of any number of threads |
| `Buffers.NeverTooEarly` | src/1Hippeus/buffer.cxx:167-206 | The buffer is repaid at most once, by one thread only, and nobody holds a reference then nor from the moment that thread has decided so |
| `Buffers.RepaidInTheEnd` | src/1Hippeus/buffer.cxx:167-206 | When all threads are done and nobody holds a reference it has been repaid exactly once |
| `Buffers.CounterIsPositive` | src/1Hippeus/buffer.cxx:152-174 | The assertions on the counter never fail |
| `Buffers.StepCounts` | src/1Hippeus/buffer.cxx:152-206 | References in use grow by one where one is added, shrink by one where one is decremented or found to be the last, and change nowhere else |
| `Buffers.RunCounts` | src/1Hippeus/buffer.cxx:152-206 | Over every interleaving the references in use are those at the start, one in a fresh buffer, plus the additions less those given up |
| `Buffers.AddGivesOne` | src/1Hippeus/buffer.cxx:152-165 | Who holds a reference may always add one, pass it on or detach it; add_reference adds exactly one to its thread and to the counter |
| `Buffers.DetachGivesUpOne` | src/1Hippeus/buffer.cxx:167-206 | A detach takes exactly one reference from its thread and the counter down by one, or gives the buffer back if it was the last |
| `Buffers.CanBeRepaid` | src/1Hippeus/buffer.cxx:167-206 | Nobody is ever stuck: from every state the threads can detach all there is, and the buffer is then given back once |
| `Tags.HoleSizeFits` | fast_positive/tuples/essentials.h:362-367 | A hole can be read back from its descriptor exactly when its size fits into eleven bits |
| `Tags.HoleSizeOverflows` | fast_positive/tuples/essentials.h:362-367 | A hole of 2048 units reads as an empty text field |
| `Tags.NormalizedIs` | fast_positive/tuples/essentials.h:384-396 | Normalising sets the flags and nothing else, and tells the two kinds of tags apart |
| `Tags.TagOrder` | fast_positive/tuples/essentials.h:398-404 | The order of normalised tags is by kind, offset, type and size or id; sameness ignores the flags only |
| `Tags.OffsetTagIs` | src/schema.cxx:365-367 | The tag to look for is that of the offset cut to fourteen bits, and the offset is read back exactly when it has no more |
| `Tags.OffsetOrder` | src/schema.cxx:363-367 | An un-normalised tag is less than that of an offset exactly when its own offset is less than what is left of that one |
| `Schemas.NextIsFresh` | src/schema.cxx:129-139 | The next id is taken by no field of the type, exceeds all of them and follows one that is taken |
| `Schemas.BelongingKeeps` | src/schema.cxx:141-215 | Adding a token made by either definition keeps the order, the layout of the image and the numbering |
| `Schemas.BelongingIsFree` | src/schema.cxx:148-170 | Such a token is never taken and never collides |
| `Schemas.Schema.AddDefinition` | src/schema.cxx:141-215 | Any token is refused exactly for a long name, a known name, a known token or a conflict, in this order and with nothing changed; a token made by either definition is otherwise entered with its name, and the schema stays well formed |
| `Schemas.Schema.FindSame` | src/schema.cxx:147-149 | The look-up ignores the flags only |
| `Schemas.Schema.CheckPlace` | src/schema.cxx:154-170 | The loop finds the first crossing or overlap, and nothing exactly when there is none |
| `Schemas.CollidesIff` | src/schema.cxx:109-127 | Two fields collide exactly when they share a byte; a field and an opaque structure exactly when one end of the new one lies inside the other and the other end does not |
| `Schemas.Schema.DefinePreplaced` | src/schema.cxx:217-238 | The field begins at the next aligned byte past the image and the image ends with it; refusals are exactly those of the source |
| `Schemas.Schema.DefineLoose` | src/schema.cxx:268-289 | The field has a fresh id, the next of its type; refusals are exactly those of the source |
| `Schemas.Schema.SearchPreplaced` | src/schema.cxx:357-407 | Halving over un-normalised tags returns what the linear search for the offset cut to a tag returns; with assertions it fails exactly for an offset that does not fit |
| `Schemas.SearchIff` | src/schema.cxx:357-407 | Within the image and at its end that is the linear search for the offset itself if and only if the offset is below 16384 |
| `Schemas.Schema.ByOffset` | src/schema.cxx:466-477 | The field at this offset, and nothing exactly when there is none; with assertions it fails exactly for an offset from 16384 on within the image |
| `Schemas.Schema.NextByOffset` | src/schema.cxx:479-494 | The field that follows in the search as written |
| `Schemas.NextIff` | src/schema.cxx:479-494 | That is the field that follows in the linear search if and only if the offset does not lie between 16384 and the end of the image |
| `Schemas.Schema.PrevByOffset` | src/schema.cxx:496-507 | The field that precedes in the search as written |
| `Schemas.PrevIff` | src/schema.cxx:496-507 | That is the field that precedes in the linear search if and only if the offset does not lie between 16384 and the end of the image, that end included |
| `Schemas.FollowingIs` | src/schema.cxx:479-494 | The field past an offset is next to where the offset is found |
| `Schemas.WalkByOffset` | src/schema.cxx:479-507 | Going on by offsets from the first field visits every preplaced field once, in order, and going back undoes it; going back from the end of the image finds the last field if and only if the image ends below 16384 |
| `Schemas.EndIsLost` | src/ro.cxx:114-134 | One field at offset 16380 cannot be found from the end of the image |

## Left out

- Gear.MergeHoles: hole sizes are not cut to eleven bits, and the counters not to sixteen; holes above 2047 units are the subject of `Tags.HoleSizeFits`.
- Adding.AllocLooseKeeps: the same holds for the remainder of a split hole.
- Running.StepIff: the assertion that a hole size has eleven bits (`fast_positive/tuples/essentials.h:363`) is not among the guards; by `Rebalancing.WalkHolesFit` it holds in buffers with at most 2047 units besides the preplaced part.
- Rebalancing.WalkKeeps: a request that needs another buffer, or is too large, changes nothing in these runs.
- Managed.TupleRwManaged.ManageSpaceDeficit: the branches that allocate another buffer, or take over the one of a legacy tuple (`src/autogrowth.cxx:91-199`), are allocator plumbing; the method reports that they would be taken.
- Stepping.InsertKeeps: whether a value counts as empty, so that a setter or append_field returns early, is decided by the caller, and so is the erasing of a fixed-size field that is set to an empty value; the checks before and after the insert are part of `Running.StepIff`.
- TupleRw.TupleRw.Insert: likewise; the setter's own early return for an absent field is part of `Managed.SetPart`.
- TupleRw.TupleRw.constructor: the checks of the buffer's size are left out, and the initial image is placed by `ResetTo`.
- TupleRw.TupleRw.Take: the aliasing of the image with the units of the tuple is left out.
- TupleRw.CreateFromBuffer: the size of the buffer, which the source computes from a reserve of payload, is a parameter.
- Defragmenting.AllFollowed: the capacity reserved for the vector is not modelled; that its length is as counted is `Compactness.CountsMeet`.
- Audit.AuditTuple: the check of a sorted index (`src/audit.cxx:343-348`) is left out.
- Audit.AuditRw: so is the sorted flag.
- Schemas.Schema.DefinePreplaced: the initial bytes appended to the image are left out; its size is kept.
- Schemas.Schema.AddDefinition: imported tokens are modelled only where they are refused; accepting one that overlaps the image, and opaque structures, are left out.
- Digits.FromChars: the wrap test of from_chars is modelled as it stands, but it is only partial, so results are claimed for numbers that fit.
- Serializing.RoundTrip: the sorted flag of the header is always clear, because the marking of sorted tuples is a stub (`src/gear.cxx:56-60`).
- Buffers.Next: the width of the counter is not modelled, nor the choice between the ways of repaying.
- Scanning.ScanBlocked: the test whether the memory below the index is on the same page is a parameter, and vector instructions are modelled by the masks they give.
- `gear::sort` and the check for a sorted index: the two places use opposite orders and nothing marks an index as sorted.
- `by_loose` (`src/schema.cxx:409-464`): its last candidate is never compared.
- The length of variable binaries (`fast_positive/tuples/details/field.h:120-147`): storing and reading do not agree unless the length is a multiple of four.
- Signed division, negation and mixed operators of the 128-bit types: they are one line each over what is modelled.
- Typed getters and setters, range checks of insert_number, floats, date and time, collections and iterators, the legacy and C interfaces: one branch each over the operations modelled here.
- The scan of AVX by floating-point comparison, the choice of a variant by CPU, page offsets and memory guards: behaviour of the hardware.
- Memory from malloc or a shared heap, and exceptions as C++ objects: they are results here.
