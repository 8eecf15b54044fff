# Verified models of the cookie_os kernel

This project models the memory management, the descriptor table, the synchronisation primitives and the scheduler
queues of the cookie_os kernel in Dafny, and proves what they promise. `dafny verify dfyconfig.toml` checks
everything.

## What is modelled

**Page tables and the first-fit allocator** (`Layout`, `Entries`, `Availability`, `PageTables`, `Allocations`,
`Slots`, `Strategies`, `Assembly`, `AddressParts`, `Staging`, `Releasing`, `Trimming`, `CodeMeaning`, `Granting`,
`Finding`, `Limits`, `Leftovers`, `OnePage`, `Overlaps`, `FirstFit`, `Refusals`, `Clearing`, `PageMapping`,
`Translation`, `Splitting`, `PagingContexts`). A `Table` is one allocator of the source: its 512 entries, its sub-allocators and its
packed 2-bit bitmap. `ViewAt` is the page walk of section 5.3 (Long-Mode Page Translation) of the AMD64 Architecture
Programmer's Manual, Volume 2: it gives, for every address, whether it is free, and otherwise the level that decides
about it and the physical address with the effective flags, the data of an absent page, or that the entry belongs to
somebody else's table. All operations are specified by what they do to this function from addresses to views.
`PageTables.Valid` is the invariant that keeps entries, sub-allocators and bitmap in step at every level, including
that a sub-table entry grants at least the flags of everything below it. The class `PagingContexts.PageAllocator` adds
the allocations that were handed out and what their owners mapped them to; its invariant says that live allocations
are pairwise disjoint, that an address is occupied exactly when one of them owns it, and that every mapped allocation
translates to its physical range. Every method keeps it, so it holds over every run of allocate, allocate_at,
deallocate, split, set_base_addr and set_absent; the two calls that can break it, `allocate` with strategies that
leave no room further down and `set_absent` with zero data, say exactly when they do.

A table is *trimmed* if it has no empty sub-tables, its codes are *exact* if each is what a refresh would set it to,
and it is *tidy* if both hold (`Trimmed`, `CodesExact`, `Tidy`). Every operation but a refused `allocate_at` keeps
each of the two whenever it keeps the invariant (`StaysTidy`). In a tidy table a code depends on nothing but which
addresses of the slot are in use (`CodeIsUse`), and that is what the statements about refused requests rest on.

What the strategies of a request mean is told by the slots of its addresses (`Limits`): a range *fits* if it can be had
and lies, on every level that the request gets to, within the limits of that level's strategy. A request is granted
exactly if some range fits, and gets the one that comes first in the directions of the strategies.

**Physical memory** (`Blocks`, `FreeLists`, `RangeCutting`, `BuddyAllocators`). The buddy allocator, for every
`MAX_ORDER` of at least one and every positive `MIN_SIZE`: free and live blocks partition the managed memory over
every run, the counters are their sums, merging is maximal, and every operation says exactly when an index leaves the
array of lists.

**Concurrent protocols** (`Counters`, `DescriptorSlots`, `DescriptorTrees`, `RwLocks`, `WaitQueues`, `Promises`,
`TlbHandshake`). Each is a state machine whose steps are the single atomic actions of arbitrarily many threads under
sequential consistency: a function `Apply` (`ApplyTree`) gives the state after a step if the step can be taken, an
inductive invariant `Inv` (`TreeInv`) is kept by every step, and a theorem carries it over all finite runs. What the
threads get is told by the steps of the run, who may take a step is told without the atomic words it looks at, and
from every state that satisfies the invariant the threads that are under way can finish.

**Interruption guards and scheduler queues** (`Interruptions`, `Schedulers`). Classes whose methods are the operations
of the source.

## Findings

Every condition below is proved in both directions; the methods of `Refusals` and `HalvesMeet` make the failing calls.

- `BuddyAllocator` has lists for the orders below `MAX_ORDER`, but `merge` and `add_memory` can address the list of
  order `MAX_ORDER` (`kernel/rust/src/memory/physical.rs:90`, `:107`, `:141`). `Merge` does so exactly when both
  halves of such a block are free, `AddBlocks` exactly when the range holds such a block, and `Release` exactly
  when, from the order of the returned block up, the sibling on every order is free before merging begins; in
  coalesced lists that is exactly when the block completes a free one of that order. `HalvesMeet` gets there with
  calls that all succeed: add the two halves separately, which makes the whole block free and goes unnoticed, hand
  one out, take it back. It cannot happen while no whole block of that order lies in the memory.
- A failing `allocate_at` gives back its trailing remainder without deleting the sub-table it made for it and
  without refreshing its code (`kernel/rust/src/memory/paging/allocators/firstfit.rs:303-315`). No address changes
  its view. `UndoSite` finds the slot where this happens, from the table before the call: both remainders are not
  empty, the whole slots are clear, the trailing remainder is granted and the leading one is not. The table stays
  trimmed exactly if that slot was not empty, and tidy exactly if moreover its code is the same with and without the
  remainder. `RefusedIntoEmpty` leaves an empty sub-table; `RefusedIntoFull` leaves code 11 on a sub-table with a
  free page, which a further request then cannot have.
- `allocate_at` refuses a completely free range if one of its ends needs half a slot or more of a slot with code 10
  (`kernel/rust/src/memory/paging/allocators/firstfit.rs:109-110`): the code counts parts with anything in them, and
  the first and last part of the range may be free where it needs them. `GrantedIff` proves that in a tidy table
  there is no other reason than this one and addresses in use; `RefusedHalf` is such a range.
- `_alloc_inside` leaves a new sub-table unrefreshed if the request does not fit a fresh one
  (`kernel/rust/src/memory/paging/allocators/firstfit.rs:120-130`), which breaks the invariant. `Allocate` states
  exactly when (`Litters`): the strategies leave no room on some level down, and the search tries an empty slot on
  the way. `UserHeapLimit` works this out for `ALLOCATION_USER_HEAP`, requests above 511 GiB, and `RefusedHeap`
  makes one. The sub-tables stay behind in slots that look empty. On a level with huge pages a request for a whole
  slot is then granted over one of them, and a request for a page inside it: `OwnedTwice` gets two live allocations
  that own the same page from three calls of `allocate`.
- `set_base_addr` maps the range exactly when the base lies in the largest page of the allocation as the allocation
  itself does; `MapsExactly` states both directions. Otherwise some page has reserved bits set in its frame address,
  or only bit 12, which selects the memory type of a huge page, and then translates 4 KiB too low. Splitting keeps
  the address that was written for every page, and what that address means depends on the level alone (`Reading`).
  So `FilledExactly` can say when `split_page` keeps where a misaligned page translates to: a 2 MiB page with bit 12
  set moves by 4 KiB.
- `set_absent` with data whose low 63 bits are zero writes unused entries (`AbsentRoundTrip`). The allocation then
  looks free while its slots still count as full; `ForEach` and `SetAbsent` state that this breaks the invariant,
  and that no other data does.
- The active count of a page table has 16 bits, and tasks count themselves before they wait for the lock
  (`kernel/rust/src/memory/paging/api.rs:460-466`), so any number of them may be behind it. `HandshakeIff`: a run is
  free of stale TLB entries exactly if no writer decides while the table is loaded and its count has wrapped to
  zero; fewer than 2^16 activating tasks and CPUs together rule that out (`Handshake`, `TokensBound`). `CountWraps`
  is a run with one loaded CPU and 2^16 - 1 waiting tasks.
- The comment at `kernel/rust/src/memory/paging/api.rs:489-491` says that the active count cannot rise while a
  writer has the lock. It can (`CountMayRise`); what cannot happen is that the table gets loaded (`Handshake`).
- The fallback of spread mode that `kernel/rust/src/memory/paging/strategy.rs:12-14` describes is not effective,
  because `kernel/rust/src/memory/paging/allocators/firstfit.rs:224` tests the strategy and not the loop variable.
  The model follows the code: `Allocate` states that a spread request for less than a page, if fresh sub-tables have
  room for it, succeeds exactly when some slot of the window is completely empty.

## Model

| member | source | states |
|---|---|---|
| Entries.FlagsRoundTrip | kernel/rust/src/memory/paging/arch/x86_64.rs:22-57 | encoding flags into entry bits and decoding them are inverse in both directions |
| Entries.FlagsUnion | kernel/rust/src/memory/paging/arch/x86_64.rs:97-102 | adding flags to a sub-table entry grants the least upper bound of what it granted and what was added, and leaves the flags of single mappings as they were |
| Entries.FlagsMeet | kernel/rust/src/memory/paging/arch/x86_64.rs:22-57 | what two levels let through together is the greatest lower bound of what they grant |
| Entries.AbsentRoundTrip | kernel/rust/src/memory/paging/arch/x86_64.rs:111-115 | absent data reads back exactly when it fits 63 bits, and is told from an unused entry exactly when its low 63 bits are not zero |
| Availability.PackUnpack | kernel/rust/src/memory/paging/allocators/firstfit.rs:46-54 | four 2-bit codes packed into a byte unpack to themselves |
| Availability.SetGet | kernel/rust/src/memory/paging/allocators/firstfit.rs:46-54 | setting one code of the packed bitmap changes that code and no other |
| Availability.IsFullMeaning | kernel/rust/src/memory/paging/allocators/firstfit.rs:174-178 | the bytewise test for a full bitmap holds exactly when every slot has the full code |
| PageTables.NewTableValid | kernel/rust/src/memory/paging/allocators/firstfit.rs:162-170 | a new table satisfies the invariant, shows every address free and has every code empty |
| PageTables.ViewWithin | kernel/rust/src/memory/paging/arch/x86_64.rs:97-110 | because entries above grant whatever is granted below, the page walk takes no flag away from a mapping |
| PageTables.EmptySlotView | kernel/rust/src/memory/paging/allocators/firstfit.rs:80-106 | code 00 means an unused entry without a sub-allocator, in every valid table, so the panics in `_alloc_contiguous` are unreachable |
| Slots.RefreshNeeded | kernel/rust/src/memory/paging/allocators/firstfit.rs:23-34 | a sub-table that get_subtable_always creates breaks the invariant until the code is refreshed |
| Slots.BackedUsed | kernel/rust/src/memory/paging/allocators/firstfit.rs:80-106 | every address of an allocation that the tables back is occupied, and by this allocator |
| Slots.BackedByView | kernel/rust/src/memory/paging/allocators/firstfit.rs:327-351 | an allocation stays backed whatever happens to the tables, as long as its own addresses keep their deciding level |
| Slots.TakeThenRelease | kernel/rust/src/memory/paging/allocators/firstfit.rs:327-351 | deallocating undoes an allocation: every address has the view it had before |
| Allocations.Size | kernel/rust/src/memory/paging/sealed.rs:140-147 | the loop over nested items yields end minus start |
| Allocations.CoversBySlot | kernel/rust/src/memory/paging/sealed.rs:124-139 | start and end address describe exactly the union of what the items cover |
| Allocations.OffsetsSorted | kernel/rust/src/memory/paging/sealed.rs:85-110 | the items of an allocation are sorted by offset |
| Allocations.PathOffset | kernel/rust/src/memory/paging/sealed.rs:85-139 | the offsets summed along the path to a page are its distance from the start, and the page is aligned to its size |
| Strategies.WholePages | kernel/rust/src/memory/paging/allocators/firstfit.rs:193-197 | whole pages and remainder of a request add up to its size at every level |
| Strategies.DefaultFits | kernel/rust/src/memory/paging/strategy.rs:16-46 | the default strategies never refuse what fits an empty table, on any level down |
| Strategies.UserHeapLimit | kernel/rust/src/memory/paging/arch/x86_64.rs:146 | under the user-heap strategies a request for less than a top-level page is passed down to sub-tables without room exactly above 511 GiB |
| Assembly.SortByOffset | kernel/rust/src/memory/paging/allocators/firstfit.rs:132-153 | the result is sorted by offset and a permutation of the items |
| Assembly.SortUnique | kernel/rust/src/memory/paging/allocators/firstfit.rs:132-153 | sorting items whose offsets differ has only one possible result |
| Assembly.BuildAllocation | kernel/rust/src/memory/paging/allocators/firstfit.rs:132-153 | the allocation holds the shifted middle items and the remainders, sorted |
| Assembly.FittingShape | kernel/rust/src/memory/paging/allocators/firstfit.rs:132-153 | a leading remainder, whole slots and a trailing remainder that adjoin make one contiguous allocation, backed by the tables |
| AddressParts.AddrParts | kernel/rust/src/memory/paging/allocators/firstfit.rs:270-284 | how a range decomposes into a leading remainder, whole slots and a trailing remainder, all page-aligned |
| AddressParts.AddrEnd | kernel/rust/src/memory/paging/allocators/firstfit.rs:270-284 | the parts end exactly where the range ends |
| AddressParts.MainAreaFits | kernel/rust/src/memory/paging/allocators/firstfit.rs:270-284 | for a range inside the table every part lies in a slot of the table |
| FirstFit.AllocContiguous | kernel/rust/src/memory/paging/allocators/firstfit.rs:80-106 | the slots become reserved, in order, and nothing else changes; on a level with pages this is so whatever else the table holds, and sub-tables in the slots stay behind |
| FirstFit.AllocWhole | kernel/rust/src/memory/paging/allocators/firstfit.rs:80-106 | an empty slot becomes reserved as a whole, as a page or as a filled sub-table; the nested allocation cannot fail |
| FirstFit.AllocRem | kernel/rust/src/memory/paging/allocators/firstfit.rs:107-118 | exactly the given bytes of the slot become reserved, exactly when `RemGranted` holds of the table before; a refusal changes no view, and keeps the table trimmed and tidy exactly where the nested one does |
| FirstFit.AllocInside | kernel/rust/src/memory/paging/allocators/firstfit.rs:120-130 | one free range of the size inside the slot becomes reserved, exactly when `AllocGranted` holds of the sub-table and at the address it determines, or no address changes; the invariant survives exactly unless a sub-table without room was created or left further down; a refused page means that every admitted address of the slot is in use |
| FirstFit.AllocateParts | kernel/rust/src/memory/paging/allocators/firstfit.rs:285-325 | exactly the range of the three parts becomes reserved, exactly when `PartsGranted` holds of the table before; a refusal changes no view, changes nothing at all unless a remainder is rolled back, and keeps the table trimmed and tidy exactly as `PartsSite` tells |
| FirstFit.AllocateMiddle | kernel/rust/src/memory/paging/allocators/firstfit.rs:317-324 | the whole slots and the remainders together are one contiguous allocation |
| FirstFit.UndoRem | kernel/rust/src/memory/paging/allocators/firstfit.rs:303-315 | rolling back the trailing remainder leaves every address as it was before the call; the table stays trimmed exactly if the slot was not empty, and tidy exactly if also its code is the same with and without the remainder, which is the code that remains |
| FirstFit.AllocateAt | kernel/rust/src/memory/paging/allocators/firstfit.rs:270-325 | success reserves exactly `[addr, addr + size)`, which was free, and happens exactly when `Granted` holds of the table before; failure changes no view and, exactly as `UndoSite` tells from the table before, keeps the table the same, trimmed or tidy; a range past the table is refused if the scan meets an occupied slot first |
| FirstFit.TryOffset | kernel/rust/src/memory/paging/allocators/firstfit.rs:219-265 | one attempt: a contiguous range in the window becomes reserved, exactly when `OffsetGranted` holds of the table before, or the table is unchanged; what a request without room further down leaves in the slot |
| FirstFit.Search | kernel/rust/src/memory/paging/allocators/firstfit.rs:212-266 | the attempt at the first window in search order at which `OffsetGranted` holds, or every window tried in vain, in both passes of spread mode; `WindowMeans` says which windows these are |
| FirstFit.Allocate | kernel/rust/src/memory/paging/allocators/firstfit.rs:191-268 | succeeds exactly when `AllocGranted` holds of the table before, which is when the request fits somewhere (`GrantedIfFits`), and then reserves one contiguous free range of the size at the one address `PlacedAt`, the first that fits (`PlacedIsFirst`); the invariant survives exactly unless `Litters` holds of the table before; where it survives, refusal leaves the table as it was; a small request in spread mode succeeds only if some slot is completely empty; a page is refused exactly when every admitted address is in use |
| FirstFit.Deallocate | kernel/rust/src/memory/paging/allocators/firstfit.rs:327-351 | exactly the addresses of the allocation become free, no empty sub-table is left behind, and codes stay exact |
| FirstFit.DeallocateItem | kernel/rust/src/memory/paging/allocators/firstfit.rs:330-349 | the bytes of one item become free and no other slot changes; a sub-table that became empty is deleted |
| Trimming.FreeIsEmpty | kernel/rust/src/memory/paging/allocators/firstfit.rs:341-347 | with no empty sub-tables around, a slot in which nothing is in use has the empty code |
| Trimming.RefusedIsInUse | kernel/rust/src/memory/paging/allocators/firstfit.rs:217-268 | in a trimmed table a window is clear or some address in it is in use |
| CodeMeaning.CodeSays | kernel/rust/src/memory/paging/allocators/firstfit.rs:55-78 | what the four codes of a tidy table say: nothing in the slot is in use, everything is, or something is in more than half or in at most half of its 512 parts |
| CodeMeaning.FullSlot | kernel/rust/src/memory/paging/allocators/firstfit.rs:55-78 | with exact codes, a slot has the full code exactly when every address in it is in use |
| CodeMeaning.FullTable | kernel/rust/src/memory/paging/allocators/firstfit.rs:55-69 | with exact codes a sub-table counts as full exactly when every address of it is in use |
| CodeMeaning.CodeIsUse | kernel/rust/src/memory/paging/allocators/firstfit.rs:55-78 | in a tidy table the code of a sub-table is a function of which of its addresses are in use |
| Granting.GrantedIff | kernel/rust/src/memory/paging/allocators/firstfit.rs:270-325 | in a tidy table `allocate_at` is granted exactly when the range is free and neither end needs half a slot or more of one that is more than half full |
| Granting.NoUndoAtEnd | kernel/rust/src/memory/paging/allocators/firstfit.rs:303-315 | a range that ends with the table rolls nothing back on any level |
| Granting.UndoneTidy | kernel/rust/src/memory/paging/allocators/firstfit.rs:303-315 | exactly when a rolled-back remainder leaves a tidy table tidy, and which code it leaves |
| Finding.PlacedOnce | kernel/rust/src/memory/paging/allocators/firstfit.rs:212-266 | the address to which first fit leads on all levels is unique |
| Finding.GrantedFits | kernel/rust/src/memory/paging/strategy.rs:16-46 | nothing is granted in any table that has no room in fresh sub-tables |
| Finding.OffsetIsAddress | kernel/rust/src/memory/paging/allocators/firstfit.rs:219-325 | a request of a slot or more is granted at a slot exactly if `allocate_at` would grant it there |
| Limits.WindowMeans | kernel/rust/src/memory/paging/allocators/firstfit.rs:193-206 | the search tries a slot exactly if all the slots needed from there on lie in the table and between min_page and max_page, both inclusive |
| Limits.GrantedIfFits | kernel/rust/src/memory/paging/allocators/firstfit.rs:191-268 | a request is granted exactly if some range can be had whose slots, on every level that the request gets to, lie within min_page and max_page of that level's strategy |
| Limits.PlacedIsFirst | kernel/rust/src/memory/paging/allocators/firstfit.rs:208-266 | the range that is taken fits, and every other range that fits comes later: on the highest level on which the slots differ, it has the higher slot, or the lower one under reverse_order |
| Limits.BeforeIsLower | kernel/rust/src/memory/paging/allocators/firstfit.rs:208-266 | without reverse_order on any level what comes later has a higher address, and with it on all levels a lower one |
| Limits.EveryAddress | kernel/rust/src/memory/paging/strategy.rs:8-11 | every address of a range that fits is in a slot from min_page to max_page, on every level that the request gets to |
| Limits.HadIff | kernel/rust/src/memory/paging/allocators/firstfit.rs:219-265 | in a tidy table a range can be had exactly if it is free, its slot is free on levels in spread mode, and no end of it meets a slot too full for it |
| Limits.StackInLowerHalf | kernel/rust/src/memory/paging/arch/x86_64.rs:143-144 | user stacks end at or below 2^47 |
| Limits.HeapSkipsFirst | kernel/rust/src/memory/paging/arch/x86_64.rs:145-146 | user heaps of less than a top-level page have no address in the first GiB of that page |
| Leftovers.InsideValid | kernel/rust/src/memory/paging/allocators/firstfit.rs:120-130 | entering a slot in vain keeps the invariant exactly if it leaves no sub-table behind there or further down |
| Leftovers.SearchDone | kernel/rust/src/memory/paging/allocators/firstfit.rs:212-268 | a search for something no sub-table has room for keeps the invariant exactly if it tries no empty slot on any level |
| OnePage.AdmittedFits | kernel/rust/src/memory/paging/strategy.rs:16-46 | strategies that admit any address for a page leave room for a page in fresh sub-tables on every level |
| OnePage.AllExhausted | kernel/rust/src/memory/paging/allocators/firstfit.rs:212-268 | if every slot of the window is exhausted, every address that the strategies admit on all levels is in use |
| Refusals.RefusedIntoEmpty | kernel/rust/src/memory/paging/allocators/firstfit.rs:303-315 | a tidy level-2 table with one page taken, and the refused call after which it is not trimmed |
| Refusals.RefusedIntoFull | kernel/rust/src/memory/paging/allocators/firstfit.rs:303-315 | the refused call after which a sub-table with a free page has the full code, and the further call that cannot have that page |
| Refusals.RefusedHalf | kernel/rust/src/memory/paging/allocators/firstfit.rs:109-110 | a tidy level-3 table in which half a gigabyte is free from end to end, and the call that is refused it |
| Refusals.RefusedHeap | kernel/rust/src/memory/paging/allocators/firstfit.rs:120-130 | 511 GiB and one page under the user-heap strategies: refused in an empty address space, and the invariant is broken |
| Refusals.OwnedTwice | kernel/rust/src/memory/paging/allocators/firstfit.rs:80-130 | three calls of `allocate` that begin with an empty level-2 table: the first is refused, the second reserves the first slot as a page over the sub-table left behind, the third reserves a page in that sub-table, and both allocations cover it |
| PageMapping.ForEach | kernel/rust/src/memory/paging/api.rs:607-634 | every page of the allocation shows the effect at its distance from the start, whatever the nesting, and no other address changes; only the requested flags are granted anew; the invariant and the tidiness survive exactly unless the data reads as an unused entry, and then the allocation shows as free |
| PageMapping.ActOnEntry | kernel/rust/src/memory/paging/api.rs:788-806 | writing one entry shows the effect on the whole page, or opens a sub-table for the flags without changing any view; zero data leaves an unused entry |
| PageMapping.ActInside | kernel/rust/src/memory/paging/api.rs:625-632 | the covered part of a sub-table shows the effect, and the rest of the slot is unchanged; zero data breaks the sub-table's invariant |
| Clearing.ClearDone | kernel/rust/src/memory/paging/api.rs:794-806 | once zero data is written to every page, exactly the addresses of the allocation show as free, and the invariant does not hold |
| Translation.MapsExactly | kernel/rust/src/memory/paging/api.rs:776-791 | after set_base_addr every address v of the allocation translates to base + (v - start) with exactly the requested flags if and only if the base is congruent to the start modulo the largest page; otherwise some page translates nothing or 4 KiB too low |
| Translation.WalkLevel | kernel/rust/src/memory/paging/sealed.rs:124-139 | the page walk ends at the level at which the allocation has its page |
| Splitting.FillSubtable | kernel/rust/src/memory/paging/allocators/firstfit.rs:362-374 | every entry of the new sub-table is the matching part of the huge page's entry |
| Splitting.Reading | kernel/rust/src/memory/paging/api.rs:776-791 | what a mapped address translates to is determined by the address that was written for it and the level that decides |
| Splitting.FilledExactly | kernel/rust/src/memory/paging/allocators/firstfit.rs:362-374 | each address of a page that is broken up translates to the same frame exactly if the page was aligned, or is misaligned in the same way on the level below |
| Splitting.SplitPage | kernel/rust/src/memory/paging/allocators/firstfit.rs:353-385 | breaking a page succeeds exactly for a used page on a level that has huge pages and sub-tables; absent data, flags and aligned frames are kept at every address, and a misaligned frame exactly if `KeepsFrame` holds; the table stays as tidy as it was |
| Splitting.SplitPivot | kernel/rust/src/memory/paging/api.rs:712-745 | the item around the midpoint is cut in two halves that adjoin at the midpoint, with the meaning of every address kept, and of a misaligned page the written address |
| Splitting.SplitAlloc | kernel/rust/src/memory/paging/api.rs:701-764 | for a page-aligned midpoint strictly inside: terminates, the left part covers exactly the first bytes and the right part the rest with offsets from 0, both are well-formed and backed; no address changes its flags, absent data or written address, an aligned page keeps its translation, and a page that is not broken keeps everything |
| PagingContexts.OwnedOnce | kernel/rust/src/memory/paging/allocators/firstfit.rs:191-351 | an address is occupied exactly when a live allocation owns it, and never by two |
| PagingContexts.CanonicalIs | kernel/rust/src/memory/paging/arch/x86_64.rs:160-164 | the canonical form of an address has bits 47 to 63 equal, keeps the low 48 bits, and is the only address that does both |
| PagingContexts.StartsAt | kernel/rust/src/memory/paging/api.rs:661-673 | going to table-relative form and back keeps the canonical form, and gives back a canonical address itself |
| PagingContexts.PageAllocator.constructor | kernel/rust/src/memory/paging/api.rs:443-445 | a new allocator owns nothing and shows everything free |
| PagingContexts.PageAllocator.PutGlobalTable | kernel/rust/src/memory/paging/allocators/firstfit.rs:387-399 | a free slot becomes shared with code 11 and an entry that grants exactly the given flags and GLOBAL, and no other slot or address changes |
| PagingContexts.NewContext | kernel/rust/src/memory/paging/api.rs:516-535 | a new context shares exactly the slots of the global tables, with the flags of each, and everything else is free |
| PagingContexts.PageAllocator.Allocate | kernel/rust/src/memory/paging/api.rs:656-660 | a new allocation disjoint from all live ones, all of which keep their pages and mappings, exactly when the request fits somewhere within the limits of the strategies, at the first address that does; the invariant survives exactly unless `Litters` holds before; refusal changes no view and no owner and, where the invariant survives, nothing, and in a trimmed table means that every admissible window is in use; a page is refused exactly when every admitted address is in use |
| PagingContexts.PageAllocator.AllocateAt | kernel/rust/src/memory/paging/api.rs:661-673 | the same at exactly the given address, exactly when `Granted` holds before; a refused request changes no view and no live allocation, and keeps the table trimmed or tidy exactly as `UndoSite` tells |
| PagingContexts.PageAllocator.Deallocate | kernel/rust/src/memory/paging/api.rs:767-772 | exactly the addresses of the allocation become free; the others keep their pages and mappings |
| PagingContexts.PageAllocator.SetBaseAddr | kernel/rust/src/memory/paging/api.rs:776-791 | the allocation shows the physical range with the flags exactly when the base is aligned like it: every address then translates to base plus its distance from the start, with each flag as requested and GLOBAL also if the allocator is for global pages; all other allocations keep theirs |
| PagingContexts.PageAllocator.SetAbsent | kernel/rust/src/memory/paging/api.rs:794-806 | the allocation shows the absent data everywhere, and no other address changes; the invariant survives exactly if the data is not zero in its low 63 bits, and otherwise the allocation shows as free |
| PagingContexts.PageAllocator.Split | kernel/rust/src/memory/paging/api.rs:690-700 | two live allocations in place of one: a mapped allocation gives two mapped ones, the right one from base + mid on |
| Blocks.NestedOrApart | kernel/rust/src/memory/physical.rs:49-63 | two aligned blocks do not overlap, or the smaller lies in the larger |
| Blocks.BuddiesAreHalves | kernel/rust/src/memory/physical.rs:57-63 | aligned blocks with the same parent are its lower and upper half |
| Blocks.SplitBlock | kernel/rust/src/memory/physical.rs:66-84 | halving a block keeps alignment, disjointness, the covered addresses and the total |
| Blocks.JoinBlocks | kernel/rust/src/memory/physical.rs:88-112 | joining two halves keeps alignment, disjointness, the covered addresses and the total |
| Blocks.CoverIsBlock | kernel/rust/src/memory/physical.rs:286-292 | coalesced blocks that cover an aligned block, none of them larger, are that block |
| FreeLists.Position | kernel/rust/src/memory/physical.rs:97-98 | the first index of a value, or that it is absent |
| FreeLists.RemovedBoth | kernel/rust/src/memory/physical.rs:99-102 | removing the later of two elements first removes exactly those two |
| RangeCutting.PiecesCoalesced | kernel/rust/src/memory/physical.rs:115-146 | the blocks of one added range contain no two buddies |
| BuddyAllocators.NotWhole | kernel/rust/src/memory/physical.rs:286-292 | coalesced free lists never cover a whole block of order MAX_ORDER |
| BuddyAllocators.BuddyAllocator.constructor | kernel/rust/src/memory/physical.rs:148-156 | an allocator without memory |
| BuddyAllocators.BuddyAllocator.Split | kernel/rust/src/memory/physical.rs:66-84 | the block is replaced by its halves in the free lists, and the partition is kept |
| BuddyAllocators.BuddyAllocator.Merge | kernel/rust/src/memory/physical.rs:88-112 | replaces two free buddies by their parent and otherwise changes nothing; stops with an index error exactly when both are free and the parent has order MAX_ORDER |
| BuddyAllocators.BuddyAllocator.AddBlocks | kernel/rust/src/memory/physical.rs:115-146 | terminates; adds disjoint aligned blocks inside the range, as large as the range permits, that hold exactly the aligned chunks of 2 MIN_SIZE inside it; amount_free grows by their total; stops with an index error exactly when the range holds a whole block of order MAX_ORDER |
| BuddyAllocators.BuddyAllocator.AddMemory | kernel/rust/src/memory/physical.rs:115-146 | the managed memory grows by exactly those chunks, and the partition and the counters are kept; stops with an index error exactly when the range holds a whole block of order MAX_ORDER |
| BuddyAllocators.BuddyAllocator.ReqBlock | kernel/rust/src/memory/physical.rs:266-276 | a free block of the order unless every list from that order up is empty, without a split if there is one; the only buddies that its splits leave free are those of the block itself |
| BuddyAllocators.BuddyAllocator.Palloc | kernel/rust/src/memory/physical.rs:237-262 | a block of the smallest sufficient order becomes live; fails exactly when every list of a sufficient order is empty; partition, counters and maximal merging are kept |
| BuddyAllocators.BuddyAllocator.MergeUp | kernel/rust/src/memory/physical.rs:286-292 | merges until no two buddies are free, keeping the partition; stops with an index error exactly when the sibling of the block on every order up to MAX_ORDER is free, which in lists that are coalesced apart from the block is when a whole block of that order is |
| BuddyAllocators.BuddyAllocator.Release | kernel/rust/src/memory/physical.rs:279-297 | the block becomes free; partition, counters and maximal merging are kept; stops with an index error exactly when its sibling on every order up to MAX_ORDER is free; with coalesced lists that is when it completes a free block of that order, and it never happens while the memory holds none |
| BuddyAllocators.HalvesMeet | kernel/rust/src/memory/physical.rs:88-112 | two halves of a block of order MAX_ORDER are added separately and one is handed out, and its return stops with an index error |
| DescriptorSlots.StepKeeps | kernel/rust/src/descriptors.rs:57-281 | every atomic step keeps rc_a and rc_b equal to the handles and attempts they stand for, and both slots filled exactly as long as they may be read |
| DescriptorSlots.HandleReads | kernel/rust/src/descriptors.rs:201-253 | a handle finds slot A filled, a B-handle also slot B, and the slot has the handle's id |
| DescriptorSlots.CommittedIsRead | kernel/rust/src/descriptors.rs:97-253 | in every run, until the slot is reserved again, every handle finds the value that commit was given for slot A, every B-handle that for slot B, and the id for which the slot was reserved |
| DescriptorSlots.ReadWasPut | kernel/rust/src/descriptors.rs:97-182 | and there is never a value in a slot that was not put there since the slot was last reserved |
| DescriptorSlots.AcquirableIff | kernel/rust/src/descriptors.rs:125-154 | a slot can be reserved exactly if nobody uses it; a reference can be had exactly if somebody has one or is after one, and the test for a B-handle succeeds exactly if somebody has one |
| DescriptorSlots.OnlyOwnToken | kernel/rust/src/descriptors.rs:76-281 | a thread that takes a step gets the reference it wanted, whoever drops the last B-handle has to clear slot B, and nobody else's reference is touched |
| DescriptorSlots.HandlesAreUsable | kernel/rust/src/descriptors.rs:230-281 | every handle can be copied, and a B-handle can be dropped exactly if no copy is being made from it |
| DescriptorSlots.CanBeReserved | kernel/rust/src/descriptors.rs:125-134 | an unused slot can be reserved for an id |
| DescriptorSlots.CanBeCommitted | kernel/rust/src/descriptors.rs:97-182 | a reserved slot can be committed, and the handle that this makes finds the two values |
| DescriptorSlots.CanBeFreed | kernel/rust/src/descriptors.rs:57-281 | from every reachable state the threads that are there can go on, without anybody new, until all references are given back and the slot is free |
| DescriptorSlots.DropsAreSafe | kernel/rust/src/descriptors.rs:57-94 | slot A is dropped only when nobody has or is after a reference, slot B only when no B-handle exists or can appear, and each at most once per generation |
| DescriptorSlots.FreedIsEmpty | kernel/rust/src/descriptors.rs:57-66 | a free slot has dropped both values exactly as often as they were put in |
| DescriptorSlots.RoomIsNeeded | kernel/rust/src/descriptors.rs:136-154 | one more reference keeps the invariant exactly when rc_a does not reach 2^16; otherwise it wraps to 0 with handles around |
| DescriptorSlots.RunKeeps | kernel/rust/src/descriptors.rs:57-281 | the invariant holds in every state of every interleaving |
| DescriptorSlots.IdStable | kernel/rust/src/descriptors.rs:125-134 | while a handle is held its slot keeps the id it was acquired for |
| DescriptorTrees.TreeStepKeeps | kernel/rust/src/descriptors.rs:317-414 | every step keeps: an id is claimed by at most one slot, on the path of its base-M digits; searches and allocations follow that path; a search has not gone past an id that was there when it began |
| DescriptorTrees.NotFoundIsGone | kernel/rust/src/descriptors.rs:375-386 | a search that fails for an id that was stored when it began means that the slot was given to another descriptor since |
| DescriptorTrees.FoundIsThere | kernel/rust/src/descriptors.rs:375-386 | a search that succeeds has found the one slot of the id |
| DescriptorTrees.OneSlotPerId | kernel/rust/src/descriptors.rs:317-320 | no id is stored in two slots |
| DescriptorTrees.TreeRunKeeps | kernel/rust/src/descriptors.rs:317-414 | the invariant holds in every state of every interleaving |
| DescriptorTrees.AcquiredKeepsId | kernel/rust/src/descriptors.rs:388-398 | a handle that passed the check of its id refers to that id until it is dropped, and finds the same value in slot A all the while |
| DescriptorTrees.SlotRuns | kernel/rust/src/descriptors.rs:317-414 | whatever happens in the tree, every slot goes through a run of its own |
| DescriptorTrees.AcquiredReads | kernel/rust/src/descriptors.rs:388-398 | a handle anywhere in the tree finds the values that its slot was committed with, as long as the slot is not reserved anew |
| DescriptorTrees.AllocEnds | kernel/rust/src/descriptors.rs:400-414 | left to itself, an allocation comes to a free slot on the path of its id |
| DescriptorTrees.SearchEnds | kernel/rust/src/descriptors.rs:375-386 | left to itself, a search comes to an end, and has found the slot if the id is still where it was |
| DescriptorTrees.AnyoneMayBegin | kernel/rust/src/descriptors.rs:317-414 | allocating can always begin, with an id that no slot claims, and so can searching; whatever can be done with a slot can be done with it in the tree |
| RwLocks.StepKeeps | kernel/rust/src/sync/baselocks.rs:73-177 | every step keeps the word equal to readers + UPGRADER * upgraders + WRITER * writers, including attempts that back out, and keeps exclusion |
| RwLocks.MutualExclusion | kernel/rust/src/sync/baselocks.rs:73-177 | in every interleaving: no reader or upgrader beside a writer, no two writers, no two upgradable holders |
| RwLocks.ReadersRemaining | kernel/rust/src/sync/baselocks.rs:101-114 | the reader count passed on by an unlocking or failing reader does not underflow and is the number of readers that remain |
| RwLocks.Granted | kernel/rust/src/sync/baselocks.rs:101-166 | which attempts succeed: readers and upgraders exactly without writer and upgraders, writers only alone |
| RwLocks.TakenIff | kernel/rust/src/sync/baselocks.rs:101-177 | the word decides as its users would: exclusive access can be had exactly if nobody holds, tries for or backs out of anything, an upgrade exactly by the only upgrader with no reader around, and every other step by exactly the threads entitled to it |
| RwLocks.MovesOne | kernel/rust/src/sync/baselocks.rs:101-177 | every step takes its thread where it should be, to the failing side exactly if there is a writer or an upgrader, and moves nobody else |
| RwLocks.BoundIsNeeded | kernel/rust/src/sync/baselocks.rs:101-114 | with 2^40 readers the count would underflow |
| RwLocks.RunKeeps | kernel/rust/src/sync/baselocks.rs:73-177 | the invariant holds in every state of every interleaving |
| WaitQueues.StepKeeps | kernel/rust/src/sync/queue.rs:12-38 | every step keeps: while a getter is parked, queued items are at most pending notifications plus awake getters; items leave in the order they came |
| WaitQueues.NotStrandedKept | kernel/rust/src/sync/waitlist.rs:34-75 | checking under the list's lock and notifying under the same lock never strands an item |
| WaitQueues.Quiet | kernel/rust/src/sync/queue.rs:12-38 | with nobody left to notify or to look, a parked getter means an empty queue |
| WaitQueues.RunKeeps | kernel/rust/src/sync/queue.rs:12-38 | the invariant holds in every state of every interleaving |
| WaitQueues.OldestFirst | kernel/rust/src/sync/queue.rs:12-38 | in every run the items taken are the items of the pushes, oldest first, one for every look that could have one, and the queue is the rest |
| WaitQueues.GetsOldest | kernel/rust/src/sync/queue.rs:12-24 | a getter that looks takes the oldest item that was pushed and not taken, or goes to wait if there is none; the look without waiting succeeds exactly if there is one |
| WaitQueues.EverybodyServed | kernel/rust/src/sync/queue.rs:12-38 | from every reachable state the threads that are there can go on by themselves until all have left or are parked, and then as many items were handed out as there were getters, or all |
| WaitQueues.AnyoneMayCome | kernel/rust/src/sync/queue.rs:12-38 | whoever is outside can begin to get or push at any time |
| Promises.RunKeeps | kernel/rust/src/sync/promise.rs:28-51 | in every interleaving the cell is filled once and results agree with it |
| Promises.NeverEmpty | kernel/rust/src/sync/promise.rs:28-36 | a reader that sees the promise complete finds a value |
| Promises.Fulfilled | kernel/rust/src/sync/promise.rs:90-157 | in every run at most one attempt to fill succeeds, every result in the run is the outcome that attempt was given, and once its thread has notified everybody no task is or becomes parked |
| Promises.FirstFills | kernel/rust/src/sync/promise.rs:38-49 | an attempt to fill succeeds exactly if none did before |
| Promises.GetterLearns | kernel/rust/src/sync/promise.rs:28-36 | a getter that looks after the outcome was stored returns the outcome that was passed in, and one that looks before is parked; a look without waiting succeeds exactly after |
| Promises.EverybodyReturns | kernel/rust/src/sync/promise.rs:90-157 | once somebody fills the promise, the threads that are there can go on by themselves until the filler is done and every getter has returned |
| Promises.AnyoneMayGet | kernel/rust/src/sync/promise.rs:90-157 | whoever is outside can begin to get at any time |
| Interruptions.NoInterruptions.Disable | kernel/rust/src/multitasking/interruptions.rs:32-63 | interrupts and yielding are off; the guard gets an index of its own |
| Interruptions.NoInterruptions.Enable | kernel/rust/src/multitasking/interruptions.rs:64-82 | guards dropped in any order: everything stays off while one lives, every other index stays valid, and the last restores what the first found |
| TlbHandshake.StepKeeps | kernel/rust/src/memory/paging/api.rs:458-494 | every step of any number of activating tasks and writers keeps the 16-bit active count equal, modulo 2^16, to the tasks and CPUs behind it, and no non-flushing writer has a loaded table, if and only if the step is not a decision on a wrapped count of a loaded table |
| TlbHandshake.HandshakeIff | kernel/rust/src/memory/paging/api.rs:458-494 | a run is free of stale TLB entries exactly if no writer decides while the table is loaded and its count has wrapped to zero |
| TlbHandshake.Handshake | kernel/rust/src/memory/paging/api.rs:549-573 | as long as fewer than 2^16 tasks and CPUs are behind a count that is read, in no interleaving is a table loaded on a CPU while a writer that decided not to flush has its lock |
| TlbHandshake.TokensBound | kernel/rust/src/memory/paging/api.rs:458-480 | every activating task and every CPU accounts for at most one of a table's active count |
| TlbHandshake.CountMayRise | kernel/rust/src/memory/paging/api.rs:483-494 | a run in which the count rises from 0 while such a writer has the lock |
| TlbHandshake.CountWraps | kernel/rust/src/memory/paging/api.rs:458-494 | a run with one loaded CPU and 2^16 - 1 waiting tasks at the end of which a non-flushing writer has the lock of the loaded table |
| TlbHandshake.TaskMoves | kernel/rust/src/memory/paging/api.rs:458-480 | an activating task can always go on, but for the lock of the table and a CPU that another task is just switching, who can; at the end the table is loaded and the lock free |
| TlbHandshake.WriterMoves | kernel/rust/src/memory/paging/api.rs:483-494 | a writer gets the lock exactly if it is free, flushes exactly if tasks and CPUs stand behind the count, but for multiples of 2^16, and can always unlock |
| Schedulers.WakeSleepers | kernel/rust/src/multitasking/scheduler.rs:244-255 | the reverse swap-remove loop appends the due sleepers to the run queue, last first, and keeps exactly the others |
| Schedulers.WokenExactly | kernel/rust/src/multitasking/scheduler.rs:244-255 | the tasks woken are exactly those whose time has come, each once |
| Schedulers.OnePlace | kernel/rust/src/multitasking/scheduler.rs:100-165 | every task that was not terminated is at exactly one place, once |
| Schedulers.Scheduler.Suspend | kernel/rust/src/multitasking/scheduler.rs:100-141 | the current task goes to the end of the queue or list that its command names, or is terminated; nothing else changes |
| Schedulers.Scheduler.PickNext | kernel/rust/src/multitasking/scheduler.rs:143-165 | the first task of the run queue is taken off it |
| Schedulers.Scheduler.Resumed | kernel/rust/src/multitasking/scheduler.rs:179-192 | the task that was taken off becomes the current one |
| Schedulers.Scheduler.Boot | kernel/rust/src/multitasking/scheduler.rs:196-222 | the boot task becomes current |
| Schedulers.Scheduler.PushTask | kernel/rust/src/multitasking/scheduler.rs:227-235 | a new task joins the end of a run queue |
| Schedulers.Scheduler.NotifyOne | kernel/rust/src/sync/waitlist.rs:55-69 | the first waiting task moves to the run queue of the CPU it came from |
| Schedulers.Scheduler.NotifyAll | kernel/rust/src/sync/waitlist.rs:71-75 | every task on the list moves to a run queue, and no other task moves |
| Schedulers.Scheduler.Tick | kernel/rust/src/multitasking/scheduler.rs:238-257 | exactly the due sleepers of the CPU move to its run queue |

## Left out

- Update in place: tables are values that the methods of `FirstFit`, `PageMapping` and `Splitting` return anew; sub-allocators are owned boxes without aliases, so nothing but the sharing of memory is lost. The allocator object itself is a class.
- Physical addresses of page tables: entries that lead to sub-tables do not store them.
- Global tables: their contents belong to other allocators and are seen as shared.
- FirstFit.Allocate: requires that the end of the search window does not run below zero on any level the request is passed down to (`Windows`); the code otherwise computes it by an underflow.
- FirstFit.AllocateAt: requires, for a range past the end of the table, that the scan of the whole slots meets an occupied one first (`ScanStops`); the code then answers None, and otherwise stops with an index error.
- PagingContexts.PageAllocator.Split: requires a page-aligned midpoint strictly inside the allocation; at other midpoints the code fails.
- Splitting.SplitPage: requires that the slot does not hold somebody else's table, which the code does not tell from a page; it is only called for pages of an allocation.
- allocate_alignedoffset, alloc_downwards, base offsets and leaking of allocations: thin arithmetic on top of the operations above.
- TLB instructions and weak memory ordering: a flush is a decision of the writer, and atomic operations are sequentially consistent.
- Widths: sizes, addresses and tick counts are unbounded; block ends beyond 2^64 and descriptor ids beyond 2^64 are not wrapped.
- Slot T of descriptors, and the dropping of whole descriptor tables: never shared in a changing way, and only at the end.
- Acknowledgements: promises without a value.
- Progress: that threads do go on, fairness of spinning and of the scheduler are not stated, only that they can go on and that no wake-up or item is lost.
- `kernel/rust/src/memory/unified.rs`, the kernel heap, device drivers, boot code, context switching, logging, the mutex wrappers and everything under `kernel/rust_old`.
