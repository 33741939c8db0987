# Verified model of the stateful core of omniNotify

omniNotify is a CORBA notification server. This project models the components of it that hold state and have a
simple specification to meet, in the form the code has (classes over arrays, chains and tables; step machines where
several threads are involved), and proves that they meet it.

* **Linear hash table** (`HashAddresses`, `LinearHash`): an array of buckets with linked chains, a split pointer, two
  masks, a directory that doubles, and a cursor. Every operation is proved to act on a finite map, through every
  split. The class keeps the chains, the node of every key and the bucket of every key as ghost state; the loop that
  rehashes a bucket in place is proved equal to a run over plain sequences (`Replay`), about which the rest is proved.
* **Event types and filters** (`Bitmaps`, `EventTypes`, `FilterTables`, `FilterLaws`, `FilterChanges`,
  `FilterHistory`, `FilterMatching`, `Filters`): the packed bitmap, domination and normalisation of event types, change
  lists, and the filter with its counted table of all types and its table of dominating types. The tables are the
  filter's of section 3.2 (CosNotifyFilter module) of the OMG Notification Service specification. A subscriber is
  modelled by what its type map has filed for the filter, with multiplicity: one entry goes for each type listed as
  removed, one comes for each listed as added. `FilterChanges` says of every batch of changes when the one notification
  about it is exact, `FilterMatching` which events are accepted, by the constraints as their callers wrote them.
* **Event fields** (`EventFields`): the name map of a structured event, built over the linear hash table above.
* **Proxy life cycle** (`ProxyProtocol`, `ProxyInvariants`, `ProxyQueue`, `ProxyRecords`, `ProxyTheorems`,
  `ProxyProgress`): the four event proxies of section 2.3 (CosEventChannelAdmin module) of the OMG Event Service
  specification with the deferred disposal of their lock entry, for any number of threads and every interleaving. One
  step is what a thread does from one lock operation to the next; acquiring the lock and what is done under it are
  separate steps, so other threads see it held. `ProxyRecords` says what every step does without the functions that
  the steps are made of.
* **Lists** (`CircularList`, `SafeList`): the circular array list with removal in the middle, and the list with the
  built-in iterator.
* **Read/write lock and worker pool** (`RWLock`, `QueuePool`): thread-step machines. `Counting` holds what they share.
* **Location index** (`LocationIndex`): the nested maps by location key that must agree with a scan.

`Wrappers`, `Sequences` and `Arithmetic` hold what several of these share.

`dafny verify dfyconfig.toml` checks everything.

## What was found on the way

* `RDI_Bitmap::set` and `clear` promise to alter nothing when the range does not fit. The guard is a 32-bit sum:
  `Bitmaps.RangeGuardMeansInside` gives exactly when it keeps the promise, `Bitmaps.WrappingRange` an input.
* `valid_sequence` turns an empty type name into a wildcard, but `dominates` reads only an empty domain as one.
  `EventTypes.NormalisedKeepsMeaning`: normalising keeps the meaning of a pattern if and only if its name is not empty.
* Removing `*::T` or `D::*` can leave types in the dominating table that another wildcard covers.
  `FilterLaws.RemoveKeepsMaximalExactly` gives the exact condition under which the table stays minimal, and
  `FilterHistory.GentleHistoryIsMaximal` the one for whole histories.
* The lists sent about removals are not always the change of the dominating table.
  - One removal can list a type as added that was dominating all the time (`FilterChanges.ListedAgain`, on a table that
    `FilterChanges.BothDominate` reaches) or list a type twice (`FilterChanges.ListedTwice`); a subscriber files it
    twice and keeps it after it is gone. Exact conditions: `FilterChanges.RemovalIsExact`, `RemovalListsNewTypes`.
  - One notification about several removals can leave a subscriber with a type that is gone
    (`FilterChanges.StaysFiled`). Exact conditions: `FilterChanges.RemovalsAreExact`, `RemovalsReach`.
  - One about a replaced constraint can do so even from a minimal table (`FilterChanges.ReplacedTooEarly`). Exact
    condition: `FilterChanges.ReplacementIsExact`, and for any deletions and replacements in one call
    `FilterHistory.ModificationTellsExactly`.
* The lock of a filter is released while subscribers are told, so two notifications can reach a subscriber the other way
  round. `Filters.SwappedDelivery` says exactly when it ends in step all the same; `Filters.SwappedLeavesStale` is an
  input for which it does not.
* `RDI_List::remove` ignores a cursor outside the list, except when one entry is left: then it removes that entry. On an
  empty list it takes the count below zero, where it wraps around (`CircularList.List.Remove`, with the inputs
  `CircularList.StaleCursorRemoves` and `CircularList.EmptyListCountWraps`).
* The loop that the header of the safe list recommends ends where it started, except that at the start of a round an
  end marker is due afterwards (`SafeList.List.VisitAll`).
* The location index drops a dead proxy under its lowest key in that map, which is the entry it met exactly if the proxy
  has no lower one (`LocationIndex.DispatchDropsTheMet`); `LocationIndex.DropsAnotherEntry` is an input.
* include/RDIOplocks.h says that the in-use count going from two to one wakes the disposer and that its going to zero
  carries out a deferred disposal. In lib/RDIOplocks.cc the end of a wait lowers the count without telling anybody, and
  a deferred disposal waits for the next allocation. The model follows the code:
  `ProxyInvariants.WaitEndsAboveOne` proves that the silent end of a wait never loses the disposer's wake-up, and a
  disposal is never deferred.

## Model

| member | source | states |
|---|---|---|
| `HashAddresses.MaskIsMod` | include/RDIHash.h:372-378 | masking a hash value with size minus one is the remainder by the size, for every power of two |
| `HashAddresses.AddressInRange` | include/RDIHash.h:372-378 | every hash value has an address inside the directory, and below the split frontier once it has doubled |
| `HashAddresses.AddressAfterSplit` | include/RDIHash.h:448-478 | advancing the split pointer moves only values of the split bucket, and those only to the bucket one old size further |
| `HashAddresses.AddressAfterDoubling` | include/RDIHash.h:421-445 | doubling the directory changes no address |
| `HashAddresses.AddressAfterWrap` | include/RDIHash.h:412-417 | wrapping the split pointer around changes no address |
| `LinearHash.MoveKeepsIndexed` | include/RDIHash.h:461-471 | moving a node between buckets keeps every stored node in exactly one bucket |
| `LinearHash.ReplayIsSafe` | include/RDIHash.h:452-473 | every move of a rehash takes a node that is linked nowhere else to an existing bucket |
| `LinearHash.ReplayKeepsIndexed` | include/RDIHash.h:452-473 | rehashing a bucket in place loses and duplicates no node |
| `LinearHash.ReplayRehomes` | include/RDIHash.h:452-473 | after the rehash each key of the split bucket is where it hashes to now and no other key has moved |
| `LinearHash.AllAtAfterSplit` | include/RDIHash.h:452-478 | a split keeps each key in the bucket that the address computation gives |
| `LinearHash.FindIsRight` | include/RDIHash.h:380-398 | the first node of the chain with the key is the key's node, and there is none only if the key is absent from the whole table |
| `LinearHash.HashTable.Redistribute` | include/RDIHash.h:452-473 | the in-place loop over the linked chain, counts included, does exactly what the run over sequences does |
| `LinearHash.HashTable.RehashBucket` | include/RDIHash.h:448-473 | the linked directory stays exact and only the keys of one bucket are sent to their new hash |
| `LinearHash.HashTable.Grow` | include/RDIHash.h:419-446 | the directory doubles in a fresh array and every stored node stays |
| `LinearHash.HashTable.Split` | include/RDIHash.h:399-481 | one growth step (wrap-around, or split with doubling if needed) keeps all nodes and every invariant, and moves the split state on by one |
| `LinearHash.HashTable.Find` | include/RDIHash.h:380-398 | gives the node of the key with its predecessor and bucket, or null exactly if the key is absent |
| `LinearHash.LoadIsExact` | include/RDIHash.h:372-378 | the count of a bucket is the number of stored keys whose address in the present layout it is |
| `LinearHash.HashTable.MakeRoom` | include/RDIHash.h:220-237 | the table grows by the least number of steps after which the key's bucket has room, but by at most five: the bucket was full before each step, and sizes, split pointer and split counter are those after that many steps |
| `LinearHash.HashTable.Insert` | include/RDIHash.h:207-251 | fails exactly on a present key and then changes nothing; otherwise makes room in that way, adds the pair and nothing else, and exceeds the bucket capacity only after five steps |
| `LinearHash.HashTable.Lookup` | include/RDIHash.h:253-264 | true and the value exactly if the key is in the map |
| `LinearHash.HashTable.Exists` | include/RDIHash.h:266-275 | true exactly if the key is in the map |
| `LinearHash.HashTable.Replace` | include/RDIHash.h:277-285 | overwrites the value of a present key and otherwise changes nothing |
| `LinearHash.HashTable.Remove` | include/RDIHash.h:287-302 | removes the key from the map and nothing else |
| `LinearHash.HashTable.Clear` | include/RDIHash.h:304-319 | the map is empty, the directory keeps its size, the split pointer is back at zero |
| `LinearHash.HashTable.Length` | include/RDIHash.h:138-138 | the pair counter is the number of pairs |
| `LinearHash.HashTable.constructor` | include/RDIHash.h:184-206 | an empty map over the least power of two that is at least the wanted size |
| `LinearHash.PerformAll` | include/RDIHash.h:207-319 | over every sequence of insert, replace, remove and clear the table behaves as a finite map |
| `LinearHash.RestIsExact` | include/RDIHash.h:336-370 | the order in which a cursor meets the nodes contains the node of each key exactly once |
| `LinearHash.Cursor.Advance` | include/RDIHash.h:350-370 | moves on by exactly one node, over any run of empty buckets, and stays invalid at the end |
| `LinearHash.Walk` | include/RDIHash.h:51-64 | the documented loop visits the nodes in cursor order and then ends |
| `LinearHash.Enumerate` | include/RDIHash.h:85-94 | every pair of the table is met exactly once, then the cursor is invalid |
| `EventFields.HeaderStep` | include/RDIEvent.h:651-665 | recording one more header entry keeps the map equal to a scan: the first entry of a name counts |
| `EventFields.DataStep` | include/RDIEvent.h:667-689 | recording one more data entry keeps the map equal to a scan: the last entry counts, the header pointer stays |
| `EventFields.StructuredEvent.InitVmap` | include/RDIEvent.h:633-689 | the table built over the linear hash table records, for every name, its first header and last data entry; it is built once |
| `EventFields.StructuredEvent.LookupRtval` | include/RDIEvent.h:876-885 | the first header entry with the name if there is one, otherwise the last data entry with it, otherwise nothing |
| `EventFields.StructuredEvent.LookupVahdrRtval` | include/RDIEvent.h:854-863 | the first header entry with the name, or nothing |
| `EventFields.StructuredEvent.LookupFdataRtval` | include/RDIEvent.h:865-874 | the last data entry with the name, or nothing |
| `EventFields.OccurrencesAreDecided` | include/RDIEvent.h:876-885 | a name that occurs has a first and a last entry, so the lookups leave no name undecided |
| `Bitmaps.RangeGuardMeansInside` | include/RDIBitmap.h:139-153 | the unsigned guard means "the range fits" exactly if the sum does not wrap around onto the bitmap |
| `Bitmaps.BitAfterSet` | include/RDIBitmap.h:143-143 | setting a bit of a byte changes that bit only |
| `Bitmaps.BitAfterClear` | include/RDIBitmap.h:151-151 | clearing a bit of a byte changes that bit only |
| `Bitmaps.NextCell` | include/RDIBitmap.h:163-166 | shifting the mask, with the step to the next byte, follows the bit offset |
| `Bitmaps.CountTrueIsZero` | include/RDIBitmap.h:187-201 | the count of set bits is zero exactly if no bit is set |
| `Bitmaps.CountTrueIsSize` | include/RDIBitmap.h:187-201 | counting position by position gives the number of positions with the flag set |
| `Bitmaps.Bitmap.SetRange` | include/RDIBitmap.h:139-145 | exactly the bits of a range that fits are set, and none otherwise, for every range whose end does not wrap around onto the bitmap |
| `Bitmaps.Bitmap.ClearRange` | include/RDIBitmap.h:147-153 | exactly the bits of a range that fits are cleared, and none otherwise, for every range whose end does not wrap around onto the bitmap |
| `Bitmaps.Bitmap.IsSet` | include/RDIBitmap.h:127-131 | true exactly for a set bit inside the bitmap |
| `Bitmaps.Bitmap.IsClear` | include/RDIBitmap.h:133-137 | true exactly for a clear bit inside the bitmap |
| `Bitmaps.Bitmap.FirstSet` | include/RDIBitmap.h:155-169 | the first set bit from the offset on, or -1 if there is none |
| `Bitmaps.Bitmap.FirstClear` | include/RDIBitmap.h:171-185 | the first clear bit from the offset on, or -1 if there is none |
| `Bitmaps.Bitmap.NumSet` | include/RDIBitmap.h:187-201 | the number of positions whose flag is set |
| `Bitmaps.Bitmap.Assign` | include/RDIBitmap.h:100-113 | the target gets the flags of the source, in its own or a fresh buffer |
| `EventTypes.DominatesIsCovers` | include/RDIEvent.h:145-160 | on normalised types domination is covering part by part |
| `EventTypes.DominatesIsPartialOrder` | include/RDIEvent.h:145-160 | domination is reflexive, and antisymmetric and transitive on normalised types |
| `EventTypes.CoversByKeys` | include/RDITypeMap.h:60-66 | a type covers another exactly if it is one of its four keys |
| `EventTypes.NormalisedKeepsMeaning` | include/RDIEvent.h:277-308 | normalising keeps which events a pattern dominates exactly if its type name is not empty |
| `EventTypes.NormalisedIsTheIdentityOnNormal` | include/RDIEvent.h:277-308 | normalised patterns are exactly those that normalising leaves alone |
| `EventTypes.NormalisedExactly` | include/RDIEvent.h:277-308 | a pattern is refused exactly for a '*' inside a longer part or for "%ALL" below a domain of its own; otherwise empty parts and "%ALL" become wildcards and nothing else changes |
| `EventTypes.ValidSequence` | include/RDIEvent.h:277-308 | normalises in place up to the first invalid pattern, which it reports and leaves with its empty parts filled in |
| `EventTypes.UpdatedByDifference` | include/RDIEvent.h:162-264 | applying a change list agrees with applying the difference computed from it |
| `EventTypes.UpdatedMembers` | include/RDIEvent.h:215-264 | the members after an update are the originals not deleted and the additions |
| `EventTypes.WithoutDistributes` | include/RDIEvent.h:162-264 | leaving out the members of a list works element by element, so order and repetitions stay |
| `EventTypes.ComputeDiff` | include/RDIEvent.h:162-213 | the two lists are the additions not present and the originals deleted and not added, in order |
| `EventTypes.Compact` | include/RDIEvent.h:246-255 | the in-place compaction leaves the unmarked entries in order |
| `EventTypes.Update` | include/RDIEvent.h:215-264 | the original minus (deleted minus added), in order, followed by the additions not present |
| `FilterTables.AddTypesKeepsInv` | lib/Filter_i.cc:978-1050 | adding types keeps the dominating table a subset of the types in use that covers them all, with `*::*` alone when present |
| `FilterTables.RemoveTypesKeepsInv` | lib/Filter_i.cc:1054-1157 | so does removing a constraint's types, through all three re-promotion branches |
| `FilterTables.LostDominatorsExactly` | lib/Filter_i.cc:1083-1107 | the list of lost dominating types names each of them exactly once |
| `FilterTables.RemoveStarStarKeepsInv` | lib/Filter_i.cc:1112-1133 | when `*::*` goes the table becomes all wildcards and the concrete types none of them covers |
| `FilterTables.RemoveOrdinaryCovers` | lib/Filter_i.cc:1134-1154 | when other wildcards go every type in use is still covered |
| `FilterLaws.AddTypesKeepsMaximal` | lib/Filter_i.cc:1007-1044 | additions keep the dominating table exactly the set of maximal types in use |
| `FilterLaws.RemoveKeepsMaximalExactly` | lib/Filter_i.cc:1083-1157 | a removal keeps it so if and only if `*::*` was in use or no concrete type is left under just one of two former wildcards |
| `FilterLaws.RemoveKeepsMaximalButStarStar` | lib/Filter_i.cc:1112-1133 | in particular if `*::*` is the only wildcard that leaves the dominating table |
| `FilterLaws.PromotedOrdinary` | lib/Filter_i.cc:1134-1154 | a removal lists a concrete type that stays in use as added once for each lost wildcard that covered it, and no other wildcard |
| `FilterLaws.PromotedAtStarStar` | lib/Filter_i.cc:1112-1133 | when `*::*` goes, each wildcard and each type without one over it is listed once |
| `FilterChanges.AdditionsAreExact` | lib/Filter_i.cc:290-366 | after any batch of additions a subscriber that had each type of the old dominating table filed once has exactly the new one filed |
| `FilterChanges.ChangesAreExact` | lib/Filter_i.cc:728-754 | one notification about any additions and removals is exact if and only if every type it lists as added ends as it began, where it is also listed as removed, and otherwise was not dominating and is listed once |
| `FilterChanges.RemovalListsNewTypes` | lib/Filter_i.cc:1083-1157 | one removal lists just the types new in the dominating table if and only if no dominating type that stays in use is covered by another one that loses its last use |
| `FilterChanges.RemovalIsExact` | lib/Filter_i.cc:1083-1157 | the notification about one removal is exact, multiplicity included, if and only if no type that stays in use is also covered by two dominating types of which one is lost and the other is lost or the type itself |
| `FilterChanges.ListedTwice` | lib/Filter_i.cc:1134-1154 | an input: losing `*::T` and `D::*` in one removal lists `D::T` twice |
| `FilterChanges.ListedAgain` | lib/Filter_i.cc:1134-1154 | an input: losing `*::T` lists `D::T` as added although it was dominating |
| `FilterChanges.AddedConcrete` | lib/Filter_i.cc:1083-1157 | how often any number of removals list a type that stays in use: once for each lost wildcard over it that `*::*` did not hide, and once if `*::*` left it uncovered |
| `FilterChanges.RelistedExactly` | lib/Filter_i.cc:1083-1157 | removals list a dominating type as added if and only if it outlives another dominating type that covers it |
| `FilterChanges.RemovalsAreExact` | lib/Filter_i.cc:527-552 | the one notification about any number of removals is exact if and only if no dominating type outlives another one that covers it and no type that stays has lost both wildcards since `*::*` was gone |
| `FilterChanges.RemovalsReach` | lib/Filter_i.cc:728-754 | whatever the multiplicity, the right types are told if and only if no dominating type that is gone in the end outlives another one that covers it |
| `FilterChanges.RemovalsFromMinimal` | lib/Filter_i.cc:527-552 | from a minimal table the right types are always told, and each once unless a type that stays has lost both wildcards |
| `FilterChanges.StaysFiled` | lib/Filter_i.cc:728-754 | an input: a history from the empty table after which two removals leave a subscriber with a type of an empty table |
| `FilterChanges.AddedExactly` | lib/Filter_i.cc:1004-1045 | an addition lists exactly the new types that come before any that covers them and are covered by nothing in use |
| `FilterChanges.StaysExactly` | lib/Filter_i.cc:1013-1045 | a type that is or becomes dominating stays so through an addition exactly if no other new type covers it |
| `FilterChanges.ReplacementIsExact` | lib/Filter_i.cc:424-446 | the notification about one replaced constraint is exact if and only if no crowded type stays in use unhidden by the new types and no lost type is listed again before a new type that covers it |
| `FilterChanges.ReplacedTooEarly` | lib/Filter_i.cc:424-446 | an input: replacing `D::T` by `D::T`, `*::T` leaves a subscriber with `D::T` while the table is `*::T` alone |
| `FilterChanges.CourseIsExact` | lib/Filter_i.cc:978-1157 | what becomes of one type over any additions and removals, and how it is listed, can be told from whether it was dominating, the uses and the types that enter and leave |
| `FilterChanges.CoursesDecide` | lib/Filter_i.cc:728-754 | one notification about them is exact if and only if no type takes a course that misleads |
| `FilterHistory.EveryHistoryIsWellFormed` | lib/Filter_i.cc:290-455 | after any history of additions, modifications and removals: covering tables, counts equal to occurrences, unique ids below the counter, constraints aligned with implementations |
| `FilterHistory.RemoveEverythingEmpties` | lib/Filter_i.cc:527-552 | removing all constraints empties both lists and both tables |
| `FilterHistory.StepChanges` | lib/Filter_i.cc:290-552 | every operation moves the tables by the types of its constraints entering and leaving one after the other |
| `FilterHistory.GentleHistoryIsMaximal` | lib/Filter_i.cc:1007-1157 | over any history, removals of everything and replacements included, the dominating table is the set of maximal types after every single change if and only if every removal is gentle; in particular if `*::*` is the only wildcard that any removal takes out of the dominating table |
| `FilterHistory.RemoveEverythingTellsExactly` | lib/Filter_i.cc:527-552 | removing all constraints is told exactly if and only if no dominating type outlives another one that covers it |
| `FilterHistory.DeletionsTellExactly` | lib/Filter_i.cc:419-422 | when the deletions of one call are told exactly, for any number of ids |
| `FilterHistory.ReplacementTellsExactly` | lib/Filter_i.cc:424-446 | when the replacement of one constraint is told exactly |
| `FilterHistory.ModificationTellsExactly` | lib/Filter_i.cc:369-454 | when any deletions and replacements in one call are told exactly, by a condition that can be checked before the call |
| `FilterHistory.RemoveAtCounts` | lib/Filter_i.cc:1083-1099 | a removal with swap-with-last keeps the counts equal to the occurrences |
| `FilterHistory.RemovedTypesAreInUse` | lib/Filter_i.cc:1083-1099 | the removal of a constraint finds every type it looks up |
| `FilterHistory.RemoveIdLeaves` | lib/Filter_i.cc:1159-1187 | after a removal exactly the other ids are left |
| `FilterHistory.RemoveIdsMembers` | lib/Filter_i.cc:419-422 | deleting any number of ids leaves every other constraint as it was, and none of those |
| `FilterHistory.ReplaceAllMembers` | lib/Filter_i.cc:424-446 | replacing leaves every constraint that is not named as it was, and stores the new ones under the ids named |
| `FilterHistory.AddAllAppends` | lib/Filter_i.cc:335-357 | adding leaves the stored constraints as they were and puts the new ones behind them under consecutive fresh ids |
| `FilterMatching.CompiledDecides` | lib/Filter_i.cc:51-72 | the stored implementation of a constraint holds of an event exactly if its text is "true" in any case of letters or evaluates to true |
| `FilterMatching.CreatedExactly` | lib/Filter_i.cc:51-72 | an implementation is made exactly for an expression that is "true" in any case of letters or parses |
| `FilterMatching.StoredMatches` | lib/Filter_i.cc:338-342 | a stored constraint has the types and text of its caller, `*::*` in place of no types, and matches the same events |
| `FilterMatching.AdditionAccepts` | lib/Filter_i.cc:290-366 | after an addition an event is accepted exactly if a new constraint matches it, or an old one does, or there is neither an old nor a new one |
| `FilterMatching.ModificationMembers` | lib/Filter_i.cc:369-454 | after a modification the constraints are those neither deleted nor replaced, as they were, and the replacements |
| `FilterMatching.ModificationAccepts` | lib/Filter_i.cc:369-454 | after a modification an event is accepted exactly if a constraint that stays or a replacement matches it, or there is neither |
| `FilterMatching.HistoryIsKept` | lib/Filter_i.cc:290-552 | after any history the constraint list, with its removals by swapping, stores a finite map from ids to constraints as their callers wrote them, to which additions, modifications and the removal of everything do what their names say, or nothing if an id is unknown or an expression malformed |
| `FilterMatching.HistoryDecides` | lib/Filter_i.cc:290-955 | after any history an event is accepted exactly if some constraint of that map matches it, or the map is empty |
| `Filters.AcceptedEventsHitTheIndex` | lib/Filter_i.cc:844-955 | an event that a filter with constraints accepts has a type under one of the four keys in the dominating table |
| `Filters.FourKeysDecideDomination` | include/RDITypeMap.h:60-66 | looking up four keys is the same as testing domination against the whole table, and against all types in use |
| `Filters.MirrorsExactly` | lib/Filter_i.cc:728-754 | cancelling the common entries and filing the rest brings a subscriber from one table to another if and only if the two lists are exact for that change |
| `Filters.Filter.EventIsDominated` | lib/Filter_i.cc:1193-1202 | true exactly if some dominating type covers the type |
| `Filters.Filter.UpdateEvTables` | lib/Filter_i.cc:977-1050 | the loop over a constraint's types moves both tables and both lists as the model says |
| `Filters.Filter.NotifySubscribers` | lib/Filter_i.cc:709-788 | tells every interested subscriber, and nobody else, the lists without their common entries; each one that had the old table filed has the new one filed if and only if the lists are exact |
| `Filters.SwappedDelivery` | lib/Filter_i.cc:773-787 | if the second of two notifications overtakes the first while the lock is released, a subscriber ends in step if and only if the second removes nothing the first adds and adds back only what the first removes as often as it was filed |
| `Filters.Filter.Refile` | lib/RDITypeMap.cc:101-173 | a subscriber's type map drops one filed entry for each removed type and files one for each added type |
| `Filters.Filter.AddConstraints` | lib/Filter_i.cc:290-366 | all or nothing: done exactly if every expression is "true" in any case of letters or parses, otherwise the first that is not is reported and nothing changes; the listed constraints are stored behind the others, as written, under fresh consecutive ids, and the filter accepts every event that a new constraint or, if there were any, the old ones accept; the subscribers stay, and each one in step stays in step |
| `Filters.Filter.RemoveConstraint` | lib/Filter_i.cc:1053-1189 | removes one constraint from both lists, the last one taking its place, and its types from both tables, recording the change |
| `Filters.Filter.PromoteAfterStarStar` | lib/Filter_i.cc:1112-1133 | enters all wildcards and then the concrete types none of them covers |
| `Filters.Filter.PromoteUnder` | lib/Filter_i.cc:1134-1154 | enters every type under the lost wildcard |
| `Filters.Filter.ModifyConstraints` | lib/Filter_i.cc:369-454 | nothing changes unless every id exists and every expression is well written, and the first fault is reported; otherwise the constraints that are neither deleted nor replaced, and the replacements, decide which events are accepted; the subscribers stay, and each one in step stays in step if and only if the modification is told exactly |
| `Filters.Filter.RemoveAllConstraints` | lib/Filter_i.cc:527-552 | both lists and both tables are empty; the subscribers stay, and each one in step stays in step if and only if the removal is told exactly |
| `Filters.Filter.AttachCallback` | lib/Filter_i.cc:607-648 | a new subscriber gets the next id, which is not zero and not in use, and, if it wants to be told, files each dominating type once; the others are as they were |
| `Filters.Filter.FadminRemoval` | lib/Filter_i.cc:671-706 | a callback with a nonzero id is forgotten; a holder, if there is one, is told to drop each dominating type once, and ends empty if it was in step |
| `Filters.PerformAll` | lib/Filter_i.cc:290-706 | over any history of operations and of attaching and departing subscribers the filter object does what the model does; whoever was in step or has been attached since follows the table as long as the operations since are told exactly, and ends empty on departure |
| `Filters.AttachedFollows` | lib/Filter_i.cc:607-788 | a subscriber attached at any point follows the table to the end of every history that is exact from there on, whatever happened to the others |
| `Filters.Filter.RdiMatch` | lib/Filter_i.cc:844-955 | true exactly if there is no constraint or some constraint, by its own text, has a type that dominates the event's and is "true" or evaluates to true |
| `Filters.MatchAfter` | lib/Filter_i.cc:290-955 | a new filter object, any history of calls, subscribers coming and going included, then an event: it is accepted if and only if some constraint live by then matches it as its caller wrote it, or none is live |
| `ProxyInvariants.StepMoves` | include/RDIOplocksMacros.h:530-613 | a step moves the place of one thread, the lock and the count (one for a bump, one for a wait) together; other threads are at most woken, and all waiting disposers are when a bump ends with the count falling from two to one |
| `ProxyInvariants.KeepsCount` | lib/RDIOplocks.cc:77-88 | the in-use count is the number of threads that bumped it plus the number of those inside a wait |
| `ProxyInvariants.WaitEndsAboveOne` | lib/RDIOplocks.cc:77-88 | the end of a wait, which tells nobody, never takes the count down to one behind a waiting disposer |
| `ProxyInvariants.StepProceeds` | lib/CosEventProxy.cc:722-1005 | what a step may do to its own thread: only one thread starts disposing, nobody releases the lock of a disconnected proxy while bumped except the disposer |
| `ProxyInvariants.CleanIsAlone` | lib/CosEventProxy.cc:976-1005 | when the disposer clears the proxy, the count is one and every other thread is outside |
| `ProxyInvariants.KeepsAlone` | lib/CosEventProxy.cc:984-998 | once the disposer has seen a count of one, every other bumped thread holds the lock, for ever |
| `ProxyInvariants.KeepsWait` | lib/RDIOplocks.cc:226-238 | nobody sleeps on the wait variable while the disposer waits, and an unwoken disposer waits for at least one other thread |
| `ProxyInvariants.DisposedIsFinal` | include/RDIOplocks.h:84-92 | no action has any effect on a disposed proxy |
| `ProxyInvariants.StepIsSafe` | include/RDIOplocks.h:50-60 | every step keeps the whole lock and disposal invariant |
| `ProxyQueue.StepBalances` | lib/CosEventProxy.cc:703-913 | a step keeps the references beyond the queue equal to the event its thread carries |
| `ProxyQueue.KeepsFifo` | lib/CosEventProxy.cc:703-1018 | a step keeps taken events and queue together equal to the accepted events, until a clear, and never takes back a taken event |
| `ProxyQueue.KeepsStrand` | lib/CosEventProxy.cc:1071-1105 | a step keeps at least as many woken takers as queued events while a thread sleeps for events |
| `ProxyRecords.StepDoes` | lib/CosEventProxy.cc:260-1169 | every action of every thread, told by the places and the state it meets: where the thread goes, which sleepers and which waiting disposer it wakes, and what becomes of the queue |
| `ProxyRecords.RunRecords` | lib/CosEventProxy.cc:703-1169 | over every run the history of the queue is what happened: the events that came to the connected proxy, those that were taken out, and whether a push failed or the proxy was disposed of |
| `ProxyTheorems.DisposalIsClean` | lib/CosEventProxy.cc:976-1005 | the step that disposes is taken by a thread alone in the proxy, under the lock, and takes the count from one to zero |
| `ProxyTheorems.LifeCycle` | lib/CosEventProxy.cc:676-1005 | the connection state changes exactly by connecting a fresh proxy, by a failed outcall of a connected one, and by the first disposal, which a cleanup does not force on a connected proxy |
| `ProxyTheorems.DisposedAtMostOnce` | lib/RDIOplocks.cc:446-494 | in every run: at most one disposal, never deferred; afterwards nobody is in the proxy and it holds no event and no reference; until then a disconnected proxy has a disposer at work |
| `ProxyTheorems.ReacquireNeverFails` | lib/CosEventProxy.cc:791-793 | in every run no thread meets the fatal reacquire error |
| `ProxyTheorems.CountIsOneWhenFree` | lib/CosEventProxy.cc:984-998 | in every run, once the disposer has seen a count of one, the count is one whenever the lock is free |
| `ProxyTheorems.WaitingDisposerIsNotStuck` | lib/CosEventProxy.cc:987-990 | in every run, while the disposer waits nobody sleeps on the wait variable, and an unwoken disposer has another thread in the proxy to wait for |
| `ProxyTheorems.QueueIsExact` | lib/CosEventProxy.cc:703-1169 | in every run the events taken out, followed by the queue, are the events that came to the connected proxy, in order, until a failed push or the disposal clears the queue; references equal queued occurrences plus pushes in flight |
| `ProxyTheorems.NoEventIsStranded` | lib/CosEventProxy.cc:1071-1105 | in every run, a queued event of a connected proxy with a sleeping taker has another taker already woken |
| `ProxyProgress.DisposalCanEnd` | lib/CosEventProxy.cc:976-1005 | from every state in which a disposal is under way the threads in the proxy can go on so that it ends |
| `ProxyProgress.DisposalCanComplete` | lib/CosEventProxy.cc:976-1005 | however a run has gone, once the proxy is disconnected it can be continued so that the proxy is disposed of |
| `ProxyProgress.EventsPass` | lib/CosEventProxy.cc:676-1169 | when nobody is in it, a fresh proxy can be connected, and a connected supplier takes an event and hands it on to a consumer that pulls or to a thread that pushes it |
| `ProxyProgress.PullCalls` | lib/CosEventProxy.cc:331-525 | when nobody is in it, the pulling thread of a connected consumer calls its supplier |
| `CircularList.List.Resize` | include/RDIList.h:292-312 | grows by the increment, or to the maximum if that is less, from any wrapped layout without changing the sequence; fails at the maximum |
| `CircularList.List.InsertHead` | include/RDIList.h:183-197 | puts the entry in front, failing exactly on a list full at its maximum |
| `CircularList.List.InsertTail` | include/RDIList.h:199-213 | puts the entry at the end, failing exactly on a list full at its maximum |
| `CircularList.List.RemoveHead` | include/RDIList.h:213-220 | removes the first entry, if any |
| `CircularList.List.RemoveTail` | include/RDIList.h:222-229 | removes the last entry, if any |
| `CircularList.List.RemoveInside` | include/RDIList.h:253-271 | shifting whichever side is shorter removes exactly the entry at the cursor |
| `CircularList.List.Remove` | include/RDIList.h:231-273 | removes exactly the entry at a cursor in the list; a cursor of another list and any other index are ignored unless a single entry is left; on an empty list the count wraps around unless the old head and tail exclude the index |
| `CircularList.List.PositionIsExact` | include/RDIList.h:231-273 | the indices in the list are those of its positions, and each holds the entry at its position |
| `CircularList.StaleCursorRemoves` | include/RDIList.h:231-273 | an input: a cursor that points at nothing removes the only entry |
| `CircularList.EmptyListCountWraps` | include/RDIList.h:231-273 | an input: a removal on a new list wraps the count around |
| `CircularList.List.Copy` | include/RDIList.h:169-177 | a copy has the same sequence |
| `CircularList.List.GetHead` | include/RDIList.h:276-282 | the first entry, or the default entry of an empty list |
| `CircularList.List.GetTail` | include/RDIList.h:284-290 | the last entry, or the default entry of an empty list |
| `CircularList.List.NextIndex` | include/RDIList.h:314-316 | steps to the next position, from the tail to the head |
| `CircularList.List.PrevIndex` | include/RDIList.h:318-320 | steps to the previous position, from the head to the tail |
| `CircularList.List.Scan` | include/RDIList.h:44-50 | a cursor stepped once per entry visits each entry once in order |
| `CircularList.List.ScanBackward` | include/RDIList.h:51-54 | a reversed cursor visits each entry once in reverse order |
| `SafeList.RoundDeliversEachOnce` | include/RDISafeList.h:114-130 | between two end markers an element continuously present is delivered as often as it is in the list, whatever is inserted and removed |
| `SafeList.InsertedJoinsRound` | include/RDISafeList.h:88-98 | an inserted element is delivered before the next end marker |
| `SafeList.DeliveriesAreExact` | include/RDISafeList.h:114-130 | within a round deliveries are exactly the pending occurrences used up |
| `SafeList.OperationsAreExact` | include/RDISafeList.h:88-180 | each operation changes the list and the delivered part as stated without rounds: an insertion appends, a removal takes out one position, and the iterator hands out the element at the end of the delivered part |
| `SafeList.FullTurn` | include/RDISafeList.h:114-130 | one call more than there are elements hands out the pending ones, one end marker and the delivered ones, from wherever it starts, and leaves the iterator where it was |
| `SafeList.List.VisitAll` | include/RDISafeList.h:49-63 | the recommended loop visits every element once; it ends where it started, except that an end marker is due if it started with nothing delivered |
| `SafeList.List.Insert` | include/RDISafeList.h:88-98 | appends to the list, and to the pending elements, even if the end marker was due |
| `SafeList.List.Remove` | include/RDISafeList.h:100-112 | removes the first occurrence on the way around from the element delivered last, if there is one: every other element stays, delivered or pending as it was |
| `SafeList.List.RemoveIdx` | include/RDISafeList.h:156-180 | takes out one position and nothing else; the iterator goes on with the element it would have delivered, or with an end marker if the last pending one went and others remain |
| `SafeList.List.IterNext` | include/RDISafeList.h:114-130 | delivers the next pending element, or an end marker if there is none |
| `SafeList.AllSeen` | include/RDISafeList.h:100-112 | a search that starts anywhere and goes once around has seen every element |
| `RWLock.LockIsSafe` | include/omnithread_thread_wrappers.h:80-117 | in every run a writer is alone, the counters are the actual holders, and no wake-up is lost |
| `RWLock.FreeLockIsTaken` | include/omnithread_thread_wrappers.h:80-92 | a woken thread gets in whenever nobody holds the lock |
| `RWLock.UnlockKeeps` | include/omnithread_thread_wrappers.h:94-104 | unlocking keeps the invariant: its single signal leaves no sleeper without a woken thread |
| `RWLock.WeakenShares` | include/omnithread_thread_wrappers.h:106-117 | the writer becomes the only reader with no other writer in between, and a sleeper, if any, is woken |
| `RWLock.WeakenKeeps` | include/omnithread_thread_wrappers.h:106-117 | weakening turns the writer into a reader with the invariant kept |
| `RWLock.StepPlaces` | include/omnithread_thread_wrappers.h:80-117 | every step told by the places of the threads alone: a reader gets in exactly if nobody writes, a writer exactly if nobody holds, each otherwise sleeps for what it asked; unlocking wakes one sleeper exactly if nobody else holds, weakening always |
| `RWLock.HoldsWhatItWants` | include/omnithread_thread_wrappers.h:80-117 | in every run a thread holds, waits for and is woken for the kind of hold it asked for, until it weakens it; two threads that hold together both want to read |
| `QueuePool.NoItemIsStranded` | include/QueueProcessor.h:50-79 | in every run semaphore plus wake-ups in transit cover each queue, so a waiting worker with items can go on |
| `QueuePool.QueueItemIsExact` | include/QueueProcessor.h:50-79 | a queued item goes to the end of its worker's queue and takes the place of the oldest one exactly if the queue is full; the worker is signalled and no other is touched |
| `QueuePool.HistoriesAreExact` | include/QueueProcessor.h:50-79 | in every run the histories are the items queued, the callbacks ended and the waits that returned, and an item was lost exactly if one came to a full queue |
| `QueuePool.NoOverflow` | include/QueueProcessor.h:61-68 | no item is lost while no worker is sent more items than its queue holds, in particular while no more than that are queued at all |
| `QueuePool.QueueIsDrained` | include/QueueProcessor.h:132-148 | from every state of every run a worker not told to stop processes its whole queue in order by its own steps |
| `QueuePool.TerminatedStops` | include/QueueProcessor.h:132-154 | from every state of every run a worker that was told to stop, or is told so now, gets there by its own steps |
| `QueuePool.SameIdInOrder` | include/QueueProcessorPool.h:90-97 | in every run without overflow the finished items of an id are a prefix of its queued items, in order |
| `QueuePool.BarrierWaitsForAll` | include/SingleThreadBarrier.h:11-54 | the waiter of a barrier initialised to the number of queued items gets through only after every item's callback has ended |
| `QueuePool.BarrierLetsThrough` | include/SingleThreadBarrier.h:36-54 | when that many callbacks have ended the waiter can pass, or a worker is just about to let it |
| `QueuePool.RoutingKeepsIds` | include/QueueProcessorPool.h:90-97 | the worker of an id gets all items of the id, in order |
| `LocationIndex.RemoveProxy` | include/TA_TypeMap.cpp:268-289 | removes a proxy from its lowest key only, and the entry with its last proxy |
| `LocationIndex.RemoveProxyOf` | include/TA_TypeMap.cpp:293-326 | the same below a domain, which goes with its last entry |
| `LocationIndex.RemoveAll` | include/TA_TypeMap.cpp:329-336 | of each dead proxy exactly the entry under its lowest key goes, and nothing else |
| `LocationIndex.RemoveAllOf` | include/TA_TypeMap.cpp:338-345 | the same below a domain; other domains are untouched |
| `LocationIndex.DispatchDropsTheMet` | include/TA_TypeMap.cpp:122-200 | a dispatch drops from a map exactly the entries of the dead proxies it met there if and only if none of them has an entry under a lower key |
| `LocationIndex.DispatchLeavesOthers` | include/TA_TypeMap.cpp:122-200 | a dispatch without a key drops nothing, and none drops anything below another domain |
| `LocationIndex.OneKeyDropsTheMet` | include/TA_TypeMap.cpp:268-289 | in particular if each proxy is under one key, as the code takes for granted |
| `LocationIndex.DropsAnotherEntry` | include/TA_TypeMap.cpp:268-289 | an input: a dead proxy registered under two keys loses the entry that was not met |
| `LocationIndex.TypeMap.TaUpdate` | include/TA_TypeMap.cpp:53-100 | the registered triples after an update are those before with the one for the first added type, without the lowest one for the first deleted type |
| `LocationIndex.TypeMap.Dispatch` | include/TA_TypeMap.cpp:122-200 | delivers to exactly the live proxies that a scan of the triples selects for the star and the domain, and drops exactly the lowest entry of each dead one met, per map |
| `LocationIndex.Registered` | include/TA_TypeMap.cpp:53-200 | a dispatch after an update calls a live proxy that was registered under the key of the event, or was just registered for the star or the domain as the first added type says |
| `LocationIndex.Unregistered` | include/TA_TypeMap.cpp:53-200 | a proxy registered under one key below a domain is no longer called once the first deleted type is that domain's, and is called as before otherwise |

## Left out

- CORBA, the ORB and POA, `Any` and `DynAny` handling, name service, logging, interactive commands, configuration:
  input, output and foreign calls.
- The constraint parser and the evaluation of expressions: functions handed to the filter; the retry counter of
  `rdi_match` is left out.
- Memory allocation is taken to succeed; counters and sizes are unbounded, except for the 32-bit sums of the bitmap
  and the wrapped tail index of an empty list that is resized. The 16-bit in-use count is not bounded.
- LinearHash.HashTable.constructor: a wanted size above half the 32-bit range, for which the doubling loop of the
  original does not end, is not modelled.
- LinearHash.HashTable.Remove: the deleted node is unlinked, not freed.
- Filters.Filter.ModifyConstraints: the ids named by one call are required to be different, which the original
  asserts and does not check.
- Filters.Filter.NotifySubscribers: the lock is released around the calls to subscribers; histories are sequential, and
  of what other callers do meanwhile only two notifications that overtake each other are modelled, on values. External
  callbacks are not modelled, nor the other filters and holders that share a type map.
- The tables of a filter are sets and maps of normalised types; the order in which their cursors run is an arbitrary
  choice at every step. That the types of a constraint are normalised is an assumption about the caller:
  lib/Filter_i.cc never calls `valid_sequence` on them.
- EventFields.StructuredEvent.InitVmap: events that wrap an `Any` build their map from its members, which is not
  part of this model; the converted value of a field is an arbitrary function of it, and the two pointers of a map
  entry are indices.
- The proxies: in place of the fields of an object the state is a value and the threads take steps on it, since their
  interleaving is the point. Pull intervals, expiry and the admin upcall are free choices; condition variables wake
  spuriously; the counters `_nevents` and the channel's statistics are left out. Calls that
  only read under the lock are left out, and the pool of lock entries: a disposal that is deferred would be carried out
  there, but none is.
- CircularList.List.Remove: the state of an empty list after its count has wrapped around is not modelled further; a
  cursor beyond the array is excluded while the list is wrapped around its end. A cursor gets its indices from the list,
  and the array never shrinks, so no cursor is beyond it.
- Bitmaps.Bitmap.SetRange: ranges whose 32-bit end wraps around onto the bitmap, which the original writes outside it.
- Bitmaps.Bitmap.ClearRange: the same ranges.
- CircularList.List.Resize: the increment is positive and the maximum is never set below the present size.
- SafeList.List.Remove: the mutex of the list is not modelled; its callers hold it.
- RWLock.LockIsSafe: only a thread that holds the lock unlocks or weakens it; a step is one critical section of the
  inner mutex.
- QueuePool.SameIdInOrder: an overflowing queue loses its oldest item; nothing is claimed about order then. A queue
  that may hold nothing is modelled as losing nothing when it is empty, where the original reads the front of an empty
  queue. `insertUnique` and `insertReplace` are left out.
- LocationIndex.TypeMap.TaUpdate: the parsing of location keys, the two forwarded type maps and the batch-push
  tables are left out.
- The proxy dispatcher's own filter decision, `TA_RDITypeMap.cpp`, the mapping filter, time conversions, string
  streams and performance monitors.
