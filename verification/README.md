# wavedb, modelled in Dafny

wavedb is a multi-tenant record store. Every record has one *anchor* id and a chain of superseded versions; a collection
derives a recency chain, a removal log, sorted lists, secondary trees and fuzzy posting trees from its anchors; clients
catch up by navigating those structures. This project models that logic and proves what it
promises. `dafny verify dfyconfig.toml` checks all of it.

## What is modelled

**Ids and instants** (`Ids`, `Minting`). The 128-bit id `[key|tenant|flag|salt]` as its fields, with packing and unpacking
proved inverse. `mint_instant` as a compare-and-swap machine over one watermark: any number of threads, any retry
schedule, any clock readings.

**Store and overlay** (`Stores`). Contents are a map; a batch validates every guard, then writes. The plan-time overlay
is a class whose reads equal reads of the store its staged writes would give.

**The version-chain protocol** (`Records`, `VersionChain`, `VersionInstants`, `VersionHistory`, `VersionAuthors`,
`LostVersions`). One type
with all its records under all tenants. Steps are `Plan`, `Commit`, `Insert`, `Retire` and `Restart`; a run is any
interleaving of them by any number of writers, at any clock readings and naming any ids. `hist` is a history variable: the
versions whose commits succeeded. Over every run, chains are intact exactly as long as no step clobbers. A behaviour is a run
whose mints clear every earlier version's instant, which one process guarantees by itself, and whose saves and removals name
existing records; there the history walk is the reverse commit order, losers write nothing, no live bytes recur and archives
are write-once.

**Catch-up of a `Unique` record** (`UniqueSync`). The forward walk as the node's loop, and a mirror that adopts answers
over repeated catch-ups of one run.

**Chains** (`Keys`, `Chains`, `ChainReads`). A chain is a list of sorted segments under a size band. Lookup by separators
or by walking back, insertion with splits, removal with merges and redistribution are methods proved against a sorted
map. Reads (tail past a cursor, floor, whole walks, offset entry) are proved independent of the segmentation.

**Collections** (`Collections`, `CollectionAgreement`, `CollectionRuns`, `CollectionWrites`, `CollectionArchives`,
`LostArchive`, `CollectionObjects`). The operations are functions
on a state of anchors and derived structures. `CollectionObjects.Collection` is the object: it edits real chains and
trees with loops, and each method is proved to perform exactly the corresponding function. Agreement and the timeline are
proved over every run of inserts, saves, removals, revivals and restarts, and so is what becomes of archives.

**Catch-up of a collection** (`CollectionSync`, `CollectionAnswers`). The node's answer is two tail scans merged and sorted;
a client that keeps a map, and a mirror that is itself a collection, converge for every run.

**Fuzzy search** (`Levenshtein`, `Grams`, `FuzzySearch`, `FuzzyComplete`). The banded two-row computation against the recurrence, the
recurrence against edit scripts, the q-gram lemma, and the search method with its counting, filtering and ranking loops.

**Side cores.** The function identity mixer (`FnIdentity`), frame reassembly (`Frames`), the two-section wire codec and
the record envelope (`LittleEndian`, `Wire`, `Envelopes`, and byte by byte in `Layouts`), and `civil_from_days` (`Calendar`).

Clocks, floors read elsewhere, thread schedules and transport chunking are parameters. Stored values are `Envelope`s in the
protocol modules; `Envelopes.ByteStoreRefines` shows that the store of their bytes behaves the same. A type's list fields,
secondary fields, gram fields and natural key are functions of the record's body carried by a `Schema`.

## Where the code differs from its documentation or falls short of a promise

- `Fuzzy::Distance(k)` is documented to degenerate to a scan when its threshold reaches zero
  (`crates/wavedb-core/src/fuzzy/mod.rs:93-94`). It does not: a record that shares no gram is never a candidate. The answer is
  exactly the in-range records sharing a gram (`FuzzySearch.RankAll`); that is every in-range record when the query has more
  than `n * k` distinct grams (`FuzzySearch.ExactWhenGramsExceed`), and exactly then when no window of the query repeats
  (`FuzzyComplete.CompleteIff`). `FuzzySearch.ShortQueryMisses` is a miss.
- The wire loses two families of values: a vector whose elements have zero stack size comes back empty
  (`Wire.UnitVectorVanishes`), and a region of 4 GiB or more wraps its 32-bit length (`Wire.FourGibibytesVanish`). Every other
  value survives: `Wire.SurvivesIff` is the exact condition, `Envelopes.MetadataRoundTrip` and `Envelopes.SplitUndoesEncode`
  the ones it gives for metadata and for records.
- `docs/wire_format.md:90` gives metadata a 26-byte stack. The code's is 27 bytes, and `Envelopes.MetadataRoundTrip` follows it.
- A save keeps the chain and lists in agreement exactly when its anchor was once inserted
  (`CollectionRuns.SaveKeepsChainsIff`), and the trees exactly when the record is living or nothing indexed changed
  (`CollectionRuns.SaveKeepsTreesIff`).
- Instants are strictly increasing below 2^64 - 1 only (`Minting.SaturationRepeatsAnInstant`). The runs of `VersionChain` and
  `Collections` assume no mint saturates.
- Archive slots and instant-keyed anchors are named by instants, and a restarted process forgets its watermark. A floor
  covers one collection only, so a clock that has fallen behind lets two collections of a type mint one instant: an insert
  then replaces a living record (`LostVersions.RewoundInsertReplacesARecord`), a save another record's archive
  (`LostVersions.RewoundSaveOverwritesAnArchive`).
- Operations take an id as the caller gives it. A removal that names an archive flags it as if it were a record
  (`LostVersions.RemovalRewritesAnArchive`); a save that names a vacant archive slot puts a record there, which a later archive
  overwrites (`LostVersions.StraySaveIsOverwritten`).
- The exact conditions for both: chains stay intact if and only if no step clobbers
  (`VersionChain.ChainsIntactIffNothingClobbered`); a slot or an anchor is in the way if and only if another record of the
  tenant has that instant (`VersionInstants.SlotTakenIff`, `VersionInstants.AnchorTakenIff`); a version's instant exceeds all
  earlier ones if and only if the clock, the floor or the watermark does (`VersionInstants.MintExceedsIffClears`). With that,
  and with saves that name existing records and removals that name anchors, nothing is clobbered (`VersionInstants.StepKeeps`);
  without a restart the clock needs nothing (`VersionInstants.OneProcessClocksHold`).
- Within one collection the floor is enough, across restarts and whatever the clocks, exactly when no save names a removed
  record (`CollectionArchives.SlotsStayFreeIff`): such a save mints an instant that neither chain nor log records, and
  `LostArchive.DeadSaveOverwritesAnArchive` is a run in which it costs another record an archive.
- `write_frame` accepts frames up to 2^32 - 1 bytes, the reader refuses past 16 MiB: what is written reads back exactly when
  every frame is within that cap (`Frames.RoundTrip`).
- A type's salt separates its ids from another's only where the two hashes differ in 15 bits, which the registry warns about
  (`crates/wavedb-core/src/expose_salt.rs`). `Ids.ArchivesMeetIff`, `Ids.AnchorsMeetIff` and `Ids.ArchiveMeetsAnchorIff` say when
  two addresses are one.
- A composed identity is said to change when two argument types are swapped (`crates/wavedb-core/src/fn_identity.rs:39-41`), and
  when a return becomes a stream (`crates/wavedb-macros/src/server.rs:172-174`). Each holds exactly unless two words coincide:
  `FnIdentity.ArgumentOrderIff` and `FnIdentity.StreamRenamesIff` say which.
- Fuzzy distance arithmetic is unchecked. The count filter's product overflows exactly when `n * k` exceeds 64 bits, and then
  nothing is promised of the answer; below that no sum does (`FuzzySearch.RankAll`). Called directly, the banded distance
  overflows exactly when the longer length and the budget do (`Levenshtein.LevenshteinWithin`).

## Model

| member | source | states |
|---|---|---|
| Ids.UnpackPack | crates/wavedb-core/src/id.rs:36-78 | the field accessors undo the packing of every id |
| Ids.PackUnpack | crates/wavedb-core/src/id.rs:46-78 | every 128-bit word is the packing of its fields, so flat keyspace and ids are in bijection |
| Ids.LocalRoundTrip | crates/wavedb-core/src/local_id.rs:44-55 | dropping the tenant is undone by injecting it, exactly for ids of that tenant |
| Ids.PackOrders | crates/wavedb-core/src/id.rs:36-45 | packed words order as key, tenant, flag, salt, so that is the layout |
| Ids.ArchivesMeetIff | crates/wavedb-core/src/mint.rs:24-42 | two archives share a slot exactly when instant, tenant, shape and the hashes' low 15 bits agree |
| Ids.AnchorsMeetIff | crates/wavedb-core/src/mint.rs:64-85 | two anchors meet exactly when key, tenant and low 15 bits agree, and never across shapes |
| Ids.ArchiveMeetsAnchorIff | crates/wavedb-core/src/mint.rs:24-42 | a type's archives are never at its anchors, and exactly when they are at another type's |
| Minting.MintValue | crates/wavedb-core/src/mint.rs:46-58 | a mint is not before the clock, exceeds its floor and the watermark exactly when each is below 2^64 - 1, and is no greater than one of them asks |
| Minting.Watermark.Mint | crates/wavedb-core/src/mint.rs:46-58 | a sequential mint moves the watermark to the value it returns |
| Minting.StepKeepsRising | crates/wavedb-core/src/mint.rs:46-58 | every load, retry or exchange of every thread keeps the minted values strictly rising |
| Minting.MintsAreDistinctAndClearTheirFloors | crates/wavedb-core/src/mint.rs:46-58 | under any threads and any retry schedule, later mints are strictly greater and each is above its caller's floor |
| Minting.SaturationRepeatsAnInstant | crates/wavedb-core/src/mint.rs:52-54 | at the top of the range two mints return the same instant |
| Stores.FailedGuardIsExact | crates/wavedb-core/src/store.rs:168-181 | a batch is refused exactly when some guard does not match the state before it |
| Stores.FirstFailedGuard | crates/wavedb-core/src/store.rs:168-181 | the guard a refusal names fails, and every guard before it holds |
| Stores.LastWriteWins | crates/wavedb-core/src/store.rs:182-194 | after a batch an id holds what the last write that names it left |
| Stores.UntouchedStays | crates/wavedb-core/src/store.rs:182-194 | an id no write names holds what it held |
| Stores.MemStore.Commit | crates/wavedb-core/src/store.rs:168-194 | validate-then-mutate commits the whole batch or changes nothing |
| Stores.Overlay.Stage | crates/wavedb-core/src/overlay.rs:33-46 | staging moves the view exactly as committing moves the store |
| Stores.Overlay.Read | crates/wavedb-core/src/overlay.rs:50-66 | a read through the overlay is a read of the store it stands for |
| Stores.PlanThroughOverlay | crates/wavedb-core/src/collection_reindex.rs:113-137 | plans made through the overlay and committed as one batch give the store of committing each plan in turn |
| Stores.ApplyEncodes | crates/wavedb-core/src/store.rs:168-194 | a store of injectively encoded values commits, conflicts and ends as the store of the values |
| Records.PlanCommits | crates/wavedb-core/src/record.rs:210-283 | a plan committed on the store it read archives the prior version at its slot and installs the new one |
| Records.PlanRefusesIff | crates/wavedb-core/src/record.rs:215-260 | a plan refuses exactly another type's record, an archive at the live address and an imposed archive form, and names what it met |
| Records.SaveStores | crates/wavedb-core/src/record.rs:210-283 | an accepted save leaves the writer's body and user on the predecessor's pivot and permission, above every floor, and the predecessor whole at its slot |
| Records.ImposedStores | crates/wavedb-core/src/record.rs:235-283 | imposed metadata is stored verbatim, and the predecessor archived exactly if it is older |
| VersionChain.RetiredArchiveIff | crates/wavedb-core/src/collection_remove.rs:42-71 | a removal that names an archive leaves the chains intact exactly when the archive was flagged already |
| VersionChain.StepKeepsChainsIff | crates/wavedb-core/src/record.rs:210-283 | at any clock reading and any id a step keeps every committed version where the walk finds it exactly when it clobbers nothing |
| VersionChain.ChainsIntactIffNothingClobbered | crates/wavedb-core/src/record.rs:210-316 | over every run with every restart, chains are intact throughout exactly when no step clobbers |
| VersionInstants.MintExceedsIffClears | crates/wavedb-core/src/mint.rs:35-58 | a version's instant exceeds every earlier version's exactly when the clock, the floor or the watermark has reached it |
| VersionInstants.OneProcessClocksHold | crates/wavedb-core/src/mint.rs:35-58 | a process that does not restart clears every earlier version's instant whatever its clock reads |
| VersionInstants.SlotTakenIff | crates/wavedb-core/src/record.rs:253-283 | an archive slot is taken exactly when another record of the tenant has a superseded version of that instant |
| VersionInstants.AnchorTakenIff | crates/wavedb-core/src/mint.rs:64-66 | a minted anchor is taken exactly when a record of the tenant was first authored at that instant |
| VersionInstants.NewestSlotIsVacant | crates/wavedb-core/src/record.rs:253-283 | the slot a live version will be archived at is vacant and never a live anchor |
| VersionInstants.StepKeeps | crates/wavedb-core/src/record.rs:210-283 | a step that clears the earlier instants and names an existing record or an anchor keeps the protocol invariant and clobbers nothing |
| VersionInstants.RunKeeps | crates/wavedb-core/src/record.rs:210-283 | every state of every interleaving of such steps satisfies the protocol invariant |
| VersionHistory.HistoryIsCommitOrder | crates/wavedb-core/src/record.rs:289-316 | at every point of every behaviour the history walk yields exactly the committed versions, newest first, and ends |
| VersionHistory.WalkIntact | crates/wavedb-core/src/record.rs:289-316 | the same of any state whose chains are intact, however it was reached |
| VersionHistory.WalkEndsAtFault | crates/wavedb-core/src/record.rs:289-316 | a walk that meets an unreadable version reports it and ends |
| VersionHistory.CommitAppendsOrNothing | crates/wavedb-core/src/store.rs:40-47 | a commit whose anchor still holds what was planned on appends one version; any other gets Conflict and writes nothing |
| VersionHistory.LiveBytesNeverRecur | crates/wavedb-core/src/record.rs:210-283 | an anchor holding the same bytes at two points of a behaviour held them throughout |
| VersionHistory.CommitSucceedsIffUntouched | crates/wavedb-core/src/record.rs:235-250 | in a behaviour a planned save commits exactly when its anchor did not change since the plan |
| VersionHistory.PendingArchivesAtVacancy | crates/wavedb-core/src/record.rs:253-283 | every archive write of a commit that succeeds lands on a vacant slot of the flipped flag |
| VersionHistory.ArchivesAreWriteOnce | crates/wavedb-core/src/mint.rs:35-42 | once written, an archive slot never changes again in the behaviour |
| VersionHistory.ArchivesNameTheirSuccessors | crates/wavedb-core/src/record.rs:253-283 | every archive in the store names the instant its successor was authored at |
| VersionAuthors.PlanSucceedsIff | crates/wavedb-core/src/record.rs:215-231 | while chains are intact a save can be planned exactly at a record's own address |
| VersionAuthors.SaveIsAsWritten | crates/wavedb-core/src/record.rs:210-283 | over every behaviour, a save planned and later accepted leaves exactly its writer's version on top of what the plan read, keeps that one whole, and is the first item of the history |
| VersionAuthors.InsertIsAsWritten | crates/wavedb-core/src/collection_write.rs:99-128 | an insert puts its writer's record at the anchor its instant names and touches nothing else |
| VersionAuthors.RetireIsAsWritten | crates/wavedb-core/src/collection_remove.rs:50-71 | a removal changes one field of one record and mints |
| LostVersions.RewoundInsertReplacesARecord | crates/wavedb-core/src/mint.rs:35-58 | two collections reading their own floors, a restart and a rewound clock: an insert replaces the other collection's record |
| LostVersions.RewoundSaveOverwritesAnArchive | crates/wavedb-core/src/mint.rs:35-58 | the same: a save overwrites the archive of the other collection's record |
| LostVersions.RemovalRewritesAnArchive | crates/wavedb-core/src/collection_remove.rs:42-71 | one process, a true floor: a removal that names an archive changes it |
| LostVersions.StraySaveIsOverwritten | crates/wavedb-core/src/collection_write.rs:202-205 | one process, true floors: a record saved at a vacant archive slot is lost to a later archive |
| UniqueSync.UniqueChanges | crates/wavedb-core/src/expose_changes.rs:175-229 | the forward-walk loop computes the walk; the answers for a vacant, foreign or corrupt anchor and for registration |
| UniqueSync.AnswerRegisters | crates/wavedb-core/src/expose_changes.rs:192-195 | without a cursor a client is registered at the live version's instant, with no changes |
| UniqueSync.AnswerVacant | crates/wavedb-core/src/expose_changes.rs:185-187 | where nothing was saved the cursor comes back, or zero, with no changes |
| UniqueSync.RegisterThenCatchUp | crates/wavedb-core/src/expose_changes.rs:175-229 | over every run, a client that registers and later catches up gets exactly the versions committed in between, or the live one alone if the record did not exist; and when the two agree |
| UniqueSync.WalkRefuses | crates/wavedb-core/src/expose_changes.rs:204-220 | a foreign record, a false archive or a link that leads nowhere new refuses the walk by name |
| UniqueSync.WalkForward | crates/wavedb-core/src/expose_changes.rs:200-226 | from any version the walk ships every later archive in its live form, in authoring order |
| UniqueSync.AnswerPast | crates/wavedb-core/src/expose_changes.rs:196-198 | a cursor at or past the live version gets nothing and keeps its cursor |
| UniqueSync.AnswerFrom | crates/wavedb-core/src/expose_changes.rs:200-229 | a cursor naming version c gets exactly the versions after c, the live one last |
| UniqueSync.AnswerElsewhere | crates/wavedb-core/src/expose_changes.rs:204-208 | an unknown cursor gets the live version alone |
| UniqueSync.AdoptAnswers | crates/wavedb-core/src/record_unique.rs:108-140 | every answer of an adoption: refusals by name, no change, or the version verbatim with an older one archived |
| UniqueSync.AdoptNext | crates/wavedb-core/src/record_unique.rs:108-140 | adopting the next node version archives the mirror's one at the node's slot with the node's bytes |
| UniqueSync.CatchUpConverges | crates/wavedb-core/src/expose_changes.rs:175-229 | one catch-up takes a mirror at any version to the node's anchor and slots |
| UniqueSync.MirrorIsByteIdentical | crates/wavedb-core/src/record_unique.rs:108-140 | over any number of catch-ups in any run the mirror holds every version since its first contact |
| UniqueSync.MirrorReadsAsNode | crates/wavedb-core/src/expose_changes.rs:175-229 | after every catch-up anchor and slots hold the node's own envelopes |
| Keys.LessTransitive | crates/wavedb-core/src/index/node_key.rs:67-78 | key order is transitive |
| Keys.LessTotal | crates/wavedb-core/src/index/node_key.rs:67-78 | key order is total and irreflexive |
| Keys.LocalOrders | crates/wavedb-core/src/local_id.rs:25-33 | records order as the packed words of their ids |
| Keys.InstantKeys | crates/wavedb-core/src/collection_recency.rs:37-52 | a chain key gives its instant back, and keys order by instant then record |
| Chains.Descend | crates/wavedb-core/src/index/sparse.rs:234-253 | the binary search over separators finds the covering segment, or the head |
| Chains.WalkBack | crates/wavedb-core/src/index/chain.rs:470-486 | the index-less walk finds the same segment |
| Chains.CoveringIsTheKeysPlace | crates/wavedb-core/src/index/chain.rs:449-463 | everything before the covering segment is below the key and everything after it above |
| Chains.Position | crates/wavedb-core/src/index/segment.rs:256-258 | binary search inside a segment: the index of the key, or where it belongs |
| Chains.PlanInsert | crates/wavedb-core/src/index/chain.rs:315-391 | insertion or replacement of one key; order and size band survive the split |
| Chains.PlanRemove | crates/wavedb-core/src/index/chain_remove.rs:67-92 | nothing planned exactly when the key is absent; otherwise that key alone goes, order and band survive |
| Chains.Rebalance | crates/wavedb-core/src/index/chain_remove.rs:95-209 | evening out or merging a starved segment changes no entry and restores the band |
| Chains.ListingIsUnique | crates/wavedb-core/src/index/chain.rs:261-277 | two sorted listings of one map are equal, so segmentation cannot show through a read |
| ChainReads.TailSince | crates/wavedb-core/src/expose_changes.rs:62-88 | the early-stopping scan returns exactly the entries above the cursor, each once, for any segmentation |
| ChainReads.ChainFloor | crates/wavedb-core/src/collection_recency.rs:63-83 | the tail segment's last key carries the greatest instant of the chain |
| ChainReads.All | crates/wavedb-core/src/collection_read.rs:170-214 | the page-reversing walk yields the records in exactly the reverse of chain order, or fails exactly when one is unreadable |
| ChainReads.AllValues | crates/wavedb-core/src/expose.rs:219-262 | the buffered walk that reverses stretches in place yields the same |
| ChainReads.FindOffset | crates/wavedb-core/src/index/sparse.rs:257-273 | the segment and remainder a global offset falls in, or none at or past the end |
| ChainReads.ListedFrom | crates/wavedb-core/src/collection_lists.rs:220-273 | a read entered at any offset is exactly that suffix of the list |
| ChainReads.ListLen | crates/wavedb-core/src/collection_lists.rs:205-216 | the summed counts are the number of distinct keys |
| CollectionAgreement.RecencyKept | crates/wavedb-core/src/collection_recency.rs:103-143 | a recency chain that follows one record still stamps exactly the living records |
| CollectionAgreement.ListKept | crates/wavedb-core/src/collection_lists.rs:84-118 | a list that follows one record keeps exactly the living records, each a copy of its anchor |
| CollectionAgreement.PostingsMoved | crates/wavedb-core/src/collection_fuzzy.rs:87-117 | writing the symmetric difference of two posting sets replaces one by the other |
| CollectionAgreement.MovedChains | crates/wavedb-core/src/collection_reindex.rs:55-92 | re-keying a living record makes chain and lists follow it |
| CollectionAgreement.MovedTrees | crates/wavedb-core/src/collection_reindex.rs:93-137 | re-keying a living record makes every tree follow it |
| CollectionAgreement.UnmovedChains | crates/wavedb-core/src/collection_reindex.rs:66-92 | a save addressed to a dead anchor changes neither chain nor list |
| CollectionAgreement.GoneChains | crates/wavedb-core/src/collection_remove.rs:61-93 | after a removal neither chain nor list holds the record, and its bytes stay in the store |
| CollectionAgreement.GoneTrees | crates/wavedb-core/src/collection_remove.rs:94-104 | a removal takes every key of the record out of every tree |
| CollectionRuns.SaveLiving | crates/wavedb-core/src/collection_write.rs:236-313 | a save of a living record succeeds, moves it above the floor and every structure follows |
| CollectionRuns.SaveDead | crates/wavedb-core/src/collection_write.rs:236-313 | a plain save never revives |
| CollectionRuns.Revive | crates/wavedb-core/src/collection_keyed.rs:73-145 | a write to a vacant or dead keyed anchor always ends living, in every structure |
| CollectionRuns.FirstVersion | crates/wavedb-core/src/collection_write.rs:131-185 | a first version enters every structure |
| CollectionRuns.RemoveLive | crates/wavedb-core/src/collection_remove.rs:42-127 | a removal logs an instant above the floor and the record is no longer living |
| CollectionRuns.InsertLandsOnVacant | crates/wavedb-core/src/mint.rs:64-66 | an insert's minted anchor is vacant, whatever the clock and the restarts |
| CollectionWrites.KeyedAnchorIff | crates/wavedb-core/src/collection_keyed.rs:41-45 | a keyed anchor is the natural key under tenant and salt; two bodies share one exactly when their natural keys are equal |
| CollectionWrites.InsertStores | crates/wavedb-core/src/collection_write.rs:89-128 | an insert, keyed or not, succeeds, and its anchor lives with exactly the body, user and pivot given, at the minted instant above floor and watermark |
| CollectionWrites.KeyedInsertStores | crates/wavedb-core/src/collection_keyed.rs:50-65 | the same of a keyed upsert, whether its anchor was vacant, living or removed |
| CollectionWrites.ForeignInsertIsRefused | crates/wavedb-core/src/collection_keyed.rs:60-64 | a keyed anchor held by another type refuses the insert and names that type |
| CollectionWrites.SaveAnswers | crates/wavedb-core/src/collection_write.rs:236-313 | every answer of a save: wrong key, archive, vacant with secondaries, and what is stored otherwise |
| CollectionWrites.RemoveStores | crates/wavedb-core/src/collection_remove.rs:42-93 | every answer of a removal, and that it changes one field and logs its instant |
| CollectionWrites.AdoptStores | crates/wavedb-core/src/collection_adopt.rs:103-131 | an adopted version is at its anchor verbatim, and nothing is minted |
| CollectionRuns.RunKeeps | crates/wavedb-core/src/collection_write.rs:131-313 | in every reachable state chain and lists agree with the anchors and the timeline has no ties |
| CollectionRuns.NewInstantsAreNewest | crates/wavedb-core/src/collection_recency.rs:54-83 | every recorded instant is above everything chain or log ever held and above every floor handed out |
| CollectionRuns.RunKeepsTrees | crates/wavedb-core/src/collection_reindex.rs:55-137 | when saves address living anchors every tree is what a rebuild would give |
| CollectionRuns.SaveKeepsChainsIff | crates/wavedb-core/src/collection_write.rs:202-290 | a save keeps chain and lists in agreement exactly when its anchor exists; a type with secondaries refuses otherwise |
| CollectionRuns.VacantSaveIsUnindexed | crates/wavedb-core/src/collection_write.rs:202-205 | an instance: a living record no structure holds |
| CollectionRuns.SaveKeepsTreesIff | crates/wavedb-core/src/collection_reindex.rs:80-104 | a save keeps the trees in agreement exactly when the record is living or nothing indexed is new |
| CollectionRuns.DeadSaveReentersASecondary | crates/wavedb-core/src/collection_reindex.rs:93-104 | an instance: a removed record back in a secondary |
| CollectionArchives.StepKeepsSlotsIff | crates/wavedb-core/src/collection_write.rs:236-313 | one operation keeps every instant covered by the floor and every archive slot free exactly unless it saves to a removed record |
| CollectionArchives.SlotsStayFreeIff | crates/wavedb-core/src/collection_recency.rs:54-83 | over every run across restarts, instants stay covered and slots free exactly when no save names a removed record |
| CollectionArchives.ArchivesLandOnVacancy | crates/wavedb-core/src/record.rs:253-283 | then every archive goes to a vacant slot, holds what it supersedes, and no other archive changes but one a removal names |
| CollectionArchives.ArchivesAreWriteOnce | crates/wavedb-core/src/mint.rs:35-42 | then an archive no removal names keeps its bytes for the rest of the run |
| LostArchive.DeadSaveOverwritesAnArchive | crates/wavedb-core/src/collection_write.rs:236-313 | an instance of the failure: one collection, true floors, a save to a removed record, a restart, and an archive is overwritten |
| CollectionObjects.InstantFloor | crates/wavedb-core/src/collection_recency.rs:63-83 | two endpoint reads give the greatest instant of chain and log |
| CollectionObjects.PlanListInserts | crates/wavedb-core/src/collection_lists.rs:48-64 | the loop files the record in every list |
| CollectionObjects.PlanListMoves | crates/wavedb-core/src/collection_lists.rs:84-118 | the loop with its skipped removals re-files the record in every list |
| CollectionObjects.PlanListRemoves | crates/wavedb-core/src/collection_lists.rs:124-139 | the loop takes the record out of every list |
| CollectionObjects.PlanSecRekeys | crates/wavedb-core/src/collection_reindex.rs:113-137 | the loop re-keys exactly the secondaries whose field changed |
| CollectionObjects.PlanFuzzyInserts | crates/wavedb-core/src/collection_fuzzy.rs:60-80 | the nested loops file every posting |
| CollectionObjects.PlanFuzzyMoves | crates/wavedb-core/src/collection_fuzzy.rs:87-117 | the loops write the symmetric difference of the posting sets |
| CollectionObjects.PlanFuzzyRemoves | crates/wavedb-core/src/collection_fuzzy.rs:120-137 | the nested loops take every posting out |
| CollectionObjects.Collection.constructor | crates/wavedb-core/src/collection_roots.rs:181-192 | a created collection is the empty state |
| CollectionObjects.Collection.Enter | crates/wavedb-core/src/collection_write.rs:144-170 | the object takes a record into chain, lists and trees as the state function does |
| CollectionObjects.Collection.Reindex | crates/wavedb-core/src/collection_reindex.rs:55-104 | the object re-keys behind the liveness gate as the state function does |
| CollectionObjects.Collection.SavePlanned | crates/wavedb-core/src/collection_write.rs:236-313 | new state, watermark and error of a save, for every input |
| CollectionObjects.Collection.ChainIntoLiving | crates/wavedb-core/src/collection_keyed.rs:73-145 | new state, watermark and error of a revival |
| CollectionObjects.Collection.UpsertKeyed | crates/wavedb-core/src/collection_keyed.rs:50-65 | new state, watermark and error of a keyed upsert |
| CollectionObjects.Collection.Insert | crates/wavedb-core/src/collection_write.rs:89-102 | new state, watermark, id and error of an insert |
| CollectionObjects.Collection.Remove | crates/wavedb-core/src/collection_remove.rs:42-127 | new state, watermark and answer of a removal |
| CollectionObjects.Collection.AdoptWith | crates/wavedb-core/src/collection_adopt.rs:103-131 | new state and error of adopting a node version verbatim |
| CollectionAnswers.CollectionChanges | crates/wavedb-core/src/expose_changes.rs:115-162 | the answer is everything recorded above the cursor, once, in instant order, with the cursor to come back with; it fails exactly when such an entry is unreadable, and names one |
| CollectionAnswers.TimelineSays | crates/wavedb-core/src/expose_changes.rs:137-152 | in agreement a saved change is the living record at its own instant, a removed one carries its logged instant |
| CollectionAnswers.SortByInstant | crates/wavedb-core/src/expose_changes.rs:152 | the sorted timeline is a permutation in instant order |
| CollectionAnswers.AgreeingChainReads | crates/wavedb-core/src/expose_changes.rs:139-148 | in agreement no chain entry is unreadable, so catch-up and whole walks succeed |
| CollectionAnswers.AgreeingListReads | crates/wavedb-core/src/collection_lists.rs:148-157 | in agreement a list reads as the living records, each once, in its own order |
| CollectionSync.StillOrRecorded | crates/wavedb-core/src/expose_changes.rs:115-162 | between two points of a run a record lives as it did or is recorded above the earlier floor |
| CollectionSync.CatchUpConverges | crates/wavedb-core/src/expose_changes.rs:115-162 | a client no older than its cursor ends with the node's living map and the node's floor as cursor |
| CollectionSync.RepeatedCatchUps | crates/wavedb-core/src/expose_changes.rs:115-162 | a client that starts empty and reuses any cursor it was given converges every time |
| CollectionSync.MirrorTracksMap | crates/wavedb-core/src/collection_adopt.rs:103-131 | a mirror collection replaying changes holds what a map client holds and stays in agreement |
| CollectionSync.MirrorConverges | crates/wavedb-core/src/collection_adopt.rs:103-131 | a mirror collection converges to the node's living records |
| Levenshtein.CellStep | crates/wavedb-core/src/fuzzy/distance.rs:115-125 | a banded cell is exact whenever the true distance is within budget |
| Levenshtein.RowBound | crates/wavedb-core/src/fuzzy/distance.rs:128-132 | once a row is over budget everything after it is |
| Levenshtein.LevenshteinWithin | crates/wavedb-core/src/fuzzy/distance.rs:96-137 | the distance exactly when it is at most k, for every budget; overflow exactly when the longer length and the budget exceed 64 bits |
| Levenshtein.DistanceIsLeastScript | crates/wavedb-core/src/fuzzy/distance.rs:88-96 | the distance is the least number of single-character edits |
| Grams.GramPrefixes | crates/wavedb-core/src/fuzzy/grams.rs:60-76 | the loop collects exactly the window keys of the padded text, for every width |
| Grams.EditLoses | crates/wavedb-core/src/fuzzy/mod.rs:82-85 | one edit removes at most n distinct grams |
| Grams.SharedGrams | crates/wavedb-core/src/fuzzy/mod.rs:82-85 | a string within distance k shares all but n * k of the query's distinct grams |
| FuzzySearch.CountShared | crates/wavedb-core/src/collection_fuzzy_read.rs:77-92 | the scans count, for each record, the query grams it shares |
| FuzzySearch.FiltersAdmit | crates/wavedb-core/src/collection_fuzzy_read.rs:94-101 | neither the count filter nor the saturating length filter rejects a record in range |
| FuzzySearch.AdmitsIff | crates/wavedb-core/src/collection_fuzzy_read.rs:94-101 | for lengths up to 255 the filters pass exactly texts sharing all but n * k grams whose length is within k |
| FuzzySearch.HitLessIff | crates/wavedb-core/src/collection_fuzzy_read.rs:126-133 | nearer hits first, equal ones by the packed id |
| FuzzySearch.RankAll | crates/wavedb-core/src/collection_fuzzy_read.rs:72-133 | before the cut, the ranked answer is exactly the in-range records sharing a gram; overflow exactly when n * k exceeds 64 bits |
| FuzzySearch.Search | crates/wavedb-core/src/collection_fuzzy_read.rs:57-136 | the answer is the best `limit` in-range records sharing a gram, in rank order; whatever is cut ranks after everything kept |
| FuzzySearch.ExactWhenGramsExceed | crates/wavedb-core/src/collection_fuzzy_read.rs:72-101 | with more than n * k distinct grams every in-range record shares one |
| FuzzySearch.ShortQueryMisses | crates/wavedb-core/src/fuzzy/mod.rs:93-94 | a record at distance one that shares no gram |
| FuzzyComplete.FewWindowsMiss | crates/wavedb-core/src/fuzzy/mod.rs:93-94 | with no more windows than n * k some text in range shares no gram |
| FuzzyComplete.CompleteIff | crates/wavedb-core/src/fuzzy/mod.rs:77-94 | for a query without repeated windows, every text in range shares a gram exactly when there are more than n * k |
| FuzzySearch.AgreeingTreeIsPosted | crates/wavedb-core/src/collection_fuzzy.rs:46-57 | a tree in agreement holds exactly the living records' postings |
| FnIdentity.UnmixMix | crates/wavedb-core/src/fn_identity.rs:32-37 | the mixer loses nothing |
| FnIdentity.MixUnmix | crates/wavedb-core/src/fn_identity.rs:32-37 | the mixer reaches every word |
| FnIdentity.ComposeLoop | crates/wavedb-core/src/fn_identity.rs:43-52 | the loop is the fold the theorems are about |
| FnIdentity.ComposeInjective | crates/wavedb-core/src/fn_identity.rs:43-52 | changing the seed or one part changes the composition |
| FnIdentity.ContainerInjective | crates/wavedb-core/src/fn_identity.rs:57-59 | changing the kind or the element changes the tag |
| FnIdentity.OnePlaceChangesTag | crates/wavedb-core/src/fn_identity.rs:116-140 | changing one leaf, one array length or one container kind changes the tag of every type around it |
| FnIdentity.OnePlaceRenames | crates/wavedb-core/src/fn_identity.rs:39-52 | such a change anywhere in a signature changes the function's identity |
| FnIdentity.StreamRenamesIff | crates/wavedb-macros/src/server.rs:175-199 | making a return a stream changes the identity exactly unless its tag is a word the stream kind maps to itself |
| FnIdentity.StreamIsItsOwnKind | crates/wavedb-macros/src/server.rs:189-199 | a stream, a vector and an option of one item give three identities |
| FnIdentity.SwapComposesIff | crates/wavedb-core/src/fn_identity.rs:39-52 | exactly when swapping two parts leaves a composition as it was |
| FnIdentity.ArgumentOrderIff | crates/wavedb-core/src/fn_identity.rs:39-52 | exactly when swapping two arguments keeps an identity |
| FnIdentity.TupleSeedsDiffer | crates/wavedb-core/src/fn_identity.rs:128-140 | the same parts compose differently under each tuple length |
| FnIdentity.NameAndKindMatter | crates/wavedb-core/src/fn_identity.rs:54-59 | the name matters, and a vector is not an option |
| Frames.FrameReader.Fill | crates/wavedb-net/src/frames.rs:45-63 | bytes are gathered without loss; a clean end only on an empty buffer |
| Frames.FrameReader.NextFrame | crates/wavedb-net/src/frames.rs:70-91 | the answer depends on the remaining bytes alone, never on the chunks |
| Frames.Drain | crates/wavedb-net/src/frames.rs:70-91 | calling until the stream stops gives its frames and its ending |
| Frames.WriteFrame | crates/wavedb-net/src/http.rs:189-199 | the four bytes of the length, least significant first, then the bytes; refused exactly from 2^32 on |
| Frames.RoundTrip | crates/wavedb-net/src/frames.rs:45-91 | any chunking of any written frames reads as those frames and a clean end exactly when all are within the cap; otherwise as the frames before the first that is not, then a refusal with its length |
| Frames.CutReads | crates/wavedb-net/src/frames.rs:45-91 | a cut stream reads as the whole frames before the cut, then an error unless the cut is a boundary |
| LittleEndian.LeIsDigits | crates/wavedb-wire/src/impls.rs:10-25 | byte i of a number on the wire is its i-th base-256 digit |
| LittleEndian.FromLeHasDigits | crates/wavedb-wire/src/impls.rs:19-21 | reading gives the number with those digits |
| Wire.Widths | crates/wavedb-macros/src/wire_derive.rs:65-77 | both sections are as long as STACK_SIZE and heap_size say |
| Wire.RoundTripIff | crates/wavedb-macros/src/wire_derive.rs:65-89 | for every nesting of types, decoding gives the value back and consumes exactly what encoding wrote from both cursors exactly when no vector holds zero-size elements and no region reaches 4 GiB |
| Wire.SurvivesIff | crates/wavedb-wire/src/impls.rs:85-117 | the same of a whole message; a fitting value with zero-size elements comes back without them |
| Wire.UnitVectorVanishes | crates/wavedb-wire/src/impls.rs:85-117 | an instance: a vector of one unit comes back empty |
| Wire.ByteStringSurvivesIff | crates/wavedb-wire/src/impls.rs:91-93 | a byte string comes back exactly when it is shorter than 4 GiB |
| Wire.FourGibibytesVanish | crates/wavedb-wire/src/impls.rs:91-93 | an instance: one of 4 GiB comes back empty, its bytes left over |
| Wire.ProgressIff | crates/wavedb-wire/src/impls.rs:103-116 | a decoded element advances the element loop exactly when its type takes room on the stack |
| Wire.DecodesSound | crates/wavedb-wire/src/impls.rs:10-201 | any bytes decode to an error, or to a value of the type that survives the wire and takes no more room than was consumed |
| Wire.DecodeConsumes | crates/wavedb-wire/src/impls.rs:10-201 | decoding takes exactly the type's stack, and refuses a shorter one |
| Wire.OddTag | crates/wavedb-wire/src/impls.rs:40-47 | a tag byte past the last is refused by name |
| Wire.OddOption | crates/wavedb-wire/src/impls.rs:136-143 | an option takes any byte but zero as present |
| Layouts.OptionBytes | crates/wavedb-wire/src/impls.rs:119-144 | an option is the byte 0, or the byte 1 and the value |
| Layouts.VariantBytes | crates/wavedb-core/src/permission.rs:14-30 | a variant is its position, the payload's length in four bytes and the payload |
| Layouts.VectorBytes | crates/wavedb-wire/src/impls.rs:85-101 | a vector is its region's byte length and the region |
| Layouts.SuccessionBytes | crates/wavedb-core/src/metadata.rs:59-72 | tag 0 and the own instant while live, tag 1 and the successor's once archived |
| Layouts.PermissionLayout | crates/wavedb-core/src/permission.rs:14-30 | the bytes of each permission: tags 0, 1, 2 and their payloads |
| Layouts.MetadataLayout | crates/wavedb-core/src/metadata.rs:94-135 | the bytes of any metadata, field by field |
| Layouts.RecordLayout | crates/wavedb-core/src/record.rs:98-111 | the bytes of any stored record |
| Layouts.CutRecord | crates/wavedb-core/src/record.rs:113-140 | a stored record cut anywhere: refused before its body, read with a shorter body after |
| Envelopes.MetadataRoundTrip | crates/wavedb-core/src/metadata.rs:59-135 | metadata takes 27 bytes plus its options, and survives the wire exactly when its permission payload is shorter than 4 GiB |
| Envelopes.SplitUndoesEncode | crates/wavedb-core/src/record.rs:98-140 | splitting undoes encoding exactly when the metadata is shorter than 4 GiB, for every body |
| Envelopes.ForeignIsRefused | crates/wavedb-core/src/record.rs:119-130 | another type's record is refused and its hash named |
| Envelopes.ByteStoreRefines | crates/wavedb-core/src/store.rs:33-47 | for records whose metadata fits its length field, guards and writes on bytes are guards and writes on records |
| Calendar.OrdinalOfCivil | benches/src/report.rs:301-312 | every day number maps to a valid date whose own day count is that number |
| Calendar.CivilOfOrdinal | benches/src/report.rs:301-312 | every valid date's day count maps back to the date |
| Calendar.CivilSteps | benches/src/report.rs:301-312 | day z + 1 is the calendar successor of day z |
| Calendar.EpochIsDayZero | benches/src/report.rs:301-312 | day zero is 1970-01-01 |

## Left out

- The storage engine, journal, pages, shards and caches: the store is its contract, a map with guarded batches.
- B+tree internals: a secondary or fuzzy tree is the set of its keys, so node splits and scan bounds are not modelled.
- Segment ids, links and sparse-index nodes: a chain is its segments in order, so relinking and endpoint moves are not modelled.
- Concurrent collection operations: the node serialises them per owner, so only record saves interleave.
- Several collections in one store: `Collections` models one alone; `VersionChain` has all records of a type but no indexes.
- Records whose bodies fail to decode: bodies are bytes written by the typed interface, so decode faults beyond the hash are not modelled.
- `adopt` without metadata, out-of-order adoption and byte identity of collection-mirror archives: none of these is promised to converge.
- Saves that impose metadata on the node itself: imposed instants may be arbitrary, so only mirrors use them here.
- Fuzzy similarity and containment modes, text normalisation and folding: the distance mode carries the hard filter argument.
- UTF-8 validation, `char` scalars and the optional checksum framing of the codec: they would only add easy cases.
- Request heads, bodies and upgrades over HTTP: plumbing around the frame sequence, and transport faults while reading it.
- SeaHash, tokens, permission policy and notification: foreign code or outside the record logic; hashes are given words.
- Chains.PlanInsert: states the entries and the size band, not the ids, links and separators it rewrites; the page size is at least one, which the declaration macro enforces.
- Chains.PlanRemove: states the entries and the size band, not the ids, links and separators it rewrites.
- Chains.Rebalance: states the entries and the size band, not which neighbour's id survives a merge.
- ChainReads.ListLen: sums the segments' counts where the source reads the total its index keeps; that the entries are the living records is `CollectionAnswers.AgreeingListReads`.
- FuzzySearch.FiltersAdmit: multiplies without bound; `FuzzySearch.RankAll` states when the 64-bit product overflows.
- FuzzySearch.Search: the gram width is at least two, which the declaration macro enforces, and a text has fewer than 2^61 characters, as a slice does; what the answer is once `n * k` has wrapped is not modelled.
- Calendar.OrdinalOfCivil: integers are unbounded, so the source's 64-bit sum must not overflow for it to apply.
- Wire.DecodesSound: a region of zero-size elements from foreign bytes gives an error here, where the source's loop makes no progress.
