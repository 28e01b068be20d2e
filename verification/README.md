# CyberForge, verified

A Dafny model of the stateful core of CyberForge: the Python sidecar's encrypted store, search
index, governance, scanner, vault, credential gate and file encryption, and two engine files of
the Dart application. Check everything with `dafny verify dfyconfig.toml`.

## What is modelled

**The encrypted store and its disposable search index** (`Records`, `EncryptedStore`,
`StoreInvariant`, `StoreOutcomes`, `Coordinator`, `Coherence`, `Drain`). Four tables (records, blind tokens, sync
queue, audit chain), an outside index that is a map whose calls may fail before or after taking
effect, and the coordinator that writes the first and mirrors it in the second. `Store`,
`SearchIndex` and `StorageCoordinator` are classes whose methods are proved equal to functions on
values (`AfterPut`, `AfterDelete`, `SyncBatch`, ...). The invariant and the theorems over whole
runs are about those functions: over every sequence of puts, deletes, rebuilds and syncs, with any
faults, whatever is not queued is mirrored exactly if and only if every put keeps to a condition that
fitting its columns is enough for, and a rebuild followed by enough clean syncs leaves exactly the live records'
projections. What each call leaves in tables, queue and index is also told column by column, without
those functions.

**Blind search and retrieval** (`BlindSearch`, `Retrieval`, `Diversity`, `RetrievalLaws`). The search
over keyed token hashes returns what a scan of the decrypted live records would return. The
coordinator's search fuses it with an index answer nobody trusts and picks greedily; what a rank, a
neighbour and a resemblance are worth is stated in numbers.

**The audit chain, retention, compaction and provenance** (`AuditChain`, `Retention`,
`RetentionEffects`, `Compaction`, `Distances`, `ProvenanceWalk`, `ProvenanceOrder`, `Provenance`,
`ReferencePaths`). The verified count is the longest valid prefix, and a rewritten column or a row cut out is
found where it is; equal heads mean equal histories unless rows of the two chains themselves collide;
retention deletes exactly what is lapsed and not protected; the breadth-first provenance walk reports
true distances, in an order that is also defined without a queue, over the strings that stand under a
reference key.

**Risk propagation and the control search** (`Scanner`, `Propagation`, `PropagationShape`,
`RiskFindings`, `LinkEffects`, `Simulation`, `Strengthening`, `Controls`, `ControlOffers`, `Pareto`).
From the packet through the sigmoid, three noisy-or rounds,
the ranking and the mean of the twelve largest risks to the Pareto frontier, over exact reals: a
finding is its propagated pressure times its impact, links raise exactly the findings they feed, each
candidate is the modelled risk of one moved field, and no offered control action raises the modelled
risk.

**The provider vault** (`VaultModel`, `Vault`, `VaultRuns`). Key buffers are arrays that are zeroed
in place; the files are one value. The vault is a map from names to values over every run of
writes, removals, rotations, locks and unlocks.

**The assumptions** (`Texts`, `Assumptions`, `VaultAssumptions`). What is assumed of the libraries
is met by concrete values: a symbolic cipher that spells out key, associated data and plaintext.

**Smaller pieces**: the prompt-chain taint (`PromptChain`), the credential gate's verdict
(`PhishingRod`, `PhishingVerdicts`), chunked file encryption and key packing (`StreamFraming`), the attack-surface
graph (`AttackSurface`) and the Monte Carlo tallies (`Tally`, `TallyKeys`, `TallyLaws`). `Prelude` and `Sorting`
hold what several modules share.

## How to read the assumptions

- Library calls are function-valued fields of `Records.Primitives`, `VaultModel.Crypto` and
  `StreamFraming.Gcm`. `Sound` says a cipher opens what was sealed, `Hex` that digests are 64 ASCII
  characters, `Authentic` and `Ideal` that a cipher opens under nothing else, `Splits` that a blank ends
  a word, `Lists` that sorting a set keeps its members.
  `Assumptions.PrimitivesExist` and `VaultAssumptions.CryptoExists` show that they can be met
  together. No hash is assumed free of collisions: the audit theorem concludes that two histories
  agree, or points at two rows of the two chains that hash different texts to one value, or at a row
  whose hash is the genesis value. Blind search assumes only that the tokens it compares do not
  clash, and the vault says what names read as when their keyed hashes do. AES-GCM in
  `StreamFraming` follows sections 7.1 and 7.2 of NIST SP 800-38D: exclusive or with a key stream,
  and a tag over associated data and ciphertext. Keys have a length AES accepts.
- Timestamps are integers; ORDER BY leaves ties in any order, and so do the results that depend on
  it. JSON encoding is part of the sealing function,
  and a JSON number is its decimal text. The blind-token `weight` column is always 1.0
  and is dropped. An object of the search index is keyed by its record id (the code derives a uuid5
  from it).
- One SQL transaction is one step, and coordinator calls run one after another.
- `_held` reads the wall clock and the plan's age test its own `now`: two clocks.
- Reals are exact. The sigmoid is any monotone function into (0, 1). In the control search the
  local model's adjustments are empty, and overall risk uses no sampled value.
- In `Retrieval` and `Diversity` the index answer is an arbitrary list of ids and feature vectors are
  arbitrary; in `Tally` the set of draws that fire is arbitrary.
- Vectors, attack paths, confidences and texts that no modelled value depends on are not fields.

## Where the code and its promises differ

- A record whose type is longer than 96 characters (or its truth label than 160, or its status than
  64) is stored but does not read back as `put` returned it, because the associated data and the
  tokens use the uncut texts and the row keeps cut ones. `StoreInvariant.PutIsReadable` gives the
  exact condition for reading back, `StoreInvariant.UnreadableType` the family that raises,
  `StoreInvariant.PutHealthyExactly` the exact condition for keeping the store healthy, and
  `Coherence.CoherentRunsExactly` the exact condition for index coherence over whole runs. The audit
  chain needs none of them (`Coherence.EveryRunAudits`).
- `docs/PHISHING_ROD.md` says a model opinion cannot freeze a page by itself.
  `PhishingRod.OpinionFreezesAlone` and `PhishingRod.OpinionAccusesAlone` give pages on which it
  does, `PhishingRod.OpinionWithoutEvidence` says exactly on which pages without an independent
  signal, and `PhishingRod.WhenOpinionDecides` and `PhishingRod.WhenAccusable` give the exact reach
  of an opinion for any signals.
- `truncated` in a provenance report may be true although nothing is missing: the walk stops at the
  node cap while duplicates of visited ids are left in the queue. Something is missing exactly when
  more ids lie within the depth cap than the node cap allows. The flag is right on both sides of
  that; when the two numbers are equal it is set exactly when the last naming of an id within the
  depth cap is a repeat (`Provenance.FlagMeans`), which can be read off the links before the walk.
  It always is when no id lies at the depth cap itself (`Provenance.FilledIsFlagged`; a record that
  cites another, with a node cap of two, is such an input, `Provenance.TwoRecords`). With an id at
  the depth cap it depends on the order in which references are followed, that is on the names
  (`Provenance.NamesDecide`).
- A finding of the Monte Carlo engine can be hit more often than there are iterations exactly when
  two draws of an iteration share a finding key; `TallyKeys.HitsBoundedExactly` reads that off the
  scenario. Besides repeated ids and links, and an asset named like a human, a link from an asset
  with an empty id does it, because its pathway then reads as "none". `TallyKeys.HitsExceed` has
  two such scenarios.
- The audit verifier does not always return: `hmac.compare_digest` raises on text outside ASCII and
  is not caught. `AuditChain.Verify` says exactly when. In the same way the Monte Carlo run throws
  when two assets share an id and the last of them lacks a vector of the other (`Tally.Tallies.Run`).

## Model

| member | source | states |
|---|---|---|
| Assumptions.PrimitivesExist | sidecar/cyberforge_sidecar/storage.py:66-85 | a cipher, hash and canonical form that meet every assumption made of the store's libraries at once |
| VaultAssumptions.CryptoExists | sidecar/cyberforge_sidecar/vault.py:311-341 | the same for the vault's |
| EncryptedStore.Store.Put | sidecar/cyberforge_sidecar/storage.py:280-400 | a put leaves exactly one new row, replaces that record's tokens, queues an upsert and appends one audit row; locked, it raises and changes nothing |
| EncryptedStore.Store.DeleteRecord | sidecar/cyberforge_sidecar/storage.py:557-582 | marks a live record deleted, drops its tokens, queues a delete and audits it; anything else is left alone and reported as not found |
| EncryptedStore.Store.Get | sidecar/cyberforge_sidecar/storage.py:468-474 | the live record decrypted, nothing for a deleted or unknown id, an error when locked or unauthentic |
| EncryptedStore.Store.PendingSync | sidecar/cyberforge_sidecar/storage.py:584-592 | some oldest-first listing of the queue cut to between 1 and 1000 entries |
| EncryptedStore.PendingBatch | sidecar/cyberforge_sidecar/storage.py:584-592 | a batch has no repeats, only queued ids, and exactly min(queue, limit) of them |
| EncryptedStore.ByAge | sidecar/cyberforge_sidecar/storage.py:586-591 | ordering by the negated queue time lists the queue oldest first |
| EncryptedStore.Store.MarkSynced | sidecar/cyberforge_sidecar/storage.py:594-597 | removes the entry and touches nothing else |
| EncryptedStore.Store.MarkSyncFailed | sidecar/cyberforge_sidecar/storage.py:599-605 | counts one more attempt on the entry if it is there and keeps its operation and age |
| EncryptedStore.Store.QueueRebuild | sidecar/cyberforge_sidecar/memory_governance.py:406-441 | with the exact confirmation and an open vault every live record is queued as a fresh upsert and other entries stay; otherwise nothing changes; the count is the number of live records |
| StoreOutcomes.PutWrites | sidecar/cyberforge_sidecar/storage.py:300-386 | column by column: an overwrite keeps the creation time and revives, the texts are cut to 96, 160 and 64, the tokens are the keyed hashes of the record's words, the entry is a fresh upsert, the chain has one row more that names the hash before it; no row, entry or token of another record changes |
| StoreOutcomes.PutReturnsGiven | sidecar/cyberforge_sidecar/storage.py:298-308 | a given non-empty title and summary win over the derived ones and are cut to 240 and 8000; given metadata wins key by key; labels and payload are the caller's |
| StoreOutcomes.TagsKept | sidecar/cyberforge_sidecar/storage.py:305 | the tags are exactly the non-empty ones derived or given, cut to 96 |
| StoreOutcomes.MovedRowFails | sidecar/cyberforge_sidecar/storage.py:310-311 | a stored row decrypts under its own identifier only |
| StoreOutcomes.DeleteWrites | sidecar/cyberforge_sidecar/storage.py:557-582 | the row changes its deleted mark and update time and nothing else, its tokens go, the entry is a fresh delete, the chain has one row more; a record that is not live is left alone |
| StoreOutcomes.RebuildQueues | sidecar/cyberforge_sidecar/memory_governance.py:421-433 | every live record has a fresh upsert entry, every other entry and table is as it was |
| StoreOutcomes.ProjectShows | sidecar/cyberforge_sidecar/storage.py:838-865 | the index is shown the record's labels, title, summary, tags and times, and its metadata cut to 12000 |
| StoreInvariant.PutIsReadable | sidecar/cyberforge_sidecar/storage.py:308-310 | a record just put reads back as the put returned it if and only if its type, label and status fit their columns |
| StoreInvariant.UnreadableType | sidecar/cyberforge_sidecar/storage.py:310-354 | every put with a type over 96 characters leaves a record that raises when read |
| StoreInvariant.PutKeepsHealthy | sidecar/cyberforge_sidecar/storage.py:324-385 | an indexable put keeps all rows readable, the blind index exact, queue operations right and the audit chain valid |
| StoreInvariant.PutIndexExact | sidecar/cyberforge_sidecar/storage.py:361-368 | after an indexable put, including an overwrite or revival, the blind tokens are exactly those of the live records |
| StoreInvariant.PutHealthyExactly | sidecar/cyberforge_sidecar/storage.py:310-368 | a put keeps the store healthy if and only if its type fits and cutting label and status changes no token hash |
| StoreInvariant.PutAudited | sidecar/cyberforge_sidecar/storage.py:378-384 | whatever is put, the chain goes on verifying and gains exactly the put's event |
| StoreInvariant.DeleteKeepsHealthy | sidecar/cyberforge_sidecar/storage.py:557-582 | a delete keeps the same four properties |
| StoreInvariant.DeleteIndexExact | sidecar/cyberforge_sidecar/storage.py:571 | after a delete the blind tokens are exactly those of the remaining live records |
| StoreInvariant.RebuildKeepsHealthy | sidecar/cyberforge_sidecar/memory_governance.py:421-433 | re-queueing everything keeps the store healthy |
| Coordinator.SearchIndex.Upsert | sidecar/cyberforge_sidecar/storage.py:832-867 | delete, then insert: whatever fails in between, only this record's object can change, and success means the insert found no survivor |
| Coordinator.StorageCoordinator.Put | sidecar/cyberforge_sidecar/storage.py:950-962 | the store's put, one attempt at the index, and the entry settled by its outcome: gone, with the record's projection in the index, exactly when nothing was in the way, the insert was applied and the entry was marked; otherwise a fresh upsert, with one failed attempt if the index was tried; no other object or entry changes |
| Coordinator.StorageCoordinator.DeleteRecord | sidecar/cyberforge_sidecar/storage.py:1094-1102 | of a live record with the index connected: neither entry nor object is left when the removal was applied and marked; otherwise a delete with one failed attempt is queued; not connected, an untried delete is queued and the objects are untouched; no other object or entry changes, and nothing at all for a record that is not live or a locked vault |
| Coordinator.StorageCoordinator.Sync | sidecar/cyberforge_sidecar/storage.py:964-984 | the batch of oldest entries is tried one by one; the counts returned are those that left the queue and those that did not |
| Coordinator.StorageCoordinator.SyncItem | sidecar/cyberforge_sidecar/storage.py:972-983 | one queued operation: a delete removes the object, an upsert replaces it with the record's projection; the entry goes when the item is synced and counts one more failed attempt when not, keeping its operation and age; no other object, entry or table changes |
| Coherence.SettleKeepsCoherent | sidecar/cyberforge_sidecar/storage.py:955-962 | a call may do anything to the index objects of a queued record, provided it leaves the queue only when the index mirrors it |
| Coherence.UpsertTouchesOnly | sidecar/cyberforge_sidecar/storage.py:832-867 | an upsert that succeeds leaves exactly the projection it was given, and one that fails disturbs no other object |
| Coherence.SyncBatchKeepsCoherent | sidecar/cyberforge_sidecar/storage.py:964-984 | a whole sync with any faults keeps coherence and changes no queue entry outside its batch |
| Coherence.StepKeepsCoherent | sidecar/cyberforge_sidecar/storage.py:950-1102 | every delete, rebuild and sync, and every put that keeps to the condition, keeps the store healthy and the index coherent |
| Coherence.EveryRunIsCoherent | sidecar/cyberforge_sidecar/storage.py:938-1102 | over every run from empty with any faults: an unqueued record has its projection in the index if live and nothing if deleted, nothing unknown is indexed, queued operations are `delete` exactly for deleted records, all records read, the audit chain verifies, as long as every put keeps to the condition |
| Coherence.CoherentRunsExactly | sidecar/cyberforge_sidecar/storage.py:938-1102 | all states of a run are coherent if and only if every put in it is indexable, and fits its columns whenever it leaves the queue at once |
| Coherence.FittingIsTolerated | sidecar/cyberforge_sidecar/storage.py:350-354 | a request that fits its columns meets that condition in every state |
| Coherence.EveryRunAudits | sidecar/cyberforge_sidecar/storage.py:402-433 | over every run, with no condition on the puts, the audit chain verifies and tells exactly the puts and deletes that happened, in order |
| Drain.CleanSyncShrinks | sidecar/cyberforge_sidecar/storage.py:964-984 | a sync without failures shrinks the queue by exactly min(limit, size) and changes no other table |
| Drain.CleanBatchDrains | sidecar/cyberforge_sidecar/storage.py:972-983 | a batch without failures removes exactly its own entries |
| Drain.DrainedIsProjected | sidecar/cyberforge_sidecar/storage.py:584-597 | with an empty queue the index is exactly the map of the live records' projections |
| Drain.RebuildAndDrain | sidecar/cyberforge_sidecar/memory_governance.py:406-441 | from an empty index, a rebuild and at least queue/limit clean syncs, rounded up, empty the queue and leave exactly the live records' projections, the other tables untouched |
| Drain.Recover | sidecar/cyberforge_sidecar/memory_governance.py:406-441 | run on the coordinator itself: from a lost index, a rebuild and exactly as many clean syncs as the queue needs leave the live records' projections and an empty queue |
| BlindSearch.Search | sidecar/cyberforge_sidecar/storage.py:500-533 | in a healthy store the blind search returns the first hits of a plain scan of decrypted live records, which are those `ScanFinds` spells out |
| BlindSearch.BlindEqualsPlain | sidecar/cyberforge_sidecar/storage.py:512-522 | the number of matching token hashes of a live record is the number of query tokens its clear text contains |
| BlindSearch.RankedAlike | sidecar/cyberforge_sidecar/storage.py:512-526 | ranking by hash counts is a ranking by plain counts |
| BlindSearch.ScanFinds | sidecar/cyberforge_sidecar/storage.py:514-533 | spelled out: distinct live records of the type asked for that share a word, by shared words then recency, each with its share of the query; one is left out only when the limit is reached, and outranks none that is in |
| BlindSearch.FoundByWordsOf | sidecar/cyberforge_sidecar/storage.py:312-322 | a record is found by exactly the words of its type, its two labels, its title, summary and tags and its metadata text |
| Retrieval.TemporalNeighbors | sidecar/cyberforge_sidecar/storage.py:535-555 | the live records created just before and after a live record, at most ten on each side, without it |
| Retrieval.AddLexical | sidecar/cyberforge_sidecar/storage.py:1016-1020 | every lexical hit becomes a candidate and earns its reciprocal-rank share |
| Retrieval.AddIndexed | sidecar/cyberforge_sidecar/storage.py:1021-1029 | index hits earn their shares even when stale, and only live records become candidates |
| Retrieval.Expand | sidecar/cyberforge_sidecar/storage.py:1031-1041 | the temporal neighbours of the first candidates, and no others, are added, each appearance with its nudge |
| RetrievalLaws.NeighborsAreNearest | sidecar/cyberforge_sidecar/storage.py:535-555 | the temporal neighbours are live, at most ten on each side, none skipped that was created strictly between one of them and the record asked about, and a record left out has as many of them on its side as were asked for |
| RetrievalLaws.CandidatesAre | sidecar/cyberforge_sidecar/storage.py:1014-1041 | candidates are exactly the blind hits, the live records the index named, and the neighbours |
| RetrievalLaws.BetterRankEarnsMore | sidecar/cyberforge_sidecar/storage.py:1016-1024 | a better rank earns strictly more |
| RetrievalLaws.FusedEarns | sidecar/cyberforge_sidecar/storage.py:1016-1041 | a blind hit earns one over k plus its rank in each list that has it and 0.15 over k + 1 for each appearance as a neighbour |
| Diversity.Scene.Best | sidecar/cyberforge_sidecar/storage.py:1051-1062 | the pick maximises relevance minus similarity, ties going to the higher fused score |
| Diversity.Scene.Select | sidecar/cyberforge_sidecar/storage.py:1048-1064 | distinct picks, min(max(1, min(50, limit)), candidates) of them, each best against the earlier picks among what is left |
| RetrievalLaws.SimilarityIsLargest | sidecar/cyberforge_sidecar/storage.py:1057-1060 | the similarity is the largest cosine with an earlier pick |
| RetrievalLaws.PickNeverRaises | sidecar/cyberforge_sidecar/storage.py:1051-1061 | a further pick never raises a value |
| RetrievalLaws.FirstPick | sidecar/cyberforge_sidecar/storage.py:1051-1061 | the first pick lowers the value of exactly what resembles it and raises that of exactly what points away |
| RetrievalLaws.RelevanceDecides | sidecar/cyberforge_sidecar/storage.py:1051-1061 | of two records that resemble the picks alike, the one with more score and closeness to the query is worth more |
| RetrievalLaws.CosineNext | sidecar/cyberforge_sidecar/storage.py:104-105 | the cosine is the sum of the products of matching entries |
| Diversity.Retrieve | sidecar/cyberforge_sidecar/storage.py:986-1073 | the answer is distinct live records, greedily picked from exactly the blind hits, the live index hits and the neighbours of the first of those, with the fused scores, whatever the index answered |
| AuditChain.Verify | sidecar/cyberforge_sidecar/memory_governance.py:168-199 | on any table every row counted is vouched for by its own decrypted event: operation and record id are the event's, its predecessor is the hash before it, its hash is that of this hash and the event; the first row that is not ends the walk, and the count is the length of the longest valid prefix; it raises exactly when that row holds a hash outside ASCII where it is compared |
| AuditChain.RewritingFound | sidecar/cyberforge_sidecar/memory_governance.py:168-199 | rewriting the record id, the operation or the predecessor (to other ASCII text) of row i of a table that verifies gives count i and failure at i |
| AuditChain.RemovalFound | sidecar/cyberforge_sidecar/memory_governance.py:168-199 | so does cutting row i out of the middle, unless it hashed to the hash before it |
| AuditChain.LongestPrefix | sidecar/cyberforge_sidecar/memory_governance.py:170-199 | stopping at the first row that does not link finds every valid prefix |
| AuditChain.AppendKeepsValid | sidecar/cyberforge_sidecar/storage.py:402-433 | what the writer appends to a chain that verifies verifies, and adds exactly its event |
| AuditChain.HeadPinsHistory | sidecar/cyberforge_sidecar/memory_governance.py:168-187 | two verifying chains with the same head carry the same events, or a row of one and a row of the other hash different texts to one value, or a row hashes to the genesis value |
| AuditChain.HistoryPinsHead | sidecar/cyberforge_sidecar/memory_governance.py:168-187 | the converse: verifying chains with the same events have the same head |
| Retention.RetentionPolicy | sidecar/cyberforge_sidecar/memory_governance.py:74-84 | the loop over the overrides computes the value-level policy the results below are about |
| Retention.LastOverrideCounts | sidecar/cyberforge_sidecar/memory_governance.py:79-83 | the last override for a stripped and cut record type is its period, brought into 1 to 36500 |
| Retention.OthersByDefault | sidecar/cyberforge_sidecar/memory_governance.py:75-83 | a type without an override has its built-in period; the default is the environment's, brought into 1 to 36500, or 365 |
| Retention.PolicyInRange | sidecar/cyberforge_sidecar/memory_governance.py:74-84 | every period lies between 1 and 36500 days |
| Retention.MakePlan | sidecar/cyberforge_sidecar/memory_governance.py:227-268 | of the live records that read, exactly those are held that a hold tag (whatever its case and the blanks around it), one of four flags, or a date unreadable or still to come protects, and exactly the others are planned whose last change is as many days back as their type is kept; oldest first, each once |
| Retention.HeldIsProtected | sidecar/cyberforge_sidecar/memory_governance.py:87-103 | the hold test of the code is that protection |
| Retention.PlansSpareTheYoung | sidecar/cyberforge_sidecar/memory_governance.py:236-255 | whatever the settings, nothing younger than a day is planned, and everything not held is once it is 36500 days old |
| RetentionEffects.Apply | sidecar/cyberforge_sidecar/memory_governance.py:271-305 | with the confirmation, each planned record is deleted in turn and reported deleted or failed; a protected or younger record keeps its row as it is, and every other that reads is marked deleted unless its deletion is reported failed; without the confirmation nothing changes |
| RetentionEffects.OneEventEach | sidecar/cyberforge_sidecar/memory_governance.py:289-296 | the audit chain still verifies and gained exactly one delete event per candidate, in order |
| RetentionEffects.HeldSurvive | sidecar/cyberforge_sidecar/memory_governance.py:87-103 | a held record is live and unchanged afterwards |
| RetentionEffects.ReplanIsEmpty | sidecar/cyberforge_sidecar/memory_governance.py:227-305 | planning again at the same clocks yields no candidate |
| RetentionEffects.PreservedSurvives | sidecar/cyberforge_sidecar/memory_governance.py:87-103 | a record with a hold tag or one of the four flags survives any run of puts, deletes and retentions that does not overwrite or delete it by id |
| RetentionEffects.DeletionsKeepHealthy | sidecar/cyberforge_sidecar/memory_governance.py:289-296 | the deletions keep the store healthy |
| Compaction.CreateCompaction | sidecar/cyberforge_sidecar/memory_governance.py:444-512 | it succeeds exactly for 1 to 200 distinct live sources (given readable records and an open vault); then there is one new row and every other row is untouched, naming the sources in payload and metadata with their stored digests, held from retention, and it reads back |
| Compaction.RequestIndexes | sidecar/cyberforge_sidecar/memory_governance.py:462-512 | the stored compaction names every source in payload and metadata, holds every source's stored digest, and carries the hold |
| Compaction.EntriesTell | sidecar/cyberforge_sidecar/memory_governance.py:479-491 | the payload has one entry for each source, in order, with its id, type, labels, title, summary, time and stored digest |
| Distances.WithinGrows | sidecar/cyberforge_sidecar/memory_governance.py:360-389 | looking further never loses an id |
| Distances.DistanceUnique | sidecar/cyberforge_sidecar/memory_governance.py:364-374 | an id has one distance, so a reported depth that is a distance is the distance |
| Provenance.ProvenanceGraph | sidecar/cyberforge_sidecar/memory_governance.py:338-403 | the nodes are the first of the order in which records are named layer by layer, as many as the node cap allows, each with its true undirected distance, nearest first; all nodes within the depth unless truncated, and then none skipped is nearer than one reported; something is missing exactly when more lies within the depth than the node cap, and the flag is set exactly then or when the cap is just filled and the last naming is a repeat; edges without repeats and exactly the references at nodes above the cap |
| Provenance.FlagMeans | sidecar/cyberforge_sidecar/memory_governance.py:360-398 | something is missing if and only if more ids lie within the depth cap than the node cap; the flag is set if and only if that is so, or the two numbers are equal and the last naming within the depth is a repeat |
| Provenance.FilledIsFlagged | sidecar/cyberforge_sidecar/memory_governance.py:360-398 | in particular a component of two or more that just fills the node cap, with nothing at the depth cap itself, is always flagged though nothing is missing |
| Provenance.NamesDecide | sidecar/cyberforge_sidecar/memory_governance.py:380-391 | with a record at the depth cap the names decide: exchanging the names of two records turns the flag while nothing is missing either way |
| Provenance.TwoRecords | sidecar/cyberforge_sidecar/memory_governance.py:360-398 | one record citing another, node cap two: both are reported, nothing is missing, and the flag is set |
| ProvenanceWalk.WalkGraph | sidecar/cyberforge_sidecar/memory_governance.py:360-389 | the queue loop with duplicate entries ends, within the node cap, in a sound walk |
| ProvenanceWalk.Complete | sidecar/cyberforge_sidecar/memory_governance.py:360-389 | a walk that empties its queue has visited exactly the ids within the depth |
| ProvenanceWalk.NearestFirst | sidecar/cyberforge_sidecar/memory_governance.py:360-389 | whatever a cut-off walk has not reached is no nearer than what it reported |
| ProvenanceWalk.Progress | sidecar/cyberforge_sidecar/memory_governance.py:360-374 | visiting a new id shrinks what is unvisited, so the loop ends although the queue grows |
| ProvenanceWalk.ReportIsTraced | sidecar/cyberforge_sidecar/memory_governance.py:371-391 | reporting a node keeps the nodes the first namings among the entries popped and the queue the rest of the entries pushed |
| ProvenanceOrder.NodesFollowOrder | sidecar/cyberforge_sidecar/memory_governance.py:371-391 | wherever the walk is cut off, its nodes are a prefix of the order defined layer by layer without a queue, and all of it when nothing is missing |
| ProvenanceOrder.OrderIsWithin | sidecar/cyberforge_sidecar/memory_governance.py:360-391 | that order lists the ids within the depth, each once |
| ProvenanceOrder.FilledRepeats | sidecar/cyberforge_sidecar/memory_governance.py:380-391 | when one link more finds nothing new, the last naming is a repeat, because links are followed from both ends |
| Sorting.SortedAscends | sidecar/cyberforge_sidecar/memory_governance.py:380-386 | the order of a node's references is ascending and without repeats |
| Provenance.CompactionDeclaresSources | sidecar/cyberforge_sidecar/memory_governance.py:308-335 | the references read from a compaction's metadata include all its sources |
| ReferencePaths.ReferencesAreCited | sidecar/cyberforge_sidecar/memory_governance.py:308-335 | the references of a metadata object are exactly its non-empty strings, at any depth, whose nearest key is one of the eleven or that are values of an object standing under one |
| Scanner.ValidateNormalizes | sidecar/cyberforge_sidecar/scanner.py:224-274 | validation accepts exactly one to the maximum number of surfaces, brings every field into range and links to known surfaces, and changes nothing that is already so |
| Scanner.ValidateClamps | sidecar/cyberforge_sidecar/scanner.py:224-274 | every field is replaced by the nearest number in range, and the links are those of the first 8192 that join two different surfaces, with trust and control so replaced |
| Simulation.Simulate | sidecar/cyberforge_sidecar/scanner.py:316-466 | the loops report one finding for each identifier, whose risk is its pressure after three rounds times its impact (one for each surface when there are no links), in descending risk, and as overall risk the mean of the first twelve |
| RiskFindings.FindingsFollowRounds | sidecar/cyberforge_sidecar/scanner.py:364-366 | with links there is exactly one finding for each identifier: the propagated pressure of its last surface times that surface's impact |
| RiskFindings.FindingsAlone | sidecar/cyberforge_sidecar/scanner.py:340-404 | without links the findings are those of the surfaces on their own |
| RiskFindings.StartOf | sidecar/cyberforge_sidecar/scanner.py:340-361 | the pressures propagation starts from exist and are unique, so the two rows above speak of every packet |
| RiskFindings.EvidenceMoves | sidecar/cyberforge_sidecar/scanner.py:349-358 | how far each field moves the evidence, and where signals stop counting |
| RiskFindings.ImpactIsMean | sidecar/cyberforge_sidecar/scanner.py:360 | the impact of a valid surface is a weighted mean of three of its fields, so its clamp cuts nothing |
| LinkEffects.LinksRaiseFindings | sidecar/cyberforge_sidecar/scanner.py:364-403 | with distinct ids, links change the finding of a surface if and only if one of them, from a known surface, with trust above 0 and control below 1, leads to it and its impact is positive; then they raise it |
| LinkEffects.RaisedExactly | sidecar/cyberforge_sidecar/scanner.py:509-544 | three rounds raise a pressure if and only if such a link feeds it |
| LinkEffects.OneLink | sidecar/cyberforge_sidecar/scanner.py:519-541 | one link leaves the chance that its target stays clear times the misses of three attempts of full, half and third strength, and changes nothing else |
| LinkEffects.OverallIsMean | sidecar/cyberforge_sidecar/scanner.py:466 | the overall risk is the mean of the twelve largest risks, or of all when fewer; the clamp cuts nothing |
| Scanner.SortSorts | sidecar/cyberforge_sidecar/scanner.py:446 | the ranking is all findings in descending risk |
| Propagation.PropagateGraph | sidecar/cyberforge_sidecar/scanner.py:509-544 | the in-place loops compute three synchronous rounds |
| Propagation.RoundsMonotone | sidecar/cyberforge_sidecar/scanner.py:509-544 | pressures stay in [0, 1], never fall below the inputs, and grow with every input and trust and shrink with every link control |
| Propagation.RaiseMonotone | sidecar/cyberforge_sidecar/scanner.py:535-541 | the clamped noisy-or is monotone in both arguments even when an increment exceeds one |
| PropagationShape.OrderIrrelevant | sidecar/cyberforge_sidecar/scanner.py:509-544 | the order of the links does not matter |
| PropagationShape.RoundsLocal | sidecar/cyberforge_sidecar/scanner.py:509-544 | after n rounds a pressure depends only on surfaces at most n links upstream |
| Strengthening.SaferNeverRiskier | sidecar/cyberforge_sidecar/scanner.py:340-466 | surfaces at least as well protected in every field never have a higher overall risk, for any links, even with repeated ids |
| Strengthening.SortBelow | sidecar/cyberforge_sidecar/scanner.py:446 | pointwise smaller risks stay pointwise smaller once both lists are sorted |
| Controls.ActionIsSafer | sidecar/cyberforge_sidecar/research.py:192-209 | each of the four actions leaves a valid packet whose surfaces are all at least as safe |
| Controls.ActionNeverRaisesRisk | sidecar/cyberforge_sidecar/research.py:192-209 | the modelled risk after any action is at most the baseline |
| Controls.CandidatesUnclipped | sidecar/cyberforge_sidecar/research.py:192-226 | for every candidate the clip at zero cuts nothing: the reduction is baseline minus residual; costs are at least 0.1 and there are at most four candidates a hotspot |
| ControlOffers.CandidatesAreGenuine | sidecar/cyberforge_sidecar/research.py:192-226 | every candidate is for the first surface with a listed id: `before` is its field, `after` that field moved by 0.15 the way that helps and clamped, the residual the modelled risk of the packet with that field alone replaced; cost, reduction and efficiency follow |
| ControlOffers.EveryMoveIsOffered | sidecar/cyberforge_sidecar/research.py:192-205 | each listing of a surface brings exactly one candidate for each of the four fields that moves by more than the tolerance, and none for one that does not |
| ControlOffers.RiskOfValid | sidecar/cyberforge_sidecar/research.py:97-107 | the modelled risk of a valid packet is that of its own surfaces and links |
| Controls.HotspotIds | sidecar/cyberforge_sidecar/research.py:110-121 | the first `limit` distinct non-empty ids of the ranking, in ranking order |
| Controls.HotspotsNamed | sidecar/cyberforge_sidecar/research.py:110-121 | the ids it draws on are exactly the non-empty ids of findings, each once |
| Pareto.CandidateControls | sidecar/cyberforge_sidecar/research.py:181-250 | the loops compute the first 24 of the frontier of the candidates, each of them as `CandidatesAreGenuine` says |
| Pareto.EveryMoveIsAnswered | sidecar/cyberforge_sidecar/research.py:192-249 | for every listed surface and field that moves, the frontier has that option or one at least as good in cost and reduction and better in one |
| Pareto.FrontierExact | sidecar/cyberforge_sidecar/research.py:235-249 | the frontier holds each non-dominated candidate as often as it was generated, and no dominated one |
| Pareto.DroppedHasKeptDominator | sidecar/cyberforge_sidecar/research.py:235-248 | every dropped candidate is dominated by one that is kept |
| Pareto.FrontierTrades | sidecar/cyberforge_sidecar/research.py:235-249 | along the frontier cost never falls, and rises exactly where the reduction rises |
| Pareto.ReportedFrontier | sidecar/cyberforge_sidecar/research.py:250 | with at most six hotspots the cut to 24 removes nothing |
| Vault.SecureVault.Create | sidecar/cyberforge_sidecar/vault.py:87-131 | a vault is created once, with a long enough password, empty and unlocked, files and memory agreeing |
| Vault.SecureVault.Lock | sidecar/cyberforge_sidecar/vault.py:175-185 | every key buffer is overwritten with zeros, sessions are dropped, and the files still hold everything |
| Vault.SecureVault.Unlock | sidecar/cyberforge_sidecar/vault.py:133-157 | succeeds exactly with a password deriving the wrapping key, and brings back the same keyring and contents in fresh buffers; a failure changes nothing |
| Vault.SecureVault.UnlockWithDeviceKey | sidecar/cyberforge_sidecar/vault.py:159-173 | the device key opens the same vault |
| Vault.SecureVault.InstallRoot | sidecar/cyberforge_sidecar/vault.py:343-399 | a usable keyring is loaded into fresh separate buffers; an unusable one leaves the vault locked |
| Vault.SecureVault.ValidateSession | sidecar/cyberforge_sidecar/vault.py:187-193 | accepts exactly an unexpired token and extends only it, dropping the expired |
| Vault.SecureVault.ReadRecord | sidecar/cyberforge_sidecar/vault.py:295-302 | the value of whatever is filed under the name's keyed hash, nothing when there is none, an error exactly when locked |
| Vault.SecureVault.WriteRecord | sidecar/cyberforge_sidecar/vault.py:286-293 | the readable map gains this name, in place of any name with its keyed hash, and changes nowhere else |
| Vault.SecureVault.RemoveRecord | sidecar/cyberforge_sidecar/vault.py:304-309 | the readable map loses the names with this keyed hash only |
| Vault.SecureVault.RotateDataKey | sidecar/cyberforge_sidecar/vault.py:230-257 | a completed rotation keeps every readable value and the provider list, leaves one new key, zeroes every old buffer and not the new one, and persists the keyring it uses |
| Vault.SecureVault.EnvelopesNameActiveKey | sidecar/cyberforge_sidecar/vault.py:242-257 | at any time every envelope names the single key of the keyring |
| VaultModel.ReencryptedHolds | sidecar/cyberforge_sidecar/vault.py:241-251 | re-encrypting all records under a new key holds the same values under the same names |
| VaultModel.MovedEnvelopeFails | sidecar/cyberforge_sidecar/vault.py:311-341 | an envelope opens under its own record identifier and key only |
| VaultModel.DiskOpens | sidecar/cyberforge_sidecar/vault.py:133-173 | both wrappings lead to the root key and the keyring, and a password deriving another key leads nowhere |
| VaultRuns.Replay | sidecar/cyberforge_sidecar/vault.py:38-457 | over any sequence of calls the vault's contents are the fold of the writes and removals that succeeded, which are those made while it was open; a password unlocks exactly when it derives the wrapping key, and the index key, salt and password in use never change |
| VaultRuns.ReadsLastWrite | sidecar/cyberforge_sidecar/vault.py:230-309 | after any run a name reads as the last successful write under its keyed hash, or as nothing if the last to touch it was a removal |
| VaultRuns.UntouchedReads | sidecar/cyberforge_sidecar/vault.py:230-309 | after any run a name whose keyed hash no write or removal touched reads as it did |
| VaultModel.ReadsItself | sidecar/cyberforge_sidecar/vault.py:295-318 | unless its keyed hash is that of another name held, a name reads as itself, and a write or removal displaces nothing else |
| VaultRuns.SessionsSlide | sidecar/cyberforge_sidecar/vault.py:187-193 | a token is alive exactly when less than the time-to-live has passed since its last use in time, whatever other tokens did |
| PromptChain.SimulatePromptChain | sidecar/cyberforge_sidecar/phishing_rod.py:236-262 | on any chain each node's taint is the greatest worth of a parent path ending in it, and at most 0.72, so the clamp cuts nothing; in numbers, it is the larger of what the node adds (0.72 for an injection, 0.24 for a tool request, 0.35 of that when sanitized, nothing from the controller) and the 0.82, 0.45 or 0.25 it lets through of its most tainted parent |
| PromptChain.BestBalances | sidecar/cyberforge_sidecar/phishing_rod.py:246-259 | best paths balance in that way at every node |
| PromptChain.ParentIsLatest | sidecar/cyberforge_sidecar/phishing_rod.py:244-246 | a parent is the latest earlier node with an identifier the node names |
| PromptChain.StepIsBest | sidecar/cyberforge_sidecar/phishing_rod.py:247-259 | mixing own and inherited taint extends best paths to best paths |
| PromptChain.TamingNeverRaises | sidecar/cyberforge_sidecar/phishing_rod.py:252-258 | a chain whose nodes contribute and let through no more has nowhere more taint |
| PromptChain.TrustOrder | sidecar/cyberforge_sidecar/phishing_rod.py:252-258 | controller, sanitized and untrusted are such an order |
| PromptChain.TaintFades | sidecar/cyberforge_sidecar/phishing_rod.py:252-258 | a path of n hops is worth at most 0.72 times 0.82 to the n |
| PhishingRod.CollectSignals | sidecar/cyberforge_sidecar/phishing_rod.py:110-155 | the page's signals in order, then those of the first 32 forms |
| PhishingRod.DeterministicRisk | sidecar/cyberforge_sidecar/phishing_rod.py:158-162 | the loop computes one minus the product of the misses, inside [0, 1] |
| PhishingRod.MoreSignalsMoreRisk | sidecar/cyberforge_sidecar/phishing_rod.py:158-162 | further signals, in any order, never lower the rule risk |
| PhishingRod.Analyze | sidecar/cyberforge_sidecar/phishing_rod.py:183-202 | the loops over the packet compute the value-level decision (both verdicts, confidence, score, pause, review flag) on its collected signals that the results below are about |
| PhishingVerdicts.SignalsCharged | sidecar/cyberforge_sidecar/phishing_rod.py:110-155 | the signals of a page, with their weights, are exactly those of what was found on it and in its first 32 forms |
| PhishingVerdicts.RiskOfPage | sidecar/cyberforge_sidecar/phishing_rod.py:110-162 | its rule risk in numbers: each thing found leaves its share of the chance that the page is harmless, once for the page and once for each of the first 32 forms |
| PhishingVerdicts.WhenEachVerdict | sidecar/cyberforge_sidecar/phishing_rod.py:183-200 | phishing exactly for a settling code, an accusation with an independent signal or a score of 0.86; safe exactly when not that, rule risk is below 0.18 and the model clears the page or none was asked; review, and only then the review flag, otherwise |
| PhishingVerdicts.WhatIsShown | sidecar/cyberforge_sidecar/phishing_rod.py:201-216 | a page in review that asks for secrets is shown as phishing, and the page freezes exactly when phishing is shown |
| PhishingVerdicts.ScoreAndConfidence | sidecar/cyberforge_sidecar/phishing_rod.py:196-212 | the score is the rule risk, raised by an accusation by 0.55 of its confidence of what is missing; the confidence is the score, or the model's when it agrees and is surer |
| PhishingRod.MoreSignalsNeverSoften | sidecar/cyberforge_sidecar/phishing_rod.py:188-218 | for a fixed opinion, further signals never move the verdict or the visible verdict down, lower the score or lift the pause |
| PhishingRod.DecisionBounded | sidecar/cyberforge_sidecar/phishing_rod.py:197-212 | score and confidence lie in [0, 1], and the confidence is never below the score |
| PhishingRod.WhenAccusable | sidecar/cyberforge_sidecar/phishing_rod.py:188-200 | some opinion yields a phishing verdict if and only if a conclusive code, a signal of weight 0.3 or rule risk of 31/45 is there |
| PhishingRod.WhenOpinionDecides | sidecar/cyberforge_sidecar/phishing_rod.py:188-202 | the exact signals for which one opinion freezes the page and another does not |
| PhishingRod.OpinionWithoutEvidence | sidecar/cyberforge_sidecar/phishing_rod.py:183-202 | on a page without an independent signal the opinion decides exactly when a password or card field is there and rule risk is below 0.18 |
| PhishingRod.OpinionFreezesAlone | sidecar/cyberforge_sidecar/phishing_rod.py:183-202 | the documented rule fails: a single password field, frozen by an accusation and free without a classifier |
| PhishingRod.OpinionAccusesAlone | sidecar/cyberforge_sidecar/phishing_rod.py:183-202 | six password-and-card forms: a phishing verdict by the opinion alone, with no independent signal |
| StreamFraming.Disk.EncryptStream | sidecar/cyberforge_sidecar/crypto.py:127-156 | for every chunk size the destination is header, nonce, ciphertext and tag of the whole source; a missing source changes no file |
| StreamFraming.Disk.DecryptStream | sidecar/cyberforge_sidecar/crypto.py:159-200 | the reader consumes exactly the ciphertext, its early-end branch is never taken, and unless the tag is right no file changes |
| StreamFraming.Disk.DecryptFile | sidecar/cyberforge_sidecar/crypto.py:207-220 | wrong magic, truncation and a wrong tag are errors that leave every file as it was |
| StreamFraming.EncryptThenDecrypt | sidecar/cyberforge_sidecar/crypto.py:127-220 | encrypting with one chunk size and decrypting with another restores the file, and only the two destinations change |
| StreamFraming.Gcm.RoundTrip | sidecar/cyberforge_sidecar/crypto.py:203-220 | opening a sealed file gives the plaintext back; a sealed file is 29 + 12 + length + 16 bytes |
| StreamFraming.Gcm.OpensOnlySealed | sidecar/cyberforge_sidecar/crypto.py:159-220 | a file that opens is the sealed form of what it opens to |
| StreamFraming.Gcm.BytesSealed | sidecar/cyberforge_sidecar/crypto.py:127-156 | byte by byte: header, nonce, each plaintext byte combined with the key stream at its own place, and the tag of what is written |
| StreamFraming.PackingExact | sidecar/cyberforge_sidecar/crypto.py:295-336 | unpacking a recovery key accepts exactly the packed pairs with a 32-byte second key, and returns them |
| AttackSurface.AttackSurfaceGraph.constructor | lib/src/engine/attack_surface_graph.dart:4-16 | outgoing lists are the edges by source in scenario order; of assets with one id the last is kept |
| AttackSurface.AttackSurfaceGraph.Reachable | lib/src/engine/attack_surface_graph.dart:18-32 | without repeats exactly the ids other than the start within the depth, nearest first; also for a depth of zero or less |
| AttackSurface.ReachedAtDistance | lib/src/engine/attack_surface_graph.dart:18-32 | those are the ids at directed distance one to the depth |
| AttackSurface.MoreReachesMore | lib/src/engine/attack_surface_graph.dart:18-32 | a greater depth and added edges only reach more |
| AttackSurface.AttackSurfaceGraph.BlastRadius | lib/src/engine/attack_surface_graph.dart:34-42 | the mean criticality of the reached set, however it is listed, in [0, 1]; the clamp cuts nothing for criticalities in range |
| AttackSurface.WeightOfSet | lib/src/engine/attack_surface_graph.dart:37-39 | the sum depends on the set of ids and not on the order they were found in |
| AttackSurface.MeanWithin | lib/src/engine/attack_surface_graph.dart:34-42 | the radius lies between the least and the greatest criticality reached, an id without an asset counting a half |
| AttackSurface.OneCounts | lib/src/engine/attack_surface_graph.dart:37-39 | the criticality of each asset reached counts in full, once |
| Tally.Tallies.Run | lib/src/engine/simulation_engine.dart:96-186 | the nested loops count exactly the hits of every iteration's draws, in order; it fails exactly for iteration counts outside 500 to 100000 and for an asset with a vector the last asset of its id has no prior for |
| Tally.Tallies.Conserved | lib/src/engine/simulation_engine.dart:44-186 | at any moment findings, hours and locations sum to the same number of hits |
| TallyLaws.DrawsOfScenario | lib/src/engine/simulation_engine.dart:96-182 | an iteration draws exactly the threats of its kind for every asset, its own for every link between known assets (at the last asset with the target's id) and the four human ones for every human, each counted where its subject is |
| TallyLaws.TablesCount | lib/src/engine/simulation_engine.dart:96-186 | after a run a finding counts exactly the draws for it that fired, an hour those of iterations of that hour, a location those of subjects there |
| Tally.TotalIsLength | lib/src/engine/simulation_engine.dart:106-186 | a table of counts adds up to the number of things counted |
| Tally.HitsBounded | lib/src/engine/simulation_engine.dart:96-195 | no finding exceeds the iterations under any draws if and only if no two draws of an iteration share a finding key |
| TallyKeys.KeysDistinctExactly | lib/src/engine/simulation_engine.dart:448-467 | the keys are distinct if and only if asset ids, human ids and links do not repeat, no asset is named like a human, and no link from an asset with an empty id hits a vector its target is drawn for |
| TallyKeys.HitsBoundedExactly | lib/src/engine/simulation_engine.dart:96-195 | under every draw no finding exceeds the iterations if and only if the scenario meets that condition |
| TallyKeys.HitsExceed | lib/src/engine/simulation_engine.dart:131-143 | two scenarios, a nameless asset linked to itself and a repeated link, in which draws exist that hit a finding more often than there are iterations |
| TallyKeys.SeparateIsPriced | lib/src/engine/simulation_engine.dart:51-99 | with distinct asset ids no prior is missing |
| TallyKeys.ProbabilityNeedsNoClamp | lib/src/engine/simulation_engine.dart:190-192 | in such a scenario the reported probability needs no clamp |

## Left out

- Interleaved coordinator calls, threads and async scheduling: `mark_synced` is unconditional, so a put between a sync's read and its mark can lose its queue entry; the coherence theorem is about calls that run one after another.
- SQLite, files, permissions, fsync, the Weaviate transport, its CRUD sentinel and connection modes: a transaction is one step and the index is a fallible map. `mark_sync_failed` itself is assumed not to raise.
- Coherence.EveryRunIsCoherent: commands are coordinator puts and deletes, rebuilds and syncs; a retention run's deletions go to the store without touching the index and are delete commands whose index is not reachable.
- AuditChain.Verify: a cut-off tail is not detected and the `created_at` column is not authenticated, because the verifier accepts every prefix and does not look at that column; a rewritten event hash, nonce or ciphertext is only found if it does not open as another fitting event, which nothing is assumed about.
- Vault.SecureVault.RotateDataKey: claims completed rotations only; crash points inside a rotation and rotations that raise midway are out, since the records file is replaced before the keyring is persisted. It takes the answer of `ValidateSession` as a parameter.
- The vault's thin wrappers `set_secret`, `get_secret`, `set_json`, `get_json` and the environment import: a name prefix and a size check around the record operations.
- Provenance.ProvenanceGraph: `edge_keys` is the edge list itself, and nothing is claimed about the order of the edges.
- Retrieval.TemporalNeighbors: neighbours are not filtered by record type, as in the code; nothing is claimed about the type of an expanded result.
- Scanner.ValidateNormalizes: authorisation, the intent filter, defaults for absent fields, the world count and the seed are left out; fields are numbers already.
- Simulation.Simulate: dimension and hour scores, hotspots, timeline, sampled worlds, quantiles, confidences and the impact estimate do not enter overall risk and are left out.
- Propagation.PropagateGraph: the attack paths it also reports, texts built in the first round, are left out.
- PromptChain.SimulatePromptChain: the five-digit rounding of reported taints and the control texts chosen from them are left out.
- PhishingRod.CollectSignals: the URL, host and text patterns are booleans of the packet, and the texts and source names of signals are left out, since only the test for a model's signal reads them.
- PhishingRod.Analyze: the evidence digest, six-digit rounding and texts of the decision are left out.
- StreamFraming.Disk.EncryptStream: failing reads and writes other than a missing source are left out; the nonce is a parameter.
- Tally.Tallies.Run: authorisation, priors, jitter and the summed impacts are left out; which draws fire is arbitrary.
- AES, GCM, Argon2, HKDF, HMAC, SHA-3, Ed25519 and ML-KEM internals, random sampling, floating-point rounding and output rounding.
- Provider clients, local models, prompts, council votes, reports and their signatures, news, FastAPI routes, the browser extension, `risk_engine.dart` and the Flutter interface: input, output and text, or easier forms of the bounds above.
