# GeDefense core: verified models

Models and proofs, in Dafny 4.11, of the stateful core of the GeDefense Windows
service. `dafny verify dfyconfig.toml` checks all of it.

Seven parts of the service are modelled. What can fail around them (file writes,
controller calls, clocks, map iteration order) is an arbitrary answer or a
parameter, so each theorem holds for every pattern of failures.

- **Evidence ledger** (`Evidence*.dfy`). The MAC chain over a live file and its
  archives. `EvidenceDisk` has one step per durable file operation, so a stop may
  fall between any two; `EvidenceAnchor` and `EvidenceTail` say over whole runs when a
  ledger reopens and which truncations are detected, and `EvidenceRuns` builds runs
  that fail. `EvidenceLedger` is the ledger object; every write it makes is such a
  step. `EvidenceClient` is a loop of appends, which the source does not have, to say
  what many appends keep. HMAC is an arbitrary function, injective where a theorem says so.
- **Geo resolver** (`GeoTables`, `RingCache`, `GeoResolver`). Prefix tables against
  the longest-prefix answer, and the shared cache under concurrent reloads.
- **Kinetic monitor** (`KineticConfig`, `KineticHistory`, `KineticMonitor`). 32-slot
  rings against an observer that forgets nothing.
- **Kinetic arming** (`KineticArming`, `KineticRequests`, `KineticEngine`,
  `KineticSections`, `KineticOverlaps`). Persisted intent, effective arming, grace period,
  auto-disarm and restart; first as whole calls, then in the sections in which the code
  interleaves them. `KineticRequests` says in times, live facts and write outcomes alone
  when arming begins and ends.
- **Protection mode** (`ProtectionMode`, `ProtectionOutcomes`, `PolicyEngine`). The mode
  transaction with its rollback; `ProtectionOutcomes` says when each call succeeds in the
  answers given to that call.
- **Text algorithms** (`Wildcard`, `CommandLine`, `Literals`, `LiteralMeaning`,
  `BehaviorText`, `BehaviorMeaning`) and the bounded de-duplication (`Dedupe`).
- **Snapshot comparison** (`SnapshotDiff`, `SnapshotCompare`). 256 buckets against
  one global difference.

Where the code does not meet the plain property, the model follows the code, a lemma
gives a failing input, and the exact condition is proved:

- A ledger whose history was pruned reopens if and only if its anchor is still among
  the loaded checkpoints (`ReopensIffAnchorKept`). Moving a full store aside loses it
  (`ReachableRejectedLedger`).
- Removing 256 or more newest records is accepted if and only if the newest loaded
  checkpoint lags so far (`TruncatableIffLagging`). The checkpoints cover the tip if
  and only if none is owed (`CoveredIffPaid`). An append that is durable but reported
  as failed owes one without any failed checkpoint write (`SkippedCheckpointLags`), and
  an unacknowledged checkpoint line can make the whole store unreadable
  (`UnseenLineLags`).
- The glob matcher compares literally before it looks for `*`. It is right on all
  patterns if and only if the value has no `*` before its last character
  (`CorrectForAllPatternsIff`, `StarExeRejectsStarred`). The comment above it claims
  linear time; that is not claimed here.
- Port diversity is measured over the newest 32 samples only. The decision is right for
  all histories with n samples in the window if and only if n is at most 32
  (`RecentIsEnoughIff`, `Diverges`).
- With whole calls, a restart has another intent than the operator gave last if and only
  if a disarm of a stored intent could not be written (`RestartKeepsIntent`,
  `UnwrittenIffDisarmFailed`).
- The calls that change policy, intent and arming share no lock. Overlaps can part memory
  and file (`IntentIsParted`, `PolicyIsParted`, `DisarmIsRevived`) or memory and monitor
  (`MonitorIsParted`), and arm an engine that is no longer confirmed (`ArmsUnconfirmed`).
  `AgreementIff` and `CommitConfirmedIff` say exactly when they do, and if no two calls
  overlap nothing parts (`AloneIsConsistent`).
- VERIFIED health in sovereign mode does not imply the kernel flag; a status answer may
  contradict it (`VerifiedKernelIff`, `VerifiedWithoutKernel`).
- Setting the protection mode that is already in memory succeeds without repairing
  file or protection (`SuccessHoldsIff`, `SilentSuccessReached`).

## Model

| member | source | states |
|---|---|---|
| `EvidenceChain.SameTipSameRecords` | src/GeDefense/windows/internal/evidence/ledger.go:597-728 | Under an injective MAC, two ledgers that verification accepts with the same tip sequence and tip MAC hold the same record at every sequence both retain, however each is split over live file and archives. |
| `EvidenceChain.ChainsAgree` | src/GeDefense/windows/internal/evidence/ledger.go:706-728 | The same for two linked chains with different starting points: walking back from a common tip MAC, each record fixes its predecessor. |
| `EvidenceChain.AcceptedStartIsAnchored` | src/GeDefense/windows/internal/evidence/ledger.go:681-704 | An accepted ledger starts at record 1 with no predecessor, or its first record continues exactly the MAC that the newest signed anchor for its oldest archive names. |
| `EvidenceChain.OneMoreRecord` | src/GeDefense/windows/internal/evidence/ledger.go:706-728 | An accepted ledger accepts one more record if and only if it has the next sequence, continues the tip's MAC and is authentic. |
| `EvidenceChain.OneMoreCheckpoint` | src/GeDefense/windows/internal/evidence/ledger.go:670-704 | An accepted ledger accepts one more checkpoint if and only if it is not past the tip, names no other MAC than the chain or an earlier checkpoint has there, and is no anchor for another start. |
| `EvidenceChain.OneMoreArchive` | src/GeDefense/windows/internal/evidence/ledger.go:609-636 | Moving an accepted ledger's live records to an archive is accepted if and only if its name says exactly which sequences it holds. |
| `EvidenceVerify.VerifyFiles` | src/GeDefense/windows/internal/evidence/ledger.go:597-679 | The verification loops accept exactly the files that satisfy the independent definition `Accepted` (retention start, contiguous archive names, MAC links, checkpoints agreeing with the chain), and return that chain's tip. |
| `EvidenceVerify.ScanFile` | src/GeDefense/windows/internal/evidence/ledger.go:604-654 | Scanning one file accepts exactly the linked files and leaves the table of MACs that later checkpoint comparison needs. |
| `EvidenceVerify.WalkOne` | src/GeDefense/windows/internal/evidence/ledger.go:609-636 | One archive passes exactly if its name continues the range, its records link and its range ends where its name says; otherwise the files are not contiguous or not linked. |
| `EvidenceVerify.FindRetentionStart` | src/GeDefense/windows/internal/evidence/ledger.go:681-704 | The backward anchor search returns the newest retention anchor of the oldest archive, nothing if history was pruned without one, and sequence 1 otherwise. |
| `EvidenceVerify.CompareCheckpoints` | src/GeDefense/windows/internal/evidence/ledger.go:670-678 | The comparison loop fails exactly when some loaded checkpoint is ahead of the chain or disagrees with a MAC at a retained sequence. |
| `EvidenceDisk.RunInvariant` | src/GeDefense/windows/internal/evidence/ledger.go:216-415 | Every file operation of every run keeps the chain linked and contiguous across files, and every stored checkpoint, anchor and witness truthful about the history. |
| `EvidenceDisk.StopAnywhereReopens` | src/GeDefense/windows/internal/evidence/ledger.go:126-415 | Stop after any number of file operations of any run: the files are accepted if and only if they are anchored, with the tip of everything written, and the next append extends that tip. |
| `EvidenceDisk.ReopensIffAnchored` | src/GeDefense/windows/internal/evidence/ledger.go:597-704 | Acceptance of any reachable files is equivalent to a condition on the files alone: nothing was pruned, or the loaded checkpoint store holds the anchor of the oldest archive. |
| `EvidenceAnchor.ReopensIffAnchorKept` | src/GeDefense/windows/internal/evidence/ledger.go:681-905 | In every run the files reopen if and only if nothing was pruned, or since the last prune the checkpoint store was not moved aside, at most 8191 checkpoints followed the anchor, and the store is within its 4 MiB bound. |
| `EvidenceAnchor.NeverPrunedReopens` | src/GeDefense/windows/internal/evidence/ledger.go:681-688 | A ledger that was never pruned reopens, whatever happened to its checkpoint store. |
| `EvidenceAnchor.UnrotatedStaysAnchored` | src/GeDefense/windows/internal/evidence/ledger.go:759-905 | With no store moved aside, fewer than 8192 checkpoints since a prune and none unacknowledged, a ledger reopens. |
| `EvidenceAnchor.StoreIsCounted` | src/GeDefense/windows/internal/evidence/ledger.go:851-895 | The store is larger than what the ledger counted, and so than its bound, by exactly the checkpoint lines that are durable although their write was reported as failed. |
| `EvidenceAnchor.RotatedStoreRejected` | src/GeDefense/windows/internal/evidence/ledger.go:897-905 | Once history was pruned, a store moved aside leaves a ledger that does not reopen after any further operations up to the next prune. |
| `EvidenceRuns.ReachableRejectedLedger` | src/GeDefense/windows/internal/evidence/ledger.go:861-905 | A run that ends in such a ledger with every write succeeding: 10479 records with their tip checkpoints, five archives of 2000 records with their marks, a prune, and one more record, whose 400-byte checkpoint line no longer fits in the store. |
| `EvidenceTail.TailTruncationRejected` | src/GeDefense/windows/internal/evidence/ledger.go:667-679 | Whatever files are put beside the checkpoint store, an accepted chain reaches the newest loaded checkpoint; if no checkpoint is owed and the store is within its bound, a chain shorter by 256 or more records is rejected. |
| `EvidenceTail.TruncationAcceptedIff` | src/GeDefense/windows/internal/evidence/ledger.go:667-679 | A reopenable ledger with its newest records removed is accepted if and only if the cut is not below the newest loaded checkpoint. |
| `EvidenceTail.TruncatableIffLagging` | src/GeDefense/windows/internal/evidence/ledger.go:667-679 | In every run some removal of 256 or more newest records is accepted if and only if the newest loaded checkpoint lags the tip by 256 or more. |
| `EvidenceTail.CoveredIffPaid` | src/GeDefense/windows/internal/evidence/ledger.go:251-261 | In every run the newest checkpoint reaches the last multiple of 256 if and only if none is owed or there are fewer than 256 records; one is owed from a record at such a multiple, or a store moved aside, until the next durable checkpoint. |
| `EvidenceTail.SkippedCheckpointLags` | src/GeDefense/windows/internal/evidence/ledger.go:239-260 | A run without any failed checkpoint write in which any number of newest records can be removed: record 256 is durable but reported as failed, so its checkpoint is skipped, and 255 records follow. |
| `EvidenceTail.UnseenLineLags` | src/GeDefense/windows/internal/evidence/ledger.go:869-884 | A run in which no checkpoint is owed and still any number of newest records can be removed: the checkpoint line of record 10496 is durable but reported as failed, that of record 10752 takes the store past its bound, and it is not loaded. |
| `EvidenceWitness.VerifyWitness` | src/GeDefense/windows/internal/evidence/witness.go:229-300 | Verification passes exactly the tolerated witnesses, and status Verified is set exactly for those confirmed by the tip or by a signed checkpoint; missing or unreachable media degrade without an error. |
| `EvidenceWitness.CheckpointMac` | src/GeDefense/windows/internal/evidence/witness.go:314-322 | The backward search returns the MAC of the newest checkpoint for a sequence and nothing exactly when there is none. |
| `EvidenceWitness.EarlierWitnessTolerated` | src/GeDefense/windows/internal/evidence/witness.go:162-200 | A witness published at any earlier point of the same run is never rejected later. |
| `EvidenceWitness.WitnessToleratedIff` | src/GeDefense/windows/internal/evidence/witness.go:276-299 | At every point of every run a signed witness is rejected if and only if it is ahead of the chain, names no sequence, or differs from what was written at a sequence the ledger remembers (its tip or a loaded checkpoint). |
| `EvidenceWitness.ConfirmedNamesTheRecord` | src/GeDefense/windows/internal/evidence/witness.go:276-300 | On any accepted ledger, Verified means the witness MAC is that of the verified record at its sequence, or of the signed checkpoint once that record was pruned. |
| `EvidenceWitness.WitnessPinsHistory` | src/GeDefense/windows/internal/evidence/witness.go:229-322 | Two accepted ledgers that both confirm one witness they still retain agree on every retained record up to it: history below a witness cannot be rewritten. |
| `EvidenceLines.ReadNewestLines` | src/GeDefense/windows/internal/evidence/ledger.go:1080-1149 | For every content, limit, positive chunk size and bound, the backward chunked scan returns exactly the last `limit` non-empty lines in reverse, and fails exactly when one of those exceeds the bound. |
| `EvidenceLines.CutLines` | src/GeDefense/windows/internal/evidence/ledger.go:1100-1140 | Cutting one chunk keeps the scan's relation between collected lines, carry and unread bytes. |
| `EvidenceLines.NewestLinesAreNewestRecords` | src/GeDefense/windows/internal/evidence/ledger.go:1080-1149 | On a journal of newline-free encodings the newest lines are the encodings of the newest records. |
| `EvidencePaging.NewestRecords` | src/GeDefense/windows/internal/evidence/ledger.go:483-520 | The loop over live file and archives with skip and need counters returns the requested slice of all files read newest first. |
| `EvidencePaging.FilesCoverChain` | src/GeDefense/windows/internal/evidence/ledger.go:483-520 | Reading the files newest first yields the whole retained chain reversed. |
| `EvidencePaging.PageItems` | src/GeDefense/windows/internal/evidence/ledger.go:442-520 | On every reachable ledger page item i has sequence tip - offset - i and the MAC written there, and the page length is min(limit, total - offset). |
| `EvidencePaging.PagesTile` | src/GeDefense/windows/internal/evidence/ledger.go:442-472 | Consecutive pages concatenate to the larger page: no gap, no overlap. |
| `EvidencePaging.PagesCoverHistory` | src/GeDefense/windows/internal/evidence/ledger.go:442-520 | Enough pages of any size concatenate to the whole retained chain reversed. |
| `EvidenceLedger.Ledger.Append` | src/GeDefense/windows/internal/evidence/ledger.go:187-261 | Either exactly the next record of the chain is durable or nothing is; failure implies an I/O fault or an oversized record. A record that still fits touches no archive and is appended to the live file; one that does not fit archives a non-empty live file under its exact range, prunes only oldest archives, and is then alone in a new file. Rotations and multiples of 256 leave their signed checkpoints, and coverage is kept while checkpoint writes succeed. |
| `EvidenceLedger.Ledger.AppendLocked` | src/GeDefense/windows/internal/evidence/ledger.go:216-261 | The same from a refreshed cache, decided by the cached file size. |
| `EvidenceLedger.Ledger.RotateIfFull` | src/GeDefense/windows/internal/evidence/ledger.go:230-234 | The files change if and only if a live file with records would pass its bound; then the whole live file is one archive of its exact range, marked by a checkpoint and pruned to four. |
| `EvidenceClient.AppendAll` | src/GeDefense/windows/internal/evidence/ledger.go:216-261 | A loop of appends of records that all fit the live file as it stands: without a fault every append succeeds, the live file is the old one plus exactly these records, and no archive appears or disappears. |
| `EvidenceClient.WindowKept` | src/GeDefense/windows/internal/evidence/ledger.go:230-234 | So no record leaves the retained window while what is written since the last rotation fits: the retained records are then the old ones followed by the new ones. |
| `EvidenceLedger.Ledger.Refresh` | src/GeDefense/windows/internal/evidence/ledger.go:266-316 | From any state a failed call may leave, success makes the cached tip, size and boundaries describe the files exactly; it fails only on a fault and keeps what later calls rely on. |
| `EvidenceLedger.Ledger.RefreshFromArchives` | src/GeDefense/windows/internal/evidence/ledger.go:325-354 | With no live record the tip is recovered from the newest archive, unless reading it fails. |
| `EvidenceLedger.Ledger.ReloadTip` | src/GeDefense/windows/internal/evidence/ledger.go:293-315 | A changed live file, or the archives if it holds no record, gives the tip again, unless reading fails. |
| `EvidenceLedger.Ledger.Rotate` | src/GeDefense/windows/internal/evidence/ledger.go:359-391 | The history is unchanged and the live file ends up empty; success archives a non-empty live file whole under a name never taken already, removes oldest archives only and, without faults, leaves its checkpoint and at most four archives; a failure changes no file. |
| `EvidenceLedger.Ledger.PruneArchives` | src/GeDefense/windows/internal/evidence/ledger.go:393-415 | What remains is a suffix of the archives, each removed one after its signed anchor, and never below four; without faults at most four remain. |
| `EvidenceLedger.Ledger.PruneOne` | src/GeDefense/windows/internal/evidence/ledger.go:394-414 | Success removes exactly the oldest archive, after a signed anchor for the one that follows; failure removes none; live file and tip are unchanged. |
| `EvidenceLedger.Ledger.AppendCheckpoint` | src/GeDefense/windows/internal/evidence/ledger.go:851-895 | Success leaves exactly one more line, a checkpoint of the given kind for the tip, after the store's old lines or alone if they left no room, keeps the newest 8192 in memory and, unless the witness failed, the witness at the tip; a failed call may leave a durable line that is not counted; records are untouched. |
| `EvidenceLedger.Ledger.MakeRoom` | src/GeDefense/windows/internal/evidence/ledger.go:864-868 | The store is moved aside if and only if the line would take it past its bound; the journal is untouched. |
| `EvidenceLedger.Ledger.LoadCheckpoints` | src/GeDefense/windows/internal/evidence/ledger.go:759-834 | A store within its bound is read and counted, a larger one moved aside unread; whether the files are anchored does not change. |
| `EvidenceLedger.Ledger.Verify` | src/GeDefense/windows/internal/evidence/ledger.go:522-538 | Success means anchored files, an exact cache and a status that is right about the witness; without a fault every anchored ledger is verified, its own witness included. |
| `EvidenceLedger.Ledger.EnsureTipCheckpoint` | src/GeDefense/windows/internal/evidence/ledger.go:907-917 | An empty ledger, or one with a loaded tip checkpoint for its tip and MAC, is left as it is; any other gets one, and after success some checkpoint covers the tip. |
| `EvidenceLedger.Ledger.FindTipMark` | src/GeDefense/windows/internal/evidence/ledger.go:907-917 | The scan finds a tip checkpoint for this sequence and MAC exactly if one is loaded. |
| `EvidenceLedger.Ledger.SettleTip` | src/GeDefense/windows/internal/evidence/ledger.go:179-183 | The tip gets a checkpoint if it has none and the witness is published unless it confirms the tip; without a fault a configured witness then holds the tip. |
| `EvidenceLedger.Ledger.UpdateWitness` | src/GeDefense/windows/internal/evidence/witness.go:162-200 | Without a fault, and unless an earlier write failed, a configured witness holds the current tip and the status confirms it; a failed write degrades the status and changes no file; unconfigured or empty, nothing changes. |
| `EvidenceLedger.Ledger.VerifyLocked` | src/GeDefense/windows/internal/evidence/ledger.go:597-679 | On reachable files verification succeeds only if they are anchored, fails on anchored files only by a fault, and leaves an exact cache. |
| `EvidenceLedger.Ledger.CheckWitness` | src/GeDefense/windows/internal/evidence/witness.go:229-300 | The ledger's own published witness is never rejected at open, and a reachable one at the tip is confirmed. |
| `EvidenceLedger.Ledger.Open` | src/GeDefense/windows/internal/evidence/ledger.go:126-185 | Opening never adds or loses a record; without faults it succeeds if and only if the files are anchored, leaving a covered tip and a configured witness at the tip. |
| `EvidenceLedger.Ledger.Page` | src/GeDefense/windows/internal/evidence/ledger.go:442-472 | Serves only requests in range, all of them unless a read fails, with the requested slice of the retained chain, newest first, and its size. |
| `GeoTables.BuildTables` | src/GeDefense/windows/internal/geoip/resolver.go:214-288 | The per-length tables hold, for every length and masked key, the record of the last row filed there, and the length sets are those used; the load fails exactly beyond 1000000 entries. |
| `GeoTables.SortedLengths` | src/GeDefense/windows/internal/geoip/resolver.go:358-365 | The lengths in strictly descending order, none lost. |
| `GeoTables.Search` | src/GeDefense/windows/internal/geoip/resolver.go:388-404 | The length-by-length search returns the longest-prefix answer (section 5.1 of RFC 4632), defined independently over the rows with the last row winning among equals. |
| `GeoTables.AnswerUnique` | src/GeDefense/windows/internal/geoip/resolver.go:388-404 | That answer is unique. |
| `RingCache.StoreKeepsBijection` | src/GeDefense/windows/internal/geoip/resolver.go:422-444 | Storing keeps ring and map in bijection within the capacity. |
| `RingCache.EvictedInTurn` | src/GeDefense/windows/internal/geoip/resolver.go:422-444 | First in, first out: a key is kept through any stores with fewer new keys after its own than the capacity, and the new key that makes up the capacity evicts it. |
| `RingCache.StoredSits` | src/GeDefense/windows/internal/geoip/resolver.go:422-444 | A key that was not cached sits, once stored, in the slot right behind the cursor, with the value stored. |
| `GeoResolver.StepKeepsConsistent` | src/GeDefense/windows/internal/geoip/resolver.go:367-444 | Every locked section of a lookup or reload keeps cache entries true for their generation and running lookups explained. |
| `GeoResolver.EveryLookupIsExplained` | src/GeDefense/windows/internal/geoip/resolver.go:301-444 | In every interleaving of lookups and reloads each finished lookup returned the longest-prefix answer for a table that was current at some moment of the call, with at most 4096 cache entries and the cursor in range. |
| `GeoResolver.SecondLookupHits` | src/GeDefense/windows/internal/geoip/resolver.go:367-409 | What a lookup stored answers the next lookup of that address from the cache while the tables have not changed. |
| `GeoResolver.Resolver.Load` | src/GeDefense/windows/internal/geoip/resolver.go:192-312 | A successful load answers from the new rows only; a refused one changes nothing. |
| `GeoResolver.Resolver.SearchTables` | src/GeDefense/windows/internal/geoip/resolver.go:388-406 | The search under the read lock is the longest-prefix answer of the loaded rows. |
| `GeoResolver.Resolver.LookupAddr` | src/GeDefense/windows/internal/geoip/resolver.go:367-409 | A public address gets the longest-prefix answer of the loaded rows from cache or tables; others get none and leave the cache alone. |
| `KineticMonitor.CountRing` | src/GeDefense/windows/internal/kinetic/monitor.go:165-173 | The counting loop over the ring slots counts the samples in the window and collects their ports. |
| `KineticMonitor.RingCountsLikeHistory` | src/GeDefense/windows/internal/kinetic/monitor.go:108-180 | The ring counts as many samples in the window as the unbounded history, up to 32: what it forgot is out of the window or the ring is full of recent samples. |
| `KineticMonitor.RingSeesNewestPorts` | src/GeDefense/windows/internal/kinetic/monitor.go:108-180 | Ports seen by the ring are those of the newest 32 samples of the history in the window. |
| `KineticMonitor.RingDecidesExactly` | src/GeDefense/windows/internal/kinetic/config.go:95-115 | Because a valid policy asks for at most 32 events, the ring decides exactly whether the history has enough events in the window and enough ports among its newest 32 samples. |
| `KineticHistory.BurstIsReal` | src/GeDefense/windows/internal/kinetic/monitor.go:165-174 | A burst among the newest 32 samples is a burst of the whole history. |
| `KineticHistory.RecentIsEnoughIff` | src/GeDefense/windows/internal/kinetic/monitor.go:158-174 | Under every valid policy the newest 32 samples decide like the whole history on all histories with n samples in the window if and only if n is at most 32. |
| `KineticHistory.Diverges` | src/GeDefense/windows/internal/kinetic/monitor.go:158-174 | For every valid policy and every n above 32, a history with n samples in the window that is a burst and is not reported. |
| `KineticHistory.SparseAlike` | src/GeDefense/windows/internal/kinetic/monitor.go:150-178 | From a pause on, while at most 32 samples lie in the window, the observer of the newest 32 samples gives exactly the reports of the observer of the whole history. |
| `KineticHistory.OneReportPerBurst` | src/GeDefense/windows/internal/kinetic/monitor.go:150-178 | Two reports of one source are separated by a pause longer than the window, for either observer. |
| `KineticHistory.CountsWithin` | src/GeDefense/windows/internal/kinetic/monitor.go:165-173 | The count is the number of samples no older than the window, its edge included, and the ports are theirs. |
| `KineticHistory.ReportsExactly` | src/GeDefense/windows/internal/kinetic/monitor.go:150-178 | A sample is reported if and only if it completes a burst and every earlier burst lies before a pause longer than the window. |
| `KineticMonitor.Accept` | src/GeDefense/windows/internal/kinetic/monitor.go:140-179 | The ring goes on implementing the observer of the newest 32 samples; a candidate is always a burst of the whole history, and after a pause with at most 32 samples in the window since it is exactly what the observer of the whole history reports. |
| `KineticMonitor.Monitor.ObserveBlockedInbound` | src/GeDefense/windows/internal/kinetic/monitor.go:108-180 | The same for each source in every run since it was tracked or reconfigured; samples without port or out of order change no decision, and other sources are untouched. The source's counters, last time and last port, the evicted source and the number of lost samples are exact, and no other source changes. |
| `KineticMonitor.Monitor.Track` | src/GeDefense/windows/internal/kinetic/monitor.go:120-135 | A new source joins the order, or takes the place of the source under the round-robin cursor when 2048 are tracked. |
| `KineticMonitor.Monitor.EvictFor` | src/GeDefense/windows/internal/kinetic/monitor.go:122-130 | Exactly the source under the cursor is replaced and the cursor advances. |
| `KineticMonitor.Monitor.AddSource` | src/GeDefense/windows/internal/kinetic/monitor.go:130-135 | A new source joins the end of the order. |
| `KineticMonitor.Monitor.Configure` | src/GeDefense/windows/internal/kinetic/monitor.go:73-92 | An invalid policy is refused unchanged, an equal one is a no-op, a new one restarts every source's history. |
| `KineticArming.EvaluateArmingRequirements` | src/GeDefense/windows/internal/kinetic/config.go:161-197 | Each unmet requirement is listed and no other; the list is empty exactly when arming is allowed. |
| `KineticArming.EveryRunIsConsistent` | src/GeDefense/windows/internal/mhx/kinetic_state.go:117-616 | In every run of whole calls with any pattern of failed writes and applications: effective arming implies intent, intent implies that the file says armed, the monitor runs the runtime policy, which is the one the file loads, and a verified state is the firewall's last answer. |
| `KineticArming.RestartKeepsIntent` | src/GeDefense/windows/internal/mhx/kinetic_state.go:117-178 | A restart at any point of any run of whole calls is disarmed with the same policy, and has the same intent if and only if no disarm of a stored intent is unwritten; if one is, the intent comes back. |
| `KineticArming.UnwrittenIffDisarmFailed` | src/GeDefense/windows/internal/mhx/kinetic_state.go:403-424 | Where no disarm is unwritten yet, a whole call leaves one if and only if it disarms a stored intent and its write fails. |
| `KineticArming.ArmingIsVerified` | src/GeDefense/windows/internal/mhx/kinetic_state.go:371-398 | In runs of whole calls every step into armed happens with both sensors live and the firewall's last verified generation equal to the feed's. |
| `KineticArming.LostRequirementsDisarm` | src/GeDefense/windows/internal/mhx/kinetic_state.go:470-487 | After any run, not-ready reconciliations spanning 20 seconds end disarmed. |
| `KineticArming.ArmedIsYoung` | src/GeDefense/windows/internal/mhx/kinetic_state.go:461-469 | After any reconciliation of any run an armed state is younger than a non-zero auto-disarm window. |
| `KineticArming.IntentIsPromoted` | src/GeDefense/windows/internal/mhx/kinetic_state.go:488-521 | After any run, an intent is promoted by a ready pass that comes 30 seconds or more after the last action and can write. |
| `KineticRequests.PassEndsArmingIff` | src/GeDefense/windows/internal/mhx/kinetic_state.go:443-487 | A pass ends effective arming if and only if the auto-disarm window is over, or the requirements do not hold and were found lost 20 seconds or more before; the window also withdraws the intent, a loss keeps it. |
| `KineticRequests.StaysArmedIff` | src/GeDefense/windows/internal/mhx/kinetic_state.go:443-487 | Through any ordered passes an armed engine stays armed if and only if no pass comes after the window and no stretch of passes without the requirements spans 20 seconds. |
| `KineticRequests.RunStaysArmedIff` | src/GeDefense/windows/internal/mhx/kinetic_state.go:443-487 | The same after every run of whole calls that leaves the engine armed and noticing no loss. |
| `KineticRequests.PassArmsIff` | src/GeDefense/windows/internal/mhx/kinetic_state.go:488-521 | A pass arms if and only if there is an intent, its retry time has come, the requirements hold and the write succeeds; a failed attempt changes only the retry time, and no attempt changes nothing. |
| `KineticRequests.RetryWaits` | src/GeDefense/windows/internal/mhx/kinetic_state.go:488-521 | After a failed attempt no pass arms for 30 seconds. |
| `KineticRequests.ArmRequest` | src/GeDefense/windows/internal/mhx/kinetic_state.go:585-616 | An arming request arms exactly if monitor, requirements and write allow it, and otherwise changes nothing. |
| `KineticRequests.DisarmRequest` | src/GeDefense/windows/internal/mhx/kinetic_state.go:403-427 | Every disarming request disarms; the file says so if the write succeeds and is untouched if not. |
| `KineticRequests.IntentRequest` | src/GeDefense/windows/internal/mhx/kinetic_state.go:535-580 | The intent is recorded unless it cannot be written or, with unmet requirements, there is no monitor; it arms at once exactly if all is ready, and else waits 30 seconds. |
| `KineticRequests.ChangeRequest` | src/GeDefense/windows/internal/mhx/kinetic_state.go:315-369 | A new policy reaches memory, monitor and file, or nothing changes; an armed engine whose new window is over is disarmed at once. |
| `KineticRequests.WrittenReloads` | src/GeDefense/windows/internal/mhx/kinetic_state.go:117-205 | What was written is what a restart loads, disarmed and pending if intended; a missing, unusable or invalid file loads the default policy. |
| `KineticRequests.AppliesIff` | src/GeDefense/windows/internal/mhx/threat_runtime.go:26-104 | An application ends verified if and only if the feed is complete and the answer repeats every field of it; otherwise it is degraded and the active generation stays. |
| `KineticSections.EveryScheduleIsCoherent` | src/GeDefense/windows/internal/mhx/kinetic_state.go:190-616 | With the sections of arming, intent, disarming and policy calls, the health loop's notes, firewall applications and restarts interleaved in any way: effective arming implies intent, the policies in memory and monitor are valid, a verified state is the firewall's last answer, and every call that arms decided to in a confirmed engine. |
| `KineticSections.CommitConfirmedIff` | src/GeDefense/windows/internal/mhx/kinetic_state.go:371-398 | At every commit of an arming call in every schedule: it was decided in a confirmed engine, and the engine it arms is confirmed if and only if the requirements hold at the commit itself. |
| `KineticSections.AgreementIff` | src/GeDefense/windows/internal/mhx/kinetic_state.go:190-205 | After every schedule, from the sections alone: intent implies the file if and only if the last commit was a disarm or the last successful write an armed one; a restart keeps the intent if and only if the two agree; file and memory hold one policy if and only if the last successful write carried the policy set last; the monitor runs it if and only if it was given that policy last. |
| `KineticSections.AloneIsConsistent` | src/GeDefense/windows/internal/mhx/kinetic_state.go:190-616 | If no call begins while another is under way, with telemetry, feeds, applications, notes and restarts anywhere, then whenever no call is under way the engine is as consistent as after whole calls. |
| `KineticOverlaps.IntentIsParted` | src/GeDefense/windows/internal/mhx/kinetic_state.go:371-424 | From every consistent, disarmed and ready engine, an arming call whose write is overtaken by a whole disarm ends armed in memory and disarmed in the file. |
| `KineticOverlaps.PolicyIsParted` | src/GeDefense/windows/internal/mhx/kinetic_state.go:190-205 | From every such engine with a monitor, an arming call whose policy read is overtaken by a whole policy change ends with the new policy in memory and monitor and the old one in the file. |
| `KineticOverlaps.ArmsUnconfirmed` | src/GeDefense/windows/internal/mhx/kinetic_state.go:604-615 | From every such engine, an arming call overtaken by the announcement of a firewall application arms an engine that is not confirmed. |
| `KineticOverlaps.DisarmIsRevived` | src/GeDefense/windows/internal/mhx/kinetic_state.go:329-367 | From every consistent engine with an intent, a policy change overtaken by a whole disarm writes the intent back: memory disarmed, file armed, every write successful. |
| `KineticOverlaps.MonitorIsParted` | src/GeDefense/windows/internal/mhx/kinetic_state.go:339-348 | Two policy changes that reach monitor and memory in opposite order leave them with different policies. |
| `KineticOverlaps.SectionsMakeCalls` | src/GeDefense/windows/internal/mhx/kinetic_state.go:371-424 | The sections of an arming, intent or disarming call in a row are that whole call, whether or not its write succeeds and whatever else is under way. |
| `KineticOverlaps.SectionsMakeChange` | src/GeDefense/windows/internal/mhx/kinetic_state.go:339-361 | The sections of a successful policy change in a row are the whole change. |
| `KineticOverlaps.SectionsUndoChange` | src/GeDefense/windows/internal/mhx/kinetic_state.go:315-369 | The sections of a policy change whose write fails, in a row with those that undo it, leave the engine with the policy it had in memory and monitor, and nothing else changed. |
| `KineticEngine.Controller.constructor` | src/GeDefense/windows/internal/mhx/kinetic_state.go:117-178 | Loading the state file gives the start state of every run, disarmed. |
| `KineticEngine.Controller.WriteState` | src/GeDefense/windows/internal/mhx/kinetic_state.go:190-205 | Writes policy and intent, and nothing on failure. |
| `KineticEngine.Controller.RecordArmingIntent` | src/GeDefense/windows/internal/mhx/kinetic_state.go:371-398 | Arms only after the intent is durable; a failed write changes nothing. |
| `KineticEngine.Controller.DisarmWithReason` | src/GeDefense/windows/internal/mhx/kinetic_state.go:403-424 | Disarms in memory whether or not the write succeeds. |
| `KineticEngine.Controller.DropEffectiveArming` | src/GeDefense/windows/internal/mhx/kinetic_state.go:429-438 | Drops effective arming and keeps the intent. |
| `KineticEngine.Controller.ReconcileKinetic` | src/GeDefense/windows/internal/mhx/kinetic_state.go:443-521 | Refines the reconciliation step of the arming state machine. |
| `KineticEngine.Controller.SetKineticConfig` | src/GeDefense/windows/internal/mhx/kinetic_state.go:315-367 | Refines the policy-change step; a failure leaves a consistent controller exactly as it was. |
| `KineticEngine.Controller.SetKineticDesiredState` | src/GeDefense/windows/internal/mhx/kinetic_state.go:535-580 | Refines the intent step; success with an arming request leaves an intent, and a disarm request always disarms. |
| `KineticEngine.Controller.SetKineticArmed` | src/GeDefense/windows/internal/mhx/kinetic_state.go:585-616 | Refines the arming step; success means the requested state, and a disarm request always disarms. |
| `KineticEngine.Controller.ApplyThreatEnforcement` | src/GeDefense/windows/internal/mhx/threat_runtime.go:26-104 | Success exactly when the enforcement state is verified, then with the feed's generation active; a failure keeps the active generation. |
| `ProtectionMode.SuccessHolds` | src/GeDefense/windows/internal/mhx/policy_runtime.go:17-81 | A successful change of mode holds in memory, in the mode file and in the verified protection, for every pattern of outcomes. |
| `ProtectionMode.SuccessHoldsIff` | src/GeDefense/windows/internal/mhx/policy_runtime.go:36-39 | A success establishes the mode everywhere if and only if it changed the mode or the mode already held everywhere; with verified health, if and only if it changed the mode or the mode file named it already. |
| `ProtectionMode.SilentSuccess` | src/GeDefense/windows/internal/mhx/policy_runtime.go:36-39 | After a half-undone transition, setting the mode that is in memory reports success although file and next start differ. |
| `ProtectionMode.SilentSuccessReached` | src/GeDefense/windows/internal/mhx/policy_runtime.go:36-39 | Such a state is reachable from a fresh start. |
| `ProtectionMode.ErrorKeepsMode` | src/GeDefense/windows/internal/mhx/policy_runtime.go:41-73 | An error keeps the mode in memory, and leaves everything as it was, fully rolled back and verified, or reported degraded. |
| `ProtectionMode.AbandonSettles` | src/GeDefense/windows/internal/mhx/policy_runtime.go:94-106 | VERIFIED after a rollback means memory, file and protection all hold the old mode. |
| `ProtectionMode.EveryRunIsSound` | src/GeDefense/windows/internal/mhx/policy_runtime.go:17-310 | In every run of transitions, reconciliations, allow-list changes, status answers and restarts from a first start over any file: VERIFIED implies that the controller's last apply answers confirm the in-memory mode, and the file loads as that mode unless a rollback write failed. |
| `ProtectionMode.VerifiedKernelIff` | src/GeDefense/windows/internal/mhx/policy_runtime.go:141-150 | In every run, VERIFIED health in sovereign mode goes with a kernel flag that says so if and only if no status answer since the last confirmed application control contradicts it. |
| `ProtectionMode.VerifiedWithoutKernel` | src/GeDefense/windows/internal/mhx/policy_runtime.go:75-80 | A change to sovereign whose own status answer contradicts it ends verified, held everywhere, and with the kernel flag down. |
| `ProtectionMode.OnlyFailedRollback` | src/GeDefense/windows/internal/mhx/policy_runtime.go:65-73 | Only a transition whose evidence commit and whose write-back both failed makes file and memory part, and it reports degraded. |
| `ProtectionMode.ModeSurvivesRestart` | src/GeDefense/windows/internal/mhx/policy_runtime.go:180-196 | After a successful change and any further actions without a successful transition or failed rollback write, a restart comes up in that mode. |
| `ProtectionOutcomes.ApplyIff` | src/GeDefense/windows/internal/mhx/policy_runtime.go:108-139 | Applying a mode succeeds if and only if both answers of this call confirm it; sovereign is not applied before application control is confirmed, and the other modes do not release it before they are. |
| `ProtectionOutcomes.ReconcileIff` | src/GeDefense/windows/internal/mhx/policy_runtime.go:273-310 | Unless a verification of the last 30 seconds answers it, a reconciliation succeeds if and only if gate and ledger are fine, this call's own answers confirm the mode and the evidence is committed; health is then verified as of this call, else degraded. |
| `ProtectionOutcomes.SetModeIff` | src/GeDefense/windows/internal/mhx/policy_runtime.go:17-81 | A mode request succeeds if and only if the mode is supported, gate and ledger allow it, and it is the current mode or its answers confirm it and it is persisted and committed. |
| `ProtectionOutcomes.FailedTransitionIff` | src/GeDefense/windows/internal/mhx/policy_runtime.go:41-106 | A transition that does not go through keeps the mode in memory and ends verified if and only if the rollback's own answers confirm the old mode and it is written back; the file is exact in every case. |
| `ProtectionOutcomes.AbandonIff` | src/GeDefense/windows/internal/mhx/policy_runtime.go:94-106 | A rollback ends verified exactly then, and degraded otherwise. |
| `ProtectionOutcomes.SetApplicationIff` | src/GeDefense/windows/internal/mhx/policy_runtime.go:207-243 | An allow-list change succeeds if and only if the list was changed and application control fits the mode; a misfit degrades. |
| `ProtectionOutcomes.StartsUnverified` | src/GeDefense/windows/internal/mhx/policy_runtime.go:180-196 | A start reads the mode file, falls back to guarded and claims nothing. |
| `PolicyEngine.Engine.SetMode` | src/GeDefense/windows/internal/mhx/policy_runtime.go:17-81 | Refines the transition step; success with another mode establishes it everywhere, an error keeps the mode. |
| `PolicyEngine.Engine.ApplyVerifiedMode` | src/GeDefense/windows/internal/mhx/policy_runtime.go:108-139 | Success exactly when both controller answers confirm the mode, enforcing application control before sovereign and auditing after the other modes. |
| `PolicyEngine.Engine.RollbackMode` | src/GeDefense/windows/internal/mhx/policy_runtime.go:94-106 | Reapplies and rewrites the old mode; succeeds only if both did. |
| `PolicyEngine.Engine.ReconcilePolicy` | src/GeDefense/windows/internal/mhx/policy_runtime.go:273-310 | Success, coalesced or not, means VERIFIED health with confirmed protection for the in-memory mode. |
| `PolicyEngine.Engine.SetApplication` | src/GeDefense/windows/internal/mhx/policy_runtime.go:207-243 | Refines the allow-list step, which degrades health when application control is not confirmed. |
| `PolicyEngine.Engine.VerifyApplications` | src/GeDefense/windows/internal/mhx/policy_runtime.go:252-266 | A failed allow-list check degrades health in sovereign mode only. |
| `PolicyEngine.Engine.constructor` | src/GeDefense/windows/internal/mhx/policy_runtime.go:180-196 | Starts in the mode of a valid mode file and in guarded otherwise, not verified. |
| `Wildcard.WildcardMatch` | src/GeDefense/windows/internal/mhx/sentinel_config.go:691-717 | Terminates; accepts only instances of the pattern, and exactly them for values with no star before their last character. |
| `Wildcard.MatchesExact` | src/GeDefense/windows/internal/mhx/sentinel_config.go:691-717 | For values with no star before their last character (in particular without star) the single-backtrack scan accepts exactly the replacements of each star by some string. |
| `Wildcard.MatchesSound` | src/GeDefense/windows/internal/mhx/sentinel_config.go:691-717 | Whatever the value, only instances are accepted. |
| `Wildcard.CorrectForAllPatternsIff` | src/GeDefense/windows/internal/mhx/sentinel_config.go:691-717 | The matcher is right on every pattern if and only if the value has no star before its last character. |
| `Wildcard.StarExeRejectsStarred` | src/GeDefense/windows/internal/mhx/sentinel_config.go:691-717 | A failing input that a whitelist may hold: pattern `*.exe` rejects value `*a.exe`. |
| `CommandLine.SplitCommandLine` | src/GeDefense/windows/internal/mhx/encoded_command.go:170-222 | The nested loops compute the recursive splitter, errors on NUL and open quotes included. |
| `CommandLine.ReadArgument` | src/GeDefense/windows/internal/mhx/encoded_command.go:182-215 | One argument with its unread rest and whether a quote is left open. |
| `CommandLine.ReadBackslashes` | src/GeDefense/windows/internal/mhx/encoded_command.go:185-204 | A run of backslashes before a quote is halved and consumes it, any other run is literal. |
| `CommandLine.SplitInvertsQuoting` | src/GeDefense/windows/internal/mhx/encoded_command.go:170-222 | For every list of NUL-free arguments, quoting by Microsoft's rule (with optional quotes where none are needed) and joining with spaces splits back to the list. |
| `CommandLine.SplitDistributes` | src/GeDefense/windows/internal/mhx/encoded_command.go:170-222 | Splitting a, a space or tab, b gives the arguments of a, then those of b, and once a splits it fails exactly if b does. |
| `CommandLine.NulFails` | src/GeDefense/windows/internal/mhx/encoded_command.go:170-222 | A NUL anywhere is an error. |
| `CommandLine.WordIsOneArgument` | src/GeDefense/windows/internal/mhx/encoded_command.go:170-222 | A text without space, tab, double quote and NUL is one argument, whatever else it holds. |
| `CommandLine.BlanksAreNothing` | src/GeDefense/windows/internal/mhx/encoded_command.go:170-222 | Spaces and tabs alone are no argument. |
| `CommandLine.OpenQuoteFails` | src/GeDefense/windows/internal/mhx/encoded_command.go:170-222 | A quote that nothing closes is an error. |
| `Literals.JoinQuotedLiterals` | src/GeDefense/windows/internal/mhx/evaluator.go:285-326 | The loops and the recursion through quoted content compute the recursive joiner, and terminate. |
| `Literals.ReadQuotedLiteral` | src/GeDefense/windows/internal/mhx/evaluator.go:340-356 | Reads up to the closing quote of the same kind, or fails exactly when there is none. |
| `Literals.NormalizeQuotedContent` | src/GeDefense/windows/internal/mhx/evaluator.go:330-335 | Resolves nested literals only where a quote occurs. |
| `Literals.JoinHasNoQuotes` | src/GeDefense/windows/internal/mhx/evaluator.go:285-326 | The output has no quote character. |
| `Literals.JoinKeepsLetters` | src/GeDefense/windows/internal/mhx/evaluator.go:285-326 | It keeps, in order, exactly the input characters other than quotes, plus, space and tab. |
| `Literals.JoinIdempotent` | src/GeDefense/windows/internal/mhx/evaluator.go:285-326 | Joining twice is joining once. |
| `Literals.ConcatenationResolved` | src/GeDefense/windows/internal/mhx/evaluator.go:277-326 | A chain of quote-free literals joined by plus signs and blanks becomes the concatenation of their contents. |
| `LiteralMeaning.LiteralInText` | src/GeDefense/windows/internal/mhx/evaluator.go:285-356 | A literal between quote-free texts becomes what its content denotes, a quote-free content itself, and the texts around it are copied, blanks and plus signs included. |
| `LiteralMeaning.ReadInvertsDoubling` | src/GeDefense/windows/internal/mhx/evaluator.go:340-356 | Reading a literal inverts writing it with its quotes doubled. |
| `LiteralMeaning.ChainInText` | src/GeDefense/windows/internal/mhx/evaluator.go:285-356 | A chain of literals in either kind of quotes, joined by plus signs with spaces and tabs, becomes their concatenation between the texts around it. |
| `LiteralMeaning.NestedChain` | src/GeDefense/windows/internal/mhx/evaluator.go:285-356 | A chain inside a literal of the other kind of quotes is resolved too. |
| `LiteralMeaning.UnlinkedLiterals` | src/GeDefense/windows/internal/mhx/evaluator.go:300-323 | Literals with anything but a plus sign among blanks between them keep the text between them. |
| `LiteralMeaning.UnterminatedIsDropped` | src/GeDefense/windows/internal/mhx/evaluator.go:293-298 | A quote that nothing closes is dropped and the rest is read on its own. |
| `BehaviorText.NormalizeIdempotent` | src/GeDefense/windows/internal/mhx/evaluator.go:242-275 | The whole normalization is idempotent for every idempotent case mapping and whitespace class. |
| `BehaviorText.NormalizeKeepsLetters` | src/GeDefense/windows/internal/mhx/evaluator.go:242-275 | It keeps, in order, exactly the lower-cased characters other than the punctuation it drops; of the backslashes it loses those before a double quote and no others. |
| `BehaviorMeaning.UnescapedConcat` | src/GeDefense/windows/internal/mhx/evaluator.go:266-266 | Texts are unescaped separately unless an escaped quote straddles them. |
| `BehaviorMeaning.EscapeIsDropped` | src/GeDefense/windows/internal/mhx/evaluator.go:266-266 | A backslash before a double quote is dropped, wherever the pair stands. |
| `BehaviorMeaning.NoEscapeUnchanged` | src/GeDefense/windows/internal/mhx/evaluator.go:266-266 | A text without such a pair is left as it is. |
| `BehaviorMeaning.CharacterBetweenTokens` | src/GeDefense/windows/internal/mhx/evaluator.go:242-275 | A character other than a quote between two tokens separates them exactly if it is a space or one of the twelve other separators, disappears if it is a backtick or caret, and is kept otherwise. |
| `Dedupe.BoundedDedupe.Admit` | src/GeDefense/windows/internal/mhx/dedupe.go:31-60 | Slots, index and cursor refine a first-in-first-out queue in which a refreshed key keeps its place. |
| `Dedupe.BoundedDedupe.RefreshExpired` | src/GeDefense/windows/internal/mhx/dedupe.go:35-42 | A retained key is refused while fresh and otherwise renewed in its slot. |
| `Dedupe.EmittedIffNotFresh` | src/GeDefense/windows/internal/mhx/dedupe.go:31-60 | In every run a usable key is admitted exactly when it is not retained or its entry expired. |
| `Dedupe.RetainedFor` | src/GeDefense/windows/internal/mhx/dedupe.go:44-60 | A new key sits n places before the end after n later insertions, whatever was refreshed in between. |
| `Dedupe.EvictedByCapacityth` | src/GeDefense/windows/internal/mhx/dedupe.go:44-60 | It is evicted by exactly the capacity-th later insertion of a new key. |
| `Dedupe.NewKeyRefusedForItsTime` | src/GeDefense/windows/internal/mhx/dedupe.go:31-60 | After a new key is admitted at t for ttl, and fewer insertions than the capacity and no other admission of it, it is admitted again if and only if t + ttl has come. |
| `Dedupe.RenewedKeyRefusedForItsTime` | src/GeDefense/windows/internal/mhx/dedupe.go:31-60 | The same counted from a later admission of the key in its place, as long as that place lasts. |
| `Dedupe.UnusableRefused` | src/GeDefense/windows/internal/mhx/dedupe.go:31-60 | An empty key or a lifetime that is not positive is never admitted and changes nothing. |
| `SnapshotDiff.ReadBucket` | src/GeDefense/windows/internal/integrity/engine_windows.go:632-654 | A bucket is read exactly when it is intact, within 250000 lines and every record is valid, and then as the map of last records per lower-cased path. |
| `SnapshotDiff.LastLineWins` | src/GeDefense/windows/internal/integrity/engine_windows.go:638-652 | That map holds exactly the keys of the lines, each with its last line. |
| `SnapshotDiff.WriteBuckets` | src/GeDefense/windows/internal/integrity/engine_windows.go:397-410 | Each bucket file is the subsequence of scanned records with that digest. |
| `SnapshotDiff.BucketIndex` | src/GeDefense/windows/internal/integrity/engine_windows.go:676-676 | A bucket indexes exactly the snapshot's keys of its digest. |
| `SnapshotDiff.ReplayGivesNew` | src/GeDefense/windows/internal/integrity/engine_windows.go:584-622 | Replaying a complete change list on the old path-to-hash map gives the new one. |
| `SnapshotDiff.SizeConserved` | src/GeDefense/windows/internal/integrity/engine_windows.go:584-622 | New size = old size + added - deleted. |
| `SnapshotDiff.ListedIffDiffers` | src/GeDefense/windows/internal/integrity/engine_windows.go:584-622 | A path is listed if and only if its hash differs, and every listed change tells kind, both hashes, path, size and time as they were. |
| `SnapshotDiff.UndoGivesOld` | src/GeDefense/windows/internal/integrity/engine_windows.go:584-622 | Taking the listed changes back on the new hashes gives the old ones. |
| `SnapshotDiff.OrderedUnique` | src/GeDefense/windows/internal/integrity/engine_windows.go:609-611 | An ordered list of the same changes is the same list: map iteration order leaves no trace. |
| `SnapshotCompare.VisitNew` | src/GeDefense/windows/internal/integrity/engine_windows.go:593-604 | Visiting the new records in any order lists what is added or modified and leaves the unmatched old records. |
| `SnapshotCompare.VisitOld` | src/GeDefense/windows/internal/integrity/engine_windows.go:605-608 | Every unmatched old record is listed as deleted. |
| `SnapshotCompare.CompareBucket` | src/GeDefense/windows/internal/integrity/engine_windows.go:593-611 | One bucket's report lists each change once, sorted by lower-cased path, with counters that count it. |
| `SnapshotCompare.Compare` | src/GeDefense/windows/internal/integrity/engine_windows.go:552-630 | Fails exactly on an unauthenticated previous snapshot or an unreadable bucket; on scanned snapshots it reports exactly the global differences in order; a first snapshot reports nothing. |
| `SnapshotCompare.ReportExplainsSnapshot` | src/GeDefense/windows/internal/integrity/engine_windows.go:584-629 | A finished report lists exactly the paths whose hash differs and tells what became of each, replays the old snapshot into the new one and back, conserves the number of files and stores each change under exactly one kind. |
| `SnapshotCompare.ReportDeterministic` | src/GeDefense/windows/internal/integrity/engine_windows.go:594-622 | Two comparisons of the same snapshots report the same list. |
| `SnapshotCompare.ScanAndCompare` | src/GeDefense/windows/internal/integrity/engine_windows.go:328-430 | Scanning to buckets and comparing, end to end, succeeds exactly when both scans fit their buckets and then explains the second scan from the first. |

## Left out

- Real cryptography: HMAC is a function, injective where stated; Ed25519 signatures are a flag on checkpoints and witnesses; SHA-256 of a path is an arbitrary function into 256 buckets.
- MACs, generations and digests are opaque values, so the mix of exact and case-folded hex comparison is not modelled.
- JSON, CSV and file-name syntax, sidecar checksums, ACLs, fsync and the writer lock: a file is its sequence of records, and each write is one step that happens or does not.
- Torn lines, external damage to files other than a replaced or truncated chain.
- A second process writing to the same ledger while this one has it open; 64-bit wrap-around of sequence numbers and byte counts.
- The archive digest in archive checkpoints, which verification does not use, and `Snapshot`, which is the first page reversed.
- EvidenceLedger.Ledger.LoadCheckpoints: does not model read errors of the store or a quarantine whose rename fails.
- EvidenceWitness.VerifyWitness: the malformed and wrongly signed witness files are one `Corrupt` case.
- The special-address ranges of the geo resolver are a parameter (`public`), and parsed rows are its input.
- Readiness and snapshots of the kinetic monitor.
- KineticArming.EveryRunIsConsistent: runs whole calls one after the other, with firewall applications between them in any way; the same holds of the other members of `KineticArming`. Interleavings are in `KineticSections`, where the health loop's notes (loss times, retry times, dropping effective arming) may take any value at any time. Reasons, attempt counters, `configSource` and timestamps of the settings are not modelled.
- Interleavings inside the policy gate, which serialises them; health changes outside the gate are steps of their own.
- Lower-casing is an arbitrary idempotent character mapping in `BehaviorText`, and whitespace an arbitrary class that contains the space; Unicode lower-casing that changes the length of a text is not modelled.
- `SnapshotDiff.Key` is the rank of a lower-cased path in byte order; the sort is an insertion sort that stands for the library's; failures to write the change list, which report zeros, are left out.
- The whitelist store around the glob (`validateWhitelistPattern`, `matchSentinelPathPattern`, `IsAppAllowedEvent`) and PowerShell decoding around the splitter: short branches, or answers that depend on map order.
- Windows UI, HTTP handlers, the operator broker, PowerShell engines, event-log watchers, threat-feed management, signature catalogs and scoring.
