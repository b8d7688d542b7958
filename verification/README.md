# Verified models of skoed's state machines

skoed is a self-hosted DNS filter that runs as a cluster. Each node holds a replicated store
driven by a Raft log, answers DNS queries through a cache, a filter and a local resolver, and
can hand out DHCP leases. This project models that logic in Dafny and proves what whole runs,
all inputs and all interleavings keep.

The replicated store (`StoreModel`, `StoreObject`, `Replication`, `StoreInvariants`, `LastWrites`,
`Pauses`, `ConfigImport`, `Bindings`, `AuditLog`, `JoinTokens`, `Reapply`) is a record of buckets; a
command is one transaction, and a system of replicas takes commits, applies, local writes, saved
images and restores in any order. `LastWrites` says what every log leaves in every cell. The DHCP servers (`Addresses`, `Dhcp4`, `Dhcp4Runs`, `Dhcp4Packet`,
`Dhcp6`, `Dhcp6Packet`) are lease tables whose critical sections interleave between a
handler's read and its action. `DualStack`, `Sorting` and `LeaseManager` are the lease manager
that watches an external DHCP server. `LruSpec` and `DnsCache` are the response cache, the
second a map and a list that refine the first. `DomainSets`, `Schedules`, `CustomRules`,
`Allowlists`, `Profiles`, `FilterEngine`, `FilterProperties` and `FilterOutcomes` are the filter. `Walks` and
`LocalDns` are the local resolver, `ShadowWriter` the goroutine that mirrors the store into
a file, and `QueryLog` and `Paging` the query log.

What the program changes in place is a class or an array here: the store, the lease tables,
the cache, the log buffer, the address bytes, the packet header, the list of leases. Its
methods are proved against functions on values, and the theorems are about those functions.
Runs are sequences of steps; a step that cannot happen changes nothing.

## What holds only under a condition

Several promises hold only where the code's callers meet a condition the code does not check.
Each is stated with its exact condition.

- A resume command without an end time reads the local clock (`Replication.ClockFreeExact`);
  the replicated system takes resume commands that carry one, as the leader writes them.
- Importing a store's own snapshot is a no-op exactly without rich allowlist entries, a global
  pause and a stored listen block (`ConfigImport.OwnSnapshotIsNoOp`), and these are the three
  sections that an edit of something else may not bring back (`ConfigImport.SectionRestoredIff`).
- An edit reads the snapshot, and imports it later, without a lock. Every section it leaves
  alone is put back to what the snapshot showed, so what was committed in between survives
  exactly when it shows nothing new there (`StoreInvariants.EditByImport`,
  `StoreInvariants.CommitSurvivesIff`, `StoreInvariants.PutMeanwhileIsLost`).
- The cascade by key prefix is exact when it reaches no stored binding of another schedule
  past a separator in an id (`Bindings.CascadeExactIff`, `StoreInvariants.ReachableCascade`).
- What audit retention keeps, and when that is the 90 days promised, is decided by the
  order of the timestamps (`AuditLog.RetainedIff`, `AuditLog.RetentionExactIff`); the numbers
  are distinct until the 64-bit counter wraps (`AuditLog.AuditShape`).
- A pool that ends at the last address is left through the wrap-around exactly when it is
  full, and its scan does not end exactly when not one address is free
  (`Addresses.WrappedScanLeavesPool`, `Addresses.ScanNeverEndsIff`).
- Static assignments and persisted leases are not checked for collisions
  (`Dhcp4.ReconfigureKeepsExclusiveIff`, `Dhcp4.LoadKeepsExclusiveIff`).
- Every DHCPv4 packet is handled by itself, and a handler acts on a lease it read before. A
  client keeps what it was told exactly while all such actions are safe
  (`Dhcp4Runs.AlwaysKeptIff`, `Dhcp4Runs.ActKeepsIff`): they are for one message at a time
  (`Dhcp4Runs.OneAtATimeIsKept`), a retransmission can break it (`Dhcp4Runs.RetransmissionMisleads`),
  and so can a reload in between, exactly when it takes the address that was read
  (`Dhcp4Runs.ReloadIsSafeIff`, `Dhcp4Runs.ReconfigureTakesIff`, `Dhcp4Runs.LoadTakesIff`).
- A DHCPv6 client is told one address exactly while it has one lease, which a reservation can
  change (`Dhcp6.AllocateIsDeterminedIff`, `Dhcp6.ReloadKeepsOneIff`, `Dhcp6.ReservationGivesTwo`).
- A node that restarts before it has an image applies its log again, as does one that restores
  an image copied later than its index. Audit rows are then numbered twice, exactly when there
  are any (`Reapply.AppliedAgain`); the commands that bear a second application are exactly
  those of `Reapply.RepeatableIff`.
- Merging twice can differ from merging once only through records without any address that
  take in IPv6 records (`DualStack.MergeIdempotentIff`).
- The two forms of the filter decision differ when a shared allowlist names the default
  profile (`FilterProperties.BareAgreesIff`).
- A stop flushes the shadow file exactly when a signal is pending, a write of the latest state
  is certain, or there is nothing to write (`ShadowWriter.StopFlushesIff`); a restored snapshot
  signals nobody (`ShadowWriter.RestoreIsNotMirrored`).

## Model

| member | source | states |
|---|---|---|
| StoreObject.Store.Apply | apps/skoed/internal/cluster/store.go:176-186 | one command in one transaction: the new database is the old one with the command applied, and a failed command changes nothing and returns its error |
| StoreObject.RunTx | apps/skoed/internal/cluster/store.go:188-876 | for the commands that loop over a bucket (schedule cascade, audit sweep, import, pruning of statistics, anomaly sweep, closing a pause): the transaction, carried out loop by loop, leaves what the one-step rule for the command says; for the others it is that rule |
| StoreObject.DeleteSchedule | apps/skoed/internal/cluster/store.go:459-479 | deleting a schedule drops the bindings whose key starts with its prefix and the schedule itself, and nothing else |
| StoreObject.SweepAnomalies | apps/skoed/internal/cluster/store.go:559-565 | the sweep keeps exactly the anomalies that are not older than the cutoff |
| StoreObject.PruneStats | apps/skoed/internal/cluster/store.go:396-419 | the walk over the nodes and their hours keeps exactly the hours not below the cutoff, compared as unsigned numbers, and every node |
| StoreObject.ClearPause | apps/skoed/internal/cluster/store.go:642-668 | resuming a profile ends its newest open pause entry and clears its pause; an unknown profile is an error |
| StoreObject.CloseOpenEntry | apps/skoed/internal/cluster/store.go:1891-1916 | exactly the first entry that is still open gets the end time; every other entry is unchanged |
| StoreObject.Store.TrackNewDynamicClient | apps/skoed/internal/cluster/store.go:1947-1960 | a node tracks an address locally only if it is neither listed nor dismissed; the first-seen time of a known one is kept |
| StoreModel.AreaFrame | apps/skoed/internal/cluster/store.go:188-876 | whatever the command, the buckets outside its own area are unchanged, and the node-local buckets always are |
| StoreModel.ScheduleFrame | apps/skoed/internal/cluster/store.go:448-509 | schedule and document commands change only bindings and documents |
| StoreModel.ProfileFrame | apps/skoed/internal/cluster/store.go:609-675 | profile commands change only profiles and pause history |
| StoreModel.ClusterFrame | apps/skoed/internal/cluster/store.go:315-360 | token, secret and audit commands change only their own bucket |
| StoreModel.ObservedFrame | apps/skoed/internal/cluster/store.go:524-565 | observation commands change only the observation buckets, and only a dismissal changes the list of new clients |
| LastWrites.EntryWrites | apps/skoed/internal/cluster/store.go:188-876 | entry by entry and cell by cell: a document, hour, token, profile, binding, anomaly, list, domain, local entry or setting is put, dropped or kept as a table says that lists the writes of each cell by themselves; no entry does more to any cell, whatever the clock |
| LastWrites.LastWriteStays | apps/skoed/internal/cluster/store.go:176-876 | after every log, from any store, each cell holds what the last entry that wrote it wrote: hardware addresses and domains under their lower-case key, hours and cutoffs as unsigned numbers, a token consumed only if it was known, unconsumed and in time, an import the last row of each key |
| LastWrites.UnwrittenStays | apps/skoed/internal/cluster/store.go:176-876 | a cell that no entry of the log wrote holds what it held at the start |
| LastWrites.RefusedIff | apps/skoed/internal/cluster/store.go:208-876 | a command is refused if and only if it switches a list, pauses, resumes or acknowledges something that is not there, deletes the default profile, consumes a token it may not, appends an anomaly without an id, or is unknown; it then changes nothing |
| LastWrites.TrackOutcome | apps/skoed/internal/cluster/store.go:1947-1960 | a node that tracks an address lists it as first seen then if it has no entry, and changes nothing if it has one |
| Pauses.ResumeClears | apps/skoed/internal/cluster/store.go:642-668 | a resume of a known profile leaves it without a pause and otherwise as it was, and every other profile unchanged |
| Pauses.ResumeEnds | apps/skoed/internal/cluster/store.go:1891-1916 | in its history the first entry without an end gets the end time given, or the local time if that is zero; every other entry and every other history is unchanged |
| Pauses.PauseOutcome | apps/skoed/internal/cluster/store.go:609-640 | a pause of a known profile holds until the time given for the addresses given; its history has one new open entry in front, with the scope and reason of the pause, and the newest of the others, fifty in all; nothing else about profiles changes |
| Pauses.AppendOutcome | apps/skoed/internal/cluster/store.go:1865-1889 | an entry appended by itself is put in front in the same way |
| Pauses.UnknownIsRefused | apps/skoed/internal/cluster/store.go:609-668 | pausing or resuming an unknown profile is refused and changes nothing |
| Pauses.PauseThenResume | apps/skoed/internal/cluster/store.go:609-668 | pausing a profile that was not paused and resuming it leaves the profiles as they were |
| Replication.ClosedWithoutOpen | apps/skoed/internal/cluster/store.go:1891-1916 | closing depends on the end time exactly when some entry is open |
| Replication.SameAtAllClocks | apps/skoed/internal/cluster/store.go:1891-1916 | a clock-free command gives the same database at all local clocks |
| Replication.DiffersBetweenClocks | apps/skoed/internal/cluster/store.go:1897-1905 | a resume without an end time, of a profile with an open entry, gives different databases at different clocks |
| Replication.ClockFreeExact | apps/skoed/internal/cluster/store.go:1891-1916 | a command is applied alike at all clocks if and only if it does not resume a profile with an open entry without an end time |
| Replication.ApplyAgrees | apps/skoed/internal/cluster/store.go:176-876 | databases that agree still agree after the same command at different clocks, and fail it together |
| Replication.LocalAgrees | apps/skoed/internal/cluster/store.go:1947-1960 | a write outside the log never breaks agreement |
| Replication.StepKeepsInv | apps/skoed/internal/cluster/fsm.go:30-86 | every step of the replicated system (commit, apply, local write, save, restore, join) keeps each replica and image where the canonical replay of its log prefix is |
| Replication.RunKeepsInv | apps/skoed/internal/cluster/fsm.go:30-86 | the same after every run, and the log only grows |
| Replication.ReplicasAgree | apps/skoed/internal/cluster/fsm.go:30-86 | over all runs, two replicas that have applied equally many entries agree on every replicated bucket, at whatever two moments, whatever they wrote locally, by replay or by restore |
| Reapply.AppliedAgain | apps/skoed/internal/cluster/raft.go:91-97 | entries applied again to a database that holds them, after a restart without an image or from the index of an image copied later: every audit append among them gets a second number, and the audit log is that of the others if and only if there is none |
| Reapply.RepeatableIff | apps/skoed/internal/cluster/store.go:188-876 | in every database and at any clocks a second application of a command changes nothing if and only if it is no audit append, no pause of a known profile or history entry unless the history is full of that entry, no resume that finds two open entries, and no first import of a document without a pause ceiling |
| Reapply.LastEntryAgainIff | apps/skoed/internal/cluster/fsm.go:81-100 | a replica that applies its last entry once more still agrees with the others if and only if that entry is such a command |
| Reapply.ClosedTwiceIff | apps/skoed/internal/cluster/store.go:1891-1916 | closing twice is closing once if and only if at most one entry is open |
| Reapply.PrependedTwiceIff | apps/skoed/internal/cluster/store.go:1860-1890 | putting an entry in front of a capped list twice is putting it once if and only if the list is full of it |
| Replication.DismissalFrame | apps/skoed/internal/cluster/store.go:188-876 | only a dismissal command changes who is dismissed and when |
| Replication.CanonicalDismissals | apps/skoed/internal/cluster/store.go:1962-1978 | a replay shows the time of the last dismissal of an address in the log |
| Replication.DismissedStaysHidden | apps/skoed/internal/cluster/store.go:1947-1978 | at every moment of every run: while the log that a replica has applied holds a dismissal of an address, the address is off its alert list, however often the node tracked it, and the last dismissal time is shown |
| StoreInvariants.ReachableConfig | apps/skoed/internal/cluster/store.go:190-303 | in every store reached by a log, blocklists and local entries are stored under their own ids and allowlist keys are in lower case |
| StoreInvariants.ReachableImportNoOp | apps/skoed/internal/cluster/store.go:1028-1355 | in every reachable store, importing its own snapshot leaves the snapshot as it was if and only if no allowlist entry is rich, no global pause is set and no listen block is stored |
| StoreInvariants.EditByImport | apps/skoed/internal/api/app.go:633-642 | a snapshot read at one point of the log, edited in any way and imported at any later point: what is shown is the edited document normalised, no other bucket changes, and each section that the edit left alone and an import can carry over is shown as it was read |
| StoreInvariants.CommitSurvivesIff | apps/skoed/internal/api/app.go:633-642 | what was committed to such a section after the snapshot was read survives the import if and only if the section is shown alike before and after it |
| StoreInvariants.PutMeanwhileIsLost | apps/skoed/internal/refresh/scheduler.go:205-229 | a blocklist put while an edit of something else is under way, new or with refreshed content, is lost: the bucket is what it was when the edit began |
| StoreInvariants.ReplicasAreReached | apps/skoed/internal/cluster/fsm.go:30-86 | after every run of the replicated system each replica agrees with the store reached by the log it has applied, so that its configuration rows and bindings are under their own keys |
| StoreInvariants.ReachableBindings | apps/skoed/internal/cluster/store.go:480-498 | in every reachable store each binding is under its own key |
| StoreInvariants.ReachableCascade | apps/skoed/internal/cluster/store.go:459-479 | in every reachable store, deleting a schedule removes that schedule's bindings and no others if and only if no stored binding of another schedule is reached by its id and a separator |
| ConfigImport.WipeAndRewrite | apps/skoed/internal/cluster/store.go:1028-1128 | the import, row after row into wiped buckets, leaves what the document says: later rows of one key win, the pause ceiling is encoded, the global pause is gone |
| ConfigImport.PutAllowlist | apps/skoed/internal/cluster/store.go:1057-1062 | every imported domain becomes a plain entry under its lower-case key |
| ConfigImport.ImportShows | apps/skoed/internal/cluster/store.go:1028-1355 | whatever is imported into whatever store, the snapshot afterwards shows each list under its ids in key order with the last row of an id, each domain once in lower case without metadata, and neither pause nor listen block |
| ConfigImport.CarriedIsRestored | apps/skoed/internal/api/app.go:633-642 | an edit of one store's snapshot imported into a later store shows a section that it left alone as it was read, if an import can carry that section over; the blocklists, local entries, policy, pause ceiling, block page, rules, query log and credentials always |
| ConfigImport.SectionRestoredIff | apps/skoed/internal/cluster/store.go:1028-1355 | section by section, every edit that leaves it alone restores it if and only if it is not an allowlist with a rich entry, a listen block or a global pause |
| ConfigImport.CommitSurvivesIff | apps/skoed/internal/api/app.go:633-642 | the condition for a later commit to such a section to survive |
| ConfigImport.AppendedEntryIsAdded | apps/skoed/internal/api/handlers/local_dns.go:85-96 | an entry appended to the shown list, under whatever id, is stored beside the old ones |
| ConfigImport.CutDomainIsRemoved | apps/skoed/internal/api/handlers/allowlist.go:382-397 | a domain cut out of the shown allowlist is gone and the others stay, though the list of entries still names it |
| ConfigImport.ImportThenSnapshot | apps/skoed/internal/cluster/store.go:1028-1355 | a document comes back exactly as it was imported if and only if nothing in it needs normalising |
| ConfigImport.OwnSnapshotIsNoOp | apps/skoed/internal/cluster/store.go:1028-1355 | importing a store's own snapshot shows the same snapshot if and only if nothing in the store is beyond what an import carries |
| ConfigImport.ImportedPlain | apps/skoed/internal/cluster/store.go:1028-1128 | after an import there is no global pause, no listen block and no more entries than imported domains |
| Bindings.DropPrefix | apps/skoed/internal/cluster/store.go:459-479 | the cursor walk deletes exactly the keys that start with the prefix |
| Bindings.KeyInjective | apps/skoed/internal/cluster/store.go:1445-1447 | without a separator in schedule and profile ids, different bindings have different keys |
| Bindings.PrefixReaches | apps/skoed/internal/cluster/store.go:459-479 | a cascade can reach a binding of another schedule if and only if one id continues the other past a separator |
| Bindings.PrefixTakesIff | apps/skoed/internal/cluster/store.go:459-479 | it takes a binding if and only if that belongs to the deleted schedule, or its schedule id goes on past the deleted id and a separator, or the deleted id goes on past that one and the rest of the key makes up what is missing |
| Bindings.CascadeExactIff | apps/skoed/internal/cluster/store.go:459-479 | the cascade removes exactly the bindings of the deleted schedule if and only if it so reaches no stored binding of another one |
| Bindings.CascadeExact | apps/skoed/internal/cluster/store.go:459-479 | it is exact while no other stored schedule id is confusable with the deleted one |
| Bindings.PlainIdsNotConfusable | apps/skoed/internal/cluster/store.go:1445-1447 | ids without a separator never are |
| Bindings.CascadeNeedsPlainIds | apps/skoed/internal/cluster/store.go:459-479 | with a separator in an id it removes another schedule's binding |
| AuditLog.AppendAndSweep | apps/skoed/internal/cluster/store.go:881-953 | an append takes the next number, stores the row, and sweeps from the oldest row up to the first one within the retention |
| AuditLog.Sweep | apps/skoed/internal/cluster/store.go:926-953 | collecting stale keys along the cursor and deleting them leaves what stopping at the first fresh row leaves |
| AuditLog.SweepIsPrefix | apps/skoed/internal/cluster/store.go:926-953 | the sweep removes exactly the keys in front of the first fresh row |
| AuditLog.SweepInterval | apps/skoed/internal/cluster/store.go:926-953 | sweeping a gap-free interval leaves a gap-free interval that ends where it did; what was dropped was stale and the next row is not |
| AuditLog.AppendShape | apps/skoed/internal/cluster/store.go:881-953 | one append to a gap-free interval: again gap-free and ending at the counter; what it drops was stale and the row it leaves in front is not |
| AuditLog.AuditShape | apps/skoed/internal/cluster/store.go:881-953 | after any history the stored numbers are a gap-free interval ending at the counter, the counter is the number of appends (so none is assigned twice), each row is the entry appended under its number, and every dropped row was stale for an append not before it |
| AuditLog.NewestSurvivesIff | apps/skoed/internal/cluster/store.go:926-953 | the row just appended survives its own sweep if and only if the 64-bit cutoff of its time does not wrap, or some row kept before it is not older than that cutoff |
| AuditLog.WrappingEntryIsSwept | apps/skoed/internal/cluster/store.go:926-930 | a first row whose cutoff wraps does not survive |
| AuditLog.RetainedIff | apps/skoed/internal/cluster/store.go:926-953 | for every history without such a time, a row is kept if and only if no later append has that row and all before it more than 90 days older than itself |
| AuditLog.RetentionExactIff | apps/skoed/internal/cluster/store.go:926-953 | the rows kept are exactly those within 90 days of the newest if and only if the rows too old come first and no row is more than 90 days newer than the first row that is not |
| AuditLog.OrderedIsExact | apps/skoed/internal/cluster/store.go:926-953 | with timestamps that never decrease they are |
| AuditLog.RetentionNeedsOrder | apps/skoed/internal/cluster/store.go:926-953 | out of order they need not be: a stale row outlives the sweep behind a newer one |
| AuditLog.List | apps/skoed/internal/cluster/store.go:1463-1510 | one page of the rows that pass the filter, newest first, and the number of matches before paging |
| AuditLog.PageShows | apps/skoed/internal/cluster/store.go:1463-1510 | a row that is asked for, by actor, outcome and the beginning of its action, stands on the page at the place given by how many newer ones are; the page holds 50 rows unless another limit is asked for, and never more than 500 |
| AuditLog.AuditPagesTile | apps/skoed/internal/cluster/store.go:1463-1510 | consecutive pages tile the matching rows without gap or repeat, whatever limit was asked for |
| KeyOrder.CursorUnique | apps/skoed/internal/cluster/store.go:1137-1200 | a bucket is walked in one order only, by ascending keys |
| KeyOrder.PutThenWalk | apps/skoed/internal/cluster/store.go:1028-1200 | putting rows under ascending keys and walking the bucket gives the rows back |
| JoinTokens.OneConsume | apps/skoed/internal/cluster/store.go:326-360 | along any log with fresh hashes and non-zero consume times, at most one consume of a token succeeds |
| JoinTokens.ConsumeTwice | apps/skoed/internal/cluster/store.go:326-360 | a second consume succeeds if and only if the first carried time zero and the second is in time |
| JoinTokens.StepKeepsInv | apps/skoed/internal/cluster/cluster.go:875-926 | every step of concurrent enrollment calls keeps each call that reached AddVoter tied to its own successful consume entry |
| JoinTokens.RunKeepsInv | apps/skoed/internal/cluster/cluster.go:794-926 | the same after every interleaving |
| JoinTokens.TokensAreSingleUse | apps/skoed/internal/cluster/cluster.go:875-926 | over all interleavings, two calls that reach AddVoter carry different tokens |
| JoinTokens.VotersHadValidTokens | apps/skoed/internal/cluster/cluster.go:875-926 | a call that reached AddVoter consumed a token that was there, unconsumed and not past its expiry |
| JoinTokens.EnrolledIff | apps/skoed/internal/cluster/cluster.go:875-926 | at every point of every run, an enrollment that has begun and goes through check, submit and reply adds its voter if and only if the token bucket then holds its token unconsumed and not past its expiry; else it has failed |
| JoinTokens.FreshTokenAdmits | apps/skoed/internal/cluster/cluster.go:875-926 | so after every run a token just issued under a fresh hash, with a later expiry, admits its first caller |
| JoinTokens.AdmitsNobodyElse | apps/skoed/internal/cluster/cluster.go:875-926 | and after that nobody: however the run goes on, no other call with its hash reaches AddVoter |
| JoinTokens.OthersAreLogged | apps/skoed/internal/cluster/cluster.go:875-926 | whatever else the cluster commits meanwhile is in the log |
| JoinTokens.ReissueReopens | apps/skoed/internal/cluster/store.go:316-325 | issuing a consumed hash again reopens it |
| Addresses.IncrementAddsOne | apps/skoed/internal/dhcp/server.go:571-578 | the carry chain is addition of one modulo 256 to the number of bytes |
| Addresses.FirstDifferenceDecides | apps/skoed/internal/dhcp/server.go:559-569 | the first differing byte decides the order of the addresses as numbers |
| Addresses.ValInjective | apps/skoed/internal/dhcp/server.go:559-578 | addresses of one length with equal numbers are equal |
| Addresses.Increment | apps/skoed/internal/dhcp/server.go:571-578 | the in-place loop leaves the incremented address in the array |
| Addresses.After | apps/skoed/internal/dhcp/server6.go:455-465 | the byte-wise loop answers whether the one number is greater |
| Addresses.Scan | apps/skoed/internal/dhcp/server.go:500-517 | the loop returns the first unused address it reaches, or none if all it reaches are used |
| Addresses.ScanUnique | apps/skoed/internal/dhcp/server.go:500-517 | a scan has one outcome only |
| Addresses.ScanFindsLowestIff | apps/skoed/internal/dhcp/server.go:500-517 | in every pool the result is an address of the pool if and only if the pool has a free one, and it is then the lowest |
| Addresses.ScanFailsIff | apps/skoed/internal/dhcp/server6.go:434-452 | there is none if and only if no address of the pool is free, or no address at all for a pool that ends at the last one |
| Addresses.WrappedScanLeavesPool | apps/skoed/internal/dhcp/server.go:506-517 | a scan of a pool that ends at the last address returns an address below the pool if and only if the pool is full |
| Addresses.BroadcastPoolYieldsZero | apps/skoed/internal/dhcp/server.go:506-517 | with the pool 255.255.255.255 taken, 0.0.0.0 is handed out |
| Addresses.ScanNeverEndsIff | apps/skoed/internal/dhcp/server.go:506-517 | the loop goes on for ever if and only if the pool ends at the last address and no address at all is free |
| Addresses.ScanContinues | apps/skoed/internal/dhcp/server.go:506-517 | each turn keeps every address passed so far used and comes closer to the end |
| Dhcp4.Server.InUse | apps/skoed/internal/dhcp/server.go:496-499 | the used set is exactly the addresses in the table |
| Dhcp4.Server.Allocate | apps/skoed/internal/dhcp/server.go:483-519 | a static lease is returned as it is; else the scan decides, and exactly the client's lease is written |
| Dhcp4.Server.ReserveAt | apps/skoed/internal/dhcp/server.go:521-550 | the address is granted if and only if no other client has it, and exactly the client's lease is written |
| Dhcp4.Server.FinishDiscover | apps/skoed/internal/dhcp/server.go:412-430 | the lease read before is offered, else what the pool yields; without an address the reply is a refusal |
| Dhcp4.Server.FinishRequest | apps/skoed/internal/dhcp/server.go:432-468 | the lease read before is acknowledged whatever was requested; else the requested address, if it is free |
| Dhcp4.RequestOutcome | apps/skoed/internal/dhcp/server.go:432-468 | whatever the table, a request of a client without a lease is acknowledged with an address if and only if that is its four-byte option 50, or without one its non-zero client address, and no other client has it; else it is refused and the table is unchanged |
| Dhcp4.OptionDecides | apps/skoed/internal/dhcp/server.go:434-440 | with a four-byte option 50 the client address makes no difference |
| Dhcp4.LeasedOutcome | apps/skoed/internal/dhcp/server.go:412-468 | a client whose handler read a lease is offered or acknowledged that lease, whatever it asked for, and the table is unchanged |
| Dhcp4.DiscoverOutcome | apps/skoed/internal/dhcp/server.go:412-430 | a discover of a client without a lease is offered its own static lease or the address the pool scan yields, held by nobody else, or else is refused |
| Dhcp4Runs.SentIsTold | apps/skoed/internal/dhcp/server.go:412-479 | in every run what a handler sends is what the client counts as told |
| Dhcp4.Server.UpdateConfig | apps/skoed/internal/dhcp/server.go:93-123 | the static leases are replaced by those of the assignments that parse; dynamic leases stay unless an assignment names their client |
| Dhcp4.Server.LoadLeases | apps/skoed/internal/dhcp/server.go:128-152 | the live persisted leases that parse are put over the table |
| Dhcp4.AllocateKeepsExclusive | apps/skoed/internal/dhcp/server.go:483-519 | allocation keeps distinct clients on distinct addresses and gives the client what it returns |
| Dhcp4.ReserveKeepsExclusive | apps/skoed/internal/dhcp/server.go:521-550 | so does a reservation |
| Dhcp4.LoadKeepsExclusiveIff | apps/skoed/internal/dhcp/server.go:128-152 | loading persisted leases keeps addresses exclusive if and only if the entries collide neither with each other nor with the leases that stay |
| Dhcp4.ReconfigureKeepsExclusiveIff | apps/skoed/internal/dhcp/server.go:93-123 | the same for a new configuration, where only dynamic leases stay |
| Dhcp4.AssignmentMayCollide | apps/skoed/internal/dhcp/server.go:93-123 | an assignment of an address another client holds leaves both with it |
| Dhcp4Runs.StepKeepsExclusive | apps/skoed/internal/dhcp/server.go:388-550 | every step of the interleaved handlers, several of one client too, keeps distinct clients on distinct addresses |
| Dhcp4Runs.TableStaysExclusive | apps/skoed/internal/dhcp/server.go:257-550 | over all runs whose reloads do not collide, with a handler for every packet, distinct clients hold distinct addresses |
| Dhcp4Runs.ActKeepsIff | apps/skoed/internal/dhcp/server.go:412-468 | an action leaves its client every address it was told if and only if it gives nothing, or the handler read an address that the client still has, or it read no lease and the client was told no other address |
| Dhcp4Runs.CurrentReadingIsSafe | apps/skoed/internal/dhcp/server.go:412-468 | an action whose reading is still what the table holds does so |
| Dhcp4Runs.StepKeepsIff | apps/skoed/internal/dhcp/server.go:257-479 | every step of anybody, every reload included, leaves a client what it was told, but for such an action of a handler of this client that is not safe |
| Dhcp4Runs.AlwaysKeptIff | apps/skoed/internal/dhcp/server.go:257-479 | over all runs: a client always has the addresses it was told, since its release or a reload that took its address, if and only if all actions of its handlers are safe |
| Dhcp4Runs.AssignedAddressStays | apps/skoed/internal/dhcp/server.go:257-479 | over all runs in which the actions of this client's handlers are safe, an address told to the client stays its lease, and it is told no other, until it releases or a reload takes that address from it, whatever happens to others |
| Dhcp4Runs.NobodyElseIsTold | apps/skoed/internal/dhcp/server.go:257-479 | meanwhile another client is not offered it and has it not acknowledged, if the actions of these two are safe and no reload leaves an address with both |
| Dhcp4Runs.OneAtATimeIsKept | apps/skoed/internal/dhcp/server.go:388-479 | they are safe for a client that sends one message at a time, while no reload takes an address that its handler has read |
| Dhcp4Runs.RetransmissionMisleads | apps/skoed/internal/dhcp/server.go:243-259 | without any reload: a discover sent again before it is answered replaces the lease it was answered with, and another client is told that address |
| Dhcp4Runs.FittingKeepsApart | apps/skoed/internal/dhcp/server.go:93-152 | reloads whose entries collide nowhere leave no address with any two clients |
| Dhcp4Runs.ReconfigureTakesIff | apps/skoed/internal/dhcp/server.go:93-123 | a new configuration takes a client's address if and only if an assignment gives the client something else, or the lease was static and none names the client |
| Dhcp4Runs.LoadTakesIff | apps/skoed/internal/dhcp/server.go:128-152 | loading persisted leases takes it if and only if an entry gives the client something else |
| Dhcp4Runs.TellsHeldIff | apps/skoed/internal/dhcp/server.go:412-468 | a handler tells its client only what the client then holds if and only if the address it read, if any, is still held |
| Dhcp4Runs.ReloadIsSafeIff | apps/skoed/internal/dhcp/server.go:412-468 | after a reload a handler whose reading was right does so if and only if the reload does not take that address |
| Dhcp4Runs.ReloadBetweenReadAndAct | apps/skoed/internal/dhcp/server.go:432-468 | a reload that does lets two clients be told one address |
| Dhcp4Packet.Parse | apps/skoed/internal/dhcp/server.go:299-351 | every byte string is refused or parsed within its bounds: fields at their offsets, options by the last occurrence of each code |
| Dhcp4Packet.MessageIsRead | apps/skoed/internal/dhcp/server.go:297-328 | a message laid out field after field, as RFC 2131 section 2 orders them, is parsed into those fields: the client address among them, the hardware address cut to the length claimed, and missing when that exceeds its field |
| Dhcp4Packet.SentIsRead | apps/skoed/internal/dhcp/server.go:329-352 | of every option sent, with any pads in front, the last value of its code is read, whatever stands behind the end code |
| Dhcp4Packet.UnsentStays | apps/skoed/internal/dhcp/server.go:329-352 | and of no code that was not sent |
| Dhcp4Packet.ParseOptions | apps/skoed/internal/dhcp/server.go:326-349 | the option loop stops at the end code, the end of the list or an option cut short |
| Dhcp4Packet.ReadIsExpressible | apps/skoed/internal/dhcp/server.go:326-349 | no parsed list holds code 0 or 255 or a value over 255 bytes |
| Dhcp4Packet.Build | apps/skoed/internal/dhcp/server.go:354-386 | the reply is the header followed by the message type, the options in the order of the map walk, and the end code |
| Dhcp4Packet.BuildHeader | apps/skoed/internal/dhcp/server.go:354-367 | copying the fields into a zeroed array gives the header |
| Dhcp4Packet.BuildOptions | apps/skoed/internal/dhcp/server.go:369-386 | the option bytes for any order of the map walk |
| Dhcp4Packet.HeaderFields | apps/skoed/internal/dhcp/server.go:354-367 | each field of a built header reads back as what was put there |
| Dhcp4Packet.MissingIsZero | apps/skoed/internal/dhcp/server.go:363-365 | an address that is missing reads as 0.0.0.0 |
| Dhcp4Packet.OptionsRoundTripIff | apps/skoed/internal/dhcp/server.go:326-386 | for every walk order, parsing recovers the options with the message type put in if and only if no other code is 0 or 255 and no value is over 255 bytes |
| Dhcp4Packet.ReplyRoundTrip | apps/skoed/internal/dhcp/server.go:299-386 | parsing a built reply recovers transaction id and addresses; the options exactly when they are expressible; the hardware address exactly when it is six bytes long |
| Dhcp6.Server.Find | apps/skoed/internal/dhcp/server6.go:418-422 | the search finds a lease of the client if there is one, in any walk order |
| Dhcp6.Server.Allocate | apps/skoed/internal/dhcp/server6.go:414-453 | a client with a lease gets its address and the table is unchanged; else the scan decides and one lease is added |
| Dhcp6.Server.Extend | apps/skoed/internal/dhcp/server6.go:573-580 | a renewal changes the lifetime of one lease of the client that is not static, and nothing else |
| Dhcp6.Server.Release | apps/skoed/internal/dhcp/server6.go:612-625 | a release deletes one lease of the client that is not static, if it has one |
| Dhcp6.Server.UpdateConfig | apps/skoed/internal/dhcp/server6.go:145-169 | the static leases are replaced by those of the assignments |
| Dhcp6.Server.LoadLeases | apps/skoed/internal/dhcp/server6.go:172-195 | the live persisted leases are put over the table |
| Dhcp6.LastEntryDecides | apps/skoed/internal/dhcp/server6.go:145-195 | of several usable entries of an address the last one decides its whole lease |
| Dhcp6.UnlistedStays | apps/skoed/internal/dhcp/server6.go:145-195 | an address without one is left as it was by loading |
| Dhcp6.ReconfiguredUnlisted | apps/skoed/internal/dhcp/server6.go:145-195 | under a new configuration such an address stays exactly if its lease was not static |
| Dhcp6.ReloadTakesEffect | apps/skoed/internal/dhcp/server6.go:145-195 | at every point of every run a reload makes the last usable entry of an address a lease of its client |
| Dhcp6.AllocateKeepsInv | apps/skoed/internal/dhcp/server6.go:414-453 | on every table keyed by own addresses: allocation takes no address from anybody, touches no other client, and gives no client a second lease |
| Dhcp6.AllocateIsDeterminedIff | apps/skoed/internal/dhcp/server6.go:418-422 | its outcome does not depend on the walk order if and only if the client has at most one lease |
| Dhcp6.ExtendKeepsInv | apps/skoed/internal/dhcp/server6.go:573-580 | a renewal changes nobody's address |
| Dhcp6.ExtendOutcome | apps/skoed/internal/dhcp/server6.go:565-600 | a renewal changes when one lease of the client that is not static runs out, if it has such a lease, and nothing else |
| Dhcp6.AskOutcome | apps/skoed/internal/dhcp/server6.go:508-563 | an answer is told to its client, is one of its leases from then on, and a new one lasts as long as the answer says |
| Dhcp6.ReleaseKeepsInv | apps/skoed/internal/dhcp/server6.go:612-625 | a release changes no other client, and leaves a client that had at most one lease at most a static one |
| Dhcp6.ReleaseOutcome | apps/skoed/internal/dhcp/server6.go:612-635 | a release drops one lease of the client that is not static, if it has one, and leaves every other lease as it was |
| Dhcp6.AlwaysPossible | apps/skoed/internal/dhcp/server6.go:414-635 | whatever the table, a renewal and a release can be carried out, and a client that has a lease is answered |
| Dhcp6.ReloadKeepsOneIff | apps/skoed/internal/dhcp/server6.go:145-195 | a reload leaves a client at most one lease if and only if its entries give that client one address, and no other than what stays of it |
| Dhcp6.ReloadKeepsInvIff | apps/skoed/internal/dhcp/server6.go:145-195 | it leaves every client at most one if and only if that is so for all |
| Dhcp6.StepKeepsSteady | apps/skoed/internal/dhcp/server6.go:508-625 | every step, every reload included, keeps what a client was told its lease |
| Dhcp6.ToldAddressIsHeld | apps/skoed/internal/dhcp/server6.go:508-635 | after every run, an address that Solicit, Request or Renew told a client is its lease, and nobody else was told it, until the client releases or a reload takes that address from it |
| Dhcp6.OneLeaseOneAddress | apps/skoed/internal/dhcp/server6.go:508-635 | after every run, a client that has at most one lease was told one address only, however many leases it had before |
| Dhcp6.OneAddressUntilRelease | apps/skoed/internal/dhcp/server6.go:508-635 | over all runs in which no reload gives this client a second lease, it is told one address until then, whatever reloads do to others |
| Dhcp6.ReservationGivesTwo | apps/skoed/internal/api/handlers/dhcp_server6.go:197-234 | a reservation of another address for a client that has a lease gives it two, and it can be told both |
| Dhcp6.ReconfigureTakesIff | apps/skoed/internal/dhcp/server6.go:145-169 | a new configuration takes an address from its client if and only if an assignment of it names somebody else, or the lease was static and no assignment has it |
| Dhcp6.LoadTakesIff | apps/skoed/internal/dhcp/server6.go:172-195 | loading persisted leases takes it if and only if an entry of that address names somebody else |
| Dhcp6Packet.Parse | apps/skoed/internal/dhcp/server6.go:326-349 | every byte string is refused or parsed within its bounds, the first occurrence of an option winning |
| Dhcp6Packet.ParseOptions | apps/skoed/internal/dhcp/server6.go:335-347 | the option loop stops at a header or value cut short |
| Dhcp6Packet.ReadIsShort | apps/skoed/internal/dhcp/server6.go:335-347 | no parsed value is 64 KiB or longer |
| Dhcp6Packet.RoundTrip | apps/skoed/internal/dhcp/server6.go:326-364 | parsing a built message recovers type, transaction id and the first option of each code, for values under 64 KiB |
| Dhcp6Packet.OptionsRoundTripIff | apps/skoed/internal/dhcp/server6.go:326-364 | with distinct codes the options come back if and only if every value is under 64 KiB |
| Sorting.SortStrings | apps/skoed/internal/dhcp/connectors.go:584-590 | the in-place loop leaves the insertion-sorted list |
| Sorting.InsertAt | apps/skoed/internal/dhcp/connectors.go:585-589 | the inner loop moves one element down to its place |
| Sorting.SortSorts | apps/skoed/internal/dhcp/connectors.go:584-590 | insertion sorting yields a sorted permutation |
| Sorting.SortOfSorted | apps/skoed/internal/dhcp/connectors.go:584-590 | a sorted list is left alone |
| DualStack.MergeDualStack | apps/skoed/internal/dhcp/manager.go:331-387 | the merge in place returns the merged list |
| DualStack.Classify | apps/skoed/internal/dhcp/manager.go:331-349 | every record is put once on the IPv4 or on the IPv6 side, in order |
| DualStack.FindV4Match | apps/skoed/internal/dhcp/manager.go:391-412 | the first IPv4 record by hardware address, else by host name, else none |
| DualStack.Absorb | apps/skoed/internal/dhcp/manager.go:356-372 | the addresses not yet there are added and sorted, and a missing identifier is filled in |
| DualStack.AbsorbOne | apps/skoed/internal/dhcp/manager.go:351-374 | one IPv6 record is absorbed by its match and marked, or left alone, and no other record is touched |
| DualStack.V4RecordsKept | apps/skoed/internal/dhcp/manager.go:331-387 | every IPv4 record comes out once, in order, its address, hardware address, host name, client id, source and expiry unchanged |
| DualStack.UnmatchedStandAlone | apps/skoed/internal/dhcp/manager.go:376-387 | behind them come exactly the IPv6 records that match none, with sorted addresses: absorbed records vanish |
| DualStack.FoldMatch | apps/skoed/internal/dhcp/manager.go:351-355 | whether a record finds a match does not depend on what was absorbed before it |
| DualStack.MacOfDuid | apps/skoed/internal/dhcp/manager.go:412-431 | the hardware address of an identifier is its last 17 characters in lower case, if those are six whole groups of two between colons; else there is none |
| DualStack.MatchByMac | apps/skoed/internal/dhcp/manager.go:391-410 | an IPv6 record matches the first IPv4 record with that hardware address |
| DualStack.MatchByHost | apps/skoed/internal/dhcp/manager.go:391-410 | without one, the first with its host name, in either case |
| DualStack.NoMatch | apps/skoed/internal/dhcp/manager.go:391-410 | without either, none |
| DualStack.AddressesConserved | apps/skoed/internal/dhcp/manager.go:331-387 | the IPv6 addresses of the output are exactly those of the input |
| DualStack.MergeIdempotentIff | apps/skoed/internal/dhcp/manager.go:331-387 | merging the output again changes nothing if and only if the IPv4-side records that have no address at all and take in an IPv6 record are the last ones on that side, and none of them, with the identifier it takes over, matches one of the others |
| DualStack.MergeIdempotent | apps/skoed/internal/dhcp/manager.go:331-387 | it changes nothing if every record carries some address |
| DualStack.MergeNotIdempotent | apps/skoed/internal/dhcp/manager.go:331-387 | it does if a record without any address takes in an IPv6 record of its host name in front of one with an address |
| LeaseManager.Manager.Apply | apps/skoed/internal/dhcp/manager.go:283-323 | a poll replaces both lookup tables by those of the merged list |
| LeaseManager.Index | apps/skoed/internal/dhcp/manager.go:286-298 | the tables hold each record under its address, or its first IPv6 address, and under every IPv6 address |
| LeaseManager.EveryAddressIsFound | apps/skoed/internal/dhcp/manager.go:283-323 | every address the poll carries is found, and what is found carries it |
| LeaseManager.FoundIsLast | apps/skoed/internal/dhcp/manager.go:283-327 | an address finds the last record known by it, by its IPv4 address or without one by its first IPv6 address; if there is none, the last one that lists it |
| LeaseManager.SameKeyIff | apps/skoed/internal/dhcp/manager.go:251-272 | records whose first four texts hold no bar are equal to replication if and only if they agree in address, hardware address, host name, client id and expiry |
| LeaseManager.SnapshotEquivalent | apps/skoed/internal/dhcp/manager.go:251-272 | counting up and down answers whether the joined keys of the two lists are equal as multisets |
| DnsCache.Cache.constructor | apps/skoed/internal/dns/cache.go:50-56 | an empty cache |
| DnsCache.Cache.Get | apps/skoed/internal/dns/cache.go:60-107 | map, list and counters together do what the recency list does: a hit moves to the front, an expired entry is evicted, a miss counts |
| DnsCache.Cache.Set | apps/skoed/internal/dns/cache.go:112-155 | a known key is refreshed in place; a new key goes to the front, after the back made room in a full cache |
| DnsCache.Cache.Refresh | apps/skoed/internal/dns/cache.go:138-143 | the element is rewritten in place and moved to the front |
| DnsCache.Cache.EvictOldest | apps/skoed/internal/dns/cache.go:145-151 | exactly the element at the back goes, from map and list |
| DnsCache.Cache.PushFront | apps/skoed/internal/dns/cache.go:153-154 | a new element in front, under its key |
| DnsCache.Cache.PurgeAll | apps/skoed/internal/dns/cache.go:190-197 | the cache is empty, the counters stay, and the number of entries is returned |
| DnsCache.Cache.PurgeDomain | apps/skoed/internal/dns/cache.go:205-223 | exactly the entries of the name, in either case and of every type, go, and their number is returned |
| DnsCache.PurgeTakesIff | apps/skoed/internal/dns/cache.go:205-225 | a purge of a domain takes exactly the entries of that name, of every type, in either case and whether or not the domain is written with its trailing dot |
| DnsCache.Cache.PurgeNamed | apps/skoed/internal/dns/cache.go:214-223 | the walk removes exactly the matching entries, in any walk order |
| DnsCache.LookupPairs | apps/skoed/internal/dns/cache.go:64-71 | the map finds a key exactly when the list has it, with the same entry |
| LruSpec.Clamp | apps/skoed/internal/dns/cache.go:84-104 | every record keeps its data, and its time to live becomes the lesser of its own and the remaining life |
| LruSpec.DoKeepsInv | apps/skoed/internal/dns/cache.go:60-223 | every operation keeps the keys distinct and a bounded cache within its bound |
| LruSpec.RunKeepsInv | apps/skoed/internal/dns/cache.go:60-223 | the same after every run |
| LruSpec.Conservation | apps/skoed/internal/dns/cache.go:60-223 | over any run, new-key inserts are entries stored plus evictions plus entries purged |
| LruSpec.StoredIsLastSet | apps/skoed/internal/dns/cache.go:112-155 | what is stored under a key is what was last stored under it |
| LruSpec.HitReturnsLastSet | apps/skoed/internal/dns/cache.go:60-107 | a hit returns the response last stored under the key, aged and not expired |
| LruSpec.HitIff | apps/skoed/internal/dns/cache.go:60-155 | over all runs a lookup of a stored key is a hit if and only if it is before the time of the last cacheable store under the key plus the time to live of its first record, or 60 seconds if that is zero; every time to live of the reply is the lesser of the stored one and the whole seconds left |
| LruSpec.MissWithoutEntry | apps/skoed/internal/dns/cache.go:60-75 | a lookup of a key that is not stored is a miss |
| LruSpec.StoredIsThere | apps/skoed/internal/dns/cache.go:112-155 | a cacheable response just stored is there |
| LruSpec.OnlyStoresAdd | apps/skoed/internal/dns/cache.go:60-225 | nothing but such a store brings a key in |
| LruSpec.GoesIff | apps/skoed/internal/dns/cache.go:60-225 | a key goes if and only if the step is a late lookup of it, a purge that takes it, or a store of a new key in a full cache in which it is last |
| LruSpec.CountersCount | apps/skoed/internal/dns/cache.go:60-110 | hits and misses together count the lookups of the run, and hits those that were answered |
| LruSpec.ListIsByRecency | apps/skoed/internal/dns/cache.go:60-155 | after any run the list is ordered by last touch, most recent first |
| LruSpec.EvictedWasLeastRecent | apps/skoed/internal/dns/cache.go:145-151 | a key evicted for room had at least as many other keys touched since its last touch as the cache may hold |
| LruSpec.EvictedIsGone | apps/skoed/internal/dns/cache.go:145-151 | and it is gone |
| DomainSets.NewDomainSet | apps/skoed/internal/filter/engine.go:45-54 | the set is exactly the non-empty normalised entries |
| DomainSets.Matches | apps/skoed/internal/filter/engine.go:113-124 | the label-stripping loop answers whether the domain is an entry or lies below one |
| DomainSets.StripLabel | apps/skoed/internal/filter/engine.go:113-124 | below an apex means below it after one label is stripped, or the apex itself then |
| Schedules.ClockTimesParse | apps/skoed/internal/filter/schedule.go:153-164 | every time of day written HH:MM is read as its minute of the day |
| Schedules.WindowIsClockInterval | apps/skoed/internal/filter/schedule.go:133-151 | a window is the stretch of clock from start to end, across midnight if need be |
| Schedules.ScheduleActive | apps/skoed/internal/filter/schedule.go:104-115 | active if and only if some window of the day holds the minute |
| Schedules.EvaluateSchedules | apps/skoed/internal/filter/schedule.go:47-90 | no binding, some enforcing binding, or bound and none enforcing: exactly these three outcomes |
| Schedules.SuspendedIff | apps/skoed/internal/filter/schedule.go:47-90 | a list is suspended for a profile if and only if it is bound to a schedule that exists and every such schedule suspends it: an allowing one inside its windows, any other outside them |
| Schedules.ActiveIff | apps/skoed/internal/filter/schedule.go:104-151 | a schedule is on exactly when one of its windows lists the day, in any case, and the minute lies between its start and its end on the clock, across midnight if need be |
| Schedules.ScheduleOnIff | apps/skoed/internal/filter/schedule.go:92-115 | a schedule named by its id is the first one with it |
| Schedules.SignedNumbers | apps/skoed/internal/filter/schedule.go:153-164 | the parts of a time may carry a sign |
| CustomRules.ParseCustomRules | apps/skoed/internal/filter/custom_rules.go:37-51 | the rules of the lines in order, or the first bad line and its number |
| CustomRules.AcceptedIffEveryLineValid | apps/skoed/internal/filter/custom_rules.go:37-51 | a text is accepted if and only if every line is valid, and else the first line that is not is reported |
| CustomRules.FirstBadIsFirst | apps/skoed/internal/filter/custom_rules.go:37-51 | that line is not valid and all before it are |
| CustomRules.RulesInOrder | apps/skoed/internal/filter/custom_rules.go:37-51 | an accepted text has one rule per line that is neither empty nor a comment, in the order of the lines, and each is what its line alone parses to |
| CustomRules.Trimmed | apps/skoed/internal/filter/custom_rules.go:37-51 | what stands around a line's first and last visible character makes no difference |
| CustomRules.LinesJoin | apps/skoed/internal/filter/custom_rules.go:37-51 | the lines are the parts between the line ends |
| CustomRules.Evaluate | apps/skoed/internal/filter/custom_rules.go:115-127 | allow rules are consulted first: matched and allowed if and only if some allow rule matches, matched and blocked if and only if only a block rule does |
| CustomRules.SpellingsAgree | apps/skoed/internal/filter/custom_rules.go:53-93 | a plain domain, the same with a wildcard label before it, and the same between two bars and a caret make the same rule |
| CustomRules.PatternRule | apps/skoed/internal/filter/custom_rules.go:53-93 | whatever stands between two slashes is a pattern, even nothing, of an allow or a block rule, and is refused if it does not compile |
| CustomRules.AnchorEndsRule | apps/skoed/internal/filter/custom_rules.go:53-102 | behind the anchor of a domain anything but bars is refused |
| CustomRules.WhiteSpace | apps/skoed/internal/filter/custom_rules.go:37-51 | the white space taken off a line is that of ASCII, at both ends |
| CustomRules.SomeRuleIff | apps/skoed/internal/filter/custom_rules.go:104-127 | a rule decides wherever in the list it stands |
| CustomRules.RuleAgreesWithDomainSet | apps/skoed/internal/filter/custom_rules.go:104-109 | an exact rule, however spelled, and a domain set with the same entry match the same domains |
| Allowlists.SplitAllowlistEntries | apps/skoed/internal/filter/engine.go:66-94 | the split puts exactly the live, non-empty entries into the bucket of their schedule |
| Allowlists.CheckAllow | apps/skoed/internal/filter/engine.go:98-110 | allowed if and only if an entry always in force covers the domain, or one whose schedule is active |
| Allowlists.SplitKeepsMeaning | apps/skoed/internal/filter/engine.go:66-110 | the split list allows exactly what some entry allows |
| Allowlists.LaterBuildAllowsNoMore | apps/skoed/internal/filter/engine.go:66-94 | built later from the same entries, an allowlist allows nothing more |
| Allowlists.MoreEntriesWithin | apps/skoed/internal/filter/engine.go:66-94 | adding entries only enlarges what is allowed |
| Profiles.ProfilesMatching | apps/skoed/internal/filter/engine.go:639-709 | device registry, client id, hardware address and host name in this order decide alone; else the address tier, else the default profile |
| Profiles.DeviceDecides | apps/skoed/internal/filter/engine.go:640-646 | a registered device decides, whatever the rest of the identity is |
| Profiles.ClientIdDecides | apps/skoed/internal/filter/engine.go:647-656 | else the first profile that lists the non-empty client id |
| Profiles.MacDecides | apps/skoed/internal/filter/engine.go:657-666 | if none does, the first that lists the hardware address in lower case |
| Profiles.HostnameDecides | apps/skoed/internal/filter/engine.go:667-675 | if none does, the first that lists the host name |
| Profiles.AddressDecides | apps/skoed/internal/filter/engine.go:676-709 | if none does, exactly the profiles that take the client by its address, or the default one |
| Profiles.BelowMakesNoDifference | apps/skoed/internal/filter/engine.go:639-709 | so two clients alike down to the identity that decides get the same profiles, whatever differs below it |
| Profiles.MatchesProfileIp | apps/skoed/internal/filter/engine.go:440-463 | an address or block of the profile, or the default profile that selects nobody |
| Profiles.InByAddress | apps/skoed/internal/filter/engine.go:675-703 | by address a client is in exactly the profiles that select it or take dynamic clients while its lease is dynamic |
| FilterEngine.EvaluateForClientID | apps/skoed/internal/filter/engine.go:478-600 | the pipeline returns the decision: the first of pause, custom rules, allowlists, matched profiles in order, unreferenced lists |
| FilterEngine.IsPaused | apps/skoed/internal/filter/engine.go:549-572 | a profile is paused for this client by its own pause, scoped to addresses or not, or by the global one that names it |
| FilterEngine.WalkMatched | apps/skoed/internal/filter/engine.go:545-596 | the first list that applies for the first unpaused matched profile, and whether some profile was paused |
| FilterEngine.WalkOrphans | apps/skoed/internal/filter/engine.go:609-622 | the first unmanaged list that no profile refers to and that covers the domain |
| FilterEngine.Evaluate | apps/skoed/internal/filter/engine.go:760-792 | the form without a client: custom rules, global allowlist, lists in order |
| FilterProperties.BlockedIff | apps/skoed/internal/filter/engine.go:478-633 | a query is blocked if and only if there is no pause of all profiles, no custom allow rule, and a custom block rule decides, or nothing allows the domain and some unpaused matched profile's unsuppressed list, the implicit default's lists, or an unmanaged unreferenced list covers it |
| FilterProperties.BlockNamesItsCause | apps/skoed/internal/filter/engine.go:478-633 | what a block names is the custom rules, or a list that covers the domain, with that list's policy |
| FilterProperties.SameIdentitySameVerdict | apps/skoed/internal/filter/engine.go:478-709 | two clients that differ only below the identity that decides get the same verdict, unless a pause scoped to addresses tells them apart |
| FilterProperties.PausedUntil | apps/skoed/internal/filter/engine.go:484-487 | a global pause of all profiles lets everything through until it ends |
| FilterProperties.PauseLifts | apps/skoed/internal/filter/engine.go:478-600 | from its end on it makes no difference |
| FilterProperties.ProfilePauseHolds | apps/skoed/internal/filter/engine.go:539-564 | a profile is paused until its pause ends, for everybody or for exactly the addresses named |
| FilterProperties.PausedProfilesBlockNothing | apps/skoed/internal/filter/engine.go:536-600 | a client of paused profiles only is blocked by custom rules and lists for everybody alone |
| FilterOutcomes.FirstListDecides | apps/skoed/internal/filter/engine.go:536-590 | when neither rules nor allowlists decide, the first list in force of the first matched profile that is not paused blocks, under its own name and policy: of profiles with one id the first row counts, of lists with one id the last |
| FilterOutcomes.OrphanDecides | apps/skoed/internal/filter/engine.go:592-633 | if no matched profile blocks, the first unmanaged list that no profile names and that covers the domain does, for every client |
| FilterOutcomes.NothingDecides | apps/skoed/internal/filter/engine.go:536-600 | if there is none either, the query is let through, and the answer says whether a matched profile is paused |
| FilterOutcomes.AllowedIff | apps/skoed/internal/filter/engine.go:497-534 | an allowlist lets a domain through if and only if it is the global one, that of a matched profile, or one shared with such a profile |
| FilterOutcomes.CustomDecides | apps/skoed/internal/filter/engine.go:484-495 | a custom allow rule wins over a custom block rule, and either over all lists, unless all profiles are paused |
| FilterOutcomes.AllowlistDecides | apps/skoed/internal/filter/engine.go:489-534 | what an allowlist lets through is let through, unless a custom rule has decided |
| FilterOutcomes.NamedPauseHolds | apps/skoed/internal/filter/engine.go:558-564 | a global pause that names profiles pauses those until it ends, and no other |
| FilterOutcomes.PlainListDecides | apps/skoed/internal/filter/engine.go:760-792 | without a client the first covering list blocks |
| FilterProperties.MatchedBlockIff | apps/skoed/internal/filter/engine.go:545-596 | the walk finds a list if and only if some unpaused matched profile blocks |
| FilterProperties.AllowingMoreBlocksNoMore | apps/skoed/internal/filter/engine.go:478-600 | enlarging the global, profile or shared allowlists never turns an allowed query into a blocked one |
| FilterProperties.BareAgreesIff | apps/skoed/internal/filter/engine.go:760-792 | without profiles, device and pause the two forms agree if and only if no shared allowlist that names the default profile decides alone |
| FilterProperties.SharedListMayDecideAlone | apps/skoed/internal/filter/engine.go:526-541 | such a list exists |
| Walks.EndsIffAcyclic | apps/skoed/internal/dns/local.go:125-155 | walks along aliases all end if and only if there is no cycle |
| Walks.AcyclicEnds | apps/skoed/internal/dns/local.go:125-155 | without a cycle a walk ends within as many steps as there are names |
| Walks.CycleNeverEnds | apps/skoed/internal/dns/local.go:125-155 | a walk on a cycle never ends |
| LocalDns.NewLocalResolver | apps/skoed/internal/dns/local.go:18-27 | the table holds, under each lower-case name with its dot, exactly the entries of that name in order |
| LocalDns.AddressesAnswer | apps/skoed/internal/dns/local.go:48-93 | a name with records of the kind asked for is answered with exactly those, in the order of the entries, IPv4 addresses for A and IPv6 addresses for AAAA |
| LocalDns.AddressesInOrder | apps/skoed/internal/dns/local.go:49-66 | the addresses come in the order of the entries, each once |
| LocalDns.AliasAnswers | apps/skoed/internal/dns/local.go:67-155 | a name without such records but with an alias is answered with the first alias, and what its target resolves to |
| LocalDns.NothingAnswers | apps/skoed/internal/dns/local.go:32-155 | a known name with neither is answered with nothing |
| LocalDns.AliasesInOrder | apps/skoed/internal/dns/local.go:95-117 | the reply to an alias query has every alias of the name, in order, each followed by the IPv4 and then the IPv6 addresses of its target |
| LocalDns.AliasQueryIff | apps/skoed/internal/dns/local.go:95-122 | there is such a reply if and only if the name has an alias |
| LocalDns.SpellingsOfAName | apps/skoed/internal/dns/local.go:32-41 | a name is looked up alike in every case and with or without the trailing dot |
| LocalDns.Resolve | apps/skoed/internal/dns/local.go:32-122 | the lookup returns the reply for every query type, and ends whenever the walk along aliases does |
| LocalDns.ResolveCname | apps/skoed/internal/dns/local.go:125-155 | the first alias, then what its target resolves to |
| LocalDns.ResolveAliases | apps/skoed/internal/dns/local.go:93-118 | every alias with the addresses of both kinds of its target |
| LocalDns.AppendAddresses | apps/skoed/internal/dns/local.go:49-66 | exactly the records whose value parses, in order, owned by the name |
| LocalDns.AppendCnameTarget | apps/skoed/internal/dns/local.go:158-205 | the addresses of the target are appended, if it has local entries |
| LocalDns.AnswerIffChain | apps/skoed/internal/dns/local.go:32-155 | on every table without a cycle each lookup ends, and its answer is the one chain from the name |
| LocalDns.ChainIsLinked | apps/skoed/internal/dns/local.go:125-155 | a chain is aliases linked from the query name on, then only addresses of the kind asked for, all of the last target |
| ShadowWriter.StepKeepsInv | apps/skoed/internal/cluster/shadow_yaml.go:89-161 | every step keeps a file that lags covered by a signal, an apply about to signal or a write to come |
| ShadowWriter.NoLostWrite | apps/skoed/internal/cluster/shadow_yaml.go:115-161 | over all runs, when the file lags the store an apply is about to signal, a signal is pending, or the writer is bound to write |
| ShadowWriter.IdleMeansUpToDate | apps/skoed/internal/cluster/shadow_yaml.go:115-161 | a writer at rest has left the file equal to the latest state |
| ShadowWriter.CatchesUp | apps/skoed/internal/cluster/shadow_yaml.go:115-161 | from every point of every run before a stop, at most five steps of the goroutines bring the writer to rest with the file equal to the latest state, unless a write is owed that nothing signals |
| ShadowWriter.StopFlushesIff | apps/skoed/internal/cluster/shadow_yaml.go:105-140 | at every point of every run before a stop: however it goes on, the writer leaves the file equal to the latest state, if and only if a signal is pending, or the writer is bound to write that state, or the file has it and nothing is being written |
| ShadowWriter.StopFlushes | apps/skoed/internal/cluster/shadow_yaml.go:105-140 | so a stop of a started writer with no apply in flight and nothing owed flushes |
| ShadowWriter.StopMidApplyLoses | apps/skoed/internal/cluster/shadow_yaml.go:124-136 | a stop between an apply's commit and its signal does not |
| ShadowWriter.RestoreIsNotMirrored | apps/skoed/internal/cluster/fsm.go:46-86 | a restored snapshot signals nobody: the file keeps the old state |
| ShadowWriter.NextApplyCatchesUp | apps/skoed/internal/cluster/shadow_yaml.go:115-161 | the next apply mirrors everything |
| QueryLog.ShiftLeft | apps/skoed/internal/log/query.go:90-93 | the in-place copy drops the oldest entry |
| QueryLog.Log.constructor | apps/skoed/internal/log/query.go:62-71 | an empty log; a negative limit is none |
| QueryLog.Log.Append | apps/skoed/internal/log/query.go:84-95 | the entry is added behind, in a full log after the oldest is dropped; nothing is stored with a limit of zero |
| QueryLog.Log.Push | apps/skoed/internal/log/query.go:94-94 | appending, into a larger array if this one is full, adds one entry and changes no other |
| QueryLog.Log.SetMaxEntries | apps/skoed/internal/log/query.go:195-206 | the newest entries within the new limit stay |
| QueryLog.Log.Query | apps/skoed/internal/log/query.go:141-176 | the page of the matching entries, newest first, and their number before paging |
| QueryLog.Log.Snapshot | apps/skoed/internal/log/query.go:181-191 | the last n entries, oldest first |
| QueryLog.EntriesAreNewest | apps/skoed/internal/log/query.go:84-206 | after any run the entries are the newest of everything appended, exactly as many as the limits left, and within the limit |
| QueryLog.QueryPagesTile | apps/skoed/internal/log/query.go:141-176 | consecutive pages tile the matching entries without gap or repeat |
| QueryLog.PageShows | apps/skoed/internal/log/query.go:141-176 | an entry that is asked for stands on the page at the place given by how many newer ones are asked for, whenever offset and limit take that place in |
| QueryLog.PageSize | apps/skoed/internal/log/query.go:162-175 | a page has what is left behind the offset, up to the limit if there is one |
| QueryLog.LimitInForce | apps/skoed/internal/log/query.go:62-206 | the limit in force is the last one set, or the first one, and a negative one keeps nothing |
| Paging.PagesTile | apps/skoed/internal/log/query.go:162-175 | consecutive pages of any list tile it |

## Left out

- Raft, the embedded database, file copies, fsync and rename: log order and transactions are atomic, and an image is taken at its index, as the comment in fsm.go says of it; a restart from a saved image is a restore of that image, and one without any image is not a step of the system.
- Reapply.AppliedAgain: what applying several entries again leaves in buckets other than the audit log is stated for one entry only (Reapply.LastEntryAgainIff).
- Certificates, TLS, hashing and random ids: the certificate commands are not commands of the model, and hashes and ids are values.
- JSON and YAML: documents are values, and decoding errors of a command's payload are not modelled.
- HTTP handlers, metrics, callbacks and notifications beyond the store write itself.
- JoinTokens.VotersHadValidTokens: the certificate that MintLeafForJoin hands out before enrollment is not part of this model.
- StoreModel.AreaFrame: webhooks, devices, categories, leases and other documents that no command inspects are one family of buckets with one upsert and one removal.
- StoreObject.RunTx: commands that are single reads and writes of a bucket are taken over from the rule they are specified by.
- Replication.ReplicasAgree: first-seen times of new clients are not compared, since each node notes them for itself.
- Dhcp4.Server.Allocate: lease lifetimes are not modelled, as the allocator never takes back a lease that ran out; the hardware address repeated in a lease is not kept.
- Dhcp4Runs.AssignedAddressStays: the pool is the one the packet was handled with; when a configuration takes effect is not modelled.
- Dhcp4.Server.FinishDiscover: the handler's first section is a read of the table; lease objects are values, since the program never changes the address of a lease object.
- Dhcp6Packet.RoundTrip: the bodies of the identity association and the domain list are bytes.
- DualStack.MergeDualStack: what the call leaves in the caller's own list, marks and sorted addresses, is not stated; slices that share memory are not modelled.
- LeaseManager.Manager.Apply: history, spoof detection and the ARP sweep are not modelled.
- DnsCache.Cache.Get: counters do not wrap at 64 bits; list elements are named by ids into a store of elements.
- DnsCache.Cache.PurgeDomain: an escaped trailing dot is not told from a plain one.
- DomainSets.Matches: lower case is that of ASCII.
- CustomRules.Evaluate: which patterns compile and what they match is given from outside.
- FilterEngine.EvaluateForClientID: how lists are downloaded and parsed, and the answer the policy produces, are not modelled; addresses are numbers and blocks ranges of them; the device registry's and the lease lookup's answers come with the client.
- Allowlists.SplitAllowlistEntries: plain strings of the older lists count as entries without schedule and expiry.
- LocalDns.Resolve: parsing of address texts is given with each entry, and lifetimes are not cut to 32 bits.
- ShadowWriter.StopFlushes: the file's content stands for the document written from the store; that the goroutine goes on running is not proved.
- QueryLog.Log.Append: observers and stream subscribers are not modelled; ids of entries without one come from outside.
- Upstream forwarding, the recursor, safe search and DNSSEC: their results come from remote servers or are presentation.
- The hourly statistics aggregator: an observation during a commit can be lost, so it conserves nothing across nodes.
