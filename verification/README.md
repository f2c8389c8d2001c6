# Verified models of Hyphae

Hyphae is an embedded retrieval and storage engine with a body of tooling around it. This project
models two groups of its parts in Dafny and proves what they promise:

- the **commit path of the native engine**: the write-ahead log from its bytes up, recovery after a
  crash, first-committer-wins admission, and the publication of root sets to snapshots;
- the **tooling**: the evaluation harness that ranks and scores retrieval results, the integer cosine
  scorer, the release pipeline that binds hosted checks, software bills of materials, dependency
  inventories and checksums to one commit, and the fail-closed validators for execution topologies,
  calibration receipts and conformance receipts.

Code that computes values is modelled by functions and lemmas. Code that works by loops over changing
variables is modelled by methods with invariants, each proved against a specification that does not
mention the loop. Objects that are updated in place are classes: the log file, the conflict table and
the Syft document that the release tool rewrites. The commit coordinator, whose methods are serialized
by a lock, is a state machine with the lock in its state, and its theorems range over every run.

Conventions shared by the modules:

- Exceptions are values of `Results.Result`; a tool that collects failures returns a sequence of them.
- Python's integers are Dafny's `int`. Floating-point scores, discounts and means are `real`, so
  rounding is not part of any statement.
- Widths are explicit where they matter: log fields are little-endian byte strings, and sequence
  numbers are exhausted at 2^64.
- A layer that only needs a round trip of the layer below takes that layer as a parameter: blocks are
  proved over any faithful record codec, files over any sound block format, recovery over any bodies
  that read back. `WalFile.LogFormatIsSound` discharges the assumptions on records and blocks.
  `WalTransaction.AcceptedIsSound` discharges those on bodies for plans whose mutations are well
  formed; the writer does not ensure that, and `WalRecovery.AcceptedYetRefused` shows what follows.
  Recovery is proved over any rules on shapes, markers, checkpoints and outcomes; `NativeLog` puts in
  the engine's own rules, so that only the digest and the size of a mutation in memory stay open.
- The logarithmic discount of the ranking metrics is an arbitrary positive nonincreasing sequence, and
  a cryptographic hash is an arbitrary function to 64 hexadecimal digits.
- Rows about the runtime's commit and start cite the format documents that fix them. The modelled code
  is in `crates/hyphae-native-runtime/src/lib.rs`: admission of one commit from line 20838, of a group
  from 21016 and 28172, its staging from 22591, conflict keys from 27872 and 28031, what is logged
  from 30873, replay of the conflict table from 37814, closing a cut transaction from 37876.
- Where code and documents differ the model follows the code. The documents say that recovery rebuilds
  the conflict authorities of live admission; the code does not derive looked-up unique keys again.
  They also say that one rejected request does not reject the others of its group; the code fails the
  whole group for a foreign request and for an admitted one that cannot be staged.
- The checkout, the hosted API answers and the release directory are fixed snapshots.
- Documents arrive as typed records. Where the source distinguishes a missing or ill-typed field in a
  way that matters, the record has a constructor for it.

## Results worth reading first

- **Log format.** Records and blocks are read back as written, and every accepted block is the one
  encoding of what it says, byte for byte. For commit manifests and mutations that is false, and the
  exact exceptions are given with witnesses. A plan is recovered exactly when each of its mutations
  has the engine, the form and the value that a table gives for its opcode.
- **The language of the log.** Recovery accepts a log exactly when it is made up of whole transactions
  whose begin and commit records both account for the number, the bytes and the digest of the mutation
  records between them, of abandoned ones and of maintenance records. What is digested tells different
  mutation records apart.
- **Markers.** The authority markers that close a transaction are accepted exactly when they trail the
  other mutations, are sorted, unique and of one version, and count exactly the vector writes to the
  indexes that need them.
- **Checkpoints and outcomes.** In every log that recovery accepts the checkpoints form one chain over
  its commits, every request is decided at most once and under one name, and no outcome claims a
  commit that is not there. Crashes and starts keep all of that.
- **Crash recovery.** Whatever prefix of the log file a crash keeps, reading and recovering it
  succeeds and returns exactly the transactions complete in it: a prefix of those committed, never
  less than what was durable. This goes on through any number of lives of the file, with checkpoints
  and outcomes in it, each start closing the transaction that was cut. Any log that recovery accepts
  holds each recovered transaction whole and accounted for.
- **Admission.** A transaction is admitted exactly when nothing it checks was written after its
  snapshot; hence no lost updates. A group decides as single commits would exactly when its size is
  allowed, it owns every request, every request that commits alone at its turn has group durability
  and replays if the group holds a materialized one, and every admitted one can be staged. Requests of
  one kind and of group durability meet that over any history; a strict request and a request of
  another owner show that durability and owners matter. After a start the replayed conflict table is
  at or below the lost one and agrees with it on every key that its last writer did not forget.
  Snapshots taken after the start do not depend on the table at all, so what is forgotten cannot
  matter.
- **Conflicts.** The keys that a batch publishes and checks are exactly those of the things its
  mutations claim and rely on. Between single changes exclusion is exact: a change to a whole hash or
  set excludes later work on its parts, and not the other way round.
- **Publication.** Over every run commit numbers have no gaps, floors and page generations only rise,
  dropped transactions leave no trace, and snapshots keep naming the root they took. A commit publishes
  the last page staged for every slot, over its base and nothing else, and so does each stage of a
  group; when a commit fails is exact.
- **Ranking.** For any ranking, with repeats or without, NDCG is at most one under every discount
  exactly when no prefix gathers more than the ideal prefix; it suffices that no relevant document
  repeats within the cutoff. The case of equality is exact too, and so is when a neighbour exchange
  raises the score. Recall is one exactly when everything relevant is within the cutoff, and grows
  by one share with each new relevant document.
- **Sharded search.** Merging the top hits of each collection gives the top hits of their union.
- **Integer cosine.** Cauchy-Schwarz over sequences and integer roots: the clamp never acts and
  quantized vectors never raise. The score is not the rounded cosine: it never understates it by more
  than half a unit, can overstate it widely on short vectors, is nearest under an exact integer
  condition, and on quantized vectors stays within one and a half units.
- **Hosted checks.** When a report is drafted, and which, is stated over the hosted answers alone: a
  completed and successful check, run, job and guard behind every record. A drafted report can be
  rejected only because the checks of one workflow were selected from two runs of it. Wherever
  twenty successful checks are placed, a report is drafted; it is rejected when each has a run of
  its own and accepted when each workflow has one. Selection is order-independent, a fixpoint, and
  never hides a newer run.
- **Bill of materials.** The verdict on every artifact is exact, and a concluded document gives
  every artifact of the project its two licenses, its manifest as evidence and its version.
  Concluding twice is concluding once, exactly when no linked package with CPEs takes a version that
  holds a colon; a whole document that cannot be concluded twice is included.
- **Graphs.** The dependency closure is exact reachability with exact edge kinds on any graph, and the
  audit's verdict is exact for any order in which sets are read, with the inputs on which that order
  matters; a clean release graph publishes in every layer order, and the gate's dependency rules are
  exactly what that needs.
- **Validators.** Exact acceptance conditions, the unreachable branch of the topology checker, the
  breakdown point of the median, receipts that always pass their own validator, the reviewed profiles
  that cannot be run, and the exact condition under which a checksum file can be read back.

## Model

| member | source | states |
|---|---|---|
| `Bytes.ReadOfLe` | crates/hyphae-native-wal/src/lib.rs:724-742 | a little-endian number that fits its width is read back |
| `Bytes.LeOfRead` | crates/hyphae-native-wal/src/lib.rs:724-742 | every byte string is the little-endian form of the number read from it |
| `Bytes.SplitOfJoin` | crates/hyphae-native-wal/src/lib.rs:308-333 | fields written at fixed offsets are found there again |
| `Bytes.JoinOfSplit` | crates/hyphae-native-wal/src/lib.rs:335-373 | the fields cut at fixed offsets make up the whole |
| `WalBlock.DecodeOfEncode` | crates/hyphae-native-wal/src/lib.rs:308-380 | every valid record is read back as written, for any checksum function |
| `WalBlock.EncodeOfDecode` | crates/hyphae-native-wal/src/lib.rs:308-380 | every accepted record encoding is the one encoding of its record |
| `WalBlock.CodecIsFaithful` | crates/hyphae-native-wal/src/lib.rs:308-380 | the record codec round-trips in both directions |
| `WalBlock.RecordsOfPayload` | crates/hyphae-native-wal/src/lib.rs:638-678 | a payload of addressed records is cut into exactly those records |
| `WalBlock.PayloadOfRecords` | crates/hyphae-native-wal/src/lib.rs:638-678 | accepted payloads hold valid, consecutively addressed records and nothing else |
| `WalBlock.DecodeRecords` | crates/hyphae-native-wal/src/lib.rs:638-678 | the offset loop returns the records of a payload, or the first error |
| `WalBlock.DecodeOfEncodeBlock` | crates/hyphae-native-wal/src/lib.rs:503-697 | every sealed block is 65536 bytes and is read back as written |
| `WalBlock.EncodeOfDecodeBlock` | crates/hyphae-native-wal/src/lib.rs:503-697 | every accepted block is numbered, chained, addressed and sealed by its digest, and its bytes are its one encoding |
| `WalBlock.PlaceRecords` | crates/hyphae-native-wal/src/lib.rs:440-466 | the loop assigns each record the address where the one before it ends, or fails at the first that does not fit |
| `WalBlock.BuildSeals` | crates/hyphae-native-wal/src/lib.rs:423-480 | a built block is sealed and carries the records it was given |
| `WalBlock.BuildSucceeds` | crates/hyphae-native-wal/src/lib.rs:423-480 | a nonempty group that fits builds at every addressable sequence number |
| `WalFile.FormatIsSound` | crates/hyphae-native-wal/src/lib.rs:423-697 | the block format meets what the file relies on |
| `WalFile.LogFormatIsSound` | crates/hyphae-native-wal/src/lib.rs:308-697 | the log's own format of records and blocks is sound for any hash functions of the right lengths |
| `WalFile.Pack` | crates/hyphae-native-wal/src/lib.rs:1609-1634 | packing keeps all records in order, fills each block within the payload and starts a new one only when needed |
| `WalFile.ScanSound` | crates/hyphae-native-wal/src/lib.rs:1510-1592 | what opening reads is a digest chain, and the file holds exactly its encoding |
| `WalFile.ScanComplete` | crates/hyphae-native-wal/src/lib.rs:1510-1592 | a file that begins with the encoding of a chain is read as that chain |
| `WalFile.ReadBlocks` | crates/hyphae-native-wal/src/lib.rs:1510-1565 | the block loop succeeds exactly for a proper base, addressable numbers and a chain, and returns it |
| `WalFile.TornTail` | crates/hyphae-native-wal/src/lib.rs:1566-1592 | a file cut anywhere is read as its complete blocks |
| `WalFile.WalFile.Create` | crates/hyphae-native-wal/src/lib.rs:1481-1493 | a new file is an empty chain ready for its first block |
| `WalFile.WalFile.Resume` | crates/hyphae-native-wal/src/lib.rs:1566-1592 | opening cuts a torn tail and is ready after the last complete block |
| `WalFile.WalFile.WriteBlock` | crates/hyphae-native-wal/src/lib.rs:1638-1665 | one block extends the chain, or the write is torn and the chain stands |
| `WalFile.WalFile.WriteGroups` | crates/hyphae-native-wal/src/lib.rs:1638-1665 | the loop writes the groups in order until the device fails |
| `WalFile.WalFile.AppendRecords` | crates/hyphae-native-wal/src/lib.rs:1599-1670 | on success the new blocks carry exactly the records; on a failed write or synchronization the writer is poisoned and the file carries a prefix of them |
| `WalFile.WalFile.SyncData` | crates/hyphae-native-wal/src/lib.rs:1675-1684 | synchronizing makes everything written durable, or fails and poisons the writer |
| `WalFile.WalFile.CrashKeepsPrefix` | crates/hyphae-native-wal/src/lib.rs:1510-1670 | after a crash that keeps what was synchronized, a prefix of the blocks with every synchronized one is read |
| `WalTransaction.BeginReadsBack` | crates/hyphae-native-runtime/src/wal_codec.rs:890-944 | every begin body is read back as written |
| `WalTransaction.CommitReadsBack` | crates/hyphae-native-runtime/src/wal_codec.rs:226-308 | every commit manifest is read back as written, in the first or second version |
| `WalTransaction.CommitCanonicalIff` | crates/hyphae-native-runtime/src/wal_codec.rs:226-308 | an accepted commit body is the encoding of its manifest unless it is the second version with first storage |
| `WalTransaction.SecondVersionAccepted` | crates/hyphae-native-runtime/src/wal_codec.rs:226-308 | every manifest of first storage is also accepted in the second version, so the exception is real |
| `WalMutation.MutationReadsBackIff` | crates/hyphae-native-runtime/src/wal_codec.rs:124-144 | under any shape rules, a mutation is read back exactly when its engine is that of its opcode and its shape fits, and is refused otherwise |
| `WalMutation.MutationCanonicalIff` | crates/hyphae-native-runtime/src/wal_codec.rs:1144-1221 | an accepted mutation body is the encoding of its mutation unless it names an expiry without the flag |
| `WalMutation.UnflaggedIsAccepted` | crates/hyphae-native-runtime/src/wal_codec.rs:1144-1221 | such a body is accepted, so the exception is real |
| `WalTransaction.AcceptedIsSound` | crates/hyphae-native-runtime/src/wal_codec.rs:466-599 | the records of an accepted plan are valid log records, and they read back exactly when every mutation is well formed, which the writer does not look at |
| `WalRecovery.Recover` | crates/hyphae-native-runtime/src/wal_codec.rs:666-743 | the loop over records is the run of the recovery machine, and it returns a state exactly when the log reads as that state: whole transactions whose begin and commit records account for number, bytes and digest of the records between, abandoned ones, maintenance records, and at most one transaction open at the end |
| `WalRecovery.ReadPart` | crates/hyphae-native-runtime/src/wal_codec.rs:666-743 | after some records of a transaction recovery holds exactly the mutations read so far, and no new commit |
| `WalRecovery.ReadWhole` | crates/hyphae-native-runtime/src/wal_codec.rs:666-743 | the records of a sound plan are recovered as one commit with its manifest and mutations |
| `WalRecovery.RecoveredIff` | crates/hyphae-native-runtime/src/wal_codec.rs:466-743 | under any shape rules, an accepted plan is recovered if and only if all its mutations are well formed |
| `WalRecovery.AcceptedYetRefused` | crates/hyphae-native-runtime/src/wal_codec.rs:466-743 | a plan that the writer accepts and recovery refuses |
| `WalRecovery.AbortCloses` | crates/hyphae-native-runtime/src/wal_codec.rs:720-735 | an abort record closes the transaction under way and leaves nothing of it |
| `WalRecovery.CommitsAreNamed` | crates/hyphae-native-runtime/src/wal_codec.rs:666-743 | the transactions recovered from any accepted log are those of its commit records, in order |
| `WalRecovery.PrefixRecovers` | crates/hyphae-native-runtime/src/wal_codec.rs:666-743 | any prefix of any accepted log is accepted and returns exactly the transactions whose commit record it holds, unchanged |
| `WalRecovery.AcceptedIsOrderly` | crates/hyphae-native-runtime/src/wal_codec.rs:666-743 | in any accepted log commit numbers increase, and every recovered transaction stands whole and unbroken with the mutations recovered, its begin record and its manifest both giving the number, the bytes and the digest of them |
| `WalRecovery.AcceptedIff` | crates/hyphae-native-runtime/src/wal_codec.rs:666-1007 | the language of the log, stated over record bytes: recovery returns a state if and only if the records are framed, accounted for and ordered as that state says |
| `WalRecovery.DigestedTells` | crates/hyphae-native-runtime/src/wal_codec.rs:1777-1795 | what is digested of a transaction tells the engines, lengths and bodies of its mutation records apart |
| `MutationShape.AuthorityReadsBackIff` | crates/hyphae-native-runtime/src/wal_codec.rs:1470-1531 | an authority marker is read back exactly when its sequence moves by its number of operations, view and overlay change and nothing in it is zero |
| `MutationShape.TargetIff` | crates/hyphae-native-runtime/src/wal_codec.rs:1645-1711 | a mutation that fits has a target exactly when it belongs to a table or an index, compaction aside, or creates a catalog object |
| `MutationShape.ExpiryOnlyIf` | crates/hyphae-native-runtime/src/wal_codec.rs:1288-1365 | expiring opcodes must name an expiry, and else only setting a value and creating a lexical index may |
| `MutationShape.MemberIdentityIff` | crates/hyphae-native-runtime/src/wal_codec.rs:1763-1775 | a member's name is accepted exactly when it is a length, a key of that length and the member |
| `MutationForms.EngineRows` | crates/hyphae-native-runtime/src/wal_codec.rs:1009-1141 | the engine of every opcode, row by row |
| `MutationForms.ShapeIff` | crates/hyphae-native-runtime/src/wal_codec.rs:1224-1405 | a mutation has the shape of its opcode exactly when target, key, value and expiry are as the row of its opcode in a table says |
| `MutationForms.OldConsolidationIff` | crates/hyphae-native-runtime/src/wal_codec.rs:1407-1447 | the short consolidation value is accepted exactly when it is the bytes of a sound consolidation |
| `MutationForms.ConsolidationIff` | crates/hyphae-native-runtime/src/wal_codec.rs:1407-1447 | the long consolidation value is accepted exactly when it says a sound consolidation of its own index |
| `MutationForms.BulkIff` | crates/hyphae-native-runtime/src/wal_codec.rs:1449-1462 | a bulk publication is accepted exactly when it is the bytes of a sound one |
| `MutationForms.AuthorityIff` | crates/hyphae-native-runtime/src/wal_codec.rs:1470-1531 | a marker is accepted exactly when it is the one encoding of a sound authority for its own index |
| `MutationForms.FitsIff` | crates/hyphae-native-runtime/src/wal_codec.rs:1144-1365 | all of recovery's rules on a mutation are the table of forms and the rules on values |
| `MarkerRules.KeptSnoc` | crates/hyphae-native-runtime/src/wal_codec.rs:1533-1643 | one more mutation keeps the marker rules exactly under the condition that the scan checks |
| `MarkerRules.ValidateMarkers` | crates/hyphae-native-runtime/src/wal_codec.rs:1533-1643 | the loop accepts a list exactly when markers trail, are sorted, unique, of one version, exact and complete |
| `MarkerRules.RoleRows` | crates/hyphae-native-runtime/src/wal_codec.rs:1533-1643 | the opcodes that upsert, write, fence, create, rebuild and mark, row by row |
| `MarkerRules.MarkerFitsIff` | crates/hyphae-native-runtime/src/wal_codec.rs:1464-1531 | a marker fits on its own exactly when it is a bare search mutation of an index with the fixed first-version text or the encoding of a sound authority for that index, whose count is the one compared |
| `Maintenance.CheckpointReadsBackIff` | crates/hyphae-native-runtime/src/wal_codec.rs:598-618 | a checkpoint is read back exactly when its manifest digest is not all zero, which the writer does not check |
| `Maintenance.OutcomeReadsBackIff` | crates/hyphae-native-runtime/src/wal_codec.rs:632-659 | the writer takes an outcome in one of three states, with a commit number exactly in the first; it is read back exactly when principal and token are not all zero, which the writer does not check |
| `Maintenance.RecoverOutcome` | crates/hyphae-native-runtime/src/wal_codec.rs:745-787 | the search from the end and the update in place: an outcome is taken exactly if the last entry that concerns it is the same request, still unknown, its transaction is its own and its commit is there |
| `Maintenance.PriorDecides` | crates/hyphae-native-runtime/src/wal_codec.rs:754-770 | over a table without double entries the last prior entry stands for all |
| `Maintenance.ChainedGrows` | crates/hyphae-native-runtime/src/wal_codec.rs:826-863 | along a chain of checkpoints generations rise and visibility never shrinks |
| `Maintenance.AcceptedIsMaintained` | crates/hyphae-native-runtime/src/wal_codec.rs:745-863 | in every accepted log checkpoints form one chain over its commits, requests are decided at most once and under one name, and committed outcomes name a commit |
| `Maintenance.AllAreThere` | crates/hyphae-native-runtime/src/wal_codec.rs:745-887 | every checkpoint and every outcome record of an accepted log is in the recovered tables, decoded and in order |
| `NativeLog.NativeIsNative` | crates/hyphae-native-runtime/src/wal_codec.rs:666-863 | the engine's bodies and rules meet the assumptions of the log model for every digest of 32 bytes |
| `NativeLog.NativeReadsBackIff` | crates/hyphae-native-runtime/src/wal_codec.rs:1144-1365 | a mutation is read back exactly when it has the engine, the form and the value of its opcode in the table |
| `NativeLog.NativeRecoveredIff` | crates/hyphae-native-runtime/src/wal_codec.rs:466-743 | an accepted plan is recovered exactly when every mutation has the engine, the form and the value of its opcode in the table |
| `NativeLog.NativeAcceptedYetRefused` | crates/hyphae-native-runtime/src/wal_codec.rs:466-743 | with the engine's own rules, a plan that the writer accepts and recovery refuses |
| `NativeLog.NativeHistory` | crates/hyphae-native-runtime/src/wal_codec.rs:666-863 | after any history of transactions, checkpoints, outcomes, crashes and starts the log gives exactly the committed transactions, one chain of checkpoints over them and truthful outcomes decided once |
| `NativeLog.NextCheckpointAccepted` | crates/hyphae-native-runtime/src/wal_codec.rs:826-863 | over any accepted log a checkpoint of the last commit that names the one before and raises the generation is accepted |
| `CrashRecovery.CrashRecoversPrefix` | docs/native/wal-format-v1.md:568-582 | reading and recovering a file that carries any accepted log, cut at any byte, returns exactly the transactions whose commit record lies in a complete block |
| `CrashRecovery.DurableSurvives` | docs/native/group-commit-v1.md:125-128 | a transaction whose commit record lies in kept blocks comes back unchanged |
| `CrashRecovery.RecoverAndClose` | crates/hyphae-native-runtime/src/wal_codec.rs:620-743 | opening recovers the log and appends an abort record for a cut transaction; the file then carries an accepted log with the same transactions and none under way |
| `LogHistory.HistoryHolds` | crates/hyphae-native-runtime/src/wal_codec.rs:620-743 | under any rules on markers, checkpoints and outcomes, after any history of transactions, checkpoints, outcomes, crashes and starts recovery has never refused the log |
| `LogHistory.EveryHistoryRecovers` | docs/native/wal-format-v1.md:535-582 | after any such history reading the log returns exactly the committed transactions, none under way |
| `LogHistory.SurvivesExactly` | docs/native/group-commit-v1.md:125-128 | in any history a start keeps a committed transaction if and only if the kept records reach its end |
| `FileHistory.EveryLifeCarries` | docs/native/wal-format-v1.md:568-582 | through any number of lives of the file it is a chain of blocks that carries such a log |
| `FileHistory.EveryCutRecovers` | docs/native/wal-format-v1.md:568-582 | after any number of lives a cut at any byte is read and recovered, and a transaction comes back exactly when its last record lies in the complete blocks |
| `ConflictTable.ConflictTable.constructor` | crates/hyphae-native-mvcc/src/lib.rs:73-77 | the table starts empty |
| `ConflictTable.ConflictTable.Validate` | crates/hyphae-native-mvcc/src/lib.rs:86-100 | the loop accepts exactly when no key is newer than the snapshot and otherwise names the first that is |
| `ConflictTable.ConflictTable.PublishCommitted` | crates/hyphae-native-mvcc/src/lib.rs:107-114 | publication raises each key to the commit number and never lowers one |
| `ConflictTable.PublishMeans` | crates/hyphae-native-mvcc/src/lib.rs:107-114 | what publication does to every key |
| `ConflictTable.TableIsLastWriter` | crates/hyphae-native-mvcc/src/lib.rs:68-114 | over any history the table holds each key's last writer |
| `ConflictTable.AdmittedIff` | crates/hyphae-native-mvcc/src/lib.rs:80-100 | admission succeeds exactly when no checked key was written after the snapshot |
| `ConflictTable.NoLostUpdate` | crates/hyphae-native-mvcc/src/lib.rs:80-114 | what a committed transaction saw of a checked key is what the key held just before its commit |
| `ConflictTable.FirstCommitterWins` | crates/hyphae-native-mvcc/src/lib.rs:80-114 | of two transactions that each check a key the other writes, one has seen the other if both committed |
| `ConflictTable.LoggedIsAdmitted` | docs/native/mvcc-commit-v1.md:65-69 | a history that keeps fewer keys of every transaction of an admitted one is admitted |
| `ConflictTable.ReplayConflicts` | docs/native/mvcc-commit-v1.md:65-69 | the replay loop succeeds exactly for an admitted history and rebuilds its table |
| `ConflictTable.ReplayedIsBelow` | docs/native/mvcc-commit-v1.md:65-69 | on every key the replayed table is at or below the lost one |
| `ConflictTable.TablesAgreeIff` | docs/native/mvcc-commit-v1.md:65-69 | the two tables agree on a key if and only if the log kept the key for its last writer |
| `ConflictTable.SameTable` | docs/native/mvcc-commit-v1.md:65-69 | they are equal when the log keeps all keys |
| `ConflictTable.LaterSnapshotsIgnore` | docs/native/mvcc-commit-v1.md:52-69 | for a snapshot that sees all earlier transactions the decision depends only on what committed since |
| `ConflictKeys.MutationWriteKeys` | docs/native/delta-all-engine-transaction-v1.md:351-363 | the loop over logged mutations gives the keys that a start publishes |
| `ConflictKeys.WritesDiffer` | docs/native/wal-format-v1.md:302-309 | the published keys are those a start derives again, the looked-up unique keys, and the claims on indexes that the log takes for point indexes |
| `ConflictKeys.ChecksDiffer` | docs/native/wal-format-v1.md:302-309 | the checked keys are those a start checks again, the unique keys, and the indexes with absence fences only |
| `ConflictKeys.ReplayIsCovered` | docs/native/delta-all-engine-transaction-v1.md:351-363 | the log never claims or checks a key that the commit did not |
| `ConflictKeys.RowForgets` | docs/native/delta-all-engine-transaction-v1.md:351-363 | a looked-up unique key is published by the commit and not by the replay |
| `ConflictKeys.VectorForgets` | docs/native/wal-format-v1.md:302-309 | a vector written in the old way next to an absence fence claims its index at commit and not at replay |
| `ConflictMeaning.PublishesIff` | docs/native/structures-semantics-v1.md:608-637 | a mutation publishes exactly the keys of the resources that a table of opcodes says it claims |
| `ConflictMeaning.ChecksIff` | docs/native/structures-semantics-v1.md:614-617 | a mutation is checked for exactly the keys of the resources that the table says it relies on |
| `ConflictMeaning.CollectionIff` | docs/native/structures-semantics-v1.md:614-617 | the collection read off a member key is the one of which the key is a part |
| `ConflictMeaning.PointsIff` | docs/native/ann-semantics-v1.md:184-189 | an index is taken for a point index exactly when the batch works on it by points |
| `ConflictMeaning.BatchPublishesIff` | docs/native/mvcc-commit-v1.md:65-69 | a batch publishes exactly the keys of what its mutations claim and of the unique entries it looked up |
| `ConflictMeaning.BatchChecksIff` | docs/native/ann-semantics-v1.md:184-189 | a batch is checked for exactly the keys of what its mutations rely on, of its point indexes and of the unique entries it looked up |
| `ConflictMeaning.ThingsApart` | docs/native/mvcc-commit-v1.md:65-69 | two resources of one engine and target share a key exactly when they are the same or a bare key looks like a tagged one |
| `ConflictMeaning.SameThingExcludes` | docs/native/native-set-commands-v1.md:107-111 | two batches that work on the same thing exclude each other |
| `ConflictMeaning.WholeExcludesPart` | docs/native/native-set-lifecycle-v1.md:89-98 | a change to a whole collection excludes later work on its hash fields and set members |
| `ConflictMeaning.AloneExcludesIff` | docs/native/structures-semantics-v1.md:608-637 | between single changes nothing else excludes: a field does not exclude its collection, nor a sorted-set member and its collection each other |
| `GroupAdmission.AdmitOne` | docs/native/mvcc-commit-v1.md:65-77 | one request, alone or in a group, is accepted exactly when it is admissible over the history and the roots before it; the table then follows it |
| `GroupAdmission.AdmitGroup` | docs/native/group-commit-v1.md:111-123 | a group fails as a whole for its size, a foreign request or an admitted one that cannot be staged, and then leaves the table alone; otherwise verdicts, numbers, roots and table are those of deciding the requests in order, refusing other durabilities and replaying every one if any is materialized |
| `GroupAdmission.GroupEqualsOneByOneIff` | docs/native/group-commit-v1.md:111-128 | a group decides as single commits would if and only if it has 1 to 256 requests, owns them all, every request that commits alone at its turn has group durability and, if the group is mixed, replays, and every admitted one can be staged |
| `GroupAdmission.OneKindSuffices` | docs/native/group-commit-v1.md:111-128 | owned requests of one kind, all of group durability, are decided as single commits are, over any history and roots, if what fits can be staged |
| `GroupAdmission.DurabilityDecides` | docs/native/group-commit-v1.md:111-123 | if what fits can be replayed and staged, a group decides as single commits would if and only if size and owners are right and every request that commits alone has group durability |
| `GroupAdmission.StrictDiffers` | docs/native/group-commit-v1.md:122-123 | a strict request to set one value commits alone and is refused in a group |
| `GroupAdmission.ForeignDiffers` | docs/native/group-commit-v1.md:61-66 | a foreign request, refused alone, fails the group with the request before it |
| `CommitCoordinator.StepKeeps` | crates/hyphae-native-mvcc/src/lib.rs:420-759 | every step keeps the invariant and commits only roots that follow the current one; what the roots hold is stated by the two rows on publication below |
| `CommitCoordinator.RunKeeps` | crates/hyphae-native-mvcc/src/lib.rs:420-759 | over every run the commits form one chain and the visible root is its last |
| `CommitCoordinator.RunIsGapless` | crates/hyphae-native-mvcc/src/lib.rs:420-759 | commit numbers are 1, 2, 3, ...; floors never fall, generations rise one at a time and with the floor |
| `CommitCoordinator.CommitPublishes` | crates/hyphae-native-mvcc/src/lib.rs:476-662 | over any steps between begin and commit: the commit succeeds exactly with an anchor, a number to spare and a proper move of generation and floor, and then publishes every slot at the last page staged for it or the one of the base, the last blob or that of the base, and the given catalog version and anchor; a failed one leaves no trace |
| `CommitCoordinator.GroupPublishes` | crates/hyphae-native-mvcc/src/lib.rs:505-759 | over any steps of a group: the k-th root it commits carries catalog version, anchor, roots and blob of the k-th stage that succeeded, under the k-th number; the last becomes visible, and a group without a stage or a number to spare leaves no trace |
| `CommitCoordinator.DroppedLeavesNoTrace` | crates/hyphae-native-mvcc/src/lib.rs:651-662 | a dropped transaction or group leaves the coordinator as it was |
| `CommitCoordinator.SnapshotIsCommitted` | crates/hyphae-native-mvcc/src/lib.rs:459-468 | a snapshot names the commit of its own number, for ever |
| `CommitCoordinator.RestoreResumes` | crates/hyphae-native-mvcc/src/lib.rs:441-452 | a restored coordinator is valid, and every run of it numbers its commits on from the restored root without a gap |
| `Restart.ReplaySucceeds` | docs/native/mvcc-commit-v1.md:65-69 | the recovered transactions of an admitted history replay without conflict into a table at or below the lost one |
| `Restart.ReplayAgrees` | docs/native/mvcc-commit-v1.md:65-69 | the tables agree on every key that its last writer did not forget |
| `Restart.ForgottenNeverMatters` | docs/native/mvcc-commit-v1.md:52-69 | every snapshot taken after the start decides by what committed since, with either table; of the logged history only its commit numbers matter |
| `Restart.CommittedRootsAreLoggable` | crates/hyphae-native-runtime/src/wal_codec.rs:551-562 | every committed root passes the log's storage rule |
| `Restart.RestartResumesNumbering` | crates/hyphae-native-mvcc/src/lib.rs:441-452 | whatever runs after the start, its commits are numbered on from the last recovered one |
| `RankingMetrics.TopPrefixDominates` | tools/agent_memory_retrieval_eval.py:212-217 | the first n entries of a descending sequence sum to at least any n entries picked from it |
| `RankingMetrics.PickedIsSelection` | tools/agent_memory_retrieval_eval.py:212-217 | the gains a duplicate-free ranking collects are a sub-multiset of the judged relevances |
| `RankingMetrics.GainDominated` | tools/agent_memory_retrieval_eval.py:212-217 | every prefix of the collected gains sums to at most the same prefix of the ideal gains |
| `RankingMetrics.SummationByParts` | tools/agent_memory_retrieval_eval.py:212-217 | prefix-wise dominated gains have dominated discounted sums, for every positive nonincreasing discount |
| `RankingMetrics.NdcgBounded` | tools/agent_memory_retrieval_eval.py:212-217 | NDCG lies between 0 and 1 when no relevant document repeats within the cutoff, for every nonnegative relevance map and discount |
| `RankingMetrics.NdcgBoundedIff` | tools/agent_memory_retrieval_eval.py:212-217 | for any ranking NDCG is at most 1 under every discount if and only if no prefix of it gathers more than the ideal prefix |
| `RankingMetrics.NdcgOneIffIdeal` | tools/agent_memory_retrieval_eval.py:212-217 | under a strictly decreasing discount NDCG is 1 exactly when the ranked gains are the ideal ones up to trailing zeros |
| `RankingMetrics.NdcgExceedsOneWithRepeats` | tools/agent_memory_retrieval_eval.py:212-217 | a ranking that repeats a relevant id can score above 1 |
| `RankingMetrics.NdcgInProportion` | tools/agent_memory_retrieval_eval.py:212-217 | two rankings of the same judgments score in proportion to their discounted gains |
| `RankingMetrics.NdcgRisesIff` | tools/agent_memory_retrieval_eval.py:212-217 | letting a document pass its neighbour within the cutoff raises NDCG exactly when it is the more relevant one |
| `RankingMetrics.RecallBounded` | tools/agent_memory_retrieval_eval.py:220-222 | recall lies between 0 and 1 and grows with the cutoff |
| `RankingMetrics.RecallIsOneIff` | tools/agent_memory_retrieval_eval.py:220-222 | recall is 1 exactly when something is relevant and every relevant document stands within the cutoff |
| `RankingMetrics.RecallOfNothing` | tools/agent_memory_retrieval_eval.py:220-222 | recall at cutoff 0 is 0 |
| `RankingMetrics.RecallStep` | tools/agent_memory_retrieval_eval.py:220-222 | moving the cutoff past one document adds one over the number of relevant documents if it is relevant and new, and else nothing |
| `RankingMetrics.ReciprocalRank` | tools/agent_memory_retrieval_eval.py:225-229 | the early-exit loop returns the reciprocal of the least rank holding a judged document, or 0 when there is none |
| `RankingMetrics.MetricsAgreeOnHits` | tools/agent_memory_retrieval_eval.py:212-229 | for any ranking NDCG, recall and reciprocal rank are positive together, exactly when something relevant is within the cutoff |
| `RankingMetrics.NearestRankIsLeast` | tools/agent_memory_retrieval_eval.py:232-237 | there is a percentile exactly for samples and a percentage in range, and it is the least sample with the wanted share at or below it |
| `ShardedRanking.DropOne` | tools/agent_memory_retrieval_eval.py:419-427 | a hit that k others precede does not affect the first k |
| `ShardedRanking.KeepTop` | tools/agent_memory_retrieval_eval.py:419-427 | replacing one collection by its own first k leaves the first k of the union as they were |
| `ShardedRanking.MergedTopIsGlobalTop` | tools/agent_memory_retrieval_eval.py:413-427 | concatenating the top hits of every collection, sorting and cutting gives the top hits of the union, for any number of collections |
| `ShardedRanking.TopIsTop` | tools/agent_memory_retrieval_eval.py:426-427 | the kept hits precede every hit that was cut |
| `ShardedRanking.TopIsUnique` | tools/agent_memory_retrieval_eval.py:426-427 | no other choice of that many hits precedes all the rest in order |
| `ShardedRanking.AllDomainQuery` | tools/agent_memory_retrieval_eval.py:419-427 | the loop that extends, sorts and cuts returns the top of the union of the shards |
| `EvaluationHarness.GroupBy` | tools/agent_memory_retrieval_eval.py:280-297 | grouping fills every segment with exactly its results, in order |
| `EvaluationHarness.SegmentsPartition` | tools/agent_memory_retrieval_eval.py:280-297 | any additive quantity summed over the segments is its total over all results |
| `EvaluationHarness.SegmentsConserve` | tools/agent_memory_retrieval_eval.py:257-297 | the count-weighted mean of the segment means is the overall mean, for every metric |
| `EvaluationHarness.BatchShape` | tools/agent_memory_retrieval_eval.py:374-392 | no ingest request is empty or over the batch size and its identity names its offset |
| `EvaluationHarness.BatchesCarryAll` | tools/agent_memory_retrieval_eval.py:374-392 | the batches of a collection carry its documents once each and in order |
| `EvaluationHarness.PlanCarries` | tools/agent_memory_retrieval_eval.py:374-392 | the requests of one collection, put together, are the documents of its domain |
| `EvaluationHarness.IdentitiesApart` | tools/agent_memory_retrieval_eval.py:374-392 | idempotency identities of different collections or offsets differ |
| `EvaluationHarness.PlanWellFormed` | tools/agent_memory_retrieval_eval.py:374-392 | every request of a plan fits and all request identities are distinct |
| `EvaluationHarness.PlanMeaning` | tools/agent_memory_retrieval_eval.py:374-392 | a plan carries every document of every domain exactly once |
| `EvaluationHarness.IngestDomain` | tools/agent_memory_retrieval_eval.py:374-392 | the inner loop issues the planned batches |
| `EvaluationHarness.Ingest` | tools/agent_memory_retrieval_eval.py:374-392 | the nested loops issue the plan |
| `IntegerScorer.CauchySchwarz` | tools/benchmark_score_models.py:66-75 | the squared dot product is at most the product of the squared norms |
| `IntegerScorer.DotBelowRoot` | tools/benchmark_score_models.py:66-75 | the dot product is at most the integer root of that product |
| `IntegerScorer.MagnitudeBounds` | tools/benchmark_score_models.py:66-75 | the rounded quotient never exceeds the scale, so the clamp never acts, and halves go away from zero |
| `IntegerScorer.ScoreDefined` | tools/benchmark_score_models.py:66-75 | scoring raises exactly for vectors of unequal length or without a nonzero component |
| `IntegerScorer.ScoreRoundsQuotient` | tools/benchmark_score_models.py:66-75 | the score is within the scale and its magnitude is the integer nearest to the quotient by the integer root |
| `IntegerScorer.ScoreIsNotRoundedCosine` | tools/benchmark_score_models.py:66-75 | two vectors at 45 degrees that score as parallel ones |
| `IntegerScorer.NeverUnderstated` | tools/benchmark_score_models.py:66-75 | the magnitude of the true cosine is never understated by more than half a unit |
| `IntegerScorer.NearestIff` | tools/benchmark_score_models.py:66-75 | the score is within half a unit of the true cosine if and only if an integer inequality holds |
| `IntegerScorer.OverstatedBy` | tools/benchmark_score_models.py:66-75 | overstatement beyond half a unit is at most the cosine over the integer root |
| `IntegerScorer.QuantizedNearCosine` | tools/benchmark_score_models.py:43-75 | for vectors quantized to either scale in use the score is less than one and a half units above the cosine and at most half a unit below |
| `IntegerScorer.ScoreSymmetric` | tools/benchmark_score_models.py:66-75 | the score does not depend on the order of the vectors |
| `IntegerScorer.ScoreOdd` | tools/benchmark_score_models.py:66-75 | negating either vector negates the score |
| `IntegerScorer.ScoreSelf` | tools/benchmark_score_models.py:66-75 | a nonzero vector scores the full scale with itself |
| `IntegerScorer.ComponentBounds` | tools/benchmark_score_models.py:43-57 | quantized components keep their sign, are odd, stay within the scale and move by at most half a unit |
| `IntegerScorer.QuantizeMeaning` | tools/benchmark_score_models.py:43-57 | a quantized vector keeps the order of its components and has one of magnitude exactly the scale |
| `IntegerScorer.QuantizeProportional` | tools/benchmark_score_models.py:43-57 | quantization ignores positive scaling and turns negative scaling into negation |
| `IntegerScorer.ProportionalScore` | tools/benchmark_score_models.py:43-75 | proportional vectors score exactly the positive or the negative scale |
| `IntegerScorer.QuantizedAlwaysScore` | tools/benchmark_score_models.py:43-75 | scoring two quantized nonzero vectors of one length never raises |
| `IntegerScorer.Ranked` | tools/benchmark_score_models.py:78-95 | ranking fails exactly when some score raises, and otherwise returns the candidates by descending score, ties by position |
| `IntegerScorer.RankingOfSorted` | tools/benchmark_score_models.py:78-95 | the returned ranking is a permutation of all candidates |
| `RequiredChecks.TablePositions` | packaging/required_checks.py:32-70 | the twenty required checks stand in the table once each, in their positions |
| `RequiredChecks.ParseJobUrlIff` | packaging/required_checks.py:124-140 | a job URL is accepted if and only if it is the canonical text of the repository and the two positive numbers it yields |
| `RequiredChecks.SelectName` | packaging/required_checks.py:171-229 | the loop for one name finds its newest run or the error that selection defines |
| `RequiredChecks.SelectCheckRuns` | packaging/required_checks.py:171-229 | the nested loops return the selection of every name in table order, or its first error |
| `RequiredChecks.SelectedIsNewest` | packaging/required_checks.py:171-229 | a selected run is relevant, completed, and strictly newer than every other relevant run of its name |
| `RequiredChecks.SelectionIsNewest` | packaging/required_checks.py:171-229 | the same for every name at once |
| `RequiredChecks.SelectIgnoresOrder` | packaging/required_checks.py:171-229 | selection does not depend on the order of the hosted runs, also in what it refuses |
| `RequiredChecks.SelectIsFixpoint` | packaging/required_checks.py:171-229 | selecting again from a selection returns it |
| `ReportMeaning.TableRows` | packaging/required_checks.py:32-70 | the workflow of every required check and which of them are guarded, row by row |
| `ReportMeaning.TableBindings` | packaging/required_checks.py:79-96 | only the last check is dispatched and bound to the merge commit and its evidence branch; the others run on the head of the pull request |
| `ReportMeaning.SelectIff` | packaging/required_checks.py:171-229 | a selection is returned if and only if it holds the one newest completed candidate of every name |
| `ReportMeaning.PullIff` | packaging/required_checks.py:232-293 | the pull request is recorded if and only if exactly one merged one of the repository has the commit |
| `ReportMeaning.CanonicalIff` | packaging/required_checks.py:322-539 | a record is drafted if and only if hosted answers stand behind it: a completed and successful check, workflow run and job, and for guarded checks a successful integration guard, each of the same run, commit and branch |
| `ReportMeaning.DraftIff` | packaging/required_checks.py:542-610 | over the hosted answers alone, when a report is drafted and which |
| `CheckReport.AgreesWithAll` | packaging/required_checks.py:749-783 | the three growing tables accept a record exactly when it agrees with every earlier one |
| `CheckReport.CoherentSnoc` | packaging/required_checks.py:749-783 | pairwise coherence grows by one record at a time |
| `CheckReport.ValidateRecords` | packaging/required_checks.py:683-783 | the validator's loop accepts exactly fitting, pairwise coherent records |
| `CheckReport.ValidateReport` | packaging/required_checks.py:613-819 | the validator accepts exactly the valid reports |
| `CheckReport.CanonicalFits` | packaging/required_checks.py:449-539 | every canonical record passes the field checks of the validator (what stands behind one is `ReportMeaning.CanonicalIff`) |
| `CheckReport.DraftShape` | packaging/required_checks.py:542-608 | a drafted report holds one canonical record per required check |
| `CheckReport.DraftFits` | packaging/required_checks.py:542-608 | a drafted report passes every check of the validator but coherence |
| `CheckReport.GroundedIsCoherent` | packaging/required_checks.py:322-446 | records built from hosted runs are coherent exactly when no workflow path has two run ids |
| `CheckReport.DraftRejectedOnlyForSplitPath` | packaging/required_checks.py:542-610 | a drafted report is valid if and only if the checks of each workflow were selected from one run of it |
| `CheckReport.SplitPathIsDrafted` | packaging/required_checks.py:542-610 | all twenty checks succeed, each in a run of its own: a report is drafted, and the builder rejects it |
| `CheckReport.PlacedIsDrafted` | packaging/required_checks.py:542-610 | wherever successful checks are placed a report is drafted, and it is accepted if and only if no workflow is split over two runs |
| `CheckReport.WholePathsAreAccepted` | packaging/required_checks.py:542-610 | all twenty checks succeed in one run of each workflow: the builder accepts |
| `CheckReport.BuildReport` | packaging/required_checks.py:542-610 | building succeeds exactly for a draft whose selection shares runs, and returns a valid report |
| `CheckReport.DraftFromSelection` | packaging/required_checks.py:1182-1189 | drafting from already selected runs gives the same draft as from all runs |
| `CheckReport.ReportShowsNewestRuns` | packaging/required_checks.py:542-610 | every record of a built report shows a successful run strictly newer than every other relevant run of its name |
| `CheckReport.GuardTable` | packaging/required_checks.py:32-70 | each pull-request workflow has exactly one integration-guarded check in the tables |
| `CheckReport.AcceptedReport` | packaging/required_checks.py:683-819 | an accepted report has distinct check ids, paths and run ids in bijection, one attempt per run and one guarded check per pull-request run |
| `SbomConclusion.CpeAgain` | packaging/conclude_release_sbom_licenses.py:466-484 | rewriting a rewritten CPE changes nothing, unless the version holds a colon |
| `SbomConclusion.JudgeFirstPartyAgain` | packaging/conclude_release_sbom_licenses.py:404-484 | a concluded first-party artifact is judged the same again and keeps all other fields |
| `SbomConclusion.NothingMissing` | packaging/conclude_release_sbom_licenses.py:698-712 | after a conclusion no Python artifact is left to supplement |
| `SbomConclusion.ConcludeIdempotent` | packaging/conclude_release_sbom_licenses.py:763-862 | concluding a concluded document succeeds exactly when it is stable (no linked package with CPEs took a version with a colon), and then changes nothing and counts the same |
| `SbomConclusion.ColonBreaksCpe` | packaging/conclude_release_sbom_licenses.py:466-484 | a version with a colon turns a valid CPE into a rejected one |
| `SbomConclusion.ColonBreaksDocument` | packaging/conclude_release_sbom_licenses.py:466-484 | a document that is concluded and whose conclusion cannot be concluded again |
| `SbomConclusion.ConcludeConserves` | packaging/conclude_release_sbom_licenses.py:639-862 | third-party artifacts are kept in order and unchanged, only private tools vanish, only their relationships are dropped, and first-party identities equal the lock-derived multiset |
| `ConclusionMeaning.CpeIff` | packaging/conclude_release_sbom_licenses.py:466-484 | a CPE is rewritten exactly when it is Syft-generated, has thirteen fields and begins as an application CPE of version 2.3; it then keeps every field but the sixth, which becomes the version |
| `ConclusionMeaning.JudgeIff` | packaging/conclude_release_sbom_licenses.py:248-484 | the verdict on any artifact, exactly: kept as it is, excluded as a private tool, or concluded for the authority that it, its lock entry and its manifest name |
| `ConclusionMeaning.SupplementsMean` | packaging/conclude_release_sbom_licenses.py:662-712 | every Python authority that the document does not list gets its artifact; this fails exactly when one of them has dependencies |
| `ConclusionMeaning.ConcludedSpeaks` | packaging/conclude_release_sbom_licenses.py:726-862 | every artifact of the project in a concluded document has exactly two licenses, declared and concluded, both Apache-2.0 without URLs and with its manifest as evidence, carries version and package URL of its authority, and a link keeps all CPE fields but the version |
| `ConclusionMeaning.ConcludedIsLicensed` | packaging/conclude_release_sbom_licenses.py:741-862 | in a concluded document all artifacts of the project are licensed that way |
| `SyftDocument.SyftDocument.constructor` | packaging/conclude_release_sbom_licenses.py:763-775 | the object holds the document it was read from |
| `SyftDocument.SyftDocument.SupplementPython` | packaging/conclude_release_sbom_licenses.py:698-712 | the loop appends exactly the missing Python artifacts |
| `SyftDocument.SyftDocument.JudgeArtifacts` | packaging/conclude_release_sbom_licenses.py:776-836 | the in-place loop leaves every artifact as its verdict says and collects identities and exclusions; when one is refused, those before it are rewritten and the rest is untouched |
| `SyftDocument.SyftDocument.Conclude` | packaging/conclude_release_sbom_licenses.py:763-862 | the in-place conclusion leaves the document the specification gives, with every artifact of the project under its two licenses, and returns its count, or fails when it fails |
| `CycloneDx.VisitIsPreorder` | packaging/g8_release_verification.py:111-133 | the order of the stack is, as a multiset, the recursive preorder |
| `CycloneDx.VisitLength` | packaging/g8_release_verification.py:111-133 | as many components come out as the forest has nodes |
| `CycloneDx.Flatten` | packaging/g8_release_verification.py:111-133 | the stack loop ends and returns every node of a well-formed forest once; it fails exactly on an ill-formed one |
| `CycloneDx.Components` | packaging/g8_release_verification.py:111-133 | the metadata component and the root components are flattened together |
| `CycloneDx.ReadIdentities` | packaging/g8_release_verification.py:155-170 | the loop returns the first-party identities in order, or fails when one is incomplete |
| `CycloneDx.IdentitiesIgnoreOrder` | packaging/g8_release_verification.py:155-170 | identity counts depend on the multiset of components only |
| `CycloneDx.FirstPartyIdentities` | packaging/g8_release_verification.py:155-170 | identity counts agree with the recursive definition |
| `DependencyAudit.DependencyKinds` | tools/check_native_dependencies.py:76-86 | the kinds of an edge without "dev", where no kinds means normal |
| `DependencyAudit.ScanDependencies` | tools/check_native_dependencies.py:133-145 | one node's scan fails exactly on a malformed or unknown target and adds exactly its edges' kinds and targets |
| `DependencyAudit.ClosedIsReachable` | tools/check_native_dependencies.py:122-145 | a closed set of reachable nodes that holds the root is the reachable set |
| `DependencyAudit.Closure` | tools/check_native_dependencies.py:122-145 | the queue loop ends on any graph, fails exactly when something reachable is malformed, and returns exact reachability and exact kinds |
| `DependencyAudit.ReviewedExternal` | tools/check_native_dependencies.py:54-73 | the reviewed table is refused exactly for a repeated identity |
| `DependencyAudit.GraphMeans` | tools/check_native_dependencies.py:105-120 | under every identity the graph holds the last package and the last node that bear it |
| `DependencyAudit.MatchesIff` | tools/check_native_dependencies.py:147-227 | the set comparisons hold exactly when nothing forbidden is there and every package is a named workspace crate or a reviewed one, and each of those is there |
| `DependencyAudit.ByIdentity` | tools/check_native_dependencies.py:228-232 | every reachable external identity is found, at the last package in the order that bears it |
| `DependencyAudit.PassesForSomeOrderIff` | tools/check_native_dependencies.py:228-243 | the license check passes for some order of the closure if and only if every entry has a package that bears its license |
| `DependencyAudit.PassesForEveryOrderIff` | tools/check_native_dependencies.py:228-243 | it passes for every order if and only if every package with a reviewed identity bears the reviewed license |
| `DependencyAudit.CheckInventory` | tools/check_native_dependencies.py:147-243 | the inventory checks pass exactly for the reviewed sets without repeated or forbidden entries and the reviewed license at every package that the order keeps |
| `DependencyAudit.Audit` | tools/check_native_dependencies.py:89-243 | under any order of reading sets: success exactly for a supported policy, one root and a well-formed closure that is the reviewed inventory, holds nothing forbidden and shows the reviewed licenses; the result is that closure with its edge kinds |
| `ReleaseGraph.LayerTable` | tools/check_crate_packages.py:60-68 | the layer table gives each crate the last layer that names it |
| `ReleaseGraph.CheckCrate` | tools/check_crate_packages.py:100-131 | one crate's loop reports exactly its own faults |
| `ReleaseGraph.ValidateReleaseGraph` | tools/check_crate_packages.py:50-133 | the gate reports exactly the faults that hold |
| `ReleaseGraph.AcceptedPublishes` | tools/check_crate_packages.py:50-133 | without faults every layer order publishes crate by crate, each prefix closed under retained dependencies at the exact version, ending with the publishable set |
| `ReleaseGraph.OrderedIffEveryLayerOrderPublishes` | tools/check_crate_packages.py:108-131 | the dependency rules hold exactly when every layer order publishes |
| `ReleaseGraph.FlattenIsLayerOrder` | tools/check_crate_packages.py:60 | the flattened layers are such an order |
| `ReleaseGraph.PublishedIsClosed` | tools/check_crate_packages.py:108-131 | whatever publishes leaves a registry closed under retained dependencies |
| `ReleaseGraph.AcceptedHasNoCycle` | tools/check_crate_packages.py:108-131 | without faults no chain of retained dependencies returns to its start |
| `Topology.ScanWorker` | tools/check_native_execution_topology.py:98-119 | one worker is accepted exactly when it fits its pool and its logical processor is fresh, and is tracked |
| `Topology.ScanPool` | tools/check_native_execution_topology.py:98-119 | the inner loop accepts exactly fitting workers on fresh logical processors and tracks them |
| `Topology.ScanPools` | tools/check_native_execution_topology.py:81-119 | the outer loop accepts exactly fitting pools with distinct nodes |
| `Topology.AllContiguous` | tools/check_native_execution_topology.py:130-132 | the rank check decides whether ranks on every core are contiguous from zero |
| `Topology.CheckRow` | tools/check_native_execution_topology.py:163-209 | one row is accepted exactly when its targets fit, ascend strictly and repeat no home |
| `Topology.ValidatePolicy` | tools/check_native_execution_topology.py:136-227 | the steal policy is accepted exactly when header, rows and status fit |
| `Topology.ValidateTopology` | tools/check_native_execution_topology.py:60-133 | exact acceptance; the hard-affinity count branch is unreachable |
| `Topology.AllOrNothing` | tools/check_native_execution_topology.py:81-129 | one null pool of unplaced workers, or every worker placed on its own logical processor |
| `Topology.EachPairOnce` | tools/check_native_execution_topology.py:155-227 | a calibrated policy holds each ordered pair of distinct pools exactly once and nothing else |
| `Calibration.StatisticsIgnoreOrder` | tools/check_native_hardware_calibration_diagnostic.py:75-94 | the statistics depend on the multiset of samples only |
| `Calibration.StatisticsIff` | tools/check_native_hardware_calibration_diagnostic.py:75-94 | the recomputed statistics are the only ones with the extremes, the middle and the least majority radius of the samples and the floors of their ratios |
| `Calibration.MedianSplits` | tools/check_native_hardware_calibration_diagnostic.py:78-79 | the median has a strict majority at or below it and at most half below it |
| `Calibration.MadIsLeastMajorityRadius` | tools/check_native_hardware_calibration_diagnostic.py:79-81 | a radius around the median takes in a strict majority exactly when it is at least the deviation |
| `Calibration.RelativeMadBelowRange` | tools/check_native_hardware_calibration_diagnostic.py:88-89 | the relative deviation is at most the relative range |
| `Calibration.RelativeFiguresIgnoreUnit` | tools/check_native_hardware_calibration_diagnostic.py:75-94 | scaling all samples leaves both relative figures unchanged |
| `Calibration.MedianResists` | tools/check_native_hardware_calibration_diagnostic.py:78-79 | altering fewer than half of the samples keeps the median between two unaltered ones |
| `Calibration.MedianGivesWayAtHalf` | tools/check_native_hardware_calibration_diagnostic.py:78-79 | altering half of them can move it anywhere above |
| `Calibration.StablePoint` | tools/check_native_hardware_calibration_diagnostic.py:166-185 | a stable point has 16 of 31 samples within 40,001 ppm of the median and a median batch inside the window |
| `Calibration.PointIff` | tools/check_native_hardware_calibration_diagnostic.py:97-186 | a point is accepted exactly when its figures describe its 31 samples, its result matched, it converged inside the window or says that it did not, and it is called stable exactly if converged below 40,001 ppm |
| `Calibration.VerdictIgnoresOrder` | tools/check_native_hardware_calibration_diagnostic.py:97-186 | the verdict on a point does not depend on the order of its samples |
| `Conformance.ValidateProfile` | tools/check_native_conformance.py:32-82 | exact acceptance of a profile, surfaces kept, exact platform counts |
| `Conformance.ScanResults` | tools/check_native_conformance.py:186-204 | the loop accepts exactly distinct, consistent outcomes and counts the passed ones |
| `Conformance.ValidateReceipt` | tools/check_native_conformance.py:144-214 | exact acceptance of a receipt |
| `Conformance.RunProfile` | tools/check_native_conformance.py:217-264 | running fails exactly for an unknown or unneeded platform or a required command that does not split, and otherwise returns the produced receipt |
| `Conformance.PlainTextSplits` | tools/check_native_conformance.py:217-264 | a command without quotes and backslashes always splits |
| `Conformance.OpenQuoteNeverSplits` | tools/check_native_conformance.py:217-264 | a command with a single quote left open never splits |
| `Conformance.SplitsIff` | tools/check_native_conformance.py:217-264 | a command splits exactly when every quote is closed and every backslash outside single quotes has something to escape |
| `Conformance.ReviewedYetUnsplit` | tools/check_native_conformance.py:217-264 | profiles that pass review and cannot be run |
| `Conformance.ProducedFits` | tools/check_native_conformance.py:144-264 | every produced receipt passes the validator and says passed exactly when every command exited zero |
| `Conformance.CommandsAreNotCompared` | tools/check_native_conformance.py:144-214 | the validator's verdict does not depend on the commands a receipt names |
| `Conformance.ValidateReceiptSet` | tools/check_native_conformance.py:85-141 | a set is accepted exactly with one fitting receipt per required platform and one commit, and totals are exact |
| `Conformance.AggregateMeaning` | tools/check_native_conformance.py:85-141 | an accepted set passes exactly when every surface reported exit code zero on every platform that requires it |
| `Conformance.CompleteRunAggregates` | tools/check_native_conformance.py:85-264 | running on every required platform gives an accepted set that passes exactly when every required surface exited zero everywhere |
| `Conformance.CompleteRunIff` | tools/check_native_conformance.py:85-264 | a reviewed profile can be run on all its platforms if and only if all its commands split |
| `Checksums.LinesOfWritten` | packaging/finalize_release.py:156-164 | lines without breaks are read back as written |
| `Checksums.ParseMeaning` | packaging/finalize_release.py:165-170 | a line is parsed exactly when it is 64 hexadecimal digits, two spaces and a plain name |
| `Checksums.ReadEntries` | packaging/finalize_release.py:163-171 | the loop accepts exactly parsed lines with distinct names and returns their table |
| `Checksums.CheckDigests` | packaging/finalize_release.py:175-178 | the loop accepts exactly current digests |
| `Checksums.VerifyChecksums` | packaging/finalize_release.py:161-178 | exact acceptance of a checksum file |
| `Checksums.CreateSucceeds` | packaging/finalize_release.py:150-158 | creation succeeds exactly for a nonempty set of ASCII names |
| `Checksums.RoundTrip` | packaging/finalize_release.py:150-178 | verifying what was written succeeds exactly when no name holds a line break |
| `Checksums.VerifiedListsEachOnce` | packaging/finalize_release.py:161-178 | a verified file lists each asset on exactly one line with its current digest and nothing else |
| `Checksums.VerifiedPinsContent` | packaging/finalize_release.py:161-178 | two directories verified by one file have the same assets, hash for hash |

## Left out

- Pages, B+trees, blobs, catalogs, queries, retrieval and the daemon: what a mutation does is a value written under a key.
- Retention anchors with the retired log prefix, and what the engine writes into checkpoints and outcomes beyond what recovery accepts.
- GroupAdmission.AdmitGroup: the checks against pages, layouts, memory and catalog version are one predicate of the roots, and staging pages and records is another, both taken to be the same in a group and alone; running out of transaction ids fails the whole group and is not modelled.
- Whether the engine ever holds a request that carries only its changes, commits alone and cannot be replayed: the condition on groups names such requests and does not claim that there are any.
- The order in which keys are checked, which decides only the conflict that is named.
- Lock poisoning after a panic, logical time, and the digest of a root set.
- HTTP fetching, pagination, subprocesses, git, cosign, argument parsing and file writing.
- Floating-point rounding, display rounding and the values of logarithms; real hash functions.
- JSON shape checks that only separate a missing from an ill-typed field, and the wording of failures.
- JSON's booleans that Python counts as integers.
- Manifest and lock parsing of the bill-of-materials tool: authorities, locks and path resolution are one snapshot.
- The SPDX reader of the release verification: the same reading loop as CycloneDX without nesting.
- Uniqueness of multithreading ranks on one core: the topology checker collects ranks into a set and decides contiguity only.
- The summary rows of the dependency audit and of the conformance aggregate, which are sorted copies.
- The sorted order of release assets in the checksum file, on which verification does not depend.
- Windows path rules for checksum names.
- Latency summaries, telemetry deltas, the G0 to G8 gate checkers, and the license and plugin checkers: field comparisons.
