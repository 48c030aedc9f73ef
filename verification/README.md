# A Dafny model of the PDS's stateful core

The project models five connected parts of an AT Protocol personal data server and proves what
every run of them keeps. `dafny verify dfyconfig.toml` checks all of it.

- **Repo write path** (`Content`, `ActorStore`, `RepoOps`, `RepoInvariant`, `RepoIndex`, `Writes`,
  `RepoEvents`, `Creates`, `Migration`, `RepoHistory`). A batch of record writes changes a Merkle
  search tree, a block table, a record index, a blob-reference table and the repo root in one
  transaction, and yields a commit event. Imports replace everything from an archive, exports
  produce one. A CID is an injective constructor over the block it names; a tree is its
  path-to-CID map; SQL tables are maps and sets; a transaction is a scratch copy that is kept or
  dropped. The main results: a committed batch leaves exactly the records it was given, and
  commits exactly when its writes can be made in turn; an import is accepted exactly when its
  archive is attested and complete; root, blocks, references and blob rows agree with the current
  commit in every reachable state, and the record index does exactly when every batch is settled,
  which batches without a slash in a collection name are; commit events can be replayed and
  undone; their blocks are enough for a replica; revisions and generated keys ascend; export then
  import is the identity.
- **Per-DID serialisation** (`Manager`, `ImportRace`, `Traces`, `CommitLog`, `Overtaking`). Stores
  and locks made on demand, and a state machine of any number of concurrent batches, imports and
  uploads, statement by statement. One actor's changes form a single linear chain in every
  interleaving in which no import falls between a batch's read and its commit; a run in which one
  does loses the repo. The event is appended after the lock is released, so the log can leave
  commit order exactly when two commits of an actor still have their events to append.
- **Firehose** (`Timestamps`, `Firehose`, `Sequencer`, `Subscribe`, `Frames`, `Splice`, `Window`,
  `Drops`, `Trims`). The numbered, trimmed log, its bounded channels, and a subscriber that
  splices backfill and live tail, as a state machine of appends, trims, announcements, reads and
  sends. Stored frames carry their events' own content; order and authenticity hold in every
  interleaving; completeness holds exactly under conditions that are stated and proved necessary.
- **Sessions** (`Auth`, `Accounts`, `Sessions`, `SessionRuns`, `AccountRuns`, `SoloHandlers`,
  `Revocation`). Token claims, the account tables, the handlers, and a state machine in which
  logins, refreshes and requests interleave statement by statement with password, status and
  app-password changes. Who is let through is stated both ways, in terms of claims and tables;
  handlers left to themselves do in the state machine what the server's methods do.
- **Smaller cores** (`RateLimiter`, `RateGuarantee`, `Paging`, `RepoList`, `BoundedReader`, `Tid`,
  with `Order` for the byte-wise text order): the per-client token buckets with their idle sweep,
  cursor paging, the size-limited response body, and the timestamp identifiers.

Code that changes state in place is modelled by classes and loops, each proved against a
function on values; the theorems are lemmas about those functions and about runs of them.

Given from outside, as parameters: wall clocks (`advance`, `now`, `cutoff`), randomness (`jti`),
signatures and signing keys (`sig`, `verified`, `secret`), password verification (`verify`),
record, key and commit validity, and the inner nodes of a Merkle search tree (`Library`).

## Where code and comments differ

The model follows the code.

- `internal/xrpc/subscribe.go:23-25` promises that nothing is missed or repeated. An empty
  backfill leaves the last number sent at zero, so events announced between registration and the
  reads come again (`Splice.ExactSplice`, `Splice.EmptyBackfillRepeats`). A trim compares texts
  that are not in time order within a second, so it can leave a gap inside the window
  (`Trims.TrimLeavesNoGapIff`, `Trims.TrimLeavesGap`).
- `internal/sequencer/sequencer.go:189-190` expects a dropped message to be caught up. On the same
  connection it is only if the backfill query returns it, before or after the drop
  (`Drops.DroppedOnlyByQuery`, `Drops.DropHappens`).
- `internal/repoops/writer.go:56` and
  `internal/lexicon/data/com/atproto/sync/subscribeRepos.json:210` say that creates carry no
  previous CID. A create over an existing record does, and only such a one
  (`Creates.CreatesWithoutPrevIff`, `Creates.CreateOverRecord`); invertibility depends on it.
- `internal/repoops/writer.go:89-90` calls the write path the only one that changes a repo, always
  under the lock. Imports change it without the lock, and one that meets a batch half way can lose
  the repo (`ImportRace.ImportMidBatchLosesRepo`).
- `internal/xrpc/server.go:82-83` speaks of thirty sustained attempts an hour. A swept bucket
  comes back full: ten attempts every 901 seconds are all accepted (`RateLimiter.LoginBursts`),
  and forty an hour is the proved bound (`RateLimiter.LoginBound`). Limits keep their rate exactly
  when the refill over the idle limit reaches the burst (`RateLimiter.KeepsRateIff`).
- `internal/lexicon/data/com/atproto/sync/listRepos.json:7` promises all repos. Accounts come in
  creation order while the cursor compares DIDs, so following cursors lists each repo once only
  under a condition on the pages (`RepoList.ReposListedIff`, `RepoList.RepoDropped`).
- `internal/actorstore/store.go:372-373` speaks of insertion order. The query below it orders by
  the CID's text, and that is the order modelled; the order of insertion is not.

## Model

| member | source | states |
|---|---|---|
| Content.CutJoin | internal/xrpc/migration.go:550-553 | cutting a joined path at its first slash gives collection and key back, when the collection has no slash |
| Content.JoinCut | internal/xrpc/migration.go:550-553 | joining the two sides of a cut gives the path back, and the collection side never has a slash |
| ActorStore.Database.Begin | internal/actorstore/store.go:105-107 | a transaction starts as a copy; the database is untouched until it commits |
| ActorStore.Database.Commit | internal/repoops/writer.go:174-176 | committing makes the transaction's tables the database's |
| ActorStore.Database.Put | internal/actorstore/blockstore.go:67-76 | first write wins: an existing CID keeps its block |
| ActorStore.Database.SetRepoRoot | internal/actorstore/store.go:149-158 | the one root row is replaced, nothing else changes |
| ActorStore.Database.PutRecordIndex | internal/actorstore/store.go:161-170 | the row is inserted or its CID replaced, nothing else changes |
| ActorStore.Database.DeleteRecordIndex | internal/actorstore/store.go:173-179 | exactly this row goes |
| ActorStore.Database.InsertBlobMeta | internal/actorstore/store.go:246-255 | metadata is inserted once and then kept |
| ActorStore.Database.AddBlobRef | internal/actorstore/store.go:283-292 | the reference is added; twice is once |
| ActorStore.Database.ClearBlobRefsForRecord | internal/actorstore/store.go:296-302 | every reference from this row goes and no other |
| ActorStore.Database.ClearRepo | internal/actorstore/store.go:433-440 | all five tables are emptied |
| ActorStore.Database.AllBlocks | internal/actorstore/store.go:345-370 | the list holds every stored block, each once |
| ActorStore.PutBlocksAll | internal/actorstore/blockstore.go:67-85 | any run of puts leaves the union of the tables, old blocks first, and touches no other table |
| ActorStore.AddBlobsAll | internal/repoops/writer.go:368-378 | adding a record's blobs adds exactly one reference and one metadata row for each distinct blob |
| ActorStore.BlobMetaStays | internal/actorstore/store.go:246-255 | no later blob addition changes stored metadata |
| RepoOps.Collector.Put | internal/repoops/writer.go:262-268 | the block reaches the store and is appended to the collected list |
| RepoOps.Writer.ApplyOne | internal/repoops/writer.go:304-385 | one delete, create or update: tree, index, references, collected blocks, clock, result, and every error case |
| RepoOps.Writer.AddRecordBlobs | internal/repoops/writer.go:368-378 | metadata and references of every blob of the record, and its CIDs in order |
| RepoOps.Writer.WriteDiffBlocks | internal/repoops/writer.go:138-141 | every node the stored tree lacks is written and collected, children first |
| RepoOps.Writer.ApplyAll | internal/repoops/writer.go:130-136 | the writes run in order up to the first that fails, and its error is the batch's |
| RepoOps.Writer.WriteCommit | internal/repoops/writer.go:138-172 | tree nodes, then a commit of that tree with the clock's next value as revision, then the root naming it |
| RepoOps.Writer.ApplyWrites | internal/repoops/writer.go:92-193 | a batch is atomic: on success the database is what the batch specification says, on any error it is what it was |
| RepoOps.Writer.EmitCommitEvent | internal/repoops/writer.go:195-243 | one operation for each write in order, the blobs of all of them, and the commit, since, prevData and blocks of the batch |
| RepoOps.FailureStays | internal/repoops/writer.go:130-136 | after a failing write nothing later is applied: the batch fails with that error |
| Writes.BatchMakesWrites | internal/repoops/writer.go:92-193 | a committed batch leads from the tree before to the tree of the new commit by its writes one after the other, each at a valid path in its collection at the key it gives; and the event tells of each its action, path, new and previous CID |
| Writes.BatchLeavesRecords | internal/repoops/writer.go:324-366 | at the path of a write that nothing later in the batch touches the tree then has a valid record with the body and blobs given, and the type given or else the collection; nothing if the write was a delete; untouched paths keep what they had |
| Writes.BatchCommitsIff | internal/repoops/writer.go:304-385 | a batch that gives its keys commits if and only if its writes can be made in turn: deletes of paths that are there, creates and updates with valid records, all under valid paths |
| Writes.FailedBatchStops | internal/repoops/writer.go:130-136 | any batch that fails does so at a write that cannot be made after those before it |
| Writes.BatchTellsBlobs | internal/repoops/writer.go:217-219 | the event lists the blobs of the written records in order; a blob without a row gets one with the type and size of its first mention, and no row changes |
| Writes.EventBlocksIff | internal/repoops/writer.go:126-180 | the event brings the commit, the records written, and those nodes of the new tree that the old one lacks or that the library writes again, and no other block |
| Writes.EventNames | internal/repoops/writer.go:195-243 | the event is of the actor, and names the commit that is now the root, signed and dated as the batch says, over the new tree |
| RepoInvariant.RefsPut | internal/repoops/writer.go:361-378 | indexing a record, clearing its row's references and adding its blobs keeps references equal to the blobs occurring in indexed records |
| RepoInvariant.WriteKeepsSound | internal/repoops/writer.go:304-385 | one write, whatever its collection, keeps references, blob rows and stored records in step |
| RepoInvariant.WritesKeepSound | internal/repoops/writer.go:130-136 | so does any run of writes, and no block is lost |
| RepoInvariant.WriteKeepsMirrorIff | internal/repoops/writer.go:304-385 | one write keeps index and tree in step if and only if its collection has no slash |
| RepoInvariant.WritesKeepMirror | internal/repoops/writer.go:130-136 | any slash-free batch of writes keeps index and tree in step, and loses no block |
| RepoInvariant.DiffNodesSuffice | internal/repoops/writer.go:138-141 | the nodes written and the nodes of the stored tree together are the whole new tree |
| RepoInvariant.DiffNodesIff | internal/repoops/writer.go:138-141 | exactly the nodes of the new tree that the stored one lacks, or that the library writes again, are written |
| RepoInvariant.GroundedLoads | internal/repoops/writer.go:98-118 | a grounded database (its root's commit and tree stored, references, blob rows and record blocks in step) always loads, and loads its current tree, revision and tree root |
| RepoInvariant.GroundedStoresReachable | internal/repoops/writer.go:287-302 | everything reachable from the current commit is in the block table |
| RepoInvariant.BatchGrounded | internal/repoops/writer.go:97-181 | a committed batch, whatever its collections, leaves references, blob rows, blocks and root grounded in the new commit and its tree |
| RepoInvariant.BatchKeepsConsistent | internal/repoops/writer.go:97-181 | when no collection has a slash it also leaves the index agreeing with the tree |
| RepoIndex.WritesFollowResults | internal/repoops/writer.go:304-385 | row by row and path by path, index and tree hold what the last write to each left |
| RepoIndex.IndexAgreesIff | internal/xrpc/migration.go:548-577 | index and tree agree after any writes if and only if every slashed row written ends deleted and the last write to its path is slash-free or the row its path is cut into ends absent |
| RepoIndex.BatchConsistentIff | internal/repoops/writer.go:97-181 | so a committed batch keeps a consistent database consistent exactly when its writes are settled in that sense |
| RepoIndex.SlashFreeSettles | internal/repoops/writer.go:130-136 | batches without slashed collections are settled |
| RepoInvariant.SingleWriteIff | internal/xrpc/repo.go:101-201 | for the one-write handlers consistency survives exactly when the collection has no slash |
| RepoInvariant.SlashedCollectionExample | internal/xrpc/repo.go:245-300 | applyWrites accepts a slashed collection: a concrete create whose index row is not its path cut at the first slash |
| RepoEvents.WriteInverts | internal/repoops/writer.go:208-215 | one operation replays the write and undoes it through prev, also for a create over a record and an update of an absent one |
| RepoEvents.WritesInvert | internal/repoops/writer.go:201-216 | so do the operations of any sequence of writes, repeated paths included |
| RepoEvents.EventInverts | internal/repoops/writer.go:195-243 | forward from the tree prevData names to the commit's tree, and in reverse back again, for any committed batch |
| Creates.CreatesWithoutPrevIff | internal/repoops/writer.go:208-215 | each operation's previous CID is what the tree had at its path before it; so no create of an event carries one if and only if every create was of a path with nothing there |
| Creates.CreateCarriesStored | internal/repoops/writer.go:346-366 | a single create at a given key is announced with whatever record the tree had there |
| Creates.CreateOverRecord | internal/repoops/writer.go:195-243 | two creates at one key: the second event has a create whose previous CID is the first record's |
| RepoEvents.RunAddsItsBlocks | internal/repoops/writer.go:126-180 | the block table after a batch is the one before with the batch's listed blocks, over whatever tables it commits |
| RepoEvents.BatchAddsItsBlocks | internal/repoops/writer.go:126-180 | the event's block list is exactly what the batch added to the block table |
| RepoEvents.WritesIssueAscending | internal/repoops/writer.go:335-338 | the keys a batch generates ascend with its clock |
| RepoEvents.BatchIssuesAscending | internal/repoops/writer.go:101-149 | generated keys and then the new revision ascend from the previous revision, whatever the wall clock does |
| RepoHistory.HistoryGrounded | internal/repoops/writer.go:97-181 | in every state reached from an empty store by any run of batches on any collections, imports and uploads, references, blob rows, blocks and root are grounded in the current commit |
| RepoHistory.RunKeepsGrounded | internal/xrpc/migration.go:240-317 | the same from any grounded state |
| RepoHistory.HistoryConsistentIff | internal/repoops/writer.go:97-181 | the index too agrees with the current tree all the way through a history if and only if each batch that commits is settled |
| RepoHistory.HistoryConsistent | internal/repoops/writer.go:97-181 | in particular when no batch of the history writes to a collection with a slash |
| RepoHistory.RunKeepsConsistent | internal/xrpc/migration.go:240-317 | from any consistent state a run whose batches are settled ends in a consistent state |
| RepoHistory.ReplicaHoldsBlocks | internal/repoops/writer.go:180-191 | without imports, a replica that keeps every event's blocks holds exactly the server's block table and knows its commit |
| RepoHistory.ReplicaResolves | internal/repoops/writer.go:195-243 | without imports, after each event the replica can resolve everything its commit reaches |
| RepoHistory.IssuedAscends | internal/repoops/writer.go:143-149 | between imports all generated keys and revisions form one strictly ascending sequence |
| RepoHistory.KeysNeverRepeat | internal/repoops/writer.go:335-338 | from an empty store, without imports, no generated key and no revision ever repeats |
| RepoHistory.CommitsChain | internal/repoops/writer.go:107-112 | a batch's event names the revision and tree root of the commit before it |
| Migration.WalkOrder | internal/xrpc/migration.go:548-550 | the walk visits the tree's keys in ascending order |
| Migration.IndexEntries | internal/xrpc/migration.go:548-577 | index, metadata and references of every entry, or the first error |
| Migration.ImportRepo | internal/xrpc/migration.go:227-318 | an import replaces every table by what the archive gives, or changes nothing |
| Migration.GetRepo | internal/xrpc/sync.go:66-76 | the archive has the current commit as root and every stored block |
| Migration.EntryKeepsMirror | internal/xrpc/migration.go:550-575 | indexing one more path keeps index and references in step with the part of the tree walked |
| Migration.WalkMirrors | internal/xrpc/migration.go:548-577 | the walk leaves index and references in step with the whole tree |
| Migration.ImportConsistent | internal/xrpc/migration.go:240-317 | whatever the archive holds, a successful import leaves a consistent database |
| Migration.ImportAcceptsIff | internal/xrpc/migration.go:262-317 | an import succeeds if and only if the first root is a brought commit that is valid, of this identity and verified, every node of its tree and every record is brought, and every path has a slash; the root is then that commit, over its tree |
| Migration.ImportDescribesBlobs | internal/xrpc/migration.go:564-574 | after an import a blob has the type and size of its first mention in key order |
| Migration.UploadDescribes | internal/xrpc/repo.go:492-505 | an upload is described by its type and length unless its blob has a row, and changes nothing else |
| Migration.MirrorsUnique | internal/xrpc/migration.go:548-577 | index and references are determined by the tree |
| Migration.ExportBringsBlocks | internal/xrpc/sync.go:71-76 | putting the exported blocks into an empty store gives the block table back |
| Migration.ExportImport | internal/xrpc/migration.go:240-317 | for a consistent database export then import is the identity on root, revision, blocks, index and references, and the blob rows are those of referenced blobs |
| Migration.ExportImportIff | internal/xrpc/migration.go:240-317 | for any grounded database the import succeeds exactly when every path can be cut, and then restores root and blocks; the index comes back exactly when the database was consistent |
| Manager.Manager.Get | internal/actorstore/manager.go:58-75 | one store for each valid identifier, made once, never shared |
| Manager.Manager.DidLock | internal/actorstore/manager.go:103-112 | one lock for each identifier, made once, never shared |
| Manager.RunKeepsLocks | internal/actorstore/manager.go:103-112 | in every state of every run each actor has its own lock, and a call inside holds its actor's |
| Manager.MutualExclusion | internal/actorstore/manager.go:116-126 | in every state of every run two calls inside for one actor are one call |
| Manager.LocksNotLeaked | internal/actorstore/manager.go:116-126 | in every state of every run a lock is held exactly while a call is inside with it |
| Manager.RunKeepsInv | internal/actorstore/manager.go:103-126 | in every interleaving of batches, uploads and imports in which no import falls between a batch's read and its commit, what a batch has read is still current when it commits |
| Manager.RunIsLinear | internal/actorstore/manager.go:116-126 | every such interleaving is, for one actor, equivalent to running its batches, uploads and imports one after another |
| Manager.CommitsFormOneChain | internal/repoops/writer.go:97-181 | one chain: each change starts from what the one before left, and a batch's since and prevData name the commit immediately before, whatever its collections |
| Manager.RevisionsAscend | internal/repoops/writer.go:143-149 | in every such interleaving each revision is after the one it follows |
| ImportRace.StaleCommitLoadsIff | internal/repoops/writer.go:138-172 | a batch that commits over tables it did not load from leaves a loadable database if and only if every node of its new tree was there or was written by it |
| ImportRace.ImportMidBatchLosesRepo | internal/xrpc/migration.go:240-317 | a run in which an import between a batch's read and its commit is lost, and leaves a root whose tree is not stored, so that no later batch of the actor can load it |
| ImportRace.ImportLosesRepo | internal/xrpc/migration.go:240-317 | the same with an explicit archive of one record |
| CommitLog.LogFollowsCommits | internal/repoops/writer.go:182-191 | the event log lists an actor's commits in commit order as long as no batch commits before the previous event is appended and no append fails |
| Overtaking.RunKeepsAccount | internal/repoops/writer.go:182-191 | in every run that loses no event, each commit's event is in the log once or pending in exactly one call |
| Overtaking.InOrderMeans | internal/repoops/writer.go:182-191 | in order means that the actor's part of the log is a prefix of its events in commit order |
| Overtaking.EitherOrder | internal/repoops/writer.go:182-191 | two pending events of one actor can be appended either way round |
| Overtaking.OvertakingIff | internal/repoops/writer.go:182-191 | a run whose log is in order can go on, without another commit, to one whose log is not, if and only if two commits of the actor have their events still to append |
| Overtaking.EventsCanBeReordered | internal/repoops/writer.go:182-191 | from any state of any run in which the actor's lock is free and two calls are idle, any two successive batches can commit and log their events the other way round |
| Overtaking.ReorderedExample | internal/repoops/writer.go:182-191 | two empty batches of any actor do it from the start: the later commit's event precedes that of the commit it names as since |
| Timestamps.SecondsOrder | internal/store/store.go:305-305 | calendar order of two instants is the order of their seconds |
| Timestamps.ExpiryTextOrder | internal/store/store.go:269-305 | comparing RFC 3339 texts compares whole seconds, for every instant of the years 0 to 9999 |
| Timestamps.SameSecondOrder | internal/sequencer/sequencer.go:112-114 | within one second the log's texts are in time order unless the earlier fraction is a prefix of the later, and then in the opposite order |
| Timestamps.LogTextOrder | internal/sequencer/sequencer.go:112-114 | in different seconds the log's text order is time order |
| Timestamps.HalfSecondExample | internal/sequencer/sequencer.go:112-114 | half a second sorts after fifty-five hundredths of the same second |
| Timestamps.TextsRead | internal/store/store.go:269-305 | both texts can be read back: date and time in fixed places, then the nanoseconds without trailing zeros |
| Firehose.StampAgreesWithFrame | internal/firehose/event.go:40-108 | a stamped event has a frame, and the frame carries the stamped number under the returned type exactly when no error variant is set |
| Firehose.PendingEvent.SeqOf | internal/firehose/event.go:91-108 | the number goes into the one sequenced body, or the event is refused unchanged |
| Sequencer.Channel.Send | internal/sequencer/sequencer.go:186-191 | a full channel drops the message, otherwise it is appended |
| Sequencer.Sequencer.Append | internal/sequencer/sequencer.go:67-110 | number, stamp, store, trim and announce to every channel, or roll back with the number unused |
| Sequencer.Sequencer.TrimRows | internal/sequencer/sequencer.go:112-119 | the rows whose text is not before the cutoff, in order |
| Sequencer.Sequencer.Backfill | internal/sequencer/sequencer.go:144-162 | the stored events after the cursor, in order |
| Sequencer.Sequencer.Subscribe | internal/sequencer/sequencer.go:166-180 | a fresh empty channel is registered |
| Sequencer.Sequencer.Unsubscribe | internal/sequencer/sequencer.go:172-179 | the channel is no longer announced to |
| Sequencer.Sequencer.Broadcast | internal/sequencer/sequencer.go:182-193 | every registered channel gets the message, or drops it when full |
| Sequencer.StoreKeepsLogOk | internal/sequencer/sequencer.go:76-119 | an append's own row is never trimmed by it |
| Sequencer.TrimmedByTime | internal/sequencer/sequencer.go:112-119 | a row a whole second before the cutoff goes and one a whole second after stays |
| Sequencer.RunKeepsLogOk | internal/sequencer/sequencer.go:67-110 | over any run of appends numbers ascend and the newest event is stored |
| Sequencer.IssuedConsecutive | internal/sequencer/sequencer.go:74-87 | the numbers issued are exactly 1 to n, failures consuming none |
| Sequencer.LatestCountsAppends | internal/sequencer/sequencer.go:123-141 | the latest number reported is the count of successful appends |
| Sequencer.RunKeepsAgreement | internal/sequencer/sequencer.go:84-98 | every stored row's frame carries the row's number under the row's type |
| Frames.RunStoresContent | internal/sequencer/sequencer.go:67-110 | over any run the appends with a sequenced body are numbered from 1 on, and each stored row is that of the append with its number: its account, its time, the literal tag of its variant, and as frame its own content under its number, or its error |
| Frames.RunStoresIff | internal/sequencer/sequencer.go:67-119 | an append's row is there if and only if no append since, its own included, came with a cutoff past its text |
| Subscribe.Connection.OnLatest | internal/xrpc/subscribe.go:72-85 | no cursor goes live at the latest event; a future cursor gets the error frame and is closed |
| Subscribe.Connection.OnEarliest | internal/xrpc/subscribe.go:87-97 | a cursor before the window gets the info frame and goes live at the latest event |
| Subscribe.Connection.Backfill | internal/xrpc/subscribe.go:98-112 | the frames go out in order up to the first failed write, and the last number sent is that of the last frame, untouched when there is none |
| Subscribe.Connection.Follow | internal/xrpc/subscribe.go:121-139 | exactly the fresh messages of the channel go out, in order, up to the first failed write |
| Subscribe.SendingSends | internal/xrpc/subscribe.go:99-106 | frame by frame, a backlog goes out unchanged and leaves the last number sent at its last |
| Subscribe.ReceivingSendsFresh | internal/xrpc/subscribe.go:121-139 | message by message, the live loop sends exactly the fresh ones |
| Subscribe.FreshClimbs | internal/xrpc/subscribe.go:131-137 | in whatever order messages arrive, the numbers sent climb |
| Splice.DeliveredInOrder | internal/xrpc/subscribe.go:72-139 | in every interleaving, with drops, reordered announcements and trims, the numbers delivered strictly increase and each frame is the one committed under its number |
| Drops.DroppedOnlyByQuery | internal/sequencer/sequencer.go:186-191 | an event announced to a connection whose channel is full is sent on it exactly if the backfill query returns it; once the query is past without it, it is lost whether or not a later event is sent |
| Drops.DropHappens | internal/sequencer/sequencer.go:166-191 | a live connection 256 events behind drops the 257th and never gets it, however the run goes on |
| Splice.SpliceLaw | internal/xrpc/subscribe.go:54-139 | announced in order, what is sent and on its way is always the backfill followed by every event after the point it ended at |
| Splice.LatestSplice | internal/xrpc/subscribe.go:89-119 | without a cursor, or with an outdated one, exactly the events after the latest one reported |
| Splice.WholeBacklog | internal/sequencer/sequencer.go:144-162 | a query that finds no number missing returns exactly the events after the cursor |
| Splice.ExactSplice | internal/xrpc/subscribe.go:54-139 | a backfilled connection gets exactly the events after its cursor if and only if the query missed none and either the cursor was not past the events announced at registration or the backfill was not empty |
| Splice.EmptyBackfillRepeats | internal/xrpc/subscribe.go:72-139 | a concrete run: an event stored and readable before the connection registers, and not yet announced, is sent again to a client whose cursor is that event |
| Window.RefusedIff | internal/xrpc/subscribe.go:72-85 | a cursor is refused as a future one if and only if it is past every event committed |
| Window.ToldOffIff | internal/xrpc/subscribe.go:87-97 | when stored numbers are consecutive, a cursor from zero on is told off and goes live at the latest event if and only if some event after it is no longer stored, and otherwise goes on to backfill |
| Window.InWindowSplice | internal/xrpc/subscribe.go:87-139 | a cursor after which no event was missing when the window was read gets exactly the events after it at every live moment, no gap and no repeat, when trims leave no gap and none falls between window check and query |
| Window.WindowCoversIff | internal/xrpc/subscribe.go:89-97 | over consecutive rows the window check passes if and only if nothing after the cursor is missing, but refuses negative cursors once anything is stored |
| Trims.TrimRemovesOldestIff | internal/sequencer/sequencer.go:112-119 | of rows in time order a trim removes only the oldest if and only if, within the cutoff's own second, no surviving row precedes a removed one |
| Trims.TrimLeavesNoGapIff | internal/sequencer/sequencer.go:112-119 | a trim that keeps the newest row leaves consecutive numbers consecutive under the same condition and no other |
| Trims.TrimRemovesOldest | internal/sequencer/sequencer.go:112-119 | in particular when no row is of the cutoff's second |
| Trims.RunLeavesGap | internal/sequencer/sequencer.go:67-119 | three appends, each with the cutoff 72 hours before, after which events 1 and 3 are stored and 2 is not |
| Trims.TrimLeavesGap | internal/xrpc/subscribe.go:87-119 | a connection to that log with cursor 1 passes the window check, gets event 3 and never event 2, with nothing dropped or announced out of order |
| Accounts.Store.CreateAccount | internal/store/store.go:151-160 | a version below one is raised to one; a taken identifier or handle is refused |
| Accounts.Store.GetAccountByIdentifier | internal/store/store.go:178-183 | a text longer than four starting with did: is looked up as an identifier, any other as a handle |
| Accounts.Store.SetPasswordHash | internal/store/store.go:205-211 | new hash, version one higher, nothing else; or not found |
| Accounts.Store.SetStatus | internal/store/store.go:226-232 | new status, version one higher, nothing else; or not found |
| Accounts.Store.ActivateAccount | internal/store/store.go:238-244 | active with the version kept; or not found |
| Accounts.Store.CreateRefreshToken | internal/store/store.go:264-280 | the account's expired rows go, then the row is inserted unless its key exists |
| Accounts.Store.ConsumeRefreshToken | internal/store/store.go:304-310 | the row goes if account, version and expiry fit, and otherwise nothing changes |
| Accounts.Store.DeleteRefreshToken | internal/store/store.go:312-318 | exactly this row goes |
| Accounts.Store.DeleteRefreshTokensForDid | internal/store/store.go:320-326 | exactly the account's rows go |
| Accounts.Store.CreateAppPassword | internal/store/store.go:328-337 | the row is added unless the account has one of the name |
| Accounts.Store.ListAppPasswords | internal/store/store.go:339-357 | the account's rows and no others, in order of creation time |
| Accounts.Store.RevokeAppPassword | internal/store/store.go:367-384 | the app password and its sessions' rows go together, or nothing changes |
| Accounts.ConsumableUnexpired | internal/store/store.go:304-310 | a row is consumable by the text test exactly when it expires in a later second |
| Accounts.PrunedIffUnconsumable | internal/store/store.go:269-269 | pruning removes exactly the rows that can no longer be consumed |
| AccountRuns.AccountIsAsTold | internal/store/store.go:151-244 | in every run an account keeps its identifier and handle, has the password and status last set, and a version that counts how often they were |
| AccountRuns.AccountWasMade | internal/store/store.go:151-160 | there are no accounts but those created under an identifier and a handle that were free |
| AccountRuns.AppStoredIff | internal/store/store.go:328-384 | in every run an account has an app password of a name if and only if one was added and not revoked since |
| AccountRuns.AppWasAdded | internal/store/store.go:328-337 | and each is in full one that was added so |
| AccountRuns.RowsStepIff | internal/store/store.go:264-384 | each statement removes exactly the refresh rows it names, and only the insertion of a session adds one |
| Auth.AccessRoundTrip | internal/auth/auth.go:103-179 | an access token is accepted if and only if the secret is right, an access token is wanted, its two hours are not over and version and kind are set; account, version, kind and name come through |
| Auth.RefreshRoundTrip | internal/auth/auth.go:124-179 | likewise a refresh token, for ninety days, with its identifier |
| Sessions.MatchingMeansCurrent | internal/xrpc/session.go:311-319 | the loop's first match says that an app password of the name with the session's privilege exists |
| Sessions.GateIff | internal/xrpc/session.go:281-309 | a request is let through if and only if the token is the server's own, an access token and not expired, the account is there in its version and active (or deactivated where the gate allows), an app password of its name has its privilege if it names one, and the kind has the privilege demanded; the answer is Forbidden exactly when only that is lacking |
| Sessions.RedeemableIff | internal/xrpc/session.go:121-155 | a token can be exchanged if and only if it is a good refresh token, its row is stored as it says and not expired, and the account is active in its version |
| Sessions.ExchangeRotates | internal/xrpc/session.go:121-155 | an exchange removes the presented row and the account's expired ones, adds one of the same version and credential, and changes nothing else |
| Sessions.SessionRotates | internal/xrpc/session.go:78-112 | a new session removes the account's expired rows, adds its own, and changes nothing else |
| Sessions.Server.IssueSession | internal/xrpc/session.go:78-112 | both tokens carry the account, its version and the credential; the refresh row is stored or the call fails |
| Sessions.Server.FindAppPassword | internal/xrpc/apppassword.go:18-29 | the first app password that verifies |
| Sessions.Server.CreateSession | internal/xrpc/session.go:40-76 | identifier and password given, account found by handle or identifier, main password, else an app password, then the takedown check; every refusal changes nothing |
| Sessions.Server.LoginOpensIff | internal/xrpc/session.go:40-112 | a login opens a session if and only if the typed text names an account not taken down and the password is its own or that of an app password, the first created that fits; both tokens are given in full |
| Sessions.Server.RefreshSession | internal/xrpc/session.go:121-155 | an exchange succeeds if and only if the token is redeemable, and then rotates the row and gives both tokens in full; every refusal changes nothing |
| Sessions.Server.DeleteSession | internal/xrpc/session.go:157-174 | the row of a good refresh token goes; any other token changes nothing |
| Sessions.Server.Matches | internal/xrpc/session.go:311-319 | the loop computes the first match by name |
| Sessions.Server.RequirePrincipal | internal/xrpc/session.go:281-309 | status, version, app password and privilege, in this order; lets through exactly the tokens, and forbids exactly those, that the conditions on claims, account and app passwords say, and returns the claims |
| SessionRuns.GrantsAreCurrent | internal/xrpc/session.go:281-309 | in every interleaving a request's token has the version current when it reads the account, never lower than when it began |
| SessionRuns.BumpRevokes | internal/xrpc/admin.go:200-227 | no session survives a password or status change, even one in flight: token, refresh and login behind a later request all read the account after it |
| SessionRuns.GrantsArePermitted | internal/xrpc/session.go:274-279 | nobody acts for a taken-down account, nor for a deactivated one except where the gate allows |
| SessionRuns.ExchangedOnce | internal/store/store.go:304-310 | no refresh token is exchanged twice, in any interleaving |
| SessionRuns.ChainKeepsCredential | internal/xrpc/session.go:146-154 | along any chain of refreshes kind and app-password name are the login's |
| SessionRuns.UnprivilegedStaysOut | internal/xrpc/session.go:304-307 | a session from an unprivileged app password never passes a privileged gate, whatever is revoked and created again |
| SessionRuns.AppPasswordIsCurrent | internal/xrpc/session.go:297-303 | an accepted app-password request had a current app password of that name and privilege after it began |
| SoloHandlers.LoginAlone | internal/xrpc/session.go:40-112 | from any reachable state a login left to itself does in the state machine what the server's login does |
| SoloHandlers.RefreshAlone | internal/xrpc/session.go:121-155 | likewise a refresh of a redeemable token |
| SoloHandlers.RequestAlone | internal/xrpc/session.go:281-309 | likewise a request: it is let through if and only if the gate would let it through |
| Revocation.GrantNeedsNewApp | internal/xrpc/session.go:297-303 | in every run, after a revocation no request on a session of that account and app-password name is let through, even one that began before, until one of that name is created anew |
| Revocation.RevokedExchangeIff | internal/store/store.go:367-384 | until then one of its sessions can still be exchanged if and only if, at the revocation, some handler past its checks has its refresh row still to insert, with the account's current version |
| Revocation.ExchangedAfterRevocation | internal/xrpc/session.go:78-155 | a run in which the revocation falls between the minting and the insertion of a login, whose token is exchanged with no such app password stored |
| RateLimiter.IpRateLimiter.Sweep | internal/xrpc/clientip.go:91-100 | at most once per idle limit, exactly the idle buckets go |
| RateLimiter.IpRateLimiter.Allow | internal/xrpc/clientip.go:83-110 | the masked key's bucket, made full when missing, gives a token or refuses leaving tokens and refill time alone |
| RateLimiter.KeptAreRecent | internal/xrpc/clientip.go:91-100 | after every call each kept bucket was used within the last two idle limits |
| RateLimiter.SweepDropsIff | internal/xrpc/clientip.go:91-100 | a sweep takes a bucket exactly if more than the idle limit has passed since the last sweep and since its use |
| RateLimiter.WindowBound | internal/xrpc/clientip.go:72-110 | in any window a client gets at most burst, refill over the window, and the bonus of a bucket made anew for each whole idle limit |
| RateLimiter.LoginBound | internal/xrpc/server.go:82-84 | ten and forty an hour for the login limits |
| RateLimiter.KeepsRateIff | internal/xrpc/clientip.go:83-110 | for all limits: no client ever gets more than the burst and the refill over a window, whatever the traffic, if and only if the refill over the idle limit is at least the burst |
| RateLimiter.LoginKeepsRate | internal/xrpc/server.go:82-84 | the login limits fail this condition with an idle limit of fifteen minutes and meet it with twenty |
| RateLimiter.BurstsAccepted | internal/xrpc/clientip.go:83-110 | any number of full bursts, each more than the idle limit after the last, are all accepted |
| RateLimiter.LoginBursts | internal/xrpc/server.go:82-84 | ten login attempts every 901 seconds are accepted for ever, which is more than ten and thirty an hour from the second burst on |
| RateLimiter.SweepRefills | internal/xrpc/clientip.go:91-109 | a swept bucket comes back full, whatever it held |
| RateGuarantee.EntitledIsAccepted | internal/xrpc/clientip.go:83-110 | an attempt that would be too many in no window since an earlier call of its client is accepted, whatever others do and whenever buckets are swept |
| RateGuarantee.AcceptedIffEntitled | internal/xrpc/clientip.go:83-110 | limits that keep their rate accept exactly those attempts |
| RateGuarantee.KeyIff | internal/xrpc/clientip.go:84-86 | two addresses share a bucket if and only if they are equal or IPv6 addresses of one /64 |
| RateGuarantee.ClientBound | internal/xrpc/clientip.go:72-110 | the bound over a window holds for all addresses of one client together |
| RateGuarantee.ClientServed | internal/xrpc/clientip.go:83-110 | and a client that stays within the rate is served, however often others come |
| Paging.SelectKeys | internal/actorstore/store.go:207-229 | the keys beyond the cursor in page order, at most the limit |
| Paging.ListRecords | internal/actorstore/store.go:207-243 | those keys with their CIDs |
| Paging.RecordsPage | internal/xrpc/repo.go:401-427 | the page and its cursor, or an error exactly when a record block on it cannot be read |
| Paging.PagesVisitAll | internal/actorstore/store.go:207-229 | following cursors visits each key once, in order, in floor(n/limit)+1 pages, if and only if no empty key ends a page; otherwise it never ends |
| Paging.RecordPages | internal/xrpc/repo.go:370-428 | so every record of a collection is listed exactly once, ascending or reversed, when no key is empty |
| Paging.ListBlobs | internal/actorstore/store.go:374-399 | the page of the blob table's CIDs beyond the cursor, in text order, and its cursor |
| Paging.BlobPages | internal/xrpc/sync.go:188-218 | following cursors lists each row of the blob table exactly once, in text order |
| Paging.ConsistentIsReadable | internal/xrpc/repo.go:404-414 | in a consistent database no page fails |
| Paging.MissingBlobRefs | internal/actorstore/store.go:509-532 | the rows of the reference table whose blob is absent, each once, in text order of their CIDs |
| Paging.MissingPage | internal/xrpc/migration.go:356-376 | references beyond the cursor up to the limit, and the last CID as cursor of a full page |
| Paging.MissingOnOnePage | internal/xrpc/migration.go:333-377 | following cursors reports each missing CID on exactly one page, in at most floor(n/limit)+1 requests |
| Paging.EveryReferenceIff | internal/xrpc/migration.go:333-377 | every missing reference is reported, once and in order, if and only if no page ends between two references to one CID; otherwise fewer are |
| Paging.MissingTablePages | internal/xrpc/migration.go:333-377 | both, of the reference table: each missing blob on exactly one page, every reference exactly under that condition |
| Paging.ReferenceDropped | internal/xrpc/migration.go:356-376 | two references to one blob and pages of one: the second is dropped |
| RepoList.ListRepos | internal/xrpc/sync.go:276-307 | the repos whose DID is past the cursor, in creation order, up to the limit, and the last one as cursor of a full page |
| RepoList.ReposListedIff | internal/xrpc/sync.go:260-309 | following cursors always ends, and lists each repo exactly once if and only if every full page ends with its greatest DID and all repos created later have greater ones |
| RepoList.RepoDropped | internal/xrpc/sync.go:276-307 | pages of one: a repo created later with a smaller DID is never listed |
| BoundedReader.MaxReader.Read | internal/xrpc/safedial.go:94-109 | never past the limit; with the limit used up one more byte is an error |
| BoundedReader.MaxReader.ReadAll | internal/xrpc/safedial.go:94-109 | however the body is split: the whole body when it fits, else exactly the first limit bytes and an error |
| BoundedReader.RoundTrip | internal/xrpc/safedial.go:76-87 | refused exactly when the declared length is over the limit |
| BoundedReader.Fetch | internal/xrpc/safedial.go:76-109 | a fetch yields the whole body or an error |
| Tid.Encode | docs/blog-posting.md:66-80 | the script's loop computes the 13-digit text, and its final 63-bit mask changes nothing |
| Tid.TextRoundTrip | docs/blog-posting.md:66-80 | for times below 2^53 and 10-bit clock ids the text is a valid TID and decodes to both fields |
| Tid.CanonicalIsText | docs/blog-posting.md:82-90 | every valid TID is the text of its own fields |
| Tid.TextOrder | docs/blog-posting.md:66-80 | string order is order by time, then clock id |

## Left out

- Frames.RunStoresContent: for events with exactly one sequenced variant, as the union is meant to be used.
- Sessions.MatchingMeansCurrent: takes the names of the listed app passwords to be distinct, which the table's primary key ensures and the runs in `SessionRuns` keep.
- RepoEvents.BatchIssuesAscending: assumes the clock stays within its 53 bits and the current revision is a valid TID, which a first import does not check.
- Writes.BatchCommitsIff: for batches that give their keys; whether a generated key makes a valid path is left to the library, so for the others only `FailedBatchStops` says why they fail.
- Manager.RunIsLinear: an import takes no lock; runs in which one falls between a batch's first read and its commit are excluded by hypothesis, which `ImportRace` shows cannot be dropped.
- Overtaking.OvertakingIff: speaks of runs that lose no event; a lost event leaves the log without that commit, in whatever order the others are appended.
- RepoHistory.ReplicaHoldsBlocks: only for repos without imports, which clear blocks that no event announces.
- Window.InWindowSplice: assumes that events are announced in commit order, that the channel has room, that trims leave no gap and that none falls between the window check and the query; `Splice.ExactSplice` says what happens without the last two.
- RateLimiter.WindowBound: each call reads the clock once, where the code reads it again inside the token bucket; real numbers stand for floating point.
- SessionRuns.BumpRevokes: within one account row's life; a deleted account that is created again starts its versions at one.
- Cryptography, CBOR, SQLite, password hashing, lexicon validation and signatures are functions or validity predicates; the hash of a refresh token's identifier is taken to be the identifier.
- The layout of Merkle search tree nodes: which inner nodes a map has is a given function, and which unchanged nodes are written again is arbitrary.
- The record map a caller passes in is changed in place when its type is filled in; the model fills it in on a copy.
- Multi-row queries return rows in the order the query asks for; ties in app-password creation time keep insertion order.
- Failures of the database itself (a full disk, a lost connection) beyond rolling back a batch, losing an event after its commit, and a failing append.
- Websocket framing and the detection of a client that goes away, beyond a write that fails or a disconnect at any moment.
- Changing handles, signing-key reservations and admin tokens.
- Deleting accounts; taking down or deactivating an account is a change of status only, and its event is not tied to it.
- Accounts created, deleted or given a repo while a client follows the cursors of `listRepos`; records and blobs that change while theirs are followed.
- HTTP plumbing, JSON, CORS, logging, the command line, configuration, relays, PLC operations, address and proxy policy.
