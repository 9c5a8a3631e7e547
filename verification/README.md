# FS5 directory model

A Dafny model of S5's file system FS5 and of the protocols that keep its
content alive, with proofs about every input, every run or every reachable
state. `dafny verify dfyconfig.toml` checks everything.

FS5 stores a directory tree as content-addressed snapshots. A directory actor
owns one snapshot; it may split itself into hash shards, move path prefixes
into subdirectories, merge other replicas' snapshots and save itself together
with its children. All of that is meant to be invisible: callers see one flat
map from paths to files. Pins, the registry, the blob store and the garbage
collector decide which content survives.

| file | what it models |
|---|---|
| `Entries.dfy` | file and directory references, timestamps, the flat view of a directory |
| `ShardTree.dfy`, `Sharding.dfy`, `ShardMerge.dfy`, `FileApi.dfy` | routing, file operations, the shard transition and snapshot merge on sharded layouts, against a plain map |
| `DirActor.dfy` | the directory actor as an object, each method proved against those layouts |
| `DirStates.dfy`, `Promotion.dfy` | states that refer to children by hash; prefix promotion |
| `Actors.dfy`, `ActorShape.dfy`, `SaveProtocol.dfy` | actors with FIFO mailboxes, every message handler including the save request, what holds of them in every run, and the invariant between well-timed saves |
| `SaveWalk.dfy`, `SaveRuns.dfy`, `SaveFailures.dfy` | the save as a walk interleaved with everything else, exactly when a save of any run publishes the tree in memory, and runs in which it does not |
| `ActorTree.dfy`, `Delivery.dfy`, `DirCreation.dfy` | what each step means for the tree in memory, what an operation sent down through the actors does to it, and when creating a directory again does nothing |
| `Lww.dfy`, `Convergence.dfy` | last-write-wins merge and replica convergence |
| `Listing.dfy`, `ShardListing.dfy` | cursor paging, and paging over a layout that changes between the pages |
| `Gc.dfy`, `GcMark.dfy`, `GcSweep.dfy` | version chains, mark and sweep |
| `Registry.dfy`, `Pins.dfy` | the revision-guarded register, write policies, and the locked pin set over it |
| `BlobServer.dfy`, `Import.dfy`, `TeeStream.dfy`, `Chunks.dfy` | blob requests, imports, the tee stream, chunked encryption |
| `Snapshots.dfy` | head and snapshot pins of a local root, and the snapshot index |
| `Codecs.dfy` | stream message and blob identifier encodings |

What is unknown is a parameter: `xxh3_64` is any function from names to 64-bit
words, and BLAKE3 any function to 256-bit numbers, or an injective constructor
where directories refer to each other by hash. The AEAD is any pair of functions
obeying its length and inversion laws. Clocks, hash-map iteration order, store
faults, writer answers and thread interleavings are chosen by the environment.
So is the child state that a promotion yields during a run, provided it is the
optimized one and its own children are stored (`SaveProtocol.GoodChoice`).

## Where a promise holds only under a condition

Each of these is proved as an exact condition or with a concrete input.

- Sharding buckets by the whole key, routing by the first segment:
  `Sharding.ShardKeepsLookupsIff`. A shard call at the maximum level strands
  entries: `Sharding.ShardKeepsEntriesIff`.
- Sharded merge drops entries whose bucket has no shard:
  `ShardMerge.MergeIsFlatMergeIff`.
- Merges converge exactly when the latest offers agree:
  `Convergence.MergesConverge`; push and pull agree exactly without ties:
  `Convergence.PushThenPull`.
- A save of any run, begun while nothing is undelivered below the root, publishes
  the tree in memory exactly when the tree of actors is sound, that is, when every
  reference it will keep loads and stands for what the child holds, at every
  level: `SaveRuns.SaveIsExactIff`. With messages waiting, it is decided when the
  root answers: `SaveRuns.AnswerIsExactIff`. Runs from a fresh root show what goes
  wrong: creating a directory and saving at once publishes a placeholder hash
  (`SaveFailures.CreateThenSave`), and so does an operation waiting in a child's
  mailbox (`SaveFailures.WaitingOperationDisturbs`); an announcement read after a
  save that overtook it puts an old hash back, and the next save loses data, at the
  root's child (`SaveFailures.LateAnnouncementLosesData`) or further down
  (`SaveFailures.LateAnnouncementBelowLosesData`).
- Creating a directory whose name contains slashes hides the files moved into
  it: `ActorTree.CreateMeaningIff`.
- Deleting a hand-made tombstone adds its own hash to what is kept:
  `Gc.DeleteKeepsIff`. A missing root file makes everything unpinned garbage,
  snapshots included: `GcSweep.CollectGarbage`. A directory queued first under a
  wrong key is never read under the right one: `GcMark.TwoKeysLoseContent`.
- Backends that are sent the same messages agree exactly when no stream-type
  message is beaten by one of its key: `Registry.BackendsConvergeIff`.
- A pin written at the last u64 revision is lost silently, and nothing else is:
  `Pins.PinsAreAtomicIff`, `Pins.PinLostAtLastRevision`.
- A rejected upload can delete pinned content:
  `BlobServer.RequestKeepsPinnedIff`.
- A snapshot of unsaved content leaves a stale head pin:
  `Snapshots.EverySaveIsExactIff`. Deleting one of two snapshots with
  the same hash unpins the other: `Snapshots.NamedStayPinnedIff`.
- Empty inline data does not survive the wire: `Codecs.WireRoundTrip`.

## Where the documentation and the code disagree

The model follows the code.

- `s5_core/src/stream/mod.rs:25` says the larger hash wins a tie; the order in
  `s5_core/src/stream/types/order.rs:20` makes the smaller one win. The same
  comment calls `MemoryRegistry` a blind overwriter; it uses `should_store`.
- `s5_fs/src/actor.rs:518` calls directory creation idempotent. Creating an
  existing slash-free name is forwarded to the child as the empty path, where it
  makes a directory named by the empty string, and again below that:
  `DirCreation.CreateRequestIff`, `DirCreation.SecondCreateMakesEmptyName`.
- `s5_fs/src/gc.rs:66-68` says a directory that cannot be loaded never leads to
  a deletable blob. Its subtree is skipped, so its content is not marked and is
  swept: `GcSweep.UnreadableDirectoryIsSwept`.
- `s5_fs/src/actor/sharding.rs:322-325` says a sharded parent keeps its maps;
  the lines before clear them.

## Model

| member | source | states |
|---|---|---|
| `ShardTree.BucketsSpellHash` | s5_fs/src/actor/sharding.rs:27-36 | the buckets of the eight levels are the eight bytes of the hash: put together they give it back, and names with different hashes differ at some level |
| `ShardTree.BucketIsDigitOfHash` | s5_fs/src/actor/sharding.rs:27-36 | the bucket at a level is the digit of the hash at the place of that level, in base 256 |
| `ShardTree.FirstSegment` | s5_fs/src/actor.rs:258-261 | the routing name is the slash-free prefix of the path up to its first slash or its end |
| `ShardTree.FlatAt` | s5_fs/src/actor/snapshots.rs:14-43 | in a placed layout the merged snapshot holds a key with exactly the entry found by following its buckets down |
| `ShardTree.FlatDisjoint` | s5_fs/src/actor/snapshots.rs:24-33 | the merged snapshot never has a name that is both a file and a directory |
| `ShardTree.SeenIsFlatSeen` | s5_fs/src/actor.rs:257-311 | a file operation on a slash-free name finds what it would find in the merged snapshot |
| `ShardTree.SeenIsTheFile` | s5_fs/src/actor.rs:303-311 | what a file operation finds on a slash-free name is the file stored under it, in whatever shard |
| `ShardTree.SeenAfterTask` | s5_fs/src/actor.rs:257-311 | afterwards that name finds what the task made of it, and every other name what it found before |
| `ShardTree.ChildTakesThePath` | s5_fs/src/actor.rs:290-302 | on a path that leads into a child directory nothing here is found or touched |
| `ShardTree.FileOpAt` | s5_fs/src/actor.rs:290-311 | a slash-free file operation changes the entry of its own name as the task says and no other, wherever the entry lives |
| `ShardTree.FileOpPlaced` | s5_fs/src/actor.rs:290-311 | a file operation leaves every key where routing looks for it |
| `Sharding.FirstUsed` | s5_fs/src/actor/sharding.rs:274-310 | the first shard opened is that of the smallest used bucket |
| `Sharding.ShardedNode` | s5_fs/src/actor/sharding.rs:238-330 | a successful shard call keeps every key reachable with its entry, and every key placed |
| `Sharding.ShardAtPlaced` | s5_fs/src/actor/sharding.rs:238-385 | the same for sharding any nested shard, inside the whole layout |
| `Sharding.ApplyIsInvisible` | s5_fs/src/actor/sharding.rs:238-330 | one file operation or shard call answers and acts on the flat view as on a plain map |
| `Sharding.ShardingIsInvisible` | s5_fs/src/actor/sharding.rs:238-330 | in every run of slash-free file operations interleaved with sharding any nodes below the depth limit, all answers and the merged snapshot are those of a plain map and every name stays where routing sends it |
| `Sharding.ShardKeepsEntriesIff` | s5_fs/src/actor/sharding.rs:355-366 | a shard call keeps all entries reachable if and only if it is not on a non-empty unsharded directory at level 7, where it loses exactly the names of the smallest bucket in use |
| `Sharding.ShardKeepsLookupsIff` | s5_fs/src/actor/sharding.rs:253-266 | for arbitrary keys, sharding keeps every lookup if and only if whole-key and first-segment buckets agree on each stored key not hidden by a child |
| `Sharding.SeenAfterShard` | s5_fs/src/actor.rs:264-275 | what any lookup finds after sharding: the old value if the two buckets agree, otherwise nothing |
| `FileApi.GetReturnsLastWrite` | s5_fs/src/api.rs:264-371 | in every run of puts, gets, deletes and sharding, file_get returns the file that the last put of that name wrote, and nothing if that was a tombstone or a delete came after it |
| `FileApi.GetReturnsTheEntryIff` | s5_fs/src/api.rs:336-348 | file_get returns a file exactly if it is the one stored under the name and no tombstone |
| `FileApi.GetReadsTheFileMap` | s5_fs/src/api.rs:336-348 | on an unsharded directory that is the entry in its file map |
| `FileApi.CallLeaves` | s5_fs/src/api.rs:264-371 | a put leaves its file under the name, a get what was there, and a delete nothing if there was nothing and otherwise a tombstone of the given time that keeps the old entry |
| `FileApi.CallStep` | s5_fs/src/api.rs:336-371 | one call changes what file_get returns for its own name only |
| `ShardMerge.MergeNodeAt` | s5_fs/src/actor/merge.rs:58-130 | after a merge into shards each name has the race winner if its entry reaches a leaf, and is unchanged otherwise |
| `ShardMerge.MergeNodePlaced` | s5_fs/src/actor/merge.rs:66-113 | a merge leaves every key where routing looks for it |
| `ShardMerge.MergeCommutesWithFlat` | s5_fs/src/actor/merge.rs:20-130 | merging into any nested-sharded layout and flattening equals flattening and merging the delivered entries |
| `ShardMerge.MergeIsFlatMergeIff` | s5_fs/src/actor/merge.rs:115-122 | the sharded merge is the flat merge if and only if every entry whose bucket is missing would have lost anyway |
| `ShardMerge.FullMerge` | s5_fs/src/actor/merge.rs:20-130 | into an unsharded directory, or one with a shard for every bucket, the whole snapshot is merged |
| `ShardMerge.MergeAfterShard` | s5_fs/src/actor/merge.rs:115-122 | a directory that was just sharded merges an incoming name exactly if one of its own names shares the bucket, and otherwise drops it |
| `DirActorObject.DirActor.constructor` | s5_fs/src/actor.rs:190-206 | a new actor is unsharded and holds the given maps |
| `DirActorObject.DirActor.FileOp` | s5_fs/src/actor.rs:257-311 | the routed, in-place operation returns and leaves what the layout function says |
| `DirActorObject.DirActor.FileOpHere` | s5_fs/src/actor.rs:303-311 | the local slot is taken out, run through the task and put back; a child directory's name is left alone |
| `DirActorObject.DirActor.Shard` | s5_fs/src/actor/sharding.rs:238-330 | done, refused or failed at the first shard, with exactly the resulting fields in each case |
| `DirActorObject.DirActor.OpenShards` | s5_fs/src/actor/sharding.rs:274-320 | one new actor per non-empty bucket, or failure at the first one beyond the level limit |
| `DirActorObject.DirActor.OpenShard` | s5_fs/src/actor/sharding.rs:332-385 | the new shard actor is listed, holds its part and is one level deeper; the others are untouched |
| `DirActorObject.DirActor.ShardAt` | s5_fs/src/actor/sharding.rs:238-385 | sharding a nested actor fails exactly when that actor hits the depth limit, and otherwise acts on the whole layout as specified |
| `DirActorObject.DirActor.ExportMergedSnapshot` | s5_fs/src/actor/snapshots.rs:14-43 | the recursive export returns the flat view |
| `DirActorObject.DirActor.MergeSnapshot` | s5_fs/src/actor/merge.rs:20-55 | the in-place merge of a sharded or unsharded actor leaves the specified layout |
| `DirActorObject.DirActor.MergeIntoShards` | s5_fs/src/actor/merge.rs:58-130 | every listed shard gets its part of the snapshot, parts without a shard have no effect |
| `DirActorObject.Distribute` | s5_fs/src/actor/sharding.rs:251-266 | the 256 shard states are exactly the parts of the directory by bucket |
| `DirActorObject.ShardLeaves` | s5_fs/src/actor/sharding.rs:274-320 | opening the non-empty states gives the specified outcome of the shard call |
| `DirStates.ExtractGet` | s5_fs/src/actor/sharding.rs:60-85 | the extracted child holds, at a relative path, exactly the file at prefix and path |
| `DirStates.WithoutGet` | s5_fs/src/actor/sharding.rs:60-85 | the directory they leave keeps every file that is not below the prefix |
| `DirStates.PathParts` | s5_fs/src/actor.rs:258-281 | a path is split at its first slash, and one without a slash goes on as the empty path |
| `Promotion.OptimizedUnique` | s5_fs/src/actor/sharding.rs:147-204 | the optimized structure of a set of files is unique, so group order cannot matter |
| `Promotion.OptimizedLookup` | s5_fs/src/actor/sharding.rs:147-204 | every lookup in the optimized tree is a lookup of one definite key among the original files |
| `Promotion.OptimizedKeepsLookups` | s5_fs/src/actor/sharding.rs:147-204 | every path that is not a promoted prefix keeps its file |
| `Promotion.OptimizedConserves` | s5_fs/src/actor/sharding.rs:147-204 | each original file is stored exactly once under its own path and nothing else is stored |
| `Promotion.OptimizedSpreads` | s5_fs/src/actor/sharding.rs:159-177 | at no level do more than the threshold of files share a first segment |
| `Promotion.IsBigIff` | s5_fs/src/actor/sharding.rs:158-160 | a first segment is promoted from eleven files below it on |
| `Promotion.CreateKeepsLookups` | s5_fs/src/actor.rs:521-536 | creating a slash-free directory changes no lookup but that of its name |
| `Promotion.PromoteKeepsLookups` | s5_fs/src/actor/sharding.rs:128-145 | promoting a prefix changes no lookup but those of the directories made |
| `Promotion.AddChildConserves` | s5_fs/src/actor/sharding.rs:128-145 | neither creating nor promoting a directory loses a file or stores one twice |
| `Promotion.GroupByFirstSegment` | s5_fs/src/actor/sharding.rs:149-157 | every first segment shared by more than the threshold gets a group, and each group is complete |
| `Promotion.MoveGroup` | s5_fs/src/actor/sharding.rs:166-174 | exactly the group leaves and arrives under relative paths |
| `Promotion.OptimizeDirStructure` | s5_fs/src/actor/sharding.rs:147-204 | the recursion terminates and yields the optimized structure for any group order |
| `Promotion.PromoteGroup` | s5_fs/src/actor/sharding.rs:160-200 | one group becomes one optimized child and leaves the parent |
| `Promotion.ExtractChildDirState` | s5_fs/src/actor/sharding.rs:60-85 | the loop splits the files into those below the prefix, renamed, and the rest |
| `Promotion.PromotePrefix` | s5_fs/src/actor/sharding.rs:128-145 | an existing child is left alone; otherwise an optimized child appears; all other lookups are kept |
| `Actors.EnterReplies` | s5_fs/src/actor/persistence.rs:286-328 | the loops over the children's answers enter each new hash and save exactly if the state was dirty or changed, in whatever order the answers are kept |
| `SaveProtocol.OwnStepInv` | s5_fs/src/actor.rs:208-391 | starting and every message but a save request keep the invariant: dirt is upward closed or announced, a clean child is what its parent's hash loads or its update is in transit |
| `SaveProtocol.StepAtInv` | s5_fs/src/actor.rs:504-514 | so does a step of any actor in the tree, with its message delivered to the parent's mailbox |
| `SaveWalk.SaveAssembles` | s5_fs/src/actor/persistence.rs:254-332 | the recursive save leaves every child clean, loadable and referenced under its hash, if the clean ones were referenced rightly before |
| `SaveWalk.SaveTreeIff` | s5_fs/src/actor/persistence.rs:254-332 | of any tree of actors, however its references came about, it publishes the tree in memory if and only if the tree is sound: unopened children load, dirty ones are sound, and clean ones are referenced under a hash that loads and holds their tree |
| `SaveWalk.SoundIfCurrent` | s5_fs/src/actor/persistence.rs:254-332 | under the invariant of well-timed runs, soundness comes down to the root's clean open children being referenced under the hash of their own state |
| `SaveWalk.CleanIsStored` | s5_fs/src/actor/persistence.rs:265-331 | a clean settled subtree, which a save skips, is already stored whole |
| `SaveWalk.WalkStep` | s5_fs/src/actor.rs:392-395 | each step of an undisturbed walk, by whichever actor, continues it or completes it with the result of the recursive save |
| `SaveWalk.WalkFinishes` | s5_fs/src/actor/persistence.rs:283-331 | when the last answer is in, an actor saves what the recursive save would |
| `SaveWalk.WalkIsNeverStuck` | s5_fs/src/actor/persistence.rs:280-284 | while a save is under way some actor can take it further, so waiting for the answers does not deadlock |
| `SaveWalk.WalkKeepsMemory` | s5_fs/src/actor/persistence.rs:254-332 | the tree in memory is the same at every point of a walk |
| `SaveRuns.UnderwayStep` | s5_fs/src/actor.rs:392-395 | whatever event comes next, a save under way goes on or is complete |
| `SaveRuns.NextInv` | s5_fs/src/actor.rs:208-395 | every event of a run with well-timed saves keeps the system invariant, also in the middle of a save |
| `SaveRuns.SaveIsExactIff` | s5_fs/src/actor/persistence.rs:254-332 | one save of any run from a loaded root, whatever its earlier saves did, begun while no message is undelivered below the root and interleaved with anything else, publishes the tree in memory if and only if the tree of actors was sound when it began |
| `SaveRuns.AnswerIsExactIff` | s5_fs/src/actor/persistence.rs:286-331 | any save of any run, with whatever messages waiting: the step that answers it publishes the tree in memory if and only if every reference the root is about to write loads and stands for what memory holds there |
| `SaveRuns.RunWild` | s5_fs/src/actor.rs:208-395 | in every run no reference dangles, and a clean root's state is what is on disk |
| `ActorShape.StepAtRooted` | s5_fs/src/actor.rs:208-395 | a step anywhere keeps every hash that actors hold or send leading only to stored states or the placeholder |
| `SaveRuns.RunInv` | s5_fs/src/actor.rs:208-252 | the invariant holds after every such run |
| `SaveRuns.ReloadGivesMemory` | s5_fs/src/actor/persistence.rs:26-332 | in every run in which saves begin only while no message is undelivered below the root and no announcement waits at the root, whenever a save is answered, reloading the root file through its hashes gives the tree in memory |
| `SaveFailures.CreateThenSave` | s5_fs/src/actor.rs:521-536 | a run from a fresh root: a directory created just before the save is published under the placeholder hash and does not load |
| `SaveFailures.WaitingOperationDisturbs` | s5_fs/src/actor/persistence.rs:280-284 | a run from a fresh root: an operation waiting in the mailbox of a clean open child runs before the child saves, and the published root does not load |
| `SaveFailures.LateAnnouncementLosesData` | s5_fs/src/actor.rs:384-390 | a run from a fresh root: a save overtakes an announcement and is right; the announcement puts the old hash back, and the tree is no longer sound; the next save, with every message delivered, publishes a tree without the file in memory |
| `SaveFailures.LateAnnouncementBelowLosesData` | s5_fs/src/actor.rs:384-390 | the same one level down, where every clean child of the root is referenced rightly and no save publishes the tree all the same |
| `ActorTree.BookkeepingKeepsMemory` | s5_fs/src/actor.rs:366-395 | starting, forwarding, dirty marks, hash updates and every step of a save leave the tree alone |
| `ActorTree.BookkeepingIsInvisible` | s5_fs/src/actor.rs:290-300 | the same for a step of any actor, seen from the root |
| `ActorTree.OnlyOperationsChangeMemory` | s5_fs/src/actor.rs:208-395 | in every run, however its saves are timed, only a step that runs an operation changes the tree in memory |
| `ActorTree.TaskMeaning` | s5_fs/src/actor.rs:303-311 | a file task changes exactly the slot of its path, however many prefixes it promotes |
| `ActorTree.TaskPromotesIff` | s5_fs/src/actor/sharding.rs:39-56 | a task makes a child directory of the first segment exactly if it leaves a file below it and eleven files or more are there then |
| `ActorTree.CreateMeaningIff` | s5_fs/src/actor.rs:521-536 | creating a directory keeps every other lookup if and only if its name is slash-free or nothing is stored below it |
| `Delivery.OperationIsForwarded` | s5_fs/src/actor.rs:264-299 | a running actor with a child directory of the first segment puts the operation, with the rest of the path, at the end of that child's mailbox, opening the child under its hash if need be, and changes nothing else |
| `Delivery.MailIsServedInOrder` | s5_fs/src/actor.rs:208-252 | a message leaves a mailbox only by being served, first come first served |
| `Delivery.AnnouncementIsEntered` | s5_fs/src/actor.rs:366-391 | a new hash of a child is entered and makes the actor dirty; a known one, or one for a name that is no child, does nothing |
| `Delivery.ActorStarts` | s5_fs/src/actor.rs:208-252 | an actor given a state stores it and announces its hash; one given a hash runs exactly if its state is stored |
| `Delivery.OperationIsServed` | s5_fs/src/actor.rs:257-319 | delivered through the actors, opening those on the way, a creation or a file task does to the tree in memory what it does to a tree |
| `Delivery.RequestIsServed` | s5_fs/src/actor.rs:208-319 | so a client's operation on a tree with nothing undelivered is served by some run |
| `Delivery.TaskLookup` | s5_fs/src/actor.rs:290-311 | a file task on a tree changes what is found where its path leads to what the task makes of it, and nothing elsewhere, places made directories by a promotion aside |
| `Delivery.TaskRequestIsServed` | s5_fs/src/actor.rs:208-319 | a client's file task, served through children opened or not, leaves at its path what the task makes of what was found there before, and every other place as it was, places made directories by a promotion aside |
| `Delivery.FittingChoice` | s5_fs/src/actor/sharding.rs:147-204 | whatever a task promotes, an optimized child whose own children can be stored exists |
| `DirCreation.CreateRequestIff` | s5_fs/src/actor.rs:312-319 | a client's creation leaves the tree alone if and only if it lands on an existing name, which a slash-free one never does |
| `DirCreation.CreateAgainIff` | s5_fs/src/actor.rs:517-524 | creating a directory again leaves the tree alone if and only if the name left for the serving directory contains a slash |
| `DirCreation.SecondCreateMakesEmptyName` | s5_fs/src/actor.rs:258-281 | creating a slash-free directory twice makes a directory with the empty name in it |
| `ActorTree.StepStaysInItsDirectory` | s5_fs/src/actor.rs:288-391 | a step of one actor changes the tree only inside that actor's directory |
| `Entries.Stamp` | s5_fs/src/actor/merge.rs:211-222 | the packed timestamp fits in a u64 for all seconds and nanoseconds |
| `Entries.StampIsLexicographic` | s5_fs/src/actor/merge.rs:211-222 | below 10^9 nanoseconds it orders and identifies like the pair |
| `Entries.StampNotLexicographicBeyondABillion` | s5_fs/src/actor/merge.rs:211-222 | a tie between different pairs from 10^9 nanoseconds on |
| `Lww.LaterEntryWins` | s5_fs/src/actor/merge.rs:133-222 | below 10^9 nanoseconds the remote entry of a name wins exactly if its seconds are later, or equal with later nanoseconds, for files and directories in all four pairs |
| `Lww.UncontestedEntryStays` | s5_fs/src/actor/merge.rs:133-208 | a name on one side only is kept or taken over as it is |
| `Lww.FileNeedsToBeLater` | s5_fs/src/actor/merge.rs:133-208 | of a file and a directory of one name in a snapshot, the file arrives only if it is later |
| `Lww.PlaceDir` | s5_fs/src/actor/merge.rs:139-164 | a remote directory takes its name only with a later stamp, keeps all other names and disjointness, and drops the handle exactly when it replaces something |
| `Lww.PlaceFile` | s5_fs/src/actor/merge.rs:167-193 | the same for a remote file; a handle goes exactly when a directory is displaced |
| `Lww.MergeDirAt` | s5_fs/src/actor/merge.rs:133-194 | the merge is disjoint and gives each name the left-biased latest of local, remote directory, remote file |
| `Lww.MergeDirUnique` | s5_fs/src/actor/merge.rs:133-194 | nothing else has those winners |
| `Lww.MergeEntriesLocal` | s5_fs/src/actor/merge.rs:133-194 | the two loops compute that merge for any snapshot and keep exactly the handles of unreplaced entries |
| `Lww.MergeRemoteDirs` | s5_fs/src/actor/merge.rs:139-164 | the directory loop's winners and handles, in any order |
| `Lww.MergeRemoteFiles` | s5_fs/src/actor/merge.rs:167-193 | the file loop's winners and handles, in any order |
| `Convergence.OutcomeIsLatest` | s5_fs/src/actor/merge.rs:133-194 | after any merges a name has its local entry or a latest later offer, and no offer beats it |
| `Convergence.MergesConverge` | s5_fs/src/actor/merge.rs:133-194 | equal replicas merging the same snapshots in any order and repetition end equal if and only if the latest offers of every name agree |
| `Convergence.UniqueStampsConverge` | s5_fs/src/actor/merge.rs:133-222 | they do when distinct entries of a name never share a timestamp |
| `Convergence.UndeterminedDiverges` | s5_fs/src/actor/merge.rs:139-193 | otherwise some order of the same snapshots gives a different entry |
| `Convergence.Replica.MergeFromSnapshot` | s5_fs/src/actor/merge.rs:47-54 | the replica's state becomes the merge |
| `Convergence.Transfer` | s5_node/src/sync.rs:84-101 | the target, without dirty children and staying unsharded, is merged and saved; the source is untouched |
| `Convergence.PushThenPull` | s5_node/src/sync.rs:84-101 | between such replicas a push then a pull leaves both sides equal if and only if no name had different entries with one timestamp, and another round changes nothing |
| `Convergence.SyncedIff` | s5_node/src/sync.rs:84-101 | the same on values |
| `Convergence.SyncSettles` | s5_node/src/sync.rs:84-101 | both sides are fixed points of further exchanges |
| `Listing.BoundsMeanPast` | s5_fs/src/actor/listing.rs:31-38 | the two range bounds of a cursor together mean "after the cursor" in listing order |
| `Listing.LessIff` | s5_fs/src/actor/listing.rs:50-57 | names are ordered by the first place where they differ, a prefix coming first |
| `Listing.BeforeMeans` | s5_fs/src/actor/listing.rs:53-70 | of one name the directory is listed before the file, of two the smaller name first |
| `Listing.Range` | s5_fs/src/actor/listing.rs:40-47 | exactly the names within the bound remain, in order |
| `Listing.ListEntries` | s5_fs/src/actor/listing.rs:10-91 | the page is the first limit entries past the cursor in (name, directory before file) order; the next cursor is its last entry |
| `Listing.PagesIncrease` | s5_fs/src/actor/listing.rs:31-91 | following cursors lists strictly increasing entries, whatever changes in between |
| `Listing.PagesComplete` | s5_fs/src/actor/listing.rs:31-91 | an entry present throughout is listed |
| `Listing.PagingIsReliable` | s5_fs/src/actor/listing.rs:10-91 | paging to the empty page lists every entry present throughout exactly once, in order, even on a changing directory |
| `Listing.PagesConcatenate` | s5_fs/src/actor/listing.rs:10-91 | on an unchanged directory the pages concatenate to the full listing |
| `ShardListing.SortKeys` | s5_fs/src/actor/listing.rs:21-29 | the collected keys are the map's, in order |
| `ShardListing.ListActor` | s5_fs/src/actor/listing.rs:10-91 | a page of a directory actor is a page of its flat view |
| `ShardListing.PagingSeesThePlainMap` | s5_fs/src/actor/listing.rs:10-91 | while names are put, deleted and sharded between the pages, paging lists in order and once every entry that a plain map given the same operations holds throughout |
| `ShardListing.ShardingDoesNotDisturbPaging` | s5_fs/src/actor/listing.rs:13-19 | if the directory is only sharded between the pages, they list exactly what it holds |
| `Gc.AddVersions` | s5_fs/src/gc.rs:26-38 | the explicit stack visits exactly the hashes of the version chain |
| `Gc.CollectHashes` | s5_fs/src/gc.rs:24-56 | a directory's hashes are those of all chains, a tombstone's own hash excepted |
| `Gc.KeptByIff` | s5_fs/src/gc.rs:24-56 | an entry keeps the hashes of the versions its links lead to and, unless it is a tombstone, its own |
| `Gc.DeletedFields` | s5_fs/src/dir.rs:315-336 | a tombstone carries the time of the deletion, the old entry as its previous version, and a version count one higher up to the largest |
| `Gc.DeleteKeepsIff` | s5_fs/src/dir.rs:315-336 | a delete keeps the collected hashes if and only if the entry is live or a tombstone whose hash is in its chain |
| `Gc.DeletesKeepContent` | s5_fs/src/api.rs:354-371 | any number of deletes keeps them, from a live entry or a tombstone made by deletion |
| `GcMark.QueueRefs` | s5_fs/src/gc.rs:120-128 | exactly the shard and directory references are queued |
| `GcMark.VisitDir` | s5_fs/src/gc.rs:111-128 | one directory step keeps soundness and completeness of the marks |
| `GcMark.VisitRef` | s5_fs/src/gc.rs:133-160 | a reference is loaded at most once per hash, and both invariants are kept |
| `GcMark.DrainRefs` | s5_fs/src/gc.rs:130-161 | the inner loop empties its queue and either visits a stored directory for the first time or adds no work |
| `GcMark.CollectReachable` | s5_fs/src/gc.rs:69-165 | marking terminates on any finite graph and returns only live hashes, all of them if references to one hash load the same; in any case exactly those of the directories loaded under one reference for each hash met, the first snapshot's among them; it fails on a corrupt root and marks nothing without a root |
| `GcMark.LiveIff` | s5_fs/src/gc.rs:69-165 | the live hashes are those kept by the files found by descending from the root and the snapshots through shards and child directories |
| `GcMark.TwoKeysLoseContent` | s5_fs/src/gc.rs:133-136 | a directory referenced first under a wrong key: live content that is not marked |
| `GcSweep.GcStore` | s5_fs/src/gc.rs:196-240 | exactly the unpinned unreachable deletable blobs go, the counters partition the total, and a pin error ends the run safely |
| `GcSweep.CollectGarbage` | s5_cli/src/cmd/blobs.rs:63-80 | mark and sweep together delete nothing pinned, nothing live if references to one hash load the same, and all other listed deletable blobs |
| `GcSweep.UnreadableDirectoryIsSwept` | s5_fs/src/gc.rs:138-159 | a directory that does not load: the blob that is live while it loads is deleted |
| `Registry.MemoryRegistry.Set` | s5_registry/src/lib.rs:270-277 | the row changes exactly when the message should be stored |
| `Registry.StoredNeverRegresses` | s5_core/src/stream/types/mod.rs:386-391 | a registry write never takes a key back and reaches its own message |
| `Registry.HoldsTheMaximum` | s5_core/src/stream/types/order.rs:17-21 | a backend sent messages among which no stream-type one is beaten holds one of them for each key, and none of them beats it |
| `Registry.HeldIsLatest` | s5_core/src/stream/types/order.rs:17-21 | nothing sent for a key has a higher revision than what is held, nor the same revision with a smaller hash |
| `Registry.BackendsConverge` | s5_core/src/stream/types/order.rs:17-21 | backends sent the same registry-type messages in any order and repetition agree on revision and hash |
| `Registry.BackendsConvergeIff` | s5_core/src/stream/types/mod.rs:386-391 | all orders and repetitions of the messages agree on every key's revision and hash if and only if no stream-type message is beaten by a message of its key |
| `Registry.BeatenStreamDiverges` | s5_core/src/stream/types/mod.rs:388 | otherwise writing the beaten message last, or its better after it, gives two different states |
| `Registry.MultiSet` | s5_registry/src/lib.rs:453-502 | every backend is written as it answers, and success is reported exactly when the policy's count is met |
| `Registry.PolicyWritesEndure` | s5_registry/src/lib.rs:471-502 | a write that met its policy leaves that many backends at or above it through every later write |
| `Registry.HoldersNeverDrop` | s5_registry/src/lib.rs:453-502 | no later write lowers the number of backends at or above a message |
| `Registry.CountedHolders` | s5_registry/src/lib.rs:453-502 | those holders are the backends whose row has a higher revision, or the same with a hash that is not greater |
| `Pins.WriteIsExactIff` | s5_core/src/pins/registry_pinner.rs:26-70 | a write under the lock stores what the call means if and only if the revision did not wrap or no new row was needed, and touches no other hash |
| `Pins.NextKeepsLocks` | s5_core/src/pins/registry_pinner.rs:137-142 | no two calls of one lock class hold the lock |
| `Pins.NextKeepsReads` | s5_core/src/pins/registry_pinner.rs:26-70 | what a lock holder has read stays current until it writes |
| `Pins.NextRefinesIff` | s5_core/src/pins/registry_pinner.rs:26-70 | a step keeps the registry equal to the map of pin sets the log describes if and only if it is not a write that needs a revision beyond the last |
| `Pins.PinsAreAtomicIff` | s5_core/src/pins/registry_pinner.rs:26-196 | over every interleaving, at every point the pin sets are those of the calls in write order, each finished call logged exactly once and unpin answering whether the set it left is empty, if and only if no write that needs a revision finds the last one used up |
| `Pins.PinsAreAtomic` | s5_core/src/pins/registry_pinner.rs:26-196 | hence, with revisions left, no update is lost at the end of a run |
| `Pins.WriteStepMeaning` | s5_core/src/pins/registry_pinner.rs:26-70 | a write adds or removes the context, or removes all; unpin answers whether nothing is left; an emptied row goes, a changed one gets the next revision, and nothing else changes |
| `Pins.LogAnswers` | s5_core/src/pins/registry_pinner.rs:44-57 | in the log of a run each unpin answered whether the calls up to and including it leave the hash without pins, and the others nothing |
| `Pins.CallAlone` | s5_core/src/pins/registry_pinner.rs:26-70 | a call made with nothing else under way returns after four steps with the hash's pins as it means them |
| `Pins.CallsFinish` | s5_core/src/pins/registry_pinner.rs:26-70 | the locks never deadlock: from every state some steps bring every call to its end |
| `Pins.LockIsFirstByte` | s5_core/src/pins/registry_pinner.rs:137-142 | the lock of a hash is its first byte modulo 64 |
| `Pins.FreshPinner` | s5_core/src/pins/registry_pinner.rs:87-96 | a new pinner over any rows with u64 revisions starts in the invariant |
| `Pins.PinLostAtLastRevision` | s5_core/src/pins/registry_pinner.rs:26-41 | at revision u64::MAX a pin is reported done and not stored |
| `BlobServer.Server.HandlePin` | s5_blobs/src/net_protocol.rs:139-185 | the caller's pin is added to those of the hash exactly if its upload store has the blob and the pinner works; a failing pinner is an error, a missing one is not; other hashes' pins and all stores stay |
| `BlobServer.Server.HandleUpload` | s5_blobs/src/net_protocol.rs:274-331 | a matching upload is stored and pinned; one that does not match or cannot be pinned is removed by content hash |
| `BlobServer.Server.HandleDelete` | s5_blobs/src/net_protocol.rs:410-453 | with a working pinner exactly the caller's pin goes and the other nodes' pins survive; if a pin is left no store changes, and with the last one each store loses exactly this blob, which the answer reports; otherwise nothing happens |
| `BlobServer.RequestKeepsPinnedIff` | s5_blobs/src/net_protocol.rs:139-453 | a request keeps every pinned blob present if and only if it is not a rejected upload of pinned content held nowhere else |
| `BlobServer.RunsKeepPinned` | s5_blobs/src/net_protocol.rs:139-453 | in every run without rejected uploads, whatever a node pinned is in some store |
| `Import.BlobStore.Finalize` | s5_core/src/blob/import.rs:230-262 | the temporary file becomes the blob or goes, on stores with and without rename |
| `Import.BlobStore.MoveToBlob` | s5_core/src/blob/import.rs:249-259 | the temporary file goes if the blob exists and otherwise becomes it; no other file changes; a failure leaves everything, or the blob copied on stores without rename |
| `Import.BlobStore.ImportBytes` | s5_core/src/blob/import.rs:27-94 | content addressing is kept whichever store operations fail, a failing write at a blob path leaving nothing there; it succeeds exactly if no operation failed; success returns the blob's hash and length and leaves its content, or an older blob that collides with it, its outboard data from 64 KiB on, and no temporary file |
| `Import.BlobStore.ImportStream` | s5_core/src/blob/import.rs:99-130 | the same for streams: success exactly if the stream is whole and no operation failed |
| `Import.BlobStore.Delete` | s5_core/src/blob/store.rs:107-125 | exactly the named blob goes and with it its outboard data, whose deletion may fail without failing the call |
| `TeeStream.Tee.FlushBuffer` | s5_core/src/blob/import.rs:317-332 | partial, pending and failing writes keep written followed by pending equal to emitted |
| `TeeStream.Tee.PollSource` | s5_core/src/blob/import.rs:334-352 | only a returned chunk adds to emitted; the end comes only with everything written |
| `TeeStream.Tee.PollNext` | s5_core/src/blob/import.rs:315-355 | at every poll written followed by pending equals emitted; a chunk taken from the source is returned; at the end written, emitted and source bytes are equal |
| `TeeStream.ReadAll` | s5_core/src/blob/import.rs:290-355 | a reader that reaches the end has exactly the source's bytes, and so has the writer |
| `Chunks.AnnouncedIsActual` | bindings/s5_flutter/src/api.rs:462-472 | the announced size is the total of the encrypted chunks, for every content and block size |
| `Chunks.AnnouncedFormula` | bindings/s5_flutter/src/api.rs:462-472 | that is the content's size and sixteen bytes for every block begun |
| `Chunks.ChunkIsSealedAtItsPlace` | bindings/s5_flutter/src/api.rs:474-483 | chunk k is sealed under index k and lies k times block and tag into the ciphertext |
| `Chunks.OpenedInvertsSealed` | bindings/s5_flutter/src/api.rs:576-605 | cutting the ciphertext at the download's boundaries gives the content back |
| `Chunks.Upload` | bindings/s5_flutter/src/api.rs:459-483 | the loop sends the sealed chunks and announces their size |
| `Chunks.Download` | bindings/s5_flutter/src/api.rs:576-605 | the loop opens the chunks or fails, and refuses a zero block size |
| `Chunks.RoundTrip` | bindings/s5_flutter/src/api.rs:459-605 | download after upload returns the content |
| `Snapshots.SnapshotIndex.InsertSnapshot` | s5_fs/src/snapshots.rs:49-71 | the search ends at the first free name, so no snapshot is overwritten |
| `Snapshots.SnapshotIndex.RemoveSnapshot` | s5_fs/src/snapshots.rs:73-76 | the entry goes and its hash is returned |
| `Snapshots.LocalRoot.Save` | s5_fs/src/actor/persistence.rs:158-195 | the head pin moves from the remembered hash to the new one, and the file is written |
| `Snapshots.LocalRoot.CreateSnapshot` | s5_fs/src/actor/snapshots.rs:95-147 | the memory's hash gets a fresh name and a snapshot pin and becomes the remembered hash |
| `Snapshots.LocalRoot.DeleteSnapshot` | s5_fs/src/actor/snapshots.rs:155-217 | a known name loses its entry and its hash's pin, an unknown one is a no-op |
| `Snapshots.HeadFollowsSaves` | s5_fs/src/actor/persistence.rs:158-195 | in every run that snapshots only saved content, after each save exactly the saved root carries the head pin |
| `Snapshots.SaveIsExactIff` | s5_fs/src/actor/persistence.rs:174-182 | from a root whose head is exact, whatever is edited, taken and deleted before the next save, the head is exact after it if and only if the last snapshot taken in between, if any, or the content saved hashes like what was saved before |
| `Snapshots.StaleHeadStays` | s5_fs/src/actor/persistence.rs:174-182 | otherwise exactly the old and the new head are pinned |
| `Snapshots.EverySaveIsExactIff` | s5_fs/src/actor/persistence.rs:158-195 | in every run from a root with an exact head, every save leaves it exact if and only if each save meets that condition, stated on contents alone |
| `Snapshots.BetweenSaves` | s5_fs/src/actor/snapshots.rs:95-217 | between saves the file and the head pins stay, and the remembered hash is that of the last snapshot |
| `Snapshots.SnapshotPinsAreNamed` | s5_fs/src/actor/snapshots.rs:95-217 | in every run a snapshot pin is held only while the index names its root, and every named snapshot can be read back |
| `Snapshots.NamedStayPinnedIff` | s5_fs/src/actor/snapshots.rs:196-214 | a step keeps every named snapshot pinned if and only if it does not delete one of two with the same hash |
| `Snapshots.NamedStayPinned` | s5_fs/src/actor/snapshots.rs:95-217 | hence so does every run of such steps |
| `Snapshots.TakenCandidatesFill` | s5_fs/src/snapshots.rs:51-57 | candidate names are all different, so an index with fewer entries leaves one free |
| `Snapshots.DecimalValue` | s5_fs/src/snapshots.rs:54-57 | the counter of a candidate name is written in decimal |
| `Codecs.New` | s5_core/src/stream/types/mod.rs:262-304 | a message is accepted exactly with its key's signature length and an allowed payload size |
| `Codecs.Serialize` | s5_core/src/stream/types/mod.rs:317-341 | the buffer is the wire format |
| `Codecs.WireBytes` | s5_core/src/stream/types/mod.rs:317-341 | byte by byte: type and key identifiers, key, big-endian revision, hash, signature, payload |
| `Codecs.Deserialize` | s5_core/src/stream/types/mod.rs:344-382 | it accepts exactly the wire forms of acceptable messages and returns the one without an empty payload |
| `Codecs.WireRoundTrip` | s5_core/src/stream/types/mod.rs:317-382 | a message survives the wire if and only if its payload is not the empty one |
| `Codecs.U64RoundTrip` | s5_core/src/stream/types/mod.rs:356 | eight big-endian bytes and u64 numbers correspond |
| `Codecs.ParseInvertsToBytes` | s5_core/src/blob/identifier.rs:59-113 | a blob identifier survives its byte form |
| `Codecs.BlobIdBytes` | s5_core/src/blob/identifier.rs:95-113 | byte by byte: three magic bytes, the hash, and the little-endian size without its trailing zeros |
| `Codecs.ParseAcceptsIff` | s5_core/src/blob/identifier.rs:59-96 | exactly the byte strings of 35 to 43 bytes with the three magic bytes are parsed |
| `Codecs.DamagedIdFails` | s5_core/src/blob/identifier.rs:62-77 | a changed magic byte is reported with what was found, a cut identifier with its length |
| `Codecs.ToBytesInvertsParseIff` | s5_core/src/blob/identifier.rs:59-113 | bytes survive parsing if and only if the size is not padded with zeros |

## Left out

- Networking and RPC (iroh, irpc, clients, fetchers), command line, node configuration, FUSE, bindings and importers: plumbing around the modelled operations.
- Cryptography and hashing: BLAKE3, XChaCha20-Poly1305, Ed25519, xxh3 and Bao are parameters with the laws stated above.
- CBOR, base64url, base32 and multibase: assumed to be inverse pairs, so a cursor is a name and a kind.
- Autosave timers, shutdown saves, crash recovery and registry-backed child directories: timing and failure behaviour outside the stated invariants.
- The size test that triggers sharding (`s5_fs/src/actor/sharding.rs:206-233`): sharding may happen at any time in the model, which is more general.
- Header fields that do not affect layout (`try_files`, `error_pages`, counters) and the reference fields `locations`, `warc` and `extra`.
- Encryption keys and nonces in the save protocol: a state's hash is its content, so saving the same state twice gives the same hash.
- Shard transitions mixed with dirty child directories, and shards inside the save protocol: the two models are kept apart, as the code shards before children are saved.
- The other stream and registry operations: `TeeRegistry`, reads of `MultiRegistry`, blob download and query handlers.
- DirActorObject.DirActor.FileOp: only for slash-free names, because sharding itself does not keep other keys reachable; automatic promotion is modelled in `SaveProtocol` and `Promotion`, and child directory handles in `Lww.MergeEntriesLocal`.
- DirActorObject.DirActor.MergeSnapshot: runs the local merge without child directory handles; which handles are dropped is stated by Lww.MergeEntriesLocal.
- Import.BlobStore.ImportBytes: a failing write at a blob path is taken to leave nothing there, as on stores with atomic writes; the WASM build, which skips outboard data, is not modelled.
- Snapshots.SnapshotPinsAreNamed: that named snapshots can be read back is for runs of these operations alone, which remove no blobs; garbage collection is modelled separately.
- SaveRuns.ReloadGivesMemory: actors are values in a tree; mailboxes are unbounded, where the code's hold 1024 messages and block the sender; a client's handle on a subdirectory, which bypasses the root's mailbox, is not modelled.
- SaveRuns.SaveIsExactIff: its condition is on the state in which the save begins, and so for saves begun with nothing undelivered below the root; with messages waiting there, what they do in the meantime decides, and SaveRuns.AnswerIsExactIff states the condition when the answers are in.
- Convergence.Transfer: replicas have no dirty children, whose hashes a save rewrites without touching their timestamps, and stay unsharded, since a sharded target exports empty maps.
- GcMark.CollectReachable: completeness is for references to one hash that load the same; with different keys the first one queued decides.
- Import.BlobStore.ImportStream: the hasher task and the tee run as one step here; their interleaving is the subject of TeeStream.
- Snapshots.SnapshotIndex.InsertSnapshot: for an index of fewer than 2^32 entries; with all candidate names taken the saturated counter would loop forever.
