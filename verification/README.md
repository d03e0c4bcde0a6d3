# Wurster storage engine: a verified model

A Wurst is one file: an immutable package followed by an append-only arena of framed records. Everything that changes
lives in that arena. Two stores share it. The Wurst Object Store keeps a containment forest of objects with their own
virtual address spaces behind copy-on-write indexes. PigFS keeps files behind paged catalogs, in realms with owners,
readers and writers. This project models both, the recovery that opens such a file after a crash, the two carriers that
a Wurst travels in (a PNG and a ZIP archive), and the overlay that makes one writable in a browser.

| modules | what they model |
|---|---|
| Bytes, Records, Framing, Recovery, Arena, RuntimeRoots | framed records, the backward searches, the shared append lane, crash runs, which roots count |
| Keys, SortedEntries, CowIndex | string keys in code unit order and the persistent search tree |
| ObjectTypes, Extents, ObjectWorld, Forest, Transactions, StoreInvariants, ObjectEffects, BreadthFirst, Subtrees, StoreParts, ObjectStore, ObjectAppend, StoreEffects, Compaction, StoreRecords | the object store: values, invariants, what each operation does and who may, the class that works on pages, append handles, compaction, its pages as records of the arena |
| PigTree, JsonPages, PigPages, PigBuild, PigMeaning, PigReseal, PigRoots, PigHistory, PigCommits, PigGovernance, PigSharing, PigVersions, PigStore, PigCompaction, PigTransactions, TreeEffects, PigTxStore | PigFS: namespace, paging, catalogs, governance, history, the store class, rekeying, compaction, transactions |
| FileCompaction | compacting a whole Wurst: PigFS, then the objects |
| Crc, Png, PngCarrier, PngSource | checksums, PNG chunks, embedding and extraction, the lazy reader |
| OverlayTree, Overlay | the browser overlay as values, and its class |
| Zip, ZipEdit | archives, and editing them |

Each imperative part is proved against a function on values: the object store against a world of maps (`View`,
`Published`), PigFS against a tree of file contents per realm (`files`), the overlay against the files it means (`View`),
the loops over records, chunks and headers against a plain search or parser. What the repository promises is then proved
about those functions and their invariants, for all inputs, all runs and all reachable states.

## How the parts are idealized

- A digest is a function to 32 bytes; nothing assumes that it has no collisions. Hashes of PigFS states and commits, and
  base hashes where an operation needs it, are injective (`Ideal`).
- Signatures are an ideal predicate, key wraps name their recipient and key, and authenticated encryption is a value that
  opens only under its own key and associated data.
- JSON text and Unicode are left to ideal codecs given as parameters; names in a ZIP archive are their UTF-8 bytes, with
  what decoding refuses and drops. `localeCompare` is an arbitrary asymmetric order.
- A crash keeps everything that was synced, then any number of further bytes, then arbitrary bytes, on the condition that
  these hold no trailer that names its own place.
- Pages of the object store are laid in the arena by an ideal encoding: their records refer to the records of the pages that they
  refer to, and show a reader of the object table its entry or the next page.
- Fresh ids and keys are parameters; session and transaction ids are counters.

## What turned out not to hold

The code is modelled as it is. Where a property that one would expect fails, a member gives the input or the exact
condition.

- A COMMIT that a crash left behind without its Root Commit is meant never to count. On opening it does not, but `refresh` asks
  for the physically newest COMMIT. It publishes one that was left behind exactly if nothing was committed since the file was
  opened and the newest COMMIT is not the published one (`RuntimeRoots.RefreshNames`, `RuntimeRoots.RootCommitNames`), as after
  making a directory that exists. In the run of `RuntimeRoots.OrphanBecomesAuthoritative` the reopened file means the first
  COMMIT, and after such a refresh the second, which no Root Commit before the crash named. It is a run of an object store
  (`StoreRecords.OrphanInStoreRun`).
- A rename inside a PigFS transaction may nest a directory in itself and lose its parent: "a" to "a/b"
  (`PigTree.SelfNestingLosesParent`, `PigTree.TxRenameKeepsTree`). So may the overlay's (`OverlayTree.WebSelfNesting`,
  `OverlayTree.WebRenameKeepsTree`).
- A write checks neither that its ancestors are directories nor that its target is not a filled one
  (`PigTree.WriteKeepsTree`, `PigTree.WritingOverDirectoryBreaksTree`).
- A transaction remembers the chunks of what it writes by path. It can be built exactly if every path written is an entry at
  the end, and then publishes what its operations mean exactly if what is remembered for each file is its own data
  (`PigTransactions.TransactionMeans`, `PigTxStore.PrepareTransaction`). Writing "a" and renaming it to "b" cannot be built
  (`PigTransactions.MovedWriteIsRefused`). Writing "a" again after that is built, and "b" has lost its data without an error
  (`PigTransactions.MovedWriteIsLost`): the store publishes it with its size and without map pages, and reading it gives nothing
  (`PigTxStore.LostOnStore`, `PigPages.ReadRange`). Removing "a" and writing it again is right (`PigTransactions.RewrittenIsRight`).
- A correct declaration of changes is compared in locale order with one in code unit order, and passes exactly when the two
  agree (`PigHistory.DeclarationPasses`). A correct, authorized commit that retitles "a-b" and "a_b" is refused exactly if the
  locale puts "a_b" first (`PigCommits.LocaleRefusesCommit`). So a history verified on one machine verifies on another exactly if
  the locale there orders the realms of each commit as code units do (`PigHistory.ChainElsewhere`). Histories of commits that
  change one realm each always do, and every operation of the store but a bare `commitRoot` keeps them so
  (`PigStore.PigFsStore.VerifiedElsewhere`).
- Revoking never takes reading away: over any grants and revocations the readers only grow and every key wrap stays
  (`PigSharing.SharingNeverTakesReading`). Only a rekeying ends it.
- An unclaimed personal realm is meant to change its policy only by being claimed. Validation looks at the kind of the realm before the
  change only, so a signed commit may as well turn it into a shared realm that the signer administers. It is a claim exactly if the
  realm is still personal afterwards (`PigGovernance.ClaimMeans`, `PigGovernance.ClaimPasses`). The contents of realms that are not
  shared are not looked at (`PigGovernance.ChangesAllowedExactly`); what is in a sealed one opens only with its key.
- The mount and the quota of a shared realm are covered by neither digest, so a commit that changes nothing else passes
  unsigned (`PigCommits.NothingSeen`, `PigCommits.UnseenPasses`, `PigCommits.UnsignedRemount`).
- A root admin who may not write a sealed realm passes the first check of rekeying. The last one refuses the new root exactly
  if the realm is not empty (`PigStore.PigFsStore.Rekey`, `PigSharing.AdministeredChangeExact`, `PigSharing.RootAdminRekeys`).
- An import adds a child without advancing the relationship revision of its parent, so a transaction that has read that
  revision does not notice; a promotion is noticed (`StoreInvariants.ImportIsNotSeen`).
- The record limit is enforced by the page splitter only for the first item; later oversized items fail when they are
  written (`JsonPages.SplitJsonItems`, `PigBuild.WriteMap`).
- A name in a ZIP archive comes back exactly if it does not begin with a byte order mark: the mark and "a" comes back as "a",
  and the mark alone makes the archive unreadable (`Zip.RereadExactly`, `Zip.ParseArchive`, `Zip.MarkIsLost`).
- The ZIP writer accepts archives that the reader takes for ZIP64: with 65535 entries, or with 4294967295 bytes of local parts or
  of directory. What is written is read exactly if it has none of these and every entry can be reread (`Zip.ParseArchive`);
  65535 empty files are written and not read (`ZipEdit.ManyFilesAreUnreadable`).
- A ZIP replacement under another spelling of an existing name is dropped without an error (`ZipEdit.LeadingSlashIsIgnored`),
  and a new name in two spellings is written twice (`ZipEdit.TwoSpellingsAreTwoEntries`). Replacements act under their
  names, whatever their contents, exactly if no two keys say one name, unless both remove it, and every name that is there is
  spelled as it is there (`ZipEdit.EditsAct`).
- Giving up a write of the overlay deletes what is stored under its id even when it was committed. Files stay exactly if none
  that is not empty holds the id (`OverlayTree.AbortKeepsFiles`).
- The lazy PNG reader accepts trailing bytes that extraction refuses (`PngSource.ReadersAgree`).

## Model

| member | source | states |
|---|---|---|
| Records.FieldsRoundTrip | packages/format/src/pig-fs-records.js:38-63 | The fields of a header or trailer read back exactly as written, for every safe integer and 16-bit type; what follows them is untouched. |
| Records.ParsedIsJoined | packages/format/src/pig-fs-records.js:65-88 | Nothing else parses: bytes with the right magic and version are the encoding of the fields they yield. |
| Records.HeldTrailer | packages/format/src/pig-fs-records.js:65-88 | A record in the log shows its trailer, at the place that the trailer itself names, to every search from at or below the record. |
| Records.ParseTrailerExactly | packages/format/src/pig-fs-records.js:65-88 | Bytes are a trailer at a place exactly if they encode one that names this place and keeps to the limits. |
| Records.EncodedLayout | packages/format/src/pig-fs-records.js:38-63 | The bytes of a record, field by field: header with type, payload length, previous offset and sequence, payload, and a trailer with type, own offset, previous offset, payload length and the digest of the payload. |
| Records.ReadIffHolds | packages/format/src/pig-fs-records.js:90-112 | Reading at an offset gives a record exactly when that whole valid record, digest included, lies there byte for byte. |
| Records.FindTrailerBefore | packages/format/src/pig-fs-records.js:123-139 | The search in 1 MiB windows with 63 bytes of overlap returns the trailer that testing every byte position returns, on every log and from every end. |
| Records.LastTrailerIsLast | packages/format/src/pig-fs-records.js:123-139 | The trailer found is self-locating and no self-locating trailer ends between it and the end of the search. |
| Records.LocateLatestRecord | packages/format/src/pig-fs-records.js:114-155 | The walk over adjacent trailers with fallback scans finds what a full search at every step finds. |
| Framing.LocateFindsNewest | packages/format/src/pig-fs-records.js:114-155 | On a framed log (record trailers with no stray self-locating trailer in the gaps) the newest record of a wanted type is found, whatever the payloads hold. |
| Framing.ContiguousIsFramed | packages/format/src/pig-fs-records.js:114-155 | An arena of records without gaps is framed, with no condition on its payloads. |
| Framing.ScanForCommit | packages/format/src/pig-fs-records.js:162-175 | The byte-wise scan of a buffer returns the highest self-locating COMMIT trailer. |
| Framing.BufferReadsExactly | packages/format/src/pig-fs-records.js:162-188 | The buffer decoder loads a root exactly from the place that this trailer names, if a COMMIT header lies there and the bytes behind it, as many as it says, decode; it asks for no digest. |
| Framing.LoadLatestExactly | packages/format/src/pig-fs-records.js:157-201 | The locator loads a root exactly from a whole COMMIT record, digest included, at the place that the search found. |
| Framing.BufferAgreesWithLocator | packages/format/src/pig-fs-records.js:162-188 | The buffer decoder and the record locator load the same PigFS root when the newest COMMIT is intact and every self-locating COMMIT trailer belongs to a record. |
| Recovery.LoadLatestWurstObjectRoot | packages/format/src/wurst-object-store.js:237-266 | The loop that cuts the log below each rejected candidate computes the recovery function, on any bytes. |
| Recovery.RootAtExactly | packages/format/src/wurst-object-store.js:250-259 | A root is read exactly where a whole record lies whose payload parses, has the format of the store, and has both its state hash and its commit hash right. |
| Recovery.RecoveredIsVerified | packages/format/src/wurst-object-store.js:237-266 | On any bytes: whatever recovery returns lies in the arena as a whole record and has passed all these checks. |
| Recovery.RecoverySkipsOnlyCorrupt | packages/format/src/wurst-object-store.js:237-266 | Recovery stops at a readable Root Commit and every later trailer that it passed over is not an intact Root Commit; it finds none only if none is intact. |
| Arena.LocalArena.AppendRecord | packages/format/src/local-wurst-arena.js:26-43 | An append succeeds exactly for a valid record that the file takes whole, however it accepts the bytes, and then writes that record at the tail and moves the tail behind it. Otherwise the tail stays, behind it lies what the file took, and of a record that is not valid nothing. |
| Arena.StepKeepsInv | packages/format/src/local-wurst-arena.js:12-60 | Append, failed write, sync, and crash with reopening all keep the records framed, ordered and readable; records of the last sync stay. |
| Arena.CrashKeepsInv | packages/format/src/local-wurst-arena.js:12-24 | After a crash that keeps the durable bytes, some more bytes and a torn fragment, and reopening at the file size, the surviving records are a prefix that contains everything synced. |
| Arena.CrashLeaves | packages/format/src/local-wurst-arena.js:12-37 | A crash may leave any number of bytes beyond the durable ones and any garbage behind them; of the records exactly those survive that lie whole in what was kept. |
| Arena.RecoveryIsNewest | packages/format/src/wurst-object-store.js:237-266 | Recovery of a reopened file returns the newest Root Commit that is wholly present and valid. |
| Arena.NoAcknowledgedCommitIsLost | packages/format/src/wurst-object-store.js:237-266 | Over every run of appends, syncs, crashes at any byte and reopenings, recovery returns the newest valid Root Commit, and never one older than a commit acknowledged by a sync. |
| Arena.SyncedCommitIsKept | packages/format/src/local-wurst-arena.js:45-48 | So every Root Commit that lay in the log when a sync returned stays recoverable, or a newer one does, whatever follows. |
| Arena.ReachableIsReadable | packages/format/src/wurst-object-store.js:237-266 | Every record on a chain of references from the recovered root lies before it and reads back as it was appended. |
| Arena.StepKeepsClosed | packages/format/src/wurst-object-store.js:295-337 | As long as writers refer only to records already in the log, no step leaves a dangling reference, crashes included. |
| StoreRecords.StoreIsReadable | packages/format/src/wurst-object-store.js:237-266 | For a Root Commit of the object store nothing is assumed of the writers: every chain of references from it leads to records of pages appended before it, which are part of what its root means, and each reads back as it was appended. |
| StoreRecords.PublishedIsReadable | packages/format/src/wurst-object-store.js:322-337 | This holds of the published Root Commit of a store at every moment of its life, because the whole root lies in the arena when its commit is appended. |
| RuntimeRoots.LoadsPublishedPair | packages/format/src/runtime-roots.js:6-22 | The loaded object root and PigFS root are the pair that the newest valid Root Commit published, even if newer COMMITs follow it. |
| RuntimeRoots.RecoveredPairWasPublished | packages/format/src/runtime-roots.js:6-22 | Over every crash run, the recovered pair was published together by one Root Commit of that run; a COMMIT that no Root Commit names never counts. |
| RuntimeRoots.ProtocolIsWellPublished | runtime/desktop/src/wurst-object-host-runtime.mjs:51-69 | Writers whose Root Commits carry the published head along, or come from a refresh and name the physically newest COMMIT, always publish on top of what they name, across crashes and reopenings. |
| RuntimeRoots.RefreshNames | runtime/desktop/src/wurst-object-host-runtime.mjs:51-69 | A refresh names a COMMIT that lay in the log at the last opening and is not the published one exactly if nothing was committed since and the newest COMMIT is not the published one; otherwise it names the published head or a COMMIT made since. |
| RuntimeRoots.RootCommitNames | packages/format/src/index.js:1774-1779 | At every Root Commit of every run the same holds: only a refresh in such a state publishes a COMMIT that was left behind. |
| RuntimeRoots.OrphanBecomesAuthoritative | runtime/desktop/src/wurst-object-host-runtime.mjs:51-69 | It does happen: COMMIT, Root Commit, COMMIT, crash, and a refresh; the file means the first COMMIT when reopened and the second after the refresh, though no Root Commit before the crash named it. |
| RuntimeRoots.ProtocolLoadsPublishedPair | packages/format/src/runtime-roots.js:6-22 | So over every run of such writers the loaded pair is one that was published together. Its PigFS root is a COMMIT that was left behind at the last opening exactly if a refresh published it in a stale state; otherwise it is one published before or committed since that opening. |
| StoreRecords.RecordsFind | packages/format/src/wurst-object-store.js:115-126 | Walking the records of the object table from its root page finds what the table holds for the id. |
| StoreRecords.HostIsTheStores | packages/format/src/runtime-roots.js:6-15 | The host that a reader of the file finds for a root of the store is its root object, with the state head that the store means. |
| StoreRecords.PublishedHost | packages/format/src/runtime-roots.js:6-15 | So it is for the published root of a store at every moment. |
| StoreRecords.StoreRunIsProtocol | runtime/desktop/src/wurst-object-host-runtime.mjs:51-69 | Every run whose Root Commits are those of a store, with the published head or the newest COMMIT as state head of the root object, is a run of the protocol. |
| StoreRecords.StoreRunLoads | packages/format/src/runtime-roots.js:6-22 | Over every such run, crashes included, a reopened file gives a root that was published and the PigFS root that its root object, in what the store meant, names. |
| StoreRecords.OrphanInStoreRun | runtime/desktop/src/wurst-object-host-runtime.mjs:51-69 | The run in which a COMMIT left behind becomes authoritative is such a run. |
| RuntimeRoots.LoadsPhysicalLatest | packages/format/src/runtime-roots.js:6-22 | Without a Root Commit, for a host that its object table does not list, and whenever the physical tail is asked for, the newest whole COMMIT counts and an undecodable one is an error. Asking for the tail leaves the object root as it is, and a malformed table is an error either way. |
| SortedEntries.EditsRefineMap | packages/format/src/wurst-object-store.js:86-235 | Any sequence of sets and removals gives the strictly key-ordered listing of the map so built. |
| SortedEntries.ListingIsUnique | packages/format/src/wurst-object-store.js:145-152 | A map has only one such listing. |
| SortedEntries.FloorIsGreatest | packages/format/src/wurst-object-store.js:127-144 | A floor is the entry with the greatest key not above the given one, and is missing only if all keys are above it. |
| SortedEntries.WithinMember | packages/format/src/wurst-object-store.js:153-181 | A range holds exactly the entries with keys inside its bounds. |
| SortedEntries.WithinSorted | packages/format/src/wurst-object-store.js:153-181 | A range is in key order. |
| CowIndex.PersistentCowIndex.Get | packages/format/src/wurst-object-store.js:115-126 | Lookup through pages returns what the listing of the root holds. |
| CowIndex.PersistentCowIndex.FloorOf | packages/format/src/wurst-object-store.js:127-144 | Floor through pages, backing up over children that begin above the key, is the floor of the listing. |
| CowIndex.PersistentCowIndex.Range | packages/format/src/wurst-object-store.js:153-182 | A pruned range read with a limit is the first so many entries of the range of the listing. |
| CowIndex.PersistentCowIndex.EntriesIn | packages/format/src/wurst-object-store.js:145-152 | The traversal returns the whole listing. |
| CowIndex.PersistentCowIndex.Set | packages/format/src/wurst-object-store.js:183-216 | A set returns a well-formed root, splits included, whose listing is the old one with the key put in place; old pages stay as they are. |
| CowIndex.PersistentCowIndex.Remove | packages/format/src/wurst-object-store.js:217-234 | A removal, with emptied pages dropped and single-child branches collapsed, returns a root whose listing is the old one without the key. |
| CowIndex.Persistent | packages/format/src/wurst-object-store.js:103-110 | Appending pages never changes what an existing root means: every old root still denotes its old map. |
| CowIndex.PointerBounds | packages/format/src/wurst-object-store.js:103-110 | The first key, last key and count in every pointer are those of the entries below it. |
| CowIndex.LevelIsHeight | packages/format/src/wurst-object-store.js:103-110 | The level in a pointer is the length of the longest way down from its page. |
| ObjectTypes.ExtentKeyOrder | packages/format/src/wurst-object-store.js:40 | The string order of zero-padded extent keys is the numeric order of offsets for every safe offset, and the keys are unique. |
| Extents.SelectionTiles | packages/format/src/wurst-object-store.js:604-614 | The floor entry and the key range together tile an interval that covers the requested one. |
| Extents.ReadExtentRange | packages/format/src/wurst-object-store.js:604-630 | Reading inside an address space tiled by extents returns exactly the requested slice. |
| Extents.AppendData | packages/format/src/wurst-object-store.js:467-477 | Appended data becomes records and extents that tile it without a hole or overlap, and earlier pages stay. |
| Extents.SetExtents | packages/format/src/wurst-object-store.js:769-770 | Adding extents that follow a tiling extends it: earlier bytes stay where they were. |
| Extents.CopySourceToExtents | packages/format/src/wurst-object-store.js:478-493 | Copied extents tile exactly the copied range of the source. |
| StoreInvariants.AppendExtendsContents | packages/format/src/wurst-object-store.js:765-773 | A committed append leaves the object presenting its old bytes followed by the new ones, and every other object as it was. |
| ObjectEffects.AppendMeans | packages/format/src/wurst-object-store.js:765-773 | A committed append adds its bytes, its length and one state revision; state hash and head are those announced, or stay where none is; no other object, edge or base changes. |
| ObjectEffects.UpgradeMeans | packages/format/src/wurst-object-store.js:780-785 | An upgrade leaves the new base alone: package, base and publisher are the given ones, own contents, state hash and head are gone, the state revision is one more, and all relations stay. |
| ObjectStore.WurstObjectStore.ReadObjectBytes | packages/format/src/wurst-object-store.js:631-668 | A read of an object returns the slice of its base followed by all committed appends, and nothing for the host, an unknown id or a range beyond the virtual size. |
| Forest.RelationKeyInjective | packages/format/src/wurst-object-store.js:41 | A relationship key determines both ids, because ids hold no NUL. |
| Forest.ChildInterval | packages/format/src/wurst-object-store.js:407-419 | Between the parent followed by U+0000 and by U+0001 lie exactly the relation keys of that parent, not those of ids that begin with it. |
| Forest.NoCycleExact | packages/format/src/wurst-object-store.js:817-828 | The cycle check passes exactly when the child is not an ancestor of the new parent and the new parent is less than the maximal depth deep. |
| Forest.GroupKeepsForest | packages/format/src/wurst-object-store.js:790-865 | Over any group of transactions both indexes hold the same relation among existing objects, every child has one parent, the root has none, and there is no cycle. |
| ObjectStore.WurstObjectStore.ApplyDetach | packages/format/src/wurst-object-store.js:829-845 | Detaching on pages is detaching in the world: authority, both indexes and both revisions. |
| ObjectStore.WurstObjectStore.ApplyReparent | packages/format/src/wurst-object-store.js:846-865 | Reparenting on pages is reparenting in the world, with the same errors; it need not bound depth or keep locators unique. |
| ObjectEffects.ReparentMeans | packages/format/src/wurst-object-store.js:846-865 | After a reparent the child hangs from exactly the requested parent, with the requested locator or, if none was asked for, the one it had. Every other child keeps its edge, in both indexes. Only the child, its old and its new parent change, and those only in how often their relations changed. |
| ObjectEffects.DetachMeans | packages/format/src/wurst-object-store.js:829-845 | After a detach the child has no parent and every other edge stays; the child and its old parent have each changed their relations once, and nothing else changed. |
| ObjectEffects.SucceedsExactly | packages/format/src/wurst-object-store.js:755-865 | An operation succeeds exactly if its objects are there, its actor may act on each of them in the dimension concerned, an append finds the size it expects, and a new edge makes no cycle and hangs low enough. |
| ObjectEffects.FailsAs | packages/format/src/wurst-object-store.js:755-865 | Which error it is otherwise: no such object, no right, a conflicting size, or an edge that cannot be. |
| ObjectEffects.AllowedMeans | packages/format/src/wurst-object-store.js:42-466 | A rule lets an actor act exactly if it is open or names that actor; nobody is never named. |
| ObjectStore.WurstObjectStore.DirectChildren | packages/format/src/wurst-object-store.js:407-419 | The interval scan lists every relation of one parent once and nothing else. |
| BreadthFirst.BfsEnd | packages/format/src/wurst-object-store.js:424-437 | When the queue is empty the visited ids are distinct and are exactly the descendants of the root. |
| BreadthFirst.HeadIsNew | packages/format/src/wurst-object-store.js:424-437 | The cycle error of the search can never be thrown on a consistent store. |
| ObjectStore.WurstObjectStore.ReachableObjectIds | packages/format/src/wurst-object-store.js:424-437 | The search lists every reachable id once, and fails exactly if some object lies deeper than the limit; its cycle error cannot occur. |
| Subtrees.Siblings | packages/format/src/wurst-object-store.js:438-461 | In a forest two children of one parent have no descendant in common, so a depth-first walk meets nothing twice. |
| ObjectStore.WurstObjectStore.Walk | packages/format/src/wurst-object-store.js:443-459 | The walk lists exactly the members of a subtree, and fails exactly when the subtree is too deep. |
| ObjectStore.WurstObjectStore.VerifyGraph | packages/format/src/wurst-object-store.js:438-461 | On a valid store the deep verification passes exactly when no object lies deeper than the limit. |
| Transactions.GroupIsSerial | packages/format/src/wurst-object-store.js:790-815 | A published group equals applying exactly its accepted transactions one after another; rejected ones leave no trace. |
| Transactions.SerialMeetsDependencies | packages/format/src/wurst-object-store.js:755-762 | Each accepted transaction was applied to a world in which every revision that it recorded was current. |
| ObjectEffects.FreshApplies | packages/format/src/wurst-object-store.js:755-762 | A transaction conflicts as soon as one recorded state revision, relationship revision or package is not current; when all are, it ends as its operations do. |
| ObjectEffects.OpsInOrder | packages/format/src/wurst-object-store.js:763-788 | The operations of a transaction act one after another, the first failure ends it. |
| StoreEffects.ReadIsRecorded | packages/format/src/wurst-object-store.js:742-753 | A read records the current value in every dimension asked for; what was recorded in the others and of other objects stays. |
| StoreEffects.GroupGrows | packages/format/src/wurst-object-store.js:790-815 | A further transaction of a group acts on top of the accepted ones, and is accepted exactly if it succeeds there. |
| Transactions.GroupFollows | packages/format/src/wurst-object-store.js:755-815 | Over any group revisions only grow, and an object with an unchanged revision still has the state, the edge and the children that a reader saw. |
| Transactions.OverlappingAppendsConflict | packages/format/src/wurst-object-store.js:759-789 | Of two appends to one object begun before either committed, once one is accepted the other conflicts in every world in which the state revision of that object has not gone back. |
| StoreInvariants.OverlapsForever | packages/format/src/wurst-object-store.js:759-815 | It conflicts after any run of groups, promotions, imports and host state syncs. |
| StoreInvariants.RunFollows | packages/format/src/wurst-object-store.js:371-620 | Over any such run the whole invariant is kept, mounted objects stay, and their state revisions only grow, an equal one meaning an equal state. |
| StoreInvariants.ImportIsNotSeen | packages/format/src/wurst-object-store.js:508-592 | A transaction that recorded the relationship revision of an object conflicts after a promotion below it and still passes after an import below it. |
| Transactions.AtMostOneAppendPerGroup | packages/format/src/wurst-object-store.js:790-815 | Of overlapping appends to one object in one group at most one is accepted. |
| Transactions.TornBeginNeverCommits | packages/format/src/wurst-object-store.js:669-680 | A handle whose two reads saw different revisions, because a commit came in between, never commits. |
| StoreInvariants.GroupKeepsSound | packages/format/src/wurst-object-store.js:790-815 | Any group keeps the whole invariant: forest, one host, bases under their hashes, address spaces without a hole. |
| ObjectStore.WurstObjectStore.ApplyTransaction | packages/format/src/wurst-object-store.js:759-789 | One transaction on pages is the transaction in the world, or its error; a failure half way leaves the meaning of the candidate as it was. |
| ObjectStore.WurstObjectStore.CommitTransactions | packages/format/src/wurst-object-store.js:790-815 | One candidate and at most one Root Commit publish the group of the known transactions; every verdict is the serial one, and the records of all listed transactions go. |
| ObjectStore.WurstObjectStore.CommitRoot | packages/format/src/wurst-object-store.js:322-337 | One Root Commit record makes the candidate the published world, with the next generation and the previous commit linked. |
| ObjectStore.WurstObjectStore.SyncHostState | packages/format/src/wurst-object-store.js:371-390 | Only the host state fields change, under the state authority of the host, and the generation grows by one. |
| ObjectEffects.SyncMeans | packages/format/src/wurst-object-store.js:371-390 | A host state sync sets hash and head as given, revision and size where given, and nothing else; it needs the right to the state of the host. |
| ObjectStore.WurstObjectStore.Promote | packages/format/src/wurst-object-store.js:508-559 | Promotion adds a child that presents exactly its source, under its parent, which is touched; a taken locator returns the child that holds it, and every refusal leaves the store as it was. |
| ObjectStore.WurstObjectStore.ImportObjectSnapshot | packages/format/src/wurst-object-store.js:560-592 | An import succeeds exactly for a new non-host id under an existing parent with matching base, keeps the revisions of the snapshot and does not touch the parent. |
| ObjectEffects.PromotionMeans | packages/format/src/wurst-object-store.js:508-558 | A promotion adds one object and its edge, and its base if that is new; the relations of the parent have changed once, and nothing else changed. |
| ObjectEffects.ImportMeans | packages/format/src/wurst-object-store.js:560-592 | An import adds the same and leaves every object that was there as it was, the parent included. |
| StoreEffects.PromotedObjectIs | packages/format/src/wurst-object-store.js:531-556 | The promoted object is mounted, presents exactly its source, carries what was given, and begins with one change of its relations. |
| StoreEffects.ImportedObjectIs | packages/format/src/wurst-object-store.js:571-578 | The imported object presents exactly its source and is otherwise the snapshot, both revisions included. |
| StoreInvariants.PromoteKeepsSound | packages/format/src/wurst-object-store.js:508-559 | After a promotion the invariant holds and the new object presents base and tail of its source. |
| StoreInvariants.ImportKeepsSound | packages/format/src/wurst-object-store.js:560-592 | The same after an import. |
| ObjectAppend.EncodedCommitHash | packages/format/src/wurst-object-store.js:695-706 | A record appended verbatim is recognized as a state head exactly when it is a COMMIT. |
| ObjectAppend.CommitHashExactly | packages/format/src/wurst-object-store.js:691-705 | Of any bytes, those are taken for a COMMIT that begin with "W7RC", are of its type and hold a payload of just the length that the header says, if that decodes. |
| ObjectAppend.BeginObjectAppend | packages/format/src/wurst-object-store.js:669-683 | A handle pairs the size and revision of the record it read with the revision current when its transaction opened, and opens only for an existing non-host object that the actor may write. |
| ObjectAppend.ObjectAppend.Append | packages/format/src/wurst-object-store.js:688-717 | An append is refused once prepared, and otherwise the handle has grown by exactly the bytes, with the state head at the last COMMIT. |
| ObjectAppend.ObjectAppend.Commit | packages/format/src/wurst-object-store.js:718-731 | A commit publishes the object with everything appended exactly when both recorded revisions, the authority and the size still hold; otherwise the world stays. |
| ObjectAppend.CommitAppendIsTx | packages/format/src/wurst-object-store.js:669-735 | Committing one handle is one transaction of the store. |
| Compaction.CopyLiveObjects | packages/format/src/wurst-object-compaction.js:7-51 | The copy into a fresh arena mirrors exactly the reachable objects under their own ids, and is refused exactly when it is deeper than the target allows. |
| Compaction.CompactionKeepsGraph | packages/format/src/wurst-object-compaction.js:7-51 | After compaction the objects are exactly the reachable ones, each with the same record, relation and contents. |
| Compaction.MaterializeSubtree | packages/format/src/wurst-object-store.js:911-973 | The new store mirrors exactly the subtree under an injective id map, the identity when identities are preserved, whatever the ids supplied; a copy takes one fresh id per object of the source at most. Too deep a subtree or a host is refused. |
| Compaction.MirrorContents | packages/format/src/wurst-object-store.js:911-973 | Every copied object presents the bytes of its original. |
| Compaction.MirrorFields | packages/format/src/wurst-object-store.js:560-592 | Field by field a copy carries what its original does, revisions, state and package included, and hangs from the copy of its parent under the same locator. |
| Compaction.MirrorChildren | packages/format/src/wurst-object-store.js:911-973 | One copied object is the parent of another exactly when their originals are. |
| Compaction.MirrorNoDeeper | packages/format/src/wurst-object-store.js:911-973 | The copy is exactly as deep as the subtree. |
| Compaction.NewIds | packages/format/src/wurst-object-store.js:930 | The id map gives every member one id: a new one for a copy, its own for a move. |
| Compaction.FreshIdsExist | packages/format/src/wurst-object-store.js:930 | There are fresh ids for any store with up to 10^36 objects, of the length of a UUID already. |
| PigTree.WriteKeepsTree | packages/format/src/pig-fs.js:829-846 | A write keeps every ancestor present and a directory exactly when it meets only directories and replaces nothing that has entries below. |
| PigTree.WriteFrame | packages/format/src/pig-fs.js:1387-1408 | After a write the path holds a file with the given contents, size and type, marked with the actor and the generation: the old object one revision on, or a new one at its first revision. Every other entry stays, every ancestor is there, and nothing is new but missing ones, as empty directories. |
| PigTree.MkdirKeepsTree | packages/format/src/pig-fs.js:1421-1445 | Making a directory keeps the tree exactly when everything that exists above it is a directory. |
| PigTree.RemoveKeepsTree | packages/format/src/pig-fs.js:1447-1467 | Removing keeps the tree and takes exactly the target and what lies below it. |
| PigTree.RenameKeepsTree | packages/format/src/pig-fs.js:1469-1514 | A rename keeps the tree exactly when it meets only directories on the way to its target. |
| PigTree.RenameIsBijection | packages/format/src/pig-fs.js:1469-1514 | A rename moves the whole subtree one to one. Every moved entry keeps its object id, kind, size, type and contents, is one revision on and carries the actor and the generation of the commit. Everything else stays as it was, and nothing is new but missing parents. |
| TreeEffects.RenameMeans | packages/format/src/pig-fs.js:1469-1514 | A rename does nothing for one path or a missing entry, is refused into itself or onto an entry, and otherwise moves the entry and all below it in this way, path by path. |
| TreeEffects.TxRenameMeans | packages/format/src/pig-fs.js:1798 | A transaction's rename does nothing for a missing entry, is refused onto an entry, and otherwise moves everything in the same way; where the plain rename succeeds, both are the same. |
| TreeEffects.MkdirMeans | packages/format/src/pig-fs.js:1421-1437 | Making a directory does nothing where one is, is refused over anything else and, without `recursive`, below a missing directory. Otherwise the path is a new empty directory, and so are missing ancestors, and nothing else is new. |
| TreeEffects.RemoveMeans | packages/format/src/pig-fs.js:1447-1461 | Removing does nothing for a missing entry and is refused, without `recursive`, for a directory that is not empty. Otherwise exactly the entry goes and, if it is a directory, all below it. |
| TreeEffects.AddDirectoryMeans | packages/format/src/pig-fs.js:1794 | A transaction makes the directory and every missing one above it, leaves what is there, and never refuses. |
| TreeEffects.DiscardMeans | packages/format/src/pig-fs.js:1796 | A transaction removes the entry and all below it, directory or not; on a tree this is what removing does. |
| PigTree.NoCollision | packages/format/src/pig-fs.js:1469-1514 | On a tree the collision error inside a rename cannot happen. |
| PigTree.RunKeepsTree | packages/format/src/pig-fs.js:1358-1514 | Any run of writes, mkdirs, removals and renames, each under its guard, keeps every ancestor present and a directory. |
| PigTree.TxRenameKeepsTree | packages/format/src/pig-fs.js:1797-1798 | The rename of a transaction keeps the tree exactly when it does not nest a directory in itself and meets only directories. |
| PigTree.SelfNestingLosesParent | packages/format/src/pig-fs.js:1797-1798 | It does not always: renaming "a" to "a/b" in a transaction leaves "a/b" without its parent. |
| PigTree.WritingOverDirectoryBreaksTree | packages/format/src/pig-fs.js:829-846 | Nor does a write: writing "a" as a file while "a/b" exists leaves "a/b" below a file. |
| PigTree.AddParents | packages/format/src/pig-fs.js:829-846 | The loop over parent paths adds exactly the missing ancestors. |
| PigTree.MoveSubtree | packages/format/src/pig-fs.js:1488-1507 | The two loops of a rename give the tree with the subtree taken out and put back under the new path, or the collision error. |
| JsonPages.SplitJsonItems | packages/format/src/pig-fs.js:564-581 | Pages keep all items in order, are greedy, and exceed the target only with a single item; the split is refused exactly when the first item alone exceeds the record limit. |
| PigPages.ReadRange | packages/format/src/pig-fs.js:764-803 | Any range of a readable file is the slice of its bytes, for any chunking, with the end clipped and an offset behind the end refused. A file without map pages reads as nothing, whatever its size says. |
| PigPages.StatEntry | packages/format/src/pig-fs.js:645-669 | Lookup finds what the full catalog holds, for any first and last hints on its pages. |
| PigPages.LoadCatalog | packages/format/src/pig-fs.js:630-637 | The loaded catalog is the listing of all its pages, a later row replacing an earlier one. |
| PigPages.LoadChunks | packages/format/src/pig-fs.js:699-708 | The chunks of a file are those of all its map pages, sorted by plain offset. |
| PigBuild.WriteMap | packages/format/src/pig-fs.js:1258-1290 | The written map pages list exactly the chunks, each sealed for its realm, generation, path and place, and writing fails exactly when the realm is locked or a chunk record is too large. |
| PigBuild.WriteRealm | packages/format/src/pig-fs.js:1258-1290 | The written catalog stands for exactly the given files, including rewritten ones; it fails exactly when something does not fit, the quota is exceeded or the realm is locked. |
| PigBuild.WriteRows | packages/format/src/pig-fs.js:1258-1290 | Whatever the entries: the written catalog lists exactly them, with map pages for the rewritten files that list exactly their new chunks, and fails exactly as above. |
| PigBuild.MapsRepresent | packages/format/src/pig-fs.js:1260-1269 | With its map pages written a catalog stands for a tree of contents exactly if the entries and the new chunks did. |
| PigBuild.StoresOnce | packages/format/src/pig-fs.js:630-637 | A catalog stands for one tree of files only. |
| PigBuild.WriteCatalog | packages/format/src/pig-fs.js:1273-1290 | Every catalog page is bound to its realm, generation and place. The entry of an unsealed page names its first and last path, that of a sealed one nothing. |
| PigBuild.ListingCounts | packages/format/src/pig-fs.js:1271-1288 | The counts of files, directories and bytes that a listing gives are those of the tree of files that it stands for. |
| PigPages.SealOpensExactly | packages/format/src/pig-fs.js:564-608 | A sealed payload opens exactly with the same key and the associated data that it was sealed with, so not in another place, file, generation or realm; one in the clear opens exactly where nothing sealed is expected. |
| PigPages.SortChunksSorts | packages/format/src/pig-fs.js:610-628 | Sorting chunks by offset loses and invents none. |
| PigMeaning.WriteRepresents | packages/format/src/pig-fs.js:1387-1413 | Writing into a catalog means writing into the files that it stands for. |
| PigMeaning.RenameRepresents | packages/format/src/pig-fs.js:1469-1514 | Renaming in a catalog means renaming the files, with the same refusals. |
| PigMeaning.RemoveRepresents | packages/format/src/pig-fs.js:1447-1467 | The same for removing. |
| PigMeaning.MkdirRepresents | packages/format/src/pig-fs.js:1421-1445 | The same for making directories. |
| PigHistory.Validate | packages/format/src/pig-fs.js:396-480 | The validation of a transition accepts exactly the valid ones, on any two roots; what these may change is said below. |
| PigHistory.InferChanges | packages/format/src/pig-fs.js:371-386 | The inferred changes are exactly the realms that differ, each once, in code unit order. |
| PigHistory.InfersOnce | packages/format/src/pig-fs.js:371-386 | Two states have only one such list. |
| PigHistory.DeclarationPasses | packages/format/src/pig-fs.js:471-478 | A correct declaration passes the comparison exactly when the locale order agrees with the code unit order on the realms that changed. |
| PigCommits.LocaleRefusesCommit | packages/format/src/pig-fs.js:471-478 | A correct and authorized commit that changes the realms "a-b" and "a_b" is refused exactly if the locale order puts "a_b" first. |
| PigCommits.NothingSeen | packages/format/src/pig-fs.js:319-386 | Authorization sees no change between two sets of realms exactly if each realm is the same but for mount, quota and the claimed mark. |
| PigCommits.UnseenPasses | packages/format/src/pig-fs.js:396-480 | Such a transition passes verification, signed or not, exactly if the realms are well-formed. |
| PigCommits.UnsignedRemount | packages/format/src/pig-fs.js:319-333 | An unsigned commit that remounts two shared realms and limits them to one byte is valid. |
| PigHistory.VerifyHistory | packages/format/src/pig-fs.js:491-546 | Verification returns an integrity chain exactly when the commits link back to a genesis and every step is valid, and then returns that chain. |
| PigHistory.ChainGenerations | packages/format/src/pig-fs.js:396-546 | The generations of a verified chain are 1 to n. |
| PigHistory.IdentitiesGrow | packages/format/src/pig-fs.js:388-394 | Identities only grow along a verified chain. |
| PigHistory.StepNeedsAuthority | packages/format/src/pig-fs.js:396-480 | Realm creation and removal need a root admin of the parent state; for a realm shared there, policy and key-wrap changes need its admin and content changes its writer, by a genuine signature on this state. |
| PigGovernance.ChangesAllowedExactly | packages/format/src/pig-fs.js:452-469 | The inferred changes pass exactly if the signer has the right to each step: realms come and go by root admins; a shared realm changes its policy by its administrators and its contents by those who may write it; an ordinary or claimed personal realm keeps its policy; an unclaimed one changes it only to be claimed. |
| PigGovernance.SettledStays | packages/format/src/pig-fs.js:396-546 | Along a verified chain an ordinary or claimed personal realm keeps title, access lists, protection and key wraps as long as it exists, whoever signs; so the owner of a claimed personal realm never changes. |
| PigGovernance.ClaimMeans | packages/format/src/pig-fs.js:464-467 | An unclaimed personal realm that changes its policy keeps its contents, and the commit is signed. Either the signer owns it afterwards, or it is a shared realm whose administrators the signer heads. |
| PigGovernance.ClaimPasses | packages/format/src/pig-fs.js:464-467 | Any identity may claim an unclaimed personal realm, and validation lets it become a shared realm just as well. |
| PigGovernance.WritingNeedsSignature | packages/format/src/pig-fs.js:396-480 | The contents of a shared realm change only by a signed commit: of an administrator or a writer, or of anyone where signing is all it takes. |
| PigGovernance.MayWriteExactly | packages/format/src/pig-fs.js:191-204 | In a well-formed realm everyone may write an ordinary one, the owner alone a personal one, and of a shared one its administrators and writers, or everyone who signs. |
| PigGovernance.OrdinaryExactly | packages/format/src/pig-fs.js:225-283 | An ordinary realm is well-formed exactly if it is plain, open to everyone, and lists nobody. |
| PigGovernance.PersonalExactly | packages/format/src/pig-fs.js:225-283 | A personal realm is sealed: unclaimed, it belongs to nobody and holds nothing; claimed, one known identity alone reads, writes and administers it, with one key wrap. |
| PigGovernance.SharedExactly | packages/format/src/pig-fs.js:225-283 | A shared realm is not open to all writers and lists known identities only; a sealed one has one key wrap for each reader and no plain page, and its writers and administrators are readers. |
| PigGovernance.SignatureFixesRoot | packages/format/src/pig-fs.js:396-432 | A signature is good for one root only: with another state, generation, parent or history it fails. |
| PigHistory.AuthorityComesFromAuthority | packages/format/src/pig-fs.js:396-546 | While none of those who administer a shared realm signs, its policy, members, wraps and admins stay: every later admin traces back to an earlier one. |
| PigHistory.ContentComesFromWriters | packages/format/src/pig-fs.js:396-546 | While neither they nor its writers sign, the contents of a member-written realm stay. |
| PigHistory.SameHashSameHistory | packages/format/src/pig-fs.js:491-546 | Two verified histories that agree in one commit hash agree in every commit before it. |
| PigHistory.CompareHistories | packages/format/src/pig-fs.js:548-562 | The comparison finds the common part exactly, and tells same, ahead, behind and fork apart. |
| PigHistory.ChainExtends | packages/format/src/pig-fs.js:491-546 | A valid successor of the head makes a longer verified chain. |
| PigHistory.ChainElsewhere | packages/format/src/pig-fs.js:471-478 | A verified chain of correct declarations verifies under another locale exactly if that orders the realms of each commit as code units do; always if no commit behind the first changed more than one. |
| PigCommits.CommitPasses | packages/format/src/pig-fs.js:1292-1336 | A commit that is built for new realms passes verification exactly when realms, authority and declaration order are acceptable: hashes, links and signatures never fail. |
| PigCommits.NextFields | packages/format/src/pig-fs.js:1292-1336 | A built commit has the realms asked for, the same root admins, the next generation, and the identities known, brought along and acting. With a shared realm it is linked to its parent, declares the changes and is signed by the actor, if there is one; otherwise it has no history and no signature. |
| PigCommits.FirstPasses | packages/format/src/pig-fs.js:919-1059 | A first root passes exactly when its realms are well-formed and, if a realm is shared and admins are named, one of them signs. |
| PigCommits.StandalonePasses | packages/format/src/pig-fs.js:1338-1356 | A standalone root passes exactly when its realms are well-formed and none is shared. |
| PigCommits.PermittedWritePasses | packages/format/src/pig-fs.js:1292-1336 | A permitted write never fails verification, whatever the locale. |
| PigSharing.GrantKeepsRealm | packages/format/src/pig-fs.js:1516-1571 | A grant keeps recipients equal to readers, and writers and admins of a sealed realm among the readers. |
| PigSharing.GrantGivesExactly | packages/format/src/pig-fs.js:1516-1571 | After a grant the target administers exactly if it did or was granted that; writes exactly if it could, was granted that, or administers; is listed as reader exactly if it was, was granted that where reading goes by membership, or needs it in a sealed realm. The rights of all others, the modes and the key wraps stay; a wrap is added exactly for a new reader of a sealed realm. |
| PigSharing.RevokeKeepsRealm | packages/format/src/pig-fs.js:1656-1686 | A revocation keeps the realm well-formed. |
| PigSharing.RevokeTakesExactly | packages/format/src/pig-fs.js:1656-1686 | A revocation takes exactly what it names, writing where it goes by membership and reading never, and leaves the others as they were; revoking write and admin closes a member-written realm to the target. |
| PigSharing.RekeyTakesExactly | packages/format/src/pig-fs.js:1601-1607 | Of those removed by a rekeying nothing that goes by membership is left, and nobody else loses anything. |
| PigSharing.SharingNeverTakesReading | packages/format/src/pig-fs.js:1516-1686 | Over any run of grants and revocations readers only grow, every key wrap stays, and every new reader was granted something. |
| PigSharing.RekeyKeepsRealm | packages/format/src/pig-fs.js:1573-1654 | A rekeyed realm is well-formed and its recipients are exactly the remaining readers. |
| PigSharing.AdministeredChangePasses | packages/format/src/pig-fs.js:452-478 | A policy change of one shared realm by one of its administrators passes verification, whatever the locale. |
| PigSharing.AdministeredChangeExact | packages/format/src/pig-fs.js:1573-1654 | An administrator's change of one shared realm passes verification exactly if it leaves the contents alone or the administrator may write them, root admins included. |
| PigSharing.RootAdminRekeys | packages/format/src/pig-fs.js:1573-1654 | For a root admin who is no member of a sealed realm, new keys pass exactly if the pages of its catalog stay as they were. |
| PigReseal.ResealAll | packages/format/src/pig-fs.js:1616-1645 | Resealing stands for the same files under the new key, for every file of the realm. |
| PigReseal.OtherKeyOpensNoCatalog | packages/format/src/pig-fs.js:610-637 | No catalog page of a realm stored under one key can be read with another. |
| PigReseal.OtherKeyOpensNoMap | packages/format/src/pig-fs.js:610-628 | Nor any map page of its files. |
| PigReseal.OtherKeyOpensNoData | packages/format/src/pig-fs.js:764-803 | Nor any data record of its chunks. |
| PigReseal.OpensOnlyWithKey | packages/format/src/pig-fs.js:610-637 | What is stored under one key opens with no other: no catalog page, and of no file any map page or data record. |
| PigVersions.EditsStamp | packages/format/src/pig-fs.js:817-827 | Every operation stamps each entry that it touches with the generation of its commit. |
| PigVersions.SameStampMeansUnchanged | packages/format/src/pig-fs.js:817-827 | Over a run of commits that stamp what they touch, an entry with the stamp that its path carried earlier was the very same entry at every commit in between. |
| PigStore.PigFsStore.BeginWrite | packages/format/src/pig-fs.js:1172-1196 | A session pins the commit it started from, and starts only with write permission in an unlocked realm; it could be committed at once. |
| PigStore.PigFsStore.WriteChunk | packages/format/src/pig-fs.js:1204-1231 | A chunk makes the session hold exactly the bytes written so far, sealed for its realm, generation, path and place; a chunk too large or a locked realm changes nothing. |
| PigStore.PigFsStore.CommitWrite | packages/format/src/pig-fs.js:1358-1419 | A commit writes exactly what the session received over the current files; an overtaken session conflicts exactly when policy or target changed, and it is too large exactly when its chunk list or the new catalog does not fit. No update is lost: a target that is replaced was this very entry, bytes included, at every commit since the session began, rekeyings included, and one that is created was absent then. Any other session that could be committed still can, unless its target was stamped. |
| PigStore.PigFsStore.NoLostUpdate | packages/format/src/pig-fs.js:1370-1386 | A session that passes the conflict check finds its target as it was when it began, at every commit since: the fingerprint of one entry stands for all its history. |
| PigStore.PigFsStore.CheckClash | packages/format/src/pig-fs.js:1370-1386 | The conflict check compares policies first and then the target as it was in the base commit and as it is now. |
| PigStore.UntouchedPrint | packages/format/src/pig-fs.js:817-827 | A commit keeps the fingerprint of every entry that it does not stamp, map pages included. |
| PigStore.MayFinishAfter | packages/format/src/pig-fs.js:1370-1386 | So a session conflicts only if its own target or the policy of its realm was changed: what is published elsewhere in the realm, or in another one, never makes it conflict. |
| PigStore.SameFingerprintExactly | packages/format/src/pig-fs.js:817-827 | Two entries have one fingerprint exactly if they agree in kind, size, revision, generation and, for files, in the places and counts of their map pages. |
| PigStore.QuotaKept | packages/format/src/pig-fs.js:1271-1272 | Of what fits otherwise, exactly that is let pass which holds no more bytes than the quota. |
| PigStore.PigFsStore.MakeDirectory | packages/format/src/pig-fs.js:1421-1445 | The realm holds what making the directory means, or the named refusal left everything as it was; it is too large exactly when the catalog of the new tree does not fit. No policy and no other realm changes, and no session begins to conflict whose target is not stamped. |
| PigStore.PigFsStore.RemovePath | packages/format/src/pig-fs.js:1447-1467 | The same for removing. |
| PigStore.PigFsStore.RenamePath | packages/format/src/pig-fs.js:1469-1514 | The same for renaming, which moves as `TreeEffects.RenameMeans` says; a path inside itself is refused first. |
| PigStore.PigFsStore.StatPath | packages/format/src/pig-fs.js:1688-1691 | Stat finds exactly the entries of the files held. |
| PigStore.PigFsStore.ReadPath | packages/format/src/pig-fs.js:1697-1700 | Read returns the slice of exactly the bytes that the file holds. |
| PigStore.PigFsStore.CommitRoot | packages/format/src/pig-fs.js:1292-1336 | A root is published exactly when it is acceptable, heads a verified chain if a realm is shared, and otherwise changes nothing. |
| PigStore.PigFsStore.VerifiedElsewhere | packages/format/src/pig-fs.js:471-546 | The chain of a store is one of correct declarations, so the same holds of it; writes, directory operations, grants, revocations, rekeyings and transactions keep it to one realm per commit. |
| PigStore.PigFsStore.PublishBuilt | packages/format/src/pig-fs.js:1258-1336 | Any edited catalog is published exactly if it fits and then listed as it is, no other realm changing; if it stands for a tree of contents, the realm holds that. |
| PigStore.PigFsStore.Initialize | packages/format/src/pig-fs.js:919-1059 | A first root is published exactly for well-formed realms with the signature that they need. |
| PigStore.PigFsStore.PublishStandaloneRoot | packages/format/src/pig-fs.js:1338-1356 | A root without history is published exactly for well-formed unshared realms, with the given generation and the same files. |
| PigStore.PigFsStore.UnlockRealm | packages/format/src/pig-fs.js:1119-1141 | The key wrap of a recipient gives the key that everything in the realm is stored under; others get nothing. |
| PigStore.PigFsStore.Grant | packages/format/src/pig-fs.js:1516-1571 | A grant is refused only for want of authority, of a member list to write to or of the key for a new reader, changes no file and no key, and gives what `PigSharing.GrantGivesExactly` says. |
| PigStore.PigFsStore.Revoke | packages/format/src/pig-fs.js:1656-1686 | A revocation changes access only; taking a reader from a sealed realm is refused. |
| PigStore.PigFsStore.Rekey | packages/format/src/pig-fs.js:1573-1654 | Rekeying changes no file, and leaves the new key as the only one that opens anything of the realm, with the remaining readers as recipients; on any failure the old key and root stay. After the first checks it fails exactly when something does not fit, or when the actor may not write and the realm is not empty. |
| PigStore.PigFsStore.InstallKey | packages/format/src/pig-fs.js:1644-1653 | The new key is in place exactly when the actor may write the realm or its contents are the same, else the old one is restored. |
| PigCompaction.CopyFile | packages/format/src/index.js:1876-1885 | The copied chunks of a file hold its bytes in the new arena, sealed payloads included. |
| PigCompaction.CompactRealm | packages/format/src/index.js:1872-1887 | A compacted realm has the same policy and stands for the same tree of files; it fails exactly when the rewritten catalog does not fit. |
| PigCompaction.CompactFiles | packages/format/src/index.js:1844-1891 | A history-free file system is compacted to the same realms, files, keys and generation. Shared history is refused; otherwise the outcome is the error of the first realm, in the order in which they are walked, that is locked or whose catalog does not fit, and success exactly if there is none. |
| PigCompaction.EndsMeans | packages/format/src/index.js:1844-1863 | So it is refused exactly for history, for a realm with secrets whose key is not given, or for one whose catalog does not fit; a personal realm that nobody has claimed needs no key. |
| FileCompaction.WriteCompactedWurstFile | packages/format/src/index.js:1842-1902 | The compacted file holds the same files and the live objects, on a host whose state head is exactly the new COMMIT; a refused PigFS leaves it without object root, with the error of the first realm that has one, and the only other refusal is a graph too deep. |
| PigTransactions.Assemble | packages/format/src/pig-fs.js:1258-1270 | The realm is built exactly if every remembered path is an entry, and then each entry gets the chunks remembered for it or keeps its pages. |
| PigTransactions.TransactionMeans | packages/format/src/pig-fs.js:1788-1803 | A transaction throws in the middle exactly when its operations do; it can be built exactly if every path written is an entry at the end, and publishes what its operations mean exactly if, besides, what is remembered for the path of each file holds the data of that file. |
| PigTransactions.SafeTransactionMeans | packages/format/src/pig-fs.js:1788-1803 | A transaction that never moves or removes what it wrote publishes exactly what its operations mean, and fails exactly when they do. |
| PigTransactions.MovedWriteIsRefused | packages/format/src/pig-fs.js:1788-1803 | Writing "a" and renaming it to "b" in one transaction cannot be built. |
| PigTransactions.MovedWriteIsLost | packages/format/src/pig-fs.js:1788-1803 | Writing "a", renaming it to "b" and writing "a" again is built, and "b" is published with its size and without its data; it is right only if "b" is empty. |
| PigTransactions.RewrittenIsRight | packages/format/src/pig-fs.js:1788-1803 | Writing "a", removing it and writing it again publishes what it means. |
| PigTxStore.PrepareTransaction | packages/format/src/pig-fs.js:1781-1800 | A transaction that any other commit overtook conflicts, whatever it touches. Otherwise it fails exactly as its requests do, has no realm to build exactly if a written path is no entry at the end, and else prepares a catalog that stands for what the requests mean exactly if what is remembered for each file is its own data. |
| PigTxStore.FinishTransaction | packages/format/src/pig-fs.js:1801-1803 | Whatever was prepared is published exactly if it fits, and listed as prepared, with the remembered chunks; no other realm changes. The realm then holds what the requests mean exactly if the prepared entries stand for that, and then the store stays valid. |
| PigTxStore.PublishedEntry | packages/format/src/pig-fs.js:1260-1269 | A published file has the chunks remembered under its path, or else the map pages that its entry had. |
| PigTxStore.LostOnStore | packages/format/src/pig-fs.js:1788-1803 | After writing "a", renaming it to "b" and writing "a" again, "b" is published with the size of the first data and no map pages, and "a" with the second data. |
| PigTxStore.StoreData | packages/format/src/pig-fs.js:1791 | The chunks of a write hold its data, 4 MiB each but for the last, sealed for their realm, generation, path and place if the realm is sealed. |
| Crc.ByteStep | packages/format/src/png-carrier.js:9-24 | Eight bit steps of a register are those of its low byte, exclusive-or the register shifted by eight: why one table entry does. |
| Crc.Crc32 | packages/format/src/png-carrier.js:19-24 | The table-driven CRC of any bytes equals the bitwise definition of section 3.4 of RFC 2083. |
| Crc.MakeTable | packages/format/src/png-carrier.js:9-17 | Every table entry is eight bit steps of its index. |
| Crc.CrcFits | packages/format/src/png-carrier.js:19-41 | The result fits the 32-bit field that it is written to. |
| Png.MadeChunk | packages/format/src/png-carrier.js:31-41 | A made chunk holds length, type, data and the checksum of type and data, is well framed, and reads back as its type and data. |
| Png.ParsePngChunks | packages/format/src/png-carrier.js:43-63 | Parsing returns where each chunk lies, and fails exactly on files that are not a chunk sequence ending with its first IEND. |
| Png.ChunksExactly | packages/format/src/png-carrier.js:43-63 | Parsing and printing chunks are inverse: exactly the printed images are accepted. |
| PngCarrier.HeaderRoundTrip | packages/format/src/png-carrier.js:65-89 | A carrier header reads back as index, count and total, whatever follows it. |
| PngCarrier.ParseHeaderExactly | packages/format/src/png-carrier.js:76-89 | Nothing else parses: a header gives an index, a count and a total exactly if magic and version are right and these fields hold them, whatever the reserved bytes hold. |
| PngCarrier.SortKeeps | packages/format/src/png-carrier.js:138 | The sort by index loses and invents no piece. |
| PngCarrier.EmbedWurstInPng | packages/format/src/png-carrier.js:91-121 | Embedding succeeds exactly for allowed chunk sizes, accepted images and counts that fit 32 bits, and returns the image with the carriers in front of its end. |
| PngCarrier.ExtractWurstFromPng | packages/format/src/png-carrier.js:123-146 | The loop over chunks computes the payload of the image, and fails when that is undefined. |
| PngCarrier.PayloadExactly | packages/format/src/png-carrier.js:123-146 | Any image, however made, carries a Wurst exactly if its carrier chunks, in any order and among any others, bring parts numbered from zero, each once, that join to it, and every one names the number of parts and the length of the whole. |
| PngCarrier.EmbedThenExtract | packages/format/src/png-carrier.js:91-146 | What comes out of embedding is an accepted PNG that carries exactly the Wurst and keeps all other chunks in order. |
| PngCarrier.EmbedAgain | packages/format/src/png-carrier.js:91-121 | Embedding again gives what embedding only the second Wurst gives: nothing of the first remains. |
| PngCarrier.PartsJoin | packages/format/src/png-carrier.js:98-108 | The parts of a Wurst, joined, are the Wurst, for every size and the empty Wurst. |
| PngSource.OpenPngWurstSource | packages/format/src/png-carrier.js:159-209 | The lazy reader opens exactly the files that serve something, and its pieces lie where the served bytes are, without a gap. |
| PngSource.ReadSource | packages/format/src/png-carrier.js:211-232 | Any range of an opened source is the slice of the served bytes; ranges outside are refused. |
| PngSource.ReadersAgree | packages/format/src/png-carrier.js:123-209 | The lazy reader serves what extraction returns on every file that extraction accepts; extraction in turn accepts exactly the served files without trailing bytes. |
| PngSource.TrailingBytesIgnored | packages/format/src/png-carrier.js:59-62 | Bytes behind the image, which extraction refuses, do not change what is served. |
| PngSource.SortLoaded | packages/format/src/png-carrier.js:199 | Sorting locations and then loading them is loading and then sorting. |
| Overlay.WurstWebFsOverlay.WriteFile | site/src/assets/wurster/wurster.js:512 | Writing a file of any size does to the visible files what a write in a plain file system does. |
| Overlay.WurstWebFsOverlay.BeginWrite | site/src/assets/wurster/wurster.js:513 | A new session changes nothing that can be seen. |
| Overlay.WurstWebFsOverlay.WriteChunk | site/src/assets/wurster/wurster.js:514 | A chunk is kept under the id of its session and stays invisible; one above 4 MiB is refused. |
| Overlay.WurstWebFsOverlay.CommitWrite | site/src/assets/wurster/wurster.js:515 | The file gets exactly what the session received, missing parents appear, and nothing else changes. |
| Overlay.WurstWebFsOverlay.AbortWrite | site/src/assets/wurster/wurster.js:516 | Whatever is stored under the id goes, open session or not: no visible file changes exactly if none that is not empty holds the id, and an open session can always be given up. |
| Overlay.WurstWebFsOverlay.RemovePath | site/src/assets/wurster/wurster.js:518 | Removing does what a plain file system does, refusals included, and leaves no stored chunk behind. |
| Overlay.WurstWebFsOverlay.MakeDirectory | site/src/assets/wurster/wurster.js:519 | Making a directory does what a plain file system does; whatever exists at the path is left alone. |
| Overlay.WurstWebFsOverlay.RenamePath | site/src/assets/wurster/wurster.js:520 | A rename moves metadata only and has the effect of a rename in a plain file system, as long as nothing lies below a free target. |
| TreeEffects.WebRenameMeans | site/src/assets/wurster/wurster.js:520 | A rename is refused for a missing entry and onto an existing one, and otherwise moves the entry and all below it, path by path, leaving everything else; a subtree into itself too. |
| TreeEffects.WebMkdirMeans | site/src/assets/wurster/wurster.js:519 | Making a directory does nothing where anything is, is refused without `recursive` below a missing directory, and otherwise adds it and its missing ancestors, and nothing else. |
| Overlay.WurstWebFsOverlay.ReadPath | site/src/assets/wurster/wurster.js:510-511 | Reading any range gives what a plain file system gives, from own chunks, through renamed base paths and from the base. |
| Overlay.WurstWebFsOverlay.Stat | site/src/assets/wurster/wurster.js:508 | An entry is found exactly when the visible files have it, with the same fields. |
| Overlay.WurstWebFsOverlay.List | site/src/assets/wurster/wurster.js:509 | The entries listed are exactly the visible files directly below the directory, with the same fields. |
| OverlayTree.RenamesLikePigFs | site/src/assets/wurster/wurster.js:520 | On a tree, a rename that does not nest a directory in itself is the rename of PigFS, so all that is proved of that one holds. |
| OverlayTree.WebRenameKeepsTree | site/src/assets/wurster/wurster.js:520 | A rename keeps the tree exactly when it does not nest a directory in itself and meets only directories. |
| OverlayTree.DropStep | site/src/assets/wurster/wurster.js:517-518 | Removing an entry with its storage keeps every other file, all its chunks, and the rule that no storage id is shared and no chunk left over. |
| OverlayTree.MoveStep | site/src/assets/wurster/wurster.js:520 | Moving an entry with its source to a free path keeps the same. |
| OverlayTree.PublishStep | site/src/assets/wurster/wurster.js:515 | Publishing a session and deleting the storage it replaces keeps the same. |
| OverlayTree.ChunkStep | site/src/assets/wurster/wurster.js:514 | A further chunk of a session keeps the same and changes no file. |
| OverlayTree.AbortKeepsFiles | site/src/assets/wurster/wurster.js:516 | Deleting the storage under an id leaves all files as they are exactly if no live file that is not empty holds it. |
| OverlayTree.AbortExactly | site/src/assets/wurster/wurster.js:516 | It keeps the storage rules exactly if no live file that has a chunk holds it. |
| OverlayTree.ListedIsChild | site/src/assets/wurster/wurster.js:509 | For a valid path, being listed in a directory is having it as parent. |
| OverlayTree.WebRunKeepsTree | site/src/assets/wurster/wurster.js:512-520 | Any run of operations that meet only directories, replace no filled one and nest nothing in itself keeps the tree, and then nothing lies below a free path. |
| OverlayTree.WebSelfNesting | site/src/assets/wurster/wurster.js:520 | Renaming "a" to "a/b" leaves "a/b" without its parent. |
| OverlayTree.NothingChanged | site/src/assets/wurster/wurster.js:494-506 | An untouched overlay means the base. |
| Zip.FindEocd | tools/wurster-lab-wurst/src/workspace-zip.js:21-28 | The backward scan finds the last end record within reach of a comment, and fails only if there is none. |
| Zip.ParseZip | tools/wurster-lab-wurst/src/workspace-zip.js:30-84 | Reading returns what the end record, the directory and the local headers say, and fails exactly when they say nothing valid; `Zip.EntryAt` and `Zip.AnyArchive` say what that is for archives of any writer. |
| Zip.SafePathIsNormal | tools/wurster-lab-wurst/src/workspace-zip.js:15-19 | A normalized name is not changed again and is no longer than the raw one. |
| Zip.EntryAt | tools/wurster-lab-wurst/src/workspace-zip.js:46-82 | An entry of any writer, with a name and extra fields of any length in either header, a comment, and a local header that need not agree with the central one: exactly its data is read, under its decoded and safe name, and the next entry is sought behind the comment. |
| Zip.ParsedEntryIsLaid | tools/wurster-lab-wurst/src/workspace-zip.js:46-82 | Nothing else is read: an entry read inside the file is a central header whose fields are read as they are, with a local header and the data where it says. |
| Zip.AnyArchive | tools/wurster-lab-wurst/src/workspace-zip.js:21-84 | An archive of any writer, with local parts anywhere and in any order, and a comment in which no end record shows, is read as its entries in the order of the directory, exactly if it is not taken for ZIP64 and every entry can be read. |
| Zip.LocalFields | tools/wurster-lab-wurst/src/workspace-zip.js:111-127 | The fields of a written local header are where section 4.3.7 of PKWARE APPNOTE.TXT puts them. |
| Zip.FrontFields | tools/wurster-lab-wurst/src/workspace-zip.js:129-151 | So are those of a central header (section 4.3.12), in its first 20 bytes. |
| Zip.BackFields | tools/wurster-lab-wurst/src/workspace-zip.js:129-151 | And in the next 26. |
| Zip.OwnHeaders | tools/wurster-lab-wurst/src/workspace-zip.js:111-151 | The two headers that the writer gives an entry agree with each other and hold its fields, with no extra field, no comment and no data descriptor, and with the name marked as UTF-8. |
| Zip.SafePathMeans | tools/wurster-lab-wurst/src/workspace-zip.js:15-19 | A name is refused exactly if it is nothing but slashes or has a segment "." or "..", slashes of either kind separating; otherwise it is the path without leading slashes and with plain ones. |
| Zip.Utf8Exactly | tools/wurster-lab-wurst/src/workspace-zip.js:2-63 | A raw name decodes exactly if it encodes some text, one code point after the other, none of them a surrogate (section 3 of RFC 3629). |
| Zip.ParseArchive | tools/wurster-lab-wurst/src/workspace-zip.js:30-200 | What the writer writes is read as its entries, reread, in order, whatever bytes they hold (sections 4.3.7, 4.3.12 and 4.3.16 of PKWARE APPNOTE.TXT): exactly if it is not taken for ZIP64 and every entry can be reread. All come back as written exactly if, besides, no name begins with a byte order mark. |
| Zip.RereadExactly | tools/wurster-lab-wurst/src/workspace-zip.js:2-19 | An entry comes back under its own name exactly if that does not begin with a byte order mark. |
| Zip.NameIsUtf8 | tools/wurster-lab-wurst/src/workspace-zip.js:2-63 | What a decoded name becomes is well-formed UTF-8 again, so that writing and decoding it never throws (section 4 of RFC 3629). |
| Zip.MarkIsLost | tools/wurster-lab-wurst/src/workspace-zip.js:2-63 | The mark and "a" is a name that comes back as "a"; the mark alone is a name that makes the archive unreadable. |
| ZipEdit.WriteZip | tools/wurster-lab-wurst/src/workspace-zip.js:153-200 | Writing lays out the chosen entries and is refused exactly beyond 65535 entries, 4 GiB of local parts or on an unsafe name. |
| ZipEdit.StoredFields | tools/wurster-lab-wurst/src/workspace-zip.js:160-174 | New contents are stored as they are: method 0, both sizes their length, the checksum of the bytes, and a name marked as UTF-8. |
| ZipEdit.NewArchive | tools/wurster-lab-wurst/src/workspace-zip.js:153-200 | A new archive is read as exactly the names and bytes that it was made of, in order, if and only if it is not taken for ZIP64 and no name begins with a byte order mark. |
| ZipEdit.ManyFilesAreUnreadable | tools/wurster-lab-wurst/src/workspace-zip.js:30-44 | 65535 empty files with distinct names are within the limits of the writer, and the archive is not read. |
| ZipEdit.EditNamed | tools/wurster-lab-wurst/src/workspace-zip.js:153-174 | However keys are spelled: under a name that is there, the first entry is replaced or goes exactly by the key spelled like it; under a new name there is one entry for every spelling with contents; an unsafe key is the only failure. |
| ZipEdit.EditsAct | tools/wurster-lab-wurst/src/workspace-zip.js:153-174 | Every replacement takes effect under its name, whatever the contents, exactly if no two keys say one name, unless both remove it, and every name that is there is spelled by a key as it is there. |
| ZipEdit.EditFind | tools/wurster-lab-wurst/src/workspace-zip.js:153-174 | With keys that are normalized names, after an edit every name has its replacement, its old entry or nothing, exactly as asked. |
| ZipEdit.EditOrder | tools/wurster-lab-wurst/src/workspace-zip.js:153-174 | Entries that no key names, in any spelling, come out unchanged and in their order; of several under one name only the first comes out. |
| ZipEdit.EditedArchive | tools/wurster-lab-wurst/src/workspace-zip.js:30-200 | An archive that was read, edited and written is read again as the edited entries, exactly as written if and only if it is not taken for ZIP64 and no name begins with a byte order mark. |
| ZipEdit.LeadingSlashIsIgnored | tools/wurster-lab-wurst/src/workspace-zip.js:153-174 | A replacement under another spelling of an existing name, such as with a leading slash, is dropped without an error. |
| ZipEdit.TwoSpellingsAreTwoEntries | tools/wurster-lab-wurst/src/workspace-zip.js:153-174 | A new name in two spellings is written as two entries of one name. |

## Left out

- Real cryptography, identity records, certificates, the package format around the arena, and every module outside the cited files.
- Input and output: file handles, promises, locks as code, IndexedDB, blobs, watchers. Operations are atomic steps; the arena lane and the mutation lock appear only as that.
- Times, MIME defaults, display names, statistics beyond sizes and counts, and fields that are only passed through (`applicationId`, publisher), which are one value per object.
- Byte offsets above the record layer: pages of the object store and records of PigFS are addressed by append position, and type and digest checks on records that cannot change are implied by it. `StoreRecords` leads the pages of the object store back to records; the records of PigFS stay positions, and its COMMIT payloads are kept beside the arena.
- Root Commit hashes are checked where a file is recovered (`Recovery`); the object store class carries roots without them.
- Set and map iteration order, the sorting of key wraps and of directory listings.
- Object store: `objects`, `stats`, `abortTransaction`, `findChild` outside promotion, the source cache, and the publisher check of `transitionBase`; an upgrade is modelled as a transaction operation.
- PigFS: `claimPersonalRealm`, `lockRealm`, symbolic links, mounts and public paths, `snapshot`, `object`, `list`, `measurePigFsStorage`, transactions across several realms, and the normalization of realm descriptors in `initialize`. A later claim of a personal realm is covered by validation only (`PigGovernance.ClaimPasses`).
- Overlay: one ordinary public realm with paths inside it, so the refusals for sealed realms and across realms, the listing of the realms themselves, snapshots and `dispose` are not modelled; object ids and times are not kept. Reading the base is the slice of its file.
- ZIP: names are UTF-8 bytes, so keys with lone surrogates, which encoding replaces, are not modelled; entries stay compressed as they are, and names are shorter than 65536 bytes.
- Overlay.WurstWebFsOverlay.RenamePath: requires that nothing lies below a free target, which holds on every tree and so after every guarded run (`OverlayTree.WebRunKeepsTree`); otherwise the outcome depends on map order.
- PigStore.PigFsStore.CommitWrite: of a target that is created, only its absence at both ends is known; one that came and went in between is let pass by the code.
- Arena.ReachableIsReadable: that records refer only to records before them is a condition on writers here, as in Arena.StepKeepsClosed; the object store needs none (`StoreRecords.StoreIsReadable`).
- RuntimeRoots.LoadsPublishedPair: that Root Commits are published on top of what they name is a condition here, as in RuntimeRoots.RecoveredPairWasPublished; it holds in every run of the protocol (`RuntimeRoots.ProtocolIsWellPublished`).
- RuntimeRoots.ProtocolIsWellPublished: that a new root leads to the host with its head is a condition here; it holds in every run of stores (`StoreRecords.StoreRunIsProtocol`).
- StoreRecords.StoreRunLoads: how JSON writes a page, and the offset of a page in it, is an ideal encoding; previous Root Commits, which no reader follows, are no references.
- FileCompaction.WriteCompactedWurstFile: a Wurst without object store, the copy of the immutable part and the final replacement of the file are not modelled.
- PigTxStore.FinishTransaction: when the prepared entries stand for something else than the requests mean, the published catalog is known, but no validity of the store afterwards.
- PngCarrier.EmbedThenExtract: lengths up to the largest safe integer, the limit of the reader.
- ObjectStore.WurstObjectStore.ApplyReparent: no depth bound below the moved object and no unique locators, because the code checks neither.
- Arena.NoAcknowledgedCommitIsLost: the arena is one file with one tail; reference counts and several sources of one arena are not modelled.
