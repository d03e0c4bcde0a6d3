/**
 Compacting a whole Wurst: first its PigFS, then its live objects, whose host gets the new COMMIT as its state head.
 */
module FileCompaction {
  import PigRoots
  import PigStore
  import PigCompaction
  import ObjectTypes
  import ObjectStore
  import Subtrees
  import Compaction

  datatype Outcome = Compacted | PigFsRefused(status: PigStore.Status) | TooDeep

  /**
   `writeCompactedWurstFile` behind the copy of the immutable part. A PigFS that may not be compacted, or does not fit, leaves the target
   without object root, with the error of the first realm that has one. Otherwise the new host's state head is exactly the COMMIT that holds the same files as before, or nothing when
   there was no PigFS, and the objects are the live ones; the only refusal left is a graph that is too deep.
   */
  method WriteCompactedWurstFile(files: PigStore.PigFsStore, newFiles: PigStore.PigFsStore, objects: ObjectStore.WurstObjectStore,
    newObjects: ObjectStore.WurstObjectStore, unlocked: PigStore.KeyRing, order: seq<PigRoots.RealmId>, targetSize: nat)
    returns (outcome: Outcome, ghost live: set<ObjectTypes.Id>, ghost built: seq<PigCompaction.Built>, ghost last: PigCompaction.Built)
    requires files != newFiles && files.log != newFiles.log && files.Valid() && newFiles.Valid() && newFiles.root.None?
    requires files.root.Some? ==> PigStore.Unlocking(unlocked, files.keys) && PigCompaction.ListsRealms(order, files.root.value.state.realms)
    requires Compaction.Pair(objects, newObjects) && newObjects.root.None?
    modifies newFiles`root, newFiles`commitOffset, newFiles`commits, newFiles`keys, newFiles`files, newFiles`chain, newFiles`past, newFiles`since,
      newFiles`realmKeys, newFiles`usedKeys, newFiles.log, newObjects`root, newObjects`commitOffset, newObjects.arena
    ensures files.Valid() && newFiles.Valid() && files.root == old(files.root) && objects.root == old(objects.root)
    ensures outcome.PigFsRefused? ==> newFiles.root.None? && newObjects.root == old(newObjects.root)
    ensures files.root.None? ==> !outcome.PigFsRefused?
    ensures files.root.Some? ==>
      PigCompaction.CompactionEnds(newFiles.log.recs, files.keys, unlocked, newFiles.sizes, files.root.value.state, files.files, order, built, last,
        if outcome.PigFsRefused? then outcome.status else PigStore.Committed)
    ensures outcome.PigFsRefused? ==> outcome.status != PigStore.Committed
    ensures !outcome.PigFsRefused? && files.root.Some? ==>
      newFiles.root.Some? && newFiles.commitOffset.Some? && newFiles.files == files.files && newFiles.keys == files.keys
      && PigCompaction.SameButCatalogs(files.root.value.state, newFiles.root.value.state)
    ensures !outcome.PigFsRefused? && files.root.None? ==> newFiles.root.None? && newFiles.commitOffset.None?
    ensures !outcome.PigFsRefused? ==>
      Compaction.Pair(objects, newObjects) && objects.Published() == old(objects.Published()) && newObjects.root.Some?
      && Compaction.LiveCopied(objects.Published(), newObjects.Published(), live, targetSize, newFiles.commitOffset)
      && outcome == if Subtrees.NoDeeper(objects.Published().byChild, objects.Published().rootId, newObjects.maxDepth) then Compacted else TooDeep
  {
    hide PigCompaction.CompactionEnds, PigCompaction.ListsRealms, PigStore.BaseOk, PigStore.StoredOk, PigStore.PastOk, PigStore.Unlocking, PigCompaction.NoRoom,
      PigCompaction.SameButCatalogs, PigCompaction.Carried, Compaction.LiveCopied, Subtrees.NoDeeper, ObjectStore.WurstObjectStore.Valid;
    live, built, last := {}, [], PigCompaction.Built([], []);
    HasOffset(newFiles);
    if files.root.Some? {
      var status;
      status, built, last := PigCompaction.CompactFiles(files, newFiles, unlocked, order);
      if status != PigStore.Committed {
        return PigFsRefused(status), live, built, last;
      }
      HasOffset(newFiles);
    }
    var r;
    r, live := Compaction.CopyLiveObjects(objects, newObjects, targetSize, newFiles.commitOffset);
    return if r.Ok? then Compacted else TooDeep, live, built, last;
  }

  lemma HasOffset(store: PigStore.PigFsStore)
    requires store.Valid()
    ensures store.root.Some? <==> store.commitOffset.Some?
  {
    hide PigStore.StoredOk, PigStore.PastOk, PigStore.Numbered, PigStore.RootStored;
  }
}
