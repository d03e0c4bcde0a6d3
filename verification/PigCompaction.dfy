/**
 Compacting the PigFS of a history-free Wurst: the data records are copied as they are, maps and catalogs are built anew.
 */
module PigCompaction {
  import opened Bytes
  import opened PigTree
  import opened PigPages
  import opened PigBuild
  import opened PigMeaning
  import opened PigReseal
  import opened PigRoots
  import opened PigHistory
  import opened PigCommits
  import opened PigStore

  /** What has been copied of one file: the copied chunks hold its first bytes in the target, the rest is still in the source. */
  ghost predicate Copying(source: Recs, recs: Recs, v: Vault, rest: seq<Chunk>, copied: seq<Chunk>, pos: nat, file: bytes) {
    pos <= |file| && ChunkBytes(source, v, rest, pos) == Some(file[pos..]) && ChunkBytes(recs, v, copied, 0) == Some(file[..pos])
    && (rest == [] ==> pos == |file|)
  }

  lemma CopiedReads(source: Recs, recs: Recs, v: Vault, c: Chunk)
    requires ReadData(source, v, c).Some?
    ensures c.recordOffset < |source| && source[c.recordOffset].DataRec?
    ensures ReadData(recs + [source[c.recordOffset]], v, c.(recordOffset := |recs|)) == ReadData(source, v, c)
  {
  }

  lemma CopyStep(source: Recs, recs: Recs, v: Vault, chunks: seq<Chunk>, i: nat, copied: seq<Chunk>, pos: nat, file: bytes)
    requires i < |chunks| && Copying(source, recs, v, chunks[i..], copied, pos, file)
    ensures var c := chunks[i];
      ReadData(source, v, c).Some? && c.recordOffset < |source| && source[c.recordOffset].DataRec?
      && Copying(source, recs + [source[c.recordOffset]], v, chunks[i + 1..], copied + [c.(recordOffset := |recs|)], pos + c.plainLength, file)
  {
    hide ReadData, ChunkBytes;
    NextChunk(source, v, chunks, i, pos, file);
    var c := chunks[i];
    CopiedReads(source, recs, v, c);
    DataLength(source, v, c);
    var more := recs + [source[c.recordOffset]];
    ChunkBytesStay(recs, more, v, copied, 0);
    ChunkBytesSnoc(more, v, copied, 0, c.(recordOffset := |recs|));
    assert file[..pos] + file[pos..pos + c.plainLength] == file[..pos + c.plainLength];
    if chunks[i + 1..] == [] {
      NothingLeft(source, v, pos + c.plainLength);
    }
  }

  lemma StartCopying(source: Recs, recs: Recs, v: Vault, pages: seq<MapPage>)
    requires FileBytes(source, v, pages).Some?
    ensures ListedChunks(source, v, pages).Some?
    ensures Copying(source, recs, v, SortChunks(ListedChunks(source, v, pages).value), [], 0, FileBytes(source, v, pages).value)
  {
    hide ReadData, ListedChunks, SortChunks;
    var chunks, file := ListedChunks(source, v, pages).value, FileBytes(source, v, pages).value;
    TiledIsAscending(source, v, chunks, 0);
    AscendingIsSorted(chunks);
    assert file[0..] == file && file[..0] == [];
  }

  lemma EndCopying(source: Recs, recs: Recs, v: Vault, rest: seq<Chunk>, copied: seq<Chunk>, pos: nat, file: bytes)
    requires Copying(source, recs, v, rest, copied, pos, file) && rest == []
    ensures ChunkBytes(recs, v, copied, 0) == Some(file)
  {
    assert file[..|file|] == file;
  }

  /** The data records of one file, sealed payloads included, are copied as they are. */
  method CopyFile(source: Recs, log: RecordLog, v: Vault, pages: seq<MapPage>) returns (r: Option<seq<Chunk>>)
    modifies log
    ensures old(log.recs) <= log.recs
    ensures FileBytes(source, v, pages).Some? ==> r.Some? && ChunkBytes(log.recs, v, r.value, 0) == FileBytes(source, v, pages)
  {
    hide ReadData, ChunkBytes, ListedChunks, SortChunks, Copying, FileBytes;
    ghost var file := FileBytes(source, v, pages);
    ghost var good := file.Some?;
    if good {
      StartCopying(source, log.recs, v, pages);
    }
    var loaded := LoadChunks(source, v, pages);
    if loaded.None? {
      return None;
    }
    var chunks := loaded.value;
    var copied: seq<Chunk> := [];
    ghost var pos: nat := 0;
    var i := 0;
    assert chunks[0..] == chunks;
    while i < |chunks|
      invariant i <= |chunks| && old(log.recs) <= log.recs
      invariant good ==> Copying(source, log.recs, v, chunks[i..], copied, pos, file.value)
    {
      var c := chunks[i];
      if good {
        CopyStep(source, log.recs, v, chunks, i, copied, pos, file.value);
      }
      if c.recordOffset >= |source| || !source[c.recordOffset].DataRec? {
        return None;
      }
      var offset := log.Append(source[c.recordOffset]);
      copied := copied + [c.(recordOffset := offset)];
      pos := pos + c.plainLength;
      i := i + 1;
    }
    if good {
      EndCopying(source, log.recs, v, chunks[i..], copied, pos, file.value);
    }
    return Some(copied);
  }

  /** Every file of a realm. */
  method CopyFiles(source: Recs, log: RecordLog, v: Vault, tree: Inodes, ghost files: Tree<bytes>) returns (rewrites: seq<Rewrite>)
    requires Represents(source, v, tree, [], files)
    modifies log
    ensures old(log.recs) <= log.recs
    ensures RewritesOk(tree, rewrites) && Represents(log.recs, v, tree, rewrites, files)
  {
    hide Represents, ResealedPart, HoldsFile, RewritesOk, ChunkBytes, FileBytes, SameNode;
    rewrites := [];
    var left := tree.Keys;
    ghost var done: set<Path> := {};
    RepresentsKeys(source, v, tree, files);
    PartEmpty(log.recs, v, tree, files);
    while left != {}
      invariant left + done == tree.Keys && left !! done && old(log.recs) <= log.recs
      invariant ResealedPart(log.recs, v, tree, files, done, rewrites)
      decreases left
    {
      var path :| path in left;
      RepresentsAt(source, v, tree, files, path);
      HeldFile(source, v, tree[path], files[path]);
      if tree[path].kind == File {
        ghost var recs := log.recs;
        var chunks := CopyFile(source, log, v, tree[path].content);
        PartStays(recs, log.recs, v, tree, files, done, rewrites);
        PartNext(log.recs, v, tree, files, done, rewrites, path, chunks.value);
        rewrites := rewrites + [Rewrite(path, chunks.value)];
      } else {
        PartSkip(log.recs, v, tree, files, done, rewrites, path);
      }
      left, done := left - {path}, done + {path};
    }
    PartAll(log.recs, v, tree, files, done, rewrites);
  }

  /** One realm: the compacted catalog, if it fits, stands for exactly the same tree. */
  method CompactRealm(source: Recs, log: RecordLog, sizes: Sizes, v: Vault, r: Realm, generation: nat, ghost files: Tree<bytes>)
    returns (next: Option<Realm>, ghost copies: seq<Rewrite>, ghost listed: seq<Row>)
    requires Sane(sizes) && Stores(source, v, r.catalogPages, files) && v.sealed == r.secret
    modifies log
    ensures old(log.recs) <= log.recs
    ensures RowsOf(log.recs, v, sizes, copies, listed, files) && (next.Some? <==> RealmFits(v, sizes, r.quota, copies, listed))
    ensures next.Some? ==> OnlyContent(r, next.value) && PagesOk(next.value) && Stores(log.recs, v, next.value.catalogPages, files) && StatsMatch(next.value, files)
  {
    hide Represents, RewritesOk, Sane, ListedRows, TreeOf, DistinctPaths, Overfull, MapFits, CatalogFits, TotalSize, FilesIn, FileCount, LogicalBytes;
    var catalog := LoadCatalog(source, v, r.catalogPages);
    var rewrites := CopyFiles(source, log, v, catalog.value, files);
    var pages, rows := WriteRealm(log, v, sizes, r.id, r.quota, generation, catalog.value, rewrites, files);
    copies, listed := rewrites, rows;
    if pages.None? {
      return None, copies, listed;
    }
    ListingCounts(log.recs, v, rows, files);
    var result := r.(catalogPages := pages.value, stats := StatsOf(r, rows));
    PagesAfter(r, result);
    return Some(result), copies, listed;
  }

  /** A realm that cannot be read can only be carried over when there is nothing in it. */
  predicate Carried(r: Realm, unlocked: KeyRing) { !r.secret || r.id in unlocked || Unclaimed(r) }

  /** What has been compacted so far: the same files in the target, the same realms but for their catalogs. */
  ghost predicate Compacted(recs: Recs, keys: KeyRing, realms: Realms, files: Contents, done: set<RealmId>, next: Realms) {
    next.Keys == done && done <= realms.Keys && done <= files.Keys
    && forall id | id in done :: OnlyContent(realms[id], next[id]) && PagesOk(next[id]) && RealmStored(recs, keys, next[id], files[id])
  }

  lemma CompactedStays(recs: Recs, more: Recs, keys: KeyRing, realms: Realms, files: Contents, done: set<RealmId>, next: Realms)
    requires recs <= more && Compacted(recs, keys, realms, files, done, next)
    ensures Compacted(more, keys, realms, files, done, next)
  {
    hide Stores, WrapsCarry, OnlyContent, PagesOk;
    forall id | id in done ensures RealmStored(more, keys, next[id], files[id]) {
      assert RealmStored(recs, keys, next[id], files[id]);
      StoresStays(recs, more, VaultOf(next[id], keys), next[id].catalogPages, files[id]);
    }
  }

  lemma CompactedNext(recs: Recs, keys: KeyRing, realms: Realms, files: Contents, done: set<RealmId>, next: Realms, id: RealmId, r: Realm)
    requires Compacted(recs, keys, realms, files, done, next) && id in realms && id in files && id !in done
    requires OnlyContent(realms[id], r) && PagesOk(r) && Stores(recs, VaultOf(realms[id], keys), r.catalogPages, files[id]) && WrapsCarry(realms[id], keys)
    requires StatsMatch(r, files[id])
    ensures Compacted(recs, keys, realms, files, done + {id}, next[id := r])
  {
    hide Stores, WrapsCarry, PagesOk;
    SameWraps(realms[id], r, keys);
    forall x | x in done ensures OnlyContent(realms[x], next[x]) && PagesOk(next[x]) && RealmStored(recs, keys, next[x], files[x]) {
    }
  }

  /** The compacted realms: the same ones with the same policies, holding the same files. */
  lemma CompactedAll(recs: Recs, keys: KeyRing, root: Root, files: Contents, next: Realms)
    requires RealmsOk(root.state) && Compacted(recs, keys, root.state.realms, files, root.state.realms.Keys, next) && files.Keys == root.state.realms.Keys
    ensures AllStored(recs, keys, next, files)
    ensures RealmsOk(root.state.(realms := next)) <==> forall id | id in next :: RealmOk(next[id], root.state.identities)
    ensures AnyShared(next) == AnyShared(root.state.realms)
    ensures root.state.generation >= 1 ==> SameButCatalogs(root.state, Standalone(root.state.(realms := next)))
  {
    hide RealmStored, RealmOk, PagesOk;
    forall id | id in next ensures next[id].id == id && next[id].governance == root.state.realms[id].governance && RealmStored(recs, keys, next[id], files[id]) {
      assert OnlyContent(root.state.realms[id], next[id]);
    }
  }

  /** A realm whose catalog alone was rewritten is as well-formed as before, unless it had no owner and has now a catalog. */
  lemma RewrittenRealmOk(r: Realm, next: Realm, identities: set<Identity>)
    requires RealmOk(r, identities) && OnlyContent(r, next) && PagesOk(next) && (Unclaimed(r) ==> next == r)
    ensures RealmOk(next, identities)
  {
    hide AccessOk;
  }

  /** Same generation, admins and identities; the same realms but for their catalogs and statistics. */
  ghost predicate SameButCatalogs(s: State, t: State) {
    t.generation == s.generation && t.admins == s.admins && t.identities == s.identities && t.realms.Keys == s.realms.Keys
    && t.history.NoHistory? && forall id | id in s.realms :: OnlyContent(s.realms[id], t.realms[id])
  }

  lemma NothingCompacted(recs: Recs, keys: KeyRing, realms: Realms, files: Contents)
    ensures Compacted(recs, keys, realms, files, {}, map[])
  {
  }

  /** What validity of a store says of its root. */
  lemma StoreFacts(store: PigFsStore)
    requires store.Valid() && store.root.Some?
    ensures WellFormed(store.trust, store.root.value) && RealmsOk(store.root.value.state) && store.root.value.state.generation >= 1
    ensures store.root.value.state.realms.Keys == store.files.Keys && AllStored(store.log.recs, store.keys, store.root.value.state.realms, store.files)
    ensures store.root.value.state.history.NoHistory? ==> !AnyShared(store.root.value.state.realms)
    ensures NotNewer(store.files, store.root.value.state.generation)
  {
    hide RealmStored, RealmOk, Sane, Asymmetric, SessionsOk, Used, Unlocking, Numbered, Remembered, Began, NotNewer;
    PastNotNewer(store.past, store.since);
    CurrentRoot(store.trust, store.commits, store.root.value, store.commitOffset.value, store.chain);
  }

  lemma StoreSizes(store: PigFsStore)
    requires store.Valid()
    ensures Sane(store.sizes)
  {
    hide Sane, RootStored, StoredOk, Numbered;
  }

  lemma EmptyStores(recs: Recs, more: Recs, v: Vault, files: Tree<bytes>)
    requires Stores(recs, v, [], files)
    ensures Stores(more, v, [], files)
  {
  }

  /** The copies of the files of a realm, and the rows of the catalog that is to be written for them. */
  datatype Built = Built(copies: seq<Rewrite>, rows: seq<Row>)

  /** The catalog of a realm with these copies of its files does not fit. */
  ghost predicate NoRoom(recs: Recs, r: Realm, keys: KeyRing, sizes: Sizes, files: Tree<bytes>, built: Built) {
    RowsOf(recs, VaultOf(r, keys), sizes, built.copies, built.rows, files) && !RealmFits(VaultOf(r, keys), sizes, r.quota, built.copies, built.rows)
  }

  /** It fits, or there is nothing to write. */
  ghost predicate Room(recs: Recs, r: Realm, keys: KeyRing, sizes: Sizes, files: Tree<bytes>, built: Built) {
    Unclaimed(r)
    || (RowsOf(recs, VaultOf(r, keys), sizes, built.copies, built.rows, files) && RealmFits(VaultOf(r, keys), sizes, r.quota, built.copies, built.rows))
  }

  lemma RoomStays(recs: Recs, more: Recs, r: Realm, keys: KeyRing, sizes: Sizes, files: Tree<bytes>, built: Built)
    requires recs <= more && Room(recs, r, keys, sizes, files, built)
    ensures Room(more, r, keys, sizes, files, built)
  {
    hide RowsOf, RealmFits, VaultOf;
    if !Unclaimed(r) {
      RowsStayOf(recs, more, VaultOf(r, keys), sizes, built.copies, built.rows, files);
    }
  }

  /** The order in which the realms are walked: each once. */
  ghost predicate ListsRealms(order: seq<RealmId>, realms: Realms) {
    (forall i, j | 0 <= i < j < |order| :: order[i] != order[j]) && forall id :: id in order <==> id in realms
  }

  /** The first realms of the order can all be read and fit. */
  ghost predicate Fitted(recs: Recs, keys: KeyRing, unlocked: KeyRing, sizes: Sizes, realms: Realms, files: Contents, order: seq<RealmId>, built: seq<Built>) {
    |built| <= |order| && forall i | 0 <= i < |built| ::
      order[i] in realms && order[i] in files && Carried(realms[order[i]], unlocked) && Room(recs, realms[order[i]], keys, sizes, files[order[i]], built[i])
  }

  /** Compaction ends with the error of the first realm in the order that has one. */
  ghost predicate CompactionEnds(recs: Recs, keys: KeyRing, unlocked: KeyRing, sizes: Sizes, s: State, files: Contents, order: seq<RealmId>, built: seq<Built>,
    last: Built, status: Status)
  {
    if s.history.Integrity? then status == NotAllowed
    else
      Fitted(recs, keys, unlocked, sizes, s.realms, files, order, built)
      && if |built| == |order| then status == Committed
         else
           var id := order[|built|];
           id in s.realms && id in files
           && if !Carried(s.realms[id], unlocked) then status == Locked else status == TooLarge && NoRoom(recs, s.realms[id], keys, sizes, files[id], last)
  }

  /** Something is in the realm that nobody without its key can read. */
  predicate HasSecrets(r: Realm) { r.secret && (r.governance.Personal? ==> r.claimed) }

  /**
   So compaction is refused exactly for history, then for a realm with secrets whose key is not given, or one whose catalog does not fit, and
   otherwise all realms with secrets are unlocked. A realm that nobody has claimed needs no key.
   */
  lemma EndsMeans(recs: Recs, keys: KeyRing, unlocked: KeyRing, sizes: Sizes, s: State, files: Contents, order: seq<RealmId>, built: seq<Built>, last: Built, status: Status)
    requires CompactionEnds(recs, keys, unlocked, sizes, s, files, order, built, last, status) && ListsRealms(order, s.realms)
    ensures status == NotAllowed <==> s.history.Integrity?
    ensures status == Locked ==> exists id :: id in s.realms && HasSecrets(s.realms[id]) && s.realms[id].id !in unlocked
    ensures status == TooLarge ==> exists id, b :: id in s.realms && id in files && NoRoom(recs, s.realms[id], keys, sizes, files[id], b)
    ensures status == Committed ==> forall id | id in s.realms && HasSecrets(s.realms[id]) :: s.realms[id].id in unlocked
    ensures status in {NotAllowed, Locked, TooLarge, Committed}
  {
    hide Room, NoRoom;
    if !s.history.Integrity? && |built| == |order| {
      forall id | id in s.realms && HasSecrets(s.realms[id]) ensures s.realms[id].id in unlocked {
        var i :| 0 <= i < |order| && order[i] == id;
        assert Carried(s.realms[order[i]], unlocked);
      }
    }
  }

  lemma FittedNext(recs: Recs, more: Recs, keys: KeyRing, unlocked: KeyRing, sizes: Sizes, realms: Realms, files: Contents, order: seq<RealmId>, built: seq<Built>, b: Built)
    requires recs <= more && Fitted(recs, keys, unlocked, sizes, realms, files, order, built) && |built| < |order|
    requires var id := order[|built|]; id in realms && id in files && Carried(realms[id], unlocked) && Room(more, realms[id], keys, sizes, files[id], b)
    ensures Fitted(more, keys, unlocked, sizes, realms, files, order, built + [b])
  {
    hide Room, Carried;
    FittedStays(recs, more, keys, unlocked, sizes, realms, files, order, built);
  }

  lemma FittedStays(recs: Recs, more: Recs, keys: KeyRing, unlocked: KeyRing, sizes: Sizes, realms: Realms, files: Contents, order: seq<RealmId>, built: seq<Built>)
    requires recs <= more && Fitted(recs, keys, unlocked, sizes, realms, files, order, built)
    ensures Fitted(more, keys, unlocked, sizes, realms, files, order, built)
  {
    hide Room, Carried;
    forall i | 0 <= i < |built| ensures Room(more, realms[order[i]], keys, sizes, files[order[i]], built[i]) {
      RoomStays(recs, more, realms[order[i]], keys, sizes, files[order[i]], built[i]);
    }
  }

  /** One realm of a store: an unclaimed one as it is, any other one rewritten. */
  method CompactOne(source: PigFsStore, log: RecordLog, sizes: Sizes, unlocked: KeyRing, id: RealmId)
    returns (next: Option<Realm>, ghost built: Built)
    requires source.Valid() && source.root.Some? && source.HasRealm(id) && source.log != log && Sane(sizes)
    requires Unlocking(unlocked, source.keys) && Carried(source.RealmAt(id), unlocked)
    modifies log
    ensures source.Valid() && old(log.recs) <= log.recs && id in source.files
    ensures next.Some? ==> OnlyContent(source.RealmAt(id), next.value) && PagesOk(next.value) && RealmOk(next.value, source.root.value.state.identities)
    ensures next.Some? ==> Stores(log.recs, VaultOf(source.RealmAt(id), source.keys), next.value.catalogPages, source.files[id])
    ensures next.Some? ==> StatsMatch(next.value, source.files[id])
    ensures next.None? ==> NoRoom(log.recs, source.RealmAt(id), source.keys, sizes, source.files[id], built)
    ensures next.Some? ==> Room(log.recs, source.RealmAt(id), source.keys, sizes, source.files[id], built)
    ensures WrapsCarry(source.RealmAt(id), source.keys)
  {
    hide BaseOk, StoredOk, RealmOk, Sane, Stores, RootStored, WellFormed, WrapsCarry, PastOk, StatsMatch, RowsOf, RealmFits;
    built := Built([], []);
    var realm := source.RealmAt(id);
    source.Parts(id);
    StoredStats(source.log.recs, source.keys, source.root.value.state.realms, source.files, id);
    if Unclaimed(realm) {
      UnclaimedIsEmpty(realm, source.root.value.state.identities);
      EmptyStores(source.log.recs, log.recs, VaultOf(realm, source.keys), source.files[id]);
      return Some(realm), built;
    }
    ghost var copies, listed;
    next, copies, listed := CompactRealm(source.log.recs, log, sizes, VaultOf(realm, unlocked), realm, source.root.value.state.generation, source.files[id]);
    built := Built(copies, listed);
    if next.Some? {
      RewrittenRealmOk(realm, next.value, source.root.value.state.identities);
    }
  }

  lemma UnclaimedIsEmpty(r: Realm, identities: set<Identity>)
    requires RealmOk(r, identities) && Unclaimed(r)
    ensures r.catalogPages == [] && PagesOk(r)
  {
  }

  /**
   The PigFS half of `writeCompactedWurstFile`: refused for a store that keeps history, and otherwise with the error of the first realm that
   is locked or does not fit, in the order in which they are walked. Without one the target holds exactly the same files in the same realms
   under the same policies and keys, at the same generation.
   */
  method CompactFiles(source: PigFsStore, target: PigFsStore, unlocked: KeyRing, order: seq<RealmId>) returns (status: Status, ghost built: seq<Built>, ghost last: Built)
    requires source != target && source.log != target.log && source.Valid() && source.root.Some? && target.Valid() && target.root.None?
    requires Unlocking(unlocked, source.keys) && ListsRealms(order, source.root.value.state.realms)
    modifies target`root, target`commitOffset, target`commits, target`keys, target`files, target`chain, target`past, target`since, target`realmKeys,
      target`usedKeys, target.log
    ensures source.Valid() && target.Valid() && source.root == old(source.root)
    ensures CompactionEnds(target.log.recs, source.keys, unlocked, target.sizes, source.root.value.state, source.files, order, built, last, status)
    ensures status != Committed ==> target.root.None?
    ensures status == Committed ==>
      target.root.Some? && target.files == source.files && target.keys == source.keys && target.realmKeys == unlocked
      && SameButCatalogs(source.root.value.state, target.root.value.state)
  {
    hide BaseOk, StoredOk, RealmOk, Sane, RealmStored, Stores, Compacted, RootStored, WellFormed, OnlyContent, AllStored, PastOk, NotNewer, NoRoom, StatsMatch,
      WrapsCarry, VaultOf, Unclaimed, Unlocking, Room, Fitted, Carried, ListsRealms;
    built, last := [], Built([], []);
    var root := source.root.value;
    if root.state.history.Integrity? {
      return NotAllowed, built, last;
    }
    ghost var recs, keys, files, realms := source.log.recs, source.keys, source.files, root.state.realms;
    StoreFacts(source);
    StoreSizes(target);
    var next: Realms := map[];
    ghost var done: set<RealmId> := {};
    NothingCompacted(target.log.recs, keys, realms, files);
    assert Fitted(target.log.recs, keys, unlocked, target.sizes, realms, files, order, []) by { hide *; NothingFitted(target.log.recs, keys, unlocked, target.sizes, realms, files, order); }
    var i := 0;
    while i < |order|
      invariant i <= |order| && |built| == i && done == First(order, i) && target.Valid() && target.root.None? && source.Valid()
      invariant source.log.recs == recs && source.keys == keys && source.files == files && source.root == Some(root)
      invariant Compacted(target.log.recs, keys, realms, files, done, next) && next.Keys == done
      invariant Fitted(target.log.recs, keys, unlocked, target.sizes, realms, files, order, built)
      invariant forall id | id in done :: RealmOk(next[id], root.state.identities)
      modifies target.log
    {
      var id := order[i];
      NextListed(order, realms, i);
      if !Carried(root.state.realms[id], unlocked) {
        return Locked, built, last;
      }
      ghost var before := target.log.recs;
      label Before:
      var compacted;
      compacted, last := CompactOne(source, target.log, target.sizes, unlocked, id);
      target.ArenaGrew@Before(before);
      if compacted.None? {
        FittedStays(before, target.log.recs, keys, unlocked, target.sizes, realms, files, order, built);
        return TooLarge, built, last;
      }
      FittedNext(before, target.log.recs, keys, unlocked, target.sizes, realms, files, order, built, last);
      CompactedStays(before, target.log.recs, keys, realms, files, done, next);
      CompactedNext(target.log.recs, keys, realms, files, done, next, id, compacted.value);
      next := next[id := compacted.value];
      done, built := done + {id}, built + [last];
      i := i + 1;
    }
    AllListed(order, realms);
    CompactedAll(target.log.recs, keys, root, files, next);
    recs := target.log.recs;
    var ok := target.PublishStandaloneRoot(root.state.(realms := next), unlocked, keys, files);
    FittedStays(recs, target.log.recs, keys, unlocked, target.sizes, realms, files, order, built);
    return Committed, built, last;
  }

  ghost function First(order: seq<RealmId>, n: nat): set<RealmId>
    requires n <= |order|
  {
    set k | 0 <= k < n :: order[k]
  }

  lemma NextListed(order: seq<RealmId>, realms: Realms, i: nat)
    requires ListsRealms(order, realms) && i < |order|
    ensures order[i] in realms && order[i] !in First(order, i) && First(order, i + 1) == First(order, i) + {order[i]}
  {
    assert order[i] in order;
  }

  lemma AllListed(order: seq<RealmId>, realms: Realms)
    requires ListsRealms(order, realms)
    ensures First(order, |order|) == realms.Keys
  {
    forall id ensures id in First(order, |order|) <==> id in realms {
      assert id in order <==> id in realms;
    }
  }

  lemma NothingFitted(recs: Recs, keys: KeyRing, unlocked: KeyRing, sizes: Sizes, realms: Realms, files: Contents, order: seq<RealmId>)
    ensures Fitted(recs, keys, unlocked, sizes, realms, files, order, [])
  {
  }
}
