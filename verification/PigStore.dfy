/**
 `PigFsStore`: the imperative store over one arena. Every operation is proved against the tree of file contents that a realm holds.
 */
module PigStore {
  import opened Bytes
  import opened Keys
  import opened PigTree
  import opened PigPages
  import opened PigBuild
  import opened PigMeaning
  import opened PigRoots
  import opened PigHistory
  import opened PigCommits
  import opened PigSharing
  import opened PigReseal
  import opened PigVersions
  import Records

  type SessionId = nat

  /** A streaming write: where it goes, the chunks so far, and the state it started from. */
  datatype Session = Session(realmId: RealmId, path: Path, actor: Option<Identity>, mime: Key, chunks: seq<Chunk>, size: nat,
    baseOffset: nat, baseHash: Hash, baseGeneration: nat, baseRealm: Realm)

  type KeyRing = map<RealmId, SymKey>

  type Contents = map<RealmId, Tree<bytes>>

  /** Reading or writing a realm with the keys of a ring. */
  function VaultOf(r: Realm, keys: KeyRing): Vault { Vault(r.secret, if r.secret && r.id in keys then Some(keys[r.id]) else None) }

  /** All wraps of a realm carry its key. */
  predicate WrapsCarry(r: Realm, keys: KeyRing) {
    r.keyWraps != [] ==> r.id in keys && forall i | 0 <= i < |r.keyWraps| :: r.keyWraps[i].key == keys[r.id]
  }

  /** What a realm shows without its key: whether it is empty, and in the clear how many files, directories and bytes it holds. */
  ghost predicate StatsMatch(r: Realm, files: Tree<bytes>) {
    r.stats == (if r.secret then Hidden(files != map[]) else Counted(|FilesIn(files)|, |files.Keys - FilesIn(files)|, TotalSize(files)))
    && (r.catalogPages == [] <==> files == map[])
  }

  /** A realm is stored under one key, which is also the one that its wraps carry, and holds these files. */
  ghost predicate RealmStored(recs: Recs, keys: KeyRing, r: Realm, files: Tree<bytes>) {
    Stores(recs, VaultOf(r, keys), r.catalogPages, files) && WrapsCarry(r, keys) && StatsMatch(r, files)
  }

  ghost predicate AllStored(recs: Recs, keys: KeyRing, realms: Realms, files: Contents) {
    realms.Keys == files.Keys && forall id | id in realms :: RealmStored(recs, keys, realms[id], files[id])
  }

  lemma AllStoredStays(recs: Recs, more: Recs, keys: KeyRing, realms: Realms, files: Contents)
    requires recs <= more && AllStored(recs, keys, realms, files)
    ensures AllStored(more, keys, realms, files)
  {
    hide Stores, WrapsCarry;
    forall id | id in realms ensures RealmStored(more, keys, realms[id], files[id]) {
      assert RealmStored(recs, keys, realms[id], files[id]);
      StoresStays(recs, more, VaultOf(realms[id], keys), realms[id].catalogPages, files[id]);
    }
  }

  /** What the unlocked keys are good for. */
  predicate Unlocking(unlocked: KeyRing, keys: KeyRing) { forall id | id in unlocked :: id in keys && unlocked[id] == keys[id] }

  /** All keys in use, and those in use when some session began, are known. */
  ghost predicate Used(keys: KeyRing, sessions: map<SessionId, Session>, usedKeys: set<SymKey>) {
    (forall id | id in keys :: keys[id] in usedKeys)
    && forall s | s in sessions && sessions[s].baseRealm.keyWraps != [] :: sessions[s].baseRealm.keyWraps[0].key in usedKeys
  }

  lemma UsedPut(keys: KeyRing, sessions: map<SessionId, Session>, usedKeys: set<SymKey>, sid: SessionId, s: Session)
    requires Used(keys, sessions, usedKeys)
    requires WrapsCarry(s.baseRealm, keys) || (sid in sessions && s.baseRealm == sessions[sid].baseRealm)
    ensures Used(keys, sessions[sid := s], usedKeys)
  {
  }

  lemma UsedFewer(keys: KeyRing, sessions: map<SessionId, Session>, usedKeys: set<SymKey>, sid: SessionId)
    requires Used(keys, sessions, usedKeys)
    ensures Used(keys, sessions - {sid}, usedKeys)
  {
  }

  /** The realm still uses the key that it had when the session began. */
  predicate SameKey(s: Session, keys: KeyRing) {
    s.baseRealm.secret ==> s.baseRealm.keyWraps != [] && s.baseRealm.id in keys && s.baseRealm.keyWraps[0].key == keys[s.baseRealm.id]
  }

  /** The chunks of a session hold what was written, and the catalog it started from can be read. */
  predicate Readable(recs: Recs, v: Vault, s: Session, draft: bytes) {
    ChunkBytes(recs, v, s.chunks, 0) == Some(draft) && ListedRows(recs, v, s.baseRealm.catalogPages).Some?
  }

  /** A session belongs to a realm of a commit of this store, and while the realm key is the same its chunks hold what was written. */
  ghost predicate SessionOk(recs: Recs, commits: Commits, keys: KeyRing, realms: Realms, s: Session, draft: bytes) {
    && s.baseOffset in commits && s.realmId in commits[s.baseOffset].state.realms && commits[s.baseOffset].state.realms[s.realmId] == s.baseRealm
    && s.baseHash == commits[s.baseOffset].commitHash && s.baseRealm.id == s.realmId && s.realmId in realms && realms[s.realmId].secret == s.baseRealm.secret
    && |draft| == s.size
    && (SameKey(s, keys) ==> Readable(recs, VaultOf(s.baseRealm, keys), s, draft))
  }

  ghost predicate SessionsOk(recs: Recs, commits: Commits, keys: KeyRing, realms: Realms, sessions: map<SessionId, Session>, drafts: map<SessionId, bytes>) {
    sessions.Keys == drafts.Keys && forall id | id in sessions :: SessionOk(recs, commits, keys, realms, sessions[id], drafts[id])
  }

  /** The current root is a commit of this store that validates, and with a shared realm it heads a verified chain of correct declarations. */
  ghost predicate RootStored(t: Trust, commits: Commits, root: Root, offset: nat, chain: seq<Link>) {
    && offset in commits && commits[offset] == root && WellFormed(t, root)
    && (root.state.history.Integrity? ==> LinksTo(commits, chain, offset) && ValidChain(t, chain) && Declares(chain))
  }

  /** The same realms with the same protection: what every operation here keeps. */
  predicate SameShape(before: Realms, after: Realms) {
    before.Keys == after.Keys && forall id | id in before :: after[id].id == before[id].id && after[id].secret == before[id].secret && after[id].governance == before[id].governance
  }

  /** What the version fingerprint of an entry covers. */
  datatype Fingerprint = Fingerprint(kind: Kind, size: nat, revision: nat, modifiedGeneration: nat, pages: seq<(nat, nat)>)

  function FingerprintOf(n: Inode): Fingerprint {
    Fingerprint(n.kind, n.size, n.revision, n.modifiedGeneration,
      if n.kind == File then seq(|n.content|, i requires 0 <= i < |n.content| => (n.content[i].recordOffset, n.content[i].count)) else [])
  }

  predicate SamePages(a: seq<MapPage>, b: seq<MapPage>) {
    |a| == |b| && forall i | 0 <= i < |a| :: a[i].recordOffset == b[i].recordOffset && a[i].count == b[i].count
  }

  /** Two entries have one fingerprint exactly if they agree in kind, size, revision and generation stamp, and files in where their map pages lie and what they count. */
  lemma SameFingerprintExactly(a: Inode, b: Inode)
    ensures FingerprintOf(a) == FingerprintOf(b) <==>
      a.kind == b.kind && a.size == b.size && a.revision == b.revision && a.modifiedGeneration == b.modifiedGeneration
      && (a.kind == File ==> SamePages(a.content, b.content))
  {
    if FingerprintOf(a) == FingerprintOf(b) && a.kind == File {
      forall i | 0 <= i < |a.content| ensures a.content[i].recordOffset == b.content[i].recordOffset && a.content[i].count == b.content[i].count {
        assert FingerprintOf(a).pages[i] == FingerprintOf(b).pages[i];
      }
    }
  }

  function FingerprintAt(t: Inodes, path: Path): Option<Fingerprint> { if path in t then Some(FingerprintOf(t[path])) else None }

  function StatsOf(r: Realm, rows: seq<Row>): Stats {
    if r.secret then Hidden(rows != []) else Counted(FileCount(rows), |rows| - FileCount(rows), LogicalBytes(rows))
  }

  /** The outcome of an operation on the file tree. */
  datatype Status = Committed | NoChange | Missing | Conflict | Forbidden | Locked | NotAllowed | TooLarge

  /** Commits lie in the arena, and sessions have been numbered. */
  predicate Numbered(commits: Commits, end: nat, sessions: map<SessionId, Session>, next: SessionId) {
    (forall o | o in commits :: o < end) && forall id | id in sessions :: id < next
  }

  lemma NumberedMore(commits: Commits, end: nat, more: nat, r: Root, sessions: map<SessionId, Session>, next: SessionId)
    requires Numbered(commits, end, sessions, next) && end < more
    ensures Numbered(commits, more, sessions, next) && Numbered(commits[end := r], more, sessions, next) && end !in commits
  {
  }

  lemma NumberedGrows(commits: Commits, end: nat, more: nat, sessions: map<SessionId, Session>, next: SessionId)
    requires Numbered(commits, end, sessions, next) && end <= more
    ensures Numbered(commits, more, sessions, next)
  {
  }

  /** The commits and sessions of a store, its root included, are in order. */
  ghost predicate BaseOk(sizes: Sizes, t: Trust, end: nat, commits: Commits, root: Option<Root>, offset: Option<nat>,
    sessions: map<SessionId, Session>, next: SessionId, drafts: map<SessionId, bytes>, chain: seq<Link>)
  {
    && Sane(sizes) && Asymmetric(t.localeLess) && (root.Some? <==> offset.Some?)
    && Numbered(commits, end, sessions, next)
    && (root.None? ==> sessions == map[] && drafts == map[])
    && (root.Some? ==> RootStored(t, commits, root.value, offset.value, chain))
  }

  /** Every realm of the root is stored under its key, and the sessions hold what they received. */
  ghost predicate StoredOk(recs: Recs, commits: Commits, keys: KeyRing, usedKeys: set<SymKey>, unlocked: KeyRing, root: Option<Root>, files: Contents,
    sessions: map<SessionId, Session>, drafts: map<SessionId, bytes>)
  {
    && Unlocking(unlocked, keys) && Used(keys, sessions, usedKeys)
    && (root.Some? ==> AllStored(recs, keys, root.value.state.realms, files))
    && (root.Some? ==> SessionsOk(recs, commits, keys, root.value.state.realms, sessions, drafts))
  }

  // ----- what the store has held

  /** The tree of one realm at each of some commits. */
  function TreesOf(past: seq<Contents>, id: RealmId): (trees: seq<Tree<bytes>>)
    requires forall k | 0 <= k < |past| :: id in past[k]
    ensures |trees| == |past| && forall k | 0 <= k < |past| :: trees[k] == past[k][id]
  {
    seq(|past|, k requires 0 <= k < |past| => past[k][id])
  }

  /** The same realms at every commit, and in each of them only what a commit stamped has changed. */
  ghost predicate Remembered(past: seq<Contents>, first: nat) {
    past != [] && (forall k | 0 <= k < |past| :: past[k].Keys == past[0].Keys) && forall id | id in past[0] :: StampedRun(TreesOf(past, id), first)
  }

  /** What the realm of a session held when it began is remembered, and is what its base catalog stands for while the key is the same. */
  ghost predicate Began(recs: Recs, keys: KeyRing, s: Session, past: seq<Contents>, first: nat) {
    && first <= s.baseGeneration < first + |past| && s.realmId in past[s.baseGeneration - first]
    && (SameKey(s, keys) ==> Stores(recs, VaultOf(s.baseRealm, keys), s.baseRealm.catalogPages, past[s.baseGeneration - first][s.realmId]))
  }

  ghost predicate AllBegan(recs: Recs, keys: KeyRing, sessions: map<SessionId, Session>, past: seq<Contents>, first: nat) {
    forall sid | sid in sessions :: Began(recs, keys, sessions[sid], past, first)
  }

  /** The past ends with what the store holds now, at the generation of its root. */
  ghost predicate PastOk(recs: Recs, keys: KeyRing, root: Option<Root>, files: Contents, sessions: map<SessionId, Session>, past: seq<Contents>, first: nat) {
    root.Some? ==>
      Remembered(past, first) && past[|past| - 1] == files && first + |past| - 1 == root.value.state.generation && AllBegan(recs, keys, sessions, past, first)
  }

  lemma BeganStays(recs: Recs, more: Recs, keys: KeyRing, sessions: map<SessionId, Session>, past: seq<Contents>, first: nat)
    requires recs <= more && AllBegan(recs, keys, sessions, past, first)
    ensures AllBegan(more, keys, sessions, past, first)
  {
    hide SameKey, Stores;
    forall sid | sid in sessions ensures Began(more, keys, sessions[sid], past, first) {
      var s := sessions[sid];
      assert Began(recs, keys, s, past, first);
      if SameKey(s, keys) {
        StoresStays(recs, more, VaultOf(s.baseRealm, keys), s.baseRealm.catalogPages, past[s.baseGeneration - first][s.realmId]);
      }
    }
  }

  lemma BeganLonger(recs: Recs, keys: KeyRing, sessions: map<SessionId, Session>, past: seq<Contents>, first: nat, next: Contents)
    requires AllBegan(recs, keys, sessions, past, first)
    ensures AllBegan(recs, keys, sessions, past + [next], first)
  {
    hide SameKey, Stores;
    forall sid | sid in sessions ensures Began(recs, keys, sessions[sid], past + [next], first) {
      assert Began(recs, keys, sessions[sid], past, first);
    }
  }

  lemma BeganPut(recs: Recs, keys: KeyRing, sessions: map<SessionId, Session>, past: seq<Contents>, first: nat, sid: SessionId, s: Session)
    requires AllBegan(recs, keys, sessions, past, first) && Began(recs, keys, s, past, first)
    ensures AllBegan(recs, keys, sessions[sid := s], past, first)
  {
    hide Began;
  }

  lemma BeganDrop(recs: Recs, keys: KeyRing, sessions: map<SessionId, Session>, past: seq<Contents>, first: nat, sid: SessionId)
    requires AllBegan(recs, keys, sessions, past, first)
    ensures AllBegan(recs, keys, sessions - {sid}, past, first)
  {
    hide Began;
  }

  /** One commit more. */
  lemma PastGrows(past: seq<Contents>, first: nat, next: Contents)
    requires Remembered(past, first) && next.Keys == past[0].Keys
    requires forall id | id in next :: id in past[|past| - 1] && Stamped(past[|past| - 1][id], next[id], first + |past|)
    ensures Remembered(past + [next], first)
  {
    hide Stamped, StampedRun;
    var more := past + [next];
    forall k | 0 <= k < |more| ensures more[k].Keys == more[0].Keys {
      assert k < |past| ==> past[k].Keys == past[0].Keys;
    }
    forall id | id in more[0] ensures StampedRun(TreesOf(more, id), first) {
      RunGrows(TreesOf(past, id), first, next[id]);
      assert TreesOf(more, id) == TreesOf(past, id) + [next[id]];
    }
  }

  /** Nothing stamped later than the generation of a first root. */
  ghost predicate NotNewer(files: Contents, generation: nat) { forall id | id in files :: Older(files[id], generation + 1) }

  lemma PastStarts(files: Contents, first: nat)
    requires NotNewer(files, first)
    ensures Remembered([files], first)
  {
    hide Older;
  }

  lemma PastNotNewer(past: seq<Contents>, first: nat)
    requires Remembered(past, first)
    ensures NotNewer(past[|past| - 1], first + |past| - 1)
  {
    hide Older, StampedRun;
    var last := past[|past| - 1];
    forall id | id in last ensures Older(last[id], first + |past|) {
      assert id in past[0];
      RunIsOlder(TreesOf(past, id), first, |past| - 1);
    }
  }

  /** A realm that a commit leaves alone is a stamped step too. */
  lemma OneTreeStamped(files: Contents, id: RealmId, after: Tree<bytes>, generation: nat)
    requires id in files && Stamped(files[id], after, generation)
    ensures forall x | x in files[id := after] :: x in files && Stamped(files[x], files[id := after][x], generation)
  {
  }

  lemma NothingStamped(files: Contents, generation: nat)
    ensures forall x | x in files :: Stamped(files[x], files[x], generation)
  {
  }

  lemma PastAfter(recs: Recs, more: Recs, keys: KeyRing, root: Root, files: Contents, sessions: map<SessionId, Session>, past: seq<Contents>, first: nat,
    nextRoot: Root, next: Contents)
    requires PastOk(recs, keys, Some(root), files, sessions, past, first) && recs <= more && next.Keys == files.Keys
    requires nextRoot.state.generation == root.state.generation + 1
    requires forall id | id in next :: id in files && Stamped(files[id], next[id], root.state.generation + 1)
    ensures PastOk(more, keys, Some(nextRoot), next, sessions, past + [next], first)
  {
    hide Stamped, Remembered, Began;
    assert past != [] && files.Keys == past[0].Keys by { hide Began; PastKeys(past, first); }
    PastGrows(past, first, next);
    BeganStays(recs, more, keys, sessions, past, first);
    BeganLonger(more, keys, sessions, past, first, next);
  }

  lemma PastKeys(past: seq<Contents>, first: nat)
    requires Remembered(past, first)
    ensures past != [] && forall k | 0 <= k < |past| :: past[k].Keys == past[0].Keys
  {
    hide StampedRun;
  }

  lemma PastStays(recs: Recs, more: Recs, keys: KeyRing, root: Option<Root>, files: Contents, sessions: map<SessionId, Session>, past: seq<Contents>, first: nat)
    requires PastOk(recs, keys, root, files, sessions, past, first) && recs <= more
    ensures PastOk(more, keys, root, files, sessions, past, first)
  {
    hide Remembered, AllBegan;
    if root.Some? {
      BeganStays(recs, more, keys, sessions, past, first);
    }
  }

  /** A rekeyed realm: no session of it has the new key, and the others keep theirs. */
  lemma RekeyedPast(recs: Recs, commits: Commits, keys: KeyRing, root: Root, files: Contents, sessions: map<SessionId, Session>, drafts: map<SessionId, bytes>,
    usedKeys: set<SymKey>, past: seq<Contents>, first: nat, id: RealmId, newKey: SymKey)
    requires PastOk(recs, keys, Some(root), files, sessions, past, first) && SessionsOk(recs, commits, keys, root.state.realms, sessions, drafts)
    requires Used(keys, sessions, usedKeys) && newKey !in usedKeys && id in root.state.realms && root.state.realms[id].secret
    ensures PastOk(recs, keys[id := newKey], Some(root), files, sessions, past, first)
  {
    hide Remembered, Stores, Readable;
    forall sid | sid in sessions ensures Began(recs, keys[id := newKey], sessions[sid], past, first) {
      var s := sessions[sid];
      assert Began(recs, keys, s, past, first) && SessionOk(recs, commits, keys, root.state.realms, s, drafts[sid]);
      if s.realmId != id {
        assert VaultOf(s.baseRealm, keys[id := newKey]) == VaultOf(s.baseRealm, keys);
      }
    }
  }

  lemma SessionBegins(recs: Recs, keys: KeyRing, root: Root, files: Contents, sessions: map<SessionId, Session>, past: seq<Contents>, first: nat, sid: SessionId, s: Session)
    requires PastOk(recs, keys, Some(root), files, sessions, past, first) && AllStored(recs, keys, root.state.realms, files)
    requires s.realmId in root.state.realms && s.baseRealm == root.state.realms[s.realmId] && s.baseGeneration == root.state.generation
    ensures PastOk(recs, keys, Some(root), files, sessions[sid := s], past, first)
  {
    hide Remembered, Stores, SameKey, AllBegan;
    StoredAt(recs, keys, root.state.realms, files, s.realmId);
    PastKeys(past, first);
    BeganPut(recs, keys, sessions, past, first, sid, s);
  }

  lemma SessionContinues(recs: Recs, more: Recs, keys: KeyRing, root: Option<Root>, files: Contents, sessions: map<SessionId, Session>, past: seq<Contents>, first: nat,
    sid: SessionId, s: Session)
    requires PastOk(recs, keys, root, files, sessions, past, first) && recs <= more && sid in sessions
    requires s == sessions[sid].(chunks := s.chunks, size := s.size)
    ensures PastOk(more, keys, root, files, sessions[sid := s], past, first)
  {
    hide Remembered, Stores;
    PastStays(recs, more, keys, root, files, sessions, past, first);
    if root.Some? {
      assert Began(more, keys, sessions[sid], past, first);
      BeganPut(more, keys, sessions, past, first, sid, s);
    }
  }

  lemma SessionEnds(recs: Recs, keys: KeyRing, root: Option<Root>, files: Contents, sessions: map<SessionId, Session>, past: seq<Contents>, first: nat, sid: SessionId)
    requires PastOk(recs, keys, root, files, sessions, past, first)
    ensures PastOk(recs, keys, root, files, sessions - {sid}, past, first)
  {
    hide Remembered, AllBegan;
    if root.Some? {
      BeganDrop(recs, keys, sessions, past, first, sid);
    }
  }

  /** The target of a session is there now exactly if it was there when the session began, and then it was the same entry all the time. */
  ghost predicate UnchangedSince(past: seq<Contents>, first: nat, s: Session) {
    first <= s.baseGeneration < first + |past| && (forall k | 0 <= k < |past| :: s.realmId in past[k])
    && (s.path in past[s.baseGeneration - first][s.realmId] <==> s.path in past[|past| - 1][s.realmId])
    && (s.path in past[|past| - 1][s.realmId] ==>
      forall k | s.baseGeneration - first <= k < |past| :: s.path in past[k][s.realmId] && past[k][s.realmId][s.path] == past[|past| - 1][s.realmId][s.path])
  }

  /** Catalogs with the same fingerprint of a path stand for files with the same stamp there, or for none. */
  lemma SameFingerprintSameStamp(recs: Recs, v: Vault, basePages: seq<CatalogPage>, pages: seq<CatalogPage>, base: Tree<bytes>, now: Tree<bytes>, path: Path)
    requires Stores(recs, v, basePages, base) && Stores(recs, v, pages, now)
    requires FingerprintAt(TreeOf(ListedRows(recs, v, basePages).value), path) == FingerprintAt(TreeOf(ListedRows(recs, v, pages).value), path)
    ensures path in base <==> path in now
    ensures path in now ==> base[path].modifiedGeneration == now[path].modifiedGeneration
  {
    hide ListedRows, TreeOf, DistinctPaths, FileBytes, ChunkBytes;
    if path in now {
      RepresentsAt(recs, v, TreeOf(ListedRows(recs, v, basePages).value), base, path);
      RepresentsAt(recs, v, TreeOf(ListedRows(recs, v, pages).value), now, path);
    }
  }

  lemma UnchangedTarget(past: seq<Contents>, first: nat, s: Session)
    requires Remembered(past, first) && first <= s.baseGeneration < first + |past| && s.realmId in past[s.baseGeneration - first]
    requires s.realmId in past[|past| - 1]
    requires var base, now := past[s.baseGeneration - first][s.realmId], past[|past| - 1][s.realmId];
      (s.path in base <==> s.path in now) && (s.path in now ==> base[s.path].modifiedGeneration == now[s.path].modifiedGeneration)
    ensures UnchangedSince(past, first, s)
  {
    hide Remembered;
    var id, i, j := s.realmId, s.baseGeneration - first, |past| - 1;
    PastKeys(past, first);
    assert id in past[0];
    if s.path in past[j][id] {
      forall k | i <= k <= j ensures s.path in past[k][id] && past[k][id][s.path] == past[j][id][s.path] {
        UnchangedAt(past, first, id, i, k, s.path);
      }
    }
  }

  lemma UnchangedAt(past: seq<Contents>, first: nat, id: RealmId, i: nat, k: nat, path: Path)
    requires Remembered(past, first) && i <= k < |past| && (forall m | 0 <= m < |past| :: id in past[m])
    requires path in past[i][id] && path in past[|past| - 1][id]
    requires past[i][id][path].modifiedGeneration == past[|past| - 1][id][path].modifiedGeneration
    ensures path in past[k][id] && past[k][id][path] == past[|past| - 1][id][path]
  {
    hide StampedRun;
    var trees := TreesOf(past, id);
    assert trees[i] == past[i][id] && trees[k] == past[k][id] && trees[|past| - 1] == past[|past| - 1][id];
    SameStampMeansUnchanged(trees, first, i, |past| - 1, k, path);
  }

  /** Everything of a tree fits: the chunk lists of rewritten files, the rows of the catalog, the quota; and the realm is unlocked. */
  predicate RealmFits(v: Vault, sizes: Sizes, quota: Option<nat>, rewrites: seq<Rewrite>, rows: seq<Row>) {
    MapsFit(v, sizes, rewrites) && CatalogFits(v, sizes, quota, rows)
  }

  lemma MapsAlsoFit(v: Vault, sizes: Sizes, quota: Option<nat>, rewrites: seq<Rewrite>, rows: seq<Row>)
    requires RealmFits(v, sizes, quota, rewrites, rows)
    ensures MapsFit(v, sizes, rewrites)
  {
    hide MapsFit, CatalogFits;
  }

  predicate MapsFit(v: Vault, sizes: Sizes, rewrites: seq<Rewrite>) { forall i | 0 <= i < |rewrites| :: MapFits(v, sizes, rewrites[i]) }

  /** The rows of the catalog that is to be written stand for the new tree, once the chunk lists are stored. */
  ghost predicate RowsOf(recs: Recs, v: Vault, sizes: Sizes, rewrites: seq<Rewrite>, rows: seq<Row>, after: Tree<bytes>) {
    MapsFit(v, sizes, rewrites) ==> DistinctPaths(rows) && Represents(recs, v, TreeOf(rows), [], after)
  }

  /** What fits holds no more bytes than the quota, and what does not fit for that reason alone holds more. */
  lemma QuotaKept(recs: Recs, v: Vault, sizes: Sizes, quota: nat, rewrites: seq<Rewrite>, rows: seq<Row>, after: Tree<bytes>)
    requires RowsOf(recs, v, sizes, rewrites, rows, after) && RealmFits(v, sizes, None, rewrites, rows)
    ensures RealmFits(v, sizes, Some(quota), rewrites, rows) <==> TotalSize(after) <= quota
  {
    hide Represents, TreeOf, DistinctPaths, MapFits, Unlocked, AllFit;
    ListingCounts(recs, v, rows, after);
  }

  lemma RowsStayOf(recs: Recs, more: Recs, v: Vault, sizes: Sizes, rewrites: seq<Rewrite>, rows: seq<Row>, after: Tree<bytes>)
    requires recs <= more && RowsOf(recs, v, sizes, rewrites, rows, after)
    ensures RowsOf(more, v, sizes, rewrites, rows, after)
  {
    hide Represents, TreeOf, MapFits;
    if MapsFit(v, sizes, rewrites) {
      RewritesStay(recs, more, v, TreeOf(rows), [], after);
    }
  }

  /** What reading a path of a tree of contents gives: a slice clipped at the end, or an error when it starts behind it. */
  function ReadOf(t: Tree<bytes>, path: Path, offset: nat, length: Option<nat>): Option<ReadResult> {
    if path !in t || t[path].kind != File then None
    else
      var data := t[path].content;
      Some(if offset > |data| then BadOffset else ReadResult.Bytes(data[offset..if length.None? then |data| else Min(|data|, offset + length.value)]))
  }

  /** The entry of a path is there at both times, not touched in between, or at neither. */
  predicate SameStamp(before: Tree<bytes>, after: Tree<bytes>, path: Path) {
    (path in before <==> path in after) && (path in after ==> before[path].modifiedGeneration == after[path].modifiedGeneration)
  }

  function PrintOf(recs: Recs, ring: KeyRing, r: Realm, path: Path): Option<Fingerprint> { FingerprintAt(CatalogOf(recs, VaultOf(r, ring), r), path) }

  predicate RewritesStamped(tree: Inodes, rewrites: seq<Rewrite>, generation: nat) {
    forall i | 0 <= i < |rewrites| && rewrites[i].path in tree :: tree[rewrites[i].path].modifiedGeneration == generation
  }

  lemma WrittenStamped(t: Inodes, path: Path, c: Change, size: nat, mime: Key, chunks: seq<Chunk>)
    ensures RewritesStamped(Write(t, path, c, [], size, mime, []), [Rewrite(path, chunks)], c.generation)
  {
  }

  /** A commit keeps the fingerprint of every entry that it does not touch. */
  lemma UntouchedPrint(recs: Recs, more: Recs, v: Vault, catalog: Inodes, tree: Inodes, rewrites: seq<Rewrite>, written: Inodes,
    files: Tree<bytes>, after: Tree<bytes>, generation: nat, path: Path)
    requires Represents(recs, v, catalog, [], files) && Represents(recs, v, tree, rewrites, after) && WithMaps(more, v, tree, rewrites, written)
    requires Older(files, generation) && Stamped(catalog, tree, generation) && RewritesStamped(tree, rewrites, generation) && SameStamp(files, after, path)
    ensures FingerprintAt(written, path) == FingerprintAt(catalog, path)
  {
    hide FileBytes, ChunkBytes, ListedChunks;
    if path in files {
      assert HoldsFile(recs, v, catalog[path], Rewritten([], path), files[path]);
      assert HoldsFile(recs, v, tree[path], Rewritten(rewrites, path), after[path]);
      assert tree[path] == catalog[path];
      assert forall i | 0 <= i < |rewrites| :: rewrites[i].path != path;
      NotRewritten(rewrites, path);
      assert EntryMapped(more, v, tree[path], Rewritten(rewrites, path), written[path]);
    }
  }

  /** Why a session may be committed: its actor may write, the realm is unlocked, and policy and target are those that it began with. */
  predicate MayFinish(recs: Recs, ring: KeyRing, s: Session, realm: Realm) {
    MayWrite(realm, s.actor) && (realm.secret ==> s.realmId in ring) && PolicyOf(s.baseRealm) == PolicyOf(realm)
    && ListedRows(recs, VaultOf(s.baseRealm, ring), s.baseRealm.catalogPages).Some? && ListedRows(recs, VaultOf(realm, ring), realm.catalogPages).Some?
    && PrintOf(recs, ring, s.baseRealm, s.path) == PrintOf(recs, ring, realm, s.path)
  }

  lemma CatalogStays(recs: Recs, more: Recs, ring: KeyRing, r: Realm, path: Path)
    requires recs <= more && ListedRows(recs, VaultOf(r, ring), r.catalogPages).Some?
    ensures ListedRows(more, VaultOf(r, ring), r.catalogPages).Some? && PrintOf(more, ring, r, path) == PrintOf(recs, ring, r, path)
  {
    hide TreeOf, FingerprintAt;
    RowsStay(recs, more, VaultOf(r, ring), r.catalogPages);
  }

  lemma MayFinishLater(recs: Recs, more: Recs, ring: KeyRing, s: Session, realm: Realm, next: Realm)
    requires MayFinish(recs, ring, s, realm) && recs <= more && OnlyContent(realm, next)
    requires ListedRows(more, VaultOf(next, ring), next.catalogPages).Some? && PrintOf(more, ring, next, s.path) == PrintOf(recs, ring, realm, s.path)
    ensures MayFinish(more, ring, s, next)
  {
    hide PrintOf, ListedRows, VaultOf;
    CatalogStays(recs, more, ring, s.baseRealm, s.path);
    assert next.access == realm.access;
  }

  /** What publishing edited entries of one realm leaves in the arena. */
  ghost predicate Publication(recs: Recs, more: Recs, v: Vault, realm: Realm, next: Realm, tree: Inodes, rewrites: seq<Rewrite>, rows: seq<Row>,
    files: Tree<bytes>, after: Tree<bytes>, generation: nat)
  {
    && recs <= more && OnlyContent(realm, next) && ListedRows(more, v, next.catalogPages) == Some(rows)
    && Represents(recs, v, CatalogOf(recs, v, realm), [], files) && Represents(recs, v, tree, rewrites, after) && WithMaps(more, v, tree, rewrites, TreeOf(rows))
    && Older(files, generation) && Stamped(CatalogOf(recs, v, realm), tree, generation) && RewritesStamped(tree, rewrites, generation)
  }

  lemma Published(recs: Recs, more: Recs, v: Vault, realm: Realm, next: Realm, tree: Inodes, rewrites: seq<Rewrite>, rows: seq<Row>,
    files: Tree<bytes>, after: Tree<bytes>, generation: nat)
    requires recs <= more && OnlyContent(realm, next) && ListedRows(more, v, next.catalogPages) == Some(rows)
    requires Represents(recs, v, CatalogOf(recs, v, realm), [], files) && Represents(recs, v, tree, rewrites, after) && WithMaps(more, v, tree, rewrites, TreeOf(rows))
    requires Older(files, generation) && Stamped(CatalogOf(recs, v, realm), tree, generation) && RewritesStamped(tree, rewrites, generation)
    ensures Publication(recs, more, v, realm, next, tree, rewrites, rows, files, after, generation)
  {
  }

  /** A session whose target the publication does not touch may be committed after it as it might before. */
  lemma MayFinishAfter(recs: Recs, more: Recs, ring: KeyRing, s: Session, realms: Realms, id: RealmId, next: Realm, tree: Inodes, rewrites: seq<Rewrite>, rows: seq<Row>,
    files: Contents, after: Tree<bytes>, generation: nat)
    requires id in realms && id in files && s.realmId in realms && s.realmId in files
    requires MayFinish(recs, ring, s, realms[s.realmId]) && SameStamp(files[s.realmId], files[id := after][s.realmId], s.path)
    requires Publication(recs, more, VaultOf(realms[id], ring), realms[id], next, tree, rewrites, rows, files[id], after, generation)
    ensures MayFinish(more, ring, s, realms[id := next][s.realmId])
  {
    hide Represents, WithMaps, Stamped, Older, RewritesStamped, SameStamp, MayFinish, FingerprintAt, TreeOf, ListedRows;
    var v := VaultOf(realms[id], ring);
    if s.realmId == id {
      UntouchedPrint(recs, more, v, CatalogOf(recs, v, realms[id]), tree, rewrites, TreeOf(rows), files[id], after, generation, s.path);
      SameVault(realms[id], next, ring);
      MayFinishLater(recs, more, ring, s, realms[id], next);
    } else {
      Listed(recs, ring, s, realms[s.realmId]);
      CatalogStays(recs, more, ring, realms[s.realmId], s.path);
      MayFinishLater(recs, more, ring, s, realms[s.realmId], realms[s.realmId]);
    }
  }

  /** More records, and more chunks of the session, make no difference. */
  lemma MayFinishGrown(recs: Recs, more: Recs, ring: KeyRing, s: Session, realm: Realm, next: Session)
    requires MayFinish(recs, ring, s, realm) && recs <= more && next == s.(chunks := next.chunks, size := next.size)
    ensures MayFinish(more, ring, next, realm)
  {
    hide PrintOf, ListedRows, VaultOf, MayWrite, PolicyOf;
    CatalogStays(recs, more, ring, s.baseRealm, s.path);
    CatalogStays(recs, more, ring, realm, s.path);
    assert next.actor == s.actor && next.realmId == s.realmId && next.baseRealm == s.baseRealm && next.path == s.path;
  }

  lemma Listed(recs: Recs, ring: KeyRing, s: Session, realm: Realm)
    requires MayFinish(recs, ring, s, realm)
    ensures ListedRows(recs, VaultOf(realm, ring), realm.catalogPages).Some?
  {
    hide ListedRows;
  }

  lemma SameVault(realm: Realm, next: Realm, ring: KeyRing)
    requires OnlyContent(realm, next)
    ensures VaultOf(next, ring) == VaultOf(realm, ring)
  {
    assert next.secret == realm.secret && next.id == realm.id;
  }

  /** How an edit of the tree of a realm ends: denied, without effect, refused, too large, or committed, each for its own reason only. */
  ghost predicate EditEnds(denied: Option<Status>, edit: PigTree.Edit<Tree<bytes>>, recs: Recs, v: Vault, sizes: Sizes, quota: Option<nat>, rows: seq<Row>, status: Status) {
    if denied.Some? then status == denied.value
    else if edit.Unchanged? then status == NoChange
    else if edit.Refused? then status == NotAllowed
    else RowsOf(recs, v, sizes, [], rows, edit.value) && status == if RealmFits(v, sizes, quota, [], rows) then Committed else TooLarge
  }

  ghost function Value(edit: PigTree.Edit<Tree<bytes>>): Tree<bytes> { if edit.Done? then edit.value else map[] }

  class PigFsStore {
    const log: RecordLog
    const sizes: Sizes
    const trust: Trust
    var commits: Commits
    var root: Option<Root>
    var commitOffset: Option<nat>
    var realmKeys: KeyRing
    var sessions: map<SessionId, Session>
    var nextSession: SessionId
    /** The key that each sealed realm is stored under, unlocked or not. */
    ghost var keys: KeyRing
    /** All realm keys that were ever in use. */
    ghost var usedKeys: set<SymKey>
    /** What each realm holds. */
    ghost var files: Contents
    /** What each session has received. */
    ghost var drafts: map<SessionId, bytes>
    ghost var chain: seq<Link>
    /** What the realms held at each commit since the store was opened, and the generation of the first of these. */
    ghost var past: seq<Contents>
    ghost var since: nat

    ghost predicate Base()
      reads this, log
    {
      BaseOk(sizes, trust, |log.recs|, commits, root, commitOffset, sessions, nextSession, drafts, chain)
    }

    ghost predicate Valid()
      reads this, log
    {
      && Base() && StoredOk(log.recs, commits, keys, usedKeys, realmKeys, root, files, sessions, drafts)
      && PastOk(log.recs, keys, root, files, sessions, past, since)
    }

    constructor (sizes: Sizes, trust: Trust)
      requires Sane(sizes) && Asymmetric(trust.localeLess)
      ensures Valid() && root == None && realmKeys == map[] && fresh(log) && this.sizes == sizes && this.trust == trust
    {
      var l := new RecordLog();
      log := l;
      this.sizes, this.trust := sizes, trust;
      commits, root, commitOffset, realmKeys, sessions, nextSession := map[], None, None, map[], map[], 0;
      keys, usedKeys, files, drafts, chain := map[], {}, map[], map[], [];
      past, since := [], 0;
    }

    /** `initialize`, from realm descriptors with empty catalogs and the fresh keys of the sealed ones. */
    method Initialize(admins: set<Identity>, identities: set<Identity>, realms: Realms, newKeys: KeyRing, actor: Option<Identity>) returns (ok: bool)
      requires Valid() && root.None? && realmKeys == map[] && CanSign(trust, actor) && (actor.Some? ==> actor.value in identities)
      requires forall id | id in realms :: Empty(realms[id]) && WrapsCarry(realms[id], newKeys)
      modifies this, log
      ensures Valid() && old(log.recs) <= log.recs
      ensures ok <==> DescriptorsOk(realms, identities) && (AnyShared(realms) && admins != {} ==> actor.Some? && actor.value in admins)
      ensures !ok ==> root == None
      ensures ok ==> root.Some? && root.value.state.realms == realms && root.value.state.generation == 1 && realmKeys == newKeys
      ensures ok ==> files == NoFiles(realms) && Narrow(chain)
    {
      hide Narrow, RootStored, AllStored, Infers, ValidTransition, FirstRoot, Sane, Asymmetric, DescriptorsOk, AnyShared, WrapsCarry, VaultOf, SessionsOk,
        Unlocking, Used, Numbered, RealmsOk, CanSign, NoFiles;
      var changes := InferChanges(map[], realms);
      FirstPasses(trust, admins, identities, realms, actor, changes);
      var first := FirstRoot(trust, admins, identities, realms, actor, changes);
      FirstState(trust, admins, identities, realms, actor, changes);
      ok := Validate(trust, None, first, None);
      if ok {
        EmptyRealms(log.recs, newKeys, realms);
        FreshRing(newKeys);
        NoStamps(realms);
        Install(first, newKeys, newKeys, NoFiles(realms));
      }
    }

    /** The first commit. */
    method Install(first: Root, unlocked: KeyRing, ghost nextKeys: KeyRing, ghost nextFiles: Contents)
      requires Valid() && root.None? && ValidTransition(trust, None, first, None)
      requires AllStored(log.recs, nextKeys, first.state.realms, nextFiles) && Unlocking(unlocked, nextKeys)
      requires NotNewer(nextFiles, first.state.generation)
      modifies this`root, this`commitOffset, this`commits, this`keys, this`files, this`chain, this`past, this`since, this`realmKeys, this`usedKeys, log
      ensures Valid() && old(log.recs) <= log.recs && root == Some(first) && realmKeys == unlocked && keys == nextKeys && files == nextFiles
      ensures Narrow(chain)
    {
      hide Narrow, BaseOk, StoredOk, AllStored, ValidTransition, Unlocking, NotNewer, Remembered, Began;
      ghost var before := log.recs;
      assert sessions == map[] by { NoRootNoSessions(); }
      PastStarts(nextFiles, first.state.generation);
      var at := log.Append(OtherRec);
      ghost var firstChain, used := Installed(sizes, trust, before, log.recs, commits, sessions, nextSession, drafts, chain, usedKeys, keys, realmKeys, files,
        commitOffset, first, at, unlocked, nextKeys, nextFiles);
      commits, root, commitOffset, realmKeys := commits[at := first], Some(first), Some(at), unlocked;
      keys, files, chain, usedKeys := nextKeys, nextFiles, firstChain, used;
      past, since := [nextFiles], first.state.generation;
    }

    lemma NoRootNoSessions()
      requires Valid() && root.None?
      ensures sessions == map[]
    {
      hide Sane, Asymmetric, Numbered, StoredOk;
    }

    /** `publishStandaloneRoot`: a first root without history over realms that are already stored, with a given generation. */
    method PublishStandaloneRoot(state: State, unlocked: KeyRing, ghost nextKeys: KeyRing, ghost nextFiles: Contents) returns (ok: bool)
      requires Valid() && root.None? && AllStored(log.recs, nextKeys, state.realms, nextFiles) && Unlocking(unlocked, nextKeys)
      requires NotNewer(nextFiles, Standalone(state).generation)
      modifies this`root, this`commitOffset, this`commits, this`keys, this`files, this`chain, this`past, this`since, this`realmKeys, this`usedKeys, log
      ensures Valid() && old(log.recs) <= log.recs
      ensures ok <==> RealmsOk(state) && !AnyShared(state.realms)
      ensures !ok ==> root.None?
      ensures ok ==> root.Some? && root.value.state == Standalone(state) && files == nextFiles && keys == nextKeys && realmKeys == unlocked && Narrow(chain)
    {
      hide Narrow, RootStored, AllStored, ValidTransition, Sane, Asymmetric, SessionsOk, Unlocking, Used, Numbered, RealmsOk, AnyShared;
      var next := StandaloneRoot(trust, state);
      StandalonePasses(trust, state);
      ok := Validate(trust, None, next, None);
      if ok {
        Install(next, unlocked, nextKeys, nextFiles);
      }
    }

    /** `commitRoot`, whatever the realms hold: publishes them when validation lets them pass, and otherwise changes nothing. */
    method CommitState(realms: Realms, extra: set<Identity>, actor: Option<Identity>) returns (ok: bool, ghost changes: seq<RealmChange>)
      requires Base() && root.Some? && CanSign(trust, actor) && SameShape(root.value.state.realms, realms)
      modifies this`root, this`commitOffset, this`commits, this`chain, log
      ensures Base() && root.Some? && old(log.recs) <= log.recs
      ensures Infers(changes, old(root.value.state.realms), realms)
      ensures ok <==> Acceptable(trust, old(root.value), realms, extra, actor, changes)
      ensures !ok ==> root == old(root) && commitOffset == old(commitOffset) && commits == old(commits) && chain == old(chain) && log.recs == old(log.recs)
      ensures ok ==> root.value == NextRoot(trust, old(root.value), old(commitOffset.value), realms, extra, actor, changes)
      ensures ok ==> root.value.state.realms == realms && root.value.state.generation == old(root.value.state.generation) + 1
      ensures ok ==> commitOffset == Some(|old(log.recs)|) && forall o | o in old(commits) :: o in commits && commits[o] == old(commits)[o]
      ensures Narrow(old(chain)) && |changes| <= 1 ==> Narrow(chain)
    {
      hide Narrow, Declared, RootStored, WellFormed, Infers, ValidTransition, NextRoot, Acceptable, Sane, Asymmetric, SameShape, AnyShared, Numbered;
      CurrentRoot(trust, commits, root.value, commitOffset.value, chain);
      var parent, offset := root.value, commitOffset.value;
      var inferred := InferChanges(parent.state.realms, realms);
      changes := inferred;
      ShapeKeepsSharing(parent.state.realms, realms);
      CommitPasses(trust, parent, offset, realms, extra, actor, inferred);
      var next := NextRoot(trust, parent, offset, realms, extra, actor, inferred);
      ok := Validate(trust, LinkedParent(parent, realms), next, LinkedOffset(offset, realms));
      if ok {
        NextState(trust, parent, offset, realms, extra, actor, inferred);
        Publish(next);
      }
    }

    /** The publishing half of `commitRoot`: one COMMIT record, then the new root is the current one. */
    method Publish(next: Root)
      requires Base() && root.Some? && AnyShared(next.state.realms) == AnyShared(root.value.state.realms)
      requires next.state.previousOffset == LinkedOffset(commitOffset.value, next.state.realms)
      requires next.state.history == if AnyShared(next.state.realms) then Integrity else NoHistory
      requires ValidTransition(trust, LinkedParent(root.value, next.state.realms), next, LinkedOffset(commitOffset.value, next.state.realms))
      requires AnyShared(next.state.realms) ==> Infers(Declared(next), root.value.state.realms, next.state.realms)
      modifies this`root, this`commitOffset, this`commits, this`chain, log
      ensures Base() && root == Some(next) && old(log.recs) <= log.recs && commitOffset == Some(|old(log.recs)|)
      ensures forall o | o in old(commits) :: o in commits && commits[o] == old(commits)[o]
      ensures Narrow(old(chain)) && |Declared(next)| <= 1 ==> Narrow(chain)
    {
      hide RootStored, ValidTransition, Sane, Asymmetric, AnyShared, Numbered, Infers, Declared, Narrow;
      var at := log.Append(OtherRec);
      NumberedMore(commits, at, |log.recs|, next, sessions, nextSession);
      CommitsGrow(commits, at, next);
      chain := Extended(trust, commits, root.value, commitOffset.value, chain, next, at);
      commits, root, commitOffset := commits[at := next], Some(next), Some(at);
    }

    /** `commitRoot`: publishes new realms when validation lets them pass, and otherwise changes nothing. */
    method CommitRoot(realms: Realms, extra: set<Identity>, actor: Option<Identity>, ghost nextKeys: KeyRing, ghost nextFiles: Contents)
      returns (ok: bool, ghost changes: seq<RealmChange>)
      requires Base() && root.Some? && CanSign(trust, actor) && SameShape(root.value.state.realms, realms)
      requires AllStored(log.recs, nextKeys, realms, nextFiles)
      requires SessionsOk(log.recs, commits, nextKeys, realms, sessions, drafts)
      modifies this`root, this`commitOffset, this`commits, this`keys, this`files, this`chain, this`past, log
      ensures Base() && root.Some? && old(log.recs) <= log.recs
      ensures Infers(changes, old(root.value.state.realms), realms)
      ensures ok <==> Acceptable(trust, old(root.value), realms, extra, actor, changes)
      ensures !ok ==> root == old(root) && commitOffset == old(commitOffset) && commits == old(commits) && keys == old(keys) && files == old(files) && chain == old(chain) && past == old(past)
      ensures !ok ==> log.recs == old(log.recs)
      ensures ok ==> root.value == NextRoot(trust, old(root.value), old(commitOffset.value), realms, extra, actor, changes) && keys == nextKeys && files == nextFiles
      ensures ok ==> root.value.state.realms == realms && root.value.state.generation == old(root.value.state.generation) + 1
      ensures ok ==> AllStored(log.recs, keys, realms, files) && SessionsOk(log.recs, commits, keys, realms, sessions, drafts)
      ensures ok ==> commitOffset == Some(|old(log.recs)|) && past == old(past) + [nextFiles]
      ensures Narrow(old(chain)) && |changes| <= 1 ==> Narrow(chain)
    {
      hide Narrow, BaseOk, AllStored, SessionsOk, Infers, NextRoot, Acceptable, SameShape, CanSign;
      ghost var before, others := log.recs, commits;
      ok, changes := CommitState(realms, extra, actor);
      if ok {
        AllStoredStays(before, log.recs, nextKeys, realms, nextFiles);
        SessionsStay(before, log.recs, others, commits, nextKeys, realms, sessions, drafts);
        keys, files, past := nextKeys, nextFiles, past + [nextFiles];
      }
    }

    /** The realm with this id, when there is one. */
    predicate HasRealm(id: RealmId)
      reads this
    {
      root.Some? && id in root.value.state.realms
    }

    function RealmAt(id: RealmId): Realm
      reads this
      requires HasRealm(id)
    {
      root.value.state.realms[id]
    }

    /** `assertWriter`: allowed to write, and unlocked if the realm is sealed. */
    function WriterStatus(id: RealmId, actor: Option<Identity>): (s: Option<Status>)
      reads this
      requires HasRealm(id)
      ensures s.None? <==> MayWrite(RealmAt(id), actor) && (RealmAt(id).secret ==> id in realmKeys)
      ensures s.Some? ==> (s.value == Forbidden <==> !MayWrite(RealmAt(id), actor)) && s.value in {Forbidden, Locked}
    {
      if !MayWrite(RealmAt(id), actor) then Some(Forbidden)
      else if RealmAt(id).secret && id !in realmKeys then Some(Locked)
      else None
    }

    /** `currentCatalog` of an unlocked realm stands for the files it holds. */
    method CurrentCatalog(id: RealmId) returns (tree: Option<Inodes>)
      requires Valid() && HasRealm(id)
      ensures !RealmAt(id).secret || id in realmKeys ==> id in files && tree.Some?
      ensures tree.Some? ==> tree.value == CatalogOf(log.recs, VaultOf(RealmAt(id), realmKeys), RealmAt(id))
      ensures !RealmAt(id).secret || id in realmKeys ==> Represents(log.recs, VaultOf(RealmAt(id), keys), tree.value, [], files[id])
      ensures VaultOf(RealmAt(id), realmKeys) == VaultOf(RealmAt(id), keys) || (RealmAt(id).secret && id !in realmKeys)
    {
      hide RootStored, Sane, Asymmetric, SessionsOk, Used, Numbered, Represents, ListedRows, TreeOf, WrapsCarry;
      var realm := root.value.state.realms[id];
      RealmIds(trust, commits, root.value, commitOffset.value, chain, id);
      tree := LoadCatalog(log.recs, VaultOf(realm, realmKeys), realm.catalogPages);
      assert RealmStored(log.recs, keys, realm, files[id]);
    }

    /** What is about to be written stands for this tree of contents, which only a commit of the next generation has touched. */
    ghost predicate Describes(id: RealmId, tree: Inodes, rewrites: seq<Rewrite>, after: Tree<bytes>)
      reads this, log
      requires HasRealm(id) && id in files
    {
      Represents(log.recs, VaultOf(RealmAt(id), keys), tree, rewrites, after) && Stamped(files[id], after, root.value.state.generation + 1)
    }

    /**
     Writes any edited catalog and publishes it, exactly if it fits: the catalog of the realm then lists exactly these entries, and no other
     realm changes. If they stand for a tree of contents, that is what the realm holds.
     */
    method PublishBuilt(id: RealmId, tree: Inodes, rewrites: seq<Rewrite>, actor: Option<Identity>, ghost after: Tree<bytes>)
      returns (ok: bool, rows: seq<Row>)
      requires Valid() && HasRealm(id) && id in files && WriterStatus(id, actor) == None && CanSign(trust, actor) && RewritesOk(tree, rewrites)
      modifies this`root, this`commitOffset, this`commits, this`files, this`chain, this`past, log
      ensures Base() && root.Some? && old(log.recs) <= log.recs
      ensures !ok ==> Valid() && root == old(root) && files == old(files) && commitOffset == old(commitOffset) && commits == old(commits) && past == old(past)
      ensures ok <==> RealmFits(old(VaultOf(RealmAt(id), keys)), sizes, old(RealmAt(id).quota), rewrites, rows)
      ensures MapsFit(old(VaultOf(RealmAt(id), keys)), sizes, rewrites) ==>
        WithMaps(log.recs, old(VaultOf(RealmAt(id), keys)), tree, rewrites, TreeOf(rows)) && DistinctPaths(rows)
      ensures ok ==> root.value.state.generation == old(root.value.state.generation) + 1
      ensures ok ==> HasRealm(id) && OnlyContent(old(RealmAt(id)), RealmAt(id)) && root.value.state.realms == old(root.value.state.realms)[id := RealmAt(id)]
      ensures ok ==> ListedRows(log.recs, old(VaultOf(RealmAt(id), keys)), RealmAt(id).catalogPages) == Some(rows) && DistinctPaths(rows)
      ensures ok && old(Describes(id, tree, rewrites, after)) ==> Valid() && files == old(files)[id := after] && past == old(past) + [files]
      ensures Narrow(old(chain)) ==> Narrow(chain)
    {
      hide Narrow, BaseOk, StoredOk, AllStored, SessionsOk, Represents, RewritesOk, MayWrite, CanSign, RealmOk, WellFormed, MapFits, CatalogFits, Stamped, PastOk,
        TreeOf, Stores, ListedRows, WithMaps, DistinctPaths, StatsMatch;
      var realm := RealmAt(id);
      ghost var before, good := log.recs, Describes(id, tree, rewrites, after);
      Parts(id);
      var pages, listed := WriteRows(log, VaultOf(realm, realmKeys), sizes, id, realm.quota, root.value.state.generation + 1, tree, rewrites);
      rows := listed;
      ghost var v, written := VaultOf(realm, keys), log.recs;
      ArenaGrew(before);
      ok := false;
      if pages.Some? {
        ok := true;
        var next := realm.(catalogPages := pages.value, stats := StatsOf(realm, listed));
        if good {
          BuiltStores(before, written, v, tree, rewrites, pages.value, rows, after, realm);
        }
        PublishContent(id, next, actor, after);
        MapsStay(written, log.recs, v, tree, rewrites, TreeOf(rows));
        RowsStay(written, log.recs, v, pages.value);
      }
    }

    /** Writes an edited catalog that stands for a tree of contents, exactly if it fits: the realm then holds exactly that, and nothing else changes. */
    method PublishTree(id: RealmId, tree: Inodes, rewrites: seq<Rewrite>, actor: Option<Identity>, ghost after: Tree<bytes>)
      returns (ok: bool, ghost rows: seq<Row>)
      requires Valid() && HasRealm(id) && id in files && WriterStatus(id, actor) == None && CanSign(trust, actor)
      requires RewritesOk(tree, rewrites) && Represents(log.recs, VaultOf(RealmAt(id), keys), tree, rewrites, after)
      requires Stamped(files[id], after, root.value.state.generation + 1)
      requires Stamped(CatalogOf(log.recs, VaultOf(RealmAt(id), realmKeys), RealmAt(id)), tree, root.value.state.generation + 1)
      requires RewritesStamped(tree, rewrites, root.value.state.generation + 1)
      modifies this`root, this`commitOffset, this`commits, this`files, this`chain, this`past, log
      ensures Valid() && root.Some? && old(log.recs) <= log.recs
      ensures ok ==> forall x | x in sessions && old(Clear(x)) && SameStamp(old(files)[sessions[x].realmId], files[sessions[x].realmId], sessions[x].path) :: Clear(x)
      ensures !ok ==> root == old(root) && files == old(files) && commitOffset == old(commitOffset) && commits == old(commits) && past == old(past)
      ensures ok <==> RealmFits(old(VaultOf(RealmAt(id), keys)), sizes, old(RealmAt(id).quota), rewrites, rows)
      ensures RowsOf(log.recs, old(VaultOf(RealmAt(id), keys)), sizes, rewrites, rows, after)
      ensures ok ==> files == old(files)[id := after] && root.value.state.generation == old(root.value.state.generation) + 1
      ensures ok ==> HasRealm(id) && OnlyContent(old(RealmAt(id)), RealmAt(id)) && root.value.state.realms == old(root.value.state.realms)[id := RealmAt(id)]
      ensures ok ==> past == old(past) + [files]
      ensures Narrow(old(chain)) ==> Narrow(chain)
    {
      hide Publication, MayFinish, Clashes, SameStamp, RewritesStamped, CatalogOf, Older, Narrow, BaseOk, StoredOk, Represents, RewritesOk, MayWrite, CanSign,
        PastOk, Stamped, TreeOf, ListedRows, WithMaps, RealmFits, MapsFit, OnlyContent, VaultOf;
      ghost var before, v, was := log.recs, VaultOf(RealmAt(id), keys), root.value;
      ghost var clear := AllClear();
      ghost var held, ring := files, realmKeys;
      Standing(id);
      var listed;
      ok, listed := PublishBuilt(id, tree, rewrites, actor, after);
      rows := listed;
      BuiltRows(before, log.recs, v, sizes, tree, rewrites, rows, after);
      if ok {
        HasOffset();
        MapsAlsoFit(v, sizes, was.state.realms[id].quota, rewrites, rows);
        Published(before, log.recs, v, was.state.realms[id], RealmAt(id), tree, rewrites, rows, held[id], after, was.state.generation + 1);
        forall x | x in clear && SameStamp(held[sessions[x].realmId], files[sessions[x].realmId], sessions[x].path) ensures Clear(x) {
          MayFinishAfter(before, log.recs, ring, sessions[x], was.state.realms, id, RealmAt(id), tree, rewrites, rows, held, after, was.state.generation + 1);
          ClearAgain(x);
        }
      }
    }

    lemma HasOffset()
      requires Base() && root.Some?
      ensures commitOffset.Some?
    {
      hide RootStored;
    }

    /** The catalog of an unlocked realm stands for what it holds, and nothing in it is newer than the root. */
    lemma Standing(id: RealmId)
      requires Valid() && HasRealm(id) && id in files && (RealmAt(id).secret ==> id in realmKeys)
      ensures var v := VaultOf(RealmAt(id), realmKeys);
        v == VaultOf(RealmAt(id), keys) && Represents(log.recs, v, CatalogOf(log.recs, v, RealmAt(id)), [], files[id])
      ensures Older(files[id], root.value.state.generation + 1)
    {
      hide BaseOk, StoredOk, AllStored, Represents, ListedRows, TreeOf, WellFormed, RealmOk, WrapsCarry, Unlocking, Used, SessionsOk, Older, AllBegan, Remembered;
      Parts(id);
      StoredAt(log.recs, keys, root.value.state.realms, files, id);
      StoresCatalog(log.recs, VaultOf(RealmAt(id), keys), RealmAt(id), files[id]);
      PastNotNewer(past, since);
    }

    /** Publishes new contents of one realm; its policy stays. A permitted write is never refused. */
    method PublishContent(id: RealmId, next: Realm, actor: Option<Identity>, ghost after: Tree<bytes>)
      requires Valid() && HasRealm(id) && id in files && WriterStatus(id, actor) == None && CanSign(trust, actor)
      requires next == RealmAt(id).(catalogPages := next.catalogPages, stats := next.stats)
      requires forall i | 0 <= i < |next.catalogPages| :: next.catalogPages[i].aad.Some? <==> next.secret
      modifies this`root, this`commitOffset, this`commits, this`files, this`chain, this`past, log
      ensures Base() && root.Some? && old(log.recs) <= log.recs
      ensures root.value.state.generation == old(root.value.state.generation) + 1
      ensures HasRealm(id) && RealmAt(id) == next && root.value.state.realms == old(root.value.state.realms)[id := next]
      ensures old(Holds(id, next, after)) ==> Valid() && files == old(files)[id := after] && past == old(past) + [files]
      ensures Narrow(old(chain)) ==> Narrow(chain)
    {
      hide Narrow, BaseOk, StoredOk, AllStored, SessionsOk, Infers, Acceptable, NextRoot, MayWrite, CanSign, SameShape, RealmOk, WellFormed, Stamped, PastOk,
        Stores, StatsMatch;
      var realm, parent := RealmAt(id), root.value;
      ghost var before, others, good := log.recs, commits, Holds(id, next, after);
      Parts(id);
      var realms := parent.state.realms[id := next];
      ShapeAfter(parent.state.realms, id, next);
      var ok;
      ghost var changes;
      ok, changes := CommitState(realms, {}, actor);
      OneRealmDeclared(changes, parent.state.realms, id, next);
      PagesAfter(realm, next);
      PermittedWritePasses(trust, parent, realms, id, actor, changes);
      if good {
        AfterContent(before, log.recs, others, commits, keys, parent, root.value, files, sessions, drafts, past, since, id, next, after);
        files := files[id := after];
        past := past + [files];
        Whole();
      }
    }

    /** A realm with this catalog holds this tree, which only a commit of the next generation has touched. */
    ghost predicate Holds(id: RealmId, next: Realm, after: Tree<bytes>)
      reads this, log
      requires HasRealm(id) && id in files
    {
      Stores(log.recs, VaultOf(RealmAt(id), keys), next.catalogPages, after) && StatsMatch(next, after)
      && Stamped(files[id], after, root.value.state.generation + 1)
    }

    /** A new root over the same realms. */
    method PublishUnchanged(actor: Option<Identity>)
      requires Valid() && root.Some? && CanSign(trust, actor)
      modifies this`root, this`commitOffset, this`commits, this`keys, this`files, this`chain, this`past, log
      ensures Valid() && root.Some? && old(log.recs) <= log.recs && keys == old(keys) && files == old(files) && past == old(past) + [files]
      ensures root.value.state.realms == old(root.value.state.realms) && root.value.state.generation == old(root.value.state.generation) + 1
      ensures Narrow(old(chain)) ==> Narrow(chain)
    {
      hide Narrow, RootStored, AllStored, Sane, Asymmetric, SessionsOk, Used, Unlocking, Numbered, Infers, Acceptable, NextRoot, CanSign, PastOk, Stamped, WellFormed;
      var parent := root.value;
      CurrentRoot(trust, commits, parent, commitOffset.value, chain);
      assert SameShape(parent.state.realms, parent.state.realms);
      var ok;
      ghost var changes;
      ok, changes := CommitRoot(parent.state.realms, {}, actor, keys, files);
      NothingDeclared(changes, parent.state.realms);
      UnchangedPasses(trust, parent, actor, changes);
      NothingStamped(files, parent.state.generation + 1);
      PastAfter(old(log.recs), log.recs, keys, parent, files, sessions, old(past), since, root.value, files);
    }

    /**
     What this store has published is verified on a machine with any other locale exactly if that orders the realms of each commit as code
     units do; and always if no commit changed more than one realm, which every operation here but `CommitRoot` keeps.
     */
    lemma VerifiedElsewhere(less: (Key, Key) -> bool)
      requires Valid() && root.Some? && root.value.state.history.Integrity? && Asymmetric(less)
      ensures LinksTo(commits, chain, commitOffset.value)
      ensures ValidChain(Elsewhere(trust, less), chain) <==> forall i | 0 < i < |chain| :: InLocaleOrder(less, Declared(chain[i].root))
      ensures Narrow(chain) ==> ValidChain(Elsewhere(trust, less), chain)
    {
      hide RootStored, Sane, Asymmetric, Numbered, StoredOk, PastOk, LinksTo, ValidChain, Narrow, InLocaleOrder, Declared;
      StoredChain(trust, less, commits, root.value, commitOffset.value, chain);
    }

    /** The parts of validity, for a realm of the root. */
    lemma Parts(id: RealmId)
      requires Valid() && HasRealm(id)
      ensures Sane(sizes) && root.Some? && commitOffset.Some? && WellFormed(trust, root.value) && Unlocking(realmKeys, keys) && Used(keys, sessions, usedKeys)
      ensures AllStored(log.recs, keys, root.value.state.realms, files) && SessionsOk(log.recs, commits, keys, root.value.state.realms, sessions, drafts)
      ensures RealmAt(id).id == id && RealmOk(RealmAt(id), root.value.state.identities) && WrapsCarry(RealmAt(id), keys)
      ensures id in realmKeys ==> VaultOf(RealmAt(id), realmKeys) == VaultOf(RealmAt(id), keys)
      ensures !RealmAt(id).secret ==> VaultOf(RealmAt(id), realmKeys) == VaultOf(RealmAt(id), keys)
      ensures PastOk(log.recs, keys, root, files, sessions, past, since) && root.value.state.realms.Keys == files.Keys
    {
      hide RootStored, RealmStored, Sane, Asymmetric, SessionsOk, Used, Numbered, RealmOk, WrapsCarry, PastOk;
      RealmIds(trust, commits, root.value, commitOffset.value, chain, id);
      CurrentRoot(trust, commits, root.value, commitOffset.value, chain);
      StoredWraps(log.recs, keys, root.value.state.realms, files, id);
    }

    /** And the whole again. */
    lemma Whole()
      requires Base() && root.Some? && Unlocking(realmKeys, keys) && Used(keys, sessions, usedKeys)
      requires AllStored(log.recs, keys, root.value.state.realms, files) && SessionsOk(log.recs, commits, keys, root.value.state.realms, sessions, drafts)
      requires PastOk(log.recs, keys, root, files, sessions, past, since)
      ensures Valid()
    {
      hide BaseOk, AllStored, SessionsOk, Used, Unlocking, PastOk;
    }

    // ----- streaming writes

    /** `beginWrite`. */
    method BeginWrite(id: RealmId, path: Path, actor: Option<Identity>, mime: Key) returns (status: Status, sid: SessionId)
      requires Valid()
      modifies this`sessions, this`nextSession, this`drafts
      ensures Valid()
      ensures status == if !HasRealm(id) then Missing else if WriterStatus(id, actor).Some? then WriterStatus(id, actor).value else Committed
      ensures status != Committed ==> sessions == old(sessions) && drafts == old(drafts)
      ensures status == Committed ==> sid !in old(sessions) && drafts == old(drafts)[sid := []]
      ensures status == Committed ==> sessions == old(sessions)[sid :=
        Session(id, path, actor, mime, [], 0, commitOffset.value, root.value.commitHash, root.value.state.generation, RealmAt(id))]
      ensures status == Committed ==> Clear(sid)
      ensures forall x | x in old(sessions) && old(Clear(x)) :: Clear(x)
    {
      hide Clashes, MayFinish, RootStored, Sane, Asymmetric, Used, Numbered, WrapsCarry, Stores, MayWrite, Unlocking, ListedRows, AllStored, SessionsOk,
        Remembered, Began;
      sid := nextSession;
      if root.None? || id !in root.value.state.realms {
        return Missing, sid;
      }
      var denied := WriterStatus(id, actor);
      if denied.Some? {
        return denied.value, sid;
      }
      var s := Session(id, path, actor, mime, [], 0, commitOffset.value, root.value.commitHash, root.value.state.generation, root.value.state.realms[id]);
      RootFacts(trust, commits, root.value, commitOffset.value, chain, id);
      NewSession(log.recs, commits, keys, root.value, commitOffset.value, files, s, sessions, drafts, nextSession);
      NumberedNext(commits, |log.recs|, sessions, nextSession, s);
      StoredWraps(log.recs, keys, root.value.state.realms, files, id);
      UsedPut(keys, sessions, usedKeys, nextSession, s);
      SessionBegins(log.recs, keys, root.value, files, sessions, past, since, nextSession, s);
      ghost var clear := AllClear();
      FilesOf(log.recs, keys, root.value.state.realms, files, id);
      MayFinishNew(s);
      sessions := sessions[nextSession := s];
      drafts := drafts[nextSession := []];
      nextSession := nextSession + 1;
      forall x | x in clear + {sid} ensures Clear(x) {
        ClearAgain(x);
      }
      return Committed, sid;
    }

    lemma MayFinishNew(s: Session)
      requires Valid() && HasRealm(s.realmId) && WriterStatus(s.realmId, s.actor).None? && s.baseRealm == RealmAt(s.realmId) && s.realmId in files
      ensures MayFinish(log.recs, realmKeys, s, RealmAt(s.realmId))
    {
      hide BaseOk, StoredOk, PastOk, AllStored, ListedRows, FingerprintAt, TreeOf, MayWrite, Stores, WrapsCarry, RealmOk, WellFormed, Unlocking, Used, SessionsOk;
      Parts(s.realmId);
      StoredAt(log.recs, keys, root.value.state.realms, files, s.realmId);
      StoresCatalog(log.recs, VaultOf(RealmAt(s.realmId), keys), RealmAt(s.realmId), files[s.realmId]);
    }

    /** `writeChunk`: the bytes go into the arena, sealed under the current key if the realm is sealed, and the session has grown by them. */
    method WriteChunk(sid: SessionId, bytes: bytes) returns (ok: bool)
      requires Valid()
      modifies this`sessions, this`drafts, log
      ensures Valid() && old(log.recs) <= log.recs
      ensures ok <==> sid in old(sessions) && |bytes| <= Records.MAX_PAYLOAD && old(CanSeal(sessions[sid].realmId))
      ensures !ok ==> sessions == old(sessions) && drafts == old(drafts)
      ensures ok ==> drafts == old(drafts)[sid := old(drafts)[sid] + bytes]
      ensures ok ==> sid in sessions && sessions == old(sessions)[sid := sessions[sid]]
      ensures ok ==> sessions[sid] == old(sessions)[sid].(chunks := sessions[sid].chunks, size := old(sessions)[sid].size + |bytes|)
      ensures ok ==> var s := old(sessions)[sid];
        var aad := AadOf(VaultOf(old(RealmAt(s.realmId)), realmKeys), Aad(DataAad, s.realmId, s.baseGeneration + 1, s.path, |s.chunks|));
        sessions[sid].chunks == s.chunks + [Chunk(s.size, |bytes|, |old(log.recs)|, aad)]
      ensures forall x | x in sessions && old(Clear(x)) :: Clear(x)
    {
      hide RealmOk, WellFormed, Clashes, MayFinish, RootStored, Sane, Asymmetric, Used, WrapsCarry, Stores, MayWrite, ListedRows, AllStored, SessionOk, Numbered, PastOk;
      if sid !in sessions || |bytes| > Records.MAX_PAYLOAD || !CanSeal(sessions[sid].realmId) {
        return false;
      }
      var s := sessions[sid];
      SessionRealm(log.recs, commits, keys, root.value.state.realms, s, drafts[sid]);
      var realm := root.value.state.realms[s.realmId];
      RealmIds(trust, commits, root.value, commitOffset.value, chain, s.realmId);
      var v := VaultOf(realm, realmKeys);
      var aad := Aad(DataAad, s.realmId, s.baseGeneration + 1, s.path, |s.chunks|);
      ghost var before, others := log.recs, sessions;
      ghost var clear := AllClear();
      var offset := log.Append(DataRec(Seal(v, aad, bytes)));
      var chunk := Chunk(s.size, |bytes|, offset, AadOf(v, aad));
      var next := s.(chunks := s.chunks + [chunk], size := s.size + |bytes|);
      AllStoredStays(before, log.recs, keys, root.value.state.realms, files);
      SessionsStay(before, log.recs, commits, commits, keys, root.value.state.realms, sessions, drafts);
      ChunkAdded(before, v, aad, bytes, s, chunk, log.recs, commits, keys, root.value.state.realms, drafts[sid]);
      NumberedChanged(commits, |before|, |log.recs|, sessions, nextSession, sid, next);
      PutSession(log.recs, commits, keys, root.value.state.realms, sessions, drafts, sid, next, drafts[sid] + bytes);
      UsedPut(keys, sessions, usedKeys, sid, next);
      SessionContinues(before, log.recs, keys, root, files, sessions, past, since, sid, next);
      sessions := sessions[sid := next];
      drafts := drafts[sid := drafts[sid] + bytes];
      forall x | x in clear ensures Clear(x) {
        MayFinishGrown(before, log.recs, realmKeys, others[x], RealmAt(others[x].realmId), sessions[x]);
        ClearAgain(x);
      }
      return true;
    }

    /** A chunk for this realm can be stored: it is open, or its key is at hand. */
    predicate CanSeal(id: RealmId)
      reads this
    {
      HasRealm(id) && (RealmAt(id).secret ==> id in realmKeys)
    }

    /** `abortWrite`. */
    method AbortWrite(sid: SessionId) returns (existed: bool)
      requires Valid()
      modifies this`sessions, this`drafts
      ensures Valid() && (existed <==> sid in old(sessions)) && sessions == old(sessions) - {sid} && drafts == old(drafts) - {sid}
      ensures forall x | x in sessions && old(Clear(x)) :: Clear(x)
    {
      hide RootStored, Sane, Asymmetric, Used, AllStored, SessionOk, Numbered, Unlocking, Remembered, Began, MayFinish, Clashes;
      existed := sid in sessions;
      ghost var clear := AllClear();
      if root.Some? {
        DropSession(log.recs, commits, keys, root.value.state.realms, sessions, drafts, sid);
      } else {
        assert sessions - {sid} == sessions && drafts - {sid} == drafts;
      }
      NumberedFewer(commits, |log.recs|, sessions, nextSession, sid);
      UsedFewer(keys, sessions, usedKeys, sid);
      SessionEnds(log.recs, keys, root, files, sessions, past, since, sid);
      sessions, drafts := sessions - {sid}, drafts - {sid};
      forall x | x in sessions && x in clear ensures Clear(x) {
        ClearAgain(x);
      }
    }

    /** Another commit was published since the session began. */
    predicate Overtaken(s: Session)
      reads this
      requires root.Some? && commitOffset.Some?
    {
      s.baseHash != root.value.commitHash || s.baseOffset != commitOffset.value
    }

    /** The realm policy or the target itself changed under an overtaken session. */
    predicate Clashes(s: Session)
      reads this, log
      requires HasRealm(s.realmId) && commitOffset.Some?
    {
      Overtaken(s)
      && (PolicyOf(s.baseRealm) != PolicyOf(RealmAt(s.realmId))
        || FingerprintAt(CatalogOf(log.recs, VaultOf(s.baseRealm, realmKeys), s.baseRealm), s.path)
          != FingerprintAt(CatalogOf(log.recs, VaultOf(RealmAt(s.realmId), realmKeys), RealmAt(s.realmId)), s.path))
    }

    /** The session could be committed now, but for want of room. */
    ghost predicate Clear(sid: SessionId)
      reads this, log
    {
      sid in sessions && commitOffset.Some?
      && var s := sessions[sid];
        HasRealm(s.realmId) && s.realmId in files && WriterStatus(s.realmId, s.actor).None? && !Clashes(s)
    }

    lemma ClearNow(sid: SessionId)
      requires Valid() && Clear(sid)
      ensures MayFinish(log.recs, realmKeys, sessions[sid], RealmAt(sessions[sid].realmId))
    {
      hide RootStored, Sane, Asymmetric, Used, SessionOk, Numbered, MayWrite, FingerprintAt, ListedRows, TreeOf, Remembered, Stores, WrapsCarry, RealmOk, RealmStored,
        SameKey, PolicyOf, AllBegan;
      var s := sessions[sid];
      var id, realm := s.realmId, RealmAt(s.realmId);
      Parts(id);
      SessionAt(log.recs, commits, keys, root.value.state.realms, sessions, drafts, sid);
      CurrentRoot(trust, commits, root.value, commitOffset.value, chain);
      SessionBase(log.recs, commits, keys, root.value.state.realms, s, drafts[sid]);
      SamePolicyReadable(sid);
      StoredAt(log.recs, keys, root.value.state.realms, files, id);
      StoresCatalog(log.recs, VaultOf(realm, keys), realm, files[id]);
    }

    lemma AllClear() returns (clear: set<SessionId>)
      requires Valid()
      ensures clear == (set x | x in sessions && Clear(x))
      ensures forall x | x in clear :: MayFinish(log.recs, realmKeys, sessions[x], RealmAt(sessions[x].realmId))
    {
      hide Clashes, MayFinish, BaseOk, StoredOk, PastOk;
      clear := set x | x in sessions && Clear(x);
      forall x | x in clear ensures MayFinish(log.recs, realmKeys, sessions[x], RealmAt(sessions[x].realmId)) {
        ClearNow(x);
      }
    }

    lemma ClearAgain(sid: SessionId)
      requires sid in sessions && commitOffset.Some? && HasRealm(sessions[sid].realmId) && sessions[sid].realmId in files
      requires MayFinish(log.recs, realmKeys, sessions[sid], RealmAt(sessions[sid].realmId))
      ensures Clear(sid)
    {
      hide FingerprintAt, PolicyOf, CatalogOf, ListedRows, VaultOf, MayWrite;
    }

    /**
     `commitWrite`: refused when the actor may not write, when the realm is locked, when an overtaken session clashes, or when the new
     catalog does not fit. Otherwise the realm holds what it holds now, plus this file with exactly the bytes received and whatever
     parents it lacked. No update is lost: a target that is replaced was this very entry, contents included, at every commit since the
     session began, and one that is created was absent at both ends.
     */
    method CommitWrite(sid: SessionId, newId: Path -> Key) returns (status: Status, ghost rows: seq<Row>)
      requires Valid() && forall x | x in sessions :: CanSign(trust, sessions[x].actor)
      modifies this`root, this`commitOffset, this`commits, this`keys, this`files, this`chain, this`past, this`sessions, this`drafts, log
      ensures Valid() && old(log.recs) <= log.recs
      ensures sid !in old(sessions) ==> status == Missing
      ensures sid in old(sessions) ==>
        var s := old(sessions)[sid];
        old(HasRealm(s.realmId)) && s.realmId in old(files)
        && (old(WriterStatus(s.realmId, s.actor)).Some? ==> status == old(WriterStatus(s.realmId, s.actor)).value)
        && (old(WriterStatus(s.realmId, s.actor)).None? ==>
          status == if old(Clashes(s)) then Conflict
            else if RealmFits(old(VaultOf(RealmAt(s.realmId), keys)), sizes, old(RealmAt(s.realmId).quota), [Rewrite(s.path, s.chunks)], rows) then Committed
            else TooLarge)
      ensures status == Committed || status == TooLarge ==>
        var s, data := old(sessions)[sid], old(drafts)[sid];
        var c := Change(s.actor, old(root.value.state.generation) + 1, newId);
        RowsOf(log.recs, old(VaultOf(RealmAt(s.realmId), keys)), sizes, [Rewrite(s.path, s.chunks)], rows,
          Write(old(files)[s.realmId], s.path, c, [], |data|, s.mime, data))
      ensures status != Committed ==> root == old(root) && files == old(files) && sessions == old(sessions) && drafts == old(drafts) && past == old(past)
      ensures status == Committed ==> UnchangedSince(old(past), since, old(sessions)[sid]) && past == old(past) + [files]
      ensures status == Committed ==>
        var s, data := old(sessions)[sid], old(drafts)[sid];
        var generation := old(root.value.state.generation) + 1;
        root.Some? && root.value.state.generation == generation && sessions == old(sessions) - {sid}
        && files == old(files)[s.realmId := Write(old(files)[s.realmId], s.path, Change(s.actor, generation, newId), [], |data|, s.mime, data)]
      ensures status == Committed ==>
        forall x | x in sessions && old(Clear(x)) && SameStamp(old(files)[sessions[x].realmId], files[sessions[x].realmId], sessions[x].path) :: Clear(x)
      ensures status == Committed ==> var id := old(sessions)[sid].realmId;
        HasRealm(id) && OnlyContent(old(RealmAt(id)), RealmAt(id)) && root.value.state.realms == old(root.value.state.realms)[id := RealmAt(id)]
      ensures Narrow(old(chain)) ==> Narrow(chain)
    {
      hide OnlyContent, Clear, RewritesStamped, SameStamp, Older, Narrow, BaseOk, StoredOk, WrapsCarry, Stores, MayWrite, ListedRows, AllStored, SessionsOk,
        CanSign, Represents, TreeOf, Write, PastOk, UnchangedSince, MapFits, CatalogFits, RowsOf, WellFormed, RealmOk, SameShape, VaultOf, Stamped, Clashes,
        Unlocking, Used, RewritesOk, SameKey, RealmFits, MapsFit, FingerprintAt, PolicyOf;
      rows := [];
      if sid !in sessions {
        return Missing, rows;
      }
      var s := sessions[sid];
      SessionHasRealm(sid);
      var id := s.realmId;
      var denied := WriterStatus(id, s.actor);
      if denied.Some? {
        return denied.value, rows;
      }
      var realm := root.value.state.realms[id];
      var catalog := CurrentCatalog(id);
      var clash := CheckClash(sid, catalog.value);
      if clash {
        return Conflict, rows;
      }
      StillSameKey(sid);
      NoLostUpdate(sid);
      var c := Change(s.actor, root.value.state.generation + 1, newId);
      ghost var before, draft := files[id], drafts[sid];
      WriteRepresents(log.recs, VaultOf(realm, keys), catalog.value, before, s.path, c, s.mime, s.chunks, draft);
      var tree := Write(catalog.value, s.path, c, [], s.size, s.mime, []);
      EditsStamp(before, WriteOp(s.path, |draft|, s.mime, draft), c, []);
      EditsStamp(catalog.value, WriteOp(s.path, s.size, s.mime, []), c, []);
      WrittenStamped(catalog.value, s.path, c, s.size, s.mime, s.chunks);
      var ok;
      ok, rows := PublishTree(id, tree, [Rewrite(s.path, s.chunks)], s.actor, Write(before, s.path, c, [], |draft|, s.mime, draft));
      if !ok {
        return TooLarge, rows;
      }
      var existed := AbortWrite(sid);
      return Committed, rows;
    }

    /** The realm of a session is still there. */
    lemma SessionHasRealm(sid: SessionId)
      requires Valid() && sid in sessions
      ensures sid in drafts && HasRealm(sessions[sid].realmId) && RealmAt(sessions[sid].realmId).id == sessions[sid].realmId && sessions[sid].realmId in files
      ensures commitOffset.Some?
    {
      hide RootStored, Sane, Asymmetric, Used, AllStored, SessionsOk, Numbered, PastOk;
      var s := sessions[sid];
      SessionAt(log.recs, commits, keys, root.value.state.realms, sessions, drafts, sid);
      RealmIds(trust, commits, root.value, commitOffset.value, chain, s.realmId);
      FilesOf(log.recs, keys, root.value.state.realms, files, s.realmId);
    }

    /** A session that does not clash may be committed: its target is what it was when the session began. */
    lemma NoLostUpdate(sid: SessionId)
      requires Valid() && sid in sessions && HasRealm(sessions[sid].realmId) && WriterStatus(sessions[sid].realmId, sessions[sid].actor) == None
      requires !Clashes(sessions[sid])
      ensures UnchangedSince(past, since, sessions[sid])
    {
      hide RootStored, Sane, Asymmetric, Used, SessionOk, Numbered, MayWrite, FingerprintAt, ListedRows, TreeOf, Remembered, Stores, WrapsCarry, RealmOk, RealmStored,
        UnchangedSince, SameKey;
      var s := sessions[sid];
      var id, realm := s.realmId, RealmAt(s.realmId);
      Parts(id);
      SessionAt(log.recs, commits, keys, root.value.state.realms, sessions, drafts, sid);
      CurrentRoot(trust, commits, root.value, commitOffset.value, chain);
      SessionBase(log.recs, commits, keys, root.value.state.realms, s, drafts[sid]);
      StoredAt(log.recs, keys, root.value.state.realms, files, id);
      PolicyKey(s, realm, root.value.state.identities, keys);
      assert Began(log.recs, keys, s, past, since);
      var base, v := past[s.baseGeneration - since][id], VaultOf(realm, keys);
      if Overtaken(s) {
        SamePolicyReadable(sid);
        StoresCatalog(log.recs, v, s.baseRealm, base);
        StoresCatalog(log.recs, v, realm, files[id]);
        SameFingerprintSameStamp(log.recs, v, s.baseRealm.catalogPages, realm.catalogPages, base, files[id], s.path);
      } else {
        StoresOnce(log.recs, v, realm.catalogPages, base, files[id]);
      }
      UnchangedTarget(past, since, s);
    }

    /** The conflict check of an overtaken session: policies, then the fingerprints of the target. */
    method CheckClash(sid: SessionId, current: Inodes) returns (clash: bool)
      requires Valid() && sid in sessions && HasRealm(sessions[sid].realmId) && WriterStatus(sessions[sid].realmId, sessions[sid].actor) == None
      requires current == CatalogOf(log.recs, VaultOf(RealmAt(sessions[sid].realmId), realmKeys), RealmAt(sessions[sid].realmId))
      ensures clash == Clashes(sessions[sid])
    {
      hide PastOk, Unlocking, RealmOk, WellFormed, RootStored, Sane, Asymmetric, Used, WrapsCarry, AllStored, SessionsOk, Numbered, MayWrite, FingerprintAt,
        PolicyOf, ListedRows, TreeOf;
      var s := sessions[sid];
      if !Overtaken(s) {
        return false;
      }
      if PolicyOf(s.baseRealm) != PolicyOf(RealmAt(s.realmId)) {
        return true;
      }
      SamePolicyReadable(sid);
      var base := LoadCatalog(log.recs, VaultOf(s.baseRealm, realmKeys), s.baseRealm.catalogPages);
      return FingerprintAt(base.value, s.path) != FingerprintAt(current, s.path);
    }

    /** With an unchanged policy the realm key is unchanged too, so the session's catalog and chunks can be read. */
    lemma SamePolicyReadable(sid: SessionId)
      requires Valid() && sid in sessions && HasRealm(sessions[sid].realmId) && WriterStatus(sessions[sid].realmId, sessions[sid].actor) == None
      requires PolicyOf(sessions[sid].baseRealm) == PolicyOf(RealmAt(sessions[sid].realmId))
      ensures var s := sessions[sid];
        sid in drafts && Readable(log.recs, VaultOf(RealmAt(s.realmId), keys), s, drafts[sid])
        && VaultOf(s.baseRealm, realmKeys) == VaultOf(RealmAt(s.realmId), keys) && |drafts[sid]| == s.size
    {
      hide RootStored, Sane, Asymmetric, Used, AllStored, SessionsOk, Numbered, MayWrite, Readable, RealmOk, WrapsCarry;
      var s := sessions[sid];
      var realm := RealmAt(s.realmId);
      SessionAt(log.recs, commits, keys, root.value.state.realms, sessions, drafts, sid);
      RealmIds(trust, commits, root.value, commitOffset.value, chain, s.realmId);
      StoredWraps(log.recs, keys, root.value.state.realms, files, s.realmId);
      PolicyKey(s, realm, root.value.state.identities, keys);
    }

    /** A session that does not clash was written under the current key of its realm. */
    lemma StillSameKey(sid: SessionId)
      requires Valid() && sid in sessions && HasRealm(sessions[sid].realmId) && WriterStatus(sessions[sid].realmId, sessions[sid].actor) == None
      requires !Clashes(sessions[sid])
      ensures var s := sessions[sid];
        sid in drafts && ChunkBytes(log.recs, VaultOf(RealmAt(s.realmId), keys), s.chunks, 0) == Some(drafts[sid]) && |drafts[sid]| == s.size
    {
      hide RootStored, Sane, Asymmetric, Used, AllStored, SessionsOk, Numbered, MayWrite, FingerprintAt, ListedRows, ChunkBytes;
      var s := sessions[sid];
      SessionAt(log.recs, commits, keys, root.value.state.realms, sessions, drafts, sid);
      CurrentRoot(trust, commits, root.value, commitOffset.value, chain);
      SamePolicyReadable(sid);
    }

    // ----- the namespace

    /** `mkdir`. */
    method MakeDirectory(id: RealmId, path: Path, actor: Option<Identity>, recursive: bool, newId: Path -> Key) returns (status: Status, ghost rows: seq<Row>)
      requires Valid() && CanSign(trust, actor)
      modifies this`root, this`commitOffset, this`commits, this`keys, this`files, this`chain, this`past, log
      ensures Valid() && old(log.recs) <= log.recs
      ensures !old(HasRealm(id)) ==> status == Missing
      ensures old(HasRealm(id)) ==> id in old(files)
      ensures old(HasRealm(id)) ==>
        var edit := Mkdir(old(files)[id], path, Change(actor, old(root.value.state.generation) + 1, newId), [], recursive);
        EditEnds(old(WriterStatus(id, actor)), edit, log.recs, old(VaultOf(RealmAt(id), keys)), sizes, old(RealmAt(id).quota), rows, status)
        && (status == Committed ==> files == old(files)[id := Value(edit)])
      ensures status != Committed ==> root == old(root) && files == old(files) && past == old(past)
      ensures status == Committed ==> past == old(past) + [files]
      ensures status == Committed ==>
        forall x | x in sessions && old(Clear(x)) && SameStamp(old(files)[sessions[x].realmId], files[sessions[x].realmId], sessions[x].path) :: Clear(x)
      ensures status == Committed ==>
        HasRealm(id) && OnlyContent(old(RealmAt(id)), RealmAt(id)) && root.value.state.realms == old(root.value.state.realms)[id := RealmAt(id)]
      ensures Narrow(old(chain)) ==> Narrow(chain)
    {
      hide OnlyContent, Clear, Narrow, RootStored, Sane, Asymmetric, Used, WrapsCarry, AllStored, SessionsOk, Numbered, MayWrite, CanSign, Represents, Mkdir,
        PastOk, MapFits, CatalogFits, RowsOf, ListedRows, TreeOf;
      rows := [];
      if root.None? || id !in root.value.state.realms {
        return Missing, rows;
      }
      FilesOf(log.recs, keys, root.value.state.realms, files, id);
      var denied := WriterStatus(id, actor);
      if denied.Some? {
        return denied.value, rows;
      }
      RealmIds(trust, commits, root.value, commitOffset.value, chain, id);
      var catalog := CurrentCatalog(id);
      var c := Change(actor, root.value.state.generation + 1, newId);
      ghost var v, before := VaultOf(RealmAt(id), keys), files[id];
      MkdirRepresents(log.recs, v, catalog.value, before, path, c, recursive);
      var edit := Mkdir(catalog.value, path, c, [], recursive);
      if edit.Unchanged? {
        return NoChange, rows;
      }
      if edit.Refused? {
        return NotAllowed, rows;
      }
      NothingRewritten(edit.value);
      EditsStamp(before, MkdirOp(path, recursive), c, []);
      EditsStamp(catalog.value, MkdirOp(path, recursive), c, []);
      var ok;
      ok, rows := PublishTree(id, edit.value, [], actor, Mkdir(before, path, c, [], recursive).value);
      return if ok then Committed else TooLarge, rows;
    }

    /** `remove`. */
    method RemovePath(id: RealmId, path: Path, actor: Option<Identity>, recursive: bool) returns (status: Status, ghost rows: seq<Row>)
      requires Valid() && CanSign(trust, actor)
      modifies this`root, this`commitOffset, this`commits, this`keys, this`files, this`chain, this`past, log
      ensures Valid() && old(log.recs) <= log.recs
      ensures !old(HasRealm(id)) ==> status == Missing
      ensures old(HasRealm(id)) ==> id in old(files)
      ensures old(HasRealm(id)) ==>
        var edit := Remove(old(files)[id], path, recursive);
        EditEnds(old(WriterStatus(id, actor)), edit, log.recs, old(VaultOf(RealmAt(id), keys)), sizes, old(RealmAt(id).quota), rows, status)
        && (status == Committed ==> files == old(files)[id := Value(edit)])
      ensures status != Committed ==> root == old(root) && files == old(files) && past == old(past)
      ensures status == Committed ==> past == old(past) + [files]
      ensures status == Committed ==>
        forall x | x in sessions && old(Clear(x)) && SameStamp(old(files)[sessions[x].realmId], files[sessions[x].realmId], sessions[x].path) :: Clear(x)
      ensures status == Committed ==>
        HasRealm(id) && OnlyContent(old(RealmAt(id)), RealmAt(id)) && root.value.state.realms == old(root.value.state.realms)[id := RealmAt(id)]
      ensures Narrow(old(chain)) ==> Narrow(chain)
    {
      hide OnlyContent, Clear, Narrow, RootStored, Sane, Asymmetric, Used, WrapsCarry, AllStored, SessionsOk, Numbered, MayWrite, CanSign, Represents, Remove,
        PastOk, MapFits, CatalogFits, RowsOf, ListedRows, TreeOf;
      rows := [];
      if root.None? || id !in root.value.state.realms {
        return Missing, rows;
      }
      FilesOf(log.recs, keys, root.value.state.realms, files, id);
      var denied := WriterStatus(id, actor);
      if denied.Some? {
        return denied.value, rows;
      }
      RealmIds(trust, commits, root.value, commitOffset.value, chain, id);
      var catalog := CurrentCatalog(id);
      ghost var v, before := VaultOf(RealmAt(id), keys), files[id];
      RemoveRepresents(log.recs, v, catalog.value, before, path, recursive);
      var edit := RemoveFrom(catalog.value, path, recursive);
      if edit.Unchanged? {
        return NoChange, rows;
      }
      if edit.Refused? {
        return NotAllowed, rows;
      }
      NothingRewritten(edit.value);
      EditsStamp(before, RemoveOp(path, recursive), Change(actor, root.value.state.generation + 1, x => []), []);
      EditsStamp(catalog.value, RemoveOp(path, recursive), Change(actor, root.value.state.generation + 1, x => []), []);
      var ok;
      ok, rows := PublishTree(id, edit.value, [], actor, Remove(before, path, recursive).value);
      return if ok then Committed else TooLarge, rows;
    }

    /** `rename` inside one realm. */
    method RenamePath(id: RealmId, from: Path, to: Path, actor: Option<Identity>, newId: Path -> Key) returns (status: Status, ghost rows: seq<Row>)
      requires Valid() && CanSign(trust, actor)
      modifies this`root, this`commitOffset, this`commits, this`keys, this`files, this`chain, this`past, log
      ensures Valid() && old(log.recs) <= log.recs
      ensures from == to ==> status == NoChange
      ensures from != to && Above(from, to) ==> status == NotAllowed
      ensures from != to && !Above(from, to) && !old(HasRealm(id)) ==> status == Missing
      ensures from != to && !Above(from, to) && old(HasRealm(id)) ==> id in old(files)
      ensures from != to && !Above(from, to) && old(HasRealm(id)) ==>
        var edit := Rename(old(files)[id], from, to, Change(actor, old(root.value.state.generation) + 1, newId), []);
        EditEnds(old(WriterStatus(id, actor)), edit, log.recs, old(VaultOf(RealmAt(id), keys)), sizes, old(RealmAt(id).quota), rows, status)
        && (status == Committed ==> files == old(files)[id := Value(edit)])
      ensures status != Committed ==> root == old(root) && files == old(files) && past == old(past)
      ensures status == Committed ==> past == old(past) + [files]
      ensures status == Committed ==>
        forall x | x in sessions && old(Clear(x)) && SameStamp(old(files)[sessions[x].realmId], files[sessions[x].realmId], sessions[x].path) :: Clear(x)
      ensures status == Committed ==>
        HasRealm(id) && OnlyContent(old(RealmAt(id)), RealmAt(id)) && root.value.state.realms == old(root.value.state.realms)[id := RealmAt(id)]
      ensures Narrow(old(chain)) ==> Narrow(chain)
    {
      hide OnlyContent, Stamped, RealmOk, WellFormed, SameStamp, Older, Unlocking, Clashes, Narrow, RootStored, Sane, Asymmetric, Used, WrapsCarry, AllStored,
        SessionsOk, Numbered, MayWrite, CanSign, Represents, Move, PastOk, MapFits, CatalogFits, RowsOf, ListedRows, TreeOf;
      rows := [];
      if from == to {
        return NoChange, rows;
      }
      if Above(from, to) {
        return NotAllowed, rows;
      }
      if root.None? || id !in root.value.state.realms {
        return Missing, rows;
      }
      FilesOf(log.recs, keys, root.value.state.realms, files, id);
      var denied := WriterStatus(id, actor);
      if denied.Some? {
        return denied.value, rows;
      }
      RealmIds(trust, commits, root.value, commitOffset.value, chain, id);
      var catalog := CurrentCatalog(id);
      var c := Change(actor, root.value.state.generation + 1, newId);
      ghost var v, before := VaultOf(RealmAt(id), keys), files[id];
      RepresentsKeys(log.recs, v, catalog.value, before);
      RenameRepresents(log.recs, v, catalog.value, before, from, to, c);
      if from !in catalog.value {
        return NoChange, rows;
      }
      if to in catalog.value {
        return NotAllowed, rows;
      }
      var edit := MoveSubtree(catalog.value, from, to, c, []);
      if edit.Refused? {
        return NotAllowed, rows;
      }
      MoveIsDone(catalog.value, from, to, c);
      NothingRewritten(edit.value);
      EditsStamp(before, RenameOp(from, to), c, []);
      EditsStamp(catalog.value, RenameOp(from, to), c, []);
      var ok;
      ok, rows := PublishTree(id, edit.value, [], actor, Rename(before, from, to, c, []).value);
      return if ok then Committed else TooLarge, rows;
    }

    // ----- reading

    /** `stat` inside an unlocked realm finds exactly the entries that the realm holds. */
    method StatPath(id: RealmId, path: Path) returns (r: Option<Option<Inode>>)
      requires Valid() && CanSeal(id)
      ensures id in files && r.Some? && (r.value.Some? <==> path in files[id]) && (r.value.Some? ==> SameNode(r.value.value, files[id][path]))
    {
      hide RootStored, Sane, Asymmetric, Used, WrapsCarry, AllStored, SessionsOk, Numbered, ListedRows, TreeOf, DistinctPaths, HoldsFile, SameNode;
      RealmIds(trust, commits, root.value, commitOffset.value, chain, id);
      StoredAt(log.recs, keys, root.value.state.realms, files, id);
      var realm := RealmAt(id);
      r := StatEntry(log.recs, VaultOf(realm, realmKeys), realm.catalogPages, path);
      if r.value.Some? {
        RepresentsAt(log.recs, VaultOf(realm, keys), TreeOf(ListedRows(log.recs, VaultOf(realm, keys), realm.catalogPages).value), files[id], path);
      }
    }

    /** `read` inside an unlocked realm: the slice of exactly the bytes that the file holds. */
    method ReadPath(id: RealmId, path: Path, offset: nat, length: Option<nat>) returns (r: Option<ReadResult>)
      requires Valid() && CanSeal(id)
      ensures id in files && r == ReadOf(files[id], path, offset, length)
    {
      hide RootStored, Sane, Asymmetric, Used, WrapsCarry, AllStored, SessionsOk, Numbered, ListedRows, TreeOf, DistinctPaths, FileBytes;
      RealmIds(trust, commits, root.value, commitOffset.value, chain, id);
      StoredAt(log.recs, keys, root.value.state.realms, files, id);
      var realm := RealmAt(id);
      ghost var v := VaultOf(realm, keys);
      var found := StatEntry(log.recs, VaultOf(realm, realmKeys), realm.catalogPages, path);
      if found.value.None? {
        return None;
      }
      RepresentsAt(log.recs, v, TreeOf(ListedRows(log.recs, v, realm.catalogPages).value), files[id], path);
      if found.value.value.kind != File {
        return None;
      }
      var result := ReadRange(log.recs, VaultOf(realm, realmKeys), found.value.value, offset, length);
      return Some(result);
    }

    // ----- unlocking

    /** `unlockRealm`: the key wrap for this identity gives the key that everything in the realm is stored under. */
    method UnlockRealm(id: RealmId, who: Identity) returns (ok: bool)
      requires Valid()
      modifies this`realmKeys
      ensures Valid()
      ensures ok <==> old(HasRealm(id)) && (RealmAt(id).secret ==> !Unclaimed(RealmAt(id)) && who in Recipients(RealmAt(id).keyWraps))
      ensures ok ==> CanSeal(id)
      ensures !ok || !RealmAt(id).secret ==> realmKeys == old(realmKeys)
    {
      hide RootStored, Sane, Asymmetric, Used, SessionsOk, Numbered, AllStored;
      if root.None? || id !in root.value.state.realms {
        return false;
      }
      var realm := root.value.state.realms[id];
      if !realm.secret {
        return true;
      }
      if Unclaimed(realm) {
        return false;
      }
      RealmIds(trust, commits, root.value, commitOffset.value, chain, id);
      StoredWraps(log.recs, keys, root.value.state.realms, files, id);
      var i := 0;
      while i < |realm.keyWraps|
        invariant i <= |realm.keyWraps| && forall k | 0 <= k < i :: realm.keyWraps[k].recipient != who
      {
        if realm.keyWraps[i].recipient == who {
          realmKeys := realmKeys[id := realm.keyWraps[i].key];
          assert who in Recipients(realm.keyWraps);
          return true;
        }
        i := i + 1;
      }
      return false;
    }

    // ----- sharing

    /** Publishes a new policy of one shared realm; its contents and its key stay. An administrator's change is never refused. */
    method PublishPolicy(id: RealmId, next: Realm, extra: set<Identity>, actor: Option<Identity>)
      requires Valid() && HasRealm(id) && CanSign(trust, actor)
      requires next == RealmAt(id).(access := next.access, keyWraps := next.keyWraps) && WrapsCarry(next, keys)
      requires RealmAt(id).governance.Shared? && RealmAdmin(root.value.state, RealmAt(id), actor) && RealmOk(next, root.value.state.identities + extra)
      modifies this`root, this`commitOffset, this`commits, this`keys, this`files, this`chain, this`past, log
      ensures Valid() && old(log.recs) <= log.recs && HasRealm(id) && RealmAt(id) == next && files == old(files) && keys == old(keys)
      ensures root.value.state.realms == old(root.value.state.realms)[id := next] && root.value.state.generation == old(root.value.state.generation) + 1
      ensures past == old(past) + [files]
      ensures Narrow(old(chain)) ==> Narrow(chain)
    {
      hide Narrow, RootStored, AllStored, Sane, Asymmetric, SessionsOk, Used, Numbered, Infers, Acceptable, NextRoot, RealmAdmin, CanSign, SameShape,
        WrapsCarry, RealmOk, PastOk, Stamped;
      var parent := root.value;
      var realms := parent.state.realms[id := next];
      RealmIds(trust, commits, parent, commitOffset.value, chain, id);
      PolicyStored(log.recs, keys, parent.state.realms, files, id, next);
      ShapeAfter(parent.state.realms, id, next);
      SessionsShape(log.recs, commits, keys, parent.state.realms, realms, sessions, drafts);
      CurrentRoot(trust, commits, parent, commitOffset.value, chain);
      var ok;
      ghost var changes;
      ok, changes := CommitRoot(realms, extra, actor, keys, files);
      OneRealmDeclared(changes, parent.state.realms, id, next);
      AdministeredChangePasses(trust, parent, realms, extra, id, actor, changes);
      NothingStamped(files, parent.state.generation + 1);
      PastAfter(old(log.recs), log.recs, keys, parent, files, sessions, old(past), since, root.value, files);
    }

    /** Why a change of a realm's sharing is refused before anything is computed. */
    function SharingStatus(id: RealmId, actor: Option<Identity>): (s: Option<Status>)
      reads this
      ensures s.None? <==> HasRealm(id) && RealmAt(id).governance.Shared? && RealmAdmin(root.value.state, RealmAt(id), actor)
      ensures s.Some? ==> (s.value == Missing <==> !HasRealm(id)) && (s.value == NotAllowed <==> HasRealm(id) && !RealmAt(id).governance.Shared?)
    {
      if !HasRealm(id) then Some(Missing)
      else if !RealmAt(id).governance.Shared? then Some(NotAllowed)
      else if !RealmAdmin(root.value.state, RealmAt(id), actor) then Some(Forbidden)
      else None
    }

    /** `grant`: refused only for want of authority, of a member list to write to, or of the key that a new reader needs. */
    method Grant(id: RealmId, who: Identity, c: Capabilities, actor: Option<Identity>) returns (status: Status)
      requires Valid() && CanSign(trust, actor)
      modifies this`root, this`commitOffset, this`commits, this`keys, this`files, this`chain, this`past, log
      ensures Valid() && old(log.recs) <= log.recs && files == old(files) && keys == old(keys)
      ensures old(SharingStatus(id, actor)).Some? ==> status == old(SharingStatus(id, actor)).value
      ensures old(SharingStatus(id, actor)).None? ==>
        var r := old(RealmAt(id));
        if c.write && !r.access.writeMode.MembersWrite? then status == NotAllowed
        else if NeedsWrap(r, who, c) && id !in realmKeys then status == Locked
        else status == Committed && HasRealm(id) && RealmAt(id) == Granted(r, who, c, if id in realmKeys then realmKeys[id] else 0)
      ensures status == Committed ==> HasRealm(id) && root.value.state.realms == old(root.value.state.realms)[id := RealmAt(id)]
      ensures past == if status == Committed then old(past) + [files] else old(past)
      ensures status != Committed ==> root == old(root)
      ensures Narrow(old(chain)) ==> Narrow(chain)
    {
      hide Narrow, RootStored, AllStored, Sane, Asymmetric, SessionsOk, Used, Numbered, RealmAdmin, CanSign, WrapsCarry, RealmOk, NeedsWrap, GrantedAccess;
      var denied := SharingStatus(id, actor);
      if denied.Some? {
        return denied.value;
      }
      var realm := RealmAt(id);
      if c.write && !realm.access.writeMode.MembersWrite? {
        return NotAllowed;
      }
      if NeedsWrap(realm, who, c) && id !in realmKeys {
        return Locked;
      }
      var key := if id in realmKeys then realmKeys[id] else 0;
      var next := Granted(realm, who, c, key);
      RealmIds(trust, commits, root.value, commitOffset.value, chain, id);
      StoredWraps(log.recs, keys, root.value.state.realms, files, id);
      GrantedCarries(realm, who, c, key, keys);
      GrantKeepsRealm(realm, root.value.state.identities, who, c, key);
      PublishPolicy(id, next, {who}, actor);
      return Committed;
    }

    /** `revoke`: reading of a sealed realm can only be taken away by rekeying it. */
    method Revoke(id: RealmId, who: Identity, c: Capabilities, actor: Option<Identity>) returns (status: Status)
      requires Valid() && CanSign(trust, actor)
      modifies this`root, this`commitOffset, this`commits, this`keys, this`files, this`chain, this`past, log
      ensures Valid() && old(log.recs) <= log.recs && files == old(files) && keys == old(keys)
      ensures old(SharingStatus(id, actor)).Some? ==> status == old(SharingStatus(id, actor)).value
      ensures old(SharingStatus(id, actor)).None? ==>
        var r := old(RealmAt(id));
        if r.secret && c.read && who in r.access.readers then status == NotAllowed
        else status == Committed && HasRealm(id) && RealmAt(id) == Revoked(r, who, c)
      ensures status == Committed ==> HasRealm(id) && root.value.state.realms == old(root.value.state.realms)[id := RealmAt(id)]
      ensures past == if status == Committed then old(past) + [files] else old(past)
      ensures status != Committed ==> root == old(root)
      ensures Narrow(old(chain)) ==> Narrow(chain)
    {
      hide Narrow, RootStored, AllStored, Sane, Asymmetric, SessionsOk, Used, Numbered, RealmAdmin, CanSign, RealmOk;
      var denied := SharingStatus(id, actor);
      if denied.Some? {
        return denied.value;
      }
      var realm := RealmAt(id);
      if realm.secret && c.read && who in realm.access.readers {
        return NotAllowed;
      }
      RealmIds(trust, commits, root.value, commitOffset.value, chain, id);
      StoredWraps(log.recs, keys, root.value.state.realms, files, id);
      RevokeKeepsRealm(realm, root.value.state.identities, who, c);
      MoreIdentities(Revoked(realm, who, c), root.value.state.identities, root.value.state.identities + {});
      PublishPolicy(id, Revoked(realm, who, c), {}, actor);
      return Committed;
    }

    /** The only administrator would give up reading. */
    predicate LastAdminGoes(id: RealmId, gone: set<Identity>, actor: Option<Identity>)
      reads this
      requires HasRealm(id)
    {
      actor.Some? && actor.value in gone && RealmAt(id).access.admins == {actor.value}
    }

    /** Why rekeying is refused before anything is written. */
    function RekeyStatus(id: RealmId, gone: set<Identity>, actor: Option<Identity>): (s: Option<Status>)
      reads this
      ensures s.None? <==> SharingStatus(id, actor).None? && RealmAt(id).secret && id in realmKeys && !LastAdminGoes(id, gone, actor)
      ensures s.Some? && s.value in {Missing, Forbidden} ==> s == SharingStatus(id, actor)
      ensures s.Some? && s.value == Locked ==> HasRealm(id) && id !in realmKeys
    {
      if !HasRealm(id) then Some(Missing)
      else if !RealmAt(id).governance.Shared? || !RealmAt(id).secret then Some(NotAllowed)
      else if !RealmAdmin(root.value.state, RealmAt(id), actor) then Some(Forbidden)
      else if id !in realmKeys then Some(Locked)
      else if LastAdminGoes(id, gone, actor) then Some(NotAllowed)
      else None
    }

    /**
     `rekeyRealm`: no file changes, everything is stored under the new key, and its recipients are the remaining readers. When it fails,
     the old key and the old root are in place. A root admin who may not write the realm is let in by the first check, and refused at the
     end exactly if there is something in the realm.
     */
    method Rekey(id: RealmId, gone: set<Identity>, newKey: SymKey, actor: Option<Identity>)
      returns (status: Status, ghost rewrites: seq<Rewrite>, ghost rows: seq<Row>)
      requires Valid() && CanSign(trust, actor) && newKey !in usedKeys
      modifies this`root, this`commitOffset, this`commits, this`keys, this`files, this`chain, this`past, this`realmKeys, this`usedKeys, log
      ensures Valid() && old(log.recs) <= log.recs && files == old(files)
      ensures old(RekeyStatus(id, gone, actor)).Some? ==> status == old(RekeyStatus(id, gone, actor)).value
      ensures old(RekeyStatus(id, gone, actor)).None? ==>
        id in files && RowsOf(log.recs, Vault(true, Some(newKey)), sizes, rewrites, rows, files[id])
        && status == if !RealmFits(Vault(true, Some(newKey)), sizes, old(RealmAt(id).quota), rewrites, rows) then TooLarge
          else if !MayWrite(old(RealmAt(id)), actor) && files[id] != map[] then Forbidden
          else Committed
      ensures status != Committed ==> root == old(root) && keys == old(keys) && realmKeys == old(realmKeys) && past == old(past)
      ensures status == Committed ==> keys == old(keys)[id := newKey] && realmKeys == old(realmKeys)[id := newKey] && past == old(past) + [files]
      ensures status == Committed ==> HasRealm(id) && var r := RealmAt(id);
        r.access == WithoutReaders(old(RealmAt(id)).access, gone) && Recipients(r.keyWraps) == r.access.readers && WrapsCarry(r, keys)
        && root.value.state.realms == old(root.value.state.realms)[id := r]
      ensures status == Committed ==> forall other | other != newKey :: Closed(log.recs, newKey, other, RealmAt(id).catalogPages)
      ensures Narrow(old(chain)) ==> Narrow(chain)
    {
      hide Narrow, RootStored, AllStored, Sane, Asymmetric, SessionsOk, Used, Numbered, RealmAdmin, CanSign, RealmOk, MayWrite, Represents, RewritesOk,
        WrapsCarry, Stores, ListedRows, TreeOf, PastOk, MapFits, CatalogFits, Closed;
      rewrites, rows := [], [];
      var denied := RekeyStatus(id, gone, actor);
      if denied.Some? {
        return denied.value, rewrites, rows;
      }
      var realm := RealmAt(id);
      RealmIds(trust, commits, root.value, commitOffset.value, chain, id);
      var catalog := CurrentCatalog(id);
      var generation := root.value.state.generation + 1;
      var wraps := WrapAll(id, realm.access.readers - gone, newKey);
      ghost var recs := log.recs;
      StoredStats(recs, keys, root.value.state.realms, files, id);
      var resealed := ResealAll(log, VaultOf(realm, realmKeys), Vault(true, Some(newKey)), id, generation, catalog.value, files[id]);
      var pages, listed := WriteRealm(log, Vault(true, Some(newKey)), sizes, id, realm.quota, generation, catalog.value, resealed, files[id]);
      rewrites, rows := resealed, listed;
      ghost var written := log.recs;
      assert RowsOf(written, Vault(true, Some(newKey)), sizes, rewrites, rows, files[id]);
      ArenaGrew(recs);
      if pages.None? {
        return TooLarge, rewrites, rows;
      }
      var next := realm.(access := WithoutReaders(realm.access, gone), keyWraps := wraps, catalogPages := pages.value, stats := StatsOf(realm, listed));
      RekeyKeepsRealm(realm, root.value.state.identities, gone, wraps, newKey, pages.value, StatsOf(realm, listed));
      RecipientsOf(wraps, id, realm.access.readers - gone, newKey);
      NewPages(recs, VaultOf(realm, keys), realm, next, files[id]);
      var ok := InstallKey(id, next, newKey, actor);
      RowsStayOf(written, log.recs, Vault(true, Some(newKey)), sizes, rewrites, rows, files[id]);
      if ok {
        OnlyItsKeyOpens(id);
      }
      return if ok then Committed else Forbidden, rewrites, rows;
    }

    /** Nothing of the current catalog of a sealed realm opens with another key than its own. */
    lemma OnlyItsKeyOpens(id: RealmId)
      requires Valid() && HasRealm(id) && RealmAt(id).secret && id in keys
      ensures forall other | other != keys[id] :: Closed(log.recs, keys[id], other, RealmAt(id).catalogPages)
    {
      hide BaseOk, StoredOk, PastOk, AllStored, WellFormed, RealmOk, Stores, WrapsCarry, Unlocking, Used, SessionsOk, Closed;
      Parts(id);
      StoredAt(log.recs, keys, root.value.state.realms, files, id);
      forall other | other != keys[id] ensures Closed(log.recs, keys[id], other, RealmAt(id).catalogPages) {
        OpensOnlyWithKey(log.recs, keys[id], other, RealmAt(id).catalogPages, files[id]);
      }
    }

    /** More records in the arena disturb nothing. */
    twostate lemma ArenaGrew(recs: Recs)
      requires old(Valid()) && recs == old(log.recs) && recs <= log.recs
      requires unchanged(this)
      ensures Valid()
    {
      hide RootStored, AllStored, Sane, Asymmetric, SessionsOk, Used, Unlocking, Numbered, PastOk;
      PastStays(recs, log.recs, keys, root, files, sessions, past, since);
      NumberedGrows(commits, |recs|, |log.recs|, sessions, nextSession);
      if root.Some? {
        AllStoredStays(recs, log.recs, keys, root.value.state.realms, files);
        SessionsStay(recs, log.recs, commits, commits, keys, root.value.state.realms, sessions, drafts);
      }
    }

    /** The last half of a rekeying: the new key, the commit, and the old key again if the commit is refused. */
    method InstallKey(id: RealmId, next: Realm, newKey: SymKey, actor: Option<Identity>) returns (ok: bool)
      requires Valid() && HasRealm(id) && CanSign(trust, actor) && newKey !in usedKeys && id in realmKeys && id in files
      requires RealmAt(id).secret && RealmAt(id).governance.Shared? && RealmAdmin(root.value.state, RealmAt(id), actor)
      requires next == RealmAt(id).(access := next.access, keyWraps := next.keyWraps, catalogPages := next.catalogPages, stats := next.stats)
      requires RealmOk(next, root.value.state.identities) && Stores(log.recs, Vault(true, Some(newKey)), next.catalogPages, files[id])
      requires next.id == id && WrapsCarry(next, map[id := newKey]) && StatsMatch(next, files[id])
      modifies this`root, this`commitOffset, this`commits, this`keys, this`files, this`chain, this`past, this`realmKeys, this`usedKeys, log
      ensures Valid() && old(log.recs) <= log.recs && files == old(files)
      ensures ok <==> MayWrite(old(RealmAt(id)), actor) || ContentOf(next) == ContentOf(old(RealmAt(id)))
      ensures !ok ==> root == old(root) && keys == old(keys) && realmKeys == old(realmKeys) && past == old(past)
      ensures ok ==> past == old(past) + [files]
      ensures ok ==> keys == old(keys)[id := newKey] && realmKeys == old(realmKeys)[id := newKey] && HasRealm(id) && RealmAt(id) == next && WrapsCarry(next, keys)
      ensures ok ==> root.value.state.realms == old(root.value.state.realms)[id := next]
      ensures Narrow(old(chain)) ==> Narrow(chain)
    {
      hide Narrow, BaseOk, StoredOk, AllStored, SessionsOk, Used, RealmAdmin, CanSign, RealmOk, MayWrite, WrapsCarry, Stores, Infers, Acceptable, NextRoot, SameShape,
        Unlocking, PastOk, Stamped, ContentOf, WellFormed, StatsMatch, VaultOf, LinkedOffset, AnyShared, RealmsOk;
      var parent := root.value;
      var realms := parent.state.realms[id := next];
      ghost var before, nextKeys := log.recs, keys[id := newKey];
      Parts(id);
      ReadyToRekey(id, next, newKey);
      ghost var changes;
      var oldRing := realmKeys;
      realmKeys := realmKeys[id := newKey];
      ok, changes := CommitRoot(realms, {}, actor, nextKeys, files);
      OneRealmDeclared(changes, parent.state.realms, id, next);
      MoreIdentities(next, parent.state.identities, parent.state.identities + {});
      AdministeredChangeExact(trust, parent, realms, {}, id, actor, changes);
      if ok {
        NothingStamped(files, parent.state.generation + 1);
        PastAfter(before, log.recs, nextKeys, parent, files, sessions, old(past), since, root.value, files);
        usedKeys := usedKeys + {newKey};
      } else {
        realmKeys := realmKeys[id := oldRing[id]];
        assert realmKeys == oldRing;
      }
      Whole();
    }

    /** With the new key in place, everything is as it should be. */
    lemma ReadyToRekey(id: RealmId, next: Realm, newKey: SymKey)
      requires Valid() && HasRealm(id) && newKey !in usedKeys && id in files && RealmAt(id).secret
      requires next == RealmAt(id).(access := next.access, keyWraps := next.keyWraps, catalogPages := next.catalogPages, stats := next.stats) && next.id == id
      requires Stores(log.recs, Vault(true, Some(newKey)), next.catalogPages, files[id]) && WrapsCarry(next, map[id := newKey]) && StatsMatch(next, files[id])
      ensures var nextKeys, realms := keys[id := newKey], root.value.state.realms[id := next];
        SameShape(root.value.state.realms, realms) && AllStored(log.recs, nextKeys, realms, files) && WrapsCarry(next, nextKeys)
        && SessionsOk(log.recs, commits, nextKeys, realms, sessions, drafts)
        && Unlocking(realmKeys[id := newKey], nextKeys) && Used(nextKeys, sessions, usedKeys + {newKey})
        && PastOk(log.recs, nextKeys, root, files, sessions, past, since)
    {
      hide BaseOk, StoredOk, AllStored, SessionsOk, Used, RealmOk, WrapsCarry, Stores, SameShape, Unlocking, PastOk, WellFormed, StatsMatch;
      var realms := root.value.state.realms;
      Parts(id);
      StoredIds(id);
      ShapeAfter(realms, id, next);
      RekeyedStored(log.recs, keys, realms, files, id, next, newKey);
      RekeyedSessions(log.recs, commits, keys, realms, realms[id := next], sessions, drafts, usedKeys, id, newKey);
      RekeyedRing(keys, realmKeys, sessions, usedKeys, id, newKey);
      RekeyedPast(log.recs, commits, keys, root.value, files, sessions, drafts, usedKeys, past, since, id, newKey);
    }

    lemma StoredIds(id: RealmId)
      requires Valid() && HasRealm(id)
      ensures forall x | x in root.value.state.realms :: root.value.state.realms[x].id == x
    {
      hide StoredOk, PastOk, RealmOk, LinksTo, ValidChain, Authorized, HashesOk;
    }
  }

  lemma StoredStats(recs: Recs, keys: KeyRing, realms: Realms, files: Contents, id: RealmId)
    requires AllStored(recs, keys, realms, files) && id in realms
    ensures id in files && StatsMatch(realms[id], files[id]) && Stores(recs, VaultOf(realms[id], keys), realms[id].catalogPages, files[id])
  {
    hide StatsMatch, Stores, WrapsCarry;
    assert RealmStored(recs, keys, realms[id], files[id]);
  }

  /** A rewritten catalog consists of new pages, so it is the old one only if both are empty. */
  lemma NewPages(recs: Recs, v: Vault, before: Realm, next: Realm, files: Tree<bytes>)
    requires Stores(recs, v, before.catalogPages, files) && StatsMatch(before, files) && StatsMatch(next, files) && before.secret && next.secret
    requires forall i | 0 <= i < |next.catalogPages| :: next.catalogPages[i].recordOffset >= |recs|
    ensures ContentOf(next) == ContentOf(before) <==> files == map[]
  {
    hide TotalSize, FilesIn, DistinctPaths, Represents, TreeOf;
    if files != map[] {
      assert next.catalogPages[|next.catalogPages| - 1].recordOffset >= |recs|;
      assert ReadCatalog(recs, v, before.catalogPages[|before.catalogPages| - 1]).Some?;
    }
  }

  lemma RecipientsOf(wraps: seq<Wrap>, id: RealmId, readers: set<Identity>, key: SymKey)
    requires WrapsFor(wraps, id, readers, key)
    ensures Recipients(wraps) == readers && forall r: Realm | r.id == id && r.keyWraps == wraps :: WrapsCarry(r, map[id := key])
  {
  }

  /** Every other realm is stored as before, this one under its new key. */
  lemma RekeyedStored(recs: Recs, keys: KeyRing, realms: Realms, files: Contents, id: RealmId, next: Realm, newKey: SymKey)
    requires AllStored(recs, keys, realms, files) && id in realms && next.id == id && next.secret
    requires forall x | x in realms :: realms[x].id == x
    requires Stores(recs, Vault(true, Some(newKey)), next.catalogPages, files[id]) && WrapsCarry(next, map[id := newKey]) && StatsMatch(next, files[id])
    ensures AllStored(recs, keys[id := newKey], realms[id := next], files) && WrapsCarry(next, keys[id := newKey])
  {
    hide StatsMatch, Stores;
    forall x | x in realms && x != id ensures RealmStored(recs, keys[id := newKey], realms[x], files[x]) {
      assert RealmStored(recs, keys, realms[x], files[x]);
      assert VaultOf(realms[x], keys[id := newKey]) == VaultOf(realms[x], keys);
    }
    assert VaultOf(next, keys[id := newKey]) == Vault(true, Some(newKey));
  }

  /** A session of the rekeyed realm cannot have begun under a key that did not exist. */
  lemma RekeyedSessions(recs: Recs, commits: Commits, keys: KeyRing, realms: Realms, others: Realms, sessions: map<SessionId, Session>, drafts: map<SessionId, bytes>,
    usedKeys: set<SymKey>, id: RealmId, newKey: SymKey)
    requires SessionsOk(recs, commits, keys, realms, sessions, drafts) && SameShape(realms, others) && Used(keys, sessions, usedKeys) && newKey !in usedKeys
    requires id in realms && realms[id].secret
    ensures SessionsOk(recs, commits, keys[id := newKey], others, sessions, drafts)
  {
    hide Readable;
    forall sid | sid in sessions ensures SessionOk(recs, commits, keys[id := newKey], others, sessions[sid], drafts[sid]) {
      var s := sessions[sid];
      assert SessionOk(recs, commits, keys, realms, s, drafts[sid]);
      if s.realmId != id {
        assert VaultOf(s.baseRealm, keys[id := newKey]) == VaultOf(s.baseRealm, keys);
      }
    }
  }

  lemma RekeyedRing(keys: KeyRing, unlocked: KeyRing, sessions: map<SessionId, Session>, usedKeys: set<SymKey>, id: RealmId, newKey: SymKey)
    requires Unlocking(unlocked, keys) && Used(keys, sessions, usedKeys)
    ensures Unlocking(unlocked[id := newKey], keys[id := newKey]) && Used(keys[id := newKey], sessions, usedKeys + {newKey})
  {
  }

  /** A wrap of the current key keeps the wraps in agreement. */
  lemma GrantedCarries(r: Realm, who: Identity, c: Capabilities, key: SymKey, keys: KeyRing)
    requires WrapsCarry(r, keys) && (NeedsWrap(r, who, c) ==> r.id in keys && key == keys[r.id])
    ensures WrapsCarry(Granted(r, who, c, key), keys)
  {
    hide NeedsWrap, GrantedAccess;
  }

  lemma PolicyStored(recs: Recs, keys: KeyRing, realms: Realms, files: Contents, id: RealmId, next: Realm)
    requires AllStored(recs, keys, realms, files) && id in realms && next == realms[id].(access := next.access, keyWraps := next.keyWraps) && WrapsCarry(next, keys)
    ensures AllStored(recs, keys, realms[id := next], files)
  {
    hide TotalSize, FilesIn, Stores, WrapsCarry;
    assert RealmStored(recs, keys, realms[id], files[id]);
    forall x | x in realms && x != id ensures RealmStored(recs, keys, realms[x], files[x]) {
    }
  }

  lemma NothingRewritten(tree: Inodes)
    ensures RewritesOk(tree, [])
  {
  }

  lemma MoveIsDone(t: Inodes, from: Path, to: Path, c: Change)
    ensures Move(t, from, to, c, []).Done? || Move(t, from, to, c, []).Refused?
  {
    hide Relocated, EnsureParents;
  }

  lemma StoredAt(recs: Recs, keys: KeyRing, realms: Realms, files: Contents, id: RealmId)
    requires AllStored(recs, keys, realms, files) && id in realms
    ensures id in files && Stores(recs, VaultOf(realms[id], keys), realms[id].catalogPages, files[id])
  {
    hide StatsMatch, Stores, WrapsCarry;
    assert RealmStored(recs, keys, realms[id], files[id]);
  }

  lemma SessionAt(recs: Recs, commits: Commits, keys: KeyRing, realms: Realms, sessions: map<SessionId, Session>, drafts: map<SessionId, bytes>, sid: SessionId)
    requires SessionsOk(recs, commits, keys, realms, sessions, drafts) && sid in sessions
    ensures sid in drafts && SessionOk(recs, commits, keys, realms, sessions[sid], drafts[sid]) && sessions[sid].realmId in realms
  {
    hide Readable, SameKey;
    assert SessionOk(recs, commits, keys, realms, sessions[sid], drafts[sid]);
  }

  lemma FilesOf(recs: Recs, keys: KeyRing, realms: Realms, files: Contents, id: RealmId)
    requires AllStored(recs, keys, realms, files) && id in realms
    ensures id in files
  {
    hide RealmStored;
  }

  lemma StoredWraps(recs: Recs, keys: KeyRing, realms: Realms, files: Contents, id: RealmId)
    requires AllStored(recs, keys, realms, files) && id in realms
    ensures WrapsCarry(realms[id], keys)
  {
    hide Stores, WrapsCarry;
    assert RealmStored(recs, keys, realms[id], files[id]);
  }

  /** Someone who may write a sealed realm is a reader of it, so it has a key wrap. */
  lemma WriterHasWrap(r: Realm, identities: set<Identity>, actor: Option<Identity>)
    requires RealmOk(r, identities) && r.secret && MayWrite(r, actor)
    ensures r.keyWraps != []
  {
    assert actor.Some? && actor.value in r.access.readers;
    assert !Unclaimed(r);
    assert actor.value in Recipients(r.keyWraps);
  }

  lemma PolicyKey(s: Session, r: Realm, identities: set<Identity>, keys: KeyRing)
    requires RealmOk(r, identities) && MayWrite(r, s.actor) && WrapsCarry(r, keys) && PolicyOf(s.baseRealm) == PolicyOf(r)
    ensures SameKey(s, keys) && VaultOf(s.baseRealm, keys) == VaultOf(r, keys)
  {
    hide RealmOk, MayWrite;
    if r.secret {
      WriterHasWrap(r, identities, s.actor);
    }
  }

  lemma RootFacts(t: Trust, commits: Commits, root: Root, offset: nat, chain: seq<Link>, id: RealmId)
    requires RootStored(t, commits, root, offset, chain) && id in root.state.realms
    ensures offset in commits && commits[offset] == root && root.state.realms[id].id == id && RealmOk(root.state.realms[id], root.state.identities)
  {
    RealmIds(t, commits, root, offset, chain, id);
  }

  lemma NewSession(recs: Recs, commits: Commits, keys: KeyRing, root: Root, offset: nat, files: Contents, s: Session,
    sessions: map<SessionId, Session>, drafts: map<SessionId, bytes>, sid: SessionId)
    requires offset in commits && commits[offset] == root && AllStored(recs, keys, root.state.realms, files)
    requires s.realmId in root.state.realms && root.state.realms[s.realmId].id == s.realmId && s.baseRealm == root.state.realms[s.realmId]
    requires s.chunks == [] && s.size == 0 && s.baseOffset == offset && s.baseHash == root.commitHash
    requires SessionsOk(recs, commits, keys, root.state.realms, sessions, drafts)
    ensures SessionsOk(recs, commits, keys, root.state.realms, sessions[sid := s], drafts[sid := []])
  {
    hide SessionOk, Represents, SameKey, WrapsCarry, StatsMatch, VaultOf;
    assert RealmStored(recs, keys, s.baseRealm, files[s.realmId]);
    assert SessionOk(recs, commits, keys, root.state.realms, s, []) by { StartsReadable(recs, commits, keys, root, s); }
  }

  lemma StartsReadable(recs: Recs, commits: Commits, keys: KeyRing, root: Root, s: Session)
    requires s.baseOffset in commits && commits[s.baseOffset] == root && s.baseHash == root.commitHash
    requires s.realmId in root.state.realms && root.state.realms[s.realmId].id == s.realmId && s.baseRealm == root.state.realms[s.realmId]
    requires s.chunks == [] && s.size == 0 && ListedRows(recs, VaultOf(s.baseRealm, keys), s.baseRealm.catalogPages).Some?
    ensures SessionOk(recs, commits, keys, root.state.realms, s, [])
  {
    hide ListedRows, VaultOf;
  }

  lemma NumberedNext(commits: Commits, end: nat, sessions: map<SessionId, Session>, next: SessionId, s: Session)
    requires Numbered(commits, end, sessions, next)
    ensures Numbered(commits, end, sessions[next := s], next + 1) && next !in sessions
  {
  }

  lemma NumberedChanged(commits: Commits, end: nat, more: nat, sessions: map<SessionId, Session>, next: SessionId, sid: SessionId, s: Session)
    requires Numbered(commits, end, sessions, next) && sid in sessions && end <= more
    ensures Numbered(commits, more, sessions[sid := s], next)
  {
  }

  lemma NumberedFewer(commits: Commits, end: nat, sessions: map<SessionId, Session>, next: SessionId, sid: SessionId)
    requires Numbered(commits, end, sessions, next)
    ensures Numbered(commits, end, sessions - {sid}, next)
  {
  }

  lemma SessionRealm(recs: Recs, commits: Commits, keys: KeyRing, realms: Realms, s: Session, draft: bytes)
    requires SessionOk(recs, commits, keys, realms, s, draft)
    ensures s.realmId in realms && realms[s.realmId].secret == s.baseRealm.secret && s.baseRealm.id == s.realmId && |draft| == s.size
  {
    hide Readable, SameKey;
  }

  lemma PutSession(recs: Recs, commits: Commits, keys: KeyRing, realms: Realms, sessions: map<SessionId, Session>, drafts: map<SessionId, bytes>,
    sid: SessionId, s: Session, draft: bytes)
    requires SessionsOk(recs, commits, keys, realms, sessions, drafts) && SessionOk(recs, commits, keys, realms, s, draft)
    ensures SessionsOk(recs, commits, keys, realms, sessions[sid := s], drafts[sid := draft])
  {
    hide SessionOk;
  }

  lemma DropSession(recs: Recs, commits: Commits, keys: KeyRing, realms: Realms, sessions: map<SessionId, Session>, drafts: map<SessionId, bytes>, sid: SessionId)
    requires SessionsOk(recs, commits, keys, realms, sessions, drafts)
    ensures SessionsOk(recs, commits, keys, realms, sessions - {sid}, drafts - {sid})
  {
    hide SessionOk;
  }

  lemma SealedDataReads(recs: Recs, v: Vault, aad: Aad, bytes: bytes, from: nat)
    requires Unlocked(v)
    ensures ReadData(recs + [DataRec(Seal(v, aad, bytes))], v, Chunk(from, |bytes|, |recs|, AadOf(v, aad))) == Some(bytes)
  {
  }

  /** A new chunk sealed under the current key continues the session, if the key has not changed since it began. */
  lemma ChunkAdded(recs: Recs, v: Vault, aad: Aad, bytes: bytes, s: Session, chunk: Chunk, more: Recs, commits: Commits, keys: KeyRing, realms: Realms, draft: bytes)
    requires SessionOk(recs, commits, keys, realms, s, draft) && Unlocked(v)
    requires more == recs + [DataRec(Seal(v, aad, bytes))] && chunk == Chunk(s.size, |bytes|, |recs|, AadOf(v, aad))
    requires s.realmId in realms && realms[s.realmId].id == s.realmId && v == VaultOf(realms[s.realmId], keys)
    ensures SessionOk(more, commits, keys, realms, s.(chunks := s.chunks + [chunk], size := s.size + |bytes|), draft + bytes)
  {
    hide ChunkBytes, ListedRows, ReadData, Seal, Unlocked, AadOf;
    if SameKey(s, keys) {
      ChunkBytesStay(recs, more, VaultOf(s.baseRealm, keys), s.chunks, 0);
      RowsStay(recs, more, VaultOf(s.baseRealm, keys), s.baseRealm.catalogPages);
      SealedDataReads(recs, v, aad, bytes, s.size);
      ChunkBytesSnoc(more, v, s.chunks, 0, chunk);
    }
  }

  lemma SessionBase(recs: Recs, commits: Commits, keys: KeyRing, realms: Realms, s: Session, draft: bytes)
    requires SessionOk(recs, commits, keys, realms, s, draft)
    ensures s.baseOffset in commits && s.realmId in commits[s.baseOffset].state.realms && commits[s.baseOffset].state.realms[s.realmId] == s.baseRealm
    ensures s.baseHash == commits[s.baseOffset].commitHash
  {
    hide Readable, SameKey;
  }

  lemma StoresCatalog(recs: Recs, v: Vault, r: Realm, files: Tree<bytes>)
    requires Stores(recs, v, r.catalogPages, files)
    ensures ListedRows(recs, v, r.catalogPages).Some? && CatalogOf(recs, v, r) == TreeOf(ListedRows(recs, v, r.catalogPages).value)
  {
    hide ListedRows, TreeOf;
  }

  function CatalogOf(recs: Recs, v: Vault, r: Realm): Inodes {
    var rows := ListedRows(recs, v, r.catalogPages);
    if rows.None? then map[] else TreeOf(rows.value)
  }

  lemma RealmIds(t: Trust, commits: Commits, root: Root, offset: nat, chain: seq<Link>, id: RealmId)
    requires RootStored(t, commits, root, offset, chain) && id in root.state.realms
    ensures root.state.realms[id].id == id && RealmOk(root.state.realms[id], root.state.identities)
  {
    hide LinksTo, ValidChain, RealmOk, Authorized, HashesOk;
  }

  lemma StoredAfter(recs: Recs, keys: KeyRing, realms: Realms, files: Contents, id: RealmId, next: Realm, after: Tree<bytes>)
    requires AllStored(recs, keys, realms, files) && id in realms && OnlyContent(realms[id], next) && Stores(recs, VaultOf(realms[id], keys), next.catalogPages, after)
    requires StatsMatch(next, after)
    ensures AllStored(recs, keys, realms[id := next], files[id := after])
  {
    hide StatsMatch, Stores, WrapsCarry;
    assert RealmStored(recs, keys, realms[id], files[id]);
    SameWraps(realms[id], next, keys);
    forall x | x in realms && x != id ensures RealmStored(recs, keys, realms[x], files[x]) {
    }
  }

  /** After a commit that gave one realm new contents. */
  lemma AfterContent(recs: Recs, more: Recs, commits: Commits, others: Commits, keys: KeyRing, root: Root, nextRoot: Root, files: Contents,
    sessions: map<SessionId, Session>, drafts: map<SessionId, bytes>, past: seq<Contents>, first: nat, id: RealmId, next: Realm, after: Tree<bytes>)
    requires recs <= more && forall o | o in commits :: o in others && others[o] == commits[o]
    requires AllStored(recs, keys, root.state.realms, files) && SessionsOk(recs, commits, keys, root.state.realms, sessions, drafts)
    requires PastOk(recs, keys, Some(root), files, sessions, past, first) && id in root.state.realms && id in files
    requires OnlyContent(root.state.realms[id], next) && Stores(recs, VaultOf(root.state.realms[id], keys), next.catalogPages, after) && StatsMatch(next, after)
    requires Stamped(files[id], after, root.state.generation + 1)
    requires nextRoot.state.realms == root.state.realms[id := next] && nextRoot.state.generation == root.state.generation + 1
    ensures var now := files[id := after];
      AllStored(more, keys, nextRoot.state.realms, now) && SessionsOk(more, others, keys, nextRoot.state.realms, sessions, drafts)
      && PastOk(more, keys, Some(nextRoot), now, sessions, past + [now], first)
  {
    hide AllStored, SessionsOk, PastOk, Stores, StatsMatch, Stamped, SameShape, VaultOf;
    var realms, now := nextRoot.state.realms, files[id := after];
    StoredAfter(recs, keys, root.state.realms, files, id, next, after);
    ShapeAfter(root.state.realms, id, next);
    SessionsShape(recs, commits, keys, root.state.realms, realms, sessions, drafts);
    OneTreeStamped(files, id, after, root.state.generation + 1);
    AllStoredStays(recs, more, keys, realms, now);
    SessionsStay(recs, more, commits, others, keys, realms, sessions, drafts);
    PastAfter(recs, more, keys, root, files, sessions, past, first, nextRoot, now);
  }

  lemma SameWraps(before: Realm, after: Realm, keys: KeyRing)
    requires OnlyContent(before, after) && WrapsCarry(before, keys)
    ensures WrapsCarry(after, keys) && VaultOf(after, keys) == VaultOf(before, keys)
  {
    assert after.keyWraps == before.keyWraps;
  }

  lemma ShapeAfter(realms: Realms, id: RealmId, next: Realm)
    requires id in realms && next.id == realms[id].id && next.secret == realms[id].secret && next.governance == realms[id].governance
    ensures SameShape(realms, realms[id := next])
  {
  }

  lemma SessionsShape(recs: Recs, commits: Commits, keys: KeyRing, realms: Realms, others: Realms, sessions: map<SessionId, Session>, drafts: map<SessionId, bytes>)
    requires SessionsOk(recs, commits, keys, realms, sessions, drafts) && SameShape(realms, others)
    ensures SessionsOk(recs, commits, keys, others, sessions, drafts)
  {
    hide Readable, SameKey;
    forall id | id in sessions ensures SessionOk(recs, commits, keys, others, sessions[id], drafts[id]) {
      assert SessionOk(recs, commits, keys, realms, sessions[id], drafts[id]);
    }
  }

  /** A catalog written from entries that stand for a tree of contents stores it. */
  lemma BuiltStores(recs: Recs, more: Recs, v: Vault, tree: Inodes, rewrites: seq<Rewrite>, pages: seq<CatalogPage>, rows: seq<Row>, after: Tree<bytes>, realm: Realm)
    requires recs <= more && Represents(recs, v, tree, rewrites, after) && WithMaps(more, v, tree, rewrites, TreeOf(rows)) && DistinctPaths(rows)
    requires ListedRows(more, v, pages) == Some(rows) && (pages == [] <==> rows == [])
    ensures Stores(more, v, pages, after) && StatsMatch(realm.(catalogPages := pages, stats := StatsOf(realm, rows)), after)
  {
    hide Represents, WithMaps, TreeOf, DistinctPaths, ListedRows;
    RewritesStay(recs, more, v, tree, rewrites, after);
    MapsRepresent(more, v, tree, rewrites, TreeOf(rows), after);
    NoRowsNoFiles(more, v, rows, after);
    ListingCounts(more, v, rows, after);
  }

  lemma BuiltRows(recs: Recs, more: Recs, v: Vault, sizes: Sizes, tree: Inodes, rewrites: seq<Rewrite>, rows: seq<Row>, after: Tree<bytes>)
    requires recs <= more && Represents(recs, v, tree, rewrites, after)
    requires MapsFit(v, sizes, rewrites) ==> WithMaps(more, v, tree, rewrites, TreeOf(rows)) && DistinctPaths(rows)
    ensures RowsOf(more, v, sizes, rewrites, rows, after)
  {
    hide Represents, WithMaps, TreeOf, MapsFit;
    if MapsFit(v, sizes, rewrites) {
      RewritesStay(recs, more, v, tree, rewrites, after);
      MapsRepresent(more, v, tree, rewrites, TreeOf(rows), after);
    }
  }

  lemma PagesAfter(before: Realm, next: Realm)
    requires OnlyContent(before, next) && forall i | 0 <= i < |next.catalogPages| :: next.catalogPages[i].aad.Some? <==> before.secret
    ensures PagesOk(next)
  {
  }

  lemma NextState(t: Trust, parent: Root, offset: nat, realms: Realms, extra: set<Identity>, actor: Option<Identity>, changes: seq<RealmChange>)
    ensures var s := NextRoot(t, parent, offset, realms, extra, actor, changes).state;
      s.realms == realms && s.generation == parent.state.generation + 1 && s.previousOffset == LinkedOffset(offset, realms)
      && s.history == if AnyShared(realms) then Integrity else NoHistory
    ensures Declared(NextRoot(t, parent, offset, realms, extra, actor, changes)) == if AnyShared(realms) then changes else []
  {
  }

  /** New contents or a new policy of one realm is at most one change. */
  lemma OneRealmDeclared(changes: seq<RealmChange>, realms: Realms, id: RealmId, next: Realm)
    requires Infers(changes, realms, realms[id := next])
    ensures |changes| <= 1
  {
    hide Lt, PolicyOf, ContentOf;
    forall i | 0 <= i < |changes| ensures changes[i].realm == id {
      assert ChangeOf(realms, realms[id := next], changes[i].realm) == Some(changes[i]);
    }
    OneRealmChanged(changes, id);
  }

  lemma NothingChanges(realms: Realms, id: RealmId)
    ensures ChangeOf(realms, realms, id).None?
  {
  }

  lemma NothingDeclared(changes: seq<RealmChange>, realms: Realms)
    requires Infers(changes, realms, realms)
    ensures |changes| <= 1
  {
    hide Lt, PolicyOf, ContentOf;
    NothingChanges(realms, if changes == [] then [] else changes[0].realm);
  }

  lemma StoredChain(t: Trust, less: (Key, Key) -> bool, commits: Commits, root: Root, offset: nat, chain: seq<Link>)
    requires RootStored(t, commits, root, offset, chain) && root.state.history.Integrity? && Asymmetric(less)
    ensures LinksTo(commits, chain, offset)
    ensures ValidChain(Elsewhere(t, less), chain) <==> forall i | 0 < i < |chain| :: InLocaleOrder(less, Declared(chain[i].root))
    ensures Narrow(chain) ==> ValidChain(Elsewhere(t, less), chain)
  {
    hide WellFormed, LinksTo, ValidChain, Declares, Asymmetric, Narrow, InLocaleOrder, Declared;
    ChainElsewhere(t, less, chain);
  }

  lemma CurrentRoot(t: Trust, commits: Commits, root: Root, offset: nat, chain: seq<Link>)
    requires RootStored(t, commits, root, offset, chain)
    ensures offset in commits && commits[offset] == root && WellFormed(t, root)
  {
    hide WellFormed, LinksTo, ValidChain;
  }

  lemma CommitsGrow(commits: Commits, at: nat, r: Root)
    requires at !in commits
    ensures forall o | o in commits :: o in commits[at := r] && commits[at := r][o] == commits[o]
  {
  }

  lemma ShapeKeepsSharing(before: Realms, after: Realms)
    requires SameShape(before, after)
    ensures AnyShared(before) == AnyShared(after)
  {
  }

  lemma SessionsStay(recs: Recs, more: Recs, commits: Commits, others: Commits, keys: KeyRing, realms: Realms, sessions: map<SessionId, Session>, drafts: map<SessionId, bytes>)
    requires recs <= more && SessionsOk(recs, commits, keys, realms, sessions, drafts) && forall o | o in commits :: o in others && others[o] == commits[o]
    ensures SessionsOk(more, others, keys, realms, sessions, drafts)
  {
    hide ChunkBytes, ListedRows, VaultOf, SameKey;
    forall id | id in sessions ensures SessionOk(more, others, keys, realms, sessions[id], drafts[id]) {
      var s := sessions[id];
      assert SessionOk(recs, commits, keys, realms, s, drafts[id]);
      if SameKey(s, keys) {
        ChunkBytesStay(recs, more, VaultOf(s.baseRealm, keys), s.chunks, 0);
        RowsStay(recs, more, VaultOf(s.baseRealm, keys), s.baseRealm.catalogPages);
      }
    }
  }

  /** The verified chain after one more commit. */
  lemma Extended(t: Trust, commits: Commits, parent: Root, offset: nat, chain: seq<Link>, next: Root, at: nat) returns (more: seq<Link>)
    requires RootStored(t, commits, parent, offset, chain) && at !in commits
    requires AnyShared(next.state.realms) == AnyShared(parent.state.realms) && next.state.previousOffset == LinkedOffset(offset, next.state.realms)
    requires next.state.history == if AnyShared(next.state.realms) then Integrity else NoHistory
    requires ValidTransition(t, LinkedParent(parent, next.state.realms), next, LinkedOffset(offset, next.state.realms))
    requires AnyShared(next.state.realms) ==> Infers(Declared(next), parent.state.realms, next.state.realms)
    ensures RootStored(t, commits[at := next], next, at, more)
    ensures Narrow(chain) && |Declared(next)| <= 1 ==> Narrow(more)
  {
    hide WellFormed, LinksTo, ValidChain, ValidTransition, AnyShared, Declares, Infers, Declared;
    var realms := next.state.realms;
    ValidIsWellFormed(t, LinkedParent(parent, realms), next, LinkedOffset(offset, realms));
    more := [];
    if AnyShared(realms) {
      SharedIsLinked(t, parent);
      SharedIsLinked(t, next);
      HeadIsRoot(commits, chain, offset);
      ChainExtends(t, commits, chain, offset, next, at);
      DeclaresSnoc(chain, Link(at, next));
      more := chain + [Link(at, next)];
    }
  }

  lemma ValidIsWellFormed(t: Trust, p: Option<Root>, r: Root, o: Option<nat>)
    requires ValidTransition(t, p, r, o)
    ensures WellFormed(t, r)
  {
    hide WellFormed;
  }

  lemma SharedIsLinked(t: Trust, r: Root)
    requires WellFormed(t, r) && AnyShared(r.state.realms)
    ensures r.state.history.Integrity?
  {
    hide RealmOk;
    SharedNeedsChain(r.state);
  }

  lemma HeadIsRoot(commits: Commits, chain: seq<Link>, offset: nat)
    requires LinksTo(commits, chain, offset)
    ensures chain != [] && offset in commits && chain[|chain| - 1].root == commits[offset]
  {
  }

  /** What the first commit establishes. */
  lemma Installed(sizes: Sizes, t: Trust, recs: Recs, more: Recs, commits: Commits, sessions: map<SessionId, Session>, next: SessionId,
    drafts: map<SessionId, bytes>, chain: seq<Link>, usedKeys: set<SymKey>, keys: KeyRing, oldRing: KeyRing, oldFiles: Contents, noOffset: Option<nat>, first: Root, at: nat,
    unlocked: KeyRing, nextKeys: KeyRing, files: Contents) returns (firstChain: seq<Link>, used: set<SymKey>)
    requires BaseOk(sizes, t, |recs|, commits, None, noOffset, sessions, next, drafts, chain) && at == |recs| < |more| && recs <= more
    requires StoredOk(recs, commits, keys, usedKeys, oldRing, None, oldFiles, sessions, drafts)
    requires ValidTransition(t, None, first, None) && AllStored(recs, nextKeys, first.state.realms, files) && Unlocking(unlocked, nextKeys)
    ensures BaseOk(sizes, t, |more|, commits[at := first], Some(first), Some(at), sessions, next, drafts, firstChain) && Narrow(firstChain)
    ensures StoredOk(more, commits[at := first], nextKeys, used, unlocked, Some(first), files, sessions, drafts)
  {
    hide RootStored, AllStored, ValidTransition, Sane, Asymmetric, SessionsOk, Unlocking, Used, Numbered;
    NumberedMore(commits, at, |more|, first, sessions, next);
    AllStoredStays(recs, more, nextKeys, first.state.realms, files);
    NoSessions(more, commits[at := first], nextKeys, first.state.realms, sessions, drafts);
    firstChain := FirstChain(t, commits, first, at);
    used := UsedWith(nextKeys, sessions, usedKeys);
  }

  lemma UsedWith(keys: KeyRing, sessions: map<SessionId, Session>, some: set<SymKey>) returns (used: set<SymKey>)
    requires sessions == map[]
    ensures some <= used && Used(keys, sessions, used)
  {
    used := some + set id | id in keys :: keys[id];
  }

  lemma FreshRing(keys: KeyRing)
    ensures Unlocking(keys, keys)
  {
  }

  lemma NoSessions(recs: Recs, commits: Commits, keys: KeyRing, realms: Realms, sessions: map<SessionId, Session>, drafts: map<SessionId, bytes>)
    requires sessions == map[] && drafts == map[]
    ensures SessionsOk(recs, commits, keys, realms, sessions, drafts)
  {
  }

  lemma FirstChain(t: Trust, commits: Commits, first: Root, at: nat) returns (chain: seq<Link>)
    requires ValidTransition(t, None, first, None)
    ensures RootStored(t, commits[at := first], first, at, chain) && Narrow(chain)
  {
    hide WellFormed, LinksTo, ValidChain, ValidTransition;
    ValidIsWellFormed(t, None, first, None);
    chain := [];
    if first.state.history.Integrity? {
      ChainStarts(t, first, at, commits);
      chain := [Link(at, first)];
    }
  }

  predicate DescriptorsOk(realms: Realms, identities: set<Identity>) {
    forall id | id in realms :: realms[id].id == id && RealmOk(realms[id], identities)
  }

  lemma FirstState(t: Trust, admins: set<Identity>, identities: set<Identity>, realms: Realms, actor: Option<Identity>, changes: seq<RealmChange>)
    ensures var s := FirstRoot(t, admins, identities, realms, actor, changes).state;
      s.realms == realms && s.identities == identities && s.generation == 1
      && (RealmsOk(s) <==> DescriptorsOk(realms, identities))
  {
  }

  function NoFiles(realms: Realms): Contents { map id | id in realms :: map[] }

  /** A realm without entries, as `initialize` builds it. */
  predicate Empty(r: Realm) { r.catalogPages == [] && r.stats == if r.secret then Hidden(false) else Counted(0, 0, 0) }

  lemma NoStamps(realms: Realms)
    ensures NotNewer(NoFiles(realms), 1)
  {
  }

  lemma EmptyRealms(recs: Recs, keys: KeyRing, realms: Realms)
    requires forall id | id in realms :: Empty(realms[id]) && WrapsCarry(realms[id], keys)
    ensures AllStored(recs, keys, realms, NoFiles(realms))
  {
    forall id | id in realms ensures RealmStored(recs, keys, realms[id], map[]) {
      assert TreeOf([]) == map[];
    }
  }
}
