/**
 `commitTransaction` on the store: what an overtaken or refused transaction leaves alone, and what a prepared one publishes.
 */
module PigTxStore {
  import opened Bytes
  import opened Keys
  import opened PigTree
  import opened PigPages
  import opened PigBuild
  import opened PigMeaning
  import opened PigRoots
  import opened PigHistory
  import opened PigCommits
  import opened PigVersions
  import opened PigStore
  import opened PigTransactions

  /** `PIG_FS_DEFAULT_CHUNK_SIZE`: 4 MiB. */
  const TX_CHUNK: nat := 4194304

  /** What a caller puts into a transaction. */
  datatype Request = WriteRequest(path: Path, mime: Key, data: bytes) | MkdirRequest(path: Path) | RemoveRequest(path: Path, recursive: bool)
    | RenameRequest(path: Path, to: Path)

  /** What a request means for the contents of a realm. Nothing when it is an error. */
  ghost function RequestStep(t: Tree<bytes>, q: Request, c: Change): Option<Tree<bytes>> {
    match q
    case WriteRequest(path, mime, data) => Some(Write(t, path, c, [], |data|, mime, data))
    case MkdirRequest(path) => Some(AddDirectory(t, path, c, []))
    case RemoveRequest(path, recursive) => After(t, Discard(t, path, recursive))
    case RenameRequest(path, to) => After(t, PigTree.TxRename(t, path, to, c, []))
  }

  ghost function RequestRun(t: Tree<bytes>, requests: seq<Request>, c: Change): Option<Tree<bytes>> {
    if requests == [] then Some(t)
    else
      var before := RequestRun(t, requests[..|requests| - 1], c);
      if before.None? then None else RequestStep(before.value, requests[|requests| - 1], c)
  }

  lemma {:induction false} RequestsFail(t: Tree<bytes>, requests: seq<Request>, c: Change, n: nat)
    requires n <= |requests| && RequestRun(t, requests[..n], c).None?
    ensures RequestRun(t, requests, c).None?
    decreases |requests|
  {
    hide RequestStep;
    if n == |requests| {
      assert requests[..n] == requests;
    } else {
      assert requests[..|requests| - 1][..n] == requests[..n];
      RequestsFail(t, requests[..|requests| - 1], c, n);
    }
  }

  // ----- requests and the operations that carry them out

  /** The operation does what the request says, its chunks holding the data. */
  predicate Fulfils(recs: Recs, v: Vault, op: TxOp, q: Request) {
    match q
    case WriteRequest(path, mime, data) =>
      op.TxWrite? && op.path == path && op.mime == mime && op.size == |data| && ChunkBytes(recs, v, op.chunks, 0) == Some(data)
    case MkdirRequest(path) => op == TxMkdir(path)
    case RemoveRequest(path, recursive) => op == TxRemove(path, recursive)
    case RenameRequest(path, to) => op == TxOp.TxRename(path, to)
  }

  ghost predicate FulfilAll(recs: Recs, v: Vault, ops: seq<TxOp>, requests: seq<Request>) {
    |ops| == |requests| && forall k | 0 <= k < |ops| :: Fulfils(recs, v, ops[k], requests[k])
  }

  lemma FulfilStays(recs: Recs, more: Recs, v: Vault, ops: seq<TxOp>, requests: seq<Request>)
    requires recs <= more && FulfilAll(recs, v, ops, requests)
    ensures FulfilAll(more, v, ops, requests)
  {
    hide ChunkBytes;
    forall k | 0 <= k < |ops| ensures Fulfils(more, v, ops[k], requests[k]) {
      assert Fulfils(recs, v, ops[k], requests[k]);
      if ops[k].TxWrite? {
        ChunkBytesStay(recs, more, v, ops[k].chunks, 0);
      }
    }
  }

  lemma FulfilsMeans(recs: Recs, v: Vault, t: Tree<bytes>, op: TxOp, q: Request, c: Change)
    requires Fulfils(recs, v, op, q)
    ensures Performed(t, op, c, [], Data(recs, v)) == RequestStep(t, q, c) && Complete(recs, v, op)
  {
    hide ChunkBytes, EnsureParents, Relocated;
  }

  lemma {:induction false} FulfilAllMeans(recs: Recs, v: Vault, t: Tree<bytes>, ops: seq<TxOp>, requests: seq<Request>, c: Change)
    requires FulfilAll(recs, v, ops, requests)
    ensures MeantRun(recs, v, t, ops, c) == RequestRun(t, requests, c) && forall k | 0 <= k < |ops| :: Complete(recs, v, ops[k])
    decreases |ops|
  {
    hide Fulfils, Performed, RequestStep, Complete;
    if ops != [] {
      var n := |ops| - 1;
      forall k | 0 <= k < n ensures Fulfils(recs, v, ops[..n][k], requests[..n][k]) {
        assert Fulfils(recs, v, ops[k], requests[k]);
      }
      FulfilAllMeans(recs, v, t, ops[..n], requests[..n], c);
      forall k | 0 <= k < |ops| ensures Complete(recs, v, ops[k]) {
        assert Fulfils(recs, v, ops[k], requests[k]);
        FulfilsMeans(recs, v, t, ops[k], requests[k], c);
      }
      if MeantRun(recs, v, t, ops[..n], c).Some? {
        FulfilsMeans(recs, v, MeantRun(recs, v, t, ops[..n], c).value, ops[n], requests[n], c);
      }
    }
  }

  // ----- every request stamps what it touches

  lemma StampedThrough<C>(t: Tree<C>, u: Tree<C>, w: Tree<C>, generation: nat)
    requires Stamped(t, u, generation) && Stamped(u, w, generation)
    ensures Stamped(t, w, generation)
  {
  }

  lemma ParentsStamp(t: Tree<bytes>, path: Path, c: Change)
    ensures Stamped(t, EnsureParents(t, path, c, []), c.generation)
  {
    hide EnsureParents;
    EnsureParentsShape(t, path, c, []);
  }

  lemma RequestStamps(t: Tree<bytes>, q: Request, c: Change)
    requires RequestStep(t, q, c).Some?
    ensures Stamped(t, RequestStep(t, q, c).value, c.generation)
  {
    hide EnsureParents, Relocated, Above;
    match q
    case WriteRequest(path, mime, data) => ParentsStamp(t, path, c);
    case MkdirRequest(path) => ParentsStamp(t, path, c);
    case RemoveRequest(path, recursive) =>
    case RenameRequest(path, to) =>
      ParentsStamp(t, to, c);
      RelocatedStamps(EnsureParents(t, to, c, []), path, to, c);
      StampedThrough(t, EnsureParents(t, to, c, []), Relocated(EnsureParents(t, to, c, []), path, to, c), c.generation);
  }

  lemma {:induction false} RequestsStamp(t: Tree<bytes>, requests: seq<Request>, c: Change)
    requires RequestRun(t, requests, c).Some?
    ensures Stamped(t, RequestRun(t, requests, c).value, c.generation)
    decreases |requests|
  {
    hide RequestStep, Stamped;
    if requests == [] {
      assert Stamped(t, t, c.generation) by { hide *; SameIsStamped(t, c.generation); }
    } else {
      var n := |requests| - 1;
      RequestsStamp(t, requests[..n], c);
      var u := RequestRun(t, requests[..n], c).value;
      RequestStamps(u, requests[n], c);
      StampedThrough(t, u, RequestRun(t, requests, c).value, c.generation);
    }
  }

  lemma SameIsStamped(t: Tree<bytes>, generation: nat)
    ensures Stamped(t, t, generation)
  {
  }

  // ----- what is written

  lemma DataSnoc(recs: Recs, v: Vault, chunks: seq<Chunk>, data: bytes, pos: nat, to: nat, aad: Aad)
    requires Unlocked(v) && pos <= to <= |data| && ChunkBytes(recs, v, chunks, 0) == Some(data[..pos])
    ensures ChunkBytes(recs + [DataRec(Seal(v, aad, data[pos..to]))], v, chunks + [Chunk(pos, to - pos, |recs|, AadOf(v, aad))], 0) == Some(data[..to])
  {
    hide ChunkBytes, ReadData, Seal, Unlocked, AadOf;
    var part := data[pos..to];
    var more := recs + [DataRec(Seal(v, aad, part))];
    ChunkBytesStay(recs, more, v, chunks, 0);
    SealedDataReads(recs, v, aad, part, pos);
    ChunkBytesSnoc(more, v, chunks, 0, Chunk(pos, |part|, |recs|, AadOf(v, aad)));
    assert data[..pos] + part == data[..to];
  }

  lemma NoData(recs: Recs, v: Vault)
    ensures ChunkBytes(recs, v, [], 0) == Some([])
  {
  }

  /** The chunk at this place: as much of the data as fits, bound to its realm, generation, path and place. */
  ghost predicate ChunkIs(c: Chunk, v: Vault, realm: Key, generation: nat, path: Path, size: nat, i: nat) {
    c.plainOffset == i * TX_CHUNK < size && c.plainLength == Min(TX_CHUNK, size - c.plainOffset) && c.aad == AadOf(v, Aad(TxAad, realm, generation, path, i))
  }

  /** The data of one write, in chunks of 4 MiB; an empty file has none. */
  method StoreData(log: RecordLog, v: Vault, realm: Key, generation: nat, path: Path, data: bytes) returns (chunks: seq<Chunk>)
    requires Unlocked(v)
    modifies log
    ensures old(log.recs) <= log.recs && ChunkBytes(log.recs, v, chunks, 0) == Some(data)
    ensures forall i | 0 <= i < |chunks| :: ChunkIs(chunks[i], v, realm, generation, path, |data|, i)
  {
    hide ChunkBytes, Seal, AadOf, Unlocked;
    chunks := [];
    var pos := 0;
    NoData(log.recs, v);
    assert data[..0] == [];
    while pos < |data|
      invariant pos <= |data| && old(log.recs) <= log.recs && ChunkBytes(log.recs, v, chunks, 0) == Some(data[..pos])
      invariant pos == Min(|data|, |chunks| * TX_CHUNK) && forall i | 0 <= i < |chunks| :: ChunkIs(chunks[i], v, realm, generation, path, |data|, i)
    {
      var to := Min(|data|, pos + TX_CHUNK);
      var aad := Aad(TxAad, realm, generation, path, |chunks|);
      DataSnoc(log.recs, v, chunks, data, pos, to, aad);
      var offset := log.Append(DataRec(Seal(v, aad, data[pos..to])));
      chunks := chunks + [Chunk(pos, to - pos, offset, AadOf(v, aad))];
      pos := to;
    }
    assert data[..pos] == data;
  }

  /** The remembered chunks of files, as the rewrites of a realm. */
  ghost predicate Remembers(entries: Inodes, changed: map<Path, seq<Chunk>>, left: set<Path>, rewrites: seq<Rewrite>) {
    RewritesOk(entries, rewrites)
    && (forall i | 0 <= i < |rewrites| :: rewrites[i].path in changed && rewrites[i].path !in left)
    && forall p | p in entries && entries[p].kind == File :: Rewritten(rewrites, p) == if p in left then None else ChangedAt(changed, p)
  }

  lemma RememberOne(entries: Inodes, changed: map<Path, seq<Chunk>>, left: set<Path>, rewrites: seq<Rewrite>, path: Path)
    requires Remembers(entries, changed, left, rewrites) && path in left && path in changed && path in entries
    ensures Remembers(entries, changed, left - {path}, if entries[path].kind == File then rewrites + [Rewrite(path, changed[path])] else rewrites)
  {
    if entries[path].kind == File {
      var more := rewrites + [Rewrite(path, changed[path])];
      assert more[..|rewrites|] == rewrites;
      forall p | p in entries && entries[p].kind == File
        ensures Rewritten(more, p) == if p in left - {path} then None else ChangedAt(changed, p)
      {
        assert Rewritten(more, p) == if p == path then Some(changed[path]) else Rewritten(rewrites, p);
      }
    }
  }

  method RewritesFor(entries: Inodes, changed: map<Path, seq<Chunk>>) returns (rewrites: seq<Rewrite>)
    requires changed.Keys <= entries.Keys
    ensures Remembers(entries, changed, {}, rewrites)
  {
    hide RewritesOk, Rewritten;
    rewrites := [];
    var left := changed.Keys;
    assert Remembers(entries, changed, left, []) by { hide *; NothingRemembered(entries, changed); }
    while left != {}
      invariant left <= changed.Keys && Remembers(entries, changed, left, rewrites)
      decreases left
    {
      var path :| path in left;
      RememberOne(entries, changed, left, rewrites, path);
      if entries[path].kind == File {
        rewrites := rewrites + [Rewrite(path, changed[path])];
      }
      left := left - {path};
    }
  }

  lemma NothingRemembered(entries: Inodes, changed: map<Path, seq<Chunk>>)
    ensures Remembers(entries, changed, changed.Keys, [])
  {
  }

  /** What is built from the rewrites is what the state publishes. */
  lemma RepresentsIsPublishes(recs: Recs, v: Vault, s: TxState, rewrites: seq<Rewrite>, files: Tree<bytes>)
    requires Builds(s) && Remembers(s.entries, s.changed, {}, rewrites)
    ensures Represents(recs, v, s.entries, rewrites, files) <==> Publishes(recs, v, s, files)
  {
    hide ChunkBytes, FileBytes, Rewritten, RewritesOk, SameNode;
    if s.entries.Keys == files.Keys {
      forall p | p in s.entries
        ensures HoldsFile(recs, v, s.entries[p], Rewritten(rewrites, p), files[p]) <==> HoldsFile(recs, v, s.entries[p], ChangedAt(s.changed, p), files[p])
      {
      }
    }
  }

  // ----- up to the point where the realm is built

  /** An error, a realm that cannot be built, nothing to build, or the edited catalog with the chunks to be mapped. */
  datatype Prepared = Rejected(status: Status) | Unbuildable | Untouched | Ready(tree: Inodes, rewrites: seq<Rewrite>)

  /**
   What has been prepared: an error exactly if the requests are one; no realm exactly if a written path is no entry at the end; and otherwise
   a catalog that stands for what the requests mean exactly if what is remembered for each file is its own data.
   */
  ghost predicate Prepares(recs: Recs, v: Vault, catalog: Inodes, files: Tree<bytes>, requests: seq<Request>, ops: seq<TxOp>, c: Change, p: Prepared) {
    var meant := RequestRun(files, requests, c);
    if meant.None? then p == Rejected(NotAllowed)
    else
      !p.Rejected? && FulfilAll(recs, v, ops, requests)
      && var s, own := TxRun(TxState(catalog, map[]), ops, c), OwnRun(catalog, ops, c);
        s.Some? && own.Some? && (p.Unbuildable? <==> !Builds(s.value)) && (p.Untouched? ==> meant.value == files)
        && (p.Ready? ==>
          p.tree == s.value.entries && Remembers(p.tree, s.value.changed, {}, p.rewrites) && Stamped(files, meant.value, c.generation)
          && (Represents(recs, v, p.tree, p.rewrites, meant.value) <==> AllKeptRight(recs, v, s.value.changed, own.value)))
  }

  /** One operation. */
  method PerformRequest(log: RecordLog, v: Vault, realm: Key, s: TxState, q: Request, c: Change) returns (next: Option<TxState>, op: TxOp)
    requires Unlocked(v)
    modifies log
    ensures old(log.recs) <= log.recs && Fulfils(log.recs, v, op, q) && next == TxStep(s, op, c)
    ensures q.RenameRequest? && q.path !in s.entries ==> next == Some(s)
  {
    hide ChunkBytes, Unlocked, EnsureParents, Relocated, Below, Write, AddDirectory;
    match q
    case WriteRequest(path, mime, data) =>
      var chunks := StoreData(log, v, realm, c.generation, path, data);
      op := TxWrite(path, mime, |data|, chunks);
      next := Some(TxState(Write(s.entries, path, c, [], |data|, mime, []), s.changed[path := chunks]));
    case MkdirRequest(path) =>
      op := TxMkdir(path);
      next := Some(TxState(AddDirectory(s.entries, path, c, []), s.changed));
    case RemoveRequest(path, recursive) =>
      op := TxRemove(path, recursive);
      var edit := Discard(s.entries, path, recursive);
      next := if edit.Refused? then None else if edit.Done? then Some(TxState(edit.value, s.changed)) else Some(s);
    case RenameRequest(path, to) =>
      op := TxOp.TxRename(path, to);
      if path !in s.entries {
        next := Some(s);
      } else if to in s.entries {
        next := None;
      } else {
        var entries := RelocateSubtree(s.entries, path, to, c, []);
        next := Some(TxState(entries, s.changed));
      }
  }

  lemma RunSnoc(s: TxState, ops: seq<TxOp>, op: TxOp, c: Change)
    ensures TxRun(s, ops + [op], c) == if TxRun(s, ops, c).None? then None else TxStep(TxRun(s, ops, c).value, op, c)
  {
    hide TxStep;
    assert (ops + [op])[..|ops|] == ops;
  }

  /** An operation that throws: so do the requests. */
  lemma Throws(recs: Recs, v: Vault, catalog: Inodes, files: Tree<bytes>, requests: seq<Request>, ops: seq<TxOp>, c: Change)
    requires Represents(recs, v, catalog, [], files) && |ops| <= |requests| && FulfilAll(recs, v, ops, requests[..|ops|])
    requires TxRun(TxState(catalog, map[]), ops, c).None?
    ensures RequestRun(files, requests, c).None?
  {
    hide Represents, FulfilAll, TxRun, RequestRun, MeantRun, OwnRun, Publishes, AllKeptRight, Sized, Mapped, Complete;
    FulfilAllMeans(recs, v, files, ops, requests[..|ops|], c);
    TransactionMeans(recs, v, catalog, files, ops, c);
    RequestsFail(files, requests, c, |ops|);
  }

  /** All operations done. */
  lemma Done(recs: Recs, v: Vault, catalog: Inodes, files: Tree<bytes>, requests: seq<Request>, ops: seq<TxOp>, c: Change, p: Prepared)
    requires Represents(recs, v, catalog, [], files) && FulfilAll(recs, v, ops, requests) && TxRun(TxState(catalog, map[]), ops, c).Some?
    requires var s := TxRun(TxState(catalog, map[]), ops, c).value;
      match p
      case Rejected(_) => false
      case Unbuildable => !Builds(s)
      case Untouched => s == TxState(catalog, map[]) && RequestRun(files, requests, c) == Some(files)
      case Ready(tree, rewrites) => Builds(s) && tree == s.entries && Remembers(tree, s.changed, {}, rewrites)
    ensures Prepares(recs, v, catalog, files, requests, ops, c, p)
  {
    hide Represents, FulfilAll, TxRun, RequestRun, MeantRun, OwnRun, Publishes, AllKeptRight, Sized, Complete, Builds, Stamped, RewritesOk;
    FulfilAllMeans(recs, v, files, ops, requests, c);
    TransactionMeans(recs, v, catalog, files, ops, c);
    var s, meant := TxRun(TxState(catalog, map[]), ops, c).value, RequestRun(files, requests, c).value;
    RequestsStamp(files, requests, c);
    if p.Ready? {
      RepresentsIsPublishes(recs, v, s, p.rewrites, meant);
    }
    if p.Untouched? {
      NothingChanged(catalog);
    }
  }

  lemma NothingChanged(catalog: Inodes)
    ensures Builds(TxState(catalog, map[]))
  {
  }

  /** A rename of nothing is nothing. */
  lemma NothingMoved(recs: Recs, v: Vault, catalog: Inodes, files: Tree<bytes>, requests: seq<Request>, i: nat, c: Change)
    requires Represents(recs, v, catalog, [], files) && i < |requests| && RequestRun(files, requests[..i], c) == Some(files)
    requires requests[i].RenameRequest? && requests[i].path !in catalog
    ensures RequestRun(files, requests[..i + 1], c) == Some(files)
  {
    hide Represents, Relocated, EnsureParents;
    RepresentsKeys(recs, v, catalog, files);
    assert requests[..i + 1][..i] == requests[..i];
  }

  lemma FulfilSnoc(recs: Recs, v: Vault, ops: seq<TxOp>, requests: seq<Request>, op: TxOp)
    requires |ops| < |requests| && FulfilAll(recs, v, ops, requests[..|ops|]) && Fulfils(recs, v, op, requests[|ops|])
    ensures FulfilAll(recs, v, ops + [op], requests[..|ops| + 1])
  {
    hide Fulfils;
    var i := |ops|;
    forall k | 0 <= k < i + 1 ensures Fulfils(recs, v, (ops + [op])[k], requests[..i + 1][k]) {
      assert k < i ==> Fulfils(recs, v, ops[k], requests[..i][k]);
    }
  }

  /** All requests in order, on one catalog. */
  method PerformRequests(log: RecordLog, v: Vault, realm: Key, catalog: Inodes, requests: seq<Request>, c: Change, ghost files: Tree<bytes>)
    returns (p: Prepared, ghost ops: seq<TxOp>)
    requires Unlocked(v) && Represents(log.recs, v, catalog, [], files)
    modifies log
    ensures old(log.recs) <= log.recs && Prepares(log.recs, v, catalog, files, requests, ops, c, p)
  {
    hide Unlocked, Represents, FulfilAll, TxRun, TxStep, RequestRun, Fulfils, Prepares, Remembers;
    ghost var start := TxState(catalog, map[]);
    var s, touched, i := TxState(catalog, map[]), false, 0;
    ops := [];
    assert FulfilAll(log.recs, v, [], []) && TxRun(start, [], c) == Some(start) && RequestRun(files, [], c) == Some(files) by { hide *; NothingDone(log.recs, v, start, files, c); }
    assert requests[..0] == [];
    while i < |requests|
      invariant i <= |requests| && |ops| == i && old(log.recs) <= log.recs && Represents(log.recs, v, catalog, [], files)
      invariant FulfilAll(log.recs, v, ops, requests[..i]) && TxRun(start, ops, c) == Some(s)
      invariant !touched ==> s == start && RequestRun(files, requests[..i], c) == Some(files)
    {
      ghost var before := log.recs;
      var next, op := PerformRequest(log, v, realm, s, requests[i], c);
      RewritesStay(before, log.recs, v, catalog, [], files);
      FulfilStays(before, log.recs, v, ops, requests[..i]);
      FulfilSnoc(log.recs, v, ops, requests, op);
      RunSnoc(start, ops, op, c);
      ops := ops + [op];
      if next.None? {
        Throws(log.recs, v, catalog, files, requests, ops, c);
        assert Prepares(log.recs, v, catalog, files, requests, ops, c, Rejected(NotAllowed)) by { hide *; Errs(log.recs, v, catalog, files, requests, ops, c); }
        return Rejected(NotAllowed), ops;
      }
      if requests[i].RenameRequest? && requests[i].path !in s.entries {
        if !touched {
          NothingMoved(log.recs, v, catalog, files, requests, i, c);
        }
      } else {
        touched := true;
      }
      s := next.value;
      i := i + 1;
    }
    assert requests[..i] == requests;
    if !touched {
      p := Untouched;
    } else if !Builds(s) {
      p := Unbuildable;
    } else {
      var rewrites := RewritesFor(s.entries, s.changed);
      p := Ready(s.entries, rewrites);
    }
    Done(log.recs, v, catalog, files, requests, ops, c, p);
  }

  lemma NothingDone(recs: Recs, v: Vault, start: TxState, files: Tree<bytes>, c: Change)
    ensures FulfilAll(recs, v, [], []) && TxRun(start, [], c) == Some(start) && RequestRun(files, [], c) == Some(files)
  {
  }

  lemma Errs(recs: Recs, v: Vault, catalog: Inodes, files: Tree<bytes>, requests: seq<Request>, ops: seq<TxOp>, c: Change)
    requires RequestRun(files, requests, c).None?
    ensures Prepares(recs, v, catalog, files, requests, ops, c, Rejected(NotAllowed))
  {
  }

  // ----- on the store

  /** What a transaction remembers of the state it began on. */
  datatype Transaction = Transaction(actor: Option<Identity>, baseHash: Hash, baseOffset: nat, requests: seq<Request>)

  /** Another commit was published since it began. */
  ghost predicate TxOvertaken(store: PigFsStore, tx: Transaction)
    reads store
    requires store.root.Some?
  {
    tx.baseHash != store.root.value.commitHash || store.commitOffset != Some(tx.baseOffset)
  }

  /**
   The first half of `commitTransaction`, for one realm: overtaken by any other commit it conflicts, whatever it touches; then the realm must
   be there, and writable for every request. Nothing is published yet.
   */
  method PrepareTransaction(store: PigFsStore, id: RealmId, tx: Transaction, newId: Path -> Key) returns (p: Prepared, ghost ops: seq<TxOp>)
    requires store.Valid() && store.root.Some?
    modifies store.log
    ensures store.Valid() && old(store.log.recs) <= store.log.recs
    ensures tx.baseHash != store.root.value.commitHash || store.commitOffset != Some(tx.baseOffset) ==> p == Rejected(Conflict)
    ensures !TxOvertaken(store, tx) && tx.requests == [] ==> p == Untouched
    ensures !TxOvertaken(store, tx) && tx.requests != [] && !store.HasRealm(id) ==> p == Rejected(Missing)
    ensures !TxOvertaken(store, tx) && tx.requests != [] && store.HasRealm(id) ==>
      var c := Change(tx.actor, store.root.value.state.generation + 1, newId);
      var v := VaultOf(store.RealmAt(id), store.keys);
      id in store.files
      && if store.WriterStatus(id, tx.actor).Some? then p == Rejected(store.WriterStatus(id, tx.actor).value)
         else Prepares(store.log.recs, v, CatalogOf(old(store.log.recs), v, store.RealmAt(id)), store.files[id], tx.requests, ops, c, p)
  {
    hide BaseOk, StoredOk, PastOk, Prepares, Represents, ListedRows, TreeOf, WellFormed, RealmOk, AllStored, SessionsOk, Used, Unlocking, WrapsCarry;
    ops := [];
    var root := store.root.value;
    if tx.baseHash != root.commitHash || store.commitOffset != Some(tx.baseOffset) {
      return Rejected(Conflict), ops;
    }
    if tx.requests == [] {
      return Untouched, ops;
    }
    if id !in root.state.realms {
      return Rejected(Missing), ops;
    }
    store.Parts(id);
    var denied := store.WriterStatus(id, tx.actor);
    if denied.Some? {
      return Rejected(denied.value), ops;
    }
    var catalog := store.CurrentCatalog(id);
    ghost var recs := store.log.recs;
    label Before:
    p, ops := PerformRequests(store.log, VaultOf(store.RealmAt(id), store.realmKeys), id, catalog.value, tx.requests,
      Change(tx.actor, root.state.generation + 1, newId), store.files[id]);
    store.ArenaGrew@Before(recs);
  }

  /**
   The second half: whatever has been prepared is built and published, exactly if it fits. The catalog of the realm then lists exactly the
   prepared entries, with the remembered chunks for those that have some, and no other realm changes. It holds what the requests mean
   exactly if the prepared entries stand for that.
   */
  method FinishTransaction(store: PigFsStore, id: RealmId, actor: Option<Identity>, p: Prepared, ghost meant: Tree<bytes>) returns (ok: bool, ghost rows: seq<Row>)
    requires store.Valid() && store.root.Some? && CanSign(store.trust, actor) && (p.Untouched? || p.Ready?)
    requires p.Ready? ==> store.HasRealm(id) && id in store.files && store.WriterStatus(id, actor) == None && RewritesOk(p.tree, p.rewrites)
    modifies store`root, store`commitOffset, store`commits, store`keys, store`files, store`chain, store`past, store.log
    ensures store.Base() && store.root.Some? && old(store.log.recs) <= store.log.recs && store.keys == old(store.keys)
    ensures !ok ==> store.Valid() && store.root == old(store.root) && store.files == old(store.files) && store.past == old(store.past)
    ensures ok ==> store.root.value.state.generation == old(store.root.value.state.generation) + 1
    ensures p.Untouched? ==> ok && store.Valid() && store.files == old(store.files) && store.past == old(store.past) + [store.files]
    ensures p.Ready? ==> (ok <==> RealmFits(old(VaultOf(store.RealmAt(id), store.keys)), store.sizes, old(store.RealmAt(id).quota), p.rewrites, rows))
    ensures p.Ready? && ok ==>
      store.HasRealm(id) && OnlyContent(old(store.RealmAt(id)), store.RealmAt(id))
      && store.root.value.state.realms == old(store.root.value.state.realms)[id := store.RealmAt(id)]
    ensures p.Ready? && ok ==>
      var v := old(VaultOf(store.RealmAt(id), store.keys));
      ListedRows(store.log.recs, v, store.RealmAt(id).catalogPages) == Some(rows) && WithMaps(store.log.recs, v, p.tree, p.rewrites, TreeOf(rows))
      && (Stores(store.log.recs, v, store.RealmAt(id).catalogPages, meant) <==> Represents(store.log.recs, v, p.tree, p.rewrites, meant))
    ensures p.Ready? && ok && old(store.Describes(id, p.tree, p.rewrites, meant)) ==>
      store.Valid() && store.files == old(store.files)[id := meant] && store.past == old(store.past) + [store.files]
    ensures Narrow(old(store.chain)) ==> Narrow(store.chain)
  {
    hide BaseOk, StoredOk, PastOk, Represents, RewritesOk, Stamped, RealmFits, CanSign, MayWrite, Narrow, WithMaps, TreeOf, ListedRows, DistinctPaths,
      OnlyContent, VaultOf;
    rows := [];
    if p.Untouched? {
      store.PublishUnchanged(actor);
      return true, rows;
    }
    ghost var v := VaultOf(store.RealmAt(id), store.keys);
    var listed;
    ok, listed := store.PublishBuilt(id, p.tree, p.rewrites, actor, meant);
    rows := listed;
    if ok {
      assert MapsFit(v, store.sizes, p.rewrites) by { hide *; MapsAlsoFit(v, store.sizes, old(store.RealmAt(id).quota), p.rewrites, rows); }
      MapsRepresent(store.log.recs, v, p.tree, p.rewrites, TreeOf(rows), meant);
    }
  }

  /** One published file: its map pages list the chunks remembered under its path; without any, they are the ones that it had. */
  lemma PublishedEntry(recs: Recs, v: Vault, s: TxState, rewrites: seq<Rewrite>, published: Inodes, path: Path)
    requires Remembers(s.entries, s.changed, {}, rewrites) && WithMaps(recs, v, s.entries, rewrites, published)
    requires path in s.entries && s.entries[path].kind == File
    ensures path in published && published[path] == s.entries[path].(content := published[path].content)
    ensures if path in s.changed then ListedChunks(recs, v, published[path].content) == Some(s.changed[path]) else published[path] == s.entries[path]
  {
    hide RewritesOk, ListedChunks, Rewritten;
    assert EntryMapped(recs, v, s.entries[path], Rewritten(rewrites, path), published[path]);
  }

  /**
   What the store then has of a transaction that writes "a", renames it to "b" and writes "a" again: "a" with its chunks, and "b" with the
   size of what was written, but without map pages, so that reading it gives no bytes and no error (`PigPages.ReadRange`).
   */
  lemma LostOnStore(recs: Recs, v: Vault, x: TxOp, y: TxOp, c: Change, rewrites: seq<Rewrite>, published: Inodes)
    requires x.TxWrite? && y.TxWrite? && x.path == A && y.path == A && Complete(recs, v, x) && Complete(recs, v, y)
    requires var s := TxRun(TxState(map[], map[]), [x, TxOp.TxRename(A, B), y], c);
      s.Some? ==> Remembers(s.value.entries, s.value.changed, {}, rewrites) && WithMaps(recs, v, s.value.entries, rewrites, published)
    ensures B in published && published[B].kind == File && published[B].size == x.size && published[B].content == []
    ensures A in published && FileBytes(recs, v, published[A].content) == ChunkBytes(recs, v, y.chunks, 0)
  {
    hide TxRun, MeantRun, Publishes, ChunkBytes, ListedChunks, Remembers, WithMaps, Builds, Complete;
    MovedWriteIsLost(recs, v, x, y, c);
    var s := TxRun(TxState(map[], map[]), [x, TxOp.TxRename(A, B), y], c).value;
    LostEntries(x, y, c);
    PublishedEntry(recs, v, s, rewrites, published, B);
    PublishedEntry(recs, v, s, rewrites, published, A);
  }

  lemma LostEntries(x: TxOp, y: TxOp, c: Change)
    requires x.TxWrite? && y.TxWrite? && x.path == A && y.path == A
    ensures var s := TxRun(TxState(map[], map[]), [x, TxOp.TxRename(A, B), y], c);
      s.Some? && B in s.value.entries && s.value.entries[B].kind == File && A in s.value.entries && s.value.entries[A].kind == File
      && s.value.changed == map[A := y.chunks]
  {
    hide EnsureParents, Relocated, PigTree.TxRename;
    var ops := [x, TxOp.TxRename(A, B), y];
    var nothing: Inodes := map[];
    assert ops[..2] == [ops[0], ops[1]] && ops[..2][..1] == [ops[0]] && ops[..2][..1][..0] == [];
    NoParents(nothing, A, c, []);
    var n := PigTree.Written(nothing, A, c, x.size, x.mime, []);
    assert TxRun(TxState(map[], map[]), ops[..2][..1], c) == Some(TxState(map[A := n], map[A := x.chunks]));
    OnlyOneMoves(n, c, []);
    var two: Inodes := map[B := MovedNode(n, c)];
    assert TxRun(TxState(map[], map[]), ops[..2], c) == Some(TxState(two, map[A := x.chunks]));
    NoParents(two, A, c, []);
  }
}
