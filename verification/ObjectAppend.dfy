/**
 The append handle of one object: bytes go into the arena as they arrive, and become part of the object only by its commit.
 */
module ObjectAppend {
  import opened Bytes
  import opened Keys
  import Records
  import opened ObjectTypes
  import opened Extents
  import opened ObjectWorld
  import opened StoreInvariants
  import opened StoreParts
  import opened ObjectStore

  /**
   The state hash hidden in appended bytes, when they are one whole COMMIT record. `decode` yields the state hash of a PigFS
   commit payload, and nothing for other payloads.
   */
  function CommitHash(decode: bytes -> Option<Key>, data: bytes): Option<Key> {
    if |data| >= 96 && data[..4] == Records.MAGIC && LeValue(data[6..8]) == Records.COMMIT then
      var length := LeValue(data[8..16]);
      if length <= MAX_SAFE_INTEGER && 32 + length + 64 == |data| then decode(data[32..32 + length]) else None
    else None
  }

  /** A record appended verbatim is recognized exactly when it is a COMMIT, and then by its payload. */
  lemma EncodedCommitHash(decode: bytes -> Option<Key>, h: Records.Hasher, r: Records.Record)
    requires r.Valid()
    ensures CommitHash(decode, Records.Encoded(h, r)) == if r.kind == Records.COMMIT then decode(r.payload) else None
  {
    hide Records.TrailerBytes, Records.TrailerOf, Le, LeValue;
    var data := Records.Encoded(h, r);
    HeaderFields(h, r);
    assert data[32..32 + |r.payload|] == r.payload;
  }

  /** Any bytes: recognized exactly if they begin with "W7RC", are of type 4, and hold a payload of just the length that the header says, which decodes. */
  lemma CommitHashExactly(decode: bytes -> Option<Key>, data: bytes, hash: Key)
    ensures CommitHash(decode, data) == Some(hash) <==>
      |data| >= 96 && data[..4] == [0x57, 0x37, 0x52, 0x43] && LeValue(data[6..8]) == 4 && LeValue(data[8..16]) == |data| - 96 <= MAX_SAFE_INTEGER
      && decode(data[32..|data| - 64]) == Some(hash)
  {
    hide LeValue;
  }

  lemma HeaderFields(h: Records.Hasher, r: Records.Record)
    requires r.Valid()
    ensures var data := Records.Encoded(h, r);
      data[..4] == Records.MAGIC && LeValue(data[6..8]) == r.kind && LeValue(data[8..16]) == |r.payload|
  {
    hide Records.Join, Records.TrailerBytes, Records.TrailerOf, LeValue;
    var data, header := Records.Encoded(h, r), Records.Header(r);
    Records.FieldsRoundTrip(Records.MAGIC, Records.Fields(r.kind, |r.payload|, r.previous, r.sequence), []);
    assert data[..32] == header;
    assert data[..4] == header[0..0 + 4] && data[6..8] == header[6..6 + 2] && data[8..16] == header[8..8 + 8];
  }

  /** A transaction that has read the state of one object and announced a write to it. */
  function OpenedTx(id: Id, actor: Option<Id>, readRevision: nat, writeRevision: nat): PreparedTx {
    PreparedTx(actor, map[id := Dependency(Some(readRevision), None, None)], map[id := writeRevision], [])
  }

  lemma PreparedHandle(pages: Pages, op: PreparedOp, data: bytes)
    requires op.PreparedAppend? && Tiled(pages, op.extents, op.expectedSize, data) && op.virtualSize == op.expectedSize + |data| <= MAX_SAFE_INTEGER
    ensures Prepared(pages, op) && Meaning(pages, op) == StateAppend(op.id, op.expectedSize, data, op.hash, op.head)
  {
    hide Tiled, DataOf;
    TiledData(pages, op.extents, op.expectedSize, data);
  }

  /** What committing one finished handle does to the world, all revisions and checks included. */
  function CommitAppend(w: World, id: Id, actor: Option<Id>, expectedSize: nat, readRevision: nat, writeRevision: nat, data: bytes,
    hash: Option<Option<Key>>, head: Option<nat>): Outcome<World>
  {
    if id !in w.objects || w.objects[id].stateRevision != readRevision || w.objects[id].stateRevision != writeRevision then Fail(Conflict)
    else Append(w, StateAppend(id, expectedSize, data, hash, head), actor)
  }

  lemma CommitAppendIsTx(w: World, maxDepth: nat, id: Id, actor: Option<Id>, expectedSize: nat, readRevision: nat, writeRevision: nat, data: bytes,
    hash: Option<Option<Key>>, head: Option<nat>)
    ensures ApplyTx(w, maxDepth, Tx(actor, map[id := Dependency(Some(readRevision), None, None)], map[id := writeRevision],
        [StateAppend(id, expectedSize, data, hash, head)]))
      == CommitAppend(w, id, actor, expectedSize, readRevision, writeRevision, data, hash, head)
  {
    var op := StateAppend(id, expectedSize, data, hash, head);
    var tx := Tx(actor, map[id := Dependency(Some(readRevision), None, None)], map[id := writeRevision], [op]);
    assert tx.ops[1..] == [];
    if DependenciesHold(w, tx) {
      assert id in tx.readSet && id in tx.writeSet;
      assert ApplyOps(w, maxDepth, tx.ops, actor) == ApplyOp(w, maxDepth, op, actor);
    }
  }

  lemma CommitAppendKeeps(w: World, id: Id, actor: Option<Id>, expectedSize: nat, readRevision: nat, writeRevision: nat, data: bytes,
    hash: Option<Option<Key>>, head: Option<nat>)
    ensures var r := CommitAppend(w, id, actor, expectedSize, readRevision, writeRevision, data, hash, head); r.Ok? ==> r.value.rootId == w.rootId
  {
  }

  lemma OpenedMeaning(pages: Pages, id: Id, actor: Option<Id>, readRevision: nat, writeRevision: nat, op: PreparedOp)
    ensures TxMeaning(pages, OpenedTx(id, actor, readRevision, writeRevision).(ops := [op]))
      == Tx(actor, map[id := Dependency(Some(readRevision), None, None)], map[id := writeRevision], [Meaning(pages, op)])
  {
    hide Meaning;
  }

  lemma SingleGroup(w: World, maxDepth: nat, tx: Tx)
    ensures Group(w, maxDepth, [tx]) == (if ApplyTx(w, maxDepth, tx).Ok? then ApplyTx(w, maxDepth, tx).value else w)
    ensures Verdicts(w, maxDepth, [tx]) == [if ApplyTx(w, maxDepth, tx).Ok? then None else Some(ApplyTx(w, maxDepth, tx).error)]
  {
    hide ApplyTx;
    assert [tx][..0] == [];
  }

  class ObjectAppend {
    const store: WurstObjectStore
    const txId: TxId
    const id: Id
    const actor: Option<Id>
    const expectedSize: nat
    const readRevision: nat
    const writeRevision: nat
    const decode: bytes -> Option<Key>
    var prepared: seq<Extent>
    var size: nat
    var stateHash: Option<Option<Key>>
    var stateHead: Option<nat>
    var finalized: bool
    /** Everything appended so far. */
    ghost var data: bytes

    ghost predicate Valid()
      reads this, store, store.arena
    {
      && store.Valid() && store.root.Some? && id != store.root.value.rootId
      && Tiled(store.arena.pages, prepared, expectedSize, data) && size == expectedSize + |data| <= MAX_SAFE_INTEGER
      && (!finalized && txId in store.transactions ==> store.transactions[txId] == Opened())
    }

    /** The transaction record while nothing has been prepared. */
    function Opened(): PreparedTx {
      OpenedTx(id, actor, readRevision, writeRevision)
    }

    /** The one operation of this handle. */
    function Operation(hash: Option<Option<Key>>): PreparedOp
      reads this`prepared, this`size, this`stateHash, this`stateHead
    {
      PreparedAppend(id, expectedSize, prepared, size, if hash.None? then stateHash else hash, stateHead)
    }

    constructor (store: WurstObjectStore, txId: TxId, o: Object, actor: Option<Id>, readRevision: nat, decode: bytes -> Option<Key>)
      requires store.Valid() && store.root.Some? && o.id != store.root.value.rootId && o.virtualSize <= MAX_SAFE_INTEGER
      requires txId in store.transactions ==> store.transactions[txId] == OpenedTx(o.id, actor, readRevision, o.stateRevision)
      ensures Valid() && data == [] && !finalized && expectedSize == o.virtualSize && this.store == store && this.txId == txId && id == o.id
      ensures this.readRevision == readRevision && writeRevision == o.stateRevision && this.actor == actor
    {
      this.store, this.txId, id, this.actor := store, txId, o.id, actor;
      expectedSize, this.readRevision, writeRevision, this.decode := o.virtualSize, readRevision, o.stateRevision, decode;
      prepared, size, stateHash, stateHead, finalized, data := [], o.virtualSize, None, None, false, [];
    }

    /** `append`: refused once prepared; otherwise the bytes are in the arena and the handle has grown by exactly them. */
    method Append(bytes: bytes) returns (offset: Option<nat>)
      requires Valid() && size + |bytes| <= MAX_SAFE_INTEGER
      modifies this`prepared, this`size, this`stateHash, this`stateHead, this`data, store.arena
      ensures Valid() && store.Published() == old(store.Published()) && old(store.arena.pages) <= store.arena.pages
      ensures offset == if finalized then None else Some(old(size))
      ensures data == if finalized then old(data) else old(data) + bytes
      ensures !finalized && CommitHash(decode, bytes).Some? ==> stateHash == Some(CommitHash(decode, bytes)) && stateHead == Some(old(size))
      ensures finalized || CommitHash(decode, bytes).None? ==> stateHash == old(stateHash) && stateHead == old(stateHead)
    {
      hide RootOk, View, Sound, TxOk, Tiled, CommitHash;
      if finalized {
        return None;
      }
      var captured := CommitHash(decode, bytes);
      if captured.Some? {
        stateHash, stateHead := Some(captured), Some(size);
      }
      var start := size;
      ghost var pages := store.arena.pages;
      var xs := AppendData(store.arena, bytes, size);
      store.StillValid(pages);
      TiledGrow(pages, store.arena.pages, prepared, expectedSize, data);
      TiledConcat(store.arena.pages, prepared, xs, expectedSize, data, bytes);
      prepared, data := prepared + xs, data + bytes;
      size := size + |bytes|;
      return Some(start);
    }

    /** `prepare`: the operation is pushed into the transaction, once. */
    method Prepare(hash: Option<Option<Key>>)
      requires Valid() && txId in store.transactions
      modifies this`finalized, store`transactions
      ensures Valid() && finalized
      ensures store.transactions == if old(finalized) then old(store.transactions) else old(store.transactions)[txId := Opened().(ops := [Operation(hash)])]
    {
      hide RootOk, View, Sound, TxOk, Tiled, WurstObjectStore.Valid;
      if !finalized {
        PreparedHandle(store.arena.pages, Operation(hash), data);
        store.StoreSound();
        assert Opened().ops + [Operation(hash)] == [Operation(hash)];
        store.PushOperation(txId, Operation(hash));
        finalized := true;
      }
    }

    /**
     `commit` of a fresh handle: one Root Commit if the object still has both recorded revisions, the actor may write and the size is
     as expected; otherwise the published world stays. On success the object presents its old bytes followed by everything appended.
     */
    method Commit(hash: Option<Option<Key>>) returns (ok: bool)
      requires Valid() && txId in store.transactions && !finalized
      modifies this`finalized, store`root, store`commitOffset, store`transactions, store.arena
      ensures Valid() && finalized && txId !in store.transactions
      ensures var spec := CommitAppend(old(store.Published()), id, actor, expectedSize, readRevision, writeRevision, data,
          if hash.None? then stateHash else hash, stateHead);
        ok == spec.Ok? && store.Published() == if spec.Ok? then spec.value else old(store.Published())
    {
      hide RootOk, View, Sound, TxOk, Tiled, WurstObjectStore.Valid, CommitAppend, ApplyTx, DataOf;
      store.StoreSound();
      ghost var w, pages := store.Published(), store.arena.pages;
      Prepare(hash);
      ghost var tx := TxMeaning(store.arena.pages, store.transactions[txId]);
      store.KnownOne(txId);
      PreparedHandle(store.arena.pages, Operation(hash), data);
      OpenedMeaning(store.arena.pages, id, actor, readRevision, writeRevision, Operation(hash));
      CommitAppendIsTx(w, store.maxDepth, id, actor, expectedSize, readRevision, writeRevision, data, if hash.None? then stateHash else hash, stateHead);
      SingleGroup(w, store.maxDepth, tx);
      var verdicts := store.CommitTransactions([txId]);
      ok := verdicts.value[0].None?;
      store.StoreSound();
      CommitAppendKeeps(w, id, actor, expectedSize, readRevision, writeRevision, data, if hash.None? then stateHash else hash, stateHead);
      TiledGrow(pages, store.arena.pages, prepared, expectedSize, data);
    }
  }

  /**
   `beginObjectAppend` after its first await: the object record was read at some earlier root, the transaction records the revision
   that is current now. When they differ, the commit will conflict.
   */
  method BeginObjectAppend(store: WurstObjectStore, snapshot: Option<Object>, actor: Option<Id>, decode: bytes -> Option<Key>)
    returns (r: Outcome<ObjectAppend>)
    requires store.Valid() && store.root.Some?
    requires snapshot.Some? ==> snapshot.value.virtualSize <= MAX_SAFE_INTEGER && (!snapshot.value.hostRoot ==> snapshot.value.id != store.root.value.rootId)
    modifies store`transactions, store`nextTx
    ensures store.Valid() && store.Published() == old(store.Published())
    ensures r.Ok? <==> snapshot.Some? && !snapshot.value.hostRoot && Allowed(snapshot.value.meta.governance.state, actor) && snapshot.value.id in store.Published().objects
    ensures r.Ok? ==> fresh(r.value) && r.value.Valid() && r.value.store == store && r.value.data == [] && !r.value.finalized
    ensures r.Ok? ==> r.value.id == snapshot.value.id && r.value.expectedSize == snapshot.value.virtualSize && r.value.actor == actor
    ensures r.Ok? ==> r.value.readRevision == store.Published().objects[snapshot.value.id].stateRevision
    ensures r.Ok? ==> r.value.writeRevision == snapshot.value.stateRevision && r.value.txId in store.transactions && r.value.txId !in old(store.transactions)
  {
    hide RootOk, View, Sound, TxOk, Tiled, WurstObjectStore.Valid, ObjectOk, ViewOf, Allowed;
    if snapshot.None? || snapshot.value.hostRoot {
      return Fail(Unknown);
    }
    var o := snapshot.value;
    if !Allowed(o.meta.governance.state, actor) {
      return Fail(Forbidden);
    }
    store.StoreSound();
    var txId := store.BeginTransaction(actor);
    var current := store.ReadObject(txId, o.id, true, false, false);
    if current.None? {
      return Fail(Unknown);
    }
    ViewFields(store.arena.pages, current.value);
    store.RecordWrite(txId, o.id, o.stateRevision);
    var handle := new ObjectAppend(store, txId, o, actor, current.value.stateRevision, decode);
    return Ok(handle);
  }
}
