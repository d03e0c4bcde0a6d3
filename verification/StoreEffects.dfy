/**
 What the store's own records stand for, field by field: new objects, recorded reads, prepared operations, the verdicts of a group.
 */
module StoreEffects {
  import opened Bytes
  import opened Keys
  import opened ObjectTypes
  import opened ObjectWorld
  import opened StoreInvariants
  import opened StoreParts
  import opened ObjectStore
  import Compaction

  // ----- new objects

  /** A promoted object is mounted, presents exactly its source, carries what was given, and begins with one change of its relations. */
  lemma PromotedObjectIs(hash: ContentHash, source: bytes, baseSize: nat, id: Id, meta: Meta, stateRevision: nat, stateHash: Option<Key>, stateHead: Option<nat>)
    requires baseSize <= |source|
    ensures var o := PromotedView(hash, source, baseSize, id, meta, stateRevision, stateHash, stateHead);
      o.id == id && !o.hostRoot && o.virtualSize == |source| && o.baseSize == baseSize && o.baseHash == Some(hash(source[..baseSize]))
      && source[..baseSize] + o.own == source && o.relationshipRevision == 1
      && o.stateRevision == stateRevision && o.stateHash == stateHash && o.stateHead == stateHead && o.meta == meta
  {
  }

  /** An imported object presents exactly its source and is otherwise the snapshot, both revisions included. */
  lemma ImportedObjectIs(hash: ContentHash, o: Object, source: bytes)
    requires o.baseSize <= |source|
    ensures var v := ImportedView(hash, o, source);
      v.id == o.id && !v.hostRoot && v.virtualSize == |source| && v.baseSize == o.baseSize && v.baseHash == Some(hash(source[..o.baseSize]))
      && source[..o.baseSize] + v.own == source && v.relationshipRevision == o.relationshipRevision
      && v.stateRevision == o.stateRevision && v.stateHash == o.stateHash && v.stateHead == o.stateHead && v.meta == o.meta
  {
  }

  /** A first root publishes one host object without bytes of its own, with all that was given, and no relation and no base. */
  lemma FirstHostIs(o: Object)
    ensures var w := HostWorld(HostView(o));
      w.rootId == o.id && w.objects.Keys == {o.id} && w.byChild == map[] && w.byParent == map[] && w.bases == map[] && var v := w.objects[o.id];
      v.id == o.id && v.hostRoot == o.hostRoot && v.own == [] && v.meta == o.meta && v.baseHash == o.baseHash && v.baseSize == o.baseSize
      && v.virtualSize == o.virtualSize && v.stateRevision == o.stateRevision && v.relationshipRevision == o.relationshipRevision
      && v.stateHash == o.stateHash && v.stateHead == o.stateHead
  {
  }

  /** The root of a materialized subtree is the object it was, as a host: its containment has changed once more, and its bytes lie in the file. */
  lemma MaterializedHostIs(o: ObjectView, id: Id)
    ensures var v := Compaction.Detached(o, id);
      v.id == id && v.hostRoot && v.own == [] && v.relationshipRevision == o.relationshipRevision + 1 && v.stateRevision == o.stateRevision
      && v.stateHash == o.stateHash && v.stateHead == o.stateHead && v.meta == o.meta && v.baseHash == o.baseHash && v.baseSize == o.baseSize
      && v.virtualSize == o.virtualSize
  {
  }

  // ----- recorded reads

  /** Reading an object records its current revision in every dimension asked for. What was recorded in another dimension, and of other objects, stays. */
  lemma ReadIsRecorded(tx: PreparedTx, id: Id, o: ObjectView, state: bool, relationship: bool, package: bool)
    ensures var next := Recorded(tx, id, o, state, relationship, package);
      next.actor == tx.actor && next.writeSet == tx.writeSet && next.ops == tx.ops && next.readSet.Keys == tx.readSet.Keys + {id}
      && (forall x | x in tx.readSet && x != id :: next.readSet[x] == tx.readSet[x])
      && var d := next.readSet[id];
      (state ==> d.state == Some(o.stateRevision)) && (relationship ==> d.relationship == Some(o.relationshipRevision))
      && (package ==> d.package == Some(o.meta.packageDigest))
      && (!state ==> d.state == if id in tx.readSet then tx.readSet[id].state else None)
      && (!relationship ==> d.relationship == if id in tx.readSet then tx.readSet[id].relationship else None)
      && (!package ==> d.package == if id in tx.readSet then tx.readSet[id].package else None)
  {
  }

  // ----- prepared transactions

  /** A prepared transaction means its actor, everything it recorded, and its operations one by one. */
  lemma PreparedMeans(pages: Pages, tx: PreparedTx)
    ensures var t := TxMeaning(pages, tx);
      t.actor == tx.actor && t.readSet == tx.readSet && t.writeSet == tx.writeSet && |t.ops| == |tx.ops|
      && forall i | 0 <= i < |tx.ops| :: SameOperation(pages, tx.ops[i], t.ops[i])
  {
  }

  predicate SameOperation(pages: Pages, p: PreparedOp, op: Op) {
    match p
    case PreparedAppend(id, expectedSize, extents, _, hash, head) =>
      op.StateAppend? && op.id == id && op.expectedSize == expectedSize && op.data == DataOf(pages, extents) && op.hash == hash && op.head == head
    case PreparedReparent(child, parent, locator) => op.Reparent? && op.child == child && op.parent == parent && op.locator == locator
    case PreparedDetach(child) => op.Detach? && op.child == child
    case PreparedUpgrade(id, baseHash, baseSize, packageDigest, publisher) =>
      op.BaseUpgrade? && op.id == id && op.baseHash == baseHash && op.baseSize == baseSize && op.packageDigest == packageDigest && op.publisher == publisher
  }

  /** The transactions of known ids, in the order in which they are named; unknown ids are passed over. */
  lemma KnownInOrder(store: WurstObjectStore, ids: seq<TxId>, id: TxId)
    ensures store.Known([]) == []
    ensures store.Known(ids + [id]) == store.Known(ids) + if id in store.transactions then [store.transactions[id]] else []
  {
    assert (ids + [id])[..|ids|] == ids;
  }

  // ----- groups

  /** A further transaction of a group takes effect on top of the others exactly if it succeeds there, and that is its verdict. */
  lemma GroupGrows(w: World, maxDepth: nat, txs: seq<Tx>, tx: Tx)
    ensures var before, r := Group(w, maxDepth, txs), ApplyTx(Group(w, maxDepth, txs), maxDepth, tx);
      Group(w, maxDepth, []) == w
      && Group(w, maxDepth, txs + [tx]) == (if r.Ok? then r.value else before)
      && Verdicts(w, maxDepth, txs + [tx]) == Verdicts(w, maxDepth, txs) + [if r.Ok? then None else Some(r.error)]
  {
    hide ApplyTx;
    assert (txs + [tx])[..|txs|] == txs;
  }

  /** A commit forgets exactly the transactions that it was given. */
  lemma CommittedAreForgotten(transactions: map<TxId, PreparedTx>, ids: seq<TxId>)
    ensures var left := Without(transactions, ids);
      forall t :: (t in left <==> t in transactions && t !in ids) && (t in left ==> left[t] == transactions[t])
  {
  }
}
