/**
 `WurstObjectStore`: the imperative store over one arena. Each method is proved against the world functions.
 */
module ObjectStore {
  import opened Bytes
  import opened Keys
  import opened SortedEntries
  import opened CowIndex
  import opened ObjectTypes
  import opened Extents
  import opened ObjectWorld
  import opened Forest
  import opened Transactions
  import opened StoreInvariants
  import opened StoreParts
  import opened BreadthFirst
  import opened Subtrees

  type TxId = nat

  /** A prepared operation as the transaction record holds it: appended bytes are already in the arena, as extents. */
  datatype PreparedOp =
    | PreparedAppend(id: Id, expectedSize: nat, extents: seq<Extent>, virtualSize: nat, hash: Option<Option<Key>>, head: Option<nat>)
    | PreparedReparent(child: Id, parent: Id, locator: Option<Key>)
    | PreparedDetach(child: Id)
    | PreparedUpgrade(id: Id, baseHash: Key, baseSize: nat, packageDigest: Option<Key>, publisher: Option<Key>)

  datatype PreparedTx = PreparedTx(actor: Option<Id>, readSet: map<Id, Dependency>, writeSet: map<Id, nat>, ops: seq<PreparedOp>)

  function Meaning(pages: Pages, op: PreparedOp): Op {
    match op
    case PreparedAppend(id, expectedSize, extents, _, hash, head) => StateAppend(id, expectedSize, DataOf(pages, extents), hash, head)
    case PreparedReparent(child, parent, locator) => Reparent(child, parent, locator)
    case PreparedDetach(child) => Detach(child)
    case PreparedUpgrade(id, baseHash, baseSize, packageDigest, publisher) => BaseUpgrade(id, baseHash, baseSize, packageDigest, publisher)
  }

  function TxMeaning(pages: Pages, tx: PreparedTx): Tx {
    Tx(tx.actor, tx.readSet, tx.writeSet, seq(|tx.ops|, i requires 0 <= i < |tx.ops| => Meaning(pages, tx.ops[i])))
  }

  /** A prepared append holds extents that tile the bytes after the size it expects. */
  ghost predicate Prepared(pages: Pages, op: PreparedOp) {
    op.PreparedAppend? ==>
      var data := DataOf(pages, op.extents);
      Tiled(pages, op.extents, op.expectedSize, data) && op.virtualSize == op.expectedSize + |data| <= MAX_SAFE_INTEGER
  }

  ghost predicate PreparedAll(pages: Pages, tx: PreparedTx) { forall i | 0 <= i < |tx.ops| :: Prepared(pages, tx.ops[i]) }

  /** A transaction record that may be committed: prepared, and naming no host object and no missing base. */
  ghost predicate TxOk(pages: Pages, w: World, tx: PreparedTx) { PreparedAll(pages, tx) && TxFits(w, TxMeaning(pages, tx)) }

  lemma PreparedGrow(pages: Pages, more: Pages, op: PreparedOp)
    requires pages <= more && Prepared(pages, op)
    ensures Prepared(more, op) && Meaning(more, op) == Meaning(pages, op)
  {
    hide Tiled, DataOf;
    if op.PreparedAppend? {
      var data := DataOf(pages, op.extents);
      TiledGrow(pages, more, op.extents, op.expectedSize, data);
      TiledData(more, op.extents, op.expectedSize, data);
    }
  }

  lemma TxGrow(pages: Pages, more: Pages, tx: PreparedTx)
    requires pages <= more && PreparedAll(pages, tx)
    ensures PreparedAll(more, tx) && TxMeaning(more, tx) == TxMeaning(pages, tx)
  {
    hide Prepared, Meaning;
    forall i | 0 <= i < |tx.ops| ensures Prepared(more, tx.ops[i]) && Meaning(more, tx.ops[i]) == Meaning(pages, tx.ops[i]) {
      PreparedGrow(pages, more, tx.ops[i]);
    }
  }

  /** The same root object, and no base lost or changed. */
  predicate Keeps(w: World, v: World) {
    v.rootId == w.rootId && w.bases.Keys <= v.bases.Keys && forall k | k in w.bases :: v.bases[k] == w.bases[k]
  }

  /** A candidate root, or an error, exactly as the world function says. */
  ghost predicate Matches(pages: Pages, r: Outcome<Root>, spec: Outcome<World>) {
    match r
    case Ok(root) => spec.Ok? && RootOk(pages, root) && View(pages, root) == spec.value
    case Fail(e) => spec == Fail(e)
  }

  class WurstObjectStore {
    const arena: PageArena<Value>
    const maxDepth: nat
    const hash: ContentHash
    var root: Option<Root>
    var commitOffset: Option<nat>
    var transactions: map<TxId, PreparedTx>
    var nextTx: TxId

    ghost predicate Valid()
      reads this, arena
    {
      maxDepth > 0 && (root.Some? ==> RootOk(arena.pages, root.value) && Sound(hash, View(arena.pages, root.value)))
      && (root.Some? <==> commitOffset.Some?)
      && (root.Some? ==> commitOffset.value < |arena.pages| && arena.pages[commitOffset.value] == Other(CommitValue(root.value)))
      && (root.Some? ==> RootOk(arena.pages[..commitOffset.value], root.value))
      && (root.None? ==> transactions == map[])
      && (forall t | t in transactions :: t < nextTx && TxOk(arena.pages, View(arena.pages, root.value), transactions[t]))
    }

    /** What the published root means. */
    ghost function Published(): World
      reads this, arena
      requires root.Some? && RootOk(arena.pages, root.value)
    {
      View(arena.pages, root.value)
    }

    constructor (maxDepth: nat, hash: ContentHash)
      ensures Valid() && root == None && transactions == map[] && fresh(arena) && this.hash == hash
      ensures this.maxDepth == Max(1, Min(256, maxDepth))
    {
      var a := new PageArena<Value>();
      arena := a;
      this.maxDepth := Max(1, Min(256, maxDepth));
      this.hash := hash;
      root, commitOffset, transactions, nextTx := None, None, map[], 0;
    }

    // ----- applying one operation to a candidate root

    method ApplyDetach(candidate: Root, childId: Id, actor: Option<Id>) returns (r: Outcome<Root>)
      requires RootOk(arena.pages, candidate)
      modifies arena
      ensures old(arena.pages) <= arena.pages
      ensures Matches(arena.pages, r, old(DetachFrom(View(arena.pages, candidate), childId, actor)))
    {
      hide ObjectsOk, ObjectsView, RelationsOk, RelationsView, BasesOk, BasesView, ObjectOk, ViewOf, Allowed, RelationKey;
      var child := GetObject(arena, candidate.objects, childId);
      if child.None? || childId == candidate.rootId {
        return Fail(Invalid);
      }
      if !Allowed(child.value.meta.governance.relationship, actor) {
        ViewFields(arena.pages, child.value);
        return Fail(Forbidden);
      }
      ViewFields(arena.pages, child.value);
      var relation := GetRelation(arena, BY_CHILD, candidate.byChild, childId);
      if relation.None? {
        return Ok(candidate);
      }
      var parent := GetObject(arena, candidate.objects, relation.value.parent);
      if parent.None? {
        return Fail(Unknown);
      }
      ViewFields(arena.pages, parent.value);
      if !Allowed(parent.value.meta.governance.relationship, actor) {
        return Fail(Forbidden);
      }
      var next := Unlinked(candidate, relation.value.parent, childId);
      ghost var middle := arena.pages;
      ObjectGrow(old(arena.pages), middle, parent.value);
      ObjectGrow(old(arena.pages), middle, child.value);
      next := Touched(next, parent.value, child.value);
      return Ok(next);
    }

    /** Removes one edge from both relationship indexes. */
    method Unlinked(candidate: Root, parentId: Id, childId: Id) returns (next: Root)
      requires RootOk(arena.pages, candidate)
      modifies arena
      ensures old(arena.pages) <= arena.pages && RootOk(arena.pages, next)
      ensures View(arena.pages, next) == Unlink(old(View(arena.pages, candidate)), Relation(parentId, childId, None))
    {
      hide ObjectsOk, ObjectsView, RelationsOk, RelationsView, BasesOk, BasesView, RelationKey;
      next := candidate;
      ghost var pages := arena.pages;
      var byParent := EraseRelation(arena, BY_PARENT, next.byParent, RelationKey(parentId, childId));
      RootGrow(pages, arena.pages, candidate);
      next := next.(byParent := byParent);
      pages := arena.pages;
      var byChild := EraseRelation(arena, BY_CHILD, next.byChild, childId);
      RootGrow(pages, arena.pages, next);
      next := next.(byChild := byChild);
    }

    /** Adds one edge to both relationship indexes. */
    method Linked(candidate: Root, relation: Relation) returns (next: Root)
      requires RootOk(arena.pages, candidate)
      modifies arena
      ensures old(arena.pages) <= arena.pages && RootOk(arena.pages, next)
      ensures View(arena.pages, next) == Link(old(View(arena.pages, candidate)), relation)
    {
      hide ObjectsOk, ObjectsView, RelationsOk, RelationsView, BasesOk, BasesView, RelationKey;
      next := candidate;
      ghost var pages := arena.pages;
      var byParent := PutRelation(arena, BY_PARENT, next.byParent, RelationKey(relation.parent, relation.child), relation);
      RootGrow(pages, arena.pages, candidate);
      next := next.(byParent := byParent);
      pages := arena.pages;
      var byChild := PutRelation(arena, BY_CHILD, next.byChild, relation.child, relation);
      RootGrow(pages, arena.pages, next);
      next := next.(byChild := byChild);
    }

    method WithObject(candidate: Root, o: Object) returns (next: Root)
      requires RootOk(arena.pages, candidate) && ObjectOk(arena.pages, o)
      modifies arena
      ensures old(arena.pages) <= arena.pages && RootOk(arena.pages, next)
      ensures View(arena.pages, next) == SetObject(old(View(arena.pages, candidate)), old(ViewOf(arena.pages, o)))
    {
      hide ObjectsOk, ObjectsView, RelationsOk, RelationsView, BasesOk, BasesView, ObjectOk;
      ghost var pages := arena.pages;
      var objects := PutObject(arena, candidate.objects, o);
      RootGrow(pages, arena.pages, candidate);
      next := candidate.(objects := objects);
    }

    /** Writes back a parent and a child, each with its relationship revision advanced. */
    method Touched(candidate: Root, parent: Object, child: Object) returns (next: Root)
      requires RootOk(arena.pages, candidate) && ObjectOk(arena.pages, parent) && ObjectOk(arena.pages, child)
      modifies arena
      ensures old(arena.pages) <= arena.pages && RootOk(arena.pages, next)
      ensures View(arena.pages, next) ==
        SetObject(SetObject(old(View(arena.pages, candidate)), Touch(old(ViewOf(arena.pages, parent)))), Touch(old(ViewOf(arena.pages, child))))
    {
      hide RootOk, View, ObjectOk, ViewOf;
      TouchView(arena.pages, parent);
      TouchView(arena.pages, child);
      ghost var pages := arena.pages;
      next := WithObject(candidate, parent.(relationshipRevision := parent.relationshipRevision + 1));
      ObjectGrow(pages, arena.pages, child.(relationshipRevision := child.relationshipRevision + 1));
      next := WithObject(next, child.(relationshipRevision := child.relationshipRevision + 1));
    }

    /** `_assertNoCycle`: climb from the new parent, at most `maxDepth` steps. */
    method AssertNoCycle(candidate: Root, childId: Id, parentId: Id) returns (r: Option<Error>)
      requires RootOk(arena.pages, candidate)
      ensures r == NoCycle(View(arena.pages, candidate).byChild, childId, parentId, maxDepth)
    {
      hide ObjectsOk, ObjectsView, RelationsOk, RelationsView, BasesOk, BasesView;
      if childId == parentId {
        return Some(Invalid);
      }
      ghost var byChild := View(arena.pages, candidate).byChild;
      var current := Some(parentId);
      var visited := {childId};
      var depth := 0;
      while current.Some?
        invariant depth <= maxDepth
        invariant Climb(byChild, current, visited, depth, maxDepth) == Climb(byChild, Some(parentId), {childId}, 0, maxDepth)
        decreases maxDepth - depth, current.Some?
      {
        if depth >= maxDepth {
          return Some(Invalid);
        }
        if current.value in visited {
          return Some(Invalid);
        }
        visited := visited + {current.value};
        var relation := GetRelation(arena, BY_CHILD, candidate.byChild, current.value);
        current := if relation.None? then None else Some(relation.value.parent);
        depth := depth + 1;
      }
      return None;
    }

    method ApplyReparent(candidate: Root, childId: Id, parentId: Id, locator: Option<Key>, actor: Option<Id>) returns (r: Outcome<Root>)
      requires RootOk(arena.pages, candidate)
      modifies arena
      ensures old(arena.pages) <= arena.pages
      ensures Matches(arena.pages, r, old(ReparentTo(View(arena.pages, candidate), maxDepth, childId, parentId, locator, actor)))
    {
      hide ObjectsOk, ObjectsView, RelationsOk, RelationsView, BasesOk, BasesView, ObjectOk, ViewOf, Allowed, RelationKey, DetachFrom, NoCycle;
      var child := GetObject(arena, candidate.objects, childId);
      var parent := GetObject(arena, candidate.objects, parentId);
      if child.None? || parent.None? {
        return Fail(Unknown);
      }
      ViewFields(arena.pages, child.value);
      ViewFields(arena.pages, parent.value);
      if childId == candidate.rootId {
        return Fail(Invalid);
      }
      if !Allowed(child.value.meta.governance.relationship, actor) || !Allowed(parent.value.meta.governance.relationship, actor) {
        return Fail(Forbidden);
      }
      var cycle := AssertNoCycle(candidate, childId, parentId);
      if cycle.Some? {
        return Fail(cycle.value);
      }
      var before := GetRelation(arena, BY_CHILD, candidate.byChild, childId);
      if before.Some? && before.value.parent == parentId && (locator.None? || before.value.locator == locator) {
        return Ok(candidate);
      }
      var next := candidate;
      if before.Some? {
        var detached := ApplyDetach(next, childId, actor);
        if detached.Fail? {
          return detached;
        }
        next := detached.value;
      }
      var relation := Relation(parentId, childId, if locator.Some? then locator else if before.Some? then before.value.locator else None);
      r := Attach(next, relation);
    }

    /** The second half of a reparent: the latest records of both ends, the new edge, both ends touched. */
    method Attach(candidate: Root, relation: Relation) returns (r: Outcome<Root>)
      requires RootOk(arena.pages, candidate)
      modifies arena
      ensures old(arena.pages) <= arena.pages
      ensures var v := old(View(arena.pages, candidate));
        Matches(arena.pages, r,
          if relation.child !in v.objects || relation.parent !in v.objects then Fail(Unknown)
          else Ok(SetObject(SetObject(Link(v, relation), Touch(v.objects[relation.parent])), Touch(v.objects[relation.child]))))
    {
      hide ObjectsOk, ObjectsView, RelationsOk, RelationsView, BasesOk, BasesView, ObjectOk, ViewOf, RelationKey;
      var parent := GetObject(arena, candidate.objects, relation.parent);
      var child := GetObject(arena, candidate.objects, relation.child);
      if child.None? || parent.None? {
        return Fail(Unknown);
      }
      ghost var pages := arena.pages;
      var next := Linked(candidate, relation);
      ObjectGrow(pages, arena.pages, parent.value);
      ObjectGrow(pages, arena.pages, child.value);
      next := Touched(next, parent.value, child.value);
      return Ok(next);
    }

    method ApplyAppend(candidate: Root, op: PreparedOp, actor: Option<Id>) returns (r: Outcome<Root>)
      requires RootOk(arena.pages, candidate) && op.PreparedAppend? && Prepared(arena.pages, op)
      requires op.id != candidate.rootId && OnlyRootIsHost(View(arena.pages, candidate))
      modifies arena
      ensures old(arena.pages) <= arena.pages
      ensures Matches(arena.pages, r, old(Append(View(arena.pages, candidate), Meaning(arena.pages, op), actor)))
    {
      hide ObjectsOk, ObjectsView, RelationsOk, RelationsView, BasesOk, BasesView, ObjectOk, ViewOf, Allowed, Tiled, DataOf;
      var found := GetObject(arena, candidate.objects, op.id);
      if found.None? {
        return Fail(Unknown);
      }
      var o := found.value;
      ViewFields(arena.pages, o);
      if !Allowed(o.meta.governance.state, actor) {
        return Fail(Forbidden);
      }
      if o.virtualSize != op.expectedSize {
        return Fail(Conflict);
      }
      ghost var pages := arena.pages;
      var extentRoot := Extend(o, op.extents, DataOf(pages, op.extents));
      RootGrow(pages, arena.pages, candidate);
      var updated := o.(extentRoot := extentRoot, virtualSize := op.virtualSize, stateRevision := o.stateRevision + 1,
        stateHash := if op.hash.None? then o.stateHash else op.hash.value, stateHead := if op.head.None? then o.stateHead else op.head);
      AppendedView(pages, arena.pages, o, updated, DataOf(pages, op.extents));
      var next := WithObject(candidate, updated);
      return Ok(next);
    }

    /** Adds prepared extents to an object's own extent index. */
    method Extend(o: Object, extents: seq<Extent>, ghost data: bytes) returns (extentRoot: Option<Pointer>)
      requires ObjectOk(arena.pages, o) && !o.hostRoot && Tiled(arena.pages, extents, o.virtualSize, data) && o.virtualSize + |data| <= MAX_SAFE_INTEGER
      modifies arena
      ensures old(arena.pages) <= arena.pages
      ensures ExtentMap(arena.pages, ExtentsOfObject(o.id), extentRoot, o.baseSize)
      ensures OwnBytes(arena.pages, ExtentsOfObject(o.id), extentRoot) == old(OwnBytes(arena.pages, ExtentsOfObject(o.id), o.extentRoot)) + data
    {
      hide Tiled, DataOf, WfRoot, EntriesAt;
      var name := ExtentsOfObject(o.id);
      ghost var xs, own := Listed(arena.pages, name, o.extentRoot), OwnBytes(arena.pages, name, o.extentRoot);
      extentRoot := SetExtents(PersistentCowIndex(arena, name), o.extentRoot, extents, xs, o.baseSize, own, data);
      ExtentMapOf(arena.pages, name, extentRoot, o.baseSize, xs + extents, own + data);
    }

    method ApplyUpgrade(candidate: Root, op: PreparedOp, actor: Option<Id>) returns (r: Outcome<Root>)
      requires RootOk(arena.pages, candidate) && op.PreparedUpgrade? && op.id != candidate.rootId && op.baseSize <= MAX_SAFE_INTEGER
      requires OnlyRootIsHost(View(arena.pages, candidate))
      modifies arena
      ensures old(arena.pages) <= arena.pages
      ensures Matches(arena.pages, r, old(Upgrade(View(arena.pages, candidate), Meaning(arena.pages, op), actor)))
    {
      hide ObjectsOk, ObjectsView, RelationsOk, RelationsView, BasesOk, BasesView, ObjectOk, ViewOf, Allowed;
      var found := GetObject(arena, candidate.objects, op.id);
      if found.None? {
        return Fail(Unknown);
      }
      var o := found.value;
      ViewFields(arena.pages, o);
      if !Allowed(o.meta.governance.upgrade, actor) {
        return Fail(Forbidden);
      }
      var updated := o.(meta := o.meta.(packageDigest := op.packageDigest, publisher := op.publisher), baseHash := Some(op.baseHash),
        baseSize := op.baseSize, virtualSize := op.baseSize, extentRoot := None, stateRevision := o.stateRevision + 1, stateHash := None, stateHead := None);
      UpgradedView(arena.pages, o, updated);
      var next := WithObject(candidate, updated);
      return Ok(next);
    }

    method ApplyOperation(candidate: Root, op: PreparedOp, actor: Option<Id>) returns (r: Outcome<Root>)
      requires RootOk(arena.pages, candidate) && Prepared(arena.pages, op)
      requires OpFits(View(arena.pages, candidate), Meaning(arena.pages, op)) && OnlyRootIsHost(View(arena.pages, candidate))
      modifies arena
      ensures old(arena.pages) <= arena.pages
      ensures Matches(arena.pages, r, old(ApplyOp(View(arena.pages, candidate), maxDepth, Meaning(arena.pages, op), actor)))
    {
      hide ObjectsOk, ObjectsView, RelationsOk, RelationsView, BasesView, Append, ReparentTo, DetachFrom, Upgrade, Prepared;
      match op {
        case PreparedAppend(_, _, _, _, _, _) => r := ApplyAppend(candidate, op, actor);
        case PreparedReparent(child, parent, locator) => r := ApplyReparent(candidate, child, parent, locator, actor);
        case PreparedDetach(child) => r := ApplyDetach(candidate, child, actor);
        case PreparedUpgrade(_, baseHash, _, _, _) =>
          BaseIsSmall(arena.pages, candidate.bases, baseHash);
          r := ApplyUpgrade(candidate, op, actor);
      }
    }

    /** `_validateDependency` over the read set, then over the write set. */
    method Validate(candidate: Root, tx: PreparedTx) returns (ok: bool)
      requires RootOk(arena.pages, candidate)
      ensures ok <==> DependenciesHold(View(arena.pages, candidate), TxMeaning(arena.pages, tx))
    {
      hide ObjectsOk, ObjectsView, RelationsOk, RelationsView, BasesOk, BasesView, ObjectOk, ViewOf;
      ghost var w := View(arena.pages, candidate);
      var todo := tx.readSet.Keys;
      while todo != {}
        invariant todo <= tx.readSet.Keys
        invariant forall id | id in tx.readSet && id !in todo :: id in w.objects && Meets(w.objects[id], tx.readSet[id])
      {
        var id :| id in todo;
        var o := GetObject(arena, candidate.objects, id);
        if o.None? {
          return false;
        }
        ViewFields(arena.pages, o.value);
        var d := tx.readSet[id];
        if (d.state.Some? && o.value.stateRevision != d.state.value) || (d.relationship.Some? && o.value.relationshipRevision != d.relationship.value)
           || (d.package.Some? && o.value.meta.packageDigest != d.package.value) {
          return false;
        }
        todo := todo - {id};
      }
      todo := tx.writeSet.Keys;
      while todo != {}
        invariant todo <= tx.writeSet.Keys
        invariant forall id | id in tx.writeSet && id !in todo :: id in w.objects && w.objects[id].stateRevision == tx.writeSet[id]
      {
        var id :| id in todo;
        var o := GetObject(arena, candidate.objects, id);
        if o.None? {
          return false;
        }
        ViewFields(arena.pages, o.value);
        if o.value.stateRevision != tx.writeSet[id] {
          return false;
        }
        todo := todo - {id};
      }
      return true;
    }

    /** `_applyTransaction`. A failure half way through leaves the candidate's own meaning as it was. */
    method ApplyTransaction(candidate: Root, tx: PreparedTx) returns (r: Outcome<Root>)
      requires RootOk(arena.pages, candidate) && Sound(hash, View(arena.pages, candidate)) && maxDepth > 0
      requires TxOk(arena.pages, View(arena.pages, candidate), tx)
      modifies arena
      ensures old(arena.pages) <= arena.pages
      ensures Matches(arena.pages, r, old(ApplyTx(View(arena.pages, candidate), maxDepth, TxMeaning(arena.pages, tx))))
      ensures RootOk(arena.pages, candidate) && View(arena.pages, candidate) == old(View(arena.pages, candidate))
    {
      hide RootOk, View, Sound, ApplyOp, Prepared, DependenciesHold, OpFits, Meaning;
      ghost var w, atx := View(arena.pages, candidate), TxMeaning(arena.pages, tx);
      var valid := Validate(candidate, tx);
      if !valid {
        return Fail(Conflict);
      }
      var next := candidate;
      var i := 0;
      assert atx.ops[0..] == atx.ops;
      while i < |tx.ops|
        invariant i <= |tx.ops| && old(arena.pages) <= arena.pages && PreparedAll(arena.pages, tx) && TxMeaning(arena.pages, tx) == atx
        invariant RootOk(arena.pages, next) && Sound(hash, View(arena.pages, next)) && TxFits(View(arena.pages, next), atx)
        invariant ApplyOps(View(arena.pages, next), maxDepth, atx.ops[i..], tx.actor) == ApplyOps(w, maxDepth, atx.ops, tx.actor)
        invariant RootOk(arena.pages, candidate) && View(arena.pages, candidate) == w
      {
        ghost var pages, before := arena.pages, View(arena.pages, next);
        assert Prepared(pages, tx.ops[i]) && OpFits(before, atx.ops[i]) && Meaning(pages, tx.ops[i]) == atx.ops[i];
        SoundHost(hash, before);
        var step := ApplyOperation(next, tx.ops[i], tx.actor);
        assert atx.ops[i..][0] == atx.ops[i] && atx.ops[i..][1..] == atx.ops[i + 1..];
        RootGrow(pages, arena.pages, candidate);
        if step.Fail? {
          return step;
        }
        TxGrow(pages, arena.pages, tx);
        next := step.value;
        OpKeepsSound(hash, before, maxDepth, atx.ops[i], tx.actor);
        OpKeepsBases(before, maxDepth, atx.ops[i], tx.actor);
        FitsAfter(before, View(arena.pages, next), atx);
        i := i + 1;
      }
      assert atx.ops[i..] == [];
      return Ok(next);
    }

    // ----- publishing

    /** `_commitRoot`: one Root Commit record makes the candidate the published root. */
    method CommitRoot(candidate: Root)
      requires Valid() && RootOk(arena.pages, candidate) && Sound(hash, View(arena.pages, candidate))
      requires root.Some? ==> Keeps(Published(), View(arena.pages, candidate))
      modifies this`root, this`commitOffset, arena
      ensures Valid() && root.Some? && Published() == old(View(arena.pages, candidate))
      ensures old(arena.pages) <= arena.pages && commitOffset == Some(|old(arena.pages)|)
      ensures root.value == candidate.(generation := if old(root).None? then 1 else old(root).value.generation + 1, previous := old(commitOffset))
    {
      hide ObjectsOk, ObjectsView, RelationsOk, RelationsView, BasesOk, BasesView, Sound, TxOk;
      ghost var pages := arena.pages;
      var next := candidate.(generation := if root.None? then 1 else root.value.generation + 1, previous := commitOffset);
      var offset := |arena.pages|;
      var _ := arena.Write(Other(CommitValue(next)));
      RootGrow(pages, arena.pages, candidate);
      forall t | t in transactions ensures TxOk(arena.pages, View(arena.pages, next), transactions[t]) {
        TxStillOk(pages, arena.pages, View(pages, root.value), View(arena.pages, next), transactions[t]);
      }
      root := Some(next);
      commitOffset := Some(offset);
    }

    /** The published root was already there, with this meaning, before its Root Commit. */
    lemma BeforeCommit()
      requires Valid() && root.Some?
      ensures commitOffset.Some? && commitOffset.value < |arena.pages| && RootOk(arena.pages[..commitOffset.value], root.value) && RootOk(arena.pages, root.value)
      ensures View(arena.pages[..commitOffset.value], root.value) == Published() && root.value.rootId in Published().objects
    {
      hide RootOk, View, TxOk, Sound, Forested, Consistent;
      RootGrow(arena.pages[..commitOffset.value], arena.pages, root.value);
      SoundForest(hash, Published());
      ViewRoot(arena.pages, root.value);
    }

    /** The transactions behind known ids, in the order given. */
    function Known(ids: seq<TxId>): seq<PreparedTx>
      reads this
    {
      if ids == [] then []
      else Known(ids[..|ids| - 1]) + (if ids[|ids| - 1] in transactions then [transactions[ids[|ids| - 1]]] else [])
    }

    ghost function Meanings(txs: seq<PreparedTx>): seq<Tx>
      reads arena
    {
      seq(|txs|, i requires 0 <= i < |txs| reads arena => TxMeaning(arena.pages, txs[i]))
    }

    /** `commitTransactions`: one candidate, one Root Commit, and a verdict for every known transaction; no known one is an error. */
    method CommitTransactions(ids: seq<TxId>) returns (r: Option<seq<Option<Error>>>)
      requires Valid() && root.Some?
      modifies this`root, this`commitOffset, this`transactions, arena
      ensures Valid() && root.Some? && old(arena.pages) <= arena.pages
      ensures r.None? <==> old(Known(ids)) == []
      ensures r.None? ==> root == old(root) && transactions == old(transactions)
      ensures r.Some? ==> r.value == Verdicts(old(Published()), maxDepth, old(Meanings(Known(ids))))
      ensures r.Some? ==> Published() == Group(old(Published()), maxDepth, old(Meanings(Known(ids))))
      ensures r.Some? ==> transactions == Without(old(transactions), ids)
      ensures r.Some? && None in r.value ==> root.value.generation == old(root).value.generation + 1 && commitOffset.value >= |old(arena.pages)|
      ensures r.Some? && None !in r.value ==> root == old(root) && commitOffset == old(commitOffset)
    {
      hide RootOk, View, Sound, ApplyTx, TxOk, TxMeaning;
      var txs := Known(ids);
      KnownOk(ids);
      if txs == [] {
        return None;
      }
      ghost var w, atxs := Published(), Meanings(txs);
      ghost var pages := arena.pages;
      var candidate := root.value;
      var verdicts: seq<Option<Error>> := [];
      var i := 0;
      assert atxs[..0] == [];
      while i < |txs|
        invariant i <= |txs| && pages <= arena.pages
        invariant forall j | 0 <= j < |txs| :: TxOk(arena.pages, w, txs[j]) && TxMeaning(arena.pages, txs[j]) == atxs[j]
        invariant RootOk(arena.pages, candidate) && View(arena.pages, candidate) == Group(w, maxDepth, atxs[..i])
        invariant Sound(hash, View(arena.pages, candidate)) && Keeps(w, View(arena.pages, candidate))
        invariant verdicts == Verdicts(w, maxDepth, atxs[..i])
        invariant None !in verdicts ==> candidate == root.value
        invariant RootOk(arena.pages, root.value) && View(arena.pages, root.value) == w
        modifies arena
      {
        ghost var before, beforeWorld := arena.pages, View(arena.pages, candidate);
        TxStillOk(before, before, w, beforeWorld, txs[i]);
        var applied := ApplyTransaction(candidate, txs[i]);
        ApplyKeeps(hash, beforeWorld, maxDepth, atxs[i], before, txs[i]);
        RootGrow(before, arena.pages, root.value);
        forall j | 0 <= j < |txs| ensures TxOk(arena.pages, w, txs[j]) && TxMeaning(arena.pages, txs[j]) == atxs[j] {
          TxStillOk(before, arena.pages, w, w, txs[j]);
          TxOkGrow(before, arena.pages, w, txs[j]);
        }
        assert atxs[..i + 1][..i] == atxs[..i];
        if applied.Ok? {
          candidate := applied.value;
          verdicts := verdicts + [None];
        } else {
          verdicts := verdicts + [Some(applied.error)];
        }
        i := i + 1;
      }
      assert atxs[..i] == atxs;
      StillValid(pages);
      if None in verdicts {
        CommitRoot(candidate);
      }
      RemoveKnown(ids);
      return Some(verdicts);
    }

    lemma KnownOne(id: TxId)
      requires id in transactions
      ensures Known([id]) == [transactions[id]] && Meanings(Known([id])) == [TxMeaning(arena.pages, transactions[id])]
    {
      hide TxMeaning;
      assert [id][..0] == [];
    }

    /** Known transactions are in order for a commit. */
    lemma KnownOk(ids: seq<TxId>)
      requires Valid() && root.Some?
      ensures forall j | 0 <= j < |Known(ids)| :: TxOk(arena.pages, Published(), Known(ids)[j])
    {
      hide RootOk, View, Sound, TxOk;
      if ids != [] {
        KnownOk(ids[..|ids| - 1]);
      }
    }

    /** Growth of the arena alone keeps the store valid. */
    twostate lemma StillValid(pages: Pages)
      requires old(Valid()) && root == old(root) && commitOffset == old(commitOffset) && transactions == old(transactions) && nextTx == old(nextTx)
      requires pages == old(arena.pages) && pages <= arena.pages
      ensures Valid() && (root.Some? ==> Published() == old(Published()))
    {
      hide RootOk, View, Sound, TxOk;
      if root.Some? {
        RootGrow(pages, arena.pages, root.value);
        assert arena.pages[..commitOffset.value] == pages[..commitOffset.value];
        forall t | t in transactions ensures TxOk(arena.pages, View(arena.pages, root.value), transactions[t]) {
          TxStillOk(pages, arena.pages, View(pages, root.value), View(arena.pages, root.value), transactions[t]);
        }
      }
    }

    method RemoveKnown(ids: seq<TxId>)
      requires Valid()
      modifies this`transactions
      ensures Valid() && transactions == Without(old(transactions), ids)
    {
      hide RootOk, View, Sound, TxOk;
      transactions := Without(transactions, ids);
    }

    // ----- transaction records

    /** `beginTransaction`. */
    method BeginTransaction(actor: Option<Id>) returns (id: TxId)
      requires Valid() && root.Some?
      modifies this`transactions, this`nextTx
      ensures Valid() && id !in old(transactions)
      ensures transactions == old(transactions)[id := PreparedTx(actor, map[], map[], [])]
    {
      hide RootOk, View, Sound;
      id := nextTx;
      nextTx := nextTx + 1;
      transactions := transactions[id := PreparedTx(actor, map[], map[], [])];
    }

    /** `readObject`: record the revisions that are current now in the dimensions asked for. */
    method ReadObject(txId: TxId, id: Id, state: bool, relationship: bool, package: bool) returns (r: Option<Object>)
      requires Valid() && root.Some?
      modifies this`transactions
      ensures Valid()
      ensures r.Some? <==> txId in old(transactions) && id in Published().objects
      ensures r.None? ==> transactions == old(transactions)
      ensures r.Some? ==> ObjectOk(arena.pages, r.value) && ViewOf(arena.pages, r.value) == Published().objects[id]
      ensures r.Some? ==> transactions == old(transactions)[txId :=
        Recorded(old(transactions)[txId], id, Published().objects[id], state, relationship, package)]
    {
      hide RelationsOk, RelationsView, BasesOk, BasesView, ObjectsOk, ObjectsView, ObjectOk, ViewOf, Sound, Prepared, Meaning, OpFits;
      if txId !in transactions {
        return None;
      }
      r := GetObject(arena, root.value.objects, id);
      if r.None? {
        return;
      }
      ViewFields(arena.pages, r.value);
      var tx := transactions[txId];
      var d := if id in tx.readSet then tx.readSet[id] else Dependency(None, None, None);
      var o := r.value;
      var next := tx.(readSet := tx.readSet[id := Dependency(if state then Some(o.stateRevision) else d.state,
        if relationship then Some(o.relationshipRevision) else d.relationship, if package then Some(o.meta.packageDigest) else d.package)]);
      assert TxMeaning(arena.pages, next).ops == TxMeaning(arena.pages, tx).ops;
      transactions := transactions[txId := next];
    }

    /** Records the state revision that a write was prepared against. */
    method RecordWrite(txId: TxId, id: Id, revision: nat)
      requires Valid() && txId in transactions
      modifies this`transactions
      ensures Valid() && transactions == old(transactions)[txId := old(transactions)[txId].(writeSet := old(transactions)[txId].writeSet[id := revision])]
    {
      hide RootOk, View, Sound, Prepared, Meaning, OpFits;
      var tx := transactions[txId];
      var next := tx.(writeSet := tx.writeSet[id := revision]);
      assert TxMeaning(arena.pages, next).ops == TxMeaning(arena.pages, tx).ops;
      transactions := transactions[txId := next];
    }

    /** Adds an operation to an open transaction. */
    method PushOperation(txId: TxId, op: PreparedOp)
      requires Valid() && txId in transactions
      requires Prepared(arena.pages, op) && OpFits(Published(), Meaning(arena.pages, op))
      modifies this`transactions
      ensures Valid() && transactions == old(transactions)[txId := old(transactions)[txId].(ops := old(transactions)[txId].ops + [op])]
    {
      hide RootOk, View, Sound, TxOk;
      var tx := transactions[txId];
      PushedOk(arena.pages, Published(), tx, op);
      transactions := transactions[txId := tx.(ops := tx.ops + [op])];
    }

    // ----- reading

    /** `openObjectSource(id).read(offset, length)`: exactly the slice of the base followed by all committed appends. */
    method ReadObjectBytes(id: Id, offset: nat, length: nat) returns (r: Option<bytes>)
      requires Valid() && root.Some?
      ensures var w := Published();
        if id in w.objects && !w.objects[id].hostRoot && offset + length <= w.objects[id].virtualSize then
          |Contents(w, id)| == w.objects[id].virtualSize && r == Some(Contents(w, id)[offset..offset + length])
        else r == None
    {
      hide RelationsOk, RelationsView, ObjectsOk, ObjectsView, BasesOk, BasesView, ObjectOk, ViewOf, Sound, TxOk, BaseOk, BaseBytes;
      ghost var w := Published();
      var found := GetObject(arena, root.value.objects, id);
      if found.None? {
        return None;
      }
      var o := found.value;
      ViewFields(arena.pages, o);
      if o.hostRoot || offset + length > o.virtualSize {
        return None;
      }
      SoundSpaced(hash, w);
      if length == 0 {
        assert Contents(w, id)[offset..offset] == [];
        return Some([]);
      }
      ghost var base := w.bases[o.baseHash.value];
      var parts := ReadPieces(o, offset, length, base);
      return Some(parts);
    }

    /** The two parts of a range: from the extents of the base, and from the object's own. */
    method ReadPieces(o: Object, offset: nat, length: nat, ghost base: bytes) returns (parts: bytes)
      requires root.Some? && BasesOk(arena.pages, root.value.bases) && ObjectOk(arena.pages, o) && o.baseHash.Some? && |base| == o.baseSize
      requires o.baseHash.value in BasesView(arena.pages, root.value.bases) && BasesView(arena.pages, root.value.bases)[o.baseHash.value] == base
      requires offset + length <= |base| + |ViewOf(arena.pages, o).own|
      ensures parts == (base + ViewOf(arena.pages, o).own)[offset..offset + length]
    {
      hide BasesOk, BasesView, ObjectOk, ViewOf, BaseOk, BaseBytes;
      var front, back: bytes := [], [];
      var cursor := offset;
      if cursor < o.baseSize {
        var found := GetBase(arena, root.value.bases, o.baseHash.value);
        var take := Min(length, o.baseSize - cursor);
        var part := ReadBase(found.value, cursor, take);
        front := part.value;
        cursor := cursor + take;
      }
      if cursor < offset + length {
        var part := ReadOwn(o, cursor, offset + length - cursor);
        back := part.value;
      }
      parts := front + back;
      JoinContents(base, ViewOf(arena.pages, o).own, offset, offset + length, parts);
    }

    method ReadBase(b: Base, offset: nat, length: nat) returns (r: Option<bytes>)
      requires BaseOk(arena.pages, b) && offset + length <= |BaseBytes(arena.pages, b)|
      ensures r == Some(BaseBytes(arena.pages, b)[offset..offset + length])
    {
      hide Tiled, DataOf, WfRoot, EntriesAt;
      var name := ExtentsOfBase(b.hash);
      r := ReadExtentRange(PersistentCowIndex(arena, name), b.extentRoot, offset, length,
        Listed(arena.pages, name, b.extentRoot), 0, OwnBytes(arena.pages, name, b.extentRoot));
    }

    method ReadOwn(o: Object, offset: nat, length: nat) returns (r: Option<bytes>)
      requires ObjectOk(arena.pages, o) && o.baseSize <= offset && offset + length <= o.baseSize + |ViewOf(arena.pages, o).own|
      ensures r == Some(ViewOf(arena.pages, o).own[offset - o.baseSize..offset - o.baseSize + length])
    {
      hide Tiled, DataOf, WfRoot, EntriesAt;
      var name := ExtentsOfObject(o.id);
      r := ReadExtentRange(PersistentCowIndex(arena, name), o.extentRoot, offset, length,
        Listed(arena.pages, name, o.extentRoot), o.baseSize, OwnBytes(arena.pages, name, o.extentRoot));
    }

    /** `directChildren`: the key interval of one parent holds exactly its relations. */
    method DirectChildren(candidate: Root, parent: Id) returns (children: seq<Relation>)
      requires RootOk(arena.pages, candidate) && Consistent(View(arena.pages, candidate)) && ValidId(parent)
      ensures ListsChildren(View(arena.pages, candidate), children, parent)
    {
      hide ObjectsOk, ObjectsView, BasesOk, BasesView, WfRoot, EntriesAt, Consistent, AsMap, Within, Take, ValidId, IsChild;
      var lower, upper := parent + [0], parent + [1];
      var entries := PersistentCowIndex(arena, BY_PARENT).Range(candidate.byParent, Some(lower), Some(upper), None);
      ghost var all := EntriesAt(arena.pages, BY_PARENT, candidate.byParent);
      EntriesSorted(arena.pages, BY_PARENT, candidate.byParent);
      assert entries == Within(all, Some(lower), Some(upper)) by { hide *; NoLimit(Within(all, Some(lower), Some(upper))); }
      ChildrenInRange(View(arena.pages, candidate), all, parent);
      children := seq(|entries|, i requires 0 <= i < |entries| => entries[i].value.relation);
      assert forall i | 0 <= i < |entries| :: children[i] == entries[i].value.relation;
    }

    /** `reachableObjectIds`: breadth first from the root, each reachable id once; it throws exactly when something is too deep. */
    method ReachableObjectIds() returns (r: Option<seq<Id>>)
      requires Valid() && root.Some?
      ensures r.Some? ==> Distinct(r.value) && forall x :: x in r.value <==> x in Published().objects && Descends(Published().byChild, x, Published().rootId)
      ensures r.Some? <==> NoDeeper(Published().byChild, Published().rootId, maxDepth)
    {
      hide RootOk, View, Sound, TxOk, ValidId, BfsInv, ListsChildren, Consistent, Below, Depths, NoDeeper;
      ghost var w := Published();
      SoundForest(hash, w);
      ViewRoot(arena.pages, root.value);
      var ids: seq<Id> := [];
      var queue: seq<(Id, nat)> := [(root.value.rootId, 0)];
      BfsStart(w);
      ghost var left := w.objects.Keys;
      while queue != []
        invariant BfsInv(w, ids, QueueIds(queue)) && Depths(w, queue)
        invariant forall x | x in ids :: x in w.objects && Shallow(w, x, maxDepth)
        invariant left == w.objects.Keys - set x | x in ids
        decreases left
      {
        var (id, depth) := queue[0];
        HeadIsNew(w, ids, QueueIds(queue));
        HeadDepth(w, queue);
        if id in ids {
          assert false;
          return None;
        }
        if depth > maxDepth {
          BelowTooDeep(w, id, depth, maxDepth);
          return None;
        }
        var children := DirectChildren(root.value, id);
        var more := seq(|children|, i requires 0 <= i < |children| => (children[i].child, depth + 1));
        Enqueued(w, ids, queue, children, more);
        ids, queue, left := ids + [id], queue[1..] + more, left - {id};
      }
      assert QueueIds(queue) == [];
      BfsEnd(w, ids, maxDepth);
      BfsNoDeeper(w, ids, maxDepth);
      return Some(ids);
    }

    /**
     The depth-first `walk` of `verifyGraph` and `materializeSubtree`: everything below `id` is added to what was visited,
     each once. It throws for depth, exactly when the subtree is deeper than the limit allows; never for a cycle.
     */
    method Walk(id: Id, depth: nat, visited: seq<Id>) returns (r: Option<seq<Id>>)
      requires Valid() && root.Some? && id in Published().objects && Distinct(visited)
      requires forall x | x in visited :: !Descends(Published().byChild, x, id)
      ensures r.Some? <==> NoDeeper(Published().byChild, id, maxDepth - depth)
      ensures r.Some? ==> visited <= r.value && Distinct(r.value)
      ensures r.Some? ==> forall x :: x in r.value <==> x in visited || Descends(Published().byChild, x, id)
      decreases maxDepth + 1 - depth
    {
      hide RootOk, View, Sound, TxOk, Valid, ListsChildren, Consistent, Acyclic, Descends, Walked, NoDeeper, IsChild, Distinct, ValidId;
      StoreSound();
      ghost var w := Published();
      if depth > maxDepth {
        TooDeep(w.byChild, id, maxDepth - depth);
        return None;
      }
      Itself(w.byChild, id);
      if id in visited {
        assert false;
        return None;
      }
      ObjectIds(w, id);
      var live := visited + [id];
      var children := DirectChildren(root.value, id);
      WalkedOne(w, id, visited, children);
      var j := 0;
      while j < |children|
        invariant j <= |children| && Walked(w, id, visited, live, children, j)
        invariant forall k | 0 <= k < j :: NoDeeper(w.byChild, children[k].child, maxDepth - depth - 1)
      {
        NextIsNew(w, id, visited, live, children, j);
        WalkedDistinct(w, id, visited, live, children, j);
        var more := Walk(children[j].child, depth + 1, live);
        if more.None? {
          DeepChild(w, id, children[j].child, maxDepth - depth);
          return None;
        }
        WalkedNext(w, id, visited, live, more.value, children, j);
        live := more.value;
        j := j + 1;
      }
      WalkedAll(w, id, visited, live, children);
      ShallowChildren(w, id, children, maxDepth - depth);
      return Some(live);
    }

    /** What validity says of the published world. */
    lemma StoreSound()
      requires Valid() && root.Some?
      ensures RootOk(arena.pages, root.value) && Sound(hash, Published()) && Forested(Published())
      ensures Published().rootId in Published().objects && Published().rootId == root.value.rootId
    {
      hide RootOk, View, Sound, TxOk;
      SoundForest(hash, Published());
      ViewRoot(arena.pages, root.value);
    }

    /**
     `verifyGraph({ deep: true })`: of its five errors only the depth limit can occur in a store that was built by this code,
     and it occurs exactly when something lies deeper than `maxDepth` below the root.
     */
    method VerifyGraph() returns (r: Option<Error>)
      requires Valid() && root.Some?
      ensures r.None? <==> NoDeeper(Published().byChild, Published().rootId, maxDepth)
    {
      hide RootOk, View, Sound, TxOk, Valid, Consistent, Acyclic, Descends, NoDeeper;
      StoreSound();
      var top := FindObject(root.value, root.value.rootId);
      if top.None? {
        assert false;
        return Some(Invalid);
      }
      var relations := AllRelations(root.value);
      var i := 0;
      while i < |relations|
        invariant i <= |relations|
      {
        var ok := BothWays(root.value, relations[i]);
        if !ok {
          return Some(Invalid);
        }
        i := i + 1;
      }
      var live := Walk(root.value.rootId, 0, []);
      return if live.None? then Some(Invalid) else None;
    }

    /** All relations, by parent. */
    method AllRelations(candidate: Root) returns (relations: seq<Relation>)
      requires RootOk(arena.pages, candidate)
      ensures forall i | 0 <= i < |relations| :: Indexed(View(arena.pages, candidate), relations[i])
    {
      hide ObjectsOk, ObjectsView, BasesOk, BasesView, WfRoot, EntriesAt, AsMap;
      var entries := PersistentCowIndex(arena, BY_PARENT).EntriesIn(candidate.byParent);
      EntriesSorted(arena.pages, BY_PARENT, candidate.byParent);
      ghost var w := View(arena.pages, candidate);
      assert AsMap(entries) == Index(arena.pages, BY_PARENT, candidate.byParent);
      forall i | 0 <= i < |entries|
        ensures entries[i].value.RelationValue? && entries[i].key in w.byParent && w.byParent[entries[i].key] == entries[i].value.relation
      {
        EntryInMap(entries, entries[i]);
      }
      relations := seq(|entries|, i requires 0 <= i < |entries| => entries[i].value.relation);
      forall i | 0 <= i < |relations| ensures Indexed(w, relations[i]) {
        assert relations[i] == w.byParent[entries[i].key];
      }
    }

    /** One relation as `verifyGraph` checks it: both ends exist and the reverse index agrees. In a sound world it does. */
    method BothWays(candidate: Root, relation: Relation) returns (ok: bool)
      requires RootOk(arena.pages, candidate) && Consistent(View(arena.pages, candidate))
      requires Indexed(View(arena.pages, candidate), relation)
      ensures ok
    {
      hide ObjectsOk, ObjectsView, RelationsOk, RelationsView, BasesOk, BasesView, Consistent;
      RelationIds(View(arena.pages, candidate), relation);
      RelationEnds(View(arena.pages, candidate), relation);
      var parent := FindObject(candidate, relation.parent);
      var child := FindObject(candidate, relation.child);
      var reverse := GetRelation(arena, BY_CHILD, candidate.byChild, relation.child);
      return parent.Some? && child.Some? && reverse.Some? && reverse.value.parent == relation.parent;
    }

    // ----- new objects

    /** `initializeHostRoot`: the first commit; an existing root is left alone. */
    method InitializeHostRoot(o: Object)
      requires Valid() && ValidId(o.id) && o.hostRoot && o.extentRoot == None && o.baseSize <= MAX_SAFE_INTEGER
      modifies this`root, this`commitOffset, arena
      ensures Valid() && root.Some? && old(arena.pages) <= arena.pages && transactions == old(transactions)
      ensures old(root).Some? ==> root == old(root) && commitOffset == old(commitOffset) && arena.pages == old(arena.pages)
      ensures old(root).None? ==> Published() == HostWorld(HostView(o)) && root.value.generation == 1
    {
      hide ObjectsOk, ObjectsView, RelationsOk, RelationsView, BasesOk, BasesView, ObjectOk, ViewOf, Sound, TxOk;
      if root.Some? {
        return;
      }
      EmptyRoot(arena.pages, o);
      HostWorldSound(hash, HostView(o));
      var candidate := WithObject(Root(o.id, None, None, None, None, 0, None), o);
      CommitRoot(candidate);
    }

    method SyncHostState(revision: Option<nat>, stateHash: Option<Key>, head: Option<nat>, size: Option<nat>, actor: Option<Id>) returns (r: Outcome<()>)
      requires Valid() && root.Some?
      modifies this`root, this`commitOffset, arena
      ensures Valid() && root.Some? && old(arena.pages) <= arena.pages
      ensures var spec := SyncHost(old(Published()), revision, stateHash, head, size, actor);
        if spec.Ok? then r == Ok(()) && Published() == spec.value && root.value.generation == old(root).value.generation + 1
        else r == Fail(spec.error) && root == old(root)
    {
      hide RootOk, View, ObjectOk, ViewOf, Sound, TxOk, Allowed;
      ghost var w, pages := Published(), arena.pages;
      ViewRoot(arena.pages, root.value);
      var host := FindObject(root.value, root.value.rootId);
      if host.None? {
        return Fail(Unknown);
      }
      ViewFields(arena.pages, host.value);
      if !host.value.hostRoot {
        return Fail(Unknown);
      }
      if !Allowed(host.value.meta.governance.state, actor) {
        return Fail(Forbidden);
      }
      var updated := host.value.(stateRevision := if revision.Some? then revision.value else host.value.stateRevision, stateHash := stateHash,
        stateHead := head, virtualSize := if size.Some? then size.value else host.value.virtualSize);
      HostUpdated(arena.pages, host.value, updated);
      var candidate := WithObject(root.value, updated);
      SyncHostKeeps(w, revision, stateHash, head, size, actor);
      SyncHostKeepsSound(hash, w, revision, stateHash, head, size, actor);
      StillValid(pages);
      CommitRoot(candidate);
      return Ok(());
    }

    /** `_ensureBase`: hash the immutable bytes, reuse the base with this hash or copy it in. */
    method EnsureBase(candidate: Root, source: bytes, size: nat, expected: Option<Key>) returns (r: Outcome<Root>)
      requires RootOk(arena.pages, candidate) && Sound(hash, View(arena.pages, candidate)) && Ideal(hash)
      requires size <= |source| ==> size <= MAX_SAFE_INTEGER
      modifies arena
      ensures old(arena.pages) <= arena.pages
      ensures r.Ok? <==> size <= |source| && (expected.None? || expected.value == hash(source[..size]))
      ensures r.Fail? ==> r.error == Invalid
      ensures r.Ok? ==> RootOk(arena.pages, r.value) && View(arena.pages, r.value) == AddBase(old(View(arena.pages, candidate)), hash, source[..size])
      ensures r.Ok? ==> r.value == candidate.(bases := r.value.bases)
    {
      hide ObjectsOk, ObjectsView, RelationsOk, RelationsView, BasesOk, BasesView, BaseOk, BaseBytes, Ideal;
      if size > |source| {
        return Fail(Invalid);
      }
      var data := source[..size];
      var id := hash(data);
      if expected.Some? && expected.value != id {
        return Fail(Invalid);
      }
      var existing := GetBase(arena, candidate.bases, id);
      if existing.Some? {
        return Ok(candidate);
      }
      ghost var pages := arena.pages;
      var base := CopyBase(id, source, size);
      RootGrow(pages, arena.pages, candidate);
      pages := arena.pages;
      var bases := PutBase(arena, candidate.bases, base);
      RootGrow(pages, arena.pages, candidate);
      return Ok(candidate.(bases := bases));
    }

    method CopyBase(id: Key, source: bytes, size: nat) returns (base: Base)
      requires size <= |source| && size <= MAX_SAFE_INTEGER
      modifies arena
      ensures old(arena.pages) <= arena.pages
      ensures base.hash == id && BaseOk(arena.pages, base) && BaseBytes(arena.pages, base) == source[..size]
    {
      hide Tiled, WfRoot, EntriesAt, DataOf;
      var extentRoot, xs := CopySourceToExtents(PersistentCowIndex(arena, ExtentsOfBase(id)), source, 0, size, 0);
      assert source[0..0 + size] == source[..size];
      ExtentMapOf(arena.pages, ExtentsOfBase(id), extentRoot, 0, xs, source[..size]);
      return Base(id, size, extentRoot);
    }

    /** The bytes of a source beyond its base become the object's own extents. */
    method CopyTail(id: Id, source: bytes, baseSize: nat) returns (extentRoot: Option<Pointer>)
      requires baseSize <= |source| <= MAX_SAFE_INTEGER
      modifies arena
      ensures old(arena.pages) <= arena.pages
      ensures ExtentMap(arena.pages, ExtentsOfObject(id), extentRoot, baseSize)
      ensures OwnBytes(arena.pages, ExtentsOfObject(id), extentRoot) == source[baseSize..]
    {
      hide Tiled, WfRoot, EntriesAt, DataOf;
      if |source| <= baseSize {
        EmptyExtentMap(arena.pages, ExtentsOfObject(id), baseSize);
        return None;
      }
      ghost var xs;
      extentRoot, xs := CopySourceToExtents(PersistentCowIndex(arena, ExtentsOfObject(id)), source, baseSize, |source| - baseSize, baseSize);
      assert source[baseSize..baseSize + (|source| - baseSize)] == source[baseSize..];
      ExtentMapOf(arena.pages, ExtentsOfObject(id), extentRoot, baseSize, xs, source[baseSize..]);
    }

    /**
     `importObjectSnapshot`: a copy of an object under an existing parent, presenting exactly the bytes of its source.
     `o` carries the fields of the snapshot; its extents are rewritten here.
     */
    method ImportObjectSnapshot(parentId: Id, locator: Option<Key>, source: bytes, o: Object) returns (r: Outcome<()>)
      requires Valid() && root.Some? && Ideal(hash) && |source| <= MAX_SAFE_INTEGER && ValidId(parentId) && ValidId(o.id)
      modifies this`root, this`commitOffset, arena
      ensures Valid() && root.Some? && old(arena.pages) <= arena.pages && transactions == old(transactions)
      ensures var w := old(Published());
        r.Ok? <==>
          !o.hostRoot && parentId in w.objects && o.id !in w.objects && o.baseSize <= |source|
          && (o.baseHash.None? || o.baseHash.value == hash(source[..o.baseSize]))
      ensures r.Fail? ==> root == old(root)
      ensures r.Ok? ==> Published() == Imported(old(Published()), hash, source[..o.baseSize], ImportedView(hash, o, source), Relation(parentId, o.id, locator))
    {
      hide RootOk, View, ObjectOk, ViewOf, Sound, TxOk, Ideal, ExtentMap, OwnBytes;
      ghost var w, pages := Published(), arena.pages;
      if o.hostRoot {
        return Fail(Invalid);
      }
      var parent := FindObject(root.value, parentId);
      if parent.None? {
        return Fail(Unknown);
      }
      var clash := FindObject(root.value, o.id);
      if clash.Some? {
        return Fail(Invalid);
      }
      var ensured := EnsureBase(root.value, source, o.baseSize, o.baseHash);
      if ensured.Fail? {
        StillValid(pages);
        return Fail(ensured.error);
      }
      ghost var before := arena.pages;
      var extentRoot := CopyTail(o.id, source, o.baseSize);
      RootGrow(before, arena.pages, ensured.value);
      var copy := o.(hostRoot := false, baseHash := Some(hash(source[..o.baseSize])), extentRoot := extentRoot, virtualSize := |source|);
      var relation := Relation(parentId, o.id, locator);
      ImportedObject(arena.pages, hash, o, copy, source);
      before := arena.pages;
      var candidate := WithObject(ensured.value, copy);
      candidate := Linked(candidate, relation);
      ImportKeepsSound(hash, w, source[..o.baseSize], ImportedView(hash, o, source), relation);
      ImportKeeps(w, hash, source[..o.baseSize], ImportedView(hash, o, source), relation);
      StillValid(pages);
      CommitRoot(candidate);
      return Ok(());
    }

    method FindObject(candidate: Root, id: Id) returns (r: Option<Object>)
      requires RootOk(arena.pages, candidate)
      ensures r.None? <==> id !in View(arena.pages, candidate).objects
      ensures r.Some? ==> r.value.id == id && ObjectOk(arena.pages, r.value) && ViewOf(arena.pages, r.value) == View(arena.pages, candidate).objects[id]
    {
      hide ObjectsOk, ObjectsView, RelationsOk, RelationsView, BasesOk, BasesView, ObjectOk, ViewOf;
      r := GetObject(arena, candidate.objects, id);
    }

    /**
     `promote`: mount a source as a new child. A child that already has the locator is returned instead; otherwise the new
     object presents exactly the bytes of the source, and its parent's relationship revision advances.
     */
    method Promote(parentId: Option<Id>, locator: Option<Key>, source: bytes, baseSize: nat, id: Id, meta: Meta, stateRevision: nat,
      stateHash: Option<Key>, stateHead: Option<nat>, actor: Option<Id>) returns (r: Outcome<Id>)
      requires Valid() && root.Some? && Ideal(hash) && |source| <= MAX_SAFE_INTEGER && ValidId(id) && (parentId.Some? ==> ValidId(parentId.value))
      modifies this`root, this`commitOffset, arena
      ensures Valid() && root.Some? && old(arena.pages) <= arena.pages && transactions == old(transactions)
      ensures var w := old(Published());
        var p := if parentId.Some? then parentId.value else w.rootId;
        if p !in w.objects then r == Fail(Unknown) && root == old(root)
        else if !Allowed(w.objects[p].meta.governance.relationship, actor) then r == Fail(Forbidden) && root == old(root)
        else if locator.Some? && exists c :: IsChild(w, c, p) && w.byChild[c].locator == locator then
          r.Ok? && IsChild(w, r.value, p) && w.byChild[r.value].locator == locator && root == old(root)
        else if baseSize > |source| || id in w.objects then r == Fail(Invalid) && root == old(root)
        else r == Ok(id) && Published() == Promoted(w, hash, source[..baseSize],
          PromotedView(hash, source, baseSize, id, meta, stateRevision, stateHash, stateHead), Relation(p, id, locator))
    {
      hide RootOk, View, ObjectOk, ViewOf, Sound, TxOk, Ideal, ExtentMap, OwnBytes, Allowed, ListsChildren, ValidId;
      ghost var w, pages := Published(), arena.pages;
      ViewRoot(arena.pages, root.value);
      var p := if parentId.Some? then parentId.value else root.value.rootId;
      var parent := FindObject(root.value, p);
      if parent.None? {
        return Fail(Unknown);
      }
      ViewFields(arena.pages, parent.value);
      if !Allowed(parent.value.meta.governance.relationship, actor) {
        return Fail(Forbidden);
      }
      SoundIds(hash, w, p);
      SoundForest(hash, w);
      var existing := DirectChildren(root.value, p);
      if locator.Some? {
        var found := FindLocator(existing, locator);
        LocatorFound(w, existing, p, locator, found);
        if found.Some? {
          return Ok(found.value.child);
        }
      }
      if baseSize > |source| {
        return Fail(Invalid);
      }
      var ensured := EnsureBase(root.value, source, baseSize, None);
      RootGrow(pages, arena.pages, root.value);
      AddBaseKeepsObjects(w, hash, source[..baseSize]);
      var clash := FindObject(ensured.value, id);
      StillValid(pages);
      if clash.Some? {
        return Fail(Invalid);
      }
      r := Mount(ensured.value, p, locator, source, baseSize, id, meta, stateRevision, stateHash, stateHead);
    }

    /** The second half of `promote`: the object, both relation entries, both ends touched, one Root Commit. */
    method Mount(ensured: Root, p: Id, locator: Option<Key>, source: bytes, baseSize: nat, id: Id, meta: Meta, stateRevision: nat,
      stateHash: Option<Key>, stateHead: Option<nat>) returns (r: Outcome<Id>)
      requires Valid() && root.Some? && Ideal(hash) && baseSize <= |source| <= MAX_SAFE_INTEGER && ValidId(id)
      requires p in Published().objects && id !in Published().objects
      requires RootOk(arena.pages, ensured) && View(arena.pages, ensured) == AddBase(Published(), hash, source[..baseSize])
      requires ensured == root.value.(bases := ensured.bases)
      modifies this`root, this`commitOffset, arena
      ensures Valid() && root.Some? && old(arena.pages) <= arena.pages && r == Ok(id)
      ensures Published() == Promoted(old(Published()), hash, source[..baseSize],
        PromotedView(hash, source, baseSize, id, meta, stateRevision, stateHash, stateHead), Relation(p, id, locator))
    {
      hide RootOk, View, ObjectOk, ViewOf, Sound, TxOk, Ideal, ExtentMap, OwnBytes, ValidId;
      ghost var w, pages := Published(), arena.pages;
      AddBaseKeepsObjects(w, hash, source[..baseSize]);
      var parent := FindObject(ensured, p);
      var extentRoot := CopyTail(id, source, baseSize);
      RootGrow(pages, arena.pages, ensured);
      ObjectGrow(pages, arena.pages, parent.value);
      var o := Object(id, false, meta, Some(hash(source[..baseSize])), baseSize, |source|, stateRevision, 1, stateHash, stateHead, extentRoot);
      PromotedObject(arena.pages, hash, o, source);
      ghost var middle := arena.pages;
      var candidate := WithObject(ensured, o);
      ObjectGrow(middle, arena.pages, parent.value);
      middle := arena.pages;
      candidate := Linked(candidate, Relation(p, id, locator));
      ObjectGrow(middle, arena.pages, parent.value);
      TouchView(arena.pages, parent.value);
      candidate := WithObject(candidate, parent.value.(relationshipRevision := parent.value.relationshipRevision + 1));
      ghost var view := PromotedView(hash, source, baseSize, id, meta, stateRevision, stateHash, stateHead);
      PromoteKeepsSound(hash, w, source[..baseSize], view, Relation(p, id, locator));
      PromoteKeeps(hash, w, source[..baseSize], view, Relation(p, id, locator));
      StillValid(pages);
      CommitRoot(candidate);
      return Ok(id);
    }
  }

  /** A transaction that has read object `o` in the given dimensions. */
  function Recorded(tx: PreparedTx, id: Id, o: ObjectView, state: bool, relationship: bool, package: bool): PreparedTx {
    var d := if id in tx.readSet then tx.readSet[id] else Dependency(None, None, None);
    tx.(readSet := tx.readSet[id := Dependency(if state then Some(o.stateRevision) else d.state,
      if relationship then Some(o.relationshipRevision) else d.relationship, if package then Some(o.meta.packageDigest) else d.package)])
  }

  function Without(transactions: map<TxId, PreparedTx>, ids: seq<TxId>): map<TxId, PreparedTx> {
    map t | t in transactions && t !in ids :: transactions[t]
  }

  /** Which transactions of a group succeed, and how the others fail. */
  function Verdicts(w: World, maxDepth: nat, txs: seq<Tx>): (v: seq<Option<Error>>)
    ensures |v| == |txs|
  {
    if txs == [] then []
    else
      var n := |txs| - 1;
      var next := ApplyTx(Group(w, maxDepth, txs[..n]), maxDepth, txs[n]);
      Verdicts(w, maxDepth, txs[..n]) + [if next.Ok? then None else Some(next.error)]
  }

  lemma BaseIsSmall(pages: Pages, p: Option<Pointer>, hash: Key)
    requires BasesOk(pages, p) && hash in BasesView(pages, p)
    ensures |BasesView(pages, p)[hash]| <= MAX_SAFE_INTEGER
  {
    hide WfRoot, EntriesAt, Tiled, DataOf;
    assert BaseOk(pages, Index(pages, BASES, p)[hash].base);
  }

  lemma SoundHost(hash: ContentHash, w: World)
    requires Sound(hash, w)
    ensures OnlyRootIsHost(w)
  {
  }

  lemma FitsAfter(w: World, v: World, tx: Tx)
    requires TxFits(w, tx) && Keeps(w, v)
    ensures TxFits(v, tx)
  {
    forall i | 0 <= i < |tx.ops| ensures OpFits(v, tx.ops[i]) {
      assert OpFits(w, tx.ops[i]);
    }
  }

  lemma TxStillOk(pages: Pages, more: Pages, w: World, v: World, tx: PreparedTx)
    requires pages <= more && TxOk(pages, w, tx)
    requires Keeps(w, v)
    ensures TxOk(more, v, tx)
  {
    hide PreparedAll, TxFits, TxMeaning;
    TxGrow(pages, more, tx);
    FitsAfter(w, v, TxMeaning(pages, tx));
  }

  lemma PushedOk(pages: Pages, w: World, tx: PreparedTx, op: PreparedOp)
    requires TxOk(pages, w, tx) && Prepared(pages, op) && OpFits(w, Meaning(pages, op))
    ensures TxOk(pages, w, tx.(ops := tx.ops + [op]))
  {
    hide Prepared, Meaning, OpFits;
    var before, after := TxMeaning(pages, tx), TxMeaning(pages, tx.(ops := tx.ops + [op]));
    assert after.ops == before.ops + [Meaning(pages, op)];
    forall i | 0 <= i < |after.ops| ensures OpFits(w, after.ops[i]) {
      if i < |tx.ops| {
        assert OpFits(w, before.ops[i]);
      }
    }
  }

  lemma TxOkGrow(pages: Pages, more: Pages, w: World, tx: PreparedTx)
    requires pages <= more && TxOk(pages, w, tx)
    ensures TxMeaning(more, tx) == TxMeaning(pages, tx)
  {
    hide PreparedAll, TxFits, TxMeaning;
    TxGrow(pages, more, tx);
  }

  lemma ApplyKeeps(hash: ContentHash, w: World, maxDepth: nat, tx: Tx, pages: Pages, prepared: PreparedTx)
    requires Sound(hash, w) && maxDepth > 0 && TxOk(pages, w, prepared) && TxMeaning(pages, prepared) == tx
    ensures var r := ApplyTx(w, maxDepth, tx); r.Ok? ==> Sound(hash, r.value) && r.value.bases == w.bases && r.value.rootId == w.rootId
  {
    hide Sound, ApplyOps, OpFits, DependenciesHold, PreparedAll, TxMeaning;
    if ApplyTx(w, maxDepth, tx).Ok? {
      OpsKeepSound(hash, w, maxDepth, tx.ops, tx.actor);
    }
  }

  lemma SoundSpaced(hash: ContentHash, w: World)
    requires Sound(hash, w)
    ensures Spaced(w)
  {
  }

  lemma SoundForest(hash: ContentHash, w: World)
    requires Sound(hash, w)
    ensures Forested(w) && Consistent(w) && w.rootId in w.objects && w.rootId !in w.byChild
  {
  }

  lemma ViewRoot(pages: Pages, root: Root)
    requires RootOk(pages, root)
    ensures View(pages, root).rootId == root.rootId
  {
  }

  lemma JoinContents(base: bytes, own: bytes, from: nat, to: nat, parts: bytes)
    requires from <= to <= |base| + |own|
    requires parts == (if from < |base| then base[from..Min(to, |base|)] else []) + (if to > |base| then own[Max(from, |base|) - |base|..to - |base|] else [])
    ensures parts == (base + own)[from..to]
  {
    var all, n := base + own, |base|;
    if to <= n {
      assert all[from..to] == base[from..to];
    } else if from >= n {
      assert all[from..to] == own[from - n..to - n];
    } else {
      assert all[from..to] == base[from..] + own[..to - n];
    }
  }

  lemma NoLimit(es: seq<Entry<Value>>)
    ensures Take(es, None) == es
  {
  }

  /** The range between `parent` NUL and `parent` U+0001 lists the relations of exactly this parent. */
  lemma ChildrenInRange(w: World, all: seq<Entry<Value>>, parent: Id)
    requires Consistent(w) && ValidId(parent) && Sorted(all)
    requires AsMap(all).Keys == w.byParent.Keys && forall k | k in w.byParent :: AsMap(all)[k] == RelationValue(w.byParent[k])
    ensures var found := Within(all, Some(parent + [0]), Some(parent + [1]));
      (forall i | 0 <= i < |found| :: found[i].value.RelationValue? && var r := found[i].value.relation; IsChild(w, r.child, parent) && w.byChild[r.child] == r)
      && (forall i, j | 0 <= i < j < |found| :: found[i].value.relation.child != found[j].value.relation.child)
      && (forall c | IsChild(w, c, parent) :: exists i | 0 <= i < |found| :: found[i].value.relation.child == c)
  {
    hide AsMap, Lt, InRange, ValidId, RelationKey, Within, Consistent, Sorted;
    var lower, upper := Some(parent + [0]), Some(parent + [1]);
    var found := Within(all, lower, upper);
    forall i | 0 <= i < |found|
      ensures found[i].value.RelationValue? && var r := found[i].value.relation;
        IsChild(w, r.child, parent) && w.byChild[r.child] == r && found[i].key == RelationKey(parent, r.child)
    {
      FoundIsChild(w, all, parent, found[i]);
    }
    forall i, j | 0 <= i < j < |found| ensures found[i].value.relation.child != found[j].value.relation.child {
      FoundDistinct(all, lower, upper, i, j);
    }
    forall c | IsChild(w, c, parent) ensures exists i | 0 <= i < |found| :: found[i].value.relation.child == c {
      var e := ChildIsFound(w, all, parent, c);
      var j :| 0 <= j < |found| && found[j] == e;
    }
  }

  lemma FoundDistinct(all: seq<Entry<Value>>, lower: Option<Key>, upper: Option<Key>, i: nat, j: nat)
    requires Sorted(all) && i < j < |Within(all, lower, upper)|
    ensures Within(all, lower, upper)[i].key != Within(all, lower, upper)[j].key
  {
    hide Lt, InRange, Within;
    WithinSorted(all, lower, upper);
    LtIrreflexive(Within(all, lower, upper)[i].key);
  }

  lemma FoundIsChild(w: World, all: seq<Entry<Value>>, parent: Id, e: Entry<Value>)
    requires Consistent(w) && ValidId(parent) && Sorted(all)
    requires AsMap(all).Keys == w.byParent.Keys && forall k | k in w.byParent :: AsMap(all)[k] == RelationValue(w.byParent[k])
    requires e in Within(all, Some(parent + [0]), Some(parent + [1]))
    ensures e.value.RelationValue? && var r := e.value.relation;
      IsChild(w, r.child, parent) && w.byChild[r.child] == r && e.key == RelationKey(parent, r.child)
  {
    hide AsMap, Lt, InRange, ValidId, RelationKey, Within, Sorted;
    WithinMember(all, Some(parent + [0]), Some(parent + [1]), e);
    EntryInMap(all, e);
    var r := w.byParent[e.key];
    RelationIds(w, r);
    ChildInterval(parent, r.parent, r.child);
  }

  lemma ChildIsFound(w: World, all: seq<Entry<Value>>, parent: Id, c: Id) returns (e: Entry<Value>)
    requires Consistent(w) && ValidId(parent) && Sorted(all) && IsChild(w, c, parent)
    requires AsMap(all).Keys == w.byParent.Keys && forall k | k in w.byParent :: AsMap(all)[k] == RelationValue(w.byParent[k])
    ensures e in Within(all, Some(parent + [0]), Some(parent + [1])) && e.value == RelationValue(w.byChild[c]) && w.byChild[c].child == c
  {
    hide AsMap, Lt, InRange, ValidId, RelationKey, Within, Sorted;
    var r := w.byChild[c];
    RelationIds(w, r);
    var k := RelationKey(parent, c);
    ChildInterval(parent, parent, c);
    KeysOfMap(all, k);
    var i :| 0 <= i < |all| && all[i].key == k;
    e := all[i];
    EntryInMap(all, e);
    WithinMember(all, Some(parent + [0]), Some(parent + [1]), e);
  }

  lemma EntryInMap(all: seq<Entry<Value>>, e: Entry<Value>)
    requires Sorted(all) && e in all
    ensures e.key in AsMap(all) && AsMap(all)[e.key] == e.value
  {
    hide Lt, AsMap;
    var i :| 0 <= i < |all| && all[i] == e;
    FindEntry(all, i);
    FindInMap(all, e.key);
  }

  lemma RelationIds(w: World, r: Relation)
    requires Consistent(w) && ((r.child in w.byChild && w.byChild[r.child] == r) || (RelationKey(r.parent, r.child) in w.byParent && w.byParent[RelationKey(r.parent, r.child)] == r)
      || exists k | k in w.byParent :: w.byParent[k] == r)
    ensures r.child in w.byChild && w.byChild[r.child] == r && ValidId(r.child) && ValidId(r.parent)
    ensures RelationKey(r.parent, r.child) in w.byParent && w.byParent[RelationKey(r.parent, r.child)] == r
  {
    hide RelationKey, ValidId;
  }

  /** The parent-keyed index holds this relation. */
  ghost predicate Indexed(w: World, r: Relation) { exists k | k in w.byParent :: w.byParent[k] == r }

  lemma RelationEnds(w: World, r: Relation)
    requires Consistent(w) && r.child in w.byChild && w.byChild[r.child] == r
    ensures r.parent in w.objects && r.child in w.objects
  {
    hide RelationKey, ValidId;
  }

  lemma ObjectIds(w: World, id: Id)
    requires Consistent(w) && id in w.objects
    ensures ValidId(id)
  {
  }

  lemma WalkedDistinct(w: World, id: Id, before: seq<Id>, live: seq<Id>, children: seq<Relation>, j: nat)
    requires j <= |children| && Walked(w, id, before, live, children, j)
    ensures Distinct(live) && before <= live
  {
  }

  lemma HeadDepth(w: World, queue: seq<(Id, nat)>)
    requires queue != [] && Depths(w, queue)
    ensures Below(w, queue[0].0, queue[0].1)
  {
  }

  /** One turn of the search: the head visited, its children queued one level deeper. */
  lemma Enqueued(w: World, ids: seq<Id>, queue: seq<(Id, nat)>, children: seq<Relation>, more: seq<(Id, nat)>)
    requires Consistent(w) && BfsInv(w, ids, QueueIds(queue)) && Depths(w, queue) && queue != []
    requires ListsChildren(w, children, queue[0].0) && |more| == |children|
    requires forall i | 0 <= i < |more| :: more[i] == (children[i].child, queue[0].1 + 1)
    ensures BfsInv(w, ids + [queue[0].0], QueueIds(queue[1..] + more)) && Depths(w, queue[1..] + more)
  {
    hide Consistent, BfsInv;
    var q, m := QueueIds(queue), QueueIds(more);
    forall c | IsChild(w, c, q[0]) ensures c in m {
      var i :| 0 <= i < |children| && children[i].child == c;
      assert m[i] == c;
    }
    BfsStep(w, ids, q, m);
    assert QueueIds(queue[1..] + more) == q[1..] + m;
  }

  // ----- new objects

  function HostView(o: Object): ObjectView {
    ObjectView(o.id, o.hostRoot, o.meta, o.baseHash, o.baseSize, o.virtualSize, o.stateRevision, o.relationshipRevision, o.stateHash, o.stateHead, [])
  }

  function PromotedView(hash: ContentHash, source: bytes, baseSize: nat, id: Id, meta: Meta, stateRevision: nat, stateHash: Option<Key>, stateHead: Option<nat>): ObjectView
    requires baseSize <= |source|
  {
    ObjectView(id, false, meta, Some(hash(source[..baseSize])), baseSize, |source|, stateRevision, 1, stateHash, stateHead, source[baseSize..])
  }

  function ImportedView(hash: ContentHash, o: Object, source: bytes): ObjectView
    requires o.baseSize <= |source|
  {
    ObjectView(o.id, false, o.meta, Some(hash(source[..o.baseSize])), o.baseSize, |source|, o.stateRevision, o.relationshipRevision, o.stateHash, o.stateHead, source[o.baseSize..])
  }

  lemma EmptyRoot(pages: Pages, o: Object)
    requires o.hostRoot && o.extentRoot == None && o.baseSize <= MAX_SAFE_INTEGER
    ensures var r := Root(o.id, None, None, None, None, 0, None);
      RootOk(pages, r) && View(pages, r) == World(o.id, map[], map[], map[], map[]) && ObjectOk(pages, o) && ViewOf(pages, o) == HostView(o)
  {
    EmptyIndex(pages, OBJECTS);
    EmptyIndex(pages, BY_PARENT);
    EmptyIndex(pages, BY_CHILD);
    EmptyIndex(pages, BASES);
    EmptyExtentMap(pages, ExtentsOfObject(o.id), o.baseSize);
  }

  lemma HostUpdated(pages: Pages, o: Object, updated: Object)
    requires ObjectOk(pages, o) && o.hostRoot
    requires updated == o.(stateRevision := updated.stateRevision, stateHash := updated.stateHash, stateHead := updated.stateHead, virtualSize := updated.virtualSize)
    ensures ObjectOk(pages, updated)
    ensures ViewOf(pages, updated) == ViewOf(pages, o).(stateRevision := updated.stateRevision, stateHash := updated.stateHash,
      stateHead := updated.stateHead, virtualSize := updated.virtualSize)
  {
    hide ExtentMap, OwnBytes;
  }

  lemma PromotedObject(pages: Pages, hash: ContentHash, o: Object, source: bytes)
    requires !o.hostRoot && o.baseSize <= |source| && o.baseHash == Some(hash(source[..o.baseSize])) && o.virtualSize == |source| && o.relationshipRevision == 1
    requires ExtentMap(pages, ExtentsOfObject(o.id), o.extentRoot, o.baseSize) && OwnBytes(pages, ExtentsOfObject(o.id), o.extentRoot) == source[o.baseSize..]
    ensures ObjectOk(pages, o) && ViewOf(pages, o) == PromotedView(hash, source, o.baseSize, o.id, o.meta, o.stateRevision, o.stateHash, o.stateHead)
  {
    hide OwnBytes, EntriesAt, Tiled;
  }

  lemma ImportedObject(pages: Pages, hash: ContentHash, o: Object, copy: Object, source: bytes)
    requires o.baseSize <= |source|
    requires copy == o.(hostRoot := false, baseHash := Some(hash(source[..o.baseSize])), extentRoot := copy.extentRoot, virtualSize := |source|)
    requires ExtentMap(pages, ExtentsOfObject(o.id), copy.extentRoot, o.baseSize) && OwnBytes(pages, ExtentsOfObject(o.id), copy.extentRoot) == source[o.baseSize..]
    ensures ObjectOk(pages, copy) && ViewOf(pages, copy) == ImportedView(hash, o, source)
  {
    hide OwnBytes, EntriesAt, Tiled;
  }

  lemma SyncHostKeeps(w: World, revision: Option<nat>, stateHash: Option<Key>, head: Option<nat>, size: Option<nat>, actor: Option<Id>)
    ensures var r := SyncHost(w, revision, stateHash, head, size, actor); r.Ok? ==> Keeps(w, r.value)
  {
  }

  lemma ImportKeeps(w: World, hash: ContentHash, base: bytes, o: ObjectView, r: Relation)
    ensures Keeps(w, Imported(w, hash, base, o, r))
  {
  }

  lemma PromoteKeeps(hash: ContentHash, w: World, base: bytes, o: ObjectView, r: Relation)
    requires r.parent in w.objects
    ensures Keeps(w, Promoted(w, hash, base, o, r))
  {
  }

  /** The first listed child with the locator. */
  method FindLocator(children: seq<Relation>, locator: Option<Key>) returns (found: Option<Relation>)
    ensures match found
      case None => forall i | 0 <= i < |children| :: children[i].locator != locator
      case Some(r) => r in children && r.locator == locator
  {
    var i := 0;
    while i < |children|
      invariant i <= |children| && forall j | 0 <= j < i :: children[j].locator != locator
    {
      if children[i].locator == locator {
        return Some(children[i]);
      }
      i := i + 1;
    }
    return None;
  }

  lemma LocatorFound(w: World, children: seq<Relation>, p: Id, locator: Option<Key>, found: Option<Relation>)
    requires ListsChildren(w, children, p)
    requires found.None? ==> forall i | 0 <= i < |children| :: children[i].locator != locator
    requires found.Some? ==> found.value in children && found.value.locator == locator
    ensures found.None? ==> !exists c :: IsChild(w, c, p) && w.byChild[c].locator == locator
    ensures found.Some? ==> IsChild(w, found.value.child, p) && w.byChild[found.value.child].locator == locator
  {
  }

  // ----- how records and views correspond

  lemma ViewFields(pages: Pages, o: Object)
    requires ObjectOk(pages, o)
    ensures var v := ViewOf(pages, o);
      v.id == o.id && v.hostRoot == o.hostRoot && v.meta == o.meta && v.baseHash == o.baseHash && v.baseSize == o.baseSize
      && v.virtualSize == o.virtualSize && v.stateRevision == o.stateRevision && v.relationshipRevision == o.relationshipRevision
      && v.stateHash == o.stateHash && v.stateHead == o.stateHead
  {
  }

  lemma TouchView(pages: Pages, o: Object)
    requires ObjectOk(pages, o)
    ensures var t := o.(relationshipRevision := o.relationshipRevision + 1);
      ObjectOk(pages, t) && ViewOf(pages, t) == Touch(ViewOf(pages, o)) && t.id == o.id
  {
    hide ExtentMap, OwnBytes;
  }

  lemma AppendedView(pages: Pages, more: Pages, o: Object, updated: Object, data: bytes)
    requires ObjectOk(pages, o) && !o.hostRoot && pages <= more
    requires ExtentMap(more, ExtentsOfObject(o.id), updated.extentRoot, o.baseSize)
    requires OwnBytes(more, ExtentsOfObject(o.id), updated.extentRoot) == OwnBytes(pages, ExtentsOfObject(o.id), o.extentRoot) + data
    requires updated == o.(extentRoot := updated.extentRoot, virtualSize := o.virtualSize + |data|, stateRevision := updated.stateRevision,
      stateHash := updated.stateHash, stateHead := updated.stateHead)
    ensures ObjectOk(more, updated)
    ensures ViewOf(more, updated) == ViewOf(pages, o).(own := ViewOf(pages, o).own + data, virtualSize := updated.virtualSize,
      stateRevision := updated.stateRevision, stateHash := updated.stateHash, stateHead := updated.stateHead)
  {
    hide OwnBytes, EntriesAt, Tiled;
  }

  lemma UpgradedView(pages: Pages, o: Object, updated: Object)
    requires ObjectOk(pages, o) && !o.hostRoot && updated.baseSize <= MAX_SAFE_INTEGER
    requires updated == o.(meta := updated.meta, baseHash := updated.baseHash, baseSize := updated.baseSize, virtualSize := updated.baseSize,
      extentRoot := None, stateRevision := updated.stateRevision, stateHash := None, stateHead := None)
    ensures ObjectOk(pages, updated)
    ensures ViewOf(pages, updated) == ViewOf(pages, o).(meta := updated.meta, baseHash := updated.baseHash, baseSize := updated.baseSize,
      virtualSize := updated.baseSize, own := [], stateRevision := updated.stateRevision, stateHash := None, stateHead := None)
  {
    hide OwnBytes, ExtentMap;
    EmptyExtentMap(pages, ExtentsOfObject(o.id), updated.baseSize);
  }
}
