/**
 What the object store means: a map of objects with their own bytes, the containment relation indexed twice,
 and the immutable bases. The functions here are the specification that the store's methods are proved against.
 */
module ObjectWorld {
  import opened Bytes
  import opened Keys
  import opened ObjectTypes

  datatype ObjectView = ObjectView(id: Id, hostRoot: bool, meta: Meta, baseHash: Option<Key>, baseSize: nat, virtualSize: nat,
    stateRevision: nat, relationshipRevision: nat, stateHash: Option<Key>, stateHead: Option<nat>, own: bytes)

  datatype World = World(rootId: Id, objects: map<Id, ObjectView>, byParent: map<Key, Relation>, byChild: map<Id, Relation>, bases: map<Key, bytes>)

  datatype Error = Conflict | Forbidden | Unknown | Invalid

  datatype Outcome<+T> = Ok(value: T) | Fail(error: Error)

  function SetObject(w: World, o: ObjectView): World { w.(objects := w.objects[o.id := o]) }

  function Link(w: World, r: Relation): World {
    w.(byParent := w.byParent[RelationKey(r.parent, r.child) := r], byChild := w.byChild[r.child := r])
  }

  function Unlink(w: World, r: Relation): World {
    w.(byParent := w.byParent - {RelationKey(r.parent, r.child)}, byChild := w.byChild - {r.child})
  }

  function Touch(o: ObjectView): ObjectView { o.(relationshipRevision := o.relationshipRevision + 1) }

  /** One prepared operation of a transaction. */
  datatype Op =
    | StateAppend(id: Id, expectedSize: nat, data: bytes, hash: Option<Option<Key>>, head: Option<nat>)
    | Reparent(child: Id, parent: Id, locator: Option<Key>)
    | Detach(child: Id)
    | BaseUpgrade(id: Id, baseHash: Key, baseSize: nat, packageDigest: Option<Key>, publisher: Option<Key>)

  /** The revisions that a transaction has read: any of the three dimensions. */
  datatype Dependency = Dependency(state: Option<nat>, relationship: Option<nat>, package: Option<Option<Key>>)

  datatype Tx = Tx(actor: Option<Id>, readSet: map<Id, Dependency>, writeSet: map<Id, nat>, ops: seq<Op>)

  predicate Meets(o: ObjectView, d: Dependency) {
    (d.state.Some? ==> o.stateRevision == d.state.value)
    && (d.relationship.Some? ==> o.relationshipRevision == d.relationship.value)
    && (d.package.Some? ==> o.meta.packageDigest == d.package.value)
  }

  /** Every revision a transaction recorded is still current. */
  predicate DependenciesHold(w: World, tx: Tx) {
    (forall id | id in tx.readSet :: id in w.objects && Meets(w.objects[id], tx.readSet[id]))
    && (forall id | id in tx.writeSet :: id in w.objects && w.objects[id].stateRevision == tx.writeSet[id])
  }

  /** The upward walk of `_assertNoCycle` from `current`, `depth` steps in. */
  function Climb(byChild: map<Id, Relation>, current: Option<Id>, visited: set<Id>, depth: nat, maxDepth: nat): Option<Error>
    decreases maxDepth - depth
  {
    if current.None? then None
    else if depth >= maxDepth then Some(Invalid)
    else if current.value in visited then Some(Invalid)
    else Climb(byChild, ParentIn(byChild, current.value), visited + {current.value}, depth + 1, maxDepth)
  }

  function ParentIn(byChild: map<Id, Relation>, id: Id): Option<Id> {
    if id in byChild then Some(byChild[id].parent) else None
  }

  function NoCycle(byChild: map<Id, Relation>, child: Id, parent: Id, maxDepth: nat): Option<Error> {
    if child == parent then Some(Invalid) else Climb(byChild, Some(parent), {child}, 0, maxDepth)
  }

  function Append(w: World, op: Op, actor: Option<Id>): Outcome<World>
    requires op.StateAppend?
  {
    if op.id !in w.objects then Fail(Unknown)
    else
      var o := w.objects[op.id];
      if !Allowed(o.meta.governance.state, actor) then Fail(Forbidden)
      else if o.virtualSize != op.expectedSize then Fail(Conflict)
      else Ok(SetObject(w, o.(own := o.own + op.data, virtualSize := op.expectedSize + |op.data|, stateRevision := o.stateRevision + 1,
        stateHash := if op.hash.None? then o.stateHash else op.hash.value, stateHead := if op.head.None? then o.stateHead else op.head)))
  }

  /** `_applyDetach`. */
  function DetachFrom(w: World, childId: Id, actor: Option<Id>): Outcome<World> {
    if childId !in w.objects || childId == w.rootId then Fail(Invalid)
    else
      var child := w.objects[childId];
      if !Allowed(child.meta.governance.relationship, actor) then Fail(Forbidden)
      else if childId !in w.byChild then Ok(w)
      else
        var relation := w.byChild[childId];
        if relation.parent !in w.objects then Fail(Unknown)
        else
          var parent := w.objects[relation.parent];
          if !Allowed(parent.meta.governance.relationship, actor) then Fail(Forbidden)
          else Ok(SetObject(SetObject(Unlink(w, Relation(relation.parent, childId, None)), Touch(parent)), Touch(child)))
  }

  /** `_applyReparent`. */
  function ReparentTo(w: World, maxDepth: nat, childId: Id, parentId: Id, locator: Option<Key>, actor: Option<Id>): Outcome<World> {
    if childId !in w.objects || parentId !in w.objects then Fail(Unknown)
    else if childId == w.rootId then Fail(Invalid)
    else if !Allowed(w.objects[childId].meta.governance.relationship, actor) || !Allowed(w.objects[parentId].meta.governance.relationship, actor) then Fail(Forbidden)
    else
      var cycle := NoCycle(w.byChild, childId, parentId, maxDepth);
      if cycle.Some? then Fail(cycle.value)
      else
        var before := if childId in w.byChild then Some(w.byChild[childId]) else None;
        if before.Some? && before.value.parent == parentId && (locator.None? || before.value.locator == locator) then Ok(w)
        else
          var detached := if before.Some? then DetachFrom(w, childId, actor) else Ok(w);
          if detached.Fail? then detached
          else
            var v := detached.value;
            if childId !in v.objects || parentId !in v.objects then Fail(Unknown)
            else
              var relation := Relation(parentId, childId, if locator.Some? then locator else if before.Some? then before.value.locator else None);
              var linked := Link(v, relation);
              Ok(SetObject(SetObject(linked, Touch(v.objects[parentId])), Touch(v.objects[childId])))
  }

  function Upgrade(w: World, op: Op, actor: Option<Id>): Outcome<World>
    requires op.BaseUpgrade?
  {
    if op.id !in w.objects then Fail(Unknown)
    else
      var o := w.objects[op.id];
      if !Allowed(o.meta.governance.upgrade, actor) then Fail(Forbidden)
      else Ok(SetObject(w, o.(meta := o.meta.(packageDigest := op.packageDigest, publisher := op.publisher), baseHash := Some(op.baseHash),
        baseSize := op.baseSize, virtualSize := op.baseSize, own := [], stateRevision := o.stateRevision + 1, stateHash := None, stateHead := None)))
  }

  function ApplyOp(w: World, maxDepth: nat, op: Op, actor: Option<Id>): Outcome<World> {
    match op
    case StateAppend(_, _, _, _, _) => Append(w, op, actor)
    case Reparent(child, parent, locator) => ReparentTo(w, maxDepth, child, parent, locator, actor)
    case Detach(child) => DetachFrom(w, child, actor)
    case BaseUpgrade(_, _, _, _, _) => Upgrade(w, op, actor)
  }

  function ApplyOps(w: World, maxDepth: nat, ops: seq<Op>, actor: Option<Id>): Outcome<World>
    decreases |ops|
  {
    if ops == [] then Ok(w)
    else
      var next := ApplyOp(w, maxDepth, ops[0], actor);
      if next.Fail? then next else ApplyOps(next.value, maxDepth, ops[1..], actor)
  }

  /** `_applyTransaction`: validate every dependency, then apply the operations in order; the first failure rejects all. */
  function ApplyTx(w: World, maxDepth: nat, tx: Tx): Outcome<World> {
    if !DependenciesHold(w, tx) then Fail(Conflict) else ApplyOps(w, maxDepth, tx.ops, tx.actor)
  }

  /** `commitTransactions`: one candidate after another, rejected ones leaving no trace. */
  function Group(w: World, maxDepth: nat, txs: seq<Tx>): World {
    if txs == [] then w
    else
      var before := Group(w, maxDepth, txs[..|txs| - 1]);
      var next := ApplyTx(before, maxDepth, txs[|txs| - 1]);
      if next.Ok? then next.value else before
  }
}
