/**
 What the operations of the object store do, said of the worlds before and after alone: which edge, which fields, which revisions, and who may.
 */
module ObjectEffects {
  import opened Bytes
  import opened Keys
  import opened ObjectTypes
  import opened ObjectWorld
  import opened Forest
  import opened Transactions
  import opened StoreInvariants

  // ----- authority

  /** An actor may act under a rule exactly if it is open or lists that actor; nobody is never listed. */
  lemma AllowedMeans(rule: Rule, actor: Option<Id>)
    ensures Allowed(rule, actor) <==> rule.Open? || exists i | 0 <= i < |rule.ids| :: rule.ids[i] != [] && actor == Some(rule.ids[i])
  {
  }

  /** What every operation needs: its objects, the right to it, and for an append the size it expects. */
  ghost predicate May(w: World, op: Op, actor: Option<Id>) {
    match op
    case StateAppend(id, expectedSize, _, _, _) =>
      id in w.objects && Allowed(w.objects[id].meta.governance.state, actor) && w.objects[id].virtualSize == expectedSize
    case BaseUpgrade(id, _, _, _, _) => id in w.objects && Allowed(w.objects[id].meta.governance.upgrade, actor)
    case Detach(child) => child in w.objects && child != w.rootId && MayMove(w, child, actor) && MayLeave(w, child, actor)
    case Reparent(child, parent, locator) =>
      child in w.objects && parent in w.objects && child != w.rootId && MayMove(w, child, actor) && MayMove(w, parent, actor)
      && !Descends(w.byChild, parent, child) && (AsAsked(w, child, parent, locator) || MayLeave(w, child, actor))
  }

  ghost predicate MayMove(w: World, id: Id, actor: Option<Id>) { id in w.objects && Allowed(w.objects[id].meta.governance.relationship, actor) }

  /** The object that contains the child, if any, lets it go. */
  ghost predicate MayLeave(w: World, child: Id, actor: Option<Id>) { child in w.byChild ==> MayMove(w, w.byChild[child].parent, actor) }

  /** The edge is there already, and no other locator is asked for. */
  predicate AsAsked(w: World, child: Id, parent: Id, locator: Option<Key>) {
    child in w.byChild && w.byChild[child].parent == parent && (locator.None? || w.byChild[child].locator == locator)
  }

  /**
   An operation succeeds exactly if its objects are there and its actor may, and for a new edge if no cycle results and the new parent is
   not too deep for the walk that looks for one.
   */
  lemma SucceedsExactly(w: World, maxDepth: nat, op: Op, actor: Option<Id>)
    requires Forested(w) && maxDepth > 0
    ensures ApplyOp(w, maxDepth, op, actor).Ok? <==> May(w, op, actor) && (op.Reparent? ==> Grounded(w.byChild, op.parent, maxDepth - 1))
  {
    hide Forested, Allowed, Grounded, Descends, ReparentTo;
    match op
    case StateAppend(_, _, _, _, _) =>
    case BaseUpgrade(_, _, _, _, _) =>
    case Detach(child) =>
      if child in w.byChild {
        ParentIsThere(w, child);
      }
    case Reparent(child, parent, locator) => ReparentSucceeds(w, maxDepth, child, parent, locator, actor);
  }

  lemma ParentIsThere(w: World, child: Id)
    requires Forested(w) && child in w.byChild
    ensures child in w.objects && w.byChild[child].parent in w.objects && w.byChild[child].parent != child && w.byChild[child].child == child
  {
    hide Acyclic, RelationKey, ValidId;
    NotOwnParent(w, child);
  }

  lemma ReparentSucceeds(w: World, maxDepth: nat, child: Id, parent: Id, locator: Option<Key>, actor: Option<Id>)
    requires Forested(w) && maxDepth > 0
    ensures ReparentTo(w, maxDepth, child, parent, locator, actor).Ok?
      <==> May(w, Reparent(child, parent, locator), actor) && Grounded(w.byChild, parent, maxDepth - 1)
  {
    hide Forested, Allowed, Grounded, Descends, NoCycle;
    NoCycleExact(w.byChild, child, parent, maxDepth);
    if child in w.byChild {
      ParentIsThere(w, child);
      if DetachFrom(w, child, actor).Ok? {
        DetachKeys(w, child, actor);
      }
    }
  }

  lemma DetachKeys(w: World, child: Id, actor: Option<Id>)
    requires Forested(w) && DetachFrom(w, child, actor).Ok?
    ensures DetachFrom(w, child, actor).value.objects.Keys == w.objects.Keys
  {
    hide Allowed, Acyclic;
    DetachedShape(w, child, actor);
  }

  /** How it fails otherwise: nothing to act on, no right to, a size that is not the expected one, or an edge that cannot be. */
  lemma FailsAs(w: World, maxDepth: nat, op: Op, actor: Option<Id>)
    requires Forested(w) && maxDepth > 0
    ensures op.StateAppend? || op.BaseUpgrade? ==> (ApplyOp(w, maxDepth, op, actor) == Fail(Unknown) <==> op.id !in w.objects)
    ensures op.StateAppend? && op.id in w.objects ==>
      (ApplyOp(w, maxDepth, op, actor) == Fail(Forbidden) <==> !Allowed(w.objects[op.id].meta.governance.state, actor))
    ensures op.BaseUpgrade? && op.id in w.objects ==>
      (ApplyOp(w, maxDepth, op, actor) == Fail(Forbidden) <==> !Allowed(w.objects[op.id].meta.governance.upgrade, actor))
    ensures ApplyOp(w, maxDepth, op, actor) == Fail(Conflict) ==> op.StateAppend? && w.objects[op.id].virtualSize != op.expectedSize
    ensures op.Reparent? ==> (ApplyOp(w, maxDepth, op, actor) == Fail(Unknown) <==> op.child !in w.objects || op.parent !in w.objects)
    ensures op.Reparent? && op.child in w.objects && op.parent in w.objects ==>
      (ApplyOp(w, maxDepth, op, actor) == Fail(Invalid) <==>
        op.child == w.rootId
        || (MayMove(w, op.child, actor) && MayMove(w, op.parent, actor) && (Descends(w.byChild, op.parent, op.child) || !Grounded(w.byChild, op.parent, maxDepth - 1))))
    ensures op.Detach? ==> (ApplyOp(w, maxDepth, op, actor) == Fail(Invalid) <==> op.child !in w.objects || op.child == w.rootId)
    ensures op.Detach? ==> ApplyOp(w, maxDepth, op, actor) != Fail(Unknown)
  {
    hide Forested, Allowed, Grounded, Descends, NoCycle, Link, Unlink, SetObject, Touch;
    if op.Reparent? || op.Detach? {
      if op.child in w.byChild {
        ParentIsThere(w, op.child);
        if DetachFrom(w, op.child, actor).Ok? {
          DetachKeys(w, op.child, actor);
        }
      }
      if op.Reparent? {
        NoCycleExact(w.byChild, op.child, op.parent, maxDepth);
        CycleIsInvalid(w.byChild, op.child, op.parent, maxDepth);
      }
    }
  }

  lemma CycleIsInvalid(byChild: map<Id, Relation>, child: Id, parent: Id, maxDepth: nat)
    ensures NoCycle(byChild, child, parent, maxDepth) in {None, Some(Invalid)}
  {
    ClimbIsInvalid(byChild, Some(parent), {child}, 0, maxDepth);
  }

  lemma {:induction false} ClimbIsInvalid(byChild: map<Id, Relation>, current: Option<Id>, visited: set<Id>, depth: nat, maxDepth: nat)
    ensures Climb(byChild, current, visited, depth, maxDepth) in {None, Some(Invalid)}
    decreases maxDepth - depth
  {
    if current.Some? && depth < maxDepth && current.value !in visited {
      ClimbIsInvalid(byChild, ParentIn(byChild, current.value), visited + {current.value}, depth + 1, maxDepth);
    }
  }

  // ----- what changes

  /** The object is the same but for how often its relations changed. */
  predicate SameButRelations(a: ObjectView, b: ObjectView) { b == a.(relationshipRevision := b.relationshipRevision) }

  /** Only the edge of one child may differ, in both indexes; no object comes or goes, and no base. */
  ghost predicate OnlyEdgeOf(w: World, v: World, child: Id) {
    v.rootId == w.rootId && v.bases == w.bases && v.objects.Keys == w.objects.Keys
    && (forall c | c != child :: (c in v.byChild <==> c in w.byChild) && (c in w.byChild ==> v.byChild[c] == w.byChild[c]))
    && forall id | id in w.objects :: SameButRelations(w.objects[id], v.objects[id])
  }

  /** How often the relations of an object have changed from one world to the next. */
  function RelationSteps(w: World, v: World, id: Id): int
    requires id in w.objects && id in v.objects
  {
    v.objects[id].relationshipRevision - w.objects[id].relationshipRevision
  }

  lemma TouchedEnds(w: World, v: World, p: Id, c: Id)
    requires p in w.objects && c in w.objects && w.objects[p].id == p && w.objects[c].id == c && p != c && v.objects == TouchBoth(w, p, c).objects
    ensures v.objects.Keys == w.objects.Keys
    ensures forall id | id in w.objects :: SameButRelations(w.objects[id], v.objects[id]) && RelationSteps(w, v, id) == if id == p || id == c then 1 else 0
  {
  }

  lemma Untouched(w: World)
    ensures forall id | id in w.objects :: SameButRelations(w.objects[id], w.objects[id]) && RelationSteps(w, w, id) == 0
  {
  }

  /** A detached child has no parent, and it and the object that contained it have each changed their relations once; otherwise nothing changed. */
  lemma DetachMeans(w: World, maxDepth: nat, child: Id, actor: Option<Id>, v: World)
    requires Forested(w) && ApplyOp(w, maxDepth, Detach(child), actor) == Ok(v)
    ensures child !in v.byChild && OnlyEdgeOf(w, v, child) && Forested(v)
    ensures forall id | id in w.objects ::
      RelationSteps(w, v, id) == if child in w.byChild && (id == child || id == w.byChild[child].parent) then 1 else 0
  {
    hide Allowed, Forested, RelationKey, SameButRelations;
    DetachKeepsForest(w, child, actor);
    if child in w.byChild {
      ParentIsThere(w, child);
      var p := w.byChild[child].parent;
      ForestedId(w, p);
      ForestedId(w, child);
      TouchedEnds(w, v, p, child);
    } else {
      Untouched(w);
    }
  }

  /**
   After a reparent the child's edge leads to exactly the requested parent, under the requested locator, or under the one it had when none is
   asked for. Nothing else moves. An edge that is there already stays untouched; otherwise both ends of the new edge and both ends of
   the old one have changed their relations.
   */
  lemma ReparentMeans(w: World, maxDepth: nat, child: Id, parent: Id, locator: Option<Key>, actor: Option<Id>, v: World)
    requires Forested(w) && maxDepth > 0 && ApplyOp(w, maxDepth, Reparent(child, parent, locator), actor) == Ok(v)
    ensures child in v.byChild && v.byChild[child].parent == parent && v.byChild[child].child == child && Forested(v) && OnlyEdgeOf(w, v, child)
    ensures v.byChild[child].locator == if locator.None? && child in w.byChild then w.byChild[child].locator else locator
    ensures child != parent && forall id | id in w.objects ::
      RelationSteps(w, v, id) ==
        if AsAsked(w, child, parent, locator) then 0
        else (if id == child || id == parent then 1 else 0) + (if child in w.byChild && (id == child || id == w.byChild[child].parent) then 1 else 0)
  {
    hide Forested, Descends, Grounded, NoCycle, DetachFrom, ReparentTo, SameButRelations, RelationSteps, OnlyEdgeOf, Relink, Free;
    ReparentKeepsForest(w, maxDepth, child, parent, locator, actor);
    NoCycleExact(w.byChild, child, parent, maxDepth);
    ReparentForm(w, maxDepth, child, parent, locator, actor);
    ReachesItself(w.byChild, child, parent);
    Untouched(w);
    if child in w.byChild {
      ParentIsThere(w, child);
    }
    if AsAsked(w, child, parent, locator) {
      NothingMoved(w, child);
    } else {
      FreeMeans(w, maxDepth, child, actor);
      Relinked(w, Free(w, child, actor), NewEdge(w, child, parent, locator));
    }
  }

  lemma NothingMoved(w: World, child: Id)
    ensures OnlyEdgeOf(w, w, child)
  {
    Untouched(w);
  }

  /** The world with the child detached. */
  function Free(w: World, child: Id, actor: Option<Id>): World {
    var u := DetachFrom(w, child, actor);
    if child in w.byChild && u.Ok? then u.value else w
  }

  function NewEdge(w: World, child: Id, parent: Id, locator: Option<Key>): Relation {
    Relation(parent, child, if locator.None? && child in w.byChild then w.byChild[child].locator else locator)
  }

  lemma ReparentForm(w: World, maxDepth: nat, child: Id, parent: Id, locator: Option<Key>, actor: Option<Id>)
    requires ReparentTo(w, maxDepth, child, parent, locator, actor).Ok?
    ensures NoCycle(w.byChild, child, parent, maxDepth) == None && (child in w.byChild && !AsAsked(w, child, parent, locator) ==> DetachFrom(w, child, actor).Ok?)
    ensures var u := Free(w, child, actor);
      (AsAsked(w, child, parent, locator) ==> ReparentTo(w, maxDepth, child, parent, locator, actor) == Ok(w))
      && (!AsAsked(w, child, parent, locator) ==> (child in u.objects && parent in u.objects
        && ReparentTo(w, maxDepth, child, parent, locator, actor) == Ok(Relink(u, NewEdge(w, child, parent, locator)))))
  {
    hide DetachFrom, NoCycle, Allowed, Link, SetObject, Touch;
  }

  function Relink(u: World, r: Relation): World
    requires r.parent in u.objects && r.child in u.objects
  {
    SetObject(SetObject(Link(u, r), Touch(u.objects[r.parent])), Touch(u.objects[r.child]))
  }

  lemma FreeMeans(w: World, maxDepth: nat, child: Id, actor: Option<Id>)
    requires Forested(w) && (child in w.byChild ==> DetachFrom(w, child, actor).Ok?)
    ensures var u := Free(w, child, actor);
      Forested(u) && child !in u.byChild && OnlyEdgeOf(w, u, child) && u.objects.Keys == w.objects.Keys
      && forall id | id in w.objects :: RelationSteps(w, u, id) == if child in w.byChild && (id == child || id == w.byChild[child].parent) then 1 else 0
  {
    hide Forested, DetachFrom, RelationSteps;
    if child in w.byChild {
      ParentIsThere(w, child);
      DetachMeans(w, maxDepth, child, actor, Free(w, child, actor));
    } else {
      NothingMoved(w, child);
      Untouched(w);
    }
  }

  /** A new edge of the child changes the relations of its two ends once. */
  lemma Relinked(w: World, u: World, r: Relation)
    requires Forested(u) && r.parent in u.objects && r.child in u.objects && r.parent != r.child && OnlyEdgeOf(w, u, r.child) && r.child !in u.byChild
    ensures var v := Relink(u, r);
      OnlyEdgeOf(w, v, r.child) && r.child in v.byChild && v.byChild[r.child] == r && v.objects.Keys == w.objects.Keys == u.objects.Keys
      && forall id | id in w.objects :: RelationSteps(w, v, id) == RelationSteps(w, u, id) + if id == r.parent || id == r.child then 1 else 0
  {
    hide Forested, RelationKey, SameButRelations, RelationSteps;
    ForestedId(u, r.child);
    ForestedId(u, r.parent);
    TouchedEnds(u, Relink(u, r), r.parent, r.child);
    TwoSteps(w, u, Relink(u, r));
  }

  /** Changes of relations add up. */
  lemma TwoSteps(w: World, u: World, v: World)
    requires w.objects.Keys == u.objects.Keys == v.objects.Keys
    requires forall id | id in w.objects :: SameButRelations(w.objects[id], u.objects[id]) && SameButRelations(u.objects[id], v.objects[id])
    ensures forall id | id in w.objects :: SameButRelations(w.objects[id], v.objects[id]) && RelationSteps(w, v, id) == RelationSteps(w, u, id) + RelationSteps(u, v, id)
  {
  }

  lemma ReachesItself(byChild: map<Id, Relation>, child: Id, parent: Id)
    requires !Descends(byChild, parent, child)
    ensures child != parent
  {
    assert child == parent ==> ReachesUp(byChild, parent, child, 0);
  }

  /** Only one object changed, and no edge or base. */
  ghost predicate OnlyObject(w: World, v: World, id: Id) {
    v.rootId == w.rootId && v.bases == w.bases && v.byChild == w.byChild && v.byParent == w.byParent && v.objects.Keys == w.objects.Keys
    && forall x | x in w.objects && x != id :: v.objects[x] == w.objects[x]
  }

  /** An append adds its bytes and one state revision; hash and head are the announced ones, or stay when none is announced. */
  lemma AppendMeans(w: World, maxDepth: nat, op: Op, actor: Option<Id>, v: World)
    requires Forested(w) && op.StateAppend? && ApplyOp(w, maxDepth, op, actor) == Ok(v)
    ensures op.id in w.objects && OnlyObject(w, v, op.id) && var a, b := w.objects[op.id], v.objects[op.id];
      b.own == a.own + op.data && b.virtualSize == a.virtualSize + |op.data| && b.stateRevision == a.stateRevision + 1
      && b.relationshipRevision == a.relationshipRevision && b.meta == a.meta && b.baseHash == a.baseHash && b.baseSize == a.baseSize
      && b.hostRoot == a.hostRoot && b.id == op.id
      && (op.hash.Some? ==> b.stateHash == op.hash.value) && (op.hash.None? ==> b.stateHash == a.stateHash)
      && (op.head.Some? ==> b.stateHead == op.head) && (op.head.None? ==> b.stateHead == a.stateHead)
  {
    hide Allowed, Acyclic, RelationKey, ValidId;
    ForestedId(w, op.id);
  }

  /** An upgrade leaves the new base alone: nothing of the old contents and of the old state stays, everything about relations does. */
  lemma UpgradeMeans(w: World, maxDepth: nat, op: Op, actor: Option<Id>, v: World)
    requires Forested(w) && op.BaseUpgrade? && ApplyOp(w, maxDepth, op, actor) == Ok(v)
    ensures op.id in w.objects && OnlyObject(w, v, op.id) && var a, b := w.objects[op.id], v.objects[op.id];
      b.baseHash == Some(op.baseHash) && b.baseSize == b.virtualSize == op.baseSize && b.own == [] && b.stateHash == None && b.stateHead == None
      && b.stateRevision == a.stateRevision + 1 && b.relationshipRevision == a.relationshipRevision && b.hostRoot == a.hostRoot && b.id == op.id
      && b.meta.packageDigest == op.packageDigest && b.meta.publisher == op.publisher
      && b.meta.applicationId == a.meta.applicationId && b.meta.governance == a.meta.governance
  {
    hide Allowed, Acyclic, RelationKey, ValidId;
    ForestedId(w, op.id);
  }

  // ----- transactions

  /** Nothing recorded is out of date. */
  predicate UpToDate(w: World, tx: Tx) {
    (forall id | id in tx.readSet :: id in w.objects && tx.readSet[id].state in {None, Some(w.objects[id].stateRevision)}
      && tx.readSet[id].relationship in {None, Some(w.objects[id].relationshipRevision)}
      && tx.readSet[id].package in {None, Some(w.objects[id].meta.packageDigest)})
    && forall id | id in tx.writeSet :: id in w.objects && tx.writeSet[id] == w.objects[id].stateRevision
  }

  /** A transaction conflicts as soon as one recorded revision is not current, in any of the dimensions; when all are, it ends as its operations do. */
  lemma FreshApplies(w: World, maxDepth: nat, tx: Tx)
    ensures UpToDate(w, tx) ==> ApplyTx(w, maxDepth, tx) == ApplyOps(w, maxDepth, tx.ops, tx.actor)
    ensures !UpToDate(w, tx) ==> ApplyTx(w, maxDepth, tx) == Fail(Conflict)
  {
    hide ApplyOps;
  }

  /** Two operations in a row are the first and then the second. */
  lemma {:induction false} OpsInOrder(w: World, maxDepth: nat, a: seq<Op>, b: seq<Op>, actor: Option<Id>)
    ensures ApplyOps(w, maxDepth, [], actor) == Ok(w)
    ensures ApplyOps(w, maxDepth, a + b, actor) ==
      var first := ApplyOps(w, maxDepth, a, actor); if first.Fail? then first else ApplyOps(first.value, maxDepth, b, actor)
    ensures |a| == 1 ==> ApplyOps(w, maxDepth, a, actor) == ApplyOp(w, maxDepth, a[0], actor)
    decreases |a|
  {
    hide ApplyOp;
    if a == [] {
      assert a + b == b;
    } else {
      assert (a + b)[1..] == a[1..] + b;
      var next := ApplyOp(w, maxDepth, a[0], actor);
      if next.Ok? {
        OpsInOrder(next.value, maxDepth, a[1..], b, actor);
      }
    }
  }

  // ----- the other steps

  /** A promotion adds the object and its edge, and the base if it is new; the parent's relations have changed once. */
  lemma PromotionMeans(hash: ContentHash, w: World, maxDepth: nat, base: bytes, o: ObjectView, r: Relation)
    requires Forested(w) && NewObject(w, hash, o, r, base)
    ensures var v := AfterStep(hash, w, maxDepth, Promotes(base, o, r));
      v.rootId == w.rootId && v.objects.Keys == w.objects.Keys + {o.id} && v.objects[o.id] == o
      && v.byChild == w.byChild[o.id := r] && v.byParent == w.byParent[RelationKey(r.parent, o.id) := r]
      && (forall id | id in w.objects :: SameButRelations(w.objects[id], v.objects[id]) && RelationSteps(w, v, id) == if id == r.parent then 1 else 0)
      && v.bases.Keys == w.bases.Keys + {hash(base)} && forall k | k in w.bases :: v.bases[k] == w.bases[k]
  {
    hide Acyclic, RelationKey, ValidId;
    ForestedId(w, r.parent);
  }

  /** An import adds the same, and leaves every object that was there as it was. */
  lemma ImportMeans(hash: ContentHash, w: World, maxDepth: nat, base: bytes, o: ObjectView, r: Relation)
    requires Forested(w) && NewObject(w, hash, o, r, base)
    ensures var v := AfterStep(hash, w, maxDepth, Imports(base, o, r));
      v.rootId == w.rootId && v.objects == w.objects[o.id := o]
      && v.byChild == w.byChild[o.id := r] && v.byParent == w.byParent[RelationKey(r.parent, o.id) := r]
      && v.bases.Keys == w.bases.Keys + {hash(base)} && forall k | k in w.bases :: v.bases[k] == w.bases[k]
  {
    hide Acyclic, RelationKey, ValidId, Consistent;
  }

  lemma HostIsHost(w: World)
    requires OnlyRootIsHost(w) && w.rootId in w.objects
    ensures w.objects[w.rootId].hostRoot
  {
  }

  lemma OneObjectSet(w: World, o: ObjectView)
    requires o.id in w.objects
    ensures OnlyObject(w, SetObject(w, o), o.id) && SetObject(w, o).objects[o.id] == o
  {
  }

  /** The host's state: hash and head are what was given, revision and size too if they were given; for an actor who may, and of nothing else. */
  lemma SyncMeans(w: World, revision: Option<nat>, stateHash: Option<Key>, head: Option<nat>, size: Option<nat>, actor: Option<Id>)
    requires Forested(w) && OnlyRootIsHost(w)
    ensures w.rootId in w.objects && var r, a := SyncHost(w, revision, stateHash, head, size, actor), w.objects[w.rootId];
      (r.Ok? <==> Allowed(a.meta.governance.state, actor)) && (r.Fail? ==> r.error == Forbidden)
      && (r.Ok? ==> OnlyObject(w, r.value, w.rootId) && var b := r.value.objects[w.rootId];
        b.stateHash == stateHash && b.stateHead == head && b.stateRevision == (if revision.Some? then revision.value else a.stateRevision)
        && b.virtualSize == (if size.Some? then size.value else a.virtualSize)
        && b.id == a.id && b.hostRoot && b.meta == a.meta && b.baseHash == a.baseHash && b.baseSize == a.baseSize && b.own == a.own
        && b.relationshipRevision == a.relationshipRevision)
  {
    hide Forested, Allowed, OnlyObject, SetObject, OnlyRootIsHost;
    ForestIsConsistent(w);
    ExistingHost(w);
    HostIsHost(w);
    var host := w.objects[w.rootId];
    OneObjectSet(w, host.(stateRevision := if revision.Some? then revision.value else host.stateRevision, stateHash := stateHash,
      stateHead := head, virtualSize := if size.Some? then size.value else host.virtualSize));
  }
}
