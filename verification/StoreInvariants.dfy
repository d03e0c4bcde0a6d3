/**
 What every published world of the object store satisfies, and that every operation keeps it.
 */
module StoreInvariants {
  import opened Bytes
  import opened Keys
  import opened ObjectTypes
  import opened ObjectWorld
  import opened Forest
  import opened Transactions

  /** SHA-256 of immutable bases, idealized: different bytes have different names. */
  type ContentHash = bytes -> Key

  ghost predicate Ideal(hash: ContentHash) {
    forall a: bytes, b: bytes {:trigger hash(a), hash(b)} :: hash(a) == hash(b) ==> a == b
  }

  predicate OnlyRootIsHost(w: World) {
    forall id | id in w.objects :: w.objects[id].hostRoot <==> id == w.rootId
  }

  /** Every mounted object has its base, of the size it says, and its virtual size is base plus own bytes: the space has no hole. */
  predicate Spaced(w: World) {
    forall id | id in w.objects && !w.objects[id].hostRoot ::
      var o := w.objects[id];
      o.baseHash.Some? && o.baseHash.value in w.bases && |w.bases[o.baseHash.value]| == o.baseSize
      && o.virtualSize == o.baseSize + |o.own|
  }

  ghost predicate Hashed(hash: ContentHash, w: World) {
    forall k | k in w.bases :: hash(w.bases[k]) == k
  }

  ghost predicate Sound(hash: ContentHash, w: World) {
    Forested(w) && OnlyRootIsHost(w) && Spaced(w) && Hashed(hash, w)
  }

  /** The bytes that an object presents: its base, then everything committed to it. */
  function Contents(w: World, id: Id): bytes
    requires Spaced(w) && id in w.objects && !w.objects[id].hostRoot
  {
    w.bases[w.objects[id].baseHash.value] + w.objects[id].own
  }

  lemma ContentsLength(w: World, id: Id)
    requires Spaced(w) && id in w.objects && !w.objects[id].hostRoot
    ensures |Contents(w, id)| == w.objects[id].virtualSize
  {
  }

  /** What an operation must bring along: its object is not the host, and an upgrade names a base that is there. */
  predicate OpFits(w: World, op: Op) {
    match op
    case StateAppend(id, _, _, _, _) => id != w.rootId
    case BaseUpgrade(id, baseHash, baseSize, _, _) => id != w.rootId && baseHash in w.bases && |w.bases[baseHash]| == baseSize
    case _ => true
  }

  lemma OpKeepsBases(w: World, maxDepth: nat, op: Op, actor: Option<Id>)
    requires ApplyOp(w, maxDepth, op, actor).Ok?
    ensures ApplyOp(w, maxDepth, op, actor).value.bases == w.bases && ApplyOp(w, maxDepth, op, actor).value.rootId == w.rootId
  {
    hide Climb, Allowed, RelationKey;
  }

  lemma DetachKeepsSpaces(w: World, child: Id, actor: Option<Id>)
    requires Consistent(w) && OnlyRootIsHost(w) && Spaced(w) && DetachFrom(w, child, actor).Ok?
    ensures var v := DetachFrom(w, child, actor).value; OnlyRootIsHost(v) && Spaced(v)
  {
    hide Allowed, RelationKey, ValidId;
  }

  lemma ReparentKeepsSpaces(w: World, maxDepth: nat, child: Id, parent: Id, locator: Option<Key>, actor: Option<Id>)
    requires Forested(w) && OnlyRootIsHost(w) && Spaced(w) && ReparentTo(w, maxDepth, child, parent, locator, actor).Ok?
    ensures var v := ReparentTo(w, maxDepth, child, parent, locator, actor).value; OnlyRootIsHost(v) && Spaced(v)
  {
    hide Allowed, RelationKey, ValidId, Climb, DetachFrom, Acyclic, Consistent, OnlyRootIsHost, Spaced;
    var v := w;
    if child in w.byChild && DetachFrom(w, child, actor).Ok? {
      v := DetachFrom(w, child, actor).value;
      DetachKeepsSpaces(w, child, actor);
      DetachKeepsForest(w, child, actor);
      DetachedShape(w, child, actor);
    }
    var result := ReparentTo(w, maxDepth, child, parent, locator, actor).value;
    if result != w {
      TouchKeepsSpaces(v, result, parent, child);
    }
  }

  lemma TouchKeepsSpaces(v: World, u: World, parent: Id, child: Id)
    requires Consistent(v) && OnlyRootIsHost(v) && Spaced(v) && parent in v.objects && child in v.objects
    requires u.bases == v.bases && u.rootId == v.rootId && u.objects == SetObject(SetObject(v, Touch(v.objects[parent])), Touch(v.objects[child])).objects
    ensures OnlyRootIsHost(u) && Spaced(u)
  {
    hide ValidId, RelationKey;
  }

  lemma OpKeepsSound(hash: ContentHash, w: World, maxDepth: nat, op: Op, actor: Option<Id>)
    requires Sound(hash, w) && maxDepth > 0 && OpFits(w, op) && ApplyOp(w, maxDepth, op, actor).Ok?
    ensures Sound(hash, ApplyOp(w, maxDepth, op, actor).value)
  {
    hide Forested, Allowed, DetachFrom, ReparentTo, RelationKey;
    OpKeepsForest(w, maxDepth, op, actor);
    OpKeepsBases(w, maxDepth, op, actor);
    match op
    case StateAppend(id, _, _, _, _) => ForestedId(w, id);
    case Reparent(child, parent, locator) => ReparentKeepsSpaces(w, maxDepth, child, parent, locator, actor);
    case Detach(child) => ForestIsConsistent(w); DetachKeepsSpaces(w, child, actor);
    case BaseUpgrade(id, _, _, _, _) => ForestedId(w, id);
  }

  lemma ForestIsConsistent(w: World)
    requires Forested(w)
    ensures Consistent(w)
  {
  }

  predicate TxFits(w: World, tx: Tx) { forall i | 0 <= i < |tx.ops| :: OpFits(w, tx.ops[i]) }

  lemma {:induction false} OpsKeepSound(hash: ContentHash, w: World, maxDepth: nat, ops: seq<Op>, actor: Option<Id>)
    requires Sound(hash, w) && maxDepth > 0 && (forall i | 0 <= i < |ops| :: OpFits(w, ops[i])) && ApplyOps(w, maxDepth, ops, actor).Ok?
    ensures Sound(hash, ApplyOps(w, maxDepth, ops, actor).value)
    ensures ApplyOps(w, maxDepth, ops, actor).value.bases == w.bases && ApplyOps(w, maxDepth, ops, actor).value.rootId == w.rootId
    decreases |ops|
  {
    hide Sound, ApplyOp;
    if ops != [] {
      var v := ApplyOp(w, maxDepth, ops[0], actor).value;
      OpKeepsSound(hash, w, maxDepth, ops[0], actor);
      OpKeepsBases(w, maxDepth, ops[0], actor);
      forall i | 0 <= i < |ops| - 1 ensures OpFits(v, ops[1..][i]) {
        assert OpFits(w, ops[i + 1]);
      }
      OpsKeepSound(hash, v, maxDepth, ops[1..], actor);
    }
  }

  /** Any group keeps the whole invariant: the forest, one host, hole-free spaces. */
  lemma {:induction false} GroupKeepsSound(hash: ContentHash, w: World, maxDepth: nat, txs: seq<Tx>)
    requires Sound(hash, w) && maxDepth > 0 && forall i | 0 <= i < |txs| :: TxFits(w, txs[i])
    ensures var v := Group(w, maxDepth, txs); Sound(hash, v) && v.bases == w.bases && v.rootId == w.rootId
    decreases |txs|
  {
    hide Sound, ApplyOps, DependenciesHold, OpFits;
    if txs != [] {
      var n := |txs| - 1;
      GroupKeepsSound(hash, w, maxDepth, txs[..n]);
      var before := Group(w, maxDepth, txs[..n]);
      assert TxFits(w, txs[n]);
      if ApplyTx(before, maxDepth, txs[n]).Ok? {
        forall i | 0 <= i < |txs[n].ops| ensures OpFits(before, txs[n].ops[i]) {
          SameBasesFit(w, before, txs[n].ops[i]);
        }
        OpsKeepSound(hash, before, maxDepth, txs[n].ops, txs[n].actor);
      }
    }
  }

  lemma SameBasesFit(w: World, v: World, op: Op)
    requires v.bases == w.bases && v.rootId == w.rootId && OpFits(w, op)
    ensures OpFits(v, op)
  {
  }

  /** A committed append changes no earlier byte: the old contents are a prefix of the new ones. */
  lemma AppendExtendsContents(hash: ContentHash, w: World, op: Op, actor: Option<Id>)
    requires Sound(hash, w) && op.StateAppend? && OpFits(w, op) && Append(w, op, actor).Ok?
    ensures var v := Append(w, op, actor).value;
      Sound(hash, v) && op.id in v.objects && !w.objects[op.id].hostRoot && !v.objects[op.id].hostRoot
      && Contents(v, op.id) == Contents(w, op.id) + op.data
      && forall id | id in w.objects && id != op.id && !w.objects[id].hostRoot :: Contents(v, id) == Contents(w, id)
  {
    hide Forested, Allowed;
    OpKeepsSound(hash, w, 1, op, actor);
    ForestedId(w, op.id);
  }

  // ----- adding objects

  /** A base under its own hash, once. */
  function AddBase(w: World, hash: ContentHash, data: bytes): World {
    if hash(data) in w.bases then w else w.(bases := w.bases[hash(data) := data])
  }

  lemma AddBaseKeepsSound(hash: ContentHash, w: World, data: bytes)
    requires Sound(hash, w) && Ideal(hash)
    ensures var v := AddBase(w, hash, data); Sound(hash, v) && hash(data) in v.bases && v.bases[hash(data)] == data
  {
    hide Forested;
    var v := AddBase(w, hash, data);
    if hash(data) in w.bases {
      assert hash(w.bases[hash(data)]) == hash(data);
    }
    BasesKeepForest(w, v);
  }

  lemma BasesKeepForest(w: World, v: World)
    requires Forested(w) && v == w.(bases := v.bases)
    ensures Forested(v)
  {
    hide Acyclic, RelationKey, ValidId;
  }

  lemma AddChildKeepsSound(hash: ContentHash, w: World, o: ObjectView, r: Relation)
    requires Sound(hash, w) && ValidId(o.id) && o.id !in w.objects && r.child == o.id && r.parent in w.objects
    requires !o.hostRoot && o.baseHash.Some? && o.baseHash.value in w.bases && |w.bases[o.baseHash.value]| == o.baseSize
    requires o.virtualSize == o.baseSize + |o.own|
    ensures Sound(hash, AddChild(w, o, r))
  {
    hide Acyclic, RelationKey, ValidId, Consistent;
    AddChildKeepsForest(w, o, r);
    ForestIsConsistent(w);
    RootExists(w);
  }

  lemma RootExists(w: World)
    requires Consistent(w)
    ensures w.rootId in w.objects
  {
  }

  /** The world after a promotion: the base, the child under its parent, the parent touched. */
  function Promoted(w: World, hash: ContentHash, base: bytes, o: ObjectView, r: Relation): World
    requires r.parent in w.objects
  {
    SetObject(AddChild(AddBase(w, hash, base), o, r), Touch(w.objects[r.parent]))
  }

  /** The world after an import: the parent keeps its revision. */
  function Imported(w: World, hash: ContentHash, base: bytes, o: ObjectView, r: Relation): World {
    AddChild(AddBase(w, hash, base), o, r)
  }

  /** The object that a promotion or import adds: fresh, mounted, presenting exactly the bytes of its source. */
  predicate NewObject(w: World, hash: ContentHash, o: ObjectView, r: Relation, base: bytes) {
    ValidId(o.id) && o.id !in w.objects && r.child == o.id && r.parent in w.objects && !o.hostRoot
    && o.baseHash == Some(hash(base)) && o.baseSize == |base| && o.virtualSize == |base| + |o.own|
  }

  lemma ImportKeepsSound(hash: ContentHash, w: World, base: bytes, o: ObjectView, r: Relation)
    requires Sound(hash, w) && Ideal(hash) && NewObject(w, hash, o, r, base)
    ensures var v := Imported(w, hash, base, o, r);
      Sound(hash, v) && o.id in v.objects && !v.objects[o.id].hostRoot && Contents(v, o.id) == base + o.own
  {
    hide Sound, AddBase, Ideal;
    var u := AddBase(w, hash, base);
    AddBaseKeepsSound(hash, w, base);
    AddBaseKeepsObjects(w, hash, base);
    AddChildKeepsSound(hash, u, o, r);
    SpacedOf(hash, AddChild(u, o, r));
  }

  lemma AddBaseKeepsObjects(w: World, hash: ContentHash, base: bytes)
    ensures AddBase(w, hash, base).objects == w.objects
  {
  }

  lemma SpacedOf(hash: ContentHash, w: World)
    requires Sound(hash, w)
    ensures Spaced(w)
  {
  }

  lemma TouchKeepsSound(hash: ContentHash, w: World, id: Id)
    requires Sound(hash, w) && id in w.objects
    ensures Sound(hash, SetObject(w, Touch(w.objects[id])))
  {
    hide Acyclic, RelationKey, ValidId, Consistent;
    ForestIsConsistent(w);
    ExistingId(w, id);
    SetObjectKeepsForest(w, Touch(w.objects[id]));
  }

  lemma PromoteKeepsSound(hash: ContentHash, w: World, base: bytes, o: ObjectView, r: Relation)
    requires Sound(hash, w) && Ideal(hash) && NewObject(w, hash, o, r, base)
    ensures var v := Promoted(w, hash, base, o, r);
      Sound(hash, v) && o.id in v.objects && !v.objects[o.id].hostRoot && Contents(v, o.id) == base + o.own
  {
    hide Sound, Ideal, AddBase;
    var v := Imported(w, hash, base, o, r);
    ImportKeepsSound(hash, w, base, o, r);
    AddBaseKeepsObjects(w, hash, base);
    TouchKeepsSound(hash, v, r.parent);
    SpacedOf(hash, Promoted(w, hash, base, o, r));
    SoundIds(hash, w, r.parent);
    assert v.objects[r.parent] == w.objects[r.parent];
  }

  lemma SoundIds(hash: ContentHash, w: World, id: Id)
    requires Sound(hash, w) && id in w.objects
    ensures w.objects[id].id == id && ValidId(id)
  {
  }

  // ----- the host object

  /** The first published world: the host object alone. */
  function HostWorld(o: ObjectView): World { World(o.id, map[o.id := o], map[], map[], map[]) }

  lemma HostWorldSound(hash: ContentHash, o: ObjectView)
    requires ValidId(o.id) && o.hostRoot
    ensures Sound(hash, HostWorld(o))
  {
  }

  /** `syncHostState`: the host's own state fields, and its state head into the shared arena. */
  function SyncHost(w: World, revision: Option<nat>, stateHash: Option<Key>, head: Option<nat>, size: Option<nat>, actor: Option<Id>): Outcome<World> {
    if w.rootId !in w.objects || !w.objects[w.rootId].hostRoot then Fail(Unknown)
    else
      var host := w.objects[w.rootId];
      if !Allowed(host.meta.governance.state, actor) then Fail(Forbidden)
      else Ok(SetObject(w, host.(stateRevision := if revision.Some? then revision.value else host.stateRevision, stateHash := stateHash,
        stateHead := head, virtualSize := if size.Some? then size.value else host.virtualSize)))
  }

  lemma SyncHostKeepsSound(hash: ContentHash, w: World, revision: Option<nat>, stateHash: Option<Key>, head: Option<nat>, size: Option<nat>, actor: Option<Id>)
    requires Sound(hash, w) && SyncHost(w, revision, stateHash, head, size, actor).Ok?
    ensures Sound(hash, SyncHost(w, revision, stateHash, head, size, actor).value)
  {
    hide Acyclic, RelationKey, ValidId, Allowed, Consistent;
    ForestIsConsistent(w);
    ExistingId(w, w.rootId);
    var v := SyncHost(w, revision, stateHash, head, size, actor).value;
    SetObjectKeepsForest(w, v.objects[w.rootId]);
  }

  // ----- whatever happens between two commits

  /** Everything that publishes a world: a group, a promotion, an import, the host's state. */
  datatype StoreStep =
    | Committed(txs: seq<Tx>)
    | Promotes(base: bytes, o: ObjectView, r: Relation)
    | Imports(base: bytes, o: ObjectView, r: Relation)
    | Syncs(revision: Option<nat>, stateHash: Option<Key>, head: Option<nat>, size: Option<nat>, actor: Option<Id>)

  predicate StepFits(hash: ContentHash, w: World, step: StoreStep) {
    match step
    case Committed(txs) => forall i | 0 <= i < |txs| :: TxFits(w, txs[i])
    case Promotes(base, o, r) => NewObject(w, hash, o, r, base)
    case Imports(base, o, r) => NewObject(w, hash, o, r, base)
    case Syncs(_, _, _, _, _) => true
  }

  function AfterStep(hash: ContentHash, w: World, maxDepth: nat, step: StoreStep): World
    requires StepFits(hash, w, step)
  {
    match step
    case Committed(txs) => Group(w, maxDepth, txs)
    case Promotes(base, o, r) => Promoted(w, hash, base, o, r)
    case Imports(base, o, r) => Imported(w, hash, base, o, r)
    case Syncs(revision, stateHash, head, size, actor) =>
      var v := SyncHost(w, revision, stateHash, head, size, actor);
      if v.Ok? then v.value else w
  }

  ghost predicate StepsFit(hash: ContentHash, w: World, maxDepth: nat, steps: seq<StoreStep>)
    decreases |steps|
  {
    steps == [] || (StepFits(hash, w, steps[0]) && StepsFit(hash, AfterStep(hash, w, maxDepth, steps[0]), maxDepth, steps[1..]))
  }

  ghost function AfterSteps(hash: ContentHash, w: World, maxDepth: nat, steps: seq<StoreStep>): World
    requires StepsFit(hash, w, maxDepth, steps)
    decreases |steps|
  {
    if steps == [] then w else AfterSteps(hash, AfterStep(hash, w, maxDepth, steps[0]), maxDepth, steps[1..])
  }

  /** Mounted objects stay, and their state revisions only grow. The host may set its own revision to anything. */
  predicate MountedStatesFollow(w: World, v: World) {
    forall id | id in w.objects && !w.objects[id].hostRoot :: id in v.objects && StateFollows(w.objects[id], v.objects[id])
  }

  lemma StepKeepsSound(hash: ContentHash, w: World, maxDepth: nat, step: StoreStep)
    requires Sound(hash, w) && Ideal(hash) && maxDepth > 0 && StepFits(hash, w, step)
    ensures Sound(hash, AfterStep(hash, w, maxDepth, step))
  {
    hide Sound, Ideal, Promoted, Imported, SyncHost, NewObject, Group;
    match step
    case Committed(txs) => GroupKeepsSound(hash, w, maxDepth, txs);
    case Promotes(base, o, r) => PromoteKeepsSound(hash, w, base, o, r);
    case Imports(base, o, r) => ImportKeepsSound(hash, w, base, o, r);
    case Syncs(revision, stateHash, head, size, actor) =>
      if SyncHost(w, revision, stateHash, head, size, actor).Ok? {
        SyncHostKeepsSound(hash, w, revision, stateHash, head, size, actor);
      }
  }

  lemma StepFollows(hash: ContentHash, w: World, maxDepth: nat, step: StoreStep)
    requires Sound(hash, w) && maxDepth > 0 && StepFits(hash, w, step)
    ensures MountedStatesFollow(w, AfterStep(hash, w, maxDepth, step))
  {
    hide Sound, Forested, Group, EdgesFollow, Promoted, Imported, SyncHost, StateFollows, NewObject;
    SoundIsForest(hash, w);
    match step
    case Committed(txs) => GroupFollows(w, maxDepth, txs);
    case Promotes(base, o, r) => AddedFollows(hash, w, base, o, r);
    case Imports(base, o, r) => AddedFollows(hash, w, base, o, r);
    case Syncs(revision, stateHash, head, size, actor) => SyncFollows(w, revision, stateHash, head, size, actor);
  }

  lemma AddedFollows(hash: ContentHash, w: World, base: bytes, o: ObjectView, r: Relation)
    requires Forested(w) && NewObject(w, hash, o, r, base)
    ensures MountedStatesFollow(w, Promoted(w, hash, base, o, r)) && MountedStatesFollow(w, Imported(w, hash, base, o, r))
  {
    hide Acyclic, RelationKey, ValidId, Consistent, AddBase;
    AddBaseKeepsObjects(w, hash, base);
    ForestIsConsistent(w);
    ExistingId(w, r.parent);
  }

  lemma SyncFollows(w: World, revision: Option<nat>, stateHash: Option<Key>, head: Option<nat>, size: Option<nat>, actor: Option<Id>)
    requires Forested(w)
    ensures var v := SyncHost(w, revision, stateHash, head, size, actor); MountedStatesFollow(w, if v.Ok? then v.value else w)
  {
    hide Acyclic, Consistent, Allowed;
    ForestIsConsistent(w);
    ExistingHost(w);
  }

  lemma ExistingHost(w: World)
    requires Consistent(w)
    ensures w.rootId in w.objects && w.objects[w.rootId].id == w.rootId
  {
    hide RelationKey, ValidId;
  }

  lemma MountedTrans(u: World, v: World, w: World)
    requires MountedStatesFollow(u, v) && MountedStatesFollow(v, w)
    ensures MountedStatesFollow(u, w)
  {
    hide SameState;
    forall id | id in u.objects && !u.objects[id].hostRoot ensures id in w.objects && StateFollows(u.objects[id], w.objects[id]) {
      SameStateTrans(u.objects[id], v.objects[id], w.objects[id]);
    }
  }

  /** Over any run of published worlds. */
  lemma {:induction false} RunFollows(hash: ContentHash, w: World, maxDepth: nat, steps: seq<StoreStep>)
    requires Sound(hash, w) && Ideal(hash) && maxDepth > 0 && StepsFit(hash, w, maxDepth, steps)
    ensures Sound(hash, AfterSteps(hash, w, maxDepth, steps)) && MountedStatesFollow(w, AfterSteps(hash, w, maxDepth, steps))
    decreases |steps|
  {
    hide Sound, Ideal, AfterStep, StepFits, StateFollows;
    if steps == [] {
      MountedRefl(w);
    } else {
      var v := AfterStep(hash, w, maxDepth, steps[0]);
      StepKeepsSound(hash, w, maxDepth, steps[0]);
      StepFollows(hash, w, maxDepth, steps[0]);
      RunFollows(hash, v, maxDepth, steps[1..]);
      MountedTrans(w, v, AfterSteps(hash, w, maxDepth, steps));
    }
  }

  lemma MountedRefl(w: World)
    ensures MountedStatesFollow(w, w)
  {
  }

  /**
   Of two overlapping appends to a mounted object, once one is accepted the other conflicts, whatever groups, promotions, imports and
   host states are published in between.
   */
  lemma OverlapsForever(hash: ContentHash, w: World, maxDepth: nat, a: Tx, b: Tx, id: Id, steps: seq<StoreStep>)
    requires Sound(hash, w) && Ideal(hash) && maxDepth > 0 && TxFits(w, a) && ApplyTx(w, maxDepth, a).Ok? && AppendsTo(a, id) && id in w.objects
    requires id in b.writeSet && b.writeSet[id] <= w.objects[id].stateRevision
    requires StepsFit(hash, ApplyTx(w, maxDepth, a).value, maxDepth, steps)
    ensures ApplyTx(AfterSteps(hash, ApplyTx(w, maxDepth, a).value, maxDepth, steps), maxDepth, b) == Fail(Conflict)
  {
    hide Sound, Ideal, ApplyOps, StepsFit, AfterSteps, OpFits, StateFollows, MountedStatesFollow;
    var v := ApplyTx(w, maxDepth, a).value;
    OpsKeepSound(hash, w, maxDepth, a.ops, a.actor);
    SoundIsForest(hash, w);
    OpsFollow(w, maxDepth, a.ops, a.actor);
    AppendsMounted(hash, w, a, id);
    FollowsAt(w, v, id);
    RunFollows(hash, v, maxDepth, steps);
    var later := AfterSteps(hash, v, maxDepth, steps);
    MountedAt(v, later, id);
    OverlappingAppendsConflict(w, maxDepth, a, b, id, later);
  }

  lemma SoundIsForest(hash: ContentHash, w: World)
    requires Sound(hash, w)
    ensures Forested(w)
  {
  }

  lemma AppendsMounted(hash: ContentHash, w: World, a: Tx, id: Id)
    requires Sound(hash, w) && TxFits(w, a) && AppendsTo(a, id) && id in w.objects
    ensures !w.objects[id].hostRoot
  {
    hide Forested, Spaced, Hashed;
    var k :| 0 <= k < |a.ops| && a.ops[k].StateAppend? && a.ops[k].id == id;
    assert OpFits(w, a.ops[k]);
  }

  lemma FollowsAt(w: World, v: World, id: Id)
    requires Follows(w, v) && id in w.objects
    ensures id in v.objects && v.objects[id].hostRoot == w.objects[id].hostRoot
  {
    hide SameState, EdgesFollow;
    assert StateFollows(w.objects[id], v.objects[id]);
  }

  lemma MountedAt(w: World, v: World, id: Id)
    requires MountedStatesFollow(w, v) && id in w.objects && !w.objects[id].hostRoot
    ensures id in v.objects && StateFollows(w.objects[id], v.objects[id])
  {
    hide StateFollows;
  }

  // ----- relationship revisions: promotions advance the parent's, imports do not

  /**
   A transaction that recorded the relationship revision of an object, all of whose dependencies hold: when a child is then promoted under
   that object it conflicts, and when a child is imported it still passes, although the object has a child that was not there.
   */
  lemma ImportIsNotSeen(hash: ContentHash, w: World, base: bytes, o: ObjectView, r: Relation, tx: Tx)
    requires Sound(hash, w) && NewObject(w, hash, o, r, base) && DependenciesHold(w, tx)
    requires r.parent in tx.readSet && tx.readSet[r.parent].relationship.Some?
    ensures !DependenciesHold(Promoted(w, hash, base, o, r), tx)
    ensures DependenciesHold(Imported(w, hash, base, o, r), tx)
    ensures !IsChild(w, o.id, r.parent) && IsChild(Imported(w, hash, base, o, r), o.id, r.parent) && !EdgesFollow(w, Imported(w, hash, base, o, r))
  {
    hide Sound, ValidId, DependenciesHold, EdgesFollow, Promoted, Imported, Meets;
    SoundIsForest(hash, w);
    ImportAddsChild(hash, w, base, o, r);
    ImportKeepsDependencies(hash, w, base, o, r, tx);
    PromoteBreaksDependencies(hash, w, base, o, r, tx);
  }

  lemma ImportAddsChild(hash: ContentHash, w: World, base: bytes, o: ObjectView, r: Relation)
    requires Forested(w) && NewObject(w, hash, o, r, base)
    ensures !IsChild(w, o.id, r.parent) && IsChild(Imported(w, hash, base, o, r), o.id, r.parent) && !EdgesFollow(w, Imported(w, hash, base, o, r))
  {
    hide Acyclic, ValidId, RelationKey, AddBase;
    AddBaseKeepsObjects(w, hash, base);
    var v := Imported(w, hash, base, o, r);
    assert v.objects[r.parent] == w.objects[r.parent];
    assert IsChild(v, o.id, r.parent) && !IsChild(w, o.id, r.parent);
  }

  lemma ImportKeepsDependencies(hash: ContentHash, w: World, base: bytes, o: ObjectView, r: Relation, tx: Tx)
    requires NewObject(w, hash, o, r, base) && DependenciesHold(w, tx)
    ensures DependenciesHold(Imported(w, hash, base, o, r), tx)
  {
    hide ValidId, RelationKey, AddBase, Meets;
    AddBaseKeepsObjects(w, hash, base);
  }

  lemma PromoteBreaksDependencies(hash: ContentHash, w: World, base: bytes, o: ObjectView, r: Relation, tx: Tx)
    requires Forested(w) && NewObject(w, hash, o, r, base) && DependenciesHold(w, tx)
    requires r.parent in tx.readSet && tx.readSet[r.parent].relationship.Some?
    ensures !DependenciesHold(Promoted(w, hash, base, o, r), tx)
  {
    hide Acyclic, ValidId, RelationKey, AddBase, Consistent;
    AddBaseKeepsObjects(w, hash, base);
    ForestIsConsistent(w);
    ExistingId(w, r.parent);
    assert Meets(w.objects[r.parent], tx.readSet[r.parent]);
  }
}
