/**
 Optimistic transactions: group commit is serial and atomic, and an unchanged revision means an unchanged dimension.
 */
module Transactions {
  import opened Bytes
  import opened Keys
  import opened ObjectTypes
  import opened ObjectWorld
  import opened Forest

  // ----- serial and atomic

  /** The transactions of a group that were accepted, in order. */
  function Accepted(w: World, maxDepth: nat, txs: seq<Tx>): seq<Tx> {
    if txs == [] then []
    else
      var n := |txs| - 1;
      Accepted(w, maxDepth, txs[..n]) + (if ApplyTx(Group(w, maxDepth, txs[..n]), maxDepth, txs[n]).Ok? then [txs[n]] else [])
  }

  /** One transaction after another, all of which must succeed. */
  function Serial(w: World, maxDepth: nat, txs: seq<Tx>): Outcome<World> {
    if txs == [] then Ok(w)
    else
      var before := Serial(w, maxDepth, txs[..|txs| - 1]);
      if before.Fail? then before else ApplyTx(before.value, maxDepth, txs[|txs| - 1])
  }

  /** Publishing a group is the same as applying exactly its accepted transactions one by one; the rejected ones leave no trace. */
  lemma {:induction false} GroupIsSerial(w: World, maxDepth: nat, txs: seq<Tx>)
    ensures Serial(w, maxDepth, Accepted(w, maxDepth, txs)) == Ok(Group(w, maxDepth, txs))
  {
    hide ApplyTx;
    if txs != [] {
      var n := |txs| - 1;
      GroupIsSerial(w, maxDepth, txs[..n]);
      var front := Accepted(w, maxDepth, txs[..n]);
      assert (front + [txs[n]])[..|front|] == front;
      assert front + [] == front;
    }
  }

  /** Each accepted transaction was applied to a world in which every revision it recorded was current. */
  lemma {:induction false} SerialMeetsDependencies(w: World, maxDepth: nat, txs: seq<Tx>, i: nat)
    requires Serial(w, maxDepth, txs).Ok? && i < |txs|
    ensures Serial(w, maxDepth, txs[..i]).Ok? && DependenciesHold(Serial(w, maxDepth, txs[..i]).value, txs[i])
    decreases |txs|
  {
    hide ApplyOps, DependenciesHold;
    var n := |txs| - 1;
    if i < n {
      SerialMeetsDependencies(w, maxDepth, txs[..n], i);
      assert txs[..n][..i] == txs[..i];
    }
  }

  // ----- revisions

  /** What a state revision stands for. */
  predicate SameState(a: ObjectView, b: ObjectView) {
    a.own == b.own && a.virtualSize == b.virtualSize && a.baseHash == b.baseHash && a.baseSize == b.baseSize
    && a.stateHash == b.stateHash && a.stateHead == b.stateHead && a.meta == b.meta
  }

  predicate IsChild(w: World, c: Id, p: Id) { c in w.byChild && w.byChild[c].parent == p }

  /** The state revision of an object only grows, and an equal one means an equal state. */
  predicate StateFollows(a: ObjectView, b: ObjectView) {
    a.stateRevision <= b.stateRevision && a.hostRoot == b.hostRoot && (a.stateRevision == b.stateRevision ==> SameState(a, b))
  }

  predicate StatesFollow(w: World, v: World) {
    forall id | id in w.objects && id in v.objects :: StateFollows(w.objects[id], v.objects[id])
  }

  /** Relationship revisions only grow, and an equal one means the same edge upwards and the same children. */
  ghost predicate EdgesFollow(w: World, v: World) {
    && (forall id | id in w.objects && id in v.objects :: w.objects[id].relationshipRevision <= v.objects[id].relationshipRevision)
    && (forall id | id in w.objects && id in v.objects && w.objects[id].relationshipRevision == v.objects[id].relationshipRevision ::
      (id in w.byChild <==> id in v.byChild) && (id in w.byChild ==> w.byChild[id] == v.byChild[id])
      && forall c :: IsChild(w, c, id) <==> IsChild(v, c, id))
  }

  /** What later worlds keep: revisions only grow, and what kept its revision kept its contents. */
  ghost predicate Follows(w: World, v: World) {
    v.rootId == w.rootId && w.objects.Keys == v.objects.Keys && StatesFollow(w, v) && EdgesFollow(w, v)
  }

  lemma FollowsRefl(w: World)
    ensures Follows(w, w)
  {
  }

  lemma FollowsTrans(u: World, v: World, w: World)
    requires Follows(u, v) && Follows(v, w)
    ensures Follows(u, w)
  {
    hide SameState, IsChild;
    forall id | id in u.objects ensures StateFollows(u.objects[id], w.objects[id]) {
      SameStateTrans(u.objects[id], v.objects[id], w.objects[id]);
    }
  }

  lemma SameStateTrans(a: ObjectView, b: ObjectView, c: ObjectView)
    ensures SameState(a, b) && SameState(b, c) ==> SameState(a, c)
  {
  }

  lemma StateOpFollows(w: World, o: ObjectView)
    requires o.id in w.objects
    requires var a := w.objects[o.id];
      a.stateRevision < o.stateRevision && a.relationshipRevision == o.relationshipRevision && a.hostRoot == o.hostRoot
    ensures Follows(w, SetObject(w, o))
  {
  }

  function TouchBoth(w: World, p: Id, c: Id): World
    requires p in w.objects && c in w.objects
  {
    SetObject(SetObject(w, Touch(w.objects[p])), Touch(w.objects[c]))
  }

  lemma TouchStates(w: World, v: World, p: Id, c: Id)
    requires p in w.objects && c in w.objects && w.objects[p].id == p && w.objects[c].id == c && p != c
    requires v.objects == TouchBoth(w, p, c).objects
    ensures w.objects.Keys == v.objects.Keys && StatesFollow(w, v)
    ensures forall id | id in w.objects :: v.objects[id].relationshipRevision == w.objects[id].relationshipRevision + if id == p || id == c then 1 else 0
  {
  }

  /** Removing an edge and touching both its ends. */
  lemma UnlinkFollows(w: World, r: Relation)
    requires Consistent(w) && r.child in w.byChild && w.byChild[r.child].parent == r.parent && r.parent in w.objects && r.child in w.objects
    requires r.parent != r.child
    ensures Follows(w, TouchBoth(Unlink(w, r), r.parent, r.child))
  {
    hide RelationKey, ValidId, StatesFollow, Consistent;
    ExistingId(w, r.parent);
    ExistingId(w, r.child);
    var v := TouchBoth(Unlink(w, r), r.parent, r.child);
    TouchStates(w, v, r.parent, r.child);
    assert v.byChild == w.byChild - {r.child};
    UnlinkEdges(w, v, r);
  }

  lemma UnlinkEdges(w: World, v: World, r: Relation)
    requires r.child in w.byChild && w.byChild[r.child].parent == r.parent && v.byChild == w.byChild - {r.child}
    requires w.objects.Keys == v.objects.Keys
    requires forall id | id in w.objects :: v.objects[id].relationshipRevision == w.objects[id].relationshipRevision + if id == r.parent || id == r.child then 1 else 0
    ensures EdgesFollow(w, v)
  {
  }

  lemma LinkFollows(w: World, r: Relation)
    requires Consistent(w) && r.child !in w.byChild && r.parent in w.objects && r.child in w.objects && r.parent != r.child
    ensures Follows(w, TouchBoth(Link(w, r), r.parent, r.child))
  {
    hide RelationKey, ValidId, StatesFollow, Consistent;
    ExistingId(w, r.parent);
    ExistingId(w, r.child);
    var v := TouchBoth(Link(w, r), r.parent, r.child);
    TouchStates(w, v, r.parent, r.child);
    assert v.byChild == w.byChild[r.child := r];
    LinkEdges(w, v, r);
  }

  lemma LinkEdges(w: World, v: World, r: Relation)
    requires r.child !in w.byChild && v.byChild == w.byChild[r.child := r] && w.objects.Keys == v.objects.Keys
    requires forall id | id in w.objects :: v.objects[id].relationshipRevision == w.objects[id].relationshipRevision + if id == r.parent || id == r.child then 1 else 0
    ensures EdgesFollow(w, v)
  {
  }

  lemma NotOwnParent(w: World, c: Id)
    requires Forested(w) && c in w.byChild
    ensures w.byChild[c].parent != c
  {
    var n := GroundOf(w.byChild, c);
    NoLoop(w.byChild, c, 0, n);
  }

  lemma DetachFollows(w: World, child: Id, actor: Option<Id>)
    requires Forested(w) && DetachFrom(w, child, actor).Ok?
    ensures Follows(w, DetachFrom(w, child, actor).value)
  {
    hide Follows, Consistent, Acyclic, Allowed;
    if child in w.byChild {
      NotOwnParent(w, child);
      UnlinkFollows(w, Relation(w.byChild[child].parent, child, None));
    } else {
      FollowsRefl(w);
    }
  }

  lemma ReparentFollows(w: World, maxDepth: nat, child: Id, parent: Id, locator: Option<Key>, actor: Option<Id>)
    requires Forested(w) && ReparentTo(w, maxDepth, child, parent, locator, actor).Ok?
    ensures Follows(w, ReparentTo(w, maxDepth, child, parent, locator, actor).value)
  {
    hide Follows, Acyclic, Consistent, Allowed, Climb, DetachFrom;
    FollowsRefl(w);
    var v := w;
    if child in w.byChild && DetachFrom(w, child, actor).Ok? {
      v := DetachFrom(w, child, actor).value;
      DetachFollows(w, child, actor);
      DetachKeepsForest(w, child, actor);
      DetachedShape(w, child, actor);
    }
    var result := ReparentTo(w, maxDepth, child, parent, locator, actor).value;
    if result != w {
      var r := Relation(parent, child, if locator.Some? then locator else if child in w.byChild then w.byChild[child].locator else None);
      LinkFollows(v, r);
      FollowsTrans(w, v, result);
    }
  }

  lemma OpFollows(w: World, maxDepth: nat, op: Op, actor: Option<Id>)
    requires Forested(w) && ApplyOp(w, maxDepth, op, actor).Ok?
    ensures Follows(w, ApplyOp(w, maxDepth, op, actor).value)
  {
    hide Follows, Acyclic, Consistent, Allowed, DetachFrom, ReparentTo, ValidId;
    match op
    case StateAppend(id, _, _, _, _) =>
      ExistingId(w, id);
      StateOpFollows(w, Append(w, op, actor).value.objects[id]);
    case Reparent(child, parent, locator) => ReparentFollows(w, maxDepth, child, parent, locator, actor);
    case Detach(child) => DetachFollows(w, child, actor);
    case BaseUpgrade(id, _, _, _, _) =>
      ExistingId(w, id);
      StateOpFollows(w, Upgrade(w, op, actor).value.objects[id]);
  }

  lemma {:induction false} OpsFollow(w: World, maxDepth: nat, ops: seq<Op>, actor: Option<Id>)
    requires Forested(w) && maxDepth > 0 && ApplyOps(w, maxDepth, ops, actor).Ok?
    ensures Follows(w, ApplyOps(w, maxDepth, ops, actor).value)
    decreases |ops|
  {
    hide Follows, Forested, ApplyOp;
    FollowsRefl(w);
    if ops != [] {
      var v := ApplyOp(w, maxDepth, ops[0], actor).value;
      OpFollows(w, maxDepth, ops[0], actor);
      OpKeepsForest(w, maxDepth, ops[0], actor);
      OpsFollow(v, maxDepth, ops[1..], actor);
      FollowsTrans(w, v, ApplyOps(v, maxDepth, ops[1..], actor).value);
    }
  }

  /** Over any group: an object whose revision is the one a reader recorded still has the state, the edge and the children that were read. */
  lemma {:induction false} GroupFollows(w: World, maxDepth: nat, txs: seq<Tx>)
    requires Forested(w) && maxDepth > 0
    ensures Follows(w, Group(w, maxDepth, txs))
    decreases |txs|
  {
    hide Follows, Forested, ApplyOps, DependenciesHold;
    FollowsRefl(w);
    if txs != [] {
      var n := |txs| - 1;
      var before := Group(w, maxDepth, txs[..n]);
      GroupFollows(w, maxDepth, txs[..n]);
      GroupKeepsForest(w, maxDepth, txs[..n]);
      if ApplyTx(before, maxDepth, txs[n]).Ok? {
        OpsFollow(before, maxDepth, txs[n].ops, txs[n].actor);
        FollowsTrans(w, before, ApplyTx(before, maxDepth, txs[n]).value);
      }
    }
  }

  // ----- overlapping appends

  /** An accepted transaction advances the state revision of every object it appends to. */
  lemma {:induction false} AppendAdvances(w: World, maxDepth: nat, ops: seq<Op>, actor: Option<Id>, k: nat)
    requires Forested(w) && maxDepth > 0 && ApplyOps(w, maxDepth, ops, actor).Ok?
    requires k < |ops| && ops[k].StateAppend? && ops[k].id in w.objects
    ensures var v := ApplyOps(w, maxDepth, ops, actor).value;
      ops[k].id in v.objects && w.objects[ops[k].id].stateRevision < v.objects[ops[k].id].stateRevision
    decreases |ops|
  {
    hide Forested, DetachFrom, ReparentTo, Upgrade, Allowed;
    var u := ApplyOp(w, maxDepth, ops[0], actor).value;
    OpFollows(w, maxDepth, ops[0], actor);
    OpKeepsForest(w, maxDepth, ops[0], actor);
    OpsFollow(u, maxDepth, ops[1..], actor);
    if k > 0 {
      AppendAdvances(u, maxDepth, ops[1..], actor, k - 1);
    } else {
      ForestedId(w, ops[0].id);
    }
  }

  lemma ForestedId(w: World, id: Id)
    requires Forested(w) && id in w.objects
    ensures w.objects[id].id == id
  {
  }

  ghost predicate AppendsTo(tx: Tx, id: Id) { exists k | 0 <= k < |tx.ops| :: tx.ops[k].StateAppend? && tx.ops[k].id == id }

  /**
   Two appends to one object that were both begun before either committed: the second recorded a revision that is not newer than
   the one the first was applied to. Once the first is accepted, the second conflicts in every world in which the revisions of that
   object have only grown.
   */
  lemma OverlappingAppendsConflict(w: World, maxDepth: nat, a: Tx, b: Tx, id: Id, later: World)
    requires Forested(w) && maxDepth > 0 && ApplyTx(w, maxDepth, a).Ok? && AppendsTo(a, id) && id in w.objects
    requires id in b.writeSet && b.writeSet[id] <= w.objects[id].stateRevision
    requires id in ApplyTx(w, maxDepth, a).value.objects && id in later.objects ==>
      StateFollows(ApplyTx(w, maxDepth, a).value.objects[id], later.objects[id])
    ensures ApplyTx(later, maxDepth, b) == Fail(Conflict)
  {
    hide Forested, ApplyOps, SameState;
    var k :| 0 <= k < |a.ops| && a.ops[k].StateAppend? && a.ops[k].id == id;
    AppendAdvances(w, maxDepth, a.ops, a.actor, k);
  }

  /** In one group of overlapping appends to an object, at most one is accepted. */
  lemma AtMostOneAppendPerGroup(w: World, maxDepth: nat, txs: seq<Tx>, id: Id, i: nat, j: nat)
    requires Forested(w) && maxDepth > 0 && id in w.objects && i < j < |txs|
    requires AppendsTo(txs[i], id) && id in txs[j].writeSet && txs[j].writeSet[id] <= w.objects[id].stateRevision
    requires ApplyTx(Group(w, maxDepth, txs[..i]), maxDepth, txs[i]).Ok?
    ensures ApplyTx(Group(w, maxDepth, txs[..j]), maxDepth, txs[j]) == Fail(Conflict)
  {
    hide Forested, ApplyTx, AppendsTo, Group, EdgesFollow;
    var before := Group(w, maxDepth, txs[..i]);
    GroupFollows(w, maxDepth, txs[..i]);
    GroupKeepsForest(w, maxDepth, txs[..i]);
    GroupBetween(w, maxDepth, txs, i, j);
    OverlappingAppendsConflict(before, maxDepth, txs[i], txs[j], id, Group(w, maxDepth, txs[..j]));
  }

  lemma {:induction false} GroupBetween(w: World, maxDepth: nat, txs: seq<Tx>, i: nat, j: nat)
    requires Forested(w) && maxDepth > 0 && i < j <= |txs| && ApplyTx(Group(w, maxDepth, txs[..i]), maxDepth, txs[i]).Ok?
    ensures Follows(ApplyTx(Group(w, maxDepth, txs[..i]), maxDepth, txs[i]).value, Group(w, maxDepth, txs[..j]))
    decreases j
  {
    hide Forested, Follows, ApplyOps, DependenciesHold;
    var s := txs[..j];
    assert s[..j - 1] == txs[..j - 1] && s[|s| - 1] == txs[j - 1];
    var before := Group(w, maxDepth, txs[..j - 1]);
    FollowsRefl(Group(w, maxDepth, s));
    if i < j - 1 {
      GroupBetween(w, maxDepth, txs, i, j - 1);
      GroupKeepsForest(w, maxDepth, txs[..j - 1]);
      FollowsRefl(before);
      if ApplyTx(before, maxDepth, txs[j - 1]).Ok? {
        OpsFollow(before, maxDepth, txs[j - 1].ops, txs[j - 1].actor);
      }
      FollowsTrans(ApplyTx(Group(w, maxDepth, txs[..i]), maxDepth, txs[i]).value, before, Group(w, maxDepth, s));
    }
  }

  /** An append handle whose two reads saw different revisions, because a commit came between them, is never accepted. */
  lemma TornBeginNeverCommits(w: World, maxDepth: nat, tx: Tx, id: Id)
    requires id in tx.readSet && id in tx.writeSet && tx.readSet[id].state.Some? && tx.readSet[id].state.value != tx.writeSet[id]
    ensures ApplyTx(w, maxDepth, tx) == Fail(Conflict)
  {
  }
}
