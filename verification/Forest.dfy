/**
 The containment forest: what every operation keeps of the two relationship indexes.
 */
module Forest {
  import opened Bytes
  import opened Keys
  import opened SortedEntries
  import opened ObjectTypes
  import opened ObjectWorld

  /** Both indexes hold the same relation, under the right keys, among valid existing objects; the root has no parent. */
  ghost predicate Consistent(w: World) {
    && w.rootId in w.objects && w.rootId !in w.byChild
    && (forall id | id in w.objects :: ValidId(id) && w.objects[id].id == id)
    && (forall c | c in w.byChild :: var r := w.byChild[c];
      r.child == c && c in w.objects && r.parent in w.objects && RelationKey(r.parent, c) in w.byParent && w.byParent[RelationKey(r.parent, c)] == r)
    && (forall k | k in w.byParent :: var r := w.byParent[k];
      k == RelationKey(r.parent, r.child) && r.child in w.byChild && w.byChild[r.child] == r)
  }

  /** Climbing from `id` reaches an object without a parent within `n` steps. */
  predicate Grounded(byChild: map<Id, Relation>, id: Id, n: nat)
    decreases n
  {
    id !in byChild || (n > 0 && Grounded(byChild, byChild[id].parent, n - 1))
  }

  ghost predicate Acyclic(byChild: map<Id, Relation>) {
    forall id | id in byChild :: exists n: nat :: Grounded(byChild, id, n)
  }

  ghost predicate Forested(w: World) { Consistent(w) && Acyclic(w.byChild) }

  // ----- relation keys

  /** Ids hold no NUL, so a relation key determines both ids. */
  lemma {:induction false} RelationKeyInjective(p: Id, c: Id, q: Id, d: Id)
    requires 0 !in p && 0 !in q && RelationKey(p, c) == RelationKey(q, d)
    ensures p == q && c == d
  {
    var k := RelationKey(p, c);
    assert k[|p|] == 0 && k[|q|] == 0 && k[..|p|] == p && k[..|q|] == q;
    assert forall i | 0 <= i < |p| :: k[i] != 0 by { assert forall i | 0 <= i < |p| :: k[i] == p[i]; }
    assert forall i | 0 <= i < |q| :: k[i] != 0 by { assert forall i | 0 <= i < |q| :: k[i] == q[i]; }
    assert k[|p| + 1..] == c && k[|q| + 1..] == d;
  }

  lemma {:induction false} LtPrefix(s: Key, a: Key, b: Key)
    ensures Lt(s + a, s + b) <==> Lt(a, b)
  {
    if s == [] {
      assert s + a == a && s + b == b;
    } else {
      assert (s + a)[1..] == s[1..] + a && (s + b)[1..] == s[1..] + b;
      LtPrefix(s[1..], a, b);
    }
  }

  /** Between `s` followed by 0 and `s` followed by 1 lie exactly the keys that begin with `s` followed by 0. */
  lemma {:induction false} PrefixInterval(s: Key, k: Key)
    requires forall i | 0 <= i < |k| :: k[i] >= 0
    ensures InRange(k, Some(s + [0]), Some(s + [1])) <==> s + [0] <= k
  {
    if s == [] {
      assert s + [0] == [0] && s + [1] == [1];
      if k != [] {
        assert [0] <= k <==> k[0] == 0;
        assert Lt(k, [1]) <==> k[0] < 1 || (k[0] == 1 && Lt(k[1..], []));
        assert Lt(k, [0]) <==> k[0] < 0 || (k[0] == 0 && Lt(k[1..], []));
      }
    } else if k != [] && k[0] == s[0] {
      assert k == [k[0]] + k[1..] && s + [0] == [s[0]] + (s[1..] + [0]) && s + [1] == [s[0]] + (s[1..] + [1]);
      PrefixInterval(s[1..], k[1..]);
      LtPrefix([k[0]], k[1..], s[1..] + [0]);
      LtPrefix([k[0]], k[1..], s[1..] + [1]);
      assert s + [0] <= k <==> s[1..] + [0] <= k[1..];
    }
  }

  /** `directChildren` scans exactly the relations of one parent. */
  lemma ChildInterval(p: Id, q: Id, c: Id)
    requires ValidId(p) && ValidId(q) && ValidId(c)
    ensures InRange(RelationKey(q, c), Some(p + [0]), Some(p + [1])) <==> q == p
  {
    hide Lt, InRange;
    var k := RelationKey(q, c);
    PrefixInterval(p, k);
    if p + [0] <= k {
      RelationKeyInjective(p, k[|p| + 1..], q, c);
    }
  }

  // ----- climbing

  /** Climbing from `id` meets `target` within `n` steps. */
  predicate ReachesUp(byChild: map<Id, Relation>, id: Id, target: Id, n: nat)
    decreases n
  {
    id == target || (n > 0 && id in byChild && ReachesUp(byChild, byChild[id].parent, target, n - 1))
  }

  ghost predicate Descends(byChild: map<Id, Relation>, id: Id, ancestor: Id) {
    exists n: nat :: ReachesUp(byChild, id, ancestor, n)
  }

  lemma {:induction false} GroundedMore(byChild: map<Id, Relation>, id: Id, n: nat, m: nat)
    requires Grounded(byChild, id, n) && n <= m
    ensures Grounded(byChild, id, m)
    decreases n
  {
    if id in byChild {
      GroundedMore(byChild, byChild[id].parent, n - 1, m - 1);
    }
  }

  /** The number of steps to the top. */
  function Height(byChild: map<Id, Relation>, id: Id, n: nat): nat
    requires Grounded(byChild, id, n)
    decreases n
  {
    if id !in byChild then 0 else 1 + Height(byChild, byChild[id].parent, n - 1)
  }

  lemma {:induction false} HeightUnique(byChild: map<Id, Relation>, id: Id, n: nat, m: nat)
    requires Grounded(byChild, id, n) && Grounded(byChild, id, m)
    ensures Height(byChild, id, n) == Height(byChild, id, m) <= n
    decreases n
  {
    if id in byChild {
      HeightUnique(byChild, byChild[id].parent, n - 1, m - 1);
    }
  }

  lemma {:induction false} AncestorIsHigher(byChild: map<Id, Relation>, id: Id, target: Id, n: nat, m: nat)
    requires ReachesUp(byChild, id, target, n) && Grounded(byChild, id, m)
    ensures Grounded(byChild, target, m) && Height(byChild, target, m) <= Height(byChild, id, m)
    decreases m
  {
    if id != target {
      AncestorIsHigher(byChild, byChild[id].parent, target, n - 1, m - 1);
      GroundedMore(byChild, target, m - 1, m);
      HeightUnique(byChild, target, m - 1, m);
    }
  }

  /** A grounded object is not its own proper ancestor. */
  lemma NoLoop(byChild: map<Id, Relation>, id: Id, n: nat, m: nat)
    requires Grounded(byChild, id, m) && id in byChild
    ensures !ReachesUp(byChild, byChild[id].parent, id, n)
  {
    var parent := byChild[id].parent;
    GroundedMore(byChild, parent, m - 1, m);
    HeightUnique(byChild, parent, m - 1, m);
    if ReachesUp(byChild, parent, id, n) {
      AncestorIsHigher(byChild, parent, id, n, m);
    }
  }

  lemma {:induction false} ReachesUpSnoc(byChild: map<Id, Relation>, id: Id, mid: Id, n: nat)
    requires ReachesUp(byChild, id, mid, n) && mid in byChild
    ensures ReachesUp(byChild, id, byChild[mid].parent, n + 1)
    decreases n
  {
    if id != mid {
      ReachesUpSnoc(byChild, byChild[id].parent, mid, n - 1);
    }
  }

  // ----- the cycle check

  /** A successful walk: the top is near and the child is not on the way. */
  lemma {:induction false} ClimbSound(byChild: map<Id, Relation>, current: Id, visited: set<Id>, depth: nat, maxDepth: nat, child: Id, n: nat)
    requires Climb(byChild, Some(current), visited, depth, maxDepth) == None && child in visited
    ensures depth < maxDepth && Grounded(byChild, current, maxDepth - depth - 1) && !ReachesUp(byChild, current, child, n)
    decreases maxDepth - depth
  {
    if current in byChild {
      ClimbSound(byChild, byChild[current].parent, visited + {current}, depth + 1, maxDepth, child, if n > 0 then n - 1 else 0);
    }
  }

  lemma {:induction false} ClimbComplete(byChild: map<Id, Relation>, current: Id, visited: set<Id>, depth: nat, maxDepth: nat, child: Id)
    requires depth < maxDepth && Grounded(byChild, current, maxDepth - depth - 1) && !Descends(byChild, current, child)
    requires forall v | v in visited && v != child :: v in byChild && Descends(byChild, byChild[v].parent, current)
    ensures Climb(byChild, Some(current), visited, depth, maxDepth) == None
    decreases maxDepth - depth
  {
    assert ReachesUp(byChild, current, current, 0);
    if current in visited {
      var n: nat :| ReachesUp(byChild, byChild[current].parent, current, n);
      NoLoop(byChild, current, n, maxDepth - depth - 1);
    }
    if current in byChild {
      var up := byChild[current].parent;
      forall v | v in visited + {current} && v != child ensures v in byChild && Descends(byChild, byChild[v].parent, up) {
        if v == current {
          assert ReachesUp(byChild, up, up, 0);
        } else {
          var n: nat :| ReachesUp(byChild, byChild[v].parent, current, n);
          ReachesUpSnoc(byChild, byChild[v].parent, current, n);
        }
      }
      forall n: nat ensures ReachesUp(byChild, up, child, n) ==> ReachesUp(byChild, current, child, n + 1) {}
      ClimbComplete(byChild, up, visited + {current}, depth + 1, maxDepth, child);
    }
  }

  /** `_assertNoCycle` passes exactly when the child is not an ancestor of the new parent and that parent is less than `maxDepth` deep. */
  lemma NoCycleExact(byChild: map<Id, Relation>, child: Id, parent: Id, maxDepth: nat)
    requires maxDepth > 0
    ensures NoCycle(byChild, child, parent, maxDepth) == None <==>
      !Descends(byChild, parent, child) && Grounded(byChild, parent, maxDepth - 1)
  {
    assert child == parent ==> ReachesUp(byChild, parent, child, 0);
    if NoCycle(byChild, child, parent, maxDepth) == None {
      forall n: nat ensures !ReachesUp(byChild, parent, child, n) {
        ClimbSound(byChild, parent, {child}, 0, maxDepth, child, n);
      }
      ClimbSound(byChild, parent, {child}, 0, maxDepth, child, 0);
    }
    if !Descends(byChild, parent, child) && Grounded(byChild, parent, maxDepth - 1) {
      ClimbComplete(byChild, parent, {child}, 0, maxDepth, child);
    }
  }

  // ----- what linking and unlinking keep

  lemma {:induction false} UnlinkGrounded(byChild: map<Id, Relation>, c: Id, id: Id, n: nat)
    requires Grounded(byChild, id, n)
    ensures Grounded(byChild - {c}, id, n)
    decreases n
  {
    if id in byChild && id != c {
      UnlinkGrounded(byChild, c, byChild[id].parent, n - 1);
    }
  }

  lemma ReachesItself(byChild: map<Id, Relation>, id: Id)
    ensures Descends(byChild, id, id)
  {
    assert ReachesUp(byChild, id, id, 0);
  }

  /** A climb that does not meet the child is the same after linking it. */
  lemma {:induction false} SameClimb(byChild: map<Id, Relation>, r: Relation, id: Id, m: nat)
    requires Grounded(byChild, id, m) && !Descends(byChild, id, r.child)
    ensures Grounded(byChild[r.child := r], id, m)
    decreases m
  {
    if id == r.child {
      ReachesItself(byChild, id);
    } else if id in byChild {
      if n: nat :| ReachesUp(byChild, byChild[id].parent, r.child, n) {
        assert ReachesUp(byChild, id, r.child, n + 1);
      }
      SameClimb(byChild, r, byChild[id].parent, m - 1);
    }
  }

  lemma {:induction false} LinkGrounded(byChild: map<Id, Relation>, r: Relation, m: nat, id: Id, n: nat)
    requires Grounded(byChild, r.parent, m) && !Descends(byChild, r.parent, r.child) && Grounded(byChild, id, n)
    ensures Grounded(byChild[r.child := r], id, n + m + 1)
    decreases n
  {
    if id == r.child {
      SameClimb(byChild, r, r.parent, m);
      GroundedMore(byChild[r.child := r], r.parent, m, n + m);
    } else if id in byChild {
      LinkGrounded(byChild, r, m, byChild[id].parent, n - 1);
    }
  }

  lemma LinkAcyclic(byChild: map<Id, Relation>, r: Relation)
    requires Acyclic(byChild) && !Descends(byChild, r.parent, r.child)
    ensures Acyclic(byChild[r.child := r])
  {
    var m: nat := GroundOf(byChild, r.parent);
    var linked := byChild[r.child := r];
    forall id | id in linked ensures exists n: nat :: Grounded(linked, id, n) {
      var n := GroundOf(byChild, id);
      LinkGrounded(byChild, r, m, id, n);
    }
  }

  lemma GroundOf(byChild: map<Id, Relation>, id: Id) returns (n: nat)
    requires Acyclic(byChild)
    ensures Grounded(byChild, id, n)
  {
    if id in byChild {
      n :| Grounded(byChild, id, n);
    } else {
      n := 0;
    }
  }

  lemma UnlinkAcyclic(byChild: map<Id, Relation>, c: Id)
    requires Acyclic(byChild)
    ensures Acyclic(byChild - {c})
  {
    var unlinked := byChild - {c};
    forall id | id in unlinked ensures exists n: nat :: Grounded(unlinked, id, n) {
      var n := GroundOf(byChild, id);
      UnlinkGrounded(byChild, c, id, n);
    }
  }

  lemma LinkKeepsForest(w: World, r: Relation)
    requires Forested(w) && r.child in w.objects && r.parent in w.objects && r.child != w.rootId && r.child !in w.byChild
    requires !Descends(w.byChild, r.parent, r.child)
    ensures Forested(Link(w, r))
  {
    hide ReachesUp, RelationKey, ValidId;
    LinkAcyclic(w.byChild, r);
    var v := Link(w, r);
    forall c | c in v.byChild ensures var q := v.byChild[c];
      q.child == c && c in v.objects && q.parent in v.objects && RelationKey(q.parent, c) in v.byParent && v.byParent[RelationKey(q.parent, c)] == q
    {
      var q := v.byChild[c];
      if RelationKey(q.parent, c) == RelationKey(r.parent, r.child) {
        ValidHasNoNul(w, q.parent);
        ValidHasNoNul(w, r.parent);
        RelationKeyInjective(q.parent, c, r.parent, r.child);
      }
    }
  }

  lemma ValidHasNoNul(w: World, id: Id)
    requires Consistent(w) && id in w.objects
    ensures 0 !in id
  {
  }

  lemma UnlinkKeepsForest(w: World, r: Relation)
    requires Forested(w) && r.child in w.byChild && w.byChild[r.child].parent == r.parent
    ensures Forested(Unlink(w, r))
  {
    hide ReachesUp, RelationKey, ValidId;
    UnlinkAcyclic(w.byChild, r.child);
    var v := Unlink(w, r);
    forall c | c in v.byChild ensures var q := v.byChild[c];
      q.child == c && c in v.objects && q.parent in v.objects && RelationKey(q.parent, c) in v.byParent && v.byParent[RelationKey(q.parent, c)] == q
    {
      var q := v.byChild[c];
      if RelationKey(q.parent, c) == RelationKey(r.parent, r.child) {
        ValidHasNoNul(w, q.parent);
        ValidHasNoNul(w, r.parent);
        RelationKeyInjective(q.parent, c, r.parent, r.child);
      }
    }
  }

  lemma SetObjectKeepsForest(w: World, o: ObjectView)
    requires Forested(w) && ValidId(o.id)
    ensures Forested(SetObject(w, o))
  {
    hide Acyclic, RelationKey, ValidId;
  }

  // ----- every operation

  lemma DetachKeepsForest(w: World, child: Id, actor: Option<Id>)
    requires Forested(w) && DetachFrom(w, child, actor).Ok?
    ensures Forested(DetachFrom(w, child, actor).value)
  {
    hide Acyclic, RelationKey, ValidId, Allowed, Consistent;
    if child in w.byChild {
      var r := Relation(w.byChild[child].parent, child, None);
      UnlinkKeepsForest(w, r);
      var v := Unlink(w, r);
      ExistingId(w, r.parent);
      ExistingId(w, child);
      SetObjectKeepsForest(v, Touch(w.objects[r.parent]));
      SetObjectKeepsForest(SetObject(v, Touch(w.objects[r.parent])), Touch(w.objects[child]));
    }
  }

  lemma ExistingId(w: World, id: Id)
    requires Consistent(w) && id in w.objects
    ensures ValidId(id) && w.objects[id].id == id
  {
  }

  /** Climbing cannot meet the child after it lost its parent, when it did not before. */
  lemma {:induction false} UnlinkDescends(byChild: map<Id, Relation>, c: Id, id: Id, n: nat)
    requires ReachesUp(byChild - {c}, id, c, n)
    ensures ReachesUp(byChild, id, c, n)
    decreases n
  {
    if id != c {
      UnlinkDescends(byChild, c, byChild[id].parent, n - 1);
    }
  }

  lemma DetachedShape(w: World, child: Id, actor: Option<Id>)
    requires Consistent(w) && DetachFrom(w, child, actor).Ok?
    ensures var v := DetachFrom(w, child, actor).value;
      v.rootId == w.rootId && v.objects.Keys == w.objects.Keys && v.byChild == w.byChild - {child} && child != w.rootId
  {
    hide RelationKey, ValidId, Allowed;
  }

  lemma ReparentKeepsForest(w: World, maxDepth: nat, child: Id, parent: Id, locator: Option<Key>, actor: Option<Id>)
    requires Forested(w) && maxDepth > 0 && ReparentTo(w, maxDepth, child, parent, locator, actor).Ok?
    ensures Forested(ReparentTo(w, maxDepth, child, parent, locator, actor).value)
  {
    hide Acyclic, RelationKey, ValidId, Allowed, Consistent, DetachFrom, NoCycle, Descends;
    NoCycleExact(w.byChild, child, parent, maxDepth);
    var v := w;
    if child in w.byChild {
      if DetachFrom(w, child, actor).Ok? {
        DetachKeepsForest(w, child, actor);
        DetachedShape(w, child, actor);
        v := DetachFrom(w, child, actor).value;
      }
    }
    var result := ReparentTo(w, maxDepth, child, parent, locator, actor).value;
    if result != w {
      assert v.byChild == w.byChild - {child};
      NotBelow(w.byChild, child, parent);
      ReparentLinks(v, parent, child, result.byChild[child]);
    }
  }

  lemma NotBelow(byChild: map<Id, Relation>, child: Id, parent: Id)
    requires !Descends(byChild, parent, child)
    ensures !Descends(byChild - {child}, parent, child)
  {
    if n: nat :| ReachesUp(byChild - {child}, parent, child, n) {
      UnlinkDescends(byChild, child, parent, n);
    }
  }

  lemma ReparentLinks(v: World, parent: Id, child: Id, r: Relation)
    requires Forested(v) && child in v.objects && parent in v.objects && child != v.rootId && child !in v.byChild
    requires r.parent == parent && r.child == child && !Descends(v.byChild, parent, child)
    ensures var linked := Link(v, r);
      Forested(SetObject(SetObject(linked, Touch(v.objects[parent])), Touch(v.objects[child])))
  {
    hide Acyclic, RelationKey, ValidId, Consistent, Descends, Link;
    LinkKeepsForest(v, r);
    ExistingId(v, parent);
    ExistingId(v, child);
    var linked := Link(v, r);
    SetObjectKeepsForest(linked, Touch(v.objects[parent]));
    SetObjectKeepsForest(SetObject(linked, Touch(v.objects[parent])), Touch(v.objects[child]));
  }

  lemma OpKeepsForest(w: World, maxDepth: nat, op: Op, actor: Option<Id>)
    requires Forested(w) && maxDepth > 0 && ApplyOp(w, maxDepth, op, actor).Ok?
    ensures Forested(ApplyOp(w, maxDepth, op, actor).value)
  {
    hide Acyclic, RelationKey, ValidId, Allowed, Consistent, DetachFrom, ReparentTo;
    match op
    case StateAppend(id, _, data, _, _) =>
      ExistingId(w, id);
      SetObjectKeepsForest(w, Append(w, op, actor).value.objects[id]);
    case Reparent(child, parent, locator) => ReparentKeepsForest(w, maxDepth, child, parent, locator, actor);
    case Detach(child) => DetachKeepsForest(w, child, actor);
    case BaseUpgrade(id, _, _, _, _) =>
      ExistingId(w, id);
      SetObjectKeepsForest(w, Upgrade(w, op, actor).value.objects[id]);
  }

  lemma {:induction false} OpsKeepForest(w: World, maxDepth: nat, ops: seq<Op>, actor: Option<Id>)
    requires Forested(w) && maxDepth > 0 && ApplyOps(w, maxDepth, ops, actor).Ok?
    ensures Forested(ApplyOps(w, maxDepth, ops, actor).value)
    decreases |ops|
  {
    hide Forested, ApplyOp;
    if ops != [] {
      OpKeepsForest(w, maxDepth, ops[0], actor);
      OpsKeepForest(ApplyOp(w, maxDepth, ops[0], actor).value, maxDepth, ops[1..], actor);
    }
  }

  /** Any group of transactions keeps the forest. */
  lemma {:induction false} GroupKeepsForest(w: World, maxDepth: nat, txs: seq<Tx>)
    requires Forested(w) && maxDepth > 0
    ensures Forested(Group(w, maxDepth, txs))
    decreases |txs|
  {
    hide Forested, ApplyOps, DependenciesHold;
    if txs != [] {
      var before, tx := Group(w, maxDepth, txs[..|txs| - 1]), txs[|txs| - 1];
      GroupKeepsForest(w, maxDepth, txs[..|txs| - 1]);
      if ApplyTx(before, maxDepth, tx).Ok? {
        OpsKeepForest(before, maxDepth, tx.ops, tx.actor);
      }
    }
  }

  /** A fresh object under an existing parent: what promotion and import add. */
  function AddChild(w: World, o: ObjectView, r: Relation): World { Link(SetObject(w, o), r) }

  lemma AddChildKeepsForest(w: World, o: ObjectView, r: Relation)
    requires Forested(w) && ValidId(o.id) && o.id !in w.objects && r.child == o.id && r.parent in w.objects
    ensures Forested(AddChild(w, o, r))
  {
    hide Acyclic, RelationKey, ValidId, Link, ReachesUp;
    SetObjectKeepsForest(w, o);
    if n: nat :| ReachesUp(w.byChild, r.parent, o.id, n) {
      ClimbStaysInside(w, r.parent, o.id, n);
    }
    LinkKeepsForest(SetObject(w, o), r);
  }

  lemma {:induction false} ClimbStaysInside(w: World, id: Id, target: Id, n: nat)
    requires Consistent(w) && id in w.objects && ReachesUp(w.byChild, id, target, n)
    ensures target in w.objects
    decreases n
  {
    hide RelationKey, ValidId;
    if id != target {
      ClimbStaysInside(w, w.byChild[id].parent, target, n - 1);
    }
  }
}
