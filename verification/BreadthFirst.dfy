/**
 Breadth-first search of the containment tree: what its queue and its visited list satisfy at every step.
 */
module BreadthFirst {
  import opened ObjectTypes
  import opened ObjectWorld
  import opened Forest
  import opened Transactions

  /** All relations of one parent, each child once. */
  ghost predicate ListsChildren(w: World, children: seq<Relation>, parent: Id) {
    && (forall i, j | 0 <= i < j < |children| :: children[i].child != children[j].child)
    && (forall i | 0 <= i < |children| :: IsChild(w, children[i].child, parent) && w.byChild[children[i].child] == children[i])
    && (forall c | IsChild(w, c, parent) :: exists i | 0 <= i < |children| :: children[i].child == c)
  }

  /** `id` lies `n` steps below the root. */
  predicate Below(w: World, id: Id, n: nat)
    decreases n
  {
    if n == 0 then id == w.rootId else id in w.byChild && Below(w, w.byChild[id].parent, n - 1)
  }

  ghost predicate Shallow(w: World, id: Id, maxDepth: nat) { exists n: nat :: n <= maxDepth && Below(w, id, n) }

  /** The root, or a child of something visited. */
  predicate Rooted(w: World, ids: seq<Id>, id: Id) {
    id in w.objects && (id == w.rootId || (id in w.byChild && w.byChild[id].parent in ids))
  }

  function QueueIds(queue: seq<(Id, nat)>): (q: seq<Id>)
    ensures |q| == |queue| && forall i | 0 <= i < |q| :: q[i] == queue[i].0
  {
    seq(|queue|, i requires 0 <= i < |queue| => queue[i].0)
  }

  predicate Distinct(s: seq<Id>) { forall i, j | 0 <= i < j < |s| :: s[i] != s[j] }

  /** Visited and queued ids are distinct; what is visited or queued is rooted in what is visited; no child of a visited id is forgotten. */
  ghost predicate BfsInv(w: World, ids: seq<Id>, queue: seq<Id>) {
    && Distinct(ids + queue)
    && (forall x | x in ids || x in queue :: Rooted(w, ids, x))
    && (w.rootId in ids || w.rootId in queue)
    && (forall c | c in w.byChild && w.byChild[c].parent in ids :: c in ids || c in queue)
  }

  predicate Depths(w: World, queue: seq<(Id, nat)>) { forall i | 0 <= i < |queue| :: Below(w, queue[i].0, queue[i].1) }

  lemma BfsStart(w: World)
    requires w.rootId in w.objects
    ensures BfsInv(w, [], QueueIds([(w.rootId, 0)])) && Depths(w, [(w.rootId, 0)])
  {
    assert QueueIds([(w.rootId, 0)])[0] == w.rootId;
  }

  /** The head of the queue is new: the cycle error of the search never happens. */
  lemma HeadIsNew(w: World, ids: seq<Id>, queue: seq<Id>)
    requires Consistent(w) && BfsInv(w, ids, queue) && queue != []
    ensures queue[0] !in ids && ValidId(queue[0]) && queue[0] in w.objects
  {
    hide ValidId, RelationKey;
    assert (ids + queue)[|ids|] == queue[0];
    forall i | 0 <= i < |ids| ensures ids[i] != queue[0] {
      assert (ids + queue)[i] == ids[i];
    }
    assert queue[0] in queue;
  }

  /** A child of the head is neither visited, nor queued, nor the head itself. */
  lemma ChildIsNew(w: World, ids: seq<Id>, queue: seq<Id>, c: Id)
    requires Consistent(w) && BfsInv(w, ids, queue) && queue != [] && IsChild(w, c, queue[0])
    ensures c !in ids && c !in queue && c in w.objects
  {
    hide ValidId, RelationKey, Distinct;
    HeadIsNew(w, ids, queue);
    assert c in ids || c in queue ==> Rooted(w, ids, c);
  }

  lemma BfsStep(w: World, ids: seq<Id>, queue: seq<Id>, more: seq<Id>)
    requires Consistent(w) && BfsInv(w, ids, queue) && queue != [] && Distinct(more)
    requires forall c :: c in more <==> IsChild(w, c, queue[0])
    ensures BfsInv(w, ids + [queue[0]], queue[1..] + more)
  {
    hide ValidId, RelationKey, Consistent;
    var id := queue[0];
    forall c | c in more ensures c !in ids && c !in queue && c in w.objects {
      ChildIsNew(w, ids, queue, c);
    }
    assert ids + [id] + (queue[1..] + more) == (ids + queue) + more by { assert queue == [id] + queue[1..]; }
    DistinctConcat(ids + queue, more);
    assert forall x :: x in queue <==> x == id || x in queue[1..];
    forall x | x in ids + [id] || x in queue[1..] + more ensures Rooted(w, ids + [id], x) {
      if x in more {
        assert IsChild(w, x, id);
      } else {
        assert Rooted(w, ids, x);
      }
    }
    forall c | c in w.byChild && w.byChild[c].parent in ids + [id] ensures c in ids + [id] || c in queue[1..] + more {
      if w.byChild[c].parent == id {
        assert IsChild(w, c, id);
      }
    }
  }

  lemma DistinctConcat(a: seq<Id>, b: seq<Id>)
    requires Distinct(a) && Distinct(b) && forall x | x in b :: x !in a
    ensures Distinct(a + b)
  {
    var s := a + b;
    forall i, j | 0 <= i < j < |s| ensures s[i] != s[j] {
      if i < |a| <= j {
        assert s[j] in b && s[i] in a;
      }
    }
  }

  lemma {:induction false} BfsReaches(w: World, ids: seq<Id>, x: Id, n: nat)
    requires BfsInv(w, ids, []) && ReachesUp(w.byChild, x, w.rootId, n)
    ensures x in ids
    decreases n
  {
    if x != w.rootId {
      BfsReaches(w, ids, w.byChild[x].parent, n - 1);
    }
  }

  /** With an empty queue, the visited ids are exactly the descendants of the root. */
  lemma BfsEnd(w: World, ids: seq<Id>, maxDepth: nat)
    requires BfsInv(w, ids, []) && forall x | x in ids :: Shallow(w, x, maxDepth)
    ensures Distinct(ids) && forall x :: x in ids <==> x in w.objects && Descends(w.byChild, x, w.rootId)
  {
    assert ids + [] == ids;
    forall x | x in w.objects && Descends(w.byChild, x, w.rootId) ensures x in ids {
      var n: nat :| ReachesUp(w.byChild, x, w.rootId, n);
      BfsReaches(w, ids, x, n);
    }
    forall x | x in ids ensures x in w.objects && Descends(w.byChild, x, w.rootId) {
      assert Rooted(w, ids, x);
      var n: nat :| n <= maxDepth && Below(w, x, n);
      BelowReaches(w, x, n);
    }
  }

  lemma {:induction false} BelowReaches(w: World, x: Id, n: nat)
    requires Below(w, x, n)
    ensures ReachesUp(w.byChild, x, w.rootId, n)
    decreases n
  {
    if n > 0 {
      BelowReaches(w, w.byChild[x].parent, n - 1);
    }
  }
}
