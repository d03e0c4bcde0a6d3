/**
 Subtrees of the containment forest: how deep their members lie, that siblings share none, and a subtree seen as a world of its own.
 */
module Subtrees {
  import opened ObjectTypes
  import opened ObjectWorld
  import opened Forest
  import opened Transactions
  import opened BreadthFirst

  /** `x` lies exactly `n` steps below `top`. */
  predicate Deep(byChild: map<Id, Relation>, x: Id, top: Id, n: nat)
    decreases n
  {
    if n == 0 then x == top else x in byChild && Deep(byChild, byChild[x].parent, top, n - 1)
  }

  /** Everything below `top`, itself included, lies at most `n` steps below it. */
  ghost predicate NoDeeper(byChild: map<Id, Relation>, top: Id, n: int) {
    forall x, k: nat :: Deep(byChild, x, top, k) ==> k <= n
  }

  lemma {:induction false} DeepReaches(byChild: map<Id, Relation>, x: Id, top: Id, n: nat)
    requires Deep(byChild, x, top, n)
    ensures ReachesUp(byChild, x, top, n)
    decreases n
  {
    if n > 0 {
      DeepReaches(byChild, byChild[x].parent, top, n - 1);
    }
  }

  lemma {:induction false} ReachesDeep(byChild: map<Id, Relation>, x: Id, top: Id, n: nat) returns (k: nat)
    requires ReachesUp(byChild, x, top, n)
    ensures Deep(byChild, x, top, k)
    decreases n
  {
    if x == top {
      k := 0;
    } else {
      var j := ReachesDeep(byChild, byChild[x].parent, top, n - 1);
      k := j + 1;
    }
  }

  /** One more step up. */
  lemma {:induction false} DeepUp(byChild: map<Id, Relation>, x: Id, c: Id, n: nat)
    requires Deep(byChild, x, c, n) && c in byChild
    ensures Deep(byChild, x, byChild[c].parent, n + 1)
    decreases n
  {
    if n > 0 {
      DeepUp(byChild, byChild[x].parent, c, n - 1);
    }
  }

  /** The last step up: what lies below an object lies below one of its children. */
  lemma {:induction false} DeepDown(byChild: map<Id, Relation>, x: Id, top: Id, n: nat) returns (c: Id)
    requires Deep(byChild, x, top, n) && n > 0
    ensures c in byChild && byChild[c].parent == top && Deep(byChild, x, c, n - 1)
    decreases n
  {
    if n == 1 {
      c := x;
    } else {
      c := DeepDown(byChild, byChild[x].parent, top, n - 1);
    }
  }

  lemma DescendsUp(byChild: map<Id, Relation>, x: Id, c: Id)
    requires Descends(byChild, x, c) && c in byChild
    ensures Descends(byChild, x, byChild[c].parent)
  {
    var n: nat :| ReachesUp(byChild, x, c, n);
    ReachesUpSnoc(byChild, x, c, n);
  }

  lemma DescendsDown(byChild: map<Id, Relation>, x: Id, top: Id) returns (c: Id)
    requires Descends(byChild, x, top) && x != top
    ensures c in byChild && byChild[c].parent == top && Descends(byChild, x, c)
  {
    var n: nat :| ReachesUp(byChild, x, top, n);
    var k := ReachesDeep(byChild, x, top, n);
    c := DeepDown(byChild, x, top, k);
    DeepReaches(byChild, x, c, k - 1);
  }

  lemma Itself(byChild: map<Id, Relation>, x: Id)
    ensures Descends(byChild, x, x)
  {
    assert ReachesUp(byChild, x, x, 0);
  }

  /** No object lies below one of its own children. */
  lemma NotBelowChild(byChild: map<Id, Relation>, c: Id)
    requires Acyclic(byChild) && c in byChild
    ensures !Descends(byChild, byChild[c].parent, c)
  {
    hide ReachesUp, Grounded;
    var m := GroundOf(byChild, c);
    forall n: nat ensures !ReachesUp(byChild, byChild[c].parent, c, n) {
      NoLoop(byChild, c, n, m);
    }
  }

  /** Of two ancestors of one object, one is an ancestor of the other. */
  lemma {:induction false} Comparable(byChild: map<Id, Relation>, x: Id, a: Id, b: Id, n: nat, m: nat)
    requires ReachesUp(byChild, x, a, n) && ReachesUp(byChild, x, b, m)
    ensures Descends(byChild, a, b) || Descends(byChild, b, a)
    decreases n
  {
    if x == a || x == b {
      assert x == a ==> Descends(byChild, a, b);
      assert x == b ==> Descends(byChild, b, a);
    } else {
      Comparable(byChild, byChild[x].parent, a, b, n - 1, m - 1);
    }
  }

  /** Two children of one parent have no descendant in common. */
  lemma Siblings(byChild: map<Id, Relation>, x: Id, c: Id, d: Id)
    requires Acyclic(byChild) && c in byChild && d in byChild && c != d && byChild[c].parent == byChild[d].parent
    requires Descends(byChild, x, c)
    ensures !Descends(byChild, x, d)
  {
    hide ReachesUp, Acyclic, Grounded;
    if Descends(byChild, x, d) {
      var n: nat :| ReachesUp(byChild, x, c, n);
      var m: nat :| ReachesUp(byChild, x, d, m);
      Comparable(byChild, x, c, d, n, m);
      if Descends(byChild, c, d) {
        ProperBelow(byChild, c, d);
      } else {
        ProperBelow(byChild, d, c);
      }
    }
  }

  lemma ProperBelow(byChild: map<Id, Relation>, c: Id, d: Id)
    requires Acyclic(byChild) && c in byChild && d in byChild && c != d && byChild[c].parent == byChild[d].parent
    ensures !Descends(byChild, c, d)
  {
    hide Acyclic;
    NotBelowChild(byChild, d);
    forall n: nat ensures !ReachesUp(byChild, c, d, n) {
      assert n > 0 ==> !ReachesUp(byChild, byChild[c].parent, d, n - 1);
    }
  }

  lemma DescendantExists(w: World, x: Id, top: Id)
    requires Consistent(w) && top in w.objects && Descends(w.byChild, x, top)
    ensures x in w.objects
  {
    hide ValidId, RelationKey;
  }

  // ----- a subtree as a world

  /** The world rooted at `top`: its own edge to a parent is cut. */
  function Sub(w: World, top: Id): World {
    if top in w.byChild then Unlink(w, w.byChild[top]).(rootId := top) else w.(rootId := top)
  }

  lemma SubForested(w: World, top: Id)
    requires Forested(w) && top in w.objects
    ensures Forested(Sub(w, top)) && Sub(w, top).byChild == w.byChild - {top}
  {
    hide Acyclic, RelationKey, ValidId;
    if top in w.byChild {
      UnlinkKeepsForest(w, w.byChild[top]);
    } else {
      assert w.byChild - {top} == w.byChild;
    }
  }

  lemma {:induction false} SubReaches(byChild: map<Id, Relation>, x: Id, top: Id, n: nat)
    ensures ReachesUp(byChild - {top}, x, top, n) <==> ReachesUp(byChild, x, top, n)
    decreases n
  {
    if x != top && n > 0 && x in byChild {
      SubReaches(byChild, byChild[x].parent, top, n - 1);
    }
  }

  lemma SubDescends(byChild: map<Id, Relation>, x: Id, top: Id)
    ensures Descends(byChild - {top}, x, top) <==> Descends(byChild, x, top)
  {
    forall n: nat ensures ReachesUp(byChild - {top}, x, top, n) <==> ReachesUp(byChild, x, top, n) {
      SubReaches(byChild, x, top, n);
    }
  }

  /** Inside the subtree the children are the same. */
  lemma SubChildren(w: World, top: Id, children: seq<Relation>, p: Id)
    requires Forested(w) && top in w.objects && ListsChildren(w, children, p) && Descends(w.byChild, p, top)
    ensures ListsChildren(Sub(w, top), children, p)
  {
    hide Acyclic, RelationKey, ValidId, Consistent, Descends, Unlink;
    SubForested(w, top);
    if top in w.byChild {
      NotBelowChild(w.byChild, top);
    }
    var u := Sub(w, top);
    forall c ensures IsChild(u, c, p) <==> IsChild(w, c, p) {
    }
  }

  /** With an empty queue, the visited ids are exactly the members of the subtree. */
  lemma SubtreeDone(w: World, top: Id, ids: seq<Id>)
    requires Forested(w) && top in w.objects && BfsInv(Sub(w, top), ids, [])
    requires forall x | x in ids :: Descends(w.byChild, x, top)
    ensures Distinct(ids) && forall x :: x in ids <==> Descends(w.byChild, x, top)
  {
    hide Acyclic, RelationKey, ValidId, Consistent, Unlink;
    SubForested(w, top);
    assert ids + [] == ids;
    forall x | Descends(w.byChild, x, top) ensures x in ids {
      SubDescends(w.byChild, x, top);
      var n: nat :| ReachesUp(Sub(w, top).byChild, x, top, n);
      BfsReaches(Sub(w, top), ids, x, n);
    }
  }

  // ----- the depth-first walk

  /** Below one of the first `j` children. */
  ghost predicate UnderFirst(w: World, x: Id, children: seq<Relation>, j: nat)
    requires j <= |children|
  {
    exists k | 0 <= k < j :: Descends(w.byChild, x, children[k].child)
  }

  /** What a walk of `id` has listed after its first `j` children, beyond what was listed before it. */
  ghost predicate Walked(w: World, id: Id, before: seq<Id>, live: seq<Id>, children: seq<Relation>, j: nat)
    requires j <= |children|
  {
    before <= live && Distinct(live) && forall x :: x in live <==> x in before || x == id || UnderFirst(w, x, children, j)
  }

  /** Nothing below the next child has been listed. */
  lemma NextIsNew(w: World, id: Id, before: seq<Id>, live: seq<Id>, children: seq<Relation>, j: nat)
    requires Forested(w) && ListsChildren(w, children, id) && j < |children| && Walked(w, id, before, live, children, j)
    requires forall x | x in before :: !Descends(w.byChild, x, id)
    ensures var c := children[j].child;
      IsChild(w, c, id) && c in w.objects && forall x | x in live :: !Descends(w.byChild, x, c)
  {
    hide Acyclic, RelationKey, ValidId, Descends, Distinct;
    var c := children[j].child;
    forall x | x in live ensures !Descends(w.byChild, x, c) {
      if x in before {
        if Descends(w.byChild, x, c) {
          DescendsUp(w.byChild, x, c);
        }
      } else if x == id {
        NotBelowChild(w.byChild, c);
      } else {
        var k :| 0 <= k < j && Descends(w.byChild, x, children[k].child);
        Siblings(w.byChild, x, children[k].child, c);
      }
    }
  }

  lemma WalkedOne(w: World, id: Id, before: seq<Id>, children: seq<Relation>)
    requires Distinct(before) && id !in before
    ensures Walked(w, id, before, before + [id], children, 0)
  {
    hide Descends;
  }

  lemma WalkedNext(w: World, id: Id, before: seq<Id>, live: seq<Id>, more: seq<Id>, children: seq<Relation>, j: nat)
    requires j < |children| && Walked(w, id, before, live, children, j) && live <= more && Distinct(more)
    requires forall x :: x in more <==> x in live || Descends(w.byChild, x, children[j].child)
    ensures Walked(w, id, before, more, children, j + 1)
  {
    hide Descends, Distinct;
    forall x ensures UnderFirst(w, x, children, j + 1) <==> UnderFirst(w, x, children, j) || Descends(w.byChild, x, children[j].child) {
    }
  }

  /** After the last child, exactly the members of the subtree have been added. */
  lemma WalkedAll(w: World, id: Id, before: seq<Id>, live: seq<Id>, children: seq<Relation>)
    requires ListsChildren(w, children, id) && Walked(w, id, before, live, children, |children|)
    ensures before <= live && Distinct(live) && forall x :: x in live <==> x in before || Descends(w.byChild, x, id)
  {
    hide Descends, Distinct;
    forall x ensures x == id || UnderFirst(w, x, children, |children|) <==> Descends(w.byChild, x, id) {
      if UnderFirst(w, x, children, |children|) {
        var k :| 0 <= k < |children| && Descends(w.byChild, x, children[k].child);
        DescendsUp(w.byChild, x, children[k].child);
      }
      if x == id {
        Itself(w.byChild, x);
      } else if Descends(w.byChild, x, id) {
        var c := DescendsDown(w.byChild, x, id);
        assert IsChild(w, c, id);
        var k :| 0 <= k < |children| && children[k].child == c;
      }
    }
  }

  /** A subtree is no deeper than `n` when the subtrees of its children are no deeper than `n - 1`. */
  lemma ShallowChildren(w: World, id: Id, children: seq<Relation>, n: int)
    requires n >= 0 && ListsChildren(w, children, id)
    requires forall k | 0 <= k < |children| :: NoDeeper(w.byChild, children[k].child, n - 1)
    ensures NoDeeper(w.byChild, id, n)
  {
    hide Deep;
    forall x, k: nat | Deep(w.byChild, x, id, k) ensures k <= n {
      if k > 0 {
        var c := DeepDown(w.byChild, x, id, k);
        assert IsChild(w, c, id);
        var i :| 0 <= i < |children| && children[i].child == c;
      }
    }
  }

  /** A child that is too deep makes its parent too deep. */
  lemma DeepChild(w: World, id: Id, c: Id, n: int)
    requires IsChild(w, c, id) && !NoDeeper(w.byChild, c, n - 1)
    ensures !NoDeeper(w.byChild, id, n)
  {
    hide Deep;
    var x, k: nat :| Deep(w.byChild, x, c, k) && k > n - 1;
    DeepUp(w.byChild, x, c, k);
  }

  lemma TooDeep(byChild: map<Id, Relation>, id: Id, n: int)
    requires n < 0
    ensures !NoDeeper(byChild, id, n)
  {
    assert Deep(byChild, id, id, 0);
  }

  // ----- breadth first and depth

  lemma {:induction false} BelowIsDeep(w: World, x: Id, n: nat)
    ensures Below(w, x, n) <==> Deep(w.byChild, x, w.rootId, n)
    decreases n
  {
    if n > 0 && x in w.byChild {
      BelowIsDeep(w, w.byChild[x].parent, n - 1);
    }
  }

  /** The root has no parent, so an object lies at one depth only. */
  lemma {:induction false} OneDepth(w: World, x: Id, n: nat, k: nat)
    requires w.rootId !in w.byChild && Below(w, x, n) && Deep(w.byChild, x, w.rootId, k)
    ensures n == k
    decreases n
  {
    if n > 0 && k > 0 {
      OneDepth(w, w.byChild[x].parent, n - 1, k - 1);
    }
  }

  /** When everything visited is shallow, nothing is deeper. */
  lemma BfsNoDeeper(w: World, ids: seq<Id>, maxDepth: nat)
    requires Consistent(w) && BfsInv(w, ids, []) && forall x | x in ids :: Shallow(w, x, maxDepth)
    ensures NoDeeper(w.byChild, w.rootId, maxDepth)
  {
    hide BfsInv, ValidId, RelationKey;
    forall x, k: nat | Deep(w.byChild, x, w.rootId, k) ensures k <= maxDepth {
      DeepReaches(w.byChild, x, w.rootId, k);
      BfsReaches(w, ids, x, k);
      var n: nat :| n <= maxDepth && Below(w, x, n);
      OneDepth(w, x, n, k);
    }
  }

  lemma BelowTooDeep(w: World, x: Id, n: nat, maxDepth: nat)
    requires Below(w, x, n) && n > maxDepth
    ensures !NoDeeper(w.byChild, w.rootId, maxDepth)
  {
    BelowIsDeep(w, x, n);
  }
}
