/**
 Generation stamps: why an entry that still carries the stamp it had when a streaming write began is the entry that was there then.
 */
module PigVersions {
  import opened PigTree

  /** Every entry of the next tree is the old one, or is stamped with the new generation. */
  ghost predicate Stamped<C>(t: Tree<C>, u: Tree<C>, generation: nat) {
    forall p | p in u :: (p in t && u[p] == t[p]) || u[p].modifiedGeneration == generation
  }

  ghost predicate Older<C>(t: Tree<C>, generation: nat) { forall p | p in t :: t[p].modifiedGeneration < generation }

  /** Every operation stamps what it touches. */
  lemma EditsStamp<C>(t: Tree<C>, op: TreeOp<C>, c: Change, none: C)
    ensures Stamped(t, Apply(t, op, c, none), c.generation)
  {
    hide EnsureParents, Relocated, Above, Within, ParentOf;
    match op
    case WriteOp(path, size, mime, content) => EnsureParentsShape(t, path, c, none);
    case MkdirOp(path, recursive) => EnsureParentsShape(t, path, c, none);
    case RemoveOp(_, _) =>
    case RenameOp(path, to) =>
      EnsureParentsShape(t, to, c, none);
      RelocatedStamps(EnsureParents(t, to, c, none), path, to, c);
  }

  lemma RelocatedStamps<C>(u: Tree<C>, from: Path, to: Path, c: Change)
    ensures Stamped(u, Relocated(u, from, to, c), c.generation)
  {
    hide Images, Subtree, Origin;
  }

  /** A tree over a run of commits: generation `first + k` left the k-th. A commit that does not touch the tree leaves it as it was. */
  ghost predicate StampedRun<C>(trees: seq<Tree<C>>, first: nat) {
    trees != [] && Older(trees[0], first + 1) && forall k | 0 <= k < |trees| - 1 :: Stamped(trees[k], trees[k + 1], first + k + 1)
  }

  lemma {:induction false} RunIsOlder<C>(trees: seq<Tree<C>>, first: nat, k: nat)
    requires StampedRun(trees, first) && k < |trees|
    ensures Older(trees[k], first + k + 1)
  {
    if k > 0 {
      RunIsOlder(trees, first, k - 1);
      assert Stamped(trees[k - 1], trees[k], first + k);
    }
  }

  lemma RunGrows<C>(trees: seq<Tree<C>>, first: nat, next: Tree<C>)
    requires StampedRun(trees, first) && Stamped(trees[|trees| - 1], next, first + |trees|)
    ensures StampedRun(trees + [next], first)
  {
    hide Stamped, Older;
    var more := trees + [next];
    forall k | 0 <= k < |more| - 1 ensures Stamped(more[k], more[k + 1], first + k + 1) {
      assert k < |trees| - 1 ==> Stamped(trees[k], trees[k + 1], first + k + 1);
    }
  }

  /**
   No update is lost: when an entry carries the stamp that the entry of its path carried earlier in the run, the very same entry was there
   at every commit in between. It was not rewritten, nor removed and created again.
   */
  lemma {:induction false} SameStampMeansUnchanged<C>(trees: seq<Tree<C>>, first: nat, i: nat, j: nat, k: nat, path: Path)
    requires StampedRun(trees, first) && i <= k <= j < |trees| && path in trees[i] && path in trees[j]
    requires trees[i][path].modifiedGeneration == trees[j][path].modifiedGeneration
    ensures path in trees[k] && trees[k][path] == trees[j][path]
    decreases j - k
  {
    hide Older, Stamped;
    RunIsOlder(trees, first, i);
    assert trees[i][path].modifiedGeneration < first + i + 1 by { OlderAt(trees[i], first + i + 1, path); }
    if k < j {
      SameStampMeansUnchanged(trees, first, i, j, k + 1, path);
      assert Stamped(trees[k], trees[k + 1], first + k + 1);
      StampedAt(trees[k], trees[k + 1], first + k + 1, path);
    }
  }

  lemma OlderAt<C>(t: Tree<C>, generation: nat, path: Path)
    requires Older(t, generation) && path in t
    ensures t[path].modifiedGeneration < generation
  {
  }

  lemma StampedAt<C>(t: Tree<C>, u: Tree<C>, generation: nat, path: Path)
    requires Stamped(t, u, generation) && path in u
    ensures (path in t && u[path] == t[path]) || u[path].modifiedGeneration == generation
  {
  }
}
