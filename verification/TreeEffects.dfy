/**
 What the operations on a namespace do, said of the trees before and after alone: when they are refused, which entries there are
 afterwards, and what every field of them is.
 */
module TreeEffects {
  import opened PigTree
  import opened PigMeaning
  import opened PigTransactions
  import OverlayTree

  /** Every entry is still there as it was. */
  ghost predicate Keeps<C>(t: Tree<C>, u: Tree<C>) { forall p | p in t :: p in u && u[p] == t[p] }

  /** The path and everything above it is there, and what is new are empty directories: the path and perhaps its ancestors. */
  ghost predicate AddsDirectories<C>(t: Tree<C>, u: Tree<C>, path: Path, ancestors: bool, c: Change, none: C) {
    path in u && (forall a | Above(a, path) :: a in u)
    && forall p | p in u && p !in t :: EmptyDirectory(u[p], p, c, none) && (p == path || (ancestors && Above(p, path)))
  }

  /** Exactly these entries are left, as they were. */
  ghost predicate Leaves<C>(t: Tree<C>, u: Tree<C>, gone: Path -> bool) {
    forall p :: (p in u <==> p in t && !gone(p)) && (p in u ==> u[p] == t[p])
  }

  /**
   Making a directory changes nothing where one is, is refused over anything else, and without `recursive` below a missing directory.
   Otherwise there is a new empty directory, with `recursive` also one for every missing ancestor, and nothing else is new.
   */
  lemma MkdirMeans<C>(t: Tree<C>, path: Path, c: Change, none: C, recursive: bool)
    requires Present(t) && ValidPath(path)
    ensures var r := Mkdir(t, path, c, none, recursive);
      (r.Unchanged? <==> path in t && t[path].kind == Directory)
      && (r.Refused? <==> (path in t && t[path].kind != Directory) || (path !in t && !recursive && exists a :: Above(a, path) && a !in t))
      && (r.Done? ==> Keeps(t, r.value) && path !in t && AddsDirectories(t, r.value, path, recursive, c, none))
  {
    hide EnsureParents, ParentOf, Above;
    EnsureParentsShape(t, path, c, none);
    ParentIsAbove(path);
    if ParentOf(path) == [] {
      forall a ensures !Above(a, path) {
        NotAtTop(path, a);
      }
    }
  }

  /** A path with no directory part has no ancestor. */
  lemma NotAtTop(path: Path, a: Path)
    requires ValidPath(path) && (Above(a, path) ==> a == [] || Above(a, []))
    ensures !Above(a, path)
  {
  }

  lemma SomethingBelow<C>(t: Tree<C>, path: Path)
    ensures Below(t, path) != {} <==> exists p :: p in t && Above(path, p)
  {
    hide Above;
    if Below(t, path) != {} {
      var p :| p in Below(t, path);
      assert p in t && Above(path, p);
    } else {
      forall p | p in t ensures !Above(path, p) {
        assert p !in Below(t, path);
      }
    }
  }

  /**
   Removing changes nothing where nothing is, and is refused for a filled directory unless `recursive`. Otherwise exactly the entry and,
   if it is a directory, everything below it goes.
   */
  lemma RemoveMeans<C>(t: Tree<C>, path: Path, recursive: bool)
    ensures var r := Remove(t, path, recursive);
      (r.Unchanged? <==> path !in t)
      && (r.Refused? <==> path in t && t[path].kind == Directory && !recursive && exists p :: p in t && Above(path, p))
      && (r.Done? ==> Leaves(t, r.value, p => p == path || (path in t && t[path].kind == Directory && Above(path, p))))
  {
    hide Above;
    SomethingBelow(t, path);
  }

  /** The entry at `from` and all that lies below it are now at `to`: the same objects, one revision on. */
  ghost predicate MovesAll<C>(t: Tree<C>, r: Tree<C>, from: Path, to: Path, c: Change) {
    forall s: Path {:trigger from + s} | from + s in t && (s == [] || s[0] == SLASH) :: to + s in r && SameObjectMoved(t[from + s], r[to + s], c)
  }

  /** Everything outside the subtree is as it was. */
  ghost predicate KeepsOutside<C>(t: Tree<C>, r: Tree<C>, from: Path) { forall p | p in t && !Within(from, p) :: p in r && r[p] == t[p] }

  lemma SuffixIs(from: Path, to: Path, s: Path)
    requires s == [] || s[0] == SLASH
    ensures Within(from, from + s) && Moved(from, to, from + s) == to + s
  {
    assert (from + s)[..|from|] == from && (from + s)[|from|..] == s;
  }

  /** Renaming changes nothing for the same or no entry, is refused into itself or onto an entry, and otherwise moves the whole subtree. */
  lemma RenameMeans<C>(t: Tree<C>, from: Path, to: Path, c: Change, none: C)
    requires TreeOk(t)
    ensures var r := Rename(t, from, to, c, none);
      (r.Unchanged? <==> from == to || (from !in t && !Above(from, to)))
      && (r.Refused? <==> from != to && (Above(from, to) || (from in t && to in t)))
      && (r.Done? ==> MovesAll(t, r.value, from, to, c) && KeepsOutside(t, r.value, from) && forall p | p in t && Within(from, p) :: p !in r.value)
  {
    hide Above, Move, Within, Moved;
    if from in t && to !in t && from != to && !Above(from, to) {
      RenameIsBijection(t, from, to, c, none);
      var r := Rename(t, from, to, c, none).value;
      forall s: Path {:trigger from + s} | from + s in t && (s == [] || s[0] == SLASH)
        ensures to + s in r && SameObjectMoved(t[from + s], r[to + s], c)
      {
        SuffixIs(from, to, s);
      }
    }
  }

  // ----- inside a transaction

  /**
   A transaction's rename does the same wherever the plain one succeeds. An entry renamed to itself is refused, and a subtree moved into
   itself is not: all of it moves, whatever becomes of its way up.
  */
  lemma TxRenameMeans<C>(t: Tree<C>, from: Path, to: Path, c: Change, none: C)
    requires TreeOk(t)
    ensures var r := PigTree.TxRename(t, from, to, c, none);
      (r.Unchanged? <==> from !in t)
      && (r.Refused? <==> from in t && to in t)
      && (r.Done? ==> MovesAll(t, r.value, from, to, c) && KeepsOutside(t, r.value, from))
      && (Rename(t, from, to, c, none).Done? ==> r == Rename(t, from, to, c, none))
  {
    hide Above, Move, Within, Moved, EnsureParents, Relocated;
    if from in t && to !in t {
      EnsureParentsShape(t, to, c, none);
      var u := EnsureParents(t, to, c, none);
      var r := Relocated(u, from, to, c);
      forall s: Path {:trigger from + s} | from + s in t && (s == [] || s[0] == SLASH)
        ensures to + s in r && SameObjectMoved(t[from + s], r[to + s], c)
      {
        SuffixIs(from, to, s);
        assert from + s in Subtree(u, from);
        OriginOf(u, from, to, from + s);
        RelocatedAt(u, from, to, c, to + s);
      }
      forall p | p in t && !Within(from, p) ensures p in r && r[p] == t[p] {
        NoImageOutside(t, from, to, c, none, p);
        RelocatedAt(u, from, to, c, p);
        assert p !in Subtree(u, from);
      }
      if from != to && !Above(from, to) {
        NoCollision(t, from, to, c, none);
      }
    }
  }

  lemma NoImageOutside<C>(t: Tree<C>, from: Path, to: Path, c: Change, none: C, q: Path)
    requires TreeOk(t) && from in t && to !in t && q in t && !Within(from, q)
    ensures q !in Images(EnsureParents(t, to, c, none), from, to)
  {
    hide Moved, EnsureParents;
    var u := EnsureParents(t, to, c, none);
    if q in Images(u, from, to) {
      var p :| p in Subtree(u, from) && Moved(from, to, p) == q;
      MovedWithin(from, to, p);
      NotBelowFree(t, to, q);
    }
  }

  /** A transaction makes a directory where nothing is, and every missing one above it. It is never refused. */
  lemma AddDirectoryMeans<C>(t: Tree<C>, path: Path, c: Change, none: C)
    ensures var r := AddDirectory(t, path, c, none);
      Keeps(t, r) && AddsDirectories(t, r, path, true, c, none)
  {
    hide EnsureParents, Above;
    EnsureParentsShape(t, path, c, none);
  }

  /** A transaction removes whatever lies below the path, a directory or not. */
  lemma DiscardMeans<C>(t: Tree<C>, path: Path, recursive: bool)
    ensures var r := Discard(t, path, recursive);
      (r.Unchanged? <==> path !in t)
      && (r.Refused? <==> path in t && !recursive && exists p :: p in t && Above(path, p))
      && (r.Done? ==> Leaves(t, r.value, p => Within(path, p)))
    ensures TreeOk(t) ==> Discard(t, path, recursive) == Remove(t, path, recursive)
  {
    hide Above;
    SomethingBelow(t, path);
  }

  // ----- in the overlay

  /** The overlay makes a directory as PigFS does, but never refuses a path that exists. */
  lemma WebMkdirMeans<C>(t: Tree<C>, path: Path, none: C, recursive: bool)
    requires Present(t) && ValidPath(path)
    ensures var r := OverlayTree.WebMkdir(t, path, none, recursive);
      (r.Unchanged? <==> path in t)
      && (r.Refused? <==> path !in t && !recursive && exists a :: Above(a, path) && a !in t)
      && (r.Done? ==> Keeps(t, r.value) && AddsDirectories(t, r.value, path, recursive, OverlayTree.Web(), none))
  {
    hide Mkdir, Above;
    MkdirMeans(t, path, OverlayTree.Web(), none, recursive);
  }

  /** The overlay refuses to rename nothing or onto something, and otherwise moves everything, a subtree into itself too. */
  lemma WebRenameMeans<C>(t: Tree<C>, from: Path, to: Path, none: C)
    requires TreeOk(t)
    ensures var r := OverlayTree.WebRename(t, from, to, none);
      (r.Refused? <==> from !in t || to in t) && !r.Unchanged?
      && (r.Done? ==> MovesAll(t, r.value, from, to, OverlayTree.Web()) && KeepsOutside(t, r.value, from))
  {
    hide Above, Within, Moved, EnsureParents, Origin;
    if from in t && to !in t {
      var c := OverlayTree.Web();
      EnsureParentsShape(t, to, c, none);
      var u := EnsureParents(t, to, c, none);
      var r := OverlayTree.WebRename(t, from, to, none).value;
      assert ImagesOf(Subtree(t, from), from, to) == Images(t, from, to);
      forall s: Path {:trigger from + s} | from + s in t && (s == [] || s[0] == SLASH)
        ensures to + s in r && SameObjectMoved(t[from + s], r[to + s], c)
      {
        SuffixIs(from, to, s);
        assert from + s in Subtree(t, from);
        OriginOf(t, from, to, from + s);
      }
      forall p | p in t && !Within(from, p) ensures p in r && r[p] == t[p] {
        NoImage(t, from, to, p);
      }
    }
  }

  lemma NoImage<C>(t: Tree<C>, from: Path, to: Path, q: Path)
    requires TreeOk(t) && to !in t && q in t
    ensures q !in Images(t, from, to)
  {
    hide Moved;
    if q in Images(t, from, to) {
      var p :| p in Subtree(t, from) && Moved(from, to, p) == q;
      MovedWithin(from, to, p);
      NotBelowFree(t, to, q);
    }
  }
}
