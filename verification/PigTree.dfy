/**
 The namespace of one PigFS realm: paths, ancestors, and what writing, making directories, removing and renaming do to the tree.
 The functions are generic in what an entry holds, so they apply to catalog entries and to file contents alike.
 */
module PigTree {
  import opened Bytes
  import opened Keys

  /** A normalized path inside a realm: code units, segments separated by slashes. */
  type Path = Key

  type Identity = Key

  const SLASH: int := 47

  datatype Kind = File | Directory | Symlink

  datatype Node<+C> = Node(objectId: Key, kind: Kind, size: nat, mime: Key, revision: nat, modifiedBy: Option<Identity>, modifiedGeneration: nat, content: C)

  type Tree<C> = map<Path, Node<C>>

  /** Who changes the tree: the actor, the generation being built, and the random object ids of that commit. */
  datatype Change = Change(actor: Option<Identity>, generation: nat, newId: Path -> Key)

  /** `path.startsWith(ancestor + '/')`. */
  predicate Above(ancestor: Path, path: Path) {
    |ancestor| < |path| && path[..|ancestor|] == ancestor && path[|ancestor|] == SLASH
  }

  /** No empty segment. */
  predicate ValidPath(path: Path) {
    path != [] && path[0] != SLASH && path[|path| - 1] != SLASH && forall i | 0 < i < |path| :: path[i] == SLASH ==> path[i - 1] != SLASH
  }

  function Ancestors(path: Path): (s: set<Path>)
    ensures forall a :: a in s <==> Above(a, path)
  {
    set i | 0 <= i < |path| && path[i] == SLASH :: path[..i]
  }

  lemma AboveTransitive(a: Path, b: Path, c: Path)
    requires Above(a, b) && Above(b, c)
    ensures Above(a, c)
  {
    assert c[..|a|] == c[..|b|][..|a|];
    assert c[|a|] == c[..|b|][|a|];
  }

  /** Every ancestor of every entry is present. */
  ghost predicate Present<C>(t: Tree<C>) { forall p, a | p in t && Above(a, p) :: a in t }

  /** Every ancestor of every entry is present, and is a directory. */
  ghost predicate TreeOk<C>(t: Tree<C>) { forall p, a | p in t && Above(a, p) :: a in t && t[a].kind == Directory }

  /** No existing ancestor of the path is anything but a directory. */
  ghost predicate OnlyDirectoriesAbove<C>(t: Tree<C>, path: Path) {
    forall a | a in t && Above(a, path) :: t[a].kind == Directory
  }

  ghost predicate NothingBelow<C>(t: Tree<C>, path: Path) { forall p | p in t :: !Above(path, p) }

  // ----- the operations

  function NewDirectory<C>(path: Path, c: Change, none: C): Node<C> {
    Node(c.newId(path), Directory, 0, [], 1, c.actor, c.generation, none)
  }

  /** `ensureParents`: every missing ancestor becomes a directory; existing ones are left alone, whatever they are. */
  function EnsureParents<C>(t: Tree<C>, path: Path, c: Change, none: C): Tree<C> {
    t + map a | a in Ancestors(path) && a !in t :: NewDirectory(a, c, none)
  }

  /** The entry of a written file: the old object id and the next revision, if there was an entry. */
  function Written<C>(t: Tree<C>, path: Path, c: Change, size: nat, mime: Key, content: C): Node<C> {
    Node(if path in t then t[path].objectId else c.newId(path), File, size, mime, if path in t then t[path].revision + 1 else 1, c.actor, c.generation, content)
  }

  function Write<C>(t: Tree<C>, path: Path, c: Change, none: C, size: nat, mime: Key, content: C): Tree<C> {
    var u := EnsureParents(t, path, c, none);
    u[path := Written(u, path, c, size, mime, content)]
  }

  datatype Edit<+T> = Done(value: T) | Unchanged | Refused

  /** The directory part of a path: everything before its last slash, or nothing. */
  function ParentOf(path: Path): Path {
    if path == [] then [] else if path[|path| - 1] == SLASH then path[..|path| - 1] else ParentOf(path[..|path| - 1])
  }

  function Mkdir<C>(t: Tree<C>, path: Path, c: Change, none: C, recursive: bool): Edit<Tree<C>> {
    if path in t then (if t[path].kind == Directory then Unchanged else Refused)
    else if !recursive && ParentOf(path) != [] && ParentOf(path) !in t then Refused
    else
      var u := if recursive then EnsureParents(t, path, c, none) else t;
      Done(u[path := NewDirectory(path, c, none)])
  }

  function Below<C>(t: Tree<C>, path: Path): set<Path> { set p | p in t && Above(path, p) }

  function Remove<C>(t: Tree<C>, path: Path, recursive: bool): Edit<Tree<C>> {
    if path !in t then Unchanged
    else if t[path].kind == Directory && Below(t, path) != {} && !recursive then Refused
    else Done(t - (if t[path].kind == Directory then Below(t, path) else {}) - {path})
  }

  /** The new place of `path` when `from` becomes `to`. */
  function Moved(from: Path, to: Path, path: Path): Path
    requires Within(from, path)
  {
    to + path[|from|..]
  }

  function MovedNode<C>(n: Node<C>, c: Change): Node<C> {
    n.(revision := n.revision + 1, modifiedBy := c.actor, modifiedGeneration := c.generation)
  }

  predicate Within(from: Path, path: Path) { path == from || Above(from, path) }

  /** The entries that a rename takes along. */
  function Subtree<C>(t: Tree<C>, from: Path): set<Path> { set p | p in t && Within(from, p) }

  /** A tree with a subtree taken out and put back under another path. */
  ghost function Relocated<C>(t: Tree<C>, from: Path, to: Path, c: Change): Tree<C> {
    (t - Subtree(t, from)) + (map q | q in Images(t, from, to) :: MovedNode(t[Origin(t, from, to, q)], c))
  }

  function Images<C>(t: Tree<C>, from: Path, to: Path): set<Path> { set p | p in Subtree(t, from) :: Moved(from, to, p) }

  /** Where a moved entry came from. */
  function Origin<C>(t: Tree<C>, from: Path, to: Path, q: Path): (p: Path)
    requires q in Images(t, from, to)
    ensures p in t && Within(from, p) && Moved(from, to, p) == q
  {
    assert exists p :: p in Subtree(t, from) && Moved(from, to, p) == q;
    var p := from + q[|to|..];
    OriginIs(t, from, to, q);
    p
  }

  lemma OriginIs<C>(t: Tree<C>, from: Path, to: Path, q: Path)
    requires q in Images(t, from, to)
    ensures |to| <= |q| && Moved(to, from, q) in t && Within(from, Moved(to, from, q)) && Moved(from, to, Moved(to, from, q)) == q
  {
    var p :| p in Subtree(t, from) && Moved(from, to, p) == q;
    assert p == from + p[|from|..];
    assert q[|to|..] == p[|from|..];
  }

  /** The body of a rename, after its checks: missing parents, then the subtree moved. A collision refuses it. */
  ghost function Move<C>(t: Tree<C>, from: Path, to: Path, c: Change, none: C): Edit<Tree<C>> {
    var u := EnsureParents(t, to, c, none);
    if exists q | q in Images(u, from, to) :: q in u && q !in Subtree(u, from) then Refused else Done(Relocated(u, from, to, c))
  }

  /** `rename` within one realm. */
  ghost function Rename<C>(t: Tree<C>, from: Path, to: Path, c: Change, none: C): Edit<Tree<C>> {
    if from == to then Unchanged
    else if Above(from, to) then Refused
    else if from !in t then Unchanged
    else if to in t then Refused
    else Move(t, from, to, c, none)
  }

  // ----- what keeps the tree

  lemma EnsureParentsShape<C>(t: Tree<C>, path: Path, c: Change, none: C)
    ensures var u := EnsureParents(t, path, c, none);
      (forall p | p in t :: p in u && u[p] == t[p])
      && (forall p | p in u :: p in t || (Above(p, path) && u[p] == NewDirectory(p, c, none)))
      && (forall a | Above(a, path) :: a in u)
  {
    hide Above;
  }

  /** A write keeps the tree exactly when it hits no file on its way and replaces no directory that has something below it. */
  lemma WriteKeepsTree<C>(t: Tree<C>, path: Path, c: Change, none: C, size: nat, mime: Key, content: C)
    requires TreeOk(t)
    ensures TreeOk(Write(t, path, c, none, size, mime, content)) <==> OnlyDirectoriesAbove(t, path) && NothingBelow(t, path)
  {
    hide EnsureParents;
    EnsureParentsShape(t, path, c, none);
    var w := Write(t, path, c, none, size, mime, content);
    if OnlyDirectoriesAbove(t, path) && NothingBelow(t, path) {
      forall p, a | p in w && Above(a, p) ensures a in w && w[a].kind == Directory {
        WriteAncestor(t, path, c, none, size, mime, content, p, a);
      }
    }
    if TreeOk(w) {
      forall a | a in t && Above(a, path) ensures t[a].kind == Directory {
        assert w[a] == t[a];
      }
      forall p | p in t ensures !Above(path, p) {
        assert p in w && w[path].kind == File;
      }
    }
  }

  lemma WriteAncestor<C>(t: Tree<C>, path: Path, c: Change, none: C, size: nat, mime: Key, content: C, p: Path, a: Path)
    requires TreeOk(t) && OnlyDirectoriesAbove(t, path) && NothingBelow(t, path)
    requires p in Write(t, path, c, none, size, mime, content) && Above(a, p)
    ensures a in Write(t, path, c, none, size, mime, content) && Write(t, path, c, none, size, mime, content)[a].kind == Directory
  {
    hide EnsureParents;
    EnsureParentsShape(t, path, c, none);
    if p !in t && p != path {
      AboveTransitive(a, p, path);
    }
  }

  /** An entry made by this commit: its first revision, under a new object id. */
  ghost predicate MadeAt<C>(n: Node<C>, path: Path, c: Change) {
    n.objectId == c.newId(path) && n.revision == 1 && n.modifiedBy == c.actor && n.modifiedGeneration == c.generation
  }

  /** A new, empty directory. */
  ghost predicate EmptyDirectory<C>(n: Node<C>, path: Path, c: Change, none: C) {
    MadeAt(n, path, c) && n.kind == Directory && n.size == 0 && n.mime == [] && n.content == none
  }

  /** An entry under another name: the object and what it holds are kept, and the commit leaves its mark. */
  ghost predicate SameObjectMoved<C>(n: Node<C>, m: Node<C>, c: Change) {
    m.objectId == n.objectId && m.kind == n.kind && m.size == n.size && m.mime == n.mime && m.content == n.content
    && m.revision == n.revision + 1 && m.modifiedBy == c.actor && m.modifiedGeneration == c.generation
  }

  /**
   What a write puts at its path, and what it does not touch: every other entry stays, every ancestor of the path is there afterwards,
   those that were missing as new directories, and nothing else is new.
   */
  lemma WriteFrame<C>(t: Tree<C>, path: Path, c: Change, none: C, size: nat, mime: Key, content: C)
    ensures var w := Write(t, path, c, none, size, mime, content);
      (forall p | p in t && p != path :: p in w && w[p] == t[p])
      && (forall a | Above(a, path) :: a in w)
      && (forall p | p in w && p !in t && p != path :: Above(p, path) && EmptyDirectory(w[p], p, c, none))
      && path in w && w[path].kind == File && w[path].content == content && w[path].size == size && w[path].mime == mime
      && w[path].modifiedBy == c.actor && w[path].modifiedGeneration == c.generation
      && (path in t ==> w[path].objectId == t[path].objectId && w[path].revision == t[path].revision + 1)
      && (path !in t ==> MadeAt(w[path], path, c))
    ensures Present(t) ==> Present(Write(t, path, c, none, size, mime, content))
  {
    hide EnsureParents;
    EnsureParentsShape(t, path, c, none);
    var w := Write(t, path, c, none, size, mime, content);
    if Present(t) {
      forall p, a | p in w && Above(a, p) ensures a in w {
        if p !in t && p != path {
          AboveTransitive(a, p, path);
        }
      }
    }
  }

  lemma ParentIsAbove(path: Path)
    requires path != []
    ensures forall a | Above(a, path) :: a == ParentOf(path) || Above(a, ParentOf(path))
    ensures ParentOf(path) != [] ==> Above(ParentOf(path), path)
  {
    ParentPrefix(path);
    forall a | Above(a, path) ensures a == ParentOf(path) || Above(a, ParentOf(path)) {
      ParentIsLast(path, a);
    }
  }

  lemma {:induction false} ParentPrefix(path: Path)
    ensures ParentOf(path) == [] || Above(ParentOf(path), path)
  {
    if path != [] && path[|path| - 1] != SLASH {
      var init := path[..|path| - 1];
      ParentPrefix(init);
      var a := ParentOf(init);
      if Above(a, init) {
        assert path[..|a|] == init[..|a|];
      }
    }
  }

  lemma {:induction false} ParentIsLast(path: Path, a: Path)
    requires Above(a, path)
    ensures a == ParentOf(path) || Above(a, ParentOf(path))
  {
    var init := path[..|path| - 1];
    if path[|path| - 1] == SLASH {
      if |a| < |path| - 1 {
        assert init[..|a|] == path[..|a|];
      }
    } else {
      assert init[..|a|] == path[..|a|];
      ParentIsLast(init, a);
    }
  }

  /** Making a directory keeps the tree exactly when everything that exists above it is a directory. */
  lemma MkdirKeepsTree<C>(t: Tree<C>, path: Path, c: Change, none: C, recursive: bool)
    requires TreeOk(t) && ValidPath(path) && Mkdir(t, path, c, none, recursive).Done?
    ensures TreeOk(Mkdir(t, path, c, none, recursive).value) <==> OnlyDirectoriesAbove(t, path)
  {
    hide EnsureParents, ParentOf;
    EnsureParentsShape(t, path, c, none);
    var w := Mkdir(t, path, c, none, recursive).value;
    if TreeOk(w) {
      forall a | a in t && Above(a, path) ensures t[a].kind == Directory {
        assert w[a] == t[a];
      }
    }
    if OnlyDirectoriesAbove(t, path) {
      forall p, a | p in w && Above(a, p) ensures a in w && w[a].kind == Directory {
        MkdirAncestor(t, path, c, none, recursive, p, a);
      }
    }
  }

  lemma MkdirAncestor<C>(t: Tree<C>, path: Path, c: Change, none: C, recursive: bool, p: Path, a: Path)
    requires TreeOk(t) && ValidPath(path) && Mkdir(t, path, c, none, recursive).Done? && OnlyDirectoriesAbove(t, path)
    requires p in Mkdir(t, path, c, none, recursive).value && Above(a, p)
    ensures var w := Mkdir(t, path, c, none, recursive).value; a in w && w[a].kind == Directory
  {
    hide EnsureParents, ParentOf;
    EnsureParentsShape(t, path, c, none);
    if p !in t {
      if p != path {
        AboveTransitive(a, p, path);
      } else if !recursive {
        ParentIsAbove(path);
      }
    }
  }

  /** Removing keeps the tree, without any condition. */
  lemma RemoveKeepsTree<C>(t: Tree<C>, path: Path, recursive: bool)
    requires TreeOk(t) && Remove(t, path, recursive).Done?
    ensures TreeOk(Remove(t, path, recursive).value)
    ensures var w := Remove(t, path, recursive).value;
      path !in w && (forall p | p in w :: p in t && w[p] == t[p] && !Above(path, p)) && forall p | p in t && p !in w :: Within(path, p)
  {
    hide Above;
    var w := Remove(t, path, recursive).value;
    forall p, a | p in w && Above(a, p) ensures a in w && w[a].kind == Directory {
      if Above(path, a) {
        AboveTransitive(path, a, p);
      }
    }
  }

  // ----- renaming

  lemma MovedIsInjective(from: Path, to: Path, p: Path, q: Path)
    requires Within(from, p) && Within(from, q) && Moved(from, to, p) == Moved(from, to, q)
    ensures p == q
  {
    assert p == from + p[|from|..] && q == from + q[|from|..];
    assert p[|from|..] == Moved(from, to, p)[|to|..] && q[|from|..] == Moved(from, to, q)[|to|..];
  }

  lemma MovedWithin(from: Path, to: Path, p: Path)
    requires Within(from, p)
    ensures Within(to, Moved(from, to, p)) && |Moved(from, to, p)| >= |to|
  {
    var q := Moved(from, to, p);
    assert q[..|to|] == to;
    if Above(from, p) {
      assert q[|to|] == p[|from|];
    }
  }

  /** Moving commutes with going up, inside the subtree. */
  lemma MovedAbove(from: Path, to: Path, p: Path, a: Path)
    requires Within(from, p) && Above(a, Moved(from, to, p)) && |a| >= |to|
    ensures Within(to, a) && Within(from, from + a[|to|..]) && Moved(from, to, from + a[|to|..]) == a && Above(from + a[|to|..], p)
  {
    var q, b := Moved(from, to, p), from + a[|to|..];
    assert q == to + p[|from|..];
    assert a == q[..|a|];
    assert a[..|to|] == to;
    assert a[|to|..] == p[|from|..][..|a| - |to|];
    assert p == from + p[|from|..];
    assert p[..|b|] == b;
    assert p[|b|] == q[|a|];
    if |a| > |to| {
      assert b[|from|] == p[|from|] == SLASH;
      assert a[|to|] == q[|to|] == p[|from|];
      assert b[..|from|] == from;
    }
  }

  lemma AboveMoved(from: Path, to: Path, p: Path, a: Path)
    requires Within(from, p) && Above(a, Moved(from, to, p)) && |a| < |to|
    ensures Above(a, to)
  {
    var q := Moved(from, to, p);
    assert q[..|a|] == to[..|a|] && q[|a|] == to[|a|];
  }

  lemma SubtreeIsOld<C>(t: Tree<C>, from: Path, to: Path, c: Change, none: C)
    requires from in t && !Above(from, to)
    ensures Subtree(EnsureParents(t, to, c, none), from) == Subtree(t, from)
  {
    hide EnsureParents, Above;
    var u := EnsureParents(t, to, c, none);
    EnsureParentsShape(t, to, c, none);
    forall p | p in u && Within(from, p) ensures p in t {
      if p !in t && Above(from, p) {
        AboveTransitive(from, p, to);
      }
    }
  }

  /** What a relocated tree holds: the moved entries under their new paths, everything else as it was. */
  lemma RelocatedShape<C>(u: Tree<C>, from: Path, to: Path, c: Change)
    requires forall q | q in Images(u, from, to) :: q !in u || q in Subtree(u, from)
    ensures var r := Relocated(u, from, to, c);
      (forall p | p in Subtree(u, from) :: Moved(from, to, p) in r && r[Moved(from, to, p)] == MovedNode(u[p], c))
      && (forall p | p in u && !Within(from, p) :: p in r && r[p] == u[p])
      && forall q | q in r :: (q in u && !Within(from, q)) || q in Images(u, from, to)
  {
    hide Within, Moved;
    var r := Relocated(u, from, to, c);
    forall p | p in Subtree(u, from) ensures Moved(from, to, p) in r && r[Moved(from, to, p)] == MovedNode(u[p], c) {
      var q := Moved(from, to, p);
      assert q in Images(u, from, to);
      OriginOf(u, from, to, p);
    }
  }

  lemma OriginOf<C>(u: Tree<C>, from: Path, to: Path, p: Path)
    requires p in Subtree(u, from)
    ensures Moved(from, to, p) in Images(u, from, to) && Origin(u, from, to, Moved(from, to, p)) == p
  {
    assert Moved(from, to, p) in Images(u, from, to);
    MovedIsInjective(from, to, p, Origin(u, from, to, Moved(from, to, p)));
  }

  /** A rename that passes its checks never collides. */
  lemma NoCollision<C>(t: Tree<C>, from: Path, to: Path, c: Change, none: C)
    requires TreeOk(t) && from in t && to !in t && from != to && !Above(from, to)
    ensures Move(t, from, to, c, none) == Done(Relocated(EnsureParents(t, to, c, none), from, to, c))
    ensures var u := EnsureParents(t, to, c, none); forall q | q in Images(u, from, to) :: q !in u
  {
    hide EnsureParents, Within, Relocated, Moved;
    var u := EnsureParents(t, to, c, none);
    EnsureParentsShape(t, to, c, none);
    forall q | q in Images(u, from, to) ensures q !in u {
      var p :| p in Subtree(u, from) && Moved(from, to, p) == q;
      MovedWithin(from, to, p);
      NotBelowFree(t, to, q);
    }
  }

  lemma NotBelowFree<C>(t: Tree<C>, to: Path, q: Path)
    requires TreeOk(t) && to !in t && Within(to, q)
    ensures q !in t && !Above(q, to)
  {
  }

  /** Renaming keeps the tree exactly when everything that exists above the new path is a directory. */
  lemma RenameKeepsTree<C>(t: Tree<C>, from: Path, to: Path, c: Change, none: C)
    requires TreeOk(t) && from in t && to !in t && from != to && !Above(from, to)
    ensures Rename(t, from, to, c, none).Done?
    ensures TreeOk(Rename(t, from, to, c, none).value) <==> OnlyDirectoriesAbove(t, to)
  {
    hide EnsureParents, Within, Relocated, Moved, Above, Move;
    NoCollision(t, from, to, c, none);
    var u := EnsureParents(t, to, c, none);
    var r := Relocated(u, from, to, c);
    EnsureParentsShape(t, to, c, none);
    RelocatedShape(u, from, to, c);
    if OnlyDirectoriesAbove(t, to) {
      forall q, a | q in r && Above(a, q) ensures a in r && r[a].kind == Directory {
        RenamedAncestor(t, from, to, c, none, q, a);
      }
    }
    if TreeOk(r) {
      forall a | a in t && Above(a, to) ensures t[a].kind == Directory {
        RenameTarget(t, from, to, c, none, a);
      }
    }
  }

  lemma RenameTarget<C>(t: Tree<C>, from: Path, to: Path, c: Change, none: C, a: Path)
    requires TreeOk(t) && from in t && to !in t && from != to && !Above(from, to) && Above(a, to) && a in t
    ensures var r := Relocated(EnsureParents(t, to, c, none), from, to, c); to in r && a in r && r[a] == t[a]
  {
    hide EnsureParents, Relocated;
    NoCollision(t, from, to, c, none);
    var u := EnsureParents(t, to, c, none);
    EnsureParentsShape(t, to, c, none);
    RelocatedShape(u, from, to, c);
    assert Moved(from, to, from) == to;
    assert from in Subtree(u, from);
    if Within(from, a) && a != from {
      AboveTransitive(from, a, to);
    }
  }

  lemma RenamedAncestor<C>(t: Tree<C>, from: Path, to: Path, c: Change, none: C, q: Path, a: Path)
    requires TreeOk(t) && from in t && to !in t && from != to && !Above(from, to) && OnlyDirectoriesAbove(t, to)
    requires q in Relocated(EnsureParents(t, to, c, none), from, to, c) && Above(a, q)
    ensures var r := Relocated(EnsureParents(t, to, c, none), from, to, c); a in r && r[a].kind == Directory
  {
    hide EnsureParents, Relocated, Above, Moved, Within;
    NoCollision(t, from, to, c, none);
    SubtreeIsOld(t, from, to, c, none);
    var u := EnsureParents(t, to, c, none);
    EnsureParentsShape(t, to, c, none);
    RelocatedShape(u, from, to, c);
    if q in Images(u, from, to) {
      var p :| p in Subtree(u, from) && Moved(from, to, p) == q;
      if |a| >= |to| {
        MovedAbove(from, to, p, a);
        assert from + a[|to|..] in Subtree(u, from);
      } else {
        AboveMoved(from, to, p, a);
        StaysAbove(t, from, to, c, none, a);
      }
    } else {
      if q !in t {
        AboveTransitive(a, q, to);
        StaysAbove(t, from, to, c, none, a);
      } else {
        assert a in t && t[a].kind == Directory;
        NotInside(from, a, q);
      }
    }
  }

  lemma NotInside(from: Path, a: Path, q: Path)
    requires Above(a, q) && !Within(from, q)
    ensures !Within(from, a)
  {
    if Above(from, a) {
      AboveTransitive(from, a, q);
    }
  }

  /** Ancestors of the new path are not part of the moved subtree. */
  lemma StaysAbove<C>(t: Tree<C>, from: Path, to: Path, c: Change, none: C, a: Path)
    requires !Above(from, to) && Above(a, to) && OnlyDirectoriesAbove(t, to)
    ensures var u := EnsureParents(t, to, c, none); a in u && u[a].kind == Directory && !Within(from, a)
  {
    hide EnsureParents, Above;
    EnsureParentsShape(t, to, c, none);
    if Above(from, a) {
      AboveTransitive(from, a, to);
    }
  }

  /**
   Renaming is a bijection of the subtree: every entry below `from` reappears below `to` with its object id, kind, size, type and content,
   one revision on and marked with the actor and the generation. Everything else stays as it was, and besides that only directories above
   `to` are new.
   */
  lemma RenameIsBijection<C>(t: Tree<C>, from: Path, to: Path, c: Change, none: C)
    requires TreeOk(t) && from in t && to !in t && from != to && !Above(from, to)
    ensures Rename(t, from, to, c, none).Done?
    ensures var r := Rename(t, from, to, c, none).value;
      (forall p | p in t && Within(from, p) :: p !in r && Moved(from, to, p) in r && SameObjectMoved(t[p], r[Moved(from, to, p)], c))
      && (forall p | p in t && !Within(from, p) :: p in r && r[p] == t[p])
      && (forall q | q in r && q !in t && !Within(to, q) :: Above(q, to) && EmptyDirectory(r[q], q, c, none))
      && (forall q | q in r && Within(to, q) :: Moved(to, from, q) in t && Within(from, Moved(to, from, q)) && Moved(from, to, Moved(to, from, q)) == q)
  {
    hide EnsureParents, Relocated, Above, Moved, Within, Move;
    NoCollision(t, from, to, c, none);
    SubtreeIsOld(t, from, to, c, none);
    var u := EnsureParents(t, to, c, none);
    var r := Relocated(u, from, to, c);
    EnsureParentsShape(t, to, c, none);
    RelocatedShape(u, from, to, c);
    forall p | p in t && Within(from, p)
      ensures p !in r && Moved(from, to, p) in r && SameObjectMoved(t[p], r[Moved(from, to, p)], c)
    {
      assert p in Subtree(u, from);
    }
    forall q | q in r && q !in t && !Within(to, q) ensures Above(q, to) && EmptyDirectory(r[q], q, c, none) {
      if q in Images(u, from, to) {
        var p :| p in Subtree(u, from) && Moved(from, to, p) == q;
        MovedWithin(from, to, p);
      }
    }
    forall q | q in r && Within(to, q)
      ensures Moved(to, from, q) in t && Within(from, Moved(to, from, q)) && Moved(from, to, Moved(to, from, q)) == q
    {
      NotBelowFree(t, to, q);
      assert q in Images(u, from, to);
      BackHome(u, from, to, q);
      InSubtree(u, t, from, Moved(to, from, q));
    }
  }

  lemma BackHome<C>(u: Tree<C>, from: Path, to: Path, q: Path)
    requires q in Images(u, from, to) && Within(to, q)
    ensures Moved(to, from, q) in u && Within(from, Moved(to, from, q)) && Moved(from, to, Moved(to, from, q)) == q
  {
    OriginIs(u, from, to, q);
  }

  lemma InSubtree<C>(u: Tree<C>, t: Tree<C>, from: Path, p: Path)
    requires Subtree(u, from) == Subtree(t, from) && p in u && Within(from, p)
    ensures p in Subtree(t, from)
  {
    hide Within;
    assert p in Subtree(u, from);
  }

  // ----- renaming inside a transaction, which has neither the self-nesting check nor the collision check

  ghost function TxRename<C>(t: Tree<C>, from: Path, to: Path, c: Change, none: C): Edit<Tree<C>> {
    if from !in t then Unchanged
    else if to in t then Refused
    else Done(Relocated(EnsureParents(t, to, c, none), from, to, c))
  }

  /** A transaction's rename keeps the tree exactly when it does not nest a subtree in itself and meets only directories. */
  lemma TxRenameKeepsTree<C>(t: Tree<C>, from: Path, to: Path, c: Change, none: C)
    requires TreeOk(t) && from in t && to !in t
    ensures TxRename(t, from, to, c, none).Done?
    ensures TreeOk(TxRename(t, from, to, c, none).value) <==> !Above(from, to) && OnlyDirectoriesAbove(t, to)
  {
    hide EnsureParents, Relocated, Above, Move, Within;
    if !Above(from, to) {
      NoCollision(t, from, to, c, none);
      RenameKeepsTree(t, from, to, c, none);
    } else {
      EnsureParentsShape(t, to, c, none);
      SelfNested(EnsureParents(t, to, c, none), from, to, c);
    }
  }

  lemma SelfNested<C>(u: Tree<C>, from: Path, to: Path, c: Change)
    requires Above(from, to) && from in u
    ensures !Present(Relocated(u, from, to, c)) && !TreeOk(Relocated(u, from, to, c))
  {
    var r := Relocated(u, from, to, c);
    assert from in Subtree(u, from) && Moved(from, to, from) == to;
    assert to in Images(u, from, to);
    if from in Images(u, from, to) {
      OriginIs(u, from, to, from);
    }
    assert to in r && from !in r;
  }

  /** A concrete loss: renaming "a" to "a/b" inside a transaction leaves "a/b" without its parent. */
  lemma SelfNestingLosesParent(c: Change)
    ensures var a: Path, b: Path := [97], [97, SLASH, 98];
      var t: Tree<bytes> := map[a := Node([1], Directory, 0, [], 1, None, 1, [])];
      TreeOk(t) && TxRename(t, a, b, c, []).Done? && !TreeOk(TxRename(t, a, b, c, []).value)
  {
    hide Relocated, EnsureParents;
    var a: Path, b: Path := [97], [97, SLASH, 98];
    var t: Tree<bytes> := map[a := Node([1], Directory, 0, [], 1, None, 1, [])];
    assert Above(a, b);
    TxRenameKeepsTree(t, a, b, c, []);
  }

  /** A concrete loss: writing "a" as a file while "a/b" exists leaves "a/b" below a file. */
  lemma WritingOverDirectoryBreaksTree(c: Change)
    ensures var a: Path, b: Path := [97], [97, SLASH, 98];
      var t: Tree<bytes> := map[a := Node([1], Directory, 0, [], 1, None, 1, []), b := Node([2], File, 0, [], 1, None, 1, [])];
      TreeOk(t) && !TreeOk(Write(t, a, c, [], 0, [], []))
  {
    hide EnsureParents, Write;
    var a: Path, b: Path := [97], [97, SLASH, 98];
    var t: Tree<bytes> := map[a := Node([1], Directory, 0, [], 1, None, 1, []), b := Node([2], File, 0, [], 1, None, 1, [])];
    assert Above(a, b);
    assert b[0] != SLASH && b[2] != SLASH && a[0] != SLASH;
    forall p, x | p in t && Above(x, p) ensures x == a {
    }
    assert TreeOk(t);
    WriteKeepsTree(t, a, c, [], 0, [], []);
  }

  // ----- any run of operations

  datatype TreeOp<C> =
    | WriteOp(path: Path, size: nat, mime: Key, content: C)
    | MkdirOp(path: Path, recursive: bool)
    | RemoveOp(path: Path, recursive: bool)
    | RenameOp(path: Path, to: Path)

  ghost function Apply<C>(t: Tree<C>, op: TreeOp<C>, c: Change, none: C): Tree<C> {
    match op
    case WriteOp(path, size, mime, content) => Write(t, path, c, none, size, mime, content)
    case MkdirOp(path, recursive) => var r := Mkdir(t, path, c, none, recursive); if r.Done? then r.value else t
    case RemoveOp(path, recursive) => var r := Remove(t, path, recursive); if r.Done? then r.value else t
    case RenameOp(path, to) => var r := Rename(t, path, to, c, none); if r.Done? then r.value else t
  }

  /** What a caller can check before an operation: the way to its path is free of files, and a write does not replace a filled directory. */
  ghost predicate Guarded<C>(t: Tree<C>, op: TreeOp<C>) {
    match op
    case WriteOp(path, _, _, _) => OnlyDirectoriesAbove(t, path) && NothingBelow(t, path)
    case MkdirOp(path, _) => ValidPath(path) && OnlyDirectoriesAbove(t, path)
    case RemoveOp(_, _) => true
    case RenameOp(_, to) => OnlyDirectoriesAbove(t, to)
  }

  lemma ApplyKeepsTree<C>(t: Tree<C>, op: TreeOp<C>, c: Change, none: C)
    requires TreeOk(t) && Guarded(t, op)
    ensures TreeOk(Apply(t, op, c, none))
  {
    hide Write, Mkdir, Remove, OnlyDirectoriesAbove, NothingBelow, TreeOk, Move;
    match op
    case WriteOp(path, size, mime, content) => WriteKeepsTree(t, path, c, none, size, mime, content);
    case MkdirOp(path, recursive) =>
      if Mkdir(t, path, c, none, recursive).Done? {
        MkdirKeepsTree(t, path, c, none, recursive);
      }
    case RemoveOp(path, recursive) =>
      if Remove(t, path, recursive).Done? {
        RemoveKeepsTree(t, path, recursive);
      }
    case RenameOp(path, to) =>
      if Rename(t, path, to, c, none).Done? {
        RenameKeepsTree(t, path, to, c, none);
      }
  }

  ghost function ApplyAll<C>(t: Tree<C>, ops: seq<(TreeOp<C>, Change)>, none: C): Tree<C> {
    if ops == [] then t else Apply(ApplyAll(t, ops[..|ops| - 1], none), ops[|ops| - 1].0, ops[|ops| - 1].1, none)
  }

  ghost predicate GuardedAll<C>(t: Tree<C>, ops: seq<(TreeOp<C>, Change)>, none: C) {
    forall i | 0 <= i < |ops| :: Guarded(ApplyAll(t, ops[..i], none), ops[i].0)
  }

  /** Any run of guarded operations keeps every ancestor present and a directory. */
  lemma {:induction false} RunKeepsTree<C>(t: Tree<C>, ops: seq<(TreeOp<C>, Change)>, none: C)
    requires TreeOk(t) && GuardedAll(t, ops, none)
    ensures TreeOk(ApplyAll(t, ops, none))
    decreases |ops|
  {
    hide TreeOk, Guarded, Apply;
    if ops != [] {
      var n := |ops| - 1;
      forall i | 0 <= i < n ensures Guarded(ApplyAll(t, ops[..n][..i], none), ops[..n][i].0) {
        assert ops[..n][..i] == ops[..i];
      }
      RunKeepsTree(t, ops[..n], none);
      ApplyKeepsTree(ApplyAll(t, ops[..n], none), ops[n].0, ops[n].1, none);
    }
  }

  // ----- the loops behind the functions

  /** The missing ancestors shorter than `i`. */
  function ParentsUpTo<C>(t: Tree<C>, path: Path, i: nat, c: Change, none: C): Tree<C> {
    t + map a | a in Ancestors(path) && a !in t && |a| < i :: NewDirectory(a, c, none)
  }

  lemma ParentsStep<C>(t: Tree<C>, path: Path, i: nat, c: Change, none: C)
    requires i < |path|
    ensures path[..i] in ParentsUpTo(t, path, i, c, none) <==> path[..i] in t
    ensures ParentsUpTo(t, path, i + 1, c, none) ==
      if path[i] == SLASH && path[..i] !in t then ParentsUpTo(t, path, i, c, none)[path[..i] := NewDirectory(path[..i], c, none)]
      else ParentsUpTo(t, path, i, c, none)
  {
    var u, v := ParentsUpTo(t, path, i, c, none), ParentsUpTo(t, path, i + 1, c, none);
    forall a | a in Ancestors(path) && a !in t && |a| < i + 1 ensures |a| < i || (a == path[..i] && path[i] == SLASH) {
    }
    if path[i] == SLASH {
      assert Above(path[..i], path);
    }
  }

  /** `ensureParents`: from the topmost ancestor down. */
  method AddParents<C>(t: Tree<C>, path: Path, c: Change, none: C) returns (r: Tree<C>)
    ensures r == EnsureParents(t, path, c, none)
  {
    hide ParentsUpTo, Ancestors, EnsureParents;
    r := t;
    var i := 0;
    NoParentsYet(t, path, c, none);
    while i < |path|
      invariant i <= |path| && r == ParentsUpTo(t, path, i, c, none)
    {
      ParentsStep(t, path, i, c, none);
      if path[i] == SLASH && path[..i] !in r {
        r := r[path[..i] := NewDirectory(path[..i], c, none)];
      }
      i := i + 1;
    }
    AllParents(t, path, c, none);
  }

  lemma NoParentsYet<C>(t: Tree<C>, path: Path, c: Change, none: C)
    ensures ParentsUpTo(t, path, 0, c, none) == t
  {
  }

  lemma AllParents<C>(t: Tree<C>, path: Path, c: Change, none: C)
    ensures ParentsUpTo(t, path, |path|, c, none) == EnsureParents(t, path, c, none)
  {
  }

  /** The deleting loop of `remove`. */
  method RemoveFrom<C>(t: Tree<C>, path: Path, recursive: bool) returns (r: Edit<Tree<C>>)
    ensures r == Remove(t, path, recursive)
  {
    hide Above;
    if path !in t {
      return Unchanged;
    }
    var u := t;
    if t[path].kind == Directory {
      var children := Below(t, path);
      if children != {} && !recursive {
        return Refused;
      }
      ghost var gone: set<Path> := {};
      while children != {}
        invariant children + gone == Below(t, path) && children !! gone && u == t - gone
        decreases children
      {
        var child :| child in children;
        u := u - {child};
        children, gone := children - {child}, gone + {child};
      }
      assert gone == Below(t, path);
    }
    assert u == t - (if t[path].kind == Directory then Below(t, path) else {});
    return Done(u - {path});
  }

  function ImagesOf(moved: set<Path>, from: Path, to: Path): set<Path>
    requires forall p | p in moved :: Within(from, p)
  {
    set p | p in moved :: Moved(from, to, p)
  }

  /** The tree with the subtree taken out and some of it put back. */
  ghost function Placed<C>(u: Tree<C>, from: Path, to: Path, c: Change, moved: set<Path>): Tree<C>
    requires moved <= Subtree(u, from)
  {
    (u - Subtree(u, from)) + map q | q in ImagesOf(moved, from, to) && q in Images(u, from, to) :: MovedNode(u[Origin(u, from, to, q)], c)
  }

  lemma PlacedStep<C>(u: Tree<C>, from: Path, to: Path, c: Change, moved: set<Path>, p: Path)
    requires moved <= Subtree(u, from) && p in Subtree(u, from) && p !in moved
    ensures var q := Moved(from, to, p);
      (q in Placed(u, from, to, c, moved) <==> q in u && q !in Subtree(u, from))
      && Placed(u, from, to, c, moved + {p}) == Placed(u, from, to, c, moved)[q := MovedNode(u[p], c)]
  {
    hide Within, Moved, Origin;
    var q := Moved(from, to, p);
    OriginOf(u, from, to, p);
    forall x | x in moved ensures Moved(from, to, x) != q {
      if Moved(from, to, x) == q {
        MovedIsInjective(from, to, x, p);
      }
    }
    assert ImagesOf(moved + {p}, from, to) == ImagesOf(moved, from, to) + {q};
  }

  lemma PlacedAll<C>(u: Tree<C>, from: Path, to: Path, c: Change)
    ensures Placed(u, from, to, c, Subtree(u, from)) == Relocated(u, from, to, c)
    ensures Placed(u, from, to, c, {}) == u - Subtree(u, from)
  {
    hide Within, Moved, Origin;
    assert ImagesOf(Subtree(u, from), from, to) == Images(u, from, to);
  }

  /** The moving loops of `rename`. */
  method MoveSubtree<C>(t: Tree<C>, from: Path, to: Path, c: Change, none: C) returns (r: Edit<Tree<C>>)
    ensures r == Move(t, from, to, c, none)
  {
    hide EnsureParents, Within, Moved, Relocated, Placed, Images;
    var u := AddParents(t, to, c, none);
    var moving := Subtree(u, from);
    var left, placed := moving, u;
    while left != {}
      invariant left <= moving && placed == u - (moving - left)
      decreases left
    {
      var p :| p in left;
      left, placed := left - {p}, placed - {p};
    }
    assert moving - left == Subtree(u, from);
    PlacedAll(u, from, to, c);
    left := moving;
    ghost var moved: set<Path> := {};
    while left != {}
      invariant left + moved == moving == Subtree(u, from) && left !! moved && placed == Placed(u, from, to, c, moved)
      invariant forall p | p in moved :: Moved(from, to, p) !in u || Moved(from, to, p) in moving
      decreases left
    {
      var p :| p in left;
      var q := Moved(from, to, p);
      PlacedStep(u, from, to, c, moved, p);
      if q in placed {
        assert q in Images(u, from, to) by { hide *; ImageOf(u, from, to, p); }
        return Refused;
      }
      placed := placed[q := MovedNode(u[p], c)];
      left, moved := left - {p}, moved + {p};
    }
    assert moved == Subtree(u, from);
    forall q | q in Images(u, from, to) ensures !(q in u && q !in Subtree(u, from)) {
      assert exists p :: p in moved && Moved(from, to, p) == q by { ImageFrom(u, from, to, q); }
    }
    return Done(placed);
  }

  /** The same loops in a transaction, where nothing that is met is an error. */
  method RelocateSubtree<C>(t: Tree<C>, from: Path, to: Path, c: Change, none: C) returns (placed: Tree<C>)
    ensures placed == Relocated(EnsureParents(t, to, c, none), from, to, c)
  {
    hide EnsureParents, Within, Moved, Relocated, Placed, Images;
    var u := AddParents(t, to, c, none);
    var moving := Subtree(u, from);
    var left := moving;
    placed := u;
    while left != {}
      invariant left <= moving && placed == u - (moving - left)
      decreases left
    {
      var p :| p in left;
      left, placed := left - {p}, placed - {p};
    }
    assert moving - left == Subtree(u, from);
    PlacedAll(u, from, to, c);
    left := moving;
    ghost var moved: set<Path> := {};
    while left != {}
      invariant left + moved == moving == Subtree(u, from) && left !! moved && placed == Placed(u, from, to, c, moved)
      decreases left
    {
      var p :| p in left;
      PlacedStep(u, from, to, c, moved, p);
      assert Within(from, p) by { hide *; ImageOf(u, from, to, p); }
      placed := placed[Moved(from, to, p) := MovedNode(u[p], c)];
      left, moved := left - {p}, moved + {p};
    }
    assert moved == Subtree(u, from);
  }

  lemma ImageOf<C>(u: Tree<C>, from: Path, to: Path, p: Path)
    requires p in Subtree(u, from)
    ensures Within(from, p) && Moved(from, to, p) in Images(u, from, to)
  {
  }

  lemma ImageFrom<C>(u: Tree<C>, from: Path, to: Path, q: Path)
    requires q in Images(u, from, to)
    ensures exists p :: p in Subtree(u, from) && Moved(from, to, p) == q
  {
  }
}
