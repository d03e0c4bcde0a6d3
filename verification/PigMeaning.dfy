/**
 Editing a catalog and editing the files it stands for are the same thing.
 */
module PigMeaning {
  import opened Bytes
  import opened PigTree
  import opened PigPages
  import opened PigBuild

  type Inodes = Tree<seq<MapPage>>

  lemma RepresentsAt(recs: Recs, v: Vault, tree: Inodes, files: Tree<bytes>, p: Path)
    requires Represents(recs, v, tree, [], files) && p in tree
    ensures p in files && SameNode(tree[p], files[p]) && HoldsFile(recs, v, tree[p], None, files[p])
  {
    hide HoldsFile;
    assert HoldsFile(recs, v, tree[p], Rewritten([], p), files[p]);
    NodeOf(recs, v, tree[p], None, files[p]);
  }

  lemma NodeOf(recs: Recs, v: Vault, n: Inode, w: Option<seq<Chunk>>, m: Node<bytes>)
    requires HoldsFile(recs, v, n, w, m)
    ensures SameNode(n, m)
  {
  }

  lemma ParentsRepresent(recs: Recs, v: Vault, tree: Inodes, files: Tree<bytes>, path: Path, c: Change)
    requires Represents(recs, v, tree, [], files)
    ensures Represents(recs, v, EnsureParents(tree, path, c, []), [], EnsureParents(files, path, c, []))
  {
    hide Ancestors, FileBytes, ChunkBytes;
    var t, f := EnsureParents(tree, path, c, []), EnsureParents(files, path, c, []);
    forall p | p in t ensures HoldsFile(recs, v, t[p], Rewritten([], p), f[p]) {
      if p in tree {
        assert HoldsFile(recs, v, tree[p], Rewritten([], p), files[p]);
      }
    }
  }

  /** A write: the entry gets its new chunks, the file its new contents. */
  lemma WriteRepresents(recs: Recs, v: Vault, tree: Inodes, files: Tree<bytes>, path: Path, c: Change, mime: Path, chunks: seq<Chunk>, data: bytes)
    requires Represents(recs, v, tree, [], files) && ChunkBytes(recs, v, chunks, 0) == Some(data)
    ensures Represents(recs, v, Write(tree, path, c, [], |data|, mime, []), [Rewrite(path, chunks)], Write(files, path, c, [], |data|, mime, data))
    ensures RewritesOk(Write(tree, path, c, [], |data|, mime, []), [Rewrite(path, chunks)])
  {
    hide EnsureParents, FileBytes, ChunkBytes;
    ParentsRepresent(recs, v, tree, files, path, c);
    var t, f := EnsureParents(tree, path, c, []), EnsureParents(files, path, c, []);
    var w, g := Write(tree, path, c, [], |data|, mime, []), Write(files, path, c, [], |data|, mime, data);
    var rewrites := [Rewrite(path, chunks)];
    assert rewrites[..0] == [];
    forall p | p in w ensures HoldsFile(recs, v, w[p], Rewritten(rewrites, p), g[p]) {
      if p == path {
        RewrittenAt(rewrites, 0);
        if path in t {
          RepresentsAt(recs, v, t, f, path);
        }
      } else {
        NotRewritten(rewrites, p);
        assert HoldsFile(recs, v, t[p], Rewritten([], p), f[p]);
      }
    }
  }

  lemma MkdirRepresents(recs: Recs, v: Vault, tree: Inodes, files: Tree<bytes>, path: Path, c: Change, recursive: bool)
    requires Represents(recs, v, tree, [], files)
    ensures Mkdir(tree, path, c, [], recursive).Done? <==> Mkdir(files, path, c, [], recursive).Done?
    ensures Mkdir(tree, path, c, [], recursive).Refused? <==> Mkdir(files, path, c, [], recursive).Refused?
    ensures Mkdir(tree, path, c, [], recursive).Done? ==>
      Represents(recs, v, Mkdir(tree, path, c, [], recursive).value, [], Mkdir(files, path, c, [], recursive).value)
  {
    hide EnsureParents, FileBytes, ChunkBytes, ParentOf;
    ParentsRepresent(recs, v, tree, files, path, c);
    if path in tree {
      RepresentsAt(recs, v, tree, files, path);
    } else if Mkdir(tree, path, c, [], recursive).Done? {
      var t, f := if recursive then EnsureParents(tree, path, c, []) else tree, if recursive then EnsureParents(files, path, c, []) else files;
      PutDirectory(recs, v, t, f, path, c);
    }
  }

  lemma PutDirectory(recs: Recs, v: Vault, tree: Inodes, files: Tree<bytes>, path: Path, c: Change)
    requires Represents(recs, v, tree, [], files)
    ensures Represents(recs, v, tree[path := NewDirectory(path, c, [])], [], files[path := NewDirectory(path, c, [])])
  {
    hide FileBytes, ChunkBytes;
    var t, f := tree[path := NewDirectory(path, c, [])], files[path := NewDirectory(path, c, [])];
    forall p | p in t ensures HoldsFile(recs, v, t[p], Rewritten([], p), f[p]) {
      if p != path {
        assert HoldsFile(recs, v, tree[p], Rewritten([], p), files[p]);
      }
    }
  }

  lemma RemoveRepresents(recs: Recs, v: Vault, tree: Inodes, files: Tree<bytes>, path: Path, recursive: bool)
    requires Represents(recs, v, tree, [], files)
    ensures Remove(tree, path, recursive).Done? <==> Remove(files, path, recursive).Done?
    ensures Remove(tree, path, recursive).Refused? <==> Remove(files, path, recursive).Refused?
    ensures Remove(tree, path, recursive).Done? ==> Represents(recs, v, Remove(tree, path, recursive).value, [], Remove(files, path, recursive).value)
  {
    hide FileBytes, ChunkBytes, Above;
    assert Below(tree, path) == Below(files, path);
    if path in tree {
      RepresentsAt(recs, v, tree, files, path);
    }
    if Remove(tree, path, recursive).Done? {
      var t, f := Remove(tree, path, recursive).value, Remove(files, path, recursive).value;
      forall p | p in t ensures HoldsFile(recs, v, t[p], Rewritten([], p), f[p]) {
        assert HoldsFile(recs, v, tree[p], Rewritten([], p), files[p]);
      }
    }
  }

  lemma SameImages(tree: Inodes, files: Tree<bytes>, from: Path, to: Path)
    requires tree.Keys == files.Keys
    ensures Subtree(tree, from) == Subtree(files, from) && Images(tree, from, to) == Images(files, from, to)
    ensures forall q | q in Images(tree, from, to) :: Origin(tree, from, to, q) == Origin(files, from, to, q)
  {
    hide Within, Moved;
    assert Subtree(tree, from) == Subtree(files, from);
  }

  lemma RelocatedAt<C>(u: Tree<C>, from: Path, to: Path, c: Change, q: Path)
    ensures q in Relocated(u, from, to, c) <==> q in Images(u, from, to) || (q in u && q !in Subtree(u, from))
    ensures q in Images(u, from, to) ==> Origin(u, from, to, q) in u && Relocated(u, from, to, c)[q] == MovedNode(u[Origin(u, from, to, q)], c)
    ensures q in Relocated(u, from, to, c) && q !in Images(u, from, to) ==> q in u && Relocated(u, from, to, c)[q] == u[q]
  {
    hide Images, Subtree, Origin;
  }

  lemma MovedHolds(recs: Recs, v: Vault, n: Inode, m: Node<bytes>, c: Change)
    requires HoldsFile(recs, v, n, None, m)
    ensures HoldsFile(recs, v, MovedNode(n, c), None, MovedNode(m, c))
  {
    hide FileBytes, ChunkBytes;
  }

  lemma RelocatedRepresents(recs: Recs, v: Vault, tree: Inodes, files: Tree<bytes>, from: Path, to: Path, c: Change)
    requires Represents(recs, v, tree, [], files)
    ensures Represents(recs, v, Relocated(tree, from, to, c), [], Relocated(files, from, to, c))
  {
    hide HoldsFile, Images, Subtree, Origin, Relocated, MovedNode;
    SameImages(tree, files, from, to);
    var t, f := Relocated(tree, from, to, c), Relocated(files, from, to, c);
    forall q ensures q in t <==> q in f {
      RelocatedAt(tree, from, to, c, q);
      RelocatedAt(files, from, to, c, q);
    }
    forall q | q in t ensures HoldsFile(recs, v, t[q], Rewritten([], q), f[q]) {
      RelocatedAt(tree, from, to, c, q);
      RelocatedAt(files, from, to, c, q);
      var p := if q in Images(tree, from, to) then Origin(tree, from, to, q) else q;
      RepresentsAt(recs, v, tree, files, p);
      if q in Images(tree, from, to) {
        MovedHolds(recs, v, tree[p], files[p], c);
      }
    }
  }

  lemma RenameRepresents(recs: Recs, v: Vault, tree: Inodes, files: Tree<bytes>, from: Path, to: Path, c: Change)
    requires Represents(recs, v, tree, [], files)
    ensures Rename(tree, from, to, c, []).Done? <==> Rename(files, from, to, c, []).Done?
    ensures Rename(tree, from, to, c, []).Refused? <==> Rename(files, from, to, c, []).Refused?
    ensures Rename(tree, from, to, c, []).Done? ==> Represents(recs, v, Rename(tree, from, to, c, []).value, [], Rename(files, from, to, c, []).value)
  {
    hide EnsureParents, Relocated, Images, Subtree, Represents, Above;
    ParentsRepresent(recs, v, tree, files, to, c);
    RepresentsKeys(recs, v, tree, files);
    var t, f := EnsureParents(tree, to, c, []), EnsureParents(files, to, c, []);
    RepresentsKeys(recs, v, t, f);
    SameImages(t, f, from, to);
    RelocatedRepresents(recs, v, t, f, from, to, c);
  }

  lemma RepresentsKeys(recs: Recs, v: Vault, tree: Inodes, files: Tree<bytes>)
    requires Represents(recs, v, tree, [], files)
    ensures tree.Keys == files.Keys
  {
  }
}
