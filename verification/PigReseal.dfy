/**
 Re-encrypting a realm: every chunk is opened with the old key and sealed again with the new one.
 */
module PigReseal {
  import opened Bytes
  import opened Keys
  import opened PigTree
  import opened PigPages
  import opened PigBuild
  import opened PigMeaning

  lemma ResealedReads(recs: Recs, v: Vault, aad: Aad, bytes: bytes, from: nat)
    requires Unlocked(v)
    ensures ReadData(recs + [DataRec(Seal(v, aad, bytes))], v, Chunk(from, |bytes|, |recs|, AadOf(v, aad))) == Some(bytes)
  {
  }

  /** What has been resealed of one file: the new chunks hold its first bytes under the new key, the rest is still to be read with the old one. */
  ghost predicate Resealing(recs: Recs, before: Vault, after: Vault, rest: seq<Chunk>, resealed: seq<Chunk>, pos: nat, file: bytes) {
    pos <= |file| && ChunkBytes(recs, before, rest, pos) == Some(file[pos..]) && ChunkBytes(recs, after, resealed, 0) == Some(file[..pos])
    && (rest == [] ==> pos == |file|)
  }

  lemma ResealStep(recs: Recs, before: Vault, after: Vault, chunks: seq<Chunk>, i: nat, resealed: seq<Chunk>, pos: nat, file: bytes, aad: Aad)
    requires i < |chunks| && Resealing(recs, before, after, chunks[i..], resealed, pos, file) && Unlocked(after)
    ensures ReadData(recs, before, chunks[i]).Some? && chunks[i].plainOffset == pos
    ensures var data := ReadData(recs, before, chunks[i]).value;
      Resealing(recs + [DataRec(Seal(after, aad, data))], before, after, chunks[i + 1..],
        resealed + [Chunk(pos, |data|, |recs|, AadOf(after, aad))], pos + |data|, file)
  {
    hide ReadData, Seal, AadOf, Unlocked, ChunkBytes;
    NextChunk(recs, before, chunks, i, pos, file);
    var data := ReadData(recs, before, chunks[i]).value;
    DataLength(recs, before, chunks[i]);
    var more := recs + [DataRec(Seal(after, aad, data))];
    ChunkBytesStay(recs, more, before, chunks[i + 1..], pos + |data|);
    ChunkBytesStay(recs, more, after, resealed, 0);
    ResealedReads(recs, after, aad, data, pos);
    ChunkBytesSnoc(more, after, resealed, 0, Chunk(pos, |data|, |recs|, AadOf(after, aad)));
    assert file[..pos] + data == file[..pos + |data|];
    if chunks[i + 1..] == [] {
      NothingLeft(more, before, pos + |data|);
    }
  }

  lemma NothingLeft(recs: Recs, v: Vault, from: nat)
    ensures ChunkBytes(recs, v, [], from) == Some([])
  {
  }

  /** One file; every new record is bound to its realm, generation, path and place. */
  method ResealFile(log: RecordLog, before: Vault, after: Vault, realm: Key, generation: nat, path: Path, pages: seq<MapPage>) returns (r: Option<seq<Chunk>>)
    requires Unlocked(after)
    modifies log
    ensures old(log.recs) <= log.recs
    ensures FileBytes(old(log.recs), before, pages).Some? ==>
      r.Some? && ChunkBytes(log.recs, after, r.value, 0) == FileBytes(old(log.recs), before, pages)
    ensures r.Some? ==> forall i | 0 <= i < |r.value| :: r.value[i].aad == AadOf(after, Aad(RekeyAad, realm, generation, path, i))
  {
    hide ReadData, Seal, AadOf, ChunkBytes, ListedChunks, SortChunks, Resealing, FileBytes;
    ghost var file := FileBytes(log.recs, before, pages);
    ghost var good := file.Some?;
    if good {
      StartResealing(log.recs, before, after, pages);
    }
    var loaded := LoadChunks(log.recs, before, pages);
    if loaded.None? {
      return None;
    }
    var chunks := loaded.value;
    var resealed: seq<Chunk> := [];
    ghost var pos: nat := 0;
    var i := 0;
    assert chunks[0..] == chunks;
    while i < |chunks|
      invariant i <= |chunks| && old(log.recs) <= log.recs
      invariant good ==> Resealing(log.recs, before, after, chunks[i..], resealed, pos, file.value)
      invariant |resealed| == i && forall k | 0 <= k < i :: resealed[k].aad == AadOf(after, Aad(RekeyAad, realm, generation, path, k))
    {
      var c := chunks[i];
      var aad := Aad(RekeyAad, realm, generation, path, i);
      if good {
        ResealStep(log.recs, before, after, chunks, i, resealed, pos, file.value, aad);
      }
      var plain := ReadData(log.recs, before, c);
      if plain.None? {
        return None;
      }
      var offset := log.Append(DataRec(Seal(after, aad, plain.value)));
      resealed := resealed + [Chunk(c.plainOffset, |plain.value|, offset, AadOf(after, aad))];
      pos := pos + |plain.value|;
      i := i + 1;
    }
    if good {
      EndResealing(log.recs, before, after, chunks[i..], resealed, pos, file.value);
    }
    return Some(resealed);
  }

  lemma StartResealing(recs: Recs, before: Vault, after: Vault, pages: seq<MapPage>)
    requires FileBytes(recs, before, pages).Some?
    ensures ListedChunks(recs, before, pages).Some?
    ensures Resealing(recs, before, after, SortChunks(ListedChunks(recs, before, pages).value), [], 0, FileBytes(recs, before, pages).value)
  {
    hide ReadData, ListedChunks, SortChunks;
    var chunks := ListedChunks(recs, before, pages).value;
    TiledIsAscending(recs, before, chunks, 0);
    AscendingIsSorted(chunks);
    var file := FileBytes(recs, before, pages).value;
    assert file[0..] == file && file[..0] == [];
  }

  lemma EndResealing(recs: Recs, before: Vault, after: Vault, rest: seq<Chunk>, resealed: seq<Chunk>, pos: nat, file: bytes)
    requires Resealing(recs, before, after, rest, resealed, pos, file) && rest == []
    ensures ChunkBytes(recs, after, resealed, 0) == Some(file)
  {
    assert file[..|file|] == file;
  }

  /** What has been resealed of a whole realm. */
  ghost predicate ResealedPart(recs: Recs, v: Vault, tree: Inodes, files: Tree<bytes>, done: set<Path>, rewrites: seq<Rewrite>) {
    && tree.Keys == files.Keys && done <= tree.Keys && RewritesOk(tree, rewrites)
    && (forall i | 0 <= i < |rewrites| :: rewrites[i].path in done)
    && forall p | p in done :: HoldsFile(recs, v, tree[p], Rewritten(rewrites, p), files[p])
  }

  lemma PartStays(recs: Recs, more: Recs, v: Vault, tree: Inodes, files: Tree<bytes>, done: set<Path>, rewrites: seq<Rewrite>)
    requires recs <= more && ResealedPart(recs, v, tree, files, done, rewrites)
    ensures ResealedPart(more, v, tree, files, done, rewrites)
  {
    hide ChunkBytes, FileBytes, RewritesOk;
    forall p | p in done ensures HoldsFile(more, v, tree[p], Rewritten(rewrites, p), files[p]) {
      var w := Rewritten(rewrites, p);
      if tree[p].kind == File {
        if w.Some? {
          ChunkBytesStay(recs, more, v, w.value, 0);
        } else {
          FileStays(recs, more, v, tree[p].content);
        }
      }
    }
  }

  lemma PartNext(recs: Recs, v: Vault, tree: Inodes, files: Tree<bytes>, done: set<Path>, rewrites: seq<Rewrite>, path: Path, chunks: seq<Chunk>)
    requires ResealedPart(recs, v, tree, files, done, rewrites) && path in tree && path !in done && tree[path].kind == File
    requires SameNode(tree[path], files[path]) && ChunkBytes(recs, v, chunks, 0) == Some(files[path].content) && |files[path].content| == tree[path].size
    ensures ResealedPart(recs, v, tree, files, done + {path}, rewrites + [Rewrite(path, chunks)])
  {
    hide ChunkBytes, FileBytes;
    var more := rewrites + [Rewrite(path, chunks)];
    assert more[..|rewrites|] == rewrites;
    forall p | p in done + {path} ensures HoldsFile(recs, v, tree[p], Rewritten(more, p), files[p]) {
      if p == path {
        RewrittenAt(more, |rewrites|);
      } else {
        assert Rewritten(more, p) == Rewritten(rewrites, p);
      }
    }
  }

  lemma PartSkip(recs: Recs, v: Vault, tree: Inodes, files: Tree<bytes>, done: set<Path>, rewrites: seq<Rewrite>, path: Path)
    requires ResealedPart(recs, v, tree, files, done, rewrites) && path in tree && path !in done && tree[path].kind != File
    requires SameNode(tree[path], files[path]) && files[path].content == []
    ensures ResealedPart(recs, v, tree, files, done + {path}, rewrites)
  {
    hide ChunkBytes, FileBytes, RewritesOk;
    NotRewritten(rewrites, path);
  }

  /** Every file of a realm: afterwards the same catalog with the new chunks stands for the same files, under the new key. */
  method ResealAll(log: RecordLog, before: Vault, after: Vault, realm: Key, generation: nat, tree: Inodes, ghost files: Tree<bytes>)
    returns (rewrites: seq<Rewrite>)
    requires Unlocked(after) && Represents(log.recs, before, tree, [], files)
    modifies log
    ensures old(log.recs) <= log.recs && Represents(old(log.recs), before, tree, [], files)
    ensures RewritesOk(tree, rewrites) && Represents(log.recs, after, tree, rewrites, files)
  {
    hide Represents, ResealedPart, HoldsFile, RewritesOk, ChunkBytes, FileBytes, SameNode;
    rewrites := [];
    var left := tree.Keys;
    ghost var done: set<Path> := {};
    RepresentsKeys(log.recs, before, tree, files);
    PartEmpty(log.recs, after, tree, files);
    while left != {}
      invariant left + done == tree.Keys && left !! done && old(log.recs) <= log.recs
      invariant Represents(log.recs, before, tree, [], files) && ResealedPart(log.recs, after, tree, files, done, rewrites)
      decreases left
    {
      var path :| path in left;
      RepresentsAt(log.recs, before, tree, files, path);
      HeldFile(log.recs, before, tree[path], files[path]);
      if tree[path].kind == File {
        ghost var recs := log.recs;
        var chunks := ResealFile(log, before, after, realm, generation, path, tree[path].content);
        PartStays(recs, log.recs, after, tree, files, done, rewrites);
        RewritesStay(recs, log.recs, before, tree, [], files);
        PartNext(log.recs, after, tree, files, done, rewrites, path, chunks.value);
        rewrites := rewrites + [Rewrite(path, chunks.value)];
      } else {
        PartSkip(log.recs, after, tree, files, done, rewrites, path);
      }
      left, done := left - {path}, done + {path};
    }
    PartAll(log.recs, after, tree, files, done, rewrites);
  }

  lemma PartEmpty(recs: Recs, v: Vault, tree: Inodes, files: Tree<bytes>)
    requires tree.Keys == files.Keys
    ensures ResealedPart(recs, v, tree, files, {}, [])
  {
  }

  lemma PartAll(recs: Recs, v: Vault, tree: Inodes, files: Tree<bytes>, done: set<Path>, rewrites: seq<Rewrite>)
    requires ResealedPart(recs, v, tree, files, done, rewrites) && done == tree.Keys
    ensures RewritesOk(tree, rewrites) && Represents(recs, v, tree, rewrites, files)
  {
    hide HoldsFile, RewritesOk;
  }

  lemma HeldFile(recs: Recs, v: Vault, n: Inode, m: Node<bytes>)
    requires HoldsFile(recs, v, n, None, m)
    ensures n.kind == File ==> FileBytes(recs, v, n.content) == Some(m.content) && |m.content| == n.size
    ensures n.kind != File ==> m.content == []
  {
  }

  // ----- nothing of the new catalog opens with another key

  /** No catalog page of a realm that is stored under one key can be read with another. */
  lemma {:induction false} OtherKeyOpensNoCatalog(recs: Recs, key: SymKey, other: SymKey, pages: seq<CatalogPage>, page: CatalogPage)
    requires ListedRows(recs, Vault(true, Some(key)), pages).Some? && page in pages && other != key
    ensures ReadCatalog(recs, Vault(true, Some(other)), page).None?
    decreases |pages|
  {
    if page != pages[|pages| - 1] {
      OtherKeyOpensNoCatalog(recs, key, other, pages[..|pages| - 1], page);
    }
  }

  /** Nor any map page of its files. */
  lemma {:induction false} OtherKeyOpensNoMap(recs: Recs, key: SymKey, other: SymKey, pages: seq<MapPage>, page: MapPage)
    requires ListedChunks(recs, Vault(true, Some(key)), pages).Some? && page in pages && other != key
    ensures ReadMap(recs, Vault(true, Some(other)), page).None?
    decreases |pages|
  {
    if page != pages[|pages| - 1] {
      OtherKeyOpensNoMap(recs, key, other, pages[..|pages| - 1], page);
    }
  }

  /** Nor any data record of its chunks. */
  lemma {:induction false} OtherKeyOpensNoData(recs: Recs, key: SymKey, other: SymKey, chunks: seq<Chunk>, from: nat, c: Chunk)
    requires ChunkBytes(recs, Vault(true, Some(key)), chunks, from).Some? && c in chunks && other != key
    ensures ReadData(recs, Vault(true, Some(other)), c).None?
    decreases |chunks|
  {
    if c != chunks[0] {
      OtherKeyOpensNoData(recs, key, other, chunks[1..], from + chunks[0].plainLength, c);
    }
  }

  /** Nothing of one file opens with the other key. */
  ghost predicate FileClosed(recs: Recs, key: SymKey, other: SymKey, pages: seq<MapPage>) {
    (forall page | page in pages :: ReadMap(recs, Vault(true, Some(other)), page).None?)
    && ListedChunks(recs, Vault(true, Some(key)), pages).Some?
    && forall c | c in ListedChunks(recs, Vault(true, Some(key)), pages).value :: ReadData(recs, Vault(true, Some(other)), c).None?
  }

  /** Nothing of a whole realm opens with the other key: no catalog page, and of no file any map page or data record. */
  ghost predicate Closed(recs: Recs, key: SymKey, other: SymKey, pages: seq<CatalogPage>) {
    (forall page | page in pages :: ReadCatalog(recs, Vault(true, Some(other)), page).None?)
    && ListedRows(recs, Vault(true, Some(key)), pages).Some?
    && var tree := TreeOf(ListedRows(recs, Vault(true, Some(key)), pages).value);
      forall p | p in tree && tree[p].kind == File :: FileClosed(recs, key, other, tree[p].content)
  }

  lemma FileOpensOnlyWith(recs: Recs, key: SymKey, other: SymKey, n: Inode, m: Node<bytes>)
    requires HoldsFile(recs, Vault(true, Some(key)), n, None, m) && n.kind == File && other != key
    ensures FileClosed(recs, key, other, n.content)
  {
    hide ReadMap, ReadData, ListedChunks, ChunkBytes;
    var v := Vault(true, Some(key));
    forall page | page in n.content ensures ReadMap(recs, Vault(true, Some(other)), page).None? {
      OtherKeyOpensNoMap(recs, key, other, n.content, page);
    }
    var chunks := ListedChunks(recs, v, n.content).value;
    forall c | c in chunks ensures ReadData(recs, Vault(true, Some(other)), c).None? {
      OtherKeyOpensNoData(recs, key, other, chunks, 0, c);
    }
  }

  /** What is stored under one key opens with no other. */
  lemma OpensOnlyWithKey(recs: Recs, key: SymKey, other: SymKey, pages: seq<CatalogPage>, files: Tree<bytes>)
    requires Stores(recs, Vault(true, Some(key)), pages, files) && other != key
    ensures Closed(recs, key, other, pages)
  {
    hide ReadCatalog, ListedRows, TreeOf, HoldsFile, DistinctPaths, FileClosed;
    forall page | page in pages ensures ReadCatalog(recs, Vault(true, Some(other)), page).None? {
      OtherKeyOpensNoCatalog(recs, key, other, pages, page);
    }
    var tree := TreeOf(ListedRows(recs, Vault(true, Some(key)), pages).value);
    forall p | p in tree && tree[p].kind == File ensures FileClosed(recs, key, other, tree[p].content) {
      assert HoldsFile(recs, Vault(true, Some(key)), tree[p], Rewritten([], p), files[p]);
      FileOpensOnlyWith(recs, key, other, tree[p], files[p]);
    }
  }
}
