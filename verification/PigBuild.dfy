/**
 Writing a realm: metadata cut into pages, every page one record, and what the result reads back as.
 */
module PigBuild {
  import opened Bytes
  import opened Keys
  import opened SortedEntries
  import opened PigTree
  import opened JsonPages
  import opened PigPages
  import Records

  /** The record arena, addressed by append position. */
  class RecordLog {
    var recs: Recs

    constructor ()
      ensures recs == []
    {
      recs := [];
    }

    method Append(r: Rec) returns (offset: nat)
      modifies this
      ensures recs == old(recs) + [r] && offset == |old(recs)|
    {
      offset := |recs|;
      recs := recs + [r];
    }
  }

  /** How long the encoded form of a list of items is. An item is not longer than a list that contains it. */
  datatype Sizes = Sizes(rows: seq<Row> -> int, chunks: seq<Chunk> -> int)

  ghost predicate Monotone<T(!new)>(encodedSize: seq<T> -> int) {
    forall page: seq<T>, i {:trigger encodedSize([page[i]]), encodedSize(page)} | 0 <= i < |page| :: encodedSize([page[i]]) <= encodedSize(page)
  }

  ghost predicate Sane(sizes: Sizes) { Monotone(sizes.rows) && Monotone(sizes.chunks) }

  predicate AllFit<T>(encodedSize: seq<T> -> int, items: seq<T>) {
    forall i | 0 <= i < |items| :: encodedSize([items[i]]) <= Records.MAX_PAYLOAD
  }

  lemma {:induction false} PageFits<T(!new)>(encodedSize: seq<T> -> int, target: int, pages: seq<seq<T>>, k: nat)
    requires Monotone(encodedSize) && target < Records.MAX_PAYLOAD && k < |pages|
    requires forall i | 0 <= i < |pages| :: Fits(encodedSize, target, pages[i])
    ensures AllFit(encodedSize, Flatten(pages)) ==> encodedSize(pages[k]) <= Records.MAX_PAYLOAD
    ensures encodedSize(pages[k]) > Records.MAX_PAYLOAD ==> !AllFit(encodedSize, Flatten(pages))
    decreases |pages|
  {
    var n := |pages| - 1;
    var front := Flatten(pages[..n]);
    assert Flatten(pages) == front + pages[n];
    if k < n {
      PageFits(encodedSize, target, pages[..n], k);
      if AllFit(encodedSize, Flatten(pages)) {
        forall i | 0 <= i < |front| ensures encodedSize([front[i]]) <= Records.MAX_PAYLOAD {
          assert front[i] == Flatten(pages)[i];
        }
      }
    } else if AllFit(encodedSize, Flatten(pages)) && |pages[n]| == 1 {
      assert Flatten(pages)[|front|] == pages[n][0];
      assert pages[n] == [pages[n][0]];
    }
  }

  /** When every page has been written, every item fits. */
  lemma {:induction false} PagesFit<T(!new)>(encodedSize: seq<T> -> int, pages: seq<seq<T>>)
    requires Monotone(encodedSize) && forall i | 0 <= i < |pages| :: encodedSize(pages[i]) <= Records.MAX_PAYLOAD
    ensures AllFit(encodedSize, Flatten(pages))
    decreases |pages|
  {
    if pages != [] {
      var n := |pages| - 1;
      PagesFit(encodedSize, pages[..n]);
      var front := Flatten(pages[..n]);
      forall i | 0 <= i < |Flatten(pages)| ensures encodedSize([Flatten(pages)[i]]) <= Records.MAX_PAYLOAD {
        assert Flatten(pages)[i] == if i < |front| then front[i] else pages[n][i - |front|];
      }
    }
  }

  // ----- map pages

  lemma SealedMapReads(recs: Recs, v: Vault, aad: Aad, chunks: seq<Chunk>)
    requires Unlocked(v)
    ensures ReadMap(recs + [MapRec(Seal(v, aad, chunks))], v, MapPage(|recs|, |chunks|, AadOf(v, aad))) == Some(chunks)
  {
  }

  lemma SealedCatalogReads(recs: Recs, v: Vault, aad: Aad, rows: seq<Row>, first: Option<Path>, last: Option<Path>)
    requires Unlocked(v)
    ensures ReadCatalog(recs + [CatalogRec(Seal(v, aad, rows))], v, CatalogPage(|recs|, first, last, AadOf(v, aad))) == Some(rows)
  {
  }

  lemma ListedSnoc(recs: Recs, v: Vault, pages: seq<MapPage>, page: MapPage)
    requires ListedChunks(recs, v, pages).Some? && ReadMap(recs, v, page).Some?
    ensures ListedChunks(recs, v, pages + [page]) == Some(ListedChunks(recs, v, pages).value + ReadMap(recs, v, page).value)
  {
    hide ReadMap;
    assert (pages + [page])[..|pages|] == pages;
  }

  lemma RowsSnoc(recs: Recs, v: Vault, pages: seq<CatalogPage>, page: CatalogPage)
    requires ListedRows(recs, v, pages).Some? && ReadCatalog(recs, v, page).Some?
    ensures ListedRows(recs, v, pages + [page]) == Some(ListedRows(recs, v, pages).value + ReadCatalog(recs, v, page).value)
  {
    hide ReadCatalog;
    assert (pages + [page])[..|pages|] == pages;
  }

  /**
   The map pages of one file, each bound to its realm, generation, path and place. It fails exactly when the realm is locked or a single chunk
   record is too large.
   */
  method WriteMap(log: RecordLog, v: Vault, sizes: Sizes, realm: Key, generation: nat, path: Path, chunks: seq<Chunk>) returns (r: Option<seq<MapPage>>)
    requires Sane(sizes)
    modifies log
    ensures old(log.recs) <= log.recs
    ensures r.Some? <==> (chunks == [] || Unlocked(v)) && AllFit(sizes.chunks, chunks)
    ensures r.Some? ==> ListedChunks(log.recs, v, r.value) == Some(chunks)
    ensures r.Some? ==> forall i | 0 <= i < |r.value| :: r.value[i].aad == AadOf(v, Aad(MapAad, realm, generation, path, i))
  {
    hide ReadMap, ListedChunks, Monotone, AllFit, Seal, Greedy, Fits, Flatten, Unlocked;
    assert ListedChunks(log.recs, v, []) == Some([]) by { hide *; NoChunks(log.recs, v); }
    var groups := SplitJsonItems(chunks, sizes.chunks, PAGE_TARGET);
    if groups.None? {
      FirstDoesNotFit(sizes.chunks, chunks);
      return None;
    }
    var parts := groups.value;
    if !Unlocked(v) && parts != [] {
      SomePage(sizes.chunks, PAGE_TARGET, parts);
      return None;
    }
    var pages: seq<MapPage> := [];
    var i := 0;
    TakeNone(parts);
    while i < |parts|
      invariant i <= |parts| && old(log.recs) <= log.recs
      invariant ListedChunks(log.recs, v, pages) == Some(Flatten(parts[..i]))
      invariant |pages| == i && forall k | 0 <= k < i :: pages[k].aad == AadOf(v, Aad(MapAad, realm, generation, path, k))
      invariant forall k | 0 <= k < i :: sizes.chunks(parts[k]) <= Records.MAX_PAYLOAD
    {
      var part := parts[i];
      PageFits(sizes.chunks, PAGE_TARGET, parts, i);
      if sizes.chunks(part) > Records.MAX_PAYLOAD {
        return None;
      }
      var aad := Aad(MapAad, realm, generation, path, i);
      SealedMapReads(log.recs, v, aad, part);
      ghost var before := log.recs;
      var offset := log.Append(MapRec(Seal(v, aad, part)));
      var page := MapPage(offset, |part|, AadOf(v, aad));
      ChunksStay(before, log.recs, v, pages);
      ListedSnoc(log.recs, v, pages, page);
      TakeMore(parts, i);
      pages := pages + [page];
      i := i + 1;
    }
    TakeAll(parts);
    PagesFit(sizes.chunks, parts);
    NothingToWrite(sizes.chunks, PAGE_TARGET, parts);
    return Some(pages);
  }

  lemma NoChunks(recs: Recs, v: Vault)
    ensures ListedChunks(recs, v, []) == Some([])
  {
  }

  lemma FirstDoesNotFit<T>(encodedSize: seq<T> -> int, items: seq<T>)
    requires items != [] && encodedSize([items[0]]) > Records.MAX_PAYLOAD
    ensures !AllFit(encodedSize, items)
  {
  }

  lemma FitsSome<T>(encodedSize: seq<T> -> int, target: int, part: seq<T>)
    requires Fits(encodedSize, target, part)
    ensures part != []
  {
  }

  lemma SomePage<T>(encodedSize: seq<T> -> int, target: int, parts: seq<seq<T>>)
    requires parts != [] && forall i | 0 <= i < |parts| :: Fits(encodedSize, target, parts[i])
    ensures Flatten(parts) != []
  {
  }

  lemma NothingToWrite<T>(encodedSize: seq<T> -> int, target: int, parts: seq<seq<T>>)
    ensures parts == [] ==> Flatten(parts) == []
  {
  }

  lemma TakeNone<T>(parts: seq<seq<T>>)
    ensures Flatten(parts[..0]) == []
  {
  }

  lemma TakeMore<T>(parts: seq<seq<T>>, i: nat)
    requires i < |parts|
    ensures Flatten(parts[..i + 1]) == Flatten(parts[..i]) + parts[i]
  {
    assert parts[..i + 1][..i] == parts[..i];
  }

  lemma TakeAll<T>(parts: seq<seq<T>>)
    ensures Flatten(parts[..|parts|]) == Flatten(parts)
  {
    assert parts[..|parts|] == parts;
  }

  // ----- catalog pages

  /** What the entry of a catalog page tells about it: on an unsealed page the first and the last path, on a sealed one nothing. */
  ghost predicate WellHinted(recs: Recs, v: Vault, page: CatalogPage) {
    if v.sealed then page.first.None? && page.last.None?
    else
      var rows := ReadCatalog(recs, v, page);
      rows.Some? && rows.value != [] && page.first == Some(rows.value[0].key) && page.last == Some(rows.value[|rows.value| - 1].key)
  }

  lemma HintStays(recs: Recs, more: Recs, v: Vault, page: CatalogPage)
    requires recs <= more && WellHinted(recs, v, page)
    ensures WellHinted(more, v, page)
  {
  }

  lemma HintsAreRight(recs: Recs, v: Vault, page: CatalogPage, part: seq<Row>)
    requires part != [] && ReadCatalog(recs, v, page) == Some(part) && page.first == FirstHint(v, part) && page.last == LastHint(v, part)
    ensures WellHinted(recs, v, page)
  {
  }

  /**
   The catalog pages of a sorted listing, each bound to its realm, generation and place, with hints on unsealed pages. It fails exactly as
   `WriteMap` does.
   */
  method WriteCatalog(log: RecordLog, v: Vault, sizes: Sizes, realm: Key, generation: nat, rows: seq<Row>) returns (r: Option<seq<CatalogPage>>)
    requires Sane(sizes)
    modifies log
    ensures old(log.recs) <= log.recs
    ensures r.Some? <==> (rows == [] || Unlocked(v)) && AllFit(sizes.rows, rows)
    ensures r.Some? ==> ListedRows(log.recs, v, r.value) == Some(rows) && forall i | 0 <= i < |r.value| :: r.value[i].aad.Some? <==> v.sealed
    ensures r.Some? ==> (r.value == [] <==> rows == []) && forall i | 0 <= i < |r.value| :: r.value[i].recordOffset >= |old(log.recs)|
    ensures r.Some? ==> forall i | 0 <= i < |r.value| :: r.value[i].aad == AadOf(v, Aad(CatalogAad, realm, generation, [], i))
    ensures r.Some? ==> forall i | 0 <= i < |r.value| :: WellHinted(log.recs, v, r.value[i])
  {
    hide WellHinted, FirstHint, LastHint, ReadCatalog, ListedRows, Monotone, AllFit, Seal, Greedy, Fits, Flatten, Unlocked;
    assert ListedRows(log.recs, v, []) == Some([]) by { hide *; NoRows(log.recs, v); }
    var groups := SplitJsonItems(rows, sizes.rows, PAGE_TARGET);
    if groups.None? {
      FirstDoesNotFit(sizes.rows, rows);
      return None;
    }
    var parts := groups.value;
    if !Unlocked(v) && parts != [] {
      SomePage(sizes.rows, PAGE_TARGET, parts);
      return None;
    }
    var pages: seq<CatalogPage> := [];
    var i := 0;
    TakeNone(parts);
    while i < |parts|
      invariant i <= |parts| && old(log.recs) <= log.recs
      invariant ListedRows(log.recs, v, pages) == Some(Flatten(parts[..i]))
      invariant |pages| == i && forall k | 0 <= k < |pages| :: pages[k].aad.Some? <==> v.sealed
      invariant forall k | 0 <= k < |pages| :: pages[k].aad == AadOf(v, Aad(CatalogAad, realm, generation, [], k))
      invariant forall k | 0 <= k < |pages| :: WellHinted(log.recs, v, pages[k])
      invariant forall k | 0 <= k < |pages| :: pages[k].recordOffset >= |old(log.recs)|
      invariant forall k | 0 <= k < i :: sizes.rows(parts[k]) <= Records.MAX_PAYLOAD
    {
      var part := parts[i];
      PageFits(sizes.rows, PAGE_TARGET, parts, i);
      if sizes.rows(part) > Records.MAX_PAYLOAD {
        return None;
      }
      var aad := Aad(CatalogAad, realm, generation, [], i);
      var first, last := FirstHint(v, part), LastHint(v, part);
      SealedCatalogReads(log.recs, v, aad, part, first, last);
      ghost var before := log.recs;
      var offset := log.Append(CatalogRec(Seal(v, aad, part)));
      var page := CatalogPage(offset, first, last, AadOf(v, aad));
      RowsStay(before, log.recs, v, pages);
      RowsSnoc(log.recs, v, pages, page);
      FitsSome(sizes.rows, PAGE_TARGET, part);
      HintsAreRight(log.recs, v, page, part);
      forall k | 0 <= k < |pages| ensures WellHinted(log.recs, v, pages[k]) {
        HintStays(before, log.recs, v, pages[k]);
      }
      TakeMore(parts, i);
      pages := pages + [page];
      i := i + 1;
    }
    TakeAll(parts);
    PagesFit(sizes.rows, parts);
    NothingToWrite(sizes.rows, PAGE_TARGET, parts);
    if parts != [] {
      SomePage(sizes.rows, PAGE_TARGET, parts);
    }
    return Some(pages);
  }

  lemma NoRows(recs: Recs, v: Vault)
    ensures ListedRows(recs, v, []) == Some([])
  {
  }

  function FirstHint(v: Vault, part: seq<Row>): Option<Path> {
    if v.sealed then None else Some(if part == [] then [] else part[0].key)
  }

  function LastHint(v: Vault, part: seq<Row>): Option<Path> {
    if v.sealed then None else Some(if part == [] then [] else part[|part| - 1].key)
  }

  /** The entries in path order. */
  method SortRows(tree: Tree<seq<MapPage>>) returns (rows: seq<Row>)
    ensures Sorted(rows) && TreeOf(rows) == tree && DistinctPaths(rows)
  {
    hide Lt, Put, AsMap;
    rows := [];
    var left := tree.Keys;
    EmptyMap();
    while left != {}
      invariant left <= tree.Keys && Sorted(rows) && AsMap(rows) == tree - left
      decreases left
    {
      var path :| path in left;
      PutSorted(rows, path, tree[path]);
      PutMap(rows, path, tree[path]);
      rows := Put(rows, path, tree[path]);
      left := left - {path};
    }
    assert tree - left == tree;
    SortedIsTree(rows);
  }

  lemma EmptyMap()
    ensures AsMap<Inode>([]) == map[]
  {
  }

  lemma SortedDistinct(rows: seq<Row>)
    requires Sorted(rows)
    ensures DistinctPaths(rows)
  {
    hide Lt;
    forall i, j | 0 <= i < j < |rows| ensures rows[i].key != rows[j].key {
      LtIrreflexive(rows[i].key);
    }
  }

  lemma SortedIsTree(rows: seq<Row>)
    requires Sorted(rows)
    ensures DistinctPaths(rows) && TreeOf(rows) == AsMap(rows)
  {
    hide Lt, TreeOf, AsMap;
    SortedDistinct(rows);
    forall k: Key ensures k in TreeOf(rows) <==> k in AsMap(rows) {
      TreeFind(rows, k);
      FindInMap(rows, k);
    }
    forall k: Key | k in TreeOf(rows) ensures TreeOf(rows)[k] == AsMap(rows)[k] {
      TreeFind(rows, k);
      FindInMap(rows, k);
    }
  }

  // ----- a whole realm

  /** A file whose chunks are new; its map pages are still to be written. */
  datatype Rewrite = Rewrite(path: Path, chunks: seq<Chunk>)

  function Rewritten(rewrites: seq<Rewrite>, path: Path): Option<seq<Chunk>> {
    if rewrites == [] then None
    else if rewrites[|rewrites| - 1].path == path then Some(rewrites[|rewrites| - 1].chunks)
    else Rewritten(rewrites[..|rewrites| - 1], path)
  }

  /** A physical node and a logical one agree in everything but the content. */
  predicate SameNode<C, D>(n: Node<C>, m: Node<D>) {
    n.objectId == m.objectId && n.kind == m.kind && n.size == m.size && n.mime == m.mime && n.revision == m.revision
    && n.modifiedBy == m.modifiedBy && n.modifiedGeneration == m.modifiedGeneration
  }

  /** What one entry holds: its rewritten chunks if it has any, otherwise what its map pages list. */
  predicate HoldsFile(recs: Recs, v: Vault, n: Inode, rewritten: Option<seq<Chunk>>, m: Node<bytes>) {
    SameNode(n, m)
    && if n.kind == File then
      |m.content| == n.size
      && (if rewritten.Some? then ChunkBytes(recs, v, rewritten.value, 0) else FileBytes(recs, v, n.content)) == Some(m.content)
    else m.content == []
  }

  /** A catalog under construction stands for a tree of file contents. */
  predicate Represents(recs: Recs, v: Vault, tree: Tree<seq<MapPage>>, rewrites: seq<Rewrite>, files: Tree<bytes>) {
    tree.Keys == files.Keys && forall p | p in tree :: HoldsFile(recs, v, tree[p], Rewritten(rewrites, p), files[p])
  }

  lemma {:induction false} RewritesStay(recs: Recs, more: Recs, v: Vault, tree: Tree<seq<MapPage>>, rewrites: seq<Rewrite>, files: Tree<bytes>)
    requires recs <= more && Represents(recs, v, tree, rewrites, files)
    ensures Represents(more, v, tree, rewrites, files)
  {
    hide ChunkBytes, FileBytes;
    forall p | p in tree ensures HoldsFile(more, v, tree[p], Rewritten(rewrites, p), files[p]) {
      var w := Rewritten(rewrites, p);
      if tree[p].kind == File {
        if w.Some? {
          ChunkBytesStay(recs, more, v, w.value, 0);
        } else {
          FileStays(recs, more, v, tree[p].content);
        }
      }
    }
  }

  /** All rewrites are of entries that exist, each path once. */
  predicate RewritesOk(tree: Tree<seq<MapPage>>, rewrites: seq<Rewrite>) {
    (forall i | 0 <= i < |rewrites| :: rewrites[i].path in tree && tree[rewrites[i].path].kind == File)
    && forall i, j | 0 <= i < j < |rewrites| :: rewrites[i].path != rewrites[j].path
  }

  predicate MapFits(v: Vault, sizes: Sizes, w: Rewrite) { (w.chunks == [] || Unlocked(v)) && AllFit(sizes.chunks, w.chunks) }

  lemma {:induction false} RewrittenAt(rewrites: seq<Rewrite>, i: nat)
    requires i < |rewrites| && forall j | i < j < |rewrites| :: rewrites[j].path != rewrites[i].path
    ensures Rewritten(rewrites, rewrites[i].path) == Some(rewrites[i].chunks)
    decreases |rewrites|
  {
    if i < |rewrites| - 1 {
      RewrittenAt(rewrites[..|rewrites| - 1], i);
    }
  }

  lemma {:induction false} NotRewritten(rewrites: seq<Rewrite>, path: Path)
    requires forall i | 0 <= i < |rewrites| :: rewrites[i].path != path
    ensures Rewritten(rewrites, path) == None
  {
    if rewrites != [] {
      NotRewritten(rewrites[..|rewrites| - 1], path);
    }
  }

  /** One entry with its map pages written: they list exactly the new chunks. Any other entry stays as it was. */
  predicate EntryMapped(recs: Recs, v: Vault, before: Inode, rewritten: Option<seq<Chunk>>, after: Inode) {
    if rewritten.Some? then after == before.(content := after.content) && ListedChunks(recs, v, after.content) == rewritten else after == before
  }

  /** Two catalogs differ only in the map pages of rewritten files, and those list exactly the new chunks. */
  predicate WithMaps(recs: Recs, v: Vault, before: Tree<seq<MapPage>>, rewrites: seq<Rewrite>, after: Tree<seq<MapPage>>) {
    after.Keys == before.Keys && forall p | p in before :: EntryMapped(recs, v, before[p], Rewritten(rewrites, p), after[p])
  }

  lemma MapsStay(recs: Recs, more: Recs, v: Vault, before: Tree<seq<MapPage>>, rewrites: seq<Rewrite>, after: Tree<seq<MapPage>>)
    requires recs <= more && WithMaps(recs, v, before, rewrites, after)
    ensures WithMaps(more, v, before, rewrites, after)
  {
    hide ListedChunks, Rewritten;
    forall p | p in before ensures EntryMapped(more, v, before[p], Rewritten(rewrites, p), after[p]) {
      assert EntryMapped(recs, v, before[p], Rewritten(rewrites, p), after[p]);
      if Rewritten(rewrites, p).Some? {
        ChunksStay(recs, more, v, after[p].content);
      }
    }
  }

  lemma NoMaps(recs: Recs, v: Vault, tree: Tree<seq<MapPage>>)
    ensures WithMaps(recs, v, tree, [], tree)
  {
  }

  /** Map pages for one more file. */
  lemma MapsNext(recs: Recs, v: Vault, before: Tree<seq<MapPage>>, rewrites: seq<Rewrite>, after: Tree<seq<MapPage>>, w: Rewrite, pages: seq<MapPage>)
    requires WithMaps(recs, v, before, rewrites, after) && w.path in before && ListedChunks(recs, v, pages) == Some(w.chunks)
    ensures WithMaps(recs, v, before, rewrites + [w], after[w.path := after[w.path].(content := pages)])
  {
    hide ListedChunks;
    var next := after[w.path := after[w.path].(content := pages)];
    assert (rewrites + [w])[..|rewrites|] == rewrites;
    forall p | p in before ensures EntryMapped(recs, v, before[p], Rewritten(rewrites + [w], p), next[p]) {
      assert EntryMapped(recs, v, before[p], Rewritten(rewrites, p), after[p]);
    }
  }

  /** With its map pages written, a catalog stands for a tree of contents exactly if it did so before, with the new chunks. */
  lemma MapsRepresent(recs: Recs, v: Vault, before: Tree<seq<MapPage>>, rewrites: seq<Rewrite>, after: Tree<seq<MapPage>>, files: Tree<bytes>)
    requires WithMaps(recs, v, before, rewrites, after)
    ensures Represents(recs, v, after, [], files) <==> Represents(recs, v, before, rewrites, files)
  {
    hide ListedChunks, ChunkBytes;
    if before.Keys == files.Keys {
      forall p | p in before
        ensures HoldsFile(recs, v, after[p], Rewritten([], p), files[p]) <==> HoldsFile(recs, v, before[p], Rewritten(rewrites, p), files[p])
      {
        assert EntryMapped(recs, v, before[p], Rewritten(rewrites, p), after[p]);
      }
    }
  }

  /** The first loop of `buildRealmWithCatalog`: map pages for every changed file. */
  method WriteMaps(log: RecordLog, v: Vault, sizes: Sizes, realm: Key, generation: nat, tree: Tree<seq<MapPage>>, rewrites: seq<Rewrite>)
    returns (r: Option<Tree<seq<MapPage>>>)
    requires Sane(sizes) && RewritesOk(tree, rewrites)
    modifies log
    ensures old(log.recs) <= log.recs
    ensures r.Some? <==> forall i | 0 <= i < |rewrites| :: MapFits(v, sizes, rewrites[i])
    ensures r.Some? ==> WithMaps(log.recs, v, tree, rewrites, r.value)
  {
    hide RewritesOk, Sane, AllFit, ListedChunks, Unlocked, WithMaps;
    var next := tree;
    var i := 0;
    NoMaps(log.recs, v, tree);
    assert rewrites[..0] == [];
    while i < |rewrites|
      invariant i <= |rewrites| && old(log.recs) <= log.recs && next.Keys == tree.Keys
      invariant WithMaps(log.recs, v, tree, rewrites[..i], next)
      invariant forall k | 0 <= k < i :: MapFits(v, sizes, rewrites[k])
    {
      ghost var before := log.recs;
      var w := rewrites[i];
      RewritePath(tree, rewrites, i);
      var pages := WriteMap(log, v, sizes, realm, generation, w.path, w.chunks);
      if pages.None? {
        return None;
      }
      MapsStay(before, log.recs, v, tree, rewrites[..i], next);
      MapsNext(log.recs, v, tree, rewrites[..i], next, w, pages.value);
      assert rewrites[..i + 1] == rewrites[..i] + [w];
      next := next[w.path := next[w.path].(content := pages.value)];
      i := i + 1;
    }
    assert rewrites[..i] == rewrites;
    return Some(next);
  }

  lemma RewritePath(tree: Tree<seq<MapPage>>, rewrites: seq<Rewrite>, i: nat)
    requires RewritesOk(tree, rewrites) && i < |rewrites|
    ensures rewrites[i].path in tree
  {
  }

  /** The sum of all file sizes. */
  function LogicalBytes(rows: seq<Row>): nat {
    if rows == [] then 0 else LogicalBytes(rows[..|rows| - 1]) + (if rows[|rows| - 1].value.kind == File then rows[|rows| - 1].value.size else 0)
  }

  function FileCount(rows: seq<Row>): (n: nat)
    ensures n <= |rows|
  {
    if rows == [] then 0 else FileCount(rows[..|rows| - 1]) + (if rows[|rows| - 1].value.kind == File then 1 else 0)
  }

  function FilesIn<C>(t: Tree<C>): set<Path> { set p | p in t && t[p].kind == File }

  /** How many bytes a tree of contents holds. */
  ghost function TotalSize(files: Tree<bytes>): nat
    decreases |files|
  {
    if files == map[] then 0
    else
      var p :| p in files;
      |files[p].content| + TotalSize(files - {p})
  }

  lemma {:induction false} TotalWith(files: Tree<bytes>, p: Path)
    requires p in files
    ensures TotalSize(files) == |files[p].content| + TotalSize(files - {p})
    decreases |files|
  {
    var q :| q in files && TotalSize(files) == |files[q].content| + TotalSize(files - {q});
    if q != p {
      TotalWith(files - {p}, q);
      TotalWith(files - {q}, p);
      assert files - {p} - {q} == files - {q} - {p};
    }
  }

  /** A listing of a tree of contents counts its files, its other entries and the bytes they hold. */
  lemma {:induction false} ListingCounts(recs: Recs, v: Vault, rows: seq<Row>, files: Tree<bytes>)
    requires DistinctPaths(rows) && Represents(recs, v, TreeOf(rows), [], files)
    ensures FileCount(rows) == |FilesIn(files)| && |rows| - FileCount(rows) == |files.Keys - FilesIn(files)| && LogicalBytes(rows) == TotalSize(files)
    decreases |rows|
  {
    hide HoldsFile, DistinctPaths, TotalSize;
    if rows == [] {
      assert files == map[] && FilesIn(files) == {} && TotalSize(files) == 0 by { NothingCounts(); }
    } else {
      var init, last := rows[..|rows| - 1], rows[|rows| - 1];
      var rest := files - {last.key};
      assert rows == init + [last];
      LastIsNew(init, last);
      assert TreeOf(rows)[last.key] == last.value;
      forall p | p in rest ensures p in TreeOf(init) && HoldsFile(recs, v, TreeOf(init)[p], Rewritten([], p), rest[p]) {
        assert p in TreeOf(rows) && TreeOf(rows)[p] == TreeOf(init)[p];
      }
      ListingCounts(recs, v, init, rest);
      TotalWith(files, last.key);
      HeldCounts(recs, v, last.value, files[last.key], last.key);
      OneMoreFile(files, last.key);
    }
  }

  lemma NothingCounts()
    ensures TotalSize(map[]) == 0
  {
  }

  lemma HeldCounts(recs: Recs, v: Vault, n: Inode, m: Node<bytes>, p: Path)
    requires HoldsFile(recs, v, n, Rewritten([], p), m)
    ensures n.kind == m.kind && |m.content| == if n.kind == File then n.size else 0
  {
  }

  lemma OneMoreFile<C>(files: Tree<C>, p: Path)
    requires p in files
    ensures var rest := files - {p};
      |FilesIn(files)| == |FilesIn(rest)| + (if files[p].kind == File then 1 else 0)
      && |files.Keys - FilesIn(files)| == |rest.Keys - FilesIn(rest)| + (if files[p].kind == File then 0 else 1)
  {
    var rest := files - {p};
    if files[p].kind == File {
      assert FilesIn(files) == FilesIn(rest) + {p} && files.Keys - FilesIn(files) == rest.Keys - FilesIn(rest);
    } else {
      assert FilesIn(files) == FilesIn(rest) && files.Keys - FilesIn(files) == rest.Keys - FilesIn(rest) + {p};
    }
  }

  lemma LastIsNew(init: seq<Row>, last: Row)
    requires DistinctPaths(init + [last])
    ensures DistinctPaths(init) && last.key !in TreeOf(init)
  {
    var rows := init + [last];
    forall i | 0 <= i < |init| ensures rows[i] == init[i] && init[i].key != last.key {
      assert rows[|init|] == last && rows[i].key != rows[|init|].key;
    }
    forall i, j | 0 <= i < j < |init| ensures init[i].key != init[j].key {
      assert rows[i].key != rows[j].key;
    }
    if last.key in TreeOf(init) {
      FindOrigin(init, last.key);
    }
  }

  lemma {:induction false} FindOrigin(rows: seq<Row>, path: Path)
    requires path in TreeOf(rows)
    ensures exists i :: 0 <= i < |rows| && rows[i].key == path
  {
    if path != rows[|rows| - 1].key {
      FindOrigin(rows[..|rows| - 1], path);
      var i :| 0 <= i < |rows| - 1 && rows[..|rows| - 1][i].key == path;
      assert rows[i].key == path;
    }
  }

  predicate CatalogFits(v: Vault, sizes: Sizes, quota: Option<nat>, rows: seq<Row>) {
    (quota.Some? ==> LogicalBytes(rows) <= quota.value) && (rows == [] || Unlocked(v)) && AllFit(sizes.rows, rows)
  }

  /** Why a realm cannot be written: some chunk list, or the catalog of the new tree, does not fit. */
  ghost predicate Overfull(recs: Recs, v: Vault, sizes: Sizes, quota: Option<nat>, rewrites: seq<Rewrite>, files: Tree<bytes>) {
    (exists i | 0 <= i < |rewrites| :: !MapFits(v, sizes, rewrites[i]))
    || exists rows :: Represents(recs, v, TreeOf(rows), [], files) && !CatalogFits(v, sizes, quota, rows)
  }

  /** What the catalog of a realm stands for, when everything in it can be read. */
  ghost predicate Stores(recs: Recs, v: Vault, pages: seq<CatalogPage>, files: Tree<bytes>) {
    ListedRows(recs, v, pages).Some? && DistinctPaths(ListedRows(recs, v, pages).value)
    && Represents(recs, v, TreeOf(ListedRows(recs, v, pages).value), [], files)
  }

  lemma StoresStays(recs: Recs, more: Recs, v: Vault, pages: seq<CatalogPage>, files: Tree<bytes>)
    requires recs <= more && Stores(recs, v, pages, files)
    ensures Stores(more, v, pages, files)
  {
    hide Represents, ListedRows;
    RowsStay(recs, more, v, pages);
    RewritesStay(recs, more, v, TreeOf(ListedRows(recs, v, pages).value), [], files);
  }

  /** A catalog stands for one tree only. */
  lemma StoresOnce(recs: Recs, v: Vault, pages: seq<CatalogPage>, files: Tree<bytes>, others: Tree<bytes>)
    requires Stores(recs, v, pages, files) && Stores(recs, v, pages, others)
    ensures files == others
  {
    hide ListedRows, ChunkBytes, FileBytes, DistinctPaths;
    var tree := TreeOf(ListedRows(recs, v, pages).value);
    forall p | p in files ensures files[p] == others[p] {
      assert HoldsFile(recs, v, tree[p], Rewritten([], p), files[p]) && HoldsFile(recs, v, tree[p], Rewritten([], p), others[p]);
    }
  }

  /**
   `buildRealmWithCatalog`, of any entries: the new catalog lists exactly them, with map pages for the rewritten ones that list exactly
   their new chunks. It fails exactly when a chunk list or a row does not fit in a record, the quota is exceeded, or the realm is locked.
   */
  method WriteRows(log: RecordLog, v: Vault, sizes: Sizes, realm: Key, quota: Option<nat>, generation: nat, tree: Tree<seq<MapPage>>, rewrites: seq<Rewrite>)
    returns (r: Option<seq<CatalogPage>>, rows: seq<Row>)
    requires Sane(sizes) && RewritesOk(tree, rewrites)
    modifies log
    ensures old(log.recs) <= log.recs
    ensures r.Some? <==> (forall i | 0 <= i < |rewrites| :: MapFits(v, sizes, rewrites[i])) && CatalogFits(v, sizes, quota, rows)
    ensures (forall i | 0 <= i < |rewrites| :: MapFits(v, sizes, rewrites[i])) ==> WithMaps(log.recs, v, tree, rewrites, TreeOf(rows)) && DistinctPaths(rows)
    ensures r.Some? ==> ListedRows(log.recs, v, r.value) == Some(rows) && (r.value == [] <==> rows == [])
    ensures r.Some? ==> forall i | 0 <= i < |r.value| :: r.value[i].recordOffset >= |old(log.recs)|
    ensures r.Some? ==> forall i | 0 <= i < |r.value| :: r.value[i].aad.Some? <==> v.sealed
    ensures r.Some? ==> forall i | 0 <= i < |r.value| :: r.value[i].aad == AadOf(v, Aad(CatalogAad, realm, generation, [], i)) && WellHinted(log.recs, v, r.value[i])
  {
    hide AadOf, WellHinted, RewritesOk, Sane, AllFit, ListedRows, Unlocked, LogicalBytes, MapFits, Sorted, TreeOf, DistinctPaths, WithMaps;
    rows := [];
    var edited := WriteMaps(log, v, sizes, realm, generation, tree, rewrites);
    if edited.None? {
      return None, rows;
    }
    rows := SortRows(edited.value);
    if quota.Some? && LogicalBytes(rows) > quota.value {
      return None, rows;
    }
    ghost var before := log.recs;
    r := WriteCatalog(log, v, sizes, realm, generation, rows);
    MapsStay(before, log.recs, v, tree, rewrites, edited.value);
  }

  /** So the catalog stands for exactly the tree of contents that the edited entries and the new chunks describe. */
  method WriteRealm(log: RecordLog, v: Vault, sizes: Sizes, realm: Key, quota: Option<nat>, generation: nat, tree: Tree<seq<MapPage>>,
    rewrites: seq<Rewrite>, ghost files: Tree<bytes>) returns (r: Option<seq<CatalogPage>>, rows: seq<Row>)
    requires Sane(sizes) && RewritesOk(tree, rewrites) && Represents(log.recs, v, tree, rewrites, files)
    modifies log
    ensures old(log.recs) <= log.recs
    ensures r.Some? <==> (forall i | 0 <= i < |rewrites| :: MapFits(v, sizes, rewrites[i])) && CatalogFits(v, sizes, quota, rows)
    ensures r.Some? ==> Stores(log.recs, v, r.value, files) && ListedRows(log.recs, v, r.value) == Some(rows)
    ensures r.None? ==> Overfull(log.recs, v, sizes, quota, rewrites, files)
    ensures (forall i | 0 <= i < |rewrites| :: MapFits(v, sizes, rewrites[i])) ==> DistinctPaths(rows) && Represents(log.recs, v, TreeOf(rows), [], files)
    ensures r.Some? ==> (r.value == [] <==> files == map[]) && (rows == [] <==> files == map[])
    ensures r.Some? ==> forall i | 0 <= i < |r.value| :: r.value[i].recordOffset >= |old(log.recs)|
    ensures r.Some? ==> WithMaps(log.recs, v, tree, rewrites, TreeOf(rows))
    ensures r.Some? ==> forall i | 0 <= i < |r.value| :: r.value[i].aad.Some? <==> v.sealed
  {
    hide Represents, RewritesOk, Sane, ListedRows, MapFits, CatalogFits, TreeOf, DistinctPaths, WithMaps;
    r, rows := WriteRows(log, v, sizes, realm, quota, generation, tree, rewrites);
    RewritesStay(old(log.recs), log.recs, v, tree, rewrites, files);
    if forall i | 0 <= i < |rewrites| :: MapFits(v, sizes, rewrites[i]) {
      MapsRepresent(log.recs, v, tree, rewrites, TreeOf(rows), files);
      NoRowsNoFiles(log.recs, v, rows, files);
    }
  }

  /** A catalog without rows stands for a realm without entries. */
  lemma NoRowsNoFiles(recs: Recs, v: Vault, rows: seq<Row>, files: Tree<bytes>)
    requires Represents(recs, v, TreeOf(rows), [], files)
    ensures rows == [] <==> files == map[]
  {
    hide HoldsFile;
    if rows != [] {
      assert rows[|rows| - 1].key in TreeOf(rows);
    }
  }
}
