/**
 How one realm is stored: data, map and catalog records, in the clear or sealed under the realm key, and how they are read back.
 */
module PigPages {
  import opened Bytes
  import opened Keys
  import opened SortedEntries
  import opened PigTree

  /** Realm keys are compared only. */
  type SymKey = nat

  datatype AadKind = DataAad | RekeyAad | TxAad | MapAad | CatalogAad

  /** The associated data that a sealed record is bound to. */
  datatype Aad = Aad(kind: AadKind, realm: Key, generation: nat, path: Path, index: nat)

  /** Authenticated encryption, idealized: a sealed payload is its key, its associated data and its plaintext. */
  datatype Boxed<T> = Plain(value: T) | Sealed(key: SymKey, aad: Aad, value: T)

  datatype Chunk = Chunk(plainOffset: nat, plainLength: nat, recordOffset: nat, aad: Option<Aad>)

  datatype MapPage = MapPage(recordOffset: nat, count: nat, aad: Option<Aad>)

  type Inode = Node<seq<MapPage>>

  type Row = Entry<Inode>

  /** `first` and `last` are hints for the search, absent on sealed pages. */
  datatype CatalogPage = CatalogPage(recordOffset: nat, first: Option<Path>, last: Option<Path>, aad: Option<Aad>)

  datatype Rec = DataRec(data: Boxed<bytes>) | MapRec(chunks: Boxed<seq<Chunk>>) | CatalogRec(rows: Boxed<seq<Row>>) | OtherRec

  type Recs = seq<Rec>

  /** What a reader or writer of one realm brings along: whether the realm is sealed, and its key if unlocked. */
  datatype Vault = Vault(sealed: bool, key: Option<SymKey>)

  function Unlocked(v: Vault): bool { v.sealed ==> v.key.Some? }

  function Seal<T>(v: Vault, aad: Aad, value: T): Boxed<T>
    requires Unlocked(v)
  {
    if v.sealed then Sealed(v.key.value, aad, value) else Plain(value)
  }

  function AadOf(v: Vault, aad: Aad): Option<Aad> { if v.sealed then Some(aad) else None }

  /** Opening a payload as its descriptor says; a wrong key, a wrong descriptor and a realm of the other kind all fail. */
  function Open<T>(v: Vault, aad: Option<Aad>, box: Boxed<T>): Option<T> {
    if v.sealed then
      if v.key.None? || aad.None? || !box.Sealed? || box.key != v.key.value || box.aad != aad.value then None else Some(box.value)
    else if aad.Some? || !box.Plain? then None
    else Some(box.value)
  }

  /**
   What is sealed opens exactly with the same key and the associated data that it was sealed with: a record put in another place, another
   file, generation or realm does not open. What is in the clear opens exactly where nothing sealed is expected.
   */
  lemma SealOpensExactly<T>(v: Vault, w: Vault, aad: Aad, expected: Option<Aad>, value: T)
    requires Unlocked(w)
    ensures Open(v, expected, Seal(w, aad, value)) ==
      if v.sealed == w.sealed && (v.sealed ==> v.key == w.key && expected == Some(aad)) && (!v.sealed ==> expected.None?) then Some(value) else None
  {
  }

  // ----- single records

  function ReadData(recs: Recs, v: Vault, c: Chunk): Option<bytes> {
    if c.recordOffset < |recs| && recs[c.recordOffset].DataRec? then
      var plain := Open(v, c.aad, recs[c.recordOffset].data);
      if plain.Some? && |plain.value| == c.plainLength then plain else None
    else None
  }

  function ReadMap(recs: Recs, v: Vault, p: MapPage): Option<seq<Chunk>> {
    if p.recordOffset < |recs| && recs[p.recordOffset].MapRec? then Open(v, p.aad, recs[p.recordOffset].chunks) else None
  }

  function ReadCatalog(recs: Recs, v: Vault, p: CatalogPage): Option<seq<Row>> {
    if p.recordOffset < |recs| && recs[p.recordOffset].CatalogRec? then Open(v, p.aad, recs[p.recordOffset].rows) else None
  }

  // ----- whole lists

  /** All chunks of a list of map pages, in page order. */
  function ListedChunks(recs: Recs, v: Vault, pages: seq<MapPage>): Option<seq<Chunk>> {
    if pages == [] then Some([])
    else
      var front, last := ListedChunks(recs, v, pages[..|pages| - 1]), ReadMap(recs, v, pages[|pages| - 1]);
      if front.None? || last.None? then None else Some(front.value + last.value)
  }

  /** All rows of a list of catalog pages, in page order. */
  function ListedRows(recs: Recs, v: Vault, pages: seq<CatalogPage>): Option<seq<Row>> {
    if pages == [] then Some([])
    else
      var front, last := ListedRows(recs, v, pages[..|pages| - 1]), ReadCatalog(recs, v, pages[|pages| - 1]);
      if front.None? || last.None? then None else Some(front.value + last.value)
  }

  /** The bytes of chunks that follow one another from `from` on without a gap. */
  function ChunkBytes(recs: Recs, v: Vault, chunks: seq<Chunk>, from: nat): Option<bytes> {
    if chunks == [] then Some([])
    else
      var data := ReadData(recs, v, chunks[0]);
      if chunks[0].plainOffset != from || data.None? then None
      else
        var rest := ChunkBytes(recs, v, chunks[1..], from + chunks[0].plainLength);
        if rest.None? then None else Some(data.value + rest.value)
  }

  /** The contents of a file: its map pages list chunks that tile it. */
  function FileBytes(recs: Recs, v: Vault, pages: seq<MapPage>): Option<bytes> {
    var chunks := ListedChunks(recs, v, pages);
    if chunks.None? then None else ChunkBytes(recs, v, chunks.value, 0)
  }

  // ----- records are never changed

  lemma {:induction false} ChunksStay(recs: Recs, more: Recs, v: Vault, pages: seq<MapPage>)
    requires recs <= more && ListedChunks(recs, v, pages).Some?
    ensures ListedChunks(more, v, pages) == ListedChunks(recs, v, pages)
    decreases |pages|
  {
    if pages != [] {
      ChunksStay(recs, more, v, pages[..|pages| - 1]);
    }
  }

  lemma {:induction false} RowsStay(recs: Recs, more: Recs, v: Vault, pages: seq<CatalogPage>)
    requires recs <= more && ListedRows(recs, v, pages).Some?
    ensures ListedRows(more, v, pages) == ListedRows(recs, v, pages)
    decreases |pages|
  {
    if pages != [] {
      RowsStay(recs, more, v, pages[..|pages| - 1]);
    }
  }

  lemma {:induction false} ChunkBytesStay(recs: Recs, more: Recs, v: Vault, chunks: seq<Chunk>, from: nat)
    requires recs <= more && ChunkBytes(recs, v, chunks, from).Some?
    ensures ChunkBytes(more, v, chunks, from) == ChunkBytes(recs, v, chunks, from)
    decreases |chunks|
  {
    if chunks != [] {
      ChunkBytesStay(recs, more, v, chunks[1..], from + chunks[0].plainLength);
    }
  }

  lemma FileStays(recs: Recs, more: Recs, v: Vault, pages: seq<MapPage>)
    requires recs <= more && FileBytes(recs, v, pages).Some?
    ensures FileBytes(more, v, pages) == FileBytes(recs, v, pages)
  {
    ChunksStay(recs, more, v, pages);
    ChunkBytesStay(recs, more, v, ListedChunks(recs, v, pages).value, 0);
  }

  /** One more chunk at the end. */
  lemma {:induction false} ChunkBytesSnoc(recs: Recs, v: Vault, chunks: seq<Chunk>, from: nat, c: Chunk)
    requires ChunkBytes(recs, v, chunks, from).Some? && ReadData(recs, v, c).Some?
    requires c.plainOffset == from + |ChunkBytes(recs, v, chunks, from).value|
    ensures ChunkBytes(recs, v, chunks + [c], from) == Some(ChunkBytes(recs, v, chunks, from).value + ReadData(recs, v, c).value)
    decreases |chunks|
  {
    hide ReadData;
    if chunks == [] {
      assert (chunks + [c])[1..] == [];
      assert ReadData(recs, v, c).value + [] == [] + ReadData(recs, v, c).value;
    } else {
      assert (chunks + [c])[1..] == chunks[1..] + [c];
      DataLength(recs, v, chunks[0]);
      ChunkBytesSnoc(recs, v, chunks[1..], from + chunks[0].plainLength, c);
      var head, rest := ReadData(recs, v, chunks[0]).value, ChunkBytes(recs, v, chunks[1..], from + chunks[0].plainLength).value;
      assert head + (rest + ReadData(recs, v, c).value) == (head + rest) + ReadData(recs, v, c).value;
    }
  }

  lemma DataLength(recs: Recs, v: Vault, c: Chunk)
    requires ReadData(recs, v, c).Some?
    ensures |ReadData(recs, v, c).value| == c.plainLength
  {
  }

  // ----- sorting by offset

  predicate Ascending(chunks: seq<Chunk>) { forall i, j | 0 <= i < j < |chunks| :: chunks[i].plainOffset <= chunks[j].plainOffset }

  /** A stable sort by plain offset: each chunk goes behind those that do not lie after it. */
  function SortChunks(chunks: seq<Chunk>): seq<Chunk> {
    if chunks == [] then [] else InsertChunk(SortChunks(chunks[..|chunks| - 1]), chunks[|chunks| - 1])
  }

  function InsertChunk(sorted: seq<Chunk>, c: Chunk): seq<Chunk> {
    if sorted == [] || sorted[|sorted| - 1].plainOffset <= c.plainOffset then sorted + [c]
    else InsertChunk(sorted[..|sorted| - 1], c) + [sorted[|sorted| - 1]]
  }

  lemma {:induction false} InsertKeeps(sorted: seq<Chunk>, c: Chunk)
    ensures multiset(InsertChunk(sorted, c)) == multiset(sorted) + multiset{c}
    decreases |sorted|
  {
    if sorted != [] && sorted[|sorted| - 1].plainOffset > c.plainOffset {
      var init, last := sorted[..|sorted| - 1], sorted[|sorted| - 1];
      InsertKeeps(init, c);
      assert sorted == init + [last];
    }
  }

  lemma {:induction false} InsertAscending(sorted: seq<Chunk>, c: Chunk, most: nat)
    requires Ascending(sorted) && c.plainOffset <= most && forall i | 0 <= i < |sorted| :: sorted[i].plainOffset <= most
    ensures var r := InsertChunk(sorted, c); Ascending(r) && forall i | 0 <= i < |r| :: r[i].plainOffset <= most
    decreases |sorted|
  {
    if sorted != [] && sorted[|sorted| - 1].plainOffset > c.plainOffset {
      InsertAscending(sorted[..|sorted| - 1], c, sorted[|sorted| - 1].plainOffset);
    }
  }

  function Furthest(chunks: seq<Chunk>): (r: nat)
    ensures forall i | 0 <= i < |chunks| :: chunks[i].plainOffset <= r
  {
    if chunks == [] then 0
    else
      var front := Furthest(chunks[..|chunks| - 1]);
      if front < chunks[|chunks| - 1].plainOffset then chunks[|chunks| - 1].plainOffset else front
  }

  /** Sorting loses and invents no chunk and puts them in order of their offsets. */
  lemma {:induction false} SortChunksSorts(chunks: seq<Chunk>)
    ensures Ascending(SortChunks(chunks)) && multiset(SortChunks(chunks)) == multiset(chunks)
    decreases |chunks|
  {
    if chunks != [] {
      var init, last := chunks[..|chunks| - 1], chunks[|chunks| - 1];
      var sorted := SortChunks(init);
      SortChunksSorts(init);
      InsertKeeps(sorted, last);
      InsertAscending(sorted, last, Furthest(sorted + [last]));
      assert chunks == init + [last];
      assert (sorted + [last])[|sorted|] == last;
    }
  }

  /** What is in order already stays as it is. */
  lemma {:induction false} AscendingIsSorted(chunks: seq<Chunk>)
    requires Ascending(chunks)
    ensures SortChunks(chunks) == chunks
    decreases |chunks|
  {
    if chunks != [] {
      AscendingIsSorted(chunks[..|chunks| - 1]);
    }
  }

  lemma {:induction false} TiledIsAscending(recs: Recs, v: Vault, chunks: seq<Chunk>, from: nat)
    requires ChunkBytes(recs, v, chunks, from).Some?
    ensures Ascending(chunks) && forall i | 0 <= i < |chunks| :: from <= chunks[i].plainOffset
    decreases |chunks|
  {
    hide ReadData;
    if chunks != [] {
      TiledIsAscending(recs, v, chunks[1..], from + chunks[0].plainLength);
      assert forall i | 0 < i < |chunks| :: chunks[i] == chunks[1..][i - 1];
    }
  }

  // ----- reading a file

  /** `loadPigFsRealmChunks`. */
  method LoadChunks(recs: Recs, v: Vault, pages: seq<MapPage>) returns (r: Option<seq<Chunk>>)
    ensures r == (if ListedChunks(recs, v, pages).None? then None else Some(SortChunks(ListedChunks(recs, v, pages).value)))
  {
    hide ReadMap, SortChunks;
    var chunks: seq<Chunk> := [];
    var i := 0;
    assert pages[..0] == [];
    while i < |pages|
      invariant i <= |pages| && ListedChunks(recs, v, pages[..i]) == Some(chunks)
    {
      var part := ReadMap(recs, v, pages[i]);
      assert pages[..i + 1][..i] == pages[..i];
      if part.None? {
        NoneLater(recs, v, pages, i + 1);
        return None;
      }
      chunks := chunks + part.value;
      i := i + 1;
    }
    assert pages[..i] == pages;
    return Some(SortChunks(chunks));
  }

  lemma {:induction false} NoneLater(recs: Recs, v: Vault, pages: seq<MapPage>, i: nat)
    requires i <= |pages| && ListedChunks(recs, v, pages[..i]).None?
    ensures ListedChunks(recs, v, pages).None?
    decreases |pages|
  {
    hide ReadMap;
    if i == |pages| {
      assert pages[..i] == pages;
    } else {
      assert pages[..|pages| - 1][..i] == pages[..i];
      NoneLater(recs, v, pages[..|pages| - 1], i);
    }
  }

  /** What a range reader returns: an error, or the bytes. */
  datatype ReadResult = Bytes(data: bytes) | BadOffset | Unreadable

  /** `readPigFsRange` for a file entry: the chunks that meet the range, cut to it. */
  method ReadRange(recs: Recs, v: Vault, e: Inode, offset: nat, length: Option<nat>) returns (r: ReadResult)
    ensures offset > e.size ==> r == BadOffset
    ensures var file := FileBytes(recs, v, e.content);
      offset <= e.size && file.Some? && |file.value| == e.size ==>
        r == Bytes(file.value[offset..if length.None? then e.size else Min(e.size, offset + length.value)])
    ensures offset <= e.size && e.content == [] ==> r == Bytes([])
  {
    hide ReadData, ListedChunks, SortChunks, FileBytes, Reading, ChunkBytes, Cut;
    if offset > e.size {
      return BadOffset;
    }
    var end := if length.None? then e.size else Min(e.size, offset + length.value);
    ghost var file := FileBytes(recs, v, e.content);
    ghost var good := file.Some? && |file.value| == e.size;
    if good {
      StartReading(recs, v, e.content, offset, end);
    }
    NoPagesNoChunks(recs, v, e.content);
    var loaded := LoadChunks(recs, v, e.content);
    if loaded.None? {
      return Unreadable;
    }
    var chunks := loaded.value;
    var pieces: bytes := [];
    var i := 0;
    ghost var pos: nat := 0;
    while i < |chunks|
      invariant i <= |chunks| && (chunks == [] ==> pieces == [])
      invariant good ==> Reading(recs, v, chunks[i..], pos, file.value, offset, end, pieces)
    {
      var c := chunks[i];
      if good {
        ReadingStep(recs, v, chunks, i, pos, file.value, offset, end, pieces);
      }
      if c.plainOffset + c.plainLength > offset && c.plainOffset < end {
        var plain := ReadData(recs, v, c);
        if plain.None? {
          return Unreadable;
        }
        DataLength(recs, v, c);
        pieces := pieces + Cut(c, plain.value, offset, end);
      }
      pos := pos + c.plainLength;
      i := i + 1;
    }
    if good {
      EndReading(recs, v, chunks[i..], pos, file.value, offset, end, pieces);
    }
    return Bytes(pieces);
  }

  lemma NoPagesNoChunks(recs: Recs, v: Vault, pages: seq<MapPage>)
    ensures pages == [] ==> ListedChunks(recs, v, pages).Some? && SortChunks(ListedChunks(recs, v, pages).value) == []
  {
  }

  lemma EndReading(recs: Recs, v: Vault, rest: seq<Chunk>, pos: nat, file: bytes, offset: nat, end: nat, pieces: bytes)
    requires Reading(recs, v, rest, pos, file, offset, end, pieces) && rest == []
    ensures offset <= end <= |file| && pieces == file[offset..end]
  {
  }

  /** The part of a chunk that lies in a range it meets. */
  function Cut(c: Chunk, plain: bytes, offset: nat, end: nat): bytes
    requires |plain| == c.plainLength && offset <= end && c.plainOffset + c.plainLength > offset && c.plainOffset < end
  {
    plain[Max(offset, c.plainOffset) - c.plainOffset..Min(end, c.plainOffset + c.plainLength) - c.plainOffset]
  }

  /** The rest of the chunks holds the rest of the file, and the pieces are the part of the range that lies before it. */
  ghost predicate Reading(recs: Recs, v: Vault, rest: seq<Chunk>, pos: nat, file: bytes, offset: nat, end: nat, pieces: bytes) {
    offset <= end <= |file| && pos <= |file| && ChunkBytes(recs, v, rest, pos) == Some(file[pos..])
    && pieces == file[offset..Max(offset, Min(end, pos))] && (rest == [] ==> pos == |file|)
  }

  lemma StartReading(recs: Recs, v: Vault, pages: seq<MapPage>, offset: nat, end: nat)
    requires FileBytes(recs, v, pages).Some? && offset <= end <= |FileBytes(recs, v, pages).value|
    ensures ListedChunks(recs, v, pages).Some?
    ensures Reading(recs, v, SortChunks(ListedChunks(recs, v, pages).value)[0..], 0, FileBytes(recs, v, pages).value, offset, end, [])
  {
    hide ListedChunks, SortChunks, ReadData;
    var chunks, file := ListedChunks(recs, v, pages).value, FileBytes(recs, v, pages).value;
    TiledIsAscending(recs, v, chunks, 0);
    AscendingIsSorted(chunks);
    assert chunks[0..] == chunks && file[0..] == file;
  }

  lemma ReadingStep(recs: Recs, v: Vault, chunks: seq<Chunk>, i: nat, pos: nat, file: bytes, offset: nat, end: nat, pieces: bytes)
    requires i < |chunks| && Reading(recs, v, chunks[i..], pos, file, offset, end, pieces)
    ensures var c := chunks[i];
      ReadData(recs, v, c).Some? && |ReadData(recs, v, c).value| == c.plainLength
      && Reading(recs, v, chunks[i + 1..], pos + c.plainLength, file, offset, end,
        if c.plainOffset + c.plainLength > offset && c.plainOffset < end then pieces + Cut(c, ReadData(recs, v, c).value, offset, end) else pieces)
  {
    hide ReadData, ChunkBytes;
    NextChunk(recs, v, chunks, i, pos, file);
    var c := chunks[i];
    DataLength(recs, v, c);
    LastChunkEnds(recs, v, chunks[i + 1..], pos + c.plainLength, file);
    if c.plainOffset + c.plainLength > offset && c.plainOffset < end {
      SliceJoins(file, offset, end, pos, ReadData(recs, v, c).value);
    } else {
      NothingJoins(offset, end, pos, c.plainLength);
    }
  }

  lemma LastChunkEnds(recs: Recs, v: Vault, rest: seq<Chunk>, pos: nat, file: bytes)
    requires pos <= |file| && ChunkBytes(recs, v, rest, pos) == Some(file[pos..])
    ensures rest == [] ==> pos == |file|
  {
  }

  lemma NothingJoins(offset: nat, end: nat, pos: nat, length: nat)
    requires offset <= end && (pos + length <= offset || pos >= end)
    ensures Max(offset, Min(end, pos)) == Max(offset, Min(end, pos + length))
  {
  }

  lemma NextChunk(recs: Recs, v: Vault, chunks: seq<Chunk>, i: nat, pos: nat, file: bytes)
    requires i < |chunks| && pos <= |file| && ChunkBytes(recs, v, chunks[i..], pos) == Some(file[pos..])
    ensures chunks[i].plainOffset == pos && pos + chunks[i].plainLength <= |file|
    ensures ReadData(recs, v, chunks[i]) == Some(file[pos..pos + chunks[i].plainLength])
    ensures ChunkBytes(recs, v, chunks[i + 1..], pos + chunks[i].plainLength) == Some(file[pos + chunks[i].plainLength..])
  {
    hide ReadData;
    var rest, n := chunks[i..], chunks[i].plainLength;
    assert rest[0] == chunks[i] && rest[1..] == chunks[i + 1..];
    var data, tail := ReadData(recs, v, chunks[i]).value, ChunkBytes(recs, v, rest[1..], pos + n).value;
    DataLength(recs, v, chunks[i]);
    assert file[pos..] == data + tail;
    assert file[pos..pos + n] == (data + tail)[..n] == data;
    assert file[pos + n..] == (data + tail)[n..] == tail;
  }

  lemma SliceJoins(file: bytes, offset: nat, end: nat, pos: nat, data: bytes)
    requires offset <= end <= |file| && pos + |data| <= |file| && data == file[pos..pos + |data|]
    requires pos + |data| > offset && pos < end
    ensures var sliceStart, sliceEnd := Max(offset, pos) - pos, Min(end, pos + |data|) - pos;
      file[offset..Max(offset, Min(end, pos))] + data[sliceStart..sliceEnd] == file[offset..Max(offset, Min(end, pos + |data|))]
  {
    var sliceStart, sliceEnd := Max(offset, pos) - pos, Min(end, pos + |data|) - pos;
    SliceOfSlice(file, pos, pos + |data|, sliceStart, sliceEnd);
  }

  // ----- reading a catalog

  /** The catalog that a list of rows stands for: a later row replaces an earlier one of the same path. */
  function TreeOf(rows: seq<Row>): Tree<seq<MapPage>> {
    if rows == [] then map[] else TreeOf(rows[..|rows| - 1])[rows[|rows| - 1].key := rows[|rows| - 1].value]
  }

  predicate DistinctPaths(rows: seq<Row>) { forall i, j | 0 <= i < j < |rows| :: rows[i].key != rows[j].key }

  lemma {:induction false} TreeConcat(a: seq<Row>, b: seq<Row>)
    ensures TreeOf(a + b) == TreeOf(a) + TreeOf(b)
    decreases |b|
  {
    if b == [] {
      assert a + b == a;
    } else {
      assert (a + b)[..|a + b| - 1] == a + b[..|b| - 1];
      TreeConcat(a, b[..|b| - 1]);
    }
  }

  lemma {:induction false} TreeFind(rows: seq<Row>, path: Path)
    requires DistinctPaths(rows)
    ensures Find(rows, path) == if path in TreeOf(rows) then Some(TreeOf(rows)[path]) else None
    decreases |rows|
  {
    if rows != [] {
      var init, last := rows[..|rows| - 1], rows[|rows| - 1];
      TreeFind(init, path);
      assert rows == init + [last];
      FindConcat(init, [last], path);
      if path == last.key {
        FindMember(init, path);
      }
    }
  }

  lemma {:induction false} FindMember(rows: seq<Row>, path: Path)
    ensures Find(rows, path).Some? ==> exists i | 0 <= i < |rows| :: rows[i].key == path
  {
    if rows != [] && rows[0].key != path {
      FindMember(rows[1..], path);
      if Find(rows, path).Some? {
        var i :| 0 <= i < |rows[1..]| && rows[1..][i].key == path;
        assert rows[i + 1].key == path;
      }
    }
  }

  /** `loadPigFsRealmCatalog`. */
  method LoadCatalog(recs: Recs, v: Vault, pages: seq<CatalogPage>) returns (r: Option<Tree<seq<MapPage>>>)
    ensures r == if ListedRows(recs, v, pages).None? then None else Some(TreeOf(ListedRows(recs, v, pages).value))
  {
    hide ReadCatalog;
    var entries: Tree<seq<MapPage>> := map[];
    var i := 0;
    assert pages[..0] == [];
    while i < |pages|
      invariant i <= |pages| && ListedRows(recs, v, pages[..i]).Some? && entries == TreeOf(ListedRows(recs, v, pages[..i]).value)
    {
      var rows := ReadCatalog(recs, v, pages[i]);
      assert pages[..i + 1][..i] == pages[..i];
      if rows.None? {
        NoRowsLater(recs, v, pages, i + 1);
        return None;
      }
      TreeConcat(ListedRows(recs, v, pages[..i]).value, rows.value);
      entries := SetRows(entries, rows.value);
      i := i + 1;
    }
    assert pages[..i] == pages;
    return Some(entries);
  }

  method SetRows(entries: Tree<seq<MapPage>>, rows: seq<Row>) returns (r: Tree<seq<MapPage>>)
    ensures r == entries + TreeOf(rows)
  {
    r := entries;
    var j := 0;
    while j < |rows|
      invariant j <= |rows| && r == entries + TreeOf(rows[..j])
    {
      assert rows[..j + 1][..j] == rows[..j];
      r := r[rows[j].key := rows[j].value];
      j := j + 1;
    }
    assert rows[..j] == rows;
  }

  lemma {:induction false} NoRowsLater(recs: Recs, v: Vault, pages: seq<CatalogPage>, i: nat)
    requires i <= |pages| && ListedRows(recs, v, pages[..i]).None?
    ensures ListedRows(recs, v, pages).None?
    decreases |pages|
  {
    hide ReadCatalog;
    if i == |pages| {
      assert pages[..i] == pages;
    } else {
      assert pages[..|pages| - 1][..i] == pages[..i];
      NoRowsLater(recs, v, pages[..|pages| - 1], i);
    }
  }

  /** A page without hints, or whose hints include the path. */
  predicate Hinted(page: CatalogPage, path: Path) {
    page.first.None? || page.last.None? || (AtMost(page.first.value, path) && AtMost(path, page.last.value))
  }

  /** `catalogCandidates`: hinted pages first, then all the others. */
  method CatalogCandidates(pages: seq<CatalogPage>, path: Path) returns (r: seq<CatalogPage>)
    ensures forall page :: page in r <==> page in pages
  {
    var hinted: seq<CatalogPage>, fallback: seq<CatalogPage> := [], [];
    var i := 0;
    while i < |pages|
      invariant i <= |pages| && forall page :: page in hinted || page in fallback <==> page in pages[..i]
    {
      if Hinted(pages[i], path) {
        hinted := hinted + [pages[i]];
      } else {
        fallback := fallback + [pages[i]];
      }
      i := i + 1;
    }
    return hinted + fallback;
  }

  /** A row of one page is the row of the whole catalog. */
  lemma {:induction false} PageRow(recs: Recs, v: Vault, pages: seq<CatalogPage>, page: CatalogPage, path: Path)
    requires ListedRows(recs, v, pages).Some? && page in pages && DistinctPaths(ListedRows(recs, v, pages).value)
    ensures ReadCatalog(recs, v, page).Some?
    ensures Find(ReadCatalog(recs, v, page).value, path).Some? ==>
      Find(ListedRows(recs, v, pages).value, path) == Find(ReadCatalog(recs, v, page).value, path)
    decreases |pages|
  {
    hide ReadCatalog;
    var n := |pages| - 1;
    var front, last := ListedRows(recs, v, pages[..n]).value, ReadCatalog(recs, v, pages[n]).value;
    FindConcat(front, last, path);
    FindMember(front, path);
    FindMember(last, path);
    assert Find(front, path).None? || Find(last, path).None? by { FoundOnce(front, last, path); }
    if page != pages[n] {
      assert page in pages[..n];
      DistinctFront(front, last);
      PageRow(recs, v, pages[..n], page, path);
    }
  }

  lemma DistinctFront(front: seq<Row>, last: seq<Row>)
    requires DistinctPaths(front + last)
    ensures DistinctPaths(front)
  {
    forall i, j | 0 <= i < j < |front| ensures front[i].key != front[j].key {
      assert (front + last)[i].key != (front + last)[j].key;
    }
  }

  lemma FoundOnce(front: seq<Row>, last: seq<Row>, path: Path)
    requires DistinctPaths(front + last)
    ensures Find(front, path).None? || Find(last, path).None?
  {
    FindMember(front, path);
    FindMember(last, path);
    if Find(front, path).Some? {
      var i :| 0 <= i < |front| && front[i].key == path;
      forall j | 0 <= j < |last| ensures last[j].key != path {
        assert (front + last)[i].key != (front + last)[|front| + j].key;
      }
    }
  }

  lemma {:induction false} NoPageRow(recs: Recs, v: Vault, pages: seq<CatalogPage>, path: Path)
    requires ListedRows(recs, v, pages).Some?
    requires forall page | page in pages :: ReadCatalog(recs, v, page).Some? && Find(ReadCatalog(recs, v, page).value, path).None?
    ensures Find(ListedRows(recs, v, pages).value, path).None?
    decreases |pages|
  {
    hide ReadCatalog;
    if pages != [] {
      var n := |pages| - 1;
      NoPageRow(recs, v, pages[..n], path);
      FindConcat(ListedRows(recs, v, pages[..n]).value, ReadCatalog(recs, v, pages[n]).value, path);
    }
  }

  /**
   `statPigFsEntry` inside a realm: whatever the hints of the pages say, the result is that of a lookup in the full catalog.
   A page that cannot be read is the only error.
   */
  method StatEntry(recs: Recs, v: Vault, pages: seq<CatalogPage>, path: Path) returns (r: Option<Option<Inode>>)
    ensures ListedRows(recs, v, pages).Some? && DistinctPaths(ListedRows(recs, v, pages).value) ==>
      var tree := TreeOf(ListedRows(recs, v, pages).value); r == Some(if path in tree then Some(tree[path]) else None)
  {
    hide ReadCatalog, Hinted, TreeOf, DistinctPaths;
    ghost var rows := ListedRows(recs, v, pages);
    ghost var good := rows.Some? && DistinctPaths(rows.value);
    if good {
      TreeFind(rows.value, path);
    }
    var candidates := CatalogCandidates(pages, path);
    var i := 0;
    while i < |candidates|
      invariant i <= |candidates|
      invariant forall k | 0 <= k < i :: ReadCatalog(recs, v, candidates[k]).Some? && Find(ReadCatalog(recs, v, candidates[k]).value, path).None?
    {
      assert candidates[i] in candidates;
      if good {
        PageRow(recs, v, pages, candidates[i], path);
      }
      var parsed := ReadCatalog(recs, v, candidates[i]);
      if parsed.None? {
        return None;
      }
      var found := Find(parsed.value, path);
      if found.Some? {
        return Some(found);
      }
      i := i + 1;
    }
    if good {
      forall page | page in pages ensures ReadCatalog(recs, v, page).Some? && Find(ReadCatalog(recs, v, page).value, path).None? {
        assert page in candidates;
        var k :| 0 <= k < |candidates| && candidates[k] == page;
      }
      NoPageRow(recs, v, pages, path);
    }
    return Some(None);
  }
}
