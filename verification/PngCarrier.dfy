/**
 A Wurst under cover: its bytes in numbered chunks of an image, embedded, extracted whole, or read in place.
 */
module PngCarrier {
  import opened Bytes
  import opened Png

  // ----- carrier headers

  datatype Head = Head(count: nat, total: nat)

  datatype Indexed<T> = Indexed(index: nat, item: T)

  /** `makeCarrierHeader`. */
  function MakeHeader(index: nat, head: Head): (b: bytes)
    ensures |b| == HEADER_SIZE
  {
    MAGIC + Be(1, 2) + Be(0, 2) + Be(index, 4) + Be(head.count, 4) + Be(head.total, 8)
  }

  /** `parseCarrierHeader`. The two reserved bytes are not looked at. */
  function ParseHeader(b: bytes): Option<Indexed<Head>> {
    if |b| < HEADER_SIZE || b[..4] != MAGIC then None
    else if BeValue(b[4..6]) != 1 then None
    else if BeValue(b[16..24]) > MAX_SAFE_INTEGER then None
    else Some(Indexed(BeValue(b[8..12]), Head(BeValue(b[12..16]), BeValue(b[16..24]))))
  }

  predicate Writable(index: nat, head: Head) {
    index < Pow256(4) && head.count < Pow256(4) && head.total <= MAX_SAFE_INTEGER
  }

  lemma HeaderRoundTrip(index: nat, head: Head, data: bytes)
    requires Writable(index, head)
    ensures ParseHeader(MakeHeader(index, head) + data) == Some(Indexed(index, head))
  {
    hide Be, BeValue, Pow256;
    Widths();
    BeRoundTrip(1, 2);
    BeRoundTrip(index, 4);
    BeRoundTrip(head.count, 4);
    BeRoundTrip(head.total, 8);
    var b := MakeHeader(index, head) + data;
    assert b[..4] == MAGIC && b[4..6] == Be(1, 2) && b[8..12] == Be(index, 4);
    assert b[12..16] == Be(head.count, 4) && b[16..24] == Be(head.total, 8);
  }

  /** These bytes are a carrier header with its data behind it, whatever the two reserved bytes hold. */
  predicate Carries(b: bytes, index: nat, head: Head, data: bytes) {
    |b| == HEADER_SIZE + |data| && Writable(index, head)
    && b[..4] == MAGIC && b[4..6] == Be(1, 2) && b[8..12] == Be(index, 4) && b[12..16] == Be(head.count, 4) && b[16..24] == Be(head.total, 8)
    && b[HEADER_SIZE..] == data
  }

  /** Exactly such bytes parse, and as just that. */
  lemma ParseHeaderExactly(b: bytes, index: nat, head: Head)
    ensures ParseHeader(b) == Some(Indexed(index, head)) <==> |b| >= HEADER_SIZE && Carries(b, index, head, b[HEADER_SIZE..])
  {
    hide Be, BeValue, Pow256;
    Widths();
    if |b| >= HEADER_SIZE {
      BeFieldIs(b[4..6], 1);
      BeFieldIs(b[8..12], index);
      BeFieldIs(b[12..16], head.count);
      BeFieldIs(b[16..24], head.total);
    }
  }

  lemma BeFieldIs(field: bytes, n: nat)
    ensures BeValue(field) == n <==> n < Pow256(|field|) && field == Be(n, |field|)
  {
    BeOfValue(field);
    if n < Pow256(|field|) {
      BeRoundTrip(n, |field|);
    }
  }

  // ----- sorting by index

  /** One step of a stable sort: behind everything that is not greater. */
  function Insert<T>(s: seq<Indexed<T>>, p: Indexed<T>): (r: seq<Indexed<T>>)
    ensures |r| == |s| + 1
  {
    if s == [] then [p]
    else if s[|s| - 1].index <= p.index then s + [p]
    else Insert(s[..|s| - 1], p) + [s[|s| - 1]]
  }

  function Sort<T>(s: seq<Indexed<T>>): (r: seq<Indexed<T>>)
    ensures |r| == |s|
  {
    if s == [] then [] else Insert(Sort(s[..|s| - 1]), s[|s| - 1])
  }

  predicate Ascending<T>(s: seq<Indexed<T>>) { forall i, j | 0 <= i < j < |s| :: s[i].index <= s[j].index }

  predicate InSequence<T>(s: seq<Indexed<T>>) { forall i | 0 <= i < |s| :: s[i].index == i }

  lemma {:induction false} InsertCounts<T>(s: seq<Indexed<T>>, p: Indexed<T>)
    ensures multiset(Insert(s, p)) == multiset(s) + multiset{p}
    decreases |s|
  {
    if s != [] && s[|s| - 1].index > p.index {
      var front, last := s[..|s| - 1], s[|s| - 1];
      InsertCounts(front, p);
      assert s == front + [last];
    }
  }

  predicate Below<T>(s: seq<Indexed<T>>, top: nat) { forall i | 0 <= i < |s| :: s[i].index <= top }

  lemma {:induction false} InsertBelow<T>(s: seq<Indexed<T>>, p: Indexed<T>, top: nat)
    requires Below(s, top) && p.index <= top
    ensures Below(Insert(s, p), top)
    decreases |s|
  {
    if s != [] && s[|s| - 1].index > p.index {
      InsertBelow(s[..|s| - 1], p, top);
    }
  }

  lemma {:induction false} InsertAscends<T>(s: seq<Indexed<T>>, p: Indexed<T>)
    requires Ascending(s)
    ensures Ascending(Insert(s, p))
    decreases |s|
  {
    if s != [] && s[|s| - 1].index > p.index {
      var front, last := s[..|s| - 1], s[|s| - 1];
      InsertAscends(front, p);
      InsertBelow(front, p, last.index);
    }
  }

  /** The sort loses and invents nothing. */
  lemma {:induction false} SortKeeps<T>(s: seq<Indexed<T>>)
    ensures Ascending(Sort(s)) && multiset(Sort(s)) == multiset(s)
    decreases |s|
  {
    if s != [] {
      var front, last := s[..|s| - 1], s[|s| - 1];
      SortKeeps(front);
      InsertCounts(Sort(front), last);
      InsertAscends(Sort(front), last);
      assert s == front + [last];
    }
  }

  lemma {:induction false} SortsToItself<T>(s: seq<Indexed<T>>)
    requires InSequence(s)
    ensures Sort(s) == s
    decreases |s|
  {
    if s != [] {
      SortsToItself(s[..|s| - 1]);
      assert s == s[..|s| - 1] + [s[|s| - 1]];
    }
  }

  // ----- collecting the carriers of an image

  datatype Table<T> = Table(expected: Option<Head>, pieces: seq<Indexed<T>>)

  /** Every carrier names the same count and the same total as the first. */
  function AddPiece<T>(table: Table<T>, header: Option<Indexed<Head>>, item: T): Option<Table<T>> {
    if header.None? then None
    else if table.expected.Some? && table.expected.value != header.value.item then None
    else Some(Table(Some(header.value.item), table.pieces + [Indexed(header.value.index, item)]))
  }

  /** The pieces in their order: as many as promised, numbered from zero without a gap. */
  function Ordered<T>(table: Table<T>): Option<seq<Indexed<T>>> {
    if table.expected.None? || |table.pieces| != table.expected.value.count then None
    else if InSequence(Sort(table.pieces)) then Some(Sort(table.pieces)) else None
  }

  predicate IsCarrier(raw: bytes) { |raw| >= 12 && Kind(raw) == WURST }

  /** The chunks that are carriers, or those that are not. */
  function Select(raws: seq<bytes>, carriers: bool): (r: seq<bytes>)
    ensures forall i | 0 <= i < |r| :: IsCarrier(r[i]) == carriers
  {
    if raws == [] then []
    else Select(raws[..|raws| - 1], carriers) + if IsCarrier(raws[|raws| - 1]) == carriers then [raws[|raws| - 1]] else []
  }

  function Collect(chunks: seq<bytes>): Option<Table<bytes>> {
    if chunks == [] then Some(Table(None, []))
    else
      var front := Collect(chunks[..|chunks| - 1]);
      if front.None? then None else AddChunk(front.value, chunks[|chunks| - 1])
  }

  function AddChunk(table: Table<bytes>, raw: bytes): Option<Table<bytes>> {
    if |raw| < 12 || |Data(raw)| < HEADER_SIZE then None else AddPiece(table, ParseHeader(Data(raw)), Data(raw)[HEADER_SIZE..])
  }

  function Items<T>(s: seq<Indexed<T>>): (r: seq<T>)
    ensures |r| == |s| && forall i | 0 <= i < |s| :: r[i] == s[i].item
  {
    seq(|s|, i requires 0 <= i < |s| => s[i].item)
  }

  function Assemble(table: Table<bytes>): Option<bytes> {
    var pieces := Ordered(table);
    if pieces.None? then None
    else
      var wurst := Concat(Items(pieces.value));
      if |wurst| == table.expected.value.total then Some(wurst) else None
  }

  /** What the chunks of an image carry. */
  function Payload(raws: seq<bytes>): Option<bytes> {
    var table := Collect(Select(raws, true));
    if table.None? then None else Assemble(table.value)
  }

  // ----- exactly which images carry what

  /** A chunk carries one part. */
  predicate Brings(raw: bytes, index: nat, head: Head, data: bytes) { |raw| >= 12 && Carries(Data(raw), index, head, data) }

  lemma AddChunkMeans(table: Table<bytes>, raw: bytes, head: Head, index: nat, data: bytes)
    requires Brings(raw, index, head, data)
    ensures AddChunk(table, raw) == if table.expected.Some? && table.expected.value != head then None
      else Some(Table(Some(head), table.pieces + [Indexed(index, data)]))
  {
    hide Data, ParseHeader, Carries;
    assert |Data(raw)| >= HEADER_SIZE && Data(raw)[HEADER_SIZE..] == data && Carries(Data(raw), index, head, Data(raw)[HEADER_SIZE..]) by {
      CarriedData(Data(raw), index, head, data);
    }
    ParseHeaderExactly(Data(raw), index, head);
  }

  lemma CarriedData(b: bytes, index: nat, head: Head, data: bytes)
    requires Carries(b, index, head, data)
    ensures |b| >= HEADER_SIZE && b[HEADER_SIZE..] == data
  {
  }

  lemma AddedBrings(table: Table<bytes>, raw: bytes)
    requires AddChunk(table, raw).Some?
    ensures var r := AddChunk(table, raw).value;
      r.expected.Some? && |r.pieces| == |table.pieces| + 1 && r.pieces[..|table.pieces|] == table.pieces
      && (table.expected.Some? ==> table.expected == r.expected)
      && Brings(raw, r.pieces[|table.pieces|].index, r.expected.value, r.pieces[|table.pieces|].item)
  {
    hide Data, ParseHeader, Carries;
    var h := ParseHeader(Data(raw)).value;
    ParseHeaderExactly(Data(raw), h.index, h.item);
  }

  /** The pieces of a table are what the chunks bring, all under one head. */
  predicate TableOf(chunks: seq<bytes>, table: Table<bytes>) {
    |table.pieces| == |chunks| && (chunks != [] ==> table.expected.Some?)
    && forall k | 0 <= k < |chunks| :: table.expected.Some? && Brings(chunks[k], table.pieces[k].index, table.expected.value, table.pieces[k].item)
  }

  lemma {:induction false} CollectedBrings(chunks: seq<bytes>)
    requires Collect(chunks).Some?
    ensures TableOf(chunks, Collect(chunks).value) && (chunks == [] ==> Collect(chunks).value.expected.None?)
    decreases |chunks|
  {
    hide AddChunk, Brings;
    if chunks != [] {
      var n := |chunks| - 1;
      CollectedBrings(chunks[..n]);
      AddedBrings(Collect(chunks[..n]).value, chunks[n]);
      var before, now := Collect(chunks[..n]).value, Collect(chunks).value;
      forall k | 0 <= k < |chunks| ensures now.expected.Some? && Brings(chunks[k], now.pieces[k].index, now.expected.value, now.pieces[k].item) {
        if k < n {
          assert chunks[..n][k] == chunks[k] && now.pieces[..n][k] == before.pieces[k];
        }
      }
    }
  }

  lemma {:induction false} BringsCollected(chunks: seq<bytes>, table: Table<bytes>)
    requires TableOf(chunks, table) && (chunks == [] ==> table.expected.None?)
    ensures Collect(chunks) == Some(table)
    decreases |chunks|
  {
    hide AddChunk, Brings;
    if chunks != [] {
      var n := |chunks| - 1;
      var before := Table(if n == 0 then None else table.expected, table.pieces[..n]);
      forall k | 0 <= k < n ensures Brings(chunks[..n][k], before.pieces[k].index, table.expected.value, before.pieces[k].item) {
        assert chunks[..n][k] == chunks[k] && before.pieces[k] == table.pieces[k];
      }
      BringsCollected(chunks[..n], before);
      AddChunkMeans(before, chunks[n], table.expected.value, table.pieces[n].index, table.pieces[n].item);
      assert table.pieces == before.pieces + [table.pieces[n]];
    } else {
      assert table.pieces == [];
    }
  }

  predicate HasIndex<T>(s: seq<Indexed<T>>, j: nat) { exists k | 0 <= k < |s| :: s[k].index == j }

  /** The numbers from zero on, as many as there are items, all occur. */
  ghost predicate NoneMissing<T>(s: seq<Indexed<T>>) { forall j: nat | j < |s| :: HasIndex(s, j) }

  /** Then, in order, each occurs once. */
  lemma {:induction false} NoneSkipped<T>(s: seq<Indexed<T>>, i: nat)
    requires Ascending(s) && i < |s| && NoneMissing(s)
    ensures s[i].index <= i
  {
    if i == 0 {
      assert HasIndex(s, 0);
    } else {
      NoneSkipped(s, i - 1);
      assert s[i - 1].index + 1 < |s| ==> HasIndex(s, s[i - 1].index + 1);
    }
  }

  lemma {:induction false} NoneTwice<T>(s: seq<Indexed<T>>, i: nat)
    requires Ascending(s) && i < |s| && NoneMissing(s)
    ensures s[i].index >= i
    decreases |s| - i
  {
    if i < |s| - 1 {
      NoneTwice(s, i + 1);
    }
    assert HasIndex(s, i);
  }

  /** The chunk brings one of the parts, under its number. */
  predicate BringsSome(raw: bytes, parts: seq<bytes>, head: Head) { exists j | 0 <= j < |parts| :: Brings(raw, j, head, parts[j]) }

  predicate SomeBrings(carriers: seq<bytes>, j: nat, head: Head, part: bytes) { exists k | 0 <= k < |carriers| :: Brings(carriers[k], j, head, part) }

  /** The carriers bring these parts, one each, in any order. */
  ghost predicate BringAll(carriers: seq<bytes>, parts: seq<bytes>, head: Head) {
    |parts| == |carriers| && (forall k | 0 <= k < |carriers| :: BringsSome(carriers[k], parts, head))
    && forall j: nat | j < |parts| :: SomeBrings(carriers, j, head, parts[j])
  }

  /**
   An image carries a Wurst exactly if its carrier chunks, in any order and among any others, bring its parts, numbered from zero, each once,
   and every one of them names the number of parts and the length of the whole.
   */
  lemma PayloadExactly(raws: seq<bytes>, wurst: bytes)
    ensures Payload(raws) == Some(wurst) <==>
      exists parts :: parts != [] && Concat(parts) == wurst && BringAll(Select(raws, true), parts, Head(|parts|, |wurst|))
  {
    hide Select, Collect, Assemble, BringAll, Concat, TableOf;
    var carriers := Select(raws, true);
    if Payload(raws) == Some(wurst) {
      CollectedBrings(carriers);
      var parts := PartsCarried(carriers, Collect(carriers).value, wurst);
    }
    if parts :| parts != [] && Concat(parts) == wurst && BringAll(carriers, parts, Head(|parts|, |wurst|)) {
      var table := TableBrought(carriers, parts, Head(|parts|, |wurst|));
      BringsCollected(carriers, table);
      Assembles(table, parts, wurst);
    }
  }

  lemma PartsCarried(carriers: seq<bytes>, table: Table<bytes>, wurst: bytes) returns (parts: seq<bytes>)
    requires TableOf(carriers, table) && (carriers == [] ==> table.expected.None?) && Assemble(table) == Some(wurst)
    ensures parts != [] && Concat(parts) == wurst && BringAll(carriers, parts, Head(|parts|, |wurst|))
  {
    hide Brings, Concat, Sort;
    var sorted, head := Sort(table.pieces), table.expected.value;
    SortKeeps(table.pieces);
    parts := Items(sorted);
    forall k | 0 <= k < |carriers| ensures BringsSome(carriers[k], parts, head) {
      assert table.pieces[k] in multiset(sorted);
      var j :| 0 <= j < |sorted| && sorted[j] == table.pieces[k];
      assert Brings(carriers[k], j, head, parts[j]);
    }
    forall j: nat | j < |parts| ensures SomeBrings(carriers, j, head, parts[j]) {
      assert sorted[j] in multiset(table.pieces);
      var k :| 0 <= k < |table.pieces| && table.pieces[k] == sorted[j];
      assert Brings(carriers[k], j, head, parts[j]);
    }
  }

  /** Every piece is one of the parts. */
  predicate PiecesOf(pieces: seq<Indexed<bytes>>, parts: seq<bytes>) {
    forall k | 0 <= k < |pieces| :: pieces[k].index < |parts| && pieces[k].item == parts[pieces[k].index]
  }

  /** Chunk by chunk, what they bring. */
  lemma {:induction false} PiecesBrought(carriers: seq<bytes>, parts: seq<bytes>, head: Head) returns (pieces: seq<Indexed<bytes>>)
    requires forall k | 0 <= k < |carriers| :: BringsSome(carriers[k], parts, head)
    ensures |pieces| == |carriers| && PiecesOf(pieces, parts)
    ensures forall k | 0 <= k < |carriers| :: Brings(carriers[k], pieces[k].index, head, pieces[k].item)
    decreases |carriers|
  {
    hide Brings;
    if carriers == [] {
      pieces := [];
    } else {
      var n := |carriers| - 1;
      var front := PiecesBrought(carriers[..n], parts, head);
      var j: nat :| 0 <= j < |parts| && Brings(carriers[n], j, head, parts[j]);
      pieces := front + [Indexed(j, parts[j])];
      forall k | 0 <= k < |carriers| ensures Brings(carriers[k], pieces[k].index, head, pieces[k].item) {
        if k < n {
          assert carriers[..n][k] == carriers[k] && pieces[k] == front[k];
        }
      }
    }
  }

  lemma TableBrought(carriers: seq<bytes>, parts: seq<bytes>, head: Head) returns (table: Table<bytes>)
    requires BringAll(carriers, parts, head) && parts != []
    ensures TableOf(carriers, table) && carriers != [] && |table.pieces| == |parts| && table.expected == Some(head)
    ensures PiecesOf(table.pieces, parts) && NoneMissing(table.pieces)
  {
    hide Brings, BringsSome, PiecesOf;
    var pieces := PiecesBrought(carriers, parts, head);
    table := Table(Some(head), pieces);
    forall j: nat | j < |pieces| ensures HasIndex(pieces, j) {
      assert SomeBrings(carriers, j, head, parts[j]);
      var k :| 0 <= k < |carriers| && Brings(carriers[k], j, head, parts[j]);
      SameIndex(carriers[k], j, head, parts[j], pieces[k].index, pieces[k].item);
    }
  }

  /** A chunk brings one part only. */
  lemma SameIndex(raw: bytes, i: nat, head: Head, data: bytes, j: nat, other: bytes)
    requires Brings(raw, i, head, data) && Brings(raw, j, head, other)
    ensures i == j && data == other
  {
    hide Data, ParseHeader, Carries;
    CarriedData(Data(raw), i, head, data);
    CarriedData(Data(raw), j, head, other);
    ParseHeaderExactly(Data(raw), i, head);
    ParseHeaderExactly(Data(raw), j, head);
  }

  lemma Assembles(table: Table<bytes>, parts: seq<bytes>, wurst: bytes)
    requires |table.pieces| == |parts| && table.expected == Some(Head(|parts|, |wurst|)) && Concat(parts) == wurst
    requires PiecesOf(table.pieces, parts) && NoneMissing(table.pieces)
    ensures Assemble(table) == Some(wurst)
  {
    hide Sort, Concat;
    var sorted := Sort(table.pieces);
    SortKeeps(table.pieces);
    forall j: nat | j < |sorted| ensures HasIndex(sorted, j) {
      assert HasIndex(table.pieces, j);
      var k :| 0 <= k < |table.pieces| && table.pieces[k].index == j;
      assert table.pieces[k] in multiset(sorted);
    }
    forall i | 0 <= i < |sorted| ensures sorted[i].index == i && sorted[i].item == parts[i] {
      NoneSkipped(sorted, i);
      NoneTwice(sorted, i);
      assert sorted[i] in multiset(table.pieces);
    }
    assert Items(sorted) == parts;
  }

  /** `extractWurstFromPng`, as a function of the file. */
  function Extracted(png: bytes): Option<bytes> {
    if Chunks(png).None? then None else Payload(Chunks(png).value)
  }

  /** `extractWurstFromPng`. */
  method ExtractWurstFromPng(png: bytes) returns (r: Option<bytes>)
    ensures r == Extracted(png)
  {
    hide Chunks, Kind, Image, AddChunk, SpansOf, Concat, Collect, Select, Assemble;
    var parsed := ParsePngChunks(png);
    if parsed.None? {
      return None;
    }
    ghost var raws := Chunks(png).value;
    ChunksExactly(png, raws);
    var table: Table<bytes> := Table(None, []);
    var i := 0;
    CollectNothing(raws);
    SpanAt(png, parsed.value, raws);
    while i < |parsed.value|
      invariant i <= |parsed.value| == |raws|
      invariant Collect(Select(raws[..i], true)) == Some(table)
    {
      var span := parsed.value[i];
      SpanAt(png, parsed.value, raws);
      SelectMore(raws, i, true);
      assert Select(raws[..i], true) + [] == Select(raws[..i], true);
      if span.kind == WURST {
        var added := AddChunk(table, png[span.start..span.end]);
        CollectMore(raws, i);
        if added.None? {
          CollectFails(raws, i + 1);
          return None;
        }
        table := added.value;
      }
      i := i + 1;
    }
    assert raws[..i] == raws;
    return Assemble(table);
  }

  lemma CollectNothing(raws: seq<bytes>)
    ensures Collect(Select(raws[..0], true)) == Some(Table(None, []))
  {
  }

  lemma SpanAt(png: bytes, spans: seq<Span>, raws: seq<bytes>)
    requires SpansOf(png, spans, raws)
    ensures |spans| == |raws|
    ensures forall i | 0 <= i < |spans| :: spans[i].start + 12 <= spans[i].end <= |png|
    ensures forall i | 0 <= i < |spans| :: png[spans[i].start..spans[i].end] == raws[i] && spans[i].kind == Kind(raws[i])
  {
  }

  /** Chunk by chunk: the selection grows by a chunk or not at all. */
  lemma SelectMore(raws: seq<bytes>, i: nat, carriers: bool)
    requires i < |raws|
    ensures Select(raws[..i + 1], carriers)
      == Select(raws[..i], carriers) + if IsCarrier(raws[i]) == carriers then [raws[i]] else []
  {
    hide Kind;
    assert raws[..i + 1][..i] == raws[..i];
  }

  lemma CollectMore(raws: seq<bytes>, i: nat)
    requires i < |raws| && IsCarrier(raws[i])
    requires Collect(Select(raws[..i], true)).Some?
    ensures Collect(Select(raws[..i + 1], true)) == AddChunk(Collect(Select(raws[..i], true)).value, raws[i])
  {
    hide Kind, AddChunk, Select;
    var before := Select(raws[..i], true);
    SelectMore(raws, i, true);
    assert (before + [raws[i]])[..|before|] == before;
  }

  lemma {:induction false} CollectFails(raws: seq<bytes>, i: nat)
    requires i <= |raws| && Collect(Select(raws[..i], true)).None?
    ensures Collect(Select(raws, true)).None?
    decreases |raws|
  {
    hide Kind, AddChunk;
    if i == |raws| {
      assert raws[..i] == raws;
    } else {
      var front := raws[..|raws| - 1];
      assert front[..i] == raws[..i];
      CollectFails(front, i);
      var chosen := Select(front, true);
      assert chosen + [] == chosen;
      assert (chosen + [raws[|raws| - 1]])[..|chosen|] == chosen;
    }
  }

  // ----- embedding

  /** The bytes of carrier `i`: carriers have `size` bytes each, and the last has the rest. */
  function Part(wurst: bytes, size: nat, i: nat): bytes {
    assert (i + 1) * size == i * size + size;
    wurst[Min(i * size, |wurst|)..Min((i + 1) * size, |wurst|)]
  }

  /** An empty Wurst still takes one carrier. */
  function PartCount(wurst: bytes, size: nat): (n: nat)
    requires size > 0
    ensures n >= 1
  {
    Max(1, (|wurst| + size - 1) / size)
  }

  function Carrier(wurst: bytes, size: nat, count: nat, i: nat): bytes {
    MakeChunk(WURST, MakeHeader(i, Head(count, |wurst|)) + Part(wurst, size, i))
  }

  function Carriers(wurst: bytes, size: nat, count: nat, n: nat): (r: seq<bytes>)
    ensures |r| == n
  {
    if n == 0 then [] else Carriers(wurst, size, count, n - 1) + [Carrier(wurst, size, count, n - 1)]
  }

  /** The chunks of the image that comes out: carriers of an earlier Wurst go, the new ones come in front of the end. */
  function Embedded(raws: seq<bytes>, wurst: bytes, size: nat): seq<bytes>
    requires Image(raws) && size > 0
  {
    var others := Select(raws, false);
    if others == [] then []
    else others[..|others| - 1] + Carriers(wurst, size, PartCount(wurst, size), PartCount(wurst, size)) + [others[|others| - 1]]
  }

  /** The sizes that `embedWurstInPng` accepts: 64 KiB to 64 MiB. */
  predicate SizeAllowed(size: nat) { 65536 <= size <= 67108864 }

  lemma PartsBound(wurst: bytes, size: nat, i: nat)
    requires size > 0
    ensures i * size <= (i + 1) * size && |Part(wurst, size, i)| <= size
    ensures Min(PartCount(wurst, size) * size, |wurst|) == |wurst|
  {
    assert (i + 1) * size == i * size + size;
    var x := |wurst| + size - 1;
    var n := PartCount(wurst, size);
    assert x == x / size * size + x % size;
    assert n * size >= x / size * size;
  }

  /** `embedWurstInPng`. A count beyond 32 bits does not fit the header. */
  method EmbedWurstInPng(png: bytes, wurst: bytes, size: nat) returns (r: Option<bytes>)
    ensures r.Some? <==> SizeAllowed(size) && Chunks(png).Some? && PartCount(wurst, size) < Pow256(4)
    ensures r.Some? ==> Image(Chunks(png).value) && r.value == SIGNATURE + Concat(Embedded(Chunks(png).value, wurst, size))
  {
    hide Chunks, Kind, Image, SpansOf, Concat, Carrier, Select, Pow256;
    if !SizeAllowed(size) {
      return None;
    }
    var parsed := ParsePngChunks(png);
    var count := PartCount(wurst, size);
    if parsed.None? || count >= Pow256(4) {
      return None;
    }
    ghost var raws := Chunks(png).value;
    ChunksExactly(png, raws);
    OthersEnd(raws);
    var carriers: seq<bytes> := [];
    while |carriers| < count
      invariant |carriers| <= count && carriers == Carriers(wurst, size, count, |carriers|)
    {
      carriers := carriers + [Carrier(wurst, size, count, |carriers|)];
    }
    SpanAt(png, parsed.value, raws);
    SelectNothing(raws, false);
    var output: seq<bytes> := [];
    var inserted := false;
    var i := 0;
    while i < |parsed.value|
      invariant i <= |parsed.value| == |raws| && inserted == (i == |raws|)
      invariant !inserted ==> output == Select(raws[..i], false)
      invariant inserted ==> output == Embedded(raws, wurst, size)
    {
      var span := parsed.value[i];
      SpanAt(png, parsed.value, raws);
      SelectMore(raws, i, false);
      KindAt(raws, i);
      if span.kind != WURST {
        if span.kind == IEND && !inserted {
          output := output + carriers;
          inserted := true;
        }
        output := output + [png[span.start..span.end]];
      }
      i := i + 1;
    }
    return Some(SIGNATURE + Concat(output));
  }

  lemma SelectNothing(raws: seq<bytes>, carriers: bool)
    ensures Select(raws[..0], carriers) == []
  {
  }

  lemma KindAt(raws: seq<bytes>, i: nat)
    requires Image(raws) && i < |raws|
    ensures |raws[i]| >= 12 && (Kind(raws[i]) == IEND <==> i == |raws| - 1)
  {
  }

  /** The end of the image is not a carrier. */
  lemma OthersEnd(raws: seq<bytes>)
    requires Image(raws)
    ensures raws != [] && Select(raws, false) == Select(raws[..|raws| - 1], false) + [raws[|raws| - 1]]
  {
    hide Kind, Image;
    ImageHead(raws);
    KindAt(raws, |raws| - 1);
  }

  lemma {:induction false} SelectAppend(a: seq<bytes>, b: seq<bytes>, carriers: bool)
    ensures Select(a + b, carriers) == Select(a, carriers) + Select(b, carriers)
    decreases |b|
  {
    hide Kind;
    if b == [] {
      assert a + b == a;
    } else {
      assert (a + b)[..|a + b| - 1] == a + b[..|b| - 1];
      SelectAppend(a, b[..|b| - 1], carriers);
    }
  }

  // ----- what comes out

  predicate Embeddable(raws: seq<bytes>, wurst: bytes, size: nat) {
    Image(raws) && SizeAllowed(size) && PartCount(wurst, size) < Pow256(4) && |wurst| <= MAX_SAFE_INTEGER
  }

  /** Every carrier is a chunk that reads back as its header and its part. */
  lemma CarrierReads(wurst: bytes, size: nat, count: nat, i: nat)
    requires SizeAllowed(size) && i < count < Pow256(4) && |wurst| <= MAX_SAFE_INTEGER
    ensures var raw := Carrier(wurst, size, count, i); |raw| >= 12 && Raw(raw) && Kind(raw) == WURST
    ensures var data := Data(Carrier(wurst, size, count, i));
      |data| >= HEADER_SIZE && data[HEADER_SIZE..] == Part(wurst, size, i) && ParseHeader(data) == Some(Indexed(i, Head(count, |wurst|)))
  {
    hide Kind, Raw, Data, ParseHeader, MakeHeader, MakeChunk, Pow256;
    Widths();
    PartsBound(wurst, size, i);
    var data := MakeHeader(i, Head(count, |wurst|)) + Part(wurst, size, i);
    HeaderRoundTrip(i, Head(count, |wurst|), Part(wurst, size, i));
    MadeChunk(WURST, data);
    RawSize(MakeChunk(WURST, data));
  }

  lemma RawSize(raw: bytes)
    requires Raw(raw)
    ensures |raw| >= 12
  {
  }

  /** The parts under their numbers. */
  function Numbered(wurst: bytes, size: nat, n: nat): (r: seq<Indexed<bytes>>)
    ensures |r| == n && InSequence(r)
  {
    if n == 0 then [] else Numbered(wurst, size, n - 1) + [Indexed(n - 1, Part(wurst, size, n - 1))]
  }

  /** Every one of the carriers is a carrier. */
  lemma {:induction false} CarriersAreCarriers(wurst: bytes, size: nat, count: nat, n: nat)
    requires SizeAllowed(size) && n <= count < Pow256(4) && |wurst| <= MAX_SAFE_INTEGER
    ensures forall k | 0 <= k < n :: IsCarrier(Carriers(wurst, size, count, n)[k]) && Raw(Carriers(wurst, size, count, n)[k])
    decreases n
  {
    hide Kind, Raw, Data, ParseHeader, Carrier, Part, Pow256;
    if n > 0 {
      var front := Carriers(wurst, size, count, n - 1);
      CarriersAreCarriers(wurst, size, count, n - 1);
      CarrierReads(wurst, size, count, n - 1);
      assert IsCarrier(Carrier(wurst, size, count, n - 1));
      assert Carriers(wurst, size, count, n) == front + [Carrier(wurst, size, count, n - 1)];
    }
  }

  lemma {:induction false} SelectsAllOrNone(raws: seq<bytes>)
    requires forall k | 0 <= k < |raws| :: IsCarrier(raws[k])
    ensures Select(raws, true) == raws && Select(raws, false) == []
    decreases |raws|
  {
    hide Kind;
    if raws != [] {
      SelectsAllOrNone(raws[..|raws| - 1]);
      assert raws == raws[..|raws| - 1] + [raws[|raws| - 1]];
    }
  }

  function Gathered(wurst: bytes, size: nat, count: nat, n: nat): Table<bytes> {
    Table(if n == 0 then None else Some(Head(count, |wurst|)), Numbered(wurst, size, n))
  }

  lemma GatherOne(wurst: bytes, size: nat, count: nat, n: nat)
    requires SizeAllowed(size) && n < count < Pow256(4) && |wurst| <= MAX_SAFE_INTEGER
    ensures AddChunk(Gathered(wurst, size, count, n), Carrier(wurst, size, count, n)) == Some(Gathered(wurst, size, count, n + 1))
  {
    hide Kind, Raw, Data, ParseHeader, Carrier, Part, Pow256;
    CarrierReads(wurst, size, count, n);
  }

  lemma {:induction false} CarriersGather(wurst: bytes, size: nat, count: nat, n: nat)
    requires SizeAllowed(size) && n <= count < Pow256(4) && |wurst| <= MAX_SAFE_INTEGER
    ensures Collect(Carriers(wurst, size, count, n)) == Some(Gathered(wurst, size, count, n))
    decreases n
  {
    hide Carrier, AddChunk, Pow256, Numbered;
    if n > 0 {
      var cs := Carriers(wurst, size, count, n);
      assert cs[..n - 1] == Carriers(wurst, size, count, n - 1);
      CarriersGather(wurst, size, count, n - 1);
      GatherOne(wurst, size, count, n - 1);
    } else {
      NothingGathered(wurst, size, count);
    }
  }

  lemma NothingGathered(wurst: bytes, size: nat, count: nat)
    ensures Gathered(wurst, size, count, 0) == Table(None, [])
  {
  }

  lemma CarriersCollect(wurst: bytes, size: nat, count: nat, n: nat)
    requires SizeAllowed(size) && n <= count < Pow256(4) && |wurst| <= MAX_SAFE_INTEGER
    ensures var cs := Carriers(wurst, size, count, n);
      (forall k | 0 <= k < n :: IsCarrier(cs[k]) && Raw(cs[k])) && Select(cs, true) == cs && Select(cs, false) == []
    ensures Collect(Carriers(wurst, size, count, n)) == Some(Gathered(wurst, size, count, n))
  {
    hide Kind, Carriers, Collect, Select, Gathered, Pow256;
    CarriersAreCarriers(wurst, size, count, n);
    SelectsAllOrNone(Carriers(wurst, size, count, n));
    CarriersGather(wurst, size, count, n);
  }

  /** Cut and joined: the parts are the Wurst again. */
  lemma {:induction false} PartsJoin(wurst: bytes, size: nat, n: nat)
    requires size > 0
    ensures Concat(Items(Numbered(wurst, size, n))) == wurst[..Min(n * size, |wurst|)]
    decreases n
  {
    if n > 0 {
      PartsJoin(wurst, size, n - 1);
      var items := Items(Numbered(wurst, size, n));
      assert items[..n - 1] == Items(Numbered(wurst, size, n - 1));
      assert n * size == (n - 1) * size + size;
    }
  }

  /** The three groups of chunks that come out, and what is a carrier among them. */
  lemma EmbeddedParts(raws: seq<bytes>, wurst: bytes, size: nat)
    requires Embeddable(raws, wurst, size)
    ensures var out, count := Embedded(raws, wurst, size), PartCount(wurst, size);
      Select(out, true) == Carriers(wurst, size, count, count)
    ensures var out := Embedded(raws, wurst, size); Select(out, false) == Select(raws, false)
  {
    hide Kind, Raw, Carrier, Select, Carriers, Image, Pow256, Collect;
    var count := PartCount(wurst, size);
    var cs := Carriers(wurst, size, count, count);
    CarriersCollect(wurst, size, count, count);
    OthersEnd(raws);
    var front, last := Select(raws[..|raws| - 1], false), raws[|raws| - 1];
    SelectSelected(raws[..|raws| - 1], false);
    KindAt(raws, |raws| - 1);
    SelectOne(last);
    SelectAppend(front, cs, true);
    SelectAppend(front + cs, [last], true);
    SelectAppend(front, cs, false);
    SelectAppend(front + cs, [last], false);
    assert [] + cs + [] == cs;
    assert front + [] + [last] == front + [last];
    assert Select(raws, false) == front + [last];
    assert Embedded(raws, wurst, size) == front + cs + [last];
  }

  lemma SelectOne(raw: bytes)
    requires |raw| >= 12 && Kind(raw) == IEND
    ensures Select([raw], false) == [raw] && Select([raw], true) == []
  {
    assert [raw][..0] == [];
  }

  lemma {:induction false} SelectSelected(raws: seq<bytes>, carriers: bool)
    ensures Select(Select(raws, carriers), carriers) == Select(raws, carriers) && Select(Select(raws, carriers), !carriers) == []
    decreases |raws|
  {
    hide Kind;
    if raws != [] {
      var front, last := raws[..|raws| - 1], raws[|raws| - 1];
      SelectSelected(front, carriers);
      var some := Select(front, carriers);
      if IsCarrier(last) == carriers {
        assert (some + [last])[..|some|] == some;
      } else {
        assert some + [] == some;
      }
    }
  }

  /** What comes out is an image again: nothing but its end ends it. */
  lemma EmbeddedIsImage(raws: seq<bytes>, wurst: bytes, size: nat)
    requires Embeddable(raws, wurst, size)
    ensures Image(Embedded(raws, wurst, size))
  {
    hide Kind, Raw, Carrier, Select, Carriers, Pow256, Collect;
    OthersEnd(raws);
    var count := PartCount(wurst, size);
    CarriersCollect(wurst, size, count, count);
    SelectInside(raws[..|raws| - 1], raws[..|raws| - 1]);
  }

  lemma {:induction false} SelectInside(raws: seq<bytes>, all: seq<bytes>)
    requires forall k | 0 <= k < |raws| :: raws[k] in all
    ensures forall k | 0 <= k < |Select(raws, false)| :: Select(raws, false)[k] in all
    decreases |raws|
  {
    hide Kind;
    if raws != [] {
      SelectInside(raws[..|raws| - 1], all);
    }
  }

  /** Extracting after embedding gives the Wurst. */
  lemma EmbeddedPayload(raws: seq<bytes>, wurst: bytes, size: nat)
    requires Embeddable(raws, wurst, size)
    ensures var out := Embedded(raws, wurst, size); Payload(out) == Some(wurst)
  {
    hide Kind, Embedded, Select, Collect, Carriers, Image, Pow256, Part, Concat;
    var count := PartCount(wurst, size);
    EmbeddedParts(raws, wurst, size);
    CarriersCollect(wurst, size, count, count);
    SortsToItself(Numbered(wurst, size, count));
    PartsJoin(wurst, size, count);
    PartsBound(wurst, size, count);
    assert wurst[..|wurst|] == wurst;
  }

  /** The file that `embedWurstInPng` returns is a PNG with the same other chunks, and carries exactly the Wurst. */
  lemma EmbedThenExtract(png: bytes, wurst: bytes, size: nat)
    requires Chunks(png).Some? && Embeddable(Chunks(png).value, wurst, size)
    ensures var out := SIGNATURE + Concat(Embedded(Chunks(png).value, wurst, size));
      Extracted(out) == Some(wurst) && Chunks(out) == Some(Embedded(Chunks(png).value, wurst, size))
    ensures var raws, out := Chunks(png).value, Embedded(Chunks(png).value, wurst, size);
      Select(out, false) == Select(raws, false)
  {
    hide Chunks, Embedded, Image, Select, Concat, Payload, Pow256;
    var raws := Chunks(png).value;
    EmbeddedIsImage(raws, wurst, size);
    EmbeddedParts(raws, wurst, size);
    EmbeddedPayload(raws, wurst, size);
    var out := Embedded(raws, wurst, size);
    ChunksExactly(SIGNATURE + Concat(out), out);
  }

  /** Embedding again replaces the Wurst: nothing of the earlier one remains. */
  lemma EmbedAgain(raws: seq<bytes>, earlier: bytes, size: nat, wurst: bytes, next: nat)
    requires Embeddable(raws, earlier, size) && next > 0
    ensures Image(Embedded(raws, earlier, size))
    ensures Embedded(Embedded(raws, earlier, size), wurst, next) == Embedded(raws, wurst, next)
  {
    hide Kind, Select, Collect, Carriers, Image, Pow256;
    EmbeddedIsImage(raws, earlier, size);
    EmbeddedParts(raws, earlier, size);
  }
}
