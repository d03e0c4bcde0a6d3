/**
 A Wurst read in place: `openPngWurstSource` keeps where the carriers lie and reads ranges of the Wurst from them.
 */
module PngSource {
  import opened Bytes
  import opened Png
  import opened PngCarrier

  /** Where the bytes of one carrier lie in the file. */
  datatype Location = Location(start: nat, length: nat)

  /** A piece of the opened source: its location, and where it begins in the Wurst. */
  datatype Placed = Placed(location: Location, virtualOffset: nat)

  datatype Source = Source(size: nat, pieces: seq<Placed>)

  function DataAt(png: bytes, at: Location): bytes {
    if at.start + at.length <= |png| then png[at.start..at.start + at.length] else []
  }

  /** The pieces with their bytes in place of their locations. */
  function Loaded(png: bytes, pieces: seq<Indexed<Location>>): (r: seq<Indexed<bytes>>)
    ensures |r| == |pieces|
  {
    seq(|pieces|, i requires 0 <= i < |pieces| => Indexed(pieces[i].index, DataAt(png, pieces[i].item)))
  }

  predicate Inside(png: bytes, pieces: seq<Indexed<Location>>) {
    forall i | 0 <= i < |pieces| :: pieces[i].item.start + pieces[i].item.length <= |png|
  }

  // ----- the chunks, found without the whole file

  /** A file that the lazy reader scans: bytes after the end of the image do not disturb it. */
  function Found(png: bytes): Option<seq<bytes>> { if IsPng(png) then Scan(png[8..]) else None }

  /** What the lazy reader serves. */
  function Served(png: bytes): Option<bytes> {
    if Found(png).None? then None else Payload(Found(png).value)
  }

  /** Both readers agree wherever the eager one accepts; the lazy one accepts more by trailing bytes exactly. */
  lemma ReadersAgree(png: bytes)
    ensures Extracted(png).Some? ==> Served(png) == Extracted(png)
    ensures Extracted(png).Some? <==> Served(png).Some? && |Concat(Found(png).value)| == |png| - 8
  {
    hide Scan, Concat, Image, Payload;
  }

  /** Bytes after the image change nothing of what is served. */
  lemma TrailingBytesIgnored(png: bytes, after: bytes)
    requires Extracted(png).Some?
    ensures Served(png + after) == Extracted(png)
  {
    hide Scan, Concat, Image, Payload;
    var raws := Chunks(png).value;
    ChunksExactly(png, raws);
    ScanConcat(raws, after);
    var all := png + after;
    assert all[8..] == Concat(raws) + after;
    assert all[..8] == SIGNATURE;
  }

  // ----- sorting locations is sorting bytes

  lemma {:induction false} InsertLoaded(png: bytes, s: seq<Indexed<Location>>, p: Indexed<Location>)
    ensures Loaded(png, Insert(s, p)) == Insert(Loaded(png, s), Indexed(p.index, DataAt(png, p.item)))
    decreases |s|
  {
    hide DataAt;
    var q := Indexed(p.index, DataAt(png, p.item));
    if s == [] {
    } else if s[|s| - 1].index <= p.index {
      assert Loaded(png, s + [p]) == Loaded(png, s) + [q];
    } else {
      var front, last := s[..|s| - 1], s[|s| - 1];
      InsertLoaded(png, front, p);
      assert Loaded(png, s)[..|s| - 1] == Loaded(png, front);
      assert Loaded(png, Insert(front, p) + [last]) == Loaded(png, Insert(front, p)) + [Indexed(last.index, DataAt(png, last.item))];
    }
  }

  lemma {:induction false} SortLoaded(png: bytes, s: seq<Indexed<Location>>)
    ensures Loaded(png, Sort(s)) == Sort(Loaded(png, s))
    decreases |s|
  {
    hide DataAt, Insert;
    if s == [] {
      assert Loaded(png, s) == [];
    } else {
      var front, last := s[..|s| - 1], s[|s| - 1];
      SortLoaded(png, front);
      InsertLoaded(png, Sort(front), last);
      assert Loaded(png, s)[..|s| - 1] == Loaded(png, front);
    }
  }

  // ----- opening

  /** The table of locations stands for the table of bytes. */
  ghost predicate Stands(png: bytes, table: Table<Location>, bytesOf: Table<bytes>) {
    table.expected == bytesOf.expected && Loaded(png, table.pieces) == bytesOf.pieces && Inside(png, table.pieces)
  }

  /** What the lazy reader keeps of a carrier between `start` and `end`. */
  function AddLocation(png: bytes, table: Table<Location>, start: nat, end: nat): Option<Table<Location>>
    requires start + 12 <= end <= |png|
  {
    if end - start - 12 < HEADER_SIZE then None
    else AddPiece(table, ParseHeader(png[start + 8..start + 8 + HEADER_SIZE]), Location(start + 8 + HEADER_SIZE, end - start - 12 - HEADER_SIZE))
  }

  /** Adding the location of a chunk stands for adding the chunk. */
  lemma LocationStands(png: bytes, table: Table<Location>, bytesOf: Table<bytes>, start: nat, end: nat)
    requires Stands(png, table, bytesOf) && start + 12 <= end <= |png|
    ensures AddedStands(png, AddLocation(png, table, start, end), AddChunk(bytesOf, png[start..end]))
  {
    hide BeValue, Pow256;
    var raw := png[start..end];
    var data := Data(raw);
    SliceOfSlice(png, start, end, 8, end - start - 4);
    if |data| >= HEADER_SIZE {
      SliceOfSlice(png, start + 8, end - 4, 0, HEADER_SIZE);
      SliceOfSlice(png, start + 8, end - 4, HEADER_SIZE, |data|);
      HeaderPrefix(data);
      var at := Location(start + 8 + HEADER_SIZE, end - start - 12 - HEADER_SIZE);
      assert DataAt(png, at) == data[HEADER_SIZE..];
      if ParseHeader(data).Some? {
        var p := Indexed(ParseHeader(data).value.index, at);
        assert Loaded(png, table.pieces + [p]) == Loaded(png, table.pieces) + [Indexed(p.index, data[HEADER_SIZE..])];
      }
    }
  }

  ghost predicate AddedStands(png: bytes, added: Option<Table<Location>>, bytesOf: Option<Table<bytes>>) {
    if added.None? then bytesOf.None? else bytesOf.Some? && Stands(png, added.value, bytesOf.value)
  }

  /** Only the first 24 bytes of a carrier are its header. */
  lemma HeaderPrefix(data: bytes)
    requires |data| >= HEADER_SIZE
    ensures ParseHeader(data) == ParseHeader(data[..HEADER_SIZE])
  {
    hide BeValue;
    var b := data[..HEADER_SIZE];
    assert b[..4] == data[..4] && b[4..6] == data[4..6] && b[8..12] == data[8..12] && b[12..16] == data[12..16] && b[16..24] == data[16..24];
  }

  /** A source tells where every item lies and where it begins, so that the items follow each other without a gap. */
  ghost predicate Describes(png: bytes, source: Source, items: seq<bytes>) {
    |source.pieces| == |items| && source.size == |Concat(items)|
    && (forall i | 0 <= i < |items| :: source.pieces[i].location.start + source.pieces[i].location.length <= |png|)
    && (forall i | 0 <= i < |items| :: DataAt(png, source.pieces[i].location) == items[i])
    && forall i | 0 <= i < |items| :: source.pieces[i].virtualOffset == |Concat(items[..i])|
  }

  ghost predicate Serves(png: bytes, source: Source, wurst: bytes) {
    exists items :: Describes(png, source, items) && Concat(items) == wurst
  }

  /** How far the scan has come, and the locations collected on the way. */
  ghost predicate Scanned(png: bytes, position: nat, seen: seq<bytes>, sawIend: bool, table: Table<Location>) {
    (exists spans :: Parsing(png, position, spans, seen, sawIend))
    && Collect(Select(seen, true)).Some? && Stands(png, table, Collect(Select(seen, true)).value)
  }

  lemma ScannedNothing(png: bytes)
    requires |png| >= 8
    ensures Scanned(png, 8, [], false, Table(None, []))
  {
    StartParsing(png);
    assert Loaded(png, []) == [];
  }

  /** A chunk that is not a carrier. */
  lemma ScannedOther(png: bytes, position: nat, seen: seq<bytes>, table: Table<Location>, end: nat)
    requires Scanned(png, position, seen, false, table) && position + 12 <= |png| && end == position + 12 + BeValue(png[position..position + 4])
    ensures end > |png| ==> Served(png) == None
    ensures end <= |png| && Kind(png[position..end]) != WURST ==>
      Scanned(png, end, seen + [png[position..end]], Kind(png[position..end]) == IEND, table)
  {
    hide Kind, BeValue, Scan, Concat, Collect, Select, Stands, Parsing, Payload;
    var spans :| Parsing(png, position, spans, seen, false);
    ParseStep(png, position, spans, seen, end);
    if end <= |png| && Kind(png[position..end]) != WURST {
      var more := seen + [png[position..end]];
      assert more[..|seen|] == seen && more[..|seen| + 1] == more;
      SelectMore(more, |seen|, true);
      assert Select(seen, true) + [] == Select(seen, true);
    }
  }

  /** Nothing is served once the chunks seen so far do not collect. */
  lemma NotServed(png: bytes, seen: seq<bytes>)
    requires |png| >= 8 && (exists rest :: Scan(png[8..]) == Prefixed(seen, rest))
    requires Collect(Select(seen, true)) == None
    ensures Served(png) == None
  {
    hide Kind, Scan, Concat, Collect, Select, Assemble;
    if Found(png).Some? {
      var raws := Found(png).value;
      assert raws[..|seen|] == seen;
      CollectFails(raws, |seen|);
    }
  }

  lemma ParsingPrefix(png: bytes, position: nat, spans: seq<Span>, seen: seq<bytes>)
    requires Parsing(png, position, spans, seen, false)
    ensures |png| >= 8 && exists rest :: Scan(png[8..]) == Prefixed(seen, rest)
  {
    hide Scan, Concat, SpansOf;
  }

  /** A carrier. */
  lemma ScannedCarrier(png: bytes, position: nat, seen: seq<bytes>, table: Table<Location>, end: nat)
    requires Scanned(png, position, seen, false, table) && position + 12 <= |png| && end == position + 12 + BeValue(png[position..position + 4])
    requires end <= |png| && Kind(png[position..end]) == WURST
    ensures var added := AddLocation(png, table, position, end);
      if added.None? then Served(png) == None else Scanned(png, end, seen + [png[position..end]], false, added.value)
  {
    hide Kind, BeValue, Scan, Concat, Collect, Select, Stands, Parsing, AddChunk, AddLocation;
    var spans :| Parsing(png, position, spans, seen, false);
    ParseStep(png, position, spans, seen, end);
    var raw := png[position..end];
    var more := seen + [raw];
    assert more[..|seen|] == seen && more[..|seen| + 1] == more;
    CollectMore(more, |seen|);
    LocationStands(png, table, Collect(Select(seen, true)).value, position, end);
    if AddLocation(png, table, position, end).None? {
      ParsingPrefix(png, end, spans + [Span(Kind(raw), position, end)], more);
      NotServed(png, more);
    }
  }

  /** The end of the scan. */
  lemma ScannedAll(png: bytes, position: nat, seen: seq<bytes>, sawIend: bool, table: Table<Location>)
    requires Scanned(png, position, seen, sawIend, table) && IsPng(png)
    ensures !sawIend && position + 12 > |png| ==> Served(png) == None
    ensures sawIend ==> Found(png) == Some(seen) && Inside(png, table.pieces)
    ensures sawIend ==> Served(png) == Assemble(Table(table.expected, Loaded(png, table.pieces)))
  {
    hide Kind, BeValue, Concat, Collect, Select, SpansOf, Assemble;
  }

  /** The locations in order, each at the offset where those before it end. */
  ghost predicate PlacedSoFar(png: bytes, sorted: seq<Indexed<Location>>, placed: seq<Placed>, offset: nat) {
    |placed| <= |sorted| && Inside(png, sorted)
    && offset == |Concat(Items(Loaded(png, sorted))[..|placed|])|
    && (forall i | 0 <= i < |placed| :: placed[i].location == sorted[i].item)
    && forall i | 0 <= i < |placed| :: placed[i].virtualOffset == |Concat(Items(Loaded(png, sorted))[..i])|
  }

  lemma PlaceOne(png: bytes, sorted: seq<Indexed<Location>>, placed: seq<Placed>, offset: nat)
    requires PlacedSoFar(png, sorted, placed, offset) && |placed| < |sorted|
    ensures var at := sorted[|placed|].item; PlacedSoFar(png, sorted, placed + [Placed(at, offset)], offset + at.length)
  {
    hide Concat;
    var items := Items(Loaded(png, sorted));
    var n := |placed|;
    assert items[..n + 1][..n] == items[..n];
    ConcatSnoc(items[..n], items[n]);
    assert items[..n + 1] == items[..n] + [items[n]];
  }

  lemma ConcatSnoc(parts: seq<bytes>, last: bytes)
    ensures Concat(parts + [last]) == Concat(parts) + last
  {
    ConcatAppend(parts, [last]);
    ConcatOne(last);
  }

  lemma AllPlaced(png: bytes, sorted: seq<Indexed<Location>>, placed: seq<Placed>, offset: nat)
    requires PlacedSoFar(png, sorted, placed, offset) && |placed| == |sorted|
    ensures Describes(png, Source(offset, placed), Items(Loaded(png, sorted)))
    ensures offset == |Concat(Items(Loaded(png, sorted)))|
  {
    hide Concat;
    var items := Items(Loaded(png, sorted));
    assert items[..|items|] == items;
  }

  /** Sorted locations are in sequence exactly when the sorted bytes are. */
  lemma OrderLoaded(png: bytes, table: Table<Location>)
    ensures var bytesOf := Table(table.expected, Loaded(png, table.pieces));
      if table.expected.Some? && |table.pieces| == table.expected.value.count && InSequence(Sort(table.pieces))
      then Ordered(bytesOf) == Some(Loaded(png, Sort(table.pieces))) else Ordered(bytesOf) == None
  {
    hide Sort, DataAt;
    SortLoaded(png, table.pieces);
    var sorted, loaded := Sort(table.pieces), Loaded(png, Sort(table.pieces));
    assert forall i | 0 <= i < |sorted| :: loaded[i].index == sorted[i].index;
  }

  lemma InsideSorted(png: bytes, pieces: seq<Indexed<Location>>)
    requires Inside(png, pieces)
    ensures Inside(png, Sort(pieces))
  {
    hide Sort;
    SortKeeps(pieces);
    var sorted := Sort(pieces);
    forall i | 0 <= i < |sorted| ensures sorted[i].item.start + sorted[i].item.length <= |png| {
      assert sorted[i] in multiset(sorted);
      assert sorted[i] in pieces;
    }
  }

  /** `openPngWurstSource`: opens exactly the files that serve something, and says where it lies. */
  method OpenPngWurstSource(png: bytes) returns (r: Option<Source>)
    ensures r.Some? <==> Served(png).Some?
    ensures r.Some? ==> Serves(png, r.value, Served(png).value)
  {
    hide Kind, BeValue, Scanned, Served, Found, Describes, PlacedSoFar, Loaded, Concat, Inside, Sort, Collect, Select, Scan, AddLocation;
    if |png| < 20 || !IsPng(png) {
      TooSmall(png);
      return None;
    }
    var position := 8;
    var sawIend := false;
    var table: Table<Location> := Table(None, []);
    ghost var seen: seq<bytes> := [];
    ScannedNothing(png);
    while position + 12 <= |png| && !sawIend
      invariant position <= |png| && Scanned(png, position, seen, sawIend, table)
      decreases |png| - position, !sawIend
    {
      var end := position + 12 + BeValue(png[position..position + 4]);
      ScannedOther(png, position, seen, table, end);
      if end > |png| {
        return None;
      }
      var kind := Kind(png[position..end]);
      if kind == WURST {
        ScannedCarrier(png, position, seen, table, end);
        var added := AddLocation(png, table, position, end);
        if added.None? {
          return None;
        }
        table := added.value;
      }
      seen := seen + [png[position..end]];
      position := end;
      sawIend := kind == IEND;
    }
    ScannedAll(png, position, seen, sawIend, table);
    if !sawIend {
      return None;
    }
    r := PlaceAll(png, table);
  }

  lemma TooSmall(png: bytes)
    requires |png| < 20 || !IsPng(png)
    ensures Served(png) == None
  {
  }

  /** The end of `openPngWurstSource`: sorting, checking the numbers and adding up the lengths. */
  method PlaceAll(png: bytes, table: Table<Location>) returns (r: Option<Source>)
    requires Inside(png, table.pieces)
    ensures r.Some? <==> Assemble(Table(table.expected, Loaded(png, table.pieces))).Some?
    ensures r.Some? ==> Serves(png, r.value, Assemble(Table(table.expected, Loaded(png, table.pieces))).value)
  {
    hide Describes, PlacedSoFar, Loaded, Concat, Inside, Sort;
    OrderLoaded(png, table);
    if table.expected.None? {
      return None;
    }
    var sorted := Sort(table.pieces);
    if |sorted| != table.expected.value.count {
      return None;
    }
    InsideSorted(png, table.pieces);
    var placed: seq<Placed> := [];
    var offset: nat := 0;
    PlacedNone(png, sorted);
    while |placed| < |sorted|
      invariant |placed| <= |sorted| && PlacedSoFar(png, sorted, placed, offset)
      invariant forall i | 0 <= i < |placed| :: sorted[i].index == i
    {
      PlaceOne(png, sorted, placed, offset);
      var piece := sorted[|placed|];
      if piece.index != |placed| {
        return None;
      }
      placed := placed + [Placed(piece.item, offset)];
      offset := offset + piece.item.length;
    }
    AllPlaced(png, sorted, placed, offset);
    if offset != table.expected.value.total {
      return None;
    }
    return Some(Source(offset, placed));
  }

  lemma PlacedNone(png: bytes, sorted: seq<Indexed<Location>>)
    requires Inside(png, sorted)
    ensures PlacedSoFar(png, sorted, [], 0)
  {
  }

  // ----- reading

  lemma {:induction false} ConcatGrows(items: seq<bytes>, i: nat)
    requires i <= |items|
    ensures Concat(items[..i]) <= Concat(items)
    decreases |items|
  {
    if i == |items| {
      assert items[..i] == items;
    } else {
      assert items[..|items| - 1][..i] == items[..i];
      ConcatGrows(items[..|items| - 1], i);
    }
  }

  /** Where item `i` lies in the whole. */
  lemma ItemAt(items: seq<bytes>, i: nat)
    requires i < |items|
    ensures var lo := |Concat(items[..i])|;
      |Concat(items[..i + 1])| == lo + |items[i]| && lo + |items[i]| <= |Concat(items)| && Concat(items)[lo..lo + |items[i]|] == items[i]
  {
    ConcatGrows(items, i + 1);
    assert items[..i + 1][..i] == items[..i];
  }

  /** What one piece adds to a range: the bytes of the file where the two overlap. */
  function PieceOverlap(png: bytes, piece: Placed, from: nat, to: nat): bytes
    requires piece.location.start + piece.location.length <= |png| && from <= to
  {
    var start, end := piece.virtualOffset, piece.virtualOffset + piece.location.length;
    if end <= from || start >= to then []
    else png[piece.location.start + (Max(from, start) - start)..piece.location.start + (Min(to, end) - start)]
  }

  lemma ReadStep(png: bytes, source: Source, items: seq<bytes>, i: nat, from: nat, to: nat)
    requires Describes(png, source, items) && i < |items| && from <= to <= |Concat(items)|
    ensures |source.pieces| == |items| && source.pieces[i].location.start + source.pieces[i].location.length <= |png|
    ensures Clip(Concat(items), from, to, |Concat(items[..i + 1])|)
      == Clip(Concat(items), from, to, |Concat(items[..i])|) + PieceOverlap(png, source.pieces[i], from, to)
  {
    hide Concat, Clip;
    ItemAt(items, i);
    var piece := source.pieces[i];
    var start, end := piece.virtualOffset, piece.virtualOffset + piece.location.length;
    ClipMore(Concat(items), from, to, start, end);
    if !(end <= from || start >= to) {
      SliceOfSlice(png, piece.location.start, piece.location.start + piece.location.length, Max(from, start) - start, Min(to, end) - start);
    }
  }

  /** `read`: any range of the Wurst, from the carriers that overlap it. */
  method ReadSource(png: bytes, source: Source, position: int, length: int, ghost items: seq<bytes>) returns (r: Option<bytes>)
    requires Describes(png, source, items)
    ensures r.Some? <==> 0 <= position && 0 <= length && position + length <= |Concat(items)|
    ensures r.Some? ==> r.value == Concat(items)[position..position + length]
  {
    hide Concat, Describes, Clip, PieceOverlap;
    DescribesSize(png, source, items);
    if position < 0 || length < 0 || position + length > source.size {
      return None;
    }
    if length == 0 {
      return Some([]);
    }
    var output: bytes := [];
    var requestedEnd := position + length;
    var i := 0;
    ClipNone(Concat(items), position, requestedEnd);
    while i < |source.pieces| && |output| < length
      invariant i <= |items|
      invariant output == Clip(Concat(items), position, requestedEnd, |Concat(items[..i])|)
    {
      ReadStep(png, source, items, i, position, requestedEnd);
      output := output + PieceOverlap(png, source.pieces[i], position, requestedEnd);
      i := i + 1;
    }
    assert i == |items| ==> items[..i] == items;
    ClipAll(Concat(items), position, requestedEnd, |Concat(items[..i])|);
    return Some(output);
  }

  lemma DescribesSize(png: bytes, source: Source, items: seq<bytes>)
    requires Describes(png, source, items)
    ensures |source.pieces| == |items| && source.size == |Concat(items)| && Concat(items[..0]) == []
  {
  }
}
