/**
 Extent maps: the virtual address space of an object, cut into DATA records.
 */
module Extents {
  import opened Bytes
  import opened Keys
  import opened SortedEntries
  import opened CowIndex
  import opened ObjectTypes

  const DATA_CHUNK: nat := 4194304

  /** DATA record `x.recordOffset` holds exactly `data`. */
  predicate HoldsData(pages: Pages, x: Extent, data: bytes) {
    x.recordOffset < |pages| && pages[x.recordOffset] == Other(DataValue(data))
  }

  /** Extents `xs` cover `own`, placed at virtual offset `from`, without hole or overlap. */
  ghost predicate Tiled(pages: Pages, xs: seq<Extent>, from: nat, own: bytes)
    decreases |xs|
  {
    if xs == [] then own == []
    else
      var x := xs[0];
      x.virtualOffset == from && 0 < x.length <= |own| && HoldsData(pages, x, own[..x.length])
      && Tiled(pages, xs[1..], from + x.length, own[x.length..])
  }

  function KeyOf(x: Extent): Entry<Value> { Entry(ExtentKey(x.virtualOffset), ExtentValue(x)) }

  function Keyed(xs: seq<Extent>): (es: seq<Entry<Value>>)
    ensures |es| == |xs| && forall i | 0 <= i < |xs| :: es[i] == KeyOf(xs[i])
  {
    seq(|xs|, i requires 0 <= i < |xs| => KeyOf(xs[i]))
  }

  lemma {:induction false} TiledGrow(pages: Pages, more: Pages, xs: seq<Extent>, from: nat, own: bytes)
    requires pages <= more && Tiled(pages, xs, from, own)
    ensures Tiled(more, xs, from, own)
    decreases |xs|
  {
    if xs != [] {
      TiledGrow(pages, more, xs[1..], from + xs[0].length, own[xs[0].length..]);
    }
  }

  lemma {:induction false} TiledConcat(pages: Pages, xs: seq<Extent>, ys: seq<Extent>, from: nat, a: bytes, b: bytes)
    requires Tiled(pages, xs, from, a) && Tiled(pages, ys, from + |a|, b)
    ensures Tiled(pages, xs + ys, from, a + b)
    decreases |xs|
  {
    if xs == [] {
      assert xs + ys == ys && a + b == b;
    } else {
      var n := xs[0].length;
      assert (xs + ys)[1..] == xs[1..] + ys && (a + b)[n..] == a[n..] + b && (a + b)[..n] == a[..n];
      TiledConcat(pages, xs[1..], ys, from + n, a[n..], b);
    }
  }

  lemma TiledOne(pages: Pages, x: Extent, data: bytes)
    requires data != [] && x.length == |data| && HoldsData(pages, x, data)
    ensures Tiled(pages, [x], x.virtualOffset, data)
  {
    assert [x][1..] == [] && data[..|data|] == data && data[|data|..] == [];
  }

  /** Every extent starts below the end of the tiling. */
  lemma {:induction false} TiledBelow(pages: Pages, xs: seq<Extent>, from: nat, own: bytes, i: nat)
    requires Tiled(pages, xs, from, own) && i < |xs|
    ensures from <= xs[i].virtualOffset < from + |own| && xs[i].virtualOffset + xs[i].length <= from + |own|
    decreases |xs|
  {
    if i > 0 {
      TiledBelow(pages, xs[1..], from + xs[0].length, own[xs[0].length..], i - 1);
    }
  }

  lemma KeyedBelow(pages: Pages, xs: seq<Extent>, from: nat, own: bytes)
    requires Tiled(pages, xs, from, own) && from + |own| <= MAX_SAFE_INTEGER
    ensures AllBelow(Keyed(xs), ExtentKey(from + |own|))
  {
    hide Lt, ExtentKey, Tiled;
    forall i | 0 <= i < |xs| ensures Lt(Keyed(xs)[i].key, ExtentKey(from + |own|)) {
      TiledBelow(pages, xs, from, own, i);
      ExtentKeyOrder(xs[i].virtualOffset, from + |own|);
    }
  }

  // ----- reading a range

  /** The entries that `_readExtentRange` selects: the floor of the start, unless the range already begins with it, then the range. */
  function Selection(es: seq<Entry<Value>>, lower: Key, upper: Key): seq<Entry<Value>> {
    var floor := Floor(es, lower);
    var ranged := Within(es, Some(lower), Some(upper));
    if floor.Some? && (ranged == [] || floor.value.key != ranged[0].key) then [floor.value] + ranged else ranged
  }

  /** From an extent at or after the start, the range takes every extent below the end. */
  lemma {:induction false} RangeTiles(pages: Pages, xs: seq<Extent>, from: nat, own: bytes, start: nat, end: nat) returns (n: nat, m: nat)
    requires Tiled(pages, xs, from, own) && start <= from && start <= end <= MAX_SAFE_INTEGER && from + |own| <= MAX_SAFE_INTEGER
    ensures n <= |xs| && m <= |own| && Within(Keyed(xs), Some(ExtentKey(start)), Some(ExtentKey(end))) == Keyed(xs[..n])
    ensures Tiled(pages, xs[..n], from, own[..m]) && (m == |own| || end <= from + m)
    decreases |xs|
  {
    hide Lt, ExtentKey;
    if xs == [] {
      return 0, 0;
    }
    var x := xs[0];
    ExtentKeyOrder(x.virtualOffset, start);
    ExtentKeyOrder(x.virtualOffset, end);
    assert Keyed(xs)[1..] == Keyed(xs[1..]);
    if end <= from {
      NoneInRange(pages, xs, from, own, start, end);
      assert own[..0] == [] && xs[..0] == [];
      return 0, 0;
    }
    n, m := RangeTiles(pages, xs[1..], from + x.length, own[x.length..], start, end);
    n, m := n + 1, m + x.length;
    assert xs[..n][1..] == xs[1..][..n - 1];
    assert own[..m][x.length..] == own[x.length..][..m - x.length] && own[..m][..x.length] == own[..x.length];
    assert Keyed(xs[..n]) == [KeyOf(x)] + Keyed(xs[1..][..n - 1]);
  }

  lemma NoneInRange(pages: Pages, xs: seq<Extent>, from: nat, own: bytes, start: nat, end: nat)
    requires Tiled(pages, xs, from, own) && end <= from && from + |own| <= MAX_SAFE_INTEGER
    ensures Within(Keyed(xs), Some(ExtentKey(start)), Some(ExtentKey(end))) == []
  {
    hide Lt, ExtentKey, Tiled;
    forall i | 0 <= i < |xs| ensures !InRange(Keyed(xs)[i].key, Some(ExtentKey(start)), Some(ExtentKey(end))) {
      TiledBelow(pages, xs, from, own, i);
      ExtentKeyOrder(xs[i].virtualOffset, end);
    }
    WithinNone(Keyed(xs), Some(ExtentKey(start)), Some(ExtentKey(end)));
  }

  /** The selected entries tile an interval that covers everything asked for. */
  lemma {:induction false} SelectionTiles(pages: Pages, xs: seq<Extent>, from: nat, own: bytes, start: nat, end: nat)
    returns (ys: seq<Extent>, lo: nat, hi: nat)
    requires Tiled(pages, xs, from, own) && from <= start < end <= from + |own| <= MAX_SAFE_INTEGER
    ensures Selection(Keyed(xs), ExtentKey(start), ExtentKey(end)) == Keyed(ys)
    ensures lo <= hi <= |own| && from + lo <= start && end <= from + hi && Tiled(pages, ys, from + lo, own[lo..hi])
    decreases |xs|
  {
    hide Lt, ExtentKey, Selection, HoldsData, Keyed;
    var x := xs[0];
    if start >= from + x.length {
      SelectionSkips(pages, xs, from, own, start, end);
      ys, lo, hi := SelectionTiles(pages, xs[1..], from + x.length, own[x.length..], start, end);
      SliceOfSlice(own, x.length, |own|, lo, hi);
      assert own[x.length..|own|] == own[x.length..];
      lo, hi := lo + x.length, hi + x.length;
    } else {
      var n, m := RangeTiles(pages, xs[1..], from + x.length, own[x.length..], start, end);
      SelectionStarts(pages, xs, from, own, start, end);
      ys, lo, hi := [x] + xs[1..][..n], 0, x.length + m;
      FirstThenRange(pages, x, xs[1..][..n], from, own, m);
    }
  }

  lemma FirstThenRange(pages: Pages, x: Extent, rest: seq<Extent>, from: nat, own: bytes, m: nat)
    requires x.virtualOffset == from && 0 < x.length && x.length + m <= |own| && HoldsData(pages, x, own[..x.length])
    requires Tiled(pages, rest, from + x.length, own[x.length..][..m])
    ensures Tiled(pages, [x] + rest, from, own[0..x.length + m]) && Keyed([x] + rest) == [KeyOf(x)] + Keyed(rest)
  {
    hide HoldsData;
    var d := own[0..x.length + m];
    assert d[x.length..] == own[x.length..][..m] && d[..x.length] == own[..x.length];
    assert ([x] + rest)[1..] == rest;
  }

  /** An extent that ends at or before the start plays no part. */
  lemma SelectionSkips(pages: Pages, xs: seq<Extent>, from: nat, own: bytes, start: nat, end: nat)
    requires Tiled(pages, xs, from, own) && xs != [] && from + xs[0].length <= start < end <= from + |own| <= MAX_SAFE_INTEGER
    ensures Selection(Keyed(xs), ExtentKey(start), ExtentKey(end)) == Selection(Keyed(xs[1..]), ExtentKey(start), ExtentKey(end))
  {
    hide Lt, ExtentKey, Floor;
    var x := xs[0];
    assert Keyed(xs) == [KeyOf(x)] + Keyed(xs[1..]);
    ExtentKeyOrder(x.virtualOffset, start);
    FloorConcat([KeyOf(x)], Keyed(xs[1..]), ExtentKey(start));
    WithinConcat([KeyOf(x)], Keyed(xs[1..]), Some(ExtentKey(start)), Some(ExtentKey(end)));
    WithinNone([KeyOf(x)], Some(ExtentKey(start)), Some(ExtentKey(end)));
    assert xs[1..] != [];
    var y := xs[1..][0];
    assert y.virtualOffset == from + x.length;
    ExtentKeyOrder(start, y.virtualOffset);
    FloorNonempty(Keyed(xs[1..]), ExtentKey(start));
  }

  /** The extent that contains the start comes first. */
  lemma SelectionStarts(pages: Pages, xs: seq<Extent>, from: nat, own: bytes, start: nat, end: nat)
    requires Tiled(pages, xs, from, own) && xs != [] && from <= start < from + xs[0].length && start < end <= from + |own| <= MAX_SAFE_INTEGER
    ensures Selection(Keyed(xs), ExtentKey(start), ExtentKey(end))
      == [KeyOf(xs[0])] + Within(Keyed(xs[1..]), Some(ExtentKey(start)), Some(ExtentKey(end)))
  {
    hide Lt, ExtentKey, Floor;
    var x := xs[0];
    var rest := Keyed(xs[1..]);
    var lower, upper := ExtentKey(start), ExtentKey(end);
    assert Keyed(xs) == [KeyOf(x)] + rest;
    ExtentKeyOrder(x.virtualOffset, start);
    ExtentKeyOrder(start, x.virtualOffset);
    ExtentKeyOrder(x.virtualOffset, end);
    FloorConcat([KeyOf(x)], rest, lower);
    FloorNonempty([KeyOf(x)], lower);
    FloorOne(KeyOf(x), lower);
    FloorRest(pages, xs, from, own, start);
    WithinConcat([KeyOf(x)], rest, Some(lower), Some(upper));
    WithinOne(KeyOf(x), Some(lower), Some(upper));
    if x.virtualOffset < start {
      RangeAvoids(rest, Some(lower), Some(upper), KeyOf(x).key);
    }
  }

  lemma FloorOne(e: Entry<Value>, k: Key)
    requires AtMost(e.key, k)
    ensures Floor([e], k) == Some(e)
  {
  }

  lemma WithinOne(e: Entry<Value>, gte: Option<Key>, lt: Option<Key>)
    ensures Within([e], gte, lt) == if InRange(e.key, gte, lt) then [e] else []
  {
    assert [e][1..] == [];
  }

  lemma RangeAvoids(es: seq<Entry<Value>>, gte: Option<Key>, lt: Option<Key>, k: Key)
    requires !InRange(k, gte, lt)
    ensures var r := Within(es, gte, lt); r != [] ==> r[0].key != k
  {
    hide InRange;
    var r := Within(es, gte, lt);
    if r != [] {
      WithinMember(es, gte, lt, r[0]);
    }
  }

  lemma FloorRest(pages: Pages, xs: seq<Extent>, from: nat, own: bytes, start: nat)
    requires Tiled(pages, xs, from, own) && xs != [] && start < from + xs[0].length && from + |own| <= MAX_SAFE_INTEGER
    ensures Floor(Keyed(xs[1..]), ExtentKey(start)) == None
  {
    hide Lt, ExtentKey, Floor;
    forall i | 0 <= i < |xs| - 1 ensures Lt(ExtentKey(start), Keyed(xs[1..])[i].key) {
      TiledBelow(pages, xs[1..], from + xs[0].length, own[xs[0].length..], i);
      ExtentKeyOrder(start, xs[1..][i].virtualOffset);
    }
    FloorNothing(Keyed(xs[1..]), ExtentKey(start));
  }

  lemma {:induction false} FloorNothing(es: seq<Entry<Value>>, k: Key)
    requires forall i | 0 <= i < |es| :: Lt(k, es[i].key)
    ensures Floor(es, k) == None
  {
    if es != [] {
      FloorNothing(es[..|es| - 1], k);
    }
  }

  /** `_readExtentValue`: part of the DATA record behind an extent; any other record type is an error. */
  method ReadExtentValue(arena: PageArena<Value>, x: Extent, relativeOffset: nat, length: nat) returns (r: Option<bytes>)
    ensures forall data :: HoldsData(arena.pages, x, data) && relativeOffset + length <= |data| ==> r == Some(data[relativeOffset..relativeOffset + length])
  {
    if x.recordOffset >= |arena.pages| {
      return None;
    }
    match arena.pages[x.recordOffset] {
      case Other(DataValue(data)) =>
        // subarray clamps
        var hi := Min(|data|, relativeOffset + length);
        return Some(data[Min(relativeOffset, hi)..hi]);
      case _ => return None;
    }
  }

  /**
   `_readExtentRange`: over an extent index that tiles `own` from `from`, a read returns exactly the slice;
   the thrown errors for a hole and for a truncated space never happen.
   */
  method ReadExtentRange(index: PersistentCowIndex<Value>, root: Option<Pointer>, offset: nat, length: nat,
    ghost xs: seq<Extent>, ghost from: nat, ghost own: bytes) returns (r: Option<bytes>)
    requires WfRoot(index.arena.pages, index.name, root) && EntriesAt(index.arena.pages, index.name, root) == Keyed(xs)
    requires Tiled(index.arena.pages, xs, from, own)
    requires from <= offset && offset + length <= from + |own| <= MAX_SAFE_INTEGER
    ensures r == Some(own[offset - from..offset - from + length])
  {
    hide Wf, Entries, Lt, ExtentKey, Floor, Within, Tiled;
    if length == 0 {
      assert own[offset - from..offset - from] == [];
      return Some([]);
    }
    var end := offset + length;
    var lower, upper := ExtentKey(offset), ExtentKey(end);
    var floor := index.FloorOf(root, lower);
    var ranged := index.Range(root, Some(lower), Some(upper), None);
    var entries := if floor.Some? && (ranged == [] || floor.value.key != ranged[0].key) then [floor.value] + ranged else ranged;
    ghost var ys, lo, hi := SelectionTiles(index.arena.pages, xs, from, own, offset, end);
    assert entries == Keyed(ys);
    r := Assemble(index.arena, entries, offset, end, ys, from + lo, own[lo..hi]);
    SliceOfSlice(own, lo, hi, offset - from - lo, end - from - lo);
  }

  /** The loop of `_readExtentRange` over the selected entries. */
  method Assemble(arena: PageArena<Value>, entries: seq<Entry<Value>>, start: nat, end: nat, ghost ys: seq<Extent>, ghost from: nat, ghost data: bytes)
    returns (r: Option<bytes>)
    requires entries == Keyed(ys) && Tiled(arena.pages, ys, from, data) && from <= start < end <= from + |data|
    ensures r == Some(data[start - from..end - from])
  {
    hide ExtentKey, HoldsData, Tiled;
    var chunks: bytes := [];
    var cursor := start;
    var i := 0;
    ghost var p := from;
    assert ys[0..] == ys && data[0..] == data && data[start - from..start - from] == [];
    while i < |entries| && cursor < end
      invariant i <= |entries| && from <= p <= from + |data|
      invariant Tiled(arena.pages, ys[i..], p, data[p - from..])
      invariant start <= cursor <= end && cursor == Min(end, Max(start, p))
      invariant chunks == data[start - from..cursor - from]
    {
      TiledStep(arena.pages, ys, i, p, data, p - from);
      match entries[i].value {
        case ExtentValue(extent) =>
          if extent.virtualOffset > cursor {
            assert false;
            return None;
          }
          var part, next := TakeExtent(arena, extent, cursor, end, data[p - from..p - from + extent.length]);
          JoinParts(data, start - from, cursor - from, next - from, p - from, p - from + extent.length);
          chunks := chunks + part;
          cursor := next;
          p := p + extent.length;
        case _ =>
          assert false;
          return None;
      }
      i := i + 1;
    }
    if cursor != end {
      assert ys[i..] == [];
      TiledEmpty(arena.pages, ys[i..], p, data[p - from..]);
      assert false;
      return None;
    }
    return Some(chunks);
  }

  /** One turn of the loop: nothing of an extent that lies before the cursor, else its part below the end. */
  method TakeExtent(arena: PageArena<Value>, extent: Extent, cursor: nat, end: nat, ghost data: bytes) returns (part: bytes, next: nat)
    requires HoldsData(arena.pages, extent, data) && |data| == extent.length && extent.virtualOffset <= cursor < end
    ensures next == Max(cursor, Min(end, extent.virtualOffset + extent.length))
    ensures part == if next == cursor then [] else data[cursor - extent.virtualOffset..next - extent.virtualOffset]
  {
    var extentStart, extentEnd := extent.virtualOffset, extent.virtualOffset + extent.length;
    if extentEnd <= cursor {
      return [], cursor;
    }
    var from, to := Max(cursor, extentStart), Min(end, extentEnd);
    var read := ReadExtentValue(arena, extent, from - extentStart, to - from);
    return read.value, to;
  }

  lemma JoinParts(data: bytes, a: nat, b: nat, c: nat, lo: nat, hi: nat)
    requires a <= b <= c <= |data| && lo <= hi <= |data| && (b == c || (lo <= b && c <= hi))
    ensures data[a..b] + (if b == c then [] else data[lo..hi][b - lo..c - lo]) == data[a..c]
  {
    if b < c {
      SliceOfSlice(data, lo, hi, b - lo, c - lo);
    }
  }

  lemma TiledEmpty(pages: Pages, xs: seq<Extent>, from: nat, own: bytes)
    requires Tiled(pages, xs, from, own) && xs == []
    ensures own == []
  {
  }

  /** The next extent of a tiling, in terms of the whole. */
  lemma TiledStep(pages: Pages, ys: seq<Extent>, i: nat, p: nat, data: bytes, at: nat)
    requires i < |ys| && at <= |data| && Tiled(pages, ys[i..], p, data[at..])
    ensures var x := ys[i];
      x.virtualOffset == p && 0 < x.length && at + x.length <= |data| && HoldsData(pages, x, data[at..at + x.length])
      && Tiled(pages, ys[i + 1..], p + x.length, data[at + x.length..])
  {
    hide HoldsData;
    var x := ys[i];
    assert ys[i..][0] == x && ys[i..][1..] == ys[i + 1..];
    assert data[at..][x.length..] == data[at + x.length..] && data[at..][..x.length] == data[at..at + x.length];
  }

  // ----- writing

  /** `_writeArenaData` and the extents it stands for: one DATA record per chunk, none for empty data. */
  method AppendData(arena: PageArena<Value>, data: bytes, virtualStart: nat) returns (xs: seq<Extent>)
    modifies arena
    ensures old(arena.pages) <= arena.pages
    ensures Tiled(arena.pages, xs, virtualStart, data)
  {
    hide PointerTo;
    xs := [];
    var offset := 0;
    assert data[..0] == [];
    while offset < |data|
      invariant offset <= |data| && old(arena.pages) <= arena.pages
      invariant Tiled(arena.pages, xs, virtualStart, data[..offset])
    {
      var chunk := data[offset..Min(|data|, offset + DATA_CHUNK)];
      ghost var before := arena.pages;
      var recordOffset := |arena.pages|;
      var _ := arena.Write(Other(DataValue(chunk)));
      var x := Extent(virtualStart + offset, |chunk|, recordOffset);
      TiledGrow(before, arena.pages, xs, virtualStart, data[..offset]);
      TiledOne(arena.pages, x, chunk);
      TiledConcat(arena.pages, xs, [x], virtualStart, data[..offset], chunk);
      assert data[..offset] + chunk == data[..offset + |chunk|];
      xs := xs + [x];
      offset := offset + |chunk|;
    }
    assert data[..offset] == data;
  }

  /** Adding the extents that follow a tiling extends it. */
  method SetExtents(index: PersistentCowIndex<Value>, root: Option<Pointer>, more: seq<Extent>,
    ghost xs: seq<Extent>, ghost from: nat, ghost own: bytes, ghost data: bytes) returns (r: Option<Pointer>)
    requires WfRoot(index.arena.pages, index.name, root) && EntriesAt(index.arena.pages, index.name, root) == Keyed(xs)
    requires Tiled(index.arena.pages, xs, from, own) && Tiled(index.arena.pages, more, from + |own|, data)
    requires from + |own| + |data| <= MAX_SAFE_INTEGER
    modifies index.arena
    ensures old(index.arena.pages) <= index.arena.pages
    ensures WfRoot(index.arena.pages, index.name, r) && EntriesAt(index.arena.pages, index.name, r) == Keyed(xs + more)
    ensures Tiled(index.arena.pages, xs + more, from, own + data)
  {
    hide Lt, ExtentKey, Put, WfRoot, EntriesAt, Tiled, Keyed;
    r := root;
    var i := 0;
    ghost var done, left, before, after := xs, more, own, data;
    while i < |more|
      invariant i <= |more| && left == more[i..] && done + left == xs + more
      invariant before + after == own + data
      invariant old(index.arena.pages) <= index.arena.pages
      invariant WfRoot(index.arena.pages, index.name, r) && EntriesAt(index.arena.pages, index.name, r) == Keyed(done)
      invariant Tiled(index.arena.pages, done, from, before)
      invariant Tiled(index.arena.pages, left, from + |before|, after)
    {
      var x := more[i];
      ghost var pages, n := index.arena.pages, x.length;
      ExtendTiling(pages, done, left, from, before, after);
      r := index.Set(r, ExtentKey(x.virtualOffset), ExtentValue(x));
      TiledGrow(pages, index.arena.pages, done + [x], from, before + after[..n]);
      TiledGrow(pages, index.arena.pages, left[1..], from + |before| + n, after[n..]);
      done, left, before, after := done + [x], left[1..], before + after[..n], after[n..];
      i := i + 1;
    }
    TiledEmpty(index.arena.pages, left, from + |before|, after);
    assert done == xs + more && before == own + data;
  }

  /** The next extent joins the tiling, and its key is the largest. */
  lemma ExtendTiling(pages: Pages, xs: seq<Extent>, more: seq<Extent>, from: nat, own: bytes, data: bytes)
    requires Tiled(pages, xs, from, own) && Tiled(pages, more, from + |own|, data) && more != []
    requires from + |own| + |data| <= MAX_SAFE_INTEGER
    ensures var x := more[0];
      x.length <= |data| && Tiled(pages, xs + [x], from, own + data[..x.length])
      && Tiled(pages, more[1..], from + |own| + x.length, data[x.length..])
      && Put(Keyed(xs), ExtentKey(x.virtualOffset), ExtentValue(x)) == Keyed(xs + [x])
  {
    hide Lt, ExtentKey, HoldsData;
    var x := more[0];
    var data0 := data[..x.length];
    assert Tiled(pages, [x], from + |own|, data0) by { TiledOne(pages, x, data0); }
    TiledConcat(pages, xs, [x], from, own, data0);
    KeyedBelow(pages, xs, from, own);
    PutAtEnd(Keyed(xs), KeyOf(x));
    assert Keyed(xs + [x]) == Keyed(xs) + [KeyOf(x)];
  }

  lemma PutAtEnd(es: seq<Entry<Value>>, e: Entry<Value>)
    requires AllBelow(es, e.key)
    ensures Put(es, e.key, e.value) == es + [e]
  {
    hide Lt;
    PutAfter(es, [], e.key, e.value);
    assert es + [] == es;
  }

  /** `_copySourceToExtents` into a fresh index: the new extents tile the copied bytes. */
  method CopySourceToExtents(index: PersistentCowIndex<Value>, source: bytes, start: nat, length: nat, virtualStart: nat)
    returns (r: Option<Pointer>, ghost xs: seq<Extent>)
    requires start + length <= |source| && virtualStart + length <= MAX_SAFE_INTEGER
    modifies index.arena
    ensures old(index.arena.pages) <= index.arena.pages
    ensures WfRoot(index.arena.pages, index.name, r) && EntriesAt(index.arena.pages, index.name, r) == Keyed(xs)
    ensures Tiled(index.arena.pages, xs, virtualStart, source[start..start + length])
  {
    hide Lt, ExtentKey, Put, Tiled, Keyed, WfRoot, EntriesAt;
    r, xs := None, [];
    var offset := 0;
    EmptyTiling(index, virtualStart);
    assert source[start..start] == [];
    while offset < length
      invariant offset <= length && old(index.arena.pages) <= index.arena.pages
      invariant WfRoot(index.arena.pages, index.name, r) && EntriesAt(index.arena.pages, index.name, r) == Keyed(xs)
      invariant Tiled(index.arena.pages, xs, virtualStart, source[start..start + offset])
    {
      var wanted := Min(DATA_CHUNK, length - offset);
      var chunk := source[start + offset..start + offset + wanted];
      ghost var before := index.arena.pages;
      var more := AppendData(index.arena, chunk, virtualStart + offset);
      TiledGrow(before, index.arena.pages, xs, virtualStart, source[start..start + offset]);
      PersistentRoot(before, index.arena.pages, index.name, r);
      r := SetExtents(index, r, more, xs, virtualStart, source[start..start + offset], chunk);
      assert source[start..start + offset] + chunk == source[start..start + offset + wanted];
      xs := xs + more;
      offset := offset + wanted;
    }
  }

  lemma EmptyTiling(index: PersistentCowIndex<Value>, from: nat)
    ensures WfRoot(index.arena.pages, index.name, None) && EntriesAt(index.arena.pages, index.name, None) == Keyed([])
    ensures Tiled(index.arena.pages, [], from, [])
  {
  }
}
