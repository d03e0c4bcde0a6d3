/**
 The persistent copy-on-write search tree of the object store. Pages are appended and never changed,
 so every root ever returned keeps its meaning; each operation refines the sorted map of `SortedEntries`.
 */
module CowIndex {
  import opened Bytes
  import opened Keys
  import opened SortedEntries

  const INDEX_MAX_ITEMS: nat := 32

  /** A reference to a page with the bounds and counts that let a reader prune. */
  datatype Pointer = Pointer(offset: nat, first: Key, last: Key, count: nat, level: nat)

  /** A page of a named index, or any other record of the arena. */
  datatype Page<V> =
    | Leaf(name: Key, entries: seq<Entry<V>>)
    | Branch(name: Key, children: seq<Pointer>)
    | Other(value: V)

  function SumCounts(cs: seq<Pointer>): nat {
    if cs == [] then 0 else cs[0].count + SumCounts(cs[1..])
  }

  function MaxLevel(cs: seq<Pointer>): nat {
    if cs == [] then 0 else Max(cs[0].level, MaxLevel(cs[1..]))
  }

  /** The pointer that `_write` returns for a page written at `offset`. */
  function PointerTo<V>(offset: nat, page: Page<V>): Pointer {
    match page
    case Leaf(_, es) =>
      if es == [] then Pointer(offset, [], [], 0, 0) else Pointer(offset, es[0].key, es[|es| - 1].key, |es|, 0)
    case Branch(_, cs) =>
      if cs == [] then Pointer(offset, [], [], 0, 1)
      else Pointer(offset, cs[0].first, cs[|cs| - 1].last, SumCounts(cs), MaxLevel(cs) + 1)
    case Other(_) => Pointer(offset, [], [], 0, 0)
  }

  /** A well-formed subtree of index `name`: pages within bounds, in key order, referring only to earlier pages. */
  ghost predicate Wf<V>(pages: seq<Page<V>>, name: Key, p: Pointer)
    decreases p.offset, 1, 0
  {
    p.offset < |pages| && var page := pages[p.offset];
    p == PointerTo(p.offset, page) &&
    match page
    case Leaf(n, es) => n == name && 1 <= |es| <= INDEX_MAX_ITEMS && Sorted(es)
    case Branch(n, cs) => n == name && 2 <= |cs| <= INDEX_MAX_ITEMS && WfList(pages, name, cs, p.offset)
    case Other(_) => false
  }

  /** Subtrees side by side, all older than `bound`, with disjoint increasing key intervals. */
  ghost predicate WfList<V>(pages: seq<Page<V>>, name: Key, cs: seq<Pointer>, bound: nat)
    decreases bound, 0, |cs|
  {
    cs == [] ||
    (cs[0].offset < bound && Wf(pages, name, cs[0]) && WfList(pages, name, cs[1..], bound)
     && (|cs| > 1 ==> Lt(cs[0].last, cs[1].first)))
  }

  /** The entries below a pointer, in order. */
  ghost function Entries<V>(pages: seq<Page<V>>, name: Key, p: Pointer): seq<Entry<V>>
    requires Wf(pages, name, p)
    decreases p.offset, 1, 0
  {
    match pages[p.offset]
    case Leaf(_, es) => es
    case Branch(_, cs) => EntriesOf(pages, name, cs, p.offset)
  }

  ghost function EntriesOf<V>(pages: seq<Page<V>>, name: Key, cs: seq<Pointer>, bound: nat): seq<Entry<V>>
    requires WfList(pages, name, cs, bound)
    decreases bound, 0, |cs|
  {
    if cs == [] then [] else Entries(pages, name, cs[0]) + EntriesOf(pages, name, cs[1..], bound)
  }

  // ----- structure

  /** What a pointer promises about the entries below it. */
  lemma {:induction false} PointerBounds<V>(pages: seq<Page<V>>, name: Key, p: Pointer)
    requires Wf(pages, name, p)
    ensures var es := Entries(pages, name, p);
      es != [] && Sorted(es) && es[0].key == p.first && es[|es| - 1].key == p.last && |es| == p.count
    decreases p.offset, 1, 0
  {
    hide Sorted, Lt;
    if pages[p.offset].Branch? {
      ListBounds(pages, name, pages[p.offset].children, p.offset);
    }
  }

  lemma {:induction false} ListBounds<V>(pages: seq<Page<V>>, name: Key, cs: seq<Pointer>, bound: nat)
    requires WfList(pages, name, cs, bound)
    ensures var es := EntriesOf(pages, name, cs, bound);
      Sorted(es) && |es| == SumCounts(cs)
      && (cs != [] ==> es != [] && es[0].key == cs[0].first && es[|es| - 1].key == cs[|cs| - 1].last)
    decreases bound, 0, |cs|
  {
    hide Lt, Wf, Entries;
    if cs != [] {
      PointerBounds(pages, name, cs[0]);
      ListBounds(pages, name, cs[1..], bound);
      SortedConcat(Entries(pages, name, cs[0]), EntriesOf(pages, name, cs[1..], bound));
    }
  }

  /** Some way down from the page takes so many steps. */
  ghost predicate StepsDown<V>(pages: seq<Page<V>>, name: Key, p: Pointer, n: nat)
    requires Wf(pages, name, p)
    decreases p.offset, 1, 0
  {
    n == 0 || (pages[p.offset].Branch? && SomeStepsDown(pages, name, pages[p.offset].children, p.offset, n - 1))
  }

  ghost predicate SomeStepsDown<V>(pages: seq<Page<V>>, name: Key, cs: seq<Pointer>, bound: nat, n: nat)
    requires WfList(pages, name, cs, bound)
    decreases bound, 0, |cs|
  {
    cs != [] && (StepsDown(pages, name, cs[0], n) || SomeStepsDown(pages, name, cs[1..], bound, n))
  }

  /** The level in a pointer is the length of the longest way down. */
  lemma {:induction false} LevelIsHeight<V>(pages: seq<Page<V>>, name: Key, p: Pointer, n: nat)
    requires Wf(pages, name, p)
    ensures StepsDown(pages, name, p, n) <==> n <= p.level
    decreases p.offset, 1, 0
  {
    hide Sorted, Lt;
    if pages[p.offset].Branch? && n > 0 {
      SomeLevel(pages, name, pages[p.offset].children, p.offset, n - 1);
    }
  }

  lemma {:induction false} SomeLevel<V>(pages: seq<Page<V>>, name: Key, cs: seq<Pointer>, bound: nat, n: nat)
    requires WfList(pages, name, cs, bound)
    ensures SomeStepsDown(pages, name, cs, bound, n) <==> cs != [] && n <= MaxLevel(cs)
    decreases bound, 0, |cs|
  {
    hide Lt, Wf, StepsDown;
    if cs != [] {
      LevelIsHeight(pages, name, cs[0], n);
      SomeLevel(pages, name, cs[1..], bound, n);
    }
  }

  lemma {:induction false} ListConcat<V>(pages: seq<Page<V>>, name: Key, a: seq<Pointer>, b: seq<Pointer>, bound: nat)
    requires WfList(pages, name, a, bound) && WfList(pages, name, b, bound)
    requires a != [] && b != [] ==> Lt(a[|a| - 1].last, b[0].first)
    ensures WfList(pages, name, a + b, bound)
    ensures EntriesOf(pages, name, a + b, bound) == EntriesOf(pages, name, a, bound) + EntriesOf(pages, name, b, bound)
    decreases |a|
  {
    hide Lt, Wf, Entries;
    if a == [] {
      assert a + b == b;
    } else {
      assert (a + b)[1..] == a[1..] + b;
      ListConcat(pages, name, a[1..], b, bound);
    }
  }

  lemma {:induction false} ListSplit<V>(pages: seq<Page<V>>, name: Key, cs: seq<Pointer>, bound: nat, i: nat)
    requires WfList(pages, name, cs, bound) && i <= |cs|
    ensures WfList(pages, name, cs[..i], bound) && WfList(pages, name, cs[i..], bound)
    ensures EntriesOf(pages, name, cs, bound) == EntriesOf(pages, name, cs[..i], bound) + EntriesOf(pages, name, cs[i..], bound)
    ensures 0 < i < |cs| ==> Lt(cs[i - 1].last, cs[i].first)
    decreases i
  {
    hide Lt, Wf, Entries;
    if i > 0 {
      ListSplit(pages, name, cs[1..], bound, i - 1);
      assert cs[..i][1..] == cs[1..][..i - 1] && cs[1..][i - 1..] == cs[i..];
    } else {
      assert cs[0..] == cs;
    }
  }

  /** Child `i` and the entries before and after it. */
  lemma ChildSplit<V>(pages: seq<Page<V>>, name: Key, cs: seq<Pointer>, bound: nat, i: nat)
    requires WfList(pages, name, cs, bound) && i < |cs|
    ensures cs[i].offset < bound && Wf(pages, name, cs[i])
    ensures WfList(pages, name, cs[..i], bound) && WfList(pages, name, cs[i + 1..], bound)
    ensures EntriesOf(pages, name, cs, bound) ==
      EntriesOf(pages, name, cs[..i], bound) + (Entries(pages, name, cs[i]) + EntriesOf(pages, name, cs[i + 1..], bound))
    ensures i > 0 ==> Lt(cs[i - 1].last, cs[i].first)
    ensures i + 1 < |cs| ==> Lt(cs[i].last, cs[i + 1].first)
  {
    hide Lt, Wf, Entries;
    ListSplit(pages, name, cs, bound, i);
    assert cs[i..][1..] == cs[i + 1..];
  }

  /** Appending pages changes nothing below existing pointers: old roots keep their meaning. */
  lemma {:induction false} Persistent<V>(pages: seq<Page<V>>, more: seq<Page<V>>, name: Key, p: Pointer)
    requires pages <= more && Wf(pages, name, p)
    ensures Wf(more, name, p) && Entries(more, name, p) == Entries(pages, name, p)
    decreases p.offset, 1, 0
  {
    hide Sorted, Lt, PointerTo;
    if pages[p.offset].Branch? {
      PersistentList(pages, more, name, pages[p.offset].children, p.offset);
    }
  }

  lemma {:induction false} PersistentList<V>(pages: seq<Page<V>>, more: seq<Page<V>>, name: Key, cs: seq<Pointer>, bound: nat)
    requires pages <= more && WfList(pages, name, cs, bound)
    ensures WfList(more, name, cs, bound) && EntriesOf(more, name, cs, bound) == EntriesOf(pages, name, cs, bound)
    decreases bound, 0, |cs|
  {
    hide Lt, Wf, Entries;
    if cs != [] {
      Persistent(pages, more, name, cs[0]);
      PersistentList(pages, more, name, cs[1..], bound);
    }
  }

  /** The bound only caps the ages of the pages. */
  lemma {:induction false} Rebound<V>(pages: seq<Page<V>>, name: Key, cs: seq<Pointer>, bound: nat, more: nat)
    requires WfList(pages, name, cs, bound) && bound <= more
    ensures WfList(pages, name, cs, more) && EntriesOf(pages, name, cs, more) == EntriesOf(pages, name, cs, bound)
    decreases |cs|
  {
    hide Lt, Wf, Entries;
    if cs != [] {
      Rebound(pages, name, cs[1..], bound, more);
    }
  }

  // ----- choosing a child

  /** The first child whose last key is not below `key`, or the last child. */
  function ChildIndex(cs: seq<Pointer>, key: Key): (i: nat)
    requires cs != []
    ensures i < |cs|
  {
    if AtMost(key, cs[0].last) || |cs| == 1 then 0 else 1 + ChildIndex(cs[1..], key)
  }

  lemma {:induction false} ChildIndexSeparates(cs: seq<Pointer>, key: Key)
    requires cs != []
    ensures var i := ChildIndex(cs, key);
      (i > 0 ==> Lt(cs[i - 1].last, key)) && (i < |cs| - 1 ==> AtMost(key, cs[i].last))
  {
    hide Lt;
    if !(AtMost(key, cs[0].last) || |cs| == 1) {
      ChildIndexSeparates(cs[1..], key);
    }
  }

  /** Entries to the left of the chosen child lie below the key; to the right, above it. */
  lemma AroundChild<V>(pages: seq<Page<V>>, name: Key, cs: seq<Pointer>, bound: nat, key: Key)
    requires WfList(pages, name, cs, bound) && cs != []
    ensures var i := ChildIndex(cs, key);
      WfList(pages, name, cs[..i], bound) && WfList(pages, name, cs[i + 1..], bound)
      && AllBelow(EntriesOf(pages, name, cs[..i], bound), key)
      && var right := EntriesOf(pages, name, cs[i + 1..], bound);
        Sorted(right) && (right == [] || Lt(key, right[0].key)) && (i + 1 < |cs| ==> right != [] && Lt(key, cs[i + 1].first))
  {
    hide Lt, Wf, Entries, Sorted, AllBelow;
    var i := ChildIndex(cs, key);
    ChildIndexSeparates(cs, key);
    ChildSplit(pages, name, cs, bound, i);
    ListBounds(pages, name, cs[..i], bound);
    ListBounds(pages, name, cs[i + 1..], bound);
    if i > 0 {
      BelowLast(EntriesOf(pages, name, cs[..i], bound), key);
    } else {
      assert AllBelow<V>([], key) by { NoneBelow<V>(key); }
    }
    if i + 1 < |cs| {
      AtMostLt(key, cs[i].last, cs[i + 1].first);
    }
  }

  lemma NoneBelow<V>(key: Key)
    ensures AllBelow<V>([], key)
  {
  }

  lemma BelowLast<V>(es: seq<Entry<V>>, key: Key)
    requires Sorted(es) && es != [] && Lt(es[|es| - 1].key, key)
    ensures AllBelow(es, key)
  {
    hide Lt;
    forall i | 0 <= i < |es| ensures Lt(es[i].key, key) {
      if i < |es| - 1 {
        LtTransitive(es[i].key, es[|es| - 1].key, key);
      }
    }
  }

  lemma AtMostLt(a: Key, b: Key, c: Key)
    requires AtMost(a, b) && Lt(b, c)
    ensures Lt(a, c)
  {
    hide Lt;
    LtTotal(a, b);
    if Lt(a, b) {
      LtTransitive(a, b, c);
    }
  }

  // ----- writing pages

  /** An optional root: an empty index has none. */
  ghost predicate WfRoot<V>(pages: seq<Page<V>>, name: Key, root: Option<Pointer>) {
    root.Some? ==> Wf(pages, name, root.value)
  }

  ghost function EntriesAt<V>(pages: seq<Page<V>>, name: Key, root: Option<Pointer>): seq<Entry<V>>
    requires WfRoot(pages, name, root)
  {
    if root.None? then [] else Entries(pages, name, root.value)
  }

  lemma PersistentRoot<V>(pages: seq<Page<V>>, more: seq<Page<V>>, name: Key, root: Option<Pointer>)
    requires pages <= more && WfRoot(pages, name, root)
    ensures WfRoot(more, name, root) && EntriesAt(more, name, root) == EntriesAt(pages, name, root)
  {
    hide Wf, Entries;
    if root.Some? {
      Persistent(pages, more, name, root.value);
    }
  }

  lemma EntriesSorted<V>(pages: seq<Page<V>>, name: Key, root: Option<Pointer>)
    requires WfRoot(pages, name, root)
    ensures Sorted(EntriesAt(pages, name, root))
  {
    hide Wf, Entries, Lt;
    if root.Some? {
      PointerBounds(pages, name, root.value);
    }
  }

  lemma NewLeaf<V>(pages: seq<Page<V>>, name: Key, es: seq<Entry<V>>)
    requires 1 <= |es| <= INDEX_MAX_ITEMS && Sorted(es)
    ensures var p := PointerTo(|pages|, Leaf(name, es));
      Wf(pages + [Leaf(name, es)], name, p) && Entries(pages + [Leaf(name, es)], name, p) == es
      && p.first == es[0].key && p.last == es[|es| - 1].key
  {
    hide Sorted;
  }

  lemma NewBranch<V>(pages: seq<Page<V>>, name: Key, cs: seq<Pointer>)
    requires 2 <= |cs| <= INDEX_MAX_ITEMS && WfList(pages, name, cs, |pages|)
    ensures var p := PointerTo<V>(|pages|, Branch(name, cs));
      Wf(pages + [Branch(name, cs)], name, p)
      && Entries(pages + [Branch(name, cs)], name, p) == EntriesOf(pages, name, cs, |pages|)
      && p.first == cs[0].first && p.last == cs[|cs| - 1].last
  {
    hide SumCounts, MaxLevel;
    PersistentList(pages, pages + [Branch(name, cs)], name, cs, |pages|);
  }

  /** One or two subtrees as a list. */
  lemma Singleton<V>(pages: seq<Page<V>>, name: Key, p: Pointer)
    requires Wf(pages, name, p)
    ensures WfList(pages, name, [p], |pages|) && EntriesOf(pages, name, [p], |pages|) == Entries(pages, name, p)
  {
    hide Entries;
    assert [p][1..] == [];
  }

  lemma Doubleton<V>(pages: seq<Page<V>>, name: Key, p: Pointer, q: Pointer)
    requires Wf(pages, name, p) && Wf(pages, name, q) && Lt(p.last, q.first)
    ensures WfList(pages, name, [p, q], |pages|)
    ensures EntriesOf(pages, name, [p, q], |pages|) == Entries(pages, name, p) + Entries(pages, name, q)
  {
    hide Wf, Entries, Lt;
    Singleton(pages, name, p);
    Singleton(pages, name, q);
    ListConcat(pages, name, [p], [q], |pages|);
    assert [p] + [q] == [p, q];
  }

  /** The append-only records of one arena, addressed by their position in append order. */
  class PageArena<V> {
    var pages: seq<Page<V>>

    constructor ()
      ensures pages == []
    {
      pages := [];
    }

    /** `_write`: append a page and return the pointer to it. */
    method Write(page: Page<V>) returns (p: Pointer)
      modifies this
      ensures pages == old(pages) + [page] && p == PointerTo(|old(pages)|, page)
    {
      p := PointerTo(|pages|, page);
      pages := pages + [page];
    }
  }

  /** A handle on one named index of an arena. */
  datatype PersistentCowIndex<V> = PersistentCowIndex(arena: PageArena<V>, name: Key) {

    /** `_childIndex`. */
    method FindChild(children: seq<Pointer>, key: Key) returns (index: nat)
      requires children != []
      ensures index == ChildIndex(children, key)
    {
      index := 0;
      while index < |children|
        invariant index <= |children|
        invariant index < |children| ==> ChildIndex(children, key) == index + ChildIndex(children[index..], key)
        invariant index == |children| ==> ChildIndex(children, key) == |children| - 1
      {
        if AtMost(key, children[index].last) {
          return;
        }
        assert children[index..][1..] == children[index + 1..];
        index := index + 1;
      }
      return |children| - 1;
    }

    method Get(root: Option<Pointer>, key: Key) returns (r: Option<V>)
      requires WfRoot(arena.pages, name, root)
      ensures r == Find(EntriesAt(arena.pages, name, root), key)
    {
      hide Sorted, Lt, WfList, EntriesOf, PointerTo;
      var pointer := root;
      while pointer.Some?
        invariant WfRoot(arena.pages, name, pointer)
        invariant Find(EntriesAt(arena.pages, name, pointer), key) == Find(EntriesAt(arena.pages, name, root), key)
        decreases if pointer.Some? then pointer.value.offset + 1 else 0
      {
        match arena.pages[pointer.value.offset] {
          case Leaf(_, entries) =>
            r := FindInLeaf(entries, key);
            return;
          case Branch(_, children) =>
            var index := FindChild(children, key);
            GetDescends(arena.pages, name, children, pointer.value.offset, key);
            pointer := Some(children[index]);
        }
      }
      return None;
    }

    method FindInLeaf(entries: seq<Entry<V>>, key: Key) returns (r: Option<V>)
      ensures r == Find(entries, key)
    {
      var i := 0;
      while i < |entries|
        invariant i <= |entries|
        invariant Find(entries, key) == Find(entries[i..], key)
      {
        if entries[i].key == key {
          return Some(entries[i].value);
        }
        assert entries[i..][1..] == entries[i + 1..];
        i := i + 1;
      }
      return None;
    }

    /** `floor`: back up over children that start above the key, then take the last entry not above it. */
    method FloorOf(root: Option<Pointer>, key: Key) returns (r: Option<Entry<V>>)
      requires WfRoot(arena.pages, name, root)
      ensures r == Floor(EntriesAt(arena.pages, name, root), key)
    {
      hide Lt, WfList, EntriesOf, PointerTo, Sorted;
      var pointer := root;
      while pointer.Some?
        invariant WfRoot(arena.pages, name, pointer)
        invariant Floor(EntriesAt(arena.pages, name, pointer), key) == Floor(EntriesAt(arena.pages, name, root), key)
        decreases if pointer.Some? then pointer.value.offset + 1 else 0
      {
        match arena.pages[pointer.value.offset] {
          case Leaf(_, entries) =>
            r := FloorInLeaf(entries, key);
            return;
          case Branch(_, children) =>
            var index := FindChild(children, key);
            while index > 0 && Lt(key, children[index].first)
              invariant 0 <= index <= ChildIndex(children, key)
              invariant forall j | index < j <= ChildIndex(children, key) :: Lt(key, children[j].first)
            {
              index := index - 1;
            }
            FloorDescends(arena.pages, name, children, pointer.value.offset, key, index);
            pointer := Some(children[index]);
        }
      }
      return None;
    }

    method FloorInLeaf(entries: seq<Entry<V>>, key: Key) returns (best: Option<Entry<V>>)
      requires Sorted(entries)
      ensures best == Floor(entries, key)
    {
      hide Lt;
      best := None;
      var i := 0;
      while i < |entries|
        invariant i <= |entries|
        invariant best == Floor(entries[..i], key)
      {
        if Lt(key, entries[i].key) {
          assert entries == entries[..i] + entries[i..];
          FloorAbove(entries[i..], key);
          FloorConcat(entries[..i], entries[i..], key);
          return;
        }
        best := Some(entries[i]);
        assert entries[..i + 1][..i] == entries[..i];
        i := i + 1;
      }
      assert entries[..i] == entries;
    }

    method EntriesIn(root: Option<Pointer>) returns (result: seq<Entry<V>>)
      requires WfRoot(arena.pages, name, root)
      ensures result == EntriesAt(arena.pages, name, root)
      decreases if root.Some? then root.value.offset + 1 else 0
    {
      hide Lt, PointerTo, Sorted;
      if root.None? {
        return [];
      }
      match arena.pages[root.value.offset] {
        case Leaf(_, entries) => return entries;
        case Branch(_, children) =>
          result := [];
          var i := 0;
          ghost var bound := root.value.offset;
          ListEmpty(arena.pages, name, bound);
          while i < |children|
            invariant i <= |children|
            invariant WfList(arena.pages, name, children[i..], bound)
            invariant result + EntriesOf(arena.pages, name, children[i..], bound) == EntriesOf(arena.pages, name, children, bound)
          {
            assert children[i..][1..] == children[i + 1..];
            var part := EntriesIn(Some(children[i]));
            result := result + part;
            i := i + 1;
          }
          assert children[i..] == [];
      }
    }

    /** The inner `visit` of `range`: prune by the bounds, then collect until the limit. */
    method Visit(pointer: Pointer, gte: Option<Key>, lt: Option<Key>, max: Option<nat>, found: seq<Entry<V>>) returns (result: seq<Entry<V>>)
      requires Wf(arena.pages, name, pointer) && (max.Some? ==> |found| <= max.value)
      ensures result == Take(found + Within(Entries(arena.pages, name, pointer), gte, lt), max)
      decreases pointer.offset, 1
    {
      hide Lt, PointerTo, Sorted, WfList, EntriesOf, Within, InRange;
      result := found;
      if max.Some? && |found| >= max.value {
        return;
      }
      PointerBounds(arena.pages, name, pointer);
      if gte.Some? && pointer.last != [] && Lt(pointer.last, gte.value) {
        AllBelowRange(Entries(arena.pages, name, pointer), gte, lt);
        return;
      }
      if lt.Some? && pointer.first != [] && !Lt(pointer.first, lt.value) {
        AllAboveRange(Entries(arena.pages, name, pointer), gte, lt);
        return;
      }
      match arena.pages[pointer.offset] {
        case Leaf(_, entries) => result := CollectLeaf(entries, gte, lt, max, found);
        case Branch(_, children) => result := VisitChildren(children, pointer.offset, gte, lt, max, found);
      }
    }

    method CollectLeaf(entries: seq<Entry<V>>, gte: Option<Key>, lt: Option<Key>, max: Option<nat>, found: seq<Entry<V>>) returns (result: seq<Entry<V>>)
      requires Sorted(entries) && (max.Some? ==> |found| < max.value)
      ensures result == Take(found + Within(entries, gte, lt), max)
    {
      hide Lt, Sorted;
      result := found;
      var i := 0;
      while i < |entries|
        invariant i <= |entries| && (max.Some? ==> |result| < max.value)
        invariant result + Within(entries[i..], gte, lt) == found + Within(entries, gte, lt)
      {
        assert entries[i..][1..] == entries[i + 1..];
        var e := entries[i];
        if gte.Some? && Lt(e.key, gte.value) {
          i := i + 1;
          continue;
        }
        if lt.Some? && !Lt(e.key, lt.value) {
          SortedSuffix(entries, i);
          AllAboveRange(entries[i..], gte, lt);
          return;
        }
        ghost var before := result;
        result := result + [e];
        assert result + Within(entries[i + 1..], gte, lt) == before + Within(entries[i..], gte, lt);
        if max.Some? && |result| >= max.value {
          assert (result + Within(entries[i + 1..], gte, lt))[..max.value] == result;
          return;
        }
        i := i + 1;
      }
    }

    method VisitChildren(children: seq<Pointer>, ghost bound: nat, gte: Option<Key>, lt: Option<Key>, max: Option<nat>, found: seq<Entry<V>>)
      returns (result: seq<Entry<V>>)
      requires WfList(arena.pages, name, children, bound) && (max.Some? ==> |found| <= max.value)
      ensures result == Take(found + Within(EntriesOf(arena.pages, name, children, bound), gte, lt), max)
      decreases bound, 0
    {
      hide Lt, Wf, Entries, Sorted, Within, InRange, Take;
      result := found;
      var i := 0;
      while i < |children|
        invariant i <= |children| && (max.Some? ==> |result| <= max.value)
        invariant WfList(arena.pages, name, children[i..], bound)
        invariant Take(result + Within(EntriesOf(arena.pages, name, children[i..], bound), gte, lt), max)
          == Take(found + Within(EntriesOf(arena.pages, name, children, bound), gte, lt), max)
      {
        ghost var all := EntriesOf(arena.pages, name, children[i..], bound);
        if max.Some? && |result| >= max.value {
          TakeFull(result, Within(all, gte, lt), max);
          return;
        }
        var child := children[i];
        ghost var own, rest := Entries(arena.pages, name, child), EntriesOf(arena.pages, name, children[i + 1..], bound);
        assert children[i..][1..] == children[i + 1..];
        PointerBounds(arena.pages, name, child);
        ListBounds(arena.pages, name, children[i..], bound);
        WithinConcat(own, rest, gte, lt);
        if gte.Some? && child.last != [] && Lt(child.last, gte.value) {
          AllBelowRange(own, gte, lt);
          assert [] + Within(rest, gte, lt) == Within(rest, gte, lt);
          i := i + 1;
          continue;
        }
        if lt.Some? && child.first != [] && !Lt(child.first, lt.value) {
          AllAboveRange(all, gte, lt);
          TakeAll(result, max);
          return;
        }
        TakeBounded(result + Within(own, gte, lt), max);
        TakeTwice(result, Within(own, gte, lt), Within(rest, gte, lt), max);
        result := Visit(child, gte, lt, max, result);
        i := i + 1;
      }
      assert children[i..] == [];
      WithinNone(EntriesOf(arena.pages, name, children[i..], bound), gte, lt);
      TakeAll(result, max);
    }

    /** `range`: a limit of at most zero finds nothing; no limit stands for Infinity. */
    method Range(root: Option<Pointer>, gte: Option<Key>, lt: Option<Key>, limit: Option<int>) returns (result: seq<Entry<V>>)
      requires WfRoot(arena.pages, name, root)
      ensures result == Take(Within(EntriesAt(arena.pages, name, root), gte, lt), if limit.None? then None else Some(Max(0, limit.value)))
    {
      hide Lt, Wf, Entries, InRange;
      if root.None? || (limit.Some? && limit.value <= 0) {
        return [];
      }
      result := Visit(root.value, gte, lt, if limit.None? then None else Some(Max(0, limit.value)), []);
      assert [] + Within(EntriesAt(arena.pages, name, root), gte, lt) == Within(EntriesAt(arena.pages, name, root), gte, lt);
    }

    // ----- updates

    method PutInLeaf(entries: seq<Entry<V>>, key: Key, value: V) returns (r: seq<Entry<V>>)
      requires Sorted(entries)
      ensures r == Put(entries, key, value)
    {
      hide Lt;
      var i := 0;
      while i < |entries| && entries[i].key != key
        invariant i <= |entries| && forall j | 0 <= j < i :: entries[j].key != key
      {
        i := i + 1;
      }
      if i < |entries| {
        PutFound(entries, i, value);
        return entries[i := Entry(key, value)];
      }
      i := 0;
      while i < |entries| && !Lt(key, entries[i].key)
        invariant i <= |entries| && AllBelow(entries[..i], key)
      {
        LtTotal(key, entries[i].key);
        i := i + 1;
      }
      PutSpliced(entries, i, key, value);
      return entries[..i] + [Entry(key, value)] + entries[i..];
    }

    /** Writes a sorted run of entries as one leaf, or as two halves when it is too long. */
    method WriteLeaves(entries: seq<Entry<V>>) returns (result: seq<Pointer>)
      requires Sorted(entries) && 1 <= |entries| <= INDEX_MAX_ITEMS + 1
      modifies arena
      ensures old(arena.pages) <= arena.pages
      ensures 1 <= |result| <= 2 && WfList(arena.pages, name, result, |arena.pages|)
      ensures EntriesOf(arena.pages, name, result, |arena.pages|) == entries
    {
      hide Lt, Wf, Entries, PointerTo;
      if |entries| <= INDEX_MAX_ITEMS {
        NewLeaf(arena.pages, name, entries);
        var p := arena.Write(Leaf(name, entries));
        Singleton(arena.pages, name, p);
        return [p];
      }
      var middle := (|entries| + 1) / 2;
      NewLeaf(arena.pages, name, entries[..middle]);
      var p := arena.Write(Leaf(name, entries[..middle]));
      NewLeaf(arena.pages, name, entries[middle..]);
      Persistent(arena.pages, arena.pages + [Leaf(name, entries[middle..])], name, p);
      var q := arena.Write(Leaf(name, entries[middle..]));
      Doubleton(arena.pages, name, p, q);
      assert entries[..middle] + entries[middle..] == entries;
      return [p, q];
    }

    /** Writes a run of children as one branch, or as two halves when it is too long. */
    method WriteBranches(children: seq<Pointer>) returns (result: seq<Pointer>)
      requires 2 <= |children| <= INDEX_MAX_ITEMS + 1 && WfList(arena.pages, name, children, |arena.pages|)
      modifies arena
      ensures old(arena.pages) <= arena.pages
      ensures 1 <= |result| <= 2 && WfList(arena.pages, name, result, |arena.pages|)
      ensures EntriesOf(arena.pages, name, result, |arena.pages|) == old(EntriesOf(arena.pages, name, children, |arena.pages|))
    {
      hide Lt, Wf, Entries, PointerTo, WfList, EntriesOf;
      if |children| <= INDEX_MAX_ITEMS {
        NewBranch(arena.pages, name, children);
        var p := arena.Write(Branch(name, children));
        Singleton(arena.pages, name, p);
        return [p];
      }
      var middle := (|children| + 1) / 2;
      ghost var n := |arena.pages|;
      ListSplit(arena.pages, name, children, n, middle);
      NewBranch(arena.pages, name, children[..middle]);
      PersistentList(arena.pages, arena.pages + [Branch(name, children[..middle])], name, children[middle..], n);
      Rebound(arena.pages + [Branch(name, children[..middle])], name, children[middle..], n, n + 1);
      var p := arena.Write(Branch(name, children[..middle]));
      NewBranch(arena.pages, name, children[middle..]);
      Persistent(arena.pages, arena.pages + [Branch(name, children[middle..])], name, p);
      var q := arena.Write(Branch(name, children[middle..]));
      Doubleton(arena.pages, name, p, q);
      return [p, q];
    }

    /** `_set`: the replacement of a subtree is one subtree or two. */
    method SetAt(pointer: Option<Pointer>, key: Key, value: V) returns (result: seq<Pointer>)
      requires WfRoot(arena.pages, name, pointer)
      modifies arena
      ensures old(arena.pages) <= arena.pages
      ensures 1 <= |result| <= 2 && WfList(arena.pages, name, result, |arena.pages|)
      ensures EntriesOf(arena.pages, name, result, |arena.pages|) == Put(old(EntriesAt(arena.pages, name, pointer)), key, value)
      decreases if pointer.Some? then pointer.value.offset + 1 else 0
    {
      hide Lt, PointerTo, WfList, EntriesOf, Sorted, Put;
      if pointer.None? {
        PutEmpty(key, value);
        result := WriteLeaves([Entry(key, value)]);
        return;
      }
      match arena.pages[pointer.value.offset] {
        case Leaf(_, entries) =>
          var updated := PutInLeaf(entries, key, value);
          PutSorted(entries, key, value);
          result := WriteLeaves(updated);
        case Branch(_, children) =>
          var childIndex := FindChild(children, key);
          ghost var pages, bound := arena.pages, pointer.value.offset;
          GetDescends(pages, name, children, bound, key);
          var replacement := SetAt(Some(children[childIndex]), key, value);
          SetSpliced(pages, arena.pages, name, children, bound, key, value, replacement);
          result := WriteBranches(children[..childIndex] + replacement + children[childIndex + 1..]);
      }
    }

    /** `set`: a split root gets a new branch on top. */
    method Set(root: Option<Pointer>, key: Key, value: V) returns (r: Option<Pointer>)
      requires WfRoot(arena.pages, name, root)
      modifies arena
      ensures old(arena.pages) <= arena.pages
      ensures r.Some? && WfRoot(arena.pages, name, r)
      ensures EntriesAt(arena.pages, name, r) == Put(old(EntriesAt(arena.pages, name, root)), key, value)
    {
      hide Lt, PointerTo, Wf, Entries, Put;
      var result := SetAt(root, key, value);
      if |result| == 1 {
        OneOf(arena.pages, name, result);
        return Some(result[0]);
      }
      NewBranch(arena.pages, name, result);
      var p := arena.Write(Branch(name, result));
      return Some(p);
    }

    /** `remove`: an emptied page disappears and a branch with one child left is that child. */
    method Remove(root: Option<Pointer>, key: Key) returns (r: Option<Pointer>)
      requires WfRoot(arena.pages, name, root)
      modifies arena
      ensures old(arena.pages) <= arena.pages
      ensures WfRoot(arena.pages, name, r)
      ensures EntriesAt(arena.pages, name, r) == Del(old(EntriesAt(arena.pages, name, root)), key)
      decreases if root.Some? then root.value.offset + 1 else 0
    {
      hide Lt, PointerTo, WfList, EntriesOf, Sorted;
      if root.None? {
        return None;
      }
      match arena.pages[root.value.offset] {
        case Leaf(_, entries) =>
          var left := RemoveFromLeaf(entries, key);
          if left == [] {
            return None;
          }
          if |left| == |entries| {
            DelSame(entries, key);
            return root;
          }
          DelSorted(entries, key);
          NewLeaf(arena.pages, name, left);
          var p := arena.Write(Leaf(name, left));
          return Some(p);
        case Branch(_, children) =>
          var index := FindChild(children, key);
          ghost var pages, bound := arena.pages, root.value.offset;
          GetDescends(pages, name, children, bound, key);
          var next := Remove(Some(children[index]), key);
          RemoveSpliced(pages, arena.pages, name, children, bound, key, next);
          var left := children[..index] + (if next.None? then [] else [next.value]) + children[index + 1..];
          if left == [] {
            assert false;
            return None;
          }
          if |left| == 1 {
            OneOf(arena.pages, name, left);
            return Some(left[0]);
          }
          NewBranch(arena.pages, name, left);
          var p := arena.Write(Branch(name, left));
          return Some(p);
      }
    }

    method RemoveFromLeaf(entries: seq<Entry<V>>, key: Key) returns (left: seq<Entry<V>>)
      ensures left == Del(entries, key)
    {
      left := [];
      var i := 0;
      while i < |entries|
        invariant i <= |entries| && left + Del(entries[i..], key) == Del(entries, key)
      {
        assert entries[i..][1..] == entries[i + 1..];
        if entries[i].key != key {
          left := left + [entries[i]];
        }
        i := i + 1;
      }
    }
  }

  // ----- lemmas about ranges and limits

  lemma AllBelowRange<V>(es: seq<Entry<V>>, gte: Option<Key>, lt: Option<Key>)
    requires Sorted(es) && es != [] && gte.Some? && Lt(es[|es| - 1].key, gte.value)
    ensures Within(es, gte, lt) == []
  {
    hide Lt, Within;
    BelowLast(es, gte.value);
    WithinNone(es, gte, lt);
  }

  lemma AllAboveRange<V>(es: seq<Entry<V>>, gte: Option<Key>, lt: Option<Key>)
    requires Sorted(es) && es != [] && lt.Some? && !Lt(es[0].key, lt.value)
    ensures Within(es, gte, lt) == []
  {
    hide Lt, Within;
    forall i | 0 <= i < |es| ensures !Lt(es[i].key, lt.value) {
      if i > 0 && Lt(es[i].key, lt.value) {
        LtTransitive(es[0].key, es[i].key, lt.value);
      }
    }
    WithinNone(es, gte, lt);
  }

  lemma SortedSuffix<V>(es: seq<Entry<V>>, i: nat)
    requires Sorted(es) && i <= |es|
    ensures Sorted(es[i..])
  {
    hide Lt;
  }

  lemma TakeAll<V>(es: seq<Entry<V>>, max: Option<nat>)
    requires max.Some? ==> |es| <= max.value
    ensures Take(es + [], max) == es
  {
    assert es + [] == es;
  }

  lemma TakeFull<V>(es: seq<Entry<V>>, more: seq<Entry<V>>, max: Option<nat>)
    requires max.Some? && |es| == max.value
    ensures Take(es + more, max) == es
  {
    assert (es + more)[..|es|] == es;
  }

  lemma TakeBounded<V>(es: seq<Entry<V>>, max: Option<nat>)
    ensures max.Some? ==> |Take(es, max)| <= max.value
  {
  }

  lemma TakeTwice<V>(a: seq<Entry<V>>, b: seq<Entry<V>>, c: seq<Entry<V>>, max: Option<nat>)
    ensures Take(Take(a + b, max) + c, max) == Take(a + (b + c), max)
  {
    assert a + (b + c) == (a + b) + c;
    if max.Some? && max.value < |a + b| {
      assert ((a + b)[..max.value] + c)[..max.value] == (a + b)[..max.value] == ((a + b) + c)[..max.value];
    }
  }

  // ----- lemmas about updates

  lemma {:induction false} PutFound<V>(es: seq<Entry<V>>, i: nat, value: V)
    requires Sorted(es) && i < |es|
    ensures Put(es, es[i].key, value) == es[i := Entry(es[i].key, value)]
  {
    hide Lt;
    var k := es[i].key;
    var head, tail := es[..i], es[i..];
    assert es == head + tail;
    PutAfter(head, tail, k, value);
    LtIrreflexive(k);
    assert tail[0] == es[i];
  }

  lemma PutSpliced<V>(es: seq<Entry<V>>, i: nat, key: Key, value: V)
    requires i <= |es| && AllBelow(es[..i], key) && (i < |es| ==> Lt(key, es[i].key))
    ensures Put(es, key, value) == es[..i] + [Entry(key, value)] + es[i..]
  {
    hide Lt;
    assert es == es[..i] + es[i..];
    PutAfter(es[..i], es[i..], key, value);
  }

  lemma PutEmpty<V>(key: Key, value: V)
    ensures Put([], key, value) == [Entry(key, value)] && Sorted([Entry(key, value)])
  {
  }

  lemma DelSame<V>(es: seq<Entry<V>>, key: Key)
    requires |Del(es, key)| == |es|
    ensures Del(es, key) == es
  {
    if Find(es, key).Some? {
      DelShrinks(es, key);
    } else {
      DelAbsent(es, key);
    }
  }

  lemma {:induction false} DelShrinks<V>(es: seq<Entry<V>>, key: Key)
    ensures |Del(es, key)| <= |es|
    ensures Find(es, key).Some? ==> |Del(es, key)| < |es|
  {
    if es != [] {
      DelShrinks(es[1..], key);
    }
  }

  lemma OneOf<V>(pages: seq<Page<V>>, name: Key, cs: seq<Pointer>)
    requires |cs| == 1 && WfList(pages, name, cs, |pages|)
    ensures Wf(pages, name, cs[0]) && Entries(pages, name, cs[0]) == EntriesOf(pages, name, cs, |pages|)
  {
    hide Wf, Entries;
    assert cs[1..] == [];
  }

  /** Descending into the chosen child loses no match. */
  lemma GetDescends<V>(pages: seq<Page<V>>, name: Key, cs: seq<Pointer>, bound: nat, key: Key)
    requires WfList(pages, name, cs, bound) && cs != []
    ensures var i := ChildIndex(cs, key);
      cs[i].offset < bound && Wf(pages, name, cs[i])
      && Find(Entries(pages, name, cs[i]), key) == Find(EntriesOf(pages, name, cs, bound), key)
  {
    hide Lt, Wf, Entries, Sorted, AllBelow, WfList, EntriesOf;
    var i := ChildIndex(cs, key);
    ChildSplit(pages, name, cs, bound, i);
    AroundChild(pages, name, cs, bound, key);
    var left, mid, right := EntriesOf(pages, name, cs[..i], bound), Entries(pages, name, cs[i]), EntriesOf(pages, name, cs[i + 1..], bound);
    FindConcat(left, mid + right, key);
    FindConcat(mid, right, key);
    FindBeyond(left, key);
    FindBeyond(right, key);
  }

  /** Backing up to child `i` loses no floor. */
  lemma FloorDescends<V>(pages: seq<Page<V>>, name: Key, cs: seq<Pointer>, bound: nat, key: Key, i: nat)
    requires WfList(pages, name, cs, bound) && cs != [] && i <= ChildIndex(cs, key)
    requires forall j | i < j <= ChildIndex(cs, key) :: Lt(key, cs[j].first)
    requires i == 0 || !Lt(key, cs[i].first)
    ensures cs[i].offset < bound && Wf(pages, name, cs[i])
    ensures Floor(Entries(pages, name, cs[i]), key) == Floor(EntriesOf(pages, name, cs, bound), key)
  {
    hide Lt, Wf, Entries, Sorted, AllBelow, WfList, EntriesOf, Floor;
    ChildSplit(pages, name, cs, bound, i);
    var left, mid, right := EntriesOf(pages, name, cs[..i], bound), Entries(pages, name, cs[i]), EntriesOf(pages, name, cs[i + 1..], bound);
    FloorConcat(left, mid + right, key);
    FloorConcat(mid, right, key);
    FloorRight(pages, name, cs, bound, key, i);
    PointerBounds(pages, name, cs[i]);
    if i > 0 {
      FloorNonempty(mid, key);
    } else {
      assert cs[..0] == [];
      assert Floor<V>([], key) == None by { FloorEmpty<V>(key); }
      assert left == [] by { ListEmpty(pages, name, bound); }
    }
  }

  lemma ListEmpty<V>(pages: seq<Page<V>>, name: Key, bound: nat)
    ensures WfList(pages, name, [], bound) && EntriesOf(pages, name, [], bound) == []
  {
  }

  lemma FloorEmpty<V>(key: Key)
    ensures Floor<V>([], key) == None
  {
  }

  lemma {:induction false} FloorNonempty<V>(es: seq<Entry<V>>, key: Key)
    requires es != [] && AtMost(es[0].key, key)
    ensures Floor(es, key).Some?
  {
    if |es| > 1 {
      FloorNonempty(es[..|es| - 1], key);
    }
  }

  lemma FloorRight<V>(pages: seq<Page<V>>, name: Key, cs: seq<Pointer>, bound: nat, key: Key, i: nat)
    requires WfList(pages, name, cs, bound) && cs != [] && i <= ChildIndex(cs, key)
    requires forall j | i < j <= ChildIndex(cs, key) :: Lt(key, cs[j].first)
    requires WfList(pages, name, cs[i + 1..], bound)
    ensures Floor(EntriesOf(pages, name, cs[i + 1..], bound), key) == None
  {
    hide Lt, Wf, Entries, Sorted, AllBelow, WfList, EntriesOf, Floor;
    ListBounds(pages, name, cs[i + 1..], bound);
    if i == ChildIndex(cs, key) {
      AroundChild(pages, name, cs, bound, key);
    } else {
      assert Lt(key, cs[i + 1].first);
    }
    if i + 1 == |cs| {
      assert cs[i + 1..] == [];
      ListEmpty(pages, name, bound);
    }
    FloorAbove(EntriesOf(pages, name, cs[i + 1..], bound), key);
  }

  /** The children around a replaced one, in the grown arena. */
  lemma Survivors<V>(pages: seq<Page<V>>, more: seq<Page<V>>, name: Key, cs: seq<Pointer>, bound: nat, i: nat)
    requires pages <= more && bound <= |more| && WfList(pages, name, cs, bound) && i < |cs|
    ensures Wf(pages, name, cs[i])
    ensures WfList(pages, name, cs[..i], bound) && WfList(pages, name, cs[i + 1..], bound)
    ensures WfList(more, name, cs[..i], |more|) && EntriesOf(more, name, cs[..i], |more|) == EntriesOf(pages, name, cs[..i], bound)
    ensures WfList(more, name, cs[i + 1..], |more|) && EntriesOf(more, name, cs[i + 1..], |more|) == EntriesOf(pages, name, cs[i + 1..], bound)
  {
    hide Lt, Wf, Entries, WfList, EntriesOf;
    ChildSplit(pages, name, cs, bound, i);
    PersistentList(pages, more, name, cs[..i], bound);
    PersistentList(pages, more, name, cs[i + 1..], bound);
    Rebound(more, name, cs[..i], bound, |more|);
    Rebound(more, name, cs[i + 1..], bound, |more|);
  }

  /** Three lists side by side. */
  lemma ListConcat3<V>(pages: seq<Page<V>>, name: Key, a: seq<Pointer>, b: seq<Pointer>, c: seq<Pointer>, bound: nat)
    requires WfList(pages, name, a, bound) && WfList(pages, name, b, bound) && WfList(pages, name, c, bound)
    requires a != [] && b != [] ==> Lt(a[|a| - 1].last, b[0].first)
    requires b != [] && c != [] ==> Lt(b[|b| - 1].last, c[0].first)
    requires a != [] && b == [] && c != [] ==> Lt(a[|a| - 1].last, c[0].first)
    ensures WfList(pages, name, a + b + c, bound)
    ensures EntriesOf(pages, name, a + b + c, bound) ==
      EntriesOf(pages, name, a, bound) + EntriesOf(pages, name, b, bound) + EntriesOf(pages, name, c, bound)
  {
    hide Lt, Wf, Entries, WfList, EntriesOf;
    ListConcat(pages, name, a, b, bound);
    if b == [] {
      assert a + b == a;
    }
    ListConcat(pages, name, a + b, c, bound);
  }

  /** Replacing the chosen child by its updated subtrees updates the whole branch. */
  lemma SetSpliced<V>(pages: seq<Page<V>>, more: seq<Page<V>>, name: Key, cs: seq<Pointer>, bound: nat, key: Key, value: V, rep: seq<Pointer>)
    requires pages <= more && bound <= |pages| && WfList(pages, name, cs, bound) && cs != []
    requires Wf(pages, name, cs[ChildIndex(cs, key)])
    requires rep != [] && WfList(more, name, rep, |more|)
    requires EntriesOf(more, name, rep, |more|) == Put(Entries(pages, name, cs[ChildIndex(cs, key)]), key, value)
    ensures var i := ChildIndex(cs, key);
      WfList(more, name, cs[..i] + rep + cs[i + 1..], |more|)
      && EntriesOf(more, name, cs[..i] + rep + cs[i + 1..], |more|) == Put(EntriesOf(pages, name, cs, bound), key, value)
  {
    hide Lt, Wf, Entries, WfList, EntriesOf, Put, Sorted, AllBelow;
    var i := ChildIndex(cs, key);
    Survivors(pages, more, name, cs, bound, i);
    ChildSplit(pages, name, cs, bound, i);
    AroundChild(pages, name, cs, bound, key);
    var left, mid, right := EntriesOf(pages, name, cs[..i], bound), Entries(pages, name, cs[i]), EntriesOf(pages, name, cs[i + 1..], bound);
    PutAfter(left, mid + right, key, value);
    PutBefore(mid, right, key, value);
    assert left + (Put(mid, key, value) + right) == left + Put(mid, key, value) + right;
    PointerBounds(pages, name, cs[i]);
    PutSorted(mid, key, value);
    PutLast(mid, key, value);
    ListBounds(more, name, rep, |more|);
    ChildIndexSeparates(cs, key);
    ListConcat3(more, name, cs[..i], rep, cs[i + 1..], |more|);
  }

  /** Replacing the chosen child by what removal left of it removes from the whole branch. */
  lemma RemoveSpliced<V>(pages: seq<Page<V>>, more: seq<Page<V>>, name: Key, cs: seq<Pointer>, bound: nat, key: Key, next: Option<Pointer>)
    requires pages <= more && bound <= |pages| && WfList(pages, name, cs, bound) && cs != []
    requires Wf(pages, name, cs[ChildIndex(cs, key)]) && WfRoot(more, name, next)
    requires EntriesAt(more, name, next) == Del(Entries(pages, name, cs[ChildIndex(cs, key)]), key)
    ensures var i := ChildIndex(cs, key);
      var left := cs[..i] + (if next.None? then [] else [next.value]) + cs[i + 1..];
      WfList(more, name, left, |more|) && EntriesOf(more, name, left, |more|) == Del(EntriesOf(pages, name, cs, bound), key)
  {
    hide Lt, Wf, Entries, WfList, EntriesOf, Del, Sorted, AllBelow, Find;
    var i := ChildIndex(cs, key);
    var rep := if next.None? then [] else [next.value];
    Survivors(pages, more, name, cs, bound, i);
    ChildSplit(pages, name, cs, bound, i);
    AroundChild(pages, name, cs, bound, key);
    var left, mid, right := EntriesOf(pages, name, cs[..i], bound), Entries(pages, name, cs[i]), EntriesOf(pages, name, cs[i + 1..], bound);
    DelConcat(left, mid + right, key);
    DelConcat(mid, right, key);
    FindBeyond(left, key);
    FindBeyond(right, key);
    DelAbsent(left, key);
    DelAbsent(right, key);
    assert left + (Del(mid, key) + right) == left + Del(mid, key) + right;
    ReplacementFits(pages, more, name, cs, bound, i, mid, key, next);
    ListConcat3(more, name, cs[..i], rep, cs[i + 1..], |more|);
  }

  lemma ReplacementFits<V>(pages: seq<Page<V>>, more: seq<Page<V>>, name: Key, cs: seq<Pointer>, bound: nat, i: nat, mid: seq<Entry<V>>, key: Key, next: Option<Pointer>)
    requires i < |cs| && WfList(pages, name, cs, bound) && Wf(pages, name, cs[i]) && mid == Entries(pages, name, cs[i])
    requires WfRoot(more, name, next) && EntriesAt(more, name, next) == Del(mid, key)
    ensures var rep := if next.None? then [] else [next.value];
      WfList(more, name, rep, |more|) && EntriesOf(more, name, rep, |more|) == Del(mid, key)
      && (i > 0 && rep != [] ==> Lt(cs[i - 1].last, rep[0].first))
      && (i + 1 < |cs| && rep != [] ==> Lt(rep[0].last, cs[i + 1].first))
      && (0 < i && i + 1 < |cs| ==> Lt(cs[i - 1].last, cs[i + 1].first))
  {
    hide Lt, Wf, Entries, WfList, EntriesOf, Del, Sorted;
    ChildSplit(pages, name, cs, bound, i);
    PointerBounds(pages, name, cs[i]);
    DelSorted(mid, key);
    if next.Some? {
      PointerBounds(more, name, next.value);
      Singleton(more, name, next.value);
      if i > 0 {
        LtAtMost(cs[i - 1].last, cs[i].first, next.value.first);
      }
      if i + 1 < |cs| {
        AtMostLt(next.value.last, cs[i].last, cs[i + 1].first);
      }
    } else {
      ListEmpty(more, name, |more|);
    }
    if 0 < i && i + 1 < |cs| {
      FirstAtMostLast(mid);
      LtAtMost(cs[i - 1].last, cs[i].first, cs[i].last);
      LtTransitive(cs[i - 1].last, cs[i].last, cs[i + 1].first);
    }
  }

  lemma FirstAtMostLast<V>(es: seq<Entry<V>>)
    requires Sorted(es) && es != []
    ensures AtMost(es[0].key, es[|es| - 1].key)
  {
    hide Lt;
    LtIrreflexive(es[0].key);
    LtAsymmetric(es[0].key, es[|es| - 1].key);
  }

  lemma LtAtMost(a: Key, b: Key, c: Key)
    requires Lt(a, b) && AtMost(b, c)
    ensures Lt(a, c)
  {
    hide Lt;
    LtTotal(b, c);
    if Lt(b, c) {
      LtTransitive(a, b, c);
    }
  }
}
