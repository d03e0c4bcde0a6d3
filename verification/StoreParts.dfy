/**
 The four indexes of a published root as maps, and single reads and updates of them.
 */
module StoreParts {
  import opened Bytes
  import opened Keys
  import opened SortedEntries
  import opened CowIndex
  import opened ObjectTypes
  import opened Extents
  import opened ObjectWorld

  // ----- an index as a map

  ghost function Index(pages: Pages, name: Key, root: Option<Pointer>): map<Key, Value>
    requires WfRoot(pages, name, root)
  {
    AsMap(EntriesAt(pages, name, root))
  }

  method Lookup(arena: PageArena<Value>, name: Key, root: Option<Pointer>, key: Key) returns (r: Option<Value>)
    requires WfRoot(arena.pages, name, root)
    ensures r == if key in Index(arena.pages, name, root) then Some(Index(arena.pages, name, root)[key]) else None
  {
    hide AsMap, Find, WfRoot, EntriesAt;
    r := PersistentCowIndex(arena, name).Get(root, key);
    FindInMap(EntriesAt(arena.pages, name, root), key);
  }

  method Insert(arena: PageArena<Value>, name: Key, root: Option<Pointer>, key: Key, value: Value) returns (r: Option<Pointer>)
    requires WfRoot(arena.pages, name, root)
    modifies arena
    ensures old(arena.pages) <= arena.pages && WfRoot(arena.pages, name, r)
    ensures Index(arena.pages, name, r) == old(Index(arena.pages, name, root))[key := value]
  {
    hide AsMap, Put, WfRoot, EntriesAt;
    PutMap(EntriesAt(arena.pages, name, root), key, value);
    r := PersistentCowIndex(arena, name).Set(root, key, value);
  }

  method Erase(arena: PageArena<Value>, name: Key, root: Option<Pointer>, key: Key) returns (r: Option<Pointer>)
    requires WfRoot(arena.pages, name, root)
    modifies arena
    ensures old(arena.pages) <= arena.pages && WfRoot(arena.pages, name, r)
    ensures Index(arena.pages, name, r) == old(Index(arena.pages, name, root)) - {key}
  {
    hide AsMap, Del, WfRoot, EntriesAt;
    DelMap(EntriesAt(arena.pages, name, root), key);
    r := PersistentCowIndex(arena, name).Remove(root, key);
  }

  lemma IndexGrow(pages: Pages, more: Pages, name: Key, root: Option<Pointer>)
    requires pages <= more && WfRoot(pages, name, root)
    ensures WfRoot(more, name, root) && Index(more, name, root) == Index(pages, name, root)
  {
    hide WfRoot, EntriesAt, AsMap;
    PersistentRoot(pages, more, name, root);
  }

  lemma EmptyIndex(pages: Pages, name: Key)
    ensures WfRoot(pages, name, None) && Index(pages, name, None) == map[]
  {
  }

  // ----- an extent map as bytes

  function DataOf(pages: Pages, xs: seq<Extent>): bytes {
    if xs == [] then []
    else
      (if xs[0].recordOffset < |pages| && pages[xs[0].recordOffset].Other? && pages[xs[0].recordOffset].value.DataValue?
       then pages[xs[0].recordOffset].value.data else []) + DataOf(pages, xs[1..])
  }

  lemma {:induction false} TiledData(pages: Pages, xs: seq<Extent>, from: nat, own: bytes)
    requires Tiled(pages, xs, from, own)
    ensures DataOf(pages, xs) == own
    decreases |xs|
  {
    if xs != [] {
      TiledData(pages, xs[1..], from + xs[0].length, own[xs[0].length..]);
      assert own == own[..xs[0].length] + own[xs[0].length..];
    }
  }

  function ExtentsIn(es: seq<Entry<Value>>): (xs: seq<Extent>)
    ensures |xs| == |es|
  {
    seq(|es|, i requires 0 <= i < |es| => if es[i].value.ExtentValue? then es[i].value.extent else Extent(0, 0, 0))
  }

  ghost function Listed(pages: Pages, name: Key, root: Option<Pointer>): seq<Extent>
    requires WfRoot(pages, name, root)
  {
    ExtentsIn(EntriesAt(pages, name, root))
  }

  /** The bytes an extent index maps. */
  ghost function OwnBytes(pages: Pages, name: Key, root: Option<Pointer>): bytes
    requires WfRoot(pages, name, root)
  {
    DataOf(pages, Listed(pages, name, root))
  }

  /** The extents of an index tile their bytes from `from` on, without a hole. */
  ghost predicate ExtentMap(pages: Pages, name: Key, root: Option<Pointer>, from: nat) {
    WfRoot(pages, name, root)
    && EntriesAt(pages, name, root) == Keyed(Listed(pages, name, root))
    && Tiled(pages, Listed(pages, name, root), from, OwnBytes(pages, name, root))
    && from + |OwnBytes(pages, name, root)| <= MAX_SAFE_INTEGER
  }

  lemma ExtentMapOf(pages: Pages, name: Key, root: Option<Pointer>, from: nat, xs: seq<Extent>, own: bytes)
    requires WfRoot(pages, name, root) && EntriesAt(pages, name, root) == Keyed(xs)
    requires Tiled(pages, xs, from, own) && from + |own| <= MAX_SAFE_INTEGER
    ensures ExtentMap(pages, name, root, from) && OwnBytes(pages, name, root) == own
  {
    hide Tiled, WfRoot, EntriesAt, DataOf;
    assert ExtentsIn(Keyed(xs)) == xs;
    TiledData(pages, xs, from, own);
  }

  lemma ExtentMapGrow(pages: Pages, more: Pages, name: Key, root: Option<Pointer>, from: nat)
    requires pages <= more && ExtentMap(pages, name, root, from)
    ensures ExtentMap(more, name, root, from) && OwnBytes(more, name, root) == OwnBytes(pages, name, root)
  {
    hide Tiled, WfRoot, EntriesAt, DataOf, ExtentsIn, Keyed;
    PersistentRoot(pages, more, name, root);
    var xs, own := Listed(pages, name, root), OwnBytes(pages, name, root);
    TiledGrow(pages, more, xs, from, own);
    TiledData(more, xs, from, own);
  }

  lemma EmptyExtentMap(pages: Pages, name: Key, from: nat)
    requires from <= MAX_SAFE_INTEGER
    ensures ExtentMap(pages, name, None, from) && OwnBytes(pages, name, None) == []
  {
  }

  // ----- objects

  ghost predicate ObjectOk(pages: Pages, o: Object) {
    ExtentMap(pages, ExtentsOfObject(o.id), o.extentRoot, o.baseSize)
    && (!o.hostRoot ==> o.virtualSize == o.baseSize + |OwnBytes(pages, ExtentsOfObject(o.id), o.extentRoot)|)
  }

  ghost function ViewOf(pages: Pages, o: Object): ObjectView
    requires ObjectOk(pages, o)
  {
    ObjectView(o.id, o.hostRoot, o.meta, o.baseHash, o.baseSize, o.virtualSize, o.stateRevision, o.relationshipRevision, o.stateHash,
      o.stateHead, OwnBytes(pages, ExtentsOfObject(o.id), o.extentRoot))
  }

  ghost predicate ObjectsOk(pages: Pages, p: Option<Pointer>) {
    WfRoot(pages, OBJECTS, p) && var m := Index(pages, OBJECTS, p);
    forall id | id in m :: m[id].ObjectValue? && m[id].obj.id == id && ObjectOk(pages, m[id].obj)
  }

  ghost function ObjectsView(pages: Pages, p: Option<Pointer>): map<Id, ObjectView>
    requires ObjectsOk(pages, p)
  {
    var m := Index(pages, OBJECTS, p);
    map id | id in m :: ViewOf(pages, m[id].obj)
  }

  lemma ObjectGrow(pages: Pages, more: Pages, o: Object)
    requires pages <= more && ObjectOk(pages, o)
    ensures ObjectOk(more, o) && ViewOf(more, o) == ViewOf(pages, o)
  {
    hide ExtentMap, OwnBytes;
    ExtentMapIsWf(pages, ExtentsOfObject(o.id), o.extentRoot, o.baseSize);
    ExtentMapGrow(pages, more, ExtentsOfObject(o.id), o.extentRoot, o.baseSize);
  }

  lemma ExtentMapIsWf(pages: Pages, name: Key, root: Option<Pointer>, from: nat)
    requires ExtentMap(pages, name, root, from)
    ensures WfRoot(pages, name, root)
  {
  }

  lemma ObjectsGrow(pages: Pages, more: Pages, p: Option<Pointer>)
    requires pages <= more && ObjectsOk(pages, p)
    ensures ObjectsOk(more, p) && ObjectsView(more, p) == ObjectsView(pages, p)
  {
    hide Index, ObjectOk, ViewOf, WfRoot;
    IndexGrow(pages, more, OBJECTS, p);
    var m := Index(pages, OBJECTS, p);
    forall id | id in m ensures ObjectOk(more, m[id].obj) && ViewOf(more, m[id].obj) == ViewOf(pages, m[id].obj) {
      ObjectGrow(pages, more, m[id].obj);
    }
  }

  method GetObject(arena: PageArena<Value>, p: Option<Pointer>, id: Id) returns (r: Option<Object>)
    requires ObjectsOk(arena.pages, p)
    ensures r.None? <==> id !in ObjectsView(arena.pages, p)
    ensures r.Some? ==> r.value.id == id && ObjectOk(arena.pages, r.value) && ViewOf(arena.pages, r.value) == ObjectsView(arena.pages, p)[id]
  {
    hide Index, ObjectOk, ViewOf, WfRoot;
    var v := Lookup(arena, OBJECTS, p, id);
    return if v.None? then None else Some(v.value.obj);
  }

  method PutObject(arena: PageArena<Value>, p: Option<Pointer>, o: Object) returns (r: Option<Pointer>)
    requires ObjectsOk(arena.pages, p) && ObjectOk(arena.pages, o)
    modifies arena
    ensures old(arena.pages) <= arena.pages && ObjectsOk(arena.pages, r)
    ensures ObjectsView(arena.pages, r) == old(ObjectsView(arena.pages, p))[o.id := old(ViewOf(arena.pages, o))]
  {
    hide Index, ObjectOk, ViewOf, WfRoot;
    ghost var pages := arena.pages;
    r := Insert(arena, OBJECTS, p, o.id, ObjectValue(o));
    ObjectsGrow(pages, arena.pages, p);
    ObjectGrow(pages, arena.pages, o);
    IndexGrow(pages, arena.pages, OBJECTS, p);
  }

  // ----- relations

  ghost predicate RelationsOk(pages: Pages, name: Key, p: Option<Pointer>) {
    WfRoot(pages, name, p) && forall k | k in Index(pages, name, p) :: Index(pages, name, p)[k].RelationValue?
  }

  ghost function RelationsView(pages: Pages, name: Key, p: Option<Pointer>): map<Key, Relation>
    requires RelationsOk(pages, name, p)
  {
    var m := Index(pages, name, p);
    map k | k in m :: m[k].relation
  }

  lemma RelationsGrow(pages: Pages, more: Pages, name: Key, p: Option<Pointer>)
    requires pages <= more && RelationsOk(pages, name, p)
    ensures RelationsOk(more, name, p) && RelationsView(more, name, p) == RelationsView(pages, name, p)
  {
    hide Index, WfRoot;
    IndexGrow(pages, more, name, p);
  }

  method GetRelation(arena: PageArena<Value>, name: Key, p: Option<Pointer>, key: Key) returns (r: Option<Relation>)
    requires RelationsOk(arena.pages, name, p)
    ensures var m := RelationsView(arena.pages, name, p); r == if key in m then Some(m[key]) else None
  {
    hide Index, WfRoot;
    var v := Lookup(arena, name, p, key);
    return if v.None? then None else Some(v.value.relation);
  }

  method PutRelation(arena: PageArena<Value>, name: Key, p: Option<Pointer>, key: Key, relation: Relation) returns (r: Option<Pointer>)
    requires RelationsOk(arena.pages, name, p)
    modifies arena
    ensures old(arena.pages) <= arena.pages && RelationsOk(arena.pages, name, r)
    ensures RelationsView(arena.pages, name, r) == old(RelationsView(arena.pages, name, p))[key := relation]
  {
    hide Index, WfRoot;
    r := Insert(arena, name, p, key, RelationValue(relation));
  }

  method EraseRelation(arena: PageArena<Value>, name: Key, p: Option<Pointer>, key: Key) returns (r: Option<Pointer>)
    requires RelationsOk(arena.pages, name, p)
    modifies arena
    ensures old(arena.pages) <= arena.pages && RelationsOk(arena.pages, name, r)
    ensures RelationsView(arena.pages, name, r) == old(RelationsView(arena.pages, name, p)) - {key}
  {
    hide Index, WfRoot;
    r := Erase(arena, name, p, key);
  }

  // ----- bases

  ghost predicate BaseOk(pages: Pages, b: Base) {
    ExtentMap(pages, ExtentsOfBase(b.hash), b.extentRoot, 0) && b.size == |OwnBytes(pages, ExtentsOfBase(b.hash), b.extentRoot)|
  }

  ghost function BaseBytes(pages: Pages, b: Base): bytes
    requires BaseOk(pages, b)
  {
    OwnBytes(pages, ExtentsOfBase(b.hash), b.extentRoot)
  }

  ghost predicate BasesOk(pages: Pages, p: Option<Pointer>) {
    WfRoot(pages, BASES, p) && var m := Index(pages, BASES, p);
    forall k | k in m :: m[k].BaseValue? && m[k].base.hash == k && BaseOk(pages, m[k].base)
  }

  ghost function BasesView(pages: Pages, p: Option<Pointer>): map<Key, bytes>
    requires BasesOk(pages, p)
  {
    var m := Index(pages, BASES, p);
    map k | k in m :: BaseBytes(pages, m[k].base)
  }

  lemma BaseGrow(pages: Pages, more: Pages, b: Base)
    requires pages <= more && BaseOk(pages, b)
    ensures BaseOk(more, b) && BaseBytes(more, b) == BaseBytes(pages, b)
  {
    hide ExtentMap, OwnBytes;
    ExtentMapIsWf(pages, ExtentsOfBase(b.hash), b.extentRoot, 0);
    ExtentMapGrow(pages, more, ExtentsOfBase(b.hash), b.extentRoot, 0);
  }

  lemma BasesGrow(pages: Pages, more: Pages, p: Option<Pointer>)
    requires pages <= more && BasesOk(pages, p)
    ensures BasesOk(more, p) && BasesView(more, p) == BasesView(pages, p)
  {
    hide Index, BaseOk, BaseBytes, WfRoot;
    IndexGrow(pages, more, BASES, p);
    var m := Index(pages, BASES, p);
    forall k | k in m ensures BaseOk(more, m[k].base) && BaseBytes(more, m[k].base) == BaseBytes(pages, m[k].base) {
      BaseGrow(pages, more, m[k].base);
    }
  }

  method GetBase(arena: PageArena<Value>, p: Option<Pointer>, hash: Key) returns (r: Option<Base>)
    requires BasesOk(arena.pages, p)
    ensures r.None? <==> hash !in BasesView(arena.pages, p)
    ensures r.Some? ==> r.value.hash == hash && BaseOk(arena.pages, r.value) && BaseBytes(arena.pages, r.value) == BasesView(arena.pages, p)[hash]
  {
    hide Index, BaseOk, BaseBytes, WfRoot;
    var v := Lookup(arena, BASES, p, hash);
    return if v.None? then None else Some(v.value.base);
  }

  method PutBase(arena: PageArena<Value>, p: Option<Pointer>, b: Base) returns (r: Option<Pointer>)
    requires BasesOk(arena.pages, p) && BaseOk(arena.pages, b)
    modifies arena
    ensures old(arena.pages) <= arena.pages && BasesOk(arena.pages, r)
    ensures BasesView(arena.pages, r) == old(BasesView(arena.pages, p))[b.hash := old(BaseBytes(arena.pages, b))]
  {
    hide Index, BaseOk, BaseBytes, WfRoot;
    ghost var pages := arena.pages;
    r := Insert(arena, BASES, p, b.hash, BaseValue(b));
    BasesGrow(pages, arena.pages, p);
    BaseGrow(pages, arena.pages, b);
    IndexGrow(pages, arena.pages, BASES, p);
  }

  // ----- a root as a world

  ghost predicate RootOk(pages: Pages, root: Root) {
    ObjectsOk(pages, root.objects) && RelationsOk(pages, BY_PARENT, root.byParent)
    && RelationsOk(pages, BY_CHILD, root.byChild) && BasesOk(pages, root.bases)
  }

  /** What a root means. */
  ghost function View(pages: Pages, root: Root): World
    requires RootOk(pages, root)
  {
    World(root.rootId, ObjectsView(pages, root.objects), RelationsView(pages, BY_PARENT, root.byParent),
      RelationsView(pages, BY_CHILD, root.byChild), BasesView(pages, root.bases))
  }

  /** Every root keeps its meaning while the arena grows. */
  lemma RootGrow(pages: Pages, more: Pages, root: Root)
    requires pages <= more && RootOk(pages, root)
    ensures RootOk(more, root) && View(more, root) == View(pages, root)
  {
    hide ObjectsOk, RelationsOk, BasesOk, ObjectsView, RelationsView, BasesView;
    ObjectsGrow(pages, more, root.objects);
    RelationsGrow(pages, more, BY_PARENT, root.byParent);
    RelationsGrow(pages, more, BY_CHILD, root.byChild);
    BasesGrow(pages, more, root.bases);
  }
}
