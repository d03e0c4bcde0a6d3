/**
 The pages of the object store as records of the arena: everything that a published root reaches was appended before its Root Commit, and
 the host object found by walking records is the one of the store.
 */
module StoreRecords {
  import opened Bytes
  import opened Records
  import opened Arena
  import opened RuntimeRoots
  import opened Keys
  import opened SortedEntries
  import opened CowIndex
  import opened ObjectTypes
  import opened Extents
  import opened StoreInvariants
  import opened StoreParts
  import opened ObjectStore

  // ----- what a page refers to

  function PointerRefs(p: Option<Pointer>): set<nat> { if p.None? then {} else {p.value.offset} }

  function ValueRefs(v: Value): set<nat> {
    match v
    case ObjectValue(o) => PointerRefs(o.extentRoot)
    case RelationValue(_) => {}
    case BaseValue(b) => PointerRefs(b.extentRoot)
    case ExtentValue(x) => {x.recordOffset}
    case DataValue(_) => {}
    case CommitValue(r) => PointerRefs(r.objects) + PointerRefs(r.byParent) + PointerRefs(r.byChild) + PointerRefs(r.bases)
  }

  /** The pages that a reader may go on to from a page: children, extent maps, data, the indexes of a root. */
  ghost predicate Refers(page: Page<Value>, o: nat) {
    match page
    case Leaf(_, es) => exists i | 0 <= i < |es| :: o in ValueRefs(es[i].value)
    case Branch(_, cs) => exists i | 0 <= i < |cs| :: cs[i].offset == o
    case Other(v) => o in ValueRefs(v)
  }

  // ----- what a published root reaches

  predicate IsData(pages: Pages, o: nat) { o < |pages| && pages[o].Other? && pages[o].value.DataValue? }

  /** An entry of an extent map: it points to data. */
  predicate ExtentEntry(pages: Pages, v: Value) { v.ExtentValue? && IsData(pages, v.extent.recordOffset) }

  ghost predicate ExtentNode(pages: Pages, name: Key, p: Pointer) {
    Wf(pages, name, p) && forall e | e in Entries(pages, name, p) :: ExtentEntry(pages, e.value)
  }

  ghost predicate ExtentsReach(pages: Pages, name: Key, root: Option<Pointer>) { root.Some? ==> ExtentNode(pages, name, root.value) }

  /** An entry of one of the four indexes: an object or a base points to an extent map. */
  ghost predicate TopEntry(pages: Pages, v: Value) {
    match v
    case ObjectValue(o) => ExtentsReach(pages, ExtentsOfObject(o.id), o.extentRoot)
    case RelationValue(_) => true
    case BaseValue(b) => ExtentsReach(pages, ExtentsOfBase(b.hash), b.extentRoot)
    case ExtentValue(_) => false
    case DataValue(_) => false
    case CommitValue(_) => false
  }

  ghost predicate TopNode(pages: Pages, name: Key, p: Pointer) {
    Wf(pages, name, p) && forall e | e in Entries(pages, name, p) :: TopEntry(pages, e.value)
  }

  /** A page that is part of what a root means. */
  ghost predicate Meant(pages: Pages, o: nat) {
    IsData(pages, o) || exists name: Key, p: Pointer :: p.offset == o && (ExtentNode(pages, name, p) || TopNode(pages, name, p))
  }

  lemma ChildEntries(pages: Pages, name: Key, p: Pointer, i: nat)
    requires Wf(pages, name, p) && pages[p.offset].Branch? && i < |pages[p.offset].children|
    ensures Wf(pages, name, pages[p.offset].children[i])
    ensures forall e | e in Entries(pages, name, pages[p.offset].children[i]) :: e in Entries(pages, name, p)
  {
    hide Lt, PointerTo;
    ChildSplit(pages, name, pages[p.offset].children, p.offset, i);
  }

  /** What a page of an extent map refers to is part of it, or data. */
  lemma ExtentRefers(pages: Pages, name: Key, p: Pointer, o: nat)
    requires ExtentNode(pages, name, p) && Refers(pages[p.offset], o)
    ensures Meant(pages, o)
  {
    hide Lt, PointerTo, Sorted, WfList, EntriesOf;
    match pages[p.offset]
    case Leaf(_, es) =>
      var i :| 0 <= i < |es| && o in ValueRefs(es[i].value);
      assert es[i] in Entries(pages, name, p);
    case Branch(_, cs) =>
      var i :| 0 <= i < |cs| && cs[i].offset == o;
      ChildEntries(pages, name, p, i);
      assert ExtentNode(pages, name, cs[i]);
  }

  lemma TopRefers(pages: Pages, name: Key, p: Pointer, o: nat)
    requires TopNode(pages, name, p) && Refers(pages[p.offset], o)
    ensures Meant(pages, o)
  {
    hide Lt, PointerTo, Sorted, WfList, EntriesOf, ExtentNode;
    match pages[p.offset]
    case Leaf(_, es) =>
      var i :| 0 <= i < |es| && o in ValueRefs(es[i].value);
      assert es[i] in Entries(pages, name, p);
      assert TopEntry(pages, es[i].value);
    case Branch(_, cs) =>
      var i :| 0 <= i < |cs| && cs[i].offset == o;
      ChildEntries(pages, name, p, i);
      assert TopNode(pages, name, cs[i]);
  }

  lemma MeantRefers(pages: Pages, o: nat, next: nat)
    requires Meant(pages, o) && o < |pages| && Refers(pages[o], next)
    ensures Meant(pages, next)
  {
    hide ExtentNode, TopNode;
    if !IsData(pages, o) {
      var name: Key, p: Pointer :| p.offset == o && (ExtentNode(pages, name, p) || TopNode(pages, name, p));
      if ExtentNode(pages, name, p) {
        ExtentRefers(pages, name, p, next);
      } else {
        TopRefers(pages, name, p, next);
      }
    }
  }

  lemma MeantIsThere(pages: Pages, o: nat)
    requires Meant(pages, o)
    ensures o < |pages|
  {
    hide Entries, TopEntry;
  }

  // ----- from the validity of a root

  lemma {:induction false} TiledIsData(pages: Pages, xs: seq<Extent>, from: nat, own: bytes)
    requires Tiled(pages, xs, from, own)
    ensures forall i | 0 <= i < |xs| :: IsData(pages, xs[i].recordOffset)
    decreases |xs|
  {
    if xs != [] {
      TiledIsData(pages, xs[1..], from + xs[0].length, own[xs[0].length..]);
      assert forall i | 0 < i < |xs| :: xs[i] == xs[1..][i - 1];
    }
  }

  lemma ExtentMapReaches(pages: Pages, name: Key, root: Option<Pointer>, from: nat)
    requires ExtentMap(pages, name, root, from)
    ensures ExtentsReach(pages, name, root)
  {
    hide Tiled, Wf, Entries, DataOf;
    if root.Some? {
      var xs := Listed(pages, name, root);
      TiledIsData(pages, xs, from, OwnBytes(pages, name, root));
      forall e | e in Entries(pages, name, root.value) ensures ExtentEntry(pages, e.value) {
        var i :| 0 <= i < |Entries(pages, name, root.value)| && Entries(pages, name, root.value)[i] == e;
        assert Keyed(xs)[i] == KeyOf(xs[i]);
      }
    }
  }

  lemma EntryInIndex(pages: Pages, name: Key, p: Pointer, e: Entry<Value>)
    requires Wf(pages, name, p) && e in Entries(pages, name, p)
    ensures e.key in Index(pages, name, Some(p)) && Index(pages, name, Some(p))[e.key] == e.value
  {
    hide Wf, Entries, Sorted, Find, AsMap;
    PointerBounds(pages, name, p);
    var es := Entries(pages, name, p);
    var i :| 0 <= i < |es| && es[i] == e;
    FindEntry(es, i);
    FindInMap(es, e.key);
  }

  lemma ObjectsReach(pages: Pages, p: Option<Pointer>)
    requires ObjectsOk(pages, p)
    ensures p.Some? ==> TopNode(pages, OBJECTS, p.value)
  {
    hide Wf, Entries, Index, ExtentsReach, ExtentMap, OwnBytes;
    if p.Some? {
      forall e | e in Entries(pages, OBJECTS, p.value) ensures TopEntry(pages, e.value) {
        EntryInIndex(pages, OBJECTS, p.value, e);
        var o := e.value.obj;
        assert ObjectOk(pages, o);
        ExtentMapReaches(pages, ExtentsOfObject(o.id), o.extentRoot, o.baseSize);
      }
    }
  }

  lemma BasesReach(pages: Pages, p: Option<Pointer>)
    requires BasesOk(pages, p)
    ensures p.Some? ==> TopNode(pages, BASES, p.value)
  {
    hide Wf, Entries, Index, ExtentsReach, ExtentMap, OwnBytes;
    if p.Some? {
      forall e | e in Entries(pages, BASES, p.value) ensures TopEntry(pages, e.value) {
        EntryInIndex(pages, BASES, p.value, e);
        var b := e.value.base;
        assert BaseOk(pages, b);
        ExtentMapReaches(pages, ExtentsOfBase(b.hash), b.extentRoot, 0);
      }
    }
  }

  lemma RelationsReach(pages: Pages, name: Key, p: Option<Pointer>)
    requires RelationsOk(pages, name, p)
    ensures p.Some? ==> TopNode(pages, name, p.value)
  {
    hide Wf, Entries, Index;
    if p.Some? {
      forall e | e in Entries(pages, name, p.value) ensures TopEntry(pages, e.value) {
        EntryInIndex(pages, name, p.value, e);
      }
    }
  }

  /** What a valid root refers to is part of what it means. */
  lemma RootRefers(pages: Pages, root: Root, o: nat)
    requires RootOk(pages, root) && Refers(Other(CommitValue(root)), o)
    ensures Meant(pages, o)
  {
    hide ObjectsOk, BasesOk, RelationsOk, TopNode;
    ObjectsReach(pages, root.objects);
    RelationsReach(pages, BY_PARENT, root.byParent);
    RelationsReach(pages, BY_CHILD, root.byChild);
    BasesReach(pages, root.bases);
  }

  // ----- pages as records

  /**
   The pages lie in the log in append order: page `i` is record `slots[i]`. Where a page refers to a page that is there, its record refers to
   the record of that page.
   */
  ghost predicate Laid(refs: bytes -> set<nat>, pages: Pages, log: seq<Record>, slots: seq<nat>) {
    Slotted(pages, log, slots)
    && forall i, o | 0 <= i < |pages| && o in refs(log[slots[i]].payload) ::
      exists r: nat :: Refers(pages[i], r) && (r < |pages| ==> log[slots[r]].start == o)
  }

  ghost predicate Slotted(pages: Pages, log: seq<Record>, slots: seq<nat>) {
    |slots| == |pages| && (forall i | 0 <= i < |slots| :: slots[i] < |log|) && forall i, j | 0 <= i < j < |slots| :: slots[i] < slots[j]
  }

  /**
   Every chain of references from a Root Commit of the store leads only to records of pages that were appended before it and that are part of
   what its root means, and each of them reads back from the file as it was appended.
   */
  lemma {:induction false} StoreIsReadable(h: Hasher, refs: bytes -> set<nat>, base: nat, d: Disk, pages: Pages, commit: nat, root: Root, slots: seq<nat>, path: seq<nat>)
    returns (r: nat)
    requires Inv(h, base, d) && Laid(refs, pages, d.log, slots)
    requires commit < |pages| && pages[commit] == Other(CommitValue(root)) && RootOk(pages[..commit], root)
    requires Path(h, refs, d.file, path) && path[0] == d.log[slots[commit]].start
    ensures r <= commit && path[|path| - 1] == d.log[slots[r]].start && ReadRecord(h, d.file, path[|path| - 1]) == Some(d.log[slots[r]])
    ensures |path| > 1 ==> r < commit && Meant(pages[..commit], r)
    decreases |path|
  {
    hide Inv, Holds, ReadRecord, RootOk, Meant, Refers;
    InvHolds(h, base, d);
    var n := |path| - 1;
    if n == 0 {
      r := commit;
    } else {
      PathPrefix(h, refs, d.file, path);
      var i := StoreIsReadable(h, refs, base, d, pages, commit, root, slots, path[..n]);
      assert path[n - 1] == path[..n][n - 1] && path[n] in refs(d.log[slots[i]].payload);
      r :| Refers(pages[i], r) && (r < |pages| ==> d.log[slots[r]].start == path[n]);
      if i == commit {
        RootRefers(pages[..commit], root, r);
      } else {
        MeantIsThere(pages[..commit], i);
        assert pages[..commit][i] == pages[i];
        MeantRefers(pages[..commit], i, r);
      }
      MeantIsThere(pages[..commit], r);
    }
    HeldReads(h, d.file, d.log[slots[r]]);
  }

  // ----- the host object

  function LookOf(v: Option<Value>): Look {
    if v.None? then Missing else if v.value.ObjectValue? then Host(v.value.obj.stateHead) else Broken
  }

  /** What a reader of the object table, in search of one object, sees on the record of a page: the entry of a leaf, or the child to go on to. */
  ghost predicate Shows(look: Record -> Look, id: Id, pages: Pages, log: seq<Record>, slots: seq<nat>)
    requires Slotted(pages, log, slots)
  {
    forall i | 0 <= i < |pages| ::
      match pages[i]
      case Leaf(n, es) => n == OBJECTS ==> look(log[slots[i]]) == LookOf(Find(es, id))
      case Branch(n, cs) =>
        n == OBJECTS && cs != [] ==> (look(log[slots[i]]).Descend?
          && var c := cs[ChildIndex(cs, id)].offset; c < |pages| ==> look(log[slots[i]]).offset == log[slots[c]].start)
      case Other(_) => true
  }

  /** Walking the records of the object table finds what it holds. */
  lemma {:induction false} RecordsFind(look: Record -> Look, id: Id, base: nat, log: seq<Record>, tail: nat, pages: Pages, slots: seq<nat>, p: Pointer)
    requires Ordered(base, log, tail) && Slotted(pages, log, slots) && Shows(look, id, pages, log, slots) && Wf(pages, OBJECTS, p)
    ensures FindHost(FromLog(log), look, log[slots[p.offset]].start) == LookOf(Find(Entries(pages, OBJECTS, p), id))
    decreases p.offset
  {
    hide RecordIn, Ordered, Lt, PointerTo, Sorted, Find, WfList, EntriesOf;
    RecordFound(base, log, tail, slots[p.offset]);
    OneStart(base, log, tail);
    match pages[p.offset]
    case Leaf(_, es) =>
    case Branch(_, cs) =>
      var i := ChildIndex(cs, id);
      ChildEntries(pages, OBJECTS, p, i);
      GetDescends(pages, OBJECTS, cs, p.offset, id);
      ChildIsOlder(pages, OBJECTS, p, i);
      RecordsFind(look, id, base, log, tail, pages, slots, cs[i]);
  }

  lemma ChildIsOlder(pages: Pages, name: Key, p: Pointer, i: nat)
    requires Wf(pages, name, p) && pages[p.offset].Branch? && i < |pages[p.offset].children|
    ensures pages[p.offset].children[i].offset < p.offset
  {
    hide Lt, PointerTo;
    ChildSplit(pages, name, pages[p.offset].children, p.offset, i);
  }

  /** The host object that a reader of the records finds for a root of the store is the store's, and so is its state head. */
  lemma HostIsTheStores<R, F>(reader: Reader<R, F>, base: nat, log: seq<Record>, tail: nat, pages: Pages, root: Root, slots: seq<nat>, r: R)
    requires Ordered(base, log, tail) && Slotted(pages, log, slots) && Shows(reader.look, root.rootId, pages, log, slots)
    requires RootOk(pages, root) && root.rootId in View(pages, root).objects
    requires root.objects.Some? && root.objects.value.offset < |pages| ==> reader.table(r) == Some(log[slots[root.objects.value.offset]].start)
    ensures HostOf(FromLog(log), reader, r) == Host(View(pages, root).objects[root.rootId].stateHead)
  {
    hide RecordIn, Ordered, FindHost, RelationsOk, RelationsView, BasesOk, BasesView, ObjectOk, Find, AsMap, Shows, Entries, FromLog, Wf, OwnBytes;
    var p := root.objects;
    HostInTable(pages, root);
    RecordsFind(reader.look, root.rootId, base, log, tail, pages, slots, p.value);
    FindInMap(Entries(pages, OBJECTS, p.value), root.rootId);
  }

  lemma HostInTable(pages: Pages, root: Root)
    requires RootOk(pages, root) && root.rootId in View(pages, root).objects
    ensures root.objects.Some? && root.objects.value.offset < |pages|
  {
    hide RelationsOk, RelationsView, BasesOk, BasesView, ObjectOk;
  }

  // ----- runs

  /** What lies below a Root Commit of the store: its pages, the root published over them, and the records of the pages. */
  datatype Publication = Publication(pages: Pages, root: Root, slots: seq<nat>)

  /** The state head of the root object. */
  ghost function HeadIn(p: Publication): Option<nat>
    requires RootOk(p.pages, p.root) && p.root.rootId in View(p.pages, p.root).objects
  {
    View(p.pages, p.root).objects[p.root.rootId].stateHead
  }

  /** The pages of a publication lie in the log, and its root record names the object table. */
  ghost predicate Below<R, F>(reader: Reader<R, F>, log: seq<Record>, r: R, p: Publication) {
    && Slotted(p.pages, log, p.slots) && Shows(reader.look, p.root.rootId, p.pages, log, p.slots)
    && RootOk(p.pages, p.root) && p.root.rootId in View(p.pages, p.root).objects
    && (p.root.objects.Some? && p.root.objects.value.offset < |p.pages| ==> reader.table(r) == Some(log[p.slots[p.root.objects.value.offset]].start))
  }

  /** Root Commits are those of a store, and the host of the root has the head that the cause says: the published one, or the newest COMMIT. */
  ghost predicate StorePublishes<R, F>(reader: Reader<R, F>, d: Disk, w: Writer, s: Step, cause: Cause, p: Publication) {
    IsRoot(reader, s) ==>
      Below(reader, d.log, reader.codec.Decode(s.payload).value, p)
      && match cause case Carried => HeadIn(p) == w.head case Refreshed => PhysicalHead(reader, d.log) == Some(HeadIn(p))
  }

  lemma HostBelow<R, F>(reader: Reader<R, F>, h: Hasher, base: nat, d: Disk, r: R, p: Publication)
    requires Inv(h, base, d) && Below(reader, d.log, r, p)
    ensures HostOf(FromLog(d.log), reader, r) == Host(HeadIn(p))
  {
    hide Inv, HostOf, RootOk, View, Ordered, Shows, Slotted;
    InvSynced(h, base, d);
    HostIsTheStores(reader, base, d.log, d.tail, p.pages, p.root, p.slots, r);
  }

  /** A run of writers in which every Root Commit is one of a store. */
  ghost predicate StoreRun<R, F>(h: Hasher, reader: Reader<R, F>, base: nat, ds: seq<Disk>, steps: seq<Step>, ws: seq<Writer>, causes: seq<Cause>, ps: seq<Publication>) {
    Run(h, base, ds, steps) && ds[0].log == [] && |ws| == |ds| && |causes| == |steps| && |ps| == |steps| && ws[0] == Writer(None, 0)
    && forall i | 0 <= i < |steps| ::
      StorePublishes(reader, ds[i], ws[i], steps[i], causes[i], ps[i]) && ws[i + 1] == Remember(h, reader, ds[i], ws[i], steps[i])
  }

  /** Stores keep to the writers' protocol: that a root leads to the host with its head is not a condition on them. */
  lemma StoreRunIsProtocol<R, F>(h: Hasher, reader: Reader<R, F>, base: nat, ds: seq<Disk>, steps: seq<Step>, ws: seq<Writer>, causes: seq<Cause>, ps: seq<Publication>)
    requires StoreRun(h, reader, base, ds, steps, ws, causes, ps)
    ensures ProtocolRun(h, reader, base, ds, steps, ws, causes)
  {
    hide Inv, Enabled, Next, Remember, Below, HeadIn, HostOf, PhysicalHead;
    forall i | 0 <= i < |steps| ensures Follows(reader, ds[i], ws[i], steps[i], causes[i]) {
      assert StorePublishes(reader, ds[i], ws[i], steps[i], causes[i], ps[i]);
      if IsRoot(reader, steps[i]) {
        RunKeepsInv(h, base, ds, steps, i);
        HostBelow(reader, h, base, ds[i], reader.codec.Decode(steps[i].payload).value, ps[i]);
      }
    }
  }

  /**
   Over every run of stores, crashes included: what is loaded from a reopened file is a root that was published, with the PigFS root that its
   root object, in what the store meant by it, names.
   */
  lemma StoreRunLoads<R, F>(h: Hasher, reader: Reader<R, F>, base: nat, ds: seq<Disk>, steps: seq<Step>, ws: seq<Writer>, causes: seq<Cause>,
    ps: seq<Publication>, j: nat) returns (i: nat)
    requires StoreRun(h, reader, base, ds, steps, ws, causes, ps)
    requires j < |ds| && ds[j].tail == |ds[j].file| && NewestRoot(reader.codec, ds[j].log).Some?
    ensures i < j && IsRoot(reader, steps[i]) && Below(reader, ds[i].log, reader.codec.Decode(steps[i].payload).value, ps[i])
    ensures var root, fs := reader.codec.Decode(steps[i].payload).value, FsRootAt(FromLog(ds[i].log), reader, HeadIn(ps[i]));
      fs.Some? && LoadRuntimeRoots(h, reader, ds[j].file, base, false) == Loaded(Some((root, ds[i].tail)), fs.value)
  {
    hide Inv, Enabled, Next, Remember, Below, HeadIn, HostOf, PhysicalHead, LoadRuntimeRoots, NewestRoot, FsRootAt, Orphaned, Stale, CommitFrom, ProtocolRun;
    StoreRunIsProtocol(h, reader, base, ds, steps, ws, causes, ps);
    var head;
    i, head := ProtocolLoadsPublishedPair(h, reader, base, ds, steps, ws, causes, j);
    assert StorePublishes(reader, ds[i], ws[i], steps[i], causes[i], ps[i]);
    RunKeepsInv(h, base, ds, steps, i);
    HostBelow(reader, h, base, ds[i], reader.codec.Decode(steps[i].payload).value, ps[i]);
  }

  // ----- such a run

  const HOST_ID: Id := [104]

  function TinyHost(head: nat): Object {
    Object(HOST_ID, true, Meta(None, None, None, Governance(Open, Open, Open, Open)), None, 0, 0, 0, 0, None, Some(head), None)
  }

  function TinyTable(head: nat): Page<Value> { Leaf(OBJECTS, [Entry(HOST_ID, ObjectValue(TinyHost(head)))]) }

  function TinyRoot(offset: nat, head: nat): Root { Root(HOST_ID, Some(PointerTo(offset, TinyTable(head))), None, None, None, 1, None) }

  /** The object tables behind the two Root Commits: first the host names COMMIT 0, then COMMIT 291. */
  function TinyPublication(i: nat): Publication {
    if i < 6 then Publication([TinyTable(0)], TinyRoot(0, 0), [1])
    else Publication([TinyTable(0), Other(CommitValue(TinyRoot(0, 0))), TinyTable(291)], TinyRoot(2, 291), [1, 2, 4])
  }

  lemma TinyRootOk(pages: Pages, offset: nat, head: nat)
    requires offset < |pages| && pages[offset] == TinyTable(head)
    ensures RootOk(pages, TinyRoot(offset, head)) && HOST_ID in View(pages, TinyRoot(offset, head)).objects
    ensures View(pages, TinyRoot(offset, head)).objects[HOST_ID].stateHead == Some(head)
  {
    hide ExtentMap, OwnBytes, ExtentsOfObject;
    var p := PointerTo(offset, TinyTable(head));
    EmptyExtentMap(pages, ExtentsOfObject(HOST_ID), 0);
    assert Wf(pages, OBJECTS, p) && Entries(pages, OBJECTS, p) == [Entry(HOST_ID, ObjectValue(TinyHost(head)))];
    EmptyIndex(pages, BY_PARENT);
    EmptyIndex(pages, BY_CHILD);
    EmptyIndex(pages, BASES);
    assert [Entry(HOST_ID, ObjectValue(TinyHost(head)))][1..] == [];
    assert Index(pages, OBJECTS, Some(p)) == map[HOST_ID := ObjectValue(TinyHost(head))];
    assert ObjectOk(pages, TinyHost(head));
  }

  lemma TinyPublishes(h: Hasher, i: nat)
    requires i == 2 || i == 6
    ensures StorePublishes(TinyReader(), TinyDisk(h, i), TinyWriter(i), TinySteps()[i], TINY_CAUSES[i], TinyPublication(i))
  {
    hide RootOk, View, TinyDisk, NewestCommit, PhysicalHead;
    var p, log, k := TinyPublication(i), TinyRecords()[..TinyCount(i)], TinyCount(i);
    TinyState(h, i);
    TinyNewest(k);
    TinyRootOk(p.pages, if i == 2 then 0 else 2, if i == 2 then 0 else 291);
    assert log[1] == TinyRecords()[1] && (i == 6 ==> log[2] == TinyRecords()[2] && log[4] == TinyRecords()[4]);
    assert Slotted(p.pages, log, p.slots);
    assert Shows(TinyReader().look, HOST_ID, p.pages, log, p.slots);
  }

  /** The run in which an orphaned COMMIT becomes authoritative is one of a store. */
  lemma OrphanInStoreRun(h: Hasher) returns (ds: seq<Disk>, ws: seq<Writer>, ps: seq<Publication>)
    ensures StoreRun(h, TinyReader(), 0, ds, TinySteps(), ws, TINY_CAUSES, ps)
    ensures |ds| == 8 && LoadRuntimeRoots(h, TinyReader(), ds[5].file, 0, false) == Loaded(Some((97, 194)), Some(1))
    ensures LoadRuntimeRoots(h, TinyReader(), ds[7].file, 0, false) == Loaded(Some((388, 485)), Some(4))
  {
    hide Below, HeadIn, LoadRuntimeRoots, TinyDisk, Remember, Enabled, Next, Follows, Inv, TinyPublication, HeadOf, NewestRoot, PhysicalHead, Orphaned, Stale;
    ds, ws := OrphanBecomesAuthoritative(h);
    ps := seq(7, i requires 0 <= i < 7 => TinyPublication(i));
    TinyPublishes(h, 2);
    TinyPublishes(h, 6);
    forall i | 0 <= i < 7 ensures StorePublishes(TinyReader(), ds[i], ws[i], TinySteps()[i], TINY_CAUSES[i], ps[i]) {
      assert i != 2 && i != 6 ==> !IsRoot(TinyReader(), TinySteps()[i]);
    }
  }

  // ----- the class

  /** At every moment, what the published Root Commit of a store reaches reads back from its file, if the pages of the store lie in it. */
  lemma PublishedIsReadable(store: WurstObjectStore, h: Hasher, refs: bytes -> set<nat>, base: nat, d: Disk, slots: seq<nat>, path: seq<nat>) returns (r: nat)
    requires store.Valid() && store.root.Some? && Inv(h, base, d) && Laid(refs, store.arena.pages, d.log, slots)
    requires Path(h, refs, d.file, path) && path[0] == d.log[slots[store.commitOffset.value]].start
    ensures r <= store.commitOffset.value && path[|path| - 1] == d.log[slots[r]].start
    ensures ReadRecord(h, d.file, path[|path| - 1]) == Some(d.log[slots[r]])
    ensures |path| > 1 ==> r < store.commitOffset.value && Meant(store.arena.pages[..store.commitOffset.value], r)
  {
    hide Inv, Laid, Path, RootOk, View, Sound, TxOk, ReadRecord, Meant;
    r := StoreIsReadable(h, refs, base, d, store.arena.pages, store.commitOffset.value, store.root.value, slots, path);
  }

  /** The host that a reader finds for the published root is the root object of what the store has published. */
  lemma PublishedHost<R, F>(store: WurstObjectStore, reader: Reader<R, F>, base: nat, log: seq<Record>, tail: nat, slots: seq<nat>, r: R)
    requires store.Valid() && store.root.Some? && RootOk(store.arena.pages, store.root.value)
    requires var pages, root := store.arena.pages[..store.commitOffset.value], store.root.value;
      Ordered(base, log, tail) && Slotted(pages, log, slots) && Shows(reader.look, root.rootId, pages, log, slots)
      && (root.objects.Some? && root.objects.value.offset < |pages| ==> reader.table(r) == Some(log[slots[root.objects.value.offset]].start))
    ensures store.root.value.rootId in store.Published().objects
    ensures HostOf(FromLog(log), reader, r) == Host(store.Published().objects[store.root.value.rootId].stateHead)
  {
    hide RootOk, View, Sound, TxOk, Ordered, Slotted, Shows, HostOf, WurstObjectStore.Valid;
    store.BeforeCommit();
    var pages, root := store.arena.pages[..store.commitOffset.value], store.root.value;
    HostIsTheStores(reader, base, log, tail, pages, root, slots, r);
  }
}
