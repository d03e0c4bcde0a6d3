/**
 Copying a subtree of one object store into a fresh one: compaction copies the live graph under the same ids,
 materialization copies any subtree under the same or under new ids. Both preserve everything the graph means.
 */
module Compaction {
  import opened Bytes
  import opened Keys
  import opened CowIndex
  import opened ObjectTypes
  import opened Extents
  import opened ObjectWorld
  import opened Forest
  import opened Transactions
  import opened StoreInvariants
  import opened StoreParts
  import opened BreadthFirst
  import opened Subtrees
  import opened ObjectStore

  type Names = Id -> Id

  /** What a renaming must be on the subtree: injective and valid. */
  ghost predicate Renames(w: World, top: Id, names: Names) {
    && (forall x | Descends(w.byChild, x, top) :: ValidId(names(x)))
    && (forall x, y | Descends(w.byChild, x, top) && Descends(w.byChild, y, top) && x != y :: names(x) != names(y))
  }

  /** An object under its new id, with nothing else changed: revisions, state hash, sizes, own bytes. */
  function Renamed(o: ObjectView, id: Id): ObjectView { o.(id := id) }

  /** A relation of the source under new ids. */
  function RenamedRelation(w: World, names: Names, c: Id): Relation
    requires c in w.byChild
  {
    Relation(names(w.byChild[c].parent), names(c), w.byChild[c].locator)
  }

  /** The copied objects: the new root is `host`, every other one is its source renamed, and there are no others. */
  ghost predicate MirrorsObjects(w: World, top: Id, got: set<Id>, names: Names, host: ObjectView, v: World)
    requires forall x | x in got :: x in w.objects
  {
    && v.rootId == names(top) && names(top) in v.objects && v.objects[names(top)] == host
    && (forall x | x in got && x != top :: names(x) in v.objects && v.objects[names(x)] == Renamed(w.objects[x], names(x)))
    && (forall k | k in v.objects :: exists x | x in got :: names(x) == k)
  }

  predicate RelationCopied(w: World, names: Names, v: World, x: Id) {
    x in w.byChild && names(x) in v.byChild && v.byChild[names(x)] == RenamedRelation(w, names, x)
  }

  /** The copied relations: exactly the source's among the copied objects, renamed. */
  ghost predicate MirrorsRelations(w: World, top: Id, got: set<Id>, names: Names, v: World) {
    && (forall x | x in got && x != top :: RelationCopied(w, names, v, x))
    && (forall k | k in v.byChild :: exists x | x in got && x != top :: names(x) == k)
  }

  predicate UsesBase(w: World, x: Id, k: Key) { x in w.objects && w.objects[x].baseHash == Some(k) }

  predicate BaseCopied(w: World, v: World, x: Id) {
    x in w.objects && w.objects[x].baseHash.Some? && var k := w.objects[x].baseHash.value; k in w.bases && k in v.bases && v.bases[k] == w.bases[k]
  }

  /** The copied bases: those that copied objects use, and only those. */
  ghost predicate MirrorsBases(w: World, top: Id, got: set<Id>, v: World) {
    && (forall x | x in got && x != top :: BaseCopied(w, v, x))
    && (forall k | k in v.bases :: exists x | x in got && x != top :: UsesBase(w, x, k))
  }

  /** `v` is an isomorphic copy of the objects `got` of `w`, under `names`. */
  ghost predicate Mirrors(w: World, top: Id, got: set<Id>, names: Names, host: ObjectView, v: World) {
    && top in got && (forall x | x in got :: x in w.objects && Descends(w.byChild, x, top))
    && MirrorsObjects(w, top, got, names, host, v)
    && MirrorsRelations(w, top, got, names, v)
    && MirrorsBases(w, top, got, v)
  }

  /** Every copied object presents the bytes of its original. */
  lemma MirrorContents(hash: ContentHash, w: World, top: Id, got: set<Id>, names: Names, host: ObjectView, v: World, x: Id)
    requires Sound(hash, w) && Sound(hash, v) && Mirrors(w, top, got, names, host, v) && x in got && x != top
    requires Renames(w, top, names)
    ensures x in w.objects && !w.objects[x].hostRoot && names(x) in v.objects && !v.objects[names(x)].hostRoot
    ensures Contents(v, names(x)) == Contents(w, x)
  {
    hide Forested, MirrorsRelations, Hashed;
    assert v.objects[names(x)] == Renamed(w.objects[x], names(x));
    assert names(x) != v.rootId;
  }

  /**
   Field by field: a copied object carries the package, publisher and rules, the base, the sizes, the state and both revisions of its original,
   and hangs from the copy of its parent under the same locator.
   */
  lemma MirrorFields(w: World, top: Id, got: set<Id>, names: Names, host: ObjectView, v: World, x: Id)
    requires Mirrors(w, top, got, names, host, v) && x in got && x != top
    ensures x in w.objects && names(x) in v.objects && x in w.byChild && names(x) in v.byChild
    ensures var o, n := w.objects[x], v.objects[names(x)];
      n.id == names(x) && n.hostRoot == o.hostRoot && n.meta == o.meta && n.baseHash == o.baseHash && n.baseSize == o.baseSize && n.virtualSize == o.virtualSize
      && n.stateRevision == o.stateRevision && n.relationshipRevision == o.relationshipRevision && n.stateHash == o.stateHash && n.stateHead == o.stateHead
      && n.own == o.own
    ensures var r, q := w.byChild[x], v.byChild[names(x)]; q.child == names(x) && q.parent == names(r.parent) && q.locator == r.locator
  {
    hide MirrorsBases, Descends;
    assert RelationCopied(w, names, v, x);
    assert v.objects[names(x)] == Renamed(w.objects[x], names(x));
  }

  /** Containment is the same: one copied object is the parent of another exactly when their originals are. */
  lemma MirrorChildren(w: World, top: Id, got: set<Id>, names: Names, host: ObjectView, v: World, c: Id, p: Id)
    requires Mirrors(w, top, got, names, host, v) && c in got && p in got && c != top
    requires Renames(w, top, names)
    ensures IsChild(v, names(c), names(p)) <==> IsChild(w, c, p)
  {
    hide MirrorsObjects, MirrorsBases, Descends;
    assert RelationCopied(w, names, v, c);
    ParentDescends(w.byChild, c, top);
  }

  lemma ParentDescends(byChild: map<Id, Relation>, c: Id, top: Id)
    requires Descends(byChild, c, top) && c != top
    ensures c in byChild && Descends(byChild, byChild[c].parent, top)
  {
    var n: nat :| ReachesUp(byChild, c, top, n);
    assert ReachesUp(byChild, byChild[c].parent, top, n - 1);
  }

  // ----- one step of the copy

  lemma MirrorStart(w: World, top: Id, names: Names, host: ObjectView)
    requires top in w.objects && host.id == names(top)
    ensures Mirrors(w, top, {top}, names, host, HostWorld(host))
  {
    hide Descends;
    Itself(w.byChild, top);
  }

  /** A child that is not copied yet can be imported: its new id is free and its bytes match its base hash. */
  lemma StepIsNew(hash: ContentHash, w: World, top: Id, got: set<Id>, names: Names, host: ObjectView, v: World, c: Id)
    requires Sound(hash, w) && Mirrors(w, top, got, names, host, v) && Renames(w, top, names)
    requires c in w.byChild && w.byChild[c].parent in got && c !in got && c in w.objects && Descends(w.byChild, c, top)
    ensures ValidId(names(c)) && names(c) !in v.objects && names(w.byChild[c].parent) in v.objects && c != w.rootId
    ensures !w.objects[c].hostRoot
  {
    hide MirrorsBases, MirrorsRelations, Descends, Hashed, Spaced, Acyclic, RelationKey, ValidId;
    forall x | x in got ensures names(x) != names(c) {
    }
  }

  /** What is imported for a child: its own view under the new id. */
  lemma ImportedIsRenamed(hash: ContentHash, w: World, c: Id, o: Object, id: Id)
    requires Sound(hash, w) && c in w.objects && !w.objects[c].hostRoot && id == o.id
    requires w.objects[c] == ObjectView(c, o.hostRoot, o.meta, o.baseHash, o.baseSize, o.virtualSize, o.stateRevision, o.relationshipRevision,
      o.stateHash, o.stateHead, w.objects[c].own)
    ensures var source := Contents(w, c);
      o.baseSize <= |source| && source[..o.baseSize] == w.bases[w.objects[c].baseHash.value] && o.baseHash == Some(hash(source[..o.baseSize]))
      && ImportedView(hash, o, source) == Renamed(w.objects[c], id)
  {
    hide Forested;
    var source := Contents(w, c);
    assert source[..o.baseSize] == w.bases[w.objects[c].baseHash.value];
    assert source[o.baseSize..] == w.objects[c].own;
  }

  lemma StepObjects(w: World, top: Id, got: set<Id>, names: Names, host: ObjectView, v: World, u: World, c: Id)
    requires (forall x | x in got :: x in w.objects) && MirrorsObjects(w, top, got, names, host, v)
    requires c !in got && c != top && c in w.objects && names(c) !in v.objects
    requires u.rootId == v.rootId && u.objects == v.objects[names(c) := Renamed(w.objects[c], names(c))]
    ensures MirrorsObjects(w, top, got + {c}, names, host, u)
  {
    forall k | k in u.objects ensures exists x | x in got + {c} :: names(x) == k {
      if k == names(c) {
        assert c in got + {c};
      } else {
        var x :| x in got && names(x) == k;
        assert x in got + {c};
      }
    }
  }

  lemma StepRelations(w: World, top: Id, got: set<Id>, names: Names, v: World, u: World, c: Id)
    requires MirrorsRelations(w, top, got, names, v) && (forall x | x in got :: names(x) in v.objects)
    requires c !in got && c != top && names(c) !in v.objects && c in w.byChild
    requires u.byChild == v.byChild[names(c) := RenamedRelation(w, names, c)]
    ensures MirrorsRelations(w, top, got + {c}, names, u)
  {
    forall k | k in u.byChild ensures exists x | x in got + {c} && x != top :: names(x) == k {
      if k == names(c) {
        assert c in got + {c};
      } else {
        var x :| x in got && x != top && names(x) == k;
        assert x in got + {c};
      }
    }
  }

  lemma StepBases(hash: ContentHash, w: World, top: Id, got: set<Id>, v: World, u: World, c: Id, base: bytes)
    requires Hashed(hash, v) && Ideal(hash) && MirrorsBases(w, top, got, v) && c in w.objects && c != top && c !in got
    requires w.objects[c].baseHash == Some(hash(base)) && hash(base) in w.bases && w.bases[hash(base)] == base
    requires u.bases == AddBase(v, hash, base).bases
    ensures MirrorsBases(w, top, got + {c}, u)
  {
    hide UsesBase, BaseCopied, AddBase;
    AddedBase(hash, v, base);
    NowCopied(w, u, c, hash(base));
    forall x | x in got && x != top ensures BaseCopied(w, u, x) {
      StillCopied(w, v, u, x);
    }
    forall k | k in u.bases ensures exists x | x in got + {c} && x != top :: UsesBase(w, x, k) {
      if k == hash(base) {
        assert c in got + {c};
      } else {
        var x :| x in got && x != top && UsesBase(w, x, k);
        assert x in got + {c};
      }
    }
  }

  lemma AddedBase(hash: ContentHash, v: World, base: bytes)
    requires Hashed(hash, v) && Ideal(hash)
    ensures var u := AddBase(v, hash, base);
      hash(base) in u.bases && u.bases[hash(base)] == base && (forall k | k in v.bases :: k in u.bases && u.bases[k] == v.bases[k])
      && forall k | k in u.bases :: k == hash(base) || k in v.bases
  {
  }

  lemma NowCopied(w: World, u: World, c: Id, k: Key)
    requires c in w.objects && w.objects[c].baseHash == Some(k) && k in w.bases && k in u.bases && u.bases[k] == w.bases[k]
    ensures UsesBase(w, c, k) && BaseCopied(w, u, c)
  {
  }

  lemma StillCopied(w: World, v: World, u: World, x: Id)
    requires BaseCopied(w, v, x) && forall k | k in v.bases :: k in u.bases && u.bases[k] == v.bases[k]
    ensures BaseCopied(w, u, x)
  {
  }

  lemma StepMirrors(hash: ContentHash, w: World, top: Id, got: set<Id>, names: Names, host: ObjectView, v: World, c: Id)
    requires Sound(hash, w) && Sound(hash, v) && Ideal(hash) && Mirrors(w, top, got, names, host, v) && Renames(w, top, names)
    requires c in w.byChild && w.byChild[c].parent in got && c !in got && c in w.objects && Descends(w.byChild, c, top) && !w.objects[c].hostRoot
    ensures Mirrors(w, top, got + {c}, names, host,
      Imported(v, hash, w.bases[w.objects[c].baseHash.value], Renamed(w.objects[c], names(c)), RenamedRelation(w, names, c)))
  {
    hide Sound, MirrorsObjects, MirrorsRelations, MirrorsBases, Descends, ValidId, Ideal, AddBase, Hashed, Spaced;
    StepIsNew(hash, w, top, got, names, host, v, c);
    BaseOf(hash, w, c);
    var base := w.bases[w.objects[c].baseHash.value];
    var u := Imported(v, hash, base, Renamed(w.objects[c], names(c)), RenamedRelation(w, names, c));
    AddBaseKeepsRest(v, hash, base);
    StepObjects(w, top, got, names, host, v, u, c);
    MirroredNames(w, top, got, names, host, v);
    StepRelations(w, top, got, names, v, u, c);
    SoundHashes(hash, v);
    StepBases(hash, w, top, got, v, u, c, base);
  }

  lemma MirroredNames(w: World, top: Id, got: set<Id>, names: Names, host: ObjectView, v: World)
    requires Mirrors(w, top, got, names, host, v)
    ensures forall x | x in got :: names(x) in v.objects
  {
    hide MirrorsBases, MirrorsRelations;
  }

  lemma AddBaseKeepsRest(w: World, hash: ContentHash, base: bytes)
    ensures var v := AddBase(w, hash, base); v.rootId == w.rootId && v.objects == w.objects && v.byChild == w.byChild && v.byParent == w.byParent
  {
  }

  lemma SoundHashes(hash: ContentHash, w: World)
    requires Sound(hash, w)
    ensures Hashed(hash, w)
  {
  }

  lemma BaseOf(hash: ContentHash, w: World, c: Id)
    requires Sound(hash, w) && c in w.objects && !w.objects[c].hostRoot
    ensures Spaced(w) && w.objects[c].baseHash.Some? && w.objects[c].baseHash.value in w.bases
    ensures w.objects[c].baseHash == Some(hash(w.bases[w.objects[c].baseHash.value]))
  {
    hide Forested;
  }

  // ----- the copying loops

  /** Two distinct stores over distinct arenas, hashing alike. */
  ghost predicate Pair(source: WurstObjectStore, target: WurstObjectStore)
    reads source, source.arena, target, target.arena
  {
    && source != target && source.arena != target.arena && source.hash == target.hash && Ideal(source.hash)
    && source.Valid() && source.root.Some? && RootOk(source.arena.pages, source.root.value)
    && target.Valid() && (target.root.Some? ==> RootOk(target.arena.pages, target.root.value))
  }

  ghost function Members(s: seq<Id>): set<Id> { set x | x in s }

  lemma ChildExists(w: World, r: Relation)
    requires Consistent(w) && r.child in w.byChild && w.byChild[r.child] == r
    ensures r.child in w.objects && r.parent in w.objects && w.objects[r.child].id == r.child
  {
    hide RelationKey, ValidId;
  }

  lemma DescendsChild(byChild: map<Id, Relation>, c: Id, top: Id)
    requires c in byChild && Descends(byChild, byChild[c].parent, top)
    ensures Descends(byChild, c, top)
  {
    var n: nat :| ReachesUp(byChild, byChild[c].parent, top, n);
    assert ReachesUp(byChild, c, top, n + 1);
  }

  lemma NamesOfChild(w: World, top: Id, names: Names, r: Relation)
    requires Renames(w, top, names) && Descends(w.byChild, r.parent, top) && Descends(w.byChild, r.child, top)
    ensures ValidId(names(r.parent)) && ValidId(names(r.child))
  {
  }

  lemma ObjectIsSmall(pages: Pages, o: Object)
    requires ObjectOk(pages, o) && !o.hostRoot
    ensures o.virtualSize <= MAX_SAFE_INTEGER
  {
    hide Tiled, WfRoot, EntriesAt, DataOf;
  }

  /** Imports one object, given its record and its bytes. */
  method ImportCopy(target: WurstObjectStore, ghost w: World, ghost top: Id, ghost got: set<Id>, names: Names, ghost host: ObjectView,
      relation: Relation, o: Object, bytes: bytes)
    requires target.Valid() && target.root.Some? && Ideal(target.hash) && Sound(target.hash, w)
    requires Mirrors(w, top, got, names, host, target.Published()) && Renames(w, top, names)
    requires relation.child in w.byChild && w.byChild[relation.child] == relation && relation.parent in got && relation.child !in got
    requires Descends(w.byChild, relation.parent, top) && relation.child in w.objects && !w.objects[relation.child].hostRoot
    requires w.objects[relation.child] == ObjectView(relation.child, o.hostRoot, o.meta, o.baseHash, o.baseSize, o.virtualSize, o.stateRevision,
      o.relationshipRevision, o.stateHash, o.stateHead, w.objects[relation.child].own)
    requires Spaced(w) && bytes == Contents(w, relation.child) && |bytes| <= MAX_SAFE_INTEGER
    modifies target`root, target`commitOffset, target.arena
    ensures target.Valid() && target.root.Some? && RootOk(target.arena.pages, target.root.value)
    ensures Mirrors(w, top, got + {relation.child}, names, host, target.Published())
  {
    hide RootOk, View, Sound, TxOk, Ideal, Descends, MirrorsObjects, MirrorsRelations, MirrorsBases, ValidId, RelationKey, Spaced;
    hide WurstObjectStore.Valid, Imported, ImportedView, Renamed, Renames;
    target.StoreSound();
    DescendsChild(w.byChild, relation.child, top);
    NamesOfChild(w, top, names, relation);
    StepIsNew(target.hash, w, top, got, names, host, target.Published(), relation.child);
    var copy := o.(id := names(relation.child));
    ImportedIsRenamed(target.hash, w, relation.child, copy, names(relation.child));
    StepMirrors(target.hash, w, top, got, names, host, target.Published(), relation.child);
    var imported := target.ImportObjectSnapshot(names(relation.parent), relation.locator, bytes, copy);
    target.StoreSound();
  }

  /** Reads one child out of the source and imports it under its parent's copy. */
  method CopyChild(source: WurstObjectStore, target: WurstObjectStore, ghost w: World, ghost top: Id, ghost got: set<Id>, names: Names,
      ghost host: ObjectView, relation: Relation)
    requires Pair(source, target) && target.root.Some? && source.Published() == w
    requires Mirrors(w, top, got, names, host, target.Published()) && Renames(w, top, names)
    requires ValidId(relation.child) && relation.child in w.byChild && w.byChild[relation.child] == relation && relation.parent in got
    requires relation.child !in got && Descends(w.byChild, relation.parent, top)
    modifies target`root, target`commitOffset, target.arena
    ensures Pair(source, target) && target.root.Some? && source.Published() == w
    ensures Mirrors(w, top, got + {relation.child}, names, host, target.Published())
  {
    hide RootOk, View, Sound, TxOk, Ideal, ObjectOk, ViewOf, Descends, Mirrors, ValidId, RelationKey, Renames;
    hide WurstObjectStore.Valid, Consistent, Acyclic, Spaced, Contents;
    source.StoreSound();
    var c := relation.child;
    ChildExists(w, relation);
    ChildIsNoHost(source.hash, w, relation);
    BaseOf(source.hash, w, c);
    ContentsLength(w, c);
    var child := source.FindObject(source.root.value, c);
    var o := child.value;
    ViewFields(source.arena.pages, o);
    ObjectIsSmall(source.arena.pages, o);
    var bytes := source.ReadObjectBytes(c, 0, o.virtualSize);
    assert Contents(w, c)[0..0 + o.virtualSize] == Contents(w, c);
    ImportCopy(target, w, top, got, names, host, relation, o, bytes.value);
  }

  lemma ChildIsNoHost(hash: ContentHash, w: World, r: Relation)
    requires Sound(hash, w) && r.child in w.byChild && r.child in w.objects
    ensures !w.objects[r.child].hostRoot
  {
    hide Acyclic, Spaced, Hashed, RelationKey, ValidId;
  }

  lemma ListedChild(w: World, children: seq<Relation>, p: Id, j: nat)
    requires Consistent(w) && ListsChildren(w, children, p) && j < |children|
    ensures var r := children[j];
      r.child in w.byChild && w.byChild[r.child] == r && r.parent == p && ValidId(r.child) && IsChild(w, r.child, p)
      && forall i | 0 <= i < j :: children[i].child != r.child
  {
    hide RelationKey, ValidId;
  }

  /** All children of one parent, in listing order. */
  method CopyChildren(source: WurstObjectStore, target: WurstObjectStore, ghost w: World, ghost top: Id, ghost got: set<Id>, names: Names,
      ghost host: ObjectView, parent: Id, children: seq<Relation>) returns (more: seq<Id>)
    requires Pair(source, target) && target.root.Some? && source.Published() == w
    requires Mirrors(w, top, got, names, host, target.Published()) && Renames(w, top, names)
    requires ListsChildren(w, children, parent) && parent in got && Descends(w.byChild, parent, top)
    requires forall i | 0 <= i < |children| :: children[i].child !in got
    modifies target`root, target`commitOffset, target.arena
    ensures Pair(source, target) && target.root.Some? && source.Published() == w
    ensures |more| == |children| && forall i | 0 <= i < |more| :: more[i] == children[i].child
    ensures Mirrors(w, top, got + Members(more), names, host, target.Published())
  {
    hide RootOk, View, Sound, TxOk, Ideal, Descends, Mirrors, ValidId, RelationKey, Renames, WurstObjectStore.Valid, Consistent, Acyclic, ListsChildren;
    source.StoreSound();
    more := [];
    var i := 0;
    assert got + Members(more) == got;
    while i < |children|
      invariant i == |more| <= |children| && forall k | 0 <= k < i :: more[k] == children[k].child
      invariant Pair(source, target) && target.root.Some? && source.Published() == w
      invariant Mirrors(w, top, got + Members(more), names, host, target.Published())
    {
      ListedChild(w, children, parent, i);
      CopyChild(source, target, w, top, got + Members(more), names, host, children[i]);
      assert got + Members(more) + {children[i].child} == got + Members(more + [children[i].child]);
      more := more + [children[i].child];
      i := i + 1;
    }
  }

  /** The children of the head of the queue are neither visited nor queued, and they continue the search. */
  lemma QueueStep(w: World, top: Id, ids: seq<Id>, queue: seq<Id>, children: seq<Relation>, more: seq<Id>)
    requires Forested(w) && top in w.objects && queue != [] && BfsInv(Sub(w, top), ids, queue)
    requires Descends(w.byChild, queue[0], top) && ListsChildren(w, children, queue[0])
    requires |more| == |children| && forall i | 0 <= i < |more| :: more[i] == children[i].child
    ensures queue[0] !in ids && queue[0] in w.objects
    ensures BfsInv(Sub(w, top), ids + [queue[0]], queue[1..] + more)
    ensures forall i | 0 <= i < |more| :: more[i] !in ids && more[i] !in queue && Descends(w.byChild, more[i], top)
  {
    hide Acyclic, RelationKey, ValidId, Consistent, Descends, BfsInv, ListsChildren;
    var u := Sub(w, top);
    SubForested(w, top);
    SubChildren(w, top, children, queue[0]);
    HeadIsNew(u, ids, queue);
    forall i | 0 <= i < |more| ensures more[i] !in ids && more[i] !in queue && Descends(w.byChild, more[i], top) {
      ListedChild(u, children, queue[0], i);
      ListedChild(w, children, queue[0], i);
      ChildIsNew(u, ids, queue, more[i]);
      DescendsChild(w.byChild, more[i], top);
    }
    ListedIds(u, children, queue[0], more);
    BfsStep(u, ids, queue, more);
  }

  lemma ListedIds(w: World, children: seq<Relation>, p: Id, more: seq<Id>)
    requires ListsChildren(w, children, p) && |more| == |children| && forall i | 0 <= i < |more| :: more[i] == children[i].child
    ensures Distinct(more) && forall c :: c in more <==> IsChild(w, c, p)
  {
    forall c ensures c in more <==> IsChild(w, c, p) {
      if IsChild(w, c, p) {
        var i :| 0 <= i < |children| && children[i].child == c;
        assert more[i] == c;
      }
    }
  }

  /** The breadth-first copy below `top`: afterwards the target mirrors exactly the subtree. */
  method CopyDescendants(source: WurstObjectStore, target: WurstObjectStore, top: Id, names: Names, ghost host: ObjectView) returns (ghost live: set<Id>)
    requires Pair(source, target) && target.root.Some? && top in source.Published().objects && Renames(source.Published(), top, names)
    requires Mirrors(source.Published(), top, {top}, names, host, target.Published())
    modifies target`root, target`commitOffset, target.arena
    ensures Pair(source, target) && target.root.Some? && source.Published() == old(source.Published())
    ensures forall x :: x in live <==> Descends(source.Published().byChild, x, top)
    ensures Mirrors(source.Published(), top, live, names, host, target.Published())
  {
    hide RootOk, View, Sound, TxOk, Ideal, Descends, Mirrors, ValidId, RelationKey, Renames, WurstObjectStore.Valid, Consistent, Acyclic, ListsChildren, BfsInv;
    source.StoreSound();
    ghost var w := source.Published();
    var queue := [top];
    ghost var ids: seq<Id> := [];
    SubtreeStart(w, top);
    assert Members([]) == {};
    ghost var left := w.objects.Keys;
    assert Members([] + [top]) == {top};
    while queue != []
      invariant Pair(source, target) && target.root.Some? && source.Published() == w
      invariant BfsInv(Sub(w, top), ids, queue) && forall x | x in ids || x in queue :: Descends(w.byChild, x, top)
      invariant Mirrors(w, top, Members(ids + queue), names, host, target.Published())
      invariant left == w.objects.Keys - Members(ids)
      decreases left
    {
      var parent := queue[0];
      HeadValid(w, top, ids, queue);
      var children := source.DirectChildren(source.root.value, parent);
      ghost var expected := seq(|children|, i requires 0 <= i < |children| => children[i].child);
      QueueStep(w, top, ids, queue, children, expected);
      forall i | 0 <= i < |children| ensures children[i].child !in Members(ids + queue) {
        assert expected[i] == children[i].child;
      }
      var more := CopyChildren(source, target, w, top, Members(ids + queue), names, host, parent, children);
      assert more == expected;
      MembersStep(ids, queue, more);
      ids, queue, left := ids + [parent], queue[1..] + more, left - {parent};
    }
    SubtreeDone(w, top, ids);
    assert ids + queue == ids;
    live := Members(ids);
  }

  lemma MembersStep(ids: seq<Id>, queue: seq<Id>, more: seq<Id>)
    requires queue != []
    ensures Members(ids + queue) + Members(more) == Members(ids + [queue[0]] + (queue[1..] + more))
    ensures Members(ids + [queue[0]]) == Members(ids) + {queue[0]}
  {
    assert queue == [queue[0]] + queue[1..];
  }

  lemma SubtreeStart(w: World, top: Id)
    requires Forested(w) && top in w.objects
    ensures BfsInv(Sub(w, top), [], [top]) && Descends(w.byChild, top, top)
  {
    hide Acyclic, RelationKey, ValidId, Consistent;
    Itself(w.byChild, top);
  }

  lemma HeadValid(w: World, top: Id, ids: seq<Id>, queue: seq<Id>)
    requires Forested(w) && top in w.objects && queue != [] && BfsInv(Sub(w, top), ids, queue)
    ensures ValidId(queue[0]) && queue[0] in queue && queue[0] in ids + queue && queue[0] in w.objects
  {
    hide Acyclic, RelationKey, ValidId, Consistent, BfsInv;
    SubForested(w, top);
    HeadIsNew(Sub(w, top), ids, queue);
  }

  // ----- what a finished copy means

  /** Depth is the same on both sides. */
  lemma {:induction false} MirrorDeep(w: World, top: Id, live: set<Id>, names: Names, host: ObjectView, v: World, x: Id, n: nat)
    requires Mirrors(w, top, live, names, host, v) && Renames(w, top, names) && x in live && (forall y :: y in live <==> Descends(w.byChild, y, top))
    requires Acyclic(w.byChild) && names(top) !in v.byChild
    ensures Deep(v.byChild, names(x), names(top), n) <==> Deep(w.byChild, x, top, n)
    decreases n
  {
    hide MirrorsObjects, MirrorsBases, Descends, Acyclic;
    if n > 0 {
      if x == top {
        TopNotBelowItself(w.byChild, top, n);
      } else {
        ParentDescends(w.byChild, x, top);
        assert RelationCopied(w, names, v, x);
        MirrorDeep(w, top, live, names, host, v, w.byChild[x].parent, n - 1);
      }
    }
  }

  lemma TopNotBelowItself(byChild: map<Id, Relation>, top: Id, n: nat)
    requires Acyclic(byChild) && n > 0
    ensures !Deep(byChild, top, top, n)
  {
    hide Acyclic;
    if Deep(byChild, top, top, n) {
      NotBelowChild(byChild, top);
      DeepReaches(byChild, byChild[top].parent, top, n - 1);
    }
  }

  /** The copy is exactly as deep as the subtree. */
  lemma MirrorNoDeeper(w: World, top: Id, live: set<Id>, names: Names, host: ObjectView, v: World, n: nat)
    requires Mirrors(w, top, live, names, host, v) && Renames(w, top, names) && (forall y :: y in live <==> Descends(w.byChild, y, top))
    requires Acyclic(w.byChild) && names(top) !in v.byChild
    ensures NoDeeper(v.byChild, names(top), n) <==> NoDeeper(w.byChild, top, n)
  {
    hide MirrorsObjects, MirrorsBases, Acyclic, RelationCopied;
    if NoDeeper(v.byChild, names(top), n) {
      forall x, k: nat | Deep(w.byChild, x, top, k) ensures k <= n {
        DeepReaches(w.byChild, x, top, k);
        MirrorDeep(w, top, live, names, host, v, x, k);
      }
    }
    if NoDeeper(w.byChild, top, n) {
      forall y, k: nat | Deep(v.byChild, y, names(top), k) ensures k <= n {
        if k > 0 {
          var x :| x in live && x != top && names(x) == y;
          MirrorDeep(w, top, live, names, host, v, x, k);
        }
      }
    }
  }

  /** With unchanged names the objects are the live ones of the source, each as it was. */
  lemma SameObjects(w: World, top: Id, live: set<Id>, names: Names, host: ObjectView, v: World)
    requires Mirrors(w, top, live, names, host, v) && forall x | x in live :: names(x) == x
    ensures v.objects.Keys == live && v.objects[top] == host
    ensures forall x | x in live && x != top :: x in w.objects && v.objects[x] == w.objects[x].(id := x)
  {
    hide MirrorsBases, MirrorsRelations, Descends;
    forall x | x in live ensures x in v.objects {
      assert names(x) in v.objects;
    }
    forall k | k in v.objects ensures k in live {
      var x :| x in live && names(x) == k;
    }
  }

  /** With unchanged names the relations are those of the source among live objects. */
  lemma SameRelations(w: World, top: Id, live: set<Id>, names: Names, host: ObjectView, v: World)
    requires Mirrors(w, top, live, names, host, v) && (forall x | x in live :: names(x) == x) && forall x | Descends(w.byChild, x, top) :: x in live
    ensures v.byChild.Keys == live - {top}
    ensures forall x | x in live && x != top :: x in w.byChild && x in v.byChild && v.byChild[x] == w.byChild[x].(child := x)
  {
    hide MirrorsBases, MirrorsObjects, Descends;
    forall x | x in live && x != top
      ensures x in w.byChild && x in v.byChild && v.byChild[x] == w.byChild[x].(child := x)
    {
      assert RelationCopied(w, names, v, x);
      ParentDescends(w.byChild, x, top);
    }
    forall k | k in v.byChild ensures k in live - {top} {
      var x :| x in live && x != top && names(x) == k;
    }
  }

  // ----- the two operations

  /** The live objects as they were, on a host with its own bytes cut off, a new size and a new state head. */
  ghost predicate LiveCopied(w: World, v: World, live: set<Id>, targetSize: nat, head: Option<nat>) {
    w.rootId in w.objects && (forall x :: x in live <==> Descends(w.byChild, x, w.rootId))
    && Mirrors(w, w.rootId, live, x => x, w.objects[w.rootId].(virtualSize := targetSize, stateHead := head, own := []), v)
  }

  /**
   `copyLiveWurstObjectsForCompaction`: the host object keeps everything but its physical size and state head, every reachable
   object keeps its id, and the result is refused exactly when it is deeper than the target allows.
   */
  method CopyLiveObjects(source: WurstObjectStore, target: WurstObjectStore, targetSize: nat, head: Option<nat>) returns (r: Outcome<Id>, ghost live: set<Id>)
    requires Pair(source, target) && target.root.None?
    modifies target`root, target`commitOffset, target.arena
    ensures Pair(source, target) && target.root.Some? && source.Published() == old(source.Published())
    ensures var w, v := source.Published(), target.Published();
      LiveCopied(w, v, live, targetSize, head)
      && r == if NoDeeper(w.byChild, w.rootId, target.maxDepth) then Ok(w.rootId) else Fail(Invalid)
  {
    hide RootOk, View, Sound, TxOk, Ideal, Descends, Mirrors, ValidId, RelationKey, WurstObjectStore.Valid, Consistent, Acyclic, ObjectOk, NoDeeper;
    source.StoreSound();
    ghost var w := source.Published();
    var top := source.root.value.rootId;
    var found := source.FindObject(source.root.value, top);
    ViewFields(source.arena.pages, found.value);
    HostFacts(source.hash, w, source.arena.pages, found.value);
    var host := found.value.(virtualSize := targetSize, stateHead := head, extentRoot := None);
    target.InitializeHostRoot(host);
    target.StoreSound();
    IdentityRenames(w, top);
    MirrorStart(w, top, x => x, HostView(host));
    live := CopyDescendants(source, target, top, x => x, HostView(host));
    target.StoreSound();
    var bad := target.VerifyGraph();
    CopyFacts(target.hash, w, top, live, x => x, HostView(host), target.Published());
    MirrorNoDeeper(w, top, live, x => x, HostView(host), target.Published(), target.maxDepth);
    r := if bad.Some? then Fail(Invalid) else Ok(top);
  }

  lemma HostFacts(hash: ContentHash, w: World, pages: Pages, o: Object)
    requires Sound(hash, w) && w.rootId in w.objects && ObjectOk(pages, o) && ViewOf(pages, o) == w.objects[w.rootId]
    ensures o.hostRoot && ValidId(o.id) && o.id == w.rootId && o.baseSize <= MAX_SAFE_INTEGER
  {
    hide Tiled, WfRoot, EntriesAt, DataOf, Acyclic, Spaced, Hashed, ValidId;
  }

  lemma IdentityRenames(w: World, top: Id)
    requires Consistent(w) && top in w.objects
    ensures Renames(w, top, x => x)
  {
    hide ValidId, RelationKey, Descends;
    forall x | Descends(w.byChild, x, top) ensures ValidId(x) {
      DescendantExists(w, x, top);
    }
  }

  lemma CopyFacts(hash: ContentHash, w: World, top: Id, live: set<Id>, names: Names, host: ObjectView, v: World)
    requires Sound(hash, v) && Mirrors(w, top, live, names, host, v)
    ensures v.rootId == names(top) && names(top) !in v.byChild
  {
    hide MirrorsRelations, MirrorsBases, Acyclic, Spaced, Hashed, RelationKey, ValidId, Descends;
  }

  /** Compaction keeps the live graph as it was: the same ids, records, relations and contents, and nothing unreachable. */
  lemma CompactionKeepsGraph(hash: ContentHash, w: World, live: set<Id>, host: ObjectView, v: World)
    requires Sound(hash, w) && Sound(hash, v) && (forall x :: x in live <==> Descends(w.byChild, x, w.rootId))
    requires Mirrors(w, w.rootId, live, x => x, host, v)
    ensures v.rootId == w.rootId && v.objects.Keys == live && v.byChild.Keys == live - {w.rootId}
    ensures forall x | x in live && x != w.rootId ::
      x in w.objects && v.objects[x] == w.objects[x] && x in w.byChild && v.byChild[x] == w.byChild[x]
      && !w.objects[x].hostRoot && !v.objects[x].hostRoot && Contents(v, x) == Contents(w, x)
  {
    hide Mirrors, Sound, Descends, Spaced, Contents;
    IdentityCopy(hash, w, live, x => x, host, v);
  }

  lemma IdentityCopy(hash: ContentHash, w: World, live: set<Id>, names: Names, host: ObjectView, v: World)
    requires Sound(hash, w) && Sound(hash, v) && (forall x :: x in live <==> Descends(w.byChild, x, w.rootId))
    requires Mirrors(w, w.rootId, live, names, host, v) && forall x :: names(x) == x
    ensures Spaced(w) && Spaced(v) && v.rootId == w.rootId && v.objects.Keys == live && v.byChild.Keys == live - {w.rootId}
    ensures forall x | x in live && x != w.rootId ::
      x in w.objects && v.objects[x] == w.objects[x] && x in w.byChild && v.byChild[x] == w.byChild[x]
      && !w.objects[x].hostRoot && !v.objects[x].hostRoot && Contents(v, x) == Contents(w, x)
  {
    hide Mirrors, Sound, Descends, Spaced, Contents;
    SameObjects(w, w.rootId, live, names, host, v);
    SameRelations(w, w.rootId, live, names, host, v);
    SoundSpaced(hash, w);
    SoundSpaced(hash, v);
    CopyFacts(hash, w, w.rootId, live, names, host, v);
    assert Renames(w, w.rootId, names) by { SoundForest(hash, w); IdentityNames(w, w.rootId, names); }
    forall x | x in live && x != w.rootId
      ensures x in w.objects && v.objects[x] == w.objects[x] && x in w.byChild && v.byChild[x] == w.byChild[x]
      ensures !w.objects[x].hostRoot && !v.objects[x].hostRoot && Contents(v, x) == Contents(w, x)
    {
      MirrorContents(hash, w, w.rootId, live, names, host, v, x);
      SoundIds(hash, w, x);
      SoundForest(hash, w);
      ChildOf(w, x);
    }
  }

  lemma ChildOf(w: World, x: Id)
    requires Consistent(w) && x in w.byChild
    ensures w.byChild[x].child == x
  {
    hide RelationKey, ValidId;
  }

  lemma IdentityNames(w: World, top: Id, names: Names)
    requires Consistent(w) && top in w.objects && forall x :: names(x) == x
    ensures Renames(w, top, names)
  {
    hide ValidId, RelationKey, Descends;
    forall x | Descends(w.byChild, x, top) ensures ValidId(names(x)) {
      DescendantExists(w, x, top);
    }
  }

  /** Fresh random ids: the first `n` are valid and all different. */
  ghost predicate Fresh(uuid: int -> Id, n: nat) {
    (forall i | 0 <= i < n :: ValidId(uuid(i))) && forall i, j | 0 <= i < n && 0 <= j < n && i != j :: uuid(i) != uuid(j)
  }

  /** Ids of the length of a UUID. */
  function NumberedId(i: int): Id { if i < 0 then [] else Digits(i, 36) }

  lemma {:induction false} DigitsAreUnits(n: nat, width: nat)
    ensures forall i | 0 <= i < width :: 48 <= Digits(n, width)[i] <= 57
  {
    if width > 0 {
      DigitsAreUnits(n / 10, width - 1);
    }
  }

  /** There are that many of them: 36 digits alone give fresh ids for any store with up to 10^36 objects. */
  lemma FreshIdsExist(n: nat)
    requires n <= Pow10(36)
    ensures Fresh(NumberedId, n)
  {
    hide Digits, Pow10;
    forall i | 0 <= i < n ensures ValidId(NumberedId(i)) {
      DigitsAreUnits(i, 36);
    }
    forall i, j | 0 <= i < n && 0 <= j < n && i != j ensures NumberedId(i) != NumberedId(j) {
      DigitsOrder(i, j, 36);
    }
  }

  /** A list without repetitions is no longer than the set that it lies in. */
  lemma {:induction false} DistinctFits(list: seq<Id>, ids: set<Id>)
    requires Distinct(list) && forall x | x in list :: x in ids
    ensures |list| <= |ids|
  {
    if list != [] {
      var n := |list| - 1;
      assert list[n] in list;
      forall x | x in list[..n] ensures x in ids - {list[n]} {
        assert x in list;
      }
      DistinctFits(list[..n], ids - {list[n]});
    }
  }

  /** So there is a fresh id for every member of a subtree. */
  lemma EnoughIds(w: World, top: Id, live: seq<Id>, uuid: int -> Id)
    requires Consistent(w) && top in w.objects && Fresh(uuid, |w.objects|) && Distinct(live) && (forall x :: x in live <==> Descends(w.byChild, x, top))
    ensures Fresh(uuid, |live|)
  {
    hide ValidId, RelationKey, Descends, Consistent, Distinct;
    forall x | x in live ensures x in w.objects.Keys {
      DescendantExists(w, x, top);
    }
    DistinctFits(live, w.objects.Keys);
  }

  /** The id map of a materialization: new ids for a copy, the same ids for a move. */
  method NewIds(live: seq<Id>, copy: bool, uuid: int -> Id) returns (ids: map<Id, Id>)
    requires Distinct(live)
    ensures ids.Keys == Members(live)
    ensures forall i | 0 <= i < |live| :: ids[live[i]] == if copy then uuid(i) else live[i]
  {
    ids := map[];
    var i := 0;
    while i < |live|
      invariant i <= |live| && ids.Keys == Members(live[..i])
      invariant forall k | 0 <= k < i :: live[k] in ids && ids[live[k]] == if copy then uuid(k) else live[k]
    {
      ids := ids[live[i] := if copy then uuid(i) else live[i]];
      i := i + 1;
    }
    assert live[..i] == live;
  }

  function NameIn(ids: map<Id, Id>, x: Id): Id { if x in ids then ids[x] else x }

  lemma NewIdsRename(w: World, top: Id, live: seq<Id>, copy: bool, uuid: int -> Id, ids: map<Id, Id>)
    requires Consistent(w) && top in w.objects && (copy ==> Fresh(uuid, |live|)) && Distinct(live) && (forall x :: x in live <==> Descends(w.byChild, x, top))
    requires ids.Keys == Members(live) && forall i | 0 <= i < |live| :: ids[live[i]] == if copy then uuid(i) else live[i]
    ensures Renames(w, top, x => NameIn(ids, x))
  {
    hide ValidId, RelationKey, Descends, Consistent;
    forall x | Descends(w.byChild, x, top) ensures ValidId(NameIn(ids, x)) {
      DescendantExists(w, x, top);
      ObjectIds(w, x);
      var i :| 0 <= i < |live| && live[i] == x;
    }
    forall x, y | Descends(w.byChild, x, top) && Descends(w.byChild, y, top) && x != y ensures NameIn(ids, x) != NameIn(ids, y) {
      var i :| 0 <= i < |live| && live[i] == x;
      var j :| 0 <= j < |live| && live[j] == y;
    }
  }

  /** The root of a materialized subtree: the same object as a host, its containment edge gone. */
  function Detached(o: ObjectView, id: Id): ObjectView {
    o.(id := id, hostRoot := true, relationshipRevision := o.relationshipRevision + 1, own := [])
  }

  /** The writing half of `materializeSubtree`: the new host root, the breadth-first copy, the final check. */
  method Materialize(source: WurstObjectStore, target: WurstObjectStore, id: Id, o: Object, ids: map<Id, Id>)
    returns (r: Outcome<map<Id, Id>>, ghost live: set<Id>)
    requires Pair(source, target) && target.root.None? && id in source.Published().objects && Renames(source.Published(), id, x => NameIn(ids, x))
    requires ObjectOk(source.arena.pages, o) && ViewOf(source.arena.pages, o) == source.Published().objects[id] && !o.hostRoot
    modifies target`root, target`commitOffset, target.arena
    ensures Pair(source, target) && target.root.Some? && source.Published() == old(source.Published())
    ensures var w := source.Published();
      id in w.objects && (forall x :: x in live <==> Descends(w.byChild, x, id))
      && Mirrors(w, id, live, x => NameIn(ids, x), Detached(w.objects[id], NameIn(ids, id)), target.Published())
      && r == if NoDeeper(w.byChild, id, target.maxDepth) then Ok(ids) else Fail(Invalid)
  {
    hide RootOk, View, Sound, TxOk, Ideal, Descends, Mirrors, ValidId, RelationKey, WurstObjectStore.Valid, Consistent, Acyclic, ObjectOk, NoDeeper;
    source.StoreSound();
    ghost var w := source.Published();
    ViewFields(source.arena.pages, o);
    ObjectBase(source.arena.pages, o);
    var host := o.(id := NameIn(ids, id), hostRoot := true, relationshipRevision := o.relationshipRevision + 1, extentRoot := None);
    NameOfTop(w, id, x => NameIn(ids, x));
    target.InitializeHostRoot(host);
    target.StoreSound();
    MirrorStart(w, id, x => NameIn(ids, x), HostView(host));
    live := CopyDescendants(source, target, id, x => NameIn(ids, x), HostView(host));
    target.StoreSound();
    var bad := target.VerifyGraph();
    CopyFacts(target.hash, w, id, live, x => NameIn(ids, x), HostView(host), target.Published());
    MirrorNoDeeper(w, id, live, x => NameIn(ids, x), HostView(host), target.Published(), target.maxDepth);
    r := if bad.Some? then Fail(Invalid) else Ok(ids);
  }

  lemma ObjectBase(pages: Pages, o: Object)
    requires ObjectOk(pages, o)
    ensures o.baseSize <= MAX_SAFE_INTEGER
  {
    hide Tiled, WfRoot, EntriesAt, DataOf;
  }

  lemma NameOfTop(w: World, top: Id, names: Names)
    requires Renames(w, top, names)
    ensures ValidId(names(top))
  {
    hide ValidId, Descends;
    Itself(w.byChild, top);
  }

  /**
   `materializeSubtree`: a subtree becomes a store of its own, isomorphic under an injective id map that is the identity for a move.
   It is refused for an unknown or host object, and exactly when the subtree is deeper than the source or the target allows.
   */
  method MaterializeSubtree(source: WurstObjectStore, target: WurstObjectStore, id: Id, copy: bool, uuid: int -> Id)
    returns (r: Outcome<map<Id, Id>>, ghost live: set<Id>, ghost ids: map<Id, Id>)
    requires Pair(source, target) && target.root.None? && ValidId(id)
    requires copy ==> Fresh(uuid, |source.Published().objects|)
    modifies target`root, target`commitOffset, target.arena
    ensures Pair(source, target) && source.Published() == old(source.Published())
    ensures var w := source.Published();
      if id !in w.objects || w.objects[id].hostRoot || !NoDeeper(w.byChild, id, source.maxDepth) then r == Fail(Invalid) && target.root.None?
      else
        target.root.Some? && (forall x :: x in live <==> Descends(w.byChild, x, id))
        && ids.Keys == live && Renames(w, id, x => NameIn(ids, x)) && (!copy ==> forall x | x in live :: ids[x] == x)
        && Mirrors(w, id, live, x => NameIn(ids, x), Detached(w.objects[id], NameIn(ids, id)), target.Published())
        && r == if NoDeeper(w.byChild, id, target.maxDepth) then Ok(ids) else Fail(Invalid)
  {
    hide RootOk, View, Sound, TxOk, Ideal, Descends, Mirrors, ValidId, RelationKey, WurstObjectStore.Valid, Consistent, Acyclic, ObjectOk, NoDeeper, Renames,
      Fresh, Distinct;
    source.StoreSound();
    ghost var w := source.Published();
    live, ids := {}, map[];
    var found := source.FindObject(source.root.value, id);
    if found.None? {
      return Fail(Invalid), live, ids;
    }
    ViewFields(source.arena.pages, found.value);
    if found.value.hostRoot {
      return Fail(Invalid), live, ids;
    }
    NothingDistinct();
    var walked := source.Walk(id, 0, []);
    if walked.None? {
      return Fail(Invalid), live, ids;
    }
    var newIds := NewIds(walked.value, copy, uuid);
    ids := newIds;
    if copy {
      EnoughIds(w, id, walked.value, uuid);
    }
    NewIdsRename(w, id, walked.value, copy, uuid, newIds);
    r, live := Materialize(source, target, id, found.value, newIds);
    return r, live, ids;
  }

  lemma NothingDistinct()
    ensures Distinct([])
  {
  }
}
