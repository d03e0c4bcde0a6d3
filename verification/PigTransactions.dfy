/**
 Multi-operation transactions of PigFS: the chunks of written files are remembered by path until the end. When a later operation of the
 same transaction moves or removes a written path, what is published need not be what the operations say.
 */
module PigTransactions {
  import opened Bytes
  import opened Keys
  import opened PigTree
  import opened PigPages
  import opened PigBuild
  import opened PigMeaning

  datatype TxOp =
    | TxWrite(path: Path, mime: Key, size: nat, chunks: seq<Chunk>)
    | TxMkdir(path: Path)
    | TxRemove(path: Path, recursive: bool)
    | TxRename(path: Path, to: Path)

  function AddDirectory<C>(t: Tree<C>, path: Path, c: Change, none: C): Tree<C> {
    var u := EnsureParents(t, path, c, none);
    if path in u then u else u[path := NewDirectory(path, c, none)]
  }

  function Discard<C>(t: Tree<C>, path: Path, recursive: bool): PigTree.Edit<Tree<C>> {
    if path !in t then Unchanged
    else if Below(t, path) != {} && !recursive then Refused
    else Done(t - Below(t, path) - {path})
  }

  function After<C>(t: Tree<C>, edit: PigTree.Edit<Tree<C>>): Option<Tree<C>> {
    match edit
    case Done(u) => Some(u)
    case Unchanged => Some(t)
    case Refused => None
  }

  /** One operation on a tree, `put` being what a written file holds. Nothing when it throws. */
  ghost function Performed<C>(t: Tree<C>, op: TxOp, c: Change, none: C, put: seq<Chunk> -> C): Option<Tree<C>> {
    match op
    case TxWrite(path, mime, size, chunks) => Some(Write(t, path, c, none, size, mime, put(chunks)))
    case TxMkdir(path) => Some(AddDirectory(t, path, c, none))
    case TxRemove(path, recursive) => After(t, Discard(t, path, recursive))
    case TxRename(path, to) => After(t, PigTree.TxRename(t, path, to, c, none))
  }

  ghost function PerformedAll<C>(t: Tree<C>, ops: seq<TxOp>, c: Change, none: C, put: seq<Chunk> -> C): Option<Tree<C>> {
    if ops == [] then Some(t)
    else
      var before := PerformedAll(t, ops[..|ops| - 1], c, none, put);
      if before.None? then None else Performed(before.value, ops[|ops| - 1], c, none, put)
  }

  // ----- what the code keeps: entries whose map pages are still to come, and the chunks by path

  datatype TxState = TxState(entries: Inodes, changed: map<Path, seq<Chunk>>)

  function NoPages(chunks: seq<Chunk>): seq<MapPage> { [] }

  /** One operation as `commitTransaction` performs it. */
  ghost function TxStep(s: TxState, op: TxOp, c: Change): Option<TxState> {
    var entries := Performed(s.entries, op, c, [], NoPages);
    if entries.None? then None else Some(TxState(entries.value, if op.TxWrite? then s.changed[op.path := op.chunks] else s.changed))
  }

  ghost function TxRun(s: TxState, ops: seq<TxOp>, c: Change): Option<TxState> {
    if ops == [] then Some(s)
    else
      var before := TxRun(s, ops[..|ops| - 1], c);
      if before.None? then None else TxStep(before.value, ops[|ops| - 1], c)
  }

  // ----- what the caller asked for: the same operations on the contents

  function DataOf(recs: Recs, v: Vault, chunks: seq<Chunk>): bytes {
    var data := ChunkBytes(recs, v, chunks, 0);
    if data.Some? then data.value else []
  }

  function Data(recs: Recs, v: Vault): seq<Chunk> -> bytes { (chunks: seq<Chunk>) => DataOf(recs, v, chunks) }

  ghost function MeantRun(recs: Recs, v: Vault, files: Tree<bytes>, ops: seq<TxOp>, c: Change): Option<Tree<bytes>> {
    PerformedAll(files, ops, c, [], Data(recs, v))
  }

  predicate Complete(recs: Recs, v: Vault, op: TxOp) {
    op.TxWrite? ==> ChunkBytes(recs, v, op.chunks, 0).Some? && |ChunkBytes(recs, v, op.chunks, 0).value| == op.size
  }

  // ----- what is built

  function ChangedAt(changed: map<Path, seq<Chunk>>, p: Path): Option<seq<Chunk>> { if p in changed then Some(changed[p]) else None }

  /** The realm can be built from this state: every remembered path is an entry. */
  predicate Builds(s: TxState) { s.changed.Keys <= s.entries.Keys }

  /** What building the realm publishes: every remembered path gets its chunks, and whatever it is, the entry there is the one it ended up with. */
  predicate Publishes(recs: Recs, v: Vault, s: TxState, files: Tree<bytes>) {
    Builds(s) && s.entries.Keys == files.Keys
    && forall p | p in s.entries :: HoldsFile(recs, v, s.entries[p], ChangedAt(s.changed, p), files[p])
  }

  /** What an entry holds when the pages are written: pages it had, or chunks. */
  datatype Source = Stored(pages: seq<MapPage>) | Written(chunks: seq<Chunk>)

  /** The loop of `buildRealmWithCatalog` over the remembered paths. It fails at one that is no entry. */
  method Assemble(s: TxState) returns (r: Option<map<Path, Source>>)
    ensures r.Some? <==> Builds(s)
    ensures r.Some? ==> r.value.Keys == s.entries.Keys
    ensures r.Some? ==> forall p | p in s.entries :: r.value[p] == if p in s.changed then Written(s.changed[p]) else Stored(s.entries[p].content)
  {
    var held := map p | p in s.entries :: Stored(s.entries[p].content);
    var left := s.changed.Keys;
    while left != {}
      invariant left <= s.changed.Keys && held.Keys == s.entries.Keys && s.changed.Keys - left <= s.entries.Keys
      invariant forall p | p in held :: held[p] == if p in s.changed && p !in left then Written(s.changed[p]) else Stored(s.entries[p].content)
      decreases left
    {
      var path :| path in left;
      if path !in s.entries {
        return None;
      }
      held := held[path := Written(s.changed[path])];
      left := left - {path};
    }
    return Some(held);
  }

  // ----- a tree that says where each entry got its contents

  function Own(chunks: seq<Chunk>): Source { Written(chunks) }

  function Kept(kind: Kind, pages: seq<MapPage>): Source { Stored(pages) }

  function PagesOf(kind: Kind, source: Source): seq<MapPage> { if source.Stored? then source.pages else [] }

  function SourceBytes(recs: Recs, v: Vault, source: Source): Option<bytes> {
    match source
    case Stored(pages) => FileBytes(recs, v, pages)
    case Written(chunks) => ChunkBytes(recs, v, chunks, 0)
  }

  function Opened(recs: Recs, v: Vault, kind: Kind, source: Source): bytes {
    if kind == File && SourceBytes(recs, v, source).Some? then SourceBytes(recs, v, source).value else []
  }

  function Opening(recs: Recs, v: Vault): (Kind, Source) -> bytes { (kind: Kind, source: Source) => Opened(recs, v, kind, source) }

  /** Where the contents of each entry come from after these operations: from before, or from which write. */
  ghost function OwnRun(tree: Inodes, ops: seq<TxOp>, c: Change): Option<Tree<Source>> { PerformedAll(Mapped(tree, Kept), ops, c, Stored([]), Own) }

  /** Every file can be read, and has its size. */
  predicate Sized(recs: Recs, v: Vault, own: Tree<Source>) {
    forall p | p in own && own[p].kind == File :: SizedNode(recs, v, own[p])
  }

  predicate SizedNode(recs: Recs, v: Vault, n: Node<Source>) {
    SourceBytes(recs, v, n.content).Some? && |SourceBytes(recs, v, n.content).value| == n.size
  }

  /** What is remembered for the path of an entry holds the data of that entry. For an entry written in the transaction, nothing remembered holds nothing. */
  predicate KeptRight(recs: Recs, v: Vault, remembered: Option<seq<Chunk>>, own: Source) {
    match own
    case Stored(pages) => remembered.Some? ==> ChunkBytes(recs, v, remembered.value, 0) == FileBytes(recs, v, pages)
    case Written(chunks) => ChunkBytes(recs, v, if remembered.Some? then remembered.value else [], 0) == ChunkBytes(recs, v, chunks, 0)
  }

  /** Every file is remembered right. */
  predicate AllKeptRight(recs: Recs, v: Vault, changed: map<Path, seq<Chunk>>, own: Tree<Source>) {
    forall p | p in own && own[p].kind == File :: KeptRight(recs, v, ChangedAt(changed, p), own[p].content)
  }

  // ----- the operations do not look at contents

  /** The same tree with other contents. */
  function Mapped<C, D>(t: Tree<C>, f: (Kind, C) -> D): Tree<D> { map p | p in t :: MappedNode(t[p], f) }

  function MappedNode<C, D>(n: Node<C>, f: (Kind, C) -> D): Node<D> {
    Node(n.objectId, n.kind, n.size, n.mime, n.revision, n.modifiedBy, n.modifiedGeneration, f(n.kind, n.content))
  }

  lemma MappedParents<C, D>(t: Tree<C>, f: (Kind, C) -> D, path: Path, c: Change, none: C)
    ensures Mapped(EnsureParents(t, path, c, none), f) == EnsureParents(Mapped(t, f), path, c, f(Directory, none))
  {
    hide Ancestors;
  }

  lemma MappedRelocated<C, D>(t: Tree<C>, f: (Kind, C) -> D, from: Path, to: Path, c: Change)
    ensures Mapped(Relocated(t, from, to, c), f) == Relocated(Mapped(t, f), from, to, c)
  {
    hide Images, Subtree, Origin, Relocated;
    var u := Mapped(t, f);
    SameOrigins(t, u, from, to);
    var a, b := Mapped(Relocated(t, from, to, c), f), Relocated(u, from, to, c);
    forall q ensures q in a <==> q in b {
      RelocatedAt(t, from, to, c, q);
      RelocatedAt(u, from, to, c, q);
    }
    forall q | q in a ensures a[q] == b[q] {
      RelocatedAt(t, from, to, c, q);
      RelocatedAt(u, from, to, c, q);
    }
  }

  lemma SameOrigins<C, D>(t: Tree<C>, u: Tree<D>, from: Path, to: Path)
    requires t.Keys == u.Keys
    ensures Subtree(t, from) == Subtree(u, from) && Images(t, from, to) == Images(u, from, to)
    ensures forall q | q in Images(t, from, to) :: Origin(t, from, to, q) == Origin(u, from, to, q)
  {
    hide Within, Moved;
    assert Subtree(t, from) == Subtree(u, from);
  }

  /** Every operation does to one tree what it does to the other. */
  lemma MappedStep<C, D>(t: Tree<C>, f: (Kind, C) -> D, op: TxOp, c: Change, none: C, put: seq<Chunk> -> C, none2: D, put2: seq<Chunk> -> D)
    requires f(Directory, none) == none2 && forall x :: f(File, put(x)) == put2(x)
    ensures var r, s := Performed(t, op, c, none, put), Performed(Mapped(t, f), op, c, none2, put2);
      (r.Some? <==> s.Some?) && (r.Some? ==> s.value == Mapped(r.value, f))
  {
    hide EnsureParents, Relocated, Above;
    var u := Mapped(t, f);
    match op
    case TxWrite(path, mime, size, chunks) => MappedParents(t, f, path, c, none);
    case TxMkdir(path) => MappedParents(t, f, path, c, none);
    case TxRemove(path, recursive) => assert Below(t, path) == Below(u, path);
    case TxRename(path, to) =>
      MappedParents(t, f, to, c, none);
      MappedRelocated(EnsureParents(t, to, c, none), f, path, to, c);
  }

  lemma {:induction false} MappedAll<C, D>(t: Tree<C>, f: (Kind, C) -> D, ops: seq<TxOp>, c: Change, none: C, put: seq<Chunk> -> C, none2: D, put2: seq<Chunk> -> D)
    requires f(Directory, none) == none2 && forall x :: f(File, put(x)) == put2(x)
    ensures var r, s := PerformedAll(t, ops, c, none, put), PerformedAll(Mapped(t, f), ops, c, none2, put2);
      (r.Some? <==> s.Some?) && (r.Some? ==> s.value == Mapped(r.value, f))
    decreases |ops|
  {
    hide Performed, Mapped;
    if ops != [] {
      var n := |ops| - 1;
      MappedAll(t, f, ops[..n], c, none, put, none2, put2);
      var before := PerformedAll(t, ops[..n], c, none, put);
      if before.Some? {
        MappedStep(before.value, f, ops[n], c, none, put, none2, put2);
      }
    }
  }

  // ----- every file keeps what it holds

  lemma ParentsSized(recs: Recs, v: Vault, own: Tree<Source>, path: Path, c: Change)
    requires Sized(recs, v, own)
    ensures Sized(recs, v, EnsureParents(own, path, c, Stored([])))
  {
    hide EnsureParents, SizedNode;
    EnsureParentsShape(own, path, c, Stored([]));
  }

  lemma SizedStep(recs: Recs, v: Vault, own: Tree<Source>, op: TxOp, c: Change)
    requires Sized(recs, v, own) && Complete(recs, v, op) && Performed(own, op, c, Stored([]), Own).Some?
    ensures Sized(recs, v, Performed(own, op, c, Stored([]), Own).value)
  {
    hide EnsureParents, Relocated, Above, SourceBytes, FileBytes, ChunkBytes;
    match op
    case TxWrite(path, mime, size, chunks) =>
      ParentsSized(recs, v, own, path, c);
      assert SourceBytes(recs, v, Written(chunks)) == ChunkBytes(recs, v, chunks, 0) by { WrittenBytes(recs, v, chunks); }
    case TxMkdir(path) => ParentsSized(recs, v, own, path, c);
    case TxRemove(path, recursive) =>
    case TxRename(path, to) =>
      ParentsSized(recs, v, own, to, c);
      RelocatedSized(recs, v, EnsureParents(own, to, c, Stored([])), path, to, c);
  }

  lemma WrittenBytes(recs: Recs, v: Vault, chunks: seq<Chunk>)
    ensures SourceBytes(recs, v, Written(chunks)) == ChunkBytes(recs, v, chunks, 0)
  {
  }

  lemma RelocatedSized(recs: Recs, v: Vault, own: Tree<Source>, from: Path, to: Path, c: Change)
    requires Sized(recs, v, own)
    ensures Sized(recs, v, Relocated(own, from, to, c))
  {
    hide Images, Subtree, Origin, Relocated, SourceBytes;
    var u := Relocated(own, from, to, c);
    forall q | q in u && u[q].kind == File ensures SizedNode(recs, v, u[q]) {
      RelocatedAt(own, from, to, c, q);
      var p := if q in Images(own, from, to) then Origin(own, from, to, q) else q;
      assert own[p].kind == File && SizedNode(recs, v, own[p]);
    }
  }

  lemma {:induction false} SizedRun(recs: Recs, v: Vault, own: Tree<Source>, ops: seq<TxOp>, c: Change)
    requires Sized(recs, v, own) && (forall i | 0 <= i < |ops| :: Complete(recs, v, ops[i])) && PerformedAll(own, ops, c, Stored([]), Own).Some?
    ensures Sized(recs, v, PerformedAll(own, ops, c, Stored([]), Own).value)
    decreases |ops|
  {
    hide Performed, Sized, Complete;
    if ops != [] {
      var n := |ops| - 1;
      SizedRun(recs, v, own, ops[..n], c);
      SizedStep(recs, v, PerformedAll(own, ops[..n], c, Stored([]), Own).value, ops[n], c);
    }
  }

  // ----- whole transactions

  /** The entries of a run are the operations on the entries. */
  lemma {:induction false} RunEntries(s: TxState, ops: seq<TxOp>, c: Change)
    ensures var r, t := TxRun(s, ops, c), PerformedAll(s.entries, ops, c, [], NoPages);
      (r.Some? <==> t.Some?) && (r.Some? ==> r.value.entries == t.value)
    decreases |ops|
  {
    hide Performed;
    if ops != [] {
      RunEntries(s, ops[..|ops| - 1], c);
    }
  }

  lemma StartsMapped(recs: Recs, v: Vault, tree: Inodes, files: Tree<bytes>)
    requires Represents(recs, v, tree, [], files)
    ensures Mapped(Mapped(tree, Kept), PagesOf) == tree && Mapped(Mapped(tree, Kept), Opening(recs, v)) == files && Sized(recs, v, Mapped(tree, Kept))
  {
    hide FileBytes, ChunkBytes;
    var own := Mapped(tree, Kept);
    forall p | p in tree ensures p in files && MappedNode(own[p], Opening(recs, v)) == files[p] && (tree[p].kind == File ==> SizedNode(recs, v, own[p])) {
      RepresentsAt(recs, v, tree, files, p);
    }
  }

  /**
   What a transaction does, exactly. It throws in the middle exactly when the operations on contents do. At the end it can be built
   exactly if every path ever written is an entry. And what it publishes is what the operations mean exactly if, moreover, what is
   remembered for the path of each file holds the data of that very file.
   */
  lemma TransactionMeans(recs: Recs, v: Vault, tree: Inodes, files: Tree<bytes>, ops: seq<TxOp>, c: Change)
    requires Represents(recs, v, tree, [], files) && forall i | 0 <= i < |ops| :: Complete(recs, v, ops[i])
    ensures var s, m, own := TxRun(TxState(tree, map[]), ops, c), MeantRun(recs, v, files, ops, c), OwnRun(tree, ops, c);
      (s.Some? <==> m.Some?) && (s.Some? <==> own.Some?)
      && (s.Some? ==> s.value.entries.Keys == own.value.Keys && Sized(recs, v, own.value))
      && (s.Some? ==> m.value == Mapped(own.value, Opening(recs, v)) && s.value.entries == Mapped(own.value, PagesOf))
      && (s.Some? ==> (Publishes(recs, v, s.value, m.value) <==> Builds(s.value) && AllKeptRight(recs, v, s.value.changed, own.value)))
  {
    hide Represents, Publishes, AllKeptRight, Complete, Sized, Mapped, PerformedAll, TxRun, Builds;
    var own := Mapped(tree, Kept);
    StartsMapped(recs, v, tree, files);
    RunEntries(TxState(tree, map[]), ops, c);
    MappedAll(own, PagesOf, ops, c, Stored([]), Own, [], NoPages);
    OpeningIsData(recs, v);
    MappedAll(own, Opening(recs, v), ops, c, Stored([]), Own, [], Data(recs, v));
    if PerformedAll(own, ops, c, Stored([]), Own).Some? {
      SizedRun(recs, v, own, ops, c);
      var s, u := TxRun(TxState(tree, map[]), ops, c).value, PerformedAll(own, ops, c, Stored([]), Own).value;
      MappedKeys(u, PagesOf);
      PublishesExactly(recs, v, s, u);
    }
  }

  lemma MappedKeys<C, D>(t: Tree<C>, f: (Kind, C) -> D)
    ensures Mapped(t, f).Keys == t.Keys
  {
  }

  lemma OpeningIsData(recs: Recs, v: Vault)
    ensures Opening(recs, v)(Directory, Stored([])) == [] && forall x :: Opening(recs, v)(File, Own(x)) == Data(recs, v)(x)
  {
  }

  lemma PublishesExactly(recs: Recs, v: Vault, s: TxState, own: Tree<Source>)
    requires Sized(recs, v, own) && s.entries == Mapped(own, PagesOf)
    ensures Publishes(recs, v, s, Mapped(own, Opening(recs, v))) <==> Builds(s) && AllKeptRight(recs, v, s.changed, own)
  {
    hide Builds, HoldsFile, KeptRight, SizedNode, MappedNode;
    var m := Mapped(own, Opening(recs, v));
    forall p | p in own
      ensures HoldsFile(recs, v, s.entries[p], ChangedAt(s.changed, p), m[p]) <==> own[p].kind == File ==> KeptRight(recs, v, ChangedAt(s.changed, p), own[p].content)
    {
      HoldsExactly(recs, v, own[p], ChangedAt(s.changed, p));
    }
  }

  lemma HoldsExactly(recs: Recs, v: Vault, n: Node<Source>, remembered: Option<seq<Chunk>>)
    requires n.kind == File ==> SizedNode(recs, v, n)
    ensures HoldsFile(recs, v, MappedNode(n, PagesOf), remembered, MappedNode(n, Opening(recs, v)))
      <==> n.kind == File ==> KeptRight(recs, v, remembered, n.content)
  {
    hide ChunkBytes;
    NoPagesHoldNothing(recs, v);
  }

  lemma NoPagesHoldNothing(recs: Recs, v: Vault)
    ensures FileBytes(recs, v, []) == ChunkBytes(recs, v, [], 0) == Some([])
  {
  }

  // ----- transactions that leave alone what they wrote

  /** Each file written is remembered under its path with its own chunks, and nothing else is remembered. */
  predicate Tracked(changed: map<Path, seq<Chunk>>, own: Tree<Source>) {
    (forall p | p in changed :: p in own && own[p].kind == File && own[p].content == Written(changed[p]))
    && forall p | p in own && own[p].kind == File && p !in changed :: own[p].content.Stored?
  }

  lemma TrackedIsRight(recs: Recs, v: Vault, s: TxState, own: Tree<Source>)
    requires Tracked(s.changed, own) && s.entries.Keys == own.Keys
    ensures Builds(s) && AllKeptRight(recs, v, s.changed, own)
  {
    hide ChunkBytes, FileBytes;
  }

  /** No remembered path is moved, removed or moved onto. */
  predicate Safe(s: TxState, op: TxOp) {
    match op
    case TxRemove(path, _) => forall w | w in s.changed :: !Within(path, w)
    case TxRename(path, to) => forall w | w in s.changed :: !Within(path, w) && !Within(to, w)
    case _ => true
  }

  ghost predicate SafeRun(s: TxState, ops: seq<TxOp>, c: Change) {
    forall i | 0 <= i < |ops| :: TxRun(s, ops[..i], c).Some? ==> Safe(TxRun(s, ops[..i], c).value, ops[i])
  }

  lemma ParentsTracked(changed: map<Path, seq<Chunk>>, own: Tree<Source>, path: Path, c: Change)
    requires Tracked(changed, own)
    ensures Tracked(changed, EnsureParents(own, path, c, Stored([])))
  {
    hide EnsureParents;
    EnsureParentsShape(own, path, c, Stored([]));
  }

  lemma TrackedStep(s: TxState, own: Tree<Source>, op: TxOp, c: Change)
    requires Tracked(s.changed, own) && Safe(s, op) && TxStep(s, op, c).Some? && Performed(own, op, c, Stored([]), Own).Some?
    ensures Tracked(TxStep(s, op, c).value.changed, Performed(own, op, c, Stored([]), Own).value)
  {
    hide EnsureParents, Relocated, Above;
    match op
    case TxWrite(path, mime, size, chunks) => ParentsTracked(s.changed, own, path, c);
    case TxMkdir(path) => ParentsTracked(s.changed, own, path, c);
    case TxRemove(path, recursive) =>
    case TxRename(path, to) =>
      ParentsTracked(s.changed, own, to, c);
      RelocatedTracked(s.changed, EnsureParents(own, to, c, Stored([])), path, to, c);
  }

  lemma RelocatedTracked(changed: map<Path, seq<Chunk>>, own: Tree<Source>, from: Path, to: Path, c: Change)
    requires Tracked(changed, own) && forall w | w in changed :: !Within(from, w) && !Within(to, w)
    ensures Tracked(changed, Relocated(own, from, to, c))
  {
    hide Images, Subtree, Origin, Relocated, Within;
    var u := Relocated(own, from, to, c);
    forall w | w in changed ensures w in u && u[w] == own[w] {
      RelocatedAt(own, from, to, c, w);
      NotMoved(own, from, to, w);
    }
    forall q | q in u && u[q].kind == File && q !in changed ensures u[q].content.Stored? {
      RelocatedAt(own, from, to, c, q);
      if q in Images(own, from, to) {
        ImageBounds(own, from, to, q);
      }
    }
  }

  lemma NotMoved<C>(t: Tree<C>, from: Path, to: Path, w: Path)
    requires !Within(from, w) && !Within(to, w)
    ensures w !in Images(t, from, to) && w !in Subtree(t, from)
  {
    hide Within, Moved;
    if w in Images(t, from, to) {
      var p :| p in Subtree(t, from) && Moved(from, to, p) == w;
      MovedWithin(from, to, p);
    }
  }

  lemma ImageBounds<C>(t: Tree<C>, from: Path, to: Path, q: Path)
    requires q in Images(t, from, to)
    ensures Within(to, q) && Within(from, Origin(t, from, to, q))
  {
    var p :| p in Subtree(t, from) && Moved(from, to, p) == q;
    MovedWithin(from, to, p);
  }

  lemma {:induction false} SafeIsTracked(tree: Inodes, ops: seq<TxOp>, c: Change)
    requires SafeRun(TxState(tree, map[]), ops, c) && TxRun(TxState(tree, map[]), ops, c).Some? && OwnRun(tree, ops, c).Some?
    ensures Tracked(TxRun(TxState(tree, map[]), ops, c).value.changed, OwnRun(tree, ops, c).value)
    decreases |ops|
  {
    hide Tracked, Safe, TxStep, Performed, Mapped;
    var start := TxState(tree, map[]);
    if ops == [] {
      assert Tracked(map[], Mapped(tree, Kept)) by { NothingWritten(tree); }
    } else {
      var n := |ops| - 1;
      forall i | 0 <= i < n && TxRun(start, ops[..n][..i], c).Some? ensures Safe(TxRun(start, ops[..n][..i], c).value, ops[..n][i]) {
        assert ops[..n][..i] == ops[..i];
      }
      SafeIsTracked(tree, ops[..n], c);
      TrackedStep(TxRun(start, ops[..n], c).value, OwnRun(tree, ops[..n], c).value, ops[n], c);
    }
  }

  lemma NothingWritten(tree: Inodes)
    ensures Tracked(map[], Mapped(tree, Kept))
  {
  }

  /** A transaction that never moves or removes what it has written publishes exactly what its operations mean, and throws exactly when they do. */
  lemma SafeTransactionMeans(recs: Recs, v: Vault, tree: Inodes, files: Tree<bytes>, ops: seq<TxOp>, c: Change)
    requires Represents(recs, v, tree, [], files) && SafeRun(TxState(tree, map[]), ops, c) && forall i | 0 <= i < |ops| :: Complete(recs, v, ops[i])
    ensures var s, m := TxRun(TxState(tree, map[]), ops, c), MeantRun(recs, v, files, ops, c);
      (s.Some? <==> m.Some?) && (s.Some? ==> Publishes(recs, v, s.value, m.value))
  {
    hide Represents, Publishes, AllKeptRight, Complete, Sized, Mapped, TxRun, Builds, Tracked, SafeRun, OwnRun, MeantRun;
    TransactionMeans(recs, v, tree, files, ops, c);
    if TxRun(TxState(tree, map[]), ops, c).Some? {
      SafeIsTracked(tree, ops, c);
      TrackedIsRight(recs, v, TxRun(TxState(tree, map[]), ops, c).value, OwnRun(tree, ops, c).value);
    }
  }

  // ----- what goes wrong otherwise

  const A: Path := [97]
  const B: Path := [98]

  lemma NoParents<C>(t: Tree<C>, path: Path, c: Change, none: C)
    requires |path| == 1 && path[0] != SLASH
    ensures EnsureParents(t, path, c, none) == t
  {
    assert Ancestors(path) == {};
  }

  /** Renaming the only entry. */
  lemma OnlyOneMoves<C>(n: Node<C>, c: Change, none: C)
    ensures PigTree.TxRename(map[A := n], A, B, c, none) == Done(map[B := MovedNode(n, c)])
  {
    hide Images, Subtree, Origin, Relocated, EnsureParents;
    var t: Tree<C> := map[A := n];
    NoParents(t, B, c, none);
    var r := Relocated(t, A, B, c);
    assert Subtree(t, A) == {A} && Images(t, A, B) == {B} && Origin(t, A, B, B) == A by { OnlyImage(n); }
    forall q ensures q in r <==> q == B {
      RelocatedAt(t, A, B, c, q);
    }
    RelocatedAt(t, A, B, c, B);
    assert r == map[B := MovedNode(n, c)];
  }

  lemma OnlyImage<C>(n: Node<C>)
    ensures var t: Tree<C> := map[A := n]; Subtree(t, A) == {A} && Images(t, A, B) == {B} && Origin(t, A, B, B) == A
  {
    var t: Tree<C> := map[A := n];
    assert A in Subtree(t, A) && Moved(A, B, A) == B;
  }

  /** Nothing of a written file that is moved is moved along with it: building fails. */
  lemma MovedWriteIsRefused(recs: Recs, v: Vault, chunks: seq<Chunk>, size: nat, c: Change, files: Tree<bytes>)
    ensures var ops := [TxWrite(A, [], size, chunks), TxRename(A, B)];
      TxRun(TxState(map[], map[]), ops, c).Some? && !Builds(TxRun(TxState(map[], map[]), ops, c).value)
  {
    hide EnsureParents, Relocated;
    var ops := [TxWrite(A, [], size, chunks), TxRename(A, B)];
    var nothing: Inodes := map[];
    assert ops[..1] == [ops[0]] && ops[..1][..0] == [];
    NoParents(nothing, A, c, []);
    assert TxRun(TxState(map[], map[]), ops[..1][..0], c) == Some(TxState(map[], map[]));
    var n := PigTree.Written(nothing, A, c, size, [], []);
    assert TxRun(TxState(map[], map[]), ops[..1], c) == Some(TxState(map[A := n], map[A := chunks]));
    OnlyOneMoves(n, c, []);
  }

  /** Three operations, one after the other. */
  lemma Three<C>(t: Tree<C>, x: TxOp, y: TxOp, z: TxOp, c: Change, none: C, put: seq<Chunk> -> C)
    ensures PerformedAll(t, [x, y, z], c, none, put) ==
      var one := Performed(t, x, c, none, put);
      var two := if one.None? then None else Performed(one.value, y, c, none, put);
      if two.None? then None else Performed(two.value, z, c, none, put)
  {
    hide Performed;
    assert [x, y, z][..2] == [x, y] && [x, y][..1] == [x] && [x][..0] == [];
    assert PerformedAll(t, [], c, none, put) == Some(t);
    assert PerformedAll(t, [x], c, none, put) == Performed(t, x, c, none, put);
  }

  lemma ThreeChanged(s: TxState, x: TxOp, y: TxOp, z: TxOp, c: Change)
    requires x.TxWrite? && !y.TxWrite? && z.TxWrite? && z.path == x.path
    ensures TxRun(s, [x, y, z], c).Some? ==> TxRun(s, [x, y, z], c).value.changed == s.changed[x.path := z.chunks]
  {
    hide Performed;
    assert [x, y, z][..2] == [x, y] && [x, y][..1] == [x] && [x][..0] == [];
    assert TxRun(s, [], c) == Some(s);
    assert TxRun(s, [x], c) == TxStep(s, x, c);
  }

  /**
   Writing "a", renaming it to "b" and writing "a" again: there is an entry "a", so the realm is built. But the first chunks are forgotten:
   "b" is published with its size and without map pages, which is wrong unless it is empty.
   */
  lemma MovedWriteIsLost(recs: Recs, v: Vault, x: TxOp, y: TxOp, c: Change)
    requires x.TxWrite? && y.TxWrite? && x.path == A && y.path == A && Complete(recs, v, x) && Complete(recs, v, y)
    ensures var s, m := TxRun(TxState(map[], map[]), [x, TxRename(A, B), y], c), MeantRun(recs, v, map[], [x, TxRename(A, B), y], c);
      s.Some? && m.Some? && Builds(s.value) && B in m.value && m.value[B].content == DataOf(recs, v, x.chunks)
      && B in s.value.entries && s.value.entries[B].size == x.size && s.value.entries[B].content == [] && B !in s.value.changed
      && (Publishes(recs, v, s.value, m.value) <==> x.size == 0)
  {
    hide EnsureParents, Relocated, Publishes, TxRun, ChunkBytes, PigTree.TxRename, Sized;
    var ops := [x, TxRename(A, B), y];
    var nothing: Tree<Source> := map[];
    assert Mapped(map[], Kept) == nothing;
    TransactionMeans(recs, v, map[], map[], ops, c);
    ThreeChanged(TxState(map[], map[]), x, ops[1], y, c);
    Three(nothing, x, ops[1], y, c, Stored([]), Own);
    NoParents(nothing, A, c, Stored([]));
    var n := PigTree.Written(nothing, A, c, x.size, x.mime, Own(x.chunks));
    assert Performed(nothing, x, c, Stored([]), Own) == Some(map[A := n]);
    OnlyOneMoves(n, c, Stored([]));
    var two: Tree<Source> := map[B := MovedNode(n, c)];
    NoParents(two, A, c, Stored([]));
    var own := OwnRun(map[], ops, c).value;
    assert own == two[A := PigTree.Written(two, A, c, y.size, y.mime, Own(y.chunks))];
    assert own[B].content == Written(x.chunks) && own[A].content == Written(y.chunks) && own[B].kind == File;
    NoPagesHoldNothing(recs, v);
    var s := TxRun(TxState(map[], map[]), ops, c).value;
    assert s.changed == map[A := y.chunks];
    assert KeptRight(recs, v, ChangedAt(s.changed, A), own[A].content);
    assert KeptRight(recs, v, ChangedAt(s.changed, B), own[B].content) <==> x.size == 0;
  }

  /** Writing "a", removing it and writing it again is right, although it removes what it wrote. */
  lemma RewrittenIsRight(recs: Recs, v: Vault, x: TxOp, y: TxOp, c: Change)
    requires x.TxWrite? && y.TxWrite? && x.path == A && y.path == A && Complete(recs, v, x) && Complete(recs, v, y)
    ensures var ops := [x, TxRemove(A, false), y];
      var s, m := TxRun(TxState(map[], map[]), ops, c), MeantRun(recs, v, map[], ops, c);
      !SafeRun(TxState(map[], map[]), ops, c) && s.Some? && m.Some? && Publishes(recs, v, s.value, m.value)
  {
    hide EnsureParents, Publishes, ChunkBytes, Sized;
    var ops := [x, TxRemove(A, false), y];
    var nothing: Tree<Source> := map[];
    assert Mapped(map[], Kept) == nothing;
    TransactionMeans(recs, v, map[], map[], ops, c);
    ThreeChanged(TxState(map[], map[]), x, ops[1], y, c);
    Three(nothing, x, ops[1], y, c, Stored([]), Own);
    NoParents(nothing, A, c, Stored([]));
    var n := PigTree.Written(nothing, A, c, x.size, x.mime, Own(x.chunks));
    assert Performed(nothing, x, c, Stored([]), Own) == Some(map[A := n]);
    var t: Tree<Source> := map[A := n];
    assert Below(t, A) == {} && t - {} - {A} == nothing;
    assert OwnRun(map[], ops, c) == Some(map[A := PigTree.Written(nothing, A, c, y.size, y.mime, Own(y.chunks))]);
    RemovesWritten(x, c, ops);
  }

  lemma RemovesWritten(x: TxOp, c: Change, ops: seq<TxOp>)
    requires x.TxWrite? && |ops| == 3 && ops[0] == x && ops[1] == TxRemove(x.path, false)
    ensures !SafeRun(TxState(map[], map[]), ops, c)
  {
    hide Performed;
    var start := TxState(map[], map[]);
    assert ops[..1] == [x] && [x][..0] == [];
    assert TxRun(start, [], c) == Some(start);
    assert Performed(start.entries, x, c, [], NoPages).Some? by { hide *; WritesAlways(start.entries, x, c); }
    var s := TxRun(start, ops[..1], c).value;
    assert x.path in s.changed && Within(x.path, x.path);
    assert !Safe(s, ops[1]);
  }

  lemma WritesAlways(t: Inodes, x: TxOp, c: Change)
    requires x.TxWrite?
    ensures Performed(t, x, c, [], NoPages).Some?
  {
  }
}
