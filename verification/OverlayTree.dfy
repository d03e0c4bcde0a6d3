/**
 The web overlay as values: a namespace of sources over an immutable base, what it means as files, and how the operations
 of a plain file system act on both. Object ids, times and actors are not kept here, so every change is the same `Web()`.
 */
module OverlayTree {
  import opened Bytes
  import opened Keys
  import opened PigTree

  function NoId(path: Path): Key { [] }

  function Web(): Change { Change(None, 0, NoId) }

  // ----- sources

  datatype Chunk = Chunk(index: nat, plainOffset: nat, size: nat)

  /** Where the bytes of an overlay file are: in the chunk store, under a path of the base, or nowhere. */
  datatype Source = Nothing | Stored(storageId: nat, chunks: seq<Chunk>, size: nat) | FromBase(path: Path)

  type Sources = Tree<Source>

  type Files = Tree<bytes>

  /** The chunk store: the key is a storage id and an index. */
  type Items = map<(nat, nat), bytes>

  datatype Session = Session(path: Path, mime: Key, sizes: seq<nat>, size: nat)

  type Sessions = map<nat, Session>

  /** The overlay: a tombstone, or an entry of its own. */
  type Overlay = map<Path, Option<Node<Source>>>

  function FromBaseNode(path: Path, n: Node<bytes>): Node<Source> {
    Node(n.objectId, n.kind, n.size, n.mime, n.revision, n.modifiedBy, n.modifiedGeneration, if n.kind == File then FromBase(path) else Nothing)
  }

  /** `merged`: the base, with the overlay on top. */
  function Merge(base: Files, overlay: Overlay): Sources {
    map p | p in base.Keys + overlay.Keys && (p !in overlay || overlay[p].Some?) :: if p in overlay then overlay[p].value else FromBaseNode(p, base[p])
  }

  lemma MergeSet(base: Files, overlay: Overlay, p: Path, n: Node<Source>)
    ensures Merge(base, overlay[p := Some(n)]) == Merge(base, overlay)[p := n]
    ensures Merge(base, overlay[p := None]) == Merge(base, overlay) - {p}
  {
  }

  // ----- what a source means

  /** The first `n` chunks under a storage id. */
  function StoredBytes(items: Items, id: nat, n: nat): bytes {
    if n == 0 then [] else StoredBytes(items, id, n - 1) + if (id, n - 1) in items then items[(id, n - 1)] else []
  }

  function ContentOf(base: Files, items: Items, s: Source): bytes {
    match s
    case Nothing => []
    case Stored(id, chunks, _) => StoredBytes(items, id, |chunks|)
    case FromBase(p) => if p in base then base[p].content else []
  }

  function Told(base: Files, items: Items, n: Node<Source>): Node<bytes> {
    Node(n.objectId, n.kind, n.size, n.mime, n.revision, n.modifiedBy, n.modifiedGeneration, ContentOf(base, items, n.content))
  }

  /** The files that a namespace of sources stands for. */
  function Meaning(base: Files, items: Items, m: Sources): Files { map p | p in m :: Told(base, items, m[p]) }

  /** Nothing but files has contents, and sizes are the sizes of the contents. */
  predicate FileOk(n: Node<bytes>) { n.size == |n.content| && (n.kind != File ==> n.content == []) }

  ghost predicate BaseOk(base: Files) { forall p | p in base :: FileOk(base[p]) }

  /** An untouched overlay means the base. */
  lemma NothingChanged(base: Files)
    requires BaseOk(base)
    ensures Meaning(base, map[], Merge(base, map[])) == base
  {
    var m := Merge(base, map[]);
    forall p | p in base ensures Told(base, map[], m[p]) == base[p] {
      assert FileOk(base[p]);
    }
  }

  lemma {:induction false} SameStored(items: Items, next: Items, id: nat, n: nat)
    requires forall i | 0 <= i < n :: (id, i) in items && (id, i) in next && items[(id, i)] == next[(id, i)]
    ensures StoredBytes(items, id, n) == StoredBytes(next, id, n)
  {
    if n > 0 {
      SameStored(items, next, id, n - 1);
    }
  }

  // ----- what holds of every source

  ghost predicate ChunkStored(items: Items, id: nat, c: Chunk, i: nat) {
    c.index == i && (id, i) in items && c.size == |items[(id, i)]| && c.plainOffset == |StoredBytes(items, id, i)|
  }

  ghost predicate SourceOk(base: Files, items: Items, next: nat, n: Node<Source>) {
    (n.kind == File <==> n.content != Nothing)
    && match n.content
       case Nothing => n.size == 0
       case Stored(id, chunks, size) => id < next && n.size == size == |StoredBytes(items, id, |chunks|)| && StoredOk(items, id, chunks)
       case FromBase(p) => p in base && base[p].kind == File && n.size == base[p].size
  }

  ghost predicate StoredOk(items: Items, id: nat, chunks: seq<Chunk>) { forall i | 0 <= i < |chunks| :: ChunkStored(items, id, chunks[i], i) }

  ghost predicate SourcesOk(base: Files, items: Items, next: nat, m: Sources) { forall p | p in m :: SourceOk(base, items, next, m[p]) }

  predicate Holds(n: Node<Source>, id: nat) { n.content.Stored? && n.content.storageId == id }

  /** No storage id is referenced by two paths. */
  ghost predicate Unshared(m: Sources) {
    forall p, q | p in m && q in m && m[p].content.Stored? && m[q].content.Stored? && m[p].content.storageId == m[q].content.storageId :: p == q
  }

  ghost predicate SessionOk(items: Items, id: nat, s: Session) {
    s.size == |StoredBytes(items, id, |s.sizes|)| && forall i | 0 <= i < |s.sizes| :: (id, i) in items && |items[(id, i)]| == s.sizes[i]
  }

  ghost predicate SessionsOk(items: Items, next: nat, m: Sources, sessions: Sessions) {
    (forall id | id in sessions :: id < next && SessionOk(items, id, sessions[id]))
    && forall p, id | p in m && id in sessions :: !Holds(m[p], id)
  }

  /** Some entry uses chunk `k` of the store. */
  ghost predicate Used(m: Sources, k: (nat, nat)) {
    exists p | p in m :: Holds(m[p], k.0) && k.1 < |m[p].content.chunks|
  }

  /** Every stored chunk belongs to a live file or to an open session: nothing is left over. */
  ghost predicate NoLeak(m: Sources, sessions: Sessions, items: Items) {
    forall k | k in items :: (k.0 in sessions && k.1 < |sessions[k.0].sizes|) || Used(m, k)
  }

  ghost predicate OverlayOk(base: Files, m: Sources, items: Items, sessions: Sessions, next: nat) {
    BaseOk(base) && SourcesOk(base, items, next, m) && Unshared(m) && SessionsOk(items, next, m, sessions) && NoLeak(m, sessions, items)
  }

  // ----- single steps on the namespace

  /** `deleteStorage`. */
  function Without(items: Items, id: nat): Items { map k | k in items && k.0 != id :: items[k] }

  /** `_dropStorage`: only stored sources are deleted. */
  function Drop(items: Items, s: Source): Items { if s.Stored? then Without(items, s.storageId) else items }

  /** Two stores that agree on what they hold under a storage id. */
  ghost predicate Agree(items: Items, other: Items, id: nat) { forall i: nat | (id, i) in items :: (id, i) in other && other[(id, i)] == items[(id, i)] }

  lemma SourceKept(base: Files, items: Items, next: nat, n: Node<Source>, other: Items, later: nat)
    requires SourceOk(base, items, next, n) && next <= later && (n.content.Stored? ==> Agree(items, other, n.content.storageId))
    ensures SourceOk(base, other, later, n) && Told(base, other, n) == Told(base, items, n)
  {
    if n.content.Stored? {
      StoredKept(items, other, n.content.storageId, n.content.chunks);
    }
  }

  lemma StoredKept(items: Items, other: Items, id: nat, chunks: seq<Chunk>)
    requires StoredOk(items, id, chunks) && Agree(items, other, id)
    ensures StoredOk(other, id, chunks) && StoredBytes(other, id, |chunks|) == StoredBytes(items, id, |chunks|)
  {
    hide StoredBytes;
    forall i | 0 <= i < |chunks| ensures (id, i) in items {
      assert ChunkStored(items, id, chunks[i], i);
    }
    forall i | 0 <= i < |chunks| ensures ChunkStored(other, id, chunks[i], i) {
      assert ChunkStored(items, id, chunks[i], i);
      SameStored(items, other, id, i);
    }
    SameStored(items, other, id, |chunks|);
  }

  lemma SessionKept(items: Items, id: nat, s: Session, other: Items)
    requires SessionOk(items, id, s) && Agree(items, other, id)
    ensures SessionOk(other, id, s)
  {
    hide StoredBytes;
    SameStored(items, other, id, |s.sizes|);
  }

  /** A store that keeps what the namespace uses keeps its meaning. */
  lemma SourcesKept(base: Files, m: Sources, items: Items, next: nat, other: Items, later: nat)
    requires SourcesOk(base, items, next, m) && next <= later
    requires forall p | p in m && m[p].content.Stored? :: Agree(items, other, m[p].content.storageId)
    ensures SourcesOk(base, other, later, m) && Meaning(base, other, m) == Meaning(base, items, m)
  {
    hide SourceOk, Told, Agree;
    forall p | p in m ensures SourceOk(base, other, later, m[p]) && Told(base, other, m[p]) == Told(base, items, m[p]) {
      SourceKept(base, items, next, m[p], other, later);
    }
  }

  lemma SessionsKept(m: Sources, items: Items, next: nat, sessions: Sessions, other: Items, later: nat)
    requires SessionsOk(items, next, m, sessions) && next <= later && forall id | id in sessions :: Agree(items, other, id)
    ensures SessionsOk(other, later, m, sessions)
  {
    hide SessionOk, Agree;
    forall id | id in sessions ensures SessionOk(other, id, sessions[id]) {
      SessionKept(items, id, sessions[id], other);
    }
  }

  lemma SourcesSubset(base: Files, m: Sources, items: Items, next: nat, sessions: Sessions, gone: set<Path>)
    requires SourcesOk(base, items, next, m) && Unshared(m) && SessionsOk(items, next, m, sessions)
    ensures SourcesOk(base, items, next, m - gone) && Unshared(m - gone) && SessionsOk(items, next, m - gone, sessions)
    ensures Meaning(base, items, m - gone) == Meaning(base, items, m) - gone
  {
    hide SourceOk, SessionOk, Told;
  }

  /** Chunks of another storage id stay used. */
  lemma UsedStill(m: Sources, more: Sources, k: (nat, nat), p: Path)
    requires Used(m, k) && (p in m ==> !Holds(m[p], k.0)) && forall x | x in m && x != p :: x in more && more[x].content == m[x].content
    ensures Used(more, k)
  {
    var x :| x in m && Holds(m[x], k.0) && k.1 < |m[x].content.chunks|;
    assert x in more;
  }

  /** Removing one entry and its storage. */
  lemma DropStep(base: Files, m: Sources, items: Items, sessions: Sessions, next: nat, p: Path)
    requires OverlayOk(base, m, items, sessions, next) && p in m
    ensures OverlayOk(base, m - {p}, Drop(items, m[p].content), sessions, next)
    ensures Meaning(base, Drop(items, m[p].content), m - {p}) == Meaning(base, items, m) - {p}
  {
    hide SourcesOk, SessionOk, Meaning, BaseOk, Used;
    var rest, left := m - {p}, Drop(items, m[p].content);
    SourcesSubset(base, m, items, next, sessions, {p});
    SourcesKept(base, rest, items, next, left, next);
    forall id | id in sessions ensures Agree(items, left, id) {
      assert !Holds(m[p], id);
    }
    SessionsKept(rest, items, next, sessions, left, next);
    forall k | k in left ensures (k.0 in sessions && k.1 < |sessions[k.0].sizes|) || Used(rest, k) {
      if Used(m, k) {
        DropUsed(m, items, p, k);
      }
    }
  }

  lemma DropUsed(m: Sources, items: Items, p: Path, k: (nat, nat))
    requires Used(m, k) && p in m && k in Drop(items, m[p].content)
    ensures Used(m - {p}, k)
  {
    var x :| x in m && Holds(m[x], k.0) && k.1 < |m[x].content.chunks|;
    assert x in m - {p};
  }

  /** An entry that owns nothing, at a free path. */
  lemma AddDirectory(base: Files, m: Sources, items: Items, sessions: Sessions, next: nat, p: Path)
    requires OverlayOk(base, m, items, sessions, next) && p !in m
    ensures OverlayOk(base, m[p := NewDirectory(p, Web(), Nothing)], items, sessions, next)
    ensures Meaning(base, items, m[p := NewDirectory(p, Web(), Nothing)]) == Meaning(base, items, m)[p := NewDirectory(p, Web(), [])]
  {
    hide BaseOk, SessionOk, Used, SourceOk;
    var more := m[p := NewDirectory(p, Web(), Nothing)];
    DirectoryOk(base, items, next, p);
    forall k | k in items && Used(m, k) ensures Used(more, k) {
      UsedStill(m, more, k, p);
    }
  }

  lemma DirectoryOk(base: Files, items: Items, next: nat, p: Path)
    ensures SourceOk(base, items, next, NewDirectory(p, Web(), Nothing))
  {
  }

  /** An entry that moves to a free path, with its source. */
  lemma MoveStep(base: Files, m: Sources, items: Items, sessions: Sessions, next: nat, p: Path, q: Path)
    requires OverlayOk(base, m, items, sessions, next) && p in m && q !in m
    ensures OverlayOk(base, (m - {p})[q := MovedNode(m[p], Web())], items, sessions, next)
    ensures Meaning(base, items, (m - {p})[q := MovedNode(m[p], Web())]) == (Meaning(base, items, m) - {p})[q := MovedNode(Told(base, items, m[p]), Web())]
  {
    hide BaseOk, SessionOk, SourceOk, Used, ContentOf;
    MovedOk(base, items, next, m[p]);
    var moved := (m - {p})[q := MovedNode(m[p], Web())];
    forall k | k in items && Used(m, k) ensures Used(moved, k) {
      UsedMoved(m, k, p, q);
    }
  }

  lemma MovedOk(base: Files, items: Items, next: nat, n: Node<Source>)
    requires SourceOk(base, items, next, n)
    ensures SourceOk(base, items, next, MovedNode(n, Web()))
  {
    hide StoredOk, StoredBytes;
  }

  lemma UsedMoved(m: Sources, k: (nat, nat), p: Path, q: Path)
    requires Used(m, k) && p in m && q !in m
    ensures Used((m - {p})[q := MovedNode(m[p], Web())], k)
  {
    var x :| x in m && Holds(m[x], k.0) && k.1 < |m[x].content.chunks|;
    var moved := (m - {p})[q := MovedNode(m[p], Web())];
    assert Holds(moved[if x == p then q else x], k.0);
  }

  // ----- sessions

  lemma BeginStep(base: Files, m: Sources, items: Items, sessions: Sessions, next: nat, path: Path, mime: Key)
    requires OverlayOk(base, m, items, sessions, next)
    ensures OverlayOk(base, m, items, sessions[next := Session(path, mime, [], 0)], next + 1)
  {
    hide BaseOk, SourceOk, Used, Told;
    SourcesKept(base, m, items, next, items, next + 1);
    forall p | p in m ensures !Holds(m[p], next) {
      NotYetUsed(base, items, next, m, p);
    }
  }

  lemma NotYetUsed(base: Files, items: Items, next: nat, m: Sources, p: Path)
    requires SourcesOk(base, items, next, m) && p in m
    ensures !Holds(m[p], next)
  {
    assert SourceOk(base, items, next, m[p]);
  }

  function Longer(s: Session, data: bytes): Session { Session(s.path, s.mime, s.sizes + [|data|], s.size + |data|) }

  lemma SessionGrows(items: Items, id: nat, s: Session, data: bytes)
    requires SessionOk(items, id, s)
    ensures var more := items[(id, |s.sizes|) := data]; SessionOk(more, id, Longer(s, data)) && StoredBytes(more, id, |s.sizes| + 1) == StoredBytes(items, id, |s.sizes|) + data
  {
    var more := items[(id, |s.sizes|) := data];
    SameStored(items, more, id, |s.sizes|);
  }

  lemma LeaksNothing(m: Sources, sessions: Sessions, items: Items, id: nat, data: bytes)
    requires NoLeak(m, sessions, items) && id in sessions
    ensures NoLeak(m, sessions[id := Longer(sessions[id], data)], items[(id, |sessions[id].sizes|) := data])
  {
    hide Used;
  }

  /** A chunk more: under the id of a session, which no entry uses. */
  lemma ChunkStep(base: Files, m: Sources, items: Items, sessions: Sessions, next: nat, id: nat, data: bytes)
    requires OverlayOk(base, m, items, sessions, next) && id in sessions
    ensures var s := sessions[id]; var more := items[(id, |s.sizes|) := data];
      OverlayOk(base, m, more, sessions[id := Longer(s, data)], next) && Meaning(base, more, m) == Meaning(base, items, m)
    ensures var s := sessions[id]; StoredBytes(items[(id, |s.sizes|) := data], id, |s.sizes| + 1) == StoredBytes(items, id, |s.sizes|) + data
  {
    hide BaseOk, SourcesOk, Used, Meaning, SessionOk, Longer, NoLeak;
    var s := sessions[id];
    var more := items[(id, |s.sizes|) := data];
    forall p | p in m && m[p].content.Stored? ensures Agree(items, more, m[p].content.storageId) {
      assert !Holds(m[p], id);
    }
    SourcesKept(base, m, items, next, more, next);
    SessionsKept(m, items, next, sessions - {id}, more, next);
    SessionGrows(items, id, s, data);
    LeaksNothing(m, sessions, items, id, data);
    var others, now := sessions - {id}, sessions[id := Longer(s, data)];
    forall x | x in now ensures SessionOk(more, x, now[x]) {
      assert x != id ==> x in others && others[x] == sessions[x];
    }
  }

  /** Giving up a session: its chunks go, and nothing else changes. */
  lemma AbortStep(base: Files, m: Sources, items: Items, sessions: Sessions, next: nat, id: nat)
    requires OverlayOk(base, m, items, sessions, next) && id in sessions
    ensures OverlayOk(base, m, Without(items, id), sessions - {id}, next) && Meaning(base, Without(items, id), m) == Meaning(base, items, m)
  {
    hide BaseOk, SourcesOk, Used, Meaning, SessionOk;
    var left := Without(items, id);
    forall p | p in m && m[p].content.Stored? ensures Agree(items, left, m[p].content.storageId) {
      assert !Holds(m[p], id);
    }
    SourcesKept(base, m, items, next, left, next);
    SessionsKept(m, items, next, sessions - {id}, left, next);
  }

  /** `storageDescriptor`, chunk by chunk. */
  function Describe(sizes: seq<nat>): (r: seq<Chunk>)
    ensures |r| == |sizes|
  {
    if sizes == [] then []
    else Describe(sizes[..|sizes| - 1]) + [Chunk(|sizes| - 1, Sum(sizes[..|sizes| - 1]), sizes[|sizes| - 1])]
  }

  function Sum(sizes: seq<nat>): nat { if sizes == [] then 0 else Sum(sizes[..|sizes| - 1]) + sizes[|sizes| - 1] }

  lemma {:induction false} DescribeStored(items: Items, id: nat, sizes: seq<nat>)
    requires forall i | 0 <= i < |sizes| :: (id, i) in items && |items[(id, i)]| == sizes[i]
    ensures StoredOk(items, id, Describe(sizes)) && Sum(sizes) == |StoredBytes(items, id, |sizes|)|
    decreases |sizes|
  {
    if sizes != [] {
      DescribeStored(items, id, sizes[..|sizes| - 1]);
    }
  }

  /** The entry that a commit publishes. */
  function Committed(m: Sources, id: nat, s: Session): Node<Source> { Written(m, s.path, Web(), s.size, s.mime, Stored(id, Describe(s.sizes), s.size)) }

  lemma CommittedOk(base: Files, items: Items, next: nat, m: Sources, before: Items, id: nat, s: Session)
    requires SessionOk(items, id, s) && id < next
    ensures SourceOk(base, items, next, Committed(m, id, s)) && Holds(Committed(m, id, s), id)
    ensures |Committed(m, id, s).content.chunks| == |s.sizes|
    ensures Told(base, items, Committed(m, id, s)) == Written(Meaning(base, before, m), s.path, Web(), s.size, s.mime, StoredBytes(items, id, |s.sizes|))
  {
    hide StoredBytes, StoredOk;
    DescribeStored(items, id, s.sizes);
  }

  /** Publishing a session at a path that has no entry of its own. */
  lemma CommitStep(base: Files, m: Sources, items: Items, sessions: Sessions, next: nat, id: nat, n: Node<Source>, p: Path)
    requires OverlayOk(base, m, items, sessions, next) && id in sessions && p !in m
    requires SourceOk(base, items, next, n) && Holds(n, id) && |n.content.chunks| == |sessions[id].sizes|
    ensures OverlayOk(base, m[p := n], items, sessions - {id}, next)
    ensures Meaning(base, items, m[p := n]) == Meaning(base, items, m)[p := Told(base, items, n)]
  {
    hide BaseOk, SourceOk, Used, SessionOk, Told;
    var more := m[p := n];
    forall k | k in items ensures (k.0 in sessions - {id} && k.1 < |sessions[k.0].sizes|) || Used(more, k) {
      if Used(m, k) {
        UsedStill(m, more, k, p);
      } else if k.0 == id {
        UsedNow(more, k, p);
      }
    }
  }

  lemma UsedNow(m: Sources, k: (nat, nat), p: Path)
    requires p in m && Holds(m[p], k.0) && k.1 < |m[p].content.chunks|
    ensures Used(m, k)
  {
  }

  /** A live file whose bytes are stored under this id. */
  predicate HeldBy(m: Sources, p: Path, id: nat) { p in m && Holds(m[p], id) }

  /** Deleting what is stored under an id leaves all files as they are exactly if no live file that is not empty holds the id. */
  lemma AbortKeepsFiles(base: Files, m: Sources, items: Items, id: nat)
    ensures Meaning(base, Without(items, id), m) == Meaning(base, items, m)
      <==> forall p | HeldBy(m, p, id) :: ContentOf(base, items, m[p].content) == []
  {
    hide StoredBytes;
    var left := Without(items, id);
    forall p | p in m ensures Told(base, left, m[p]) == Told(base, items, m[p]) <==> !Holds(m[p], id) || ContentOf(base, items, m[p].content) == [] {
      if m[p].content.Stored? {
        var n := |m[p].content.chunks|;
        if Holds(m[p], id) {
          StoredGone(items, id, n);
        } else {
          StoredElsewhere(items, id, m[p].content.storageId, n);
        }
      }
    }
    if forall p | HeldBy(m, p, id) :: ContentOf(base, items, m[p].content) == [] {
      forall p | p in m ensures Told(base, left, m[p]) == Told(base, items, m[p]) {
        assert HeldBy(m, p, id) <==> Holds(m[p], id);
      }
    }
    if Meaning(base, left, m) == Meaning(base, items, m) {
      forall p | HeldBy(m, p, id) ensures ContentOf(base, items, m[p].content) == [] {
        assert Meaning(base, left, m)[p] == Meaning(base, items, m)[p];
      }
    }
  }

  lemma {:induction false} StoredElsewhere(items: Items, id: nat, other: nat, n: nat)
    requires other != id
    ensures StoredBytes(Without(items, id), other, n) == StoredBytes(items, other, n)
  {
    if n > 0 {
      StoredElsewhere(items, id, other, n - 1);
    }
  }

  /** And it keeps the storage rules exactly if no live file that has a chunk holds the id. */
  lemma AbortExactly(base: Files, m: Sources, items: Items, sessions: Sessions, next: nat, id: nat)
    requires OverlayOk(base, m, items, sessions, next)
    ensures OverlayOk(base, m, Without(items, id), sessions - {id}, next) <==> forall p | HeldBy(m, p, id) :: m[p].content.chunks == []
  {
    hide OverlayOk, SessionsOk, Without;
    if id in sessions {
      AbortStep(base, m, items, sessions, next, id);
      OpenIsNotHeld(base, m, items, sessions, next, id);
    } else if forall p | HeldBy(m, p, id) :: m[p].content.chunks == [] {
      NothingUnder(base, m, items, sessions, next, id);
      assert sessions - {id} == sessions;
    } else {
      var p :| HeldBy(m, p, id) && m[p].content.chunks != [];
      ChunkMissing(base, m, items, sessions - {id}, next, id, p);
    }
  }

  lemma OpenIsNotHeld(base: Files, m: Sources, items: Items, sessions: Sessions, next: nat, id: nat)
    requires OverlayOk(base, m, items, sessions, next) && id in sessions
    ensures forall p | p in m :: !HeldBy(m, p, id)
  {
    hide BaseOk, SourcesOk, NoLeak, Unshared, SessionOk;
  }

  lemma NothingUnder(base: Files, m: Sources, items: Items, sessions: Sessions, next: nat, id: nat)
    requires OverlayOk(base, m, items, sessions, next) && id !in sessions && forall p | HeldBy(m, p, id) :: m[p].content.chunks == []
    ensures Without(items, id) == items
  {
    hide BaseOk, SourcesOk, SessionsOk, Unshared;
    forall k | k in items ensures k.0 != id {
      assert k.0 in sessions || Used(m, k);
      if p :| p in m && Holds(m[p], k.0) && k.1 < |m[p].content.chunks| {
        assert HeldBy(m, p, k.0);
      }
    }
  }

  lemma ChunkMissing(base: Files, m: Sources, items: Items, sessions: Sessions, next: nat, id: nat, p: Path)
    requires HeldBy(m, p, id) && m[p].content.chunks != []
    ensures !OverlayOk(base, m, Without(items, id), sessions, next)
  {
    hide BaseOk, SessionsOk, NoLeak, Unshared, StoredBytes;
    var left := Without(items, id);
    assert !ChunkStored(left, id, m[p].content.chunks[0], 0);
    assert !StoredOk(left, id, m[p].content.chunks);
    assert !SourceOk(base, left, next, m[p]);
  }

  lemma {:induction false} StoredGone(items: Items, id: nat, n: nat)
    ensures StoredBytes(Without(items, id), id, n) == []
  {
    if n > 0 {
      StoredGone(items, id, n - 1);
    }
  }

  // ----- the operations of a plain file system

  /** `mkdir` leaves whatever exists at the path alone. */
  function WebMkdir<C>(t: Tree<C>, path: Path, none: C, recursive: bool): Edit<Tree<C>> {
    if path in t then Unchanged else Mkdir(t, path, Web(), none, recursive)
  }

  /** `u` with the entries `moved` of `t` taken out and put under their new paths. */
  ghost function Moving<C>(u: Tree<C>, t: Tree<C>, from: Path, to: Path, moved: set<Path>): Tree<C>
    requires moved <= Subtree(t, from)
  {
    (u - moved) + map q | q in ImagesOf(moved, from, to) && q in Images(t, from, to) :: MovedNode(t[Origin(t, from, to, q)], Web())
  }

  /** The rename of the overlay: what lies below `from` is collected before missing parents of `to` are made. */
  ghost function WebMove<C>(t: Tree<C>, from: Path, to: Path, none: C): Tree<C> {
    Moving(EnsureParents(t, to, Web(), none), t, from, to, Subtree(t, from))
  }

  ghost function WebRename<C>(t: Tree<C>, from: Path, to: Path, none: C): Edit<Tree<C>> {
    if from !in t || to in t then Refused else Done(WebMove(t, from, to, none))
  }

  /** Nothing moves onto an existing entry when the new path and everything below it is free. */
  ghost predicate Free<C>(u: Tree<C>, t: Tree<C>, from: Path, to: Path) {
    (forall p | p in t :: p in u && u[p] == t[p]) && forall q | q in Images(t, from, to) :: q !in u
  }

  lemma NothingInTheWay<C>(t: Tree<C>, from: Path, to: Path, none: C)
    requires to !in t && NothingBelow(t, to)
    ensures Free(EnsureParents(t, to, Web(), none), t, from, to)
  {
    hide EnsureParents, Images;
    EnsureParentsShape(t, to, Web(), none);
    var u := EnsureParents(t, to, Web(), none);
    forall q | q in Images(t, from, to) ensures q !in u {
      OriginIs(t, from, to, q);
      MovedWithin(from, to, Moved(to, from, q));
    }
  }

  lemma MovingStep<C>(u: Tree<C>, t: Tree<C>, from: Path, to: Path, moved: set<Path>, p: Path)
    requires Free(u, t, from, to) && moved <= Subtree(t, from) && p in Subtree(t, from) && p !in moved
    ensures var now, q := Moving(u, t, from, to, moved), Moved(from, to, p);
      p in now && now[p] == t[p] && q !in now && Moving(u, t, from, to, moved + {p}) == (now - {p})[q := MovedNode(t[p], Web())]
  {
    hide Within, Moved, Origin;
    var q := Moved(from, to, p);
    OriginOf(t, from, to, p);
    forall x | x in moved ensures Moved(from, to, x) != q {
      if Moved(from, to, x) == q {
        MovedIsInjective(from, to, x, p);
      }
    }
    assert ImagesOf(moved + {p}, from, to) == ImagesOf(moved, from, to) + {q};
    assert p !in Images(t, from, to);
  }

  lemma MovingNothing<C>(u: Tree<C>, t: Tree<C>, from: Path, to: Path)
    ensures Moving(u, t, from, to, {}) == u
  {
    hide Origin;
  }

  /** On a tree, a rename that does not nest a directory in itself is the rename of PigFS. */
  lemma RenamesLikePigFs<C>(t: Tree<C>, from: Path, to: Path, none: C)
    requires TreeOk(t) && from in t && to !in t && from != to && !Above(from, to)
    ensures WebRename(t, from, to, none) == Rename(t, from, to, Web(), none)
  {
    hide EnsureParents, Above, Relocated, Moving, Move, Subtree, TreeOk;
    EnsureParentsShape(t, to, Web(), none);
    SubtreeIsOld(t, from, to, Web(), none);
    NoCollision(t, from, to, Web(), none);
    MovingIsRelocated(EnsureParents(t, to, Web(), none), t, from, to);
  }

  lemma MovingIsRelocated<C>(u: Tree<C>, t: Tree<C>, from: Path, to: Path)
    requires Subtree(u, from) == Subtree(t, from) && forall p | p in t :: p in u && u[p] == t[p]
    ensures Moving(u, t, from, to, Subtree(t, from)) == Relocated(u, from, to, Web())
  {
    hide Within, Moved, Origin, Images;
    SubtreeImages(u, t, from, to);
    AllImages(t, from, to);
  }

  lemma AllImages<C>(t: Tree<C>, from: Path, to: Path)
    ensures ImagesOf(Subtree(t, from), from, to) == Images(t, from, to)
  {
    hide Within, Moved;
  }

  lemma SubtreeImages<C>(u: Tree<C>, t: Tree<C>, from: Path, to: Path)
    requires Subtree(u, from) == Subtree(t, from) && forall p | p in t :: p in u && u[p] == t[p]
    ensures Images(u, from, to) == Images(t, from, to)
    ensures forall q | q in Images(t, from, to) :: u[Origin(u, from, to, q)] == t[Origin(t, from, to, q)]
  {
    hide Within, Moved;
  }

  /** A rename keeps the tree exactly when it does not nest a directory in itself and meets only directories. */
  lemma WebRenameKeepsTree<C>(t: Tree<C>, from: Path, to: Path, none: C)
    requires TreeOk(t) && from in t && to !in t
    ensures WebRename(t, from, to, none).Done?
    ensures TreeOk(WebRename(t, from, to, none).value) <==> !Above(from, to) && OnlyDirectoriesAbove(t, to)
  {
    hide WebMove, Above, Rename, OnlyDirectoriesAbove;
    if !Above(from, to) {
      RenamesLikePigFs(t, from, to, none);
      RenameKeepsTree(t, from, to, Web(), none);
    } else {
      NestingLosesParent(t, from, to, none);
    }
  }

  lemma NestingLosesParent<C>(t: Tree<C>, from: Path, to: Path, none: C)
    requires Above(from, to) && from in t
    ensures !TreeOk(WebMove(t, from, to, none))
  {
    hide Origin, EnsureParents;
    var r := WebMove(t, from, to, none);
    assert from in Subtree(t, from) && Moved(from, to, from) == to;
    assert to in ImagesOf(Subtree(t, from), from, to) && to in Images(t, from, to);
    if from in Images(t, from, to) {
      OriginIs(t, from, to, from);
    }
    assert to in r && from !in r;
  }

  /** A concrete loss: renaming "a" to "a/b" leaves "a/b" without its parent. */
  lemma WebSelfNesting()
    ensures var a: Path, b: Path := [97], [97, SLASH, 98];
      var t: Files := map[a := Node([], Directory, 0, [], 1, None, 0, [])];
      TreeOk(t) && WebRename(t, a, b, []).Done? && !TreeOk(WebRename(t, a, b, []).value)
  {
    hide WebMove;
    var a: Path, b: Path := [97], [97, SLASH, 98];
    var t: Files := map[a := Node([], Directory, 0, [], 1, None, 0, [])];
    assert Above(a, b);
    WebRenameKeepsTree(t, a, b, []);
  }

  // ----- runs

  datatype WebOp<C> = WebWrites(path: Path, size: nat, mime: Key, content: C) | WebMakes(path: Path, recursive: bool)
    | WebRemoves(path: Path, recursive: bool) | WebRenames(path: Path, to: Path)

  ghost function WebApply<C>(t: Tree<C>, op: WebOp<C>, none: C): Tree<C> {
    match op
    case WebWrites(path, size, mime, content) => Write(t, path, Web(), none, size, mime, content)
    case WebMakes(path, recursive) => var r := WebMkdir(t, path, none, recursive); if r.Done? then r.value else t
    case WebRemoves(path, recursive) => var r := Remove(t, path, recursive); if r.Done? then r.value else t
    case WebRenames(path, to) => var r := WebRename(t, path, to, none); if r.Done? then r.value else t
  }

  /** What a caller can check before an operation: no file on the way, no filled directory replaced, nothing nested in itself. */
  ghost predicate WebGuarded<C>(t: Tree<C>, op: WebOp<C>) {
    match op
    case WebWrites(path, _, _, _) => OnlyDirectoriesAbove(t, path) && NothingBelow(t, path)
    case WebMakes(path, _) => ValidPath(path) && OnlyDirectoriesAbove(t, path)
    case WebRemoves(_, _) => true
    case WebRenames(path, to) => !Above(path, to) && OnlyDirectoriesAbove(t, to)
  }

  lemma WebApplyKeepsTree<C>(t: Tree<C>, op: WebOp<C>, none: C)
    requires TreeOk(t) && WebGuarded(t, op)
    ensures TreeOk(WebApply(t, op, none))
  {
    hide Write, Mkdir, Remove, OnlyDirectoriesAbove, NothingBelow, TreeOk, WebMove, Above;
    match op
    case WebWrites(path, size, mime, content) => WriteKeepsTree(t, path, Web(), none, size, mime, content);
    case WebMakes(path, recursive) =>
      if path !in t && Mkdir(t, path, Web(), none, recursive).Done? {
        MkdirKeepsTree(t, path, Web(), none, recursive);
      }
    case WebRemoves(path, recursive) =>
      if Remove(t, path, recursive).Done? {
        RemoveKeepsTree(t, path, recursive);
      }
    case WebRenames(path, to) =>
      if path in t && to !in t {
        WebRenameKeepsTree(t, path, to, none);
      }
  }

  ghost function WebApplyAll<C>(t: Tree<C>, ops: seq<WebOp<C>>, none: C): Tree<C> {
    if ops == [] then t else WebApply(WebApplyAll(t, ops[..|ops| - 1], none), ops[|ops| - 1], none)
  }

  ghost predicate WebGuardedAll<C>(t: Tree<C>, ops: seq<WebOp<C>>, none: C) {
    forall i | 0 <= i < |ops| :: WebGuarded(WebApplyAll(t, ops[..i], none), ops[i])
  }

  /** Any run of guarded operations keeps the tree, and on a tree nothing lies below a free path. */
  lemma {:induction false} WebRunKeepsTree<C>(t: Tree<C>, ops: seq<WebOp<C>>, none: C)
    requires TreeOk(t) && WebGuardedAll(t, ops, none)
    ensures var u := WebApplyAll(t, ops, none); TreeOk(u) && forall to | to !in u :: NothingBelow(u, to)
    decreases |ops|
  {
    hide WebGuarded, WebApply;
    if ops != [] {
      var n := |ops| - 1;
      forall i | 0 <= i < n ensures WebGuarded(WebApplyAll(t, ops[..n][..i], none), ops[..n][i]) {
        assert ops[..n][..i] == ops[..i];
      }
      WebRunKeepsTree(t, ops[..n], none);
      assert ops[..n] == ops[..|ops| - 1];
      WebApplyKeepsTree(WebApplyAll(t, ops[..n], none), ops[n], none);
    }
  }

  // ----- listing

  /** The rest of a path behind a directory and its slash is one segment; the realm itself is the empty path. */
  function RestOf(dir: Path, p: Path): Path { if dir == [] then p else if Above(dir, p) then p[|dir| + 1..] else [] }

  predicate OneSegment(rest: Path) { rest != [] && forall i | 0 <= i < |rest| :: rest[i] != SLASH }

  predicate DirectChild(dir: Path, p: Path) { OneSegment(RestOf(dir, p)) }

  /** For a valid path, that is: the directory is its parent. */
  lemma ListedIsChild(dir: Path, p: Path)
    requires ValidPath(p)
    ensures DirectChild(dir, p) <==> ParentOf(p) == dir
  {
    hide ParentOf;
    ParentIsAbove(p);
    LastSegment(p);
    var d := ParentOf(p);
    if d == dir {
      assert OneSegment(RestOf(dir, p));
    } else if d != [] {
      assert p[|d|] == SLASH;
      if dir == [] {
        assert RestOf(dir, p)[|d|] == SLASH;
      } else if Above(dir, p) {
        assert Above(dir, d);
        assert RestOf(dir, p)[|d| - |dir| - 1] == SLASH;
      }
    } else {
      assert !Above(dir, p);
    }
  }

  /** Behind its parent, a valid path has no further slash, and something that follows. */
  lemma {:induction false} LastSegment(p: Path)
    requires p != []
    ensures var d := ParentOf(p); |d| < |p| && (d != [] ==> p[|d|] == SLASH) && forall i | |d| < i < |p| :: p[i] != SLASH
    ensures ParentOf(p) == [] ==> forall i | 0 < i < |p| :: p[i] != SLASH
    decreases |p|
  {
    var n := |p| - 1;
    if p[n] != SLASH && n > 0 {
      LastSegment(p[..n]);
    }
  }

  // ----- what the methods use

  lemma UntouchedOk(base: Files)
    requires BaseOk(base)
    ensures OverlayOk(base, Merge(base, map[]), map[], map[], 0)
  {
    var m := Merge(base, map[]);
    forall p | p in m ensures SourceOk(base, map[], 0, m[p]) {
      assert FileOk(base[p]);
    }
  }

  lemma SameKeys(base: Files, items: Items, m: Sources)
    ensures Meaning(base, items, m).Keys == m.Keys
    ensures forall p | p in m :: Meaning(base, items, m)[p].kind == m[p].kind
  {
  }

  lemma ToldAt(base: Files, items: Items, m: Sources, p: Path)
    requires p in m
    ensures Meaning(base, items, m)[p] == Told(base, items, m[p])
  {
  }

  lemma SameBelow(base: Files, items: Items, m: Sources, from: Path, to: Path)
    ensures Subtree(Meaning(base, items, m), from) == Subtree(m, from)
    ensures NothingBelow(Meaning(base, items, m), to) <==> NothingBelow(m, to)
  {
    hide Told, Within, Above;
  }

  lemma SessionsBelow(base: Files, m: Sources, items: Items, sessions: Sessions, next: nat)
    requires OverlayOk(base, m, items, sessions, next)
    ensures next !in sessions
  {
  }

  /** The storage that an overlay entry owns is the storage of the merged entry: base entries own none. */
  lemma OwnStorage(base: Files, overlay: Overlay, items: Items, p: Path)
    ensures var m := Merge(base, overlay);
      p in m ==> Drop(items, m[p].content) == if p in overlay && overlay[p].Some? then Drop(items, overlay[p].value.content) else items
    ensures p in overlay && overlay[p].Some? ==> p in Merge(base, overlay)
  {
  }

  /** The whole of a commit: the old storage goes, the session's becomes the file's. */
  lemma PublishStep(base: Files, m: Sources, items: Items, sessions: Sessions, next: nat, id: nat)
    requires OverlayOk(base, m, items, sessions, next) && id in sessions
    ensures var s := sessions[id];
      var p, left, n := s.path, if s.path in m then Drop(items, m[s.path].content) else items, Committed(m, id, s);
      OverlayOk(base, m[p := n], left, sessions - {id}, next) && s.size == |StoredBytes(items, id, |s.sizes|)|
      && Meaning(base, left, m[p := n])
         == Meaning(base, items, m)[p := Written(Meaning(base, items, m), p, Web(), s.size, s.mime, StoredBytes(items, id, |s.sizes|))]
  {
    hide Meaning, StoredBytes, SourceOk, Written, Describe, Used, Drop, Told, BaseOk, NoLeak, Unshared, SourcesOk;
    var s := sessions[id];
    var p, n := s.path, Committed(m, id, s);
    var rest, left := m - {p}, if p in m then Drop(items, m[p].content) else items;
    if p in m {
      DropStep(base, m, items, sessions, next, p);
      SessionAfterDrop(items, next, m, sessions, p, id);
    } else {
      assert rest == m;
    }
    CommittedOk(base, left, next, m, items, id, s);
    CommitStep(base, rest, left, sessions, next, id, n, p);
    assert rest[p := n] == m[p := n];
  }

  lemma SessionAfterDrop(items: Items, next: nat, m: Sources, sessions: Sessions, p: Path, id: nat)
    requires SessionsOk(items, next, m, sessions) && id in sessions && p in m
    ensures StoredBytes(Drop(items, m[p].content), id, |sessions[id].sizes|) == StoredBytes(items, id, |sessions[id].sizes|)
  {
    hide StoredBytes;
    assert SessionOk(items, id, sessions[id]) && !Holds(m[p], id);
    SameStored(items, Drop(items, m[p].content), id, |sessions[id].sizes|);
  }

  lemma NotBelowItself<C>(t: Tree<C>, path: Path)
    ensures path !in Below(t, path)
  {
  }

  lemma SubtreeHas<C>(t: Tree<C>, from: Path, p: Path)
    requires p in Subtree(t, from)
    ensures p in t && Within(from, p)
  {
  }

  lemma NothingGone(m: Sources, v: Files)
    ensures m - {} == m && v - {} == v
  {
  }

  lemma GoneMore(m: Sources, v: Files, gone: set<Path>, p: Path)
    ensures (m - gone) - {p} == m - (gone + {p}) && (v - gone) - {p} == v - (gone + {p})
  {
  }

  lemma NoneStored(items: Items, id: nat)
    ensures StoredBytes(items, id, 0) == []
  {
  }

  /** Where a chunk lies in the whole. */
  lemma StoredAt(items: Items, id: nat, chunks: seq<Chunk>, i: nat)
    requires StoredOk(items, id, chunks) && i < |chunks|
    ensures var c, whole := chunks[i], StoredBytes(items, id, |chunks|);
      (id, c.index) in items && c.plainOffset == |StoredBytes(items, id, i)| && c.plainOffset + c.size == |StoredBytes(items, id, i + 1)|
      && c.plainOffset + c.size <= |whole| && whole[c.plainOffset..c.plainOffset + c.size] == items[(id, c.index)]
  {
    assert ChunkStored(items, id, chunks[i], i);
    StoredGrows(items, id, i + 1, |chunks|);
  }

  lemma {:induction false} StoredGrows(items: Items, id: nat, i: nat, n: nat)
    requires i <= n
    ensures StoredBytes(items, id, i) <= StoredBytes(items, id, n)
    decreases n
  {
    if i < n {
      StoredGrows(items, id, i, n - 1);
    }
  }

  /** "/placeholder" */
  const PLACEHOLDER: Path := [47, 112, 108, 97, 99, 101, 104, 111, 108, 100, 101, 114]

  /** The parents of a placeholder below a directory: the directory, and its own parents. */
  lemma PlaceholderParents<C>(t: Tree<C>, path: Path, none: C)
    requires path !in t
    ensures EnsureParents(t, path + PLACEHOLDER, Web(), none) == EnsureParents(t, path, Web(), none)[path := NewDirectory(path, Web(), none)]
  {
    var below := path + PLACEHOLDER;
    assert below[..|path|] == path;
    forall a ensures Above(a, below) <==> Above(a, path) || a == path {
      if Above(a, below) && |a| <= |path| {
        assert path[..|a|] == below[..|a|];
      }
      if Above(a, path) {
        assert path[..|a|] == below[..|a|];
      }
    }
  }
}
