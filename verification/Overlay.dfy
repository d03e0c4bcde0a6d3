/**
 `WurstWebFsOverlay`: a writable file system in a browser, kept in memory over an immutable Wurst. Every method does to the
 files that the overlay means what a plain file system would do to a copy of the base.
 */
module Overlay {
  import opened Bytes
  import opened Keys
  import opened PigTree
  import opened OverlayTree

  /** 4 MiB. */
  const FS_CHUNK: nat := 4194304

  datatype ReadResult = Absent | BadRange | Data(data: bytes)

  /** A range read of a file: the end is clipped, an offset behind the end or a negative length is an error. */
  function RangeOf(content: bytes, offset: int, length: Option<int>): ReadResult {
    var end := Min(|content|, offset + if length.Some? then length.value else |content| - offset);
    if offset < 0 || offset > |content| || end < offset then BadRange else Data(content[offset..end])
  }

  /** What reading a path gives in a plain file system. */
  function ReadOf(files: Files, path: Path, offset: int, length: Option<int>): ReadResult {
    if path !in files || files[path].kind != File then Absent else RangeOf(files[path].content, offset, length)
  }

  class WurstWebFsOverlay {
    const base: Files
    var overlay: Overlay
    var items: Items
    var sessions: Sessions
    var nextSession: nat

    ghost function Merged(): Sources
      reads this
    {
      Merge(base, overlay)
    }

    /** The files that a user of the overlay sees. */
    ghost function View(): Files
      reads this
    {
      Meaning(base, items, Merged())
    }

    ghost predicate Valid()
      reads this
    {
      OverlayOk(base, Merged(), items, sessions, nextSession)
    }

    constructor (reader: Files)
      requires BaseOk(reader)
      ensures Valid() && View() == reader && sessions == map[]
    {
      base, overlay, items, sessions, nextSession := reader, map[], map[], map[], 0;
      new;
      NothingChanged(reader);
      UntouchedOk(reader);
    }

    /** What a session has received. */
    ghost function Received(id: nat): bytes
      requires id in sessions
      reads this
    {
      StoredBytes(items, id, |sessions[id].sizes|)
    }

    /** `_ensureParents`. */
    method AddMissingParents(path: Path)
      requires Valid()
      modifies this`overlay
      ensures Valid() && View() == EnsureParents(old(View()), path, Web(), []) && Merged() == EnsureParents(old(Merged()), path, Web(), Nothing)
    {
      hide OverlayOk, Meaning, Merge, ParentsUpTo, EnsureParents;
      ghost var m, v := Merged(), View();
      var i := 0;
      NoParentsYet(m, path, Web(), Nothing);
      NoParentsYet(v, path, Web(), []);
      while i < |path|
        invariant i <= |path| && OverlayOk(base, Merged(), items, sessions, nextSession)
        invariant Merged() == ParentsUpTo(m, path, i, Web(), Nothing) && View() == ParentsUpTo(v, path, i, Web(), [])
      {
        ParentsStep(m, path, i, Web(), Nothing);
        ParentsStep(v, path, i, Web(), []);
        SameKeys(base, items, m);
        var p := path[..i];
        if path[i] == SLASH && p !in Merge(base, overlay) {
          MergeSet(base, overlay, p, NewDirectory(p, Web(), Nothing));
          AddDirectory(base, Merged(), items, sessions, nextSession, p);
          overlay := overlay[p := Some(NewDirectory(p, Web(), Nothing))];
        }
        i := i + 1;
      }
      AllParents(m, path, Web(), Nothing);
      AllParents(v, path, Web(), []);
    }

    // ----- writing

    method BeginWrite(path: Path, mime: Key) returns (id: nat)
      requires Valid()
      modifies this`sessions, this`nextSession
      ensures Valid() && View() == old(View()) && id !in old(sessions)
      ensures sessions == old(sessions)[id := Session(path, mime, [], 0)] && Received(id) == []
    {
      hide OverlayOk, Merge, Meaning;
      BeginStep(base, Merged(), items, sessions, nextSession, path, mime);
      SessionsBelow(base, Merged(), items, sessions, nextSession);
      id := nextSession;
      sessions := sessions[id := Session(path, mime, [], 0)];
      nextSession := nextSession + 1;
    }

    /** A chunk is kept under the session's id, where no file can see it. */
    method WriteChunk(id: nat, data: bytes) returns (ok: bool)
      requires Valid()
      modifies this`items, this`sessions
      ensures Valid() && View() == old(View()) && ok == (id in old(sessions) && |data| <= FS_CHUNK)
      ensures if ok then sessions == old(sessions)[id := Longer(old(sessions)[id], data)] && Received(id) == old(Received(id)) + data
        else sessions == old(sessions) && items == old(items)
    {
      hide OverlayOk, Merge, Meaning, StoredBytes;
      if id !in sessions || |data| > FS_CHUNK {
        return false;
      }
      var s := sessions[id];
      ChunkStep(base, Merged(), items, sessions, nextSession, id, data);
      items := items[(id, |s.sizes|) := data];
      sessions := sessions[id := Longer(s, data)];
      return true;
    }

    /** `commitWrite`: the file gets exactly what the session received; the storage of the file it replaces is deleted. */
    method CommitWrite(id: nat) returns (ok: bool)
      requires Valid()
      modifies this`overlay, this`items, this`sessions
      ensures Valid() && ok == (id in old(sessions))
      ensures if ok then var s := old(sessions)[id];
        sessions == old(sessions) - {id} && s.size == |old(Received(id))|
        && View() == Write(old(View()), s.path, Web(), [], s.size, s.mime, old(Received(id)))
        else View() == old(View()) && sessions == old(sessions)
    {
      hide OverlayOk, Merge, Meaning, StoredBytes, EnsureParents, Written, Describe, Drop;
      if id !in sessions {
        return false;
      }
      var s := sessions[id];
      var target := s.path;
      AddMissingParents(target);
      ghost var m := Merged();
      var entry := Committed(Merge(base, overlay), id, s);
      var previousOwn := if target in overlay then overlay[target] else None;
      PublishStep(base, m, items, sessions, nextSession, id);
      OwnStorage(base, overlay, items, target);
      MergeSet(base, overlay, target, entry);
      overlay := overlay[target := Some(entry)];
      if previousOwn.Some? {
        items := Drop(items, previousOwn.value.content);
      }
      sessions := sessions - {id};
      return true;
    }

    /**
     `abortWrite`: whatever is stored under the id goes, open session or not. No file changes unless one that is not empty holds the id,
     and the storage rules stay unless a file that has a chunk does; so an open session can always be given up.
     */
    method AbortWrite(id: nat) returns (existed: bool)
      requires Valid()
      modifies this`items, this`sessions
      ensures existed == (id in old(sessions)) && sessions == old(sessions) - {id} && items == Without(old(items), id)
      ensures Merged() == old(Merged()) && (existed ==> Valid() && View() == old(View()))
      ensures Valid() <==> forall p | HeldBy(Merged(), p, id) :: Merged()[p].content.chunks == []
      ensures View() == old(View()) <==> forall p | HeldBy(Merged(), p, id) :: old(View())[p].content == []
    {
      hide OverlayOk, Merge, Meaning;
      existed := id in sessions;
      ghost var m := Merged();
      AbortExactly(base, m, items, sessions, nextSession, id);
      AbortKeepsFiles(base, m, items, id);
      SameKeys(base, items, m);
      forall p | p in m ensures View()[p].content == ContentOf(base, items, m[p].content) {
        ToldAt(base, items, m, p);
      }
      if existed {
        AbortStep(base, m, items, sessions, nextSession, id);
      }
      sessions := sessions - {id};
      items := Without(items, id);
    }

    /** `write`: a whole file, in chunks of 4 MiB. */
    method WriteFile(path: Path, mime: Key, data: bytes)
      requires Valid()
      modifies this
      ensures Valid() && View() == Write(old(View()), path, Web(), [], |data|, mime, data) && sessions == old(sessions)
    {
      hide OverlayOk, Merge, Meaning, StoredBytes, Write;
      var id := BeginWrite(path, mime);
      var offset, index := 0, 0;
      while offset < |data| || (|data| == 0 && index == 0)
        invariant Valid() && View() == old(View()) && id !in old(sessions) && id in sessions && sessions - {id} == old(sessions)
        invariant sessions[id].path == path && sessions[id].mime == mime
        invariant offset == index * FS_CHUNK && Received(id) == data[..Min(offset, |data|)]
        decreases Max(0, |data| - offset), 1 - Min(index, 1)
      {
        var chunk := data[offset..Min(|data|, offset + FS_CHUNK)];
        var put := WriteChunk(id, chunk);
        assert data[..Min(offset + FS_CHUNK, |data|)] == data[..offset] + chunk;
        offset, index := offset + FS_CHUNK, index + 1;
      }
      assert data[..|data|] == data;
      var done := CommitWrite(id);
    }

    // ----- the namespace

    method RemovePath(path: Path, recursive: bool) returns (r: Edit<()>)
      requires Valid()
      modifies this`overlay, this`items
      ensures Valid()
      ensures var spec := Remove(old(View()), path, recursive);
        match spec case Done(files) => r == Done(()) && View() == files
          case Unchanged => r == Unchanged && View() == old(View())
          case Refused => r == Refused && View() == old(View())
    {
      hide OverlayOk, Merge, Meaning, Above;
      ghost var m, v := Merged(), View();
      SameKeys(base, items, m);
      var merged := Merge(base, overlay);
      if path !in merged {
        return Unchanged;
      }
      assert Below(merged, path) == Below(v, path);
      if merged[path].kind == Directory {
        var children := Below(merged, path);
        if children != {} && !recursive {
          return Refused;
        }
        ghost var gone: set<Path> := {};
        NothingGone(m, v);
        while children != {}
          invariant children + gone == Below(m, path) && children !! gone
          invariant Valid() && Merged() == m - gone && View() == v - gone
          decreases children
        {
          var child :| child in children;
          Entomb(child);
          GoneMore(m, v, gone, child);
          children, gone := children - {child}, gone + {child};
        }
        assert gone == Below(m, path);
        NotBelowItself(m, path);
      }
      Entomb(path);
      return Done(());
    }

    /** The two steps of a removal: the entry's storage is deleted, and a tombstone hides the path. */
    method Entomb(path: Path)
      requires Valid() && path in Merged()
      modifies this`overlay, this`items
      ensures Valid() && Merged() == old(Merged()) - {path} && View() == old(View()) - {path}
    {
      hide OverlayOk, Merge, Meaning, Drop;
      DropStep(base, Merged(), items, sessions, nextSession, path);
      OwnStorage(base, overlay, items, path);
      MergeSet(base, overlay, path, NewDirectory(path, Web(), Nothing));
      if path in overlay && overlay[path].Some? {
        items := Drop(items, overlay[path].value.content);
      }
      overlay := overlay[path := None];
    }

    method MakeDirectory(path: Path, recursive: bool) returns (r: Edit<()>)
      requires Valid()
      modifies this`overlay
      ensures Valid()
      ensures var spec := WebMkdir(old(View()), path, [], recursive);
        match spec case Done(files) => r == Done(()) && View() == files
          case Unchanged => r == Unchanged && View() == old(View())
          case Refused => r == Refused && View() == old(View())
    {
      hide OverlayOk, Merge, Meaning, EnsureParents, ParentOf;
      ghost var m, v := Merged(), View();
      SameKeys(base, items, m);
      var merged := Merge(base, overlay);
      if path in merged {
        return Unchanged;
      }
      if !recursive {
        if ParentOf(path) != [] && ParentOf(path) !in merged {
          return Refused;
        }
        MergeSet(base, overlay, path, NewDirectory(path, Web(), Nothing));
        AddDirectory(base, m, items, sessions, nextSession, path);
      } else {
        AddMissingParents(path + PLACEHOLDER);
        PlaceholderParents(m, path, Nothing);
        PlaceholderParents(v, path, []);
        MergeSet(base, overlay, path, NewDirectory(path, Web(), Nothing));
        assert Merged()[path := NewDirectory(path, Web(), Nothing)] == Merged();
      }
      overlay := overlay[path := Some(NewDirectory(path, Web(), Nothing))];
      return Done(());
    }

    /** `rename`: only metadata moves. An existing new path is refused; what lies below a free new path would be overwritten. */
    method RenamePath(from: Path, to: Path) returns (r: Edit<()>)
      requires Valid() && (to !in View() ==> NothingBelow(View(), to))
      modifies this`overlay
      ensures Valid()
      ensures var spec := WebRename(old(View()), from, to, []);
        match spec case Done(files) => r == Done(()) && View() == files
          case Unchanged => false
          case Refused => r == Refused && View() == old(View())
    {
      hide OverlayOk, Merge, Meaning, EnsureParents, Moving, Subtree, NothingBelow, Free, MovedNode;
      ghost var v := View();
      var merged := Merge(base, overlay);
      SameKeys(base, items, merged);
      if from !in merged || to in merged {
        return Refused;
      }
      AddMissingParents(to);
      ghost var u, w := Merged(), View();
      SameBelow(base, items, merged, from, to);
      NothingInTheWay(merged, from, to, Nothing);
      NothingInTheWay(v, from, to, []);
      var left := Subtree(merged, from);
      ghost var moved: set<Path> := {};
      MovingNothing(u, merged, from, to);
      MovingNothing(w, v, from, to);
      while left != {}
        invariant left + moved == Subtree(merged, from) == Subtree(v, from) && left !! moved
        invariant Valid() && Merged() == Moving(u, merged, from, to, moved) && View() == Moving(w, v, from, to, moved)
        decreases left
      {
        var p :| p in left;
        SubtreeHas(merged, from, p);
        var q := Moved(from, to, p);
        MovingStep(u, merged, from, to, moved, p);
        MovingStep(w, v, from, to, moved, p);
        MoveStep(base, Merged(), items, sessions, nextSession, p, q);
        ToldAt(base, items, Merged(), p);
        MergeSet(base, overlay, p, NewDirectory(p, Web(), Nothing));
        MergeSet(base, overlay[p := None], q, MovedNode(merged[p], Web()));
        overlay := overlay[p := None][q := Some(MovedNode(merged[p], Web()))];
        left, moved := left - {p}, moved + {p};
      }
      assert moved == Subtree(v, from);
      return Done(());
    }

    // ----- looking

    method Stat(path: Path) returns (r: Option<Node<Source>>)
      requires Valid()
      ensures r.Some? <==> path in View()
      ensures r.Some? ==> Told(base, items, r.value) == View()[path]
    {
      var merged := Merge(base, overlay);
      r := if path in merged then Some(merged[path]) else None;
    }

    /** `list`: the entries directly below a directory of a realm, or directly in the realm. */
    method List(dir: Path) returns (r: map<Path, Node<Source>>)
      requires Valid()
      ensures r.Keys == set p | p in View() && DirectChild(dir, p)
      ensures forall p | p in r :: Told(base, items, r[p]) == View()[p]
    {
      hide OverlayOk, Merge, DirectChild, Told;
      var merged := Merge(base, overlay);
      r := map[];
      var left := merged.Keys;
      while left != {}
        invariant left <= merged.Keys && r.Keys == (set p | p in merged && p !in left && DirectChild(dir, p))
        invariant forall p | p in r :: r[p] == merged[p]
        decreases left
      {
        var p :| p in left;
        if DirectChild(dir, p) {
          r := r[p := merged[p]];
        }
        left := left - {p};
      }
    }

    /** `_readStored`: the chunks that overlap the range. */
    method ReadStored(id: nat, chunks: seq<Chunk>, size: nat, offset: int, length: Option<int>) returns (r: ReadResult)
      requires StoredOk(items, id, chunks) && size == |StoredBytes(items, id, |chunks|)|
      ensures r == RangeOf(StoredBytes(items, id, |chunks|), offset, length)
    {
      hide StoredBytes, Clip, Overlap;
      ghost var whole := StoredBytes(items, id, |chunks|);
      var end := Min(size, offset + if length.Some? then length.value else size - offset);
      if offset < 0 || offset > size || end < offset {
        return BadRange;
      }
      var data: bytes := [];
      var i := 0;
      NoneStored(items, id);
      ClipNone(whole, offset, end);
      while i < |chunks|
        invariant i <= |chunks| && data == Clip(whole, offset, end, |StoredBytes(items, id, i)|)
      {
        var chunk := chunks[i];
        StoredAt(items, id, chunks, i);
        ClipMore(whole, offset, end, chunk.plainOffset, chunk.plainOffset + chunk.size);
        data := data + Overlap(items[(id, chunk.index)], chunk.plainOffset, offset, end);
        i := i + 1;
      }
      ClipAll(whole, offset, end, |whole|);
      return Data(data);
    }

    /** `read`: own chunks, or the base file that an entry points to, or the base itself. */
    method ReadPath(path: Path, offset: int, length: Option<int>) returns (r: ReadResult)
      requires Valid()
      ensures r == ReadOf(View(), path, offset, length)
    {
      hide RangeOf, StoredOk, StoredBytes, BaseOk, Unshared, SessionsOk, NoLeak;
      if path in overlay {
        var own := overlay[path];
        if own.None? || own.value.kind != File {
          return Absent;
        }
        assert SourceOk(base, items, nextSession, Merged()[path]);
        match own.value.content
        case Stored(id, chunks, size) => r := ReadStored(id, chunks, size, offset, length);
        case FromBase(p) => r := RangeOf(base[p].content, offset, length);
        case Nothing => r := Data([]);
      } else {
        r := ReadOf(base, path, offset, length);
      }
    }
  }
}
