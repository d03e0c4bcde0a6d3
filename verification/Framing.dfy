/**
 What the backward search finds in an arena that holds records with gaps between
 them, and how the whole-buffer scan of the bundled reader compares with it.
 */
module Framing {
  import opened Bytes
  import opened Records

  /** The self-locating trailers below `end` that a search meets are exactly `ts`; the bytes between them hold none. */
  ghost predicate Framed(log: bytes, base: nat, ts: seq<Trailer>, end: nat)
    requires end <= |log|
    decreases |ts|
  {
    if ts == [] then Quiet(log, base, 0, end)
    else
      var t := ts[|ts| - 1];
      TRAILER_SIZE <= t.end <= end && TrailerAt(log, base, t.end - TRAILER_SIZE) == Some(t)
      && Quiet(log, base, t.end, end) && Framed(log, base, ts[..|ts| - 1], t.start)
  }

  predicate IsNewest(ts: seq<Trailer>, wanted: Option<set<nat>>, i: nat, t: Trailer)
    requires i < |ts|
  {
    ts[i] == t && IsWanted(wanted, t.kind) && forall j | i < j < |ts| :: !IsWanted(wanted, ts[j].kind)
  }

  /** The newest trailer of a wanted type. */
  function Newest(ts: seq<Trailer>, wanted: Option<set<nat>>): (t: Option<Trailer>)
    ensures t.None? ==> forall i | 0 <= i < |ts| :: !IsWanted(wanted, ts[i].kind)
  {
    if ts == [] then None
    else if IsWanted(wanted, ts[|ts| - 1].kind) then Some(ts[|ts| - 1])
    else Newest(ts[..|ts| - 1], wanted)
  }

  lemma {:induction false} NewestIndex(ts: seq<Trailer>, wanted: Option<set<nat>>) returns (i: nat)
    requires Newest(ts, wanted).Some?
    ensures i < |ts| && IsNewest(ts, wanted, i, Newest(ts, wanted).value)
  {
    i := |ts| - 1;
    if !IsWanted(wanted, ts[i].kind) {
      i := NewestIndex(ts[..i], wanted);
    }
  }

  lemma FramedLast(log: bytes, base: nat, ts: seq<Trailer>, end: nat)
    requires end <= |log| && Framed(log, base, ts, end)
    ensures LastTrailer(log, base, end) == if ts == [] then None else Some(ts[|ts| - 1])
  {
    hide LastTrailer, ParseTrailer;
    LastTrailerUnique(log, base, end, if ts == [] then None else Some(ts[|ts| - 1]));
  }

  /** The search finds the newest record of a wanted type, whatever bytes the payloads hold. */
  lemma {:induction false} LocateFindsNewest(log: bytes, base: nat, ts: seq<Trailer>, end: nat, wanted: Option<set<nat>>)
    requires end <= |log| && Framed(log, base, ts, end)
    ensures LatestFrom(log, base, wanted, end) == Newest(ts, wanted)
    decreases |ts|
  {
    FramedLast(log, base, ts, end);
    if ts != [] && !IsWanted(wanted, ts[|ts| - 1].kind) {
      LocateFindsNewest(log, base, ts[..|ts| - 1], ts[|ts| - 1].start, wanted);
    }
  }

  /** The records of an arena without gaps, one after the other from `base` to `end`. */
  ghost predicate Contiguous(h: Hasher, log: bytes, base: nat, rs: seq<Record>, end: nat)
    decreases |rs|
  {
    if rs == [] then end == base
    else
      var r := rs[|rs| - 1];
      Holds(h, log, r) && base <= r.start && r.End() == end && Contiguous(h, log, base, rs[..|rs| - 1], r.start)
  }

  function Trailers(h: Hasher, rs: seq<Record>): (ts: seq<Trailer>)
    ensures |ts| == |rs| && forall i | 0 <= i < |rs| :: ts[i] == TrailerOf(h, rs[i])
  {
    seq(|rs|, i requires 0 <= i < |rs| => TrailerOf(h, rs[i]))
  }

  lemma {:induction false} ContiguousIsFramed(h: Hasher, log: bytes, base: nat, rs: seq<Record>, end: nat)
    requires end <= |log| && Contiguous(h, log, base, rs, end)
    ensures Framed(log, base, Trailers(h, rs), end)
    decreases |rs|
  {
    hide TrailerAt, ParseTrailer, Encoded;
    if rs != [] {
      var r := rs[|rs| - 1];
      HeldTrailer(h, log, r, base);
      ContiguousIsFramed(h, log, base, rs[..|rs| - 1], r.start);
      assert Trailers(h, rs)[..|rs| - 1] == Trailers(h, rs[..|rs| - 1]);
    }
  }

  /** Only the bytes below `end` matter. */
  lemma {:induction false} FramedAgree(log: bytes, other: bytes, base: nat, ts: seq<Trailer>, end: nat)
    requires end <= |log| && end <= |other| && log[..end] == other[..end]
    requires Framed(log, base, ts, end)
    ensures Framed(other, base, ts, end)
    decreases |ts|
  {
    forall at: nat | at + TRAILER_SIZE <= end
      ensures TrailerAt(other, base, at) == TrailerAt(log, base, at)
    {
      TrailerInPrefix(log, base, at, end);
      TrailerInPrefix(other, base, at, end);
    }
    if ts != [] {
      var t := ts[|ts| - 1];
      assert log[..t.start] == log[..end][..t.start] && other[..t.start] == other[..end][..t.start];
      FramedAgree(log, other, base, ts[..|ts| - 1], t.start);
    }
  }

  // ----- the whole-buffer scan of the bundled reader

  /** `decodeLatestFsRootFromBuffer`'s search: the highest self-locating COMMIT trailer, record boundaries or not. */
  function HighestCommit(log: bytes, base: nat, end: nat): (t: Option<Trailer>)
    requires end <= |log|
    ensures t.Some? ==> base <= t.value.start && t.value.start + HEADER_SIZE + TRAILER_SIZE <= t.value.end <= end
    decreases end
  {
    if end < base + TRAILER_SIZE then None
    else
      var t := TrailerAt(log, base, end - TRAILER_SIZE);
      if t.Some? && t.value.kind == COMMIT then t else if end == 0 then None else HighestCommit(log, base, end - 1)
  }

  lemma {:induction false} HighestCommitIsHighest(log: bytes, base: nat, end: nat)
    requires end <= |log|
    ensures var t := HighestCommit(log, base, end);
      (t.Some? ==> TRAILER_SIZE <= t.value.end && t.value.kind == COMMIT && TrailerAt(log, base, t.value.end - TRAILER_SIZE) == t)
      && forall at: nat {:trigger TrailerAt(log, base, at)} ::
        base <= at && (if t.Some? then t.value.end else 0) < at + TRAILER_SIZE <= end ==>
        TrailerAt(log, base, at).None? || TrailerAt(log, base, at).value.kind != COMMIT
    decreases end
  {
    hide TrailerAt;
    if end >= base + TRAILER_SIZE && end > 0 {
      HighestCommitIsHighest(log, base, end - 1);
    }
  }

  method ScanForCommit(log: bytes, base: nat) returns (found: Option<Trailer>)
    ensures found == HighestCommit(log, base, |log|)
  {
    hide ParseTrailer;
    if |log| <= base {
      return None;
    }
    var offset := |log| - TRAILER_SIZE;
    while offset >= base
      invariant offset + TRAILER_SIZE <= |log|
      invariant offset + TRAILER_SIZE >= 0
      invariant HighestCommit(log, base, offset + TRAILER_SIZE) == HighestCommit(log, base, |log|)
    {
      if Sub(log, offset, 4) == END_MAGIC {
        var parsed := ParseTrailer(Sub(log, offset, TRAILER_SIZE), offset, base, |log|);
        if parsed.Some? && parsed.value.kind == COMMIT {
          return parsed;
        }
      } else {
        NoMagicNoTrailer(log, base, offset);
      }
      offset := offset - 1;
    }
    return None;
  }

  /** Outcome of loading a PigFS root: none, one at an offset, or a thrown error. */
  datatype Loaded<R> = Empty | At(root: R, offset: nat) | Failed

  /** `decodeLatestFsRootFromBuffer`. It looks at the magic, the type and the length of the header, not at the digest. */
  function DecodeFromBuffer<R>(decode: bytes -> Option<R>, log: bytes, base: nat): Loaded<R> {
    if |log| <= base then Empty
    else
      var t := HighestCommit(log, base, |log|);
      if t.None? then Empty
      else
        var start := t.value.start;
        var header := Sub(log, start, HEADER_SIZE);
        if Sub(header, 0, 4) != MAGIC || LeValue(Sub(header, 6, 2)) != COMMIT then Failed
        else
          var length := LeValue(Sub(header, 8, 8));
          if length > MAX_SAFE_INTEGER then Failed
          else
            // subarray clamps a range that runs past the end
            var root := decode(Sub(log, start + HEADER_SIZE, Min(length, |log| - start - HEADER_SIZE)));
            if root.None? then Failed else At(root.value, start)
  }

  /** `loadLatestFsRoot`: the located COMMIT, fully checked. */
  function LoadLatest<R>(h: Hasher, decode: bytes -> Option<R>, log: bytes, base: nat): Loaded<R> {
    var t := if |log| <= base then None else Locate(log, base, Some({COMMIT}));
    if t.None? then Empty
    else
      var r := ReadRecord(h, log, t.value.start);
      if r.None? || r.value.kind != COMMIT then Failed
      else
        var root := decode(r.value.payload);
        if root.None? then Failed else At(root.value, t.value.start)
  }

  lemma {:induction false} HighestIsNewest(log: bytes, base: nat, ts: seq<Trailer>, end: nat)
    requires end <= |log| && Framed(log, base, ts, end)
    requires forall at: nat {:trigger TrailerAt(log, base, at)} :: base <= at && at + TRAILER_SIZE <= end ==>
      var t := TrailerAt(log, base, at); t.Some? && t.value.kind == COMMIT ==> t.value in ts
    ensures HighestCommit(log, base, end) == Newest(ts, Some({COMMIT}))
  {
    hide TrailerAt, HighestCommit;
    HighestCommitIsHighest(log, base, end);
    var high, low := HighestCommit(log, base, end), Newest(ts, Some({COMMIT}));
    if low.Some? {
      var i := NewestIndex(ts, Some({COMMIT}));
      FramedMember(log, base, ts, end, i);
      assert TrailerAt(log, base, low.value.end - TRAILER_SIZE) == low;
      var k :| 0 <= k < |ts| && ts[k] == high.value;
      assert k <= i;
      FramedOrder(log, base, ts, end, k, i);
    }
  }

  lemma {:induction false} FramedMember(log: bytes, base: nat, ts: seq<Trailer>, end: nat, i: nat)
    requires end <= |log| && Framed(log, base, ts, end) && i < |ts|
    ensures TRAILER_SIZE <= ts[i].end <= end && TrailerAt(log, base, ts[i].end - TRAILER_SIZE) == Some(ts[i])
    decreases |ts|
  {
    var n := |ts| - 1;
    if i < n {
      FramedMember(log, base, ts[..n], ts[n].start, i);
    }
  }

  lemma {:induction false} FramedOrder(log: bytes, base: nat, ts: seq<Trailer>, end: nat, i: nat, j: nat)
    requires end <= |log| && Framed(log, base, ts, end) && i <= j < |ts|
    ensures ts[i].end <= ts[j].end
    decreases |ts|
  {
    var n := |ts| - 1;
    if j < n {
      FramedOrder(log, base, ts[..n], ts[n].start, i, j);
    } else if i < n {
      FramedMember(log, base, ts[..n], ts[n].start, i);
    }
  }

  /**
   The two readers agree on the newest PigFS root: on framed arenas whose newest COMMIT record is
   intact, when every self-locating COMMIT trailer is the trailer of a record.
   */
  lemma BufferAgreesWithLocator<R>(h: Hasher, decode: bytes -> Option<R>, log: bytes, base: nat, ts: seq<Trailer>)
    requires Framed(log, base, ts, |log|)
    requires forall at: nat {:trigger TrailerAt(log, base, at)} :: base <= at ==>
      var t := TrailerAt(log, base, at); t.Some? && t.value.kind == COMMIT ==> t.value in ts
    requires var t := Newest(ts, Some({COMMIT})); t.Some? ==> exists r :: Holds(h, log, r) && TrailerOf(h, r) == t.value
    ensures DecodeFromBuffer(decode, log, base) == LoadLatest(h, decode, log, base)
  {
    hide TrailerAt, Encoded, ReadRecord, DecodeFromBuffer, LoadLatest;
    LocateFindsNewest(log, base, ts, |log|, Some({COMMIT}));
    HighestIsNewest(log, base, ts, |log|);
    var t := Newest(ts, Some({COMMIT}));
    if t.Some? {
      var i := NewestIndex(ts, Some({COMMIT}));
      var r :| Holds(h, log, r) && TrailerOf(h, r) == t.value;
      BufferReads(h, decode, log, base, r);
      LocatorReads(h, decode, log, base, r);
    } else {
      NothingToRead(h, decode, log, base);
    }
  }

  /** The locator loads a root exactly from a whole COMMIT record, digest included, at the place that it found. */
  lemma LoadLatestExactly<R>(h: Hasher, decode: bytes -> Option<R>, log: bytes, base: nat, root: R, offset: nat)
    ensures LoadLatest(h, decode, log, base) == At(root, offset) <==>
      var t := Locate(log, base, Some({COMMIT}));
      t.Some? && t.value.start == offset && exists r :: Holds(h, log, r) && r.start == offset && r.kind == COMMIT && decode(r.payload) == Some(root)
  {
    hide Locate, ReadRecord, Holds;
    var read := ReadRecord(h, log, offset);
    if read.Some? {
      ReadIffHolds(h, log, offset, read.value);
    }
    forall r | Holds(h, log, r) && r.start == offset ensures read == Some(r) {
      ReadIffHolds(h, log, offset, r);
    }
  }

  /** The magic and the type of a COMMIT header, and a length that is a safe integer. */
  predicate HeadsCommit(log: bytes, offset: nat) {
    offset + HEADER_SIZE <= |log| && Sub(log, offset, 4) == MAGIC && LeValue(Sub(log, offset + 6, 2)) == COMMIT
    && LeValue(Sub(log, offset + 8, 8)) <= MAX_SAFE_INTEGER
  }

  /** The bytes behind a header, as many as it says and the buffer has. */
  function Behind(log: bytes, offset: nat): bytes
    requires offset + HEADER_SIZE <= |log|
  {
    log[offset + HEADER_SIZE..Min(offset + HEADER_SIZE + LeValue(Sub(log, offset + 8, 8)), |log|)]
  }

  /**
   The buffer decoder loads a root exactly from the place that the highest self-locating COMMIT trailer names, if a header of that type lies
   there and the bytes behind it decode. It asks for no digest, nor that the trailer is the one of that header.
   */
  lemma BufferReadsExactly<R>(decode: bytes -> Option<R>, log: bytes, base: nat, root: R, offset: nat)
    ensures DecodeFromBuffer(decode, log, base) == At(root, offset) <==>
      var t := HighestCommit(log, base, |log|);
      t.Some? && t.value.start == offset && HeadsCommit(log, offset) && decode(Behind(log, offset)) == Some(root)
  {
    hide HighestCommit, LeValue;
    var t := HighestCommit(log, base, |log|);
    if t.Some? && t.value.start == offset {
      SubOfSub(log, offset, HEADER_SIZE, 0, 4);
      SubOfSub(log, offset, HEADER_SIZE, 6, 2);
      SubOfSub(log, offset, HEADER_SIZE, 8, 8);
      assert Behind(log, offset) == Sub(log, offset + HEADER_SIZE, Min(LeValue(Sub(log, offset + 8, 8)), |log| - offset - HEADER_SIZE));
    }
  }

  function RootOf<R>(decode: bytes -> Option<R>, r: Record): Loaded<R> {
    var root := decode(r.payload);
    if root.None? then Failed else At(root.value, r.start)
  }

  lemma BufferReads<R>(h: Hasher, decode: bytes -> Option<R>, log: bytes, base: nat, r: Record)
    requires Holds(h, log, r) && r.kind == COMMIT && HighestCommit(log, base, |log|) == Some(TrailerOf(h, r))
    ensures DecodeFromBuffer(decode, log, base) == RootOf(decode, r)
  {
    hide TrailerAt, Encoded, HighestCommit, LeValue, Sub;
    HeldHeader(h, log, r);
  }

  lemma LocatorReads<R>(h: Hasher, decode: bytes -> Option<R>, log: bytes, base: nat, r: Record)
    requires Holds(h, log, r) && r.kind == COMMIT && base <= r.start
    requires Locate(log, base, Some({COMMIT})) == Some(TrailerOf(h, r))
    ensures LoadLatest(h, decode, log, base) == RootOf(decode, r)
  {
    hide ReadRecord, Locate;
    HeldReads(h, log, r);
  }

  lemma NothingToRead<R>(h: Hasher, decode: bytes -> Option<R>, log: bytes, base: nat)
    requires Locate(log, base, Some({COMMIT})).None? && HighestCommit(log, base, |log|).None?
    ensures DecodeFromBuffer(decode, log, base) == LoadLatest(h, decode, log, base) == Empty
  {
    hide Locate, HighestCommit;
  }
}
