/**
 The W7RC/W7RE record framing shared by PigFS and the object store, and the
 backward search for the newest record of a type.
 */
module Records {
  import opened Bytes

  /** SHA-256 as far as framing needs it: some function of the payload. */
  type Hasher = bytes -> bytes

  /** The 32 bytes of a digest. */
  function Digest(h: Hasher, payload: bytes): (d: bytes)
    ensures |d| == 32 && (|h(payload)| == 32 ==> d == h(payload))
  {
    var d := h(payload);
    if |d| == 32 then d else seq(32, _ => 0)
  }

  const HEADER_SIZE: nat := 32
  const TRAILER_SIZE: nat := 64
  const MAX_PAYLOAD: nat := 4194304
  const SCAN_WINDOW: nat := 1048576

  const MAGIC: bytes := [0x57, 0x37, 0x52, 0x43]
  const END_MAGIC: bytes := [0x57, 0x37, 0x52, 0x45]

  const COMMIT: nat := 4
  const ROOT_COMMIT: nat := 21

  /** `log.subarray(at, at + n)`. */
  function Sub(log: bytes, at: nat, n: nat): (s: bytes)
    requires at + n <= |log|
    ensures |s| == n
  {
    log[at..at + n]
  }

  datatype Record = Record(kind: nat, payload: bytes, previous: nat, sequence: nat, start: nat) {
    function End(): nat { start + HEADER_SIZE + |payload| + TRAILER_SIZE }

    function TrailerStart(): nat { start + HEADER_SIZE + |payload| }

    /** What `makeFsRecord` accepts: the payload limit, safe integers, a 16-bit type. */
    predicate Valid() {
      |payload| <= MAX_PAYLOAD && kind < 65536 &&
      start <= MAX_SAFE_INTEGER && previous <= MAX_SAFE_INTEGER && sequence <= MAX_SAFE_INTEGER
    }
  }

  /** What a trailer says about its record. */
  datatype Trailer = Trailer(kind: nat, start: nat, previous: nat, length: nat, digest: bytes, end: nat)

  function TrailerOf(h: Hasher, r: Record): Trailer {
    Trailer(r.kind, r.start, r.previous, |r.payload|, Digest(h, r.payload), r.End())
  }

  /** Fields of 4, 2, 2, 8, 8 and 8 bytes and a rest, side by side: the layout of headers and trailers. */
  function Join(m: bytes, kind: nat, x: nat, y: nat, z: nat, rest: bytes): (b: bytes)
    requires |m| == 4
    ensures |b| == 32 + |rest|
  {
    m + (Le(1, 2) + (Le(kind, 2) + (Le(x, 8) + (Le(y, 8) + (Le(z, 8) + rest)))))
  }

  function Header(r: Record): (b: bytes)
    ensures |b| == HEADER_SIZE
  {
    Join(MAGIC, r.kind, |r.payload|, r.previous, r.sequence, [])
  }

  function TrailerBytes(t: Trailer): (b: bytes)
    requires |t.digest| == 32
    ensures |b| == TRAILER_SIZE
  {
    Join(END_MAGIC, t.kind, t.start, t.previous, t.length, t.digest)
  }

  function Encoded(h: Hasher, r: Record): (b: bytes)
    ensures |b| == HEADER_SIZE + |r.payload| + TRAILER_SIZE
  {
    Header(r) + r.payload + TrailerBytes(TrailerOf(h, r))
  }

  function MakeRecord(h: Hasher, r: Record): Option<bytes> {
    if r.Valid() then Some(Encoded(h, r)) else None
  }

  /** The magic, the version and the four numbers of a header or trailer. */
  datatype Fields = Fields(kind: nat, x: nat, y: nat, z: nat)

  function ParseFields(magic: bytes, b: bytes): Option<Fields>
    requires |b| >= 32
  {
    if Sub(b, 0, 4) != magic || LeValue(Sub(b, 4, 2)) != 1 then None
    else
      var f := Fields(LeValue(Sub(b, 6, 2)), LeValue(Sub(b, 8, 8)), LeValue(Sub(b, 16, 8)), LeValue(Sub(b, 24, 8)));
      if f.x > MAX_SAFE_INTEGER || f.y > MAX_SAFE_INTEGER || f.z > MAX_SAFE_INTEGER then None else Some(f)
  }

  /** `parseFsRecordTrailer`: a trailer counts only where it says that it is. */
  function ParseTrailer(b: bytes, at: nat, base: nat, size: nat): (t: Option<Trailer>)
    ensures t.Some? ==> base <= t.value.start && t.value.end == at + TRAILER_SIZE <= size
    ensures t.Some? ==> t.value.start + HEADER_SIZE <= at && |t.value.digest| == 32
  {
    if |b| != TRAILER_SIZE then None
    else
      var f := ParseFields(END_MAGIC, b);
      if f.None? then None
      else
        var start, previous, length := f.value.x, f.value.y, f.value.z;
        if start < base || length > MAX_PAYLOAD then None
        else if start + HEADER_SIZE + length != at || at + TRAILER_SIZE > size then None
        else Some(Trailer(f.value.kind, start, previous, length, Sub(b, 32, 32), at + TRAILER_SIZE))
  }

  function TrailerAt(log: bytes, base: nat, at: nat): (t: Option<Trailer>)
    ensures t.Some? ==> base <= t.value.start && t.value.end == at + TRAILER_SIZE <= |log|
    ensures t.Some? ==> t.value.start + HEADER_SIZE <= at && |t.value.digest| == 32
  {
    if at + TRAILER_SIZE <= |log| then ParseTrailer(Sub(log, at, TRAILER_SIZE), at, base, |log|) else None
  }

  /** `readFsRecord`: the header, the payload, the trailer and the digest must all agree. */
  function ReadRecord(h: Hasher, log: bytes, start: nat): Option<Record> {
    if start > MAX_SAFE_INTEGER || start + HEADER_SIZE > |log| then None
    else
      var f := ParseFields(MAGIC, Sub(log, start, HEADER_SIZE));
      if f.None? then None
      else
        var kind, length, previous, sequence := f.value.kind, f.value.x, f.value.y, f.value.z;
        var at := start + HEADER_SIZE + length;
        if length > MAX_PAYLOAD || at + TRAILER_SIZE > |log| then None
        else
          var payload := Sub(log, start + HEADER_SIZE, length);
          var trailer := TrailerAt(log, 0, at);
          if trailer.None? || trailer.value.start != start || trailer.value.kind != kind
             || trailer.value.previous != previous || trailer.value.length != length then None
          else if Digest(h, payload) != trailer.value.digest then None
          else Some(Record(kind, payload, previous, sequence, start))
  }

  /** Record `r` lies in the log, byte for byte. */
  ghost predicate Holds(h: Hasher, log: bytes, r: Record) {
    r.Valid() && r.End() <= |log| && Sub(log, r.start, r.End() - r.start) == Encoded(h, r)
  }

  // ----- framing round trip

  lemma JoinSlices(m: bytes, v: bytes, k: bytes, x: bytes, y: bytes, z: bytes, rest: bytes)
    requires |m| == 4 && |v| == |k| == 2 && |x| == |y| == |z| == 8
    ensures var b := m + (v + (k + (x + (y + (z + rest)))));
      Sub(b, 0, 4) == m && Sub(b, 4, 2) == v && Sub(b, 6, 2) == k && Sub(b, 8, 8) == x && Sub(b, 16, 8) == y
      && Sub(b, 24, 8) == z && Sub(b, 32, |rest|) == rest
  {
  }

  lemma SlicesJoin(b: bytes)
    requires |b| >= 32
    ensures b == Sub(b, 0, 4) + (Sub(b, 4, 2) + (Sub(b, 6, 2) + (Sub(b, 8, 8) + (Sub(b, 16, 8) + (Sub(b, 24, 8) + Sub(b, 32, |b| - 32))))))
  {
  }

  /** Parsing recovers exactly the fields that were joined. */
  lemma FieldsRoundTrip(magic: bytes, f: Fields, rest: bytes)
    requires |magic| == 4 && f.kind < 65536
    requires f.x <= MAX_SAFE_INTEGER && f.y <= MAX_SAFE_INTEGER && f.z <= MAX_SAFE_INTEGER
    ensures var b := Join(magic, f.kind, f.x, f.y, f.z, rest);
      ParseFields(magic, b) == Some(f) && Sub(b, 32, |rest|) == rest
  {
    hide Le, LeValue, Pow256, Sub;
    Widths();
    JoinSlices(magic, Le(1, 2), Le(f.kind, 2), Le(f.x, 8), Le(f.y, 8), Le(f.z, 8), rest);
    LeRoundTrip(1, 2);
    LeRoundTrip(f.kind, 2);
    LeRoundTrip(f.x, 8);
    LeRoundTrip(f.y, 8);
    LeRoundTrip(f.z, 8);
  }

  /** Only the joined fields parse. */
  lemma ParsedIsJoined(magic: bytes, b: bytes)
    requires |magic| == 4 && |b| >= 32 && ParseFields(magic, b).Some?
    ensures var f := ParseFields(magic, b).value;
      f.kind < 65536 && f.x <= MAX_SAFE_INTEGER && f.y <= MAX_SAFE_INTEGER && f.z <= MAX_SAFE_INTEGER
      && b == Join(magic, f.kind, f.x, f.y, f.z, Sub(b, 32, |b| - 32))
  {
    hide Le, LeValue, Pow256, Sub;
    Widths();
    SlicesJoin(b);
    LeOfValue(Sub(b, 4, 2));
    LeOfValue(Sub(b, 6, 2));
    LeOfValue(Sub(b, 8, 8));
    LeOfValue(Sub(b, 16, 8));
    LeOfValue(Sub(b, 24, 8));
  }

  lemma TrailerRoundTrip(h: Hasher, r: Record, base: nat, size: nat)
    requires r.Valid() && base <= r.start && r.End() <= size
    ensures ParseTrailer(TrailerBytes(TrailerOf(h, r)), r.TrailerStart(), base, size) == Some(TrailerOf(h, r))
  {
    hide Join, ParseFields, Sub;
    FieldsRoundTrip(END_MAGIC, Fields(r.kind, r.start, r.previous, |r.payload|), Digest(h, r.payload));
  }

  lemma ParsedTrailer(b: bytes, at: nat, base: nat, size: nat)
    requires ParseTrailer(b, at, base, size).Some?
    ensures b == TrailerBytes(ParseTrailer(b, at, base, size).value)
  {
    hide Join, ParseFields, Sub;
    ParsedIsJoined(END_MAGIC, b);
  }

  /** Exactly such bytes are a trailer at this place: they name the place themselves, and keep to the limits. */
  lemma ParseTrailerExactly(b: bytes, at: nat, base: nat, size: nat, t: Trailer)
    ensures ParseTrailer(b, at, base, size) == Some(t) <==>
      |t.digest| == 32 && b == TrailerBytes(t) && t.kind < 65536 && t.start <= MAX_SAFE_INTEGER && t.previous <= MAX_SAFE_INTEGER
      && base <= t.start && t.length <= MAX_PAYLOAD && t.start + HEADER_SIZE + t.length == at && t.end == at + TRAILER_SIZE <= size
  {
    hide Join, ParseFields, Sub;
    if ParseTrailer(b, at, base, size).Some? {
      ParsedIsJoined(END_MAGIC, b);
      ParsedTrailer(b, at, base, size);
    }
    if |t.digest| == 32 && t.kind < 65536 && t.start <= MAX_SAFE_INTEGER && t.previous <= MAX_SAFE_INTEGER && t.length <= MAX_PAYLOAD {
      FieldsRoundTrip(END_MAGIC, Fields(t.kind, t.start, t.previous, t.length), t.digest);
    }
  }

  /** A slice that equals a concatenation of three parts splits into them. */
  lemma SplitSlice(log: bytes, start: nat, a: bytes, b: bytes, c: bytes)
    requires start + |a| + |b| + |c| <= |log|
    ensures Sub(log, start, |a| + |b| + |c|) == a + b + c <==>
      (Sub(log, start, |a|) == a && Sub(log, start + |a|, |b|) == b && Sub(log, start + |a| + |b|, |c|) == c)
  {
    var s := log[start..start + |a| + |b| + |c|];
    var m, n := |a|, |a| + |b|;
    assert s[..m] == log[start..start + m] && s[m..n] == log[start + m..start + n] && s[n..] == log[start + n..start + n + |c|];
    assert s == s[..m] + s[m..n] + s[n..];
    assert (a + b + c)[..m] == a && (a + b + c)[m..n] == b && (a + b + c)[n..] == c;
  }

  lemma HoldsParts(h: Hasher, log: bytes, r: Record)
    requires r.End() <= |log|
    ensures Sub(log, r.start, r.End() - r.start) == Encoded(h, r) <==>
      (Sub(log, r.start, HEADER_SIZE) == Header(r) && Sub(log, r.start + HEADER_SIZE, |r.payload|) == r.payload
      && Sub(log, r.TrailerStart(), TRAILER_SIZE) == TrailerBytes(TrailerOf(h, r)))
  {
    hide Sub, Header, TrailerBytes;
    SplitSlice(log, r.start, Header(r), r.payload, TrailerBytes(TrailerOf(h, r)));
  }

  /** A record in the log shows its trailer to every search that starts at or below it. */
  lemma HeldTrailer(h: Hasher, log: bytes, r: Record, base: nat)
    requires Holds(h, log, r) && base <= r.start
    ensures TrailerAt(log, base, r.TrailerStart()) == Some(TrailerOf(h, r))
  {
    hide Sub, Header, TrailerBytes, ParseTrailer, Encoded;
    HoldsParts(h, log, r);
    TrailerRoundTrip(h, r, base, |log|);
  }

  lemma HeldHeader(h: Hasher, log: bytes, r: Record)
    requires Holds(h, log, r)
    ensures ParseFields(MAGIC, Sub(log, r.start, HEADER_SIZE)) == Some(Fields(r.kind, |r.payload|, r.previous, r.sequence))
    ensures Sub(log, r.start + HEADER_SIZE, |r.payload|) == r.payload
  {
    hide Sub, Join, ParseFields, TrailerBytes, Encoded;
    HoldsParts(h, log, r);
    FieldsRoundTrip(MAGIC, Fields(r.kind, |r.payload|, r.previous, r.sequence), []);
  }

  lemma HeldReads(h: Hasher, log: bytes, r: Record)
    requires Holds(h, log, r)
    ensures ReadRecord(h, log, r.start) == Some(r)
  {
    hide Sub, ParseFields, TrailerAt, Encoded;
    HeldHeader(h, log, r);
    HeldTrailer(h, log, r, 0);
  }

  lemma ReadIsHeld(h: Hasher, log: bytes, start: nat, r: Record)
    requires ReadRecord(h, log, start) == Some(r)
    ensures Holds(h, log, r) && r.start == start
  {
    hide Sub, ParseFields, ParseTrailer, Join, Encoded;
    ParsedIsJoined(MAGIC, Sub(log, start, HEADER_SIZE));
    ParsedTrailer(Sub(log, r.TrailerStart(), TRAILER_SIZE), r.TrailerStart(), 0, |log|);
    assert Sub(Sub(log, start, HEADER_SIZE), 32, 0) == [];
    HoldsParts(h, log, r);
  }

  /** Reading at `start` succeeds exactly when a whole valid record lies there. */
  lemma ReadIffHolds(h: Hasher, log: bytes, start: nat, r: Record)
    ensures ReadRecord(h, log, start) == Some(r) <==> (Holds(h, log, r) && r.start == start)
  {
    hide ReadRecord, Holds;
    if Holds(h, log, r) && r.start == start {
      HeldReads(h, log, r);
    }
    if ReadRecord(h, log, start) == Some(r) {
      ReadIsHeld(h, log, start, r);
    }
  }

  /** Magic, version, type and three numbers lie side by side, little-endian. */
  predicate FieldsAt(b: bytes, at: nat, magic: bytes, f: Fields) {
    at + 32 <= |b| && Sub(b, at, 4) == magic && LeValue(Sub(b, at + 4, 2)) == 1 && LeValue(Sub(b, at + 6, 2)) == f.kind
    && LeValue(Sub(b, at + 8, 8)) == f.x && LeValue(Sub(b, at + 16, 8)) == f.y && LeValue(Sub(b, at + 24, 8)) == f.z
  }

  lemma FieldsInside(b: bytes, at: nat, part: bytes, magic: bytes, f: Fields)
    requires at + |part| <= |b| && Sub(b, at, |part|) == part && |part| >= 32 && ParseFields(magic, part) == Some(f)
    ensures FieldsAt(b, at, magic, f)
  {
    forall i: nat, n: nat | i + n <= |part| ensures Sub(b, at + i, n) == Sub(part, i, n) {
      SliceOfSlice(b, at, at + |part|, i, i + n);
    }
    assert Sub(b, at + 0, 4) == Sub(part, 0, 4);
  }

  /**
   The bytes of a record: "W7RC", version 1, type, payload length, previous offset and sequence; the payload; then "W7RE", version 1, type,
   its own offset, previous offset and payload length, and the digest of the payload.
   */
  lemma EncodedLayout(h: Hasher, r: Record)
    requires r.Valid()
    ensures var b, n := Encoded(h, r), |r.payload|;
      FieldsAt(b, 0, [0x57, 0x37, 0x52, 0x43], Fields(r.kind, n, r.previous, r.sequence)) && Sub(b, 32, n) == r.payload
      && FieldsAt(b, 32 + n, [0x57, 0x37, 0x52, 0x45], Fields(r.kind, r.start, r.previous, n)) && Sub(b, 64 + n, 32) == Digest(h, r.payload)
  {
    hide Sub, Join, ParseFields, FieldsAt;
    var b, n := Encoded(h, r), |r.payload|;
    var front, back := Header(r), TrailerBytes(TrailerOf(h, r));
    WholeSlice(b);
    SplitSlice(b, 0, front, r.payload, back);
    FieldsRoundTrip(MAGIC, Fields(r.kind, n, r.previous, r.sequence), []);
    FieldsRoundTrip(END_MAGIC, Fields(r.kind, r.start, r.previous, n), Digest(h, r.payload));
    FieldsInside(b, 0, front, MAGIC, Fields(r.kind, n, r.previous, r.sequence));
    FieldsInside(b, 32 + n, back, END_MAGIC, Fields(r.kind, r.start, r.previous, n));
    SubOfSub(b, 32 + n, 64, 32, 32);
  }

  lemma WholeSlice(b: bytes)
    ensures Sub(b, 0, |b|) == b
  {
  }

  lemma SubOfSub(b: bytes, at: nat, n: nat, i: nat, k: nat)
    requires at + n <= |b| && i + k <= n
    ensures Sub(Sub(b, at, n), i, k) == Sub(b, at + i, k)
  {
    SliceOfSlice(b, at, at + n, i, i + k);
  }

  /** Cutting the log after a position does not change the trailer found there. */
  lemma TrailerInPrefix(log: bytes, base: nat, at: nat, end: nat)
    requires at + TRAILER_SIZE <= end <= |log|
    ensures TrailerAt(log[..end], base, at) == TrailerAt(log, base, at)
  {
    hide ParseFields;
    assert Sub(log[..end], at, TRAILER_SIZE) == Sub(log, at, TRAILER_SIZE);
  }

  lemma NoMagicNoTrailer(log: bytes, base: nat, at: nat)
    requires at + 4 <= |log| && Sub(log, at, 4) != END_MAGIC
    ensures TrailerAt(log, base, at).None?
  {
    if at + TRAILER_SIZE <= |log| {
      assert Sub(Sub(log, at, TRAILER_SIZE), 0, 4) == Sub(log, at, 4);
    }
  }

  // ----- searching backwards

  /** The byte-by-byte search: the highest self-locating trailer that ends at or before `end`. */
  function LastTrailer(log: bytes, base: nat, end: nat): (t: Option<Trailer>)
    requires end <= |log|
    ensures t.Some? ==> base <= t.value.start && t.value.start + HEADER_SIZE + TRAILER_SIZE <= t.value.end <= end
    decreases end
  {
    if end < base + TRAILER_SIZE then None
    else
      var t := TrailerAt(log, base, end - TRAILER_SIZE);
      if t.Some? then t else if end == 0 then None else LastTrailer(log, base, end - 1)
  }

  lemma {:induction false} LastTrailerIsLast(log: bytes, base: nat, end: nat)
    requires end <= |log|
    ensures var t := LastTrailer(log, base, end);
      (t.Some? ==> TrailerAt(log, base, t.value.end - TRAILER_SIZE) == t)
      && Quiet(log, base, if t.Some? then t.value.end else 0, end)
    decreases end
  {
    hide TrailerAt;
    if end >= base + TRAILER_SIZE && TrailerAt(log, base, end - TRAILER_SIZE).None? && end > 0 {
      LastTrailerIsLast(log, base, end - 1);
    }
  }

  /** No self-locating trailer ends after `from` and at or before `to`. */
  ghost predicate Quiet(log: bytes, base: nat, from: nat, to: nat) {
    forall at: nat {:trigger TrailerAt(log, base, at)} ::
      from < at + TRAILER_SIZE <= to && base <= at ==> TrailerAt(log, base, at).None?
  }

  /** The highest trailer is the one that nothing follows. */
  lemma {:induction false} LastTrailerUnique(log: bytes, base: nat, end: nat, t: Option<Trailer>)
    requires end <= |log|
    requires t.Some? ==> TRAILER_SIZE <= t.value.end <= end && base + TRAILER_SIZE <= t.value.end
    requires t.Some? ==> TrailerAt(log, base, t.value.end - TRAILER_SIZE) == t
    requires Quiet(log, base, if t.Some? then t.value.end else 0, end)
    ensures LastTrailer(log, base, end) == t
  {
    hide TrailerAt, LastTrailer;
    LastTrailerIsLast(log, base, end);
    var l := LastTrailer(log, base, end);
    if l.Some? {
      assert TrailerAt(log, base, l.value.end - TRAILER_SIZE).Some?;
    }
  }

  /** One window of `findTrailerBefore`, scanned from its top. */
  method ScanWindow(log: bytes, base: nat, start: nat, end: nat, endExclusive: nat) returns (found: Option<Trailer>)
    requires base <= start <= end <= |log| && end <= endExclusive
    ensures found.Some? ==> start + TRAILER_SIZE <= found.value.end <= end
    ensures found.Some? ==> TrailerAt(log, base, found.value.end - TRAILER_SIZE) == found
    ensures Quiet(log, base, if found.Some? then found.value.end else start + TRAILER_SIZE - 1, end)
  {
    hide ParseTrailer;
    var window := log[start..end];
    var index := |window| - TRAILER_SIZE;
    while index >= 0
      invariant index <= |window| - TRAILER_SIZE
      invariant index >= -1 || |window| < TRAILER_SIZE
      invariant index >= -1 ==> Quiet(log, base, start + index + TRAILER_SIZE, end)
    {
      WindowByte(log, start, end, index);
      if Sub(window, index, 4) == END_MAGIC {
        var parsed := ParseTrailer(Sub(window, index, TRAILER_SIZE), start + index, base, |log|);
        if parsed.Some? && parsed.value.end <= endExclusive {
          return parsed;
        }
      } else {
        NoMagicNoTrailer(log, base, start + index);
      }
      index := index - 1;
    }
    return None;
  }

  lemma WindowByte(log: bytes, start: nat, end: nat, index: nat)
    requires start <= end <= |log| && start + index + TRAILER_SIZE <= end
    ensures Sub(log[start..end], index, TRAILER_SIZE) == Sub(log, start + index, TRAILER_SIZE)
    ensures Sub(log[start..end], index, 4) == Sub(log, start + index, 4)
  {
    SliceOfSlice(log, start, end, index, index + TRAILER_SIZE);
    SliceOfSlice(log, start, end, index, index + 4);
  }

  /** `findTrailerBefore`: the same search, one megabyte window at a time, with an overlap of 63 bytes. */
  method FindTrailerBefore(log: bytes, base: nat, endExclusive: nat) returns (found: Option<Trailer>)
    ensures found == LastTrailer(log, base, Min(endExclusive, |log|))
  {
    var end: nat := Min(endExclusive, |log|);
    while end >= base + TRAILER_SIZE
      invariant end <= Min(endExclusive, |log|)
      invariant Quiet(log, base, end, Min(endExclusive, |log|))
      decreases end
    {
      var start := Max(base, end - SCAN_WINDOW);
      found := ScanWindow(log, base, start, end, endExclusive);
      if found.Some? {
        LastTrailerUnique(log, base, Min(endExclusive, |log|), found);
        return;
      }
      end := start + TRAILER_SIZE - 1;
      if start == base {
        break;
      }
    }
    LastTrailerUnique(log, base, Min(endExclusive, |log|), None);
    return None;
  }

  predicate IsWanted(wanted: Option<set<nat>>, kind: nat) { wanted.None? || kind in wanted.value }

  /** The plain search that `locateLatestRecord` stands for: step from trailer to trailer, always searching every byte. */
  function LatestFrom(log: bytes, base: nat, wanted: Option<set<nat>>, end: nat): (t: Option<Trailer>)
    requires end <= |log|
    ensures t.Some? ==> base <= t.value.start < t.value.end <= end
    decreases end
  {
    var t := LastTrailer(log, base, end);
    if t.None? || IsWanted(wanted, t.value.kind) then t
    else LatestFrom(log, base, wanted, t.value.start)
  }

  function Locate(log: bytes, base: nat, wanted: Option<set<nat>>): (t: Option<Trailer>)
    ensures t.Some? ==> base <= t.value.start < t.value.end <= |log|
  {
    LatestFrom(log, base, wanted, |log|)
  }

  /** The trailer that ends exactly where the current record starts, if there is one. */
  method AdjacentBefore(log: bytes, base: nat, end: nat) returns (previous: Option<Trailer>)
    requires end <= |log|
    ensures previous.Some? ==> previous == LastTrailer(log, base, end)
  {
    previous := None;
    if end >= base + TRAILER_SIZE {
      var at := end - TRAILER_SIZE;
      previous := ParseTrailer(Sub(log, at, TRAILER_SIZE), at, base, |log|);
      if previous.Some? && previous.value.end != end {
        previous := None;
      }
    }
  }

  /** `locateLatestRecord`: the walk from trailer to trailer, falling back to the scan over gaps. */
  method LocateLatestRecord(log: bytes, base: nat, wanted: Option<set<nat>>) returns (found: Option<Trailer>)
    ensures found == Locate(log, base, wanted)
  {
    if |log| <= base {
      return None;
    }
    var current := FindTrailerBefore(log, base, |log|);
    ghost var end: nat := |log|;
    while current.Some?
      invariant end <= |log|
      invariant current == LastTrailer(log, base, end)
      invariant Locate(log, base, wanted) == LatestFrom(log, base, wanted, end)
      decreases end
    {
      if IsWanted(wanted, current.value.kind) {
        return current;
      }
      end := current.value.start;
      if current.value.start <= base {
        assert LastTrailer(log, base, end).None?;
        return None;
      }
      var previous := AdjacentBefore(log, base, current.value.start);
      if previous.Some? {
        current := previous;
      } else {
        current := FindTrailerBefore(log, base, current.value.start);
      }
    }
    return None;
  }
}
