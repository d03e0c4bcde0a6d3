/**
 Recovery of the object store on any bytes: the newest Root Commit that passes its checks. The runs that leave such bytes are in `Arena`.
 */
module Recovery {
  import opened Bytes
  import opened Records
  import opened Framing

  /** What recovery asks of a Root Commit payload: that it parses, has the store's format, and that both stored hashes are right. */
  datatype Codec<!R> = Codec(parse: bytes -> Option<R>, format: R -> bool, stateHash: R -> bool, commitHash: R -> bool) {
    function Decode(payload: bytes): Option<R> {
      var root := parse(payload);
      if root.None? || !format(root.value) || !stateHash(root.value) || !commitHash(root.value) then None else root
    }
  }

  function RootAt<R>(h: Hasher, codec: Codec<R>, log: bytes, start: nat): Option<R> {
    var r := ReadRecord(h, log, start);
    if r.None? then None else codec.Decode(r.value.payload)
  }

  /** A root can be read exactly where a whole record lies whose payload parses, has the store's format, and has both hashes right. */
  lemma RootAtExactly<R>(h: Hasher, codec: Codec<R>, log: bytes, start: nat, root: R)
    ensures RootAt(h, codec, log, start) == Some(root) <==> exists r :: Holds(h, log, r) && r.start == start && Decodes(codec, r.payload, root)
  {
    hide ReadRecord, Holds;
    var read := ReadRecord(h, log, start);
    if read.Some? {
      ReadIffHolds(h, log, start, read.value);
    }
    forall r | Holds(h, log, r) && r.start == start ensures read == Some(r) {
      ReadIffHolds(h, log, start, r);
    }
  }

  ghost predicate Decodes<R>(codec: Codec<R>, payload: bytes, root: R) {
    codec.parse(payload) == Some(root) && codec.format(root) && codec.stateHash(root) && codec.commitHash(root)
  }

  const ROOTS: Option<set<nat>> := Some({ROOT_COMMIT})

  /** `loadLatestWurstObjectRoot` as a function: each rejected candidate cuts the log at its own start. */
  function RecoverFrom<R>(h: Hasher, codec: Codec<R>, log: bytes, base: nat, end: nat): Option<(R, nat)>
    requires end <= |log|
    decreases end
  {
    if end <= base then None
    else
      var located := Locate(log[..end], base, ROOTS);
      if located.None? then None
      else
        var root := RootAt(h, codec, log[..end], located.value.start);
        if root.Some? then Some((root.value, located.value.start)) else RecoverFrom(h, codec, log, base, located.value.start)
  }

  function Recovered<R>(h: Hasher, codec: Codec<R>, log: bytes, base: nat): Option<(R, nat)> {
    RecoverFrom(h, codec, log, base, |log|)
  }

  method LoadLatestWurstObjectRoot<R>(h: Hasher, codec: Codec<R>, log: bytes, base: nat) returns (result: Option<(R, nat)>)
    ensures result == Recovered(h, codec, log, base)
  {
    hide Locate, RootAt;
    var end: nat := |log|;
    while end > base
      invariant end <= |log|
      invariant RecoverFrom(h, codec, log, base, end) == Recovered(h, codec, log, base)
      decreases end
    {
      var prefix := log[..end];
      var located := LocateLatestRecord(prefix, base, ROOTS);
      if located.None? {
        return None;
      }
      var root := RootAt(h, codec, prefix, located.value.start);
      if root.Some? {
        return Some((root.value, located.value.start));
      }
      end := located.value.start;
    }
    return None;
  }

  /** Whatever the bytes: what recovery returns is the root of a whole record of the arena, and it has passed every check. */
  lemma {:induction false} RecoveredIsVerified<R>(h: Hasher, codec: Codec<R>, log: bytes, base: nat, end: nat)
    requires end <= |log| && RecoverFrom(h, codec, log, base, end).Some?
    ensures var (root, start) := RecoverFrom(h, codec, log, base, end).value;
      exists r :: Holds(h, log, r) && r.start == start && base <= start && r.End() <= end && Decodes(codec, r.payload, root)
    decreases end
  {
    hide Locate, RootAt, Holds, Decodes;
    var t, prefix := Locate(log[..end], base, ROOTS).value, log[..end];
    if RootAt(h, codec, prefix, t.start).Some? {
      var root := RootAt(h, codec, prefix, t.start).value;
      RootAtExactly(h, codec, prefix, t.start, root);
      var r :| Holds(h, prefix, r) && r.start == t.start && Decodes(codec, r.payload, root);
      HeldInPrefix(h, log, end, r);
    } else {
      RecoveredIsVerified(h, codec, log, base, t.start);
    }
  }

  // ----- recovery falls back exactly past the commits that fail their checks

  lemma HeldInPrefix(h: Hasher, log: bytes, end: nat, r: Record)
    requires end <= |log|
    ensures Holds(h, log[..end], r) <==> Holds(h, log, r) && r.End() <= end
  {
    hide Encoded;
    if r.End() <= end {
      assert log[..end][r.start..r.End()] == log[r.start..r.End()];
    }
  }

  /** What can be read within the first `end` bytes is read the same within more. */
  lemma RootInPrefix<R>(h: Hasher, codec: Codec<R>, log: bytes, end: nat, start: nat)
    requires end <= |log| && RootAt(h, codec, log[..end], start).Some?
    ensures RootAt(h, codec, log, start) == RootAt(h, codec, log[..end], start)
  {
    hide ReadRecord, Holds;
    var r := ReadRecord(h, log[..end], start).value;
    ReadIffHolds(h, log[..end], start, r);
    HeldInPrefix(h, log, end, r);
    ReadIffHolds(h, log, start, r);
  }

  lemma RootInPrefixes<R>(h: Hasher, codec: Codec<R>, log: bytes, end: nat, more: nat, start: nat)
    requires end <= more <= |log| && RootAt(h, codec, log[..end], start).Some?
    ensures RootAt(h, codec, log[..more], start).Some?
  {
    hide RootAt;
    assert log[..more][..end] == log[..end];
    RootInPrefix(h, codec, log[..more], end, start);
  }

  /** Trailer `t` belongs to a Root Commit that passes every check within its own bytes. */
  predicate Intact<R>(h: Hasher, codec: Codec<R>, log: bytes, t: Trailer) {
    t.kind == ROOT_COMMIT && t.end <= |log| && RootAt(h, codec, log[..t.end], t.start).Some?
  }

  /**
   On any framed arena, corrupt records included: the commit that recovery returns passes its checks,
   and every newer Root Commit fails them; nothing is returned only when all of them fail.
   */
  lemma {:induction false} RecoverySkipsOnlyCorrupt<R>(h: Hasher, codec: Codec<R>, log: bytes, base: nat, ts: seq<Trailer>, end: nat)
    returns (k: int)
    requires end <= |log| && Framed(log, base, ts, end)
    ensures var r := RecoverFrom(h, codec, log, base, end);
      -1 <= k < |ts| && (r.None? <==> k == -1)
      && (k >= 0 ==> ts[k].kind == ROOT_COMMIT && r.value.1 == ts[k].start && RootAt(h, codec, log, ts[k].start) == Some(r.value.0))
      && forall j | k < j < |ts| :: !Intact(h, codec, log, ts[j])
    decreases end
  {
    hide RootAt, TrailerAt, LatestFrom;
    LocateInPrefix(log, base, ts, end);
    var newest := Newest(ts, ROOTS);
    if newest.None? {
      return -1;
    }
    k := NewestIndex(ts, ROOTS);
    var t := ts[k];
    FramedMember(log, base, ts, end, k);
    assert base < end;
    if RootAt(h, codec, log[..end], t.start).Some? {
      RootInPrefix(h, codec, log, end, t.start);
    } else {
      if Intact(h, codec, log, t) {
        RootInPrefixes(h, codec, log, t.end, end, t.start);
      }
      FramedBelow(log, base, ts, end, k);
      k := RecoverySkipsOnlyCorrupt(h, codec, log, base, ts[..k], t.start);
    }
  }

  lemma LocateInPrefix(log: bytes, base: nat, ts: seq<Trailer>, end: nat)
    requires end <= |log| && Framed(log, base, ts, end)
    ensures Locate(log[..end], base, ROOTS) == Newest(ts, ROOTS)
  {
    hide LatestFrom, Framed;
    assert log[..end][..end] == log[..end];
    FramedAgree(log, log[..end], base, ts, end);
    LocateFindsNewest(log[..end], base, ts, end, ROOTS);
  }

  lemma {:induction false} FramedBelow(log: bytes, base: nat, ts: seq<Trailer>, end: nat, k: nat)
    requires end <= |log| && Framed(log, base, ts, end) && k < |ts|
    ensures ts[k].start <= |log| && Framed(log, base, ts[..k], ts[k].start)
    decreases |ts|
  {
    hide TrailerAt;
    var n := |ts| - 1;
    if k < n {
      FramedBelow(log, base, ts[..n], ts[n].start, k);
      assert ts[..n][..k] == ts[..k];
    }
  }
}
