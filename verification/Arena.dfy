/**
 The one append-only file that all writers of a Wurst share: what its steps do to the bytes,
 and what recovery finds after any run of appends, failed writes, syncs, crashes and reopenings.
 */
module Arena {
  import opened Bytes
  import opened Records
  import opened Framing
  import opened Recovery

  /** Writing `data` at offset `at`; bytes beyond it stay. */
  function Overwrite(file: bytes, at: nat, data: bytes): (r: bytes)
    requires at <= |file|
    ensures |r| == Max(|file|, at + |data|)
  {
    file[..at] + data + (if at + |data| < |file| then file[at + |data|..] else [])
  }

  /**
   The file, the in-memory tail, how much of the file the last sync made durable, the whole records
   appended below the tail, and how many of those were there at the last sync.
   */
  datatype Disk = Disk(file: bytes, tail: nat, durable: nat, log: seq<Record>, synced: nat)

  datatype Step =
    | Append(kind: nat, payload: bytes, previous: nat, sequence: nat)
    | FailedWrite(fragment: bytes)
    | Sync
    | Crash(keep: nat, junk: bytes)

  /** The records that lie wholly within the first `keep` bytes. */
  function Survivors(log: seq<Record>, keep: nat): (s: seq<Record>)
    ensures s <= log
  {
    if log == [] then []
    else if log[|log| - 1].End() <= keep then log
    else Survivors(log[..|log| - 1], keep)
  }

  function LogEnd(log: seq<Record>): nat { if log == [] then 0 else log[|log| - 1].End() }

  /** What each step does. A crash keeps at least what is durable, then some bytes, then arbitrary junk; reopening puts the tail at the file size. */
  function Next(h: Hasher, d: Disk, s: Step): Disk
    requires d.tail <= |d.file|
  {
    match s
    case Append(kind, payload, previous, sequence) =>
      var r := Record(kind, payload, previous, sequence, d.tail);
      if r.Valid() then d.(file := Overwrite(d.file, d.tail, Encoded(h, r)), tail := r.End(), log := d.log + [r]) else d
    case FailedWrite(fragment) => d.(file := Overwrite(d.file, d.tail, fragment))
    case Sync => d.(durable := d.tail, synced := |d.log|)
    case Crash(keep, junk) =>
      if d.durable <= keep <= |d.file| then
        var file := d.file[..keep] + junk;
        Disk(file, |file|, d.durable, Survivors(d.log, keep), d.synced)
      else d
  }

  /** What the environment guarantees of a step: a crash leaves no self-locating trailer after the last whole record. */
  ghost predicate Enabled(h: Hasher, base: nat, d: Disk, s: Step)
    requires d.tail <= |d.file|
  {
    s.Crash? ==> d.durable <= s.keep <= |d.file| && var e := Next(h, d, s); Quiet(e.file, base, LogEnd(e.log), |e.file|)
  }

  /** The records follow one another, above the base and below the tail. */
  predicate Ordered(base: nat, log: seq<Record>, tail: nat) {
    && (forall i | 0 <= i < |log| :: base <= log[i].start && log[i].End() <= tail)
    && (forall i, j | 0 <= i < j < |log| :: log[i].End() <= log[j].start)
  }

  ghost predicate AllHold(h: Hasher, file: bytes, log: seq<Record>) {
    forall i | 0 <= i < |log| :: Holds(h, file, log[i])
  }

  ghost predicate Inv(h: Hasher, base: nat, d: Disk) {
    && base <= d.durable <= d.tail <= |d.file|
    && d.synced <= |d.log| && LogEnd(d.log[..d.synced]) <= d.durable
    && Ordered(base, d.log, d.tail)
    && AllHold(h, d.file, d.log)
    && Framed(d.file, base, Trailers(h, d.log), d.tail)
  }

  /** A freshly built package: the immutable base and nothing else. */
  lemma InitialInv(h: Hasher, image: bytes)
    ensures Inv(h, |image|, Disk(image, |image|, |image|, [], 0))
  {
    hide TrailerAt;
  }

  lemma OverwriteBelow(file: bytes, at: nat, data: bytes)
    requires at <= |file|
    ensures Overwrite(file, at, data)[..at] == file[..at]
    ensures Overwrite(file, at, data)[at..at + |data|] == data
  {
  }

  /** A record below the cut is untouched by what happens above it. */
  lemma HoldsAgree(h: Hasher, file: bytes, other: bytes, cut: nat, r: Record)
    requires cut <= |file| && cut <= |other| && file[..cut] == other[..cut] && r.End() <= cut && Holds(h, file, r)
    ensures Holds(h, other, r)
  {
    hide Encoded;
    assert file[..cut][r.start..r.End()] == file[r.start..r.End()];
    assert other[..cut][r.start..r.End()] == other[r.start..r.End()];
  }

  lemma AllHoldAgree(h: Hasher, base: nat, file: bytes, other: bytes, cut: nat, log: seq<Record>)
    requires cut <= |file| && cut <= |other| && file[..cut] == other[..cut]
    requires Ordered(base, log, cut) && AllHold(h, file, log)
    ensures AllHold(h, other, log)
  {
    hide Holds;
    forall i | 0 <= i < |log| ensures Holds(h, other, log[i]) {
      HoldsAgree(h, file, other, cut, log[i]);
    }
  }

  /** A whole record on top of framed ones, after bytes that hold no stray trailer. */
  lemma FramedSnoc(h: Hasher, file: bytes, base: nat, log: seq<Record>, r: Record, end: nat)
    requires r.End() <= end <= |file| && base <= r.start && Holds(h, file, r)
    requires Framed(file, base, Trailers(h, log), r.start) && Quiet(file, base, r.End(), end)
    ensures Framed(file, base, Trailers(h, log + [r]), end)
  {
    hide TrailerAt, Holds;
    HeldTrailer(h, file, r, base);
    assert Trailers(h, log + [r])[..|log|] == Trailers(h, log);
  }

  lemma AppendKeepsInv(h: Hasher, base: nat, d: Disk, s: Step)
    requires Inv(h, base, d) && s.Append?
    ensures Inv(h, base, Next(h, d, s))
  {
    hide Encoded, TrailerAt, Overwrite, Holds, AllHold, Framed;
    var r := Record(s.kind, s.payload, s.previous, s.sequence, d.tail);
    if r.Valid() {
      var e := Next(h, d, s);
      OverwriteBelow(d.file, d.tail, Encoded(h, r));
      NewRecordHolds(h, d, r);
      AllHoldAgree(h, base, d.file, e.file, d.tail, d.log);
      assert AllHold(h, e.file, e.log) by { hide *; AllHoldSnoc(h, e.file, d.log, r); }
      FramedAgree(d.file, e.file, base, Trailers(h, d.log), d.tail);
      FramedSnoc(h, e.file, base, d.log, r, r.End());
      assert e.log[..d.synced] == d.log[..d.synced];
    }
  }

  lemma AllHoldSnoc(h: Hasher, file: bytes, log: seq<Record>, r: Record)
    requires AllHold(h, file, log) && Holds(h, file, r)
    ensures AllHold(h, file, log + [r])
  {
    hide Holds;
  }

  lemma NewRecordHolds(h: Hasher, d: Disk, r: Record)
    requires d.tail <= |d.file| && r.Valid() && r.start == d.tail
    ensures Holds(h, Overwrite(d.file, d.tail, Encoded(h, r)), r)
  {
    hide Encoded, Overwrite;
    OverwriteBelow(d.file, d.tail, Encoded(h, r));
  }

  lemma FailedWriteKeepsInv(h: Hasher, base: nat, d: Disk, s: Step)
    requires Inv(h, base, d) && s.FailedWrite?
    ensures Inv(h, base, Next(h, d, s))
  {
    hide TrailerAt, Overwrite, Holds, AllHold, Framed;
    var e := Next(h, d, s);
    OverwriteBelow(d.file, d.tail, s.fragment);
    AllHoldAgree(h, base, d.file, e.file, d.tail, d.log);
    FramedAgree(d.file, e.file, base, Trailers(h, d.log), d.tail);
  }

  lemma {:induction false} SurvivorsAreAll(log: seq<Record>, keep: nat, i: nat)
    requires i < |log| && log[i].End() <= keep
    ensures i < |Survivors(log, keep)|
  {
    if log[|log| - 1].End() > keep {
      SurvivorsAreAll(log[..|log| - 1], keep, i);
    }
  }

  lemma {:induction false} SurvivorsEnd(log: seq<Record>, keep: nat)
    ensures LogEnd(Survivors(log, keep)) <= keep
  {
    if log != [] && log[|log| - 1].End() > keep {
      SurvivorsEnd(log[..|log| - 1], keep);
    }
  }

  /** What a crash leaves of the records: an ordered prefix below the cut that still holds. */
  lemma SurvivorsHold(h: Hasher, base: nat, d: Disk, keep: nat, file: bytes)
    requires Inv(h, base, d) && keep <= |d.file| && keep <= |file| && file[..keep] == d.file[..keep]
    ensures var log := Survivors(d.log, keep); Ordered(base, log, keep) && AllHold(h, file, log)
  {
    hide Holds, Framed;
    SurvivorsEnd(d.log, keep);
    var log := Survivors(d.log, keep);
    assert Ordered(base, log, keep);
    AllHoldAgree(h, base, d.file, file, keep, log);
  }

  lemma SurvivorsFramed(h: Hasher, base: nat, d: Disk, keep: nat, file: bytes)
    requires Inv(h, base, d) && keep <= |d.file| && keep <= |file| && file[..keep] == d.file[..keep]
    requires Quiet(file, base, LogEnd(Survivors(d.log, keep)), |file|)
    ensures Framed(file, base, Trailers(h, Survivors(d.log, keep)), |file|)
  {
    hide TrailerAt, Holds, AllHold, Framed, Ordered, Survivors;
    var log := Survivors(d.log, keep);
    SurvivorsHold(h, base, d, keep, file);
    if log == [] {
      assert Framed(file, base, [], |file|) by { EmptyFramed(file, base); }
    } else {
      var n := |log| - 1;
      var r := log[n];
      assert base <= r.start && r.End() <= keep by { OrderedAt(base, log, keep, n); }
      assert Holds(h, file, r) by { AllHoldAt(h, file, log, n); }
      FramedBelow(d.file, base, Trailers(h, d.log), d.tail, n);
      assert Trailers(h, d.log)[..n] == Trailers(h, log[..n]);
      PrefixOfPrefix(d.file, file, keep, r.start);
      FramedAgree(d.file, file, base, Trailers(h, log[..n]), r.start);
      FramedSnoc(h, file, base, log[..n], r, |file|);
      assert log[..n] + [r] == log;
    }
  }

  lemma PrefixOfPrefix(a: bytes, b: bytes, keep: nat, n: nat)
    requires n <= keep <= |a| && keep <= |b| && a[..keep] == b[..keep]
    ensures a[..n] == b[..n]
  {
    assert a[..n] == a[..keep][..n];
    assert b[..n] == b[..keep][..n];
  }

  lemma EmptyFramed(file: bytes, base: nat)
    requires Quiet(file, base, 0, |file|)
    ensures Framed(file, base, [], |file|)
  {
  }

  lemma OrderedAt(base: nat, log: seq<Record>, tail: nat, i: nat)
    requires Ordered(base, log, tail) && i < |log|
    ensures base <= log[i].start && log[i].End() <= tail
  {
  }

  lemma AllHoldAt(h: Hasher, file: bytes, log: seq<Record>, i: nat)
    requires AllHold(h, file, log) && i < |log|
    ensures Holds(h, file, log[i])
  {
    hide Holds;
  }

  /** Every record of the last sync survives a crash. */
  lemma SyncedSurvive(h: Hasher, base: nat, d: Disk, keep: nat)
    requires Inv(h, base, d) && d.durable <= keep
    ensures d.log[..d.synced] <= Survivors(d.log, keep)
  {
    hide Holds, AllHold, Framed, Ordered, Survivors;
    if d.synced > 0 {
      SurvivorsAreAll(d.log, keep, d.synced - 1);
    }
  }

  lemma CrashKeepsInv(h: Hasher, base: nat, d: Disk, s: Step)
    requires Inv(h, base, d) && s.Crash? && Enabled(h, base, d, s)
    ensures Inv(h, base, Next(h, d, s))
    ensures d.log[..d.synced] <= Next(h, d, s).log
  {
    hide TrailerAt, Holds, AllHold, Framed, Survivors;
    var e := Next(h, d, s);
    assert e.file[..s.keep] == d.file[..s.keep];
    SurvivorsHold(h, base, d, s.keep, e.file);
    SurvivorsFramed(h, base, d, s.keep, e.file);
    SyncedSurvive(h, base, d, s.keep);
    assert e.log[..d.synced] == d.log[..d.synced];
  }

  lemma SyncKeepsInv(h: Hasher, base: nat, d: Disk)
    requires Inv(h, base, d)
    ensures Inv(h, base, Next(h, d, Sync))
  {
    hide Holds, AllHold, Framed;
    assert d.log[..|d.log|] == d.log;
  }

  lemma StepKeepsInv(h: Hasher, base: nat, d: Disk, s: Step)
    requires Inv(h, base, d) && Enabled(h, base, d, s)
    ensures Inv(h, base, Next(h, d, s))
    ensures d.log[..d.synced] <= Next(h, d, s).log
  {
    hide Holds, AllHold, Framed, Ordered;
    match s
    case Append(_, _, _, _) => AppendKeepsInv(h, base, d, s);
    case FailedWrite(_) => FailedWriteKeepsInv(h, base, d, s);
    case Sync => SyncKeepsInv(h, base, d);
    case Crash(_, _) => CrashKeepsInv(h, base, d, s);
  }

  // ----- recovery

  /** The newest record that is a Root Commit with a valid payload. */
  function NewestRoot<R>(codec: Codec<R>, log: seq<Record>): (r: Option<(R, nat)>)
  {
    if log == [] then None
    else
      var last := log[|log| - 1];
      if last.kind == ROOT_COMMIT && codec.Decode(last.payload).Some? then Some((codec.Decode(last.payload).value, last.start))
      else NewestRoot(codec, log[..|log| - 1])
  }

  lemma {:induction false} NewestRootAt<R>(codec: Codec<R>, log: seq<Record>, k: int)
    requires -1 <= k < |log|
    requires forall j | k < j < |log| :: log[j].kind != ROOT_COMMIT || codec.Decode(log[j].payload).None?
    requires k >= 0 ==> log[k].kind == ROOT_COMMIT && codec.Decode(log[k].payload).Some?
    ensures NewestRoot(codec, log) == if k == -1 then None else Some((codec.Decode(log[k].payload).value, log[k].start))
  {
    if log != [] && k < |log| - 1 {
      NewestRootAt(codec, log[..|log| - 1], k);
    }
  }

  /** A held record reads its own root within its own bytes. */
  lemma HeldRoot<R>(h: Hasher, codec: Codec<R>, log: bytes, r: Record)
    requires Holds(h, log, r)
    ensures RootAt(h, codec, log, r.start) == RootAt(h, codec, log[..r.End()], r.start) == codec.Decode(r.payload)
  {
    hide Holds, ReadRecord;
    HeldReads(h, log, r);
    assert r.End() <= |log| by { HeldEnd(h, log, r); }
    HeldInPrefix(h, log, r.End(), r);
    HeldReads(h, log[..r.End()], r);
  }

  lemma HeldEnd(h: Hasher, log: bytes, r: Record)
    requires Holds(h, log, r)
    ensures r.End() <= |log|
  {
  }

  /** When the file ends where the tail is, recovery returns the newest valid Root Commit among the whole records. */
  lemma RecoveryIsNewest<R>(h: Hasher, codec: Codec<R>, base: nat, d: Disk)
    requires Inv(h, base, d) && d.tail == |d.file|
    ensures Recovered(h, codec, d.file, base) == NewestRoot(codec, d.log)
  {
    hide Holds, RootAt, TrailerAt, Framed, RecoverFrom, AllHold;
    var ts := Trailers(h, d.log);
    var k := RecoverySkipsOnlyCorrupt(h, codec, d.file, base, ts, |d.file|);
    forall j | k < j < |ts| ensures d.log[j].kind != ROOT_COMMIT || codec.Decode(d.log[j].payload).None? {
      AllHoldAt(h, d.file, d.log, j);
      HeldRoot(h, codec, d.file, d.log[j]);
      HeldEnd(h, d.file, d.log[j]);
    }
    if k >= 0 {
      AllHoldAt(h, d.file, d.log, k);
      HeldRoot(h, codec, d.file, d.log[k]);
    }
    NewestRootAt(codec, d.log, k);
  }

  // ----- whole runs

  /** Successive states of one file, every crash obeying `Enabled`. */
  ghost predicate Run(h: Hasher, base: nat, ds: seq<Disk>, steps: seq<Step>) {
    |ds| == |steps| + 1 && Inv(h, base, ds[0])
    && forall i | 0 <= i < |steps| :: ds[i].tail <= |ds[i].file| && Enabled(h, base, ds[i], steps[i]) && ds[i + 1] == Next(h, ds[i], steps[i])
  }

  lemma {:induction false} RunKeepsInv(h: Hasher, base: nat, ds: seq<Disk>, steps: seq<Step>, i: nat)
    requires Run(h, base, ds, steps) && i < |ds|
    ensures Inv(h, base, ds[i])
  {
    hide Inv, Enabled, Next;
    if i > 0 {
      RunKeepsInv(h, base, ds, steps, i - 1);
      StepKeepsInv(h, base, ds[i - 1], steps[i - 1]);
    }
  }

  /** What a sync acknowledged stays, and stays acknowledged. */
  lemma StepKeepsSynced(h: Hasher, base: nat, d: Disk, s: Step)
    requires Inv(h, base, d) && Enabled(h, base, d, s)
    ensures var e := Next(h, d, s); e.synced <= |e.log| && d.log[..d.synced] <= e.log[..e.synced]
  {
    hide Holds, AllHold, Framed, Ordered, Overwrite, Encoded, Survivors, TrailerAt;
    StepKeepsInv(h, base, d, s);
    var e := Next(h, d, s);
    assert d.synced <= e.synced <= |e.log|;
    assert d.log[..d.synced] == e.log[..d.synced];
  }

  lemma {:induction false} RunKeepsSynced(h: Hasher, base: nat, ds: seq<Disk>, steps: seq<Step>, i: nat, j: nat)
    requires Run(h, base, ds, steps) && i <= j < |ds|
    ensures ds[i].synced <= |ds[i].log| && ds[j].synced <= |ds[j].log|
    ensures ds[i].log[..ds[i].synced] <= ds[j].log[..ds[j].synced]
    decreases j
  {
    hide Inv, Enabled, Next;
    RunKeepsInv(h, base, ds, steps, j);
    InvSynced(h, base, ds[j]);
    if i < j {
      RunKeepsSynced(h, base, ds, steps, i, j - 1);
      RunKeepsInv(h, base, ds, steps, j - 1);
      StepKeepsSynced(h, base, ds[j - 1], steps[j - 1]);
    }
  }

  lemma InvSynced(h: Hasher, base: nat, d: Disk)
    requires Inv(h, base, d)
    ensures d.synced <= |d.log| && d.tail <= |d.file| && Ordered(base, d.log, d.tail)
  {
    hide Holds, Framed;
  }

  lemma {:induction false} NewestRootGrows<R>(codec: Codec<R>, base: nat, log: seq<Record>, n: nat, tail: nat)
    requires n <= |log| && Ordered(base, log, tail)
    ensures var old_, now := NewestRoot(codec, log[..n]), NewestRoot(codec, log);
      (old_.Some? ==> now.Some? && now.value.1 >= old_.value.1)
      && (now.Some? && now.value.1 < LogEnd(log[..n]) ==> now == old_)
    decreases |log|
  {
    if n < |log| {
      var m := |log| - 1;
      assert log[..m][..n] == log[..n];
      NewestRootGrows(codec, base, log[..m], n, tail);
      NewestRootIn(codec, log[..n]);
    } else {
      assert log[..n] == log;
    }
  }

  lemma {:induction false} NewestRootIn<R>(codec: Codec<R>, log: seq<Record>)
    ensures var r := NewestRoot(codec, log);
      r.Some? ==> exists i | 0 <= i < |log| :: log[i].start == r.value.1 && log[i].kind == ROOT_COMMIT && codec.Decode(log[i].payload) == Some(r.value.0)
  {
    if log != [] {
      var n := |log| - 1;
      NewestRootIn(codec, log[..n]);
      assert NewestRoot(codec, log).Some? && NewestRoot(codec, log) == NewestRoot(codec, log[..n]) ==>
        exists i | 0 <= i < n :: log[i] == log[..n][i] && log[i].start == NewestRoot(codec, log).value.1
          && log[i].kind == ROOT_COMMIT && codec.Decode(log[i].payload) == Some(NewestRoot(codec, log).value.0);
      assert log[n] == log[|log| - 1];
    }
  }

  /**
   The main result. Whatever happened before, recovery of a reopened file returns the newest Root Commit that is
   wholly present and valid; a commit acknowledged at any earlier point is never lost to an older one.
   */
  lemma NoAcknowledgedCommitIsLost<R>(h: Hasher, codec: Codec<R>, base: nat, ds: seq<Disk>, steps: seq<Step>, i: nat, j: nat)
    requires Run(h, base, ds, steps) && i <= j < |ds| && ds[j].tail == |ds[j].file|
    ensures Recovered(h, codec, ds[j].file, base) == NewestRoot(codec, ds[j].log)
    ensures ds[i].synced <= |ds[i].log|
    ensures var acked, found := NewestRoot(codec, ds[i].log[..ds[i].synced]), Recovered(h, codec, ds[j].file, base);
      acked.Some? ==> found.Some? && found.value.1 >= acked.value.1
  {
    hide Inv, Enabled, Next, Recovered, Run, NewestRoot;
    RunKeepsInv(h, base, ds, steps, j);
    RecoveryIsNewest(h, codec, base, ds[j]);
    RunKeepsSynced(h, base, ds, steps, i, j);
    InvSynced(h, base, ds[j]);
    var n := ds[i].synced;
    assert ds[j].log[..n] == ds[i].log[..n];
    NewestRootGrows(codec, base, ds[j].log, n, ds[j].tail);
  }

  /** So every Root Commit that lay in the log when a sync returned stays recoverable, whatever follows. */
  lemma SyncedCommitIsKept<R>(h: Hasher, codec: Codec<R>, base: nat, ds: seq<Disk>, steps: seq<Step>, k: nat, j: nat)
    requires Run(h, base, ds, steps) && k < j < |ds| && steps[k].Sync? && ds[j].tail == |ds[j].file|
    ensures var acked, found := NewestRoot(codec, ds[k].log), Recovered(h, codec, ds[j].file, base);
      acked.Some? ==> found.Some? && found.value.1 >= acked.value.1
  {
    hide Inv, Enabled, Recovered, NewestRoot;
    assert ds[k + 1] == Next(h, ds[k], Sync);
    assert ds[k].log[..|ds[k].log|] == ds[k].log;
    NoAcknowledgedCommitIsLost(h, codec, base, ds, steps, k + 1, j);
  }

  /**
   What a crash leaves: any number of bytes beyond the durable ones, any garbage behind them, and of the records exactly those that lie
   whole in what was kept. A failed write leaves what it wrote behind the tail, and nothing else changes.
   */
  lemma CrashLeaves(h: Hasher, base: nat, d: Disk, keep: nat, junk: bytes, fragment: bytes)
    requires d.tail <= |d.file| && Ordered(base, d.log, d.tail) && d.durable <= keep <= |d.file|
    ensures var e := Next(h, d, Crash(keep, junk));
      e.file == d.file[..keep] + junk && e.tail == |e.file| && e.durable == d.durable && e.log <= d.log
      && forall i | 0 <= i < |d.log| :: i < |e.log| <==> d.log[i].End() <= keep
    ensures var e := Next(h, d, FailedWrite(fragment));
      |e.file| == Max(|d.file|, d.tail + |fragment|) && e.file[..d.tail] == d.file[..d.tail] && e.file[d.tail..d.tail + |fragment|] == fragment
      && e == d.(file := e.file)
  {
    SurvivorsExactly(d.log, base, d.tail, keep);
  }

  lemma {:induction false} SurvivorsExactly(log: seq<Record>, base: nat, tail: nat, keep: nat)
    requires Ordered(base, log, tail)
    ensures forall i | 0 <= i < |log| :: i < |Survivors(log, keep)| <==> log[i].End() <= keep
    decreases |log|
  {
    if log != [] && log[|log| - 1].End() > keep {
      SurvivorsExactly(log[..|log| - 1], base, tail, keep);
    }
  }

  // ----- what a recovered root reaches

  /** Every record refers only to records appended before it. */
  ghost predicate Closed(refs: bytes -> set<nat>, log: seq<Record>) {
    forall i, o | 0 <= i < |log| && o in refs(log[i].payload) :: exists j | 0 <= j < i :: log[j].start == o
  }

  /** Writers append only references to records that are already there; then no step breaks closedness. */
  lemma StepKeepsClosed(h: Hasher, refs: bytes -> set<nat>, d: Disk, s: Step)
    requires d.tail <= |d.file| && Closed(refs, d.log)
    requires s.Append? ==> forall o | o in refs(s.payload) :: exists j | 0 <= j < |d.log| :: d.log[j].start == o
    ensures Closed(refs, Next(h, d, s).log)
  {
    hide Overwrite, Encoded;
    var e := Next(h, d, s);
    forall i, o | 0 <= i < |e.log| && o in refs(e.log[i].payload)
      ensures exists j | 0 <= j < i :: e.log[j].start == o
    {
      if i < |d.log| {
        var j :| 0 <= j < i && d.log[j].start == o;
        assert e.log[j].start == o;
      } else {
        var j :| 0 <= j < |d.log| && d.log[j].start == o;
        assert e.log[j].start == o;
      }
    }
  }

  /** A chain of references, each found in the record read at the previous offset. */
  ghost predicate Path(h: Hasher, refs: bytes -> set<nat>, file: bytes, path: seq<nat>) {
    |path| > 0 && forall k | 0 <= k < |path| - 1 ::
      var r := ReadRecord(h, file, path[k]); r.Some? && path[k + 1] in refs(r.value.payload)
  }

  /** Everything reachable from a recovered root lies before it and reads back as it was appended. */
  lemma {:induction false} ReachableIsReadable<R>(h: Hasher, codec: Codec<R>, refs: bytes -> set<nat>, base: nat, d: Disk, path: seq<nat>)
    returns (j: nat)
    requires Inv(h, base, d) && d.tail == |d.file| && Closed(refs, d.log)
    requires Recovered(h, codec, d.file, base).Some? && Path(h, refs, d.file, path)
    requires path[0] == Recovered(h, codec, d.file, base).value.1
    ensures j < |d.log| && path[|path| - 1] == d.log[j].start
    ensures ReadRecord(h, d.file, path[|path| - 1]) == Some(d.log[j])
    ensures |path| > 1 ==> path[|path| - 1] < path[0]
    decreases |path|
  {
    hide Inv, Holds, Recovered, ReadRecord;
    InvHolds(h, base, d);
    var n := |path| - 1;
    if n == 0 {
      RecoveryIsNewest(h, codec, base, d);
      NewestRootIn(codec, d.log);
      j :| 0 <= j < |d.log| && d.log[j].start == path[0];
    } else {
      PathPrefix(h, refs, d.file, path);
      var i := ReachableIsReadable(h, codec, refs, base, d, path[..n]);
      assert path[n - 1] == path[..n][n - 1] && path[n] in refs(d.log[i].payload);
      j :| 0 <= j < i && d.log[j].start == path[n];
      assert d.log[j].start < d.log[i].start;
    }
    HeldReads(h, d.file, d.log[j]);
  }

  lemma PathPrefix(h: Hasher, refs: bytes -> set<nat>, file: bytes, path: seq<nat>)
    requires |path| > 1 && Path(h, refs, file, path)
    ensures Path(h, refs, file, path[..|path| - 1])
  {
    hide ReadRecord;
    var q := path[..|path| - 1];
    forall k | 0 <= k < |q| - 1
      ensures ReadRecord(h, file, q[k]).Some? && q[k + 1] in refs(ReadRecord(h, file, q[k]).value.payload)
    {
      assert q[k] == path[k] && q[k + 1] == path[k + 1];
    }
  }

  lemma InvHolds(h: Hasher, base: nat, d: Disk)
    requires Inv(h, base, d)
    ensures forall i | 0 <= i < |d.log| :: Holds(h, d.file, d.log[i])
    ensures forall i, j | 0 <= i < j < |d.log| :: d.log[i].start < d.log[j].start
  {
    hide Holds, Framed;
  }

  // ----- the writer itself

  /** The shared state of `acquireLocalWurstArena`: one file and one tail. */
  class LocalArena {
    var file: bytes
    var tail: nat

    /** Opening takes the tail from the file size, garbage included. */
    constructor (image: bytes)
      ensures file == image && tail == |image|
    {
      file := image;
      tail := |image|;
    }

    /**
     Appends one record through a write loop whose calls accept `accepted[0]`, `accepted[1]`, ... bytes; running out of
     answers or an answer of zero is the thrown error. It succeeds exactly for a valid record that the file takes whole, and the tail moves
     only then, after the last byte. Otherwise what the file took lies behind the tail, and of a record that is not valid nothing.
     */
    method AppendRecord(h: Hasher, kind: nat, payload: bytes, previous: nat, sequence: nat, accepted: seq<nat>) returns (start: Option<nat>)
      requires tail <= |file|
      modifies this
      ensures tail <= |file|
      ensures var r := Record(kind, payload, previous, sequence, old(tail));
        start.Some? <==> r.Valid() && Taken(accepted) >= HEADER_SIZE + |payload| + TRAILER_SIZE
      ensures var d, r := Disk(old(file), old(tail), 0, [], 0), Record(kind, payload, previous, sequence, old(tail));
        if start.Some? then
          start.value == old(tail) && var e := Next(h, d, Append(kind, payload, previous, sequence)); file == e.file && tail == e.tail
        else
          tail == old(tail) && var n := if r.Valid() then Taken(accepted) else 0;
            n < HEADER_SIZE + |payload| + TRAILER_SIZE && file == Next(h, d, FailedWrite(Encoded(h, r)[..n])).file
    {
      hide Encoded, Taken, Overwrite;
      var recordStart := tail;
      var r := Record(kind, payload, previous, sequence, recordStart);
      var record := MakeRecord(h, r);
      if record.None? {
        NothingWritten(file, tail, Encoded(h, r));
        return None;
      }
      var body := record.value;
      var written, calls := 0, 0;
      NothingWritten(file, tail, body);
      assert accepted[0..] == accepted;
      while written < |body|
        invariant written <= |body| && calls <= |accepted|
        invariant tail == old(tail) == recordStart && tail + written <= |file|
        invariant file == Overwrite(old(file), recordStart, body[..written]) && |file| >= |old(file)|
        invariant if written < |body| then written + Taken(accepted[calls..]) == Taken(accepted) else Taken(accepted) >= |body|
        decreases |body| - written
      {
        TakenAt(accepted, calls);
        if calls == |accepted| || accepted[calls] == 0 {
          return None;
        }
        var step := Min(accepted[calls], |body| - written);
        OverwriteMore(old(file), recordStart, body, written, step);
        file := Overwrite(file, recordStart + written, body[written..written + step]);
        written := written + step;
        calls := calls + 1;
      }
      assert body[..written] == body;
      tail := tail + |body|;
      return Some(recordStart);
    }
  }

  /** What a file takes that accepts so many bytes at a time: all until it accepts none. */
  function Taken(accepted: seq<nat>): nat { if accepted == [] || accepted[0] == 0 then 0 else accepted[0] + Taken(accepted[1..]) }

  lemma TakenAt(accepted: seq<nat>, i: nat)
    requires i <= |accepted|
    ensures Taken(accepted[i..]) == if i == |accepted| || accepted[i] == 0 then 0 else accepted[i] + Taken(accepted[i + 1..])
  {
    if i < |accepted| {
      assert accepted[i..][1..] == accepted[i + 1..];
    }
  }

  lemma NothingWritten(file: bytes, at: nat, body: bytes)
    requires at <= |file|
    ensures Overwrite(file, at, body[..0]) == file
  {
  }

  lemma OverwriteMore(file: bytes, at: nat, body: bytes, written: nat, step: nat)
    requires at <= |file| && written + step <= |body|
    ensures Overwrite(Overwrite(file, at, body[..written]), at + written, body[written..written + step])
      == Overwrite(file, at, body[..written + step])
  {
    assert body[..written + step] == body[..written] + body[written..written + step];
  }
}
