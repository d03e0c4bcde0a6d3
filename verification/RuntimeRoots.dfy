/**
 The Root Commit decides which PigFS commit counts: a recovered pair of roots is one that was published as a pair.
 */
module RuntimeRoots {
  import opened Bytes
  import opened Records
  import opened Framing
  import opened Recovery
  import opened Arena

  /** What one index page says about the host object: go on at an earlier page, its state head, nothing, or it is malformed. */
  datatype Look = Descend(offset: nat) | Host(head: Option<nat>) | Missing | Broken

  /** How roots are decoded: Root Commits, their object table, its pages, and PigFS commits. */
  datatype Reader<!R, !F> = Reader(codec: Codec<R>, table: R -> Option<nat>, look: Record -> Look, fs: bytes -> Option<F>)

  type Lookup = int -> Option<Record>

  function FromFile(h: Hasher, file: bytes): Lookup { (o: int) => if o < 0 then None else ReadRecord(h, file, o) }

  function FromLog(log: seq<Record>): Lookup { (o: int) => RecordIn(log, o) }

  /** The host object of a root: a walk down the object table, page by page. Pages refer to earlier records only. */
  function FindHost(read: Lookup, look: Record -> Look, offset: nat): Look
    decreases offset
  {
    var page := read(offset);
    if page.None? then Broken
    else
      var l := look(page.value);
      if l.Descend? then (if l.offset < offset then FindHost(read, look, l.offset) else Broken) else l
  }

  function HostOf<R, F>(read: Lookup, reader: Reader<R, F>, root: R): Look {
    var table := reader.table(root);
    if table.None? then Missing else FindHost(read, reader.look, table.value)
  }

  /** `loadFsRootAt`: no offset is no root; otherwise a COMMIT that decodes, or an error (`None`). */
  function FsRootAt<R, F>(read: Lookup, reader: Reader<R, F>, head: Option<nat>): Option<Option<F>> {
    if head.None? then Some(None)
    else
      var r := read(head.value);
      if r.None? || r.value.kind != COMMIT then None
      else
        var f := reader.fs(r.value.payload);
        if f.None? then None else Some(f)
  }

  /** `loadLatestFsRoot`: the physically newest COMMIT. */
  function LatestFsRoot<R, F>(h: Hasher, reader: Reader<R, F>, file: bytes, base: nat): Option<Option<F>> {
    var located := Locate(file, base, Some({COMMIT}));
    FsRootAt(FromFile(h, file), reader, if located.None? then None else Some(located.value.start))
  }

  /** The loaded roots: the object root with its offset, and the PigFS root; or an error. */
  datatype Loaded<R, F> = Loaded(root: Option<(R, nat)>, fs: Option<F>) | LoadFailed

  /** `loadAuthoritativeRuntimeRoots`. */
  function LoadRuntimeRoots<R, F>(h: Hasher, reader: Reader<R, F>, file: bytes, base: nat, physicalLatest: bool): Loaded<R, F> {
    var root := Recovered(h, reader.codec, file, base);
    var read := FromFile(h, file);
    var host := if root.None? then Missing else HostOf(read, reader, root.value.0);
    if host.Broken? then LoadFailed
    else
      var fs := if !physicalLatest && host.Host? then FsRootAt(read, reader, host.head) else LatestFsRoot(h, reader, file, base);
      if fs.None? then LoadFailed else Loaded(root, fs.value)
  }

  // ----- what a Root Commit publishes

  /** The record of a log that starts at an offset. */
  function RecordIn(log: seq<Record>, offset: int): Option<Record> {
    if log == [] then None
    else if log[|log| - 1].start == offset then Some(log[|log| - 1])
    else RecordIn(log[..|log| - 1], offset)
  }

  /** The pair that a Root Commit with this payload publishes on top of these records; nothing when it names no host or no COMMIT. */
  function PairOf<R, F>(reader: Reader<R, F>, log: seq<Record>, payload: bytes): Option<(R, Option<F>)> {
    var root := reader.codec.Decode(payload);
    if root.None? then None
    else
      var host := HostOf(FromLog(log), reader, root.value);
      if !host.Host? then None
      else
        var fs := FsRootAt(FromLog(log), reader, host.head);
        if fs.None? then None else Some((root.value, fs.value))
  }

  /** Writers publish a Root Commit only on top of the pages and the COMMIT that it names. */
  predicate Publishes<R, F>(reader: Reader<R, F>, log: seq<Record>, kind: nat, payload: bytes) {
    kind == ROOT_COMMIT && reader.codec.Decode(payload).Some? ==> PairOf(reader, log, payload).Some?
  }

  predicate Coherent<R, F>(reader: Reader<R, F>, log: seq<Record>) {
    forall j | 0 <= j < |log| :: Publishes(reader, log[..j], log[j].kind, log[j].payload)
  }

  lemma StepKeepsCoherent<R, F>(h: Hasher, reader: Reader<R, F>, d: Disk, s: Step)
    requires d.tail <= |d.file| && Coherent(reader, d.log)
    requires s.Append? ==> Publishes(reader, d.log, s.kind, s.payload)
    ensures Coherent(reader, Next(h, d, s).log)
  {
    hide Overwrite, Encoded, Publishes;
    var e := Next(h, d, s);
    forall j | 0 <= j < |e.log| ensures Publishes(reader, e.log[..j], e.log[j].kind, e.log[j].payload) {
      if j < |d.log| {
        assert e.log[..j] == d.log[..j];
      } else {
        assert e.log[..j] == d.log;
      }
    }
  }

  // ----- reading the file is reading the log

  lemma {:induction false} RecordIsMember(log: seq<Record>, offset: int) returns (i: nat)
    requires RecordIn(log, offset).Some?
    ensures i < |log| && log[i].start == offset && RecordIn(log, offset) == Some(log[i])
  {
    if log[|log| - 1].start == offset {
      i := |log| - 1;
    } else {
      i := RecordIsMember(log[..|log| - 1], offset);
    }
  }

  /** One source of records agrees with another wherever it has a record. */
  ghost predicate Extends(read: Lookup, more: Lookup) {
    forall o: int :: read(o).Some? ==> more(o) == read(o)
  }

  lemma {:induction false} FindHostMore(read: Lookup, more: Lookup, look: Record -> Look, offset: nat)
    requires Extends(read, more) && !FindHost(read, look, offset).Broken?
    ensures FindHost(more, look, offset) == FindHost(read, look, offset)
    decreases offset
  {
    var page := read(offset);
    if page.Some? {
      assert more(offset) == page;
      var l := look(page.value);
      if l.Descend? {
        FindHostMore(read, more, look, l.offset);
      }
    }
  }

  lemma HostOfMore<R, F>(read: Lookup, more: Lookup, reader: Reader<R, F>, root: R)
    requires Extends(read, more) && HostOf(read, reader, root).Host?
    ensures HostOf(more, reader, root) == HostOf(read, reader, root)
  {
    hide FindHost, Extends;
    FindHostMore(read, more, reader.look, reader.table(root).value);
  }

  lemma FsRootMore<R, F>(read: Lookup, more: Lookup, reader: Reader<R, F>, head: Option<nat>)
    requires Extends(read, more) && FsRootAt(read, reader, head).Some?
    ensures FsRootAt(more, reader, head) == FsRootAt(read, reader, head)
  {
  }

  /** Every record of the log reads back from the file at its own offset. */
  lemma FileExtendsLog(h: Hasher, base: nat, d: Disk, n: nat)
    requires Inv(h, base, d) && n <= |d.log|
    ensures Extends(FromLog(d.log[..n]), FromFile(h, d.file))
  {
    hide Inv, Holds, ReadRecord, RecordIn;
    InvHolds(h, base, d);
    forall o: int | RecordIn(d.log[..n], o).Some? ensures o >= 0 && ReadRecord(h, d.file, o) == RecordIn(d.log[..n], o) {
      var i := RecordIsMember(d.log[..n], o);
      HeldReads(h, d.file, d.log[i]);
    }
  }

  // ----- the recovered pair

  /** The index of the newest valid Root Commit. */
  lemma {:induction false} NewestRootIndex<R>(codec: Codec<R>, log: seq<Record>) returns (k: nat)
    requires NewestRoot(codec, log).Some?
    ensures k < |log| && log[k].kind == ROOT_COMMIT && codec.Decode(log[k].payload).Some?
    ensures NewestRoot(codec, log) == Some((codec.Decode(log[k].payload).value, log[k].start))
    ensures forall j | k < j < |log| :: log[j].kind != ROOT_COMMIT || codec.Decode(log[j].payload).None?
  {
    var n := |log| - 1;
    if log[n].kind == ROOT_COMMIT && codec.Decode(log[n].payload).Some? {
      k := n;
    } else {
      k := NewestRootIndex(codec, log[..n]);
    }
  }

  /**
   On a reopened file the loaded pair is the one that the newest valid Root Commit published when it was appended; PigFS commits
   prepared since then, or prepared before and not named by it, do not count.
   */
  lemma LoadsPublishedPair<R, F>(h: Hasher, reader: Reader<R, F>, base: nat, d: Disk) returns (k: nat)
    requires Inv(h, base, d) && d.tail == |d.file| && Coherent(reader, d.log) && NewestRoot(reader.codec, d.log).Some?
    ensures k < |d.log| && d.log[k].kind == ROOT_COMMIT && PairOf(reader, d.log[..k], d.log[k].payload).Some?
    ensures forall j | k < j < |d.log| :: d.log[j].kind != ROOT_COMMIT || reader.codec.Decode(d.log[j].payload).None?
    ensures var pair := PairOf(reader, d.log[..k], d.log[k].payload).value;
      LoadRuntimeRoots(h, reader, d.file, base, false) == Loaded(Some((pair.0, d.log[k].start)), pair.1)
  {
    hide Inv, Recovered, ReadRecord, RecordIn, HostOf, FsRootAt, Extends;
    RecoveryIsNewest(h, reader.codec, base, d);
    k := NewestRootIndex(reader.codec, d.log);
    var read, file := FromLog(d.log[..k]), FromFile(h, d.file);
    FileExtendsLog(h, base, d, k);
    assert Publishes(reader, d.log[..k], d.log[k].kind, d.log[k].payload);
    var root := reader.codec.Decode(d.log[k].payload).value;
    HostOfMore(read, file, reader, root);
    FsRootMore(read, file, reader, HostOf(read, reader, root).head);
  }

  // ----- whole runs

  /** Every record that is in the log at some time was appended at an earlier time, on top of exactly the records below it. */
  lemma {:induction false} WasAppended(h: Hasher, base: nat, ds: seq<Disk>, steps: seq<Step>, j: nat, k: nat) returns (i: nat)
    requires Run(h, base, ds, steps) && ds[0].log == [] && j < |ds| && k < |ds[j].log|
    ensures i < j && steps[i].Append? && ds[i].log == ds[j].log[..k]
    ensures var s := steps[i]; ds[j].log[k] == Record(s.kind, s.payload, s.previous, s.sequence, ds[i].tail)
    decreases j
  {
    hide Inv, Enabled, Overwrite, Encoded, Survivors;
    var d, e, s := ds[j - 1], ds[j], steps[j - 1];
    assert e == Next(h, d, s);
    if k < |d.log| {
      assert e.log[..k] == d.log[..k] && e.log[k] == d.log[k] by { StillThere(h, d, s, k); }
      i := WasAppended(h, base, ds, steps, j - 1, k);
    } else {
      assert e.log[..k] == d.log;
      i := j - 1;
    }
  }

  lemma StillThere(h: Hasher, d: Disk, s: Step, k: nat)
    requires d.tail <= |d.file| && k < |d.log| && k < |Next(h, d, s).log|
    ensures Next(h, d, s).log[..k] == d.log[..k] && Next(h, d, s).log[k] == d.log[k]
  {
    hide Overwrite, Encoded, Survivors;
    var e := Next(h, d, s);
    assert e.log <= d.log || d.log <= e.log;
  }

  /** All writers of the run publish only on top of what they name. */
  predicate WellPublished<R, F>(reader: Reader<R, F>, ds: seq<Disk>, steps: seq<Step>)
    requires |ds| == |steps| + 1
  {
    forall i | 0 <= i < |steps| && steps[i].Append? :: Publishes(reader, ds[i].log, steps[i].kind, steps[i].payload)
  }

  lemma {:induction false} RunCoherent<R, F>(h: Hasher, reader: Reader<R, F>, base: nat, ds: seq<Disk>, steps: seq<Step>, j: nat)
    requires Run(h, base, ds, steps) && ds[0].log == [] && WellPublished(reader, ds, steps) && j < |ds|
    ensures Coherent(reader, ds[j].log)
  {
    hide Inv, Enabled, Next, Publishes;
    if j > 0 {
      RunCoherent(h, reader, base, ds, steps, j - 1);
      StepKeepsCoherent(h, reader, ds[j - 1], steps[j - 1]);
    }
  }

  /**
   Over every run of appends, failed writes, syncs, crashes and reopenings: the loaded pair (object root, PigFS root) is exactly
   the pair that some writer published by one Root Commit, as it was at that moment.
   */
  lemma RecoveredPairWasPublished<R, F>(h: Hasher, reader: Reader<R, F>, base: nat, ds: seq<Disk>, steps: seq<Step>, j: nat) returns (i: nat)
    requires Run(h, base, ds, steps) && ds[0].log == [] && WellPublished(reader, ds, steps)
    requires j < |ds| && ds[j].tail == |ds[j].file| && NewestRoot(reader.codec, ds[j].log).Some?
    ensures i < j && steps[i].Append? && steps[i].kind == ROOT_COMMIT && PairOf(reader, ds[i].log, steps[i].payload).Some?
    ensures var pair := PairOf(reader, ds[i].log, steps[i].payload).value;
      LoadRuntimeRoots(h, reader, ds[j].file, base, false) == Loaded(Some((pair.0, ds[i].tail)), pair.1)
  {
    hide Inv, Run, PairOf, LoadRuntimeRoots, Next, NewestRoot;
    RunKeepsInv(h, base, ds, steps, j);
    RunCoherent(h, reader, base, ds, steps, j);
    var k := LoadsPublishedPair(h, reader, base, ds[j]);
    i := WasAppended(h, base, ds, steps, j, k);
  }

  // ----- the writer's own protocol: COMMIT, host state, Root Commit

  /** The head that asking for the physical tail finds: the newest COMMIT, or none; an error when it does not decode. */
  function PhysicalHead<R, F>(reader: Reader<R, F>, log: seq<Record>): Option<Option<nat>> {
    var commit := NewestCommit(log);
    if commit.None? then Some(None)
    else if reader.fs(commit.value.payload).None? then None
    else Some(Some(commit.value.start))
  }

  /** The state head of the host object of a root, on these records. */
  function HeadOf<R, F>(reader: Reader<R, F>, log: seq<Record>, root: R): Option<nat> {
    var host := HostOf(FromLog(log), reader, root);
    if host.Host? then host.head else None
  }

  /** The published head, and how many records lay in the file when it was opened. */
  datatype Writer = Writer(head: Option<nat>, since: nat)

  /** What opening a file finds: the head that the newest Root Commit names. */
  function Opened<R, F>(reader: Reader<R, F>, log: seq<Record>): Writer {
    var root := NewestRoot(reader.codec, log);
    Writer(if root.None? then None else HeadOf(reader, log, root.value.0), |log|)
  }

  /** What a writer carries from step to step. */
  function Remember<R, F>(h: Hasher, reader: Reader<R, F>, d: Disk, w: Writer, s: Step): Writer
    requires d.tail <= |d.file|
  {
    match s
    case Append(kind, payload, _, _) =>
      var root := reader.codec.Decode(payload);
      if Next(h, d, s).log != d.log && kind == ROOT_COMMIT && root.Some? then w.(head := HeadOf(reader, d.log, root.value)) else w
    case FailedWrite(_) => w
    case Sync => w
    case Crash(_, _) => Opened(reader, Next(h, d, s).log)
  }

  /**
   Why a Root Commit is appended: the object store carries the published head along, as after a group of object transactions, or `refresh`
   asks for the physical tail and hands what it finds to `syncHostState`.
   */
  datatype Cause = Carried | Refreshed

  predicate IsRoot<R, F>(reader: Reader<R, F>, s: Step) { s.Append? && s.kind == ROOT_COMMIT && reader.codec.Decode(s.payload).Some? }

  /** A Root Commit names the head that its cause says. */
  predicate Follows<R, F>(reader: Reader<R, F>, d: Disk, w: Writer, s: Step, cause: Cause) {
    IsRoot(reader, s) ==>
      var host := HostOf(FromLog(d.log), reader, reader.codec.Decode(s.payload).value);
      host.Host? && match cause case Carried => host.head == w.head case Refreshed => PhysicalHead(reader, d.log) == Some(host.head)
  }

  /** The head is there: nothing, or a COMMIT of the log that decodes. */
  predicate HeadOk<R, F>(reader: Reader<R, F>, log: seq<Record>, head: Option<nat>) { FsRootAt(FromLog(log), reader, head).Some? }

  /** A run of writers that keep to the protocol, each starting from what it finds in the file. */
  ghost predicate ProtocolRun<R, F>(h: Hasher, reader: Reader<R, F>, base: nat, ds: seq<Disk>, steps: seq<Step>, ws: seq<Writer>, causes: seq<Cause>) {
    Run(h, base, ds, steps) && ds[0].log == [] && |ws| == |ds| && |causes| == |steps| && ws[0] == Writer(None, 0)
    && forall i | 0 <= i < |steps| :: Follows(reader, ds[i], ws[i], steps[i], causes[i]) && ws[i + 1] == Remember(h, reader, ds[i], ws[i], steps[i])
  }

  /** In an ordered log a longer log finds what a shorter one does. */
  lemma LogExtends(base: nat, log: seq<Record>, n: nat, tail: nat)
    requires Ordered(base, log, tail) && n <= |log|
    ensures Extends(FromLog(log[..n]), FromLog(log))
  {
    hide RecordIn;
    forall o: int | RecordIn(log[..n], o).Some? ensures RecordIn(log, o) == RecordIn(log[..n], o) {
      var i := RecordIsMember(log[..n], o);
      RecordFound(base, log, tail, i);
    }
  }

  lemma {:induction false} RecordFound(base: nat, log: seq<Record>, tail: nat, i: nat)
    requires Ordered(base, log, tail) && i < |log|
    ensures RecordIn(log, log[i].start) == Some(log[i])
    decreases |log|
  {
    var n := |log| - 1;
    if i < n {
      assert log[i].End() <= log[n].start && log[i].start < log[i].End();
      RecordFound(base, log[..n], tail, i);
    }
  }

  /** The physically newest COMMIT, when it decodes, is there. */
  lemma PhysicalHeadIsOk<R, F>(reader: Reader<R, F>, base: nat, log: seq<Record>, tail: nat)
    requires Ordered(base, log, tail) && PhysicalHead(reader, log).Some?
    ensures HeadOk(reader, log, PhysicalHead(reader, log).value)
  {
    hide RecordIn, NewestCommit, Ordered;
    if NewestCommit(log).Some? {
      var i := NewestCommitIn(log);
      RecordFound(base, log, tail, i);
    }
  }

  lemma AppendKeepsHead<R, F>(h: Hasher, reader: Reader<R, F>, base: nat, d: Disk, w: Writer, s: Step, cause: Cause)
    requires Inv(h, base, d) && s.Append? && Follows(reader, d, w, s, cause) && HeadOk(reader, d.log, w.head)
    ensures HeadOk(reader, Next(h, d, s).log, Remember(h, reader, d, w, s).head) && Publishes(reader, d.log, s.kind, s.payload)
    ensures d.log <= Next(h, d, s).log && Remember(h, reader, d, w, s).since == w.since
  {
    hide Holds, AllHold, Framed, Overwrite, Encoded, FsRootAt, RecordIn, HostOf, Extends, PhysicalHead;
    var e, now := Next(h, d, s), Remember(h, reader, d, w, s).head;
    AppendKeepsInv(h, base, d, s);
    assert e.log[..|d.log|] == d.log;
    LogExtends(base, e.log, |d.log|, e.tail);
    if PhysicalHead(reader, d.log).Some? {
      PhysicalHeadIsOk(reader, base, d.log, d.tail);
    }
    FsRootMore(FromLog(d.log), FromLog(e.log), reader, now);
  }

  /** The head found in a reopened file is the one that its newest Root Commit published. */
  lemma OpenedIsOk<R, F>(reader: Reader<R, F>, base: nat, log: seq<Record>, tail: nat)
    requires Ordered(base, log, tail) && Coherent(reader, log)
    ensures HeadOk(reader, log, Opened(reader, log).head)
  {
    hide RecordIn, HostOf, FsRootAt, Extends, Coherent, NewestRoot;
    if NewestRoot(reader.codec, log).Some? {
      var k := NewestRootIndex(reader.codec, log);
      CoherentAt(reader, log, k);
      LogExtends(base, log, k, tail);
      var root := reader.codec.Decode(log[k].payload).value;
      HostOfMore(FromLog(log[..k]), FromLog(log), reader, root);
      FsRootMore(FromLog(log[..k]), FromLog(log), reader, HostOf(FromLog(log[..k]), reader, root).head);
    } else {
      NoHeadIsNoRoot(reader, log);
    }
  }

  lemma CoherentAt<R, F>(reader: Reader<R, F>, log: seq<Record>, k: nat)
    requires Coherent(reader, log) && k < |log| && log[k].kind == ROOT_COMMIT && reader.codec.Decode(log[k].payload).Some?
    ensures PairOf(reader, log[..k], log[k].payload).Some?
  {
    hide PairOf;
    assert Publishes(reader, log[..k], log[k].kind, log[k].payload);
  }

  lemma NoHeadIsNoRoot<R, F>(reader: Reader<R, F>, log: seq<Record>)
    ensures FsRootAt(FromLog(log), reader, None).Some?
  {
  }

  /** At every moment of a protocol run the log is coherent, holds what was there at the last opening, and the published head is there. */
  lemma {:induction false} ProtocolKeeps<R, F>(h: Hasher, reader: Reader<R, F>, base: nat, ds: seq<Disk>, steps: seq<Step>, ws: seq<Writer>, causes: seq<Cause>, j: nat)
    requires ProtocolRun(h, reader, base, ds, steps, ws, causes) && j < |ds|
    ensures Inv(h, base, ds[j]) && Coherent(reader, ds[j].log) && HeadOk(reader, ds[j].log, ws[j].head) && ws[j].since <= |ds[j].log|
    decreases j
  {
    hide Inv, Enabled, Next, Follows, HeadOk, Remember, Coherent;
    RunKeepsInv(h, base, ds, steps, j);
    if j == 0 {
      NothingPublished(reader);
    } else {
      ProtocolKeeps(h, reader, base, ds, steps, ws, causes, j - 1);
      ProtocolStep(h, reader, base, ds[j - 1], ws[j - 1], steps[j - 1], causes[j - 1]);
    }
  }

  lemma NothingPublished<R, F>(reader: Reader<R, F>)
    ensures Coherent(reader, []) && HeadOk(reader, [], None)
  {
  }

  lemma ProtocolStep<R, F>(h: Hasher, reader: Reader<R, F>, base: nat, d: Disk, w: Writer, s: Step, cause: Cause)
    requires Inv(h, base, d) && Enabled(h, base, d, s) && Coherent(reader, d.log) && HeadOk(reader, d.log, w.head) && w.since <= |d.log|
    requires Follows(reader, d, w, s, cause)
    ensures var e, now := Next(h, d, s), Remember(h, reader, d, w, s);
      Coherent(reader, e.log) && HeadOk(reader, e.log, now.head) && now.since <= |e.log|
  {
    hide Holds, AllHold, Framed, Ordered, Coherent, HeadOk, Publishes, Follows, Encoded, Overwrite, Survivors, NewestRoot, HeadOf;
    if s.Append? {
      AppendKeepsHead(h, reader, base, d, w, s, cause);
    }
    StepKeepsCoherent(h, reader, d, s);
    if s.Crash? {
      StepKeepsInv(h, base, d, s);
      InvSynced(h, base, Next(h, d, s));
      OpenedIsOk(reader, base, Next(h, d, s).log, Next(h, d, s).tail);
    }
  }

  /** Writers that keep to the protocol publish only on top of what they name. */
  lemma ProtocolIsWellPublished<R, F>(h: Hasher, reader: Reader<R, F>, base: nat, ds: seq<Disk>, steps: seq<Step>, ws: seq<Writer>, causes: seq<Cause>)
    requires ProtocolRun(h, reader, base, ds, steps, ws, causes)
    ensures WellPublished(reader, ds, steps)
  {
    hide Inv, Enabled, Next, Follows, HeadOk, Remember, Coherent, Publishes;
    forall i | 0 <= i < |steps| && steps[i].Append? ensures Publishes(reader, ds[i].log, steps[i].kind, steps[i].payload) {
      ProtocolKeeps(h, reader, base, ds, steps, ws, causes, i);
      AppendKeepsHead(h, reader, base, ds[i], ws[i], steps[i], causes[i]);
    }
  }

  // ----- COMMITs that a crash left behind

  /** The COMMIT lies in the log from this record on. */
  predicate CommitFrom(log: seq<Record>, from: nat, head: Option<nat>) {
    head.Some? && exists k | from <= k < |log| :: log[k].kind == COMMIT && log[k].start == head.value
  }

  /** The COMMIT lay in the log when it was opened, and was not the published one: prepared, and never published or published no more. */
  predicate Orphaned(log: seq<Record>, w: Writer, head: Option<nat>) {
    w.since <= |log| && CommitFrom(log[..w.since], 0, head) && head != w.head
  }

  predicate NoCommitFrom(log: seq<Record>, from: nat) { forall k | from <= k < |log| :: log[k].kind != COMMIT }

  /** What the caller of `refresh` could check: nothing was committed since the file was opened, and the newest COMMIT is not the published one. */
  predicate Stale<R, F>(reader: Reader<R, F>, log: seq<Record>, w: Writer) {
    NoCommitFrom(log, w.since) && PhysicalHead(reader, log) != Some(w.head)
  }

  lemma {:induction false} NewestCommitLast(log: seq<Record>, i: nat)
    requires i < |log| && log[i].kind == COMMIT
    ensures NewestCommit(log).Some? && exists n | i <= n < |log| :: log[n].kind == COMMIT && NewestCommit(log) == Some(log[n])
    decreases |log|
  {
    var n := |log| - 1;
    if log[n].kind != COMMIT {
      NewestCommitLast(log[..n], i);
      var m :| i <= m < n && log[..n][m].kind == COMMIT && NewestCommit(log[..n]) == Some(log[..n][m]);
      assert log[m] == log[..n][m];
    }
  }

  /** A refresh names an orphaned COMMIT exactly if the state is stale; otherwise it names the published head, or a COMMIT made since the opening. */
  lemma RefreshNames<R, F>(reader: Reader<R, F>, base: nat, log: seq<Record>, tail: nat, w: Writer)
    requires Ordered(base, log, tail) && w.since <= |log| && HeadOk(reader, log, w.head) && PhysicalHead(reader, log).Some?
    ensures var named := PhysicalHead(reader, log).value;
      (Orphaned(log, w, named) <==> Stale(reader, log, w)) && (!Stale(reader, log, w) ==> named == w.head || CommitFrom(log, w.since, named))
  {
    hide RecordIn;
    var named := PhysicalHead(reader, log).value;
    if NewestCommit(log).None? {
      if w.head.Some? {
        var k := RecordIsMember(log, w.head.value);
        NewestCommitLast(log, k);
      }
    } else {
      var n := NewestCommitIn(log);
      OneStart(base, log, tail);
      if NoCommitFrom(log, w.since) {
        assert n < w.since;
        assert log[..w.since][n] == log[n];
      } else {
        var k :| w.since <= k < |log| && log[k].kind == COMMIT;
        NewestCommitLast(log, k);
        var m :| k <= m < |log| && log[m].kind == COMMIT && NewestCommit(log) == Some(log[m]);
        assert log[m].start == named.value;
        forall x | 0 <= x < w.since ensures log[..w.since][x].start != named.value {
          assert log[x].start < log[m].start;
        }
      }
    }
  }

  lemma OneStart(base: nat, log: seq<Record>, tail: nat)
    requires Ordered(base, log, tail)
    ensures forall i, j | 0 <= i < j < |log| :: log[i].start < log[j].start
  {
    forall i, j | 0 <= i < j < |log| ensures log[i].start < log[j].start {
      assert log[i].End() <= log[j].start;
    }
  }

  /**
   At every Root Commit of every run: it publishes an orphaned COMMIT exactly if it comes from a refresh in a stale state. Otherwise it
   publishes the head that is published already, or a COMMIT appended since the file was opened.
   */
  lemma RootCommitNames<R, F>(h: Hasher, reader: Reader<R, F>, base: nat, ds: seq<Disk>, steps: seq<Step>, ws: seq<Writer>, causes: seq<Cause>, i: nat)
    requires ProtocolRun(h, reader, base, ds, steps, ws, causes) && i < |steps| && IsRoot(reader, steps[i])
    ensures var log, w, named := ds[i].log, ws[i], HeadOf(reader, ds[i].log, reader.codec.Decode(steps[i].payload).value);
      (Orphaned(log, w, named) <==> causes[i].Refreshed? && Stale(reader, log, w))
      && (Orphaned(log, w, named) || named == w.head || CommitFrom(log, w.since, named))
  {
    hide Enabled, Next, Remember, HostOf, HeadOk, PhysicalHead, Orphaned, Stale, CommitFrom, Inv, Coherent;
    ProtocolKeeps(h, reader, base, ds, steps, ws, causes, i);
    InvSynced(h, base, ds[i]);
    assert Follows(reader, ds[i], ws[i], steps[i], causes[i]);
    if causes[i].Refreshed? {
      RefreshNames(reader, base, ds[i].log, ds[i].tail, ws[i]);
    } else {
      PublishedIsNoOrphan(ds[i].log, ws[i]);
    }
  }

  lemma PublishedIsNoOrphan(log: seq<Record>, w: Writer)
    ensures !Orphaned(log, w, w.head)
  {
  }

  /**
   Over every run of such writers, crashes included, the loaded pair is one that was published as a pair. Its PigFS root is an orphaned
   COMMIT exactly if it was published by a refresh in a stale state, and otherwise one published before or committed since the opening.
   */
  lemma ProtocolLoadsPublishedPair<R, F>(h: Hasher, reader: Reader<R, F>, base: nat, ds: seq<Disk>, steps: seq<Step>, ws: seq<Writer>, causes: seq<Cause>, j: nat)
    returns (i: nat, head: Option<nat>)
    requires ProtocolRun(h, reader, base, ds, steps, ws, causes)
    requires j < |ds| && ds[j].tail == |ds[j].file| && NewestRoot(reader.codec, ds[j].log).Some?
    ensures i < j && IsRoot(reader, steps[i]) && head == HeadOf(reader, ds[i].log, reader.codec.Decode(steps[i].payload).value)
    ensures var root, fs := reader.codec.Decode(steps[i].payload).value, FsRootAt(FromLog(ds[i].log), reader, head);
      fs.Some? && LoadRuntimeRoots(h, reader, ds[j].file, base, false) == Loaded(Some((root, ds[i].tail)), fs.value)
    ensures Orphaned(ds[i].log, ws[i], head) <==> causes[i].Refreshed? && Stale(reader, ds[i].log, ws[i])
    ensures Orphaned(ds[i].log, ws[i], head) || head == ws[i].head || CommitFrom(ds[i].log, ws[i].since, head)
  {
    hide Inv, Enabled, LoadRuntimeRoots, Next, NewestRoot, HostOf, FsRootAt, WellPublished, Remember, PhysicalHead, Orphaned, Stale, CommitFrom, Follows;
    ProtocolIsWellPublished(h, reader, base, ds, steps, ws, causes);
    i := RecoveredPairWasPublished(h, reader, base, ds, steps, j);
    head := HostOf(FromLog(ds[i].log), reader, reader.codec.Decode(steps[i].payload).value).head;
    RootCommitNames(h, reader, base, ds, steps, ws, causes, i);
  }

  // ----- a run in which an orphaned COMMIT becomes authoritative

  /** One byte is one payload: COMMITs 1 and 4, index pages 2 and 5 that name them, roots 3 and 6 over these pages. */
  function TinyReader(): Reader<nat, nat> {
    Reader(Codec((payload: bytes) => if payload == [3] then Some(97) else if payload == [6] then Some(388) else None, (root: nat) => true, (root: nat) => true, (root: nat) => true),
      (root: nat) => Some(root),
      (page: Record) => if page.payload == [2] then Host(Some(0)) else if page.payload == [5] then Host(Some(291)) else Broken,
      (payload: bytes) => if payload == [1] then Some(1) else if payload == [4] then Some(4) else None)
  }

  const INDEX_PAGE: nat := 20

  /** COMMIT, page and Root Commit; a second COMMIT; a crash that keeps all four; then a refresh: page and Root Commit. */
  function TinySteps(): seq<Step> {
    [Append(COMMIT, [1], 0, 0), Append(INDEX_PAGE, [2], 0, 0), Append(ROOT_COMMIT, [3], 0, 0), Append(COMMIT, [4], 0, 0), Crash(388, []),
      Append(INDEX_PAGE, [5], 0, 0), Append(ROOT_COMMIT, [6], 0, 0)]
  }

  function TinyRecords(): seq<Record> {
    [Record(COMMIT, [1], 0, 0, 0), Record(INDEX_PAGE, [2], 0, 0, 97), Record(ROOT_COMMIT, [3], 0, 0, 194), Record(COMMIT, [4], 0, 0, 291),
      Record(INDEX_PAGE, [5], 0, 0, 388), Record(ROOT_COMMIT, [6], 0, 0, 485)]
  }

  /** How many of these records lie in the file after `n` steps. */
  function TinyCount(n: nat): nat { if n <= 4 then n else n - 1 }

  function TinyDisk(h: Hasher, n: nat): (d: Disk)
    requires n <= 7
    ensures d.tail <= |d.file|
  {
    if n == 0 then Disk([], 0, 0, [], 0) else Next(h, TinyDisk(h, n - 1), TinySteps()[n - 1])
  }

  function TinyWriter(n: nat): Writer { Writer(if n < 3 then None else if n < 7 then Some(0) else Some(291), if n < 5 then 0 else 4) }

  const TINY_CAUSES: seq<Cause> := [Carried, Carried, Refreshed, Carried, Carried, Carried, Refreshed]

  lemma {:induction false} TinyState(h: Hasher, n: nat)
    requires n <= 7
    ensures var d := TinyDisk(h, n);
      d.log == TinyRecords()[..TinyCount(n)] && d.tail == |d.file| == 97 * TinyCount(n) && d.durable == 0 && d.synced == 0
  {
    hide Encoded, Overwrite, TinyRecords;
    if n > 0 {
      TinyState(h, n - 1);
      if n != 5 {
        TinyAppend(h, n);
      } else {
        TinyCrash(h);
      }
    }
  }

  lemma TinyAppend(h: Hasher, n: nat)
    requires 0 < n <= 7 && n != 5
    requires var d := TinyDisk(h, n - 1);
      d.log == TinyRecords()[..TinyCount(n - 1)] && d.tail == |d.file| == 97 * TinyCount(n - 1) && d.durable == 0 && d.synced == 0
    ensures var d := TinyDisk(h, n);
      d.log == TinyRecords()[..TinyCount(n)] && d.tail == |d.file| == 97 * TinyCount(n) && d.durable == 0 && d.synced == 0
  {
    hide Encoded, Overwrite, TinyDisk;
    NextTiny(h, n - 1);
    var d, s, k := TinyDisk(h, n - 1), TinySteps()[n - 1], TinyCount(n - 1);
    var r := Record(s.kind, s.payload, 0, 0, d.tail);
    assert r == TinyRecords()[k] && r.Valid();
    assert TinyRecords()[..k + 1] == TinyRecords()[..k] + [TinyRecords()[k]];
  }

  lemma TinyCrash(h: Hasher)
    requires var d := TinyDisk(h, 4); d.log == TinyRecords()[..4] && d.tail == |d.file| == 388 && d.durable == 0 && d.synced == 0
    ensures var d := TinyDisk(h, 5); d.log == TinyRecords()[..4] && d.tail == |d.file| == 388 && d.durable == 0 && d.synced == 0
  {
    var d := TinyDisk(h, 4);
    assert TinySteps()[4] == Crash(388, []);
    assert d.log[|d.log| - 1] == TinyRecords()[3] && TinyRecords()[3].End() == 388;
  }

  /** Where the records lie, and which host the two roots find. */
  lemma TinyHosts(k: nat)
    requires k <= 6
    ensures var log, reader := TinyRecords()[..k], TinyReader();
      (k >= 2 ==> HostOf(FromLog(log), reader, 97) == Host(Some(0)) && FsRootAt(FromLog(log), reader, Some(0)) == Some(Some(1)))
      && (k >= 5 ==> HostOf(FromLog(log), reader, 388) == Host(Some(291)) && FsRootAt(FromLog(log), reader, Some(291)) == Some(Some(4)))
  {
    hide RecordIn;
    var log, all := TinyRecords()[..k], TinyRecords();
    assert Ordered(0, log, 97 * k);
    forall i | 0 <= i < k ensures RecordIn(log, 97 * i) == Some(all[i]) {
      assert log[i] == all[i] && all[i].start == 97 * i;
      RecordFound(0, log, 97 * k, i);
    }
    assert k >= 2 ==> RecordIn(log, 97 * 1) == Some(all[1]) && RecordIn(log, 97 * 0) == Some(all[0]);
    assert k >= 5 ==> RecordIn(log, 97 * 4) == Some(all[4]) && RecordIn(log, 97 * 3) == Some(all[3]);
  }

  lemma TinyNewest(k: nat)
    requires k <= 6
    ensures var log, reader := TinyRecords()[..k], TinyReader();
      NewestRoot(reader.codec, log) == (if k < 3 then None else if k < 6 then Some((97, 194)) else Some((388, 485)))
      && PhysicalHead(reader, log) == Some(if k == 0 then None else if k < 4 then Some(0) else Some(291))
  {
    var log, reader, all := TinyRecords()[..k], TinyReader(), TinyRecords();
    if k > 0 {
      TinyNewest(k - 1);
      assert log[..k - 1] == all[..k - 1] && log[k - 1] == all[k - 1];
    }
  }

  lemma TinyStep(h: Hasher, i: nat)
    requires i < 7
    ensures var d, s, reader := TinyDisk(h, i), TinySteps()[i], TinyReader();
      Enabled(h, 0, d, s) && Follows(reader, d, TinyWriter(i), s, TINY_CAUSES[i]) && Remember(h, reader, d, TinyWriter(i), s) == TinyWriter(i + 1)
  {
    hide Encoded, Overwrite, HostOf, NewestRoot, PhysicalHead, FsRootAt, Survivors, TinyDisk;
    var d, reader := TinyDisk(h, i), TinyReader();
    TinyState(h, i);
    TinyState(h, i + 1);
    assert TinyDisk(h, i + 1) == Next(h, d, TinySteps()[i]) by { NextTiny(h, i); }
    TinyHosts(TinyCount(i));
    TinyNewest(TinyCount(i));
    TinyNewest(TinyCount(i + 1));
    TinyHosts(TinyCount(i + 1));
    if i == 4 {
      assert LogEnd(TinyRecords()[..4]) == 388;
    }
  }

  lemma NextTiny(h: Hasher, i: nat)
    requires i < 7
    ensures TinyDisk(h, i + 1) == Next(h, TinyDisk(h, i), TinySteps()[i])
  {
  }

  /**
   A COMMIT is prepared, the process dies before its Root Commit, and the reopened file means the COMMIT published before. Then a refresh
   without a new COMMIT makes the orphaned one authoritative, although no Root Commit before the crash named it.
   */
  lemma OrphanBecomesAuthoritative(h: Hasher) returns (ds: seq<Disk>, ws: seq<Writer>)
    ensures ProtocolRun(h, TinyReader(), 0, ds, TinySteps(), ws, TINY_CAUSES)
    ensures |ds| == |ws| == 8 && forall i | 0 <= i < 8 :: ds[i] == TinyDisk(h, i) && ws[i] == TinyWriter(i)
    ensures forall i | 0 <= i < 4 && IsRoot(TinyReader(), TinySteps()[i]) ::
      HeadOf(TinyReader(), ds[i].log, TinyReader().codec.Decode(TinySteps()[i].payload).value) == Some(0)
    ensures LoadRuntimeRoots(h, TinyReader(), ds[5].file, 0, false) == Loaded(Some((97, 194)), Some(1))
    ensures Orphaned(ds[6].log, ws[6], Some(291)) && Stale(TinyReader(), ds[6].log, ws[6])
    ensures LoadRuntimeRoots(h, TinyReader(), ds[7].file, 0, false) == Loaded(Some((388, 485)), Some(4))
  {
    hide Inv, Enabled, Next, Remember, Follows, LoadRuntimeRoots, HostOf, NewestRoot, FsRootAt, TinyDisk, PhysicalHead, Coherent, HeadOk;
    var reader, steps := TinyReader(), TinySteps();
    ds, ws := seq(8, i requires 0 <= i < 8 => TinyDisk(h, i)), seq(8, i requires 0 <= i < 8 => TinyWriter(i));
    assert ds[0] == Disk([], 0, 0, [], 0) by { TinyStart(h); }
    InitialInv(h, []);
    forall i | 0 <= i < |steps|
      ensures ds[i].tail <= |ds[i].file| && Enabled(h, 0, ds[i], steps[i]) && ds[i + 1] == Next(h, ds[i], steps[i])
      ensures Follows(reader, ds[i], ws[i], steps[i], TINY_CAUSES[i]) && ws[i + 1] == Remember(h, reader, ds[i], ws[i], steps[i])
    {
      TinyStep(h, i);
      NextTiny(h, i);
    }
    TinyState(h, 2);
    TinyHosts(2);
    TinyState(h, 6);
    TinyNewest(5);
    assert ds[6].log[..4][3] == TinyRecords()[3];
    TinyLoads(h, ds, ws, 5, 2);
    TinyLoads(h, ds, ws, 7, 5);
  }

  lemma TinyStart(h: Hasher)
    ensures TinyDisk(h, 0) == Disk([], 0, 0, [], 0)
  {
  }

  lemma TinyLoads(h: Hasher, ds: seq<Disk>, ws: seq<Writer>, j: nat, k: nat)
    requires |ds| == 8 && ((j == 5 && k == 2) || (j == 7 && k == 5)) && ds[j] == TinyDisk(h, j)
    requires ProtocolRun(h, TinyReader(), 0, ds, TinySteps(), ws, TINY_CAUSES)
    ensures LoadRuntimeRoots(h, TinyReader(), ds[j].file, 0, false) == if j == 5 then Loaded(Some((97, 194)), Some(1)) else Loaded(Some((388, 485)), Some(4))
  {
    hide Inv, ProtocolRun, LoadRuntimeRoots, HostOf, NewestRoot, FsRootAt, TinyDisk, Coherent, HeadOk;
    TinyState(h, j);
    ProtocolKeeps(h, TinyReader(), 0, ds, TinySteps(), ws, TINY_CAUSES, j);
    TinyNewest(TinyCount(j));
    var n := LoadsPublishedPair(h, TinyReader(), 0, ds[j]);
    assert n == k by {
      assert ds[j].log[k] == TinyRecords()[k] && TinyRecords()[k].kind == ROOT_COMMIT;
      assert ds[j].log[n] == TinyRecords()[n];
    }
    assert ds[j].log[..k] == TinyRecords()[..k];
    TinyHosts(k);
  }

  /** What the newest whole COMMIT is loaded as, next to an object root: nothing, its state, or an error when it does not decode. */
  function WithNewestCommit<R, F>(reader: Reader<R, F>, log: seq<Record>, root: Option<(R, nat)>): Loaded<R, F> {
    var commit := NewestCommit(log);
    if commit.None? then Loaded(root, None)
    else if reader.fs(commit.value.payload).None? then LoadFailed
    else Loaded(root, reader.fs(commit.value.payload))
  }

  /**
   Before the first Root Commit, for a host that the object table does not list, and whenever the physical tail is asked for, the newest
   whole COMMIT counts. Asking for the tail changes neither the object root nor that a malformed table is an error.
   */
  lemma LoadsPhysicalLatest<R, F>(h: Hasher, reader: Reader<R, F>, base: nat, d: Disk, physicalLatest: bool)
    requires Inv(h, base, d) && d.tail == |d.file|
    ensures var root := NewestRoot(reader.codec, d.log);
      var host := if root.None? then Missing else HostOf(FromFile(h, d.file), reader, root.value.0);
      (host.Broken? ==> LoadRuntimeRoots(h, reader, d.file, base, physicalLatest) == LoadFailed)
      && (host.Missing? || (host.Host? && physicalLatest) ==>
        LoadRuntimeRoots(h, reader, d.file, base, physicalLatest) == WithNewestCommit(reader, d.log, root))
  {
    hide Inv, Recovered, ReadRecord, Locate, HostOf, NewestRoot, NewestCommit;
    RecoveryIsNewest(h, reader.codec, base, d);
    LocateCommit(h, base, d);
    if NewestCommit(d.log).Some? {
      var i := NewestCommitIn(d.log);
      InvHolds(h, base, d);
      HeldReads(h, d.file, d.log[i]);
    }
  }

  function NewestCommit(log: seq<Record>): Option<Record> {
    if log == [] then None else if log[|log| - 1].kind == COMMIT then Some(log[|log| - 1]) else NewestCommit(log[..|log| - 1])
  }

  lemma {:induction false} NewestCommitIn(log: seq<Record>) returns (i: nat)
    requires NewestCommit(log).Some?
    ensures i < |log| && NewestCommit(log) == Some(log[i]) && log[i].kind == COMMIT
  {
    if log[|log| - 1].kind == COMMIT {
      i := |log| - 1;
    } else {
      i := NewestCommitIn(log[..|log| - 1]);
    }
  }

  lemma LocateCommit(h: Hasher, base: nat, d: Disk)
    requires Inv(h, base, d) && d.tail == |d.file|
    ensures var located, commit := Locate(d.file, base, Some({COMMIT})), NewestCommit(d.log);
      (located.None? <==> commit.None?) && (located.Some? ==> located.value.start == commit.value.start)
  {
    hide LatestFrom, Holds, AllHold, Framed, Newest, NewestCommit;
    LocateFindsNewest(d.file, base, Trailers(h, d.log), |d.file|, Some({COMMIT}));
    NewestOfTrailers(h, d.log);
  }

  lemma {:induction false} NewestOfTrailers(h: Hasher, log: seq<Record>)
    ensures var t, commit := Newest(Trailers(h, log), Some({COMMIT})), NewestCommit(log);
      (t.None? <==> commit.None?) && (t.Some? ==> t.value.start == commit.value.start)
  {
    if log != [] {
      assert Trailers(h, log)[..|log| - 1] == Trailers(h, log[..|log| - 1]);
      NewestOfTrailers(h, log[..|log| - 1]);
    }
  }
}
