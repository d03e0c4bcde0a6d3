/**
 Editing an archive: `writeZip` lays out the entries it was given, with some of them replaced, removed or added.
 */
module ZipEdit {
  import opened Bytes
  import opened Zip
  import Crc

  /** A map in insertion order: raw name, and the new contents or nothing for a removal. */
  type Replacements = seq<(bytes, Option<bytes>)>

  /** The keys of a map are distinct. */
  ghost predicate Distinct(r: Replacements) { forall i, j | 0 <= i < |r| && 0 <= j < |r| && r[i].0 == r[j].0 :: i == j }

  function Lookup(r: Replacements, name: bytes): Option<Option<bytes>> {
    if r == [] then None else if r[|r| - 1].0 == name then Some(r[|r| - 1].1) else Lookup(r[..|r| - 1], name)
  }

  /** New contents are stored without compression. */
  function StoredEntry(name: bytes, data: bytes, modTime: nat, modDate: nat, externalAttrs: nat): Entry {
    Entry(name, 2048, 0, modTime, modDate, Crc.Bitwise(data), |data|, |data|, externalAttrs, data)
  }

  /** So they need no decompression: method 0, both sizes the length, the checksum of the bytes, and a name marked as UTF-8. */
  lemma StoredFields(name: bytes, data: bytes, modTime: nat, modDate: nat, externalAttrs: nat)
    ensures var e := StoredEntry(name, data, modTime, modDate, externalAttrs);
      e.name == name && e.data == data && e.compression == 0 && e.compressedSize == e.uncompressedSize == |data| && e.crc == Crc.Bitwise(data)
      && Bit(e.flags, 2048) && !Bit(e.flags, 8) && e.modTime == modTime && e.modDate == modDate && e.externalAttrs == externalAttrs
  {
  }

  /** Entries chosen so far, and the names met. */
  datatype Choice = Choice(ordered: seq<Entry>, seen: set<bytes>)

  function Keep(c: Choice, source: Entry, r: Replacements): Option<Choice> {
    var name := SafePath(source.name);
    if name.None? then None
    else if name.value in c.seen then Some(c)
    else
      var seen, found := c.seen + {name.value}, Lookup(r, name.value);
      match found
      case None => Some(Choice(c.ordered + [source.(name := name.value)], seen))
      case Some(None) => Some(Choice(c.ordered, seen))
      case Some(Some(data)) => Some(Choice(c.ordered + [StoredEntry(name.value, data, source.modTime, source.modDate, source.externalAttrs)], seen))
  }

  /** The first loop of `writeZip`. */
  function Kept(es: seq<Entry>, r: Replacements): Option<Choice> {
    if es == [] then Some(Choice([], {}))
    else
      var front := Kept(es[..|es| - 1], r);
      if front.None? then None else Keep(front.value, es[|es| - 1], r)
  }

  function Add(ordered: seq<Entry>, seen: set<bytes>, item: (bytes, Option<bytes>)): Option<seq<Entry>> {
    var name := SafePath(item.0);
    if name.None? then None
    else if name.value in seen || item.1.None? then Some(ordered)
    else Some(ordered + [StoredEntry(name.value, item.1.value, 0, 0, 0)])
  }

  /** The second loop: names that were not there. */
  function Added(r: Replacements, seen: set<bytes>): Option<seq<Entry>> {
    if r == [] then Some([])
    else
      var front := Added(r[..|r| - 1], seen);
      if front.None? then None else Add(front.value, seen, r[|r| - 1])
  }

  /** The entries that `writeZip` writes. */
  function Ordered(es: seq<Entry>, r: Replacements): Option<seq<Entry>> {
    var kept := Kept(es, r);
    if kept.None? then None
    else
      var added := Added(r, kept.value.seen);
      if added.None? then None else Some(kept.value.ordered + added.value)
  }

  // ----- the writer

  lemma {:induction false} KeptFails(es: seq<Entry>, r: Replacements, i: nat)
    requires i <= |es| && Kept(es[..i], r).None?
    ensures Kept(es, r).None?
    decreases |es|
  {
    hide Keep;
    if i == |es| {
      assert es[..i] == es;
    } else {
      assert es[..|es| - 1][..i] == es[..i];
      KeptFails(es[..|es| - 1], r, i);
    }
  }

  lemma {:induction false} AddedFails(r: Replacements, seen: set<bytes>, i: nat)
    requires i <= |r| && Added(r[..i], seen).None?
    ensures Added(r, seen).None?
    decreases |r|
  {
    hide Add;
    if i == |r| {
      assert r[..i] == r;
    } else {
      assert r[..|r| - 1][..i] == r[..i];
      AddedFails(r[..|r| - 1], seen, i);
    }
  }

  lemma {:induction false} LocalsGrow(es: seq<Entry>, i: nat)
    requires i <= |es|
    ensures |Locals(es[..i])| <= |Locals(es)|
    decreases |es|
  {
    hide LocalHeader;
    if i == |es| {
      assert es[..i] == es;
    } else {
      assert es[..|es| - 1][..i] == es[..i];
      LocalsGrow(es[..|es| - 1], i);
    }
  }

  /** The choosing half of `writeZip`. */
  method ChooseEntries(es: seq<Entry>, r: Replacements, table: array<Crc.Word>) returns (o: Option<seq<Entry>>)
    requires Crc.IsTable(table[..])
    ensures o == Ordered(es, r)
  {
    hide Crc.Bitwise, SafePath, Lookup, Crc.IsTable;
    var ordered: seq<Entry> := [];
    var seen: set<bytes> := {};
    var i := 0;
    while i < |es|
      invariant i <= |es| && Kept(es[..i], r) == Some(Choice(ordered, seen))
    {
      assert es[..i + 1][..i] == es[..i];
      var source := es[i];
      var name := SafePath(source.name);
      if name.None? {
        KeptFails(es, r, i + 1);
        return None;
      }
      if name.value !in seen {
        seen := seen + {name.value};
        var found := Lookup(r, name.value);
        if found.None? {
          ordered := ordered + [source.(name := name.value)];
        } else if found.value.Some? {
          var crc := Crc.Crc32(table, found.value.value);
          var size := |found.value.value|;
          ordered := ordered + [Entry(name.value, 2048, 0, source.modTime, source.modDate, crc, size, size, source.externalAttrs, found.value.value)];
        }
      }
      i := i + 1;
    }
    assert es[..i] == es;
    ghost var kept := ordered;
    i := 0;
    assert kept + [] == kept;
    while i < |r|
      invariant i <= |r| && Added(r[..i], seen).Some? && ordered == kept + Added(r[..i], seen).value
    {
      assert r[..i + 1][..i] == r[..i];
      ghost var before := Added(r[..i], seen).value;
      var name := SafePath(r[i].0);
      if name.None? {
        AddedFails(r, seen, i + 1);
        return None;
      }
      if name.value !in seen && r[i].1.Some? {
        var data := r[i].1.value;
        var crc := Crc.Crc32(table, data);
        ordered := ordered + [Entry(name.value, 2048, 0, 0, 0, crc, |data|, |data|, 0, data)];
        assert ordered == kept + (before + [StoredEntry(name.value, data, 0, 0, 0)]);
      }
      i := i + 1;
    }
    assert r[..i] == r;
    return Some(ordered);
  }

  /** `writeZip`: refused beyond 65535 entries or 4 GiB of local parts. */
  method WriteZip(es: seq<Entry>, r: Replacements, table: array<Crc.Word>) returns (b: Option<bytes>)
    requires Crc.IsTable(table[..])
    ensures b.Some? <==> Ordered(es, r).Some? && Writable(Ordered(es, r).value)
    ensures b.Some? ==> b.value == Archive(Ordered(es, r).value)
  {
    hide Crc.IsTable, LocalHeader, CentralHeader, Ordered;
    var chosen := ChooseEntries(es, r, table);
    if chosen.None? || |chosen.value| > 0xffff {
      return None;
    }
    var ordered := chosen.value;
    var locals: bytes := [];
    var centrals: bytes := [];
    var localOffset := 0;
    var i := 0;
    while i < |ordered|
      invariant i <= |ordered| && locals == Locals(ordered[..i]) && centrals == Centrals(ordered[..i])
      invariant localOffset == |locals| <= 0xffffffff
    {
      assert ordered[..i + 1][..i] == ordered[..i];
      var local := LocalHeader(ordered[i]);
      locals := locals + (local + ordered[i].data);
      centrals := centrals + CentralHeader(ordered[i], localOffset);
      localOffset := localOffset + |local| + |ordered[i].data|;
      if localOffset > 0xffffffff {
        LocalsGrow(ordered, i + 1);
        return None;
      }
      i := i + 1;
    }
    assert ordered[..i] == ordered;
    return Some(locals + centrals + Eocd(|ordered|, |centrals|, localOffset, []));
  }

  // ----- what an edit means

  /** The entry that an archive has under a name: the first one. */
  function Find(es: seq<Entry>, name: bytes): Option<Entry> {
    if es == [] then None
    else
      var before := Find(es[..|es| - 1], name);
      if before.Some? then before else if es[|es| - 1].name == name then Some(es[|es| - 1]) else None
  }

  /** All entries under a name. */
  function Named(es: seq<Entry>, name: bytes): seq<Entry> {
    if es == [] then [] else Named(es[..|es| - 1], name) + if es[|es| - 1].name == name then [es[|es| - 1]] else []
  }

  ghost predicate NamesNormal(es: seq<Entry>) { forall i | 0 <= i < |es| :: Normal(es[i].name) }

  /** Every key becomes a safe name. */
  ghost predicate SafeKeys(r: Replacements) { forall i | 0 <= i < |r| :: SafePath(r[i].0).Some? }

  /** What the first loop makes of the entry under a name: only a key that is spelled like the name counts. */
  function Edited(found: Option<Entry>, replacement: Option<Option<bytes>>): Option<Entry> {
    if found.None? || replacement.None? then found
    else if replacement.value.None? then None
    else Some(StoredEntry(found.value.name, replacement.value.value, found.value.modTime, found.value.modDate, found.value.externalAttrs))
  }

  function One(e: Option<Entry>): seq<Entry> { if e.None? then [] else [e.value] }

  /** What the second loop adds under a name that was not there: one entry for every spelling with contents. */
  function NewOnes(r: Replacements, name: bytes): seq<Entry> {
    if r == [] then []
    else
      var last := r[|r| - 1];
      NewOnes(r[..|r| - 1], name) + if SafePath(last.0) == Some(name) && last.1.Some? then [StoredEntry(name, last.1.value, 0, 0, 0)] else []
  }

  lemma NamedSnoc(es: seq<Entry>, e: Entry, name: bytes)
    ensures Named(es + [e], name) == Named(es, name) + if e.name == name then [e] else []
  {
    assert (es + [e])[..|es|] == es;
  }

  lemma {:induction false} NamedAppend(a: seq<Entry>, b: seq<Entry>, name: bytes)
    ensures Named(a + b, name) == Named(a, name) + Named(b, name)
    decreases |b|
  {
    if b == [] {
      assert a + b == a;
    } else {
      var front, last := b[..|b| - 1], b[|b| - 1];
      NamedAppend(a, front, name);
      assert a + b == (a + front) + [last];
      NamedSnoc(a + front, last, name);
    }
  }

  lemma {:induction false} FindIsFirst(es: seq<Entry>, name: bytes)
    ensures Find(es, name) == if Named(es, name) == [] then None else Some(Named(es, name)[0])
    ensures Find(es, name).Some? ==> Find(es, name).value.name == name
    decreases |es|
  {
    if es != [] {
      FindIsFirst(es[..|es| - 1], name);
    }
  }

  /** After the first loop, every name has what the edit makes of its first entry, and no more; it is seen exactly when it was there. */
  lemma {:induction false} KeptNamed(es: seq<Entry>, r: Replacements, name: bytes)
    requires NamesNormal(es)
    ensures var kept := Kept(es, r);
      kept.Some? && (name in kept.value.seen <==> Find(es, name).Some?) && Named(kept.value.ordered, name) == One(Edited(Find(es, name), Lookup(r, name)))
    decreases |es|
  {
    hide SafePath, Crc.Bitwise, Lookup;
    if es != [] {
      var front, last := es[..|es| - 1], es[|es| - 1];
      KeptNamed(front, r, name);
      assert NamesNormal(front) && Normal(last.name);
      KeptLast(Kept(front, r).value, last, r, name);
    }
  }

  lemma KeptLast(c: Choice, e: Entry, r: Replacements, name: bytes)
    requires Normal(e.name)
    ensures var after := Keep(c, e, r);
      after.Some? && after.value.seen == c.seen + {e.name}
      && Named(after.value.ordered, name) ==
         Named(c.ordered, name) + if e.name in c.seen || e.name != name then [] else One(Edited(Some(e), Lookup(r, name)))
  {
    hide SafePath, Crc.Bitwise, Lookup, Named;
    NamedSnoc(c.ordered, e, name);
    var found := Lookup(r, e.name);
    if found.Some? && found.value.Some? {
      NamedSnoc(c.ordered, StoredEntry(e.name, found.value.value, e.modTime, e.modDate, e.externalAttrs), name);
    }
  }

  /** The second loop fails exactly on an unsafe key, and adds nothing under names that were there. */
  lemma {:induction false} AddedNamed(r: Replacements, seen: set<bytes>, name: bytes)
    ensures Added(r, seen).Some? <==> SafeKeys(r)
    ensures SafeKeys(r) ==> Named(Added(r, seen).value, name) == if name in seen then [] else NewOnes(r, name)
    decreases |r|
  {
    hide SafePath, Crc.Bitwise;
    if r != [] {
      var n := |r| - 1;
      AddedNamed(r[..n], seen, name);
      if SafeKeys(r) && SafePath(r[n].0).value !in seen && r[n].1.Some? {
        NamedSnoc(Added(r[..n], seen).value, StoredEntry(SafePath(r[n].0).value, r[n].1.value, 0, 0, 0), name);
      }
    }
  }

  /**
   An edit, name by name, however its keys are spelled. Under a name that is there, the first entry is replaced or goes when a key is
   spelled like it, and stays as it was otherwise. Under a new name there is one entry for every spelling with contents.
   */
  lemma EditNamed(es: seq<Entry>, r: Replacements, name: bytes)
    requires NamesNormal(es)
    ensures Ordered(es, r).Some? <==> SafeKeys(r)
    ensures SafeKeys(r) ==>
      Named(Ordered(es, r).value, name) == if Find(es, name).Some? then One(Edited(Find(es, name), Lookup(r, name))) else NewOnes(r, name)
  {
    hide SafePath, Crc.Bitwise, Kept, Added, Find, Lookup, Named, NewOnes, SafeKeys;
    KeptNamed(es, r, name);
    var kept := Kept(es, r).value;
    AddedNamed(r, kept.seen, name);
    if SafeKeys(r) {
      NamedAppend(kept.ordered, Added(r, kept.seen).value, name);
    }
  }

  // ----- when an edit acts under its names

  lemma {:induction false} LookupFinds(r: Replacements, name: bytes)
    ensures Lookup(r, name).Some? <==> exists k | 0 <= k < |r| :: r[k].0 == name
    ensures Distinct(r) ==> forall k | 0 <= k < |r| && r[k].0 == name :: Lookup(r, name) == Some(r[k].1)
    decreases |r|
  {
    if r != [] {
      var n := |r| - 1;
      LookupFinds(r[..n], name);
      forall k | 0 <= k < |r| && r[k].0 == name && k != n ensures r[..n][k].0 == name {
      }
    }
  }

  /** One replacement takes effect: its name is gone, or has one entry with the new contents. */
  ghost predicate Acts(out: seq<Entry>, key: bytes, data: Option<bytes>)
    requires SafePath(key).Some?
  {
    var there := Named(out, SafePath(key).value);
    if data.None? then there == [] else |there| == 1 && there[0].data == data.value
  }

  ghost predicate ActsUnderNames(es: seq<Entry>, r: Replacements)
    requires SafeKeys(r)
  {
    Ordered(es, r).Some? && forall i | 0 <= i < |r| :: Acts(Ordered(es, r).value, r[i].0, r[i].1)
  }

  /** The same edit with other contents. */
  ghost predicate SameKeys(r: Replacements, q: Replacements) {
    |q| == |r| && forall i | 0 <= i < |r| :: q[i].0 == r[i].0 && (q[i].1.Some? <==> r[i].1.Some?)
  }

  ghost predicate SameName(r: Replacements, i: nat, j: nat)
    requires i < |r| && j < |r|
  {
    i != j && SafePath(r[i].0) == SafePath(r[j].0)
  }

  /** No two keys say the same name, unless both remove it; and a name that is there is spelled by some key as it is in the archive. */
  ghost predicate WellSpelled(es: seq<Entry>, r: Replacements)
    requires SafeKeys(r)
  {
    (forall i, j | 0 <= i < |r| && 0 <= j < |r| && SameName(r, i, j) :: r[i].1.None? && r[j].1.None?)
    && forall i | 0 <= i < |r| && Find(es, SafePath(r[i].0).value).Some? :: Lookup(r, SafePath(r[i].0).value).Some?
  }

  lemma {:induction false} NewOnesAt(r: Replacements, name: bytes, i: nat)
    requires i < |r| && forall j | 0 <= j < |r| && j != i && SafePath(r[j].0) == Some(name) :: r[j].1.None?
    ensures NewOnes(r, name) ==
      if SafePath(r[i].0) == Some(name) && r[i].1.Some? then [StoredEntry(name, r[i].1.value, 0, 0, 0)] else []
    decreases |r|
  {
    hide SafePath, Crc.Bitwise;
    var n := |r| - 1;
    if i < n {
      NewOnesAt(r[..n], name, i);
    } else {
      NoNewOnes(r[..n], name);
    }
  }

  lemma {:induction false} NoNewOnes(r: Replacements, name: bytes)
    requires forall j | 0 <= j < |r| && SafePath(r[j].0) == Some(name) :: r[j].1.None?
    ensures NewOnes(r, name) == []
    decreases |r|
  {
    hide SafePath, Crc.Bitwise;
    if r != [] {
      NoNewOnes(r[..|r| - 1], name);
    }
  }

  lemma WellSpelledActs(es: seq<Entry>, r: Replacements, i: nat)
    requires NamesNormal(es) && Distinct(r) && SafeKeys(r) && WellSpelled(es, r) && i < |r|
    ensures Ordered(es, r).Some? && Acts(Ordered(es, r).value, r[i].0, r[i].1)
  {
    hide SafePath, Crc.Bitwise, Ordered, Find, Lookup, Named, NewOnes;
    var name := SafePath(r[i].0).value;
    SafePathIsNormal(r[i].0);
    EditNamed(es, r, name);
    LookupFinds(r, name);
    if Find(es, name).Some? {
      assert Lookup(r, name).Some?;
      var k :| 0 <= k < |r| && r[k].0 == name;
      assert k != i ==> SameName(r, i, k);
    } else {
      forall j | 0 <= j < |r| && j != i && SafePath(r[j].0) == Some(name) ensures r[j].1.None? {
        assert SameName(r, i, j);
      }
      if r[i].1.None? {
        NoNewOnes(r, name);
      } else {
        NewOnesAt(r, name, i);
      }
    }
  }

  function Longest(es: seq<Entry>): nat { if es == [] then 0 else Max(Longest(es[..|es| - 1]), |es[|es| - 1].data|) }

  lemma {:induction false} FoundIsShort(es: seq<Entry>, name: bytes)
    ensures Find(es, name).Some? ==> |Find(es, name).value.data| <= Longest(es)
    decreases |es|
  {
    if es != [] {
      FoundIsShort(es[..|es| - 1], name);
    }
  }

  /** The same keys with contents that are all different, and different from all that is there. */
  function Told(r: Replacements, from: nat): (q: Replacements)
    ensures |q| == |r|
    ensures forall i | 0 <= i < |r| :: q[i] == (r[i].0, if r[i].1.None? then None else Some(Zeros(from + i + 1)))
  {
    seq(|r|, i requires 0 <= i < |r| => (r[i].0, if r[i].1.None? then None else Some(Zeros(from + i + 1))))
  }

  function Zeros(n: nat): (b: bytes)
    ensures |b| == n
  {
    seq(n, i => 0)
  }

  lemma ActingIsWellSpelled(es: seq<Entry>, r: Replacements)
    requires NamesNormal(es) && SafeKeys(r) && SameKeys(r, Told(r, Longest(es))) && SafeKeys(Told(r, Longest(es)))
    requires ActsUnderNames(es, Told(r, Longest(es)))
    ensures WellSpelled(es, r)
  {
    hide SafePath, Crc.Bitwise, Ordered, Find, Lookup, Named, NewOnes, Longest, Told;
    var q := Told(r, Longest(es));
    var out := Ordered(es, q).value;
    forall i, j | 0 <= i < |r| && 0 <= j < |r| && SameName(r, i, j) ensures r[i].1.None? && r[j].1.None? {
      assert Acts(out, q[i].0, q[i].1) && Acts(out, q[j].0, q[j].1);
    }
    forall i | 0 <= i < |r| && Find(es, SafePath(r[i].0).value).Some? ensures Lookup(r, SafePath(r[i].0).value).Some? {
      var name := SafePath(r[i].0).value;
      assert Acts(out, q[i].0, q[i].1);
      EditNamed(es, q, name);
      FoundIsShort(es, name);
      SameLookups(r, q, name);
    }
  }

  lemma SameLookups(r: Replacements, q: Replacements, name: bytes)
    requires SameKeys(r, q)
    ensures Lookup(q, name).Some? <==> Lookup(r, name).Some?
  {
    hide Lookup;
    LookupFinds(r, name);
    LookupFinds(q, name);
    if k :| 0 <= k < |q| && q[k].0 == name {
      assert r[k].0 == name;
    }
    if k :| 0 <= k < |r| && r[k].0 == name {
      assert q[k].0 == name;
    }
  }

  lemma SameKeysSpelling(es: seq<Entry>, r: Replacements, q: Replacements)
    requires SameKeys(r, q) && SafeKeys(r) && Distinct(r)
    ensures SafeKeys(q) && Distinct(q) && (WellSpelled(es, r) ==> WellSpelled(es, q))
  {
    hide SafePath, Find, Lookup;
    if WellSpelled(es, r) {
      forall i, j | 0 <= i < |q| && 0 <= j < |q| && SameName(q, i, j) ensures q[i].1.None? && q[j].1.None? {
        assert SameName(r, i, j);
      }
      forall i | 0 <= i < |q| && Find(es, SafePath(q[i].0).value).Some? ensures Lookup(q, SafePath(q[i].0).value).Some? {
        SameLookups(r, q, SafePath(q[i].0).value);
      }
    }
  }

  /**
   When every replacement takes effect under its name, whatever its contents are: exactly if no two keys say the same name, unless both
   remove it, and every name that is there is spelled by a key as it is in the archive.
   */
  lemma EditsAct(es: seq<Entry>, r: Replacements)
    requires NamesNormal(es) && Distinct(r) && SafeKeys(r)
    ensures WellSpelled(es, r) <==> forall q: Replacements | SameKeys(r, q) :: SafeKeys(q) && ActsUnderNames(es, q)
  {
    hide Ordered, WellSpelled, SafePath, Told, Longest, Distinct, Acts, SafeKeys;
    if WellSpelled(es, r) {
      forall q: Replacements | SameKeys(r, q) ensures SafeKeys(q) && ActsUnderNames(es, q) {
        SameKeysSpelling(es, r, q);
        assert Ordered(es, q).Some? by { EditNamed(es, q, []); }
        forall i | 0 <= i < |q| ensures SafePath(q[i].0).Some? && Acts(Ordered(es, q).value, q[i].0, q[i].1) {
          assert SafePath(q[i].0).Some? by { SafeAt(q, i); }
          WellSpelledActs(es, q, i);
        }
      }
    }
    if forall q: Replacements | SameKeys(r, q) :: SafeKeys(q) && ActsUnderNames(es, q) {
      assert SameKeys(r, Told(r, Longest(es)));
      ActingIsWellSpelled(es, r);
    }
  }

  lemma SafeAt(r: Replacements, i: nat)
    requires SafeKeys(r) && i < |r|
    ensures SafePath(r[i].0).Some?
  {
  }

  /** With keys that are normalized names, named entries get their new contents or go, new names come in, everything else stays as it is. */
  lemma EditFind(es: seq<Entry>, r: Replacements, name: bytes)
    requires NamesNormal(es) && Distinct(r) && forall i | 0 <= i < |r| :: Normal(r[i].0)
    ensures var out, found, replacement := Ordered(es, r), Find(es, name), Lookup(r, name);
      out.Some? && Find(out.value, name) ==
        if replacement.None? then found
        else if replacement.value.None? then None
        else if found.Some? then Some(StoredEntry(name, replacement.value.value, found.value.modTime, found.value.modDate, found.value.externalAttrs))
        else Some(StoredEntry(name, replacement.value.value, 0, 0, 0))
  {
    hide SafePath, Crc.Bitwise, Ordered, Find, Lookup, Named, NewOnes;
    EditNamed(es, r, name);
    FindIsFirst(es, name);
    FindIsFirst(Ordered(es, r).value, name);
    LookupFinds(r, name);
    if i :| 0 <= i < |r| && r[i].0 == name {
      NewOnesAt(r, name, i);
    } else {
      NoNewOnes(r, name);
    }
  }

  /** A replacement is matched by its raw name: under another spelling it leaves an existing entry as it was. */
  lemma OtherSpellingIsIgnored(es: seq<Entry>, r: Replacements, name: bytes)
    requires NamesNormal(es) && Find(es, name).Some? && Lookup(r, name).None? && SafeKeys(r)
    ensures Ordered(es, r).Some? && Named(Ordered(es, r).value, name) == [Find(es, name).value]
  {
    hide SafePath, Crc.Bitwise, Ordered, Find, Lookup, Named, NewOnes;
    EditNamed(es, r, name);
  }

  lemma LeadingSlash(path: bytes)
    ensures SafePath([SLASH] + path) == SafePath(path)
  {
    hide HasDots;
    assert Slashed([SLASH] + path) == [SLASH] + Slashed(path);
    assert ([SLASH] + Slashed(path))[1..] == Slashed(path);
  }

  /** Such a spelling always exists: with a slash in front, the new contents of an entry are dropped without an error. */
  lemma LeadingSlashIsIgnored(es: seq<Entry>, name: bytes, data: bytes)
    requires NamesNormal(es) && Normal(name) && Find(es, name).Some?
    ensures var r := [([SLASH] + name, Some(data))];
      SafePath(r[0].0) == Some(name) && Ordered(es, r).Some? && Named(Ordered(es, r).value, name) == [Find(es, name).value]
  {
    hide SafePath, Crc.Bitwise, Ordered, Find, Named;
    var r: Replacements := [([SLASH] + name, Some(data))];
    LeadingSlash(name);
    assert r[..0] == [];
    assert Lookup(r, name).None?;
    OtherSpellingIsIgnored(es, r, name);
  }

  /** And a new name in two spellings is written twice. */
  lemma TwoSpellingsAreTwoEntries(es: seq<Entry>, name: bytes, x: bytes, y: bytes)
    requires NamesNormal(es) && Normal(name) && Find(es, name).None?
    ensures var r := [(name, Some(x)), ([SLASH] + name, Some(y))];
      Ordered(es, r).Some? && Named(Ordered(es, r).value, name) == [StoredEntry(name, x, 0, 0, 0), StoredEntry(name, y, 0, 0, 0)]
  {
    hide SafePath, Crc.Bitwise, Ordered, Find, Named, Lookup;
    var r: Replacements := [(name, Some(x)), ([SLASH] + name, Some(y))];
    LeadingSlash(name);
    EditNamed(es, r, name);
    assert r[..1] == [r[0]] && r[..1][..0] == [];
    assert NewOnes(r[..1][..0], name) == [];
    assert NewOnes(r[..1], name) == [StoredEntry(name, x, 0, 0, 0)];
  }

  // ----- order

  /** Some key of the edit says this name. */
  predicate Touched(r: Replacements, name: bytes) { exists i | 0 <= i < |r| :: SafePath(r[i].0) == Some(name) }

  /** The entries that the edit does not name. */
  function Untouched(es: seq<Entry>, r: Replacements): seq<Entry> {
    if es == [] then []
    else Untouched(es[..|es| - 1], r) + if !Touched(r, es[|es| - 1].name) then [es[|es| - 1]] else []
  }

  /** The first entry of every name. */
  function Firsts(es: seq<Entry>): seq<Entry> {
    if es == [] then []
    else Firsts(es[..|es| - 1]) + if Find(es[..|es| - 1], es[|es| - 1].name).None? then [es[|es| - 1]] else []
  }

  lemma UntouchedSnoc(es: seq<Entry>, e: Entry, r: Replacements)
    ensures Untouched(es + [e], r) == Untouched(es, r) + if !Touched(r, e.name) then [e] else []
  {
    assert (es + [e])[..|es|] == es;
  }

  lemma {:induction false} UntouchedAppend(a: seq<Entry>, b: seq<Entry>, r: Replacements)
    requires forall i | 0 <= i < |b| :: Touched(r, b[i].name)
    ensures Untouched(a + b, r) == Untouched(a, r)
    decreases |b|
  {
    hide Touched;
    if b == [] {
      assert a + b == a;
    } else {
      var front, last := b[..|b| - 1], b[|b| - 1];
      UntouchedAppend(a, front, r);
      assert a + b == (a + front) + [last];
      UntouchedSnoc(a + front, last, r);
    }
  }

  lemma SpelledIsTouched(r: Replacements, name: bytes)
    requires Normal(name) && Lookup(r, name).Some?
    ensures Touched(r, name)
  {
    hide SafePath, Lookup;
    LookupFinds(r, name);
  }

  lemma {:induction false} KeptOrder(es: seq<Entry>, r: Replacements)
    requires NamesNormal(es) && Kept(es, r).Some?
    ensures Untouched(Kept(es, r).value.ordered, r) == Untouched(Firsts(es), r)
    decreases |es|
  {
    hide SafePath, Crc.Bitwise, Lookup, Find, Untouched, Touched, Named;
    if es != [] {
      var front, last := es[..|es| - 1], es[|es| - 1];
      KeptNamed(front, r, last.name);
      KeptOrder(front, r);
      assert Normal(last.name);
      var c, found := Kept(front, r).value, Lookup(r, last.name);
      if last.name !in c.seen {
        UntouchedSnoc(Firsts(front), last, r);
        UntouchedSnoc(c.ordered, last, r);
        if found.Some? {
          SpelledIsTouched(r, last.name);
          if found.value.Some? {
            UntouchedSnoc(c.ordered, StoredEntry(last.name, found.value.value, last.modTime, last.modDate, last.externalAttrs), r);
          }
        }
      } else {
        assert Firsts(front) + [] == Firsts(front);
      }
    } else {
      assert Firsts([]) == [];
    }
  }

  lemma {:induction false} AddedNames(r: Replacements, seen: set<bytes>, all: Replacements)
    requires Added(r, seen).Some? && forall i | 0 <= i < |r| && SafePath(r[i].0).Some? :: Touched(all, SafePath(r[i].0).value)
    ensures forall i | 0 <= i < |Added(r, seen).value| :: Touched(all, Added(r, seen).value[i].name)
    decreases |r|
  {
    hide SafePath, Crc.Bitwise, Touched;
    if r != [] {
      AddedNames(r[..|r| - 1], seen, all);
      assert SafePath(r[|r| - 1].0).Some? ==> Touched(all, SafePath(r[|r| - 1].0).value);
    }
  }

  /**
   Entries that no key names come out unchanged and in their order, however the keys are spelled. Of several entries under one name only
   the first comes out.
   */
  lemma EditOrder(es: seq<Entry>, r: Replacements)
    requires NamesNormal(es) && SafeKeys(r)
    ensures Ordered(es, r).Some? && Untouched(Ordered(es, r).value, r) == Untouched(Firsts(es), r)
  {
    hide SafePath, Crc.Bitwise, Kept, Added, Find, Lookup, Untouched, Named, NewOnes;
    EditNamed(es, r, []);
    KeptNamed(es, r, []);
    var kept := Kept(es, r).value;
    KeptOrder(es, r);
    AddedNames(r, kept.seen, r);
    UntouchedAppend(kept.ordered, Added(r, kept.seen).value, r);
  }

  // ----- what an edit writes fits the format

  /** Everything that the reader returns fits, and has a normal name. */
  lemma ParsedEntryFits(b: bytes, cursor: nat)
    requires ParseEntry(b, cursor).Some?
    ensures Fits(ParseEntry(b, cursor).value.0)
  {
    hide LeValue, SafePath, Bit, Pow256, Utf8, WithoutMark;
    Widths();
    forall i: nat | i + 2 <= |b| ensures U16(b, i) < 65536 {
      LeOfValue(b[i..i + 2]);
    }
    forall i: nat | i + 4 <= |b| ensures U32(b, i) < Pow256(4) {
      LeOfValue(b[i..i + 4]);
    }
    var raw := Sub(b, cursor + 46, cursor + 46 + U16(b, cursor + 28));
    SafePathIsNormal(Decoded(raw).value);
    NameIsUtf8(raw);
  }

  lemma {:induction false} ParsedFit(b: bytes, cursor: nat, n: nat)
    requires ParseEntries(b, cursor, n).Some?
    ensures forall i | 0 <= i < |ParseEntries(b, cursor, n).value| :: Fits(ParseEntries(b, cursor, n).value[i])
    decreases n
  {
    hide ParseEntry, Fits;
    if n > 0 {
      ParsedEntryFits(b, cursor);
      ParsedFit(b, ParseEntry(b, cursor).value.1, n - 1);
    }
  }

  /** One replacement that fits: a well-formed key, a safe name, both the name and the contents of a size that the format can say. */
  predicate ItemFits(item: (bytes, Option<bytes>)) {
    Utf8(item.0) && SafePath(item.0).Some? && |SafePath(item.0).value| < 65536 && (item.1.Some? ==> |item.1.value| < Pow256(4))
  }

  ghost predicate ReplacementsFit(r: Replacements) { Distinct(r) && forall i | 0 <= i < |r| :: ItemFits(r[i]) }

  lemma FitsAreSafe(r: Replacements)
    requires ReplacementsFit(r)
    ensures SafeKeys(r)
  {
    hide SafePath, Utf8, Pow256;
  }

  lemma StoredFits(name: bytes, data: bytes, modTime: nat, modDate: nat, externalAttrs: nat)
    requires Normal(name) && Utf8(name) && |name| < 65536 && |data| < Pow256(4) && modTime < 65536 && modDate < 65536 && externalAttrs < Pow256(4)
    ensures Fits(StoredEntry(name, data, modTime, modDate, externalAttrs))
  {
    hide SafePath, Crc.Bitwise, Pow256, Utf8;
    Crc.CrcFits(data);
  }

  lemma {:induction false} LookupFits(r: Replacements, name: bytes)
    requires forall i | 0 <= i < |r| :: ItemFits(r[i])
    ensures var found := Lookup(r, name); found.Some? && found.value.Some? ==> |found.value.value| < Pow256(4)
    decreases |r|
  {
    hide SafePath, Pow256, Utf8;
    if r != [] {
      LookupFits(r[..|r| - 1], name);
      assert ItemFits(r[|r| - 1]);
    }
  }

  lemma {:induction false} KeptFit(es: seq<Entry>, r: Replacements)
    requires Kept(es, r).Some? && (forall i | 0 <= i < |es| :: Fits(es[i])) && forall i | 0 <= i < |r| :: ItemFits(r[i])
    ensures forall i | 0 <= i < |Kept(es, r).value.ordered| :: Fits(Kept(es, r).value.ordered[i])
    decreases |es|
  {
    hide SafePath, Crc.Bitwise, Lookup, Pow256, Utf8, ItemFits;
    if es != [] {
      var last := es[|es| - 1];
      KeptFit(es[..|es| - 1], r);
      assert Fits(last);
      LookupFits(r, last.name);
      var found := Lookup(r, last.name);
      if found.Some? && found.value.Some? {
        StoredFits(last.name, found.value.value, last.modTime, last.modDate, last.externalAttrs);
      }
    }
  }

  lemma NewFits(item: (bytes, Option<bytes>))
    requires ItemFits(item) && item.1.Some?
    ensures Fits(StoredEntry(SafePath(item.0).value, item.1.value, 0, 0, 0))
  {
    hide SafePath, Crc.Bitwise, Pow256, Utf8, Fits;
    Zero();
    SafePathIsNormal(item.0);
    SafePathUtf8(item.0);
    StoredFits(SafePath(item.0).value, item.1.value, 0, 0, 0);
  }

  lemma {:induction false} AddedFit(r: Replacements, seen: set<bytes>)
    requires Added(r, seen).Some? && forall i | 0 <= i < |r| :: ItemFits(r[i])
    ensures forall i | 0 <= i < |Added(r, seen).value| :: Fits(Added(r, seen).value[i])
    decreases |r|
  {
    hide SafePath, Crc.Bitwise, Pow256, Fits, ItemFits, StoredEntry;
    if r != [] {
      AddedFit(r[..|r| - 1], seen);
      if r[|r| - 1].1.Some? {
        NewFits(r[|r| - 1]);
      }
    }
  }

  lemma Zero()
    ensures 0 < Pow256(4)
  {
  }

  lemma OrderedFits(es: seq<Entry>, r: Replacements)
    requires Ordered(es, r).Some? && (forall i | 0 <= i < |es| :: Fits(es[i])) && ReplacementsFit(r)
    ensures forall i | 0 <= i < |Ordered(es, r).value| :: Fits(Ordered(es, r).value[i])
  {
    hide Fits, Kept, Added, ItemFits;
    KeptFit(es, r);
    AddedFit(r, Kept(es, r).value.seen);
  }

  // ----- whole files

  lemma ContentsFit(z: bytes, es: seq<Entry>)
    requires Contains(z, es)
    ensures (forall i | 0 <= i < |es| :: Fits(es[i])) && NamesNormal(es)
  {
    hide EocdAt, Fits, ParseEntries, SafePath;
    var at: nat :| EocdAt(z, at) && at + 22 <= |z| && ParseAt(z, at) == Some(es);
    ParsedFit(z, U32(z, at + 16), U16(z, at + 10));
    forall i | 0 <= i < |es| ensures Normal(es[i].name) {
      FitsNormal(es[i]);
    }
  }

  /**
   An archive that is read, edited and written is read again as the edited entries, reread: exactly as they were written if and only if the
   archive is not taken for ZIP64 and no name of theirs begins with a byte order mark.
   */
  lemma EditedArchive(z: bytes, es: seq<Entry>, r: Replacements)
    requires Contains(z, es) && ReplacementsFit(r)
    ensures Ordered(es, r).Some?
    ensures var out := Ordered(es, r).value;
      Writable(out) ==> forall other :: Contains(Archive(out), other) <==> Classic(out) && AllReread(out) == Some(other)
    ensures var out := Ordered(es, r).value;
      Writable(out) ==> (Contains(Archive(out), AllRewritten(out)) <==> Classic(out) && forall k | 0 <= k < |out| :: !Marked(out[k].name))
    ensures Untouched(Ordered(es, r).value, r) == Untouched(Firsts(es), r)
  {
    hide Fits, Ordered, Contains, Untouched, Firsts, Classic, Writable, Archive, SafePath, ItemFits, AllReread, Marked, SafeKeys;
    ContentsFit(z, es);
    FitsAreSafe(r);
    EditOrder(es, r);
    OrderedFits(es, r);
    var out := Ordered(es, r).value;
    if Writable(out) {
      ParseArchive(out);
    }
  }

  function FromScratch(r: Replacements): (es: seq<Entry>)
    requires SafeKeys(r) && forall i | 0 <= i < |r| :: r[i].1.Some?
    ensures |es| == |r| && forall i | 0 <= i < |r| :: es[i] == StoredEntry(SafePath(r[i].0).value, r[i].1.value, 0, 0, 0)
  {
    seq(|r|, i requires 0 <= i < |r| => StoredEntry(SafePath(r[i].0).value, r[i].1.value, 0, 0, 0))
  }

  lemma {:induction false} AddedToNothing(r: Replacements)
    requires SafeKeys(r) && forall i | 0 <= i < |r| :: r[i].1.Some?
    ensures Added(r, {}) == Some(FromScratch(r))
    decreases |r|
  {
    hide SafePath, Crc.Bitwise;
    if r == [] {
      assert FromScratch(r) == [];
    } else {
      AddedToNothing(r[..|r| - 1]);
      assert FromScratch(r) == FromScratch(r[..|r| - 1]) + [FromScratch(r)[|r| - 1]];
    }
  }

  /** A new archive is read as exactly the files it was made of, in their order, if and only if it is not taken for ZIP64 and no name begins with a mark. */
  lemma NewArchive(r: Replacements)
    requires ReplacementsFit(r) && SafeKeys(r) && (forall i | 0 <= i < |r| :: r[i].1.Some?) && Writable(FromScratch(r))
    ensures Ordered([], r) == Some(FromScratch(r))
    ensures forall other :: Contains(Archive(FromScratch(r)), other) <==> Classic(FromScratch(r)) && AllReread(FromScratch(r)) == Some(other)
    ensures Contains(Archive(FromScratch(r)), AllRewritten(FromScratch(r))) <==>
      Classic(FromScratch(r)) && forall i | 0 <= i < |r| :: !Marked(SafePath(r[i].0).value)
    ensures forall i | 0 <= i < |r| :: AllRewritten(FromScratch(r))[i].name == SafePath(r[i].0).value && AllRewritten(FromScratch(r))[i].data == r[i].1.value
  {
    hide Fits, Contains, Classic, Writable, Archive, SafePath, Crc.Bitwise, ItemFits, AllReread, Marked;
    AddedToNothing(r);
    var es := FromScratch(r);
    assert [] + es == es;
    assert Kept([], r) == Some(Choice([], {}));
    OrderedFits([], r);
    ParseArchive(es);
    assert forall i | 0 <= i < |r| :: es[i].name == SafePath(r[i].0).value;
  }

  // ----- an archive that is written and cannot be read

  function Letter(n: nat): byte
    requires n < 16
  {
    97 + n
  }

  /** Four letters. */
  function NumberName(i: nat): bytes
    requires i < 65536
  {
    [Letter(i / 16 / 16 / 16), Letter(i / 16 / 16 % 16), Letter(i / 16 % 16), Letter(i % 16)]
  }

  /** 65535 empty files. */
  function ManyFiles(): (r: Replacements)
    ensures |r| == 65535 && forall i | 0 <= i < 65535 :: r[i] == (NumberName(i), Some([]))
  {
    seq(65535, i requires 0 <= i < 65535 => (NumberName(i), Some([])))
  }

  lemma NumberNameFits(i: nat)
    requires i < 65536
    ensures Normal(NumberName(i)) && Utf8(NumberName(i))
  {
    hide SafePath;
    var name := NumberName(i);
    NoDots(name);
    assert Unit(name) == Unit(name[1..]) == Unit(name[2..]) == Unit(name[3..]) == 1;
    assert name[1..][1..] == name[2..] && name[2..][1..] == name[3..] && name[3..][1..] == [];
    assert Utf8(name[3..]);
    assert Utf8(name[2..]);
    assert Utf8(name[1..]);
  }

  lemma NumberNameIsInjective(i: nat, j: nat)
    requires i < 65536 && j < 65536 && NumberName(i) == NumberName(j)
    ensures i == j
  {
    var a, b := NumberName(i), NumberName(j);
    assert a[0] == b[0] && a[1] == b[1] && a[2] == b[2] && a[3] == b[3];
    assert i / 16 / 16 == j / 16 / 16 && i / 16 == j / 16;
  }

  lemma {:induction false} LocalsOfEmpty(es: seq<Entry>)
    requires forall i | 0 <= i < |es| :: |es[i].name| == 4 && es[i].data == []
    ensures |Locals(es)| == 34 * |es|
    decreases |es|
  {
    hide LocalHeader;
    if es != [] {
      LocalsOfEmpty(es[..|es| - 1]);
    }
  }

  /** 65535 files are written, and the archive is not read: its count is taken for ZIP64. */
  lemma ManyFilesAreUnreadable()
    ensures var r := ManyFiles();
      ReplacementsFit(r) && SafeKeys(r) && Ordered([], r) == Some(FromScratch(r)) && Writable(FromScratch(r))
      && forall other :: !Contains(Archive(FromScratch(r)), other)
  {
    hide SafePath, Crc.Bitwise, Utf8, Contains, Archive, Fits, AllReread, NumberName, Pow256, Locals;
    var r := ManyFiles();
    forall i | 0 <= i < |r| ensures ItemFits(r[i]) && SafePath(r[i].0) == Some(r[i].0) && |r[i].0| == 4 {
      NumberNameFits(i);
      FourLetters(i);
      Zero();
    }
    forall i, j | 0 <= i < |r| && 0 <= j < |r| && r[i].0 == r[j].0 ensures i == j {
      NumberNameIsInjective(i, j);
    }
    var es := FromScratch(r);
    LocalsOfEmpty(es);
    NewArchive(r);
  }

  lemma FourLetters(i: nat)
    requires i < 65536
    ensures |NumberName(i)| == 4
  {
  }
}
