/**
 The chunks of a PNG (section 3.2 of RFC 2083): parsing and printing them are inverse, and checksums cover what they should.
 */
module Png {
  import opened Bytes
  import Crc

  const SIGNATURE: bytes := [0x89, 0x50, 0x4e, 0x47, 0x0d, 0x0a, 0x1a, 0x0a]
  const IEND: bytes := [0x49, 0x45, 0x4e, 0x44]
  /** "wuSt" */
  const WURST: bytes := [0x77, 0x75, 0x53, 0x74]
  /** "WUSC" */
  const MAGIC: bytes := [0x57, 0x55, 0x53, 0x43]
  const HEADER_SIZE: nat := 24

  function Concat(parts: seq<bytes>): bytes {
    if parts == [] then [] else Concat(parts[..|parts| - 1]) + parts[|parts| - 1]
  }

  lemma {:induction false} ConcatAppend(a: seq<bytes>, b: seq<bytes>)
    ensures Concat(a + b) == Concat(a) + Concat(b)
    decreases |b|
  {
    if b == [] {
      assert a + b == a;
    } else {
      var front, last := b[..|b| - 1], b[|b| - 1];
      assert (a + b)[..|a + b| - 1] == a + front && (a + b)[|a + b| - 1] == last;
      ConcatAppend(a, front);
      assert Concat(a + b) == Concat(a + front) + last;
      assert (Concat(a) + Concat(front)) + last == Concat(a) + (Concat(front) + last);
    }
  }

  lemma ConcatOne(a: bytes)
    ensures Concat([a]) == a
  {
    assert [a][..0] == [];
  }

  // ----- chunks

  /** The four characters of a chunk type. Decoding as ASCII drops the high bit of every byte. */
  function Kind(raw: bytes): (k: bytes)
    requires |raw| >= 8
    ensures |k| == 4
  {
    [raw[4] % 128, raw[5] % 128, raw[6] % 128, raw[7] % 128]
  }

  /** A chunk as it lies in the file: length, type, data, checksum. */
  predicate Raw(raw: bytes) { |raw| >= 12 && |raw| == 12 + BeValue(raw[..4]) }

  function Data(raw: bytes): bytes
    requires |raw| >= 12
  {
    raw[8..|raw| - 4]
  }

  /** `makePngChunk`: the checksum covers type and data. */
  function MakeChunk(kind: bytes, data: bytes): bytes { Be(|data|, 4) + kind + data + Be(Crc.Bitwise(kind + data), 4) }

  lemma MadeChunk(kind: bytes, data: bytes)
    requires |kind| == 4 && |data| < Pow256(4) && forall i | 0 <= i < 4 :: kind[i] < 128
    ensures var raw := MakeChunk(kind, data); Raw(raw) && Kind(raw) == kind && Data(raw) == data
    ensures var raw := MakeChunk(kind, data);
      |raw| == 12 + |data| && BeValue(raw[..4]) == |data| && raw[4..8] == kind && BeValue(raw[8 + |data|..]) == Crc.Bitwise(kind + data)
  {
    hide Be, BeValue, Crc.Bitwise;
    BeRoundTrip(|data|, 4);
    Crc.CrcFits(kind + data);
    BeRoundTrip(Crc.Bitwise(kind + data), 4);
    var raw := MakeChunk(kind, data);
    assert raw[..4] == Be(|data|, 4);
    assert raw[4] == kind[0] && raw[5] == kind[1] && raw[6] == kind[2] && raw[7] == kind[3];
    assert raw[8 + |data|..] == Be(Crc.Bitwise(kind + data), 4);
  }

  /** Chunks up to and including the first IEND. Nothing when there is none, or when a chunk runs over the end. */
  function Scan(rest: bytes): Option<seq<bytes>>
    decreases |rest|
  {
    if |rest| < 12 then None
    else
      var n := 12 + BeValue(rest[..4]);
      if n > |rest| then None
      else if Kind(rest[..n]) == IEND then Some([rest[..n]])
      else
        var more := Scan(rest[n..]);
        if more.None? then None else Some([rest[..n]] + more.value)
  }

  /** Chunks of which exactly the last is IEND. */
  predicate Image(raws: seq<bytes>) {
    raws != [] && (forall i | 0 <= i < |raws| :: Raw(raws[i])) && forall i | 0 <= i < |raws| :: Kind(raws[i]) == IEND <==> i == |raws| - 1
  }

  lemma ConcatCons(raw: bytes, more: seq<bytes>)
    ensures Concat([raw] + more) == raw + Concat(more)
  {
    ConcatAppend([raw], more);
    ConcatOne(raw);
  }

  lemma ImageTail(raws: seq<bytes>)
    requires Image(raws) && |raws| > 1
    ensures Image(raws[1..]) && raws == [raws[0]] + raws[1..] && Kind(raws[0]) != IEND
  {
    var tail := raws[1..];
    forall i | 0 <= i < |tail| ensures Raw(tail[i]) && (Kind(tail[i]) == IEND <==> i == |tail| - 1) {
      assert tail[i] == raws[i + 1];
    }
  }

  lemma ScanHead(raw: bytes, rest: bytes)
    requires Raw(raw)
    ensures Scan(raw + rest) == if Kind(raw) == IEND then Some([raw]) else Prefixed([raw], Scan(rest))
  {
    hide Kind, BeValue;
    var all := raw + rest;
    assert all[..4] == raw[..4] && all[..|raw|] == raw && all[|raw|..] == rest;
  }

  /** What is printed is scanned back, whatever follows it. */
  lemma {:induction false} ScanConcat(raws: seq<bytes>, after: bytes)
    requires Image(raws)
    ensures Scan(Concat(raws) + after) == Some(raws)
    decreases |raws|
  {
    hide Image, Kind, Raw, Scan, Concat;
    ImageHead(raws);
    if |raws| == 1 {
      ConcatOne(raws[0]);
      assert raws == [raws[0]];
      ScanHead(raws[0], after);
    } else {
      ImageTail(raws);
      ConcatCons(raws[0], raws[1..]);
      ScanConcat(raws[1..], after);
      ScanHead(raws[0], Concat(raws[1..]) + after);
      assert (raws[0] + Concat(raws[1..])) + after == raws[0] + (Concat(raws[1..]) + after);
    }
  }

  lemma ImageHead(raws: seq<bytes>)
    requires Image(raws)
    ensures raws != [] && Raw(raws[0]) && |raws[0]| >= 12 && (Kind(raws[0]) == IEND <==> |raws| == 1)
  {
  }

  /** And what is scanned is printed back. */
  lemma {:induction false} ConcatScan(rest: bytes)
    requires Scan(rest).Some?
    ensures var raws := Scan(rest).value; Image(raws) && Concat(raws) <= rest
    decreases |rest|
  {
    hide Kind, BeValue;
    var n := 12 + BeValue(rest[..4]);
    var raw := rest[..n];
    assert raw[..4] == rest[..4];
    if Kind(raw) == IEND {
      ConcatOne(raw);
    } else {
      ConcatScan(rest[n..]);
      var more := Scan(rest[n..]).value;
      ConcatCons(raw, more);
      ImageCons(raw, more);
      assert rest == raw + rest[n..];
    }
  }

  lemma ImageCons(raw: bytes, more: seq<bytes>)
    requires Raw(raw) && Kind(raw) != IEND && Image(more)
    ensures Image([raw] + more)
  {
    hide Kind;
    var raws := [raw] + more;
    forall i | 0 <= i < |raws| ensures Raw(raws[i]) && (Kind(raws[i]) == IEND <==> i == |raws| - 1) {
      if i > 0 {
        assert raws[i] == more[i - 1];
      }
    }
  }

  predicate IsPng(b: bytes) { |b| >= 8 && b[..8] == SIGNATURE }

  /** The chunks of a file that `parsePngChunks` accepts: nothing may follow IEND. */
  function Chunks(png: bytes): Option<seq<bytes>> {
    if !IsPng(png) then None
    else
      var raws := Scan(png[8..]);
      if raws.Some? && |Concat(raws.value)| == |png| - 8 then raws else None
  }

  /** Parsing and printing are inverse: exactly the printed images are accepted. */
  lemma ChunksExactly(png: bytes, raws: seq<bytes>)
    ensures Chunks(png) == Some(raws) <==> Image(raws) && png == SIGNATURE + Concat(raws)
  {
    hide Image, Scan, Concat;
    if Chunks(png) == Some(raws) {
      ConcatScan(png[8..]);
      assert png == png[..8] + png[8..];
    }
    if Image(raws) && png == SIGNATURE + Concat(raws) {
      assert png[8..] == Concat(raws) + [];
      ScanConcat(raws, []);
    }
  }

  datatype Span = Span(kind: bytes, start: nat, end: nat)

  /** Spans of a file and the chunks that lie in them. */
  predicate SpansOf(png: bytes, spans: seq<Span>, raws: seq<bytes>) {
    |spans| == |raws|
    && forall i | 0 <= i < |spans| :: spans[i].start + 12 <= spans[i].end <= |png| && png[spans[i].start..spans[i].end] == raws[i] && spans[i].kind == Kind(raws[i])
  }

  /** How far the parser has come: the chunks seen, their spans, and what is still to be scanned. */
  ghost predicate Parsing(png: bytes, position: nat, spans: seq<Span>, seen: seq<bytes>, sawIend: bool) {
    8 <= position <= |png| && |Concat(seen)| == position - 8 && SpansOf(png, spans, seen)
    && Scan(png[8..]) == if sawIend then Some(seen) else Prefixed(seen, Scan(png[position..]))
  }

  lemma StartParsing(png: bytes)
    requires |png| >= 8
    ensures Parsing(png, 8, [], [], false)
  {
    var more := Scan(png[8..]);
    assert more.Some? ==> [] + more.value == more.value;
  }

  lemma ParseStep(png: bytes, position: nat, spans: seq<Span>, seen: seq<bytes>, end: nat)
    requires Parsing(png, position, spans, seen, false) && position + 12 <= |png| && end == position + 12 + BeValue(png[position..position + 4])
    ensures end > |png| ==> Scan(png[8..]) == None
    ensures end <= |png| ==>
      var raw := png[position..end]; Parsing(png, end, spans + [Span(Kind(raw), position, end)], seen + [raw], Kind(raw) == IEND)
  {
    hide Kind, BeValue, Scan, Concat;
    ScanStep(png, position);
    if end <= |png| {
      var raw := png[position..end];
      ConcatAppend(seen, [raw]);
      ConcatOne(raw);
      SpansSnoc(png, spans, seen, Span(Kind(raw), position, end), raw);
      var more := Scan(png[end..]);
      assert more.Some? ==> seen + ([raw] + more.value) == (seen + [raw]) + more.value;
    }
  }

  lemma SpansSnoc(png: bytes, spans: seq<Span>, raws: seq<bytes>, s: Span, raw: bytes)
    requires SpansOf(png, spans, raws) && s.start + 12 <= s.end <= |png| && png[s.start..s.end] == raw && s.kind == Kind(raw)
    ensures SpansOf(png, spans + [s], raws + [raw])
  {
    hide Kind;
  }

  lemma EndParsing(png: bytes, position: nat, spans: seq<Span>, seen: seq<bytes>, sawIend: bool)
    requires Parsing(png, position, spans, seen, sawIend) && IsPng(png)
    ensures !sawIend && position + 12 > |png| ==> Chunks(png).None?
    ensures sawIend ==> (Chunks(png).Some? <==> position == |png|) && (Chunks(png).Some? ==> SpansOf(png, spans, Chunks(png).value))
  {
    hide Kind, BeValue, Concat, SpansOf;
  }

  /** `parsePngChunks`. */
  method ParsePngChunks(png: bytes) returns (r: Option<seq<Span>>)
    ensures r.Some? <==> Chunks(png).Some?
    ensures r.Some? ==> SpansOf(png, r.value, Chunks(png).value)
  {
    hide Kind, BeValue, Image, Parsing, Scan, Concat, SpansOf, Chunks;
    if !IsPng(png) {
      NoSignature(png);
      return None;
    }
    var spans: seq<Span> := [];
    var position := 8;
    var sawIend := false;
    ghost var seen: seq<bytes> := [];
    StartParsing(png);
    while position + 12 <= |png| && !sawIend
      invariant Parsing(png, position, spans, seen, sawIend)
      decreases |png| - position, !sawIend
    {
      var end := position + 12 + BeValue(png[position..position + 4]);
      ParseStep(png, position, spans, seen, end);
      if end > |png| {
        NoScan(png);
        return None;
      }
      var raw := png[position..end];
      spans := spans + [Span(Kind(raw), position, end)];
      seen := seen + [raw];
      position := end;
      sawIend := Kind(raw) == IEND;
    }
    EndParsing(png, position, spans, seen, sawIend);
    if !sawIend || position != |png| {
      return None;
    }
    return Some(spans);
  }

  lemma NoSignature(png: bytes)
    requires !IsPng(png)
    ensures Chunks(png) == None
  {
  }

  lemma NoScan(png: bytes)
    requires |png| >= 8 && Scan(png[8..]) == None
    ensures Chunks(png) == None
  {
  }

  function Prefixed(front: seq<bytes>, more: Option<seq<bytes>>): Option<seq<bytes>> {
    if more.None? then None else Some(front + more.value)
  }

  lemma ScanStep(png: bytes, position: nat)
    requires position + 12 <= |png|
    ensures var end := position + 12 + BeValue(png[position..position + 4]);
      if end > |png| then Scan(png[position..]) == None
      else if Kind(png[position..end]) == IEND then Scan(png[position..]) == Some([png[position..end]])
      else Scan(png[position..]) == Prefixed([png[position..end]], Scan(png[end..]))
  {
    hide Kind, BeValue;
    var rest := png[position..];
    var end := position + 12 + BeValue(png[position..position + 4]);
    assert rest[..4] == png[position..position + 4];
    if end <= |png| {
      assert rest[..end - position] == png[position..end];
      assert rest[end - position..] == png[end..];
    }
  }
}
