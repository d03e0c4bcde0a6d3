/**
 ZIP archives without compression of their own (sections 4.3.7, 4.3.12 and 4.3.16 of PKWARE APPNOTE.TXT): what reading an archive
 gives back of what was written into it. Names are their UTF-8 bytes.
 */
module Zip {
  import opened Bytes

  const SIG_LOCAL: nat := 0x04034b50
  const SIG_CENTRAL: nat := 0x02014b50
  const SIG_EOCD: nat := 0x06054b50
  const SLASH: byte := 47
  const BACKSLASH: byte := 92
  const DOT: byte := 46

  datatype Entry = Entry(
    name: bytes, flags: nat, compression: nat, modTime: nat, modDate: nat, crc: nat,
    compressedSize: nat, uncompressedSize: nat, externalAttrs: nat, data: bytes)

  // ----- names

  function Slashed(path: bytes): (r: bytes)
    ensures |r| == |path| && forall i | 0 <= i < |r| :: r[i] == if path[i] == BACKSLASH then SLASH else path[i]
  {
    seq(|path|, i requires 0 <= i < |path| => if path[i] == BACKSLASH then SLASH else path[i])
  }

  function Stripped(path: bytes): (r: bytes)
    ensures |r| <= |path| && r == path[|path| - |r|..] && (r != [] ==> r[0] != SLASH)
  {
    if path != [] && path[0] == SLASH then Stripped(path[1..]) else path
  }

  /** These bytes are a whole segment, and that is "." or "..". */
  predicate DotSegment(path: bytes, i: int, j: int) {
    0 <= i <= j <= |path| && (i == 0 || path[i - 1] == SLASH) && (j == |path| || path[j] == SLASH) && (path[i..j] == [DOT] || path[i..j] == [DOT, DOT])
  }

  predicate HasDots(path: bytes) { exists i, j | 0 <= i <= j <= |path| :: DotSegment(path, i, j) }

  /** `safeZipPath`. */
  function SafePath(path: bytes): Option<bytes> {
    var r := Stripped(Slashed(path));
    if r == [] || HasDots(r) then None else Some(r)
  }

  predicate Normal(path: bytes) { SafePath(path) == Some(path) }

  /** A normalized name is not changed again. */
  lemma SafePathIsNormal(path: bytes)
    requires SafePath(path).Some?
    ensures Normal(SafePath(path).value) && |SafePath(path).value| <= |path|
  {
    hide HasDots, Stripped, Slashed;
    var s := Slashed(path);
    var r := Stripped(s);
    NoBackslash(path);
    assert forall i | 0 <= i < |r| :: r[i] == s[|s| - |r| + i];
    AlreadyNormal(r);
  }

  /** Every byte of the path is a slash of either kind. */
  predicate OnlySlashes(path: bytes) { forall i | 0 <= i < |path| :: path[i] == SLASH || path[i] == BACKSLASH }

  /**
   A name is refused exactly if it is nothing but slashes or has a segment "." or "..", with either kind of slash between segments.
   Otherwise it is the path without its leading slashes and with plain ones.
   */
  lemma SafePathMeans(path: bytes)
    ensures SafePath(path).None? <==> OnlySlashes(path) || HasDots(Slashed(path))
    ensures SafePath(path).Some? ==>
      var r := SafePath(path).value;
      0 < |r| <= |path| && r[0] != SLASH && OnlySlashes(path[..|path| - |r|])
      && forall i | 0 <= i < |r| :: r[i] == if path[|path| - |r| + i] == BACKSLASH then SLASH else path[|path| - |r| + i]
  {
    hide HasDots, Slashed, OnlySlashes, Stripped;
    var s := Slashed(path);
    var r := Stripped(s);
    StrippedFront(s);
    StrippedDots(s);
    SlashesSlashed(path, |path| - |r|);
    SlashesSlashed(path, |path|);
    assert path[..|path|] == path && s[..|path|] == s;
    if r != [] {
      SomeOther(s, |s| - |r|);
    }
  }

  lemma SlashesSlashed(path: bytes, n: nat)
    requires n <= |path|
    ensures OnlySlashes(Slashed(path)[..n]) <==> OnlySlashes(path[..n])
  {
    forall i | 0 <= i < n ensures (Slashed(path)[..n][i] == SLASH || Slashed(path)[..n][i] == BACKSLASH) <==> (path[..n][i] == SLASH || path[..n][i] == BACKSLASH) {
    }
  }

  lemma SomeOther(s: bytes, k: nat)
    requires k < |s| && s[k] != SLASH && s[k] != BACKSLASH
    ensures !OnlySlashes(s)
  {
  }

  lemma {:induction false} StrippedFront(s: bytes)
    ensures OnlySlashes(s[..|s| - |Stripped(s)|])
  {
    hide OnlySlashes;
    if s != [] && s[0] == SLASH {
      var t, n := s[1..], |s| - |Stripped(s)|;
      StrippedFront(t);
      assert s[..n] == [SLASH] + t[..n - 1];
      OneMore(t[..n - 1]);
    } else {
      NoSlashes();
      assert s[..|s| - |Stripped(s)|] == [];
    }
  }

  lemma NoSlashes()
    ensures OnlySlashes([])
  {
  }

  lemma OneMore(s: bytes)
    requires OnlySlashes(s)
    ensures OnlySlashes([SLASH] + s)
  {
  }

  lemma {:induction false} StrippedDots(s: bytes)
    ensures HasDots(Stripped(s)) <==> HasDots(s)
  {
    hide HasDots;
    if s != [] && s[0] == SLASH {
      StrippedDots(s[1..]);
      DotsBehind(s);
    }
  }

  lemma SegmentBehind(s: bytes, i: int, j: int)
    requires s != [] && s[0] == SLASH
    ensures DotSegment(s, i, j) <==> DotSegment(s[1..], i - 1, j - 1)
  {
    if 0 <= i <= j <= |s| && s[i..j] != [] {
      assert s[i..j][0] == s[i];
    }
    if 0 < i <= j <= |s| {
      assert s[1..][i - 1..j - 1] == s[i..j];
    }
  }

  lemma DotsBehind(s: bytes)
    requires s != [] && s[0] == SLASH
    ensures HasDots(s) <==> HasDots(s[1..])
  {
    hide DotSegment;
    if HasDots(s) {
      var i, j :| 0 <= i <= j <= |s| && DotSegment(s, i, j);
      SegmentBehind(s, i, j);
      assert InRange(s[1..], i - 1, j - 1) by { SegmentInRange(s[1..], i - 1, j - 1); }
    }
    if HasDots(s[1..]) {
      var i, j :| 0 <= i <= j <= |s[1..]| && DotSegment(s[1..], i, j);
      SegmentBehind(s, i + 1, j + 1);
    }
  }

  predicate InRange(path: bytes, i: int, j: int) { 0 <= i <= j <= |path| }

  lemma SegmentInRange(path: bytes, i: int, j: int)
    requires DotSegment(path, i, j)
    ensures InRange(path, i, j)
  {
  }

  lemma NoBackslash(path: bytes)
    ensures forall i | 0 <= i < |Slashed(path)| :: Slashed(path)[i] != BACKSLASH
  {
  }

  lemma AlreadyNormal(path: bytes)
    requires path != [] && path[0] != SLASH && forall i | 0 <= i < |path| :: path[i] != BACKSLASH
    ensures Slashed(path) == path && Stripped(path) == path
  {
  }

  // ----- decoding names

  predicate Tail(x: byte) { 0x80 <= x <= 0xBF }

  /** The second byte of a sequence of three or four: no overlong form, no surrogate, nothing beyond the last code point. */
  predicate Second(first: byte, x: byte) {
    Tail(x) && (first == 0xE0 ==> x >= 0xA0) && (first == 0xED ==> x <= 0x9F) && (first == 0xF0 ==> x >= 0x90) && (first == 0xF4 ==> x <= 0x8F)
  }

  /** The length of the UTF-8 sequence that the bytes begin with (section 4 of RFC 3629), or nothing. */
  function Unit(b: bytes): (n: nat)
    ensures n <= |b|
  {
    if b == [] then 0
    else if b[0] < 0x80 then 1
    else if 0xC2 <= b[0] <= 0xDF then (if |b| >= 2 && Tail(b[1]) then 2 else 0)
    else if 0xE0 <= b[0] <= 0xEF then (if |b| >= 3 && Second(b[0], b[1]) && Tail(b[2]) then 3 else 0)
    else if 0xF0 <= b[0] <= 0xF4 then (if |b| >= 4 && Second(b[0], b[1]) && Tail(b[2]) && Tail(b[3]) then 4 else 0)
    else 0
  }

  predicate Utf8(b: bytes)
    decreases |b|
  {
    b == [] || (Unit(b) > 0 && Utf8(b[Unit(b)..]))
  }

  /** A code point that text can hold: no surrogate. */
  predicate Scalar(c: nat) { c < 0x110000 && !(0xD800 <= c < 0xE000) }

  /** How UTF-8 encodes it (section 3 of RFC 3629). */
  function Encoded(c: nat): (b: bytes)
    requires Scalar(c)
    ensures b != []
  {
    if c < 0x80 then [c]
    else if c < 0x800 then [0xC0 + c / 64, 0x80 + c % 64]
    else if c < 0x10000 then [0xE0 + c / 4096, 0x80 + c / 64 % 64, 0x80 + c % 64]
    else [0xF0 + c / 262144, 0x80 + c / 4096 % 64, 0x80 + c / 64 % 64, 0x80 + c % 64]
  }

  /** Decoding takes the encoding of a code point for that, whatever follows. */
  lemma UnitOfScalar(c: nat, rest: bytes)
    requires Scalar(c)
    ensures Unit(Encoded(c) + rest) == |Encoded(c)|
  {
    hide Tail, Second, Scalar;
    var e := Encoded(c);
    EncodedBytes(c);
    assert forall i | 0 <= i < |e| :: (e + rest)[i] == e[i];
  }

  lemma EncodedBytes(c: nat)
    requires Scalar(c)
    ensures var e := Encoded(c);
      |e| <= 4 && (|e| == 1 ==> e[0] < 0x80) && (|e| == 2 ==> 0xC2 <= e[0] <= 0xDF && Tail(e[1]))
      && (|e| == 3 ==> 0xE0 <= e[0] <= 0xEF && Second(e[0], e[1]) && Tail(e[2]))
      && (|e| == 4 ==> 0xF0 <= e[0] <= 0xF4 && Second(e[0], e[1]) && Tail(e[2]) && Tail(e[3]))
  {
  }

  /** And nothing else. */
  lemma ScalarOfUnit(b: bytes) returns (c: nat)
    requires Unit(b) > 0
    ensures Scalar(c) && b[..Unit(b)] == Encoded(c)
  {
    hide Encoded, Tail, Second, Scalar;
    var n := Unit(b);
    if n == 1 {
      c := OneByte(b[0]);
    } else if n == 2 {
      c := TwoBytes(b[0], b[1]);
    } else if n == 3 {
      c := ThreeBytes(b[0], b[1], b[2]);
    } else {
      c := FourBytes(b[0], b[1], b[2], b[3]);
    }
  }

  lemma OneByte(x: byte) returns (c: nat)
    requires x < 0x80
    ensures Scalar(c) && Encoded(c) == [x]
  {
    c := x;
  }

  lemma TwoBytes(x: byte, y: byte) returns (c: nat)
    requires 0xC2 <= x <= 0xDF && Tail(y)
    ensures Scalar(c) && Encoded(c) == [x, y]
  {
    c := TwoDigits(x - 0xC0, y - 0x80);
  }

  lemma ThreeBytes(x: byte, y: byte, z: byte) returns (c: nat)
    requires 0xE0 <= x <= 0xEF && Second(x, y) && Tail(z)
    ensures Scalar(c) && Encoded(c) == [x, y, z]
  {
    var high := TwoDigits(x - 0xE0, y - 0x80);
    c := TwoDigits(high, z - 0x80);
  }

  lemma FourBytes(x: byte, y: byte, z: byte, w: byte) returns (c: nat)
    requires 0xF0 <= x <= 0xF4 && Second(x, y) && Tail(z) && Tail(w)
    ensures Scalar(c) && Encoded(c) == [x, y, z, w]
  {
    var high := TwoDigits(x - 0xF0, y - 0x80);
    var middle := TwoDigits(high, z - 0x80);
    c := TwoDigits(middle, w - 0x80);
  }

  lemma TwoDigits(high: int, low: int) returns (c: int)
    requires 0 <= low < 64
    ensures c == high * 64 + low && c / 64 == high && c % 64 == low
  {
    c := high * 64 + low;
  }

  /** A name encodes some text, code point by code point. */
  ghost predicate EncodesText(b: bytes)
    decreases |b|
  {
    b == [] || exists c: nat :: Scalar(c) && Encoded(c) <= b && EncodesText(b[|Encoded(c)|..])
  }

  /** Exactly then it is well-formed. */
  lemma {:induction false} Utf8Exactly(b: bytes)
    ensures Utf8(b) <==> EncodesText(b)
    decreases |b|
  {
    hide Unit, Encoded;
    if b != [] {
      if Utf8(b) {
        var c := ScalarOfUnit(b);
        Utf8Exactly(b[Unit(b)..]);
        assert Encoded(c) <= b;
      }
      if EncodesText(b) {
        var c: nat :| Scalar(c) && Encoded(c) <= b && EncodesText(b[|Encoded(c)|..]);
        UnitOfScalar(c, b[|Encoded(c)|..]);
        assert Encoded(c) + b[|Encoded(c)|..] == b;
        Utf8Exactly(b[|Encoded(c)|..]);
      }
    }
  }

  /** The byte order mark. */
  const MARK: bytes := [0xEF, 0xBB, 0xBF]

  predicate Marked(b: bytes) { MARK <= b }

  function WithoutMark(b: bytes): (r: bytes)
    ensures |r| <= |b| && (r == b <==> !Marked(b))
  {
    if Marked(b) then b[3..] else b
  }

  /** `TextDecoder('utf-8', { fatal: true })`: malformed bytes throw, and one byte order mark in front is dropped. */
  function Decoded(raw: bytes): Option<bytes> { if Utf8(raw) then Some(WithoutMark(raw)) else None }

  lemma {:induction false} SlashedUtf8(b: bytes)
    requires Utf8(b)
    ensures Utf8(Slashed(b))
    decreases |b|
  {
    if b != [] {
      var n := Unit(b);
      SlashedUtf8(b[n..]);
      assert Slashed(b)[n..] == Slashed(b[n..]);
      assert Unit(Slashed(b)) == n;
    }
  }

  lemma {:induction false} StrippedUtf8(b: bytes)
    requires Utf8(b)
    ensures Utf8(Stripped(b))
    decreases |b|
  {
    if b != [] && b[0] == SLASH {
      StrippedUtf8(b[1..]);
    }
  }

  /** Making a well-formed name safe leaves it well-formed. */
  lemma SafePathUtf8(path: bytes)
    requires Utf8(path) && SafePath(path).Some?
    ensures Utf8(SafePath(path).value)
  {
    hide HasDots;
    SlashedUtf8(path);
    StrippedUtf8(Slashed(path));
  }

  /** What a decoded name becomes is well-formed again. */
  lemma NameIsUtf8(raw: bytes)
    requires Decoded(raw).Some? && SafePath(Decoded(raw).value).Some?
    ensures Utf8(SafePath(Decoded(raw).value).value)
  {
    hide SafePath;
    SafePathUtf8(Decoded(raw).value);
  }

  // ----- headers

  predicate Bit(flags: nat, power: nat)
    requires power > 0
  {
    flags / power % 2 == 1
  }

  /** `(flags | UTF8_FLAG) & ~DATA_DESCRIPTOR_FLAG`: bit 11 on, bit 3 off. */
  function WrittenFlags(flags: nat): nat {
    var on := if Bit(flags, 2048) then flags else flags + 2048;
    if Bit(on, 8) then on - 8 else on
  }

  lemma WrittenFlagsBits(flags: nat)
    requires flags < 65536
    ensures WrittenFlags(flags) < 65536 && Bit(WrittenFlags(flags), 2048) && !Bit(WrittenFlags(flags), 8)
    ensures WrittenFlags(WrittenFlags(flags)) == WrittenFlags(flags)
  {
  }

  /** A local header as any writer may lay it out (section 4.3.7). */
  datatype Local = Local(
    version: nat, flags: nat, compression: nat, modTime: nat, modDate: nat, crc: nat, compressedSize: nat, uncompressedSize: nat, name: bytes, extra: bytes)

  function LocalFixed(l: Local): (b: bytes)
    ensures |b| == 30
  {
    Le(SIG_LOCAL, 4) + Le(l.version, 2) + Le(l.flags, 2) + Le(l.compression, 2) + Le(l.modTime, 2) + Le(l.modDate, 2) + Le(l.crc, 4)
    + Le(l.compressedSize, 4) + Le(l.uncompressedSize, 4) + Le(|l.name|, 2) + Le(|l.extra|, 2)
  }

  function LocalBytes(l: Local): (b: bytes)
    ensures |b| == 30 + |l.name| + |l.extra|
  {
    LocalFixed(l) + l.name + l.extra
  }

  /** A central header as any writer may lay it out (section 4.3.12). */
  datatype Central = Central(
    madeBy: nat, version: nat, flags: nat, compression: nat, modTime: nat, modDate: nat, crc: nat, compressedSize: nat, uncompressedSize: nat,
    disk: nat, internalAttrs: nat, externalAttrs: nat, offset: nat, name: bytes, extra: bytes, comment: bytes)

  /** The first 20 and the next 26 bytes of a central header. */
  function CentralFront(c: Central): (b: bytes)
    ensures |b| == 20
  {
    Le(SIG_CENTRAL, 4) + Le(c.madeBy, 2) + Le(c.version, 2) + Le(c.flags, 2) + Le(c.compression, 2) + Le(c.modTime, 2) + Le(c.modDate, 2) + Le(c.crc, 4)
  }

  function CentralBack(c: Central): (b: bytes)
    ensures |b| == 26
  {
    Le(c.compressedSize, 4) + Le(c.uncompressedSize, 4) + Le(|c.name|, 2) + Le(|c.extra|, 2) + Le(|c.comment|, 2) + Le(c.disk, 2) + Le(c.internalAttrs, 2)
    + Le(c.externalAttrs, 4) + Le(c.offset, 4)
  }

  function CentralBytes(c: Central): (b: bytes)
    ensures |b| == 46 + |c.name| + |c.extra| + |c.comment|
  {
    CentralFront(c) + CentralBack(c) + c.name + c.extra + c.comment
  }

  /** The headers that this writer gives an entry: no extra fields, no comment. */
  function OwnLocal(e: Entry): Local {
    Local(20, WrittenFlags(e.flags), e.compression, e.modTime, e.modDate, e.crc, e.compressedSize, e.uncompressedSize, e.name, [])
  }

  function OwnCentral(e: Entry, offset: nat): Central {
    Central(0x031e, 20, WrittenFlags(e.flags), e.compression, e.modTime, e.modDate, e.crc, e.compressedSize, e.uncompressedSize,
            0, 0, e.externalAttrs, offset, e.name, [], [])
  }

  function LocalHeader(e: Entry): (b: bytes)
    ensures |b| == 30 + |e.name|
  {
    LocalBytes(OwnLocal(e))
  }

  function CentralHeader(e: Entry, offset: nat): (b: bytes)
    ensures |b| == 46 + |e.name|
  {
    CentralBytes(OwnCentral(e, offset))
  }

  /** The end record (section 4.3.16). */
  function Eocd(count: nat, size: nat, offset: nat, comment: bytes): (b: bytes)
    ensures |b| == 22 + |comment|
  {
    Le(SIG_EOCD, 4) + Le(0, 2) + Le(0, 2) + Le(count, 2) + Le(count, 2) + Le(size, 4) + Le(offset, 4) + Le(|comment|, 2) + comment
  }

  function Locals(es: seq<Entry>): bytes {
    if es == [] then [] else Locals(es[..|es| - 1]) + (LocalHeader(es[|es| - 1]) + es[|es| - 1].data)
  }

  function Centrals(es: seq<Entry>): bytes {
    if es == [] then [] else Centrals(es[..|es| - 1]) + CentralHeader(es[|es| - 1], |Locals(es[..|es| - 1])|)
  }

  /** The archive of some entries, as `writeZip` lays it out. */
  function Archive(es: seq<Entry>): bytes {
    Locals(es) + Centrals(es) + Eocd(|es|, |Centrals(es)|, |Locals(es)|, [])
  }

  // ----- reading

  function U16(b: bytes, i: nat): (n: nat)
    requires i + 2 <= |b|
  {
    LeValue(b[i..i + 2])
  }

  function U32(b: bytes, i: nat): (n: nat)
    requires i + 4 <= |b|
  {
    LeValue(b[i..i + 4])
  }

  /** `subarray`, which clips at the end of the file. */
  function Sub(b: bytes, from: nat, to: nat): bytes
    requires from <= to
  {
    b[Min(from, |b|)..Min(to, |b|)]
  }

  predicate IsEocd(b: bytes, i: nat) { i + 22 <= |b| && U32(b, i) == SIG_EOCD }

  /** The last place, at most a comment's length before the end, that carries the signature. */
  ghost predicate EocdAt(b: bytes, at: nat) {
    at + 22 <= |b| <= at + 22 + 65535 && IsEocd(b, at) && forall i: nat | at < i :: !IsEocd(b, i)
  }

  /** `findEocd`: from the end backwards. */
  method FindEocd(b: bytes) returns (r: Option<nat>)
    ensures r.Some? ==> EocdAt(b, r.value)
    ensures r.None? ==> forall i: nat | |b| <= i + 22 + 65535 :: !IsEocd(b, i)
  {
    hide U32;
    var least := Max(0, |b| - 22 - 65535);
    var offset := |b| - 22;
    while offset >= least
      invariant offset + 22 <= |b|
      invariant forall i: nat | i > offset :: !IsEocd(b, i)
    {
      if U32(b, offset) == SIG_EOCD {
        return Some(offset);
      }
      offset := offset - 1;
    }
    return None;
  }

  /** One central entry with its local part, and where the next one begins. */
  function ParseEntry(b: bytes, cursor: nat): Option<(Entry, nat)> {
    if cursor + 46 > |b| || U32(b, cursor) != SIG_CENTRAL then None
    else
      var flags, compression, size, nameLength, offset := U16(b, cursor + 8), U16(b, cursor + 10), U32(b, cursor + 20), U16(b, cursor + 28), U32(b, cursor + 42);
      var raw := Sub(b, cursor + 46, cursor + 46 + nameLength);
      if !Bit(flags, 2048) && exists i | 0 <= i < |raw| :: raw[i] >= 128 then None
      else if Decoded(raw).None? || SafePath(Decoded(raw).value).None? || (compression != 0 && compression != 8) then None
      else if offset + 30 > |b| || U32(b, offset) != SIG_LOCAL then None
      else
        var start := offset + 30 + U16(b, offset + 26) + U16(b, offset + 28);
        if start + size > |b| then None
        else
          var e := Entry(SafePath(Decoded(raw).value).value, flags, compression, U16(b, cursor + 12), U16(b, cursor + 14), U32(b, cursor + 16), size, U32(b, cursor + 24),
                         U32(b, cursor + 38), b[start..start + size]);
          Some((e, cursor + 46 + nameLength + U16(b, cursor + 30) + U16(b, cursor + 32)))
  }

  function ParseEntries(b: bytes, cursor: nat, n: nat): Option<seq<Entry>>
    decreases n
  {
    if n == 0 then Some([])
    else
      var first := ParseEntry(b, cursor);
      if first.None? then None
      else
        var rest := ParseEntries(b, first.value.1, n - 1);
        if rest.None? then None else Some([first.value.0] + rest.value)
  }

  /** The directory that an end record points to: one disk, no ZIP64, inside the file. */
  function ParseAt(b: bytes, at: nat): Option<seq<Entry>>
    requires at + 22 <= |b|
  {
    var count, size, offset := U16(b, at + 10), U32(b, at + 12), U32(b, at + 16);
    if U16(b, at + 4) != 0 || U16(b, at + 6) != 0 || U16(b, at + 8) != count then None
    else if count == 0xffff || offset == 0xffffffff || size == 0xffffffff then None
    else if offset + size > |b| then None
    else ParseEntries(b, offset, count)
  }

  /** What an archive contains. */
  ghost predicate Contains(b: bytes, es: seq<Entry>) { exists at: nat :: EocdAt(b, at) && at + 22 <= |b| && ParseAt(b, at) == Some(es) }

  lemma EocdIsUnique(b: bytes, i: nat, j: nat)
    requires EocdAt(b, i) && EocdAt(b, j)
    ensures i == j
  {
    hide U32;
  }

  /** `parseZip`. */
  method ParseZip(b: bytes) returns (r: Option<seq<Entry>>)
    ensures r.Some? ==> Contains(b, r.value)
    ensures r.None? ==> forall es :: !Contains(b, es)
  {
    hide U16, U32, ParseEntry, IsEocd;
    var eocd := FindEocd(b);
    if eocd.None? {
      return None;
    }
    var at := eocd.value;
    forall es | Contains(b, es) ensures ParseAt(b, at) == Some(es) {
      var other: nat :| EocdAt(b, other) && other + 22 <= |b| && ParseAt(b, other) == Some(es);
      EocdIsUnique(b, at, other);
    }
    var totalEntries := U16(b, at + 10);
    var centralSize, centralOffset := U32(b, at + 12), U32(b, at + 16);
    if U16(b, at + 4) != 0 || U16(b, at + 6) != 0 || U16(b, at + 8) != totalEntries {
      return None;
    }
    if totalEntries == 0xffff || centralOffset == 0xffffffff || centralSize == 0xffffffff || centralOffset + centralSize > |b| {
      return None;
    }
    var entries: seq<Entry> := [];
    var cursor: nat := centralOffset;
    NothingParsed(b, cursor, totalEntries);
    while |entries| < totalEntries
      invariant |entries| <= totalEntries
      invariant ParseEntries(b, centralOffset, totalEntries) == After(entries, ParseEntries(b, cursor, totalEntries - |entries|))
    {
      ParsedMore(b, cursor, entries, totalEntries - |entries|);
      var parsed := ParseEntry(b, cursor);
      if parsed.None? {
        return None;
      }
      entries := entries + [parsed.value.0];
      cursor := parsed.value.1;
    }
    assert entries + [] == entries;
    assert ParseAt(b, at) == Some(entries);
    return Some(entries);
  }

  function After(es: seq<Entry>, more: Option<seq<Entry>>): Option<seq<Entry>> { if more.None? then None else Some(es + more.value) }

  lemma NothingParsed(b: bytes, cursor: nat, n: nat)
    ensures ParseEntries(b, cursor, n) == After([], ParseEntries(b, cursor, n))
  {
    var more := ParseEntries(b, cursor, n);
    assert more.Some? ==> [] + more.value == more.value;
  }

  lemma ParsedMore(b: bytes, cursor: nat, es: seq<Entry>, n: nat)
    requires n > 0
    ensures var first := ParseEntry(b, cursor);
      After(es, ParseEntries(b, cursor, n)) == if first.None? then None else After(es + [first.value.0], ParseEntries(b, first.value.1, n - 1))
  {
    hide ParseEntry;
    var first := ParseEntry(b, cursor);
    if first.Some? {
      var rest := ParseEntries(b, first.value.1, n - 1);
      assert rest.Some? ==> es + ([first.value.0] + rest.value) == (es + [first.value.0]) + rest.value;
    }
  }

  // ----- what is written is read back

  /** An entry whose fields fit the format. */
  predicate Fits(e: Entry) {
    Normal(e.name) && Utf8(e.name) && |e.name| < 65536 && e.flags < 65536 && (e.compression == 0 || e.compression == 8) && e.modTime < 65536 && e.modDate < 65536
    && e.crc < Pow256(4) && e.compressedSize == |e.data| && e.uncompressedSize < Pow256(4) && e.externalAttrs < Pow256(4)
  }

  /** What the writer writes: at most 65535 entries, and local parts that a 32-bit offset can reach. */
  predicate Writable(es: seq<Entry>) { |es| <= 0xffff && |Locals(es)| <= 0xffffffff }

  /** What the reader does not take for ZIP64. */
  predicate Classic(es: seq<Entry>) { |es| < 0xffff && |Locals(es)| < 0xffffffff && |Centrals(es)| != 0xffffffff }

  /** The size of the directory as its field holds it; the directory is hardly longer than the local parts. */
  function SizeField(size: nat): nat { if size < 4294967296 then size else size - 4294967296 }

  lemma {:induction false} CentralsBound(es: seq<Entry>)
    ensures |Centrals(es)| <= |Locals(es)| + 16 * |es|
    decreases |es|
  {
    hide LocalHeader, CentralHeader;
    if es != [] {
      CentralsBound(es[..|es| - 1]);
    }
  }

  /** An entry with the two flags that the writer sets. */
  function Rewritten(e: Entry): Entry { e.(flags := WrittenFlags(e.flags)) }

  /** An entry as it is read back: its name is decoded and made safe once more. */
  function Reread(e: Entry): Option<Entry> {
    var name := SafePath(WithoutMark(e.name));
    if name.None? then None else Some(Rewritten(e).(name := name.value))
  }

  /** An entry comes back under its own name exactly if that does not begin with a byte order mark. */
  lemma RereadExactly(e: Entry)
    requires Normal(e.name)
    ensures Reread(e) == Some(Rewritten(e)) <==> !Marked(e.name)
  {
    hide HasDots;
    if Marked(e.name) && SafePath(WithoutMark(e.name)).Some? {
      SafePathIsNormal(WithoutMark(e.name));
    }
  }

  function AllReread(es: seq<Entry>): Option<seq<Entry>> {
    if es == [] then Some([])
    else
      var first, rest := Reread(es[0]), AllReread(es[1..]);
      if first.None? || rest.None? then None else Some([first.value] + rest.value)
  }

  /** All entries come back exactly if no name begins with a byte order mark. */
  lemma {:induction false} AllRereadExactly(es: seq<Entry>)
    requires forall k | 0 <= k < |es| :: Normal(es[k].name)
    ensures AllReread(es) == Some(AllRewritten(es)) <==> forall k | 0 <= k < |es| :: !Marked(es[k].name)
    decreases |es|
  {
    hide Normal, Reread, Marked;
    if es == [] {
      assert AllRewritten(es) == [];
    } else {
      RereadExactly(es[0]);
      AllRereadExactly(es[1..]);
      assert AllRewritten(es) == [Rewritten(es[0])] + AllRewritten(es[1..]);
      assert forall k | 0 <= k < |es| - 1 :: es[1..][k] == es[k + 1];
      if AllReread(es).Some? {
        assert AllReread(es).value[0] == Reread(es[0]).value && AllReread(es).value[1..] == AllReread(es[1..]).value;
        assert AllRewritten(es)[0] == Rewritten(es[0]) && AllRewritten(es)[1..] == AllRewritten(es[1..]);
      }
      if forall k | 0 <= k < |es| - 1 :: !Marked(es[1..][k].name) {
        assert forall k | 0 < k < |es| :: !Marked(es[k].name) by {
          forall k | 0 < k < |es| ensures !Marked(es[k].name) {
            assert es[1..][k - 1] == es[k];
          }
        }
      }
    }
  }

  /** Nothing can be read exactly if dropping its mark leaves some name unsafe. */
  lemma {:induction false} RereadFails(es: seq<Entry>)
    ensures AllReread(es).None? <==> exists k | 0 <= k < |es| :: Reread(es[k]).None?
    decreases |es|
  {
    hide Reread;
    if es != [] {
      RereadFails(es[1..]);
      assert forall k | 0 <= k < |es| - 1 :: es[1..][k] == es[k + 1];
      if k :| 0 <= k < |es| && Reread(es[k]).None? {
        assert k > 0 ==> es[1..][k - 1] == es[k];
      }
    }
  }

  // ----- the headers of any writer

  predicate Half(n: nat) { n < 65536 }

  predicate Full(n: nat) { n < 4294967296 }

  /** The fields fit the header. */
  predicate LocalFits(l: Local) {
    Half(l.version) && Half(l.flags) && Half(l.compression) && Half(l.modTime) && Half(l.modDate) && Full(l.crc)
    && Full(l.compressedSize) && Full(l.uncompressedSize) && Half(|l.name|) && Half(|l.extra|)
  }

  predicate CentralFits(c: Central) {
    Half(c.madeBy) && Half(c.version) && Half(c.flags) && Half(c.compression) && Half(c.modTime) && Half(c.modDate) && Full(c.crc)
    && Full(c.compressedSize) && Full(c.uncompressedSize) && Half(c.disk) && Half(c.internalAttrs) && Full(c.externalAttrs) && Full(c.offset)
    && Half(|c.name|) && Half(|c.extra|) && Half(|c.comment|)
  }

  lemma LeReadsBack(n: nat)
    ensures Half(n) ==> LeValue(Le(n, 2)) == n
    ensures Full(n) ==> LeValue(Le(n, 4)) == n
  {
    Widths();
    if Half(n) {
      LeRoundTrip(n, 2);
    }
    if Full(n) {
      LeRoundTrip(n, 4);
    }
  }

  /** The fields of a local header are where section 4.3.7 puts them. */
  lemma LocalFields(l: Local)
    requires LocalFits(l)
    ensures var h := LocalFixed(l);
      U32(h, 0) == SIG_LOCAL && U16(h, 4) == l.version && U16(h, 6) == l.flags && U16(h, 8) == l.compression && U16(h, 10) == l.modTime
      && U16(h, 12) == l.modDate && U32(h, 14) == l.crc && U32(h, 18) == l.compressedSize && U32(h, 22) == l.uncompressedSize
      && U16(h, 26) == |l.name| && U16(h, 28) == |l.extra|
  {
    hide Le, LeValue, Half, Full;
    var h := LocalFixed(l);
    LeReadsBack(SIG_LOCAL);
    LeReadsBack(l.version);
    LeReadsBack(l.flags);
    LeReadsBack(l.compression);
    LeReadsBack(l.modTime);
    LeReadsBack(l.modDate);
    LeReadsBack(l.crc);
    LeReadsBack(l.compressedSize);
    LeReadsBack(l.uncompressedSize);
    LeReadsBack(|l.name|);
    LeReadsBack(|l.extra|);
    assert Full(SIG_LOCAL) by { hide *; SignaturesFit(); }
    assert h[0..4] == Le(SIG_LOCAL, 4) && h[4..6] == Le(l.version, 2) && h[6..8] == Le(l.flags, 2) && h[8..10] == Le(l.compression, 2);
    assert h[10..12] == Le(l.modTime, 2) && h[12..14] == Le(l.modDate, 2) && h[14..18] == Le(l.crc, 4) && h[18..22] == Le(l.compressedSize, 4);
    assert h[22..26] == Le(l.uncompressedSize, 4) && h[26..28] == Le(|l.name|, 2) && h[28..30] == Le(|l.extra|, 2);
  }

  lemma SignaturesFit()
    ensures Full(SIG_LOCAL) && Full(SIG_CENTRAL) && Full(SIG_EOCD)
  {
  }

  /** The fields of a central header are where section 4.3.12 puts them. */
  lemma FrontFields(c: Central)
    requires CentralFits(c)
    ensures var h := CentralFront(c);
      U32(h, 0) == SIG_CENTRAL && U16(h, 4) == c.madeBy && U16(h, 6) == c.version && U16(h, 8) == c.flags && U16(h, 10) == c.compression
      && U16(h, 12) == c.modTime && U16(h, 14) == c.modDate && U32(h, 16) == c.crc
  {
    hide Le, LeValue, Half, Full;
    var h := CentralFront(c);
    LeReadsBack(SIG_CENTRAL);
    LeReadsBack(c.madeBy);
    LeReadsBack(c.version);
    LeReadsBack(c.flags);
    LeReadsBack(c.compression);
    LeReadsBack(c.modTime);
    LeReadsBack(c.modDate);
    LeReadsBack(c.crc);
    assert Full(SIG_CENTRAL) by { hide *; SignaturesFit(); }
    assert h[0..4] == Le(SIG_CENTRAL, 4) && h[4..6] == Le(c.madeBy, 2) && h[6..8] == Le(c.version, 2) && h[8..10] == Le(c.flags, 2);
    assert h[10..12] == Le(c.compression, 2) && h[12..14] == Le(c.modTime, 2) && h[14..16] == Le(c.modDate, 2) && h[16..20] == Le(c.crc, 4);
  }

  lemma BackFields(c: Central)
    requires CentralFits(c)
    ensures var h := CentralBack(c);
      U32(h, 0) == c.compressedSize && U32(h, 4) == c.uncompressedSize && U16(h, 8) == |c.name| && U16(h, 10) == |c.extra|
      && U16(h, 12) == |c.comment| && U16(h, 14) == c.disk && U16(h, 16) == c.internalAttrs && U32(h, 18) == c.externalAttrs && U32(h, 22) == c.offset
  {
    hide Le, LeValue, Half, Full;
    var h := CentralBack(c);
    LeReadsBack(c.compressedSize);
    LeReadsBack(c.uncompressedSize);
    LeReadsBack(|c.name|);
    LeReadsBack(|c.extra|);
    LeReadsBack(|c.comment|);
    LeReadsBack(c.disk);
    LeReadsBack(c.internalAttrs);
    LeReadsBack(c.externalAttrs);
    LeReadsBack(c.offset);
    assert h[0..4] == Le(c.compressedSize, 4) && h[4..8] == Le(c.uncompressedSize, 4) && h[8..10] == Le(|c.name|, 2);
    assert h[10..12] == Le(|c.extra|, 2) && h[12..14] == Le(|c.comment|, 2) && h[14..16] == Le(c.disk, 2) && h[16..18] == Le(c.internalAttrs, 2);
    assert h[18..22] == Le(c.externalAttrs, 4) && h[22..26] == Le(c.offset, 4);
  }

  /** The numbers of a part are the numbers of the file, shifted. */
  lemma NumbersAt(b: bytes, base: nat, h: bytes)
    requires base + |h| <= |b| && b[base..base + |h|] == h
    ensures forall i: nat | i + 2 <= |h| :: U16(b, base + i) == U16(h, i)
    ensures forall i: nat | i + 4 <= |h| :: U32(b, base + i) == U32(h, i)
  {
    hide LeValue;
    forall i: nat | i + 2 <= |h| ensures U16(b, base + i) == U16(h, i) {
      SliceOfSlice(b, base, base + |h|, i, i + 2);
    }
    forall i: nat | i + 4 <= |h| ensures U32(b, base + i) == U32(h, i) {
      SliceOfSlice(b, base, base + |h|, i, i + 4);
    }
  }

  /** The bytes lie at this place of the file. */
  ghost predicate LiesAt(b: bytes, at: nat, part: bytes) { at + |part| <= |b| && b[at..at + |part|] == part }

  /** A central header lies at the cursor, and where it says, a local header, which need not agree with it, and then the data. */
  ghost predicate Laid(b: bytes, cursor: nat, c: Central, l: Local, data: bytes) {
    LiesAt(b, cursor, CentralBytes(c)) && LiesAt(b, c.offset, LocalBytes(l) + data) && CentralFits(c) && LocalFits(l) && c.compressedSize == |data|
  }

  lemma CentralAt(b: bytes, cursor: nat, c: Central)
    requires LiesAt(b, cursor, CentralBytes(c)) && CentralFits(c)
    ensures cursor + 46 + |c.name| <= |b| && b[cursor + 46..cursor + 46 + |c.name|] == c.name
    ensures U32(b, cursor) == SIG_CENTRAL && U16(b, cursor + 8) == c.flags && U16(b, cursor + 10) == c.compression
    ensures U16(b, cursor + 12) == c.modTime && U16(b, cursor + 14) == c.modDate && U32(b, cursor + 16) == c.crc
    ensures U32(b, cursor + 20) == c.compressedSize && U32(b, cursor + 24) == c.uncompressedSize && U16(b, cursor + 28) == |c.name|
    ensures U16(b, cursor + 30) == |c.extra| && U16(b, cursor + 32) == |c.comment| && U32(b, cursor + 38) == c.externalAttrs && U32(b, cursor + 42) == c.offset
  {
    hide U16, U32, CentralFront, CentralBack, CentralFits;
    var f, k := CentralFront(c), CentralBack(c);
    var h := CentralBytes(c);
    assert h[0..20] == f && h[20..46] == k && h[46..46 + |c.name|] == c.name;
    SliceOfSlice(b, cursor, cursor + |h|, 0, 20);
    SliceOfSlice(b, cursor, cursor + |h|, 20, 46);
    SliceOfSlice(b, cursor, cursor + |h|, 46, 46 + |c.name|);
    NumbersAt(b, cursor, f);
    NumbersAt(b, cursor + 20, k);
    FrontFields(c);
    BackFields(c);
    assert U32(b, cursor + 0) == U32(f, 0) && U32(b, cursor + 20 + 0) == U32(k, 0) && U32(b, cursor + 20 + 4) == U32(k, 4);
    assert U16(b, cursor + 20 + 8) == U16(k, 8) && U16(b, cursor + 20 + 10) == U16(k, 10) && U16(b, cursor + 20 + 12) == U16(k, 12);
    assert U32(b, cursor + 20 + 18) == U32(k, 18) && U32(b, cursor + 20 + 22) == U32(k, 22);
  }

  lemma LocalAt(b: bytes, offset: nat, l: Local, data: bytes)
    requires LiesAt(b, offset, LocalBytes(l) + data) && LocalFits(l)
    ensures offset + 30 + |l.name| + |l.extra| + |data| <= |b| && U32(b, offset) == SIG_LOCAL
    ensures U16(b, offset + 26) == |l.name| && U16(b, offset + 28) == |l.extra|
    ensures var start := offset + 30 + |l.name| + |l.extra|; b[start..start + |data|] == data
  {
    hide U16, U32, LocalFixed, LocalFits;
    var f, n := LocalFixed(l), 30 + |l.name| + |l.extra|;
    var all := LocalBytes(l) + data;
    assert all[0..30] == f && all[n..n + |data|] == data;
    SliceOfSlice(b, offset, offset + |all|, 0, 30);
    SliceOfSlice(b, offset, offset + |all|, n, n + |data|);
    NumbersAt(b, offset, f);
    LocalFields(l);
    assert U32(b, offset + 0) == U32(f, 0);
  }

  predicate Ascii(b: bytes) { forall i | 0 <= i < |b| :: b[i] < 128 }

  /** What is read of a central header and its data. Nothing when the name is not well-formed UTF-8, not said to be, or not safe, or on another method. */
  function ReadAs(c: Central, data: bytes): Option<Entry> {
    if !(Bit(c.flags, 2048) || Ascii(c.name)) || Decoded(c.name).None? || SafePath(Decoded(c.name).value).None? || (c.compression != 0 && c.compression != 8) then None
    else Some(Entry(SafePath(Decoded(c.name).value).value, c.flags, c.compression, c.modTime, c.modDate, c.crc, |data|, c.uncompressedSize, c.externalAttrs, data))
  }

  /**
   The entry of any writer, with extra fields of any length in either header, a comment, and a local header of its own: exactly its data is
   read, and the next entry is sought behind the comment.
   */
  lemma EntryAt(b: bytes, cursor: nat, c: Central, l: Local, data: bytes)
    requires Laid(b, cursor, c, l, data)
    ensures ParseEntry(b, cursor) ==
      if ReadAs(c, data).None? then None else Some((ReadAs(c, data).value, cursor + 46 + |c.name| + |c.extra| + |c.comment|))
  {
    hide U16, U32, LiesAt, SafePath, Bit, Decoded, CentralFits, LocalFits, Ascii, CentralBytes, LocalBytes;
    CentralAt(b, cursor, c);
    LocalAt(b, c.offset, l, data);
    NotAscii(c.name);
  }

  lemma NotAscii(b: bytes)
    ensures Ascii(b) <==> !exists i | 0 <= i < |b| :: b[i] >= 128
  {
  }

  /** The headers that bytes hold, if there are any. */
  function CentralOf(b: bytes, at: nat): Central
    requires at + 46 <= |b| && at + 46 + U16(b, at + 28) + U16(b, at + 30) + U16(b, at + 32) <= |b|
  {
    var name, extra, comment := U16(b, at + 28), U16(b, at + 30), U16(b, at + 32);
    Central(U16(b, at + 4), U16(b, at + 6), U16(b, at + 8), U16(b, at + 10), U16(b, at + 12), U16(b, at + 14), U32(b, at + 16), U32(b, at + 20), U32(b, at + 24),
            U16(b, at + 34), U16(b, at + 36), U32(b, at + 38), U32(b, at + 42),
            b[at + 46..at + 46 + name], b[at + 46 + name..at + 46 + name + extra], b[at + 46 + name + extra..at + 46 + name + extra + comment])
  }

  function LocalOf(b: bytes, at: nat): Local
    requires at + 30 <= |b| && at + 30 + U16(b, at + 26) + U16(b, at + 28) <= |b|
  {
    var name, extra := U16(b, at + 26), U16(b, at + 28);
    Local(U16(b, at + 4), U16(b, at + 6), U16(b, at + 8), U16(b, at + 10), U16(b, at + 12), U32(b, at + 14), U32(b, at + 18), U32(b, at + 22),
          b[at + 30..at + 30 + name], b[at + 30 + name..at + 30 + name + extra])
  }

  lemma HalfAt(b: bytes, i: nat)
    requires i + 2 <= |b|
    ensures Half(U16(b, i)) && Le(U16(b, i), 2) == b[i..i + 2]
  {
    Widths();
    LeOfValue(b[i..i + 2]);
  }

  lemma FullAt(b: bytes, i: nat)
    requires i + 4 <= |b|
    ensures Full(U32(b, i)) && Le(U32(b, i), 4) == b[i..i + 4]
  {
    Widths();
    LeOfValue(b[i..i + 4]);
  }

  lemma LocalFixedOf(b: bytes, at: nat)
    requires at + 30 <= |b| && U32(b, at) == SIG_LOCAL && at + 30 + U16(b, at + 26) + U16(b, at + 28) <= |b|
    ensures LocalFixed(LocalOf(b, at)) == b[at..at + 30] && LocalFits(LocalOf(b, at))
  {
    hide Le, U16, U32, Half, Full;
    FullAt(b, at);
    HalfAt(b, at + 4);
    HalfAt(b, at + 6);
    HalfAt(b, at + 8);
    HalfAt(b, at + 10);
    HalfAt(b, at + 12);
    FullAt(b, at + 14);
    FullAt(b, at + 18);
    FullAt(b, at + 22);
    HalfAt(b, at + 26);
    HalfAt(b, at + 28);
    var l := LocalOf(b, at);
    assert |l.name| == U16(b, at + 26) && |l.extra| == U16(b, at + 28);
    Joined(b, at, at + 4, at + 6);
    Joined(b, at, at + 6, at + 8);
    Joined(b, at, at + 8, at + 10);
    Joined(b, at, at + 10, at + 12);
    Joined(b, at, at + 12, at + 14);
    Joined(b, at, at + 14, at + 18);
    Joined(b, at, at + 18, at + 22);
    Joined(b, at, at + 22, at + 26);
    Joined(b, at, at + 26, at + 28);
    Joined(b, at, at + 28, at + 30);
  }

  lemma LocalBytesOf(b: bytes, at: nat)
    requires at + 30 <= |b| && U32(b, at) == SIG_LOCAL && at + 30 + U16(b, at + 26) + U16(b, at + 28) <= |b|
    ensures LocalFits(LocalOf(b, at)) && LocalBytes(LocalOf(b, at)) == b[at..at + 30 + U16(b, at + 26) + U16(b, at + 28)]
  {
    hide U16, U32, LocalFixed, LocalFits;
    LocalFixedOf(b, at);
  }

  lemma FrontOf(b: bytes, at: nat)
    requires at + 46 <= |b| && U32(b, at) == SIG_CENTRAL && at + 46 + U16(b, at + 28) + U16(b, at + 30) + U16(b, at + 32) <= |b|
    ensures var c := CentralOf(b, at);
      CentralFront(c) == b[at..at + 20] && Half(c.madeBy) && Half(c.version) && Half(c.flags) && Half(c.compression) && Half(c.modTime) && Half(c.modDate) && Full(c.crc)
  {
    hide Le, U16, U32, Half, Full;
    FullAt(b, at);
    HalfAt(b, at + 4);
    HalfAt(b, at + 6);
    HalfAt(b, at + 8);
    HalfAt(b, at + 10);
    HalfAt(b, at + 12);
    HalfAt(b, at + 14);
    FullAt(b, at + 16);
    Joined(b, at, at + 4, at + 6);
    Joined(b, at, at + 6, at + 8);
    Joined(b, at, at + 8, at + 10);
    Joined(b, at, at + 10, at + 12);
    Joined(b, at, at + 12, at + 14);
    Joined(b, at, at + 14, at + 16);
    Joined(b, at, at + 16, at + 20);
  }

  lemma BackOf(b: bytes, at: nat)
    requires at + 46 <= |b| && at + 46 + U16(b, at + 28) + U16(b, at + 30) + U16(b, at + 32) <= |b|
    ensures var c := CentralOf(b, at);
      CentralBack(c) == b[at + 20..at + 46] && Full(c.compressedSize) && Full(c.uncompressedSize) && Half(c.disk) && Half(c.internalAttrs) && Full(c.externalAttrs)
      && Full(c.offset) && Half(|c.name|) && Half(|c.extra|) && Half(|c.comment|)
  {
    hide Le, U16, U32, Half, Full;
    FullAt(b, at + 20);
    FullAt(b, at + 24);
    HalfAt(b, at + 28);
    HalfAt(b, at + 30);
    HalfAt(b, at + 32);
    HalfAt(b, at + 34);
    HalfAt(b, at + 36);
    FullAt(b, at + 38);
    FullAt(b, at + 42);
    var c := CentralOf(b, at);
    assert |c.name| == U16(b, at + 28) && |c.extra| == U16(b, at + 30) && |c.comment| == U16(b, at + 32);
    Joined(b, at + 20, at + 24, at + 28);
    Joined(b, at + 20, at + 28, at + 30);
    Joined(b, at + 20, at + 30, at + 32);
    Joined(b, at + 20, at + 32, at + 34);
    Joined(b, at + 20, at + 34, at + 36);
    Joined(b, at + 20, at + 36, at + 38);
    Joined(b, at + 20, at + 38, at + 42);
    Joined(b, at + 20, at + 42, at + 46);
  }

  lemma Joined(b: bytes, from: nat, middle: nat, to: nat)
    requires from <= middle <= to <= |b|
    ensures b[from..middle] + b[middle..to] == b[from..to]
  {
  }

  lemma CentralBytesOf(b: bytes, at: nat)
    requires at + 46 <= |b| && U32(b, at) == SIG_CENTRAL && at + 46 + U16(b, at + 28) + U16(b, at + 30) + U16(b, at + 32) <= |b|
    ensures CentralFits(CentralOf(b, at)) && LiesAt(b, at, CentralBytes(CentralOf(b, at)))
  {
    hide U16, U32, CentralFront, CentralBack, Half, Full;
    FrontOf(b, at);
    BackOf(b, at);
    var c := CentralOf(b, at);
    var n, x, k := |c.name|, |c.extra|, |c.comment|;
    assert b[at..at + 46 + n + x + k] == b[at..at + 20] + b[at + 20..at + 46] + c.name + c.extra + c.comment;
  }

  /** Only such entries are read: whatever parses inside the file is a central header with a local header and data where it says. */
  lemma ParsedEntryIsLaid(b: bytes, cursor: nat)
    requires ParseEntry(b, cursor).Some? && ParseEntry(b, cursor).value.1 <= |b|
    ensures exists c, l, data :: Laid(b, cursor, c, l, data) && ReadAs(c, data) == Some(ParseEntry(b, cursor).value.0)
  {
    hide U16, U32, SafePath, Bit, Decoded, LocalBytes, CentralBytes, LocalFits, CentralFits, Ascii;
    var offset, size := U32(b, cursor + 42), U32(b, cursor + 20);
    CentralBytesOf(b, cursor);
    LocalBytesOf(b, offset);
    var c, l := CentralOf(b, cursor), LocalOf(b, offset);
    var n := 30 + U16(b, offset + 26) + U16(b, offset + 28);
    var data := b[offset + n..offset + n + size];
    assert b[offset..offset + n + size] == b[offset..offset + n] + data;
    NotAscii(c.name);
    assert Laid(b, cursor, c, l, data);
  }

  /** What this writer wrote is read as the entry, reread. */
  lemma OwnEntry(e: Entry, offset: nat)
    requires Fits(e) && Full(offset) && Full(|e.data|)
    ensures CentralFits(OwnCentral(e, offset)) && LocalFits(OwnLocal(e)) && OwnCentral(e, offset).compressedSize == |e.data|
    ensures ReadAs(OwnCentral(e, offset), e.data) == Reread(e)
  {
    hide WrittenFlags, SafePath, Bit, Utf8, WithoutMark, Ascii, Pow256;
    Widths();
    WrittenFlagsBits(e.flags);
  }

  // ----- the archive of any writer

  datatype Part = Part(central: Central, local: Local, data: bytes)

  function Directory(ps: seq<Part>): bytes { if ps == [] then [] else CentralBytes(ps[0].central) + Directory(ps[1..]) }

  function AllRead(ps: seq<Part>): Option<seq<Entry>> {
    if ps == [] then Some([])
    else
      var first, rest := ReadAs(ps[0].central, ps[0].data), AllRead(ps[1..]);
      if first.None? || rest.None? then None else Some([first.value] + rest.value)
  }

  /** Every local part lies where its central header says, in any order, with anything in between. */
  ghost predicate LocalsLie(b: bytes, ps: seq<Part>) { forall i | 0 <= i < |ps| :: PartLies(b, ps[i]) }

  ghost predicate PartLies(b: bytes, p: Part) {
    LiesAt(b, p.central.offset, LocalBytes(p.local) + p.data) && CentralFits(p.central) && LocalFits(p.local) && p.central.compressedSize == |p.data|
  }

  lemma {:induction false} DirectoryAt(b: bytes, cursor: nat, ps: seq<Part>)
    requires LiesAt(b, cursor, Directory(ps)) && LocalsLie(b, ps)
    ensures ParseEntries(b, cursor, |ps|) == AllRead(ps)
    decreases |ps|
  {
    hide ParseEntry, CentralBytes, LocalBytes, ReadAs, PartLies;
    if ps != [] {
      var h, all := CentralBytes(ps[0].central), Directory(ps);
      assert all[0..|h|] == h && all[|h|..|all|] == Directory(ps[1..]);
      SliceOfSlice(b, cursor, cursor + |all|, 0, |h|);
      SliceOfSlice(b, cursor, cursor + |all|, |h|, |all|);
      assert PartLies(b, ps[0]);
      assert forall i | 0 <= i < |ps| - 1 :: PartLies(b, ps[1..][i]);
      FirstEntry(b, cursor, ps[0]);
      DirectoryAt(b, cursor + |h|, ps[1..]);
    }
  }

  lemma FirstEntry(b: bytes, cursor: nat, p: Part)
    requires LiesAt(b, cursor, CentralBytes(p.central)) && PartLies(b, p)
    ensures var r := ReadAs(p.central, p.data);
      ParseEntry(b, cursor) == if r.None? then None else Some((r.value, cursor + |CentralBytes(p.central)|))
  {
    hide ParseEntry, LiesAt, CentralFits, LocalFits, ReadAs;
    EntryAt(b, cursor, p.central, p.local, p.data);
  }

  /**
   An archive of any writer: local parts anywhere, the directory, the end record, and a comment in which no end record shows. It is read as
   its entries, in the order of the directory, exactly if it is not taken for ZIP64 and each of them can be read.
   */
  lemma AnyArchive(b: bytes, front: bytes, ps: seq<Part>, comment: bytes)
    requires b == front + Directory(ps) + Eocd(|ps|, |Directory(ps)|, |front|, comment) && |comment| < 65536
    requires |ps| < 65536 && |front| < 4294967296 && |Directory(ps)| < 4294967296 && LocalsLie(b, ps)
    requires forall i | |front| + |Directory(ps)| < i :: !IsEocd(b, i)
    ensures forall es :: Contains(b, es) <==>
      |ps| < 0xffff && |front| < 0xffffffff && |Directory(ps)| < 0xffffffff && AllRead(ps) == Some(es)
  {
    hide U16, U32, ParseEntries, Contains, LocalsLie, AllRead, Directory, Eocd;
    var at, dir := |front| + |Directory(ps)|, Directory(ps);
    var h := Eocd(|ps|, |dir|, |front|, comment);
    assert b[at..at + |h|] == h && b[|front|..|front| + |dir|] == dir;
    NumbersAt(b, at, h);
    EocdFields(|ps|, |dir|, |front|, comment);
    assert U32(b, at + 0) == U32(h, 0) && U16(b, at + 4) == U16(h, 4) && U16(b, at + 6) == U16(h, 6) && U16(b, at + 8) == U16(h, 8);
    assert U16(b, at + 10) == U16(h, 10) && U32(b, at + 12) == U32(h, 12) && U32(b, at + 16) == U32(h, 16);
    DirectoryAt(b, |front|, ps);
    ContainsExactly(b, at);
  }

  // ----- what this writer writes

  lemma {:induction false} LocalsPart(es: seq<Entry>, i: nat)
    requires i < |es|
    ensures var at, part := |Locals(es[..i])|, LocalHeader(es[i]) + es[i].data;
      at + |part| <= |Locals(es)| && Locals(es)[at..at + |part|] == part && Locals(es[..i + 1]) == Locals(es[..i]) + part
    decreases |es|
  {
    hide LocalHeader;
    var n := |es| - 1;
    if i == n {
      assert es[..i + 1] == es;
    } else {
      LocalsPart(es[..n], i);
      assert es[..n][..i] == es[..i] && es[..n][..i + 1] == es[..i + 1];
    }
  }

  lemma {:induction false} CentralsPart(es: seq<Entry>, i: nat)
    requires i < |es|
    ensures var at, part := |Centrals(es[..i])|, CentralHeader(es[i], |Locals(es[..i])|);
      at + |part| <= |Centrals(es)| && Centrals(es)[at..at + |part|] == part && Centrals(es[..i + 1]) == Centrals(es[..i]) + part
    decreases |es|
  {
    hide CentralHeader, Locals;
    var n := |es| - 1;
    if i == n {
      assert es[..i + 1] == es;
    } else {
      CentralsPart(es[..n], i);
      assert es[..n][..i] == es[..i] && es[..n][..i + 1] == es[..i + 1];
    }
  }

  lemma LaidInArchive(es: seq<Entry>, i: nat)
    requires i < |es|
    ensures LiesAt(Archive(es), |Locals(es)| + |Centrals(es[..i])|, CentralHeader(es[i], |Locals(es[..i])|))
    ensures LiesAt(Archive(es), |Locals(es[..i])|, LocalHeader(es[i]) + es[i].data)
    ensures |Centrals(es[..i + 1])| == |Centrals(es[..i])| + 46 + |es[i].name|
    ensures |Locals(es[..i])| <= |Locals(es)| && |es[i].data| <= |Locals(es)|
  {
    hide LocalHeader, CentralHeader, Locals, Centrals, Eocd;
    var b, l, c := Archive(es), Locals(es), Centrals(es);
    LocalsPart(es, i);
    CentralsPart(es, i);
    var at, part := |Locals(es[..i])|, LocalHeader(es[i]) + es[i].data;
    var cat, cpart := |Centrals(es[..i])|, CentralHeader(es[i], at);
    assert b[0..|l|] == l && b[|l|..|l| + |c|] == c;
    SliceOfSlice(b, 0, |l|, at, at + |part|);
    SliceOfSlice(b, |l|, |l| + |c|, cat, cat + |cpart|);
  }

  function AllRewritten(es: seq<Entry>): (r: seq<Entry>)
    ensures |r| == |es| && forall i | 0 <= i < |es| :: r[i] == Rewritten(es[i])
  {
    seq(|es|, i requires 0 <= i < |es| => Rewritten(es[i]))
  }

  /**
   The two headers written for an entry agree with each other and hold its fields: no extra field, no comment, the name marked as UTF-8,
   the sizes in front of the data, and the version 2.0 that a reader needs.
   */
  lemma OwnHeaders(e: Entry, offset: nat)
    ensures var c := OwnCentral(e, offset);
      c.offset == offset && c.name == e.name && c.extra == [] && c.comment == [] && c.disk == 0 && c.internalAttrs == 0 && c.madeBy == 0x031e && c.version == 20
      && c.compression == e.compression && c.modTime == e.modTime && c.modDate == e.modDate && c.crc == e.crc
      && c.compressedSize == e.compressedSize && c.uncompressedSize == e.uncompressedSize && c.externalAttrs == e.externalAttrs
      && (e.flags < 65536 ==> c.flags < 65536 && Bit(c.flags, 2048) && !Bit(c.flags, 8))
    ensures var c, l := OwnCentral(e, offset), OwnLocal(e);
      l.version == c.version && l.flags == c.flags && l.compression == c.compression && l.modTime == c.modTime && l.modDate == c.modDate && l.crc == c.crc
      && l.compressedSize == c.compressedSize && l.uncompressedSize == c.uncompressedSize && l.name == c.name && l.extra == []
  {
    hide Bit, WrittenFlags;
    if e.flags < 65536 {
      WrittenFlagsBits(e.flags);
    }
  }

  lemma {:induction false} EntriesOfArchive(es: seq<Entry>, i: nat)
    requires i <= |es| && Classic(es) && forall k | 0 <= k < |es| :: Fits(es[k])
    ensures ParseEntries(Archive(es), |Locals(es)| + |Centrals(es[..i])|, |es| - i) == AllReread(es[i..])
    decreases |es| - i
  {
    hide Archive, Locals, Centrals, Fits, ParseEntry, Reread, ReadAs, LiesAt, CentralFits, LocalFits, OwnCentral, OwnLocal, CentralBytes, LocalBytes;
    if i < |es| {
      EntriesOfArchive(es, i + 1);
      LaidInArchive(es, i);
      var at := |Locals(es[..i])|;
      OwnEntry(es[i], at);
      OwnHeaders(es[i], at);
      EntryAt(Archive(es), |Locals(es)| + |Centrals(es[..i])|, OwnCentral(es[i], at), OwnLocal(es[i]), es[i].data);
      assert es[i..][0] == es[i] && es[i..][1..] == es[i + 1..];
    }
  }

  lemma EocdFields(count: nat, size: nat, offset: nat, comment: bytes)
    requires count < 65536 && size < 2 * 4294967296 && offset < 4294967296
    ensures var h := Eocd(count, size, offset, comment);
      U32(h, 0) == SIG_EOCD && U16(h, 4) == 0 && U16(h, 6) == 0 && U16(h, 8) == count && U16(h, 10) == count && U32(h, 12) == SizeField(size) && U32(h, 16) == offset
  {
    hide Le, LeValue, Pow256;
    Widths();
    LeRoundTrip(SIG_EOCD, 4);
    LeRoundTrip(0, 2);
    LeRoundTrip(count, 2);
    if size >= 4294967296 {
      LeWraps(size - 4294967296, 4);
    }
    LeRoundTrip(SizeField(size), 4);
    LeRoundTrip(offset, 4);
    var h := Eocd(count, size, offset, comment);
    assert h[0..4] == Le(SIG_EOCD, 4) && h[4..6] == Le(0, 2) && h[6..8] == Le(0, 2) && h[8..10] == Le(count, 2) && h[10..12] == Le(count, 2);
    assert h[12..16] == Le(size, 4) && h[16..20] == Le(offset, 4);
  }

  /** The end record of an archive is the first one found from the end. */
  lemma EocdOfArchive(es: seq<Entry>)
    requires Writable(es)
    ensures var at, b := |Locals(es)| + |Centrals(es)|, Archive(es);
      EocdAt(b, at) && U16(b, at + 4) == 0 && U16(b, at + 6) == 0 && U16(b, at + 8) == |es| && U16(b, at + 10) == |es|
      && U32(b, at + 12) == SizeField(|Centrals(es)|) && U32(b, at + 16) == |Locals(es)|
  {
    hide U16, U32, Locals, Centrals, Pow256, Eocd;
    Widths();
    var b, at := Archive(es), |Locals(es)| + |Centrals(es)|;
    var h := Eocd(|es|, |Centrals(es)|, |Locals(es)|, []);
    assert b[at..at + 22] == h;
    NumbersAt(b, at, h);
    CentralsBound(es);
    EocdFields(|es|, |Centrals(es)|, |Locals(es)|, []);
    assert U32(b, at + 0) == U32(h, 0) && U16(b, at + 4) == U16(h, 4) && U16(b, at + 6) == U16(h, 6) && U16(b, at + 8) == U16(h, 8);
  }

  /**
   What the writer writes is read as its entries, reread, in order, whatever bytes they hold: exactly if the archive is not taken for ZIP64
   and every entry can be reread. All come back as they were written exactly if, besides, no name begins with a byte order mark.
   */
  lemma ParseArchive(es: seq<Entry>)
    requires Writable(es) && forall k | 0 <= k < |es| :: Fits(es[k])
    ensures forall other :: Contains(Archive(es), other) <==> Classic(es) && AllReread(es) == Some(other)
    ensures (exists other :: Contains(Archive(es), other)) <==> Classic(es) && forall k | 0 <= k < |es| :: Reread(es[k]).Some?
    ensures Contains(Archive(es), AllRewritten(es)) <==> Classic(es) && forall k | 0 <= k < |es| :: !Marked(es[k].name)
  {
    hide Contains, Classic, Writable, Archive, Fits, Reread, AllReread, Marked, Normal;
    ParsedAs(es);
    RereadFails(es);
    forall k | 0 <= k < |es| ensures Normal(es[k].name) {
      FitsNormal(es[k]);
    }
    AllRereadExactly(es);
    if AllReread(es).Some? && Classic(es) {
      assert Contains(Archive(es), AllReread(es).value);
    }
  }

  lemma ParsedAs(es: seq<Entry>)
    requires Writable(es) && forall k | 0 <= k < |es| :: Fits(es[k])
    ensures forall other :: Contains(Archive(es), other) <==> Classic(es) && AllReread(es) == Some(other)
  {
    hide U16, U32, Locals, Centrals, Fits, ParseEntries, AllReread, EocdAt, Archive, Contains, Reread;
    var b, at := Archive(es), |Locals(es)| + |Centrals(es)|;
    EocdOfArchive(es);
    EocdInside(b, at);
    CentralsBound(es);
    if Classic(es) {
      EntriesOfArchive(es, 0);
      assert es[0..] == es && es[..0] == [];
      NoCentrals();
      assert ParseAt(b, at) == AllReread(es);
    } else {
      assert ParseAt(b, at) == None;
    }
    ContainsExactly(b, at);
  }

  lemma ContainsExactly(b: bytes, at: nat)
    requires EocdAt(b, at) && at + 22 <= |b|
    ensures forall es :: Contains(b, es) <==> ParseAt(b, at) == Some(es)
  {
    hide EocdAt, ParseAt;
    forall es ensures Contains(b, es) <==> ParseAt(b, at) == Some(es) {
      if Contains(b, es) {
        var a: nat :| EocdAt(b, a) && a + 22 <= |b| && ParseAt(b, a) == Some(es);
        EocdIsUnique(b, at, a);
      }
    }
  }

  lemma EocdInside(b: bytes, at: nat)
    requires EocdAt(b, at)
    ensures at + 22 <= |b|
  {
  }

  lemma FitsNormal(e: Entry)
    requires Fits(e)
    ensures Normal(e.name)
  {
  }

  lemma NoCentrals()
    ensures Centrals([]) == [] && Locals([]) == []
  {
  }

  // ----- names that do not come back

  /** The mark, then "a": a name that fits and comes back as "a". The mark alone: a name that fits and makes the archive unreadable. */
  lemma MarkIsLost(e: Entry)
    requires Fits(e)
    ensures Fits(e.(name := MARK + [97])) && Reread(e.(name := MARK + [97])) == Some(Rewritten(e).(name := [97]))
    ensures Fits(e.(name := MARK)) && Reread(e.(name := MARK)) == None
  {
    hide Pow256, Fits, SafePath, Normal, Utf8, Marked, WithoutMark, WrittenFlags;
    MarkedNames();
    FitsNamed(e, MARK + [97]);
    FitsNamed(e, MARK);
  }

  lemma FitsNamed(e: Entry, name: bytes)
    requires Fits(e) && Normal(name) && Utf8(name) && |name| < 65536
    ensures Fits(e.(name := name))
  {
    hide Pow256, Normal, Utf8;
  }

  lemma MarkedNames()
    ensures Normal(MARK + [97]) && Utf8(MARK + [97]) && WithoutMark(MARK + [97]) == [97] && SafePath([97]) == Some([97])
    ensures Normal(MARK) && Utf8(MARK) && WithoutMark(MARK) == [] && SafePath([]) == None
  {
    hide SafePath;
    NoDots(MARK + [97]);
    NoDots(MARK);
    NoDots([97]);
    NothingIsUnsafe();
    assert Unit(MARK + [97]) == 3 && (MARK + [97])[3..] == [97] && Unit(MARK) == 3 && MARK[3..] == [];
    assert Unit([97]) == 1 && [97][1..] == [] && Utf8([97]);
  }

  lemma NothingIsUnsafe()
    ensures SafePath([]) == None
  {
  }

  lemma NoDots(name: bytes)
    requires name != [] && forall i | 0 <= i < |name| :: name[i] != DOT && name[i] != SLASH && name[i] != BACKSLASH
    ensures Normal(name)
  {
    hide Stripped, Slashed;
    AlreadyNormal(name);
    forall i, j | 0 <= i <= j <= |name| ensures name[i..j] != [DOT] && name[i..j] != [DOT, DOT] {
      assert i < j ==> name[i..j][0] == name[i];
    }
  }
}
