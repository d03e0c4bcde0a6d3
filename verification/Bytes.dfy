/**
 Bytes, and the fixed-width little- and big-endian integers that every format of
 the repository writes. Numbers are unbounded; each writer states the width it needs.
 */
module Bytes {

  datatype Option<+T> = None | Some(value: T)

  type byte = x: int | 0 <= x < 256
  type bytes = seq<byte>

  /** The largest offset a JavaScript number holds exactly. */
  const MAX_SAFE_INTEGER: nat := 9007199254740991

  function Min(a: int, b: int): int { if a <= b then a else b }

  function Max(a: int, b: int): int { if a <= b then b else a }

  function Pow256(n: nat): (p: nat)
    ensures p >= 1
  {
    if n == 0 then 1 else 256 * Pow256(n - 1)
  }

  /** `value` as `width` bytes, least significant first. */
  function Le(value: nat, width: nat): (b: bytes)
    ensures |b| == width
  {
    if width == 0 then [] else [value % 256] + Le(value / 256, width - 1)
  }

  function LeValue(b: bytes): nat {
    if b == [] then 0 else b[0] + 256 * LeValue(b[1..])
  }

  lemma {:induction false} LeRoundTrip(value: nat, width: nat)
    requires value < Pow256(width)
    ensures LeValue(Le(value, width)) == value
  {
    if width > 0 {
      LeRoundTrip(value / 256, width - 1);
      assert Le(value, width)[1..] == Le(value / 256, width - 1);
    }
  }

  /** What does not fit is cut off: a width more makes no difference. */
  lemma {:induction false} LeWraps(value: nat, width: nat)
    ensures Le(value + Pow256(width), width) == Le(value, width)
  {
    if width > 0 {
      var more := value + Pow256(width);
      assert more % 256 == value % 256 && more / 256 == value / 256 + Pow256(width - 1);
      LeWraps(value / 256, width - 1);
    }
  }

  lemma {:induction false} LeOfValue(b: bytes)
    ensures LeValue(b) < Pow256(|b|)
    ensures Le(LeValue(b), |b|) == b
  {
    if b != [] {
      LeOfValue(b[1..]);
      assert b == [b[0]] + b[1..];
    }
  }

  /** `value` as `width` bytes, most significant first. */
  function Be(value: nat, width: nat): (b: bytes)
    ensures |b| == width
  {
    if width == 0 then [] else Be(value / 256, width - 1) + [value % 256]
  }

  function BeValue(b: bytes): nat {
    if b == [] then 0 else 256 * BeValue(b[..|b| - 1]) + b[|b| - 1]
  }

  lemma {:induction false} BeRoundTrip(value: nat, width: nat)
    requires value < Pow256(width)
    ensures BeValue(Be(value, width)) == value
  {
    if width > 0 {
      BeRoundTrip(value / 256, width - 1);
      assert Be(value, width)[..width - 1] == Be(value / 256, width - 1);
    }
  }

  lemma {:induction false} BeOfValue(b: bytes)
    ensures BeValue(b) < Pow256(|b|)
    ensures Be(BeValue(b), |b|) == b
  {
    if b != [] {
      BeOfValue(b[..|b| - 1]);
      assert b == b[..|b| - 1] + [b[|b| - 1]];
    }
  }

  /** The widths in use: 16, 32 and 64 bits. */
  lemma Widths()
    ensures Pow256(2) == 65536 && Pow256(4) == 4294967296 && Pow256(8) == 18446744073709551616
  {
    assert Pow256(4) == 256 * (256 * (256 * (256 * Pow256(0))));
    assert Pow256(8) == 256 * (256 * (256 * (256 * Pow256(4))));
  }

  /** The slice that `source.read(offset, length)` returns, when it lies inside the source. */
  function Read(log: bytes, offset: nat, length: nat): (r: Option<bytes>)
    ensures r.Some? <==> offset + length <= |log|
    ensures r.Some? ==> r.value == log[offset..offset + length]
  {
    if offset + length <= |log| then Some(log[offset..offset + length]) else None
  }

  lemma SliceOfSlice<T>(s: seq<T>, lo: nat, hi: nat, i: nat, j: nat)
    requires lo <= hi <= |s| && i <= j <= hi - lo
    ensures s[lo..hi][i..j] == s[lo + i..lo + j]
  {
    var a, b := s[lo..hi][i..j], s[lo + i..lo + j];
    assert |a| == |b| && forall k | 0 <= k < j - i :: a[k] == b[k];
  }

  // ----- a range, gathered piece by piece

  /** The part of `whole[from..to]` that lies before `end`. */
  function Clip(whole: bytes, from: nat, to: nat, end: nat): bytes
    requires from <= to <= |whole|
  {
    whole[from..Max(from, Min(to, end))]
  }

  /** The part of a piece that begins at `start` and lies in the range. */
  function Overlap(piece: bytes, start: nat, from: nat, to: nat): bytes
    requires from <= to
  {
    var end := start + |piece|;
    if end <= from || start >= to then [] else piece[Max(from, start) - start..Min(to, end) - start]
  }

  /** A piece extends the range by the part it has in it. */
  lemma ClipMore(whole: bytes, from: nat, to: nat, lo: nat, hi: nat)
    requires from <= to <= |whole| && lo <= hi <= |whole|
    ensures Clip(whole, from, to, hi) == Clip(whole, from, to, lo) + Overlap(whole[lo..hi], lo, from, to)
  {
    if !(hi <= from || lo >= to) {
      SliceOfSlice(whole, lo, hi, Max(from, lo) - lo, Min(to, hi) - lo);
    }
  }

  lemma ClipNone(whole: bytes, from: nat, to: nat)
    requires from <= to <= |whole|
    ensures Clip(whole, from, to, 0) == []
  {
  }

  lemma ClipAll(whole: bytes, from: nat, to: nat, end: nat)
    requires from <= to <= |whole| && (end >= |whole| || |Clip(whole, from, to, end)| >= to - from)
    ensures Clip(whole, from, to, end) == whole[from..to]
  {
  }
}
