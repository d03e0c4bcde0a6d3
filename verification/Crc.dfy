/**
 CRC-32, section 3.4 of RFC 2083: the table-driven computation equals the bitwise definition.
 Words are sequences of bits, the least significant first.
 */
module Crc {
  import opened Bytes

  type Word = seq<bool>

  /** `n` in binary. */
  function Bits(n: nat, width: nat): (w: Word)
    ensures |w| == width
  {
    if width == 0 then [] else [n % 2 == 1] + Bits(n / 2, width - 1)
  }

  function Value(w: Word): nat { if w == [] then 0 else (if w[0] then 1 else 0) + 2 * Value(w[1..]) }

  function Pow2(n: nat): (p: nat)
    ensures p >= 1
  {
    if n == 0 then 1 else 2 * Pow2(n - 1)
  }

  lemma {:induction false} BitsOfValue(w: Word)
    ensures Value(w) < Pow2(|w|) && Bits(Value(w), |w|) == w
  {
    if w != [] {
      BitsOfValue(w[1..]);
      assert w == [w[0]] + w[1..];
    }
  }

  lemma {:induction false} ValueOfBits(n: nat, width: nat)
    requires n < Pow2(width)
    ensures Value(Bits(n, width)) == n
  {
    if width > 0 {
      ValueOfBits(n / 2, width - 1);
      assert Bits(n, width)[1..] == Bits(n / 2, width - 1);
    }
  }

  function Xor(a: Word, b: Word): (w: Word)
    requires |a| == |b|
    ensures |w| == |a| && forall i | 0 <= i < |w| :: w[i] == (a[i] != b[i])
  {
    seq(|a|, i requires 0 <= i < |a| => a[i] != b[i])
  }

  /** `c >>> 1` and `c >>> n`: bits leave at the low end, zeros come in at the high end. */
  function Shift(w: Word, n: nat): (r: Word)
    requires n <= |w|
    ensures |r| == |w|
  {
    w[n..] + Fill(n, false)
  }

  /** 0xedb88320. */
  const POLYNOMIAL: Word := Bits(3988292384, 32)

  function Fill(n: nat, bit: bool): (w: Word)
    ensures |w| == n && forall i | 0 <= i < n :: w[i] == bit
  {
    if n == 0 then [] else Fill(n - 1, bit) + [bit]
  }

  const ONES: Word := Fill(32, true)

  /** One bit of the division. */
  function Step(c: Word): (r: Word)
    requires |c| == 32
    ensures |r| == 32
  {
    if c[0] then Xor(POLYNOMIAL, Shift(c, 1)) else Shift(c, 1)
  }

  function Steps(c: Word, n: nat): (r: Word)
    requires |c| == 32
    ensures |r| == 32
  {
    if n == 0 then c else Step(Steps(c, n - 1))
  }

  /** The register after some bytes: each byte is added to the low end, then eight bits are divided. */
  function Register(data: bytes): (c: Word)
    ensures |c| == 32
  {
    if data == [] then ONES else Steps(Xor(Register(data[..|data| - 1]), Bits(data[|data| - 1], 32)), 8)
  }

  /** The CRC by its definition. */
  function Bitwise(data: bytes): nat { Value(Xor(Register(data), ONES)) }

  lemma CrcFits(data: bytes)
    ensures Bitwise(data) < Pow256(4)
  {
    BitsOfValue(Xor(Register(data), ONES));
    Widths();
    PowersAgree(4);
  }

  lemma {:induction false} PowersAgree(n: nat)
    ensures Pow2(8 * n) == Pow256(n)
  {
    if n > 0 {
      PowersAgree(n - 1);
      EightDoublings(8 * (n - 1));
    }
  }

  lemma EightDoublings(n: nat)
    ensures Pow2(n + 8) == 256 * Pow2(n)
  {
    assert Pow2(n + 4) == 16 * Pow2(n) by {
      assert Pow2(n + 2) == 4 * Pow2(n);
      assert Pow2(n + 4) == 4 * Pow2(n + 2);
    }
    assert Pow2(n + 6) == 4 * Pow2(n + 4);
    assert Pow2(n + 8) == 4 * Pow2(n + 6);
  }

  // ----- why a table works

  /** The low byte of a word, and the rest. */
  function Low(c: Word): (w: Word)
    requires |c| == 32
    ensures |w| == 32
  {
    c[..8] + Fill(24, false)
  }

  function High(c: Word): (w: Word)
    requires |c| == 32
    ensures |w| == 32
  {
    Fill(8, false) + c[8..]
  }

  /** Bits that do not reach the low end are only shifted. */
  lemma StepSplits(low: Word, high: Word)
    requires |low| == |high| == 32 && !high[0]
    ensures Step(Xor(low, high)) == Xor(Step(low), Shift(high, 1))
  {
    assert Xor(low, high)[0] == low[0];
    assert Shift(Xor(low, high), 1) == Xor(Shift(low, 1), Shift(high, 1));
    assert Xor(POLYNOMIAL, Xor(Shift(low, 1), Shift(high, 1))) == Xor(Xor(POLYNOMIAL, Shift(low, 1)), Shift(high, 1));
  }

  lemma {:induction false} StepsSplit(low: Word, high: Word, n: nat)
    requires |low| == |high| == 32 && n <= 8 && forall i | 0 <= i < 8 :: !high[i]
    ensures Steps(Xor(low, high), n) == Xor(Steps(low, n), Shift(high, n))
  {
    hide Step;
    if n == 0 {
      assert Shift(high, 0) == high;
    } else {
      StepsSplit(low, high, n - 1);
      StepSplits(Steps(low, n - 1), Shift(high, n - 1));
      assert Shift(Shift(high, n - 1), 1) == Shift(high, n);
    }
  }

  /** Eight steps of a word: those of its low byte, and the rest shifted by eight. */
  lemma ByteStep(c: Word)
    requires |c| == 32
    ensures Steps(c, 8) == Xor(Steps(Low(c), 8), Shift(c, 8))
  {
    hide Steps;
    assert Xor(Low(c), High(c)) == c;
    assert Shift(High(c), 8) == Shift(c, 8);
    StepsSplit(Low(c), High(c), 8);
  }

  // ----- the table

  /** The number that the low byte of a word indexes with. */
  function Index(c: Word): nat
    requires |c| == 32
  {
    Value(c[..8])
  }

  lemma ByteBits()
    ensures Pow2(8) == 256
  {
    assert Pow2(4) == 16;
    assert Pow2(8) == 2 * (2 * (2 * (2 * Pow2(4))));
  }

  lemma {:induction false} ZeroBits(width: nat)
    ensures Bits(0, width) == Fill(width, false)
  {
    if width > 0 {
      ZeroBits(width - 1);
    }
  }

  lemma {:induction false} WiderBits(n: nat, width: nat, more: nat)
    requires n < Pow2(width)
    ensures Bits(n, width + more) == Bits(n, width) + Fill(more, false)
    decreases width
  {
    if width == 0 {
      ZeroBits(more);
    } else {
      WiderBits(n / 2, width - 1, more);
    }
  }

  /** The indexed number, as a word, is the low byte. */
  lemma IndexIsLow(c: Word)
    requires |c| == 32
    ensures Index(c) < 256 && Bits(Index(c), 32) == Low(c)
  {
    ByteBits();
    BitsOfValue(c[..8]);
    WiderBits(Index(c), 8, 24);
  }

  /** A byte has no high bits, so adding it leaves the rest of the register alone. */
  lemma ByteIsLow(c: Word, b: byte)
    requires |c| == 32
    ensures Shift(Xor(c, Bits(b, 32)), 8) == Shift(c, 8)
  {
    ByteBits();
    WiderBits(b, 8, 24);
    var x := Xor(c, Bits(b, 32));
    assert x[8..] == c[8..];
  }

  ghost predicate IsTable(table: seq<Word>) {
    |table| == 256 && forall n | 0 <= n < 256 :: |table[n]| == 32 && table[n] == Steps(Bits(n, 32), 8)
  }

  /** The inner loop of `makeCrcTable`. */
  method TableEntry(n: nat) returns (c: Word)
    ensures |c| == 32 && c == Steps(Bits(n, 32), 8)
  {
    hide Bits;
    c := Bits(n, 32);
    var k := 0;
    while k < 8
      invariant k <= 8 && c == Steps(Bits(n, 32), k)
    {
      c := if c[0] then Xor(POLYNOMIAL, Shift(c, 1)) else Shift(c, 1);
      k := k + 1;
    }
  }

  /** `makeCrcTable`: entry `n` is eight steps of `n`. */
  method MakeTable() returns (table: array<Word>)
    ensures fresh(table) && IsTable(table[..])
  {
    hide Steps, Bits;
    table := new Word[256](_ => []);
    var n := 0;
    while n < 256
      invariant n <= 256 && forall m | 0 <= m < n :: |table[m]| == 32 && table[m] == Steps(Bits(m, 32), 8)
    {
      var c := TableEntry(n);
      table[n] := c;
      n := n + 1;
    }
  }

  /** `crc32`: one table entry for every byte. */
  method Crc32(table: array<Word>, data: bytes) returns (crc: nat)
    requires IsTable(table[..])
    ensures crc == Bitwise(data)
  {
    hide Steps, Low, High, Bits;
    var c := ONES;
    var i := 0;
    while i < |data|
      invariant i <= |data| && c == Register(data[..i])
    {
      var x := Xor(c, Bits(data[i], 32));
      ByteStep(x);
      ByteIsLow(c, data[i]);
      IndexIsLow(x);
      assert data[..i + 1][..i] == data[..i];
      assert table[Index(x)] == table[..][Index(x)];
      c := Xor(table[Index(x)], Shift(c, 8));
      i := i + 1;
    }
    assert data[..i] == data;
    return Value(Xor(c, ONES));
  }
}
