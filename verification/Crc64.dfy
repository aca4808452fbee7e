/**
  CRC-64 (src/artifact/checksum.cpp): the reflected ECMA-182 polynomial, all-ones initial register, all-ones
  final xor. A 64-bit register is its sequence of bits, least significant first. The reference is bit-serial
  polynomial division: a shift register fed one message bit at a time, low bit of each byte first.
 */
module Crc64 {
  import opened Bytes

  type Word = w: seq<bool> | |w| == 64 witness Repeat(false, 64)

  function Repeat(b: bool, n: nat): (r: seq<bool>)
    ensures |r| == n && forall i :: 0 <= i < n ==> r[i] == b
  {
    seq(n, _ => b)
  }

  const POLY64_ECMA: Word := LowBits(0xC96C5795D7870F42, 64)
  const ALL_ONES: Word := Repeat(true, 64)

  /** Bit `i` of `x`. */
  predicate Bit(x: nat, i: nat)
    decreases i
  {
    if i == 0 then x % 2 == 1 else Bit(x / 2, i - 1)
  }

  /** The low `n` bits of `x`. */
  function LowBits(x: nat, n: nat): (r: seq<bool>)
    ensures |r| == n && forall i :: 0 <= i < n ==> r[i] == Bit(x, i)
  {
    seq(n, i requires 0 <= i < n => Bit(x, i))
  }

  function Value(bits: seq<bool>): nat {
    if bits == [] then 0 else (if bits[0] then 1 else 0) + 2 * Value(bits[1..])
  }

  function Xor(a: Word, b: Word): (r: Word)
    ensures forall i :: 0 <= i < 64 ==> r[i] == (a[i] != b[i])
  {
    seq(64, i requires 0 <= i < 64 => a[i] != b[i])
  }

  /** A logical right shift. */
  function ShiftRight(w: Word, n: nat): (r: Word)
    requires n <= 64
    ensures forall i :: 0 <= i < 64 ==> r[i] == (i + n < 64 && w[i + n])
  {
    w[n..] + Repeat(false, n)
  }

  /** The bits, zero extended to a register. */
  function Extend(bits: seq<bool>): (r: Word)
    requires |bits| <= 64
    ensures forall i :: 0 <= i < 64 ==> r[i] == (i < |bits| && bits[i])
  {
    bits + Repeat(false, 64 - |bits|)
  }

  // ---------------------------------------------------------------- reference

  /** One step of polynomial division: shift out the low bit xor the message bit, and subtract on a carry. */
  function FeedBit(c: Word, bit: bool): Word {
    if c[0] != bit then Xor(ShiftRight(c, 1), POLY64_ECMA) else ShiftRight(c, 1)
  }

  function Divide(c: Word, bits: seq<bool>): Word
    decreases |bits|
  {
    if bits == [] then c else Divide(FeedBit(c, bits[0]), bits[1..])
  }

  function BitsOf(data: ByteString): (r: seq<bool>)
    ensures |r| == 8 * |data|
  {
    if data == [] then [] else LowBits(data[0] as nat, 8) + BitsOf(data[1..])
  }

  /** The checksum by definition: divide the whole message, bit by bit. */
  function Checksum(data: ByteString): Word {
    Xor(Divide(ALL_ONES, BitsOf(data)), ALL_ONES)
  }

  // ---------------------------------------------------------------- the code's steps

  /** The inner loop body of the table generator. */
  function BitStep(c: Word): Word {
    if c[0] then Xor(ShiftRight(c, 1), POLY64_ECMA) else ShiftRight(c, 1)
  }

  function BitSteps(c: Word, n: nat): Word
    decreases n, |c|
  {
    if n == 0 then c else BitSteps(BitStep(c), n - 1)
  }

  function TableEntry(i: nat): Word {
    BitSteps(Extend(LowBits(i, 8)), 8)
  }

  /** The low byte of the register xored with the message byte. */
  function TableIndex(c: Word, b: byte): (index: nat)
    ensures index < 256
  {
    var low := Xor(c, Extend(LowBits(b as nat, 8)))[..8];
    ValueBound(low);
    assert Pow2(8) == 256;
    Value(low)
  }

  ghost predicate IsTable(t: seq<Word>) {
    |t| == 256 && forall i: nat :: i < 256 ==> IsEntry(t[i], i)
  }

  ghost predicate IsEntry(w: Word, i: nat) { w == TableEntry(i) }

  method GenerateEntry(b: nat) returns (crc: Word)
    ensures crc == TableEntry(b)
  {
    crc := Extend(LowBits(b, 8));
    for i := 0 to 8
      invariant BitSteps(crc, 8 - i) == TableEntry(b)
    {
      if crc[0] {
        crc := Xor(ShiftRight(crc, 1), POLY64_ECMA);
      } else {
        crc := ShiftRight(crc, 1);
      }
    }
  }

  method GenerateTable() returns (entries: array<Word>)
    ensures fresh(entries) && IsTable(entries[..])
  {
    entries := new Word[256](_ => ALL_ONES);
    for b := 0 to 256
      invariant forall i: nat :: i < b ==> IsEntry(entries[i], i)
    {
      var crc := GenerateEntry(b);
      entries[b] := crc;
    }
  }

  /** The checksum object: one register, and the table every object shares. */
  class Crc64 {
    var crc: Word
    const table: array<Word>

    ghost predicate Valid()
      reads this, table
    {
      IsTable(table[..])
    }

    constructor (t: array<Word>)
      requires IsTable(t[..])
      ensures Valid() && table == t && crc == ALL_ONES
    {
      table := t;
      crc := ALL_ONES;
    }

    /** Table-driven update: after it, the register is what bit-serial division of `data` leaves. */
    method Update(data: ByteString)
      requires Valid()
      modifies this
      ensures Valid() && crc == Divide(old(crc), BitsOf(data))
    {
      assert data[0..] == data;
      for i := 0 to |data|
        invariant Valid()
        invariant Divide(crc, BitsOf(data[i..])) == Divide(old(crc), BitsOf(data))
      {
        var index := TableIndex(crc, data[i]);
        UpdateByte(crc, data, i);
        crc := Xor(ShiftRight(crc, 8), table[index]);
      }
      assert data[|data|..] == [];
    }

    method Digest() returns (d: Word)
      ensures d == Xor(crc, ALL_ONES)
    {
      d := Xor(crc, ALL_ONES);
    }
  }

  /** `Crc64::calculate`. */
  method Calculate(table: array<Word>, data: ByteString) returns (d: Word)
    requires IsTable(table[..])
    ensures d == Checksum(data)
  {
    var c := new Crc64(table);
    c.Update(data);
    d := c.Digest();
  }

  /**
    The read loop of `validate_checksum` and of the writer's second pass: the file is fed in buffer-sized
    pieces, and a zero buffer size means 4 MiB.
   */
  method CalculateBuffered(table: array<Word>, data: ByteString, bufferSize: nat) returns (d: Word)
    requires IsTable(table[..])
    ensures d == Checksum(data)
  {
    var size := if bufferSize == 0 then 4 * 1024 * 1024 else bufferSize;
    var c := new Crc64(table);
    var bytesToRead := |data|;
    ghost var at := 0;
    while bytesToRead > 0
      invariant 0 <= at <= |data| && bytesToRead == |data| - at
      invariant fresh(c) && c.table == table
      invariant c.Valid()
      invariant c.crc == Divide(ALL_ONES, BitsOf(data[..at]))
    {
      var chunk := if bytesToRead < size then bytesToRead else size;
      NextPiece(data, at, chunk);
      c.Update(data[|data| - bytesToRead..|data| - bytesToRead + chunk]);
      bytesToRead, at := bytesToRead - chunk, at + chunk;
    }
    assert data[..at] == data;
    d := c.Digest();
  }

  // ---------------------------------------------------------------- bits and numbers

  function Pow2(n: nat): (p: nat)
    ensures p > 0
  {
    if n == 0 then 1 else 2 * Pow2(n - 1)
  }

  lemma {:induction false} ValueBound(bits: seq<bool>)
    ensures Value(bits) < Pow2(|bits|)
  {
    if bits != [] { ValueBound(bits[1..]); }
  }

  lemma LowBitsUncons(x: nat, n: nat)
    requires n > 0
    ensures LowBits(x, n) == [x % 2 == 1] + LowBits(x / 2, n - 1)
  {
    forall i | 0 < i < n
      ensures LowBits(x, n)[i] == LowBits(x / 2, n - 1)[i - 1]
    {
    }
  }

  lemma {:induction false} LowBitsOfValue(bits: seq<bool>)
    ensures LowBits(Value(bits), |bits|) == bits
  {
    if bits != [] {
      LowBitsUncons(Value(bits), |bits|);
      LowBitsOfValue(bits[1..]);
    }
  }

  lemma {:induction false} ValueOfLowBits(x: nat, n: nat)
    requires x < Pow2(n)
    ensures Value(LowBits(x, n)) == x
    decreases n
  {
    if n > 0 {
      LowBitsUncons(x, n);
      ValueOfLowBits(x / 2, n - 1);
    }
  }

  lemma {:induction false} BitIsQuotient(x: nat, i: nat)
    ensures Bit(x, i) == ((x / Pow2(i)) % 2 == 1)
    decreases i
  {
    if i > 0 {
      BitIsQuotient(x / 2, i - 1);
      DivDiv(x, Pow2(i - 1));
    }
  }

  lemma DivDiv(x: nat, p: nat)
    requires p > 0
    ensures (x / 2) / p == x / (2 * p)
  {
    var q, r := x / (2 * p), x % (2 * p);
    assert x == (2 * p) * q + r;
    assert x / 2 == p * q + r / 2;
    assert (x / 2) / p == q by {
      assert 0 <= r / 2 < p;
      assert (x / 2) == q * p + r / 2;
      DivUnique(x / 2, p, q, r / 2);
    }
  }

  lemma DivUnique(x: int, p: int, q: int, r: int)
    requires p > 0 && 0 <= r < p && x == q * p + r
    ensures x / p == q
  {
    var d := x / p - q;
    assert x == (x / p) * p + x % p;
    assert d * p == r - x % p;
    assert d >= 1 ==> d * p >= p;
    assert d <= -1 ==> d * p <= -p;
  }

  lemma TopWeight()
    ensures Pow2(63) == 0x8000_0000_0000_0000
  {
    assert Pow2(7) == 128;
    assert Pow2(14) == 16384 by { Pow2Add(7, 7); }
    assert Pow2(28) == 0x1000_0000 by { Pow2Add(14, 14); }
    assert Pow2(56) == 0x100_0000_0000_0000 by { Pow2Add(28, 28); }
    Pow2Add(56, 7);
  }

  /** The polynomial's top coefficient: what makes a step invertible. */
  lemma TopTap()
    ensures POLY64_ECMA[63]
  {
    BitIsQuotient(0xC96C5795D7870F42, 63);
    TopWeight();
  }

  lemma {:induction false} Pow2Add(m: nat, n: nat)
    ensures Pow2(m + n) == Pow2(m) * Pow2(n)
  {
    if m > 0 {
      Pow2Add(m - 1, n);
      assert Pow2(m + n) == 2 * (Pow2(m - 1) * Pow2(n)) == (2 * Pow2(m - 1)) * Pow2(n);
    }
  }

  // ---------------------------------------------------------------- the table step is eight divisions

  /** The bit step is linear over xor. */
  lemma BitStepLinear(x: Word, y: Word)
    ensures BitStep(Xor(x, y)) == Xor(BitStep(x), BitStep(y))
  {
    assert ShiftRight(Xor(x, y), 1) == Xor(ShiftRight(x, 1), ShiftRight(y, 1));
  }

  lemma {:induction false} BitStepsLinear(x: Word, y: Word, n: nat)
    ensures BitSteps(Xor(x, y), n) == Xor(BitSteps(x, n), BitSteps(y, n))
    decreases n
  {
    if n > 0 {
      BitStepLinear(x, y);
      BitStepsLinear(BitStep(x), BitStep(y), n - 1);
    }
  }

  /** Steps on a register whose low bits are clear only shift. */
  lemma {:induction false} ClearLowShifts(w: Word, n: nat)
    requires n <= 64 && forall i :: 0 <= i < n ==> !w[i]
    ensures BitSteps(w, n) == ShiftRight(w, n)
    decreases n
  {
    if n > 0 {
      ClearLowShifts(ShiftRight(w, 1), n - 1);
      assert ShiftRight(ShiftRight(w, 1), n - 1) == ShiftRight(w, n);
    } else {
      assert ShiftRight(w, 0) == w;
    }
  }

  /** The register with its low byte cleared. */
  function ClearLowByte(c: Word): (r: Word)
    ensures forall i :: 0 <= i < 64 ==> r[i] == (i >= 8 && c[i])
  {
    Repeat(false, 8) + c[8..]
  }

  lemma SplitLowByte(x: Word)
    ensures x == Xor(ClearLowByte(x), Extend(x[..8]))
    ensures BitSteps(ClearLowByte(x), 8) == ShiftRight(x, 8)
  {
    ClearLowShifts(ClearLowByte(x), 8);
    assert ShiftRight(ClearLowByte(x), 8) == ShiftRight(x, 8);
  }

  /** Eight steps, by table: the low byte's entry and a shift. */
  lemma EightSteps(x: Word)
    ensures BitSteps(x, 8) == Xor(ShiftRight(x, 8), TableEntry(Value(x[..8])))
  {
    LowBitsOfValue(x[..8]);
    SplitLowByte(x);
    BitStepsLinear(ClearLowByte(x), Extend(x[..8]), 8);
  }

  /** One lookup does what feeding the byte's eight bits does. */
  lemma TableStep(c: Word, b: byte)
    ensures Xor(ShiftRight(c, 8), TableEntry(TableIndex(c, b))) == Divide(c, LowBits(b as nat, 8))
  {
    var message := LowBits(b as nat, 8);
    var x := Xor(c, Extend(message));
    EightSteps(x);
    assert ShiftRight(x, 8) == ShiftRight(c, 8);
    DivisionIsXorThenSteps(c, message);
  }

  lemma UpdateByte(c: Word, data: ByteString, i: nat)
    requires i < |data|
    ensures Divide(Xor(ShiftRight(c, 8), TableEntry(TableIndex(c, data[i]))), BitsOf(data[i + 1..]))
         == Divide(c, BitsOf(data[i..]))
  {
    TableStep(c, data[i]);
    assert data[i..][1..] == data[i + 1..];
    DivideAppend(c, LowBits(data[i] as nat, 8), BitsOf(data[i + 1..]));
  }

  lemma XorThenStep(c: Word, bits: seq<bool>)
    requires 0 < |bits| <= 64
    ensures BitStep(Xor(c, Extend(bits))) == Xor(FeedBit(c, bits[0]), Extend(bits[1..]))
  {
    assert ShiftRight(Xor(c, Extend(bits)), 1) == Xor(ShiftRight(c, 1), Extend(bits[1..]));
  }

  /** Up to 64 message bits act on the register as one xor followed by as many bit steps. */
  lemma {:induction false} DivisionIsXorThenSteps(c: Word, bits: seq<bool>)
    requires |bits| <= 64
    ensures Divide(c, bits) == BitSteps(Xor(c, Extend(bits)), |bits|)
    decreases |bits|
  {
    if bits == [] {
      XorNothing(c);
    } else {
      var d := FeedBit(c, bits[0]);
      var x := Xor(c, Extend(bits));
      assert BitSteps(x, |bits|) == BitSteps(Xor(d, Extend(bits[1..])), |bits| - 1) by { XorThenStep(c, bits); }
      DivisionIsXorThenSteps(d, bits[1..]);
      assert Divide(c, bits) == Divide(d, bits[1..]);
    }
  }

  lemma XorNothing(c: Word)
    ensures Xor(c, Extend([])) == c
  {
  }

  // ---------------------------------------------------------------- chunking

  lemma {:induction false} DivideAppend(c: Word, a: seq<bool>, b: seq<bool>)
    ensures Divide(c, a + b) == Divide(Divide(c, a), b)
    decreases |a|
  {
    if a == [] {
      assert a + b == b;
    } else {
      assert (a + b)[1..] == a[1..] + b;
      DivideAppend(FeedBit(c, a[0]), a[1..], b);
    }
  }

  lemma {:induction false} BitsOfAppend(a: ByteString, b: ByteString)
    ensures BitsOf(a + b) == BitsOf(a) + BitsOf(b)
  {
    if a == [] {
      assert a + b == b;
    } else {
      assert (a + b)[1..] == a[1..] + b;
      BitsOfAppend(a[1..], b);
    }
  }

  /** Feeding data in two pieces is feeding it at once. */
  lemma UpdateSplits(c: Word, a: ByteString, b: ByteString)
    ensures Divide(c, BitsOf(a + b)) == Divide(Divide(c, BitsOf(a)), BitsOf(b))
  {
    BitsOfAppend(a, b);
    DivideAppend(c, BitsOf(a), BitsOf(b));
  }

  lemma NextPiece(data: ByteString, at: nat, chunk: nat)
    requires at + chunk <= |data|
    ensures Divide(Divide(ALL_ONES, BitsOf(data[..at])), BitsOf(data[at..at + chunk]))
         == Divide(ALL_ONES, BitsOf(data[..at + chunk]))
  {
    UpdateSplits(ALL_ONES, data[..at], data[at..at + chunk]);
    assert data[..at] + data[at..at + chunk] == data[..at + chunk];
  }

  function FeedChunks(c: Word, chunks: seq<ByteString>): Word
    decreases |chunks|
  {
    if chunks == [] then c else FeedChunks(Divide(c, BitsOf(chunks[0])), chunks[1..])
  }

  /** Any way of cutting the data into `Update` calls leaves the one-shot register. */
  lemma {:induction false} AnyChunking(c: Word, chunks: seq<ByteString>)
    ensures FeedChunks(c, chunks) == Divide(c, BitsOf(Concat(chunks)))
    decreases |chunks|
  {
    if chunks != [] {
      UpdateSplits(c, chunks[0], Concat(chunks[1..]));
      AnyChunking(Divide(c, BitsOf(chunks[0])), chunks[1..]);
    }
  }

  // ---------------------------------------------------------------- bursts of up to 64 bits are detected

  /** A shift register whose top tap is set can be run backwards. */
  lemma BitStepInjective(x: Word, y: Word)
    requires BitStep(x) == BitStep(y)
    ensures x == y
  {
    TopTap();
    assert BitStep(x)[63] == x[0] && BitStep(y)[63] == y[0];
    forall i | 1 <= i < 64
      ensures x[i] == y[i]
    {
      assert BitStep(x)[i - 1] == (x[i] != (x[0] && POLY64_ECMA[i - 1]));
      assert BitStep(y)[i - 1] == (y[i] != (y[0] && POLY64_ECMA[i - 1]));
    }
  }

  lemma {:induction false} BitStepsInjective(x: Word, y: Word, n: nat)
    requires BitSteps(x, n) == BitSteps(y, n)
    ensures x == y
    decreases n
  {
    if n > 0 {
      BitStepsInjective(BitStep(x), BitStep(y), n - 1);
      BitStepInjective(x, y);
    }
  }

  lemma XorInjective(c: Word, x: Word, y: Word)
    requires Xor(c, x) == Xor(c, y) || Xor(x, c) == Xor(y, c)
    ensures x == y
  {
    forall i | 0 <= i < 64
      ensures x[i] == y[i]
    {
      assert Xor(c, x)[i] == (c[i] != x[i]) && Xor(c, y)[i] == (c[i] != y[i]);
      assert Xor(x, c)[i] == (c[i] != x[i]) && Xor(y, c)[i] == (c[i] != y[i]);
    }
  }

  /** From one register, windows of at most 64 bits that lead to the same register are the same. */
  lemma WindowInjective(c: Word, a: seq<bool>, b: seq<bool>)
    requires |a| == |b| <= 64 && Divide(c, a) == Divide(c, b)
    ensures a == b
  {
    DivisionIsXorThenSteps(c, a);
    DivisionIsXorThenSteps(c, b);
    BitStepsInjective(Xor(c, Extend(a)), Xor(c, Extend(b)), |a|);
    XorInjective(c, Extend(a), Extend(b));
    assert a == Extend(a)[..|a|] == Extend(b)[..|a|] == b;
  }

  lemma FeedBitInjective(c: Word, d: Word, bit: bool)
    requires FeedBit(c, bit) == FeedBit(d, bit)
    ensures c == d
  {
    XorThenStep(c, [bit]);
    XorThenStep(d, [bit]);
    BitStepInjective(Xor(c, Extend([bit])), Xor(d, Extend([bit])));
    XorInjective(Extend([bit]), c, d);
  }

  /** Registers that a message leads to the same register were the same before it. */
  lemma {:induction false} RegisterInjective(c: Word, d: Word, bits: seq<bool>)
    requires Divide(c, bits) == Divide(d, bits)
    ensures c == d
    decreases |bits|
  {
    if bits != [] {
      RegisterInjective(FeedBit(c, bits[0]), FeedBit(d, bits[0]), bits[1..]);
      FeedBitInjective(c, d, bits[0]);
    }
  }

  /** The two messages agree outside the bit positions `[lo, hi)`. */
  ghost predicate DifferOnlyWithin(a: seq<bool>, b: seq<bool>, lo: nat, hi: nat) {
    lo <= hi <= |a| == |b| && a[..lo] == b[..lo] && a[hi..] == b[hi..]
  }

  lemma EqualChecksumsWithinWindow(a: ByteString, b: ByteString, lo: nat, hi: nat)
    requires DifferOnlyWithin(BitsOf(a), BitsOf(b), lo, hi) && hi - lo <= 64
    requires Checksum(a) == Checksum(b)
    ensures a == b
  {
    var x, y := BitsOf(a), BitsOf(b);
    assert x == x[..lo] + x[lo..hi] + x[hi..];
    assert y == y[..lo] + y[lo..hi] + y[hi..];
    DivideAppend(ALL_ONES, x[..lo] + x[lo..hi], x[hi..]);
    DivideAppend(ALL_ONES, x[..lo], x[lo..hi]);
    DivideAppend(ALL_ONES, y[..lo] + y[lo..hi], y[hi..]);
    DivideAppend(ALL_ONES, y[..lo], y[lo..hi]);
    XorInjective(ALL_ONES, Divide(ALL_ONES, x), Divide(ALL_ONES, y));
    var c := Divide(ALL_ONES, x[..lo]);
    RegisterInjective(Divide(c, x[lo..hi]), Divide(c, y[lo..hi]), x[hi..]);
    WindowInjective(c, x[lo..hi], y[lo..hi]);
    BitsOfInjective(a, b);
  }

  /** Every error burst of at most 64 consecutive bits, byte aligned or not, changes the checksum. */
  lemma BurstDetected(a: ByteString, b: ByteString, lo: nat, hi: nat)
    requires a != b
    requires DifferOnlyWithin(BitsOf(a), BitsOf(b), lo, hi) && hi - lo <= 64
    ensures Checksum(a) != Checksum(b)
  {
    if Checksum(a) == Checksum(b) {
      EqualChecksumsWithinWindow(a, b, lo, hi);
    }
  }

  lemma {:induction false} BitsOfInjective(a: ByteString, b: ByteString)
    requires BitsOf(a) == BitsOf(b)
    ensures a == b
  {
    if a == [] {
      assert |BitsOf(b)| == 0;
    } else {
      assert |a| == |b|;
      var x, y := LowBits(a[0] as nat, 8), LowBits(b[0] as nat, 8);
      assert BitsOf(a)[..8] == x && BitsOf(b)[..8] == y;
      assert BitsOf(a)[8..] == BitsOf(a[1..]) && BitsOf(b)[8..] == BitsOf(b[1..]);
      assert Pow2(8) == 256;
      ValueOfLowBits(a[0] as nat, 8);
      ValueOfLowBits(b[0] as nat, 8);
      BitsOfInjective(a[1..], b[1..]);
    }
  }

  /** Damage confined to at most eight consecutive bytes is one such burst. */
  lemma ByteWindowDetected(a: ByteString, b: ByteString, lo: nat, hi: nat)
    requires lo <= hi <= |a| == |b| && hi - lo <= 8
    requires a[..lo] == b[..lo] && a[hi..] == b[hi..] && a != b
    ensures Checksum(a) != Checksum(b)
  {
    assert a == a[..hi] + a[hi..] && b == b[..hi] + b[hi..];
    assert a == a[..lo] + a[lo..] && b == b[..lo] + b[lo..];
    BitsOfAppend(a[..lo], a[lo..]);
    BitsOfAppend(b[..lo], b[lo..]);
    BitsOfAppend(a[..hi], a[hi..]);
    BitsOfAppend(b[..hi], b[hi..]);
    assert BitsOf(a)[..8 * lo] == BitsOf(a[..lo]);
    assert BitsOf(b)[..8 * lo] == BitsOf(b[..lo]);
    assert BitsOf(a)[8 * hi..] == BitsOf(a[hi..]);
    assert BitsOf(b)[8 * hi..] == BitsOf(b[hi..]);
    BurstDetected(a, b, 8 * lo, 8 * hi);
  }

  // ---------------------------------------------------------------- bursts that run into the appended checksum

  /** One step that ends with a clear top bit has only shifted. */
  lemma ClearTopBit(w: Word)
    requires !BitStep(w)[63]
    ensures !w[0] && BitStep(w) == ShiftRight(w, 1)
  {
    TopTap();
    assert BitStep(w)[63] == w[0];
  }

  /** Steps that end with their top bits clear, as many as there were steps, started with their low bits clear. */
  lemma {:induction false} ClearTopShifts(w: Word, n: nat, r: Word)
    requires n <= 64 && r == BitSteps(w, n) && forall i :: 64 - n <= i < 64 ==> !r[i]
    ensures forall i :: 0 <= i < n ==> !w[i]
    decreases n
  {
    if n > 0 {
      var v := BitStep(w);
      ClearTopShifts(v, n - 1, r);
      ClearLowShifts(v, n - 1);
      assert r[64 - n] == v[63];
      ClearTopBit(w);
      forall i | 1 <= i < n
        ensures !w[i]
      {
        assert v[i - 1] == w[i];
      }
    }
  }

  /** Messages of `n` bits that leave registers with the same top `n` bits are the same. */
  lemma TopBitsInjective(c: Word, a: seq<bool>, b: seq<bool>, n: nat)
    requires |a| == |b| == n <= 64 && forall i :: 64 - n <= i < 64 ==> Divide(c, a)[i] == Divide(c, b)[i]
    ensures a == b
  {
    var x, y := Xor(c, Extend(a)), Xor(c, Extend(b));
    DivisionIsXorThenSteps(c, a);
    DivisionIsXorThenSteps(c, b);
    BitStepsLinear(x, y, n);
    ClearTopShifts(Xor(x, y), n, Xor(Divide(c, a), Divide(c, b)));
    forall i | 0 <= i < n
      ensures a[i] == b[i]
    {
      assert !Xor(x, y)[i] && x[i] == (c[i] != a[i]) && y[i] == (c[i] != b[i]);
    }
  }

  lemma {:induction false} ValueAppend(a: seq<bool>, b: seq<bool>)
    ensures Value(a + b) == Value(a) + Pow2(|a|) * Value(b)
  {
    if a == [] {
      assert a + b == b;
    } else {
      assert (a + b)[1..] == a[1..] + b;
      ValueAppend(a[1..], b);
      TwiceProduct(Pow2(|a| - 1), Value(b));
    }
  }

  lemma TwiceProduct(p: nat, v: nat)
    ensures (2 * p) * v == 2 * (p * v)
  {
  }

  /** A byte string's bits are those of the number it encodes. */
  lemma {:induction false} ValueOfBits(data: ByteString)
    ensures Value(BitsOf(data)) == FromLittleEndian(data)
  {
    if data != [] {
      assert Pow2(8) == 256;
      ValueAppend(LowBits(data[0] as nat, 8), BitsOf(data[1..]));
      ValueOfLowBits(data[0] as nat, 8);
      ValueOfBits(data[1..]);
    }
  }

  /** Eight bytes that encode a register hold its bits. */
  lemma BytesOfRegister(c: Word, bytes: ByteString)
    requires |bytes| == 8 && FromLittleEndian(bytes) == Value(c)
    ensures BitsOf(bytes) == c
  {
    ValueOfBits(bytes);
    LowBitsOfValue(c);
    LowBitsOfValue(BitsOf(bytes));
  }

  lemma HighBytes(x: ByteString, y: ByteString, hi: nat)
    requires |x| == |y| && hi <= |x| && x[hi..] == y[hi..]
    ensures BitsOf(x)[8 * hi..] == BitsOf(y)[8 * hi..]
  {
    assert x == x[..hi] + x[hi..] && y == y[..hi] + y[hi..];
    BitsOfAppend(x[..hi], x[hi..]);
    BitsOfAppend(y[..hi], y[hi..]);
    assert BitsOf(x)[8 * hi..] == BitsOf(x[hi..]) && BitsOf(y)[8 * hi..] == BitsOf(y[hi..]);
  }

  /** The checksum, and the register after the first bytes with the bits that follow them. */
  lemma ChecksumFrom(a: ByteString, lo: nat)
    requires lo <= |a|
    ensures Checksum(a) == Xor(Divide(Divide(ALL_ONES, BitsOf(a[..lo])), BitsOf(a[lo..])), ALL_ONES)
  {
    assert a == a[..lo] + a[lo..];
    UpdateSplits(ALL_ONES, a[..lo], a[lo..]);
  }

  lemma TailsAgree(c: Word, a: ByteString, b: ByteString, x: Word, y: Word, hi: nat)
    requires |a| == |b| && |a| + hi <= 8
    requires x == Xor(Divide(c, BitsOf(a)), ALL_ONES) && y == Xor(Divide(c, BitsOf(b)), ALL_ONES)
    requires x[8 * hi..] == y[8 * hi..]
    ensures a == b
  {
    var u, v := Divide(c, BitsOf(a)), Divide(c, BitsOf(b));
    forall i | 64 - 8 * |a| <= i < 64
      ensures u[i] == v[i]
    {
      assert x[i] == x[8 * hi..][i - 8 * hi] && y[i] == y[8 * hi..][i - 8 * hi];
    }
    TopBitsInjective(c, BitsOf(a), BitsOf(b), 8 * |a|);
    BitsOfInjective(a, b);
  }

  /**
    A message and its appended checksum, least significant byte first: two of them that agree outside eight consecutive
    bytes across the boundary are the same.
   */
  lemma AcrossBoundary(a: ByteString, b: ByteString, lo: nat, x: ByteString, y: ByteString, hi: nat)
    requires |a| == |b| && lo <= |a| && a[..lo] == b[..lo]
    requires |x| == |y| == 8 && BitsOf(x) == Checksum(a) && BitsOf(y) == Checksum(b)
    requires hi <= 8 && x[hi..] == y[hi..] && |a| - lo + hi <= 8
    ensures a == b && x == y
  {
    HighBytes(x, y, hi);
    ChecksumFrom(a, lo);
    ChecksumFrom(b, lo);
    TailsAgree(Divide(ALL_ONES, BitsOf(a[..lo])), a[lo..], b[lo..], BitsOf(x), BitsOf(y), hi);
    assert a == a[..lo] + a[lo..] && b == b[..lo] + b[lo..];
    BitsOfInjective(x, y);
  }
}
