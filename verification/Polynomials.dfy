/**
  The checksum by its algebraic definition: a remainder of polynomials over the field of two elements. A polynomial is
  its coefficients, highest degree first, which is also the order of a reflected register, lowest bit first.
 */
module Polynomials {
  import opened Bytes
  import opened Crc64

  type Polynomial = seq<bool>

  function Plus(a: Polynomial, b: Polynomial): (r: Polynomial)
    requires |a| == |b|
    ensures |r| == |a| && forall i :: 0 <= i < |r| ==> r[i] == (a[i] != b[i])
  {
    seq(|a|, i requires 0 <= i < |a| => a[i] != b[i])
  }

  /** `p` once for each coefficient of `q`, each time a place further. */
  function Times(q: Polynomial, p: Polynomial): (r: Polynomial)
    requires p != []
    ensures |r| == |q| + |p| - 1
  {
    if q == [] then Repeat(false, |p| - 1)
    else Plus((if q[0] then p else Repeat(false, |p|)) + Repeat(false, |q| - 1), [false] + Times(q[1..], p))
  }

  /** `d` is a multiple of `p` and a remainder of lower degree. */
  ghost predicate IsRemainder(p: Polynomial, d: Polynomial, r: Word)
    requires |p| == 65
  {
    exists q :: IsQuotient(p, d, r, q)
  }

  ghost predicate IsQuotient(p: Polynomial, d: Polynomial, r: Word, q: Polynomial)
    requires |p| == 65
  {
    |d| == |q| + 64 && d == Plus(Times(q, p), Repeat(false, |q|) + r)
  }

  /** What is left of `d` after `p` has been subtracted from its front, or not, and its first place dropped. */
  function Reduced(p: Polynomial, d: Polynomial, b: bool): (r: Polynomial)
    requires |p| == 65 <= |d|
    ensures |r| == |d| - 1
  {
    Plus(d, (if b then p else Repeat(false, 65)) + Repeat(false, |d| - 65))[1..]
  }

  lemma QuotientHead(p: Polynomial, d: Polynomial, r: Word, q: Polynomial)
    requires |p| == 65 && q != [] && IsQuotient(p, d, r, q) && p[0]
    ensures d[0] == q[0] && IsQuotient(p, Reduced(p, d, q[0]), r, q[1..])
  {
  }

  /** Quotient and remainder are determined. */
  lemma {:induction false} RemainderIsUnique(p: Polynomial, d: Polynomial, r: Word, q: Polynomial, r': Word, q': Polynomial)
    requires |p| == 65 && p[0] && IsQuotient(p, d, r, q) && IsQuotient(p, d, r', q')
    ensures r == r'
    decreases |q|
  {
    if q == [] {
      NoQuotient(p, d, r);
      NoQuotient(p, d, r');
    } else {
      QuotientHead(p, d, r, q);
      QuotientHead(p, d, r', q');
      RemainderIsUnique(p, Reduced(p, d, d[0]), r, q[1..], r', q'[1..]);
    }
  }

  lemma NoQuotient(p: Polynomial, d: Polynomial, r: Word)
    requires |p| == 65 && IsQuotient(p, d, r, [])
    ensures r == d
  {
  }

  // ---------------------------------------------------------------- the register is a remainder

  /** The register ahead of the message, and the message moved up by 64 degrees. */
  function Dividend(c: Word, bits: seq<bool>): (r: Polynomial)
    ensures |r| == |bits| + 64
  {
    Plus(c + Repeat(false, |bits|), bits + Repeat(false, 64))
  }

  lemma OneSubtraction(p: Polynomial, c: Word, bits: seq<bool>, one: Polynomial)
    requires p == [true] + POLY64_ECMA && bits != []
    requires one == (if c[0] != bits[0] then p else Repeat(false, 65)) + Repeat(false, |bits| - 1)
    ensures Dividend(c, bits) == Plus(one, [false] + Dividend(FeedBit(c, bits[0]), bits[1..]))
  {
  }

  /** Feeding the message divides it, whatever the register held before. */
  lemma {:induction false} DivideLeavesRemainder(p: Polynomial, c: Word, bits: seq<bool>)
    requires p == [true] + POLY64_ECMA
    ensures IsRemainder(p, Dividend(c, bits), Divide(c, bits))
    decreases |bits|
  {
    if bits == [] {
      assert IsQuotient(p, Dividend(c, bits), c, []);
    } else {
      var d := FeedBit(c, bits[0]);
      DivideLeavesRemainder(p, d, bits[1..]);
      var q :| IsQuotient(p, Dividend(d, bits[1..]), Divide(d, bits[1..]), q);
      OneMoreStep(p, c, bits, q);
    }
  }

  lemma OneMoreStep(p: Polynomial, c: Word, bits: seq<bool>, q: Polynomial)
    requires p == [true] + POLY64_ECMA && bits != []
    requires IsQuotient(p, Dividend(FeedBit(c, bits[0]), bits[1..]), Divide(c, bits), q)
    ensures IsQuotient(p, Dividend(c, bits), Divide(c, bits), [c[0] != bits[0]] + q)
  {
    OneSubtraction(p, c, bits, (if c[0] != bits[0] then p else Repeat(false, 65)) + Repeat(false, |bits| - 1));
    Longer(p, Dividend(c, bits), Dividend(FeedBit(c, bits[0]), bits[1..]), c[0] != bits[0], Divide(c, bits), q);
  }

  lemma Longer(p: Polynomial, d: Polynomial, d': Polynomial, b: bool, r: Word, q: Polynomial)
    requires |p| == 65 && IsQuotient(p, d', r, q) && |d| == |q| + 65
    requires d == Plus((if b then p else Repeat(false, 65)) + Repeat(false, |q|), [false] + d')
    ensures IsQuotient(p, d, r, [b] + q)
  {
    var one := (if b then p else Repeat(false, 65)) + Repeat(false, |q|);
    TimesLonger(p, b, q);
    Regroup(one, Times(q, p), Repeat(false, |q|) + r);
    assert [false] + (Repeat(false, |q|) + r) == Repeat(false, |[b] + q|) + r;
  }

  lemma TimesLonger(p: Polynomial, b: bool, q: Polynomial)
    requires |p| == 65
    ensures Times([b] + q, p) == Plus((if b then p else Repeat(false, 65)) + Repeat(false, |q|), [false] + Times(q, p))
  {
    assert ([b] + q)[1..] == q;
  }

  lemma Regroup(one: Polynomial, t: Polynomial, r: Polynomial)
    requires |one| == |t| + 1 == |r| + 1
    ensures Plus(one, [false] + Plus(t, r)) == Plus(Plus(one, [false] + t), [false] + r)
  {
  }

  // ---------------------------------------------------------------- the checksum

  /** The degrees of its terms. */
  predicate InEcma182(k: int) {
    k == 64 || k == 62 || k == 57 || 52 <= k <= 55 || 45 <= k <= 47 || 37 <= k <= 40 || k == 35 || 31 <= k <= 33 || k == 29
    || k == 27 || 21 <= k <= 24 || k == 19 || k == 17 || k == 13 || k == 12 || k == 10 || k == 9 || k == 7 || k == 4
    || k == 1 || k == 0
  }

  /** The polynomial of ECMA-182, by the degrees of its terms. */
  ghost predicate IsEcma182(p: Polynomial) {
    |p| == 65 && forall i :: 0 <= i <= 64 ==> p[i] == InEcma182(64 - i)
  }

  ghost predicate BitOfData(data: ByteString, k: nat)
    requires k < 8 * |data|
  {
    (data[k / 8] as nat / Pow2(k % 8)) % 2 == 1
  }

  /** The bits of the bytes, low bits first, followed by 64 zeros, with the first 64 of all these turned over. */
  ghost predicate IsMessage(data: ByteString, m: Polynomial) {
    |m| == 8 * |data| + 64 && forall k :: 0 <= k < |m| ==> m[k] == ((k < 64) != (k < 8 * |data| && BitOfData(data, k)))
  }

  lemma {:induction false} BitOfByte(data: ByteString, k: nat)
    requires k < 8 * |data|
    ensures BitsOf(data)[k] == BitOfData(data, k)
  {
    if k < 8 {
      BitIsQuotient(data[0] as nat, k);
    } else {
      BitOfByte(data[1..], k - 8);
    }
  }

  lemma {:induction false} BitHigher(x: nat, i: nat, n: nat, y: nat)
    requires i >= n && y == x / Pow2(n)
    ensures Bit(x, i) == Bit(y, i - n)
    decreases n
  {
    if n > 0 {
      DivDiv(x, Pow2(n - 1));
      BitHigher(x / 2, i - 1, n - 1, y);
    }
  }

  lemma SmallPowers()
    ensures Pow2(1) == 2 && Pow2(2) == 4 && Pow2(3) == 8 && Pow2(4) == 16 && Pow2(5) == 32 && Pow2(6) == 64 && Pow2(7) == 128
    ensures Pow2(8) == 256
  {
  }

  lemma BytePowers()
    ensures Pow2(16) == 0x1_0000 && Pow2(24) == 0x100_0000 && Pow2(32) == 0x1_0000_0000 && Pow2(40) == 0x100_0000_0000
    ensures Pow2(48) == 0x1_0000_0000_0000 && Pow2(56) == 0x100_0000_0000_0000
  {
    SmallPowers();
    Pow2Add(8, 8);
    Pow2Add(16, 8);
    Pow2Add(16, 16);
    Pow2Add(32, 8);
    Pow2Add(32, 16);
    Pow2Add(32, 24);
  }

  /** The constant without its low `n` bytes. */
  function UpperBytes(n: nat): nat
    requires n < 8
  {
    match n
    case 0 => 0xC96C5795D7870F42
    case 1 => 0xC96C5795D7870F
    case 2 => 0xC96C5795D787
    case 3 => 0xC96C5795D7
    case 4 => 0xC96C5795
    case 5 => 0xC96C57
    case 6 => 0xC96C
    case 7 => 0xC9
  }

  lemma UpperBytesAre(n: nat)
    requires n < 8
    ensures UpperBytes(n) == 0xC96C5795D7870F42 / Pow2(8 * n)
  {
    BytePowers();
    SmallPowers();
  }

  predicate ByteBit(x: nat, j: nat)
    requires j < 8
  {
    var d := match j case 0 => x case 1 => x / 2 case 2 => x / 4 case 3 => x / 8 case 4 => x / 16 case 5 => x / 32
             case 6 => x / 64 case 7 => x / 128;
    d % 2 == 1
  }

  lemma BitOfConstant(n: nat, j: nat)
    requires n < 8 && j < 8
    ensures POLY64_ECMA[8 * n + j] == ByteBit(UpperBytes(n), j)
  {
    UpperBytesAre(n);
    SmallPowers();
    BitHigher(0xC96C5795D7870F42, 8 * n + j, 8 * n, UpperBytes(n));
    BitIsQuotient(UpperBytes(n), j);
  }

  lemma TermsOfBytes(n: nat, j: nat)
    requires n < 8 && j < 8
    ensures ByteBit(UpperBytes(n), j) == InEcma182(63 - (8 * n + j))
  {
  }

  lemma PolynomialIsEcma182(p: Polynomial)
    ensures IsEcma182(p) <==> p == [true] + POLY64_ECMA
  {
    forall i: nat | i < 64
      ensures POLY64_ECMA[i] == InEcma182(63 - i)
    {
      BitOfConstant(i / 8, i % 8);
      TermsOfBytes(i / 8, i % 8);
    }
  }

  /** The checksum is the number whose complement is what the message leaves when divided by the polynomial of ECMA-182. */
  lemma ChecksumIsRemainder(data: ByteString, m: Polynomial, p: Polynomial, r: Word, turned: Word)
    requires IsMessage(data, m) && IsEcma182(p) && forall i :: 0 <= i < 64 ==> turned[i] == !r[i]
    ensures r == Checksum(data) <==> IsRemainder(p, m, turned)
  {
    PolynomialIsEcma182(p);
    var bits := BitsOf(data);
    forall k: nat | k < 8 * |data|
      ensures bits[k] == BitOfData(data, k)
    {
      BitOfByte(data, k);
    }
    assert m == Dividend(ALL_ONES, bits);
    DivideLeavesRemainder(p, ALL_ONES, bits);
    var left := Divide(ALL_ONES, bits);
    assert r == Checksum(data) <==> turned == left;
    if IsRemainder(p, m, turned) {
      var q :| IsQuotient(p, m, turned, q);
      var q' :| IsQuotient(p, m, left, q');
      RemainderIsUnique(p, m, turned, q, left, q');
    }
  }
}
