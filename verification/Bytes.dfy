/** Bytes and byte strings, and the little-endian integers of the packed structs in the container format. */
module Bytes {
  import opened Arithmetic

  newtype byte = x: int | 0 <= x < 256

  type ByteString = seq<byte>

  /** What `std::optional` and the parsers' success flags stand for. */
  datatype Option<+T> = None | Some(value: T)

  /** The bytes of an ASCII literal. */
  function Ascii(s: string): (r: ByteString)
    requires forall i :: 0 <= i < |s| ==> s[i] as int < 128
    ensures |r| == |s| && forall i :: 0 <= i < |s| ==> r[i] as int == s[i] as int
  {
    seq(|s|, i requires 0 <= i < |s| => s[i] as int as byte)
  }

  predicate Starts(s: ByteString, b: byte) { s != [] && s[0] == b }

  function Zeros(n: nat): (r: ByteString)
    ensures |r| == n && forall i :: 0 <= i < n ==> r[i] == 0
  {
    seq(n, _ => 0)
  }

  function Pow256(n: nat): (p: nat)
    ensures p > 0
  {
    if n == 0 then 1 else 256 * Pow256(n - 1)
  }

  /** `x` as an unsigned little-endian integer of `n` bytes; higher bits are dropped, as a cast does. */
  function LittleEndian(x: nat, n: nat): (r: ByteString)
    ensures |r| == n
    decreases n
  {
    if n == 0 then [] else [(x % 256) as byte] + LittleEndian(x / 256, n - 1)
  }

  function FromLittleEndian(b: ByteString): nat {
    if b == [] then 0 else b[0] as nat + 256 * FromLittleEndian(b[1..])
  }

  lemma {:induction false} LittleEndianRoundTrip(x: nat, n: nat)
    requires x < Pow256(n)
    ensures FromLittleEndian(LittleEndian(x, n)) == x
    decreases n
  {
    if n > 0 {
      assert LittleEndian(x, n)[1..] == LittleEndian(x / 256, n - 1);
      LittleEndianRoundTrip(x / 256, n - 1);
    }
  }

  /** Where its bytes are: byte `i` weighs 256 to the `i`. */
  lemma {:induction false} LittleEndianAt(x: nat, n: nat, i: nat)
    requires i < n
    ensures LittleEndian(x, n)[i] as nat == x / Pow256(i) % 256
    decreases n
  {
    if i > 0 {
      LittleEndianAt(x / 256, n - 1, i - 1);
      QuotientOfQuotient(x, Pow256(i - 1));
    }
  }

  lemma QuotientOfQuotient(x: nat, p: nat)
    requires p > 0
    ensures x / 256 / p == x / (256 * p)
  {
    var q, r := x / 256 / p, x / 256 % p;
    assert x == 256 * (q * p + r) + x % 256;
    DivMod(q, 256 * r + x % 256, 256 * p);
  }

  /** An unsigned little-endian integer of `n` bytes is in place: byte `i` is its digit to the base 256. */
  ghost predicate IsField(s: ByteString, at: nat, n: nat, x: nat) {
    at + n <= |s| && x < Pow256(n) && forall i: nat :: i < n ==> IsDigitAt(s, at, x, i)
  }

  ghost predicate IsDigitAt(s: ByteString, at: nat, x: nat, i: nat) {
    at + i < |s| && s[at + i] as nat == x / Pow256(i) % 256
  }

  lemma FieldIs(s: ByteString, at: nat, n: nat, x: nat)
    requires at + n <= |s| && x < Pow256(n)
    ensures IsField(s, at, n, x) <==> s[at..at + n] == LittleEndian(x, n)
  {
    forall i: nat | i < n
      ensures LittleEndian(x, n)[i] as nat == x / Pow256(i) % 256
    {
      LittleEndianAt(x, n, i);
    }
    if IsField(s, at, n, x) {
      forall i: nat | i < n
        ensures s[at..at + n][i] == LittleEndian(x, n)[i]
      {
        assert IsDigitAt(s, at, x, i);
      }
      assert s[at..at + n] == LittleEndian(x, n);
    }
  }

  lemma SameField(s: ByteString, at: nat, t: ByteString, to: nat, n: nat, x: nat)
    requires at + n <= |s| && to + n <= |t| && s[at..at + n] == t[to..to + n]
    ensures IsField(s, at, n, x) <==> IsField(t, to, n, x)
  {
    if x < Pow256(n) {
      FieldIs(s, at, n, x);
      FieldIs(t, to, n, x);
    }
  }

  /** Reading gives the number whose bytes are there. */
  lemma FieldIsRead(s: ByteString, at: nat, n: nat, x: nat)
    requires at + n <= |s|
    ensures FromLittleEndian(s[at..at + n]) == x <==> IsField(s, at, n, x)
  {
    var b := s[at..at + n];
    BytesOfRead(b);
    if x < Pow256(n) {
      FieldIs(s, at, n, x);
      LittleEndianRoundTrip(x, n);
    }
  }

  lemma {:induction false} BytesOfRead(b: ByteString)
    ensures FromLittleEndian(b) < Pow256(|b|) && LittleEndian(FromLittleEndian(b), |b|) == b
  {
    if b != [] { BytesOfRead(b[1..]); }
  }

  lemma Widths()
    ensures Pow256(4) == 0x1_0000_0000
    ensures Pow256(8) == 0x1_0000_0000_0000_0000
  {
    assert Pow256(2) == 65536;
    assert Pow256(4) == 256 * (256 * Pow256(2));
    assert Pow256(6) == 256 * (256 * Pow256(4));
    assert Pow256(8) == 256 * (256 * Pow256(6));
  }

  lemma Assoc<T>(a: seq<T>, b: seq<T>, c: seq<T>)
    ensures a + (b + c) == a + b + c
  {
  }

  /** The parts one after the other. */
  function Concat<T>(parts: seq<seq<T>>): seq<T> {
    if parts == [] then [] else parts[0] + Concat(parts[1..])
  }

  lemma {:induction false} ConcatAppend<T>(a: seq<seq<T>>, b: seq<seq<T>>)
    ensures Concat(a + b) == Concat(a) + Concat(b)
  {
    if a == [] {
      assert a + b == b;
    } else {
      assert (a + b)[1..] == a[1..] + b;
      ConcatAppend(a[1..], b);
    }
  }

  lemma ConcatSnoc<T>(parts: seq<seq<T>>, p: seq<T>)
    ensures Concat(parts + [p]) == Concat(parts) + p
  {
    ConcatAppend(parts, [p]);
    assert Concat([p]) == p + Concat([]);
  }

  lemma {:induction false} ConcatLength<T>(parts: seq<seq<T>>, n: nat)
    requires forall i :: 0 <= i < |parts| ==> |parts[i]| == n
    ensures |Concat(parts)| == |parts| * n
  {
    if parts != [] { ConcatLength(parts[1..], n); }
  }

  /** Where a part is, among parts of one length. */
  lemma ConcatPart<T>(parts: seq<seq<T>>, n: nat, i: nat)
    requires i < |parts| && forall j :: 0 <= j < |parts| ==> |parts[j]| == n
    ensures 0 <= i * n && i * n + n <= |Concat(parts)| && Concat(parts)[i * n..i * n + n] == parts[i]
  {
    ConcatLength(parts[..i], n);
    assert parts == parts[..i] + [parts[i]] + parts[i + 1..];
    ConcatAppend(parts[..i] + [parts[i]], parts[i + 1..]);
    ConcatSnoc(parts[..i], parts[i]);
    Middle(Concat(parts[..i]), parts[i], Concat(parts[i + 1..]));
  }

  lemma Middle<T>(a: seq<T>, b: seq<T>, c: seq<T>)
    ensures (a + b + c)[|a|..|a| + |b|] == b
  {
  }

  /** A sequence made of these parts is their concatenation. */
  lemma {:induction false} ConcatIs<T>(parts: seq<seq<T>>, n: nat, s: seq<T>)
    requires |s| == |parts| * n && forall i :: 0 <= i < |parts| ==> |parts[i]| == n
    requires forall i: nat :: i < |parts| ==> PartAt(s, n, i, parts[i])
    ensures s == Concat(parts)
  {
    if parts != [] {
      assert PartAt(s, n, 0, parts[0]);
      assert |s| == n + (|parts| - 1) * n;
      forall i: nat | i < |parts[1..]|
        ensures PartAt(s[n..], n, i, parts[1..][i])
      {
        assert PartAt(s, n, i + 1, parts[i + 1]);
        assert (i + 1) * n == i * n + n;
      }
      ConcatIs(parts[1..], n, s[n..]);
      assert s == s[..n] + s[n..];
    }
  }

  ghost predicate PartAt<T>(s: seq<T>, n: nat, i: nat, part: seq<T>) {
    0 <= i * n && i * n + n <= |s| && s[i * n..i * n + n] == part
  }
}
