/**
  The tokenizer's UTF-8 codecs (src/targets/qwen3_8/tokenizer.cpp:14-68) and what they do on text that is well formed
  in the sense of section 4 of RFC 3629. Shifts and masks are written as the multiplications and remainders they are.
 */
module Utf8 {
  import opened Bytes

  type CodePoints = seq<nat>

  /** Below 2^21, where four bytes suffice; every code point the decoder produces is. */
  const LIMIT := 0x20_0000

  // ---------------------------------------------------------------- the encoder

  /** `codepoint_to_utf8`. */
  function Encode(cp: nat): (r: ByteString)
    requires cp < LIMIT
    ensures 1 <= |r| <= 4
  {
    if cp < 0x80 then [cp as byte]
    else if cp < 0x800 then [(0xC0 + cp / 64) as byte, (0x80 + cp % 64) as byte]
    else if cp < 0x1_0000 then
      [(0xE0 + cp / 4096) as byte, (0x80 + cp / 64 % 64) as byte, (0x80 + cp % 64) as byte]
    else
      [(0xF0 + cp / 262144) as byte, (0x80 + cp / 4096 % 64) as byte, (0x80 + cp / 64 % 64) as byte,
       (0x80 + cp % 64) as byte]
  }

  ghost predicate Encodable(cps: CodePoints) {
    forall i :: 0 <= i < |cps| ==> cps[i] < LIMIT
  }

  function EncodeAll(cps: CodePoints): ByteString
    requires Encodable(cps)
  {
    if cps == [] then [] else Encode(cps[0]) + EncodeAll(cps[1..])
  }

  // ---------------------------------------------------------------- the decoder

  /** The length a lead byte announces, or 0 for a byte that cannot lead. */
  function LeadLength(c: byte): (n: nat)
    ensures n <= 4
  {
    if c < 0x80 then 1
    else if 0xC0 <= c < 0xE0 then 2
    else if 0xE0 <= c < 0xF0 then 3
    else if 0xF0 <= c < 0xF8 then 4
    else 0
  }

  /** The payload bits of a lead byte. */
  function LeadBits(c: byte): (n: nat)
    requires LeadLength(c) > 0
  {
    if c < 0x80 then c as nat else if c < 0xE0 then c as nat - 0xC0 else if c < 0xF0 then c as nat - 0xE0 else c as nat - 0xF0
  }

  /** `acc` followed by the low six bits of each byte. */
  function Accumulate(acc: nat, tail: ByteString): nat
    decreases |tail|
  {
    if tail == [] then acc else Accumulate(acc * 64 + tail[0] as nat % 64, tail[1..])
  }

  /** What `utf8_to_codepoints` returns: bad lead bytes are skipped, a truncated last character is dropped. */
  function Decode(s: ByteString): CodePoints
    decreases |s|
  {
    if s == [] then []
    else
      var n := LeadLength(s[0]);
      if n == 0 then Decode(s[1..])
      else if n > |s| then []
      else [Accumulate(LeadBits(s[0]), s[1..n])] + Decode(s[n..])
  }

  /** The inner loop: shift in the continuation bytes of one character. */
  method ShiftInTail(lead: nat, tail: ByteString) returns (cp: nat)
    ensures cp == Accumulate(lead, tail)
  {
    cp := lead;
    assert tail[0..] == tail;
    for j := 0 to |tail|
      invariant Accumulate(cp, tail[j..]) == Accumulate(lead, tail)
    {
      assert tail[j..][1..] == tail[j + 1..];
      cp := cp * 64 + tail[j] as nat % 64;
    }
  }

  /** One character consumed from position `i`. */
  lemma DecodeAt(str: ByteString, i: nat)
    requires i < |str|
    ensures var n := LeadLength(str[i]);
      Decode(str[i..]) ==
        if n == 0 then Decode(str[i + 1..])
        else if i + n > |str| then []
        else [Accumulate(LeadBits(str[i]), str[i + 1..i + n])] + Decode(str[i + n..])
  {
    var n := LeadLength(str[i]);
    assert str[i..][1..] == str[i + 1..];
    if 0 < n && i + n <= |str| {
      assert str[i..][1..n] == str[i + 1..i + n] && str[i..][n..] == str[i + n..];
    }
  }

  /** The loop body: how far to move on (0 to stop), and the character if there is one. */
  method NextCharacter(str: ByteString, i: nat) returns (n: nat, cp: Option<nat>)
    requires i < |str|
    ensures i + n <= |str| && (cp.Some? ==> n > 0)
    ensures Decode(str[i..]) ==
      if n == 0 then [] else (if cp.Some? then [cp.value] else []) + Decode(str[i + n..])
  {
    DecodeAt(str, i);
    n := LeadLength(str[i]);
    if n == 0 { return 1, None; }
    if i + n > |str| { return 0, None; }
    var c := ShiftInTail(LeadBits(str[i]), str[i + 1..i + n]);
    return n, Some(c);
  }

  method Utf8ToCodepoints(str: ByteString) returns (cps: CodePoints)
    ensures cps == Decode(str)
  {
    cps := [];
    var i := 0;
    ghost var all := Decode(str);
    ghost var rest := all;
    assert str[0..] == str;
    while i < |str|
      invariant 0 <= i <= |str|
      invariant rest == Decode(str[i..]) && all == cps + rest
      decreases |str| - i
    {
      var n, cp := NextCharacter(str, i);
      if n == 0 {
        assert rest == [];
        return;
      }
      var piece := if cp.Some? then [cp.value] else [];
      rest := Decode(str[i + n..]);
      Assoc(cps, piece, rest);
      cps, i := cps + piece, i + n;
    }
    assert rest == [];
  }

  // ---------------------------------------------------------------- decode undoes encode

  lemma AccumulateOne(acc: nat, b: byte)
    ensures Accumulate(acc, [b]) == acc * 64 + b as nat % 64
  {
    assert [b][1..] == [];
  }

  lemma AccumulateTwo(acc: nat, b: byte, c: byte)
    ensures Accumulate(acc, [b, c]) == (acc * 64 + b as nat % 64) * 64 + c as nat % 64
  {
    assert [b, c][1..] == [c];
    AccumulateOne(acc * 64 + b as nat % 64, c);
  }

  lemma AccumulateThree(acc: nat, b: byte, c: byte, d: byte)
    ensures Accumulate(acc, [b, c, d]) == ((acc * 64 + b as nat % 64) * 64 + c as nat % 64) * 64 + d as nat % 64
  {
    assert [b, c, d][1..] == [c, d];
    AccumulateTwo(acc * 64 + b as nat % 64, c, d);
  }

  /** The six-bit digits of a code point. */
  lemma Digits(cp: nat)
    ensures cp == cp / 64 * 64 + cp % 64
    ensures cp / 64 == cp / 4096 * 64 + cp / 64 % 64
    ensures cp / 4096 == cp / 262144 * 64 + cp / 4096 % 64
  {
    assert cp / 64 / 64 == cp / 4096;
    assert cp / 4096 / 64 == cp / 262144;
  }

  lemma EncodedFour(cp: nat)
    requires 0x1_0000 <= cp < LIMIT
    ensures var e := Encode(cp);
      LeadLength(e[0]) == 4 && LeadBits(e[0]) == cp / 262144
      && e[1] as nat % 64 == cp / 4096 % 64 && e[2] as nat % 64 == cp / 64 % 64 && e[3] as nat % 64 == cp % 64
  {
  }

  lemma EncodedThree(cp: nat)
    requires 0x800 <= cp < 0x1_0000
    ensures var e := Encode(cp);
      LeadLength(e[0]) == 3 && LeadBits(e[0]) == cp / 4096
      && e[1] as nat % 64 == cp / 64 % 64 && e[2] as nat % 64 == cp % 64
  {
  }

  lemma EncodedLead(cp: nat)
    requires cp < LIMIT
    ensures LeadLength(Encode(cp)[0]) == |Encode(cp)|
    ensures Accumulate(LeadBits(Encode(cp)[0]), Encode(cp)[1..]) == cp
  {
    var e := Encode(cp);
    if |e| == 1 {
      assert e[1..] == [];
    } else if |e| == 2 {
      assert e[1..] == [e[1]];
      AccumulateOne(LeadBits(e[0]), e[1]);
    } else if |e| == 3 {
      EncodedThree(cp);
      Digits(cp);
      assert e[1..] == [e[1], e[2]];
      AccumulateTwo(LeadBits(e[0]), e[1], e[2]);
    } else {
      EncodedFour(cp);
      Digits(cp);
      assert e[1..] == [e[1], e[2], e[3]];
      AccumulateThree(LeadBits(e[0]), e[1], e[2], e[3]);
    }
  }

  lemma DecodeFirst(cp: nat, rest: ByteString)
    requires cp < LIMIT
    ensures Decode(Encode(cp) + rest) == [cp] + Decode(rest)
  {
    var e := Encode(cp);
    var s := e + rest;
    EncodedLead(cp);
    assert s[0] == e[0] && s[1..|e|] == e[1..] && s[|e|..] == rest;
  }

  lemma EncodeUncons(cps: CodePoints, rest: ByteString, first: ByteString, tail: ByteString)
    requires Encodable(cps) && cps != [] && first == Encode(cps[0]) && tail == EncodeAll(cps[1..])
    ensures EncodeAll(cps) + rest == first + (tail + rest)
  {
    assert EncodeAll(cps) == first + tail;
  }

  lemma ConsThen(cps: CodePoints, more: CodePoints)
    requires cps != []
    ensures [cps[0]] + (cps[1..] + more) == cps + more
  {
  }

  /** Decoding the encoding of any code points, followed by anything, gives them back. */
  lemma {:induction false} DecodeEncodeAll(cps: CodePoints, rest: ByteString)
    requires Encodable(cps)
    ensures Decode(EncodeAll(cps) + rest) == cps + Decode(rest)
  {
    if cps == [] {
      assert EncodeAll(cps) + rest == rest;
    } else {
      var first, tail := Encode(cps[0]), EncodeAll(cps[1..]);
      EncodeUncons(cps, rest, first, tail);
      DecodeFirst(cps[0], tail + rest);
      DecodeEncodeAll(cps[1..], rest);
      ConsThen(cps, Decode(rest));
    }
  }

  lemma {:induction false} EncodeAllAppend(a: CodePoints, b: CodePoints)
    requires Encodable(a) && Encodable(b)
    ensures Encodable(a + b) && EncodeAll(a + b) == EncodeAll(a) + EncodeAll(b)
  {
    if a == [] {
      assert a + b == b;
    } else {
      assert (a + b)[1..] == a[1..] + b;
      EncodeAllAppend(a[1..], b);
      Assoc(Encode(a[0]), EncodeAll(a[1..]), EncodeAll(b));
      EncodeCons(a[0], a[1..] + b);
      assert [a[0]] + (a[1..] + b) == a + b;
    }
  }

  // ---------------------------------------------------------------- well-formed text

  predicate Tail(b: byte) { 0x80 <= b <= 0xBF }

  /** The length of the character at the head of `s` by the grammar of RFC 3629, or 0 if there is none. */
  function CharLength(s: ByteString): (n: nat)
    ensures n <= |s| && n <= 4
  {
    if |s| >= 1 && s[0] <= 0x7F then 1
    else if |s| >= 2 && 0xC2 <= s[0] <= 0xDF && Tail(s[1]) then 2
    else if |s| >= 3 && Tail(s[1]) && Tail(s[2])
         && (   (s[0] == 0xE0 && 0xA0 <= s[1])
             || (0xE1 <= s[0] <= 0xEC)
             || (s[0] == 0xED && s[1] <= 0x9F)
             || (0xEE <= s[0] <= 0xEF)) then 3
    else if |s| >= 4 && Tail(s[1]) && Tail(s[2]) && Tail(s[3])
         && (   (s[0] == 0xF0 && 0x90 <= s[1])
             || (0xF1 <= s[0] <= 0xF3)
             || (s[0] == 0xF4 && s[1] <= 0x8F)) then 4
    else 0
  }

  predicate WellFormed(s: ByteString)
    decreases |s|
  {
    s == [] || (CharLength(s) > 0 && WellFormed(s[CharLength(s)..]))
  }

  predicate Scalar(cp: nat) { cp < 0xD800 || 0xE000 <= cp < 0x11_0000 }

  ghost predicate AllScalar(cps: CodePoints) {
    forall i :: 0 <= i < |cps| ==> Scalar(cps[i])
  }

  lemma ScalarLength(cp: nat)
    requires Scalar(cp)
    ensures CharLength(Encode(cp)) == |Encode(cp)|
  {
    if |Encode(cp)| == 2 {
      assert 0xC2 <= Encode(cp)[0] <= 0xDF;
    }
  }

  lemma ScalarEncodes(cp: nat, rest: ByteString)
    requires Scalar(cp)
    ensures CharLength(Encode(cp) + rest) == |Encode(cp)|
  {
    ScalarLength(cp);
    CharLengthPrefix(Encode(cp), rest);
  }

  /** One well-formed character is the encoding of one scalar value. */
  lemma CharIsScalar(s: ByteString)
    requires CharLength(s) > 0
    ensures var n := CharLength(s);
      var cp := Accumulate(LeadBits(s[0]), s[1..n]);
      LeadLength(s[0]) == n && Scalar(cp) && Encode(cp) == s[..n]
  {
    var n := CharLength(s);
    if n == 1 {
      assert s[1..1] == [];
    } else if n == 2 {
      CharOfTwo(s[0], s[1]);
      assert s[1..2] == [s[1]] && s[..2] == [s[0], s[1]];
    } else if n == 3 {
      CharOfThree(s[0], s[1], s[2]);
      assert s[1..3] == [s[1], s[2]] && s[..3] == [s[0], s[1], s[2]];
    } else {
      CharOfFour(s[0], s[1], s[2], s[3]);
      assert s[1..4] == [s[1], s[2], s[3]] && s[..4] == [s[0], s[1], s[2], s[3]];
    }
  }

  lemma CharOfTwo(a: byte, b: byte)
    requires CharLength([a, b]) == 2
    ensures var cp := Accumulate(LeadBits(a), [b]);
      LeadLength(a) == 2 && Scalar(cp) && Encode(cp) == [a, b]
  {
    AccumulateOne(LeadBits(a), b);
  }

  lemma CharOfThree(a: byte, b: byte, c: byte)
    requires CharLength([a, b, c]) == 3
    ensures var cp := Accumulate(LeadBits(a), [b, c]);
      LeadLength(a) == 3 && Scalar(cp) && Encode(cp) == [a, b, c]
  {
    AccumulateTwo(LeadBits(a), b, c);
    FromDigits(LeadBits(a), b as nat % 64, c as nat % 64);
  }

  lemma FromDigits(x: nat, y: nat, z: nat)
    requires y < 64 && z < 64
    ensures var cp := (x * 64 + y) * 64 + z;
      cp % 64 == z && cp / 64 == x * 64 + y && cp / 64 % 64 == y && cp / 4096 == x
  {
    var cp := (x * 64 + y) * 64 + z;
    assert cp / 64 == x * 64 + y;
    assert cp / 4096 == cp / 64 / 64;
  }

  lemma CharOfFour(a: byte, b: byte, c: byte, d: byte)
    requires CharLength([a, b, c, d]) == 4
    ensures var cp := Accumulate(LeadBits(a), [b, c, d]);
      LeadLength(a) == 4 && Scalar(cp) && Encode(cp) == [a, b, c, d]
  {
    AccumulateThree(LeadBits(a), b, c, d);
    FourFromDigits(LeadBits(a), b as nat % 64, c as nat % 64, d as nat % 64);
    var cp := Accumulate(LeadBits(a), [b, c, d]);
    assert 0x1_0000 <= cp < 0x11_0000;
    var e := Encode(cp);
    assert e[0] == a && e[1] == b && e[2] == c && e[3] == d;
  }

  lemma FourFromDigits(w: nat, x: nat, y: nat, z: nat)
    requires x < 64 && y < 64 && z < 64
    ensures var cp := ((w * 64 + x) * 64 + y) * 64 + z;
      cp % 64 == z && cp / 64 % 64 == y && cp / 4096 % 64 == x && cp / 262144 == w
  {
    var p := w * 64 + x;
    FromDigits(p, y, z);
    var cp := (p * 64 + y) * 64 + z;
    assert cp / 262144 == cp / 4096 / 64;
  }

  lemma {:induction false} DecodeWellFormed(s: ByteString)
    requires WellFormed(s)
    ensures AllScalar(Decode(s)) && Encodable(Decode(s)) && EncodeAll(Decode(s)) == s
    decreases |s|
  {
    if s != [] {
      var n := CharLength(s);
      CharIsScalar(s);
      var cp := Accumulate(LeadBits(s[0]), s[1..n]);
      var rest := Decode(s[n..]);
      assert Decode(s) == [cp] + rest;
      DecodeWellFormed(s[n..]);
      EncodeCons(cp, rest);
      assert s == s[..n] + s[n..];
    }
  }

  lemma EncodeCons(cp: nat, rest: CodePoints)
    requires cp < LIMIT && Encodable(rest)
    ensures Encodable([cp] + rest) && EncodeAll([cp] + rest) == Encode(cp) + EncodeAll(rest)
  {
    assert ([cp] + rest)[1..] == rest;
  }

  lemma {:induction false} EncodedIsWellFormed(cps: CodePoints)
    requires AllScalar(cps) && Encodable(cps)
    ensures WellFormed(EncodeAll(cps))
  {
    if cps != [] {
      var tail := EncodeAll(cps[1..]);
      ScalarEncodes(cps[0], tail);
      EncodedIsWellFormed(cps[1..]);
      assert (Encode(cps[0]) + tail)[|Encode(cps[0])|..] == tail;
    }
  }

  /** The decoder loses nothing exactly on well-formed text: scalar values that encode back to the same bytes. */
  lemma WellFormedIffRoundTrips(s: ByteString)
    ensures WellFormed(s) <==> AllScalar(Decode(s)) && Encodable(Decode(s)) && EncodeAll(Decode(s)) == s
  {
    if WellFormed(s) { DecodeWellFormed(s); }
    if AllScalar(Decode(s)) && Encodable(Decode(s)) && EncodeAll(Decode(s)) == s { EncodedIsWellFormed(Decode(s)); }
  }

  // ---------------------------------------------------------------- cutting text at a match

  lemma CharLengthPrefix(a: ByteString, b: ByteString)
    ensures 0 < CharLength(a) ==> CharLength(a + b) == CharLength(a)
    ensures 0 < CharLength(a + b) <= |a| ==> CharLength(a) == CharLength(a + b)
  {
    assert forall i :: 0 <= i < |a| ==> (a + b)[i] == a[i];
  }

  lemma {:induction false} StripPrefix(b: ByteString, c: ByteString)
    requires WellFormed(b)
    ensures WellFormed(b + c) <==> WellFormed(c)
    decreases |b|
  {
    if b == [] {
      assert b + c == c;
    } else {
      var n := CharLength(b);
      CharLengthPrefix(b, c);
      assert (b + c)[n..] == b[n..] + c;
      StripPrefix(b[n..], c);
    }
  }

  /** A character's continuation bytes do not lead characters. */
  lemma InsideCharacter(s: ByteString, i: nat)
    requires 0 < i < CharLength(s)
    ensures Tail(s[i])
  {
  }

  /** Well-formed text cut around a non-empty well-formed piece falls into well-formed parts. */
  lemma {:induction false} CutAround(a: ByteString, b: ByteString, c: ByteString)
    requires WellFormed(a + b + c) && WellFormed(b) && b != []
    ensures WellFormed(a) && WellFormed(c)
    decreases |a|
  {
    if a == [] {
      assert a + b + c == b + c;
      StripPrefix(b, c);
    } else {
      var s := a + b + c;
      var n := CharLength(s);
      assert s == a + (b + c);
      CharLengthPrefix(a, b + c);
      assert s[|a|] == b[0] && !Tail(b[0]);
      if |a| < n {
        InsideCharacter(s, |a|);
      }
      assert s[n..] == a[n..] + b + c;
      CutAround(a[n..], b, c);
    }
  }

  // ---------------------------------------------------------------- byte by byte

  /** An encoding is as long as its code point needs, and its bytes carry its six-bit digits after a lead that counts them. */
  lemma EncodedBytes(cp: nat, e: ByteString)
    requires cp < LIMIT && e == Encode(cp)
    ensures |e| == if cp <= 0x7F then 1 else if cp <= 0x7FF then 2 else if cp <= 0xFFFF then 3 else 4
    ensures forall i :: 0 < i < |e| ==> 0x80 <= e[i] <= 0xBF
    ensures |e| == 1 ==> cp == e[0] as nat
    ensures |e| == 2 ==> cp == (e[0] as int - 0xC0) * 64 + (e[1] as int - 0x80)
    ensures |e| == 3 ==> cp == (e[0] as int - 0xE0) * 4096 + (e[1] as int - 0x80) * 64 + (e[2] as int - 0x80)
    ensures |e| == 4 ==>
      cp == (e[0] as int - 0xF0) * 262144 + (e[1] as int - 0x80) * 4096 + (e[2] as int - 0x80) * 64 + (e[3] as int - 0x80)
  {
    Digits(cp);
  }

  /** Decoding, by the first byte, for any bytes: of the following ones it takes the low six bits, whatever else they are. */
  lemma DecodesTo(a: byte, b: byte, c: byte, d: byte, rest: ByteString)
    ensures a < 0x80 ==> Decode([a] + rest) == [a as nat] + Decode(rest)
    ensures 0x80 <= a < 0xC0 || a >= 0xF8 ==> Decode([a] + rest) == Decode(rest)
    ensures 0xC0 <= a < 0xE0 ==> Decode([a, b] + rest) == [(a as nat - 0xC0) * 64 + b as nat % 64] + Decode(rest)
    ensures 0xE0 <= a < 0xF0 ==>
      Decode([a, b, c] + rest) == [(a as nat - 0xE0) * 4096 + b as nat % 64 * 64 + c as nat % 64] + Decode(rest)
    ensures 0xF0 <= a < 0xF8 ==>
      Decode([a, b, c, d] + rest)
      == [(a as nat - 0xF0) * 262144 + b as nat % 64 * 4096 + c as nat % 64 * 64 + d as nat % 64] + Decode(rest)
  {
    DecodesOne(a, [], rest);
    if 0xC0 <= a < 0xE0 {
      DecodesOne(a, [b], rest);
      AccumulateOne(LeadBits(a), b);
    } else if 0xE0 <= a < 0xF0 {
      DecodesOne(a, [b, c], rest);
      AccumulateTwo(LeadBits(a), b, c);
    } else if 0xF0 <= a < 0xF8 {
      DecodesOne(a, [b, c, d], rest);
      AccumulateThree(LeadBits(a), b, c, d);
    }
  }

  lemma DecodesOne(a: byte, tail: ByteString, rest: ByteString)
    ensures LeadLength(a) == 0 ==> Decode([a] + rest) == Decode(rest)
    ensures LeadLength(a) == |tail| + 1 ==>
      Decode([a] + tail + rest) == [Accumulate(LeadBits(a), tail)] + Decode(rest)
  {
    assert ([a] + rest)[1..] == rest;
    var s := [a] + tail + rest;
    assert s[1..|tail| + 1] == tail && s[|tail| + 1..] == rest;
  }

  /** A character that the text ends in the middle of is dropped. */
  lemma TruncatedIsDropped(a: byte, tail: ByteString)
    requires (0xC0 <= a < 0xE0 && |tail| < 1) || (0xE0 <= a < 0xF0 && |tail| < 2) || (0xF0 <= a < 0xF8 && |tail| < 3)
    ensures Decode([a] + tail) == []
  {
  }
}
