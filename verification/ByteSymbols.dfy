/** The byte-to-character table of byte-level BPE (src/targets/qwen3_8/tokenizer.cpp:348-358). */
module ByteSymbols {
  import opened Bytes
  import opened Utf8

  /** Bytes that stand for themselves. */
  predicate Printable(b: byte) {
    33 <= b <= 126 || 161 <= b <= 172 || 174 <= b
  }

  /** How many bytes below `b` do not. */
  function UnprintableBelow(b: nat): nat
    requires b <= 256
  {
    if b == 0 then 0 else UnprintableBelow(b - 1) + (if Printable((b - 1) as byte) then 0 else 1)
  }

  /** The code point that stands for a byte: itself, or the next free one from 256 up. */
  function SymbolCp(b: byte): (cp: nat)
    ensures cp < 324
  {
    if Printable(b) then b as nat else 256 + ClosedCount(b as nat)
  }

  /** `UnprintableBelow` in closed form. */
  function ClosedCount(b: nat): nat {
    if b <= 33 then b else if b <= 127 then 33 else if b <= 161 then b - 94 else if b <= 173 then 67 else 68
  }

  lemma {:induction false} CountIsClosed(b: nat)
    requires b <= 256
    ensures UnprintableBelow(b) == ClosedCount(b)
  {
    if b > 0 { CountIsClosed(b - 1); }
  }

  function Symbol(b: byte): ByteString { Encode(SymbolCp(b)) }

  function SymbolCps(bs: ByteString): (cps: CodePoints)
    ensures |cps| == |bs| && forall i :: 0 <= i < |bs| ==> cps[i] == SymbolCp(bs[i])
    ensures AllScalar(cps) && Encodable(cps)
  {
    if bs == [] then [] else [SymbolCp(bs[0])] + SymbolCps(bs[1..])
  }

  /** The symbols of a byte string, as UTF-8 text. */
  function Symbols(bs: ByteString): ByteString {
    EncodeAll(SymbolCps(bs))
  }

  /** Different bytes have different symbols. */
  lemma SymbolInjective(a: byte, b: byte)
    requires SymbolCp(a) == SymbolCp(b)
    ensures a == b
  {
  }

  lemma EncodeInjective(x: nat, y: nat)
    requires x < LIMIT && y < LIMIT && Encode(x) == Encode(y)
    ensures x == y
  {
    DecodeFirst(x, []);
    DecodeFirst(y, []);
    assert [x] + Decode([]) == [x] && [y] + Decode([]) == [y];
  }

  /** The two lookup tables the constructor fills: symbol of a byte, and byte of a symbol. */
  ghost predicate Tables(toSymbol: map<byte, ByteString>, toByte: map<ByteString, byte>) {
    && (forall b: byte :: b in toSymbol && toSymbol[b] == Symbol(b))
    && (forall b: byte :: Symbol(b) in toByte && toByte[Symbol(b)] == b)
    && (forall s :: s in toByte ==> s == Symbol(toByte[s]))
  }

  method InitByteEncoder() returns (toSymbol: map<byte, ByteString>, toByte: map<ByteString, byte>)
    ensures Tables(toSymbol, toByte)
  {
    toSymbol, toByte := map[], map[];
    var n := 0;
    for i := 0 to 256
      invariant n == UnprintableBelow(i)
      invariant forall b: byte :: b as int < i ==> b in toSymbol && toSymbol[b] == Symbol(b)
      invariant forall b: byte :: b as int < i ==> Symbol(b) in toByte && toByte[Symbol(b)] == b
      invariant forall s :: s in toByte ==> s == Symbol(toByte[s])
    {
      var b := i as byte;
      CountIsClosed(i);
      var cp: nat := if Printable(b) then i else 256 + n;
      if !Printable(b) { n := n + 1; }
      var s := Encode(cp);
      forall c: byte | Symbol(c) == s
        ensures c == b
      {
        EncodeInjective(SymbolCp(c), SymbolCp(b));
        SymbolInjective(c, b);
      }
      toSymbol := toSymbol[b := s];
      toByte := toByte[s := b];
    }
  }

  lemma SymbolsCons(b: byte, bs: ByteString)
    ensures Symbols([b] + bs) == Symbol(b) + Symbols(bs)
  {
    assert ([b] + bs)[1..] == bs;
    EncodeCons(SymbolCp(b), SymbolCps(bs));
  }

  lemma SymbolCpsAppend(a: ByteString, b: ByteString)
    ensures SymbolCps(a + b) == SymbolCps(a) + SymbolCps(b)
  {
  }

  lemma SymbolsAppend(a: ByteString, b: ByteString)
    ensures Symbols(a + b) == Symbols(a) + Symbols(b)
  {
    SymbolCpsAppend(a, b);
    EncodeAllAppend(SymbolCps(a), SymbolCps(b));
  }

  /** The symbols decode back to the code points that stand for the bytes. */
  lemma DecodeSymbols(bs: ByteString)
    ensures Decode(Symbols(bs)) == SymbolCps(bs)
  {
    DecodeEncodeAll(SymbolCps(bs), []);
    assert Symbols(bs) + [] == Symbols(bs);
    assert SymbolCps(bs) + Decode([]) == SymbolCps(bs);
  }

  lemma SymbolsInjective(a: ByteString, b: ByteString)
    requires Symbols(a) == Symbols(b)
    ensures a == b
  {
    DecodeSymbols(a);
    DecodeSymbols(b);
    forall i | 0 <= i < |a|
      ensures a[i] == b[i]
    {
      SymbolInjective(a[i], b[i]);
    }
  }

  ghost predicate Ascii33To126(s: ByteString) {
    forall i :: 0 <= i < |s| ==> 33 <= s[i] <= 126
  }

  /** Printable ASCII text is its own symbols. */
  lemma {:induction false} PrintableIsItself(s: ByteString)
    requires Ascii33To126(s)
    ensures Symbols(s) == s
  {
    if s != [] {
      PrintableIsItself(s[1..]);
      SymbolsCons(s[0], s[1..]);
      assert [s[0]] + s[1..] == s;
      assert Symbol(s[0]) == [s[0]];
    }
  }

  // ---------------------------------------------------------------- back to bytes

  /** What `decode_token` makes of one code point: the byte it stands for, or its own encoding. */
  function Unmap(toByte: map<ByteString, byte>, cp: nat): ByteString
    requires cp < LIMIT
  {
    var s := Encode(cp);
    if s in toByte then [toByte[s]] else s
  }

  function UnmapAll(toByte: map<ByteString, byte>, cps: CodePoints): ByteString
    requires Encodable(cps)
  {
    if cps == [] then [] else Unmap(toByte, cps[0]) + UnmapAll(toByte, cps[1..])
  }

  lemma {:induction false} UnmapSymbols(toSymbol: map<byte, ByteString>, toByte: map<ByteString, byte>, bs: ByteString)
    requires Tables(toSymbol, toByte)
    ensures UnmapAll(toByte, SymbolCps(bs)) == bs
  {
    if bs != [] {
      UnmapSymbols(toSymbol, toByte, bs[1..]);
      assert SymbolCps(bs)[1..] == SymbolCps(bs[1..]);
      assert Symbol(bs[0]) in toByte;
    }
  }

  /** Code points that come back as their own encoding: ASCII, and whatever stands for no byte. */
  predicate Transparent(cp: nat) { cp < 161 || cp == 173 || cp >= 324 }

  lemma UnmapLength(toSymbol: map<byte, ByteString>, toByte: map<ByteString, byte>, cp: nat)
    requires Tables(toSymbol, toByte) && cp < LIMIT
    ensures Transparent(cp) ==> Unmap(toByte, cp) == Encode(cp)
    ensures !Transparent(cp) ==> |Unmap(toByte, cp)| < |Encode(cp)|
  {
    if Encode(cp) in toByte {
      EncodeInjective(cp, SymbolCp(toByte[Encode(cp)]));
    }
    if !Transparent(cp) {
      var b := if cp < 256 then cp else if cp < 289 then cp - 256 else if cp < 323 then cp - 162 else 173;
      assert SymbolCp(b as byte) == cp;
      assert Symbol(b as byte) in toByte;
    }
  }

  lemma {:induction false} UnmapAllLength(toSymbol: map<byte, ByteString>, toByte: map<ByteString, byte>, cps: CodePoints)
    requires Tables(toSymbol, toByte) && Encodable(cps)
    ensures |UnmapAll(toByte, cps)| <= |EncodeAll(cps)|
    ensures (forall i :: 0 <= i < |cps| ==> Transparent(cps[i])) ==> UnmapAll(toByte, cps) == EncodeAll(cps)
    ensures !(forall i :: 0 <= i < |cps| ==> Transparent(cps[i])) ==> |UnmapAll(toByte, cps)| < |EncodeAll(cps)|
  {
    if cps != [] {
      UnmapLength(toSymbol, toByte, cps[0]);
      UnmapAllLength(toSymbol, toByte, cps[1..]);
      assert forall i :: 0 < i < |cps| ==> cps[i] == cps[1..][i - 1];
    }
  }

  /** A token's text decodes to itself exactly when every code point of it is transparent. */
  lemma DecodesToItselfIff(toSymbol: map<byte, ByteString>, toByte: map<ByteString, byte>, content: ByteString)
    requires Tables(toSymbol, toByte) && WellFormed(content)
    ensures Encodable(Decode(content))
    ensures UnmapAll(toByte, Decode(content)) == content <==>
      forall i :: 0 <= i < |Decode(content)| ==> Transparent(Decode(content)[i])
  {
    DecodeWellFormed(content);
    UnmapAllLength(toSymbol, toByte, Decode(content));
  }
}
