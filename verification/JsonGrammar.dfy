/**
  The texts that the parsers of JSON accept (src/serve/protocol.cpp:60-338, src/artifact/metadata.cpp:107-186), as a grammar:
  which ways of writing a value there are, with nothing said of how to find one. It is lenient if a backslash may stand before
  any byte, as in the server's reader, and strict if only the escapes of RFC 8259 are allowed, as in the metadata's.
 */
module JsonGrammar {
  import opened Bytes
  import opened JsonString
  import opened Json
  import Utf8

  // ---------------------------------------------------------------- strings

  ghost predicate IsHexOf(b: byte, n: nat) {
    || (48 <= b <= 57 && n == b as nat - 48)
    || (65 <= b <= 70 && n == b as nat - 65 + 10) || (97 <= b <= 102 && n == b as nat - 97 + 10)
  }

  /** A 16-bit number in hexadecimal at the head of `s`. */
  ghost predicate IsHex4(s: ByteString, n: nat) {
    exists a: nat, b: nat, c: nat, d: nat :: HexDigits(s, a, b, c, d) && n == 4096 * a + 256 * b + 16 * c + d
  }

  ghost predicate HexDigits(s: ByteString, a: nat, b: nat, c: nat, d: nat) {
    |s| >= 4 && IsHexOf(s[0], a) && IsHexOf(s[1], b) && IsHexOf(s[2], c) && IsHexOf(s[3], d)
  }

  lemma Hex4Iff(s: ByteString, n: nat)
    ensures IsHex4(s, n) <==> Hex4(s) == Some(n)
  {
    if Hex4(s) == Some(n) {
      assert HexDigits(s, HexValue(s[0]), HexValue(s[1]), HexValue(s[2]), HexValue(s[3]));
    }
  }

  /** What the letter after a backslash stands for, if it is not a `u`. */
  function Escaped(letter: char): byte {
    match letter
    case 'b' => 8
    case 'f' => 12
    case 'n' => 10
    case 'r' => 13
    case 't' => 9
    case _ => if letter as int < 128 then letter as int as byte else 0
  }

  /** A piece of a string, the bytes that it stands for, and what follows it. */
  ghost predicate IsPiece(lenient: bool, s: ByteString, bytes: ByteString, t: ByteString) {
    s != [] && if s[0] != 92 then s[0] != 34 && bytes == [s[0]] && t == s[1..]
    else
      |s| > 1 && if s[1] == 'u' as int as byte then IsUnicode(s[2..], bytes, t)
      else t == s[2..] && bytes == [Simple(s[1])] && (lenient || s[1] in Ascii("\"\\/bfnrt"))
  }

  function Simple(b: byte): byte { if b < 128 then Escaped(b as int as char) else b }

  /** A code point outside the surrogates, or a pair of surrogates. */
  ghost predicate IsUnicode(s: ByteString, bytes: ByteString, t: ByteString) {
    || (exists cp: nat :: IsHex4(s, cp) && t == s[4..] && (cp < 0xD800 || 0xE000 <= cp) && bytes == Utf8.Encode(cp))
    || (exists high: nat, low: nat :: IsPair(s, high, low) && t == s[10..] && bytes == Utf8.Encode(Joined(high, low)))
  }

  ghost predicate IsPair(s: ByteString, high: nat, low: nat) {
    |s| >= 10 && IsHex4(s, high) && s[4] == 92 && s[5] == 117 && IsHex4(s[6..], low) && 0xD800 <= high < 0xDC00 <= low < 0xE000
  }

  function Joined(high: nat, low: nat): nat
    requires 0xD800 <= high < 0xDC00 <= low < 0xE000
  {
    0x1_0000 + (high - 0xD800) * 0x400 + (low - 0xDC00)
  }

  lemma UnicodeIff(s: ByteString, bytes: ByteString, t: ByteString)
    ensures IsUnicode(s, bytes, t) <==> Unicode(s) == Some((bytes, t))
  {
    forall cp: nat
      ensures IsHex4(s, cp) <==> Hex4(s) == Some(cp)
    {
      Hex4Iff(s, cp);
    }
    if |s| >= 6 {
      forall cp: nat
        ensures IsHex4(s[6..], cp) <==> Hex4(s[6..]) == Some(cp)
      {
        Hex4Iff(s[6..], cp);
      }
    }
    if Unicode(s) == Some((bytes, t)) {
      var cp := Hex4(s).value;
      if 0xD800 <= cp <= 0xDBFF { assert IsPair(s, cp, Hex4(s[6..]).value); }
    }
  }

  lemma PieceIff(lenient: bool, s: ByteString, bytes: ByteString, t: ByteString)
    requires s != [] && s[0] != QUOTE
    ensures IsPiece(lenient, s, bytes, t) <==> Turn(lenient, s) == Some((bytes, t))
  {
    if s[0] == BACKSLASH && |s| > 1 {
      assert s[1..][1..] == s[2..];
      UnicodeIff(s[2..], bytes, t);
      EscapesIn(s[1]);
    }
  }

  lemma EscapesIn(b: byte)
    ensures b in Ascii("\"\\/bfnrt") <==> b in {34, 92, 47, 98, 102, 110, 114, 116}
  {
    var all := Ascii("\"\\/bfnrt");
    assert all == [34, 92, 47, 98, 102, 110, 114, 116];
  }

  /** The pieces of a string up to its closing quote. */
  ghost predicate IsBody(lenient: bool, s: ByteString, x: ByteString, t: ByteString)
    decreases |s|
  {
    || (s != [] && s[0] == 34 && x == [] && t == s[1..])
    || (exists n: nat, rest :: |rest| < |s| && BodyPiece(lenient, s, x, n, rest) && IsBody(lenient, rest, x[n..], t))
  }

  ghost predicate BodyPiece(lenient: bool, s: ByteString, x: ByteString, n: nat, rest: ByteString) {
    n <= |x| && IsPiece(lenient, s, x[..n], rest)
  }

  lemma {:induction false} BodyIff(lenient: bool, s: ByteString, x: ByteString, t: ByteString)
    ensures IsBody(lenient, s, x, t) <==> Body(lenient, s) == Some((x, t))
    decreases |s|, 1
  {
    if s != [] && s[0] != 34 {
      var turn := Turn(lenient, s);
      BodyTurn(lenient, s, turn);
      if IsBody(lenient, s, x, t) {
        var n: nat, rest :| |rest| < |s| && BodyPiece(lenient, s, x, n, rest) && IsBody(lenient, rest, x[n..], t);
        PieceIff(lenient, s, x[..n], rest);
        BodyIff(lenient, rest, x[n..], t);
        assert x == x[..n] + x[n..];
      }
      if Body(lenient, s) == Some((x, t)) {
        BodyFrom(lenient, s, x, t, |turn.value.0|, turn.value.1);
      }
    }
  }

  lemma {:induction false} BodyFrom(lenient: bool, s: ByteString, x: ByteString, t: ByteString, n: nat, rest: ByteString)
    requires s != [] && s[0] != 34 && n <= |x| && Turn(lenient, s).Some? && |Turn(lenient, s).value.0| == n
    requires rest == Turn(lenient, s).value.1 && Body(lenient, s) == Some((x, t))
    ensures IsBody(lenient, s, x, t)
    decreases |s|, 0
  {
    var bytes := Turn(lenient, s).value.0;
    BodyTurn(lenient, s, Turn(lenient, s));
    assert x == bytes + x[n..] && x[..n] == bytes;
    PieceIff(lenient, s, bytes, rest);
    BodyIff(lenient, rest, x[n..], t);
    assert BodyPiece(lenient, s, x, n, rest);
  }

  ghost predicate IsString(lenient: bool, s: ByteString, x: ByteString, t: ByteString) {
    s != [] && s[0] == 34 && IsBody(lenient, s[1..], x, t)
  }

  /** Reading a string accepts exactly the ways of writing it. */
  lemma StringIff(lenient: bool, s: ByteString, x: ByteString, t: ByteString)
    ensures IsString(lenient, s, x, t) <==> ParseString(lenient, s) == Some((x, t))
  {
    if s != [] { BodyIff(lenient, s[1..], x, t); }
  }

  // ---------------------------------------------------------------- numbers

  ghost predicate AreDigits(s: ByteString, from: nat, to: nat) {
    from <= to <= |s| && forall i :: from <= i < to ==> IsDigit(s[i])
  }

  /** The exponent from `c` to `n`: a letter, a sign or none, and digits or none. */
  ghost predicate IsExponent(s: ByteString, c: nat, n: nat) {
    c < n <= |s| && (s[c] == 101 || s[c] == 69)
    && (AreDigits(s, c + 1, n) || (c + 1 < n && (s[c + 1] == 43 || s[c + 1] == 45) && AreDigits(s, c + 2, n)))
  }

  /** The first `n` bytes are a number: a minus sign or none, digits from `a` to `b`, a fraction to `c`, an exponent. */
  ghost predicate NumberParts(s: ByteString, n: nat, a: nat, b: nat, c: nat) {
    && a < b <= c <= n <= |s| && (a == 0 || (a == 1 && s[0] == 45)) && AreDigits(s, a, b)
    && (b == c || (s[b] == 46 && AreDigits(s, b + 1, c)))
    && (c == n || IsExponent(s, c, n))
  }

  ghost predicate IsNumber(s: ByteString, n: nat) { exists a: nat, b: nat, c: nat :: NumberParts(s, n, a, b, c) }

  lemma {:induction false} RunOfDigits(s: ByteString)
    ensures AreDigits(s, 0, Digits(s)) && (Digits(s) < |s| ==> !IsDigit(s[Digits(s)]))
  {
    if s != [] && IsDigit(s[0]) {
      RunOfDigits(s[1..]);
      forall i | 0 <= i < Digits(s)
        ensures IsDigit(s[i])
      {
        if i > 0 { assert s[i] == s[1..][i - 1]; }
      }
      if Digits(s) < |s| { assert s[Digits(s)] == s[1..][Digits(s) - 1]; }
    }
  }

  /** Where the digits from `from` end. */
  lemma DigitsFrom(s: ByteString, from: nat)
    requires from <= |s|
    ensures var to := from + Digits(s[from..]); AreDigits(s, from, to) && (to < |s| ==> !IsDigit(s[to]))
  {
    var u := s[from..];
    RunOfDigits(u);
    forall i | from <= i < from + Digits(u)
      ensures IsDigit(s[i])
    {
      assert s[i] == u[i - from];
    }
    if from + Digits(u) < |s| { assert s[from + Digits(u)] == u[Digits(u)]; }
  }

  lemma DigitsBound(s: ByteString, from: nat, to: nat)
    requires AreDigits(s, from, to)
    ensures to <= from + Digits(s[from..])
    ensures to < |s| && !IsDigit(s[to]) ==> to == from + Digits(s[from..])
  {
    DigitsFrom(s, from);
  }

  lemma FractionEnd(s: ByteString, b: nat)
    requires b <= |s|
    ensures var c := b + Fraction(s[b..]);
      && b <= c <= |s| && (b == c || (s[b] == 46 && AreDigits(s, b + 1, c))) && (c < |s| && s[c] == 46 ==> b < c)
      && (b < c < |s| ==> !IsDigit(s[c]))
  {
    if b < |s| && s[b] == 46 {
      assert s[b..][1..] == s[b + 1..];
      DigitsFrom(s, b + 1);
    }
  }

  lemma FractionBound(s: ByteString, b: nat, c: nat)
    requires b < c <= |s| && s[b] == 46 && AreDigits(s, b + 1, c)
    ensures c <= b + Fraction(s[b..]) && (c < |s| && !IsDigit(s[c]) ==> c == b + Fraction(s[b..]))
  {
    assert s[b..][1..] == s[b + 1..];
    DigitsBound(s, b + 1, c);
  }

  lemma ExponentEnd(s: ByteString, c: nat)
    requires c <= |s|
    ensures var n := c + Exponent(s[c..]); n <= |s| && (c == n || IsExponent(s, c, n))
  {
    if c < |s| && (s[c] == 101 || s[c] == 69) {
      assert s[c..][1..] == s[c + 1..];
      DigitsFrom(s, c + 1);
      if c + 1 < |s| {
        assert s[c..][2..] == s[c + 2..];
        DigitsFrom(s, c + 2);
      }
    }
  }

  lemma ExponentBound(s: ByteString, c: nat, n: nat)
    requires IsExponent(s, c, n)
    ensures n <= c + Exponent(s[c..])
  {
    assert s[c..][1..] == s[c + 1..];
    if AreDigits(s, c + 1, n) {
      DigitsBound(s, c + 1, n);
    } else {
      assert s[c..][2..] == s[c + 2..];
      DigitsBound(s, c + 2, n);
    }
  }

  lemma LengthIs(s: ByteString, a: nat, b: nat, c: nat)
    requires a == SignLength(s) && b == a + Digits(s[a..]) && c == b + Fraction(s[b..])
    ensures NumberLength(s) == if a == b then 0 else c + Exponent(s[c..])
  {
  }

  lemma PartsAre(s: ByteString, n: nat, a: nat, b: nat, c: nat)
    requires a == SignLength(s) && a < b == a + Digits(s[a..]) && c == b + Fraction(s[b..]) && n == c + Exponent(s[c..])
    ensures NumberParts(s, n, a, b, c)
  {
    DigitsFrom(s, a);
    FractionEnd(s, b);
    ExponentEnd(s, c);
  }

  /** What the parser takes is a number. */
  lemma NumberIsNumber(s: ByteString)
    requires NumberLength(s) > 0
    ensures IsNumber(s, NumberLength(s))
  {
    var a := SignLength(s);
    var b := a + Digits(s[a..]);
    var c := b + Fraction(s[b..]);
    LengthIs(s, a, b, c);
    PartsAre(s, NumberLength(s), a, b, c);
  }

  /** And none is longer. */
  lemma NumberBound(s: ByteString, n: nat, a: nat, b: nat, c: nat)
    requires NumberParts(s, n, a, b, c)
    ensures n <= NumberLength(s)
  {
    assert a == SignLength(s);
    DigitsBound(s, a, b);
    var b' := a + Digits(s[a..]);
    var c' := b' + Fraction(s[b'..]);
    LengthIs(s, a, b', c');
    if b == b' { TailBound(s, n, b, c, c'); }
  }

  lemma TailBound(s: ByteString, n: nat, b: nat, c: nat, c': nat)
    requires b <= c <= n <= |s| && c' == b + Fraction(s[b..])
    requires b == c || (s[b] == 46 && AreDigits(s, b + 1, c))
    requires c == n || IsExponent(s, c, n)
    ensures n <= c' + Exponent(s[c'..])
  {
    if b < c { FractionBound(s, b, c); }
    FractionEnd(s, b);
    if c < n { ExponentBound(s, c, n); }
  }

  /** The number that a text starts with is the longest one. */
  lemma NumberIff(s: ByteString, n: nat)
    requires n > 0
    ensures NumberLength(s) == n <==> IsNumber(s, n) && forall m: nat :: n < m ==> !IsNumber(s, m)
  {
    forall m: nat, a: nat, b: nat, c: nat | NumberParts(s, m, a, b, c)
      ensures m <= NumberLength(s)
    {
      NumberBound(s, m, a, b, c);
    }
    if NumberLength(s) > 0 { NumberIsNumber(s); }
  }

  // ---------------------------------------------------------------- values

  /** Spaces, tabs and line ends, and then `u`. */
  ghost predicate BlanksThen(s: ByteString, u: ByteString) {
    |u| <= |s| && s[|s| - |u|..] == u && forall i :: 0 <= i < |s| - |u| ==> s[i] in {32, 9, 10, 13}
  }

  /** Blanks, this byte, and then `t`. */
  ghost predicate IsByte(s: ByteString, b: byte, t: ByteString) { BlanksThen(s, [b] + t) }

  lemma {:induction false} SkipIff(s: ByteString, u: ByteString)
    requires u != [] && !IsBlank(u[0])
    ensures BlanksThen(s, u) <==> Skip(s) == u
  {
    if s != [] && IsBlank(s[0]) {
      SkipIff(s[1..], u);
      BlanksMore(s, u);
    }
  }

  lemma BlanksMore(s: ByteString, u: ByteString)
    requires s != [] && IsBlank(s[0]) && u != [] && !IsBlank(u[0])
    ensures BlanksThen(s, u) <==> BlanksThen(s[1..], u)
  {
    if |u| < |s| {
      assert s[1..][|s| - 1 - |u|..] == s[|s| - |u|..];
      if BlanksThen(s[1..], u) {
        forall i | 0 <= i < |s| - |u|
          ensures s[i] in {32, 9, 10, 13}
        {
          if i > 0 { assert s[i] == s[1..][i - 1]; }
        }
      }
    }
  }

  lemma ByteIff(s: ByteString, b: byte, t: ByteString)
    requires !IsBlank(b)
    ensures IsByte(s, b, t) <==> Consume(s, b) == Some(t)
  {
    SkipIff(s, [b] + t);
    assert ([b] + t)[1..] == t;
    if Skip(s) != [] && Skip(s)[0] == b { assert Skip(s) == [b] + Skip(s)[1..]; }
  }

  /** Words, numbers and strings. */
  ghost predicate IsScalar(lenient: bool, u: ByteString, j: Json, t: ByteString) {
    match j
    case Null => u == Ascii("null") + t
    case Bool(b) => u == (if b then Ascii("true") else Ascii("false")) + t
    case Num(text) => text != [] && u == text + t && IsNumber(u, |text|) && forall m: nat :: |text| < m ==> !IsNumber(u, m)
    case Str(x) => IsString(lenient, u, x, t)
    case _ => false
  }

  /** A value without blanks before it. */
  ghost predicate IsBare(lenient: bool, u: ByteString, j: Json, t: ByteString)
    decreases |u|, 0
  {
    u != [] &&
    match j
    case Arr(items) => u[0] == 91 && if items == [] then IsByte(u[1..], 93, t) else IsItems(lenient, u[1..], items, t)
    case Obj(members) => u[0] == 123 && if members == [] then IsByte(u[1..], 125, t) else IsMembers(lenient, u[1..], members, t)
    case _ => IsScalar(lenient, u, j, t)
  }

  ghost predicate IsValue(lenient: bool, s: ByteString, j: Json, t: ByteString)
    decreases |s|, 1
  {
    exists u :: |u| <= |s| && BlanksThen(s, u) && IsBare(lenient, u, j, t)
  }

  /** Values with commas between them, up to the closing bracket. */
  ghost predicate IsItems(lenient: bool, s: ByteString, items: seq<Json>, t: ByteString)
    decreases |s|, 3
  {
    items != [] && exists r :: |r| < |s| && IsValue(lenient, s, items[0], r) && AfterItem(lenient, r, items, t)
  }

  ghost predicate AfterItem(lenient: bool, r: ByteString, items: seq<Json>, t: ByteString)
    requires items != []
    decreases |r|, 4
  {
    if |items| == 1 then IsByte(r, 93, t)
    else exists more :: |more| < |r| && IsByte(r, 44, more) && IsItems(lenient, more, items[1..], t)
  }

  /** A name, a colon and a value. */
  ghost predicate IsMember(lenient: bool, s: ByteString, m: (ByteString, Json), t: ByteString)
    decreases |s|, 2
  {
    exists v :: |v| < |s| && IsName(lenient, s, m.0, v) && IsValue(lenient, v, m.1, t)
  }

  ghost predicate IsName(lenient: bool, s: ByteString, name: ByteString, t: ByteString) {
    exists u, after :: BlanksThen(s, u) && IsString(lenient, u, name, after) && IsByte(after, 58, t)
  }

  ghost predicate IsMembers(lenient: bool, s: ByteString, members: seq<(ByteString, Json)>, t: ByteString)
    decreases |s|, 3
  {
    members != [] && exists r :: |r| < |s| && IsMember(lenient, s, members[0], r) && AfterMember(lenient, r, members, t)
  }

  ghost predicate AfterMember(lenient: bool, r: ByteString, members: seq<(ByteString, Json)>, t: ByteString)
    requires members != []
    decreases |r|, 4
  {
    if |members| == 1 then IsByte(r, 125, t)
    else exists more :: |more| < |r| && IsByte(r, 44, more) && IsMembers(lenient, more, members[1..], t)
  }

  // ---------------------------------------------------------------- the parser accepts just these

  lemma WordIff(u: ByteString, word: ByteString, t: ByteString)
    ensures u == word + t <==> Has(u, word) && u[|word|..] == t
  {
    if Has(u, word) { assert u == u[..|word|] + u[|word|..]; }
  }

  lemma Words()
    ensures Ascii("null") == [110, 117, 108, 108] && Ascii("true") == [116, 114, 117, 101]
    ensures Ascii("false") == [102, 97, 108, 115, 101]
  {
  }

  lemma NumberScalarIff(u: ByteString, text: ByteString, t: ByteString)
    requires u != [] && (u[0] == 45 || IsDigit(u[0]))
    ensures IsScalar(true, u, Num(text), t) <==> ParseScalar(u) == Some((Num(text), t))
  {
    WordIff(u, text, t);
    if text != [] { NumberIff(u, |text|); }
    if NumberLength(u) > 0 { NumberScalar(u, NumberLength(u)); }
  }

  lemma ScalarStarts(lenient: bool, u: ByteString, j: Json, t: ByteString)
    requires IsScalar(lenient, u, j, t)
    ensures u != [] && (j.Null? ==> u[0] == 110) && (j.Bool? ==> u[0] == if j.b then 116 else 102)
    ensures (j.Num? ==> u[0] == 45 || IsDigit(u[0])) && (j.Str? ==> u[0] == 34)
  {
    Words();
    if j.Num? {
      var a: nat, b: nat, c: nat :| NumberParts(u, |j.text|, a, b, c);
    }
  }

  lemma ScalarIff(u: ByteString, j: Json, t: ByteString)
    ensures !j.Arr? && !j.Obj? ==> (IsScalar(true, u, j, t) <==> ParseScalar(u) == Some((j, t)))
    ensures j.Arr? || j.Obj? ==> ParseScalar(u) != Some((j, t))
  {
    Words();
    if IsScalar(true, u, j, t) { ScalarStarts(true, u, j, t); }
    match j
    case Null => WordIff(u, Ascii("null"), t);
    case Bool(b) => WordIff(u, if b then Ascii("true") else Ascii("false"), t);
    case Num(text) => if u != [] && (u[0] == 45 || IsDigit(u[0])) { NumberScalarIff(u, text, t); }
    case Str(x) => StringIff(true, u, x, t);
    case _ =>
  }

  lemma BareStarts(lenient: bool, u: ByteString, j: Json, t: ByteString)
    requires IsBare(lenient, u, j, t)
    ensures u != [] && u[0] > 32 && u[0] != 93 && u[0] != 125
  {
    if !j.Arr? && !j.Obj? { ScalarStarts(lenient, u, j, t); }
  }

  /** A value is a bare one behind all the blanks. */
  lemma ValueIsBare(s: ByteString, j: Json, t: ByteString)
    ensures IsValue(true, s, j, t) <==> IsBare(true, Skip(s), j, t)
  {
    var u := Skip(s);
    SkipStops(s);
    if u != [] { SkipIff(s, u); }
    if IsValue(true, s, j, t) {
      var w :| |w| <= |s| && BlanksThen(s, w) && IsBare(true, w, j, t);
      BareStarts(true, w, j, t);
      SkipIff(s, w);
    }
  }

  lemma ParseSkips(s: ByteString)
    ensures ParseValue(s) == ParseValue(Skip(s)) && (Skip(s) == [] ==> ParseValue(s).None?)
  {
    SkipStops(s);
  }

  lemma {:induction false} ValueIff(s: ByteString, j: Json, t: ByteString)
    ensures IsValue(true, s, j, t) <==> ParseValue(s) == Some((j, t))
    decreases |s|, 1
  {
    ValueIsBare(s, j, t);
    ParseSkips(s);
    SkipStops(s);
    if Skip(s) != [] { BareIff(Skip(s), j, t); }
  }

  lemma {:induction false} SkipStops(s: ByteString)
    ensures var u := Skip(s); |u| <= |s| && Skip(u) == u && (u != [] ==> !IsBlank(u[0]))
  {
    if s != [] && IsBlank(s[0]) { SkipStops(s[1..]); }
  }

  lemma {:induction false} BareIff(u: ByteString, j: Json, t: ByteString)
    requires u != [] && !IsBlank(u[0])
    ensures IsBare(true, u, j, t) <==> ParseValue(u) == Some((j, t))
    decreases |u|, 0
  {
    ScalarIff(u, j, t);
    if u[0] == 91 {
      ByteIff(u[1..], 93, t);
      if j.Arr? && j.items != [] { ItemsIff(u[1..], j.items, t); }
    } else if u[0] == 123 {
      ByteIff(u[1..], 125, t);
      if j.Obj? && j.members != [] { MembersIff(u[1..], j.members, t); }
    }
  }

  lemma ValueOpens(s: ByteString, j: Json, t: ByteString)
    requires IsValue(true, s, j, t)
    ensures Consume(s, 93).None?
  {
    var u :| |u| <= |s| && BlanksThen(s, u) && IsBare(true, u, j, t);
    BareStarts(true, u, j, t);
    SkipIff(s, u);
  }

  lemma NameOpens(s: ByteString, name: ByteString, t: ByteString)
    requires IsName(true, s, name, t)
    ensures Consume(s, 125).None?
  {
    var u, after :| BlanksThen(s, u) && IsString(true, u, name, after) && IsByte(after, 58, t);
    SkipIff(s, u);
  }

  /** What the parser wants behind an item. */
  ghost predicate ReadsAfterItem(r: ByteString, items: seq<Json>, t: ByteString)
    requires items != []
  {
    if |items| == 1 then Consume(r, 93) == Some(t)
    else Consume(r, 44).Some? && Elements(Consume(r, 44).value) == Some((items[1..], t))
  }

  lemma SomeElements(s: ByteString)
    ensures Elements(s).Some? ==> Elements(s).value.0 != []
  {
  }

  lemma ElementsStep(s: ByteString, v: Json, r: ByteString, items: seq<Json>, t: ByteString)
    requires items != [] && ParseValue(s) == Some((v, r))
    ensures Elements(s) == Some((items, t)) <==> v == items[0] && ReadsAfterItem(r, items, t)
  {
    if Consume(r, 44).Some? {
      SomeElements(Consume(r, 44).value);
      var more := Elements(Consume(r, 44).value);
      if more.Some? && [v] + more.value.0 == items { assert items[1..] == more.value.0 && items[0] == v; }
    }
    assert [items[0]] + items[1..] == items;
    if |items| == 1 { assert items == [items[0]]; }
  }

  lemma {:induction false} AfterItemIff(r: ByteString, items: seq<Json>, t: ByteString)
    requires items != []
    ensures AfterItem(true, r, items, t) <==> ReadsAfterItem(r, items, t)
    decreases |r|, 4
  {
    ByteIff(r, 93, t);
    if |items| > 1 {
      var c := Consume(r, 44);
      if c.Some? {
        ByteIff(r, 44, c.value);
        ItemsIff(c.value, items[1..], t);
      }
      forall more | IsByte(r, 44, more)
        ensures c == Some(more)
      {
        ByteIff(r, 44, more);
      }
    }
  }

  lemma {:induction false} ItemsIff(s: ByteString, items: seq<Json>, t: ByteString)
    requires items != []
    ensures IsItems(true, s, items, t) <==> Elements(s) == Some((items, t))
    ensures IsItems(true, s, items, t) ==> Consume(s, 93).None?
    decreases |s|, 3
  {
    if IsItems(true, s, items, t) {
      var r :| |r| < |s| && IsValue(true, s, items[0], r) && AfterItem(true, r, items, t);
      ValueOpens(s, items[0], r);
      ValueIff(s, items[0], r);
      AfterItemIff(r, items, t);
      ElementsStep(s, items[0], r, items, t);
    }
    var v := ParseValue(s);
    if v.Some? {
      ValueIff(s, v.value.0, v.value.1);
      AfterItemIff(v.value.1, items, t);
      ElementsStep(s, v.value.0, v.value.1, items, t);
    }
  }

  ghost predicate ReadsAfterMember(r: ByteString, members: seq<(ByteString, Json)>, t: ByteString)
    requires members != []
  {
    if |members| == 1 then Consume(r, 125) == Some(t)
    else Consume(r, 44).Some? && Members(Consume(r, 44).value) == Some((members[1..], t))
  }

  lemma SomeMembers(s: ByteString)
    ensures Members(s).Some? ==> Members(s).value.0 != []
  {
  }

  lemma MembersStep(s: ByteString, m: (ByteString, Json), r: ByteString, members: seq<(ByteString, Json)>, t: ByteString)
    requires members != [] && Member(s) == Some((m, r))
    ensures Members(s) == Some((members, t)) <==> m == members[0] && ReadsAfterMember(r, members, t)
  {
    if Consume(r, 44).Some? {
      SomeMembers(Consume(r, 44).value);
      var more := Members(Consume(r, 44).value);
      if more.Some? && [m] + more.value.0 == members { assert members[1..] == more.value.0 && members[0] == m; }
    }
    assert [members[0]] + members[1..] == members;
    if |members| == 1 { assert members == [members[0]]; }
  }

  lemma {:induction false} AfterMemberIff(r: ByteString, members: seq<(ByteString, Json)>, t: ByteString)
    requires members != []
    ensures AfterMember(true, r, members, t) <==> ReadsAfterMember(r, members, t)
    decreases |r|, 4
  {
    ByteIff(r, 125, t);
    if |members| > 1 {
      var c := Consume(r, 44);
      if c.Some? {
        ByteIff(r, 44, c.value);
        MembersIff(c.value, members[1..], t);
      }
      forall more | IsByte(r, 44, more)
        ensures c == Some(more)
      {
        ByteIff(r, 44, more);
      }
    }
  }

  /** What the parser makes of a name and a colon. */
  lemma NameIff(s: ByteString, name: ByteString, t: ByteString)
    ensures IsName(true, s, name, t) <==>
      var key := ParseString(true, Skip(s)); key.Some? && key.value.0 == name && Consume(key.value.1, 58) == Some(t)
  {
    var key := ParseString(true, Skip(s));
    if IsName(true, s, name, t) {
      var u, after :| BlanksThen(s, u) && IsString(true, u, name, after) && IsByte(after, 58, t);
      SkipIff(s, u);
      StringIff(true, u, name, after);
      ByteIff(after, 58, t);
    }
    if key.Some? && key.value.0 == name && Consume(key.value.1, 58) == Some(t) {
      SkipIff(s, Skip(s));
      StringIff(true, Skip(s), name, key.value.1);
      ByteIff(key.value.1, 58, t);
    }
  }

  lemma {:induction false} MemberIff(s: ByteString, m: (ByteString, Json), t: ByteString)
    ensures IsMember(true, s, m, t) <==> Member(s) == Some((m, t))
    decreases |s|, 2
  {
    if IsMember(true, s, m, t) {
      var v :| |v| < |s| && IsName(true, s, m.0, v) && IsValue(true, v, m.1, t);
      NameIff(s, m.0, v);
      ValueIff(v, m.1, t);
    }
    var key := ParseString(true, Skip(s));
    if Member(s) == Some((m, t)) {
      var v := Consume(key.value.1, 58).value;
      NameIff(s, m.0, v);
      ValueIff(v, m.1, t);
    }
  }

  lemma {:induction false} MembersIff(s: ByteString, members: seq<(ByteString, Json)>, t: ByteString)
    requires members != []
    ensures IsMembers(true, s, members, t) <==> Members(s) == Some((members, t))
    ensures IsMembers(true, s, members, t) ==> Consume(s, 125).None?
    decreases |s|, 3
  {
    if IsMembers(true, s, members, t) {
      var r :| |r| < |s| && IsMember(true, s, members[0], r) && AfterMember(true, r, members, t);
      var v :| |v| < |s| && IsName(true, s, members[0].0, v) && IsValue(true, v, members[0].1, r);
      NameOpens(s, members[0].0, v);
      MemberIff(s, members[0], r);
      AfterMemberIff(r, members, t);
      MembersStep(s, members[0], r, members, t);
    }
    var m := Member(s);
    if m.Some? {
      MemberIff(s, m.value.0, m.value.1);
      AfterMemberIff(m.value.1, members, t);
      MembersStep(s, m.value.0, m.value.1, members, t);
    }
  }

  /** A whole text: a value, with blanks around it. */
  ghost predicate IsText(lenient: bool, s: ByteString, j: Json) {
    exists t :: IsValue(lenient, s, j, t) && forall i :: 0 <= i < |t| ==> t[i] in {32, 9, 10, 13}
  }

  lemma {:induction false} OnlyBlanks(t: ByteString)
    ensures Skip(t) == [] <==> forall i :: 0 <= i < |t| ==> t[i] in {32, 9, 10, 13}
  {
    if t != [] && IsBlank(t[0]) {
      OnlyBlanks(t[1..]);
      assert forall i :: 0 < i < |t| ==> t[i] == t[1..][i - 1];
    }
  }

  /** Parsing accepts exactly the texts of the grammar, and gives the value that they spell. */
  lemma ParsesIff(s: ByteString, j: Json)
    ensures IsText(true, s, j) <==> ParseJson(s) == Some(j)
  {
    if IsText(true, s, j) {
      var t :| IsValue(true, s, j, t) && forall i :: 0 <= i < |t| ==> t[i] in {32, 9, 10, 13};
      ValueIff(s, j, t);
      OnlyBlanks(t);
    }
    var r := ParseValue(s);
    if ParseJson(s) == Some(j) {
      ValueIff(s, j, r.value.1);
      OnlyBlanks(r.value.1);
    }
  }
}
