/**
  JSON strings over arbitrary bytes: the printer that the artifact metadata and the server protocol share
  (src/artifact/metadata.cpp:9-32, src/serve/protocol.cpp:10-33) and the parser of their two readers
  (src/artifact/metadata.cpp:107-186, src/serve/protocol.cpp:187-279). The two differ in one point: for an escape that
  section 7 of RFC 8259 does not list, the metadata reader fails and the protocol reader keeps the character.
 */
module JsonString {
  import opened Bytes
  import Utf8

  const QUOTE: byte := 34
  const BACKSLASH: byte := 92

  // ---------------------------------------------------------------- printing

  function HexDigit(n: nat): byte
    requires n < 16
  {
    if n < 10 then (48 + n) as byte else (87 + n) as byte
  }

  function EscapeByte(c: byte): (r: ByteString)
    ensures 0 < |r|
  {
    if c == 34 then [92, 34]
    else if c == 92 then [92, 92]
    else if c == 8 then [92, 98]
    else if c == 12 then [92, 102]
    else if c == 10 then [92, 110]
    else if c == 13 then [92, 114]
    else if c == 9 then [92, 116]
    else if c < 32 then [92, 117, 48, 48, HexDigit(c as nat / 16), HexDigit(c as nat % 16)]
    else [c]
  }

  /** The escapes: short ones where there are any, two lower-case hexadecimal digits for other controls, else the byte itself. */
  lemma EscapesAre(c: byte)
    ensures c == 34 ==> EscapeByte(c) == Ascii("\\\"")
    ensures c == 92 ==> EscapeByte(c) == Ascii("\\\\")
    ensures c == 8 ==> EscapeByte(c) == Ascii("\\b")
    ensures c == 12 ==> EscapeByte(c) == Ascii("\\f")
    ensures c == 10 ==> EscapeByte(c) == Ascii("\\n")
    ensures c == 13 ==> EscapeByte(c) == Ascii("\\r")
    ensures c == 9 ==> EscapeByte(c) == Ascii("\\t")
    ensures c >= 32 && c != 34 && c != 92 ==> EscapeByte(c) == [c]
    ensures c < 32 && c !in {8, 9, 10, 12, 13} ==>
      exists high, low :: IsLowerHex(high) && IsLowerHex(low) && EscapeByte(c) == Ascii("\\u00") + [high, low]
        && 16 * HexValue(high) + HexValue(low) == c as nat
  {
    if c < 32 && c !in {8, 9, 10, 12, 13} {
      var high, low := HexDigit(c as nat / 16), HexDigit(c as nat % 16);
      assert IsLowerHex(high) && IsLowerHex(low) && EscapeByte(c) == Ascii("\\u00") + [high, low];
    }
  }

  predicate IsLowerHex(b: byte) { 48 <= b <= 57 || 97 <= b <= 102 }

  function EscapeAll(s: ByteString): ByteString {
    if s == [] then [] else EscapeByte(s[0]) + EscapeAll(s[1..])
  }

  /** The string as a JSON string literal. */
  function Quoted(s: ByteString): ByteString { [QUOTE] + EscapeAll(s) + [QUOTE] }

  /** `escape_json_string`: appends to what has been printed so far. */
  method EscapeJsonString(out: ByteString, str: ByteString) returns (r: ByteString)
    ensures r == out + Quoted(str)
  {
    r := out + [QUOTE];
    var i := 0;
    ghost var rest := EscapeAll(str);
    assert str[0..] == str;
    while i < |str|
      invariant 0 <= i <= |str|
      invariant rest == EscapeAll(str[i..]) && out + [QUOTE] + EscapeAll(str) == r + rest
    {
      assert str[i..][1..] == str[i + 1..];
      r := r + EscapeByte(str[i]);
      i := i + 1;
      rest := EscapeAll(str[i..]);
    }
    assert r == out + [QUOTE] + EscapeAll(str);
    r := r + [QUOTE];
  }

  /** A printed string has no control characters, so no line ends. */
  ghost predicate NoControls(s: ByteString) { forall i :: 0 <= i < |s| ==> s[i] >= 32 }

  lemma {:induction false} EscapedHasNoControls(s: ByteString)
    ensures NoControls(EscapeAll(s))
  {
    if s != [] { EscapedHasNoControls(s[1..]); }
  }

  lemma QuotedHasNoControls(s: ByteString)
    ensures NoControls(Quoted(s))
  {
    EscapedHasNoControls(s);
  }

  /** Bytes that the printer leaves alone. */
  ghost predicate Plain(s: ByteString) { forall i :: 0 <= i < |s| ==> s[i] >= 32 && s[i] != 34 && s[i] != 92 }

  lemma {:induction false} PlainEscapes(s: ByteString)
    requires Plain(s)
    ensures EscapeAll(s) == s && Quoted(s) == [QUOTE] + s + [QUOTE]
  {
    if s != [] {
      PlainEscapes(s[1..]);
      assert [s[0]] + s[1..] == s;
    }
  }

  // ---------------------------------------------------------------- parsing

  /** A value and what follows it, or failure. */
  type Parsed<T> = Option<(T, ByteString)>

  predicate IsHex(b: byte) { 48 <= b <= 57 || 65 <= b <= 70 || 97 <= b <= 102 }

  function HexValue(b: byte): (n: nat)
    requires IsHex(b)
    ensures n < 16
  {
    if b <= 57 then b as nat - 48 else if b <= 70 then b as nat - 55 else b as nat - 87
  }

  /** Four hexadecimal digits at the head of `s`. */
  function Hex4(s: ByteString): (r: Option<nat>)
    ensures r.Some? ==> |s| >= 4 && r.value < 0x1_0000
  {
    if |s| >= 4 && IsHex(s[0]) && IsHex(s[1]) && IsHex(s[2]) && IsHex(s[3]) then
      Some(HexValue(s[0]) * 4096 + HexValue(s[1]) * 256 + HexValue(s[2]) * 16 + HexValue(s[3]))
    else None
  }

  /** After a backslash and a `u`: the UTF-8 of the code point, or of a surrogate pair. */
  function Unicode(s: ByteString): (r: Parsed<ByteString>)
    ensures r.Some? ==> |r.value.1| < |s|
  {
    match Hex4(s)
    case None => None
    case Some(cp) =>
      if 0xD800 <= cp <= 0xDBFF then
        if |s| >= 10 && s[4] == BACKSLASH && s[5] == 117 then
          match Hex4(s[6..])
          case None => None
          case Some(low) =>
            if 0xDC00 <= low <= 0xDFFF then
              Some((Utf8.Encode(0x1_0000 + (cp - 0xD800) * 1024 + (low - 0xDC00)), s[10..]))
            else None
        else None
      else if 0xDC00 <= cp <= 0xDFFF then None
      else Some((Utf8.Encode(cp), s[4..]))
  }

  /** After a backslash. */
  function Unescape(lenient: bool, s: ByteString): (r: Parsed<ByteString>)
    ensures r.Some? ==> |r.value.1| < |s|
  {
    if s == [] then None
    else
      var esc := s[0];
      if esc == 34 || esc == 92 || esc == 47 then Some(([esc], s[1..]))
      else if esc == 98 then Some(([8], s[1..]))
      else if esc == 102 then Some(([12], s[1..]))
      else if esc == 110 then Some(([10], s[1..]))
      else if esc == 114 then Some(([13], s[1..]))
      else if esc == 116 then Some(([9], s[1..]))
      else if esc == 117 then Unicode(s[1..])
      else if lenient then Some(([esc], s[1..]))
      else None
  }

  function Prepend(bytes: ByteString, r: Parsed<ByteString>): (p: Parsed<ByteString>)
    ensures p.Some? <==> r.Some?
    ensures p.Some? ==> p.value == (bytes + r.value.0, r.value.1)
  {
    if r.None? then None else Some((bytes + r.value.0, r.value.1))
  }

  /** One turn of the parser's loop: what it appends, and where it goes on. */
  function Turn(lenient: bool, s: ByteString): (r: Parsed<ByteString>)
    requires s != [] && s[0] != QUOTE
    ensures r.Some? ==> |r.value.1| < |s|
  {
    if s[0] == BACKSLASH then Unescape(lenient, s[1..]) else Some(([s[0]], s[1..]))
  }

  /** After the opening quote: the string, and what follows the closing quote. */
  function Body(lenient: bool, s: ByteString): (r: Parsed<ByteString>)
    ensures r.Some? ==> |r.value.1| < |s|
    decreases |s|
  {
    if s == [] then None
    else if s[0] == QUOTE then Some(([], s[1..]))
    else
      match Turn(lenient, s)
      case None => None
      case Some(u) => Prepend(u.0, Body(lenient, u.1))
  }

  function ParseString(lenient: bool, s: ByteString): (r: Parsed<ByteString>)
    ensures r.Some? ==> |r.value.1| < |s|
  {
    if s == [] || s[0] != QUOTE then None else Body(lenient, s[1..])
  }

  lemma PrependTwice(a: ByteString, b: ByteString, r: Parsed<ByteString>)
    ensures Prepend(a, Prepend(b, r)) == Prepend(a + b, r)
  {
    if r.Some? { assert a + (b + r.value.0) == a + b + r.value.0; }
  }

  lemma PrependNothing(r: Parsed<ByteString>)
    ensures Prepend([], r) == r
  {
    if r.Some? { assert [] + r.value.0 == r.value.0; }
  }

  /** One turn of the parser's loop, with a cursor into the input. */
  method TurnAt(lenient: bool, input: ByteString, pos: nat) returns (ok: bool, bytes: ByteString, next: nat)
    requires pos < |input| && input[pos] != QUOTE
    ensures ok ==> pos < next <= |input|
    ensures Body(lenient, input[pos..]) == if ok then Prepend(bytes, Body(lenient, input[next..])) else None
  {
    var r := Turn(lenient, input[pos..]);
    BodyTurn(lenient, input[pos..], r);
    if r.None? { return false, [], pos; }
    TurnIsSuffix(lenient, input, pos, r.value.0, r.value.1);
    ok, bytes, next := true, r.value.0, |input| - |r.value.1|;
  }

  lemma BodyTurn(lenient: bool, s: ByteString, r: Parsed<ByteString>)
    requires s != [] && s[0] != QUOTE && r == Turn(lenient, s)
    ensures r.None? ==> Body(lenient, s) == None
    ensures r.Some? ==> Body(lenient, s) == Prepend(r.value.0, Body(lenient, r.value.1))
  {
  }

  lemma BodyEnds(lenient: bool, s: ByteString, out: ByteString)
    requires s != [] && s[0] == QUOTE
    ensures Prepend(out, Body(lenient, s)) == Some((out, s[1..]))
  {
    assert out + [] == out;
  }

  /** The parser's loop. */
  method ParseStringAt(lenient: bool, input: ByteString, start: nat) returns (ok: bool, out: ByteString, pos: nat)
    requires start <= |input|
    ensures start <= pos <= |input|
    ensures ParseString(lenient, input[start..]) == if ok then Some((out, input[pos..])) else None
  {
    out, pos := [], start;
    if pos >= |input| || input[pos] != QUOTE { return false, [], pos; }
    pos := pos + 1;
    assert input[start..][1..] == input[pos..];
    ghost var all := Body(lenient, input[pos..]);
    PrependNothing(all);
    while pos < |input|
      invariant start < pos <= |input|
      invariant all == Prepend(out, Body(lenient, input[pos..]))
      decreases |input| - pos
    {
      if input[pos] == QUOTE {
        BodyEnds(lenient, input[pos..], out);
        assert input[pos..][1..] == input[pos + 1..];
        return true, out, pos + 1;
      }
      var more, bytes, next := TurnAt(lenient, input, pos);
      if !more { return false, out, pos; }
      PrependTwice(out, bytes, Body(lenient, input[next..]));
      out, pos := out + bytes, next;
    }
    ok := false;
  }

  /** What a turn leaves is a suffix of the input. */
  lemma TurnIsSuffix(lenient: bool, input: ByteString, pos: nat, bytes: ByteString, rest: ByteString)
    requires pos < |input| && input[pos] != QUOTE && Turn(lenient, input[pos..]) == Some((bytes, rest))
    ensures |rest| < |input| - pos && rest == input[|input| - |rest|..]
  {
    assert input[pos..][1..] == input[pos + 1..] && input[pos + 1..][0..] == input[pos + 1..];
  }

  // ---------------------------------------------------------------- round trip

  /** A printed byte, followed by anything, is read back as that byte. */
  lemma TurnReadsByte(lenient: bool, c: byte, t: ByteString)
    ensures EscapeByte(c) + t != [] && (EscapeByte(c) + t)[0] != QUOTE
    ensures Turn(lenient, EscapeByte(c) + t) == Some(([c], t))
  {
    var e := EscapeByte(c);
    var s := e + t;
    assert s[1..] == e[1..] + t;
    if |e| == 6 {
      ReadsUnicode(c, t);
      assert s[1..] == [117, 48, 48, e[4], e[5]] + t;
      assert s[1..][1..] == [48, 48, e[4], e[5]] + t;
    } else if |e| == 2 {
      assert s[1..][1..] == t;
    } else {
      assert s[1..] == t;
    }
  }

  lemma ReadsUnicode(c: byte, t: ByteString)
    requires c < 32
    ensures Unicode([48, 48, HexDigit(c as nat / 16), HexDigit(c as nat % 16)] + t) == Some(([c], t))
  {
    var e := [48, 48, HexDigit(c as nat / 16), HexDigit(c as nat % 16)];
    var s := e + t;
    assert s[0] == e[0] && s[1] == e[1] && s[2] == e[2] && s[3] == e[3] && s[4..] == t;
    assert Hex4(s) == Some(c as nat);
  }

  lemma {:induction false} BodyReadsEscaped(lenient: bool, x: ByteString, t: ByteString)
    ensures Body(lenient, EscapeAll(x) + ([QUOTE] + t)) == Some((x, t))
  {
    var end := [QUOTE] + t;
    if x == [] {
      assert EscapeAll(x) + end == end && end[1..] == t;
    } else {
      var rest := EscapeAll(x[1..]) + end;
      assert EscapeAll(x) + end == EscapeByte(x[0]) + rest;
      TurnReadsByte(lenient, x[0], rest);
      BodyTurn(lenient, EscapeByte(x[0]) + rest, Some(([x[0]], rest)));
      BodyReadsEscaped(lenient, x[1..], t);
      assert [x[0]] + x[1..] == x;
    }
  }

  lemma Opens(lenient: bool, s: ByteString, rest: ByteString)
    requires s == [QUOTE] + rest
    ensures ParseString(lenient, s) == Body(lenient, rest)
  {
    assert s[1..] == rest;
  }

  /** Both readers return a printed string unchanged, whatever bytes it holds and whatever follows. */
  lemma StringRoundTrip(lenient: bool, x: ByteString, t: ByteString)
    ensures ParseString(lenient, Quoted(x) + t) == Some((x, t))
  {
    BodyReadsEscaped(lenient, x, t);
    Opens(lenient, Quoted(x) + t, EscapeAll(x) + ([QUOTE] + t));
  }
}
