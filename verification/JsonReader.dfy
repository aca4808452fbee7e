/** The server's JSON parser as it runs: a cursor into the input, and methods that call one another (src/serve/protocol.cpp:69-338). */
module JsonReader {
  import opened Bytes
  import opened JsonString
  import opened Json

  lemma {:induction false} SkipTwice(s: ByteString)
    ensures Skip(Skip(s)) == Skip(s)
  {
    if s != [] && IsBlank(s[0]) { SkipTwice(s[1..]); }
  }

  /** Values already read, in front of those still to come. */
  function Put<T>(first: seq<T>, r: Parsed<seq<T>>): Parsed<seq<T>> {
    if r.None? then None else Some((first + r.value.0, r.value.1))
  }

  lemma PutTwice<T>(a: seq<T>, b: seq<T>, r: Parsed<seq<T>>)
    ensures Put(a, Put(b, r)) == Put(a + b, r)
  {
    if r.Some? { assert a + (b + r.value.0) == a + b + r.value.0; }
  }

  lemma NothingFirst<T>(r: Parsed<seq<T>>)
    ensures Put([], r) == r
  {
    if r.Some? { assert [] + r.value.0 == r.value.0; }
  }

  lemma MembersSkip(s: ByteString)
    ensures Members(Skip(s)) == Members(s)
  {
    SkipTwice(s);
    assert Member(Skip(s)) == Member(s);
  }

  lemma ValueSkip(s: ByteString)
    ensures ParseValue(Skip(s)) == ParseValue(s) && (Skip(s) == [] ==> ParseValue(s).None?)
  {
    SkipTwice(s);
  }

  lemma ElementsSkip(s: ByteString)
    ensures Elements(Skip(s)) == Elements(s)
  {
    SkipTwice(s);
    assert ParseValue(Skip(s)) == ParseValue(s);
  }

  /** What `ParseValue` makes of the text after an opening brace. */
  function ObjectAfterBrace(s: ByteString): Parsed<Json> {
    var closed := Consume(s, 125);
    if closed.Some? then Some((Obj([]), closed.value))
    else
      var r := Members(s);
      if r.None? then None else Some((Obj(r.value.0), r.value.1))
  }

  function ArrayAfterBracket(s: ByteString): Parsed<Json> {
    var closed := Consume(s, 93);
    if closed.Some? then Some((Arr([]), closed.value))
    else
      var r := Elements(s);
      if r.None? then None else Some((Arr(r.value.0), r.value.1))
  }

  /** The run of digits from `start` on. */
  method SkipDigits(input: ByteString, start: nat) returns (pos: nat)
    requires start <= |input|
    ensures start <= pos <= |input| && pos == start + Digits(input[start..])
  {
    pos := start;
    while pos < |input| && IsDigit(input[pos])
      invariant start <= pos <= |input| && pos + Digits(input[pos..]) == start + Digits(input[start..])
      decreases |input| - pos
    {
      assert input[pos..][1..] == input[pos + 1..];
      pos := pos + 1;
    }
  }

  lemma SliceSlice(input: ByteString, start: nat, k: nat)
    requires start + k <= |input|
    ensures input[start..][k..] == input[start + k..]
  {
  }

  lemma SlicePrefix(input: ByteString, start: nat, end: nat)
    requires start <= end <= |input|
    ensures input[start..][..end - start] == input[start..end]
  {
  }

  /** The end of the number at `start`, which is `start` if there is none. */
  method NumberEnd(input: ByteString, start: nat) returns (pos: nat)
    requires start <= |input|
    ensures start <= pos <= |input| && pos == start + NumberLength(input[start..])
  {
    pos := start;
    if pos < |input| && input[pos] == 45 { pos := pos + 1; }
    SliceSlice(input, start, pos - start);
    if pos >= |input| || !IsDigit(input[pos]) { return start; }
    pos := SkipDigits(input, pos);
    pos := TailEndAt(input, start, pos);
  }

  method TailEndAt(input: ByteString, start: nat, from: nat) returns (pos: nat)
    requires start <= from <= |input|
    ensures from <= pos <= |input| && pos == start + TailEnd(input[start..], from - start)
  {
    SliceSlice(input, start, from - start);
    pos := FractionEnd(input, from);
    SliceSlice(input, start, pos - start);
    pos := ExponentEnd(input, pos);
  }

  method FractionEnd(input: ByteString, start: nat) returns (pos: nat)
    requires start <= |input|
    ensures start <= pos <= |input| && pos == start + Fraction(input[start..])
  {
    pos := start;
    if pos < |input| && input[pos] == 46 {
      assert input[start..][1..] == input[start + 1..];
      pos := SkipDigits(input, pos + 1);
    }
  }

  method ExponentEnd(input: ByteString, start: nat) returns (pos: nat)
    requires start <= |input|
    ensures start <= pos <= |input| && pos == start + Exponent(input[start..])
  {
    pos := start;
    if pos < |input| && (input[pos] == 101 || input[pos] == 69) {
      assert input[start..][1..] == input[start + 1..];
      pos := pos + 1;
      if pos < |input| && (input[pos] == 43 || input[pos] == 45) {
        assert input[start..][2..] == input[start + 2..];
        pos := pos + 1;
      }
      pos := SkipDigits(input, pos);
    }
  }

  class Parser {
    const input: ByteString
    var pos: nat

    ghost predicate Valid()
      reads this
    {
      pos <= |input|
    }

    ghost function Rest(): ByteString
      requires Valid()
      reads this
    {
      input[pos..]
    }

    constructor (text: ByteString)
      ensures Valid() && Rest() == text && input == text
    {
      input, pos := text, 0;
    }

    method SkipWhitespace()
      requires Valid()
      modifies this
      ensures Valid() && Rest() == Skip(old(Rest())) && pos >= old(pos)
    {
      ghost var all := Skip(Rest());
      while pos < |input| && IsBlank(input[pos])
        invariant Valid() && Skip(Rest()) == all && pos >= old(pos)
        decreases |input| - pos
      {
        assert input[pos..][1..] == input[pos + 1..];
        pos := pos + 1;
      }
    }

    method ConsumeByte(b: byte) returns (ok: bool)
      requires Valid()
      modifies this
      ensures Valid() && ok == Consume(old(Rest()), b).Some? && pos >= old(pos)
      ensures ok ==> Rest() == Consume(old(Rest()), b).value && pos > old(pos)
      ensures !ok ==> Rest() == Skip(old(Rest()))
    {
      SkipWhitespace();
      ok := pos < |input| && input[pos] == b;
      if ok {
        assert input[pos..][1..] == input[pos + 1..];
        pos := pos + 1;
      }
    }

    /** The word at the cursor, if it is this one. */
    method ReadWord(word: ByteString) returns (ok: bool)
      requires Valid()
      modifies this
      ensures Valid() && pos >= old(pos) && ok == Has(old(Rest()), word)
      ensures Rest() == if ok then old(Rest())[|word|..] else old(Rest())
    {
      ok := pos + |word| <= |input| && input[pos..pos + |word|] == word;
      assert pos + |word| <= |input| ==> input[pos..][..|word|] == input[pos..pos + |word|];
      if ok {
        assert input[pos..][|word|..] == input[pos + |word|..];
        pos := pos + |word|;
      }
    }

    method ReadScalar() returns (ok: bool, v: Json)
      requires Valid()
      modifies this
      ensures Valid() && pos >= old(pos) && ParseScalar(old(Rest())) == if ok then Some((v, Rest())) else None
    {
      v := Null;
      if pos >= |input| { return false, v; }
      var c := input[pos];
      if c == QUOTE {
        var s;
        ok, s, pos := ParseStringAt(true, input, pos);
        v := Str(s);
      } else if c == 116 || c == 102 {
        ok := ReadWord([116, 114, 117, 101]);
        v := Bool(ok);
        if !ok { ok := ReadWord([102, 97, 108, 115, 101]); }
      } else if c == 110 {
        ok := ReadWord([110, 117, 108, 108]);
      } else if c == 45 || IsDigit(c) {
        ok, v := ReadNumber();
      } else {
        ok := false;
      }
    }

    method ReadNumber() returns (ok: bool, v: Json)
      requires Valid()
      modifies this
      ensures Valid() && pos >= old(pos)
      ensures var n := NumberLength(old(Rest()));
        ok == (n > 0) && v == Num(old(Rest())[..n]) && Rest() == old(Rest())[n..]
    {
      var end := NumberEnd(input, pos);
      ok, v := end > pos, Num(input[pos..end]);
      SliceSlice(input, pos, end - pos);
      SlicePrefix(input, pos, end);
      pos := end;
    }

    method ReadValue() returns (ok: bool, v: Json)
      requires Valid()
      modifies this
      ensures Valid() && ParseValue(old(Rest())) == if ok then Some((v, Rest())) else None
      ensures pos >= old(pos) && (ok ==> pos > old(pos))
      decreases |input| - pos, 1
    {
      v := Null;
      SkipWhitespace();
      if pos < |input| && input[pos] == 123 {
        pos := pos + 1;
        assert input[pos - 1..][1..] == input[pos..];
        ok, v := ReadObject();
      } else if pos < |input| && input[pos] == 91 {
        pos := pos + 1;
        assert input[pos - 1..][1..] == input[pos..];
        ok, v := ReadArray();
      } else {
        ok, v := ReadScalar();
      }
    }

    /** After the opening brace. */
    method ReadObject() returns (ok: bool, v: Json)
      requires Valid()
      modifies this
      ensures Valid() && pos >= old(pos)
      ensures ObjectAfterBrace(old(Rest())) == if ok then Some((v, Rest())) else None
      decreases |input| - pos, 4
    {
      v := Obj([]);
      ok := ConsumeByte(125);
      if ok { return; }
      MembersSkip(old(Rest()));
      var members := [];
      ghost var all := Members(Rest());
      NothingFirst(all);
      while true
        invariant Valid() && pos >= old(pos) && v == Obj([]) && all == Put(members, Members(Rest()))
        decreases |input| - pos
      {
        var m, more;
        ok, m, more := ReadMembersTurn();
        if !ok { return; }
        PutTwice(members, [m], Members(Rest()));
        members := members + [m];
        if !more {
          v := Obj(members);
          return;
        }
      }
    }

    /** One member and what follows it: a comma or the closing brace. */
    method ReadMembersTurn() returns (ok: bool, m: (ByteString, Json), more: bool)
      requires Valid()
      modifies this
      ensures Valid() && pos >= old(pos) && (ok ==> pos > old(pos))
      ensures ok && more ==> Members(old(Rest())) == Put([m], Members(Rest()))
      ensures ok && !more ==> Members(old(Rest())) == Some(([m], Rest()))
      ensures !ok ==> Members(old(Rest())) == None
      decreases |input| - pos, 3
    {
      more := false;
      ok, m := ReadMember();
      if !ok { return; }
      SkipTwice(Rest());
      var closed := ConsumeByte(125);
      if closed { return; }
      more := ConsumeByte(44);
      ok := more;
    }

    method ReadMember() returns (ok: bool, m: (ByteString, Json))
      requires Valid()
      modifies this
      ensures Valid() && pos >= old(pos) && (ok ==> pos > old(pos))
      ensures Member(old(Rest())) == if ok then Some((m, Rest())) else None
      decreases |input| - pos, 2
    {
      m := ([], Null);
      SkipWhitespace();
      var key, v;
      ok, key, pos := ParseStringAt(true, input, pos);
      if !ok { return; }
      ok := ConsumeByte(58);
      if !ok { return; }
      ok, v := ReadValue();
      m := (key, v);
    }

    /** After the opening bracket. */
    method ReadArray() returns (ok: bool, v: Json)
      requires Valid()
      modifies this
      ensures Valid() && pos >= old(pos)
      ensures ArrayAfterBracket(old(Rest())) == if ok then Some((v, Rest())) else None
      decreases |input| - pos, 4
    {
      v := Arr([]);
      ok := ConsumeByte(93);
      if ok { return; }
      ElementsSkip(old(Rest()));
      var items := [];
      ghost var all := Elements(Rest());
      NothingFirst(all);
      while true
        invariant Valid() && pos >= old(pos) && v == Arr([]) && all == Put(items, Elements(Rest()))
        decreases |input| - pos
      {
        var item, more;
        ok, item, more := ReadElementsTurn();
        if !ok { return; }
        PutTwice(items, [item], Elements(Rest()));
        items := items + [item];
        if !more {
          v := Arr(items);
          return;
        }
      }
    }

    method ReadElementsTurn() returns (ok: bool, item: Json, more: bool)
      requires Valid()
      modifies this
      ensures Valid() && pos >= old(pos) && (ok ==> pos > old(pos))
      ensures ok && more ==> Elements(old(Rest())) == Put([item], Elements(Rest()))
      ensures ok && !more ==> Elements(old(Rest())) == Some(([item], Rest()))
      ensures !ok ==> Elements(old(Rest())) == None
      decreases |input| - pos, 3
    {
      more := false;
      ok, item := ReadValue();
      if !ok { return; }
      SkipTwice(Rest());
      var closed := ConsumeByte(93);
      if closed { return; }
      more := ConsumeByte(44);
      ok := more;
    }
  }

  /** `parse_json`. */
  method ReadJson(text: ByteString) returns (v: Option<Json>)
    ensures v == ParseJson(text)
  {
    var parser := new Parser(text);
    parser.SkipWhitespace();
    ValueSkip(text);
    if parser.pos >= |text| { return None; }
    var ok, j := parser.ReadValue();
    if !ok { return None; }
    parser.SkipWhitespace();
    if parser.pos < |text| { return None; }
    v := Some(j);
  }
}
