/** The loops behind the metadata text (src/artifact/metadata.cpp:34-301): a printer that appends, a parser with a cursor. */
module MetadataIO {
  import opened Bytes
  import opened JsonString
  import opened Metadata

  // ---------------------------------------------------------------- printing

  /** Indentation, key, colon and blank. */
  method PrintLabel(out: ByteString, f: Field, ghost after: ByteString) returns (r: ByteString)
    ensures r + after == out + ([10, 32, 32] + (Key(f) + Colon(after)))
  {
    r := out + [10, 32, 32];
    Assoc(out, [10, 32, 32], Key(f) + Colon(after));
    Assoc(r, Key(f), Colon(after));
    r := r + Key(f);
    Assoc(r, [COLON, 32], after);
    r := r + [COLON, 32];
  }

  method PrintString(out: ByteString, x: ByteString, ghost after: ByteString) returns (r: ByteString)
    ensures r + after == out + (Quoted(x) + after)
  {
    r := EscapeJsonString(out, x);
    Assoc(out, Quoted(x), after);
  }

  /** A string member and the comma after it. */
  method PrintMember(out: ByteString, f: Field, x: ByteString, ghost after: ByteString) returns (r: ByteString)
    ensures r + after == out + Member(f, Quoted(x), [COMMA] + after)
  {
    r := PrintLabel(out, f, Quoted(x) + ([COMMA] + after));
    r := PrintString(r, x, [COMMA] + after);
    Assoc(r, [COMMA], after);
    r := r + [COMMA];
  }

  method PrintEntry(out: ByteString, k: ByteString, v: ByteString, ghost after: ByteString) returns (r: ByteString)
    ensures r + after == out + ([10, 32, 32, 32, 32] + (Quoted(k) + Colon(Quoted(v) + after)))
  {
    r := out + [10, 32, 32, 32, 32];
    Assoc(out, [10, 32, 32, 32, 32], Quoted(k) + Colon(Quoted(v) + after));
    r := PrintString(r, k, Colon(Quoted(v) + after));
    Assoc(r, [COLON, 32], Quoted(v) + after);
    r := r + [COLON, 32];
    r := PrintString(r, v, after);
  }

  /** The loop over the properties, with a comma before all but the first. */
  method PrintEntries(out: ByteString, es: seq<(ByteString, ByteString)>, ghost after: ByteString) returns (r: ByteString)
    requires es != []
    ensures r + ([10, 32, 32, CLOSE] + after) == out + EntriesText(es, after)
  {
    ghost var end := [10, 32, 32, CLOSE] + after;
    ghost var rest := EntriesText(es, after);
    r := out;
    var i := 0;
    assert es[0..] == es;
    while i < |es|
      invariant 0 <= i <= |es|
      invariant i < |es| ==> rest == EntriesText(es[i..], after)
      invariant i == |es| ==> rest == end
      invariant r + (if 0 < i < |es| then [COMMA] + rest else rest) == out + EntriesText(es, after)
    {
      if i > 0 {
        Assoc(r, [COMMA], rest);
        r := r + [COMMA];
      }
      ghost var tail := if i + 1 == |es| then end else [COMMA] + EntriesText(es[i + 1..], after);
      assert es[i..][1..] == es[i + 1..];
      r := PrintEntry(r, es[i].0, es[i].1, tail);
      i := i + 1;
      rest := if i == |es| then end else EntriesText(es[i..], after);
    }
  }

  /** `to_json`. */
  method ToJson(m: Metadata, es: seq<(ByteString, ByteString)>) returns (r: ByteString)
    requires Walks(es, m.properties)
    ensures r == Text(m, es) && FromJson(r) == Some(m)
  {
    ghost var fourth := Member(PropertiesField, PropertiesText(es, []), [10, CLOSE]);
    ghost var third := Member(TokenizerType, Quoted(m.tokenizerType), [COMMA] + fourth);
    ghost var second := Member(QuantScheme, Quoted(m.quantScheme), [COMMA] + third);
    r := PrintMember([OPEN], ModelName, m.modelName, second);
    r := PrintMember(r, QuantScheme, m.quantScheme, third);
    r := PrintMember(r, TokenizerType, m.tokenizerType, fourth);
    r := PrintProperties(r, es);
    MetadataRoundTrip(m, es);
  }

  method PrintProperties(out: ByteString, es: seq<(ByteString, ByteString)>) returns (r: ByteString)
    ensures r == out + Member(PropertiesField, PropertiesText(es, []), [10, CLOSE])
  {
    ghost var tail := [10, CLOSE];
    PropertiesTextThen(es, tail);
    r := PrintLabel(out, PropertiesField, PropertiesText(es, tail));
    if es == [] {
      Assoc(r, [OPEN], [10, 10, 32, 32, CLOSE] + tail);
      r := r + [OPEN];
      Assoc(r, [10, 10, 32, 32, CLOSE], tail);
      r := r + [10, 10, 32, 32, CLOSE];
    } else {
      Assoc(r, [OPEN], EntriesText(es, tail));
      r := r + [OPEN];
      r := PrintEntries(r, es, tail);
      Assoc(r, [10, 32, 32, CLOSE], tail);
      r := r + [10, 32, 32, CLOSE];
    }
    r := r + [10, CLOSE];
  }

  // ---------------------------------------------------------------- parsing

  class JsonParser {
    const input: ByteString
    var pos: nat

    ghost predicate Valid()
      reads this
    {
      pos <= |input|
    }

    /** What is left to read. */
    ghost function Rest(): ByteString
      requires Valid()
      reads this
    {
      input[pos..]
    }

    constructor (text: ByteString)
      ensures Valid() && Rest() == text && input == text
    {
      input, pos := text, 0;
    }

    method SkipWhitespace()
      requires Valid()
      modifies this
      ensures Valid() && Rest() == SkipSpace(old(Rest()))
    {
      ghost var all := SkipSpace(Rest());
      while pos < |input| && IsSpace(input[pos])
        invariant Valid() && SkipSpace(Rest()) == all
        decreases |input| - pos
      {
        assert input[pos..][1..] == input[pos + 1..];
        pos := pos + 1;
      }
    }

    method Consume(b: byte) returns (ok: bool)
      requires Valid()
      modifies this
      ensures Valid() && ok == Starts(old(Rest()), b)
      ensures Rest() == if ok then old(Rest())[1..] else old(Rest())
    {
      ok := pos < |input| && input[pos] == b;
      if ok { pos := pos + 1; }
    }

    method ReadString() returns (ok: bool, out: ByteString)
      requires Valid()
      modifies this
      ensures Valid() && ParseString(false, old(Rest())) == if ok then Some((out, Rest())) else None
    {
      ok, out, pos := ParseStringAt(false, input, pos);
    }

    /** A string, blanks, a colon and blanks: the key of a member. */
    method ReadKey() returns (ok: bool, key: ByteString)
      requires Valid()
      modifies this
      ensures Valid()
      ensures var k := ParseString(false, old(Rest()));
        ok == (k.Some? && Starts(SkipSpace(k.value.1), COLON))
      ensures ok ==>
        var k := ParseString(false, old(Rest())).value;
        key == k.0 && Rest() == SkipSpace(SkipSpace(k.1)[1..])
    {
      ok, key := ReadString();
      if !ok { return; }
      SkipWhitespace();
      ok := Consume(COLON);
      if !ok { return; }
      SkipWhitespace();
    }

    method ReadProperties(start: Properties) returns (ok: bool, props: Properties)
      requires Valid()
      modifies this
      ensures Valid() && ParseProperties(old(Rest()), start) == if ok then Some((props, Rest())) else None
    {
      props := start;
      SkipWhitespace();
      ok := Consume(OPEN);
      if !ok { return; }
      ghost var all := Entries(Rest(), start);
      while true
        invariant Valid() && Entries(Rest(), props) == all
        decreases |input| - pos
      {
        var more;
        ok, props, more := ReadEntry(props);
        if !ok || !more { return; }
      }
    }

    /** One turn of the loop over the properties. */
    method ReadEntry(start: Properties) returns (ok: bool, props: Properties, more: bool)
      requires Valid()
      modifies this
      ensures Valid()
      ensures ok && more ==> |Rest()| < |old(Rest())| && Entries(old(Rest()), start) == Entries(Rest(), props)
      ensures ok && !more ==> Entries(old(Rest()), start) == Some((props, Rest()))
      ensures !ok ==> Entries(old(Rest()), start) == None
    {
      props, more := start, false;
      SkipWhitespace();
      ok := Consume(CLOSE);
      if ok { return; }
      var k, v;
      ok, k := ReadKey();
      if !ok { return; }
      ok, v := ReadString();
      if !ok { return; }
      props := props[k := v];
      SkipWhitespace();
      more := Consume(COMMA);
      if !more { ok := Consume(CLOSE); }
    }

    method SkipOver(open: byte, close: byte) returns (ok: bool)
      requires Valid() && open != close && open != QUOTE && close != QUOTE
      modifies this
      ensures Valid() && SkipNested(old(Rest()), open, close, 1) == if ok then Some(Rest()) else None
    {
      var depth: nat := 1;
      ghost var all := SkipNested(Rest(), open, close, 1);
      while depth > 0 && pos < |input|
        invariant Valid() && SkipNested(Rest(), open, close, depth) == all
        decreases |input| - pos
      {
        assert input[pos..][1..] == input[pos + 1..];
        if input[pos] == open {
          depth, pos := depth + 1, pos + 1;
        } else if input[pos] == close {
          depth, pos := depth - 1, pos + 1;
        } else if input[pos] == QUOTE {
          var skipped;
          ok, skipped := ReadString();
          if !ok { return; }
        } else {
          pos := pos + 1;
        }
      }
      ok := depth == 0;
    }

    method SkipAValue() returns (ok: bool)
      requires Valid()
      modifies this
      ensures Valid() && SkipValue(old(Rest())) == if ok then Some(Rest()) else None
    {
      SkipWhitespace();
      var c := if pos < |input| then input[pos] else 0;
      if c == QUOTE {
        var skipped;
        ok, skipped := ReadString();
      } else if c == OPEN {
        pos := pos + 1;
        ok := SkipOver(123, 125);
      } else if c == 91 {
        pos := pos + 1;
        ok := SkipOver(91, 93);
      } else {
        ghost var all := SkipScalar(Rest());
        while pos < |input| && input[pos] != 44 && input[pos] != 125 && input[pos] != 93 && !IsSpace(input[pos])
          invariant Valid() && SkipScalar(Rest()) == all
          decreases |input| - pos
        {
          assert input[pos..][1..] == input[pos + 1..];
          pos := pos + 1;
        }
        ok := true;
      }
    }

    method ReadValue(f: Field, start: Metadata) returns (ok: bool, m: Metadata)
      requires Valid()
      modifies this
      ensures Valid() && Value(f, old(Rest()), start) == if ok then Some((m, Rest())) else None
    {
      m := start;
      match f
      case PropertiesField =>
        var props;
        ok, props := ReadProperties(m.properties);
        m := m.(properties := props);
      case Unknown =>
        ok := SkipAValue();
      case _ =>
        var x;
        ok, x := ReadString();
        m := Store(f, x, m);
    }

    /** One turn of the loop over the members. */
    method ReadMember(start: Metadata) returns (ok: bool, m: Metadata, more: bool)
      requires Valid()
      modifies this
      ensures Valid()
      ensures ok && more ==> |Rest()| < |old(Rest())| && Members(old(Rest()), start) == Members(Rest(), m)
      ensures ok && !more ==> Members(old(Rest()), start) == Some((m, Rest()))
      ensures !ok ==> Members(old(Rest()), start) == None
    {
      m, more := start, false;
      SkipWhitespace();
      ok := Consume(CLOSE);
      if ok { return; }
      var k;
      ok, k := ReadKey();
      if !ok { return; }
      ok, m := ReadValue(FieldOf(k), m);
      if !ok { return; }
      SkipWhitespace();
      more := Consume(COMMA);
      if !more { ok := Consume(CLOSE); }
    }

    method ReadMetadata(start: Metadata) returns (ok: bool, m: Metadata)
      requires Valid()
      modifies this
      ensures Valid() && Parse(old(Rest()), start) == if ok then Some((m, Rest())) else None
    {
      m := start;
      SkipWhitespace();
      ok := Consume(OPEN);
      if !ok { return; }
      ghost var all := Members(Rest(), start);
      while true
        invariant Valid() && Members(Rest(), m) == all
        decreases |input| - pos
      {
        var more;
        ok, m, more := ReadMember(m);
        if !ok || !more { return; }
      }
    }
  }

  /** `from_json`. */
  method ReadJson(text: ByteString) returns (m: Option<Metadata>)
    ensures m == FromJson(text)
  {
    var parser := new JsonParser(text);
    var ok, meta := parser.ReadMetadata(EMPTY);
    m := if ok then Some(meta) else None;
  }
}
