/** The artifact metadata as JSON text (src/artifact/metadata.cpp:34-301): printer, parser, and their round trip. */
module Metadata {
  import opened Bytes
  import opened JsonString

  type Properties = map<ByteString, ByteString>

  datatype Metadata = Metadata(modelName: ByteString, quantScheme: ByteString, tokenizerType: ByteString,
                               properties: Properties)

  const COLON: byte := 58
  const COMMA: byte := 44
  const OPEN: byte := 123
  const CLOSE: byte := 125

  /** The members of the top-level object; any other key is skipped. */
  datatype Field = ModelName | QuantScheme | TokenizerType | PropertiesField | Unknown

  function Name(f: Field): ByteString {
    match f
    case ModelName => Ascii("model_name")
    case QuantScheme => Ascii("quant_scheme")
    case TokenizerType => Ascii("tokenizer_type")
    case PropertiesField => Ascii("properties")
    case Unknown => []
  }

  function FieldOf(key: ByteString): Field {
    if key == Name(ModelName) then ModelName
    else if key == Name(QuantScheme) then QuantScheme
    else if key == Name(TokenizerType) then TokenizerType
    else if key == Name(PropertiesField) then PropertiesField
    else Unknown
  }

  lemma NamesDiffer(f: Field)
    requires f != Unknown
    ensures FieldOf(Name(f)) == f
  {
    assert Name(ModelName)[0] == 109 && Name(PropertiesField)[0] == 112;
  }

  // ---------------------------------------------------------------- what the parser computes

  predicate IsSpace(b: byte) { b == 32 || 9 <= b <= 13 }

  function SkipSpace(s: ByteString): (r: ByteString)
    ensures |r| <= |s| && (r == [] || !IsSpace(r[0]))
  {
    if s == [] || !IsSpace(s[0]) then s else SkipSpace(s[1..])
  }

  /** Members of the properties object, up to its closing brace. */
  function Entries(s: ByteString, props: Properties): (r: Parsed<Properties>)
    ensures r.Some? ==> |r.value.1| < |s|
    decreases |s|
  {
    var s := SkipSpace(s);
    if Starts(s, CLOSE) then Some((props, s[1..]))
    else
      var k := ParseString(false, s);
      if k.None? then None
      else
        var s := SkipSpace(k.value.1);
        if !Starts(s, COLON) then None
        else
          var v := ParseString(false, SkipSpace(s[1..]));
          if v.None? then None
          else
            var props := props[k.value.0 := v.value.0];
            var s := SkipSpace(v.value.1);
            if Starts(s, COMMA) then Entries(s[1..], props)
            else if Starts(s, CLOSE) then Some((props, s[1..]))
            else None
  }

  function ParseProperties(s: ByteString, props: Properties): (r: Parsed<Properties>)
    ensures r.Some? ==> |r.value.1| < |s|
  {
    var s := SkipSpace(s);
    if Starts(s, OPEN) then Entries(s[1..], props) else None
  }

  /** To the end of a nested value: brackets of one kind are counted, strings are skipped as strings. */
  function SkipNested(s: ByteString, open: byte, close: byte, depth: nat): (r: Option<ByteString>)
    ensures r.Some? ==> |r.value| <= |s|
    decreases |s|
  {
    if depth == 0 then Some(s)
    else if s == [] then None
    else if s[0] == open then SkipNested(s[1..], open, close, depth + 1)
    else if s[0] == close then SkipNested(s[1..], open, close, depth - 1)
    else if s[0] == QUOTE then
      var q := ParseString(false, s);
      if q.None? then None else SkipNested(q.value.1, open, close, depth)
    else SkipNested(s[1..], open, close, depth)
  }

  function SkipScalar(s: ByteString): (r: ByteString)
    ensures |r| <= |s|
  {
    if s == [] || s[0] == 44 || s[0] == 125 || s[0] == 93 || IsSpace(s[0]) then s else SkipScalar(s[1..])
  }

  function SkipValue(s: ByteString): (r: Option<ByteString>)
    ensures r.Some? ==> |r.value| <= |s|
  {
    var s := SkipSpace(s);
    if Starts(s, QUOTE) then
      var q := ParseString(false, s);
      if q.None? then None else Some(q.value.1)
    else if Starts(s, OPEN) then SkipNested(s[1..], 123, 125, 1)
    else if Starts(s, 91) then SkipNested(s[1..], 91, 93, 1)
    else Some(SkipScalar(s))
  }

  /** The value of a member, stored where its key says. */
  function Value(f: Field, s: ByteString, m: Metadata): (r: Parsed<Metadata>)
    ensures r.Some? ==> |r.value.1| <= |s|
  {
    match f
    case PropertiesField =>
      var p := ParseProperties(s, m.properties);
      if p.None? then None else Some((m.(properties := p.value.0), p.value.1))
    case Unknown =>
      var r := SkipValue(s);
      if r.None? then None else Some((m, r.value))
    case _ =>
      var x := ParseString(false, s);
      if x.None? then None
      else Some((Store(f, x.value.0, m), x.value.1))
  }

  function Store(f: Field, x: ByteString, m: Metadata): Metadata {
    match f
    case ModelName => m.(modelName := x)
    case QuantScheme => m.(quantScheme := x)
    case TokenizerType => m.(tokenizerType := x)
    case _ => m
  }

  /** Members of the top-level object, up to its closing brace. */
  function Members(s: ByteString, m: Metadata): (r: Parsed<Metadata>)
    ensures r.Some? ==> |r.value.1| < |s|
    decreases |s|
  {
    var s := SkipSpace(s);
    if Starts(s, CLOSE) then Some((m, s[1..]))
    else
      var k := ParseString(false, s);
      if k.None? then None
      else
        var s := SkipSpace(k.value.1);
        if !Starts(s, COLON) then None
        else
          var v := Value(FieldOf(k.value.0), SkipSpace(s[1..]), m);
          if v.None? then None
          else
            var s := SkipSpace(v.value.1);
            if Starts(s, COMMA) then Members(s[1..], v.value.0)
            else if Starts(s, CLOSE) then Some((v.value.0, s[1..]))
            else None
  }

  function Parse(s: ByteString, m: Metadata): Parsed<Metadata> {
    var s := SkipSpace(s);
    if Starts(s, OPEN) then Members(s[1..], m) else None
  }

  const EMPTY := Metadata([], [], [], map[])

  /** `from_json`: whatever follows the object is ignored. */
  function FromJson(s: ByteString): Option<Metadata> {
    var r := Parse(s, EMPTY);
    if r.None? then None else Some(r.value.0)
  }

  // ---------------------------------------------------------------- what the printer writes

  /** A literal key between quotes. */
  function Key(f: Field): ByteString { [QUOTE] + Name(f) + [QUOTE] }

  /** Colon and blank, then `after`. */
  function Colon(after: ByteString): ByteString { [COLON, 32] + after }

  /** A member on a line of its own, then `after`. */
  function Member(f: Field, value: ByteString, after: ByteString): ByteString {
    [10, 32, 32] + (Key(f) + Colon(value + after))
  }

  /** The properties, each on a line of its own, up to the closing brace, then `after`. */
  function EntriesText(es: seq<(ByteString, ByteString)>, after: ByteString): ByteString
    requires es != []
  {
    [10, 32, 32, 32, 32] + (Quoted(es[0].0) + Colon(Quoted(es[0].1) +
      if |es| == 1 then [10, 32, 32, CLOSE] + after else [COMMA] + EntriesText(es[1..], after)))
  }

  function PropertiesText(es: seq<(ByteString, ByteString)>, after: ByteString): ByteString {
    [OPEN] + if es == [] then [10, 10, 32, 32, CLOSE] + after else EntriesText(es, after)
  }

  /** `to_json`, with the properties in the order in which the map is walked. */
  function Text(m: Metadata, es: seq<(ByteString, ByteString)>): ByteString {
    [OPEN] + Member(ModelName, Quoted(m.modelName), [COMMA] +
      Member(QuantScheme, Quoted(m.quantScheme), [COMMA] +
        Member(TokenizerType, Quoted(m.tokenizerType), [COMMA] +
          Member(PropertiesField, PropertiesText(es, []), [10, CLOSE]))))
  }

  // ---------------------------------------------------------------- round trip

  ghost predicate AllSpace(ws: ByteString) { forall i :: 0 <= i < |ws| ==> IsSpace(ws[i]) }

  lemma {:induction false} SkipTo(ws: ByteString, s: ByteString)
    requires AllSpace(ws) && (s == [] || !IsSpace(s[0]))
    ensures SkipSpace(ws + s) == s
  {
    if ws == [] {
      assert ws + s == s;
    } else {
      assert (ws + s)[1..] == ws[1..] + s;
      SkipTo(ws[1..], s);
    }
  }

  lemma NamesArePlain(f: Field)
    ensures Plain(Name(f))
  {
  }

  lemma KeyIsQuoted(f: Field)
    ensures Key(f) == Quoted(Name(f))
  {
    NamesArePlain(f);
    PlainEscapes(Name(f));
  }

  lemma ColonReads(after: ByteString)
    requires after != [] && !IsSpace(after[0])
    ensures var rest := Colon(after);
      SkipSpace(rest) == rest && Starts(rest, COLON) && SkipSpace(rest[1..]) == after
  {
    assert Colon(after)[1..] == [32] + after;
    SkipTo([32], after);
  }

  /** Indentation, a printed string, a colon and a blank: the reader stands at what comes after. */
  lemma LabelReads(ws: ByteString, x: ByteString, after: ByteString)
    requires AllSpace(ws) && after != [] && !IsSpace(after[0])
    ensures var s := SkipSpace(ws + (Quoted(x) + Colon(after)));
      && !Starts(s, CLOSE) && ParseString(false, s) == Some((x, Colon(after)))
  {
    SkipTo(ws, Quoted(x) + Colon(after));
    StringRoundTrip(false, x, Colon(after));
  }

  /** A comma or a closing brace after blanks. */
  ghost predicate Ends(tail: ByteString, sep: byte, t: ByteString) {
    SkipSpace(tail) == [sep] + t && (sep == COMMA || sep == CLOSE)
  }

  lemma EndsAt(ws: ByteString, sep: byte, t: ByteString)
    requires AllSpace(ws) && (sep == COMMA || sep == CLOSE)
    ensures Ends(ws + ([sep] + t), sep, t) && ([sep] + t)[1..] == t
  {
    SkipTo(ws, [sep] + t);
  }

  lemma QuotedThen(v: ByteString, tail: ByteString)
    ensures Quoted(v) + tail != [] && !IsSpace((Quoted(v) + tail)[0])
  {
  }

  /** One property. */
  lemma EntryReads(ws: ByteString, k: ByteString, v: ByteString, tail: ByteString, sep: byte, t: ByteString, props: Properties)
    requires AllSpace(ws) && Ends(tail, sep, t)
    ensures var props' := props[k := v];
      Entries(ws + (Quoted(k) + Colon(Quoted(v) + tail)), props) ==
        if sep == COMMA then Entries(t, props') else Some((props', t))
  {
    QuotedThen(v, tail);
    LabelReads(ws, k, Quoted(v) + tail);
    ColonReads(Quoted(v) + tail);
    StringRoundTrip(false, v, tail);
    assert ([sep] + t)[1..] == t;
  }

  function AddAll(props: Properties, es: seq<(ByteString, ByteString)>): Properties
    decreases |es|
  {
    if es == [] then props else AddAll(props[es[0].0 := es[0].1], es[1..])
  }

  /** The printed properties are read back. */
  lemma {:induction false} EntriesRead(es: seq<(ByteString, ByteString)>, after: ByteString, props: Properties)
    requires es != []
    ensures Entries(EntriesText(es, after), props) == Some((AddAll(props, es), after))
    decreases |es|
  {
    var k, v := es[0].0, es[0].1;
    var ws := [10, 32, 32, 32, 32];
    if |es| == 1 {
      var tail := [10, 32, 32, CLOSE] + after;
      assert tail == [10, 32, 32] + ([CLOSE] + after);
      EndsAt([10, 32, 32], CLOSE, after);
      EntryReads(ws, k, v, tail, CLOSE, after, props);
      assert es[1..] == [];
    } else {
      var next := EntriesText(es[1..], after);
      assert [COMMA] + next == [] + ([COMMA] + next);
      EndsAt([], COMMA, next);
      EntryReads(ws, k, v, [COMMA] + next, COMMA, next, props);
      EntriesRead(es[1..], after, props[k := v]);
    }
  }

  lemma PropertiesRead(es: seq<(ByteString, ByteString)>, after: ByteString, props: Properties)
    ensures ParseProperties(PropertiesText(es, after), props) == Some((AddAll(props, es), after))
  {
    if es == [] {
      var rest := [10, 10, 32, 32, CLOSE] + after;
      assert rest == [10, 10, 32, 32] + ([CLOSE] + after);
      SkipTo([10, 10, 32, 32], [CLOSE] + after);
      assert ([CLOSE] + after)[1..] == after;
      assert PropertiesText(es, after)[1..] == rest;
    } else {
      EntriesRead(es, after, props);
      assert PropertiesText(es, after)[1..] == EntriesText(es, after);
    }
  }

  /** One member of the top-level object. */
  lemma MemberReads(f: Field, value: ByteString, tail: ByteString, sep: byte, t: ByteString, m: Metadata, m': Metadata)
    requires f != Unknown && value + tail != [] && !IsSpace((value + tail)[0])
    requires Value(f, value + tail, m) == Some((m', tail)) && Ends(tail, sep, t)
    ensures Members(Member(f, value, tail), m) == if sep == COMMA then Members(t, m') else Some((m', t))
  {
    KeyIsQuoted(f);
    NamesDiffer(f);
    LabelReads([10, 32, 32], Name(f), value + tail);
    ColonReads(value + tail);
    assert ([sep] + t)[1..] == t;
  }

  /** A string member that another member follows. */
  lemma StringMemberReads(f: Field, x: ByteString, t: ByteString, m: Metadata)
    requires f == ModelName || f == QuantScheme || f == TokenizerType
    ensures Members(Member(f, Quoted(x), [COMMA] + t), m) == Members(t, Store(f, x, m))
  {
    var tail := [COMMA] + t;
    StringRoundTrip(false, x, tail);
    QuotedThen(x, tail);
    assert [] + ([COMMA] + t) == tail;
    EndsAt([], COMMA, t);
    MemberReads(f, Quoted(x), tail, COMMA, t, m, Store(f, x, m));
  }

  lemma {:induction false} EntriesTextThen(es: seq<(ByteString, ByteString)>, after: ByteString, tail: ByteString)
    requires es != []
    ensures EntriesText(es, after) + tail == EntriesText(es, after + tail)
    decreases |es|
  {
    if |es| > 1 { EntriesTextThen(es[1..], after, tail); }
  }

  lemma PropertiesTextThen(es: seq<(ByteString, ByteString)>, tail: ByteString)
    ensures PropertiesText(es, []) + tail == PropertiesText(es, tail)
  {
    assert [] + tail == tail;
    if es != [] { EntriesTextThen(es, [], tail); }
  }

  lemma PropertiesMemberReads(es: seq<(ByteString, ByteString)>, m: Metadata)
    ensures Members(Member(PropertiesField, PropertiesText(es, []), [10, CLOSE]), m) ==
      Some((m.(properties := AddAll(m.properties, es)), []))
  {
    var tail := [10, CLOSE];
    PropertiesTextThen(es, tail);
    PropertiesRead(es, tail, m.properties);
    assert tail == [10] + ([CLOSE] + []);
    EndsAt([10], CLOSE, []);
    MemberReads(PropertiesField, PropertiesText(es, []), tail, CLOSE, [], m, m.(properties := AddAll(m.properties, es)));
  }

  /** The entries list every property: what walking the map does. */
  ghost predicate Walks(es: seq<(ByteString, ByteString)>, props: Properties) {
    && (forall i :: 0 <= i < |es| ==> es[i].0 in props && props[es[i].0] == es[i].1)
    && (forall k :: k in props ==> exists i :: 0 <= i < |es| && es[i].0 == k)
  }

  lemma {:induction false} AddAllHas(props: Properties, es: seq<(ByteString, ByteString)>, all: Properties)
    requires forall k :: k in props ==> k in all && all[k] == props[k]
    requires forall i :: 0 <= i < |es| ==> es[i].0 in all && all[es[i].0] == es[i].1
    ensures forall k :: k in AddAll(props, es) ==> k in all && all[k] == AddAll(props, es)[k]
    ensures forall k :: k in props ==> k in AddAll(props, es)
    ensures forall i :: 0 <= i < |es| ==> es[i].0 in AddAll(props, es)
    decreases |es|
  {
    if es != [] {
      AddAllHas(props[es[0].0 := es[0].1], es[1..], all);
      assert forall i :: 0 < i < |es| ==> es[i] == es[1..][i - 1];
    }
  }

  lemma AddAllIsAll(es: seq<(ByteString, ByteString)>, all: Properties)
    requires Walks(es, all)
    ensures AddAll(map[], es) == all
  {
    AddAllHas(map[], es, all);
  }

  /** Printed metadata is read back unchanged, in whatever order the properties were printed. */
  lemma MetadataRoundTrip(m: Metadata, es: seq<(ByteString, ByteString)>)
    requires Walks(es, m.properties)
    ensures FromJson(Text(m, es)) == Some(m)
  {
    var fourth := Member(PropertiesField, PropertiesText(es, []), [10, CLOSE]);
    var third := Member(TokenizerType, Quoted(m.tokenizerType), [COMMA] + fourth);
    var second := Member(QuantScheme, Quoted(m.quantScheme), [COMMA] + third);
    var first := Member(ModelName, Quoted(m.modelName), [COMMA] + second);
    StringMemberReads(ModelName, m.modelName, second, EMPTY);
    var m1 := Store(ModelName, m.modelName, EMPTY);
    StringMemberReads(QuantScheme, m.quantScheme, third, m1);
    var m2 := Store(QuantScheme, m.quantScheme, m1);
    StringMemberReads(TokenizerType, m.tokenizerType, fourth, m2);
    PropertiesMemberReads(es, Store(TokenizerType, m.tokenizerType, m2));
    AddAllIsAll(es, m.properties);
    ParseObject(first, EMPTY);
  }

  lemma ParseObject(members: ByteString, m: Metadata)
    ensures Parse([OPEN] + members, m) == Members(members, m)
  {
    assert ([OPEN] + members)[1..] == members;
  }
}
