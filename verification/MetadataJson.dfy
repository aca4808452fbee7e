/**
  The printed artifact metadata is JSON: the general grammar reads it as an object of four members, the last of which holds
  the properties in the order in which they were printed (src/artifact/metadata.cpp:34-58).
 */
module MetadataJson {
  import opened Bytes
  import opened JsonString
  import opened Json
  import opened JsonGrammar
  import M = Metadata

  type Fields = seq<(ByteString, Json)>

  ghost predicate AreBlanks(ws: ByteString) { forall i :: 0 <= i < |ws| ==> ws[i] in {32, 9, 10, 13} }

  lemma Blanks(ws: ByteString, u: ByteString)
    requires AreBlanks(ws)
    ensures BlanksThen(ws + u, u)
  {
    assert (ws + u)[|ws|..] == u;
  }

  lemma QuotedIsString(lenient: bool, x: ByteString, t: ByteString)
    ensures IsString(lenient, Quoted(x) + t, x, t)
  {
    StringRoundTrip(lenient, x, t);
    StringIff(lenient, Quoted(x) + t, x, t);
  }

  lemma LabelIsName(lenient: bool, ws: ByteString, x: ByteString, v: ByteString)
    requires AreBlanks(ws)
    ensures IsName(lenient, ws + (Quoted(x) + M.Colon(v)), x, [32] + v)
  {
    var u, after := Quoted(x) + M.Colon(v), M.Colon(v);
    Blanks(ws, u);
    QuotedIsString(lenient, x, after);
    ColonIsByte(v, after);
    NameFrom(lenient, ws + u, u, x, after, [32] + v);
  }

  lemma ColonIsByte(v: ByteString, after: ByteString)
    requires after == M.Colon(v)
    ensures IsByte(after, 58, [32] + v)
  {
    assert after == [] + ([58] + ([32] + v));
    Blanks([], [58] + ([32] + v));
  }

  lemma NameFrom(lenient: bool, s: ByteString, u: ByteString, x: ByteString, after: ByteString, t: ByteString)
    requires BlanksThen(s, u) && IsString(lenient, u, x, after) && IsByte(after, 58, t)
    ensures IsName(lenient, s, x, t)
  {
  }

  lemma BareAfterBlank(lenient: bool, v: ByteString, j: Json, t: ByteString)
    requires IsBare(lenient, v, j, t)
    ensures IsValue(lenient, [32] + v, j, t)
  {
    Blanks([32], v);
  }

  /** A member whose value is written like this. */
  lemma LabelledIsMember(lenient: bool, ws: ByteString, k: ByteString, v: ByteString, j: Json, t: ByteString)
    requires AreBlanks(ws) && IsBare(lenient, v, j, t)
    ensures IsMember(lenient, ws + (Quoted(k) + M.Colon(v)), (k, j), t)
  {
    LabelIsName(lenient, ws, k, v);
    BareAfterBlank(lenient, v, j, t);
  }

  lemma QuotedIsBare(lenient: bool, x: ByteString, t: ByteString)
    ensures IsBare(lenient, Quoted(x) + t, Str(x), t)
  {
    QuotedIsString(lenient, x, t);
  }

  lemma ByteAfterBlanks(ws: ByteString, b: byte, t: ByteString)
    requires AreBlanks(ws)
    ensures IsByte(ws + ([b] + t), b, t)
  {
    Blanks(ws, [b] + t);
  }

  lemma MemberThenMore(lenient: bool, s: ByteString, m: (ByteString, Json), r: ByteString, more: ByteString, rest: Fields,
                       t: ByteString)
    requires r == [44] + more && |r| < |s| && IsMember(lenient, s, m, r) && IsMembers(lenient, more, rest, t)
    ensures IsMembers(lenient, s, [m] + rest, t)
  {
    CommaThenMore(lenient, r, m, more, rest, t);
    MemberAndRest(lenient, s, [m] + rest, r, t);
  }

  lemma MemberAndRest(lenient: bool, s: ByteString, ms: Fields, r: ByteString, t: ByteString)
    requires ms != [] && |r| < |s| && IsMember(lenient, s, ms[0], r) && AfterMember(lenient, r, ms, t)
    ensures IsMembers(lenient, s, ms, t)
  {
  }

  lemma CommaThenMore(lenient: bool, r: ByteString, m: (ByteString, Json), more: ByteString, rest: Fields, t: ByteString)
    requires r == [44] + more && IsMembers(lenient, more, rest, t)
    ensures AfterMember(lenient, r, [m] + rest, t)
  {
    ByteAfterBlanks([], 44, more);
    assert [] + r == r && ([m] + rest)[1..] == rest && |more| < |r|;
  }

  lemma MemberThenEnd(lenient: bool, s: ByteString, m: (ByteString, Json), r: ByteString, t: ByteString)
    requires |r| < |s| && IsMember(lenient, s, m, r) && IsByte(r, 125, t)
    ensures IsMembers(lenient, s, [m], t)
  {
    assert AfterMember(lenient, r, [m], t);
  }

  function Pairs(es: seq<(ByteString, ByteString)>): (r: Fields)
    ensures |r| == |es| && forall i :: 0 <= i < |r| ==> r[i] == (es[i].0, Str(es[i].1))
  {
    if es == [] then [] else [(es[0].0, Str(es[0].1))] + Pairs(es[1..])
  }

  /** A property on a line of its own, then `r`. */
  function Line(k: ByteString, x: ByteString, r: ByteString): (s: ByteString)
    ensures |r| + 1 < |s|
  {
    [10, 32, 32, 32, 32] + (Quoted(k) + M.Colon(Quoted(x) + r))
  }

  lemma LineIsMember(lenient: bool, k: ByteString, x: ByteString, r: ByteString)
    ensures IsMember(lenient, Line(k, x, r), (k, Str(x)), r)
  {
    QuotedIsBare(lenient, x, r);
    LabelledIsMember(lenient, [10, 32, 32, 32, 32], k, Quoted(x) + r, Str(x), r);
  }

  lemma LastEntry(lenient: bool, k: ByteString, x: ByteString, after: ByteString, r: ByteString)
    requires r == [10, 32, 32, 125] + after
    ensures IsMembers(lenient, Line(k, x, r), [(k, Str(x))], after)
  {
    LineIsMember(lenient, k, x, r);
    ClosingBrace(r, after);
    MemberThenEnd(lenient, Line(k, x, r), (k, Str(x)), r, after);
  }

  lemma ClosingBrace(r: ByteString, after: ByteString)
    requires r == [10, 32, 32, 125] + after
    ensures IsByte(r, 125, after)
  {
    assert r == [10, 32, 32] + ([125] + after);
    ByteAfterBlanks([10, 32, 32], 125, after);
  }

  lemma NextEntry(lenient: bool, k: ByteString, x: ByteString, r: ByteString, more: ByteString, rest: Fields, t: ByteString)
    requires r == [44] + more && IsMembers(lenient, more, rest, t)
    ensures IsMembers(lenient, Line(k, x, r), [(k, Str(x))] + rest, t)
  {
    LineIsMember(lenient, k, x, r);
    MemberThenMore(lenient, Line(k, x, r), (k, Str(x)), r, more, rest, t);
  }

  lemma TextIsLine(es: seq<(ByteString, ByteString)>, after: ByteString, r: ByteString)
    requires es != [] && r == if |es| == 1 then [10, 32, 32, 125] + after else [44] + M.EntriesText(es[1..], after)
    ensures M.EntriesText(es, after) == Line(es[0].0, es[0].1, r)
  {
  }

  lemma {:induction false} EntriesAreMembers(lenient: bool, es: seq<(ByteString, ByteString)>, after: ByteString)
    requires es != []
    ensures IsMembers(lenient, M.EntriesText(es, after), Pairs(es), after)
    decreases |es|
  {
    var k, x := es[0].0, es[0].1;
    if |es| == 1 {
      var r := [10, 32, 32, 125] + after;
      LastEntry(lenient, k, x, after, r);
      TextIsLine(es, after, r);
      assert Pairs(es) == [(k, Str(x))];
    } else {
      var more := M.EntriesText(es[1..], after);
      EntriesAreMembers(lenient, es[1..], after);
      NextEntry(lenient, k, x, [44] + more, more, Pairs(es[1..]), after);
      TextIsLine(es, after, [44] + more);
    }
  }

  lemma PropertiesAreObject(lenient: bool, es: seq<(ByteString, ByteString)>, after: ByteString)
    ensures IsBare(lenient, M.PropertiesText(es, after), Obj(Pairs(es)), after)
  {
    var s := M.PropertiesText(es, after);
    if es == [] {
      assert s[1..] == [10, 10, 32, 32] + ([125] + after);
      ByteAfterBlanks([10, 10, 32, 32], 125, after);
    } else {
      EntriesAreMembers(lenient, es, after);
      assert s[1..] == M.EntriesText(es, after);
    }
  }

  /** A member of the top-level object. */
  lemma TopMember(lenient: bool, f: M.Field, v: ByteString, j: Json, t: ByteString, value: ByteString)
    requires IsBare(lenient, v, j, t) && v == value + t
    ensures IsMember(lenient, M.Member(f, value, t), (M.Name(f), j), t)
  {
    M.KeyIsQuoted(f);
    LabelledIsMember(lenient, [10, 32, 32], M.Name(f), v, j, t);
  }

  function AsJson(m: M.Metadata, es: seq<(ByteString, ByteString)>): Json {
    Obj([(Ascii("model_name"), Str(m.modelName)), (Ascii("quant_scheme"), Str(m.quantScheme)),
         (Ascii("tokenizer_type"), Str(m.tokenizerType)), (Ascii("properties"), Obj(Pairs(es)))])
  }

  lemma LastMemberIs(lenient: bool, es: seq<(ByteString, ByteString)>, s: ByteString)
    requires s == M.Member(M.PropertiesField, M.PropertiesText(es, []), [10, 125])
    ensures IsMembers(lenient, s, [(M.Name(M.PropertiesField), Obj(Pairs(es)))], [])
  {
    var t := [10, 125];
    PropertiesAreObject(lenient, es, t);
    M.PropertiesTextThen(es, t);
    TopMember(lenient, M.PropertiesField, M.PropertiesText(es, t), Obj(Pairs(es)), t, M.PropertiesText(es, []));
    LastBrace(t);
    MemberThenEnd(lenient, s, (M.Name(M.PropertiesField), Obj(Pairs(es))), t, []);
  }

  lemma LastBrace(t: ByteString)
    requires t == [10, 125]
    ensures IsByte(t, 125, [])
  {
    assert t == [10] + ([125] + []);
    ByteAfterBlanks([10], 125, []);
  }

  lemma StringMemberIs(lenient: bool, f: M.Field, x: ByteString, more: ByteString, rest: Fields, s: ByteString)
    requires IsMembers(lenient, more, rest, []) && s == M.Member(f, Quoted(x), [44] + more)
    ensures IsMembers(lenient, s, [(M.Name(f), Str(x))] + rest, [])
  {
    QuotedIsBare(lenient, x, [44] + more);
    TopMember(lenient, f, Quoted(x) + ([44] + more), Str(x), [44] + more, Quoted(x));
    MemberThenMore(lenient, s, (M.Name(f), Str(x)), [44] + more, more, rest, []);
  }

  lemma ThreeStrings(lenient: bool, m: M.Metadata, s1: ByteString, s2: ByteString, s3: ByteString, s4: ByteString, m4: Fields)
    requires s3 == M.Member(M.TokenizerType, Quoted(m.tokenizerType), [44] + s4) && IsMembers(lenient, s4, m4, [])
    requires s2 == M.Member(M.QuantScheme, Quoted(m.quantScheme), [44] + s3)
    requires s1 == M.Member(M.ModelName, Quoted(m.modelName), [44] + s2)
    ensures IsMembers(lenient, s1, [(M.Name(M.ModelName), Str(m.modelName))] + ([(M.Name(M.QuantScheme), Str(m.quantScheme))]
      + ([(M.Name(M.TokenizerType), Str(m.tokenizerType))] + m4)), [])
  {
    var m3 := [(M.Name(M.TokenizerType), Str(m.tokenizerType))] + m4;
    var m2 := [(M.Name(M.QuantScheme), Str(m.quantScheme))] + m3;
    StringMemberIs(lenient, M.TokenizerType, m.tokenizerType, s4, m4, s3);
    StringMemberIs(lenient, M.QuantScheme, m.quantScheme, s3, m3, s2);
    StringMemberIs(lenient, M.ModelName, m.modelName, s2, m2, s1);
  }

  lemma MembersOfText(lenient: bool, m: M.Metadata, es: seq<(ByteString, ByteString)>, inner: ByteString)
    requires M.Text(m, es) == [123] + inner
    ensures IsMembers(lenient, inner, AsJson(m, es).members, [])
  {
    var s4 := M.Member(M.PropertiesField, M.PropertiesText(es, []), [10, 125]);
    var s3 := M.Member(M.TokenizerType, Quoted(m.tokenizerType), [44] + s4);
    var s2 := M.Member(M.QuantScheme, Quoted(m.quantScheme), [44] + s3);
    var s1 := M.Member(M.ModelName, Quoted(m.modelName), [44] + s2);
    LastMemberIs(lenient, es, s4);
    ThreeStrings(lenient, m, s1, s2, s3, s4, [(M.Name(M.PropertiesField), Obj(Pairs(es)))]);
    TextIs(m, es, s1, inner);
    FourMembers(m, es);
  }

  lemma FourMembers(m: M.Metadata, es: seq<(ByteString, ByteString)>)
    ensures [(M.Name(M.ModelName), Str(m.modelName))] + ([(M.Name(M.QuantScheme), Str(m.quantScheme))]
      + ([(M.Name(M.TokenizerType), Str(m.tokenizerType))] + [(M.Name(M.PropertiesField), Obj(Pairs(es)))]))
      == AsJson(m, es).members
  {
  }

  lemma TextIs(m: M.Metadata, es: seq<(ByteString, ByteString)>, s1: ByteString, inner: ByteString)
    requires M.Text(m, es) == [123] + inner
    requires s1 == M.Member(M.ModelName, Quoted(m.modelName), [44] +
      M.Member(M.QuantScheme, Quoted(m.quantScheme), [44] +
        M.Member(M.TokenizerType, Quoted(m.tokenizerType), [44] +
          M.Member(M.PropertiesField, M.PropertiesText(es, []), [10, 125]))))
    ensures s1 == inner
  {
    assert M.Text(m, es)[1..] == s1;
  }

  /** Any reader of JSON gets the four members, and the properties among them, from printed metadata. */
  lemma MetadataIsJson(lenient: bool, m: M.Metadata, es: seq<(ByteString, ByteString)>)
    ensures IsText(lenient, M.Text(m, es), AsJson(m, es)) && (lenient ==> ParseJson(M.Text(m, es)) == Some(AsJson(m, es)))
  {
    var s := M.Text(m, es);
    assert s == [123] + s[1..];
    MembersOfText(lenient, m, es, s[1..]);
    ObjectIs(lenient, s, s[1..], AsJson(m, es).members);
    ParsesIff(s, AsJson(m, es));
  }

  lemma ObjectIs(lenient: bool, s: ByteString, inner: ByteString, members: Fields)
    requires members != [] && s == [123] + inner && IsMembers(lenient, inner, members, [])
    ensures IsText(lenient, s, Obj(members))
  {
    assert s[1..] == inner && [] + s == s;
    Blanks([], s);
    assert IsBare(lenient, s, Obj(members), []);
    assert IsValue(lenient, s, Obj(members), []);
  }
}
