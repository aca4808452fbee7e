/**
  What the artifact's metadata reader makes of any JSON text (src/artifact/metadata.cpp:60-301): it takes the members that it
  knows, the last of each name, whatever the spacing, the escapes and the order, and passes over all others.
 */
module MetadataReads {
  import opened Bytes
  import opened JsonString
  import opened Json
  import opened JsonGrammar
  import M = Metadata

  type Fields = seq<(ByteString, Json)>

  // ---------------------------------------------------------------- blanks, names and separators

  lemma SkipsBlanks(s: ByteString, u: ByteString)
    requires BlanksThen(s, u) && u != [] && u[0] > 32
    ensures M.SkipSpace(s) == u
  {
    var ws := s[..|s| - |u|];
    assert s == ws + u;
    M.SkipTo(ws, u);
  }

  lemma SkipsToByte(s: ByteString, b: byte, t: ByteString)
    requires IsByte(s, b, t) && b > 32
    ensures M.SkipSpace(s) == [b] + t && Starts(M.SkipSpace(s), b) && M.SkipSpace(s)[1..] == t
    ensures s != [] && (s[0] == b || M.IsSpace(s[0]))
  {
    SkipsBlanks(s, [b] + t);
    if |s| == |t| + 1 { assert s[0..] == s; }
  }

  lemma ReadsName(s: ByteString, name: ByteString, v: ByteString)
    requires IsName(false, s, name, v)
    ensures var u := M.SkipSpace(s); var key := ParseString(false, u);
      !Starts(u, 125) && key.Some? && key.value.0 == name && M.SkipSpace(key.value.1) == [58] + v
  {
    var u, after :| BlanksThen(s, u) && IsString(false, u, name, after) && IsByte(after, 58, v);
    SkipsBlanks(s, u);
    StringIff(false, u, name, after);
    SkipsToByte(after, 58, v);
  }

  // ---------------------------------------------------------------- passing over a value

  /** The two kinds of brackets that are counted, one at a time. */
  ghost predicate ArePair(open: byte, close: byte) { (open == 123 && close == 125) || (open == 91 && close == 93) }

  /** From `s`, counting goes on at `t` with another depth. */
  ghost predicate Passes(s: ByteString, open: byte, close: byte, d: nat, t: ByteString, e: nat) {
    M.SkipNested(s, open, close, d) == M.SkipNested(t, open, close, e)
  }

  ghost predicate IsPlain(b: byte) { b != 123 && b != 125 && b != 91 && b != 93 && b != 34 }

  lemma {:induction false} PlainPasses(a: ByteString, t: ByteString, open: byte, close: byte, d: nat)
    requires ArePair(open, close) && d > 0 && forall i :: 0 <= i < |a| ==> IsPlain(a[i])
    ensures Passes(a + t, open, close, d, t, d)
  {
    if a == [] {
      assert a + t == t;
    } else {
      assert (a + t)[1..] == a[1..] + t;
      PlainPasses(a[1..], t, open, close, d);
    }
  }

  lemma BlanksPass(s: ByteString, u: ByteString, open: byte, close: byte, d: nat)
    requires ArePair(open, close) && d > 0 && BlanksThen(s, u)
    ensures Passes(s, open, close, d, u, d)
  {
    assert s == s[..|s| - |u|] + u;
    PlainPasses(s[..|s| - |u|], u, open, close, d);
  }

  lemma BytePasses(s: ByteString, b: byte, t: ByteString, open: byte, close: byte, d: nat)
    requires ArePair(open, close) && d > 0 && IsByte(s, b, t) && IsPlain(b)
    ensures Passes(s, open, close, d, t, d)
  {
    BlanksPass(s, [b] + t, open, close, d);
    PlainPasses([b], t, open, close, d);
  }

  lemma StringPasses(s: ByteString, x: ByteString, t: ByteString, open: byte, close: byte, d: nat)
    requires ArePair(open, close) && d > 0 && IsString(false, s, x, t)
    ensures Passes(s, open, close, d, t, d)
  {
    StringIff(false, s, x, t);
  }

  predicate InNumber(b: byte) { b == 43 || b == 45 || b == 46 || b == 69 || b == 101 || IsDigit(b) }

  lemma NumberIsPlain(u: ByteString, n: nat)
    requires IsNumber(u, n)
    ensures n <= |u| && forall i :: 0 <= i < n ==> InNumber(u[i])
  {
    var a: nat, b: nat, c: nat :| NumberParts(u, n, a, b, c);
    forall i | 0 <= i < n
      ensures InNumber(u[i])
    {
    }
  }

  /** The text of a word or number. */
  lemma ScalarText(u: ByteString, j: Json, t: ByteString) returns (a: ByteString)
    requires IsScalar(false, u, j, t) && !j.Str?
    ensures u == a + t && forall i :: 0 <= i < |a| ==> IsPlain(a[i]) && a[i] > 32 && a[i] != 44
  {
    Words();
    match j
    case Null => a := Ascii("null");
    case Bool(b) => a := if b then Ascii("true") else Ascii("false");
    case Num(text) =>
      a := text;
      NumberIsPlain(u, |text|);
      assert forall i :: 0 <= i < |a| ==> u[i] == a[i];
  }

  lemma ScalarPasses(u: ByteString, j: Json, t: ByteString, open: byte, close: byte, d: nat)
    requires ArePair(open, close) && d > 0 && IsScalar(false, u, j, t)
    ensures Passes(u, open, close, d, t, d)
  {
    if j.Str? {
      StringPasses(u, j.s, t, open, close, d);
    } else {
      var a := ScalarText(u, j, t);
      PlainPasses(a, t, open, close, d);
    }
  }

  /** How deep inside a bracket that is counted, or not. */
  function Inside(bracket: byte, open: byte, d: nat): nat { if bracket == open then d + 1 else d }

  lemma OpenPasses(u: ByteString, open: byte, close: byte, d: nat)
    requires ArePair(open, close) && d > 0 && u != [] && (u[0] == 123 || u[0] == 91)
    ensures Passes(u, open, close, d, u[1..], Inside(u[0], open, d))
  {
  }

  lemma ClosePasses(bracket: byte, t: ByteString, open: byte, close: byte, d: nat)
    requires ArePair(open, close) && d > 0 && (bracket == 123 || bracket == 91)
    ensures Passes([bracket + 2] + t, open, close, Inside(bracket, open, d), t, d)
  {
    assert ([bracket + 2] + t)[1..] == t;
  }

  /** A value of any kind is passed over at the depth at which it starts. */
  lemma {:induction false} BarePasses(u: ByteString, j: Json, t: ByteString, open: byte, close: byte, d: nat)
    requires ArePair(open, close) && d > 0 && IsBare(false, u, j, t)
    ensures Passes(u, open, close, d, t, d)
    decreases |u|, 0
  {
    match j
    case Arr(items) =>
      OpenPasses(u, open, close, d);
      if items == [] {
        BlanksPass(u[1..], [93] + t, open, close, Inside(91, open, d));
      } else {
        ItemsPass(u[1..], items, t, open, close, Inside(91, open, d));
      }
      ClosePasses(91, t, open, close, d);
    case Obj(members) =>
      OpenPasses(u, open, close, d);
      if members == [] {
        BlanksPass(u[1..], [125] + t, open, close, Inside(123, open, d));
      } else {
        MembersPass(u[1..], members, t, open, close, Inside(123, open, d));
      }
      ClosePasses(123, t, open, close, d);
    case _ => ScalarPasses(u, j, t, open, close, d);
  }

  lemma {:induction false} ValuePasses(s: ByteString, j: Json, t: ByteString, open: byte, close: byte, d: nat)
    requires ArePair(open, close) && d > 0 && IsValue(false, s, j, t)
    ensures Passes(s, open, close, d, t, d)
    decreases |s|, 1
  {
    var u :| |u| <= |s| && BlanksThen(s, u) && IsBare(false, u, j, t);
    BlanksPass(s, u, open, close, d);
    BarePasses(u, j, t, open, close, d);
  }

  /** Up to the closing bracket. */
  lemma {:induction false} ItemsPass(s: ByteString, items: seq<Json>, t: ByteString, open: byte, close: byte, d: nat)
    requires ArePair(open, close) && d > 0 && IsItems(false, s, items, t)
    ensures Passes(s, open, close, d, [93] + t, d)
    decreases |s|, 3
  {
    var r :| |r| < |s| && IsValue(false, s, items[0], r) && AfterItem(false, r, items, t);
    ValuePasses(s, items[0], r, open, close, d);
    if |items| == 1 {
      BlanksPass(r, [93] + t, open, close, d);
    } else {
      var more :| |more| < |r| && IsByte(r, 44, more) && IsItems(false, more, items[1..], t);
      BytePasses(r, 44, more, open, close, d);
      ItemsPass(more, items[1..], t, open, close, d);
    }
  }

  lemma NamePasses(s: ByteString, name: ByteString, t: ByteString, open: byte, close: byte, d: nat)
    requires ArePair(open, close) && d > 0 && IsName(false, s, name, t)
    ensures Passes(s, open, close, d, t, d)
  {
    var u, after :| BlanksThen(s, u) && IsString(false, u, name, after) && IsByte(after, 58, t);
    BlanksPass(s, u, open, close, d);
    StringPasses(u, name, after, open, close, d);
    BytePasses(after, 58, t, open, close, d);
  }

  lemma {:induction false} MembersPass(s: ByteString, members: Fields, t: ByteString, open: byte, close: byte, d: nat)
    requires ArePair(open, close) && d > 0 && IsMembers(false, s, members, t)
    ensures Passes(s, open, close, d, [125] + t, d)
    decreases |s|, 3
  {
    var r :| |r| < |s| && IsMember(false, s, members[0], r) && AfterMember(false, r, members, t);
    var v :| |v| < |s| && IsName(false, s, members[0].0, v) && IsValue(false, v, members[0].1, r);
    NamePasses(s, members[0].0, v, open, close, d);
    ValuePasses(v, members[0].1, r, open, close, d);
    if |members| == 1 {
      BlanksPass(r, [125] + t, open, close, d);
    } else {
      var more :| |more| < |r| && IsByte(r, 44, more) && IsMembers(false, more, members[1..], t);
      BytePasses(r, 44, more, open, close, d);
      MembersPass(more, members[1..], t, open, close, d);
    }
  }

  /** A comma or a closing brace comes next, or a blank. */
  ghost predicate Delimited(t: ByteString) { t != [] && (t[0] == 44 || t[0] == 125 || M.IsSpace(t[0])) }

  lemma {:induction false} SkipsText(a: ByteString, t: ByteString)
    requires Delimited(t) && forall i :: 0 <= i < |a| ==> IsPlain(a[i]) && a[i] > 32 && a[i] != 44
    ensures M.SkipScalar(a + t) == t
  {
    if a == [] {
      assert a + t == t;
    } else {
      assert (a + t)[1..] == a[1..] + t;
      SkipsText(a[1..], t);
    }
  }

  /** The value of an unknown member is passed over, whatever it holds. */
  lemma SkipsValue(u: ByteString, j: Json, t: ByteString)
    requires IsBare(false, u, j, t) && Delimited(t)
    ensures M.SkipValue(u) == Some(t)
  {
    BareStarts(false, u, j, t);
    match j
    case Arr(items) => SkipsBracketed(u, 91, t, j);
    case Obj(members) => SkipsBracketed(u, 123, t, j);
    case Str(x) => StringIff(false, u, x, t);
    case _ =>
      var a := ScalarText(u, j, t);
      SkipsText(a, t);
      ScalarStarts(false, u, j, t);
  }

  lemma SkipsBracketed(u: ByteString, bracket: byte, t: ByteString, j: Json)
    requires IsBare(false, u, j, t) && u[0] == bracket && ((bracket == 91 && j.Arr?) || (bracket == 123 && j.Obj?))
    ensures M.SkipNested(u[1..], bracket, bracket + 2, 1) == Some(t)
  {
    var close := [bracket + 2] + t;
    if j.Arr? {
      if j.items == [] { BlanksPass(u[1..], close, 91, 93, 1); } else { ItemsPass(u[1..], j.items, t, 91, 93, 1); }
    } else {
      if j.members == [] { BlanksPass(u[1..], close, 123, 125, 1); } else { MembersPass(u[1..], j.members, t, 123, 125, 1); }
    }
    assert close[1..] == t && close == [if j.Arr? then 93 else 125] + t;
    assert M.SkipNested(close, bracket, bracket + 2, 1) == M.SkipNested(t, bracket, bracket + 2, 0);
  }

  // ---------------------------------------------------------------- taking what is known

  /** The known members hold what they should: strings, and an object of strings. */
  ghost predicate Readable(m: (ByteString, Json)) {
    match M.FieldOf(m.0)
    case Unknown => true
    case PropertiesField => m.1.Obj? && forall i :: 0 <= i < |m.1.members| ==> m.1.members[i].1.Str?
    case _ => m.1.Str?
  }

  /** The pairs of an object of strings, the last of each name. */
  function AddPairs(props: M.Properties, ms: Fields): M.Properties
    requires forall i :: 0 <= i < |ms| ==> ms[i].1.Str?
    decreases |ms|
  {
    if ms == [] then props else AddPairs(props[ms[0].0 := ms[0].1.s], ms[1..])
  }

  lemma FirstMember(s: ByteString, ms: Fields, t: ByteString) returns (v: ByteString, r: ByteString)
    requires IsMembers(false, s, ms, t)
    ensures ms != [] && |r| < |s| && IsName(false, s, ms[0].0, v) && IsValue(false, v, ms[0].1, r) && AfterMember(false, r, ms, t)
  {
    r :| |r| < |s| && IsMember(false, s, ms[0], r) && AfterMember(false, r, ms, t);
    v :| |v| < |s| && IsName(false, s, ms[0].0, v) && IsValue(false, v, ms[0].1, r);
  }

  /** What comes after a member: the end, or more. */
  lemma MoreMembers(r: ByteString, ms: Fields, t: ByteString) returns (more: ByteString)
    requires ms != [] && AfterMember(false, r, ms, t)
    ensures Delimited(r)
    ensures |ms| == 1 ==> M.SkipSpace(r) == [125] + t
    ensures |ms| > 1 ==> |more| < |r| && M.SkipSpace(r) == [44] + more && IsMembers(false, more, ms[1..], t)
  {
    if |ms| == 1 {
      more := [];
      SkipsToByte(r, 125, t);
    } else {
      more :| |more| < |r| && IsByte(r, 44, more) && IsMembers(false, more, ms[1..], t);
      SkipsToByte(r, 44, more);
    }
  }

  lemma FirstEntry(s: ByteString, ms: Fields, t: ByteString, props: M.Properties) returns (more: ByteString)
    requires IsMembers(false, s, ms, t) && ms[0].1.Str?
    ensures var props' := props[ms[0].0 := ms[0].1.s];
      if |ms| == 1 then M.Entries(s, props) == Some((props', t))
      else |more| < |s| && IsMembers(false, more, ms[1..], t) && M.Entries(s, props) == M.Entries(more, props')
  {
    var v, r := FirstMember(s, ms, t);
    more := MoreMembers(r, ms, t);
    EntryRead(s, ms[0].0, v, ms[0].1.s, r, props);
    assert ([125] + t)[1..] == t && ([44] + more)[1..] == more;
  }

  lemma {:induction false} EntriesRead(s: ByteString, ms: Fields, t: ByteString, props: M.Properties)
    requires IsMembers(false, s, ms, t) && forall i :: 0 <= i < |ms| ==> ms[i].1.Str?
    ensures M.Entries(s, props) == Some((AddPairs(props, ms), t))
    decreases |s|
  {
    var more := FirstEntry(s, ms, t, props);
    if |ms| == 1 {
      assert ms[1..] == [];
    } else {
      EntriesRead(more, ms[1..], t, props[ms[0].0 := ms[0].1.s]);
    }
  }

  lemma EntryRead(s: ByteString, k: ByteString, v: ByteString, x: ByteString, r: ByteString, props: M.Properties)
    requires IsName(false, s, k, v) && IsValue(false, v, Str(x), r)
    ensures M.Entries(s, props) == (var p := props[k := x]; var w := M.SkipSpace(r);
      if Starts(w, 44) then M.Entries(w[1..], p) else if Starts(w, 125) then Some((p, w[1..])) else None)
  {
    ReadsName(s, k, v);
    ReadsText(v, x, r);
    OneEntry(s, k, v, x, r, props);
  }

  lemma ReadsText(v: ByteString, x: ByteString, r: ByteString)
    requires IsValue(false, v, Str(x), r)
    ensures ParseString(false, M.SkipSpace(v)) == Some((x, r))
  {
    var u :| |u| <= |v| && BlanksThen(v, u) && IsBare(false, u, Str(x), r);
    SkipsBlanks(v, u);
    StringIff(false, u, x, r);
  }

  /** What the reader does with one property. */
  lemma OneEntry(s: ByteString, k: ByteString, v: ByteString, x: ByteString, r: ByteString, props: M.Properties)
    requires var u := M.SkipSpace(s); var key := ParseString(false, u);
      !Starts(u, 125) && key.Some? && key.value.0 == k && M.SkipSpace(key.value.1) == [58] + v
    requires ParseString(false, M.SkipSpace(v)) == Some((x, r))
    ensures M.Entries(s, props) == (var p := props[k := x]; var w := M.SkipSpace(r);
      if Starts(w, 44) then M.Entries(w[1..], p) else if Starts(w, 125) then Some((p, w[1..])) else None)
  {
    assert ([58] + v)[1..] == v;
  }

  /** What a member does to the metadata. */
  function Take(m: M.Metadata, f: (ByteString, Json)): M.Metadata
    requires Readable(f)
  {
    if f.0 == Ascii("model_name") then m.(modelName := f.1.s)
    else if f.0 == Ascii("quant_scheme") then m.(quantScheme := f.1.s)
    else if f.0 == Ascii("tokenizer_type") then m.(tokenizerType := f.1.s)
    else if f.0 == Ascii("properties") then m.(properties := AddPairs(m.properties, f.1.members))
    else m
  }

  function TakeAll(m: M.Metadata, ms: Fields): M.Metadata
    requires forall i :: 0 <= i < |ms| ==> Readable(ms[i])
    decreases |ms|
  {
    if ms == [] then m else TakeAll(Take(m, ms[0]), ms[1..])
  }

  lemma ReadsValue(f: (ByteString, Json), u: ByteString, t: ByteString, m: M.Metadata)
    requires Readable(f) && IsBare(false, u, f.1, t) && Delimited(t)
    ensures M.Value(M.FieldOf(f.0), u, m) == Some((Take(m, f), t))
  {
    if M.FieldOf(f.0).Unknown? {
      SkipsValue(u, f.1, t);
    } else if M.FieldOf(f.0).PropertiesField? {
      ReadsProperties(u, f.1.members, t, m.properties);
    } else {
      ReadsString(f, u, t, m);
    }
  }

  lemma ReadsString(f: (ByteString, Json), u: ByteString, t: ByteString, m: M.Metadata)
    requires f.1.Str? && IsBare(false, u, f.1, t) && M.FieldOf(f.0) !in {M.Unknown, M.PropertiesField}
    ensures M.Value(M.FieldOf(f.0), u, m) == Some((Take(m, f), t))
  {
    StringIff(false, u, f.1.s, t);
  }

  lemma ReadsProperties(u: ByteString, ms: Fields, t: ByteString, props: M.Properties)
    requires IsBare(false, u, Obj(ms), t) && forall i :: 0 <= i < |ms| ==> ms[i].1.Str?
    ensures M.ParseProperties(u, props) == Some((AddPairs(props, ms), t))
  {
    assert M.SkipSpace(u) == u;
    if ms == [] {
      SkipsToByte(u[1..], 125, t);
    } else {
      EntriesRead(u[1..], ms, t, props);
    }
  }

  lemma FirstTaken(s: ByteString, ms: Fields, t: ByteString, m: M.Metadata) returns (more: ByteString)
    requires IsMembers(false, s, ms, t) && Readable(ms[0])
    ensures if |ms| == 1 then M.Members(s, m) == Some((Take(m, ms[0]), t))
      else |more| < |s| && IsMembers(false, more, ms[1..], t) && M.Members(s, m) == M.Members(more, Take(m, ms[0]))
  {
    var v, r := FirstMember(s, ms, t);
    more := MoreMembers(r, ms, t);
    MemberRead(s, ms[0], v, r, m);
    assert ([125] + t)[1..] == t && ([44] + more)[1..] == more;
  }

  lemma {:induction false} MembersRead(s: ByteString, ms: Fields, t: ByteString, m: M.Metadata)
    requires IsMembers(false, s, ms, t) && forall i :: 0 <= i < |ms| ==> Readable(ms[i])
    ensures M.Members(s, m) == Some((TakeAll(m, ms), t))
    decreases |s|
  {
    var more := FirstTaken(s, ms, t, m);
    if |ms| == 1 {
      assert ms[1..] == [];
    } else {
      MembersRead(more, ms[1..], t, Take(m, ms[0]));
    }
  }

  lemma MemberRead(s: ByteString, f: (ByteString, Json), v: ByteString, r: ByteString, m: M.Metadata)
    requires IsName(false, s, f.0, v) && IsValue(false, v, f.1, r) && Readable(f) && Delimited(r)
    ensures M.Members(s, m) == (var m' := Take(m, f); var w := M.SkipSpace(r);
      if Starts(w, 44) then M.Members(w[1..], m') else if Starts(w, 125) then Some((m', w[1..])) else None)
  {
    ReadsName(s, f.0, v);
    var u :| |u| <= |v| && BlanksThen(v, u) && IsBare(false, u, f.1, r);
    BareStarts(false, u, f.1, r);
    SkipsBlanks(v, u);
    ReadsValue(f, u, r, m);
    OneMember(s, f, v, u, r, m);
  }

  lemma OneMember(s: ByteString, f: (ByteString, Json), v: ByteString, u: ByteString, r: ByteString, m: M.Metadata)
    requires Readable(f) && M.SkipSpace(v) == u && M.Value(M.FieldOf(f.0), u, m) == Some((Take(m, f), r))
    requires var u := M.SkipSpace(s); var key := ParseString(false, u);
      !Starts(u, 125) && key.Some? && key.value.0 == f.0 && M.SkipSpace(key.value.1) == [58] + v
    ensures M.Members(s, m) == (var m' := Take(m, f); var w := M.SkipSpace(r);
      if Starts(w, 44) then M.Members(w[1..], m') else if Starts(w, 125) then Some((m', w[1..])) else None)
  {
    assert ([58] + v)[1..] == v;
  }

  /**
    Any strict JSON text of an object whose known members hold what they should is read: the last of each known name counts,
    properties of several objects are put together, and other members are passed over whatever they hold.
   */
  lemma AnyObjectReads(s: ByteString, ms: Fields)
    requires IsText(false, s, Obj(ms)) && forall i :: 0 <= i < |ms| ==> Readable(ms[i])
    ensures M.FromJson(s) == Some(TakeAll(M.Metadata([], [], [], map[]), ms))
  {
    var t :| IsValue(false, s, Obj(ms), t);
    var u :| |u| <= |s| && BlanksThen(s, u) && IsBare(false, u, Obj(ms), t);
    SkipsBlanks(s, u);
    ObjectRead(u, ms, t);
  }

  lemma ObjectRead(u: ByteString, ms: Fields, t: ByteString)
    requires IsBare(false, u, Obj(ms), t) && forall i :: 0 <= i < |ms| ==> Readable(ms[i])
    ensures u[0] == 123 && M.Members(u[1..], M.EMPTY) == Some((TakeAll(M.EMPTY, ms), t))
  {
    if ms == [] {
      SkipsToByte(u[1..], 125, t);
    } else {
      MembersRead(u[1..], ms, t, M.EMPTY);
    }
  }
}
