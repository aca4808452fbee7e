/**
  The server's JSON values (src/serve/protocol.cpp:35-338): the recursive parser, and the compact printing that its
  responses use. Numbers are kept as the text that the parser passes to the standard library.
 */
module Json {
  import opened Bytes
  import opened JsonString

  datatype Json = Null | Bool(b: bool) | Num(text: ByteString) | Str(s: ByteString) | Arr(items: seq<Json>)
                | Obj(members: seq<(ByteString, Json)>)

  // ---------------------------------------------------------------- parsing

  predicate IsBlank(b: byte) { b == 32 || b == 9 || b == 10 || b == 13 }

  function Skip(s: ByteString): (r: ByteString)
    ensures |r| <= |s|
  {
    if s == [] || !IsBlank(s[0]) then s else Skip(s[1..])
  }

  /** Blanks and then this byte: what follows it. */
  function Consume(s: ByteString, b: byte): (r: Option<ByteString>)
    ensures r.Some? ==> |r.value| < |s|
  {
    var s := Skip(s);
    if Starts(s, b) then Some(s[1..]) else None
  }

  predicate IsDigit(b: byte) { 48 <= b <= 57 }

  /** How many digits `s` starts with. */
  function Digits(s: ByteString): (n: nat)
    ensures n <= |s|
  {
    if s == [] || !IsDigit(s[0]) then 0 else 1 + Digits(s[1..])
  }

  /** The length of a fraction: a point and digits. */
  function Fraction(s: ByteString): (n: nat)
    ensures n <= |s|
  {
    if Starts(s, 46) then 1 + Digits(s[1..]) else 0
  }

  /** The length of an exponent: a letter, a sign and digits. */
  function Exponent(s: ByteString): (n: nat)
    ensures n <= |s|
  {
    if Starts(s, 101) || Starts(s, 69) then
      var sign := if Starts(s[1..], 43) || Starts(s[1..], 45) then 1 else 0;
      1 + sign + Digits(s[1 + sign..])
    else 0
  }

  function SignLength(s: ByteString): (n: nat)
    ensures n <= |s|
  {
    if Starts(s, 45) then 1 else 0
  }

  /** Where a number whose digits end at `a` ends. */
  function TailEnd(s: ByteString, a: nat): (n: nat)
    requires a <= |s|
    ensures a <= n <= |s|
  {
    var b := a + Fraction(s[a..]);
    b + Exponent(s[b..])
  }

  /** The length of the number at the head of `s`, or 0. */
  function NumberLength(s: ByteString): (n: nat)
    ensures n <= |s|
  {
    var sign := SignLength(s);
    var whole := Digits(s[sign..]);
    if whole == 0 then 0 else TailEnd(s, sign + whole)
  }

  predicate Has(s: ByteString, word: ByteString) { |word| <= |s| && s[..|word|] == word }

  function ParseScalar(s: ByteString): (r: Parsed<Json>)
    ensures r.Some? ==> |r.value.1| < |s|
  {
    if s == [] then None
    else if s[0] == QUOTE then
      var x := ParseString(true, s);
      if x.None? then None else Some((Str(x.value.0), x.value.1))
    else if s[0] == 116 || s[0] == 102 then
      if Has(s, [116, 114, 117, 101]) then Some((Bool(true), s[4..]))
      else if Has(s, [102, 97, 108, 115, 101]) then Some((Bool(false), s[5..]))
      else None
    else if s[0] == 110 then if Has(s, [110, 117, 108, 108]) then Some((Null, s[4..])) else None
    else if s[0] == 45 || IsDigit(s[0]) then
      var n := NumberLength(s);
      if n == 0 then None else Some((Num(s[..n]), s[n..]))
    else None
  }

  function ParseValue(s: ByteString): (r: Parsed<Json>)
    ensures r.Some? ==> |r.value.1| < |s|
    decreases |s|, 0
  {
    var s := Skip(s);
    if Starts(s, 123) then
      var closed := Consume(s[1..], 125);
      if closed.Some? then Some((Obj([]), closed.value))
      else
        var r := Members(s[1..]);
        if r.None? then None else Some((Obj(r.value.0), r.value.1))
    else if Starts(s, 91) then
      var closed := Consume(s[1..], 93);
      if closed.Some? then Some((Arr([]), closed.value))
      else
        var r := Elements(s[1..]);
        if r.None? then None else Some((Arr(r.value.0), r.value.1))
    else ParseScalar(s)
  }

  /** Members up to and including the closing brace. */
  function Members(s: ByteString): (r: Parsed<seq<(ByteString, Json)>>)
    ensures r.Some? ==> |r.value.1| < |s|
    decreases |s|, 1
  {
    var m := Member(s);
    if m.None? then None
    else
      var (kv, rest) := m.value;
      var closed := Consume(rest, 125);
      if closed.Some? then Some(([kv], closed.value))
      else
        var comma := Consume(rest, 44);
        if comma.None? then None
        else
          var more := Members(comma.value);
          if more.None? then None else Some(([kv] + more.value.0, more.value.1))
  }

  /** A key, a colon and a value. */
  function Member(s: ByteString): (r: Parsed<(ByteString, Json)>)
    ensures r.Some? ==> |r.value.1| < |s|
    decreases |s|, 0
  {
    var key := ParseString(true, Skip(s));
    if key.None? then None
    else
      var colon := Consume(key.value.1, 58);
      if colon.None? then None
      else
        var v := ParseValue(colon.value);
        if v.None? then None else Some(((key.value.0, v.value.0), v.value.1))
  }

  /** Elements up to and including the closing bracket. */
  function Elements(s: ByteString): (r: Parsed<seq<Json>>)
    ensures r.Some? ==> |r.value.1| < |s|
    decreases |s|, 1
  {
    var v := ParseValue(s);
    if v.None? then None
    else
      var closed := Consume(v.value.1, 93);
      if closed.Some? then Some(([v.value.0], closed.value))
      else
        var comma := Consume(v.value.1, 44);
        if comma.None? then None
        else
          var more := Elements(comma.value);
          if more.None? then None else Some(([v.value.0] + more.value.0, more.value.1))
  }

  /** `parse_json`: one value and nothing but blanks after it. */
  function ParseJson(s: ByteString): Option<Json> {
    var r := ParseValue(s);
    if r.Some? && Skip(r.value.1) == [] then Some(r.value.0) else None
  }

  // ---------------------------------------------------------------- printing

  function Print(j: Json): ByteString {
    match j
    case Null => [110, 117, 108, 108]
    case Bool(b) => if b then [116, 114, 117, 101] else [102, 97, 108, 115, 101]
    case Num(text) => text
    case Str(s) => Quoted(s)
    case Arr(items) => [91] + (PrintItems(items) + [93])
    case Obj(members) => [123] + (PrintMembers(members) + [125])
  }

  function PrintItems(items: seq<Json>): ByteString {
    if items == [] then []
    else if |items| == 1 then Print(items[0])
    else Print(items[0]) + ([44] + PrintItems(items[1..]))
  }

  function PrintMembers(members: seq<(ByteString, Json)>): ByteString {
    if members == [] then []
    else if |members| == 1 then PrintMember(members[0])
    else PrintMember(members[0]) + ([44] + PrintMembers(members[1..]))
  }

  function PrintMember(m: (ByteString, Json)): ByteString { Quoted(m.0) + ([58] + Print(m.1)) }

  // ---------------------------------------------------------------- round trip

  /** The text of every number is one that the parser takes as a whole. */
  predicate WellFormed(j: Json) {
    match j
    case Num(text) => text != [] && NumberLength(text) == |text|
    case Arr(items) => forall i :: 0 <= i < |items| ==> WellFormed(items[i])
    case Obj(members) => forall i :: 0 <= i < |members| ==> WellFormed(members[i].1)
    case _ => true
  }

  /** Nothing that would continue a number. */
  predicate Ends(t: ByteString) {
    t == [] || (!IsDigit(t[0]) && t[0] != 46 && t[0] != 101 && t[0] != 69 && t[0] != 43 && t[0] != 45)
  }

  lemma {:induction false} DigitsThen(a: ByteString, t: ByteString)
    requires Ends(t)
    ensures Digits(a + t) == Digits(a)
  {
    if a == [] {
      assert a + t == t;
    } else {
      assert (a + t)[1..] == a[1..] + t;
      DigitsThen(a[1..], t);
    }
  }

  lemma StartsThen(a: ByteString, t: ByteString, b: byte)
    requires Ends(t) && (b == 45 || b == 43 || b == 46 || b == 101 || b == 69)
    ensures Starts(a + t, b) == Starts(a, b)
  {
  }

  lemma FractionThen(a: ByteString, t: ByteString)
    requires Ends(t)
    ensures Fraction(a + t) == Fraction(a)
  {
    StartsThen(a, t, 46);
    if Starts(a, 46) {
      assert (a + t)[1..] == a[1..] + t;
      DigitsThen(a[1..], t);
    }
  }

  lemma ExponentThen(a: ByteString, t: ByteString)
    requires Ends(t)
    ensures Exponent(a + t) == Exponent(a)
  {
    StartsThen(a, t, 101);
    StartsThen(a, t, 69);
    if a != [] {
      assert (a + t)[1..] == a[1..] + t;
      StartsThen(a[1..], t, 43);
      StartsThen(a[1..], t, 45);
      DigitsThen(a[1..], t);
      if |a| > 1 {
        assert (a + t)[2..] == a[2..] + t;
        DigitsThen(a[2..], t);
      }
    }
  }

  lemma SuffixThen(a: ByteString, t: ByteString, k: nat)
    requires k <= |a|
    ensures (a + t)[k..] == a[k..] + t
  {
  }

  lemma WholeAt(a: ByteString, t: ByteString, k: nat)
    requires Ends(t) && k <= |a|
    ensures Digits((a + t)[k..]) == Digits(a[k..])
  {
    SuffixThen(a, t, k);
    DigitsThen(a[k..], t);
  }

  lemma FractionAt(a: ByteString, t: ByteString, k: nat)
    requires Ends(t) && k <= |a|
    ensures Fraction((a + t)[k..]) == Fraction(a[k..])
  {
    SuffixThen(a, t, k);
    FractionThen(a[k..], t);
  }

  lemma ExponentAt(a: ByteString, t: ByteString, k: nat)
    requires Ends(t) && k <= |a|
    ensures Exponent((a + t)[k..]) == Exponent(a[k..])
  {
    SuffixThen(a, t, k);
    ExponentThen(a[k..], t);
  }

  lemma NumberThen(a: ByteString, t: ByteString)
    requires Ends(t)
    ensures NumberLength(a + t) == NumberLength(a)
  {
    StartsThen(a, t, 45);
    var sign := SignLength(a);
    WholeAt(a, t, sign);
    var x := sign + Digits(a[sign..]);
    TailThen(a, t, x);
  }

  lemma TailThen(a: ByteString, t: ByteString, x: nat)
    requires Ends(t) && x <= |a|
    ensures TailEnd(a + t, x) == TailEnd(a, x)
  {
    FractionAt(a, t, x);
    ExponentAt(a, t, x + Fraction(a[x..]));
  }

  /** A printed value starts with something that is neither blank nor closing. */
  predicate Opens(s: ByteString) { s != [] && !IsBlank(s[0]) && s[0] != 93 && s[0] != 125 }

  lemma FirstByte(j: Json)
    requires WellFormed(j)
    ensures Opens(Print(j))
  {
  }

  lemma OpensThen(a: ByteString, t: ByteString)
    requires Opens(a)
    ensures Opens(a + t) && Skip(a + t) == a + t && Consume(a + t, 125).None? && Consume(a + t, 93).None?
  {
  }

  lemma WordReads(word: ByteString, t: ByteString)
    ensures Has(word + t, word) && (word + t)[|word|..] == t
  {
    assert (word + t)[..|word|] == word;
  }

  lemma NumberReads(text: ByteString, t: ByteString)
    requires WellFormed(Num(text)) && Ends(t)
    ensures ParseScalar(text + t) == Some((Num(text), t))
  {
    NumberThen(text, t);
    NumberStarts(text);
    var s := text + t;
    NumberScalar(s, |text|);
    assert s[..|text|] == text && s[|text|..] == t;
  }

  lemma NumberScalar(s: ByteString, n: nat)
    requires s != [] && (s[0] == 45 || IsDigit(s[0])) && n == NumberLength(s) > 0
    ensures ParseScalar(s) == Some((Num(s[..n]), s[n..]))
  {
  }

  lemma NumberStarts(text: ByteString)
    requires text != [] && NumberLength(text) > 0
    ensures text[0] == 45 || IsDigit(text[0])
  {
    assert text[0..] == text;
  }

  lemma WordScalarReads(j: Json, t: ByteString)
    requires j.Null? || j.Bool?
    ensures ParseScalar(Print(j) + t) == Some((j, t))
  {
    WordReads(Print(j), t);
  }

  lemma ScalarReads(j: Json, t: ByteString)
    requires WellFormed(j) && Ends(t) && !j.Arr? && !j.Obj?
    ensures ParseScalar(Print(j) + t) == Some((j, t))
  {
    match j
    case Num(text) => NumberReads(text, t);
    case Str(x) => StringRoundTrip(true, x, t);
    case _ => WordScalarReads(j, t);
  }

  /** A separator right after a value. */
  lemma Separator(b: byte, t: ByteString)
    requires b == 44 || b == 58 || b == 93 || b == 125
    ensures Consume([b] + t, b) == Some(t) && Ends([b] + t)
    ensures forall c :: c != b ==> Consume([b] + t, c).None?
  {
    assert ([b] + t)[1..] == t;
  }

  /** Printed values are read back, whatever follows that does not continue a number. */
  lemma {:induction false} ValueReads(j: Json, t: ByteString)
    requires WellFormed(j) && Ends(t)
    ensures ParseValue(Print(j) + t) == Some((j, t))
    decreases j
  {
    FirstByte(j);
    OpensThen(Print(j), t);
    match j
    case Arr(items) =>
      var inner := PrintItems(items) + ([93] + t);
      assert Print(j) + t == [91] + inner && ([91] + inner)[1..] == inner;
      Separator(93, t);
      if items == [] {
        assert inner == [93] + t;
      } else {
        ItemsRead(items, t);
        ItemsOpen(items, [93] + t);
      }
    case Obj(members) =>
      var inner := PrintMembers(members) + ([125] + t);
      assert Print(j) + t == [123] + inner && ([123] + inner)[1..] == inner;
      Separator(125, t);
      if members == [] {
        assert inner == [125] + t;
      } else {
        MembersRead(members, t);
        MembersOpen(members, [125] + t);
      }
    case _ => ScalarReads(j, t);
  }

  lemma ItemsOpen(items: seq<Json>, t: ByteString)
    requires items != [] && WellFormed(items[0])
    ensures Consume(PrintItems(items) + t, 93).None?
  {
    FirstByte(items[0]);
    OpensThen(PrintItems(items), t);
  }

  lemma MembersOpen(members: seq<(ByteString, Json)>, t: ByteString)
    requires members != []
    ensures Consume(PrintMembers(members) + t, 125).None?
  {
    assert PrintMember(members[0])[0] == QUOTE;
    OpensThen(PrintMembers(members), t);
  }

  lemma LastElement(s: ByteString, v: Json, t: ByteString)
    requires ParseValue(s) == Some((v, [93] + t))
    ensures Elements(s) == Some(([v], t))
  {
    Separator(93, t);
  }

  lemma NextElement(s: ByteString, v: Json, rest: ByteString, more: seq<Json>, t: ByteString)
    requires ParseValue(s) == Some((v, [44] + rest)) && Elements(rest) == Some((more, t))
    ensures Elements(s) == Some(([v] + more, t))
  {
    Separator(44, rest);
  }

  /** The printed items, given how the first and the others are read. */
  lemma MoreItems(items: seq<Json>, first: ByteString, rest: ByteString, t: ByteString)
    requires |items| > 1 && first == Print(items[0]) && rest == PrintItems(items[1..]) + ([93] + t)
    requires ParseValue(first + ([44] + rest)) == Some((items[0], [44] + rest)) && Elements(rest) == Some((items[1..], t))
    ensures Elements(PrintItems(items) + ([93] + t)) == Some((items, t))
  {
    NextElement(first + ([44] + rest), items[0], rest, items[1..], t);
    ItemsThen(items, first, PrintItems(items[1..]), [93] + t);
    assert items == [items[0]] + items[1..];
  }

  lemma ItemsThen(items: seq<Json>, first: ByteString, more: ByteString, end: ByteString)
    requires |items| > 1 && first == Print(items[0]) && more == PrintItems(items[1..])
    ensures PrintItems(items) + end == first + ([44] + (more + end))
  {
    assert PrintItems(items) == first + ([44] + more);
    CommaThen(first, more, end);
  }

  lemma OneItem(items: seq<Json>, t: ByteString)
    requires |items| == 1 && ParseValue(Print(items[0]) + ([93] + t)) == Some((items[0], [93] + t))
    ensures Elements(PrintItems(items) + ([93] + t)) == Some((items, t))
  {
    LastElement(Print(items[0]) + ([93] + t), items[0], t);
    assert items == [items[0]];
  }

  lemma {:induction false} ItemsRead(items: seq<Json>, t: ByteString)
    requires items != [] && forall i :: 0 <= i < |items| ==> WellFormed(items[i])
    ensures Elements(PrintItems(items) + ([93] + t)) == Some((items, t))
    decreases items
  {
    if |items| == 1 {
      Separator(93, t);
      ValueReads(items[0], [93] + t);
      OneItem(items, t);
    } else {
      var rest := PrintItems(items[1..]) + ([93] + t);
      Separator(44, rest);
      ValueReads(items[0], [44] + rest);
      ItemsRead(items[1..], t);
      MoreItems(items, Print(items[0]), rest, t);
    }
  }

  lemma LastMember(s: ByteString, m: (ByteString, Json), t: ByteString)
    requires Member(s) == Some((m, [125] + t))
    ensures Members(s) == Some(([m], t))
  {
    Separator(125, t);
  }

  lemma NextMember(s: ByteString, m: (ByteString, Json), rest: ByteString, more: seq<(ByteString, Json)>, t: ByteString)
    requires Member(s) == Some((m, [44] + rest)) && Members(rest) == Some((more, t))
    ensures Members(s) == Some(([m] + more, t))
  {
    Separator(44, rest);
  }

  lemma MoreMembers(members: seq<(ByteString, Json)>, first: ByteString, rest: ByteString, t: ByteString)
    requires |members| > 1 && first == PrintMember(members[0]) && rest == PrintMembers(members[1..]) + ([125] + t)
    requires Member(first + ([44] + rest)) == Some((members[0], [44] + rest)) && Members(rest) == Some((members[1..], t))
    ensures Members(PrintMembers(members) + ([125] + t)) == Some((members, t))
  {
    NextMember(first + ([44] + rest), members[0], rest, members[1..], t);
    MembersThen(members, first, PrintMembers(members[1..]), [125] + t);
    assert members == [members[0]] + members[1..];
  }

  lemma MembersThen(members: seq<(ByteString, Json)>, first: ByteString, more: ByteString, end: ByteString)
    requires |members| > 1 && first == PrintMember(members[0]) && more == PrintMembers(members[1..])
    ensures PrintMembers(members) + end == first + ([44] + (more + end))
  {
    assert PrintMembers(members) == first + ([44] + more);
    CommaThen(first, more, end);
  }

  lemma CommaThen(first: ByteString, more: ByteString, end: ByteString)
    ensures first + ([44] + more) + end == first + ([44] + (more + end))
  {
  }

  lemma OneMember(members: seq<(ByteString, Json)>, t: ByteString)
    requires |members| == 1 && Member(PrintMember(members[0]) + ([125] + t)) == Some((members[0], [125] + t))
    ensures Members(PrintMembers(members) + ([125] + t)) == Some((members, t))
  {
    LastMember(PrintMember(members[0]) + ([125] + t), members[0], t);
    assert members == [members[0]];
  }

  lemma {:induction false} MembersRead(members: seq<(ByteString, Json)>, t: ByteString)
    requires members != [] && forall i :: 0 <= i < |members| ==> WellFormed(members[i].1)
    ensures Members(PrintMembers(members) + ([125] + t)) == Some((members, t))
    decreases members
  {
    if |members| == 1 {
      Separator(125, t);
      MemberReads(members[0], [125] + t);
      OneMember(members, t);
    } else {
      var rest := PrintMembers(members[1..]) + ([125] + t);
      Separator(44, rest);
      MemberReads(members[0], [44] + rest);
      MembersRead(members[1..], t);
      MoreMembers(members, PrintMember(members[0]), rest, t);
    }
  }

  lemma {:induction false} MemberReads(m: (ByteString, Json), t: ByteString)
    requires WellFormed(m.1) && Ends(t)
    ensures Member(PrintMember(m) + t) == Some((m, t))
    decreases m
  {
    var after := [58] + (Print(m.1) + t);
    assert PrintMember(m) + t == Quoted(m.0) + after;
    OpensThen(Quoted(m.0), after);
    StringRoundTrip(true, m.0, after);
    Separator(58, Print(m.1) + t);
    ValueReads(m.1, t);
  }

  /** `parse_json` returns exactly the value that was printed. */
  lemma JsonRoundTrip(j: Json)
    requires WellFormed(j)
    ensures ParseJson(Print(j)) == Some(j)
  {
    ValueReads(j, []);
    assert Print(j) + [] == Print(j);
  }
}
