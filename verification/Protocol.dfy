/**
  What the server sends (src/serve/protocol.cpp:351-438): completed responses as JSON, and streamed chunks as
  server-sent events. Both are compact prints of a JSON value, so parsing gives every field back.
 */
module Protocol {
  import opened Bytes
  import opened JsonString
  import opened Json

  datatype Response = Response(id: ByteString, created: int, model: ByteString, choices: seq<Choice>, promptTokens: int,
                               completionTokens: int, totalTokens: int)

  datatype Choice = Choice(index: int, role: ByteString, content: ByteString, reasoning: ByteString, finishReason: ByteString)

  datatype Chunk = Chunk(id: ByteString, created: int, model: ByteString, deltas: seq<ChunkChoice>)

  datatype ChunkChoice = ChunkChoice(index: int, role: Option<ByteString>, content: Option<ByteString>,
                                     reasoning: Option<ByteString>, finishReason: Option<ByteString>)

  // ---------------------------------------------------------------- names

  datatype Key = Id | Object | Created | Model | Choices | Usage | Index | Message | FinishReason | Role | Content
               | Reasoning | PromptTokens | CompletionTokens | TotalTokens | Delta

  function Name(k: Key): ByteString {
    match k
    case Id => Ascii("id")
    case Object => Ascii("object")
    case Created => Ascii("created")
    case Model => Ascii("model")
    case Choices => Ascii("choices")
    case Usage => Ascii("usage")
    case Index => Ascii("index")
    case Message => Ascii("message")
    case FinishReason => Ascii("finish_reason")
    case Role => Ascii("role")
    case Content => Ascii("content")
    case Reasoning => Ascii("reasoning_content")
    case PromptTokens => Ascii("prompt_tokens")
    case CompletionTokens => Ascii("completion_tokens")
    case TotalTokens => Ascii("total_tokens")
    case Delta => Ascii("delta")
  }

  /** Length and the first two letters tell the names apart. */
  function Sign(k: Key): (nat, byte, byte) {
    match k
    case Id => (2, 105, 100)
    case Object => (6, 111, 98)
    case Created => (7, 99, 114)
    case Model => (5, 109, 111)
    case Choices => (7, 99, 104)
    case Usage => (5, 117, 115)
    case Index => (5, 105, 110)
    case Message => (7, 109, 101)
    case FinishReason => (13, 102, 105)
    case Role => (4, 114, 111)
    case Content => (7, 99, 111)
    case Reasoning => (17, 114, 101)
    case PromptTokens => (13, 112, 114)
    case CompletionTokens => (17, 99, 111)
    case TotalTokens => (12, 116, 111)
    case Delta => (5, 100, 101)
  }

  lemma NameHasSign(k: Key)
    ensures |Name(k)| >= 2 && Sign(k) == (|Name(k)|, Name(k)[0], Name(k)[1])
  {
  }

  lemma NamesDiffer(a: Key, b: Key)
    ensures Name(a) == Name(b) <==> a == b
  {
    NameHasSign(a);
    NameHasSign(b);
  }

  // ---------------------------------------------------------------- numbers

  /** `std::to_string` of a number that is not negative. */
  function Decimal(n: nat): (r: ByteString)
    ensures r != [] && forall i :: 0 <= i < |r| ==> IsDigit(r[i])
  {
    if n < 10 then [(48 + n) as byte] else Decimal(n / 10) + [(48 + n % 10) as byte]
  }

  function ToString(n: int): ByteString { if n < 0 then [45] + Decimal(-n) else Decimal(n) }

  function DecimalValue(s: ByteString): int {
    if s == [] then 0 else 10 * DecimalValue(s[..|s| - 1]) + (s[|s| - 1] as int - 48)
  }

  function IntValue(s: ByteString): int { if Starts(s, 45) then -DecimalValue(s[1..]) else DecimalValue(s) }

  lemma {:induction false} DecimalRoundTrip(n: nat)
    ensures DecimalValue(Decimal(n)) == n
  {
    if n >= 10 {
      DecimalRoundTrip(n / 10);
      var d := Decimal(n);
      assert d[..|d| - 1] == Decimal(n / 10);
    } else {
      assert Decimal(n)[..0] == [];
    }
  }

  /** No leading zeros. */
  lemma {:induction false} NoLeadingZero(n: nat)
    ensures Decimal(n)[0] == 48 ==> n == 0
  {
    if n >= 10 { NoLeadingZero(n / 10); }
  }

  /** The text of a number gives the number back. */
  lemma IntRoundTrip(n: int)
    ensures IntValue(ToString(n)) == n
  {
    if n < 0 {
      DecimalRoundTrip(-n);
      assert ToString(n)[1..] == Decimal(-n);
    } else {
      DecimalRoundTrip(n);
      assert IsDigit(Decimal(n)[0]);
    }
  }

  lemma {:induction false} AllDigits(s: ByteString)
    requires forall i :: 0 <= i < |s| ==> IsDigit(s[i])
    ensures Digits(s) == |s|
  {
    if s != [] { AllDigits(s[1..]); }
  }

  /** It is a number to the parser, all of it. */
  lemma IntIsNumber(n: int)
    ensures WellFormed(Num(ToString(n)))
  {
    var s := ToString(n);
    var digits := Decimal(if n < 0 then -n else n);
    AllDigits(digits);
    assert IsDigit(digits[0]);
    assert s[if n < 0 then 1 else 0..] == digits;
    assert s[|s|..] == [];
  }

  // ---------------------------------------------------------------- values

  function Text(k: Key, x: ByteString): (ByteString, Json) { (Name(k), Str(x)) }

  function Number(k: Key, n: int): (ByteString, Json) { (Name(k), Num(ToString(n))) }

  /** The reasoning is left out if it is empty. */
  function MessageMembers(c: Choice): seq<(ByteString, Json)> {
    [Text(Role, c.role), Text(Content, c.content)] + if c.reasoning == [] then [] else [Text(Reasoning, c.reasoning)]
  }

  function ChoiceMembers(c: Choice): seq<(ByteString, Json)> {
    [Number(Index, c.index), (Name(Message), Obj(MessageMembers(c))), Text(FinishReason, c.finishReason)]
  }

  function ChoiceValues(cs: seq<Choice>): (r: seq<Json>)
    ensures |r| == |cs| && forall i :: 0 <= i < |r| ==> r[i] == Obj(ChoiceMembers(cs[i]))
  {
    if cs == [] then [] else ChoiceValues(cs[..|cs| - 1]) + [Obj(ChoiceMembers(cs[|cs| - 1]))]
  }

  function UsageMembers(r: Response): seq<(ByteString, Json)> {
    [Number(PromptTokens, r.promptTokens), Number(CompletionTokens, r.completionTokens), Number(TotalTokens, r.totalTokens)]
  }

  function ResponseMembers(r: Response): seq<(ByteString, Json)> {
    [Text(Id, r.id), Text(Object, Ascii("chat.completion")), Number(Created, r.created), Text(Model, r.model),
     (Name(Choices), Arr(ChoiceValues(r.choices))), (Name(Usage), Obj(UsageMembers(r)))]
  }

  function OptionalText(k: Key, x: Option<ByteString>): seq<(ByteString, Json)> {
    if x.None? then [] else [Text(k, x.value)]
  }

  function DeltaMembers(c: ChunkChoice): seq<(ByteString, Json)> {
    OptionalText(Role, c.role) + OptionalText(Content, c.content) + OptionalText(Reasoning, c.reasoning)
  }

  function ChunkChoiceMembers(c: ChunkChoice): seq<(ByteString, Json)> {
    [Number(Index, c.index), (Name(Delta), Obj(DeltaMembers(c))),
     if c.finishReason.None? then (Name(FinishReason), Null) else Text(FinishReason, c.finishReason.value)]
  }

  function ChunkChoiceValues(cs: seq<ChunkChoice>): (r: seq<Json>)
    ensures |r| == |cs| && forall i :: 0 <= i < |r| ==> r[i] == Obj(ChunkChoiceMembers(cs[i]))
  {
    if cs == [] then [] else ChunkChoiceValues(cs[..|cs| - 1]) + [Obj(ChunkChoiceMembers(cs[|cs| - 1]))]
  }

  function ChunkMembers(c: Chunk): seq<(ByteString, Json)> {
    [Text(Id, c.id), Text(Object, Ascii("chat.completion.chunk")), Number(Created, c.created), Text(Model, c.model),
     (Name(Choices), Arr(ChunkChoiceValues(c.deltas)))]
  }

  // ---------------------------------------------------------------- every field comes back

  lemma ChoiceIsWellFormed(c: Choice)
    ensures WellFormed(Obj(ChoiceMembers(c)))
  {
    IntIsNumber(c.index);
    assert WellFormed(Obj(MessageMembers(c)));
  }

  lemma ResponseIsWellFormed(r: Response)
    ensures WellFormed(Obj(ResponseMembers(r)))
  {
    IntIsNumber(r.created);
    UsageIsWellFormed(r);
    ChoicesAreWellFormed(r.choices);
  }

  lemma UsageIsWellFormed(r: Response)
    ensures WellFormed(Obj(UsageMembers(r)))
  {
    IntIsNumber(r.promptTokens);
    IntIsNumber(r.completionTokens);
    IntIsNumber(r.totalTokens);
  }

  lemma ChoicesAreWellFormed(cs: seq<Choice>)
    ensures WellFormed(Arr(ChoiceValues(cs)))
  {
    forall i | 0 <= i < |cs|
      ensures WellFormed(ChoiceValues(cs)[i])
    {
      ChoiceIsWellFormed(cs[i]);
    }
  }

  lemma ChunkChoiceIsWellFormed(c: ChunkChoice)
    ensures WellFormed(Obj(ChunkChoiceMembers(c)))
  {
    IntIsNumber(c.index);
    assert WellFormed(Obj(DeltaMembers(c)));
  }

  lemma ChunkIsWellFormed(c: Chunk)
    ensures WellFormed(Obj(ChunkMembers(c)))
  {
    IntIsNumber(c.created);
    forall i | 0 <= i < |c.deltas|
      ensures WellFormed(ChunkChoiceValues(c.deltas)[i])
    {
      ChunkChoiceIsWellFormed(c.deltas[i]);
    }
  }

  /** `JsonValue::find`: the first member with this name. */
  function Find(members: seq<(ByteString, Json)>, name: ByteString): Option<Json> {
    if members == [] then None
    else if members[0].0 == name then Some(members[0].1)
    else Find(members[1..], name)
  }

  /** `JsonValue::get_string`. */
  function GetString(j: Json, k: Key, default: ByteString): ByteString {
    if !j.Obj? then default
    else
      var v := Find(j.members, Name(k));
      if v.Some? && v.value.Str? then v.value.s else default
  }

  lemma {:induction false} FindAt(members: seq<(ByteString, Json)>, i: nat)
    requires i < |members| && forall j :: 0 <= j < i ==> members[j].0 != members[i].0
    ensures Find(members, members[i].0) == Some(members[i].1)
  {
    if i > 0 { FindAt(members[1..], i - 1); }
  }

  lemma {:induction false} FindNothing(members: seq<(ByteString, Json)>, name: ByteString)
    requires forall j :: 0 <= j < |members| ==> members[j].0 != name
    ensures Find(members, name) == None
  {
    if members != [] { FindNothing(members[1..], name); }
  }

  /** The member of this name, or nothing. */
  function Field(j: Json, name: string): Option<Json>
    requires j.Obj? && forall i :: 0 <= i < |name| ==> name[i] as int < 128
  {
    Find(j.members, Ascii(name))
  }

  /** The names of the first `n` members differ from that of member `n`. */
  ghost predicate NewName(members: seq<(ByteString, Json)>, n: nat) {
    n < |members| && forall j :: 0 <= j < n ==> members[j].0 != members[n].0
  }

  lemma FieldAt(members: seq<(ByteString, Json)>, n: nat, k: Key, v: Json)
    requires NewName(members, n) && members[n] == (Name(k), v)
    ensures Find(members, Name(k)) == Some(v)
  {
    FindAt(members, n);
  }

  lemma AllNamesDiffer()
    ensures forall a, b :: Name(a) == Name(b) <==> a == b
  {
    forall a, b
      ensures Name(a) == Name(b) <==> a == b
    {
      NamesDiffer(a, b);
    }
  }

  /** A member that is there if there is a text. */
  ghost predicate HasText(j: Json, name: string, x: Option<ByteString>)
    requires j.Obj? && forall i :: 0 <= i < |name| ==> name[i] as int < 128
  {
    Field(j, name) == if x.None? then None else Some(Str(x.value))
  }

  ghost predicate HasNumber(j: Json, name: string, n: int)
    requires j.Obj? && forall i :: 0 <= i < |name| ==> name[i] as int < 128
  {
    Field(j, name) == Some(Num(ToString(n)))
  }

  /** A message's members; its reasoning is left out if it is empty. */
  lemma MessageFields(c: Choice)
    ensures var j := Obj(MessageMembers(c));
      && HasText(j, "role", Some(c.role)) && HasText(j, "content", Some(c.content))
      && HasText(j, "reasoning_content", if c.reasoning == [] then None else Some(c.reasoning))
  {
    var ms := MessageMembers(c);
    AllNamesDiffer();
    FieldAt(ms, 0, Role, Str(c.role));
    FieldAt(ms, 1, Content, Str(c.content));
    if c.reasoning == [] {
      FindNothing(ms, Name(Reasoning));
    } else {
      FieldAt(ms, 2, Reasoning, Str(c.reasoning));
    }
  }

  /** What a reader gets of a message; a reasoning that was left out is the empty default. */
  lemma MessageStrings(c: Choice)
    ensures var j := Obj(MessageMembers(c));
      GetString(j, Role, []) == c.role && GetString(j, Content, []) == c.content && GetString(j, Reasoning, []) == c.reasoning
  {
    MessageFields(c);
  }

  lemma ChoiceFields(c: Choice)
    ensures var j := Obj(ChoiceMembers(c));
      && HasNumber(j, "index", c.index) && Field(j, "message") == Some(Obj(MessageMembers(c)))
      && HasText(j, "finish_reason", Some(c.finishReason))
  {
    var ms := ChoiceMembers(c);
    AllNamesDiffer();
    FieldAt(ms, 0, Index, Num(ToString(c.index)));
    FieldAt(ms, 1, Message, Obj(MessageMembers(c)));
    FieldAt(ms, 2, FinishReason, Str(c.finishReason));
  }

  lemma UsageFields(r: Response)
    ensures var j := Obj(UsageMembers(r));
      && HasNumber(j, "prompt_tokens", r.promptTokens) && HasNumber(j, "completion_tokens", r.completionTokens)
      && HasNumber(j, "total_tokens", r.totalTokens)
  {
    var ms := UsageMembers(r);
    AllNamesDiffer();
    FieldAt(ms, 0, PromptTokens, Num(ToString(r.promptTokens)));
    FieldAt(ms, 1, CompletionTokens, Num(ToString(r.completionTokens)));
    FieldAt(ms, 2, TotalTokens, Num(ToString(r.totalTokens)));
  }

  /** The members that responses and chunks begin with. */
  ghost predicate StartsLike(j: Json, id: ByteString, kind: ByteString, created: int, model: ByteString)
    requires j.Obj?
  {
    && HasText(j, "id", Some(id)) && HasText(j, "object", Some(kind)) && HasNumber(j, "created", created)
    && HasText(j, "model", Some(model))
  }

  lemma StartFields(ms: seq<(ByteString, Json)>, id: ByteString, kind: ByteString, created: int, model: ByteString)
    requires |ms| >= 4 && ms[0] == Text(Id, id) && ms[1] == Text(Object, kind) && ms[2] == Number(Created, created)
    requires ms[3] == Text(Model, model)
    ensures StartsLike(Obj(ms), id, kind, created, model)
  {
    AllNamesDiffer();
    FieldAt(ms, 0, Id, Str(id));
    FieldAt(ms, 1, Object, Str(kind));
    FieldAt(ms, 2, Created, Num(ToString(created)));
    FieldAt(ms, 3, Model, Str(model));
  }

  lemma LastFields(ms: seq<(ByteString, Json)>, choices: seq<Json>, usage: seq<(ByteString, Json)>)
    requires |ms| == 6 && ms[0].0 == Name(Id) && ms[1].0 == Name(Object) && ms[2].0 == Name(Created) && ms[3].0 == Name(Model)
    requires ms[4] == (Name(Choices), Arr(choices)) && ms[5] == (Name(Usage), Obj(usage))
    ensures Find(ms, Name(Choices)) == Some(Arr(choices)) && Find(ms, Name(Usage)) == Some(Obj(usage))
  {
    AllNamesDiffer();
    FieldAt(ms, 4, Choices, Arr(choices));
    FieldAt(ms, 5, Usage, Obj(usage));
  }

  lemma ResponseShape(r: Response, ms: seq<(ByteString, Json)>)
    requires ms == ResponseMembers(r)
    ensures |ms| == 6 && ms[0] == Text(Id, r.id) && ms[1] == Text(Object, Ascii("chat.completion"))
    ensures ms[2] == Number(Created, r.created) && ms[3] == Text(Model, r.model)
    ensures ms[4] == (Name(Choices), Arr(ChoiceValues(r.choices))) && ms[5] == (Name(Usage), Obj(UsageMembers(r)))
  {
  }

  lemma FieldsFrom(ms: seq<(ByteString, Json)>, id: ByteString, kind: ByteString, created: int, model: ByteString,
                   choices: seq<Json>, usage: seq<(ByteString, Json)>)
    requires |ms| == 6 && ms[0] == Text(Id, id) && ms[1] == Text(Object, kind) && ms[2] == Number(Created, created)
    requires ms[3] == Text(Model, model) && ms[4] == (Name(Choices), Arr(choices)) && ms[5] == (Name(Usage), Obj(usage))
    ensures StartsLike(Obj(ms), id, kind, created, model)
    ensures Find(ms, Name(Choices)) == Some(Arr(choices)) && Find(ms, Name(Usage)) == Some(Obj(usage))
  {
    StartFields(ms, id, kind, created, model);
    LastFields(ms, choices, usage);
  }

  lemma ResponseFields(r: Response)
    ensures var j := Obj(ResponseMembers(r));
      && StartsLike(j, r.id, Ascii("chat.completion"), r.created, r.model)
      && Field(j, "choices") == Some(Arr(ChoiceValues(r.choices))) && Field(j, "usage") == Some(Obj(UsageMembers(r)))
  {
    var ms := ResponseMembers(r);
    ResponseShape(r, ms);
    FieldsFrom(ms, r.id, Ascii("chat.completion"), r.created, r.model, ChoiceValues(r.choices), UsageMembers(r));
  }

  /** A delta has just the texts that there are. */
  lemma DeltaFields(c: ChunkChoice)
    ensures var j := Obj(DeltaMembers(c));
      HasText(j, "role", c.role) && HasText(j, "content", c.content) && HasText(j, "reasoning_content", c.reasoning)
  {
    var ms := DeltaMembers(c);
    AllNamesDiffer();
    OptionalField(Role, c.role, [], OptionalText(Content, c.content) + OptionalText(Reasoning, c.reasoning), ms);
    OptionalField(Content, c.content, OptionalText(Role, c.role), OptionalText(Reasoning, c.reasoning), ms);
    OptionalField(Reasoning, c.reasoning, OptionalText(Role, c.role) + OptionalText(Content, c.content), [], ms);
  }

  lemma OptionalField(k: Key, x: Option<ByteString>, before: seq<(ByteString, Json)>, after: seq<(ByteString, Json)>,
                      ms: seq<(ByteString, Json)>)
    requires ms == before + OptionalText(k, x) + after
    requires forall i :: 0 <= i < |before| ==> before[i].0 != Name(k)
    requires forall i :: 0 <= i < |after| ==> after[i].0 != Name(k)
    ensures Find(ms, Name(k)) == if x.None? then None else Some(Str(x.value))
  {
    if x.None? {
      FindNothing(ms, Name(k));
    } else {
      FieldAt(ms, |before|, k, Str(x.value));
    }
  }

  /** A finish reason that there is not yet is null. */
  lemma ChunkChoiceFields(c: ChunkChoice)
    ensures var j := Obj(ChunkChoiceMembers(c));
      && HasNumber(j, "index", c.index) && Field(j, "delta") == Some(Obj(DeltaMembers(c)))
      && Field(j, "finish_reason") == Some(if c.finishReason.None? then Null else Str(c.finishReason.value))
  {
    var ms := ChunkChoiceMembers(c);
    AllNamesDiffer();
    FieldAt(ms, 0, Index, Num(ToString(c.index)));
    FieldAt(ms, 1, Delta, Obj(DeltaMembers(c)));
    FieldAt(ms, 2, FinishReason, if c.finishReason.None? then Null else Str(c.finishReason.value));
  }

  lemma ChunkFields(c: Chunk)
    ensures var j := Obj(ChunkMembers(c));
      && StartsLike(j, c.id, Ascii("chat.completion.chunk"), c.created, c.model)
      && Field(j, "choices") == Some(Arr(ChunkChoiceValues(c.deltas)))
  {
    var ms := ChunkMembers(c);
    StartFields(ms, c.id, Ascii("chat.completion.chunk"), c.created, c.model);
    AllNamesDiffer();
    FieldAt(ms, 4, Choices, Arr(ChunkChoiceValues(c.deltas)));
  }

  /** `parse_json` of a printed response is its value, so every string of it is found again by name. */
  lemma ResponseRoundTrip(r: Response)
    ensures ParseJson(Print(Obj(ResponseMembers(r)))) == Some(Obj(ResponseMembers(r)))
  {
    ResponseIsWellFormed(r);
    JsonRoundTrip(Obj(ResponseMembers(r)));
  }

  lemma ChunkRoundTrip(c: Chunk)
    ensures ParseJson(Print(Obj(ChunkMembers(c)))) == Some(Obj(ChunkMembers(c)))
  {
    ChunkIsWellFormed(c);
    JsonRoundTrip(Obj(ChunkMembers(c)));
  }

  // ---------------------------------------------------------------- printing, piece by piece

  lemma {:induction false} PrintMembersSnoc(ms: seq<(ByteString, Json)>, m: (ByteString, Json))
    ensures PrintMembers(ms + [m]) == PrintMembers(ms) + ((if ms == [] then [] else [44]) + PrintMember(m))
    decreases |ms|
  {
    if ms == [] {
      assert ms + [m] == [m];
    } else {
      assert (ms + [m])[1..] == ms[1..] + [m];
      PrintMembersSnoc(ms[1..], m);
      if |ms| == 1 {
        assert ms[1..] + [m] == [m];
      }
    }
  }

  lemma {:induction false} PrintItemsSnoc(items: seq<Json>, j: Json, text: ByteString)
    requires text == Print(j)
    ensures PrintItems(items + [j]) == PrintItems(items) + ((if items == [] then [] else [44]) + text)
    decreases |items|
  {
    if items == [] {
      assert items + [j] == [j];
    } else {
      assert (items + [j])[1..] == items[1..] + [j];
      PrintItemsSnoc(items[1..], j, text);
      if |items| == 1 {
        assert items[1..] + [j] == [j];
      }
    }
  }

  /** Texts with commas between them. */
  function Joined(texts: seq<ByteString>): ByteString {
    if texts == [] then []
    else if |texts| == 1 then texts[0]
    else Joined(texts[..|texts| - 1]) + [44] + texts[|texts| - 1]
  }

  /** Arrays and objects are printed without a blank. */
  lemma {:induction false} ItemsText(items: seq<Json>, texts: seq<ByteString>)
    requires |texts| == |items| && forall i :: 0 <= i < |items| ==> texts[i] == Print(items[i])
    ensures PrintItems(items) == Joined(texts)
    decreases |items|
  {
    if |items| > 1 {
      var n := |items| - 1;
      ItemsText(items[..n], texts[..n]);
      PrintItemsSnoc(items[..n], items[n], texts[n]);
      Assoc(PrintItems(items[..n]), [44], texts[n]);
      assert items[..n] + [items[n]] == items;
    }
  }

  lemma {:induction false} MembersText(ms: seq<(ByteString, Json)>, texts: seq<ByteString>)
    requires |texts| == |ms| && forall i :: 0 <= i < |ms| ==> texts[i] == Quoted(ms[i].0) + [58] + Print(ms[i].1)
    ensures PrintMembers(ms) == Joined(texts)
    decreases |ms|
  {
    if |ms| >= 1 {
      var n := |ms| - 1;
      Assoc(Quoted(ms[n].0), [58], Print(ms[n].1));
      assert texts[n] == PrintMember(ms[n]);
      if n > 0 {
        MembersText(ms[..n], texts[..n]);
        PrintMembersSnoc(ms[..n], ms[n]);
        Assoc(PrintMembers(ms[..n]), [44], texts[n]);
        assert ms[..n] + [ms[n]] == ms;
      }
    }
  }

  /** A member appended to an object that is being printed. */
  method AddMember(out: ByteString, ghost ms: seq<(ByteString, Json)>, first: bool, key: ByteString, text: ByteString, ghost v: Json)
    returns (r: ByteString)
    requires out == [123] + PrintMembers(ms) && first == (ms == []) && text == Print(v)
    ensures r == [123] + PrintMembers(ms + [(key, v)])
  {
    r := out;
    if !first { r := r + [44]; }
    r := EscapeJsonString(r, key);
    r := r + [58] + text;
    MemberAdded(out, ms, key, text, v, r);
  }

  lemma MemberAdded(out: ByteString, ms: seq<(ByteString, Json)>, key: ByteString, text: ByteString, v: Json, r: ByteString)
    requires out == [123] + PrintMembers(ms) && text == Print(v)
    requires r == (if ms == [] then out else out + [44]) + Quoted(key) + [58] + text
    ensures r == [123] + PrintMembers(ms + [(key, v)])
  {
    PrintMembersSnoc(ms, (key, v));
    Pieces(PrintMembers(ms), if ms == [] then [] else [44], Quoted(key), text);
    assert out + [] == out;
  }

  lemma Pieces(p: ByteString, comma: ByteString, key: ByteString, text: ByteString)
    ensures [123] + p + comma + key + [58] + text == [123] + (p + (comma + (key + ([58] + text))))
  {
  }

  method AddText(out: ByteString, ghost ms: seq<(ByteString, Json)>, first: bool, key: ByteString, x: ByteString) returns (r: ByteString)
    requires out == [123] + PrintMembers(ms) && first == (ms == [])
    ensures r == [123] + PrintMembers(ms + [(key, Str(x))])
  {
    var text := EscapeJsonString([], x);
    r := AddMember(out, ms, first, key, text, Str(x));
  }

  method CloseObject(out: ByteString, ghost ms: seq<(ByteString, Json)>) returns (r: ByteString)
    requires out == [123] + PrintMembers(ms)
    ensures r == Print(Obj(ms))
  {
    Assoc([123], PrintMembers(ms), [125]);
    r := out + [125];
  }

  method PrintMessage(c: Choice) returns (out: ByteString)
    ensures out == Print(Obj(MessageMembers(c)))
  {
    out := AddText([123], [], true, Name(Role), c.role);
    ghost var ms := [] + [Text(Role, c.role)];
    out := AddText(out, ms, false, Name(Content), c.content);
    ms := ms + [Text(Content, c.content)];
    if c.reasoning != [] {
      out := AddText(out, ms, false, Name(Reasoning), c.reasoning);
      ms := ms + [Text(Reasoning, c.reasoning)];
    }
    assert ms == MessageMembers(c);
    out := CloseObject(out, ms);
  }

  method PrintChoice(c: Choice) returns (out: ByteString)
    ensures out == Print(Obj(ChoiceMembers(c)))
  {
    out := AddMember([123], [], true, Name(Index), ToString(c.index), Num(ToString(c.index)));
    ghost var ms := [] + [Number(Index, c.index)];
    var message := PrintMessage(c);
    out := AddMember(out, ms, false, Name(Message), message, Obj(MessageMembers(c)));
    ms := ms + [(Name(Message), Obj(MessageMembers(c)))];
    out := AddText(out, ms, false, Name(FinishReason), c.finishReason);
    ms := ms + [Text(FinishReason, c.finishReason)];
    assert ms == ChoiceMembers(c);
    out := CloseObject(out, ms);
  }

  /** The loop over the choices, with a comma before all but the first. */
  method PrintChoices(cs: seq<Choice>) returns (out: ByteString)
    ensures out == Print(Arr(ChoiceValues(cs)))
  {
    var inner := [];
    for i := 0 to |cs|
      invariant inner == PrintItems(ChoiceValues(cs[..i]))
    {
      var text := PrintChoice(cs[i]);
      inner := inner + ((if i > 0 then [44] else []) + text);
      assert cs[..i + 1][..i] == cs[..i];
      PrintItemsSnoc(ChoiceValues(cs[..i]), Obj(ChoiceMembers(cs[i])), text);
    }
    assert cs[..|cs|] == cs;
    out := [91] + (inner + [93]);
  }

  method PrintUsage(r: Response) returns (out: ByteString)
    ensures out == Print(Obj(UsageMembers(r)))
  {
    out := AddMember([123], [], true, Name(PromptTokens), ToString(r.promptTokens), Num(ToString(r.promptTokens)));
    ghost var ms := [] + [Number(PromptTokens, r.promptTokens)];
    out := AddMember(out, ms, false, Name(CompletionTokens), ToString(r.completionTokens), Num(ToString(r.completionTokens)));
    ms := ms + [Number(CompletionTokens, r.completionTokens)];
    out := AddMember(out, ms, false, Name(TotalTokens), ToString(r.totalTokens), Num(ToString(r.totalTokens)));
    ms := ms + [Number(TotalTokens, r.totalTokens)];
    assert ms == UsageMembers(r);
    out := CloseObject(out, ms);
  }

  /** The members that responses and chunks begin with. */
  method PrintStart(id: ByteString, kind: ByteString, created: int, model: ByteString) returns (out: ByteString)
    ensures out == [123] + PrintMembers([Text(Id, id), Text(Object, kind), Number(Created, created), Text(Model, model)])
  {
    out := AddText([123], [], true, Name(Id), id);
    ghost var ms := [] + [Text(Id, id)];
    out := AddText(out, ms, false, Name(Object), kind);
    ms := ms + [Text(Object, kind)];
    out := AddMember(out, ms, false, Name(Created), ToString(created), Num(ToString(created)));
    ms := ms + [Number(Created, created)];
    out := AddText(out, ms, false, Name(Model), model);
    ms := ms + [Text(Model, model)];
    assert ms == [Text(Id, id), Text(Object, kind), Number(Created, created), Text(Model, model)];
  }

  /** `ChatCompletionResponse::to_json`. */
  method ResponseToJson(r: Response) returns (out: ByteString)
    ensures out == Print(Obj(ResponseMembers(r)))
    ensures ParseJson(out) == Some(Obj(ResponseMembers(r)))
  {
    out := PrintStart(r.id, Ascii("chat.completion"), r.created, r.model);
    ghost var ms := [Text(Id, r.id), Text(Object, Ascii("chat.completion")), Number(Created, r.created), Text(Model, r.model)];
    var choices := PrintChoices(r.choices);
    out := AddMember(out, ms, false, Name(Choices), choices, Arr(ChoiceValues(r.choices)));
    ms := ms + [(Name(Choices), Arr(ChoiceValues(r.choices)))];
    var usage := PrintUsage(r);
    out := AddMember(out, ms, false, Name(Usage), usage, Obj(UsageMembers(r)));
    ms := ms + [(Name(Usage), Obj(UsageMembers(r)))];
    assert ms == ResponseMembers(r);
    out := CloseObject(out, ms);
    ResponseRoundTrip(r);
  }
}
