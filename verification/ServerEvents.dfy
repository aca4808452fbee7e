/**
  Streamed chunks as server-sent events (src/serve/protocol.cpp:392-438): a payload never contains a line end, so a client
  that cuts the stream at blank lines gets exactly the payloads that were sent.
 */
module ServerEvents {
  import opened Bytes
  import opened JsonString
  import opened Json
  import opened Protocol

  // ---------------------------------------------------------------- printing a chunk

  method AddOptional(out: ByteString, ghost ms: seq<(ByteString, Json)>, first: bool, k: Key, x: Option<ByteString>)
    returns (r: ByteString, stillFirst: bool)
    requires out == [123] + PrintMembers(ms) && first == (ms == [])
    ensures r == [123] + PrintMembers(ms + OptionalText(k, x)) && stillFirst == (ms + OptionalText(k, x) == [])
  {
    if x.None? {
      assert ms + [] == ms;
      return out, first;
    }
    r := AddText(out, ms, first, Name(k), x.value);
    stillFirst := false;
  }

  method PrintDelta(c: ChunkChoice) returns (out: ByteString)
    ensures out == Print(Obj(DeltaMembers(c)))
  {
    var first;
    out, first := AddOptional([123], [], true, Role, c.role);
    ghost var ms := [] + OptionalText(Role, c.role);
    out, first := AddOptional(out, ms, first, Content, c.content);
    ms := ms + OptionalText(Content, c.content);
    out, first := AddOptional(out, ms, first, Reasoning, c.reasoning);
    ms := ms + OptionalText(Reasoning, c.reasoning);
    assert ms == DeltaMembers(c);
    out := CloseObject(out, ms);
  }

  method PrintChunkChoice(c: ChunkChoice) returns (out: ByteString)
    ensures out == Print(Obj(ChunkChoiceMembers(c)))
  {
    out := AddMember([123], [], true, Name(Index), ToString(c.index), Num(ToString(c.index)));
    ghost var ms := [] + [Number(Index, c.index)];
    var delta := PrintDelta(c);
    out := AddMember(out, ms, false, Name(Delta), delta, Obj(DeltaMembers(c)));
    ms := ms + [(Name(Delta), Obj(DeltaMembers(c)))];
    if c.finishReason.Some? {
      out := AddText(out, ms, false, Name(FinishReason), c.finishReason.value);
      ms := ms + [Text(FinishReason, c.finishReason.value)];
    } else {
      out := AddMember(out, ms, false, Name(FinishReason), [110, 117, 108, 108], Null);
      ms := ms + [(Name(FinishReason), Null)];
    }
    assert ms == ChunkChoiceMembers(c);
    out := CloseObject(out, ms);
  }

  method PrintChunkChoices(cs: seq<ChunkChoice>) returns (out: ByteString)
    ensures out == Print(Arr(ChunkChoiceValues(cs)))
  {
    var inner := [];
    for i := 0 to |cs|
      invariant inner == PrintItems(ChunkChoiceValues(cs[..i]))
    {
      var text := PrintChunkChoice(cs[i]);
      inner := inner + ((if i > 0 then [44] else []) + text);
      assert cs[..i + 1][..i] == cs[..i];
      PrintItemsSnoc(ChunkChoiceValues(cs[..i]), Obj(ChunkChoiceMembers(cs[i])), text);
    }
    assert cs[..|cs|] == cs;
    out := [91] + (inner + [93]);
  }

  /** The field name that starts an event. */
  function DataPrefix(): ByteString { Ascii("data: ") }

  function Payload(c: Chunk): ByteString { Print(Obj(ChunkMembers(c))) }

  /** `to_sse_event`. */
  method ToSseEvent(c: Chunk) returns (event: ByteString)
    ensures event == Ascii("data: ") + Payload(c) + [10, 10]
  {
    var json := PrintStart(c.id, Ascii("chat.completion.chunk"), c.created, c.model);
    ghost var ms := [Text(Id, c.id), Text(Object, Ascii("chat.completion.chunk")), Number(Created, c.created), Text(Model, c.model)];
    var choices := PrintChunkChoices(c.deltas);
    json := AddMember(json, ms, false, Name(Choices), choices, Arr(ChunkChoiceValues(c.deltas)));
    ms := ms + [(Name(Choices), Arr(ChunkChoiceValues(c.deltas)))];
    assert ms == ChunkMembers(c);
    json := CloseObject(json, ms);
    event := DataPrefix() + json + [10, 10];
  }

  // ---------------------------------------------------------------- no line ends inside

  lemma NumbersHaveNoControls(s: ByteString)
    requires NumberLength(s) == |s|
    ensures NoControls(s)
  {
    var sign := SignLength(s);
    var a := sign + Digits(s[sign..]);
    if s != [] {
      DigitsHaveNoControls(s, sign);
      TailHasNoControls(s, a);
    }
  }

  /** The fraction and the exponent that follow the digits. */
  lemma TailHasNoControls(s: ByteString, a: nat)
    requires a <= |s| && TailEnd(s, a) == |s|
    ensures forall i :: a <= i < |s| ==> s[i] >= 32
  {
    var b := a + Fraction(s[a..]);
    FractionHasNoControls(s[a..]);
    ExponentHasNoControls(s[b..]);
    forall i | a <= i < |s|
      ensures s[i] >= 32
    {
      assert s[i] == if i < b then s[a..][i - a] else s[b..][i - b];
    }
  }

  lemma {:induction false} RunOfDigits(s: ByteString, i: nat)
    requires i < Digits(s)
    ensures IsDigit(s[i])
  {
    if i > 0 { RunOfDigits(s[1..], i - 1); }
  }

  lemma DigitsHaveNoControls(s: ByteString, from: nat)
    requires from <= |s| && forall i :: 0 <= i < from ==> s[i] >= 32
    ensures forall i :: 0 <= i < from + Digits(s[from..]) ==> s[i] >= 32
  {
    forall i | from <= i < from + Digits(s[from..])
      ensures s[i] >= 32
    {
      RunOfDigits(s[from..], i - from);
    }
  }

  lemma FractionHasNoControls(s: ByteString)
    ensures forall i :: 0 <= i < Fraction(s) ==> s[i] >= 32
  {
    if Starts(s, 46) { DigitsHaveNoControls(s, 1); }
  }

  lemma ExponentHasNoControls(s: ByteString)
    ensures forall i :: 0 <= i < Exponent(s) ==> s[i] >= 32
  {
    if Starts(s, 101) || Starts(s, 69) {
      var sign := if Starts(s[1..], 43) || Starts(s[1..], 45) then 1 else 0;
      DigitsHaveNoControls(s, 1 + sign);
    }
  }

  /** A printed value has no control characters, whatever its strings hold. */
  lemma {:induction false} PrintHasNoControls(j: Json)
    requires WellFormed(j)
    ensures NoControls(Print(j))
    decreases j
  {
    match j
    case Num(text) => NumbersHaveNoControls(text);
    case Str(s) => QuotedHasNoControls(s);
    case Arr(items) => ItemsHaveNoControls(items);
    case Obj(members) => MembersHaveNoControls(members);
    case _ =>
  }

  lemma {:induction false} ItemsHaveNoControls(items: seq<Json>)
    requires forall i :: 0 <= i < |items| ==> WellFormed(items[i])
    ensures NoControls(PrintItems(items))
    decreases items
  {
    if items != [] {
      PrintHasNoControls(items[0]);
      if |items| > 1 { ItemsHaveNoControls(items[1..]); }
    }
  }

  lemma {:induction false} MembersHaveNoControls(members: seq<(ByteString, Json)>)
    requires forall i :: 0 <= i < |members| ==> WellFormed(members[i].1)
    ensures NoControls(PrintMembers(members))
    decreases members
  {
    if members != [] {
      MemberHasNoControls(members[0]);
      if |members| > 1 { MembersHaveNoControls(members[1..]); }
    }
  }

  lemma {:induction false} MemberHasNoControls(m: (ByteString, Json))
    requires WellFormed(m.1)
    ensures NoControls(PrintMember(m))
    decreases m
  {
    QuotedHasNoControls(m.0);
    PrintHasNoControls(m.1);
  }

  lemma PayloadHasNoControls(c: Chunk)
    ensures NoControls(DataPrefix() + Payload(c))
  {
    ChunkIsWellFormed(c);
    PrintHasNoControls(Obj(ChunkMembers(c)));
  }

  // ---------------------------------------------------------------- cutting the stream

  /** Where the first blank line starts. */
  function FirstBreak(s: ByteString): (r: Option<nat>)
    ensures r.Some? ==> r.value + 2 <= |s|
  {
    if |s| < 2 then None
    else if s[0] == 10 && s[1] == 10 then Some(0)
    else
      var r := FirstBreak(s[1..]);
      if r.None? then None else Some(r.value + 1)
  }

  /** The events of a stream: what comes before each blank line. */
  function SplitEvents(s: ByteString): seq<ByteString>
    decreases |s|
  {
    var n := FirstBreak(s);
    if n.None? then [] else [s[..n.value]] + SplitEvents(s[n.value + 2..])
  }

  lemma {:induction false} BreakIsFound(a: ByteString, rest: ByteString)
    requires NoControls(a)
    ensures FirstBreak(a + ([10, 10] + rest)) == Some(|a|)
  {
    var s := a + ([10, 10] + rest);
    if a == [] {
      assert s == [10, 10] + rest;
    } else {
      assert s[1..] == a[1..] + ([10, 10] + rest);
      BreakIsFound(a[1..], rest);
    }
  }

  /** The stream of some chunks, and the events in it. */
  function Stream(chunks: seq<Chunk>): ByteString {
    if chunks == [] then [] else DataPrefix() + Payload(chunks[0]) + [10, 10] + Stream(chunks[1..])
  }

  function Events(chunks: seq<Chunk>): seq<ByteString> {
    if chunks == [] then [] else [DataPrefix() + Payload(chunks[0])] + Events(chunks[1..])
  }

  lemma OneEvent(event: ByteString, rest: ByteString)
    requires NoControls(event)
    ensures SplitEvents(event + [10, 10] + rest) == [event] + SplitEvents(rest)
  {
    var s := event + [10, 10] + rest;
    assert s == event + ([10, 10] + rest);
    BreakIsFound(event, rest);
    assert s[..|event|] == event && s[|event| + 2..] == rest;
  }

  /** Cutting the stream at blank lines gives back exactly the events that were sent, in order. */
  lemma {:induction false} StreamSplits(chunks: seq<Chunk>)
    ensures SplitEvents(Stream(chunks)) == Events(chunks)
  {
    if chunks != [] {
      StreamSplits(chunks[1..]);
      PayloadHasNoControls(chunks[0]);
      OneEvent(DataPrefix() + Payload(chunks[0]), Stream(chunks[1..]));
    }
  }

  /** And each payload parses to the chunk's value. */
  lemma EventParses(chunks: seq<Chunk>, i: nat)
    requires i < |chunks|
    ensures |Events(chunks)| == |chunks| && Has(Events(chunks)[i], DataPrefix())
    ensures ParseJson(Events(chunks)[i][|DataPrefix()|..]) == Some(Obj(ChunkMembers(chunks[i])))
  {
    EventAt(chunks, i);
    ChunkRoundTrip(chunks[i]);
    WordReads(DataPrefix(), Payload(chunks[i]));
  }

  lemma {:induction false} EventAt(chunks: seq<Chunk>, i: nat)
    requires i < |chunks|
    ensures |Events(chunks)| == |chunks| && Events(chunks)[i] == DataPrefix() + Payload(chunks[i])
  {
    if i > 0 {
      EventAt(chunks[1..], i - 1);
    } else if |chunks| > 1 {
      EventAt(chunks[1..], 0);
    }
  }
}
