/**
  The pre-tokenizer (src/targets/qwen3_8/tokenizer.cpp:193-338): a hand-written scanner that stands for a published
  regular expression. The reference is that expression under backtracking, leftmost-first semantics.
 */
module Scanner {
  import opened Bytes
  import opened Utf8

  // ---------------------------------------------------------------- character classes

  /** The categories of the Unicode table, which is a parameter. */
  datatype Category = Other | Letter | Number | Mark | Whitespace | Punctuation | Symbol

  const CR: nat := 13
  const LF: nat := 10
  const SPACE: nat := 32
  const APOSTROPHE: nat := 39

  predicate AsciiSpace(c: nat) {
    c == 32 || 9 <= c <= 13
  }

  /** A category table; the ASCII blanks are not letters, numbers or marks in it. */
  datatype Table = Table(category: nat -> Category) {
    predicate IsLetter(c: nat) { category(c) == Letter }
    predicate IsNumber(c: nat) { category(c) == Number }
    predicate IsMark(c: nat) { category(c) == Mark }
    predicate IsSpace(c: nat) { category(c) == Whitespace || AsciiSpace(c) }
    predicate IsValid(c: nat) { category(c) != Other || IsSpace(c) }
    predicate IsWord(c: nat) { IsLetter(c) || IsMark(c) }
    predicate IsPunct(c: nat) { !(IsSpace(c) || IsLetter(c) || IsMark(c) || IsNumber(c)) }

    ghost predicate Sane() {
      forall c :: AsciiSpace(c) ==> !IsLetter(c) && !IsNumber(c) && !IsMark(c)
    }
  }

  predicate IsNewline(c: nat) { c == CR || c == LF }

  function Lower(c: nat): nat { if 65 <= c <= 90 then c + 32 else c }

  /** The classes of the expression, and `KnownPunct`, the scanner's own reading of `Punct`. */
  datatype CharSet =
    | Exactly(c: nat) | AnyCase(c: nat)
    | Prefix       // [^\r\n\p{L}\p{N}]
    | Word         // [\p{L}\p{M}]
    | Digit        // \p{N}
    | Punct        // [^\s\p{L}\p{M}\p{N}]
    | KnownPunct   // the same, of a category the table knows
    | Newline      // [\r\n]
    | Blank        // \s
    | NonBlank     // \S

  predicate In(t: Table, cls: CharSet, c: nat) {
    match cls
    case Exactly(d) => c == d
    case AnyCase(d) => Lower(c) == d
    case Prefix => c != CR && c != LF && !t.IsLetter(c) && !t.IsNumber(c)
    case Word => t.IsWord(c)
    case Digit => t.IsNumber(c)
    case Punct => t.IsPunct(c)
    case KnownPunct => t.IsPunct(c) && t.IsValid(c)
    case Newline => IsNewline(c)
    case Blank => t.IsSpace(c)
    case NonBlank => !t.IsSpace(c)
  }

  /** Position `i` exists and its character is in the class. */
  predicate At(t: Table, cls: CharSet, s: CodePoints, i: nat) {
    i < |s| && In(t, cls, s[i])
  }

  // ---------------------------------------------------------------- regular expressions

  datatype Regex =
    | Empty
    | Class(cls: CharSet)
    | Cat(a: Regex, b: Regex)
    | Alt(a: Regex, b: Regex)
    | Star(r: Regex)
    | NotAhead(cls: CharSet)

  function Plus(r: Regex): Regex { Cat(r, Star(r)) }

  function Opt(r: Regex): Regex { Alt(r, Empty) }

  /** Every way `r` can match from `i`, as end positions, in the order a backtracking matcher tries them. */
  function Ends(t: Table, r: Regex, s: CodePoints, i: nat): (ends: seq<nat>)
    requires i <= |s|
    ensures forall k :: 0 <= k < |ends| ==> i <= ends[k] <= |s|
    decreases r, |s| - i, 1, 0
  {
    match r
    case Empty => [i]
    case Class(cls) => if At(t, cls, s, i) then [i + 1] else []
    case Cat(a, b) => EndsFromAll(t, b, s, i, Ends(t, a, s, i))
    case Alt(a, b) => Ends(t, a, s, i) + Ends(t, b, s, i)
    case Star(a) => StarFromAll(t, a, s, i, Ends(t, a, s, i)) + [i]
    case NotAhead(cls) => if At(t, cls, s, i) then [] else [i]
  }

  function EndsFromAll(t: Table, b: Regex, s: CodePoints, i: nat, starts: seq<nat>): (ends: seq<nat>)
    requires i <= |s| && forall k :: 0 <= k < |starts| ==> i <= starts[k] <= |s|
    ensures forall k :: 0 <= k < |ends| ==> i <= ends[k] <= |s|
    decreases b, |s| + 1, 0, |starts|
  {
    if starts == [] then [] else Ends(t, b, s, starts[0]) + EndsFromAll(t, b, s, i, starts[1..])
  }

  /** Further rounds of a star, from every end that made progress. */
  function StarFromAll(t: Table, a: Regex, s: CodePoints, i: nat, starts: seq<nat>): (ends: seq<nat>)
    requires i <= |s| && forall k :: 0 <= k < |starts| ==> i <= starts[k] <= |s|
    ensures forall k :: 0 <= k < |ends| ==> i <= ends[k] <= |s|
    decreases Star(a), |s| - i, 0, |starts|
  {
    if starts == [] then []
    else
      (if starts[0] > i then Ends(t, Star(a), s, starts[0]) else []) + StarFromAll(t, a, s, i, starts[1..])
  }

  /** The match a leftmost-first matcher reports at `i`. */
  function Match(t: Table, r: Regex, s: CodePoints, i: nat): Option<nat>
    requires i <= |s|
  {
    var ends := Ends(t, r, s, i);
    if ends == [] then None else Some(ends[0])
  }

  /** (?i:'s|'t|'re|'ve|'m|'ll|'d) */
  function Contractions(): Regex {
    var q := Class(Exactly(APOSTROPHE));
    Alt(Cat(q, Class(AnyCase(115))),
    Alt(Cat(q, Class(AnyCase(116))),
    Alt(Cat(q, Cat(Class(AnyCase(114)), Class(AnyCase(101)))),
    Alt(Cat(q, Cat(Class(AnyCase(118)), Class(AnyCase(101)))),
    Alt(Cat(q, Class(AnyCase(109))),
    Alt(Cat(q, Cat(Class(AnyCase(108)), Class(AnyCase(108)))),
        Cat(q, Class(AnyCase(100)))))))))
  }

  /** [^\r\n\p{L}\p{N}]?[\p{L}\p{M}]+ */
  function Words(): Regex { Cat(Opt(Class(Prefix)), Plus(Class(Word))) }

  /** One optional blank, then [^\s\p{L}\p{M}\p{N}]+[\r\n]* */
  function Puncts(): Regex { Cat(Opt(Class(Exactly(SPACE))), Cat(Plus(Class(Punct)), Star(Class(Newline)))) }

  /** \s*[\r\n]+ */
  function LineEnds(): Regex { Cat(Star(Class(Blank)), Plus(Class(Newline))) }

  /** \s+(?!\S) */
  function TrailingBlanks(): Regex { Cat(Plus(Class(Blank)), NotAhead(NonBlank)) }

  /** \s+ */
  function Blanks(): Regex { Plus(Class(Blank)) }

  function Qwen(): Regex {
    Alt(Contractions(), Alt(Words(), Alt(Class(Digit), Alt(Puncts(), Alt(LineEnds(), Alt(TrailingBlanks(), Blanks()))))))
  }

  // ---------------------------------------------------------------- matching, combinator by combinator

  lemma MatchAlt(t: Table, a: Regex, b: Regex, s: CodePoints, i: nat)
    requires i <= |s|
    ensures Match(t, Alt(a, b), s, i) == if Match(t, a, s, i).Some? then Match(t, a, s, i) else Match(t, b, s, i)
  {
    var x, y := Ends(t, a, s, i), Ends(t, b, s, i);
    assert Ends(t, Alt(a, b), s, i) == x + y;
    assert x == [] ==> x + y == y;
  }

  lemma EndsFromOne(t: Table, b: Regex, s: CodePoints, i: nat, e: nat)
    requires i <= e <= |s|
    ensures EndsFromAll(t, b, s, i, [e]) == Ends(t, b, s, e)
  {
    assert [e][1..] == [];
    assert EndsFromAll(t, b, s, i, []) == [];
  }

  lemma MatchCatClass(t: Table, cls: CharSet, b: Regex, s: CodePoints, i: nat)
    requires i <= |s|
    ensures Match(t, Cat(Class(cls), b), s, i) == if At(t, cls, s, i) then Match(t, b, s, i + 1) else None
  {
    if At(t, cls, s, i) {
      assert Ends(t, Class(cls), s, i) == [i + 1];
      EndsFromOne(t, b, s, i, i + 1);
    } else {
      assert Ends(t, Class(cls), s, i) == [];
      assert EndsFromAll(t, b, s, i, []) == [];
    }
  }

  /** Starts from which `b` does not match are passed over. */
  lemma {:induction false} FirstOf(t: Table, b: Regex, s: CodePoints, i: nat, starts: seq<nat>, m: nat)
    requires i <= |s| && m < |starts| && forall k :: 0 <= k < |starts| ==> i <= starts[k] <= |s|
    requires forall j :: 0 <= j < m ==> Ends(t, b, s, starts[j]) == []
    requires Ends(t, b, s, starts[m]) != []
    ensures var ends := EndsFromAll(t, b, s, i, starts); ends != [] && ends[0] == Ends(t, b, s, starts[m])[0]
    decreases m
  {
    var x, y := Ends(t, b, s, starts[0]), EndsFromAll(t, b, s, i, starts[1..]);
    assert EndsFromAll(t, b, s, i, starts) == x + y;
    if m > 0 {
      assert x + y == y;
      FirstOf(t, b, s, i, starts[1..], m - 1);
    }
  }

  lemma {:induction false} NoneOf(t: Table, b: Regex, s: CodePoints, i: nat, starts: seq<nat>)
    requires i <= |s| && forall k :: 0 <= k < |starts| ==> i <= starts[k] <= |s|
    requires forall j :: 0 <= j < |starts| ==> Ends(t, b, s, starts[j]) == []
    ensures EndsFromAll(t, b, s, i, starts) == []
  {
    if starts != [] {
      NoneOf(t, b, s, i, starts[1..]);
    }
  }

  /** Concatenation takes the first end of `a`, in order, from which `b` goes on. */
  lemma MatchCatFirst(t: Table, a: Regex, b: Regex, s: CodePoints, i: nat, m: nat)
    requires i <= |s| && m < |Ends(t, a, s, i)|
    requires forall j :: 0 <= j < m ==> Match(t, b, s, Ends(t, a, s, i)[j]).None?
    requires Match(t, b, s, Ends(t, a, s, i)[m]).Some?
    ensures Match(t, Cat(a, b), s, i) == Match(t, b, s, Ends(t, a, s, i)[m])
  {
    var starts := Ends(t, a, s, i);
    forall j | 0 <= j < m
      ensures Ends(t, b, s, starts[j]) == []
    {
      assert Match(t, b, s, starts[j]).None?;
    }
    FirstOf(t, b, s, i, starts, m);
    assert Ends(t, Cat(a, b), s, i) == EndsFromAll(t, b, s, i, starts);
  }

  lemma MatchCatNone(t: Table, a: Regex, b: Regex, s: CodePoints, i: nat)
    requires i <= |s| && forall j :: 0 <= j < |Ends(t, a, s, i)| ==> Match(t, b, s, Ends(t, a, s, i)[j]).None?
    ensures Match(t, Cat(a, b), s, i) == None
  {
    var starts := Ends(t, a, s, i);
    forall j | 0 <= j < |starts|
      ensures Ends(t, b, s, starts[j]) == []
    {
      assert Match(t, b, s, starts[j]).None?;
    }
    NoneOf(t, b, s, i, starts);
    assert Ends(t, Cat(a, b), s, i) == EndsFromAll(t, b, s, i, starts);
  }

  lemma MatchCatOfOne(t: Table, a: Regex, b: Regex, s: CodePoints, i: nat, e: nat)
    requires i <= e <= |s| && Ends(t, a, s, i) == [e]
    ensures Match(t, Cat(a, b), s, i) == Match(t, b, s, e)
  {
    EndsFromOne(t, b, s, i, e);
    assert Ends(t, Cat(a, b), s, i) == EndsFromAll(t, b, s, i, [e]);
  }

  lemma MatchCatOfTwo(t: Table, a: Regex, b: Regex, s: CodePoints, i: nat, d: nat, e: nat)
    requires i <= d <= |s| && i <= e <= |s| && Ends(t, a, s, i) == [d, e]
    ensures Match(t, Cat(a, b), s, i) == if Match(t, b, s, d).Some? then Match(t, b, s, d) else Match(t, b, s, e)
  {
    if Match(t, b, s, d).Some? {
      MatchCatFirst(t, a, b, s, i, 0);
    } else if Match(t, b, s, e).Some? {
      MatchCatFirst(t, a, b, s, i, 1);
    } else {
      MatchCatNone(t, a, b, s, i);
    }
  }

  lemma MatchCatOpt(t: Table, cls: CharSet, b: Regex, s: CodePoints, i: nat)
    requires i <= |s|
    ensures Match(t, Cat(Opt(Class(cls)), b), s, i) ==
      if At(t, cls, s, i) && Match(t, b, s, i + 1).Some? then Match(t, b, s, i + 1) else Match(t, b, s, i)
  {
    OptEnds(t, cls, s, i);
    if At(t, cls, s, i) {
      MatchCatOfTwo(t, Opt(Class(cls)), b, s, i, i + 1, i);
    } else {
      MatchCatOfOne(t, Opt(Class(cls)), b, s, i, i);
    }
  }

  lemma OptEnds(t: Table, cls: CharSet, s: CodePoints, i: nat)
    requires i <= |s|
    ensures Ends(t, Opt(Class(cls)), s, i) == if At(t, cls, s, i) then [i + 1, i] else [i]
  {
    assert Ends(t, Empty, s, i) == [i];
    assert Ends(t, Class(cls), s, i) == if At(t, cls, s, i) then [i + 1] else [];
  }

  /** Where the run of the class from `i` stops. */
  function RunEnd(t: Table, cls: CharSet, s: CodePoints, i: nat): (k: nat)
    requires i <= |s|
    ensures i <= k <= |s|
    ensures forall j :: i <= j < k ==> In(t, cls, s[j])
    ensures !At(t, cls, s, k)
    decreases |s| - i
  {
    if At(t, cls, s, i) then RunEnd(t, cls, s, i + 1) else i
  }

  /** `k, k - 1, ..., i` */
  function Countdown(k: nat, i: nat): (r: seq<nat>)
    requires i <= k
    ensures |r| == k - i + 1 && forall j :: 0 <= j < |r| ==> r[j] == k - j
    decreases k - i
  {
    if k == i then [i] else [k] + Countdown(k - 1, i)
  }

  lemma CountdownSnoc(k: nat, i: nat)
    requires i < k
    ensures Countdown(k, i) == Countdown(k, i + 1) + [i]
  {
  }

  lemma StarOfOne(t: Table, a: Regex, s: CodePoints, i: nat, e: nat)
    requires i < e <= |s| && Ends(t, a, s, i) == [e]
    ensures Ends(t, Star(a), s, i) == Ends(t, Star(a), s, e) + [i]
  {
    var starts := [e];
    assert starts[1..] == [] && StarFromAll(t, a, s, i, []) == [];
    assert StarFromAll(t, a, s, i, starts) == Ends(t, Star(a), s, e) + [];
  }

  lemma StarOfNone(t: Table, a: Regex, s: CodePoints, i: nat)
    requires i <= |s| && Ends(t, a, s, i) == []
    ensures Ends(t, Star(a), s, i) == [i]
  {
    assert StarFromAll(t, a, s, i, []) == [];
  }

  /** A greedy star over a class tries the whole run first and gives back one character at a time. */
  lemma {:induction false} StarOfClass(t: Table, cls: CharSet, s: CodePoints, i: nat)
    requires i <= |s|
    ensures Ends(t, Star(Class(cls)), s, i) == Countdown(RunEnd(t, cls, s, i), i)
    decreases |s| - i
  {
    if At(t, cls, s, i) {
      StarOfClass(t, cls, s, i + 1);
      StarOfOne(t, Class(cls), s, i, i + 1);
      CountdownSnoc(RunEnd(t, cls, s, i), i);
    } else {
      StarOfNone(t, Class(cls), s, i);
    }
  }

  /** Concatenation after a run that is given back from `k` down to `lo`. */
  lemma MatchAfterRun(t: Table, a: Regex, b: Regex, s: CodePoints, i: nat, lo: nat, k: nat, m: nat)
    requires i <= lo <= m <= k <= |s| && Ends(t, a, s, i) == Countdown(k, lo)
    requires forall j: nat :: m < j <= k ==> Match(t, b, s, j).None?
    requires Match(t, b, s, m).Some?
    ensures Match(t, Cat(a, b), s, i) == Match(t, b, s, m)
  {
    var starts := Ends(t, a, s, i);
    forall j | 0 <= j < k - m
      ensures Match(t, b, s, starts[j]).None?
    {
      assert starts[j] == k - j;
    }
    assert starts[k - m] == m;
    MatchCatFirst(t, a, b, s, i, k - m);
  }

  lemma NoMatchAfterRun(t: Table, a: Regex, b: Regex, s: CodePoints, i: nat, lo: nat, k: nat)
    requires i <= lo <= k <= |s| && Ends(t, a, s, i) == Countdown(k, lo)
    requires forall j: nat :: lo <= j <= k ==> Match(t, b, s, j).None?
    ensures Match(t, Cat(a, b), s, i) == None
  {
    MatchCatNone(t, a, b, s, i);
  }

  lemma PlusOfClass(t: Table, cls: CharSet, s: CodePoints, i: nat)
    requires i <= |s|
    ensures Ends(t, Plus(Class(cls)), s, i) ==
      if At(t, cls, s, i) then Countdown(RunEnd(t, cls, s, i), i + 1) else []
  {
    var starts := Ends(t, Class(cls), s, i);
    if At(t, cls, s, i) {
      StarOfClass(t, cls, s, i + 1);
      assert starts == [i + 1];
      EndsFromOne(t, Star(Class(cls)), s, i, i + 1);
    } else {
      assert starts == [];
      assert EndsFromAll(t, Star(Class(cls)), s, i, []) == [];
    }
  }

  // ---------------------------------------------------------------- the scanner

  /** The length of a contraction at `i`, or 0. */
  function ContractionLength(s: CodePoints, i: nat): (n: nat)
    requires i < |s|
    ensures i + n <= |s|
  {
    if s[i] == APOSTROPHE && i + 1 < |s| then
      var c1 := Lower(s[i + 1]);
      if c1 == 115 || c1 == 116 || c1 == 109 || c1 == 100 then 2
      else if i + 2 < |s| then
        var c2 := Lower(s[i + 2]);
        if (c1 == 114 && c2 == 101) || (c1 == 118 && c2 == 101) || (c1 == 108 && c2 == 108) then 3 else 0
      else 0
    else 0
  }

  /** One past the last newline in `[i, k)`, or 0. */
  function LastNewlineEnd(s: CodePoints, i: nat, k: nat): (e: nat)
    requires i <= k <= |s|
    ensures e <= k
    ensures e > 0 ==> i < e && IsNewline(s[e - 1]) && forall j :: e <= j < k ==> !IsNewline(s[j])
    ensures e == 0 ==> forall j :: i <= j < k ==> !IsNewline(s[j])
    decreases k
  {
    if k == i then 0 else if IsNewline(s[k - 1]) then k else LastNewlineEnd(s, i, k - 1)
  }

  /** The second alternative's test. */
  predicate StartsWord(t: Table, s: CodePoints, i: nat)
    requires i < |s|
  {
    s[i] != CR && s[i] != LF && !t.IsNumber(s[i]) && (t.IsWord(s[i]) || At(t, Word, s, i + 1))
  }

  /** The fourth alternative's test: after a blank the next character decides, and past the end nothing is excluded. */
  predicate StartsPunct(t: Table, s: CodePoints, i: nat)
    requires i < |s|
  {
    t.IsValid(s[i]) && (if s[i] == SPACE then i + 1 == |s| || t.IsPunct(s[i + 1]) else t.IsPunct(s[i]))
  }

  function PunctEnd(t: Table, s: CodePoints, i: nat): (e: nat)
    requires i < |s| && StartsPunct(t, s, i)
    ensures i < e <= |s|
  {
    var from := if s[i] == SPACE then i + 1 else i;
    RunEnd(t, Newline, s, RunEnd(t, KnownPunct, s, from))
  }

  function BlankEnd(t: Table, s: CodePoints, i: nat): (e: nat)
    requires i < |s|
    ensures i < e <= |s|
  {
    var k := RunEnd(t, Blank, s, i);
    var newline := LastNewlineEnd(s, i, k);
    if newline > 0 then newline
    else if k - i > 1 && k < |s| then k - 1
    else if k > i then k
    else i + 1
  }

  /** Where the scanner ends the token that starts at `i`. */
  function ScanEnd(t: Table, s: CodePoints, i: nat): (e: nat)
    requires i < |s|
    ensures i < e <= |s|
  {
    var n := ContractionLength(s, i);
    if n > 0 then i + n
    else if StartsWord(t, s, i) then RunEnd(t, Word, s, i + 1)
    else if t.IsNumber(s[i]) then i + 1
    else if StartsPunct(t, s, i) then PunctEnd(t, s, i)
    else BlankEnd(t, s, i)
  }

  /** The tokens from `i` on. */
  function Split(t: Table, s: CodePoints, i: nat): seq<(nat, nat)>
    requires i <= |s|
    decreases |s| - i
  {
    if i == |s| then [] else [(i, ScanEnd(t, s, i))] + Split(t, s, ScanEnd(t, s, i))
  }

  method RunFrom(t: Table, cls: CharSet, s: CodePoints, i: nat) returns (k: nat)
    requires i <= |s|
    ensures k == RunEnd(t, cls, s, i)
  {
    k := i;
    while At(t, cls, s, k)
      invariant i <= k <= |s|
      invariant RunEnd(t, cls, s, k) == RunEnd(t, cls, s, i)
      decreases |s| - k
    {
      k := k + 1;
    }
  }

  /** The blank run: its length and the end of its last newline. */
  method CountBlanks(t: Table, s: CodePoints, pos: nat) returns (numBlank: nat, lastEnd: nat)
    requires pos <= |s|
    ensures pos + numBlank == RunEnd(t, Blank, s, pos)
    ensures lastEnd == LastNewlineEnd(s, pos, pos + numBlank)
  {
    numBlank, lastEnd := 0, 0;
    while At(t, Blank, s, pos + numBlank)
      invariant pos + numBlank <= |s|
      invariant RunEnd(t, Blank, s, pos + numBlank) == RunEnd(t, Blank, s, pos)
      invariant lastEnd == LastNewlineEnd(s, pos, pos + numBlank)
      decreases |s| - (pos + numBlank)
    {
      if IsNewline(s[pos + numBlank]) { lastEnd := pos + numBlank + 1; }
      numBlank := numBlank + 1;
    }
  }

  /** The body of the scanner's loop: one token. */
  method ScanToken(t: Table, s: CodePoints, start: nat) returns (pos: nat)
    requires start < |s|
    ensures pos == ScanEnd(t, s, start)
  {
    pos := start;
    var n := ContractionLength(s, pos);
    if n > 0 { return pos + n; }
    if s[pos] != CR && s[pos] != LF && !t.IsNumber(s[pos]) {
      if t.IsWord(s[pos]) || At(t, Word, s, pos + 1) {
        pos := RunFrom(t, Word, s, pos + 1);
        return;
      }
    }
    if t.IsNumber(s[pos]) { return pos + 1; }
    if StartsPunct(t, s, pos) {
      if s[pos] == SPACE { pos := pos + 1; }
      pos := RunFrom(t, KnownPunct, s, pos);
      pos := RunFrom(t, Newline, s, pos);
      return;
    }
    var numBlank, lastEnd := CountBlanks(t, s, pos);
    if lastEnd > 0 { return lastEnd; }
    if numBlank > 1 && pos + numBlank < |s| { return pos + numBlank - 1; }
    if numBlank > 0 { return pos + numBlank; }
    return pos + 1;
  }

  /** `split_qwen35`. */
  method SplitQwen35(t: Table, s: CodePoints) returns (offsets: seq<(nat, nat)>)
    ensures offsets == Split(t, s, 0)
  {
    offsets := [];
    var pos := 0;
    ghost var rest := Split(t, s, 0);
    while pos < |s|
      invariant 0 <= pos <= |s|
      invariant rest == Split(t, s, pos) && Split(t, s, 0) == offsets + rest
      decreases |s| - pos
    {
      var end := ScanToken(t, s, pos);
      offsets := offsets + [(pos, end)];
      pos := end;
      rest := Split(t, s, pos);
    }
  }

  /** Consecutive non-empty ranges that cover `[lo, hi)`. */
  ghost predicate Partitions(ranges: seq<(nat, nat)>, lo: nat, hi: nat)
    decreases |ranges|
  {
    if ranges == [] then lo == hi
    else ranges[0].0 == lo < ranges[0].1 <= hi && Partitions(ranges[1..], ranges[0].1, hi)
  }

  lemma {:induction false} SplitPartitions(t: Table, s: CodePoints, i: nat)
    requires i <= |s|
    ensures Partitions(Split(t, s, i), i, |s|)
    decreases |s| - i
  {
    if i < |s| {
      SplitPartitions(t, s, ScanEnd(t, s, i));
      assert Split(t, s, i)[1..] == Split(t, s, ScanEnd(t, s, i));
    }
  }

  // ---------------------------------------------------------------- the seven alternatives, in closed form

  lemma MatchClass(t: Table, cls: CharSet, s: CodePoints, i: nat)
    requires i <= |s|
    ensures Match(t, Class(cls), s, i) == if At(t, cls, s, i) then Some(i + 1) else None
  {
  }

  lemma MatchQuoted(t: Table, c: nat, s: CodePoints, i: nat)
    requires i < |s|
    ensures Match(t, Cat(Class(Exactly(APOSTROPHE)), Class(AnyCase(c))), s, i) ==
      if s[i] == APOSTROPHE && i + 1 < |s| && Lower(s[i + 1]) == c then Some(i + 2) else None
  {
    MatchCatClass(t, Exactly(APOSTROPHE), Class(AnyCase(c)), s, i);
    MatchClass(t, AnyCase(c), s, i + 1);
  }

  lemma MatchQuotedPair(t: Table, c: nat, d: nat, s: CodePoints, i: nat)
    requires i < |s|
    ensures Match(t, Cat(Class(Exactly(APOSTROPHE)), Cat(Class(AnyCase(c)), Class(AnyCase(d)))), s, i) ==
      if s[i] == APOSTROPHE && i + 2 < |s| && Lower(s[i + 1]) == c && Lower(s[i + 2]) == d then Some(i + 3) else None
  {
    MatchCatClass(t, Exactly(APOSTROPHE), Cat(Class(AnyCase(c)), Class(AnyCase(d))), s, i);
    MatchCatClass(t, AnyCase(c), Class(AnyCase(d)), s, i + 1);
    if i + 2 <= |s| { MatchClass(t, AnyCase(d), s, i + 2); }
  }

  lemma MatchContractions(t: Table, s: CodePoints, i: nat)
    requires i < |s|
    ensures Match(t, Contractions(), s, i) ==
      if ContractionLength(s, i) > 0 then Some(i + ContractionLength(s, i)) else None
  {
    var q := Class(Exactly(APOSTROPHE));
    var r7 := Cat(q, Class(AnyCase(100)));
    var x6 := Cat(q, Cat(Class(AnyCase(108)), Class(AnyCase(108))));
    var r6 := Alt(x6, r7);
    var x5 := Cat(q, Class(AnyCase(109)));
    var r5 := Alt(x5, r6);
    var x4 := Cat(q, Cat(Class(AnyCase(118)), Class(AnyCase(101))));
    var r4 := Alt(x4, r5);
    var x3 := Cat(q, Cat(Class(AnyCase(114)), Class(AnyCase(101))));
    var r3 := Alt(x3, r4);
    var x2 := Cat(q, Class(AnyCase(116)));
    var r2 := Alt(x2, r3);
    var x1 := Cat(q, Class(AnyCase(115)));
    MatchAlt(t, x1, r2, s, i);
    MatchAlt(t, x2, r3, s, i);
    MatchAlt(t, x3, r4, s, i);
    MatchAlt(t, x4, r5, s, i);
    MatchAlt(t, x5, r6, s, i);
    MatchAlt(t, x6, r7, s, i);
    MatchQuoted(t, 115, s, i);
    MatchQuoted(t, 116, s, i);
    MatchQuotedPair(t, 114, 101, s, i);
    MatchQuotedPair(t, 118, 101, s, i);
    MatchQuoted(t, 109, s, i);
    MatchQuotedPair(t, 108, 108, s, i);
    MatchQuoted(t, 100, s, i);
  }

  lemma MatchPlus(t: Table, cls: CharSet, s: CodePoints, i: nat)
    requires i <= |s|
    ensures Match(t, Plus(Class(cls)), s, i) == if At(t, cls, s, i) then Some(RunEnd(t, cls, s, i)) else None
  {
    PlusOfClass(t, cls, s, i);
  }

  lemma MatchWords(t: Table, s: CodePoints, i: nat)
    requires i < |s| && t.Sane()
    ensures Match(t, Words(), s, i) == if StartsWord(t, s, i) then Some(RunEnd(t, Word, s, i + 1)) else None
  {
    MatchCatOpt(t, Prefix, Plus(Class(Word)), s, i);
    MatchPlus(t, Word, s, i);
    MatchPlus(t, Word, s, i + 1);
    assert AsciiSpace(CR) && AsciiSpace(LF);
    if !At(t, Word, s, i + 1) { assert RunEnd(t, Word, s, i + 1) == i + 1; }
  }

  lemma MatchStar(t: Table, cls: CharSet, s: CodePoints, i: nat)
    requires i <= |s|
    ensures Match(t, Star(Class(cls)), s, i) == Some(RunEnd(t, cls, s, i))
  {
    StarOfClass(t, cls, s, i);
  }

  /** A run of `cls`, then greedily any newlines. */
  lemma MatchRunThenNewlines(t: Table, cls: CharSet, s: CodePoints, i: nat)
    requires i <= |s|
    ensures Match(t, Cat(Plus(Class(cls)), Star(Class(Newline))), s, i) ==
      if At(t, cls, s, i) then Some(RunEnd(t, Newline, s, RunEnd(t, cls, s, i))) else None
  {
    PlusOfClass(t, cls, s, i);
    if At(t, cls, s, i) {
      MatchStar(t, Newline, s, RunEnd(t, cls, s, i));
      MatchCatFirst(t, Plus(Class(cls)), Star(Class(Newline)), s, i, 0);
    } else {
      MatchCatNone(t, Plus(Class(cls)), Star(Class(Newline)), s, i);
    }
  }

  /** What the expression's fourth alternative matches. */
  function RegexPunctEnd(t: Table, s: CodePoints, i: nat): (e: nat)
    requires i <= |s|
    ensures i <= e <= |s|
  {
    RunEnd(t, Newline, s, RunEnd(t, Punct, s, i))
  }

  lemma MatchPuncts(t: Table, s: CodePoints, i: nat)
    requires i < |s|
    ensures Match(t, Puncts(), s, i) ==
      if s[i] == SPACE && At(t, Punct, s, i + 1) then Some(RegexPunctEnd(t, s, i + 1))
      else if At(t, Punct, s, i) then Some(RegexPunctEnd(t, s, i))
      else None
  {
    MatchCatOpt(t, Exactly(SPACE), Cat(Plus(Class(Punct)), Star(Class(Newline))), s, i);
    MatchRunThenNewlines(t, Punct, s, i);
    MatchRunThenNewlines(t, Punct, s, i + 1);
  }

  lemma MatchLineEnds(t: Table, s: CodePoints, i: nat)
    requires i < |s|
    ensures var e := LastNewlineEnd(s, i, RunEnd(t, Blank, s, i));
      Match(t, LineEnds(), s, i) == if e > 0 then Some(e) else None
  {
    var k := RunEnd(t, Blank, s, i);
    var e := LastNewlineEnd(s, i, k);
    var run, stop := Star(Class(Blank)), Plus(Class(Newline));
    StarOfClass(t, Blank, s, i);
    forall j: nat | i <= j <= k && (e == 0 || e <= j)
      ensures Match(t, stop, s, j).None?
    {
      NoNewlineFrom(t, s, k, j);
      MatchPlus(t, Newline, s, j);
    }
    if e > 0 {
      NewlineRunStops(t, s, k, e);
      MatchPlus(t, Newline, s, e - 1);
      MatchAfterRun(t, run, stop, s, i, i, k, e - 1);
    } else {
      NoMatchAfterRun(t, run, stop, s, i, i, k);
    }
  }

  lemma NoNewlineFrom(t: Table, s: CodePoints, k: nat, j: nat)
    requires j <= k <= |s| && !At(t, Blank, s, k) && (j < k ==> !IsNewline(s[j]))
    ensures !At(t, Newline, s, j)
  {
  }

  lemma NewlineRunStops(t: Table, s: CodePoints, k: nat, e: nat)
    requires 0 < e <= k <= |s| && !At(t, Blank, s, k) && IsNewline(s[e - 1])
    requires forall j :: e <= j < k ==> !IsNewline(s[j])
    ensures RunEnd(t, Newline, s, e - 1) == e
  {
    NoNewlineFrom(t, s, k, e);
    assert RunEnd(t, Newline, s, e) == e;
  }

  lemma MatchTrailingBlanks(t: Table, s: CodePoints, i: nat)
    requires i < |s|
    ensures var k := RunEnd(t, Blank, s, i);
      Match(t, TrailingBlanks(), s, i) ==
        if k > i && k == |s| then Some(k) else if k - i > 1 then Some(k - 1) else None
  {
    var k := RunEnd(t, Blank, s, i);
    PlusOfClass(t, Blank, s, i);
    var run, stop := Plus(Class(Blank)), NotAhead(NonBlank);
    if k == i {
      MatchCatNone(t, run, stop, s, i);
    } else {
      if k < |s| && k - i > 1 { LastOfRun(t, s, i, k); }
      MatchNotAhead(t, s, k);
      MatchNotAhead(t, s, k - 1);
      BlanksAfterRun(t, run, stop, s, i, k);
    }
  }

  /** `stop` holds at the end of the run if that is the end of the text, and otherwise one character earlier. */
  lemma BlanksAfterRun(t: Table, run: Regex, stop: Regex, s: CodePoints, i: nat, k: nat)
    requires i < k <= |s| && Ends(t, run, s, i) == Countdown(k, i + 1)
    requires Match(t, stop, s, k) == if k == |s| then Some(k) else None
    requires k < |s| && k - i > 1 ==> Match(t, stop, s, k - 1) == Some(k - 1)
    ensures Match(t, Cat(run, stop), s, i) == if k == |s| then Some(k) else if k - i > 1 then Some(k - 1) else None
  {
    if k == |s| {
      MatchAfterRun(t, run, stop, s, i, i + 1, k, k);
    } else if k - i > 1 {
      OneBlankLess(t, run, stop, s, i, k);
    } else {
      OneBlank(t, run, stop, s, i, k);
    }
  }

  lemma OneBlankLess(t: Table, run: Regex, stop: Regex, s: CodePoints, i: nat, k: nat)
    requires i + 1 < k <= |s| && Ends(t, run, s, i) == Countdown(k, i + 1)
    requires Match(t, stop, s, k) == None && Match(t, stop, s, k - 1) == Some(k - 1)
    ensures Match(t, Cat(run, stop), s, i) == Some(k - 1)
  {
    MatchAfterRun(t, run, stop, s, i, i + 1, k, k - 1);
  }

  lemma OneBlank(t: Table, run: Regex, stop: Regex, s: CodePoints, i: nat, k: nat)
    requires i + 1 == k <= |s| && Ends(t, run, s, i) == Countdown(k, k) && Match(t, stop, s, k) == None
    ensures Match(t, Cat(run, stop), s, i) == None
  {
    NoMatchAfterRun(t, run, stop, s, i, k, k);
  }

  lemma {:induction false} LastOfRun(t: Table, s: CodePoints, i: nat, k: nat)
    requires i < k <= |s| && k == RunEnd(t, Blank, s, i)
    ensures At(t, Blank, s, k - 1)
    decreases k - i
  {
    if i + 1 < k { LastOfRun(t, s, i + 1, k); }
  }

  lemma MatchNotAhead(t: Table, s: CodePoints, i: nat)
    requires i <= |s|
    ensures Match(t, NotAhead(NonBlank), s, i) == if i == |s| || At(t, Blank, s, i) then Some(i) else None
  {
  }

  // ---------------------------------------------------------------- the scanner against the expression

  /** The expression always matches, and this is where. */
  function RegexEnd(t: Table, s: CodePoints, i: nat): (e: nat)
    requires i < |s|
    ensures i < e <= |s|
  {
    var n := ContractionLength(s, i);
    if n > 0 then i + n
    else if StartsWord(t, s, i) then RunEnd(t, Word, s, i + 1)
    else if t.IsNumber(s[i]) then i + 1
    else if s[i] == SPACE && At(t, Punct, s, i + 1) then RegexPunctEnd(t, s, i + 1)
    else if At(t, Punct, s, i) then RegexPunctEnd(t, s, i)
    else BlankEnd(t, s, i)
  }

  lemma RegexMatches(t: Table, s: CodePoints, i: nat)
    requires i < |s| && t.Sane()
    ensures Match(t, Qwen(), s, i) == Some(RegexEnd(t, s, i))
  {
    var r6 := Alt(TrailingBlanks(), Blanks());
    var r5 := Alt(LineEnds(), r6);
    var r4 := Alt(Puncts(), r5);
    var r3 := Alt(Class(Digit), r4);
    var r2 := Alt(Words(), r3);
    MatchAlt(t, Contractions(), r2, s, i);
    MatchContractions(t, s, i);
    MatchAlt(t, Words(), r3, s, i);
    MatchWords(t, s, i);
    MatchAlt(t, Class(Digit), r4, s, i);
    MatchClass(t, Digit, s, i);
    MatchAlt(t, Puncts(), r5, s, i);
    MatchPuncts(t, s, i);
    MatchAlt(t, LineEnds(), r6, s, i);
    MatchLineEnds(t, s, i);
    MatchAlt(t, TrailingBlanks(), Blanks(), s, i);
    MatchTrailingBlanks(t, s, i);
    MatchPlus(t, Blank, s, i);
    SomethingMatches(t, s, i);
  }

  /** What is not a word, a number or punctuation is blank. */
  lemma SomethingMatches(t: Table, s: CodePoints, i: nat)
    requires i < |s| && t.Sane()
    ensures StartsWord(t, s, i) || t.IsNumber(s[i]) || At(t, Punct, s, i) || At(t, Blank, s, i)
  {
  }

  /** The characters whose category the table does not know; the scanner and the expression part ways on them. */
  predicate IsUnknown(t: Table, c: nat) { !t.IsValid(c) }

  /** The fourth alternative decides at `i`. */
  predicate ReachesPunct(t: Table, s: CodePoints, i: nat)
    requires i < |s|
  {
    ContractionLength(s, i) == 0 && !StartsWord(t, s, i) && !t.IsNumber(s[i])
  }

  /** No unknown character in the punctuation run from `i`. */
  predicate RunIsKnown(t: Table, s: CodePoints, i: nat)
    requires i <= |s|
  {
    RunEnd(t, KnownPunct, s, i) == RunEnd(t, Punct, s, i)
  }

  /**
    When the scanner's token at `i` is the expression's: punctuation runs have no unknown character in them, or the
    token is one unknown character on its own, with no line end after it.
   */
  predicate Agrees(t: Table, s: CodePoints, i: nat)
    requires i < |s|
  {
    ReachesPunct(t, s, i) ==>
      if s[i] == SPACE then RunIsKnown(t, s, i + 1)
      else if IsUnknown(t, s[i]) then RunEnd(t, Punct, s, i) == i + 1 && !At(t, Newline, s, i + 1)
      else RunIsKnown(t, s, i)
  }

  lemma {:induction false} KnownRunIsShorter(t: Table, s: CodePoints, i: nat)
    requires i <= |s|
    ensures RunEnd(t, KnownPunct, s, i) <= RunEnd(t, Punct, s, i)
    ensures RunEnd(t, KnownPunct, s, i) < RunEnd(t, Punct, s, i) ==>
      IsUnknown(t, s[RunEnd(t, KnownPunct, s, i)]) && !IsNewline(s[RunEnd(t, KnownPunct, s, i)])
    decreases |s| - i
  {
    if At(t, KnownPunct, s, i) { KnownRunIsShorter(t, s, i + 1); }
  }

  /** Punctuation ends at the same place exactly when its run has no unknown character. */
  lemma PunctEndsAgree(t: Table, s: CodePoints, i: nat)
    requires i <= |s|
    ensures RunEnd(t, Newline, s, RunEnd(t, KnownPunct, s, i)) == RegexPunctEnd(t, s, i) <==> RunIsKnown(t, s, i)
  {
    KnownRunIsShorter(t, s, i);
  }

  /** The scanner's token is the leftmost-first match of the expression, exactly where `Agrees` says. */
  lemma ScannerIsRegex(t: Table, s: CodePoints, i: nat)
    requires i < |s| && t.Sane()
    ensures Match(t, Qwen(), s, i) == Some(ScanEnd(t, s, i)) <==> Agrees(t, s, i)
  {
    RegexMatches(t, s, i);
    if ReachesPunct(t, s, i) {
      if s[i] == SPACE { BlankThenPunct(t, s, i); } else { PunctOrBlank(t, s, i); }
    }
  }

  lemma BlankThenPunct(t: Table, s: CodePoints, i: nat)
    requires i < |s| && t.Sane() && ReachesPunct(t, s, i) && s[i] == SPACE
    ensures RegexEnd(t, s, i) == ScanEnd(t, s, i) <==> RunIsKnown(t, s, i + 1)
  {
    PunctEndsAgree(t, s, i + 1);
    assert t.IsValid(s[i]) && !At(t, Punct, s, i);
    if i + 1 == |s| {
      assert RunEnd(t, Blank, s, i) == i + 1;
      assert !IsNewline(s[i]);
    }
  }

  lemma PunctOrBlank(t: Table, s: CodePoints, i: nat)
    requires i < |s| && t.Sane() && ReachesPunct(t, s, i) && s[i] != SPACE
    ensures RegexEnd(t, s, i) == ScanEnd(t, s, i) <==>
      if IsUnknown(t, s[i]) then RunEnd(t, Punct, s, i) == i + 1 && !At(t, Newline, s, i + 1) else RunIsKnown(t, s, i)
  {
    PunctEndsAgree(t, s, i);
    SomethingMatches(t, s, i);
  }

  /** Text of known categories is split exactly as the published expression splits it. */
  lemma KnownTextAgrees(t: Table, s: CodePoints, i: nat)
    requires i < |s| && t.Sane() && forall j :: 0 <= j < |s| ==> t.category(s[j]) != Other
    ensures Agrees(t, s, i) && Match(t, Qwen(), s, i) == Some(ScanEnd(t, s, i))
  {
    KnownRunIsShorter(t, s, i);
    KnownRunIsShorter(t, s, i + 1);
    ScannerIsRegex(t, s, i);
  }

  /** Every range is the expression's match at its start. */
  ghost predicate AllRegexMatches(t: Table, s: CodePoints, ranges: seq<(nat, nat)>) {
    forall k :: 0 <= k < |ranges| ==>
      ranges[k].0 <= |s| && Match(t, Qwen(), s, ranges[k].0) == Some(ranges[k].1)
  }

  lemma {:induction false} SplitIsRegex(t: Table, s: CodePoints, i: nat)
    requires i <= |s| && t.Sane() && forall j :: 0 <= j < |s| ==> t.category(s[j]) != Other
    ensures AllRegexMatches(t, s, Split(t, s, i))
    decreases |s| - i
  {
    if i < |s| {
      KnownTextAgrees(t, s, i);
      SplitIsRegex(t, s, ScanEnd(t, s, i));
    }
  }

  /** An unknown character that follows punctuation: the expression takes both, the scanner stops between them. */
  lemma UnknownCategoryDiffers(t: Table, s: CodePoints)
    requires t.Sane() && t.category(33) == Punctuation && t.category(1) == Other
    requires |s| == 2 && s[0] == 33 && s[1] == 1
    ensures ScanEnd(t, s, 0) == 1 && Match(t, Qwen(), s, 0) == Some(2)
  {
    RegexMatches(t, s, 0);
    var one := 1;
    assert RunEnd(t, Punct, s, one + 1) == 2 && RunEnd(t, KnownPunct, s, one) == one;
    assert RunEnd(t, Newline, s, one) == one && RunEnd(t, Newline, s, one + 1) == 2;
  }

  // ---------------------------------------------------------------- the tokens, in plain terms

  /** An apostrophe and s, t, m or d, or re, ve or ll, in any case, is a token. */
  ghost predicate ContractionAt(s: CodePoints, i: nat, n: nat) {
    && i + n <= |s| && n >= 2 && s[i] == 39
    && var a := if 65 <= s[i + 1] <= 90 then s[i + 1] + 32 else s[i + 1];
       if n == 2 then a in {115, 116, 109, 100}
       else
         var b := if 65 <= s[i + 2] <= 90 then s[i + 2] + 32 else s[i + 2];
         n == 3 && (a, b) in {(114, 101), (118, 101), (108, 108)}
  }

  lemma ContractionToken(t: Table, s: CodePoints, i: nat, n: nat)
    requires i < |s| && ContractionAt(s, i, n)
    ensures ScanEnd(t, s, i) == i + n
  {
  }

  ghost predicate NoContraction(s: CodePoints, i: nat) { !ContractionAt(s, i, 2) && !ContractionAt(s, i, 3) }

  /** A run of letters and marks, with one character before it that is no line end, letter or number, is a token. */
  lemma WordToken(t: Table, s: CodePoints, i: nat, e: nat)
    requires i < |s| && NoContraction(s, i) && s[i] != 13 && s[i] != 10 && t.category(s[i]) != Number
    requires t.category(s[i]) in {Letter, Mark} || (i + 1 < |s| && t.category(s[i + 1]) in {Letter, Mark})
    requires i < e <= |s| && forall j :: i < j < e ==> t.category(s[j]) in {Letter, Mark}
    requires e == |s| || t.category(s[e]) !in {Letter, Mark}
    ensures ScanEnd(t, s, i) == e
  {
    assert ContractionLength(s, i) == 0;
    RunIs(t, Word, s, i + 1, e);
  }

  lemma RunIs(t: Table, cls: CharSet, s: CodePoints, i: nat, e: nat)
    requires i <= e <= |s| && (forall j :: i <= j < e ==> In(t, cls, s[j])) && (e == |s| || !In(t, cls, s[e]))
    ensures RunEnd(t, cls, s, i) == e
  {
    var k := RunEnd(t, cls, s, i);
    assert !(k < e) && !(e < k);
  }

  ghost predicate StartsNoWord(t: Table, s: CodePoints, i: nat)
    requires i < |s|
  {
    s[i] == 13 || s[i] == 10 || t.category(s[i]) == Number
    || !(t.category(s[i]) in {Letter, Mark} || (i + 1 < |s| && t.category(s[i + 1]) in {Letter, Mark}))
  }

  /** A number character is a token. */
  lemma NumberToken(t: Table, s: CodePoints, i: nat)
    requires i < |s| && NoContraction(s, i) && t.category(s[i]) == Number
    ensures ScanEnd(t, s, i) == i + 1
  {
    assert ContractionLength(s, i) == 0;
  }

  ghost predicate IsBlank(t: Table, c: nat) { t.category(c) == Whitespace || c == 32 || 9 <= c <= 13 }

  /** A known character that is no blank, letter, mark or number. */
  ghost predicate IsSign(t: Table, c: nat) { t.category(c) !in {Other, Letter, Mark, Number} && !IsBlank(t, c) }

  /** A run of signs, with at most one space before it and any line ends after it, is a token. */
  lemma SignToken(t: Table, s: CodePoints, i: nat, from: nat, to: nat, e: nat)
    requires i < |s| && NoContraction(s, i) && StartsNoWord(t, s, i) && t.category(s[i]) != Number
    requires from == (if s[i] == 32 then i + 1 else i) && from < to <= e <= |s|
    requires (forall j :: from <= j < to ==> IsSign(t, s[j])) && (to == |s| || !IsSign(t, s[to]))
    requires (forall j :: to <= j < e ==> s[j] == 13 || s[j] == 10) && (e == |s| || (s[e] != 13 && s[e] != 10))
    ensures ScanEnd(t, s, i) == e
  {
    assert ContractionLength(s, i) == 0;
    assert IsSign(t, s[from]);
    RunIs(t, KnownPunct, s, from, to);
    RunIs(t, Newline, s, to, e);
  }

  /**
    A run of blanks that no sign or word takes the last of ends after its last line end; without one it leaves its last blank
    to what follows, if anything does and it has another.
   */
  lemma BlankToken(t: Table, s: CodePoints, i: nat, k: nat)
    requires t.Sane() && i < k <= |s| && NoContraction(s, i) && StartsNoWord(t, s, i) && t.category(s[i]) != Number
    requires (forall j :: i <= j < k ==> IsBlank(t, s[j])) && (k == |s| || !IsBlank(t, s[k]))
    requires s[i] == 32 ==> i + 1 < |s| && (IsBlank(t, s[i + 1]) || t.category(s[i + 1]) in {Letter, Mark, Number})
    ensures var e := ScanEnd(t, s, i);
      if exists j :: i <= j < k && s[j] in {13, 10} then
        i < e <= k && s[e - 1] in {13, 10} && forall j :: e <= j < k ==> s[j] !in {13, 10}
      else e == if k < |s| && i + 1 < k then k - 1 else k
  {
    assert ContractionLength(s, i) == 0;
    RunIs(t, Blank, s, i, k);
    var newline := LastNewlineEnd(s, i, k);
    assert newline > 0 ==> s[newline - 1] in {13, 10};
  }

  /** A lone character that nothing else takes is a token. */
  lemma OtherToken(t: Table, s: CodePoints, i: nat)
    requires i < |s| && NoContraction(s, i) && StartsNoWord(t, s, i) && t.category(s[i]) == Other && !IsBlank(t, s[i])
    ensures ScanEnd(t, s, i) == i + 1
  {
    assert ContractionLength(s, i) == 0;
    RunIs(t, Blank, s, i, i);
  }
}
