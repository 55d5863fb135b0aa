/** The "split onto separate lines" code action (languageserver/server2/handlers.go).

    `Layouts` relates offsets, lines and columns of a text and says what applying edits means.
    `SplitLines` holds the action and what it achieves: its edits only insert, they can be erased
    again, they put every element on a line of its own, and a second run finds nothing to do. */
module Layouts {
  import opened Prelude
  import opened Positions

  /** The number of line breaks in a text. */
  function Breaks(s: string): (n: nat)
    ensures n <= |s|
  {
    if s == [] then 0 else Breaks(s[..|s| - 1]) + if s[|s| - 1] == '\n' then 1 else 0
  }

  /** The number of characters after the last line break. */
  function Tail(s: string): (n: nat)
    ensures n <= |s|
  {
    if s == [] || s[|s| - 1] == '\n' then 0 else Tail(s[..|s| - 1]) + 1
  }

  /** The position of an offset of `text`. */
  function PosAt(text: string, offset: nat): AstPosition
    requires offset <= |text|
  {
    AstPosition(offset, 1 + Breaks(text[..offset]), Tail(text[..offset]))
  }

  /** `pos` is a position of `text`. */
  predicate IsPosition(text: string, pos: AstPosition) {
    0 <= pos.offset <= |text| && pos == PosAt(text, pos.offset)
  }

  lemma {:induction false} BreaksConcat(a: string, b: string)
    ensures Breaks(a + b) == Breaks(a) + Breaks(b)
  {
    if b == [] {
      assert a + b == a;
    } else {
      assert (a + b)[..|a + b| - 1] == a + b[..|b| - 1];
      BreaksConcat(a, b[..|b| - 1]);
    }
  }

  /** Lines count from one and columns from zero; a line break starts a line. */
  lemma NextPosition(text: string, offset: nat)
    requires offset < |text|
    ensures PosAt(text, 0) == AstPosition(0, 1, 0)
    ensures PosAt(text, offset + 1)
         == if text[offset] == '\n' then AstPosition(offset + 1, PosAt(text, offset).line + 1, 0)
            else AstPosition(offset + 1, PosAt(text, offset).line, PosAt(text, offset).column + 1)
  {
    assert text[..offset + 1][..offset] == text[..offset];
  }

  /** Later offsets have later positions. */
  lemma {:induction false} PositionsIncrease(text: string, a: nat, b: nat)
    requires a < b <= |text|
    ensures PosAt(text, a).line <= PosAt(text, b).line
    ensures PosAt(text, a).line == PosAt(text, b).line ==> PosAt(text, a).column < PosAt(text, b).column
    decreases b - a
  {
    NextPosition(text, b - 1);
    if a < b - 1 {
      PositionsIncrease(text, a, b - 1);
    }
  }

  // ---------------------------------------------------------- applying edits

  datatype TextEdit = TextEdit(range: Range, newText: string)

  /** The first offset, from `from` on, whose position is `pos`; the end of the text if none is. */
  function OffsetOf(text: string, pos: Position, from: nat): nat
    requires from <= |text|
    ensures from <= OffsetOf(text, pos, from) <= |text|
    decreases |text| - from
  {
    if from == |text| || ASTToProtocolPosition(PosAt(text, from)) == pos then from
    else OffsetOf(text, pos, from + 1)
  }

  /** Replaces the range of each edit by its text; all ranges refer to the original text and are
      looked up from the end of the range before. */
  function ApplyEdits(text: string, from: nat, edits: seq<TextEdit>): string
    requires from <= |text|
    decreases |edits|
  {
    if edits == [] then text[from..]
    else
      var start := OffsetOf(text, edits[0].range.start, from);
      var end := OffsetOf(text, edits[0].range.end, start);
      text[from..start] + edits[0].newText + ApplyEdits(text, end, edits[1..])
  }

  /** The text is addressable by the protocol's 32-bit positions. */
  predicate Addressable(text: string) {
    |text| < WORD
  }

  lemma {:induction false} OffsetOfPosition(text: string, offset: nat, from: nat)
    requires Addressable(text) && from <= offset <= |text|
    ensures OffsetOf(text, ASTToProtocolPosition(PosAt(text, offset)), from) == offset
    decreases offset - from
  {
    if from < offset {
      Exact(PosAt(text, from));
      Exact(PosAt(text, offset));
      PositionsIncrease(text, from, offset);
      OffsetOfPosition(text, offset, from + 1);
    }
  }

  // -------------------------------------------------------------- insertions

  /** Text to insert before the character at a position. */
  datatype Insertion = Insertion(pos: AstPosition, text: string)

  function ToEdit(i: Insertion): TextEdit {
    TextEdit(Range(ASTToProtocolPosition(i.pos), ASTToProtocolPosition(i.pos)), i.text)
  }

  function ToEdits(ins: seq<Insertion>): seq<TextEdit> {
    seq(|ins|, i requires 0 <= i < |ins| => ToEdit(ins[i]))
  }

  /** Positions of `text`, strictly increasing, from offset `from` on. */
  predicate Ordered(text: string, from: nat, ins: seq<Insertion>) {
    ins != [] ==>
      && IsPosition(text, ins[0].pos)
      && from <= ins[0].pos.offset
      && OrderedAfter(text, ins[0].pos.offset, ins[1..])
  }

  predicate OrderedAfter(text: string, offset: nat, ins: seq<Insertion>)
    decreases |ins|
  {
    ins != [] ==>
      && IsPosition(text, ins[0].pos)
      && offset < ins[0].pos.offset
      && OrderedAfter(text, ins[0].pos.offset, ins[1..])
  }

  function Inserted(text: string, from: nat, ins: seq<Insertion>): string
    requires from <= |text| && Ordered(text, from, ins)
    decreases |ins|
  {
    if ins == [] then text[from..]
    else
      text[from..ins[0].pos.offset] + ins[0].text + Inserted(text, ins[0].pos.offset, ins[1..])
  }

  /** Takes the inserted texts out again. */
  function Erased(text: string, from: nat, ins: seq<Insertion>): string
    decreases |ins|
  {
    if ins == [] then text
    else
      var at := ins[0].pos.offset - from;
      if 0 <= at && at + |ins[0].text| <= |text| then
        text[..at] + Erased(text[at + |ins[0].text|..], ins[0].pos.offset, ins[1..])
      else text
  }

  /** How far the character at `offset` is pushed to the right. */
  function Push(ins: seq<Insertion>, offset: int): nat {
    if ins == [] || ins[0].pos.offset > offset then 0
    else |ins[0].text| + Push(ins[1..], offset)
  }

  /** The number of line breaks inserted at or before `offset`. */
  function NewBreaks(ins: seq<Insertion>, offset: int): nat {
    if ins == [] || ins[0].pos.offset > offset then 0
    else Breaks(ins[0].text) + NewBreaks(ins[1..], offset)
  }

  /** The edits are applied as plain insertions. */
  lemma {:induction false} EditsInsert(text: string, from: nat, ins: seq<Insertion>)
    requires Addressable(text) && from <= |text| && Ordered(text, from, ins)
    ensures ApplyEdits(text, from, ToEdits(ins)) == Inserted(text, from, ins)
    decreases |ins|
  {
    if ins != [] {
      var at := ins[0].pos.offset;
      OffsetOfPosition(text, at, from);
      OffsetOfPosition(text, at, at);
      assert ToEdits(ins)[1..] == ToEdits(ins[1..]);
      EditsInsert(text, at, ins[1..]);
    }
  }

  lemma {:induction false} ErasedInserted(text: string, from: nat, ins: seq<Insertion>)
    requires from <= |text| && Ordered(text, from, ins)
    ensures Erased(Inserted(text, from, ins), from, ins) == text[from..]
    decreases |ins|
  {
    if ins != [] {
      var at := ins[0].pos.offset;
      var rest := Inserted(text, at, ins[1..]);
      var all := Inserted(text, from, ins);
      ErasedInserted(text, at, ins[1..]);
      assert all[..at - from] == text[from..at];
      assert all[at - from + |ins[0].text|..] == rest;
      assert text[from..at] + text[at..] == text[from..];
    }
  }

  /** The part of the new text before the character that was at `offset`. */
  function InsertedUpTo(text: string, from: nat, ins: seq<Insertion>, offset: nat): string
    requires from <= offset <= |text| && Ordered(text, from, ins)
    decreases |ins|
  {
    if ins == [] || ins[0].pos.offset > offset then text[from..offset]
    else
      text[from..ins[0].pos.offset] + ins[0].text + InsertedUpTo(text, ins[0].pos.offset, ins[1..], offset)
  }

  /** Where the character at `offset` goes. */
  lemma {:induction false} InsertedAt(text: string, from: nat, ins: seq<Insertion>, offset: nat)
    requires from <= offset <= |text| && Ordered(text, from, ins)
    ensures |InsertedUpTo(text, from, ins, offset)| == offset - from + Push(ins, offset)
    ensures InsertedUpTo(text, from, ins, offset) <= Inserted(text, from, ins)
    decreases |ins|
  {
    if ins != [] && ins[0].pos.offset <= offset {
      var at := ins[0].pos.offset;
      InsertedAt(text, at, ins[1..], offset);
    }
  }

  /** The character itself is still the same. */
  lemma {:induction false} CharacterKept(text: string, from: nat, ins: seq<Insertion>, offset: nat)
    requires from <= offset < |text| && Ordered(text, from, ins)
    ensures InsertedUpTo(text, from, ins, offset) + [text[offset]] <= Inserted(text, from, ins)
    decreases |ins|
  {
    if ins != [] && ins[0].pos.offset <= offset {
      var at := ins[0].pos.offset;
      var head := text[from..at] + ins[0].text;
      var upTo := InsertedUpTo(text, at, ins[1..], offset);
      CharacterKept(text, at, ins[1..], offset);
      Assoc(head, upTo, [text[offset]]);
    }
  }

  /** How many line breaks come before the character that was at `offset`. */
  lemma {:induction false} BreaksUpTo(text: string, from: nat, ins: seq<Insertion>, offset: nat)
    requires from <= offset <= |text| && Ordered(text, from, ins)
    ensures Breaks(InsertedUpTo(text, from, ins, offset)) == Breaks(text[from..offset]) + NewBreaks(ins, offset)
    decreases |ins|
  {
    if ins != [] && ins[0].pos.offset <= offset {
      var at := ins[0].pos.offset;
      var rest := InsertedUpTo(text, at, ins[1..], offset);
      BreaksUpTo(text, at, ins[1..], offset);
      BreaksConcat(text[from..at] + ins[0].text, rest);
      BreaksConcat(text[from..at], ins[0].text);
      assert text[from..offset] == text[from..at] + text[at..offset];
      BreaksConcat(text[from..at], text[at..offset]);
    }
  }

  /** The line of the character that was at `offset`, in the new text. */
  lemma LineAfterInserting(text: string, ins: seq<Insertion>, offset: nat)
    requires Ordered(text, 0, ins) && offset <= |text|
    ensures offset + Push(ins, offset) <= |Inserted(text, 0, ins)|
    ensures PosAt(Inserted(text, 0, ins), offset + Push(ins, offset)).line
         == PosAt(text, offset).line + NewBreaks(ins, offset)
  {
    InsertedAt(text, 0, ins, offset);
    BreaksUpTo(text, 0, ins, offset);
    assert text[0..offset] == text[..offset];
    assert Inserted(text, 0, ins)[..offset + Push(ins, offset)] == InsertedUpTo(text, 0, ins, offset);
  }

  lemma ToEditsConcat(a: seq<Insertion>, b: seq<Insertion>)
    ensures ToEdits(a + b) == ToEdits(a) + ToEdits(b)
  {
  }
}

module SplitLines {
  import opened Prelude
  import opened Positions
  import opened Layouts

  /** Anything with a first and a last character; the end is inclusive. */
  datatype Extent = Extent(start: AstPosition, end: AstPosition)

  datatype CodeAction = CodeAction(title: string, edits: seq<TextEdit>)

  const INDENTATION := "    "

  predicate IsBlank(c: char) {
    c == ' ' || c == '\t'
  }

  function BlankPrefix(s: string): string {
    if s == [] || !IsBlank(s[0]) then [] else [s[0]] + BlankPrefix(s[1..])
  }

  /** The longest prefix of blanks. */
  lemma {:induction false} BlankPrefixLongest(s: string)
    ensures BlankPrefix(s) <= s && (forall c | c in BlankPrefix(s) :: c == ' ' || c == '\t')
    ensures |BlankPrefix(s)| < |s| ==> s[|BlankPrefix(s)|] != ' ' && s[|BlankPrefix(s)|] != '\t'
  {
    if s != [] && IsBlank(s[0]) {
      BlankPrefixLongest(s[1..]);
    }
  }

  lemma {:induction false} BlanksHaveNoBreaks(s: string)
    requires forall c | c in s :: IsBlank(c)
    ensures Breaks(s) == 0
  {
    if s != [] {
      BlanksHaveNoBreaks(s[..|s| - 1]);
      assert s[|s| - 1] in s;
    }
  }

  /** What the caller of `ExtractIndentation` must provide: the line start lies in the text. */
  predicate HasLine(text: string, pos: AstPosition) {
    0 <= pos.column <= pos.offset <= |text|
  }

  function Indentation(text: string, pos: AstPosition): string
    requires HasLine(text, pos)
  {
    BlankPrefix(text[pos.offset - pos.column..pos.offset])
  }

  /** The blanks and tabs at the start of the line, up to the position. */
  lemma IndentationIs(text: string, pos: AstPosition)
    requires HasLine(text, pos)
    ensures var indentation, start := Indentation(text, pos), pos.offset - pos.column;
      && |indentation| <= pos.column && indentation == text[start..start + |indentation|]
      && (forall c | c in indentation :: c == ' ' || c == '\t')
      && (|indentation| < pos.column ==> text[start + |indentation|] != ' ' && text[start + |indentation|] != '\t')
  {
    BlankPrefixLongest(text[pos.offset - pos.column..pos.offset]);
  }

  method ExtractIndentation(text: string, pos: AstPosition) returns (indentation: string)
    requires HasLine(text, pos)
    ensures indentation == Indentation(text, pos)
  {
    var lineStart := pos.offset - pos.column;
    var end := lineStart;
    while end < pos.offset && IsBlank(text[end])
      invariant lineStart <= end <= pos.offset
      invariant forall k | lineStart <= k < end :: IsBlank(text[k])
    {
      end := end + 1;
    }
    indentation := text[lineStart..end];
    ghost var line := text[lineStart..pos.offset];
    BlankPrefixIs(line, end - lineStart);
    assert line[..end - lineStart] == indentation;
  }

  lemma {:induction false} BlankPrefixIs(s: string, n: nat)
    requires n <= |s| && (forall k | 0 <= k < n :: IsBlank(s[k])) && (n < |s| ==> !IsBlank(s[n]))
    ensures BlankPrefix(s) == s[..n]
  {
    if n > 0 {
      BlankPrefixIs(s[1..], n - 1);
    }
  }

  // ------------------------------------------------------------------ edits

  /** Insertions before the elements from `i` on that start on the line where the one before ends. */
  function Between(elements: seq<Extent>, i: nat, newText: string): seq<Insertion>
    requires i >= 1
    decreases |elements| - i
  {
    if i >= |elements| then []
    else
      (if elements[i].start.line == elements[i - 1].end.line then [Insertion(elements[i].start, newText)] else [])
      + Between(elements, i + 1, newText)
  }

  function First(container: Extent, elements: seq<Extent>, newText: string): seq<Insertion>
    requires elements != []
  {
    if elements[0].start.line == container.start.line then [Insertion(elements[0].start, newText)] else []
  }

  function Last(container: Extent, elements: seq<Extent>, newText: string): seq<Insertion>
    requires elements != []
  {
    var end := elements[|elements| - 1].end;
    if end.line == container.end.line then [Insertion(end.Shifted(1), newText)] else []
  }

  function Insertions(container: Extent, elements: seq<Extent>, indentation: string): seq<Insertion>
    requires elements != []
  {
    First(container, elements, "\n" + (indentation + INDENTATION))
    + Between(elements, 1, "\n" + (indentation + INDENTATION))
    + Last(container, elements, "\n" + indentation)
  }

  lemma {:induction false} BetweenAre(elements: seq<Extent>, i: nat, newText: string, ins: Insertion)
    requires i >= 1
    ensures ins in Between(elements, i, newText) <==>
              exists j | i <= j < |elements| ::
                elements[j].start.line == elements[j - 1].end.line && ins == Insertion(elements[j].start, newText)
    decreases |elements| - i
  {
    if i < |elements| {
      BetweenAre(elements, i + 1, newText, ins);
    }
  }

  /** A line break and four blanks more than the container's line has go before the first element, if that
      starts on the container's line, and before every element that starts on the line where the one
      before ends; a line break without them goes behind the last one, if the container ends on its line. */
  lemma InsertionsAre(container: Extent, elements: seq<Extent>, indentation: string, ins: Insertion)
    requires elements != []
    ensures var end := elements[|elements| - 1].end;
      ins in Insertions(container, elements, indentation) <==>
        || (elements[0].start.line == container.start.line
            && ins == Insertion(elements[0].start, "\n" + (indentation + "    ")))
        || (exists j | 1 <= j < |elements| ::
              && elements[j].start.line == elements[j - 1].end.line
              && ins == Insertion(elements[j].start, "\n" + (indentation + "    ")))
        || (end.line == container.end.line
            && ins == Insertion(AstPosition(end.offset + 1, end.line, end.column + 1), "\n" + indentation))
  {
    BetweenAre(elements, 1, "\n" + (indentation + INDENTATION), ins);
  }

  /** The elements do not all lie around the requested range. */
  predicate OutOfRange(requested: Range, elements: seq<Extent>)
    requires elements != []
  {
    || Compare(ASTToProtocolPosition(elements[0].start), requested.start) > 0
    || Compare(ASTToProtocolPosition(elements[|elements| - 1].end.Shifted(1)), requested.end) < 0
  }

  function Title(description: string): string {
    "Split " + description + " onto separate lines"
  }

  function Action(text: string, requested: Range, container: Extent, elements: seq<Extent>, description: string)
    : Option<CodeAction>
    requires |elements| < 2 || OutOfRange(requested, elements) || HasLine(text, container.start)
  {
    if |elements| < 2 || OutOfRange(requested, elements) then None
    else
      var edits := ToEdits(Insertions(container, elements, Indentation(text, container.start)));
      if edits == [] then None else Some(CodeAction(Title(description), edits))
  }

  // ---------------------------------------------------------- laid-out input

  /** What the parser guarantees: the positions are positions of the text, the elements follow each
      other inside the container, and none ends with a line break. */
  predicate LaidOut(text: string, container: Extent, elements: seq<Extent>) {
    && elements != []
    && IsPosition(text, container.start) && IsPosition(text, container.end)
    && container.start.offset < elements[0].start.offset
    && elements[|elements| - 1].end.offset < container.end.offset
    && (forall i | 0 <= i < |elements| ::
          && IsPosition(text, elements[i].start) && IsPosition(text, elements[i].end)
          && elements[i].start.offset <= elements[i].end.offset < |text|
          && text[elements[i].end.offset] != '\n')
    && (forall i | 1 <= i < |elements| :: elements[i - 1].end.offset < elements[i].start.offset)
  }

  lemma PrependOrdered(text: string, a: nat, here: seq<Insertion>, b: nat, rest: seq<Insertion>)
    requires a <= b && OrderedAfter(text, b, rest)
    requires here != [] ==> |here| == 1 && IsPosition(text, here[0].pos) && a < here[0].pos.offset <= b
    ensures OrderedAfter(text, a, here + rest)
  {
    if here == [] {
      assert here + rest == rest;
    } else {
      assert (here + rest)[1..] == rest;
    }
  }

  lemma LastOrdered(text: string, container: Extent, elements: seq<Extent>, newText: string)
    requires LaidOut(text, container, elements)
    ensures OrderedAfter(text, elements[|elements| - 1].end.offset, Last(container, elements, newText))
  {
    NextPosition(text, elements[|elements| - 1].end.offset);
  }

  lemma {:induction false} BetweenOrdered(text: string, container: Extent, elements: seq<Extent>, i: nat,
                                          newText: string, last: seq<Insertion>)
    requires LaidOut(text, container, elements) && 1 <= i <= |elements|
    requires OrderedAfter(text, elements[|elements| - 1].end.offset, last)
    ensures OrderedAfter(text, elements[i - 1].end.offset, Between(elements, i, newText) + last)
    decreases |elements| - i
  {
    if i == |elements| {
      assert Between(elements, i, newText) + last == last;
    } else {
      var here :=
        if elements[i].start.line == elements[i - 1].end.line then [Insertion(elements[i].start, newText)] else [];
      BetweenOrdered(text, container, elements, i + 1, newText, last);
      PrependOrdered(text, elements[i - 1].end.offset, here, elements[i].end.offset,
                     Between(elements, i + 1, newText) + last);
      Assoc(here, Between(elements, i + 1, newText), last);
    }
  }

  lemma InsertionsOrdered(text: string, container: Extent, elements: seq<Extent>, indentation: string)
    requires LaidOut(text, container, elements)
    ensures OrderedAfter(text, container.start.offset, Insertions(container, elements, indentation))
    ensures Ordered(text, 0, Insertions(container, elements, indentation))
  {
    var newText := "\n" + (indentation + INDENTATION);
    var last := Last(container, elements, "\n" + indentation);
    var rest := Between(elements, 1, newText) + last;
    LastOrdered(text, container, elements, "\n" + indentation);
    BetweenOrdered(text, container, elements, 1, newText, last);
    var all := Insertions(container, elements, indentation);
    assert all == First(container, elements, newText) + rest;
    if First(container, elements, newText) == [] {
      assert all == rest;
    } else {
      assert all == [Insertion(elements[0].start, newText)] + rest;
    }
  }

  // ----------------------------------------------------------- counting lines

  lemma {:induction false} NewBreaksMonotone(text: string, at: nat, ins: seq<Insertion>, a: int, b: int)
    requires OrderedAfter(text, at, ins) && a <= b
    ensures NewBreaks(ins, a) <= NewBreaks(ins, b)
    decreases |ins|
  {
    if ins != [] && ins[0].pos.offset <= a {
      NewBreaksMonotone(text, ins[0].pos.offset, ins[1..], a, b);
    }
  }

  /** An inserted line break between two offsets separates them by a line more. */
  lemma {:induction false} NewBreaksBetween(text: string, at: nat, ins: seq<Insertion>, i: Insertion, a: int, b: int)
    requires OrderedAfter(text, at, ins) && i in ins && Breaks(i.text) >= 1
    requires a < i.pos.offset <= b
    ensures NewBreaks(ins, a) < NewBreaks(ins, b)
    decreases |ins|
  {
    if i == ins[0] {
    } else {
      NewBreaksBetween(text, ins[0].pos.offset, ins[1..], i, a, b);
    }
  }

  lemma {:induction false} BetweenHolds(elements: seq<Extent>, i: nat, j: nat, newText: string)
    requires 1 <= i <= j < |elements| && elements[j].start.line == elements[j - 1].end.line
    ensures Insertion(elements[j].start, newText) in Between(elements, i, newText)
    decreases j - i
  {
    if i < j {
      BetweenHolds(elements, i + 1, j, newText);
    }
  }

  lemma IndentationHasNoBreaks(text: string, pos: AstPosition, more: string)
    requires HasLine(text, pos)
    requires forall c | c in more :: IsBlank(c)
    ensures Breaks("\n" + (Indentation(text, pos) + more)) == 1
    ensures Breaks("\n" + Indentation(text, pos)) == 1
  {
    var indentation := Indentation(text, pos);
    BlankPrefixLongest(text[pos.offset - pos.column..pos.offset]);
    BlanksHaveNoBreaks(indentation);
    BlanksHaveNoBreaks(indentation + more);
    BreaksConcat("\n", indentation);
    BreaksConcat("\n", indentation + more);
    assert Breaks("\n") == Breaks([]) + 1;
  }

  // --------------------------------------------------------------- the new text

  /** Where a position of `text` is in the new text. */
  function MovedTo(text: string, ins: seq<Insertion>, pos: AstPosition): AstPosition
    requires Ordered(text, 0, ins) && IsPosition(text, pos)
  {
    LineAfterInserting(text, ins, pos.offset);
    PosAt(Inserted(text, 0, ins), pos.offset + Push(ins, pos.offset))
  }

  function Moved(text: string, ins: seq<Insertion>, e: Extent): Extent
    requires Ordered(text, 0, ins) && IsPosition(text, e.start) && IsPosition(text, e.end)
  {
    Extent(MovedTo(text, ins, e.start), MovedTo(text, ins, e.end))
  }

  function MovedAll(text: string, ins: seq<Insertion>, elements: seq<Extent>): seq<Extent>
    requires Ordered(text, 0, ins)
    requires forall i | 0 <= i < |elements| :: IsPosition(text, elements[i].start) && IsPosition(text, elements[i].end)
  {
    seq(|elements|, i requires 0 <= i < |elements| => Moved(text, ins, elements[i]))
  }

  /** The first element starts below the line where the container starts, each other element below
      the line where the one before ends, and the container ends below the last one. */
  predicate OnOwnLines(container: Extent, elements: seq<Extent>)
    requires elements != []
  {
    && container.start.line < elements[0].start.line
    && (forall i | 1 <= i < |elements| :: elements[i - 1].end.line < elements[i].start.line)
    && elements[|elements| - 1].end.line < container.end.line
  }

  lemma {:induction false} NothingBetween(elements: seq<Extent>, i: nat, newText: string)
    requires i >= 1
    requires forall j | i <= j < |elements| :: elements[j - 1].end.line < elements[j].start.line
    ensures Between(elements, i, newText) == []
    decreases |elements| - i
  {
    if i < |elements| {
      NothingBetween(elements, i + 1, newText);
    }
  }

  /** Elements on their own lines need no edits, whatever range is asked for. */
  lemma OwnLinesNeedNothing(text: string, container: Extent, elements: seq<Extent>)
    requires HasLine(text, container.start) && elements != [] && OnOwnLines(container, elements)
    ensures forall again, description :: Action(text, again, container, elements, description) == None
  {
    var indentation := Indentation(text, container.start);
    NothingBetween(elements, 1, "\n" + (indentation + INDENTATION));
    assert Insertions(container, elements, indentation) == [];
  }

  lemma MovedLine(text: string, ins: seq<Insertion>, pos: AstPosition)
    requires Ordered(text, 0, ins) && IsPosition(text, pos)
    ensures MovedTo(text, ins, pos).line == pos.line + NewBreaks(ins, pos.offset)
  {
    LineAfterInserting(text, ins, pos.offset);
  }

  lemma MovedLines(text: string, ins: seq<Insertion>, e: Extent)
    requires Ordered(text, 0, ins) && IsPosition(text, e.start) && IsPosition(text, e.end)
    ensures Moved(text, ins, e).start.line == e.start.line + NewBreaks(ins, e.start.offset)
    ensures Moved(text, ins, e).end.line == e.end.line + NewBreaks(ins, e.end.offset)
  {
    MovedLine(text, ins, e.start);
    MovedLine(text, ins, e.end);
  }

  /** Between two positions there is at least a line in the new text, if there was before or if a
      line break was inserted between them. */
  lemma GapAfterInserting(text: string, at: nat, ins: seq<Insertion>, a: AstPosition, b: AstPosition)
    requires OrderedAfter(text, at, ins) && IsPosition(text, a) && IsPosition(text, b) && a.offset < b.offset
    requires a.line == b.line ==> exists i | i in ins :: Breaks(i.text) >= 1 && a.offset < i.pos.offset <= b.offset
    ensures a.line + NewBreaks(ins, a.offset) < b.line + NewBreaks(ins, b.offset)
  {
    PositionsIncrease(text, a.offset, b.offset);
    NewBreaksMonotone(text, at, ins, a.offset, b.offset);
    if a.line == b.line {
      var i :| i in ins && Breaks(i.text) >= 1 && a.offset < i.pos.offset <= b.offset;
      NewBreaksBetween(text, at, ins, i, a.offset, b.offset);
    }
  }

  /** Where two neighbours share a line, there is an insertion between them. */
  lemma SharedLinesAreSplit(text: string, container: Extent, elements: seq<Extent>, i: nat)
    requires LaidOut(text, container, elements) && 1 <= i < |elements|
    ensures var ins := Insertions(container, elements, Indentation(text, container.start));
      elements[i].start.line == elements[i - 1].end.line ==>
        exists j | j in ins ::
          Breaks(j.text) >= 1 && elements[i - 1].end.offset < j.pos.offset <= elements[i].start.offset
  {
    var newText := "\n" + (Indentation(text, container.start) + INDENTATION);
    IndentationHasNoBreaks(text, container.start, INDENTATION);
    if elements[i].start.line == elements[i - 1].end.line {
      BetweenHolds(elements, 1, i, newText);
      assert Insertion(elements[i].start, newText)
          in Insertions(container, elements, Indentation(text, container.start));
    }
  }

  lemma SharedEndsAreSplit(text: string, container: Extent, elements: seq<Extent>)
    requires LaidOut(text, container, elements)
    ensures var ins := Insertions(container, elements, Indentation(text, container.start));
      var end := elements[|elements| - 1].end;
      && (elements[0].start.line == container.start.line ==>
            exists j | j in ins ::
              Breaks(j.text) >= 1 && container.start.offset < j.pos.offset <= elements[0].start.offset)
      && (end.line == container.end.line ==>
            exists j | j in ins :: Breaks(j.text) >= 1 && end.offset < j.pos.offset <= container.end.offset)
  {
    var indentation := Indentation(text, container.start);
    var ins := Insertions(container, elements, indentation);
    var end := elements[|elements| - 1].end;
    IndentationHasNoBreaks(text, container.start, INDENTATION);
    if elements[0].start.line == container.start.line {
      assert Insertion(elements[0].start, "\n" + (indentation + INDENTATION)) in ins;
    }
    if end.line == container.end.line {
      assert Insertion(end.Shifted(1), "\n" + indentation) in ins;
    }
  }

  lemma NeighboursSeparate(text: string, container: Extent, elements: seq<Extent>, i: nat)
    requires LaidOut(text, container, elements) && 1 <= i < |elements|
    ensures var ins := Insertions(container, elements, Indentation(text, container.start));
      && Ordered(text, 0, ins)
      && Moved(text, ins, elements[i - 1]).end.line < Moved(text, ins, elements[i]).start.line
  {
    var ins := Insertions(container, elements, Indentation(text, container.start));
    InsertionsOrdered(text, container, elements, Indentation(text, container.start));
    SharedLinesAreSplit(text, container, elements, i);
    GapAfterInserting(text, container.start.offset, ins, elements[i - 1].end, elements[i].start);
    MovedLines(text, ins, elements[i - 1]);
    MovedLines(text, ins, elements[i]);
  }

  lemma EndsSeparate(text: string, container: Extent, elements: seq<Extent>)
    requires LaidOut(text, container, elements)
    ensures var ins := Insertions(container, elements, Indentation(text, container.start));
      && Ordered(text, 0, ins)
      && Moved(text, ins, container).start.line < Moved(text, ins, elements[0]).start.line
      && Moved(text, ins, elements[|elements| - 1]).end.line < Moved(text, ins, container).end.line
  {
    var ins := Insertions(container, elements, Indentation(text, container.start));
    var last := elements[|elements| - 1];
    InsertionsOrdered(text, container, elements, Indentation(text, container.start));
    SharedEndsAreSplit(text, container, elements);
    GapAfterInserting(text, container.start.offset, ins, container.start, elements[0].start);
    GapAfterInserting(text, container.start.offset, ins, last.end, container.end);
    MovedLines(text, ins, container);
    MovedLines(text, ins, elements[0]);
    MovedLines(text, ins, last);
  }

  /** Applying the edits puts every element on a line of its own. */
  lemma InsertionsSeparate(text: string, container: Extent, elements: seq<Extent>)
    requires LaidOut(text, container, elements)
    ensures var ins := Insertions(container, elements, Indentation(text, container.start));
      && Ordered(text, 0, ins)
      && OnOwnLines(Moved(text, ins, container), MovedAll(text, ins, elements))
  {
    EndsSeparate(text, container, elements);
    forall i | 1 <= i < |elements|
      ensures var ins := Insertions(container, elements, Indentation(text, container.start));
        Moved(text, ins, elements[i - 1]).end.line < Moved(text, ins, elements[i]).start.line
    {
      NeighboursSeparate(text, container, elements, i);
    }
  }

  lemma {:induction false} EditsIncrease(text: string, at: nat, ins: seq<Insertion>)
    requires Addressable(text) && OrderedAfter(text, at, ins)
    ensures StrictlyIncreasing(ToEdits(ins))
    decreases |ins|
  {
    if |ins| > 1 {
      EditsIncrease(text, ins[0].pos.offset, ins[1..]);
      var a, b := ins[0].pos, ins[1].pos;
      PositionsIncrease(text, a.offset, b.offset);
      ConversionKeepsOrder(a, b);
      forall i | 1 <= i < |ins|
        ensures Compare(ToEdits(ins)[i - 1].range.start, ToEdits(ins)[i].range.start) < 0
      {
        if i > 1 {
          assert ToEdits(ins[1..])[i - 2] == ToEdits(ins)[i - 1] && ToEdits(ins[1..])[i - 1] == ToEdits(ins)[i];
        }
      }
    }
  }

  lemma MovedHasLine(text: string, ins: seq<Insertion>, pos: AstPosition)
    requires Ordered(text, 0, ins) && IsPosition(text, pos)
    ensures HasLine(Inserted(text, 0, ins), MovedTo(text, ins, pos))
  {
    LineAfterInserting(text, ins, pos.offset);
  }

  ghost predicate PureInsertions(edits: seq<TextEdit>) {
    forall i | 0 <= i < |edits| :: edits[i].range.start == edits[i].range.end
  }

  ghost predicate StrictlyIncreasing(edits: seq<TextEdit>) {
    forall i | 1 <= i < |edits| :: Compare(edits[i - 1].range.start, edits[i].range.start) < 0
  }

  /** In the text with `ins` inserted every element is on a line of its own, and the action run on
      the moved positions, for whatever range, has nothing to do. */
  ghost predicate Settled(text: string, ins: seq<Insertion>, container: Extent, elements: seq<Extent>)
    requires Ordered(text, 0, ins) && LaidOut(text, container, elements)
  {
    var edited, moved := Inserted(text, 0, ins), Moved(text, ins, container);
    var movedElements := MovedAll(text, ins, elements);
    && OnOwnLines(moved, movedElements)
    && HasLine(edited, moved.start)
    && forall again, description :: Action(edited, again, moved, movedElements, description) == None
  }

  lemma InsertionsSettle(text: string, container: Extent, elements: seq<Extent>)
    requires LaidOut(text, container, elements)
    ensures var ins := Insertions(container, elements, Indentation(text, container.start));
      Ordered(text, 0, ins) && Settled(text, ins, container, elements)
  {
    InsertionsSeparate(text, container, elements);
    var ins := Insertions(container, elements, Indentation(text, container.start));
    MovedHasLine(text, ins, container.start);
    OwnLinesNeedNothing(Inserted(text, 0, ins), Moved(text, ins, container), MovedAll(text, ins, elements));
  }

  /** The requested range starts at or behind one place and ends at or before another; lines count from
      zero, and the end is exclusive. */
  ghost predicate Inside(requested: Range, startLine: int, startColumn: int, endLine: int, endColumn: int) {
    && (startLine < requested.start.line
        || (startLine == requested.start.line && startColumn <= requested.start.character))
    && (requested.end.line < endLine
        || (requested.end.line == endLine && requested.end.character <= endColumn))
  }

  /** The requested range lies between the start of the first element and the end of the last one. */
  ghost predicate Requests(requested: Range, elements: seq<Extent>)
    requires elements != []
  {
    var first, last := elements[0].start, elements[|elements| - 1].end;
    Inside(requested, first.line - 1, first.column, last.line - 1, last.column + 1)
  }

  /** The same with the elements' lines and columns cut to 32 bits. */
  ghost predicate RequestsWrapped(requested: Range, elements: seq<Extent>)
    requires elements != []
  {
    var first, last := elements[0].start, elements[|elements| - 1].end;
    Inside(requested, (first.line - 1) % 0x1_0000_0000, first.column % 0x1_0000_0000,
           (last.line - 1) % 0x1_0000_0000, (last.column + 1) % 0x1_0000_0000)
  }

  lemma OutOfRangeIff(text: string, requested: Range, container: Extent, elements: seq<Extent>)
    requires LaidOut(text, container, elements)
    ensures OutOfRange(requested, elements) <==> !RequestsWrapped(requested, elements)
    ensures Addressable(text) ==> (OutOfRange(requested, elements) <==> !Requests(requested, elements))
  {
    if Addressable(text) {
      Exact(elements[0].start);
      Exact(elements[|elements| - 1].end.Shifted(1));
    }
  }

  /** For laid-out elements an action is offered exactly when there are at least two, the requested range
      lies between the start of the first and the end of the last, and not all are on lines of their own. */
  lemma OfferedIff(text: string, requested: Range, container: Extent, elements: seq<Extent>, description: string)
    requires LaidOut(text, container, elements)
    ensures Action(text, requested, container, elements, description).Some?
       <==> |elements| >= 2 && RequestsWrapped(requested, elements) && !OnOwnLines(container, elements)
    ensures Addressable(text) ==>
      (Action(text, requested, container, elements, description).Some?
       <==> |elements| >= 2 && Requests(requested, elements) && !OnOwnLines(container, elements))
  {
    var ins := Insertions(container, elements, Indentation(text, container.start));
    OutOfRangeIff(text, requested, container, elements);
    if OnOwnLines(container, elements) {
      OwnLinesNeedNothing(text, container, elements);
    } else {
      NotOwnLinesInsert(text, container, elements);
      assert |ToEdits(ins)| == |ins|;
    }
  }

  lemma NotOwnLinesInsert(text: string, container: Extent, elements: seq<Extent>)
    requires LaidOut(text, container, elements) && !OnOwnLines(container, elements)
    ensures Insertions(container, elements, Indentation(text, container.start)) != []
  {
    PositionsIncrease(text, container.start.offset, elements[0].start.offset);
    PositionsIncrease(text, elements[|elements| - 1].end.offset, container.end.offset);
    SharedEndsAreSplit(text, container, elements);
    if i :| 1 <= i < |elements| && elements[i - 1].end.line >= elements[i].start.line {
      PositionsIncrease(text, elements[i - 1].end.offset, elements[i].start.offset);
      SharedLinesAreSplit(text, container, elements, i);
    }
  }

  /** Every character is still there, pushed to the right by what was inserted before it. */
  ghost predicate CharactersKept(text: string, edited: string, ins: seq<Insertion>) {
    forall offset | 0 <= offset < |text| ::
      offset + Push(ins, offset) < |edited| && edited[offset + Push(ins, offset)] == text[offset]
  }

  lemma InsertingKeepsCharacters(text: string, ins: seq<Insertion>)
    requires Ordered(text, 0, ins)
    ensures CharactersKept(text, Inserted(text, 0, ins), ins)
  {
    forall offset | 0 <= offset < |text|
      ensures offset + Push(ins, offset) < |Inserted(text, 0, ins)|
      ensures Inserted(text, 0, ins)[offset + Push(ins, offset)] == text[offset]
    {
      InsertedAt(text, 0, ins, offset);
      CharacterKept(text, 0, ins, offset);
    }
  }

  /** The edits are pure insertions at strictly increasing positions; every character is kept, and
      taking the inserted texts out of the edited text gives the text back; and the edited text is
      settled. */
  ghost predicate Works(text: string, edits: seq<TextEdit>, ins: seq<Insertion>, container: Extent,
                        elements: seq<Extent>)
    requires LaidOut(text, container, elements)
  {
    && PureInsertions(edits) && StrictlyIncreasing(edits)
    && Ordered(text, 0, ins)
    && ApplyEdits(text, 0, edits) == Inserted(text, 0, ins)
    && CharactersKept(text, ApplyEdits(text, 0, edits), ins)
    && Erased(ApplyEdits(text, 0, edits), 0, ins) == text
    && Settled(text, ins, container, elements)
  }

  lemma InsertionsWork(text: string, container: Extent, elements: seq<Extent>)
    requires Addressable(text) && LaidOut(text, container, elements)
    ensures var ins := Insertions(container, elements, Indentation(text, container.start));
      Works(text, ToEdits(ins), ins, container, elements)
  {
    var ins := Insertions(container, elements, Indentation(text, container.start));
    InsertionsOrdered(text, container, elements, Indentation(text, container.start));
    EditsIncrease(text, container.start.offset, ins);
    EditsInsert(text, 0, ins);
    ErasedInserted(text, 0, ins);
    InsertingKeepsCharacters(text, ins);
    InsertionsSettle(text, container, elements);
  }

  /** The answer `action` is no action where none is needed, or one that works. */
  ghost predicate Delivers(text: string, requested: Range, container: Extent, elements: seq<Extent>,
                           description: string, action: Option<CodeAction>)
    requires LaidOut(text, container, elements)
  {
    match action
    case None => |elements| < 2 || !Requests(requested, elements) || OnOwnLines(container, elements)
    case Some(a) =>
      && a.title == "Split " + description + " onto separate lines"
      && Works(text, a.edits, Insertions(container, elements, Indentation(text, container.start)), container, elements)
  }

  /** Whatever action is offered works. */
  lemma SplitLinesWorks(text: string, requested: Range, container: Extent, elements: seq<Extent>, description: string)
    requires Addressable(text) && LaidOut(text, container, elements)
    ensures Delivers(text, requested, container, elements, description,
                     Action(text, requested, container, elements, description))
  {
    OfferedIff(text, requested, container, elements, description);
    InsertionsWork(text, container, elements);
  }

  // -------------------------------------------------------------- the method

  /** The loop over neighbouring elements. */
  method SplitBetween(elements: seq<Extent>, newText: string, edits: seq<TextEdit>) returns (more: seq<TextEdit>)
    requires elements != []
    ensures more == edits + ToEdits(Between(elements, 1, newText))
  {
    more := edits;
    for i := 1 to |elements|
      invariant more + ToEdits(Between(elements, i, newText)) == edits + ToEdits(Between(elements, 1, newText))
    {
      ghost var here :=
        if elements[i].start.line == elements[i - 1].end.line then [Insertion(elements[i].start, newText)] else [];
      ToEditsConcat(here, Between(elements, i + 1, newText));
      if elements[i].start.line == elements[i - 1].end.line {
        var at := ASTToProtocolPosition(elements[i].start);
        more := more + [TextEdit(Range(at, at), newText)];
      }
    }
  }

  /** The edits for a container whose line has the given indentation. */
  method CollectEdits(container: Extent, elements: seq<Extent>, indentation: string) returns (edits: seq<TextEdit>)
    requires elements != []
    ensures edits == ToEdits(Insertions(container, elements, indentation))
  {
    var newText := "\n" + (indentation + INDENTATION);
    edits := [];
    if elements[0].start.line == container.start.line {
      var at := ASTToProtocolPosition(elements[0].start);
      edits := [TextEdit(Range(at, at), newText)];
    }
    ghost var first, between := First(container, elements, newText), Between(elements, 1, newText);
    assert edits == ToEdits(first);
    edits := SplitBetween(elements, newText, edits);
    ToEditsConcat(first, between);
    var lastEnd := elements[|elements| - 1].end;
    if lastEnd.line == container.end.line {
      var at := ASTToProtocolPosition(lastEnd.Shifted(1));
      edits := edits + [TextEdit(Range(at, at), "\n" + indentation)];
    }
    ToEditsConcat(first + between, Last(container, elements, "\n" + indentation));
    assert edits == ToEdits(first + between) + ToEdits(Last(container, elements, "\n" + indentation));
  }

  method MaybeSplitLines(text: string, requested: Range, container: Extent, elements: seq<Extent>, description: string)
    returns (action: Option<CodeAction>)
    requires |elements| < 2 || OutOfRange(requested, elements) || HasLine(text, container.start)
    ensures action == Action(text, requested, container, elements, description)
    ensures Addressable(text) && LaidOut(text, container, elements) ==>
              Delivers(text, requested, container, elements, description, action)
  {
    if Addressable(text) && LaidOut(text, container, elements) {
      SplitLinesWorks(text, requested, container, elements, description);
    }
    if |elements| < 2 {
      return None;
    }
    if Compare(ASTToProtocolPosition(elements[0].start), requested.start) > 0
       || Compare(ASTToProtocolPosition(elements[|elements| - 1].end.Shifted(1)), requested.end) < 0 {
      return None;
    }
    var indentation := ExtractIndentation(text, container.start);
    var textEdits := CollectEdits(container, elements, indentation);
    if |textEdits| == 0 {
      return None;
    }
    return Some(CodeAction("Split " + description + " onto separate lines", textEdits));
  }
}
