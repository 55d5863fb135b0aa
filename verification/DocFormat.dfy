/** Documentation comments (docgen/doc_generator.go): `formatDoc` and `formatFuncDoc`.

    `Lines` holds the string functions they use; `DocFormat` the two formatters and what they
    promise about lines. */
module Lines {
  import opened Prelude

  const NEWLINE := "\n"

  /** Unicode white space. */
  predicate IsSpace(c: char) {
    || c == ' ' || c == '\t' || c == '\n' || c == '\r'
    || c == '\U{000B}' || c == '\U{000C}' || c == '\U{0085}' || c == '\U{00A0}'
    || c == '\U{1680}' || '\U{2000}' <= c <= '\U{200A}'
    || c == '\U{2028}' || c == '\U{2029}' || c == '\U{202F}' || c == '\U{205F}' || c == '\U{3000}'
  }

  /** The characters that Go's `unicode.IsSpace` accepts, by code point. */
  lemma SpaceCodePoints(c: char)
    ensures IsSpace(c) <==>
              || c as int in {9, 10, 11, 12, 13, 0x20, 0x85, 0xA0, 0x1680, 0x2028, 0x2029, 0x202F, 0x205F, 0x3000}
              || 0x2000 <= c as int <= 0x200A
  {
  }

  function TrimLeft(s: string): string {
    if s != [] && IsSpace(s[0]) then TrimLeft(s[1..]) else s
  }

  function TrimRight(s: string): string {
    if s != [] && IsSpace(s[|s| - 1]) then TrimRight(s[..|s| - 1]) else s
  }

  function TrimSpace(s: string): string {
    TrimRight(TrimLeft(s))
  }

  predicate Trimmed(s: string) {
    s != [] ==> !IsSpace(s[0]) && !IsSpace(s[|s| - 1])
  }

  predicate OneLine(s: string) {
    '\n' !in s
  }

  /** Never empty: a text without line breaks is one line. */
  function Split(s: string): (r: seq<string>)
    ensures r != []
  {
    if s == [] then [""]
    else if s[0] == '\n' then [""] + Split(s[1..])
    else
      var rest := Split(s[1..]);
      [[s[0]] + rest[0]] + rest[1..]
  }

  function Join(lines: seq<string>): string {
    if lines == [] then ""
    else if |lines| == 1 then lines[0]
    else Join(lines[..|lines| - 1]) + NEWLINE + lines[|lines| - 1]
  }

  lemma {:induction false} TrimLeftFacts(s: string)
    ensures TrimLeft(s) == [] || !IsSpace(TrimLeft(s)[0])
    ensures |TrimLeft(s)| <= |s| && TrimLeft(s) == s[|s| - |TrimLeft(s)|..]
    ensures forall i | 0 <= i < |s| - |TrimLeft(s)| :: IsSpace(s[i])
    ensures OneLine(s) ==> OneLine(TrimLeft(s))
  {
    if s != [] && IsSpace(s[0]) {
      TrimLeftFacts(s[1..]);
    }
  }

  lemma {:induction false} TrimRightFacts(s: string)
    ensures TrimRight(s) <= s
    ensures forall i | |TrimRight(s)| <= i < |s| :: IsSpace(s[i])
    ensures TrimRight(s) == [] || !IsSpace(TrimRight(s)[|TrimRight(s)| - 1])
    ensures s != [] && !IsSpace(s[0]) ==> TrimRight(s) != []
  {
    if s != [] && IsSpace(s[|s| - 1]) {
      TrimRightFacts(s[..|s| - 1]);
    }
  }

  /** Trimming leaves nothing to trim, and joins no lines. */
  lemma TrimSpaceTrims(s: string)
    ensures Trimmed(TrimSpace(s)) && (OneLine(s) ==> OneLine(TrimSpace(s)))
    ensures Trimmed(s) ==> TrimSpace(s) == s
  {
    TrimLeftFacts(s);
    TrimRightFacts(TrimLeft(s));
    if TrimSpace(s) != [] {
      assert TrimSpace(s)[0] == TrimLeft(s)[0];
    }
  }

  /** Only white space is taken away, at both ends. */
  lemma TrimSpaceCuts(s: string) returns (start: nat, end: nat)
    ensures start <= end <= |s| && TrimSpace(s) == s[start..end]
    ensures forall i | 0 <= i < start || end <= i < |s| :: IsSpace(s[i])
  {
    var left := TrimLeft(s);
    TrimLeftFacts(s);
    TrimRightFacts(left);
    start := |s| - |left|;
    end := start + |TrimRight(left)|;
    assert forall i | end <= i < |s| :: s[i] == left[i - start];
  }

  lemma {:induction false} JoinCons(line: string, lines: seq<string>)
    requires lines != []
    ensures Join([line] + lines) == line + NEWLINE + Join(lines)
  {
    var all := [line] + lines;
    if |lines| > 1 {
      var n := |lines| - 1;
      JoinCons(line, lines[..n]);
      assert all[..|all| - 1] == [line] + lines[..n];
      Assoc(line + NEWLINE, Join(lines[..n]) + NEWLINE, lines[n]);
      Assoc(line + NEWLINE, Join(lines[..n]), NEWLINE);
    } else {
      assert all[..1] == [line];
    }
  }

  lemma {:induction false} SplitOneLine(s: string)
    requires OneLine(s)
    ensures Split(s) == [s]
  {
    if s != [] {
      assert s[0] in s && forall c | c in s[1..] :: c in s;
      SplitOneLine(s[1..]);
      assert [s[0]] + s[1..] == s;
    }
  }

  lemma {:induction false} SplitLine(line: string, rest: string)
    requires OneLine(line)
    ensures Split(line + NEWLINE + rest) == [line] + Split(rest)
  {
    var all := line + NEWLINE + rest;
    if line == [] {
      assert all[0] == '\n' && all[1..] == rest;
    } else {
      assert line[0] in line && forall c | c in line[1..] :: c in line;
      assert all[0] == line[0] && all[1..] == line[1..] + NEWLINE + rest;
      SplitLine(line[1..], rest);
      assert [line[0]] + line[1..] == line;
    }
  }

  ghost predicate OneLines(lines: seq<string>) {
    forall i | 0 <= i < |lines| :: OneLine(lines[i])
  }

  /** Lines that hold no line breaks come back from the text they are joined to. */
  lemma {:induction false} SplitJoin(lines: seq<string>)
    requires lines != [] && OneLines(lines)
    ensures Split(Join(lines)) == lines
  {
    if |lines| == 1 {
      SplitOneLine(lines[0]);
    } else {
      assert lines == [lines[0]] + lines[1..];
      SplitJoin(lines[1..]);
      JoinCons(lines[0], lines[1..]);
      SplitLine(lines[0], Join(lines[1..]));
    }
  }

  /** Putting a character in front of the first line puts it in front of the text. */
  lemma JoinFirstChar(c: char, lines: seq<string>)
    requires lines != []
    ensures Join([[c] + lines[0]] + lines[1..]) == [c] + Join(lines)
  {
    var first := [c] + lines[0];
    if |lines| > 1 {
      JoinCons(first, lines[1..]);
      JoinCons(lines[0], lines[1..]);
      assert lines == [lines[0]] + lines[1..];
      Assoc([c], lines[0], NEWLINE);
      Assoc([c], lines[0] + NEWLINE, Join(lines[1..]));
    } else {
      assert lines == [lines[0]] && [first] + lines[1..] == [first];
    }
  }

  /** The lines of a text hold no line breaks; the text is what joining them gives. */
  lemma {:induction false} JoinSplit(s: string)
    ensures OneLines(Split(s)) && Join(Split(s)) == s
  {
    if s != [] {
      JoinSplit(s[1..]);
      assert s == [s[0]] + s[1..];
      if s[0] == '\n' {
        JoinCons("", Split(s[1..]));
        assert "" + NEWLINE == [s[0]];
      } else {
        JoinFirstChar(s[0], Split(s[1..]));
      }
    }
  }

  /** A text that starts or ends with something else than white space has such a first or last line. */
  lemma {:induction false} SplitEnds(s: string)
    requires s != [] && Trimmed(s)
    ensures var ls := Split(s);
      && ls[0] != [] && ls[0][0] == s[0]
      && ls[|ls| - 1] != [] && ls[|ls| - 1][|ls[|ls| - 1]| - 1] == s[|s| - 1]
  {
    JoinSplit(s);
    var ls := Split(s);
    var last := ls[|ls| - 1];
    if |ls| > 1 {
      var front := Join(ls[..|ls| - 1]) + NEWLINE;
      assert s == front + last && front[|front| - 1] == '\n';
      assert last == [] ==> s == front;
    } else {
      assert s == last;
    }
  }
}

module DocFormat {
  import opened Prelude
  import opened Lines

  const PARAM_PREFIX := "@param "
  const RETURN_PREFIX := "@return "
  const PARAMETERS := "Parameters:"
  const RETURNS := "Returns: "

  function TrimAll(lines: seq<string>): (r: seq<string>)
    ensures |r| == |lines|
    ensures forall i | 0 <= i < |lines| :: r[i] == TrimSpace(lines[i])
  {
    seq(|lines|, i requires 0 <= i < |lines| => TrimSpace(lines[i]))
  }

  /** The trimmed lines that both formatters work on. */
  function DocLines(doc: string): seq<string> {
    TrimAll(Split(TrimSpace(doc)))
  }

  lemma DocLinesTrimmed(doc: string)
    ensures OneLines(DocLines(doc)) && forall i | 0 <= i < |DocLines(doc)| :: Trimmed(DocLines(doc)[i])
  {
    var lines := Split(TrimSpace(doc));
    JoinSplit(TrimSpace(doc));
    forall i | 0 <= i < |lines|
      ensures OneLine(DocLines(doc)[i]) && Trimmed(DocLines(doc)[i])
    {
      TrimSpaceTrims(lines[i]);
    }
  }

  // --------------------------------------------------------------- formatDoc

  method FormatDoc(docString: string) returns (result: string)
    ensures result == Join(DocLines(docString))
    ensures var lines := Split(TrimSpace(docString));
      |Split(result)| == |lines| && forall i | 0 <= i < |lines| :: Split(result)[i] == TrimSpace(lines[i])
  {
    var lines := Split(TrimSpace(docString));
    result := "";
    for i := 0 to |lines|
      invariant result == Join(DocLines(docString)[..i])
    {
      var formattedLine := TrimSpace(lines[i]);
      ghost var more := DocLines(docString)[..i + 1];
      assert more[..i] == DocLines(docString)[..i];
      if i > 0 {
        result := result + NEWLINE;
      }
      result := result + formattedLine;
    }
    assert DocLines(docString)[..|lines|] == DocLines(docString);
    DocLinesTrimmed(docString);
    SplitJoin(DocLines(docString));
  }

  /** Formatting a formatted comment changes nothing. */
  lemma FormatDocIdempotent(doc: string)
    ensures Join(DocLines(Join(DocLines(doc)))) == Join(DocLines(doc))
  {
    var text := TrimSpace(doc);
    var lines := DocLines(doc);
    var formatted := Join(lines);
    TrimSpaceTrims(doc);
    DocLinesTrimmed(doc);
    FormattedTrimmed(doc);
    TrimSpaceTrims(formatted);
    SplitJoin(lines);
    forall i | 0 <= i < |lines|
      ensures TrimSpace(lines[i]) == lines[i]
    {
      TrimSpaceTrims(lines[i]);
    }
    assert TrimAll(lines) == lines;
  }

  lemma FormattedTrimmed(doc: string)
    ensures Trimmed(Join(DocLines(doc)))
  {
    var text := TrimSpace(doc);
    var lines := Split(text);
    TrimSpaceTrims(doc);
    if text == [] {
      assert DocLines(doc) == [TrimSpace("")];
    } else {
      SplitEnds(text);
      StartsAsBefore(lines[0]);
      EndsAsBefore(lines[|lines| - 1]);
      JoinTrimmed(DocLines(doc));
    }
  }

  /** A text starts as its first line does and ends as its last line does. */
  lemma JoinTrimmed(lines: seq<string>)
    requires lines != [] && lines[0] != [] && lines[|lines| - 1] != []
    requires var last := lines[|lines| - 1]; !IsSpace(lines[0][0]) && !IsSpace(last[|last| - 1])
    ensures Trimmed(Join(lines))
  {
    if |lines| > 1 {
      assert lines == [lines[0]] + lines[1..];
      JoinCons(lines[0], lines[1..]);
    }
  }

  lemma StartsAsBefore(s: string)
    requires s != [] && !IsSpace(s[0])
    ensures TrimSpace(s) != [] && TrimSpace(s)[0] == s[0]
  {
    TrimRightFacts(s);
  }

  lemma {:induction false} EndsAsBefore(s: string)
    requires s != [] && !IsSpace(s[|s| - 1])
    ensures TrimSpace(s) != [] && TrimSpace(s)[|TrimSpace(s)| - 1] == s[|s| - 1]
  {
    if IsSpace(s[0]) {
      assert s[1..] != [];
      EndsAsBefore(s[1..]);
    }
  }

  // ----------------------------------------------------------- formatFuncDoc

  datatype LineKind = ParamLine(entry: string) | ReturnLine | DocLine

  function IndexOfColon(s: string): Option<nat> {
    if s == [] then None
    else if s[0] == ':' then Some(0)
    else match IndexOfColon(s[1..]) case None => None case Some(i) => Some(i + 1)
  }

  lemma {:induction false} ColonInRange(s: string)
    ensures IndexOfColon(s).Some? ==> IndexOfColon(s).value < |s|
  {
    if s != [] && s[0] != ':' {
      ColonInRange(s[1..]);
    }
  }

  function ParamEntry(name: string, doc: string): string {
    if |doc| > 0 then "  - " + name + " : _" + doc + "_" else "  - " + name
  }

  /** A parameter line needs a colon and a name in front of it; without them it is text. */
  function Classify(line: string, genReturnType: bool): LineKind {
    if PARAM_PREFIX <= line then
      var info := line[|PARAM_PREFIX|..];
      ColonInRange(info);
      match IndexOfColon(info)
      case None => DocLine
      case Some(colon) =>
        var name := TrimSpace(info[..colon]);
        if |name| > 0 then ParamLine(ParamEntry(name, TrimSpace(info[colon + 1..]))) else DocLine
    else if genReturnType && RETURN_PREFIX <= line then ReturnLine
    else DocLine
  }

  function Params(lines: seq<string>, gen: bool): seq<string> {
    if lines == [] then []
    else
      var n := |lines| - 1;
      Params(lines[..n], gen)
      + match Classify(lines[n], gen) case ParamLine(entry) => [entry] case _ => []
  }

  function Returns(lines: seq<string>, gen: bool): seq<string> {
    if lines == [] then []
    else
      var n := |lines| - 1;
      Returns(lines[..n], gen) + if Classify(lines[n], gen).ReturnLine? then [lines[n]] else []
  }

  function Docs(lines: seq<string>, gen: bool): seq<string> {
    if lines == [] then []
    else
      var n := |lines| - 1;
      Docs(lines[..n], gen) + if Classify(lines[n], gen).DocLine? then [lines[n]] else []
  }

  /** Drops each blank line that follows a blank line. */
  function Kept(docs: seq<string>): seq<string> {
    if docs == [] then []
    else
      var before := Kept(docs[..|docs| - 1]);
      var line := docs[|docs| - 1];
      if line == "" && before != [] && before[|before| - 1] == "" then before else before + [line]
  }

  function LastOf(lines: seq<string>): string {
    if lines == [] then "" else lines[|lines| - 1]
  }

  /** A blank line, unless there is one at the end already. */
  function Separator(kept: seq<string>): seq<string> {
    if kept != [] && LastOf(kept) == "" then [] else [""]
  }

  function ReturnEntry(line: string): string {
    RETURNS + TrimSpace(if RETURN_PREFIX <= line then line[|RETURN_PREFIX|..] else line)
  }

  function ParamSection(kept: seq<string>, params: seq<string>): seq<string> {
    if params == [] then [] else Separator(kept) + [PARAMETERS] + params
  }

  function ReturnSection(kept: seq<string>, params: seq<string>, returnDoc: string): seq<string> {
    if returnDoc == "" then []
    else (if params == [] then Separator(kept) else [""]) + [ReturnEntry(returnDoc)]
  }

  /** All lines of the result.  With nothing kept the text before the sections is one empty line. */
  function Output(kept: seq<string>, params: seq<string>, returnDoc: string): seq<string> {
    (if kept == [] then [""] else kept) + ParamSection(kept, params) + ReturnSection(kept, params, returnDoc)
  }

  function FuncDoc(doc: string, gen: bool): seq<string> {
    var lines := DocLines(doc);
    Output(Kept(Docs(lines, gen)), Params(lines, gen), LastOf(Returns(lines, gen)))
  }

  lemma JoinSnoc(lines: seq<string>, line: string)
    ensures Join(lines + [line]) == if lines == [] then line else Join(lines) + NEWLINE + line
  {
    assert (lines + [line])[..|lines|] == lines;
  }

  /** The variables of `formatFuncDoc`'s loop. */
  datatype Progress = Progress(text: string, params: seq<string>, prevEmpty: bool, docLines: nat, returnDoc: string)

  ghost predicate Consumed(done: seq<string>, gen: bool, p: Progress) {
    && Written(Docs(done, gen), p.text, p.prevEmpty, p.docLines)
    && p.params == Params(done, gen)
    && p.returnDoc == LastOf(Returns(done, gen))
  }

  method FormatFuncDoc(docString: string, genReturnType: bool) returns (result: string)
    ensures result == Join(FuncDoc(docString, genReturnType))
  {
    var lines := Split(TrimSpace(docString));
    ghost var trimmed := DocLines(docString);
    var p := Progress("", [], false, 0, "");
    assert trimmed[..0] == [];
    for i := 0 to |lines|
      invariant Consumed(trimmed[..i], genReturnType, p)
    {
      p := ConsumeLine(trimmed[..i], lines[i], genReturnType, p);
      assert trimmed[..i + 1] == trimmed[..i] + [TrimSpace(lines[i])];
    }
    assert trimmed[..|lines|] == trimmed;
    result := WriteSections(Kept(Docs(trimmed, genReturnType)), p.text, p.params, p.prevEmpty, p.returnDoc);
  }

  /** The loop body. */
  method ConsumeLine(ghost done: seq<string>, line: string, gen: bool, p: Progress) returns (q: Progress)
    requires Consumed(done, gen, p)
    ensures Consumed(done + [TrimSpace(line)], gen, q)
  {
    var formattedLine := TrimSpace(line);
    ConsumeOne(done, formattedLine, gen);
    var kind := Classify(formattedLine, gen);
    if kind.ParamLine? {
      q := p.(params := p.params + [kind.entry]);
    } else if kind.ReturnLine? {
      q := p.(returnDoc := formattedLine);
    } else {
      var text, prevEmpty, docLines := AddDocLine(Docs(done, gen), p.text, p.prevEmpty, p.docLines, formattedLine);
      q := p.(text := text, prevEmpty := prevEmpty, docLines := docLines);
    }
  }

  lemma KeptSnoc(docs: seq<string>, line: string)
    ensures Kept(docs + [line])
         == if line == "" && Kept(docs) != [] && LastOf(Kept(docs)) == "" then Kept(docs) else Kept(docs) + [line]
  {
    assert (docs + [line])[..|docs|] == docs;
  }

  /** What the loop has written for the description lines so far. */
  ghost predicate Written(docs: seq<string>, text: string, prevEmpty: bool, count: nat) {
    && text == Join(Kept(docs))
    && count == |Kept(docs)|
    && (prevEmpty <==> Kept(docs) != [] && LastOf(Kept(docs)) == "")
  }

  method AddDocLine(ghost docs: seq<string>, text: string, prevEmpty: bool, count: nat, line: string)
    returns (newText: string, newPrevEmpty: bool, newCount: nat)
    requires Written(docs, text, prevEmpty, count)
    ensures Written(docs + [line], newText, newPrevEmpty, newCount)
  {
    KeptSnoc(docs, line);
    JoinSnoc(Kept(docs), line);
    newText, newPrevEmpty, newCount := text, prevEmpty, count;
    var isLineEmpty := |line| == 0;
    if prevEmpty && isLineEmpty {
      return;
    }
    if count > 0 {
      newText := newText + NEWLINE;
    }
    newText := newText + line;
    newPrevEmpty := isLineEmpty;
    newCount := count + 1;
  }

  lemma ConsumeOne(lines: seq<string>, line: string, gen: bool)
    ensures var all, kind := lines + [line], Classify(line, gen);
      && Params(all, gen) == (if kind.ParamLine? then Params(lines, gen) + [kind.entry] else Params(lines, gen))
      && Returns(all, gen) == (if kind.ReturnLine? then Returns(lines, gen) + [line] else Returns(lines, gen))
      && Docs(all, gen) == (if kind.DocLine? then Docs(lines, gen) + [line] else Docs(lines, gen))
  {
    assert (lines + [line])[..|lines|] == lines;
  }

  /** The parameter and return sections, written behind the description. */
  method WriteSections(ghost kept: seq<string>, text: string, params: seq<string>, prevEmpty: bool, returnDoc: string)
    returns (result: string)
    requires text == Join(kept) && (prevEmpty <==> kept != [] && LastOf(kept) == "")
    ensures result == Join(Output(kept, params, returnDoc))
  {
    ghost var base := if kept == [] then [""] else kept;
    result := text;
    var isPrevLineEmpty := prevEmpty;
    if |params| > 0 {
      result := WriteBlank(base, result, isPrevLineEmpty);
      result := WriteParams(base + (if isPrevLineEmpty then [] else [""]), result, params);
      Assoc(base, Separator(kept), [PARAMETERS] + params);
      Assoc(Separator(kept), [PARAMETERS], params);
      isPrevLineEmpty := false;
    } else {
      assert base + [] == base;
    }
    ghost var lines := base + ParamSection(kept, params);
    assert result == Join(lines);
    if |returnDoc| > 0 {
      result := WriteBlank(lines, result, isPrevLineEmpty);
      ghost var blank := if isPrevLineEmpty then [] else [""];
      JoinSnoc(lines + blank, ReturnEntry(returnDoc));
      Assoc(lines, blank, [ReturnEntry(returnDoc)]);
      result := result + NEWLINE;
      var returnInfo := if RETURN_PREFIX <= returnDoc then returnDoc[|RETURN_PREFIX|..] else returnDoc;
      result := result + (RETURNS + TrimSpace(returnInfo));
    } else {
      assert lines + [] == lines;
    }
  }

  /** A line break, unless the last line is blank already. */
  method WriteBlank(ghost lines: seq<string>, text: string, prevEmpty: bool) returns (result: string)
    requires lines != [] && text == Join(lines)
    ensures result == Join(lines + if prevEmpty then [] else [""])
  {
    result := text;
    if !prevEmpty {
      JoinSnoc(lines, "");
      result := result + NEWLINE;
      assert result + "" == result;
    } else {
      assert lines + [] == lines;
    }
  }

  lemma JoinOneMore(header: seq<string>, params: seq<string>, i: nat)
    requires header != [] && i < |params|
    ensures Join(header + params[..i + 1]) == Join(header + params[..i]) + NEWLINE + params[i]
  {
    JoinSnoc(header + params[..i], params[i]);
    assert header + params[..i + 1] == header + params[..i] + [params[i]];
  }

  method WriteParams(ghost lines: seq<string>, text: string, params: seq<string>) returns (result: string)
    requires lines != [] && text == Join(lines)
    ensures result == Join(lines + ([PARAMETERS] + params))
  {
    JoinSnoc(lines, PARAMETERS);
    result := text + NEWLINE;
    result := result + PARAMETERS;
    ghost var header := lines + [PARAMETERS];
    assert header + params[..0] == header;
    for i := 0 to |params|
      invariant result == Join(header + params[..i])
    {
      JoinOneMore(header, params, i);
      result := result + NEWLINE;
      result := result + params[i];
    }
    assert params[..|params|] == params;
    Assoc(lines, [PARAMETERS], params);
  }

  // ---------------------------------------------------------------- promises

  function NonBlank(lines: seq<string>): seq<string> {
    if lines == [] then []
    else NonBlank(lines[..|lines| - 1]) + if LastOf(lines) == "" then [] else [LastOf(lines)]
  }

  ghost predicate NoTwoBlanks(lines: seq<string>) {
    forall i | 0 <= i < |lines| - 1 :: !(lines[i] == "" && lines[i + 1] == "")
  }

  /** Every line is a parameter entry, a return line or a description line, and only one of them. */
  lemma {:induction false} LinesPartitioned(lines: seq<string>, gen: bool)
    ensures |Params(lines, gen)| + |Returns(lines, gen)| + |Docs(lines, gen)| == |lines|
    ensures forall line | line in Docs(lines, gen) :: line in lines && Classify(line, gen).DocLine?
    ensures forall line | line in Returns(lines, gen) :: line in lines && Classify(line, gen).ReturnLine?
    ensures forall entry | entry in Params(lines, gen) ::
              exists line | line in lines :: Classify(line, gen) == ParamLine(entry)
  {
    if lines != [] {
      var n := |lines| - 1;
      LinesPartitioned(lines[..n], gen);
      assert lines[n] in lines && forall line | line in lines[..n] :: line in lines;
    }
  }

  /** Of the description lines only blanks are dropped, and only behind a blank. */
  lemma {:induction false} KeptDropsRepeatedBlanks(docs: seq<string>)
    ensures NonBlank(Kept(docs)) == NonBlank(docs)
    ensures NoTwoBlanks(Kept(docs))
    ensures docs != [] ==> Kept(docs) != [] && (LastOf(Kept(docs)) == "" <==> LastOf(docs) == "")
    ensures forall line | line in Kept(docs) :: line in docs
  {
    if docs != [] {
      var n := |docs| - 1;
      KeptDropsRepeatedBlanks(docs[..n]);
      var before := Kept(docs[..n]);
      NonBlankSnoc(before, docs[n]);
    }
  }

  lemma NonBlankSnoc(lines: seq<string>, line: string)
    ensures NonBlank(lines + [line]) == NonBlank(lines) + if line == "" then [] else [line]
  {
    assert (lines + [line])[..|lines|] == lines;
  }

  /** Parameter entries are never blank. */
  lemma {:induction false} ParamsNotBlank(lines: seq<string>, gen: bool)
    ensures forall i | 0 <= i < |Params(lines, gen)| :: Params(lines, gen)[i] != ""
  {
    if lines != [] {
      ParamsNotBlank(lines[..|lines| - 1], gen);
    }
  }

  /** The result never has two blank lines in a row, except that it starts with two exactly when
      there is a section and no description line was kept. */
  lemma OutputBlanksIff(kept: seq<string>, params: seq<string>, returnDoc: string)
    requires NoTwoBlanks(kept) && forall i | 0 <= i < |params| :: params[i] != ""
    ensures NoTwoBlanks(Output(kept, params, returnDoc)) <==> kept != [] || (params == [] && returnDoc == "")
  {
    var base := if kept == [] then [""] else kept;
    var section, rest := ParamSection(kept, params), ReturnSection(kept, params, returnDoc);
    var all := Output(kept, params, returnDoc);
    if kept == [] && (params != [] || returnDoc != "") {
      assert all[0] == "" && all[1] == "";
    } else {
      if params != [] {
        Assoc(Separator(kept), [PARAMETERS], params);
      }
    }
  }

  // -------------------------------------------- the lines of the result text

  lemma OneLineEntry(name: string, doc: string)
    requires OneLine(name) && OneLine(doc)
    ensures OneLine(ParamEntry(name, doc))
  {
  }

  lemma ClassifyOneLine(line: string, gen: bool)
    requires OneLine(line) && Classify(line, gen).ParamLine?
    ensures OneLine(Classify(line, gen).entry)
  {
    var info := line[|PARAM_PREFIX|..];
    ColonInRange(info);
    var colon := IndexOfColon(info).value;
    TrimSpaceTrims(info[..colon]);
    TrimSpaceTrims(info[colon + 1..]);
    OneLineEntry(TrimSpace(info[..colon]), TrimSpace(info[colon + 1..]));
  }

  lemma {:induction false} ParamsOneLine(lines: seq<string>, gen: bool)
    requires OneLines(lines)
    ensures OneLines(Params(lines, gen))
  {
    if lines != [] {
      var n := |lines| - 1;
      ParamsOneLine(lines[..n], gen);
      if Classify(lines[n], gen).ParamLine? {
        ClassifyOneLine(lines[n], gen);
      }
    }
  }

  lemma ReturnEntryOneLine(line: string)
    requires OneLine(line)
    ensures OneLine(ReturnEntry(line))
  {
    var info := if RETURN_PREFIX <= line then line[|RETURN_PREFIX|..] else line;
    assert OneLine(info);
    TrimSpaceTrims(info);
    assert OneLine(RETURNS);
  }

  lemma MembersOneLine(some: seq<string>, lines: seq<string>)
    requires OneLines(lines) && forall line | line in some :: line in lines
    ensures OneLines(some)
  {
    forall i | 0 <= i < |some|
      ensures OneLine(some[i])
    {
      assert some[i] in lines;
    }
  }

  lemma OutputOneLine(kept: seq<string>, params: seq<string>, returnDoc: string)
    requires OneLines(kept) && OneLines(params) && OneLine(returnDoc)
    ensures OneLines(Output(kept, params, returnDoc))
  {
    ReturnEntryOneLine(returnDoc);
    assert OneLine(PARAMETERS);
    assert OneLines(ParamSection(kept, params)) && OneLines(ReturnSection(kept, params, returnDoc));
  }

  /** The lines of the result text are the lines the sections were made of. */
  lemma FuncDocLines(doc: string, gen: bool)
    ensures Split(Join(FuncDoc(doc, gen))) == FuncDoc(doc, gen)
  {
    var lines := DocLines(doc);
    var kept, params, returnDoc := Kept(Docs(lines, gen)), Params(lines, gen), LastOf(Returns(lines, gen));
    DocLinesTrimmed(doc);
    LinesPartitioned(lines, gen);
    KeptDropsRepeatedBlanks(Docs(lines, gen));
    MembersOneLine(kept, lines);
    ParamsOneLine(lines, gen);
    MembersOneLine(Returns(lines, gen), lines);
    OutputOneLine(kept, params, returnDoc);
    SplitJoin(FuncDoc(doc, gen));
  }

  /** For every comment: the result text has two blank lines in a row exactly when no description
      line is kept and there is a parameter or a return line. */
  lemma FuncDocBlanks(doc: string, gen: bool)
    ensures var lines := DocLines(doc);
      NoTwoBlanks(Split(Join(FuncDoc(doc, gen))))
      <==> Docs(lines, gen) != [] || (Params(lines, gen) == [] && LastOf(Returns(lines, gen)) == "")
  {
    var lines := DocLines(doc);
    FuncDocLines(doc, gen);
    KeptDropsRepeatedBlanks(Docs(lines, gen));
    ParamsNotBlank(lines, gen);
    OutputBlanksIff(Kept(Docs(lines, gen)), Params(lines, gen), LastOf(Returns(lines, gen)));
  }

  /** Comments that fail: a parameter line alone gives a text that starts with two blank lines. */
  lemma ParameterAloneStartsBlank(line: string, gen: bool)
    requires OneLine(line) && Trimmed(line) && Classify(line, gen).ParamLine?
    ensures !NoTwoBlanks(Split(Join(FuncDoc(line, gen))))
  {
    TrimSpaceTrims(line);
    SplitOneLine(line);
    assert DocLines(line) == [line];
    ConsumeOne([], line, gen);
    assert [] + [line] == [line];
    FuncDocBlanks(line, gen);
  }

  lemma ParameterAloneExample(gen: bool)
    ensures !NoTwoBlanks(Split(Join(FuncDoc("@param a: b", gen))))
  {
    TrimSpaceTrims("a");
    NamedParameter("a", " b", gen);
    assert "@param " + "a" + ":" + " b" == "@param a: b";
    ParameterAloneStartsBlank("@param a: b", gen);
  }

  lemma NamedParameter(name: string, doc: string, gen: bool)
    requires TrimSpace(name) != "" && ':' !in name
    ensures Classify("@param " + name + ":" + doc, gen) == ParamLine(ParamEntry(TrimSpace(name), TrimSpace(doc)))
  {
    var line := "@param " + name + ":" + doc;
    var info := name + ":" + doc;
    assert line[7..] == info && "@param " <= line;
    FirstColon(name, doc);
    assert info[..|name|] == name && info[|name| + 1..] == doc;
  }

  lemma {:induction false} FirstColon(name: string, doc: string)
    requires ':' !in name
    ensures IndexOfColon(name + ":" + doc) == Some(|name|)
  {
    if name != [] {
      FirstColon(name[1..], doc);
      assert (name + ":" + doc)[1..] == name[1..] + ":" + doc;
      assert name[0] in name;
    }
  }

  // ------------------------------------------------------- the kinds of lines

  lemma EntryText(name: string, doc: string)
    ensures ParamEntry(name, doc) == "  - " + name + if doc == "" then "" else " : _" + doc + "_"
  {
    Assoc("  - " + name, " : _", doc);
    Assoc("  - " + name, " : _" + doc, "_");
    assert "  - " + name + "" == "  - " + name;
  }

  lemma {:induction false} NoColonBefore(s: string)
    requires IndexOfColon(s).Some?
    ensures var i := IndexOfColon(s).value; i < |s| && s[i] == ':' && ':' !in s[..i]
  {
    if s[0] != ':' {
      NoColonBefore(s[1..]);
      var i := IndexOfColon(s).value;
      assert s[..i] == [s[0]] + s[1..][..i - 1];
    }
  }

  lemma ParamLineParts(line: string, gen: bool) returns (name: string, doc: string)
    requires Classify(line, gen).ParamLine?
    ensures line == "@param " + name + ":" + doc && ':' !in name && TrimSpace(name) != ""
    ensures Classify(line, gen).entry == ParamEntry(TrimSpace(name), TrimSpace(doc))
  {
    var info := line[7..];
    var colon := IndexOfColon(info).value;
    NoColonBefore(info);
    name, doc := info[..colon], info[colon + 1..];
    assert info == name + ":" + doc;
    Assoc("@param ", name, ":");
    Assoc("@param ", name + ":", doc);
  }

  /** A parameter line is the prefix, a name without a colon that is not blank, a colon and a text; its entry
      has the trimmed name, and the trimmed text between underscores unless it is empty. */
  lemma ParamLineIff(line: string, gen: bool, entry: string)
    ensures Classify(line, gen) == ParamLine(entry) <==>
      exists name, doc ::
        && line == "@param " + name + ":" + doc && ':' !in name && TrimSpace(name) != ""
        && entry == "  - " + TrimSpace(name) + if TrimSpace(doc) == "" then "" else " : _" + TrimSpace(doc) + "_"
  {
    if Classify(line, gen) == ParamLine(entry) {
      var name, doc := ParamLineParts(line, gen);
      EntryText(TrimSpace(name), TrimSpace(doc));
    }
    forall name, doc | line == "@param " + name + ":" + doc && ':' !in name && TrimSpace(name) != ""
      ensures Classify(line, gen)
           == ParamLine("  - " + TrimSpace(name) + if TrimSpace(doc) == "" then "" else " : _" + TrimSpace(doc) + "_")
    {
      NamedParameter(name, doc, gen);
      EntryText(TrimSpace(name), TrimSpace(doc));
    }
  }

  /** A return line is one with the prefix, if a return type is documented. */
  lemma ReturnLineIff(line: string, gen: bool)
    ensures Classify(line, gen).ReturnLine? <==> gen && "@return " <= line
  {
    if "@return " <= line {
      assert line[1] == 'r';
    }
  }

  // ------------------------------------------- the whole result, line by line

  lemma AllButLast(a: seq<string>, b: seq<string>)
    requires b != []
    ensures (a + b)[..|a + b| - 1] == a + b[..|b| - 1] && (a + b)[|a + b| - 1] == b[|b| - 1]
  {
  }

  lemma {:induction false} ParamsConcat(a: seq<string>, b: seq<string>, gen: bool)
    ensures Params(a + b, gen) == Params(a, gen) + Params(b, gen)
    decreases |b|
  {
    if b == [] {
      assert a + b == a;
    } else {
      AllButLast(a, b);
      ParamsConcat(a, b[..|b| - 1], gen);
    }
  }

  lemma {:induction false} ReturnsConcat(a: seq<string>, b: seq<string>, gen: bool)
    ensures Returns(a + b, gen) == Returns(a, gen) + Returns(b, gen)
    decreases |b|
  {
    if b == [] {
      assert a + b == a;
    } else {
      AllButLast(a, b);
      ReturnsConcat(a, b[..|b| - 1], gen);
    }
  }

  lemma {:induction false} DocsConcat(a: seq<string>, b: seq<string>, gen: bool)
    ensures Docs(a + b, gen) == Docs(a, gen) + Docs(b, gen)
    decreases |b|
  {
    if b == [] {
      assert a + b == a;
    } else {
      AllButLast(a, b);
      DocsConcat(a, b[..|b| - 1], gen);
    }
  }

  /** Every run of blank lines made one blank line. */
  function Unrepeated(lines: seq<string>): seq<string> {
    if |lines| <= 1 then lines
    else if lines[0] == "" && lines[1] == "" then Unrepeated(lines[1..])
    else [lines[0]] + Unrepeated(lines[1..])
  }

  lemma {:induction false} UnrepeatedSnoc(lines: seq<string>, line: string)
    ensures Unrepeated(lines + [line])
         == if line == "" && lines != [] && LastOf(lines) == "" then Unrepeated(lines) else Unrepeated(lines) + [line]
  {
    var all := lines + [line];
    if |lines| == 1 {
      assert all[1..] == [line];
    } else if |lines| > 1 {
      assert all[1..] == lines[1..] + [line];
      UnrepeatedSnoc(lines[1..], line);
    }
  }

  /** The description lines that are kept are all of them, with repeated blanks made one. */
  lemma {:induction false} KeptIsUnrepeated(docs: seq<string>)
    ensures Kept(docs) == Unrepeated(docs)
  {
    if docs != [] {
      var n := |docs| - 1;
      KeptIsUnrepeated(docs[..n]);
      KeptDropsRepeatedBlanks(docs[..n]);
      assert docs == docs[..n] + [docs[n]];
      UnrepeatedSnoc(docs[..n], docs[n]);
    }
  }

  /** What follows the prefix in the last return line. */
  function LastReturn(lines: seq<string>, gen: bool): Option<string> {
    if lines == [] || !gen then None
    else if "@return " <= LastOf(lines) then Some(LastOf(lines)[8..])
    else LastReturn(lines[..|lines| - 1], gen)
  }

  lemma {:induction false} LastReturnIs(lines: seq<string>, gen: bool)
    ensures LastReturn(lines, gen).None? <==> Returns(lines, gen) == []
    ensures LastReturn(lines, gen).Some? ==> LastOf(Returns(lines, gen)) == "@return " + LastReturn(lines, gen).value
  {
    if lines != [] {
      var n := |lines| - 1;
      LastReturnIs(lines[..n], gen);
      ReturnLineIff(lines[n], gen);
      if Classify(lines[n], gen).ReturnLine? {
        assert lines[n] == "@return " + lines[n][8..];
      }
    }
  }

  /** A blank line is added before the first section, unless the description ends with one. */
  function Gap(kept: seq<string>): nat {
    if kept != [] && kept[|kept| - 1] == "" then 0 else 1
  }

  /** `out` is the description, then the parameter section, then the return line, with a blank line before
      each of them. */
  ghost predicate LaysOut(out: seq<string>, kept: seq<string>, params: seq<string>, info: Option<string>) {
    var description := if kept == [] then [""] else kept;
    var n := |description| + Gap(kept);
    && description <= out
    && if params == [] then (if info.None? then |out| == |description| else ReturnsAt(out, n, info.value))
       else
         && |out| > n + |params|
         && out[n - 1] == "" && out[n] == "Parameters:" && out[n + 1..n + 1 + |params|] == params
         && if info.None? then |out| == n + 1 + |params| else ReturnsAt(out, n + 2 + |params|, info.value)
  }

  /** The last line, behind a blank one. */
  ghost predicate ReturnsAt(out: seq<string>, n: nat, info: string) {
    |out| == n + 1 && n > 0 && out[n - 1] == "" && out[n] == "Returns: " + TrimSpace(info)
  }

  lemma SectionAt(before: seq<string>, gap: seq<string>, header: string, params: seq<string>, rest: seq<string>)
    ensures var out := before + (gap + [header] + params) + rest;
      var n, m := |before| + |gap|, |before| + |gap| + 1 + |params|;
      && before <= out && (forall i | 0 <= i < |gap| :: out[|before| + i] == gap[i])
      && out[n] == header && out[n + 1..m] == params
      && |out| == m + |rest| && forall i | 0 <= i < |rest| :: out[m + i] == rest[i]
  {
  }

  lemma ReturnEntryIs(info: string)
    ensures ReturnEntry("@return " + info) == "Returns: " + TrimSpace(info)
  {
    assert ("@return " + info)[8..] == info;
  }

  lemma WithParams(kept: seq<string>, params: seq<string>, rest: seq<string>, info: Option<string>)
    requires params != []
    requires rest == if info.None? then [] else ["", "Returns: " + TrimSpace(info.value)]
    ensures LaysOut((if kept == [] then [""] else kept) + (Separator(kept) + ["Parameters:"] + params) + rest,
                    kept, params, info)
  {
    SectionAt(if kept == [] then [""] else kept, Separator(kept), "Parameters:", params, rest);
  }

  lemma WithoutParams(kept: seq<string>, rest: seq<string>, info: Option<string>)
    requires rest == if info.None? then [] else Separator(kept) + ["Returns: " + TrimSpace(info.value)]
    ensures LaysOut((if kept == [] then [""] else kept) + rest, kept, [], info)
  {
  }

  lemma OutputLaysOut(kept: seq<string>, params: seq<string>, returnDoc: string, info: Option<string>)
    requires returnDoc == "" <==> info.None?
    requires info.Some? ==> returnDoc == "@return " + info.value
    ensures LaysOut(Output(kept, params, returnDoc), kept, params, info)
  {
    var base, rest := if kept == [] then [""] else kept, ReturnSection(kept, params, returnDoc);
    if info.Some? {
      ReturnEntryIs(info.value);
    }
    if params == [] {
      assert base + [] == base;
      WithoutParams(kept, rest, info);
    } else {
      WithParams(kept, params, rest, info);
    }
  }

  /** For every comment, with its lines trimmed: the description lines with repeated blanks made one, the
      entries of the parameter lines in order, and the last return line. */
  lemma FuncDocLaysOut(doc: string, gen: bool)
    ensures var lines := DocLines(doc);
      LaysOut(Split(Join(FuncDoc(doc, gen))), Unrepeated(Docs(lines, gen)), Params(lines, gen), LastReturn(lines, gen))
  {
    var lines := DocLines(doc);
    FuncDocLines(doc, gen);
    KeptIsUnrepeated(Docs(lines, gen));
    LastReturnIs(lines, gen);
    var last := LastOf(Returns(lines, gen));
    if Returns(lines, gen) != [] {
      assert last == "@return " + last[8..];
    }
    OutputLaysOut(Kept(Docs(lines, gen)), Params(lines, gen), last, LastReturn(lines, gen));
  }
}
