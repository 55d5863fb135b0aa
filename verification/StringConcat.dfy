/** The rewrite of `String.concat` chains to string templates (lint/string_concat_analyzer.go).

    `Scan` reads a template back: escapes and plain characters one at a time, and interpolations up
    to their matching parenthesis, those in quoted texts aside.  Main results: the template that is
    built reads back as the parts it was built from exactly when every expression part is balanced,
    and its value is then the value of the chain. */
module StringConcat {
  import opened Prelude

  /** Expressions as far as the rewrite looks at them; ends are inclusive offsets into the code. */
  datatype Expr =
    | StringExpression(start: nat, end: nat)
    | InvocationExpression(start: nat, end: nat, callee: Callee, arguments: seq<Expr>)
    | OtherExpression(start: nat, end: nat)

  /** `accessesString`: the checker recorded that the member is accessed on type String. */
  datatype Callee =
    | Member(base: Expr, name: string, optional: bool, accessesString: bool)
    | OtherCallee

  datatype Part = Part(isLiteral: bool, code: string)

  const CONCAT := "concat"
  const QUOTE := "\""
  const OPENER := "\\("
  const CLOSER := ")"

  predicate IsConcat(e: Expr) {
    && e.InvocationExpression?
    && e.callee.Member?
    && e.callee.name == CONCAT
    && !e.callee.optional
    && e.callee.accessesString
  }

  /** Exactly the calls of the member `concat`, on a value of type String and without chaining. */
  lemma IsConcatIff(e: Expr)
    ensures IsConcat(e) <==>
              exists start, end, base, arguments ::
                e == InvocationExpression(start, end, Member(base, "concat", false, true), arguments)
  {
    if IsConcat(e) {
      assert e == InvocationExpression(e.start, e.end, Member(e.callee.base, "concat", false, true), e.arguments);
    }
  }

  /** The extents that the parser guarantees: inside the code, strings with both quotes. */
  predicate InCode(e: Expr, code: string) {
    && e.start <= e.end < |code|
    && (e.StringExpression? ==> e.start < e.end && code[e.start] == code[e.end] == '"')
  }

  predicate ChainInCode(e: Expr, code: string)
    decreases e
  {
    && InCode(e, code)
    && match e
       case InvocationExpression(_, _, Member(base, "concat", false, true), arguments) =>
         ChainInCode(base, code) && (arguments != [] ==> InCode(arguments[0], code))
       case _ => true
  }

  /** The text of an expression; for a string, the text between its quotes. */
  function ExtractPart(e: Expr, code: string): Part
    requires InCode(e, code)
  {
    if e.StringExpression? then Part(true, code[e.start + 1..e.end])
    else Part(false, code[e.start..e.end + 1])
  }

  function CollectParts(e: Expr, code: string): seq<Part>
    requires ChainInCode(e, code)
    decreases e
  {
    if !IsConcat(e) then [ExtractPart(e, code)]
    else
      CollectParts(e.callee.base, code)
      + if |e.arguments| > 0 then [ExtractPart(e.arguments[0], code)] else []
  }

  // -------------------------------------------------------------- the template

  function Piece(p: Part): string {
    if p.isLiteral then p.code else OPENER + p.code + CLOSER
  }

  function Pieces(parts: seq<Part>): string {
    if parts == [] then [] else Piece(parts[0]) + Pieces(parts[1..])
  }

  function Template(parts: seq<Part>): string {
    QUOTE + Pieces(parts) + QUOTE
  }

  lemma {:induction false} PiecesSnoc(parts: seq<Part>, last: Part)
    ensures Pieces(parts + [last]) == Pieces(parts) + Piece(last)
  {
    if parts == [] {
      assert parts + [last] == [last] && [last][1..] == [];
    } else {
      assert (parts + [last])[1..] == parts[1..] + [last];
      PiecesSnoc(parts[1..], last);
    }
  }

  lemma PiecesOneMore(parts: seq<Part>, i: nat)
    requires i < |parts|
    ensures QUOTE + Pieces(parts[..i + 1]) == QUOTE + Pieces(parts[..i]) + Piece(parts[i])
  {
    PiecesSnoc(parts[..i], parts[i]);
    Assoc(QUOTE, Pieces(parts[..i]), Piece(parts[i]));
    assert parts[..i + 1] == parts[..i] + [parts[i]];
  }

  method BuildStringTemplate(parts: seq<Part>) returns (result: string)
    ensures result == Template(parts)
  {
    result := QUOTE;
    for i := 0 to |parts|
      invariant result == QUOTE + Pieces(parts[..i])
    {
      PiecesOneMore(parts, i);
      result := WritePart(result, parts[i]);
    }
    assert parts[..|parts|] == parts;
    result := result + QUOTE;
  }

  /** The loop body: a literal is written as it is, an expression inside interpolation syntax. */
  method WritePart(sofar: string, part: Part) returns (result: string)
    ensures result == sofar + Piece(part)
  {
    if part.isLiteral {
      result := sofar + part.code;
    } else {
      result := sofar + OPENER;
      result := result + part.code;
      result := result + CLOSER;
      Assoc(OPENER, part.code, CLOSER);
      Assoc(sofar, OPENER, part.code + CLOSER);
      Assoc(sofar + OPENER, part.code, CLOSER);
    }
  }

  // ------------------------------------------------------------------ scanning

  datatype Token = Unit(text: string) | Interpolation(code: string)

  /** The offset of the first closing brace. */
  function BraceAt(s: string): Option<nat> {
    if s == [] then None
    else if s[0] == '}' then Some(0)
    else match BraceAt(s[1..]) case None => None case Some(k) => Some(k + 1)
  }

  lemma {:induction false} BraceInRange(s: string)
    ensures BraceAt(s).Some? ==> BraceAt(s).value < |s|
  {
    if s != [] && s[0] != '}' {
      BraceInRange(s[1..]);
    }
  }

  /** The length of the first unit of a string's text: a plain character, a two-character escape or
      a Unicode escape.  There is none at a quote or at the opener of an interpolation. */
  function UnitLength(s: string): (r: Option<nat>)
    ensures r.Some? ==> 1 <= r.value <= |s|
  {
    if s == [] || s[0] == '"' then None
    else if s[0] != '\\' then Some(1)
    else if |s| < 2 then None
    else if s[1] in "0nrt\"'\\" then Some(2)
    else if s[1] == 'u' && |s| > 2 && s[2] == '{' then
      BraceInRange(s[3..]);
      match BraceAt(s[3..]) case None => None case Some(k) => Some(k + 4)
    else None
  }

  /** A string's text as units, if it is well formed. */
  function Units(s: string): Option<seq<Token>>
    decreases |s|
  {
    if s == [] then Some([])
    else
      match UnitLength(s)
      case None => None
      case Some(n) =>
        match Units(s[n..])
        case None => None
        case Some(rest) => Some([Unit(s[..n])] + rest)
  }

  /** What is open at a place in an expression's text, innermost last. */
  datatype Mode = InParens | InQuotes

  predicate Quoted(open: seq<Mode>) {
    open != [] && open[|open| - 1] == InQuotes
  }

  function Innermost(open: seq<Mode>): seq<Mode>
    requires open != []
  {
    open[..|open| - 1]
  }

  /** Reads a character or an escape of an expression's text: the number of characters read and what
      is open behind it.  A quoted text may hold interpolations, which may hold quoted texts. */
  function ReadOne(s: string, open: seq<Mode>): (r: (nat, seq<Mode>))
    requires s != []
    ensures 1 <= r.0 <= |s|
  {
    if Quoted(open) then
      if s[0] == '"' then (1, Innermost(open))
      else if s[0] == '\\' && |s| > 1 then (2, if s[1] == '(' then open + [InParens] else open)
      else (1, open)
    else if s[0] == '"' then (1, open + [InQuotes])
    else if s[0] == '(' then (1, open + [InParens])
    else if s[0] == ')' && open != [] then (1, Innermost(open))
    else (1, open)
  }

  /** The offset of the parenthesis that closes the interpolation itself. */
  function CloserAt(s: string, open: seq<Mode>): (r: Option<nat>)
    ensures r.Some? ==> r.value < |s|
    decreases |s|
  {
    if s == [] then None
    else if s[0] == ')' && open == [] then Some(0)
    else
      var (n, next) := ReadOne(s, open);
      match CloserAt(s[n..], next) case None => None case Some(k) => Some(k + n)
  }

  /** Reads the text after the opening quote, which must end with the closing quote. */
  function ScanBody(s: string): Option<seq<Token>>
    decreases |s|
  {
    if s == "\"" then Some([])
    else if "\\(" <= s then
      match CloserAt(s[2..], [])
      case None => None
      case Some(k) =>
        match ScanBody(s[2 + k + 1..])
        case None => None
        case Some(rest) => Some([Interpolation(s[2..2 + k])] + rest)
    else
      match UnitLength(s)
      case None => None
      case Some(n) =>
        match ScanBody(s[n..])
        case None => None
        case Some(rest) => Some([Unit(s[..n])] + rest)
  }

  function Scan(s: string): Option<seq<Token>> {
    if "\"" <= s then ScanBody(s[1..]) else None
  }

  /** The parts as tokens; neighbouring literals are not told apart. */
  function Tokens(parts: seq<Part>): seq<Token>
    requires LiteralsWellFormed(parts)
  {
    if parts == [] then [] else FirstTokens(parts[0]) + Tokens(parts[1..])
  }

  function FirstTokens(p: Part): seq<Token>
    requires p.isLiteral ==> Units(p.code).Some?
  {
    if p.isLiteral then Units(p.code).value else [Interpolation(p.code)]
  }

  /** What the lexer guarantees of string literals. */
  predicate LiteralsWellFormed(parts: seq<Part>) {
    forall i | 0 <= i < |parts| :: parts[i].isLiteral ==> Units(parts[i].code).Some?
  }

  /** Every parenthesis and every quote that the text opens it closes, and no other one. */
  predicate Balanced(s: string, open: seq<Mode>)
    decreases |s|
  {
    if s == [] then open == []
    else if s[0] == ')' && open == [] then false
    else
      var (n, next) := ReadOne(s, open);
      Balanced(s[n..], next)
  }

  predicate ExpressionsBalanced(parts: seq<Part>) {
    forall i | 0 <= i < |parts| :: !parts[i].isLiteral ==> Balanced(parts[i].code, [])
  }

  // ------------------------------------------------------------- reading back

  lemma {:induction false} BraceInPrefix(s: string, more: string)
    requires BraceAt(s).Some?
    ensures BraceAt(s + more) == BraceAt(s)
  {
    assert (s + more)[0] == s[0];
    if s[0] != '}' {
      assert (s + more)[1..] == s[1..] + more;
      BraceInPrefix(s[1..], more);
    }
  }

  /** A unit is read the same whatever follows it. */
  lemma UnitInPrefix(s: string, more: string)
    requires UnitLength(s).Some?
    ensures UnitLength(s + more) == UnitLength(s)
    ensures !(OPENER <= s + more) && s + more != QUOTE
  {
    assert (s + more)[0] == s[0];
    if |s| > 1 {
      assert (s + more)[1] == s[1];
    }
    if s[0] == '\\' && s[1] == 'u' {
      assert (s + more)[2] == s[2] && (s + more)[3..] == s[3..] + more;
      BraceInPrefix(s[3..], more);
    }
  }

  function Prepended(first: seq<Token>, rest: Option<seq<Token>>): Option<seq<Token>> {
    match rest case None => None case Some(ts) => Some(first + ts)
  }

  /** A well-formed literal is read as its units, then reading goes on behind it. */
  lemma {:induction false} ScanLiteral(s: string, more: string)
    requires Units(s).Some?
    ensures ScanBody(s + more) == Prepended(Units(s).value, ScanBody(more))
    decreases |s|
  {
    if s == [] {
      assert s + more == more;
      if ScanBody(more).Some? {
        assert [] + ScanBody(more).value == ScanBody(more).value;
      }
    } else {
      var n := UnitLength(s).value;
      UnitInPrefix(s, more);
      assert (s + more)[n..] == s[n..] + more && (s + more)[..n] == s[..n];
      ScanLiteral(s[n..], more);
      if ScanBody(more).Some? {
        Assoc([Unit(s[..n])], Units(s[n..]).value, ScanBody(more).value);
      }
    }
  }

  /** What is read at the front of a text is read whatever follows, a lone escape aside. */
  lemma ReadsTheSame(s: string, more: string, open: seq<Mode>)
    requires s != [] && !(Quoted(open) && s[0] == '\\' && |s| == 1)
    ensures s + more != [] && ReadOne(s + more, open) == ReadOne(s, open)
  {
    assert (s + more)[0] == s[0] && (|s| > 1 ==> (s + more)[1] == s[1]);
  }

  /** A lone escape at the end of a quoted text hides the closing parenthesis. */
  lemma LoneEscape(s: string, rest: string, open: seq<Mode>)
    requires Quoted(open) && s == "\\" && rest != []
    ensures CloserAt(s + rest, open) != Some(|s|) && !Balanced(s, open)
  {
    assert (s + rest)[0] == '\\' && ReadOne(s + rest, open).0 == 2;
    assert ReadOne(s, open) == (1, open) && s[1..] == [];
  }

  /** One step of the search, with what is behind `s` left alone. */
  lemma CloserBehind(s: string, rest: string, open: seq<Mode>)
    requires s != [] && !(Quoted(open) && s[0] == '\\' && |s| == 1)
    ensures var (n, next) := ReadOne(s, open);
      CloserAt(s + rest, open)
      == if s[0] == ')' && open == [] then Some(0)
         else match CloserAt(s[n..] + rest, next) case None => None case Some(k) => Some(k + n)
  {
    ReadsTheSame(s, rest, open);
    assert (s + rest)[0] == s[0] && (s + rest)[ReadOne(s, open).0..] == s[ReadOne(s, open).0..] + rest;
  }

  /** The closing parenthesis that was written behind `s` is the one found exactly for balanced text. */
  lemma {:induction false} CloserIffBalanced(s: string, rest: string, open: seq<Mode>)
    requires rest != [] && rest[0] == ')'
    ensures CloserAt(s + rest, open) == Some(|s|) <==> Balanced(s, open)
    decreases |s|
  {
    if s == [] {
      assert s + rest == rest;
    } else if Quoted(open) && s[0] == '\\' && |s| == 1 {
      LoneEscape(s, rest, open);
    } else {
      var (n, next) := ReadOne(s, open);
      CloserBehind(s, rest, open);
      CloserIffBalanced(s[n..], rest, next);
    }
  }

  /** An interpolation is read as written exactly when its text is balanced. */
  lemma ScanInterpolation(code: string, more: string, ts: seq<Token>)
    ensures ScanBody(OPENER + code + CLOSER + more) == Some([Interpolation(code)] + ts)
       <==> Balanced(code, []) && ScanBody(more) == Some(ts)
  {
    var all := OPENER + code + CLOSER + more;
    assert all[2..] == code + (CLOSER + more) && OPENER <= all;
    CloserIffBalanced(code, CLOSER + more, []);
    if CloserAt(all[2..], []).Some? {
      var k := CloserAt(all[2..], []).value;
      ScanOpened(all, k);
      InterpolationIff(all[2..2 + k], code, ScanBody(all[2 + k + 1..]), ts);
      if k == |code| {
        assert all[2..2 + k] == code && all[2 + k + 1..] == more;
      } else {
        assert |all[2..2 + k]| != |code|;
      }
    }
  }

  lemma ScanOpened(s: string, k: nat)
    requires OPENER <= s && CloserAt(s[2..], []) == Some(k)
    ensures ScanBody(s) == Prepended([Interpolation(s[2..2 + k])], ScanBody(s[2 + k + 1..]))
  {
  }

  lemma InterpolationIff(found: string, code: string, rest: Option<seq<Token>>, ts: seq<Token>)
    ensures Prepended([Interpolation(found)], rest) == Some([Interpolation(code)] + ts)
       <==> found == code && rest == Some(ts)
  {
    if rest.Some? {
      SamePrefix([Interpolation(code)], rest.value, ts);
      assert ([Interpolation(found)] + rest.value)[0] == Interpolation(found);
      assert ([Interpolation(code)] + ts)[0] == Interpolation(code);
    }
  }

  /** The first part is read as written exactly when it is a literal or balanced. */
  lemma ScanFirst(p: Part, more: string, ts: seq<Token>)
    requires p.isLiteral ==> Units(p.code).Some?
    ensures ScanBody(Piece(p) + more) == Some(FirstTokens(p) + ts)
       <==> (p.isLiteral || Balanced(p.code, [])) && ScanBody(more) == Some(ts)
  {
    if p.isLiteral {
      ScanLiteral(p.code, more);
      if ScanBody(more).Some? {
        SamePrefix(Units(p.code).value, ScanBody(more).value, ts);
      }
    } else {
      ScanInterpolation(p.code, more, ts);
    }
  }

  lemma {:induction false} ScanPieces(parts: seq<Part>)
    requires LiteralsWellFormed(parts)
    ensures ScanBody(Pieces(parts) + QUOTE) == Some(Tokens(parts)) <==> ExpressionsBalanced(parts)
  {
    if parts == [] {
      assert [] + QUOTE == QUOTE;
    } else {
      ScanPieces(parts[1..]);
      assert forall i | 1 <= i < |parts| :: parts[i] == parts[1..][i - 1];
      ScanFirst(parts[0], Pieces(parts[1..]) + QUOTE, Tokens(parts[1..]));
      Assoc(Piece(parts[0]), Pieces(parts[1..]), QUOTE);
    }
  }

  lemma SamePrefix<T>(prefix: seq<T>, a: seq<T>, b: seq<T>)
    ensures prefix + a == prefix + b <==> a == b
  {
    assert (prefix + a)[|prefix|..] == a && (prefix + b)[|prefix|..] == b;
  }

  /** The template reads back as the parts it was built from exactly when every expression part is
      balanced. */
  lemma TemplateReadsBackIff(parts: seq<Part>)
    requires LiteralsWellFormed(parts)
    ensures Scan(Template(parts)) == Some(Tokens(parts)) <==> ExpressionsBalanced(parts)
  {
    ScanPieces(parts);
    Assoc(QUOTE, Pieces(parts), QUOTE);
  }

  // -------------------------------------------------------------------- values

  /** The value of a template, given the characters each unit stands for and the value of each
      expression text. */
  function TemplateValue(ts: seq<Token>, unit: string -> string, value: string -> string): string {
    if ts == [] then []
    else (match ts[0] case Unit(t) => unit(t) case Interpolation(c) => value(c)) + TemplateValue(ts[1..], unit, value)
  }

  predicate OperandWellFormed(e: Expr, code: string)
    requires InCode(e, code)
  {
    e.StringExpression? ==> Units(code[e.start + 1..e.end]).Some?
  }

  /** A string literal has the value of the text between its quotes, any other expression the value of
      its own text. */
  function OperandValue(e: Expr, code: string, unit: string -> string, value: string -> string): string
    requires InCode(e, code) && OperandWellFormed(e, code)
  {
    if e.StringExpression? then TemplateValue(Units(code[e.start + 1..e.end]).value, unit, value)
    else value(code[e.start..e.end + 1])
  }

  /** Every string of the chain is well formed. */
  predicate ChainWellFormed(e: Expr, code: string)
    requires ChainInCode(e, code)
    decreases e
  {
    match e
    case InvocationExpression(_, _, Member(base, "concat", false, true), arguments) =>
      ChainWellFormed(base, code) && (arguments != [] ==> OperandWellFormed(arguments[0], code))
    case _ => OperandWellFormed(e, code)
  }

  /** What the expression evaluates to: a call of `concat` on a String, its base followed by its argument;
      anything else, itself. */
  function ChainValue(e: Expr, code: string, unit: string -> string, value: string -> string): string
    requires ChainInCode(e, code) && ChainWellFormed(e, code)
    decreases e
  {
    match e
    case InvocationExpression(_, _, Member(base, "concat", false, true), arguments) =>
      ChainValue(base, code, unit, value)
      + if arguments != [] then OperandValue(arguments[0], code, unit, value) else []
    case _ => OperandValue(e, code, unit, value)
  }

  lemma {:induction false} ValueConcat(a: seq<Token>, b: seq<Token>, unit: string -> string, value: string -> string)
    ensures TemplateValue(a + b, unit, value) == TemplateValue(a, unit, value) + TemplateValue(b, unit, value)
  {
    if a == [] {
      assert a + b == b;
    } else {
      assert (a + b)[1..] == a[1..] + b;
      ValueConcat(a[1..], b, unit, value);
    }
  }

  lemma {:induction false} TokensSnoc(parts: seq<Part>, last: Part)
    requires LiteralsWellFormed(parts + [last])
    ensures LiteralsWellFormed(parts) && LiteralsWellFormed([last])
    ensures Tokens(parts + [last]) == Tokens(parts) + Tokens([last])
  {
    assert forall i | 0 <= i < |parts| :: parts[i] == (parts + [last])[i];
    assert (parts + [last])[|parts|] == last;
    if parts == [] {
      assert parts + [last] == [last];
    } else {
      assert (parts + [last])[1..] == parts[1..] + [last];
      TokensSnoc(parts[1..], last);
      Assoc(FirstTokens(parts[0]), Tokens(parts[1..]), Tokens([last]));
    }
  }

  lemma OperandTokens(e: Expr, code: string, unit: string -> string, value: string -> string)
    requires InCode(e, code) && OperandWellFormed(e, code)
    ensures LiteralsWellFormed([ExtractPart(e, code)])
    ensures TemplateValue(Tokens([ExtractPart(e, code)]), unit, value) == OperandValue(e, code, unit, value)
  {
    var part := ExtractPart(e, code);
    assert [part][1..] == [];
    if part.isLiteral {
      assert Tokens([part]) == Units(part.code).value;
    } else {
      assert Tokens([part]) == [Interpolation(part.code)];
      assert [Interpolation(part.code)][1..] == [];
    }
  }

  lemma {:induction false} PartsHaveChainValue(e: Expr, code: string, unit: string -> string, value: string -> string)
    requires ChainInCode(e, code) && ChainWellFormed(e, code)
    ensures LiteralsWellFormed(CollectParts(e, code))
    ensures TemplateValue(Tokens(CollectParts(e, code)), unit, value) == ChainValue(e, code, unit, value)
    decreases e
  {
    if !IsConcat(e) {
      OperandTokens(e, code, unit, value);
    } else {
      PartsHaveChainValue(e.callee.base, code, unit, value);
      var before := CollectParts(e.callee.base, code);
      if e.arguments == [] {
        assert before + [] == before;
      } else {
        var last := ExtractPart(e.arguments[0], code);
        OperandTokens(e.arguments[0], code, unit, value);
        assert [last][0] == last;
        TokensSnoc(before, last);
        ValueConcat(Tokens(before), Tokens([last]), unit, value);
      }
    }
  }

  /** The suggested template reads back as a template with the value of the chain it replaces,
      whatever units and expressions stand for, if the expression parts are balanced. */
  lemma RewriteKeepsValue(e: Expr, code: string, unit: string -> string, value: string -> string)
    requires ChainInCode(e, code) && ChainWellFormed(e, code)
    requires ExpressionsBalanced(CollectParts(e, code))
    ensures var ts := Scan(Template(CollectParts(e, code)));
      ts.Some? && TemplateValue(ts.value, unit, value) == ChainValue(e, code, unit, value)
  {
    PartsHaveChainValue(e, code, unit, value);
    TemplateReadsBackIff(CollectParts(e, code));
  }

  /** The condition is needed: a base whose extent begins behind an opening parenthesis gives an
      unbalanced part, and the template built from it does not read back. */
  lemma UnbalancedPartBreaks()
    ensures var code := "(a).b.concat(c)";
      var callee := Member(OtherExpression(1, 4), CONCAT, false, true);
      var e := InvocationExpression(1, 14, callee, [OtherExpression(13, 13)]);
      && ChainInCode(e, code)
      && LiteralsWellFormed(CollectParts(e, code))
      && Scan(Template(CollectParts(e, code))) != Some(Tokens(CollectParts(e, code)))
  {
    var code := "(a).b.concat(c)";
    var callee := Member(OtherExpression(1, 4), CONCAT, false, true);
    var e := InvocationExpression(1, 14, callee, [OtherExpression(13, 13)]);
    var parts := CollectParts(e, code);
    assert parts == [Part(false, code[1..5]), Part(false, code[13..14])];
    var text := code[1..5];
    assert text[0] == 'a' && text[1..][0] == ')' && !Balanced(text[1..], []);
    assert !parts[0].isLiteral && !Balanced(parts[0].code, []);
    TemplateReadsBackIff(parts);
  }
}
