/** Semantic tokens (languageserver/server2/semantic_tokens.go).

    The encoder sorts its tokens and writes each as five unsigned 32-bit numbers relative to the
    token before it.  `Decode` reads them back as the Language Server Protocol 3.17 describes under
    "Semantic Tokens", integer encoding for tokens. */
module SemanticTokens {
  import opened Prelude
  import opened Positions

  datatype RawToken = RawToken(line: uint32, startChar: uint32, length: uint32, tokenType: uint32, modifiers: uint32)

  predicate Before(a: RawToken, b: RawToken) {
    a.line < b.line || (a.line == b.line && a.startChar < b.startChar)
  }

  /** No token comes before its predecessor. */
  ghost predicate Sorted(ts: seq<RawToken>) {
    forall i, j | 0 <= i < j < |ts| :: !Before(ts[j], ts[i])
  }

  // ----------------------------------------------------------------- tokens

  /** A token for a range of the syntax tree, whose end is inclusive. */
  function MakeToken(startPos: AstPosition, endPos: AstPosition, tokenType: uint32, modifiers: uint32): (t: RawToken)
    ensures t.length >= 1
  {
    var protoStart := ASTToProtocolPosition(startPos);
    var protoEnd := ASTToProtocolPosition(endPos.Shifted(1));
    var length :=
      if protoStart.line == protoEnd.line then Sub32(protoEnd.character, protoStart.character)
      else protoEnd.character;
    RawToken(protoStart.line, protoStart.character, if length == 0 then 1 else length, tokenType, modifiers)
  }

  /** A token starts where its range starts.  On one line it ends where the range ends; otherwise it has the
      length of the range's last line; an empty one has length one. */
  lemma TokenCoversRange(startPos: AstPosition, endPos: AstPosition, tokenType: uint32, modifiers: uint32)
    requires Fits(startPos) && Fits(endPos.Shifted(1))
    ensures var t := MakeToken(startPos, endPos, tokenType, modifiers);
      && t.line == startPos.line - 1 && t.startChar == startPos.column
      && t.tokenType == tokenType && t.modifiers == modifiers
      && (startPos.line == endPos.line && startPos.column <= endPos.column ==>
            t.startChar + t.length == endPos.column + 1)
      && (startPos.line == endPos.line && startPos.column == endPos.column + 1 ==> t.length == 1)
      && (startPos.line != endPos.line ==> t.length == if endPos.column == -1 then 1 else endPos.column + 1)
  {
    Exact(startPos);
    Exact(endPos.Shifted(1));
  }

  // --------------------------------------------------------------- encoding

  function EncodeOne(prevLine: uint32, prevChar: uint32, tok: RawToken): seq<uint32> {
    var deltaLine := Sub32(tok.line, prevLine);
    var deltaChar := if deltaLine == 0 then Sub32(tok.startChar, prevChar) else tok.startChar;
    [deltaLine, deltaChar, tok.length, tok.tokenType, tok.modifiers]
  }

  function Encode(prevLine: uint32, prevChar: uint32, ts: seq<RawToken>): seq<uint32>
    decreases |ts|
  {
    if ts == [] then []
    else EncodeOne(prevLine, prevChar, ts[0]) + Encode(ts[0].line, ts[0].startChar, ts[1..])
  }

  // --------------------------------------------------------------- decoding

  /** The receiver's side: positions accumulate without wrapping; `None` if the data is not a list
      of complete tokens or a position leaves the unsigned range. */
  function Decode(line: nat, column: nat, data: seq<uint32>): Option<seq<RawToken>>
    decreases |data|
  {
    if data == [] then Some([])
    else if |data| < 5 then None
    else
      var newLine := line + data[0];
      var newChar := if data[0] == 0 then column + data[1] else data[1];
      if newLine >= WORD || newChar >= WORD then None
      else
        match Decode(newLine, newChar, data[5..])
        case None => None
        case Some(rest) => Some([RawToken(newLine, newChar, data[2], data[3], data[4])] + rest)
  }

  /** The first token does not come before the given position. */
  ghost predicate StartsAfter(line: uint32, column: uint32, ts: seq<RawToken>) {
    ts != [] ==> line < ts[0].line || (line == ts[0].line && column <= ts[0].startChar)
  }

  /** A token that does not step back is read as it was; one that does cannot be read. */
  lemma DecodeFirst(line: uint32, column: uint32, tok: RawToken, rest: seq<uint32>)
    ensures Decode(line, column, EncodeOne(line, column, tok) + rest)
         == if StartsAfter(line, column, [tok]) && Decode(tok.line, tok.startChar, rest).Some?
            then Some([tok] + Decode(tok.line, tok.startChar, rest).value) else None
  {
    assert (EncodeOne(line, column, tok) + rest)[5..] == rest;
  }

  /** The round trip holds exactly for token lists whose positions never go back, starting from the
      given one: any step back makes a subtraction wrap. */
  lemma {:induction false} DecodeEncodeIff(line: uint32, column: uint32, ts: seq<RawToken>)
    ensures Decode(line, column, Encode(line, column, ts)) == Some(ts) <==> Sorted(ts) && StartsAfter(line, column, ts)
    decreases |ts|
  {
    if ts != [] {
      var rest := Encode(ts[0].line, ts[0].startChar, ts[1..]);
      DecodeFirst(line, column, ts[0], rest);
      DecodeEncodeIff(ts[0].line, ts[0].startChar, ts[1..]);
      assert ts == [ts[0]] + ts[1..];
    }
  }

  /** Decoding what was encoded gives the tokens back, no subtraction having wrapped; each token
      takes five numbers. */
  lemma DecodeEncode(line: uint32, column: uint32, ts: seq<RawToken>)
    requires Sorted(ts) && StartsAfter(line, column, ts)
    ensures Decode(line, column, Encode(line, column, ts)) == Some(ts)
    ensures |Encode(line, column, ts)| == 5 * |ts|
  {
    DecodeEncodeIff(line, column, ts);
    EncodeLength(line, column, ts);
  }

  lemma {:induction false} EncodeLength(line: uint32, column: uint32, ts: seq<RawToken>)
    ensures |Encode(line, column, ts)| == 5 * |ts|
    decreases |ts|
  {
    if ts != [] {
      EncodeLength(ts[0].line, ts[0].startChar, ts[1..]);
    }
  }

  lemma {:induction false} EncodeSnoc(line: uint32, column: uint32, ts: seq<RawToken>, tok: RawToken)
    ensures Encode(line, column, ts + [tok])
         == Encode(line, column, ts)
            + if ts == [] then EncodeOne(line, column, tok)
              else EncodeOne(ts[|ts| - 1].line, ts[|ts| - 1].startChar, tok)
    decreases |ts|
  {
    if ts == [] {
      assert [tok][1..] == [];
    } else {
      assert (ts + [tok])[1..] == ts[1..] + [tok];
      EncodeSnoc(ts[0].line, ts[0].startChar, ts[1..], tok);
    }
  }

  lemma {:induction false} EncodeAt(line: uint32, column: uint32, ts: seq<RawToken>, i: nat)
    requires i < |ts|
    ensures |Encode(line, column, ts)| == 5 * |ts|
    ensures Encode(line, column, ts)[5 * i..5 * i + 5]
         == if i == 0 then EncodeOne(line, column, ts[0]) else EncodeOne(ts[i - 1].line, ts[i - 1].startChar, ts[i])
    decreases |ts|
  {
    EncodeLength(line, column, ts);
    if i > 0 {
      EncodeAt(ts[0].line, ts[0].startChar, ts[1..], i - 1);
      var rest := Encode(ts[0].line, ts[0].startChar, ts[1..]);
      assert Encode(line, column, ts) == EncodeOne(line, column, ts[0]) + rest;
      assert Encode(line, column, ts)[5 * i..5 * i + 5] == rest[5 * (i - 1)..5 * (i - 1) + 5];
    }
  }

  /** Five numbers for a token: line and start relative to the token before it, the start only on the same
      line, then length, type and modifiers. */
  ghost predicate Writes(five: seq<int>, ts: seq<RawToken>, i: nat)
    requires i < |ts|
  {
    var sameLine := i > 0 && ts[i].line == ts[i - 1].line;
    five == [if i > 0 then ts[i].line - ts[i - 1].line else ts[i].line,
             if sameLine then ts[i].startChar - ts[i - 1].startChar else ts[i].startChar,
             ts[i].length, ts[i].tokenType, ts[i].modifiers]
  }

  lemma NoWrap(a: uint32, b: uint32)
    requires b <= a
    ensures Sub32(a, b) == a - b
  {
  }

  lemma OneAfterAnother(line: uint32, column: uint32, tok: RawToken)
    requires line < tok.line || (line == tok.line && column <= tok.startChar)
    ensures EncodeOne(line, column, tok)
         == [tok.line - line, if tok.line == line then tok.startChar - column else tok.startChar,
             tok.length, tok.tokenType, tok.modifiers]
  {
    NoWrap(tok.line, line);
    if tok.line == line {
      NoWrap(tok.startChar, column);
    }
  }

  lemma EncodingIs(ts: seq<RawToken>, i: nat)
    requires Sorted(ts) && i < |ts|
    ensures |Encode(0, 0, ts)| == 5 * |ts|
    ensures Writes(Encode(0, 0, ts)[5 * i..5 * i + 5], ts, i)
  {
    EncodeAt(0, 0, ts, i);
    if i == 0 {
      OneAfterAnother(0, 0, ts[0]);
    } else {
      assert !Before(ts[i], ts[i - 1]);
      OneAfterAnother(ts[i - 1].line, ts[i - 1].startChar, ts[i]);
    }
  }

  // ---------------------------------------------------------------- methods

  /** Sorted but for the token at `k`, which may belong further left. */
  ghost predicate SortedExcept(ts: seq<RawToken>, k: nat) {
    forall i, j | 0 <= i < j < |ts| && j != k :: !Before(ts[j], ts[i])
  }

  /** Moves the token at `n` back to its place among the sorted tokens before it. */
  method InsertInPlace(tokens: array<RawToken>, n: nat)
    requires n < tokens.Length && Sorted(tokens[..n])
    modifies tokens
    ensures Sorted(tokens[..n + 1])
    ensures multiset(tokens[..]) == multiset(old(tokens[..]))
  {
    var k := n;
    while k > 0 && Before(tokens[k], tokens[k - 1])
      invariant 0 <= k <= n
      invariant SortedExcept(tokens[..n + 1], k)
      invariant multiset(tokens[..]) == multiset(old(tokens[..]))
    {
      ghost var before, all := tokens[..n + 1], tokens[..];
      tokens[k - 1], tokens[k] := tokens[k], tokens[k - 1];
      assert tokens[..] == all[k - 1 := all[k]][k := all[k - 1]];
      assert tokens[..n + 1] == before[k - 1 := before[k]][k := before[k - 1]];
      k := k - 1;
    }
  }

  /** Stands for `sort.Slice`: some sorted rearrangement, in place.  Callers rely on no more. */
  method SortTokens(tokens: array<RawToken>)
    modifies tokens
    ensures Sorted(tokens[..])
    ensures multiset(tokens[..]) == multiset(old(tokens[..]))
  {
    for n := 0 to tokens.Length
      invariant Sorted(tokens[..n])
      invariant multiset(tokens[..]) == multiset(old(tokens[..]))
    {
      InsertInPlace(tokens, n);
    }
    assert tokens[..tokens.Length] == tokens[..];
  }

  /** The data decodes to a sorted rearrangement of the tokens, five numbers for each. */
  method EncodeSemanticTokens(tokens: array<RawToken>) returns (data: seq<uint32>)
    modifies tokens
    ensures Sorted(tokens[..]) && multiset(tokens[..]) == multiset(old(tokens[..]))
    ensures Decode(0, 0, data) == Some(tokens[..])
    ensures |data| == 5 * tokens.Length
    ensures forall i | 0 <= i < tokens.Length :: Writes(data[5 * i..5 * i + 5], tokens[..], i)
  {
    SortTokens(tokens);
    ghost var sorted := tokens[..];
    data := [];
    var prevLine: uint32, prevChar: uint32 := 0, 0;
    for i := 0 to tokens.Length
      invariant tokens[..] == sorted && data == Encode(0, 0, sorted[..i])
      invariant i == 0 ==> prevLine == prevChar == 0
      invariant i > 0 ==> prevLine == tokens[i - 1].line && prevChar == tokens[i - 1].startChar
    {
      var tok := tokens[i];
      var deltaLine := Sub32(tok.line, prevLine);
      var deltaChar: uint32;
      if deltaLine == 0 {
        deltaChar := Sub32(tok.startChar, prevChar);
      } else {
        deltaChar := tok.startChar;
      }
      EncodeSnoc(0, 0, sorted[..i], tok);
      assert sorted[..i + 1] == sorted[..i] + [tok];
      data := data + [deltaLine, deltaChar, tok.length, tok.tokenType, tok.modifiers];
      prevLine := tok.line;
      prevChar := tok.startChar;
    }
    assert sorted[..tokens.Length] == sorted;
    DecodeEncode(0, 0, sorted);
    forall i | 0 <= i < tokens.Length
      ensures Writes(data[5 * i..5 * i + 5], tokens[..], i)
    {
      EncodingIs(sorted, i);
    }
  }
}
