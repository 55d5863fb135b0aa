/** Selection ranges (languageserver/server2/handlers.go).

    `Inspect` visits a tree in pre-order and does not enter a subtree whose range excludes the
    position.  The ranges it collects are linked into a chain from the innermost outwards. */
module SelectionRanges {
  import opened Prelude
  import opened Positions

  /** The syntax tree as far as positions go. */
  datatype Tree = Tree(start: AstPosition, end: AstPosition, children: seq<Tree>)

  datatype SelectionRange = Nil | SelectionRange(range: Range, parent: SelectionRange)

  function RangeOf(t: Tree): Range {
    ASTToProtocolRange(t.start, t.end)
  }

  /** Both ends of the range count as inside. */
  predicate PositionInRange(pos: Position, r: Range) {
    if pos.line < r.start.line || pos.line > r.end.line then false
    else if pos.line == r.start.line && pos.character < r.start.character then false
    else if pos.line == r.end.line && pos.character > r.end.character then false
    else true
  }

  /** Being inside is lying between the ends in document order. */
  lemma InRangeIffBetween(pos: Position, r: Range)
    ensures PositionInRange(pos, r) <==> Compare(r.start, pos) <= 0 && Compare(pos, r.end) <= 0
  {
  }

  predicate Visited(pos: Position, t: Tree) {
    PositionInRange(pos, RangeOf(t))
  }

  /** A node is visited exactly at the positions from its first character to just behind its last one, in
      document order. */
  lemma VisitedIffWithin(pos: Position, t: Tree)
    requires Fits(t.start) && Fits(t.end.Shifted(1))
    ensures RangeOf(t) == Range(Position(t.start.line - 1, t.start.column), Position(t.end.line - 1, t.end.column + 1))
    ensures Visited(pos, t) <==>
      && (t.start.line - 1 < pos.line || (t.start.line - 1 == pos.line && t.start.column <= pos.character))
      && (pos.line < t.end.line - 1 || (pos.line == t.end.line - 1 && pos.character <= t.end.column + 1))
  {
    RangeExact(t.start, t.end);
  }

  predicate Encloses(outer: Range, inner: Range) {
    Compare(outer.start, inner.start) <= 0 && Compare(inner.end, outer.end) <= 0
  }

  /** A visited node, with its depth in the tree. */
  datatype Visit = Visit(range: Range, depth: nat)

  /** The visits that the inspection makes, in order. */
  function Inspect(t: Tree, pos: Position, depth: nat): seq<Visit>
    decreases t, 1
  {
    if Visited(pos, t) then [Visit(RangeOf(t), depth)] + InspectAll(t.children, pos, depth + 1) else []
  }

  function InspectAll(ts: seq<Tree>, pos: Position, depth: nat): seq<Visit>
    decreases ts, 0
  {
    if ts == [] then [] else Inspect(ts[0], pos, depth) + InspectAll(ts[1..], pos, depth)
  }

  function Ranges(visits: seq<Visit>): seq<Range> {
    seq(|visits|, i requires 0 <= i < |visits| => visits[i].range)
  }

  /** The chain as a list, innermost first. */
  function Links(s: SelectionRange): seq<Range> {
    if s.Nil? then [] else [s.range] + Links(s.parent)
  }

  function Reversed<T>(s: seq<T>): seq<T> {
    if s == [] then [] else [s[|s| - 1]] + Reversed(s[..|s| - 1])
  }

  // --------------------------------------------------- independent definitions

  /** Every node of the tree in pre-order, none skipped. */
  function AllNodes(t: Tree): seq<Range>
    decreases t, 1
  {
    [RangeOf(t)] + AllNodesOf(t.children)
  }

  function AllNodesOf(ts: seq<Tree>): seq<Range>
    decreases ts, 0
  {
    if ts == [] then [] else AllNodes(ts[0]) + AllNodesOf(ts[1..])
  }

  function Containing(rs: seq<Range>, pos: Position): seq<Range> {
    if rs == [] then []
    else (if PositionInRange(pos, rs[0]) then [rs[0]] else []) + Containing(rs[1..], pos)
  }

  /** Children lie inside their parents. */
  predicate Nested(t: Tree)
    decreases t
  {
    forall c | c in t.children :: Encloses(RangeOf(t), RangeOf(c)) && Nested(c)
  }

  /** No two siblings below a visited node contain the position. */
  predicate Exclusive(t: Tree, pos: Position)
    decreases t, 1
  {
    Visited(pos, t) ==> ExclusiveAll(t.children, pos)
  }

  predicate ExclusiveAll(ts: seq<Tree>, pos: Position)
    decreases ts, 0
  {
    ts != [] ==>
      && Exclusive(ts[0], pos)
      && ExclusiveAll(ts[1..], pos)
      && (Visited(pos, ts[0]) ==> forall i | 1 <= i < |ts| :: !Visited(pos, ts[i]))
  }

  /** Every range has a start before its end, and siblings follow each other: each ends before or
      where the next ones start. */
  predicate InOrder(t: Tree)
    decreases t, 1
  {
    Compare(RangeOf(t).start, RangeOf(t).end) < 0 && InOrderAll(t.children)
  }

  predicate InOrderAll(ts: seq<Tree>)
    decreases ts, 0
  {
    ts != [] ==>
      && InOrder(ts[0])
      && InOrderAll(ts[1..])
      && forall i | 1 <= i < |ts| :: Compare(RangeOf(ts[0]).end, RangeOf(ts[i]).start) <= 0
  }

  /** Each visit is one level below the one before it. */
  ghost predicate Descends(visits: seq<Visit>, depth: nat) {
    forall i | 0 <= i < |visits| :: visits[i].depth == depth + i
  }

  // ----------------------------------------------------------- what is visited

  lemma {:induction false} NothingContains(t: Tree, pos: Position)
    requires Nested(t) && !Visited(pos, t)
    ensures Containing(AllNodes(t), pos) == []
    decreases t, 1
  {
    forall c | c in t.children
      ensures !Visited(pos, c)
    {
    }
    NothingContainsAll(t.children, pos);
  }

  lemma {:induction false} NothingContainsAll(ts: seq<Tree>, pos: Position)
    requires forall c | c in ts :: Nested(c) && !Visited(pos, c)
    ensures Containing(AllNodesOf(ts), pos) == []
    decreases ts, 0
  {
    if ts != [] {
      NothingContains(ts[0], pos);
      NothingContainsAll(ts[1..], pos);
      ContainingConcat(AllNodes(ts[0]), AllNodesOf(ts[1..]), pos);
    }
  }

  lemma {:induction false} ContainingConcat(a: seq<Range>, b: seq<Range>, pos: Position)
    ensures Containing(a + b, pos) == Containing(a, pos) + Containing(b, pos)
  {
    if a == [] {
      assert a + b == b;
    } else {
      assert (a + b)[1..] == a[1..] + b;
      ContainingConcat(a[1..], b, pos);
    }
  }

  /** Skipping subtrees loses nothing: when children lie inside their parents, exactly the nodes
      that contain the position are visited, in pre-order. */
  lemma {:induction false} VisitsAreContaining(t: Tree, pos: Position, depth: nat)
    requires Nested(t)
    ensures Ranges(Inspect(t, pos, depth)) == Containing(AllNodes(t), pos)
    decreases t, 1
  {
    if Visited(pos, t) {
      VisitsAreContainingAll(t.children, pos, depth + 1);
      assert AllNodes(t)[1..] == AllNodesOf(t.children);
    } else {
      NothingContains(t, pos);
    }
  }

  lemma {:induction false} VisitsAreContainingAll(ts: seq<Tree>, pos: Position, depth: nat)
    requires forall c | c in ts :: Nested(c)
    ensures Ranges(InspectAll(ts, pos, depth)) == Containing(AllNodesOf(ts), pos)
    decreases ts, 0
  {
    if ts != [] {
      VisitsAreContaining(ts[0], pos, depth);
      VisitsAreContainingAll(ts[1..], pos, depth);
      ContainingConcat(AllNodes(ts[0]), AllNodesOf(ts[1..]), pos);
    }
  }

  // --------------------------------------------------------- one path or several

  /** The visits go down one path of the tree exactly when no two visited siblings exist. */
  lemma {:induction false} DescendsIffExclusive(t: Tree, pos: Position, depth: nat)
    ensures Descends(Inspect(t, pos, depth), depth) <==> Exclusive(t, pos)
    ensures Visited(pos, t) ==> Inspect(t, pos, depth) != [] && Inspect(t, pos, depth)[0].depth == depth
    decreases t, 1
  {
    if Visited(pos, t) {
      var below := InspectAll(t.children, pos, depth + 1);
      DescendsIffExclusiveAll(t.children, pos, depth + 1);
      var visits := Inspect(t, pos, depth);
      assert visits[1..] == below;
      assert Descends(visits, depth) ==> Descends(below, depth + 1) by {
        assert forall i | 0 <= i < |below| :: below[i] == visits[i + 1];
      }
    }
  }

  lemma {:induction false} DescendsIffExclusiveAll(ts: seq<Tree>, pos: Position, depth: nat)
    ensures Descends(InspectAll(ts, pos, depth), depth) <==> ExclusiveAll(ts, pos)
    ensures InspectAll(ts, pos, depth) == [] <==> forall i | 0 <= i < |ts| :: !Visited(pos, ts[i])
    ensures InspectAll(ts, pos, depth) != [] ==> InspectAll(ts, pos, depth)[0].depth == depth
    decreases ts, 0
  {
    if ts != [] {
      DescendsIffExclusive(ts[0], pos, depth);
      DescendsIffExclusiveAll(ts[1..], pos, depth);
      var first, rest := Inspect(ts[0], pos, depth), InspectAll(ts[1..], pos, depth);
      assert (forall i | 0 <= i < |ts[1..]| :: !Visited(pos, ts[1..][i]))
        <==> (forall i | 1 <= i < |ts| :: !Visited(pos, ts[i])) by {
        assert forall i | 1 <= i < |ts| :: ts[i] == ts[1..][i - 1];
      }
      if Visited(pos, ts[0]) {
        if rest != [] {
          assert (first + rest)[|first|] == rest[0];
        } else {
          assert first + rest == first;
        }
      } else {
        assert first + rest == rest;
      }
    }
  }

  ghost predicate EnclosingChain(visits: seq<Visit>) {
    forall i | 0 <= i < |visits| - 1 :: Encloses(visits[i].range, visits[i + 1].range)
  }

  /** With children inside parents and no two siblings visited, each visited range encloses the
      next. */
  lemma {:induction false} VisitsEnclose(t: Tree, pos: Position, depth: nat)
    requires Nested(t) && Exclusive(t, pos)
    ensures EnclosingChain(Inspect(t, pos, depth))
    decreases t, 1
  {
    if Visited(pos, t) {
      VisitsEncloseAll(t.children, pos, depth + 1, RangeOf(t));
      var below := InspectAll(t.children, pos, depth + 1);
      assert Inspect(t, pos, depth) == [Visit(RangeOf(t), depth)] + below;
    }
  }

  lemma {:induction false} VisitsEncloseAll(ts: seq<Tree>, pos: Position, depth: nat, outer: Range)
    requires forall c | c in ts :: Nested(c) && Encloses(outer, RangeOf(c))
    requires ExclusiveAll(ts, pos)
    ensures var visits := InspectAll(ts, pos, depth);
      EnclosingChain(visits) && (visits != [] ==> Encloses(outer, visits[0].range))
    decreases ts, 0
  {
    if ts != [] {
      VisitsEnclose(ts[0], pos, depth);
      VisitsEncloseAll(ts[1..], pos, depth, outer);
      var first, rest := Inspect(ts[0], pos, depth), InspectAll(ts[1..], pos, depth);
      if Visited(pos, ts[0]) {
        assert forall i | 0 <= i < |ts[1..]| :: ts[1..][i] == ts[i + 1];
        DescendsIffExclusiveAll(ts[1..], pos, depth);
        assert rest == [] && first + rest == first;
      } else {
        assert first + rest == rest;
      }
    }
  }

  /** Nothing visited below a node leaves its range. */
  lemma {:induction false} VisitsInside(t: Tree, pos: Position, depth: nat, outer: Range)
    requires Nested(t) && Encloses(outer, RangeOf(t))
    ensures forall v | v in Inspect(t, pos, depth) :: Encloses(outer, v.range)
    decreases t, 1
  {
    if Visited(pos, t) {
      forall c | c in t.children
        ensures Nested(c) && Encloses(outer, RangeOf(c))
      {
      }
      VisitsInsideAll(t.children, pos, depth + 1, outer);
    }
  }

  lemma {:induction false} VisitsInsideAll(ts: seq<Tree>, pos: Position, depth: nat, outer: Range)
    requires forall c | c in ts :: Nested(c) && Encloses(outer, RangeOf(c))
    ensures forall v | v in InspectAll(ts, pos, depth) :: Encloses(outer, v.range)
    decreases ts, 0
  {
    if ts != [] {
      VisitsInside(ts[0], pos, depth, outer);
      VisitsInsideAll(ts[1..], pos, depth, outer);
    }
  }

  /** The first visit among siblings is one of the siblings. */
  lemma {:induction false} FirstVisit(ts: seq<Tree>, pos: Position, depth: nat) returns (i: nat)
    requires InspectAll(ts, pos, depth) != []
    ensures i < |ts| && InspectAll(ts, pos, depth)[0].range == RangeOf(ts[i])
  {
    if Visited(pos, ts[0]) {
      i := 0;
    } else {
      assert [] + InspectAll(ts[1..], pos, depth) == InspectAll(ts[1..], pos, depth);
      i := FirstVisit(ts[1..], pos, depth);
      i := i + 1;
    }
  }

  lemma ChainParts(a: seq<Visit>, b: seq<Visit>)
    requires EnclosingChain(a + b)
    ensures EnclosingChain(a) && EnclosingChain(b)
    ensures a != [] && b != [] ==> Encloses(a[|a| - 1].range, b[0].range)
  {
    var all := a + b;
    assert forall i | 0 <= i < |a| :: all[i] == a[i];
    assert forall i | 0 <= i < |b| :: all[|a| + i] == b[i];
    forall i | 0 <= i < |b| - 1
      ensures Encloses(b[i].range, b[i + 1].range)
    {
      assert Encloses(all[|a| + i].range, all[|a| + i + 1].range);
    }
    if a != [] && b != [] {
      assert Encloses(all[|a| - 1].range, all[|a|].range);
    }
  }

  /** A range does not enclose one that starts at or behind its end. */
  lemma FollowerNotEnclosed(inner: Range, outer: Range, next: Range)
    requires Encloses(outer, inner) && Compare(outer.end, next.start) <= 0 && Compare(next.start, next.end) < 0
    ensures !Encloses(inner, next)
  {
  }

  lemma {:induction false} ChainIsExclusive(t: Tree, pos: Position, depth: nat)
    requires Nested(t) && InOrder(t) && EnclosingChain(Inspect(t, pos, depth))
    ensures Exclusive(t, pos)
    decreases t, 1
  {
    if Visited(pos, t) {
      ChainParts([Visit(RangeOf(t), depth)], InspectAll(t.children, pos, depth + 1));
      ChainIsExclusiveAll(t.children, pos, depth + 1);
    }
  }

  lemma {:induction false} ChainIsExclusiveAll(ts: seq<Tree>, pos: Position, depth: nat)
    requires InOrderAll(ts) && (forall c | c in ts :: Nested(c)) && EnclosingChain(InspectAll(ts, pos, depth))
    ensures ExclusiveAll(ts, pos)
    decreases ts, 0
  {
    if ts != [] {
      var first, rest := Inspect(ts[0], pos, depth), InspectAll(ts[1..], pos, depth);
      ChainParts(first, rest);
      ChainIsExclusive(ts[0], pos, depth);
      ChainIsExclusiveAll(ts[1..], pos, depth);
      DescendsIffExclusiveAll(ts[1..], pos, depth);
      if Visited(pos, ts[0]) {
        NoFollowerVisited(ts, pos, depth);
        assert forall i | 1 <= i < |ts| :: ts[i] == ts[1..][i - 1];
      }
    }
  }

  lemma NoFollowerVisited(ts: seq<Tree>, pos: Position, depth: nat)
    requires ts != [] && InOrderAll(ts) && (forall c | c in ts :: Nested(c))
    requires Visited(pos, ts[0]) && EnclosingChain(InspectAll(ts, pos, depth))
    ensures InspectAll(ts[1..], pos, depth) == []
  {
    var first, rest := Inspect(ts[0], pos, depth), InspectAll(ts[1..], pos, depth);
    ChainParts(first, rest);
    if rest != [] {
      var i := FirstVisit(ts[1..], pos, depth);
      VisitsInside(ts[0], pos, depth, RangeOf(ts[0]));
      InOrderAt(ts, i + 1);
      assert first[|first| - 1] in first;
      FollowerNotEnclosed(first[|first| - 1].range, RangeOf(ts[0]), RangeOf(ts[i + 1]));
    }
  }

  lemma {:induction false} InOrderAt(ts: seq<Tree>, i: nat)
    requires InOrderAll(ts) && i < |ts|
    ensures InOrder(ts[i])
  {
    if i > 0 {
      InOrderAt(ts[1..], i - 1);
    }
  }

  /** For trees whose children lie inside their parents and whose siblings are in order, each visited
      range encloses the next exactly if no two siblings below a visited node contain the position. */
  lemma EnclosesIffExclusive(t: Tree, pos: Position, depth: nat)
    requires Nested(t) && InOrder(t)
    ensures EnclosingChain(Inspect(t, pos, depth)) <==> Exclusive(t, pos)
  {
    if Exclusive(t, pos) {
      VisitsEnclose(t, pos, depth);
    }
    if EnclosingChain(Inspect(t, pos, depth)) {
      ChainIsExclusive(t, pos, depth);
    }
  }

  // -------------------------------------------------------------------- methods

  /** The inspection appends to the ranges collected so far. */
  method Collect(t: Tree, pos: Position, ranges: seq<Range>, ghost depth: nat) returns (more: seq<Range>)
    ensures more == ranges + Ranges(Inspect(t, pos, depth))
    decreases t, 1
  {
    more := ranges;
    if PositionInRange(pos, ASTToProtocolRange(t.start, t.end)) {
      more := more + [RangeOf(t)];
      more := CollectAll(t.children, pos, more, depth + 1);
    }
  }

  method CollectAll(ts: seq<Tree>, pos: Position, ranges: seq<Range>, ghost depth: nat) returns (more: seq<Range>)
    ensures more == ranges + Ranges(InspectAll(ts, pos, depth))
    decreases ts, 0
  {
    more := ranges;
    if ts != [] {
      more := Collect(ts[0], pos, more, depth);
      more := CollectAll(ts[1..], pos, more, depth);
    }
  }

  ghost predicate ParentsEnclose(links: seq<Range>) {
    forall i | 0 <= i < |links| - 1 :: Encloses(links[i + 1], links[i])
  }

  lemma LinksEncloseIff(visits: seq<Visit>)
    ensures ParentsEnclose(Reversed(Ranges(visits))) <==> EnclosingChain(visits)
  {
    var links := Reversed(Ranges(visits));
    ReversedAt(Ranges(visits));
    if EnclosingChain(visits) {
      forall i | 0 <= i < |links| - 1
        ensures Encloses(links[i + 1], links[i])
      {
        var k := |visits| - 2 - i;
        assert links[i + 1] == visits[k].range && links[i] == visits[k + 1].range;
      }
    }
    if ParentsEnclose(links) {
      forall k | 0 <= k < |visits| - 1
        ensures Encloses(visits[k].range, visits[k + 1].range)
      {
        var i := |visits| - 2 - k;
        assert links[i + 1] == visits[k].range && links[i] == visits[k + 1].range;
      }
    }
  }

  /** With children inside parents, the chain is made of exactly the nodes that contain the
      position.  If no two visited siblings exist, each parent range encloses its child; and when
      siblings are in order, only then. */
  lemma ChainOfContaining(program: Tree, pos: Position)
    requires Nested(program)
    ensures var links := Reversed(Ranges(Inspect(program, pos, 0)));
      && links == Reversed(Containing(AllNodes(program), pos))
      && (Exclusive(program, pos) ==> ParentsEnclose(links))
      && (InOrder(program) && ParentsEnclose(links) ==> Exclusive(program, pos))
  {
    VisitsAreContaining(program, pos, 0);
    LinksEncloseIff(Inspect(program, pos, 0));
    if Exclusive(program, pos) {
      VisitsEnclose(program, pos, 0);
    }
    if InOrder(program) {
      EnclosesIffExclusive(program, pos, 0);
    }
  }

  /** Each new link becomes the innermost, with the chain so far as its parent. */
  method LinkUp(ranges: seq<Range>) returns (current: SelectionRange)
    ensures Links(current) == Reversed(ranges)
    ensures current == Nil <==> ranges == []
  {
    current := Nil;
    for i := 0 to |ranges|
      invariant Links(current) == Reversed(ranges[..i])
      invariant i > 0 ==> current != Nil
    {
      current := SelectionRange(ranges[i], current);
      assert ranges[..i + 1][..i] == ranges[..i];
    }
    assert ranges[..|ranges|] == ranges;
  }

  /** The chain lists the visited ranges from the last visited to the root, and is nil exactly when
      the root excludes the position. */
  method BuildSelectionRange(program: Tree, pos: Position) returns (current: SelectionRange)
    ensures Links(current) == Reversed(Ranges(Inspect(program, pos, 0)))
    ensures current == Nil <==> !PositionInRange(pos, RangeOf(program))
    ensures Nested(program) ==> Links(current) == Reversed(Containing(AllNodes(program), pos))
  {
    var ranges := Collect(program, pos, [], 0);
    assert ranges == Ranges(Inspect(program, pos, 0));
    current := LinkUp(ranges);
    if Nested(program) {
      ChainOfContaining(program, pos);
    }
  }

  lemma {:induction false} ReversedAt<T>(s: seq<T>)
    ensures |Reversed(s)| == |s|
    ensures forall i | 0 <= i < |s| :: Reversed(s)[i] == s[|s| - 1 - i]
  {
    if s != [] {
      ReversedAt(s[..|s| - 1]);
    }
  }

  /** Ranges that only touch both contain the position between them: then the chain makes one
      sibling the parent of the other, which does not enclose it. */
  lemma TouchingSiblingsBreakChain()
    ensures var left := Tree(AstPosition(0, 1, 0), AstPosition(0, 1, 0), []);
      var right := Tree(AstPosition(1, 1, 1), AstPosition(1, 1, 1), []);
      var root := Tree(AstPosition(0, 1, 0), AstPosition(1, 1, 1), [left, right]);
      && Nested(root) && InOrder(root) && !Exclusive(root, Position(0, 1))
      && Ranges(Inspect(root, Position(0, 1), 0)) == [RangeOf(root), RangeOf(left), RangeOf(right)]
      && !Encloses(RangeOf(left), RangeOf(right))
  {
    var left := Tree(AstPosition(0, 1, 0), AstPosition(0, 1, 0), []);
    var right := Tree(AstPosition(1, 1, 1), AstPosition(1, 1, 1), []);
    var root := Tree(AstPosition(0, 1, 0), AstPosition(1, 1, 1), [left, right]);
    var pos := Position(0, 1);
    assert root.children[1..] == [right] && [right][1..] == [];
    var none: seq<Tree> := [];
    assert InOrderAll(none) && InOrder(right);
    assert InOrderAll([right]);
    assert Visited(pos, left) && Visited(pos, root.children[1]);
    assert InspectAll([right], pos, 1) == Inspect(right, pos, 1) + [] == [Visit(RangeOf(right), 1)];
    assert InspectAll(root.children, pos, 1) == Inspect(left, pos, 1) + InspectAll([right], pos, 1);
    assert Inspect(left, pos, 1) == [Visit(RangeOf(left), 1)];
    assert Inspect(root, pos, 0)
        == [Visit(RangeOf(root), 0), Visit(RangeOf(left), 1), Visit(RangeOf(right), 1)];
  }
}
