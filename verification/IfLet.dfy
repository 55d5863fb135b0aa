/** The if-let linter (lint/iflet_analyzer.go): a push/pop traversal with a stack of scopes.

    `IfLetSpec` gives the traversal as a fold over events, a recursive definition, and a
    declarative one; the three are proved equal for every tree.  `IfLetAnalyzers` holds the class
    whose fields the analyzer's callback mutates. */
module IfLetSpec {
  import opened Prelude

  /** Expressions as far as nil checks look at them; `text` is the printed expression. */
  datatype Expr =
    | NilExpr
    | IdentifierExpr(text: string)
    | MemberExpr(text: string)
    | IndexExpr(text: string)
    | BinaryExpr(notEqual: bool, left: Expr, right: Expr)
    | OtherExpr(text: string)

  /** The syntax tree as far as the analyzer looks at it.  `Function` is a function expression;
      function declarations are `Other`.  `key` is the printed operand of a
      force-unwrap and `id` its place in the source. */
  datatype Node =
    | Function(children: seq<Node>)
    | If(test: Expr, children: seq<Node>)
    | Force(key: string, id: nat, children: seq<Node>)
    | Other(children: seq<Node>)

  predicate Checkable(e: Expr) {
    e.IdentifierExpr? || e.MemberExpr? || e.IndexExpr?
  }

  /** The printed expression that an if statement compares with nil, if it is one the linter trusts. */
  function NilChecked(test: Expr): Option<string> {
    if !test.BinaryExpr? || !test.notEqual then None
    else
      var checked :=
        if test.right.NilExpr? then Some(test.left)
        else if test.left.NilExpr? then Some(test.right)
        else None;
      if checked.Some? && Checkable(checked.value) then Some(checked.value.text) else None
  }

  /** Exactly an identifier, a member or an index expression is recognised, on either side of `!=` with
      nil on the other. */
  lemma NilCheckedIff(test: Expr, key: string)
    ensures NilChecked(test) == Some(key) <==>
              || test == BinaryExpr(true, IdentifierExpr(key), NilExpr)
              || test == BinaryExpr(true, MemberExpr(key), NilExpr)
              || test == BinaryExpr(true, IndexExpr(key), NilExpr)
              || test == BinaryExpr(true, NilExpr, IdentifierExpr(key))
              || test == BinaryExpr(true, NilExpr, MemberExpr(key))
              || test == BinaryExpr(true, NilExpr, IndexExpr(key))
  {
  }

  // -------------------------------------------------------------- traversal

  datatype Event = Event(node: Node, push: bool)

  /** What the inspector sends to the callback: a push before and a pop after the children. */
  function Events(n: Node): seq<Event>
    decreases n, 1
  {
    if n.Other? then EventsAll(n.children)
    else [Event(n, true)] + EventsAll(n.children) + [Event(n, false)]
  }

  function EventsAll(ns: seq<Node>): seq<Event>
    decreases ns, 0
  {
    if ns == [] then [] else Events(ns[0]) + EventsAll(ns[1..])
  }

  datatype Scope = Scope(nilChecked: map<string, int>, reported: set<string>)

  datatype State = State(stack: seq<Scope>, reports: seq<nat>)

  const EMPTY_SCOPE := Scope(map[], {})

  /** Go's map access: absent keys count zero. */
  function Count(s: Scope, key: string): int {
    if key in s.nilChecked then s.nilChecked[key] else 0
  }

  function Adding(s: Scope, key: string, delta: int): Scope {
    s.(nilChecked := s.nilChecked[key := Count(s, key) + delta])
  }

  function Top(st: State): Scope
    requires st.stack != []
  {
    st.stack[|st.stack| - 1]
  }

  function WithTop(st: State, s: Scope): State
    requires st.stack != []
  {
    st.(stack := st.stack[..|st.stack| - 1] + [s])
  }

  /** The callback.  The traversal never reaches it with an empty stack; see `NeverBelow`. */
  function OnEvent(st: State, e: Event): State {
    if st.stack == [] then st
    else
      match e.node
      case Function(_) =>
        if e.push then st.(stack := st.stack + [EMPTY_SCOPE])
        else st.(stack := st.stack[..|st.stack| - 1])
      case If(test, _) =>
        var key := NilChecked(test);
        if e.push then
          if key.Some? then WithTop(st, Adding(Top(st), key.value, 1)) else st
        else if Top(st).nilChecked != map[] && key.Some? then WithTop(st, Adding(Top(st), key.value, -1))
        else st
      case Force(key, id, _) =>
        if e.push && Count(Top(st), key) > 0 && key !in Top(st).reported then
          State(WithTop(st, Top(st).(reported := Top(st).reported + {key})).stack, st.reports + [id])
        else st
      case Other(_) => st
  }

  function RunEvents(st: State, events: seq<Event>): State
    decreases |events|
  {
    if events == [] then st else RunEvents(OnEvent(st, events[0]), events[1..])
  }

  lemma {:induction false} RunConcat(st: State, a: seq<Event>, b: seq<Event>)
    ensures RunEvents(st, a + b) == RunEvents(RunEvents(st, a), b)
    decreases |a|
  {
    if a == [] {
      assert a + b == b;
    } else {
      assert (a + b)[1..] == a[1..] + b;
      RunConcat(OnEvent(st, a[0]), a[1..], b);
    }
  }

  // -------------------------------------------------- recursive definition

  datatype Findings = Findings(reports: seq<nat>, reported: set<string>)

  /** `guards`: keys nil-checked by an enclosing if in the same scope; `reported`: keys already
      reported in that scope. */
  function Find(n: Node, guards: set<string>, reported: set<string>): Findings
    decreases n, 1
  {
    match n
    case Function(children) => Findings(FindAll(children, {}, {}).reports, reported)
    case If(test, children) =>
      var key := NilChecked(test);
      FindAll(children, if key.Some? then guards + {key.value} else guards, reported)
    case Force(key, id, children) =>
      if key in guards && key !in reported then
        var rest := FindAll(children, guards, reported + {key});
        Findings([id] + rest.reports, rest.reported)
      else FindAll(children, guards, reported)
    case Other(children) => FindAll(children, guards, reported)
  }

  function FindAll(ns: seq<Node>, guards: set<string>, reported: set<string>): Findings
    decreases ns, 0
  {
    if ns == [] then Findings([], reported)
    else
      var first := Find(ns[0], guards, reported);
      var rest := FindAll(ns[1..], guards, first.reported);
      Findings(first.reports + rest.reports, rest.reported)
  }

  /** `after` is `before` with `found` reported, and the counters as they were. */
  ghost predicate Reports(before: State, after: State, found: Findings) {
    && before.stack != [] && |after.stack| == |before.stack|
    && after.stack[..|after.stack| - 1] == before.stack[..|before.stack| - 1]
    && (forall k :: Count(Top(after), k) == Count(Top(before), k))
    && Top(after).reported == found.reported
    && after.reports == before.reports + found.reports
  }

  ghost predicate GuardsAre(st: State, guards: set<string>) {
    st.stack != [] && forall k :: k in guards <==> Count(Top(st), k) > 0
  }

  ghost predicate CountsNonNegative(s: Scope) {
    forall k :: Count(s, k) >= 0
  }

  /** What the push of an if statement does to the counters. */
  lemma IfPushes(st: State, n: Node, guards: set<string>)
    requires n.If? && GuardsAre(st, guards) && CountsNonNegative(Top(st))
    ensures var key := NilChecked(n.test);
      var s1 := OnEvent(st, Event(n, true));
      && GuardsAre(s1, if key.Some? then guards + {key.value} else guards)
      && CountsNonNegative(Top(s1)) && Top(s1).reported == Top(st).reported
      && s1.reports == st.reports
      && |s1.stack| == |st.stack| && s1.stack[..|s1.stack| - 1] == st.stack[..|st.stack| - 1]
      && forall k :: Count(Top(s1), k) == Count(Top(st), k) + if key == Some(k) then 1 else 0
  {
    var key := NilChecked(n.test);
    var s1 := OnEvent(st, Event(n, true));
    if key.Some? {
      assert Top(s1) == Adding(Top(st), key.value, 1);
    }
  }

  lemma {:induction false} TraversalFinds(st: State, n: Node, guards: set<string>)
    requires GuardsAre(st, guards) && CountsNonNegative(Top(st))
    ensures Reports(st, RunEvents(st, Events(n)), Find(n, guards, Top(st).reported))
    decreases n, 2
  {
    match n
    case Other(children) => TraversalFindsAll(st, children, guards);
    case Function(_) => TraversalFindsFunction(st, n, guards);
    case If(_, _) => TraversalFindsIf(st, n, guards);
    case Force(_, _, _) => TraversalFindsForce(st, n, guards);
  }

  lemma {:induction false} TraversalFindsFunction(st: State, n: Node, guards: set<string>)
    requires n.Function? && GuardsAre(st, guards) && CountsNonNegative(Top(st))
    ensures Reports(st, RunEvents(st, Events(n)), Find(n, guards, Top(st).reported))
    decreases n, 1
  {
    var s1 := OnEvent(st, Event(n, true));
    assert Top(s1) == EMPTY_SCOPE;
    TraversalFindsAll(s1, n.children, {});
    Bracketed(st, n);
  }

  lemma {:induction false} TraversalFindsIf(st: State, n: Node, guards: set<string>)
    requires n.If? && GuardsAre(st, guards) && CountsNonNegative(Top(st))
    ensures Reports(st, RunEvents(st, Events(n)), Find(n, guards, Top(st).reported))
    decreases n, 1
  {
    var s1 := OnEvent(st, Event(n, true));
    var key := NilChecked(n.test);
    var now := if key.Some? then guards + {key.value} else guards;
    IfPushes(st, n, guards);
    TraversalFindsAll(s1, n.children, now);
    Bracketed(st, n);
  }

  lemma {:induction false} TraversalFindsForce(st: State, n: Node, guards: set<string>)
    requires n.Force? && GuardsAre(st, guards) && CountsNonNegative(Top(st))
    ensures Reports(st, RunEvents(st, Events(n)), Find(n, guards, Top(st).reported))
    decreases n, 1
  {
    var s1 := OnEvent(st, Event(n, true));
    TraversalFindsAll(s1, n.children, guards);
    Bracketed(st, n);
  }

  lemma {:induction false} TraversalFindsAll(st: State, ns: seq<Node>, guards: set<string>)
    requires GuardsAre(st, guards) && CountsNonNegative(Top(st))
    ensures Reports(st, RunEvents(st, EventsAll(ns)), FindAll(ns, guards, Top(st).reported))
    decreases ns, 0
  {
    if ns != [] {
      TraversalFinds(st, ns[0], guards);
      var s1 := RunEvents(st, Events(ns[0]));
      TraversalFindsAll(s1, ns[1..], guards);
      RunConcat(st, Events(ns[0]), EventsAll(ns[1..]));
    }
  }

  lemma Bracketed(st: State, n: Node)
    requires !n.Other?
    ensures RunEvents(st, Events(n))
         == OnEvent(RunEvents(OnEvent(st, Event(n, true)), EventsAll(n.children)), Event(n, false))
  {
    var push, body, pop := [Event(n, true)], EventsAll(n.children), [Event(n, false)];
    RunConcat(st, push + body, pop);
    RunConcat(st, push, body);
  }

  // ------------------------------------------------- at every point in between

  /** Every scope from `depth` up has counters of at least zero. */
  ghost predicate NonNegativeFrom(st: State, depth: nat) {
    forall i | depth <= i < |st.stack| :: CountsNonNegative(st.stack[i])
  }

  /** `now` has the scopes of `start`, the top one with counters no smaller, and above them only
      scopes whose counters are not negative. */
  ghost predicate Above(start: State, now: State) {
    && 1 <= |start.stack| <= |now.stack|
    && now.stack[..|start.stack| - 1] == start.stack[..|start.stack| - 1]
    && (forall k :: Count(now.stack[|start.stack| - 1], k) >= Count(Top(start), k))
    && NonNegativeFrom(now, |start.stack|)
  }

  lemma AboveTransitive(a: State, b: State, c: State)
    requires Above(a, b) && Above(b, c) && CountsNonNegative(Top(a))
    ensures Above(a, c)
  {
    var n := |a.stack| - 1;
    if |b.stack| == |a.stack| {
      forall k
        ensures Count(c.stack[n], k) >= Count(Top(a), k)
      {
        assert Count(c.stack[n], k) >= Count(Top(b), k) && Count(Top(b), k) == Count(b.stack[n], k);
      }
    } else {
      assert c.stack[..n] == c.stack[..|b.stack| - 1][..n];
      assert c.stack[n] == c.stack[..|b.stack| - 1][n] == b.stack[n];
      forall i | |a.stack| <= i < |c.stack|
        ensures CountsNonNegative(c.stack[i])
      {
        if i < |b.stack| - 1 {
          assert c.stack[i] == c.stack[..|b.stack| - 1][i] == b.stack[i];
        } else if i == |b.stack| - 1 {
          assert CountsNonNegative(b.stack[i]);
          assert forall k :: Count(c.stack[i], k) >= Count(Top(b), k);
        }
      }
    }
  }

  lemma PushStaysAbove(st: State, n: Node, guards: set<string>) returns (now: set<string>)
    requires !n.Other? && GuardsAre(st, guards) && CountsNonNegative(Top(st))
    ensures var s1 := OnEvent(st, Event(n, true));
      Above(st, s1) && GuardsAre(s1, now) && CountsNonNegative(Top(s1))
  {
    now := if n.Function? then {} else guards;
    if n.If? {
      IfPushes(st, n, guards);
      now := if NilChecked(n.test).Some? then guards + {NilChecked(n.test).value} else guards;
    }
  }

  lemma {:induction false} NeverBelow(st: State, n: Node, events: seq<Event>, guards: set<string>)
    requires GuardsAre(st, guards) && CountsNonNegative(Top(st)) && events <= Events(n)
    ensures Above(st, RunEvents(st, events))
    decreases n, 1
  {
    if events == [] {
    } else if n.Other? {
      NeverBelowAll(st, n.children, events, guards);
    } else if events == Events(n) {
      TraversalFinds(st, n, guards);
    } else {
      var s1 := OnEvent(st, Event(n, true));
      var inner := events[1..];
      assert inner <= EventsAll(n.children);
      var now := PushStaysAbove(st, n, guards);
      NeverBelowAll(s1, n.children, inner, now);
      AboveTransitive(st, s1, RunEvents(s1, inner));
    }
  }

  lemma {:induction false} NeverBelowAll(st: State, ns: seq<Node>, events: seq<Event>, guards: set<string>)
    requires GuardsAre(st, guards) && CountsNonNegative(Top(st)) && events <= EventsAll(ns)
    ensures Above(st, RunEvents(st, events))
    decreases ns, 0
  {
    if ns != [] {
      var first := Events(ns[0]);
      if |events| <= |first| {
        NeverBelow(st, ns[0], events, guards);
      } else {
        TraversalFinds(st, ns[0], guards);
        var s1 := RunEvents(st, first);
        var rest := events[|first|..];
        assert events == first + rest;
        NeverBelowAll(s1, ns[1..], rest, guards);
        RunConcat(st, first, rest);
        AboveTransitive(st, s1, RunEvents(st, events));
      }
    }
  }

  const START := State([EMPTY_SCOPE], [])

  /** At every point of every traversal there is a scope on the stack and no counter is negative;
      at the end there is one scope and every counter is zero. */
  lemma CountersBalance(program: seq<Node>, done: nat)
    requires done <= |EventsAll(program)|
    ensures var st := RunEvents(START, EventsAll(program)[..done]);
      st.stack != [] && forall i | 0 <= i < |st.stack| :: CountsNonNegative(st.stack[i])
    ensures var end := RunEvents(START, EventsAll(program));
      |end.stack| == 1 && forall k :: Count(end.stack[0], k) == 0
  {
    NeverBelowAll(START, program, EventsAll(program)[..done], {});
    TraversalFindsAll(START, program, {});
    var st := RunEvents(START, EventsAll(program)[..done]);
    assert forall k :: Count(st.stack[0], k) >= Count(Top(START), k);
  }

  // ------------------------------------------------- declarative definition

  /** A force-unwrap: where it is, which scope it is in (the root, or the path of the function
      expression around it), and whether an enclosing if of that scope nil-checks its operand.
      Only function expressions open scopes; all function declarations share the root's. */
  datatype Occurrence = Occurrence(id: nat, key: string, scope: seq<nat>, guarded: bool)

  /** All force-unwraps below `n` in source order; `path` is the position of `n` in the tree. */
  function Occurrences(n: Node, path: seq<nat>, scope: seq<nat>, guards: set<string>): seq<Occurrence>
    decreases n, 1
  {
    match n
    case Function(children) => OccurrencesAll(children, path, 0, path, {})
    case If(test, children) =>
      var key := NilChecked(test);
      OccurrencesAll(children, path, 0, scope, if key.Some? then guards + {key.value} else guards)
    case Force(key, id, children) =>
      [Occurrence(id, key, scope, key in guards)] + OccurrencesAll(children, path, 0, scope, guards)
    case Other(children) => OccurrencesAll(children, path, 0, scope, guards)
  }

  function OccurrencesAll(ns: seq<Node>, path: seq<nat>, index: nat, scope: seq<nat>, guards: set<string>)
    : seq<Occurrence>
    decreases ns, 0
  {
    if ns == [] then []
    else Occurrences(ns[0], path + [index], scope, guards) + OccurrencesAll(ns[1..], path, index + 1, scope, guards)
  }

  // ------------------------------------------------- occurrences by their paths

  /** The node at a path of child indices. */
  function NodeAt(ns: seq<Node>, path: seq<nat>): Option<Node> {
    if path == [] || path[0] >= |ns| then None
    else if |path| == 1 then Some(ns[path[0]])
    else NodeAt(ns[path[0]].children, path[1..])
  }

  function Parent(path: seq<nat>): seq<nat>
    requires path != []
  {
    path[..|path| - 1]
  }

  /** The path of the innermost function expression around a node; empty if there is none. */
  function ScopeOf(program: seq<Node>, path: seq<nat>): seq<nat>
    requires path != []
    decreases |path|
  {
    if |path| == 1 then []
    else
      match NodeAt(program, Parent(path))
      case Some(Function(_)) => Parent(path)
      case _ => ScopeOf(program, Parent(path))
  }

  /** Some if statement around a node, inside its innermost function expression, compares `key` with nil. */
  predicate IsGuarded(program: seq<Node>, path: seq<nat>, key: string)
    requires path != []
    decreases |path|
  {
    |path| > 1 &&
    match NodeAt(program, Parent(path))
    case Some(Function(_)) => false
    case Some(If(test, _)) => NilChecked(test) == Some(key) || IsGuarded(program, Parent(path), key)
    case _ => IsGuarded(program, Parent(path), key)
  }

  /** The occurrence is the force-unwrap at `path`. */
  ghost predicate OccursAt(program: seq<Node>, path: seq<nat>, o: Occurrence) {
    && path != []
    && (exists children :: NodeAt(program, path) == Some(Force(o.key, o.id, children)))
    && o.scope == ScopeOf(program, path)
    && (o.guarded <==> IsGuarded(program, path, o.key))
  }

  lemma {:induction false} NodeAtChild(ns: seq<Node>, path: seq<nat>, j: nat)
    requires path != []
    ensures NodeAt(ns, path + [j])
         == match NodeAt(ns, path)
            case None => None
            case Some(n) => if j < |n.children| then Some(n.children[j]) else None
  {
    assert (path + [j])[1..] == path[1..] + [j];
    if |path| > 1 && path[0] < |ns| {
      NodeAtChild(ns[path[0]].children, path[1..], j);
    }
  }

  lemma {:induction false} NodeAtPrefix(ns: seq<Node>, path: seq<nat>, longer: seq<nat>)
    requires path != [] && path <= longer && NodeAt(ns, longer).Some?
    ensures NodeAt(ns, path).Some?
  {
    if |path| > 1 {
      assert path[1..] <= longer[1..];
      NodeAtPrefix(ns[path[0]].children, path[1..], longer[1..]);
    }
  }

  /** The accumulated scope and guards are those of the node at `path`. */
  ghost predicate Context(program: seq<Node>, path: seq<nat>, scope: seq<nat>, guards: set<string>) {
    path != [] && scope == ScopeOf(program, path) && forall k :: k in guards <==> IsGuarded(program, path, k)
  }

  ghost predicate OccursBelow(program: seq<Node>, path: seq<nat>, o: Occurrence) {
    exists p :: path <= p && OccursAt(program, p, o)
  }

  ghost predicate OccursFrom(program: seq<Node>, path: seq<nat>, index: nat, o: Occurrence) {
    exists j: nat :: j >= index && OccursBelow(program, path + [j], o)
  }

  lemma BelowIff(program: seq<Node>, path: seq<nat>, o: Occurrence)
    ensures OccursBelow(program, path, o) <==> OccursAt(program, path, o) || OccursFrom(program, path, 0, o)
  {
    if p :| path <= p && OccursAt(program, p, o) {
      if p != path {
        var j := p[|path|];
        assert path + [j] <= p;
        assert OccursBelow(program, path + [j], o);
      }
    }
    if j: nat :| OccursBelow(program, path + [j], o) {
      var p :| path + [j] <= p && OccursAt(program, p, o);
      assert path <= p;
    }
  }

  function Inner(n: Node, guards: set<string>): set<string> {
    match n
    case Function(_) => {}
    case If(test, _) => if NilChecked(test).Some? then guards + {NilChecked(test).value} else guards
    case _ => guards
  }

  /** `ns` are the nodes at `path` from `index` on, with the given scope and guards. */
  ghost predicate ChildrenAre(program: seq<Node>, ns: seq<Node>, path: seq<nat>, index: nat, scope: seq<nat>,
                              guards: set<string>) {
    forall j: nat | j >= index ::
      && NodeAt(program, path + [j]) == (if j - index < |ns| then Some(ns[j - index]) else None)
      && Context(program, path + [j], scope, guards)
  }

  lemma ContextOfChildren(program: seq<Node>, n: Node, path: seq<nat>, scope: seq<nat>, guards: set<string>)
    requires NodeAt(program, path) == Some(n) && Context(program, path, scope, guards)
    ensures ChildrenAre(program, n.children, path, 0, if n.Function? then path else scope, Inner(n, guards))
  {
    forall j: nat
      ensures NodeAt(program, path + [j]) == (if j < |n.children| then Some(n.children[j]) else None)
      ensures Context(program, path + [j], if n.Function? then path else scope, Inner(n, guards))
    {
      assert Parent(path + [j]) == path;
      NodeAtChild(program, path, j);
    }
  }

  /** The occurrences of a node: its own, if it is a force-unwrap, and those of its children. */
  lemma OccurrencesOf(program: seq<Node>, n: Node, path: seq<nat>, scope: seq<nat>, guards: set<string>, o: Occurrence)
    requires NodeAt(program, path) == Some(n) && Context(program, path, scope, guards)
    ensures o in Occurrences(n, path, scope, guards) <==>
              || OccursAt(program, path, o)
              || o in OccurrencesAll(n.children, path, 0, if n.Function? then path else scope, Inner(n, guards))
  {
    if n.Force? {
      assert NodeAt(program, path) == Some(Force(n.key, n.id, n.children));
      assert OccursAt(program, path, o) <==> o == Occurrence(n.id, n.key, scope, n.key in guards);
    }
  }

  lemma {:induction false} OccurrencesFrom(program: seq<Node>, n: Node, path: seq<nat>, scope: seq<nat>,
                                           guards: set<string>, o: Occurrence)
    requires NodeAt(program, path) == Some(n) && Context(program, path, scope, guards)
    ensures o in Occurrences(n, path, scope, guards) <==> OccursBelow(program, path, o)
    decreases n, 1
  {
    OccurrencesOf(program, n, path, scope, guards, o);
    ContextOfChildren(program, n, path, scope, guards);
    OccurrencesAllFrom(program, n.children, path, 0, if n.Function? then path else scope, Inner(n, guards), o);
    BelowIff(program, path, o);
  }

  lemma NothingFrom(program: seq<Node>, path: seq<nat>, index: nat, scope: seq<nat>, guards: set<string>, o: Occurrence)
    requires ChildrenAre(program, [], path, index, scope, guards)
    ensures !OccursFrom(program, path, index, o)
  {
    if j: nat :| j >= index && OccursBelow(program, path + [j], o) {
      var p :| path + [j] <= p && OccursAt(program, p, o);
      NodeAtPrefix(program, path + [j], p);
      assert false;
    }
  }

  lemma FromIff(program: seq<Node>, path: seq<nat>, index: nat, o: Occurrence)
    ensures OccursFrom(program, path, index, o) <==>
              OccursBelow(program, path + [index], o) || OccursFrom(program, path, index + 1, o)
  {
  }

  lemma {:induction false} OccurrencesAllFrom(program: seq<Node>, ns: seq<Node>, path: seq<nat>, index: nat,
                                              scope: seq<nat>, guards: set<string>, o: Occurrence)
    requires ChildrenAre(program, ns, path, index, scope, guards)
    ensures o in OccurrencesAll(ns, path, index, scope, guards) <==> OccursFrom(program, path, index, o)
    decreases ns, 0
  {
    if ns == [] {
      NothingFrom(program, path, index, scope, guards, o);
    } else {
      FromIff(program, path, index, o);
      OccurrencesFrom(program, ns[0], path + [index], scope, guards, o);
      OccurrencesAllFrom(program, ns[1..], path, index + 1, scope, guards, o);
    }
  }

  lemma TopContext(program: seq<Node>)
    ensures ChildrenAre(program, program, [], 0, [], {})
  {
    assert forall j: nat :: [] + [j] == [j] && |[j]| == 1;
  }

  /** The occurrences are exactly the force-unwraps of the program, each in the scope of its innermost
      function expression, and guarded exactly if an if statement between the two compares its operand
      with nil. */
  lemma OccurrencesByPath(program: seq<Node>, o: Occurrence)
    ensures o in OccurrencesAll(program, [], 0, [], {}) <==> exists path :: OccursAt(program, path, o)
  {
    TopContext(program);
    OccurrencesAllFrom(program, program, [], 0, [], {}, o);
    if path :| OccursAt(program, path, o) {
      assert [] + [path[0]] <= path;
      assert OccursBelow(program, [] + [path[0]], o);
    }
  }

  // ------------------------------------------------- the first of each key

  /** Guarded, and no earlier guarded force-unwrap of the same key in the same scope. */
  predicate IsFirst(os: seq<Occurrence>, i: nat)
    requires i < |os|
  {
    && os[i].guarded
    && forall j | 0 <= j < i :: !(os[j].guarded && os[j].scope == os[i].scope && os[j].key == os[i].key)
  }

  /** The first ones, in source order. */
  function Firsts(os: seq<Occurrence>): seq<nat> {
    if os == [] then []
    else
      var n := |os| - 1;
      Firsts(os[..n]) + if IsFirst(os, n) then [os[n].id] else []
  }

  /** The keys with a guarded occurrence in `scope`. */
  function Seen(os: seq<Occurrence>, scope: seq<nat>): set<string> {
    set i | 0 <= i < |os| && os[i].guarded && os[i].scope == scope :: os[i].key
  }

  /** No occurrence lies in a function expression at or below `path`. */
  ghost predicate Unvisited(os: seq<Occurrence>, path: seq<nat>) {
    forall i | 0 <= i < |os| :: !(path <= os[i].scope)
  }

  ghost predicate UnvisitedFrom(os: seq<Occurrence>, path: seq<nat>, index: nat) {
    forall i, j: nat | 0 <= i < |os| && j >= index :: !(path + [j] <= os[i].scope)
  }

  lemma SeenOneMore(os: seq<Occurrence>, o: Occurrence, scope: seq<nat>)
    ensures Seen(os + [o], scope) == Seen(os, scope) + if o.guarded && o.scope == scope then {o.key} else {}
    ensures Firsts(os + [o])
         == Firsts(os) + if o.guarded && o.key !in Seen(os, o.scope) then [o.id] else []
  {
    var all := os + [o];
    assert all[..|os|] == os;
    assert forall i | 0 <= i < |os| :: all[i] == os[i];
    forall k
      ensures k in Seen(all, scope) <==> k in Seen(os, scope) + if o.guarded && o.scope == scope then {o.key} else {}
    {
      if k in Seen(os, scope) {
        var i :| 0 <= i < |os| && os[i].guarded && os[i].scope == scope && os[i].key == k;
        assert all[i].key == k;
      }
      if o.guarded && o.scope == scope && o.key == k {
        assert all[|os|].key == k;
      }
    }
    if o.key in Seen(os, o.scope) {
      var i :| 0 <= i < |os| && os[i].guarded && os[i].scope == o.scope && os[i].key == o.key;
      assert all[i] == os[i];
    }
  }

  /** The reports of `n` are the first guarded force-unwraps among its occurrences, given those
      `before`; and its occurrences lie in its own scope or in scopes at or below `path`. */
  ghost predicate FindsFirsts(n: Node, path: seq<nat>, scope: seq<nat>, guards: set<string>, before: seq<Occurrence>) {
    var here := Occurrences(n, path, scope, guards);
    var found := Find(n, guards, Seen(before, scope));
    && Firsts(before + here) == Firsts(before) + found.reports
    && Seen(before + here, scope) == found.reported
    && forall o | o in here :: o.scope == scope || path <= o.scope
  }

  lemma {:induction false} FindIsFirsts(n: Node, path: seq<nat>, scope: seq<nat>, guards: set<string>,
                                        before: seq<Occurrence>)
    requires scope < path && Unvisited(before, path)
    ensures FindsFirsts(n, path, scope, guards, before)
    decreases n, 2
  {
    match n
    case Other(children) => FindAllIsFirsts(children, path, 0, scope, guards, before);
    case If(test, children) =>
      var key := NilChecked(test);
      FindAllIsFirsts(children, path, 0, scope, if key.Some? then guards + {key.value} else guards, before);
    case Force(_, _, _) => ForceFindsFirsts(n, path, scope, guards, before);
    case Function(_) => FunctionFindsFirsts(n, path, scope, guards, before);
  }

  lemma {:induction false} ForceFindsFirsts(n: Node, path: seq<nat>, scope: seq<nat>, guards: set<string>,
                                            before: seq<Occurrence>)
    requires n.Force? && scope < path && Unvisited(before, path)
    ensures FindsFirsts(n, path, scope, guards, before)
    decreases n, 1
  {
    var o := Occurrence(n.id, n.key, scope, n.key in guards);
    assert Unvisited(before + [o], path);
    FindAllIsFirsts(n.children, path, 0, scope, guards, before + [o]);
    ForceAssembles(n, path, scope, guards, before, OccurrencesAll(n.children, path, 0, scope, guards),
                   FindAll(n.children, guards, Seen(before + [o], scope)));
  }

  lemma ForceAssembles(n: Node, path: seq<nat>, scope: seq<nat>, guards: set<string>, before: seq<Occurrence>,
                       below: seq<Occurrence>, rest: Findings)
    requires n.Force?
    requires below == OccurrencesAll(n.children, path, 0, scope, guards)
    requires forall o | o in below :: o.scope == scope || path < o.scope
    requires var upto := before + [Occurrence(n.id, n.key, scope, n.key in guards)];
      && rest == FindAll(n.children, guards, Seen(upto, scope))
      && Firsts(upto + below) == Firsts(upto) + rest.reports
      && Seen(upto + below, scope) == rest.reported
    ensures FindsFirsts(n, path, scope, guards, before)
  {
    var o := Occurrence(n.id, n.key, scope, n.key in guards);
    SeenOneMore(before, o, scope);
    ForceIsFirsts(before, o, below, scope, rest);
    AlreadySeen(Seen(before, scope), n.key);
    assert [] + rest.reports == rest.reports;
  }

  lemma {:induction false} FunctionFindsFirsts(n: Node, path: seq<nat>, scope: seq<nat>, guards: set<string>,
                                               before: seq<Occurrence>)
    requires n.Function? && scope < path && Unvisited(before, path)
    ensures FindsFirsts(n, path, scope, guards, before)
    decreases n, 1
  {
    assert Seen(before, path) == {};
    FindAllIsFirsts(n.children, path, 0, path, {}, before);
    SeenElsewhere(before, OccurrencesAll(n.children, path, 0, path, {}), scope);
  }

  lemma AlreadySeen(seen: set<string>, key: string)
    ensures key in seen ==> seen + {key} == seen
    ensures seen + {} == seen
  {
  }

  lemma ForceIsFirsts(before: seq<Occurrence>, o: Occurrence, below: seq<Occurrence>, scope: seq<nat>, rest: Findings)
    requires Firsts(before + [o] + below) == Firsts(before + [o]) + rest.reports
    requires Seen(before + [o] + below, scope) == rest.reported
    ensures Firsts(before + ([o] + below))
         == Firsts(before) + ((if o.guarded && o.key !in Seen(before, o.scope) then [o.id] else []) + rest.reports)
    ensures Seen(before + ([o] + below), scope) == rest.reported
  {
    var here := if o.guarded && o.key !in Seen(before, o.scope) then [o.id] else [];
    SeenOneMore(before, o, scope);
    Assoc(before, [o], below);
    Assoc(Firsts(before), here, rest.reports);
  }

  lemma SeenElsewhere(before: seq<Occurrence>, more: seq<Occurrence>, scope: seq<nat>)
    requires forall o | o in more :: o.scope != scope
    ensures Seen(before + more, scope) == Seen(before, scope)
  {
    var all := before + more;
    assert forall i | |before| <= i < |all| :: all[i] in more;
    forall k
      ensures k in Seen(all, scope) <==> k in Seen(before, scope)
    {
      if k in Seen(before, scope) {
        var i :| 0 <= i < |before| && before[i].guarded && before[i].scope == scope && before[i].key == k;
        assert all[i] == before[i];
      }
    }
  }

  lemma PrefixesDiffer(path: seq<nat>, i: nat, j: nat, scope: seq<nat>)
    requires i != j
    ensures !(path + [i] <= scope && path + [j] <= scope)
    ensures path + [i] <= scope ==> path < scope
  {
    if path + [i] <= scope {
      assert scope[|path|] == (path + [i])[|path|] == i;
      assert (path + [j])[|path|] == j;
    }
  }

  /** After the child at `index`, the scopes below the later children are still unvisited. */
  lemma UnvisitedAfter(before: seq<Occurrence>, here: seq<Occurrence>, path: seq<nat>, index: nat, scope: seq<nat>)
    requires scope <= path && UnvisitedFrom(before, path, index)
    requires forall o | o in here :: o.scope == scope || path + [index] <= o.scope
    ensures UnvisitedFrom(before + here, path, index + 1)
  {
    var upto := before + here;
    forall i, j: nat | 0 <= i < |upto| && j >= index + 1
      ensures !(path + [j] <= upto[i].scope)
    {
      if i >= |before| {
        assert upto[i] in here;
        PrefixesDiffer(path, index, j, upto[i].scope);
      }
    }
  }

  lemma {:induction false} FindAllIsFirsts(ns: seq<Node>, path: seq<nat>, index: nat, scope: seq<nat>,
                                           guards: set<string>, before: seq<Occurrence>)
    requires scope <= path && UnvisitedFrom(before, path, index)
    ensures var all := before + OccurrencesAll(ns, path, index, scope, guards);
      var found := FindAll(ns, guards, Seen(before, scope));
      && Firsts(all) == Firsts(before) + found.reports
      && Seen(all, scope) == found.reported
    ensures forall o | o in OccurrencesAll(ns, path, index, scope, guards) :: o.scope == scope || path < o.scope
    decreases ns, 0
  {
    if ns == [] {
      assert before + [] == before;
    } else {
      var here := Occurrences(ns[0], path + [index], scope, guards);
      var rest := OccurrencesAll(ns[1..], path, index + 1, scope, guards);
      var upto := before + here;
      FindIsFirsts(ns[0], path + [index], scope, guards, before);
      UnvisitedAfter(before, here, path, index, scope);
      FindAllIsFirsts(ns[1..], path, index + 1, scope, guards, upto);
      AppendFindings(before, here, rest, scope,
                     Find(ns[0], guards, Seen(before, scope)), FindAll(ns[1..], guards, Seen(upto, scope)));
      forall o | o in here
        ensures o.scope == scope || path < o.scope
      {
        PrefixesDiffer(path, index, index + 1, o.scope);
      }
    }
  }

  lemma AppendFindings(before: seq<Occurrence>, here: seq<Occurrence>, rest: seq<Occurrence>, scope: seq<nat>,
                       first: Findings, second: Findings)
    requires Firsts(before + here) == Firsts(before) + first.reports
    requires Firsts(before + here + rest) == Firsts(before + here) + second.reports
    requires Seen(before + here + rest, scope) == second.reported
    ensures Firsts(before + (here + rest)) == Firsts(before) + (first.reports + second.reports)
    ensures Seen(before + (here + rest), scope) == second.reported
  {
    Assoc(before, here, rest);
    Assoc(Firsts(before), first.reports, second.reports);
  }

  /** For every program, the traversal reports exactly the first guarded force-unwrap of each key
      in each function expression, and in the code outside them all, in source order. */
  lemma ReportsFirstUnwraps(program: seq<Node>)
    ensures RunEvents(START, EventsAll(program)).reports == Firsts(OccurrencesAll(program, [], 0, [], {}))
  {
    TraversalFindsAll(START, program, {});
    FindAllIsFirsts(program, [], 0, [], {}, []);
    assert Seen([], []) == {} && Top(START) == EMPTY_SCOPE;
    assert [] + OccurrencesAll(program, [], 0, [], {}) == OccurrencesAll(program, [], 0, [], {});
  }
}

module IfLetAnalyzers {
  import opened Prelude
  import opened IfLetSpec

  class IfLetAnalyzer {
    var scopeStack: seq<Scope>
    var reports: seq<nat>

    ghost function Abstract(): State
      reads this
    {
      State(scopeStack, reports)
    }

    constructor ()
      ensures Abstract() == START
    {
      scopeStack, reports := [EMPTY_SCOPE], [];
    }

    method OnElement(element: Node, push: bool)
      requires scopeStack != []
      modifies this
      ensures Abstract() == OnEvent(old(Abstract()), Event(element, push))
    {
      var last := |scopeStack| - 1;
      match element {
        case Function(_) =>
          if push {
            scopeStack := scopeStack + [EMPTY_SCOPE];
          } else {
            scopeStack := scopeStack[..last];
          }
        case If(test, _) =>
          var key := NilChecked(test);
          if push {
            if key.Some? {
              AddToTop(key.value, 1);
            }
          } else if |scopeStack[last].nilChecked| > 0 {
            if key.Some? {
              AddToTop(key.value, -1);
            }
          }
        case Force(key, id, _) =>
          if !push {
            return;
          }
          var current := scopeStack[last];
          if Count(current, key) > 0 && key !in current.reported {
            reports := reports + [id];
            scopeStack := scopeStack[..last] + [current.(reported := current.reported + {key})];
          }
        case Other(_) =>
      }
    }

    method AddToTop(key: string, delta: int)
      requires scopeStack != []
      modifies this`scopeStack
      ensures Abstract() == WithTop(old(Abstract()), Adding(Top(old(Abstract())), key, delta))
    {
      var last := |scopeStack| - 1;
      scopeStack := scopeStack[..last] + [Adding(scopeStack[last], key, delta)];
    }
  }

  /** The whole analysis: the inspector feeds the callback every event of the program. */
  method Analyze(program: seq<Node>) returns (reports: seq<nat>)
    ensures reports == Firsts(OccurrencesAll(program, [], 0, [], {}))
  {
    var analyzer := new IfLetAnalyzer();
    var events := EventsAll(program);
    for i := 0 to |events|
      invariant analyzer.Abstract() == RunEvents(START, events[..i])
    {
      CountersBalance(program, i);
      analyzer.OnElement(events[i].node, events[i].push);
      assert events[..i + 1] == events[..i] + [events[i]];
      RunConcat(START, events[..i], [events[i]]);
    }
    assert events[..|events|] == events;
    ReportsFirstUnwraps(program);
    reports := analyzer.reports;
  }
}
