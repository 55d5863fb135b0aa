/** The import handler as a history of cache calls (languageserver/server2/analysis.go with
    languageserver/server2/cache.go).

    Serving imports that import nothing themselves is a history of fetches, so a smaller cache keeps
    the most recent keys of a larger one.  An import with imports of its own can break that. */
module ImportHistories {
  import opened Prelude
  import opened Recency
  import opened HostSpec
  import opened AnalysisSpec
  import opened CacheHistories

  type Entry<C> = CheckerEntry<C>

  /** The import asks for nothing while it is checked. */
  predicate Flat<C>(imp: Import<C>) {
    imp.reply.Resolved? ==> imp.reply.nested == []
  }

  function AsOp<C>(imp: Import<C>): Op<Entry<C>> {
    match imp.reply
    case Unresolved => GetOp(imp.key)
    case Resolved(_, subChecker) => FetchOp(imp.key, CheckerEntry(Some(subChecker), true))
  }

  function AsOps<C>(imports: seq<Import<C>>): seq<Op<Entry<C>>> {
    seq(|imports|, i requires 0 <= i < |imports| => AsOp(imports[i]))
  }

  /** What the server stores: valid entries with a checker. */
  ghost predicate AllUsable<C>(l: seq<Slot<Entry<C>>>) {
    forall s | s in l :: Usable(Some(s.entry))
  }

  /** The cache after `ops`, starting from `l`. */
  function Steps<V>(l: seq<Slot<V>>, capacity: Capacity, ops: seq<Op<V>>): seq<Slot<V>>
    decreases |ops|
  {
    if ops == [] then l else Steps(Step(l, capacity, ops[0]), capacity, ops[1..])
  }

  lemma FlatServeIsStep<C>(s: Host<C>, root: Key, imp: Import<C>)
    requires AllUsable(s.cache) && Flat(imp)
    ensures Serve(s, root, imp).cache == Step(s.cache, s.capacity, AsOp(imp))
    ensures AllUsable(Serve(s, root, imp).cache)
  {
    LookupMember(s.cache, imp.key);
    GetMembers(s.cache, imp.key);
    if imp.reply.Resolved? {
      PutMembers(s.cache, s.capacity, imp.key, CheckerEntry(Some(imp.reply.subChecker), true));
    }
  }

  /** Serving such imports one after another is running their fetches; an import that cannot be
      resolved is a bare read. */
  lemma {:induction false} FlatServingIsRun<C>(s: Host<C>, root: Key, imports: seq<Import<C>>)
    requires AllUsable(s.cache) && forall imp | imp in imports :: Flat(imp)
    ensures ServeAll(s, root, imports).cache == Steps(s.cache, s.capacity, AsOps(imports))
    decreases |imports|
  {
    if imports != [] {
      FlatServeIsStep(s, root, imports[0]);
      assert AsOps(imports)[1..] == AsOps(imports[1..]);
      FlatServingIsRun(Serve(s, root, imports[0]), root, imports[1..]);
    }
  }

  // ------------------------------------------------ exactly when inclusion is kept

  /** While `k` is checked, everything asked for is `k` again: each import is for `k`, and one that
      resolves asks for nothing else itself. */
  predicate AsksOnlyItself<C>(k: Key, nested: seq<Import<C>>)
    decreases nested
  {
    nested != [] ==>
      && nested[0].key == k
      && match nested[0].reply
         case Unresolved => AsksOnlyItself(k, nested[1..])
         case Resolved(inner, _) => AsksOnlyItself(k, inner) && forall i | 1 <= i < |nested| :: nested[i].key == k
  }

  function PutKeys(ks: seq<Key>, capacity: Capacity, k: Key): seq<Key>
  {
    if k in ks then [k] + Without(ks, k)
    else if |ks| >= capacity then [k] + ks[..|ks| - 1]
    else [k] + ks
  }

  /** What serving an import does to the keys of a cache of usable entries. */
  function ServeKeys<C>(ks: seq<Key>, capacity: Capacity, imp: Import<C>): seq<Key>
    decreases imp, 1
  {
    if imp.key in ks then [imp.key] + Without(ks, imp.key)
    else
      match imp.reply
      case Unresolved => ks
      case Resolved(nested, _) => PutKeys(ServeAllKeys(ks, capacity, nested), capacity, imp.key)
  }

  function ServeAllKeys<C>(ks: seq<Key>, capacity: Capacity, imports: seq<Import<C>>): seq<Key>
    decreases imports, 0
  {
    if imports == [] then ks else ServeAllKeys(ServeKeys(ks, capacity, imports[0]), capacity, imports[1..])
  }

  ghost predicate Sane<C>(s: Host<C>) {
    WellFormed(s.cache, s.capacity) && AllUsable(s.cache)
  }

  lemma {:induction false} KeysOfServe<C>(s: Host<C>, root: Key, imp: Import<C>)
    requires Sane(s)
    ensures Keys(Serve(s, root, imp).cache) == ServeKeys(Keys(s.cache), s.capacity, imp)
    ensures Sane(Serve(s, root, imp))
    decreases imp, 1
  {
    LookupMember(s.cache, imp.key);
    GetMembers(s.cache, imp.key);
    GetWellFormed(s.cache, s.capacity, imp.key);
    KeysOfGet(s.cache, imp.key);
    if Lookup(s.cache, imp.key).None? && imp.reply.Resolved? {
      var touched := s.(cache := Get(s.cache, imp.key));
      KeysOfServeAll(touched, root, imp.reply.nested);
      KeysOfStored(ServeAll(touched, root, imp.reply.nested), root, imp.key, imp.reply.subChecker);
    }
  }

  lemma KeysOfStored<C>(s: Host<C>, root: Key, k: Key, subChecker: C)
    requires Sane(s)
    ensures Keys(Stored(s, root, k, subChecker).cache) == PutKeys(Keys(s.cache), s.capacity, k)
    ensures Sane(Stored(s, root, k, subChecker))
  {
    var entry := CheckerEntry(Some(subChecker), true);
    KeysOfPut(s.cache, s.capacity, k, entry);
    PutWellFormed(s.cache, s.capacity, k, entry);
    PutMembers(s.cache, s.capacity, k, entry);
  }

  lemma {:induction false} KeysOfServeAll<C>(s: Host<C>, root: Key, imports: seq<Import<C>>)
    requires Sane(s)
    ensures Keys(ServeAll(s, root, imports).cache) == ServeAllKeys(Keys(s.cache), s.capacity, imports)
    ensures Sane(ServeAll(s, root, imports))
    decreases imports, 0
  {
    if imports != [] {
      KeysOfServe(s, root, imports[0]);
      KeysOfServeAll(Serve(s, root, imports[0]), root, imports[1..]);
    }
  }

  // ------------------------------------------------------- if it asks only for itself

  lemma {:induction false} OnlyFront<C>(ks: seq<Key>, capacity: Capacity, k: Key, imports: seq<Import<C>>)
    requires ks != [] && ks[0] == k && NoDuplicates(ks)
    requires forall i | 0 <= i < |imports| :: imports[i].key == k
    ensures ServeAllKeys(ks, capacity, imports) == ks
    decreases |imports|
  {
    if imports != [] {
      WithoutMembers(ks[1..], k);
      assert k !in ks[1..] && [k] + ks[1..] == ks;
      OnlyFront(ks, capacity, k, imports[1..]);
    }
  }

  lemma PutKeysTwice(ks: seq<Key>, capacity: Capacity, k: Key)
    requires NoDuplicates(ks) && |ks| <= capacity && k !in ks
    ensures var once := PutKeys(ks, capacity, k);
      && once != [] && once[0] == k && NoDuplicates(once) && |once| <= capacity
      && PutKeys(once, capacity, k) == once
  {
    var once := PutKeys(ks, capacity, k);
    assert once[1..] == if |ks| >= capacity then ks[..|ks| - 1] else ks;
    WithoutMembers(once[1..], k);
    assert once == [k] + once[1..];
  }

  /** Serving such imports on a miss leaves the keys alone or stores `k`. */
  lemma {:induction false} SelfServing<C>(ks: seq<Key>, capacity: Capacity, k: Key, nested: seq<Import<C>>)
    requires NoDuplicates(ks) && |ks| <= capacity && k !in ks && AsksOnlyItself(k, nested)
    ensures ServeAllKeys(ks, capacity, nested) == ks || ServeAllKeys(ks, capacity, nested) == PutKeys(ks, capacity, k)
    decreases nested
  {
    if nested != [] {
      if nested[0].reply.Unresolved? {
        SelfServing(ks, capacity, k, nested[1..]);
      } else {
        SelfServing(ks, capacity, k, nested[0].reply.nested);
        PutKeysTwice(ks, capacity, k);
        assert ServeKeys(ks, capacity, nested[0]) == PutKeys(ks, capacity, k);
        OnlyFront(PutKeys(ks, capacity, k), capacity, k, nested[1..]);
      }
    }
  }

  lemma SelfServingPuts<C>(ks: seq<Key>, capacity: Capacity, imp: Import<C>)
    requires NoDuplicates(ks) && |ks| <= capacity
    requires imp.reply.Resolved? && AsksOnlyItself(imp.key, imp.reply.nested)
    ensures ServeKeys(ks, capacity, imp) == PutKeys(ks, capacity, imp.key)
  {
    if imp.key !in ks {
      SelfServing(ks, capacity, imp.key, imp.reply.nested);
      PutKeysTwice(ks, capacity, imp.key);
    }
  }

  lemma PutKeysInclusion(small: seq<Key>, c: Capacity, big: seq<Key>, d: Capacity, k: Key)
    requires c <= d && |small| <= c && |big| <= d && small <= big && NoDuplicates(big)
    ensures PutKeys(small, c, k) <= PutKeys(big, d, k)
  {
    WithoutPrefix(small, big, k);
    WithoutMembers(small, k);
  }

  // ------------------------------------------------------ if it asks for something else

  /** The first key other than `k` that is asked for while `k` is missing or was just stored. */
  function Culprit<C>(k: Key, nested: seq<Import<C>>): Key
    requires !AsksOnlyItself(k, nested)
    decreases nested
  {
    if nested[0].key != k then nested[0].key
    else
      match nested[0].reply
      case Unresolved => Culprit(k, nested[1..])
      case Resolved(inner, _) =>
        if AsksOnlyItself(k, inner) then FirstOther(k, nested[1..]) else Culprit(k, inner)
  }

  function FirstOther<C>(k: Key, imports: seq<Import<C>>): Key {
    if imports == [] then k else if imports[0].key != k then imports[0].key else FirstOther(k, imports[1..])
  }

  function KeysAsked<C>(imp: Import<C>): set<Key>
    decreases imp, 1
  {
    {imp.key} + if imp.reply.Resolved? then AllKeysAsked(imp.reply.nested) else {}
  }

  function AllKeysAsked<C>(imports: seq<Import<C>>): set<Key>
    decreases imports, 0
  {
    if imports == [] then {} else KeysAsked(imports[0]) + AllKeysAsked(imports[1..])
  }

  lemma {:induction false} FirstOtherFound<C>(k: Key, imports: seq<Import<C>>)
    requires exists i | 0 <= i < |imports| :: imports[i].key != k
    ensures FirstOther(k, imports) != k && FirstOther(k, imports) in AllKeysAsked(imports)
    decreases |imports|
  {
    if imports[0].key == k {
      var i :| 0 <= i < |imports| && imports[i].key != k;
      assert imports[1..][i - 1] == imports[i];
      FirstOtherFound(k, imports[1..]);
    }
  }

  lemma {:induction false} CulpritAsked<C>(k: Key, nested: seq<Import<C>>)
    requires !AsksOnlyItself(k, nested)
    ensures Culprit(k, nested) != k && Culprit(k, nested) in AllKeysAsked(nested)
    decreases nested
  {
    if nested[0].key == k {
      if nested[0].reply.Unresolved? {
        CulpritAsked(k, nested[1..]);
      } else if AsksOnlyItself(k, nested[0].reply.nested) {
        var i :| 1 <= i < |nested| && nested[i].key != k;
        assert nested[1..][i - 1].key != k;
        FirstOtherFound(k, nested[1..]);
      } else {
        CulpritAsked(k, nested[0].reply.nested);
      }
    }
  }

  /** `y` is gone, or some key other than `k` is in front of it. */
  predicate Behind(ks: seq<Key>, k: Key, y: Key) {
    y !in ks || exists x | x in Front(ks, y) :: x != k
  }

  /** A full cache for three whose `y` has fallen behind. */
  ghost predicate Fallen(ks: seq<Key>, k: Key, y: Key) {
    |ks| == 3 && NoDuplicates(ks) && Behind(ks, k, y)
  }

  lemma MoveKeepsFallen(ks: seq<Key>, j: Key, k: Key, y: Key)
    requires Fallen(ks, k, y) && j in ks && j != y
    ensures Fallen([j] + Without(ks, j), k, y)
  {
    WithoutMembers(ks, j);
    DistinctCons(j, Without(ks, j));
    FrontAfterMove(ks, j, y);
    if y in ks {
      var x :| x in Front(ks, y) && x != k;
      assert x in Front([j] + Without(ks, j), y);
    }
  }

  lemma PutKeepsFallen(ks: seq<Key>, j: Key, k: Key, y: Key)
    requires Fallen(ks, k, y) && j != y
    ensures Fallen(PutKeys(ks, 3, j), k, y)
  {
    if j in ks {
      MoveKeepsFallen(ks, j, k, y);
    } else {
      DistinctCons(j, ks[..2]);
      FrontAfterEviction(ks, j, y);
      if y in PutKeys(ks, 3, j) {
        var x :| x in Front(ks, y) && x != k;
        assert x in Front(PutKeys(ks, 3, j), y);
      }
    }
  }

  lemma {:induction false} ServeKeepsFallen<C>(ks: seq<Key>, imp: Import<C>, k: Key, y: Key)
    requires Fallen(ks, k, y) && y !in KeysAsked(imp)
    ensures Fallen(ServeKeys(ks, 3, imp), k, y)
    decreases imp, 1
  {
    if imp.key in ks {
      MoveKeepsFallen(ks, imp.key, k, y);
    } else if imp.reply.Resolved? {
      ServeAllKeepsFallen(ks, imp.reply.nested, k, y);
      PutKeepsFallen(ServeAllKeys(ks, 3, imp.reply.nested), imp.key, k, y);
    }
  }

  lemma {:induction false} ServeAllKeepsFallen<C>(ks: seq<Key>, imports: seq<Import<C>>, k: Key, y: Key)
    requires Fallen(ks, k, y) && y !in AllKeysAsked(imports)
    ensures Fallen(ServeAllKeys(ks, 3, imports), k, y)
    decreases imports, 0
  {
    if imports != [] {
      ServeKeepsFallen(ks, imports[0], k, y);
      ServeAllKeepsFallen(ServeKeys(ks, 3, imports[0]), imports[1..], k, y);
    }
  }

  predicate Distinct(k: Key, y: Key, n: Key, z: Key) {
    k != y && k != n && k != z && y != n && y != z && n != z
  }

  lemma WithoutCons(x: Key, ks: seq<Key>, k: Key)
    ensures Without([x] + ks, k) == if x == k then Without(ks, k) else [x] + Without(ks, k)
  {
    assert ([x] + ks)[1..] == ks;
  }

  lemma WithoutThree(a: Key, b: Key, c: Key)
    requires a != b && b != c && a != c
    ensures Without([a, b, c], b) == [a, c] && Without([a, b, c], c) == [a, b]
  {
    forall k
      ensures Without([a, b, c], k)
           == (if a == k then [] else [a]) + (if b == k then [] else [b]) + (if c == k then [] else [c])
    {
      assert [a, b, c] == [a] + ([b] + ([c] + []));
      WithoutCons(a, [b] + ([c] + []), k);
      WithoutCons(b, [c] + [], k);
      WithoutCons(c, [], k);
    }
  }

  lemma FrontOfThird(a: Key, b: Key, c: Key)
    requires a != c
    ensures a in Front([a, b, c], c) && Front([b, c, a], c) <= {b}
  {
    assert [b, c, a][1..] == [c, a];
  }

  /** A hit on a key behind `y` makes `y` fall behind. */
  lemma HitFalls(k: Key, y: Key, n: Key, z: Key)
    requires Distinct(k, y, n, z)
    ensures Fallen([n] + Without([y, n, z], n), k, y)
    ensures Fallen([n] + Without([k, y, n], n), k, y)
    ensures PutKeys([y, n, z], 3, k) == [k, y, n]
  {
    WithoutThree(y, n, z);
    WithoutThree(k, y, n);
    assert [n] + [y, z] == [n, y, z] && [n] + [k, y] == [n, k, y];
    assert n in Front([n, y, z], y);
    FrontOfThird(n, k, y);
  }

  lemma {:induction false} RestFalls<C>(imports: seq<Import<C>>, k: Key, y: Key, n: Key, z: Key)
    requires Distinct(k, y, n, z)
    requires n == FirstOther(k, imports) && y !in AllKeysAsked(imports)
    ensures Fallen(ServeAllKeys([k, y, n], 3, imports), k, y)
    decreases |imports|
  {
    if imports[0].key == k {
      OnlyFront([k, y, n], 3, k, [imports[0]]);
      assert [imports[0]][1..] == [];
      assert ServeKeys([k, y, n], 3, imports[0]) == [k, y, n];
      RestFalls(imports[1..], k, y, n, z);
    } else {
      HitFalls(k, y, n, z);
      ServeAllKeepsFallen(ServeKeys([k, y, n], 3, imports[0]), imports[1..], k, y);
    }
  }

  lemma {:induction false} CulpritFalls<C>(nested: seq<Import<C>>, k: Key, y: Key, n: Key, z: Key)
    requires Distinct(k, y, n, z)
    requires !AsksOnlyItself(k, nested) && n == Culprit(k, nested) && y !in AllKeysAsked(nested)
    ensures Fallen(ServeAllKeys([y, n, z], 3, nested), k, y)
    decreases nested
  {
    var ks := [y, n, z];
    HitFalls(k, y, n, z);
    if nested[0].key != k {
      ServeAllKeepsFallen(ServeKeys(ks, 3, nested[0]), nested[1..], k, y);
    } else if nested[0].reply.Unresolved? {
      CulpritFalls(nested[1..], k, y, n, z);
    } else if AsksOnlyItself(k, nested[0].reply.nested) {
      SelfServingPuts(ks, 3, nested[0]);
      RestFalls(nested[1..], k, y, n, z);
    } else {
      CulpritFalls(nested[0].reply.nested, k, y, n, z);
      PutKeepsFallen(ServeAllKeys(ks, 3, nested[0].reply.nested), k, k, y);
      ServeAllKeepsFallen(ServeKeys(ks, 3, nested[0]), nested[1..], k, y);
    }
  }

  /** The smaller cache forgets or reorders what the larger one still holds in order. */
  lemma OtherwiseBreaks<C>(imp: Import<C>, y: Key, n: Key, z: Key)
    requires Distinct(imp.key, y, n, z)
    requires y !in KeysAsked(imp)
    requires imp.reply.Resolved? ==>
      !AsksOnlyItself(imp.key, imp.reply.nested) && n == Culprit(imp.key, imp.reply.nested)
    ensures !(ServeKeys([y, n, z], 3, imp) <= ServeKeys([y, n, z, imp.key], 4, imp))
  {
    var k := imp.key;
    assert [y, n, z, k] == [y, n, z] + [k];
    WithoutLast([y, n, z], k);
    assert ServeKeys([y, n, z, k], 4, imp) == [k, y, n, z];
    var end := ServeKeys([y, n, z], 3, imp);
    if imp.reply.Resolved? {
      CulpritFalls(imp.reply.nested, k, y, n, z);
      PutKeepsFallen(ServeAllKeys([y, n, z], 3, imp.reply.nested), k, k, y);
      FrontOfThird(n, k, y);
      assert end != [k, y, n] && [k, y, n, z][..3] == [k, y, n];
    } else {
      assert end[0] == y;
    }
  }

  lemma Longer(ks: set<Key>) returns (n: nat)
    ensures forall k | k in ks :: |k| < n
  {
    n := 0;
    var todo := ks;
    while todo != {}
      invariant todo <= ks
      invariant forall k | k in ks - todo :: |k| < n
      decreases todo
    {
      var k :| k in todo;
      todo := todo - {k};
      n := n + |k| + 1;
    }
  }

  ghost predicate Comparable<C>(small: Host<C>, big: Host<C>) {
    Sane(small) && Sane(big) && small.capacity <= big.capacity && Keys(small.cache) <= Keys(big.cache)
  }

  /** Whatever the two caches hold, serving `imp` keeps the recent keys of the larger one. */
  ghost predicate KeepsInclusion<C(!new)>(imp: Import<C>) {
    forall small: Host<C>, big: Host<C>, root: Key | Comparable(small, big) ::
      Keys(Serve(small, root, imp).cache) <= Keys(Serve(big, root, imp).cache)
  }

  function Filled<C>(capacity: Capacity, ks: seq<Key>, checker: C): Host<C> {
    var slots := seq(|ks|, i requires 0 <= i < |ks| => Slot(ks[i], CheckerEntry(Some(checker), true)));
    HostState(0, map[], capacity, slots, map[])
  }

  lemma FilledSane<C>(capacity: Capacity, ks: seq<Key>, checker: C)
    requires |ks| <= capacity && NoDuplicates(ks)
    ensures Sane(Filled(capacity, ks, checker)) && Keys(Filled(capacity, ks, checker).cache) == ks
  {
    assert Keys(Filled(capacity, ks, checker).cache) == ks;
  }

  /** Serving an import keeps inclusion for all caches exactly if it resolves and asks, while it is
      checked, for nothing but itself. */
  lemma ServingKeepsInclusionIff<C(!new)>(imp: Import<C>, checker: C)
    ensures KeepsInclusion(imp) <==> imp.reply.Resolved? && AsksOnlyItself(imp.key, imp.reply.nested)
  {
    if imp.reply.Resolved? && AsksOnlyItself(imp.key, imp.reply.nested) {
      forall small: Host<C>, big: Host<C>, root: Key | Comparable(small, big)
        ensures Keys(Serve(small, root, imp).cache) <= Keys(Serve(big, root, imp).cache)
      {
        SelfServingKeepsInclusion(small, big, root, imp);
      }
    } else {
      BreaksInclusion(imp, checker);
    }
  }

  lemma SelfServingKeepsInclusion<C>(small: Host<C>, big: Host<C>, root: Key, imp: Import<C>)
    requires Comparable(small, big) && imp.reply.Resolved? && AsksOnlyItself(imp.key, imp.reply.nested)
    ensures Keys(Serve(small, root, imp).cache) <= Keys(Serve(big, root, imp).cache)
  {
    KeysOfServe(small, root, imp);
    KeysOfServe(big, root, imp);
    SelfServingPuts(Keys(small.cache), small.capacity, imp);
    SelfServingPuts(Keys(big.cache), big.capacity, imp);
    PutKeysInclusion(Keys(small.cache), small.capacity, Keys(big.cache), big.capacity, imp.key);
  }

  lemma FourDistinct(k: Key, y: Key, n: Key, z: Key)
    requires Distinct(k, y, n, z)
    ensures NoDuplicates([y, n, z]) && NoDuplicates([y, n, z, k])
  {
  }

  /** So does serving any number of such imports, those that import nothing among them. */
  lemma {:induction false} ServingKeepsInclusion<C>(small: Host<C>, big: Host<C>, root: Key, imports: seq<Import<C>>)
    requires Comparable(small, big)
    requires forall imp | imp in imports :: imp.reply.Resolved? && AsksOnlyItself(imp.key, imp.reply.nested)
    ensures Keys(ServeAll(small, root, imports).cache) <= Keys(ServeAll(big, root, imports).cache)
    decreases |imports|
  {
    if imports != [] {
      KeysOfServe(small, root, imports[0]);
      KeysOfServe(big, root, imports[0]);
      SelfServingKeepsInclusion(small, big, root, imports[0]);
      ServingKeepsInclusion(Serve(small, root, imports[0]), Serve(big, root, imports[0]), root, imports[1..]);
    }
  }

  /** The pair of caches that any other import separates. */
  lemma BreaksInclusion<C(!new)>(imp: Import<C>, checker: C)
    requires !(imp.reply.Resolved? && AsksOnlyItself(imp.key, imp.reply.nested))
    ensures !KeepsInclusion(imp)
  {
    var length := Longer(KeysAsked(imp));
    var y: Key, z: Key := seq(length, _ => 'y'), seq(length + 1, _ => 'z');
    var n: Key := seq(length + 2, _ => 'n');
    if imp.reply.Resolved? {
      CulpritAsked(imp.key, imp.reply.nested);
      n := Culprit(imp.key, imp.reply.nested);
    }
    assert |imp.key| < length && (imp.reply.Resolved? ==> |n| < length);
    FourDistinct(imp.key, y, n, z);
    FilledSane(3, [y, n, z], checker);
    FilledSane(4, [y, n, z, imp.key], checker);
    var small, big := Filled(3, [y, n, z], checker), Filled(4, [y, n, z, imp.key], checker);
    assert [y, n, z, imp.key] == [y, n, z] + [imp.key];
    assert Comparable(small, big);
    KeysOfServe(small, "", imp);
    KeysOfServe(big, "", imp);
    OtherwiseBreaks(imp, y, n, z);
  }

  const NESTED: Import<int> := Import("j", Resolved([], 0))
  const NESTING: Import<int> := Import("k", Resolved([NESTED], 0))

  /** One such import: the larger cache serves `k` as it is, the smaller one first makes room for what
      `k` imports. */
  lemma NestedServingBreaksInclusion()
    ensures ServeKeys(["y", "x"], 2, NESTING) == ["k", "j"]
    ensures ServeKeys(["y", "x", "k"], 3, NESTING) == ["k", "y", "x"]
    ensures !KeepsInclusion(NESTING)
  {
    assert "j"[0] == 'j' && "k"[0] == 'k' && "x"[0] == 'x' && "y"[0] == 'y';
    assert ["y", "x", "k"] == ["y", "x"] + ["k"];
    WithoutLast(["y", "x"], "k");
    assert [NESTED][1..] == [];
    assert ServeAllKeys(["y", "x"], 2, [NESTED]) == ServeKeys(["y", "x"], 2, NESTED) == ["j", "y"];
    BreaksInclusion(NESTING, 0);
  }

  lemma WithoutLast(ks: seq<Key>, k: Key)
    requires k !in ks
    ensures Without(ks + [k], k) == ks
  {
    WithoutConcat(ks, [k], k);
    WithoutMembers(ks, k);
    assert Without([k], k) == Without([k][1..], k) == [];
    assert ks + [] == ks;
  }
}
