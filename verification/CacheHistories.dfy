/** What a whole history of cache calls leaves behind (languageserver/server2/cache.go).

    `StackInclusion`: a smaller cache always holds the most recent keys of a larger one.
    `ReuseDistance`: a key is cached exactly while fewer than `capacity` other keys have been
    touched since it was touched itself. */
module CacheHistories {
  import opened Prelude
  import opened Recency

  /** `Fetch` is how the import handler uses the cache for an import that has no imports itself:
      `Get`, then `Put` on a miss.  `ImportHistories` has the general case. */
  datatype Op<+V> =
    | PutOp(key: Key, entry: V)
    | GetOp(key: Key)
    | FetchOp(key: Key, entry: V)
    | DeleteOp(key: Key)
    | DeletePrefixOp(prefix: string)

  function Step<V>(l: seq<Slot<V>>, capacity: Capacity, op: Op<V>): seq<Slot<V>>
  {
    match op
    case PutOp(k, v) => Put(l, capacity, k, v)
    case GetOp(k) => Get(l, k)
    case FetchOp(k, v) => if Lookup(l, k).Some? then Get(l, k) else Put(l, capacity, k, v)
    case DeleteOp(k) => Delete(l, k)
    case DeletePrefixOp(prefix) => KeepUnprefixed(l, prefix)
  }

  /** The cache after `ops`, starting empty. */
  function Run<V>(capacity: Capacity, ops: seq<Op<V>>): seq<Slot<V>>
  {
    if ops == [] then [] else Step(Run(capacity, ops[..|ops| - 1]), capacity, ops[|ops| - 1])
  }

  // ---------------------------------------------------------------- key lists

  function Without(ks: seq<Key>, k: Key): seq<Key> {
    if ks == [] then []
    else if ks[0] == k then Without(ks[1..], k)
    else [ks[0]] + Without(ks[1..], k)
  }

  function WithoutPrefixed(ks: seq<Key>, prefix: string): seq<Key> {
    if ks == [] then []
    else if HasPrefix(ks[0], prefix) then WithoutPrefixed(ks[1..], prefix)
    else [ks[0]] + WithoutPrefixed(ks[1..], prefix)
  }

  lemma {:induction false} KeysOfKeep<V>(l: seq<Slot<V>>, k: Key)
    ensures Keys(Keep(l, {k})) == Without(Keys(l), k)
  {
    if l != [] {
      KeysOfKeep(l[1..], k);
      assert Keys(l)[1..] == Keys(l[1..]);
    }
  }

  lemma {:induction false} KeysOfKeepUnprefixed<V>(l: seq<Slot<V>>, prefix: string)
    ensures Keys(KeepUnprefixed(l, prefix)) == WithoutPrefixed(Keys(l), prefix)
  {
    if l != [] {
      KeysOfKeepUnprefixed(l[1..], prefix);
      assert Keys(l)[1..] == Keys(l[1..]);
    }
  }

  lemma {:induction false} WithoutMembers(ks: seq<Key>, k: Key)
    ensures forall x :: x in Without(ks, k) <==> x in ks && x != k
    ensures |Without(ks, k)| <= |ks|
    ensures k !in ks ==> Without(ks, k) == ks
    ensures NoDuplicates(ks) ==> NoDuplicates(Without(ks, k))
    ensures NoDuplicates(ks) && k in ks ==> |Without(ks, k)| == |ks| - 1
  {
    if ks != [] {
      WithoutMembers(ks[1..], k);
      assert ks == [ks[0]] + ks[1..];
      DistinctCons(ks[0], ks[1..]);
      DistinctCons(ks[0], Without(ks[1..], k));
    }
  }

  lemma DistinctCons(x: Key, ks: seq<Key>)
    ensures NoDuplicates([x] + ks) <==> NoDuplicates(ks) && x !in ks
  {
    var all := [x] + ks;
    assert all[1..] == ks;
    if NoDuplicates(all) {
      assert forall i | 0 <= i < |ks| :: ks[i] == all[i + 1] != all[0];
    }
  }

  lemma {:induction false} WithoutPrefix(a: seq<Key>, b: seq<Key>, k: Key)
    requires a <= b
    ensures Without(a, k) <= Without(b, k)
  {
    if a != [] {
      WithoutPrefix(a[1..], b[1..], k);
    }
  }

  lemma {:induction false} WithoutPrefixedPrefix(a: seq<Key>, b: seq<Key>, prefix: string)
    requires a <= b
    ensures WithoutPrefixed(a, prefix) <= WithoutPrefixed(b, prefix)
  {
    if a != [] {
      WithoutPrefixedPrefix(a[1..], b[1..], prefix);
    }
  }

  lemma KeysOfPut<V>(l: seq<Slot<V>>, capacity: Capacity, k: Key, v: V)
    requires WellFormed(l, capacity)
    ensures Keys(Put(l, capacity, k, v))
         == if k in Keys(l) then [k] + Without(Keys(l), k)
            else if |l| >= capacity then [k] + Keys(l)[..|l| - 1]
            else [k] + Keys(l)
  {
    LookupMember(l, k);
    KeysOfKeep(l, k);
  }

  lemma KeysOfGet<V>(l: seq<Slot<V>>, k: Key)
    ensures Keys(Get(l, k)) == if k in Keys(l) then [k] + Without(Keys(l), k) else Keys(l)
  {
    LookupMember(l, k);
    KeysOfKeep(l, k);
  }

  lemma {:induction false} KeepUnprefixedIsKeep<V>(l: seq<Slot<V>>, prefix: string) returns (dead: set<Key>)
    ensures KeepUnprefixed(l, prefix) == Keep(l, dead)
    ensures forall s | s in l :: s.key in dead <==> HasPrefix(s.key, prefix)
  {
    dead := set s | s in Keys(l) && HasPrefix(s, prefix);
    assert forall s | s in l :: s.key in Keys(l);
    KeepByPrefix(l, dead, prefix);
  }

  lemma StepWellFormed<V>(l: seq<Slot<V>>, capacity: Capacity, op: Op<V>)
    requires WellFormed(l, capacity)
    ensures WellFormed(Step(l, capacity, op), capacity)
  {
    match op
    case PutOp(k, v) => PutWellFormed(l, capacity, k, v);
    case GetOp(k) => GetWellFormed(l, capacity, k);
    case FetchOp(k, v) => GetWellFormed(l, capacity, k); PutWellFormed(l, capacity, k, v);
    case DeleteOp(k) => KeepDistinct(l, {k}); KeepMembers(l, {k});
    case DeletePrefixOp(prefix) =>
      var dead := KeepUnprefixedIsKeep(l, prefix);
      KeepDistinct(l, dead);
      KeepMembers(l, dead);
  }

  /** Every history keeps the cache within capacity and its keys distinct. */
  lemma {:induction false} RunWellFormed<V>(capacity: Capacity, ops: seq<Op<V>>)
    ensures WellFormed(Run(capacity, ops), capacity)
  {
    if ops != [] {
      RunWellFormed(capacity, ops[..|ops| - 1]);
      StepWellFormed(Run(capacity, ops[..|ops| - 1]), capacity, ops[|ops| - 1]);
    }
  }

  // ---------------------------------------------------------- stack inclusion

  lemma PutKeepsInclusion<V>(small: seq<Slot<V>>, c: Capacity, v: V, big: seq<Slot<V>>, d: Capacity, w: V, k: Key)
    requires WellFormed(small, c) && WellFormed(big, d) && c <= d
    requires Keys(small) <= Keys(big)
    ensures Keys(Put(small, c, k, v)) <= Keys(Put(big, d, k, w))
  {
    KeysOfPut(small, c, k, v);
    KeysOfPut(big, d, k, w);
    WithoutPrefix(Keys(small), Keys(big), k);
    WithoutMembers(Keys(small), k);
  }

  lemma StepKeepsInclusion<V>(small: seq<Slot<V>>, c: Capacity, big: seq<Slot<V>>, d: Capacity, op: Op<V>)
    requires WellFormed(small, c) && WellFormed(big, d) && c <= d
    requires Keys(small) <= Keys(big) && !op.GetOp?
    ensures Keys(Step(small, c, op)) <= Keys(Step(big, d, op))
  {
    match op
    case PutOp(k, v) => PutKeepsInclusion(small, c, v, big, d, v, k);
    case FetchOp(k, v) =>
      FetchMovesLikePut(small, c, k, v);
      FetchMovesLikePut(big, d, k, v);
      PutKeepsInclusion(small, c, v, big, d, v, k);
    case DeleteOp(k) =>
      KeysOfKeep(small, k);
      KeysOfKeep(big, k);
      WithoutPrefix(Keys(small), Keys(big), k);
    case DeletePrefixOp(prefix) =>
      KeysOfKeepUnprefixed(small, prefix);
      KeysOfKeepUnprefixed(big, prefix);
      WithoutPrefixedPrefix(Keys(small), Keys(big), prefix);
  }

  lemma FetchMovesLikePut<V>(l: seq<Slot<V>>, capacity: Capacity, k: Key, v: V)
    requires WellFormed(l, capacity)
    ensures Keys(Step(l, capacity, FetchOp(k, v))) == Keys(Put(l, capacity, k, v))
  {
    LookupMember(l, k);
    KeysOfGet(l, k);
    KeysOfPut(l, capacity, k, v);
  }

  /** For every history of insertions, deletions and fetches, the keys of a smaller cache, most
      recent first, are a prefix of the keys of a larger one. */
  lemma {:induction false} StackInclusion<V>(c: Capacity, d: Capacity, ops: seq<Op<V>>)
    requires c <= d
    requires forall op | op in ops :: !op.GetOp?
    ensures Keys(Run(c, ops)) <= Keys(Run(d, ops))
  {
    if ops != [] {
      var before := ops[..|ops| - 1];
      StackInclusion(c, d, before);
      RunWellFormed(c, before);
      RunWellFormed(d, before);
      StepKeepsInclusion(Run(c, before), c, Run(d, before), d, ops[|ops| - 1]);
    }
  }

  /** A bare `Get` breaks inclusion exactly when it hits only in the larger cache and the smaller
      one is not empty. */
  lemma GetKeepsInclusionIff<V>(small: seq<Slot<V>>, c: Capacity, big: seq<Slot<V>>, d: Capacity, k: Key)
    requires WellFormed(small, c) && WellFormed(big, d) && c <= d
    requires Keys(small) <= Keys(big)
    ensures Keys(Get(small, k)) <= Keys(Get(big, k))
       <==> (k in Keys(small) || k !in Keys(big) || small == [])
  {
    KeysOfGet(small, k);
    KeysOfGet(big, k);
    WithoutPrefix(Keys(small), Keys(big), k);
    if k !in Keys(small) && k in Keys(big) && small != [] {
      assert Keys(Get(big, k))[0] == k && Keys(small)[0] != k;
    }
  }

  const OVERFULL: seq<Op<int>> := [PutOp("k", 0), PutOp("x", 0), PutOp("y", 0)]

  /** Three insertions into caches for two and for three. */
  lemma OverfullRuns()
    ensures Run(2, OVERFULL) == [Slot("y", 0), Slot("x", 0)]
    ensures Run(3, OVERFULL) == [Slot("y", 0), Slot("x", 0), Slot("k", 0)]
    ensures Keys(Run(2, OVERFULL)) == ["y", "x"] && Keys(Run(3, OVERFULL)) == ["y", "x", "k"]
  {
    var none: seq<Op<int>> := [];
    var one, two: seq<Op<int>> := [PutOp("k", 0)], [PutOp("k", 0), PutOp("x", 0)];
    assert one[..0] == none && two[..1] == one && OVERFULL[..2] == two;
    forall c: nat | c >= 2
      ensures Run(c, two) == [Slot("x", 0), Slot("k", 0)]
    {
      assert "k"[0] != "x"[0];
      assert Run(c, one) == [Slot("k", 0)];
      assert Lookup(Run(c, one), "x") == None;
      assert Run(c, two) == Put(Run(c, one), c, "x", 0);
    }
  }

  /** A pair of caches, reached by one history, whose inclusion a bare `Get` breaks. */
  lemma GetBreaksInclusion()
    ensures Keys(Run(2, OVERFULL)) <= Keys(Run(3, OVERFULL))
    ensures !(Keys(Get(Run(2, OVERFULL), "k")) <= Keys(Get(Run(3, OVERFULL), "k")))
  {
    OverfullRuns();
    RunWellFormed(2, OVERFULL);
    RunWellFormed(3, OVERFULL);
    assert "k" == ["y", "x", "k"][2];
    GetKeepsInclusionIff(Run(2, OVERFULL), 2, Run(3, OVERFULL), 3, "k");
  }

  // ------------------------------------------------------------ reuse distance

  predicate NoDeletions<V>(ops: seq<Op<V>>) {
    forall i | 0 <= i < |ops| :: !ops[i].DeleteOp? && !ops[i].DeletePrefixOp?
  }

  /** The keys in `touches` after the last occurrence of `k`. */
  function Since(touches: seq<Key>, k: Key): set<Key> {
    if touches == [] || touches[|touches| - 1] == k then {}
    else {touches[|touches| - 1]} + Since(touches[..|touches| - 1], k)
  }

  /** The reference policy, with no list in it. */
  predicate Retained(touches: seq<Key>, capacity: Capacity, k: Key) {
    k in touches && |Since(touches, k)| < capacity
  }

  function TouchesAfter<V>(before: seq<Key>, capacity: Capacity, op: Op<V>): seq<Key> {
    match op
    case PutOp(k, _) => before + [k]
    case FetchOp(k, _) => before + [k]
    case GetOp(k) => if Retained(before, capacity, k) then before + [k] else before
    case DeleteOp(_) => before
    case DeletePrefixOp(_) => before
  }

  /** The keys a history touches: every insertion, and every `Get` of a retained key. */
  function Touches<V>(capacity: Capacity, ops: seq<Op<V>>): seq<Key> {
    if ops == [] then []
    else TouchesAfter(Touches(capacity, ops[..|ops| - 1]), capacity, ops[|ops| - 1])
  }

  /** The value last inserted for `k`; a fetch inserts only on a miss. */
  function LatestPut<V>(capacity: Capacity, ops: seq<Op<V>>, k: Key): Option<V> {
    if ops == [] then None
    else
      var before := ops[..|ops| - 1];
      match ops[|ops| - 1]
      case PutOp(j, v) => if j == k then Some(v) else LatestPut(capacity, before, k)
      case FetchOp(j, v) =>
        if j == k && !Retained(Touches(capacity, before), capacity, k) then Some(v)
        else LatestPut(capacity, before, k)
      case _ => LatestPut(capacity, before, k)
  }

  /** Distinct keys by last occurrence, latest first. */
  function ByRecency(touches: seq<Key>): seq<Key> {
    if touches == [] then []
    else [touches[|touches| - 1]] + Without(ByRecency(touches[..|touches| - 1]), touches[|touches| - 1])
  }

  /** The keys in front of `k`. */
  function Front(ks: seq<Key>, k: Key): set<Key> {
    if ks == [] || ks[0] == k then {} else {ks[0]} + Front(ks[1..], k)
  }

  lemma {:induction false} ByRecencyMembers(touches: seq<Key>)
    ensures forall x :: x in ByRecency(touches) <==> x in touches
    ensures NoDuplicates(ByRecency(touches))
  {
    if touches != [] {
      var n := |touches| - 1;
      ByRecencyMembers(touches[..n]);
      WithoutMembers(ByRecency(touches[..n]), touches[n]);
      assert touches == touches[..n] + [touches[n]];
    }
  }

  lemma {:induction false} FrontMembers(ks: seq<Key>, k: Key)
    ensures forall x | x in Front(ks, k) :: x in ks && x != k
  {
    if ks != [] && ks[0] != k {
      FrontMembers(ks[1..], k);
    }
  }

  lemma {:induction false} FrontWithout(ks: seq<Key>, k: Key, x: Key)
    requires k != x
    ensures Front(Without(ks, x), k) == Front(ks, k) - {x}
  {
    if ks != [] {
      FrontWithout(ks[1..], k, x);
      if ks[0] != x {
        assert Without(ks, x)[1..] == Without(ks[1..], x);
      }
    }
  }

  lemma {:induction false} FrontIsSince(touches: seq<Key>, k: Key)
    ensures Front(ByRecency(touches), k) == Since(touches, k)
  {
    if touches != [] {
      var n := |touches| - 1;
      FrontIsSince(touches[..n], k);
      if touches[n] != k {
        FrontWithout(ByRecency(touches[..n]), k, touches[n]);
        assert ByRecency(touches)[1..] == Without(ByRecency(touches[..n]), touches[n]);
      }
    }
  }

  /** A member of a list without duplicates sits at the index that counts the keys before it. */
  lemma {:induction false} WithinFirst(ks: seq<Key>, c: nat, k: Key)
    requires NoDuplicates(ks) && k in ks
    ensures |Front(ks, k)| < |ks|
    ensures k in ks[..Least(c, |ks|)] <==> |Front(ks, k)| < c
  {
    if ks[0] == k {
      assert c > 0 ==> ks[..Least(c, |ks|)][0] == k;
    } else {
      var rest := ks[1..];
      WithinFirst(rest, if c > 0 then c - 1 else 0, k);
      FrontCons(ks, k);
      if c > 0 {
        assert ks[..Least(c, |ks|)] == [ks[0]] + rest[..Least(c - 1, |rest|)];
      }
    }
  }

  lemma FrontCons(ks: seq<Key>, k: Key)
    requires NoDuplicates(ks) && ks != [] && ks[0] != k
    ensures |Front(ks, k)| == |Front(ks[1..], k)| + 1
  {
    FrontMembers(ks[1..], k);
    assert ks[0] !in ks[1..];
  }

  function Least(a: nat, b: nat): nat {
    if a <= b then a else b
  }

  function Newest(ks: seq<Key>, c: nat): seq<Key> {
    ks[..Least(c, |ks|)]
  }

  lemma NewestAfterTouch(ks: seq<Key>, c: nat, k: Key)
    requires NoDuplicates(ks) && c >= 1
    ensures Newest([k] + Without(ks, k), c)
         == if k in Newest(ks, c) then [k] + Without(Newest(ks, c), k)
            else if |Newest(ks, c)| >= c then [k] + Newest(ks, c)[..c - 1]
            else [k] + Newest(ks, c)
  {
    var n := Least(c, |ks|);
    var front, back := ks[..n], ks[n..];
    assert ks == front + back;
    if k in front {
      var i :| 0 <= i < n && front[i] == k;
      assert forall j | n <= j < |ks| :: ks[j] != ks[i];
      TouchInFront(front, back, c, k);
    } else {
      TouchBehind(front, back, c, k);
    }
  }

  lemma TouchInFront(front: seq<Key>, back: seq<Key>, c: nat, k: Key)
    requires NoDuplicates(front) && k in front && k !in back
    requires |front| == c || (|front| < c && back == [])
    ensures Newest([k] + Without(front + back, k), c) == [k] + Without(front, k)
  {
    WithoutConcat(front, back, k);
    WithoutMembers(front, k);
    WithoutMembers(back, k);
    Assoc([k], Without(front, k), back);
  }

  lemma TouchBehind(front: seq<Key>, back: seq<Key>, c: nat, k: Key)
    requires k !in front && c >= 1
    requires |front| == c || (|front| < c && back == [])
    ensures Newest([k] + Without(front + back, k), c) == [k] + if |front| >= c then front[..c - 1] else front
  {
    WithoutConcat(front, back, k);
    WithoutMembers(front, k);
    var rest := Without(back, k);
    if |front| == c {
      assert front == front[..c - 1] + front[c - 1..];
      Assoc(front[..c - 1], front[c - 1..], rest);
      Assoc([k], front[..c - 1], front[c - 1..] + rest);
    } else {
      assert front + rest == front;
    }
  }

  lemma {:induction false} WithoutConcat(a: seq<Key>, b: seq<Key>, k: Key)
    ensures Without(a + b, k) == Without(a, k) + Without(b, k)
  {
    if a == [] {
      assert a + b == b;
    } else {
      assert (a + b)[1..] == a[1..] + b;
      WithoutConcat(a[1..], b, k);
    }
  }

  /** One operation on a list of the newest keys gives the list of the newest keys. */
  lemma StepHoldsNewest<V>(l: seq<Slot<V>>, capacity: Capacity, op: Op<V>, t: seq<Key>)
    requires WellFormed(l, capacity) && Keys(l) == Newest(ByRecency(t), capacity)
    requires !op.DeleteOp? && !op.DeletePrefixOp?
    ensures Keys(Step(l, capacity, op)) == Newest(ByRecency(TouchesAfter(t, capacity, op)), capacity)
  {
    TouchOneMore(t, capacity, op.key);
    match op
    case PutOp(k, v) => KeysOfPut(l, capacity, k, v);
    case FetchOp(k, v) =>
      FetchMovesLikePut(l, capacity, k, v);
      KeysOfPut(l, capacity, k, v);
    case GetOp(k) =>
      KeysOfGet(l, k);
      CachedIffRetained(t, capacity, k);
  }

  /** Without deletions the cache holds the `capacity` keys touched last. */
  lemma {:induction false} RunHoldsNewest<V>(capacity: Capacity, ops: seq<Op<V>>)
    requires NoDeletions(ops)
    ensures Keys(Run(capacity, ops)) == Newest(ByRecency(Touches(capacity, ops)), capacity)
  {
    if ops != [] {
      var before := ops[..|ops| - 1];
      RunHoldsNewest(capacity, before);
      RunWellFormed(capacity, before);
      StepHoldsNewest(Run(capacity, before), capacity, ops[|ops| - 1], Touches(capacity, before));
    }
  }

  lemma TouchOneMore(t: seq<Key>, capacity: Capacity, k: Key)
    ensures var newest := Newest(ByRecency(t), capacity);
      Newest(ByRecency(t + [k]), capacity)
      == if k in newest then [k] + Without(newest, k)
         else if |newest| >= capacity then [k] + newest[..capacity - 1]
         else [k] + newest
  {
    ByRecencyMembers(t);
    NewestAfterTouch(ByRecency(t), capacity, k);
    assert (t + [k])[..|t|] == t;
  }

  lemma CachedIffRetained(t: seq<Key>, capacity: Capacity, k: Key)
    ensures k in Newest(ByRecency(t), capacity) <==> Retained(t, capacity, k)
  {
    ByRecencyMembers(t);
    FrontIsSince(t, k);
    if k in t {
      WithinFirst(ByRecency(t), capacity, k);
    }
  }

  /** A key cached after one operation has the value it had before, unless it was just inserted. */
  lemma StepFindsLatest<V>(l: seq<Slot<V>>, capacity: Capacity, op: Op<V>, k: Key)
    requires WellFormed(l, capacity) && !op.DeleteOp? && !op.DeletePrefixOp?
    requires Lookup(Step(l, capacity, op), k).Some?
    ensures Lookup(Step(l, capacity, op), k)
         == if op.key == k && (op.PutOp? || (op.FetchOp? && Lookup(l, k).None?)) then Some(op.entry) else Lookup(l, k)
  {
    match op
    case PutOp(j, v) => LookupAfterPut(l, capacity, j, v, k);
    case FetchOp(j, v) =>
      LookupAfterPut(l, capacity, j, v, k);
      LookupAfterGet(l, j, k);
    case GetOp(j) => LookupAfterGet(l, j, k);
  }

  /** The value found for a cached key is the one last inserted. */
  lemma {:induction false} RunFindsLatest<V>(capacity: Capacity, ops: seq<Op<V>>, k: Key)
    requires NoDeletions(ops)
    requires Lookup(Run(capacity, ops), k).Some?
    ensures Lookup(Run(capacity, ops), k) == LatestPut(capacity, ops, k)
  {
    if ops != [] {
      var before, op := ops[..|ops| - 1], ops[|ops| - 1];
      var l := Run(capacity, before);
      RunWellFormed(capacity, before);
      StepFindsLatest(l, capacity, op, k);
      RunHoldsNewest(capacity, before);
      CachedIffRetained(Touches(capacity, before), capacity, k);
      LookupMember(l, k);
      if Lookup(l, k).Some? {
        RunFindsLatest(capacity, before, k);
      }
    }
  }

  lemma LookupAfterGet<V>(l: seq<Slot<V>>, j: Key, k: Key)
    ensures Lookup(Get(l, j), k) == Lookup(l, k)
  {
    LookupKeep(l, {j}, k);
    if Lookup(l, j).Some? {
      assert Get(l, j)[1..] == Keep(l, {j});
    }
  }

  /** An insertion of `j` changes the value of `j` only, and can drop one other key. */
  lemma LookupAfterPut<V>(l: seq<Slot<V>>, capacity: Capacity, j: Key, v: V, k: Key)
    requires WellFormed(l, capacity)
    ensures Lookup(Put(l, capacity, j, v), j) == Some(v)
    ensures k != j && Lookup(Put(l, capacity, j, v), k).Some? ==> Lookup(Put(l, capacity, j, v), k) == Lookup(l, k)
  {
    LookupKeep(l, {j}, k);
    var rest := Put(l, capacity, j, v)[1..];
    if Lookup(l, j).Some? {
      assert rest == Keep(l, {j});
    } else if |l| >= capacity {
      assert rest == l[..|l| - 1];
      LookupMember(rest, k);
      if Lookup(rest, k).Some? {
        LookupFinds(l, Slot(k, Lookup(rest, k).value));
      }
    } else {
      assert rest == l;
    }
  }

  /** Without deletions, a key is found exactly while fewer than `capacity` other keys have been
      touched since its own last touch, and it is found with the value last inserted. */
  lemma ReuseDistance<V>(capacity: Capacity, ops: seq<Op<V>>, k: Key)
    requires NoDeletions(ops)
    ensures Lookup(Run(capacity, ops), k)
         == if Retained(Touches(capacity, ops), capacity, k) then LatestPut(capacity, ops, k) else None
  {
    if Lookup(Run(capacity, ops), k).Some? {
      RunFindsLatest(capacity, ops, k);
    }
    RunHoldsNewest(capacity, ops);
    CachedIffRetained(Touches(capacity, ops), capacity, k);
    LookupMember(Run(capacity, ops), k);
  }

  // -------------------------------------------------- histories with deletions

  predicate Deletes<V>(op: Op<V>, k: Key) {
    match op
    case DeleteOp(j) => j == k
    case DeletePrefixOp(prefix) => HasPrefix(k, prefix)
    case _ => false
  }

  /** The key that `op` touches when it meets cache `l`. */
  function Touched<V>(l: seq<Slot<V>>, op: Op<V>): Option<Key> {
    match op
    case PutOp(k, _) => Some(k)
    case FetchOp(k, _) => Some(k)
    case GetOp(k) => if Lookup(l, k).Some? then Some(k) else None
    case DeleteOp(_) => None
    case DeletePrefixOp(_) => None
  }

  /** The other keys touched since `k` was last touched; `None` if it never was or has been
      deleted since. */
  function OthersSince<V>(capacity: Capacity, ops: seq<Op<V>>, k: Key): Option<set<Key>>
  {
    if ops == [] then None
    else OthersAfter(Run(capacity, ops[..|ops| - 1]), ops[|ops| - 1], k, OthersSince(capacity, ops[..|ops| - 1], k))
  }

  function OthersAfter<V>(l: seq<Slot<V>>, op: Op<V>, k: Key, before: Option<set<Key>>): Option<set<Key>> {
    if Touched(l, op) == Some(k) then Some({})
    else if Deletes(op, k) then None
    else if before.Some? && Touched(l, op).Some? then Some(before.value + {Touched(l, op).value})
    else before
  }

  ghost predicate FrontWithin<V>(l: seq<Slot<V>>, capacity: Capacity, k: Key, others: Option<set<Key>>) {
    KeysWithin(Keys(l), capacity, k, others)
  }

  /** While `k` is cached, only keys of `others` are in front of it; once it is evicted, there are
      enough others to have pushed it out. */
  ghost predicate KeysWithin(ks: seq<Key>, capacity: Capacity, k: Key, others: Option<set<Key>>) {
    match others
    case None => k !in ks
    case Some(s) => if k in ks then Front(ks, k) <= s else |s| >= capacity
  }

  lemma {:induction false} FrontWithinAll<V>(capacity: Capacity, ops: seq<Op<V>>, k: Key)
    ensures FrontWithin(Run(capacity, ops), capacity, k, OthersSince(capacity, ops, k))
  {
    if ops != [] {
      var before := ops[..|ops| - 1];
      FrontWithinAll(capacity, before, k);
      RunWellFormed(capacity, before);
      FrontAfterStep(Run(capacity, before), capacity, ops[|ops| - 1], k, OthersSince(capacity, before, k));
    }
  }

  lemma FrontAfterStep<V>(l: seq<Slot<V>>, capacity: Capacity, op: Op<V>, k: Key, others: Option<set<Key>>)
    requires WellFormed(l, capacity) && FrontWithin(l, capacity, k, others)
    ensures FrontWithin(Step(l, capacity, op), capacity, k, OthersAfter(l, op, k, others))
  {
    match op
    case PutOp(j, v) => FrontAfterPut(l, capacity, j, v, k, others);
    case FetchOp(j, v) =>
      FetchMovesLikePut(l, capacity, j, v);
      FrontAfterPut(l, capacity, j, v, k, others);
    case GetOp(j) => FrontAfterGet(l, capacity, j, k, others);
    case DeleteOp(j) =>
      KeysOfKeep(l, j);
      WithoutMembers(Keys(l), j);
      if j != k {
        FrontWithout(Keys(l), k, j);
      }
    case DeletePrefixOp(prefix) =>
      KeysOfKeepUnprefixed(l, prefix);
      FrontWithoutPrefixed(Keys(l), k, prefix);
  }

  /** What `OthersAfter` says once `j` has been touched. */
  function Seen(j: Key, k: Key, others: Option<set<Key>>): Option<set<Key>> {
    if j == k then Some({})
    else match others case None => None case Some(s) => Some(s + {j})
  }

  lemma FrontAfterGet<V>(l: seq<Slot<V>>, capacity: Capacity, j: Key, k: Key, others: Option<set<Key>>)
    requires WellFormed(l, capacity) && FrontWithin(l, capacity, k, others)
    ensures FrontWithin(Get(l, j), capacity, k, if Lookup(l, j).Some? then Seen(j, k, others) else others)
  {
    LookupMember(l, j);
    KeysOfGet(l, j);
    MovedWithin(Keys(l), capacity, j, k, others);
  }

  lemma FrontAfterMove(ks: seq<Key>, j: Key, k: Key)
    ensures var moved := [j] + Without(ks, j);
      && (forall x :: x in moved <==> x in ks || x == j)
      && Front(moved, k) == if j == k then {} else Front(ks, k) + {j}
  {
    var moved := [j] + Without(ks, j);
    assert moved[1..] == Without(ks, j);
    WithoutMembers(ks, j);
    if j != k {
      FrontWithout(ks, k, j);
    }
  }

  lemma MovedWithin(ks: seq<Key>, capacity: Capacity, j: Key, k: Key, others: Option<set<Key>>)
    requires KeysWithin(ks, capacity, k, others)
    ensures KeysWithin([j] + Without(ks, j), capacity, k, Seen(j, k, others))
  {
    FrontAfterMove(ks, j, k);
    if others.Some? {
      SubsetSize(others.value, others.value + {j});
    }
  }

  lemma EvictedWithin(ks: seq<Key>, capacity: Capacity, j: Key, k: Key, others: Option<set<Key>>)
    requires KeysWithin(ks, capacity, k, others) && NoDuplicates(ks) && |ks| == capacity && j !in ks
    ensures KeysWithin([j] + ks[..|ks| - 1], capacity, k, Seen(j, k, others))
  {
    if j != k {
      FrontAfterEviction(ks, j, k);
      if others.Some? {
        SubsetSize(others.value, others.value + {j});
        if k in ks {
          SubsetSize(Front(ks, k) + {j}, others.value + {j});
        }
      }
    }
  }

  lemma FrontAfterPut<V>(l: seq<Slot<V>>, capacity: Capacity, j: Key, v: V, k: Key, others: Option<set<Key>>)
    requires WellFormed(l, capacity) && FrontWithin(l, capacity, k, others)
    ensures FrontWithin(Put(l, capacity, j, v), capacity, k, Seen(j, k, others))
  {
    KeysOfPut(l, capacity, j, v);
    if j in Keys(l) {
      MovedWithin(Keys(l), capacity, j, k, others);
    } else if |l| >= capacity {
      EvictedWithin(Keys(l), capacity, j, k, others);
    } else {
      WithoutMembers(Keys(l), j);
      MovedWithin(Keys(l), capacity, j, k, others);
    }
  }

  /** Pushing `j` and dropping the last key: either `k` stays with `j` now in front of it, or `k`
      was last and every key then counts as in front of it. */
  lemma FrontAfterEviction(ks: seq<Key>, j: Key, k: Key)
    requires NoDuplicates(ks) && ks != [] && j !in ks && j != k
    ensures var kept := [j] + ks[..|ks| - 1];
      if k !in ks then k !in kept
      else if k in kept then Front(kept, k) == Front(ks, k) + {j}
      else |Front(ks, k) + {j}| == |ks|
  {
    var rest := ks[..|ks| - 1];
    assert ks == rest + [ks[|ks| - 1]];
    assert ([j] + rest)[1..] == rest;
    FrontMembers(ks, k);
    if k in rest {
      FrontOfPrefix(rest, ks[|ks| - 1], k);
    } else if k in ks {
      FrontIsAll(rest, k);
      SizeOfAll(rest);
    }
  }

  lemma {:induction false} FrontOfPrefix(ks: seq<Key>, last: Key, k: Key)
    requires k in ks
    ensures Front(ks + [last], k) == Front(ks, k)
  {
    assert (ks + [last])[0] == ks[0];
    if ks[0] != k {
      assert (ks + [last])[1..] == ks[1..] + [last];
      FrontOfPrefix(ks[1..], last, k);
    }
  }

  lemma {:induction false} FrontIsAll(ks: seq<Key>, k: Key)
    requires k !in ks
    ensures Front(ks + [k], k) == set x | x in ks
  {
    if ks != [] {
      assert (ks + [k])[1..] == ks[1..] + [k];
      FrontIsAll(ks[1..], k);
    }
  }

  lemma {:induction false} SizeOfAll(ks: seq<Key>)
    requires NoDuplicates(ks)
    ensures |set x | x in ks| == |ks|
  {
    if ks != [] {
      SizeOfAll(ks[1..]);
      assert (set x | x in ks) == (set x | x in ks[1..]) + {ks[0]};
      assert ks[0] !in ks[1..];
    }
  }

  lemma {:induction false} SubsetSize(a: set<Key>, b: set<Key>)
    requires a <= b
    ensures |a| <= |b|
  {
    assert b == a + (b - a);
  }

  lemma {:induction false} FrontWithoutPrefixed(ks: seq<Key>, k: Key, prefix: string)
    ensures forall x :: x in WithoutPrefixed(ks, prefix) <==> x in ks && !HasPrefix(x, prefix)
    ensures !HasPrefix(k, prefix) ==> Front(WithoutPrefixed(ks, prefix), k) <= Front(ks, k)
  {
    if ks != [] {
      FrontWithoutPrefixed(ks[1..], k, prefix);
      if !HasPrefix(ks[0], prefix) {
        assert WithoutPrefixed(ks, prefix)[1..] == WithoutPrefixed(ks[1..], prefix);
      }
    }
  }

  /** In any history, deletions included: a key that has been touched, not deleted since, and
      followed by fewer than `capacity` other touched keys is still cached; and only a key
      touched and not deleted since can be cached. */
  lemma RetainedDespiteDeletions<V>(capacity: Capacity, ops: seq<Op<V>>, k: Key)
    ensures OthersSince(capacity, ops, k).Some? && |OthersSince(capacity, ops, k).value| < capacity
         ==> Lookup(Run(capacity, ops), k).Some?
    ensures Lookup(Run(capacity, ops), k).Some? ==> OthersSince(capacity, ops, k).Some?
  {
    FrontWithinAll(capacity, ops, k);
    LookupMember(Run(capacity, ops), k);
  }
}
