/** Freshness of the engine, said of the calls themselves
    (languageserver/server2/snapshot.go with languageserver/server2/analysis.go).

    A root entry is dropped by the first change of anything its import handler was served, directly or
    through a cached root entry it was built on; until then the cache may hold it, and the recorded
    imports lead from it to all of that. */
module EngineFreshness {
  import opened Prelude
  import opened ImportGraph
  import opened Recency
  import opened HostSpec
  import opened AnalysisSpec
  import opened Freshness
  import opened TracedAnalysis
  import opened AnalysisRuns

  predicate Changes<C>(call: Call<C>, k: Key) {
    (call.UpdateCall? || call.RemoveCall?) && CanonicalCacheKey(call.uri) == k
  }

  // ------------------------------------------------------------ by stamps

  lemma VersionsGrow<C>(w: World<C>, call: Call<C>, k: Key)
    ensures VersionOf(PerformTraced(w, call).versions, k)
         == VersionOf(w.versions, k) + if Changes(call, k) then 1 else 0
  {
  }

  lemma {:induction false} VersionsGrowAll<C>(w: World<C>, calls: seq<Call<C>>, k: Key)
    ensures VersionOf(PerformAllTraced(w, calls).versions, k) >= VersionOf(w.versions, k)
    ensures (exists call | call in calls :: Changes(call, k)) ==>
              VersionOf(PerformAllTraced(w, calls).versions, k) > VersionOf(w.versions, k)
    decreases |calls|
  {
    if calls != [] {
      VersionsGrow(w, calls[0], k);
      VersionsGrowAll(PerformTraced(w, calls[0]), calls[1..], k);
      assert calls == [calls[0]] + calls[1..];
    }
  }

  lemma {:induction false} PerformConcat<C>(w: World<C>, first: seq<Call<C>>, second: seq<Call<C>>)
    ensures PerformAllTraced(w, first + second) == PerformAllTraced(PerformAllTraced(w, first), second)
    decreases |first|
  {
    if first == [] {
      assert first + second == second;
    } else {
      assert (first + second)[1..] == first[1..] + second;
      PerformConcat(PerformTraced(w, first[0]), first[1..], second);
    }
  }

  /** A change of anything an entry is stamped with drops the entry for good. */
  lemma StampedEntryDropped<C>(capacity: Capacity, before: seq<Call<C>>, after: seq<Call<C>>,
                               slot: Slot<Tagged<C>>, k: Key)
    requires slot in TracedAfter<C>(capacity, before).host.cache
    requires Mentions(slot.entry.stamps, k) && exists call | call in after :: Changes(call, k)
    ensures slot !in TracedAfter<C>(capacity, before + after).host.cache
  {
    var w := TracedAfter<C>(capacity, before);
    PerformConcat(Init<C>(capacity), before, after);
    VersionsGrowAll(w, after, k);
    EngineIsFresh(capacity, before, slot);
    var s :| s in slot.entry.stamps && s.key == k;
    assert s.version != VersionOf(PerformAllTraced(w, after).versions, k);
    if slot in TracedAfter<C>(capacity, before + after).host.cache {
      EngineIsFresh(capacity, before + after, slot);
    }
  }

  // ------------------------------------------------------------- by calls

  /** The state in which the import handler starts. */
  function AtStart<C>(s: Host<C>, call: Call<C>): Host<C> {
    if call.DemandCall? then s.(cache := Get(s.cache, CanonicalCacheKey(call.uri))) else s
  }

  /** The call caches a root entry of its document. */
  predicate Commits<C>(s: Host<C>, call: Call<C>)
  {
    && (call.AnalyzeCall? || call.DemandCall?)
    && (call.DemandCall? ==> !Usable(Lookup(s.cache, CanonicalCacheKey(call.uri))))
    && Analyzed(AtStart(s, call), s.docs, call.uri, call.script).1.checker.Some?
  }

  function Committed<C>(call: Call<C>): Slot<CheckerEntry<C>>
    requires call.AnalyzeCall? || call.DemandCall?
  {
    Slot(CanonicalCacheKey(call.uri), CheckerEntry(call.script.checker, true))
  }

  /** What the entry is made from: the document and everything its import handler is served. */
  function ServedIn<C>(s: Host<C>, call: Call<C>): set<Key>
    requires (call.AnalyzeCall? || call.DemandCall?)
  {
    var root := CanonicalCacheKey(call.uri);
    ServedBy(AtStart(s, call), root, call.script.imports) + {root}
  }

  /** The checkers a call may cache.  A checker is a new object, so no two calls share one. */
  function Checkers<C>(call: Call<C>): set<C> {
    if call.AnalyzeCall? || call.DemandCall? then
      AllSubCheckers(call.script.imports) + (if call.script.checker.Some? then {call.script.checker.value} else {})
    else {}
  }

  ghost predicate Extends(g: Edges, h: Edges) {
    forall x :: Targets(g, x) <= Targets(h, x)
  }

  lemma ReachesInMore(g: Edges, h: Edges, a: Key, b: Key)
    requires Extends(g, h) && Reaches(g, a, b)
    ensures Reaches(h, a, b)
  {
    ReachesIn(g, h, a, b, Everywhere(), Everywhere());
  }

  /** Serving an import adds an edge from the root to everything served, and no other edge. */
  lemma {:induction false} ServeEdges<C>(s: Host<C>, root: Key, imp: Import<C>, a: Key, b: Key)
    ensures HasEdge(Serve(s, root, imp).imports, a, b) <==>
              HasEdge(s.imports, a, b) || (a == root && b in Served(s, root, imp))
    decreases imp, 1
  {
    if !Usable(Lookup(s.cache, imp.key)) && imp.reply.Resolved? {
      ServeAllEdges(s.(cache := Get(s.cache, imp.key)), root, imp.reply.nested, a, b);
    }
  }

  lemma {:induction false} ServeAllEdges<C>(s: Host<C>, root: Key, imports: seq<Import<C>>, a: Key, b: Key)
    ensures HasEdge(ServeAll(s, root, imports).imports, a, b) <==>
              HasEdge(s.imports, a, b) || (a == root && b in ServedBy(s, root, imports))
    decreases imports, 0
  {
    if imports != [] {
      ServeEdges(s, root, imports[0], a, b);
      ServeAllEdges(Serve(s, root, imports[0]), root, imports[1..], a, b);
    }
  }

  /** The call runs its import handler. */
  predicate Serves<C>(s: Host<C>, call: Call<C>)
  {
    && (call.AnalyzeCall? || call.DemandCall?)
    && (call.DemandCall? ==> !Usable(Lookup(s.cache, CanonicalCacheKey(call.uri))))
    && RunsChecker(s.docs, call.uri, call.script)
  }

  /** The import handler of the call serves `b` to the document of `a`. */
  predicate Records<C>(s: Host<C>, call: Call<C>, a: Key, b: Key) {
    Serves(s, call) && a == "S." + call.uri && b in ServedBy(AtStart(s, call), a, call.script.imports)
  }

  /** A call adds the edges from its document to what its handler serves; a removal takes away those that
      leave the removed document; nothing else changes an edge. */
  lemma PerformEdges<C>(s: Host<C>, call: Call<C>, a: Key, b: Key)
    ensures HasEdge(Perform(s, call).imports, a, b) <==>
      if call.RemoveCall? then HasEdge(s.imports, a, b) && a != "S." + call.uri
      else HasEdge(s.imports, a, b) || Records(s, call, a, b)
  {
    if Serves(s, call) {
      ServeAllEdges(AtStart(s, call), CanonicalCacheKey(call.uri), call.script.imports, a, b);
    }
  }

  lemma PerformExtends<C>(s: Host<C>, call: Call<C>)
    requires !call.RemoveCall?
    ensures Extends(s.imports, Perform(s, call).imports)
  {
    forall a, b | b in Targets(s.imports, a)
      ensures b in Targets(Perform(s, call).imports, a)
    {
      PerformEdges(s, call, a, b);
    }
  }

  /** A committed entry is cached, and reaches what it is made from and what that reaches. */
  lemma CommitReaches<C>(s: Host<C>, call: Call<C>, b: Key, k: Key)
    requires Commits(s, call) && b in ServedIn(s, call)
    requires b == k || Reaches(s.imports, b, k)
    ensures Committed(call) in Perform(s, call).cache
    ensures Reaches(Perform(s, call).imports, Committed(call).key, k)
  {
    var root, end := CanonicalCacheKey(call.uri), Perform(s, call).imports;
    var start := AtStart(s, call);
    CommitsIffNotCancelled(start, s.docs, call.uri, call.script);
    assert Perform(s, call) == Analyzed(start, s.docs, call.uri, call.script).0;
    PerformExtends(s, call);
    PerformEdges(s, call, root, b);
    if b == k {
      ReachesSelf(end, k, Everywhere());
    } else {
      ReachesInMore(s.imports, end, b, k);
    }
    if b != root {
      assert HasEdge(end, root, b);
      ReachesStep(end, root, b, k, Everywhere());
    }
  }

  lemma AnalyzedAdds<C>(s: Host<C>, documents: map<Key, Document>, uri: Key, script: Script<C>,
                        slot: Slot<CheckerEntry<C>>)
    requires slot in Analyzed(s, documents, uri, script).0.cache && slot.entry.checker.Some?
    requires slot.entry.checker.value !in AllSubCheckers(script.imports) && slot.entry.checker != script.checker
    ensures slot in s.cache
  {
    var root := CanonicalCacheKey(uri);
    var served := ServeAll(s, root, script.imports);
    ServeAllAdds(s, root, script.imports);
    PutMembers(served.cache, served.capacity, root, CheckerEntry(script.checker, true));
  }

  /** A call that caches other checkers only keeps an entry's paths, or drops the entry. */
  lemma PerformKeepsReach<C>(s: Host<C>, call: Call<C>, slot: Slot<CheckerEntry<C>>, k: Key)
    requires slot.entry.checker.Some? && slot.entry.checker.value !in Checkers(call)
    requires slot in s.cache ==> Reaches(s.imports, slot.key, k)
    ensures slot in Perform(s, call).cache ==>
              slot in s.cache && Reaches(Perform(s, call).imports, slot.key, k) && !Changes(call, k)
  {
    if slot in Perform(s, call).cache {
      if call.UpdateCall? || call.RemoveCall? {
        ChangeKeepsReach(s, call, slot, k);
      } else {
        var start := AtStart(s, call);
        GetMembers(s.cache, CanonicalCacheKey(call.uri));
        PerformExtends(s, call);
        if slot !in start.cache {
          AnalyzedAdds(start, s.docs, call.uri, call.script, slot);
        }
        ReachesInMore(s.imports, Perform(s, call).imports, slot.key, k);
      }
    }
  }

  lemma ChangeKeepsReach<C>(s: Host<C>, call: Call<C>, slot: Slot<CheckerEntry<C>>, k: Key)
    requires (call.UpdateCall? || call.RemoveCall?)
    requires slot in s.cache ==> Reaches(s.imports, slot.key, k)
    requires slot in Perform(s, call).cache
    ensures slot in s.cache && Reaches(Perform(s, call).imports, slot.key, k) && !Changes(call, k)
  {
    var u := CanonicalCacheKey(call.uri);
    KeepMembers(s.cache, Invalidated(s.imports, u));
    DependentsExact(s.imports, u, slot.key);
    ClearKeepsPathsOfOthers(s.imports, u, slot.key, k, Everywhere());
  }

  lemma {:induction false} PerformAllKeepsReach<C>(s: Host<C>, calls: seq<Call<C>>, slot: Slot<CheckerEntry<C>>, k: Key)
    requires slot.entry.checker.Some?
    requires forall call | call in calls :: slot.entry.checker.value !in Checkers(call)
    requires slot in s.cache ==> Reaches(s.imports, slot.key, k)
    ensures slot in PerformAll(s, calls).cache ==>
              && slot in s.cache && Reaches(PerformAll(s, calls).imports, slot.key, k)
              && forall call | call in calls :: !Changes(call, k)
    decreases |calls|
  {
    if calls != [] {
      PerformKeepsReach(s, calls[0], slot, k);
      PerformAllKeepsReach(Perform(s, calls[0]), calls[1..], slot, k);
      assert calls == [calls[0]] + calls[1..];
    }
  }

  /** In any state, a call that commits, and any further calls that cache other checkers: once one of
      them has changed something the entry is made from, the entry is not in the cache; and while it
      is, the recorded imports lead from it to all of that. */
  lemma EntryNeverOutlives<C>(s: Host<C>, call: Call<C>, after: seq<Call<C>>, k: Key)
    requires Commits(s, call) && k in ServedIn(s, call)
    requires forall later | later in after :: call.script.checker.value !in Checkers(later)
    ensures Committed(call) in Perform(s, call).cache
    ensures var end := PerformAll(Perform(s, call), after);
      && ((exists later | later in after :: Changes(later, k)) ==> Committed(call) !in end.cache)
      && (Committed(call) in end.cache ==> Reaches(end.imports, Committed(call).key, k))
  {
    CommitReaches(s, call, k, k);
    PerformAllKeepsReach(Perform(s, call), after, Committed(call), k);
  }

  /** The same for what a cached root entry is made from that the import handler serves: `first`
      commits an entry, which is still cached when `call` commits another one built on it. */
  lemma BuiltOnNeverOutlives<C>(s: Host<C>, first: Call<C>, between: seq<Call<C>>, call: Call<C>,
                                after: seq<Call<C>>, k: Key)
    requires Commits(s, first) && k in ServedIn(s, first)
    requires forall later | later in between :: first.script.checker.value !in Checkers(later)
    requires var mid := PerformAll(Perform(s, first), between);
      && Committed(first) in mid.cache
      && Commits(mid, call) && Committed(first).key in ServedIn(mid, call)
    requires forall later | later in after :: call.script.checker.value !in Checkers(later)
    ensures var end := PerformAll(Perform(PerformAll(Perform(s, first), between), call), after);
      && ((exists later | later in after :: Changes(later, k)) ==> Committed(call) !in end.cache)
      && (Committed(call) in end.cache ==> Reaches(end.imports, Committed(call).key, k))
  {
    var mid := PerformAll(Perform(s, first), between);
    EntryNeverOutlives(s, first, between, k);
    CommitReaches(mid, call, Committed(first).key, k);
    PerformAllKeepsReach(Perform(mid, call), after, Committed(call), k);
  }
}
