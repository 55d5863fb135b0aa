/** What the methods compute, with the ghost stamps of `Freshness` written in
    (languageserver/server2/analysis.go).

    These functions follow `AnalysisSpec` step by step, for an analysis that no change overlaps, and
    say of every cached entry what it was made from: a root entry carries the stamps of everything
    its import handler was served, those of the entries it was served included. */
module TracedAnalysis {
  import opened Prelude
  import opened ImportGraph
  import opened Recency
  import opened HostSpec
  import opened AnalysisSpec
  import opened Freshness

  // ----------------------------------------------------------------- erasure

  /** Forgets the ghost stamps. */
  function Erase<C>(l: seq<Slot<Tagged<C>>>): seq<Slot<CheckerEntry<C>>> {
    if l == [] then []
    else [Slot(l[0].key, CheckerEntry(Some(l[0].entry.checker), true))] + Erase(l[1..])
  }

  function EraseHost<C>(h: HostState<Tagged<C>>): Host<C> {
    HostState(h.revision, h.docs, h.capacity, Erase(h.cache), h.imports)
  }

  lemma {:induction false} EraseLookup<C>(l: seq<Slot<Tagged<C>>>, k: Key)
    ensures |Erase(l)| == |l|
    ensures Lookup(Erase(l), k)
         == match Lookup(l, k) case None => None case Some(t) => Some(CheckerEntry(Some(t.checker), true))
  {
    if l != [] {
      EraseLookup(l[1..], k);
      assert Erase(l)[1..] == Erase(l[1..]);
    }
  }

  lemma {:induction false} EraseKeep<C>(l: seq<Slot<Tagged<C>>>, dead: set<Key>)
    ensures Erase(Keep(l, dead)) == Keep(Erase(l), dead)
  {
    if l != [] {
      EraseKeep(l[1..], dead);
      assert Erase(l)[1..] == Erase(l[1..]);
      if l[0].key !in dead {
        assert Keep(l, dead)[1..] == Keep(l[1..], dead);
      }
    }
  }

  lemma {:induction false} EraseDropLast<C>(l: seq<Slot<Tagged<C>>>)
    requires l != []
    ensures |Erase(l)| == |l|
    ensures Erase(l[..|l| - 1]) == Erase(l)[..|l| - 1]
  {
    if |l| > 1 {
      EraseDropLast(l[1..]);
      assert l[..|l| - 1][1..] == l[1..][..|l| - 2];
    }
  }

  lemma EraseGet<C>(l: seq<Slot<Tagged<C>>>, k: Key)
    ensures Erase(Get(l, k)) == Get(Erase(l), k)
  {
    EraseLookup(l, k);
    EraseKeep(l, {k});
    if Lookup(l, k).Some? {
      assert Get(l, k)[1..] == Keep(l, {k});
    }
  }

  lemma ErasePut<C>(l: seq<Slot<Tagged<C>>>, capacity: Capacity, k: Key, t: Tagged<C>)
    ensures Erase(Put(l, capacity, k, t)) == Put(Erase(l), capacity, k, CheckerEntry(Some(t.checker), true))
  {
    EraseLookup(l, k);
    EraseKeep(l, {k});
    var rest := Put(l, capacity, k, t)[1..];
    assert Put(l, capacity, k, t) == [Slot(k, t)] + rest;
    if Lookup(l, k).None? && |l| >= capacity {
      EraseDropLast(l);
      assert rest == l[..|l| - 1];
    } else if Lookup(l, k).None? {
      assert rest == l;
    } else {
      assert rest == Keep(l, {k});
    }
  }

  // ------------------------------------------------------------ traced states

  /** An analysis between two imports: the shared state and what it has been served so far. */
  datatype Pass<+C> = Pass(host: HostState<Tagged<C>>, stamps: set<Stamp>, overlapped: bool)

  /** An import is served: its stamps are taken over, and the edge from the root is recorded. */
  function Linked<C>(p: Pass<C>, root: Key, key: Key, entry: Tagged<C>): Pass<C> {
    Pass(p.host.(imports := WithEdge(p.host.imports, root, key)),
         p.stamps + entry.stamps,
         p.overlapped || entry.overlapped)
  }

  /** A sub-checker's entry names its own key only: all edges leave the root. */
  function SubEntry<C>(versions: map<Key, nat>, key: Key, subChecker: C): Tagged<C> {
    Tagged(subChecker, {Stamp(key, VersionOf(versions, key))}, false)
  }

  function PutTraced<C>(p: Pass<C>, key: Key, entry: Tagged<C>): Pass<C>
  {
    p.(host := p.host.(cache := Put(p.host.cache, p.host.capacity, key, entry)))
  }

  function ServeTraced<C>(p: Pass<C>, versions: map<Key, nat>, root: Key, imp: Import<C>): Pass<C>
    decreases imp, 1
  {
    var found := Lookup(p.host.cache, imp.key);
    var touched := p.(host := p.host.(cache := Get(p.host.cache, imp.key)));
    if found.Some? then Linked(touched, root, imp.key, found.value)
    else
      match imp.reply
      case Unresolved => touched
      case Resolved(nested, subChecker) =>
        var entry := SubEntry(versions, imp.key, subChecker);
        Linked(PutTraced(ServeAllTraced(touched, versions, root, nested), imp.key, entry), root, imp.key, entry)
  }

  function ServeAllTraced<C>(p: Pass<C>, versions: map<Key, nat>, root: Key, imports: seq<Import<C>>): Pass<C>
    decreases imports, 0
  {
    if imports == [] then p
    else ServeAllTraced(ServeTraced(p, versions, root, imports[0]), versions, root, imports[1..])
  }

  /** The start of a check: nothing served but the document itself. */
  function Opening<C>(w: World<C>, root: Key): Pass<C> {
    Pass(w.host, {Stamp(root, VersionOf(w.versions, root))}, false)
  }

  /** The analysis gets as far as running the checker. */
  predicate RunsChecker<C>(docs: map<Key, Document>, uri: Key, script: Script<C>) {
    Checks(docs, uri, script) && script.checker.Some?
  }

  function AnalyzeTraced<C>(w: World<C>, uri: Key, script: Script<C>): World<C>
  {
    if !RunsChecker(w.host.docs, uri, script) then w
    else
      var root := CanonicalCacheKey(uri);
      var served := ServeAllTraced(Opening(w, root), w.versions, root, script.imports);
      if script.cancelledAfterCheck then w.(host := served.host)
      else w.(host := PutTraced(served, root, Tagged(script.checker.value, served.stamps, served.overlapped)).host)
  }

  function Touched<C>(w: World<C>, key: Key): World<C> {
    w.(host := w.host.(cache := Get(w.host.cache, key)))
  }

  function DemandTraced<C>(w: World<C>, uri: Key, script: Script<C>): World<C>
  {
    var key := CanonicalCacheKey(uri);
    if Lookup(w.host.cache, key).Some? || uri !in w.host.docs then Touched(w, key)
    else AnalyzeTraced(Touched(w, key), uri, script)
  }

  // --------------------------------------- the stamps change nothing else

  lemma {:induction false} EraseServe<C>(p: Pass<C>, versions: map<Key, nat>, root: Key, imp: Import<C>)
    ensures EraseHost(ServeTraced(p, versions, root, imp).host) == Serve(EraseHost(p.host), root, imp)
    decreases imp, 1
  {
    EraseLookup(p.host.cache, imp.key);
    EraseGet(p.host.cache, imp.key);
    if Lookup(p.host.cache, imp.key).None? && imp.reply.Resolved? {
      var touched := p.(host := p.host.(cache := Get(p.host.cache, imp.key)));
      EraseServeAll(touched, versions, root, imp.reply.nested);
      var served := ServeAllTraced(touched, versions, root, imp.reply.nested);
      ErasePut(served.host.cache, served.host.capacity, imp.key,
               SubEntry(versions, imp.key, imp.reply.subChecker));
    }
  }

  lemma {:induction false} EraseServeAll<C>(p: Pass<C>, versions: map<Key, nat>, root: Key, imports: seq<Import<C>>)
    ensures EraseHost(ServeAllTraced(p, versions, root, imports).host) == ServeAll(EraseHost(p.host), root, imports)
    decreases imports, 0
  {
    if imports != [] {
      EraseServe(p, versions, root, imports[0]);
      EraseServeAll(ServeTraced(p, versions, root, imports[0]), versions, root, imports[1..]);
    }
  }

  lemma EraseAnalyze<C>(w: World<C>, uri: Key, script: Script<C>)
    ensures EraseHost(AnalyzeTraced(w, uri, script).host) == Analyzed(EraseHost(w.host), w.host.docs, uri, script).0
  {
    if RunsChecker(w.host.docs, uri, script) {
      var root := CanonicalCacheKey(uri);
      var served := ServeAllTraced(Opening(w, root), w.versions, root, script.imports);
      EraseServeAll(Opening(w, root), w.versions, root, script.imports);
      ErasePut(served.host.cache, served.host.capacity, root,
               Tagged(script.checker.value, served.stamps, served.overlapped));
    }
  }

  lemma EraseDemand<C>(w: World<C>, uri: Key, script: Script<C>)
    ensures EraseHost(DemandTraced(w, uri, script).host) == CheckedOnDemand(EraseHost(w.host), uri, script).0
  {
    EraseLookup(w.host.cache, CanonicalCacheKey(uri));
    EraseGet(w.host.cache, CanonicalCacheKey(uri));
    EraseAnalyze(Touched(w, CanonicalCacheKey(uri)), uri, script);
  }

  // -------------------------------------------------- what the stamps mention

  /** Every cached entry is stamped with its own key. */
  ghost predicate OwnStamped<C>(l: seq<Slot<Tagged<C>>>) {
    forall s | s in l :: Mentions(s.entry.stamps, s.key)
  }

  /** Serving an import only adds stamps, on a hit all those of the served entry, and keeps every entry
      stamped with its own key; afterwards the analysis is stamped with every key it was served. */
  lemma {:induction false} ServeStamps<C>(p: Pass<C>, versions: map<Key, nat>, root: Key, imp: Import<C>)
    requires OwnStamped(p.host.cache)
    ensures var q := ServeTraced(p, versions, root, imp);
      && OwnStamped(q.host.cache)
      && p.stamps <= q.stamps
      && (Lookup(p.host.cache, imp.key).Some? ==> Lookup(p.host.cache, imp.key).value.stamps <= q.stamps)
      && forall k | k in Served(EraseHost(p.host), root, imp) :: Mentions(q.stamps, k)
    decreases imp, 1
  {
    EraseLookup(p.host.cache, imp.key);
    EraseGet(p.host.cache, imp.key);
    LookupMember(p.host.cache, imp.key);
    GetMembers(p.host.cache, imp.key);
    var touched := p.(host := p.host.(cache := Get(p.host.cache, imp.key)));
    var found := Lookup(p.host.cache, imp.key);
    if found.Some? {
      assert Mentions(found.value.stamps, imp.key);
    } else if imp.reply.Resolved? {
      ServeAllStamps(touched, versions, root, imp.reply.nested);
      StoreStamps(ServeAllTraced(touched, versions, root, imp.reply.nested), versions, root, imp.key,
                  imp.reply.subChecker);
    }
  }

  lemma StoreStamps<C>(p: Pass<C>, versions: map<Key, nat>, root: Key, key: Key, subChecker: C)
    requires OwnStamped(p.host.cache)
    ensures var entry := SubEntry(versions, key, subChecker);
      var q := Linked(PutTraced(p, key, entry), root, key, entry);
      && OwnStamped(q.host.cache) && p.stamps <= q.stamps
      && Mentions(q.stamps, key) && forall k | Mentions(p.stamps, k) :: Mentions(q.stamps, k)
  {
    var entry := SubEntry(versions, key, subChecker);
    assert Stamp(key, VersionOf(versions, key)) in entry.stamps;
    PutMembers(p.host.cache, p.host.capacity, key, entry);
  }

  lemma {:induction false} ServeAllStamps<C>(p: Pass<C>, versions: map<Key, nat>, root: Key, imports: seq<Import<C>>)
    requires OwnStamped(p.host.cache)
    ensures var q := ServeAllTraced(p, versions, root, imports);
      && OwnStamped(q.host.cache)
      && p.stamps <= q.stamps
      && forall k | k in ServedBy(EraseHost(p.host), root, imports) :: Mentions(q.stamps, k)
    decreases imports, 0
  {
    if imports != [] {
      var first := ServeTraced(p, versions, root, imports[0]);
      EraseServe(p, versions, root, imports[0]);
      ServeStamps(p, versions, root, imports[0]);
      ServeAllStamps(first, versions, root, imports[1..]);
    }
  }

  /** The entry that an analysis commits is stamped with the document, with every key its handler was
      served, and with whatever the entries it was served are stamped with. */
  lemma CommittedStamps<C>(w: World<C>, uri: Key, script: Script<C>)
    requires OwnStamped(w.host.cache)
    requires RunsChecker(w.host.docs, uri, script) && !script.cancelledAfterCheck
    ensures var root := CanonicalCacheKey(uri);
      var after := AnalyzeTraced(w, uri, script).host.cache;
      && after != [] && after[0].key == root && after[0].entry.checker == script.checker.value
      && Mentions(after[0].entry.stamps, root)
      && forall k | k in ServedBy(EraseHost(w.host), root, script.imports) :: Mentions(after[0].entry.stamps, k)
  {
    var root := CanonicalCacheKey(uri);
    var start := Opening(w, root);
    ServeAllStamps(start, w.versions, root, script.imports);
    assert Stamp(root, VersionOf(w.versions, root)) in start.stamps;
  }
}
