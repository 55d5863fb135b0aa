/** One analysis of a document (languageserver/server2/analysis.go).

    The parser, the checker and the import resolver are libraries.  An analysis is therefore given
    a `Script`: what the parser says, which imports the checker asks for, what the resolver
    answers, and at which of the three checks the context is found cancelled.  Everything the
    server itself does with its cache and its graph is modelled. */
module AnalysisSpec {
  import opened Prelude
  import opened ImportGraph
  import opened Recency
  import opened HostSpec

  datatype CheckerEntry<+C> = CheckerEntry(checker: Option<C>, valid: bool)

  /** One call of the import handler.  While a sub-checker runs it may ask for more imports. */
  datatype Import<+C> = Import(key: Key, reply: Reply<C>)

  /** `Unresolved` stands for a missing resolver, a resolver or parse error, or no sub-checker. */
  datatype Reply<+C> = Unresolved | Resolved(nested: seq<Import<C>>, subChecker: C)

  datatype Program = Program(soleContract: bool, soleContractInterface: bool, soleTransaction: bool)

  datatype FileKind = Unknown | Script | Contract | Transaction

  datatype Script<+C> = Script(
    cancelledAtStart: bool,
    program: Option<Program>,
    parseDiagnostics: seq<string>,
    cancelledAfterParse: bool,
    checker: Option<C>,              // `None`: the checker could not be created
    creationDiagnostics: seq<string>,
    imports: seq<Import<C>>,
    checkDiagnostics: seq<string>,
    cancelledAfterCheck: bool
  )

  datatype AnalysisResult<+C> = AnalysisResult(
    uri: Key,
    checker: Option<C>,
    program: Option<Program>,
    diagnostics: seq<string>,
    fileKind: FileKind,
    cancelled: bool
  )

  const DOCUMENT_NOT_FOUND := "document not found"

  type Host<C> = HostState<CheckerEntry<C>>

  function DecideFileKind(program: Program): FileKind {
    if program.soleContract || program.soleContractInterface then FileKind.Contract
    else if program.soleTransaction then FileKind.Transaction
    else FileKind.Script
  }

  predicate Usable<C>(e: Option<CheckerEntry<C>>) {
    e.Some? && e.value.valid && e.value.checker.Some?
  }

  /** The import handler, called for root document `root`.  Edges always leave `root`. */
  function Serve<C>(s: Host<C>, root: Key, imp: Import<C>): Host<C>
    ensures var t := Serve(s, root, imp); t.capacity == s.capacity && t.docs == s.docs && t.revision == s.revision
    decreases imp, 1
  {
    var s1 := s.(cache := Get(s.cache, imp.key));
    if Usable(Lookup(s.cache, imp.key)) then s1.(imports := WithEdge(s1.imports, root, imp.key))
    else
      match imp.reply
      case Unresolved => s1
      case Resolved(nested, subChecker) =>
        Stored(ServeAll(s1, root, nested), root, imp.key, subChecker)
  }

  function Stored<C>(s: Host<C>, root: Key, key: Key, subChecker: C): Host<C>
  {
    s.(cache := Put(s.cache, s.capacity, key, CheckerEntry(Some(subChecker), true)),
       imports := WithEdge(s.imports, root, key))
  }

  function ServeAll<C>(s: Host<C>, root: Key, imports: seq<Import<C>>): Host<C>
    ensures var t := ServeAll(s, root, imports);
      t.capacity == s.capacity && t.docs == s.docs && t.revision == s.revision
    decreases imports, 0
  {
    if imports == [] then s
    else
      ServeAll(Serve(s, root, imports[0]), root, imports[1..])
  }

  /** The keys that the import handler serves: those found in the cache, and those checked and stored,
      with everything they ask for.  A key that cannot be resolved is not served. */
  function Served<C>(s: Host<C>, root: Key, imp: Import<C>): set<Key>
    decreases imp, 1
  {
    if Usable(Lookup(s.cache, imp.key)) then {imp.key}
    else
      match imp.reply
      case Unresolved => {}
      case Resolved(nested, _) => ServedBy(s.(cache := Get(s.cache, imp.key)), root, nested) + {imp.key}
  }

  function ServedBy<C>(s: Host<C>, root: Key, imports: seq<Import<C>>): set<Key>
    decreases imports, 0
  {
    if imports == [] then {}
    else Served(s, root, imports[0]) + ServedBy(Serve(s, root, imports[0]), root, imports[1..])
  }

  /** The document is parsed. */
  predicate Parses<C>(documents: map<Key, Document>, uri: Key, script: Script<C>) {
    !script.cancelledAtStart && uri in documents
  }

  /** There is a program, and the analysis goes on to create a checker. */
  predicate Checks<C>(documents: map<Key, Document>, uri: Key, script: Script<C>) {
    Parses(documents, uri, script) && script.program.Some? && !script.cancelledAfterParse
  }

  /** A result says what the stages that were reached found, in their order, and nothing else. */
  ghost predicate ReportsStages<C>(result: AnalysisResult<C>, documents: map<Key, Document>, uri: Key,
                                   script: Script<C>) {
    var parses, checks := Parses(documents, uri, script), Checks(documents, uri, script);
    && result.uri == uri
    && result.diagnostics
       == (if !script.cancelledAtStart && uri !in documents then ["document not found"] else [])
          + (if parses then script.parseDiagnostics else [])
          + (if checks && script.checker.None? then script.creationDiagnostics else [])
          + (if checks && script.checker.Some? then script.checkDiagnostics else [])
    && result.program == (if parses then script.program else None)
    && (result.fileKind.Unknown? <==> result.program.None?)
    && (result.fileKind.Contract? <==>
          result.program.Some? && (result.program.value.soleContract || result.program.value.soleContractInterface))
    && (result.fileKind.Transaction? <==>
          && result.program.Some? && result.program.value.soleTransaction
          && !result.program.value.soleContract && !result.program.value.soleContractInterface)
    && (result.cancelled <==>
          || script.cancelledAtStart
          || (parses && script.program.Some? && script.cancelledAfterParse)
          || (checks && script.checker.Some? && script.cancelledAfterCheck))
    && result.checker == (if checks && !script.cancelledAfterCheck then script.checker else None)
  }

  /** The state and the result after analysing `uri` as it was when `documents` were copied. */
  function Analyzed<C>(s: Host<C>, documents: map<Key, Document>, uri: Key, script: Script<C>)
    : (Host<C>, AnalysisResult<C>)
  {
    var start := AnalysisResult(uri, None, None, [], FileKind.Unknown, false);
    if script.cancelledAtStart then (s, start.(cancelled := true))
    else if uri !in documents then (s, start.(diagnostics := [DOCUMENT_NOT_FOUND]))
    else
      var parsed := start.(diagnostics := script.parseDiagnostics);
      if script.program.None? then (s, parsed)
      else
        var kinded := parsed.(program := script.program, fileKind := DecideFileKind(script.program.value));
        if script.cancelledAfterParse then (s, kinded.(cancelled := true))
        else if script.checker.None? then
          (s, kinded.(diagnostics := kinded.diagnostics + script.creationDiagnostics))
        else
          var root := CanonicalCacheKey(uri);
          var served := ServeAll(s, root, script.imports);
          var checked := kinded.(diagnostics := kinded.diagnostics + script.checkDiagnostics);
          if script.cancelledAfterCheck then (served, checked.(cancelled := true))
          else
            (served.(cache := Put(served.cache, served.capacity, root, CheckerEntry(script.checker, true))),
             checked.(checker := script.checker))
  }

  lemma AnalyzedReports<C>(s: Host<C>, documents: map<Key, Document>, uri: Key, script: Script<C>)
    ensures var (after, result) := Analyzed(s, documents, uri, script);
      && ReportsStages(result, documents, uri, script)
      && (!Checks(documents, uri, script) || script.checker.None? ==> after == s)
  {
  }

  /** A request that needs the checker of `uri` now, under a context that is never cancelled. */
  function CheckedOnDemand<C>(s: Host<C>, uri: Key, script: Script<C>): (Host<C>, Option<C>)
  {
    var found := Lookup(s.cache, CanonicalCacheKey(uri));
    var touched := s.(cache := Get(s.cache, CanonicalCacheKey(uri)));
    if Usable(found) then (touched, found.value.checker)
    else if uri !in s.docs then (touched, None)
    else
      var (after, result) := Analyzed(touched, s.docs, uri, script);
      (after, result.checker)
  }

  /** Whatever is returned on demand is at the front of the cache under the document's key, so the
      next request finds it. */
  lemma OnDemandIsCached<C>(s: Host<C>, uri: Key, script: Script<C>)
    ensures var (after, checker) := CheckedOnDemand(s, uri, script);
      checker.Some? ==>
        && after.cache != [] && after.cache[0].key == CanonicalCacheKey(uri)
        && after.cache[0].entry.checker == checker
        && CheckedOnDemand(after, uri, script).1 == checker
  {
    CommitsIffNotCancelled(s.(cache := Get(s.cache, CanonicalCacheKey(uri))), s.docs, uri, script);
  }

  /** A request gets the cached checker if there is a valid one, and otherwise the one that the analysis
      of the open document ends with. */
  lemma OnDemandAnswer<C>(s: Host<C>, uri: Key, script: Script<C>)
    ensures var found: Option<CheckerEntry<C>> := Lookup(s.cache, "S." + uri);
      CheckedOnDemand(s, uri, script).1
      == match found
         case Some(CheckerEntry(Some(c), true)) => Some(c)
         case _ => if Checks(s.docs, uri, script) && !script.cancelledAfterCheck then script.checker else None
  {
  }

  /** What serving an import leaves under its key: a valid checker that was there, else the sub-checker;
      and in both cases an edge from the root.  One that cannot be resolved leaves what was there. */
  lemma ServeLeaves<C>(s: Host<C>, root: Key, imp: Import<C>)
    ensures var found: Option<CheckerEntry<C>> := Lookup(s.cache, imp.key);
      var t := Serve(s, root, imp);
      match (found, imp.reply)
      case (Some(CheckerEntry(Some(_), true)), _) =>
        Lookup(t.cache, imp.key) == found && HasEdge(t.imports, root, imp.key) && imp.key in Served(s, root, imp)
      case (_, Resolved(_, subChecker)) =>
        && Lookup(t.cache, imp.key) == Some(CheckerEntry(Some(subChecker), true))
        && HasEdge(t.imports, root, imp.key) && imp.key in Served(s, root, imp)
      case (_, Unresolved) =>
        Lookup(t.cache, imp.key) == found && t.imports == s.imports && Served(s, root, imp) == {}
  {
  }

  /** The sub-checkers that serving an import may store. */
  function SubCheckers<C>(imp: Import<C>): set<C>
    decreases imp, 1
  {
    match imp.reply
    case Unresolved => {}
    case Resolved(nested, subChecker) => AllSubCheckers(nested) + {subChecker}
  }

  function AllSubCheckers<C>(imports: seq<Import<C>>): set<C>
    decreases imports, 0
  {
    if imports == [] then {} else SubCheckers(imports[0]) + AllSubCheckers(imports[1..])
  }

  /** Every slot of `after` was in `before` or holds one of `stored`. */
  ghost predicate OnlyAdds<C>(before: seq<Slot<CheckerEntry<C>>>, after: seq<Slot<CheckerEntry<C>>>, stored: set<C>) {
    forall s | s in after :: s in before || (s.entry.checker.Some? && s.entry.checker.value in stored)
  }

  lemma {:induction false} ServeAdds<C>(s: Host<C>, root: Key, imp: Import<C>)
    ensures OnlyAdds(s.cache, Serve(s, root, imp).cache, SubCheckers(imp))
    decreases imp, 1
  {
    GetMembers(s.cache, imp.key);
    if !Usable(Lookup(s.cache, imp.key)) && imp.reply.Resolved? {
      var s1 := s.(cache := Get(s.cache, imp.key));
      ServeAllAdds(s1, root, imp.reply.nested);
      PutMembers(ServeAll(s1, root, imp.reply.nested).cache, s.capacity, imp.key,
              CheckerEntry(Some(imp.reply.subChecker), true));
    }
  }

  lemma {:induction false} ServeAllAdds<C>(s: Host<C>, root: Key, imports: seq<Import<C>>)
    ensures OnlyAdds(s.cache, ServeAll(s, root, imports).cache, AllSubCheckers(imports))
    decreases imports, 0
  {
    if imports != [] {
      ServeAdds(s, root, imports[0]);
      ServeAllAdds(Serve(s, root, imports[0]), root, imports[1..]);
    }
  }

  /** A result carries a checker exactly when that checker was put in front of the cache under the
      document's own key; otherwise, and in particular when the result is marked cancelled, every
      cached slot is an old one or one that the import handler stored. */
  lemma CommitsIffNotCancelled<C>(s: Host<C>, documents: map<Key, Document>, uri: Key, script: Script<C>)
    ensures var (after, result) := Analyzed(s, documents, uri, script);
      && (result.cancelled ==> result.checker.None?)
      && (result.checker.Some? ==>
            after.cache != [] && after.cache[0] == Slot(CanonicalCacheKey(uri), CheckerEntry(result.checker, true)))
      && (result.checker.None? ==> OnlyAdds(s.cache, after.cache, AllSubCheckers(script.imports)))
      && (result.checker.Some? <==>
            && !script.cancelledAtStart && !script.cancelledAfterParse && !script.cancelledAfterCheck
            && uri in documents && script.program.Some? && script.checker.Some?)
  {
    var root := CanonicalCacheKey(uri);
    ServeAllAdds(s, root, script.imports);
    var served := ServeAll(s, root, script.imports);
    if script.checker.Some? {
      PutMembers(served.cache, s.capacity, root, CheckerEntry(script.checker, true));
    }
  }
}

module Analyses {
  import opened Prelude
  import opened ImportGraph
  import opened DependencyGraphs
  import opened Recency
  import opened LruCaches
  import opened HostSpec
  import opened AnalysisSpec
  import opened AnalysisHosts

  ghost predicate SnapshotValid<C>(snap: HostSnapshot<CheckerEntry<C>>)
    reads snap.cache, snap.depGraph
  {
    snap.cache.Valid() && snap.depGraph.Valid()
  }

  /** The shared part of a snapshot as an abstract state. */
  ghost function Shared<C>(snap: HostSnapshot<CheckerEntry<C>>): Host<C>
    reads snap.cache, snap.cache.order, snap.depGraph
  {
    HostState(snap.revision, snap.documents, snap.cache.capacity, snap.cache.Contents(), snap.depGraph.forward)
  }

  method ImportHandler<C>(snap: HostSnapshot<CheckerEntry<C>>, root: Key, imp: Import<C>)
    requires SnapshotValid(snap)
    modifies snap.cache`order, snap.cache`items, snap.cache.Elements(), snap.depGraph
    ensures SnapshotValid(snap)
    ensures Shared(snap) == Serve(old(Shared(snap)), root, imp)
    ensures fresh(snap.cache.Elements() - old(snap.cache.Elements()))
    decreases imp, 1
  {
    var hit := ServeFromCache(snap, root, imp.key);
    if hit || imp.reply.Unresolved? {
      return;
    }
    CheckAndStore(snap, root, imp.key, imp.reply.nested, imp.reply.subChecker);
  }

  /** The rest of a resolved miss: the sub-checker runs, asking for its own imports, and is stored. */
  method CheckAndStore<C>(snap: HostSnapshot<CheckerEntry<C>>, root: Key, key: Key, nested: seq<Import<C>>,
                          subChecker: C)
    requires SnapshotValid(snap)
    modifies snap.cache`order, snap.cache`items, snap.cache.Elements(), snap.depGraph
    ensures SnapshotValid(snap)
    ensures Shared(snap) == Stored(ServeAll(old(Shared(snap)), root, nested), root, key, subChecker)
    ensures fresh(snap.cache.Elements() - old(snap.cache.Elements()))
    decreases nested, 1
  {
    CheckImports(snap, root, nested);
    StoreImport(snap, root, key, subChecker);
  }

  /** The handler's first step: a usable cached checker is served, and its edge recorded. */
  method ServeFromCache<C>(snap: HostSnapshot<CheckerEntry<C>>, root: Key, key: Key) returns (hit: bool)
    requires SnapshotValid(snap)
    modifies snap.cache`order, snap.depGraph
    ensures SnapshotValid(snap)
    ensures hit == Usable(Lookup(old(Shared(snap)).cache, key))
    ensures var s1 := old(Shared(snap)).(cache := Get(old(Shared(snap)).cache, key));
      Shared(snap) == if hit then s1.(imports := WithEdge(s1.imports, root, key)) else s1
    ensures snap.cache.Elements() == old(snap.cache.Elements())
  {
    var found := snap.cache.Get(key);
    hit := Usable(found);
    if hit {
      snap.depGraph.AddEdge(root, key);
    }
  }

  /** The handler's last two steps: cache the sub-checker, then record the dependency. */
  method StoreImport<C>(snap: HostSnapshot<CheckerEntry<C>>, root: Key, key: Key, subChecker: C)
    requires SnapshotValid(snap)
    modifies snap.cache`order, snap.cache`items, snap.cache.Elements(), snap.depGraph
    ensures SnapshotValid(snap)
    ensures Shared(snap) == Stored(old(Shared(snap)), root, key, subChecker)
    ensures fresh(snap.cache.Elements() - old(snap.cache.Elements()))
  {
    snap.cache.Put(key, CheckerEntry(Some(subChecker), true));
    snap.depGraph.AddEdge(root, key);
  }

  /** The checker asks for its imports one after another. */
  method CheckImports<C>(snap: HostSnapshot<CheckerEntry<C>>, root: Key, imports: seq<Import<C>>)
    requires SnapshotValid(snap)
    modifies snap.cache`order, snap.cache`items, snap.cache.Elements(), snap.depGraph
    ensures SnapshotValid(snap)
    ensures Shared(snap) == ServeAll(old(Shared(snap)), root, imports)
    ensures fresh(snap.cache.Elements() - old(snap.cache.Elements()))
    decreases imports, 0
  {
    if imports != [] {
      ImportHandler(snap, root, imports[0]);
      CheckImports(snap, root, imports[1..]);
    }
  }

  method Analyze<C>(snap: HostSnapshot<CheckerEntry<C>>, uri: Key, script: Script<C>)
    returns (result: AnalysisResult<C>)
    requires SnapshotValid(snap)
    modifies snap.cache`order, snap.cache`items, snap.cache.Elements(), snap.depGraph
    ensures SnapshotValid(snap)
    ensures (Shared(snap), result) == Analyzed(old(Shared(snap)), snap.documents, uri, script)
    ensures ReportsStages(result, snap.documents, uri, script)
    ensures !Checks(snap.documents, uri, script) || script.checker.None? ==> Shared(snap) == old(Shared(snap))
  {
    AnalyzedReports(Shared(snap), snap.documents, uri, script);
    result := AnalysisResult(uri, None, None, [], FileKind.Unknown, false);
    if script.cancelledAtStart {
      return result.(cancelled := true);
    }
    if uri !in snap.documents {
      return result.(diagnostics := [DOCUMENT_NOT_FOUND]);
    }
    result := result.(diagnostics := script.parseDiagnostics);
    if script.program.None? {
      return;
    }
    result := result.(program := script.program, fileKind := DecideFileKind(script.program.value));
    if script.cancelledAfterParse {
      return result.(cancelled := true);
    }
    var root := CanonicalCacheKey(uri);
    if script.checker.None? {
      return result.(diagnostics := result.diagnostics + script.creationDiagnostics);
    }
    CheckImports(snap, root, script.imports);
    result := result.(diagnostics := result.diagnostics + script.checkDiagnostics);
    if script.cancelledAfterCheck {
      return result.(cancelled := true);
    }
    snap.cache.Put(root, CheckerEntry(script.checker, true));
    result := result.(checker := script.checker);
  }

  /** `checkerForDocument`: the cached checker if it is usable, else an analysis made on demand. */
  method CheckerForDocument<C>(host: AnalysisHost<CheckerEntry<C>>, uri: Key, script: Script<C>)
    returns (checker: Option<C>)
    requires host.Valid()
    requires !script.cancelledAtStart && !script.cancelledAfterParse && !script.cancelledAfterCheck
    modifies host.cache`order, host.cache`items, host.cache.Elements(), host.depGraph
    ensures host.Valid()
    ensures (host.State(), checker) == CheckedOnDemand(old(host.State()), uri, script)
  {
    var entry := host.cache.Get(CanonicalCacheKey(uri));
    if Usable(entry) {
      return entry.value.checker;
    }
    var doc := host.docs.Get(uri);
    if doc.None? {
      return None;
    }
    var result := AnalyzeNow(host, uri, script);
    return result.checker;
  }

  /** An analysis of a snapshot taken here. */
  method AnalyzeNow<C>(host: AnalysisHost<CheckerEntry<C>>, uri: Key, script: Script<C>)
    returns (result: AnalysisResult<C>)
    requires host.Valid()
    modifies host.cache`order, host.cache`items, host.cache.Elements(), host.depGraph
    ensures host.Valid()
    ensures (host.State(), result) == Analyzed(old(host.State()), old(host.State()).docs, uri, script)
  {
    var snap := host.Snapshot();
    assert Shared(snap) == host.State();
    result := Analyze(snap, uri, script);
    assert Shared(snap) == host.State();
  }
}
