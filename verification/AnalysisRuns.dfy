/** The engine as the classes run it, one call after another, is one of the runs of `Freshness`.

    `Freshness` steps through an analysis one locked section at a time.  Here every complete call,
    with its nested import handler calls, is shown to be such a sequence of steps, ending in exactly
    the state that `TracedAnalysis` computes, stamps included. */
module AnalysisRuns {
  import opened Prelude
  import opened ImportGraph
  import opened Recency
  import opened HostSpec
  import opened AnalysisSpec
  import opened Freshness
  import opened TracedAnalysis

  // --------------------------------------------------- one analysis is a run

  predicate Quiet<C>(events: seq<Event<C>>) {
    forall i | 0 <= i < |events| :: !events[i].Update? && !events[i].Remove?
  }

  function Paused<C>(w: World<C>, id: nat): Pass<C>
    requires id in w.flights
  {
    Pass(w.host, w.flights[id].stamps, w.flights[id].overlapped)
  }

  /** `w` with flight `id` as far as `p` and nothing else changed. */
  function Resumed<C>(w: World<C>, id: nat, p: Pass<C>): World<C>
    requires id in w.flights
  {
    World(p.host, w.versions, w.flights[id := w.flights[id].(stamps := p.stamps, overlapped := p.overlapped)])
  }

  /** One call of the import handler. */
  lemma {:induction false} ServeIsRun<C>(w: World<C>, id: nat, imp: Import<C>) returns (events: seq<Event<C>>)
    requires Idle(w, id)
    ensures IsRun(w, events) && Quiet(events)
    ensures After(w, events)
         == Resumed(w, id, ServeTraced(Paused(w, id), w.versions, w.flights[id].root, imp))
    decreases imp, 2
  {
    if Lookup(w.host.cache, imp.key).Some? {
      events := [Open(id, imp.key), Link(id)];
      RunOfTwo(w, Open(id, imp.key), Link(id));
    } else if imp.reply.Unresolved? {
      events := [Open(id, imp.key), Fail(id)];
      RunOfTwo(w, Open(id, imp.key), Fail(id));
      assert Popped(Apply(w, Open(id, imp.key)).flights[id]).frames == w.flights[id].frames;
    } else {
      events := SubCheckIsRun(w, id, imp);
    }
  }

  lemma {:induction false} SubCheckIsRun<C>(w: World<C>, id: nat, imp: Import<C>) returns (events: seq<Event<C>>)
    requires Idle(w, id) && Lookup(w.host.cache, imp.key).None? && imp.reply.Resolved?
    ensures IsRun(w, events) && Quiet(events)
    ensures After(w, events)
         == Resumed(w, id, ServeTraced(Paused(w, id), w.versions, w.flights[id].root, imp))
    decreases imp, 1
  {
    var open: Event<C> := Open(id, imp.key);
    RunOfOne(w, open);
    var w1 := Apply(w, open);
    var nested := ServeAllIsRun(w1, id, imp.reply.nested);
    RunConcat(w, [open], nested);
    var p := ServeAllTraced(Paused(w1, id), w.versions, w.flights[id].root, imp.reply.nested);
    var stored := StoreIsRun(w, id, imp.key, p, imp.reply.subChecker);
    RunConcat(w, [open] + nested, stored);
    events := [open] + nested + stored;
  }

  /** The flight is checking `key`. */
  function Opened<C>(w: World<C>, id: nat, key: Key): World<C>
    requires id in w.flights
  {
    var f := w.flights[id];
    w.(flights := w.flights[id := f.(frames := f.frames + [Frame(key, VersionOf(w.versions, key), false)])])
  }

  /** Ending a sub-check: cache the sub-checker, then record the edge. */
  lemma StoreIsRun<C>(w: World<C>, id: nat, key: Key, p: Pass<C>, checker: C) returns (events: seq<Event<C>>)
    requires Idle(w, id)
    ensures var w2 := Resumed(Opened(w, id, key), id, p);
      var entry := SubEntry(w.versions, key, checker);
      && IsRun(w2, events) && Quiet(events)
      && After(w2, events) == Resumed(w, id, Linked(PutTraced(p, key, entry), w.flights[id].root, key, entry))
  {
    var w2 := Resumed(Opened(w, id, key), id, p);
    assert Popped(w2.flights[id]).frames == w.flights[id].frames;
    RunOfTwo(w2, Close(id, checker), Link(id));
    events := [Close(id, checker), Link(id)];
  }

  lemma ResumedTwice<C>(w: World<C>, id: nat, p: Pass<C>)
    requires Idle(w, id)
    ensures var w1 := Resumed(w, id, p);
      && Idle(w1, id) && Paused(w1, id) == p && w1.flights[id].root == w.flights[id].root
      && forall q :: Resumed(w1, id, q) == Resumed(w, id, q)
  {
  }

  lemma {:induction false} ServeAllIsRun<C>(w: World<C>, id: nat, imports: seq<Import<C>>)
    returns (events: seq<Event<C>>)
    requires Idle(w, id)
    ensures IsRun(w, events) && Quiet(events)
    ensures After(w, events)
         == Resumed(w, id, ServeAllTraced(Paused(w, id), w.versions, w.flights[id].root, imports))
    decreases imports, 0
  {
    if imports == [] {
      events := [];
    } else {
      var first := ServeIsRun(w, id, imports[0]);
      ResumedTwice(w, id, ServeTraced(Paused(w, id), w.versions, w.flights[id].root, imports[0]));
      var rest := ServeAllIsRun(After(w, first), id, imports[1..]);
      RunConcat(w, first, rest);
      events := first + rest;
    }
  }

  /** A complete analysis started on the current documents is a run without changes, and leaves
      nothing in flight. */
  lemma AnalyzedIsRun<C>(w: World<C>, uri: Key, script: Script<C>) returns (events: seq<Event<C>>)
    requires w.flights == map[]
    ensures IsRun(w, events) && Quiet(events)
    ensures After(w, events) == AnalyzeTraced(w, uri, script)
  {
    events := [];
    if RunsChecker(w.host.docs, uri, script) {
      var begin: Event<C> := Begin(0, uri);
      RunOfOne(w, begin);
      var served := ServeAllIsRun(Apply(w, begin), 0, script.imports);
      RunConcat(w, [begin], served);
      var last := if script.cancelledAfterCheck then Abandon(0) else Commit(0, script.checker.value);
      RunOfOne(After(w, [begin] + served), last);
      RunConcat(w, [begin] + served, [last]);
      events := [begin] + served + [last];
      assert After(w, events).flights.Keys == {};
    }
  }

  /** So is an analysis on demand: a look into the cache, then an analysis if nothing is found. */
  lemma DemandIsRun<C>(w: World<C>, uri: Key, script: Script<C>) returns (events: seq<Event<C>>)
    requires w.flights == map[]
    ensures IsRun(w, events) && Quiet(events)
    ensures After(w, events) == DemandTraced(w, uri, script)
  {
    var peek: Event<C> := Peek(CanonicalCacheKey(uri));
    RunOfOne(w, peek);
    events := [peek];
    if Lookup(w.host.cache, CanonicalCacheKey(uri)).None? && uri in w.host.docs {
      var analysis := AnalyzedIsRun(Apply(w, peek), uri, script);
      RunConcat(w, [peek], analysis);
      events := [peek] + analysis;
    }
  }

  // ------------------------------------------------------ the whole engine

  /** The calls a client can make, each completed before the next one starts. */
  datatype Call<+C> =
    | UpdateCall(uri: Key, text: string, version: int)
    | RemoveCall(uri: Key)
    | AnalyzeCall(uri: Key, script: Script<C>)
    | DemandCall(uri: Key, script: Script<C>)   // a request that needs the checker now

  ghost function Perform<C>(s: Host<C>, call: Call<C>): Host<C>
  {
    match call
    case UpdateCall(uri, text, version) => Updated(s, uri, text, version)
    case RemoveCall(uri) => Removed(s, uri)
    case AnalyzeCall(uri, script) => Analyzed(s, s.docs, uri, script).0
    case DemandCall(uri, script) => CheckedOnDemand(s, uri, script).0
  }

  ghost function PerformAll<C>(s: Host<C>, calls: seq<Call<C>>): Host<C>
    decreases |calls|
  {
    if calls == [] then s else PerformAll(Perform(s, calls[0]), calls[1..])
  }

  /** The same with stamps. */
  ghost function PerformTraced<C>(w: World<C>, call: Call<C>): World<C>
  {
    match call
    case UpdateCall(uri, text, version) => Apply(w, Update(uri, text, version))
    case RemoveCall(uri) => Apply(w, Remove(uri))
    case AnalyzeCall(uri, script) => AnalyzeTraced(w, uri, script)
    case DemandCall(uri, script) => DemandTraced(w, uri, script)
  }

  ghost function PerformAllTraced<C>(w: World<C>, calls: seq<Call<C>>): World<C>
    decreases |calls|
  {
    if calls == [] then w else PerformAllTraced(PerformTraced(w, calls[0]), calls[1..])
  }

  lemma ErasePerform<C>(w: World<C>, call: Call<C>)
    ensures EraseHost(PerformTraced(w, call).host) == Perform(EraseHost(w.host), call)
  {
    match call
    case UpdateCall(uri, _, _) => EraseKeep(w.host.cache, Invalidated(w.host.imports, CanonicalCacheKey(uri)));
    case RemoveCall(uri) => EraseKeep(w.host.cache, Invalidated(w.host.imports, CanonicalCacheKey(uri)));
    case AnalyzeCall(uri, script) => EraseAnalyze(w, uri, script);
    case DemandCall(uri, script) => EraseDemand(w, uri, script);
  }

  /** The stamps change nothing that the methods compute. */
  lemma {:induction false} ErasePerformAll<C>(w: World<C>, calls: seq<Call<C>>)
    ensures EraseHost(PerformAllTraced(w, calls).host) == PerformAll(EraseHost(w.host), calls)
    decreases |calls|
  {
    if calls != [] {
      ErasePerform(w, calls[0]);
      ErasePerformAll(PerformTraced(w, calls[0]), calls[1..]);
    }
  }

  lemma {:induction false} QuietIsSequential<C>(w: World<C>, events: seq<Event<C>>)
    requires IsRun(w, events) && Quiet(events)
    ensures Sequential(w, events)
    decreases |events|
  {
    if events != [] {
      assert Quiet(events[1..]) by {
        assert forall i | 0 <= i < |events| - 1 :: events[1..][i] == events[i + 1];
      }
      QuietIsSequential(Apply(w, events[0]), events[1..]);
    }
  }

  lemma {:induction false} SequentialConcat<C>(w: World<C>, first: seq<Event<C>>, second: seq<Event<C>>)
    requires IsRun(w, first) && Sequential(w, first)
    requires IsRun(After(w, first), second) && Sequential(After(w, first), second)
    requires IsRun(w, first + second)
    ensures Sequential(w, first + second)
    decreases |first|
  {
    if first == [] {
      assert first + second == second;
    } else {
      assert (first + second)[1..] == first[1..] + second;
      SequentialConcat(Apply(w, first[0]), first[1..], second);
    }
  }

  lemma CallIsRun<C>(w: World<C>, call: Call<C>) returns (events: seq<Event<C>>)
    requires w.flights == map[]
    ensures IsRun(w, events) && Sequential(w, events)
    ensures After(w, events) == PerformTraced(w, call) && PerformTraced(w, call).flights == map[]
  {
    match call
    case AnalyzeCall(uri, script) =>
      events := AnalyzedIsRun(w, uri, script);
      QuietIsSequential(w, events);
    case DemandCall(uri, script) =>
      events := DemandIsRun(w, uri, script);
      QuietIsSequential(w, events);
    case UpdateCall(uri, text, version) =>
      events := [Update(uri, text, version)];
    case RemoveCall(uri) =>
      events := [Remove(uri)];
  }

  /** Every sequence of calls is a run in which no change overlaps an analysis. */
  lemma {:induction false} CallsAreRun<C>(w: World<C>, calls: seq<Call<C>>) returns (events: seq<Event<C>>)
    requires w.flights == map[]
    ensures IsRun(w, events) && Sequential(w, events)
    ensures After(w, events) == PerformAllTraced(w, calls) && PerformAllTraced(w, calls).flights == map[]
    decreases |calls|
  {
    if calls == [] {
      events := [];
    } else {
      var first := CallIsRun(w, calls[0]);
      var rest := CallsAreRun(After(w, first), calls[1..]);
      RunConcat(w, first, rest);
      SequentialConcat(w, first, rest);
      events := first + rest;
    }
  }

  ghost function TracedAfter<C>(capacity: Capacity, calls: seq<Call<C>>): World<C>
  {
    PerformAllTraced(Init<C>(capacity), calls)
  }

  /** Whatever calls are made, one after another: no cached entry has outlived a change of anything it
      is stamped with, that is of anything its analysis was served, and its recorded paths to all of
      it persist. */
  lemma EngineIsFresh<C>(capacity: Capacity, calls: seq<Call<C>>, slot: Slot<Tagged<C>>)
    requires slot in TracedAfter<C>(capacity, calls).host.cache
    ensures var w := TracedAfter<C>(capacity, calls);
      && Fresh(w.versions, slot.entry.stamps)
      && (forall t | t in slot.entry.stamps :: Reaches(w.host.imports, slot.key, t.key))
      && Mentions(slot.entry.stamps, slot.key)
  {
    var events := CallsAreRun(Init<C>(capacity), calls);
    SequentialFreshness(capacity, events, slot);
    RunKeepsInv(Init<C>(capacity), events);
    assert Sound(TracedAfter<C>(capacity, calls).host.imports, TracedAfter<C>(capacity, calls).versions, slot.key,
                 slot.entry.stamps, slot.entry.overlapped);
    var s :| s in slot.entry.stamps && s.key == slot.key;
  }
}
