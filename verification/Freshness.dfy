/** Freshness of cached checkers over every run of the engine
    (languageserver/server2/snapshot.go with languageserver/server2/analysis.go).

    Any number of analyses may be in flight, and each of their steps may interleave with updates,
    removals and with each other.  Every key carries a version that each update or removal of the
    key advances.  A cached entry carries ghost stamps: the versions of everything its analysis
    was served, directly or through a cached root entry it was built on.  It is `overlapped` when
    an update or removal of one of those keys happened while it was being made, or when it was
    built on an overlapped entry.

    Main results: an entry is stale iff it is overlapped; an entry that is not overlapped keeps
    recorded paths to everything it was made from; and when updates never overlap an analysis,
    every cached entry is fresh. */
module Freshness {
  import opened Prelude
  import opened ImportGraph
  import opened Recency
  import opened HostSpec

  datatype Stamp = Stamp(key: Key, version: nat)

  datatype Tagged<+C> = Tagged(checker: C, stamps: set<Stamp>, overlapped: bool)

  /** An import handler call that missed the cache and is now resolving and checking `key`. */
  datatype Frame = Frame(key: Key, version: nat, overlapped: bool)

  /** An analysis in progress.  `unlinked` is an import just served whose edge is not recorded yet. */
  datatype Flight = Flight(
    root: Key,
    frames: seq<Frame>,
    unlinked: Option<Key>,
    stamps: set<Stamp>,
    overlapped: bool
  )

  datatype World<+C> = World(
    host: HostState<Tagged<C>>,
    versions: map<Key, nat>,
    flights: map<nat, Flight>
  )

  datatype Event<+C> =
    | Update(uri: Key, text: string, version: int)
    | Remove(uri: Key)
    | Peek(key: Key)                     // another request reads the cache
    | Begin(id: nat, uri: Key)           // take a snapshot and start the checker
    | Open(id: nat, key: Key)            // the checker asks the handler for `key`
    | Close(id: nat, checker: C)         // the sub-checker is done: cache it
    | Fail(id: nat)                      // the import could not be resolved
    | Link(id: nat)                      // record the edge from the root
    | Commit(id: nat, checker: C)        // cache the root checker
    | Abandon(id: nat)                   // cancelled, or the checker could not be made

  function VersionOf(versions: map<Key, nat>, k: Key): nat {
    if k in versions then versions[k] else 0
  }

  ghost predicate Fresh(versions: map<Key, nat>, stamps: set<Stamp>) {
    forall s | s in stamps :: s.version == VersionOf(versions, s.key)
  }

  ghost function KeysOf(stamps: set<Stamp>): iset<Key> {
    iset s | s in stamps :: s.key
  }

  predicate Mentions(stamps: set<Stamp>, k: Key) {
    exists s | s in stamps :: s.key == k
  }

  // ------------------------------------------------------------------ steps

  predicate Idle<C>(w: World<C>, id: nat) {
    id in w.flights && w.flights[id].unlinked.None?
  }

  predicate Enabled<C>(w: World<C>, e: Event<C>) {
    match e
    case Update(_, _, _) => true
    case Remove(_) => true
    case Peek(_) => true
    case Begin(id, uri) => id !in w.flights && uri in w.host.docs
    case Open(id, _) => Idle(w, id)
    case Close(id, _) => Idle(w, id) && w.flights[id].frames != []
    case Fail(id) => Idle(w, id) && w.flights[id].frames != []
    case Link(id) => id in w.flights && w.flights[id].unlinked.Some?
    case Commit(id, _) => Idle(w, id) && w.flights[id].frames == []
    case Abandon(id) => id in w.flights
  }

  function HitFrame(f: Frame, k: Key): Frame {
    f.(overlapped := f.overlapped || f.key == k)
  }

  /** What a change of `k` does to an analysis in flight. */
  function Hit(f: Flight, k: Key): Flight {
    f.(frames := seq(|f.frames|, i requires 0 <= i < |f.frames| => HitFrame(f.frames[i], k)),
       overlapped := f.overlapped || Mentions(f.stamps, k))
  }

  ghost function Changed<C>(w: World<C>, host: HostState<Tagged<C>>, k: Key): World<C> {
    World(host,
          w.versions[k := VersionOf(w.versions, k) + 1],
          map id | id in w.flights :: Hit(w.flights[id], k))
  }

  function Top(f: Flight): Frame
    requires f.frames != []
  {
    f.frames[|f.frames| - 1]
  }

  function Popped(f: Flight): Flight
    requires f.frames != []
  {
    f.(frames := f.frames[..|f.frames| - 1])
  }

  function Imported<C>(f: Flight, key: Key, entry: Tagged<C>): Flight {
    f.(unlinked := Some(key), stamps := f.stamps + entry.stamps, overlapped := f.overlapped || entry.overlapped)
  }

  ghost function Apply<C>(w: World<C>, e: Event<C>): World<C>
    requires Enabled(w, e)
  {
    match e
    case Update(uri, text, version) => Changed(w, Updated(w.host, uri, text, version), CanonicalCacheKey(uri))
    case Remove(uri) => Changed(w, Removed(w.host, uri), CanonicalCacheKey(uri))
    case Peek(k) => w.(host := w.host.(cache := Get(w.host.cache, k)))
    case Begin(id, uri) =>
      var k := CanonicalCacheKey(uri);
      w.(flights := w.flights[id := Flight(k, [], None, {Stamp(k, VersionOf(w.versions, k))}, false)])
    case Open(id, k) =>
      var f := w.flights[id];
      var found := Lookup(w.host.cache, k);
      World(w.host.(cache := Get(w.host.cache, k)), w.versions,
            w.flights[id := if found.Some? then Imported(f, k, found.value)
                            else f.(frames := f.frames + [Frame(k, VersionOf(w.versions, k), false)])])
    case Close(id, checker) =>
      var top := Top(w.flights[id]);
      var entry := Tagged(checker, {Stamp(top.key, top.version)}, top.overlapped);
      World(w.host.(cache := Put(w.host.cache, w.host.capacity, top.key, entry)), w.versions,
            w.flights[id := Imported(Popped(w.flights[id]), top.key, entry)])
    case Fail(id) => w.(flights := w.flights[id := Popped(w.flights[id])])
    case Link(id) =>
      var f := w.flights[id];
      w.(host := w.host.(imports := WithEdge(w.host.imports, f.root, f.unlinked.value)),
         flights := w.flights[id := f.(unlinked := None)])
    case Commit(id, checker) =>
      var f := w.flights[id];
      World(w.host.(cache := Put(w.host.cache, w.host.capacity, f.root, Tagged(checker, f.stamps, f.overlapped))),
            w.versions, w.flights - {id})
    case Abandon(id) => w.(flights := w.flights - {id})
  }

  function Init<C>(capacity: Capacity): World<C> {
    World(HostState(0, map[], capacity, [], map[]), map[], map[])
  }

  ghost predicate IsRun<C>(w: World<C>, events: seq<Event<C>>)
    decreases |events|
  {
    events == [] || (Enabled(w, events[0]) && IsRun(Apply(w, events[0]), events[1..]))
  }

  ghost function After<C>(w: World<C>, events: seq<Event<C>>): World<C>
    requires IsRun(w, events)
    decreases |events|
  {
    if events == [] then w else After(Apply(w, events[0]), events[1..])
  }

  // -------------------------------------------------------------- invariant

  /** `stamps` and `overlapped` are right for something made for key `k`. */
  ghost predicate Sound(imports: Edges, versions: map<Key, nat>, k: Key, stamps: set<Stamp>, overlapped: bool) {
    && k in KeysOf(stamps)
    && (forall s | s in stamps :: s.version <= VersionOf(versions, s.key))
    && (overlapped <==> !Fresh(versions, stamps))
    && (!overlapped ==> forall s | s in stamps :: ReachesWithin(imports, k, s.key, KeysOf(stamps)))
  }

  ghost predicate SlotsSound<C>(w: World<C>) {
    forall s | s in w.host.cache ::
      Sound(w.host.imports, w.versions, s.key, s.entry.stamps, s.entry.overlapped)
  }

  ghost predicate FrameSound(versions: map<Key, nat>, f: Frame) {
    f.version <= VersionOf(versions, f.key) && (f.overlapped <==> f.version != VersionOf(versions, f.key))
  }

  /** As `Sound`, except that what came with the unlinked import is reached from that import. */
  ghost predicate FlightSound(imports: Edges, versions: map<Key, nat>, f: Flight) {
    && f.root in KeysOf(f.stamps)
    && (f.unlinked.Some? ==> f.unlinked.value in KeysOf(f.stamps))
    && (forall s | s in f.stamps :: s.version <= VersionOf(versions, s.key))
    && (f.overlapped <==> !Fresh(versions, f.stamps))
    && (!f.overlapped ==> forall s | s in f.stamps :: Reached(imports, f, s.key))
    && (forall i | 0 <= i < |f.frames| :: FrameSound(versions, f.frames[i]))
  }

  ghost predicate Reached(imports: Edges, f: Flight, k: Key) {
    || ReachesWithin(imports, f.root, k, KeysOf(f.stamps))
    || (f.unlinked.Some? && ReachesWithin(imports, f.unlinked.value, k, KeysOf(f.stamps)))
  }

  ghost predicate FlightsSound<C>(w: World<C>) {
    forall id | id in w.flights :: FlightSound(w.host.imports, w.versions, w.flights[id])
  }

  ghost predicate Inv<C>(w: World<C>) {
   
    && SlotsSound(w)
    && FlightsSound(w)
  }

  // ------------------------------------------- each kind of step keeps it

  /** What survives a change of `u` stays sound: it has no path to `u`, so was not made from it. */
  lemma SoundAfterChange(imports: Edges, versions: map<Key, nat>, k: Key, stamps: set<Stamp>, overlapped: bool,
                         u: Key, imports': Edges, versions': map<Key, nat>)
    requires Sound(imports, versions, k, stamps, overlapped)
    requires k !in Invalidated(imports, u)
    requires imports' == imports || imports' == WithoutEdgesOf(imports, u)
    requires versions' == versions[u := VersionOf(versions, u) + 1]
    ensures Sound(imports', versions', k, stamps, overlapped)
  {
    DependentsExact(imports, u, k);
    if overlapped {
      var s :| s in stamps && s.version != VersionOf(versions, s.key);
      assert s.version != VersionOf(versions', s.key);
    } else {
      forall s | s in stamps
        ensures s.key != u && ReachesWithin(imports', k, s.key, KeysOf(stamps))
      {
        ReachesIn(imports, imports, k, s.key, KeysOf(stamps), Everywhere());
        ClearKeepsPathsOfOthers(imports, u, k, s.key, KeysOf(stamps));
      }
    }
  }

  /** An analysis that was not served `u` keeps its paths: they avoid `u`. */
  lemma FlightAfterChange(imports: Edges, versions: map<Key, nat>, f: Flight,
                          u: Key, imports': Edges, versions': map<Key, nat>)
    requires FlightSound(imports, versions, f)
    requires imports' == imports || imports' == WithoutEdgesOf(imports, u)
    requires versions' == versions[u := VersionOf(versions, u) + 1]
    ensures FlightSound(imports', versions', Hit(f, u))
  {
    if Mentions(f.stamps, u) {
      var s :| s in f.stamps && s.key == u;
      assert s.version != VersionOf(versions', s.key);
    } else if f.overlapped {
      var s :| s in f.stamps && s.version != VersionOf(versions, s.key);
      assert s.version != VersionOf(versions', s.key);
    } else {
      assert u !in KeysOf(f.stamps);
      forall s | s in f.stamps
        ensures Reached(imports', Hit(f, u), s.key)
      {
        assert Reached(imports, f, s.key);
        if ReachesWithin(imports, f.root, s.key, KeysOf(f.stamps)) {
          ReachesIn(imports, imports', f.root, s.key, KeysOf(f.stamps), KeysOf(f.stamps));
        } else {
          ReachesIn(imports, imports', f.unlinked.value, s.key, KeysOf(f.stamps), KeysOf(f.stamps));
        }
      }
    }
  }

  lemma ChangeKeepsInv<C>(w: World<C>, uri: Key, host: HostState<Tagged<C>>)
    requires Inv(w)
    requires host.capacity == w.host.capacity
    requires host.cache == Keep(w.host.cache, Invalidated(w.host.imports, CanonicalCacheKey(uri)))
    requires host.imports == w.host.imports
          || host.imports == WithoutEdgesOf(w.host.imports, CanonicalCacheKey(uri))
    ensures Inv(Changed(w, host, CanonicalCacheKey(uri)))
  {
    ChangeKeepsSlots(w, uri, host);
    var u := CanonicalCacheKey(uri);
    var w' := Changed(w, host, u);
    forall id | id in w'.flights
      ensures FlightSound(w'.host.imports, w'.versions, w'.flights[id])
    {
      FlightAfterChange(w.host.imports, w.versions, w.flights[id], u, w'.host.imports, w'.versions);
    }
  }

  lemma ChangeKeepsSlots<C>(w: World<C>, uri: Key, host: HostState<Tagged<C>>)
    requires Inv(w)
    requires host.cache == Keep(w.host.cache, Invalidated(w.host.imports, CanonicalCacheKey(uri)))
    requires host.imports == w.host.imports
          || host.imports == WithoutEdgesOf(w.host.imports, CanonicalCacheKey(uri))
    ensures SlotsSound(Changed(w, host, CanonicalCacheKey(uri)))
  {
    var u := CanonicalCacheKey(uri);
    var w' := Changed(w, host, u);
    KeepMembers(w.host.cache, Invalidated(w.host.imports, u));
    forall s | s in w'.host.cache
      ensures Sound(w'.host.imports, w'.versions, s.key, s.entry.stamps, s.entry.overlapped)
    {
      SoundAfterChange(w.host.imports, w.versions, s.key, s.entry.stamps, s.entry.overlapped,
                       u, w'.host.imports, w'.versions);
    }
  }

  /** Being served a sound entry keeps the analysis sound. */
  lemma ImportedSound<C>(imports: Edges, versions: map<Key, nat>, f: Flight, k: Key, entry: Tagged<C>)
    requires FlightSound(imports, versions, f) && f.unlinked.None?
    requires Sound(imports, versions, k, entry.stamps, entry.overlapped)
    ensures FlightSound(imports, versions, Imported(f, k, entry))
  {
    var g := Imported(f, k, entry);
    if f.overlapped {
      var s :| s in f.stamps && s.version != VersionOf(versions, s.key);
      assert s in g.stamps;
    } else if entry.overlapped {
      var s :| s in entry.stamps && s.version != VersionOf(versions, s.key);
      assert s in g.stamps;
    } else {
      forall s | s in g.stamps
        ensures Reached(imports, g, s.key)
      {
        if s in f.stamps {
          assert Reached(imports, f, s.key);
          ReachesIn(imports, imports, f.root, s.key, KeysOf(f.stamps), KeysOf(g.stamps));
        } else {
          ReachesIn(imports, imports, k, s.key, KeysOf(entry.stamps), KeysOf(g.stamps));
        }
      }
    }
  }

  lemma FreshEntrySound(imports: Edges, versions: map<Key, nat>, f: Frame)
    requires FrameSound(versions, f)
    ensures Sound(imports, versions, f.key, {Stamp(f.key, f.version)}, f.overlapped)
  {
    var stamps := {Stamp(f.key, f.version)};
    assert Stamp(f.key, f.version) in stamps;
    ReachesSelf(imports, f.key, KeysOf(stamps));
  }

  lemma LinkedSound(imports: Edges, versions: map<Key, nat>, f: Flight)
    requires FlightSound(imports, versions, f) && f.unlinked.Some?
    ensures FlightSound(WithEdge(imports, f.root, f.unlinked.value), versions, f.(unlinked := None))
  {
    var g := WithEdge(imports, f.root, f.unlinked.value);
    if !f.overlapped {
      forall s | s in f.stamps
        ensures ReachesWithin(g, f.root, s.key, KeysOf(f.stamps))
      {
        assert Reached(imports, f, s.key);
        if ReachesWithin(imports, f.root, s.key, KeysOf(f.stamps)) {
          ReachesIn(imports, g, f.root, s.key, KeysOf(f.stamps), KeysOf(f.stamps));
        } else {
          ReachesIn(imports, g, f.unlinked.value, s.key, KeysOf(f.stamps), KeysOf(f.stamps));
          ReachesStep(g, f.root, f.unlinked.value, s.key, KeysOf(f.stamps));
        }
      }
    }
  }

  lemma MoreEdgesSound(imports: Edges, more: Edges, versions: map<Key, nat>, k: Key, stamps: set<Stamp>,
                       overlapped: bool)
    requires Sound(imports, versions, k, stamps, overlapped)
    requires forall x :: Targets(imports, x) <= Targets(more, x)
    ensures Sound(more, versions, k, stamps, overlapped)
  {
    if !overlapped {
      forall s | s in stamps
        ensures ReachesWithin(more, k, s.key, KeysOf(stamps))
      {
        ReachesIn(imports, more, k, s.key, KeysOf(stamps), KeysOf(stamps));
      }
    }
  }

  lemma MoreEdgesFlight(imports: Edges, more: Edges, versions: map<Key, nat>, f: Flight)
    requires FlightSound(imports, versions, f)
    requires forall x :: Targets(imports, x) <= Targets(more, x)
    ensures FlightSound(more, versions, f)
  {
    if !f.overlapped {
      forall s | s in f.stamps
        ensures Reached(more, f, s.key)
      {
        assert Reached(imports, f, s.key);
        if ReachesWithin(imports, f.root, s.key, KeysOf(f.stamps)) {
          ReachesIn(imports, more, f.root, s.key, KeysOf(f.stamps), KeysOf(f.stamps));
        } else {
          ReachesIn(imports, more, f.unlinked.value, s.key, KeysOf(f.stamps), KeysOf(f.stamps));
        }
      }
    }
  }

  lemma LinkKeepsInv<C>(w: World<C>, id: nat)
    requires Inv(w) && Enabled(w, Link(id))
    ensures Inv(Apply(w, Link(id)))
  {
    var f := w.flights[id];
    var more := WithEdge(w.host.imports, f.root, f.unlinked.value);
    LinkedSound(w.host.imports, w.versions, f);
    forall s | s in w.host.cache
      ensures Sound(more, w.versions, s.key, s.entry.stamps, s.entry.overlapped)
    {
      MoreEdgesSound(w.host.imports, more, w.versions, s.key, s.entry.stamps, s.entry.overlapped);
    }
    forall j | j in w.flights
      ensures FlightSound(more, w.versions, w.flights[j])
    {
      MoreEdgesFlight(w.host.imports, more, w.versions, w.flights[j]);
    }
  }

  lemma OpenKeepsInv<C>(w: World<C>, id: nat, k: Key)
    requires Inv(w) && Enabled(w, Open(id, k))
    ensures Inv(Apply(w, Open(id, k)))
  {
    GetMembers(w.host.cache, k);
    LookupMember(w.host.cache, k);
    var found := Lookup(w.host.cache, k);
    if found.Some? {
      assert Slot(k, found.value) in w.host.cache;
      ImportedSound(w.host.imports, w.versions, w.flights[id], k, found.value);
    }
  }

  lemma CloseKeepsInv<C>(w: World<C>, id: nat, checker: C)
    requires Inv(w) && Enabled(w, Close(id, checker))
    ensures Inv(Apply(w, Close(id, checker)))
  {
    var f := w.flights[id];
    var top := Top(f);
    var entry := Tagged(checker, {Stamp(top.key, top.version)}, top.overlapped);
    PutMembers(w.host.cache, w.host.capacity, top.key, entry);
    assert FrameSound(w.versions, f.frames[|f.frames| - 1]);
    FreshEntrySound(w.host.imports, w.versions, top);
    assert FlightSound(w.host.imports, w.versions, Popped(f)) by {
      assert !f.overlapped ==> forall s | s in f.stamps :: Reached(w.host.imports, f, s.key);
      assert forall k :: Reached(w.host.imports, f, k) == Reached(w.host.imports, Popped(f), k);
    }
    ImportedSound(w.host.imports, w.versions, Popped(f), top.key, entry);
  }

  lemma CommitKeepsInv<C>(w: World<C>, id: nat, checker: C)
    requires Inv(w) && Enabled(w, Commit(id, checker))
    ensures Inv(Apply(w, Commit(id, checker)))
  {
    var f := w.flights[id];
    PutMembers(w.host.cache, w.host.capacity, f.root, Tagged(checker, f.stamps, f.overlapped));
    if !f.overlapped {
      forall s | s in f.stamps
        ensures ReachesWithin(w.host.imports, f.root, s.key, KeysOf(f.stamps))
      {
        assert Reached(w.host.imports, f, s.key);
      }
    }
    assert Sound(w.host.imports, w.versions, f.root, f.stamps, f.overlapped);
  }

  lemma BeginKeepsInv<C>(w: World<C>, id: nat, uri: Key)
    requires Inv(w) && Enabled(w, Begin(id, uri))
    ensures Inv(Apply(w, Begin(id, uri)))
  {
    var k := CanonicalCacheKey(uri);
    var f := Flight(k, [], None, {Stamp(k, VersionOf(w.versions, k))}, false);
    assert Stamp(k, VersionOf(w.versions, k)) in f.stamps;
    ReachesSelf(w.host.imports, k, KeysOf(f.stamps));
    assert FlightSound(w.host.imports, w.versions, f) by {
      forall s | s in f.stamps
        ensures Reached(w.host.imports, f, s.key)
      {
        assert s.key == k;
      }
    }
  }

  lemma FailKeepsInv<C>(w: World<C>, id: nat)
    requires Inv(w) && Enabled(w, Fail(id))
    ensures Inv(Apply(w, Fail(id)))
  {
    var f := w.flights[id];
    assert FlightSound(w.host.imports, w.versions, Popped(f)) by {
      assert !f.overlapped ==> forall s | s in f.stamps :: Reached(w.host.imports, f, s.key);
      assert forall k :: Reached(w.host.imports, f, k) == Reached(w.host.imports, Popped(f), k);
    }
  }

  lemma StepKeepsInv<C>(w: World<C>, e: Event<C>)
    requires Inv(w) && Enabled(w, e)
    ensures Inv(Apply(w, e))
  {
    match e
    case Update(uri, text, version) => ChangeKeepsInv(w, uri, Updated(w.host, uri, text, version));
    case Remove(uri) => ChangeKeepsInv(w, uri, Removed(w.host, uri));
    case Peek(k) => GetMembers(w.host.cache, k);
    case Begin(id, uri) => BeginKeepsInv(w, id, uri);
    case Open(id, k) => OpenKeepsInv(w, id, k);
    case Close(id, checker) => CloseKeepsInv(w, id, checker);
    case Fail(id) => FailKeepsInv(w, id);
    case Link(id) => LinkKeepsInv(w, id);
    case Commit(id, checker) => CommitKeepsInv(w, id, checker);
    case Abandon(id) =>
  }

  lemma {:induction false} RunKeepsInv<C>(w: World<C>, events: seq<Event<C>>)
    requires Inv(w) && IsRun(w, events)
    ensures Inv(After(w, events))
    decreases |events|
  {
    if events != [] {
      StepKeepsInv(w, events[0]);
      RunKeepsInv(Apply(w, events[0]), events[1..]);
    }
  }

  // ------------------------------------------------------------ main results

  /** In every reachable world, whatever the interleaving, a cached entry has been outlived by an
      update or removal of something it was made from iff it is overlapped; and an entry that is
      not overlapped has a recorded path to everything it was made from. */
  lemma StaleIffOverlapped<C>(capacity: Capacity, events: seq<Event<C>>, slot: Slot<Tagged<C>>)
    requires IsRun(Init<C>(capacity), events)
    requires slot in After(Init<C>(capacity), events).host.cache
    ensures var w := After(Init<C>(capacity), events);
      && (slot.entry.overlapped <==> !Fresh(w.versions, slot.entry.stamps))
      && (!slot.entry.overlapped ==>
            forall s | s in slot.entry.stamps :: Reaches(w.host.imports, slot.key, s.key))
  {
    RunKeepsInv(Init<C>(capacity), events);
    var w := After(Init<C>(capacity), events);
    if !slot.entry.overlapped {
      forall s | s in slot.entry.stamps
        ensures Reaches(w.host.imports, slot.key, s.key)
      {
        ReachesIn(w.host.imports, w.host.imports, slot.key, s.key, KeysOf(slot.entry.stamps), Everywhere());
      }
    }
  }

  /** Updates and removals happen only while no analysis is in flight. */
  ghost predicate Sequential<C>(w: World<C>, events: seq<Event<C>>)
    requires IsRun(w, events)
    decreases |events|
  {
    events != [] ==>
      && (events[0].Update? || events[0].Remove? ==> w.flights == map[])
      && Sequential(Apply(w, events[0]), events[1..])
  }

  ghost predicate NothingOverlapped<C>(w: World<C>) {
    && (forall s | s in w.host.cache :: !s.entry.overlapped)
    && (forall id | id in w.flights ::
          !w.flights[id].overlapped
          && forall i | 0 <= i < |w.flights[id].frames| :: !w.flights[id].frames[i].overlapped)
  }

  lemma SequentialStep<C>(w: World<C>, e: Event<C>)
    requires Enabled(w, e) && NothingOverlapped(w)
    requires e.Update? || e.Remove? ==> w.flights == map[]
    ensures NothingOverlapped(Apply(w, e))
  {
    match e
    case Update(uri, _, _) => KeepMembers(w.host.cache, Invalidated(w.host.imports, CanonicalCacheKey(uri)));
    case Remove(uri) => KeepMembers(w.host.cache, Invalidated(w.host.imports, CanonicalCacheKey(uri)));
    case Peek(k) => GetMembers(w.host.cache, k);
    case Open(_, k) => GetMembers(w.host.cache, k); LookupMember(w.host.cache, k);
    case Close(id, checker) =>
      var top := Top(w.flights[id]);
      PutMembers(w.host.cache, w.host.capacity, top.key,
                 Tagged(checker, {Stamp(top.key, top.version)}, top.overlapped));
    case Commit(id, checker) =>
      var f := w.flights[id];
      PutMembers(w.host.cache, w.host.capacity, f.root, Tagged(checker, f.stamps, f.overlapped));
    case _ =>
  }

  lemma {:induction false} SequentialRun<C>(w: World<C>, events: seq<Event<C>>)
    requires NothingOverlapped(w) && IsRun(w, events) && Sequential(w, events)
    ensures NothingOverlapped(After(w, events))
    decreases |events|
  {
    if events != [] {
      SequentialStep(w, events[0]);
      SequentialRun(Apply(w, events[0]), events[1..]);
    }
  }

  /** When updates and removals never overlap an analysis, no cached entry outlives a change of
      anything it was made from, and the paths to all of it are recorded while it is cached. */
  lemma SequentialFreshness<C>(capacity: Capacity, events: seq<Event<C>>, slot: Slot<Tagged<C>>)
    requires IsRun(Init<C>(capacity), events) && Sequential(Init<C>(capacity), events)
    requires slot in After(Init<C>(capacity), events).host.cache
    ensures var w := After(Init<C>(capacity), events);
      && Fresh(w.versions, slot.entry.stamps)
      && forall s | s in slot.entry.stamps :: Reaches(w.host.imports, slot.key, s.key)
  {
    SequentialRun(Init<C>(capacity), events);
    StaleIffOverlapped(capacity, events, slot);
  }

  /** In every reachable world, changing a key drops every entry made from it, overlapped ones
      aside. */
  lemma ChangeDropsEntry<C>(capacity: Capacity, events: seq<Event<C>>, uri: Key, text: string, version: int,
                            slot: Slot<Tagged<C>>)
    requires IsRun(Init<C>(capacity), events)
    requires slot in After(Init<C>(capacity), events).host.cache
    requires !slot.entry.overlapped && Mentions(slot.entry.stamps, CanonicalCacheKey(uri))
    ensures var w := After(Init<C>(capacity), events);
      && Lookup(Apply(w, Update(uri, text, version)).host.cache, slot.key) == None
      && Lookup(Apply(w, Remove(uri)).host.cache, slot.key) == None
  {
    StaleIffOverlapped(capacity, events, slot);
    InvalidationExact(After(Init<C>(capacity), events).host, uri, text, version, slot.key);
  }

  lemma RunOfTwo<C>(w: World<C>, first: Event<C>, second: Event<C>)
    requires Enabled(w, first) && Enabled(Apply(w, first), second)
    ensures IsRun(w, [first, second]) && After(w, [first, second]) == Apply(Apply(w, first), second)
  {
    RunOfOne(Apply(w, first), second);
    assert [first, second][1..] == [second];
  }

  lemma RunOfOne<C>(w: World<C>, e: Event<C>)
    requires Enabled(w, e)
    ensures IsRun(w, [e]) && After(w, [e]) == Apply(w, e)
  {
    assert [e][1..] == [];
  }

  /** A change of something an analysis was served leaves the analysis ready to commit, and stale. */
  lemma HitFlightIsStale<C>(w: World<C>, id: nat, host: HostState<Tagged<C>>, k: Key)
    requires FlightsSound(w) && Idle(w, id) && w.flights[id].frames == []
    requires Mentions(w.flights[id].stamps, k)
    ensures var w1 := Changed(w, host, k);
      && Idle(w1, id) && w1.flights[id].frames == [] && w1.flights[id].root == w.flights[id].root
      && !Fresh(w1.versions, w1.flights[id].stamps)
  {
    var f := w.flights[id];
    assert Hit(f, k).frames == [] && FlightSound(w.host.imports, w.versions, f);
    var s :| s in f.stamps && s.key == k;
    assert s.version != VersionOf(Changed(w, host, k).versions, k);
  }

  /** The condition is needed: from any world that meets the invariant, if an analysis about to
      commit was served a key, an update of that key followed by the commit leaves a stale entry at
      the front of the cache. */
  lemma OverlapGoesStale<C>(w: World<C>, id: nat, checker: C, uri: Key, text: string, version: int)
    requires Inv(w) && Enabled(w, Commit(id, checker))
    requires Mentions(w.flights[id].stamps, CanonicalCacheKey(uri))
    ensures var events := [Update(uri, text, version), Commit(id, checker)];
      && IsRun(w, events)
      && var end := After(w, events);
         end.host.cache != [] && end.host.cache[0].key == w.flights[id].root
         && !Fresh(end.versions, end.host.cache[0].entry.stamps)
  {
    HitFlightIsStale(w, id, Updated(w.host, uri, text, version), CanonicalCacheKey(uri));
    RunOfTwo(w, Update(uri, text, version), Commit(id, checker));
  }

  /** Such worlds are reached: an analysis is served its own document first of all. */
  lemma OverlapIsReachable<C>(uri: Key, text: string, version: int, checker: C)
    ensures var events := [Update(uri, text, version), Begin(0, uri)];
      && IsRun(Init<C>(8), events)
      && var w := After(Init<C>(8), events);
         Enabled(w, Commit(0, checker)) && Mentions(w.flights[0].stamps, CanonicalCacheKey(uri))
  {
    var k := CanonicalCacheKey(uri);
    var w1: World<C> := Apply(Init<C>(8), Update(uri, text, version));
    var w2 := Apply(w1, Begin(0, uri));
    assert Stamp(k, VersionOf(w1.versions, k)) in w2.flights[0].stamps;
    RunOfTwo(Init<C>(8), Update(uri, text, version), Begin(0, uri));
  }

  lemma {:induction false} RunConcat<C>(w: World<C>, first: seq<Event<C>>, second: seq<Event<C>>)
    requires IsRun(w, first) && IsRun(After(w, first), second)
    ensures IsRun(w, first + second) && After(w, first + second) == After(After(w, first), second)
    decreases |first|
  {
    if first == [] {
      assert first + second == second;
    } else {
      assert (first + second)[1..] == first[1..] + second;
      RunConcat(Apply(w, first[0]), first[1..], second);
    }
  }
}
