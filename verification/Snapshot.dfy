/** The state the v2 language server owns (languageserver/server2/snapshot.go and document.go).

    `HostSpec` says what each operation does to the abstract state; `AnalysisHosts` holds the
    classes that the server mutates, proved against it. */
module HostSpec {
  import opened Prelude
  import opened ImportGraph
  import opened Recency

  datatype Document = Document(text: string, version: int)

  /** Revisions are counted in a 64-bit word. */
  const REVISIONS: nat := 0x1_0000_0000_0000_0000

  /** `cache` lists the slots most recently used first; `imports` is the forward edge map. */
  datatype HostState<+V> = HostState(
    revision: nat,
    docs: map<Key, Document>,
    capacity: Capacity,
    cache: seq<Slot<V>>,
    imports: Edges
  )

  /** The identifier of a string location; only its injectivity matters here. */
  function CanonicalCacheKey(uri: Key): Key {
    "S." + uri
  }

  lemma CanonicalCacheKeyInjective(a: Key, b: Key)
    requires CanonicalCacheKey(a) == CanonicalCacheKey(b)
    ensures a == b
  {
    assert a == CanonicalCacheKey(a)[2..];
    assert b == CanonicalCacheKey(b)[2..];
  }

  /** What a change of `key` makes stale: the key and everything that imports it. */
  ghost function Invalidated(imports: Edges, key: Key): set<Key> {
    Dependents(imports, key) + {key}
  }

  ghost function Updated<V>(s: HostState<V>, uri: Key, text: string, version: int): HostState<V> {
    var key := CanonicalCacheKey(uri);
    s.(revision := (s.revision + 1) % REVISIONS,
       docs := s.docs[uri := Document(text, version)],
       cache := Keep(s.cache, Invalidated(s.imports, key)))
  }

  ghost function Removed<V>(s: HostState<V>, uri: Key): HostState<V> {
    var key := CanonicalCacheKey(uri);
    s.(revision := (s.revision + 1) % REVISIONS,
       docs := s.docs - {uri},
       cache := Keep(s.cache, Invalidated(s.imports, key)),
       imports := WithoutEdgesOf(s.imports, key))
  }

  /** A removal that clears the edges first and computes the dependents afterwards. */
  ghost function RemovedClearingFirst<V>(s: HostState<V>, uri: Key): HostState<V> {
    var key := CanonicalCacheKey(uri);
    var cleared := WithoutEdgesOf(s.imports, key);
    s.(revision := (s.revision + 1) % REVISIONS,
       docs := s.docs - {uri},
       cache := Keep(s.cache, Invalidated(cleared, key)),
       imports := cleared)
  }

  /** The two orders of invalidation and clearing give the same state. */
  lemma RemovalOrderIrrelevant<V>(s: HostState<V>, uri: Key)
    ensures RemovedClearingFirst(s, uri) == Removed(s, uri)
  {
    ClearKeepsDependents(s.imports, CanonicalCacheKey(uri));
  }

  /** After a change, a key is found iff it was found before and does not reach the changed key
      along recorded imports; what is found is unchanged. */
  lemma InvalidationExact<V>(s: HostState<V>, uri: Key, text: string, version: int, k: Key)
    ensures var key := CanonicalCacheKey(uri);
      var expected := if k == key || Reaches(s.imports, k, key) then None else Lookup(s.cache, k);
      && Lookup(Updated(s, uri, text, version).cache, k) == expected
      && Lookup(Removed(s, uri).cache, k) == expected
  {
    var key := CanonicalCacheKey(uri);
    LookupKeep(s.cache, Invalidated(s.imports, key), k);
    DependentsExact(s.imports, key, k);
  }

  /** What survives a change keeps its order of recency. */
  lemma SurvivorsKeepOrder<V>(s: HostState<V>, uri: Key, text: string, version: int)
    ensures IsSubsequence(Updated(s, uri, text, version).cache, s.cache)
    ensures IsSubsequence(Removed(s, uri).cache, s.cache)
  {
    KeepInOrder(s.cache, Invalidated(s.imports, CanonicalCacheKey(uri)));
  }

  /** A change of one document drops the entry of another exactly if that one has a recorded path to
      it, and never changes it. */
  lemma DocumentsAreSeparate<V>(s: HostState<V>, uri: Key, text: string, version: int, other: Key)
    requires other != uri
    ensures var expected :=
        if Reaches(s.imports, CanonicalCacheKey(other), CanonicalCacheKey(uri)) then None
        else Lookup(s.cache, CanonicalCacheKey(other));
      && Lookup(Updated(s, uri, text, version).cache, CanonicalCacheKey(other)) == expected
      && Lookup(Removed(s, uri).cache, CanonicalCacheKey(other)) == expected
  {
    if CanonicalCacheKey(other) == CanonicalCacheKey(uri) {
      CanonicalCacheKeyInjective(other, uri);
      assert false;
    }
    InvalidationExact(s, uri, text, version, CanonicalCacheKey(other));
  }

  /** What imports a stale key is stale with it. */
  lemma InvalidatedClosed(imports: Edges, key: Key, dependent: Key)
    requires dependent in Invalidated(imports, key)
    ensures Invalidated(imports, dependent) <= Invalidated(imports, key)
  {
    DependentsExact(imports, key, dependent);
    ReachesSelf(imports, key, Everywhere());
    forall v | v in Invalidated(imports, dependent)
      ensures v in Invalidated(imports, key)
    {
      DependentsExact(imports, dependent, v);
      DependentsExact(imports, key, v);
      if v != dependent {
        ReachesTransitive(imports, v, dependent, key, Everywhere());
      }
    }
  }

  /** After a change of `uri`, changing a document that depends on it drops nothing more. */
  lemma DependentsAlreadyDropped<V>(s: HostState<V>, uri: Key, text: string, version: int,
                                    other: Key, otherText: string, otherVersion: int)
    requires CanonicalCacheKey(other) in Invalidated(s.imports, CanonicalCacheKey(uri))
    ensures var once := Updated(s, uri, text, version);
      Updated(once, other, otherText, otherVersion).cache == once.cache
  {
    var stale := Invalidated(s.imports, CanonicalCacheKey(uri));
    var more := Invalidated(s.imports, CanonicalCacheKey(other));
    InvalidatedClosed(s.imports, CanonicalCacheKey(uri), CanonicalCacheKey(other));
    KeepTwice(s.cache, stale, more);
    assert stale + more == stale;
  }
}

module AnalysisHosts {
  import opened Prelude
  import opened ImportGraph
  import opened DependencyGraphs
  import opened Recency
  import opened LruCaches
  import opened HostSpec

  class DocumentStore {
    var docs: map<Key, Document>

    constructor ()
      ensures docs == map[]
    {
      docs := map[];
    }

    method Set(uri: Key, text: string, version: int)
      modifies this
      ensures docs == old(docs)[uri := Document(text, version)]
    {
      docs := docs[uri := Document(text, version)];
    }

    method Get(uri: Key) returns (doc: Option<Document>)
      ensures doc == if uri in docs then Some(docs[uri]) else None
    {
      doc := if uri in docs then Some(docs[uri]) else None;
    }

    method Delete(uri: Key)
      modifies this
      ensures docs == old(docs) - {uri}
    {
      docs := docs - {uri};
    }
  }

  /** Documents are copied, the cache and the graph are shared. */
  datatype HostSnapshot<V> = HostSnapshot(
    revision: nat,
    documents: map<Key, Document>,
    cache: LRUCheckerCache<V>,
    depGraph: DependencyGraph
  )

  class AnalysisHost<V> {
    var revision: nat
    const docs: DocumentStore
    const cache: LRUCheckerCache<V>
    const depGraph: DependencyGraph

    ghost predicate Valid()
      reads this, cache, depGraph
    {
      cache.Valid() && depGraph.Valid() && revision < REVISIONS
    }

    ghost function State(): HostState<V>
      reads this, docs, cache, cache.order, depGraph
    {
      HostState(revision, docs.docs, cache.capacity, cache.Contents(), depGraph.forward)
    }

    constructor (cacheCapacity: int)
      ensures Valid()
      ensures State() == HostState(0, map[], if cacheCapacity < 1 then 1 else cacheCapacity, [], map[])
      ensures fresh(docs) && fresh(cache) && fresh(depGraph)
    {
      revision := 0;
      docs := new DocumentStore();
      cache := new LRUCheckerCache(cacheCapacity);
      depGraph := new DependencyGraph();
    }

    method UpdateDocument(uri: Key, text: string, version: int)
      requires Valid()
      modifies this, docs, cache`order, cache`items
      ensures Valid()
      ensures State() == Updated(old(State()), uri, text, version)
      ensures docs.docs == old(docs.docs)[uri := Document(text, version)]
    {
      revision := (revision + 1) % REVISIONS;
      docs.Set(uri, text, version);
      InvalidateKey(CanonicalCacheKey(uri));
    }

    method RemoveDocument(uri: Key)
      requires Valid()
      modifies this, docs, cache`order, cache`items, depGraph
      ensures Valid()
      ensures State() == Removed(old(State()), uri)
      ensures docs.docs == old(docs.docs) - {uri}
    {
      revision := (revision + 1) % REVISIONS;
      var cacheKey := CanonicalCacheKey(uri);
      InvalidateKey(cacheKey);
      ForgetDocument(uri, cacheKey);
    }

    /** The last two steps of a removal, which leave the cache alone. */
    method ForgetDocument(uri: Key, cacheKey: Key)
      requires Valid()
      modifies docs, depGraph
      ensures Valid()
      ensures State() == old(State()).(
        docs := old(State()).docs - {uri}, imports := WithoutEdgesOf(old(State()).imports, cacheKey))
    {
      depGraph.ClearDependenciesOf(cacheKey);
      docs.Delete(uri);
    }

    /** Drops the transitive dependents first, then the key itself. */
    method InvalidateKey(cacheKey: Key)
      requires Valid()
      modifies cache`order, cache`items
      ensures Valid()
      ensures cache.Contents() == Keep(old(cache.Contents()), Invalidated(depGraph.forward, cacheKey))
    {
      ghost var start := cache.Contents();
      var dependents := depGraph.Invalidate(cacheKey);
      ghost var dead: set<Key> := {};
      KeepNothingDead(start, dead);
      for i := 0 to |dependents|
        invariant cache.Valid()
        invariant forall k :: k in dead <==> k in dependents[..i]
        invariant cache.Contents() == Keep(start, dead)
      {
        cache.Delete(dependents[i]);
        KeepTwice(start, dead, {dependents[i]});
        assert dependents[..i + 1] == dependents[..i] + [dependents[i]];
        dead := dead + {dependents[i]};
      }
      cache.Delete(cacheKey);
      KeepTwice(start, dead, {cacheKey});
      forall k
        ensures k in dead + {cacheKey} <==> k in Invalidated(depGraph.forward, cacheKey)
      {
        DependentsExact(depGraph.forward, cacheKey, k);
      }
      assert dead + {cacheKey} == Invalidated(depGraph.forward, cacheKey);
    }

    method Snapshot() returns (snap: HostSnapshot<V>)
      ensures snap == HostSnapshot(revision, docs.docs, cache, depGraph)
    {
      snap := HostSnapshot(revision, docs.docs, cache, depGraph);
    }
  }
}
