/** What any sequence of calls leaves in the documents, the revision and the import edges
    (languageserver/server2/snapshot.go with languageserver/server2/analysis.go). */
module CallHistories {
  import opened Prelude
  import opened ImportGraph
  import opened Recency
  import opened HostSpec
  import opened AnalysisSpec
  import opened AnalysisRuns
  import opened EngineFreshness

  /** The state after `calls`, starting from a new host. */
  ghost function StateAfter<C>(capacity: Capacity, calls: seq<Call<C>>): Host<C> {
    PerformAll(HostState(0, map[], capacity, [], map[]), calls)
  }

  lemma {:induction false} PerformLast<C>(s: Host<C>, calls: seq<Call<C>>, last: Call<C>)
    ensures PerformAll(s, calls + [last]) == Perform(PerformAll(s, calls), last)
    decreases |calls|
  {
    if calls == [] {
      assert [last][1..] == [];
      assert calls + [last] == [last];
    } else {
      assert (calls + [last])[1..] == calls[1..] + [last];
      PerformLast(Perform(s, calls[0]), calls[1..], last);
    }
  }

  lemma StateAfterNext<C>(capacity: Capacity, calls: seq<Call<C>>, n: nat)
    requires n < |calls|
    ensures StateAfter(capacity, calls[..n + 1]) == Perform(StateAfter(capacity, calls[..n]), calls[n])
  {
    assert calls[..n + 1] == calls[..n] + [calls[n]];
    PerformLast(HostState(0, map[], capacity, [], map[]), calls[..n], calls[n]);
  }

  /** Some member of `on` below `n` has no member of `off` between itself and `n`. */
  ghost predicate Lasts(on: set<nat>, off: set<nat>, n: nat) {
    exists i | i in on :: i < n && forall j | j in off :: !(i < j < n)
  }

  lemma LastsOneMore(on: set<nat>, off: set<nat>, n: nat)
    ensures Lasts(on, off, n + 1) <==> n in on || (n !in off && Lasts(on, off, n))
  {
  }

  // ------------------------------------------------------- documents, revision

  predicate IsChange<C>(call: Call<C>) {
    call.UpdateCall? || call.RemoveCall?
  }

  /** The places of the updates and removals of `uri`. */
  function ChangesOf<C>(calls: seq<Call<C>>, uri: Key): set<nat> {
    set i: nat | i < |calls| && IsChange(calls[i]) && calls[i].uri == uri
  }

  /** The places of the updates of `uri` with this text and version. */
  function UpdatesOf<C>(calls: seq<Call<C>>, uri: Key, text: string, version: int): set<nat> {
    set i: nat | i < |calls| && calls[i].UpdateCall?
                 && calls[i].uri == uri && calls[i].text == text && calls[i].version == version
  }

  /** The places of all its updates. */
  function AllUpdatesOf<C>(calls: seq<Call<C>>, uri: Key): set<nat> {
    set i: nat | i < |calls| && calls[i].UpdateCall? && calls[i].uri == uri
  }

  /** What one call does to the documents, the revision and the capacity. */
  lemma CallStep<C>(s: Host<C>, call: Call<C>)
    ensures var t := Perform(s, call);
      && t.capacity == s.capacity
      && t.revision == (if IsChange(call) then (s.revision + 1) % 0x1_0000_0000_0000_0000 else s.revision)
      && forall uri, doc :: (uri, doc) in t.docs.Items <==>
           if IsChange(call) && call.uri == uri then call.UpdateCall? && doc == Document(call.text, call.version)
           else (uri, doc) in s.docs.Items
    ensures forall uri :: uri in Perform(s, call).docs <==>
              if IsChange(call) && call.uri == uri then call.UpdateCall? else uri in s.docs
  {
  }

  lemma {:induction false} DocumentUpTo<C>(capacity: Capacity, calls: seq<Call<C>>, n: nat, uri: Key,
                                           text: string, version: int)
    requires n <= |calls|
    ensures (uri, Document(text, version)) in StateAfter(capacity, calls[..n]).docs.Items <==>
              Lasts(UpdatesOf(calls, uri, text, version), ChangesOf(calls, uri), n)
  {
    if n > 0 {
      DocumentUpTo(capacity, calls, n - 1, uri, text, version);
      StateAfterNext(capacity, calls, n - 1);
      CallStep(StateAfter(capacity, calls[..n - 1]), calls[n - 1]);
      LastsOneMore(UpdatesOf(calls, uri, text, version), ChangesOf(calls, uri), n - 1);
    }
  }

  /** A document is open with some text and version exactly if an update with that text and version is not
      followed by another update or a removal of it. */
  lemma DocumentIsLastUpdate<C>(capacity: Capacity, calls: seq<Call<C>>, uri: Key, text: string, version: int)
    ensures var docs := StateAfter(capacity, calls).docs;
      (uri in docs && docs[uri] == Document(text, version)) <==>
        Lasts(UpdatesOf(calls, uri, text, version), ChangesOf(calls, uri), |calls|)
  {
    assert calls[..|calls|] == calls;
    DocumentUpTo(capacity, calls, |calls|, uri, text, version);
    var docs := StateAfter(capacity, calls).docs;
    assert (uri, Document(text, version)) in docs.Items <==> uri in docs && docs[uri] == Document(text, version);
  }

  lemma {:induction false} OpenUpTo<C>(capacity: Capacity, calls: seq<Call<C>>, n: nat, uri: Key)
    requires n <= |calls|
    ensures uri in StateAfter(capacity, calls[..n]).docs <==>
              Lasts(AllUpdatesOf(calls, uri), ChangesOf(calls, uri), n)
  {
    if n > 0 {
      OpenUpTo(capacity, calls, n - 1, uri);
      StateAfterNext(capacity, calls, n - 1);
      CallStep(StateAfter(capacity, calls[..n - 1]), calls[n - 1]);
      LastsOneMore(AllUpdatesOf(calls, uri), ChangesOf(calls, uri), n - 1);
    }
  }

  /** A document is open exactly if its last update or removal is an update. */
  lemma OpenIffLastIsUpdate<C>(capacity: Capacity, calls: seq<Call<C>>, uri: Key)
    ensures uri in StateAfter(capacity, calls).docs <==>
              Lasts(AllUpdatesOf(calls, uri), ChangesOf(calls, uri), |calls|)
  {
    assert calls[..|calls|] == calls;
    OpenUpTo(capacity, calls, |calls|, uri);
  }

  function ChangeCount<C>(calls: seq<Call<C>>): nat {
    if calls == [] then 0
    else ChangeCount(calls[..|calls| - 1]) + if IsChange(calls[|calls| - 1]) then 1 else 0
  }

  lemma NextRevision(count: nat)
    ensures (count % 0x1_0000_0000_0000_0000 + 1) % 0x1_0000_0000_0000_0000 == (count + 1) % 0x1_0000_0000_0000_0000
  {
  }

  /** The revision counts the updates and removals in a 64-bit word; the capacity stays as it was. */
  lemma {:induction false} RevisionCountsChanges<C>(capacity: Capacity, calls: seq<Call<C>>)
    ensures StateAfter(capacity, calls).revision == ChangeCount(calls) % 0x1_0000_0000_0000_0000
    ensures StateAfter(capacity, calls).capacity == capacity
    decreases |calls|
  {
    if calls != [] {
      var before, last := calls[..|calls| - 1], calls[|calls| - 1];
      RevisionCountsChanges(capacity, before);
      assert calls[..|calls|] == calls;
      StateAfterNext(capacity, calls, |calls| - 1);
      CallStep(StateAfter(capacity, before), last);
      NextRevision(ChangeCount(before));
    }
  }

  // -------------------------------------------------------------------- edges

  /** The places of the analyses whose import handler was served `b` for the document of `a`. */
  ghost function Recordings<C>(capacity: Capacity, calls: seq<Call<C>>, a: Key, b: Key): set<nat> {
    set i: nat | i < |calls| && Records(StateAfter(capacity, calls[..i]), calls[i], a, b)
  }

  /** The places of the removals of the document of `a`. */
  function RemovalsOf<C>(calls: seq<Call<C>>, a: Key): set<nat> {
    set i: nat | i < |calls| && calls[i].RemoveCall? && a == "S." + calls[i].uri
  }

  lemma EdgeStep<C>(capacity: Capacity, calls: seq<Call<C>>, n: nat, a: Key, b: Key)
    requires n < |calls|
    ensures HasEdge(StateAfter(capacity, calls[..n + 1]).imports, a, b) <==>
              || n in Recordings(capacity, calls, a, b)
              || (n !in RemovalsOf(calls, a) && HasEdge(StateAfter(capacity, calls[..n]).imports, a, b))
  {
    StateAfterNext(capacity, calls, n);
    PerformEdges(StateAfter(capacity, calls[..n]), calls[n], a, b);
  }

  lemma {:induction false} EdgeUpTo<C>(capacity: Capacity, calls: seq<Call<C>>, n: nat, a: Key, b: Key)
    requires n <= |calls|
    ensures HasEdge(StateAfter(capacity, calls[..n]).imports, a, b) <==>
              Lasts(Recordings(capacity, calls, a, b), RemovalsOf(calls, a), n)
  {
    if n > 0 {
      EdgeUpTo(capacity, calls, n - 1, a, b);
      EdgeStep(capacity, calls, n - 1, a, b);
      LastsOneMore(Recordings(capacity, calls, a, b), RemovalsOf(calls, a), n - 1);
    }
  }

  /** An import edge is recorded exactly if the import handler of some analysis was served its target for
      its source and the source has not been removed since. */
  lemma EdgeIffRecorded<C>(capacity: Capacity, calls: seq<Call<C>>, a: Key, b: Key)
    ensures HasEdge(StateAfter(capacity, calls).imports, a, b) <==>
              Lasts(Recordings(capacity, calls, a, b), RemovalsOf(calls, a), |calls|)
  {
    assert calls[..|calls|] == calls;
    EdgeUpTo(capacity, calls, |calls|, a, b);
  }
}
