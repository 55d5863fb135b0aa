/** What a client is shown for a document (languageserver/server2/server.go).

    A check publishes the diagnostics of its snapshot when it ends; closing a document publishes an
    empty set.  Over every interleaving of `CancelProtocol` with changes and closes, this module says
    when the last publication is the right one. */
module Publications {
  import opened Prelude
  import opened CancelSpec
  import opened HostSpec
  import opened AnalysisSpec
  import Checks = CancelProtocol

  /** `shown` gives the content version whose diagnostics were published last; after an empty
      publication there is none. */
  datatype Screen = Screen(checks: Checks.Protocol, open: set<Key>, shown: map<Key, nat>)

  datatype Event =
    | Change(uri: Key)            // UpdateDocument, on open or change
    | Remove(uri: Key)            // RemoveDocument, on close
    | Clear(uri: Key)             // the empty publication that ends a close
    | Run(step: Checks.Event)     // any other step

  const INIT := Screen(Checks.INIT, {}, map[])

  predicate Enabled(s: Screen, e: Event) {
    e.Run? ==> !e.step.Edit? && Checks.Enabled(s.checks, e.step)
  }

  function Apply(s: Screen, e: Event): Screen
    requires Enabled(s, e)
  {
    match e
    case Change(uri) => s.(checks := Checks.Apply(s.checks, Checks.Edit(uri)), open := s.open + {uri})
    case Remove(uri) => s.(checks := Checks.Apply(s.checks, Checks.Edit(uri)), open := s.open - {uri})
    case Clear(uri) => s.(shown := s.shown - {uri})
    case Run(step) =>
      Screen(Checks.Apply(s.checks, step), s.open,
             if step.Publish? then s.shown[s.checks.runs[step.run].uri := s.checks.runs[step.run].seen] else s.shown)
  }

  predicate IsRun(s: Screen, events: seq<Event>)
    decreases |events|
  {
    events == [] || (Enabled(s, events[0]) && IsRun(Apply(s, events[0]), events[1..]))
  }

  function After(s: Screen, events: seq<Event>): Screen
    requires IsRun(s, events)
    decreases |events|
  {
    if events == [] then s else After(Apply(s, events[0]), events[1..])
  }

  function Content(s: Screen, uri: Key): nat {
    Checks.Count(s.checks.content, uri)
  }

  /** An open document shows diagnostics of its current content, a closed one shows none. */
  predicate Right(s: Screen, uri: Key) {
    if uri in s.open then uri in s.shown && s.shown[uri] == Content(s, uri) else uri !in s.shown
  }

  // ------------------------------------------------------------------ one step

  /** A publication is right exactly if the document is open and the snapshot current; an empty one,
      exactly if the document is closed. */
  lemma PublicationRightIff(s: Screen, run: nat, uri: Key)
    requires Enabled(s, Run(Checks.Publish(run)))
    ensures var r := s.checks.runs[run];
      Right(Apply(s, Run(Checks.Publish(run))), r.uri) <==> r.uri in s.open && r.seen == Content(s, r.uri)
    ensures Right(Apply(s, Clear(uri)), uri) <==> uri !in s.open
  {
  }

  /** The steps that make what is shown for `uri` wrong. */
  predicate Misleads(s: Screen, e: Event, uri: Key)
    requires Enabled(s, e)
  {
    match e
    case Change(u) => u == uri
    case Remove(u) => u == uri && uri in s.open
    case Clear(u) => u == uri && uri in s.open
    case Run(step) =>
      && step.Publish?
      && s.checks.runs[step.run].uri == uri
      && !(uri in s.open && s.checks.runs[step.run].seen == Content(s, uri))
  }

  /** Nothing else does: what is shown goes wrong exactly with a change, until its check publishes, with
      a removal, until the empty publication, and with a check that publishes late. */
  lemma StepKeepsRightIff(s: Screen, e: Event, uri: Key)
    requires Enabled(s, e) && Right(s, uri) && Checks.Inv(s.checks)
    ensures Right(Apply(s, e), uri) <==> !Misleads(s, e, uri)
  {
    if e.Run? {
      assert Checks.Apply(s.checks, e.step).content == s.checks.content;
    }
  }

  // ------------------------------------------------------- checks that publish late

  /** Past its last cancellation check and about to publish. */
  predicate Publishing(r: Checks.Run) {
    r.phase.Passed? || r.phase.Committed?
  }

  /** Whatever is about to be published has seen every scheduled change. */
  ghost predicate PublishersCurrent(p: Checks.Protocol) {
    forall r | 0 <= r < |p.runs| && Publishing(p.runs[r]) :: p.runs[r].seen >= Checks.Count(p.covered, p.runs[r].uri)
  }

  /** A schedule or close comes too late for a check of the document that is about to publish. */
  predicate Outruns(p: Checks.Protocol, e: Checks.Event) {
    && (e.Schedule? || e.Forget?)
    && exists r | 0 <= r < |p.runs| ::
         p.runs[r].uri == e.uri && Publishing(p.runs[r]) && p.runs[r].seen < Checks.Count(p.content, e.uri)
  }

  /** A step lets an old snapshot be published exactly if it is such a schedule or close. */
  lemma StepKeepsPublishersCurrentIff(p: Checks.Protocol, e: Checks.Event)
    requires Checks.Inv(p) && Checks.Cancellable(p) && PublishersCurrent(p)
    requires Checks.Enabled(p, e) && |p.runs| < TOKENS
    ensures PublishersCurrent(Checks.Apply(p, e)) <==> !Outruns(p, e)
  {
    var q := Checks.Apply(p, e);
    if Outruns(p, e) {
      var r :| 0 <= r < |p.runs| && p.runs[r].uri == e.uri && Publishing(p.runs[r])
            && p.runs[r].seen < Checks.Count(p.content, e.uri);
      assert Publishing(q.runs[r]) && q.runs[r].seen == p.runs[r].seen && q.runs[r].uri == e.uri;
    } else {
      forall r | 0 <= r < |q.runs| && Publishing(q.runs[r])
        ensures q.runs[r].seen >= Checks.Count(q.covered, q.runs[r].uri)
      {
        PublisherStaysCurrent(p, e, r);
      }
    }
  }

  lemma PublisherStaysCurrent(p: Checks.Protocol, e: Checks.Event, r: nat)
    requires Checks.Inv(p) && Checks.Cancellable(p) && PublishersCurrent(p)
    requires Checks.Enabled(p, e) && !Outruns(p, e)
    requires r < |Checks.Apply(p, e).runs| && Publishing(Checks.Apply(p, e).runs[r])
    ensures var q := Checks.Apply(p, e); q.runs[r].seen >= Checks.Count(q.covered, q.runs[r].uri)
  {
    assert r < |p.runs| && Checks.RunSound(p, r);
    var q := Checks.Apply(p, e);
    assert q.runs[r].seen == p.runs[r].seen && q.runs[r].uri == p.runs[r].uri;
    if !Publishing(p.runs[r]) {
      Checks.CancellableIff(p);
      assert e.Check? && e.run == r && !p.runs[r].cancelled;
    }
  }

  /** No check is overwritten while it could still be cancelled, and none is outrun by a schedule or
      close while it publishes. */
  predicate Harmless(s: Screen, events: seq<Event>)
    requires IsRun(s, events)
    decreases |events|
  {
    events != [] ==>
      && (events[0].Run? ==>
            !Checks.OverwritesLive(s.checks, events[0].step) && !Outruns(s.checks, events[0].step))
      && Harmless(Apply(s, events[0]), events[1..])
  }

  ghost predicate InHand(s: Screen) {
    Checks.Cancellable(s.checks) && PublishersCurrent(s.checks)
  }

  ghost predicate AlwaysInHand(s: Screen, events: seq<Event>)
    requires IsRun(s, events)
    decreases |events|
  {
    InHand(s) && (events != [] ==> AlwaysInHand(Apply(s, events[0]), events[1..]))
  }

  lemma StepKeepsInHandIff(s: Screen, e: Event)
    requires Enabled(s, e) && Checks.Inv(s.checks) && InHand(s) && |s.checks.runs| < TOKENS
    ensures Checks.Inv(Apply(s, e).checks)
    ensures |Apply(s, e).checks.runs| <= |s.checks.runs| + 1
    ensures InHand(Apply(s, e))
       <==> (e.Run? ==> !Checks.OverwritesLive(s.checks, e.step) && !Outruns(s.checks, e.step))
  {
    if !e.Clear? {
      var step := if e.Run? then e.step else Checks.Edit(e.uri);
      Checks.StepKeepsInv(s.checks, step);
      Checks.StepKeepsCancellableIff(s.checks, step);
      StepKeepsPublishersCurrentIff(s.checks, step);
    }
  }

  lemma {:induction false} AlwaysInHandFrom(s: Screen, events: seq<Event>)
    requires IsRun(s, events) && Checks.Inv(s.checks) && InHand(s) && |s.checks.runs| + |events| < TOKENS
    ensures AlwaysInHand(s, events) <==> Harmless(s, events)
    ensures Harmless(s, events) ==> InHand(After(s, events)) && Checks.Inv(After(s, events).checks)
    decreases |events|
  {
    if events != [] {
      StepKeepsInHandIff(s, events[0]);
      if InHand(Apply(s, events[0])) {
        AlwaysInHandFrom(Apply(s, events[0]), events[1..]);
      }
    }
  }

  /** Throughout a run every undecided check can be cancelled and whatever is about to be published has
      seen every scheduled change, exactly if the run is harmless. */
  lemma AlwaysInHandIff(events: seq<Event>)
    requires IsRun(INIT, events) && |events| < TOKENS
    ensures AlwaysInHand(INIT, events) <==> Harmless(INIT, events)
  {
    AlwaysInHandFrom(INIT, events);
  }

  /** After a harmless run, once the last change of an open document is scheduled, whatever is published
      for it is right. */
  lemma ScheduledPublicationIsRight(events: seq<Event>, run: nat)
    requires IsRun(INIT, events) && |events| < TOKENS && Harmless(INIT, events)
    requires Enabled(After(INIT, events), Run(Checks.Publish(run)))
    requires var s := After(INIT, events);
      var uri := s.checks.runs[run].uri;
      uri in s.open && Checks.Count(s.checks.covered, uri) == Content(s, uri)
    ensures var s := After(INIT, events); Right(Apply(s, Run(Checks.Publish(run))), s.checks.runs[run].uri)
  {
    AlwaysInHandFrom(INIT, events);
    InHandPublishesRight(After(INIT, events), run);
  }

  lemma InHandPublishesRight(s: Screen, run: nat)
    requires Checks.Inv(s.checks) && PublishersCurrent(s.checks) && Enabled(s, Run(Checks.Publish(run)))
    requires var uri := s.checks.runs[run].uri;
      uri in s.open && Checks.Count(s.checks.covered, uri) == Content(s, uri)
    ensures Right(Apply(s, Run(Checks.Publish(run))), s.checks.runs[run].uri)
  {
    assert Checks.RunSound(s.checks, run) && Publishing(s.checks.runs[run]);
    PublicationRightIff(s, run, s.checks.runs[run].uri);
  }

  // ---------------------------------------------------------------- runs that fail

  /** From any state: a document is closed while one of its checks is about to publish.  The check still
      publishes, behind the empty publication, and its diagnostics stay on a closed document. */
  lemma LatePublicationStays(s: Screen, run: nat)
    requires Enabled(s, Run(Checks.Publish(run)))
    ensures var uri := s.checks.runs[run].uri;
      var closed := Apply(Apply(Apply(s, Run(Checks.Forget(uri))), Remove(uri)), Clear(uri));
      && Right(closed, uri)
      && Enabled(closed, Run(Checks.Publish(run)))
      && var end := Apply(closed, Run(Checks.Publish(run)));
         uri in end.shown && uri !in end.open && !Right(end, uri)
  {
    var uri := s.checks.runs[run].uri;
    var forgotten := Checks.Apply(s.checks, Checks.Forget(uri));
    assert forgotten.runs[run].phase == s.checks.runs[run].phase && forgotten.runs[run].uri == uri;
  }

  /** From any state with a closed document: a debounce timer that was pending when it was closed, which
      the close does not stop, starts a check; the check does not find the document and publishes. */
  lemma TimerPublishesAfterClose(s: Screen, uri: Key)
    requires uri !in s.open && Right(s, uri)
    ensures var n := |s.checks.runs|;
      var s1 := Apply(s, Run(Checks.Start(uri)));
      && Enabled(s1, Run(Checks.Register(n)))
      && var s2 := Apply(s1, Run(Checks.Register(n)));
         && Enabled(s2, Run(Checks.Snapshot(n)))
         && var s3 := Apply(s2, Run(Checks.Snapshot(n)));
            && Enabled(s3, Run(Checks.Check(n, true)))
            && var s4 := Apply(s3, Run(Checks.Check(n, true)));
               && Enabled(s4, Run(Checks.Publish(n)))
               && !Right(Apply(s4, Run(Checks.Publish(n))), uri)
  {
  }

  /** What such a check meets, and what it publishes. */
  lemma ClosedIsNotFound<C>(s: Host<C>, documents: map<Key, Document>, uri: Key, script: Script<C>)
    requires uri !in documents && !script.cancelledAtStart
    ensures Checks.Answers(documents, uri, script) == [Checks.Answer(false, true)]
    ensures Analyzed(s, documents, uri, script).1.diagnostics == [DOCUMENT_NOT_FOUND]
    ensures !Analyzed(s, documents, uri, script).1.cancelled
  {
  }
}
