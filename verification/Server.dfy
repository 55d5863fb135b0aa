/** The per-document cancellation tokens of the v2 language server
    (languageserver/server2/server.go).

    `CancelSpec` says what each section under `cancelsMu` does to the `cancels` map; the class
    `ServerV2` is proved against it.  `CancelProtocol` steps any number of checks through their
    phases in any interleaving, with the same functions for the locked sections. */
module CancelSpec {
  import opened Prelude

  /** Tokens are counted in a 64-bit word. */
  const TOKENS: nat := 0x1_0000_0000_0000_0000

  /** `handle` is whatever lets the entry cancel its own run. */
  datatype CancelEntry<+H> = CancelEntry(handle: H, token: nat)

  function NextToken(token: nat): nat {
    (token + 1) % TOKENS
  }

  function Registering<H>(cancels: map<Key, CancelEntry<H>>, uri: Key, handle: H, token: nat)
    : map<Key, CancelEntry<H>>
  {
    cancels[uri := CancelEntry(handle, token)]
  }

  function CleaningUp<H>(cancels: map<Key, CancelEntry<H>>, uri: Key, token: nat): map<Key, CancelEntry<H>> {
    if uri in cancels && cancels[uri].token == token then cancels - {uri} else cancels
  }

  function Closing<H>(cancels: map<Key, CancelEntry<H>>, uri: Key): map<Key, CancelEntry<H>> {
    cancels - {uri}
  }
}

module Servers {
  import opened Prelude
  import opened CancelSpec

  /** A cancellable context: only its cancelled state matters. */
  class Context {
    var cancelled: bool
  }

  class ServerV2 {
    var cancels: map<Key, CancelEntry<Context>>
    var nextToken: nat

    constructor ()
      ensures cancels == map[] && nextToken == 0
    {
      cancels, nextToken := map[], 0;
    }

    ghost function Handle(uri: Key): set<Context>
      reads this
    {
      if uri in cancels then {cancels[uri].handle} else {}
    }

    /** The first section of `scheduleCheck`: the entry is cancelled but stays in the map. */
    method CancelInFlight(uri: Key)
      modifies Handle(uri)
      ensures forall c | c in Handle(uri) :: c.cancelled
    {
      if uri in cancels {
        cancels[uri].handle.cancelled := true;
      }
    }

    /** The start of `runCheck`: a new context and token, stored over any entry already there. */
    method Register(uri: Key) returns (ctx: Context, token: nat)
      modifies this
      ensures fresh(ctx) && !ctx.cancelled
      ensures token == NextToken(old(nextToken)) == nextToken
      ensures token == (old(nextToken) + 1) % 0x1_0000_0000_0000_0000
      ensures cancels == Registering(old(cancels), uri, ctx, token)
      ensures cancels == old(cancels)[uri := CancelEntry(ctx, token)]
    {
      ctx := new Context;
      ctx.cancelled := false;
      nextToken := NextToken(nextToken);
      token := nextToken;
      cancels := cancels[uri := CancelEntry(ctx, token)];
    }

    /** The deferred end of `runCheck`. */
    method CleanUp(uri: Key, ctx: Context, token: nat)
      modifies this`cancels, ctx
      ensures ctx.cancelled
      ensures cancels == CleaningUp(old(cancels), uri, token)
      ensures forall u, entry :: (u, entry) in cancels.Items <==>
                (u, entry) in old(cancels).Items && !(u == uri && entry.token == token)
    {
      ctx.cancelled := true;
      if uri in cancels && cancels[uri].token == token {
        cancels := cancels - {uri};
      }
    }

    /** The first section of `DidCloseTextDocument`. */
    method CancelAndForget(uri: Key)
      modifies this`cancels, Handle(uri)
      ensures forall c | c in old(Handle(uri)) :: c.cancelled
      ensures cancels == Closing(old(cancels), uri)
      ensures cancels == old(cancels) - {uri}
    {
      if uri in cancels {
        cancels[uri].handle.cancelled := true;
        cancels := cancels - {uri};
      }
    }
  }
}

module CancelProtocol {
  import opened Prelude
  import opened CancelSpec
  import opened HostSpec
  import opened AnalysisSpec

  datatype Phase =
    | Started                    // token drawn, context made
    | Registered                 // entry stored in the map
    | Snapshotted                // host snapshot taken
    | Begun                      // past the first of the analysis's three cancellation checks
    | Parsed                     // past the second
    | Stopped                    // a check found the context cancelled
    | Passed(commits: bool)      // none did; `commits` unless it ended early with diagnostics only
    | Committed                  // root checker cached
    | Published                  // diagnostics sent
    | CleanedUp

  /** What an analysis meets at a check: whether its context is cancelled, and whether, if it is not,
      the analysis ends before the next check. */
  datatype Answer = Answer(cancelled: bool, ends: bool)

  /** `seen` is the content version in the snapshot.  `superseded`: another run has stored its
      entry over this run's.  `answers`, `committed` and `published` are history. */
  datatype Run = Run(
    uri: Key,
    phase: Phase,
    cancelled: bool,
    seen: nat,
    superseded: bool,
    answers: seq<Answer>,
    committed: bool,
    published: bool
  )

  /** Runs are numbered in the order they start.  `content` counts changes of a document; `covered`
      is the content version at the last time its in-flight check was cancelled. */
  datatype Protocol = Protocol(
    cancels: map<Key, CancelEntry<nat>>,
    runs: seq<Run>,
    content: map<Key, nat>,
    covered: map<Key, nat>
  )

  datatype Event =
    | Edit(uri: Key)                     // UpdateDocument or RemoveDocument
    | Schedule(uri: Key)                 // scheduleCheck's locked section
    | Forget(uri: Key)                   // DidCloseTextDocument's locked section
    | Start(uri: Key)                    // runCheck begins, in sequence or on a timer
    | Register(run: nat)
    | Snapshot(run: nat)
    | Check(run: nat, ends: bool)        // a cancellation check, up to the next one
    | Commit(run: nat)
    | Publish(run: nat)
    | CleanUp(run: nat)

  function TokenOf(run: nat): nat {
    NextToken(run)
  }

  function Count(m: map<Key, nat>, k: Key): nat {
    if k in m then m[k] else 0
  }

  predicate At(p: Protocol, run: nat, phase: Phase) {
    run < |p.runs| && p.runs[run].phase == phase
  }

  /** Between the snapshot and the last cancellation check. */
  predicate Checking(r: Run) {
    r.phase.Snapshotted? || r.phase.Begun? || r.phase.Parsed?
  }

  /** Where a check leads.  Nothing ends the analysis behind its last check. */
  function CheckPoint(phase: Phase, answer: Answer): Phase {
    if answer.cancelled then Stopped
    else match phase
      case Snapshotted => if answer.ends then Passed(false) else Begun
      case Begun => if answer.ends then Passed(false) else Parsed
      case _ => Passed(true)
  }

  predicate Enabled(p: Protocol, e: Event) {
    match e
    case Edit(_) => true
    case Schedule(_) => true
    case Forget(_) => true
    case Start(_) => true
    case Register(r) => At(p, r, Started)
    case Snapshot(r) => At(p, r, Registered)
    case Check(r, ends) => r < |p.runs| && Checking(p.runs[r]) && (ends ==> !p.runs[r].phase.Parsed?)
    case Commit(r) => At(p, r, Passed(true))
    case Publish(r) => At(p, r, Passed(false)) || At(p, r, Committed)
    case CleanUp(r) => At(p, r, Stopped) || At(p, r, Published)
  }

  function CancelRun(p: Protocol, uri: Key): seq<Run> {
    if uri in p.cancels && p.cancels[uri].handle < |p.runs| then
      var r := p.cancels[uri].handle;
      p.runs[r := p.runs[r].(cancelled := true)]
    else p.runs
  }

  function Supersede(p: Protocol, uri: Key): seq<Run> {
    if uri in p.cancels && p.cancels[uri].handle < |p.runs| then
      var r := p.cancels[uri].handle;
      p.runs[r := p.runs[r].(superseded := true)]
    else p.runs
  }

  function Checked(r: Run, ends: bool): Run {
    var answer := Answer(r.cancelled, ends);
    r.(phase := CheckPoint(r.phase, answer), answers := r.answers + [answer])
  }

  function Apply(p: Protocol, e: Event): Protocol
    requires Enabled(p, e)
  {
    match e
    case Edit(uri) => p.(content := p.content[uri := Count(p.content, uri) + 1])
    case Schedule(uri) =>
      p.(runs := CancelRun(p, uri), covered := p.covered[uri := Count(p.content, uri)])
    case Forget(uri) =>
      p.(runs := CancelRun(p, uri), cancels := Closing(p.cancels, uri),
         covered := p.covered[uri := Count(p.content, uri)])
    case Start(uri) =>
      p.(runs := p.runs + [Run(uri, Started, false, 0, false, [], false, false)])
    case Register(r) =>
      var uri := p.runs[r].uri;
      p.(runs := Supersede(p, uri)[r := p.runs[r].(phase := Registered)],
         cancels := Registering(p.cancels, uri, r, TokenOf(r)))
    case Snapshot(r) =>
      p.(runs := p.runs[r := p.runs[r].(phase := Snapshotted, seen := Count(p.content, p.runs[r].uri))])
    case Check(r, ends) => p.(runs := p.runs[r := Checked(p.runs[r], ends)])
    case Commit(r) => p.(runs := p.runs[r := p.runs[r].(phase := Committed, committed := true)])
    case Publish(r) => p.(runs := p.runs[r := p.runs[r].(phase := Published, published := true)])
    case CleanUp(r) =>
      p.(runs := p.runs[r := p.runs[r].(phase := CleanedUp, cancelled := true)],
         cancels := CleaningUp(p.cancels, p.runs[r].uri, TokenOf(r)))
  }

  const INIT := Protocol(map[], [], map[], map[])

  predicate IsRun(p: Protocol, events: seq<Event>)
    decreases |events|
  {
    events == [] || (Enabled(p, events[0]) && IsRun(Apply(p, events[0]), events[1..]))
  }

  function After(p: Protocol, events: seq<Event>): Protocol
    requires IsRun(p, events)
    decreases |events|
  {
    if events == [] then p else After(Apply(p, events[0]), events[1..])
  }

  // -------------------------------------------------------------- invariant

  predicate InFlight(r: Run) {
    !r.phase.Started? && !r.phase.CleanedUp?
  }

  predicate HasEntry(p: Protocol, r: nat) {
    r < |p.runs| && p.runs[r].uri in p.cancels && p.cancels[p.runs[r].uri].handle == r
  }

  /** The entry stored for `uri` belongs to a run of `uri` that has not cleaned up. */
  predicate EntryOwned(p: Protocol, uri: Key)
    requires uri in p.cancels
  {
    var entry := p.cancels[uri];
    && entry.handle < |p.runs|
    && entry.token == TokenOf(entry.handle)
    && p.runs[entry.handle].uri == uri
    && InFlight(p.runs[entry.handle])
  }

  /** A run in flight keeps its entry until it is cancelled or superseded, and has none once it is
      superseded; while it keeps it, its snapshot is no older than the last schedule. */
  predicate RunSound(p: Protocol, r: nat)
    requires r < |p.runs|
  {
    var run := p.runs[r];
    && (run.phase.Started? ==> !run.superseded && !run.cancelled && !HasEntry(p, r))
    && (run.superseded ==> !HasEntry(p, r))
    && run.seen <= Count(p.content, run.uri)
    && (InFlight(run) && !run.cancelled && !run.superseded ==> HasEntry(p, r))
    && (InFlight(run) && !run.phase.Registered? && !run.cancelled && !run.superseded ==>
          run.seen >= Count(p.covered, run.uri))
  }

  ghost predicate Inv(p: Protocol) {
    && (forall uri | uri in p.cancels :: EntryOwned(p, uri))
    && (forall r | 0 <= r < |p.runs| :: RunSound(p, r))
    && (forall uri :: Count(p.covered, uri) <= Count(p.content, uri))
  }

  lemma TokensCount(run: nat)
    requires run + 1 < TOKENS
    ensures TokenOf(run) == run + 1
  {
  }

  /** The run that takes the step. */
  lemma OwnStepSound(p: Protocol, e: Event, r: nat)
    requires Enabled(p, e) && r < |p.runs| && RunSound(p, r)
    requires !e.Edit? && !e.Schedule? && !e.Forget? && !e.Start? && e.run == r
    requires p.runs[r].uri in p.cancels ==> EntryOwned(p, p.runs[r].uri)
    requires Count(p.covered, p.runs[r].uri) <= Count(p.content, p.runs[r].uri)
    ensures RunSound(Apply(p, e), r)
  {
  }

  /** A schedule or a close cancels the run that holds the entry of the document. */
  lemma CancelStepSound(p: Protocol, e: Event, r: nat)
    requires r < |p.runs| && RunSound(p, r) && (e.Schedule? || e.Forget?)
    requires e.uri in p.cancels ==> EntryOwned(p, e.uri)
    ensures RunSound(Apply(p, e), r)
  {
    var q := Apply(p, e);
    if e.uri in p.cancels && p.cancels[e.uri].handle == r {
      assert q.runs[r] == p.runs[r].(cancelled := true);
    } else {
      assert q.runs[r] == p.runs[r];
    }
  }

  /** Another run registers: it supersedes the run whose entry it overwrites. */
  lemma RegisterStepSound(p: Protocol, j: nat, r: nat)
    requires Enabled(p, Register(j)) && r < |p.runs| && RunSound(p, r) && j != r
    requires p.runs[j].uri in p.cancels ==> EntryOwned(p, p.runs[j].uri)
    ensures RunSound(Apply(p, Register(j)), r)
  {
    var q, uri := Apply(p, Register(j)), p.runs[j].uri;
    if uri in p.cancels && p.cancels[uri].handle == r {
      assert q.runs[r] == p.runs[r].(superseded := true);
    } else {
      assert q.runs[r] == p.runs[r];
    }
  }

  /** Another run cleans up: it leaves this run's entry alone, the tokens being distinct. */
  lemma CleanUpStepSound(p: Protocol, j: nat, r: nat)
    requires Enabled(p, CleanUp(j)) && |p.runs| < TOKENS && r < |p.runs| && RunSound(p, r) && j != r
    requires p.runs[j].uri in p.cancels ==> EntryOwned(p, p.runs[j].uri)
    ensures RunSound(Apply(p, CleanUp(j)), r)
  {
    TokensCount(j);
    TokensCount(r);
    assert Apply(p, CleanUp(j)).runs[r] == p.runs[r];
  }

  /** Every other step leaves other runs and the map as they are. */
  lemma OtherStepSound(p: Protocol, e: Event, r: nat)
    requires Enabled(p, e) && r < |p.runs| && RunSound(p, r)
    requires e.Edit? || e.Start? || ((e.Snapshot? || e.Check? || e.Commit? || e.Publish?) && e.run != r)
    ensures RunSound(Apply(p, e), r)
  {
    assert Apply(p, e).runs[r] == p.runs[r];
  }

  lemma StepKeepsRunSound(p: Protocol, e: Event, r: nat)
    requires Inv(p) && Enabled(p, e) && |p.runs| < TOKENS && r < |p.runs|
    ensures RunSound(Apply(p, e), r)
  {
    assert RunSound(p, r);
    match e
    case Edit(_) => OtherStepSound(p, e, r);
    case Start(_) => OtherStepSound(p, e, r);
    case Schedule(_) => CancelStepSound(p, e, r);
    case Forget(_) => CancelStepSound(p, e, r);
    case Register(j) => if j == r { OwnStepSound(p, e, r); } else { RegisterStepSound(p, j, r); }
    case CleanUp(j) => if j == r { OwnStepSound(p, e, r); } else { CleanUpStepSound(p, j, r); }
    case _ => if e.run == r { OwnStepSound(p, e, r); } else { OtherStepSound(p, e, r); }
  }

  lemma StepKeepsInv(p: Protocol, e: Event)
    requires Inv(p) && Enabled(p, e) && |p.runs| < TOKENS
    ensures Inv(Apply(p, e))
  {
    var q := Apply(p, e);
    forall uri | uri in q.cancels
      ensures EntryOwned(q, uri)
    {
    }
    forall r | 0 <= r < |q.runs|
      ensures RunSound(q, r)
    {
      if r < |p.runs| {
        StepKeepsRunSound(p, e, r);
      }
    }
  }

  lemma {:induction false} RunKeepsInv(p: Protocol, events: seq<Event>)
    requires Inv(p) && IsRun(p, events) && |p.runs| + |events| < TOKENS
    ensures Inv(After(p, events)) && |After(p, events).runs| <= |p.runs| + |events|
    decreases |events|
  {
    if events != [] {
      StepKeepsInv(p, events[0]);
      RunKeepsInv(Apply(p, events[0]), events[1..]);
    }
  }

  // ---------------------------------------------------------------- entries

  /** Under every interleaving, an entry belongs to a run of that document which has registered and
      not cleaned up; so when every run has cleaned up the map is empty. */
  lemma EntriesOwned(events: seq<Event>)
    requires IsRun(INIT, events) && |events| < TOKENS
    ensures var p := After(INIT, events);
      && (forall uri | uri in p.cancels :: EntryOwned(p, uri))
      && ((forall r | 0 <= r < |p.runs| :: p.runs[r].phase.CleanedUp?) ==> p.cancels == map[])
  {
    RunKeepsInv(INIT, events);
    var p := After(INIT, events);
    if forall r | 0 <= r < |p.runs| :: p.runs[r].phase.CleanedUp? {
      assert forall uri | uri in p.cancels :: EntryOwned(p, uri);
      assert p.cancels.Keys == {};
    }
  }

  /** A cleanup removes the entry of its own run, if it is still there, and no other entry. */
  lemma CleanUpRemovesOwnEntry(events: seq<Event>, run: nat, uri: Key)
    requires IsRun(INIT, events) && |events| < TOKENS
    requires Enabled(After(INIT, events), CleanUp(run))
    ensures var p := After(INIT, events);
      uri in Apply(p, CleanUp(run)).cancels <==> uri in p.cancels && p.cancels[uri].handle != run
  {
    RunKeepsInv(INIT, events);
    var p := After(INIT, events);
    TokensCount(run);
    if uri in p.cancels {
      assert EntryOwned(p, uri);
      TokensCount(p.cancels[uri].handle);
    }
  }

  /** In every interleaving the entry of a document belongs to a run afterwards if that run registers now,
      or if it did before and the step is neither another registration for the document, nor its close,
      nor the run's own cleanup; and not otherwise. */
  lemma EntryIff(events: seq<Event>, e: Event, uri: Key, run: nat)
    requires IsRun(INIT, events) && |events| < TOKENS && Enabled(After(INIT, events), e)
    ensures var p := After(INIT, events);
      var q := Apply(p, e);
      (uri in q.cancels && q.cancels[uri].handle == run) <==>
        || (e == Register(run) && p.runs[run].uri == uri)
        || (&& uri in p.cancels && p.cancels[uri].handle == run
            && !(e.Register? && p.runs[e.run].uri == uri) && e != Forget(uri) && e != CleanUp(run))
  {
    var p := After(INIT, events);
    if e.CleanUp? {
      CleanUpRemovesOwnEntry(events, e.run, uri);
    }
  }

  // ------------------------------------------------- what a run's checks decide

  /** The phase that a run's answers lead to. */
  function Decision(answers: seq<Answer>): Phase {
    if answers == [] then Snapshotted
    else CheckPoint(Decision(answers[..|answers| - 1]), answers[|answers| - 1])
  }

  /** A run stops, commits and publishes as its answers decided. */
  predicate HistorySound(r: Run) {
    var decision := Decision(r.answers);
    && (r.phase.Started? || r.phase.Registered? ==> r.answers == [])
    && (Checking(r) || r.phase.Stopped? || r.phase.Passed? ==> r.phase == decision)
    && (r.phase.Committed? ==> decision == Passed(true))
    && (r.phase.Published? ==> decision.Passed?)
    && (r.phase.CleanedUp? ==> decision.Passed? || decision.Stopped?)
    && (r.committed <==> decision == Passed(true) && !r.phase.Passed?)
    && (r.published <==> decision.Passed? && !r.phase.Passed? && !r.phase.Committed?)
  }

  lemma StepKeepsHistory(p: Protocol, e: Event, r: nat)
    requires Enabled(p, e) && r < |p.runs| && HistorySound(p.runs[r])
    ensures HistorySound(Apply(p, e).runs[r])
  {
    if e.Check? && e.run == r {
      CheckKeepsHistory(p.runs[r], e.ends);
    } else {
      assert Apply(p, e).runs[r].answers == p.runs[r].answers;
    }
  }

  lemma CheckKeepsHistory(r: Run, ends: bool)
    requires HistorySound(r) && Checking(r)
    ensures HistorySound(Checked(r, ends))
  {
    assert Checked(r, ends).answers[..|r.answers|] == r.answers;
  }

  lemma {:induction false} RunKeepsHistory(p: Protocol, events: seq<Event>)
    requires IsRun(p, events) && forall r | 0 <= r < |p.runs| :: HistorySound(p.runs[r])
    ensures forall r | 0 <= r < |After(p, events).runs| :: HistorySound(After(p, events).runs[r])
    decreases |events|
  {
    if events != [] {
      var q := Apply(p, events[0]);
      forall r | 0 <= r < |q.runs|
        ensures HistorySound(q.runs[r])
      {
        if r < |p.runs| {
          StepKeepsHistory(p, events[0], r);
        }
      }
      RunKeepsHistory(q, events[1..]);
    }
  }

  /** What `Analyze` meets at its checks, one after another. */
  function Answers<C>(documents: map<Key, Document>, uri: Key, script: Script<C>): seq<Answer> {
    var first := Answer(script.cancelledAtStart, uri !in documents || script.program.None?);
    if first.cancelled || first.ends then [first]
    else
      var second := Answer(script.cancelledAfterParse, script.checker.None?);
      if second.cancelled || second.ends then [first, second]
      else [first, second, Answer(script.cancelledAfterCheck, false)]
  }

  /** The three checks decide what `Analyze` returns. */
  lemma AnswersDecide<C>(s: Host<C>, documents: map<Key, Document>, uri: Key, script: Script<C>)
    ensures var result := Analyzed(s, documents, uri, script).1;
      Decision(Answers(documents, uri, script))
      == if result.cancelled then Stopped else Passed(result.checker.Some?)
  {
    var first := Answer(script.cancelledAtStart, uri !in documents || script.program.None?);
    var second := Answer(script.cancelledAfterParse, script.checker.None?);
    DecisionOf(first, second, Answer(script.cancelledAfterCheck, false));
  }

  lemma DecisionOf(first: Answer, second: Answer, third: Answer)
    ensures Decision([first]) == CheckPoint(Snapshotted, first)
    ensures Decision([first, second]) == CheckPoint(CheckPoint(Snapshotted, first), second)
    ensures Decision([first, second, third]) == CheckPoint(CheckPoint(CheckPoint(Snapshotted, first), second), third)
  {
    assert [] + [first] == [first] && [first] + [second] == [first, second];
    assert [first, second] + [third] == [first, second, third];
  }

  /** Under every interleaving, a run whose checks met what `script` says does what `Analyze` returns
      for it: its root checker is cached only if there is one in the result, diagnostics are
      published only if the result is not marked cancelled, and both have happened by the end. */
  lemma RunsFollowAnalysis<C>(events: seq<Event>, run: nat, s: Host<C>, documents: map<Key, Document>,
                              script: Script<C>)
    requires IsRun(INIT, events) && run < |After(INIT, events).runs|
    requires var r := After(INIT, events).runs[run]; r.answers == Answers(documents, r.uri, script)
    ensures var r := After(INIT, events).runs[run];
      var result := Analyzed(s, documents, r.uri, script).1;
      && (r.committed ==> result.checker.Some?)
      && (r.published ==> !result.cancelled)
      && (r.phase.CleanedUp? ==> (r.committed <==> result.checker.Some?) && (r.published <==> !result.cancelled))
  {
    var r := After(INIT, events).runs[run];
    RunKeepsHistory(INIT, events);
    AnswersDecide(s, documents, r.uri, script);
    CommitsIffNotCancelled(s, documents, r.uri, script);
  }

  /** In particular, if the result is marked cancelled, the run neither caches nor publishes. */
  lemma StoppedRunsAreSilent<C>(events: seq<Event>, run: nat, s: Host<C>, documents: map<Key, Document>,
                                script: Script<C>)
    requires IsRun(INIT, events) && run < |After(INIT, events).runs|
    requires var r := After(INIT, events).runs[run]; r.answers == Answers(documents, r.uri, script)
    requires Analyzed(s, documents, After(INIT, events).runs[run].uri, script).1.cancelled
    ensures var r := After(INIT, events).runs[run]; !r.committed && !r.published
  {
    RunsFollowAnalysis(events, run, s, documents, script);
    CommitsIffNotCancelled(s, documents, After(INIT, events).runs[run].uri, script);
  }

  // ------------------------------------------------------ cancelling old checks

  lemma ScheduleStopsIffEntry(p: Protocol, run: nat)
    requires Inv(p) && run < |p.runs| && InFlight(p.runs[run])
    ensures var uri := p.runs[run].uri;
      && (Apply(p, Schedule(uri)).runs[run].cancelled <==> p.runs[run].cancelled || !p.runs[run].superseded)
      && (Apply(p, Forget(uri)).runs[run].cancelled <==> p.runs[run].cancelled || !p.runs[run].superseded)
  {
    assert RunSound(p, run);
    if p.runs[run].uri in p.cancels {
      assert EntryOwned(p, p.runs[run].uri);
    }
  }

  /** In every reachable state, scheduling or closing a document cancels a check in flight exactly if
      no later check has stored its entry over it, or it is cancelled already. */
  lemma ScheduleStopsChecks(events: seq<Event>, run: nat)
    requires IsRun(INIT, events) && |events| < TOKENS && run < |After(INIT, events).runs|
    requires InFlight(After(INIT, events).runs[run])
    ensures var p := After(INIT, events);
      var uri := p.runs[run].uri;
      && (Apply(p, Schedule(uri)).runs[run].cancelled <==> p.runs[run].cancelled || !p.runs[run].superseded)
      && (Apply(p, Forget(uri)).runs[run].cancelled <==> p.runs[run].cancelled || !p.runs[run].superseded)
  {
    RunKeepsInv(INIT, events);
    ScheduleStopsIffEntry(After(INIT, events), run);
  }

  /** In every reachable state, a check that is not cancelled and has a snapshot is made up to date or
      cancelled by the next scheduled change exactly if it was not superseded. */
  lemma ChangeReachesCheckIff(events: seq<Event>, run: nat)
    requires IsRun(INIT, events) && |events| < TOKENS && run < |After(INIT, events).runs|
    requires var r := After(INIT, events).runs[run]; Checking(r) && !r.cancelled
    ensures var p := After(INIT, events);
      var uri := p.runs[run].uri;
      var q := Apply(Apply(p, Edit(uri)), Schedule(uri));
      q.runs[run].cancelled || q.runs[run].seen >= Count(q.covered, uri) <==> !p.runs[run].superseded
  {
    RunKeepsInv(INIT, events);
    var p := After(INIT, events);
    var uri := p.runs[run].uri;
    assert RunSound(p, run);
    ScheduleStopsIffEntry(p, run);
    assert Apply(Apply(p, Edit(uri)), Schedule(uri)).runs == Apply(p, Schedule(uri)).runs;
  }

  /** A check that finds itself not cancelled although its snapshot predates the last scheduled
      change has had its entry overwritten. */
  lemma StalePassWasSuperseded(events: seq<Event>, run: nat)
    requires IsRun(INIT, events) && |events| < TOKENS && run < |After(INIT, events).runs|
    requires Checking(After(INIT, events).runs[run])
    ensures var p := After(INIT, events);
      !p.runs[run].cancelled && p.runs[run].seen < Count(p.covered, p.runs[run].uri) ==> p.runs[run].superseded
  {
    RunKeepsInv(INIT, events);
    assert RunSound(After(INIT, events), run);
  }

  /** A run becomes superseded exactly at a registration that finds its entry in the map. */
  lemma SupersededIff(p: Protocol, e: Event, run: nat)
    requires Inv(p) && Enabled(p, e) && run < |p.runs|
    ensures Apply(p, e).runs[run].superseded
       <==> p.runs[run].superseded || (e.Register? && HasEntry(p, run) && p.runs[e.run].uri == p.runs[run].uri)
  {
    assert RunSound(p, run);
    if p.runs[run].uri in p.cancels {
      assert EntryOwned(p, p.runs[run].uri);
    }
    if e.Register? && p.runs[e.run].uri in p.cancels {
      assert EntryOwned(p, p.runs[e.run].uri);
    }
  }

  /** Registered, and with a cancellation check still to come. */
  predicate Undecided(r: Run) {
    r.phase.Registered? || Checking(r)
  }

  /** A registration that finds the entry of a check which is undecided and not cancelled. */
  predicate OverwritesLive(p: Protocol, e: Event)
    requires Enabled(p, e)
  {
    && e.Register?
    && var uri := p.runs[e.run].uri;
       && uri in p.cancels
       && p.cancels[uri].handle < |p.runs|
       && !p.runs[p.cancels[uri].handle].cancelled
       && Undecided(p.runs[p.cancels[uri].handle])
  }

  /** Scheduling its document would cancel every undecided check. */
  ghost predicate Cancellable(p: Protocol) {
    forall r | 0 <= r < |p.runs| && Undecided(p.runs[r]) :: Apply(p, Schedule(p.runs[r].uri)).runs[r].cancelled
  }

  lemma CancellableIff(p: Protocol)
    requires Inv(p)
    ensures Cancellable(p)
       <==> forall r | 0 <= r < |p.runs| && Undecided(p.runs[r]) :: p.runs[r].cancelled || !p.runs[r].superseded
  {
    forall r | 0 <= r < |p.runs| && Undecided(p.runs[r])
      ensures Apply(p, Schedule(p.runs[r].uri)).runs[r].cancelled
         <==> p.runs[r].cancelled || !p.runs[r].superseded
    {
      ScheduleStopsIffEntry(p, r);
    }
  }

  /** A step loses the hold on a check exactly when it is such a registration. */
  lemma StepKeepsCancellableIff(p: Protocol, e: Event)
    requires Inv(p) && Enabled(p, e) && |p.runs| < TOKENS && Cancellable(p)
    ensures Cancellable(Apply(p, e)) <==> !OverwritesLive(p, e)
  {
    var q := Apply(p, e);
    StepKeepsInv(p, e);
    CancellableIff(p);
    CancellableIff(q);
    if OverwritesLive(p, e) {
      LiveLosesEntry(p, e);
    } else {
      forall r | 0 <= r < |q.runs| && Undecided(q.runs[r])
        ensures q.runs[r].cancelled || !q.runs[r].superseded
      {
        if r < |p.runs| {
          StaysCancellable(p, e, r);
        }
      }
    }
  }

  lemma LiveLosesEntry(p: Protocol, e: Event)
    requires Inv(p) && Enabled(p, e) && OverwritesLive(p, e)
    ensures var r := p.cancels[p.runs[e.run].uri].handle;
      var after := Apply(p, e).runs[r];
      Undecided(after) && !after.cancelled && after.superseded
  {
    var r := p.cancels[p.runs[e.run].uri].handle;
    assert EntryOwned(p, p.runs[e.run].uri);
    assert Apply(p, e).runs[r] == p.runs[r].(superseded := true);
  }

  lemma StaysCancellable(p: Protocol, e: Event, r: nat)
    requires Inv(p) && Enabled(p, e) && !OverwritesLive(p, e) && r < |p.runs|
    requires Undecided(p.runs[r]) ==> p.runs[r].cancelled || !p.runs[r].superseded
    requires Undecided(Apply(p, e).runs[r])
    ensures Apply(p, e).runs[r].cancelled || !Apply(p, e).runs[r].superseded
  {
    SupersededIff(p, e, r);
    assert RunSound(p, r);
    assert Apply(p, e).runs[r].cancelled <== p.runs[r].cancelled;
  }

  predicate NeverOverwritesLive(p: Protocol, events: seq<Event>)
    requires IsRun(p, events)
    decreases |events|
  {
    events != [] ==> !OverwritesLive(p, events[0]) && NeverOverwritesLive(Apply(p, events[0]), events[1..])
  }

  ghost predicate AlwaysCancellable(p: Protocol, events: seq<Event>)
    requires IsRun(p, events)
    decreases |events|
  {
    Cancellable(p) && (events != [] ==> AlwaysCancellable(Apply(p, events[0]), events[1..]))
  }

  lemma {:induction false} AlwaysCancellableFrom(p: Protocol, events: seq<Event>)
    requires Inv(p) && Cancellable(p) && IsRun(p, events) && |p.runs| + |events| < TOKENS
    ensures AlwaysCancellable(p, events) <==> NeverOverwritesLive(p, events)
    ensures NeverOverwritesLive(p, events) ==> Cancellable(After(p, events))
    decreases |events|
  {
    if events != [] {
      StepKeepsInv(p, events[0]);
      StepKeepsCancellableIff(p, events[0]);
      if !OverwritesLive(p, events[0]) {
        AlwaysCancellableFrom(Apply(p, events[0]), events[1..]);
      }
    }
  }

  /** Throughout a run every undecided check can be cancelled by scheduling its document, exactly if
      no registration stores its entry over that of an undecided check that is not cancelled. */
  lemma AlwaysCancellableIff(events: seq<Event>)
    requires IsRun(INIT, events) && |events| < TOKENS
    ensures AlwaysCancellable(INIT, events) <==> NeverOverwritesLive(INIT, events)
  {
    AlwaysCancellableFrom(INIT, events);
  }

  /** In such runs, a check that finds itself not cancelled has seen every change whose schedule step
      is done.  Storing over the entry of a cancelled check, as happens when a document is scheduled
      again before its last check has cleaned up, does no harm. */
  lemma PassesAreCurrent(events: seq<Event>, run: nat)
    requires IsRun(INIT, events) && |events| < TOKENS && NeverOverwritesLive(INIT, events)
    requires run < |After(INIT, events).runs|
    requires var r := After(INIT, events).runs[run]; Checking(r) && !r.cancelled
    ensures var p := After(INIT, events); p.runs[run].seen >= Count(p.covered, p.runs[run].uri)
  {
    RunKeepsInv(INIT, events);
    AlwaysCancellableFrom(INIT, events);
    CancellableIff(After(INIT, events));
    StalePassWasSuperseded(events, run);
  }

  /** The condition is needed: from any state that meets the invariant, a registration over the
      entry of an uncancelled check, followed by a change and its schedule step, leaves that check
      uncancelled with an old snapshot, so that it passes its next cancellation check. */
  lemma OverwriteLetsStaleCheckPass(p: Protocol, run: nat, later: nat)
    requires Inv(p) && run < |p.runs| && Checking(p.runs[run]) && !p.runs[run].cancelled && HasEntry(p, run)
    requires At(p, later, Started) && p.runs[later].uri == p.runs[run].uri
    ensures OverwritesLive(p, Register(later))
    ensures var uri := p.runs[run].uri;
      var q := Apply(Apply(Apply(p, Register(later)), Edit(uri)), Schedule(uri));
      && run < |q.runs| && Checking(q.runs[run]) && !q.runs[run].cancelled
      && q.runs[run].seen < Count(q.covered, uri)
      && !Apply(q, Check(run, false)).runs[run].phase.Stopped?
  {
    LaterTakesEntry(p, run, later);
  }

  lemma LaterTakesEntry(p: Protocol, run: nat, later: nat)
    requires Inv(p) && HasEntry(p, run) && Checking(p.runs[run]) && !p.runs[run].cancelled
    requires At(p, later, Started) && p.runs[later].uri == p.runs[run].uri
    ensures OverwritesLive(p, Register(later))
    ensures var q := Apply(p, Register(later));
      && !HasEntry(q, run) && q.runs[run] == p.runs[run].(superseded := true)
      && q.runs[run].seen <= Count(q.content, q.runs[run].uri)
  {
    assert RunSound(p, run);
  }

  /** Such states are reached: two timers fire for one document before the first check registers. */
  lemma OverwriteIsReachable(uri: Key)
    ensures var events := [Start(uri), Start(uri), Register(0), Snapshot(0)];
      && IsRun(INIT, events)
      && var p := After(INIT, events);
         && At(p, 0, Snapshotted) && !p.runs[0].cancelled && HasEntry(p, 0)
         && At(p, 1, Started) && p.runs[1].uri == p.runs[0].uri == uri
  {
    TwoStarts(uri);
    var p2 := TwoStarted(uri);
    RegisterThenSnapshot(p2);
    assert [Start(uri), Start(uri), Register(0), Snapshot(0)]
        == [Start(uri)] + ([Start(uri)] + [Register(0), Snapshot(0)]);
  }

  function TwoStarted(uri: Key): Protocol {
    var run := Run(uri, Started, false, 0, false, [], false, false);
    Protocol(map[], [run, run], map[], map[])
  }

  lemma TwoStarts(uri: Key)
    ensures Apply(Apply(INIT, Start(uri)), Start(uri)) == TwoStarted(uri)
  {
    assert Apply(INIT, Start(uri)).runs == [TwoStarted(uri).runs[0]];
  }

  lemma RegisterThenSnapshot(p: Protocol)
    requires At(p, 0, Started)
    ensures IsRun(p, [Register(0), Snapshot(0)])
    ensures After(p, [Register(0), Snapshot(0)]) == Apply(Apply(p, Register(0)), Snapshot(0))
  {
    var none: seq<Event> := [];
    assert [Register(0), Snapshot(0)] == [Register(0)] + ([Snapshot(0)] + none);
  }
}
