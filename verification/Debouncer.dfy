/** The debouncer (languageserver/server2/debounce.go).

    A timer's callback runs in two parts: the runtime starts it, and it then takes the lock,
    deletes the key from the map and runs the function.  Other calls may come in between.
    `DebounceProtocol` steps through every interleaving of these parts; the class `Debouncer` is
    proved against the same functions. */
module DebounceProtocol {
  import opened Prelude

  /** `Fired`: started, but not yet past the lock.  `Replaced` and `Stopped` timers were stopped
      in time, by a later `Trigger` or by `Stop`. */
  datatype Status = Pending | Fired | Ran | Replaced | Stopped

  datatype TimerState = TimerState(key: Key, status: Status)

  /** Timers are numbered in the order they were triggered, and `tracked` is the debouncer's map.
      `log` lists the callbacks that ran. */
  datatype State = State(tracked: map<Key, nat>, timers: seq<TimerState>, log: seq<nat>)

  datatype Event =
    | Trigger(key: Key)
    | Fire(timer: nat)       // the delay has passed: the runtime starts the callback
    | Callback(timer: nat)   // the callback takes the lock, deletes its key and runs
    | Stop

  const INIT := State(map[], [], [])

  /** `Timer.Stop` works on a pending timer only. */
  function Halted(t: TimerState, how: Status): TimerState {
    if t.status.Pending? then t.(status := how) else t
  }

  function HaltTracked(s: State, key: Key): seq<TimerState> {
    if key in s.tracked && s.tracked[key] < |s.timers| then
      s.timers[s.tracked[key] := Halted(s.timers[s.tracked[key]], Replaced)]
    else s.timers
  }

  function Triggered(s: State, key: Key): State {
    s.(tracked := s.tracked[key := |s.timers|],
       timers := HaltTracked(s, key) + [TimerState(key, Pending)])
  }

  function CalledBack(s: State, t: nat): State
    requires t < |s.timers|
  {
    State(s.tracked - {s.timers[t].key}, s.timers[t := s.timers[t].(status := Ran)], s.log + [t])
  }

  predicate IsTracked(s: State, t: nat) {
    t < |s.timers| && s.timers[t].key in s.tracked && s.tracked[s.timers[t].key] == t
  }

  function StoppedAll(s: State): State {
    s.(tracked := map[],
       timers := HaltedExcept(s, {}))
  }

  /** `Stop` half way: the entries of `left` are still to do. */
  function HaltedExcept(s: State, left: set<Key>): seq<TimerState> {
    seq(|s.timers|, i requires 0 <= i < |s.timers| =>
      if IsTracked(s, i) && s.timers[i].key !in left then Halted(s.timers[i], Stopped) else s.timers[i])
  }

  lemma HaltedOneMore(s: State, left: set<Key>, key: Key)
    requires key in left && key in s.tracked
    requires s.tracked[key] < |s.timers| && s.timers[s.tracked[key]].key == key
    ensures var t := s.tracked[key];
      && HaltedExcept(s, left)[t] == s.timers[t]
      && HaltedExcept(s, left - {key}) == HaltedExcept(s, left)[t := Halted(s.timers[t], Stopped)]
  {
  }

  predicate HasStatus(s: State, t: nat, status: Status) {
    t < |s.timers| && s.timers[t].status == status
  }

  predicate Enabled(s: State, e: Event) {
    match e
    case Fire(t) => HasStatus(s, t, Pending)
    case Callback(t) => HasStatus(s, t, Fired)
    case _ => true
  }

  function Apply(s: State, e: Event): State
    requires Enabled(s, e)
  {
    match e
    case Trigger(key) => Triggered(s, key)
    case Fire(t) => s.(timers := s.timers[t := s.timers[t].(status := Fired)])
    case Callback(t) => CalledBack(s, t)
    case Stop => StoppedAll(s)
  }

  predicate IsRun(s: State, events: seq<Event>)
    decreases |events|
  {
    events == [] || (Enabled(s, events[0]) && IsRun(Apply(s, events[0]), events[1..]))
  }

  function After(s: State, events: seq<Event>): State
    requires IsRun(s, events)
    decreases |events|
  {
    if events == [] then s else After(Apply(s, events[0]), events[1..])
  }

  // -------------------------------------------------------------- invariant

  /** No later trigger has the same key. */
  predicate IsLatest(s: State, t: nat) {
    t < |s.timers| && forall j | t < j < |s.timers| :: s.timers[j].key != s.timers[t].key
  }

  predicate TrackedSound(s: State, key: Key)
    requires key in s.tracked
  {
    var t := s.tracked[key];
    && t < |s.timers| && s.timers[t].key == key && IsLatest(s, t)
    && (s.timers[t].status.Pending? || s.timers[t].status.Fired?)
  }

  predicate TimerSound(s: State, t: nat)
    requires t < |s.timers|
  {
    && (s.timers[t].status.Replaced? ==> !IsLatest(s, t))
    && (s.timers[t].status.Ran? <==> t in s.log)
  }

  ghost predicate Inv(s: State) {
    && (forall key | key in s.tracked :: TrackedSound(s, key))
    && (forall t | 0 <= t < |s.timers| :: TimerSound(s, t))
    && NoDuplicates(s.log)
    && (forall i | 0 <= i < |s.log| :: s.log[i] < |s.timers|)
  }

  lemma StepKeepsTimer(s: State, e: Event, t: nat)
    requires Inv(s) && Enabled(s, e) && t < |s.timers|
    ensures TimerSound(Apply(s, e), t)
  {
    var q := Apply(s, e);
    assert TimerSound(s, t);
    assert q.timers[t].key == s.timers[t].key;
    if !IsLatest(s, t) {
      var j :| t < j < |s.timers| && s.timers[j].key == s.timers[t].key;
      assert q.timers[j].key == q.timers[t].key;
    }
    if e.Trigger? {
      assert q.timers[|s.timers|].key == e.key;
      if e.key in s.tracked {
        assert TrackedSound(s, e.key);
      }
    }
  }

  lemma StepKeepsInv(s: State, e: Event)
    requires Inv(s) && Enabled(s, e)
    ensures Inv(Apply(s, e))
  {
    var q := Apply(s, e);
    forall key | key in q.tracked
      ensures TrackedSound(q, key)
    {
    }
    forall t | 0 <= t < |q.timers|
      ensures TimerSound(q, t)
    {
      if t < |s.timers| {
        StepKeepsTimer(s, e, t);
      }
    }
    if e.Callback? {
      assert TimerSound(s, e.timer);
    }
  }

  lemma {:induction false} RunKeepsInv(s: State, events: seq<Event>)
    requires Inv(s) && IsRun(s, events)
    ensures Inv(After(s, events))
    decreases |events|
  {
    if events != [] {
      StepKeepsInv(s, events[0]);
      RunKeepsInv(Apply(s, events[0]), events[1..]);
    }
  }

  // ------------------------------------------------- nothing lost, nothing twice

  /** Only `Stop` makes a timer `Stopped`. */
  lemma {:induction false} StoppedNeedsStop(s: State, events: seq<Event>, t: nat)
    requires IsRun(s, events) && t < |After(s, events).timers|
    requires forall i | 0 <= i < |events| :: !events[i].Stop?
    requires t < |s.timers| ==> !s.timers[t].status.Stopped?
    ensures !After(s, events).timers[t].status.Stopped?
    decreases |events|
  {
    if events != [] {
      StoppedNeedsStop(Apply(s, events[0]), events[1..], t);
    }
  }

  /** Under every interleaving without `Stop`, the callback triggered last for a key is pending,
      started or has run; and whatever happens, no callback runs twice. */
  lemma LatestNeverLost(events: seq<Event>, t: nat)
    requires IsRun(INIT, events) && t < |After(INIT, events).timers|
    ensures var s := After(INIT, events);
      && NoDuplicates(s.log)
      && (s.timers[t].status.Ran? <==> t in s.log)
      && (IsLatest(s, t) && (forall i | 0 <= i < |events| :: !events[i].Stop?) ==>
            s.timers[t].status.Pending? || s.timers[t].status.Fired? || s.timers[t].status.Ran?)
  {
    RunKeepsInv(INIT, events);
    assert TimerSound(After(INIT, events), t);
    if forall i | 0 <= i < |events| :: !events[i].Stop? {
      StoppedNeedsStop(INIT, events, t);
    }
  }

  // --------------------------------------------------------- untracked timers

  /** Every pending timer is in the map, so that `Trigger` and `Stop` can find it. */
  predicate AllTracked(s: State) {
    forall t | 0 <= t < |s.timers| && s.timers[t].status.Pending? :: IsTracked(s, t)
  }

  /** A callback that gets past the lock when another, pending timer is in the map for its key. */
  predicate DropsPending(s: State, e: Event)
    requires Enabled(s, e)
  {
    && e.Callback?
    && var key := s.timers[e.timer].key;
       && key in s.tracked
       && s.tracked[key] != e.timer
       && HasStatus(s, s.tracked[key], Pending)
  }

  /** A step leaves a pending timer out of the map exactly when it is such a callback. */
  lemma AllTrackedIff(s: State, e: Event)
    requires Inv(s) && Enabled(s, e) && AllTracked(s)
    ensures AllTracked(Apply(s, e)) <==> !DropsPending(s, e)
  {
    var q := Apply(s, e);
    if DropsPending(s, e) {
      var t := s.tracked[s.timers[e.timer].key];
      assert q.timers[t].status.Pending? && !IsTracked(q, t);
    } else {
      forall t | 0 <= t < |q.timers| && q.timers[t].status.Pending?
        ensures IsTracked(q, t)
      {
        if t < |s.timers| {
          assert s.timers[t].status.Pending? && IsTracked(s, t);
          assert TrackedSound(s, s.timers[t].key);
        }
      }
    }
  }

  /** `Stop` leaves no timer pending exactly when every pending timer is in the map. */
  lemma StopHaltsAllIff(s: State)
    ensures (forall t | 0 <= t < |s.timers| :: !Apply(s, Stop).timers[t].status.Pending?) <==> AllTracked(s)
  {
    var q := Apply(s, Stop);
    forall t | 0 <= t < |s.timers|
      ensures q.timers[t].status.Pending? <==> s.timers[t].status.Pending? && !IsTracked(s, t)
    {
    }
  }

  /** From any reachable state: if a key is triggered again between the start of its callback and
      the callback's lock, the new timer is pending and untracked; it survives `Stop`, and a third
      trigger leaves two timers pending for the key. */
  lemma LateTriggerEscapes(s: State, t: nat)
    requires Inv(s) && HasStatus(s, t, Fired)
    ensures var key := s.timers[t].key;
      var s1 := Apply(s, Trigger(key));
      && Enabled(s1, Callback(t))
      && var s2 := Apply(s1, Callback(t));
         var late := |s.timers|;
         && HasStatus(s2, late, Pending) && !IsTracked(s2, late)
         && HasStatus(Apply(s2, Stop), late, Pending)
         && HasStatus(Apply(s2, Trigger(key)), late, Pending)
         && HasStatus(Apply(s2, Trigger(key)), late + 1, Pending)
  {
    var key := s.timers[t].key;
    var s1 := Apply(s, Trigger(key));
    if key in s.tracked {
      assert TrackedSound(s, key);
    }
    assert s1.timers[t].status.Fired? && s1.timers[|s.timers|] == TimerState(key, Pending);
  }

  /** Such states are reached: a timer is started and its callback has not taken the lock. */
  lemma LateTriggerIsReachable(key: Key)
    ensures var events := [Trigger(key), Fire(0)];
      && IsRun(INIT, events)
      && Inv(After(INIT, events)) && HasStatus(After(INIT, events), 0, Fired)
  {
    var triggered := Apply(INIT, Trigger(key));
    var fired := Apply(triggered, Fire(0));
    var none: seq<Event> := [];
    assert IsRun(fired, none) && After(fired, none) == fired;
    assert [Fire(0)][1..] == none;
    assert IsRun(triggered, [Fire(0)]) && After(triggered, [Fire(0)]) == fired;
    assert [Trigger(key), Fire(0)][1..] == [Fire(0)];
    RunKeepsInv(INIT, [Trigger(key), Fire(0)]);
  }

  // --------------------------------------- starting and locking in one step

  /** No other call comes between the start of a callback and its lock. */
  predicate Atomic(s: State, events: seq<Event>)
    requires IsRun(s, events)
    decreases |events|
  {
    events != [] ==>
      && (events[0].Fire? ==> |events| > 1 && events[1] == Callback(events[0].timer))
      && Atomic(Apply(s, events[0]), events[1..])
  }

  /** Between bursts of an atomic run: pending timers are tracked, and none is half way. */
  predicate Settled(s: State) {
    AllTracked(s) && forall t | 0 <= t < |s.timers| :: !s.timers[t].status.Fired?
  }

  /** In an atomic run the callback that runs is the last one triggered for its key, only the last
      one triggered can still be pending, and `Stop` leaves none pending. */
  ghost predicate Coalesced(s: State) {
    && (forall t | 0 <= t < |s.timers| && s.timers[t].status.Pending? :: IsLatest(s, t))
    && (forall t | 0 <= t < |s.timers| :: !Apply(s, Stop).timers[t].status.Pending?)
  }

  /** The two parts of a callback, together: only its own entry leaves the map. */
  lemma FireThenCallback(s: State, t: nat)
    requires Inv(s) && Settled(s) && Enabled(s, Fire(t))
    ensures var s1 := Apply(s, Fire(t));
      && Enabled(s1, Callback(t)) && Inv(s1) && Inv(Apply(s1, Callback(t)))
      && Settled(Apply(s1, Callback(t)))
      && IsLatest(s, t)
      && Apply(s1, Callback(t)).log == s.log + [t]
  {
    var s1 := Apply(s, Fire(t));
    var s2 := Apply(s1, Callback(t));
    StepKeepsInv(s, Fire(t));
    StepKeepsInv(s1, Callback(t));
    assert IsTracked(s, t);
    forall j | 0 <= j < |s2.timers| && s2.timers[j].status.Pending?
      ensures IsTracked(s2, j)
    {
      assert s.timers[j].status.Pending? && IsTracked(s, j);
    }
  }

  lemma {:induction false} AtomicRunsSettle(s: State, events: seq<Event>)
    requires Inv(s) && Settled(s) && IsRun(s, events) && Atomic(s, events)
    ensures Inv(After(s, events)) && Settled(After(s, events))
    decreases |events|
  {
    if events != [] {
      var s1 := Apply(s, events[0]);
      StepKeepsInv(s, events[0]);
      if events[0].Fire? {
        FireThenCallback(s, events[0].timer);
        assert events[1..][0] == events[1];
        AtomicRunsSettle(Apply(s1, events[1]), events[1..][1..]);
      } else {
        AtomicRunsSettle(s1, events[1..]);
      }
    }
  }

  /** When starting and locking are one step, every state between callbacks is coalesced, and any
      timer that fires next is the last one triggered for its key. */
  lemma AtomicDebouncing(events: seq<Event>, t: nat)
    requires IsRun(INIT, events) && Atomic(INIT, events)
    ensures var s := After(INIT, events);
      && Coalesced(s)
      && (HasStatus(s, t, Pending) ==>
            IsLatest(s, t) && Apply(Apply(s, Fire(t)), Callback(t)).log == s.log + [t])
  {
    AtomicRunsSettle(INIT, events);
    if HasStatus(After(INIT, events), t, Pending) {
      FireThenCallback(After(INIT, events), t);
    }
  }
}

module Debouncers {
  import opened Prelude
  import opened DebounceProtocol

  /** A runtime timer.  Its number stands for the function it was given. */
  class Timer {
    ghost const number: nat
    const key: Key
    var status: Status

    constructor (ghost number: nat, key: Key)
      ensures this.number == number && this.key == key && status == Pending
    {
      this.number, this.key, status := number, key, Pending;
    }

    ghost function State(): TimerState
      reads this
    {
      TimerState(key, status)
    }
  }

  class Debouncer {
    var timers: map<Key, Timer>
    ghost var created: seq<Timer>
    ghost var log: seq<nat>

    ghost predicate Valid()
      reads this
    {
      && (forall i | 0 <= i < |created| :: created[i].number == i)
      && (forall key | key in timers ::
            timers[key].number < |created| && created[timers[key].number] == timers[key] && timers[key].key == key)
    }

    ghost function Tracked(): map<Key, nat>
      reads this
    {
      map key | key in timers :: timers[key].number
    }

    ghost function Abstract(): DebounceProtocol.State
      reads this, created
    {
      DebounceProtocol.State(Tracked(), States(), log)
    }

    ghost function States(): seq<TimerState>
      reads this, created
    {
      seq(|created|, i requires 0 <= i < |created| reads this, created => created[i].State())
    }

    constructor ()
      ensures Valid() && Abstract() == INIT
    {
      timers, created, log := map[], [], [];
    }

    /** `Timer.Stop`, which works on a pending timer only; `how` records who stopped it. */
    method HaltTimer(timer: Timer, how: Status)
      requires Valid() && timer.number < |created| && created[timer.number] == timer
      modifies timer
      ensures States() == old(States())[timer.number := Halted(old(States())[timer.number], how)]
    {
      if timer.status == Pending {
        timer.status := how;
      }
    }

    method Trigger(key: Key) returns (timer: Timer)
      requires Valid()
      modifies this, created
      ensures Valid()
      ensures fresh(timer) && created == old(created) + [timer]
      ensures Abstract() == Triggered(old(Abstract()), key)
    {
      if key in timers {
        HaltTimer(timers[key], Replaced);
      }
      timer := StartTimer(key);
    }

    /** `time.AfterFunc`, stored under the key. */
    method StartTimer(key: Key) returns (timer: Timer)
      requires Valid()
      modifies this
      ensures Valid() && log == old(log)
      ensures fresh(timer) && created == old(created) + [timer]
      ensures States() == old(States()) + [TimerState(key, Pending)]
      ensures Tracked() == old(Tracked())[key := |old(created)|]
    {
      timer := new Timer(|created|, key);
      timers := timers[key := timer];
      created := created + [timer];
    }

    /** The locked part of a timer's callback, and the call that follows it. */
    method Callback(timer: Timer)
      requires Valid() && timer in created && timer.status == Fired
      modifies this`timers, this`log, timer
      ensures Valid()
      ensures Abstract() == CalledBack(old(Abstract()), timer.number)
    {
      timers := timers - {timer.key};
      log := log + [timer.number];
      RunTimer(timer);
    }

    /** The function given to the timer, which is not part of the model but for having run. */
    method RunTimer(timer: Timer)
      requires Valid() && timer.number < |created| && created[timer.number] == timer
      modifies timer
      ensures States() == old(States())[timer.number := old(States())[timer.number].(status := Ran)]
    {
      timer.status := Ran;
    }

    /** One pass of `Stop`'s loop. */
    method HaltAndForget(key: Key)
      requires Valid() && key in timers
      modifies this`timers, timers[key]
      ensures Valid()
      ensures timers == old(timers) - {key}
      ensures var t := old(timers)[key].number;
        t < |created| && States() == old(States())[t := Halted(old(States())[t], Stopped)]
    {
      HaltTimer(timers[key], Stopped);
      timers := timers - {key};
    }

    /** Go's `range` visits the map in some order while its entries are deleted. */
    method Stop()
      requires Valid()
      modifies this`timers, created
      ensures Valid()
      ensures Abstract() == StoppedAll(old(Abstract()))
    {
      ghost var start := Abstract();
      while timers.Keys != {}
        invariant Valid()
        invariant timers.Keys <= start.tracked.Keys
        invariant forall key | key in timers :: timers[key].number == start.tracked[key]
        invariant States() == HaltedExcept(start, timers.Keys)
        decreases timers.Keys
      {
        var key :| key in timers.Keys;
        HaltedOneMore(start, timers.Keys, key);
        HaltAndForget(key);
      }
      assert Tracked() == map[];
    }
  }
}
