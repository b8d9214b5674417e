/**
 The polling loop (lib/poller.ts, `createPoller`): one request at a time, none while the tab is hidden,
 and the next scheduled only after the last has finished. Every interleaving of calls, timers that
 fire and requests that settle is a list of events.
 */
module Poller {
  import opened Wrappers

  /** The poller's four variables, and what it has set going: the timers not yet fired or cancelled, how many
      requests are outstanding, and how many were ever started. */
  datatype State = State(
    running: bool, timer: Option<nat>, inFlight: bool, skippedWhileHidden: bool,
    pending: set<nat>, handles: nat, outstanding: nat, started: nat)

  const IDLE: State := State(false, None, false, false, {}, 0, 0, 0)

  datatype Event =
    | Start
    | Stop
    | Refresh
    | Resume
    | Tick(handle: nat, hidden: bool) // a pending timer fires, the tab being hidden or not
    | Settle                          // the outstanding request succeeds or fails

  // ---- What each operation does ----

  function Cancelled(s: State): set<nat> {
    if s.timer.Some? then s.pending - {s.timer.value} else s.pending
  }

  function Arm(s: State): State {
    if !s.running then s
    else s.(timer := Some(s.handles), pending := Cancelled(s) + {s.handles}, handles := s.handles + 1)
  }

  function RunTask(s: State): State {
    if s.inFlight then s else s.(inFlight := true, outstanding := s.outstanding + 1, started := s.started + 1)
  }

  function Next(s: State, e: Event): State {
    match e
    case Start => if s.running then s else RunTask(s.(running := true))
    case Stop => s.(running := false, pending := Cancelled(s), timer := None)
    case Refresh => RunTask(s)
    case Resume =>
      if !s.running || !s.skippedWhileHidden then s
      else RunTask(s.(skippedWhileHidden := false, pending := Cancelled(s), timer := None))
    case Tick(handle, hidden) =>
      if handle !in s.pending then s
      else
        var fired := s.(pending := s.pending - {handle}, timer := None);
        if !s.running then fired
        else if hidden then Arm(fired.(skippedWhileHidden := true))
        else RunTask(fired)
    case Settle =>
      if s.outstanding == 0 then s
      else Arm(s.(inFlight := false, outstanding := s.outstanding - 1))
  }

  function Run(s: State, events: seq<Event>): State
    decreases |events|
  {
    if events == [] then s else Run(Next(s, events[0]), events[1..])
  }

  // ---- What every step keeps ----

  ghost predicate Valid(s: State) {
    && s.outstanding == (if s.inFlight then 1 else 0)
    && s.pending == (if s.timer.Some? then {s.timer.value} else {})
    && (s.timer.Some? ==> s.timer.value < s.handles)
    && (s.running ==> s.timer.Some? || s.inFlight)
    && (!s.running ==> s.timer.None?)
  }

  lemma StepKeepsValid(s: State, e: Event)
    requires Valid(s)
    ensures Valid(Next(s, e))
  {
  }

  /** Over every run: at most one request outstanding and one timer pending, a running poller always has one
      of the two to go on with, and a stopped one has no timer. */
  lemma {:induction false} RunIsSafe(s: State, events: seq<Event>)
    requires Valid(s)
    ensures var end := Run(s, events);
      && Valid(end) && end.outstanding <= 1 && |end.pending| <= 1
      && (end.running ==> end.pending != {} || end.outstanding == 1)
      && (!end.running ==> end.pending == {})
    decreases |events|
  {
    if events != [] {
      StepKeepsValid(s, events[0]);
      RunIsSafe(Next(s, events[0]), events[1..]);
    }
  }

  /** A request starts exactly when nothing is outstanding and: a stopped poller is started, a refresh is asked
      for, a visible tick fires, or a poller that skipped a tick is resumed. */
  lemma StartsExactlyWhen(s: State, e: Event)
    requires Valid(s)
    ensures Next(s, e).started == s.started || Next(s, e).started == s.started + 1
    ensures Next(s, e).started == s.started + 1 <==>
      s.outstanding == 0 &&
      match e
      case Start => !s.running
      case Refresh => true
      case Resume => s.running && s.skippedWhileHidden
      case Tick(handle, hidden) => handle in s.pending && !hidden
      case _ => false
  {
  }

  /** The poller runs from a start until a stop, and through everything else. */
  lemma RunsExactlyWhen(s: State, e: Event)
    requires Valid(s)
    ensures Next(s, e).running <==> e.Start? || (s.running && !e.Stop?)
  {
  }

  /** A request is outstanding once one starts, until it settles. */
  lemma OutstandingExactlyWhen(s: State, e: Event)
    requires Valid(s)
    ensures Next(s, e).outstanding == 1 <==> Next(s, e).started == s.started + 1 || (s.outstanding == 1 && !e.Settle?)
  {
    StartsExactlyWhen(s, e);
  }

  /** That a tick was skipped is remembered from a hidden tick of a running poller until it is resumed while running,
      and neither a stop nor a visible tick makes it forgotten. */
  lemma RemembersExactlyWhen(s: State, e: Event)
    requires Valid(s)
    ensures Next(s, e).skippedWhileHidden <==>
      (s.running && e.Tick? && e.hidden && e.handle in s.pending) || (s.skippedWhileHidden && !(s.running && e.Resume?))
  {
  }

  /** A new timer is armed exactly when a running poller's request settles or its tick is skipped. */
  predicate Arms(s: State, e: Event) {
    s.running && ((e.Settle? && s.outstanding == 1) || (e.Tick? && e.hidden && e.handle in s.pending))
  }

  /** Which timer is pending after a step: the one it arms; none after a stop, after the timer fired, or when a resume
      catches up; else the one that was. */
  lemma PendingAfter(s: State, e: Event)
    requires Valid(s)
    ensures var s' := Next(s, e);
      && s'.handles == (if Arms(s, e) then s.handles + 1 else s.handles)
      && s'.pending ==
         if Arms(s, e) then {s.handles}
         else if e.Stop? || (e.Tick? && e.handle in s.pending) || (e.Resume? && s.running && s.skippedWhileHidden) then {}
         else s.pending
  {
  }

  /** An event that may start a request: a start, a refresh, a resume or a tick in a visible tab. */
  predicate MayStart(e: Event) {
    e.Start? || e.Refresh? || e.Resume? || (e.Tick? && !e.hidden)
  }

  function CountMayStart(events: seq<Event>): nat {
    if events == [] then 0 else (if MayStart(events[0]) then 1 else 0) + CountMayStart(events[1..])
  }

  /** Over every run no more requests are started than there are events that may start one: none is ever queued
      up, and none is owed to a hidden tick. */
  lemma {:induction false} StartsBounded(s: State, events: seq<Event>)
    requires Valid(s)
    ensures s.started <= Run(s, events).started <= s.started + CountMayStart(events)
    decreases |events|
  {
    if events != [] {
      StepKeepsValid(s, events[0]);
      StartsExactlyWhen(s, events[0]);
      StartsBounded(Next(s, events[0]), events[1..]);
    }
  }

  /** Events that cannot start a request while the tab is hidden. */
  predicate Hidden(e: Event) {
    e.Stop? || e.Settle? || (e.Tick? && e.hidden)
  }

  /** Nothing is fetched for a hidden tab, however often its timer fires. */
  lemma {:induction false} HiddenRunStartsNothing(s: State, events: seq<Event>)
    requires Valid(s) && forall i :: 0 <= i < |events| ==> Hidden(events[i])
    ensures Run(s, events).started == s.started
    decreases |events|
  {
    if events != [] {
      StepKeepsValid(s, events[0]);
      HiddenRunStartsNothing(Next(s, events[0]), events[1..]);
    }
  }

  /** A tick skipped while hidden is made up for at once when the tab is shown, unless a request is on its way already. */
  lemma {:induction false} ShownAgainCatchesUp(s: State, events: seq<Event>, handle: nat)
    requires Valid(s) && s.running && handle in s.pending
    requires forall i :: 0 <= i < |events| ==> Hidden(events[i]) && !events[i].Stop?
    ensures var shown := Next(Run(Next(s, Tick(handle, true)), events), Resume);
      shown.outstanding == 1 && shown.pending == {} && !shown.skippedWhileHidden
  {
    StepKeepsValid(s, Tick(handle, true));
    SkippedStays(Next(s, Tick(handle, true)), events);
  }

  lemma {:induction false} SkippedStays(s: State, events: seq<Event>)
    requires Valid(s) && s.running && s.skippedWhileHidden
    requires forall i :: 0 <= i < |events| ==> Hidden(events[i]) && !events[i].Stop?
    ensures Valid(Run(s, events)) && Run(s, events).running && Run(s, events).skippedWhileHidden
    decreases |events|
  {
    if events != [] {
      StepKeepsValid(s, events[0]);
      SkippedStays(Next(s, events[0]), events[1..]);
    }
  }

  /** A stopped poller stays quiet until it is started or asked: a request that settles late schedules nothing. */
  lemma {:induction false} StoppedStaysQuiet(s: State, events: seq<Event>)
    requires Valid(s) && !s.running && forall i :: 0 <= i < |events| ==> !events[i].Start? && !events[i].Refresh?
    ensures var end := Run(s, events); !end.running && end.pending == {} && end.started == s.started && end.handles == s.handles
    decreases |events|
  {
    if events != [] {
      StepKeepsValid(s, events[0]);
      StoppedStaysQuiet(Next(s, events[0]), events[1..]);
    }
  }

  /** While it runs a request that settles schedules the next one, failed or not. */
  lemma SettledSchedulesNext(s: State)
    requires Valid(s) && s.running && s.outstanding == 1
    ensures var end := Next(s, Settle); end.outstanding == 0 && end.pending == {s.handles} && end.started == s.started
  {
  }

  // ---- The poller itself ----

  class PollerObject {
    var running: bool
    var timer: Option<nat>
    var inFlight: bool
    var skippedWhileHidden: bool
    // the timers and requests it has set going
    var pending: set<nat>
    var handles: nat
    var outstanding: nat
    var started: nat

    ghost function Now(): State
      reads this
    {
      State(running, timer, inFlight, skippedWhileHidden, pending, handles, outstanding, started)
    }

    constructor ()
      ensures Now() == IDLE && Valid(Now())
    {
      running, timer, inFlight, skippedWhileHidden := false, None, false, false;
      pending, handles, outstanding, started := {}, 0, 0, 0;
    }

    method CancelTimer()
      modifies this`pending
      ensures pending == Cancelled(old(Now()))
    {
      if timer.Some? {
        pending := pending - {timer.value};
      }
    }

    method ArmTimer()
      modifies this
      ensures Now() == Arm(old(Now()))
    {
      if !running {
        return;
      }
      CancelTimer();
      timer := Some(handles);
      pending := pending + {handles};
      handles := handles + 1;
    }

    method Refresh()
      modifies this
      ensures Now() == Next(old(Now()), Event.Refresh)
    {
      if inFlight {
        return;
      }
      inFlight := true;
      outstanding, started := outstanding + 1, started + 1;
    }

    /** Timer `handle` fires. */
    method Tick(handle: nat, hidden: bool)
      requires handle in pending
      modifies this
      ensures Now() == Next(old(Now()), Event.Tick(handle, hidden))
    {
      pending := pending - {handle};
      timer := None;
      if !running {
        return;
      }
      if hidden {
        skippedWhileHidden := true;
        ArmTimer();
        return;
      }
      Refresh();
    }

    method Start()
      modifies this
      ensures Now() == Next(old(Now()), Event.Start)
    {
      if running {
        return;
      }
      running := true;
      Refresh();
    }

    method Stop()
      modifies this
      ensures Now() == Next(old(Now()), Event.Stop)
    {
      running := false;
      CancelTimer();
      timer := None;
    }

    method Resume()
      modifies this
      ensures Now() == Next(old(Now()), Event.Resume)
    {
      if !running || !skippedWhileHidden {
        return;
      }
      skippedWhileHidden := false;
      CancelTimer();
      timer := None;
      Refresh();
    }

    /** The request that is outstanding settles. */
    method Settle()
      requires outstanding > 0
      modifies this
      ensures Now() == Next(old(Now()), Event.Settle)
    {
      outstanding := outstanding - 1;
      inFlight := false;
      ArmTimer();
    }

    /** The poller driven by any list of events stays as `RunIsSafe` says. */
    method Drive(events: seq<Event>)
      modifies this
      ensures Now() == Run(old(Now()), events)
    {
      for i := 0 to |events|
        invariant Run(Now(), events[i..]) == Run(old(Now()), events)
      {
        match events[i]
        case Start => Start();
        case Stop => Stop();
        case Refresh => Refresh();
        case Resume => Resume();
        case Tick(handle, hidden) => if handle in pending { Tick(handle, hidden); }
        case Settle => if outstanding > 0 { Settle(); }
      }
    }
  }
}
