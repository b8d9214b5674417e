/**
 Many callers in one tab (lib/api.ts, `refreshSession` and `requestWithResponse`): each API call may find
 its token expired, and all that do while a refresh is in progress share it. Every interleaving of the
 callers, the answers and the promise's settling is a list of events.
 */
module SharedRefresh {
  import opened Wrappers
  import opened ApiClient

  /** A call: not made yet; sent with the token then held; waiting for a refresh after the first answer; sent
      again after it; or over, with the last answer and what the caller got. */
  datatype Phase =
    | Ready
    | Sent(held: Option<string>)
    | Joined(refresh: nat, first: Answer)
    | Again(refresh: nat)
    | Done(held: Option<string>, joined: Option<nat>, last: Answer, result: Result<Option<string>, Failure>)

  datatype Caller = Caller(phase: Phase, sends: nat)

  /** The tab: the module's token and shared promise, a number for each refresh as it is begun; how many were
      begun, the outcomes of those that were answered, and how many are over. */
  datatype State = State(
    callers: seq<Caller>, token: Option<string>, refreshPromise: Option<nat>,
    begun: nat, outcomes: seq<RefreshOutcome>, over: nat)

  datatype Event =
    | Send(caller: nat)
    | Respond(caller: nat, answer: Answer)
    | Ask                             // someone else in the tab asks for a refresh
    | SetToken(token: Option<string>) // a sign-in or a sign-out
    | AnswerRefresh(answer: Answer)   // the refresh is answered, and with it the token set
    | Clear                           // its promise settles
    | Resume(caller: nat)             // a caller who waited for it goes on

  function Init(callers: nat, token: Option<string>): State {
    State(seq(callers, _ => Caller(Ready, 0)), token, None, 0, [], 0)
  }

  // ---- What each step does ----

  predicate Unauthorized(answer: Answer) { answer.Response? && answer.status == 401 }

  /** `refreshSession`: join the refresh in progress, or begin one. */
  function Shared(s: State): State {
    if s.refreshPromise.Some? then s else s.(refreshPromise := Some(s.begun), begun := s.begun + 1)
  }

  function Set(s: State, c: nat, phase: Phase, sent: nat): State
    requires c < |s.callers|
  {
    s.(callers := s.callers[c := Caller(phase, s.callers[c].sends + sent)])
  }

  function Responded(s: State, c: nat, answer: Answer): State
    requires c < |s.callers|
  {
    match s.callers[c].phase
    case Sent(held) =>
      if Unauthorized(answer) && held.Some? then
        var s' := Shared(s);
        Set(s', c, Joined(s'.refreshPromise.value, answer), 0)
      else Set(s, c, Done(held, None, answer, Outcome(answer)), 0)
    case Again(refresh) => Set(s, c, Done(None, Some(refresh), answer, Outcome(answer)), 0)
    case _ => s
  }

  /** A caller learns the outcome of the refresh it joined. */
  function GivenOutcome(s: State, c: nat, refresh: nat, first: Answer, outcome: RefreshOutcome): State
    requires c < |s.callers|
  {
    match outcome
    case Renewed => Set(s, c, Again(refresh), 1)
    case Refused => Set(s, c, Done(None, Some(refresh), first, Outcome(first)), 0)
    case Transient(status) => Set(s, c, Done(None, Some(refresh), first, Err(ApiError(status))), 0)
  }

  function Resumed(s: State, c: nat): State
    requires c < |s.callers|
  {
    match s.callers[c].phase
    case Joined(refresh, first) =>
      if refresh >= s.over || refresh >= |s.outcomes| then s
      else GivenOutcome(s, c, refresh, first, s.outcomes[refresh])
    case _ => s
  }

  /** One step; an event that is not possible changes nothing. */
  function Next(s: State, e: Event): State {
    match e
    case Send(c) => if c < |s.callers| && s.callers[c].phase.Ready? then Set(s, c, Sent(s.token), 1) else s
    case Respond(c, answer) => if c < |s.callers| then Responded(s, c, answer) else s
    case Ask => Shared(s)
    case SetToken(token) => s.(token := token)
    case AnswerRefresh(answer) =>
      if s.refreshPromise.Some? && |s.outcomes| == s.over then
        var (outcome, token) := Renewal(answer, s.token);
        s.(outcomes := s.outcomes + [outcome], token := token)
      else s
    case Clear =>
      if s.refreshPromise.Some? && |s.outcomes| > s.over then s.(refreshPromise := None, over := s.over + 1) else s
    case Resume(c) => if c < |s.callers| then Resumed(s, c) else s
  }

  function Run(s: State, events: seq<Event>): State
    decreases |events|
  {
    if events == [] then s else Run(Next(s, events[0]), events[1..])
  }

  // ---- What every step keeps ----

  /** At most one refresh is in progress; it is the one callers are given, and only it may be unanswered. */
  ghost predicate OneRefresh(s: State) {
    && s.begun == s.over + (if s.refreshPromise.Some? then 1 else 0)
    && (s.refreshPromise.Some? ==> s.refreshPromise.value == s.over)
    && s.over <= |s.outcomes| <= s.begun
    && forall k :: 0 <= k < |s.outcomes| && s.outcomes[k].Transient? ==> TransientStatus(s.outcomes[k].status)
  }

  /** What a caller was sent and given is what its own answers and the refresh it joined say. */
  ghost predicate InLine(s: State, caller: Caller) {
    match caller.phase
    case Ready => caller.sends == 0
    case Sent(_) => caller.sends == 1
    case Joined(refresh, first) => caller.sends == 1 && refresh < s.begun && Unauthorized(first)
    case Again(refresh) => caller.sends == 2 && refresh < s.over <= |s.outcomes| && s.outcomes[refresh].Renewed?
    case Done(held, None, last, result) =>
      caller.sends == 1 && result == Outcome(last) && (Unauthorized(last) ==> held.None?)
    case Done(held, Some(refresh), last, result) =>
      && refresh < s.over <= |s.outcomes|
      && match s.outcomes[refresh]
         case Renewed => caller.sends == 2 && result == Outcome(last)
         case Refused => caller.sends == 1 && result == Err(ApiError(401))
         case Transient(status) => caller.sends == 1 && result == Err(ApiError(status))
  }

  ghost predicate Valid(s: State) {
    OneRefresh(s) && forall c :: 0 <= c < |s.callers| ==> InLine(s, s.callers[c])
  }

  lemma InitValid(callers: nat, token: Option<string>)
    ensures Valid(Init(callers, token))
  {
  }

  /** The refreshes that were begun, answered and ended stay so. */
  ghost predicate Extends(s: State, s': State) {
    s.begun <= s'.begun && s.over <= s'.over && s.outcomes <= s'.outcomes
  }

  lemma StepKeepsOneRefresh(s: State, e: Event)
    requires OneRefresh(s)
    ensures OneRefresh(Next(s, e)) && Extends(s, Next(s, e))
  {
  }

  lemma StaysInLine(s: State, s': State, caller: Caller)
    requires InLine(s, caller) && Extends(s, s') && OneRefresh(s) && OneRefresh(s')
    ensures InLine(s', caller)
  {
  }

  /** The caller an event is about, if any. */
  function Of(e: Event): Option<nat> {
    match e
    case Send(c) => Some(c)
    case Respond(c, _) => Some(c)
    case Resume(c) => Some(c)
    case _ => None
  }

  lemma StepMovesOne(s: State, e: Event)
    ensures var s' := Next(s, e);
      |s'.callers| == |s.callers| && forall c :: 0 <= c < |s.callers| && Of(e) != Some(c) ==> s'.callers[c] == s.callers[c]
  {
  }

  lemma StepKeepsCaller(s: State, e: Event, c: nat)
    requires OneRefresh(s) && c < |s.callers| && InLine(s, s.callers[c]) && Of(e) == Some(c)
    ensures InLine(Next(s, e), Next(s, e).callers[c])
  {
  }

  lemma StepKeepsValid(s: State, e: Event)
    requires Valid(s)
    ensures Valid(Next(s, e))
  {
    var s' := Next(s, e);
    StepKeepsOneRefresh(s, e);
    StepMovesOne(s, e);
    forall c | 0 <= c < |s'.callers|
      ensures InLine(s', s'.callers[c])
    {
      if Of(e) == Some(c) {
        StepKeepsCaller(s, e, c);
      } else {
        StaysInLine(s, s', s.callers[c]);
      }
    }
  }

  /** A 401 reaches a caller only if it held no token, if the refresh it joined was refused, or if the renewed
      token was answered with one too; and a refresh that could not be judged reaches it as transient. */
  ghost predicate FairResult(s: State, held: Option<string>, joined: Option<nat>, last: Answer, result: Result<Option<string>, Failure>) {
    && (result == Err(ApiError(401)) && joined.None? ==> held.None?)
    && (joined.Some? ==>
          && joined.value < |s.outcomes|
          && (match s.outcomes[joined.value]
              case Renewed => result == Outcome(last)
              case Refused => result == Err(ApiError(401))
              case Transient(status) => result == Err(ApiError(status)) && IsTransientError(result.error) && status != 401))
  }

  /** A call was sent at most twice, and its result is fair. */
  ghost predicate Fair(s: State, caller: Caller) {
    caller.sends <= 2 &&
    match caller.phase
    case Done(held, joined, last, result) => FairResult(s, held, joined, last, result)
    case _ => true
  }

  lemma ValidIsFair(s: State, c: nat)
    requires Valid(s) && c < |s.callers|
    ensures Fair(s, s.callers[c])
  {
    assert InLine(s, s.callers[c]);
  }

  /** Over every run: at most one refresh is in progress, and every caller is treated as above. */
  lemma {:induction false} RunIsFair(s: State, events: seq<Event>)
    requires Valid(s)
    ensures var end := Run(s, events);
      && Valid(end) && end.begun - end.over <= 1 && Extends(s, end) && |end.callers| == |s.callers|
      && forall c :: 0 <= c < |end.callers| ==> Fair(end, end.callers[c])
    decreases |events|
  {
    if events == [] {
      forall c | 0 <= c < |s.callers|
        ensures Fair(s, s.callers[c])
      {
        ValidIsFair(s, c);
      }
    } else {
      StepKeepsValid(s, events[0]);
      StepKeepsOneRefresh(s, events[0]);
      StepMovesOne(s, events[0]);
      RunIsFair(Next(s, events[0]), events[1..]);
    }
  }

  /** What the token is after a step: what a sign-in or sign-out sets, what the answer to the refresh makes of it, or
      what it was. */
  lemma TokenAfter(s: State, e: Event)
    requires OneRefresh(s)
    ensures Next(s, e).token ==
      if e.SetToken? then e.token
      else if e.AnswerRefresh? && s.refreshPromise.Some? && |s.outcomes| == s.over then Renewal(e.answer, s.token).1
      else s.token
  {
  }

  /** A refresh is begun exactly when someone needs one and none is in progress: someone asks, or a call sent with a token
      is answered with a 401. */
  lemma BegunExactlyWhen(s: State, e: Event)
    requires OneRefresh(s)
    ensures var needed := e.Ask? || (e.Respond? && e.caller < |s.callers| && s.callers[e.caller].phase.Sent?
                                     && s.callers[e.caller].phase.held.Some? && Unauthorized(e.answer));
      && Next(s, e).begun == (if needed && s.refreshPromise == None then s.begun + 1 else s.begun)
      && (needed ==> Next(s, e).refreshPromise.Some?)
  {
  }

  /** A refresh is over once its promise settles, after its answer and not before. */
  lemma OverExactlyWhen(s: State, e: Event)
    requires OneRefresh(s)
    ensures Next(s, e).over == if e.Clear? && s.refreshPromise.Some? && |s.outcomes| == s.begun then s.over + 1 else s.over
    ensures |Next(s, e).outcomes| == if e.AnswerRefresh? && |s.outcomes| < s.begun then |s.outcomes| + 1 else |s.outcomes|
  {
  }

  // ---- One refresh for all ----

  predicate JoinsOnly(phase: Phase, refresh: nat) { phase.Joined? ==> phase.refresh == refresh }

  /** Until a refresh is over nobody begins another, however many callers find their token expired, and all of
      them are given this one. */
  lemma {:induction false} OneForAll(s: State, events: seq<Event>, refresh: nat)
    requires Valid(s) && s.refreshPromise == Some(refresh) && forall i :: 0 <= i < |events| ==> !events[i].Clear?
    ensures var end := Run(s, events);
      && end.refreshPromise == Some(refresh) && end.begun == s.begun && |end.callers| == |s.callers|
      && forall c :: 0 <= c < |s.callers| && JoinsOnly(s.callers[c].phase, refresh) ==> JoinsOnly(end.callers[c].phase, refresh)
    decreases |events|
  {
    if events != [] {
      StepKeepsValid(s, events[0]);
      StepMovesOne(s, events[0]);
      OneForAll(Next(s, events[0]), events[1..], refresh);
    }
  }

  /** A caller waits for the refresh it joined and for no other. */
  lemma {:induction false} JoinedStays(s: State, events: seq<Event>, c: nat)
    requires Valid(s) && c < |s.callers| && s.callers[c].phase.Joined?
    ensures c < |Run(s, events).callers|
    ensures var phase := Run(s, events).callers[c].phase;
      match phase
      case Joined(refresh, first) => phase == s.callers[c].phase
      case Again(refresh) => refresh == s.callers[c].phase.refresh
      case Done(_, joined, _, _) => joined == Some(s.callers[c].phase.refresh)
      case _ => false
    decreases |events|
  {
    if events != [] {
      var s' := Next(s, events[0]);
      StepKeepsValid(s, events[0]);
      StepMovesOne(s, events[0]);
      match s'.callers[c].phase
      case Joined(_, _) => JoinedStays(s', events[1..], c);
      case Again(_) => AgainStays(s', events[1..], c);
      case Done(_, _, _, _) => DoneStays(s', events[1..], c);
    }
  }

  lemma {:induction false} AgainStays(s: State, events: seq<Event>, c: nat)
    requires Valid(s) && c < |s.callers| && s.callers[c].phase.Again?
    ensures c < |Run(s, events).callers|
    ensures var phase := Run(s, events).callers[c].phase;
      phase == s.callers[c].phase || (phase.Done? && phase.joined == Some(s.callers[c].phase.refresh))
    decreases |events|
  {
    if events != [] {
      var s' := Next(s, events[0]);
      StepKeepsValid(s, events[0]);
      StepMovesOne(s, events[0]);
      if s'.callers[c].phase.Again? {
        AgainStays(s', events[1..], c);
      } else {
        DoneStays(s', events[1..], c);
      }
    }
  }

  lemma {:induction false} DoneStays(s: State, events: seq<Event>, c: nat)
    requires Valid(s) && c < |s.callers| && s.callers[c].phase.Done?
    ensures c < |Run(s, events).callers| && Run(s, events).callers[c] == s.callers[c]
    decreases |events|
  {
    if events != [] {
      StepKeepsValid(s, events[0]);
      StepMovesOne(s, events[0]);
      DoneStays(Next(s, events[0]), events[1..], c);
    }
  }

  /** Two callers who joined the same refresh and are done fared alike, unless it renewed the token. */
  lemma JoinersFareAlike(s: State, c: nat, d: nat, refresh: nat)
    requires Valid(s) && c < |s.callers| && d < |s.callers|
    requires s.callers[c].phase.Done? && s.callers[d].phase.Done?
    requires s.callers[c].phase.joined == s.callers[d].phase.joined == Some(refresh)
    ensures s.callers[c].sends == s.callers[d].sends
    ensures s.callers[c].sends == 1 ==> s.callers[c].phase.result == s.callers[d].phase.result
  {
    assert InLine(s, s.callers[c]) && InLine(s, s.callers[d]);
  }

  /** No caller is left waiting: the refresh it joined is over, or is in progress and can be answered, and then
      the caller goes on. */
  lemma JoinedGoesOn(s: State, c: nat, answer: Answer)
    requires Valid(s) && c < |s.callers| && s.callers[c].phase.Joined?
    ensures var end := Next(Next(Next(s, AnswerRefresh(answer)), Clear), Resume(c));
      end.callers[c].phase.Again? || end.callers[c].phase.Done?
  {
    assert InLine(s, s.callers[c]);
    var s1 := Next(s, AnswerRefresh(answer));
    var s2 := Next(s1, Clear);
    StepKeepsValid(s, AnswerRefresh(answer));
    StepKeepsValid(s1, Clear);
    assert s2.callers[c].phase == s.callers[c].phase;
    assert s.callers[c].phase.refresh < s2.over;
  }

  // ---- A caller alone ----

  /** With nobody else about, a caller fares as `Call` says. */
  lemma AloneIsCall(server: Server, tab: Tab)
    ensures var s := Next(Next(Init(1, tab.token), Send(0)), Respond(0, server(tab.sent)));
      var s' := if s.callers[0].phase.Done? then s
                else Next(Next(Next(s, AnswerRefresh(server(tab.sent + 1))), Clear), Resume(0));
      var end := if s'.callers[0].phase.Done? then s' else Next(s', Respond(0, server(tab.sent + 2)));
      var (result, after) := Call(server, tab);
      && end.callers[0].phase.Done? && end.callers[0].phase.result == result
      && end.callers[0].sends == after.calls - tab.calls && end.token == after.token
  {
    var s0 := Init(1, tab.token);
    var s1 := Next(s0, Send(0));
    assert s1.callers == [Caller(Sent(tab.token), 1)];
    var s := Next(s1, Respond(0, server(tab.sent)));
    if !s.callers[0].phase.Done? {
      assert s.callers == [Caller(Joined(0, server(tab.sent)), 1)] && s.refreshPromise == Some(0);
      var s2 := Next(Next(s, AnswerRefresh(server(tab.sent + 1))), Clear);
      assert s2.over == 1 && |s2.outcomes| == 1 && s2.callers == s.callers;
    }
  }

  // ---- The module's own variables ----

  class SharingTab {
    var callers: seq<Caller>
    var accessToken: Option<string>
    var refreshPromise: Option<nat>
    var begun: nat
    var outcomes: seq<RefreshOutcome>
    var over: nat

    ghost function Now(): State
      reads this
    {
      State(callers, accessToken, refreshPromise, begun, outcomes, over)
    }

    constructor (n: nat, token: Option<string>)
      ensures Now() == Init(n, token) && Valid(Now())
    {
      callers, accessToken, refreshPromise := seq(n, _ => Caller(Ready, 0)), token, None;
      begun, outcomes, over := 0, [], 0;
      new;
      InitValid(n, token);
    }

    method RefreshSession() returns (promise: nat)
      modifies this
      ensures Now() == Shared(old(Now())) && refreshPromise == Some(promise)
    {
      if refreshPromise.None? {
        refreshPromise := Some(begun);
        begun := begun + 1;
      }
      promise := refreshPromise.value;
    }

    method SendNow(c: nat, phase: Phase)
      requires c < |callers|
      modifies this`callers
      ensures Now() == Set(old(Now()), c, phase, 1)
    {
      callers := callers[c := Caller(phase, callers[c].sends + 1)];
    }

    method Receive(c: nat, answer: Answer)
      requires c < |callers|
      modifies this
      ensures Now() == Responded(old(Now()), c, answer)
    {
      var sends := callers[c].sends;
      match callers[c].phase
      case Sent(held) =>
        if Unauthorized(answer) && held.Some? {
          var promise := RefreshSession();
          callers := callers[c := Caller(Joined(promise, answer), sends)];
        } else {
          callers := callers[c := Caller(Done(held, None, answer, Outcome(answer)), sends)];
        }
      case Again(refresh) => callers := callers[c := Caller(Done(None, Some(refresh), answer, Outcome(answer)), sends)];
      case _ =>
    }

    method GoOn(c: nat)
      requires c < |callers|
      modifies this
      ensures Now() == Resumed(old(Now()), c)
    {
      match callers[c].phase
      case Joined(refresh, first) =>
        if refresh < over && refresh < |outcomes| {
          var sends := callers[c].sends;
          match outcomes[refresh] {
            case Renewed => SendNow(c, Again(refresh));
            case Refused => callers := callers[c := Caller(Done(None, Some(refresh), first, Outcome(first)), sends)];
            case Transient(status) =>
              callers := callers[c := Caller(Done(None, Some(refresh), first, Err(ApiError(status))), sends)];
          }
        }
      case _ =>
    }

    method Step(e: Event)
      modifies this
      ensures Now() == Next(old(Now()), e)
    {
      match e
      case Send(c) =>
        if c < |callers| && callers[c].phase.Ready? {
          SendNow(c, Sent(accessToken));
        }
      case Respond(c, answer) =>
        if c < |callers| {
          Receive(c, answer);
        }
      case Ask => var _ := RefreshSession();
      case SetToken(token) => accessToken := token;
      case AnswerRefresh(answer) =>
        if refreshPromise.Some? && |outcomes| == over {
          var (outcome, token) := Renewal(answer, accessToken);
          outcomes, accessToken := outcomes + [outcome], token;
        }
      case Clear =>
        if refreshPromise.Some? && |outcomes| > over {
          refreshPromise, over := None, over + 1;
        }
      case Resume(c) =>
        if c < |callers| {
          GoOn(c);
        }
    }

    method Drive(events: seq<Event>)
      requires Valid(Now())
      modifies this
      ensures Now() == Run(old(Now()), events)
      ensures begun - over <= 1 && forall c :: 0 <= c < |callers| ==> Fair(Now(), callers[c])
    {
      ghost var start := Now();
      for n := 0 to |events|
        invariant Run(Now(), events[n..]) == Run(start, events)
      {
        assert events[n..][0] == events[n] && events[n..][1..] == events[n + 1..];
        Step(events[n]);
      }
      RunIsFair(start, events);
    }
  }
}
