/**
 How the tabs of one browser renew a session (lib/api.ts, `refreshSession` and `postRefresh`) against a
 server whose refresh tokens are single-use (backend/src/api/routes/auth.py, `refresh`): one shared
 cookie, one refresh in progress per tab, and a lock across tabs where the browser has one. Every
 interleaving of the tabs' and the server's steps is a list of events.
 */
module SessionProtocol {
  import opened Wrappers

  /** A refresh token as the server stores it; redeeming one marks it used and revoked. */
  datatype Token = Token(issuedAt: nat, usedAt: Option<nat>, revoked: bool)

  datatype Reply = Granted(token: nat) | Rejected

  /** A tab's refresh: none, waiting for its turn, sent but not judged, accepted by the server with the
      replacement not issued yet, or answered with the reply on its way. */
  datatype Phase = Idle | Waiting | Posted(presented: Option<nat>) | Accepted | Answered(reply: Reply) {
    predicate InFlight() { Posted? || Accepted? || Answered? }
  }

  /** The browsers' lock support, how many tabs share the cookie, and how long a retired token may come back. */
  datatype Config = Config(locks: bool, tabs: nat, grace: nat)

  /** Tokens are numbered in the order they are issued; `seen` are the ones presented to the server, `ended`
      that it took one for a replay and revoked the whole family. */
  datatype State = State(
    tabs: seq<Phase>, lock: Option<nat>, cookie: Option<nat>, tokens: seq<Token>, now: nat, seen: seq<nat>, ended: bool)

  /** What else the server finds out about a presented token. */
  datatype Standing = Good | Undecodable | Expired | UserGone

  datatype Event =
    | Call(tab: nat)                       // a caller asks for a refresh
    | Send(tab: nat)                       // the tab's turn comes and it posts the cookie it then holds
    | Drop(tab: nat)                       // the request is refused or lost before it is judged
    | Judge(tab: nat, standing: Standing)  // the server looks at the token and, when it accepts it, spends it
    | Issue(tab: nat)                      // the server issues the replacement, in a second commit
    | Fail(tab: nat)                       // the server fails before that, and the tab learns nothing
    | Deliver(tab: nat)                    // the reply arrives, and with it the new cookie
    | Lose(tab: nat)                       // the reply never arrives
    | Wait(time: nat)

  function Init(cfg: Config): State {
    State(seq(cfg.tabs, _ => Idle), None, Some(0), [Token(0, None, false)], 1, [], false)
  }

  // ---- The server ----

  /** The first other token issued since `since`. Tokens are kept in the order of their issue. */
  function FirstSuccessor(tokens: seq<Token>, retired: nat, since: nat, from: nat): (k: Option<nat>)
    requires from <= |tokens|
    ensures k.Some? ==> from <= k.value < |tokens| && k.value != retired && tokens[k.value].issuedAt >= since
    ensures k.Some? ==> forall i :: from <= i < k.value && i != retired ==> tokens[i].issuedAt < since
    ensures k.None? ==> forall i :: from <= i < |tokens| && i != retired ==> tokens[i].issuedAt < since
    decreases |tokens| - from
  {
    if from == |tokens| then None
    else if from != retired && tokens[from].issuedAt >= since then Some(from)
    else FirstSuccessor(tokens, retired, since, from + 1)
  }

  /** A retired token that most likely comes back because the reply to it was lost. */
  predicate LostReplyRetried(cfg: Config, s: State, t: nat)
    requires t < |s.tokens|
  {
    var retired := s.tokens[t];
    && retired.usedAt.Some? && s.now <= retired.usedAt.value + cfg.grace
    && var k := FirstSuccessor(s.tokens, t, retired.usedAt.value, 0);
       k.Some? && s.tokens[k.value].usedAt.None? && !s.tokens[k.value].revoked
  }

  function RevokeAll(tokens: seq<Token>): (r: seq<Token>)
    ensures |r| == |tokens| && forall i :: 0 <= i < |tokens| ==> r[i] == tokens[i].(revoked := true)
  {
    if tokens == [] then [] else [tokens[0].(revoked := true)] + RevokeAll(tokens[1..])
  }

  /** What the server makes of a presented token and what it records: whether it accepts the token. Its clock
      moves with every request. */
  function Judged(cfg: Config, s: State, presented: Option<nat>, standing: Standing): (State, bool) {
    if presented.None? || presented.value >= |s.tokens| then (s.(now := s.now + 1), false)
    else
      var t := presented.value;
      var token := s.tokens[t];
      var after := s.(seen := s.seen + [t], now := s.now + 1);
      var retried := token.revoked && token.usedAt.Some? && LostReplyRetried(cfg, s, t);
      if standing == Undecodable then (after, false)
      else if token.revoked && token.usedAt.None? then (after, false)
      else if token.revoked && !retried then (after.(tokens := RevokeAll(s.tokens), ended := true), false)
      else if standing == Expired then (after.(tokens := s.tokens[t := token.(revoked := true)]), false)
      else if standing == UserGone then (after, false)
      else if retried then (after, true)
      else (after.(tokens := s.tokens[t := token.(usedAt := Some(s.now), revoked := true)]), true)
  }

  // ---- The tabs ----

  /** The refresh of a tab is over: its promise is cleared and its turn given up. */
  function Finished(s: State, tab: nat): State
    requires tab < |s.tabs|
  {
    s.(tabs := s.tabs[tab := Idle], lock := if s.lock == Some(tab) then None else s.lock)
  }

  /** One step; an event that is not possible changes nothing. */
  function Next(cfg: Config, s: State, e: Event): State {
    if e.Wait? then s.(now := s.now + e.time)
    else if e.tab >= |s.tabs| then s
    else
      var phase := s.tabs[e.tab];
      match e
      case Call(tab) => if phase.Idle? then s.(tabs := s.tabs[tab := Waiting]) else s
      case Send(tab) =>
        if phase.Waiting? && (cfg.locks ==> s.lock.None?)
        then s.(tabs := s.tabs[tab := Posted(s.cookie)], lock := if cfg.locks then Some(tab) else None)
        else s
      case Drop(tab) => if phase.Posted? then Finished(s, tab) else s
      case Judge(tab, standing) =>
        if phase.Posted? then
          var (s', accepted) := Judged(cfg, s, phase.presented, standing);
          s'.(tabs := s.tabs[tab := if accepted then Accepted else Answered(Rejected)])
        else s
      case Issue(tab) =>
        if phase.Accepted? then
          s.(tabs := s.tabs[tab := Answered(Granted(|s.tokens|))], tokens := s.tokens + [Token(s.now, None, false)], now := s.now + 1)
        else s
      case Fail(tab) => if phase.Accepted? then Finished(s, tab) else s
      case Deliver(tab) =>
        if phase.Answered? then
          Finished(s, tab).(cookie := match phase.reply case Granted(token) => Some(token) case Rejected => None)
        else s
      case Lose(tab) => if phase.Answered? then Finished(s, tab) else s
  }

  function Run(cfg: Config, s: State, events: seq<Event>): State
    decreases |events|
  {
    if events == [] then s else Run(cfg, Next(cfg, s, events[0]), events[1..])
  }

  // ---- What every step keeps ----

  /** The tabs take turns: they have a lock, or there is only one of them. */
  predicate TakeTurns(cfg: Config) { cfg.locks || cfg.tabs <= 1 }

  /** At most one refresh is on its way, and under a lock its tab holds it. */
  ghost predicate Exclusive(cfg: Config, s: State) {
    && |s.tabs| == cfg.tabs
    && (forall i, j :: 0 <= i < |s.tabs| && 0 <= j < |s.tabs| && s.tabs[i].InFlight() && s.tabs[j].InFlight() ==> i == j)
    && (cfg.locks ==> forall i :: 0 <= i < |s.tabs| && s.tabs[i].InFlight() ==> s.lock == Some(i))
  }

  ghost predicate Clocked(s: State) {
    && |s.tokens| > 0
    && (forall i, j :: 0 <= i < j < |s.tokens| ==> s.tokens[i].issuedAt < s.tokens[j].issuedAt)
    && (forall i :: 0 <= i < |s.tokens| ==> s.tokens[i].issuedAt < s.now)
    && (forall i :: 0 <= i < |s.tokens| && s.tokens[i].usedAt.Some? ==>
          s.tokens[i].revoked && s.tokens[i].issuedAt < s.tokens[i].usedAt.value < s.now)
  }

  ghost predicate Fresh(tokens: seq<Token>, t: nat) {
    t < |tokens| && tokens[t].usedAt.None? && !tokens[t].revoked
  }

  /** The cookie holds the newest token, or one whose replacements, if there are any, were all lost and never used. */
  ghost predicate CookieInLine(s: State) {
    s.cookie.Some? ==>
      var c := s.cookie.value;
      && c < |s.tokens|
      && (s.tokens[c].usedAt.None? ==> c == |s.tokens| - 1)
      && (s.tokens[c].usedAt.Some? && c + 1 < |s.tokens| ==> s.tokens[c].usedAt.value <= s.tokens[c + 1].issuedAt)
      && forall k :: c < k < |s.tokens| ==> Fresh(s.tokens, k)
  }

  ghost predicate FlightsInLine(s: State) {
    forall i :: 0 <= i < |s.tabs| ==>
      match s.tabs[i]
      case Posted(presented) => presented == s.cookie
      case Accepted => s.cookie.Some? && s.cookie.value < |s.tokens| && s.tokens[s.cookie.value].usedAt.Some?
      case Answered(Granted(n)) => n == |s.tokens| - 1 && Fresh(s.tokens, n) && s.cookie != Some(n)
      case _ => true
  }

  ghost predicate Inv(cfg: Config, s: State) {
    Exclusive(cfg, s) && Clocked(s) && CookieInLine(s) && FlightsInLine(s)
  }

  /** This step judges token `t`, which was redeemed before and still decodes. */
  ghost predicate Returns(s: State, e: Event, t: nat) {
    && e.Judge? && e.standing != Undecodable && e.tab < |s.tabs| && s.tabs[e.tab] == Posted(Some(t))
    && t < |s.tokens| && s.tokens[t].usedAt.Some?
  }

  /** The judged token comes back too late: it was redeemed longer ago than the grace allows. */
  ghost predicate TooLate(cfg: Config, s: State, e: Event) {
    exists t: nat :: Returns(s, e, t) && s.now > s.tokens[t].usedAt.value + cfg.grace
  }

  /** The judged token was redeemed and nothing was issued since: the server failed between its two commits. */
  ghost predicate NeverReplaced(s: State, e: Event) {
    exists t: nat :: Returns(s, e, t) && forall k :: 0 <= k < |s.tokens| && k != t ==> s.tokens[k].issuedAt < s.tokens[t].usedAt.value
  }

  /** A redeemed token in the cookie is forgiven exactly when it comes in time and was replaced. */
  lemma RetriedExactlyWhen(cfg: Config, s: State, c: nat)
    requires Inv(cfg, s) && s.cookie == Some(c) && s.tokens[c].usedAt.Some?
    ensures LostReplyRetried(cfg, s, c) <==> s.now <= s.tokens[c].usedAt.value + cfg.grace && c + 1 < |s.tokens|
  {
    var k := FirstSuccessor(s.tokens, c, s.tokens[c].usedAt.value, 0);
    if c + 1 < |s.tokens| {
      assert s.tokens[c + 1].issuedAt >= s.tokens[c].usedAt.value;
      assert k.Some?;
      assert k.value > c;
      assert Fresh(s.tokens, k.value);
    }
  }

  lemma ReplacedExactlyWhen(cfg: Config, s: State, c: nat)
    requires Inv(cfg, s) && s.cookie == Some(c) && s.tokens[c].usedAt.Some?
    ensures (forall k :: 0 <= k < |s.tokens| && k != c ==> s.tokens[k].issuedAt < s.tokens[c].usedAt.value) <==> c + 1 == |s.tokens|
  {
    if c + 1 < |s.tokens| {
      assert s.tokens[c + 1].issuedAt >= s.tokens[c].usedAt.value;
    }
  }

  lemma InitInv(cfg: Config)
    ensures Inv(cfg, Init(cfg))
  {
  }

  /** A request judged while its token is the cookie's. */
  lemma JudgeKeepsInv(cfg: Config, s: State, tab: nat, standing: Standing)
    requires Inv(cfg, s) && !s.ended && tab < |s.tabs| && s.tabs[tab].Posted?
    ensures var s' := Next(cfg, s, Judge(tab, standing));
      && (s'.ended <==> TooLate(cfg, s, Judge(tab, standing)) || NeverReplaced(s, Judge(tab, standing)))
      && (!s'.ended ==> Inv(cfg, s'))
  {
    EndedExactlyWhen(cfg, s, tab, standing);
    if !Next(cfg, s, Judge(tab, standing)).ended {
      JudgeKeepsOrder(cfg, s, tab, standing);
    }
  }

  lemma EndedExactlyWhen(cfg: Config, s: State, tab: nat, standing: Standing)
    requires Inv(cfg, s) && !s.ended && tab < |s.tabs| && s.tabs[tab].Posted?
    ensures Next(cfg, s, Judge(tab, standing)).ended <==> TooLate(cfg, s, Judge(tab, standing)) || NeverReplaced(s, Judge(tab, standing))
  {
    var e := Judge(tab, standing);
    if standing != Undecodable && s.cookie.Some? && s.tokens[s.cookie.value].usedAt.Some? {
      var c := s.cookie.value;
      RetriedExactlyWhen(cfg, s, c);
      ReplacedExactlyWhen(cfg, s, c);
      assert Returns(s, e, c);
    }
  }

  lemma JudgeKeepsOrder(cfg: Config, s: State, tab: nat, standing: Standing)
    requires Inv(cfg, s) && !s.ended && tab < |s.tabs| && s.tabs[tab].Posted?
    requires !Next(cfg, s, Judge(tab, standing)).ended
    ensures Inv(cfg, Next(cfg, s, Judge(tab, standing)))
  {
    var s' := Next(cfg, s, Judge(tab, standing));
    OneChanged(cfg, s, s', tab);
    JudgeKeepsTokens(cfg, s, tab, standing);
    JudgeKeepsCookie(cfg, s, tab, standing);
  }

  /** A tab whose request stays on its way keeps the others waiting. */
  lemma OneChanged(cfg: Config, s: State, s': State, tab: nat)
    requires Exclusive(cfg, s) && tab < |s.tabs| && s.tabs[tab].InFlight() && s'.lock == s.lock
    requires |s'.tabs| == |s.tabs| && s'.tabs == s.tabs[tab := s'.tabs[tab]] && s'.tabs[tab].InFlight()
    ensures Exclusive(cfg, s')
    ensures forall i :: 0 <= i < |s'.tabs| && i != tab ==> !s'.tabs[i].InFlight()
  {
    forall i | 0 <= i < |s.tabs|
      ensures s'.tabs[i].InFlight() <==> s.tabs[i].InFlight()
    {
    }
  }

  /** A token is spent, at most, which changes its record only. */
  ghost predicate SpentAtMost(before: seq<Token>, after: seq<Token>, t: nat, now: nat) {
    |after| == |before| && forall i :: 0 <= i < |before| ==>
      && after[i].issuedAt == before[i].issuedAt
      && (i != t ==> after[i] == before[i])
      && (after[i].usedAt == before[i].usedAt || (before[i].usedAt.None? && after[i] == Token(before[i].issuedAt, Some(now), true)))
      && (before[i].revoked ==> after[i].revoked)
  }

  lemma JudgeKeepsTokens(cfg: Config, s: State, tab: nat, standing: Standing)
    requires Inv(cfg, s) && !s.ended && tab < |s.tabs| && s.tabs[tab].Posted?
    requires !Next(cfg, s, Judge(tab, standing)).ended
    ensures var s' := Next(cfg, s, Judge(tab, standing));
      SpentAtMost(s.tokens, s'.tokens, if s.cookie.Some? then s.cookie.value else 0, s.now) && Clocked(s')
  {
    var s' := Next(cfg, s, Judge(tab, standing));
    SpendingKeepsClock(s, s', if s.cookie.Some? then s.cookie.value else 0);
  }

  lemma SpendingKeepsClock(s: State, s': State, t: nat)
    requires Clocked(s) && SpentAtMost(s.tokens, s'.tokens, t, s.now) && s'.now == s.now + 1
    ensures Clocked(s')
  {
    forall i | 0 <= i < |s.tokens|
      ensures s'.tokens[i].issuedAt == s.tokens[i].issuedAt
      ensures s'.tokens[i].usedAt.Some? ==> s'.tokens[i].revoked && s'.tokens[i].issuedAt < s'.tokens[i].usedAt.value < s'.now
    {
    }
  }

  lemma JudgeKeepsCookie(cfg: Config, s: State, tab: nat, standing: Standing)
    requires Inv(cfg, s) && !s.ended && tab < |s.tabs| && s.tabs[tab].Posted?
    requires !Next(cfg, s, Judge(tab, standing)).ended
    ensures var s' := Next(cfg, s, Judge(tab, standing));
      CookieInLine(s') && (s'.tabs[tab].Accepted? ==> s'.cookie.Some? && s'.tokens[s'.cookie.value].usedAt.Some?)
  {
    var s' := Next(cfg, s, Judge(tab, standing));
    JudgeKeepsTokens(cfg, s, tab, standing);
    if s.cookie.Some? {
      SpendingKeepsCookie(s, s', s.cookie.value);
    }
  }

  lemma SpendingKeepsCookie(s: State, s': State, c: nat)
    requires Clocked(s) && CookieInLine(s) && s.cookie == Some(c) == s'.cookie && SpentAtMost(s.tokens, s'.tokens, c, s.now)
    ensures CookieInLine(s')
  {
    forall k | c < k < |s'.tokens|
      ensures Fresh(s'.tokens, k)
    {
      assert Fresh(s.tokens, k);
    }
  }

  lemma IssueKeepsInv(cfg: Config, s: State, tab: nat)
    requires Inv(cfg, s) && tab < |s.tabs| && s.tabs[tab].Accepted?
    ensures Inv(cfg, Next(cfg, s, Issue(tab)))
  {
    var s' := Next(cfg, s, Issue(tab));
    var c := s.cookie.value;
    OneChanged(cfg, s, s', tab);
    forall k | c < k < |s'.tokens|
      ensures Fresh(s'.tokens, k)
    {
      if k < |s.tokens| {
        assert Fresh(s.tokens, k);
      }
    }
  }

  // ---- Every step, and every run ----

  /** This step has the server judge a request. */
  predicate Judges(s: State, e: Event) {
    e.Judge? && e.tab < |s.tabs| && s.tabs[e.tab].Posted?
  }

  lemma StepKeepsInv(cfg: Config, s: State, e: Event)
    requires TakeTurns(cfg) && Inv(cfg, s) && !s.ended
    ensures Next(cfg, s, e).ended <==> TooLate(cfg, s, e) || NeverReplaced(s, e)
    ensures !Next(cfg, s, e).ended ==> Inv(cfg, Next(cfg, s, e))
  {
    if Judges(s, e) {
      JudgeKeepsInv(cfg, s, e.tab, e.standing);
    } else {
      OnlyJudgingEnds(cfg, s, e);
      OthersKeepInv(cfg, s, e);
    }
  }

  lemma OnlyJudgingEnds(cfg: Config, s: State, e: Event)
    requires !Judges(s, e)
    ensures Next(cfg, s, e).ended == s.ended && !TooLate(cfg, s, e) && !NeverReplaced(s, e)
  {
  }

  lemma OthersKeepInv(cfg: Config, s: State, e: Event)
    requires TakeTurns(cfg) && Inv(cfg, s) && !Judges(s, e)
    ensures Inv(cfg, Next(cfg, s, e))
  {
    match e
    case Wait(_) =>
    case Judge(_, _) =>
    case Send(tab) => SendKeepsInv(cfg, s, tab);
    case Call(tab) => CallKeepsInv(cfg, s, tab);
    case Issue(tab) =>
      if tab < |s.tabs| && s.tabs[tab].Accepted? {
        IssueKeepsInv(cfg, s, tab);
      }
    case _ => OverKeepsInv(cfg, s, e);
  }

  lemma CallKeepsInv(cfg: Config, s: State, tab: nat)
    requires Inv(cfg, s)
    ensures Inv(cfg, Next(cfg, s, Call(tab)))
  {
  }

  lemma SendKeepsInv(cfg: Config, s: State, tab: nat)
    requires TakeTurns(cfg) && Inv(cfg, s)
    ensures Inv(cfg, Next(cfg, s, Send(tab)))
  {
    var s' := Next(cfg, s, Send(tab));
    if s' != s {
      forall i | 0 <= i < |s.tabs|
        ensures !s.tabs[i].InFlight()
      {
      }
    }
  }

  /** A refresh that is over leaves no other behind. */
  lemma OverKeepsInv(cfg: Config, s: State, e: Event)
    requires Inv(cfg, s) && (e.Deliver? || e.Drop? || e.Fail? || e.Lose?)
    ensures Inv(cfg, Next(cfg, s, e))
  {
    var s' := Next(cfg, s, e);
    if s' != s {
      forall i | 0 <= i < |s'.tabs|
        ensures !s'.tabs[i].InFlight()
      {
        assert s.tabs[e.tab].InFlight();
      }
    }
  }

  /** Every token is revoked and none is about to be issued: the session is over for good. */
  ghost predicate SignedOut(s: State) {
    && s.ended && (forall k :: 0 <= k < |s.tokens| ==> s.tokens[k].revoked)
    && (forall i :: 0 <= i < |s.tabs| ==> !s.tabs[i].Accepted?)
  }

  /** Once it is over nothing brings it back, whatever the tabs do. */
  lemma SignedOutStays(cfg: Config, s: State, e: Event)
    requires SignedOut(s)
    ensures SignedOut(Next(cfg, s, e))
  {
  }

  lemma {:induction false} SignedOutRun(cfg: Config, s: State, events: seq<Event>)
    requires SignedOut(s)
    ensures SignedOut(Run(cfg, s, events))
    decreases |events|
  {
    if events != [] {
      SignedOutStays(cfg, s, events[0]);
      SignedOutRun(cfg, Next(cfg, s, events[0]), events[1..]);
    }
  }

  /** Under turns the step that ends the family leaves no token and no request behind it. */
  lemma EndingSignsOut(cfg: Config, s: State, e: Event)
    requires Inv(cfg, s) && !s.ended && Next(cfg, s, e).ended
    ensures SignedOut(Next(cfg, s, e))
  {
    var s' := Next(cfg, s, e);
    assert e.Judge? && e.tab < |s.tabs| && s.tabs[e.tab].Posted?;
    OneChanged(cfg, s, s', e.tab);
  }

  /** Some redeemed token that still decodes came back too late in this run, or came back without having been replaced. */
  ghost predicate EverUnforgiven(cfg: Config, s: State, events: seq<Event>)
    decreases |events|
  {
    events != [] &&
    (TooLate(cfg, s, events[0]) || NeverReplaced(s, events[0]) || EverUnforgiven(cfg, Next(cfg, s, events[0]), events[1..]))
  }

  /** With turns taken, whatever gets lost and wherever the server fails: a run ends the family, and then for
      good, exactly when a redeemed token came back too late or without having been replaced. Until then at
      most one refresh is on its way and the cookie is in line. */
  lemma {:induction false} FamilyEndsExactlyWhen(cfg: Config, s: State, events: seq<Event>)
    requires TakeTurns(cfg) && Inv(cfg, s) && !s.ended
    ensures Run(cfg, s, events).ended <==> EverUnforgiven(cfg, s, events)
    ensures var end := Run(cfg, s, events); if end.ended then SignedOut(end) else Inv(cfg, end)
    decreases |events|
  {
    if events != [] {
      StepKeepsInv(cfg, s, events[0]);
      var s' := Next(cfg, s, events[0]);
      if s'.ended {
        EndingSignsOut(cfg, s, events[0]);
        SignedOutRun(cfg, s', events[1..]);
      } else {
        FamilyEndsExactlyWhen(cfg, s', events[1..]);
      }
    }
  }

  // ---- When the server never fails between its two commits ----

  ghost predicate NoneFail(events: seq<Event>) {
    forall i :: 0 <= i < |events| ==> !events[i].Fail?
  }

  /** A redeemed token in the cookie has been replaced, or is about to be. */
  ghost predicate Replaced(s: State) {
    s.cookie.Some? && s.cookie.value < |s.tokens| && s.tokens[s.cookie.value].usedAt.Some? ==>
      s.cookie.value + 1 < |s.tokens| || exists i :: 0 <= i < |s.tabs| && s.tabs[i].Accepted?
  }

  lemma StepKeepsReplaced(cfg: Config, s: State, e: Event)
    requires TakeTurns(cfg) && Inv(cfg, s) && !s.ended && Replaced(s) && !e.Fail?
    ensures !NeverReplaced(s, e)
    ensures !Next(cfg, s, e).ended ==> Replaced(Next(cfg, s, e))
  {
    if Judges(s, e) {
      JudgeKeepsReplaced(cfg, s, e.tab, e.standing);
    } else if i :| 0 <= i < |s.tabs| && s.tabs[i].Accepted? {
      OnlyJudgingEnds(cfg, s, e);
      AcceptedIsAnswered(cfg, s, e, i);
    } else {
      OnlyJudgingEnds(cfg, s, e);
    }
  }

  lemma JudgeKeepsReplaced(cfg: Config, s: State, tab: nat, standing: Standing)
    requires Inv(cfg, s) && !s.ended && Replaced(s) && tab < |s.tabs| && s.tabs[tab].Posted?
    ensures !NeverReplaced(s, Judge(tab, standing))
    ensures !Next(cfg, s, Judge(tab, standing)).ended ==> Replaced(Next(cfg, s, Judge(tab, standing)))
  {
    var e, s' := Judge(tab, standing), Next(cfg, s, Judge(tab, standing));
    forall i | 0 <= i < |s.tabs|
      ensures !s.tabs[i].Accepted?
    {
      assert s.tabs[tab].InFlight();
    }
    if t: nat :| Returns(s, e, t) {
      ReplacedExactlyWhen(cfg, s, t);
    }
    if !s'.ended && !s'.tabs[tab].Accepted? {
      RefusedSpendsNothing(cfg, s, tab, standing);
    }
  }

  lemma RefusedSpendsNothing(cfg: Config, s: State, tab: nat, standing: Standing)
    requires tab < |s.tabs| && s.tabs[tab].Posted?
    requires var s' := Next(cfg, s, Judge(tab, standing)); !s'.ended && !s'.tabs[tab].Accepted?
    ensures var s' := Next(cfg, s, Judge(tab, standing));
      && s'.cookie == s.cookie && |s'.tokens| == |s.tokens|
      && forall k :: 0 <= k < |s.tokens| ==> s'.tokens[k].usedAt == s.tokens[k].usedAt
  {
  }

  lemma AcceptedIsAnswered(cfg: Config, s: State, e: Event, i: nat)
    requires Inv(cfg, s) && i < |s.tabs| && s.tabs[i].Accepted? && !e.Fail?
    ensures Replaced(Next(cfg, s, e))
  {
    var s' := Next(cfg, s, e);
    assert s.tabs[i].InFlight();
    if !e.Wait? && e.tab == i {
      assert e.Issue? ==> |s'.tokens| == |s.tokens| + 1 && s'.cookie == s.cookie;
    } else {
      assert s'.tabs[i] == s.tabs[i];
    }
  }

  ghost predicate EverTooLate(cfg: Config, s: State, events: seq<Event>)
    decreases |events|
  {
    events != [] && (TooLate(cfg, s, events[0]) || EverTooLate(cfg, Next(cfg, s, events[0]), events[1..]))
  }

  /** Then replies may get lost, and the family ends exactly when a redeemed token came back too late. */
  lemma {:induction false} FamilyEndsExactlyWhenLate(cfg: Config, s: State, events: seq<Event>)
    requires TakeTurns(cfg) && Inv(cfg, s) && !s.ended && Replaced(s) && NoneFail(events)
    ensures Run(cfg, s, events).ended <==> EverTooLate(cfg, s, events)
    decreases |events|
  {
    if events != [] {
      StepKeepsInv(cfg, s, events[0]);
      StepKeepsReplaced(cfg, s, events[0]);
      var s' := Next(cfg, s, events[0]);
      if s'.ended {
        EndingSignsOut(cfg, s, events[0]);
        SignedOutRun(cfg, s', events[1..]);
      } else {
        FamilyEndsExactlyWhenLate(cfg, s', events[1..]);
      }
    }
  }

  /** One tab, whose server fails once between its two commits: the token it presents again right away, within
      any grace, ends the family. */
  const FAILURE: seq<Event> :=
    [Call(0), Send(0)] + ([Judge(0, Good), Fail(0)] + ([Call(0), Send(0)] + ([Judge(0, Good), Wait(0)] + [])))

  lemma NoneLateOfTwo(cfg: Config, s: State, one: Event, two: Event, rest: seq<Event>)
    requires !TooLate(cfg, s, one) && !TooLate(cfg, Next(cfg, s, one), two)
    requires !EverTooLate(cfg, Next(cfg, Next(cfg, s, one), two), rest)
    ensures !EverTooLate(cfg, s, [one, two] + rest)
  {
    var events := [one, two] + rest;
    assert events[1..] == [two] + rest && events[1..][1..] == rest;
  }

  lemma FailureEndsTheFamily(cfg: Config)
    requires cfg.tabs > 0
    ensures SignedOut(Run(cfg, Init(cfg), FAILURE))
    ensures cfg.grace > 0 ==> !EverTooLate(cfg, Init(cfg), FAILURE)
  {
    var s0 := Init(cfg);
    var s1 := Next(cfg, Next(cfg, s0, Call(0)), Send(0));
    var s2 := Next(cfg, Next(cfg, s1, Judge(0, Good)), Fail(0));
    var last := [Judge(0, Good), Wait(0)] + [];
    var again := [Call(0), Send(0)] + last;
    var failed := [Judge(0, Good), Fail(0)] + again;
    assert FAILURE == [Call(0), Send(0)] + failed;
    SpentAndFailed(cfg);
    ComesBackSpent(cfg, s2, again, last);
    RunTwo(cfg, s1, Judge(0, Good), Fail(0), again);
    RunTwo(cfg, s0, Call(0), Send(0), failed);
    if cfg.grace > 0 {
      NoneLateOfTwo(cfg, s1, Judge(0, Good), Fail(0), again);
      NoneLateOfTwo(cfg, s0, Call(0), Send(0), failed);
    }
  }

  /** The first token is spent, nothing replaces it, and the tab holds it still. */
  ghost predicate HoldsSpent(s: State) {
    && |s.tabs| > 0 && (forall i :: 0 <= i < |s.tabs| ==> s.tabs[i].Idle?) && s.lock.None? && s.cookie == Some(0)
    && s.tokens == [Token(0, Some(1), true)] && s.now == 2
  }

  lemma SpentAndFailed(cfg: Config)
    requires cfg.tabs > 0
    ensures var s1 := Next(cfg, Next(cfg, Init(cfg), Call(0)), Send(0));
      && !TooLate(cfg, s1, Judge(0, Good)) && HoldsSpent(Next(cfg, Next(cfg, s1, Judge(0, Good)), Fail(0)))
  {
    var s1 := Next(cfg, Next(cfg, Init(cfg), Call(0)), Send(0));
    assert s1.tabs[0] == Posted(Some(0)) && s1.tokens == [Token(0, None, false)] && s1.now == 1;
  }

  lemma ComesBackSpent(cfg: Config, s: State, again: seq<Event>, last: seq<Event>)
    requires HoldsSpent(s) && last == [Judge(0, Good), Wait(0)] + [] && again == [Call(0), Send(0)] + last
    ensures SignedOut(Run(cfg, s, again))
    ensures cfg.grace > 0 ==> !EverTooLate(cfg, s, again)
  {
    var s3 := Next(cfg, Next(cfg, s, Call(0)), Send(0));
    assert s3.tabs == s.tabs[0 := Posted(Some(0))] && s3.tokens == s.tokens && s3.now == 2;
    assert FirstSuccessor(s3.tokens, 0, 1, 1).None?;
    assert SignedOut(Next(cfg, Next(cfg, s3, Judge(0, Good)), Wait(0)));
    RunTwo(cfg, s3, Judge(0, Good), Wait(0), []);
    RunTwo(cfg, s, Call(0), Send(0), last);
    if cfg.grace > 0 {
      NoneLateOfTwo(cfg, s3, Judge(0, Good), Wait(0), []);
      NoneLateOfTwo(cfg, s, Call(0), Send(0), last);
    }
  }

  // ---- When every reply arrives ----

  ghost predicate NoneLost(events: seq<Event>) {
    forall i :: 0 <= i < |events| ==> !events[i].Lose? && !events[i].Fail?
  }

  ghost predicate Distinct(xs: seq<nat>) {
    forall i, j :: 0 <= i < j < |xs| ==> xs[i] != xs[j]
  }

  /** A token the server has not judged yet, and the newest there is. */
  ghost predicate Newest(s: State, t: nat) {
    t == |s.tokens| - 1 && s.tokens[t].usedAt.None? && t !in s.seen
  }

  /** Every posted token is the newest one; the server has judged no token twice; and unless a new token is on
      its way the cookie holds the newest one too. */
  ghost predicate UpToDate(s: State) {
    && Distinct(s.seen) && (forall t :: t in s.seen ==> t < |s.tokens|)
    && (forall i :: 0 <= i < |s.tabs| ==>
          match s.tabs[i]
          case Posted(Some(t)) => t < |s.tokens| && Newest(s, t)
          case Answered(Granted(n)) => n < |s.tokens| && Newest(s, n)
          case _ => true)
    && (s.cookie.Some? && (forall i :: 0 <= i < |s.tabs| ==> !s.tabs[i].Answered? && !s.tabs[i].Accepted?) ==>
          s.cookie.value < |s.tokens| && Newest(s, s.cookie.value))
  }

  lemma StepKeepsUpToDate(cfg: Config, s: State, e: Event)
    requires TakeTurns(cfg) && Inv(cfg, s) && !s.ended && UpToDate(s) && !e.Lose? && !e.Fail?
    ensures !TooLate(cfg, s, e) && !NeverReplaced(s, e)
    ensures UpToDate(Next(cfg, s, e))
  {
    if e.Judge? && e.tab < |s.tabs| && s.tabs[e.tab].Posted? {
      JudgeKeepsUpToDate(cfg, s, e.tab, e.standing);
    } else if e.Issue? && e.tab < |s.tabs| && s.tabs[e.tab].Accepted? {
      IssueKeepsUpToDate(cfg, s, e.tab);
    } else if e.Send? || e.Call? {
      SendKeepsUpToDate(cfg, s, e);
    } else if e.Deliver? || e.Drop? {
      OverKeepsUpToDate(cfg, s, e);
    }
  }

  lemma SendKeepsUpToDate(cfg: Config, s: State, e: Event)
    requires TakeTurns(cfg) && Inv(cfg, s) && UpToDate(s) && (e.Send? || e.Call?)
    ensures UpToDate(Next(cfg, s, e))
  {
    var s' := Next(cfg, s, e);
    if s' != s {
      if e.Send? {
        forall i | 0 <= i < |s.tabs|
          ensures !s.tabs[i].InFlight()
        {
        }
      } else {
        forall i | 0 <= i < |s.tabs| && (s.tabs[i].Answered? || s.tabs[i].Accepted?)
          ensures s'.tabs[i] == s.tabs[i]
        {
        }
      }
    }
  }

  lemma OverKeepsUpToDate(cfg: Config, s: State, e: Event)
    requires Inv(cfg, s) && UpToDate(s) && (e.Deliver? || e.Drop?)
    ensures UpToDate(Next(cfg, s, e))
  {
    var s' := Next(cfg, s, e);
    if s' != s {
      forall i | 0 <= i < |s'.tabs|
        ensures !s'.tabs[i].InFlight()
      {
        assert s.tabs[e.tab].InFlight();
      }
      assert e.Drop? ==> s.tabs[e.tab] == Posted(s.cookie);
    }
  }

  lemma JudgeKeepsUpToDate(cfg: Config, s: State, tab: nat, standing: Standing)
    requires Inv(cfg, s) && !s.ended && UpToDate(s) && tab < |s.tabs| && s.tabs[tab].Posted?
    ensures UpToDate(Next(cfg, s, Judge(tab, standing)))
  {
    var s' := Next(cfg, s, Judge(tab, standing));
    assert s'.tabs[tab].Answered? || s'.tabs[tab].Accepted?;
    OneChanged(cfg, s, s', tab);
  }

  lemma IssueKeepsUpToDate(cfg: Config, s: State, tab: nat)
    requires Inv(cfg, s) && UpToDate(s) && tab < |s.tabs| && s.tabs[tab].Accepted?
    ensures UpToDate(Next(cfg, s, Issue(tab)))
  {
    var s' := Next(cfg, s, Issue(tab));
    assert s'.tabs[tab].Answered?;
    OneChanged(cfg, s, s', tab);
  }

  /** When every reply arrives and turns are taken: the family never ends, at most one refresh is on its way,
      each presents the newest token issued, and the server judges no token twice. */
  lemma {:induction false} TurnsKeepTheSession(cfg: Config, s: State, events: seq<Event>)
    requires TakeTurns(cfg) && Inv(cfg, s) && !s.ended && UpToDate(s) && NoneLost(events)
    ensures var end := Run(cfg, s, events); !end.ended && Exclusive(cfg, end) && UpToDate(end)
    decreases |events|
  {
    if events != [] {
      StepKeepsUpToDate(cfg, s, events[0]);
      StepKeepsInv(cfg, s, events[0]);
      TurnsKeepTheSession(cfg, Next(cfg, s, events[0]), events[1..]);
    }
  }

  // ---- Turns pass on ----

  /** A lock is held only by a tab whose refresh is on its way. */
  ghost predicate LockInUse(s: State) {
    s.lock.Some? ==> s.lock.value < |s.tabs| && s.tabs[s.lock.value].InFlight()
  }

  lemma StepKeepsLockInUse(cfg: Config, s: State, e: Event)
    requires LockInUse(s)
    ensures LockInUse(Next(cfg, s, e)) && |Next(cfg, s, e).tabs| == |s.tabs|
  {
  }

  /** Over every run, of any tabs, whatever gets lost and wherever the server fails. */
  lemma {:induction false} LockIsNeverStuck(cfg: Config, s: State, events: seq<Event>)
    requires LockInUse(s)
    ensures LockInUse(Run(cfg, s, events)) && |Run(cfg, s, events).tabs| == |s.tabs|
    decreases |events|
  {
    if events != [] {
      StepKeepsLockInUse(cfg, s, events[0]);
      LockIsNeverStuck(cfg, Next(cfg, s, events[0]), events[1..]);
    }
  }

  /** A waiting tab whose turn comes posts the cookie of that moment, and it is its turn exactly when there is no
      lock to take or no tab's refresh is on its way. */
  lemma SendPostsExactlyWhen(cfg: Config, s: State, tab: nat)
    requires LockInUse(s) && Exclusive(cfg, s) && tab < |s.tabs| && s.tabs[tab].Waiting?
    ensures var s' := Next(cfg, s, Send(tab));
      if cfg.locks && exists i :: 0 <= i < |s.tabs| && s.tabs[i].InFlight() then s' == s
      else s'.tabs == s.tabs[tab := Posted(s.cookie)] && (cfg.locks ==> s'.lock == Some(tab))
  {
  }

  /** However a refresh ends, whoever waits next can send: nobody is left without a turn. */
  lemma TurnPassesOn(cfg: Config, s: State, done: nat, over: Event, next: nat)
    requires cfg.locks && LockInUse(s) && Exclusive(cfg, s) && done < |s.tabs| && next < |s.tabs|
    requires match over
      case Deliver(t) => t == done && s.tabs[t].Answered?
      case Lose(t) => t == done && s.tabs[t].Answered?
      case Fail(t) => t == done && s.tabs[t].Accepted?
      case Drop(t) => t == done && s.tabs[t].Posted?
      case _ => false
    ensures var s' := Next(cfg, s, over);
      && s'.tabs == s.tabs[done := Idle] && s'.lock.None?
      && (s'.tabs[next].Waiting? ==> Next(cfg, s', Send(next)).tabs[next] == Posted(s'.cookie))
  {
    assert s.tabs[done].InFlight();
  }

  /** What the reply leaves in the cookie: the new token, or nothing after a refusal. Every other end leaves it as it was. */
  lemma CookieAfter(cfg: Config, s: State, e: Event)
    ensures var s' := Next(cfg, s, e);
      if e.Deliver? && e.tab < |s.tabs| && s.tabs[e.tab].Answered? then
        match s.tabs[e.tab].reply
        case Granted(token) => s'.cookie == Some(token)
        case Rejected => s'.cookie == None
      else s'.cookie == s.cookie
  {
  }

  /** Every token that is judged is recorded as presented, and no other. */
  lemma SeenAfter(cfg: Config, s: State, e: Event)
    ensures Next(cfg, s, e).seen ==
      if Judges(s, e) && s.tabs[e.tab].presented.Some? && s.tabs[e.tab].presented.value < |s.tokens|
      then s.seen + [s.tabs[e.tab].presented.value]
      else s.seen
  {
  }

  /** Time passes by waiting, and by one with each request judged and each token issued. */
  lemma ClockAfter(cfg: Config, s: State, e: Event)
    ensures Next(cfg, s, e).now == s.now +
      if e.Wait? then e.time
      else if e.tab < |s.tabs| && ((e.Judge? && s.tabs[e.tab].Posted?) || (e.Issue? && s.tabs[e.tab].Accepted?)) then 1
      else 0
  {
  }

  /** The server accepts a token exactly when it decodes, has not expired, its user is active, and it is unused, or
      was used in time and replaced. */
  lemma AcceptedExactlyWhen(cfg: Config, s: State, tab: nat, standing: Standing)
    requires Inv(cfg, s) && tab < |s.tabs| && s.tabs[tab].Posted?
    ensures Next(cfg, s, Judge(tab, standing)).tabs[tab].Accepted? <==>
      && standing == Good && s.cookie.Some?
      && var c := s.cookie.value;
         || (s.tokens[c].usedAt.None? && !s.tokens[c].revoked)
         || (s.tokens[c].usedAt.Some? && s.now <= s.tokens[c].usedAt.value + cfg.grace && c + 1 < |s.tokens|)
  {
    if s.cookie.Some? && s.tokens[s.cookie.value].usedAt.Some? {
      RetriedExactlyWhen(cfg, s, s.cookie.value);
    }
  }

  /** What an accepted token is left as: spent, unless it was before. */
  lemma AcceptedIsSpent(cfg: Config, s: State, tab: nat)
    requires Inv(cfg, s) && tab < |s.tabs| && s.tabs[tab].Posted? && Next(cfg, s, Judge(tab, Good)).tabs[tab].Accepted?
    ensures s.cookie.Some?
    ensures var c, s' := s.cookie.value, Next(cfg, s, Judge(tab, Good));
      s'.tokens[c].revoked && s'.tokens[c].usedAt == if s.tokens[c].usedAt.Some? then s.tokens[c].usedAt else Some(s.now)
  {
    AcceptedExactlyWhen(cfg, s, tab, Good);
  }

  /** A refresh from the call to the new cookie: with nobody else on the way and an unused token, the tab ends up
      idle with a fresh token in the cookie, the old one spent, and the lock free. */
  lemma RefreshRenews(cfg: Config, s: State, tab: nat)
    requires LockInUse(s) && Inv(cfg, s) && !s.ended && tab < |s.tabs| && s.tabs[tab].Idle?
    requires forall i :: 0 <= i < |s.tabs| ==> !s.tabs[i].InFlight()
    requires s.cookie.Some? && Fresh(s.tokens, s.cookie.value)
    ensures var n := |s.tokens|;
      var s1 := Next(cfg, Next(cfg, s, Call(tab)), Send(tab));
      var s' := Next(cfg, Next(cfg, Next(cfg, s1, Judge(tab, Good)), Issue(tab)), Deliver(tab));
      && s'.tabs == s.tabs && s'.lock.None? && !s'.ended
      && s'.cookie == Some(n) && |s'.tokens| == n + 1 && Fresh(s'.tokens, n)
      && s'.tokens[s.cookie.value] == Token(s.tokens[s.cookie.value].issuedAt, Some(s.now), true)
  {
    var s1 := Next(cfg, Next(cfg, s, Call(tab)), Send(tab));
    assert s.lock.None?;
    assert s1.tabs == s.tabs[tab := Posted(s.cookie)];
    var s2 := Next(cfg, s1, Judge(tab, Good));
    assert s2.tabs == s.tabs[tab := Accepted];
    var s3 := Next(cfg, s2, Issue(tab));
    assert s3.tabs == s.tabs[tab := Answered(Granted(|s.tokens|))];
    assert s.tabs[tab := Idle] == s.tabs;
  }

  /** A refused one: the cookie is gone, and a token whose stored expiry is over is revoked. */
  lemma RefusalForgets(cfg: Config, s: State, tab: nat, standing: Standing)
    requires LockInUse(s) && Inv(cfg, s) && tab < |s.tabs| && s.tabs[tab].Posted? && standing != Good
    ensures var s' := Next(cfg, Next(cfg, s, Judge(tab, standing)), Deliver(tab));
      && s'.cookie == None && s'.tabs[tab] == Idle && |s'.tokens| == |s.tokens|
      && (standing == Expired && s.cookie.Some? ==> s'.tokens[s.cookie.value].revoked)
      && (standing == Undecodable ==> s'.tokens == s.tokens && s'.ended == s.ended)
      && (standing == UserGone && !s'.ended ==> s'.tokens == s.tokens)
  {
    AcceptedExactlyWhen(cfg, s, tab, standing);
  }

  // ---- Without turns ----

  /** Two tabs without a lock: both post the first token; while the second request is on its way the first
      tab renews twice, so the first token comes back after its replacement was used. */
  const RACE: seq<Event> :=
    [Call(0), Call(1)] + ([Send(0), Send(1)] + ([Judge(0, Good), Issue(0)] + ([Deliver(0), Call(0)] + ([Send(0), Judge(0, Good)] + ([Issue(0), Judge(1, Good)] + [])))))

  lemma RunTwo(cfg: Config, s: State, one: Event, two: Event, rest: seq<Event>)
    ensures Run(cfg, s, [one, two] + rest) == Run(cfg, Next(cfg, Next(cfg, s, one), two), rest)
  {
    var events := [one, two] + rest;
    assert events[1..] == [two] + rest && events[1..][1..] == rest;
  }

  lemma RaceEndsTheFamily(cfg: Config)
    requires !TakeTurns(cfg)
    ensures SignedOut(Run(cfg, Init(cfg), RACE)) && NoneLost(RACE)
  {
    RaceLosesNothing();
    RaceRuns(cfg, RACE);
  }

  lemma RaceLosesNothing()
    ensures NoneLost(RACE)
  {
  }

  lemma RaceRuns(cfg: Config, race: seq<Event>)
    requires !TakeTurns(cfg) && race == RACE
    ensures SignedOut(Run(cfg, Init(cfg), race))
  {
    var s0 := Init(cfg);
    var s1 := Next(cfg, Next(cfg, s0, Call(0)), Call(1));
    var s2 := Next(cfg, Next(cfg, s1, Send(0)), Send(1));
    var last := [Send(0), Judge(0, Good)] + ([Issue(0), Judge(1, Good)] + []);
    var renewals := [Judge(0, Good), Issue(0)] + ([Deliver(0), Call(0)] + last);
    var posts := [Send(0), Send(1)] + renewals;
    assert race == [Call(0), Call(1)] + posts;
    FirstTwoPost(cfg);
    FirstTabRenewsTwice(cfg, s2);
    RenewalsRun(cfg, s2, renewals, last);
    RunTwo(cfg, s1, Send(0), Send(1), renewals);
    RunTwo(cfg, s0, Call(0), Call(1), posts);
  }

  lemma RenewalsRun(cfg: Config, s: State, renewals: seq<Event>, last: seq<Event>)
    requires last == [Send(0), Judge(0, Good)] + ([Issue(0), Judge(1, Good)] + [])
    requires renewals == [Judge(0, Good), Issue(0)] + ([Deliver(0), Call(0)] + last)
    ensures var s' := Next(cfg, Next(cfg, Next(cfg, Next(cfg, s, Judge(0, Good)), Issue(0)), Deliver(0)), Call(0));
      Run(cfg, s, renewals) == Next(cfg, Next(cfg, Next(cfg, Next(cfg, s', Send(0)), Judge(0, Good)), Issue(0)), Judge(1, Good))
  {
    var s3 := Next(cfg, Next(cfg, s, Judge(0, Good)), Issue(0));
    var s4 := Next(cfg, Next(cfg, s3, Deliver(0)), Call(0));
    var s5 := Next(cfg, Next(cfg, s4, Send(0)), Judge(0, Good));
    RunTwo(cfg, s, Judge(0, Good), Issue(0), [Deliver(0), Call(0)] + last);
    RunTwo(cfg, s3, Deliver(0), Call(0), last);
    RunTwo(cfg, s4, Send(0), Judge(0, Good), [Issue(0), Judge(1, Good)] + []);
    RunTwo(cfg, s5, Issue(0), Judge(1, Good), []);
  }

  /** Both tabs have posted the first token, and no other does anything. */
  ghost predicate BothPosted(s: State) {
    && |s.tabs| >= 2 && s.tabs[0] == s.tabs[1] == Posted(Some(0))
    && (forall i :: 2 <= i < |s.tabs| ==> s.tabs[i] == Idle)
    && s.tokens == [Token(0, None, false)] && s.now == 1 && s.lock.None?
  }

  lemma FirstTwoPost(cfg: Config)
    requires !TakeTurns(cfg)
    ensures BothPosted(Next(cfg, Next(cfg, Next(cfg, Next(cfg, Init(cfg), Call(0)), Call(1)), Send(0)), Send(1)))
  {
  }

  lemma FirstTabRenewsTwice(cfg: Config, s: State)
    requires !cfg.locks && BothPosted(s)
    ensures var s' := Next(cfg, Next(cfg, Next(cfg, Next(cfg, s, Judge(0, Good)), Issue(0)), Deliver(0)), Call(0));
      SignedOut(Next(cfg, Next(cfg, Next(cfg, Next(cfg, s', Send(0)), Judge(0, Good)), Issue(0)), Judge(1, Good)))
  {
    var s3 := Next(cfg, Next(cfg, s, Judge(0, Good)), Issue(0));
    assert s3.tabs == s.tabs[0 := Answered(Granted(1))] && s3.tokens == [Token(0, Some(1), true), Token(2, None, false)] && s3.now == 3;
    var s4 := Next(cfg, Next(cfg, s3, Deliver(0)), Call(0));
    assert s4.cookie == Some(1) && s4.tokens == s3.tokens && s4.now == 3 && s4.tabs == s.tabs[0 := Waiting];
    TokenUsedTwice(cfg, s4);
  }

  lemma TokenUsedTwice(cfg: Config, s: State)
    requires !cfg.locks && |s.tabs| >= 2 && s.tabs[0] == Waiting && s.tabs[1] == Posted(Some(0))
    requires forall i :: 2 <= i < |s.tabs| ==> s.tabs[i] == Idle
    requires s.cookie == Some(1) && s.tokens == [Token(0, Some(1), true), Token(2, None, false)] && s.now == 3
    ensures SignedOut(Next(cfg, Next(cfg, Next(cfg, Next(cfg, s, Send(0)), Judge(0, Good)), Issue(0)), Judge(1, Good)))
  {
    var s5 := Next(cfg, Next(cfg, s, Send(0)), Judge(0, Good));
    assert s5.tokens == [Token(0, Some(1), true), Token(2, Some(3), true)] && s5.now == 4;
    var s6 := Next(cfg, s5, Issue(0));
    assert s6.tokens == [Token(0, Some(1), true), Token(2, Some(3), true), Token(4, None, false)];
    assert s6.tabs == s.tabs[0 := Answered(Granted(2))];
    assert FirstSuccessor(s6.tokens, 0, 1, 1) == Some(1);
  }

  /** The promise of the lock, both ways: while every reply arrives no interleaving ends the family exactly
      when the tabs take turns. */
  lemma SessionSurvivesExactlyWithTurns(cfg: Config)
    ensures (forall events :: NoneLost(events) ==> !Run(cfg, Init(cfg), events).ended) <==> TakeTurns(cfg)
  {
    if TakeTurns(cfg) {
      InitInv(cfg);
      forall events | NoneLost(events)
        ensures !Run(cfg, Init(cfg), events).ended
      {
        TurnsKeepTheSession(cfg, Init(cfg), events);
      }
    } else {
      RaceEndsTheFamily(cfg);
    }
  }
}
