/**
 The restoring of a session on page load (components/auth/auth-provider.tsx, `rehydrate`): a few
 attempts to learn who is signed in, each of which may end it, and a flag that cancels them.
 */
module SessionRestore {
  import opened Wrappers
  import opened ApiClient

  datatype SessionState = Loading | Authenticated | Unauthenticated | Unreachable

  /** How one attempt ends: signed in, a real answer that there is no session, or nothing learned. */
  datatype Attempt = SignedIn(user: string) | NoSession | NothingLearned

  const RETRIES: nat := 3

  function AskWhoAmI(server: Server, tab: Tab): (Attempt, Tab) {
    match Call(server, tab)
    case (Ok(Some(user)), after) => (SignedIn(user), after)
    case (Ok(None), after) => (NothingLearned, after) // the missing user is a TypeError
    case (Err(failure), after) => (if IsTransientError(failure) then NothingLearned else NoSession, after)
  }

  /** One attempt: buy a token with the refresh cookie if there is none, then ask who is signed in. */
  function TryOnce(server: Server, tab: Tab): (Attempt, Tab) {
    if tab.token.Some? then AskWhoAmI(server, tab)
    else
      match Refresh(server, tab)
      case (Renewed, renewed) => AskWhoAmI(server, renewed)
      case (Refused, after) => (NoSession, after)
      case (Transient(_), after) => (NothingLearned, after)
  }

  /** The tab after `n` attempts that learned nothing. */
  function AfterAttempts(server: Server, tab: Tab, n: nat): Tab {
    if n == 0 then tab else TryOnce(server, AfterAttempts(server, tab, n - 1)).1
  }

  function AttemptAt(server: Server, tab: Tab, n: nat): Attempt {
    TryOnce(server, AfterAttempts(server, tab, n)).0
  }

  /** The first `n` attempts learned nothing. */
  ghost predicate LearnedNothing(server: Server, tab: Tab, n: nat) {
    forall k :: 0 <= k < n ==> AttemptAt(server, tab, k) == NothingLearned
  }

  /** Where restoring a session ends: with which attempt, counted from 0, and in which state. */
  ghost predicate Restored(server: Server, tab: Tab, last: nat, state: SessionState, user: Option<string>) {
    && last <= RETRIES && LearnedNothing(server, tab, last)
    && match AttemptAt(server, tab, last)
       case SignedIn(name) => state == Authenticated && user == Some(name)
       case NoSession => state == Unauthenticated
       case NothingLearned => state == Unreachable && last == RETRIES
  }

  /** There is exactly one such ending. */
  lemma RestoredIsDetermined(server: Server, tab: Tab, m: nat, state: SessionState, user: Option<string>,
                             n: nat, state': SessionState, user': Option<string>)
    requires Restored(server, tab, m, state, user) && Restored(server, tab, n, state', user')
    ensures m == n && state' == state && (state.Authenticated? ==> user' == user)
  {
    NotEarlier(server, tab, m, state, user, n);
    NotEarlier(server, tab, n, state', user', m);
  }

  /** An attempt that ends it all is not among those that learned nothing. */
  lemma NotEarlier(server: Server, tab: Tab, last: nat, state: SessionState, user: Option<string>, k: nat)
    requires Restored(server, tab, last, state, user)
    requires k <= RETRIES && (AttemptAt(server, tab, k) != NothingLearned || k == RETRIES)
    ensures last <= k
  {
  }

  /** "Unreachable" is where it ends exactly when all four attempts learned nothing. */
  lemma UnreachableExactlyAfterFour(server: Server, tab: Tab, last: nat, state: SessionState, user: Option<string>)
    requires Restored(server, tab, last, state, user)
    ensures state == Unreachable <==> LearnedNothing(server, tab, 4)
    ensures state == Unreachable ==> last == 3
  {
    var attempt := AttemptAt(server, tab, last);
    if LearnedNothing(server, tab, RETRIES + 1) {
      assert attempt == NothingLearned;
    }
  }

  /** "Unauthenticated" is where it ends exactly when the first attempt that learned anything was refused. */
  lemma UnauthenticatedExactlyWhenRefused(server: Server, tab: Tab, last: nat, state: SessionState, user: Option<string>)
    requires Restored(server, tab, last, state, user)
    ensures state == Unauthenticated <==>
      exists k :: 0 <= k <= RETRIES && LearnedNothing(server, tab, k) && AttemptAt(server, tab, k) == NoSession
  {
    if k :| 0 <= k <= RETRIES && LearnedNothing(server, tab, k) && AttemptAt(server, tab, k) == NoSession {
      RestoredIsDetermined(server, tab, last, state, user, k, Unauthenticated, None);
    }
  }

  /** A session is given up only for a real answer: a refused refresh, or a failure that is not transient. */
  lemma NoSessionIsRealAnswer(server: Server, tab: Tab)
    requires TryOnce(server, tab).0 == NoSession
    ensures
      || (tab.token.None? && Refresh(server, tab).0.Refused?)
      || exists held: Tab :: (held == tab || held == Refresh(server, tab).1) && held.token.Some?
           && Call(server, held).0.Err? && !IsTransientError(Call(server, held).0.error)
  {
    RefreshFacts(server, tab);
  }

  // ---- What one attempt learns ----

  /** What asking who is signed in comes to, by what the call yields. */
  lemma AskedExactly(server: Server, tab: Tab)
    ensures var result := Call(server, tab).0;
      match AskWhoAmI(server, tab).0
      case SignedIn(user) => result == Ok(Some(user))
      case NoSession => result.Err? && !IsTransientError(result.error)
      case NothingLearned => result == Ok(None) || (result.Err? && IsTransientError(result.error))
  {
  }

  predicate GoodJson(answer: Answer, text: string) { answer == Response(200, Json(text)) }

  /** The refresh and the user request both answered well: the first attempt signs the user in. */
  lemma WellAnsweredSignsIn(server: Server, tab: Tab, token: string, user: string)
    requires tab.token.None? && GoodJson(server(tab.sent), token) && GoodJson(server(tab.sent + 1), user) && user != []
    ensures AttemptAt(server, tab, 0) == SignedIn(user)
    ensures AfterAttempts(server, tab, 1).token == Some(token)
  {
    assert AfterAttempts(server, tab, 1) == TryOnce(server, tab).1;
  }

  /** A page that still holds a token asks at once; an expired one is renewed on the way. */
  lemma HeldTokenSignsIn(server: Server, tab: Tab, token: string, user: string)
    requires tab.token.Some? && user != []
    requires GoodJson(server(tab.sent), user)
      || (server(tab.sent).Response? && server(tab.sent).status == 401 && GoodJson(server(tab.sent + 1), token) && GoodJson(server(tab.sent + 2), user))
    ensures AttemptAt(server, tab, 0) == SignedIn(user)
  {
  }

  /** A refresh cookie that is refused, or missing, ends the first attempt with no session and no further request. */
  lemma RefusedEndsAtOnce(server: Server, tab: Tab)
    requires tab.token.None? && Refresh(server, tab).0.Refused?
    ensures AttemptAt(server, tab, 0) == NoSession && AfterAttempts(server, tab, 1).sent == tab.sent + 1
  {
    assert AfterAttempts(server, tab, 1) == TryOnce(server, tab).1;
  }

  // ---- Cancelling ----

  /** No look of one attempt sees the flag set. `cancelled` is the flag by the moment: how many requests the tab
      has sent and delays it has sat out. */
  predicate Quiet(server: Server, tab: Tab, cancelled: nat -> bool, delays: nat) {
    && (tab.token.None? ==> !cancelled(Refresh(server, tab).1.sent + delays))
    && !cancelled(TryOnce(server, tab).1.sent + delays)
  }

  /** Nor does any look of the first `n` attempts, nor any of the delays after them. */
  ghost predicate Undisturbed(server: Server, tab: Tab, cancelled: nat -> bool, n: nat) {
    forall k :: 0 <= k < n ==> QuietUntilNext(server, tab, cancelled, k)
  }

  /** No look of attempt `k` and of the delay after it sees the flag set. */
  predicate QuietUntilNext(server: Server, tab: Tab, cancelled: nat -> bool, k: nat) {
    Quiet(server, AfterAttempts(server, tab, k), cancelled, k) && !cancelled(AfterAttempts(server, tab, k + 1).sent + k + 1)
  }

  /** Restoring runs to its end: no look sees the flag set. */
  ghost predicate RunsThrough(server: Server, tab: Tab, cancelled: nat -> bool, last: nat) {
    Undisturbed(server, tab, cancelled, last) && Quiet(server, AfterAttempts(server, tab, last), cancelled, last)
  }

  /** It stops in attempt `last` or in the delay after it, where a look sees the flag set for the first time. */
  ghost predicate StopsIn(server: Server, tab: Tab, cancelled: nat -> bool, last: nat) {
    && last <= RETRIES && LearnedNothing(server, tab, last) && Undisturbed(server, tab, cancelled, last)
    && (Quiet(server, AfterAttempts(server, tab, last), cancelled, last) ==>
          && last < RETRIES && AttemptAt(server, tab, last) == NothingLearned
          && cancelled(AfterAttempts(server, tab, last + 1).sent + last + 1))
  }

  /** `n` attempts learned nothing, were not disturbed and left the tab as `now`. */
  ghost predicate SoFar(server: Server, tab: Tab, cancelled: nat -> bool, n: nat, now: Tab) {
    n <= RETRIES && now == AfterAttempts(server, tab, n) && LearnedNothing(server, tab, n) && Undisturbed(server, tab, cancelled, n)
  }

  lemma OneMore(server: Server, tab: Tab, cancelled: nat -> bool, n: nat, now: Tab, then': Tab)
    requires SoFar(server, tab, cancelled, n, now) && n < RETRIES
    requires Quiet(server, now, cancelled, n) && TryOnce(server, now) == (NothingLearned, then') && !cancelled(then'.sent + n + 1)
    ensures SoFar(server, tab, cancelled, n + 1, then')
  {
    assert then' == AfterAttempts(server, tab, n + 1);
    assert QuietUntilNext(server, tab, cancelled, n);
    assert AttemptAt(server, tab, n) == NothingLearned;
  }

  /** A flag that stays set, as the one of a page that is left does. */
  ghost predicate Sticky(cancelled: nat -> bool) {
    forall t, u :: 0 <= t <= u && cancelled(t) ==> cancelled(u)
  }

  /** The attempt with which an undisturbed restoring ends, seen from the `n`th on. */
  function LastAttempt(server: Server, tab: Tab, n: nat): (last: nat)
    requires n <= RETRIES
    ensures n <= last <= RETRIES
    ensures last == RETRIES || AttemptAt(server, tab, last) != NothingLearned
    decreases RETRIES - n
  {
    if n == RETRIES || AttemptAt(server, tab, n) != NothingLearned then n else LastAttempt(server, tab, n + 1)
  }

  /** The moment at which it ends. */
  function EndMoment(server: Server, tab: Tab): nat {
    var last := LastAttempt(server, tab, 0);
    AfterAttempts(server, tab, last + 1).sent + last
  }

  lemma AttemptSends(server: Server, tab: Tab)
    ensures tab.sent < TryOnce(server, tab).1.sent
    ensures tab.token.None? ==> tab.sent < Refresh(server, tab).1.sent <= TryOnce(server, tab).1.sent
  {
  }

  lemma {:induction false} MomentsAscend(server: Server, tab: Tab, m: nat, n: nat)
    requires m <= n
    ensures AfterAttempts(server, tab, m).sent <= AfterAttempts(server, tab, n).sent
    decreases n
  {
    if m < n {
      MomentsAscend(server, tab, m, n - 1);
      AttemptSends(server, AfterAttempts(server, tab, n - 1));
    }
  }

  /** A run that ends does so with the attempt every undisturbed run ends with. */
  lemma RunsThroughToLast(server: Server, tab: Tab, last: nat, state: SessionState, user: Option<string>)
    requires Restored(server, tab, last, state, user)
    ensures last == LastAttempt(server, tab, 0)
  {
    NotEarlier(server, tab, last, state, user, LastAttempt(server, tab, 0));
    NothingBefore(server, tab, 0, last);
  }

  lemma {:induction false} NothingBefore(server: Server, tab: Tab, n: nat, k: nat)
    requires n <= k && k <= RETRIES && (k == RETRIES || AttemptAt(server, tab, k) != NothingLearned)
    ensures LastAttempt(server, tab, n) <= k
    decreases k - n
  {
    if n < k {
      NothingBefore(server, tab, n + 1, k);
    }
  }

  /** A flag seen set in attempt `last` was set by the moment an undisturbed run would have ended. */
  lemma StopsBeforeEnd(server: Server, tab: Tab, cancelled: nat -> bool, last: nat)
    requires StopsIn(server, tab, cancelled, last) && Sticky(cancelled)
    ensures cancelled(EndMoment(server, tab))
  {
    var held := AfterAttempts(server, tab, last);
    assert AfterAttempts(server, tab, last + 1) == TryOnce(server, held).1;
    MomentsWithin(server, tab, last);
    AttemptSends(server, held);
  }

  /** The attempts up to the last one, and the delays between them, lie before the end. */
  lemma MomentsWithin(server: Server, tab: Tab, k: nat)
    requires k <= RETRIES && LearnedNothing(server, tab, k)
    ensures AfterAttempts(server, tab, k + 1).sent + k <= EndMoment(server, tab)
    ensures k < RETRIES && AttemptAt(server, tab, k) == NothingLearned ==>
      AfterAttempts(server, tab, k + 1).sent + k + 1 <= EndMoment(server, tab)
  {
    var end := LastAttempt(server, tab, 0);
    assert k <= end;
    MomentsAscend(server, tab, k + 1, end + 1);
  }

  lemma StoppedInAttempt(server: Server, tab: Tab, cancelled: nat -> bool, n: nat, now: Tab)
    requires SoFar(server, tab, cancelled, n, now) && !Quiet(server, now, cancelled, n)
    ensures StopsIn(server, tab, cancelled, n)
    ensures Sticky(cancelled) ==> cancelled(EndMoment(server, tab))
  {
    if Sticky(cancelled) {
      StopsBeforeEnd(server, tab, cancelled, n);
    }
  }

  lemma StoppedInDelay(server: Server, tab: Tab, cancelled: nat -> bool, n: nat, now: Tab, then': Tab)
    requires SoFar(server, tab, cancelled, n, now) && n < RETRIES
    requires TryOnce(server, now) == (NothingLearned, then') && cancelled(then'.sent + n + 1)
    ensures StopsIn(server, tab, cancelled, n)
    ensures Sticky(cancelled) ==> cancelled(EndMoment(server, tab))
  {
    assert then' == AfterAttempts(server, tab, n + 1);
    if Sticky(cancelled) {
      StopsBeforeEnd(server, tab, cancelled, n);
    }
  }

  lemma RanThrough(server: Server, tab: Tab, cancelled: nat -> bool, n: nat, now: Tab, state: SessionState, user: Option<string>)
    requires SoFar(server, tab, cancelled, n, now) && Quiet(server, now, cancelled, n)
    requires match TryOnce(server, now).0
      case SignedIn(name) => state == Authenticated && user == Some(name)
      case NoSession => state == Unauthenticated
      case NothingLearned => state == Unreachable && n == RETRIES
    ensures RunsThrough(server, tab, cancelled, n) && Restored(server, tab, n, state, user)
    ensures !cancelled(EndMoment(server, tab))
  {
    EndsHere(server, tab, n, now, state, user);
    QuietToTheEnd(server, tab, cancelled, n, state, user);
  }

  lemma EndsHere(server: Server, tab: Tab, n: nat, now: Tab, state: SessionState, user: Option<string>)
    requires n <= RETRIES && now == AfterAttempts(server, tab, n) && LearnedNothing(server, tab, n)
    requires match TryOnce(server, now).0
      case SignedIn(name) => state == Authenticated && user == Some(name)
      case NoSession => state == Unauthenticated
      case NothingLearned => state == Unreachable && n == RETRIES
    ensures Restored(server, tab, n, state, user)
  {
    assert AttemptAt(server, tab, n) == TryOnce(server, now).0;
  }

  lemma QuietToTheEnd(server: Server, tab: Tab, cancelled: nat -> bool, n: nat, state: SessionState, user: Option<string>)
    requires Restored(server, tab, n, state, user) && Quiet(server, AfterAttempts(server, tab, n), cancelled, n)
    ensures !cancelled(EndMoment(server, tab))
  {
    RunsThroughToLast(server, tab, n, state, user);
    EndMomentIs(server, tab, n);
  }

  lemma EndMomentIs(server: Server, tab: Tab, n: nat)
    requires n == LastAttempt(server, tab, 0)
    ensures EndMoment(server, tab) == TryOnce(server, AfterAttempts(server, tab, n)).1.sent + n
  {
    assert AfterAttempts(server, tab, n + 1) == TryOnce(server, AfterAttempts(server, tab, n)).1;
  }

  class AuthProvider {
    const client: Client
    var user: Option<string>
    var sessionState: SessionState

    constructor (client: Client)
      ensures this.client == client && user.None? && sessionState == Loading
    {
      this.client := client;
      user, sessionState := None, Loading;
    }

    /** One attempt, given up where a look sees the flag set. */
    method TryOnceNow(cancelled: nat -> bool, delays: nat) returns (result: Attempt, stopped: bool)
      modifies client
      ensures stopped <==> !Quiet(client.server, old(client.State()), cancelled, delays)
      ensures stopped ==> cancelled(client.sent + delays)
      ensures !stopped ==> (result, client.State()) == TryOnce(client.server, old(client.State()))
    {
      result, stopped := NothingLearned, false;
      if client.accessToken.None? {
        var outcome := client.PostRefresh();
        stopped := cancelled(client.sent + delays);
        if stopped {
          return;
        }
        if outcome.Refused? {
          result := NoSession;
          return;
        }
        if outcome.Transient? {
          stopped := cancelled(client.sent + delays);
          return;
        }
      }
      var me := client.RequestWithResponse();
      stopped := cancelled(client.sent + delays);
      if me.Ok? && me.value.Some? {
        result := SignedIn(me.value.value);
      } else if me.Err? && !IsTransientError(me.error) {
        result := NoSession;
      }
    }

    /** Asks the server, up to four times. It stops at the first look that sees the flag set and then nothing
        is shown or changed any more; otherwise it ends where `Restored` says. */
    method Rehydrate(cancelled: nat -> bool) returns (ghost last: nat, ghost stopped: bool)
      modifies this, client
      ensures var server, start := client.server, old(client.State());
        if stopped then StopsIn(server, start, cancelled, last)
        else RunsThrough(server, start, cancelled, last) && Restored(server, start, last, sessionState, user)
      ensures stopped ==> sessionState == Loading
      ensures sessionState != Authenticated ==> user == old(user)
      ensures Sticky(cancelled) ==> (stopped <==> cancelled(EndMoment(client.server, old(client.State()))))
    {
      sessionState := Loading;
      ghost var start := client.State();
      var attempt: nat := 0;
      while true
        invariant SoFar(client.server, start, cancelled, attempt, client.State())
        invariant sessionState == Loading && user == old(user)
        decreases RETRIES - attempt
      {
        last := attempt;
        ghost var now := client.State();
        var result, stop := TryOnceNow(cancelled, attempt);
        stopped := stop;
        if stop {
          StoppedInAttempt(client.server, start, cancelled, last, now);
          return;
        }
        match result {
          case SignedIn(name) =>
            user := Some(name);
            sessionState := Authenticated;
            RanThrough(client.server, start, cancelled, last, now, sessionState, user);
            return;
          case NoSession =>
            sessionState := Unauthenticated;
            RanThrough(client.server, start, cancelled, last, now, sessionState, user);
            return;
          case NothingLearned =>
        }
        if attempt >= RETRIES {
          sessionState := Unreachable;
          RanThrough(client.server, start, cancelled, last, now, sessionState, user);
          return;
        }
        stop := cancelled(client.sent + attempt + 1);
        stopped := stop;
        if stop {
          StoppedInDelay(client.server, start, cancelled, last, now, client.State());
          return;
        }
        OneMore(client.server, start, cancelled, attempt, now, client.State());
        attempt := attempt + 1;
      }
    }
  }

  lemma EndsSignedIn(server: Server, tab: Tab, last: nat, state: SessionState, user: Option<string>, name: string)
    requires AttemptAt(server, tab, 0) == SignedIn(name) && Restored(server, tab, last, state, user)
    ensures last == 0 && state == Authenticated && user == Some(name)
  {
    NotEarlier(server, tab, last, state, user, 0);
  }

  /** A page load that is answered well, and not left meanwhile, shows the user. */
  method RestoreWellAnswered(server: Server, token: string, name: string, cancelled: nat -> bool) returns (provider: AuthProvider)
    requires GoodJson(server(0), token) && GoodJson(server(1), name) && name != []
    requires Sticky(cancelled) && !cancelled(2)
    ensures provider.sessionState == Authenticated && provider.user == Some(name)
  {
    var client := new Client(server);
    provider := new AuthProvider(client);
    ghost var start := client.State();
    WellAnsweredSignsIn(server, start, token, name);
    EndsAfterTwo(server, start, token, name);
    ghost var last, stopped := provider.Rehydrate(cancelled);
    EndsSignedIn(server, start, last, provider.sessionState, provider.user, name);
  }

  lemma EndsAfterTwo(server: Server, tab: Tab, token: string, name: string)
    requires tab.token.None? && GoodJson(server(tab.sent), token) && GoodJson(server(tab.sent + 1), name) && name != []
    ensures EndMoment(server, tab) == tab.sent + 2
  {
    WellAnsweredSignsIn(server, tab, token, name);
    assert LastAttempt(server, tab, 0) == 0;
    assert AfterAttempts(server, tab, 1) == TryOnce(server, tab).1;
  }
}
