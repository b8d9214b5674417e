/**
 The console's API client (lib/api.ts, `postRefresh`, `requestWithResponse`, `isTransientError`) as one
 caller sees it. The server is what it answers to the first, second, third... request a tab sends.
 */
module ApiClient {
  import opened Wrappers

  /** A response's body: text that is JSON, text that is not, or one that breaks off. */
  datatype Body = Json(text: string) | Garbled | CutOff

  /** What `fetch` comes back with: no response at all, or one with a status. */
  datatype Answer = NoResponse | Response(status: nat, body: Body) {
    predicate Good() { Response? && 200 <= status < 300 }
  }

  /** An error a caller sees: the server's status, a `TypeError` (no response, or none that can be used), or a
      body that is not JSON. */
  datatype Failure = ApiError(status: nat) | TypeError | SyntaxError

  datatype RefreshOutcome = Renewed | Refused | Transient(status: nat)

  predicate TransientStatus(status: nat) { status == 0 || status == 429 || status >= 500 }

  /** The failure says nothing about the session. */
  predicate IsTransientError(failure: Failure) {
    match failure
    case ApiError(status) => TransientStatus(status)
    case TypeError => true
    case SyntaxError => false
  }

  /** A tab: the access token in its memory, and how many requests and API calls it has sent. */
  datatype Tab = Tab(token: Option<string>, sent: nat, calls: nat)

  type Server = nat -> Answer

  // ---- What one step does ----

  /** What a refresh makes of its answer: the new token, a refusal that forgets the old one, or nothing learned. */
  function Renewal(answer: Answer, token: Option<string>): (RefreshOutcome, Option<string>) {
    match answer
    case NoResponse => (Transient(0), token)
    case Response(status, body) =>
      if status == 429 || status >= 500 then (Transient(status), token)
      else if !answer.Good() then (Refused, None)
      else match body
        case Json(renewed) => (Renewed, Some(renewed))
        case _ => (Transient(0), token)
  }

  function Refresh(server: Server, tab: Tab): (RefreshOutcome, Tab) {
    var (outcome, token) := Renewal(server(tab.sent), tab.token);
    (outcome, tab.(token := token, sent := tab.sent + 1))
  }

  /** What a caller gets for an answer. A 204 and an empty body are no data. */
  function Outcome(answer: Answer): Result<Option<string>, Failure> {
    match answer
    case NoResponse => Err(TypeError)
    case Response(status, body) =>
      if !answer.Good() then Err(ApiError(status))
      else if status == 204 then Ok(None)
      else match body
        case Json(text) => Ok(if text == [] then None else Some(text))
        case Garbled => Err(SyntaxError)
        case CutOff => Err(TypeError)
  }

  /** One API call: sent once, and once more when an expired token could be renewed. */
  function Call(server: Server, tab: Tab): (Result<Option<string>, Failure>, Tab) {
    var first := server(tab.sent);
    var once := tab.(sent := tab.sent + 1, calls := tab.calls + 1);
    if !(first.Response? && first.status == 401 && tab.token.Some?) then (Outcome(first), once)
    else
      match Refresh(server, once)
      case (Renewed, renewed) => (Outcome(server(renewed.sent)), renewed.(sent := renewed.sent + 1, calls := renewed.calls + 1))
      case (Refused, after) => (Outcome(first), after)
      case (Transient(status), after) => (Err(ApiError(status)), after)
  }

  lemma RefreshFacts(server: Server, tab: Tab)
    ensures var (outcome, after) := Refresh(server, tab);
      && after.sent == tab.sent + 1 && after.calls == tab.calls
      && (outcome.Renewed? ==> after.token.Some?)
      && (outcome.Refused? ==> after.token.None?)
      && (outcome.Transient? ==> after.token == tab.token && TransientStatus(outcome.status))
  {
  }

  /** An API call is sent at most twice, with at most one refresh between; a call that reads as "not signed in"
      is never one whose refresh could not be judged. */
  lemma CallFacts(server: Server, tab: Tab)
    ensures var (result, after) := Call(server, tab);
      && 1 <= after.calls - tab.calls <= 2 && after.sent - tab.sent <= 3
      && (after.calls - tab.calls == 2 ==> tab.token.Some? && Refresh(server, tab.(sent := tab.sent + 1)).0.Renewed?)
      && (result == Err(ApiError(401)) ==>
            || tab.token.None?
            || Refresh(server, tab.(sent := tab.sent + 1)).0.Refused?
            || (after.calls - tab.calls == 2 && Outcome(server(after.sent - 1)) == Err(ApiError(401))))
  {
    RefreshFacts(server, tab.(sent := tab.sent + 1));
  }

  /** An expired token whose refresh could not be judged: the caller sees a transient failure, not the 401, and
      the token is still held. */
  lemma TransientRefreshShows(server: Server, tab: Tab)
    requires tab.token.Some? && server(tab.sent).Response? && server(tab.sent).status == 401
    requires Refresh(server, tab.(sent := tab.sent + 1)).0.Transient?
    ensures var (result, after) := Call(server, tab);
      result.Err? && IsTransientError(result.error) && result.error != ApiError(401) && after.token == tab.token
  {
    RefreshFacts(server, tab.(sent := tab.sent + 1));
  }

  // ---- What each answer comes to ----

  /** What a refresh comes to, by its answer: renewed with the body's token, refused, or not judged. */
  lemma RenewalExactly(answer: Answer, token: Option<string>)
    ensures var (outcome, after) := Renewal(answer, token);
      && (outcome.Renewed? <==> answer.Response? && 200 <= answer.status < 300 && answer.body.Json?)
      && (outcome.Refused? <==>
            answer.Response? && (answer.status < 200 || 300 <= answer.status < 500) && answer.status != 429)
      && (outcome.Renewed? ==> after == Some(answer.body.text))
      && (outcome.Transient? ==>
            outcome.status == if answer.Response? && (answer.status == 429 || answer.status >= 500) then answer.status else 0)
  {
  }

  /** What a caller gets for an answer that is the last: the data, nothing, the server's status, or an error of the
      exchange itself. */
  ghost predicate Yields(answer: Answer, result: Result<Option<string>, Failure>) {
    match answer
    case NoResponse => result == Err(TypeError)
    case Response(status, body) =>
      && (status < 200 || status >= 300 ==> result == Err(ApiError(status)))
      && (status == 204 ==> result == Ok(None))
      && (200 <= status < 300 && status != 204 ==>
            && (body.Json? && body.text != [] ==> result == Ok(Some(body.text)))
            && (body.Json? && body.text == [] ==> result == Ok(None))
            && (body.Garbled? ==> result == Err(SyntaxError))
            && (body.CutOff? ==> result == Err(TypeError)))
  }

  /** The answer is a 401 that a refresh may mend. */
  predicate Mendable(tab: Tab, answer: Answer) {
    answer.Response? && answer.status == 401 && tab.token.Some?
  }

  /** What a call comes to: what its answer yields, unless that is a 401 under a token. Then a renewed token brings the
      second answer, a refusal leaves the 401, and a refresh that was not judged shows with its own status. */
  lemma CallYields(server: Server, tab: Tab)
    ensures var first := server(tab.sent);
      var renewal := Renewal(server(tab.sent + 1), tab.token).0;
      var (result, after) := Call(server, tab);
      && (!Mendable(tab, first) ==> Yields(first, result) && after.sent == tab.sent + 1 && after.token == tab.token)
      && (Mendable(tab, first) && renewal.Renewed? ==> Yields(server(tab.sent + 2), result) && after.sent == tab.sent + 3)
      && (Mendable(tab, first) && renewal.Refused? ==> result == Err(ApiError(401)) && after.sent == tab.sent + 2)
      && (Mendable(tab, first) && renewal.Transient? ==> result == Err(ApiError(renewal.status)) && after.sent == tab.sent + 2)
  {
  }

  /** The server's refusals are real answers; its overload, its faults and a lost connection are not. */
  lemma RealAnswers(status: nat)
    requires status in {400, 401, 403, 404, 409, 422}
    ensures !IsTransientError(ApiError(status)) && !IsTransientError(SyntaxError)
    ensures IsTransientError(ApiError(0)) && IsTransientError(ApiError(429)) && IsTransientError(ApiError(500 + status))
    ensures IsTransientError(TypeError)
  {
  }

  // ---- The module's own functions, which change its variables ----

  class Client {
    var accessToken: Option<string>
    var sent: nat
    var calls: nat
    const server: Server

    constructor (server: Server)
      ensures this.server == server && State() == Tab(None, 0, 0)
    {
      accessToken, sent, calls, this.server := None, 0, 0, server;
    }

    function State(): Tab
      reads this
    {
      Tab(accessToken, sent, calls)
    }

    method Fetch() returns (answer: Answer)
      modifies this`sent
      ensures answer == server(old(sent)) && sent == old(sent) + 1
    {
      answer := server(sent);
      sent := sent + 1;
    }

    method PostRefresh() returns (outcome: RefreshOutcome)
      modifies this
      ensures (outcome, State()) == Refresh(server, old(State()))
    {
      var res := Fetch();
      if res.NoResponse? {
        return Transient(0);
      }
      if res.status == 429 || res.status >= 500 {
        return Transient(res.status);
      }
      if !res.Good() {
        accessToken := None;
        return Refused;
      }
      if !res.body.Json? {
        return Transient(0);
      }
      accessToken := Some(res.body.text);
      return Renewed;
    }

    method RequestWithResponse(allowRefresh: bool := true) returns (result: Result<Option<string>, Failure>)
      modifies this
      ensures allowRefresh ==> (result, State()) == Call(server, old(State()))
      ensures !allowRefresh ==> result == Outcome(server(old(sent)))
      ensures !allowRefresh ==> State() == old(State()).(sent := old(sent) + 1, calls := old(calls) + 1)
      decreases allowRefresh
    {
      var token := accessToken;
      var res := Fetch();
      calls := calls + 1;
      if res.NoResponse? {
        return Err(TypeError);
      }
      if res.status == 401 && allowRefresh && token.Some? {
        var refreshed := PostRefresh();
        if refreshed.Renewed? {
          result := RequestWithResponse(false);
          return;
        }
        if refreshed.Transient? {
          return Err(ApiError(refreshed.status));
        }
      }
      if !res.Good() {
        return Err(ApiError(res.status));
      }
      if res.status == 204 {
        return Ok(None);
      }
      match res.body
      case CutOff => return Err(TypeError);
      case Garbled => return Err(SyntaxError);
      case Json(text) => return Ok(if text == [] then None else Some(text));
    }
  }
}
