/**
 * The session helpers of the patient's Family page: `getAccess`,
 * `refreshToken` and `apiRequest`.  The browser's localStorage is a
 * `TokenStore` object; the network is an oracle that says what each fetch
 * answers; decoding the JWT payload is abstracted to the `exp` claim it
 * yields (RFC 7519 section 4.1.4) or a decode failure.
 */
module Session {
  import opened Wrappers

  const ApiBase: string := "http://127.0.0.1:8000"
  const RefreshUrl: string := ApiBase + "/api/token/refresh/"
  const AccessKey: string := "access"
  const RefreshKey: string := "refresh"
  /** Tokens expiring in fewer seconds than this are refreshed first. */
  const ExpiryMargin: int := 300

  /** JavaScript truthiness of a stored or received string. */
  predicate Truthy(v: Option<string>) {
    v.Some? && v.value != ""
  }

  predicate IsOk(status: int) {
    200 <= status <= 299
  }

  /** The credential header of RFC 6750 section 2.1. */
  function Bearer(token: string): string {
    "Bearer " + token
  }

  const AuthorizationHeader: string := "Authorization"

  /** The `options` of a fetch: the HTTP method, the headers and the body the caller passes. */
  datatype Options = Options(verb: Option<string>, headers: map<string, string>, body: Option<string>)

  /** `apiRequest(url)` without options: a GET with no headers of its own. */
  const NoOptions: Options := Options(None, map[], None)

  /**
   * `{ ...options, headers: { ...options.headers, Authorization: ... } }`:
   * the caller's method, body and headers, with the bearer credential
   * added or put in place of the caller's own `Authorization` header.
   */
  function WithBearer(options: Options, token: string): (r: Options)
    ensures r.verb == options.verb && r.body == options.body
    ensures r.headers.Keys == options.headers.Keys + {AuthorizationHeader}
    ensures r.headers[AuthorizationHeader] == Bearer(token)
    ensures forall k :: k in options.headers && k != AuthorizationHeader ==> r.headers[k] == options.headers[k]
  {
    options.(headers := options.headers[AuthorizationHeader := Bearer(token)])
  }

  /** What decoding the stored access token's payload yields. */
  datatype Payload = Undecodable | Decoded(exp: Option<int>)

  /** The answer of `POST /api/token/refresh/`; `RefreshThrew` is a rejected fetch or an unreadable body. */
  datatype RefreshReply =
    | RefreshAnswered(status: int, access: Option<string>, refresh: Option<string>)
    | RefreshThrew

  /** The answer of an authenticated fetch. */
  datatype Reply = Answer(status: int) | Rejected(message: string)

  /** Every network call the helpers make, in order. */
  datatype Fetch =
    | RefreshCall(refreshToken: string)
    | ApiCall(url: string, options: Options)

  /** What the caller of `apiRequest` receives. */
  datatype ApiResult = NoSession | Response(status: int) | Threw(message: string)

  /** The network's answers to the (at most) four calls of one `apiRequest`. */
  datatype Net = Net(firstRefresh: RefreshReply, first: Reply, secondRefresh: RefreshReply, retry: Reply)

  /** Store contents, the token handed back, the calls made, and whether the page was sent to /login. */
  datatype Outcome = Outcome(items: map<string, string>, token: Option<string>, log: seq<Fetch>, toLogin: bool)

  datatype ApiOutcome = ApiOutcome(items: map<string, string>, result: ApiResult, log: seq<Fetch>, toLogin: bool)

  function Lookup(items: map<string, string>, key: string): Option<string> {
    if key in items then Some(items[key]) else None
  }

  /** `localStorage.setItem(k, undefined)` stores the text "undefined". */
  function StoredText(v: Option<string>): string {
    v.GetOr("undefined")
  }

  /** `refreshToken()`. */
  function Refreshed(items: map<string, string>, reply: RefreshReply): Outcome {
    var refresh := Lookup(items, RefreshKey);
    if !Truthy(refresh) then Outcome(map[], None, [], true)
    else
      var log := [RefreshCall(refresh.value)];
      match reply
      case RefreshThrew => Outcome(map[], None, log, true)
      case RefreshAnswered(status, access, newRefresh) =>
        if !IsOk(status) then Outcome(map[], None, log, true)
        else
          var withAccess := items[AccessKey := StoredText(access)];
          var stored := if Truthy(newRefresh) then withAccess[RefreshKey := newRefresh.value] else withAccess;
          Outcome(stored, access, log, false)
  }

  /** The early-refresh rule: a truthy `exp` less than the margin away. */
  predicate ExpiresSoon(exp: Option<int>, now: int) {
    exp.Some? && exp.value != 0 && exp.value - now < ExpiryMargin
  }

  /** `getAccess()`: `payload` is what decoding the stored access token yields. */
  function Access(items: map<string, string>, now: int, payload: Payload, reply: RefreshReply): Outcome {
    var access := Lookup(items, AccessKey);
    if !Truthy(access) then Outcome(items, None, [], false)
    else
      match payload
      case Undecodable => Refreshed(items, reply)
      case Decoded(exp) =>
        if ExpiresSoon(exp, now) then Refreshed(items, reply) else Outcome(items, access, [], false)
  }

  /** `apiRequest(url, options)`. */
  function Requested(items: map<string, string>, now: int, payload: Payload, net: Net, url: string, options: Options): ApiOutcome {
    var got := Access(items, now, payload, net.firstRefresh);
    if !Truthy(got.token) then ApiOutcome(got.items, NoSession, got.log, got.toLogin)
    else
      var log := got.log + [ApiCall(url, WithBearer(options, got.token.value))];
      match net.first
      case Rejected(msg) => ApiOutcome(got.items, Threw(msg), log, got.toLogin)
      case Answer(status) =>
        if status != 401 then ApiOutcome(got.items, Response(status), log, got.toLogin)
        else
          var again := Refreshed(got.items, net.secondRefresh);
          var log' := log + again.log;
          if !Truthy(again.token) then ApiOutcome(again.items, Response(401), log', got.toLogin || again.toLogin)
          else
            var retried := log' + [ApiCall(url, WithBearer(options, again.token.value))];
            var result := match net.retry
              case Answer(s) => Response(s)
              case Rejected(m) => Threw(m);
            ApiOutcome(again.items, result, retried, got.toLogin || again.toLogin)
  }

  function RefreshCount(log: seq<Fetch>): nat {
    if |log| == 0 then 0 else (if log[0].RefreshCall? then 1 else 0) + RefreshCount(log[1..])
  }

  function ApiCallCount(log: seq<Fetch>): nat {
    if |log| == 0 then 0 else (if log[0].ApiCall? then 1 else 0) + ApiCallCount(log[1..])
  }

  lemma {:induction false} CountsAppend(a: seq<Fetch>, b: seq<Fetch>)
    ensures RefreshCount(a + b) == RefreshCount(a) + RefreshCount(b)
    ensures ApiCallCount(a + b) == ApiCallCount(a) + ApiCallCount(b)
    decreases |a|
  {
    if |a| == 0 {
      assert a + b == b;
    } else {
      assert (a + b)[1..] == a[1..] + b;
      CountsAppend(a[1..], b);
    }
  }

  // ---------------------------------------------------------------------
  // Properties of the specification functions

  /** A refresh makes at most one call, and only to the refresh endpoint. */
  lemma RefreshCalls(items: map<string, string>, reply: RefreshReply)
    ensures var o := Refreshed(items, reply);
      |o.log| <= 1 && RefreshCount(o.log) == |o.log| && ApiCallCount(o.log) == 0
      && (|o.log| == 1 <==> Truthy(Lookup(items, RefreshKey)))
  {
  }

  /**
   * A successful refresh stores the new access token and replaces the
   * refresh token only when the response carries one; every other entry
   * is kept.
   */
  lemma RefreshSuccess(items: map<string, string>, status: int, access: Option<string>, refresh: Option<string>)
    requires Truthy(Lookup(items, RefreshKey)) && IsOk(status)
    ensures var o := Refreshed(items, RefreshAnswered(status, access, refresh));
      && o.token == access && !o.toLogin
      && o.items.Keys == items.Keys + {AccessKey}
      && o.items[AccessKey] == StoredText(access)
      && o.items[RefreshKey] == (if Truthy(refresh) then refresh.value else items[RefreshKey])
      && forall k :: k in items && k != AccessKey && k != RefreshKey ==> o.items[k] == items[k]
  {
  }

  /** A missing refresh token, a rejected refresh or a thrown error clears the whole store. */
  lemma RefreshFailureClears(items: map<string, string>, reply: RefreshReply)
    requires !Truthy(Lookup(items, RefreshKey)) || reply.RefreshThrew? || !IsOk(reply.status)
    ensures var o := Refreshed(items, reply);
      o.items == map[] && o.token == None && o.toLogin
  {
  }

  /** With no stored access token, nothing is refreshed and nothing changes. */
  lemma AccessWithoutToken(items: map<string, string>, now: int, payload: Payload, reply: RefreshReply)
    requires !Truthy(Lookup(items, AccessKey))
    ensures Access(items, now, payload, reply) == Outcome(items, None, [], false)
  {
  }

  /**
   * A stored token is refreshed exactly once when it cannot be decoded or
   * expires within the margin (and a refresh token is stored); otherwise it
   * is returned unchanged without any call.
   */
  lemma AccessRefreshesOnlyWhenNeeded(items: map<string, string>, now: int, payload: Payload, reply: RefreshReply)
    requires Truthy(Lookup(items, AccessKey))
    ensures var o := Access(items, now, payload, reply);
      var due := payload.Undecodable? || ExpiresSoon(payload.exp, now);
      && (due ==> o == Refreshed(items, reply))
      && (due && Truthy(Lookup(items, RefreshKey)) ==> RefreshCount(o.log) == 1 && |o.log| == 1)
      && (!due ==> o == Outcome(items, Some(items[AccessKey]), [], false))
  {
    RefreshCalls(items, reply);
  }

  /** A decodable payload without `exp` is used as it is. */
  lemma NoExpiryClaimNoRefresh(items: map<string, string>, now: int, reply: RefreshReply)
    requires Truthy(Lookup(items, AccessKey))
    ensures Access(items, now, Decoded(None), reply).token == Lookup(items, AccessKey)
    ensures Access(items, now, Decoded(None), reply).log == []
  {
  }

  /**
   * `apiRequest` sends at most two API calls and at most two refreshes; the
   * second API call happens only after a 401 and a usable refreshed token.
   */
  lemma {:induction false} RequestBounds(items: map<string, string>, now: int, payload: Payload, net: Net, url: string, options: Options)
    ensures var o := Requested(items, now, payload, net, url, options);
      && ApiCallCount(o.log) <= 2
      && RefreshCount(o.log) <= 2
      && (ApiCallCount(o.log) == 2 ==> net.first == Answer(401))
  {
    var got := Access(items, now, payload, net.firstRefresh);
    RefreshCalls(items, net.firstRefresh);
    assert ApiCallCount(got.log) == 0 && RefreshCount(got.log) <= 1;
    if Truthy(got.token) {
      var log := got.log + [ApiCall(url, WithBearer(options, got.token.value))];
      CountsAppend(got.log, [ApiCall(url, WithBearer(options, got.token.value))]);
      assert ApiCallCount([ApiCall(url, WithBearer(options, got.token.value))]) == 1;
      if net.first == Answer(401) {
        var again := Refreshed(got.items, net.secondRefresh);
        RefreshCalls(got.items, net.secondRefresh);
        CountsAppend(log, again.log);
        if Truthy(again.token) {
          var call := [ApiCall(url, WithBearer(options, again.token.value))];
          CountsAppend(log + again.log, call);
          assert ApiCallCount(call) == 1 && RefreshCount(call) == 0;
        }
      }
    }
  }

  /**
   * Every API call `apiRequest` sends goes to the requested URL with the
   * caller's method and body.  The first carries the token `getAccess`
   * handed back, and the retry after a 401 the token of the second refresh,
   * each over the caller's other headers.
   */
  lemma RequestCallsCarryBearer(items: map<string, string>, now: int, payload: Payload, net: Net, url: string, options: Options)
    ensures var o := Requested(items, now, payload, net, url, options);
      forall i :: 0 <= i < |o.log| && o.log[i].ApiCall? ==>
        o.log[i].url == url && o.log[i].options.verb == options.verb && o.log[i].options.body == options.body
    ensures var got := Access(items, now, payload, net.firstRefresh);
      var o := Requested(items, now, payload, net, url, options);
      Truthy(got.token) ==> |o.log| > |got.log| && o.log[|got.log|] == ApiCall(url, WithBearer(options, got.token.value))
    ensures var got := Access(items, now, payload, net.firstRefresh);
      var again := Refreshed(got.items, net.secondRefresh);
      var o := Requested(items, now, payload, net, url, options);
      Truthy(got.token) && net.first == Answer(401) && Truthy(again.token) ==>
        o.log[|o.log| - 1] == ApiCall(url, WithBearer(options, again.token.value))
  {
    var got := Access(items, now, payload, net.firstRefresh);
    RefreshCalls(items, net.firstRefresh);
    if Truthy(got.token) && net.first == Answer(401) {
      RefreshCalls(got.items, net.secondRefresh);
    }
  }

  /** On a 401 whose second refresh yields no token, the caller gets the original 401. */
  lemma UnauthorizedRefreshFails(items: map<string, string>, now: int, payload: Payload, net: Net, url: string, options: Options)
    requires net.first == Answer(401)
    requires var got := Access(items, now, payload, net.firstRefresh);
      Truthy(got.token) && !Truthy(Refreshed(got.items, net.secondRefresh).token)
    ensures Requested(items, now, payload, net, url, options).result == Response(401)
  {
  }

  /** After a 401 and a successful refresh the retry's answer is returned as it is, even another 401. */
  lemma RetryReturnedUnexamined(items: map<string, string>, now: int, payload: Payload, net: Net, url: string, options: Options, status: int)
    requires net.first == Answer(401) && net.retry == Answer(status)
    requires var got := Access(items, now, payload, net.firstRefresh);
      Truthy(got.token) && Truthy(Refreshed(got.items, net.secondRefresh).token)
    ensures var o := Requested(items, now, payload, net, url, options);
      o.result == Response(status) && o.log[|o.log| - 1].ApiCall?
  {
  }

  // ---------------------------------------------------------------------
  // The imperative helpers over the browser's storage

  /** The browser's localStorage. */
  class TokenStore {
    var items: map<string, string>

    constructor (initial: map<string, string>)
      ensures items == initial
    {
      items := initial;
    }

    function GetItem(key: string): (v: Option<string>)
      reads this
      ensures v == Lookup(items, key)
    {
      if key in items then Some(items[key]) else None
    }

    method SetItem(key: string, value: string)
      modifies this
      ensures items == old(items)[key := value]
    {
      items := items[key := value];
    }

    method Clear()
      modifies this
      ensures items == map[]
    {
      items := map[];
    }
  }

  method RefreshToken(store: TokenStore, reply: RefreshReply)
    returns (token: Option<string>, log: seq<Fetch>, toLogin: bool)
    modifies store
    ensures Outcome(store.items, token, log, toLogin) == Refreshed(old(store.items), reply)
  {
    var refresh := store.GetItem(RefreshKey);
    if !Truthy(refresh) {
      store.Clear();
      return None, [], true;
    }
    log := [RefreshCall(refresh.value)];
    match reply {
      case RefreshThrew =>
        store.Clear();
        token, toLogin := None, true;
      case RefreshAnswered(status, access, newRefresh) =>
        if IsOk(status) {
          store.SetItem(AccessKey, StoredText(access));
          if Truthy(newRefresh) {
            store.SetItem(RefreshKey, newRefresh.value);
          }
          token, toLogin := access, false;
        } else {
          store.Clear();
          token, toLogin := None, true;
        }
    }
  }

  method GetAccess(store: TokenStore, now: int, payload: Payload, reply: RefreshReply)
    returns (token: Option<string>, log: seq<Fetch>, toLogin: bool)
    modifies store
    ensures Outcome(store.items, token, log, toLogin) == Access(old(store.items), now, payload, reply)
  {
    var access := store.GetItem(AccessKey);
    if !Truthy(access) {
      return None, [], false;
    }
    if payload.Undecodable? || ExpiresSoon(payload.exp, now) {
      token, log, toLogin := RefreshToken(store, reply);
      return;
    }
    return access, [], false;
  }

  method ApiRequest(store: TokenStore, now: int, payload: Payload, net: Net, url: string, options: Options)
    returns (result: ApiResult, log: seq<Fetch>, toLogin: bool)
    modifies store
    ensures ApiOutcome(store.items, result, log, toLogin) == Requested(old(store.items), now, payload, net, url, options)
  {
    var access;
    access, log, toLogin := GetAccess(store, now, payload, net.firstRefresh);
    if !Truthy(access) {
      return NoSession, log, toLogin;
    }
    log := log + [ApiCall(url, WithBearer(options, access.value))];
    match net.first {
      case Rejected(msg) =>
        result := Threw(msg);
      case Answer(status) =>
        if status != 401 {
          result := Response(status);
        } else {
          var newAccess, more, sent := RefreshToken(store, net.secondRefresh);
          log, toLogin := log + more, toLogin || sent;
          if Truthy(newAccess) {
            log := log + [ApiCall(url, WithBearer(options, newAccess.value))];
            match net.retry {
              case Answer(s) => result := Response(s);
              case Rejected(m) => result := Threw(m);
            }
          } else {
            result := Response(401);
          }
        }
    }
  }
}
