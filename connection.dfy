/**
 * `ZohoHub::Connection`: API-domain inference, the access token (a fixed
 * string or a callable), the `Zoho-oauthtoken` authorization header, the
 * lazily built transport adapter, the lock-guarded token refresh and the
 * refresh-and-retry-once protocol around every request.
 *
 * The HTTP exchange, the classification of a response body, the token
 * exchange with the authorization server and the values a callable token
 * returns are not computed here: they are inputs of the operations.
 */
module Connection {
  import opened Wrappers

  // ----- Domains -----

  const DefaultDomain: string := "https://www.zohoapis.eu"

  /** The accounts domains the library knows, each with its API host. */
  const KnownDomains: seq<(string, string)> := [
    ("https://accounts.zoho.com", "https://www.zohoapis.com"),
    ("https://accounts.zoho.com.cn", "https://www.zohoapis.com.cn"),
    ("https://accounts.zoho.in", "https://www.zohoapis.in"),
    ("https://accounts.zoho.eu", "https://www.zohoapis.eu")
  ]

  /** `Connection.infer_api_domain`, from the configured accounts domain (`None` is `nil`). */
  function InferApiDomain(accounts: Option<string>): string
  {
    match accounts
    case Some("https://accounts.zoho.com") => "https://www.zohoapis.com"
    case Some("https://accounts.zoho.com.cn") => "https://www.zohoapis.com.cn"
    case Some("https://accounts.zoho.in") => "https://www.zohoapis.in"
    case Some("https://accounts.zoho.eu") => "https://www.zohoapis.eu"
    case _ => DefaultDomain
  }

  /** Each known accounts domain maps to its own API host. */
  lemma InferKnownDomain(i: nat)
    requires i < |KnownDomains|
    ensures InferApiDomain(Some(KnownDomains[i].0)) == KnownDomains[i].1
  {
  }

  /** Every other value, `nil` and `''` included, gives the default domain. */
  lemma InferOtherDomain(accounts: Option<string>)
    requires forall i :: 0 <= i < |KnownDomains| ==> accounts != Some(KnownDomains[i].0)
    ensures InferApiDomain(accounts) == DefaultDomain
  {
    assert accounts.Some? ==> accounts.value != KnownDomains[0].0 && accounts.value != KnownDomains[1].0
                               && accounts.value != KnownDomains[2].0 && accounts.value != KnownDomains[3].0;
  }

  // ----- Tokens and the authorization header -----

  /** Identifies one callable given as the access token. */
  type ProcId = nat

  /**
   * What a callable returns when it is called with `n` requests already
   * sent: the callable reads state this library does not own.
   */
  type ProcOracle = (ProcId, nat) -> string

  /** `@access_token`: unset (`nil`), a fixed string, or a callable. */
  datatype TokenSource = NoToken | Static(token: string) | Callable(proc: ProcId)

  /** `@access_token = value` for a value that is a string or `nil`. */
  function TokenOf(value: Option<string>): TokenSource
  {
    match value
    case Some(t) => Static(t)
    case None => NoToken
  }

  /** `access_token`: the stored string, or the callable's result. */
  function TokenValue(src: TokenSource, call: ProcOracle, n: nat): Option<string>
  {
    match src
    case NoToken => None
    case Static(t) => Some(t)
    case Callable(p) => Some(call(p, n))
  }

  const AuthScheme: string := "Zoho-oauthtoken "

  /** `authorization`: the header value; interpolating `nil` gives the empty string. */
  function AuthorizationHeader(token: Option<string>): string
  {
    AuthScheme + token.GetOr("")
  }

  /** The header is the scheme followed by exactly the token, so distinct tokens give distinct headers. */
  lemma AuthorizationCarriesToken(a: string, b: string)
    ensures AuthorizationHeader(Some(a))[..|AuthScheme|] == AuthScheme
    ensures AuthorizationHeader(Some(a))[|AuthScheme|..] == a
    ensures AuthorizationHeader(Some(a)) == AuthorizationHeader(Some(b)) <==> a == b
  {
    assert AuthorizationHeader(Some(a))[|AuthScheme|..] == a;
    assert AuthorizationHeader(Some(b))[|AuthScheme|..] == b;
  }

  lemma AuthorizationExample(call: ProcOracle, n: nat)
    requires call(7, n) == "123"
    ensures AuthorizationHeader(TokenValue(Callable(7), call, n)) == "Zoho-oauthtoken 123"
    ensures TokenValue(Static("123"), call, n) == Some("123")
  {
  }

  // ----- Requests and responses -----

  datatype Verb = Get | Post | Put | Delete

  /** One invocation of the request block: `adapter.send(verb, path, params)`. */
  datatype Call = Call(verb: Verb, path: string, params: string)

  /** A request as it left: the call and the `Authorization` header the adapter carried. */
  datatype Sent = Sent(call: Call, authorization: Option<string>)

  /**
   * A response body together with what `Response.new(body)` says of it
   * (`invalid_token?`, `authentication_failure?`, `msg`).
   */
  datatype Body = Body(raw: string, invalidToken: bool, authenticationFailure: bool, msg: string)

  datatype HttpResponse = HttpResponse(status: int, body: Body)

  /** What `ZohoHub::Auth.refresh_token` returns; only `params[:access_token]` is read. */
  datatype RefreshParams = RefreshParams(accessToken: Option<string>, raw: string)

  /** The errors a request raises. */
  datatype ApiError = ZohoAPIError(msg: string) | InternalError(body: Body)

  const ServerErrors: seq<int> := [500, 502, 503, 504]

  predicate IsServerError(status: int)
  {
    status in ServerErrors
  }

  // ----- The connection state and its transitions -----

  /**
   * Everything the protocol reads or changes: the token fields, whether the
   * refresh lock is held by someone else, whether the callbacks are set, the
   * memoized adapter (built or not, its `Authorization` header, how often
   * the initialization hook ran), and the observable traffic (refresh
   * tokens sent for exchange, parameters handed to the refresh callback,
   * requests sent).
   */
  datatype ConnState = ConnState(
    token: TokenSource,
    refreshToken: Option<string>,
    locked: bool,
    onRefresh: bool,
    onInitialize: bool,
    adapterBuilt: bool,
    header: Option<string>,
    hookCalls: nat,
    exchanges: seq<Option<string>>,
    delivered: seq<RefreshParams>,
    sent: seq<Sent>)

  /** The adapter hook runs at most once, and only when the adapter is built; requests need the adapter. */
  ghost predicate ValidState(s: ConnState)
  {
    s.hookCalls <= (if s.adapterBuilt then 1 else 0)
    && (|s.sent| > 0 ==> s.adapterBuilt)
  }

  /** `access_token?` */
  predicate HasAccessToken(s: ConnState)
  {
    !s.token.NoToken?
  }

  /** `refresh_token?` */
  predicate HasRefreshToken(s: ConnState)
  {
    s.refreshToken.Some?
  }

  /** `access_token`, evaluated now. */
  function CurrentToken(s: ConnState, call: ProcOracle): Option<string>
  {
    TokenValue(s.token, call, |s.sent|)
  }

  /** `adapter`: built on first use, with the header if a token is set, and the hook run once. */
  function AdapterStep(s: ConnState, call: ProcOracle): ConnState
  {
    if s.adapterBuilt then s
    else s.(adapterBuilt := true,
            header := if HasAccessToken(s) then Some(AuthorizationHeader(CurrentToken(s, call))) else None,
            hookCalls := s.hookCalls + if s.onInitialize then 1 else 0)
  }

  /** `with_authorization { adapter.send(...) }`: refresh the header if a token is set, then send. */
  function SendStep(s: ConnState, call: ProcOracle, c: Call): ConnState
  {
    var a := AdapterStep(s, call);
    var h := if HasAccessToken(a) then Some(AuthorizationHeader(CurrentToken(a, call))) else a.header;
    a.(header := h, sent := a.sent + [Sent(c, h)])
  }

  /**
   * `refresh_token!`: nothing if the lock was held on entry; otherwise one
   * exchange, the callback (if set) gets its result, and a token that is
   * not callable is replaced by the new one.
   */
  function RefreshStep(s: ConnState, p: RefreshParams): ConnState
  {
    if s.locked then s
    else s.(exchanges := s.exchanges + [s.refreshToken],
            delivered := if s.onRefresh then s.delivered + [p] else s.delivered,
            token := if s.token.Callable? then s.token else TokenOf(p.accessToken))
  }

  /** Whether the first response leads to a refresh and a second attempt. */
  predicate RetryWanted(s: ConnState, first: HttpResponse)
  {
    (first.body.invalidToken || first.body.authenticationFailure) && HasRefreshToken(s)
  }

  /**
   * `with_refresh`: send once; on an expired or rejected token, with a
   * refresh token, refresh and send once more and return that response;
   * on a rejected token without one, raise; otherwise return the first response.
   */
  function WithRefreshStep(s: ConnState, call: ProcOracle, c: Call,
                           first: HttpResponse, second: HttpResponse, p: RefreshParams)
    : (ConnState, Result<HttpResponse, ApiError>)
  {
    var s1 := SendStep(s, call, c);
    if RetryWanted(s1, first) then (SendStep(RefreshStep(s1, p), call, c), Ok(second))
    else if first.body.authenticationFailure then (s1, Err(ZohoAPIError(first.body.msg)))
    else (s1, Ok(first))
  }

  /** `get`/`post`/`put`/`delete`: `with_refresh`, then a server error status raises with the body. */
  function RequestStep(s: ConnState, call: ProcOracle, c: Call,
                       first: HttpResponse, second: HttpResponse, p: RefreshParams)
    : (ConnState, Result<Body, ApiError>)
  {
    var (s1, r) := WithRefreshStep(s, call, c, first, second, p);
    match r
    case Err(e) => (s1, Err(e))
    case Ok(resp) => if IsServerError(resp.status) then (s1, Err(InternalError(resp.body))) else (s1, Ok(resp.body))
  }

  // ----- Properties of the transitions -----

  /** Building the adapter is memoized: a second use changes nothing. */
  lemma AdapterMemoized(s: ConnState, call: ProcOracle)
    ensures AdapterStep(AdapterStep(s, call), call) == AdapterStep(s, call)
    ensures AdapterStep(s, call).adapterBuilt
    ensures AdapterStep(s, call).hookCalls == s.hookCalls + if !s.adapterBuilt && s.onInitialize then 1 else 0
  {
  }

  /**
   * A request carries `Zoho-oauthtoken <token>` when a token is set, and
   * otherwise whatever header the adapter already had (none on a new adapter).
   */
  lemma SentHeader(s: ConnState, call: ProcOracle, c: Call)
    ensures var s1 := SendStep(s, call, c);
            s1.sent[..|s.sent|] == s.sent && |s1.sent| == |s.sent| + 1
            && s1.sent[|s.sent|].call == c
            && (HasAccessToken(s) ==> s1.sent[|s.sent|].authorization == Some(AuthorizationHeader(CurrentToken(s, call))))
            && (!HasAccessToken(s) ==> s1.sent[|s.sent|].authorization == (if s.adapterBuilt then s.header else None))
  {
  }

  /** With the lock already held on entry, a refresh does nothing at all. */
  lemma RefreshSkippedWhenLocked(s: ConnState, p: RefreshParams)
    requires s.locked
    ensures RefreshStep(s, p) == s
  {
  }

  /**
   * With the lock free, a refresh exchanges the refresh token once, hands the
   * result to the callback if one is set, replaces a string token by the new
   * one, keeps a callable token, and changes nothing else.
   */
  lemma RefreshWhenFree(s: ConnState, p: RefreshParams)
    requires !s.locked
    ensures var r := RefreshStep(s, p);
            r.exchanges == s.exchanges + [s.refreshToken]
            && r.delivered == (if s.onRefresh then s.delivered + [p] else s.delivered)
            && (s.token.Callable? ==> r.token == s.token)
            && (!s.token.Callable? ==> r.token == TokenOf(p.accessToken))
            && r.(token := s.token, exchanges := s.exchanges, delivered := s.delivered) == s
  {
  }

  /** `'foo'` becomes `'123'`; a callable returning `'bar'` keeps returning `'bar'`. */
  lemma RefreshExamples(s: ConnState, call: ProcOracle)
    requires !s.locked
    requires forall n :: call(1, n) == "bar"
    ensures CurrentToken(RefreshStep(s.(token := Static("foo")), RefreshParams(Some("123"), "")), call) == Some("123")
    ensures CurrentToken(RefreshStep(s.(token := Callable(1)), RefreshParams(Some("123"), "")), call) == Some("bar")
  {
  }

  /**
   * On an expired or rejected token with a refresh token set, the block runs
   * exactly twice with the same call, at most one exchange happens, the
   * second response is returned, and the retry carries the token as it is
   * after the refresh.
   */
  lemma WithRefreshRetriesOnce(s: ConnState, call: ProcOracle, c: Call,
                               first: HttpResponse, second: HttpResponse, p: RefreshParams)
    requires first.body.invalidToken || first.body.authenticationFailure
    requires HasRefreshToken(s)
    ensures var (s2, r) := WithRefreshStep(s, call, c, first, second, p);
            var mid := RefreshStep(SendStep(s, call, c), p);
            r == Ok(second)
            && |s2.sent| == |s.sent| + 2
            && s2.sent[|s.sent|].call == c && s2.sent[|s.sent| + 1].call == c
            && |s2.exchanges| == |s.exchanges| + (if s.locked then 0 else 1)
            && s2.token == mid.token
            && (HasAccessToken(mid) ==> s2.sent[|s.sent| + 1].authorization == Some(AuthorizationHeader(CurrentToken(mid, call))))
  {
  }

  /**
   * In every other case the block runs exactly once, no exchange happens and
   * the token is unchanged; the call raises exactly when the token was
   * rejected (and no refresh token is set), else returns the first response.
   */
  lemma WithRefreshNoRetry(s: ConnState, call: ProcOracle, c: Call,
                           first: HttpResponse, second: HttpResponse, p: RefreshParams)
    requires !((first.body.invalidToken || first.body.authenticationFailure) && HasRefreshToken(s))
    ensures var (s2, r) := WithRefreshStep(s, call, c, first, second, p);
            |s2.sent| == |s.sent| + 1 && s2.sent[|s.sent|].call == c
            && s2.exchanges == s.exchanges && s2.delivered == s.delivered && s2.token == s.token
            && (first.body.authenticationFailure ==> r == Err(ZohoAPIError(first.body.msg)))
            && (!first.body.authenticationFailure ==> r == Ok(first))
  {
  }

  /** No request runs the block more than twice or exchanges the token more than once. */
  lemma WithRefreshBounded(s: ConnState, call: ProcOracle, c: Call,
                           first: HttpResponse, second: HttpResponse, p: RefreshParams)
    ensures var (s2, _) := WithRefreshStep(s, call, c, first, second, p);
            |s.sent| + 1 <= |s2.sent| <= |s.sent| + 2
            && |s.exchanges| <= |s2.exchanges| <= |s.exchanges| + 1
            && |s.delivered| <= |s2.delivered| <= |s.delivered| + 1
  {
  }

  /**
   * A request raises `InternalError` with the body exactly when the response
   * `with_refresh` returned has a server error status; otherwise it returns
   * that response's body.
   */
  lemma RequestServerErrors(s: ConnState, call: ProcOracle, c: Call,
                            first: HttpResponse, second: HttpResponse, p: RefreshParams)
    ensures var (s1, r) := WithRefreshStep(s, call, c, first, second, p);
            var (s2, out) := RequestStep(s, call, c, first, second, p);
            s2 == s1
            && (r.Ok? && IsServerError(r.value.status) <==> out.Err? && out.error.InternalError?)
            && (r.Ok? && !IsServerError(r.value.status) ==> out == Ok(r.value.body))
            && (r.Ok? && IsServerError(r.value.status) ==> out == Err(InternalError(r.value.body)))
            && (r.Err? ==> out == Err(r.error))
  {
  }

  /** The server error statuses are exactly 500, 502, 503 and 504. */
  lemma ServerErrorStatuses(status: int)
    ensures IsServerError(status) <==> status == 500 || status == 502 || status == 503 || status == 504
  {
  }

  /** Every transition keeps the adapter invariant. */
  lemma ValidPreserved(s: ConnState, call: ProcOracle, c: Call,
                       first: HttpResponse, second: HttpResponse, p: RefreshParams)
    requires ValidState(s)
    ensures ValidState(AdapterStep(s, call))
    ensures ValidState(SendStep(s, call, c))
    ensures ValidState(RefreshStep(s, p))
    ensures ValidState(WithRefreshStep(s, call, c, first, second, p).0)
    ensures ValidState(RequestStep(s, call, c, first, second, p).0)
  {
  }

  // ----- The connection object -----

  /** The process-wide configuration values a connection reads. */
  datatype Configuration = Configuration(apiDomain: Option<string>, apiVersion: Option<string>)

  class Connection {
    var token: TokenSource
    /** `@expires_in`, `@api_domain` and `@api_version`: set once, never written by the protocol. */
    const expiresIn: int
    const apiDomain: string
    const apiVersion: Option<string>
    var refreshToken: Option<string>
    /** Whether another thread holds the refresh mutex. */
    var locked: bool
    var onRefresh: bool
    var onInitialize: bool
    var adapterBuilt: bool
    /** `adapter.headers['Authorization']`. */
    var header: Option<string>
    var hookCalls: nat
    var exchanges: seq<Option<string>>
    var delivered: seq<RefreshParams>
    var sent: seq<Sent>

    ghost function State(): ConnState
      reads this
    {
      ConnState(token, refreshToken, locked, onRefresh, onInitialize, adapterBuilt, header,
                hookCalls, exchanges, delivered, sent)
    }

    ghost predicate Valid()
      reads this
    {
      ValidState(State())
    }

    /**
     * `Connection.new`: an explicit API domain wins over the one inferred from
     * the configured accounts domain, and an explicit API version over the
     * configured one.
     */
    constructor (accessToken: TokenSource, apiDomain: Option<string>, apiVersion: Option<string>,
                 expiresIn: int, refreshToken: Option<string>, config: Configuration)
      ensures Valid()
      ensures this.apiDomain == if apiDomain.Some? then apiDomain.value else InferApiDomain(config.apiDomain)
      ensures this.apiVersion == if apiVersion.Some? then apiVersion else config.apiVersion
      ensures this.expiresIn == expiresIn
      ensures State() == ConnState(accessToken, refreshToken, false, false, false, false, None, 0, [], [], [])
    {
      token := accessToken;
      this.expiresIn := expiresIn;
      this.apiDomain := if apiDomain.Some? then apiDomain.value else InferApiDomain(config.apiDomain);
      this.apiVersion := if apiVersion.Some? then apiVersion else config.apiVersion;
      this.refreshToken := refreshToken;
      locked := false;
      onRefresh, onInitialize := false, false;
      adapterBuilt, header, hookCalls := false, None, 0;
      exchanges, delivered, sent := [], [], [];
    }

    /** `on_refresh_cb = cb`: only whether a callback is set matters here. */
    method SetOnRefresh(isSet: bool)
      modifies this
      ensures State() == old(State()).(onRefresh := isSet)
    {
      onRefresh := isSet;
    }

    /** `on_initialize_connection = hook`. */
    method SetOnInitialize(isSet: bool)
      modifies this
      ensures State() == old(State()).(onInitialize := isSet)
    {
      onInitialize := isSet;
    }

    /** `access_token`: `nil` exactly when no token is set; a fixed token is returned as stored. */
    function AccessToken(call: ProcOracle): (r: Option<string>)
      reads this
      ensures r.None? <==> token.NoToken?
      ensures token.Static? ==> r == Some(token.token)
      ensures token.Callable? ==> r == Some(call(token.proc, |sent|))
    {
      TokenValue(token, call, |sent|)
    }

    /** `access_token?` */
    predicate HasAccessToken()
      reads this
    {
      !token.NoToken?
    }

    /** `refresh_token?` */
    predicate HasRefreshToken()
      reads this
    {
      refreshToken.Some?
    }

    /** `authorization` */
    function Authorization(call: ProcOracle): string
      reads this
    {
      AuthorizationHeader(AccessToken(call))
    }

    /** `adapter`, memoized in `@adapter`. */
    method Adapter(call: ProcOracle)
      requires Valid()
      modifies this
      ensures Valid()
      ensures State() == AdapterStep(old(State()), call)
    {
      if !adapterBuilt {
        adapterBuilt := true;
        header := if HasAccessToken() then Some(Authorization(call)) else None;
        if onInitialize {
          hookCalls := hookCalls + 1;
        }
      }
    }

    /** `with_authorization { adapter.send(verb, path, params) }`; the response is the server's. */
    method SendAuthorized(call: ProcOracle, c: Call, response: HttpResponse) returns (r: HttpResponse)
      requires Valid()
      modifies this
      ensures Valid()
      ensures State() == SendStep(old(State()), call, c)
      ensures r == response
    {
      Adapter(call);
      if HasAccessToken() {
        header := Some(Authorization(call));
      }
      sent := sent + [Sent(c, header)];
      r := response;
    }

    /** `refresh_token!`, with the exchange's result given as `p`. */
    method RefreshToken(p: RefreshParams)
      requires Valid()
      modifies this
      ensures Valid()
      ensures State() == RefreshStep(old(State()), p)
    {
      var wasLocked := locked;
      if !wasLocked {
        exchanges := exchanges + [refreshToken];
        if onRefresh {
          delivered := delivered + [p];
        }
        if !token.Callable? {
          token := TokenOf(p.accessToken);
        }
      }
    }

    /**
     * `with_refresh`: `first` and `second` are what the server answers to the
     * first and (if it happens) the second attempt.
     */
    method WithRefresh(call: ProcOracle, c: Call, first: HttpResponse, second: HttpResponse, p: RefreshParams)
      returns (r: Result<HttpResponse, ApiError>)
      requires Valid()
      modifies this
      ensures Valid()
      ensures (State(), r) == WithRefreshStep(old(State()), call, c, first, second, p)
    {
      var response := SendAuthorized(call, c, first);
      if (response.body.invalidToken || response.body.authenticationFailure) && HasRefreshToken() {
        RefreshToken(p);
        response := SendAuthorized(call, c, second);
        r := Ok(response);
      } else if response.body.authenticationFailure {
        r := Err(ZohoAPIError(response.body.msg));
      } else {
        r := Ok(response);
      }
    }

    /** `get`, `post`, `put` and `delete`. */
    method Request(call: ProcOracle, c: Call, first: HttpResponse, second: HttpResponse, p: RefreshParams)
      returns (r: Result<Body, ApiError>)
      requires Valid()
      modifies this
      ensures Valid()
      ensures (State(), r) == RequestStep(old(State()), call, c, first, second, p)
    {
      var response := WithRefresh(call, c, first, second, p);
      if response.Err? {
        return Err(response.error);
      }
      if IsServerError(response.value.status) {
        return Err(InternalError(response.value.body));
      }
      r := Ok(response.value.body);
    }
  }
}
