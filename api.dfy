/** The authenticated request pipeline (src/services/api.ts): every request
    gets its URL resolved against the configured base URL and its headers
    prepared (`content-type`, `x-locale`, the bearer token); a failure that
    looks like an expired token either waits for a refresh already running
    and re-sends the request, or refreshes the session under a lock and
    re-sends it, or logs out.

    One call is modelled as a method of `ApiClient`, whose fields are the
    parts of the store the call reads and writes (the `auth` slice, the base
    URL, the i18n language), the lock, and logs of the requests handed to the
    transport, of the actions dispatched and of this client's lock
    operations. The transport (RTK Query's `fetchBaseQuery` over HTTP) and the
    absolute-URL check (`z.string().url()`) are parameters. What other
    requests do while this one awaits is the `Others` parameter. Header names
    are written in lower case, as Fetch `Headers` compare them. */
module Api {
  import opened Wrappers
  import opened JsonValue
  import opened Text
  import opened I18n
  import opened AuthStore

  /** The `args` of a query: a path or URL, or a request description of
      which only `url`, `method` (here `verb`), `body` and `headers` are
      modelled. */
  datatype QueryArgs =
    | UrlString(url: string)
    | FetchArgs(url: string, verb: Option<string>, body: Option<Json>, headers: map<string, string>)

  /** A request as handed to the transport: its args and the headers
      `prepareHeaders` left. */
  datatype Request = Request(args: QueryArgs, headers: map<string, string>)

  /** `FetchBaseQueryError.status`: an HTTP status, or one of the named
      statuses (`'FETCH_ERROR'`, `'PARSING_ERROR'`, ...). */
  datatype ErrorStatus = Http(code: int) | Named(name: string)

  /** A query error; `data` is `None` when it is `undefined`. */
  datatype QueryError = QueryError(status: ErrorStatus, data: Option<Json>)

  /** `{ data }` or `{ error }`. */
  datatype QueryResult = Data(value: Json) | Error(error: QueryError)

  /** What the transport does with one request: it answers, or it throws. */
  datatype Sent = Answered(result: QueryResult) | Raised

  /** Why a call throws: no base URL (line 44), an `errorMessage` that is
      neither a string nor nullish, on which `toLowerCase` is not a function
      (line 62), or the transport throwing. */
  datatype Thrown = MissingApiUrl | ErrorMessageNotText | TransportRaised

  datatype CallOutcome = Returned(result: QueryResult) | Threw(reason: Thrown)

  /** This client's own operations on the mutex. */
  datatype LockEvent = Acquired | Released

  /** What other requests do while this call awaits: the session they leave
      when this call's first wait for the lock ends, whether one of them
      takes the lock while this call's first request is in flight, and the
      session its refresh leaves when this call's second wait ends. */
  datatype Others = Others(sessionAfterEntryWait: AuthState, lockTakenDuringSend: bool, sessionAfterWait: AuthState)

  /** `state.apiUrl.url` is truthy. */
  predicate Given(url: Option<string>) {
    url.Some? && url.value != ""
  }

  /** The URL of a request (lines 46-51): an absolute URL is kept; anything
      else goes after the base URL, behind a `/` unless it starts with one. */
  function ResolveUrl(base: string, urlEnd: string, isUrl: string -> bool): (r: string)
    ensures isUrl(urlEnd) ==> r == urlEnd
    ensures !isUrl(urlEnd) ==>
      |base| < |r| && r[..|base|] == base && r[|base|] == '/' &&
      (StartsWith(urlEnd, "/") ==> r[|base|..] == urlEnd) &&
      (!StartsWith(urlEnd, "/") ==> r[|base| + 1..] == urlEnd)
  {
    var withSlash := if StartsWith(urlEnd, "/") then urlEnd else "/" + urlEnd;
    if isUrl(urlEnd) then urlEnd else base + withSlash
  }

  /** The base URL is used as it is: one that ends in `/` followed by a path
      that starts with one gives a `//` at the join. */
  lemma BaseKeepsTrailingSlash(base: string, urlEnd: string, isUrl: string -> bool)
    requires !isUrl(urlEnd) && |base| >= 1 && base[|base| - 1] == '/' && StartsWith(urlEnd, "/")
    ensures var r := ResolveUrl(base, urlEnd, isUrl);
            |base| < |r| && r[|base| - 1] == '/' && r[|base|] == '/'
  {
    var r := ResolveUrl(base, urlEnd, isUrl);
    assert r[..|base|] == base;
    assert r[|base| - 1] == r[..|base|][|base| - 1];
  }

  /** The args sent (lines 43-52): a call without a base URL throws before
      anything is sent; otherwise only the URL is replaced. */
  function AdjustArgs(apiUrl: Option<string>, args: QueryArgs, isUrl: string -> bool): (r: Result<QueryArgs, Thrown>)
    ensures r.Err? <==> !Given(apiUrl)
    ensures r.Err? ==> r.error == MissingApiUrl
    ensures r.Ok? ==>
      r.value.url == ResolveUrl(apiUrl.value, args.url, isUrl) &&
      (args.UrlString? <==> r.value.UrlString?) &&
      (args.FetchArgs? ==> r.value.verb == args.verb && r.value.body == args.body && r.value.headers == args.headers)
  {
    if !Given(apiUrl) then Err(MissingApiUrl)
    else
      var adjustedUrl := ResolveUrl(apiUrl.value, args.url, isUrl);
      match args
      case UrlString(_) => Ok(UrlString(adjustedUrl))
      case FetchArgs(_, _, _, _) => Ok(args.(url := adjustedUrl))
  }

  /** The headers `fetchBaseQuery` starts from: those of the args. */
  function InitialHeaders(args: QueryArgs): map<string, string> {
    match args
    case UrlString(_) => map[]
    case FetchArgs(_, _, _, headers) => headers
  }

  /** A request's headers after `prepareHeaders` (lines 17-33). */
  function Prepared(h: map<string, string>, language: string, token: Option<string>): map<string, string> {
    var h1 := if "content-type" in h then h else h["content-type" := "application/json"];
    var h2 := if "x-locale" in h1 then h1 else h1["x-locale" := LocaleCode(language)];
    if "dorefresh" in h2 then h2 - {"dorefresh"}
    else if AuthStore.Truthy(token) then h2["authorization" := "Bearer " + token.value]
    else h2
  }

  /** `content-type` and `x-locale` get their defaults only when absent; the
      `doRefresh` marker never reaches the wire; the bearer token (section
      2.1 of RFC 6750) is set exactly when there is no marker and a token;
      every other header is left as it was. */
  lemma PreparedMeaning(h: map<string, string>, language: string, token: Option<string>, name: string)
    ensures var r := Prepared(h, language, token);
            "content-type" in r && r["content-type"] == (if "content-type" in h then h["content-type"] else "application/json")
    ensures var r := Prepared(h, language, token);
            "x-locale" in r && r["x-locale"] == (if "x-locale" in h then h["x-locale"] else LocaleCode(language))
    ensures "dorefresh" !in Prepared(h, language, token)
    ensures var r := Prepared(h, language, token);
            "dorefresh" !in h && AuthStore.Truthy(token) ==>
              "authorization" in r && r["authorization"] == "Bearer " + token.value
    ensures var r := Prepared(h, language, token);
            "dorefresh" in h || !AuthStore.Truthy(token) ==>
              ("authorization" in r <==> "authorization" in h) &&
              ("authorization" in h ==> r["authorization"] == h["authorization"])
    ensures var r := Prepared(h, language, token);
            name !in {"content-type", "x-locale", "dorefresh", "authorization"} ==>
              (name in r <==> name in h) && (name in h ==> r[name] == h[name])
  {
  }

  /** A header map that `prepareHeaders` changes in place. */
  class Headers {
    var entries: map<string, string>

    constructor (initial: map<string, string>)
      ensures entries == initial
    {
      entries := initial;
    }

    predicate Has(name: string)
      reads this
    {
      name in entries
    }

    method Set(name: string, value: string)
      modifies this
      ensures entries == old(entries)[name := value]
    {
      entries := entries[name := value];
    }

    method Delete(name: string)
      modifies this
      ensures entries == old(entries) - {name}
    {
      entries := entries - {name};
    }
  }

  /** `prepareHeaders` (lines 17-34). */
  method PrepareHeaders(headers: Headers, language: string, token: Option<string>)
    modifies headers
    ensures headers.entries == Prepared(old(headers.entries), language, token)
  {
    if !headers.Has("content-type") {
      headers.Set("content-type", "application/json");
    }
    if !headers.Has("x-locale") {
      headers.Set("x-locale", LocaleCode(language));
    }
    if headers.Has("dorefresh") {
      headers.Delete("dorefresh");
    } else if AuthStore.Truthy(token) {
      headers.Set("authorization", "Bearer " + token.value);
    }
  }

  /** `(data as { errorMessage?: string } | undefined)?.errorMessage`,
      `None` when it is undefined or null. */
  function ErrorMessage(data: Option<Json>): (r: Option<Json>)
    ensures r.Some? ==> r.value != JNull && data.Some? && data.value.JObj? && Get(data.value.fields, "errorMessage") == r
    ensures data.Some? && data.value.JObj? && Get(data.value.fields, "errorMessage").Some? && r.None? ==>
      Get(data.value.fields, "errorMessage") == Some(JNull)
  {
    match data
    case Some(JObj(fields)) =>
      (match Get(fields, "errorMessage")
       case Some(JNull) => None
       case m => m)
    case _ => None
  }

  /** How the call reads a result (lines 57-63). */
  datatype Classification = Ordinary | AuthFailure | ClassifyThrows

  /** A failure is an auth failure exactly when its status is 401, or 500
      with an `errorMessage` whose lower-cased text contains "token"; an
      `errorMessage` that is there but is not a string makes the test throw,
      and only for a 500. A success is never an auth failure. */
  function Classify(result: QueryResult): (c: Classification)
    ensures result.Data? ==> c == Ordinary
    ensures c == AuthFailure <==>
      result.Error? &&
      (result.error.status == Http(401) ||
       (result.error.status == Http(500) && ErrorMessage(result.error.data).Some? &&
        ErrorMessage(result.error.data).value.JStr? &&
        Contains(Lower(ErrorMessage(result.error.data).value.s), "token")))
    ensures c == ClassifyThrows <==>
      result.Error? && result.error.status == Http(500) &&
      ErrorMessage(result.error.data).Some? && !ErrorMessage(result.error.data).value.JStr?
  {
    match result
    case Data(_) => Ordinary
    case Error(QueryError(status, data)) =>
      if status == Http(401) then AuthFailure
      else if status != Http(500) then Ordinary
      else match ErrorMessage(data)
        case None => Ordinary
        case Some(JStr(s)) => if Contains(Lower(s), "token") then AuthFailure else Ordinary
        case Some(_) => ClassifyThrows
  }

  /** The refresh request (lines 74-82). */
  function RefreshArgs(base: string, refreshToken: string): QueryArgs {
    FetchArgs(base + "/auth/refesh-token/", Some("POST"), Some(JObj([Field("refresh_token", JStr(refreshToken))])), map["dorefresh" := "true"])
  }

  /** The refresh request goes out without the marker and without an
      `Authorization` header, whatever the session holds: the stale token is
      never sent to the refresh endpoint. */
  lemma RefreshCarriesNoBearer(base: string, refreshToken: string, language: string, token: Option<string>)
    ensures var h := Prepared(InitialHeaders(RefreshArgs(base, refreshToken)), language, token);
            "authorization" !in h && "dorefresh" !in h &&
            "content-type" in h && h["content-type"] == "application/json" &&
            "x-locale" in h && h["x-locale"] == LocaleCode(language)
  {
    var h := InitialHeaders(RefreshArgs(base, refreshToken));
    PreparedMeaning(h, language, token, "");
  }

  /** A token field of the refresh response, read as a string. */
  function TokenText(v: Option<Json>): (r: Option<string>)
    ensures r.Some? <==> v.Some? && v.value.JStr?
  {
    match v
    case Some(JStr(s)) => Some(s)
    case _ => None
  }

  /** The session a refresh response gives (lines 86-91): present when the
      response data has a truthy `access_token`, made of it and
      `fresh_token`. */
  function RefreshedSession(result: QueryResult): (r: Option<AuthState>)
    ensures r.Some? <==>
      result.Data? && result.value.JObj? && Get(result.value.fields, "access_token").Some? &&
      JsonValue.Truthy(Get(result.value.fields, "access_token").value)
    ensures r.Some? ==>
      r.value.token == TokenText(Get(result.value.fields, "access_token")) &&
      r.value.refreshToken == TokenText(Get(result.value.fields, "fresh_token"))
  {
    match result
    case Data(JObj(fields)) =>
      var accessToken := Get(fields, "access_token");
      if accessToken.Some? && JsonValue.Truthy(accessToken.value) then
        Some(AuthState(TokenText(accessToken), TokenText(Get(fields, "fresh_token"))))
      else None
    case _ => None
  }

  /** The parts of the store and of the process that a call reads and
      writes. */
  class ApiClient {
    var auth: AuthState
    var apiUrl: Option<string>
    var language: string
    var locked: bool
    var sent: seq<Request>
    var dispatched: seq<AuthAction>
    var lockEvents: seq<LockEvent>

    constructor (apiUrl: Option<string>, language: string)
      ensures this.apiUrl == apiUrl && this.language == language
      ensures auth == InitialState && !locked
      ensures sent == [] && dispatched == [] && lockEvents == []
    {
      this.apiUrl := apiUrl;
      this.language := language;
      auth := InitialState;
      locked := false;
      sent := [];
      dispatched := [];
      lockEvents := [];
    }

    /** `baseQuery(args)`: prepares the headers with the current session's
        token and hands the request to the transport. */
    method Send(args: QueryArgs, transport: (Request, nat) -> Sent) returns (out: Sent)
      modifies this
      ensures language == old(language) && apiUrl == old(apiUrl)
      ensures sent == old(sent) + [Request(args, Prepared(InitialHeaders(args), language, auth.token))]
      ensures out == transport(sent[|old(sent)|], |old(sent)|)
      ensures auth == old(auth) && locked == old(locked)
      ensures dispatched == old(dispatched) && lockEvents == old(lockEvents)
    {
      var headers := new Headers(InitialHeaders(args));
      PrepareHeaders(headers, language, auth.token);
      var request := Request(args, headers.entries);
      out := transport(request, |sent|);
      sent := sent + [request];
    }

    /** `api.dispatch(action)` on the `auth` slice. */
    method Dispatch(action: AuthAction)
      modifies this
      ensures language == old(language) && apiUrl == old(apiUrl)
      ensures dispatched == old(dispatched) + [action]
      ensures auth == Reduce(old(auth), action)
      ensures sent == old(sent) && locked == old(locked) && lockEvents == old(lockEvents)
    {
      dispatched := dispatched + [action];
      auth := Reduce(auth, action);
    }

    /** What follows the refresh request's answer (lines 86-95): on a new
        access token the session is replaced and the original request
        re-sent, otherwise logout. */
    method AfterRefresh(refreshed: QueryResult, adjusted: QueryArgs, transport: (Request, nat) -> Sent)
      returns (raised: bool, retried: Option<QueryResult>)
      modifies this
      ensures language == old(language) && apiUrl == old(apiUrl)
      ensures locked == old(locked) && lockEvents == old(lockEvents)
      ensures RefreshedSession(refreshed).None? ==>
        !raised && retried.None? && sent == old(sent) &&
        dispatched == old(dispatched) + [Logout] && auth == InitialState
      ensures RefreshedSession(refreshed).Some? ==>
        var session := RefreshedSession(refreshed).value;
        var retry := Request(adjusted, Prepared(InitialHeaders(adjusted), language, session.token));
        var again := transport(retry, |old(sent)|);
        sent == old(sent) + [retry] && dispatched == old(dispatched) + [UpdateAuthState(session)] && auth == session &&
        (raised <==> again.Raised?) && (again.Answered? ==> retried == Some(again.result)) &&
        (again.Raised? ==> retried.None?)
    {
      raised := false;
      retried := None;
      var session := RefreshedSession(refreshed);
      if session.Some? {
        Dispatch(UpdateAuthState(session.value));
        var again := Send(adjusted, transport);
        if again.Raised? {
          raised := true;
        } else {
          retried := Some(again.result);
        }
      } else {
        Dispatch(Logout);
      }
    }

    /** The body of the `try` (lines 74-95): one refresh request, then
        `AfterRefresh`. */
    method Refresh(base: string, refreshToken: string, adjusted: QueryArgs, transport: (Request, nat) -> Sent)
      returns (raised: bool, retried: Option<QueryResult>)
      modifies this
      ensures language == old(language) && apiUrl == old(apiUrl)
      ensures locked == old(locked) && lockEvents == old(lockEvents)
      ensures var request := Request(RefreshArgs(base, refreshToken), Prepared(map["dorefresh" := "true"], language, old(auth).token));
        var refreshed := transport(request, |old(sent)|);
        (refreshed.Raised? ==>
           raised && retried.None? && sent == old(sent) + [request] && dispatched == old(dispatched) && auth == old(auth)) &&
        (refreshed.Answered? && RefreshedSession(refreshed.result).None? ==>
           !raised && retried.None? && sent == old(sent) + [request] &&
           dispatched == old(dispatched) + [Logout] && auth == InitialState) &&
        (refreshed.Answered? && RefreshedSession(refreshed.result).Some? ==>
           var session := RefreshedSession(refreshed.result).value;
           var retry := Request(adjusted, Prepared(InitialHeaders(adjusted), language, session.token));
           var again := transport(retry, |old(sent)| + 1);
           sent == old(sent) + [request] + [retry] && dispatched == old(dispatched) + [UpdateAuthState(session)] &&
           auth == session && (raised <==> again.Raised?) && (again.Answered? ==> retried == Some(again.result)) &&
           (again.Raised? ==> retried.None?))
    {
      ghost var request := Request(RefreshArgs(base, refreshToken), Prepared(map["dorefresh" := "true"], language, auth.token));
      assert InitialHeaders(RefreshArgs(base, refreshToken)) == map["dorefresh" := "true"];
      var refreshed := Send(RefreshArgs(base, refreshToken), transport);
      assert sent == old(sent) + [request];
      assert refreshed == transport(request, |old(sent)|);
      if refreshed.Raised? {
        raised := true;
        retried := None;
      } else {
        raised, retried := AfterRefresh(refreshed.result, adjusted, transport);
      }
    }

    /** The locked section (lines 72-98): the lock is taken, `Refresh` runs,
        and the lock is released whatever happens, the transport throwing
        included. */
    method Reauthenticate(base: string, refreshToken: string, adjusted: QueryArgs, transport: (Request, nat) -> Sent)
      returns (raised: bool, retried: Option<QueryResult>)
      requires !locked
      modifies this
      ensures language == old(language) && apiUrl == old(apiUrl)
      ensures !locked && lockEvents == old(lockEvents) + [Acquired, Released]
      ensures var request := Request(RefreshArgs(base, refreshToken), Prepared(map["dorefresh" := "true"], language, old(auth).token));
        var refreshed := transport(request, |old(sent)|);
        (refreshed.Raised? ==>
           raised && retried.None? && sent == old(sent) + [request] && dispatched == old(dispatched) && auth == old(auth)) &&
        (refreshed.Answered? && RefreshedSession(refreshed.result).None? ==>
           !raised && retried.None? && sent == old(sent) + [request] &&
           dispatched == old(dispatched) + [Logout] && auth == InitialState) &&
        (refreshed.Answered? && RefreshedSession(refreshed.result).Some? ==>
           var session := RefreshedSession(refreshed.result).value;
           var retry := Request(adjusted, Prepared(InitialHeaders(adjusted), language, session.token));
           var again := transport(retry, |old(sent)| + 1);
           sent == old(sent) + [request] + [retry] && dispatched == old(dispatched) + [UpdateAuthState(session)] &&
           auth == session && (raised <==> again.Raised?) && (again.Answered? ==> retried == Some(again.result)) &&
           (again.Raised? ==> retried.None?))
    {
      locked := true;
      lockEvents := lockEvents + [Acquired];
      raised, retried := Refresh(base, refreshToken, adjusted, transport);
      locked := false;
      lockEvents := lockEvents + [Released];
    }

    /** The handling of an auth failure (lines 65-102). `locked` is the lock
        as the failure is examined; `snapshot` is the session the call read
        when it started. */
    method HandleAuthFailure(snapshot: AuthState, base: string, adjusted: QueryArgs, failed: QueryResult,
                             transport: (Request, nat) -> Sent, others: Others)
      returns (r: CallOutcome)
      modifies this
      ensures language == old(language) && apiUrl == old(apiUrl)
      // Another request holds the lock: wait for it, re-send once.
      ensures old(locked) ==>
        var retry := Request(adjusted, Prepared(InitialHeaders(adjusted), language, others.sessionAfterWait.token));
        var again := transport(retry, |old(sent)|);
        sent == old(sent) + [retry] && !locked && auth == others.sessionAfterWait &&
        dispatched == old(dispatched) && lockEvents == old(lockEvents) &&
        (again.Answered? ==> r == Returned(again.result)) && (again.Raised? ==> r == Threw(TransportRaised))
      // The lock is free and there is a refresh token: refresh under the lock.
      ensures !old(locked) && AuthStore.Truthy(snapshot.refreshToken) ==>
        var request := Request(RefreshArgs(base, snapshot.refreshToken.value),
                               Prepared(map["dorefresh" := "true"], language, old(auth).token));
        var refreshed := transport(request, |old(sent)|);
        !locked && lockEvents == old(lockEvents) + [Acquired, Released] &&
        (refreshed.Raised? ==> r == Threw(TransportRaised) && sent == old(sent) + [request] && dispatched == old(dispatched)) &&
        (refreshed.Answered? && RefreshedSession(refreshed.result).None? ==>
           r == Returned(failed) && sent == old(sent) + [request] &&
           dispatched == old(dispatched) + [Logout] && auth == InitialState) &&
        (refreshed.Answered? && RefreshedSession(refreshed.result).Some? ==>
           var session := RefreshedSession(refreshed.result).value;
           var retry := Request(adjusted, Prepared(InitialHeaders(adjusted), language, session.token));
           var again := transport(retry, |old(sent)| + 1);
           sent == old(sent) + [request] + [retry] && dispatched == old(dispatched) + [UpdateAuthState(session)] &&
           auth == session &&
           (again.Answered? ==> r == Returned(again.result)) && (again.Raised? ==> r == Threw(TransportRaised)))
      // The lock is free and there is no refresh token: logout exactly when
      // there is an access token; the failure is returned.
      ensures !old(locked) && !AuthStore.Truthy(snapshot.refreshToken) ==>
        sent == old(sent) && locked == old(locked) && lockEvents == old(lockEvents) && r == Returned(failed) &&
        dispatched == old(dispatched) + (if AuthStore.Truthy(snapshot.token) then [Logout] else [])
    {
      if locked {
        locked := false;
        auth := others.sessionAfterWait;
        var again := Send(adjusted, transport);
        if again.Raised? {
          return Threw(TransportRaised);
        }
        return Returned(again.result);
      } else if AuthStore.Truthy(snapshot.refreshToken) {
        var raised, retried := Reauthenticate(base, snapshot.refreshToken.value, adjusted, transport);
        if raised {
          return Threw(TransportRaised);
        }
        return Returned(retried.GetOr(failed));
      } else if AuthStore.Truthy(snapshot.token) {
        Dispatch(Logout);
      }
      return Returned(failed);
    }

    /** `dynamicBaseQueryWithReauth(args)`. The session and base URL are
        read once at the start (line 43); the headers of every request read
        the session current when it is sent. */
    method Call(args: QueryArgs, isUrl: string -> bool, transport: (Request, nat) -> Sent, others: Others)
      returns (r: CallOutcome)
      modifies this
      ensures language == old(language) && apiUrl == old(apiUrl)
      // No base URL: the call throws and nothing happens.
      ensures !Given(old(apiUrl)) ==>
        r == Threw(MissingApiUrl) && sent == old(sent) && dispatched == old(dispatched) &&
        lockEvents == old(lockEvents) && auth == old(auth) && locked == old(locked)
      // The lock is taken only for a refresh, and then released.
      ensures lockEvents == old(lockEvents) || (lockEvents == old(lockEvents) + [Acquired, Released] && !locked)
      // Otherwise the adjusted request goes out first, with the session left
      // by any wait for the lock; what follows is at most a refresh and at
      // most one re-send of the same args.
      ensures Given(old(apiUrl)) ==>
        var adjusted := AdjustArgs(old(apiUrl), args, isUrl).value;
        var session := if old(locked) then others.sessionAfterEntryWait else old(auth);
        var request := Request(adjusted, Prepared(InitialHeaders(adjusted), language, session.token));
        var first := transport(request, |old(sent)|);
        // The transport throwing on the first request, or a result the
        // classification throws on, ends the call.
        (first.Raised? ==> r == Threw(TransportRaised) && sent == old(sent) + [request]) &&
        (first.Answered? && Classify(first.result) == ClassifyThrows ==>
           r == Threw(ErrorMessageNotText) && sent == old(sent) + [request] && dispatched == old(dispatched)) &&
        // Anything but an auth failure is returned untouched.
        (first.Answered? && Classify(first.result) == Ordinary ==>
           r == Returned(first.result) && sent == old(sent) + [request] &&
           dispatched == old(dispatched) && lockEvents == old(lockEvents)) &&
        // An auth failure while another request holds the lock: wait, re-send
        // once with the session that request left, return that.
        (first.Answered? && Classify(first.result) == AuthFailure && others.lockTakenDuringSend ==>
           var retry := Request(adjusted, Prepared(InitialHeaders(adjusted), language, others.sessionAfterWait.token));
           var again := transport(retry, |old(sent)| + 1);
           sent == old(sent) + [request] + [retry] && !locked && auth == others.sessionAfterWait &&
           dispatched == old(dispatched) && lockEvents == old(lockEvents) &&
           (again.Answered? ==> r == Returned(again.result)) && (again.Raised? ==> r == Threw(TransportRaised))) &&
        // An auth failure with the lock free and a refresh token (as read at
        // the start): one refresh under the lock.
        (first.Answered? && Classify(first.result) == AuthFailure && !others.lockTakenDuringSend &&
         AuthStore.Truthy(old(auth).refreshToken) ==>
           var refresh := Request(RefreshArgs(old(apiUrl).value, old(auth).refreshToken.value),
                                  Prepared(map["dorefresh" := "true"], language, session.token));
           var refreshed := transport(refresh, |old(sent)| + 1);
           !locked && lockEvents == old(lockEvents) + [Acquired, Released] &&
           (refreshed.Raised? ==>
              r == Threw(TransportRaised) && sent == old(sent) + [request] + [refresh] && dispatched == old(dispatched)) &&
           (refreshed.Answered? && RefreshedSession(refreshed.result).None? ==>
              sent == old(sent) + [request] + [refresh] && dispatched == old(dispatched) + [Logout] &&
              auth == InitialState && r == Returned(first.result)) &&
           (refreshed.Answered? && RefreshedSession(refreshed.result).Some? ==>
              var newSession := RefreshedSession(refreshed.result).value;
              var retry := Request(adjusted, Prepared(InitialHeaders(adjusted), language, newSession.token));
              var again := transport(retry, |old(sent)| + 2);
              sent == old(sent) + [request] + [refresh] + [retry] && auth == newSession &&
              dispatched == old(dispatched) + [UpdateAuthState(newSession)] &&
              (again.Answered? ==> r == Returned(again.result)) && (again.Raised? ==> r == Threw(TransportRaised)))) &&
        // An auth failure with the lock free and no refresh token: logout
        // exactly when there is an access token; the failure is returned.
        (first.Answered? && Classify(first.result) == AuthFailure && !others.lockTakenDuringSend &&
         !AuthStore.Truthy(old(auth).refreshToken) ==>
           sent == old(sent) + [request] && lockEvents == old(lockEvents) && r == Returned(first.result) &&
           dispatched == old(dispatched) + (if AuthStore.Truthy(old(auth).token) then [Logout] else []))
    {
      var state := auth;
      var base := apiUrl;
      var adjustedArgs := AdjustArgs(base, args, isUrl);
      if adjustedArgs.Err? {
        return Threw(adjustedArgs.error);
      }
      var adjusted := adjustedArgs.value;
      if locked {
        // Waiting for the lock another request holds.
        locked := false;
        auth := others.sessionAfterEntryWait;
      }
      ghost var request := Request(adjusted, Prepared(InitialHeaders(adjusted), language, auth.token));
      var first := Send(adjusted, transport);
      assert sent == old(sent) + [request];
      if first.Raised? {
        return Threw(TransportRaised);
      }
      if others.lockTakenDuringSend {
        locked := true;
      }
      var kind := Classify(first.result);
      if kind == ClassifyThrows {
        return Threw(ErrorMessageNotText);
      }
      if kind == Ordinary {
        return Returned(first.result);
      }
      r := HandleAuthFailure(state, base.value, adjusted, first.result, transport, others);
    }
  }
}
