/**
 * The conversation with the device: the classification of a transfer's
 * outcome (checkError), the request with its single re-login and retry
 * (jsonRequest), the login form post (login) and the cookie file name.
 *
 * The network is an oracle: the n-th transfer of the run receives
 * `replies(n)`, and every transfer is logged in `sent`. A transfer's outcome
 * holds what curl reports (its error text, the body and the effective URL
 * after redirects) and the value json_decode makes of the body.
 */
module Session {
  import opened Wrappers
  import opened Text
  import opened Json

  datatype Credentials = Credentials(hostname: string, username: string, password: string)

  /** One HTTP transfer: a GET when `post` is None, else a POST of that form. */
  datatype Request = Request(url: string, post: Option<string>)

  datatype Outcome = Outcome(curlError: string, body: string, effectiveUrl: string, decoded: Value)

  datatype Network = Network(replies: nat -> Outcome, sent: seq<Request>)

  /**
   * The three exception classes: ThecusException, and its two subclasses
   * ThecusAuthenticationException and ThecusAuthorizationException.
   */
  datatype Error = Generic(msg: string) | Authentication(msg: string) | Authorization(msg: string)

  /** The result of a request (the decoded reply or the exception raised) and the network after it. */
  datatype Exchange = Exchange(result: Result<Value, Error>, net: Network)

  const LogoutIndicator := "/adm/logout.php"
  const UnauthUri := "/unauth.htm"
  const InUseUri := "/adm/inuse.htm"
  const LoginUri := "/adm/login.php"

  const NotAuthorized := "Not authorized"
  const LoginFailed := "Thecus login failed"
  const AlreadyLoggedIn := "Admin has already logged in from another host"

  /** The reply the next transfer receives. */
  function NextReply(net: Network): Outcome {
    net.replies(|net.sent|)
  }

  /** checkError: the exception a transfer's outcome raises, the checks taken in this order. */
  function CheckError(o: Outcome): Option<Error> {
    if !Empty(o.curlError) then Some(Generic(o.curlError))
    else if Contains(o.body, LogoutIndicator) then Some(Authorization(NotAuthorized))
    else if HasTail(o.effectiveUrl, UnauthUri) then Some(Authentication(LoginFailed))
    else if HasTail(o.effectiveUrl, InUseUri) then Some(Generic(AlreadyLoggedIn))
    else None
  }

  /** The body shows the device's logout page at some position. */
  ghost predicate ShowsLogout(o: Outcome) {
    exists i :: OccursAt(o.body, LogoutIndicator, i)
  }

  /** The transfer was redirected to a page whose path ends in `uri`. */
  ghost predicate RedirectedTo(o: Outcome, uri: string) {
    |uri| <= |o.effectiveUrl| && o.effectiveUrl[|o.effectiveUrl| - |uri|..] == uri
  }

  /**
   * The classification stated with the conditions it tests written out: a
   * curl error wins over everything, a logout page in the body over the
   * redirects, and a transfer that shows none of them raises nothing.
   */
  lemma CheckErrorPriority(o: Outcome)
    ensures CheckError(o) == None <==>
      Empty(o.curlError) && !ShowsLogout(o) && !RedirectedTo(o, UnauthUri) && !RedirectedTo(o, InUseUri)
    ensures !Empty(o.curlError) ==> CheckError(o) == Some(Generic(o.curlError))
    ensures (CheckError(o) == Some(Authorization(NotAuthorized))) <==> Empty(o.curlError) && ShowsLogout(o)
    ensures (CheckError(o) == Some(Authentication(LoginFailed))) <==>
      Empty(o.curlError) && !ShowsLogout(o) && RedirectedTo(o, UnauthUri)
    ensures CheckError(o).Some? && CheckError(o).value.Authorization? ==> CheckError(o).value.msg == NotAuthorized
    ensures CheckError(o).Some? && CheckError(o).value.Authentication? ==> CheckError(o).value.msg == LoginFailed
  {
    ContainsIff(o.body, LogoutIndicator);
    HasTailIsSuffix(o.effectiveUrl, UnauthUri);
    HasTailIsSuffix(o.effectiveUrl, InUseUri);
  }

  /** The URL of a request: plain http to the configured host. */
  function Url(hostname: string, uri: string): string {
    "http://" + hostname + uri
  }

  /** The fields of login's form post, each `name=value` with the value URL-encoded. */
  function LoginFields(cred: Credentials): seq<string> {
    ["username=" + UrlEncode(cred.username), "pwd=" + UrlEncode(cred.password),
     "p_user=" + UrlEncode(cred.username), "p_pass=" + UrlEncode(cred.password),
     "action=login", "option=com_extplorer", "eplang=english"]
  }

  /** The form login posts: its fields joined by '&', as login concatenates them. */
  function LoginForm(cred: Credentials): string {
    Join(LoginFields(cred), "&")
  }

  lemma LoginFieldsFree(cred: Credentials)
    ensures forall i :: 0 <= i < |LoginFields(cred)| ==> '&' !in LoginFields(cred)[i]
  {
    UrlEncodeHasNoSeparators(cred.username);
    UrlEncodeHasNoSeparators(cred.password);
  }

  /**
   * The form splits back into its seven fields at '&', whatever the
   * credentials contain, and the user name and password decode back from
   * their fields: URL-encoding keeps '&' out of the values.
   */
  lemma LoginFormRoundTrip(cred: Credentials)
    ensures Split(LoginForm(cred), '&') == LoginFields(cred)
    ensures UrlDecode(LoginFields(cred)[0][|"username="|..]) == cred.username
    ensures UrlDecode(LoginFields(cred)[1][|"pwd="|..]) == cred.password
  {
    var fs := LoginFields(cred);
    LoginFieldsFree(cred);
    SplitJoin(fs, '&');
    UrlRoundTrip(cred.username);
    UrlRoundTrip(cred.password);
    assert fs[0][|"username="|..] == UrlEncode(cred.username);
    assert fs[1][|"pwd="|..] == UrlEncode(cred.password);
  }

  /**
   * jsonRequest: one transfer; an authorization failure with `autoLogin`
   * set leads to login and then to the same request once more, now with
   * `autoLogin` false. Every other exception propagates.
   */
  function JsonRequest(cred: Credentials, uri: string, post: Option<string>, autoLogin: bool, net: Network): Exchange
    decreases if autoLogin then 2 else 0
  {
    var reply := NextReply(net);
    var net1 := net.(sent := net.sent + [Request(Url(cred.hostname, uri), post)]);
    var err := CheckError(reply);
    if err.None? then Exchange(Success(reply.decoded), net1)
    else if err.value.Authorization? && autoLogin then
      var login := Login(cred, net1);
      if login.result.Failure? then login
      else JsonRequest(cred, uri, post, false, login.net)
    else Exchange(Failure(err.value), net1)
  }

  /**
   * login: posts the form without automatic re-login and raises an
   * authentication error, with the device's message, unless the reply says
   * success is "true".
   */
  function Login(cred: Credentials, net: Network): Exchange
    decreases 1
  {
    var ex := JsonRequest(cred, LoginUri, Some(LoginForm(cred)), false, net);
    if ex.result.Failure? then ex
    else if LooseEquals(Field(ex.result.value, "success"), "true") then ex
    else Exchange(Failure(Authentication(ToText(Field(Field(ex.result.value, "errormsg"), "msg")))), ex.net)
  }

  function RequestOf(cred: Credentials, uri: string, post: Option<string>): Request {
    Request(Url(cred.hostname, uri), post)
  }

  function LoginRequest(cred: Credentials): Request {
    RequestOf(cred, LoginUri, Some(LoginForm(cred)))
  }

  /** Without automatic re-login a request is exactly one transfer, classified by checkError. */
  lemma SingleTransfer(cred: Credentials, uri: string, post: Option<string>, net: Network)
    ensures var ex := JsonRequest(cred, uri, post, false, net);
      && ex.net == net.(sent := net.sent + [RequestOf(cred, uri, post)])
      && (CheckError(NextReply(net)).None? ==> ex.result == Success(NextReply(net).decoded))
      && (CheckError(NextReply(net)).Some? ==> ex.result == Failure(CheckError(NextReply(net)).value))
  {
  }

  /** login makes one transfer, the form post, and succeeds exactly when the reply is accepted and says success. */
  lemma LoginShape(cred: Credentials, net: Network)
    ensures var ex := Login(cred, net); var reply := NextReply(net);
      && ex.net == net.(sent := net.sent + [LoginRequest(cred)])
      && (ex.result.Success? <==> CheckError(reply).None? && LooseEquals(Field(reply.decoded, "success"), "true"))
      && (ex.result.Success? ==> ex.result.value == reply.decoded)
  {
    SingleTransfer(cred, LoginUri, Some(LoginForm(cred)), net);
  }

  /**
   * Bounded re-login: a request is one transfer, or (only with autoLogin and
   * an authorization failure on the first transfer) the transfer and a login,
   * or the transfer, a login and one retry of the same request. The oracle
   * itself is never changed.
   */
  lemma {:induction false} RequestTrace(cred: Credentials, uri: string, post: Option<string>, autoLogin: bool, net: Network)
    ensures var ex := JsonRequest(cred, uri, post, autoLogin, net);
      var req := RequestOf(cred, uri, post);
      var first := CheckError(NextReply(net));
      && ex.net.replies == net.replies
      && (ex.net.sent == net.sent + [req]
          || (autoLogin && first == Some(Authorization(NotAuthorized))
              && (ex.net.sent == net.sent + [req, LoginRequest(cred)]
                  || ex.net.sent == net.sent + [req, LoginRequest(cred), req])))
      && |net.sent| < |ex.net.sent| <= |net.sent| + 3
  {
    var req := RequestOf(cred, uri, post);
    var net1 := net.(sent := net.sent + [req]);
    var first := CheckError(NextReply(net));
    if first.Some? && first.value.Authorization? && autoLogin {
      CheckErrorPriority(NextReply(net));
      LoginShape(cred, net1);
      var login := Login(cred, net1);
      if login.result.Success? {
        SingleTransfer(cred, uri, post, login.net);
        assert net1.sent + [LoginRequest(cred)] + [req] == net.sent + [req, LoginRequest(cred), req];
      } else {
        assert net1.sent + [LoginRequest(cred)] == net.sent + [req, LoginRequest(cred)];
      }
    } else {
      SingleTransfer(cred, uri, post, net);
    }
  }

  /**
   * Errors other than an authorization failure propagate after the one
   * transfer, and so does an authorization failure when autoLogin is off.
   */
  lemma {:induction false} OtherErrorsPropagate(cred: Credentials, uri: string, post: Option<string>, autoLogin: bool, net: Network)
    requires CheckError(NextReply(net)).Some?
    requires !CheckError(NextReply(net)).value.Authorization? || !autoLogin
    ensures var ex := JsonRequest(cred, uri, post, autoLogin, net);
      && ex.result == Failure(CheckError(NextReply(net)).value)
      && ex.net.sent == net.sent + [RequestOf(cred, uri, post)]
  {
  }

  /**
   * A failing login ends the request: its exception propagates and the
   * request is not retried.
   */
  lemma {:induction false} LoginFailureStops(cred: Credentials, uri: string, post: Option<string>, net: Network)
    requires CheckError(NextReply(net)).Some? && CheckError(NextReply(net)).value.Authorization?
    requires Login(cred, net.(sent := net.sent + [RequestOf(cred, uri, post)])).result.Failure?
    ensures var ex := JsonRequest(cred, uri, post, true, net);
      && ex.result.Failure?
      && ex.net.sent == net.sent + [RequestOf(cred, uri, post), LoginRequest(cred)]
  {
    LoginShape(cred, net.(sent := net.sent + [RequestOf(cred, uri, post)]));
  }

  /**
   * When the retry after a successful login is refused again, the
   * authorization error propagates instead of leading to another login.
   */
  lemma {:induction false} RetryRefusedPropagates(cred: Credentials, uri: string, post: Option<string>, net: Network)
    requires CheckError(NextReply(net)).Some? && CheckError(NextReply(net)).value.Authorization?
    requires CheckError(net.replies(|net.sent| + 1)).None?
    requires LooseEquals(Field(net.replies(|net.sent| + 1).decoded, "success"), "true")
    requires CheckError(net.replies(|net.sent| + 2)).Some? && CheckError(net.replies(|net.sent| + 2)).value.Authorization?
    ensures var ex := JsonRequest(cred, uri, post, true, net);
      && ex.result == Failure(Authorization(NotAuthorized))
      && ex.net.sent == net.sent + [RequestOf(cred, uri, post), LoginRequest(cred), RequestOf(cred, uri, post)]
  {
    var req := RequestOf(cred, uri, post);
    var net1 := net.(sent := net.sent + [req]);
    LoginShape(cred, net1);
    var login := Login(cred, net1);
    assert |login.net.sent| == |net.sent| + 2;
    CheckErrorPriority(net.replies(|net.sent| + 2));
    SingleTransfer(cred, uri, post, login.net);
    assert login.net.sent + [req] == net.sent + [req, LoginRequest(cred), req];
  }

  /** getCookieFilename: one cookie file per host and user name in the cookie directory. */
  function CookieFilename(cookieDir: string, hostname: string, username: string): string {
    cookieDir + "/check_thecus_nas-" + hostname + "-" + username + "-cookie.txt"
  }

  /** For host names without '-', different (host, user) pairs get different cookie files. */
  lemma CookieFilenameInjective(dir: string, h1: string, u1: string, h2: string, u2: string)
    requires '-' !in h1 && '-' !in h2
    requires CookieFilename(dir, h1, u1) == CookieFilename(dir, h2, u2)
    ensures h1 == h2 && u1 == u2
  {
    var p := dir + "/check_thecus_nas-";
    var s := "-cookie.txt";
    assert CookieFilename(dir, h1, u1) == p + (h1 + "-" + (u1 + s));
    assert CookieFilename(dir, h2, u2) == p + (h2 + "-" + (u2 + s));
    CancelPrefix(p, h1 + "-" + (u1 + s), h2 + "-" + (u2 + s));
    SplitAtHyphen(h1, u1 + s, h2, u2 + s);
    CancelSuffix(u1, u2, s);
  }

  lemma CancelPrefix(p: string, a: string, b: string)
    requires p + a == p + b
    ensures a == b
  {
    assert a == (p + a)[|p|..];
    assert b == (p + b)[|p|..];
  }

  lemma CancelSuffix(a: string, b: string, s: string)
    requires a + s == b + s
    ensures a == b
  {
    assert a == (a + s)[..|a|];
    assert b == (b + s)[..|b|];
  }

  lemma SplitAtHyphen(h1: string, r1: string, h2: string, r2: string)
    requires '-' !in h1 && '-' !in h2
    requires h1 + "-" + r1 == h2 + "-" + r2
    ensures h1 == h2 && r1 == r2
  {
    var a, b := h1 + "-" + r1, h2 + "-" + r2;
    IndexOfAfterWord(h1, '-', r1, 0);
    IndexOfAfterWord(h2, '-', r2, 0);
    assert |h1| == |h2|;
    assert h1 == a[..|h1|] && h2 == b[..|h2|];
    assert r1 == a[|h1| + 1..] && r2 == b[|h2| + 1..];
  }

  /** A '-' in the host name lets two different accounts share a cookie file. */
  lemma CookieFilenameCollision(dir: string)
    ensures CookieFilename(dir, "a-b", "c") == CookieFilename(dir, "a", "b-c")
  {
    assert dir + "/check_thecus_nas-" + "a-b" + "-" + "c" == dir + "/check_thecus_nas-" + "a" + "-" + "b-c";
  }
}
