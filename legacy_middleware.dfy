/** The older `verifyauth` middleware of middleware/middleware.js, as the statement sequence it is.
    Each response call and each call to `next` is appended to a log, in the order they happen.
    Express's `res` refuses a header change once the response is sent: that refusal is a throw
    (ERR_HTTP_HEADERS_SENT), logged as the last action. */
module LegacyMiddleware {
  import opened Wrappers
  import Auth

  /** The cookie the catch branch clears: not `jwt`, the cookie the token is read from */
  const ClearedCookie := "ayush"

  /** The effects verifyauth can have on the exchange. `HeadersSentError` is the exception a
      response call raises after the response has been sent. */
  datatype Action = Redirect(location: string) | ClearCookie(name: string) | CallNext | HeadersSentError
  {
    /** A call on `res` that sets headers, and so throws once the response is sent */
    predicate SetsHeaders() {
      Redirect? || ClearCookie?
    }
  }

  /** `verifytoken(token)`, i.e. `jwt.verify`: a payload, truthy or not, or a throw. jsonwebtoken
      throws for an undefined token ("jwt must be provided"). */
  datatype Verification = Payload(truthy: bool) | Threw

  /** Redirects send the response; the number of them in a log */
  function Responses(log: seq<Action>): (n: nat)
    ensures n <= |log|
  {
    if log == [] then 0 else (if log[0].Redirect? then 1 else 0) + Responses(log[1..])
  }

  lemma {:induction false} ResponsesAppend(a: seq<Action>, b: seq<Action>)
    ensures Responses(a + b) == Responses(a) + Responses(b)
  {
    if a != [] {
      assert (a + b)[0] == a[0] && (a + b)[1..] == a[1..] + b;
      ResponsesAppend(a[1..], b);
    } else {
      assert a + b == b;
    }
  }

  /** What `res` makes of the calls the code attempts, in order. `sent` says whether the response
      has already gone out. A header-setting call after that throws, and the throw ends the
      sequence: verifyauth's only such calls are in its catch block, so nothing catches it. */
  function Perform(attempts: seq<Action>, sent: bool): (log: seq<Action>)
    ensures |log| <= |attempts|
    ensures HeadersSentError !in attempts && HeadersSentError in log ==>
      log[|log| - 1] == HeadersSentError && HeadersSentError !in log[..|log| - 1]
  {
    if attempts == [] then []
    else if sent && attempts[0].SetsHeaders() then [HeadersSentError]
    else [attempts[0]] + Perform(attempts[1..], sent || attempts[0].Redirect?)
  }

  /** `res` sends at most one response. None at all once one has gone out. A throw is the last
      thing that happens. */
  lemma {:induction false} PerformSendsAtMostOnce(attempts: seq<Action>, sent: bool)
    requires HeadersSentError !in attempts
    ensures Responses(Perform(attempts, sent)) <= (if sent then 0 else 1)
    ensures |Perform(attempts, sent)| <= |attempts|
  {
    if attempts != [] && !(sent && attempts[0].SetsHeaders()) {
      var rest := Perform(attempts[1..], sent || attempts[0].Redirect?);
      PerformSendsAtMostOnce(attempts[1..], sent || attempts[0].Redirect?);
      assert Perform(attempts, sent) == [attempts[0]] + rest;
      assert Responses([attempts[0]] + rest) == (if attempts[0].Redirect? then 1 else 0) + Responses(rest) by {
        assert ([attempts[0]] + rest)[1..] == rest;
      }
    }
  }

  /** When no header-setting call follows a redirect, `res` performs every call as attempted. */
  lemma {:induction false} PerformWithoutLateCalls(attempts: seq<Action>, sent: bool)
    requires forall i, j :: 0 <= i < j < |attempts| && attempts[i].Redirect? ==> !attempts[j].SetsHeaders()
    requires sent ==> forall j :: 0 <= j < |attempts| ==> !attempts[j].SetsHeaders()
    ensures Perform(attempts, sent) == attempts
  {
    if attempts != [] {
      assert !(sent && attempts[0].SetsHeaders());
      var sent' := sent || attempts[0].Redirect?;
      forall j | 0 <= j < |attempts[1..]| && sent'
        ensures !attempts[1..][j].SetsHeaders()
      {
        assert attempts[1..][j] == attempts[j + 1];
      }
      PerformWithoutLateCalls(attempts[1..], sent');
    }
  }

  /** The calls verifyauth attempts, as written. The redirect for a missing cookie has no
      `return`, so the token is verified anyway. A truthy payload calls `next`. A throw clears
      the `ayush` cookie and redirects. A falsy payload does nothing at all. */
  function AsWrittenAttempts(jwtCookie: Option<string>, user: Verification): (attempts: seq<Action>)
    ensures HeadersSentError !in attempts
    ensures CallNext in attempts <==> user == Payload(true)
    ensures ClearCookie(ClearedCookie) in attempts <==> user == Threw
  {
    (if jwtCookie.None? || jwtCookie == Some("") then [Redirect(Auth.LoginPage)] else []) +
    match user
    case Threw => [ClearCookie(ClearedCookie), Redirect(Auth.LoginPage)]
    case Payload(truthy) => if truthy then [CallNext] else []
  }

  /** What verifyauth does, as written. With a cookie, each verification result meets its own
      branch, and nothing throws. Without one, the first redirect sends the response. After it a
      throwing verification makes the catch block's `clearCookie` throw ERR_HTTP_HEADERS_SENT out of
      the middleware, and a truthy payload still calls `next`. */
  function AsWrittenLog(jwtCookie: Option<string>, user: Verification): (log: seq<Action>)
    ensures CallNext in log <==> user == Payload(true)
    ensures ClearCookie("jwt") !in log
    ensures Responses(log) <= 1
    ensures HeadersSentError in log <==> (jwtCookie.None? || jwtCookie == Some("")) && user == Threw
    ensures user == Payload(false) && jwtCookie.Some? && jwtCookie.value != "" ==> log == []
  {
    var attempts := AsWrittenAttempts(jwtCookie, user);
    PerformSendsAtMostOnce(attempts, false);
    Perform(attempts, false)
  }

  /** The log of each case, written out */
  lemma AsWrittenLogCases(jwtCookie: Option<string>, user: Verification)
    ensures var missing := jwtCookie.None? || jwtCookie == Some("");
      AsWrittenLog(jwtCookie, user) ==
        match user
        case Threw =>
          if missing then [Redirect(Auth.LoginPage), HeadersSentError]
          else [ClearCookie(ClearedCookie), Redirect(Auth.LoginPage)]
        case Payload(truthy) =>
          (if missing then [Redirect(Auth.LoginPage)] else []) + (if truthy then [CallNext] else [])
  {
    var attempts := AsWrittenAttempts(jwtCookie, user);
    if (jwtCookie.None? || jwtCookie == Some("")) && user == Threw {
      assert attempts == [Redirect(Auth.LoginPage), ClearCookie(ClearedCookie), Redirect(Auth.LoginPage)];
      assert attempts[1..] == [ClearCookie(ClearedCookie), Redirect(Auth.LoginPage)];
    } else {
      PerformWithoutLateCalls(attempts, false);
    }
  }

  /** verifyauth, statement by statement, with the headers-sent state of `res` */
  method VerifyAuth(jwtCookie: Option<string>, verifytoken: Option<string> -> Verification)
    returns (log: seq<Action>)
    ensures log == AsWrittenLog(jwtCookie, verifytoken(jwtCookie))
  {
    log := [];
    var sent := false;
    var token := jwtCookie;
    if token.None? || token.value == "" {
      log := log + [Redirect(Auth.LoginPage)];
      sent := true;
    }
    var user := verifytoken(token);
    if user.Threw? {
      if sent {
        log := log + [HeadersSentError];
        return;
      }
      log := log + [ClearCookie(ClearedCookie)];
      log := log + [Redirect(Auth.LoginPage)];
      AsWrittenLogCases(jwtCookie, user);
      return;
    }
    if user.truthy {
      log := log + [CallNext];
    }
    AsWrittenLogCases(jwtCookie, user);
  }

  /** The request with no `jwt` cookie: jsonwebtoken throws on the undefined token. So verifyauth
      as written redirects, and then its catch block's `clearCookie` throws ERR_HTTP_HEADERS_SENT,
      which escapes the middleware. */
  lemma MissingCookieThrowsAfterRedirect(verifytoken: Option<string> -> Verification)
    requires verifytoken(None) == Threw
    ensures AsWrittenLog(None, verifytoken(None)) == [Redirect(Auth.LoginPage), HeadersSentError]
    ensures Responses(AsWrittenLog(None, verifytoken(None))) == 1
  {
    var attempts := AsWrittenAttempts(None, Threw);
    assert attempts == [Redirect(Auth.LoginPage), ClearCookie(ClearedCookie), Redirect(Auth.LoginPage)];
    assert attempts[1..][1..] == [Redirect(Auth.LoginPage)];
    assert [Redirect(Auth.LoginPage), HeadersSentError][1..] == [HeadersSentError];
  }

  /** verifyauth with `return res.redirect("/login")` for the missing cookie, as its catch branch
      is written: a missing cookie never reaches the verifier. */
  function ReturningLog(jwtCookie: Option<string>, user: Verification): (log: seq<Action>)
    ensures jwtCookie.None? || jwtCookie == Some("") ==> log == [Redirect(Auth.LoginPage)]
    ensures jwtCookie.Some? && jwtCookie.value != "" ==> log == AsWrittenLog(jwtCookie, user)
  {
    AsWrittenLogCases(jwtCookie, user);
    if jwtCookie.None? || jwtCookie == Some("") then [Redirect(Auth.LoginPage)]
    else
      match user
      case Threw => [ClearCookie(ClearedCookie), Redirect(Auth.LoginPage)]
      case Payload(truthy) => if truthy then [CallNext] else []
  }

  /** With the `return`, `res` performs every call the middleware makes: nothing throws. Every
      request gets at most one response, and `next` is called only when no response was sent. */
  lemma AtMostOneResponse(jwtCookie: Option<string>, user: Verification)
    ensures Perform(ReturningLog(jwtCookie, user), false) == ReturningLog(jwtCookie, user)
    ensures HeadersSentError !in ReturningLog(jwtCookie, user)
    ensures Responses(ReturningLog(jwtCookie, user)) <= 1
    ensures CallNext in ReturningLog(jwtCookie, user) ==> Responses(ReturningLog(jwtCookie, user)) == 0
  {
    var log := ReturningLog(jwtCookie, user);
    if log == [ClearCookie(ClearedCookie), Redirect(Auth.LoginPage)] {
      assert log[1..] == [Redirect(Auth.LoginPage)];
    } else if log == [CallNext] {
      assert log[1..] == [];
    } else if log == [Redirect(Auth.LoginPage)] {
      assert log[1..] == [];
    }
    PerformWithoutLateCalls(log, false);
  }

  /** verifyauth with the missing `return` added */
  method VerifyAuthReturning(jwtCookie: Option<string>, verifytoken: Option<string> -> Verification)
    returns (log: seq<Action>)
    ensures log == ReturningLog(jwtCookie, verifytoken(jwtCookie))
  {
    log := [];
    var token := jwtCookie;
    if token.None? || token.value == "" {
      log := log + [Redirect(Auth.LoginPage)];
      return;
    }
    var user := verifytoken(token);
    if user.Threw? {
      log := log + [ClearCookie(ClearedCookie)];
      log := log + [Redirect(Auth.LoginPage)];
      return;
    }
    if user.truthy {
      log := log + [CallNext];
    }
  }
}
