/** The JWT middleware of middleware/auth.js: which token is used, and what `authenticateToken`
    and `isAdmin` answer. The signature check (`jwt.verify` with the server's secret) and the
    USER-table lookup are foreign calls, passed in as functions. */
module Auth {
  import opened Wrappers
  import opened Strings

  const NoTokenProvided := "Access denied. No token provided."
  const InvalidToken := "Invalid token"
  const InvalidOrExpiredToken := "Invalid or expired token"
  const AdminRightsRequired := "Access denied. Admin rights required."
  const LoginPage := "/login"
  const AdminRole := "admin"

  /** A JavaScript string value is truthy when it is defined and not empty. */
  predicate Truthy(s: Option<string>) {
    s.Some? && s.value != ""
  }

  /** A JavaScript number is truthy when it is defined and not zero. */
  predicate TruthyNumber(n: Option<int>) {
    n.Some? && n.value != 0
  }

  /** `authHeader && authHeader.split(' ')[1]`: the second space-separated piece, whatever the
      first one says (an empty header stays the empty string) */
  function HeaderToken(authHeader: Option<string>): (token: Option<string>)
    ensures authHeader.None? ==> token.None?
    ensures authHeader == Some("") ==> token == Some("")
    ensures authHeader.Some? && authHeader.value != "" ==>
      (token.Some? <==> |Split(authHeader.value, ' ')| >= 2) &&
      (token.Some? ==> token.value == Split(authHeader.value, ' ')[1])
  {
    match authHeader
    case None => None
    case Some(h) =>
      if h == "" then Some("")
      else
        var pieces := Split(h, ' ');
        if |pieces| >= 2 then Some(pieces[1]) else None
  }

  /** The scheme word is never looked at: any first word followed by one space and the token
      gives that token, whatever follows it after another space. */
  lemma SchemeIsIgnored(scheme: string, token: string, rest: Option<string>)
    requires ' ' !in scheme && ' ' !in token
    ensures HeaderToken(Some(scheme + " " + token + (if rest.Some? then " " + rest.value else ""))) == Some(token)
  {
    var tail := token + (if rest.Some? then " " + rest.value else "");
    assert scheme + " " + token + (if rest.Some? then " " + rest.value else "") == scheme + [' '] + tail;
    SplitAfterWord(scheme, tail, ' ');
    match rest
    case None =>
      assert tail == token;
      SplitWord(token, ' ');
      assert Split(scheme + [' '] + tail, ' ') == [scheme, token];
    case Some(r) =>
      assert tail == token + [' '] + r;
      SplitAfterWord(token, r, ' ');
      assert Split(scheme + [' '] + tail, ' ')[1] == token;
  }

  /** A header token never holds a space. */
  lemma HeaderTokenHasNoSpace(authHeader: Option<string>)
    requires HeaderToken(authHeader).Some?
    ensures ' ' !in HeaderToken(authHeader).value
  {
    if authHeader.value != "" {
      SplitPiecesHaveNoSeparator(authHeader.value, ' ');
    }
  }

  /** `cookieToken || token`, kept only when the chosen value is truthy (`if (!finalToken)`) */
  function SelectToken(cookieToken: Option<string>, headerToken: Option<string>): (token: Option<string>)
    ensures token.Some? <==> Truthy(cookieToken) || Truthy(headerToken)
    ensures token.Some? ==> token.value != ""
    ensures Truthy(cookieToken) ==> token == cookieToken
    ensures !Truthy(cookieToken) && Truthy(headerToken) ==> token == headerToken
  {
    if Truthy(cookieToken) then cookieToken
    else if Truthy(headerToken) then headerToken
    else None
  }

  /** The claims authenticateToken reads from a verified token: `_id`, `userId` and `id` */
  datatype Payload = Payload(underscoreId: Option<int>, userId: Option<int>, id: Option<int>)

  /** `decoded._id || decoded.userId || decoded.id` */
  function LookupId(p: Payload): (key: Option<int>)
    ensures TruthyNumber(p.underscoreId) ==> key == p.underscoreId
    ensures !TruthyNumber(p.underscoreId) && TruthyNumber(p.userId) ==> key == p.userId
    ensures !TruthyNumber(p.underscoreId) && !TruthyNumber(p.userId) ==> key == p.id
  {
    if TruthyNumber(p.underscoreId) then p.underscoreId
    else if TruthyNumber(p.userId) then p.userId
    else p.id
  }

  /** `jwt.verify` returns the payload or throws */
  datatype Verification = Verified(payload: Payload) | VerifyThrew

  /** A row of `SELECT id, name, email, role FROM USER WHERE id = ?` */
  datatype UserRow = UserRow(id: int, name: string, email: Option<string>, role: Option<string>)

  /** The query's callback receives an error or the rows */
  datatype Rows = QueryError | Rows(rows: seq<UserRow>)

  /** `req.user` as authenticateToken sets it */
  datatype User = User(userId: int, name: string, email: Option<string>, role: Option<string>)

  /** What a middleware does with the request: pass it on, answer with a JSON error, or redirect */
  datatype Reply = Next | JsonError(status: nat, error: string) | Redirect(location: string)

  /** The reply, the `req.user` it leaves, and whether it cleared the `jwt` cookie */
  datatype AuthOutcome = AuthOutcome(reply: Reply, user: Option<User>, clearedJwtCookie: bool)

  predicate IsApiPath(path: string) {
    StartsWith(path, "/api/")
  }

  /** An error reply: JSON with the status on `/api/` paths, a redirect to the login page elsewhere */
  function Refuse(path: string, status: nat, error: string): Reply {
    if IsApiPath(path) then JsonError(status, error) else Redirect(LoginPage)
  }

  /** authenticateToken */
  function AuthenticateToken(
    path: string, cookieToken: Option<string>, authHeader: Option<string>,
    verify: string -> Verification, lookup: Option<int> -> Rows): (out: AuthOutcome)
    ensures var token := SelectToken(cookieToken, HeaderToken(authHeader));
      && (token.None? ==> out == AuthOutcome(Refuse(path, 401, NoTokenProvided), None, false))
      && (token.Some? && verify(token.value).VerifyThrew? ==>
            out == AuthOutcome(Refuse(path, 403, InvalidOrExpiredToken), None, true))
      && (token.Some? && verify(token.value).Verified? ==>
            var rows := lookup(LookupId(verify(token.value).payload));
            if rows.QueryError? || rows.rows == [] then
              out == AuthOutcome(Refuse(path, 401, InvalidToken), None, true)
            else
              out.reply == Next && !out.clearedJwtCookie &&
              out.user == Some(User(rows.rows[0].id, rows.rows[0].name, rows.rows[0].email, rows.rows[0].role)))
  {
    var token := SelectToken(cookieToken, HeaderToken(authHeader));
    match token
    case None => AuthOutcome(Refuse(path, 401, NoTokenProvided), None, false)
    case Some(t) =>
      match verify(t)
      case VerifyThrew => AuthOutcome(Refuse(path, 403, InvalidOrExpiredToken), None, true)
      case Verified(payload) =>
        match lookup(LookupId(payload))
        case QueryError => AuthOutcome(Refuse(path, 401, InvalidToken), None, true)
        case Rows(rows) =>
          if rows == [] then AuthOutcome(Refuse(path, 401, InvalidToken), None, true)
          else
            var row := rows[0];
            AuthOutcome(Next, Some(User(row.id, row.name, row.email, row.role)), false)
  }

  /** The request goes on exactly when a token was found, verified, and its user row exists; then
      and only then is `req.user` set. The cookie is cleared exactly when a token was presented and
      refused. A refusal is never a call to `next`: JSON on `/api/` paths, a redirect elsewhere. */
  lemma AuthenticateTokenShape(
    path: string, cookieToken: Option<string>, authHeader: Option<string>,
    verify: string -> Verification, lookup: Option<int> -> Rows)
    ensures var out := AuthenticateToken(path, cookieToken, authHeader, verify, lookup);
      var token := SelectToken(cookieToken, HeaderToken(authHeader));
      && (out.reply.Next? <==>
            token.Some? && verify(token.value).Verified? &&
            lookup(LookupId(verify(token.value).payload)).Rows? &&
            lookup(LookupId(verify(token.value).payload)).rows != [])
      && (out.user.Some? <==> out.reply.Next?)
      && (out.clearedJwtCookie <==> token.Some? && !out.reply.Next?)
      && (!out.reply.Next? ==> (IsApiPath(path) <==> out.reply.JsonError?))
      && (out.reply.Redirect? ==> out.reply.location == LoginPage)
  {
  }

  /** A truthy cookie token decides alone: the Authorization header is then never read. */
  lemma CookieTakesPriority(
    path: string, cookieToken: Option<string>, header1: Option<string>, header2: Option<string>,
    verify: string -> Verification, lookup: Option<int> -> Rows)
    requires Truthy(cookieToken)
    ensures AuthenticateToken(path, cookieToken, header1, verify, lookup) ==
            AuthenticateToken(path, cookieToken, header2, verify, lookup)
  {
  }

  /** A request whose only credential is `Authorization: <anything> <token>` is judged on that token. */
  lemma BearerHeaderIsUsed(
    path: string, scheme: string, token: string,
    verify: string -> Verification, lookup: Option<int> -> Rows)
    requires ' ' !in scheme && ' ' !in token && token != ""
    ensures AuthenticateToken(path, None, Some(scheme + " " + token), verify, lookup) ==
            AuthenticateToken(path, Some(token), None, verify, lookup)
  {
    SchemeIsIgnored(scheme, token, None);
    assert scheme + " " + token + "" == scheme + " " + token;
  }

  /** isAdmin */
  function IsAdmin(user: Option<User>): (r: Reply)
    ensures r.Next? <==> user.Some? && user.value.role == Some(AdminRole)
    ensures !r.Next? ==> r == JsonError(403, AdminRightsRequired)
  {
    if user.Some? && user.value.role == Some(AdminRole) then Next
    else JsonError(403, AdminRightsRequired)
  }
}
