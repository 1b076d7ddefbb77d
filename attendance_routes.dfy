/** The attendance router of routes/attendance.js: the middleware chain in front of each route,
    and the two handlers it defines itself, `/stats` and `/recent`. */
module AttendanceRoutes {
  import opened Wrappers
  import opened Strings
  import Auth
  import AC = AttendanceController

  const ErrorFetchingStatistics := "Error fetching statistics"
  const ErrorFetchingRecent := "Error fetching recent attendance"
  const StudentRole := "student"
  /** `req.query.limit || 10` */
  const DefaultLimit: nat := 10

  /** The five routes of the router */
  datatype Route = MarkRoute | MyRoute | AllRoute | StatsRoute | RecentRoute

  /** The route path, which is also `req.path` inside the router whatever the mount point */
  function RoutePath(route: Route): string {
    match route
    case MarkRoute => "/mark"
    case MyRoute => "/my"
    case AllRoute => "/all"
    case StatsRoute => "/stats"
    case RecentRoute => "/recent"
  }

  /** The routes that run isAdmin after authenticateToken */
  predicate AdminOnly(route: Route) {
    route.AllRoute? || route.StatsRoute? || route.RecentRoute?
  }

  /** What authenticateToken needs from the request, and its two foreign calls */
  datatype Credentials = Credentials(
    cookieToken: Option<string>, authHeader: Option<string>,
    verify: string -> Auth.Verification, lookup: Option<int> -> Auth.Rows)

  /** The middleware chain stops the request with a reply, or lets the handler run with `req.user` */
  datatype Gate = Refused(reply: Auth.Reply) | Admitted(user: Auth.User)

  function Authenticate(route: Route, c: Credentials): Auth.AuthOutcome {
    Auth.AuthenticateToken(RoutePath(route), c.cookieToken, c.authHeader, c.verify, c.lookup)
  }

  /** The middleware chain of a route: authenticateToken, then isAdmin on the admin routes */
  function Guard(route: Route, c: Credentials): (g: Gate)
    ensures g.Admitted? <==> Authenticate(route, c).reply.Next? &&
                             (AdminOnly(route) ==> Auth.IsAdmin(Authenticate(route, c).user).Next?)
    ensures g.Admitted? ==> Some(g.user) == Authenticate(route, c).user
  {
    var out := Authenticate(route, c);
    Auth.AuthenticateTokenShape(RoutePath(route), c.cookieToken, c.authHeader, c.verify, c.lookup);
    if !out.reply.Next? then Refused(out.reply)
    else if AdminOnly(route) && !Auth.IsAdmin(out.user).Next? then Refused(Auth.IsAdmin(out.user))
    else Admitted(out.user.value)
  }

  /** An admin route's handler runs only for an admin; the two others' for any authenticated user. */
  lemma AdminRoutesAdmitOnlyAdmins(route: Route, c: Credentials)
    ensures AdminOnly(route) && Guard(route, c).Admitted? ==> Guard(route, c).user.role == Some(Auth.AdminRole)
    ensures !AdminOnly(route) ==> (Guard(route, c).Admitted? <==> Authenticate(route, c).reply.Next?)
  {
  }

  /** No route path starts with `/api/`, so authenticateToken's refusals here are redirects to the
      login page; the only JSON refusal is isAdmin's 403. */
  lemma RefusalsOnTheseRoutes(route: Route, c: Credentials)
    requires Guard(route, c).Refused?
    ensures Guard(route, c).reply == Auth.Redirect(Auth.LoginPage) ||
            (AdminOnly(route) && Guard(route, c).reply == Auth.JsonError(403, Auth.AdminRightsRequired))
  {
    var out := Authenticate(route, c);
    Auth.AuthenticateTokenShape(RoutePath(route), c.cookieToken, c.authHeader, c.verify, c.lookup);
    var path := RoutePath(route);
    assert !Auth.IsApiPath(path) by {
      assert |path| < 5 || path[..5][1] != 'a';
    }
  }

  /** Behind its chain, getAllAttendance's own role check never answers 403. */
  lemma AllNeverUnauthorized(c: Credentials, t: AC.Tables, queryFails: bool)
    requires Guard(AllRoute, c).Admitted?
    ensures AC.GetAllAttendance(t, Guard(AllRoute, c).user.role, queryFails).status != 403
  {
    AdminRoutesAdmitOnlyAdmins(AllRoute, c);
  }

  // ---------------------------------------------------------------------------
  // GET /stats

  /** The JSON bodies of the two handlers */
  datatype Body =
    | Error(error: string)
    | Statistics(totalStudents: nat, presentToday: nat, absentToday: int)
    | RecentRecords(records: seq<Formatted>)

  datatype Response = Response(status: nat, body: Body)

  /** `SELECT COUNT(*) ... FROM USER WHERE role = "student"` */
  function CountStudents(users: seq<AC.UserRow>): (n: nat)
    ensures n <= |users|
    ensures n == 0 <==> forall i :: 0 <= i < |users| ==> users[i].role != Some(StudentRole)
    ensures n == |users| <==> forall i :: 0 <= i < |users| ==> users[i].role == Some(StudentRole)
  {
    if users == [] then 0
    else (if users[0].role == Some(StudentRole) then 1 else 0) + CountStudents(users[1..])
  }

  /** `SELECT COUNT(*) ... FROM attendance WHERE date = ?`: every row of the day, whoever it is for */
  function CountPresent(rows: seq<AC.AttendanceRow>, today: AC.Date): (n: nat)
    ensures n <= |rows|
    ensures n == 0 <==> forall i :: 0 <= i < |rows| ==> rows[i].date != today
  {
    if rows == [] then 0
    else (if rows[0].date == today then 1 else 0) + CountPresent(rows[1..], today)
  }

  /** The day's count is the number of rows the WHERE clause selects. */
  lemma {:induction false} CountPresentIsFilter(rows: seq<AC.AttendanceRow>, today: AC.Date)
    ensures CountPresent(rows, today) == |AC.Filter(rows, (r: AC.AttendanceRow) => r.date == today)|
  {
    if rows != [] {
      CountPresentIsFilter(rows[1..], today);
    }
  }

  /** GET /stats as written: 500 when either count fails, otherwise the two counts and their
      difference, which nothing keeps from going below zero */
  function Stats(t: AC.Tables, today: AC.Date, studentsFail: bool, presentFails: bool): (r: Response)
    ensures studentsFail || presentFails <==> r == Response(500, Error(ErrorFetchingStatistics))
    ensures !studentsFail && !presentFails ==>
      r.status == 200 && r.body.Statistics? &&
      r.body.totalStudents == CountStudents(t.users) &&
      r.body.presentToday == CountPresent(t.attendance, today) &&
      r.body.absentToday == r.body.totalStudents - r.body.presentToday
  {
    if studentsFail || presentFails then Response(500, Error(ErrorFetchingStatistics))
    else
      var total := CountStudents(t.users);
      var present := CountPresent(t.attendance, today);
      Response(200, Statistics(total, present, total - present))
  }

  /** An admin who marked attendance today is counted present but is not a student: with one such
      user and nobody else, `absentToday` is -1, although the tables keep one row per user and day. */
  lemma AbsentGoesNegative()
    ensures var admin := AC.UserRow(1, "admin", None, Some(Auth.AdminRole), true);
      var t := AC.Tables([AC.AttendanceRow(1, 1, 0, 0, None)], [], [admin], 2, 1);
      && AC.OncePerDay(t.attendance) && t.Valid()
      && Stats(t, 0, false, false).body.absentToday == -1
  {
    var admin := AC.UserRow(1, "admin", None, Some(Auth.AdminRole), true);
    var t := AC.Tables([AC.AttendanceRow(1, 1, 0, 0, None)], [], [admin], 2, 1);
    assert CountStudents(t.users[1..]) == 0;
    assert CountPresent(t.attendance[1..], 0) == 0;
  }

  /** A student row of USER with that id exists */
  predicate IsStudent(users: seq<AC.UserRow>, id: int) {
    exists u :: u in users && u.id == id && u.role == Some(StudentRole)
  }

  /** Today's rows by students only: the count `absentToday` evidently means to subtract */
  function CountStudentsPresent(rows: seq<AC.AttendanceRow>, users: seq<AC.UserRow>, today: AC.Date): (n: nat)
    ensures n <= CountPresent(rows, today)
  {
    if rows == [] then 0
    else (if rows[0].date == today && IsStudent(users, rows[0].userId) then 1 else 0) +
         CountStudentsPresent(rows[1..], users, today)
  }

  /** The corrected count is the number of the day's rows whose user is a student. */
  lemma {:induction false} CountStudentsPresentIsFilter(rows: seq<AC.AttendanceRow>, users: seq<AC.UserRow>, today: AC.Date)
    ensures CountStudentsPresent(rows, users, today) ==
      |AC.Filter(rows, (r: AC.AttendanceRow) => r.date == today && IsStudent(users, r.userId))|
  {
    if rows != [] {
      CountStudentsPresentIsFilter(rows[1..], users, today);
    }
  }

  /** GET /stats counting only students as present */
  function StatsOfStudents(t: AC.Tables, today: AC.Date, studentsFail: bool, presentFails: bool): (r: Response)
    ensures studentsFail || presentFails <==> r == Response(500, Error(ErrorFetchingStatistics))
    ensures !studentsFail && !presentFails ==>
      r.status == 200 && r.body.Statistics? &&
      r.body.totalStudents == CountStudents(t.users) &&
      r.body.presentToday == CountStudentsPresent(t.attendance, t.users, today) &&
      r.body.absentToday == r.body.totalStudents - r.body.presentToday
  {
    if studentsFail || presentFails then Response(500, Error(ErrorFetchingStatistics))
    else
      var total := CountStudents(t.users);
      var present := CountStudentsPresent(t.attendance, t.users, today);
      Response(200, Statistics(total, present, total - present))
  }

  /** The ids of the students */
  function StudentIds(users: seq<AC.UserRow>): set<int> {
    set u | u in users && u.role == Some(StudentRole) :: u.id
  }

  /** The ids of the students with a row today */
  function PresentStudentIds(rows: seq<AC.AttendanceRow>, users: seq<AC.UserRow>, today: AC.Date): set<int> {
    set r | r in rows && r.date == today && IsStudent(users, r.userId) :: r.userId
  }

  lemma {:induction false} StudentIdsCount(users: seq<AC.UserRow>)
    requires AC.UniqueIds(users)
    ensures |StudentIds(users)| == CountStudents(users)
  {
    if users != [] {
      var rest := users[1..];
      StudentIdsCount(rest);
      assert forall u :: u in users <==> u == users[0] || u in rest;
      if users[0].role == Some(StudentRole) {
        assert StudentIds(users) == {users[0].id} + StudentIds(rest);
        assert users[0].id !in StudentIds(rest) by {
          forall k | 0 <= k < |rest|
            ensures rest[k].id != users[0].id
          {
            assert users[k + 1] == rest[k];
          }
        }
      } else {
        assert StudentIds(users) == StudentIds(rest);
      }
    }
  }

  lemma {:induction false} PresentStudentIdsCount(rows: seq<AC.AttendanceRow>, users: seq<AC.UserRow>, today: AC.Date)
    requires AC.OncePerDay(rows)
    ensures |PresentStudentIds(rows, users, today)| == CountStudentsPresent(rows, users, today)
  {
    if rows != [] {
      var rest := rows[1..];
      OncePerDayTail(rows);
      PresentStudentIdsCount(rest, users, today);
      PresentStudentIdsStep(rows, users, today);
      if rows[0].date == today && IsStudent(users, rows[0].userId) {
        FirstRowIdNotLater(rows, users, today);
      }
    }
  }

  /** One row per user and day still holds without the first row. */
  lemma OncePerDayTail(rows: seq<AC.AttendanceRow>)
    requires rows != [] && AC.OncePerDay(rows)
    ensures AC.OncePerDay(rows[1..])
  {
    var rest := rows[1..];
    forall i, j | 0 <= i < j < |rest|
      ensures rest[i].userId != rest[j].userId || rest[i].date != rest[j].date
    {
      assert rest[i] == rows[i + 1] && rest[j] == rows[j + 1];
    }
  }

  /** The present ids of a table are those of its first row and those of the rest. */
  lemma PresentStudentIdsStep(rows: seq<AC.AttendanceRow>, users: seq<AC.UserRow>, today: AC.Date)
    requires rows != []
    ensures PresentStudentIds(rows, users, today) ==
      (if rows[0].date == today && IsStudent(users, rows[0].userId) then {rows[0].userId} else {}) +
      PresentStudentIds(rows[1..], users, today)
  {
    assert forall r :: r in rows <==> r == rows[0] || r in rows[1..];
  }

  /** With one row per user and day, the first row's user has no other row that day. */
  lemma FirstRowIdNotLater(rows: seq<AC.AttendanceRow>, users: seq<AC.UserRow>, today: AC.Date)
    requires rows != [] && AC.OncePerDay(rows) && rows[0].date == today
    ensures rows[0].userId !in PresentStudentIds(rows[1..], users, today)
  {
    var rest := rows[1..];
    forall k | 0 <= k < |rest| && rest[k].date == today
      ensures rest[k].userId != rows[0].userId
    {
      assert rows[k + 1] == rest[k];
    }
  }

  /** Counting students only, and with the tables keeping one row per user and day and USER one
      row per id, nobody is absent a negative number of times. */
  lemma StudentsAbsentNeverNegative(t: AC.Tables, today: AC.Date)
    requires AC.OncePerDay(t.attendance) && AC.UniqueIds(t.users)
    ensures StatsOfStudents(t, today, false, false).body.absentToday >= 0
  {
    StudentIdsCount(t.users);
    PresentStudentIdsCount(t.attendance, t.users, today);
    assert PresentStudentIds(t.attendance, t.users, today) <= StudentIds(t.users);
    SubsetCardinality(PresentStudentIds(t.attendance, t.users, today), StudentIds(t.users));
  }

  lemma SubsetCardinality(a: set<int>, b: set<int>)
    requires a <= b
    ensures |a| <= |b|
  {
    assert b == a + (b - a);
  }

  // ---------------------------------------------------------------------------
  // GET /recent

  /** A record of `/recent`: the joined record and its `time`, a copy of `at_time` */
  datatype Formatted = Formatted(record: AC.Record, time: AC.Time)

  /** `parseInt(req.query.limit || 10)` as MySQL's LIMIT receives it: `None` when the statement
      cannot run (NaN and negative numbers are not a LIMIT MySQL accepts) */
  function RecentLimit(limit: Option<string>): (n: Option<nat>)
    ensures limit.None? || limit == Some("") ==> n == Some(DefaultLimit)
    ensures limit.Some? && limit.value != "" ==>
      (n.Some? <==> ParseInt(limit.value).Some? && ParseInt(limit.value).value >= 0) &&
      (n.Some? ==> n.value == ParseInt(limit.value).value)
  {
    if limit.None? || limit.value == "" then Some(DefaultLimit)
    else
      match ParseInt(limit.value)
      case None => None
      case Some(v) => if v < 0 then None else Some(v)
  }

  /** `limit=n`, written in decimal, is a limit of n. */
  lemma DecimalLimit(n: nat)
    ensures RecentLimit(Some(DecimalString(n))) == Some(n)
  {
    ParseIntDecimal(n);
  }

  /** `{...record, time: record.at_time}` for each record */
  function Format(records: seq<AC.Record>): (out: seq<Formatted>)
    ensures |out| == |records|
    ensures forall i :: 0 <= i < |records| ==> out[i].record == records[i] && out[i].time == records[i].row.atTime
  {
    seq(|records|, i requires 0 <= i < |records| => Formatted(records[i], records[i].row.atTime))
  }

  /** GET /recent: 500 when the statement cannot run or fails, otherwise the first `limit` joined
      records in the order of getAllAttendance, each with its `time` */
  function Recent(t: AC.Tables, limit: Option<string>, queryFails: bool): (r: Response)
    ensures RecentLimit(limit).None? || queryFails <==> r == Response(500, Error(ErrorFetchingRecent))
    ensures RecentLimit(limit).Some? && !queryFails ==>
      var n := RecentLimit(limit).value;
      && r.status == 200 && r.body.RecentRecords?
      && |r.body.records| == (if n < |AC.AllRows(t)| then n else |AC.AllRows(t)|)
      && forall i :: 0 <= i < |r.body.records| ==>
           AC.IsJoinedRecord(t, AC.AllRows(t)[i], r.body.records[i].record) &&
           r.body.records[i].time == AC.AllRows(t)[i].atTime
  {
    match RecentLimit(limit)
    case None => Response(500, Error(ErrorFetchingRecent))
    case Some(n) =>
      if queryFails then Response(500, Error(ErrorFetchingRecent))
      else
        var rows := AC.AllRows(t);
        var kept := if n < |rows| then rows[..n] else rows;
        AC.SortedJoinHasUsers(t, t.attendance);
        assert forall i :: 0 <= i < |kept| ==> kept[i] == rows[i];
        Response(200, RecentRecords(Format(AC.Records(t, kept))))
  }

  /** The records of `/recent` are the most recent ones: each is at least as recent as every
      joined record it leaves out. */
  lemma RecentAreMostRecent(t: AC.Tables, limit: Option<string>, queryFails: bool)
    requires Recent(t, limit, queryFails).status == 200
    ensures var recs := Recent(t, limit, queryFails).body.records;
      forall i, j :: 0 <= i < |recs| <= j < |AC.AllRows(t)| ==> AC.Precedes(recs[i].record.row, AC.AllRows(t)[j])
  {
    AC.AllRowsAreJoined(t);
  }
}
