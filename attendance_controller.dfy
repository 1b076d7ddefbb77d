/** The attendance controller of controller/attendanceController.js over the `attendance`,
    `locations` and `USER` tables: `markAttendance` as a sequence of inserts and an update on a
    table store, and the two listings as the rows their joins select, in their ORDER BY order.

    Each query either fails or does what MySQL does; which ones fail is a parameter (`Faults`),
    and the clock readings are parameters as well. */
module AttendanceController {
  import opened Wrappers
  import Auth

  const InternalServerError := "Internal server error"
  const AlreadyMarked := "Attendance already marked for today"
  const ErrorSavingLocation := "Error saving location"
  const ErrorMarkingAttendance := "Error marking attendance"
  const MarkedSuccessfully := "Attendance marked successfully"
  const ErrorFetchingRecords := "Error fetching attendance records"
  const Unauthorized := "Unauthorized"

  /** `toISOString().split('T')[0]`, as a day number */
  type Date = nat
  /** `toTimeString().split(' ')[0]`, as seconds since midnight */
  type Time = nat
  /** MySQL's NOW() */
  type Timestamp = nat

  /** A coordinate as it arrives in the JSON body: absent, a number, or a string */
  datatype Coordinate = Absent | Number(value: real) | Text(text: string)

  /** JavaScript truthiness of a coordinate: `0` and `""` are falsy like an absent value */
  predicate Truthy(c: Coordinate) {
    match c
    case Absent => false
    case Number(v) => v != 0.0
    case Text(s) => s != ""
  }

  /** A row of `attendance` (`at_time` as `atTime`; `location_id` NULL when `None`) */
  datatype AttendanceRow = AttendanceRow(attendanceId: nat, userId: int, date: Date, atTime: Time, locationId: Option<nat>)
  /** A row of `locations` */
  datatype LocationRow = LocationRow(locationId: nat, latitude: Coordinate, longitude: Coordinate, atTime: Timestamp)
  /** The columns of `USER` these queries use */
  datatype UserRow = UserRow(id: int, name: string, email: Option<string>, role: Option<string>, hasAttended: bool)

  /** USER's primary key: no two rows share an id */
  predicate UniqueIds(users: seq<UserRow>) {
    forall i, j :: 0 <= i < j < |users| ==> users[i].id != users[j].id
  }

  /** The three tables, with the next AUTO_INCREMENT value of `attendance` and `locations` */
  datatype Tables = Tables(
    attendance: seq<AttendanceRow>, locations: seq<LocationRow>, users: seq<UserRow>,
    nextAttendanceId: nat, nextLocationId: nat)
  {
    /** Every stored id was handed out by its table's counter, and USER keys its rows by id. */
    ghost predicate Valid() {
      && (forall i :: 0 <= i < |attendance| ==> attendance[i].attendanceId < nextAttendanceId)
      && (forall i :: 0 <= i < |locations| ==> locations[i].locationId < nextLocationId)
      && UniqueIds(users)
    }
  }

  /** Which of markAttendance's queries fail: the duplicate check, the location insert, the
      attendance insert, and the `has_attended` update (whose callback nobody waits for) */
  datatype Faults = Faults(checkFails: bool, locationFails: bool, insertFails: bool, updateFails: bool)

  /** What markAttendance reads from the request and the clock */
  datatype MarkRequest = MarkRequest(userId: int, latitude: Coordinate, longitude: Coordinate, date: Date, time: Time, now: Timestamp)

  /** `a.*, u.name, l.latitude, l.longitude`: the columns of getMyAttendance */
  datatype MyRecord = MyRecord(row: AttendanceRow, name: string, latitude: Option<Coordinate>, longitude: Option<Coordinate>)
  /** `a.*, u.name, u.email, l.latitude, l.longitude`: the columns of getAllAttendance */
  datatype Record = Record(row: AttendanceRow, name: string, email: Option<string>, latitude: Option<Coordinate>, longitude: Option<Coordinate>)

  /** The JSON bodies of the three handlers */
  datatype Body =
    | Error(error: string)
    | MarkedBody(message: string, attendanceId: nat)
    | MyRecords(mine: seq<MyRecord>)
    | AllRecords(records: seq<Record>)

  datatype Response = Response(status: nat, body: Body)

  // ---------------------------------------------------------------------------
  // markAttendance

  /** `SELECT * FROM attendance WHERE user_id = ? AND date = ?` finds a row */
  predicate HasMarked(rows: seq<AttendanceRow>, userId: int, date: Date) {
    exists r :: r in rows && r.userId == userId && r.date == date
  }

  /** At most one row per user and day */
  predicate OncePerDay(rows: seq<AttendanceRow>) {
    forall i, j :: 0 <= i < j < |rows| ==> rows[i].userId != rows[j].userId || rows[i].date != rows[j].date
  }

  /** `UPDATE USER SET has_attended = TRUE WHERE id = ?` */
  function SetAttended(users: seq<UserRow>, id: int): (updated: seq<UserRow>)
    ensures |updated| == |users|
    ensures forall i :: 0 <= i < |users| ==>
      updated[i] == if users[i].id == id then users[i].(hasAttended := true) else users[i]
  {
    seq(|users|, i requires 0 <= i < |users| => if users[i].id == id then users[i].(hasAttended := true) else users[i])
  }

  /** The attendance insert and what follows it, with the location id obtained so far */
  function InsertAttendance(t: Tables, q: MarkRequest, locationId: Option<nat>, faults: Faults): (Tables, Response) {
    if faults.insertFails then (t, Response(500, Error(ErrorMarkingAttendance)))
    else
      var id := t.nextAttendanceId;
      var t1 := t.(attendance := t.attendance + [AttendanceRow(id, q.userId, q.date, q.time, locationId)],
                   nextAttendanceId := id + 1);
      var t2 := if faults.updateFails then t1 else t1.(users := SetAttended(t1.users, q.userId));
      (t2, Response(200, MarkedBody(MarkedSuccessfully, id)))
  }

  /** markAttendance: the tables afterwards and the response */
  function Mark(t: Tables, q: MarkRequest, faults: Faults): (result: (Tables, Response))
    ensures result.1.status == 200 || result.1.status == 400 || result.1.status == 500
    ensures result.1.status == 200 <==> |result.0.attendance| == |t.attendance| + 1
    ensures result.1.status != 200 ==> result.0.attendance == t.attendance && result.0.users == t.users
  {
    if faults.checkFails then (t, Response(500, Error(InternalServerError)))
    else if HasMarked(t.attendance, q.userId, q.date) then (t, Response(400, Error(AlreadyMarked)))
    else if Truthy(q.latitude) && Truthy(q.longitude) then
      if faults.locationFails then (t, Response(500, Error(ErrorSavingLocation)))
      else
        var locationId := t.nextLocationId;
        var t1 := t.(locations := t.locations + [LocationRow(locationId, q.latitude, q.longitude, q.now)],
                     nextLocationId := locationId + 1);
        InsertAttendance(t1, q, Some(locationId), faults)
    else InsertAttendance(t, q, None, faults)
  }

  /** The responses of markAttendance, and which of them leave the tables as they were: a failed
      check and a repeated mark change nothing, a failed location insert changes nothing, and a
      failed attendance insert keeps only the location row inserted before it, which is there
      exactly when both coordinates are truthy. */
  lemma MarkResponses(t: Tables, q: MarkRequest, faults: Faults)
    ensures var (t', r) := Mark(t, q, faults);
      && (r.status == 200 <==> !faults.checkFails && !HasMarked(t.attendance, q.userId, q.date) && !faults.insertFails &&
                                (Truthy(q.latitude) && Truthy(q.longitude) ==> !faults.locationFails))
      && (faults.checkFails ==> t' == t && r == Response(500, Error(InternalServerError)))
      && (!faults.checkFails && HasMarked(t.attendance, q.userId, q.date) ==> t' == t && r == Response(400, Error(AlreadyMarked)))
      && (r.status != 200 ==> t'.attendance == t.attendance && t'.users == t.users)
      && (r.body == Error(ErrorSavingLocation) ==> t' == t)
      && (!faults.checkFails && !HasMarked(t.attendance, q.userId, q.date) &&
          Truthy(q.latitude) && Truthy(q.longitude) && faults.locationFails ==>
            t' == t && r == Response(500, Error(ErrorSavingLocation)))
      && (!faults.checkFails && !HasMarked(t.attendance, q.userId, q.date) &&
          !(Truthy(q.latitude) && Truthy(q.longitude) && faults.locationFails) && faults.insertFails ==>
            && r == Response(500, Error(ErrorMarkingAttendance))
            && t' == if Truthy(q.latitude) && Truthy(q.longitude)
                     then t.(locations := t.locations + [LocationRow(t.nextLocationId, q.latitude, q.longitude, q.now)],
                             nextLocationId := t.nextLocationId + 1)
                     else t)
      && (r.status == 200 ==> r.body == MarkedBody(MarkedSuccessfully, t.nextAttendanceId))
  {
  }

  /** The location row: inserted, exactly one and with the request's coordinates, when both
      coordinates are truthy, and the new attendance row points at it; otherwise `locations` is
      untouched and the attendance row has no location. */
  lemma MarkLocation(t: Tables, q: MarkRequest, faults: Faults)
    requires Mark(t, q, faults).1.status == 200
    ensures var t' := Mark(t, q, faults).0;
      && |t'.attendance| == |t.attendance| + 1
      && t'.attendance[..|t.attendance|] == t.attendance
      && var row := t'.attendance[|t.attendance|];
      && row.userId == q.userId && row.date == q.date && row.atTime == q.time
      && (Truthy(q.latitude) && Truthy(q.longitude) ==>
            && t'.locations == t.locations + [LocationRow(t.nextLocationId, q.latitude, q.longitude, q.now)]
            && row.locationId == Some(t.nextLocationId))
      && (!(Truthy(q.latitude) && Truthy(q.longitude)) ==> t'.locations == t.locations && row.locationId.None?)
  {
  }

  /** After a successful mark every USER row with the caller's id has `has_attended` set, unless
      the update failed; no other row changes. */
  lemma MarkSetsAttended(t: Tables, q: MarkRequest, faults: Faults)
    requires Mark(t, q, faults).1.status == 200 && !faults.updateFails
    ensures var t' := Mark(t, q, faults).0;
      |t'.users| == |t.users| &&
      forall i :: 0 <= i < |t.users| ==>
        (t'.users[i].hasAttended <==> t.users[i].hasAttended || t.users[i].id == q.userId) &&
        t'.users[i].(hasAttended := t.users[i].hasAttended) == t.users[i]
  {
  }

  /** markAttendance keeps the counters ahead of every stored id, so the id it reports is new. */
  lemma MarkKeepsValid(t: Tables, q: MarkRequest, faults: Faults)
    requires t.Valid()
    ensures Mark(t, q, faults).0.Valid()
    ensures Mark(t, q, faults).1.status == 200 ==>
      forall i :: 0 <= i < |t.attendance| ==> t.attendance[i].attendanceId != Mark(t, q, faults).1.body.attendanceId
  {
  }

  /** Marking never gives a user a second row for the same day. */
  lemma MarkKeepsOncePerDay(t: Tables, q: MarkRequest, faults: Faults)
    requires OncePerDay(t.attendance)
    ensures OncePerDay(Mark(t, q, faults).0.attendance)
  {
    var t' := Mark(t, q, faults).0;
    if t'.attendance != t.attendance {
      var n := |t.attendance|;
      assert t'.attendance == t.attendance + [t'.attendance[n]];
      forall i | 0 <= i < n
        ensures t'.attendance[i].userId != q.userId || t'.attendance[i].date != q.date
      {
        assert t.attendance[i] in t.attendance;
      }
    }
  }

  /** A second mark on the same day, after a first one succeeded, is refused with 400 and
      changes nothing, whatever coordinates it carries. */
  lemma MarkTwice(t: Tables, q1: MarkRequest, f1: Faults, q2: MarkRequest, f2: Faults)
    requires Mark(t, q1, f1).1.status == 200
    requires q2.userId == q1.userId && q2.date == q1.date && !f2.checkFails
    ensures var t1 := Mark(t, q1, f1).0;
      Mark(t1, q2, f2) == (t1, Response(400, Error(AlreadyMarked)))
  {
    var t1 := Mark(t, q1, f1).0;
    assert t1.attendance[|t.attendance|] in t1.attendance;
  }

  /** The three tables, updated in place by markAttendance */
  class AttendanceDb {
    var attendance: seq<AttendanceRow>
    var locations: seq<LocationRow>
    var users: seq<UserRow>
    var nextAttendanceId: nat
    var nextLocationId: nat

    function Snapshot(): Tables
      reads this
    {
      Tables(attendance, locations, users, nextAttendanceId, nextLocationId)
    }

    /** Empty tables whose counters start at 1, as AUTO_INCREMENT does */
    constructor (users: seq<UserRow>)
      requires UniqueIds(users)
      ensures Snapshot() == Tables([], [], users, 1, 1)
      ensures Snapshot().Valid()
    {
      this.attendance := [];
      this.locations := [];
      this.users := users;
      this.nextAttendanceId := 1;
      this.nextLocationId := 1;
    }

    /** markAttendance, callback by callback: each `return` is a response that ends the chain */
    method MarkAttendance(q: MarkRequest, faults: Faults) returns (r: Response)
      modifies this
      ensures (Snapshot(), r) == Mark(old(Snapshot()), q, faults)
      ensures old(Snapshot().Valid()) ==> Snapshot().Valid()
      ensures old(OncePerDay(attendance)) ==> OncePerDay(attendance)
    {
      if Snapshot().Valid() {
        MarkKeepsValid(Snapshot(), q, faults);
      }
      if OncePerDay(attendance) {
        MarkKeepsOncePerDay(Snapshot(), q, faults);
      }
      if faults.checkFails {
        return Response(500, Error(InternalServerError));
      }
      if HasMarked(attendance, q.userId, q.date) {
        return Response(400, Error(AlreadyMarked));
      }
      var locationId: Option<nat> := None;
      if Truthy(q.latitude) && Truthy(q.longitude) {
        if faults.locationFails {
          return Response(500, Error(ErrorSavingLocation));
        }
        locationId := Some(nextLocationId);
        locations := locations + [LocationRow(nextLocationId, q.latitude, q.longitude, q.now)];
        nextLocationId := nextLocationId + 1;
      }
      if faults.insertFails {
        return Response(500, Error(ErrorMarkingAttendance));
      }
      var id := nextAttendanceId;
      attendance := attendance + [AttendanceRow(id, q.userId, q.date, q.time, locationId)];
      nextAttendanceId := id + 1;
      if !faults.updateFails {
        users := SetAttended(users, q.userId);
      }
      r := Response(200, MarkedBody(MarkedSuccessfully, id));
    }
  }

  // ---------------------------------------------------------------------------
  // The listings

  /** `ORDER BY a.date DESC, a.at_time DESC`: `a` may come before `b` */
  predicate Precedes(a: AttendanceRow, b: AttendanceRow) {
    a.date > b.date || (a.date == b.date && a.atTime >= b.atTime)
  }

  predicate SortedByRecency(s: seq<AttendanceRow>) {
    forall i, j :: 0 <= i < j < |s| ==> Precedes(s[i], s[j])
  }

  /** The rows satisfying a WHERE or JOIN condition, in their stored order */
  function Filter(rows: seq<AttendanceRow>, keep: AttendanceRow -> bool): (kept: seq<AttendanceRow>)
    ensures forall r :: multiset(kept)[r] == if keep(r) then multiset(rows)[r] else 0
    ensures forall r :: r in kept <==> r in rows && keep(r)
  {
    if rows == [] then []
    else
      assert rows == [rows[0]] + rows[1..];
      (if keep(rows[0]) then [rows[0]] else []) + Filter(rows[1..], keep)
  }

  /** Places a row into a list sorted by recency, after the rows at least as recent */
  function Insert(x: AttendanceRow, s: seq<AttendanceRow>): (r: seq<AttendanceRow>)
    requires SortedByRecency(s)
    ensures SortedByRecency(r)
    ensures multiset(r) == multiset{x} + multiset(s)
  {
    if s == [] then [x]
    else if Precedes(x, s[0]) then [x] + s
    else
      var rest := Insert(x, s[1..]);
      assert s == [s[0]] + s[1..];
      assert forall k :: 0 <= k < |rest| ==> Precedes(s[0], rest[k]) by {
        forall k | 0 <= k < |rest|
          ensures Precedes(s[0], rest[k])
        {
          assert rest[k] in multiset(rest);
        }
      }
      [s[0]] + rest
  }

  /** The ORDER BY: the same rows, most recent first (ties keep no particular order in MySQL;
      here they keep their stored order) */
  function SortByRecency(s: seq<AttendanceRow>): (r: seq<AttendanceRow>)
    ensures SortedByRecency(r)
    ensures multiset(r) == multiset(s)
  {
    if s == [] then []
    else
      assert s == [s[0]] + s[1..];
      Insert(s[0], SortByRecency(s[1..]))
  }

  /** The user row `JOIN USER u ON a.user_id = u.id` pairs with an attendance row (`id` is the
      primary key of USER, so there is at most one) */
  function UserOf(users: seq<UserRow>, id: int): (u: Option<UserRow>)
    ensures u.Some? ==> u.value in users && u.value.id == id
    ensures u.None? <==> forall i :: 0 <= i < |users| ==> users[i].id != id
  {
    if users == [] then None
    else if users[0].id == id then Some(users[0])
    else UserOf(users[1..], id)
  }

  /** With USER keyed by id, the JOIN pairs an attendance row with the one USER row of its id. */
  lemma {:induction false} UserOfIsTheRow(users: seq<UserRow>, id: int, i: nat)
    requires UniqueIds(users)
    requires i < |users| && users[i].id == id
    ensures UserOf(users, id) == Some(users[i])
  {
    if i > 0 {
      assert users[0].id != id;
      assert UniqueIds(users[1..]) by {
        forall a, b | 0 <= a < b < |users[1..]|
          ensures users[1..][a].id != users[1..][b].id
        {
          assert users[1..][a] == users[a + 1] && users[1..][b] == users[b + 1];
        }
      }
      UserOfIsTheRow(users[1..], id, i - 1);
    }
  }

  /** The location `LEFT JOIN locations l ON a.location_id = l.location_id` pairs with a row */
  function LocationOf(locations: seq<LocationRow>, id: Option<nat>): (l: Option<LocationRow>)
    ensures id.None? ==> l.None?
    ensures l.Some? ==> l.value in locations && Some(l.value.locationId) == id
    ensures id.Some? && l.None? ==> forall i :: 0 <= i < |locations| ==> locations[i].locationId != id.value
  {
    if id.None? || locations == [] then None
    else if locations[0].locationId == id.value then Some(locations[0])
    else LocationOf(locations[1..], id)
  }

  function Latitude(l: Option<LocationRow>): Option<Coordinate> {
    if l.Some? then Some(l.value.latitude) else None
  }

  function Longitude(l: Option<LocationRow>): Option<Coordinate> {
    if l.Some? then Some(l.value.longitude) else None
  }

  /** The attendance rows the inner join keeps: those whose user exists */
  function Joined(t: Tables, rows: seq<AttendanceRow>): seq<AttendanceRow> {
    Filter(rows, (r: AttendanceRow) => UserOf(t.users, r.userId).Some?)
  }

  /** The rows of getMyAttendance's query, in order, before their columns are chosen */
  function MyRows(t: Tables, userId: int): seq<AttendanceRow> {
    SortByRecency(Joined(t, Filter(t.attendance, (r: AttendanceRow) => r.userId == userId)))
  }

  /** The rows of getAllAttendance's query, in order */
  function AllRows(t: Tables): seq<AttendanceRow> {
    SortByRecency(Joined(t, t.attendance))
  }

  /** `a.*, u.name, u.email, l.latitude, l.longitude`: a record carries the row, the name and email
      of the USER row it joins with, and the coordinates of its location (none without one) */
  predicate IsJoinedRecord(t: Tables, row: AttendanceRow, rec: Record) {
    && UserOf(t.users, row.userId).Some?
    && rec.row == row
    && rec.name == UserOf(t.users, row.userId).value.name
    && rec.email == UserOf(t.users, row.userId).value.email
    && rec.latitude == Latitude(LocationOf(t.locations, row.locationId))
    && rec.longitude == Longitude(LocationOf(t.locations, row.locationId))
  }

  /** The columns of a joined row, for an admin listing */
  function RecordOf(t: Tables, row: AttendanceRow): (rec: Record)
    requires UserOf(t.users, row.userId).Some?
    ensures IsJoinedRecord(t, row, rec)
  {
    var u := UserOf(t.users, row.userId).value;
    var l := LocationOf(t.locations, row.locationId);
    Record(row, u.name, u.email, Latitude(l), Longitude(l))
  }

  function Records(t: Tables, rows: seq<AttendanceRow>): (recs: seq<Record>)
    requires forall i :: 0 <= i < |rows| ==> UserOf(t.users, rows[i].userId).Some?
    ensures |recs| == |rows|
    ensures forall i :: 0 <= i < |rows| ==> IsJoinedRecord(t, rows[i], recs[i])
  {
    seq(|rows|, i requires 0 <= i < |rows| => RecordOf(t, rows[i]))
  }

  /** Every row the inner join and the sort keep has its user row. */
  lemma SortedJoinHasUsers(t: Tables, rows: seq<AttendanceRow>)
    ensures forall i :: 0 <= i < |SortByRecency(Joined(t, rows))| ==>
      UserOf(t.users, SortByRecency(Joined(t, rows))[i].userId).Some?
  {
    var joined := Joined(t, rows);
    var sorted := SortByRecency(joined);
    forall i | 0 <= i < |sorted|
      ensures UserOf(t.users, sorted[i].userId).Some?
    {
      assert sorted[i] in multiset(sorted);
      assert sorted[i] in joined;
    }
  }

  /** The rows getMyAttendance lists: exactly the caller's rows with a user row, each as often as
      it is stored, most recent first */
  lemma MyRowsAreTheCallers(t: Tables, userId: int)
    ensures SortedByRecency(MyRows(t, userId))
    ensures forall i :: 0 <= i < |MyRows(t, userId)| ==>
      MyRows(t, userId)[i].userId == userId && UserOf(t.users, userId).Some?
    ensures forall r :: multiset(MyRows(t, userId))[r] ==
                        (if r.userId == userId && UserOf(t.users, userId).Some? then multiset(t.attendance)[r] else 0)
  {
    var mine := Filter(t.attendance, (r: AttendanceRow) => r.userId == userId);
    var joined := Joined(t, mine);
    assert MyRows(t, userId) == SortByRecency(joined);
    assert multiset(MyRows(t, userId)) == multiset(joined);
    MyRowsHaveTheUser(t, userId);
  }

  /** Each listed row is the caller's, and the caller has a user row */
  lemma MyRowsHaveTheUser(t: Tables, userId: int)
    ensures forall i :: 0 <= i < |MyRows(t, userId)| ==>
      MyRows(t, userId)[i].userId == userId && UserOf(t.users, userId).Some?
  {
    var mine := Filter(t.attendance, (r: AttendanceRow) => r.userId == userId);
    var joined := Joined(t, mine);
    assert multiset(MyRows(t, userId)) == multiset(joined);
    forall i | 0 <= i < |MyRows(t, userId)|
      ensures MyRows(t, userId)[i].userId == userId && UserOf(t.users, userId).Some?
    {
      var r := MyRows(t, userId)[i];
      assert r in multiset(joined);
      assert r in joined;
      assert r in mine;
    }
  }

  /** getAllAttendance lists every stored row whose user exists, once per stored copy, most
      recent first. */
  lemma AllRowsAreJoined(t: Tables)
    ensures SortedByRecency(AllRows(t))
    ensures forall r :: multiset(AllRows(t))[r] ==
                        (if UserOf(t.users, r.userId).Some? then multiset(t.attendance)[r] else 0)
  {
    var joined := Joined(t, t.attendance);
    assert multiset(AllRows(t)) == multiset(joined);
  }

  /** `a.*, u.name, l.latitude, l.longitude`: the row, the name of its USER row and the coordinates
      of its location (none without one) */
  predicate IsMyRecord(t: Tables, row: AttendanceRow, rec: MyRecord) {
    && UserOf(t.users, row.userId).Some?
    && rec.row == row
    && rec.name == UserOf(t.users, row.userId).value.name
    && rec.latitude == Latitude(LocationOf(t.locations, row.locationId))
    && rec.longitude == Longitude(LocationOf(t.locations, row.locationId))
  }

  /** The columns of a joined row, for the caller's own listing */
  function MyRecordOf(t: Tables, row: AttendanceRow): (rec: MyRecord)
    requires UserOf(t.users, row.userId).Some?
    ensures IsMyRecord(t, row, rec)
  {
    var l := LocationOf(t.locations, row.locationId);
    MyRecord(row, UserOf(t.users, row.userId).value.name, Latitude(l), Longitude(l))
  }

  /** getMyAttendance: 500 when the query fails, otherwise 200 and the caller's joined rows, each
      with the caller's name and its location's coordinates */
  function GetMyAttendance(t: Tables, userId: int, queryFails: bool): (r: Response)
    ensures queryFails ==> r == Response(500, Error(ErrorFetchingRecords))
    ensures !queryFails ==>
      && r.status == 200 && r.body.MyRecords? && |r.body.mine| == |MyRows(t, userId)|
      && forall i :: 0 <= i < |r.body.mine| ==>
           MyRows(t, userId)[i].userId == userId && IsMyRecord(t, MyRows(t, userId)[i], r.body.mine[i])
  {
    if queryFails then Response(500, Error(ErrorFetchingRecords))
    else
      var rows := MyRows(t, userId);
      MyRowsHaveTheUser(t, userId);
      var mine := seq(|rows|, i requires 0 <= i < |rows| => MyRecordOf(t, rows[i]));
      assert forall i :: 0 <= i < |mine| ==> IsMyRecord(t, rows[i], mine[i]);
      Response(200, MyRecords(mine))
  }

  /** getAllAttendance: 403 unless `req.user.role` is `admin`; then 500 when the query fails and
      otherwise 200 with every joined row */
  function GetAllAttendance(t: Tables, role: Option<string>, queryFails: bool): (r: Response)
    ensures role != Some(Auth.AdminRole) ==> r == Response(403, Error(Unauthorized))
    ensures role == Some(Auth.AdminRole) && queryFails ==> r == Response(500, Error(ErrorFetchingRecords))
    ensures role == Some(Auth.AdminRole) && !queryFails ==>
      r.status == 200 && r.body.AllRecords? && |r.body.records| == |AllRows(t)| &&
      forall i :: 0 <= i < |r.body.records| ==> IsJoinedRecord(t, AllRows(t)[i], r.body.records[i])
  {
    if role != Some(Auth.AdminRole) then Response(403, Error(Unauthorized))
    else if queryFails then Response(500, Error(ErrorFetchingRecords))
    else
      var rows := AllRows(t);
      SortedJoinHasUsers(t, t.attendance);
      Response(200, AllRecords(Records(t, rows)))
  }
}
