/** The form handlers of controller/api.js: `POST /signup` over the `User` table, which it reads
    and extends in place, and `POST /login`. */
module Api {
  import opened Wrappers

  const DatabaseError := "Database error"
  const UserAlreadyExists := "User Already Exists"
  const ErrorInsertingUser := "Error inserting user"
  const UserCreated := "User created successfully"
  const LoggedIn := "LOGGED IN"

  /** A row of `User`: the id signup computes and the three body fields, any of which may be
      missing from the request (and is then stored as NULL) */
  datatype Account = Account(id: int, name: Option<string>, email: Option<string>, password: Option<string>)

  /** A `res.send` text reply with its status */
  datatype Reply = Reply(status: nat, text: string)

  /** Which of signup's three queries fail (besides an insert refused for a taken id) */
  datatype SignupFaults = SignupFaults(countFails: bool, lookupFails: bool, insertFails: bool)

  /** What signup reads from `req.body` */
  datatype SignupForm = SignupForm(name: Option<string>, email: Option<string>, password: Option<string>)

  /** `SELECT * FROM User WHERE email = ?` finds the row: `email = NULL` is never true */
  predicate EmailTaken(rows: seq<Account>, email: Option<string>) {
    email.Some? && exists r :: r in rows && r.email == email
  }

  /** The primary key refuses a second row with the same id */
  predicate IdTaken(rows: seq<Account>, id: int) {
    exists r :: r in rows && r.id == id
  }

  /** POST /signup: the table afterwards and the reply */
  function SignupEffect(rows: seq<Account>, form: SignupForm, faults: SignupFaults): (result: (seq<Account>, Reply))
    ensures result.0 == rows || (|result.0| == |rows| + 1 && result.0[..|rows|] == rows)
    ensures result.1.status == 200 || result.1.status == 500
  {
    if faults.countFails then (rows, Reply(500, DatabaseError))
    else
      var id := |rows| + 1;
      if faults.lookupFails then (rows, Reply(500, DatabaseError))
      else if EmailTaken(rows, form.email) then (rows, Reply(200, UserAlreadyExists))
      else if faults.insertFails || IdTaken(rows, id) then (rows, Reply(500, ErrorInsertingUser))
      else (rows + [Account(id, form.name, form.email, form.password)], Reply(200, UserCreated))
  }

  /** Every reply of signup, and when the table changes: only on "User created successfully",
      by exactly one row whose id is the old row count plus one and whose fields are the form's. */
  lemma SignupReplies(rows: seq<Account>, form: SignupForm, faults: SignupFaults)
    ensures var (rows', reply) := SignupEffect(rows, form, faults);
      && (faults.countFails || faults.lookupFails <==> reply == Reply(500, DatabaseError))
      && (!faults.countFails && !faults.lookupFails && EmailTaken(rows, form.email) ==>
            reply == Reply(200, UserAlreadyExists))
      && (reply.text == UserCreated <==>
            !faults.countFails && !faults.lookupFails && !faults.insertFails &&
            !EmailTaken(rows, form.email) && !IdTaken(rows, |rows| + 1))
      && (reply.text == UserCreated ==>
            reply.status == 200 && rows' == rows + [Account(|rows| + 1, form.name, form.email, form.password)])
      && (reply.text != UserCreated ==> rows' == rows)
      && (reply.status == 500 ==> reply.text == DatabaseError || reply.text == ErrorInsertingUser)
      && ((!faults.countFails && !faults.lookupFails && !EmailTaken(rows, form.email) &&
           (faults.insertFails || IdTaken(rows, |rows| + 1))) ==> reply == Reply(500, ErrorInsertingUser))
  {
  }

  /** Ids 1, 2, ..., n in row order: what signup alone ever builds from an empty table */
  predicate DenseIds(rows: seq<Account>) {
    forall i :: 0 <= i < |rows| ==> rows[i].id == i + 1
  }

  /** No two rows share a (non-NULL) email */
  predicate UniqueEmails(rows: seq<Account>) {
    forall i, j :: 0 <= i < j < |rows| && rows[i].email.Some? ==> rows[i].email != rows[j].email
  }

  /** On a table of dense ids `count + 1` is always free: a new email only fails on a query error. */
  lemma DenseIdsNeverCollide(rows: seq<Account>)
    requires DenseIds(rows)
    ensures !IdTaken(rows, |rows| + 1)
  {
    forall r | r in rows
      ensures r.id != |rows| + 1
    {
      var i :| 0 <= i < |rows| && rows[i] == r;
    }
  }

  /** Signup keeps the ids dense and the emails unique. */
  lemma SignupKeepsInvariants(rows: seq<Account>, form: SignupForm, faults: SignupFaults)
    ensures DenseIds(rows) ==> DenseIds(SignupEffect(rows, form, faults).0)
    ensures UniqueEmails(rows) ==> UniqueEmails(SignupEffect(rows, form, faults).0)
  {
    var rows' := SignupEffect(rows, form, faults).0;
    if rows' != rows && UniqueEmails(rows) {
      forall i | 0 <= i < |rows| && rows[i].email.Some?
        ensures rows[i].email != form.email
      {
        assert rows[i] in rows;
      }
      assert forall i :: 0 <= i < |rows| ==> rows'[i] == rows[i];
    }
  }

  /** With a row deleted, the count no longer gives a free id: a new email is refused. */
  lemma GapRefusesNewUser()
    ensures var rows := [Account(1, None, Some("a"), None), Account(3, None, Some("c"), None)];
      SignupEffect(rows, SignupForm(None, Some("b"), None), SignupFaults(false, false, false)) ==
        (rows, Reply(500, ErrorInsertingUser))
  {
    var rows := [Account(1, None, Some("a"), None), Account(3, None, Some("c"), None)];
    assert rows[1] in rows;
    assert !EmailTaken(rows, Some("b"));
  }

  /** The `User` table, extended in place by signup */
  class UserTable {
    var rows: seq<Account>

    constructor ()
      ensures rows == []
    {
      rows := [];
    }

    /** signup, callback by callback */
    method Signup(form: SignupForm, faults: SignupFaults) returns (reply: Reply)
      modifies this
      ensures (rows, reply) == SignupEffect(old(rows), form, faults)
      ensures old(DenseIds(rows)) ==> DenseIds(rows)
      ensures old(UniqueEmails(rows)) ==> UniqueEmails(rows)
    {
      SignupKeepsInvariants(rows, form, faults);
      if faults.countFails {
        return Reply(500, DatabaseError);
      }
      var idcount := |rows|;
      if faults.lookupFails {
        return Reply(500, DatabaseError);
      }
      if !EmailTaken(rows, form.email) {
        if faults.insertFails || IdTaken(rows, idcount + 1) {
          return Reply(500, ErrorInsertingUser);
        }
        rows := rows + [Account(idcount + 1, form.name, form.email, form.password)];
        return Reply(200, UserCreated);
      } else {
        return Reply(200, UserAlreadyExists);
      }
    }
  }

  /** POST /login: the body is only logged; the reply never depends on it */
  function Login(body: SignupForm): (reply: Reply)
    ensures reply == Reply(200, LoggedIn)
  {
    Reply(200, LoggedIn)
  }
}
