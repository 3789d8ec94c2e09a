/**
 * The handlers of `controllers/users.py`: `user_list` (registration on POST,
 * the paged listing on GET), `user_detail` and `user_runs`.
 *
 * A handler is a function from the request and a store snapshot to a
 * response and the store after it. Everything the handlers call outside this
 * repository (the `validate_email` check, bcrypt, the clock, the outcome of
 * the commit) arrives as a parameter.
 */
module Users {
  import opened Wrappers
  import opened Python
  import opened Helpers
  import opened Jsonify
  import opened Models
  import opened Listing

  /** `jsonify({key: payload}), status`. */
  datatype Response = Response(status: int, key: Key, payload: Json)

  /** The message a client reads from an error body, if the body is one. */
  function ErrorMessage(r: Response): Option<string> {
    if r.key == ErrorKey && r.payload.JStr? then Some(r.payload.s) else None
  }

  /** `jsonify({'error': message}), status`: the client reads back exactly `message`, with `status`. */
  function Failure(status: int, message: string): (r: Response)
    ensures ErrorMessage(r) == Some(message) && r.status == status
  {
    Response(status, ErrorKey, JStr(message))
  }

  /** A form body or a query string: field name to text. */
  type Fields = map<string, string>

  /** `request.form.get(name)` / `request.args.get(name)`. */
  function Field(m: Fields, name: string): (r: Option<string>)
    ensures r.Some? <==> name in m
    ensures r.Some? ==> r.value == m[name]
  {
    if name in m then Some(m[name]) else None
  }

  /** The text of a field as a Python value: a string, or `None` when absent. */
  function AsValue(o: Option<string>): (v: Value)
    ensures v.PyNone? <==> o.None?
    ensures o.Some? ==> v == PyStr(o.value)
  {
    match o
    case Some(s) => PyStr(s)
    case None => PyNone
  }

  // ---------------------------------------------------------------------------
  // Paging arguments
  // ---------------------------------------------------------------------------

  /**
   * `MAX_PAGE_SIZE`, `DEFAULT_PAGE` and `DEFAULT_PAGE_SIZE`; `constants.py`
   * is not part of this model, so their values are parameters.
   */
  datatype Paging = Paging(maxPageSize: int, defaultPage: int, defaultPageSize: int)

  /** `parse_int(x) or default`: `None` and `0` are falsy, so both give way to the default. */
  function OrDefault(parsed: Option<int>, default: int): (r: int)
    ensures parsed.None? || parsed.value == 0 ==> r == default
    ensures parsed.Some? && parsed.value != 0 ==> r == parsed.value
  {
    if parsed.Some? && parsed.value != 0 then parsed.value else default
  }

  /** `page`: the parsed argument unless it is missing, unreadable or 0. */
  function PageArg(args: Fields, cfg: Paging): (page: int)
    ensures var parsed := ParseInt(AsValue(Field(args, "page")));
      page == (if parsed.Some? && parsed.value != 0 then parsed.value else cfg.defaultPage)
  {
    OrDefault(ParseInt(AsValue(Field(args, "page"))), cfg.defaultPage)
  }

  /**
   * `page_size`: the parsed argument (or the default, as for `page`), lowered
   * to `MAX_PAGE_SIZE` when larger. It is never above the maximum, and a value
   * not above the maximum is kept.
   */
  function PageSizeArg(args: Fields, cfg: Paging): (size: int)
    ensures size <= cfg.maxPageSize
    ensures var asked := OrDefault(ParseInt(AsValue(Field(args, "page_size"))), cfg.defaultPageSize);
      (asked <= cfg.maxPageSize ==> size == asked) && (asked > cfg.maxPageSize ==> size == cfg.maxPageSize)
  {
    var asked := OrDefault(ParseInt(AsValue(Field(args, "page_size"))), cfg.defaultPageSize);
    if asked > cfg.maxPageSize then cfg.maxPageSize else asked
  }

  /** A page number written in decimal, other than 0, is used as given. */
  lemma PageArgOfDecimal(args: Fields, cfg: Paging, n: int)
    requires Field(args, "page") == Some(IntToDecimal(n)) && n != 0
    ensures PageArg(args, cfg) == n
  {
    ParseIntOfDecimal(n);
  }

  /** A page size written in decimal, other than 0 and not above the maximum, is used as given. */
  lemma PageSizeArgOfDecimal(args: Fields, cfg: Paging, n: int)
    requires Field(args, "page_size") == Some(IntToDecimal(n)) && n != 0 && n <= cfg.maxPageSize
    ensures PageSizeArg(args, cfg) == n
  {
    ParseIntOfDecimal(n);
  }

  /** Missing arguments, `0` and text `int()` rejects all fall back to the defaults. */
  lemma PagingFallsBack(cfg: Paging, junk: string)
    requires forall i :: 0 <= i < |junk| ==> !IsDigit(junk[i])
    requires cfg.defaultPageSize <= cfg.maxPageSize
    ensures PageArg(map[], cfg) == cfg.defaultPage
    ensures PageArg(map["page" := "0"], cfg) == cfg.defaultPage
    ensures PageArg(map["page" := junk], cfg) == cfg.defaultPage
    ensures PageSizeArg(map["page_size" := junk], cfg) == cfg.defaultPageSize
    ensures PageSizeArg(map["page_size" := "0"], cfg) == cfg.defaultPageSize
  {
    ParseIntOfDecimal(0);
    assert IntToDecimal(0) == "0";
    ParseIntRejectsNonNumeric(junk);
  }

  // ---------------------------------------------------------------------------
  // GET /api/users
  // ---------------------------------------------------------------------------

  /** The base projections of `rows`, in order. */
  function UserBases(rows: seq<User>): (js: seq<Json>)
    requires forall i :: 0 <= i < |rows| ==> rows[i].created.Some? && rows[i].updated.Some?
    ensures |js| == |rows|
    ensures forall i :: 0 <= i < |rows| ==> js[i] == UserBase(rows[i]) && HasNoKey(js[i], PasswordKey)
  {
    seq(|rows|, i requires 0 <= i < |rows| => UserBase(rows[i]))
  }

  /**
   * The GET branch of `user_list`: read the paging and search arguments, take
   * the listing page and answer 200 with `{'users': [...]}` holding the base
   * projection of each row. No password is returned, and the page holds no
   * more rows than `MAX_PAGE_SIZE`, or 20 when a negative size was asked for.
   */
  function ListUsers(db: Db, args: Fields, cfg: Paging): (r: Response)
    requires WellFormed(db)
    ensures r.status == 200 && r.key == UsersKey && r.payload.JList?
    ensures var rows := ListedUsers(db.users, SearchFilter(Field(args, "search")), PageArg(args, cfg), PageSizeArg(args, cfg));
      && |r.payload.items| == |rows|
      && forall i :: 0 <= i < |rows| ==> r.payload.items[i] == UserBase(rows[i])
    ensures HasNoKey(r.payload, PasswordKey)
    ensures |r.payload.items| <= cfg.maxPageSize || |r.payload.items| <= FallbackPerPage
  {
    var f := SearchFilter(Field(args, "search"));
    var rows := ListedUsers(db.users, f, PageArg(args, cfg), PageSizeArg(args, cfg));
    Response(200, UsersKey, JList(UserBases(rows)))
  }

  /** Asking for a page that starts past the last matching row returns an empty list. */
  lemma ListPastEnd(db: Db, args: Fields, cfg: Paging)
    requires WellFormed(db)
    requires Offset(PageArg(args, cfg), PageSizeArg(args, cfg)) >= |Select(db.users, SearchFilter(Field(args, "search")))|
    ensures ListUsers(db, args, cfg).payload == JList([])
  {
    var selected := Select(db.users, SearchFilter(Field(args, "search")));
    assert |multiset(SortByLastName(selected))| == |multiset(selected)|;
  }

  // ---------------------------------------------------------------------------
  // POST /api/users
  // ---------------------------------------------------------------------------

  /**
   * The outside world registration touches: the `validate_email` syntax check,
   * bcrypt's `generate_password_hash` (as text), and the clock behind the
   * `created` / `updated` defaults.
   */
  datatype Env = Env(validEmail: string -> bool, hash: string -> string, now: Timestamp)

  /** How `db.session.commit()` ends: the row is written, or it raises. */
  datatype CommitOutcome = Committed | IntegrityFailure | OtherFailure

  /** A handler's response together with the store it leaves behind. */
  datatype Outcome = Outcome(response: Response, db: Db)

  const EmailInUseMessage := "That email address is already in use"
  const CreateFailedMessage := "Unable to create new user"

  /** Some stored row already has this email. */
  predicate EmailInUse(users: seq<User>, email: string) {
    exists i :: 0 <= i < |users| && users[i].email == Some(email)
  }

  /** `User.query.filter_by(email=email).first()`. */
  function FindByEmail(users: seq<User>, email: string): (r: Option<User>)
    ensures r.Some? <==> EmailInUse(users, email)
    ensures r.Some? ==> r.value in users && r.value.email == Some(email)
  {
    if |users| == 0 then None
    else if users[0].email == Some(email) then Some(users[0])
    else
      var r := FindByEmail(users[1..], email);
      assert EmailInUse(users, email) ==> EmailInUse(users[1..], email) by {
        if EmailInUse(users, email) {
          var i :| 0 <= i < |users| && users[i].email == Some(email);
          assert users[1..][i - 1] == users[i];
        }
      }
      assert EmailInUse(users[1..], email) ==> EmailInUse(users, email) by {
        if EmailInUse(users[1..], email) {
          var i :| 0 <= i < |users[1..]| && users[1..][i].email == Some(email);
          assert users[i + 1] == users[1..][i];
        }
      }
      r
  }

  /** The `email` column's UNIQUE constraint: no two rows share an email. */
  predicate UniqueEmails(users: seq<User>) {
    forall i, j :: 0 <= i < |users| && 0 <= j < |users| && users[i].email == users[j].email ==> i == j
  }

  /** The largest id in use, or 0 for an empty table. */
  function MaxId(users: seq<User>): (m: nat)
    ensures forall i :: 0 <= i < |users| && users[i].id.Some? ==> users[i].id.value <= m
  {
    if |users| == 0 then 0
    else
      var rest := MaxId(users[1..]);
      var m := if users[0].id.Some? && users[0].id.value > rest then users[0].id.value else rest;
      assert forall i :: 1 <= i < |users| ==> users[i] == users[1..][i - 1];
      m
  }

  /** The id the database gives a new row: one past the largest in use, so no row has it yet. */
  function NextId(users: seq<User>): (id: int)
    ensures id >= 1
    ensures forall i :: 0 <= i < |users| ==> users[i].id != Some(id)
  {
    MaxId(users) + 1
  }

  /** A `Boolean` column as it reads back after the commit: Python's `True`, `1`, `False` or `0` stored as a boolean. */
  function StoredBool(v: Value): (b: Value)
    requires InBoolSet(v)
    ensures b.PyBool? && PyEq(b, v)
  {
    PyBool(NumericValue(v) == 1)
  }

  /**
   * The row a successful commit stores for a validated candidate: a fresh id,
   * the bcrypt hash in place of the password, the flags as booleans, and the
   * clock's time in `created` and `updated`. The other columns are as given.
   */
  function InsertedRow(users: seq<User>, candidate: User, env: Env): (row: User)
    requires ValidateUser(env.validEmail, candidate).None?
    ensures StoredUser(row)
    ensures row.id == Some(NextId(users))
    ensures row.firstName == candidate.firstName && row.lastName == candidate.lastName
    ensures row.email == candidate.email
    ensures row.password == Some(env.hash(candidate.password.value))
    ensures PyEq(row.isActive, candidate.isActive) && PyEq(row.metric, candidate.metric)
  {
    assert forall k :: 0 <= k < 8 ==> UserChecks(env.validEmail, candidate)[k];
    assert UserChecks(env.validEmail, candidate)[5] && UserChecks(env.validEmail, candidate)[6];
    candidate.(
      id := Some(NextId(users)),
      password := Some(env.hash(candidate.password.value)),
      isActive := StoredBool(candidate.isActive),
      metric := StoredBool(candidate.metric),
      created := Some(env.now),
      updated := Some(env.now))
  }

  /** The candidate passes `validate` and its email is still free: the commit is attempted. */
  predicate Admissible(db: Db, candidate: User, env: Env) {
    ValidateUser(env.validEmail, candidate).None? && !EmailInUse(db.users, candidate.email.value)
  }

  /**
   * The registration decision chain: `validate` first, then the duplicate-email
   * lookup, then the commit. A validation message is answered with 400 before
   * the store is looked at; a taken email, or a commit that raises
   * `IntegrityError`, with 400 'That email address is already in use'; any other
   * failing commit with 500 'Unable to create new user'. Only a commit that
   * goes through answers 201 with the stored row's projection, and only then
   * does the store change, by that one row.
   */
  function Register(db: Db, candidate: User, env: Env, commit: CommitOutcome): (o: Outcome)
    ensures o.response.status == 201 <==> Admissible(db, candidate, env) && commit == Committed
    ensures o.response.status != 201 ==> o.db == db
    ensures ValidateUser(env.validEmail, candidate).Some? ==>
      o.response == Failure(400, ValidateUser(env.validEmail, candidate).value)
    ensures ValidateUser(env.validEmail, candidate).None? && EmailInUse(db.users, candidate.email.value) ==>
      o.response == Failure(400, EmailInUseMessage)
    ensures Admissible(db, candidate, env) && commit == IntegrityFailure ==>
      o.response == Failure(400, EmailInUseMessage)
    ensures Admissible(db, candidate, env) && commit == OtherFailure ==>
      o.response == Failure(500, CreateFailedMessage)
    ensures Admissible(db, candidate, env) && commit == Committed ==>
      var row := InsertedRow(db.users, candidate, env);
      && o.db == db.(users := db.users + [row])
      && o.response == Response(201, UserKey, UserBase(row))
  {
    match ValidateUser(env.validEmail, candidate)
    case Some(error) => Outcome(Failure(400, error), db)
    case None =>
      if FindByEmail(db.users, candidate.email.value).Some? then
        Outcome(Failure(400, EmailInUseMessage), db)
      else
        match commit
        case Committed =>
          var row := InsertedRow(db.users, candidate, env);
          Outcome(Response(201, UserKey, UserBase(row)), db.(users := db.users + [row]))
        case IntegrityFailure => Outcome(Failure(400, EmailInUseMessage), db)
        case OtherFailure => Outcome(Failure(500, CreateFailedMessage), db)
  }

  /**
   * The user `user_list` builds from the form: the four fields it passes, and
   * nothing else, so `is_active`, `metric`, `id` and the timestamps are `None`.
   */
  function FormUser(form: Fields): (u: User)
    ensures u.firstName == Field(form, "first_name") && u.lastName == Field(form, "last_name")
    ensures u.email == Field(form, "email") && u.password == Field(form, "password")
    ensures u.isActive.PyNone? && u.metric.PyNone? && u.id.None?
  {
    User(
      id := None,
      firstName := Field(form, "first_name"),
      lastName := Field(form, "last_name"),
      email := Field(form, "email"),
      password := Field(form, "password"),
      isActive := PyNone,
      metric := PyNone,
      created := None,
      updated := None)
  }

  /** The POST branch of `user_list` as written: the form user goes straight to `validate`. */
  function CreateUser(db: Db, form: Fields, env: Env, commit: CommitOutcome): (o: Outcome)
    ensures o.response.status == 400 && o.db == db
  {
    var candidate := FormUser(form);
    assert !UserChecks(env.validEmail, candidate)[5];
    Register(db, candidate, env, commit)
  }

  /**
   * Registration as written never succeeds: a form that passes the name, email
   * and password-presence checks is refused with 'Invalid is_active value',
   * because the column default `True` is only applied by the INSERT.
   */
  lemma CreateUserRejectsCompleteForm(db: Db, form: Fields, env: Env, commit: CommitOutcome)
    requires "first_name" in form && "last_name" in form && "email" in form && "password" in form
    requires env.validEmail(form["email"])
    ensures CreateUser(db, form, env, commit).response == Failure(400, "Invalid is_active value")
    ensures CreateUser(db, form, env, commit).db == db
  {
    AbsentFlagsRejected(env.validEmail, FormUser(form));
  }

  /** A Boolean column's `default=` applied to a value not given. */
  function Defaulted(v: Value, default: bool): (r: Value)
    ensures v.PyNone? ==> r == PyBool(default)
    ensures !v.PyNone? ==> r == v
  {
    if v.PyNone? then PyBool(default) else v
  }

  /** The form user with the column defaults `is_active=True` and `metric=False` in place. */
  function WithColumnDefaults(u: User): (d: User)
    ensures d.(isActive := u.isActive, metric := u.metric) == u
    ensures !d.isActive.PyNone? && !d.metric.PyNone?
    ensures u.isActive.PyNone? ==> d.isActive == PyBool(true)
    ensures u.metric.PyNone? ==> d.metric == PyBool(false)
    ensures !u.isActive.PyNone? ==> d.isActive == u.isActive
    ensures !u.metric.PyNone? ==> d.metric == u.metric
    ensures u.isActive.PyNone? || InBoolSet(u.isActive) ==> InBoolSet(d.isActive)
    ensures u.metric.PyNone? || InBoolSet(u.metric) ==> InBoolSet(d.metric)
  {
    u.(isActive := Defaulted(u.isActive, true), metric := Defaulted(u.metric, false))
  }

  /** The POST branch of `user_list` as evidently intended: the defaults are applied before `validate`. */
  function CreateUserWithDefaults(db: Db, form: Fields, env: Env, commit: CommitOutcome): (o: Outcome)
    ensures o.response.status == 201 ==>
      && |o.db.users| == |db.users| + 1
      && o.db.users[..|db.users|] == db.users
      && var row := o.db.users[|db.users|];
      && row.email == Field(form, "email")
      && row.created.Some? && row.updated.Some?
      && o.response.payload == UserBase(row)
    ensures o.response.status != 201 ==> o.db == db && o.response.key == ErrorKey
  {
    Register(db, WithColumnDefaults(FormUser(form)), env, commit)
  }

  /**
   * With the defaults applied, a complete form with a well-formed email, a
   * password of at least 8 characters and an unused email is registered: 201,
   * and the store gains exactly the new row, which carries the given email,
   * is active and uses miles.
   */
  lemma CreateWithDefaultsSucceeds(db: Db, form: Fields, env: Env)
    requires "first_name" in form && "last_name" in form && "email" in form && "password" in form
    requires env.validEmail(form["email"]) && |form["password"]| >= 8
    requires !EmailInUse(db.users, form["email"])
    ensures var o := CreateUserWithDefaults(db, form, env, Committed);
      && o.response.status == 201
      && |o.db.users| == |db.users| + 1
      && o.db.users[..|db.users|] == db.users
      && var row := o.db.users[|db.users|];
      && row.email == Some(form["email"])
      && row.isActive == PyBool(true) && row.metric == PyBool(false)
      && o.db.runs == db.runs && o.db.comments == db.comments && o.db.intervals == db.intervals
  {
    var candidate := WithColumnDefaults(FormUser(form));
    PasswordLengthDecides(env.validEmail, candidate);
  }

  /** A validation failure is decided before the store is consulted: two stores get the same answer and stay as they were. */
  lemma ValidationIgnoresStore(db1: Db, db2: Db, candidate: User, env: Env, commit: CommitOutcome)
    requires ValidateUser(env.validEmail, candidate).Some?
    ensures Register(db1, candidate, env, commit).response == Register(db2, candidate, env, commit).response
    ensures Register(db1, candidate, env, commit).db == db1
  {
  }

  lemma {:induction false} UserExistsAfterAppend(users: seq<User>, row: User, id: int)
    requires UserExists(users, id)
    ensures UserExists(users + [row], id)
  {
    var i :| 0 <= i < |users| && users[i].id == Some(id);
    assert (users + [row])[i] == users[i];
  }

  /**
   * Registration keeps the store consistent: the schema guarantees still hold
   * (the new row is complete and has an unused id) and no two users share an
   * email, whatever the commit does.
   */
  lemma RegisterPreservesStore(db: Db, candidate: User, env: Env, commit: CommitOutcome)
    requires WellFormed(db) && UniqueEmails(db.users)
    ensures WellFormed(Register(db, candidate, env, commit).db)
    ensures UniqueEmails(Register(db, candidate, env, commit).db.users)
  {
    var o := Register(db, candidate, env, commit);
    if o.response.status == 201 {
      var row := InsertedRow(db.users, candidate, env);
      var users := db.users + [row];
      assert o.db == db.(users := users);
      assert forall i :: 0 <= i < |db.users| ==> users[i] == db.users[i];
      forall u | u in users
        ensures StoredUser(u)
      {
        if u != row {
          assert u in db.users;
        }
      }
      assert UniqueUserIds(users);
      assert UniqueEmails(users);
      forall r | r in db.runs
        ensures UserExists(users, r.userId.value)
      {
        UserExistsAfterAppend(db.users, row, r.userId.value);
      }
      forall c | c in db.comments
        ensures UserExists(users, c.userId.value)
      {
        UserExistsAfterAppend(db.users, row, c.userId.value);
      }
    }
  }

  // ---------------------------------------------------------------------------
  // GET /api/users/<id> and /api/users/<id>/runs
  // ---------------------------------------------------------------------------

  const NoSuchUserMessage := "User does not exist"

  /** `user_detail`: 404 when no user has the id, otherwise 200 with that user's projection. */
  function UserDetail(db: Db, id: int): (r: Response)
    requires WellFormed(db)
    ensures r.status == 404 <==> !UserExists(db.users, id)
    ensures r.status == 404 ==> r == Failure(404, NoSuchUserMessage)
    ensures r.status != 404 ==>
      && r.status == 200 && r.key == UserKey && HasNoKey(r.payload, PasswordKey)
      && exists u :: u in db.users && u.id == Some(id) && r.payload == SerializeUser(db, u, false)
  {
    match FindUser(db.users, id)
    case None => Failure(404, NoSuchUserMessage)
    case Some(u) => Response(200, UserKey, SerializeUser(db, u, false))
  }

  /**
   * `user_runs`: 404 when no user has the id, otherwise 200 with that user's
   * projection including `runs`.
   */
  function UserRuns(db: Db, id: int): (r: Response)
    requires WellFormed(db)
    ensures r.status == 404 <==> !UserExists(db.users, id)
    ensures r.status == 404 ==> r == Failure(404, NoSuchUserMessage)
    ensures r.status != 404 ==>
      && r.status == 200 && r.key == UserKey && HasNoKey(r.payload, PasswordKey)
      && exists u :: u in db.users && u.id == Some(id) && r.payload == SerializeUser(db, u, true)
  {
    match FindUser(db.users, id)
    case None => Failure(404, NoSuchUserMessage)
    case Some(u) => Response(200, UserKey, SerializeUser(db, u, true))
  }

  /** Looking up a stored user's own id answers with that user, with and without runs. */
  lemma DetailOfStoredUser(db: Db, u: User)
    requires WellFormed(db) && u in db.users
    ensures UserDetail(db, u.id.value) == Response(200, UserKey, SerializeUser(db, u, false))
    ensures UserRuns(db, u.id.value) == Response(200, UserKey, SerializeUser(db, u, true))
  {
    FindUserFindsItself(db.users, u);
  }
}
