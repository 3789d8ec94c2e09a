/**
 * The four tables (`User`, `Run`, `Interval`, `RunComment`), their `validate`
 * rule chains and their `serialize` projections.
 *
 * An entity is the in-memory object: a column the constructor was not given is
 * `None` until the row is inserted, since column defaults are applied by the
 * INSERT. Relationship attributes (`user.runs`, `run.user`, `run.run_comments`,
 * `run.intervals`, `comment.run`, `comment.user`) are foreign-key lookups in a
 * `Db` snapshot.
 */
module Models {
  import opened Wrappers
  import opened Python
  import opened Jsonify

  /** A `DateTime` column, kept as its fixed ISO rendering (`YYYY-MM-DDTHH:MM:SS`). */
  datatype Timestamp = Timestamp(iso: string)

  datatype User = User(
    id: Option<int>,
    firstName: Option<string>,
    lastName: Option<string>,
    email: Option<string>,
    password: Option<string>,
    isActive: Value,
    metric: Value,
    created: Option<Timestamp>,
    updated: Option<Timestamp>)

  datatype Run = Run(
    id: Option<int>,
    userId: Option<int>,
    runDate: Option<Timestamp>,
    distance: Option<int>,
    duration: Option<int>,
    metric: Value,
    warmup: Option<int>,
    cooldown: Option<int>,
    runType: Option<string>,
    location: Option<string>,
    notes: Option<string>,
    created: Option<Timestamp>,
    updated: Option<Timestamp>)

  datatype Interval = Interval(
    id: Option<int>,
    runId: Option<int>,
    distance: Option<int>,
    duration: Option<int>,
    metric: Value,
    created: Option<Timestamp>,
    updated: Option<Timestamp>)

  datatype RunComment = RunComment(
    id: Option<int>,
    runId: Option<int>,
    userId: Option<int>,
    comment: Option<string>,
    created: Option<Timestamp>,
    updated: Option<Timestamp>)

  /** The rows of the four tables, each in storage order. */
  datatype Db = Db(users: seq<User>, runs: seq<Run>, intervals: seq<Interval>, comments: seq<RunComment>)

  // ---------------------------------------------------------------------------
  // Validation: fixed-order rule chains reporting the first failing rule
  // ---------------------------------------------------------------------------

  /** Rule `k` is the first of `checks` to fail. */
  predicate FirstFailing(checks: seq<bool>, k: int) {
    0 <= k < |checks| && !checks[k] && forall j :: 0 <= j < k ==> checks[j]
  }

  /** The checks of `User.validate`, in the order the method makes them. */
  function UserChecks(validEmail: string -> bool, u: User): seq<bool> {
    [ u.firstName.Some?,
      u.lastName.Some?,
      u.email.Some?,
      u.email.Some? ==> validEmail(u.email.value),
      u.password.Some?,
      InBoolSet(u.isActive),
      InBoolSet(u.metric),
      u.password.Some? ==> |u.password.value| >= 8 ]
  }

  /** The message `User.validate` returns for each failing check, in the same order. */
  const UserMessages: seq<string> := [
    "Must supply first name",
    "Must supply last name",
    "Must supply email",
    "Invalid email address",
    "Must supply password",
    "Invalid is_active value",
    "Invalid metric value",
    "Password must be at least 8 characters"
  ]

  /**
   * `User.validate`: the message of the first failing check, or `None`.
   * `validEmail` is the email-syntax check of the `validate_email` library.
   */
  function ValidateUser(validEmail: string -> bool, u: User): (r: Option<string>)
    ensures r.None? <==> forall k :: 0 <= k < |UserMessages| ==> UserChecks(validEmail, u)[k]
    ensures forall k :: FirstFailing(UserChecks(validEmail, u), k) ==> r == Some(UserMessages[k])
  {
    var c := UserChecks(validEmail, u);
    if u.firstName.None? then FirstFailingUnique(c, 0); Some("Must supply first name")
    else if u.lastName.None? then FirstFailingUnique(c, 1); Some("Must supply last name")
    else if u.email.None? then FirstFailingUnique(c, 2); Some("Must supply email")
    else if !validEmail(u.email.value) then FirstFailingUnique(c, 3); Some("Invalid email address")
    else if u.password.None? then FirstFailingUnique(c, 4); Some("Must supply password")
    else if !InBoolSet(u.isActive) then FirstFailingUnique(c, 5); Some("Invalid is_active value")
    else if !InBoolSet(u.metric) then FirstFailingUnique(c, 6); Some("Invalid metric value")
    else if |u.password.value| < 8 then
      FirstFailingUnique(c, 7); Some("Password must be at least 8 characters")
    else
      assert forall k :: 0 <= k < |c| ==> c[k];
      None
  }

  /** A rule that fails first is the only rule that fails first, and not every rule passes. */
  lemma FirstFailingUnique(checks: seq<bool>, k: int)
    requires FirstFailing(checks, k)
    ensures forall k' :: FirstFailing(checks, k') ==> k' == k
    ensures !(forall j :: 0 <= j < |checks| ==> checks[j])
  {
  }

  /** The checks of `Run.validate`, in order. */
  function RunChecks(r: Run): seq<bool> {
    [ r.runDate.Some?,
      r.distance.Some?,
      r.duration.Some?,
      InBoolSet(r.metric),
      r.runType.Some? ]
  }

  const RunMessages: seq<string> := [
    "Invalid run date",
    "Must supply distance",
    "Must supply duration",
    "Invalid metric setting",
    "Must supply run type"
  ]

  /** `Run.validate`: the message of the first failing check, or `None`. */
  function ValidateRun(r: Run): (e: Option<string>)
    ensures e.None? <==> forall k :: 0 <= k < |RunMessages| ==> RunChecks(r)[k]
    ensures forall k :: FirstFailing(RunChecks(r), k) ==> e == Some(RunMessages[k])
  {
    var c := RunChecks(r);
    if r.runDate.None? then FirstFailingUnique(c, 0); Some("Invalid run date")
    else if r.distance.None? then FirstFailingUnique(c, 1); Some("Must supply distance")
    else if r.duration.None? then FirstFailingUnique(c, 2); Some("Must supply duration")
    else if !InBoolSet(r.metric) then FirstFailingUnique(c, 3); Some("Invalid metric setting")
    else if r.runType.None? then FirstFailingUnique(c, 4); Some("Must supply run type")
    else
      assert forall k :: 0 <= k < |c| ==> c[k];
      None
  }

  /**
   * `RunComment.validate`: the text must be present and not empty; any other
   * string, whitespace alone included, is accepted.
   */
  function ValidateComment(c: RunComment): (e: Option<string>)
    ensures e.None? <==> c.comment.Some? && c.comment.value != ""
    ensures e.Some? ==> e.value == "Must supply comment text"
  {
    if c.comment.None? || c.comment.value == "" then Some("Must supply comment text") else None
  }

  /** Each message names exactly one rule, so the message reported identifies the rule that failed. */
  lemma ValidationMessagesDistinct()
    ensures forall i, j :: 0 <= i < j < |UserMessages| ==> UserMessages[i] != UserMessages[j]
    ensures forall i, j :: 0 <= i < j < |RunMessages| ==> RunMessages[i] != RunMessages[j]
  {
  }

  /** A missing password is reported as missing; the length check is never reached. */
  lemma AbsentPasswordReported(validEmail: string -> bool, u: User)
    requires u.firstName.Some? && u.lastName.Some? && u.email.Some? && validEmail(u.email.value)
    requires u.password.None?
    ensures ValidateUser(validEmail, u) == Some("Must supply password")
  {
    assert FirstFailing(UserChecks(validEmail, u), 4);
  }

  /** An `is_active` or `metric` of `None` is rejected once the earlier checks pass. */
  lemma AbsentFlagsRejected(validEmail: string -> bool, u: User)
    requires u.firstName.Some? && u.lastName.Some? && u.email.Some? && validEmail(u.email.value)
    requires u.password.Some?
    ensures u.isActive.PyNone? ==> ValidateUser(validEmail, u) == Some("Invalid is_active value")
    ensures InBoolSet(u.isActive) && u.metric.PyNone? ==> ValidateUser(validEmail, u) == Some("Invalid metric value")
  {
    if u.isActive.PyNone? {
      assert FirstFailing(UserChecks(validEmail, u), 5);
    } else if InBoolSet(u.isActive) && u.metric.PyNone? {
      assert FirstFailing(UserChecks(validEmail, u), 6);
    }
  }

  /** Once every other check passes, the password length alone decides. */
  lemma PasswordLengthDecides(validEmail: string -> bool, u: User)
    requires u.firstName.Some? && u.lastName.Some? && u.email.Some? && validEmail(u.email.value)
    requires u.password.Some? && InBoolSet(u.isActive) && InBoolSet(u.metric)
    ensures ValidateUser(validEmail, u).None? <==> |u.password.value| >= 8
  {
    if |u.password.value| < 8 {
      assert !UserChecks(validEmail, u)[7];
    }
  }

  // ---------------------------------------------------------------------------
  // The stored state
  // ---------------------------------------------------------------------------

  /** A loaded `users` row: NOT NULL columns hold values and the defaults have been applied. */
  predicate StoredUser(u: User) {
    && u.id.Some? && u.firstName.Some? && u.lastName.Some? && u.email.Some? && u.password.Some?
    && u.isActive.PyBool? && u.metric.PyBool? && u.created.Some? && u.updated.Some?
  }

  predicate StoredRun(r: Run) {
    && r.id.Some? && r.userId.Some? && r.runDate.Some? && r.distance.Some? && r.duration.Some?
    && r.metric.PyBool? && r.created.Some? && r.updated.Some?
  }

  predicate StoredInterval(iv: Interval) {
    && iv.id.Some? && iv.runId.Some? && iv.distance.Some? && iv.duration.Some?
    && iv.metric.PyBool? && iv.created.Some? && iv.updated.Some?
  }

  predicate StoredComment(c: RunComment) {
    && c.id.Some? && c.runId.Some? && c.userId.Some? && c.comment.Some?
    && c.created.Some? && c.updated.Some?
  }

  predicate UserExists(users: seq<User>, id: int) {
    exists i :: 0 <= i < |users| && users[i].id == Some(id)
  }

  predicate RunExists(runs: seq<Run>, id: int) {
    exists i :: 0 <= i < |runs| && runs[i].id == Some(id)
  }

  /** The `users` primary key: no two rows share an id. */
  predicate UniqueUserIds(users: seq<User>) {
    forall i, j :: 0 <= i < |users| && 0 <= j < |users| && users[i].id == users[j].id ==> i == j
  }

  predicate UniqueRunIds(runs: seq<Run>) {
    forall i, j :: 0 <= i < |runs| && 0 <= j < |runs| && runs[i].id == runs[j].id ==> i == j
  }

  /** What the schema guarantees of a snapshot: NOT NULL columns, primary keys, foreign keys. */
  predicate WellFormed(db: Db) {
    && (forall u :: u in db.users ==> StoredUser(u))
    && UniqueUserIds(db.users)
    && UniqueRunIds(db.runs)
    && (forall r :: r in db.runs ==> StoredRun(r) && UserExists(db.users, r.userId.value))
    && (forall c :: c in db.comments ==>
          StoredComment(c) && RunExists(db.runs, c.runId.value) && UserExists(db.users, c.userId.value))
    && (forall iv :: iv in db.intervals ==> StoredInterval(iv) && RunExists(db.runs, iv.runId.value))
  }

  /** `User.query.filter_by(id=id).first()`. */
  function FindUser(users: seq<User>, id: int): (r: Option<User>)
    ensures r.Some? <==> UserExists(users, id)
    ensures r.Some? ==> r.value in users && r.value.id == Some(id)
  {
    if |users| == 0 then None
    else if users[0].id == Some(id) then Some(users[0])
    else
      var r := FindUser(users[1..], id);
      assert UserExists(users, id) ==> UserExists(users[1..], id) by {
        if UserExists(users, id) {
          var i :| 0 <= i < |users| && users[i].id == Some(id);
          assert users[1..][i - 1] == users[i];
        }
      }
      assert UserExists(users[1..], id) ==> UserExists(users, id) by {
        if UserExists(users[1..], id) {
          var i :| 0 <= i < |users[1..]| && users[1..][i].id == Some(id);
          assert users[i + 1] == users[1..][i];
        }
      }
      r
  }

  /** `Run.query.filter_by(id=id).first()`. */
  function FindRun(runs: seq<Run>, id: int): (r: Option<Run>)
    ensures r.Some? <==> RunExists(runs, id)
    ensures r.Some? ==> r.value in runs && r.value.id == Some(id)
  {
    if |runs| == 0 then None
    else if runs[0].id == Some(id) then Some(runs[0])
    else
      var r := FindRun(runs[1..], id);
      assert RunExists(runs, id) ==> RunExists(runs[1..], id) by {
        if RunExists(runs, id) {
          var i :| 0 <= i < |runs| && runs[i].id == Some(id);
          assert runs[1..][i - 1] == runs[i];
        }
      }
      assert RunExists(runs[1..], id) ==> RunExists(runs, id) by {
        if RunExists(runs[1..], id) {
          var i :| 0 <= i < |runs[1..]| && runs[1..][i].id == Some(id);
          assert runs[i + 1] == runs[1..][i];
        }
      }
      r
  }

  /** With unique ids, looking up a stored user's own id finds that user. */
  lemma {:induction false} FindUserFindsItself(users: seq<User>, u: User)
    requires UniqueUserIds(users) && u in users && u.id.Some?
    ensures FindUser(users, u.id.value) == Some(u)
  {
    var r := FindUser(users, u.id.value);
    var i :| 0 <= i < |users| && users[i] == u;
    var j :| 0 <= j < |users| && users[j] == r.value;
    assert i == j;
  }

  lemma {:induction false} FindRunFindsItself(runs: seq<Run>, r: Run)
    requires UniqueRunIds(runs) && r in runs && r.id.Some?
    ensures FindRun(runs, r.id.value) == Some(r)
  {
    var f := FindRun(runs, r.id.value);
    var i :| 0 <= i < |runs| && runs[i] == r;
    var j :| 0 <= j < |runs| && runs[j] == f.value;
    assert i == j;
  }

  /** `user.runs`: the runs whose `user_id` is `uid`, in storage order. */
  function RunsOf(runs: seq<Run>, uid: int): (rs: seq<Run>)
    ensures forall r :: r in rs <==> r in runs && r.userId == Some(uid)
    ensures forall r :: multiset(rs)[r] == if r.userId == Some(uid) then multiset(runs)[r] else 0
  {
    if |runs| == 0 then []
    else
      assert runs == [runs[0]] + runs[1..];
      if runs[0].userId == Some(uid) then [runs[0]] + RunsOf(runs[1..], uid)
      else RunsOf(runs[1..], uid)
  }

  /** `run.run_comments`: the comments whose `run_id` is `rid`, in storage order. */
  function CommentsOf(comments: seq<RunComment>, rid: int): (cs: seq<RunComment>)
    ensures forall c :: c in cs <==> c in comments && c.runId == Some(rid)
    ensures forall c :: multiset(cs)[c] == if c.runId == Some(rid) then multiset(comments)[c] else 0
  {
    if |comments| == 0 then []
    else
      assert comments == [comments[0]] + comments[1..];
      if comments[0].runId == Some(rid) then [comments[0]] + CommentsOf(comments[1..], rid)
      else CommentsOf(comments[1..], rid)
  }

  /** `run.intervals`: the intervals whose `run_id` is `rid`, in storage order. */
  function IntervalsOf(intervals: seq<Interval>, rid: int): (ivs: seq<Interval>)
    ensures forall iv :: iv in ivs <==> iv in intervals && iv.runId == Some(rid)
    ensures forall iv :: multiset(ivs)[iv] == if iv.runId == Some(rid) then multiset(intervals)[iv] else 0
  {
    if |intervals| == 0 then []
    else
      assert intervals == [intervals[0]] + intervals[1..];
      if intervals[0].runId == Some(rid) then [intervals[0]] + IntervalsOf(intervals[1..], rid)
      else IntervalsOf(intervals[1..], rid)
  }

  /** `run.user`: the owner row a stored run's foreign key points at. */
  function Owner(db: Db, r: Run): (u: User)
    requires WellFormed(db) && r in db.runs
    ensures u in db.users && u.id == r.userId
  {
    FindUser(db.users, r.userId.value).value
  }

  // ---------------------------------------------------------------------------
  // Serialization
  // ---------------------------------------------------------------------------

  function Iso(t: Option<Timestamp>): (j: Json)
    requires t.Some?
    ensures IsScalar(j)
  {
    JStr(t.value.iso)
  }

  const UserBaseKeys: set<Key> :=
    {IdKey, FirstNameKey, LastNameKey, EmailKey, IsActiveKey, MetricKey, CreatedKey, UpdatedKey}

  const RunColumnKeys: set<Key> :=
    {IdKey, RunDateKey, DistanceKey, DurationKey, MetricKey, WarmupKey, CooldownKey,
     RunTypeKey, LocationKey, NotesKey, CreatedKey, UpdatedKey}

  const RunBaseKeys: set<Key> := RunColumnKeys + {UserKey}

  const IntervalColumnKeys: set<Key> := {IdKey, DistanceKey, DurationKey, MetricKey, CreatedKey, UpdatedKey}

  const IntervalKeys: set<Key> := IntervalColumnKeys + {RunKey}

  const CommentColumnKeys: set<Key> := {IdKey, CommentKey, CreatedKey, UpdatedKey}

  const CommentKeys: set<Key> := CommentColumnKeys + {RunKey} + {UserKey}

  /** The facts about the key sets the projections rely on; none of them holds the password. */
  lemma KeySetFacts()
    ensures PasswordKey !in UserBaseKeys && RunsKey !in UserBaseKeys
    ensures PasswordKey !in RunColumnKeys && PasswordKey !in RunBaseKeys
    ensures RunCommentsKey !in RunBaseKeys && IntervalsKey !in RunBaseKeys
    ensures PasswordKey !in IntervalColumnKeys && PasswordKey !in CommentColumnKeys
  {
  }

  /**
   * `User.serialize()` without runs: every column except the password.
   * The timestamps must be set, since the method formats them.
   */
  function UserBase(u: User): (j: Json)
    requires u.created.Some? && u.updated.Some?
    ensures j.JObject? && j.fields.Keys == UserBaseKeys
    ensures HasNoKey(j, PasswordKey)
    ensures j.fields[IdKey] == OptInt(u.id)
    ensures j.fields[FirstNameKey] == OptStr(u.firstName) && j.fields[LastNameKey] == OptStr(u.lastName)
    ensures j.fields[EmailKey] == OptStr(u.email)
    ensures j.fields[IsActiveKey] == FromValue(u.isActive) && j.fields[MetricKey] == FromValue(u.metric)
    ensures j.fields[CreatedKey] == Iso(u.created) && j.fields[UpdatedKey] == Iso(u.updated)
  {
    var m := map[
      IdKey := OptInt(u.id),
      FirstNameKey := OptStr(u.firstName),
      LastNameKey := OptStr(u.lastName),
      EmailKey := OptStr(u.email),
      IsActiveKey := FromValue(u.isActive),
      MetricKey := FromValue(u.metric),
      CreatedKey := Iso(u.created),
      UpdatedKey := Iso(u.updated)
    ];
    assert m.Keys == UserBaseKeys;
    KeySetFacts();
    FlatObjectHasNoKey(m, PasswordKey);
    JObject(m)
  }

  /** The scalar columns of a run as `Run.serialize()` writes them. */
  function RunColumns(r: Run): (m: map<Key, Json>)
    requires r.runDate.Some? && r.created.Some? && r.updated.Some?
    ensures m.Keys == RunColumnKeys
    ensures forall k :: k in m ==> IsScalar(m[k])
  {
    map[
      IdKey := OptInt(r.id),
      RunDateKey := Iso(r.runDate),
      DistanceKey := OptInt(r.distance),
      DurationKey := OptInt(r.duration),
      MetricKey := FromValue(r.metric),
      WarmupKey := OptInt(r.warmup),
      CooldownKey := OptInt(r.cooldown),
      RunTypeKey := OptStr(r.runType),
      LocationKey := OptStr(r.location),
      NotesKey := OptStr(r.notes),
      CreatedKey := Iso(r.created),
      UpdatedKey := Iso(r.updated)
    ]
  }

  /** What each run column holds: the row's own attribute, timestamps in ISO form. */
  lemma RunColumnValues(r: Run)
    requires r.runDate.Some? && r.created.Some? && r.updated.Some?
    ensures RunColumns(r)[IdKey] == OptInt(r.id) && RunColumns(r)[RunDateKey] == Iso(r.runDate)
    ensures RunColumns(r)[DistanceKey] == OptInt(r.distance) && RunColumns(r)[DurationKey] == OptInt(r.duration)
    ensures RunColumns(r)[MetricKey] == FromValue(r.metric)
    ensures RunColumns(r)[WarmupKey] == OptInt(r.warmup) && RunColumns(r)[CooldownKey] == OptInt(r.cooldown)
    ensures RunColumns(r)[RunTypeKey] == OptStr(r.runType) && RunColumns(r)[LocationKey] == OptStr(r.location)
    ensures RunColumns(r)[NotesKey] == OptStr(r.notes)
    ensures RunColumns(r)[CreatedKey] == Iso(r.created) && RunColumns(r)[UpdatedKey] == Iso(r.updated)
  {
  }

  /** `Run.serialize()` without nested lists: the columns, with the owner's base projection under `user`. */
  function RunBase(db: Db, r: Run): (j: Json)
    requires WellFormed(db) && r in db.runs
    ensures j.JObject? && j.fields.Keys == RunBaseKeys
    ensures j.fields[IdKey] == OptInt(r.id) && j.fields[RunDateKey] == Iso(r.runDate)
    ensures j.fields[DistanceKey] == OptInt(r.distance) && j.fields[DurationKey] == OptInt(r.duration)
    ensures j.fields[MetricKey] == FromValue(r.metric)
    ensures j.fields[WarmupKey] == OptInt(r.warmup) && j.fields[CooldownKey] == OptInt(r.cooldown)
    ensures j.fields[RunTypeKey] == OptStr(r.runType) && j.fields[LocationKey] == OptStr(r.location)
    ensures j.fields[NotesKey] == OptStr(r.notes)
    ensures j.fields[CreatedKey] == Iso(r.created) && j.fields[UpdatedKey] == Iso(r.updated)
    ensures j.fields[UserKey] == UserBase(Owner(db, r))
    ensures HasNoKey(j, PasswordKey)
  {
    var cols := RunColumns(r);
    RunColumnValues(r);
    KeySetFacts();
    FlatObjectHasNoKey(cols, PasswordKey);
    WithField(JObject(cols), UserKey, UserBase(Owner(db, r)))
  }

  /** The scalar columns of an interval as `Interval.serialize()` writes them. */
  function IntervalColumns(iv: Interval): (m: map<Key, Json>)
    requires iv.created.Some? && iv.updated.Some?
    ensures m.Keys == IntervalColumnKeys
    ensures forall k :: k in m ==> IsScalar(m[k])
    ensures m[IdKey] == OptInt(iv.id)
    ensures m[DistanceKey] == OptInt(iv.distance) && m[DurationKey] == OptInt(iv.duration)
    ensures m[MetricKey] == FromValue(iv.metric)
    ensures m[CreatedKey] == Iso(iv.created) && m[UpdatedKey] == Iso(iv.updated)
  {
    map[
      IdKey := OptInt(iv.id),
      DistanceKey := OptInt(iv.distance),
      DurationKey := OptInt(iv.duration),
      MetricKey := FromValue(iv.metric),
      CreatedKey := Iso(iv.created),
      UpdatedKey := Iso(iv.updated)
    ]
  }

  /** `interval.run`: the run a stored interval's foreign key points at. */
  function IntervalRun(db: Db, iv: Interval): (r: Run)
    requires WellFormed(db) && iv in db.intervals
    ensures r in db.runs && r.id == iv.runId
  {
    FindRun(db.runs, iv.runId.value).value
  }

  /** `Interval.serialize()`: its columns, with its run's base projection under `run`. */
  function SerializeInterval(db: Db, iv: Interval): (j: Json)
    requires WellFormed(db) && iv in db.intervals
    ensures j.JObject? && j.fields.Keys == IntervalKeys
    ensures j.fields[IdKey] == OptInt(iv.id)
    ensures j.fields[DistanceKey] == OptInt(iv.distance) && j.fields[DurationKey] == OptInt(iv.duration)
    ensures j.fields[MetricKey] == FromValue(iv.metric)
    ensures j.fields[CreatedKey] == Iso(iv.created) && j.fields[UpdatedKey] == Iso(iv.updated)
    ensures j.fields[RunKey] == RunBase(db, IntervalRun(db, iv))
    ensures HasNoKey(j, PasswordKey)
  {
    var cols := IntervalColumns(iv);
    KeySetFacts();
    FlatObjectHasNoKey(cols, PasswordKey);
    WithField(JObject(cols), RunKey, RunBase(db, IntervalRun(db, iv)))
  }

  /** The scalar columns of a comment as `RunComment.serialize()` writes them. */
  function CommentColumns(c: RunComment): (m: map<Key, Json>)
    requires c.created.Some? && c.updated.Some?
    ensures m.Keys == CommentColumnKeys
    ensures forall k :: k in m ==> IsScalar(m[k])
    ensures m[IdKey] == OptInt(c.id) && m[CommentKey] == OptStr(c.comment)
    ensures m[CreatedKey] == Iso(c.created) && m[UpdatedKey] == Iso(c.updated)
  {
    map[
      IdKey := OptInt(c.id),
      CommentKey := OptStr(c.comment),
      CreatedKey := Iso(c.created),
      UpdatedKey := Iso(c.updated)
    ]
  }

  /** `comment.run`: the run a stored comment's foreign key points at. */
  function CommentRun(db: Db, c: RunComment): (r: Run)
    requires WellFormed(db) && c in db.comments
    ensures r in db.runs && r.id == c.runId
  {
    FindRun(db.runs, c.runId.value).value
  }

  /** `comment.user`: the author row a stored comment's foreign key points at. */
  function Author(db: Db, c: RunComment): (u: User)
    requires WellFormed(db) && c in db.comments
    ensures u in db.users && u.id == c.userId
  {
    FindUser(db.users, c.userId.value).value
  }

  /** `RunComment.serialize()`: the text, its run's base projection and its author's base projection. */
  function SerializeComment(db: Db, c: RunComment): (j: Json)
    requires WellFormed(db) && c in db.comments
    ensures j.JObject? && j.fields.Keys == CommentKeys
    ensures j.fields[IdKey] == OptInt(c.id) && j.fields[CommentKey] == OptStr(c.comment)
    ensures j.fields[CreatedKey] == Iso(c.created) && j.fields[UpdatedKey] == Iso(c.updated)
    ensures j.fields[RunKey] == RunBase(db, CommentRun(db, c))
    ensures j.fields[UserKey] == UserBase(Author(db, c))
    ensures HasNoKey(j, PasswordKey)
  {
    var cols := CommentColumns(c);
    KeySetFacts();
    FlatObjectHasNoKey(cols, PasswordKey);
    var run := RunBase(db, CommentRun(db, c));
    var author := UserBase(Author(db, c));
    var withRun := WithField(JObject(cols), RunKey, run);
    assert HasNoKey(withRun, PasswordKey);
    assert withRun.fields.Keys == CommentColumnKeys + {RunKey};
    assert withRun.fields[IdKey] == cols[IdKey] && withRun.fields[CommentKey] == cols[CommentKey];
    assert withRun.fields[CreatedKey] == cols[CreatedKey] && withRun.fields[UpdatedKey] == cols[UpdatedKey];
    WithField(withRun, UserKey, author)
  }

  /** `[run.serialize() for run in runs]` */
  function RunList(db: Db, runs: seq<Run>): (js: seq<Json>)
    requires WellFormed(db) && forall r :: r in runs ==> r in db.runs
    ensures |js| == |runs|
    ensures forall i :: 0 <= i < |runs| ==> js[i] == RunBase(db, runs[i])
    ensures HasNoKey(JList(js), PasswordKey)
  {
    seq(|runs|, i requires 0 <= i < |runs| => RunBase(db, runs[i]))
  }

  /** `[comment.serialize() for comment in comments]` */
  function CommentList(db: Db, cs: seq<RunComment>): (js: seq<Json>)
    requires WellFormed(db) && forall c :: c in cs ==> c in db.comments
    ensures |js| == |cs|
    ensures forall i :: 0 <= i < |cs| ==> js[i] == SerializeComment(db, cs[i])
    ensures HasNoKey(JList(js), PasswordKey)
  {
    seq(|cs|, i requires 0 <= i < |cs| => SerializeComment(db, cs[i]))
  }

  /** `[interval.serialize() for interval in intervals]` */
  function IntervalList(db: Db, ivs: seq<Interval>): (js: seq<Json>)
    requires WellFormed(db) && forall iv :: iv in ivs ==> iv in db.intervals
    ensures |js| == |ivs|
    ensures forall i :: 0 <= i < |ivs| ==> js[i] == SerializeInterval(db, ivs[i])
    ensures HasNoKey(JList(js), PasswordKey)
  {
    seq(|ivs|, i requires 0 <= i < |ivs| => SerializeInterval(db, ivs[i]))
  }

  /**
   * `User.serialize(include_runs)`: the base projection, plus `runs` (one base
   * run projection per run of the user, in order) exactly when `includeRuns`
   * is set. No password appears at any depth.
   */
  function SerializeUser(db: Db, u: User, includeRuns: bool): (j: Json)
    requires u.created.Some? && u.updated.Some?
    requires includeRuns ==> WellFormed(db) && u in db.users
    ensures j.JObject? && HasNoKey(j, PasswordKey)
    ensures j.fields.Keys == if includeRuns then UserBaseKeys + {RunsKey} else UserBaseKeys
    ensures forall k :: k in UserBaseKeys ==> j.fields[k] == UserBase(u).fields[k]
    ensures includeRuns ==>
      var runs := RunsOf(db.runs, u.id.value);
      && j.fields[RunsKey].JList?
      && |j.fields[RunsKey].items| == |runs|
      && forall i :: 0 <= i < |runs| ==> j.fields[RunsKey].items[i] == RunBase(db, runs[i])
  {
    var base := UserBase(u);
    if includeRuns then
      KeySetFacts();
      WithField(base, RunsKey, JList(RunList(db, RunsOf(db.runs, u.id.value))))
    else base
  }

  /**
   * The optional part of `Run.serialize()`: `run_comments` added exactly when
   * `includeComments` is set and `intervals` exactly when `includeIntervals`
   * is set; every other entry of `base` is kept as it is.
   */
  function WithRelations(base: Json, comments: Json, intervals: Json,
                         includeComments: bool, includeIntervals: bool): (j: Json)
    requires base.JObject? && RunCommentsKey !in base.fields && IntervalsKey !in base.fields
    requires HasNoKey(base, PasswordKey) && HasNoKey(comments, PasswordKey) && HasNoKey(intervals, PasswordKey)
    ensures j.JObject? && HasNoKey(j, PasswordKey)
    ensures j.fields.Keys ==
      base.fields.Keys
      + (if includeComments then {RunCommentsKey} else {})
      + (if includeIntervals then {IntervalsKey} else {})
    ensures forall k :: k in base.fields ==> j.fields[k] == base.fields[k]
    ensures includeComments ==> j.fields[RunCommentsKey] == comments
    ensures includeIntervals ==> j.fields[IntervalsKey] == intervals
  {
    var withComments := if includeComments then WithField(base, RunCommentsKey, comments) else base;
    if includeIntervals then WithField(withComments, IntervalsKey, intervals) else withComments
  }

  /**
   * `Run.serialize(include_comments, include_intervals)`: the base projection,
   * plus `run_comments` exactly when `includeComments` is set and `intervals`
   * exactly when `includeIntervals` is set, each flag independently; `user` is
   * always the owner's base projection and no password appears at any depth.
   */
  function SerializeRun(db: Db, r: Run, includeComments: bool, includeIntervals: bool): (j: Json)
    requires WellFormed(db) && r in db.runs
    ensures j.JObject? && HasNoKey(j, PasswordKey)
    ensures j.fields.Keys ==
      RunBaseKeys
      + (if includeComments then {RunCommentsKey} else {})
      + (if includeIntervals then {IntervalsKey} else {})
    ensures forall k :: k in RunBaseKeys ==> j.fields[k] == RunBase(db, r).fields[k]
    ensures j.fields[UserKey] == UserBase(Owner(db, r))
    ensures includeComments ==>
      j.fields[RunCommentsKey] == JList(CommentList(db, CommentsOf(db.comments, r.id.value)))
    ensures includeIntervals ==>
      j.fields[IntervalsKey] == JList(IntervalList(db, IntervalsOf(db.intervals, r.id.value)))
  {
    KeySetFacts();
    WithRelations(
      RunBase(db, r),
      JList(CommentList(db, CommentsOf(db.comments, r.id.value))),
      JList(IntervalList(db, IntervalsOf(db.intervals, r.id.value))),
      includeComments, includeIntervals)
  }


  /** Every run listed under a user's `runs` embeds that same user as its `user`. */
  lemma UserRunsEmbedUser(db: Db, u: User)
    requires WellFormed(db) && u in db.users
    ensures var j := SerializeUser(db, u, true);
      forall i :: 0 <= i < |j.fields[RunsKey].items| ==>
        j.fields[RunsKey].items[i].fields[UserKey] == UserBase(u)
  {
    var runs := RunsOf(db.runs, u.id.value);
    forall i | 0 <= i < |runs|
      ensures Owner(db, runs[i]) == u
    {
      assert runs[i] in runs;
      FindUserFindsItself(db.users, u);
    }
  }

  /** Every comment listed under a run's `run_comments` embeds that same run as its `run`. */
  lemma RunCommentsEmbedRun(db: Db, r: Run)
    requires WellFormed(db) && r in db.runs
    ensures var j := SerializeRun(db, r, true, false);
      forall i :: 0 <= i < |j.fields[RunCommentsKey].items| ==>
        j.fields[RunCommentsKey].items[i].fields[RunKey] == RunBase(db, r)
  {
    var cs := CommentsOf(db.comments, r.id.value);
    forall i | 0 <= i < |cs|
      ensures CommentRun(db, cs[i]) == r
    {
      assert cs[i] in cs;
      FindRunFindsItself(db.runs, r);
    }
  }
}
