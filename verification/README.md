# runnerapp core in Dafny

A model of the core of runnerapp, a Flask/SQLAlchemy REST API that tracks
running workouts. The model covers four parts:

- The four tables, `User`, `Run`, `Interval` and `RunComment`.
- Their `validate` rule chains and their `serialize` projections. These are
  the JSON objects the handlers return.
- The user handlers: registration and the paged, searchable listing on
  `/api/users`, plus `/api/users/<id>` and `/api/users/<id>/runs`.
- The request-field parsers `parse_int`, `parse_bool` and `parse_date`.

Modules:

- `Wrappers` is `Option`. `None` is Python's `None`.
- `Python` covers the Python runtime behaviour the code relies on:
  - dynamically typed values;
  - equality, where `True == 1`;
  - `x in {True, False}`;
  - `str.isspace`, `str.strip()` and `str.split(' ')`.
- `Helpers` holds `parse_int`, with the decimal grammar of `int()`, and
  `parse_bool` and `parse_date`.
- `Jsonify` holds JSON values. Object keys are an enumeration, so "no
  `password` key at any depth" can be stated and proved.
- `Ordering` is the string order used for `ORDER BY last_name`.
- `Models` holds:
  - the entities, with every column `Option`al, because a column not passed
    to the constructor is `None` until the INSERT applies its default;
  - the validation chains;
  - the projections;
  - a `Db` snapshot, with relationships looked up by foreign key.
- `Listing` holds the search filter, the last-name sort and
  Flask-SQLAlchemy's `paginate`.
- `Users` holds the handlers. Each one is a function from the request fields
  and a store snapshot to a `Response(status, key, payload)` and the store
  afterwards.

Everything outside the repository becomes a parameter:

- the `validate_email` check, bcrypt, and the clock (`Env`);
- how the commit ends (`CommitOutcome`);
- `strptime` (a parameter of `ParseDate`);
- the values of `MAX_PAGE_SIZE`, `DEFAULT_PAGE` and `DEFAULT_PAGE_SIZE`
  (`Paging`).

## Model

| member | source | states |
|---|---|---|
| `Python.InBoolSetMembers` | models.py:35-39 | `x in {True, False}` holds exactly for `True`, `False`, `1` and `0`, since set membership uses Python equality |
| `Python.Strip` | controllers/users.py:48 | `strip()` keeps the infix of the search that starts after its leading whitespace. Everything removed is whitespace, and the result neither starts nor ends with whitespace. The same shape, over the narrower set of characters `int()` skips (`isspace` without U+001C to U+001F), is the trimming `int()` does |
| `Python.StripUnique` | controllers/users.py:48 | any string with that shape is the `strip()` of the input, so the contract of `strip()` pins its result down completely |
| `Python.StripUnpadded` | controllers/users.py:48 | text that neither starts nor ends with whitespace is left unchanged by `strip()` |
| `Python.StripAllSpace` | controllers/users.py:48 | text made only of whitespace strips to `''` |
| `Python.StripIdempotent` | controllers/users.py:48 | stripping twice is the same as stripping once |
| `Python.StripPadded` | controllers/users.py:48 | any whitespace added before and after a string does not change what `strip()` keeps |
| `Python.Split` | controllers/users.py:48 | `split(' ')` returns at least one piece, no piece contains the separator, and joining the pieces with it gives the input back |
| `Python.SplitJoin` | controllers/users.py:48 | splitting undoes joining for pieces without the separator. This is the round trip that makes the token rule exact |
| `Python.SplitSeveral` | controllers/users.py:48-50 | there is more than one token exactly when the stripped search contains a space |
| `Helpers.ParseInt` | helpers.py:4-9 | `parse_int(None)` is `None`; a boolean or integer gives its numeric value; a string is read as `int()` reads it, with `None` where `int()` raises |
| `Helpers.ParseDecimalHasDigit` | helpers.py:5-8 | a string `parse_int` accepts contains at least one digit |
| `Helpers.ParseIntOfDecimal` | helpers.py:4-9 | round trip: `parse_int(str(n)) == n` for every integer `n`, negatives included |
| `Helpers.ParseIntRejectsNonNumeric` | helpers.py:5-8 | text without a digit, such as `'abc'` or `''`, gives `None` rather than an exception |
| `Helpers.ParseIntIgnoresPadding` | helpers.py:6 | any run of whitespace `int()` skips, added before and after a string, does not change what `parse_int` reads |
| `Helpers.ParseIntRejectsSeparator` | helpers.py:6 | a leading U+001C to U+001F counts as whitespace for `str.isspace` but not for `int()`, so `parse_int` gives `None` |
| `Helpers.ParseBool` | helpers.py:18-25 | the result is `True` exactly for `True`, `1` and `'true'`, `False` exactly for `False`, `0` and `'false'`, and `None` otherwise |
| `Helpers.ParseBoolCaseSensitive` | helpers.py:25 | any string other than `'true'` and `'false'`, such as `'True'` or `'FALSE'`, gives `None` |
| `Helpers.ParseBoolIdempotent` | helpers.py:18-25 | `parse_bool(parse_bool(x)) == parse_bool(x)` |
| `Helpers.ParseDate` | helpers.py:11-16 | a non-string gives `None`; a string gives whatever `strptime` makes of it, `None` when it raises |
| `Models.ValidateUser` | models.py:19-42 | no error exactly when all eight rules pass; otherwise the message of the first failing rule, in source order |
| `Models.ValidationMessagesDistinct` | models.py:19-42 | the eight user messages are pairwise distinct, and so are the five run messages. A message therefore identifies the rule that failed |
| `Models.AbsentPasswordReported` | models.py:32-42 | a missing password is reported as 'Must supply password' and never reaches the length rule |
| `Models.AbsentFlagsRejected` | models.py:35-39 | once the earlier rules pass, an `is_active` of `None` is rejected. So is a `metric` of `None` when `is_active` passes |
| `Models.PasswordLengthDecides` | models.py:41-42 | when every earlier rule passes, `validate` reports no error exactly when the password has at least 8 characters |
| `Models.ValidateRun` | models.py:114-128 | no error exactly when all five rules pass; otherwise the message of the first failing rule, in the order run date, distance, duration, metric, run type |
| `Models.ValidateComment` | models.py:181-183 | no error exactly when the text is present and not empty, so whitespace-only text is accepted |
| `Models.WellFormed` | models.py:9-17 | what the schema and the insert-time defaults guarantee of a stored snapshot: the NOT NULL columns of all four tables are set, and so are `created` and `updated`, which `default=datetime.utcnow` fills at INSERT (models.py:9-17, 72-85, 136-143, 162-169), ids are unique, and every `user_id` and `run_id` foreign key (models.py:73, 137, 163, 165) names a stored row |
| `Models.FindUser` | controllers/users.py:65 | finds a user exactly when some row has the id, and the row found has that id |
| `Models.FindUserFindsItself` | controllers/users.py:65 | with unique ids, looking up a stored user's own id finds that user |
| `Models.RunsOf` | models.py:57 | `user.runs` holds exactly the runs whose `user_id` is the user's id, each as many times as it is stored |
| `Models.CommentsOf` | models.py:105 | `run.run_comments` holds exactly the comments whose `run_id` is the run's id, each as many times as it is stored |
| `Models.IntervalsOf` | models.py:109 | `run.intervals` holds exactly the intervals whose `run_id` is the run's id, each as many times as it is stored |
| `Models.Owner` | models.py:90 | `run.user` is a stored user whose id is the run's `user_id` |
| `Models.UserBase` | models.py:45-54 | the user projection has the eight column keys, each holding that column's value (`None` as `null`, timestamps as their ISO text), and no `password` key at any depth |
| `Models.RunColumnValues` | models.py:88-102 | each of the twelve run columns holds the run's own attribute, `None` as `null` and dates as their ISO text |
| `Models.RunBase` | models.py:88-102 | the run projection has its twelve columns, each holding the run's attribute, plus `user`, which is the owner's user projection; no `password` at any depth |
| `Models.IntervalRun` | models.py:138 | `interval.run` is a stored run whose id is the interval's `run_id` |
| `Models.SerializeInterval` | models.py:145-154 | the interval projection holds the interval's id, distance, duration, metric and timestamps and embeds its run's projection under `run`; no `password` at any depth |
| `Models.CommentRun` | models.py:164 | `comment.run` is a stored run whose id is the comment's `run_id` |
| `Models.Author` | models.py:166 | `comment.user` is a stored user whose id is the comment's `user_id` |
| `Models.SerializeComment` | models.py:171-179 | the comment projection holds the comment's id, text and timestamps, embeds its run's projection under `run` and its author's projection under `user`; no `password` at any depth |
| `Models.SerializeUser` | models.py:44-60 | `runs` is present exactly when `include_runs` is set, and then holds one run projection per run of the user, in order. The other keys are the user projection's, and no `password` appears at any depth |
| `Models.WithRelations` | models.py:104-110 | `run_comments` is added exactly when its flag is set and `intervals` exactly when its flag is set; every other entry is kept |
| `Models.SerializeRun` | models.py:87-112 | the keys are the run projection's plus `run_comments` and `intervals`, each exactly when its own flag is set. `user` is always the owner's projection; the nested lists are the run's comments and intervals; no `password` at any depth |
| `Models.UserRunsEmbedUser` | models.py:56-58 | every run listed under a user's `runs` embeds that same user's projection as its `user` |
| `Models.RunCommentsEmbedRun` | models.py:104-106 | every comment listed under a run's `run_comments` embeds that same run's projection as its `run` |
| `Ordering.LexLeTotal` | controllers/users.py:53 | any two last names are comparable |
| `Ordering.LexLeTransitive` | controllers/users.py:53 | the name order is transitive |
| `Ordering.LexLeAntisymmetric` | controllers/users.py:53 | two names that sort no later than each other are equal |
| `Listing.SearchFilter` | controllers/users.py:47-58 | an absent or empty search selects no filter. Otherwise: a stripped search without a space filters on the first name, which is the whole stripped text; one with a space filters on its first two tokens: the first name is the text before the first space, the last name the text between it and the next space or the end |
| `Listing.SearchOfWords` | controllers/users.py:48-53 | two or more words, with no whitespace at either end, filter on the first two words; later words are ignored |
| `Listing.BlankSearch` | controllers/users.py:47-56 | a search of whitespace only is truthy but strips to `''`, so it filters on an empty first name |
| `Listing.SearchTwoNames` | controllers/users.py:48-53 | `'Jane Doe'` filters on first name `Jane` and last name `Doe` |
| `Listing.SearchDoubleSpace` | controllers/users.py:48-53 | `'Jane  Doe'` filters on first name `Jane` and last name `''` |
| `Listing.Matches` | controllers/users.py:53-56 | `filter_by` keeps a row whose first name equals the given one, and for a two-token search whose last name equals the given one too |
| `Listing.Select` | controllers/users.py:53-58 | the filter keeps exactly the rows that match it, each as many times as it is stored, and drops the rest |
| `Listing.SortByLastName` | controllers/users.py:53-58 | `order_by('last_name')` returns a permutation of its input in ascending last-name order |
| `Listing.SortKeepsSorted` | controllers/users.py:53-58 | rows already in last-name order come back unchanged |
| `Listing.Paginate` | controllers/users.py:58 | a page holds at most the effective page size of rows: the rows from offset `(page - 1) * size` on, and none once that offset reaches the end |
| `Listing.PagesCover` | controllers/users.py:58 | reading pages 1 to k in turn gives the first k * size rows, with no row twice and none skipped |
| `Listing.RowOnItsPage` | controllers/users.py:58 | row i appears on page `i / size + 1` at position `i % size` |
| `Listing.RowOnSomePage` | controllers/users.py:58 | every row appears on some page of a positive page size |
| `Listing.ListedUsers` | controllers/users.py:47-58 | every listed row is a stored row the filter keeps; the rows are in last-name order; their number is the effective page size, or the matching rows left after the page's offset when fewer, and 0 past the end |
| `Listing.MatchingRowListed` | controllers/users.py:53-58 | with a positive page size, every stored row the filter keeps is listed on some page |
| `Users.PageArg` | controllers/users.py:40 | `page` is the parsed argument, or `DEFAULT_PAGE` when the argument is missing, unreadable or 0 |
| `Users.PageSizeArg` | controllers/users.py:41-45 | `page_size` is never above `MAX_PAGE_SIZE`. A requested or default size not above it is kept; a larger one becomes the maximum |
| `Users.PageArgOfDecimal` | controllers/users.py:40 | a page written in decimal, other than 0, is used as given |
| `Users.PageSizeArgOfDecimal` | controllers/users.py:41-45 | a page size written in decimal, other than 0 and not above the maximum, is used as given |
| `Users.PagingFallsBack` | controllers/users.py:40-41 | missing arguments, `'0'` and digit-free text fall back to the defaults |
| `Users.ListUsers` | controllers/users.py:40-60 | answers 200 with `users` holding the user projection of each listed row, in order. No password appears, and there are no more rows than `MAX_PAGE_SIZE`, or 20 when a negative size was asked for, as the `paginate` of Flask-SQLAlchemy 2.3 to 2.5 does |
| `Users.ListPastEnd` | controllers/users.py:53-58 | a page that starts past the last matching row answers with an empty list |
| `Users.Failure` | controllers/users.py:22 | an error answer carries the status, and the client reads back exactly the given message under `error` |
| `Users.UniqueEmails` | models.py:12 | the `email` column's UNIQUE constraint: no two stored rows share an email |
| `Users.FindByEmail` | controllers/users.py:24 | the duplicate lookup finds a row exactly when some stored user has that email |
| `Users.InsertedRow` | controllers/users.py:27-31 | the committed row is complete. It has an id no row has, the password hash in place of the password, and the given names, email and flags |
| `Users.Register` | controllers/users.py:19-38 | the create chain (spelled out below the table) |
| `Users.FormUser` | controllers/users.py:12-17 | the user built from the form carries the four form fields and leaves `is_active` and `metric` as `None` |
| `Users.CreateUser` | controllers/users.py:11-38 | as written, registration always answers 400 and never changes the store |
| `Users.CreateUserRejectsCompleteForm` | controllers/users.py:12-22 | as written, a complete form with a well-formed email is refused with 'Invalid is_active value' |
| `Users.WithColumnDefaults` | models.py:16-17 | `is_active` becomes `True` and `metric` becomes `False` when not given; a given flag is kept; nothing else changes; a flag that was `None` or a boolean then passes the `{True, False}` rule |
| `Users.CreateUserWithDefaults` | controllers/users.py:11-38 | with the column defaults applied, a 201 appends exactly one row, which carries the form's email and is the one returned. Any other answer is an error that leaves the store as it was |
| `Users.CreateWithDefaultsSucceeds` | controllers/users.py:11-38 | with the defaults applied, a complete form with a well-formed email, a password of 8 or more characters and an unused email answers 201. The store gains exactly that row, which is active and uses miles, and the other tables are untouched |
| `Users.ValidationIgnoresStore` | controllers/users.py:19-25 | a validation error is answered the same way whatever the store holds, and leaves the store unchanged |
| `Users.RegisterPreservesStore` | controllers/users.py:24-38 | registration keeps the schema guarantees (complete rows, unique ids, valid foreign keys) and keeps emails unique across the store, whatever the commit does |
| `Users.UserDetail` | controllers/users.py:63-70 | 404 'User does not exist' exactly when no user has the id; otherwise 200 with that user's projection, without runs |
| `Users.UserRuns` | controllers/users.py:73-80 | 404 'User does not exist' exactly when no user has the id; otherwise 200 with that user's projection including `runs` |
| `Users.DetailOfStoredUser` | controllers/users.py:63-80 | looking up a stored user's own id answers 200 with that user, both with and without runs |

The `Users.Register` row states this chain:

- It succeeds (201) exactly when:
  - the candidate validates,
  - its email is unused,
  - and the commit goes through.
- A validation error answers 400 with that message.
- A taken email answers 400 'That email address is already in use', and so
  does an `IntegrityError` at commit.
- Any other commit failure answers 500 'Unable to create new user'.
- Only a 201 changes the store, by appending the inserted row.

## Where the code and its intended behaviour differ

The model follows the code in each of these cases.

- Registration never succeeds as written. A complete, valid form is
  evidently meant to answer 201, but the code answers 400 (see Findings).
- `x in {True, False}` uses Python equality, so the integers `1` and `0` pass
  the `is_active` and `metric` rules. For the same reason `parse_bool(1)` is
  `True` and `parse_bool(0)` is `False`.
- `page` and `page_size` are evidently meant to be positive integers, but
  the code keeps any non-zero integer. Flask-SQLAlchemy's `paginate(page, per_page,
  False)`, in releases 2.3 to 2.5, then turns a page below 1 into 1 and a
  negative size into 20. Earlier 2.x releases pass both values to OFFSET and
  LIMIT unchanged. A negative `page_size` therefore returns up to 20 rows, even when
  `MAX_PAGE_SIZE` is smaller. That paginate behaviour is the library's, not
  the repository's.
- A search of whitespace alone is truthy. It strips to `''` and filters on an
  empty first name instead of listing everyone.
- `'Jane  Doe'` (two spaces) filters on last name `''`, because
  `split(' ')` keeps empty tokens.

## Left out

- HTTP routing, `request`, `jsonify` and the status line are out.
  - A response is `(status, key, payload)`.
  - The `<int:user_id>` converter's restriction to non-negative ids is not
    modelled; the handlers accept any integer.
- `constants.py` is not part of this model. `MAX_PAGE_SIZE`, `DEFAULT_PAGE`
  and `DEFAULT_PAGE_SIZE` are the fields of `Paging`. `ISO_FORMAT` and
  `strftime` are an opaque `Timestamp` string.
- `validate_email`, bcrypt's `generate_password_hash` (`User.hash_password`)
  and `datetime.utcnow` are foreign calls. They are the fields of `Env`.
- `parse_date` / `strptime` is a parameter; the date grammar belongs to the
  datetime library.
- The commit can race with another request, or fail in the database. This is
  concurrency and I/O, so its result is the parameter `CommitOutcome`.
  `db.session.remove()` only discards the session.
- Helpers.ParseInt: only ASCII digits are read. `int()` also accepts other
  Unicode decimal digits and refuses strings of more than 4300 digits; this
  model does neither.
- Listing.SortByLastName: the database's collation and its order among equal
  last names are not modelled. The model compares code points and keeps equal
  names in storage order.
- Listing.Matches: `filter_by` equality follows the database's collation.
  The model uses exact string equality.
- Users.FindByEmail: the duplicate-email lookup also follows the database's
  collation. The model uses exact string equality.
- Models.WellFormed: `created` and `updated` are nullable columns. The model
  assumes them set, because every row went through the ORM's insert-time
  `default=datetime.utcnow`. A row stored with a NULL timestamp would make
  `strftime` raise in `serialize` and the request answer 500; that path is not
  modelled.
- Listing.EffectivePage, Listing.EffectivePerPage: these model `paginate` as
  Flask-SQLAlchemy 2.3 to 2.5 implements it. No repository file pins the
  library's version, and earlier releases do not clamp the page or the size.
- Users.InsertedRow: the database picks the new id. The model uses one more
  than the largest id in use; the only property relied on is that no row has
  it yet.
- Column length limits (`String(30)` and so on) are not checked. A database
  that enforces them fails the commit, which is covered by `CommitOutcome`.
- Relationships without `order_by` (`user.runs`, `run.run_comments`,
  `run.intervals`) are read in storage order.
- `auth.py`, `app.py`, `config.py` and `controllers/runs.py` are out. They
  hold token checks, wiring and a bare `query.all()`.

## Findings

| source | as written | input that shows it | evidently intended | confidence | as-written member | corrected member |
|---|---|---|---|---|---|---|
| controllers/users.py:12-19 | The new `User` gets only the four form fields. `is_active` and `metric` are therefore `None` when `validate` runs, because the column defaults apply only at INSERT, and models.py:35-36 rejects `None`. | `first_name=A, last_name=B, email=a@b.com, password=password1` answers 400 'Invalid is_active value', and so does every form that passes the first five rules | The column defaults `is_active=True` and `metric=False` hold before validation, so a complete, valid registration with an unused email answers 201 | high, not executed | `Users.CreateUserRejectsCompleteForm` | `Users.CreateWithDefaultsSucceeds` |
