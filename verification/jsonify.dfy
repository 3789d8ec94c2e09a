/** The JSON documents the handlers hand to `jsonify`, and the conversions into them. */
module Jsonify {
  import opened Wrappers
  import opened Python

  /**
   * The object keys the application writes (and `password`, which it must not
   * write), one constructor per key; `Name` gives the text that appears in the JSON.
   */
  datatype Key =
    | IdKey | FirstNameKey | LastNameKey | EmailKey | PasswordKey | IsActiveKey | MetricKey
    | CreatedKey | UpdatedKey | RunsKey | UserKey | RunDateKey | DistanceKey | DurationKey
    | WarmupKey | CooldownKey | RunTypeKey | LocationKey | NotesKey | RunCommentsKey
    | IntervalsKey | RunKey | CommentKey | UsersKey | ErrorKey

  function Name(k: Key): string {
    match k
    case IdKey => "id"
    case FirstNameKey => "first_name"
    case LastNameKey => "last_name"
    case EmailKey => "email"
    case PasswordKey => "password"
    case IsActiveKey => "is_active"
    case MetricKey => "metric"
    case CreatedKey => "created"
    case UpdatedKey => "updated"
    case RunsKey => "runs"
    case UserKey => "user"
    case RunDateKey => "run_date"
    case DistanceKey => "distance"
    case DurationKey => "duration"
    case WarmupKey => "warmup"
    case CooldownKey => "cooldown"
    case RunTypeKey => "run_type"
    case LocationKey => "location"
    case NotesKey => "notes"
    case RunCommentsKey => "run_comments"
    case IntervalsKey => "intervals"
    case RunKey => "run"
    case CommentKey => "comment"
    case UsersKey => "users"
    case ErrorKey => "error"
  }

  /** Only `PasswordKey` is written as `password`. */
  lemma OnlyPasswordKeyIsPassword(k: Key)
    requires Name(k) == "password"
    ensures k == PasswordKey
  {
  }

  /** A JSON value; an object is a dictionary from keys to values (key order is not modelled). */
  datatype Json =
    | JNull
    | JBool(b: bool)
    | JInt(i: int)
    | JStr(s: string)
    | JList(items: seq<Json>)
    | JObject(fields: map<Key, Json>)

  /** `key` is not a key of any object anywhere inside `j`. */
  predicate HasNoKey(j: Json, key: Key) {
    match j
    case JList(items) => forall i :: 0 <= i < |items| ==> HasNoKey(items[i], key)
    case JObject(m) => key !in m && forall k :: k in m ==> HasNoKey(m[k], key)
    case _ => true
  }

  /** A number, string, boolean or `null`: nothing nested inside. */
  predicate IsScalar(j: Json) {
    !j.JList? && !j.JObject?
  }

  /** An object whose values are all scalars has only its own keys. */
  lemma FlatObjectHasNoKey(m: map<Key, Json>, key: Key)
    requires key !in m
    requires forall k :: k in m ==> IsScalar(m[k])
    ensures HasNoKey(JObject(m), key)
  {
  }

  /**
   * `d[k] = v` on a dictionary being built: `k` is added (or replaced), the
   * other entries stay, and a key absent from both the object and `v` stays absent.
   */
  function WithField(j: Json, k: Key, v: Json): (r: Json)
    requires j.JObject?
    ensures r.JObject? && r.fields.Keys == j.fields.Keys + {k} && r.fields[k] == v
    ensures forall x :: x in j.fields && x != k ==> r.fields[x] == j.fields[x]
    ensures k != PasswordKey && HasNoKey(j, PasswordKey) && HasNoKey(v, PasswordKey) ==> HasNoKey(r, PasswordKey)
  {
    JObject(j.fields[k := v])
  }

  /** A nullable string column: `None` becomes `null`. */
  function OptStr(o: Option<string>): (j: Json)
    ensures IsScalar(j) && (j.JNull? <==> o.None?)
  {
    match o
    case Some(s) => JStr(s)
    case None => JNull
  }

  /** A nullable integer column: `None` becomes `null`. */
  function OptInt(o: Option<int>): (j: Json)
    ensures IsScalar(j) && (j.JNull? <==> o.None?)
  {
    match o
    case Some(i) => JInt(i)
    case None => JNull
  }

  /** How `jsonify` writes a Python value. */
  function FromValue(v: Value): (j: Json)
    ensures IsScalar(j) && (j.JNull? <==> v.PyNone?)
  {
    match v
    case PyNone => JNull
    case PyBool(b) => JBool(b)
    case PyInt(i) => JInt(i)
    case PyStr(s) => JStr(s)
  }
}
