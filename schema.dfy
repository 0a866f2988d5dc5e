/**
 * The tables MyProvider reads and writes: message, user and the per-account
 * message flags ("msgofuser"), their column names, the value bag of an
 * android ContentValues, and the few things SQLite does for MyProvider
 * (assign a row id, enforce a key, update and delete rows matched by a
 * selection). The column and table names stand for the constants of
 * MyDatabase, which is not part of this model; only their distinctness matters.
 */
module Schema {
  import opened Wrappers
  import opened Decimal

  const MSG_TABLE_NAME := "msg"
  const USER_TABLE_NAME := "user"
  const MSGOFUSER_TABLE_NAME := "msgofuser"

  // Message columns
  const ID := "_id"
  const ORIGIN_ID := "origin_id"
  const MSG_OID := "msg_oid"
  const AUTHOR_ID := "author_id"
  const SENDER_ID := "sender_id"
  const RECIPIENT_ID := "recipient_id"
  const IN_REPLY_TO_USER_ID := "in_reply_to_user_id"
  const BODY := "body"
  const VIA := "via"
  const SENT_DATE := "msg_sent_date"
  const MSG_INS_DATE := "msg_ins_date"

  // Message-of-user (flags) columns
  const MSG_ID := "msg_id"
  const USER_ID := "user_id"
  const TIMELINE_TYPE := "timeline_type"
  const SUBSCRIBED := "subscribed"
  const FAVORITED := "favorited"
  const REBLOGGED := "reblogged"
  const REBLOG_OID := "reblog_oid"
  const MENTIONED := "mentioned"
  const REPLIED := "replied"
  const DIRECTED := "directed"

  // User columns and the name aliases of the timeline joins
  const USER_OID := "user_oid"
  const USERNAME := "username"
  const USER_INS_DATE := "user_ins_date"
  const AUTHOR_NAME := "author_name"
  const SENDER_NAME := "sender_name"
  const IN_REPLY_TO_NAME := "in_reply_to_name"
  const RECIPIENT_NAME := "recipient_name"

  /** The boolean flag columns, in the order insert and update move them. */
  const BOOLEAN_FLAGS: seq<string> := [SUBSCRIBED, FAVORITED, REBLOGGED, MENTIONED, REPLIED, DIRECTED]

  /** Every column that belongs to the flags table rather than to the message. */
  const FLAG_COLUMNS: set<string> := {SUBSCRIBED, FAVORITED, REBLOGGED, REBLOG_OID, MENTIONED, REPLIED, DIRECTED}

  /** One value of a ContentValues bag: null, a String, a Long/Integer or a Boolean. */
  datatype Value = Null | Text(s: string) | Num(n: int) | Bool(b: bool)

  /** A ContentValues bag, and also the non-key columns of a stored row. */
  type Row = map<string, Value>

  /** Object.toString() of a value; None is the NullPointerException on null. */
  function ValueText(v: Value): (r: Option<string>)
    ensures r.None? <==> v.Null?
  {
    match v
    case Null => None
    case Text(s) => Some(s)
    case Num(n) => Some(LongToString(n))
    case Bool(b) => Some(if b then "true" else "false")
  }

  /** ContentValues.getAsString: null for a missing key or a null value. */
  function GetAsString(values: Row, key: string): (r: Option<string>)
    ensures r.None? <==> key !in values || values[key].Null?
  {
    if key in values then ValueText(values[key]) else None
  }

  /** The value ContentValues.put(key, String) stores. */
  function StringValue(s: Option<string>): Value {
    if s.Some? then Text(s.value) else Null
  }

  /** The integer SQLite keys a row by when given this value; None when it is not an integer. */
  function AsLong(v: Value): Option<int> {
    match v
    case Null => None
    case Text(s) => ParseLong(s)
    case Num(n) => Some(n)
    case Bool(b) => Some(if b then 1 else 0)
  }

  /** MyDatabase.TimelineTypeEnum. */
  datatype TimelineType = Unknown | Home | Mentions | Favorites | Direct | User | All

  /** TimelineTypeEnum.save(): the token written into a timeline path and the timeline-type column. */
  function Save(t: TimelineType): string {
    match t
    case Unknown => "unknown"
    case Home => "home"
    case Mentions => "mentions"
    case Favorites => "favorites"
    case Direct => "direct"
    case User => "user"
    case All => "all"
  }

  /** TimelineTypeEnum.load(token): the kind whose token this is, UNKNOWN for any other text. */
  function Load(token: string): (t: TimelineType)
    ensures t != Unknown ==> Save(t) == token
  {
    if token == "home" then Home
    else if token == "mentions" then Mentions
    else if token == "favorites" then Favorites
    else if token == "direct" then Direct
    else if token == "user" then User
    else if token == "all" then All
    else Unknown
  }

  lemma LoadSave(t: TimelineType)
    ensures Load(Save(t)) == t
  {
  }

  type Flag = x: int | 0 <= x <= 1

  /**
   * MyPreferences.isTrue (0 or 1 for any value) and MyPreferences.isEmpty;
   * MyPreferences is not part of this model, so the two come in as functions.
   */
  datatype Preferences = Preferences(isTrue: Value -> Flag, isEmpty: Option<string> -> bool)

  /** The key of the flags table: one row per (message, account). */
  datatype FlagKey = FlagKey(msgId: int, userId: int)

  /**
   * The database. Message and user rows are keyed by their _id and hold
   * their other columns; flags rows are keyed by (msg_id, user_id) and hold
   * their other columns. lastMsgId and lastUserId are the AUTOINCREMENT
   * counters, so an assigned id is never reused.
   */
  datatype Store = Store(
    msgs: map<int, Row>,
    users: map<int, Row>,
    flags: map<FlagKey, Row>,
    lastMsgId: int,
    lastUserId: int)

  predicate Below(rows: map<int, Row>, last: int) {
    forall k :: k in rows ==> k <= last
  }

  predicate Valid(s: Store) {
    Below(s.msgs, s.lastMsgId) && Below(s.users, s.lastUserId)
  }

  /** The value of a column of an existing row; a column the row does not hold is NULL. */
  function Cell(rows: map<int, Row>, id: int, column: string): Value
    requires id in rows
  {
    if column == ID then Num(id) else if column in rows[id] then rows[id][column] else Null
  }

  /** SQLite's answer to an insert: the new table, counter and row id, or -1. */
  datatype Insertion = Insertion(rows: map<int, Row>, last: int, rowId: int)

  function Max(a: int, b: int): int {
    if a < b then b else a
  }

  /**
   * SQLiteDatabase.insert into a table whose _id is an AUTOINCREMENT key:
   * without an _id value the row gets last + 1; with one it gets that id,
   * and the insert fails (-1) when the id is taken or is not an integer.
   */
  function InsertRow(rows: map<int, Row>, last: int, values: Row): (r: Insertion)
    requires Below(rows, last)
    ensures Below(r.rows, r.last) && r.last >= last
    ensures r.rowId != -1 ==> r.rowId !in rows && r.rows == rows[r.rowId := values - {ID}]
    ensures r.rowId == -1 ==> r.rows == rows || (-1 !in rows && r.rows == rows[-1 := values - {ID}])
    ensures (ID !in values || values[ID] == Null) ==> r.rowId == last + 1 && r.last == last + 1
    ensures ID in values && AsLong(values[ID]).Some? && AsLong(values[ID]).value !in rows ==>
      r.rowId == AsLong(values[ID]).value && r.last == Max(last, r.rowId)
    ensures ID in values && values[ID] != Null && (AsLong(values[ID]).None? || AsLong(values[ID]).value in rows) ==>
      r.rowId == -1 && r.rows == rows && r.last == last
  {
    var explicit := if ID in values then values[ID] else Null;
    if explicit == Null then
      Insertion(rows[last + 1 := values - {ID}], last + 1, last + 1)
    else
      match AsLong(explicit)
      case None => Insertion(rows, last, -1)
      case Some(id) =>
        if id in rows then Insertion(rows, last, -1)
        else Insertion(rows[id := values - {ID}], Max(last, id), id)
  }

  /** The (msg_id, user_id) key a flags row with these values would get; None when either is not an integer. */
  function FlagKeyOf(values: Row): Option<FlagKey> {
    var m := if MSG_ID in values then AsLong(values[MSG_ID]) else None;
    var u := if USER_ID in values then AsLong(values[USER_ID]) else None;
    if m.Some? && u.Some? then Some(FlagKey(m.value, u.value)) else None
  }

  /**
   * SQLiteDatabase.insert into the flags table: msg_id and user_id must be
   * integers and the pair must be new, or the insert fails.
   */
  function InsertFlags(flags: map<FlagKey, Row>, values: Row): (r: (map<FlagKey, Row>, bool))
    ensures r.1 <==> FlagKeyOf(values).Some? && FlagKeyOf(values).value !in flags
    ensures !r.1 ==> r.0 == flags
    ensures r.1 ==> r.0 == flags[FlagKeyOf(values).value := values - {MSG_ID, USER_ID}]
  {
    match FlagKeyOf(values)
    case None => (flags, false)
    case Some(k) =>
      if k in flags then (flags, false) else (flags[k := values - {MSG_ID, USER_ID}], true)
  }

  /**
   * A caller's selection with its arguments: null, or SQL text together with
   * what that text, once its arguments are bound, says of a row (given its key).
   */
  datatype Selection = NoSelection | Sql(text: string, holds: (int, Row) -> bool)

  /** TextUtils.isEmpty(selection). */
  predicate IsEmpty(sel: Selection) {
    sel.NoSelection? || sel.text == ""
  }

  /** Whether a WHERE clause built from the selection keeps a row; an empty selection means no WHERE at all. */
  predicate Selects(sel: Selection, key: int, row: Row) {
    IsEmpty(sel) || sel.holds(key, row)
  }

  /** A non-empty set of ids has an element. */
  lemma NonEmptyHasElement(ids: set<int>)
    requires ids != {}
    ensures exists k :: k in ids
  {
    if forall k :: k !in ids {
      assert false;
    }
  }

  /** The keys of the rows a condition picks. */
  function Hits(rows: map<int, Row>, where: (int, Row) -> bool): set<int> {
    set k | k in rows && where(k, rows[k])
  }

  /** SQLiteDatabase.update of a keyed table: merge the values into every picked row; the count is how many. */
  function UpdateRows(rows: map<int, Row>, values: Row, where: (int, Row) -> bool): (r: (map<int, Row>, nat))
    ensures r.0.Keys == rows.Keys
    ensures r.1 == |Hits(rows, where)|
    ensures forall k :: k in rows ==> r.0[k] == if where(k, rows[k]) then rows[k] + (values - {ID}) else rows[k]
  {
    var hits := Hits(rows, where);
    (map k | k in rows :: if k in hits then rows[k] + (values - {ID}) else rows[k], |hits|)
  }

  /** SQLiteDatabase.delete: drop every picked row; the count is how many. */
  function DeleteRows(rows: map<int, Row>, where: (int, Row) -> bool): (r: (map<int, Row>, nat))
    ensures r.0.Keys == rows.Keys - Hits(rows, where)
    ensures forall k :: k in r.0 ==> r.0[k] == rows[k]
    ensures r.1 == |Hits(rows, where)|
  {
    var hits := Hits(rows, where);
    (map k | k in rows && k !in hits :: rows[k], |hits|)
  }

  /** The exceptions MyProvider lets escape or catches. */
  datatype Error =
    | UnknownUri      // IllegalArgumentException("Unknown URI ...")
    | NumberFormat    // Long.parseLong on a segment that is not a long
    | NullPointer     // toString() of a missing or null value
    | SqlFailure      // SQLException from a statement the store rejects
    | IllegalArgument // empty table or column name
}
