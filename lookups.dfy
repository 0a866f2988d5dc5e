/**
 * The single-value lookups of MyProvider: from an origin's id to the local
 * row id and back, from a message to the names of the users it refers to,
 * and the long value of one column of one row. Each runs one SELECT and
 * answers with its first column of the first row; a missing row
 * (SQLiteDoneException) and any other failure are answered with 0 or "".
 */
module Lookups {
  import opened Wrappers
  import opened Decimal
  import opened Schema
  import opened Paths

  /** SQLiteStatement.simpleQueryForLong on a stored value: NULL reads as 0, a boolean as 0 or 1. */
  function StoredLong(v: Value): (n: int)
    ensures v.Num? ==> n == v.n
    ensures v.Null? ==> n == 0
  {
    match v
    case Null => 0
    case Text(s) => if ParseLong(s).Some? then ParseLong(s).value else 0
    case Num(n) => n
    case Bool(b) => if b then 1 else 0
  }

  /** SQLiteStatement.simpleQueryForString on a stored value: NULL reads as a null String. */
  function StoredText(v: Value): (r: Option<string>)
    ensures r.None? <==> v.Null?
    ensures v.Text? ==> r == Some(v.s)
  {
    match v
    case Null => None
    case Text(s) => Some(s)
    case Num(n) => Some(LongToString(n))
    case Bool(b) => Some(if b then "1" else "0")
  }

  /** The smallest id of a non-empty set of row ids. */
  ghost function Least(ids: set<int>): (m: int)
    requires ids != {}
    ensures m in ids
    ensures forall k :: k in ids ==> m <= k
    decreases ids
  {
    NonEmptyHasElement(ids);
    var x :| x in ids;
    var rest := ids - {x};
    if rest == {} then
      assert forall k :: k in ids ==> k == x || k in rest;
      x
    else
      var m := Least(rest);
      assert forall k :: k in ids ==> k == x || k in rest;
      if x < m then x else m
  }

  /**
   * The id simpleQueryForLong returns for "SELECT _id ... WHERE ...": the id
   * of a matching row, 0 when none matches (SQLiteDoneException). Without an
   * ORDER BY SQLite picks the row; the model takes the smallest id.
   */
  ghost function FirstId(ids: set<int>): (id: int)
    ensures ids == {} ==> id == 0
    ensures ids != {} ==> id in ids
  {
    if ids == {} then 0 else Least(ids)
  }

  /** The rows of one origin whose oid column holds this oid. */
  function OidMatches(rows: map<int, Row>, originId: int, oidColumn: string, oid: string): set<int> {
    set k | k in rows && Cell(rows, k, ORIGIN_ID) == Num(originId) && Cell(rows, k, oidColumn) == Text(oid)
  }

  /**
   * MyProvider.oidToId: the local id of the message (message table or
   * timeline path) or user (users path) with this oid in this origin; 0 for
   * an empty oid, for any other path (IllegalArgumentException, caught) and
   * when no row matches. The oid is spliced into the SQL unquoted, so only a
   * plain number makes a statement that runs; any other oid fails and gives 0.
   */
  ghost function OidToId(s: Store, uri: Path, originId: int, oid: Option<string>): (id: int)
    ensures oid.None? || oid == Some("") ==> id == 0
    ensures Match(uri) !in {Some(MsgTable), Some(Timeline), Some(Users)} ==> id == 0
    ensures id != 0 && Match(uri) in {Some(MsgTable), Some(Timeline)} ==>
      id in s.msgs && Cell(s.msgs, id, ORIGIN_ID) == Num(originId) && Cell(s.msgs, id, MSG_OID) == Text(oid.value)
    ensures id != 0 && Match(uri) == Some(Users) ==>
      id in s.users && Cell(s.users, id, ORIGIN_ID) == Num(originId) && Cell(s.users, id, USER_OID) == Text(oid.value)
  {
    if oid.None? || oid.value == "" || !AllDigits(oid.value) then 0
    else
      match Match(uri)
      case Some(MsgTable) => FirstId(OidMatches(s.msgs, originId, MSG_OID, oid.value))
      case Some(Timeline) => FirstId(OidMatches(s.msgs, originId, MSG_OID, oid.value))
      case Some(Users) => FirstId(OidMatches(s.users, originId, USER_OID, oid.value))
      case _ => 0
  }

  /** MyProvider.OidEnum: which oid idToOid reads. */
  datatype OidKind = MsgOid | UserOid | ReblogOid

  /** The column of a keyed row as simpleQueryForString reads it; "" when the row is missing. */
  function ColumnText(rows: map<int, Row>, id: int, column: string): Option<string> {
    if id in rows then StoredText(Cell(rows, id, column)) else Some("")
  }

  /**
   * MyProvider.idToOid: the oid of message msgId (MSG_OID), of user msgId
   * (USER_OID), or of the reblog of message msgId by account userId
   * (REBLOG_OID), which falls back to the message's own oid when the flags
   * row holds none. "" for msgId <= 0 and for a missing row; None is the
   * null String read from a NULL column.
   */
  function IdToOid(s: Store, oe: OidKind, msgId: int, userId: int): (oid: Option<string>)
    ensures msgId <= 0 ==> oid == Some("")
    ensures oe == MsgOid && oid != Some("") ==> msgId > 0 && msgId in s.msgs && oid == StoredText(Cell(s.msgs, msgId, MSG_OID))
    ensures oe == UserOid && oid != Some("") ==> msgId > 0 && msgId in s.users && oid == StoredText(Cell(s.users, msgId, USER_OID))
    ensures oe == ReblogOid && oid != Some("") ==>
      msgId > 0 && FlagKey(msgId, userId) in s.flags
      && (oid == IdToOid(s, MsgOid, msgId, 0)
          || (REBLOG_OID in s.flags[FlagKey(msgId, userId)] && StoredText(s.flags[FlagKey(msgId, userId)][REBLOG_OID]) == oid))
    decreases if oe == ReblogOid then 1 else 0
  {
    if msgId <= 0 then Some("")
    else
      match oe
      case MsgOid => ColumnText(s.msgs, msgId, MSG_OID)
      case UserOid => ColumnText(s.users, msgId, USER_OID)
      case ReblogOid =>
        var key := FlagKey(msgId, userId);
        if key !in s.flags then Some("")
        else
          var stored := StoredText(if REBLOG_OID in s.flags[key] then s.flags[key][REBLOG_OID] else Null);
          if stored.None? || stored.value == "" then IdToOid(s, MsgOid, msgId, 0) else stored
  }

  /** The message columns that hold a user id. */
  const USER_REFERENCES: set<string> := {SENDER_ID, AUTHOR_ID, IN_REPLY_TO_USER_ID, RECIPIENT_ID}

  /**
   * MyProvider.msgIdToUsername: the username of the user the message's
   * column refers to, through an inner join of user and message; "" for
   * message id 0, for a column that does not hold a user id
   * (IllegalArgumentException, caught), and when the message or the user is
   * missing.
   */
  function MsgIdToUsername(s: Store, column: string, messageId: int): (name: Option<string>)
    ensures messageId == 0 || column !in USER_REFERENCES || messageId !in s.msgs ==> name == Some("")
  {
    if messageId == 0 || column !in USER_REFERENCES || messageId !in s.msgs then Some("")
    else
      match AsLong(Cell(s.msgs, messageId, column))
      case None => Some("")
      case Some(u) => ColumnText(s.users, u, USERNAME)
  }

  /** MyProvider.userIdToName: the username of user userId; "" for id 0 and a missing user. */
  function UserIdToName(s: Store, userId: int): (name: Option<string>)
    ensures userId == 0 || userId !in s.users ==> name == Some("")
    ensures userId != 0 && userId in s.users ==> name == StoredText(Cell(s.users, userId, USERNAME))
  {
    if userId == 0 then Some("") else ColumnText(s.users, userId, USERNAME)
  }

  /** The rows of a table the lookups can address by _id; None for any other table name (the SELECT fails). */
  function KeyedTable(s: Store, table: string): Option<map<int, Row>> {
    if table == MSG_TABLE_NAME then Some(s.msgs)
    else if table == USER_TABLE_NAME then Some(s.users)
    else None
  }

  /**
   * MyProvider.idToLongColumnValue: the long value of one column of the row
   * with this _id. An empty table or column name is an
   * IllegalArgumentException that escapes; id 0, a missing row, an unknown
   * table and a failing statement give 0.
   */
  function IdToLongColumnValue(s: Store, table: string, column: string, id: int): (r: Result<int, Error>)
    ensures r.Err? <==> table == "" || column == ""
    ensures r.Err? ==> r.error == IllegalArgument
    ensures r.Ok? && r.value != 0 ==> id != 0 && KeyedTable(s, table).Some? && id in KeyedTable(s, table).value
  {
    if table == "" || column == "" then Err(IllegalArgument)
    else if id == 0 then Ok(0)
    else
      match KeyedTable(s, table)
      case None => Ok(0)
      case Some(rows) => Ok(if id in rows then StoredLong(Cell(rows, id, column)) else 0)
  }

  /** MyProvider.msgIdToLongColumnValue. */
  function MsgIdToLongColumnValue(s: Store, column: string, id: int): (r: Result<int, Error>)
    ensures r.Err? <==> column == ""
    ensures r.Ok? && id in s.msgs && id != 0 ==> r.value == StoredLong(Cell(s.msgs, id, column))
    ensures r.Ok? && (id == 0 || id !in s.msgs) ==> r.value == 0
  {
    IdToLongColumnValue(s, MSG_TABLE_NAME, column, id)
  }

  /** MyProvider.userIdToLongColumnValue. */
  function UserIdToLongColumnValue(s: Store, column: string, id: int): (r: Result<int, Error>)
    ensures r.Err? <==> column == ""
    ensures r.Ok? && id in s.users && id != 0 ==> r.value == StoredLong(Cell(s.users, id, column))
    ensures r.Ok? && (id == 0 || id !in s.users) ==> r.value == 0
  {
    IdToLongColumnValue(s, USER_TABLE_NAME, column, id)
  }

  /**
   * MyProvider.msgIdToUserId: the user id a message column refers to; 0 for a
   * column that does not hold a user id (the exception is caught here).
   */
  function MsgIdToUserId(s: Store, column: string, id: int): (userId: int)
    ensures column !in USER_REFERENCES ==> userId == 0
  {
    if column in USER_REFERENCES then
      match MsgIdToLongColumnValue(s, column, id)
      case Ok(n) => n
      case Err(_) => 0
    else 0
  }

  /** MyProvider.msgSentDate: the sent date of message msgId; 0 for msgId <= 0 and a missing message. */
  function MsgSentDate(s: Store, msgId: int): (date: int)
    ensures msgId <= 0 || msgId !in s.msgs ==> date == 0
    ensures msgId > 0 && msgId in s.msgs ==> date == StoredLong(Cell(s.msgs, msgId, SENT_DATE))
  {
    if msgId > 0 && msgId in s.msgs then StoredLong(Cell(s.msgs, msgId, SENT_DATE)) else 0
  }

  /** The users of one origin with this username. */
  function NameMatches(users: map<int, Row>, originId: int, userName: string): set<int> {
    set k | k in users && Cell(users, k, ORIGIN_ID) == Num(originId) && Cell(users, k, USERNAME) == Text(userName)
  }

  /**
   * MyProvider.userNameToId: the id of the user of this origin with this
   * username, 0 when there is none. The name is spliced between quotes, so a
   * name holding a quote breaks the statement and gives 0.
   */
  ghost function UserNameToId(s: Store, originId: int, userName: string): (id: int)
    ensures '\'' in userName ==> id == 0
    ensures id != 0 ==> id in NameMatches(s.users, originId, userName)
  {
    if '\'' in userName then 0 else FirstId(NameMatches(s.users, originId, userName))
  }

  // Properties relating the lookups to each other

  /** Finding a message by its oid and reading its oid back are inverse when the oid names one message. */
  lemma MsgOidRoundTrip(s: Store, originId: int, msgId: int, oid: string)
    requires msgId > 0 && msgId in s.msgs
    requires oid != "" && AllDigits(oid)
    requires Cell(s.msgs, msgId, ORIGIN_ID) == Num(originId) && Cell(s.msgs, msgId, MSG_OID) == Text(oid)
    requires forall k :: k in s.msgs && k != msgId ==>
      Cell(s.msgs, k, ORIGIN_ID) != Num(originId) || Cell(s.msgs, k, MSG_OID) != Text(oid)
    ensures OidToId(s, [MSG_TABLE_NAME], originId, Some(oid)) == msgId
    ensures IdToOid(s, MsgOid, msgId, 0) == Some(oid)
  {
    MatchIsOrderFree([MSG_TABLE_NAME], 3);
    assert OidMatches(s.msgs, originId, MSG_OID, oid) == {msgId};
  }

  /** The same for a user and the users path. */
  lemma UserOidRoundTrip(s: Store, originId: int, userId: int, oid: string)
    requires userId > 0 && userId in s.users
    requires oid != "" && AllDigits(oid)
    requires Cell(s.users, userId, ORIGIN_ID) == Num(originId) && Cell(s.users, userId, USER_OID) == Text(oid)
    requires forall k :: k in s.users && k != userId ==>
      Cell(s.users, k, ORIGIN_ID) != Num(originId) || Cell(s.users, k, USER_OID) != Text(oid)
    ensures OidToId(s, [USER_TABLE_NAME], originId, Some(oid)) == userId
    ensures IdToOid(s, UserOid, userId, 0) == Some(oid)
  {
    MatchIsOrderFree([USER_TABLE_NAME], 5);
    assert OidMatches(s.users, originId, USER_OID, oid) == {userId};
  }

  /** An oid that is not a plain number finds nothing, whatever the store holds. */
  lemma NonNumericOidFindsNothing(s: Store, uri: Path, originId: int, oid: string)
    requires !AllDigits(oid)
    ensures OidToId(s, uri, originId, Some(oid)) == 0
  {
  }

  /**
   * The reblog oid of a message an account has a flags row for but did not
   * reblog (no reblog oid stored) is the message's own oid; without a flags
   * row the answer is "", with no fallback.
   */
  lemma ReblogOidFallsBack(s: Store, msgId: int, userId: int)
    requires msgId > 0
    ensures FlagKey(msgId, userId) !in s.flags ==> IdToOid(s, ReblogOid, msgId, userId) == Some("")
    ensures (FlagKey(msgId, userId) in s.flags && (REBLOG_OID !in s.flags[FlagKey(msgId, userId)]
        || s.flags[FlagKey(msgId, userId)][REBLOG_OID] in {Null, Text("")})) ==>
      IdToOid(s, ReblogOid, msgId, userId) == IdToOid(s, MsgOid, msgId, 0)
    ensures (FlagKey(msgId, userId) in s.flags && REBLOG_OID in s.flags[FlagKey(msgId, userId)]
        && s.flags[FlagKey(msgId, userId)][REBLOG_OID].Text? && s.flags[FlagKey(msgId, userId)][REBLOG_OID] != Text("")) ==>
      IdToOid(s, ReblogOid, msgId, userId) == Some(s.flags[FlagKey(msgId, userId)][REBLOG_OID].s)
  {
  }

  /** Any lookup of an id that is not positive answers "". */
  lemma IdToOidOfNoId(s: Store, oe: OidKind, msgId: int, userId: int)
    requires msgId <= 0
    ensures IdToOid(s, oe, msgId, userId) == Some("")
  {
  }

  /**
   * Looking up the name behind a message's user column is looking up the
   * user id in that column and then that user's name.
   */
  lemma UsernameThroughUserId(s: Store, column: string, messageId: int)
    requires messageId != 0 && messageId in s.msgs && column in USER_REFERENCES
    requires Cell(s.msgs, messageId, column).Num?
    ensures MsgIdToUserId(s, column, messageId) == Cell(s.msgs, messageId, column).n
    ensures MsgIdToUserId(s, column, messageId) != 0 ==>
      MsgIdToUsername(s, column, messageId) == UserIdToName(s, MsgIdToUserId(s, column, messageId))
  {
  }

  /** The user column lookups agree with the plain column reader on the columns they accept. */
  lemma UserIdIsColumnValue(s: Store, column: string, id: int)
    requires column in USER_REFERENCES
    ensures MsgIdToLongColumnValue(s, column, id) == Ok(MsgIdToUserId(s, column, id))
  {
  }

  /** Finding a user by name and reading the name back are inverse when the name is unique in its origin. */
  lemma UserNameRoundTrip(s: Store, originId: int, userId: int, userName: string)
    requires userId != 0 && userId in s.users
    requires '\'' !in userName
    requires Cell(s.users, userId, ORIGIN_ID) == Num(originId) && Cell(s.users, userId, USERNAME) == Text(userName)
    requires forall k :: k in s.users && k != userId ==>
      Cell(s.users, k, ORIGIN_ID) != Num(originId) || Cell(s.users, k, USERNAME) != Text(userName)
    ensures UserNameToId(s, originId, userName) == userId
    ensures UserIdToName(s, userId) == Some(userName)
  {
    assert NameMatches(s.users, originId, userName) == {userId};
  }

  /** The long reader reads back what insert stored: a Long column value comes back unchanged. */
  lemma LongColumnReadsStoredNumber(s: Store, column: string, id: int, n: int)
    requires column != "" && column != ID && id != 0 && id in s.msgs
    requires column in s.msgs[id] && s.msgs[id][column] == Num(n)
    ensures MsgIdToLongColumnValue(s, column, id) == Ok(n)
  {
  }
}
