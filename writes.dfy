/**
 * The write side of MyProvider: the ContentValues bag and the helpers that
 * move the per-account flag columns out of it (moveBooleanKey,
 * moveStringKey, prepareMsgOfUserValues), and what insert, update and
 * delete do to the store, stated as functions of the old store. The
 * Provider class runs these step by step against its own store.
 */
module Writes {
  import opened Wrappers
  import opened Decimal
  import opened Schema
  import opened Paths

  /** android.content.ContentValues: a mutable bag of column values. */
  class ContentValues {
    var entries: Row

    constructor (initial: Row)
      ensures entries == initial
    {
      entries := initial;
    }

    method Put(key: string, value: Value)
      modifies this
      ensures entries == old(entries)[key := value]
    {
      entries := entries[key := value];
    }

    method Remove(key: string)
      modifies this
      ensures entries == old(entries) - {key}
    {
      entries := entries - {key};
    }
  }

  // ---------------------------------------------------------------------
  // Moving one column

  /** The outcome of a move: the return code and both bags afterwards (valuesOut may be null). */
  datatype Moved = Moved(ret: int, valuesIn: Row, valuesOut: Option<Row>)

  function PutInto(out: Option<Row>, key: string, value: Value): Option<Row> {
    if out.Some? then Some(out.value[key := value]) else None
  }

  /**
   * moveBooleanKey: 2 when the key is absent and nothing changes; otherwise
   * MyPreferences.isTrue of the value (0 or 1), the key leaves valuesIn and
   * that number is put into valuesOut.
   */
  function MoveBoolean(prefs: Preferences, key: string, valuesIn: Row, valuesOut: Option<Row>): (r: Moved)
    ensures r.ret == 2 <==> key !in valuesIn
    ensures key in valuesIn ==> r.ret == prefs.isTrue(valuesIn[key])
    ensures r.valuesIn == valuesIn - {key} && key !in r.valuesIn
    ensures r.valuesOut.Some? <==> valuesOut.Some?
    ensures key in valuesIn && valuesOut.Some? ==> r.valuesOut.value == valuesOut.value[key := Num(r.ret)]
    ensures key !in valuesIn ==> r.valuesOut == valuesOut
  {
    if key in valuesIn then
      var ret := prefs.isTrue(valuesIn[key]);
      Moved(ret, valuesIn - {key}, PutInto(valuesOut, key, Num(ret)))
    else Moved(2, valuesIn, valuesOut)
  }

  /**
   * moveStringKey: 2 when the key is absent; otherwise 0 when the value as
   * a String is empty (MyPreferences.isEmpty) and 1 when it is not, the key
   * leaves valuesIn and the String value (null stays null) goes into valuesOut.
   */
  function MoveString(prefs: Preferences, key: string, valuesIn: Row, valuesOut: Option<Row>): (r: Moved)
    ensures r.ret == 2 <==> key !in valuesIn
    ensures key in valuesIn ==> (r.ret == 0 <==> prefs.isEmpty(GetAsString(valuesIn, key))) && r.ret in {0, 1}
    ensures r.valuesIn == valuesIn - {key} && key !in r.valuesIn
    ensures r.valuesOut.Some? <==> valuesOut.Some?
    ensures key in valuesIn && valuesOut.Some? ==>
      r.valuesOut.value == valuesOut.value[key := StringValue(GetAsString(valuesIn, key))]
    ensures key !in valuesIn ==> r.valuesOut == valuesOut
  {
    if key in valuesIn then
      var value := GetAsString(valuesIn, key);
      var ret := if prefs.isEmpty(value) then 0 else 1;
      Moved(ret, valuesIn - {key}, PutInto(valuesOut, key, StringValue(value)))
    else Moved(2, valuesIn, valuesOut)
  }

  method MoveBooleanKey(prefs: Preferences, key: string, valuesIn: ContentValues, valuesOut: ContentValues?)
    returns (ret: int)
    modifies valuesIn, valuesOut
    ensures var m := MoveBoolean(prefs, key, old(valuesIn.entries),
                                 if valuesOut == null then None else Some(old(valuesOut.entries)));
      ret == m.ret
      && (valuesOut != valuesIn ==> valuesIn.entries == m.valuesIn)
      && (valuesOut != null && valuesOut != valuesIn ==> valuesOut.entries == m.valuesOut.value)
      && (valuesOut == valuesIn ==>
            valuesIn.entries == if key in old(valuesIn.entries) then m.valuesIn[key := Num(ret)] else m.valuesIn)
  {
    ret := 2;
    if key in valuesIn.entries {
      ret := prefs.isTrue(valuesIn.entries[key]);
      valuesIn.Remove(key);
      if valuesOut != null {
        valuesOut.Put(key, Num(ret));
      }
    }
  }

  method MoveStringKey(prefs: Preferences, key: string, valuesIn: ContentValues, valuesOut: ContentValues?)
    returns (ret: int)
    modifies valuesIn, valuesOut
    ensures var m := MoveString(prefs, key, old(valuesIn.entries),
                                if valuesOut == null then None else Some(old(valuesOut.entries)));
      ret == m.ret
      && (valuesOut != valuesIn ==> valuesIn.entries == m.valuesIn)
      && (valuesOut != null && valuesOut != valuesIn ==> valuesOut.entries == m.valuesOut.value)
      && (valuesOut == valuesIn ==>
            valuesIn.entries == if key in old(valuesIn.entries)
                                then m.valuesIn[key := StringValue(GetAsString(old(valuesIn.entries), key))]
                                else m.valuesIn)
  {
    ret := 2;
    if key in valuesIn.entries {
      var value := GetAsString(valuesIn.entries, key);
      ret := if prefs.isEmpty(value) then 0 else 1;
      valuesIn.Remove(key);
      if valuesOut != null {
        valuesOut.Put(key, StringValue(value));
      }
    }
  }

  // ---------------------------------------------------------------------
  // Splitting a message's values into message columns and flag columns

  /** The bag left for the message table and, when the message belongs to an account's timeline, the flags bag. */
  datatype Prepared = Prepared(values: Row, flags: Option<Row>)

  /** The columns prepareMsgOfUserValues moves, in the order it moves them; only the reblog oid is a String. */
  const FLAG_MOVES: seq<string> := [SUBSCRIBED, FAVORITED, REBLOGGED, REBLOG_OID, MENTIONED, REPLIED, DIRECTED]

  function KeySet(keys: seq<string>): set<string> {
    set k | k in keys
  }

  /** One move of a flag column, of the kind that column takes. */
  function MoveFlag(prefs: Preferences, key: string, valuesIn: Row, valuesOut: Option<Row>): Moved {
    if key == REBLOG_OID then MoveString(prefs, key, valuesIn, valuesOut) else MoveBoolean(prefs, key, valuesIn, valuesOut)
  }

  /** The moves of the given columns, one after the other. */
  function MoveEach(prefs: Preferences, keys: seq<string>, valuesIn: Row, valuesOut: Option<Row>): (r: (Row, Option<Row>))
    ensures r.0 == valuesIn - KeySet(keys)
    ensures r.1.Some? <==> valuesOut.Some?
    decreases |keys|
  {
    if keys == [] then (valuesIn, valuesOut)
    else
      var m := MoveFlag(prefs, keys[0], valuesIn, valuesOut);
      assert KeySet(keys) == {keys[0]} + KeySet(keys[1..]);
      MoveEach(prefs, keys[1..], m.valuesIn, m.valuesOut)
  }

  /** The timeline kind a bag names; UNKNOWN without the column. */
  function TimelineTypeOf(values: Row): TimelineType
    requires TIMELINE_TYPE in values ==> !values[TIMELINE_TYPE].Null?
  {
    if TIMELINE_TYPE in values then Load(ValueText(values[TIMELINE_TYPE]).value) else Unknown
  }

  /** The flags bag before the moves: msg_id from the message's _id when it has one, and the account. */
  function FlagsStart(values: Row, userId: int): Row {
    (if ID in values then map[MSG_ID := StringValue(GetAsString(values, ID))] else map[])[USER_ID := Num(userId)]
  }

  /**
   * prepareMsgOfUserValues: a null timeline type is a NullPointerException;
   * otherwise the type column is dropped, and for an account (id not 0)
   * and a known timeline kind every flag column moves to a new flags bag.
   */
  function PrepareMsgOfUser(prefs: Preferences, values: Row, userId: int): (r: Result<Prepared, Error>)
    ensures r.Err? ==> r == Err(NullPointer)
    ensures r.Ok? ==> r.value.values == values - {TIMELINE_TYPE} - (if r.value.flags.Some? then FLAG_COLUMNS else {})
  {
    if TIMELINE_TYPE in values && values[TIMELINE_TYPE].Null? then Err(NullPointer)
    else
      var rest := values - {TIMELINE_TYPE};
      if userId != 0 && TimelineTypeOf(values) != Unknown then
        var moved := MoveEach(prefs, FLAG_MOVES, rest, Some(FlagsStart(rest, userId)));
        assert KeySet(FLAG_MOVES) == FLAG_COLUMNS;
        Ok(Prepared(moved.0, moved.1))
      else Ok(Prepared(rest, None))
  }

  /** When the flags bag is made, and when the call throws. */
  lemma PrepareMsgOfUserCases(prefs: Preferences, values: Row, userId: int)
    ensures PrepareMsgOfUser(prefs, values, userId).Err? <==> TIMELINE_TYPE in values && values[TIMELINE_TYPE].Null?
    ensures var r := PrepareMsgOfUser(prefs, values, userId);
      r.Ok? ==> ((r.value.flags.Some? <==> userId != 0 && TimelineTypeOf(values) != Unknown)
                 && (r.value.flags.None? ==> r.value.values == values - {TIMELINE_TYPE}))
  {
  }

  /**
   * When the flags bag is made, the message keeps every column but the
   * timeline type and the flag columns, and the flags bag holds exactly
   * msg_id (when the message had an _id), user_id and the flag columns
   * the message had: booleans as 0/1 by MyPreferences.isTrue, the reblog
   * oid as its String.
   */
  lemma {:induction false} PrepareMsgOfUserSplits(prefs: Preferences, values: Row, userId: int)
    requires PrepareMsgOfUser(prefs, values, userId).Ok?
    requires PrepareMsgOfUser(prefs, values, userId).value.flags.Some?
    ensures var p := PrepareMsgOfUser(prefs, values, userId).value;
      var f := p.flags.value;
      p.values == values - {TIMELINE_TYPE} - FLAG_COLUMNS
      && f.Keys == {USER_ID} + (if ID in values then {MSG_ID} else {}) + (values.Keys * FLAG_COLUMNS)
      && f[USER_ID] == Num(userId)
      && (ID in values ==> f[MSG_ID] == StringValue(GetAsString(values, ID)))
      && (forall k :: k in BOOLEAN_FLAGS && k in values ==> f[k] == Num(prefs.isTrue(values[k])))
      && (REBLOG_OID in values ==> f[REBLOG_OID] == StringValue(GetAsString(values, REBLOG_OID)))
  {
    var rest := values - {TIMELINE_TYPE};
    var start := FlagsStart(rest, userId);
    FlagsMoved(prefs, rest, userId);
    ColumnFacts();
    assert ID in rest <==> ID in values;
    assert rest.Keys * FLAG_COLUMNS == values.Keys * FLAG_COLUMNS;
  }

  lemma FlagsMoved(prefs: Preferences, rest: Row, userId: int)
    ensures var moved := MoveEach(prefs, FLAG_MOVES, rest, Some(FlagsStart(rest, userId)));
      moved.1.Some? && MovedSoFar(prefs, rest, FlagsStart(rest, userId), FLAG_COLUMNS, moved.0, moved.1.value)
  {
    var start := FlagsStart(rest, userId);
    FlagColumnsDistinct();
    FlagsStartReady(prefs, rest, userId);
    MoveEachMoves(prefs, rest, start, {}, FLAG_MOVES, rest, start);
    assert {} + KeySet(FLAG_MOVES) == FLAG_COLUMNS;
  }

  /** Before the first move nothing is done, and no flag column is in the new bag yet. */
  lemma FlagsStartReady(prefs: Preferences, rest: Row, userId: int)
    ensures MovedSoFar(prefs, rest, FlagsStart(rest, userId), {}, rest, FlagsStart(rest, userId))
    ensures forall i :: 0 <= i < |FLAG_MOVES| ==> FLAG_MOVES[i] !in {} && FLAG_MOVES[i] !in FlagsStart(rest, userId)
  {
    var start := FlagsStart(rest, userId);
    assert start.Keys <= {MSG_ID, USER_ID};
    assert rest - {} == rest;
  }

  /** Facts about the column names the split relies on. */
  lemma ColumnFacts()
    ensures forall k :: k in BOOLEAN_FLAGS ==> k in FLAG_COLUMNS && k != REBLOG_OID
    ensures REBLOG_OID in FLAG_COLUMNS
    ensures TIMELINE_TYPE !in FLAG_COLUMNS && ID !in FLAG_COLUMNS && ID != TIMELINE_TYPE
    ensures MSG_ID !in FLAG_COLUMNS && USER_ID !in FLAG_COLUMNS && MSG_ID != USER_ID
  {
  }

  /** What a flag column becomes in the flags bag. */
  function Moving(prefs: Preferences, values: Row, key: string): Value
    requires key in values
  {
    if key == REBLOG_OID then StringValue(GetAsString(values, key)) else Num(prefs.isTrue(values[key]))
  }

  /** After moving the columns in done out of orig: what is left, and what the flags bag holds. */
  predicate MovedSoFar(prefs: Preferences, orig: Row, start: Row, done: set<string>, valuesIn: Row, valuesOut: Row) {
    valuesIn == orig - done
    && valuesOut.Keys == start.Keys + (orig.Keys * done)
    && (forall k :: k in start && k !in done ==> valuesOut[k] == start[k])
    && (forall k :: k in orig && k in done ==> valuesOut[k] == Moving(prefs, orig, k))
  }

  /** The flag columns are seven different names, none of them msg_id or user_id. */
  lemma FlagColumnsDistinct()
    ensures forall i, j :: 0 <= i < j < |FLAG_MOVES| ==> FLAG_MOVES[i] != FLAG_MOVES[j]
    ensures MSG_ID !in FLAG_COLUMNS && USER_ID !in FLAG_COLUMNS
  {
  }

  /** One move carries MovedSoFar from done to done plus the moved column. */
  lemma MoveStep(prefs: Preferences, orig: Row, start: Row, done: set<string>, valuesIn: Row, valuesOut: Row, key: string)
    requires MovedSoFar(prefs, orig, start, done, valuesIn, valuesOut)
    requires key !in done && key !in start
    ensures var m := MoveFlag(prefs, key, valuesIn, Some(valuesOut));
      m.valuesOut.Some? && MovedSoFar(prefs, orig, start, done + {key}, m.valuesIn, m.valuesOut.value)
  {
    var m := MoveFlag(prefs, key, valuesIn, Some(valuesOut));
    assert m.valuesIn == orig - (done + {key});
    if key in orig {
      assert GetAsString(valuesIn, key) == GetAsString(orig, key);
      assert m.valuesOut.value == valuesOut[key := Moving(prefs, orig, key)];
    }
  }

  /** Moving distinct columns, none moved yet and none in the starting bag, moves each of them. */
  lemma {:induction false} MoveEachMoves(prefs: Preferences, orig: Row, start: Row, done: set<string>,
                                         keys: seq<string>, valuesIn: Row, valuesOut: Row)
    requires MovedSoFar(prefs, orig, start, done, valuesIn, valuesOut)
    requires forall i :: 0 <= i < |keys| ==> keys[i] !in done && keys[i] !in start
    requires forall i, j :: 0 <= i < j < |keys| ==> keys[i] != keys[j]
    ensures var r := MoveEach(prefs, keys, valuesIn, Some(valuesOut));
      r.1.Some? && MovedSoFar(prefs, orig, start, done + KeySet(keys), r.0, r.1.value)
    decreases |keys|
  {
    if keys == [] {
      assert done + KeySet(keys) == done;
    } else {
      var m := MoveFlag(prefs, keys[0], valuesIn, Some(valuesOut));
      MoveStep(prefs, orig, start, done, valuesIn, valuesOut, keys[0]);
      forall i | 0 <= i < |keys[1..]|
        ensures keys[1..][i] !in done + {keys[0]} && keys[1..][i] !in start
      {
        assert keys[1..][i] == keys[i + 1];
      }
      MoveEachMoves(prefs, orig, start, done + {keys[0]}, keys[1..], m.valuesIn, m.valuesOut.value);
      assert (done + {keys[0]}) + KeySet(keys[1..]) == done + KeySet(keys);
    }
  }

  /** The first of the remaining moves, taken off the list. */
  lemma MoveEachFirst(prefs: Preferences, i: nat, valuesIn: Row, valuesOut: Option<Row>)
    requires i < |FLAG_MOVES|
    ensures var m := MoveFlag(prefs, FLAG_MOVES[i], valuesIn, valuesOut);
      MoveEach(prefs, FLAG_MOVES[i..], valuesIn, valuesOut) == MoveEach(prefs, FLAG_MOVES[i + 1..], m.valuesIn, m.valuesOut)
  {
    assert FLAG_MOVES[i..][0] == FLAG_MOVES[i];
    assert FLAG_MOVES[i..][1..] == FLAG_MOVES[i + 1..];
  }

  /** The seven calls of prepareMsgOfUserValues that move the flag columns from values to msgOfUserValues. */
  method MoveFlagColumns(prefs: Preferences, values: ContentValues, msgOfUserValues: ContentValues)
    requires values != msgOfUserValues
    modifies values, msgOfUserValues
    ensures (values.entries, Some(msgOfUserValues.entries))
      == MoveEach(prefs, FLAG_MOVES, old(values.entries), Some(old(msgOfUserValues.entries)))
  {
    ghost var goal := MoveEach(prefs, FLAG_MOVES, values.entries, Some(msgOfUserValues.entries));
    MoveEachFirst(prefs, 0, values.entries, Some(msgOfUserValues.entries));
    var ret := MoveBooleanKey(prefs, SUBSCRIBED, values, msgOfUserValues);
    MoveEachFirst(prefs, 1, values.entries, Some(msgOfUserValues.entries));
    ret := MoveBooleanKey(prefs, FAVORITED, values, msgOfUserValues);
    MoveEachFirst(prefs, 2, values.entries, Some(msgOfUserValues.entries));
    ret := MoveBooleanKey(prefs, REBLOGGED, values, msgOfUserValues);
    MoveEachFirst(prefs, 3, values.entries, Some(msgOfUserValues.entries));
    ret := MoveStringKey(prefs, REBLOG_OID, values, msgOfUserValues);
    MoveEachFirst(prefs, 4, values.entries, Some(msgOfUserValues.entries));
    ret := MoveBooleanKey(prefs, MENTIONED, values, msgOfUserValues);
    MoveEachFirst(prefs, 5, values.entries, Some(msgOfUserValues.entries));
    ret := MoveBooleanKey(prefs, REPLIED, values, msgOfUserValues);
    MoveEachFirst(prefs, 6, values.entries, Some(msgOfUserValues.entries));
    ret := MoveBooleanKey(prefs, DIRECTED, values, msgOfUserValues);
    assert FLAG_MOVES[7..] == [];
  }

  method PrepareMsgOfUserValues(prefs: Preferences, values: ContentValues, userId: int)
    returns (r: Result<ContentValues?, Error>)
    modifies values
    ensures match PrepareMsgOfUser(prefs, old(values.entries), userId)
      case Err(e) => r == Err(e) && values.entries == old(values.entries)
      case Ok(p) =>
        r.Ok? && values.entries == p.values && (r.value == null <==> p.flags.None?)
        && (r.value != null ==> fresh(r.value) && r.value.entries == p.flags.value)
  {
    var timelineType := Unknown;
    if TIMELINE_TYPE in values.entries {
      var v := values.entries[TIMELINE_TYPE];
      if v.Null? {
        return Err(NullPointer);
      }
      timelineType := Load(ValueText(v).value);
      values.Remove(TIMELINE_TYPE);
    }
    var msgOfUserValues: ContentValues? := null;
    if userId != 0 && timelineType != Unknown {
      msgOfUserValues := new ContentValues(map[]);
      if ID in values.entries {
        msgOfUserValues.Put(MSG_ID, StringValue(GetAsString(values.entries, ID)));
      }
      msgOfUserValues.Put(USER_ID, Num(userId));
      MoveFlagColumns(prefs, values, msgOfUserValues);
    }
    return Ok(msgOfUserValues);
  }

  // ---------------------------------------------------------------------
  // insert

  /**
   * The message columns insert fills in: the author from the sender when
   * there is no author (the sender's toString(), so a missing or null
   * sender is a NullPointerException), an empty body and via when missing,
   * and the insertion time always.
   */
  function WithDefaults(values: Row, now: int): Result<Row, Error> {
    if AUTHOR_ID !in values && (SENDER_ID !in values || values[SENDER_ID].Null?) then Err(NullPointer)
    else
      var a := if AUTHOR_ID in values then values else values[AUTHOR_ID := Text(ValueText(values[SENDER_ID]).value)];
      var b := if BODY in a then a else a[BODY := Text("")];
      var c := if VIA in b then b else b[VIA := Text("")];
      Ok(c[MSG_INS_DATE := Num(now)])
  }

  /** What the defaults add, and that they change nothing the caller gave except the insertion time. */
  lemma MessageDefaults(values: Row, now: int)
    ensures WithDefaults(values, now).Err? <==> AUTHOR_ID !in values && (SENDER_ID !in values || values[SENDER_ID].Null?)
    ensures var r := WithDefaults(values, now);
      r.Ok? ==> (r.value.Keys == values.Keys + {AUTHOR_ID, BODY, VIA, MSG_INS_DATE}
                 && r.value[MSG_INS_DATE] == Num(now)
                 && (forall k :: k in values && k != MSG_INS_DATE ==> r.value[k] == values[k])
                 && (AUTHOR_ID !in values ==> r.value[AUTHOR_ID] == Text(ValueText(values[SENDER_ID]).value))
                 && (BODY !in values ==> r.value[BODY] == Text(""))
                 && (VIA !in values ==> r.value[VIA] == Text("")))
  {
    assert AUTHOR_ID != BODY && AUTHOR_ID != VIA && BODY != VIA;
    assert MSG_INS_DATE != AUTHOR_ID && MSG_INS_DATE != BODY && MSG_INS_DATE != VIA;
  }

  /** ContentUris.withAppendedId(User.CONTENT_URI, rowId): the user path with the row id appended. */
  function UserUri(rowId: int): Path {
    [USER_TABLE_NAME, LongToString(rowId)]
  }

  /** A new user's path routes to USER_ID and names the new row. */
  lemma UserUriRoundTrip(rowId: int)
    requires 0 <= rowId <= LONG_MAX
    ensures Match(UserUri(rowId)) == Some(UserId) && ParseLong(UserUri(rowId)[1]) == Some(rowId)
  {
    assert PathMatches(PATTERNS[6].0, UserUri(rowId));
    MatchIsOrderFree(UserUri(rowId), 6);
    ParseLongToString(rowId);
  }

  /**
   * insert on a timeline path, once the account id has been read: the
   * message row, then the flags row. There is no transaction: when the
   * flags row is refused, the message row stays and the answer is null.
   */
  function InsertMessage(prefs: Preferences, s: Store, userId: int, initial: Row, now: int): (r: (Store, Option<Path>))
    requires Valid(s)
    ensures Valid(r.0)
    ensures r.0.users == s.users && r.0.lastUserId == s.lastUserId
  {
    match WithDefaults(initial, now)
    case Err(_) => (s, None)
    case Ok(values) =>
      match PrepareMsgOfUser(prefs, values, userId)
      case Err(_) => (s, None)
      case Ok(p) =>
        var ins := InsertRow(s.msgs, s.lastMsgId, p.values);
        var s1 := s.(msgs := ins.rows, lastMsgId := ins.last);
        if ins.rowId == -1 then (s1, None)
        else if p.flags.None? then (s1, Some(TimelineMsgUri(userId, ins.rowId, true)))
        else
          var inserted := InsertFlags(s1.flags, p.flags.value[MSG_ID := Num(ins.rowId)]);
          (s1.(flags := inserted.0), if inserted.1 then Some(TimelineMsgUri(userId, ins.rowId, true)) else None)
  }

  /**
   * insert(uri, initialValues): a message on a timeline path, a user on
   * the user path; every exception is caught, so an unknown path or a
   * failure answers null.
   */
  function InsertSpec(prefs: Preferences, s: Store, uri: Path, initial: Row, now: int): (r: (Store, Option<Path>))
    requires Valid(s)
    ensures Valid(r.0)
    ensures Match(uri) != Some(Timeline) && Match(uri) != Some(Users) ==> r == (s, None)
    ensures Match(uri) == Some(Users) ==> r.0.msgs == s.msgs && r.0.flags == s.flags
    ensures Match(uri) == Some(Users) ==>
      var ins := InsertRow(s.users, s.lastUserId, initial[USER_INS_DATE := Num(now)]);
      r.0.users == ins.rows && r.0.lastUserId == ins.last
      && r.1 == if ins.rowId == -1 then None else Some(UserUri(ins.rowId))
    ensures Match(uri) == Some(Timeline) ==>
      if ParseLong(uri[1]).None? then r == (s, None)
      else r == InsertMessage(prefs, s, ParseLong(uri[1]).value, initial, now)
  {
    match Match(uri)
    case Some(Timeline) =>
      (match ParseLong(uri[1])
       case None => (s, None)
       case Some(userId) => InsertMessage(prefs, s, userId, initial, now))
    case Some(Users) =>
      var ins := InsertRow(s.users, s.lastUserId, initial[USER_INS_DATE := Num(now)]);
      (s.(users := ins.rows, lastUserId := ins.last), if ins.rowId == -1 then None else Some(UserUri(ins.rowId)))
    case _ => (s, None)
  }

  /** An insert on a timeline path built for an account inserts a message for that account. */
  lemma TimelineInsertRoutes(prefs: Preferences, s: Store, userId: int, timelineType: TimelineType, isCombined: bool,
                             initial: Row, now: int)
    requires Valid(s) && 0 <= userId <= LONG_MAX
    ensures InsertSpec(prefs, s, TimelineUri(userId, timelineType, isCombined), initial, now)
            == InsertMessage(prefs, s, userId, initial, now)
  {
    TimelineUriRoundTrip(userId, timelineType, isCombined);
    ParseLongToString(userId);
  }

  /**
   * A message insert succeeds exactly when SQLite gives the message a row
   * id and, when the message belongs to an account's timeline, the
   * (message, account) flags row is new; then the message is stored under
   * that id, the flags row under that message and account, and the answer
   * is the message's path on the account's combined timeline.
   */
  lemma InsertMessageStores(prefs: Preferences, s: Store, userId: int, initial: Row, now: int)
    requires Valid(s)
    requires WithDefaults(initial, now).Ok?
    requires PrepareMsgOfUser(prefs, WithDefaults(initial, now).value, userId).Ok?
    ensures var p := PrepareMsgOfUser(prefs, WithDefaults(initial, now).value, userId).value;
      var rowId := InsertRow(s.msgs, s.lastMsgId, p.values).rowId;
      var r := InsertMessage(prefs, s, userId, initial, now);
      (r.1.Some? <==> rowId != -1 && (p.flags.None? || FlagKey(rowId, userId) !in s.flags))
      && (rowId != -1 ==> rowId !in s.msgs && r.0.msgs == s.msgs[rowId := p.values - {ID}])
      && (r.1.Some? ==>
            r.1 == Some(TimelineMsgUri(userId, rowId, true))
            && r.0.flags == if p.flags.Some? then s.flags[FlagKey(rowId, userId) := p.flags.value - {MSG_ID, USER_ID}]
                            else s.flags)
  {
    var p := PrepareMsgOfUser(prefs, WithDefaults(initial, now).value, userId).value;
    if p.flags.Some? {
      PrepareMsgOfUserSplits(prefs, WithDefaults(initial, now).value, userId);
      ColumnFacts();
      var rowId := InsertRow(s.msgs, s.lastMsgId, p.values).rowId;
      var f := p.flags.value[MSG_ID := Num(rowId)];
      assert FlagKeyOf(f) == Some(FlagKey(rowId, userId));
      assert f - {MSG_ID, USER_ID} == p.flags.value - {MSG_ID, USER_ID};
    }
  }

  /** Without an account (id 0) insert never writes a flags row. */
  lemma InsertWithoutAccountKeepsFlags(prefs: Preferences, s: Store, initial: Row, now: int)
    requires Valid(s)
    ensures InsertMessage(prefs, s, 0, initial, now).0.flags == s.flags
  {
    if WithDefaults(initial, now).Ok? {
      PrepareMsgOfUserCases(prefs, WithDefaults(initial, now).value, 0);
    }
  }

  /**
   * A flags row can exist for a message id that has no message yet (update
   * creates one for any path it is given). The next message then gets that
   * id, its flags row clashes, the call answers null, and the message row
   * stays: nothing rolls it back.
   */
  lemma InsertKeepsMessageWhenFlagsClash(prefs: Preferences)
    ensures var s := Store(map[], map[], map[FlagKey(1, 7) := map[]], 0, 0);
      var r := InsertMessage(prefs, s, 7, map[SENDER_ID := Num(3), TIMELINE_TYPE := Text("home")], 100);
      r.1 == None && 1 in r.0.msgs && r.0.msgs[1][AUTHOR_ID] == Text("3")
  {
    var s := Store(map[], map[], map[FlagKey(1, 7) := map[]], 0, 0);
    var initial := map[SENDER_ID := Num(3), TIMELINE_TYPE := Text("home")];
    var values := ClashValues(initial);
    var p := ClashPrepared(prefs, values);
    var f := p.flags.value[MSG_ID := Num(1)];
    assert FlagKeyOf(f) == Some(FlagKey(1, 7));
    assert InsertRow(s.msgs, s.lastMsgId, p.values).rows == map[1 := p.values - {ID}];
  }

  lemma ClashPrepared(prefs: Preferences, values: Row) returns (p: Prepared)
    requires TIMELINE_TYPE in values && values[TIMELINE_TYPE] == Text("home")
    requires AUTHOR_ID in values && values[AUTHOR_ID] == Text("3") && ID !in values
    ensures PrepareMsgOfUser(prefs, values, 7) == Ok(p)
    ensures p.flags.Some? && p.values[AUTHOR_ID] == Text("3") && ID !in p.values
    ensures USER_ID in p.flags.value && p.flags.value[USER_ID] == Num(7)
    ensures InsertRow(map[], 0, p.values).rowId == 1
  {
    assert TimelineTypeOf(values) == Home;
    PrepareMsgOfUserCases(prefs, values, 7);
    p := PrepareMsgOfUser(prefs, values, 7).value;
    PrepareMsgOfUserSplits(prefs, values, 7);
    ColumnFacts();
    assert AUTHOR_ID !in FLAG_COLUMNS && AUTHOR_ID != TIMELINE_TYPE;
  }

  /** The message values of the clash scenario after the defaults. */
  lemma ClashValues(initial: Row) returns (values: Row)
    requires initial == map[SENDER_ID := Num(3), TIMELINE_TYPE := Text("home")]
    ensures WithDefaults(initial, 100) == Ok(values)
    ensures TIMELINE_TYPE in values && values[TIMELINE_TYPE] == Text("home")
    ensures AUTHOR_ID in values && values[AUTHOR_ID] == Text("3") && ID !in values
  {
    MessageDefaults(initial, 100);
    values := WithDefaults(initial, 100).value;
    assert LongToString(3) == "3" by {
      assert Digits(3) == [DigitChar(3)];
    }
    assert TIMELINE_TYPE != MSG_INS_DATE && ID !in {SENDER_ID, TIMELINE_TYPE, AUTHOR_ID, BODY, VIA, MSG_INS_DATE};
  }

  // ---------------------------------------------------------------------
  // update

  /** What update leaves behind: the store, the caller's values bag (flag columns moved out of it) and the count. */
  datatype Updated = Updated(store: Store, values: Row, count: nat)

  /** "_id=" + the path's id segment, AND the caller's selection when it is not empty. */
  function KeyWhere(id: Option<int>, sel: Selection): (int, Row) -> bool {
    (k: int, row: Row) => id == Some(k) && Selects(sel, k, row)
  }

  /** The rows a caller's selection picks (all of them for an empty selection). */
  function Where(sel: Selection): (int, Row) -> bool {
    (k: int, row: Row) => Selects(sel, k, row)
  }

  /**
   * The flags upsert of update: when the (message, account) row exists the
   * flags are merged into it; otherwise a row is inserted with the path's
   * message id, which fails silently when that id is not an integer.
   */
  function UpsertFlags(flags: map<FlagKey, Row>, userId: int, rowIdText: string, f: Row): (r: map<FlagKey, Row>)
    ensures ParseLong(rowIdText).None? ==> r == flags
    ensures forall k :: k in flags ==> k in r
    ensures forall k :: k in flags && Some(k.msgId) != ParseLong(rowIdText) ==> r[k] == flags[k]
    ensures forall k :: k in flags && k.userId != userId ==> r[k] == flags[k]
    ensures forall k :: k in r && k !in flags ==> FlagKeyOf(f[MSG_ID := Text(rowIdText)]) == Some(k)
  {
    var rowId := ParseLong(rowIdText);
    if rowId.Some? && FlagKey(rowId.value, userId) in flags then
      flags[FlagKey(rowId.value, userId) := flags[FlagKey(rowId.value, userId)] + (f - {MSG_ID, USER_ID})]
    else InsertFlags(flags, f[MSG_ID := Text(rowIdText)]).0
  }

  /**
   * update(uri, values, selection, selectionArgs); nothing is caught, so
   * an unknown path, an account id that is not a long, a null timeline
   * type and an empty bag reaching SQLiteDatabase.update ("Empty values")
   * are errors. On a message path the flag columns have already left the
   * bag when that update throws, so a flags-only update fails before the
   * flags row is written.
   */
  function UpdateSpec(prefs: Preferences, s: Store, uri: Path, values: Row, sel: Selection): (r: Result<Updated, Error>)
    requires Valid(s)
    ensures r.Ok? ==> Valid(r.value.store) && r.value.store.msgs.Keys == s.msgs.Keys && r.value.store.users.Keys == s.users.Keys
    ensures Match(uri) !in {Some(MsgTable), Some(TimelineMsgId), Some(Users), Some(UserId)} ==> r == Err(UnknownUri)
    ensures r.Ok? && Match(uri) != Some(TimelineMsgId) ==> r.value.store.flags == s.flags && r.value.values == values
    ensures r.Ok? ==> r.value.values != map[]
    ensures Match(uri) in {Some(MsgTable), Some(Users), Some(UserId)} && values == map[] ==> r == Err(IllegalArgument)
  {
    match Match(uri)
    case Some(MsgTable) =>
      if values == map[] then Err(IllegalArgument)
      else
        var u := UpdateRows(s.msgs, values, Where(sel));
        Ok(Updated(s.(msgs := u.0), values, u.1))
    case Some(TimelineMsgId) =>
      (match ParseLong(uri[1])
       case None => Err(NumberFormat)
       case Some(userId) =>
         match PrepareMsgOfUser(prefs, values, userId)
         case Err(e) => Err(e)
         case Ok(p) =>
           if p.values == map[] then Err(IllegalArgument)
           else
           var u := UpdateRows(s.msgs, p.values, KeyWhere(ParseLong(uri[7]), sel));
           var flags := if p.flags.Some? then UpsertFlags(s.flags, userId, uri[7], p.flags.value) else s.flags;
           Ok(Updated(s.(msgs := u.0, flags := flags), p.values, u.1)))
    case Some(Users) =>
      if values == map[] then Err(IllegalArgument)
      else
        var u := UpdateRows(s.users, values, Where(sel));
        Ok(Updated(s.(users := u.0), values, u.1))
    case Some(UserId) =>
      if values == map[] then Err(IllegalArgument)
      else
        var u := UpdateRows(s.users, values, KeyWhere(ParseLong(uri[1]), sel));
        Ok(Updated(s.(users := u.0), values, u.1))
    case _ => Err(UnknownUri)
  }

  /** A condition on one key picks at most that row. */
  lemma KeyWhereHitsOne(rows: map<int, Row>, id: Option<int>, sel: Selection)
    ensures Hits(rows, KeyWhere(id, sel)) <= (if id.Some? then {id.value} else {})
    ensures |Hits(rows, KeyWhere(id, sel))| <= 1
  {
    var h := Hits(rows, KeyWhere(id, sel));
    if id.Some? {
      assert h <= {id.value};
      if id.value in h {
        assert h == {id.value};
      } else {
        assert h == {};
      }
    } else {
      assert h == {};
    }
  }

  /**
   * On a message path update changes at most the message the path names,
   * and, for an account's timeline, leaves exactly one flags row more or
   * the same ones: the (message, account) row, holding the moved flag
   * columns, whether or not the message exists; no other flags row changes.
   */
  lemma UpdateMessageUpserts(prefs: Preferences, s: Store, uri: Path, values: Row, sel: Selection)
    requires Valid(s) && Match(uri) == Some(TimelineMsgId)
    requires ParseLong(uri[1]).Some? && ParseLong(uri[7]).Some?
    requires PrepareMsgOfUser(prefs, values, ParseLong(uri[1]).value).Ok?
    requires PrepareMsgOfUser(prefs, values, ParseLong(uri[1]).value).value.values != map[]
    ensures var userId := ParseLong(uri[1]).value;
      var msgId := ParseLong(uri[7]).value;
      var p := PrepareMsgOfUser(prefs, values, userId).value;
      var r := UpdateSpec(prefs, s, uri, values, sel);
      r.Ok? && r.value.count <= 1
      && (forall k :: k in s.msgs && k != msgId ==> r.value.store.msgs[k] == s.msgs[k])
      && (p.flags.None? ==> r.value.store.flags == s.flags)
      && (p.flags.Some? ==>
            r.value.store.flags.Keys == s.flags.Keys + {FlagKey(msgId, userId)}
            && (forall k :: k in s.flags && k != FlagKey(msgId, userId) ==> r.value.store.flags[k] == s.flags[k])
            && (forall c :: c in p.flags.value && c != MSG_ID && c != USER_ID ==>
                  c in r.value.store.flags[FlagKey(msgId, userId)]
                  && r.value.store.flags[FlagKey(msgId, userId)][c] == p.flags.value[c]))
  {
    var userId := ParseLong(uri[1]).value;
    UpdateOnMessagePath(prefs, s, uri, values, sel);
    KeyWhereHitsOne(s.msgs, ParseLong(uri[7]), sel);
    var p := PrepareMsgOfUser(prefs, values, userId).value;
    if p.flags.Some? {
      PrepareMsgOfUserSplits(prefs, values, userId);
      UpsertFlagsKeepsOthers(s.flags, userId, uri[7], p.flags.value);
    }
  }

  lemma UpdateOnMessagePath(prefs: Preferences, s: Store, uri: Path, values: Row, sel: Selection)
    requires Valid(s) && Match(uri) == Some(TimelineMsgId)
    requires ParseLong(uri[1]).Some? && PrepareMsgOfUser(prefs, values, ParseLong(uri[1]).value).Ok?
    requires PrepareMsgOfUser(prefs, values, ParseLong(uri[1]).value).value.values != map[]
    ensures var userId := ParseLong(uri[1]).value;
      var p := PrepareMsgOfUser(prefs, values, userId).value;
      var u := UpdateRows(s.msgs, p.values, KeyWhere(ParseLong(uri[7]), sel));
      UpdateSpec(prefs, s, uri, values, sel)
      == Ok(Updated(s.(msgs := u.0, flags := if p.flags.Some? then UpsertFlags(s.flags, userId, uri[7], p.flags.value) else s.flags),
                    p.values, u.1))
  {
  }

  /**
   * A timeline-message update whose bag holds only the timeline type and
   * flag columns, for an account and a known timeline kind, leaves an empty
   * bag for the message table; SQLiteDatabase.update throws on it, so the
   * flags row is never written and the store stays as it was.
   */
  lemma FlagsOnlyUpdateThrows(prefs: Preferences, s: Store, uri: Path, values: Row, sel: Selection)
    requires Valid(s) && Match(uri) == Some(TimelineMsgId)
    requires ParseLong(uri[1]).Some? && ParseLong(uri[1]).value != 0
    requires TIMELINE_TYPE in values && !values[TIMELINE_TYPE].Null? && TimelineTypeOf(values) != Unknown
    requires values.Keys <= {TIMELINE_TYPE} + FLAG_COLUMNS
    ensures UpdateSpec(prefs, s, uri, values, sel) == Err(IllegalArgument)
  {
    var userId := ParseLong(uri[1]).value;
    PrepareMsgOfUserCases(prefs, values, userId);
    var p := PrepareMsgOfUser(prefs, values, userId).value;
    assert p.values.Keys == {};
  }

  /**
   * Whether the (message, account) row existed or not, after the upsert it
   * exists, holds every flag column of the bag, and no other row changed.
   */
  lemma UpsertFlagsKeepsOthers(flags: map<FlagKey, Row>, userId: int, rowIdText: string, f: Row)
    requires ParseLong(rowIdText).Some? && USER_ID in f && f[USER_ID] == Num(userId)
    ensures var key := FlagKey(ParseLong(rowIdText).value, userId);
      var r := UpsertFlags(flags, userId, rowIdText, f);
      r.Keys == flags.Keys + {key}
      && (forall k :: k in flags && k != key ==> r[k] == flags[k])
      && (forall c :: c in f && c != MSG_ID && c != USER_ID ==> c in r[key] && r[key][c] == f[c])
  {
    var key := FlagKey(ParseLong(rowIdText).value, userId);
    if key !in flags {
      ColumnFacts();
      var g := f[MSG_ID := Text(rowIdText)];
      assert FlagKeyOf(g) == Some(key);
      assert g - {MSG_ID, USER_ID} == f - {MSG_ID, USER_ID};
    }
  }

  // ---------------------------------------------------------------------
  // delete

  /** The messages a delete on the message path removes. */
  function Doomed(s: Store, sel: Selection): set<int> {
    Hits(s.msgs, Where(sel))
  }

  /**
   * delete on the message path as written, inside one transaction: first
   * the flags rows matched by EXISTS (SELECT * FROM msg WHERE (msg._id =
   * msgofuser.msg_id) AND (selection)), then the messages the selection
   * picks. A null selection is spliced as the text null, so the first
   * statement removes no flags row while the second removes every message;
   * an empty selection leaves "AND ()", a syntax error, and the rollback
   * answers 0.
   */
  function DeleteMessagesAsWritten(s: Store, sel: Selection): (r: (Store, nat))
    ensures sel.Sql? && sel.text == "" ==> r == (s, 0)
    ensures !(sel.Sql? && sel.text == "") ==>
      r.0.msgs.Keys == s.msgs.Keys - Doomed(s, sel) && r.1 == |Doomed(s, sel)|
    ensures forall k :: k in r.0.msgs ==> r.0.msgs[k] == s.msgs[k]
    ensures sel.NoSelection? ==> r.0.msgs == map[] && r.0.flags == s.flags
    ensures sel.Sql? && sel.text != "" ==> r.0.flags.Keys == set k | k in s.flags && k.msgId !in Doomed(s, sel)
    ensures forall k :: k in r.0.flags ==> k in s.flags && r.0.flags[k] == s.flags[k]
    ensures r.0.users == s.users && r.0.lastMsgId == s.lastMsgId && r.0.lastUserId == s.lastUserId
  {
    if sel.Sql? && sel.text == "" then (s, 0)
    else
      var flags := map k | k in s.flags && !(sel.Sql? && k.msgId in s.msgs && sel.holds(k.msgId, s.msgs[k.msgId])) :: s.flags[k];
      var d := DeleteRows(s.msgs, Where(sel));
      (s.(msgs := d.0, flags := flags), d.1)
  }

  /** delete on the message path as intended: the messages the selection picks, and every flags row of those messages. */
  function DeleteMessages(s: Store, sel: Selection): (r: (Store, nat))
    ensures r.0.msgs.Keys == s.msgs.Keys - Doomed(s, sel)
    ensures forall k :: k in r.0.msgs ==> r.0.msgs[k] == s.msgs[k]
    ensures r.1 == |Doomed(s, sel)|
    ensures r.0.flags.Keys == set k | k in s.flags && k.msgId !in Doomed(s, sel)
    ensures r.0.users == s.users && r.0.lastMsgId == s.lastMsgId && r.0.lastUserId == s.lastUserId
  {
    var doomed := Doomed(s, sel);
    var d := DeleteRows(s.msgs, Where(sel));
    (s.(msgs := d.0, flags := map k | k in s.flags && k.msgId !in doomed :: s.flags[k]), d.1)
  }

  /** A flags row whose message is gone. */
  predicate Orphan(s: Store, k: FlagKey) {
    k in s.flags && k.msgId !in s.msgs
  }

  /** Deleting messages leaves no flags row behind for a message it removed. */
  lemma DeleteMessagesLeavesNoOrphans(s: Store, sel: Selection)
    ensures forall k :: Orphan(DeleteMessages(s, sel).0, k) ==> Orphan(s, k)
  {
  }

  /** With a selection that is neither null nor empty, the delete as written is the intended one. */
  lemma DeleteAsWrittenAgreesOnSelection(s: Store, sel: Selection)
    requires sel.Sql? && sel.text != ""
    ensures DeleteMessagesAsWritten(s, sel) == DeleteMessages(s, sel)
  {
  }

  /**
   * As written, deleting with a null selection removes every message and
   * keeps every flags row, so each flags row of the store is left an
   * orphan; the intended delete removes them too, so that only rows that
   * were orphans already remain.
   */
  lemma DeleteWithoutSelectionOrphansFlagsAsWritten(s: Store)
    ensures var w := DeleteMessagesAsWritten(s, NoSelection).0;
      w.msgs == map[] && w.flags == s.flags && (forall k :: k in s.flags ==> Orphan(w, k))
    ensures DeleteMessages(s, NoSelection).0.msgs == map[]
    ensures forall k :: k in DeleteMessages(s, NoSelection).0.flags ==> Orphan(s, k)
  {
    assert Doomed(s, NoSelection) == s.msgs.Keys;
  }

  /**
   * As written, deleting with an empty selection is rolled back and answers
   * 0; the intended delete treats it like no selection and removes every
   * message with its flags rows.
   */
  lemma DeleteWithEmptySelectionRollsBackAsWritten(s: Store, holds: (int, Row) -> bool)
    ensures DeleteMessagesAsWritten(s, Sql("", holds)) == (s, 0)
    ensures DeleteMessages(s, Sql("", holds)).0.msgs == map[]
    ensures forall k :: k in DeleteMessages(s, Sql("", holds)).0.flags ==> Orphan(s, k)
    ensures DeleteMessages(s, Sql("", holds)).1 == |s.msgs|
  {
    assert Doomed(s, Sql("", holds)) == s.msgs.Keys;
  }

  /**
   * delete(uri, selection, selectionArgs): messages on the message path,
   * as written (the flags rows go only with a real selection), users on
   * the user paths, which leave the user's flags rows alone. An unknown
   * path is an error.
   */
  function DeleteSpec(s: Store, uri: Path, sel: Selection): (r: Result<(Store, nat), Error>)
    requires Valid(s)
    ensures r.Ok? ==> Valid(r.value.0)
    ensures Match(uri) !in {Some(MsgTable), Some(Users), Some(UserId)} ==> r == Err(UnknownUri)
    ensures r.Ok? && Match(uri) != Some(MsgTable) ==> r.value.0.flags == s.flags && r.value.0.msgs == s.msgs
    ensures Match(uri) == Some(MsgTable) ==> r == Ok(DeleteMessagesAsWritten(s, sel))
    ensures r.Ok? ==> r.value.0.lastMsgId == s.lastMsgId && r.value.0.lastUserId == s.lastUserId
  {
    match Match(uri)
    case Some(MsgTable) => Ok(DeleteMessagesAsWritten(s, sel))
    case Some(Users) =>
      var d := DeleteRows(s.users, Where(sel));
      Ok((s.(users := d.0), d.1))
    case Some(UserId) =>
      var d := DeleteRows(s.users, KeyWhere(ParseLong(uri[1]), sel));
      Ok((s.(users := d.0), d.1))
    case _ => Err(UnknownUri)
  }
}
