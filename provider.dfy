/**
 * MyProvider as an object over its database: insert, update and delete
 * run step by step against the store the way the provider's methods call
 * SQLite, and each is proved to leave the store (and the caller's values)
 * as the matching function of the Writes module says.
 */
module Provider {
  import opened Wrappers
  import opened Decimal
  import opened Schema
  import opened Paths
  import opened Writes

  class Provider {
    /** The database behind MyPreferences.getDatabase(). */
    var store: Store
    /** MyPreferences.isTrue and isEmpty. */
    const prefs: Preferences

    predicate Valid()
      reads this
    {
      Schema.Valid(store)
    }

    constructor (prefs: Preferences)
      ensures Valid() && this.prefs == prefs
      ensures store == Store(map[], map[], map[], 0, 0)
    {
      this.prefs := prefs;
      store := Store(map[], map[], map[], 0, 0);
    }

    /**
     * insert(uri, initialValues) at time now; a null bag counts as empty.
     * The answer is the new row's path, or None where MyProvider answers null.
     */
    method Insert(uri: Path, initialValues: Option<Row>, now: int) returns (newUri: Option<Path>)
      requires Valid()
      modifies this
      ensures Valid()
      ensures (store, newUri) == InsertSpec(prefs, old(store), uri, if initialValues.Some? then initialValues.value else map[], now)
    {
      var values := new ContentValues(if initialValues.Some? then initialValues.value else map[]);
      var code := Match(uri);
      if code == Some(Timeline) {
        var userId := ParseLong(uri[1]);
        if userId.None? {
          return None;
        }
        if AUTHOR_ID !in values.entries {
          if SENDER_ID !in values.entries || values.entries[SENDER_ID].Null? {
            return None;
          }
          values.Put(AUTHOR_ID, Text(ValueText(values.entries[SENDER_ID]).value));
        }
        if BODY !in values.entries {
          values.Put(BODY, Text(""));
        }
        if VIA !in values.entries {
          values.Put(VIA, Text(""));
        }
        values.Put(MSG_INS_DATE, Num(now));
        var msgOfUserValues := PrepareMsgOfUserValues(prefs, values, userId.value);
        if msgOfUserValues.Err? {
          return None;
        }
        var ins := InsertRow(store.msgs, store.lastMsgId, values.entries);
        store := store.(msgs := ins.rows, lastMsgId := ins.last);
        if ins.rowId == -1 {
          return None;
        }
        if msgOfUserValues.value != null {
          msgOfUserValues.value.Put(MSG_ID, Num(ins.rowId));
          var inserted := InsertFlags(store.flags, msgOfUserValues.value.entries);
          store := store.(flags := inserted.0);
          if !inserted.1 {
            return None;
          }
        }
        newUri := Some(TimelineMsgUri(userId.value, ins.rowId, true));
      } else if code == Some(Users) {
        values.Put(USER_INS_DATE, Num(now));
        var ins := InsertRow(store.users, store.lastUserId, values.entries);
        store := store.(users := ins.rows, lastUserId := ins.last);
        newUri := if ins.rowId == -1 then None else Some(UserUri(ins.rowId));
      } else {
        newUri := None;
      }
    }

    /**
     * update(uri, values, selection, selectionArgs): the count of message
     * or user rows changed, or the exception; on a message path the flag
     * columns leave the caller's bag, even when the update of the message
     * table then throws on the empty bag.
     */
    method Update(uri: Path, values: ContentValues, sel: Selection) returns (r: Result<nat, Error>)
      requires Valid()
      modifies this, values
      ensures Valid()
      ensures match UpdateSpec(prefs, old(store), uri, old(values.entries), sel)
        case Err(e) => r == Err(e) && store == old(store)
                       && values.entries == if e == IllegalArgument then map[] else old(values.entries)
        case Ok(u) => r == Ok(u.count) && store == u.store && values.entries == u.values
    {
      var code := Match(uri);
      if code == Some(MsgTable) {
        if values.entries == map[] {
          return Err(IllegalArgument);
        }
        var u := UpdateRows(store.msgs, values.entries, Where(sel));
        store := store.(msgs := u.0);
        r := Ok(u.1);
      } else if code == Some(TimelineMsgId) {
        var userId := ParseLong(uri[1]);
        if userId.None? {
          return Err(NumberFormat);
        }
        var rowId := uri[7];
        var msgOfUserValues := PrepareMsgOfUserValues(prefs, values, userId.value);
        if msgOfUserValues.Err? {
          return Err(msgOfUserValues.error);
        }
        if values.entries == map[] {
          return Err(IllegalArgument);
        }
        var u := UpdateRows(store.msgs, values.entries, KeyWhere(ParseLong(rowId), sel));
        store := store.(msgs := u.0);
        if msgOfUserValues.value != null {
          var f := msgOfUserValues.value;
          var id := ParseLong(rowId);
          if id.Some? && FlagKey(id.value, userId.value) in store.flags {
            var key := FlagKey(id.value, userId.value);
            store := store.(flags := store.flags[key := store.flags[key] + (f.entries - {MSG_ID, USER_ID})]);
          } else {
            f.Put(MSG_ID, Text(rowId));
            var inserted := InsertFlags(store.flags, f.entries);
            store := store.(flags := inserted.0);
          }
        }
        r := Ok(u.1);
      } else if code == Some(Users) {
        if values.entries == map[] {
          return Err(IllegalArgument);
        }
        var u := UpdateRows(store.users, values.entries, Where(sel));
        store := store.(users := u.0);
        r := Ok(u.1);
      } else if code == Some(UserId) {
        if values.entries == map[] {
          return Err(IllegalArgument);
        }
        var u := UpdateRows(store.users, values.entries, KeyWhere(ParseLong(uri[1]), sel));
        store := store.(users := u.0);
        r := Ok(u.1);
      } else {
        r := Err(UnknownUri);
      }
    }

    /**
     * delete(uri, selection, selectionArgs): on the message path the flags
     * rows the EXISTS statement matches go first, then the messages; an
     * empty selection rolls both back.
     */
    method Delete(uri: Path, sel: Selection) returns (r: Result<nat, Error>)
      requires Valid()
      modifies this
      ensures Valid()
      ensures match DeleteSpec(old(store), uri, sel)
        case Err(e) => r == Err(e) && store == old(store)
        case Ok(d) => r == Ok(d.1) && store == d.0
    {
      var code := Match(uri);
      if code == Some(MsgTable) {
        if sel.Sql? && sel.text == "" {
          // "AND ()" fails to parse: the transaction is rolled back and the count stays 0
          return Ok(0);
        }
        var msgs := store.msgs;
        store := store.(flags := map k | k in store.flags && !(sel.Sql? && k.msgId in msgs && sel.holds(k.msgId, msgs[k.msgId])) :: store.flags[k]);
        var d := DeleteRows(store.msgs, Where(sel));
        store := store.(msgs := d.0);
        r := Ok(d.1);
      } else if code == Some(Users) {
        var d := DeleteRows(store.users, Where(sel));
        store := store.(users := d.0);
        r := Ok(d.1);
      } else if code == Some(UserId) {
        var d := DeleteRows(store.users, KeyWhere(ParseLong(uri[1]), sel));
        store := store.(users := d.0);
        r := Ok(d.1);
      } else {
        r := Err(UnknownUri);
      }
    }
  }
}
