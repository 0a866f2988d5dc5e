/**
 * The read side of MyProvider: the join tablesForTimeline builds for the
 * three timeline paths, what that join yields over a store, and how query
 * composes the selection, its arguments and the sort order for each kind
 * of path. The result is the plan handed to SQLiteQueryBuilder / rawQuery;
 * running it and the cursor are left to SQLite.
 */
module Query {
  import opened Wrappers
  import opened Decimal
  import opened Schema
  import opened Paths

  /** How the message table is joined to the flags table. */
  datatype FlagsJoin =
    | LeftOuter               // msg LEFT OUTER JOIN msgofuser ON msg._id = msgofuser.msg_id
    | InnerOfUser(userId: int) // msg INNER JOIN msgofuser ON ... AND msgofuser.user_id = userId

  /** LEFT OUTER JOIN (SELECT _id, username AS nameColumn FROM user) AS alias ON msg.onColumn = alias._id */
  datatype NameJoin = NameJoin(alias: string, nameColumn: string, onColumn: string)

  const NAME_JOINS: seq<NameJoin> := [
    NameJoin("author", AUTHOR_NAME, AUTHOR_ID),
    NameJoin("sender", SENDER_NAME, SENDER_ID),
    NameJoin("prevauthor", IN_REPLY_TO_NAME, IN_REPLY_TO_USER_ID),
    NameJoin("recipient", RECIPIENT_NAME, RECIPIENT_ID)
  ]

  /** What SQLiteQueryBuilder.setTables receives: the timeline join, or the user table. */
  datatype Tables = TimelineTables(flags: FlagsJoin, names: seq<NameJoin>) | UserTable

  /** tablesForTimeline(uri, projection); the projection does not influence the join. */
  function TablesForTimeline(p: Path): (t: Tables)
    ensures t.TimelineTables? && t.names == NAME_JOINS
  {
    var userId := UriToUserId(p);
    var isCombined := UriToIsCombined(p);
    if isCombined || userId == 0 then TimelineTables(LeftOuter, NAME_JOINS)
    else TimelineTables(InnerOfUser(userId), NAME_JOINS)
  }

  /**
   * On a timeline path the flags table is outer-joined exactly when the
   * path is combined or its account id is 0; otherwise the join is inner
   * and restricted to that account.
   */
  lemma TimelineJoinOfPath(userId: int, timelineType: TimelineType, isCombined: bool)
    requires 0 <= userId <= LONG_MAX
    ensures var t := TablesForTimeline(TimelineUri(userId, timelineType, isCombined));
      (t.flags == LeftOuter <==> isCombined || userId == 0)
      && (!isCombined && userId != 0 ==> t.flags == InnerOfUser(userId))
      && t.names == NAME_JOINS
  {
    TimelineUriRoundTrip(userId, timelineType, isCombined);
  }

  /** The same rule on any path, read through uriToUserId and uriToIsCombined. */
  lemma JoinRule(p: Path)
    ensures TablesForTimeline(p).flags.LeftOuter? <==> UriToIsCombined(p) || UriToUserId(p) == 0
    ensures TablesForTimeline(p).flags.InnerOfUser? ==> TablesForTimeline(p).flags.userId == UriToUserId(p) != 0
  {
  }

  // ---------------------------------------------------------------------
  // What the flags join yields

  predicate HasFlags(s: Store, msgId: int) {
    exists k :: k in s.flags && k.msgId == msgId
  }

  /**
   * The (message id, flags-row account) pairs the join produces over a
   * store; None marks a message without any flags row in the outer join.
   */
  ghost function JoinedRows(s: Store, j: FlagsJoin): set<(int, Option<int>)> {
    match j
    case LeftOuter =>
      (set k | k in s.flags && k.msgId in s.msgs :: (k.msgId, Some(k.userId)))
      + (set m | m in s.msgs && !HasFlags(s, m) :: (m, None))
    case InnerOfUser(u) =>
      set m | m in s.msgs && FlagKey(m, u) in s.flags :: (m, Some(u))
  }

  ghost function MessagesOf(rows: set<(int, Option<int>)>): set<int> {
    set r | r in rows :: r.0
  }

  /** The messages an account has a flags row for. */
  ghost function AccountMessages(s: Store, u: int): set<int> {
    set m | m in s.msgs && FlagKey(m, u) in s.flags
  }

  /** The outer join (combined timeline, or account 0) shows every message. */
  lemma OuterJoinShowsEveryMessage(s: Store)
    ensures MessagesOf(JoinedRows(s, LeftOuter)) == s.msgs.Keys
  {
    var rows := JoinedRows(s, LeftOuter);
    forall m | m in s.msgs
      ensures m in MessagesOf(rows)
    {
      if HasFlags(s, m) {
        var k :| k in s.flags && k.msgId == m;
        assert (k.msgId, Some(k.userId)) in rows;
      } else {
        assert (m, None) in rows;
      }
    }
  }

  /**
   * The inner join of one account shows exactly the messages that account
   * has a flags row for, one row each.
   */
  lemma InnerJoinShowsAccountMessages(s: Store, u: int)
    ensures MessagesOf(JoinedRows(s, InnerOfUser(u))) == AccountMessages(s, u)
    ensures |JoinedRows(s, InnerOfUser(u))| == |AccountMessages(s, u)|
  {
    var rows := JoinedRows(s, InnerOfUser(u));
    forall m | m in AccountMessages(s, u)
      ensures m in MessagesOf(rows)
    {
      assert (m, Some(u)) in rows;
    }
    TaggedCard(AccountMessages(s, u), u);
    assert rows == Tagged(AccountMessages(s, u), u);
  }

  ghost function Tagged(a: set<int>, u: int): set<(int, Option<int>)> {
    set m | m in a :: (m, Some(u))
  }

  lemma {:induction false} TaggedCard(a: set<int>, u: int)
    ensures |Tagged(a, u)| == |a|
  {
    if a != {} {
      NonEmptyHasElement(a);
      var m :| m in a;
      TaggedCard(a - {m}, u);
      assert Tagged(a, u) == Tagged(a - {m}, u) + {(m, Some(u))};
    }
  }

  // ---------------------------------------------------------------------
  // The search selection and its arguments

  /** The condition query puts first on a search path; the term is bound twice, never spliced in. */
  const SEARCH_CLAUSE: string := "(" + AUTHOR_NAME + " LIKE ?  OR " + BODY + " LIKE ?)"

  /** The number of '?' placeholders in SQL text. */
  function Placeholders(s: string): nat {
    if s == [] then 0 else (if s[0] == '?' then 1 else 0) + Placeholders(s[1..])
  }

  lemma {:induction false} PlaceholdersAppend(a: string, b: string)
    ensures Placeholders(a + b) == Placeholders(a) + Placeholders(b)
  {
    if a != [] {
      assert (a + b)[0] == a[0];
      assert (a + b)[1..] == a[1..] + b;
      PlaceholdersAppend(a[1..], b);
    } else {
      assert a + b == b;
    }
  }

  /** The count is the multiplicity of '?' in the text. */
  lemma {:induction false} PlaceholdersAreMarks(s: string)
    ensures Placeholders(s) == multiset(s)['?']
  {
    if s != [] {
      assert s == [s[0]] + s[1..];
      PlaceholdersAreMarks(s[1..]);
    }
  }

  lemma SearchClauseMarks()
    ensures Placeholders(SEARCH_CLAUSE) == 2
  {
    assert Placeholders(AUTHOR_NAME) == 0 by { }
    assert Placeholders(BODY) == 0 by { }
    LikeClauseMarks(AUTHOR_NAME, BODY);
  }

  lemma LikeClauseMarks(left: string, right: string)
    requires Placeholders(left) == 0 && Placeholders(right) == 0
    ensures Placeholders("(" + left + " LIKE ?  OR " + right + " LIKE ?)") == 2
  {
    LiteralMarks();
    PlaceholdersAppend5("(", left, " LIKE ?  OR ", right, " LIKE ?)");
  }

  /** The placeholders in the literal pieces the search selection is made of. */
  lemma LiteralMarks()
    ensures Placeholders("(") == 0 && Placeholders(")") == 0 && Placeholders(" AND (") == 0
    ensures Placeholders(" LIKE ?  OR ") == 1 && Placeholders(" LIKE ?)") == 1
  {
    NoMarks("(");
    NoMarks(")");
    NoMarks(" AND (");
    LikeOrMarks();
    LikeCloseMarks();
  }

  lemma LikeOrMarks()
    ensures Placeholders(" LIKE ?  OR ") == 1
  {
    NoMarks(" LIKE ");
    NoMarks("  OR ");
    OneMark(" LIKE ", "  OR ");
    assert " LIKE " + "?" + "  OR " == " LIKE ?  OR ";
  }

  lemma LikeCloseMarks()
    ensures Placeholders(" LIKE ?)") == 1
  {
    NoMarks(" LIKE ");
    NoMarks(")");
    OneMark(" LIKE ", ")");
    assert " LIKE " + "?" + ")" == " LIKE ?)";
  }

  /** Text without a question mark holds no placeholder. */
  lemma {:induction false} NoMarks(s: string)
    requires forall i :: 0 <= i < |s| ==> s[i] != '?'
    ensures Placeholders(s) == 0
  {
    if s != [] {
      NoMarks(s[1..]);
    }
  }

  /** Text without a question mark around one question mark holds one placeholder. */
  lemma OneMark(a: string, b: string)
    requires Placeholders(a) == 0 && Placeholders(b) == 0
    ensures Placeholders(a + "?" + b) == 1
  {
    PlaceholdersAppend(a, "?");
    PlaceholdersAppend(a + "?", b);
  }

  lemma PlaceholdersAppend5(a: string, b: string, c: string, d: string, e: string)
    ensures Placeholders(a + b + c + d + e)
      == Placeholders(a) + Placeholders(b) + Placeholders(c) + Placeholders(d) + Placeholders(e)
  {
    PlaceholdersAppend(a, b);
    PlaceholdersAppend(a + b, c);
    PlaceholdersAppend(a + b + c, d);
    PlaceholdersAppend(a + b + c + d, e);
  }

  function NonEmpty(selection: Option<string>): bool {
    selection.Some? && |selection.value| > 0
  }

  /** The selection of a search: the LIKE clause, then " AND (selection)" when the caller gave one. */
  function SearchSelection(selection: Option<string>): string {
    SEARCH_CLAUSE + (if NonEmpty(selection) then " AND (" + selection.value + ")" else "")
  }

  /** addBeforeArray: a fresh array one longer, s first, then the old elements; null counts as empty. */
  function AddBeforeArray(arr: Option<seq<string>>, s: string): (r: seq<string>)
    ensures |r| == |ArgsOf(arr)| + 1
    ensures r[0] == s && r[1..] == ArgsOf(arr)
  {
    [s] + ArgsOf(arr)
  }

  function ArgsOf(arr: Option<seq<string>>): seq<string> {
    if arr.Some? then arr.value else []
  }

  function Wildcard(term: string): string {
    "%" + term + "%"
  }

  /**
   * The search clause holds two placeholders ahead of everything the caller
   * wrote, and two copies of the wildcarded term go ahead of the caller's
   * arguments, so each caller argument still binds the placeholder it was
   * written for.
   */
  lemma SearchKeepsArgumentsAligned(selection: Option<string>, args: Option<seq<string>>, term: string)
    requires Placeholders(if NonEmpty(selection) then selection.value else "") == |ArgsOf(args)|
    ensures var newArgs := AddBeforeArray(Some(AddBeforeArray(args, Wildcard(term))), Wildcard(term));
      Placeholders(SearchSelection(selection)) == |newArgs|
      && newArgs == [Wildcard(term), Wildcard(term)] + ArgsOf(args)
      && Placeholders(SEARCH_CLAUSE) == 2
  {
    SearchClauseMarks();
    if NonEmpty(selection) {
      PlaceholdersAppend(SEARCH_CLAUSE, " AND (" + selection.value + ")");
      WrappedSelectionMarks(selection.value);
    } else {
      assert SearchSelection(selection) == SEARCH_CLAUSE;
    }
  }

  /** Wrapping the caller's selection in " AND (...)" adds no placeholder. */
  lemma WrappedSelectionMarks(selection: string)
    ensures Placeholders(" AND (" + selection + ")") == Placeholders(selection)
  {
    PlaceholdersAppend(" AND (" + selection, ")");
    PlaceholdersAppend(" AND (", selection);
    LiteralMarks();
  }

  // ---------------------------------------------------------------------
  // The query plan

  /** A restriction SQLiteQueryBuilder.appendWhere adds. */
  datatype Restriction =
    | Unrestricted
    | MsgIdIs(msgId: int)       // msg._id = uriToMessageId(uri)
    | UserIdIs(segment: string) // _id = segment 1, spliced as text

  datatype Order = CallerOrder(sortOrder: string) | MsgDefault | UserDefault | Unordered

  datatype Plan =
    | Built(tables: Tables, restriction: Restriction, projection: Option<seq<string>>,
            selection: Option<string>, args: Option<seq<string>>, orderBy: Order)
    | CountMessages(where: Option<string>, args: Option<seq<string>>) // SELECT count(*) FROM msg [WHERE selection]

  /** The default sort order as query writes it: none for a search path, which then throws. */
  function DefaultOrderAsWritten(code: Code): (r: Option<Order>)
    ensures r.None? <==> code in {MsgTable, TimelineSearch}
    ensures code in {Timeline, TimelineMsgId} ==> r == Some(MsgDefault)
    ensures code in {Users, UserId} ==> r == Some(UserDefault)
  {
    match code
    case Timeline | TimelineMsgId => Some(MsgDefault)
    case MsgCount => Some(Unordered)
    case Users | UserId => Some(UserDefault)
    case _ => None
  }

  /** The default sort order with the search path given the message order, like the other timeline paths. */
  function DefaultOrder(code: Code): (r: Option<Order>)
    ensures code != MsgTable ==> r.Some?
    ensures code in {Timeline, TimelineMsgId, TimelineSearch} ==> r == Some(MsgDefault)
    ensures code != TimelineSearch ==> r == DefaultOrderAsWritten(code)
  {
    match code
    case Timeline | TimelineMsgId | TimelineSearch => Some(MsgDefault)
    case MsgCount => Some(Unordered)
    case Users | UserId => Some(UserDefault)
    case MsgTable => None
  }

  function SortEmpty(sortOrder: Option<string>): bool {
    sortOrder.None? || sortOrder.value == ""
  }

  /** The plan of query(uri, projection, selection, selectionArgs, sortOrder), with the given default orders. */
  function QueryPlanWith(defaults: Code -> Option<Order>, uri: Path, projection: Option<seq<string>>,
                         selection: Option<string>, selectionArgs: Option<seq<string>>,
                         sortOrder: Option<string>): Result<Plan, Error>
  {
    match Match(uri)
    case None => Err(UnknownUri)
    case Some(code) =>
      if code == MsgTable then Err(UnknownUri)
      else
        var order := if SortEmpty(sortOrder) then defaults(code) else Some(CallerOrder(sortOrder.value));
        if order.None? then Err(UnknownUri)
        else if code == MsgCount then
          Ok(CountMessages(if NonEmpty(selection) then selection else None, selectionArgs))
        else if code == Users then
          Ok(Built(UserTable, Unrestricted, projection, selection, selectionArgs, order.value))
        else if code == UserId then
          Ok(Built(UserTable, UserIdIs(uri[1]), projection, selection, selectionArgs, order.value))
        else if code == TimelineMsgId then
          Ok(Built(TablesForTimeline(uri), MsgIdIs(UriToMessageId(uri)), projection, selection, selectionArgs, order.value))
        else if code == TimelineSearch then
          var w := Wildcard(uri[|uri| - 1]);
          Ok(Built(TablesForTimeline(uri), Unrestricted, projection, Some(SearchSelection(selection)),
                   Some(AddBeforeArray(Some(AddBeforeArray(selectionArgs, w)), w)), order.value))
        else
          Ok(Built(TablesForTimeline(uri), Unrestricted, projection, selection, selectionArgs, order.value))
  }

  /**
   * The plan as query writes it: unknown and bare message paths are
   * refused, and so is a search path without a sort order.
   */
  function QueryPlanAsWritten(uri: Path, projection: Option<seq<string>>, selection: Option<string>,
                              selectionArgs: Option<seq<string>>, sortOrder: Option<string>): (r: Result<Plan, Error>)
    ensures r.Err? ==> r == Err(UnknownUri)
    ensures r.Ok? <==> Match(uri).Some? && Match(uri) != Some(MsgTable)
                       && !(Match(uri) == Some(TimelineSearch) && SortEmpty(sortOrder))
  {
    QueryPlanWith(DefaultOrderAsWritten, uri, projection, selection, selectionArgs, sortOrder)
  }

  /**
   * The plan as intended: a search path without a sort order gets the
   * message order; every other call is planned as written.
   */
  function QueryPlan(uri: Path, projection: Option<seq<string>>, selection: Option<string>,
                     selectionArgs: Option<seq<string>>, sortOrder: Option<string>): (r: Result<Plan, Error>)
    ensures r.Err? ==> r == Err(UnknownUri)
    ensures r.Ok? <==> Match(uri).Some? && Match(uri) != Some(MsgTable)
    ensures !(Match(uri) == Some(TimelineSearch) && SortEmpty(sortOrder))
            ==> r == QueryPlanAsWritten(uri, projection, selection, selectionArgs, sortOrder)
  {
    QueryPlanWith(DefaultOrder, uri, projection, selection, selectionArgs, sortOrder)
  }

  /**
   * query: classify the path, choose the tables, then on a search path
   * rewrite the selection and prepend the two wildcarded terms to the
   * arguments, then pick the sort order, throwing on a search path the
   * caller gave none.
   */
  method Query(uri: Path, projection: Option<seq<string>>, selection: Option<string>,
               selectionArgs: Option<seq<string>>, sortOrder: Option<string>)
    returns (r: Result<Plan, Error>)
    ensures r == QueryPlanAsWritten(uri, projection, selection, selectionArgs, sortOrder)
  {
    var sel := selection;
    var args := selectionArgs;
    var tables := UserTable;
    var restriction := Unrestricted;
    var code := Match(uri);
    if code.None? || code.value == MsgTable {
      return Err(UnknownUri);
    }
    match code.value {
      case Timeline =>
        tables := TablesForTimeline(uri);
      case MsgCount =>
      case TimelineMsgId =>
        tables := TablesForTimeline(uri);
        restriction := MsgIdIs(UriToMessageId(uri));
      case TimelineSearch =>
        tables := TablesForTimeline(uri);
        var s1 := uri[|uri| - 1];
        if sel.Some? && |sel.value| > 0 {
          sel := Some(" AND (" + sel.value + ")");
        } else {
          sel := Some("");
        }
        sel := Some(SEARCH_CLAUSE + sel.value);
        args := Some(AddBeforeArray(args, "%" + s1 + "%"));
        args := Some(AddBeforeArray(args, "%" + s1 + "%"));
      case Users =>
      case UserId =>
        restriction := UserIdIs(uri[1]);
    }
    var orderBy: Order;
    if sortOrder.None? || sortOrder.value == "" {
      var d := DefaultOrderAsWritten(code.value);
      if d.None? {
        return Err(UnknownUri);
      }
      orderBy := d.value;
    } else {
      orderBy := CallerOrder(sortOrder.value);
    }
    if code.value == MsgCount {
      var where := if sel.Some? && |sel.value| > 0 then sel else None;
      r := Ok(CountMessages(where, args));
    } else {
      r := Ok(Built(tables, restriction, projection, sel, args, orderBy));
    }
  }

  /**
   * On a search path the plan uses the timeline join, the search selection
   * and the caller's arguments behind two copies of "%term%", where the
   * term is the last segment of the path; as written there is a plan only
   * when the caller gives a sort order, as intended the message order
   * stands in for a missing one.
   */
  lemma SearchPlan(uri: Path, projection: Option<seq<string>>, selection: Option<string>,
                   selectionArgs: Option<seq<string>>, sortOrder: Option<string>)
    requires Match(uri) == Some(TimelineSearch)
    ensures |uri| == 8
    ensures var w := Wildcard(uri[7]);
      QueryPlanAsWritten(uri, projection, selection, selectionArgs, sortOrder)
      == if SortEmpty(sortOrder) then Err(UnknownUri)
         else Ok(Built(TablesForTimeline(uri), Unrestricted, projection, Some(SearchSelection(selection)),
                       Some([w, w] + ArgsOf(selectionArgs)), CallerOrder(sortOrder.value)))
    ensures var w := Wildcard(uri[7]);
      QueryPlan(uri, projection, selection, selectionArgs, sortOrder)
      == Ok(Built(TablesForTimeline(uri), Unrestricted, projection, Some(SearchSelection(selection)),
                  Some([w, w] + ArgsOf(selectionArgs)),
                  if SortEmpty(sortOrder) then MsgDefault else CallerOrder(sortOrder.value)))
  {
    var w := Wildcard(uri[7]);
    assert [w] + ([w] + ArgsOf(selectionArgs)) == [w, w] + ArgsOf(selectionArgs);
  }

  /** A path the matcher does not know, and the bare message path, are refused. */
  lemma QueryRefuses(uri: Path, projection: Option<seq<string>>, selection: Option<string>,
                     selectionArgs: Option<seq<string>>, sortOrder: Option<string>)
    requires Match(uri).None? || Match(uri) == Some(MsgTable)
    ensures QueryPlanAsWritten(uri, projection, selection, selectionArgs, sortOrder) == Err(UnknownUri)
    ensures QueryPlan(uri, projection, selection, selectionArgs, sortOrder) == Err(UnknownUri)
  {
  }

  /** Every other path gets a plan, whatever the sort order. */
  lemma QueryAccepts(uri: Path, projection: Option<seq<string>>, selection: Option<string>,
                     selectionArgs: Option<seq<string>>, sortOrder: Option<string>)
    requires Match(uri).Some? && Match(uri) != Some(MsgTable)
    ensures QueryPlan(uri, projection, selection, selectionArgs, sortOrder).Ok?
  {
  }

  /** A timeline-with-message path restricts the plan to the message its path names. */
  lemma MessagePlan(userId: int, msgId: int, isCombined: bool, projection: Option<seq<string>>,
                    selection: Option<string>, selectionArgs: Option<seq<string>>)
    requires 0 <= userId <= LONG_MAX && 0 <= msgId <= LONG_MAX
    ensures var r := QueryPlan(TimelineMsgUri(userId, msgId, isCombined), projection, selection, selectionArgs, None);
      r.Ok? && r.value.Built? && r.value.restriction == MsgIdIs(msgId) && r.value.orderBy == MsgDefault
  {
    TimelineMsgUriRoundTrip(userId, msgId, isCombined);
  }

  /**
   * As written, a search path queried without a sort order reaches the
   * default branch of the sort-order switch and throws, although the same
   * path with a sort order is served.
   */
  lemma SearchWithoutSortOrderThrowsAsWritten()
    ensures var uri := TimelineSearchUri(1, Home, false, "x");
      QueryPlanAsWritten(uri, None, None, None, None) == Err(UnknownUri)
      && QueryPlanAsWritten(uri, None, None, None, Some("body")).Ok?
      && QueryPlan(uri, None, None, None, None).Ok?
  {
    TimelineSearchUriRoundTrip(1, Home, false, "x");
  }
}
