# AndStatus content provider and conversation order, in Dafny

This project models the data-access core of the AndStatus client.

`MyProvider` is an Android content provider over three SQLite tables:
- messages;
- users;
- per-account message flags ("msgofuser"), keyed by (message id, account user id).

The model covers these parts of it:
- **Routing.** It decodes request paths with a matcher of seven patterns: timeline, timeline message, timeline search, message table, message count, users, and one user. It also builds and decodes timeline paths.
- **Queries.** It plans each query: which joins to use, the search clause and its arguments, and the default sort order.
- **Writes.** Insert, update and delete split a message's fields between the message row and the account's flags row.
- **Lookups.** It models the single-value reads: oid to id and back, message to user name, and the long value of a column.

`ConversationOneMessage` is one row of the conversation view. The model covers its identity (`equals`/`hashCode`) and its display order (`compareTo`).

Modules:
- `wrappers.dfy`: `Option` and `Result`.
- `decimal.dfy`: the decimal text of a Java long, written by `Long.toString` and read by `Long.parseLong`.
- `schema.dfy`:
  - tables and columns, and ContentValues bags;
  - the store, with its AUTOINCREMENT counters and the flags key;
  - what SQLite does for insert, update and delete.
- `paths.dfy`: the URI matcher and the path builders and decoders.
- `query.dfy`:
  - timeline joins;
  - the search clause and its arguments;
  - the default sort order;
  - the query plan and a `Query` method proved against it.
- `writes.dfy`:
  - a `ContentValues` class;
  - `moveBooleanKey`/`moveStringKey` as methods on it;
  - `prepareMsgOfUserValues` as a method that mutates the bag, proved against a fold over the flag columns;
  - insert, update and delete as functions of the store.
- `provider.dfy`: the `Provider` class. It holds the store, and its `Insert`, `Update` and `Delete` methods are proved against the write functions.
- `lookups.dfy`: the lookups as functions of the store.
- `conversation.dfy`: the row, Java `int`/`long` arithmetic, `Long.hashCode`, and the order with its properties.

Collaborators that are not part of this model come in as parameters:
- `MyPreferences.isTrue` and `MyPreferences.isEmpty` come in as the `Preferences` record.
- The clock comes in as `now`.
- The SQL meaning of a caller's selection comes in as a predicate beside its text.

MyDatabase is not part of this model. The table names, column names and timeline-type tokens stand for its constants. Only their distinctness matters.

Where the code does something a caller may not expect, the model follows the code:
- Insert runs without a transaction. When the flags row cannot be inserted (its key is taken), the message row stays. `Writes.InsertKeepsMessageWhenFlagsClash` exhibits this.
- The update on a timeline message path is not atomic either. The flags insert there fails silently when its key cannot be formed.
- Deleting messages with a null selection removes every message but leaves their flags rows behind, although the comment at `MyProvider.java:162` says the delete removes "all related records" of the flags table for these messages. See Findings.
- Deleting messages with an empty selection is an SQL syntax error. The transaction is rolled back and the answer is 0. See Findings.
- A search query without a sort order throws. See Findings.
- An update whose bag is empty by the time it reaches `SQLiteDatabase.update` throws ("Empty values"). On a timeline message path the flag columns leave the bag first, so an update that only sets flags throws before the flags row is written. `Writes.FlagsOnlyUpdateThrows` exhibits this.

Each of the two deletes and the search query is modelled twice. The `...AsWritten` definitions follow the code, and `Query.Query`, `Writes.DeleteSpec` and `Provider.Provider.Delete` are proved against them. The corrected definitions (`Query.QueryPlan`, `Writes.DeleteMessages`) carry the intended properties.

## Model

| member | source | states |
|---|---|---|
| Decimal.ParseLong | src/org/andstatus/app/data/MyProvider.java:1065-1071 | Long.parseLong over ASCII digits: any parsed value is in long range, and a digit string in range parses to its decimal value |
| Decimal.ParseLongToString | src/org/andstatus/app/data/MyProvider.java:1040-1045 | the id a path builder writes as decimal text parses back to the same long |
| Decimal.LongToString | src/org/andstatus/app/data/MyProvider.java:1040-1045 | the decimal text a path builder writes for an id is never empty, and is all digits exactly when the id is not negative |
| Decimal.LongToStringInjective | src/org/andstatus/app/data/MyProvider.java:1040-1045 | different ids give different path segments |
| Schema.LoadSave | src/org/andstatus/app/data/MyProvider.java:309-313 | loading the token a timeline type saves gives that timeline type back |
| Schema.InsertRow | src/org/andstatus/app/data/MyProvider.java:274-277 | without an _id (or with a NULL one) the row gets id last + 1 and the counter moves there; with an _id that reads as a long and is free, the row is stored under that id and the counter becomes the larger of the two; with an _id that is taken or not a long, the answer is -1 and the table and counter are unchanged. An explicit free _id of -1 is stored, yet the answer is -1, which callers read as failure |
| Schema.InsertFlags | src/org/andstatus/app/data/MyProvider.java:279-286 | the flags insert succeeds exactly when msg_id and user_id are integers and their pair is new |
| Schema.UpdateRows | src/org/andstatus/app/data/MyProvider.java:639-641 | an update keeps the set of rows, merges the values into exactly the selected rows, and counts them |
| Schema.DeleteRows | src/org/andstatus/app/data/MyProvider.java:194-196 | a delete removes exactly the selected rows, keeps the others unchanged, and counts the removed ones |
| Paths.Match | src/org/andstatus/app/data/MyProvider.java:671-679 | each code is returned only for paths of its registered shape (segment count, literals, numeric segments) |
| Paths.FirstMatchSound | src/org/andstatus/app/data/MyProvider.java:671-679 | a code found by the matcher belongs to a pattern that matches the path |
| Paths.PatternsDisjoint | src/org/andstatus/app/data/MyProvider.java:671-679 | no path matches two of the seven patterns |
| Paths.MatchIsOrderFree | src/org/andstatus/app/data/MyProvider.java:671-679 | any pattern that matches a path decides its code, whatever the registration order |
| Paths.FirstMatchFinds | src/org/andstatus/app/data/MyProvider.java:671-679 | scanning any suffix of the pattern table finds the code of a matching pattern |
| Paths.TimelineUri | src/org/andstatus/app/data/MyProvider.java:1040-1045 | a timeline path has six segments |
| Paths.TimelineMsgUri | src/org/andstatus/app/data/MyProvider.java:1053-1055 | a timeline message path has eight segments |
| Paths.UriToUserId | src/org/andstatus/app/data/MyProvider.java:1065-1071 | the user id is the parsed second segment, or 0 when it is missing or not a long |
| Paths.UriToIsCombined | src/org/andstatus/app/data/MyProvider.java:1078-1090 | only timeline, search and message paths can be combined |
| Paths.UriToMessageId | src/org/andstatus/app/data/MyProvider.java:1092-1102 | the message id is 0 for every path that is not a timeline message path, and never negative |
| Paths.TimelineUriRoundTrip | src/org/andstatus/app/data/MyProvider.java:1040-1045 | a built timeline path routes to the timeline code and decodes back to its user id and combined flag |
| Paths.NegativeUserIdIsNotRouted | src/org/andstatus/app/data/MyProvider.java:1040-1045 | a timeline path built for a negative user id matches no pattern |
| Paths.TimelineMsgUriRoundTrip | src/org/andstatus/app/data/MyProvider.java:1053-1055 | a built message path routes to the message code and decodes back to its user id, message id and combined flag |
| Paths.TimelineSearchUri | src/org/andstatus/app/data/MyProvider.java:1057-1063 | a search path is the timeline path and the search segment, followed by the query text only when that text is not empty (seven or eight segments) |
| Paths.TimelineSearchUriRoundTrip | src/org/andstatus/app/data/MyProvider.java:1057-1063 | a built search path routes to the search code and keeps the query text as its last segment |
| Paths.EmptySearchIsNotRouted | src/org/andstatus/app/data/MyProvider.java:1057-1063 | a search path built with an empty query matches no pattern |
| Query.TablesForTimeline | src/org/andstatus/app/data/MyProvider.java:547-579 | a timeline always joins the four user-name tables (author, sender, in-reply-to, recipient) |
| Query.JoinRule | src/org/andstatus/app/data/MyProvider.java:547-559 | the flags join is outer exactly for combined paths or user id 0; otherwise it is inner and restricted to the path's user |
| Query.TimelineJoinOfPath | src/org/andstatus/app/data/MyProvider.java:547-559 | the join chosen for a built timeline path follows its user id and combined flag |
| Query.OuterJoinShowsEveryMessage | src/org/andstatus/app/data/MyProvider.java:552-555 | the outer join yields every stored message |
| Query.InnerJoinShowsAccountMessages | src/org/andstatus/app/data/MyProvider.java:556-559 | the inner join yields exactly the messages that have a flags row of that account, one row each |
| Query.PlaceholdersAreMarks | src/org/andstatus/app/data/MyProvider.java:439-443 | the placeholder count of a text is the number of question marks in it |
| Query.SearchClauseMarks | src/org/andstatus/app/data/MyProvider.java:439-440 | the search clause holds exactly two placeholders |
| Query.AddBeforeArray | src/org/andstatus/app/data/MyProvider.java:581-591 | the new array is the old one (none for null) with the element put first |
| Query.SearchKeepsArgumentsAligned | src/org/andstatus/app/data/MyProvider.java:433-443 | after the search rewrite, the selection has as many placeholders as there are arguments, and the two wildcard terms come first |
| Query.DefaultOrderAsWritten | src/org/andstatus/app/data/MyProvider.java:467-487 | as written, there is no default order exactly for the message-table and search codes; the timeline codes take the message order and the user codes the user order |
| Query.DefaultOrder | src/org/andstatus/app/data/MyProvider.java:467-491 | every routed query code has a default order; search uses the message order; the other codes keep the code's choice |
| Query.QueryPlanAsWritten | src/org/andstatus/app/data/MyProvider.java:393-491 | as written, the only error is the unknown-URI exception, and a plan exists exactly for a routed path other than the message table, except a search path without a sort order |
| Query.QueryPlan | src/org/andstatus/app/data/MyProvider.java:393-491 | as intended, a plan exists exactly for a routed path other than the message table; it is the plan as written everywhere except a search without a sort order |
| Query.Query | src/org/andstatus/app/data/MyProvider.java:393-491 | the method computes the plan as written: the tables, the restriction, the selection, the arguments and the order, and the exception for an unknown path or a search without a sort order |
| Query.SearchPlan | src/org/andstatus/app/data/MyProvider.java:419-491 | a search path has eight segments; its plan wraps the caller's selection in the search clause and puts the wildcard term before the caller's arguments, twice; as written it needs the caller's sort order, as intended the message order stands in |
| Query.QueryRefuses | src/org/andstatus/app/data/MyProvider.java:460-464 | an unmatched path and the message-table path are rejected as unknown, as written and as intended |
| Query.QueryAccepts | src/org/andstatus/app/data/MyProvider.java:400-491 | every other routed path yields a plan |
| Query.MessagePlan | src/org/andstatus/app/data/MyProvider.java:413-417 | a message path's plan restricts the message id to the one in the path and uses the message order by default |
| Query.SearchWithoutSortOrderThrowsAsWritten | src/org/andstatus/app/data/MyProvider.java:467-487 | as written, a search without a sort order throws |
| Writes.MoveBoolean | src/org/andstatus/app/data/MyProvider.java:349-361 | the return code is 2 exactly when the key is absent, and otherwise the flag the preferences give for the value; the key leaves the input bag; the output bag gets the flag when it exists |
| Writes.MoveString | src/org/andstatus/app/data/MyProvider.java:370-383 | the return code is 2 exactly when the key is absent, and otherwise 0 for an empty string and 1 for a non-empty one; the key leaves the input bag; the output bag gets the string when it exists |
| Writes.MoveBooleanKey | src/org/andstatus/app/data/MyProvider.java:349-361 | the method leaves the bags and the return code as the function says, including a null output bag and the same bag passed twice |
| Writes.MoveStringKey | src/org/andstatus/app/data/MyProvider.java:370-383 | the same for the string move |
| Writes.MoveEach | src/org/andstatus/app/data/MyProvider.java:331-338 | moving a list of keys removes exactly those keys from the input bag and keeps the output bag present or absent |
| Writes.PrepareMsgOfUser | src/org/andstatus/app/data/MyProvider.java:307-340 | the only error is the null-pointer exception; the message keeps every column but the timeline type and, when a flags bag is made, the flag columns |
| Writes.PrepareMsgOfUserCases | src/org/andstatus/app/data/MyProvider.java:307-340 | preparing fails only on a null timeline type; a flags bag is made exactly for a non-zero account and a known timeline type; the timeline type always leaves the values |
| Writes.PrepareMsgOfUserSplits | src/org/andstatus/app/data/MyProvider.java:325-338 | with a flags bag, the flag columns move out of the values and into the bag, which also holds the account's user id and the message id when one was given |
| Writes.MoveFlagColumns | src/org/andstatus/app/data/MyProvider.java:331-338 | the seven calls in order leave the two bags as the fold says |
| Writes.PrepareMsgOfUserValues | src/org/andstatus/app/data/MyProvider.java:307-340 | the method mutates the values and returns a fresh flags bag, as the function says |
| Writes.MessageDefaults | src/org/andstatus/app/data/MyProvider.java:245-253 | the author defaults to the sender's text, and the defaulting fails only when both are missing; body and via default to empty; the insert date is set |
| Writes.UserUriRoundTrip | src/org/andstatus/app/data/MyProvider.java:288-292 | the path returned for a new user routes to the one-user code and carries its id |
| Writes.InsertMessage | src/org/andstatus/app/data/MyProvider.java:244-291 | inserting a message keeps the store valid and does not touch users |
| Writes.InsertSpec | src/org/andstatus/app/data/MyProvider.java:219-298 | insert keeps the store valid; any path but timeline and users returns null with the store unchanged; a timeline path with an account id that is not a long returns null, otherwise it is the message insert for that account; a user insert stores the values stamped with the insert date as a new user row, leaves messages and flags unchanged, and returns the new user's path, or null when the row insert fails |
| Writes.TimelineInsertRoutes | src/org/andstatus/app/data/MyProvider.java:219-246 | an insert on a timeline path built for a non-negative account id is the message insert for that account |
| Writes.InsertMessageStores | src/org/andstatus/app/data/MyProvider.java:274-286 | a message row is stored whenever its insert succeeds; the result is non-null exactly when the flags row (if any) is new too; then it is the message's timeline path and the flags row is stored |
| Writes.InsertWithoutAccountKeepsFlags | src/org/andstatus/app/data/MyProvider.java:279-286 | without an account, insert writes no flags row |
| Writes.InsertKeepsMessageWhenFlagsClash | src/org/andstatus/app/data/MyProvider.java:274-286 | when the flags key is taken, the message insert returns null but the message row stays |
| Writes.UpdateSpec | src/org/andstatus/app/data/MyProvider.java:601-657 | update keeps the store valid and the sets of messages and users; unknown paths throw; an empty bag reaching the table update throws, so a successful update always had values; paths other than a timeline message leave flags and values untouched |
| Writes.KeyWhereHitsOne | src/org/andstatus/app/data/MyProvider.java:614-616 | a condition on the key selects at most that one row |
| Writes.UpdateMessageUpserts | src/org/andstatus/app/data/MyProvider.java:611-637 | a timeline-message update that leaves message columns to update changes at most the one message; other messages and other flags rows stay; the account's flags row exists afterwards and holds the moved columns |
| Writes.FlagsOnlyUpdateThrows | src/org/andstatus/app/data/MyProvider.java:611-617 | a timeline-message update for an account whose bag holds only the timeline type and flag columns throws on the empty message bag, so no flags row is written |
| Writes.UpdateOnMessagePath | src/org/andstatus/app/data/MyProvider.java:611-617 | the message update uses the values left after the flag columns are moved out |
| Writes.UpsertFlags | src/org/andstatus/app/data/MyProvider.java:619-636 | the flags upsert removes no row; with a message id that is not a long it changes nothing; it changes only the row of that message and account, and can add only the row its bag names |
| Writes.UpsertFlagsKeepsOthers | src/org/andstatus/app/data/MyProvider.java:620-636 | the flags upsert writes only the (message, account) row |
| Writes.DeleteMessagesAsWritten | src/org/andstatus/app/data/MyProvider.java:159-192 | as written: an empty selection changes nothing and answers 0; otherwise exactly the selected messages go (every message for a null selection), unchanged survivors stay, and the count is theirs; a null selection keeps every flags row, a real selection removes exactly the flags rows of the deleted messages |
| Writes.DeleteMessages | src/org/andstatus/app/data/MyProvider.java:159-192 | as intended: deleting messages removes exactly the selected messages (all of them for a null or empty selection) and every flags row of theirs, and counts the messages |
| Writes.DeleteMessagesLeavesNoOrphans | src/org/andstatus/app/data/MyProvider.java:159-172 | the intended delete creates no flags row without its message |
| Writes.DeleteAsWrittenAgreesOnSelection | src/org/andstatus/app/data/MyProvider.java:159-172 | for a selection that is neither null nor empty, the delete as written is the intended delete |
| Writes.DeleteWithoutSelectionOrphansFlagsAsWritten | src/org/andstatus/app/data/MyProvider.java:163-172 | as written, a delete with a null selection removes every message and keeps every flags row, so each becomes an orphan; the intended delete leaves only rows that were orphans already |
| Writes.DeleteWithEmptySelectionRollsBackAsWritten | src/org/andstatus/app/data/MyProvider.java:163-186 | as written, a delete with an empty selection answers 0 and leaves the store as it was; the intended delete removes every message, their flags rows, and counts them |
| Writes.DeleteSpec | src/org/andstatus/app/data/MyProvider.java:154-210 | delete keeps the store valid and the counters; unknown paths throw; the message path deletes as written; user deletes leave messages and flags unchanged |
| Provider.Provider.Insert | src/org/andstatus/app/data/MyProvider.java:219-298 | the provider's store and the returned path are those of the insert function |
| Provider.Provider.Update | src/org/andstatus/app/data/MyProvider.java:601-657 | the store, the caller's values bag and the count are those of the update function; an error leaves the store as it was, and the bag as it was except after the empty-values error, which leaves it empty |
| Provider.Provider.Delete | src/org/andstatus/app/data/MyProvider.java:154-210 | the store and the count are those of the delete function as written, including the rolled-back empty selection |
| Lookups.OidToId | src/org/andstatus/app/data/MyProvider.java:736-776 | an empty oid and any other path give 0; a non-zero answer is a row of that origin holding that oid, in the table the path names |
| Lookups.IdToOid | src/org/andstatus/app/data/MyProvider.java:787-839 | a non-positive id gives ""; a non-empty message or user oid is the stored oid of an existing row; a non-empty reblog oid needs the flags row of that message and account, and is either its stored reblog oid or the message's own oid |
| Lookups.MsgIdToUsername | src/org/andstatus/app/data/MyProvider.java:841-872 | message id 0, a column that holds no user id, or a missing message give "" |
| Lookups.UserIdToName | src/org/andstatus/app/data/MyProvider.java:875-897 | id 0 and a missing user give ""; otherwise the stored username (null for NULL) |
| Lookups.IdToLongColumnValue | src/org/andstatus/app/data/MyProvider.java:944-969 | the only error is an empty table or column name; a non-zero answer comes from an existing row of a keyed table |
| Lookups.MsgIdToLongColumnValue | src/org/andstatus/app/data/MyProvider.java:933-935 | the stored message value read as a long, or 0 for id 0 and a missing message |
| Lookups.UserIdToLongColumnValue | src/org/andstatus/app/data/MyProvider.java:905-907 | the stored user value read as a long, or 0 for id 0 and a missing user |
| Lookups.MsgIdToUserId | src/org/andstatus/app/data/MyProvider.java:909-925 | a column that holds no user id gives 0 |
| Lookups.MsgSentDate | src/org/andstatus/app/data/MyProvider.java:976-999 | the stored sent date of a positive, existing message id, or 0 |
| Lookups.UserNameToId | src/org/andstatus/app/data/MyProvider.java:1009-1031 | a name holding a quote gives 0; a non-zero answer is a user of that origin with that name |
| Lookups.MsgOidRoundTrip | src/org/andstatus/app/data/MyProvider.java:736-839 | a message found by its unique oid in its origin is that message, and reading its oid back gives that oid |
| Lookups.UserOidRoundTrip | src/org/andstatus/app/data/MyProvider.java:736-839 | the same for users |
| Lookups.NonNumericOidFindsNothing | src/org/andstatus/app/data/MyProvider.java:745-757 | an oid that is not a plain number finds nothing |
| Lookups.ReblogOidFallsBack | src/org/andstatus/app/data/MyProvider.java:806-833 | with no flags row the reblog oid is ""; with no reblog oid stored it is the message's oid; otherwise it is the stored reblog oid |
| Lookups.IdToOidOfNoId | src/org/andstatus/app/data/MyProvider.java:787-792 | a message id that is not positive gives "" for every kind of oid |
| Lookups.UsernameThroughUserId | src/org/andstatus/app/data/MyProvider.java:841-935 | the name behind a message's user column is the name of the user whose id that column holds |
| Lookups.UserIdIsColumnValue | src/org/andstatus/app/data/MyProvider.java:909-935 | on the user columns, the user-id lookup is the plain long-column read |
| Lookups.UserNameRoundTrip | src/org/andstatus/app/data/MyProvider.java:875-1031 | a user found by a name unique in its origin is that user, and reading the name back gives that name |
| Lookups.LongColumnReadsStoredNumber | src/org/andstatus/app/data/MyProvider.java:944-969 | a stored long is read back unchanged |
| Conversation.NewRow | src/org/andstatus/app/ConversationOneMessage.java:26-62 | a new row has the given id and reply level; every other number is 0, every text empty, and it is not a favorite |
| Conversation.Equals | src/org/andstatus/app/ConversationOneMessage.java:64-71 | equal rows hash alike, and rows that compare as 0 are equal |
| Conversation.LongHashCode | src/org/andstatus/app/ConversationOneMessage.java:73-76 | Long.hashCode of a long in [0, 2^31) is the value itself, and of a long in [-2^31, 0) its bitwise complement -v - 1 |
| Conversation.HashCode | src/org/andstatus/app/ConversationOneMessage.java:73-76 | a row's hash is that of its id: the id itself below 2^31, and -id - 1 for a small negative id |
| Conversation.EqualRowsHashAlike | src/org/andstatus/app/ConversationOneMessage.java:64-76 | equal rows have equal hash codes |
| Conversation.CompareTo | src/org/andstatus/app/ConversationOneMessage.java:78-96 | the result is zero exactly when list order, date and id agree; it is negative exactly when the row comes first (smaller list order, then newer date, then larger id) |
| Conversation.CompareToAsWritten | src/org/andstatus/app/ConversationOneMessage.java:82-96 | as written, the result is 0 exactly when list order, date and id agree, and is -1 or 1 whenever the list orders agree |
| Conversation.AsWrittenAgreesWithoutOverflow | src/org/andstatus/app/ConversationOneMessage.java:82-96 | when no subtraction overflows, the code as written has the sign of the intended comparison |
| Conversation.NonNegativeRowsAgree | src/org/andstatus/app/ConversationOneMessage.java:82-96 | for non-negative list orders, dates and ids, the code as written orders as intended |
| Conversation.AsWrittenIsNotTransitive | src/org/andstatus/app/ConversationOneMessage.java:83-92 | as written, three rows with list orders MIN_VALUE, 0 and 1 compare in a cycle |
| Conversation.CompareToZeroIsEquals | src/org/andstatus/app/ConversationOneMessage.java:64-96 | rows that compare as 0 are equal and hash alike |
| Conversation.EqualsIsCoarserThanCompareTo | src/org/andstatus/app/ConversationOneMessage.java:64-96 | equal rows need not compare as 0 |
| Conversation.CompareToAntisymmetric | src/org/andstatus/app/ConversationOneMessage.java:82-96 | swapping the rows flips the sign |
| Conversation.CompareToTransitive | src/org/andstatus/app/ConversationOneMessage.java:82-96 | the order is transitive |
| Conversation.CompareToTotal | src/org/andstatus/app/ConversationOneMessage.java:82-96 | any two rows with different keys are ordered |
| Conversation.SortedIsUnique | src/org/andstatus/app/ConversationOneMessage.java:78-96 | two strictly sorted lists of the same rows are the same list |

## Left out

- Uri encoding and the authority: a path is its list of segments. `Uri.encode` of the search text is not modelled; the search segment is the text itself.
- `getType`, the projection maps, the cursor, logging, `notifyChange` and `onCreate` are left out. They choose no rows and change no data.
- `MyPreferences.isDataAvailable` and the database connection are left out. The query is modelled as its plan (tables, restriction, selection, arguments, order), not as the rows a cursor would return. The raw SQL text that `buildQuery` assembles is also not modelled.
- Column existence is not modelled: a row may hold any column. A column a row does not hold reads as NULL, which is what the lookups return for a failing statement as well.
- SQLite type affinity is not modelled. Values are stored as given. Text read as a long is parsed as a whole decimal long, or 0; SQLite would use a numeric prefix.
- The SQL meaning of a caller's selection and its arguments comes in as a predicate. Malformed selections and the exceptions they raise are not modelled, except the message delete with a null or empty selection.
- Decimal.ParseLong: only the ASCII digits '0' to '9' are read. `Long.parseLong` also accepts other Unicode decimal digits through `Character.digit`, so a path segment such as "٣" parses to 3 in the program and is rejected here.
- Update values that set `_id` or the flags key columns do not re-key rows.
- A null `ContentValues` passed to update is not modelled.
- `User.CONTENT_URI` is taken to be the users path. MyDatabase is not part of this model.
- Lookups.OidToId: the oid is spliced into the SQL unquoted. The model matches a plain decimal oid against the stored text, and gives 0 for any other oid. A leading zero, and an oid that happens to spell a column name or other SQL, are not modelled.
- Lookups.UserNameToId: a name with a quote is modelled as a failing statement that gives 0. SQL injection through the name is not modelled.
- Lookups.OidToId and Lookups.UserNameToId: without an ORDER BY, SQLite picks which matching row comes first. The model takes the smallest id, and its contracts promise only some matching row.
- Query.Query: the method models only the plan, not the cursor, so it has no `Err` for a failing database call.
- The conversation tree walk, which sets `listOrder`, `historyOrder`, the indents and the reply counts, is not part of this model. The view and avatar fields of a row are left out.
- Concurrency and transaction isolation are left out. Each operation is one atomic step on the store, except for the partial outcomes the code leaves (insert and the timeline-message update). The message delete runs in a transaction, so its caught failure on an empty selection leaves the store unchanged.

## Findings

| source | as written | input that shows it | evidently intended | confidence | as-written member | corrected member |
|---|---|---|---|---|---|---|
| src/org/andstatus/app/data/MyProvider.java:159-172 | The flags delete puts the caller's selection into "EXISTS (... AND (selection))". A null selection becomes "AND (null)", which never holds, so no flags row is deleted, while the message delete with no selection removes every message. | A store with message 1 and a flags row for (1, 5), deleted through the message path with a null selection | The flags rows of the deleted messages are deleted with them, and no flags row is left without its message | high; not executed | Writes.DeleteWithoutSelectionOrphansFlagsAsWritten | Writes.DeleteMessagesLeavesNoOrphans |
| src/org/andstatus/app/data/MyProvider.java:163-186 | An empty selection puts "AND ()" into the flags delete. That is an SQL syntax error, which is caught after the transaction is rolled back, so nothing is deleted and the answer is 0, while an empty selection elsewhere means every row. | Any store, deleted through the message path with selection "" | An empty selection deletes every message with its flags rows, as on the user path | medium; not executed | Writes.DeleteWithEmptySelectionRollsBackAsWritten | Writes.DeleteMessages |
| src/org/andstatus/app/data/MyProvider.java:467-487 | The default sort order switch has no case for the search code, so a search query without a sort order throws IllegalArgumentException. | The search path for user 1, home timeline, not combined, query "x", with a null sort order | A search is ordered like the other timelines | medium; not executed | Query.SearchWithoutSortOrderThrowsAsWritten | Query.QueryAccepts |
| src/org/andstatus/app/ConversationOneMessage.java:83-92 | compareTo takes the sign of an int subtraction of the list orders, and of long subtractions of the dates and ids. These wrap around on overflow. | Rows with list orders -2147483648, 0 and 1 and equal dates: each compares before the next, and the last before the first | A lexicographic comparison of the three keys that is a total order | low (list orders, dates and ids are never negative in practice); not executed | Conversation.AsWrittenIsNotTransitive | Conversation.CompareToTransitive |
