/**
 * Timeline paths: the path segments of MyProvider's content URIs, how
 * getTimelineUri / getTimelineMsgUri / getTimelineSearchUri build them, how
 * the UriMatcher table classifies a path, and how uriToUserId,
 * uriToIsCombined and uriToMessageId read parameters back out of one.
 *
 * A path is its list of segments (Uri.getPathSegments); the authority is
 * left out, and a search term is one opaque segment (Uri.encode is not
 * modelled).
 */
module Paths {
  import opened Wrappers
  import opened Decimal
  import opened Schema

  type Path = seq<string>

  const TIMELINE_PATH := "timeline"
  const SEARCH_SEGMENT := "search"

  /** The codes the UriMatcher returns. */
  datatype Code = Timeline | MsgTable | MsgCount | TimelineSearch | TimelineMsgId | Users | UserId

  /** One segment of a UriMatcher pattern: literal text, `#` (a number) or `*` (any text). */
  datatype Glob = Lit(text: string) | Number | AnyText

  predicate SegmentMatches(g: Glob, segment: string) {
    match g
    case Lit(t) => segment == t
    case Number => AllDigits(segment)
    case AnyText => true
  }

  predicate PathMatches(pattern: seq<Glob>, p: Path) {
    |pattern| == |p| && forall i :: 0 <= i < |p| ==> SegmentMatches(pattern[i], p[i])
  }

  // timeline/#/tt/(any)/combined/# : user id, timeline type token, combined flag
  const TIMELINE_GLOBS: seq<Glob> :=
    [Lit(TIMELINE_PATH), Number, Lit("tt"), AnyText, Lit("combined"), Number]

  /** The seven patterns registered with the UriMatcher, with their codes. */
  const PATTERNS: seq<(seq<Glob>, Code)> := [
    (TIMELINE_GLOBS, Timeline),
    (TIMELINE_GLOBS + [Lit(MSG_TABLE_NAME), Number], TimelineMsgId),
    (TIMELINE_GLOBS + [Lit(SEARCH_SEGMENT), AnyText], TimelineSearch),
    ([Lit(MSG_TABLE_NAME)], MsgTable),
    ([Lit(MSG_TABLE_NAME), Lit("count")], MsgCount),
    ([Lit(USER_TABLE_NAME)], Users),
    ([Lit(USER_TABLE_NAME), Number], UserId)
  ]

  function FirstMatch(patterns: seq<(seq<Glob>, Code)>, p: Path): Option<Code> {
    if patterns == [] then None
    else if PathMatches(patterns[0].0, p) then Some(patterns[0].1)
    else FirstMatch(patterns[1..], p)
  }

  /** UriMatcher.match: the code of the pattern the path matches, None for NO_MATCH. */
  function Match(p: Path): (r: Option<Code>)
    ensures r == Some(Timeline) ==> |p| == 6 && PathMatches(TIMELINE_GLOBS, p)
    ensures r == Some(TimelineMsgId) ==> |p| == 8 && PathMatches(TIMELINE_GLOBS, p[..6]) && p[6] == MSG_TABLE_NAME && AllDigits(p[7])
    ensures r == Some(TimelineSearch) ==> |p| == 8 && PathMatches(TIMELINE_GLOBS, p[..6]) && p[6] == SEARCH_SEGMENT
    ensures r == Some(MsgTable) ==> p == [MSG_TABLE_NAME]
    ensures r == Some(MsgCount) ==> p == [MSG_TABLE_NAME, "count"]
    ensures r == Some(Users) ==> p == [USER_TABLE_NAME]
    ensures r == Some(UserId) ==> |p| == 2 && p[0] == USER_TABLE_NAME && AllDigits(p[1])
  {
    FirstMatchSound(PATTERNS, p);
    FirstMatch(PATTERNS, p)
  }

  lemma {:induction false} FirstMatchSound(patterns: seq<(seq<Glob>, Code)>, p: Path)
    ensures FirstMatch(patterns, p).Some? ==>
      exists i :: 0 <= i < |patterns| && PathMatches(patterns[i].0, p) && patterns[i].1 == FirstMatch(patterns, p).value
  {
    if patterns != [] && !PathMatches(patterns[0].0, p) {
      FirstMatchSound(patterns[1..], p);
      if FirstMatch(patterns[1..], p).Some? {
        var i :| 0 <= i < |patterns[1..]| && PathMatches(patterns[1..][i].0, p) && patterns[1..][i].1 == FirstMatch(patterns[1..], p).value;
        assert patterns[i + 1] == patterns[1..][i];
      }
    }
  }

  /** Two globs can both accept one segment unless they are different literals. */
  predicate Compatible(g: Glob, h: Glob) {
    !(g.Lit? && h.Lit? && g.text != h.text)
  }

  predicate Overlap(a: seq<Glob>, b: seq<Glob>) {
    |a| == |b| && forall k :: 0 <= k < |a| ==> Compatible(a[k], b[k])
  }

  lemma BothMatchOverlap(a: seq<Glob>, b: seq<Glob>, p: Path)
    requires PathMatches(a, p) && PathMatches(b, p)
    ensures Overlap(a, b)
  {
  }

  /** No path matches two of the seven patterns. */
  lemma PatternsDisjoint(i: int, j: int)
    requires 0 <= i < j < |PATTERNS|
    ensures !Overlap(PATTERNS[i].0, PATTERNS[j].0)
  {
    var a, b := PATTERNS[i].0, PATTERNS[j].0;
    if |a| == |b| {
      if |a| == 8 {
        assert !Compatible(a[6], b[6]);
      } else if |a| == 1 {
        assert !Compatible(a[0], b[0]);
      } else {
        assert |a| == 2;
        assert !Compatible(a[0], b[0]);
      }
    }
  }

  /**
   * Since the patterns are disjoint, the matcher's answer does not depend on
   * the order they were registered in: whichever pattern a path matches, its
   * code is the answer.
   */
  lemma {:induction false} MatchIsOrderFree(p: Path, i: int)
    requires 0 <= i < |PATTERNS| && PathMatches(PATTERNS[i].0, p)
    ensures Match(p) == Some(PATTERNS[i].1)
  {
    FirstMatchFinds(PATTERNS, p, i);
  }

  lemma {:induction false} FirstMatchFinds(patterns: seq<(seq<Glob>, Code)>, p: Path, i: int)
    requires 0 <= i < |patterns| <= |PATTERNS| && PathMatches(patterns[i].0, p)
    requires patterns == PATTERNS[|PATTERNS| - |patterns|..]
    ensures FirstMatch(patterns, p) == Some(patterns[i].1)
  {
    var off := |PATTERNS| - |patterns|;
    if i > 0 {
      assert patterns[0] == PATTERNS[off] && patterns[i] == PATTERNS[off + i];
      PatternsDisjoint(off, off + i);
      if PathMatches(patterns[0].0, p) {
        BothMatchOverlap(patterns[0].0, patterns[i].0, p);
      }
      assert patterns[1..] == PATTERNS[off + 1..];
      FirstMatchFinds(patterns[1..], p, i - 1);
    }
  }

  /** getTimelineUri: timeline/{userId}/tt/{type token}/combined/{0|1}. */
  function TimelineUri(userId: int, timelineType: TimelineType, isCombined: bool): (p: Path)
    ensures |p| == 6
  {
    [TIMELINE_PATH, LongToString(userId), "tt", Save(timelineType), "combined", if isCombined then "1" else "0"]
  }

  /** getTimelineMsgUri: the HOME timeline path of the account, then msg/{msgId}. */
  function TimelineMsgUri(userId: int, msgId: int, isCombined: bool): (p: Path)
    ensures |p| == 8
  {
    TimelineUri(userId, Home, isCombined) + [MSG_TABLE_NAME, LongToString(msgId)]
  }

  /** getTimelineSearchUri: the timeline path, then search, then the term unless it is empty (or null). */
  function TimelineSearchUri(userId: int, timelineType: TimelineType, isCombined: bool, queryString: string): (p: Path)
    ensures |p| == if queryString == "" then 7 else 8
    ensures p[..6] == TimelineUri(userId, timelineType, isCombined) && p[6] == SEARCH_SEGMENT
    ensures queryString != "" ==> p[7] == queryString
  {
    TimelineUri(userId, timelineType, isCombined) + [SEARCH_SEGMENT] + (if queryString == "" then [] else [queryString])
  }

  /** uriToUserId: segment 1 as a long; 0 when it is missing or not a long. */
  function UriToUserId(p: Path): (userId: int)
    ensures |p| > 1 && ParseLong(p[1]).Some? ==> userId == ParseLong(p[1]).value
    ensures (|p| <= 1 || ParseLong(p[1]).None?) ==> userId == 0
  {
    if |p| > 1 then
      match ParseLong(p[1])
      case Some(n) => n
      case None => 0
    else 0
  }

  /** uriToIsCombined: segment 5 is not 0, on the three timeline paths; false for any other path. */
  function UriToIsCombined(p: Path): (isCombined: bool)
    ensures isCombined ==> Match(p) in {Some(Timeline), Some(TimelineSearch), Some(TimelineMsgId)}
  {
    match Match(p)
    case Some(Timeline) | Some(TimelineSearch) | Some(TimelineMsgId) =>
      var n := ParseLong(p[5]);
      n.Some? && n.value != 0
    case _ => false
  }

  /** uriToMessageId: segment 7 as a long on a timeline-with-message path; 0 for any other path. */
  function UriToMessageId(p: Path): (messageId: int)
    ensures Match(p) != Some(TimelineMsgId) ==> messageId == 0
    ensures messageId >= 0
  {
    match Match(p)
    case Some(TimelineMsgId) =>
      (match ParseLong(p[7])
       case Some(n) => n
       case None => 0)
    case _ => 0
  }

  /** The combined segment reads back as the flag it was written from. */
  lemma CombinedSegment(isCombined: bool)
    ensures ParseLong(if isCombined then "1" else "0") == Some(if isCombined then 1 else 0)
  {
    var s := if isCombined then "1" else "0";
    assert s[..0] == [];
    assert ValueOf(s) == 10 * ValueOf(s[..0]) + DigitValue(s[0]);
  }

  lemma TimelinePathMatches(userId: int, timelineType: TimelineType, isCombined: bool)
    requires userId >= 0
    ensures PathMatches(TIMELINE_GLOBS, TimelineUri(userId, timelineType, isCombined))
  {
  }

  /**
   * A timeline path of a (non-negative) account id routes to TIMELINE, and
   * the account id and the combined flag read back as they were written.
   */
  lemma TimelineUriRoundTrip(userId: int, timelineType: TimelineType, isCombined: bool)
    requires 0 <= userId <= LONG_MAX
    ensures var p := TimelineUri(userId, timelineType, isCombined);
      Match(p) == Some(Timeline) && UriToUserId(p) == userId && UriToIsCombined(p) == isCombined
      && UriToMessageId(p) == 0
  {
    var p := TimelineUri(userId, timelineType, isCombined);
    TimelinePathMatches(userId, timelineType, isCombined);
    MatchIsOrderFree(p, 0);
    ParseLongToString(userId);
    CombinedSegment(isCombined);
  }

  /**
   * uriToUserId reads back any long, negative ones included; but a negative
   * id is written with a '-', which `#` does not accept, so such a path
   * routes nowhere and reads back as not combined.
   */
  lemma NegativeUserIdIsNotRouted(userId: int, timelineType: TimelineType, isCombined: bool)
    requires LONG_MIN <= userId < 0
    ensures var p := TimelineUri(userId, timelineType, isCombined);
      UriToUserId(p) == userId && Match(p) == None && !UriToIsCombined(p)
  {
    var p := TimelineUri(userId, timelineType, isCombined);
    ParseLongToString(userId);
    if Match(p).Some? {
      FirstMatchSound(PATTERNS, p);
    }
  }

  /** A message path routes to TIMELINE_MSG_ID and gives back the account, the message and the combined flag. */
  lemma TimelineMsgUriRoundTrip(userId: int, msgId: int, isCombined: bool)
    requires 0 <= userId <= LONG_MAX && 0 <= msgId <= LONG_MAX
    ensures var p := TimelineMsgUri(userId, msgId, isCombined);
      Match(p) == Some(TimelineMsgId) && UriToUserId(p) == userId && UriToMessageId(p) == msgId
      && UriToIsCombined(p) == isCombined
  {
    var p := TimelineMsgUri(userId, msgId, isCombined);
    TimelinePathMatches(userId, Home, isCombined);
    assert PathMatches(PATTERNS[1].0, p);
    MatchIsOrderFree(p, 1);
    ParseLongToString(userId);
    CombinedSegment(isCombined);
    ParseLongToString(msgId);
  }

  /**
   * A search path with a non-empty term routes to TIMELINE_SEARCH, keeps the
   * term as its last segment and gives back the account and the combined flag.
   */
  lemma TimelineSearchUriRoundTrip(userId: int, timelineType: TimelineType, isCombined: bool, queryString: string)
    requires 0 <= userId <= LONG_MAX && queryString != ""
    ensures var p := TimelineSearchUri(userId, timelineType, isCombined, queryString);
      Match(p) == Some(TimelineSearch) && p[|p| - 1] == queryString
      && UriToUserId(p) == userId && UriToIsCombined(p) == isCombined && UriToMessageId(p) == 0
  {
    var p := TimelineSearchUri(userId, timelineType, isCombined, queryString);
    TimelinePathMatches(userId, timelineType, isCombined);
    assert PathMatches(PATTERNS[2].0, p);
    MatchIsOrderFree(p, 2);
    ParseLongToString(userId);
    CombinedSegment(isCombined);
  }

  /** With an empty term the search path has seven segments and matches no pattern. */
  lemma EmptySearchIsNotRouted(userId: int, timelineType: TimelineType, isCombined: bool)
    ensures Match(TimelineSearchUri(userId, timelineType, isCombined, "")) == None
  {
    var p := TimelineSearchUri(userId, timelineType, isCombined, "");
    if Match(p).Some? {
      FirstMatchSound(PATTERNS, p);
    }
  }
}
