/**
 * provider/ScheduleContract.java: the constants and URI helpers shared by
 * the schedule content provider and its clients.  A content URI is its
 * authority and its decoded path segments, the level at which
 * Uri.Builder.appendPath and Uri.getPathSegments meet: appendPath adds one
 * segment, and an empty segment is dropped by getPathSegments.
 */
module ScheduleContracts {
  import opened JavaLang

  /** A content:// URI as getAuthority and getPathSegments see it. */
  datatype Uri = Uri(authority: string, segments: seq<string>)

  /** Uri.Builder.appendPath followed by build, observed through getPathSegments. */
  function AppendPath(u: Uri, segment: string): (v: Uri)
    ensures v.authority == u.authority
    ensures segment != "" ==> v.segments == u.segments + [segment]
    ensures segment == "" ==> v == u
  {
    if segment == "" then u else u.(segments := u.segments + [segment])
  }

  /** UPDATED_NEVER: an entry never updated, or not existing yet. */
  const UPDATED_NEVER: int := -2
  /** UPDATED_UNKNOWN: the last update time is unknown. */
  const UPDATED_UNKNOWN: int := -1

  const UPDATED: string := "updated"
  const SESSION_ID: string := "session_id"
  const SESSION_TITLE: string := "session_title"
  const SESSION_DAY: string := "session_day"
  const SESSION_START: string := "session_start"
  const SESSION_END: string := "session_end"
  const SESSION_HOSTS: string := "session_hosts"
  const SESSION_LANG: string := "session_lang"
  const SESSION_ABSTRACT: string := "session_abstract"

  const CONTENT_AUTHORITY: string := "org.level28.android.moca"
  /** BASE_CONTENT_URI, "content://org.level28.android.moca". */
  const BASE_CONTENT_URI: Uri := Uri(CONTENT_AUTHORITY, [])

  const PATH_SESSIONS: string := "sessions"
  const PATH_AT: string := "at"
  const PATH_DAY: string := "day"

  /** Sessions.CONTENT_URI, ".../sessions". */
  const CONTENT_URI: Uri := AppendPath(BASE_CONTENT_URI, PATH_SESSIONS)

  const CONTENT_TYPE: string := "vnd.android.cursor.dir/vnd.moca.session"
  const CONTENT_ITEM_TYPE: string := "vnd.android.cursor.item/vnd.moca.session"

  /** DEFAULT_SORT: by start, then by title ignoring case. */
  const DEFAULT_SORT: string := SESSION_START + " ASC," + SESSION_TITLE + " COLLATE NOCASE ASC"
  /** AT_TIME_SELECTION: sessions running at a given instant, with two placeholders. */
  const AT_TIME_SELECTION: string := SESSION_START + " <= ? AND " + SESSION_END + " >= ?"
  const ON_DAY_SELECTION: string := SESSION_DAY + " = ?"

  /** The constants the provider relies on: the sessions URI and two distinct negative sentinels. */
  lemma ContractConstants()
    ensures CONTENT_URI == Uri("org.level28.android.moca", ["sessions"])
    ensures UPDATED_NEVER != UPDATED_UNKNOWN && UPDATED_NEVER < 0 && UPDATED_UNKNOWN < 0
  {
  }

  /** buildAtTimeSelectionArgs: the decimal time, once for each of AT_TIME_SELECTION's two placeholders. */
  function BuildAtTimeSelectionArgs(time: int): (args: seq<string>)
    ensures |args| == 2 && args[0] == args[1] == ToDecimal(time)
  {
    var timeString := ToDecimal(time);
    [timeString, timeString]
  }

  /** buildSessionUri: the sessions URI with the id as one more segment (none when the id is empty). */
  function BuildSessionUri(sessionId: string): (u: Uri)
    ensures u.authority == CONTENT_AUTHORITY
    ensures sessionId != "" ==> u.segments == [PATH_SESSIONS, sessionId]
    ensures sessionId == "" ==> u == CONTENT_URI
  {
    AppendPath(CONTENT_URI, sessionId)
  }

  /** buildSessionsAtDirUri: sessions/at/ followed by the decimal time. */
  function BuildSessionsAtDirUri(time: int): (u: Uri)
    ensures u == Uri(CONTENT_AUTHORITY, [PATH_SESSIONS, PATH_AT, ToDecimal(time)])
  {
    AppendPath(AppendPath(CONTENT_URI, PATH_AT), ToDecimal(time))
  }

  /** buildSessionsDayDirUri: sessions/day/ followed by the decimal day. */
  function BuildSessionsDayDirUri(day: int): (u: Uri)
    ensures u == Uri(CONTENT_AUTHORITY, [PATH_SESSIONS, PATH_DAY, ToDecimal(day)])
  {
    AppendPath(AppendPath(CONTENT_URI, PATH_DAY), ToDecimal(day))
  }

  /** getSessionId: path segment 1; fewer segments throw IndexOutOfBoundsException. */
  function GetSessionId(uri: Uri): (r: Result<string, Exception>)
    ensures r.Success? <==> |uri.segments| >= 2
    ensures r.Success? ==> r.value == uri.segments[1]
    ensures r.Failure? ==> r.error == IndexOutOfBounds
  {
    if |uri.segments| < 2 then Failure(IndexOutOfBounds) else Success(uri.segments[1])
  }

  /** getSearchQuery: path segment 2; fewer segments throw IndexOutOfBoundsException. */
  function GetSearchQuery(uri: Uri): (r: Result<string, Exception>)
    ensures r.Success? <==> |uri.segments| >= 3
    ensures r.Success? ==> r.value == uri.segments[2]
    ensures r.Failure? ==> r.error == IndexOutOfBounds
  {
    if |uri.segments| < 3 then Failure(IndexOutOfBounds) else Success(uri.segments[2])
  }

  /** getSessionId reads back the id buildSessionUri was given; an empty id leaves no segment to read. */
  lemma SessionUriRoundTrip(sessionId: string)
    ensures sessionId != "" ==> GetSessionId(BuildSessionUri(sessionId)) == Success(sessionId)
    ensures sessionId == "" ==> GetSessionId(BuildSessionUri(sessionId)) == Failure(IndexOutOfBounds)
  {
    ContractConstants();
  }

  /** getSearchQuery reads back the decimal time of an at-time directory URI. */
  lemma AtDirRoundTrip(time: int)
    ensures GetSearchQuery(BuildSessionsAtDirUri(time)) == Success(ToDecimal(time))
    ensures BuildSessionsAtDirUri(time).segments == ["sessions", "at", ToDecimal(time)]
  {
    ContractConstants();
  }

  /** getSearchQuery reads back the decimal day of a day directory URI. */
  lemma DayDirRoundTrip(day: int)
    ensures GetSearchQuery(BuildSessionsDayDirUri(day)) == Success(ToDecimal(day))
    ensures BuildSessionsDayDirUri(day).segments == ["sessions", "day", ToDecimal(day)]
  {
    ContractConstants();
  }

  /** Distinct times give distinct at-time URIs, and distinct days distinct day URIs. */
  lemma DirUrisInjective(a: int, b: int)
    ensures BuildSessionsAtDirUri(a) == BuildSessionsAtDirUri(b) ==> a == b
    ensures BuildSessionsDayDirUri(a) == BuildSessionsDayDirUri(b) ==> a == b
  {
    AtDirRoundTrip(a);
    AtDirRoundTrip(b);
    DayDirRoundTrip(a);
    DayDirRoundTrip(b);
    if BuildSessionsAtDirUri(a) == BuildSessionsAtDirUri(b) || BuildSessionsDayDirUri(a) == BuildSessionsDayDirUri(b) {
      ToDecimalInjective(a, b);
    }
  }
}
