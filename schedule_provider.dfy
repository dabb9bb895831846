/**
 * provider/ScheduleProvider.java: the content provider's URI routing and
 * the parts of its operations that do not touch SQLite.  The route table
 * is the framework's UriMatcher as buildUriMatcher fills it; the database
 * is a parameter wherever the provider hands work to it.
 */
module ScheduleProviders {
  import opened JavaLang
  import opened ScheduleContracts

  const NO_MATCH: int := -1
  const SESSIONS: int := 100
  const SESSIONS_AT: int := 101
  const SESSIONS_DAY: int := 102
  const SESSIONS_ID: int := 103

  /** Tables.SESSIONS. */
  const SESSIONS_TABLE: string := "sessions"

  /**
   * sUriMatcher.match(uri) for the tree buildUriMatcher adds: the
   * authority, then "sessions" (100) whose children, tried in insertion
   * order, are "at" then "*" (101), "day" then "*" (102), and "*" (103).
   * Inner nodes carry NO_MATCH.  Every node has a (possibly empty) list of
   * children, so a segment left over at a leaf finds no child and the
   * match fails: a path matches only a pattern of its own length.
   */
  function Match(uri: Uri): (code: int)
    ensures code in {NO_MATCH, SESSIONS, SESSIONS_AT, SESSIONS_DAY, SESSIONS_ID}
    ensures code != NO_MATCH ==> uri.authority == CONTENT_AUTHORITY && 1 <= |uri.segments| <= 3 && uri.segments[0] == PATH_SESSIONS
  {
    var segments := uri.segments;
    if uri.authority != CONTENT_AUTHORITY || |segments| == 0 || segments[0] != PATH_SESSIONS then NO_MATCH
    else if |segments| == 1 then SESSIONS
    else if segments[1] == PATH_AT then (if |segments| == 3 then SESSIONS_AT else NO_MATCH)
    else if segments[1] == PATH_DAY then (if |segments| == 3 then SESSIONS_DAY else NO_MATCH)
    else if |segments| == 2 then SESSIONS_ID
    else NO_MATCH
  }

  /** Each code is reached by exactly the paths of its pattern: sessions, sessions/at/ANY, sessions/day/ANY, sessions/ANY. */
  lemma MatchExactly(uri: Uri)
    ensures Match(uri) == SESSIONS <==> uri.authority == CONTENT_AUTHORITY && uri.segments == [PATH_SESSIONS]
    ensures Match(uri) == SESSIONS_AT <==>
              uri.authority == CONTENT_AUTHORITY && |uri.segments| == 3 && uri.segments[0] == PATH_SESSIONS && uri.segments[1] == PATH_AT
    ensures Match(uri) == SESSIONS_DAY <==>
              uri.authority == CONTENT_AUTHORITY && |uri.segments| == 3 && uri.segments[0] == PATH_SESSIONS && uri.segments[1] == PATH_DAY
    ensures Match(uri) == SESSIONS_ID <==>
              uri.authority == CONTENT_AUTHORITY && |uri.segments| == 2 && uri.segments[0] == PATH_SESSIONS
              && uri.segments[1] != PATH_AT && uri.segments[1] != PATH_DAY
  {
    if uri.authority == CONTENT_AUTHORITY && uri.segments == [PATH_SESSIONS] {
      assert |uri.segments| == 1;
    }
  }

  /** A path longer than every pattern, or a leaf pattern with a segment to spare, matches nothing. */
  lemma LongerPathsUnrouted(uri: Uri)
    requires uri.authority == CONTENT_AUTHORITY && |uri.segments| >= 3 && uri.segments[0] == PATH_SESSIONS
    requires |uri.segments| > 3 || (uri.segments[1] != PATH_AT && uri.segments[1] != PATH_DAY)
    ensures Match(uri) == NO_MATCH
  {
  }

  /** The URIs the contract builds land on the routes meant for them. */
  lemma BuiltUrisRoute(time: int, sessionId: string)
    ensures Match(CONTENT_URI) == SESSIONS
    ensures Match(BuildSessionsAtDirUri(time)) == SESSIONS_AT
    ensures Match(BuildSessionsDayDirUri(time)) == SESSIONS_DAY
    ensures sessionId != "" && sessionId != PATH_AT && sessionId != PATH_DAY ==> Match(BuildSessionUri(sessionId)) == SESSIONS_ID
    ensures sessionId == "" ==> Match(BuildSessionUri(sessionId)) == SESSIONS
    ensures sessionId == PATH_AT || sessionId == PATH_DAY ==> Match(BuildSessionUri(sessionId)) == NO_MATCH
  {
    ContractConstants();
    AtDirRoundTrip(time);
    DayDirRoundTrip(time);
  }

  /** The base URI and foreign authorities match nothing. */
  lemma UnroutedUris(uri: Uri)
    ensures Match(BASE_CONTENT_URI) == NO_MATCH
    ensures uri.authority != CONTENT_AUTHORITY ==> Match(uri) == NO_MATCH
  {
  }

  /** getType: the directory type for 100, 101 and 102, the item type for 103, an exception otherwise. */
  function GetType(uri: Uri): (r: Result<string, Exception>)
    ensures Match(uri) in {SESSIONS, SESSIONS_AT, SESSIONS_DAY} ==> r == Success(CONTENT_TYPE)
    ensures Match(uri) == SESSIONS_ID ==> r == Success(CONTENT_ITEM_TYPE)
    ensures r.Failure? <==> Match(uri) == NO_MATCH
    ensures r.Failure? ==> r.error == UnsupportedOperation
  {
    var route := Match(uri);
    if route == SESSIONS || route == SESSIONS_AT || route == SESSIONS_DAY then Success(CONTENT_TYPE)
    else if route == SESSIONS_ID then Success(CONTENT_ITEM_TYPE)
    else Failure(UnsupportedOperation)
  }

  /** A where clause of SelectionBuilder and the one argument it binds. */
  datatype Clause = Clause(where: string, arg: string)

  /** What a SelectionBuilder holds: the table and its where clauses, in order. */
  datatype Selection = Selection(table: string, clauses: seq<Clause>)

  /** buildSelection(uri, match). */
  function BuildSelection(uri: Uri, route: int): (r: Result<Selection, Exception>)
    ensures route == SESSIONS ==> r == Success(Selection(SESSIONS_TABLE, []))
    ensures route !in {SESSIONS, SESSIONS_AT, SESSIONS_DAY, SESSIONS_ID} ==> r == Failure(UnsupportedOperation)
    ensures r.Success? ==> r.value.table == SESSIONS_TABLE
  {
    if route == SESSIONS then Success(Selection(SESSIONS_TABLE, []))
    else if route == SESSIONS_AT then
      var time := GetSearchQuery(uri);
      if time.Failure? then Failure(time.error)
      else Success(Selection(SESSIONS_TABLE, [Clause(SESSION_START + " <= ?", time.value), Clause(SESSION_END + " >= ?", time.value)]))
    else if route == SESSIONS_DAY then
      var day := GetSearchQuery(uri);
      if day.Failure? then Failure(day.error)
      else Success(Selection(SESSIONS_TABLE, [Clause(SESSION_DAY + " = ?", day.value)]))
    else if route == SESSIONS_ID then
      var id := GetSessionId(uri);
      if id.Failure? then Failure(id.error)
      else Success(Selection(SESSIONS_TABLE, [Clause(SESSION_ID + " = ?", id.value)]))
    else Failure(UnsupportedOperation)
  }

  /**
   * For the route the provider computes, buildSelection fails only on
   * unrouted URIs, and each route selects on the segment its pattern's
   * wildcard stands for.
   */
  lemma SelectionOfRoute(uri: Uri)
    ensures BuildSelection(uri, Match(uri)).Failure? <==> Match(uri) == NO_MATCH
    ensures Match(uri) == SESSIONS_AT ==>
              BuildSelection(uri, Match(uri)).value.clauses
              == [Clause(SESSION_START + " <= ?", uri.segments[2]), Clause(SESSION_END + " >= ?", uri.segments[2])]
    ensures Match(uri) == SESSIONS_DAY ==>
              BuildSelection(uri, Match(uri)).value.clauses == [Clause(SESSION_DAY + " = ?", uri.segments[2])]
    ensures Match(uri) == SESSIONS_ID ==>
              BuildSelection(uri, Match(uri)).value.clauses == [Clause(SESSION_ID + " = ?", uri.segments[1])]
  {
  }

  /** The at-time directory URI selects the sessions running at that time, with the contract's selection arguments. */
  lemma AtTimeSelection(time: int)
    ensures var s := BuildSelection(BuildSessionsAtDirUri(time), Match(BuildSessionsAtDirUri(time)));
            s.Success? && |s.value.clauses| == 2
            && [s.value.clauses[0].arg, s.value.clauses[1].arg] == BuildAtTimeSelectionArgs(time)
  {
    BuiltUrisRoute(time, "");
    AtDirRoundTrip(time);
  }

  /**
   * insert: only the sessions directory accepts it.  The row goes through
   * insertOrThrow, the parameter `database`; a row without session_id
   * breaks the column's NOT NULL constraint.  The result is the new
   * session's URI.
   */
  function Insert(uri: Uri, values: map<string, string>, database: map<string, string> -> Outcome<Exception>): (r: Result<Uri, Exception>)
    ensures Match(uri) != SESSIONS ==> r == Failure(UnsupportedOperation)
    ensures Match(uri) == SESSIONS && SESSION_ID !in values ==> r == Failure(SQLError)
    ensures r.Success? <==> Match(uri) == SESSIONS && SESSION_ID in values && database(values).Pass?
    ensures Match(uri) == SESSIONS && SESSION_ID in values && database(values).Fail? ==> r == Failure(database(values).error)
    ensures r.Success? ==> r.value == BuildSessionUri(values[SESSION_ID])
    ensures r.Success? ==> GetSessionId(r.value) == (if values[SESSION_ID] == "" then Failure(IndexOutOfBounds) else Success(values[SESSION_ID]))
  {
    if Match(uri) != SESSIONS then Failure(UnsupportedOperation)
    else if SESSION_ID !in values then Failure(SQLError)
    else
      var inserted := database(values);
      if inserted.Fail? then Failure(inserted.error)
      else
        SessionUriRoundTrip(values[SESSION_ID]);
        Success(BuildSessionUri(values[SESSION_ID]))
  }

  /** openFile: no URI is supported. */
  function OpenFile(uri: Uri, mode: string): (r: Outcome<Exception>)
    ensures r == Fail(UnsupportedOperation)
  {
    Fail(UnsupportedOperation)
  }

  /**
   * The results of applyBatch's loop: each operation applied with the
   * results before it (its back references) and its index, the first
   * failure ending the batch.
   */
  function BatchOf<Op, R>(ops: seq<Op>, apply: (Op, seq<R>, int) -> Result<R, Exception>): Result<seq<R>, Exception>
  {
    if |ops| == 0 then Success([])
    else
      var before := BatchOf(ops[..|ops| - 1], apply);
      if before.Failure? then before
      else
        var last := apply(ops[|ops| - 1], before.value, |ops| - 1);
        if last.Failure? then Failure(last.error) else Success(before.value + [last.value])
  }

  /** A successful batch has one result per operation, each computed from the results before it. */
  lemma {:induction false} BatchInOrder<Op, R>(ops: seq<Op>, apply: (Op, seq<R>, int) -> Result<R, Exception>)
    requires BatchOf(ops, apply).Success?
    ensures |BatchOf(ops, apply).value| == |ops|
    ensures forall i :: 0 <= i < |ops| ==>
              apply(ops[i], BatchOf(ops, apply).value[..i], i) == Success(BatchOf(ops, apply).value[i])
  {
    if |ops| > 0 {
      var init := ops[..|ops| - 1];
      BatchInOrder(init, apply);
      var results := BatchOf(ops, apply).value;
      assert results[..|ops| - 1] == BatchOf(init, apply).value;
      forall i | 0 <= i < |ops| - 1
        ensures apply(ops[i], results[..i], i) == Success(results[i])
      {
        assert init[i] == ops[i];
        assert results[..|ops| - 1][..i] == results[..i];
      }
    }
  }

  /** A batch fails exactly when some operation fails on the results of the ones before it. */
  lemma {:induction false} BatchFailsAtFirstFailure<Op, R>(ops: seq<Op>, apply: (Op, seq<R>, int) -> Result<R, Exception>, n: int)
    requires 0 <= n < |ops| && BatchOf(ops[..n], apply).Success?
    requires apply(ops[n], BatchOf(ops[..n], apply).value, n).Failure?
    ensures BatchOf(ops, apply) == Failure(apply(ops[n], BatchOf(ops[..n], apply).value, n).error)
  {
    assert ops[..n + 1][..n] == ops[..n];
    BatchFailureSticks(ops, n + 1, apply);
  }

  /** Once a prefix of the batch fails, the whole batch fails the same way. */
  lemma {:induction false} BatchFailureSticks<Op, R>(ops: seq<Op>, n: int, apply: (Op, seq<R>, int) -> Result<R, Exception>)
    requires 0 <= n <= |ops| && BatchOf(ops[..n], apply).Failure?
    ensures BatchOf(ops, apply) == BatchOf(ops[..n], apply)
  {
    if n < |ops| {
      var m := |ops| - 1;
      assert ops[..m][..n] == ops[..n];
      BatchFailureSticks(ops[..m], n, apply);
    } else {
      assert ops[..n] == ops;
    }
  }

  /**
   * applyBatch: the operations in order inside one transaction, which is
   * marked successful (committed) only when every one of them applied;
   * otherwise the exception propagates and the transaction rolls back.
   */
  method ApplyBatch<Op, R>(ops: seq<Op>, apply: (Op, seq<R>, int) -> Result<R, Exception>)
    returns (r: Result<seq<R>, Exception>, committed: bool)
    ensures r == BatchOf(ops, apply)
    ensures committed <==> r.Success?
  {
    var results: seq<R> := [];
    var i := 0;
    while i < |ops|
      invariant 0 <= i <= |ops|
      invariant BatchOf(ops[..i], apply) == Success(results)
    {
      assert ops[..i + 1][..i] == ops[..i];
      var result := apply(ops[i], results, i);
      if result.Failure? {
        BatchFailureSticks(ops, i + 1, apply);
        return Failure(result.error), false;
      }
      results := results + [result.value];
      i := i + 1;
    }
    assert ops[..i] == ops;
    return Success(results), true;
  }
}
