/**
 * sync/SyncAdapter.java: the decisions onPerformSync takes before and after
 * it hands the work to SyncHelper, and the SyncResult counters it bumps.
 * SyncHelper.performSync itself is a parameter: whether it returns or what
 * it throws.  ContentResolver.setIsSyncable is reported as the value the
 * adapter passes for the account (1 or 0), or None when it is not called.
 */
module SyncAdapters {
  import opened JavaLang

  /** MocaAuthenticator.HARDCODED_USERNAME, the only account the app creates. */
  const HARDCODED_USERNAME: string := "MOCA"

  /** The three boolean extras onPerformSync reads; a missing extra reads as false. */
  datatype Extras = Extras(upload: bool, manual: bool, initialize: bool)

  /** The SyncResult.stats counters the adapter touches. */
  datatype Counters = Counters(numAuthExceptions: int, numIoExceptions: int, numParseExceptions: int)

  /** How far a call gets. */
  datatype Reach =
    | UploadIgnored      // an upload-only request: nothing at all happens
    | AuthRejected       // initialization for a foreign account: syncing is switched off
    | Synced             // SyncHelper.performSync was called

  /** Where one call of onPerformSync stops, given the account name and the extras. */
  function ReachOf(accountName: string, extras: Extras): (r: Reach)
    ensures r == UploadIgnored <==> extras.upload
    ensures r == AuthRejected <==> !extras.upload && extras.initialize && accountName != HARDCODED_USERNAME
  {
    if extras.upload then UploadIgnored
    else if extras.initialize && accountName != HARDCODED_USERNAME then AuthRejected
    else Synced
  }

  /** The counter change for a call that stops at `reach`, with `sync` what performSync did. */
  function Bump(c: Counters, reach: Reach, sync: Outcome<Exception>): (d: Counters)
    ensures reach == AuthRejected ==> d == c.(numAuthExceptions := c.numAuthExceptions + 1)
    ensures reach == Synced && sync.Fail? && IsIOException(sync.error) ==>
              d == c.(numIoExceptions := c.numIoExceptions + 1)
    ensures reach == Synced && sync.Fail? && sync.error == JsonDeserializer ==>
              d == c.(numParseExceptions := c.numParseExceptions + 1)
    ensures reach == UploadIgnored || (reach == Synced && (sync.Pass? || !(IsIOException(sync.error) || sync.error == JsonDeserializer))) ==>
              d == c
    ensures Changes(c, d) <= 1
    ensures d.numAuthExceptions >= c.numAuthExceptions && d.numIoExceptions >= c.numIoExceptions
            && d.numParseExceptions >= c.numParseExceptions
  {
    match reach
    case UploadIgnored => c
    case AuthRejected => c.(numAuthExceptions := c.numAuthExceptions + 1)
    case Synced =>
      if sync.Fail? && IsIOException(sync.error) then c.(numIoExceptions := c.numIoExceptions + 1)
      else if sync.Fail? && sync.error == JsonDeserializer then c.(numParseExceptions := c.numParseExceptions + 1)
      else c
  }

  /** How many of the three counters differ. */
  function Changes(c: Counters, d: Counters): nat
  {
    (if c.numAuthExceptions != d.numAuthExceptions then 1 else 0)
    + (if c.numIoExceptions != d.numIoExceptions then 1 else 0)
    + (if c.numParseExceptions != d.numParseExceptions then 1 else 0)
  }

  /** The SyncResult passed in, whose stats the adapter updates in place. */
  class SyncResult {
    var stats: Counters

    constructor(stats: Counters)
      ensures this.stats == stats
    {
      this.stats := stats;
    }
  }

  /** SyncHelper: created by the adapter, never replaced. */
  class SyncHelper {
    constructor()
    {
    }
  }

  class SyncAdapter {
    /** mSyncHelper: null until the first sync. */
    var syncHelper: SyncHelper?

    /** SyncAdapter(context, autoInitialize). */
    constructor()
      ensures syncHelper == null
    {
      syncHelper := null;
    }

    /**
     * onPerformSync.  An upload-only request returns at once.  An
     * initialization marks the account syncable exactly when it is the
     * hard-coded one, and for any other account counts an authentication
     * error and returns.  Otherwise the helper (created on first use) syncs;
     * an IOException and a JsonDeserializerException are counted and
     * swallowed, anything else escapes.
     */
    method OnPerformSync(accountName: string, extras: Extras, result: SyncResult, performSync: Outcome<Exception>)
      returns (syncable: Option<bool>, escaped: Option<Exception>)
      modifies this, result
      ensures var reach := ReachOf(accountName, extras);
              result.stats == Bump(old(result.stats), reach, performSync)
              && (syncable.Some? <==> !extras.upload && extras.initialize)
              && (syncable.Some? ==> syncable.value == (accountName == HARDCODED_USERNAME))
              && (reach != Synced ==> syncHelper == old(syncHelper) && escaped == None)
              && (reach == Synced ==>
                    syncHelper != null && (old(syncHelper) != null ==> syncHelper == old(syncHelper))
                    && (old(syncHelper) == null ==> fresh(syncHelper))
                    && (escaped.Some? <==> performSync.Fail? && !IsIOException(performSync.error)
                                             && performSync.error != JsonDeserializer)
                    && (escaped.Some? ==> escaped.value == performSync.error))
    {
      syncable, escaped := None, None;
      if extras.upload {
        return;
      }
      if extras.initialize {
        var isHardcodedAccount := HARDCODED_USERNAME == accountName;
        syncable := Some(isHardcodedAccount);
        if !isHardcodedAccount {
          result.stats := result.stats.(numAuthExceptions := result.stats.numAuthExceptions + 1);
          return;
        }
      }
      if syncHelper == null {
        syncHelper := new SyncHelper();
      }
      if performSync.Fail? {
        var e := performSync.error;
        if IsIOException(e) {
          result.stats := result.stats.(numIoExceptions := result.stats.numIoExceptions + 1);
        } else if e == JsonDeserializer {
          result.stats := result.stats.(numParseExceptions := result.stats.numParseExceptions + 1);
        } else {
          escaped := Some(e);
        }
      }
    }
  }

  /** Two syncs on one adapter use one helper: the second reuses what the first created. */
  method SyncTwice(adapter: SyncAdapter, result: SyncResult, first: Outcome<Exception>, second: Outcome<Exception>)
    returns (helperAfterFirst: SyncHelper?)
    modifies adapter, result
    ensures helperAfterFirst != null && adapter.syncHelper == helperAfterFirst
    ensures old(adapter.syncHelper) != null ==> helperAfterFirst == old(adapter.syncHelper)
  {
    var plain := Extras(false, false, false);
    var s1, e1 := adapter.OnPerformSync(HARDCODED_USERNAME, plain, result, first);
    helperAfterFirst := adapter.syncHelper;
    var s2, e2 := adapter.OnPerformSync(HARDCODED_USERNAME, plain, result, second);
  }
}
