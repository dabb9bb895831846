/**
 * util/SafeAsyncTask.java: a background task whose callbacks run on the
 * UI thread in a fixed order, with exceptions routed to handlers.
 *
 * Each hand-off to the UI thread (postToUiThreadAndWait) is one
 * synchronous step: the callback runs, and an Exception it throws is
 * rethrown on the worker.  What every callback does is a parameter of the
 * model: it returns, or it throws an Exception, or it throws some other
 * Throwable (an Error).
 */
module AsyncTasks {
  import opened JavaLang

  /** What a callback can throw: an Exception, or a Throwable that is not one. */
  datatype Throwable = Thrown(e: Exception) | Error

  /** The task's callbacks; CallBody is call(), the only one that runs on the worker thread. */
  datatype Callback = OnPreExecute | CallBody | OnSuccess | OnInterrupted | OnException | OnThrowable | OnFinally

  /** What each callback throws when it runs, None when it returns normally. */
  type Behaviour = Callback -> Option<Throwable>

  /**
   * postToUiThreadAndWait: the callback's Exception comes back to the
   * worker; any other Throwable is not caught by the posted runnable, so it
   * escapes on the UI thread and the worker carries on as if it returned.
   */
  datatype Posted = Posted(toWorker: Option<Exception>, escapedOnUi: bool)

  function Post(beh: Behaviour, cb: Callback): (p: Posted)
    ensures p.toWorker.Some? <==> beh(cb).Some? && beh(cb).value.Thrown?
    ensures p.toWorker.Some? ==> beh(cb) == Some(Thrown(p.toWorker.value))
    ensures p.escapedOnUi <==> beh(cb) == Some(Error)
  {
    match beh(cb)
    case None => Posted(None, false)
    case Some(Thrown(e)) => Posted(Some(e), false)
    case Some(Error) => Posted(None, true)
  }

  /** The callbacks that ran, those that threw an Error on the UI thread, and what escaped. */
  datatype Section = Section(ran: seq<Callback>, escapedOnUi: seq<Callback>, failure: Option<Throwable>)

  function UiEscapes(p: Posted, cb: Callback): seq<Callback>
  {
    if p.escapedOnUi then [cb] else []
  }

  /** The try block of Task.call: doPreExecute, then doSuccess(doCall()). */
  function TryBlock(beh: Behaviour): Section
  {
    var pre := Post(beh, OnPreExecute);
    if pre.toWorker.Some? then
      Section([OnPreExecute], UiEscapes(pre, OnPreExecute), Some(Thrown(pre.toWorker.value)))
    else if beh(CallBody).Some? then
      Section([OnPreExecute, CallBody], UiEscapes(pre, OnPreExecute), beh(CallBody))
    else
      var success := Post(beh, OnSuccess);
      Section([OnPreExecute, CallBody, OnSuccess], UiEscapes(pre, OnPreExecute) + UiEscapes(success, OnSuccess),
              if success.toWorker.Some? then Some(Thrown(success.toWorker.value)) else None)
  }

  /**
   * The handler a failure is routed to: an InterruptedException or
   * InterruptedIOException to onInterrupted, any other Exception to
   * onException, and any other Throwable to onThrowable.
   */
  function Handler(t: Throwable): (cb: Callback)
    ensures cb == OnInterrupted <==> t == Thrown(Interrupted) || t == Thrown(InterruptedIO)
    ensures cb == OnThrowable <==> t == Error
    ensures cb in {OnInterrupted, OnException, OnThrowable}
  {
    match t
    case Error => OnThrowable
    case Thrown(e) => if e == Interrupted || e == InterruptedIO then OnInterrupted else OnException
  }

  /** One run of Task.call: the callbacks in order, the UI-thread escapes, and what call() throws. */
  datatype TaskRun = TaskRun(ran: seq<Callback>, escapedOnUi: seq<Callback>, thrown: Option<Exception>)

  /**
   * Task.call: the try block; on a failure, its handler (an Exception the
   * handler throws is logged and dropped); then doFinally, whose Exception
   * is the only thing call() throws.
   */
  function TaskCall(beh: Behaviour): TaskRun
  {
    var body := TryBlock(beh);
    var handled: seq<Callback> := if body.failure.Some? then [Handler(body.failure.value)] else [];
    var handlerEscapes := if body.failure.Some? then UiEscapes(Post(beh, Handler(body.failure.value)), Handler(body.failure.value)) else [];
    var fin := Post(beh, OnFinally);
    TaskRun(body.ran + handled + [OnFinally], body.escapedOnUi + handlerEscapes + UiEscapes(fin, OnFinally), fin.toWorker)
  }

  /** Whether the pre-execute step and call() both came back without an Exception, so onSuccess runs. */
  predicate Succeeds(beh: Behaviour)
  {
    !(beh(OnPreExecute).Some? && beh(OnPreExecute).value.Thrown?) && beh(CallBody).None?
  }

  /** onPreExecute runs first, onFinally runs once and last, whatever the callbacks throw. */
  lemma FinallyAlwaysLast(beh: Behaviour)
    ensures var run := TaskCall(beh);
            |run.ran| >= 2 && run.ran[0] == OnPreExecute && run.ran[|run.ran| - 1] == OnFinally
            && forall i :: 0 <= i < |run.ran| - 1 ==> run.ran[i] != OnFinally
  {
  }

  /** onSuccess runs exactly when onPreExecute and call() did not throw an Exception, right after call(). */
  lemma SuccessIffNoFailure(beh: Behaviour)
    ensures OnSuccess in TaskCall(beh).ran <==> Succeeds(beh)
    ensures Succeeds(beh) ==> TaskCall(beh).ran[..3] == [OnPreExecute, CallBody, OnSuccess]
  {
  }

  /** When onPreExecute or call() throws, onSuccess is skipped and the routed handler runs just before onFinally. */
  lemma FailureRoutedBeforeFinally(beh: Behaviour)
    requires !Succeeds(beh)
    ensures var run := TaskCall(beh);
            var t := if beh(OnPreExecute).Some? && beh(OnPreExecute).value.Thrown? then beh(OnPreExecute).value
                     else beh(CallBody).value;
            OnSuccess !in run.ran && |run.ran| >= 3
            && run.ran[|run.ran| - 2] == Handler(t) && run.ran[|run.ran| - 1] == OnFinally
  {
  }

  /** An onSuccess that throws an Exception is followed by that Exception's handler, then onFinally. */
  lemma SuccessExceptionHandled(beh: Behaviour, e: Exception)
    requires Succeeds(beh) && beh(OnSuccess) == Some(Thrown(e))
    ensures TaskCall(beh).ran == [OnPreExecute, CallBody, OnSuccess, Handler(Thrown(e)), OnFinally]
  {
  }

  /** A clean run calls the four normal callbacks and nothing else. */
  lemma CleanRun(beh: Behaviour)
    requires Succeeds(beh) && beh(OnSuccess).None? && beh(OnFinally).None? && beh(OnPreExecute).None?
    ensures TaskCall(beh) == TaskRun([OnPreExecute, CallBody, OnSuccess, OnFinally], [], None)
  {
  }

  /** At most one error handler runs, and an exception a handler throws never leaves call(). */
  lemma OneHandlerAtMost(beh: Behaviour)
    ensures var run := TaskCall(beh);
            (forall i, j :: 0 <= i < j < |run.ran| && run.ran[i] in {OnInterrupted, OnException, OnThrowable}
                            ==> run.ran[j] !in {OnInterrupted, OnException, OnThrowable})
            && run.thrown == Post(beh, OnFinally).toWorker
  {
  }

  // ---------------------------------------------------------------------
  // The default handler chain
  // ---------------------------------------------------------------------

  /**
   * The hooks that run when cb is invoked on a subclass that overrides
   * the hooks in overridden: the default onInterrupted calls onException,
   * whose default calls onThrowable, whose default logs.
   */
  function Chain(cb: Callback, overridden: set<Callback>): (hooks: seq<Callback>)
    requires cb in {OnInterrupted, OnException, OnThrowable}
    ensures 1 <= |hooks| <= 3 && hooks[0] == cb
    ensures hooks[|hooks| - 1] in overridden || hooks[|hooks| - 1] == OnThrowable
    ensures forall i :: 0 <= i < |hooks| - 1 ==> hooks[i] !in overridden
    decreases if cb == OnInterrupted then 2 else if cb == OnException then 1 else 0
  {
    if cb in overridden || cb == OnThrowable then [cb]
    else if cb == OnInterrupted then [cb] + Chain(OnException, overridden)
    else [cb] + Chain(OnThrowable, overridden)
  }

  /** Without overrides an interruption reaches onException and then onThrowable. */
  lemma DefaultChain()
    ensures Chain(OnInterrupted, {}) == [OnInterrupted, OnException, OnThrowable]
    ensures Chain(OnException, {}) == [OnException, OnThrowable]
    ensures Chain(OnThrowable, {}) == [OnThrowable]
  {
  }

  /** FetchBitmapTask overrides onInterrupted and onException, so neither reaches onThrowable. */
  lemma FetchTaskChain()
    ensures Chain(OnInterrupted, {OnInterrupted, OnException}) == [OnInterrupted]
    ensures Chain(OnException, {OnInterrupted, OnException}) == [OnException]
  {
  }

  // ---------------------------------------------------------------------
  // Futures, executors and handlers
  // ---------------------------------------------------------------------

  /** A Handler: the main looper's default one, or one the app passed in. */
  datatype UiHandler = MainLooper | CustomHandler(id: int)

  /** SINGLE_THREAD_EXECUTOR, DEFAULT_EXECUTOR (a pool of DEFAULT_POOL_SIZE threads), or another. */
  datatype Executor = SingleThread | DefaultPool | CustomExecutor(id: int)

  const DEFAULT_POOL_SIZE: nat := 25

  datatype FutureState = Pending | Completed | Cancelled(interrupted: bool)

  /** A FutureTask around a new Task, which captured the parent's handler when it was made. */
  class FutureTask {
    const handler: UiHandler
    var state: FutureState

    constructor(handler: UiHandler)
      ensures this.handler == handler && state == Pending
    {
      this.handler := handler;
      state := Pending;
    }

    /** FutureTask.cancel: only a task that has not finished or been cancelled can be cancelled. */
    method Cancel(mayInterruptIfRunning: bool) returns (cancelled: bool)
      modifies this
      ensures cancelled <==> old(state) == Pending
      ensures cancelled ==> state == Cancelled(mayInterruptIfRunning)
      ensures !cancelled ==> state == old(state)
    {
      if state != Pending {
        return false;
      }
      state := Cancelled(mayInterruptIfRunning);
      return true;
    }

    /** The executor running the task to its end. */
    method Complete()
      modifies this
      ensures old(state) == Pending ==> state == Completed
      ensures old(state) != Pending ==> state == old(state)
    {
      if state == Pending {
        state := Completed;
      }
    }
  }

  class SafeAsyncTask {
    /** mHandler. */
    var handler: UiHandler
    /** mExecutor. */
    var executor: Executor
    /** mLaunchLocation: the stack trace captured by execute(). */
    var launchLocation: Option<seq<string>>
    /** mFuture: the future() made last. */
    var future: Option<FutureTask>
    /** The futures handed to executors by execute(), in order. */
    var submitted: seq<FutureTask>

    /** SafeAsyncTask(handler, executor); a null handler means one on the main looper. */
    constructor(handler: Option<UiHandler>, executor: Executor)
      ensures this.handler == (if handler.Some? then handler.value else MainLooper)
      ensures this.executor == executor && launchLocation == None && future == None && submitted == []
    {
      this.handler := if handler.Some? then handler.value else MainLooper;
      this.executor := executor;
      launchLocation := None;
      future := None;
      submitted := [];
    }

    /** future(): a fresh FutureTask around a new Task, which replaces the last one. */
    method Future() returns (f: FutureTask)
      modifies this
      ensures fresh(f) && f.state == Pending && f.handler == handler
      ensures future == Some(f)
      ensures handler == old(handler) && executor == old(executor)
      ensures launchLocation == old(launchLocation) && submitted == old(submitted)
    {
      f := new FutureTask(handler);
      future := Some(f);
    }

    /** executor(e): rebind the executor, returning this for chaining. */
    method SetExecutor(e: Executor) returns (self: SafeAsyncTask)
      modifies this
      ensures self == this && executor == e
      ensures handler == old(handler) && future == old(future)
      ensures launchLocation == old(launchLocation) && submitted == old(submitted)
    {
      executor := e;
      return this;
    }

    /** handler(h): rebind the handler; tasks already made keep theirs. */
    method SetHandler(h: UiHandler) returns (self: SafeAsyncTask)
      modifies this
      ensures self == this && handler == h
      ensures executor == old(executor) && future == old(future)
      ensures launchLocation == old(launchLocation) && submitted == old(submitted)
    {
      handler := h;
      return this;
    }

    /** execute(launchLocation): remember where it was launched, and submit a fresh future. */
    method Execute(location: seq<string>) returns (f: FutureTask)
      modifies this
      ensures launchLocation == Some(location)
      ensures fresh(f) && f.state == Pending && f.handler == handler
      ensures future == Some(f) && submitted == old(submitted) + [f]
      ensures handler == old(handler) && executor == old(executor)
    {
      launchLocation := Some(location);
      f := Future();
      submitted := submitted + [f];
    }

    /**
     * cancel: IllegalStateException before any future(); otherwise only
     * the last future is cancelled, and as FutureTask.cancel decides.
     */
    method Cancel(mayInterruptIfRunning: bool) returns (r: Result<bool, Exception>)
      modifies if future.Some? then {future.value} else {}
      ensures future.None? ==> r == Failure(IllegalState)
      ensures future.Some? ==>
                r.Success? && (r.value <==> old(future.value.state) == Pending)
                && (r.value ==> future.value.state == Cancelled(mayInterruptIfRunning))
                && (!r.value ==> future.value.state == old(future.value.state))
    {
      if future.None? {
        return Failure(IllegalState);
      }
      var cancelled := future.value.Cancel(mayInterruptIfRunning);
      return Success(cancelled);
    }
  }

  /**
   * After two executions, cancel reaches only the second future: the
   * first stays as it was and can no longer be cancelled through the task.
   */
  method ExecuteTwiceThenCancel(task: SafeAsyncTask, a: seq<string>, b: seq<string>)
    returns (first: FutureTask, second: FutureTask, r: Result<bool, Exception>)
    modifies task
    ensures fresh(first) && fresh(second) && first != second
    ensures first.state == Pending && second.state == Cancelled(false)
    ensures r == Success(true) && task.submitted == old(task.submitted) + [first, second]
  {
    first := task.Execute(a);
    second := task.Execute(b);
    r := task.Cancel(false);
  }
}
