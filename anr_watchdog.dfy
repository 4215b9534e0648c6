/**
 * The ANR watchdog: a process-wide instance with fluent configuration
 * setters, and a start/stop lifecycle around one background worker that
 * sleeps for the timeout, invokes the callback and logs, until it is stopped.
 *
 * Threads are modelled sequentially. Every worker ever spawned is an entry of
 * `workers`; the worker's loop body is the atomic step `Tick` (a completed
 * sleep), and its reaction to an interrupt is the step `ExitOnInterrupt`.
 * Callbacks, the application and threads are identifiers; the callback's
 * invocations and the log output are recorded as traces.
 */
module Watchdog {
  import opened Optional
  import opened Decimal

  /** Android's `Log` priorities. */
  const VERBOSE: int := 2
  const DEBUG: int := 3
  const INFO: int := 4
  const WARN: int := 5
  const ERROR: int := 6
  const ASSERT: int := 7

  const DEFAULT_TIMEOUT: int := 5000
  const LOG_TAG: string := "ANRWatchdog"
  const ANR_MESSAGE: string := "ANR detected (simulated)"

  /** A value of Kotlin's 64-bit `Long`. */
  type Int64 = x: int | -0x8000_0000_0000_0000 <= x <= 0x7fff_ffff_ffff_ffff

  /** The identity of a callback lambda. */
  type CallbackId = nat

  /** The identity of the `Application` the watchdog was created for. */
  type ApplicationId = nat

  /**
   * A spawned worker thread: still looping, interrupted (its pending or next
   * sleep throws), or finished.
   */
  datatype WorkerState = Live | Interrupted | Exited

  /** One call of the callback, with the worker thread it was passed. */
  datatype Invocation = Invocation(callback: CallbackId, thread: nat)

  /** One line written to the Android log. */
  datatype LogRecord = LogRecord(priority: int, tag: string, message: string)

  /** What one completed sleep adds to the invocation trace: a call of the current callback, if any. */
  function TickInvocations(callback: Option<CallbackId>, worker: nat): (r: seq<Invocation>)
    ensures |r| <= 1
    ensures r == [] <==> callback.None?
    ensures forall i :: 0 <= i < |r| ==> r[i] == Invocation(callback.value, worker)
  {
    match callback
    case None => []
    case Some(cb) => [Invocation(cb, worker)]
  }

  /** What one completed sleep adds to the log: one debug record, exactly when the level admits debug output. */
  function TickLog(logLevel: int): (r: seq<LogRecord>)
    ensures |r| <= 1
    ensures r != [] <==> logLevel <= DEBUG
    ensures forall i :: 0 <= i < |r| ==> r[i].priority == DEBUG && r[i].tag == LOG_TAG && r[i].message == ANR_MESSAGE
  {
    if logLevel <= DEBUG then [LogRecord(DEBUG, LOG_TAG, ANR_MESSAGE)] else []
  }

  /** `Thread.interrupt`: a live worker becomes interrupted; a finished or already interrupted one is unaffected. */
  function InterruptWorker(w: WorkerState): (r: WorkerState)
    ensures r != Live
    ensures w != Live ==> r == w
  {
    if w == Live then Interrupted else w
  }

  /** The number of live workers. */
  function LiveCount(ws: seq<WorkerState>): nat
  {
    if ws == [] then 0 else (if ws[0] == Live then 1 else 0) + LiveCount(ws[1..])
  }

  /** Only the last worker may be live. */
  predicate OnlyLastMayBeLive(ws: seq<WorkerState>) {
    forall i :: 0 <= i < |ws| - 1 ==> ws[i] != Live
  }

  /** When only the last worker may be live, there is at most one live worker, and one exactly when the last is live. */
  lemma {:induction false} OnlyLastMayBeLiveCount(ws: seq<WorkerState>)
    requires OnlyLastMayBeLive(ws)
    ensures LiveCount(ws) == if ws != [] && ws[|ws| - 1] == Live then 1 else 0
  {
    if ws != [] {
      assert OnlyLastMayBeLive(ws[1..]) by {
        forall i | 0 <= i < |ws[1..]| - 1
          ensures ws[1..][i] != Live
        {
          assert ws[1..][i] == ws[i + 1];
        }
      }
      OnlyLastMayBeLiveCount(ws[1..]);
      if |ws| > 1 {
        assert ws[1..][|ws[1..]| - 1] == ws[|ws| - 1];
      }
    }
  }

  class ANRWatchdog {
    const application: ApplicationId
    var timeout: Int64
    var logLevel: Int32
    var callback: Option<CallbackId>
    var running: bool
    /** The worker last spawned, as an index into `workers`. */
    var thread: Option<nat>
    /** Every worker spawned so far, in order. */
    var workers: seq<WorkerState>
    var invocations: seq<Invocation>
    var logs: seq<LogRecord>

    /**
     * `thread` is the last worker spawned; no worker but the last is live;
     * and a live worker means the watchdog is running. (A worker that
     * died of a negative timeout leaves `running` set without a live worker.)
     */
    ghost predicate Valid()
      reads this
    {
      && (thread.None? <==> workers == [])
      && (thread.Some? ==> thread.value == |workers| - 1)
      && OnlyLastMayBeLive(workers)
      && (workers != [] && workers[|workers| - 1] == Live ==> running)
    }

    /** The private constructor: default timeout and log level, no callback, not running, no worker. */
    constructor (application: ApplicationId)
      ensures Valid()
      ensures this.application == application
      ensures timeout == DEFAULT_TIMEOUT && logLevel == INFO && callback == None
      ensures !running && thread == None && workers == []
      ensures invocations == [] && logs == []
    {
      this.application := application;
      timeout := DEFAULT_TIMEOUT;
      logLevel := INFO;
      callback := None;
      running := false;
      thread := None;
      workers := [];
      invocations := [];
      logs := [];
    }

    /** `setTimeout`: stores the value as given (zero and negative included) and returns the receiver. */
    method SetTimeout(timeout: Int64) returns (self: ANRWatchdog)
      requires Valid()
      modifies this`timeout
      ensures Valid()
      ensures self == this && this.timeout == timeout
    {
      this.timeout := timeout;
      self := this;
    }

    /** `setLogLevel`: stores the level as given and returns the receiver. */
    method SetLogLevel(level: Int32) returns (self: ANRWatchdog)
      requires Valid()
      modifies this`logLevel
      ensures Valid()
      ensures self == this && logLevel == level
    {
      logLevel := level;
      self := this;
    }

    /** `setCallback`: replaces the callback and returns the receiver. */
    method SetCallback(callback: CallbackId) returns (self: ANRWatchdog)
      requires Valid()
      modifies this`callback
      ensures Valid()
      ensures self == this && this.callback == Some(callback)
    {
      this.callback := Some(callback);
      self := this;
    }

    /**
     * `start`: nothing when already running; otherwise sets `running` and
     * spawns exactly one new worker, which becomes the current thread and the
     * only live worker.
     */
    method Start() returns (self: ANRWatchdog)
      requires Valid()
      modifies this`running, this`thread, this`workers
      ensures Valid()
      ensures self == this
      ensures old(running) ==> running && thread == old(thread) && workers == old(workers)
      ensures !old(running) ==> running && workers == old(workers) + [Live] && thread == Some(|old(workers)|)
      ensures LiveCount(workers) <= 1
    {
      if running {
        OnlyLastMayBeLiveCount(workers);
        return this;
      }
      running := true;
      workers := workers + [Live];
      thread := Some(|workers| - 1);
      OnlyLastMayBeLiveCount(workers);
      self := this;
    }

    /** `stop`: clears `running` and interrupts the current worker, if one was ever spawned. */
    method Stop()
      requires Valid()
      modifies this`running, this`workers
      ensures Valid()
      ensures !running
      ensures !old(running) ==> workers == old(workers)
      ensures old(thread).None? ==> workers == old(workers)
      ensures old(thread).Some? ==> workers == old(workers)[old(thread).value := InterruptWorker(old(workers)[old(thread).value])]
      ensures LiveCount(workers) == 0
    {
      running := false;
      if thread.Some? {
        var t := thread.value;
        workers := workers[t := InterruptWorker(workers[t])];
      }
      OnlyLastMayBeLiveCount(workers);
    }

    /**
     * One pass of live worker `w`'s loop: the sleep of `timeout` ms completes,
     * the current callback is invoked with the worker's thread, and a debug
     * record is logged when `logLevel <= DEBUG`. A negative timeout makes the
     * sleep throw an exception the loop does not catch: the worker dies and
     * `running` stays set.
     */
    method Tick(w: nat)
      requires Valid()
      requires w < |workers| && workers[w] == Live
      modifies this`workers, this`invocations, this`logs
      ensures Valid()
      ensures timeout >= 0 ==> && workers == old(workers)
                               && invocations == old(invocations) + TickInvocations(callback, w)
                               && logs == old(logs) + TickLog(logLevel)
      ensures timeout < 0 ==> && workers == old(workers)[w := Exited]
                              && invocations == old(invocations) && logs == old(logs)
    {
      if timeout < 0 {
        workers := workers[w := Exited];
      } else {
        invocations := invocations + TickInvocations(callback, w);
        logs := logs + TickLog(logLevel);
      }
    }

    /**
     * An interrupted worker `w` leaves its loop without invoking the callback:
     * its sleep throws `InterruptedException`, or it finds `running` cleared.
     */
    method ExitOnInterrupt(w: nat)
      requires Valid()
      requires w < |workers| && workers[w] == Interrupted
      modifies this`workers
      ensures Valid()
      ensures workers == old(workers)[w := Exited]
    {
      workers := workers[w := Exited];
    }
  }

  /** The companion object holding the single instance. */
  class Companion {
    var instance: ANRWatchdog?

    constructor ()
      ensures instance == null
    {
      instance := null;
    }

    /**
     * `initialize`: creates the instance for `application` on the first call;
     * every later call returns that same instance, its configuration untouched.
     */
    method Initialize(application: ApplicationId) returns (watchdog: ANRWatchdog)
      requires instance != null ==> instance.Valid()
      modifies this
      ensures instance == watchdog && watchdog.Valid()
      ensures old(instance) != null ==> watchdog == old(instance) && unchanged(watchdog)
      ensures old(instance) == null ==> && fresh(watchdog) && watchdog.application == application
                                        && watchdog.timeout == DEFAULT_TIMEOUT && watchdog.logLevel == INFO
                                        && watchdog.callback == None && !watchdog.running
                                        && watchdog.thread == None && watchdog.workers == []
                                        && watchdog.invocations == [] && watchdog.logs == []
    {
      if instance == null {
        instance := new ANRWatchdog(application);
      }
      watchdog := instance;
    }
  }
}
