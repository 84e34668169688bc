/**
 * Turning watchdog notifications into buffered events, and the watcher
 * thread's lifecycle (watchdog_handlers.py).
 *
 * The four `on_*` handlers and the guard of `_emit_event` are one pure
 * decision, `Normalize`; `MyHandler.Dispatch` acts on it. The callback is the
 * `Callback` value `Dispatch` returns: it exists exactly when the source
 * calls the callback, after the buffer append. The observer is an abstract
 * list of scheduled roots and `os.path.isdir` a given predicate; what
 * `run` does is recorded, in order, in the thread's `steps`.
 */
module WatchdogHandlers {
  import opened Wrappers
  import opened DbBuffer

  /** The four kinds of notification the handler reacts to. */
  datatype Kind = Created | Deleted | Modified | Moved

  /** The event_type strings the handlers pass on. */
  function KindName(k: Kind): string {
    match k
    case Created => "created"
    case Deleted => "deleted"
    case Modified => "modified"
    case Moved => "moved"
  }

  lemma KindNameInjective(a: Kind, b: Kind)
    ensures KindName(a) == KindName(b) ==> a == b
  {
  }

  /** MyHandler.COLOR_MAP. */
  const ColorMap: map<string, string> :=
    map["created" := "green", "deleted" := "red", "modified" := "blue", "moved" := "orange"]

  /** `COLOR_MAP.get(event_type, "black")`, the row colour of the event table. */
  function ColorOf(eventType: string): (color: string)
    ensures color == "black" <==> eventType !in ColorMap
    ensures color in ColorMap.Values || color == "black"
  {
    if eventType in ColorMap then ColorMap[eventType] else "black"
  }

  /**
   * COLOR_MAP covers exactly the four kinds, gives them four different
   * colours, and none of them is the fallback colour.
   */
  lemma ColorMapDistinct()
    ensures forall k: Kind :: KindName(k) in ColorMap
    ensures forall t :: t in ColorMap ==> exists k: Kind :: t == KindName(k)
    ensures forall a: Kind, b: Kind :: a != b ==> ColorOf(KindName(a)) != ColorOf(KindName(b))
    ensures forall k: Kind :: ColorOf(KindName(k)) != "black"
  {
    assert forall t :: t in ColorMap ==>
      (t == KindName(Created) || t == KindName(Deleted) || t == KindName(Modified) || t == KindName(Moved));
  }

  /** A raw notification: its kind, whether it concerns a directory, its paths. */
  datatype Notification = Notification(kind: Kind, isDirectory: bool, srcPath: string, destPath: string)

  /** The arguments a handler passes to `_emit_event`. */
  datatype Emission = Emission(eventType: string, path: string, destPath: Option<string>)

  /**
   * The `on_*` handlers followed by the guard of `_emit_event`: directory
   * notifications, an empty path and a type outside `events` yield nothing;
   * otherwise the event carries the kind's name and the source path, and a
   * destination exactly when it is a move (watchdog's `dest_path`, as is).
   */
  function Normalize(n: Notification, events: set<string>): (r: Option<Emission>)
    ensures r.Some? <==> !n.isDirectory && n.srcPath != "" && KindName(n.kind) in events
    ensures r.Some? ==> r.value.eventType == KindName(n.kind) && r.value.path == n.srcPath
    ensures r.Some? ==> r.value.destPath == if n.kind == Moved then Some(n.destPath) else None
  {
    if n.isDirectory then None
    else
      var em := match n.kind
        case Created => Emission("created", n.srcPath, None)
        case Deleted => Emission("deleted", n.srcPath, None)
        case Modified => Emission("modified", n.srcPath, None)
        case Moved => Emission("moved", n.srcPath, Some(n.destPath));
      if em.path == "" || em.eventType !in events then None else Some(em)
  }

  /** `dest_path or ""`: what the callback receives as destination. */
  function DestOrEmpty(d: Option<string>): string {
    match d
    case None => ""
    case Some(p) => p
  }

  /** The arguments of one callback: `(ts, event_type, path, dest)`. */
  datatype Callback = Callback(ts: string, eventType: string, path: string, dest: string)

  /** The tuple `_emit_event` appends to the buffer for an accepted emission. */
  function Buffered(ts: string, em: Emission): Event {
    Event(ts, em.eventType, em.path, em.destPath)
  }

  /**
   * The buffered event and the callback of one accepted notification agree
   * on timestamp, type and path; the callback's destination is the moved-to
   * path for a move and "" otherwise.
   */
  lemma CallbackAgreesWithBuffer(n: Notification, events: set<string>, ts: string)
    requires Normalize(n, events).Some?
    ensures var em := Normalize(n, events).value;
      var e := Buffered(ts, em);
      var c := Callback(ts, em.eventType, em.path, DestOrEmpty(em.destPath));
      && e.timestamp == c.ts && e.eventType == c.eventType && e.path == c.path
      && c.dest == (if n.kind == Moved then n.destPath else "")
      && (e.destPath.Some? <==> n.kind == Moved)
  {
  }

  /** MyHandler: the event filter, and the buffer `_emit_event` appends to. */
  class MyHandler {
    const events: set<string>
    const buf: DBBuffer

    constructor(events: set<string>, buf: DBBuffer)
      ensures this.events == events && this.buf == buf
    {
      this.events := events;
      this.buf := buf;
    }

    /**
     * One notification delivered to its `on_*` handler, stamped `ts`. A
     * dropped notification touches nothing. An accepted one makes exactly one
     * `add_event`; when that does not raise, exactly one callback follows.
     */
    method Dispatch(n: Notification, ts: string, insertFails: bool) returns (callback: Option<Callback>)
      requires buf.Valid()
      modifies buf
      ensures buf.Valid()
      ensures Normalize(n, events).None? ==>
        buf.Snapshot() == old(buf.Snapshot()) && buf.Added == old(buf.Added) && callback == None
      ensures Normalize(n, events).Some? ==>
        var em := Normalize(n, events).value;
        var step := AddStep(old(buf.Snapshot()), buf.bufferSize, Buffered(ts, em), insertFails);
        && buf.Snapshot() == step.0
        && buf.Added == old(buf.Added) + [Buffered(ts, em)]
        && callback == if step.1 == InsertFailed then None
                       else Some(Callback(ts, em.eventType, em.path, DestOrEmpty(em.destPath)))
    {
      var em := Normalize(n, events);
      if em.None? {
        return None;
      }
      var ok := buf.AddEvent(Buffered(ts, em.value), insertFails);
      if !ok {
        // add_event raised: the exception leaves the handler before the callback
        return None;
      }
      callback := Some(Callback(ts, em.value.eventType, em.value.path, DestOrEmpty(em.value.destPath)));
    }
  }

  /** The statuses `run` reports. */
  datatype Status = Skipped(path: string) | Active | Failed(error: string) | Stopped

  /** One thing `run` does, in the order it does them. */
  datatype RunStep =
    | Schedule(root: string, recursive: bool)
    | Report(status: Status)
    | StartObserver
    | StopObserver
    | JoinObserver
    | JoinUnstarted
    | FlushBuffer

  /** The lifecycle of the thread: before start(), in run's setup, waiting for stop(), done. */
  datatype Phase = NotStarted | Running | Waiting | Finished

  /** What the loop over the roots does with one root. */
  function RootStep(p: string, isDir: string -> bool): RunStep {
    if isDir(p) then Schedule(p, true) else Report(Skipped(p))
  }

  /** The loop over the roots, in order. */
  function SetupSteps(paths: seq<string>, isDir: string -> bool): seq<RunStep>
    decreases |paths|
  {
    if paths == [] then []
    else SetupSteps(paths[..|paths| - 1], isDir) + [RootStep(paths[|paths| - 1], isDir)]
  }

  /** The `finally` block: stop and join the observer, report, then flush. */
  const CleanupSteps: seq<RunStep> := [StopObserver, JoinObserver, Report(Stopped), FlushBuffer]

  /**
   * The `finally` block after `observer.start()` raised. watchdog starts the
   * observer's own thread only after its emitters started, so that thread
   * never started, and `join` on a thread that never started raises: the
   * "stopped" status and the flush are not reached.
   */
  const FailedCleanupSteps: seq<RunStep> := [StopObserver, JoinUnstarted]

  /**
   * All of `run`: the loop over the roots; then, if the observer starts,
   * the "active" status and (after stop()) the cleanup; if starting raises,
   * the error status and the cleanup that breaks off at `join`.
   */
  function RunSteps(paths: seq<string>, isDir: string -> bool, startError: Option<string>): seq<RunStep> {
    SetupSteps(paths, isDir)
      + if startError.None? then [StartObserver, Report(Active)] + CleanupSteps
        else [Report(Failed(startError.value))] + FailedCleanupSteps
  }

  /** The roots that satisfy `isDir`, in order. */
  function Dirs(paths: seq<string>, isDir: string -> bool): seq<string>
    decreases |paths|
  {
    if paths == [] then []
    else Dirs(paths[..|paths| - 1], isDir) + if isDir(paths[|paths| - 1]) then [paths[|paths| - 1]] else []
  }

  /** The roots that do not satisfy `isDir`, in order. */
  function NonDirs(paths: seq<string>, isDir: string -> bool): seq<string>
    decreases |paths|
  {
    if paths == [] then []
    else NonDirs(paths[..|paths| - 1], isDir) + if isDir(paths[|paths| - 1]) then [] else [paths[|paths| - 1]]
  }

  /** The roots a sequence of steps schedules, in order. */
  function ScheduledRoots(steps: seq<RunStep>): seq<string>
    decreases |steps|
  {
    if steps == [] then []
    else ScheduledRoots(steps[..|steps| - 1]) + if steps[|steps| - 1].Schedule? then [steps[|steps| - 1].root] else []
  }

  /** The roots a sequence of steps reports as skipped, in order. */
  function SkippedRoots(steps: seq<RunStep>): seq<string>
    decreases |steps|
  {
    if steps == [] then []
    else
      var s := steps[|steps| - 1];
      SkippedRoots(steps[..|steps| - 1]) + if s.Report? && s.status.Skipped? then [s.status.path] else []
  }

  lemma ScheduledRootsAppend(a: seq<RunStep>, b: seq<RunStep>)
    ensures ScheduledRoots(a + b) == ScheduledRoots(a) + ScheduledRoots(b)
    ensures SkippedRoots(a + b) == SkippedRoots(a) + SkippedRoots(b)
    decreases |b|
  {
    if b == [] {
      assert a + b == a;
    } else {
      assert (a + b)[..|a + b| - 1] == a + b[..|b| - 1];
      assert (a + b)[|a + b| - 1] == b[|b| - 1];
      ScheduledRootsAppend(a, b[..|b| - 1]);
    }
  }

  /**
   * The loop over the roots partitions them: it schedules exactly the
   * directories and reports exactly the other roots as skipped, each in the
   * order of `paths`, one step per root, every schedule recursive.
   */
  lemma {:induction false} SetupPartitions(paths: seq<string>, isDir: string -> bool)
    ensures |SetupSteps(paths, isDir)| == |paths|
    ensures ScheduledRoots(SetupSteps(paths, isDir)) == Dirs(paths, isDir)
    ensures SkippedRoots(SetupSteps(paths, isDir)) == NonDirs(paths, isDir)
    ensures forall i :: 0 <= i < |paths| ==> SetupSteps(paths, isDir)[i] == RootStep(paths[i], isDir)
    decreases |paths|
  {
    if paths != [] {
      var init := paths[..|paths| - 1];
      SetupPartitions(init, isDir);
      ScheduledRootsAppend(SetupSteps(init, isDir), [RootStep(paths[|paths| - 1], isDir)]);
      assert [RootStep(paths[|paths| - 1], isDir)][..0] == [];
      assert forall i :: 0 <= i < |init| ==> init[i] == paths[i];
    }
  }

  /** Steps that are neither schedules nor skip reports add no roots. */
  lemma {:induction false} NoRoots(steps: seq<RunStep>)
    requires forall i :: 0 <= i < |steps| ==> !steps[i].Schedule? && !(steps[i].Report? && steps[i].status.Skipped?)
    ensures ScheduledRoots(steps) == [] && SkippedRoots(steps) == []
    decreases |steps|
  {
    if steps != [] {
      NoRoots(steps[..|steps| - 1]);
    }
  }

  /**
   * When the observer starts, run ends with the observer stopped and joined,
   * then the "stopped" status, then the flush. When starting raises, the
   * error status is reported and run breaks off at `join`.
   */
  lemma RunEndsWithCleanup(paths: seq<string>, isDir: string -> bool, startError: Option<string>)
    ensures var steps := RunSteps(paths, isDir, startError);
      && (startError.None? ==> |steps| >= 4 && steps[|steps| - 4..] == CleanupSteps)
      && (startError.Some? ==>
            |steps| >= 3 && steps[|steps| - 3..] == [Report(Failed(startError.value))] + FailedCleanupSteps)
  {
    var setup := SetupSteps(paths, isDir);
    var steps := RunSteps(paths, isDir, startError);
    if startError.None? {
      assert steps == setup + [StartObserver, Report(Active), StopObserver, JoinObserver, Report(Stopped), FlushBuffer];
    } else {
      assert steps == setup + [Report(Failed(startError.value)), StopObserver, JoinUnstarted];
    }
  }

  /** The loop over the roots only schedules and reports skipped roots. */
  lemma SetupOnlyRoots(paths: seq<string>, isDir: string -> bool)
    ensures var setup := SetupSteps(paths, isDir);
      Report(Active) !in setup && Report(Stopped) !in setup && FlushBuffer !in setup
  {
    var setup := SetupSteps(paths, isDir);
    SetupPartitions(paths, isDir);
    assert forall i :: 0 <= i < |setup| ==> setup[i].Schedule? || setup[i].status.Skipped?;
  }

  /**
   * "active", "stopped" and the flush each happen in run exactly when the
   * observer started.
   */
  lemma RunReports(paths: seq<string>, isDir: string -> bool, startError: Option<string>)
    ensures var steps := RunSteps(paths, isDir, startError);
      && (Report(Active) in steps <==> startError.None?)
      && (Report(Stopped) in steps <==> startError.None?)
      && (FlushBuffer in steps <==> startError.None?)
  {
    SetupOnlyRoots(paths, isDir);
    var tail: seq<RunStep> := if startError.None? then [StartObserver, Report(Active)] + CleanupSteps
                           else [Report(Failed(startError.value))] + FailedCleanupSteps;
    assert RunSteps(paths, isDir, startError) == SetupSteps(paths, isDir) + tail;
  }

  /**
   * Over the whole of run, the scheduled roots are exactly the directories
   * and the skipped ones exactly the other roots, each in order.
   */
  lemma RunPartitions(paths: seq<string>, isDir: string -> bool, startError: Option<string>)
    ensures ScheduledRoots(RunSteps(paths, isDir, startError)) == Dirs(paths, isDir)
    ensures SkippedRoots(RunSteps(paths, isDir, startError)) == NonDirs(paths, isDir)
  {
    var setup := SetupSteps(paths, isDir);
    var mid: seq<RunStep> := if startError.None? then [StartObserver, Report(Active)] + CleanupSteps
                          else [Report(Failed(startError.value))] + FailedCleanupSteps;
    SetupPartitions(paths, isDir);
    ScheduledRootsAppend(setup, mid);
    NoRoots(mid);
  }

  /**
   * WatcherThread: the roots and filter it was given, the shared buffer, the
   * stop flag, the roots the observer currently watches (all recursive) and
   * what `run` has done so far. Stopping the observer unschedules every
   * watch (watchdog's observer does this when its thread stops).
   */
  class WatcherThread {
    const paths: seq<string>
    const events: set<string>
    const buf: DBBuffer
    var stopping: bool
    var phase: Phase
    var handler: MyHandler?
    var watches: seq<string>
    var steps: seq<RunStep>

    constructor(paths: seq<string>, events: set<string>, buf: DBBuffer)
      ensures this.paths == paths && this.events == events && this.buf == buf
      ensures !stopping && phase == NotStarted && handler == null && watches == [] && steps == []
    {
      this.paths := paths;
      this.events := events;
      this.buf := buf;
      stopping := false;
      phase := NotStarted;
      handler := null;
      watches := [];
      steps := [];
    }

    /** `is_alive()`: started and `run` not yet returned. */
    function IsAlive(): bool
      reads this
    {
      phase == Running || phase == Waiting
    }

    /** `start()`: the thread begins to run. */
    method Start()
      requires phase == NotStarted
      modifies this`phase
      ensures phase == Running
    {
      phase := Running;
    }

    /** `stop()`: sets the stop flag and does nothing else. */
    method Stop()
      modifies this`stopping
      ensures stopping
    {
      stopping := true;
    }

    /**
     * `run` up to its wait loop: make the handler with the thread's filter,
     * schedule every existing directory, report every other root as
     * skipped, start the observer and report "active". If starting the
     * observer raises (`startError`), report the error and run the cleanup,
     * whose `stop` unschedules everything and which breaks off at `join`
     * before the flush.
     */
    method RunSetup(isDir: string -> bool, startError: Option<string>)
      requires phase == Running
      modifies this`handler, this`watches, this`steps, this`phase
      ensures handler != null && fresh(handler) && handler.events == events && handler.buf == buf
      ensures startError.None? ==> watches == old(watches) + Dirs(paths, isDir)
      ensures startError.Some? ==> watches == []
      ensures startError.None? ==>
        && steps == old(steps) + SetupSteps(paths, isDir) + [StartObserver, Report(Active)]
        && phase == Waiting
      ensures startError.Some? ==>
        && steps == old(steps) + RunSteps(paths, isDir, startError)
        && phase == Finished
    {
      handler := new MyHandler(events, buf);
      var i := 0;
      while i < |paths|
        modifies this`watches, this`steps
        invariant 0 <= i <= |paths|
        invariant watches == old(watches) + Dirs(paths[..i], isDir)
        invariant steps == old(steps) + SetupSteps(paths[..i], isDir)
      {
        var p := paths[i];
        assert paths[..i + 1][..i] == paths[..i];
        if isDir(p) {
          watches := watches + [p];
          steps := steps + [Schedule(p, true)];
        } else {
          steps := steps + [Report(Skipped(p))];
        }
        i := i + 1;
      }
      assert paths[..i] == paths;
      if startError.None? {
        steps := steps + [StartObserver, Report(Active)];
        phase := Waiting;
      } else {
        steps := steps + [Report(Failed(startError.value))] + FailedCleanupSteps;
        watches := [];
        phase := Finished;
      }
    }

    /**
     * The rest of `run`, once stop() has been called: the wait loop ends and
     * the `finally` block stops the observer, which unschedules every watch,
     * joins it, reports "stopped", then flushes the buffer. If the flush
     * raises, the exception ends the thread; nothing comes after it either
     * way.
     */
    method RunCleanup(insertFails: bool)
      requires phase == Waiting && stopping && buf.Valid()
      modifies this`steps, this`phase, this`watches, buf
      ensures buf.Valid() && buf.Added == old(buf.Added)
      ensures watches == []
      ensures steps == old(steps) + CleanupSteps
      ensures phase == Finished
      ensures buf.Snapshot() == FlushStep(old(buf.Snapshot()), insertFails).0
    {
      steps := steps + [StopObserver];
      watches := [];
      steps := steps + [JoinObserver, Report(Stopped)];
      var _ := buf.Flush(insertFails);
      steps := steps + [FlushBuffer];
      phase := Finished;
    }
  }
}
