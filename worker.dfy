/** pkg/worker: runs a list of tasks, records on each task whether it is done and whether
    it failed, hands the tasks to a tracker that shows their progress, and writes the
    collected errors to a log file. The goroutines of the source are scheduled one after
    the other here: the tasks run in list order and the failures are collected in that
    order. Writing the log file is passed in as a function from path and content to the
    write error. */
module Worker {
  import opened Wrappers
  import opened GoStrings
  import opened Errors
  import FilePath
  import Seqs

  /** worker.Count once Run has reset a non-positive count to the number of CPUs. */
  function EffectiveCount(count: int, numCPU: int): (r: int)
    requires numCPU >= 1
    ensures r >= 1
    ensures count > 0 ==> r == count
    ensures count <= 0 ==> r == numCPU
  {
    if count <= 0 then numCPU else count
  }

  /** An Action: what running a task gave, from the task's name and value. */
  type Handler<-T> = (string, T) -> Option<Error>

  /** worker.Task: name, value and optional own action are set by the caller; `done` and
      `fail` are written only by Run. */
  class Task<T> {
    const name: string
    const value: T
    const action: Option<Handler<T>>
    var done: bool
    var fail: bool

    constructor (name: string, value: T, action: Option<Handler<T>>)
      ensures this.name == name && this.value == value && this.action == action
      ensures !done && !fail
    {
      this.name := name;
      this.value := value;
      this.action := action;
      done := false;
      fail := false;
    }
  }

  /** What running the task gives: its own action when it has one, the shared one
      otherwise. */
  function Outcome<T>(t: Task<T>, shared: Handler<T>): Option<Error> {
    var h := if t.action.Some? then t.action.value else shared;
    h(t.name, t.value)
  }

  /** taskError: the failing task's name and its error. */
  datatype TaskError = TaskError(name: string, err: Error)

  /** The errors Run collects, in task order. */
  function Failures<T>(tasks: seq<Task<T>>, shared: Handler<T>): seq<TaskError> {
    if tasks == [] then []
    else
      var init := Failures(tasks[..|tasks| - 1], shared);
      var t := tasks[|tasks| - 1];
      match Outcome(t, shared)
      case None => init
      case Some(e) => init + [TaskError(t.name, e)]
  }

  /** The number of tasks whose handler fails. */
  function FailedCount<T>(tasks: seq<Task<T>>, shared: Handler<T>): nat {
    if tasks == [] then 0
    else FailedCount(tasks[..|tasks| - 1], shared) + (if Outcome(tasks[|tasks| - 1], shared).Some? then 1 else 0)
  }

  /** The log file: LogPath, or temp/gitzombie/logs/<name> when LogPath is empty. */
  function LogFile(logPath: string, tempDir: string, name: string): (r: string)
    ensures r != ""
    ensures logPath != "" ==> r == logPath
    ensures logPath == "" ==> r == FilePath.JoinPath([tempDir, "gitzombie", "logs", name])
  {
    if logPath != "" then logPath
    else
      var elems := [tempDir, "gitzombie", "logs", name];
      assert elems[1] != "";
      FilePath.JoinPath(elems)
  }

  /** handleErrors' section for one error: a header naming the task and the error, the
      captured output when the error has `Out()`, and an empty line. */
  function Section(e: TaskError): string {
    "=> handle " + e.name + " failed: " + Message(e.err) + "\n"
    + (match Out(e.err) case Some(out) => out case None => "") + "\n"
  }

  /** The whole log handleErrors writes: the sections in order. */
  function Report(errs: seq<TaskError>): string {
    if errs == [] then "" else Report(errs[..|errs| - 1]) + Section(errs[|errs| - 1])
  }

  /** The error handleErrors returns once the log is written, or the traced write error. */
  function Outcry(name: string, n: nat, writeErr: Option<Error>): Error {
    match writeErr
    case Some(e) => Trace(e, "write log file")
    case None => Plain(name + " failed with " + Plural(n, "error"))
  }

  /** handleErrors */
  method HandleTaskErrors(name: string, logPath: string, tempDir: string, errs: seq<TaskError>,
                          writeFile: (string, string) -> Option<Error>) returns (r: Error)
    ensures r == Outcry(name, |errs|, writeFile(LogFile(logPath, tempDir, name), Report(errs)))
  {
    var sb := "";
    for i := 0 to |errs|
      invariant sb == Report(errs[..i])
    {
      assert errs[..i + 1][..i] == errs[..i];
      var err := errs[i];
      ghost var prev := sb;
      sb := sb + ("=> handle " + err.name + " failed: " + Message(err.err) + "\n");
      var out := Out(err.err);
      if out.Some? {
        sb := sb + out.value;
      }
      sb := sb + "\n";
      assert sb == prev + Section(err);
    }
    assert errs[..|errs|] == errs;
    var path := LogFile(logPath, tempDir, name);
    var writeErr := writeFile(path, sb);
    if writeErr.Some? {
      return Trace(writeErr.value, "write log file");
    }
    return Plain(name + " failed with " + Plural(|errs|, "error"));
  }

  // ---------------------------------------------------------------------------------------
  // jobTracker

  /** One line a render prints: a finished task with its number, or a running one. */
  datatype Line = DoneLine(n: int, name: string, failed: bool) | RunningLine(verb: string, name: string)

  /** What one render writes to the terminal: how many lines it moves the cursor up and
      erases, then the lines it prints. */
  datatype Frame = Frame(cursorUps: nat, lines: seq<Line>)

  /** "(<done>/<total>)" with the done counter left-padded to `width`. */
  function Counter(n: int, width: nat, total: int): string {
    "(" + PadLeft(Itoa(n), width) + "/" + Itoa(total) + ")"
  }

  /** The text of a line, colours left out. */
  function Show(l: Line, width: nat, total: int): string {
    match l
    case DoneLine(n, name, failed) =>
      Counter(n, width, total) + " " + name + (if failed then " failed\n" else " done\n")
    case RunningLine(verb, name) => verb + " " + name + "\n"
  }

  /** The lines for tasks that finish in order, the first being number start + 1. */
  function DoneLines<T>(ts: seq<Task<T>>, start: int): seq<Line>
    reads ts
  {
    if ts == [] then []
    else
      var t := ts[|ts| - 1];
      DoneLines(ts[..|ts| - 1], start) + [DoneLine(start + |ts|, t.name, t.fail)]
  }

  /** The lines for the tasks still running. */
  function RunningLines<T>(ts: seq<Task<T>>, verb: string): seq<Line> {
    if ts == [] then [] else RunningLines(ts[..|ts| - 1], verb) + [RunningLine(verb, ts[|ts| - 1].name)]
  }

  function Finished<T>(ts: seq<Task<T>>): seq<Task<T>>
    reads ts
  {
    if ts == [] then [] else Finished(ts[..|ts| - 1]) + (if ts[|ts| - 1].done then [ts[|ts| - 1]] else [])
  }

  function Unfinished<T>(ts: seq<Task<T>>): seq<Task<T>>
    reads ts
  {
    if ts == [] then [] else Unfinished(ts[..|ts| - 1]) + (if ts[|ts| - 1].done then [] else [ts[|ts| - 1]])
  }

  /** worker.jobTracker, the Tracker the worker reports to. */
  class JobTracker<T> {
    var running: seq<Task<T>>
    var lastRunningCount: int
    var total: int
    /** The width of the done counter: the number of digits of total. */
    var width: nat
    var done: int
    const verb: string

    /** NewJobTracker */
    constructor (verb: string)
      ensures running == [] && lastRunningCount == 0 && total == 0 && width == 0 && done == 0
      ensures this.verb == verb
    {
      running := [];
      lastRunningCount := 0;
      total := 0;
      width := 0;
      done := 0;
      this.verb := verb;
    }

    /** Render, without the goroutine that calls Tick every 250 milliseconds. */
    method Render(total: int)
      modifies this
      ensures this.total == total && width == |Itoa(total)|
      ensures running == old(running) && lastRunningCount == old(lastRunningCount) && done == old(done)
    {
      this.total := total;
      width := |Itoa(total)|;
    }

    method Add(task: Task<T>)
      modifies this
      ensures running == old(running) + [task]
      ensures lastRunningCount == old(lastRunningCount) && total == old(total)
      ensures width == old(width) && done == old(done)
    {
      running := running + [task];
    }

    /** One tick of the render goroutine: render, then whether the goroutine stops. */
    method Tick() returns (frame: Frame, stop: bool)
      modifies this
      ensures running == old(Unfinished(running))
      ensures done == old(done + |Finished(running)|)
      ensures lastRunningCount == |running|
      ensures frame.cursorUps == if old(lastRunningCount) > 0 then old(lastRunningCount) else 0
      ensures frame.lines == old(DoneLines(Finished(running), done)) + RunningLines(running, verb)
      ensures stop <==> done >= total
      ensures total == old(total) && width == old(width)
    {
      var dones, still := SplitDone(running);
      var doneLines := NumberDone(dones, done);
      var runningLines := ListRunning(still, verb);
      assert doneLines == old(DoneLines(Finished(running), done));
      running := still;

      var ups := 0;
      ghost var before := lastRunningCount;
      while lastRunningCount > 0
        invariant ups + (if lastRunningCount > 0 then lastRunningCount else 0) == if before > 0 then before else 0
        invariant running == still && done == old(done) && total == old(total) && width == old(width)
        decreases lastRunningCount
      {
        ups := ups + 1;
        lastRunningCount := lastRunningCount - 1;
      }
      lastRunningCount := |running|;
      done := done + |dones|;
      frame := Frame(ups, doneLines + runningLines);
      stop := done >= total;
      assert runningLines == RunningLines(running, verb);
    }
  }

  /** The first loop of render: the done tasks and the others, each in list order. */
  method SplitDone<T>(ts: seq<Task<T>>) returns (dones: seq<Task<T>>, still: seq<Task<T>>)
    ensures dones == Finished(ts) && still == Unfinished(ts)
  {
    dones := [];
    still := [];
    for i := 0 to |ts|
      invariant dones == Finished(ts[..i]) && still == Unfinished(ts[..i])
    {
      assert ts[..i + 1][..i] == ts[..i];
      if ts[i].done {
        dones := dones + [ts[i]];
      } else {
        still := still + [ts[i]];
      }
    }
    assert ts[..|ts|] == ts;
  }

  /** The loop of render over the done tasks: one numbered line each, the counter starting
      after `start`. */
  method NumberDone<T>(dones: seq<Task<T>>, start: int) returns (lines: seq<Line>)
    ensures lines == DoneLines(dones, start)
  {
    var done := start;
    lines := [];
    for i := 0 to |dones|
      invariant done == start + i
      invariant lines == DoneLines(dones[..i], start)
    {
      assert dones[..i + 1][..i] == dones[..i];
      done := done + 1;
      lines := lines + [DoneLine(done, dones[i].name, dones[i].fail)];
    }
    assert dones[..|dones|] == dones;
  }

  /** The loop of render over the running tasks: the verb and the task's name. */
  method ListRunning<T>(ts: seq<Task<T>>, verb: string) returns (lines: seq<Line>)
    ensures lines == RunningLines(ts, verb)
  {
    lines := [];
    for i := 0 to |ts|
      invariant lines == RunningLines(ts[..i], verb)
    {
      assert ts[..i + 1][..i] == ts[..i];
      lines := lines + [RunningLine(verb, ts[i].name)];
    }
    assert ts[..|ts|] == ts;
  }

  // ---------------------------------------------------------------------------------------
  // Worker

  class Worker<T> {
    const name: string
    const tasks: seq<Task<T>>
    const tracker: JobTracker<T>
    const logPath: string

    constructor (name: string, tasks: seq<Task<T>>, tracker: JobTracker<T>, logPath: string)
      ensures this.name == name && this.tasks == tasks && this.tracker == tracker && this.logPath == logPath
    {
      this.name := name;
      this.tasks := tasks;
      this.tracker := tracker;
      this.logPath := logPath;
    }

    /** Run: every task is handed to the tracker and run with its own action or the shared
        one; afterwards every task is done and has failed exactly when its run failed; with
        failures, the log is written and the error names how many there were. The render
        ticks are left to JobTracker.Tick. */
    method Run(shared: Handler<T>, tempDir: string, writeFile: (string, string) -> Option<Error>)
      returns (r: Option<Error>)
      modifies tasks, tracker
      ensures forall t :: t in tasks ==> t.done && (t.fail <==> old(t.fail) || Outcome(t, shared).Some?)
      ensures tracker.running == old(tracker.running) + tasks
      ensures tracker.total == |tasks| && tracker.width == |Itoa(|tasks|)|
      ensures tracker.done == old(tracker.done) && tracker.lastRunningCount == old(tracker.lastRunningCount)
      ensures r.None? <==> Failures(tasks, shared) == []
      ensures r.Some? ==>
        var errs := Failures(tasks, shared);
        r.value == Outcry(name, |errs|, writeFile(LogFile(logPath, tempDir, name), Report(errs)))
    {
      tracker.Render(|tasks|);
      var errs: seq<TaskError> := [];
      for i := 0 to |tasks|
        invariant errs == Failures(tasks[..i], shared)
        invariant tracker.running == old(tracker.running) + tasks[..i]
        invariant tracker.total == |tasks| && tracker.width == |Itoa(|tasks|)|
        invariant tracker.done == old(tracker.done) && tracker.lastRunningCount == old(tracker.lastRunningCount)
        invariant forall t :: t in tasks[..i] ==> t.done && (t.fail <==> old(t.fail) || Outcome(t, shared).Some?)
        invariant forall t :: t in tasks && t !in tasks[..i] ==> t.done == old(t.done) && t.fail == old(t.fail)
      {
        var task := tasks[i];
        assert tasks[..i + 1] == tasks[..i] + [task];
        var err := RunTask(task, shared);
        if err.Some? {
          errs := errs + [TaskError(task.name, err.value)];
        }
      }
      assert tasks[..|tasks|] == tasks;
      if |errs| > 0 {
        var e := HandleTaskErrors(name, logPath, tempDir, errs, writeFile);
        return Some(e);
      }
      return None;
    }

    /** One turn of Run's loop: the task joins the tracker's running list and runs with its
        own action or the shared one; it is then done, and failed if it was or its run
        failed. */
    method RunTask(task: Task<T>, shared: Handler<T>) returns (err: Option<Error>)
      modifies task, tracker
      ensures err == Outcome(task, shared)
      ensures task.done && (task.fail <==> old(task.fail) || err.Some?)
      ensures tracker.running == old(tracker.running) + [task]
      ensures tracker.total == old(tracker.total) && tracker.width == old(tracker.width)
      ensures tracker.done == old(tracker.done) && tracker.lastRunningCount == old(tracker.lastRunningCount)
    {
      var h := shared;
      if task.action.Some? {
        h := task.action.value;
      }
      tracker.Add(task);
      err := h(task.name, task.value);
      if err.Some? {
        task.fail := true;
      }
      task.done := true;
    }
  }

  // ---------------------------------------------------------------------------------------
  // errors.go: the log of a list of plain errors

  /** ErrorHandler: the name of the log, its path (empty for the default) and the header and
      content written for the error at each index. */
  datatype ErrorHandler = ErrorHandler(name: string, logPath: string,
                                       header: (int, Error) -> string, content: (int, Error) -> string)

  /** HandleErrors' section for the error at index idx. */
  function HandlerSection(h: ErrorHandler, idx: int, e: Error): string {
    "==================== " + h.header(idx, e) + " ====================\n" + h.content(idx, e) + "\n\n"
  }

  /** The log HandleErrors writes for errs[..n]. */
  function HandlerReport(h: ErrorHandler, errs: seq<Error>): string {
    if errs == [] then ""
    else HandlerReport(h, errs[..|errs| - 1]) + HandlerSection(h, |errs| - 1, errs[|errs| - 1])
  }

  /** HandleErrors as written: whatever the handler's name, the error says "workflow". */
  method HandleErrorsAsWritten(errs: seq<Error>, h: ErrorHandler, tempDir: string,
                               writeFile: (string, string) -> Option<Error>) returns (r: Error)
    ensures r == Outcry("workflow", |errs|, writeFile(LogFile(h.logPath, tempDir, h.name), HandlerReport(h, errs)))
  {
    var content := WriteHandlerLog(errs, h);
    var writeErr := writeFile(LogFile(h.logPath, tempDir, h.name), content);
    if writeErr.Some? {
      return Trace(writeErr.value, "write log file");
    }
    var name := "workflow";
    return Plain(name + " failed with " + Plural(|errs|, "error"));
  }

  /** HandleErrors with the error naming the handler, as handleErrors does with the
      worker's name. */
  method HandleErrors(errs: seq<Error>, h: ErrorHandler, tempDir: string,
                      writeFile: (string, string) -> Option<Error>) returns (r: Error)
    ensures r == Outcry(h.name, |errs|, writeFile(LogFile(h.logPath, tempDir, h.name), HandlerReport(h, errs)))
  {
    var content := WriteHandlerLog(errs, h);
    var writeErr := writeFile(LogFile(h.logPath, tempDir, h.name), content);
    if writeErr.Some? {
      return Trace(writeErr.value, "write log file");
    }
    return Plain(h.name + " failed with " + Plural(|errs|, "error"));
  }

  /** The loop of HandleErrors that fills the string builder. */
  method WriteHandlerLog(errs: seq<Error>, h: ErrorHandler) returns (sb: string)
    ensures sb == HandlerReport(h, errs)
  {
    sb := "";
    for idx := 0 to |errs|
      invariant sb == HandlerReport(h, errs[..idx])
    {
      assert errs[..idx + 1][..idx] == errs[..idx];
      var header := h.header(idx, errs[idx]);
      var content := h.content(idx, errs[idx]);
      header := "==================== " + header + " ====================";
      sb := sb + (header + "\n");
      sb := sb + content;
      sb := sb + "\n\n";
    }
    assert errs[..|errs|] == errs;
  }

  /** GitHeader: the quoted command and its cause for a git error, the index otherwise. */
  function GitHeader(idx: int, e: Error): (r: string)
    ensures e.Exec? ==> r == "command " + Quote(e.cmd) + " failed: " + Message(e.cause)
    ensures !e.Exec? ==> r == Itoa(idx) + " git command failed: " + Message(e)
  {
    match e
    case Exec(_, cause, cmd, _) => "command " + Quote(cmd) + " failed: " + Message(cause)
    case _ => Itoa(idx) + " git command failed: " + Message(e)
  }

  /** GitContent: a git error's stderr, nothing for any other error. */
  function GitContent(idx: int, e: Error): (r: string)
    ensures e.Exec? ==> r == e.stderr
    ensures !e.Exec? ==> r == ""
  {
    if e.Exec? then e.stderr else ""
  }

  // ---------------------------------------------------------------------------------------
  // Properties

  /** The collected errors are exactly the failing tasks: one per failure, so their number
      is the number of failing tasks. */
  lemma {:induction false} FailuresCount<T>(tasks: seq<Task<T>>, shared: Handler<T>)
    ensures |Failures(tasks, shared)| == FailedCount(tasks, shared)
  {
    if tasks != [] {
      FailuresCount(tasks[..|tasks| - 1], shared);
    }
  }

  /** No error is collected exactly when no task fails. */
  lemma {:induction false} NoFailures<T>(tasks: seq<Task<T>>, shared: Handler<T>)
    ensures Failures(tasks, shared) == [] <==> forall i :: 0 <= i < |tasks| ==> Outcome(tasks[i], shared).None?
  {
    if tasks != [] {
      var init := tasks[..|tasks| - 1];
      NoFailures(init, shared);
      assert forall i :: 0 <= i < |init| ==> init[i] == tasks[i];
      FailuresCount(init, shared);
    }
  }

  /** Every collected error comes from a failing task with that name, and every failing
      task's error is collected. */
  lemma {:induction false} FailuresAreOutcomes<T>(tasks: seq<Task<T>>, shared: Handler<T>)
    ensures forall e :: e in Failures(tasks, shared) ==>
      exists i :: 0 <= i < |tasks| && tasks[i].name == e.name && Outcome(tasks[i], shared) == Some(e.err)
    ensures forall i :: 0 <= i < |tasks| && Outcome(tasks[i], shared).Some? ==>
      TaskError(tasks[i].name, Outcome(tasks[i], shared).value) in Failures(tasks, shared)
  {
    if tasks != [] {
      var init := tasks[..|tasks| - 1];
      FailuresAreOutcomes(init, shared);
      assert forall i :: 0 <= i < |init| ==> init[i] == tasks[i];
    }
  }

  /** The log of two runs of failures is the log of the first followed by the log of the
      second: the sections appear in the order of the errors. */
  lemma {:induction false} ReportAppend(a: seq<TaskError>, b: seq<TaskError>)
    ensures Report(a + b) == Report(a) + Report(b)
    decreases |b|
  {
    if b != [] {
      var b' := b[..|b| - 1];
      var e := b[|b| - 1];
      assert a + b == (a + b') + [e] && b == b' + [e];
      ReportAppend(a, b');
      ReportSnoc(a + b', e);
      ReportSnoc(b', e);
      Seqs.AppendAssoc(Report(a), Report(b'), Section(e));
    } else {
      assert a + b == a;
    }
  }

  lemma ReportSnoc(errs: seq<TaskError>, e: TaskError)
    ensures Report(errs + [e]) == Report(errs) + Section(e)
  {
    assert (errs + [e])[..|errs|] == errs;
  }

  /** A lone error's log: the handle header, its output when it has one, an empty line. */
  lemma ReportSingle(e: TaskError)
    ensures var header := "=> handle " + e.name + " failed: " + Message(e.err) + "\n";
      Report([e]) == header + (if Out(e.err).Some? then Out(e.err).value else "") + "\n"
  {
    assert [e][..0] == [];
  }

  /** The log is empty exactly when there are no errors. */
  lemma ReportEmpty(errs: seq<TaskError>)
    ensures Report(errs) == "" <==> errs == []
  {
    if errs != [] {
      assert |Section(errs[|errs| - 1])| > 0;
    }
  }

  /** A default log file lies in gitzombie/logs under the temporary directory. */
  lemma DefaultLogFile(tempDir: string, name: string)
    requires FilePath.Plain(tempDir) && FilePath.Plain(name)
    ensures LogFile("", tempDir, name) == tempDir + "/gitzombie/logs/" + name
  {
    var front := [tempDir, "gitzombie", "logs"];
    var elems := front + [name];
    assert elems == [tempDir, "gitzombie", "logs", name];
    assert FilePath.Plain("gitzombie") && FilePath.Plain("logs");
    FilePath.JoinPlain(elems);
    assert [FilePath.Separator] == "/";
    JoinSnoc(front, name, "/");
    assert front == [tempDir, "gitzombie"] + ["logs"];
    JoinSnoc([tempDir, "gitzombie"], "logs", "/");
    assert [tempDir, "gitzombie"] == [tempDir] + ["gitzombie"];
    JoinSnoc([tempDir], "gitzombie", "/");
    JoinSingle([tempDir], "/");
    LogsDir(tempDir, name);
  }

  lemma LogsDir(tempDir: string, name: string)
    ensures tempDir + "/" + "gitzombie" + "/" + "logs" + "/" + name == tempDir + "/gitzombie/logs/" + name
  {
    assert "/" + "gitzombie" + "/" + "logs" + "/" == "/gitzombie/logs/";
  }

  /** A render after every running task is done prints every one of them, leaves nothing
      running and stops once the counter reaches the total. */
  lemma {:induction false} FinishedAll<T>(ts: seq<Task<T>>)
    requires forall i :: 0 <= i < |ts| ==> ts[i].done
    ensures Finished(ts) == ts && Unfinished(ts) == []
  {
    if ts != [] {
      FinishedAll(ts[..|ts| - 1]);
      assert ts[..|ts| - 1] + [ts[|ts| - 1]] == ts;
    }
  }

  /** A render keeps every task: the finished ones and the running ones together are as
      many as before. */
  lemma {:induction false} SplitCounts<T>(ts: seq<Task<T>>)
    ensures |Finished(ts)| + |Unfinished(ts)| == |ts|
    ensures forall t :: t in Finished(ts) ==> t in ts && t.done
    ensures forall t :: t in Unfinished(ts) ==> t in ts && !t.done
  {
    if ts != [] {
      SplitCounts(ts[..|ts| - 1]);
    }
  }

  /** The done lines number the finished tasks consecutively from start + 1, each with the
      task's name and whether it failed. */
  lemma {:induction false} DoneLinesNumbered<T>(ts: seq<Task<T>>, start: int)
    ensures |DoneLines(ts, start)| == |ts|
    ensures forall k :: 0 <= k < |ts| ==> DoneLines(ts, start)[k] == DoneLine(start + k + 1, ts[k].name, ts[k].fail)
  {
    if ts != [] {
      var init := ts[..|ts| - 1];
      DoneLinesNumbered(init, start);
      assert forall k :: 0 <= k < |init| ==> init[k] == ts[k];
    }
  }

  /** The handler's log of two runs of errors is the log of the first followed by the
      sections of the second, numbered on from where the first stopped. */
  lemma {:induction false} HandlerReportSnoc(h: ErrorHandler, errs: seq<Error>, e: Error)
    ensures HandlerReport(h, errs + [e]) == HandlerReport(h, errs) + HandlerSection(h, |errs|, e)
  {
    assert (errs + [e])[..|errs|] == errs;
  }

  /** Every error gets its section at its own index: the log of errs[..k+1] extends the log
      of errs[..k] by the section of errs[k]. */
  lemma {:induction false} HandlerReportPrefix(h: ErrorHandler, errs: seq<Error>, k: nat)
    requires k <= |errs|
    ensures HasPrefix(HandlerReport(h, errs), HandlerReport(h, errs[..k]))
    decreases |errs| - k
  {
    if k < |errs| {
      HandlerReportPrefix(h, errs, k + 1);
      assert errs[..k + 1] == errs[..k] + [errs[k]];
      HandlerReportSnoc(h, errs[..k], errs[k]);
    } else {
      assert errs[..k] == errs;
    }
  }

  /** With the git handler, a failed git command's section shows the command and its
      stderr. */
  lemma GitSection(name: string, logPath: string, idx: int, e: Error)
    requires e.Exec?
    ensures HandlerSection(ErrorHandler(name, logPath, GitHeader, GitContent), idx, e)
      == "==================== command " + Quote(e.cmd) + " failed: " + Message(e.cause)
         + " ====================\n" + e.stderr + "\n\n"
  {
  }

  /** HandleErrors as written names "workflow" even for a handler named otherwise, such as
      the "import" handler repository import uses: once the log is written, the error it
      returns differs from the one naming the handler. */
  lemma HandleErrorsNamesWorkflow(n: nat)
    ensures Outcry("workflow", n, None) != Outcry("import", n, None)
  {
    var w := Outcry("workflow", n, None);
    var c := Outcry("import", n, None);
    assert w.msg == "workflow" + " failed with " + Plural(n, "error");
    assert c.msg == "import" + " failed with " + Plural(n, "error");
    assert w.msg[0] == 'w' && c.msg[0] == 'i';
  }
}
