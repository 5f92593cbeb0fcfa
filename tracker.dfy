/** pkg/tracker: a progress display for named tasks. Tasks are started and finished by
    name; each render prints the tasks that finished since the last render, numbered on
    from the done counter, and the ones still running. The task records are private to
    the tracker, so they are kept as values in its list. The render goroutine and its
    ticker are left to the caller: Tick is one render. */
module Tracker {
  import opened GoStrings
  import opened Seqs

  datatype TrackedTask = TrackedTask(name: string, done: bool, fail: bool)

  /** One line a render prints: a finished task with its number, or a running one. */
  datatype Line = DoneLine(n: int, name: string, failed: bool) | RunningLine(verb: string, name: string)

  /** What one render writes: the number of lines it moves up over and erases, then the
      lines. */
  datatype Frame = Frame(cursorUps: nat, lines: seq<Line>)

  predicate IsDone(t: TrackedTask) { t.done }

  predicate IsRunning(t: TrackedTask) { !t.done }

  /** The text of a line with its colour markup: the counter is "(<n>/<total>)" with n
      left-padded to the width. */
  function Show(l: Line, width: nat, total: int): string {
    match l
    case DoneLine(n, name, failed) =>
      var counter := "(" + PadLeft(Itoa(n), width) + "/" + Itoa(total) + ")";
      if failed then "red|" + counter + "| " + name + " failed\n"
      else "green|" + counter + "| " + name + " done\n"
    case RunningLine(verb, name) => "yellow|" + verb + "| " + name + "\n"
  }

  /** The lines for tasks that finish in order, the first being number start + 1. */
  function DoneLines(ts: seq<TrackedTask>, start: int): seq<Line> {
    if ts == [] then []
    else
      var t := ts[|ts| - 1];
      DoneLines(ts[..|ts| - 1], start) + [DoneLine(start + |ts|, t.name, t.fail)]
  }

  function RunningLines(ts: seq<TrackedTask>, verb: string): seq<Line> {
    if ts == [] then [] else RunningLines(ts[..|ts| - 1], verb) + [RunningLine(verb, ts[|ts| - 1].name)]
  }

  /** The index of the first task with that name, or -1. */
  function FirstNamed(ts: seq<TrackedTask>, name: string): (i: int)
    ensures -1 <= i < |ts|
    ensures i >= 0 ==> ts[i].name == name && forall k :: 0 <= k < i ==> ts[k].name != name
    ensures i < 0 ==> forall k :: 0 <= k < |ts| ==> ts[k].name != name
  {
    if ts == [] then -1
    else if ts[0].name == name then 0
    else
      var j := FirstNamed(ts[1..], name);
      if j < 0 then -1 else j + 1
  }

  class Tracker {
    var running: seq<TrackedTask>
    var lastRunningCount: int
    /** The width of the done counter: the number of digits of total. */
    const width: nat
    var done: int
    const total: int
    const verb: string

    /** New */
    constructor (verb: string, total: int)
      ensures this.total == total && width == |Itoa(total)| && this.verb == verb
      ensures running == [] && lastRunningCount == 0 && done == 0
    {
      this.total := total;
      width := |Itoa(total)|;
      this.verb := verb;
      running := [];
      lastRunningCount := 0;
      done := 0;
    }

    method Start(name: string)
      modifies this
      ensures running == old(running) + [TrackedTask(name, false, false)]
      ensures lastRunningCount == old(lastRunningCount) && done == old(done)
    {
      running := running + [TrackedTask(name, false, false)];
    }

    /** Done: the first running task with that name is marked done, failed when !ok;
        without one nothing changes. */
    method Done(name: string, ok: bool)
      modifies this
      ensures var i := FirstNamed(old(running), name);
        running == if i < 0 then old(running) else old(running)[i := TrackedTask(name, true, !ok)]
      ensures lastRunningCount == old(lastRunningCount) && done == old(done)
    {
      for i := 0 to |running|
        invariant forall k :: 0 <= k < i ==> running[k].name != name
      {
        if running[i].name == name {
          assert FirstNamed(running, name) == i;
          running := running[i := running[i].(done := true, fail := !ok)];
          return;
        }
      }
    }

    /** One tick of the render goroutine: render, then whether the goroutine stops. */
    method Tick() returns (frame: Frame, stop: bool)
      modifies this
      ensures running == Filter(old(running), IsRunning)
      ensures done == old(done) + |Filter(old(running), IsDone)|
      ensures lastRunningCount == |running|
      ensures frame.cursorUps == if old(lastRunningCount) > 0 then old(lastRunningCount) else 0
      ensures frame.lines == DoneLines(Filter(old(running), IsDone), old(done)) + RunningLines(running, verb)
      ensures stop <==> done >= total
    {
      var dones := FilterDone(running);
      var still := FilterRunning(running);
      running := still;

      var ups := 0;
      ghost var before := lastRunningCount;
      while lastRunningCount > 0
        invariant ups + (if lastRunningCount > 0 then lastRunningCount else 0) == if before > 0 then before else 0
        invariant running == still && done == old(done)
        decreases lastRunningCount
      {
        ups := ups + 1;
        lastRunningCount := lastRunningCount - 1;
      }
      lastRunningCount := |running|;

      var lines := NumberDone(dones, done);
      done := done + |dones|;
      var runningLines := ListRunning(running, verb);
      frame := Frame(ups, lines + runningLines);
      stop := done >= total;
    }
  }

  /** The first loop of render, collecting the done tasks. */
  method FilterDone(ts: seq<TrackedTask>) returns (dones: seq<TrackedTask>)
    ensures dones == Filter(ts, IsDone)
  {
    dones := [];
    for i := 0 to |ts|
      invariant dones == Filter(ts[..i], IsDone)
    {
      FilterPrefixStep(ts, i, IsDone);
      if ts[i].done {
        dones := dones + [ts[i]];
      }
    }
    assert ts[..|ts|] == ts;
  }

  /** The first loop of render, keeping the running tasks. */
  method FilterRunning(ts: seq<TrackedTask>) returns (still: seq<TrackedTask>)
    ensures still == Filter(ts, IsRunning)
  {
    still := [];
    for i := 0 to |ts|
      invariant still == Filter(ts[..i], IsRunning)
    {
      FilterPrefixStep(ts, i, IsRunning);
      if !ts[i].done {
        still := still + [ts[i]];
      }
    }
    assert ts[..|ts|] == ts;
  }

  /** The loop of render over the done tasks, advancing the counter once per task. */
  method NumberDone(dones: seq<TrackedTask>, start: int) returns (lines: seq<Line>)
    ensures lines == DoneLines(dones, start)
  {
    var done := start;
    lines := [];
    for i := 0 to |dones|
      invariant done == start + i
      invariant lines == DoneLines(dones[..i], start)
    {
      assert dones[..i + 1][..i] == dones[..i];
      done := done + 1;
      lines := lines + [DoneLine(done, dones[i].name, dones[i].fail)];
    }
    assert dones[..|dones|] == dones;
  }

  method ListRunning(ts: seq<TrackedTask>, verb: string) returns (lines: seq<Line>)
    ensures lines == RunningLines(ts, verb)
  {
    lines := [];
    for i := 0 to |ts|
      invariant lines == RunningLines(ts[..i], verb)
    {
      assert ts[..i + 1][..i] == ts[..i];
      lines := lines + [RunningLine(verb, ts[i].name)];
    }
    assert ts[..|ts|] == ts;
  }

  // ---------------------------------------------------------------------------------------

  /** A render keeps every task it does not print as done: the done ones and the running
      ones together are the list. */
  lemma {:induction false} RenderKeepsCount(ts: seq<TrackedTask>)
    ensures |Filter(ts, IsDone)| + |Filter(ts, IsRunning)| == |ts|
  {
    if ts != [] {
      RenderKeepsCount(ts[..|ts| - 1]);
    }
  }

  /** The done lines number the finished tasks consecutively from start + 1, each with the
      task's name and whether it failed. */
  lemma {:induction false} DoneLinesNumbered(ts: seq<TrackedTask>, start: int)
    ensures |DoneLines(ts, start)| == |ts|
    ensures forall k :: 0 <= k < |ts| ==> DoneLines(ts, start)[k] == DoneLine(start + k + 1, ts[k].name, ts[k].fail)
  {
    if ts != [] {
      var init := ts[..|ts| - 1];
      DoneLinesNumbered(init, start);
      assert forall k :: 0 <= k < |init| ==> init[k] == ts[k];
    }
  }

  /** Finishing a task by name never changes which tasks there are or their order: only the
      first one so named becomes done. */
  lemma DoneMarksFirst(ts: seq<TrackedTask>, name: string, ok: bool, k: int)
    requires FirstNamed(ts, name) >= 0 && 0 <= k < |ts|
    ensures var i := FirstNamed(ts, name);
      var after := ts[i := TrackedTask(name, true, !ok)];
      |after| == |ts| && after[k].name == ts[k].name
      && (k != i ==> after[k] == ts[k])
      && (after[k].done <==> ts[k].done || k == i)
  {
  }

  /** Once every started task has finished and the counter covers the total, the next
      render leaves nothing running and stops. */
  lemma {:induction false} AllDoneDrains(ts: seq<TrackedTask>)
    requires forall k :: 0 <= k < |ts| ==> ts[k].done
    ensures Filter(ts, IsRunning) == [] && Filter(ts, IsDone) == ts
  {
    if ts != [] {
      AllDoneDrains(ts[..|ts| - 1]);
      assert ts[..|ts| - 1] + [ts[|ts| - 1]] == ts;
    }
  }
}
