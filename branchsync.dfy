/** cmd/gitops/branch/sync.go: the "sync branch" command. syncCreateTasks walks the local
    branches, fixes the backup and current branch and plans one git command per branch that
    is ahead of, behind or deleted on its remote; Run checks out each task's branch when it is
    not the current one, runs the task's command, and ends on the backup branch. A git call's
    error is given by a runner parameter. */
module BranchSync {
  import opened Wrappers
  import opened Errors
  import opened Seqs
  import opened GitBranch
  import GitCommands

  /** What a task does, for its line in the listing. */
  datatype Kind = Push | Pull | Delete

  /** A task's description: its kind and the branch it is about. */
  datatype Desc = Desc(kind: Kind, name: string)

  /** The description line as printed. */
  function Text(d: Desc): string {
    var verb := match d.kind
      case Push => "green|push|  "
      case Pull => "green|pull|  "
      case Delete => "red|delete|";
    "  * " + verb + " " + d.name
  }

  /** syncTask: the branch the command runs on, the command, the description. */
  datatype SyncTask = SyncTask(branch: string, cmd: seq<string>, desc: Desc)

  // ---------------------------------------------------------------------------------------
  // What a sequence of git calls does, when every checkout succeeds

  predicate IsCheckout(c: seq<string>) {
    |c| == 2 && c[0] == "checkout"
  }

  /** The branch checked out after the calls, starting on cur. */
  function BranchAfter(calls: seq<seq<string>>, cur: string): string
    decreases |calls|
  {
    if calls == [] then cur
    else BranchAfter(calls[1..], if IsCheckout(calls[0]) then calls[0][1] else cur)
  }

  /** The calls that are not checkouts, each with the branch it runs on. */
  function Effect(calls: seq<seq<string>>, cur: string): seq<(string, seq<string>)>
    decreases |calls|
  {
    if calls == [] then []
    else if IsCheckout(calls[0]) then Effect(calls[1..], calls[0][1])
    else [(cur, calls[0])] + Effect(calls[1..], cur)
  }

  lemma {:induction false} EffectAppend(a: seq<seq<string>>, b: seq<seq<string>>, cur: string)
    ensures Effect(a + b, cur) == Effect(a, cur) + Effect(b, BranchAfter(a, cur))
    ensures BranchAfter(a + b, cur) == BranchAfter(b, BranchAfter(a, cur))
    decreases |a|
  {
    if a == [] {
      assert a + b == b;
    } else {
      assert (a + b)[1..] == a[1..] + b;
      EffectAppend(a[1..], b, if IsCheckout(a[0]) then a[0][1] else cur);
    }
  }

  lemma CheckoutEffect(name: string, cur: string)
    ensures Effect([GitCommands.CheckoutArgs(name, false)], cur) == []
    ensures BranchAfter([GitCommands.CheckoutArgs(name, false)], cur) == name
  {
    var c := GitCommands.CheckoutArgs(name, false);
    assert [c][1..] == [];
  }

  // ---------------------------------------------------------------------------------------
  // syncCreateTasks

  /** The task planned for one branch: a push when it is ahead, a pull when it is behind,
      and, when it is deleted on the remote, its deletion from the main branch, unless
      deletion is off or it is the main branch. */
  function TaskFor(b: BranchDetail, main: string, noDelete: bool): Option<SyncTask> {
    if b.remoteStatus == StatusAhead then Some(SyncTask(b.name, ["push"], Desc(Push, b.name)))
    else if b.remoteStatus == StatusBehind then Some(SyncTask(b.name, ["pull"], Desc(Pull, b.name)))
    else if b.remoteStatus == StatusGone && !noDelete && b.name != main then
      Some(SyncTask(main, ["branch", "-D", b.name], Desc(Delete, b.name)))
    else None
  }

  /** The tasks syncCreateTasks plans, in branch order. */
  function Planned(branches: seq<BranchDetail>, main: string, noDelete: bool): seq<SyncTask> {
    if branches == [] then []
    else
      var t := TaskFor(branches[|branches| - 1], main, noDelete);
      Planned(branches[..|branches| - 1], main, noDelete) + (if t.Some? then [t.value] else [])
  }

  /** The backup branch after the loop: the last current branch that is kept or not deleted
      on its remote, else init. */
  function Backup(branches: seq<BranchDetail>, init: string, noDelete: bool): string {
    if branches == [] then init
    else
      var b := branches[|branches| - 1];
      if b.current && (noDelete || b.remoteStatus != StatusGone) then b.name
      else Backup(branches[..|branches| - 1], init, noDelete)
  }

  /** The current branch after the loop: the last branch marked current, else init. */
  function Current(branches: seq<BranchDetail>, init: string): string {
    if branches == [] then init
    else
      var b := branches[|branches| - 1];
      if b.current then b.name else Current(branches[..|branches| - 1], init)
  }

  /** The state the command's Init builds and Run consumes. */
  class SyncData {
    const mainBranch: string
    const branches: seq<BranchDetail>
    var backupBranch: string
    var currentBranch: string
    var tasks: seq<SyncTask>

    /** The data as Init leaves it before syncCreateTasks: the branches listed, the main
        branch found and taken as the backup. */
    constructor (mainBranch: string, branches: seq<BranchDetail>)
      ensures this.mainBranch == mainBranch && this.branches == branches
      ensures backupBranch == mainBranch && currentBranch == "" && tasks == []
    {
      this.mainBranch := mainBranch;
      this.branches := branches;
      backupBranch := mainBranch;
      currentBranch := "";
      tasks := [];
    }

    /** syncCreateTasks as written: the tasks are planned into a local list that is never
        stored, so the data's tasks stay as they were. */
    method CreateTasksAsWritten(noDelete: bool) returns (planned: seq<SyncTask>, err: Option<Error>)
      modifies this
      ensures err.None? && planned == Planned(branches, mainBranch, noDelete)
      ensures backupBranch == Backup(branches, old(backupBranch), noDelete)
      ensures currentBranch == Current(branches, old(currentBranch))
      ensures tasks == old(tasks)
    {
      planned := [];
      ghost var backup0 := backupBranch;
      ghost var current0 := currentBranch;
      for i := 0 to |branches|
        invariant planned == Planned(branches[..i], mainBranch, noDelete)
        invariant backupBranch == Backup(branches[..i], backup0, noDelete)
        invariant currentBranch == Current(branches[..i], current0)
        invariant tasks == old(tasks)
      {
        assert branches[..i + 1][..i] == branches[..i];
        var branch := branches[i];
        if branch.current {
          if noDelete || branch.remoteStatus != StatusGone {
            backupBranch := branch.name;
          }
          currentBranch := branch.name;
        }
        var t := TaskFor(branch, mainBranch, noDelete);
        if t.Some? {
          planned := planned + [t.value];
        }
      }
      assert branches[..|branches|] == branches;
      return planned, None;
    }

    /** syncCreateTasks as intended: the planned tasks become the data's tasks. */
    method CreateTasks(noDelete: bool) returns (err: Option<Error>)
      modifies this
      ensures err.None?
      ensures tasks == Planned(branches, mainBranch, noDelete)
      ensures backupBranch == Backup(branches, old(backupBranch), noDelete)
      ensures currentBranch == Current(branches, old(currentBranch))
    {
      var planned: seq<SyncTask>;
      planned, err := CreateTasksAsWritten(noDelete);
      tasks := planned;
    }

    /** The end of Init: the tasks planned, then the current branch asked of git when no
        listed branch is marked current. */
    method Init(noDelete: bool, getCurrentBranch: Result<string, Error>) returns (err: Option<Error>)
      modifies this
      ensures tasks == Planned(branches, mainBranch, noDelete)
      ensures backupBranch == Backup(branches, old(backupBranch), noDelete)
      ensures Current(branches, old(currentBranch)) != "" ==> err.None? && currentBranch == Current(branches, old(currentBranch))
      ensures Current(branches, old(currentBranch)) == "" && getCurrentBranch.Ok? ==> err.None? && currentBranch == getCurrentBranch.value
      ensures Current(branches, old(currentBranch)) == "" && getCurrentBranch.Err? ==> err == Some(getCurrentBranch.error) && currentBranch == ""
    {
      err := CreateTasks(noDelete);
      if currentBranch == "" {
        if getCurrentBranch.Err? {
          return Some(getCurrentBranch.error);
        }
        currentBranch := getCurrentBranch.value;
      }
    }

    /** Run: nothing when there are no tasks; otherwise each task's command on its branch,
        stopping at the first failure, then the backup branch checked out if it is not the
        current one. exec runs a git command with the default options, quiet with stderr
        captured, as git.Exec and git.Checkout do. */
    method Run(exec: Runner, quiet: Runner) returns (err: Option<Error>, calls: seq<seq<string>>)
      modifies this
      ensures Outcome(calls, err, currentBranch) == RunAll(old(tasks), old(currentBranch), backupBranch, exec, quiet)
      ensures tasks == old(tasks) && backupBranch == old(backupBranch)
    {
      if |tasks| == 0 {
        return None, [];
      }
      calls := [];
      for i := 0 to |tasks|
        invariant tasks == old(tasks) && backupBranch == old(backupBranch)
        invariant RunTasks(tasks, old(currentBranch), backupBranch, exec, quiet) == Prepend(calls, RunTasks(tasks[i..], currentBranch, backupBranch, exec, quiet))
      {
        var task := tasks[i];
        RunTasksNext(tasks, i, currentBranch, backupBranch, exec, quiet);
        ghost var before := calls;
        ghost var switch := if currentBranch != task.branch then [GitCommands.CheckoutArgs(task.branch, false)] else [];
        if currentBranch != task.branch {
          calls := calls + [GitCommands.CheckoutArgs(task.branch, false)];
          currentBranch := task.branch;
        }
        calls := calls + [task.cmd];
        assert calls == before + (switch + [task.cmd]);
        err := exec(task.cmd);
        if err.Some? {
          return err, calls;
        }
        PrependTwice(before, switch + [task.cmd], RunTasks(tasks[i + 1..], currentBranch, backupBranch, exec, quiet));
      }
      if currentBranch != backupBranch {
        calls := calls + [GitCommands.CheckoutArgs(backupBranch, false)];
        err := quiet(GitCommands.CheckoutArgs(backupBranch, false));
        return err, calls;
      }
      return None, calls;
    }
  }

  // ---------------------------------------------------------------------------------------
  // Run

  /** The git calls Run makes, the error it returns and the current branch it leaves. */
  datatype Outcome = Outcome(calls: seq<seq<string>>, err: Option<Error>, current: string)

  function Prepend(calls: seq<seq<string>>, o: Outcome): Outcome {
    o.(calls := calls + o.calls)
  }

  /** A git command's error: git.Exec under fixed options. */
  type Runner = seq<string> -> Option<Error>

  /** The loop of Run and the final checkout, from the given current branch: commands run
      with exec, checkouts with quiet. The error of a checkout inside the loop is ignored,
      as in the source. */
  function RunTasks(tasks: seq<SyncTask>, current: string, backup: string, exec: Runner, quiet: Runner): Outcome
    decreases |tasks|
  {
    if tasks == [] then
      if current != backup then
        Outcome([GitCommands.CheckoutArgs(backup, false)], quiet(GitCommands.CheckoutArgs(backup, false)), current)
      else Outcome([], None, current)
    else
      var t := tasks[0];
      var switch := if current != t.branch then [GitCommands.CheckoutArgs(t.branch, false)] else [];
      var e := exec(t.cmd);
      if e.Some? then Outcome(switch + [t.cmd], e, t.branch)
      else Prepend(switch + [t.cmd], RunTasks(tasks[1..], t.branch, backup, exec, quiet))
  }

  lemma PrependTwice(a: seq<seq<string>>, b: seq<seq<string>>, o: Outcome)
    ensures Prepend(a, Prepend(b, o)) == Prepend(a + b, o)
  {
    assert a + (b + o.calls) == (a + b) + o.calls;
  }

  /** One turn of Run's loop. */
  lemma RunTasksNext(tasks: seq<SyncTask>, i: nat, current: string, backup: string, exec: Runner, quiet: Runner)
    requires i < |tasks|
    ensures var t := tasks[i];
      var switch := if current != t.branch then [GitCommands.CheckoutArgs(t.branch, false)] else [];
      RunTasks(tasks[i..], current, backup, exec, quiet) ==
        if exec(t.cmd).Some? then Outcome(switch + [t.cmd], exec(t.cmd), t.branch)
        else Prepend(switch + [t.cmd], RunTasks(tasks[i + 1..], t.branch, backup, exec, quiet))
  {
    assert tasks[i..][1..] == tasks[i + 1..];
  }

  /** Run, which does nothing without tasks. */
  function RunAll(tasks: seq<SyncTask>, current: string, backup: string, exec: Runner, quiet: Runner): Outcome {
    if tasks == [] then Outcome([], None, current) else RunTasks(tasks, current, backup, exec, quiet)
  }

  // ---------------------------------------------------------------------------------------
  // Properties

  /** The work of a task: its command on its branch. */
  function Work(t: SyncTask): (string, seq<string>) {
    (t.branch, t.cmd)
  }

  function Works(tasks: seq<SyncTask>): (r: seq<(string, seq<string>)>)
    ensures |r| == |tasks| && forall k :: 0 <= k < |tasks| ==> r[k] == Work(tasks[k])
    decreases |tasks|
  {
    if tasks == [] then [] else [Work(tasks[0])] + Works(tasks[1..])
  }

  function ExecOf(exec: Runner): SyncTask -> Option<Error> {
    (t: SyncTask) => exec(t.cmd)
  }

  /** Run's calls, read with checkouts succeeding: every task up to the first failing one
      runs its command on its own branch, in order, and the first failure's error is
      returned. */
  lemma {:induction false} RunTasksFailing(tasks: seq<SyncTask>, cur: string, backup: string, exec: Runner, quiet: Runner)
    requires forall j :: 0 <= j < |tasks| ==> !IsCheckout(tasks[j].cmd)
    ensures var o := RunTasks(tasks, cur, backup, exec, quiet);
      var k := FirstFailing(tasks, ExecOf(exec));
      k < |tasks| ==> o.err == exec(tasks[k].cmd) && Effect(o.calls, cur) == Works(tasks[..k + 1])
    decreases |tasks|
  {
    if tasks != [] {
      var t := tasks[0];
      var switch := if cur != t.branch then [GitCommands.CheckoutArgs(t.branch, false)] else [];
      SwitchWork(switch, t, cur);
      var k := FirstFailing(tasks, ExecOf(exec));
      if exec(t.cmd).Some? {
        assert k == 0;
        assert Works(tasks[..1]) == [Work(t)];
      } else if k < |tasks| {
        var rest := tasks[1..];
        assert forall j :: 0 <= j < |rest| ==> rest[j] == tasks[j + 1];
        RunTasksFailing(rest, t.branch, backup, exec, quiet);
        var r := RunTasks(rest, t.branch, backup, exec, quiet);
        EffectAppend(switch + [t.cmd], r.calls, cur);
        assert k == FirstFailing(rest, ExecOf(exec)) + 1;
        assert tasks[..k + 1][1..] == rest[..k];
      }
    }
  }

  /** When no command fails, every task runs its command on its own branch, in order, and
      the backup branch is checked out at the end. */
  lemma {:induction false} RunTasksDone(tasks: seq<SyncTask>, cur: string, backup: string, exec: Runner, quiet: Runner)
    requires forall j :: 0 <= j < |tasks| ==> !IsCheckout(tasks[j].cmd)
    requires forall j :: 0 <= j < |tasks| ==> exec(tasks[j].cmd).None?
    ensures var o := RunTasks(tasks, cur, backup, exec, quiet);
      Effect(o.calls, cur) == Works(tasks) && BranchAfter(o.calls, cur) == backup
    decreases |tasks|
  {
    if tasks == [] {
      if cur != backup {
        CheckoutEffect(backup, cur);
      }
    } else {
      var t := tasks[0];
      var switch := if cur != t.branch then [GitCommands.CheckoutArgs(t.branch, false)] else [];
      SwitchWork(switch, t, cur);
      var rest := tasks[1..];
      assert forall j :: 0 <= j < |rest| ==> rest[j] == tasks[j + 1];
      RunTasksDone(rest, t.branch, backup, exec, quiet);
      var r := RunTasks(rest, t.branch, backup, exec, quiet);
      EffectAppend(switch + [t.cmd], r.calls, cur);
    }
  }

  lemma SwitchWork(switch: seq<seq<string>>, t: SyncTask, cur: string)
    requires !IsCheckout(t.cmd)
    requires switch == if cur != t.branch then [GitCommands.CheckoutArgs(t.branch, false)] else []
    ensures Effect(switch + [t.cmd], cur) == [Work(t)]
    ensures BranchAfter(switch + [t.cmd], cur) == t.branch
  {
    EffectAppend(switch, [t.cmd], cur);
    if cur != t.branch {
      CheckoutEffect(t.branch, cur);
    }
    assert [t.cmd][1..] == [];
  }

  /** The error Run returns: the first failing command's, else the final checkout's. */
  lemma {:induction false} RunTasksErr(tasks: seq<SyncTask>, cur: string, backup: string, exec: Runner, quiet: Runner)
    ensures var o := RunTasks(tasks, cur, backup, exec, quiet);
      var k := FirstFailing(tasks, ExecOf(exec));
      var last := if tasks == [] then cur else tasks[|tasks| - 1].branch;
      k == |tasks| ==> o.err == (if last != backup then quiet(GitCommands.CheckoutArgs(backup, false)) else None)
    decreases |tasks|
  {
    if tasks != [] && exec(tasks[0].cmd).None? {
      var rest := tasks[1..];
      assert forall j :: 0 <= j < |rest| ==> rest[j] == tasks[j + 1];
      RunTasksErr(rest, tasks[0].branch, backup, exec, quiet);
      if rest != [] {
        assert rest[|rest| - 1] == tasks[|tasks| - 1];
      }
    }
  }

  lemma {:induction false} PlannedFrom(branches: seq<BranchDetail>, main: string, noDelete: bool)
    ensures forall t :: t in Planned(branches, main, noDelete) ==> exists k :: 0 <= k < |branches| && TaskFor(branches[k], main, noDelete) == Some(t)
    ensures forall k :: 0 <= k < |branches| && TaskFor(branches[k], main, noDelete).Some? ==> TaskFor(branches[k], main, noDelete).value in Planned(branches, main, noDelete)
  {
    if branches != [] {
      var init := branches[..|branches| - 1];
      PlannedFrom(init, main, noDelete);
      assert forall k :: 0 <= k < |init| ==> init[k] == branches[k];
    }
  }

  /** Every planned task comes from a listed branch, and every listed branch that is ahead,
      behind, or deleted on the remote (with deletion on and not the main branch) gets one:
      a push or a pull on that branch, or its deletion run from the main branch. No task
      deletes the main branch, none deletes anything when deletion is off, and none is a
      checkout. */
  lemma PlannedTasks(branches: seq<BranchDetail>, main: string, noDelete: bool)
    ensures forall k :: 0 <= k < |branches| && branches[k].remoteStatus == StatusAhead ==>
      SyncTask(branches[k].name, ["push"], Desc(Push, branches[k].name)) in Planned(branches, main, noDelete)
    ensures forall k :: 0 <= k < |branches| && branches[k].remoteStatus == StatusBehind ==>
      SyncTask(branches[k].name, ["pull"], Desc(Pull, branches[k].name)) in Planned(branches, main, noDelete)
    ensures forall k :: 0 <= k < |branches| && branches[k].remoteStatus == StatusGone && !noDelete && branches[k].name != main ==>
      SyncTask(main, ["branch", "-D", branches[k].name], Desc(Delete, branches[k].name)) in Planned(branches, main, noDelete)
    ensures forall t :: t in Planned(branches, main, noDelete) ==>
      !IsCheckout(t.cmd) && t.cmd != ["branch", "-D", main]
      && (noDelete ==> t.desc.kind != Delete)
      && (t.desc.kind == Delete ==> t.branch == main && t.cmd == ["branch", "-D", t.desc.name])
      && (t.desc.kind != Delete ==> t.branch == t.desc.name)
      && exists k :: 0 <= k < |branches| && branches[k].name == t.desc.name
  {
    PlannedFrom(branches, main, noDelete);
  }

  /** With one branch marked current, as git lists them, the backup branch is that branch
      unless it is deleted on the remote and deletion is on, in which case it stays the
      main branch; the current branch is that branch. */
  lemma {:induction false} BackupOfCurrent(branches: seq<BranchDetail>, c: nat, main: string, init: string, noDelete: bool)
    requires c < |branches| && branches[c].current
    requires forall k :: 0 <= k < |branches| && branches[k].current ==> k == c
    ensures Backup(branches, main, noDelete) == if noDelete || branches[c].remoteStatus != StatusGone then branches[c].name else main
    ensures Current(branches, init) == branches[c].name
  {
    var init' := branches[..|branches| - 1];
    if c < |branches| - 1 {
      assert forall k :: 0 <= k < |init'| ==> init'[k] == branches[k];
      BackupOfCurrent(init', c, main, init, noDelete);
    } else {
      NoCurrent(init', main, init, noDelete);
    }
  }

  /** With no branch marked current, the backup and the current branch keep their
      starting values. */
  lemma {:induction false} NoCurrent(branches: seq<BranchDetail>, main: string, init: string, noDelete: bool)
    requires forall k :: 0 <= k < |branches| ==> !branches[k].current
    ensures Backup(branches, main, noDelete) == main && Current(branches, init) == init
  {
    if branches != [] {
      var init' := branches[..|branches| - 1];
      assert forall k :: 0 <= k < |init'| ==> init'[k] == branches[k];
      NoCurrent(init', main, init, noDelete);
    }
  }

  /** The finding at syncCreateTasks: a checked-out branch ahead of its remote is planned a
      push, but as written the data's tasks stay empty, so Run makes no git call at all. */
  lemma AheadBranchNeverPushed(exec: Runner, quiet: Runner)
    ensures var b := BranchDetail("feature", StatusAhead, true, true, "origin", "1a2b3c4", "wip");
      Planned([b], "main", false) == [SyncTask("feature", ["push"], Desc(Push, "feature"))]
      && RunAll([], Current([b], ""), Backup([b], "main", false), exec, quiet) == Outcome([], None, "feature")
  {
    var b := BranchDetail("feature", StatusAhead, true, true, "origin", "1a2b3c4", "wip");
    assert [b][..0] == [];
  }
}
