/** cmd/git/branch.go: the older "sync branch" command, SyncBranch. Its Run plans, per local
    branch, a checkout followed by a push, a pull or a deletion, appends the plans to the
    receiver's task list, runs every command of every task in order, stopping at the first
    failure, and finally checks out the backup branch when the last task left another one
    checked out. A git call's error is given by a runner parameter. */
module SyncBranch {
  import opened Wrappers
  import opened Errors
  import opened Seqs
  import opened GitBranch
  import GitCommands
  import BranchSync

  type Runner = BranchSync.Runner

  /** A task: the branch it ends on, its git commands, its description. */
  datatype BranchTask = BranchTask(branch: string, cmds: seq<seq<string>>, desc: BranchSync.Desc)

  /** The task planned for one branch: checkout and push when it is ahead, checkout and pull
      when it is behind, and, when it is deleted on the remote and deletion is on, a
      checkout of the main branch and its deletion. Unlike syncCreateTasks there is no
      exception for the main branch. */
  function TaskFor(b: BranchDetail, main: string, noDelete: bool): Option<BranchTask> {
    if b.remoteStatus == StatusAhead then
      Some(BranchTask(b.name, [["checkout", b.name], ["push"]], BranchSync.Desc(BranchSync.Push, b.name)))
    else if b.remoteStatus == StatusBehind then
      Some(BranchTask(b.name, [["checkout", b.name], ["pull"]], BranchSync.Desc(BranchSync.Pull, b.name)))
    else if b.remoteStatus == StatusGone && !noDelete then
      Some(BranchTask(main, [["checkout", main], ["branch", "-D", b.name]], BranchSync.Desc(BranchSync.Delete, b.name)))
    else None
  }

  /** The tasks planned, in branch order. */
  function Planned(branches: seq<BranchDetail>, main: string, noDelete: bool): seq<BranchTask> {
    if branches == [] then []
    else
      var t := TaskFor(branches[|branches| - 1], main, noDelete);
      Planned(branches[..|branches| - 1], main, noDelete) + (if t.Some? then [t.value] else [])
  }

  /** Every command of the tasks, task after task. */
  function Commands(tasks: seq<BranchTask>): seq<seq<string>> {
    if tasks == [] then [] else Commands(tasks[..|tasks| - 1]) + tasks[|tasks| - 1].cmds
  }

  /** The git calls made and the error returned. */
  datatype Ran = Ran(calls: seq<seq<string>>, err: Option<Error>)

  /** The second half of Run: nothing without tasks; otherwise the commands up to and
      including the first that fails, with its error; when none fails, a checkout of the
      backup branch if the last task ends on another branch, with that checkout's error. */
  function Executed(tasks: seq<BranchTask>, backup: string, run: Runner): Ran {
    if tasks == [] then Ran([], None)
    else
      var cmds := Commands(tasks);
      var k := FirstFailing(cmds, run);
      if k < |cmds| then Ran(cmds[..k + 1], run(cmds[k]))
      else if tasks[|tasks| - 1].branch != backup then
        Ran(cmds + [GitCommands.CheckoutArgs(backup, false)], run(GitCommands.CheckoutArgs(backup, false)))
      else Ran(cmds, None)
  }

  class SyncBranch {
    const noDelete: bool
    const remote: string
    var tasks: seq<BranchTask>

    constructor (noDelete: bool, remote: string)
      ensures this.noDelete == noDelete && this.remote == remote && tasks == []
    {
      this.noDelete := noDelete;
      this.remote := remote;
      tasks := [];
    }

    /** The planning loop of Run: the tasks are appended to the receiver's list, and the
        backup branch, which starts as the main branch, becomes the current branch unless
        that one is deleted on its remote and deletion is on. */
    method Plan(branches: seq<BranchDetail>, mainBranch: string) returns (backup: string)
      modifies this
      ensures tasks == old(tasks) + Planned(branches, mainBranch, noDelete)
      ensures backup == BranchSync.Backup(branches, mainBranch, noDelete)
    {
      backup := mainBranch;
      for i := 0 to |branches|
        invariant tasks == old(tasks) + Planned(branches[..i], mainBranch, noDelete)
        invariant backup == BranchSync.Backup(branches[..i], mainBranch, noDelete)
      {
        assert branches[..i + 1][..i] == branches[..i];
        var branch := branches[i];
        if branch.current {
          if noDelete || branch.remoteStatus != StatusGone {
            backup := branch.name;
          }
        }
        var t := TaskFor(branch, mainBranch, noDelete);
        if t.Some? {
          tasks := tasks + [t.value];
        }
      }
      assert branches[..|branches|] == branches;
    }

    /** The execution part of Run, over every task in the receiver's list. */
    method Execute(backup: string, run: Runner) returns (err: Option<Error>, calls: seq<seq<string>>)
      ensures Ran(calls, err) == Executed(tasks, backup, run)
    {
      if |tasks| == 0 {
        return None, [];
      }
      calls := [];
      for i := 0 to |tasks|
        invariant calls == Commands(tasks[..i])
        invariant forall m :: 0 <= m < |calls| ==> run(calls[m]).None?
      {
        assert tasks[..i + 1][..i] == tasks[..i];
        var cmds := tasks[i].cmds;
        for j := 0 to |cmds|
          invariant calls == Commands(tasks[..i]) + cmds[..j]
          invariant forall m :: 0 <= m < |calls| ==> run(calls[m]).None?
        {
          assert cmds[..j + 1] == cmds[..j] + [cmds[j]];
          err := run(cmds[j]);
          if err.Some? {
            StopsAt(tasks, i, j, backup, run);
            return err, calls + [cmds[j]];
          }
          calls := calls + [cmds[j]];
        }
        assert cmds[..|cmds|] == cmds;
      }
      assert tasks[..|tasks|] == tasks;
      assert FirstFailing(Commands(tasks), run) == |calls|;
      if tasks[|tasks| - 1].branch != backup {
        calls := calls + [GitCommands.CheckoutArgs(backup, false)];
        err := run(GitCommands.CheckoutArgs(backup, false));
        return err, calls;
      }
      return None, calls;
    }

    /** Run after the listing: the plan, then its execution. */
    method Run(branches: seq<BranchDetail>, mainBranch: string, run: Runner) returns (err: Option<Error>, calls: seq<seq<string>>)
      modifies this
      ensures tasks == old(tasks) + Planned(branches, mainBranch, noDelete)
      ensures Ran(calls, err) == Executed(tasks, BranchSync.Backup(branches, mainBranch, noDelete), run)
    {
      var backup := Plan(branches, mainBranch);
      err, calls := Execute(backup, run);
    }
  }

  // ---------------------------------------------------------------------------------------
  // Properties

  lemma {:induction false} CommandsAppend(a: seq<BranchTask>, b: seq<BranchTask>)
    ensures Commands(a + b) == Commands(a) + Commands(b)
    decreases |b|
  {
    if b == [] {
      assert a + b == a;
    } else {
      var init := b[..|b| - 1];
      assert (a + b)[..|a + b| - 1] == a + init;
      CommandsAppend(a, init);
    }
  }

  /** The commands of the first n tasks begin the commands of all tasks. */
  lemma CommandsSplit(tasks: seq<BranchTask>, n: nat)
    requires n <= |tasks|
    ensures Commands(tasks) == Commands(tasks[..n]) + Commands(tasks[n..])
  {
    assert tasks == tasks[..n] + tasks[n..];
    CommandsAppend(tasks[..n], tasks[n..]);
  }

  /** A task of the planned shape: a checkout of the branch it ends on, then one command
      that is not a checkout. */
  predicate Shaped(t: BranchTask) {
    |t.cmds| == 2 && t.cmds[0] == ["checkout", t.branch] && !BranchSync.IsCheckout(t.cmds[1])
  }

  /** The command a shaped task runs after its checkout. */
  function Op(t: BranchTask): seq<string>
    requires Shaped(t)
  {
    t.cmds[1]
  }

  function Works(tasks: seq<BranchTask>): (r: seq<(string, seq<string>)>)
    requires forall j :: 0 <= j < |tasks| ==> Shaped(tasks[j])
    ensures |r| == |tasks| && forall k :: 0 <= k < |tasks| ==> r[k] == (tasks[k].branch, Op(tasks[k]))
  {
    if tasks == [] then [] else Works(tasks[..|tasks| - 1]) + [(tasks[|tasks| - 1].branch, Op(tasks[|tasks| - 1]))]
  }

  /** Run's commands, read with checkouts succeeding: each task's command runs on the branch
      the task ends on, in order, and the last task's branch is left checked out. */
  lemma {:induction false} CommandsWork(tasks: seq<BranchTask>, cur: string)
    requires tasks != [] && forall j :: 0 <= j < |tasks| ==> Shaped(tasks[j])
    ensures BranchSync.Effect(Commands(tasks), cur) == Works(tasks)
    ensures BranchSync.BranchAfter(Commands(tasks), cur) == tasks[|tasks| - 1].branch
  {
    var init := tasks[..|tasks| - 1];
    var t := tasks[|tasks| - 1];
    var start := if init == [] then cur else init[|init| - 1].branch;
    if init != [] {
      CommandsWork(init, cur);
    } else {
      assert Commands(init) == [];
    }
    BranchSync.EffectAppend(Commands(init), t.cmds, cur);
    ShapedWork(t, start);
  }

  lemma ShapedWork(t: BranchTask, cur: string)
    requires Shaped(t)
    ensures BranchSync.Effect(t.cmds, cur) == [(t.branch, Op(t))]
    ensures BranchSync.BranchAfter(t.cmds, cur) == t.branch
  {
    var rest := t.cmds[1..];
    assert rest == [t.cmds[1]] && rest[1..] == [];
    assert BranchSync.Effect(rest, t.branch) == [(t.branch, t.cmds[1])] + BranchSync.Effect([], t.branch);
    assert BranchSync.BranchAfter(rest, t.branch) == BranchSync.BranchAfter([], t.branch);
  }

  /** A failure at command j of task i ends Run with the calls made so far and that error. */
  lemma StopsAt(tasks: seq<BranchTask>, i: nat, j: nat, backup: string, run: Runner)
    requires i < |tasks| && j < |tasks[i].cmds| && run(tasks[i].cmds[j]).Some?
    requires forall m :: 0 <= m < |Commands(tasks[..i]) + tasks[i].cmds[..j]| ==>
      run((Commands(tasks[..i]) + tasks[i].cmds[..j])[m]).None?
    ensures Executed(tasks, backup, run) == Ran(Commands(tasks[..i]) + tasks[i].cmds[..j + 1], run(tasks[i].cmds[j]))
  {
    var c := tasks[i].cmds;
    CommandsAround(tasks, i, j);
    FailsAfter(tasks, backup, run, Commands(tasks[..i]) + c[..j], c[j], c[j + 1..] + Commands(tasks[i + 1..]));
    assert c[..j + 1] == c[..j] + [c[j]];
    Seqs.AppendAssoc(Commands(tasks[..i]), c[..j], [c[j]]);
  }

  /** The calls of all tasks around call j of task i. */
  lemma CommandsAround(tasks: seq<BranchTask>, i: nat, j: nat)
    requires i < |tasks| && j < |tasks[i].cmds|
    ensures var c := tasks[i].cmds;
      Commands(tasks) == (Commands(tasks[..i]) + c[..j]) + [c[j]] + (c[j + 1..] + Commands(tasks[i + 1..]))
  {
    var c := tasks[i].cmds;
    var a, p, x, q, r := Commands(tasks[..i]), c[..j], [c[j]], c[j + 1..], Commands(tasks[i + 1..]);
    CommandsSplit(tasks, i + 1);
    assert tasks[..i + 1][..i] == tasks[..i];
    assert Commands(tasks[..i + 1]) == a + c;
    assert c == (p + x) + q;
    AppendAssoc(p, x, q);
    AppendAssoc(a, p, x + q);
    AppendAssoc(a + p, x, q);
    AppendAssoc((a + p) + x, q, r);
  }

  /** Run stops at the first failing call x and returns its error. */
  lemma FailsAfter(tasks: seq<BranchTask>, backup: string, run: Runner, pre: seq<seq<string>>, x: seq<string>, rest: seq<seq<string>>)
    requires Commands(tasks) == pre + [x] + rest
    requires forall m :: 0 <= m < |pre| ==> run(pre[m]).None?
    requires run(x).Some?
    ensures Executed(tasks, backup, run) == Ran(pre + [x], run(x))
  {
    Seqs.FirstFailingAt(pre, x, rest, run);
  }

  /** When no command fails, Run ends on the backup branch, each task's command having run
      on its own branch, and only the final checkout's error can be returned. */
  lemma ExecutedEndsOnBackup(tasks: seq<BranchTask>, backup: string, run: Runner, cur: string)
    requires tasks != [] && forall j :: 0 <= j < |tasks| ==> Shaped(tasks[j])
    requires forall m :: 0 <= m < |Commands(tasks)| ==> run(Commands(tasks)[m]).None?
    ensures var r := Executed(tasks, backup, run);
      BranchSync.Effect(r.calls, cur) == Works(tasks) && BranchSync.BranchAfter(r.calls, cur) == backup
      && r.err == (if tasks[|tasks| - 1].branch != backup then run(GitCommands.CheckoutArgs(backup, false)) else None)
  {
    CommandsWork(tasks, cur);
    var cmds := Commands(tasks);
    var last := tasks[|tasks| - 1].branch;
    assert FirstFailing(cmds, run) == |cmds|;
    if last != backup {
      BranchSync.EffectAppend(cmds, [GitCommands.CheckoutArgs(backup, false)], cur);
      BranchSync.CheckoutEffect(backup, last);
    }
  }

  /** When a command fails, Run has made exactly the calls up to it and returns its
      error. */
  lemma ExecutedStopsAtFailure(tasks: seq<BranchTask>, backup: string, run: Runner, m: nat)
    requires m < |Commands(tasks)| && run(Commands(tasks)[m]).Some?
    requires forall p :: 0 <= p < m ==> run(Commands(tasks)[p]).None?
    ensures Executed(tasks, backup, run) == Ran(Commands(tasks)[..m + 1], run(Commands(tasks)[m]))
  {
    assert FirstFailing(Commands(tasks), run) == m;
  }

  lemma {:induction false} PlannedFrom(branches: seq<BranchDetail>, main: string, noDelete: bool)
    ensures forall t :: t in Planned(branches, main, noDelete) ==> exists k :: 0 <= k < |branches| && TaskFor(branches[k], main, noDelete) == Some(t)
    ensures forall k :: 0 <= k < |branches| && TaskFor(branches[k], main, noDelete).Some? ==> TaskFor(branches[k], main, noDelete).value in Planned(branches, main, noDelete)
  {
    if branches != [] {
      var init := branches[..|branches| - 1];
      PlannedFrom(init, main, noDelete);
      assert forall k :: 0 <= k < |init| ==> init[k] == branches[k];
    }
  }

  /** Every planned task has the checkout-then-command shape and comes from a listed branch;
      a deletion runs on the main branch; none deletes anything when deletion is off. */
  lemma PlannedTasks(branches: seq<BranchDetail>, main: string, noDelete: bool)
    ensures forall t :: t in Planned(branches, main, noDelete) ==>
      Shaped(t) && (noDelete ==> t.desc.kind != BranchSync.Delete)
      && (t.desc.kind == BranchSync.Delete ==> t.branch == main && Op(t) == ["branch", "-D", t.desc.name])
      && (t.desc.kind != BranchSync.Delete ==> t.branch == t.desc.name)
      && exists k :: 0 <= k < |branches| && branches[k].name == t.desc.name
  {
    PlannedFrom(branches, main, noDelete);
  }

  /** Every branch ahead, behind, or deleted on the remote with deletion on gets a task. */
  lemma PlannedComplete(branches: seq<BranchDetail>, main: string, noDelete: bool)
    ensures forall k :: 0 <= k < |branches| && (branches[k].remoteStatus in {StatusAhead, StatusBehind} || (branches[k].remoteStatus == StatusGone && !noDelete)) ==>
      exists t :: t in Planned(branches, main, noDelete) && t.desc.name == branches[k].name
  {
    PlannedFrom(branches, main, noDelete);
    forall k | 0 <= k < |branches| && (branches[k].remoteStatus in {StatusAhead, StatusBehind} || (branches[k].remoteStatus == StatusGone && !noDelete))
      ensures exists t :: t in Planned(branches, main, noDelete) && t.desc.name == branches[k].name
    {
      assert TaskFor(branches[k], main, noDelete).value in Planned(branches, main, noDelete);
    }
  }

  /** With the main branch deleted on its remote, the plan checks the main branch out and
      then deletes it, where syncCreateTasks plans nothing. */
  lemma GoneMainDeletedFromItself(main: string)
    ensures var b := BranchDetail(main, StatusGone, true, true, "origin", "1a2b3c4", "init");
      Planned([b], main, false) == [BranchTask(main, [["checkout", main], ["branch", "-D", main]], BranchSync.Desc(BranchSync.Delete, main))]
      && BranchSync.Planned([b], main, false) == []
  {
    var b := BranchDetail(main, StatusGone, true, true, "origin", "1a2b3c4", "init");
    assert [b][..0] == [];
  }
}
