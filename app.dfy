/** cmd/app: the frame every command runs in. A command's context holds its positional
    arguments and the close functions its hooks register; RunE runs the Init hook, the Run
    hook and then the close functions, stopping at the first error. Register files each
    command under its own name or under a shared action parent. Cobra's command tree is
    reduced to the use line, the short text and the children. */
module App {
  import opened Wrappers
  import opened GoStrings
  import opened Errors

  /** Context.ArgDefault: the positional argument at idx, or def when there is none. */
  function ArgDefault(args: seq<string>, idx: int, def: string): (r: string)
    ensures 0 <= idx < |args| ==> r == args[idx]
    ensures (idx < 0 || idx >= |args|) ==> r == def
  {
    if idx < 0 || idx >= |args| then def else args[idx]
  }

  /** Context.Arg: a missing argument reads as "". */
  function Arg(args: seq<string>, idx: int): (r: string)
    ensures r == ArgDefault(args, idx, "")
    ensures r != "" ==> r in args
  {
    ArgDefault(args, idx, "")
  }

  /** A close function: run at the end of RunE for its error. */
  type Closer = () -> Option<Error>

  /** What a hook (Init or Run) does to the context: the close functions it registers,
      in order, and the error it returns. */
  datatype Hook = Hook(registers: seq<Closer>, err: Option<Error>)

  /** The steps of RunE that ran, in order. */
  datatype Step = InitStep | RunStep | CloseStep(index: nat)

  class Context {
    const args: seq<string>
    var closeFuncs: seq<Closer>

    constructor (args: seq<string>)
      ensures this.args == args && closeFuncs == []
    {
      this.args := args;
      closeFuncs := [];
    }

    /** OnClose: the function runs after the others registered before it. */
    method OnClose(f: Closer)
      modifies this
      ensures closeFuncs == old(closeFuncs) + [f]
    {
      closeFuncs := closeFuncs + [f];
    }

    /** Runs a hook: it registers its close functions, then returns its error. */
    method Apply(h: Hook) returns (err: Option<Error>)
      modifies this
      ensures closeFuncs == old(closeFuncs) + h.registers
      ensures err == h.err
    {
      for i := 0 to |h.registers|
        invariant closeFuncs == old(closeFuncs) + h.registers[..i]
      {
        assert h.registers[..i + 1] == h.registers[..i] + [h.registers[i]];
        OnClose(h.registers[i]);
      }
      assert h.registers[..|h.registers|] == h.registers;
      return h.err;
    }
  }

  /** The hook's error, or none when the command has no such hook. */
  function HookErr(h: Option<Hook>): Option<Error> {
    if h.None? then None else h.value.err
  }

  function Registered(h: Option<Hook>): seq<Closer> {
    if h.None? then [] else h.value.registers
  }

  /** The index of the first close function that fails, or |fs|. */
  function FirstFailing(fs: seq<Closer>): (k: nat)
    ensures k <= |fs|
    ensures forall j :: 0 <= j < k ==> fs[j]().None?
    ensures k < |fs| ==> fs[k]().Some?
  {
    if fs == [] then 0
    else if fs[0]().Some? then 0
    else
      var k := FirstFailing(fs[1..]);
      assert forall j :: 1 <= j < |fs| ==> fs[j] == fs[1..][j - 1];
      k + 1
  }

  function CloseSteps(n: nat): (r: seq<Step>)
    ensures |r| == n && forall j :: 0 <= j < n ==> r[j] == CloseStep(j)
  {
    if n == 0 then [] else CloseSteps(n - 1) + [CloseStep(n - 1)]
  }

  /** The steps RunE runs: Init when there is one; Run when Init did not fail; then the
      close functions, in the order they were registered, up to the first that fails. */
  function Steps(init: Option<Hook>, run: Option<Hook>): seq<Step> {
    var initSteps := if init.Some? then [InitStep] else [];
    if HookErr(init).Some? then initSteps
    else
      var runSteps := if run.Some? then [RunStep] else [];
      if HookErr(run).Some? then initSteps + runSteps
      else
        initSteps + runSteps + ClosersRan(Registered(init) + Registered(run))
  }

  /** What RunE returns: the first error of Init, Run or a close function. */
  function Outcome(init: Option<Hook>, run: Option<Hook>): Option<Error> {
    if HookErr(init).Some? then HookErr(init)
    else if HookErr(run).Some? then HookErr(run)
    else ClosersErr(Registered(init) + Registered(run))
  }

  /** The close functions that run: all of them up to and including the first that fails. */
  function ClosersRan(fs: seq<Closer>): seq<Step> {
    var k := FirstFailing(fs);
    CloseSteps(if k < |fs| then k + 1 else k)
  }

  /** The error of the first close function that fails, if any. */
  function ClosersErr(fs: seq<Closer>): Option<Error> {
    var k := FirstFailing(fs);
    if k < |fs| then fs[k]() else None
  }

  /** cmd.RunE of a registered command, over a fresh context holding the arguments. */
  method RunE(args: seq<string>, init: Option<Hook>, run: Option<Hook>) returns (ran: seq<Step>, r: Option<Error>)
    ensures ran == Steps(init, run)
    ensures r == Outcome(init, run)
  {
    var ctx := new Context(args);
    ran := [];
    if init.Some? {
      ran := ran + [InitStep];
      var err := ctx.Apply(init.value);
      if err.Some? {
        return ran, err;
      }
    }
    assert ctx.closeFuncs == Registered(init) && HookErr(init).None?;
    ghost var initSteps: seq<Step> := if init.Some? then [InitStep] else [];
    assert ran == initSteps;
    if run.Some? {
      ran := ran + [RunStep];
      var err := ctx.Apply(run.value);
      if err.Some? {
        return ran, err;
      }
    }
    assert ctx.closeFuncs == Registered(init) + Registered(run) && HookErr(run).None?;
    ghost var runSteps: seq<Step> := if run.Some? then [RunStep] else [];
    assert ran == initSteps + runSteps;
    ran, r := RunClosers(ran, ctx.closeFuncs);
  }

  /** The last loop of RunE. */
  method RunClosers(before: seq<Step>, fs: seq<Closer>) returns (ran: seq<Step>, r: Option<Error>)
    ensures ran == before + ClosersRan(fs) && r == ClosersErr(fs)
  {
    ran := before;
    for i := 0 to |fs|
      invariant ran == before + CloseSteps(i)
      invariant forall j :: 0 <= j < i ==> fs[j]().None?
    {
      ran := ran + [CloseStep(i)];
      var err := fs[i]();
      if err.Some? {
        assert FirstFailing(fs) == i;
        return ran, err;
      }
    }
    assert FirstFailing(fs) == |fs|;
    return ran, None;
  }

  // ---------------------------------------------------------------------------------------

  /** A failing hook stops RunE: nothing after it runs, close functions included, and its
      error is the result. */
  lemma FailingInitStopsAll(init: Hook, run: Option<Hook>)
    requires init.err.Some?
    ensures Steps(Some(init), run) == [InitStep] && Outcome(Some(init), run) == init.err
  {
  }

  lemma FailingRunSkipsClose(init: Option<Hook>, run: Hook)
    requires HookErr(init).None? && run.err.Some?
    ensures Outcome(init, Some(run)) == run.err
    ensures CloseStep(0) !in Steps(init, Some(run))
    ensures RunStep in Steps(init, Some(run))
  {
  }

  /** When every hook and close function succeeds, every close function runs, in order,
      after Init and Run, and RunE succeeds. */
  lemma AllSucceed(init: Option<Hook>, run: Option<Hook>)
    requires HookErr(init).None? && HookErr(run).None?
    requires forall j :: 0 <= j < |Registered(init) + Registered(run)| ==> (Registered(init) + Registered(run))[j]().None?
    ensures Outcome(init, run).None?
    ensures var n := |Registered(init) + Registered(run)|;
      Steps(init, run)[|Steps(init, run)| - n..] == CloseSteps(n)
  {
    var fs := Registered(init) + Registered(run);
    assert FirstFailing(fs) == |fs|;
  }

  // ---------------------------------------------------------------------------------------
  // Register

  /** A cobra command, reduced to what Register sets. */
  datatype Cmd = Cmd(use: string, short: string, children: seq<Cmd>)

  /** The first word of a use line: the name a command without action is filed under. */
  function CommandName(use: string): string {
    Split(use, ' ')[0]
  }

  /** The parent an action's commands hang under: the one already filed, or a new one. */
  function ActionParent(actions: map<string, Cmd>, action: string): Cmd {
    if action in actions then actions[action] else Cmd(ToLower(action), action + " actions", [])
  }

  /** The package's `actions` map, the only state Register changes. */
  class Registry {
    var actions: map<string, Cmd>

    constructor ()
      ensures actions == map[]
    {
      actions := map[];
    }

    /** Register: a command without action is filed under its name, replacing any earlier
        one; otherwise it becomes the next child of the action's parent, which is created
        on first use. */
    method Register(use: string, desc: string, action: string) returns (cmd: Cmd)
      modifies this
      ensures cmd == Cmd(use, desc, [])
      ensures action == "" ==> actions == old(actions)[CommandName(use) := cmd]
      ensures action != "" ==>
        var parent := ActionParent(old(actions), action);
        actions == old(actions)[action := parent.(children := parent.children + [cmd])]
    {
      cmd := Cmd(use, desc, []);
      if action == "" {
        var name := Split(use, ' ')[0];
        actions := actions[name := cmd];
        return cmd;
      }
      var actionCmd: Cmd;
      if action in actions {
        actionCmd := actions[action];
      } else {
        actionCmd := Cmd(ToLower(action), action + " actions", []);
      }
      actions := actions[action := actionCmd.(children := actionCmd.children + [cmd])];
    }
  }

  /** Commands registered under the same action become its children in registration order,
      and the parent keeps the use line and short text it was created with. */
  lemma ActionGathersChildren(actions: map<string, Cmd>, action: string, a: Cmd, b: Cmd)
    requires action !in actions
    ensures var p1 := ActionParent(actions, action);
      var m1 := actions[action := p1.(children := p1.children + [a])];
      var p2 := ActionParent(m1, action);
      var m2 := m1[action := p2.(children := p2.children + [b])];
      m2[action] == Cmd(ToLower(action), action + " actions", [a, b])
      && forall k :: k in actions ==> k in m2 && m2[k] == actions[k]
  {
  }
}
