/** core/job.go: a job is a bash snippet or a script file run in a repository's root with
    the repository's environment; a job whose required variables are unbound is skipped.
    Finding the script file, checking the root and running bash are passed in as their
    outcomes. */
module Job {
  import opened Wrappers
  import opened Errors

  datatype JobConfig = JobConfig(name: string, run: string, requireEnv: seq<string>)

  /** The command Cmd prepares: bash with its arguments, the working directory ("" keeps the
      caller's) and the environment when one is given. */
  datatype Command = Command(program: string, args: seq<string>, dir: string, env: Option<map<string, string>>)

  /** Skip: the first required variable missing from env, if there is one. A nil env binds
      nothing, as does an empty one. */
  method Skip(job: JobConfig, env: map<string, string>) returns (key: string, skip: bool)
    ensures skip <==> exists i :: 0 <= i < |job.requireEnv| && job.requireEnv[i] !in env
    ensures skip ==> key !in env && exists i :: FirstMissing(job.requireEnv, env, i) && job.requireEnv[i] == key
    ensures !skip ==> key == ""
  {
    for i := 0 to |job.requireEnv|
      invariant forall k :: 0 <= k < i ==> job.requireEnv[k] in env
    {
      var requireKey := job.requireEnv[i];
      var ok := requireKey in env;
      if !ok {
        assert FirstMissing(job.requireEnv, env, i);
        return requireKey, true;
      }
    }
    return "", false;
  }

  /** keys[i] is the first key env does not bind. */
  predicate FirstMissing(keys: seq<string>, env: map<string, string>, i: int) {
    0 <= i < |keys| && keys[i] !in env && forall k :: 0 <= k < i ==> keys[k] in env
  }

  /** GetJobPath: the script's path, when the file exists; `found` is what checking for it
      gave. */
  function GetJobPath(name: string, path: string, found: Result<bool, Error>): (r: Result<string, Error>)
    ensures found.Err? ==> r == Err(found.error)
    ensures found == Ok(false) ==> r == Err(Plain("cannot find job " + name))
    ensures found == Ok(true) ==> r == Ok(path)
  {
    match found
    case Err(e) => Err(e)
    case Ok(false) => Err(Plain("cannot find job " + name))
    case Ok(true) => Ok(path)
  }

  /** Cmd: `bash -c <run>` for an inline job, else `bash <script>`; a non-empty root must be
      an existing directory and becomes the working directory; a non-empty env is passed
      on. `script` is GetJobPath's outcome and `rootExists` what checking the root gave,
      consulted only when they matter. */
  function Cmd(job: JobConfig, root: string, env: map<string, string>, script: Result<string, Error>,
               rootExists: Result<bool, Error>): (r: Result<Command, Error>)
    ensures job.run == "" && script.Err? ==> r == Err(script.error)
    ensures (job.run != "" || script.Ok?) && root != "" && rootExists.Err? ==>
      r == Err(Trace(rootExists.error, "check job root path exists"))
    ensures (job.run != "" || script.Ok?) && root != "" && rootExists == Ok(false) ==>
      r == Err(Plain("job root path " + root + " does not exists"))
    ensures r.Ok? <==> (job.run != "" || script.Ok?) && (root == "" || rootExists == Ok(true))
    ensures r.Ok? ==> r.value.program == "bash" && r.value.dir == root
    ensures r.Ok? && job.run != "" ==> r.value.args == ["-c", job.run]
    ensures r.Ok? && job.run == "" ==> r.value.args == [script.value]
    ensures r.Ok? ==> (r.value.env.Some? <==> |env| > 0) && (r.value.env.Some? ==> r.value.env.value == env)
  {
    var args :- if job.run != "" then Ok(["-c", job.run]) else
      match script
      case Err(e) => Err(e)
      case Ok(path) => Ok([path]);
    var dir :- if root == "" then Ok("") else
      match rootExists
      case Err(e) => Err(Trace(e, "check job root path exists"))
      case Ok(false) => Err(Plain("job root path " + root + " does not exists"))
      case Ok(true) => Ok(root);
    Ok(Command("bash", args, dir, if |env| > 0 then Some(env) else None))
  }

  /** What running a prepared command gave: its error, if it failed, and the output captured
      while it ran. */
  datatype RunOutcome = RunOutcome(err: Option<Error>, out: string)

  /** Execute: a skipped job succeeds without a command; otherwise Cmd's error, or the
      failure of `run` on the command wrapped in a job error naming the job and the root. */
  function Execute(job: JobConfig, root: string, env: map<string, string>, script: Result<string, Error>,
                   rootExists: Result<bool, Error>, run: Command -> RunOutcome): (r: Option<Error>)
    ensures (exists k :: k in job.requireEnv && k !in env) ==> r.None?
    ensures (forall k :: k in job.requireEnv ==> k in env) ==>
      match Cmd(job, root, env, script, rootExists)
      case Err(e) => r == Some(e)
      case Ok(c) =>
        && (r.None? <==> run(c).err.None?)
        && (r.Some? ==> r.value == Job(job.name, root, run(c).err.value, run(c).out))
  {
    if exists k :: k in job.requireEnv && k !in env then None
    else
      match Cmd(job, root, env, script, rootExists)
      case Err(e) => Some(e)
      case Ok(c) =>
        var outcome := run(c);
        match outcome.err
        case None => None
        case Some(e) => Some(Job(job.name, root, e, outcome.out))
  }

  /** wrapJobCmdError: a job error already printed its output, so only a fixed message is
      left; every other error is quoted in the message. */
  function WrapJobCmdError(e: Error): (r: Error)
    ensures e.Job? ==> Message(r) == "failed to execute job"
    ensures !e.Job? ==> Message(r) == "failed to execute job: " + Message(e)
    ensures r.Plain?
  {
    if e.Job? then Plain("failed to execute job") else Plain("failed to execute job: " + Message(e))
  }

  // ---------------------------------------------------------------------------------------

  /** A skipped job never looks at the command, the script or the root: their outcomes make
      no difference. */
  lemma SkippedJobRunsNothing(job: JobConfig, root: string, env: map<string, string>,
                              s1: Result<string, Error>, s2: Result<string, Error>,
                              x1: Result<bool, Error>, x2: Result<bool, Error>,
                              run1: Command -> RunOutcome, run2: Command -> RunOutcome)
    requires exists i :: 0 <= i < |job.requireEnv| && job.requireEnv[i] !in env
    ensures Execute(job, root, env, s1, x1, run1) == Execute(job, root, env, s2, x2, run2) == None
  {
    var i :| 0 <= i < |job.requireEnv| && job.requireEnv[i] !in env;
    assert job.requireEnv[i] in job.requireEnv;
  }

  /** A failing job reports the output captured while it ran through `Out()`, and its message
      names the job and the root. */
  lemma FailedJobKeepsOutput(job: JobConfig, root: string, env: map<string, string>,
                             script: Result<string, Error>, rootExists: Result<bool, Error>,
                             run: Command -> RunOutcome)
    requires forall k :: k in job.requireEnv ==> k in env
    requires Cmd(job, root, env, script, rootExists).Ok?
    requires run(Cmd(job, root, env, script, rootExists).value).err.Some?
    ensures var r := Execute(job, root, env, script, rootExists, run);
      var outcome := run(Cmd(job, root, env, script, rootExists).value);
      r.Some? && Out(r.value) == Some(outcome.out) &&
      Message(r.value) == "failed to execute job " + job.name + " on " + root + ": " + Message(outcome.err.value)
  {
  }

  /** An inline job needs no script file: its command is the same whatever finding the
      script gave. */
  lemma InlineJobIgnoresScript(job: JobConfig, root: string, env: map<string, string>,
                               s1: Result<string, Error>, s2: Result<string, Error>, rootExists: Result<bool, Error>)
    requires job.run != ""
    ensures Cmd(job, root, env, s1, rootExists) == Cmd(job, root, env, s2, rootExists)
  {
  }
}
