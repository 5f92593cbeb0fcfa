/** The error values of the program. Go's open `error` interface becomes a closed datatype
    with one variant per concrete error type the modelled code creates or inspects. */
module Errors {
  import opened GoStrings
  import opened Wrappers

  datatype Error =
    /** errors.New / fmt.Errorf: a fixed message. */
    | Plain(msg: string)
    /** *errors.Error of pkg/errors: the traced operations, oldest first, and the cause. */
    | Traced(ops: seq<string>, cause: Error)
    /** *git.ExecError: stderr captured from git, the cause, the command line and whether
        the command was run with QuietCmd. */
    | Exec(stderr: string, cause: Error, cmd: string, quietCmd: bool)
    /** *core.JobError: job name, root path, cause and the captured output. */
    | Job(name: string, path: string, cause: Error, out: string)
    /** *git.UncommittedChangeError */
    | UncommittedChange(changes: seq<string>)
    /** *core.parseRepositoryStorageError: path of the data file and the cause. */
    | ParseStorage(path: string, cause: Error)
    /** *validate.Error: the printed lines of the fields that failed validation. */
    | Validation(fields: seq<string>)
    /** A Go run-time panic (nil dereference, index out of range); the program stops. */
    | Panic(msg: string)

  /** The shape Trace builds: a traced error has at least one operation and its cause is
      never itself a traced error. */
  predicate WellTraced(e: Error) {
    match e
    case Traced(ops, cause) => |ops| >= 1 && !cause.Traced? && WellTraced(cause)
    case Exec(_, cause, _, _) => WellTraced(cause)
    case Job(_, _, cause, _) => WellTraced(cause)
    case ParseStorage(_, cause) => WellTraced(cause)
    case _ => true
  }

  /** errors.Trace(err, op) for a non-nil err: a traced error gets op appended to its
      operations; any other error is wrapped with op as its only operation. */
  function Trace(e: Error, op: string): (r: Error)
    ensures r.Traced? && |r.ops| >= 1 && r.ops[|r.ops| - 1] == op
    ensures e.Traced? ==> r == Traced(e.ops + [op], e.cause)
    ensures !e.Traced? ==> r == Traced([op], e)
    ensures WellTraced(e) ==> WellTraced(r)
  {
    match e
    case Traced(ops, cause) => Traced(ops + [op], cause)
    case _ => Traced([op], e)
  }

  /** errors.Trace over a Go error that may be nil: nil stays nil. */
  function TraceOpt(e: Option<Error>, op: string): (r: Option<Error>)
    ensures r.None? <==> e.None?
    ensures e.Some? ==> r == Some(Trace(e.value, op))
  {
    match e
    case None => None
    case Some(x) => Some(Trace(x, op))
  }

  /** The subject of a git error text: "it" for exactly one change, "them" otherwise. */
  function ChangeWho(n: nat): string {
    if n == 1 then "it" else "them"
  }

  /** Error() of every error type. */
  function Message(e: Error): string {
    match e
    case Plain(msg) => msg
    case Traced(ops, cause) => Join(ops, ": ") + ": " + Message(cause)
    case Exec(_, cause, cmd, quiet) =>
      if quiet then "failed to exec " + Quote(cmd) + ": " + Message(cause)
      else "failed to exec git command: " + Message(cause)
    case Job(name, path, cause, _) =>
      "failed to execute job " + name + " on " + path + ": " + Message(cause)
    case UncommittedChange(changes) =>
      "you have " + Plural(|changes|, "uncommitted change") + " in current repo, please handle "
      + ChangeWho(|changes|) + " first"
    case ParseStorage(_, cause) => Message(cause)
    case Validation(_) => "failed to validate configuration:"
    case Panic(msg) => "panic: " + msg
  }

  /** The `Out() string` method: only git and job errors carry captured output. */
  function Out(e: Error): (r: Option<string>)
    ensures r.Some? <==> e.Exec? || e.Job?
    ensures e.Exec? ==> r == Some(e.stderr)
    ensures e.Job? ==> r == Some(e.out)
  {
    match e
    case Exec(stderr, _, _, _) => Some(stderr)
    case Job(_, _, _, out) => Some(out)
    case _ => None
  }

  /** Whether the error's dynamic type has an `Extra()` method. */
  predicate HasExtra(e: Error) {
    e.Traced? || e.Exec? || e.ParseStorage? || e.Validation?
  }

  /** The lines `Extra()` prints: a traced error delegates to its cause when the cause has
      the method; a git error prints its stderr when there is one; a broken data file
      prints an empty line and a hint naming the file; a validation error prints one line
      per field. */
  function Extra(e: Error): seq<string> {
    match e
    case Traced(_, cause) => if HasExtra(cause) then Extra(cause) else []
    case Exec(stderr, _, _, _) => if stderr != "" then [stderr] else []
    case ParseStorage(path, _) =>
      ["", "The repository data is broken, please fix or delete it: " + path]
    case Validation(fields) => fields
    case _ => []
  }

  // ---------------------------------------------------------------------------------------

  /** Tracing a fresh error prefixes its message with the operation. */
  lemma TraceFreshMessage(e: Error, op: string)
    requires !e.Traced?
    ensures Message(Trace(e, op)) == op + ": " + Message(e)
  {
    assert Join([op], ": ") == op;
  }

  /** Tracing an already traced error adds the operation after the earlier ones, so the
      message lists operations in the order they were traced, innermost call first. */
  lemma TraceTracedMessage(ops: seq<string>, cause: Error, op: string)
    requires |ops| >= 1
    ensures Message(Trace(Traced(ops, cause), op))
         == Join(ops, ": ") + ": " + op + ": " + Message(cause)
  {
    JoinSnoc(ops, op, ": ");
  }

  /** Two traces of a fresh error: the first operation comes first in the message. */
  lemma TraceTwiceMessage(e: Error, a: string, b: string)
    requires !e.Traced?
    ensures Message(Trace(Trace(e, a), b)) == a + ": " + b + ": " + Message(e)
  {
    TraceTracedMessage([a], e, b);
  }

  /** Tracing never changes what `Extra()` prints. */
  lemma TraceKeepsExtra(e: Error, op: string)
    ensures Extra(Trace(e, op)) == (if HasExtra(e) then Extra(e) else [])
  {
  }

  /** Tracing hides `Out()`: *errors.Error has no such method. */
  lemma TraceHidesOut(e: Error, op: string)
    ensures Out(Trace(e, op)).None?
  {
  }
}
