/** pkg/git/commands.go: running git with options, and the commands built on it. Running
    the git process is a parameter: from the full argument list to what the process wrote
    and how it ended. Echoing the command to the terminal and passing stderr through are
    not modelled. */
module GitCommands {
  import opened Wrappers
  import opened GoStrings
  import opened Errors
  import opened Seqs
  import FilePath

  /** git.Options */
  datatype Options = Options(quietCmd: bool, quietStderr: bool, path: string, noTrimLines: bool)

  const Default: Options := Options(false, false, "", false)
  const QuietOutput: Options := Options(false, true, "", false)
  const Mute: Options := Options(true, true, "", false)

  /** What the git process wrote to stdout and stderr, and its error if it failed. */
  datatype Ran = Ran(stdout: string, stderr: string, err: Option<Error>)

  type Git = seq<string> -> Ran

  /** The arguments git is run with: "-C <path>" first when a path is set. */
  function FullArgs(args: seq<string>, opts: Options): (r: seq<string>)
    ensures opts.path == "" ==> r == args
    ensures opts.path != "" ==> |r| == |args| + 2 && r[..2] == ["-C", opts.path] && r[2..] == args
  {
    if opts.path != "" then ["-C", opts.path] + args else args
  }

  /** The command line Output reports. */
  function CommandLine(args: seq<string>, opts: Options): string {
    "git " + Join(FullArgs(args, opts), " ")
  }

  /** Output: the trimmed stdout, or a git error carrying the command line and, when stderr
      was captured rather than passed through, what git wrote there. */
  function Output(args: seq<string>, opts: Options, git: Git): (r: Result<string, Error>)
    ensures var ran := git(FullArgs(args, opts));
      && (r.Ok? <==> ran.err.None?)
      && (r.Ok? ==> r.value == TrimSpace(ran.stdout))
      && (r.Err? ==>
        && r.error.Exec?
        && r.error.cause == ran.err.value
        && r.error.cmd == CommandLine(args, opts)
        && r.error.quietCmd == opts.quietCmd
        && r.error.stderr == (if opts.quietStderr then ran.stderr else ""))
  {
    var ran := git(FullArgs(args, opts));
    match ran.err
    case Some(e) => Err(Errors.Exec(if opts.quietStderr then ran.stderr else "", e, CommandLine(args, opts), opts.quietCmd))
    case None => Ok(TrimSpace(ran.stdout))
  }

  /** Exec: Output's error, the output dropped. */
  function Exec(args: seq<string>, opts: Options, git: Git): (r: Option<Error>)
    ensures r.None? <==> Output(args, opts, git).Ok?
    ensures r.Some? ==> r.value == Output(args, opts, git).error
  {
    match Output(args, opts, git)
    case Err(e) => Some(e)
    case Ok(_) => None
  }

  predicate NotBlank(s: string) { s != "" }

  /** The lines OutputItems keeps from git's output: trimmed, the blank ones dropped. */
  function Items(out: string, noTrimLines: bool): (r: seq<string>)
    ensures noTrimLines ==> r == Split(out, '\n')
    ensures !noTrimLines ==> r == Filter(Map(Split(out, '\n'), TrimSpace), NotBlank)
  {
    if noTrimLines then Split(out, '\n') else Filter(Map(Split(out, '\n'), TrimSpace), NotBlank)
  }

  /** OutputItems */
  method OutputItems(args: seq<string>, opts: Options, git: Git) returns (r: Result<seq<string>, Error>)
    ensures match Output(args, opts, git)
      case Err(e) => r == Err(e)
      case Ok(out) => r == Ok(Items(out, opts.noTrimLines))
  {
    var out :- Output(args, opts, git);
    var rawLines := Split(out, '\n');
    if opts.noTrimLines {
      return Ok(rawLines);
    }
    var lines := TrimmedItems(rawLines);
    return Ok(lines);
  }

  /** The loop of OutputItems: each line trimmed, the blank ones skipped. */
  method TrimmedItems(rawLines: seq<string>) returns (lines: seq<string>)
    ensures lines == Filter(Map(rawLines, TrimSpace), NotBlank)
  {
    lines := [];
    for i := 0 to |rawLines|
      invariant lines == Filter(Map(rawLines[..i], TrimSpace), NotBlank)
    {
      MapFilterPrefixStep(rawLines, i, TrimSpace, NotBlank);
      var line := TrimSpace(rawLines[i]);
      if line == "" {
        continue;
      }
      lines := lines + [line];
    }
    assert rawLines[..|rawLines|] == rawLines;
  }

  /** Clone: `git clone <url> <path>`; it fails exactly when git does, naming the command. */
  function Clone(url: string, path: string, opts: Options, git: Git): (r: Option<Error>)
    ensures r.None? <==> git(FullArgs(["clone", url, path], opts)).err.None?
    ensures r.Some? ==> r.value.Exec? && r.value.cause == git(FullArgs(["clone", url, path], opts)).err.value
    ensures r.Some? ==> r.value.cmd == CommandLine(["clone", url, path], opts)
  {
    Exec(["clone", url, path], opts, git)
  }

  /** SetRemoteURL: `git remote set-url <remote> <url>`. */
  function SetRemoteURL(remote: string, url: string, opts: Options, git: Git): (r: Option<Error>)
    ensures r.None? <==> git(FullArgs(["remote", "set-url", remote, url], opts)).err.None?
    ensures r.Some? ==> r.value.Exec? && r.value.cause == git(FullArgs(["remote", "set-url", remote, url], opts)).err.value
    ensures r.Some? ==> r.value.cmd == CommandLine(["remote", "set-url", remote, url], opts)
  {
    Exec(["remote", "set-url", remote, url], opts, git)
  }

  /** Config: `git config <name> <value>`. */
  function Config(name: string, value: string, opts: Options, git: Git): (r: Option<Error>)
    ensures r.None? <==> git(FullArgs(["config", name, value], opts)).err.None?
    ensures r.Some? ==> r.value.Exec? && r.value.cause == git(FullArgs(["config", name, value], opts)).err.value
    ensures r.Some? ==> r.value.cmd == CommandLine(["config", name, value], opts)
  {
    Exec(["config", name, value], opts, git)
  }

  method ListRemotes(opts: Options, git: Git) returns (r: Result<seq<string>, Error>)
    ensures match Output(["remote"], opts, git)
      case Err(e) => r == Err(e)
      case Ok(out) => r == Ok(Items(out, opts.noTrimLines))
  {
    r := OutputItems(["remote"], opts, git);
  }

  /** The arguments of Checkout: "checkout", "-b" when the branch is created, the name. */
  function CheckoutArgs(name: string, create: bool): (r: seq<string>)
    ensures |r| == if create then 3 else 2
    ensures r[0] == "checkout" && r[|r| - 1] == name
    ensures create ==> r[1] == "-b"
  {
    var args := ["checkout"];
    var args := if create then args + ["-b"] else args;
    args + [name]
  }

  /** Checkout: git run with CheckoutArgs. */
  function Checkout(name: string, create: bool, opts: Options, git: Git): (r: Option<Error>)
    ensures r.None? <==> git(FullArgs(CheckoutArgs(name, create), opts)).err.None?
    ensures r.Some? ==> r.value.Exec? && r.value.cause == git(FullArgs(CheckoutArgs(name, create), opts)).err.value
    ensures r.Some? ==> r.value.cmd == CommandLine(CheckoutArgs(name, create), opts)
  {
    Exec(CheckoutArgs(name, create), opts, git)
  }

  /** The arguments of Fetch: "fetch <remote>", then "--prune" for branches and
      "--prune-tags" for tags. */
  function FetchArgs(remote: string, branch: bool, tag: bool): (r: seq<string>)
    ensures |r| == 2 + (if branch then 1 else 0) + (if tag then 1 else 0)
    ensures r[..2] == ["fetch", remote]
    ensures branch ==> r[2] == "--prune"
    ensures tag ==> r[|r| - 1] == "--prune-tags"
  {
    var args := ["fetch", remote];
    var args := if branch then args + ["--prune"] else args;
    if tag then args + ["--prune-tags"] else args
  }

  /** Fetch: git run with FetchArgs. */
  function Fetch(remote: string, branch: bool, tag: bool, opts: Options, git: Git): (r: Option<Error>)
    ensures r.None? <==> git(FullArgs(FetchArgs(remote, branch, tag), opts)).err.None?
    ensures r.Some? ==> r.value.Exec? && r.value.cause == git(FullArgs(FetchArgs(remote, branch, tag), opts)).err.value
    ensures r.Some? ==> r.value.cmd == CommandLine(FetchArgs(remote, branch, tag), opts)
  {
    Exec(FetchArgs(remote, branch, tag), opts, git)
  }

  /** EnsureNoUncommitted: the status lines, when there are any, become the error. */
  method EnsureNoUncommitted(opts: Options, git: Git) returns (r: Option<Error>)
    ensures match Output(["status", "-s"], opts, git)
      case Err(e) => r == Some(e)
      case Ok(out) =>
        var changes := Items(out, opts.noTrimLines);
        (r.None? <==> changes == []) && (r.Some? ==> r.value == UncommittedChange(changes))
  {
    var changes := OutputItems(["status", "-s"], opts, git);
    if changes.Err? {
      return Some(changes.error);
    }
    if |changes.value| > 0 {
      return Some(UncommittedChange(changes.value));
    }
    return None;
  }

  /** The reference a remote's branches live under. */
  function RemoteRef(remote: string): string {
    "refs/remotes/" + remote + "/"
  }

  /** What GetMainBranch makes of the symbolic reference git printed. */
  function MainBranchOf(remote: string, out: string): (r: Result<string, Error>)
    ensures r.Ok? <==> out != "" && HasPrefix(out, RemoteRef(remote))
    ensures out == "" ==> r == Err(Plain("main branch is empty"))
    ensures out != "" && !HasPrefix(out, RemoteRef(remote)) ==> r == Err(Plain("invalid ref " + Quote(out)))
    ensures r.Ok? ==> RemoteRef(remote) + r.value == out
  {
    var ref := RemoteRef(remote);
    if out == "" then Err(Plain("main branch is empty"))
    else if !HasPrefix(out, ref) then Err(Plain("invalid ref " + Quote(out)))
    else Ok(TrimPrefix(out, ref))
  }

  /** GetMainBranch: asks git where the remote's HEAD points. */
  function GetMainBranch(remote: string, opts: Options, git: Git): (r: Result<string, Error>)
    ensures var out := Output(["symbolic-ref", FilePath.JoinPath([RemoteRef(remote), "HEAD"])], opts, git);
      r == if out.Err? then Err(out.error) else MainBranchOf(remote, out.value)
  {
    var headRef := FilePath.JoinPath([RemoteRef(remote), "HEAD"]);
    var out :- Output(["symbolic-ref", headRef], opts, git);
    MainBranchOf(remote, out)
  }

  // ---------------------------------------------------------------------------------------

  /** A branch under the remote's reference is read back as itself. */
  lemma MainBranchRoundTrip(remote: string, branch: string)
    ensures MainBranchOf(remote, RemoteRef(remote) + branch) == Ok(branch)
  {
    var ref := RemoteRef(remote);
    assert (ref + branch)[..|ref|] == ref;
    assert (ref + branch)[|ref|..] == branch;
    assert (ref + branch) != "" by { assert |ref + branch| >= |ref| > 0; }
  }

  /** Trimmed items are never blank and keep the order of git's lines. */
  lemma ItemsAreTrimmedLines(out: string, k: nat)
    requires k < |Items(out, false)|
    ensures Items(out, false)[k] != ""
    ensures Items(out, false)[k] in Map(Split(out, '\n'), TrimSpace)
  {
    assert Items(out, false)[k] in Items(out, false);
  }

  /** Nothing is kept exactly when every trimmed line is blank: EnsureNoUncommitted passes
      exactly when git's status lines are all blank. */
  lemma {:induction false} NoItemsIffBlank(lines: seq<string>)
    ensures Filter(lines, NotBlank) == [] <==> forall k :: 0 <= k < |lines| ==> lines[k] == ""
  {
    if lines != [] {
      NoItemsIffBlank(lines[..|lines| - 1]);
      var init := lines[..|lines| - 1];
      assert forall k :: 0 <= k < |init| ==> init[k] == lines[k];
    }
  }
}
