/** cmd/repo/merge.go: the options of a merge request and the title and body the user
    edits for it. The provider API, the current branch git reports, the editor and the
    confirmation prompts are parameters or left out. */
module Merge {
  import opened Wrappers
  import opened GoStrings
  import opened Errors
  import opened Seqs
  import App

  /** api.Repository, as far as a merge request reads it. */
  datatype ApiRepo = ApiRepo(name: string, defaultBranch: string, upstream: Option<ApiRepo>)

  /** api.MergeOption */
  datatype MergeOption = MergeOption(
    sourceBranch: string, targetBranch: string, upstream: Option<ApiRepo>, title: string, body: string)

  /** mergeBuildOptions: the target is the argument or the repository's default branch; the
      source is the --source flag or the current branch, which git is asked for only when
      the flag is empty; with --upstream the repository must have an upstream. */
  function BuildOptions(args: seq<string>, sourceFlag: string, upstreamFlag: bool, repo: ApiRepo,
                        currentBranch: Result<string, Error>): (r: Result<MergeOption, Error>)
    ensures sourceFlag == "" && currentBranch.Err? ==> r == Err(currentBranch.error)
    ensures (sourceFlag != "" || currentBranch.Ok?) && upstreamFlag && repo.upstream.None? ==>
      r == Err(Plain("repo " + repo.name + " does not have an upstream"))
    ensures r.Ok? <==> (sourceFlag != "" || currentBranch.Ok?) && (upstreamFlag ==> repo.upstream.Some?)
    ensures r.Ok? ==>
      && r.value.targetBranch == (if App.Arg(args, 0) != "" then App.Arg(args, 0) else repo.defaultBranch)
      && r.value.sourceBranch == (if sourceFlag != "" then sourceFlag else currentBranch.value)
      && r.value.upstream == (if upstreamFlag then repo.upstream else None)
      && r.value.title == "" && r.value.body == ""
  {
    var tar := App.Arg(args, 0);
    var tar := if tar == "" then repo.defaultBranch else tar;
    if sourceFlag == "" && currentBranch.Err? then Err(currentBranch.error)
    else
      var src := if sourceFlag == "" then currentBranch.value else sourceFlag;
      if upstreamFlag && repo.upstream.None? then Err(Plain("repo " + repo.name + " does not have an upstream"))
      else Ok(MergeOption(src, tar, if upstreamFlag then repo.upstream else None, "", ""))
  }

  /** The first index of a line starting with "#", or -1. */
  function Heading(lines: seq<string>): (h: int)
    ensures -1 <= h < |lines|
    ensures h >= 0 ==> HasPrefix(lines[h], "#") && forall k :: 0 <= k < h ==> !HasPrefix(lines[k], "#")
    ensures h < 0 ==> forall k :: 0 <= k < |lines| ==> !HasPrefix(lines[k], "#")
  {
    if lines == [] then -1
    else if HasPrefix(lines[0], "#") then 0
    else
      var h := Heading(lines[1..]);
      assert forall k :: 1 <= k < |lines| ==> lines[k] == lines[1..][k - 1];
      if h < 0 then -1 else h + 1
  }

  /** The title line without its "#" and the lines after it, from the trimmed lines of
      the edited file; without a "#" line, no title and no body. Lines before the title
      line are dropped. */
  function Extract(lines: seq<string>): (r: (string, seq<string>))
    ensures Heading(lines) < 0 ==> r == ("", [])
    ensures Heading(lines) >= 0 ==> HasPrefix(lines[Heading(lines)], "#") && r.1 == lines[Heading(lines) + 1..]
  {
    var h := Heading(lines);
    if h < 0 then ("", []) else (TrimPrefix(lines[h], "#"), lines[h + 1..])
  }

  /** The title trimmed and the body lines joined and trimmed; a blank title is refused. */
  function Finish(title: string, bodyLines: seq<string>): (r: Result<(string, string), Error>)
    ensures r.Err? <==> TrimSpace(title) == ""
    ensures r.Err? ==> r.error == Plain("merge title cannot be empty")
    ensures r.Ok? ==> r.value == (TrimSpace(title), TrimSpace(Join(bodyLines, "\n")))
  {
    var title := TrimSpace(title);
    if title == "" then Err(Plain("merge title cannot be empty"))
    else Ok((title, TrimSpace(Join(bodyLines, "\n"))))
  }

  /** What the editing yields from the trimmed lines of the edited file. */
  function TitleAndBody(lines: seq<string>): Result<(string, string), Error> {
    var (title, body) := Extract(lines);
    Finish(title, body)
  }

  /** The `%v` of a bool. */
  function FormatBool(b: bool): string {
    if b then "true" else "false"
  }

  /** What mergeEditContent is filled in with: the source and target branch and whether
      the merge goes upstream. */
  datatype Seed = Seed(source: string, target: string, upstream: bool)

  function SeedOf(opts: MergeOption): Seed {
    Seed(opts.sourceBranch, opts.targetBranch, opts.upstream.Some?)
  }

  /** mergeEditContent's text before the source branch, and after the upstream flag. */
  const SeedHead := "<!-- Please edit title and body for the new Merge.\nMerge Info:\n* Source Branch: "
  const SeedTail := "\n\nThis file use markdown syntax, we will treat h1 title (starts with '#') as Merge's title."
    + "\nThe rest content above h1 title (not include title itself) will be treated as Merge's body."
    + "\n\nAfter editing done, please quit this editor to continue.\n-->\n\n#\n"

  /** mergeEditContent filled in: the merge's branches, then an empty "#" title line for
      the user to complete. */
  function SeedText(seed: Seed): string {
    SeedHead + seed.source
    + "\n* Target Branch: " + seed.target + "\n* Is Upstream:   " + FormatBool(seed.upstream) + SeedTail
  }

  /** mergeEditTitleAndBody. The editor is a parameter from the text it is given, the
      merge's SeedText, to the edited text or its error. */
  method EditTitleAndBody(opts: MergeOption, edit: string -> Result<string, Error>)
    returns (r: Result<(string, string), Error>)
    ensures match edit(SeedText(SeedOf(opts)))
      case Err(e) => r == Err(e)
      case Ok(content) => r == TitleAndBody(Map(Split(content, '\n'), TrimSpace))
  {
    var content :- edit(SeedText(SeedOf(opts)));
    r := ParseTitleAndBody(Split(content, '\n'));
  }

  /** The rest of mergeEditTitleAndBody: the edited lines scanned, then the title and
      body trimmed. */
  method ParseTitleAndBody(rawLines: seq<string>) returns (r: Result<(string, string), Error>)
    ensures r == TitleAndBody(Map(rawLines, TrimSpace))
  {
    var title, bodyLines := ScanLines(rawLines);
    title := TrimSpace(title);
    if title == "" {
      return Err(Plain("merge title cannot be empty"));
    }
    var body := Join(bodyLines, "\n");
    body := TrimSpace(body);
    return Ok((title, body));
  }

  /** The loop of mergeEditTitleAndBody over the edited lines: each is trimmed; the first
      one starting with "#" gives the title and switches to collecting the body. */
  method ScanLines(rawLines: seq<string>) returns (title: string, bodyLines: seq<string>)
    ensures (title, bodyLines) == Extract(Map(rawLines, TrimSpace))
  {
    ghost var lines := Map(rawLines, TrimSpace);
    title := "";
    bodyLines := [];
    var scanBody := false;
    for i := 0 to |rawLines|
      invariant Scanned(lines, i, scanBody, title, bodyLines)
    {
      var line := TrimSpace(rawLines[i]);
      assert line == lines[i];
      ScanStep(lines, i, scanBody, title, bodyLines);
      if HasPrefix(line, "#") && !scanBody {
        title := TrimPrefix(line, "#");
        scanBody := true;
        continue;
      }
      if scanBody {
        bodyLines := bodyLines + [line];
      }
    }
    assert lines[..|rawLines|] == lines;
  }

  /** The state of the scan after the first i lines: whether a title line was seen, the
      title it gave and the lines after it. */
  predicate Scanned(lines: seq<string>, i: nat, scanBody: bool, title: string, bodyLines: seq<string>)
    requires i <= |lines|
  {
    var h := Heading(lines[..i]);
    && (scanBody <==> h >= 0)
    && (h < 0 ==> title == "" && bodyLines == [])
    && (h >= 0 ==> title == TrimPrefix(lines[h], "#") && bodyLines == lines[h + 1..i])
  }

  /** One step of the scan keeps its state right. */
  lemma ScanStep(lines: seq<string>, i: nat, scanBody: bool, title: string, bodyLines: seq<string>)
    requires i < |lines| && Scanned(lines, i, scanBody, title, bodyLines)
    ensures HasPrefix(lines[i], "#") && !scanBody ==> Scanned(lines, i + 1, true, TrimPrefix(lines[i], "#"), bodyLines)
    ensures scanBody ==> Scanned(lines, i + 1, true, title, bodyLines + [lines[i]])
    ensures !HasPrefix(lines[i], "#") && !scanBody ==> Scanned(lines, i + 1, false, title, bodyLines)
  {
    HeadingStep(lines, i);
    if scanBody {
      var h := Heading(lines[..i]);
      assert lines[h + 1..i + 1] == lines[h + 1..i] + [lines[i]];
    } else if HasPrefix(lines[i], "#") {
      assert lines[i + 1..i + 1] == [];
    }
  }

  /** The heading of a prefix one line longer. */
  lemma HeadingStep(lines: seq<string>, i: nat)
    requires i < |lines|
    ensures Heading(lines[..i + 1]) == if Heading(lines[..i]) >= 0 then Heading(lines[..i])
      else if HasPrefix(lines[i], "#") then i else -1
  {
    var h := Heading(lines[..i + 1]);
    assert forall k :: 0 <= k < i ==> lines[..i + 1][k] == lines[..i][k];
  }

  /** The lines of the body and the title, as mergeShowInfo prints them: the title, the
      number of body lines, and the two branches; to an upstream, each branch is shown
      with its repository's name. */
  function ShowInfo(repoName: string, opts: MergeOption): (r: seq<string>)
    ensures |r| == 4
  {
    var lineCount := |Split(opts.body, '\n')|;
    var src := if opts.upstream.None? then "green|" + opts.sourceBranch + "|"
      else "magenta|" + repoName + "|:greeen|" + opts.sourceBranch + "|";
    var tar := if opts.upstream.None? then "green|" + opts.targetBranch + "|"
      else "magenta|" + opts.upstream.value.name + "|:greeen|" + opts.targetBranch + "|";
    [" * Title:  green|" + opts.title + "|", " * Body:   green|" + Plural(lineCount, "line") + "|",
     " * Source: " + src, " * Target: " + tar]
  }

  // ---------------------------------------------------------------------------------------

  /** Lines before the title are ignored: prepending lines that do not start with "#"
      changes nothing. */
  lemma PreambleIgnored(pre: seq<string>, lines: seq<string>)
    requires forall k :: 0 <= k < |pre| ==> !HasPrefix(pre[k], "#")
    ensures TitleAndBody(pre + lines) == TitleAndBody(lines)
  {
    PreambleExtract(pre, lines);
  }

  lemma PreambleExtract(pre: seq<string>, lines: seq<string>)
    requires forall k :: 0 <= k < |pre| ==> !HasPrefix(pre[k], "#")
    ensures Extract(pre + lines) == Extract(lines)
  {
    var all := pre + lines;
    var h := Heading(lines);
    if h >= 0 {
      assert HasPrefix(all[|pre| + h], "#");
      assert Heading(all) == |pre| + h;
      assert all[|pre| + h + 1..] == lines[h + 1..];
    } else {
      assert Heading(all) < 0;
    }
  }

  /** A file whose first line is "#" and a title: the title is read back without its "#",
      and every later line belongs to the body. */
  lemma TitleFirst(title: string, body: seq<string>)
    ensures Extract(["#" + title] + body) == (title, body)
  {
    var lines := ["#" + title] + body;
    assert HasPrefix(lines[0], "#");
    assert Heading(lines) == 0;
    assert TrimPrefix(lines[0], "#") == title;
    assert lines[1..] == body;
  }

  /** Further "#" lines after the title belong to the body. */
  lemma LaterHeadingsInBody(lines: seq<string>, k: nat)
    requires 0 <= Heading(lines) < k < |lines|
    ensures lines[k] in Extract(lines).1
  {
    assert lines[k] == lines[Heading(lines) + 1..][k - Heading(lines) - 1];
  }

  /** The options point from the chosen source branch to the chosen target: with an
      argument, the argument is the target whatever the default branch. */
  lemma TargetFromArgument(args: seq<string>, sourceFlag: string, repo: ApiRepo)
    requires |args| >= 1 && args[0] != "" && sourceFlag != ""
    ensures BuildOptions(args, sourceFlag, false, repo, Err(Plain(""))) ==
      Ok(MergeOption(sourceFlag, args[0], None, "", ""))
  {
  }
}
