/** core/workflow.go: the places a workflow runs in. Repository selectors "remote[:pattern]"
    pick stored repositories, directory selectors name git directories or, ending in "*",
    directories to scan for them; the places are listed once each. Glob matching, checking
    directories, expanding variables, scanning for repositories and reading a remote's
    configuration are passed in. */
module Workflow {
  import opened Wrappers
  import opened GoStrings
  import opened Errors
  import opened Repository
  import opened Seqs
  import Storage
  import Remote

  datatype WorkflowSelect = WorkflowSelect(repos: seq<string>, dirs: seq<string>)

  /** workflowRepoMatch */
  datatype RepoSelector = RepoSelector(remote: string, pattern: string)

  /** A place the workflow runs in: its path, its environment, and the repository when it
      came from a repository selector. */
  datatype MatchItem = MatchItem(path: string, env: map<string, string>, repo: Option<Repo>)

  /** filepath.Match(pattern, name): whether it matches, or the message of a malformed
      pattern. */
  type GlobMatch = (string, string) -> Result<bool, string>

  // ---------------------------------------------------------------------------------------
  // Selector parsing

  /** The selector parsed in matchRepos: without ":" the whole text names a remote and every
      repository of it; otherwise the remote is the text before the first ":" and the
      pattern all after it, "*" when that is empty. */
  function ParseSelector(s: string): (r: RepoSelector)
    ensures ':' !in s ==> r == RepoSelector(s, "*")
    ensures ':' in s ==> ':' !in r.remote && |r.remote| < |s| && s[..|r.remote|] == r.remote && s[|r.remote|] == ':'
    ensures ':' in s ==> r.pattern == if s[|r.remote| + 1..] == "" then "*" else s[|r.remote| + 1..]
  {
    var tmp := Split(s, ':');
    if |tmp| == 1 then
      SplitNoColon(s);
      RepoSelector(tmp[0], "*")
    else
      var pattern := Join(tmp[1..], ":");
      SplitHead(s);
      RepoSelector(tmp[0], if pattern == "" then "*" else pattern)
  }

  lemma SplitNoColon(s: string)
    requires |Split(s, ':')| == 1
    ensures ':' !in s && Split(s, ':') == [s]
  {
    if ':' in s {
      SplitHasSeparator(s, ':');
    }
    SplitNoSeparator(s, ':');
  }

  /** Split at ':' and rejoin the tail: the head is the text before the first ':'. */
  lemma SplitHead(s: string)
    requires |Split(s, ':')| >= 2
    ensures var tmp := Split(s, ':');
      ':' !in tmp[0] && s == tmp[0] + ":" + Join(tmp[1..], ":")
  {
    var tmp := Split(s, ':');
    JoinOfSplit(s, ':');
    SplitPiecesLackSeparator(s, ':');
    assert Join(tmp, ":") == tmp[0] + ":" + Join(tmp[1..], ":");
  }

  /** The selector keeps its parts: rejoining remote and an explicit pattern gives the text
      back. */
  lemma ParseSelectorRoundTrip(remote: string, pattern: string)
    requires ':' !in remote && pattern != "" && pattern != "*"
    ensures ParseSelector(remote + ":" + pattern) == RepoSelector(remote, pattern)
  {
    var s := remote + ":" + pattern;
    assert s[|remote|] == ':';
    var r := ParseSelector(s);
    assert r.remote == remote by {
      PrefixWithoutColon(s, r.remote, remote);
    }
    assert s[|remote| + 1..] == pattern;
  }

  /** Two colon-free prefixes of s, each followed by ':', are the same. */
  lemma PrefixWithoutColon(s: string, a: string, b: string)
    requires |a| < |s| && s[..|a|] == a && s[|a|] == ':' && ':' !in a
    requires |b| < |s| && s[..|b|] == b && s[|b|] == ':' && ':' !in b
    ensures a == b
  {
  }

  // ---------------------------------------------------------------------------------------
  // workflowRepoMatch.match

  function PatternError(pattern: string, msg: string): Error {
    Plain("invalid pattern " + Quote(pattern) + ": " + msg)
  }

  /** The filter a selector's pattern stands for. */
  function Matches(pattern: string, glob: GlobMatch): Repo -> bool {
    (r: Repo) => glob(pattern, r.name) == Ok(true)
  }

  /** repos[k] is the first repository whose name the pattern is malformed for. */
  predicate FirstBadName(repos: seq<Repo>, pattern: string, glob: GlobMatch, k: int) {
    0 <= k < |repos| && glob(pattern, repos[k].name).Err? &&
    forall i :: 0 <= i < k ==> glob(pattern, repos[i].name).Ok?
  }

  /** The loop of match: the repositories the pattern matches, in order, or the error of the
      first name it is malformed for. */
  function PatternFilter(repos: seq<Repo>, pattern: string, glob: GlobMatch): (r: Result<seq<Repo>, Error>)
    ensures r.Ok? <==> forall i :: 0 <= i < |repos| ==> glob(pattern, repos[i].name).Ok?
    ensures r.Ok? ==> r.value == Filter(repos, Matches(pattern, glob))
    ensures r.Err? ==>
      exists k :: FirstBadName(repos, pattern, glob, k) && r.error == PatternError(pattern, glob(pattern, repos[k].name).error)
    decreases |repos|
  {
    if repos == [] then Ok([])
    else
      var init := repos[..|repos| - 1];
      var last := repos[|repos| - 1];
      assert forall i :: 0 <= i < |init| ==> init[i] == repos[i];
      match PatternFilter(init, pattern, glob)
      case Err(e) =>
        ghost var k :| FirstBadName(init, pattern, glob, k) && e == PatternError(pattern, glob(pattern, init[k].name).error);
        assert FirstBadName(repos, pattern, glob, k);
        Err(e)
      case Ok(kept) =>
        assert repos == init + [last];
        FilterSnoc(init, last, Matches(pattern, glob));
        match glob(pattern, last.name)
        case Err(msg) =>
          assert FirstBadName(repos, pattern, glob, |repos| - 1);
          Err(PatternError(pattern, msg))
        case Ok(ok) => Ok(if ok then kept + [last] else kept)
  }

  /** Once a prefix has a bad name, the whole filter fails with its error. */
  lemma {:induction false} PatternFilterErrPersists(repos: seq<Repo>, pattern: string, glob: GlobMatch, n: nat)
    requires n <= |repos| && PatternFilter(repos[..n], pattern, glob).Err?
    ensures PatternFilter(repos, pattern, glob) == PatternFilter(repos[..n], pattern, glob)
    decreases |repos|
  {
    if n < |repos| {
      var init := repos[..|repos| - 1];
      assert init[..n] == repos[..n];
      PatternFilterErrPersists(init, pattern, glob, n);
    } else {
      assert repos[..n] == repos;
    }
  }

  lemma PatternFilterStep(repos: seq<Repo>, pattern: string, glob: GlobMatch, i: nat)
    requires i < |repos| && PatternFilter(repos[..i], pattern, glob).Ok?
    ensures var kept := PatternFilter(repos[..i], pattern, glob).value;
      var g := glob(pattern, repos[i].name);
      PatternFilter(repos[..i + 1], pattern, glob) ==
        if g.Err? then Err(PatternError(pattern, g.error)) else Ok(if g.value then kept + [repos[i]] else kept)
  {
    assert repos[..i + 1][..i] == repos[..i];
  }

  /** The filtering loop of match. */
  method FilterByPattern(repos: seq<Repo>, pattern: string, glob: GlobMatch) returns (r: Result<seq<Repo>, Error>)
    ensures r == PatternFilter(repos, pattern, glob)
  {
    var filters: seq<Repo> := [];
    for i := 0 to |repos|
      invariant PatternFilter(repos[..i], pattern, glob) == Ok(filters)
    {
      PatternFilterStep(repos, pattern, glob, i);
      var repo := repos[i];
      var res := glob(pattern, repo.name);
      if res.Err? {
        PatternFilterErrPersists(repos, pattern, glob, i + 1);
        return Err(PatternError(pattern, res.error));
      }
      if res.value {
        filters := filters + [repo];
      }
    }
    assert repos[..|repos|] == repos;
    return Ok(filters);
  }

  /** The repositories of a selector's remote, all of them for "". */
  function OfSelector(repos: seq<Repo>, m: RepoSelector): seq<Repo> {
    Filter(repos, Storage.OfRemote(m.remote))
  }

  /** match as written: the pattern is matched against every name, but the filtered list is
      dropped and the remote's whole list is returned. */
  function SelectorMatchAsWritten(repos: seq<Repo>, m: RepoSelector, glob: GlobMatch): (r: Result<seq<Repo>, Error>)
    ensures r.Ok? ==> r.value == OfSelector(repos, m)
    ensures r.Err? <==> PatternFilter(OfSelector(repos, m), m.pattern, glob).Err?
  {
    var listed := OfSelector(repos, m);
    var filtered :- PatternFilter(listed, m.pattern, glob);
    Ok(listed)
  }

  /** match as intended: the repositories of the remote whose names the pattern matches. */
  function SelectorMatch(repos: seq<Repo>, m: RepoSelector, glob: GlobMatch): (r: Result<seq<Repo>, Error>)
    ensures r.Ok? ==> forall x :: x in r.value <==> x in repos && (m.remote == "" || x.remote == m.remote) && glob(m.pattern, x.name) == Ok(true)
    ensures r.Err? <==> exists i :: 0 <= i < |OfSelector(repos, m)| && glob(m.pattern, OfSelector(repos, m)[i].name).Err?
  {
    PatternFilter(OfSelector(repos, m), m.pattern, glob)
  }

  /** With a pattern that matches nothing, the written match still selects the whole remote. */
  lemma SelectorMatchIgnoresPattern(repo: Repo)
    requires repo.remote != ""
    ensures var m := RepoSelector(repo.remote, "none");
      var glob: GlobMatch := (p, n) => Ok(false);
      SelectorMatchAsWritten([repo], m, glob) == Ok([repo]) && SelectorMatch([repo], m, glob) == Ok([])
  {
    var m := RepoSelector(repo.remote, "none");
    var glob: GlobMatch := (p, n) => Ok(false);
    assert Filter([repo], Storage.OfRemote(m.remote)) == [repo] by {
      assert [repo][..0] == [];
    }
  }

  /** match, as intended: lists the remote's repositories and keeps the matching ones. */
  method RepoMatch(store: Storage.RepositoryStorage, m: RepoSelector, glob: GlobMatch) returns (r: Result<seq<Repo>, Error>)
    ensures r == SelectorMatch(store.repos, m, glob)
  {
    var repos := store.List(m.remote);
    r := FilterByPattern(repos, m.pattern, glob);
  }

  /** match as written. */
  method RepoMatchAsWritten(store: Storage.RepositoryStorage, m: RepoSelector, glob: GlobMatch) returns (r: Result<seq<Repo>, Error>)
    ensures r == SelectorMatchAsWritten(store.repos, m, glob)
  {
    var repos := store.List(m.remote);
    var filters := FilterByPattern(repos, m.pattern, glob);
    if filters.Err? {
      return Err(filters.error);
    }
    return Ok(repos);
  }

  /** The matches of every selector, one selector after the other. */
  function SelectRepos(repos: seq<Repo>, sels: seq<string>, glob: GlobMatch): Result<seq<Repo>, Error> {
    Concat(Map(sels, (s: string) => SelectorMatch(repos, ParseSelector(s), glob)))
  }

  /** The first loop of matchRepos. */
  method ParseSelectors(sels: seq<string>) returns (matchers: seq<RepoSelector>)
    ensures matchers == Map(sels, ParseSelector)
  {
    matchers := [];
    for i := 0 to |sels|
      invariant matchers == Map(sels[..i], ParseSelector)
    {
      MapSnoc(sels[..i], sels[i], ParseSelector);
      assert sels[..i + 1] == sels[..i] + [sels[i]];
      matchers := matchers + [ParseSelector(sels[i])];
    }
    assert sels[..|sels|] == sels;
  }

  /** matchRepos: parses every selector, then appends each one's matches in order, stopping at
      the first error. */
  method MatchRepos(store: Storage.RepositoryStorage, sels: seq<string>, glob: GlobMatch) returns (r: Result<seq<Repo>, Error>)
    ensures r == SelectRepos(store.repos, sels, glob)
  {
    var matchers := ParseSelectors(sels);
    ghost var stored := store.repos;
    ghost var rs := Map(sels, (s: string) => SelectorMatch(stored, ParseSelector(s), glob));
    ghost var parts: seq<seq<Repo>> := [];
    var matched: seq<Repo> := [];
    for i := 0 to |matchers|
      invariant Collect(rs[..i]) == Ok(parts) && matched == Flatten(parts)
    {
      CollectPrefixStep(rs, i);
      var repos := RepoMatch(store, matchers[i], glob);
      if repos.Err? {
        CollectErrPersists(rs, i + 1);
        return Err(repos.error);
      }
      FlattenSnoc(parts, repos.value);
      parts := parts + [repos.value];
      matched := matched + repos.value;
    }
    assert rs[..|matchers|] == rs;
    return Ok(matched);
  }

  // ---------------------------------------------------------------------------------------
  // matchDirs

  /** What checking a directory for git gave. */
  datatype GitCheck = IsGit | NotGit | CheckFailed(err: Error)

  /** The outside world matchDirs consults: os.ExpandEnv, osutil.DirExists, git.EnsurePath
      and git.Discover (the paths of the repositories found under a directory). */
  datatype Probes = Probes(
    expand: string -> string,
    dirExists: string -> Result<bool, Error>,
    gitDir: string -> GitCheck,
    discover: string -> Result<seq<string>, Error>)

  /** The directory a selector names, with the scan mark removed and variables expanded. */
  function SelectedDir(d: string, p: Probes): string {
    p.expand(if HasSuffix(d, "*") then TrimSuffix(d, "*") else d)
  }

  /** One directory selector of matchDirs: the directory must exist; without the scan mark it
      must be a git directory and is the only place; with it, the repositories found under it
      are. */
  function DirPaths(d: string, p: Probes): (r: Result<seq<string>, Error>)
    ensures var dir := SelectedDir(d, p);
      p.dirExists(dir).Err? ==> r == Err(Trace(p.dirExists(dir).error, "check dir exists"))
    ensures var dir := SelectedDir(d, p);
      p.dirExists(dir) == Ok(false) ==> r == Err(Plain(dir + " is not exists"))
    ensures var dir := SelectedDir(d, p);
      p.dirExists(dir) == Ok(true) && !HasSuffix(d, "*") ==>
        r == match p.gitDir(dir)
             case IsGit => Ok([dir])
             case NotGit => Err(Plain(dir + " is not a git repository"))
             case CheckFailed(e) => Err(Trace(e, "check git dir"))
    ensures var dir := SelectedDir(d, p);
      var scanDir := TrimSuffix(TrimSuffix(dir, "/"), "*");
      p.dirExists(dir) == Ok(true) && HasSuffix(d, "*") ==>
        r == match p.discover(scanDir)
             case Ok(paths) => Ok(paths)
             case Err(e) => Err(Trace(e, "scan git dir"))
  {
    var scan := HasSuffix(d, "*");
    var dir := SelectedDir(d, p);
    match p.dirExists(dir)
    case Err(e) => Err(Trace(e, "check dir exists"))
    case Ok(false) => Err(Plain(dir + " is not exists"))
    case Ok(true) =>
      if !scan then
        match p.gitDir(dir)
        case IsGit => Ok([dir])
        case NotGit => Err(Plain(dir + " is not a git repository"))
        case CheckFailed(e) => Err(Trace(e, "check git dir"))
      else
        var scanDir := TrimSuffix(TrimSuffix(dir, "/"), "*");
        match p.discover(scanDir)
        case Ok(paths) => Ok(paths)
        case Err(e) => Err(Trace(e, "scan git dir"))
  }

  function SelectDirs(dirs: seq<string>, p: Probes): Result<seq<string>, Error> {
    Concat(Map(dirs, (d: string) => DirPaths(d, p)))
  }

  /** matchDirs: every selector's places in order, stopping at the first error. */
  method MatchDirs(dirs: seq<string>, p: Probes) returns (r: Result<seq<string>, Error>)
    ensures r == SelectDirs(dirs, p)
  {
    ghost var rs := Map(dirs, (d: string) => DirPaths(d, p));
    ghost var parts: seq<seq<string>> := [];
    var found: seq<string> := [];
    for i := 0 to |dirs|
      invariant Collect(rs[..i]) == Ok(parts) && found == Flatten(parts)
    {
      CollectPrefixStep(rs, i);
      var paths := DirPaths(dirs[i], p);
      if paths.Err? {
        CollectErrPersists(rs, i + 1);
        return Err(paths.error);
      }
      FlattenSnoc(parts, paths.value);
      parts := parts + [paths.value];
      found := found + paths.value;
    }
    assert rs[..|dirs|] == rs;
    return Ok(found);
  }

  // ---------------------------------------------------------------------------------------
  // Match

  /** The place a selected repository stands for: its path and the environment SetEnv gives
      it, with its remote's configuration when it has a remote. */
  function RepoItem(repo: Repo, getRemote: string -> Result<Remote.RemoteConfig, Error>): (r: Result<MatchItem, Error>)
    ensures r.Ok? ==> r.value.path == repo.path && r.value.repo == Some(repo)
    ensures repo.remote != "" && getRemote(repo.remote).Err? ==> r == Err(Trace(getRemote(repo.remote).error, "get remote " + Quote(repo.remote)))
    ensures r.Ok? ==> "REPO_NAME" in r.value.env && r.value.env["REPO_NAME"] == repo.name
    ensures r.Ok? ==> "REPO_PATH" in r.value.env && r.value.env["REPO_PATH"] == repo.path
  {
    var remote :- if repo.remote == "" then Ok(None) else
      match getRemote(repo.remote)
      case Err(e) => Err(Trace(e, "get remote " + Quote(repo.remote)))
      case Ok(c) => Ok(Some(c));
    var (env, err) := Remote.SetEnv(repo, remote, map[]);
    if err.Some? then Err(Trace(err.value, "set repo env"))
    else Ok(MatchItem(repo.path, env, Some(repo)))
  }

  function Path(item: MatchItem): string {
    item.path
  }

  /** The items with a path listed before, dropped: the paths that are left are the distinct
      paths in order of first appearance. */
  function UniqueByPath(items: seq<MatchItem>): (r: seq<MatchItem>)
    ensures Map(r, Path) == Dedup(Map(items, Path))
    ensures forall x :: x in r ==> x in items
    decreases |items|
  {
    if items == [] then []
    else
      var init := items[..|items| - 1];
      var last := items[|items| - 1];
      var kept := UniqueByPath(init);
      assert items == init + [last];
      MapSnoc(init, last, Path);
      DedupSnoc(Map(init, Path), last.path);
      if last.path in Map(kept, Path) then kept
      else
        MapSnoc(kept, last, Path);
        kept + [last]
  }

  lemma UniqueByPathStep(items: seq<MatchItem>, i: nat)
    requires i < |items|
    ensures UniqueByPath(items[..i + 1]) ==
      if items[i].path in Map(UniqueByPath(items[..i]), Path) then UniqueByPath(items[..i])
      else UniqueByPath(items[..i]) + [items[i]]
  {
    assert items[..i + 1][..i] == items[..i];
  }

  /** The dedup loop at the end of Match. */
  method Unique(items: seq<MatchItem>) returns (unique: seq<MatchItem>)
    ensures unique == UniqueByPath(items)
  {
    unique := [];
    var seen: set<string> := {};
    for i := 0 to |items|
      invariant unique == UniqueByPath(items[..i])
      invariant forall p :: p in seen <==> p in Map(unique, Path)
    {
      UniqueByPathStep(items, i);
      var item := items[i];
      if item.path in seen {
        continue;
      }
      seen := seen + {item.path};
      MapSnoc(unique, item, Path);
      unique := unique + [item];
    }
    assert items[..|items|] == items;
  }

  /** The places of the repository selectors, in order, when there are any. */
  function RepoItems(sel: WorkflowSelect, repos: seq<Repo>, glob: GlobMatch,
                     getRemote: string -> Result<Remote.RemoteConfig, Error>): Result<seq<MatchItem>, Error> {
    if |sel.repos| == 0 then Ok([])
    else
      var matched :- SelectRepos(repos, sel.repos, glob);
      Collect(Map(matched, (r: Repo) => RepoItem(r, getRemote)))
  }

  function DirItem(path: string): MatchItem {
    MatchItem(path, map[], None)
  }

  /** The places of the directory selectors, in order, when there are any. */
  function DirItems(sel: WorkflowSelect, p: Probes): Result<seq<MatchItem>, Error> {
    if |sel.dirs| == 0 then Ok([])
    else
      var paths :- SelectDirs(sel.dirs, p);
      Ok(Map(paths, DirItem))
  }

  /** The first loop of Match: each selected repository's place, stopping at the first
      error. */
  method ItemsOfRepos(repos: seq<Repo>, getRemote: string -> Result<Remote.RemoteConfig, Error>)
    returns (r: Result<seq<MatchItem>, Error>)
    ensures r == Collect(Map(repos, (x: Repo) => RepoItem(x, getRemote)))
  {
    ghost var rs := Map(repos, (x: Repo) => RepoItem(x, getRemote));
    var items: seq<MatchItem> := [];
    for i := 0 to |repos|
      invariant Collect(rs[..i]) == Ok(items)
    {
      CollectPrefixStep(rs, i);
      var item := RepoItem(repos[i], getRemote);
      if item.Err? {
        CollectErrPersists(rs, i + 1);
        return Err(item.error);
      }
      items := items + [item.value];
    }
    assert rs[..|repos|] == rs;
    return Ok(items);
  }

  /** The second loop of Match: a place without environment for each directory. */
  method ItemsOfDirs(dirs: seq<string>) returns (items: seq<MatchItem>)
    ensures items == Map(dirs, DirItem)
  {
    items := [];
    for i := 0 to |dirs|
      invariant items == Map(dirs[..i], DirItem)
    {
      MapSnoc(dirs[..i], dirs[i], DirItem);
      assert dirs[..i + 1] == dirs[..i] + [dirs[i]];
      items := items + [DirItem(dirs[i])];
    }
    assert dirs[..|dirs|] == dirs;
  }

  /** WorkflowSelect.Match: the repository places, then the directory places, each path kept
      at its first appearance only; the first error stops it. */
  method Match(sel: WorkflowSelect, store: Storage.RepositoryStorage, glob: GlobMatch,
               getRemote: string -> Result<Remote.RemoteConfig, Error>, p: Probes)
    returns (r: Result<seq<MatchItem>, Error>)
    ensures RepoItems(sel, store.repos, glob, getRemote).Err? ==> r == Err(RepoItems(sel, store.repos, glob, getRemote).error)
    ensures RepoItems(sel, store.repos, glob, getRemote).Ok? && DirItems(sel, p).Err? ==> r == Err(DirItems(sel, p).error)
    ensures RepoItems(sel, store.repos, glob, getRemote).Ok? && DirItems(sel, p).Ok? ==>
      r == Ok(UniqueByPath(RepoItems(sel, store.repos, glob, getRemote).value + DirItems(sel, p).value))
  {
    var items: seq<MatchItem> := [];
    if |sel.repos| > 0 {
      var repos := MatchRepos(store, sel.repos, glob);
      if repos.Err? {
        return Err(repos.error);
      }
      var repoItems := ItemsOfRepos(repos.value, getRemote);
      if repoItems.Err? {
        return Err(repoItems.error);
      }
      items := repoItems.value;
    }
    assert RepoItems(sel, store.repos, glob, getRemote) == Ok(items);
    ghost var fromRepos := items;
    if |sel.dirs| > 0 {
      var dirs := MatchDirs(sel.dirs, p);
      if dirs.Err? {
        return Err(dirs.error);
      }
      var dirItems := ItemsOfDirs(dirs.value);
      assert DirItems(sel, p) == Ok(dirItems);
      items := items + dirItems;
    }
    assert items == fromRepos + DirItems(sel, p).value;
    var unique := Unique(items);
    return Ok(unique);
  }

  // ---------------------------------------------------------------------------------------

  /** Every place is listed once, and every place selected is listed. */
  lemma UniquePlaces(items: seq<MatchItem>)
    ensures Distinct(Map(UniqueByPath(items), Path))
    ensures forall i :: 0 <= i < |items| ==> exists j :: 0 <= j < |UniqueByPath(items)| && UniqueByPath(items)[j].path == items[i].path
  {
    forall i | 0 <= i < |items|
      ensures exists j :: 0 <= j < |UniqueByPath(items)| && UniqueByPath(items)[j].path == items[i].path
    {
      PlaceListed(items, i);
    }
  }

  lemma PlaceListed(items: seq<MatchItem>, i: nat)
    requires i < |items|
    ensures exists j :: 0 <= j < |UniqueByPath(items)| && UniqueByPath(items)[j].path == items[i].path
  {
    var u := UniqueByPath(items);
    var m := Map(u, Path);
    var all := Map(items, Path);
    assert all[i] == items[i].path;
    assert items[i].path in m;
    var j :| 0 <= j < |m| && m[j] == items[i].path;
    assert u[j].path == items[i].path;
  }

  /** A directory that is also a selected repository's path runs once, as the repository,
      with the repository's environment. */
  lemma RepositoryWinsOverDirectory(repoItem: MatchItem, dir: string)
    requires repoItem.path == dir
    ensures UniqueByPath([repoItem] + [DirItem(dir)]) == [repoItem]
  {
    var items := [repoItem] + [DirItem(dir)];
    assert items[..1] == [repoItem];
    assert items[..1][..0] == [];
  }
}
