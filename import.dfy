/** cmd/repo/import.go: the ignore filter applied to the repositories a provider lists, and
    the clone tasks derived from the ones kept. filepath.Match is a parameter from pattern
    and name to whether they match or the pattern's error; whether a directory exists is a
    parameter from path to the answer or its error. */
module Import {
  import opened Wrappers
  import opened GoStrings
  import opened Errors
  import opened Seqs
  import opened Repository
  import opened Remote
  import opened Storage
  import opened RepoIndex
  import Merge
  import Worker

  type ApiRepo = Merge.ApiRepo

  type Matcher = (string, string) -> Result<bool, Error>

  // ---------------------------------------------------------------------------------------
  // importFilterIgnore

  function InvalidIgnore(ignore: string, e: Error): Error {
    Plain("invalid ignore " + Quote(ignore) + ": " + Message(e))
  }

  /** The inner loop of importFilterIgnore: the patterns are tried in order until one
      matches or one is malformed. */
  function Ignored(name: string, ignores: seq<string>, matches: Matcher): Result<bool, Error> {
    if ignores == [] then Ok(false)
    else
      match matches(ignores[0], name)
      case Err(e) => Err(InvalidIgnore(ignores[0], e))
      case Ok(true) => Ok(true)
      case Ok(false) => Ignored(name, ignores[1..], matches)
  }

  /** The outer loop: the repositories kept, in order, or the first malformed pattern's
      error. */
  function FilterIgnore(apiRepos: seq<ApiRepo>, ignores: seq<string>, matches: Matcher): Result<seq<ApiRepo>, Error> {
    if apiRepos == [] then Ok([])
    else
      var last := apiRepos[|apiRepos| - 1];
      match FilterIgnore(apiRepos[..|apiRepos| - 1], ignores, matches)
      case Err(e) => Err(e)
      case Ok(kept) =>
        match Ignored(last.name, ignores, matches)
        case Err(e) => Err(e)
        case Ok(ignored) => Ok(if ignored then kept else kept + [last])
  }

  /** importFilterIgnore */
  method ImportFilterIgnore(apiRepos: seq<ApiRepo>, ignores: seq<string>, matches: Matcher) returns (r: Result<seq<ApiRepo>, Error>)
    ensures r == FilterIgnore(apiRepos, ignores, matches)
  {
    var newRepos: seq<ApiRepo> := [];
    for i := 0 to |apiRepos|
      invariant FilterIgnore(apiRepos[..i], ignores, matches) == Ok(newRepos)
    {
      assert apiRepos[..i + 1][..i] == apiRepos[..i];
      var shouldIgnore := ShouldIgnore(apiRepos[i].name, ignores, matches);
      if shouldIgnore.Err? {
        FilterErrPersists(apiRepos, i + 1, ignores, matches);
        return Err(shouldIgnore.error);
      }
      if !shouldIgnore.value {
        newRepos := newRepos + [apiRepos[i]];
      }
    }
    assert apiRepos[..|apiRepos|] == apiRepos;
    return Ok(newRepos);
  }

  /** The inner loop of importFilterIgnore. */
  method ShouldIgnore(name: string, ignores: seq<string>, matches: Matcher) returns (r: Result<bool, Error>)
    ensures r == Ignored(name, ignores, matches)
  {
    for j := 0 to |ignores|
      invariant Ignored(name, ignores, matches) == Ignored(name, ignores[j..], matches)
    {
      var m := matches(ignores[j], name);
      if m.Err? {
        return Err(InvalidIgnore(ignores[j], m.error));
      }
      if m.value {
        return Ok(true);
      }
      assert ignores[j..][1..] == ignores[j + 1..];
    }
    return Ok(false);
  }

  lemma {:induction false} FilterErrPersists(apiRepos: seq<ApiRepo>, n: nat, ignores: seq<string>, matches: Matcher)
    requires n <= |apiRepos| && FilterIgnore(apiRepos[..n], ignores, matches).Err?
    ensures FilterIgnore(apiRepos, ignores, matches) == FilterIgnore(apiRepos[..n], ignores, matches)
    decreases |apiRepos| - n
  {
    if n < |apiRepos| {
      assert apiRepos[..n + 1][..n] == apiRepos[..n];
      FilterErrPersists(apiRepos, n + 1, ignores, matches);
    } else {
      assert apiRepos[..n] == apiRepos;
    }
  }

  /** No pattern matches the name. */
  predicate Unmatched(name: string, ignores: seq<string>, matches: Matcher) {
    forall j :: 0 <= j < |ignores| ==> matches(ignores[j], name) == Ok(false)
  }

  /** A name is kept exactly when no pattern matches it. */
  lemma {:induction false} KeptIffUnmatched(name: string, ignores: seq<string>, matches: Matcher)
    ensures Ignored(name, ignores, matches) == Ok(false) <==> Unmatched(name, ignores, matches)
  {
    if ignores != [] {
      KeptIffUnmatched(name, ignores[1..], matches);
      assert forall j :: 0 <= j < |ignores| - 1 ==> ignores[1..][j] == ignores[j + 1];
    }
  }

  /** A name is ignored exactly when some pattern matches it and every pattern before that
      one is well formed and does not. */
  lemma IgnoredIffMatched(name: string, ignores: seq<string>, matches: Matcher)
    ensures Ignored(name, ignores, matches) == Ok(true) <==>
      exists j :: 0 <= j < |ignores| && matches(ignores[j], name) == Ok(true) && Unmatched(name, ignores[..j], matches)
  {
    if Ignored(name, ignores, matches) == Ok(true) {
      IgnoringPattern(name, ignores, matches);
    }
    if exists j :: 0 <= j < |ignores| && matches(ignores[j], name) == Ok(true) && Unmatched(name, ignores[..j], matches) {
      var j :| 0 <= j < |ignores| && matches(ignores[j], name) == Ok(true) && Unmatched(name, ignores[..j], matches);
      IgnoredAt(name, ignores, matches, j);
    }
  }

  lemma {:induction false} IgnoredAt(name: string, ignores: seq<string>, matches: Matcher, j: nat)
    requires j < |ignores| && matches(ignores[j], name) == Ok(true) && Unmatched(name, ignores[..j], matches)
    ensures Ignored(name, ignores, matches) == Ok(true)
  {
    if j > 0 {
      var rest := ignores[1..];
      assert matches(ignores[0], name) == Ok(false) by { assert ignores[..j][0] == ignores[0]; }
      assert rest[j - 1] == ignores[j];
      assert rest[..j - 1] == ignores[..j][1..];
      IgnoredAt(name, rest, matches, j - 1);
    }
  }

  /** The pattern that makes a name ignored. */
  lemma {:induction false} IgnoringPattern(name: string, ignores: seq<string>, matches: Matcher)
    requires Ignored(name, ignores, matches) == Ok(true)
    ensures exists j :: 0 <= j < |ignores| && matches(ignores[j], name) == Ok(true) && Unmatched(name, ignores[..j], matches)
  {
    if matches(ignores[0], name) == Ok(true) {
      assert Unmatched(name, ignores[..0], matches);
    } else {
      var rest := ignores[1..];
      IgnoringPattern(name, rest, matches);
      var i :| 0 <= i < |rest| && matches(rest[i], name) == Ok(true) && Unmatched(name, rest[..i], matches);
      assert ignores[i + 1] == rest[i];
      assert ignores[..i + 1][1..] == rest[..i];
    }
  }

  /** The filter keeps, in order, exactly the repositories no pattern matches. */
  lemma {:induction false} FilterKeepsUnmatched(apiRepos: seq<ApiRepo>, ignores: seq<string>, matches: Matcher)
    requires FilterIgnore(apiRepos, ignores, matches).Ok?
    ensures FilterIgnore(apiRepos, ignores, matches).value == Filter(apiRepos, (a: ApiRepo) => Unmatched(a.name, ignores, matches))
  {
    if apiRepos != [] {
      var last := apiRepos[|apiRepos| - 1];
      FilterKeepsUnmatched(apiRepos[..|apiRepos| - 1], ignores, matches);
      KeptIffUnmatched(last.name, ignores, matches);
    }
  }

  /** When every pattern is well formed the filter never fails; when it fails, some pattern
      is malformed. */
  lemma {:induction false} FilterFailsOnlyOnBadPattern(apiRepos: seq<ApiRepo>, ignores: seq<string>, matches: Matcher)
    ensures (forall j :: 0 <= j < |ignores| ==> forall k :: 0 <= k < |apiRepos| ==> matches(ignores[j], apiRepos[k].name).Ok?) ==>
      FilterIgnore(apiRepos, ignores, matches).Ok?
    ensures FilterIgnore(apiRepos, ignores, matches).Err? ==>
      exists j, k :: 0 <= j < |ignores| && 0 <= k < |apiRepos| && matches(ignores[j], apiRepos[k].name).Err?
  {
    if apiRepos != [] {
      var init := apiRepos[..|apiRepos| - 1];
      var last := apiRepos[|apiRepos| - 1];
      FilterFailsOnlyOnBadPattern(init, ignores, matches);
      assert forall k :: 0 <= k < |init| ==> init[k] == apiRepos[k];
      IgnoredFailsOnlyOnBadPattern(last.name, ignores, matches);
    }
  }

  lemma {:induction false} IgnoredFailsOnlyOnBadPattern(name: string, ignores: seq<string>, matches: Matcher)
    ensures Ignored(name, ignores, matches).Err? ==> exists j :: 0 <= j < |ignores| && matches(ignores[j], name).Err?
  {
    if ignores != [] {
      IgnoredFailsOnlyOnBadPattern(name, ignores[1..], matches);
      assert forall j :: 0 <= j < |ignores| - 1 ==> ignores[1..][j] == ignores[j + 1];
    }
  }

  // ---------------------------------------------------------------------------------------
  // importGetTasks

  /** CloneTask */
  datatype CloneTask = CloneTask(path: string, url: string, user: string, email: string)

  /** The repository stored under a remote and name: under the storage's invariant, what
      GetByName finds. */
  function Stored(repos: seq<Repo>, remote: string, name: string): (r: Option<Repo>)
    ensures r.Some? ==> r.value in repos && r.value.remote == remote && r.value.name == name
    ensures r.None? ==> forall i :: 0 <= i < |repos| ==> !(repos[i].remote == remote && repos[i].name == name)
  {
    if repos == [] then None
    else if repos[0].remote == remote && repos[0].name == name then Some(repos[0])
    else
      assert forall i :: 1 <= i < |repos| ==> repos[i] == repos[1..][i - 1];
      Stored(repos[1..], remote, name)
  }

  /** The repository stored at a path: under the storage's invariant, what the path index
      holds. */
  function Holder(repos: seq<Repo>, path: string): (r: Option<Repo>)
    ensures r.Some? ==> r.value in repos && r.value.path == path
    ensures r.None? ==> forall i :: 0 <= i < |repos| ==> repos[i].path != path
  {
    if repos == [] then None
    else if repos[0].path == path then Some(repos[0])
    else
      assert forall i :: 1 <= i < |repos| ==> repos[i] == repos[1..][i - 1];
      Holder(repos[1..], path)
  }

  /** The error RepositoryStorage.Add returns, in terms of the stored repositories. */
  function AddErr(repos: seq<Repo>, repo: Repo): Option<Error> {
    if Normalize(repo).Err? then Some(Trace(Normalize(repo).error, "normalize repo"))
    else if Stored(repos, repo.remote, repo.name).Some? then Some(Plain("repo " + FullName(repo) + " is already exists"))
    else if Holder(repos, repo.path).Some? then Some(Plain("path " + repo.path + " is already bound to " + FullName(Holder(repos, repo.path).value)))
    else None
  }

  /** Where importGetTasks stands: the stored repositories, the tasks planned, each with its
      name, and the error that ended the loop, if any. */
  datatype Progress = Progress(repos: seq<Repo>, tasks: seq<(string, CloneTask)>, err: Option<Error>)

  /** The first half of a turn: the repository stored under the remote and the listed
      name, or else a new workspace repository, which is added to the storage. */
  function Resolve(repos: seq<Repo>, api: ApiRepo, rc: RemoteConfig, workspace: string): (r: Result<(Repo, seq<Repo>), Error>)
    ensures r.Ok? ==> r.value.0 in r.value.1 && r.value.0.remote == rc.name
    ensures r.Ok? && Stored(repos, rc.name, api.name).None? ==>
      r.value.1 == repos + [r.value.0] && r.value.0.workspace && r.value.0.name == TrimChar(api.name, '/')
      && r.value.0.path == WorkspacePath(workspace, rc.name, api.name)
    ensures Stored(repos, rc.name, api.name).Some? ==> r == Ok((Stored(repos, rc.name, api.name).value, repos))
    ensures r.Err? ==> Stored(repos, rc.name, api.name).None?
  {
    var found := Stored(repos, rc.name, api.name);
    if found.Some? then Ok((found.value, repos))
    else
      match WorkspaceRepository(workspace, rc.name, api.name)
      case Err(e) => Err(Trace(e, "convert repo " + Quote(api.name)))
      case Ok(created) =>
        match AddErr(repos, created)
        case Some(e) => Err(Trace(e, "add repo " + created.name))
        case None => Ok((Normalize(created).value, repos + [Normalize(created).value]))
  }

  /** The task a repository gets when its directory is missing. */
  function TaskFor(rc: RemoteConfig, repo: Repo): (string, CloneTask)
    requires GetCloneURL(rc, repo).Ok?
  {
    (repo.name, CloneTask(repo.path, GetCloneURL(rc, repo).value, GetUserEmail(rc, repo).0, GetUserEmail(rc, repo).1))
  }

  /** The second half of a turn: no task when the repository's directory exists, else the
      task cloning it. */
  function CloneFor(rc: RemoteConfig, repo: Repo, dirExists: string -> Result<bool, Error>): (r: Result<Option<(string, CloneTask)>, Error>)
    ensures r == Ok(None) <==> dirExists(repo.path) == Ok(true)
    ensures r.Ok? && r.value.Some? ==>
      dirExists(repo.path) == Ok(false) && GetCloneURL(rc, repo).Ok? && r.value.value == TaskFor(rc, repo)
    ensures dirExists(repo.path).Err? ==> r == Err(Trace(dirExists(repo.path).error, "check repo exists"))
    ensures dirExists(repo.path) == Ok(false) && GetCloneURL(rc, repo).Err? ==> r == Err(Trace(GetCloneURL(rc, repo).error, "get clone url"))
  {
    match dirExists(repo.path)
    case Err(e) => Err(Trace(e, "check repo exists"))
    case Ok(true) => Ok(None)
    case Ok(false) =>
      match GetCloneURL(rc, repo)
      case Err(e) => Err(Trace(e, "get clone url"))
      case Ok(_) => Ok(Some(TaskFor(rc, repo)))
  }

  /** One turn of the loop for a listed repository. */
  function Step(p: Progress, api: ApiRepo, rc: RemoteConfig, workspace: string, dirExists: string -> Result<bool, Error>): Progress
    requires p.err.None?
  {
    match Resolve(p.repos, api, rc, workspace)
    case Err(e) => p.(err := Some(e))
    case Ok(resolved) =>
      match CloneFor(rc, resolved.0, dirExists)
      case Err(e) => Progress(resolved.1, p.tasks, Some(e))
      case Ok(t) => Progress(resolved.1, p.tasks + (if t.Some? then [t.value] else []), None)
  }

  /** A turn whose repository is resolved is its clone decision. */
  lemma StepResolved(repos: seq<Repo>, api: ApiRepo, rc: RemoteConfig, workspace: string,
                     dirExists: string -> Result<bool, Error>, repo: Repo, after: seq<Repo>)
    requires Resolve(repos, api, rc, workspace) == Ok((repo, after))
    ensures var next := Step(Progress(repos, [], None), api, rc, workspace, dirExists);
      next.repos == after
      && (CloneFor(rc, repo, dirExists).Err? ==> next.err == Some(CloneFor(rc, repo, dirExists).error))
      && (CloneFor(rc, repo, dirExists) == Ok(None) ==> next.err.None? && next.tasks == [])
      && (CloneFor(rc, repo, dirExists).Ok? && CloneFor(rc, repo, dirExists).value.Some? ==>
            next.err.None? && next.tasks == [CloneFor(rc, repo, dirExists).value.value])
  {
  }

  /** A step adds its tasks after those already planned, and what it does to the storage and
      the error does not depend on them. */
  lemma StepAppends(repos: seq<Repo>, planned: seq<(string, CloneTask)>, api: ApiRepo, rc: RemoteConfig, workspace: string,
                    dirExists: string -> Result<bool, Error>)
    ensures var alone := Step(Progress(repos, [], None), api, rc, workspace, dirExists);
      Step(Progress(repos, planned, None), api, rc, workspace, dirExists) == alone.(tasks := planned + alone.tasks)
  {
  }

  /** The loop of importGetTasks over the listed repositories. */
  function GetTasks(apiRepos: seq<ApiRepo>, repos: seq<Repo>, rc: RemoteConfig, workspace: string, dirExists: string -> Result<bool, Error>): Progress {
    if apiRepos == [] then Progress(repos, [], None)
    else
      var p := GetTasks(apiRepos[..|apiRepos| - 1], repos, rc, workspace, dirExists);
      if p.err.Some? then p else Step(p, apiRepos[|apiRepos| - 1], rc, workspace, dirExists)
  }

  lemma ApartTail(rs: seq<Repo>)
    requires rs != [] && ApartUpTo(rs, |rs|)
    ensures ApartUpTo(rs[1..], |rs| - 1)
  {
    forall i, j | 0 <= i < j < |rs| - 1
      ensures Apart(rs[1..][i], rs[1..][j])
    {
      assert Apart(rs[i + 1], rs[j + 1]);
    }
  }

  /** Among repositories that pairwise collide in nothing, each is the one found under its
      remote and name, and the one found at its path. */
  lemma {:induction false} StoredFindsAny(rs: seq<Repo>, x: Repo)
    requires ApartUpTo(rs, |rs|) && x in rs
    ensures Stored(rs, x.remote, x.name) == Some(x)
    ensures Holder(rs, x.path) == Some(x)
  {
    if rs[0] != x {
      var k :| 0 <= k < |rs| && rs[k] == x;
      assert Apart(rs[0], rs[k]);
      assert rs[1..][k - 1] == x;
      ApartTail(rs);
      StoredFindsAny(rs[1..], x);
    }
  }

  /** Under the storage's invariant GetByName and the path index agree with the stored
      sequence. */
  lemma StoreAgrees(store: RepositoryStorage, remote: string, name: string, path: string)
    requires store.Valid()
    ensures store.GetByName(remote, name) == Stored(store.repos, remote, name)
    ensures (path in store.pathIndex) <==> Holder(store.repos, path).Some?
    ensures path in store.pathIndex ==> store.pathIndex[path] == Holder(store.repos, path).value
  {
    var g := store.GetByName(remote, name);
    if g.Some? {
      StoredFindsAny(store.repos, g.value);
    }
    var h := store.GetByPath(path);
    if h.Ok? {
      StoredFindsAny(store.repos, h.value);
    }
  }

  /** The worker tasks carry the planned names and values, in order. */
  ghost predicate Planned(tasks: seq<Worker.Task<CloneTask>>, planned: seq<(string, CloneTask)>) {
    |tasks| == |planned| && forall k :: 0 <= k < |planned| ==> tasks[k].name == planned[k].0 && tasks[k].value == planned[k].1
  }

  lemma PlannedSnoc(tasks: seq<Worker.Task<CloneTask>>, planned: seq<(string, CloneTask)>, t: Worker.Task<CloneTask>)
    requires Planned(tasks, planned)
    ensures Planned(tasks + [t], planned + [(t.name, t.value)])
  {
  }

  /** importGetTasks: the storage ends up as the planned loop leaves it, and the tasks are
      fresh worker tasks carrying the planned names and values. */
  method ImportGetTasks(store: RepositoryStorage, rc: RemoteConfig, apiRepos: seq<ApiRepo>, workspace: string,
                        dirExists: string -> Result<bool, Error>)
    returns (r: Result<seq<Worker.Task<CloneTask>>, Error>)
    requires store.Valid()
    modifies store
    ensures store.Valid()
    ensures store.repos == GetTasks(apiRepos, old(store.repos), rc, workspace, dirExists).repos
    ensures r.Err? <==> GetTasks(apiRepos, old(store.repos), rc, workspace, dirExists).err.Some?
    ensures r.Err? ==> Some(r.error) == GetTasks(apiRepos, old(store.repos), rc, workspace, dirExists).err
    ensures r.Ok? ==> Planned(r.value, GetTasks(apiRepos, old(store.repos), rc, workspace, dirExists).tasks)
  {
    var tasks: seq<Worker.Task<CloneTask>> := [];
    ghost var planned: seq<(string, CloneTask)> := [];
    for i := 0 to |apiRepos|
      invariant store.Valid()
      invariant GetTasks(apiRepos[..i], old(store.repos), rc, workspace, dirExists) == Progress(store.repos, planned, None)
      invariant Planned(tasks, planned)
    {
      GetTasksNext(apiRepos, i, old(store.repos), rc, workspace, dirExists);
      StepAppends(store.repos, planned, apiRepos[i], rc, workspace, dirExists);
      ghost var next := Step(Progress(store.repos, planned, None), apiRepos[i], rc, workspace, dirExists);
      var task, err := RunStep(store, rc, apiRepos[i], workspace, dirExists);
      assert store.repos == next.repos && err == next.err;
      if err.Some? {
        GetTasksErrPersists(apiRepos, i + 1, old(store.repos), rc, workspace, dirExists);
        return Err(err.value);
      }
      if task.Some? {
        PlannedSnoc(tasks, planned, task.value);
        tasks := tasks + [task.value];
      }
      planned := planned + Row(task);
    }
    assert apiRepos[..|apiRepos|] == apiRepos;
    return Ok(tasks);
  }

  /** The planned task a worker task stands for. */
  function Row(task: Option<Worker.Task<CloneTask>>): seq<(string, CloneTask)> {
    if task.Some? then [(task.value.name, task.value.value)] else []
  }

  /** The body of importGetTasks's loop for one listed repository. */
  method RunStep(store: RepositoryStorage, rc: RemoteConfig, api: ApiRepo, workspace: string,
                 dirExists: string -> Result<bool, Error>)
    returns (task: Option<Worker.Task<CloneTask>>, err: Option<Error>)
    requires store.Valid()
    modifies store
    ensures store.Valid()
    ensures var next := Step(Progress(old(store.repos), [], None), api, rc, workspace, dirExists);
      store.repos == next.repos && err == next.err
      && (err.None? ==> next.tasks == Row(task))
  {
    var resolved := ResolveRepo(store, rc, api, workspace);
    if resolved.Err? {
      return None, Some(resolved.error);
    }
    var repo := resolved.value;
    StepResolved(old(store.repos), api, rc, workspace, dirExists, repo, store.repos);
    var present := dirExists(repo.path);
    if present.Err? {
      return None, Some(Trace(present.error, "check repo exists"));
    }
    if present.value {
      return None, None;
    }
    var url := GetCloneURL(rc, repo);
    if url.Err? {
      return None, Some(Trace(url.error, "get clone url"));
    }
    var (user, email) := GetUserEmail(rc, repo);
    assert CloneFor(rc, repo, dirExists) == Ok(Some((repo.name, CloneTask(repo.path, url.value, user, email))));
    var t := new Worker.Task(repo.name, CloneTask(repo.path, url.value, user, email), None);
    return Some(t), None;
  }

  /** The lookup and the Add of importGetTasks's loop. */
  method ResolveRepo(store: RepositoryStorage, rc: RemoteConfig, api: ApiRepo, workspace: string)
    returns (r: Result<Repo, Error>)
    requires store.Valid()
    modifies store
    ensures store.Valid()
    ensures r.Err? ==> Resolve(old(store.repos), api, rc, workspace) == Err(r.error) && store.repos == old(store.repos)
    ensures r.Ok? ==> Resolve(old(store.repos), api, rc, workspace) == Ok((r.value, store.repos))
  {
    StoreAgrees(store, rc.name, api.name, "");
    var found := store.GetByName(rc.name, api.name);
    if found.Some? {
      return Ok(found.value);
    }
    var created := WorkspaceRepository(workspace, rc.name, api.name);
    if created.Err? {
      return Err(Trace(created.error, "convert repo " + Quote(api.name)));
    }
    var repo := created.value;
    StoreAgrees(store, repo.remote, repo.name, repo.path);
    var e := store.Add(repo);
    if e.Some? {
      return Err(Trace(e.value, "add repo " + repo.name));
    }
    return Ok(Normalize(repo).value);
  }

  lemma {:induction false} GetTasksErrPersists(apiRepos: seq<ApiRepo>, n: nat, repos: seq<Repo>, rc: RemoteConfig, workspace: string,
                                              dirExists: string -> Result<bool, Error>)
    requires n <= |apiRepos| && GetTasks(apiRepos[..n], repos, rc, workspace, dirExists).err.Some?
    ensures GetTasks(apiRepos, repos, rc, workspace, dirExists) == GetTasks(apiRepos[..n], repos, rc, workspace, dirExists)
    decreases |apiRepos| - n
  {
    if n < |apiRepos| {
      assert apiRepos[..n + 1][..n] == apiRepos[..n];
      GetTasksErrPersists(apiRepos, n + 1, repos, rc, workspace, dirExists);
    } else {
      assert apiRepos[..n] == apiRepos;
    }
  }

  // ---------------------------------------------------------------------------------------

  /** A task clones a stored repository whose directory is missing: it is named after the
      repository and carries its path, its clone URL and the identity the remote gives it. */
  ghost predicate ClonesStored(rc: RemoteConfig, repos: seq<Repo>, dirExists: string -> Result<bool, Error>, t: (string, CloneTask)) {
    dirExists(t.1.path) == Ok(false) && exists repo :: repo in repos && GetCloneURL(rc, repo).Ok? && TaskFor(rc, repo) == t
  }

  /** A repository the loop added: a workspace repository of the remote at the default
      location of the listed name. */
  predicate AddedFor(r: Repo, rc: RemoteConfig, workspace: string, api: ApiRepo) {
    r.workspace && r.remote == rc.name && r.name == TrimChar(api.name, '/') && r.path == WorkspacePath(workspace, rc.name, api.name)
  }

  /** One turn keeps the earlier repositories and tasks, adds at most one repository, one
      of the remote's at its default location, and at most one task, one cloning a stored
      repository whose directory is missing. */
  lemma StepGrows(p: Progress, api: ApiRepo, rc: RemoteConfig, workspace: string, dirExists: string -> Result<bool, Error>)
    requires p.err.None?
    ensures var q := Step(p, api, rc, workspace, dirExists);
      q.repos == p.repos || (|q.repos| == |p.repos| + 1 && q.repos[..|p.repos|] == p.repos && AddedFor(q.repos[|p.repos|], rc, workspace, api))
    ensures var q := Step(p, api, rc, workspace, dirExists);
      q.tasks == p.tasks || (|q.tasks| == |p.tasks| + 1 && q.tasks[..|p.tasks|] == p.tasks && ClonesStored(rc, q.repos, dirExists, q.tasks[|p.tasks|]))
    ensures var q := Step(p, api, rc, workspace, dirExists);
      q.err.None? ==> StoredUnder(q.repos, rc, api.name)
  {
    var q := Step(p, api, rc, workspace, dirExists);
    var res := Resolve(p.repos, api, rc, workspace);
    if res.Ok? {
      var (repo, repos) := res.value;
      assert repo in q.repos;
      if repos != p.repos {
        assert repos[..|p.repos|] == p.repos;
      }
      var c := CloneFor(rc, repo, dirExists);
      if c.Ok? && c.value.Some? {
        assert q.tasks[..|p.tasks|] == p.tasks;
        assert ClonesStored(rc, q.repos, dirExists, q.tasks[|p.tasks|]);
      }
    }
  }

  /** The last turn of the loop, in the terms of StepGrows. */
  lemma GetTasksLast(apiRepos: seq<ApiRepo>, repos: seq<Repo>, rc: RemoteConfig, workspace: string, dirExists: string -> Result<bool, Error>)
    requires apiRepos != []
    ensures var p := GetTasks(apiRepos[..|apiRepos| - 1], repos, rc, workspace, dirExists);
      var q := GetTasks(apiRepos, repos, rc, workspace, dirExists);
      q.repos == p.repos || (|q.repos| == |p.repos| + 1 && q.repos[..|p.repos|] == p.repos && AddedFor(q.repos[|p.repos|], rc, workspace, apiRepos[|apiRepos| - 1]))
    ensures var p := GetTasks(apiRepos[..|apiRepos| - 1], repos, rc, workspace, dirExists);
      var q := GetTasks(apiRepos, repos, rc, workspace, dirExists);
      q.tasks == p.tasks || (|q.tasks| == |p.tasks| + 1 && q.tasks[..|p.tasks|] == p.tasks && ClonesStored(rc, q.repos, dirExists, q.tasks[|p.tasks|]))
    ensures var p := GetTasks(apiRepos[..|apiRepos| - 1], repos, rc, workspace, dirExists);
      var q := GetTasks(apiRepos, repos, rc, workspace, dirExists);
      q.err.None? ==> p.err.None? && StoredUnder(q.repos, rc, apiRepos[|apiRepos| - 1].name)
  {
    var p := GetTasks(apiRepos[..|apiRepos| - 1], repos, rc, workspace, dirExists);
    if p.err.None? {
      StepGrows(p, apiRepos[|apiRepos| - 1], rc, workspace, dirExists);
    }
  }

  /** The loop's next turn, for the method. */
  lemma GetTasksNext(apiRepos: seq<ApiRepo>, i: nat, repos: seq<Repo>, rc: RemoteConfig, workspace: string, dirExists: string -> Result<bool, Error>)
    requires i < |apiRepos|
    ensures var p := GetTasks(apiRepos[..i], repos, rc, workspace, dirExists);
      GetTasks(apiRepos[..i + 1], repos, rc, workspace, dirExists) == if p.err.Some? then p else Step(p, apiRepos[i], rc, workspace, dirExists)
  {
    assert apiRepos[..i + 1][..i] == apiRepos[..i];
  }

  /** Every planned task clones a stored repository whose directory is missing. */
  lemma {:induction false} TasksCloneMissing(apiRepos: seq<ApiRepo>, repos: seq<Repo>, rc: RemoteConfig, workspace: string,
                                            dirExists: string -> Result<bool, Error>)
    ensures var p := GetTasks(apiRepos, repos, rc, workspace, dirExists);
      forall k :: 0 <= k < |p.tasks| ==> ClonesStored(rc, p.repos, dirExists, p.tasks[k])
  {
    if apiRepos != [] {
      var init := apiRepos[..|apiRepos| - 1];
      TasksCloneMissing(init, repos, rc, workspace, dirExists);
      var p := GetTasks(init, repos, rc, workspace, dirExists);
      var q := GetTasks(apiRepos, repos, rc, workspace, dirExists);
      GetTasksLast(apiRepos, repos, rc, workspace, dirExists);
      if q.repos != p.repos {
        assert q.repos[..|p.repos|] == p.repos;
      }
      ClonesCarry(rc, dirExists, p.repos, p.tasks, q.repos, q.tasks);
    }
  }

  lemma ClonesCarry(rc: RemoteConfig, dirExists: string -> Result<bool, Error>, repos: seq<Repo>, tasks: seq<(string, CloneTask)>,
                    repos': seq<Repo>, tasks': seq<(string, CloneTask)>)
    requires forall k :: 0 <= k < |tasks| ==> ClonesStored(rc, repos, dirExists, tasks[k])
    requires |repos'| >= |repos| && repos'[..|repos|] == repos
    requires tasks' == tasks || (|tasks'| == |tasks| + 1 && tasks'[..|tasks|] == tasks && ClonesStored(rc, repos', dirExists, tasks'[|tasks|]))
    ensures forall k :: 0 <= k < |tasks'| ==> ClonesStored(rc, repos', dirExists, tasks'[k])
  {
    forall k | 0 <= k < |tasks'|
      ensures ClonesStored(rc, repos', dirExists, tasks'[k])
    {
      if k < |tasks| {
        assert tasks'[k] == tasks[k];
        ClonesStoredGrows(rc, dirExists, repos, repos', tasks[k]);
      }
    }
  }

  /** A clone task stays backed by a stored repository as more repositories are stored. */
  lemma ClonesStoredGrows(rc: RemoteConfig, dirExists: string -> Result<bool, Error>, repos: seq<Repo>, repos': seq<Repo>,
                          t: (string, CloneTask))
    requires ClonesStored(rc, repos, dirExists, t)
    requires |repos'| >= |repos| && repos'[..|repos|] == repos
    ensures ClonesStored(rc, repos', dirExists, t)
  {
    var repo :| repo in repos && GetCloneURL(rc, repo).Ok? && TaskFor(rc, repo) == t;
    var i :| 0 <= i < |repos| && repos[i] == repo;
    assert repos'[i] == repo;
  }

  /** The listed name is stored under the remote, as it is or stripped of "/". */
  ghost predicate StoredUnder(repos: seq<Repo>, rc: RemoteConfig, name: string) {
    exists r :: r in repos && r.remote == rc.name && (r.name == name || r.name == TrimChar(name, '/'))
  }

  /** After the loop succeeds every listed repository is stored under the remote, by its
      listed name or, for a new one, by that name stripped of "/". */
  lemma {:induction false} ListedAreStored(apiRepos: seq<ApiRepo>, repos: seq<Repo>, rc: RemoteConfig, workspace: string,
                                          dirExists: string -> Result<bool, Error>)
    ensures var p := GetTasks(apiRepos, repos, rc, workspace, dirExists);
      p.err.None? ==> forall k :: 0 <= k < |apiRepos| ==> StoredUnder(p.repos, rc, apiRepos[k].name)
  {
    if apiRepos != [] {
      var init := apiRepos[..|apiRepos| - 1];
      ListedAreStored(init, repos, rc, workspace, dirExists);
      var p := GetTasks(init, repos, rc, workspace, dirExists);
      var q := GetTasks(apiRepos, repos, rc, workspace, dirExists);
      GetTasksLast(apiRepos, repos, rc, workspace, dirExists);
      if q.err.None? {
        if q.repos != p.repos {
          assert q.repos[..|p.repos|] == p.repos;
        }
        StoredCarry(init, apiRepos, p.repos, q.repos, rc);
      }
    }
  }

  lemma StoredCarry(init: seq<ApiRepo>, names: seq<ApiRepo>, repos: seq<Repo>, repos': seq<Repo>, rc: RemoteConfig)
    requires names != [] && init == names[..|names| - 1]
    requires forall k :: 0 <= k < |init| ==> StoredUnder(repos, rc, init[k].name)
    requires |repos'| >= |repos| && repos'[..|repos|] == repos
    requires StoredUnder(repos', rc, names[|names| - 1].name)
    ensures forall k :: 0 <= k < |names| ==> StoredUnder(repos', rc, names[k].name)
  {
    forall k | 0 <= k < |names| - 1
      ensures StoredUnder(repos', rc, names[k].name)
    {
      assert init[k] == names[k];
      var r :| r in repos && r.remote == rc.name && (r.name == names[k].name || r.name == TrimChar(names[k].name, '/'));
      assert r in repos';
    }
  }

  /** The storage only grows, and by workspace repositories of the remote. */
  lemma {:induction false} StorageOnlyGrows(apiRepos: seq<ApiRepo>, repos: seq<Repo>, rc: RemoteConfig, workspace: string,
                                           dirExists: string -> Result<bool, Error>)
    ensures var p := GetTasks(apiRepos, repos, rc, workspace, dirExists);
      |p.repos| >= |repos| && p.repos[..|repos|] == repos
    ensures var p := GetTasks(apiRepos, repos, rc, workspace, dirExists);
      forall i :: |repos| <= i < |p.repos| ==> p.repos[i].workspace && p.repos[i].remote == rc.name
  {
    if apiRepos != [] {
      var init := apiRepos[..|apiRepos| - 1];
      StorageOnlyGrows(init, repos, rc, workspace, dirExists);
      var p := GetTasks(init, repos, rc, workspace, dirExists);
      var q := GetTasks(apiRepos, repos, rc, workspace, dirExists);
      GetTasksLast(apiRepos, repos, rc, workspace, dirExists);
      GrowsCarry(repos, p.repos, q.repos, rc, workspace, apiRepos[|apiRepos| - 1]);
    }
  }

  lemma GrowsCarry(repos: seq<Repo>, mid: seq<Repo>, final: seq<Repo>, rc: RemoteConfig, workspace: string, api: ApiRepo)
    requires |mid| >= |repos| && mid[..|repos|] == repos
    requires forall i :: |repos| <= i < |mid| ==> mid[i].workspace && mid[i].remote == rc.name
    requires final == mid || (|final| == |mid| + 1 && final[..|mid|] == mid && AddedFor(final[|mid|], rc, workspace, api))
    ensures |final| >= |repos| && final[..|repos|] == repos
    ensures forall i :: |repos| <= i < |final| ==> final[i].workspace && final[i].remote == rc.name
  {
    if final != mid {
      assert final[..|repos|] == mid[..|repos|];
      assert forall i :: |repos| <= i < |mid| ==> final[i] == mid[i];
    }
  }
}
