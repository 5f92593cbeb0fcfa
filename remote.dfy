/** core/remote.go: a remote's configuration, the group a repository falls in, the clone URL
    and the identity used for a repository, and the names of the configured remotes. Reading
    and decoding the remote files are not part of this model. */
module Remote {
  import opened Wrappers
  import opened GoStrings
  import opened Errors
  import opened Repository
  import FilePath
  import Seqs

  datatype RemoteGroup = RemoteGroup(name: string, protocol: string, user: string, email: string)

  datatype RemoteConfig = RemoteConfig(
    name: string,
    host: string,
    protocol: string,
    user: string,
    email: string,
    groups: seq<RemoteGroup>)

  /** matchGroup: the first group named like the repository's group, if any. */
  function MatchGroup(groups: seq<RemoteGroup>, group: string): (r: Option<RemoteGroup>)
    ensures r.Some? ==> r.value in groups && r.value.name == group
    ensures r.None? <==> forall k :: 0 <= k < |groups| ==> groups[k].name != group
    ensures r.Some? ==> exists i :: FirstNamed(groups, group, i) && groups[i] == r.value
    decreases |groups|
  {
    if groups == [] then None
    else if groups[0].name == group then Some(groups[0])
    else
      var r := MatchGroup(groups[1..], group);
      if r.Some? then
        var i :| FirstNamed(groups[1..], group, i) && groups[1..][i] == r.value;
        assert FirstNamed(groups, group, i + 1);
        r
      else r
  }

  /** groups[i] is the first group with the given name. */
  predicate FirstNamed(groups: seq<RemoteGroup>, group: string, i: int) {
    0 <= i < |groups| && groups[i].name == group && forall k :: 0 <= k < i ==> groups[k].name != group
  }

  /** The protocol a repository is cloned with: its group's, when it has one, else the
      remote's. */
  function CloneProtocol(r: RemoteConfig, repo: Repo): string {
    var g := MatchGroup(r.groups, repo.group);
    if g.Some? && g.value.protocol != "" then g.value.protocol else r.protocol
  }

  /** What an HTTPS clone URL starts with: the scheme and the two slashes before the host. */
  const HttpsScheme: string := "https:" + "/" + "/"

  /** GetCloneURL: an HTTPS or an SSH URL for the repository; any other protocol is an
      error. */
  function GetCloneURL(r: RemoteConfig, repo: Repo): (res: Result<string, Error>)
    ensures CloneProtocol(r, repo) == "https" ==> res == Ok(HttpsScheme + r.host + "/" + repo.name + ".git")
    ensures CloneProtocol(r, repo) == "ssh" ==> res == Ok("git@" + r.host + ":" + repo.name + ".git")
    ensures res.Err? <==> CloneProtocol(r, repo) !in {"https", "ssh"}
    ensures res.Err? ==> res.error == Plain("invalid protocol " + CloneProtocol(r, repo))
  {
    var protocol := CloneProtocol(r, repo);
    if protocol == "https" then Ok(HttpsScheme + r.host + "/" + repo.name + ".git")
    else if protocol == "ssh" then Ok("git@" + r.host + ":" + repo.name + ".git")
    else Err(Plain("invalid protocol " + protocol))
  }

  /** What dereferencing the nil group pointer does. */
  const NilGroupPanic: string := "invalid memory address or nil pointer dereference"

  /** GetUserEmail as written: the matched group's non-empty user and email replace the
      remote's; with no matching group, group.User dereferences nil. */
  function GetUserEmailAsWritten(r: RemoteConfig, repo: Repo): (res: Result<(string, string), Error>)
    ensures res.Err? <==> MatchGroup(r.groups, repo.group).None?
  {
    var g := MatchGroup(r.groups, repo.group);
    if g.None? then Err(Panic(NilGroupPanic))
    else
      Ok((if g.value.user != "" then g.value.user else r.user,
          if g.value.email != "" then g.value.email else r.email))
  }

  /** GetUserEmail as intended: a repository outside every group keeps the remote's
      identity, the way GetCloneURL keeps the remote's protocol. */
  function GetUserEmail(r: RemoteConfig, repo: Repo): (res: (string, string))
    ensures MatchGroup(r.groups, repo.group).None? ==> res == (r.user, r.email)
    ensures var g := MatchGroup(r.groups, repo.group);
      g.Some? ==> res.0 == (if g.value.user != "" then g.value.user else r.user) &&
                  res.1 == (if g.value.email != "" then g.value.email else r.email)
  {
    var g := MatchGroup(r.groups, repo.group);
    if g.None? then (r.user, r.email)
    else
      (if g.value.user != "" then g.value.user else r.user,
       if g.value.email != "" then g.value.email else r.email)
  }

  /** The two agree wherever the written code does not panic. */
  lemma GetUserEmailAgrees(r: RemoteConfig, repo: Repo)
    ensures GetUserEmailAsWritten(r, repo).Ok? ==> GetUserEmailAsWritten(r, repo).value == GetUserEmail(r, repo)
  {
  }

  /** A remote without groups makes the written GetUserEmail panic for every repository,
      while the intended one returns the remote's own identity. */
  lemma GetUserEmailPanicsWithoutGroups(user: string, email: string, repo: Repo)
    ensures var r := RemoteConfig("github", "github.com", "https", user, email, []);
      GetUserEmailAsWritten(r, repo) == Err(Panic(NilGroupPanic)) && GetUserEmail(r, repo) == (user, email)
  {
  }

  // ---------------------------------------------------------------------------------------
  // Repository.SetEnv of core/repository.go, which uses the remote's identity.

  predicate IsRepoVar(k: string) {
    k in {"REPO_NAME", "REPO_GROUP", "REPO_BASE", "REPO_REMOTE", "REPO_PATH", "REPO_DIR"}
  }

  /** The variables every repository sets. */
  function RepoEnv(repo: Repo, env: map<string, string>): (r: map<string, string>)
    ensures r.Keys == env.Keys + {"REPO_NAME", "REPO_GROUP", "REPO_BASE", "REPO_REMOTE", "REPO_PATH", "REPO_DIR"}
    ensures r["REPO_NAME"] == repo.name && r["REPO_GROUP"] == repo.group && r["REPO_BASE"] == repo.base
    ensures r["REPO_REMOTE"] == repo.remote && r["REPO_PATH"] == repo.path && r["REPO_DIR"] == FilePath.Dir(repo.path)
    ensures forall k :: k in env && !IsRepoVar(k) ==> r[k] == env[k]
  {
    env["REPO_NAME" := repo.name]["REPO_GROUP" := repo.group]["REPO_BASE" := repo.base]
       ["REPO_REMOTE" := repo.remote]["REPO_PATH" := repo.path]["REPO_DIR" := FilePath.Dir(repo.path)]
  }

  /** SetEnv as written: it calls the written GetUserEmail, whose nil-group panic is the
      error here, and it receives the (user, email) pair as (email, user), so REMOTE_EMAIL
      gets the user and REMOTE_USER the email. The result holds the variables set before
      any error. */
  function SetEnvAsWritten(repo: Repo, remote: Option<RemoteConfig>, env: map<string, string>): (map<string, string>, Option<Error>) {
    var e0 := RepoEnv(repo, env);
    if remote.None? then (e0, None)
    else
      match GetUserEmailAsWritten(remote.value, repo)
      case Err(panic) => (e0, Some(panic))
      case Ok(pair) =>
        var email, user := pair.0, pair.1;
        match GetCloneURL(remote.value, repo)
        case Err(err) => (e0, Some(Trace(err, "get clone url")))
        case Ok(url) => (e0["REMOTE_EMAIL" := email]["REMOTE_USER" := user]["REMOTE_URL" := url], None)
  }

  /** SetEnv as intended: the remote's user and email go to REMOTE_USER and REMOTE_EMAIL.
      An unusable protocol is an error after the repository variables are set. */
  function SetEnv(repo: Repo, remote: Option<RemoteConfig>, env: map<string, string>): (res: (map<string, string>, Option<Error>))
    ensures remote.None? ==> res == (RepoEnv(repo, env), None)
    ensures remote.Some? && GetCloneURL(remote.value, repo).Err? ==>
      res == (RepoEnv(repo, env), Some(Trace(GetCloneURL(remote.value, repo).error, "get clone url")))
    ensures remote.Some? && GetCloneURL(remote.value, repo).Ok? ==>
      && res.1.None?
      && res.0.Keys == RepoEnv(repo, env).Keys + {"REMOTE_USER", "REMOTE_EMAIL", "REMOTE_URL"}
      && res.0["REMOTE_USER"] == GetUserEmail(remote.value, repo).0
      && res.0["REMOTE_EMAIL"] == GetUserEmail(remote.value, repo).1
      && res.0["REMOTE_URL"] == GetCloneURL(remote.value, repo).value
    ensures res.0.Keys >= env.Keys + {"REPO_NAME", "REPO_GROUP", "REPO_BASE", "REPO_REMOTE", "REPO_PATH", "REPO_DIR"}
    ensures res.0["REPO_NAME"] == repo.name && res.0["REPO_PATH"] == repo.path && res.0["REPO_GROUP"] == repo.group
  {
    var e0 := RepoEnv(repo, env);
    if remote.None? then (e0, None)
    else
      var pair := GetUserEmail(remote.value, repo);
      match GetCloneURL(remote.value, repo)
      case Err(err) => (e0, Some(Trace(err, "get clone url")))
      case Ok(url) => (e0["REMOTE_EMAIL" := pair.1]["REMOTE_USER" := pair.0]["REMOTE_URL" := url], None)
  }

  /** The written SetEnv on a remote: a repository in no group of the remote panics with
      only the repository variables set; one in a group gets REMOTE_USER and REMOTE_EMAIL
      swapped, which differs from the intended SetEnv whenever the user is not the email. */
  lemma SetEnvSwapsIdentity(repo: Repo, r: RemoteConfig, env: map<string, string>)
    ensures MatchGroup(r.groups, repo.group).None? ==>
      SetEnvAsWritten(repo, Some(r), env) == (RepoEnv(repo, env), Some(Panic(NilGroupPanic)))
    ensures MatchGroup(r.groups, repo.group).Some? && GetCloneURL(r, repo).Err? ==>
      SetEnvAsWritten(repo, Some(r), env) == SetEnv(repo, Some(r), env)
    ensures var w := SetEnvAsWritten(repo, Some(r), env);
      MatchGroup(r.groups, repo.group).Some? && GetCloneURL(r, repo).Ok? ==>
        && w.1.None?
        && w.0["REMOTE_USER"] == GetUserEmail(r, repo).1 && w.0["REMOTE_EMAIL"] == GetUserEmail(r, repo).0
        && w.0["REMOTE_URL"] == GetCloneURL(r, repo).value
    ensures var w := SetEnvAsWritten(repo, Some(r), env);
      MatchGroup(r.groups, repo.group).Some? && GetCloneURL(r, repo).Ok? &&
      GetUserEmail(r, repo).0 != GetUserEmail(r, repo).1 ==>
        w.0["REMOTE_USER"] != SetEnv(repo, Some(r), env).0["REMOTE_USER"]
  {
  }

  // ---------------------------------------------------------------------------------------

  /** An entry of the remotes directory. */
  datatype DirEntry = DirEntry(name: string, isDir: bool)

  /** What reading the remotes directory gave. */
  datatype ReadDirResult = DirMissing | ReadFailed(err: Error) | Listed(entries: seq<DirEntry>)

  /** The remote name a directory entry stands for: the stem of a non-empty "*.toml" file. */
  predicate IsRemoteFile(e: DirEntry) {
    !e.isDir && FilePath.Ext(e.name) == ".toml" && TrimSuffix(e.name, ".toml") != ""
  }

  function Stem(e: DirEntry): string {
    TrimSuffix(e.name, ".toml")
  }

  /** ListRemoteNames: a missing directory means no remotes; every other read error is
      traced; otherwise the stems of the ".toml" files, in directory order. */
  method ListRemoteNames(dir: ReadDirResult) returns (r: Result<seq<string>, Error>)
    ensures dir.DirMissing? ==> r == Ok([])
    ensures dir.ReadFailed? ==> r == Err(Trace(dir.err, "read remotes"))
    ensures dir.Listed? ==> r == Ok(Seqs.Map(Seqs.Filter(dir.entries, IsRemoteFile), Stem))
    ensures r.Ok? ==> forall n :: n in r.value ==> n != "" && DirEntry(n + ".toml", false) in dir.entries
  {
    match dir
    case DirMissing => return Ok([]);
    case ReadFailed(e) => return Err(Trace(e, "read remotes"));
    case Listed(files) =>
      var names: seq<string> := [];
      for i := 0 to |files|
        invariant names == Seqs.Map(Seqs.Filter(files[..i], IsRemoteFile), Stem)
      {
        Seqs.FilterPrefixStep(files, i, IsRemoteFile);
        Seqs.MapSnoc(Seqs.Filter(files[..i], IsRemoteFile), files[i], Stem);
        var file := files[i];
        if file.isDir {
          continue;
        }
        var name := file.name;
        var ext := FilePath.Ext(name);
        if ext == ".toml" {
          name := TrimSuffix(name, ext);
          if name != "" {
            names := names + [name];
          }
        }
      }
      assert files[..|files|] == files;
      RemoteNamesAreFiles(files);
      return Ok(names);
  }

  lemma RemoteNamesAreFiles(files: seq<DirEntry>)
    ensures forall n :: n in Seqs.Map(Seqs.Filter(files, IsRemoteFile), Stem) ==>
      n != "" && DirEntry(n + ".toml", false) in files
  {
    var kept := Seqs.Filter(files, IsRemoteFile);
    forall n | n in Seqs.Map(kept, Stem) ensures n != "" && DirEntry(n + ".toml", false) in files {
      var k :| 0 <= k < |kept| && Seqs.Map(kept, Stem)[k] == n;
      assert kept[k] in kept;
      assert HasSuffix(kept[k].name, ".toml");
      assert kept[k] == DirEntry(n + ".toml", false);
    }
  }
}
