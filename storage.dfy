/** core/repository.go, RepositoryStorage: the index of managed repositories. It keeps the
    repositories in a slice and indexes them twice, by remote and name and by path; loading
    and saving transform the slice to and from the persisted records. */
module Storage {
  import opened Wrappers
  import opened GoStrings
  import opened Errors
  import opened Seqs
  import opened Repository
  import opened RepoIndex

  /** The fields of a repository that the data file persists. */
  datatype StoredRepo = StoredRepo(path: string, name: string, remote: string, lastAccess: int, access: nat)

  /** What opening and decoding the data file gave. */
  datatype LoadInput =
    | Missing
    | OpenFailed(err: Error)
    | Decoded(result: Result<seq<StoredRepo>, Error>)

  /** What os.Stat said about a repository's directory. */
  datatype StatResult = Exists | NotExist | StatFailed(err: Error)

  /** write: a repository at its default location is saved without a path. */
  function ToStored(r: Repo): StoredRepo {
    StoredRepo(if r.workspace then "" else r.path, r.name, r.remote, r.lastAccess, r.access)
  }

  function Persist(rs: seq<Repo>): seq<StoredRepo> {
    Map(rs, ToStored)
  }

  function ClearPath(r: Repo): Repo {
    if r.workspace then r.(path := "") else r
  }

  /** read, for one record: an empty path becomes the default location and marks the
      repository as a workspace one; then normalize. */
  function ReadOne(s: StoredRepo, workspace: string): (res: Result<Repo, Error>)
    ensures res.Ok? ==> Normalized(res.value) && res.value.name == s.name && res.value.remote == s.remote
    ensures res.Ok? ==> res.value.workspace == (s.path == "")
    ensures res.Ok? && s.path == "" ==> res.value.path == WorkspacePath(workspace, s.remote, s.name)
    ensures res.Ok? && s.path != "" ==> res.value.path == s.path
  {
    var r := Repo(s.path, s.name, s.remote, s.lastAccess, s.access, false, "", "");
    var r := if s.path == "" then r.(path := WorkspacePath(workspace, s.remote, s.name), workspace := true) else r;
    match Normalize(r)
    case Err(e) => Err(Trace(e, "normalize repo " + s.name))
    case Ok(x) => Ok(x)
  }

  /** read's loop with a reader for one record: every record's repository, or the first
      record's error. */
  function ReadAll(stored: seq<StoredRepo>, read: StoredRepo -> Result<Repo, Error>): (res: Result<seq<Repo>, Error>)
    ensures res.Ok? ==> |res.value| == |stored|
    ensures res.Ok? ==> forall k :: 0 <= k < |stored| ==> read(stored[k]) == Ok(res.value[k])
    decreases |stored|
  {
    if stored == [] then Ok([])
    else match ReadAll(stored[..|stored| - 1], read)
      case Err(e) => Err(e)
      case Ok(front) =>
        match read(stored[|stored| - 1])
        case Err(e) => Err(e)
        case Ok(r) => Ok(front + [r])
  }

  /** The reader read uses for one record. */
  function Reader(workspace: string): StoredRepo -> Result<Repo, Error> {
    (s: StoredRepo) => ReadOne(s, workspace)
  }

  /** read: every record, or the first record's error. */
  function ReadRepos(stored: seq<StoredRepo>, workspace: string): (res: Result<seq<Repo>, Error>)
    ensures res.Ok? ==> |res.value| == |stored|
    ensures res.Ok? ==> forall k :: 0 <= k < |stored| ==> ReadOne(stored[k], workspace) == Ok(res.value[k])
  {
    ReadAll(stored, Reader(workspace))
  }

  /** The error of a duplicate path, naming the duplicated repository path. */
  function DuplicatePath(repoPath: string): Error {
    Plain("path " + Quote(repoPath) + " is duplicate")
  }

  /** The duplicate-path error as core/repository.go:275 builds it: it names the data
      file's path, since the variable `path` there is the data file. */
  function DuplicatePathAsWritten(dataPath: string, repoPath: string): Error {
    Plain("path " + Quote(dataPath) + " is duplicate")
  }

  function DuplicateName(r: Repo): Error {
    Plain("repo " + FullName(r) + " is duplicate")
  }

  /** The error init reports for a duplicate. */
  function DuplicateError(d: Duplicate): Error {
    match d
    case PathTaken(p) => DuplicatePath(p)
    case NameTaken(r) => DuplicateName(r)
  }

  class RepositoryStorage {
    var repos: seq<Repo>
    var nameIndex: map<string, map<string, Repo>>
    var pathIndex: map<string, Repo>
    var readonly: bool

    /** Each repository is normalized, the three views agree, and no two repositories share
        a path or a remote and name. */
    ghost predicate Valid()
      reads this
    {
      AllNormalized(repos) && Consistent(repos, nameIndex, pathIndex)
    }

    constructor ()
      ensures repos == [] && nameIndex == map[] && pathIndex == map[] && !readonly
      ensures Valid()
    {
      repos := [];
      nameIndex := map[];
      pathIndex := map[];
      readonly := false;
    }

    /** get / GetByName */
    function GetByName(remote: string, name: string): (r: Option<Repo>)
      reads this
      ensures Valid() ==> (r.Some? <==> exists i :: 0 <= i < |repos| && repos[i].remote == remote && repos[i].name == name)
      ensures Valid() && r.Some? ==> r.value in repos && r.value.remote == remote && r.value.name == name
    {
      NameLookupWhen(repos, nameIndex, pathIndex, remote, name);
      LookupName(nameIndex, remote, name)
    }

    /** GetByPath: the repository at a path, or the error asking to attach it first. */
    function GetByPath(path: string): (r: Result<Repo, Error>)
      reads this
      ensures Valid() ==> (r.Ok? <==> exists i :: 0 <= i < |repos| && repos[i].path == path)
      ensures Valid() && r.Ok? ==> r.value in repos && r.value.path == path
      ensures r.Err? ==> r.error == NotAttached(path)
    {
      PathLookupWhen(repos, nameIndex, pathIndex, path);
      if path in pathIndex then Ok(pathIndex[path]) else Err(NotAttached(path))
    }

    /** The state Delete keeps consistent: the argument is stored with the same path, or
        neither its name nor its path is stored. */
    ghost predicate DeleteCoherent(r: Repo)
      reads this
    {
      Coherent(nameIndex, pathIndex, r)
    }

    /** init: loads the data file. A missing file leaves the storage empty; a broken record
        or a duplicate path or name is a parse error saying the data is broken. On success
        the repositories are sorted by score and indexed. */
    method Init(input: LoadInput, dataPath: string, workspace: string, now: int) returns (err: Option<Error>)
      requires repos == [] && nameIndex == map[] && pathIndex == map[]
      modifies this
      ensures readonly == old(readonly)
      ensures input.Missing? ==> err.None? && repos == []
      ensures input.OpenFailed? ==> err == Some(Trace(input.err, "open data file"))
      ensures input.Decoded? && input.result.Err? ==>
                err == Some(ParseStorage(dataPath, Trace(input.result.error, "decode repo data")))
      ensures input.Decoded? && input.result.Ok? && ReadRepos(input.result.value, workspace).Err? ==>
                err == Some(ParseStorage(dataPath, ReadRepos(input.result.value, workspace).error))
      ensures input.Decoded? && input.result.Ok? && ReadRepos(input.result.value, workspace).Ok? ==>
                multiset(repos) == multiset(ReadRepos(input.result.value, workspace).value)
      ensures input.Decoded? && input.result.Ok? && ReadRepos(input.result.value, workspace).Ok? ==>
                forall i, j :: 0 <= i < j < |repos| ==> Score(repos[i], now) >= Score(repos[j], now)
      ensures input.Decoded? && input.result.Ok? && ReadRepos(input.result.value, workspace).Ok? ==>
                (err.None? <==> FirstDuplicate(repos).None?)
                && (err.Some? ==> err == Some(ParseStorage(dataPath, DuplicateError(FirstDuplicate(repos).value))))
      ensures err.None? ==> Valid()
    {
      match input {
        case Missing => return None;
        case OpenFailed(e) => return Some(Trace(e, "open data file"));
        case Decoded(Err(e)) => return Some(ParseStorage(dataPath, Trace(e, "decode repo data")));
        case Decoded(Ok(stored)) =>
          var loaded, readErr := Load(stored, workspace, now);
          if readErr.Some? {
            return Some(ParseStorage(dataPath, readErr.value));
          }
          repos := loaded;
          err := BuildIndices(dataPath);
      }
    }

    /** The index-building step of init over the (sorted) repositories. */
    method BuildIndices(dataPath: string) returns (err: Option<Error>)
      requires nameIndex == map[] && pathIndex == map[]
      modifies this
      ensures repos == old(repos) && readonly == old(readonly)
      ensures err.None? <==> FirstDuplicate(repos).None?
      ensures err.Some? ==> err == Some(ParseStorage(dataPath, DuplicateError(FirstDuplicate(repos).value)))
      ensures err.None? ==> Consistent(repos, nameIndex, pathIndex)
    {
      var ni, pi, dup := IndexAll(repos);
      nameIndex, pathIndex := ni, pi;
      if dup.Some? {
        return Some(ParseStorage(dataPath, DuplicateError(dup.value)));
      }
      return None;
    }

    /** List: the repositories of one remote, or all of them for "", in stored order. */
    method List(remote: string) returns (result: seq<Repo>)
      ensures result == Filter(repos, OfRemote(remote))
    {
      result := [];
      var i := 0;
      while i < |repos|
        invariant 0 <= i <= |repos|
        invariant result == Filter(repos[..i], OfRemote(remote))
      {
        FilterPrefixStep(repos, i, OfRemote(remote));
        if remote != "" && repos[i].remote != remote {
          i := i + 1;
          continue;
        }
        result := result + [repos[i]];
        i := i + 1;
      }
      assert repos[..i] == repos;
    }

    /** Add: normalizes the repository and stores it unless its remote and name or its path
        is taken; an error leaves everything unchanged. */
    method Add(repo: Repo) returns (err: Option<Error>)
      requires Valid()
      modifies this
      ensures Valid() && readonly == old(readonly)
      ensures Normalize(repo).Err? ==> err == Some(Trace(Normalize(repo).error, "normalize repo"))
      ensures Normalize(repo).Ok? && old(GetByName(repo.remote, repo.name)).Some? ==>
                err == Some(Plain("repo " + FullName(repo) + " is already exists"))
      ensures Normalize(repo).Ok? && old(GetByName(repo.remote, repo.name)).None? && repo.path in old(pathIndex) ==>
                err == Some(Plain("path " + repo.path + " is already bound to " + FullName(old(pathIndex)[repo.path])))
      ensures err.None? <==> Normalize(repo).Ok? && old(GetByName(repo.remote, repo.name)).None? && repo.path !in old(pathIndex)
      ensures err.Some? ==> repos == old(repos) && nameIndex == old(nameIndex) && pathIndex == old(pathIndex)
      ensures err.None? ==> repos == old(repos) + [Normalize(repo).value]
      ensures err.None? ==> GetByName(repo.remote, repo.name) == Some(Normalize(repo).value)
      ensures err.None? ==> GetByPath(repo.path) == Ok(Normalize(repo).value)
    {
      match Normalize(repo) {
        case Err(e) => return Some(Trace(e, "normalize repo"));
        case Ok(r) =>
          if LookupName(nameIndex, r.remote, r.name).Some? {
            return Some(Plain("repo " + FullName(r) + " is already exists"));
          }
          if r.path in pathIndex {
            return Some(Plain("path " + r.path + " is already bound to " + FullName(pathIndex[r.path])));
          }
          NormalizeIdempotent(repo);
          InsertConsistent(repos, nameIndex, pathIndex, r);
          repos := repos + [r];
          nameIndex := NameInsert(nameIndex, r);
          pathIndex := pathIndex[r.path := r];
          return None;
      }
    }

    /** Delete: drops every entry with the argument's remote and name, keeping the others in
        order, and deletes the argument's name entry and its path entry. An empty storage is
        left alone. */
    method Delete(repo: Repo)
      modifies this
      ensures readonly == old(readonly)
      ensures old(repos) == [] ==> repos == old(repos) && nameIndex == old(nameIndex) && pathIndex == old(pathIndex)
      ensures old(repos) != [] ==> repos == Filter(old(repos), Keeps(repo))
      ensures old(repos) != [] ==> pathIndex == old(pathIndex) - {repo.path}
      ensures old(repos) != [] ==> nameIndex == NameRemove(old(nameIndex), repo)
      ensures old(Valid()) && old(DeleteCoherent(repo)) ==> Valid()
    {
      if |repos| == 0 {
        return;
      }
      DeleteKeepsValid(repos, nameIndex, pathIndex, repo);
      var newRepos := Without(repos, repo);
      repos := newRepos;
      if repo.remote in nameIndex {
        nameIndex := nameIndex[repo.remote := nameIndex[repo.remote] - {repo.name}];
      }
      pathIndex := pathIndex - {repo.path};
    }

    /** DeleteAll: removes the repository's directory, then deletes it from the storage; a
        failing stat or removal returns the error and leaves the storage unchanged. */
    method DeleteAll(repo: Repo, stat: StatResult, removeErr: Option<Error>) returns (err: Option<Error>)
      modifies this
      ensures stat.StatFailed? ==> err == Some(stat.err)
      ensures stat.Exists? && removeErr.Some? ==>
                err == Some(Trace(removeErr.value, "remove dir for repo " + Quote(FullName(repo))))
      ensures err.Some? ==> repos == old(repos) && nameIndex == old(nameIndex) && pathIndex == old(pathIndex)
      ensures err.None? <==> stat.NotExist? || (stat.Exists? && removeErr.None?)
      ensures err.None? && old(repos) == [] ==> repos == []
      ensures err.None? && old(repos) != [] ==> repos == Filter(old(repos), Keeps(repo))
      ensures err.None? && old(repos) != [] ==> pathIndex == old(pathIndex) - {repo.path}
      ensures err.None? && old(Valid()) && old(DeleteCoherent(repo)) ==> Valid()
      ensures readonly == old(readonly)
    {
      match stat {
        case StatFailed(e) => return Some(e);
        case Exists =>
          if removeErr.Some? {
            return Some(Trace(removeErr.value, "remove dir for repo " + Quote(FullName(repo))));
          }
        case NotExist =>
      }
      Delete(repo);
      return None;
    }

    /** ReadOnly: a read-only storage is never written back. */
    method ReadOnly()
      modifies this
      ensures readonly && repos == old(repos) && nameIndex == old(nameIndex) && pathIndex == old(pathIndex)
    {
      readonly := true;
    }

    /** Close: unless read-only, clears the path of every workspace repository in place and
        hands the records to the encoder. */
    method Close(openErr: Option<Error>) returns (written: Option<seq<StoredRepo>>, err: Option<Error>)
      modifies this
      ensures nameIndex == old(nameIndex) && pathIndex == old(pathIndex) && readonly == old(readonly)
      ensures readonly || openErr.Some? ==> written.None? && repos == old(repos)
      ensures !readonly && openErr.Some? ==> err == Some(Trace(openErr.value, "open data file"))
      ensures readonly ==> err.None?
      ensures !readonly && openErr.None? ==> err.None? && repos == Map(old(repos), ClearPath)
      ensures !readonly && openErr.None? ==> written == Some(Persist(old(repos)))
    {
      if readonly {
        return None, None;
      }
      if openErr.Some? {
        return None, Some(Trace(openErr.value, "open data file"));
      }
      ghost var before := repos;
      var i := 0;
      while i < |repos|
        invariant 0 <= i <= |repos| && |repos| == |before|
        invariant nameIndex == old(nameIndex) && pathIndex == old(pathIndex) && readonly == old(readonly)
        invariant forall k :: 0 <= k < i ==> repos[k] == ClearPath(before[k])
        invariant forall k :: i <= k < |repos| ==> repos[k] == before[k]
      {
        if repos[i].workspace {
          repos := repos[i := repos[i].(path := "")];
        }
        i := i + 1;
      }
      ClearedPersistsSame(before, repos);
      return Some(Map(repos, ToStored)), None;
    }
  }

  /** The part of init between decoding and indexing: read the records, then sort them
      by score, highest first. */
  method Load(stored: seq<StoredRepo>, workspace: string, now: int) returns (rs: seq<Repo>, err: Option<Error>)
    ensures err.None? <==> ReadRepos(stored, workspace).Ok?
    ensures err.Some? ==> err.value == ReadRepos(stored, workspace).error
    ensures err.None? ==> multiset(rs) == multiset(ReadRepos(stored, workspace).value)
    ensures err.None? ==> forall i, j :: 0 <= i < j < |rs| ==> Score(rs[i], now) >= Score(rs[j], now)
    ensures err.None? ==> AllNormalized(rs)
  {
    var loaded;
    loaded, err := Read(stored, workspace);
    if err.Some? {
      return [], err;
    }
    var a := new Repo[|loaded|](k requires 0 <= k < |loaded| => loaded[k]);
    assert a[..] == loaded;
    if |loaded| > 0 {
      SortRepositories(a, now);
    }
    rs := a[..];
    PermutationNormalized(loaded, rs);
  }

  /** read: the records with default paths filled in and normalized, or the first error. */
  method Read(stored: seq<StoredRepo>, workspace: string) returns (rs: seq<Repo>, err: Option<Error>)
    ensures err.None? <==> ReadRepos(stored, workspace).Ok?
    ensures err.None? ==> rs == ReadRepos(stored, workspace).value && AllNormalized(rs)
    ensures err.Some? ==> err.value == ReadRepos(stored, workspace).error
  {
    rs := [];
    var i := 0;
    while i < |stored|
      invariant 0 <= i <= |stored|
      invariant ReadAll(stored[..i], Reader(workspace)) == Ok(rs)
    {
      assert stored[..i + 1][..i] == stored[..i];
      assert Reader(workspace)(stored[i]) == ReadOne(stored[i], workspace);
      match ReadOne(stored[i], workspace) {
        case Err(e) =>
          ReadErrorSticks(stored, i + 1, Reader(workspace));
          return rs, Some(e);
        case Ok(r) =>
          rs := rs + [r];
      }
      i := i + 1;
    }
    assert stored[..i] == stored;
    return rs, None;
  }

  function NotAttached(path: string): Error {
    Plain("path " + path + " does not attach to any repository, please use attach command to attach first")
  }

  /** init's index-building loop: each repository in turn is checked for a duplicate path,
      then for a duplicate remote and name, and indexed under both. */
  method IndexAll(rs: seq<Repo>)
    returns (ni: map<string, map<string, Repo>>, pi: map<string, Repo>, dup: Option<Duplicate>)
    ensures dup == FirstDuplicate(rs)
    ensures dup.None? ==> Consistent(rs, ni, pi)
  {
    ni, pi := map[], map[];
    var i := 0;
    while i < |rs|
      invariant 0 <= i <= |rs|
      invariant FirstDuplicateIn(rs, i).None?
      invariant ni == NameIndexOf(rs, i) && pi == PathIndexOf(rs, i)
    {
      var repo := rs[i];
      IndexStep(rs, i);
      if repo.path in pi {
        DuplicateSticks(rs, i + 1);
        return ni, pi, Some(PathTaken(repo.path));
      }
      if repo.remote in ni && repo.name in ni[repo.remote] {
        DuplicateSticks(rs, i + 1);
        return ni, pi, Some(NameTaken(repo));
      }
      ni := NameInsert(ni, repo);
      pi := pi[repo.path := repo];
      i := i + 1;
    }
    IndexOfConsistent(rs, i);
    return ni, pi, None;
  }

  /** Delete's loop: the entries without the argument's remote and name, in order. */
  method Without(rs: seq<Repo>, repo: Repo) returns (kept: seq<Repo>)
    ensures kept == Filter(rs, Keeps(repo))
  {
    kept := [];
    var i := 0;
    while i < |rs|
      invariant 0 <= i <= |rs|
      invariant kept == Filter(rs[..i], Keeps(repo))
    {
      FilterPrefixStep(rs, i, Keeps(repo));
      if rs[i].remote == repo.remote && rs[i].name == repo.name {
        i := i + 1;
        continue;
      }
      kept := kept + [rs[i]];
      i := i + 1;
    }
    assert rs[..i] == rs;
  }

  /** List's filter: the repositories of a remote, or all for "". */
  function OfRemote(remote: string): Repo -> bool {
    (r: Repo) => remote == "" || r.remote == remote
  }

  // ---------------------------------------------------------------------------------------

  /** The first failing record decides read's error. */
  lemma {:induction false} ReadErrorSticks(stored: seq<StoredRepo>, n: nat, read: StoredRepo -> Result<Repo, Error>)
    requires 0 < n <= |stored|
    requires ReadAll(stored[..n - 1], read).Ok? && read(stored[n - 1]).Err?
    ensures ReadAll(stored, read) == Err(read(stored[n - 1]).error)
  {
    assert stored[..n][..n - 1] == stored[..n - 1];
    if n < |stored| {
      ReadErrorPrefix(stored, n, read);
    } else {
      assert stored[..n] == stored;
    }
  }

  /** A failing prefix decides read's error. */
  lemma {:induction false} ReadErrorPrefix(stored: seq<StoredRepo>, n: nat, read: StoredRepo -> Result<Repo, Error>)
    requires 0 < n <= |stored|
    requires ReadAll(stored[..n], read).Err?
    ensures ReadAll(stored, read) == ReadAll(stored[..n], read)
    decreases |stored| - n
  {
    if n < |stored| {
      assert stored[..n + 1][..n] == stored[..n];
      ReadErrorPrefix(stored, n + 1, read);
    } else {
      assert stored[..n] == stored;
    }
  }

  lemma ClearedPersistsSame(before: seq<Repo>, after: seq<Repo>)
    requires |before| == |after|
    requires forall k :: 0 <= k < |after| ==> after[k] == ClearPath(before[k])
    ensures after == Map(before, ClearPath)
    ensures Map(after, ToStored) == Persist(before)
  {
  }

  /** Reading back a saved record gives the repository whenever it is normalized and, if it
      is a workspace one, sits at its default location. */
  lemma ReadOneStored(r: Repo, workspace: string)
    requires Normalized(r)
    requires r.workspace ==> r.path == WorkspacePath(workspace, r.remote, r.name)
    ensures ReadOne(ToStored(r), workspace) == Ok(r)
  {
    var s := ToStored(r);
    var bare := Repo(s.path, s.name, s.remote, s.lastAccess, s.access, false, "", "");
    var placed := if s.path == "" then bare.(path := WorkspacePath(workspace, s.remote, s.name), workspace := true) else bare;
    assert placed == r.(group := "", base := "");
    assert Normalize(r) == Ok(r);
  }

  /** read succeeds with rs when every record reads as the repository at its position. */
  lemma {:induction false} ReadAllOk(stored: seq<StoredRepo>, rs: seq<Repo>, read: StoredRepo -> Result<Repo, Error>)
    requires |rs| == |stored|
    requires forall k :: 0 <= k < |stored| ==> read(stored[k]) == Ok(rs[k])
    ensures ReadAll(stored, read) == Ok(rs)
    decreases |stored|
  {
    if stored != [] {
      var n := |stored|;
      ReadAllOk(stored[..n - 1], rs[..n - 1], read);
      assert rs[..n - 1] + [rs[n - 1]] == rs;
    }
  }

  /** Saving and loading again gives the repositories back, whenever each workspace
      repository sits at its default location. */
  lemma StoreRoundTrip(rs: seq<Repo>, workspace: string)
    requires forall k :: 0 <= k < |rs| ==> Normalized(rs[k])
    requires forall k :: 0 <= k < |rs| ==> rs[k].workspace ==> rs[k].path == WorkspacePath(workspace, rs[k].remote, rs[k].name)
    ensures ReadRepos(Persist(rs), workspace) == Ok(rs)
  {
    forall k | 0 <= k < |rs| ensures Reader(workspace)(Persist(rs)[k]) == Ok(rs[k]) {
      ReadOneStored(rs[k], workspace);
    }
    ReadAllOk(Persist(rs), rs, Reader(workspace));
  }

  /** Loading and saving again writes back the same records. */
  lemma {:induction false} LoadRoundTrip(stored: seq<StoredRepo>, workspace: string)
    requires ReadRepos(stored, workspace).Ok?
    ensures Persist(ReadRepos(stored, workspace).value) == stored
  {
    var rs := ReadRepos(stored, workspace).value;
    forall k | 0 <= k < |stored| ensures ToStored(rs[k]) == stored[k] {
      assert ReadOne(stored[k], workspace) == Ok(rs[k]);
    }
  }

  /** The duplicate-path message as written names the data file, so it is the same for
      every duplicated repository path. */
  lemma DuplicatePathAsWrittenIgnoresRepo(dataPath: string, p1: string, p2: string)
    ensures DuplicatePathAsWritten(dataPath, p1) == DuplicatePathAsWritten(dataPath, p2)
    ensures p1 != dataPath ==> DuplicatePathAsWritten(dataPath, p1) != DuplicatePath(p1)
  {
    if p1 != dataPath && DuplicatePathAsWritten(dataPath, p1) == DuplicatePath(p1) {
      var m1 := "path " + Quote(dataPath) + " is duplicate";
      var m2 := "path " + Quote(p1) + " is duplicate";
      assert m1[5..|m1| - 13] == Quote(dataPath);
      assert m2[5..|m2| - 13] == Quote(p1);
      QuoteInjective(dataPath, p1);
    }
  }

  /** The corrected message tells duplicated paths apart. */
  lemma DuplicatePathNamesRepo(p1: string, p2: string)
    requires p1 != p2
    ensures DuplicatePath(p1) != DuplicatePath(p2)
  {
    if DuplicatePath(p1) == DuplicatePath(p2) {
      var m1 := "path " + Quote(p1) + " is duplicate";
      var m2 := "path " + Quote(p2) + " is duplicate";
      assert m1[5..|m1| - 13] == Quote(p1);
      assert m2[5..|m2| - 13] == Quote(p2);
      QuoteInjective(p1, p2);
    }
  }

}
