/** core/repository.go, value part: a managed repository, its name rules, its frecency score
    and the helpers that sort and group repositories. */
module Repository {
  import opened Wrappers
  import opened GoStrings
  import opened Errors
  import opened Seqs
  import FilePath
  import Sorting

  const TwoTo64: nat := 0x1_0000_0000_0000_0000

  /** The time constants of the configuration, in seconds. */
  const HourSeconds: int := 3600
  const DaySeconds: int := 86400
  const WeekSeconds: int := 604800

  /** The score factors for a last access within an hour, a day, a week, or longer ago. */
  const HourFactor: nat := 16
  const DayFactor: nat := 8
  const WeekFactor: nat := 2
  const OtherFactor: nat := 1

  /** A Repository: where it lives, its "group/base" name, the remote it belongs to, when
      and how often it was accessed (Access is a uint64), whether it sits at its default
      workspace location, and the group and base derived from the name. */
  datatype Repo = Repo(
    path: string,
    name: string,
    remote: string,
    lastAccess: int,
    access: nat,
    workspace: bool,
    group: string,
    base: string)

  /** SplitGroup: a name without "/" has no group; otherwise the base is the last
      "/"-piece and the group is the earlier pieces joined by filepath.Join. */
  function SplitGroup(name: string): (string, string) {
    var tmp := Split(name, '/');
    if |tmp| <= 1 then ("", name)
    else (FilePath.JoinPath(tmp[..|tmp| - 1]), tmp[|tmp| - 1])
  }

  /** The message of every name that lacks a group. */
  function MissingGroup(name: string): Error {
    Plain("invalid repository name " + Quote(name) + ", missing group")
  }

  /** normalize: path, name and remote must be non-empty and the name must have a group;
      on success group and base are set from the name. */
  function Normalize(r: Repo): (res: Result<Repo, Error>)
    ensures res.Ok? <==> r.path != "" && r.name != "" && r.remote != "" && '/' in r.name
                         && SplitGroup(r.name).0 != ""
    ensures res.Ok? ==> res.value == r.(group := SplitGroup(r.name).0, base := SplitGroup(r.name).1)
    ensures (r.path == "" || r.name == "" || r.remote == "") ==> res == Err(Plain("repository data is invalid"))
    ensures r.path != "" && r.name != "" && r.remote != "" && res.Err? ==> res == Err(MissingGroup(r.name))
  {
    if r.path == "" || r.name == "" || r.remote == "" then Err(Plain("repository data is invalid"))
    else if |Split(r.name, '/')| <= 1 then
      assert '/' !in r.name by {
        if '/' in r.name { SplitHasSeparator(r.name, '/'); }
      }
      Err(MissingGroup(r.name))
    else
      assert '/' in r.name by {
        if '/' !in r.name { SplitNoSeparator(r.name, '/'); }
      }
      var (g, b) := SplitGroup(r.name);
      if g == "" then Err(MissingGroup(r.name))
      else Ok(r.(group := g, base := b))
  }

  /** A repository as normalize leaves it. */
  predicate Normalized(r: Repo) {
    Normalize(r) == Ok(r)
  }

  /** FullName: "remote:name". */
  function FullName(r: Repo): string {
    r.remote + ":" + r.name
  }

  /** AttachRepository: a repository of the remote at a given path, the name stripped of
      leading and trailing "/". */
  function AttachRepository(remoteName: string, name: string, path: string): (res: Result<Repo, Error>)
    ensures res.Ok? ==> Normalized(res.value) && res.value.path == path
                        && res.value.name == TrimChar(name, '/') && res.value.remote == remoteName
                        && !res.value.workspace && res.value.access == 0
    ensures res.Ok? <==>
      var n := TrimChar(name, '/');
      path != "" && n != "" && remoteName != "" && '/' in n && SplitGroup(n).0 != ""
    ensures res.Ok? ==> res.value.group == SplitGroup(TrimChar(name, '/')).0 && res.value.base == SplitGroup(TrimChar(name, '/')).1
    ensures res.Err? ==> res.error.Traced? && res.error.ops == ["normalize repository"]
    ensures res.Err? ==>
      var n := TrimChar(name, '/');
      res.error == Trace(if path == "" || n == "" || remoteName == "" then Plain("repository data is invalid") else MissingGroup(n),
                         "normalize repository")
  {
    var repo := Repo(path, TrimChar(name, '/'), remoteName, 0, 0, false, "", "");
    match Normalize(repo)
    case Err(e) => Err(Trace(e, "normalize repository"))
    case Ok(r) => Ok(r)
  }

  /** The default location of a repository: workspace/remote/name. */
  function WorkspacePath(workspace: string, remoteName: string, name: string): string {
    FilePath.JoinPath([workspace, remoteName, name])
  }

  /** WorkspaceRepository: a repository at its default location, marked as such. */
  function WorkspaceRepository(workspace: string, remoteName: string, name: string): (res: Result<Repo, Error>)
    ensures res.Ok? ==> res.value.workspace && res.value.path == WorkspacePath(workspace, remoteName, name)
    ensures res.Ok? <==> AttachRepository(remoteName, name, WorkspacePath(workspace, remoteName, name)).Ok?
  {
    match AttachRepository(remoteName, name, WorkspacePath(workspace, remoteName, name))
    case Err(e) => Err(e)
    case Ok(r) => Ok(r.(workspace := true))
  }

  /** MarkAccess: one more access (a uint64 that wraps) and the access time. */
  function MarkAccess(r: Repo, now: int): (r': Repo)
    ensures r'.lastAccess == now
    ensures r.access + 1 < TwoTo64 ==> r'.access == r.access + 1
    ensures r' == r.(access := r'.access, lastAccess := now)
  {
    r.(access := (r.access + 1) % TwoTo64, lastAccess := now)
  }

  /** The recency factor for the seconds elapsed since the last access. */
  function Factor(delta: int): nat
    requires delta > 0
  {
    if delta <= HourSeconds then HourFactor
    else if delta <= DaySeconds then DayFactor
    else if delta <= WeekSeconds then WeekFactor
    else OtherFactor
  }

  /** Score: zero unless the last access lies in the past; otherwise the access count times
      the recency factor, as a uint64 product that wraps. */
  function Score(r: Repo, now: int): (s: nat)
    ensures s < TwoTo64
  {
    var delta := now - r.lastAccess;
    if delta <= 0 then 0 else (r.access * Factor(delta)) % TwoTo64
  }

  /** GroupOf: the group part of a repository's name. */
  function GroupOf(r: Repo): string {
    SplitGroup(r.name).0
  }

  function WithSlash(g: string): string {
    g + "/"
  }

  /** What ConvertToGroups returns: each group once, in order of first appearance, with a
      trailing "/". */
  function GroupList(repos: seq<Repo>): seq<string> {
    Map(Dedup(Map(repos, GroupOf)), WithSlash)
  }

  /** SortRepositories: a permutation of the repositories with non-increasing scores. */
  method SortRepositories(repos: array<Repo>, now: int)
    modifies repos
    ensures forall i, j :: 0 <= i < j < repos.Length ==> Score(repos[i], now) >= Score(repos[j], now)
    ensures multiset(repos[..]) == multiset(old(repos[..]))
  {
    var higher := (x: Repo, y: Repo) => Score(x, now) >= Score(y, now);
    Sorting.SortBy(repos, higher);
  }

  /** ConvertToGroups */
  method ConvertToGroups(repos: seq<Repo>) returns (groups: seq<string>)
    ensures groups == GroupList(repos)
  {
    groups := [];
    var seen: set<string> := {};
    var i := 0;
    ghost var gs := Map(repos, GroupOf);
    ghost var firsts: seq<string> := [];
    while i < |repos|
      invariant 0 <= i <= |repos|
      invariant firsts == Dedup(gs[..i])
      invariant forall g :: g in seen <==> g in firsts
      invariant groups == Map(firsts, WithSlash)
    {
      var group := GroupOf(repos[i]);
      assert gs[i] == group;
      DedupPrefixStep(gs, i);
      if group !in seen {
        MapSnoc(firsts, group, WithSlash);
        seen := seen + {group};
        groups := groups + [group + "/"];
        firsts := firsts + [group];
      }
      i := i + 1;
    }
    assert gs[..i] == gs;
  }

  // ---------------------------------------------------------------------------------------

  /** A name without "/" has no group and is its own base. */
  lemma SplitGroupNoSlash(name: string)
    requires '/' !in name
    ensures SplitGroup(name) == ("", name)
  {
    SplitNoSeparator(name, '/');
  }

  /** A name with "/": the base is its last piece, so it holds no "/" and ends the name. */
  lemma SplitGroupBase(name: string)
    requires '/' in name
    ensures '/' !in SplitGroup(name).1
    ensures HasSuffix(name, "/" + SplitGroup(name).1)
  {
    var tmp := Split(name, '/');
    SplitHasSeparator(name, '/');
    SplitPiecesLackSeparator(name, '/');
    JoinOfSplit(name, '/');
    assert tmp == tmp[..|tmp| - 1] + [tmp[|tmp| - 1]];
    JoinSnoc(tmp[..|tmp| - 1], tmp[|tmp| - 1], "/");
  }

  /** A name made of plain pieces: none empty, "." or "..". */
  predicate PlainName(name: string) {
    forall k :: 0 <= k < |Split(name, '/')| ==> FilePath.Plain(Split(name, '/')[k])
  }

  /** For a name of plain pieces, group + "/" + base gives the name back. */
  lemma SplitGroupRoundTrip(name: string)
    requires '/' in name && PlainName(name)
    ensures SplitGroup(name).0 != ""
    ensures SplitGroup(name).0 + "/" + SplitGroup(name).1 == name
  {
    var tmp := Split(name, '/');
    SplitHasSeparator(name, '/');
    var front := tmp[..|tmp| - 1];
    FilePath.JoinPlain(front);
    JoinOfSplit(name, '/');
    assert tmp == front + [tmp[|tmp| - 1]];
    JoinSnoc(front, tmp[|tmp| - 1], "/");
    FilePath.JoinHead(front, "/");
  }

  /** A repository normalize accepts has the group and base SplitGroup gives, and its group
      is never empty. */
  lemma NormalizedParts(r: Repo)
    requires Normalized(r)
    ensures r.group == SplitGroup(r.name).0 && r.group != ""
    ensures r.base == SplitGroup(r.name).1
    ensures r.path != "" && r.name != "" && r.remote != ""
  {
  }

  /** normalize is idempotent. */
  lemma NormalizeIdempotent(r: Repo)
    requires Normalize(r).Ok?
    ensures Normalized(Normalize(r).value)
  {
  }

  /** A later access scores at least as much as an earlier one, for the same count. */
  lemma ScoreFavoursRecent(r: Repo, earlier: int, later: int, now: int)
    requires earlier <= later < now
    requires r.access * HourFactor < TwoTo64
    ensures Score(r.(lastAccess := later), now) >= Score(r.(lastAccess := earlier), now)
  {
  }

  /** The score buckets, with inclusive upper bounds, for counts that do not overflow. */
  lemma ScoreBuckets(r: Repo, now: int)
    requires r.access * HourFactor < TwoTo64
    ensures now - r.lastAccess <= 0 ==> Score(r, now) == 0
    ensures 0 < now - r.lastAccess <= 3600 ==> Score(r, now) == 16 * r.access
    ensures 3600 < now - r.lastAccess <= 86400 ==> Score(r, now) == 8 * r.access
    ensures 86400 < now - r.lastAccess <= 604800 ==> Score(r, now) == 2 * r.access
    ensures 604800 < now - r.lastAccess ==> Score(r, now) == r.access
  {
  }

  /** A repository accessed at `now` scores zero at that very second. */
  lemma MarkAccessScoresZeroNow(r: Repo, now: int)
    ensures Score(MarkAccess(r, now), now) == 0
  {
  }

  lemma WithSlashInjective(a: string, b: string)
    requires WithSlash(a) == WithSlash(b)
    ensures a == b
  {
    assert a == WithSlash(a)[..|a|];
  }

  /** Every repository's group appears in the group list, and no group twice. */
  lemma GroupListComplete(repos: seq<Repo>)
    ensures forall r :: r in repos ==> GroupOf(r) + "/" in GroupList(repos)
    ensures forall g :: g in GroupList(repos) ==> exists r :: r in repos && g == GroupOf(r) + "/"
    ensures Distinct(GroupList(repos))
  {
    var gs := Map(repos, GroupOf);
    var d := Dedup(gs);
    forall r | r in repos ensures GroupOf(r) + "/" in GroupList(repos) {
      var k :| 0 <= k < |repos| && repos[k] == r;
      assert gs[k] in d;
      var m :| 0 <= m < |d| && d[m] == gs[k];
      assert GroupList(repos)[m] == GroupOf(r) + "/";
    }
    forall g | g in GroupList(repos) ensures exists r :: r in repos && g == GroupOf(r) + "/" {
      var m :| 0 <= m < |d| && GroupList(repos)[m] == g;
      assert d[m] in gs;
      var k :| 0 <= k < |gs| && gs[k] == d[m];
      assert repos[k] in repos;
    }
    forall i, j | 0 <= i < j < |d| ensures GroupList(repos)[i] != GroupList(repos)[j] {
      if GroupList(repos)[i] == GroupList(repos)[j] {
        WithSlashInjective(d[i], d[j]);
      }
    }
  }
}
