/** cmd/repo/clean.go: the clean command. Init picks, among the repositories of the scanned
    remotes, those never accessed or not accessed for the threshold of days, and records the
    path of every repository it looks at; Run deletes the picked ones in order, or, when
    there are none, removes the empty directories of the workspace. The clock, the remote
    names git lists, the remote configurations, the storage's load error, the editor and
    the file system are parameters. */
module Clean {
  import opened Wrappers
  import opened GoStrings
  import opened Errors
  import opened Seqs
  import opened Repository
  import opened Remote
  import opened Storage
  import opened RepoIndex
  import opened Sorting
  import App
  import Edit
  import CleanDir
  import FilePath

  /** CleanFlags */
  datatype Flags = Flags(days: int, edit: bool, remotes: seq<string>, never: bool)

  /** CleanItem */
  datatype CleanItem = CleanItem(repo: Repo, remote: RemoteConfig, days: int, never: bool)

  /** CleanData, the storage aside: the picked items and the path of every repository
      looked at. */
  datatype CleanData = CleanData(items: seq<CleanItem>, repoPaths: set<string>)

  /** int(float64(a) / float64(b)) for b > 0: Go's conversion truncates toward zero. */
  function TruncDiv(a: int, b: int): (q: int)
    requires b > 0
    ensures a >= 0 ==> q == a / b
    ensures a < 0 ==> q <= 0
  {
    if a >= 0 then a / b else -((-a) / b)
  }

  /** The whole days since the last access, or -1 for a repository never accessed. */
  function DeltaDays(r: Repo, now: int): int {
    if r.lastAccess > 0 then TruncDiv(now - r.lastAccess, DaySeconds) else -1
  }

  /** The item the inner loop of Init makes for a listed repository, or None when it skips
      it. */
  function Select(r: Repo, rc: RemoteConfig, f: Flags, now: int): Option<CleanItem> {
    var d := DeltaDays(r, now);
    if r.lastAccess > 0 && (f.never || d < f.days) then None
    else Some(CleanItem(r, rc, d, d < 0))
  }

  /** The items picked from a remote's listed repositories, in listed order. */
  function SelectAll(listed: seq<Repo>, rc: RemoteConfig, f: Flags, now: int): seq<CleanItem> {
    if listed == [] then []
    else
      var more := Select(listed[|listed| - 1], rc, f, now);
      SelectAll(listed[..|listed| - 1], rc, f, now) + (if more.Some? then [more.value] else [])
  }

  /** The paths of the listed repositories. */
  function Paths(listed: seq<Repo>): set<string> {
    if listed == [] then {} else Paths(listed[..|listed| - 1]) + {listed[|listed| - 1].path}
  }

  /** The outer loop of Init over the remotes: each remote's configuration, then its
      repositories in the storage. */
  function Scan(remotes: seq<string>, repos: seq<Repo>, getRemote: string -> Result<RemoteConfig, Error>, f: Flags, now: int): Result<CleanData, Error> {
    if remotes == [] then Ok(CleanData([], {}))
    else
      var name := remotes[|remotes| - 1];
      match Scan(remotes[..|remotes| - 1], repos, getRemote, f, now)
      case Err(e) => Err(e)
      case Ok(data) =>
        match getRemote(name)
        case Err(e) => Err(Trace(e, "get remote " + Quote(name)))
        case Ok(rc) =>
          var listed := Filter(repos, OfRemote(name));
          Ok(CleanData(data.items + SelectAll(listed, rc, f, now), data.repoPaths + Paths(listed)))
  }

  function InvalidDays(days: int): Error {
    Plain("invalid flag days " + Itoa(days) + ": should be bigger than 1")
  }

  /** What Init gives: the threshold is checked first, then the remotes are listed when none
      was named, then the storage must have loaded, then the remotes are scanned. */
  function Plan(f: Flags, listRemoteNames: Result<seq<string>, Error>, storeErr: Option<Error>, repos: seq<Repo>,
                getRemote: string -> Result<RemoteConfig, Error>, now: int): Result<CleanData, Error> {
    if f.days <= 1 then Err(InvalidDays(f.days))
    else if f.remotes == [] && listRemoteNames.Err? then Err(Trace(listRemoteNames.error, "list remote"))
    else if storeErr.Some? then Err(Trace(storeErr.value, "init repo storage"))
    else Scan(if f.remotes == [] then listRemoteNames.value else f.remotes, repos, getRemote, f, now)
  }

  /** Clean.Init: on success the storage's Close is registered to run when the command
      ends. */
  method Init(f: Flags, listRemoteNames: Result<seq<string>, Error>, storeErr: Option<Error>, store: RepositoryStorage,
              getRemote: string -> Result<RemoteConfig, Error>, now: int, ctx: App.Context, closeStore: App.Closer)
    returns (r: Result<CleanData, Error>)
    modifies ctx
    ensures r == Plan(f, listRemoteNames, storeErr, store.repos, getRemote, now)
    ensures ctx.closeFuncs == if r.Ok? then old(ctx.closeFuncs) + [closeStore] else old(ctx.closeFuncs)
  {
    if f.days <= 1 {
      return Err(InvalidDays(f.days));
    }
    var remotes := f.remotes;
    if |remotes| == 0 {
      if listRemoteNames.Err? {
        return Err(Trace(listRemoteNames.error, "list remote"));
      }
      remotes := listRemoteNames.value;
    }
    if storeErr.Some? {
      return Err(Trace(storeErr.value, "init repo storage"));
    }
    r := ScanRemotes(remotes, store, getRemote, f, now);
    if r.Ok? {
      ctx.OnClose(closeStore);
    }
  }

  /** The loop of Init over the remotes. */
  method ScanRemotes(remotes: seq<string>, store: RepositoryStorage, getRemote: string -> Result<RemoteConfig, Error>, f: Flags, now: int)
    returns (r: Result<CleanData, Error>)
    ensures r == Scan(remotes, store.repos, getRemote, f, now)
  {
    var items: seq<CleanItem> := [];
    var repoPaths: set<string> := {};
    for i := 0 to |remotes|
      invariant Scan(remotes[..i], store.repos, getRemote, f, now) == Ok(CleanData(items, repoPaths))
    {
      assert remotes[..i + 1][..i] == remotes[..i];
      var name := remotes[i];
      var remote := getRemote(name);
      if remote.Err? {
        ScanErrPersists(remotes, i + 1, store.repos, getRemote, f, now);
        return Err(Trace(remote.error, "get remote " + Quote(name)));
      }
      var listed := store.List(name);
      var picked, paths := SelectRepos(listed, remote.value, f, now);
      items := items + picked;
      repoPaths := repoPaths + paths;
    }
    assert remotes[..|remotes|] == remotes;
    return Ok(CleanData(items, repoPaths));
  }

  /** The inner loop of Init over one remote's repositories. */
  method SelectRepos(listed: seq<Repo>, rc: RemoteConfig, f: Flags, now: int) returns (items: seq<CleanItem>, paths: set<string>)
    ensures items == SelectAll(listed, rc, f, now) && paths == Paths(listed)
  {
    items := [];
    paths := {};
    for i := 0 to |listed|
      invariant items == SelectAll(listed[..i], rc, f, now) && paths == Paths(listed[..i])
    {
      assert listed[..i + 1][..i] == listed[..i];
      var repo := listed[i];
      paths := paths + {repo.path};
      var deltaDays := -1;
      if repo.lastAccess > 0 {
        if f.never {
          continue;
        }
        var deltaSeconds := now - repo.lastAccess;
        deltaDays := TruncDiv(deltaSeconds, DaySeconds);
        if deltaDays < f.days {
          continue;
        }
      }
      var item := CleanItem(repo, rc, deltaDays, false);
      if deltaDays < 0 {
        item := item.(never := true);
      }
      items := items + [item];
    }
    assert listed[..|listed|] == listed;
  }

  lemma {:induction false} ScanErrPersists(remotes: seq<string>, n: nat, repos: seq<Repo>,
                                           getRemote: string -> Result<RemoteConfig, Error>, f: Flags, now: int)
    requires n <= |remotes| && Scan(remotes[..n], repos, getRemote, f, now).Err?
    ensures Scan(remotes, repos, getRemote, f, now) == Scan(remotes[..n], repos, getRemote, f, now)
    decreases |remotes| - n
  {
    if n < |remotes| {
      assert remotes[..n + 1][..n] == remotes[..n];
      ScanErrPersists(remotes, n + 1, repos, getRemote, f, now);
    } else {
      assert remotes[..n] == remotes;
    }
  }

  // ---------------------------------------------------------------------------------------
  // What Init picks

  /** A threshold of one day or less is refused before anything else is looked at. */
  lemma SmallThresholdRejected(f: Flags, listRemoteNames: Result<seq<string>, Error>, storeErr: Option<Error>, repos: seq<Repo>,
                               getRemote: string -> Result<RemoteConfig, Error>, now: int)
    ensures Plan(f, listRemoteNames, storeErr, repos, getRemote, now).Err? <==>
      f.days <= 1 || (f.remotes == [] && listRemoteNames.Err?) || storeErr.Some?
      || Scan(if f.remotes == [] then listRemoteNames.value else f.remotes, repos, getRemote, f, now).Err?
    ensures f.days <= 1 ==> Plan(f, listRemoteNames, storeErr, repos, getRemote, now) == Err(InvalidDays(f.days))
  {
  }

  /** A repository never accessed is always picked, as never accessed, whatever the flags. */
  lemma NeverAccessedPicked(r: Repo, rc: RemoteConfig, f: Flags, now: int)
    requires r.lastAccess <= 0
    ensures Select(r, rc, f, now) == Some(CleanItem(r, rc, -1, true))
  {
  }

  /** Under --never an accessed repository is never picked. */
  lemma NeverFlagSkipsAccessed(r: Repo, rc: RemoteConfig, f: Flags, now: int)
    requires f.never && r.lastAccess > 0
    ensures Select(r, rc, f, now) == None
  {
  }

  /** Otherwise an accessed repository is picked exactly when at least the threshold of whole
      days has passed since its last access, and then it carries those days. */
  lemma AccessedPickedWhenIdle(r: Repo, rc: RemoteConfig, f: Flags, now: int)
    requires !f.never && r.lastAccess > 0 && f.days > 1
    ensures Select(r, rc, f, now).Some? <==> now - r.lastAccess >= f.days * DaySeconds
    ensures Select(r, rc, f, now).Some? ==>
      Select(r, rc, f, now) == Some(CleanItem(r, rc, (now - r.lastAccess) / DaySeconds, false))
  {
    var delta := now - r.lastAccess;
    if delta >= 0 {
      DivThreshold(delta, f.days);
    }
  }

  lemma DivThreshold(delta: nat, days: int)
    ensures delta / DaySeconds >= days <==> delta >= days * DaySeconds
  {
    var q := delta / DaySeconds;
    assert q * DaySeconds <= delta < q * DaySeconds + DaySeconds;
    if q >= days {
      assert q * DaySeconds >= days * DaySeconds;
    } else {
      assert q + 1 <= days;
      assert (q + 1) * DaySeconds <= days * DaySeconds;
    }
  }

  /** An item is marked never accessed exactly when it carries no days. */
  lemma NeverIffNoDays(r: Repo, rc: RemoteConfig, f: Flags, now: int)
    requires f.days > 1 && Select(r, rc, f, now).Some?
    ensures Select(r, rc, f, now).value.never <==> r.lastAccess <= 0
    ensures Select(r, rc, f, now).value.days >= 0 <==> r.lastAccess > 0
  {
  }

  lemma {:induction false} SelectAllMembers(listed: seq<Repo>, rc: RemoteConfig, f: Flags, now: int)
    ensures forall it :: it in SelectAll(listed, rc, f, now) ==> it.repo in listed && Select(it.repo, rc, f, now) == Some(it)
    ensures forall r :: r in listed && Select(r, rc, f, now).Some? ==> Select(r, rc, f, now).value in SelectAll(listed, rc, f, now)
  {
    if listed != [] {
      var init := listed[..|listed| - 1];
      SelectAllMembers(init, rc, f, now);
      assert listed == init + [listed[|listed| - 1]];
    }
  }

  lemma {:induction false} PathsMembers(listed: seq<Repo>)
    ensures forall r :: r in listed ==> r.path in Paths(listed)
    ensures forall p :: p in Paths(listed) ==> exists r :: r in listed && r.path == p
  {
    if listed != [] {
      var init := listed[..|listed| - 1];
      PathsMembers(init);
      assert listed == init + [listed[|listed| - 1]];
    }
  }

  /** Every repository of a scanned remote has its path recorded, picked or not. */
  lemma {:induction false} ScanRecordsPaths(remotes: seq<string>, repos: seq<Repo>, getRemote: string -> Result<RemoteConfig, Error>, f: Flags, now: int)
    requires Scan(remotes, repos, getRemote, f, now).Ok?
    ensures forall k, r :: 0 <= k < |remotes| && r in repos && OfRemote(remotes[k])(r) ==>
      r.path in Scan(remotes, repos, getRemote, f, now).value.repoPaths
  {
    if remotes != [] {
      var init := remotes[..|remotes| - 1];
      var name := remotes[|remotes| - 1];
      ScanRecordsPaths(init, repos, getRemote, f, now);
      var listed := Filter(repos, OfRemote(name));
      var paths := Scan(remotes, repos, getRemote, f, now).value.repoPaths;
      assert paths == Scan(init, repos, getRemote, f, now).value.repoPaths + Paths(listed);
      forall k, r | 0 <= k < |remotes| && r in repos && OfRemote(remotes[k])(r)
        ensures r.path in paths
      {
        if k < |init| {
          assert remotes[k] == init[k];
        } else {
          assert k == |init| && remotes[k] == name;
          PathListed(repos, name, r);
        }
      }
    }
  }

  lemma PathListed(repos: seq<Repo>, name: string, r: Repo)
    requires r in repos && OfRemote(name)(r)
    ensures r.path in Paths(Filter(repos, OfRemote(name)))
  {
    PathsMembers(Filter(repos, OfRemote(name)));
  }

  /** Only the paths of stored repositories are recorded. */
  lemma {:induction false} ScanRecordsOnlyStored(remotes: seq<string>, repos: seq<Repo>, getRemote: string -> Result<RemoteConfig, Error>, f: Flags, now: int)
    requires Scan(remotes, repos, getRemote, f, now).Ok?
    ensures forall p :: p in Scan(remotes, repos, getRemote, f, now).value.repoPaths ==> exists r :: r in repos && r.path == p
  {
    if remotes != [] {
      var init := remotes[..|remotes| - 1];
      var name := remotes[|remotes| - 1];
      ScanRecordsOnlyStored(init, repos, getRemote, f, now);
      PathsMembers(Filter(repos, OfRemote(name)));
    }
  }

  /** The items are exactly the picks among the repositories of the scanned remotes: each
      item is one a remote's repository yields, and each such pick is among the items. */
  lemma ScanItems(remotes: seq<string>, repos: seq<Repo>, getRemote: string -> Result<RemoteConfig, Error>, f: Flags, now: int)
    requires Scan(remotes, repos, getRemote, f, now).Ok?
    ensures forall it :: it in Scan(remotes, repos, getRemote, f, now).value.items ==>
      it.repo in repos && Select(it.repo, it.remote, f, now) == Some(it)
      && exists k :: 0 <= k < |remotes| && OfRemote(remotes[k])(it.repo) && getRemote(remotes[k]) == Ok(it.remote)
    ensures forall k, r ::
      0 <= k < |remotes| && r in repos && OfRemote(remotes[k])(r) && getRemote(remotes[k]).Ok? && Select(r, getRemote(remotes[k]).value, f, now).Some? ==>
      Select(r, getRemote(remotes[k]).value, f, now).value in Scan(remotes, repos, getRemote, f, now).value.items
  {
    ScanItemsSound(remotes, repos, getRemote, f, now);
    ScanItemsComplete(remotes, repos, getRemote, f, now);
  }

  /** Each item is a pick among the repositories of a scanned remote. */
  lemma {:induction false} ScanItemsSound(remotes: seq<string>, repos: seq<Repo>, getRemote: string -> Result<RemoteConfig, Error>, f: Flags, now: int)
    requires Scan(remotes, repos, getRemote, f, now).Ok?
    ensures forall it :: it in Scan(remotes, repos, getRemote, f, now).value.items ==>
      it.repo in repos && Select(it.repo, it.remote, f, now) == Some(it)
      && exists k :: 0 <= k < |remotes| && OfRemote(remotes[k])(it.repo) && getRemote(remotes[k]) == Ok(it.remote)
  {
    if remotes != [] {
      var init := remotes[..|remotes| - 1];
      var name := remotes[|remotes| - 1];
      ScanItemsSound(init, repos, getRemote, f, now);
      var listed := Filter(repos, OfRemote(name));
      var rc := getRemote(name).value;
      var prev := Scan(init, repos, getRemote, f, now).value;
      var data := Scan(remotes, repos, getRemote, f, now).value;
      assert data.items == prev.items + SelectAll(listed, rc, f, now);
      SelectAllMembers(listed, rc, f, now);
      forall it | it in data.items
        ensures it.repo in repos && Select(it.repo, it.remote, f, now) == Some(it)
        ensures exists k :: 0 <= k < |remotes| && OfRemote(remotes[k])(it.repo) && getRemote(remotes[k]) == Ok(it.remote)
      {
        if it in prev.items {
          var k :| 0 <= k < |init| && OfRemote(init[k])(it.repo) && getRemote(init[k]) == Ok(it.remote);
          assert remotes[k] == init[k];
        } else {
          assert it in SelectAll(listed, rc, f, now);
          assert remotes[|remotes| - 1] == name;
        }
      }
    }
  }

  /** Each pick among the repositories of a scanned remote is an item. */
  lemma {:induction false} ScanItemsComplete(remotes: seq<string>, repos: seq<Repo>, getRemote: string -> Result<RemoteConfig, Error>, f: Flags, now: int)
    requires Scan(remotes, repos, getRemote, f, now).Ok?
    ensures forall k, r ::
      0 <= k < |remotes| && r in repos && OfRemote(remotes[k])(r) && getRemote(remotes[k]).Ok? && Select(r, getRemote(remotes[k]).value, f, now).Some? ==>
      Select(r, getRemote(remotes[k]).value, f, now).value in Scan(remotes, repos, getRemote, f, now).value.items
  {
    if remotes != [] {
      var init := remotes[..|remotes| - 1];
      var name := remotes[|remotes| - 1];
      ScanItemsComplete(init, repos, getRemote, f, now);
      var listed := Filter(repos, OfRemote(name));
      var rc := getRemote(name).value;
      var prev := Scan(init, repos, getRemote, f, now).value;
      var data := Scan(remotes, repos, getRemote, f, now).value;
      assert data.items == prev.items + SelectAll(listed, rc, f, now);
      SelectAllMembers(listed, rc, f, now);
      forall k, r | 0 <= k < |remotes| && r in repos && OfRemote(remotes[k])(r) && getRemote(remotes[k]).Ok? && Select(r, getRemote(remotes[k]).value, f, now).Some?
        ensures Select(r, getRemote(remotes[k]).value, f, now).value in data.items
      {
        if k < |init| {
          assert remotes[k] == init[k];
        } else {
          assert k == |init| && remotes[k] == name;
          assert r in listed;
        }
      }
    }
  }

  /** A successful scan found the configuration of every remote. */
  lemma {:induction false} ScanOkRemotes(remotes: seq<string>, repos: seq<Repo>, getRemote: string -> Result<RemoteConfig, Error>, f: Flags, now: int)
    requires Scan(remotes, repos, getRemote, f, now).Ok?
    ensures forall k :: 0 <= k < |remotes| ==> getRemote(remotes[k]).Ok?
  {
    if remotes != [] {
      var init := remotes[..|remotes| - 1];
      ScanOkRemotes(init, repos, getRemote, f, now);
      assert forall k :: 0 <= k < |init| ==> remotes[k] == init[k];
    }
  }

  // ---------------------------------------------------------------------------------------
  // showCleanItems

  predicate IsNever(it: CleanItem) { it.never }

  predicate IsAccessed(it: CleanItem) { !it.never }

  /** The order sort.Slice is asked for: more days first. */
  predicate MoreDays(a: CleanItem, b: CleanItem) { a.days >= b.days }

  /** The order showCleanItems lists items in: the never accessed ones as they came, then the
      accessed ones from the most days to the fewest. */
  predicate ShowOrdered(items: seq<CleanItem>, shown: seq<CleanItem>) {
    var n := |Filter(items, IsNever)|;
    |shown| == |items|
    && shown[..n] == Filter(items, IsNever)
    && SortedBy(shown[n..], MoreDays)
    && multiset(shown[n..]) == multiset(Filter(items, IsAccessed))
  }

  /** The width of the name column: the longest full name. */
  function NameWidth(items: seq<CleanItem>): (w: nat)
    ensures forall k :: 0 <= k < |items| ==> |FullName(items[k].repo)| <= w
    ensures items != [] ==> exists k :: 0 <= k < |items| && |FullName(items[k].repo)| == w
    ensures items == [] ==> w == 0
  {
    if items == [] then 0
    else
      var w := NameWidth(items[..|items| - 1]);
      var n := |FullName(items[|items| - 1].repo)|;
      assert forall k :: 0 <= k < |items| - 1 ==> items[..|items| - 1][k] == items[k];
      if n > w then n else w
  }

  /** A line showCleanItems prints: the count of items, or one item. */
  datatype Line = Heading(count: int) | ItemLine(item: CleanItem)

  /** How an item's age is shown, with its colour. */
  function View(it: CleanItem): string {
    if it.never then "red|Never" else "yellow|" + Plural(it.days, "day")
  }

  /** The text of a line, the names padded to the width of the name column. */
  function Text(l: Line, width: nat): string {
    match l
    case Heading(n) => Plural(n, "repo") + " to delete:"
    case ItemLine(it) => "* " + PadRight(FullName(it.repo), width) + " " + View(it)
  }

  /** showCleanItems: the order it shows the items in, and the lines it prints. */
  method ShowCleanItems(items: seq<CleanItem>) returns (shown: seq<CleanItem>, lines: seq<Line>, width: nat)
    ensures ShowOrdered(items, shown) && width == NameWidth(items)
    ensures |lines| == |items| + 1 && lines[0] == Heading(|items|)
    ensures forall k :: 0 <= k < |items| ==> lines[k + 1] == ItemLine(shown[k])
  {
    var nevers, visited, nameLen := Partition(items);
    var a := new CleanItem[|visited|](k requires 0 <= k < |visited| => visited[k]);
    assert a[..] == visited;
    SortBy(a, MoreDays);
    shown := nevers + a[..];
    NeversThenSorted(items, nevers, a[..]);
    lines := RenderLines(shown);
    width := nameLen;
  }

  /** The first loop of showCleanItems: the never accessed items, the others, and the
      longest name. */
  method Partition(items: seq<CleanItem>) returns (nevers: seq<CleanItem>, visited: seq<CleanItem>, nameLen: nat)
    ensures nevers == Filter(items, IsNever) && visited == Filter(items, IsAccessed) && nameLen == NameWidth(items)
  {
    nevers := [];
    visited := [];
    nameLen := 0;
    for i := 0 to |items|
      invariant nevers == Filter(items[..i], IsNever) && visited == Filter(items[..i], IsAccessed)
      invariant nameLen == NameWidth(items[..i])
    {
      FilterPrefixStep(items, i, IsNever);
      FilterPrefixStep(items, i, IsAccessed);
      assert items[..i + 1][..i] == items[..i];
      if |FullName(items[i].repo)| > nameLen {
        nameLen := |FullName(items[i].repo)|;
      }
      if items[i].never {
        nevers := nevers + [items[i]];
        continue;
      }
      visited := visited + [items[i]];
    }
    assert items[..|items|] == items;
  }

  /** The printing loop of showCleanItems: the header, then one row per item. */
  method RenderLines(shown: seq<CleanItem>) returns (lines: seq<Line>)
    ensures |lines| == |shown| + 1 && lines[0] == Heading(|shown|)
    ensures forall k :: 0 <= k < |shown| ==> lines[k + 1] == ItemLine(shown[k])
  {
    lines := [Heading(|shown|)];
    for k := 0 to |shown|
      invariant |lines| == k + 1 && lines[0] == Heading(|shown|)
      invariant forall j :: 0 <= j < k ==> lines[j + 1] == ItemLine(shown[j])
    {
      lines := lines + [ItemLine(shown[k])];
    }
  }

  lemma NeversThenSorted(items: seq<CleanItem>, nevers: seq<CleanItem>, sorted: seq<CleanItem>)
    requires nevers == Filter(items, IsNever)
    requires SortedBy(sorted, MoreDays) && multiset(sorted) == multiset(Filter(items, IsAccessed))
    ensures ShowOrdered(items, nevers + sorted)
  {
    SplitNever(items);
    var ns, vs := Filter(items, IsNever), Filter(items, IsAccessed);
    assert |multiset(ns) + multiset(vs)| == |multiset(ns)| + |multiset(vs)| == |ns| + |vs|;
    assert |items| == |multiset(items)| == |ns| + |vs|;
    assert |sorted| == |multiset(sorted)| == |vs|;
    var shown := nevers + sorted;
    assert shown[..|nevers|] == nevers && shown[|nevers|..] == sorted;
  }

  /** The never accessed and the accessed items together are the items. */
  lemma {:induction false} SplitNever(items: seq<CleanItem>)
    ensures multiset(Filter(items, IsNever)) + multiset(Filter(items, IsAccessed)) == multiset(items)
  {
    if items != [] {
      var init := items[..|items| - 1];
      SplitNever(init);
      assert items == init + [items[|items| - 1]];
    }
  }

  /** The order shown is a permutation of the items, the never accessed ones in front. */
  lemma ShownIsPermutation(items: seq<CleanItem>, shown: seq<CleanItem>)
    requires ShowOrdered(items, shown)
    ensures multiset(shown) == multiset(items)
    ensures forall k :: 0 <= k < |Filter(items, IsNever)| ==> shown[k].never
    ensures forall j, k :: |Filter(items, IsNever)| <= j < k < |shown| ==> shown[j].days >= shown[k].days
  {
    var n := |Filter(items, IsNever)|;
    SplitNever(items);
    assert shown == shown[..n] + shown[n..];
    forall k | 0 <= k < n
      ensures shown[k].never
    {
      assert shown[k] in Filter(items, IsNever);
    }
  }

  // ---------------------------------------------------------------------------------------
  // cleanEmptyDir

  /** What the WalkDir callback of cleanEmptyDir returns for a path: nil, filepath.SkipDir
      after recording the path as an empty directory, filepath.SkipDir, or an error. */
  datatype Reply = Descend | Collect | Skip | Fail(err: Error)

  /** What walking one entry gives: the empty directories recorded, in walk order, and
      whether the walk of the entry ended in SkipDir for a file, which ends the walk of its
      parent directory; or the error that ends the walk. */
  datatype Walked = Walked(dirs: seq<string>, skipRest: bool) | WalkErr(err: Error)

  type Callback = (string, CleanDir.Entry) -> Reply

  /** filepath.WalkDir's walkDir: the callback, then, for a directory it lets through, its
      entries in listing order. A directory that cannot be listed hands its error to the
      callback, which returns it. A SkipDir for a directory skips the directory; for a file
      it skips the file's remaining siblings. */
  function WalkEntry(path: string, e: CleanDir.Entry, cb: Callback): Walked
    decreases e, 1
  {
    match cb(path, e)
    case Fail(err) => WalkErr(err)
    case Skip => Walked([], !e.Dir?)
    case Collect => Walked([path], !e.Dir?)
    case Descend =>
      if !e.Dir? then Walked([], false)
      else
        match e.listing
        case Unreadable(err) => WalkErr(err)
        case Entries(_) => WalkEntries(path, e, 0, cb)
  }

  function WalkEntries(path: string, e: CleanDir.Entry, i: nat, cb: Callback): Walked
    requires e.Dir? && e.listing.Entries? && i <= |e.listing.entries|
    decreases e, 0, |e.listing.entries| - i
  {
    var es := e.listing.entries;
    if i == |es| then Walked([], false)
    else
      match WalkEntry(FilePath.JoinPath([path, es[i].name]), es[i], cb)
      case WalkErr(err) => WalkErr(err)
      case Walked(dirs, skipRest) =>
        if skipRest then Walked(dirs, false)
        else
          match WalkEntries(path, e, i + 1, cb)
          case WalkErr(err) => WalkErr(err)
          case Walked(more, _) => Walked(dirs + more, false)
  }

  /** filepath.WalkDir from the workspace root: a root that cannot be stat'ed hands its error
      to the callback, which returns it; a SkipDir at the root ends the walk without
      error. */
  function WalkDir(root: string, st: CleanDir.Stat, cb: Callback): Result<seq<string>, Error> {
    var w := match st
      case StatFailed(err) => WalkErr(err)
      case NotDirectory => WalkEntry(root, CleanDir.File(""), cb)
      case Directory(l) => WalkEntry(root, CleanDir.Dir("", l), cb);
    if w.WalkErr? then Err(w.err) else Ok(w.dirs)
  }

  /** The callback of cleanEmptyDir as written: it reads every path it is given as a
      directory, the paths of files included, for which os.ReadDir fails with the error
      notDir gives. */
  function VisitAsWritten(repoPaths: set<string>, notDir: string -> Error): Callback {
    (path: string, e: CleanDir.Entry) =>
      if path in repoPaths then Skip
      else if e.File? then Fail(Trace(notDir(path), "read dir"))
      else if e.listing.Unreadable? then Fail(Trace(e.listing.err, "read dir"))
      else if e.listing.entries == [] then Collect
      else Descend
  }

  /** The callback as evidently intended: files are passed over. */
  function Visit(repoPaths: set<string>): Callback {
    (path: string, e: CleanDir.Entry) =>
      if e.File? then Descend
      else if path in repoPaths then Skip
      else if e.listing.Unreadable? then Fail(Trace(e.listing.err, "read dir"))
      else if e.listing.entries == [] then Collect
      else Descend
  }

  /** Every directory under the entry can be listed. */
  predicate Listable(e: CleanDir.Entry)
    decreases e
  {
    e.File? || (e.listing.Entries? && forall k :: 0 <= k < |e.listing.entries| ==> Listable(e.listing.entries[k]))
  }

  /** A workspace holding a file outside every repository: the walk as written fails on it
      and the clean command reports "scan workspace" instead of removing anything. */
  lemma StrayFileStopsCleaning(notDir: string -> Error)
    ensures var ws := CleanDir.Directory(CleanDir.Entries([CleanDir.File("notes.txt")]));
      WalkDir("/ws", ws, VisitAsWritten({}, notDir)).Err?
      && WalkDir("/ws", ws, Visit({})) == Ok([])
  {
    var ws := CleanDir.Entries([CleanDir.File("notes.txt")]);
    var root := CleanDir.Dir("", ws);
    var file := CleanDir.File("notes.txt");
    var p := FilePath.JoinPath(["/ws", "notes.txt"]);
    assert WalkEntry(p, file, VisitAsWritten({}, notDir)).WalkErr?;
    assert WalkEntries("/ws", root, 0, VisitAsWritten({}, notDir)).WalkErr?;
    assert WalkEntry(p, file, Visit({})) == Walked([], false);
    assert WalkEntries("/ws", root, 1, Visit({})) == Walked([], false);
    assert WalkEntries("/ws", root, 0, Visit({})) == Walked([], false);
  }

  /** With files passed over, a workspace whose directories can all be listed is walked
      without error, and no recorded directory is a repository's. */
  lemma {:induction false} WalkEntryListable(path: string, e: CleanDir.Entry, repoPaths: set<string>)
    requires Listable(e)
    ensures WalkEntry(path, e, Visit(repoPaths)).Walked?
    ensures forall d :: d in WalkEntry(path, e, Visit(repoPaths)).dirs ==> d !in repoPaths
    decreases e, 1
  {
    if e.Dir? && path !in repoPaths && e.listing.entries != [] {
      WalkEntriesListable(path, e, 0, repoPaths);
    }
  }

  lemma {:induction false} WalkEntriesListable(path: string, e: CleanDir.Entry, i: nat, repoPaths: set<string>)
    requires e.Dir? && e.listing.Entries? && i <= |e.listing.entries| && Listable(e)
    ensures WalkEntries(path, e, i, Visit(repoPaths)).Walked?
    ensures forall d :: d in WalkEntries(path, e, i, Visit(repoPaths)).dirs ==> d !in repoPaths
    decreases e, 0, |e.listing.entries| - i
  {
    var es := e.listing.entries;
    if i < |es| {
      WalkEntryListable(FilePath.JoinPath([path, es[i].name]), es[i], repoPaths);
      WalkEntriesListable(path, e, i + 1, repoPaths);
    }
  }

  lemma WalkListable(root: string, l: CleanDir.Listing, repoPaths: set<string>)
    requires Listable(CleanDir.Dir("", l))
    ensures WalkDir(root, CleanDir.Directory(l), Visit(repoPaths)).Ok?
    ensures forall d :: d in WalkDir(root, CleanDir.Directory(l), Visit(repoPaths)).value ==> d !in repoPaths
  {
    WalkEntryListable(root, CleanDir.Dir("", l), repoPaths);
  }

  /** What cleanEmptyDir returns: the walk's error, or the first removal's error. */
  function EmptyDirErr(root: string, st: CleanDir.Stat, repoPaths: set<string>, remove: string -> Option<Error>): Option<Error> {
    match WalkDir(root, st, Visit(repoPaths))
    case Err(e) => Some(Trace(e, "scan workspace"))
    case Ok(dirs) =>
      var k := FirstFailing(dirs, remove);
      if k < |dirs| then Some(Trace(remove(dirs[k]).value, "remove empty dir")) else None
  }

  /** cleanEmptyDir: the directories recorded are removed in walk order, up to the first
      removal that fails. */
  method CleanEmptyDir(root: string, st: CleanDir.Stat, repoPaths: set<string>, remove: string -> Option<Error>)
    returns (err: Option<Error>, removed: seq<string>)
    ensures err == EmptyDirErr(root, st, repoPaths, remove)
    ensures WalkDir(root, st, Visit(repoPaths)).Ok? ==>
      removed == WalkDir(root, st, Visit(repoPaths)).value[..FirstFailing(WalkDir(root, st, Visit(repoPaths)).value, remove)]
  {
    removed := [];
    var walked := WalkDir(root, st, Visit(repoPaths));
    if walked.Err? {
      return Some(Trace(walked.error, "scan workspace")), removed;
    }
    var dirs := walked.value;
    for i := 0 to |dirs|
      invariant removed == dirs[..i]
      invariant forall j :: 0 <= j < i ==> remove(dirs[j]).None?
    {
      var e := remove(dirs[i]);
      if e.Some? {
        assert FirstFailing(dirs, remove) == i;
        return Some(Trace(e.value, "remove empty dir")), removed;
      }
      removed := removed + [dirs[i]];
    }
    assert FirstFailing(dirs, remove) == |dirs|;
    return None, removed;
  }

  // ---------------------------------------------------------------------------------------
  // Run

  function ItemName(it: CleanItem): string {
    FullName(it.repo)
  }

  /** The items Run goes on with: the edited selection under --edit, else all of them. */
  function Chosen(f: Flags, items: seq<CleanItem>, editor: string -> Result<string, Error>): Result<seq<CleanItem>, Error> {
    if f.edit then Edit.Edited(items, ItemName, editor) else Ok(items)
  }

  /** The error RepositoryStorage.DeleteAll returns for an item: the stat's, or the failed
      removal's. */
  function DeleteErr(stat: Repo -> StatResult, removeErr: Repo -> Option<Error>): CleanItem -> Option<Error> {
    (it: CleanItem) =>
      match stat(it.repo)
      case StatFailed(e) => Some(e)
      case NotExist => None
      case Exists =>
        if removeErr(it.repo).Some? then Some(Trace(removeErr(it.repo).value, "remove dir for repo " + Quote(FullName(it.repo))))
        else None
  }

  /** The storage's repositories once the items are deleted one after the other. */
  function Deleted(repos: seq<Repo>, items: seq<CleanItem>): seq<Repo> {
    if items == [] then repos else Filter(Deleted(repos, items[..|items| - 1]), Keeps(items[|items| - 1].repo))
  }

  /** Clean.Run. What it prints and the confirmation prompt are left to the caller; the
      order the items are shown in is returned. */
  method Run(f: Flags, data: CleanData, store: RepositoryStorage, editor: string -> Result<string, Error>,
             stat: Repo -> StatResult, removeErr: Repo -> Option<Error>,
             root: string, workspace: CleanDir.Stat, remove: string -> Option<Error>)
    returns (err: Option<Error>, shown: seq<CleanItem>)
    modifies store
    ensures data.items == [] ==>
      err == TraceOpt(EmptyDirErr(root, workspace, data.repoPaths, remove), "clean empty dir")
      && store.repos == old(store.repos) && shown == []
    ensures data.items != [] ==>
      match Chosen(f, data.items, editor)
      case Err(e) => err == Some(e) && store.repos == old(store.repos) && shown == []
      case Ok(chosen) =>
        var k := FirstFailing(chosen, DeleteErr(stat, removeErr));
        ShowOrdered(chosen, shown)
        && err == (if k < |chosen| then DeleteErr(stat, removeErr)(chosen[k]) else None)
        && store.repos == Deleted(old(store.repos), chosen[..k])
  {
    shown := [];
    var items := data.items;
    if |items| > 0 {
      if f.edit {
        var edited := Edit.EditItems(items, ItemName, editor);
        if edited.Err? {
          return Some(edited.error), shown;
        }
        items := edited.value;
      }
      var lines, width;
      shown, lines, width := ShowCleanItems(items);
      err := DeleteItems(store, items, stat, removeErr);
      DeleteRunMeaning(old(store.repos), items, DeleteErr(stat, removeErr));
      return err, shown;
    }
    var e, removed := CleanEmptyDir(root, workspace, data.repoPaths, remove);
    if e.Some? {
      return Some(Trace(e.value, "clean empty dir")), shown;
    }
    return None, shown;
  }

  /** The deleting loop of Run: stops at the first item DeleteAll fails on. */
  method DeleteItems(store: RepositoryStorage, items: seq<CleanItem>, stat: Repo -> StatResult, removeErr: Repo -> Option<Error>)
    returns (err: Option<Error>)
    modifies store
    ensures (store.repos, err) == DeleteRun(old(store.repos), items, DeleteErr(stat, removeErr))
  {
    for i := 0 to |items|
      invariant DeleteRun(store.repos, items[i..], DeleteErr(stat, removeErr)) == DeleteRun(old(store.repos), items, DeleteErr(stat, removeErr))
    {
      assert items[i..][1..] == items[i + 1..];
      var e := DeleteItem(store, items[i], stat, removeErr);
      if e.Some? {
        return e;
      }
    }
    return None;
  }

  /** The deleting loop from the given repositories: each item's repository goes, up to the
      first item whose deletion fails. */
  function DeleteRun(repos: seq<Repo>, items: seq<CleanItem>, f: CleanItem -> Option<Error>): (seq<Repo>, Option<Error>)
    decreases |items|
  {
    if items == [] then (repos, None)
    else if f(items[0]).Some? then (repos, f(items[0]))
    else DeleteRun(Filter(repos, Keeps(items[0].repo)), items[1..], f)
  }

  /** One turn of the deleting loop: RepositoryStorage.DeleteAll on the item's repository. */
  method DeleteItem(store: RepositoryStorage, item: CleanItem, stat: Repo -> StatResult, removeErr: Repo -> Option<Error>)
    returns (err: Option<Error>)
    modifies store
    ensures err == DeleteErr(stat, removeErr)(item)
    ensures store.repos == if err.Some? then old(store.repos) else Filter(old(store.repos), Keeps(item.repo))
  {
    err := store.DeleteAll(item.repo, stat(item.repo), removeErr(item.repo));
  }

  /** Deleting the first item and then the others is deleting them all. */
  lemma {:induction false} DeletedShift(repos: seq<Repo>, items: seq<CleanItem>)
    requires items != []
    ensures Deleted(Filter(repos, Keeps(items[0].repo)), items[1..]) == Deleted(repos, items)
    decreases |items|
  {
    if |items| > 1 {
      var init := items[..|items| - 1];
      DeletedShift(repos, init);
      assert init[1..] == items[1..][..|items| - 2];
    }
  }

  /** The loop deletes the repositories of the items before the first failing one and
      returns that item's error. */
  lemma {:induction false} DeleteRunMeaning(repos: seq<Repo>, items: seq<CleanItem>, f: CleanItem -> Option<Error>)
    ensures var k := FirstFailing(items, f);
      DeleteRun(repos, items, f) == (Deleted(repos, items[..k]), if k < |items| then f(items[k]) else None)
    decreases |items|
  {
    if items != [] && f(items[0]).None? {
      var rest := items[1..];
      DeleteRunMeaning(Filter(repos, Keeps(items[0].repo)), rest, f);
      var k := FirstFailing(rest, f);
      assert FirstFailing(items, f) == k + 1;
      DeletedShift(repos, items[..k + 1]);
      assert items[..k + 1][1..] == rest[..k];
      if k < |rest| {
        assert rest[k] == items[k + 1];
      }
    } else if items != [] {
      assert items[..0] == [];
    }
  }

  /** Deleting removes exactly the deleted items' repositories and keeps the others in
      order. */
  lemma {:induction false} DeletedKeepsOthers(repos: seq<Repo>, items: seq<CleanItem>)
    ensures forall r :: r in Deleted(repos, items) <==> r in repos && forall k :: 0 <= k < |items| ==> Keeps(items[k].repo)(r)
  {
    if items != [] {
      var init := items[..|items| - 1];
      DeletedKeepsOthers(repos, init);
      assert forall k :: 0 <= k < |init| ==> init[k] == items[k];
    }
  }
}
