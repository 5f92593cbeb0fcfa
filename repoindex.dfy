/** The two indices of core/repository.go's RepositoryStorage, by remote and name and by
    path, as values: what it means for them to describe a sequence of repositories, how
    inserting and deleting keep that, and which duplicate the index-building loop of init
    meets first. */
module RepoIndex {
  import opened Wrappers
  import opened Seqs
  import opened Repository

  /** Two repositories share neither their path nor their remote and name. */
  predicate Apart(x: Repo, y: Repo) {
    x.path != y.path && (x.remote != y.remote || x.name != y.name)
  }

  /** A duplicate the index-building loop finds: a path or a remote and name already
      indexed. */
  datatype Duplicate = PathTaken(path: string) | NameTaken(repo: Repo)

  /** One of the first n repositories has path p. */
  predicate PathAmong(rs: seq<Repo>, n: nat, p: string)
    requires n <= |rs|
    decreases n
  {
    n > 0 && (rs[n - 1].path == p || PathAmong(rs, n - 1, p))
  }

  /** One of the first n repositories has remote rm and name nm. */
  predicate NameAmong(rs: seq<Repo>, n: nat, rm: string, nm: string)
    requires n <= |rs|
    decreases n
  {
    n > 0 && ((rs[n - 1].remote == rm && rs[n - 1].name == nm) || NameAmong(rs, n - 1, rm, nm))
  }

  lemma {:induction false} PathAmongIff(rs: seq<Repo>, n: nat, p: string)
    requires n <= |rs|
    ensures PathAmong(rs, n, p) <==> exists j :: 0 <= j < n && rs[j].path == p
    decreases n
  {
    if n > 0 {
      PathAmongIff(rs, n - 1, p);
      if rs[n - 1].path == p {
        assert exists j :: 0 <= j < n && rs[j].path == p;
      }
    }
  }

  lemma {:induction false} NameAmongIff(rs: seq<Repo>, n: nat, rm: string, nm: string)
    requires n <= |rs|
    ensures NameAmong(rs, n, rm, nm) <==> exists j :: 0 <= j < n && rs[j].remote == rm && rs[j].name == nm
    decreases n
  {
    if n > 0 {
      NameAmongIff(rs, n - 1, rm, nm);
      if rs[n - 1].remote == rm && rs[n - 1].name == nm {
        assert exists j :: 0 <= j < n && rs[j].remote == rm && rs[j].name == nm;
      }
    }
  }

  /** The check made for the repository at position i when building the indices: first its
      path, then its remote and name, against the repositories before it. */
  function DuplicateAt(rs: seq<Repo>, i: nat): Option<Duplicate>
    requires i < |rs|
  {
    if PathAmong(rs, i, rs[i].path) then Some(PathTaken(rs[i].path))
    else if NameAmong(rs, i, rs[i].remote, rs[i].name) then Some(NameTaken(rs[i]))
    else None
  }

  /** The first duplicate the index-building loop of init meets among the first n
      repositories. */
  function FirstDuplicateIn(rs: seq<Repo>, n: nat): Option<Duplicate>
    requires n <= |rs|
    decreases n
  {
    if n == 0 then None
    else match FirstDuplicateIn(rs, n - 1)
      case Some(e) => Some(e)
      case None => DuplicateAt(rs, n - 1)
  }

  /** The first duplicate the index-building loop of init meets. */
  function FirstDuplicate(rs: seq<Repo>): Option<Duplicate> {
    FirstDuplicateIn(rs, |rs|)
  }

  /** The value GetByName's index lookup gives. */
  function LookupName(nameIndex: map<string, map<string, Repo>>, remote: string, name: string): Option<Repo> {
    if remote in nameIndex && name in nameIndex[remote] then Some(nameIndex[remote][name]) else None
  }

  /** Delete's filter: the entries that do not have the argument's remote and name. */
  function Keeps(r: Repo): Repo -> bool {
    (item: Repo) => !(item.remote == r.remote && item.name == r.name)
  }

  /** Inserts a repository into the name index under its remote and name. */
  function NameInsert(nameIndex: map<string, map<string, Repo>>, r: Repo): map<string, map<string, Repo>> {
    var repoMap := if r.remote in nameIndex then nameIndex[r.remote] else map[];
    nameIndex[r.remote := repoMap[r.name := r]]
  }

  /** Removes a remote and name from the name index, as Delete does. */
  function NameRemove(nameIndex: map<string, map<string, Repo>>, r: Repo): map<string, map<string, Repo>> {
    if r.remote in nameIndex then nameIndex[r.remote := nameIndex[r.remote] - {r.name}] else nameIndex
  }

  predicate AllNormalized(rs: seq<Repo>) {
    forall i :: 0 <= i < |rs| ==> Normalized(rs[i])
  }

  /** No two of the first n repositories share a path or a remote and name. */
  predicate ApartUpTo(rs: seq<Repo>, n: nat)
    requires n <= |rs|
  {
    forall i, j :: 0 <= i < j < n ==> Apart(rs[i], rs[j])
  }

  /** Each of the first n repositories is found under its remote and name. */
  predicate NamesIndexed(rs: seq<Repo>, n: nat, nameIndex: map<string, map<string, Repo>>)
    requires n <= |rs|
  {
    forall i :: 0 <= i < n ==> LookupName(nameIndex, rs[i].remote, rs[i].name) == Some(rs[i])
  }

  /** Each of the first n repositories is found under its path. */
  predicate PathsIndexed(rs: seq<Repo>, n: nat, pathIndex: map<string, Repo>)
    requires n <= |rs|
  {
    forall i :: 0 <= i < n ==> rs[i].path in pathIndex && pathIndex[rs[i].path] == rs[i]
  }

  /** The name index holds only the first n repositories, each under its own remote and
      name. */
  predicate NamesStored(rs: seq<Repo>, n: nat, nameIndex: map<string, map<string, Repo>>)
    requires n <= |rs|
  {
    forall rm, nm :: rm in nameIndex && nm in nameIndex[rm] ==>
      nameIndex[rm][nm].remote == rm && nameIndex[rm][nm].name == nm
      && exists k :: 0 <= k < n && rs[k] == nameIndex[rm][nm]
  }

  /** The path index holds only the first n repositories, each under its own path. */
  predicate PathsStored(rs: seq<Repo>, n: nat, pathIndex: map<string, Repo>)
    requires n <= |rs|
  {
    forall p :: p in pathIndex ==> pathIndex[p].path == p && exists k :: 0 <= k < n && rs[k] == pathIndex[p]
  }

  /** The indices describe exactly the first n repositories, and no two of them collide. */
  predicate ConsistentUpTo(rs: seq<Repo>, n: nat, nameIndex: map<string, map<string, Repo>>, pathIndex: map<string, Repo>)
    requires n <= |rs|
  {
    && ApartUpTo(rs, n)
    && NamesIndexed(rs, n, nameIndex) && PathsIndexed(rs, n, pathIndex)
    && NamesStored(rs, n, nameIndex) && PathsStored(rs, n, pathIndex)
  }

  /** The three views of the storage agree and no two repositories collide. */
  predicate Consistent(rs: seq<Repo>, nameIndex: map<string, map<string, Repo>>, pathIndex: map<string, Repo>) {
    ConsistentUpTo(rs, |rs|, nameIndex, pathIndex)
  }

  ghost predicate Coherent(nameIndex: map<string, map<string, Repo>>, pathIndex: map<string, Repo>, r: Repo) {
    match LookupName(nameIndex, r.remote, r.name)
    case Some(x) => x.path == r.path
    case None => r.path !in pathIndex
  }

  lemma {:induction false} DuplicateSticks(rs: seq<Repo>, n: nat)
    requires n <= |rs|
    requires FirstDuplicateIn(rs, n).Some?
    ensures FirstDuplicate(rs) == FirstDuplicateIn(rs, n)
    decreases |rs| - n
  {
    if n < |rs| {
      DuplicateSticks(rs, n + 1);
    }
  }

  lemma PermutationNormalized(a: seq<Repo>, b: seq<Repo>)
    requires AllNormalized(a) && multiset(a) == multiset(b)
    ensures AllNormalized(b)
  {
    forall i | 0 <= i < |b| ensures Normalized(b[i]) {
      assert b[i] in multiset(b);
      var k :| 0 <= k < |a| && a[k] == b[i];
    }
  }

  /** The path index answers exactly for the paths of the first n repositories. */
  lemma PathLookupUpTo(rs: seq<Repo>, n: nat, ni: map<string, map<string, Repo>>, pi: map<string, Repo>, p: string)
    requires n <= |rs| && ConsistentUpTo(rs, n, ni, pi)
    ensures p in pi <==> exists j :: 0 <= j < n && rs[j].path == p
  {
    if p in pi {
      var j :| 0 <= j < n && rs[j] == pi[p];
    }
  }

  /** The name index answers exactly for the names of the first n repositories. */
  lemma NameLookupUpTo(rs: seq<Repo>, n: nat, ni: map<string, map<string, Repo>>, pi: map<string, Repo>, rm: string, nm: string)
    requires n <= |rs| && ConsistentUpTo(rs, n, ni, pi)
    ensures LookupName(ni, rm, nm).Some? <==> exists j :: 0 <= j < n && rs[j].remote == rm && rs[j].name == nm
  {
    if LookupName(ni, rm, nm).Some? {
      var j :| 0 <= j < n && rs[j] == ni[rm][nm];
    } else {
      forall j | 0 <= j < n ensures !(rs[j].remote == rm && rs[j].name == nm) {
        assert LookupName(ni, rs[j].remote, rs[j].name) == Some(rs[j]);
      }
    }
  }

  /** In a consistent storage the path index answers exactly for the stored paths. */
  lemma PathLookup(rs: seq<Repo>, ni: map<string, map<string, Repo>>, pi: map<string, Repo>, p: string)
    requires Consistent(rs, ni, pi)
    ensures p in pi <==> exists j :: 0 <= j < |rs| && rs[j].path == p
    ensures p in pi ==> pi[p] in rs && pi[p].path == p
  {
    PathLookupUpTo(rs, |rs|, ni, pi, p);
    if p in pi {
      var j :| 0 <= j < |rs| && rs[j] == pi[p];
    }
  }

  /** In a consistent storage the name index answers exactly for the stored names. */
  lemma NameLookup(rs: seq<Repo>, ni: map<string, map<string, Repo>>, pi: map<string, Repo>, rm: string, nm: string)
    requires Consistent(rs, ni, pi)
    ensures LookupName(ni, rm, nm).Some? <==> exists j :: 0 <= j < |rs| && rs[j].remote == rm && rs[j].name == nm
    ensures LookupName(ni, rm, nm).Some? ==>
              LookupName(ni, rm, nm).value in rs && LookupName(ni, rm, nm).value.remote == rm
              && LookupName(ni, rm, nm).value.name == nm
  {
    NameLookupUpTo(rs, |rs|, ni, pi, rm, nm);
    if LookupName(ni, rm, nm).Some? {
      var j :| 0 <= j < |rs| && rs[j] == ni[rm][nm];
    }
  }

  lemma PathLookupWhen(rs: seq<Repo>, ni: map<string, map<string, Repo>>, pi: map<string, Repo>, p: string)
    ensures Consistent(rs, ni, pi) ==> (p in pi <==> exists j :: 0 <= j < |rs| && rs[j].path == p)
    ensures Consistent(rs, ni, pi) && p in pi ==> pi[p] in rs && pi[p].path == p
  {
    if Consistent(rs, ni, pi) { PathLookup(rs, ni, pi, p); }
  }

  lemma NameLookupWhen(rs: seq<Repo>, ni: map<string, map<string, Repo>>, pi: map<string, Repo>, rm: string, nm: string)
    ensures Consistent(rs, ni, pi) ==>
              (LookupName(ni, rm, nm).Some? <==> exists j :: 0 <= j < |rs| && rs[j].remote == rm && rs[j].name == nm)
    ensures Consistent(rs, ni, pi) && LookupName(ni, rm, nm).Some? ==>
              LookupName(ni, rm, nm).value in rs && LookupName(ni, rm, nm).value.remote == rm
              && LookupName(ni, rm, nm).value.name == nm
  {
    if Consistent(rs, ni, pi) { NameLookup(rs, ni, pi, rm, nm); }
  }

  /** One step of the index-building loop at position i: a taken path is reported first,
      then a taken remote and name; otherwise the repository is indexed and the indices
      describe one more repository. */
  lemma BuildStepAt(rs: seq<Repo>, i: nat, ni: map<string, map<string, Repo>>, pi: map<string, Repo>)
    requires i < |rs|
    requires ConsistentUpTo(rs, i, ni, pi) && FirstDuplicateIn(rs, i).None?
    ensures rs[i].path in pi ==> FirstDuplicateIn(rs, i + 1) == Some(PathTaken(rs[i].path))
    ensures rs[i].path !in pi && LookupName(ni, rs[i].remote, rs[i].name).Some? ==>
              FirstDuplicateIn(rs, i + 1) == Some(NameTaken(rs[i]))
    ensures rs[i].path !in pi && LookupName(ni, rs[i].remote, rs[i].name).None? ==>
              FirstDuplicateIn(rs, i + 1).None?
              && ConsistentUpTo(rs, i + 1, NameInsert(ni, rs[i]), pi[rs[i].path := rs[i]])
  {
    PathLookupUpTo(rs, i, ni, pi, rs[i].path);
    NameLookupUpTo(rs, i, ni, pi, rs[i].remote, rs[i].name);
    if rs[i].path in pi {
      PathTakenAt(rs, i);
    } else if LookupName(ni, rs[i].remote, rs[i].name).Some? {
      NameTakenAt(rs, i);
    } else {
      NothingTakenAt(rs, i);
      InsertAt(rs, i, ni, pi);
    }
  }

  /** The name index init has built after the first n repositories, when none of them was a
      duplicate. */
  function NameIndexOf(rs: seq<Repo>, n: nat): map<string, map<string, Repo>>
    requires n <= |rs|
    decreases n
  {
    if n == 0 then map[] else NameInsert(NameIndexOf(rs, n - 1), rs[n - 1])
  }

  /** The path index init has built after the first n repositories. */
  function PathIndexOf(rs: seq<Repo>, n: nat): map<string, Repo>
    requires n <= |rs|
    decreases n
  {
    if n == 0 then map[] else PathIndexOf(rs, n - 1)[rs[n - 1].path := rs[n - 1]]
  }

  /** Indexing a duplicate-free prefix one repository at a time gives indices that describe
      exactly that prefix. */
  lemma {:induction false} IndexOfConsistent(rs: seq<Repo>, n: nat)
    requires n <= |rs| && FirstDuplicateIn(rs, n).None?
    ensures ConsistentUpTo(rs, n, NameIndexOf(rs, n), PathIndexOf(rs, n))
    decreases n
  {
    if n > 0 {
      assert FirstDuplicateIn(rs, n - 1).None?;
      IndexOfConsistent(rs, n - 1);
      BuildStepAt(rs, n - 1, NameIndexOf(rs, n - 1), PathIndexOf(rs, n - 1));
    }
  }

  /** The step of the index-building loop in terms of the indices built so far. */
  lemma IndexStep(rs: seq<Repo>, i: nat)
    requires i < |rs| && FirstDuplicateIn(rs, i).None?
    ensures rs[i].path in PathIndexOf(rs, i) ==> FirstDuplicateIn(rs, i + 1) == Some(PathTaken(rs[i].path))
    ensures rs[i].path !in PathIndexOf(rs, i) && LookupName(NameIndexOf(rs, i), rs[i].remote, rs[i].name).Some? ==>
              FirstDuplicateIn(rs, i + 1) == Some(NameTaken(rs[i]))
    ensures rs[i].path !in PathIndexOf(rs, i) && LookupName(NameIndexOf(rs, i), rs[i].remote, rs[i].name).None? ==>
              FirstDuplicateIn(rs, i + 1).None?
  {
    IndexOfConsistent(rs, i);
    BuildStepAt(rs, i, NameIndexOf(rs, i), PathIndexOf(rs, i));
  }

  lemma PathTakenAt(rs: seq<Repo>, i: nat)
    requires i < |rs| && FirstDuplicateIn(rs, i).None?
    requires exists j :: 0 <= j < i && rs[j].path == rs[i].path
    ensures FirstDuplicateIn(rs, i + 1) == Some(PathTaken(rs[i].path))
  {
    PathAmongIff(rs, i, rs[i].path);
  }

  lemma NameTakenAt(rs: seq<Repo>, i: nat)
    requires i < |rs| && FirstDuplicateIn(rs, i).None?
    requires !exists j :: 0 <= j < i && rs[j].path == rs[i].path
    requires exists j :: 0 <= j < i && rs[j].remote == rs[i].remote && rs[j].name == rs[i].name
    ensures FirstDuplicateIn(rs, i + 1) == Some(NameTaken(rs[i]))
  {
    PathAmongIff(rs, i, rs[i].path);
    NameAmongIff(rs, i, rs[i].remote, rs[i].name);
  }

  lemma NothingTakenAt(rs: seq<Repo>, i: nat)
    requires i < |rs| && FirstDuplicateIn(rs, i).None?
    requires !exists j :: 0 <= j < i && rs[j].path == rs[i].path
    requires !exists j :: 0 <= j < i && rs[j].remote == rs[i].remote && rs[j].name == rs[i].name
    ensures FirstDuplicateIn(rs, i + 1).None?
  {
    PathAmongIff(rs, i, rs[i].path);
    NameAmongIff(rs, i, rs[i].remote, rs[i].name);
  }

  /** Indexing the repository at position n, whose name and path are free, makes the
      indices describe the first n + 1 repositories. */
  lemma InsertAt(rs: seq<Repo>, n: nat, ni: map<string, map<string, Repo>>, pi: map<string, Repo>)
    requires n < |rs| && ConsistentUpTo(rs, n, ni, pi)
    requires LookupName(ni, rs[n].remote, rs[n].name).None? && rs[n].path !in pi
    ensures ConsistentUpTo(rs, n + 1, NameInsert(ni, rs[n]), pi[rs[n].path := rs[n]])
  {
    PathLookupUpTo(rs, n, ni, pi, rs[n].path);
    NameLookupUpTo(rs, n, ni, pi, rs[n].remote, rs[n].name);
    InsertApartAt(rs, n);
    InsertNamesAt(rs, n, ni);
    InsertPathsAt(rs, n, pi);
  }

  lemma InsertNamesAt(rs: seq<Repo>, n: nat, ni: map<string, map<string, Repo>>)
    requires n < |rs| && NamesIndexed(rs, n, ni) && NamesStored(rs, n, ni)
    requires LookupName(ni, rs[n].remote, rs[n].name).None?
    ensures NamesIndexed(rs, n + 1, NameInsert(ni, rs[n])) && NamesStored(rs, n + 1, NameInsert(ni, rs[n]))
  {
    var r := rs[n];
    var ni' := NameInsert(ni, r);
    forall k | 0 <= k < n + 1 ensures LookupName(ni', rs[k].remote, rs[k].name) == Some(rs[k]) {
      if k < n {
        assert LookupName(ni, rs[k].remote, rs[k].name) == Some(rs[k]);
      }
    }
    forall rm, nm | rm in ni' && nm in ni'[rm]
      ensures ni'[rm][nm].remote == rm && ni'[rm][nm].name == nm
      ensures exists k :: 0 <= k < n + 1 && rs[k] == ni'[rm][nm]
    {
      if !(rm == r.remote && nm == r.name) {
        assert ni'[rm][nm] == ni[rm][nm];
        var k :| 0 <= k < n && rs[k] == ni[rm][nm];
      }
    }
  }

  lemma InsertPathsAt(rs: seq<Repo>, n: nat, pi: map<string, Repo>)
    requires n < |rs| && PathsIndexed(rs, n, pi) && PathsStored(rs, n, pi)
    requires rs[n].path !in pi
    ensures PathsIndexed(rs, n + 1, pi[rs[n].path := rs[n]]) && PathsStored(rs, n + 1, pi[rs[n].path := rs[n]])
  {
    var pi' := pi[rs[n].path := rs[n]];
    forall p | p in pi' ensures pi'[p].path == p && exists k :: 0 <= k < n + 1 && rs[k] == pi'[p] {
      if p != rs[n].path {
        var k :| 0 <= k < n && rs[k] == pi[p];
      }
    }
  }

  /** The facts about a sequence's positions hold of the same positions after appending. */
  lemma ConsistentSnoc(rs: seq<Repo>, r: Repo, ni: map<string, map<string, Repo>>, pi: map<string, Repo>)
    requires Consistent(rs, ni, pi)
    ensures ConsistentUpTo(rs + [r], |rs|, ni, pi)
  {
    var rs' := rs + [r];
    forall i | 0 <= i < |rs| ensures rs'[i] == rs[i] { }
    forall rm, nm | rm in ni && nm in ni[rm] ensures exists k :: 0 <= k < |rs| && rs'[k] == ni[rm][nm] {
      var k :| 0 <= k < |rs| && rs[k] == ni[rm][nm];
      assert rs'[k] == rs[k];
    }
    forall p | p in pi ensures exists k :: 0 <= k < |rs| && rs'[k] == pi[p] {
      var k :| 0 <= k < |rs| && rs[k] == pi[p];
      assert rs'[k] == rs[k];
    }
  }

  /** Storing a repository whose name and path are free keeps the storage consistent. */
  lemma InsertConsistent(rs: seq<Repo>, ni: map<string, map<string, Repo>>, pi: map<string, Repo>, r: Repo)
    requires Consistent(rs, ni, pi)
    requires LookupName(ni, r.remote, r.name).None? && r.path !in pi
    ensures Consistent(rs + [r], NameInsert(ni, r), pi[r.path := r])
    ensures LookupName(NameInsert(ni, r), r.remote, r.name) == Some(r)
  {
    ConsistentSnoc(rs, r, ni, pi);
    var rs' := rs + [r];
    assert rs'[|rs|] == r;
    InsertAt(rs', |rs|, ni, pi);
  }

  lemma InsertApartAt(rs: seq<Repo>, n: nat)
    requires n < |rs| && ApartUpTo(rs, n)
    requires !exists j :: 0 <= j < n && rs[j].path == rs[n].path
    requires !exists j :: 0 <= j < n && rs[j].remote == rs[n].remote && rs[j].name == rs[n].name
    ensures ApartUpTo(rs, n + 1)
  {
  }

  /** Deleting a stored repository by its own remote, name and path keeps the storage
      consistent. */
  lemma DeleteConsistent(rs: seq<Repo>, ni: map<string, map<string, Repo>>, pi: map<string, Repo>, repo: Repo)
    requires Consistent(rs, ni, pi) && Coherent(ni, pi, repo)
    ensures Consistent(Filter(rs, Keeps(repo)), NameRemove(ni, repo), pi - {repo.path})
  {
    var after := Filter(rs, Keeps(repo));
    ApartIsPairwise(rs);
    FilterPairwise(rs, Keeps(repo), Apart);
    ApartIsPairwise(after);
    DeleteIndexed(rs, ni, pi, repo);
    DeleteNamesStored(rs, ni, repo);
    DeletePathsStored(rs, ni, pi, repo);
  }

  lemma ApartIsPairwise(rs: seq<Repo>)
    ensures ApartUpTo(rs, |rs|) <==> Pairwise(rs, Apart)
  {
  }

  lemma DeleteIndexed(rs: seq<Repo>, ni: map<string, map<string, Repo>>, pi: map<string, Repo>, repo: Repo)
    requires Consistent(rs, ni, pi) && Coherent(ni, pi, repo)
    ensures NamesIndexed(Filter(rs, Keeps(repo)), |Filter(rs, Keeps(repo))|, NameRemove(ni, repo))
    ensures PathsIndexed(Filter(rs, Keeps(repo)), |Filter(rs, Keeps(repo))|, pi - {repo.path})
  {
    var after := Filter(rs, Keeps(repo));
    forall i | 0 <= i < |after|
      ensures LookupName(NameRemove(ni, repo), after[i].remote, after[i].name) == Some(after[i])
      ensures after[i].path in pi - {repo.path} && (pi - {repo.path})[after[i].path] == after[i]
    {
      assert after[i] in after;
      KeptIsApart(rs, ni, pi, repo, after[i]);
    }
  }

  lemma DeleteNamesStored(rs: seq<Repo>, ni: map<string, map<string, Repo>>, repo: Repo)
    requires NamesStored(rs, |rs|, ni)
    ensures NamesStored(Filter(rs, Keeps(repo)), |Filter(rs, Keeps(repo))|, NameRemove(ni, repo))
  {
    var after := Filter(rs, Keeps(repo));
    var ni': map<string, map<string, Repo>> := NameRemove(ni, repo);
    forall rm: string, n: string | rm in ni' && n in ni'[rm]
      ensures ni'[rm][n].remote == rm && ni'[rm][n].name == n
      ensures exists k :: 0 <= k < |after| && after[k] == ni'[rm][n]
    {
      var x := ni[rm][n];
      assert ni'[rm][n] == x;
      assert Keeps(repo)(x);
      var k :| 0 <= k < |rs| && rs[k] == x;
      assert x in after;
    }
  }

  lemma DeletePathsStored(rs: seq<Repo>, ni: map<string, map<string, Repo>>, pi: map<string, Repo>, repo: Repo)
    requires NamesIndexed(rs, |rs|, ni) && PathsStored(rs, |rs|, pi) && Coherent(ni, pi, repo)
    ensures PathsStored(Filter(rs, Keeps(repo)), |Filter(rs, Keeps(repo))|, pi - {repo.path})
  {
    var after := Filter(rs, Keeps(repo));
    var pi' := pi - {repo.path};
    forall p | p in pi'
      ensures pi'[p].path == p && exists k :: 0 <= k < |after| && after[k] == pi'[p]
    {
      var x := pi[p];
      var k :| 0 <= k < |rs| && rs[k] == x;
      assert LookupName(ni, rs[k].remote, rs[k].name) == Some(x);
      assert Keeps(repo)(x);
      assert x in after;
    }
  }

  lemma DeleteKeepsValid(rs: seq<Repo>, ni: map<string, map<string, Repo>>, pi: map<string, Repo>, repo: Repo)
    ensures AllNormalized(rs) && Consistent(rs, ni, pi) && Coherent(ni, pi, repo) ==>
              AllNormalized(Filter(rs, Keeps(repo)))
              && Consistent(Filter(rs, Keeps(repo)), NameRemove(ni, repo), pi - {repo.path})
  {
    if AllNormalized(rs) && Consistent(rs, ni, pi) && Coherent(ni, pi, repo) {
      FilterNormalized(rs, Keeps(repo));
      DeleteConsistent(rs, ni, pi, repo);
    }
  }

  lemma FilterNormalized(rs: seq<Repo>, p: Repo -> bool)
    requires AllNormalized(rs)
    ensures AllNormalized(Filter(rs, p))
  {
    var after := Filter(rs, p);
    forall i | 0 <= i < |after| ensures Normalized(after[i]) {
      assert after[i] in after;
      var k :| 0 <= k < |rs| && rs[k] == after[i];
    }
  }

  lemma KeptIsApart(rs: seq<Repo>, ni: map<string, map<string, Repo>>, pi: map<string, Repo>, repo: Repo, x: Repo)
    requires Consistent(rs, ni, pi) && Coherent(ni, pi, repo)
    requires x in rs && Keeps(repo)(x)
    ensures x.path != repo.path
    ensures LookupName(NameRemove(ni, repo), x.remote, x.name) == Some(x)
  {
    var k :| 0 <= k < |rs| && rs[k] == x;
    assert NamesIndexed(rs, |rs|, ni);
    assert LookupName(ni, x.remote, x.name) == Some(x);
    NameRemoveOther(ni, repo, x.remote, x.name);
    match LookupName(ni, repo.remote, repo.name)
    case Some(y) =>
      assert NamesStored(rs, |rs|, ni);
      var m :| 0 <= m < |rs| && rs[m] == y;
      assert k != m;
      assert ApartUpTo(rs, |rs|);
      assert Apart(rs[k], rs[m]) || Apart(rs[m], rs[k]);
    case None =>
      assert PathsIndexed(rs, |rs|, pi);
  }

  /** Removing one remote and name leaves every other entry of the name index. */
  lemma NameRemoveOther(ni: map<string, map<string, Repo>>, repo: Repo, remote: string, name: string)
    requires remote != repo.remote || name != repo.name
    ensures LookupName(NameRemove(ni, repo), remote, name) == LookupName(ni, remote, name)
  {
  }

  /** The index-building loop meets no duplicate among the first n repositories exactly
      when no two of them share a path or a remote and name. */
  lemma {:induction false} FirstDuplicateInNoneIffApart(rs: seq<Repo>, n: nat)
    requires n <= |rs|
    ensures FirstDuplicateIn(rs, n).None? <==> forall i, j :: 0 <= i < j < n ==> Apart(rs[i], rs[j])
    decreases n
  {
    if n > 0 {
      FirstDuplicateInNoneIffApart(rs, n - 1);
      PathAmongIff(rs, n - 1, rs[n - 1].path);
      NameAmongIff(rs, n - 1, rs[n - 1].remote, rs[n - 1].name);
      assert DuplicateAt(rs, n - 1).None? <==> forall j :: 0 <= j < n - 1 ==> Apart(rs[j], rs[n - 1]);
    }
  }

  /** init reports a duplicate exactly when two repositories share a path or a remote and
      name. */
  lemma FirstDuplicateNoneIffApart(rs: seq<Repo>)
    ensures FirstDuplicate(rs).None? <==> Pairwise(rs, Apart)
  {
    FirstDuplicateInNoneIffApart(rs, |rs|);
  }
}
