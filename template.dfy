/** core/template.go: project templates are directories under the templates directory.
    Their names are restricted; a template's files are found by walking its directory with
    an explicit stack, skipping a top-level ".git" directory. The directory tree is given as
    a value holding what reading, stat-ing and opening each entry gives. */
module Template {
  import opened Wrappers
  import opened GoStrings
  import opened Errors
  import opened Seqs
  import FilePath

  // ---------------------------------------------------------------------------------------
  // templatePath

  /** A character templateNameRe accepts: [a-zA-Z0-9_-]. */
  predicate NameChar(c: char) {
    ('a' <= c <= 'z') || ('A' <= c <= 'Z') || ('0' <= c <= '9') || c == '_' || c == '-'
  }

  /** templateNameRe, ^[a-zA-Z0-9_-]+$ */
  predicate ValidName(name: string) {
    |name| > 0 && forall i :: 0 <= i < |name| ==> NameChar(name[i])
  }

  /** templatePath: the directory of a template under `baseDir`. The name must be non-empty
      and match the pattern; the templates directory must be creatable (`ensureDir`); the
      template must exist when `ensureExists` and must not exist otherwise (`found` is what
      checking gave). */
  function TemplatePath(name: string, ensureExists: bool, baseDir: string, ensureDir: Option<Error>,
                        found: Result<bool, Error>): (r: Result<string, Error>)
    ensures name == "" ==> r == Err(Plain("template name cannot be empty"))
    ensures name != "" && !ValidName(name) ==> r == Err(Plain("invalid template name " + Quote(name)))
    ensures ValidName(name) && ensureDir.Some? ==> r == Err(Trace(ensureDir.value, "ensure template dir"))
    ensures ValidName(name) && ensureDir.None? && found.Err? ==> r == Err(Trace(found.error, "check template exists"))
    ensures ValidName(name) && ensureDir.None? && found == Ok(false) && ensureExists ==>
      r == Err(Plain("cannot find template " + Quote(name)))
    ensures ValidName(name) && ensureDir.None? && found == Ok(true) && !ensureExists ==>
      r == Err(Plain("template " + Quote(name) + " is already exists"))
    ensures r.Ok? <==> ValidName(name) && ensureDir.None? && found == Ok(ensureExists)
    ensures r.Ok? ==> r.value == FilePath.JoinPath([baseDir, name])
  {
    if name == "" then Err(Plain("template name cannot be empty"))
    else if !ValidName(name) then Err(Plain("invalid template name " + Quote(name)))
    else if ensureDir.Some? then Err(Trace(ensureDir.value, "ensure template dir"))
    else
      match found
      case Err(e) => Err(Trace(e, "check template exists"))
      case Ok(present) =>
        if !present && ensureExists then Err(Plain("cannot find template " + Quote(name)))
        else if present && !ensureExists then Err(Plain("template " + Quote(name) + " is already exists"))
        else Ok(FilePath.JoinPath([baseDir, name]))
  }

  /** Getting a template (it must exist) and creating one (it must not) never both succeed
      on the same directory state. */
  lemma GetAndCreateExclusive(name: string, baseDir: string, ensureDir: Option<Error>, found: Result<bool, Error>)
    ensures !(TemplatePath(name, true, baseDir, ensureDir, found).Ok? && TemplatePath(name, false, baseDir, ensureDir, found).Ok?)
  {
  }

  /** A valid name is a single path element: it has no separator and is neither "." nor
      "..", so joining it to the templates directory adds exactly one level. */
  lemma ValidNameIsPlainElement(name: string)
    requires ValidName(name)
    ensures FilePath.Plain(name)
  {
    assert !NameChar('/') && !NameChar('.');
    assert name[0] in name;
  }

  // ---------------------------------------------------------------------------------------
  // The template directory tree

  /** An entry of a template directory with what stat gives for it; a file also carries its
      mode and what opening it gives. */
  datatype TEntry =
    | TFile(name: string, mode: nat, stat: Option<Error>, open: Option<Error>)
    | TDir(name: string, stat: Option<Error>, listing: TListing)

  /** What os.ReadDir gives for a directory. */
  datatype TListing = TEntries(entries: seq<TEntry>) | TUnreadable(err: Error)

  /** A found file: its name relative to the template root and its mode. */
  datatype TemplateFile = TemplateFile(name: string, mode: nat)

  /** The name a file at relative elements `rel` gets: the elements joined by "/". */
  function RelName(rel: seq<string>): string {
    Join(rel, "/")
  }

  /** Every file under a listing, named relative to the template root (`rel` is where the
      listing lies). */
  function ListingFiles(rel: seq<string>, l: TListing): set<TemplateFile>
    decreases l, 1
  {
    match l
    case TUnreadable(_) => {}
    case TEntries(es) => EntriesFiles(rel, l, |es|)
  }

  function EntriesFiles(rel: seq<string>, l: TListing, n: nat): set<TemplateFile>
    requires l.TEntries? && n <= |l.entries|
    decreases l, 0, n
  {
    if n == 0 then {}
    else
      var e := l.entries[n - 1];
      assert e in l.entries;
      EntriesFiles(rel, l, n - 1) +
        if e.TFile? then {TemplateFile(RelName(rel + [e.name]), e.mode)} else ListingFiles(rel + [e.name], e.listing)
  }

  /** The files at or under one entry. */
  function EntryFiles(rel: seq<string>, e: TEntry): set<TemplateFile> {
    if e.TFile? then {TemplateFile(RelName(rel + [e.name]), e.mode)} else ListingFiles(rel + [e.name], e.listing)
  }

  /** Nothing under the listing fails: every entry can be stat-ed, every file opened and
      every directory read. */
  predicate ListingOk(l: TListing)
    decreases l, 1
  {
    match l
    case TUnreadable(_) => false
    case TEntries(es) => EntriesOk(l, |es|)
  }

  predicate EntriesOk(l: TListing, n: nat)
    requires l.TEntries? && n <= |l.entries|
    decreases l, 0, n
  {
    if n == 0 then true
    else
      var e := l.entries[n - 1];
      assert e in l.entries;
      EntriesOk(l, n - 1) && e.stat.None? && if e.TFile? then e.open.None? else ListingOk(e.listing)
  }

  predicate EntryOk(e: TEntry) {
    e.stat.None? && if e.TFile? then e.open.None? else ListingOk(e.listing)
  }

  function ListingSize(l: TListing): nat
    decreases l, 1
  {
    match l
    case TUnreadable(_) => 0
    case TEntries(es) => EntriesSize(l, |es|)
  }

  function EntriesSize(l: TListing, n: nat): nat
    requires l.TEntries? && n <= |l.entries|
    decreases l, 0, n
  {
    if n == 0 then 0
    else
      var e := l.entries[n - 1];
      assert e in l.entries;
      EntriesSize(l, n - 1) + 1 + if e.TFile? then 0 else ListingSize(e.listing)
  }

  function EntrySize(e: TEntry): nat {
    1 + if e.TFile? then 0 else ListingSize(e.listing)
  }

  // ---------------------------------------------------------------------------------------
  // The stack of pending entries

  /** A pending entry: the elements of the directory it lies in, relative to the root. */
  type Pending = (seq<string>, TEntry)

  function StackFiles(stack: seq<Pending>): set<TemplateFile> {
    if stack == [] then {}
    else StackFiles(stack[..|stack| - 1]) + EntryFiles(stack[|stack| - 1].0, stack[|stack| - 1].1)
  }

  predicate StackOk(stack: seq<Pending>) {
    if stack == [] then true
    else StackOk(stack[..|stack| - 1]) && EntryOk(stack[|stack| - 1].1)
  }

  function StackSize(stack: seq<Pending>): nat {
    if stack == [] then 0
    else StackSize(stack[..|stack| - 1]) + EntrySize(stack[|stack| - 1].1)
  }

  /** The entries of a directory, each paired with the directory's elements. */
  function Pairs(rel: seq<string>, es: seq<TEntry>): (r: seq<Pending>)
    ensures |r| == |es| && forall k :: 0 <= k < |es| ==> r[k] == (rel, es[k])
  {
    seq(|es|, k requires 0 <= k < |es| => (rel, es[k]))
  }

  lemma PairsSnoc(rel: seq<string>, es: seq<TEntry>, e: TEntry)
    ensures Pairs(rel, es + [e]) == Pairs(rel, es) + [(rel, e)]
  {
  }

  lemma {:induction false} StackAppend(a: seq<Pending>, b: seq<Pending>)
    ensures StackFiles(a + b) == StackFiles(a) + StackFiles(b)
    ensures StackOk(a + b) == (StackOk(a) && StackOk(b))
    ensures StackSize(a + b) == StackSize(a) + StackSize(b)
    decreases |b|
  {
    if b == [] {
      assert a + b == a;
    } else {
      var init := b[..|b| - 1];
      StackAppend(a, init);
      assert (a + b)[..|a + b| - 1] == a + init;
    }
  }

  /** The pending pairs of a directory's first n entries sum up as its own functions do. */
  lemma {:induction false} PairsSum(rel: seq<string>, l: TListing, n: nat)
    requires l.TEntries? && n <= |l.entries|
    ensures StackFiles(Pairs(rel, l.entries[..n])) == EntriesFiles(rel, l, n)
    ensures StackOk(Pairs(rel, l.entries[..n])) == EntriesOk(l, n)
    ensures StackSize(Pairs(rel, l.entries[..n])) == EntriesSize(l, n)
    decreases n
  {
    if n > 0 {
      PairsSum(rel, l, n - 1);
      var ps := Pairs(rel, l.entries[..n]);
      assert ps[..n - 1] == Pairs(rel, l.entries[..n - 1]);
    }
  }

  /** The files of a template: everything under its root's entries, except a ".git"
      directory right at the root. */
  predicate AtTopKept(e: TEntry) {
    !(e.TDir? && e.name == ".git")
  }

  function TopStack(es: seq<TEntry>): seq<Pending> {
    Pairs([], Filter(es, AtTopKept))
  }

  function TemplateFiles(es: seq<TEntry>): set<TemplateFile> {
    StackFiles(TopStack(es))
  }

  predicate TemplateOk(es: seq<TEntry>) {
    StackOk(TopStack(es))
  }

  // ---------------------------------------------------------------------------------------
  // FindTemplateFiles

  /** The walk's invariant: the files found and the files still under the stack make up all
      the files, and nothing found so far failed. */
  predicate WalkInv(all: set<TemplateFile>, ok: bool, files: seq<TemplateFile>, stack: seq<Pending>) {
    (set f | f in files) + StackFiles(stack) == all && (ok <==> StackOk(stack))
  }

  lemma PopFile(all: set<TemplateFile>, ok: bool, files: seq<TemplateFile>, stack: seq<Pending>)
    requires |stack| > 0 && WalkInv(all, ok, files, stack)
    requires var (rel, e) := stack[|stack| - 1]; e.TFile? && e.stat.None? && e.open.None?
    ensures var (rel, e) := stack[|stack| - 1];
      WalkInv(all, ok, files + [TemplateFile(RelName(rel + [e.name]), e.mode)], stack[..|stack| - 1])
    ensures StackSize(stack[..|stack| - 1]) < StackSize(stack)
  {
    var (rel, e) := stack[|stack| - 1];
    var f := TemplateFile(RelName(rel + [e.name]), e.mode);
    assert (set x | x in files + [f]) == (set x | x in files) + {f};
  }

  lemma PopDir(all: set<TemplateFile>, ok: bool, files: seq<TemplateFile>, stack: seq<Pending>)
    requires |stack| > 0 && WalkInv(all, ok, files, stack)
    requires var (rel, e) := stack[|stack| - 1]; e.TDir? && e.stat.None? && e.listing.TEntries?
    ensures var (rel, e) := stack[|stack| - 1];
      var rest := stack[..|stack| - 1] + Pairs(rel + [e.name], e.listing.entries);
      WalkInv(all, ok, files, rest) && StackSize(rest) < StackSize(stack)
  {
    var (rel, e) := stack[|stack| - 1];
    var es := e.listing.entries;
    PairsSum(rel + [e.name], e.listing, |es|);
    assert es[..|es|] == es;
    StackAppend(stack[..|stack| - 1], Pairs(rel + [e.name], es));
  }

  /** A failure at the top of the stack means the tree holds a failure. */
  lemma PopFailed(all: set<TemplateFile>, ok: bool, files: seq<TemplateFile>, stack: seq<Pending>)
    requires |stack| > 0 && WalkInv(all, ok, files, stack)
    requires var e := stack[|stack| - 1].1; e.stat.Some? || (e.TFile? && e.open.Some?) || (e.TDir? && e.listing.TUnreadable?)
    ensures !ok
  {
  }

  /** The first loop of FindTemplateFiles: the root's entries, except a ".git" directory. */
  method TopEntries(es: seq<TEntry>) returns (stack: seq<Pending>)
    ensures stack == TopStack(es)
  {
    stack := [];
    for i := 0 to |es|
      invariant stack == Pairs([], Filter(es[..i], AtTopKept))
    {
      FilterPrefixStep(es, i, AtTopKept);
      var e := es[i];
      if e.TDir? && e.name == ".git" {
        continue;
      }
      PairsSnoc([], Filter(es[..i], AtTopKept), e);
      stack := stack + [([], e)];
    }
    assert es[..|es|] == es;
  }

  /** FindTemplateFiles: an unreadable root is an error, an empty one has no files; otherwise
      every file of the template is found, unless stat-ing an entry, reading a directory or
      opening a file fails. */
  method FindTemplateFiles(root: TListing) returns (r: Result<seq<TemplateFile>, Error>)
    ensures root.TUnreadable? ==> r == Err(Trace(root.err, "read template root"))
    ensures root.TEntries? && root.entries == [] ==> r == Ok([])
    ensures root.TEntries? ==> (r.Ok? <==> TemplateOk(root.entries))
    ensures root.TEntries? && r.Ok? ==> (set f | f in r.value) == TemplateFiles(root.entries)
  {
    if root.TUnreadable? {
      return Err(Trace(root.err, "read template root"));
    }
    var es := root.entries;
    if |es| == 0 {
      return Ok([]);
    }
    var stack := TopEntries(es);
    ghost var all := TemplateFiles(es);
    ghost var ok := TemplateOk(es);
    var files: seq<TemplateFile> := [];
    while |stack| > 0
      invariant WalkInv(all, ok, files, stack)
      decreases StackSize(stack)
    {
      var (rel, cur) := stack[|stack| - 1];
      if cur.stat.Some? {
        PopFailed(all, ok, files, stack);
        return Err(Trace(cur.stat.value, "stat template file"));
      }
      if cur.TDir? {
        if cur.listing.TUnreadable? {
          PopFailed(all, ok, files, stack);
          return Err(Trace(cur.listing.err, "read template dir"));
        }
        PopDir(all, ok, files, stack);
        stack := stack[..|stack| - 1];
        var sub := cur.listing.entries;
        ghost var base := stack;
        for j := 0 to |sub|
          invariant stack == base + Pairs(rel + [cur.name], sub[..j])
        {
          assert Pairs(rel + [cur.name], sub[..j + 1]) == Pairs(rel + [cur.name], sub[..j]) + [(rel + [cur.name], sub[j])];
          stack := stack + [(rel + [cur.name], sub[j])];
        }
        assert sub[..|sub|] == sub;
        continue;
      }
      var name := RelName(rel + [cur.name]);
      if cur.open.Some? {
        PopFailed(all, ok, files, stack);
        return Err(Trace(cur.open.value, "open src file"));
      }
      PopFile(all, ok, files, stack);
      stack := stack[..|stack| - 1];
      files := files + [TemplateFile(name, cur.mode)];
    }
    return Ok(files);
  }

  // ---------------------------------------------------------------------------------------

  /** The files of a directory "sub" holding ".git/config". */
  lemma GitUnderSubFiles(mode: nat)
    ensures var inner := TDir(".git", None, TEntries([TFile("config", mode, None, None)]));
      EntryFiles([], TDir("sub", None, TEntries([inner]))) == {TemplateFile("sub/.git/config", mode)}
  {
    var inner := TDir(".git", None, TEntries([TFile("config", mode, None, None)]));
    var sub := TDir("sub", None, TEntries([inner]));
    var found := {TemplateFile("sub/.git/config", mode)};
    assert RelName(["sub", ".git", "config"]) == "sub/.git/config" by {
      assert Join(["config"], "/") == "config";
      assert Join([".git", "config"], "/") == ".git/config";
    }
    assert ["sub", ".git"] + ["config"] == ["sub", ".git", "config"];
    assert EntriesFiles(["sub", ".git"], inner.listing, 1) == found;
    assert ["sub"] + [".git"] == ["sub", ".git"];
    assert EntriesFiles(["sub"], sub.listing, 1) == found;
    assert [] + ["sub"] == ["sub"];
  }

  /** Only the root's own ".git" is skipped: a ".git" one level down is walked like any
      other directory. */
  lemma NestedGitIsWalked(mode: nat)
    ensures var inner := TDir(".git", None, TEntries([TFile("config", mode, None, None)]));
      var top := TDir(".git", None, TEntries([TFile("HEAD", mode, None, None)]));
      var es := [top, TDir("sub", None, TEntries([inner]))];
      TemplateFiles(es) == {TemplateFile("sub/.git/config", mode)}
  {
    var inner := TDir(".git", None, TEntries([TFile("config", mode, None, None)]));
    var top := TDir(".git", None, TEntries([TFile("HEAD", mode, None, None)]));
    var sub := TDir("sub", None, TEntries([inner]));
    var es := [top, sub];
    assert Filter(es, AtTopKept) == [sub] by {
      assert es[..1] == [top] && [top][..0] == [];
    }
    var st: seq<Pending> := [([], sub)];
    assert TopStack(es) == st;
    GitUnderSubFiles(mode);
    assert st[..0] == [];
    assert StackFiles(st) == StackFiles([]) + EntryFiles([], sub);
  }

  // ---------------------------------------------------------------------------------------
  // ListTemplates

  function EntryName(e: TEntry): string {
    e.name
  }

  predicate IsDirEntry(e: TEntry) {
    e.TDir?
  }

  /** ListTemplates: the names of the directories in the templates directory, in listing
      order; a read error is returned as it is. */
  method ListTemplates(base: TListing) returns (r: Result<seq<string>, Error>)
    ensures base.TUnreadable? ==> r == Err(base.err)
    ensures base.TEntries? ==> r == Ok(Map(Filter(base.entries, IsDirEntry), EntryName))
    ensures r.Ok? ==> forall n :: n in r.value <==> exists e :: e in base.entries && e.TDir? && e.name == n
  {
    if base.TUnreadable? {
      return Err(base.err);
    }
    var es := base.entries;
    var names: seq<string> := [];
    for i := 0 to |es|
      invariant names == Map(Filter(es[..i], IsDirEntry), EntryName)
    {
      FilterPrefixStep(es, i, IsDirEntry);
      MapSnoc(Filter(es[..i], IsDirEntry), es[i], EntryName);
      if !es[i].TDir? {
        continue;
      }
      names := names + [es[i].name];
    }
    assert es[..|es|] == es;
    DirNames(es);
    return Ok(names);
  }

  lemma DirNames(es: seq<TEntry>)
    ensures forall n :: n in Map(Filter(es, IsDirEntry), EntryName) <==> exists e :: e in es && e.TDir? && e.name == n
  {
    var ds := Filter(es, IsDirEntry);
    forall n ensures n in Map(ds, EntryName) <==> exists e :: e in es && e.TDir? && e.name == n {
      if n in Map(ds, EntryName) {
        var k :| 0 <= k < |ds| && Map(ds, EntryName)[k] == n;
        assert ds[k] in ds;
      }
      if exists e :: e in es && e.TDir? && e.name == n {
        var e :| e in es && e.TDir? && e.name == n;
        assert e in ds;
        var k :| 0 <= k < |ds| && ds[k] == e;
        assert Map(ds, EntryName)[k] == n;
      }
    }
  }
}
