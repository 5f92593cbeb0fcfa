/** pkg/osutil/clean_dir.go: finding the directories under a root that hold no files, so
    that they can be removed. The file system is a value: a directory is the listing
    os.ReadDir would return for it, or the error it would fail with. */
module CleanDir {
  import opened Wrappers
  import opened Errors
  import opened FilePath
  import Seqs

  /** A directory entry: a file (anything that is not a directory) or a subdirectory. */
  datatype Entry = File(name: string) | Dir(name: string, listing: Listing)

  /** What os.ReadDir gives for a directory. */
  datatype Listing = Entries(entries: seq<Entry>) | Unreadable(err: Error)

  /** What os.Stat gives for the root. */
  datatype Stat = StatFailed(err: Error) | NotDirectory | Directory(listing: Listing)

  /** cleanItem: a directory of the scan, its mark, its scanned subdirectories and whether it
      may never be marked. */
  datatype Item = Item(path: string, mark: bool, subs: seq<Item>, forceNoMark: bool)

  /** The path the scan gives an entry of the directory at `path`. */
  function SubPath(path: string, e: Entry): string {
    JoinPath([path, e.name])
  }

  /** An entry that keeps its directory from being marked: a file or an excluded directory. */
  predicate Blocks(path: string, e: Entry, ex: set<string>) {
    e.File? || SubPath(path, e) in ex
  }

  /** One of the first n entries blocks the directory. */
  predicate BlockedUpTo(path: string, es: seq<Entry>, ex: set<string>, n: nat)
    requires n <= |es|
  {
    n > 0 && (BlockedUpTo(path, es, ex, n - 1) || Blocks(path, es[n - 1], ex))
  }

  lemma {:induction false} BlockedUpToIff(path: string, es: seq<Entry>, ex: set<string>, n: nat)
    requires n <= |es|
    ensures BlockedUpTo(path, es, ex, n) <==> exists k :: 0 <= k < n && Blocks(path, es[k], ex)
  {
    if n > 0 {
      BlockedUpToIff(path, es, ex, n - 1);
    }
  }

  /** Some entry blocks the directory. */
  predicate Blocked(path: string, es: seq<Entry>, ex: set<string>) {
    BlockedUpTo(path, es, ex, |es|)
  }

  /** The subdirectories among the first n entries that the scan descends into, in listing
      order, with their paths. */
  function ChildrenUpTo(path: string, es: seq<Entry>, ex: set<string>, n: nat): (r: seq<(string, Listing)>)
    requires n <= |es|
    ensures |r| <= n
  {
    if n == 0 then []
    else
      var init := ChildrenUpTo(path, es, ex, n - 1);
      var e := es[n - 1];
      if Blocks(path, e, ex) then init else init + [(SubPath(path, e), e.listing)]
  }

  /** The subdirectories the scan descends into: every subdirectory that is not excluded, in
      listing order. */
  function Children(path: string, es: seq<Entry>, ex: set<string>): (r: seq<(string, Listing)>)
    ensures |r| <= |es|
  {
    ChildrenUpTo(path, es, ex, |es|)
  }

  /** Each scanned child comes from an entry that does not block. */
  lemma {:induction false} ChildFromUpTo(path: string, es: seq<Entry>, ex: set<string>, n: nat, k: nat)
    requires n <= |es| && k < |ChildrenUpTo(path, es, ex, n)|
    ensures exists i :: (0 <= i < n && !Blocks(path, es[i], ex) &&
                         ChildrenUpTo(path, es, ex, n)[k] == (SubPath(path, es[i]), es[i].listing))
  {
    if k < |ChildrenUpTo(path, es, ex, n - 1)| {
      ChildFromUpTo(path, es, ex, n - 1, k);
    } else {
      assert !Blocks(path, es[n - 1], ex);
    }
  }

  lemma ChildFrom(path: string, es: seq<Entry>, ex: set<string>, k: nat)
    requires k < |Children(path, es, ex)|
    ensures exists i :: (0 <= i < |es| && !Blocks(path, es[i], ex) &&
                         Children(path, es, ex)[k] == (SubPath(path, es[i]), es[i].listing))
  {
    ChildFromUpTo(path, es, ex, |es|, k);
  }

  /** Every entry that does not block is scanned. */
  lemma {:induction false} ChildComplete(path: string, es: seq<Entry>, ex: set<string>, n: nat, i: nat)
    requires i < n <= |es| && !Blocks(path, es[i], ex)
    ensures (SubPath(path, es[i]), es[i].listing) in ChildrenUpTo(path, es, ex, n)
  {
    if i < n - 1 {
      ChildComplete(path, es, ex, n - 1, i);
    }
  }

  /** cleanScan's result for the directory at `path`, built as a value: an empty directory
      is marked; any other directory is unmarked, has the scanned subdirectories as
      children and is forced unmarked when an entry blocks it. */
  function Scan(path: string, l: Listing, ex: set<string>): (r: Item)
    ensures r.path == path
    ensures l.Entries? && l.entries == [] ==> r.mark && r.subs == [] && !r.forceNoMark
    ensures l.Entries? && l.entries != [] ==> !r.mark
    ensures l.Entries? && l.entries != [] ==> r.forceNoMark == Blocked(path, l.entries, ex)
    ensures l.Entries? && l.entries != [] ==>
      var cs := Children(path, l.entries, ex);
      |r.subs| == |cs| && forall k :: 0 <= k < |cs| ==> r.subs[k].path == cs[k].0
    ensures !l.Entries? ==> r.subs == []
    decreases l
  {
    match l
    case Unreadable(_) => Item(path, false, [], false)
    case Entries(es) =>
      if es == [] then Item(path, true, [], false)
      else
        var cs := Children(path, es, ex);
        Item(path, false, seq(|cs|, k requires 0 <= k < |cs| => ChildFrom(path, es, ex, k); Scan(cs[k].0, cs[k].1, ex)),
             Blocked(path, es, ex))
  }

  lemma ScanSubs(path: string, l: Listing, ex: set<string>)
    requires l.Entries? && l.entries != []
    ensures var cs := Children(path, l.entries, ex);
      forall k :: 0 <= k < |cs| ==> Scan(path, l, ex).subs[k] == Scan(cs[k].0, cs[k].1, ex)
  {
  }

  /** A scanned directory with entries is forced unmarked exactly when one of its entries
      is a file or a directory whose joined path is excluded. */
  lemma ScanForcesNoMark(path: string, es: seq<Entry>, ex: set<string>)
    requires es != []
    ensures Scan(path, Entries(es), ex).forceNoMark <==>
      exists k :: 0 <= k < |es| && (es[k].File? || JoinPath([path, es[k].name]) in ex)
  {
    BlockedUpToIff(path, es, ex, |es|);
  }

  /** Every directory the scan reaches can be read. */
  predicate Readable(path: string, l: Listing, ex: set<string>)
    decreases l
  {
    l.Entries? &&
    var cs := Children(path, l.entries, ex);
    forall k :: 0 <= k < |cs| ==> (ChildFrom(path, l.entries, ex, k); Readable(cs[k].0, cs[k].1, ex))
  }

  /** The directory holds no file and no excluded directory at any depth: what "empty" means
      for the clean command. */
  predicate NoFiles(path: string, l: Listing, ex: set<string>)
    decreases l
  {
    l.Entries? && !Blocked(path, l.entries, ex) &&
    var cs := Children(path, l.entries, ex);
    forall k :: 0 <= k < |cs| ==> (ChildFrom(path, l.entries, ex, k); NoFiles(cs[k].0, cs[k].1, ex))
  }

  /** cleanMark's effect on a tree: a node with children takes the conjunction of its marked
      children's marks unless it is forced unmarked; a node without children keeps its
      mark. */
  function Mark(t: Item): (r: Item)
    ensures r.path == t.path && r.forceNoMark == t.forceNoMark && |r.subs| == |t.subs|
    ensures forall k :: 0 <= k < |t.subs| ==> r.subs[k] == Mark(t.subs[k])
    ensures t.subs == [] ==> r.mark == t.mark
    ensures t.subs != [] ==> (r.mark <==> if t.forceNoMark then t.mark else forall k :: 0 <= k < |r.subs| ==> r.subs[k].mark)
    decreases t
  {
    if t.subs == [] then t
    else
      var subs := seq(|t.subs|, k requires 0 <= k < |t.subs| => Mark(t.subs[k]));
      Item(t.path, if t.forceNoMark then t.mark else forall k :: 0 <= k < |subs| ==> subs[k].mark,
           subs, t.forceNoMark)
  }

  /** Mark of a node with children, given its children's marks. */
  lemma MarkOf(t: Item, subs: seq<Item>)
    requires t.subs != [] && |subs| == |t.subs|
    requires forall j :: 0 <= j < |subs| ==> subs[j] == Mark(t.subs[j])
    ensures Mark(t) == Item(t.path, if t.forceNoMark then t.mark else forall j :: 0 <= j < |subs| ==> subs[j].mark, subs, t.forceNoMark)
  {
    assert Mark(t).subs == subs;
  }

  /** One turn of cleanMark's loop over the children. */
  lemma MarkStep(t: Item, subs: seq<Item>, sub: Item)
    requires |subs| < |t.subs| && forall j :: 0 <= j < |subs| ==> subs[j] == Mark(t.subs[j])
    requires sub == Mark(t.subs[|subs|])
    ensures forall j :: 0 <= j < |subs| + 1 ==> (subs + [sub])[j] == Mark(t.subs[j])
    ensures (forall j :: 0 <= j < |subs| + 1 ==> (subs + [sub])[j].mark) <==>
      (forall j :: 0 <= j < |subs| ==> subs[j].mark) && sub.mark
  {
  }

  /** cleanList's output: a marked node's own path, or else the paths listed under each
      child in turn. */
  function ListMarked(t: Item): seq<string>
    decreases t, 1
  {
    if t.mark then [t.path] else ListSubs(t, 0)
  }

  function ListSubs(t: Item, i: nat): seq<string>
    requires i <= |t.subs|
    decreases t, 0, |t.subs| - i
  {
    if i == |t.subs| then [] else ListMarked(t.subs[i]) + ListSubs(t, i + 1)
  }

  /** A position in a tree: the child indices on the way down from the root. */
  predicate ValidPos(t: Item, pos: seq<nat>)
    decreases |pos|
  {
    pos == [] || (pos[0] < |t.subs| && ValidPos(t.subs[pos[0]], pos[1..]))
  }

  function At(t: Item, pos: seq<nat>): Item
    requires ValidPos(t, pos)
    decreases |pos|
  {
    if pos == [] then t else At(t.subs[pos[0]], pos[1..])
  }

  /** The positions cleanList reports, in its order. */
  function Tops(t: Item): (r: seq<seq<nat>>)
    decreases t, 1
  {
    if t.mark then [[]] else TopsFrom(t, 0)
  }

  function TopsFrom(t: Item, i: nat): (r: seq<seq<nat>>)
    requires i <= |t.subs|
    ensures forall p :: p in r ==> |p| >= 1 && i <= p[0] < |t.subs|
    decreases t, 0, |t.subs| - i
  {
    if i == |t.subs| then []
    else
      var here := Tops(t.subs[i]);
      seq(|here|, k requires 0 <= k < |here| => [i] + here[k]) + TopsFrom(t, i + 1)
  }

  /** A position in the file system: the indices into each directory's scanned children. */
  predicate FsValid(path: string, l: Listing, ex: set<string>, pos: seq<nat>)
    decreases |pos|
  {
    pos == [] ||
    (l.Entries? &&
     var cs := Children(path, l.entries, ex);
     pos[0] < |cs| && FsValid(cs[pos[0]].0, cs[pos[0]].1, ex, pos[1..]))
  }

  function FsAt(path: string, l: Listing, ex: set<string>, pos: seq<nat>): (string, Listing)
    requires FsValid(path, l, ex, pos)
    decreases |pos|
  {
    if pos == [] then (path, l)
    else
      var cs := Children(path, l.entries, ex);
      FsAt(cs[pos[0]].0, cs[pos[0]].1, ex, pos[1..])
  }

  // ---------------------------------------------------------------------------------------

  /** After cleanMark, a scanned directory is marked exactly when it holds no file and no
      excluded directory at any depth. */
  lemma {:induction false} MarkIffNoFiles(path: string, l: Listing, ex: set<string>)
    requires Readable(path, l, ex)
    ensures Mark(Scan(path, l, ex)).mark <==> NoFiles(path, l, ex)
    decreases l
  {
    var es := l.entries;
    if es != [] {
      var cs := Children(path, es, ex);
      var t := Scan(path, l, ex);
      ScanSubs(path, l, ex);
      forall k | 0 <= k < |cs|
        ensures Mark(t).subs[k].mark <==> NoFiles(cs[k].0, cs[k].1, ex)
      {
        ChildFrom(path, es, ex, k);
        MarkIffNoFiles(cs[k].0, cs[k].1, ex);
      }
      BlockedUpToIff(path, es, ex, |es|);
      if !Blocks(path, es[0], ex) {
        ChildComplete(path, es, ex, |es|, 0);
      }
    }
  }

  lemma AtCons(t: Item, i: nat, x: seq<nat>)
    requires i < |t.subs| && ValidPos(t.subs[i], x)
    ensures ValidPos(t, [i] + x) && At(t, [i] + x) == At(t.subs[i], x)
  {
    assert ([i] + x)[1..] == x;
  }

  lemma {:induction false} ListLength(t: Item)
    ensures |ListMarked(t)| == |Tops(t)|
    decreases t, 1
  {
    if !t.mark {
      ListSubsLength(t, 0);
    }
  }

  lemma {:induction false} ListSubsLength(t: Item, i: nat)
    requires i <= |t.subs|
    ensures |ListSubs(t, i)| == |TopsFrom(t, i)|
    decreases t, 0, |t.subs| - i
  {
    if i < |t.subs| {
      ListLength(t.subs[i]);
      ListSubsLength(t, i + 1);
    }
  }

  /** The k-th path cleanList reports is that of the node at the k-th top, which is marked. */
  lemma {:induction false} ListAtTop(t: Item, k: nat)
    requires k < |Tops(t)|
    ensures ValidPos(t, Tops(t)[k]) && At(t, Tops(t)[k]).mark
    ensures |ListMarked(t)| == |Tops(t)| && ListMarked(t)[k] == At(t, Tops(t)[k]).path
    decreases t, 1
  {
    ListLength(t);
    if !t.mark {
      ListSubsAtTop(t, 0, k);
    }
  }

  lemma {:induction false} ListSubsAtTop(t: Item, i: nat, k: nat)
    requires i <= |t.subs| && k < |TopsFrom(t, i)|
    ensures ValidPos(t, TopsFrom(t, i)[k]) && At(t, TopsFrom(t, i)[k]).mark
    ensures |ListSubs(t, i)| == |TopsFrom(t, i)| && ListSubs(t, i)[k] == At(t, TopsFrom(t, i)[k]).path
    decreases t, 0, |t.subs| - i
  {
    ListSubsLength(t, i);
    var sub := t.subs[i];
    var here := Tops(sub);
    ListLength(sub);
    ListSubsLength(t, i + 1);
    TopsFromSplit(t, i, k);
    if k < |here| {
      assert ListSubs(t, i)[k] == ListMarked(sub)[k];
      ListAtTop(sub, k);
      AtCons(t, i, here[k]);
    } else {
      assert ListSubs(t, i)[k] == ListSubs(t, i + 1)[k - |here|];
      ListSubsAtTop(t, i + 1, k - |here|);
    }
  }

  /** x is a prefix of y: the node at position x lies on the way down to the node at y. */
  predicate PrefixOf(x: seq<nat>, y: seq<nat>)
    decreases |x|
  {
    x == [] || (y != [] && x[0] == y[0] && PrefixOf(x[1..], y[1..]))
  }

  lemma {:induction false} PrefixOfIsPrefix(x: seq<nat>, y: seq<nat>)
    ensures PrefixOf(x, y) <==> x <= y
    decreases |x|
  {
    if x != [] && y != [] {
      PrefixOfIsPrefix(x[1..], y[1..]);
      assert x == [x[0]] + x[1..] && y == [y[0]] + y[1..];
    }
  }

  lemma ConsPrefix(i: nat, x: seq<nat>, y: seq<nat>)
    ensures PrefixOf([i] + x, [i] + y) ==> PrefixOf(x, y)
  {
    assert ([i] + x)[1..] == x && ([i] + y)[1..] == y;
  }

  /** No reported position lies on the way down to another: cleanList never reports a node
      below one it has reported. */
  lemma {:induction false} TopsNotNested(t: Item, a: nat, b: nat)
    requires a < |Tops(t)| && b < |Tops(t)| && a != b
    ensures !PrefixOf(Tops(t)[a], Tops(t)[b])
    decreases t, 1, 0, 0
  {
    if !t.mark {
      TopsFromNotNested(t, 0, a, b);
    }
  }

  lemma {:induction false} TopsFromNotNested(t: Item, i: nat, a: nat, b: nat)
    requires i <= |t.subs| && a < |TopsFrom(t, i)| && b < |TopsFrom(t, i)| && a != b
    ensures !PrefixOf(TopsFrom(t, i)[a], TopsFrom(t, i)[b])
    decreases t, 0, |t.subs| - i, 1
  {
    assert TopsFrom(t, i)[a] in TopsFrom(t, i);
    var n := |Tops(t.subs[i])|;
    if a < n && b < n {
      SameChildNotNested(t, i, a, b);
    } else if a < n || b < n {
      OtherChildNotNested(t, i, a, b);
    } else {
      LaterChildrenNotNested(t, i, a, b);
    }
  }

  /** Two positions, both under children after child i. */
  lemma {:induction false} LaterChildrenNotNested(t: Item, i: nat, a: nat, b: nat)
    requires i < |t.subs| && a < |TopsFrom(t, i)| && b < |TopsFrom(t, i)| && a != b
    requires |Tops(t.subs[i])| <= a && |Tops(t.subs[i])| <= b
    ensures !PrefixOf(TopsFrom(t, i)[a], TopsFrom(t, i)[b])
    decreases t, 0, |t.subs| - i, 0
  {
    var n := |Tops(t.subs[i])|;
    TopsFromLater(t, i, a);
    TopsFromLater(t, i, b);
    TopsFromNotNested(t, i + 1, a - n, b - n);
  }

  /** The k-th position of TopsFrom(t, i), past those under child i, comes from the later
      children. */
  lemma TopsFromLater(t: Item, i: nat, k: nat)
    requires i < |t.subs| && |Tops(t.subs[i])| <= k < |TopsFrom(t, i)|
    ensures k - |Tops(t.subs[i])| < |TopsFrom(t, i + 1)|
    ensures TopsFrom(t, i)[k] == TopsFrom(t, i + 1)[k - |Tops(t.subs[i])|]
  {
    TopsFromSplit(t, i, k);
  }

  /** Two positions reported under the same child i. */
  lemma {:induction false} SameChildNotNested(t: Item, i: nat, a: nat, b: nat)
    requires i < |t.subs| && a < |Tops(t.subs[i])| && b < |Tops(t.subs[i])| && a != b
    requires a < |TopsFrom(t, i)| && b < |TopsFrom(t, i)|
    ensures !PrefixOf(TopsFrom(t, i)[a], TopsFrom(t, i)[b])
    decreases t, 0, |t.subs| - i, 0
  {
    TopsFromSplit(t, i, a);
    TopsFromSplit(t, i, b);
    TopsNotNested(t.subs[i], a, b);
    ConsPrefix(i, Tops(t.subs[i])[a], Tops(t.subs[i])[b]);
  }

  /** Two positions, one under child i and one under a later child. */
  lemma OtherChildNotNested(t: Item, i: nat, a: nat, b: nat)
    requires i < |t.subs| && a < |TopsFrom(t, i)| && b < |TopsFrom(t, i)|
    requires a < |Tops(t.subs[i])| <= b || b < |Tops(t.subs[i])| <= a
    ensures !PrefixOf(TopsFrom(t, i)[a], TopsFrom(t, i)[b])
  {
    var n := |Tops(t.subs[i])|;
    TopsFromSplit(t, i, a);
    TopsFromSplit(t, i, b);
    var x := TopsFrom(t, i)[a];
    var y := TopsFrom(t, i)[b];
    if a < n {
      assert TopsFrom(t, i + 1)[b - n] in TopsFrom(t, i + 1);
      assert x[0] == i && y[0] > i;
    } else {
      assert TopsFrom(t, i + 1)[a - n] in TopsFrom(t, i + 1);
      assert x[0] > i && y[0] == i;
    }
  }

  /** Where the k-th position of TopsFrom(t, i) comes from: child i, or the later children. */
  lemma TopsFromSplit(t: Item, i: nat, k: nat)
    requires i <= |t.subs| && k < |TopsFrom(t, i)|
    ensures i < |t.subs|
    ensures k < |Tops(t.subs[i])| ==> TopsFrom(t, i)[k] == [i] + Tops(t.subs[i])[k]
    ensures k >= |Tops(t.subs[i])| ==>
      k - |Tops(t.subs[i])| < |TopsFrom(t, i + 1)| &&
      TopsFrom(t, i)[k] == TopsFrom(t, i + 1)[k - |Tops(t.subs[i])|]
  {
  }

  /** Every node above a reported position is unmarked: cleanList stops at the first marked
      node on each branch. */
  lemma {:induction false} TopAncestors(t: Item, k: nat, n: nat)
    requires k < |Tops(t)| && n < |Tops(t)[k]|
    ensures ValidPos(t, Tops(t)[k][..n]) && !At(t, Tops(t)[k][..n]).mark
    decreases t, 1
  {
    if !t.mark {
      TopsFromAncestors(t, 0, k, n);
    }
  }

  lemma {:induction false} TopsFromAncestors(t: Item, i: nat, k: nat, n: nat)
    requires !t.mark && i <= |t.subs| && k < |TopsFrom(t, i)| && n < |TopsFrom(t, i)[k]|
    ensures ValidPos(t, TopsFrom(t, i)[k][..n]) && !At(t, TopsFrom(t, i)[k][..n]).mark
    decreases t, 0, |t.subs| - i
  {
    var sub := t.subs[i];
    var here := Tops(sub);
    var pos := TopsFrom(t, i)[k];
    TopsFromSplit(t, i, k);
    if n == 0 {
      assert pos[..0] == [];
    } else if k < |here| {
      assert pos[..n] == [i] + here[k][..n - 1];
      TopAncestors(sub, k, n - 1);
      AtCons(t, i, here[k][..n - 1]);
    } else {
      TopsFromAncestors(t, i + 1, k - |here|, n);
    }
  }

  /** Marking keeps the shape of the tree and marks each subtree on its own. */
  lemma {:induction false} MarkAt(t: Item, pos: seq<nat>)
    ensures ValidPos(Mark(t), pos) <==> ValidPos(t, pos)
    ensures ValidPos(t, pos) ==> At(Mark(t), pos) == Mark(At(t, pos))
    decreases |pos|
  {
    if pos != [] && pos[0] < |t.subs| {
      MarkAt(t.subs[pos[0]], pos[1..]);
    }
  }

  /** The node at a position of the scanned tree is the scan of the directory at that
      position of the file system. */
  lemma {:induction false} ScanAt(path: string, l: Listing, ex: set<string>, pos: seq<nat>)
    requires ValidPos(Scan(path, l, ex), pos)
    ensures FsValid(path, l, ex, pos)
    ensures At(Scan(path, l, ex), pos) == Scan(FsAt(path, l, ex, pos).0, FsAt(path, l, ex, pos).1, ex)
    ensures Readable(path, l, ex) ==> Readable(FsAt(path, l, ex, pos).0, FsAt(path, l, ex, pos).1, ex)
    decreases |pos|
  {
    if pos != [] {
      var cs := Children(path, l.entries, ex);
      ScanSubs(path, l, ex);
      ScanAt(cs[pos[0]].0, cs[pos[0]].1, ex, pos[1..]);
    }
  }

  /** The k-th path ListEmptyDir reports names a directory, reached through scanned
      subdirectories, that holds no file and no excluded directory at any depth. */
  lemma ReportedIsEmpty(path: string, l: Listing, ex: set<string>, k: nat)
    requires Readable(path, l, ex) && k < |Tops(Mark(Scan(path, l, ex)))|
    ensures var pos := Tops(Mark(Scan(path, l, ex)))[k];
      FsValid(path, l, ex, pos) && NoFiles(FsAt(path, l, ex, pos).0, FsAt(path, l, ex, pos).1, ex) &&
      k < |ListMarked(Mark(Scan(path, l, ex)))| && ListMarked(Mark(Scan(path, l, ex)))[k] == FsAt(path, l, ex, pos).0
  {
    var t := Scan(path, l, ex);
    var pos := Tops(Mark(t))[k];
    ListAtTop(Mark(t), k);
    MarkAt(t, pos);
    ScanAt(path, l, ex, pos);
    var fs := FsAt(path, l, ex, pos);
    MarkIffNoFiles(fs.0, fs.1, ex);
  }

  /** Every directory above a reported one holds a file or an excluded directory somewhere,
      so it is not reported itself. */
  lemma ReportedIsMaximal(path: string, l: Listing, ex: set<string>, k: nat, n: nat)
    requires Readable(path, l, ex) && k < |Tops(Mark(Scan(path, l, ex)))|
    requires n < |Tops(Mark(Scan(path, l, ex)))[k]|
    ensures var above := Tops(Mark(Scan(path, l, ex)))[k][..n];
      FsValid(path, l, ex, above) && !NoFiles(FsAt(path, l, ex, above).0, FsAt(path, l, ex, above).1, ex)
  {
    var t := Scan(path, l, ex);
    var above := Tops(Mark(t))[k][..n];
    TopAncestors(Mark(t), k, n);
    MarkAt(t, above);
    ScanAt(path, l, ex, above);
    var fs := FsAt(path, l, ex, above);
    MarkIffNoFiles(fs.0, fs.1, ex);
  }

  // ---------------------------------------------------------------------------------------
  // cleanScan's stack loop. Each cleanItem is allocated on the heap and a parent holds its
  // children by address; here the heap is the sequence of items allocated so far and an
  // address is an index into it. `dirs` holds, for each item, the listing os.ReadDir gives
  // for its path.

  datatype Node = Node(path: string, mark: bool, subs: seq<nat>, forceNoMark: bool)

  /** Children are allocated after their parent. */
  predicate Linked(items: seq<Node>) {
    forall i, k :: 0 <= i < |items| && 0 <= k < |items[i].subs| ==> i < items[i].subs[k] < |items|
  }

  /** The tree of cleanItems reachable from the item at address id. */
  function Tree(items: seq<Node>, id: nat): (r: Item)
    requires Linked(items) && id < |items|
    ensures r.path == items[id].path && |r.subs| == |items[id].subs|
    decreases |items| - id
  {
    var n := items[id];
    Item(n.path, n.mark, seq(|n.subs|, k requires 0 <= k < |n.subs| => Tree(items, n.subs[k])), n.forceNoMark)
  }

  /** The item at address id has been scanned: its directory was read, and its fields and
      children are what the scan sets for that listing. */
  predicate Scanned(items: seq<Node>, dirs: seq<Listing>, id: nat, ex: set<string>)
    requires id < |items| == |dirs|
  {
    dirs[id].Entries? &&
    var n := items[id];
    var es := dirs[id].entries;
    var cs := Children(n.path, es, ex);
    n.mark == (es == []) && n.forceNoMark == Blocked(n.path, es, ex) && |n.subs| == |cs| &&
    forall k :: 0 <= k < |cs| ==> n.subs[k] < |items| && items[n.subs[k]].path == cs[k].0 && dirs[n.subs[k]] == cs[k].1
  }

  /** A size of a directory tree that the scan loop's stack makes smaller. */
  function ListingSize(l: Listing): nat
    decreases l, 1
  {
    match l
    case Unreadable(_) => 1
    case Entries(es) => 1 + EntriesSize(l, |es|)
  }

  function EntriesSize(l: Listing, n: nat): nat
    requires l.Entries? && n <= |l.entries|
    decreases l, 0, n
  {
    if n == 0 then 0
    else
      var e := l.entries[n - 1];
      assert e in l.entries;
      EntriesSize(l, n - 1) + if e.Dir? then ListingSize(e.listing) else 0
  }

  function PairsSize(cs: seq<(string, Listing)>): nat {
    if cs == [] then 0 else PairsSize(cs[..|cs| - 1]) + ListingSize(cs[|cs| - 1].1)
  }

  /** The total size of the listings of the items on the stack. */
  function StackSize(dirs: seq<Listing>, stack: seq<nat>): nat {
    if stack == [] then 0
    else
      var top := stack[|stack| - 1];
      StackSize(dirs, stack[..|stack| - 1]) + if top < |dirs| then ListingSize(dirs[top]) else 0
  }

  lemma {:induction false} ChildrenSize(path: string, l: Listing, ex: set<string>, n: nat)
    requires l.Entries? && n <= |l.entries|
    ensures PairsSize(ChildrenUpTo(path, l.entries, ex, n)) <= EntriesSize(l, n)
  {
    if n > 0 {
      ChildrenSize(path, l, ex, n - 1);
      var cs := ChildrenUpTo(path, l.entries, ex, n);
      var init := ChildrenUpTo(path, l.entries, ex, n - 1);
      if cs != init {
        assert cs[..|cs| - 1] == init;
      }
    }
  }

  lemma {:induction false} StackSizeFrame(dirs: seq<Listing>, dirs': seq<Listing>, stack: seq<nat>)
    requires |dirs| <= |dirs'| && dirs'[..|dirs|] == dirs
    requires forall k :: 0 <= k < |stack| ==> stack[k] < |dirs|
    ensures StackSize(dirs', stack) == StackSize(dirs, stack)
  {
    if stack != [] {
      StackSizeFrame(dirs, dirs', stack[..|stack| - 1]);
      assert dirs'[stack[|stack| - 1]] == dirs'[..|dirs|][stack[|stack| - 1]];
    }
  }

  lemma StackSizeSnoc(dirs: seq<Listing>, stack: seq<nat>, x: nat)
    requires x < |dirs|
    ensures StackSize(dirs, stack + [x]) == StackSize(dirs, stack) + ListingSize(dirs[x])
  {
    assert (stack + [x])[..|stack|] == stack;
  }

  /** The total size of a sequence of listings. */
  function ListingsSize(ds: seq<Listing>): nat {
    if ds == [] then 0 else ListingsSize(ds[..|ds| - 1]) + ListingSize(ds[|ds| - 1])
  }

  lemma {:induction false} ListingsSizeOfPairs(cs: seq<(string, Listing)>)
    ensures ListingsSize(Seqs.Map(cs, ListingOf)) == PairsSize(cs)
  {
    if cs != [] {
      var init := cs[..|cs| - 1];
      ListingsSizeOfPairs(init);
      var ds := Seqs.Map(cs, ListingOf);
      assert ds[..|ds| - 1] == Seqs.Map(init, ListingOf);
    }
  }

  /** Pushing the items allocated at the end of dirs for the listings ds adds their sizes. */
  lemma {:induction false} StackSizeAppend(dirs: seq<Listing>, ds: seq<Listing>, stack: seq<nat>)
    requires forall k :: 0 <= k < |stack| ==> stack[k] < |dirs|
    ensures StackSize(dirs + ds, stack + Ids(|dirs|, |ds|)) == StackSize(dirs, stack) + ListingsSize(ds)
    decreases |ds|
  {
    if ds == [] {
      assert stack + Ids(|dirs|, 0) == stack;
      assert dirs + ds == dirs;
    } else {
      var dI := ds[..|ds| - 1];
      var sI := stack + Ids(|dirs|, |dI|);
      var x := |dirs| + |dI|;
      var last := ds[|ds| - 1];
      StackSizeAppend(dirs, dI, stack);
      assert dirs + ds == (dirs + dI) + [last];
      assert (dirs + ds)[..|dirs + dI|] == dirs + dI;
      IdsBelow(stack, |dirs|, |dI|);
      StackSizeFrame(dirs + dI, dirs + ds, sI);
      assert (dirs + ds)[x] == last;
      StackSizeSnoc(dirs + ds, sI, x);
      assert ListingsSize(ds) == ListingsSize(dI) + ListingSize(last);
      StackIdsSnoc(stack, |dirs|, |dI|);
    }
  }

  lemma StackIdsSnoc(stack: seq<nat>, base: nat, n: nat)
    ensures stack + Ids(base, n + 1) == (stack + Ids(base, n)) + [base + n]
  {
    IdsSnoc(base, n);
    Seqs.AppendAssoc(stack, Ids(base, n), [base + n]);
  }

  lemma IdsBelow(stack: seq<nat>, base: nat, n: nat)
    requires forall k :: 0 <= k < |stack| ==> stack[k] < base
    ensures forall k :: 0 <= k < |stack + Ids(base, n)| ==> (stack + Ids(base, n))[k] < base + n
  {
  }

  /** Pushing the items allocated for the children cs adds their sizes. */
  lemma StackSizePushChildren(dirs: seq<Listing>, stack: seq<nat>, cs: seq<(string, Listing)>)
    requires forall k :: 0 <= k < |stack| ==> stack[k] < |dirs|
    ensures StackSize(dirs + Seqs.Map(cs, ListingOf), stack + Ids(|dirs|, |cs|)) == StackSize(dirs, stack) + PairsSize(cs)
  {
    StackSizeAppend(dirs, Seqs.Map(cs, ListingOf), stack);
    ListingsSizeOfPairs(cs);
  }

  /** Reading the k-th scanned child of the directory at pos. */
  lemma {:induction false} FsAtSnoc(path: string, l: Listing, ex: set<string>, pos: seq<nat>, k: nat)
    requires FsValid(path, l, ex, pos)
    requires FsAt(path, l, ex, pos).1.Entries?
    requires k < |Children(FsAt(path, l, ex, pos).0, FsAt(path, l, ex, pos).1.entries, ex)|
    ensures FsValid(path, l, ex, pos + [k])
    ensures FsAt(path, l, ex, pos + [k]) == Children(FsAt(path, l, ex, pos).0, FsAt(path, l, ex, pos).1.entries, ex)[k]
    decreases |pos|
  {
    if pos == [] {
      assert [] + [k] == [k] && [k][1..] == [];
    } else {
      var cs := Children(path, l.entries, ex);
      assert (pos + [k])[0] == pos[0] && (pos + [k])[1..] == pos[1..] + [k];
      FsAtSnoc(cs[pos[0]].0, cs[pos[0]].1, ex, pos[1..], k);
    }
  }

  /** A directory the scan reaches from a readable root is readable. */
  lemma {:induction false} ReadableAt(path: string, l: Listing, ex: set<string>, pos: seq<nat>)
    requires Readable(path, l, ex) && FsValid(path, l, ex, pos)
    ensures Readable(FsAt(path, l, ex, pos).0, FsAt(path, l, ex, pos).1, ex)
    decreases |pos|
  {
    if pos != [] {
      var cs := Children(path, l.entries, ex);
      ReadableAt(cs[pos[0]].0, cs[pos[0]].1, ex, pos[1..]);
    }
  }

  /** Once every allocated item is scanned, the tree from address id is the scan of its
      directory. */
  lemma {:induction false} TreeIsScan(items: seq<Node>, dirs: seq<Listing>, ex: set<string>, id: nat)
    requires Linked(items) && |items| == |dirs| && id < |items|
    requires forall i :: 0 <= i < |items| ==> Scanned(items, dirs, i, ex)
    ensures Tree(items, id) == Scan(items[id].path, dirs[id], ex)
    ensures Readable(items[id].path, dirs[id], ex)
    decreases |items| - id
  {
    var n := items[id];
    assert Scanned(items, dirs, id, ex);
    var es := dirs[id].entries;
    var cs := Children(n.path, es, ex);
    forall k | 0 <= k < |cs|
      ensures Tree(items, n.subs[k]) == Scan(cs[k].0, cs[k].1, ex) && Readable(cs[k].0, cs[k].1, ex)
    {
      TreeIsScan(items, dirs, ex, n.subs[k]);
    }
    if es != [] {
      ScanSubs(n.path, dirs[id], ex);
    }
  }

  /** The item allocated for a scanned child: its path, everything else zero. */
  function NewItem(c: (string, Listing)): Node {
    Node(c.0, false, [], false)
  }

  function ListingOf(c: (string, Listing)): Listing {
    c.1
  }

  /** The addresses base, base + 1, ..., base + n - 1. */
  function Ids(base: nat, n: nat): (r: seq<nat>)
    ensures |r| == n && forall k :: 0 <= k < n ==> r[k] == base + k
  {
    seq(n, k requires 0 <= k < n => base + k)
  }

  /** One entry of ScanEntries' loop: a blocking entry adds nothing and blocks; any other
      adds its child. */
  lemma ScanStep(path: string, es: seq<Entry>, ex: set<string>, j: nat)
    requires j < |es|
    ensures Blocks(path, es[j], ex) ==>
      ChildrenUpTo(path, es, ex, j + 1) == ChildrenUpTo(path, es, ex, j) && BlockedUpTo(path, es, ex, j + 1)
    ensures !Blocks(path, es[j], ex) ==>
      ChildrenUpTo(path, es, ex, j + 1) == ChildrenUpTo(path, es, ex, j) + [(SubPath(path, es[j]), es[j].listing)]
      && BlockedUpTo(path, es, ex, j + 1) == BlockedUpTo(path, es, ex, j)
  {
  }

  /** What adding child c to the scanned children cs appends to each of the loop's
      sequences. */
  lemma ScanAdd(items: seq<Node>, dirs: seq<Listing>, stack: seq<nat>, cs: seq<(string, Listing)>, c: (string, Listing))
    ensures items + Seqs.Map(cs + [c], NewItem) == (items + Seqs.Map(cs, NewItem)) + [NewItem(c)]
    ensures dirs + Seqs.Map(cs + [c], ListingOf) == (dirs + Seqs.Map(cs, ListingOf)) + [ListingOf(c)]
    ensures Ids(|items|, |cs| + 1) == Ids(|items|, |cs|) + [|items + Seqs.Map(cs, NewItem)|]
    ensures stack + Ids(|items|, |cs| + 1) == (stack + Ids(|items|, |cs|)) + [|items + Seqs.Map(cs, NewItem)|]
  {
    Seqs.MapSnoc(cs, c, NewItem);
    Seqs.MapSnoc(cs, c, ListingOf);
    IdsSnoc(|items|, |cs|);
  }

  lemma IdsSnoc(base: nat, n: nat)
    ensures Ids(base, n + 1) == Ids(base, n) + [base + n]
  {
  }

  /** The positions of the first n children of the directory at position at. */
  function ChildPositions(at: seq<nat>, n: nat): (r: seq<seq<nat>>)
    ensures |r| == n && forall k :: 0 <= k < n ==> r[k] == at + [k]
  {
    seq(n, k requires 0 <= k < n => at + [k])
  }

  /** The loop over the entries of one non-empty directory: a file or an excluded
      subdirectory forces the directory unmarked; every other subdirectory gets a new item,
      which becomes a child of the directory and is pushed on the stack. */
  method ScanEntries(items: seq<Node>, dirs: seq<Listing>, stack: seq<nat>, path: string, es: seq<Entry>, ex: set<string>)
    returns (items': seq<Node>, dirs': seq<Listing>, stack': seq<nat>, subs: seq<nat>, forceNoMark: bool)
    requires |items| == |dirs|
    ensures items' == items + Seqs.Map(Children(path, es, ex), NewItem)
    ensures dirs' == dirs + Seqs.Map(Children(path, es, ex), ListingOf)
    ensures subs == Ids(|items|, |Children(path, es, ex)|)
    ensures stack' == stack + subs
    ensures forceNoMark == Blocked(path, es, ex)
  {
    items', dirs', stack' := items, dirs, stack;
    subs := [];
    forceNoMark := false;
    ghost var cs: seq<(string, Listing)> := [];
    for j := 0 to |es|
      invariant cs == ChildrenUpTo(path, es, ex, j)
      invariant items' == items + Seqs.Map(cs, NewItem)
      invariant dirs' == dirs + Seqs.Map(cs, ListingOf)
      invariant subs == Ids(|items|, |cs|)
      invariant stack' == stack + subs
      invariant forceNoMark == BlockedUpTo(path, es, ex, j)
    {
      var subEntry := es[j];
      ScanStep(path, es, ex, j);
      if !subEntry.Dir? {
        forceNoMark := true;
        continue;
      }
      var subPath := SubPath(path, subEntry);
      if subPath in ex {
        forceNoMark := true;
        continue;
      }
      var id := |items'|;
      var c := (subPath, subEntry.listing);
      ScanAdd(items, dirs, stack, cs, c);
      items' := items' + [NewItem(c)];
      dirs' := dirs' + [ListingOf(c)];
      subs := subs + [id];
      stack' := stack' + [id];
      cs := cs + [c];
    }
  }

  // ---------------------------------------------------------------------------------------
  // The invariants of cleanScan's stack loop, one concern each.

  /** The stack holds distinct addresses, and an item is done exactly when it is no longer
      on the stack. */
  predicate StackInv(n: nat, stack: seq<nat>, done: seq<bool>) {
    |done| == n &&
    (forall k :: 0 <= k < |stack| ==> stack[k] < n) &&
    Seqs.Distinct(stack) &&
    forall i :: 0 <= i < n ==> (done[i] <==> i !in stack)
  }

  /** Every done item has been scanned. */
  predicate ScanInv(items: seq<Node>, dirs: seq<Listing>, done: seq<bool>, ex: set<string>) {
    |items| == |dirs| == |done| &&
    forall i :: 0 <= i < |items| && done[i] ==> Scanned(items, dirs, i, ex)
  }

  /** An item still on the stack is as it was allocated: unmarked, childless, not forced. */
  predicate PendingInv(items: seq<Node>, done: seq<bool>) {
    |items| == |done| &&
    forall i :: 0 <= i < |items| && !done[i] ==> items[i].subs == [] && !items[i].mark && !items[i].forceNoMark
  }

  /** Every item stands for the directory at its recorded position under the root. */
  predicate PosInv(path: string, root: Listing, ex: set<string>, items: seq<Node>, dirs: seq<Listing>, poss: seq<seq<nat>>) {
    |items| == |dirs| == |poss| &&
    forall i :: 0 <= i < |items| ==>
      FsValid(path, root, ex, poss[i]) && FsAt(path, root, ex, poss[i]) == (items[i].path, dirs[i])
  }

  function Falses(n: nat): (r: seq<bool>)
    ensures |r| == n && forall k :: 0 <= k < n ==> !r[k]
  {
    seq(n, k => false)
  }

  /** The arena after the items for the children cs of the item cur were allocated and cur
      was given them as its children. */
  function Expand(items: seq<Node>, cur: nat, cs: seq<(string, Listing)>, forceNoMark: bool): (r: seq<Node>)
    requires cur < |items|
    ensures |r| == |items| + |cs|
  {
    (items + Seqs.Map(cs, NewItem))[cur := items[cur].(subs := Ids(|items|, |cs|), forceNoMark := forceNoMark)]
  }

  lemma StackStep(n: nat, stack: seq<nat>, done: seq<bool>, m: nat)
    requires StackInv(n, stack, done) && stack != []
    ensures StackInv(n + m, stack[..|stack| - 1] + Ids(n, m), done[stack[|stack| - 1] := true] + Falses(m))
  {
    var cur := stack[|stack| - 1];
    var rest := stack[..|stack| - 1];
    var s' := rest + Ids(n, m);
    var d' := done[cur := true] + Falses(m);
    assert stack == rest + [cur];
    forall i, j | 0 <= i < j < |s'| ensures s'[i] != s'[j] {
      if j < |rest| {
        assert s'[i] == stack[i] && s'[j] == stack[j];
      } else if i < |rest| {
        assert s'[i] == stack[i];
      }
    }
    forall i | 0 <= i < n + m ensures d'[i] <==> i !in s' {
      if i < n {
        assert i !in Ids(n, m);
      } else {
        assert s'[|rest| + i - n] == i;
      }
    }
  }

  /** A done item keeps its scan when the arena grows and other items change everything but
      their paths. */
  lemma ScannedFrame(items: seq<Node>, dirs: seq<Listing>, items': seq<Node>, dirs': seq<Listing>, i: nat, ex: set<string>)
    requires i < |items| == |dirs| && |items| <= |items'| == |dirs'|
    requires Scanned(items, dirs, i, ex)
    requires items'[i] == items[i] && dirs'[..|dirs|] == dirs
    requires forall j :: 0 <= j < |items| ==> items'[j].path == items[j].path
    ensures Scanned(items', dirs', i, ex)
  {
    var cs := Children(items[i].path, dirs[i].entries, ex);
    forall k | 0 <= k < |cs| ensures dirs'[items[i].subs[k]] == cs[k].1 {
      assert dirs'[items[i].subs[k]] == dirs'[..|dirs|][items[i].subs[k]];
    }
  }

  lemma ScanStepEmpty(items: seq<Node>, dirs: seq<Listing>, done: seq<bool>, ex: set<string>, cur: nat)
    requires ScanInv(items, dirs, done, ex) && PendingInv(items, done)
    requires cur < |items| && !done[cur] && dirs[cur] == Entries([])
    ensures ScanInv(items[cur := items[cur].(mark := true)], dirs, done[cur := true], ex)
    ensures PendingInv(items[cur := items[cur].(mark := true)], done[cur := true])
  {
    var items' := items[cur := items[cur].(mark := true)];
    forall i | 0 <= i < |items| && done[i] ensures Scanned(items', dirs, i, ex) {
      ScannedFrame(items, dirs, items', dirs, i, ex);
    }
  }

  lemma ScanStepEntries(items: seq<Node>, dirs: seq<Listing>, done: seq<bool>, ex: set<string>, cur: nat, es: seq<Entry>)
    requires ScanInv(items, dirs, done, ex) && PendingInv(items, done)
    requires cur < |items| && !done[cur] && dirs[cur] == Entries(es) && es != []
    ensures var cs := Children(items[cur].path, es, ex);
      ScanInv(Expand(items, cur, cs, Blocked(items[cur].path, es, ex)), dirs + Seqs.Map(cs, ListingOf),
              done[cur := true] + Falses(|cs|), ex)
    ensures var cs := Children(items[cur].path, es, ex);
      PendingInv(Expand(items, cur, cs, Blocked(items[cur].path, es, ex)), done[cur := true] + Falses(|cs|))
  {
    var cs := Children(items[cur].path, es, ex);
    var items' := Expand(items, cur, cs, Blocked(items[cur].path, es, ex));
    var dirs' := dirs + Seqs.Map(cs, ListingOf);
    var done' := done[cur := true] + Falses(|cs|);
    assert dirs'[..|dirs|] == dirs;
    forall i | 0 <= i < |items'| && done'[i] ensures Scanned(items', dirs', i, ex) {
      if i != cur {
        ScannedFrame(items, dirs, items', dirs', i, ex);
      } else {
        forall k | 0 <= k < |cs|
          ensures items'[items'[cur].subs[k]].path == cs[k].0 && dirs'[items'[cur].subs[k]] == cs[k].1
        {
          assert items'[cur].subs[k] == |items| + k;
        }
      }
    }
  }

  lemma LinkedStep(items: seq<Node>, done: seq<bool>, cur: nat, cs: seq<(string, Listing)>, forceNoMark: bool)
    requires Linked(items) && PendingInv(items, done) && cur < |items| && !done[cur]
    ensures Linked(Expand(items, cur, cs, forceNoMark))
  {
    var items' := Expand(items, cur, cs, forceNoMark);
    forall i, k | 0 <= i < |items'| && 0 <= k < |items'[i].subs| ensures i < items'[i].subs[k] < |items'| {
      if i != cur {
        assert i < |items|;
      }
    }
  }

  lemma PosStep(path: string, root: Listing, ex: set<string>, items: seq<Node>, dirs: seq<Listing>, poss: seq<seq<nat>>,
                cur: nat, es: seq<Entry>, forceNoMark: bool)
    requires PosInv(path, root, ex, items, dirs, poss)
    requires cur < |items| && dirs[cur] == Entries(es)
    ensures var cs := Children(items[cur].path, es, ex);
      PosInv(path, root, ex, Expand(items, cur, cs, forceNoMark), dirs + Seqs.Map(cs, ListingOf),
             poss + ChildPositions(poss[cur], |cs|))
  {
    var cs := Children(items[cur].path, es, ex);
    var items' := Expand(items, cur, cs, forceNoMark);
    var dirs' := dirs + Seqs.Map(cs, ListingOf);
    var poss' := poss + ChildPositions(poss[cur], |cs|);
    forall i | 0 <= i < |items'|
      ensures FsValid(path, root, ex, poss'[i]) && FsAt(path, root, ex, poss'[i]) == (items'[i].path, dirs'[i])
    {
      if i >= |items| {
        FsAtSnoc(path, root, ex, poss[cur], i - |items|);
      }
    }
  }

  /** A scan that reaches an unreadable directory does not cover a readable tree. */
  lemma UnreadableReached(path: string, root: Listing, ex: set<string>, pos: seq<nat>)
    requires FsValid(path, root, ex, pos) && FsAt(path, root, ex, pos).1.Unreadable?
    ensures !Readable(path, root, ex)
  {
    if Readable(path, root, ex) {
      ReadableAt(path, root, ex, pos);
    }
  }

  /** excludeMap: the set of the excluded paths. */
  method ExcludeSet(exclude: seq<string>) returns (ex: set<string>)
    ensures forall x :: x in ex <==> x in exclude
  {
    ex := {};
    for j := 0 to |exclude|
      invariant forall x :: x in ex <==> x in exclude[..j]
    {
      assert exclude[..j + 1] == exclude[..j] + [exclude[j]];
      ex := ex + {exclude[j]};
    }
    assert exclude[..|exclude|] == exclude;
  }

  /** The state of cleanScan's loop: the arena of items, the listing read for each, the
      stack of items left to read; the position of each item and which are done are ghost. */
  predicate ArenaInv(path: string, root: Listing, ex: set<string>, items: seq<Node>, dirs: seq<Listing>,
                     stack: seq<nat>, poss: seq<seq<nat>>, done: seq<bool>) {
    |items| == |dirs| >= 1 && items[0].path == path && dirs[0] == root &&
    StackInv(|items|, stack, done) && ScanInv(items, dirs, done, ex) && PendingInv(items, done) &&
    Linked(items) && PosInv(path, root, ex, items, dirs, poss)
  }

  /** Popping an empty directory marks it. */
  lemma EmptyStep(path: string, root: Listing, ex: set<string>, items: seq<Node>, dirs: seq<Listing>,
                  stack: seq<nat>, poss: seq<seq<nat>>, done: seq<bool>)
    requires ArenaInv(path, root, ex, items, dirs, stack, poss, done) && stack != []
    requires dirs[stack[|stack| - 1]] == Entries([])
    ensures var cur := stack[|stack| - 1];
      ArenaInv(path, root, ex, items[cur := items[cur].(mark := true)], dirs, stack[..|stack| - 1], poss, done[cur := true])
    ensures StackSize(dirs, stack[..|stack| - 1]) < StackSize(dirs, stack)
  {
    var cur := stack[|stack| - 1];
    StackStep(|items|, stack, done, 0);
    assert stack[..|stack| - 1] + Ids(|items|, 0) == stack[..|stack| - 1];
    assert done[cur := true] + Falses(0) == done[cur := true];
    ScanStepEmpty(items, dirs, done, ex, cur);
    MarkKeeps(path, root, ex, items, dirs, poss, done, cur);
  }

  /** Marking the item cur keeps the links, the positions and the pending items' shape. */
  lemma MarkKeeps(path: string, root: Listing, ex: set<string>, items: seq<Node>, dirs: seq<Listing>,
                  poss: seq<seq<nat>>, done: seq<bool>, cur: nat)
    requires cur < |items| && Linked(items) && PosInv(path, root, ex, items, dirs, poss) && PendingInv(items, done)
    ensures var marked := items[cur := items[cur].(mark := true)];
      Linked(marked) && PosInv(path, root, ex, marked, dirs, poss) && PendingInv(marked, done[cur := true])
      && marked[0].path == items[0].path
  {
    var marked := items[cur := items[cur].(mark := true)];
    assert forall i :: 0 <= i < |items| ==> marked[i].path == items[i].path && marked[i].subs == items[i].subs;
  }

  /** Popping a directory with entries gives it its children and pushes them. */
  lemma EntriesStep(path: string, root: Listing, ex: set<string>, items: seq<Node>, dirs: seq<Listing>,
                    stack: seq<nat>, poss: seq<seq<nat>>, done: seq<bool>, es: seq<Entry>)
    requires ArenaInv(path, root, ex, items, dirs, stack, poss, done) && stack != []
    requires dirs[stack[|stack| - 1]] == Entries(es) && es != []
    ensures var cur := stack[|stack| - 1];
      var cs := Children(items[cur].path, es, ex);
      var rest := stack[..|stack| - 1];
      ArenaInv(path, root, ex, Expand(items, cur, cs, Blocked(items[cur].path, es, ex)), dirs + Seqs.Map(cs, ListingOf),
               rest + Ids(|items|, |cs|), poss + ChildPositions(poss[cur], |cs|), done[cur := true] + Falses(|cs|)) &&
      StackSize(dirs + Seqs.Map(cs, ListingOf), rest + Ids(|items|, |cs|)) < StackSize(dirs, stack)
  {
    var cur := stack[|stack| - 1];
    var rest := stack[..|stack| - 1];
    var cs := Children(items[cur].path, es, ex);
    var fnm := Blocked(items[cur].path, es, ex);
    StackStep(|items|, stack, done, |cs|);
    ScanStepEntries(items, dirs, done, ex, cur, es);
    LinkedStep(items, done, cur, cs, fnm);
    PosStep(path, root, ex, items, dirs, poss, cur, es, fnm);
    StackSizePushChildren(dirs, rest, cs);
    ChildrenSize(items[cur].path, dirs[cur], ex, |es|);
    assert Expand(items, cur, cs, fnm)[0].path == path;
    assert (dirs + Seqs.Map(cs, ListingOf))[0] == root;
  }

  /** cleanScan: walks the directories from the root with a stack of items, reading each
      popped directory once. The scan succeeds exactly when every directory it reaches can be
      read, and then it builds the tree Scan describes; otherwise the error is that of a
      directory it reached. */
  method CleanScan(path: string, root: Listing, exclude: seq<string>) returns (r: Result<Item, Error>)
    ensures var ex := set x | x in exclude; r.Ok? <==> Readable(path, root, ex)
    ensures var ex := set x | x in exclude; r.Ok? ==> r.value == Scan(path, root, ex)
    ensures var ex := set x | x in exclude; r.Err? ==>
      exists pos :: FsValid(path, root, ex, pos) && FsAt(path, root, ex, pos).1.Unreadable? &&
        r.error == Trace(FsAt(path, root, ex, pos).1.err, "read clean dir")
  {
    var ex := ExcludeSet(exclude);
    assert ex == set x | x in exclude;
    var items := [Node(path, false, [], false)];
    var dirs := [root];
    var stack: seq<nat> := [0];
    ghost var poss: seq<seq<nat>> := [[]];
    ghost var done := [false];
    while stack != []
      invariant ArenaInv(path, root, ex, items, dirs, stack, poss, done)
      decreases StackSize(dirs, stack)
    {
      var cur := stack[|stack| - 1];
      match dirs[cur]
      case Unreadable(e) =>
        UnreadableReached(path, root, ex, poss[cur]);
        return Err(Trace(e, "read clean dir"));
      case Entries(subEntries) =>
        if |subEntries| == 0 {
          EmptyStep(path, root, ex, items, dirs, stack, poss, done);
          stack := stack[..|stack| - 1];
          items := items[cur := items[cur].(mark := true)];
          done := done[cur := true];
          continue;
        }
        EntriesStep(path, root, ex, items, dirs, stack, poss, done, subEntries);
        ghost var cs := Children(items[cur].path, subEntries, ex);
        stack := stack[..|stack| - 1];
        var subs, forceNoMark;
        var curItem := items[cur];
        items, dirs, stack, subs, forceNoMark := ScanEntries(items, dirs, stack, curItem.path, subEntries, ex);
        items := items[cur := curItem.(subs := subs, forceNoMark := forceNoMark)];
        poss := poss + ChildPositions(poss[cur], |cs|);
        done := done[cur := true] + Falses(|cs|);
    }
    forall i | 0 <= i < |items| ensures Scanned(items, dirs, i, ex) {
      assert i !in stack;
    }
    TreeIsScan(items, dirs, ex, 0);
    r := Ok(Tree(items, 0));
  }

  /** cleanMark, on the tree as a value: marks every subtree first, then takes the
      conjunction of the children's marks unless the node is forced unmarked. */
  method CleanMark(t: Item) returns (r: Item)
    ensures r == Mark(t)
    decreases t
  {
    if |t.subs| == 0 {
      return t;
    }
    var mark := true;
    var subs: seq<Item> := [];
    for k := 0 to |t.subs|
      invariant |subs| == k
      invariant forall j :: 0 <= j < k ==> subs[j] == Mark(t.subs[j])
      invariant mark <==> forall j :: 0 <= j < k ==> subs[j].mark
    {
      var sub := CleanMark(t.subs[k]);
      MarkStep(t, subs, sub);
      if !sub.mark {
        mark := false;
      }
      subs := subs + [sub];
    }
    MarkOf(t, subs);
    r := Item(t.path, if t.forceNoMark then t.mark else mark, subs, t.forceNoMark);
  }

  /** cleanList: appends a marked node's path, or else lists each child in turn. */
  method CleanList(t: Item, toRemove: seq<string>) returns (toRemove': seq<string>)
    ensures toRemove' == toRemove + ListMarked(t)
    decreases t
  {
    if t.mark {
      return toRemove + [t.path];
    }
    toRemove' := toRemove;
    for i := 0 to |t.subs|
      invariant toRemove + ListSubs(t, 0) == toRemove' + ListSubs(t, i)
    {
      toRemove' := CleanList(t.subs[i], toRemove');
    }
  }

  /** ListEmptyDir: a directory that cannot be stat-ed or is not a directory is an error;
      otherwise the scan's error, or else the paths cleanList reports after cleanMark. */
  method ListEmptyDir(dir: string, exclude: seq<string>, stat: Stat) returns (r: Result<seq<string>, Error>)
    ensures stat.StatFailed? ==> r == Err(stat.err)
    ensures stat.NotDirectory? ==> r == Err(Plain("clean: " + dir + " is not a directory"))
    ensures var ex := set x | x in exclude;
      stat.Directory? ==> (r.Ok? <==> Readable(dir, stat.listing, ex))
    ensures var ex := set x | x in exclude;
      stat.Directory? && r.Ok? ==> r.value == ListMarked(Mark(Scan(dir, stat.listing, ex)))
  {
    match stat
    case StatFailed(e) => return Err(e);
    case NotDirectory => return Err(Plain("clean: " + dir + " is not a directory"));
    case Directory(l) =>
      var root := CleanScan(dir, l, exclude);
      if root.Err? {
        return Err(root.error);
      }
      var marked := CleanMark(root.value);
      var emptyDirs := CleanList(marked, []);
      return Ok(emptyDirs);
  }
}
