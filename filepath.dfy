/** Go's path/filepath on a Unix system: '/' is the separator and there are no volume names. */
module FilePath {
  import opened GoStrings

  const Separator: char := '/'

  /** A path element that Clean keeps unchanged: not empty, no separator, not "." or "..". */
  predicate Plain(e: string) {
    e != "" && Separator !in e && e != "." && e != ".."
  }

  /** The lexical walk of filepath.Clean over the elements of a path: skips empty and "."
      elements; ".." removes the previous element, stays at the root of a rooted path, and
      is kept when a relative path has nothing left to remove. */
  function Resolve(acc: seq<string>, segs: seq<string>, rooted: bool): (r: seq<string>)
    requires forall k :: 0 <= k < |acc| ==> Plain(acc[k]) || (!rooted && acc[k] == "..")
    requires PlainElems(segs)
    ensures forall k :: 0 <= k < |r| ==> Plain(r[k]) || (!rooted && r[k] == "..")
    decreases |segs|
  {
    if segs == [] then acc
    else
      var e := segs[0];
      if e == "" || e == "." then Resolve(acc, segs[1..], rooted)
      else if e == ".." then
        if |acc| > 0 && acc[|acc| - 1] != ".." then Resolve(acc[..|acc| - 1], segs[1..], rooted)
        else if rooted then Resolve(acc, segs[1..], rooted)
        else Resolve(acc + [".."], segs[1..], rooted)
      else Resolve(acc + [e], segs[1..], rooted)
  }

  /** filepath.Clean */
  function Clean(path: string): (r: string)
    ensures r != ""
    ensures HasPrefix(path, "/") <==> HasPrefix(r, "/")
  {
    if path == "" then assert "."[0] != '/'; "."
    else
      var rooted := path[0] == Separator;
      SplitPiecesLackSeparator(path, Separator);
      var body := Join(Resolve([], Split(path, Separator), rooted), [Separator]);
      if rooted then "/" + body
      else if body == "" then assert "."[0] != '/'; "."
      else
        assert body[0] != Separator by { ResolvedJoinHead(Resolve([], Split(path, Separator), rooted)); }
        body
  }

  function NonEmpty(elems: seq<string>): (r: seq<string>)
    ensures forall k :: 0 <= k < |r| ==> r[k] != ""
    ensures forall e :: e in r <==> e in elems && e != ""
  {
    if elems == [] then []
    else if elems[0] == "" then NonEmpty(elems[1..])
    else [elems[0]] + NonEmpty(elems[1..])
  }

  /** filepath.Join: the non-empty elements joined by the separator and cleaned, or "" when
      every element is empty. */
  function JoinPath(elems: seq<string>): (r: string)
    ensures r == "" <==> forall k :: 0 <= k < |elems| ==> elems[k] == ""
  {
    var ne := NonEmpty(elems);
    if ne == [] then
      assert forall k :: 0 <= k < |elems| ==> elems[k] == "" by {
        forall k | 0 <= k < |elems| ensures elems[k] == "" {
          assert elems[k] in elems;
        }
      }
      ""
    else
      assert ne[0] in ne;
      Clean(Join(ne, [Separator]))
  }

  /** filepath.IsAbs */
  predicate IsAbs(path: string) {
    HasPrefix(path, "/")
  }

  /** filepath.Ext: the suffix from the final dot of the final element, or "". */
  function Ext(path: string): (r: string)
    ensures r == "" || (HasSuffix(path, r) && r[0] == '.' && Separator !in r)
    decreases |path|
  {
    if path == [] || path[|path| - 1] == Separator then ""
    else if path[|path| - 1] == '.' then "."
    else
      var e := Ext(path[..|path| - 1]);
      if e == "" then "" else
        assert path[..|path| - 1] + [path[|path| - 1]] == path;
        e + [path[|path| - 1]]
  }

  /** The index just past the last separator of path, or 0. */
  function LastSepEnd(path: string): (n: nat)
    ensures n <= |path|
    ensures n > 0 ==> path[n - 1] == Separator
    ensures forall i :: n <= i < |path| ==> path[i] != Separator
    decreases |path|
  {
    if path == [] then 0
    else if path[|path| - 1] == Separator then |path|
    else LastSepEnd(path[..|path| - 1])
  }

  /** filepath.Dir: everything but the last element, cleaned. */
  function Dir(path: string): string {
    Clean(path[..LastSepEnd(path)])
  }

  /** filepath.Base's helper for the last element: the text after the last separator. */
  function LastElem(path: string): (r: string)
    ensures Separator !in r
  {
    var n := LastSepEnd(path);
    var r := path[n..];
    assert forall i :: 0 <= i < |r| ==> r[i] == path[n + i];
    r
  }

  // ---------------------------------------------------------------------------------------

  lemma ResolvedJoinHead(segs: seq<string>)
    requires forall k :: 0 <= k < |segs| ==> Plain(segs[k]) || segs[k] == ".."
    ensures Join(segs, [Separator]) == "" || Join(segs, [Separator])[0] != Separator
  {
    if |segs| > 0 {
      assert segs[0] != "";
      JoinHead(segs, [Separator]);
      assert segs[0][0] != Separator by { assert segs[0][0] in segs[0]; }
    }
  }

  lemma {:induction false} JoinHead(parts: seq<string>, sep: string)
    requires |parts| >= 1 && parts[0] != ""
    ensures Join(parts, sep) != "" && Join(parts, sep)[0] == parts[0][0]
    decreases |parts|
  {
  }

  predicate PlainElems(segs: seq<string>) {
    forall k :: 0 <= k < |segs| ==> Separator !in segs[k]
  }

  lemma {:induction false} ResolvePlain(acc: seq<string>, segs: seq<string>, rooted: bool)
    requires forall k :: 0 <= k < |acc| ==> Plain(acc[k]) || (!rooted && acc[k] == "..")
    requires forall k :: 0 <= k < |segs| ==> Plain(segs[k])
    ensures PlainElems(segs) && Resolve(acc, segs, rooted) == acc + segs
    decreases |segs|
  {
    assert PlainElems(segs);
    if segs != [] {
      ResolvePlain(acc + [segs[0]], segs[1..], rooted);
      assert acc + [segs[0]] + segs[1..] == acc + segs;
    }
  }

  /** Joining plain elements is just concatenation with the separator: Clean has nothing to
      remove. */
  lemma JoinPlain(elems: seq<string>)
    requires |elems| >= 1
    requires forall k :: 0 <= k < |elems| ==> Plain(elems[k])
    ensures JoinPath(elems) == Join(elems, [Separator])
  {
    NonEmptyKeeps(elems);
    var s := Join(elems, [Separator]);
    JoinHead(elems, [Separator]);
    assert elems[0][0] != Separator by { assert elems[0][0] in elems[0]; }
    assert s != "" && s[0] != Separator;
    SplitOfJoin(elems, Separator);
    assert Split(s, Separator) == elems;
    ResolvePlain([], elems, false);
    assert Resolve([], Split(s, Separator), false) == elems;
    assert Clean(s) == s;
  }

  lemma {:induction false} NonEmptyKeeps(elems: seq<string>)
    requires forall k :: 0 <= k < |elems| ==> elems[k] != ""
    ensures NonEmpty(elems) == elems
    decreases |elems|
  {
    if elems != [] {
      NonEmptyKeeps(elems[1..]);
      assert [elems[0]] + elems[1..] == elems;
    }
  }
}
