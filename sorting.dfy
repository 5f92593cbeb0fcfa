/** The in-place sort behind Go's sort.Slice and sort.Strings, given as an insertion sort
    over an order `le` that is total and transitive. Go's sort is not stable and neither is
    this specification: any permutation ordered by `le` is acceptable. */
module Sorting {

  ghost predicate Total<T(!new)>(le: (T, T) -> bool) {
    forall x, y :: le(x, y) || le(y, x)
  }

  ghost predicate Transitive<T(!new)>(le: (T, T) -> bool) {
    forall x, y, z :: le(x, y) && le(y, z) ==> le(x, z)
  }

  /** Every element is `le` every later element. */
  predicate SortedBy<T>(s: seq<T>, le: (T, T) -> bool) {
    forall i, j :: 0 <= i < j < |s| ==> le(s[i], s[j])
  }

  method SortBy<T(!new)>(a: array<T>, le: (T, T) -> bool)
    requires Total(le) && Transitive(le)
    modifies a
    ensures SortedBy(a[..], le)
    ensures multiset(a[..]) == multiset(old(a[..]))
  {
    if a.Length == 0 { return; }
    var i := 1;
    while i < a.Length
      invariant 1 <= i <= a.Length
      invariant SortedBy(a[..i], le)
      invariant multiset(a[..]) == multiset(old(a[..]))
    {
      Insert(a, i, le);
      i := i + 1;
    }
    assert a[..a.Length] == a[..];
  }

  /** One pass of the insertion sort: moves a[i] down into the sorted prefix a[..i]. */
  method Insert<T(!new)>(a: array<T>, i: int, le: (T, T) -> bool)
    requires Total(le) && Transitive(le)
    requires 0 < i < a.Length && SortedBy(a[..i], le)
    modifies a
    ensures SortedBy(a[..i + 1], le)
    ensures multiset(a[..]) == multiset(old(a[..]))
  {
    var j := i;
    while j > 0 && !le(a[j - 1], a[j])
      invariant 0 <= j <= i
      invariant forall p, q :: 0 <= p < q <= i && p != j && q != j ==> le(a[p], a[q])
      invariant forall q :: j < q <= i ==> le(a[j], a[q])
      invariant multiset(a[..]) == multiset(old(a[..]))
    {
      a[j - 1], a[j] := a[j], a[j - 1];
      j := j - 1;
    }
  }
}
