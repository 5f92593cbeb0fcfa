/** Sequence helpers used to specify the loops of the model: filtering, and keeping the first
    occurrence of each element. */
module Seqs {
  import opened Wrappers

  /** The elements of s that satisfy p, in their original order. */
  function Filter<T(!new)>(s: seq<T>, p: T -> bool): (r: seq<T>)
    ensures |r| <= |s|
    ensures forall x :: x in r <==> x in s && p(x)
    decreases |s|
  {
    if s == [] then []
    else if p(s[|s| - 1]) then Filter(s[..|s| - 1], p) + [s[|s| - 1]]
    else Filter(s[..|s| - 1], p)
  }

  /** Filtering one more element: the step a filtering loop takes. */
  lemma FilterSnoc<T(!new)>(s: seq<T>, x: T, p: T -> bool)
    ensures Filter(s + [x], p) == if p(x) then Filter(s, p) + [x] else Filter(s, p)
  {
    assert (s + [x])[..|s|] == s;
  }

  /** Filtering one more element of a prefix. */
  lemma FilterPrefixStep<T(!new)>(s: seq<T>, i: nat, p: T -> bool)
    requires i < |s|
    ensures Filter(s[..i + 1], p) == if p(s[i]) then Filter(s[..i], p) + [s[i]] else Filter(s[..i], p)
  {
    assert s[..i + 1] == s[..i] + [s[i]];
    FilterSnoc(s[..i], s[i], p);
  }

  /** Mapping and filtering one more element of a prefix. */
  lemma MapFilterPrefixStep<T, U(!new)>(s: seq<T>, i: nat, f: T -> U, p: U -> bool)
    requires i < |s|
    ensures Filter(Map(s[..i + 1], f), p) == if p(f(s[i])) then Filter(Map(s[..i], f), p) + [f(s[i])] else Filter(Map(s[..i], f), p)
  {
    assert s[..i + 1] == s[..i] + [s[i]];
    MapSnoc(s[..i], s[i], f);
    FilterSnoc(Map(s[..i], f), f(s[i]), p);
  }

  /** Filtering keeps every element when all satisfy the predicate. */
  lemma {:induction false} FilterAll<T(!new)>(s: seq<T>, p: T -> bool)
    requires forall k :: 0 <= k < |s| ==> p(s[k])
    ensures Filter(s, p) == s
    decreases |s|
  {
    if s != [] {
      FilterAll(s[..|s| - 1], p);
      assert s[..|s| - 1] + [s[|s| - 1]] == s;
    }
  }

  /** The first occurrence of each element, in order of first appearance. */
  function Dedup<T(==,!new)>(s: seq<T>): (r: seq<T>)
    ensures forall x :: x in r <==> x in s
    ensures forall i, j :: 0 <= i < j < |r| ==> r[i] != r[j]
    decreases |s|
  {
    if s == [] then []
    else
      var d := Dedup(s[..|s| - 1]);
      if s[|s| - 1] in d then d else d + [s[|s| - 1]]
  }

  lemma DedupSnoc<T(!new)>(s: seq<T>, x: T)
    ensures Dedup(s + [x]) == if x in Dedup(s) then Dedup(s) else Dedup(s) + [x]
  {
    assert (s + [x])[..|s|] == s;
  }

  /** Deduplicating one more element of s: the step a deduplicating loop takes. */
  lemma DedupPrefixStep<T(!new)>(s: seq<T>, i: nat)
    requires i < |s|
    ensures Dedup(s[..i + 1]) == if s[i] in Dedup(s[..i]) then Dedup(s[..i]) else Dedup(s[..i]) + [s[i]]
  {
    TakeSnoc(s, i);
    DedupSnoc(s[..i], s[i]);
  }

  /** Applies f to every element. */
  function Map<T, U>(s: seq<T>, f: T -> U): (r: seq<U>)
    ensures |r| == |s|
    ensures forall k :: 0 <= k < |s| ==> r[k] == f(s[k])
  {
    seq(|s|, k requires 0 <= k < |s| => f(s[k]))
  }

  /** No two elements are equal. */
  predicate Distinct<T(==)>(s: seq<T>) {
    forall i, j :: 0 <= i < j < |s| ==> s[i] != s[j]
  }

  lemma MapSnoc<T, U>(s: seq<T>, x: T, f: T -> U)
    ensures Map(s + [x], f) == Map(s, f) + [f(x)]
  {
  }

  /** Every pair of elements, in their order, is related by rel. */
  predicate Pairwise<T>(s: seq<T>, rel: (T, T) -> bool) {
    forall i, j :: 0 <= i < j < |s| ==> rel(s[i], s[j])
  }

  /** Filtering keeps a pairwise relation. */
  lemma {:induction false} FilterPairwise<T(!new)>(s: seq<T>, p: T -> bool, rel: (T, T) -> bool)
    requires Pairwise(s, rel)
    ensures Pairwise(Filter(s, p), rel)
    decreases |s|
  {
    if s != [] {
      var init := s[..|s| - 1];
      var last := s[|s| - 1];
      assert Pairwise(init, rel);
      FilterPairwise(init, p, rel);
      var f := Filter(init, p);
      if p(last) {
        forall i, j | 0 <= i < j < |f| + 1 ensures rel((f + [last])[i], (f + [last])[j]) {
          if j == |f| {
            assert f[i] in init;
            var k :| 0 <= k < |init| && init[k] == f[i];
            assert s[k] == f[i];
          } else {
            assert (f + [last])[i] == f[i] && (f + [last])[j] == f[j];
          }
        }
      }
    }
  }

  /** A loop that stops at its first failure: every value in order, or the first error. */
  function Collect<T, E>(rs: seq<Result<T, E>>): (r: Result<seq<T>, E>)
    decreases |rs|
  {
    if rs == [] then Ok([])
    else
      var init := Collect(rs[..|rs| - 1]);
      var last := rs[|rs| - 1];
      if init.Err? then init
      else if last.Err? then Err(last.error)
      else Ok(init.value + [last.value])
  }

  /** One more step of such a loop. */
  lemma CollectSnoc<T, E>(rs: seq<Result<T, E>>, x: Result<T, E>)
    ensures Collect(rs + [x]) ==
      if Collect(rs).Err? then Collect(rs) else if x.Err? then Err(x.error) else Ok(Collect(rs).value + [x.value])
  {
    assert (rs + [x])[..|rs|] == rs;
  }

  /** Once a prefix fails, the whole sequence fails with the same error. */
  lemma {:induction false} CollectErrPersists<T, E>(rs: seq<Result<T, E>>, n: nat)
    requires n <= |rs| && Collect(rs[..n]).Err?
    ensures Collect(rs) == Collect(rs[..n])
    decreases |rs|
  {
    if n < |rs| {
      var init := rs[..|rs| - 1];
      assert init[..n] == rs[..n];
      CollectErrPersists(init, n);
    } else {
      assert rs[..n] == rs;
    }
  }

  /** A successful collection holds every value, in order. */
  lemma {:induction false} CollectOk<T, E>(rs: seq<Result<T, E>>, i: nat)
    requires Collect(rs).Ok? && i < |rs|
    ensures |Collect(rs).value| == |rs| && rs[i] == Ok(Collect(rs).value[i])
    decreases |rs|
  {
    var init := rs[..|rs| - 1];
    if i < |init| {
      CollectOk(init, i);
    } else if init != [] {
      CollectOk(init, 0);
    }
  }

  /** A collection fails with the first failure's error. */
  lemma {:induction false} CollectFirstError<T, E>(rs: seq<Result<T, E>>, k: nat)
    requires k < |rs| && rs[k].Err?
    requires forall i :: 0 <= i < k ==> rs[i].Ok?
    ensures Collect(rs) == Err(rs[k].error)
    decreases |rs|
  {
    var init := rs[..|rs| - 1];
    if k < |rs| - 1 {
      CollectFirstError(init, k);
    } else {
      CollectOkWhen(init);
    }
  }

  /** A collection succeeds when every step does. */
  lemma {:induction false} CollectOkWhen<T, E>(rs: seq<Result<T, E>>)
    requires forall i :: 0 <= i < |rs| ==> rs[i].Ok?
    ensures Collect(rs).Ok?
    decreases |rs|
  {
    if rs != [] {
      CollectOkWhen(rs[..|rs| - 1]);
    }
  }
  /** One more step of a collecting loop over rs, at index i. */
  lemma CollectPrefixStep<T, E>(rs: seq<Result<T, E>>, i: nat)
    requires i < |rs|
    ensures Collect(rs[..i + 1]) ==
      if Collect(rs[..i]).Err? then Collect(rs[..i])
      else if rs[i].Err? then Err(rs[i].error) else Ok(Collect(rs[..i]).value + [rs[i].value])
  {
    assert rs[..i + 1] == rs[..i] + [rs[i]];
    CollectSnoc(rs[..i], rs[i]);
  }

  /** The index of the first element f fails on, or |s|. */
  function FirstFailing<T, E>(s: seq<T>, f: T -> Option<E>): (k: nat)
    ensures k <= |s|
    ensures forall j :: 0 <= j < k ==> f(s[j]).None?
    ensures k < |s| ==> f(s[k]).Some?
  {
    if s == [] then 0
    else if f(s[0]).Some? then 0
    else
      assert forall j :: 1 <= j < |s| ==> s[j] == s[1..][j - 1];
      FirstFailing(s[1..], f) + 1
  }

  /** The first failure is the x that follows a prefix with none. */
  lemma FirstFailingAt<T, E>(pre: seq<T>, x: T, rest: seq<T>, f: T -> Option<E>)
    requires forall m :: 0 <= m < |pre| ==> f(pre[m]).None?
    requires f(x).Some?
    ensures FirstFailing(pre + [x] + rest, f) == |pre|
    ensures (pre + [x] + rest)[..|pre| + 1] == pre + [x]
  {
    var s := pre + [x] + rest;
    assert forall m :: 0 <= m < |pre| ==> s[m] == pre[m];
    assert s[|pre|] == x;
    assert s[..|pre| + 1] == pre + [x];
  }

  lemma TakeSnoc<T>(s: seq<T>, i: nat)
    requires i < |s|
    ensures s[..i + 1] == s[..i] + [s[i]]
  {
  }

  lemma AppendAssoc<T>(x: seq<T>, y: seq<T>, z: seq<T>)
    ensures (x + y) + z == x + (y + z)
  {
  }

  /** The pieces of ss one after the other. */
  function Flatten<T>(ss: seq<seq<T>>): (r: seq<T>)
    decreases |ss|
  {
    if ss == [] then [] else Flatten(ss[..|ss| - 1]) + ss[|ss| - 1]
  }

  lemma FlattenSnoc<T>(ss: seq<seq<T>>, x: seq<T>)
    ensures Flatten(ss + [x]) == Flatten(ss) + x
  {
    assert (ss + [x])[..|ss|] == ss;
  }

  /** Every element of a flattened sequence comes from one of its pieces, and back. */
  lemma {:induction false} FlattenMembers<T>(ss: seq<seq<T>>)
    ensures forall x :: x in Flatten(ss) <==> exists k :: 0 <= k < |ss| && x in ss[k]
    decreases |ss|
  {
    if ss != [] {
      var init := ss[..|ss| - 1];
      FlattenMembers(init);
      forall x ensures x in Flatten(ss) <==> exists k :: 0 <= k < |ss| && x in ss[k] {
        if x in Flatten(init) {
          var k :| 0 <= k < |init| && x in init[k];
          assert ss[k] == init[k];
        }
        if exists k :: 0 <= k < |ss| && x in ss[k] {
          var k :| 0 <= k < |ss| && x in ss[k];
          if k < |init| {
            assert init[k] == ss[k];
          }
        }
      }
    }
  }

  /** A loop that appends each step's values and stops at its first failure. */
  function Concat<T, E>(rs: seq<Result<seq<T>, E>>): (r: Result<seq<T>, E>) {
    match Collect(rs)
    case Ok(parts) => Ok(Flatten(parts))
    case Err(e) => Err(e)
  }
}
