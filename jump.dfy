/** core/jump.go: the jump keyword store, a map from keyword to the second it was last
    used. The store's clock is read once, when it is created: every keyword added in the
    session is stamped with that `now`. */
module Jump {
  import opened Wrappers
  import opened GoStrings
  import opened Errors
  import Sorting

  /** jumpKeywordExpireSeconds, the configured day. */
  const ExpireSeconds: int := 86400

  /** isOutDate: a stamp not strictly in the past is out of date, and so is one at least a
      day old. */
  predicate IsOutDate(now: int, seconds: int) {
    var delta := now - seconds;
    delta <= 0 || delta >= ExpireSeconds
  }

  /** The entries of m that are not out of date. */
  function Fresh(m: map<string, int>, now: int): (r: map<string, int>)
    ensures forall k :: k in r <==> k in m && !IsOutDate(now, m[k])
    ensures forall k :: k in r ==> r[k] == m[k]
  {
    map k | k in m && !IsOutDate(now, m[k]) :: m[k]
  }

  /** What opening and decoding the keyword file gave. */
  datatype LoadInput =
    | Missing
    | OpenFailed(err: Error)
    | Decoded(result: Result<map<string, int>, Error>)

  class JumpKeywordStorage {
    var data: map<string, int>
    const now: int

    /** NewJumpKeywordStorage's allocation: an empty map and the clock reading. */
    constructor (now: int)
      ensures data == map[] && this.now == now
    {
      data := map[];
      this.now := now;
    }

    /** init: a missing file leaves the map empty without error; a file that cannot be
        opened is traced; a file that cannot be decoded is a parse error naming it. */
    method Init(input: LoadInput, path: string) returns (err: Option<Error>)
      requires data == map[]
      modifies this
      ensures input.Missing? ==> err.None? && data == map[]
      ensures input.OpenFailed? ==> err == Some(Trace(input.err, "open jump keyword file")) && data == map[]
      ensures input.Decoded? && input.result.Err? ==> err == Some(ParseStorage(path, input.result.error))
      ensures input.Decoded? && input.result.Ok? ==> err.None? && data == input.result.value
    {
      match input {
        case Missing => return None;
        case OpenFailed(e) => return Some(Trace(e, "open jump keyword file"));
        case Decoded(Err(e)) => return Some(ParseStorage(path, e));
        case Decoded(Ok(m)) =>
          data := m;
          return None;
      }
    }

    /** Add: stamps the keyword with the store's `now`, overwriting an earlier stamp. */
    method Add(kw: string)
      modifies this
      ensures data == old(data)[kw := now]
    {
      data := data[kw := now];
    }

    /** List: deletes every out-of-date entry while going over the map, and returns the
        keywords left, sorted. */
    method List() returns (kws: seq<string>)
      modifies this
      ensures data == Fresh(old(data), now)
      ensures multiset(kws) == multiset(data.Keys)
      ensures Sorting.SortedBy(kws, StringLe)
    {
      kws := [];
      var pending := data.Keys;
      ghost var kept: set<string> := {};
      while pending != {}
        invariant pending <= old(data).Keys
        invariant forall k :: k in data <==> k in old(data) && (k in pending || !IsOutDate(now, old(data)[k]))
        invariant forall k :: k in data ==> data[k] == old(data)[k]
        invariant kept == data.Keys - pending
        invariant multiset(kws) == multiset(kept)
        decreases pending
      {
        var kw :| kw in pending;
        var seconds := data[kw];
        if IsOutDate(now, seconds) {
          data := data - {kw};
          pending := pending - {kw};
          continue;
        }
        kws := kws + [kw];
        kept := kept + {kw};
        pending := pending - {kw};
      }
      assert data == Fresh(old(data), now);
      kws := SortStrings(kws);
    }

    /** Close: an empty map is never written; otherwise the map goes to the encoder, and a
        file that cannot be opened is traced. */
    method Close(openErr: Option<Error>) returns (written: Option<map<string, int>>, err: Option<Error>)
      ensures |data| == 0 ==> written.None? && err.None?
      ensures |data| > 0 && openErr.Some? ==> written.None? && err == Some(Trace(openErr.value, "open data file"))
      ensures |data| > 0 && openErr.None? ==> written == Some(data) && err.None?
    {
      if |data| == 0 {
        return None, None;
      }
      if openErr.Some? {
        return None, Some(Trace(openErr.value, "open data file"));
      }
      return Some(data), None;
    }
  }

  /** sort.Strings */
  method SortStrings(s: seq<string>) returns (r: seq<string>)
    ensures multiset(r) == multiset(s)
    ensures Sorting.SortedBy(r, StringLe)
  {
    var a := new string[|s|](i requires 0 <= i < |s| => s[i]);
    assert a[..] == s;
    StringOrder();
    Sorting.SortBy(a, StringLe);
    r := a[..];
  }

  lemma StringOrder()
    ensures Sorting.Total(StringLe) && Sorting.Transitive(StringLe)
  {
    forall x: string, y: string ensures StringLe(x, y) || StringLe(y, x) {
      StringLeTotal(x, y);
    }
    forall x: string, y: string, z: string | StringLe(x, y) && StringLe(y, z) ensures StringLe(x, z) {
      StringLeTransitive(x, y, z);
    }
  }

  // ---------------------------------------------------------------------------------------

  /** A keyword stamped with the store's own `now` is out of date at once: a delta of zero
      counts as not in the past. */
  lemma AddedIsOutDate(m: map<string, int>, kw: string, now: int)
    ensures kw !in Fresh(m[kw := now], now)
  {
  }

  /** So a List after an Add in the same session drops the added keyword and keeps every
      other fresh one. */
  lemma ListAfterAdd(m: map<string, int>, kw: string, now: int)
    ensures Fresh(m[kw := now], now) == Fresh(m, now) - {kw}
  {
  }

  /** A stamp from within the last day, strictly in the past, is kept. */
  lemma RecentIsKept(now: int, seconds: int)
    requires 0 < now - seconds < ExpireSeconds
    ensures !IsOutDate(now, seconds)
  {
  }

  /** Listing twice gives the same store: List is idempotent on the map. */
  lemma FreshIdempotent(m: map<string, int>, now: int)
    ensures Fresh(Fresh(m, now), now) == Fresh(m, now)
  {
  }

  lemma RepeatCounts(s: seq<string>, i: nat, j: nat)
    requires i < j < |s|
    ensures s[i] == s[j] ==> multiset(s)[s[i]] >= 2
  {
    assert s == s[..j] + s[j..];
    assert s[i] in multiset(s[..j]);
    assert s[j] in multiset(s[j..]);
  }

  /** The listed keywords are strictly increasing: sorted, and each appears once. */
  lemma ListedStrictlyIncreasing(kws: seq<string>, keys: set<string>)
    requires multiset(kws) == multiset(keys)
    requires Sorting.SortedBy(kws, StringLe)
    ensures forall i, j :: 0 <= i < j < |kws| ==> StringLe(kws[i], kws[j]) && kws[i] != kws[j]
  {
    forall i, j | 0 <= i < j < |kws| ensures kws[i] != kws[j] {
      RepeatCounts(kws, i, j);
    }
  }
}
