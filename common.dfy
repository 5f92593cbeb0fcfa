/** cmd/common: positional arguments read with a default. */
module Common {
  /** Args.GetDefault: the argument at idx when there is one, def otherwise. */
  function GetDefault(a: seq<string>, idx: int, def: string): (r: string)
    ensures 0 <= idx < |a| ==> r == a[idx]
    ensures idx < 0 ==> r == def
    ensures idx >= |a| ==> r == def
  {
    if idx < 0 || idx >= |a| then def else a[idx]
  }

  /** Args.Get: a missing argument reads as "". */
  function Get(a: seq<string>, idx: int): (r: string)
    ensures r == GetDefault(a, idx, "")
  {
    GetDefault(a, idx, "")
  }

  /** Get tells a missing argument apart only when no argument is empty: then idx is in
      range exactly when Get returns something. */
  lemma GetPresent(a: seq<string>, idx: int)
    requires forall k :: 0 <= k < |a| ==> a[k] != ""
    ensures Get(a, idx) != "" <==> 0 <= idx < |a|
  {
  }
}
