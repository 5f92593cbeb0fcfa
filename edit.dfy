/** pkg/term/edit.go: letting the user pick and reorder items in an editor. The editor is
    seeded with one key per line; the edited lines that are not blank must be known keys,
    and each key picks its item once, in the order of the edited lines. Running the editor
    on a temporary file is a parameter from the seed to the edited text or its error. */
module Edit {
  import opened Wrappers
  import opened GoStrings
  import opened Errors
  import opened Seqs

  /** The text the editor starts with: the keys in input order, one per line. */
  function Seed<T>(items: seq<T>, getKey: T -> string): string {
    Join(Map(items, getKey), "\n")
  }

  /** The item map of EditItems: each key to the last item having it. */
  function KeyMap<T>(items: seq<T>, getKey: T -> string): (m: map<string, T>)
    ensures forall k :: k in m ==> getKey(m[k]) == k
    ensures forall k :: k in m ==> m[k] in items
    ensures forall i :: 0 <= i < |items| ==> getKey(items[i]) in m
  {
    if items == [] then map[]
    else
      var init := items[..|items| - 1];
      var m := KeyMap(init, getKey);
      assert forall i :: 0 <= i < |init| ==> init[i] == items[i];
      m[getKey(items[|items| - 1]) := items[|items| - 1]]
  }

  lemma KeyMapSnoc<T>(items: seq<T>, x: T, getKey: T -> string)
    ensures KeyMap(items + [x], getKey) == KeyMap(items, getKey)[getKey(x) := x]
  {
    assert (items + [x])[..|items|] == items;
  }

  /** The edited lines, each trimmed. */
  function Trimmed(lines: seq<string>): seq<string> {
    Map(lines, TrimSpace)
  }

  /** The keys the trimmed edited lines pick, in order, or the error for the first line
      naming no item. */
  function Pick<T>(names: seq<string>, m: map<string, T>): (r: Result<seq<string>, Error>)
    ensures r.Ok? ==> forall k :: k in r.value ==> k in m
  {
    if names == [] then Ok([])
    else
      var prev := Pick(names[..|names| - 1], m);
      var name := names[|names| - 1];
      if prev.Err? || name == "" then prev
      else if name !in m then Err(Plain("edit: cannot find item " + Quote(name)))
      else if name in prev.value then prev
      else Ok(prev.value + [name])
  }

  /** The items the picked keys stand for. */
  function ItemsOf<T>(keys: seq<string>, m: map<string, T>): (r: seq<T>)
    requires forall k :: k in keys ==> k in m
    ensures |r| == |keys|
    ensures forall i :: 0 <= i < |keys| ==> r[i] == m[keys[i]]
  {
    if keys == [] then [] else ItemsOf(keys[..|keys| - 1], m) + [m[keys[|keys| - 1]]]
  }

  /** What EditItems returns: the editor's error, the first unknown line's error, an error
      when every line was blanked, or the picked items in the edited order. */
  function Edited<T>(items: seq<T>, getKey: T -> string, edit: string -> Result<string, Error>): Result<seq<T>, Error> {
    var m := KeyMap(items, getKey);
    match edit(Seed(items, getKey))
    case Err(e) => Err(e)
    case Ok(content) =>
      match Pick(Trimmed(Split(content, '\n')), m)
      case Err(e) => Err(e)
      case Ok(keys) => if keys == [] then Err(Plain("nothing to do after editing")) else Ok(ItemsOf(keys, m))
  }

  /** EditItems */
  method EditItems<T(==)>(items: seq<T>, getKey: T -> string, edit: string -> Result<string, Error>)
    returns (r: Result<seq<T>, Error>)
    ensures r == Edited(items, getKey, edit)
    ensures r.Ok? ==> |r.value| > 0 && forall x :: x in r.value ==> x in items
  {
    var lines, itemMap := IndexItems(items, getKey);
    var content :- edit(Join(lines, "\n"));
    var edited := PickItems(Split(content, '\n'), itemMap);
    if edited.Err? {
      return edited;
    }
    if |edited.value| == 0 {
      return Err(Plain("nothing to do after editing"));
    }
    assert forall x :: x in edited.value ==> x in items by {
      forall x | x in edited.value
        ensures x in items
      {
        var i :| 0 <= i < |edited.value| && edited.value[i] == x;
        var k := Pick(Trimmed(Split(content, '\n')), itemMap).value[i];
        assert k in itemMap;
      }
    }
    return edited;
  }

  /** The first loop of EditItems: the key of every item, and the item map. */
  method IndexItems<T>(items: seq<T>, getKey: T -> string) returns (lines: seq<string>, itemMap: map<string, T>)
    ensures lines == Map(items, getKey) && itemMap == KeyMap(items, getKey)
  {
    lines := [];
    itemMap := map[];
    for i := 0 to |items|
      invariant lines == Map(items[..i], getKey) && itemMap == KeyMap(items[..i], getKey)
    {
      assert items[..i + 1] == items[..i] + [items[i]];
      Seqs.MapSnoc(items[..i], items[i], getKey);
      KeyMapSnoc(items[..i], items[i], getKey);
      var key := getKey(items[i]);
      lines := lines + [key];
      itemMap := itemMap[key := items[i]];
    }
    assert items[..|items|] == items;
  }

  /** The second loop of EditItems: trims each edited line, skips blank ones and keys already
      picked, and fails on an unknown key. */
  method PickItems<T>(lines: seq<string>, itemMap: map<string, T>) returns (r: Result<seq<T>, Error>)
    ensures Pick(Trimmed(lines), itemMap).Err? ==> r == Err(Pick(Trimmed(lines), itemMap).error)
    ensures Pick(Trimmed(lines), itemMap).Ok? ==> r == Ok(ItemsOf(Pick(Trimmed(lines), itemMap).value, itemMap))
  {
    ghost var names := Trimmed(lines);
    assert |names| == |lines|;
    var editedItems: seq<T> := [];
    var picked: set<string> := {};
    for i := 0 to |lines|
      invariant Pick(names[..i], itemMap).Ok?
      invariant editedItems == ItemsOf(Pick(names[..i], itemMap).value, itemMap)
      invariant forall k :: k in picked <==> k in Pick(names[..i], itemMap).value
    {
      var name := TrimSpace(lines[i]);
      assert name == names[i];
      PickStep(names, itemMap, i);
      if name == "" {
        continue;
      }
      if name !in itemMap {
        PickErrPersists(names, itemMap, i + 1);
        return Err(Plain("edit: cannot find item " + Quote(name)));
      }
      if name in picked {
        continue;
      }
      editedItems := editedItems + [itemMap[name]];
      picked := picked + {name};
    }
    assert names[..|names|] == names;
    return Ok(editedItems);
  }

  /** One more line: Pick on a prefix one line longer. */
  lemma PickStep<T>(names: seq<string>, m: map<string, T>, i: nat)
    requires i < |names|
    ensures var prev := Pick(names[..i], m);
      Pick(names[..i + 1], m) ==
        if prev.Err? || names[i] == "" then prev
        else if names[i] !in m then Err(Plain("edit: cannot find item " + Quote(names[i])))
        else if names[i] in prev.value then prev
        else Ok(prev.value + [names[i]])
  {
    assert names[..i + 1][..i] == names[..i];
  }

  // ---------------------------------------------------------------------------------------

  /** Once a line names no item, no later line changes the outcome. */
  lemma {:induction false} PickErrPersists<T>(names: seq<string>, m: map<string, T>, n: nat)
    requires n <= |names| && Pick(names[..n], m).Err?
    ensures Pick(names, m) == Pick(names[..n], m)
    decreases |names| - n
  {
    if n < |names| {
      assert names[..n + 1][..n] == names[..n];
      PickErrPersists(names, m, n + 1);
    } else {
      assert names[..n] == names;
    }
  }

  predicate NotBlank(s: string) { s != "" }

  /** names[i] is the first name that is not blank and names no item. */
  predicate FirstUnknown<T>(names: seq<string>, m: map<string, T>, i: int) {
    && 0 <= i < |names|
    && names[i] != "" && names[i] !in m
    && forall k :: 0 <= k < i && names[k] != "" ==> names[k] in m
  }

  /** names[i] is the first unknown name, and e the error that names it. */
  predicate UnknownError<T>(names: seq<string>, m: map<string, T>, i: int, e: Error) {
    FirstUnknown(names, m, i) && e == Plain("edit: cannot find item " + Quote(names[i]))
  }

  /** Picking succeeds exactly when every non-blank name is a key; it then keeps the first
      occurrence of each name, in the order of the lines; otherwise it reports the first
      name that is no key. */
  lemma PickMeaning<T>(names: seq<string>, m: map<string, T>)
    ensures Pick(names, m).Ok? <==> forall k :: 0 <= k < |names| && names[k] != "" ==> names[k] in m
    ensures Pick(names, m).Ok? ==> Pick(names, m).value == Dedup(Filter(names, NotBlank))
    ensures Pick(names, m).Err? ==> exists i :: UnknownError(names, m, i, Pick(names, m).error)
  {
    PickOkIff(names, m);
    PickValue(names, m);
    PickErr(names, m);
  }

  lemma {:induction false} PickOkIff<T>(names: seq<string>, m: map<string, T>)
    ensures Pick(names, m).Ok? <==> forall k :: 0 <= k < |names| && names[k] != "" ==> names[k] in m
  {
    if names != [] {
      var init := names[..|names| - 1];
      PickOkIff(init, m);
      assert forall k :: 0 <= k < |init| ==> init[k] == names[k];
    }
  }

  lemma {:induction false} PickValue<T>(names: seq<string>, m: map<string, T>)
    ensures Pick(names, m).Ok? ==> Pick(names, m).value == Dedup(Filter(names, NotBlank))
  {
    if names != [] {
      var init := names[..|names| - 1];
      var last := names[|names| - 1];
      PickValue(init, m);
      assert names == init + [last];
      FilterSnoc(init, last, NotBlank);
      if Pick(init, m).Ok? && last != "" {
        DedupSnoc(Filter(init, NotBlank), last);
      }
    }
  }

  lemma {:induction false} PickErr<T>(names: seq<string>, m: map<string, T>)
    ensures Pick(names, m).Err? ==> exists i :: UnknownError(names, m, i, Pick(names, m).error)
  {
    if names != [] {
      var init := names[..|names| - 1];
      var last := names[|names| - 1];
      PickErr(init, m);
      if Pick(init, m).Err? {
        var i :| UnknownError(init, m, i, Pick(init, m).error);
        assert init[i] == names[i];
        assert forall k :: 0 <= k < i ==> init[k] == names[k];
        assert UnknownError(names, m, i, Pick(names, m).error);
      } else if last != "" && last !in m {
        PickOkIff(init, m);
        assert forall k :: 0 <= k < |init| ==> init[k] == names[k];
        assert UnknownError(names, m, |names| - 1, Pick(names, m).error);
      }
    }
  }

  /** Every item EditItems returns is one of its inputs, picked by its own key. */
  lemma PickedItemsAreInputs<T>(items: seq<T>, getKey: T -> string, keys: seq<string>)
    requires forall k :: k in keys ==> k in KeyMap(items, getKey)
    ensures forall i :: 0 <= i < |keys| ==>
      var x := ItemsOf(keys, KeyMap(items, getKey))[i];
      getKey(x) == keys[i] && x in items
  {
    var m := KeyMap(items, getKey);
    forall i | 0 <= i < |keys|
      ensures getKey(ItemsOf(keys, m)[i]) == keys[i] && ItemsOf(keys, m)[i] in items
    {
      assert keys[i] in keys;
    }
  }

  /** Saving the seed unchanged picks every item, in input order, when the keys are
      distinct, not blank, neither start nor end with white space and hold no line break. */
  lemma UnchangedEditKeepsItems<T>(items: seq<T>, getKey: T -> string)
    requires |items| >= 1
    requires forall i :: 0 <= i < |items| ==> getKey(items[i]) != "" && Unpadded(getKey(items[i]))
    requires forall i :: 0 <= i < |items| ==> '\n' !in getKey(items[i])
    requires forall i, j :: 0 <= i < j < |items| ==> getKey(items[i]) != getKey(items[j])
    ensures Pick(Trimmed(Split(Seed(items, getKey), '\n')), KeyMap(items, getKey)) == Ok(Map(items, getKey))
    ensures ItemsOf(Map(items, getKey), KeyMap(items, getKey)) == items
  {
    SeedLines(items, getKey);
    SeedPicksAll(items, getKey);
    ItemsOfOwnKeys(items, getKey);
  }

  /** Distinct keys that are not blank pick themselves, in order. */
  lemma SeedPicksAll<T>(items: seq<T>, getKey: T -> string)
    requires forall i :: 0 <= i < |items| ==> getKey(items[i]) != ""
    requires forall i, j :: 0 <= i < j < |items| ==> getKey(items[i]) != getKey(items[j])
    ensures Pick(Map(items, getKey), KeyMap(items, getKey)) == Ok(Map(items, getKey))
  {
    var keys := Map(items, getKey);
    var m := KeyMap(items, getKey);
    assert forall i :: 0 <= i < |keys| ==> keys[i] == getKey(items[i]);
    PickDistinct(keys, m);
  }

  /** With distinct keys, the items their keys stand for are the items. */
  lemma ItemsOfOwnKeys<T>(items: seq<T>, getKey: T -> string)
    requires forall i, j :: 0 <= i < j < |items| ==> getKey(items[i]) != getKey(items[j])
    ensures ItemsOf(Map(items, getKey), KeyMap(items, getKey)) == items
  {
    KeyMapDistinct(items, getKey);
  }

  /** The seed, split and trimmed, gives back the keys when they are trimmed and hold no
      line break. */
  lemma SeedLines<T>(items: seq<T>, getKey: T -> string)
    requires |items| >= 1
    requires forall i :: 0 <= i < |items| ==> Unpadded(getKey(items[i]))
    requires forall i :: 0 <= i < |items| ==> '\n' !in getKey(items[i])
    ensures Trimmed(Split(Seed(items, getKey), '\n')) == Map(items, getKey)
  {
    var keys := Map(items, getKey);
    SplitOfJoin(keys, '\n');
    forall i | 0 <= i < |keys|
      ensures TrimSpace(keys[i]) == keys[i]
    {
      TrimSpaceUnpadded(keys[i]);
    }
    assert Trimmed(keys) == keys;
  }

  /** Distinct known keys are all picked, in order. */
  lemma {:induction false} PickDistinct<T>(keys: seq<string>, m: map<string, T>)
    requires forall i :: 0 <= i < |keys| ==> keys[i] != "" && keys[i] in m
    requires forall i, j :: 0 <= i < j < |keys| ==> keys[i] != keys[j]
    ensures Pick(keys, m) == Ok(keys)
  {
    if keys != [] {
      var init := keys[..|keys| - 1];
      PickDistinct(init, m);
      assert keys[|keys| - 1] !in init;
      assert init + [keys[|keys| - 1]] == keys;
    }
  }

  /** With distinct keys, each key maps back to its own item. */
  lemma {:induction false} KeyMapDistinct<T>(items: seq<T>, getKey: T -> string)
    requires forall i, j :: 0 <= i < j < |items| ==> getKey(items[i]) != getKey(items[j])
    ensures forall i :: 0 <= i < |items| ==> KeyMap(items, getKey)[getKey(items[i])] == items[i]
  {
    if items != [] {
      var init := items[..|items| - 1];
      KeyMapDistinct(init, getKey);
      assert forall i :: 0 <= i < |init| ==> init[i] == items[i];
    }
  }
}
