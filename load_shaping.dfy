/** The result shaping shared by `Loader.load` and `Loaded.load`: what a loader's raw result becomes
    under the `group_by`/`one`, `array_to_hash` (`from: :array`) options, each an `inject({})` fold
    over `Array(results)`. */
module LoadShaping {
  import opened Values
  import opened Grouping

  /** Which shaping the options select. */
  datatype ShapeMode =
    | GroupOne(groupBy: Value)    // `group_by` with `one`: key => last item
    | GroupMany(groupBy: Value)   // `group_by` alone: key => items
    | PairsToHash                 // `array_to_hash` / `from: :array`: r[0] => r[1]
    | AsIs                        // no shaping option

  /** The group key of one item: `r[group_by]` when the first item was a Hash, else
      `r.send(group_by)`, which needs a Symbol or String method name. */
  function GroupKey(r: Value, byIndex: bool, groupBy: Value): Result<Value> {
    if byIndex then Index(r, groupBy)
    else match groupBy
      case Sym(n) => Send(r, n)
      case Str(n) => Send(r, n)
      case _ => Err(TypeError("is not a symbol nor a string"))
  }

  /** The keys of all items in order, or the first item's error. */
  function KeysOf(items: seq<Value>, byIndex: bool, groupBy: Value): (r: Result<seq<Value>>)
    ensures r.Ok? <==> forall i :: 0 <= i < |items| ==> GroupKey(items[i], byIndex, groupBy).Ok?
    ensures r.Ok? ==>
      |r.value| == |items| && forall i :: 0 <= i < |items| ==> r.value[i] == GroupKey(items[i], byIndex, groupBy).value
  {
    if |items| == 0 then Ok([])
    else
      var k :- GroupKey(items[0], byIndex, groupBy);
      var rest :- KeysOf(items[1..], byIndex, groupBy);
      assert forall i :: 1 <= i < |items| ==> items[i] == items[1..][i - 1];
      Ok([k] + rest)
  }

  /** `hash[r[0]] = r[1]` for every pair: the keys and the values in order, or the first error. */
  function PairsOf(items: seq<Value>): (r: Result<(seq<Value>, seq<Value>)>)
    ensures r.Ok? ==>
      |r.value.0| == |items| == |r.value.1| &&
      forall i :: 0 <= i < |items| ==> Index(items[i], Int(0)) == Ok(r.value.0[i]) && Index(items[i], Int(1)) == Ok(r.value.1[i])
    ensures r.Err? ==> exists i :: 0 <= i < |items| && (Index(items[i], Int(0)).Err? || Index(items[i], Int(1)).Err?)
  {
    if |items| == 0 then Ok(([], []))
    else
      var k :- Index(items[0], Int(0));
      var v :- Index(items[0], Int(1));
      var rest :- PairsOf(items[1..]);
      assert forall i :: 1 <= i < |items| ==> items[i] == items[1..][i - 1];
      Ok(([k] + rest.0, [v] + rest.1))
  }

  /** The shaped result. Items come from `Array(results)`; the key is read with `[]` when the first
      item is a Hash. */
  function Shape(results: Value, mode: ShapeMode): Result<Value> {
    match mode
    case AsIs => Ok(results)
    case PairsToHash =>
      var pairs :- PairsOf(ArrayOf(results));
      Ok(Hash(LastWins(map[], pairs.0, pairs.1)))
    case GroupOne(g) =>
      var items := ArrayOf(results);
      var keys :- KeysOf(items, ByIndex(items), g);
      Ok(Hash(LastWins(map[], keys, items)))
    case GroupMany(g) =>
      var items := ArrayOf(results);
      var keys :- KeysOf(items, ByIndex(items), g);
      Ok(Hash(GroupLists(keys, items)))
  }

  /** `results.first && results.first.kind_of?(Hash)`. */
  predicate ByIndex(items: seq<Value>) {
    |items| > 0 && items[0].Hash?
  }

  /** `group_by` with `one` succeeds exactly when every item's key can be read; the hash then has
      exactly the keys read, and each key holds the LAST item that has it. */
  lemma ShapeGroupOneSpec(results: Value, g: Value)
    ensures var items := ArrayOf(results);
      Shape(results, GroupOne(g)).Ok? <==> forall i :: 0 <= i < |items| ==> GroupKey(items[i], ByIndex(items), g).Ok?
    ensures var items := ArrayOf(results);
      var keys := KeysOf(items, ByIndex(items), g);
      var r := Shape(results, GroupOne(g));
      r.Ok? ==>
        keys.Ok? && r.value.Hash? && (forall k :: k in r.value.entries <==> k in keys.value) &&
        forall i :: 0 <= i < |items| && (forall j :: i < j < |items| ==> keys.value[j] != keys.value[i]) ==>
          r.value.entries[keys.value[i]] == items[i]
  {
    var items := ArrayOf(results);
    var keys := KeysOf(items, ByIndex(items), g);
    if keys.Ok? {
      LastWinsSpec(map[], keys.value, items);
    }
  }

  /** The map `group_by` alone builds from the keys. */
  function GroupLists(keys: seq<Value>, items: seq<Value>): map<Value, Value>
    requires |keys| == |items|
  {
    var groups := GroupFold(map[], keys, items);
    map k | k in groups :: List(groups[k])
  }

  /** `group_by` alone succeeds exactly when every item's key can be read; the hash then has exactly
      the keys read, and each key holds the list of the items that have it, in input order. */
  lemma ShapeGroupManySpec(results: Value, g: Value)
    ensures var items := ArrayOf(results);
      Shape(results, GroupMany(g)).Ok? <==> forall i :: 0 <= i < |items| ==> GroupKey(items[i], ByIndex(items), g).Ok?
    ensures var items := ArrayOf(results);
      var keys := KeysOf(items, ByIndex(items), g);
      var r := Shape(results, GroupMany(g));
      r.Ok? ==>
        keys.Ok? && r.value.Hash? && (forall k :: k in r.value.entries <==> k in keys.value) &&
        forall k :: k in r.value.entries ==> r.value.entries[k] == List(ItemsWithKey(keys.value, items, k))
  {
    var items := ArrayOf(results);
    var keys := KeysOf(items, ByIndex(items), g);
    if keys.Ok? {
      GroupListsSpec(keys.value, items);
    }
  }

  /** The grouped map's keys are the items' keys, and each maps to the list of the items having
      that key in input order. */
  lemma GroupListsSpec(keys: seq<Value>, items: seq<Value>)
    requires |keys| == |items|
    ensures forall k :: k in GroupLists(keys, items) <==> k in keys
    ensures forall k :: k in GroupLists(keys, items) ==> GroupLists(keys, items)[k] == List(ItemsWithKey(keys, items, k))
  {
    GroupFoldSpec(map[], keys, items);
  }

  /** The groups, taken in first-appearance order of their keys (a Ruby Hash's order), are a
      permutation of the input. */
  lemma GroupListsPermutation(keys: seq<Value>, items: seq<Value>)
    requires |keys| == |items|
    ensures GroupsUnion(Uniq(keys), keys, items) == multiset(items)
  {
    GroupsPartition(Uniq(keys), keys, items);
  }

  /** `array_to_hash` / `from: :array` succeeds exactly when every item answers `[0]` and `[1]`; the
      hash then has exactly the first elements as keys, and each key holds the second element of
      the LAST pair with that first element. */
  lemma ShapePairsSpec(results: Value)
    ensures var items := ArrayOf(results);
      Shape(results, PairsToHash).Ok? <==>
        forall i :: 0 <= i < |items| ==> Index(items[i], Int(0)).Ok? && Index(items[i], Int(1)).Ok?
    ensures var items := ArrayOf(results);
      var r := Shape(results, PairsToHash);
      r.Ok? ==>
        r.value.Hash? &&
        (forall i :: 0 <= i < |items| ==> Index(items[i], Int(0)).value in r.value.entries) &&
        (forall k :: k in r.value.entries ==> exists i :: 0 <= i < |items| && Index(items[i], Int(0)) == Ok(k)) &&
        forall i :: 0 <= i < |items| && (forall j :: i < j < |items| ==> Index(items[j], Int(0)) != Index(items[i], Int(0))) ==>
          r.value.entries[Index(items[i], Int(0)).value] == Index(items[i], Int(1)).value
  {
    var items := ArrayOf(results);
    var pairs := PairsOf(items);
    if pairs.Ok? {
      PairsHashKeys(items, pairs.value.0, pairs.value.1);
      PairsHashLast(items, pairs.value.0, pairs.value.1);
    }
  }

  /** The keys of the hash built from pairs whose first and second elements are `keys` and `vals`
      are exactly the first elements. */
  lemma PairsHashKeys(items: seq<Value>, keys: seq<Value>, vals: seq<Value>)
    requires |keys| == |items| == |vals|
    requires forall i :: 0 <= i < |items| ==> Index(items[i], Int(0)) == Ok(keys[i])
    ensures forall i :: 0 <= i < |items| ==> Index(items[i], Int(0)).value in LastWins(map[], keys, vals)
    ensures forall k :: k in LastWins(map[], keys, vals) ==> exists i :: 0 <= i < |items| && Index(items[i], Int(0)) == Ok(k)
  {
    LastWinsSpec(map[], keys, vals);
    forall k | k in LastWins(map[], keys, vals)
      ensures exists i :: 0 <= i < |items| && Index(items[i], Int(0)) == Ok(k)
    {
      var i :| 0 <= i < |keys| && keys[i] == k;
    }
  }

  /** Each first element holds the second element of the last pair that has it. */
  lemma PairsHashLast(items: seq<Value>, keys: seq<Value>, vals: seq<Value>)
    requires |keys| == |items| == |vals|
    requires forall i :: 0 <= i < |items| ==> Index(items[i], Int(0)) == Ok(keys[i]) && Index(items[i], Int(1)) == Ok(vals[i])
    ensures forall i :: 0 <= i < |items| && (forall j :: i < j < |items| ==> Index(items[j], Int(0)) != Index(items[i], Int(0))) ==>
      Index(items[i], Int(0)).value in LastWins(map[], keys, vals) &&
      LastWins(map[], keys, vals)[Index(items[i], Int(0)).value] == Index(items[i], Int(1)).value
  {
    LastWinsSpec(map[], keys, vals);
    forall i | 0 <= i < |items| && (forall j :: i < j < |items| ==> Index(items[j], Int(0)) != Index(items[i], Int(0)))
      ensures keys[i] in LastWins(map[], keys, vals) && LastWins(map[], keys, vals)[keys[i]] == vals[i]
    {
      assert forall j :: i < j < |keys| ==> keys[j] != keys[i];
    }
  }

  /** A String item is a pair too: `"ab"[0]` and `"ab"[1]` make the entry `"a" => "b"`. */
  lemma StringPairSplits()
    ensures Shape(List([Str("ab")]), PairsToHash) == Ok(Hash(map[Str("a") := Str("b")]))
  {
    var items := [Str("ab")];
    assert Index(items[0], Int(0)) == Ok(Str("a")) && Index(items[0], Int(1)) == Ok(Str("b"));
    var pairs := PairsOf(items);
    assert pairs.Ok?;
    assert pairs.value.0 == [Str("a")] && pairs.value.1 == [Str("b")];
  }

  /** With no shaping option the raw result is returned unchanged, whatever it is. */
  lemma ShapeAsIsSpec(results: Value)
    ensures Shape(results, AsIs) == Ok(results)
  {
  }
}
