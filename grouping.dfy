/** Ruby's `group_by` and `inject` grouping: items pushed, in order, onto the list stored under
    their key. */
module Grouping {
  import opened Values

  /** `row[column]` for every row, in order: the keys rows are grouped by, and the parent ids a
      child query is restricted to. */
  function ColumnValues(rows: seq<Row>, column: string): (r: seq<Value>)
    ensures |r| == |rows| && forall i :: 0 <= i < |rows| ==> r[i] == Get(rows[i], column)
  {
    seq(|rows|, i requires 0 <= i < |rows| => Get(rows[i], column))
  }

  /** The `inject` that pushes `vals[i]` onto `hash[keys[i]]` in order. */
  function GroupFold<T>(acc: map<Value, seq<T>>, keys: seq<Value>, vals: seq<T>): map<Value, seq<T>>
    requires |keys| == |vals|
    decreases |keys|
  {
    if |keys| == 0 then acc
    else
      var k := keys[0];
      GroupFold(acc[k := (if k in acc then acc[k] else []) + [vals[0]]], keys[1..], vals[1..])
  }

  /** Reference definition of a group: the items whose key is `k`, in input order. */
  function ItemsWithKey<T>(keys: seq<Value>, vals: seq<T>, k: Value): seq<T>
    requires |keys| == |vals|
    decreases |keys|
  {
    if |keys| == 0 then []
    else (if keys[0] == k then [vals[0]] else []) + ItemsWithKey(keys[1..], vals[1..], k)
  }

  /** The grouping fold appends each key's items to whatever the accumulator held for it. */
  lemma {:induction false} GroupFoldSpec<T(!new)>(acc: map<Value, seq<T>>, keys: seq<Value>, vals: seq<T>)
    requires |keys| == |vals|
    ensures forall k :: k in GroupFold(acc, keys, vals) <==> k in acc || k in keys
    ensures forall k :: k in GroupFold(acc, keys, vals) ==>
      GroupFold(acc, keys, vals)[k] == (if k in acc then acc[k] else []) + ItemsWithKey(keys, vals, k)
    decreases |keys|
  {
    if |keys| > 0 {
      var k0 := keys[0];
      var acc' := acc[k0 := (if k0 in acc then acc[k0] else []) + [vals[0]]];
      GroupFoldSpec(acc', keys[1..], vals[1..]);
      assert forall k :: k in keys <==> k == k0 || k in keys[1..];
    }
  }

  /** Membership in a group: an item is in the group of `k` exactly when some position holding it
      has key `k`. */
  lemma {:induction false} ItemsWithKeyMembers<T(!new)>(keys: seq<Value>, vals: seq<T>, k: Value)
    requires |keys| == |vals|
    ensures forall v :: v in ItemsWithKey(keys, vals, k) <==>
      exists i :: 0 <= i < |keys| && keys[i] == k && vals[i] == v
    decreases |keys|
  {
    if |keys| > 0 {
      ItemsWithKeyMembers(keys[1..], vals[1..], k);
      forall v ensures v in ItemsWithKey(keys, vals, k) <==>
        exists i :: 0 <= i < |keys| && keys[i] == k && vals[i] == v
      {
        if v in ItemsWithKey(keys[1..], vals[1..], k) {
          var i :| 0 <= i < |keys[1..]| && keys[1..][i] == k && vals[1..][i] == v;
          assert keys[i + 1] == k && vals[i + 1] == v;
        }
        if exists i :: 0 <= i < |keys| && keys[i] == k && vals[i] == v {
          var i :| 0 <= i < |keys| && keys[i] == k && vals[i] == v;
          if i > 0 {
            assert keys[1..][i - 1] == k && vals[1..][i - 1] == v;
          }
        }
      }
    }
  }

  /** The multiset union of the groups named by `ks`. */
  function GroupsUnion<T>(ks: seq<Value>, keys: seq<Value>, vals: seq<T>): multiset<T>
    requires |keys| == |vals|
    decreases |ks|
  {
    if |ks| == 0 then multiset{} else multiset(ItemsWithKey(keys, vals, ks[0])) + GroupsUnion(ks[1..], keys, vals)
  }

  lemma {:induction false} GroupsUnionStep<T(!new)>(ks: seq<Value>, keys: seq<Value>, vals: seq<T>)
    requires |keys| == |vals| > 0 && NoDup(ks)
    ensures GroupsUnion(ks, keys, vals) ==
      (if keys[0] in ks then multiset{vals[0]} else multiset{}) + GroupsUnion(ks, keys[1..], vals[1..])
    decreases |ks|
  {
    if |ks| > 0 {
      assert NoDup(ks[1..]) by {
        assert forall i, j :: 0 <= i < j < |ks[1..]| ==> ks[1..][i] == ks[i + 1] && ks[1..][j] == ks[j + 1];
      }
      GroupsUnionStep(ks[1..], keys, vals);
      assert forall k :: k in ks <==> k == ks[0] || k in ks[1..];
      if ks[0] == keys[0] {
        assert keys[0] !in ks[1..] by {
          assert forall j :: 0 <= j < |ks[1..]| ==> ks[1..][j] == ks[j + 1];
        }
      }
    }
  }

  /** Grouping loses and invents nothing: over any duplicate-free list of keys that covers every
      item's key, the groups together hold exactly the input items. */
  lemma {:induction false} GroupsPartition<T(!new)>(ks: seq<Value>, keys: seq<Value>, vals: seq<T>)
    requires |keys| == |vals| && NoDup(ks) && forall k :: k in keys ==> k in ks
    ensures GroupsUnion(ks, keys, vals) == multiset(vals)
    decreases |keys|
  {
    if |keys| == 0 {
      GroupsUnionEmpty(ks, keys, vals);
    } else {
      GroupsUnionStep(ks, keys, vals);
      assert keys[0] in keys;
      forall k | k in keys[1..] ensures k in ks {
        assert k in keys;
      }
      GroupsPartition(ks, keys[1..], vals[1..]);
      MultisetSplit(vals);
    }
  }

  lemma MultisetSplit<T>(vals: seq<T>)
    requires |vals| > 0
    ensures multiset(vals) == multiset{vals[0]} + multiset(vals[1..])
  {
    assert vals == [vals[0]] + vals[1..];
  }

  lemma {:induction false} GroupsUnionEmpty<T(!new)>(ks: seq<Value>, keys: seq<Value>, vals: seq<T>)
    requires |keys| == |vals| == 0
    ensures GroupsUnion(ks, keys, vals) == multiset{}
    decreases |ks|
  {
    if |ks| > 0 {
      GroupsUnionEmpty(ks[1..], keys, vals);
    }
  }

  /** The `inject` that stores `hash[keys[i]] = vals[i]` in order: the last write per key wins. */
  function LastWins<T>(acc: map<Value, T>, keys: seq<Value>, vals: seq<T>): map<Value, T>
    requires |keys| == |vals|
    decreases |keys|
  {
    if |keys| == 0 then acc else LastWins(acc[keys[0] := vals[0]], keys[1..], vals[1..])
  }

  /** Last write wins: the keys are exactly those written or already present, a written key holds
      the value of its last write, and an unwritten key keeps its old value. */
  lemma {:induction false} LastWinsSpec<T(!new)>(acc: map<Value, T>, keys: seq<Value>, vals: seq<T>)
    requires |keys| == |vals|
    ensures forall k :: k in LastWins(acc, keys, vals) <==> k in acc || k in keys
    ensures forall i :: 0 <= i < |keys| && (forall j :: i < j < |keys| ==> keys[j] != keys[i]) ==>
      LastWins(acc, keys, vals)[keys[i]] == vals[i]
    ensures forall k :: k in acc && k !in keys ==> LastWins(acc, keys, vals)[k] == acc[k]
    decreases |keys|
  {
    if |keys| > 0 {
      var acc' := acc[keys[0] := vals[0]];
      LastWinsSpec(acc', keys[1..], vals[1..]);
      assert forall k :: k in keys <==> k == keys[0] || k in keys[1..];
      forall i | 0 <= i < |keys| && (forall j :: i < j < |keys| ==> keys[j] != keys[i])
        ensures keys[i] in LastWins(acc, keys, vals) && LastWins(acc, keys, vals)[keys[i]] == vals[i]
      {
        if i > 0 {
          assert keys[i] == keys[1..][i - 1] && vals[i] == vals[1..][i - 1];
          assert forall j :: i - 1 < j < |keys[1..]| ==> keys[1..][j] == keys[j + 1];
        } else {
          assert forall j :: 0 <= j < |keys[1..]| ==> keys[1..][j] == keys[j + 1];
          assert keys[0] !in keys[1..];
        }
      }
    }
  }
}
