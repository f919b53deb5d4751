/** Listing the rows of a keyed table in ascending key order. */
module Tables {
  /** Every non-empty set of integers has a least element. */
  lemma {:induction false} MinimumExists(ks: set<int>)
    requires ks != {}
    ensures exists m :: m in ks && forall k :: k in ks ==> m <= k
  {
    if forall k :: k !in ks {
      assert false;
    }
    var x :| x in ks;
    if ks != {x} {
      MinimumExists(ks - {x});
      var m :| m in ks - {x} && forall k :: k in ks - {x} ==> m <= k;
      var least := if x < m then x else m;
      forall k | k in ks
        ensures least <= k
      {
        if k != x {
          assert k in ks - {x};
        }
      }
    } else {
      assert forall k :: k in ks ==> x <= k;
    }
  }

  /** The least key of a non-empty set of keys. */
  function Least(ks: set<int>): (m: int)
    requires ks != {}
    ensures m in ks && forall k :: k in ks ==> m <= k
  {
    MinimumExists(ks);
    var m :| m in ks && forall k :: k in ks ==> m <= k;
    m
  }

  /** The keys of a table in ascending order: the order in which the model lists rows. */
  function SortedKeys(ks: set<int>): (r: seq<int>)
    ensures |r| == |ks|
    ensures forall k :: k in ks <==> k in r
    ensures forall i, j :: 0 <= i < j < |r| ==> r[i] < r[j]
    decreases |ks|
  {
    if ks == {} then []
    else
      var m := Least(ks);
      var rest := SortedKeys(ks - {m});
      assert |ks - {m}| == |ks| - 1;
      assert forall i :: 0 <= i < |rest| ==> m < rest[i] by {
        forall i | 0 <= i < |rest|
          ensures m < rest[i]
        {
          assert rest[i] in ks - {m};
        }
      }
      PrependKeepsOrder(m, rest);
      [m] + rest
  }

  lemma PrependKeepsOrder(m: int, rest: seq<int>)
    requires forall i, j :: 0 <= i < j < |rest| ==> rest[i] < rest[j]
    requires forall i :: 0 <= i < |rest| ==> m < rest[i]
    ensures forall i, j :: 0 <= i < j < |[m] + rest| ==> ([m] + rest)[i] < ([m] + rest)[j]
  {
    var r := [m] + rest;
    forall i, j | 0 <= i < j < |r|
      ensures r[i] < r[j]
    {
      assert r[j] == rest[j - 1];
      if i > 0 {
        assert r[i] == rest[i - 1];
      }
    }
  }

  /** The rows stored under the given keys, in the order of the keys. */
  function Lookup<T>(table: map<int, T>, keys: seq<int>): (rows: seq<T>)
    requires forall i :: 0 <= i < |keys| ==> keys[i] in table
    ensures |rows| == |keys|
    ensures forall i :: 0 <= i < |keys| ==> rows[i] == table[keys[i]]
  {
    if keys == [] then [] else [table[keys[0]]] + Lookup(table, keys[1..])
  }

  /** All rows of a table, one per key, in ascending key order. */
  function Rows<T>(table: map<int, T>): (rows: seq<T>)
    ensures |rows| == |table|
    ensures forall i :: 0 <= i < |rows| ==>
      SortedKeys(table.Keys)[i] in table && rows[i] == table[SortedKeys(table.Keys)[i]]
    ensures forall k :: k in table ==> table[k] in rows
  {
    var keys := SortedKeys(table.Keys);
    var rows := Lookup(table, keys);
    forall k | k in table
      ensures table[k] in rows
    {
      assert k in keys;
      var i :| 0 <= i < |keys| && keys[i] == k;
      assert rows[i] == table[k];
    }
    rows
  }
}
