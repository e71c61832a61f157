/** Python's `dict(zip(keys, values))`, the way a record is built from a header and a row. */
module Dicts {

  function Min(a: nat, b: nat): nat
  {
    if a <= b then a else b
  }

  /** `zip(keys, vals)`: positional pairs, stopping at the end of the shorter list. */
  function Zip<K, V>(keys: seq<K>, vals: seq<V>): (ps: seq<(K, V)>)
    ensures |ps| == Min(|keys|, |vals|)
    ensures forall i :: 0 <= i < |ps| ==> ps[i] == (keys[i], vals[i])
  {
    if |keys| == 0 || |vals| == 0 then []
    else [(keys[0], vals[0])] + Zip(keys[1..], vals[1..])
  }

  /** `dict(pairs)`: pairs are inserted left to right, so a later pair overwrites an
      earlier one with the same key. */
  function DictOf<K, V>(ps: seq<(K, V)>): (m: map<K, V>)
    ensures m.Keys == set i | 0 <= i < |ps| :: ps[i].0
  {
    if |ps| == 0 then map[]
    else
      var init := DictOf(ps[..|ps| - 1]);
      assert forall i :: 0 <= i < |ps| - 1 ==> ps[..|ps| - 1][i] == ps[i];
      init[ps[|ps| - 1].0 := ps[|ps| - 1].1]
  }

  /** The value a key ends up with is the one of its last occurrence. */
  lemma {:induction false} DictOfLastWins<K, V>(ps: seq<(K, V)>, i: nat)
    requires i < |ps|
    requires forall j :: i < j < |ps| ==> ps[j].0 != ps[i].0
    ensures ps[i].0 in DictOf(ps) && DictOf(ps)[ps[i].0] == ps[i].1
  {
    if i < |ps| - 1 {
      var init := ps[..|ps| - 1];
      assert init[i] == ps[i];
      DictOfLastWins(init, i);
    }
  }

  /** `dict(zip(keys, vals))` */
  function ZipToMap<K, V>(keys: seq<K>, vals: seq<V>): (m: map<K, V>)
    ensures m.Keys == set i | 0 <= i < Min(|keys|, |vals|) :: keys[i]
  {
    var ps := Zip(keys, vals);
    assert forall i :: 0 <= i < |ps| ==> ps[i].0 == keys[i];
    DictOf(ps)
  }

  /** Each key paired with a value maps to the value at its last paired position: for a
      duplicate key the later value wins. */
  lemma ZipToMapAt<K, V>(keys: seq<K>, vals: seq<V>, i: nat)
    requires i < |keys| && i < |vals|
    requires forall j :: i < j < Min(|keys|, |vals|) ==> keys[j] != keys[i]
    ensures keys[i] in ZipToMap(keys, vals) && ZipToMap(keys, vals)[keys[i]] == vals[i]
  {
    DictOfLastWins(Zip(keys, vals), i);
  }

  ghost predicate Distinct<T>(s: seq<T>)
  {
    forall i, j :: 0 <= i < j < |s| ==> s[i] != s[j]
  }

  lemma {:induction false} DistinctCard<T>(s: seq<T>)
    requires Distinct(s)
    ensures |set i | 0 <= i < |s| :: s[i]| == |s|
  {
    if |s| > 0 {
      var init := s[..|s| - 1];
      DistinctCard(init);
      var a := set i | 0 <= i < |init| :: init[i];
      var b := set i | 0 <= i < |s| :: s[i];
      assert b == a + {s[|s| - 1]} by {
        forall x | x in b ensures x in a + {s[|s| - 1]} {
          var i :| 0 <= i < |s| && s[i] == x;
          if i < |s| - 1 { assert init[i] == x; }
        }
      }
      assert s[|s| - 1] !in a;
    }
  }

  /** A header of distinct names and a row of the same length give a record with exactly
      one entry per name, each holding the value at that name's position. */
  lemma ZipToMapPositional<K, V>(keys: seq<K>, vals: seq<V>)
    requires |keys| == |vals| && Distinct(keys)
    ensures |ZipToMap(keys, vals)| == |keys|
    ensures forall i :: 0 <= i < |keys| ==> keys[i] in ZipToMap(keys, vals) && ZipToMap(keys, vals)[keys[i]] == vals[i]
  {
    DistinctCard(keys);
    forall i | 0 <= i < |keys|
      ensures keys[i] in ZipToMap(keys, vals) && ZipToMap(keys, vals)[keys[i]] == vals[i]
    {
      ZipToMapAt(keys, vals, i);
    }
  }

  /** A repeated name keeps the value of its later position. */
  lemma DuplicateKeyExample()
    ensures ZipToMap(["a", "b", "a"], [1, 2, 3]) == map["a" := 3, "b" := 2]
  {
    var m := ZipToMap(["a", "b", "a"], [1, 2, 3]);
    ZipToMapAt(["a", "b", "a"], [1, 2, 3], 1);
    ZipToMapAt(["a", "b", "a"], [1, 2, 3], 2);
    assert m.Keys == {"a", "b"};
  }

  /** A short row leaves trailing names out; a long row's extra values are dropped. */
  lemma TruncationExample()
    ensures ZipToMap(["a", "b", "c"], [1]) == map["a" := 1]
    ensures ZipToMap(["a"], [1, 2, 3]) == map["a" := 1]
  {
    ZipToMapAt(["a", "b", "c"], [1], 0);
    ZipToMapAt(["a"], [1, 2, 3], 0);
  }
}
