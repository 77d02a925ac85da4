/** Python's `dict` (and `OrderedDict`): a finite map that remembers the order in which keys
    were first inserted. Assigning to a key that is already present replaces the value and
    keeps the key where it was; a new key goes to the end. */
module PyDict {

  datatype Dict<K, V> = Dict(order: seq<K>, entries: map<K, V>)

  /** The insertion order lists every key exactly once. */
  ghost predicate Valid<K, V>(d: Dict<K, V>) {
    && (forall i, j | 0 <= i < j < |d.order| :: d.order[i] != d.order[j])
    && d.entries.Keys == set k | k in d.order
  }

  function Empty<K, V>(): (d: Dict<K, V>)
    ensures Valid(d)
    ensures d.entries == map[] && d.order == []
  {
    Dict([], map[])
  }

  /** `d[k] = v`. */
  function Put<K, V>(d: Dict<K, V>, k: K, v: V): (r: Dict<K, V>)
    requires Valid(d)
    ensures Valid(r)
    ensures r.entries == d.entries[k := v]
    ensures k in d.entries ==> r.order == d.order
    ensures k !in d.entries ==> r.order == d.order + [k]
  {
    if k in d.entries then Dict(d.order, d.entries[k := v])
    else Dict(d.order + [k], d.entries[k := v])
  }

  /** `for k, v in kvs: d[k] = v`, left to right. */
  function PutAll<K, V>(d: Dict<K, V>, kvs: seq<(K, V)>): (r: Dict<K, V>)
    requires Valid(d)
    ensures Valid(r)
    decreases |kvs|
  {
    if |kvs| == 0 then d
    else Put(PutAll(d, kvs[..|kvs| - 1]), kvs[|kvs| - 1].0, kvs[|kvs| - 1].1)
  }

  /** Some pair of `kvs` writes key `k`. */
  ghost predicate Writes<K, V>(kvs: seq<(K, V)>, k: K) {
    exists i | 0 <= i < |kvs| :: kvs[i].0 == k
  }

  /** A key is written by a sequence of pairs exactly when it is written before the last pair
      or by it. */
  lemma WritesSnoc<K, V>(kvs: seq<(K, V)>, k: K)
    requires |kvs| > 0
    ensures Writes(kvs, k) <==> Writes(kvs[..|kvs| - 1], k) || kvs[|kvs| - 1].0 == k
  {
    var n := |kvs| - 1;
    if Writes(kvs, k) && kvs[n].0 != k {
      var i :| 0 <= i < |kvs| && kvs[i].0 == k;
      assert kvs[..n][i] == kvs[i];
    }
    if Writes(kvs[..n], k) {
      var i :| 0 <= i < n && kvs[..n][i].0 == k;
      assert kvs[i].0 == k;
    }
  }

  /** The keys after `PutAll` are the old keys and the keys written. */
  lemma {:induction false} PutAllKeys<K, V>(d: Dict<K, V>, kvs: seq<(K, V)>)
    requires Valid(d)
    ensures forall k :: k in PutAll(d, kvs).entries <==> (k in d.entries || Writes(kvs, k))
    decreases |kvs|
  {
    if |kvs| > 0 {
      var n := |kvs| - 1;
      PutAllKeys(d, kvs[..n]);
      forall k
        ensures k in PutAll(d, kvs).entries <==> (k in d.entries || Writes(kvs, k))
      {
        WritesSnoc(kvs, k);
      }
    }
  }

  /** The value under a key is the one written last to it. */
  lemma {:induction false} PutAllLastWins<K, V>(d: Dict<K, V>, kvs: seq<(K, V)>, i: nat)
    requires Valid(d)
    requires i < |kvs|
    requires forall j | i < j < |kvs| :: kvs[j].0 != kvs[i].0
    ensures kvs[i].0 in PutAll(d, kvs).entries
    ensures PutAll(d, kvs).entries[kvs[i].0] == kvs[i].1
    decreases |kvs|
  {
    var n := |kvs| - 1;
    if i < n {
      assert kvs[..n][i] == kvs[i];
      forall j | i < j < n
        ensures kvs[..n][j].0 != kvs[..n][i].0
      {
        assert kvs[..n][j] == kvs[j];
      }
      PutAllLastWins(d, kvs[..n], i);
    }
  }

  /** A key nobody writes keeps its old value. */
  lemma {:induction false} PutAllUntouched<K, V>(d: Dict<K, V>, kvs: seq<(K, V)>, k: K)
    requires Valid(d)
    requires forall j | 0 <= j < |kvs| :: kvs[j].0 != k
    ensures k in PutAll(d, kvs).entries <==> k in d.entries
    ensures k in d.entries ==> PutAll(d, kvs).entries[k] == d.entries[k]
    decreases |kvs|
  {
    if |kvs| > 0 {
      var n := |kvs| - 1;
      forall j | 0 <= j < n
        ensures kvs[..n][j].0 != k
      {
        assert kvs[..n][j] == kvs[j];
      }
      PutAllUntouched(d, kvs[..n], k);
    }
  }

  /** Writing never moves a key that was already there: the old order is a prefix of the new one. */
  lemma {:induction false} PutAllKeepsOrder<K, V>(d: Dict<K, V>, kvs: seq<(K, V)>)
    requires Valid(d)
    ensures |d.order| <= |PutAll(d, kvs).order|
    ensures PutAll(d, kvs).order[..|d.order|] == d.order
    decreases |kvs|
  {
    if |kvs| > 0 {
      var n := |kvs| - 1;
      PutAllKeepsOrder(d, kvs[..n]);
      var mid := PutAll(d, kvs[..n]);
      var r := PutAll(d, kvs);
      if kvs[n].0 !in mid.entries {
        assert r.order[..|d.order|] == mid.order[..|d.order|];
      }
    }
  }

  /** Filling an empty dict, the first key in iteration order is the first key written. */
  lemma PutAllFirstKey<K, V>(kvs: seq<(K, V)>)
    requires |kvs| > 0
    ensures |PutAll(Empty<K, V>(), kvs).order| > 0
    ensures PutAll(Empty<K, V>(), kvs).order[0] == kvs[0].0
  {
    var one := PutAll(Empty<K, V>(), kvs[..1]);
    assert kvs[..1][..0] == [];
    assert kvs[..1][0] == kvs[0];
    assert PutAll(Empty<K, V>(), kvs[..1][..0]) == Empty<K, V>();
    assert one.order == [kvs[0].0];
    PutAllSplit(Empty<K, V>(), kvs, 1);
    PutAllKeepsOrder(one, kvs[1..]);
  }

  /** `PutAll` over a concatenation is two `PutAll`s in a row. */
  lemma {:induction false} PutAllSplit<K, V>(d: Dict<K, V>, kvs: seq<(K, V)>, m: nat)
    requires Valid(d)
    requires m <= |kvs|
    ensures PutAll(d, kvs) == PutAll(PutAll(d, kvs[..m]), kvs[m..])
    decreases |kvs|
  {
    if |kvs| > m {
      var n := |kvs| - 1;
      assert kvs[..n][..m] == kvs[..m];
      assert kvs[m..][..|kvs[m..]| - 1] == kvs[..n][m..];
      PutAllSplit(d, kvs[..n], m);
    } else {
      assert kvs[..m] == kvs;
    }
  }

  /** Every value after `PutAll` is either untouched or one that was written under its key. */
  lemma {:induction false} PutAllValueWritten<K, V>(d: Dict<K, V>, kvs: seq<(K, V)>, k: K)
    requires Valid(d)
    requires k in PutAll(d, kvs).entries
    ensures || (k in d.entries && PutAll(d, kvs).entries[k] == d.entries[k])
            || (exists i | 0 <= i < |kvs| :: kvs[i].0 == k && PutAll(d, kvs).entries[k] == kvs[i].1)
    decreases |kvs|
  {
    if |kvs| > 0 {
      var n := |kvs| - 1;
      if kvs[n].0 != k {
        PutAllValueWritten(d, kvs[..n], k);
        if !(k in d.entries && PutAll(d, kvs[..n]).entries[k] == d.entries[k]) {
          var i :| 0 <= i < n && kvs[..n][i].0 == k && PutAll(d, kvs[..n]).entries[k] == kvs[..n][i].1;
          assert kvs[i] == kvs[..n][i];
        }
      }
    }
  }
}
