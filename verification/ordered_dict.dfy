/** Python's `dict`: a finite map that also remembers the order in which its
    keys were first inserted. Re-assigning an existing key replaces the value
    and leaves the key where it was; a new key goes to the end.
 */
module OrderedDict {
  import opened Errors

  datatype Dict<K(==), V> = Dict(keys: seq<K>, entries: map<K, V>)

  ghost predicate Distinct<T>(s: seq<T>) {
    forall i, j | 0 <= i < j < |s| :: s[i] != s[j]
  }

  /** The insertion order lists every key of the map exactly once. */
  ghost predicate Valid<K, V>(d: Dict<K, V>) {
    && Distinct(d.keys)
    && d.entries.Keys == (set k | k in d.keys)
  }

  function Empty<K, V>(): (d: Dict<K, V>)
    ensures Valid(d) && d.keys == [] && d.entries == map[]
  {
    Dict([], map[])
  }

  /** `d.get(k)`. */
  function Get<K, V>(d: Dict<K, V>, k: K): (r: Option<V>)
    ensures r.Some? <==> k in d.entries
    ensures r.Some? ==> r.value == d.entries[k]
  {
    if k in d.entries then Some(d.entries[k]) else None
  }

  /** `d.update({k: v})`. */
  function Put<K, V>(d: Dict<K, V>, k: K, v: V): (r: Dict<K, V>)
    requires Valid(d)
    ensures Valid(r)
    ensures Get(r, k) == Some(v)
    ensures r.entries.Keys == d.entries.Keys + {k}
    ensures forall k' | k' in d.entries && k' != k :: r.entries[k'] == d.entries[k']
    ensures k in d.entries ==> r.keys == d.keys
    ensures k !in d.entries ==> r.keys == d.keys + [k]
  {
    if k in d.entries then
      Dict(d.keys, d.entries[k := v])
    else
      var keys := d.keys + [k];
      assert forall i | 0 <= i < |d.keys| :: keys[i] == d.keys[i];
      Dict(keys, d.entries[k := v])
  }

  /** `list(d.values())`: the values in key insertion order. */
  function Values<K, V>(d: Dict<K, V>): (r: seq<V>)
    requires Valid(d)
    ensures |r| == |d.keys|
    ensures forall i | 0 <= i < |d.keys| :: r[i] == d.entries[d.keys[i]]
  {
    seq(|d.keys|, i requires 0 <= i < |d.keys| => d.entries[d.keys[i]])
  }

  /** The dict built by inserting `pairs` one after another into an empty dict. */
  function Collect<K, V>(pairs: seq<(K, V)>): (d: Dict<K, V>)
    ensures Valid(d)
  {
    if |pairs| == 0 then Empty()
    else
      var last := pairs[|pairs| - 1];
      Put(Collect(pairs[..|pairs| - 1]), last.0, last.1)
  }

  /** Exactly the keys of the pairs end up in the dict. */
  lemma {:induction false} CollectKeys<K, V>(pairs: seq<(K, V)>, k: K)
    ensures k in Collect(pairs).entries <==> exists i | 0 <= i < |pairs| :: pairs[i].0 == k
  {
    if |pairs| > 0 {
      var front := pairs[..|pairs| - 1];
      CollectKeys(front, k);
      if exists i | 0 <= i < |front| :: front[i].0 == k {
        var i :| 0 <= i < |front| && front[i].0 == k;
        assert pairs[i].0 == k;
      }
      if exists i | 0 <= i < |pairs| :: pairs[i].0 == k {
        var i :| 0 <= i < |pairs| && pairs[i].0 == k;
        if i < |front| {
          assert front[i].0 == k;
        }
      }
    }
  }

  /** A later pair with the same key overwrites an earlier one: the value kept
      for a key is the one of its last pair. */
  lemma {:induction false} CollectLastWins<K, V>(pairs: seq<(K, V)>, i: nat)
    requires i < |pairs|
    requires forall j | i < j < |pairs| :: pairs[j].0 != pairs[i].0
    ensures Get(Collect(pairs), pairs[i].0) == Some(pairs[i].1)
  {
    if i < |pairs| - 1 {
      var front := pairs[..|pairs| - 1];
      assert front[i] == pairs[i];
      CollectLastWins(front, i);
    }
  }

  /** Every value in the dict came from a pair with its key. */
  lemma {:induction false} CollectValueFrom<K, V>(pairs: seq<(K, V)>, k: K)
    requires k in Collect(pairs).entries
    ensures exists i | 0 <= i < |pairs| :: pairs[i].0 == k && pairs[i].1 == Collect(pairs).entries[k]
  {
    var front := pairs[..|pairs| - 1];
    var last := pairs[|pairs| - 1];
    if last.0 != k {
      CollectValueFrom(front, k);
      var i :| 0 <= i < |front| && front[i].0 == k && front[i].1 == Collect(front).entries[k];
      assert pairs[i] == front[i];
    }
  }
  /** With no key repeated, the dict keeps every pair in order: its keys
      are the pairs' keys and its values the pairs' values. */
  lemma {:induction false} CollectDistinctValues<K, V>(pairs: seq<(K, V)>)
    requires forall i, j | 0 <= i < j < |pairs| :: pairs[i].0 != pairs[j].0
    ensures |Collect(pairs).keys| == |pairs|
    ensures forall i | 0 <= i < |pairs| :: Collect(pairs).keys[i] == pairs[i].0
    ensures forall i | 0 <= i < |pairs| :: Values(Collect(pairs))[i] == pairs[i].1
  {
    if |pairs| > 0 {
      var front := pairs[..|pairs| - 1];
      var last := pairs[|pairs| - 1];
      CollectDistinctValues(front);
      var d := Collect(front);
      var r := Put(d, last.0, last.1);
      assert Collect(pairs) == r;
      assert last.0 !in d.entries;
      forall i | 0 <= i < |pairs|
        ensures r.keys[i] == pairs[i].0 && r.entries[r.keys[i]] == pairs[i].1
      {
        if i < |front| {
          assert front[i] == pairs[i];
          assert d.keys[i] == front[i].0;
          assert Values(d)[i] == front[i].1;
        }
      }
    }
  }
}
