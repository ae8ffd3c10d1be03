/** The row listings `SELECT * FROM t` hands back: every row of the table,
    once each. The order the queries ask for (`ORDER BY nome`, `ORDER BY
    cargo, metrica`) is not modelled; no handler's result depends on it. */
module Listing {

  /** `s` lists the entries of `m`, each key exactly once. */
  ghost predicate IsListing<K, V>(m: map<K, V>, s: seq<(K, V)>) {
    && (forall i | 0 <= i < |s| :: s[i].0 in m && m[s[i].0] == s[i].1)
    && (forall k | k in m :: exists i :: 0 <= i < |s| && s[i].0 == k)
    && (forall i, j | 0 <= i < j < |s| :: s[i].0 != s[j].0)
  }

  /** Lists the entries of `m` in some order. */
  method List<K, V>(m: map<K, V>) returns (s: seq<(K, V)>)
    ensures IsListing(m, s)
    ensures |s| == |m|
  {
    s := [];
    var left := m.Keys;
    while left != {}
      invariant left <= m.Keys
      invariant forall i | 0 <= i < |s| :: s[i].0 in m && s[i].0 !in left && m[s[i].0] == s[i].1
      invariant forall k | k in m && k !in left :: exists i :: 0 <= i < |s| && s[i].0 == k
      invariant forall i, j | 0 <= i < j < |s| :: s[i].0 != s[j].0
      invariant |s| + |left| == |m|
      decreases left
    {
      var k :| k in left;
      ListedStep(m, left, s, k);
      s := s + [(k, m[k])];
      left := left - {k};
    }
  }

  /** Appending one more key of `m` keeps every key listed so far listed. */
  lemma ListedStep<K, V>(m: map<K, V>, left: set<K>, s: seq<(K, V)>, k: K)
    requires k in left && k in m
    requires forall k' | k' in m && k' !in left :: exists i :: 0 <= i < |s| && s[i].0 == k'
    ensures forall k' | k' in m && k' !in left - {k} :: exists i :: 0 <= i < |s + [(k, m[k])]| && (s + [(k, m[k])])[i].0 == k'
  {
    var s' := s + [(k, m[k])];
    forall k' | k' in m && k' !in left - {k}
      ensures exists i :: 0 <= i < |s'| && s'[i].0 == k'
    {
      if k' == k {
        assert s'[|s|].0 == k';
      } else {
        var i :| 0 <= i < |s| && s[i].0 == k';
        assert s'[i].0 == k';
      }
    }
  }

  /** The map a listing spells out, a later entry overriding an earlier one. */
  function Collect<K, V>(s: seq<(K, V)>): (r: map<K, V>)
    ensures forall i | 0 <= i < |s| :: s[i].0 in r
    ensures forall k | k in r :: exists i :: 0 <= i < |s| && s[i].0 == k
    decreases |s|
  {
    if s == [] then map[]
    else
      var r := Collect(s[..|s| - 1]);
      assert forall i | 0 <= i < |s| - 1 :: s[..|s| - 1][i] == s[i];
      r[s[|s| - 1].0 := s[|s| - 1].1]
  }

  /** Every value of the collected map is the value of some entry. */
  lemma {:induction false} CollectValue<K, V>(s: seq<(K, V)>, k: K)
    requires k in Collect(s)
    ensures exists i :: 0 <= i < |s| && s[i] == (k, Collect(s)[k])
    decreases |s|
  {
    var last := s[|s| - 1];
    var init := s[..|s| - 1];
    if last.0 != k {
      CollectValue(init, k);
      var i :| 0 <= i < |init| && init[i] == (k, Collect(init)[k]);
      assert s[i] == init[i];
    } else {
      assert s[|s| - 1] == (k, Collect(s)[k]);
    }
  }

  /** Collecting one entry more writes that entry over the map so far. */
  lemma CollectNext<K, V>(s: seq<(K, V)>, i: nat)
    requires i < |s|
    ensures Collect(s[..i + 1]) == Collect(s[..i])[s[i].0 := s[i].1]
  {
    assert s[..i + 1][..i] == s[..i];
  }

  /** Dropping a listing's last entry lists the map without that key. */
  lemma ListingInit<K, V>(m: map<K, V>, s: seq<(K, V)>)
    requires IsListing(m, s) && s != []
    ensures IsListing(m - {s[|s| - 1].0}, s[..|s| - 1])
  {
    var init := s[..|s| - 1];
    var m' := m - {s[|s| - 1].0};
    forall k | k in m'
      ensures exists i :: 0 <= i < |init| && init[i].0 == k
    {
      var i :| 0 <= i < |s| && s[i].0 == k;
      assert init[i].0 == k;
    }
  }

  /** A listing spells out exactly the map it lists. */
  lemma {:induction false} CollectListing<K, V>(m: map<K, V>, s: seq<(K, V)>)
    requires IsListing(m, s)
    ensures Collect(s) == m
    decreases |s|
  {
    if s != [] {
      var last := s[|s| - 1];
      ListingInit(m, s);
      CollectListing(m - {last.0}, s[..|s| - 1]);
      PutBack(m, last.0, last.1);
    }
  }

  /** Two maps with the same keys and the same values are equal. */
  lemma SameMap<K, V>(a: map<K, V>, b: map<K, V>)
    requires a.Keys == b.Keys
    requires forall k | k in a :: a[k] == b[k]
    ensures a == b
  {
  }

  /** Removing a key and writing its value back gives the map again. */
  lemma PutBack<K, V>(m: map<K, V>, k: K, v: V)
    requires k in m && m[k] == v
    ensures (m - {k})[k := v] == m
  {
    var a := (m - {k})[k := v];
    assert a.Keys == m.Keys;
    assert forall j | j in a :: a[j] == m[j];
  }

  /** An entry that no later entry overrides is what the collected map holds
      for its key. */
  lemma {:induction false} CollectLast<K, V>(s: seq<(K, V)>, i: nat)
    requires i < |s|
    requires forall j | i < j < |s| :: s[j].0 != s[i].0
    ensures Collect(s)[s[i].0] == s[i].1
    decreases |s|
  {
    if i < |s| - 1 {
      var init := s[..|s| - 1];
      assert init[i] == s[i];
      CollectLast(init, i);
    }
  }
}
