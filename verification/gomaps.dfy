/**
 * Ranging over a Go map (`for k, v := range m`). Go leaves the iteration
 * order unspecified, so the model chooses each next key with `:|`: whatever
 * is proved of a loop that enumerates a map holds for every order.
 */
module GoMaps {

  /** `pairs` lists every entry of `m` exactly once, in some order. */
  ghost predicate Enumerates<K, V>(pairs: seq<(K, V)>, m: map<K, V>)
  {
    && (forall i :: 0 <= i < |pairs| ==> pairs[i].0 in m && m[pairs[i].0] == pairs[i].1)
    && (forall i, j :: 0 <= i < j < |pairs| ==> pairs[i].0 != pairs[j].0)
    && (forall k :: k in m ==> exists i :: 0 <= i < |pairs| && pairs[i].0 == k)
  }

  /** Without its last pair, an enumeration lists the map without that key. */
  lemma DropLast<K, V>(pairs: seq<(K, V)>, m: map<K, V>)
    requires Enumerates(pairs, m) && pairs != []
    ensures pairs[|pairs| - 1].0 in m
    ensures Enumerates(pairs[..|pairs| - 1], m - {pairs[|pairs| - 1].0})
  {
    var last := |pairs| - 1;
    var k := pairs[last].0;
    var rest := pairs[..last];
    var m' := m - {k};
    forall k' | k' in m'
      ensures exists i :: 0 <= i < |rest| && rest[i].0 == k'
    {
      var i :| 0 <= i < |pairs| && pairs[i].0 == k';
      assert rest[i].0 == k';
    }
  }

  /** An enumeration has one pair per key. */
  lemma {:induction false} EnumerationLength<K, V>(pairs: seq<(K, V)>, m: map<K, V>)
    requires Enumerates(pairs, m)
    ensures |pairs| == |m|
  {
    if pairs == [] {
      assert m.Keys == {};
    } else {
      var k := pairs[|pairs| - 1].0;
      DropLast(pairs, m);
      EnumerationLength(pairs[..|pairs| - 1], m - {k});
      assert (m - {k}).Keys + {k} == m.Keys;
    }
  }

  /** A `for k, v := range m` loop that collects the entries it visits. */
  method Enumerate<K, V>(m: map<K, V>) returns (pairs: seq<(K, V)>)
    ensures Enumerates(pairs, m)
  {
    pairs := [];
    var rest := m.Keys;
    while rest != {}
      invariant rest <= m.Keys
      invariant forall i :: 0 <= i < |pairs| ==> pairs[i].0 in m && pairs[i].0 !in rest && m[pairs[i].0] == pairs[i].1
      invariant forall i, j :: 0 <= i < j < |pairs| ==> pairs[i].0 != pairs[j].0
      invariant forall k :: k in m && k !in rest ==> exists i :: 0 <= i < |pairs| && pairs[i].0 == k
      decreases rest
    {
      var k :| k in rest;
      ghost var before := pairs;
      pairs := pairs + [(k, m[k])];
      rest := rest - {k};
      forall k' | k' in m && k' !in rest
        ensures exists i :: 0 <= i < |pairs| && pairs[i].0 == k'
      {
        if k' == k {
          assert pairs[|before|].0 == k';
        } else {
          var i :| 0 <= i < |before| && before[i].0 == k';
          assert pairs[i].0 == k';
        }
      }
    }
  }
}
