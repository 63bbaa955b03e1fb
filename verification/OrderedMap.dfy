/** Insertion-ordered dictionaries (JavaScript Map, Python dict) as sequences of entries. */
module OrderedMap {
  predicate Has<K(==), V>(m: seq<(K, V)>, k: K) {
    exists i :: 0 <= i < |m| && m[i].0 == k
  }

  // Setting an existing key replaces its value where it stands.
  function Set<K(==), V>(m: seq<(K, V)>, k: K, v: V): (r: seq<(K, V)>)
    ensures !Has(m, k) ==> r == m + [(k, v)]
    ensures Has(m, k) ==> |r| == |m| && forall i :: 0 <= i < |m| ==> r[i].0 == m[i].0
  {
    if m == [] then [(k, v)]
    else if m[0].0 == k then [(k, v)] + m[1..]
    else
      var rest := Set(m[1..], k, v);
      assert Has(m, k) ==> Has(m[1..], k) by {
        if Has(m, k) {
          var i :| 0 <= i < |m| && m[i].0 == k;
          assert m[1..][i - 1].0 == k;
        }
      }
      assert Has(m[1..], k) ==> Has(m, k) by {
        if Has(m[1..], k) {
          var i :| 0 <= i < |m[1..]| && m[1..][i].0 == k;
          assert m[i + 1].0 == k;
        }
      }
      [m[0]] + rest
  }

  ghost predicate KeysDistinct<K, V>(m: seq<(K, V)>) {
    forall i, j :: 0 <= i < j < |m| ==> m[i].0 != m[j].0
  }
}
