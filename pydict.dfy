/** The semantics of a Python dict comprehension `{k: v for ...}` over a list of pairs. */
module PyDict {

  /** The dict built by inserting the pairs from left to right: a later pair
      overwrites an earlier one that carries the same key. */
  function FromPairs<K(==), V>(ps: seq<(K, V)>): (m: map<K, V>)
    ensures m.Keys == set i | 0 <= i < |ps| :: ps[i].0
    decreases |ps|
  {
    if ps == [] then map[]
    else FromPairs(ps[..|ps| - 1])[ps[|ps| - 1].0 := ps[|ps| - 1].1]
  }

  /** A key maps to the value of the LAST pair that carries it. */
  lemma {:induction false} FromPairsLastWins<K, V>(ps: seq<(K, V)>, i: nat)
    requires i < |ps|
    requires forall j :: i < j < |ps| ==> ps[j].0 != ps[i].0
    ensures ps[i].0 in FromPairs(ps) && FromPairs(ps)[ps[i].0] == ps[i].1
  {
    if i < |ps| - 1 {
      FromPairsLastWins(ps[..|ps| - 1], i);
    }
  }

  /** Every entry of the dict comes from some pair, and from the last one with its key. */
  lemma {:induction false} FromPairsEntry<K, V>(ps: seq<(K, V)>, k: K)
    requires k in FromPairs(ps)
    ensures exists i :: 0 <= i < |ps| && ps[i] == (k, FromPairs(ps)[k]) &&
                        forall j :: i < j < |ps| ==> ps[j].0 != k
  {
    var last := |ps| - 1;
    if ps[last].0 == k {
      assert ps[last] == (k, FromPairs(ps)[k]);
    } else {
      FromPairsEntry(ps[..last], k);
      var i :| 0 <= i < last && ps[..last][i] == (k, FromPairs(ps[..last])[k]) &&
               forall j :: i < j < last ==> ps[..last][j].0 != k;
      assert ps[i] == (k, FromPairs(ps)[k]);
    }
  }
}
