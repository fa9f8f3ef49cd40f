/** Sequences of key/value pairs, the shape in which the index maps hand
    their contents around (`IEnumerable<KeyValuePair<string, ObjectId>>`). */
module KeyedPairs {

  /** The keys of a sequence of pairs. */
  function KeysOf<K, V>(pairs: seq<(K, V)>): (keys: set<K>)
    ensures forall i :: 0 <= i < |pairs| ==> pairs[i].0 in keys
    ensures forall k :: k in keys ==> exists i :: 0 <= i < |pairs| && pairs[i].0 == k
  {
    set i | 0 <= i < |pairs| :: pairs[i].0
  }

  lemma KeysOfAppend<K, V>(pairs: seq<(K, V)>, pair: (K, V))
    ensures KeysOf(pairs + [pair]) == KeysOf(pairs) + {pair.0}
  {
    var s := pairs + [pair];
    forall k | k in KeysOf(s)
      ensures k in KeysOf(pairs) + {pair.0}
    {
      var i :| 0 <= i < |s| && s[i].0 == k;
      if i < |pairs| {
        assert pairs[i].0 == k;
      }
    }
    forall k | k in KeysOf(pairs)
      ensures k in KeysOf(s)
    {
      var i :| 0 <= i < |pairs| && pairs[i].0 == k;
      assert s[i].0 == k;
    }
    assert s[|pairs|].0 == pair.0;
  }

  /** No key occurs twice. */
  ghost predicate DistinctKeys<K, V>(pairs: seq<(K, V)>) {
    forall i, j :: 0 <= i < j < |pairs| ==> pairs[i].0 != pairs[j].0
  }

  /** A pair with a new key keeps the keys distinct. */
  lemma AppendNewKey<K, V>(pairs: seq<(K, V)>, pair: (K, V))
    requires DistinctKeys(pairs) && forall i :: 0 <= i < |pairs| ==> pairs[i].0 != pair.0
    ensures DistinctKeys(pairs + [pair])
    ensures KeysOf(pairs + [pair]) == KeysOf(pairs) + {pair.0}
  {
    KeysOfAppend(pairs, pair);
    var s := pairs + [pair];
    forall i, j | 0 <= i < j < |s|
      ensures s[i].0 != s[j].0
    {
      assert s[i] == pairs[i];
    }
  }
}
