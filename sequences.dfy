/** Searching a sequence, as `List<T>.IndexOf` does. */
module Sequences {

  /** The first position of `item` in `s`. */
  function IndexIn<T(==)>(s: seq<T>, item: T): (i: nat)
    requires item in s
    ensures i < |s| && s[i] == item
  {
    if s[0] == item then 0 else 1 + IndexIn(s[1..], item)
  }

  /** No earlier position holds `item`. */
  lemma {:induction false} IndexInIsFirst<T>(s: seq<T>, item: T)
    requires item in s
    ensures item !in s[..IndexIn(s, item)]
  {
    if s[0] != item {
      IndexInIsFirst(s[1..], item);
      assert s[..IndexIn(s, item)] == [s[0]] + s[1..][..IndexIn(s[1..], item)];
    }
  }
}
