/** `PoolListStruct<T>`: a list of pooled objects whose first `Count` slots
    are in use. Objects past `Count` stay allocated and are handed out again by
    `Add` before the factory is asked for a new one. */
module PoolList {
  import opened Wrappers
  import opened Sequences

  datatype PoolError = ArgumentOutOfRange | InvalidOperation

  /** The list after `RemoveAt(index)`: the item at `index` is taken out,
      later items move one place left, and the item is put back at the end. */
  function RotateToEnd<T>(s: seq<T>, index: nat): (r: seq<T>)
    requires index < |s|
  {
    s[..index] + s[index + 1..] + [s[index]]
  }

  /** Rotating an item to the end keeps the length and the contents of the
      list; the items before `index` stay where they are and the rest close
      the gap. */
  lemma RotateToEndIsPermutation<T>(s: seq<T>, index: nat)
    requires index < |s|
    ensures |RotateToEnd(s, index)| == |s|
    ensures multiset(RotateToEnd(s, index)) == multiset(s)
    ensures RotateToEnd(s, index)[|s| - 1] == s[index]
    ensures forall i :: 0 <= i < index ==> RotateToEnd(s, index)[i] == s[i]
    ensures forall i :: index <= i < |s| - 1 ==> RotateToEnd(s, index)[i] == s[i + 1]
  {
    calc {
      multiset(RotateToEnd(s, index));
      multiset(s[..index]) + multiset(s[index + 1..]) + multiset([s[index]]);
      { assert s == s[..index] + [s[index]] + s[index + 1..]; }
      multiset(s);
    }
  }

  class PoolListStruct<T(==)> {
    /** The allocated objects, in use or not. */
    var allocatedItems: seq<T>
    /** The number of objects in use, at the front of `allocatedItems`. */
    var count: nat
    /** How many objects the factory has produced: the factory itself is a
        parameter of `Add`. */
    ghost var factoryCalls: nat

    ghost predicate Valid()
      reads this
    {
      count <= |allocatedItems|
    }

    /** The enumeration of the list: the objects in use, in order. */
    function Items(): (r: seq<T>)
      requires Valid()
      reads this
      ensures |r| == count
      ensures forall i :: 0 <= i < count ==> r[i] == allocatedItems[i]
    {
      allocatedItems[..count]
    }

    constructor ()
      ensures Valid() && count == 0 && allocatedItems == [] && factoryCalls == 0
    {
      allocatedItems := [];
      count := 0;
      factoryCalls := 0;
    }

    /** `Clear`: nothing is in use any more; the allocated objects are kept. */
    method Clear()
      requires Valid()
      modifies this
      ensures Valid() && count == 0 && Items() == []
      ensures allocatedItems == old(allocatedItems) && factoryCalls == old(factoryCalls)
    {
      count := 0;
    }

    /** `Reset`: nothing is in use and the allocated objects are released. */
    method Reset()
      requires Valid()
      modifies this
      ensures Valid() && count == 0 && allocatedItems == []
      ensures factoryCalls == old(factoryCalls)
    {
      Clear();
      allocatedItems := [];
    }

    /** `Add`: hands out the first allocated object not in use, or, when all
        are in use, the object `made` that the factory produces, which is
        appended to the allocated list. */
    method Add(made: T) returns (result: T)
      requires Valid()
      modifies this
      ensures Valid() && count == old(count) + 1
      ensures Items() == old(Items()) + [result]
      ensures old(count) < old(|allocatedItems|) ==>
                result == old(allocatedItems[count]) && allocatedItems == old(allocatedItems) && factoryCalls == old(factoryCalls)
      ensures old(count) == old(|allocatedItems|) ==>
                result == made && allocatedItems == old(allocatedItems) + [made] && factoryCalls == old(factoryCalls) + 1
    {
      if count < |allocatedItems| {
        result := allocatedItems[count];
      } else {
        result := made;
        factoryCalls := factoryCalls + 1;
        allocatedItems := allocatedItems + [result];
      }
      count := count + 1;
    }

    /** `IndexOf`: the first position of `item` among ALL allocated objects,
        in use or not, or -1. */
    method IndexOf(item: T) returns (r: int)
      ensures -1 <= r < |allocatedItems|
      ensures 0 <= r ==> allocatedItems[r] == item && item !in allocatedItems[..r]
      ensures r == -1 <==> item !in allocatedItems
    {
      for i := 0 to |allocatedItems|
        invariant item !in allocatedItems[..i]
      {
        if allocatedItems[i] == item {
          return i;
        }
      }
      r := -1;
    }

    /** `RemoveAt`: an index outside the objects in use is refused; otherwise
        the object leaves the in-use prefix and is kept, last, for reuse. */
    method RemoveAt(index: int) returns (r: Outcome<PoolError>)
      requires Valid()
      modifies this
      ensures Valid() && factoryCalls == old(factoryCalls)
      ensures r.Fail? <==> !(0 <= index < old(count))
      ensures r.Fail? ==> r.error == ArgumentOutOfRange && count == old(count) && allocatedItems == old(allocatedItems)
      ensures r.Pass? ==>
                && count == old(count) - 1
                && allocatedItems == RotateToEnd(old(allocatedItems), index)
                && Items() == old(Items()[..index] + Items()[index + 1..])
    {
      if index < 0 || index >= count {
        return Fail(ArgumentOutOfRange);
      }
      RotateToEndIsPermutation(allocatedItems, index);
      count := count - 1;
      allocatedItems := RotateToEnd(allocatedItems, index);
      r := Pass;
    }

    /** `Remove`: an object never allocated here is refused with
        `InvalidOperationException`. An object allocated but no longer in use is
        found by `IndexOf` and then refused by `RemoveAt`. */
    method Remove(item: T) returns (r: Outcome<PoolError>)
      requires Valid()
      modifies this
      ensures Valid() && factoryCalls == old(factoryCalls)
      ensures item !in old(allocatedItems) ==> r == Fail(InvalidOperation) && count == old(count) && allocatedItems == old(allocatedItems)
      ensures item in old(Items()) ==>
                var index := IndexIn(old(allocatedItems), item);
                r == Pass && count == old(count) - 1 && allocatedItems == RotateToEnd(old(allocatedItems), index)
      ensures item in old(allocatedItems) && item !in old(Items()) ==>
                r == Fail(ArgumentOutOfRange) && count == old(count) && allocatedItems == old(allocatedItems)
    {
      var removeIndex := IndexOf(item);
      if removeIndex == -1 {
        return Fail(InvalidOperation);
      }
      assert removeIndex == IndexIn(allocatedItems, item) by {
        IndexInIsFirst(allocatedItems, item);
      }
      FirstIndexInPrefix(allocatedItems, item, count);
      r := RemoveAt(removeIndex);
    }
  }

  /** An item in a prefix is first found inside that prefix. */
  lemma FirstIndexInPrefix<T>(s: seq<T>, item: T, n: nat)
    requires n <= |s| && item in s
    ensures item in s[..n] <==> IndexIn(s, item) < n
  {
    IndexInIsFirst(s, item);
    var i := IndexIn(s, item);
    if i < n {
      assert s[..n][i] == item;
    } else {
      assert s[..n] == s[..i][..n];
    }
  }
}
