/** `ListStore<T>`: the values loaded from disk, followed by the unsaved values,
    each tagged with the number of the transaction that added it. Transactions
    are numbered in the order they are added, so the tags of the unsaved list
    never decrease, and both walks over it stop early on that assumption. */
module ListStores {

  datatype UnsavedEntry<T> = UnsavedEntry(transaction: int, value: T)

  /** The values of a list of entries, in order. */
  function Values<T>(entries: seq<UnsavedEntry<T>>): (r: seq<T>)
    ensures |r| == |entries|
    ensures forall i :: 0 <= i < |entries| ==> r[i] == entries[i].value
  {
    if entries == [] then [] else [entries[0].value] + Values(entries[1..])
  }

  /** Transaction tags never decrease along the list. */
  ghost predicate Nondecreasing<T>(entries: seq<UnsavedEntry<T>>) {
    forall i, j :: 0 <= i < j < |entries| ==> entries[i].transaction <= entries[j].transaction
  }

  /** What `RemoveUnsaved` leaves: entries tagged `tx` are dropped until the
      first entry tagged later, where the walk stops. */
  function RemoveTransaction<T>(entries: seq<UnsavedEntry<T>>, tx: int): seq<UnsavedEntry<T>> {
    if entries == [] then []
    else if entries[0].transaction == tx then RemoveTransaction(entries[1..], tx)
    else if entries[0].transaction > tx then entries
    else [entries[0]] + RemoveTransaction(entries[1..], tx)
  }

  /** The reference: every entry not tagged `tx`, in order. */
  function WithoutTransaction<T>(entries: seq<UnsavedEntry<T>>, tx: int): (r: seq<UnsavedEntry<T>>)
    ensures forall i :: 0 <= i < |r| ==> r[i] in entries && r[i].transaction != tx
    ensures forall i :: 0 <= i < |entries| && entries[i].transaction != tx ==> entries[i] in r
  {
    if entries == [] then []
    else if entries[0].transaction == tx then WithoutTransaction(entries[1..], tx)
    else [entries[0]] + WithoutTransaction(entries[1..], tx)
  }

  /** What `GetPendingItems` returns: entries tagged earlier than `tx` are
      skipped, the walk stops at the first entry tagged later. */
  function Pending<T>(entries: seq<UnsavedEntry<T>>, tx: int): seq<T> {
    if entries == [] then []
    else if entries[0].transaction < tx then Pending(entries[1..], tx)
    else if entries[0].transaction > tx then []
    else [entries[0].value] + Pending(entries[1..], tx)
  }

  /** The reference: the values of every entry tagged `tx`, in order. */
  function TaggedValues<T>(entries: seq<UnsavedEntry<T>>, tx: int): (r: seq<T>)
    ensures |r| <= |entries|
  {
    if entries == [] then []
    else if entries[0].transaction == tx then [entries[0].value] + TaggedValues(entries[1..], tx)
    else TaggedValues(entries[1..], tx)
  }

  lemma {:induction false} NoneTaggedWithoutIsIdentity<T>(entries: seq<UnsavedEntry<T>>, tx: int)
    requires forall i :: 0 <= i < |entries| ==> entries[i].transaction > tx
    ensures WithoutTransaction(entries, tx) == entries
    ensures TaggedValues(entries, tx) == []
  {
    if entries != [] {
      var tail := entries[1..];
      assert forall i :: 0 <= i < |tail| ==> tail[i].transaction > tx by {
        forall i | 0 <= i < |tail|
          ensures tail[i].transaction > tx
        {
          assert tail[i] == entries[i + 1];
        }
      }
      NoneTaggedWithoutIsIdentity(tail, tx);
      assert entries == [entries[0]] + tail;
    }
  }

  /** With nondecreasing tags, `RemoveUnsaved` removes exactly the entries of
      transaction `tx`, and keeps the others in order. */
  lemma {:induction false} RemoveTransactionRemovesExactlyTx<T>(entries: seq<UnsavedEntry<T>>, tx: int)
    requires Nondecreasing(entries)
    ensures RemoveTransaction(entries, tx) == WithoutTransaction(entries, tx)
  {
    if entries != [] {
      if entries[0].transaction > tx {
        NoneTaggedWithoutIsIdentity(entries, tx);
      } else {
        RemoveTransactionRemovesExactlyTx(entries[1..], tx);
      }
    }
  }

  /** With nondecreasing tags, `GetPendingItems` returns exactly the values
      of transaction `tx`, in order. */
  lemma {:induction false} PendingIsTaggedValues<T>(entries: seq<UnsavedEntry<T>>, tx: int)
    requires Nondecreasing(entries)
    ensures Pending(entries, tx) == TaggedValues(entries, tx)
  {
    if entries != [] {
      if entries[0].transaction > tx {
        NoneTaggedWithoutIsIdentity(entries, tx);
      } else {
        PendingIsTaggedValues(entries[1..], tx);
      }
    }
  }

  /** The tail of a list with nondecreasing tags keeps them nondecreasing,
      and no tag in it is below the head's. */
  lemma TailNondecreasing<T>(entries: seq<UnsavedEntry<T>>)
    requires entries != [] && Nondecreasing(entries)
    ensures Nondecreasing(entries[1..])
    ensures forall i :: 0 <= i < |entries[1..]| ==> entries[0].transaction <= entries[1..][i].transaction
  {
    var tail := entries[1..];
    forall i | 0 <= i < |tail|
      ensures tail[i] == entries[i + 1]
    {
    }
  }

  /** An entry no later than every entry of a nondecreasing list can go in
      front of it. */
  lemma ConsNondecreasing<T>(entry: UnsavedEntry<T>, rest: seq<UnsavedEntry<T>>)
    requires Nondecreasing(rest)
    requires forall i :: 0 <= i < |rest| ==> entry.transaction <= rest[i].transaction
    ensures Nondecreasing([entry] + rest)
  {
    var r := [entry] + rest;
    forall i, j | 0 <= i < j < |r|
      ensures r[i].transaction <= r[j].transaction
    {
      assert r[j] == rest[j - 1];
      if 0 < i {
        assert r[i] == rest[i - 1];
      }
    }
  }

  /** Dropping entries keeps every tag at or above a lower bound. */
  lemma {:induction false} WithoutTransactionAtLeast<T>(entries: seq<UnsavedEntry<T>>, tx: int, bound: int)
    requires forall i :: 0 <= i < |entries| ==> bound <= entries[i].transaction
    ensures forall i :: 0 <= i < |WithoutTransaction(entries, tx)| ==> bound <= WithoutTransaction(entries, tx)[i].transaction
  {
    if entries != [] {
      var tail := entries[1..];
      assert forall i :: 0 <= i < |tail| ==> tail[i] == entries[i + 1];
      WithoutTransactionAtLeast(tail, tx, bound);
      var rest := WithoutTransaction(tail, tx);
      if entries[0].transaction != tx {
        var r := [entries[0]] + rest;
        assert forall i :: 1 <= i < |r| ==> r[i] == rest[i - 1];
      }
    }
  }

  /** Dropping entries keeps the tags nondecreasing. */
  lemma {:induction false} WithoutTransactionKeepsOrder<T>(entries: seq<UnsavedEntry<T>>, tx: int)
    requires Nondecreasing(entries)
    ensures Nondecreasing(WithoutTransaction(entries, tx))
  {
    if entries != [] {
      var tail := entries[1..];
      TailNondecreasing(entries);
      WithoutTransactionKeepsOrder(tail, tx);
      if entries[0].transaction != tx {
        WithoutTransactionAtLeast(tail, tx, entries[0].transaction);
        ConsNondecreasing(entries[0], WithoutTransaction(tail, tx));
      }
    }
  }

  class ListStore<T(0)> {
    /** `loadedIdMap`. */
    var loaded: seq<T>
    /** `unsavedIdMap`, a linked list in the source. */
    var unsaved: seq<UnsavedEntry<T>>

    constructor ()
      ensures loaded == [] && unsaved == []
    {
      loaded := [];
      unsaved := [];
    }

    /** `GetValues`: a new array holding the loaded values, then the unsaved
        ones, in order. */
    method GetValues() returns (result: array<T>)
      ensures fresh(result)
      ensures result.Length == |loaded| + |unsaved|
      ensures result[..] == loaded + Values(unsaved)
    {
      result := new T[|loaded| + |unsaved|];
      var i := 0;
      while i < |loaded|
        invariant 0 <= i <= |loaded|
        invariant forall j :: 0 <= j < i ==> result[j] == loaded[j]
      {
        result[i] := loaded[i];
        i := i + 1;
      }
      var k := 0;
      while k < |unsaved|
        invariant 0 <= k <= |unsaved| && i == |loaded| + k
        invariant forall j :: 0 <= j < |loaded| ==> result[j] == loaded[j]
        invariant forall j :: 0 <= j < k ==> result[|loaded| + j] == unsaved[j].value
      {
        result[i] := unsaved[k].value;
        i := i + 1;
        k := k + 1;
      }
      var expected := loaded + Values(unsaved);
      forall j | 0 <= j < result.Length
        ensures result[j] == expected[j]
      {
        if |loaded| <= j {
          assert result[|loaded| + (j - |loaded|)] == unsaved[j - |loaded|].value;
        }
      }
      assert result[..] == expected;
    }

    /** `AddUnsaved`: one entry tagged `currentTransaction` at the tail. */
    method AddUnsaved(item: T, currentTransaction: int)
      modifies this
      ensures unsaved == old(unsaved) + [UnsavedEntry(currentTransaction, item)]
      ensures loaded == old(loaded)
      ensures (Nondecreasing(old(unsaved)) &&
               forall i :: 0 <= i < |old(unsaved)| ==> old(unsaved)[i].transaction <= currentTransaction)
              ==> Nondecreasing(unsaved)
    {
      unsaved := unsaved + [UnsavedEntry(currentTransaction, item)];
    }

    /** `AddLoaded`: appends to the loaded values only. */
    method AddLoaded(item: T)
      modifies this
      ensures loaded == old(loaded) + [item]
      ensures unsaved == old(unsaved)
    {
      loaded := loaded + [item];
    }

    /** `RemoveUnsaved(items, currentTransaction)`: walks the unsaved list,
        unlinking entries of the current transaction and stopping at the first
        later one; `items` is not used. With nondecreasing tags this removes exactly that
        transaction's entries. */
    method RemoveUnsaved(items: seq<T>, currentTransaction: int)
      modifies this
      ensures unsaved == RemoveTransaction(old(unsaved), currentTransaction)
      ensures Nondecreasing(old(unsaved)) ==>
                unsaved == WithoutTransaction(old(unsaved), currentTransaction) && Nondecreasing(unsaved)
      ensures loaded == old(loaded)
    {
      var node := 0;
      while node < |unsaved|
        invariant 0 <= node <= |unsaved|
        invariant unsaved[..node] + RemoveTransaction(unsaved[node..], currentTransaction)
               == RemoveTransaction(old(unsaved), currentTransaction)
        invariant loaded == old(loaded)
        decreases |unsaved| - node
      {
        var nodeTransaction := unsaved[node].transaction;
        if nodeTransaction == currentTransaction {
          assert unsaved[node + 1..] == unsaved[node..][1..];
          unsaved := unsaved[..node] + unsaved[node + 1..];
          assert unsaved[..node] + unsaved[node..] == unsaved;
        } else if nodeTransaction > currentTransaction {
          break;
        } else {
          assert unsaved[node + 1..] == unsaved[node..][1..];
          assert unsaved[..node + 1] == unsaved[..node] + [unsaved[node]];
          node := node + 1;
        }
      }
      assert unsaved[..node] + unsaved[node..] == unsaved;
      if Nondecreasing(old(unsaved)) {
        RemoveTransactionRemovesExactlyTx(old(unsaved), currentTransaction);
        WithoutTransactionKeepsOrder(old(unsaved), currentTransaction);
      }
    }

    /** `RemoveUnsaved(item, currentTransaction)`: the item is not used; the
        whole transaction is removed, as by the overload above with no items. */
    method RemoveUnsavedItem(item: T, currentTransaction: int)
      modifies this
      ensures unsaved == RemoveTransaction(old(unsaved), currentTransaction)
      ensures Nondecreasing(old(unsaved)) ==> unsaved == WithoutTransaction(old(unsaved), currentTransaction)
      ensures loaded == old(loaded)
    {
      RemoveUnsaved([], currentTransaction);
    }

    /** `GetPendingItems`: the values of the current transaction. */
    method GetPendingItems(currentTransaction: int) returns (transactionIds: seq<T>)
      ensures transactionIds == Pending(unsaved, currentTransaction)
      ensures Nondecreasing(unsaved) ==> transactionIds == TaggedValues(unsaved, currentTransaction)
    {
      transactionIds := [];
      var k := 0;
      while k < |unsaved|
        invariant 0 <= k <= |unsaved|
        invariant transactionIds + Pending(unsaved[k..], currentTransaction) == Pending(unsaved, currentTransaction)
      {
        var item := unsaved[k];
        assert unsaved[k + 1..] == unsaved[k..][1..];
        if item.transaction < currentTransaction {
          k := k + 1;
          continue;
        }
        if item.transaction > currentTransaction {
          break;
        }
        transactionIds := transactionIds + [item.value];
        k := k + 1;
      }
      if Nondecreasing(unsaved) {
        PendingIsTaggedValues(unsaved, currentTransaction);
      }
    }
  }
}
