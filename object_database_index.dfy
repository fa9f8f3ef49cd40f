/** `ObjectDatabaseContentIndexMap`: the url -> ObjectId index that merges the
    index maps of every loaded backend, writing single assignments through to
    an optional writeable index. */
module ObjectDatabaseIndex {
  import opened Wrappers
  import opened ObjectIds
  import opened KeyedPairs

  datatype IndexError = KeyNotFound

  /** `WriteableContentIndexMap`, seen from this class: the assignments made
      through its indexer, in order. */
  class WriteableIndex {
    var assignments: seq<(string, ObjectId)>

    constructor ()
      ensures assignments == []
    {
      assignments := [];
    }
  }

  /** The map after writing every pair of `assets`, in order. */
  function MergeAll(values: map<string, ObjectId>, assets: seq<(string, ObjectId)>): map<string, ObjectId>
    decreases |assets|
  {
    if assets == [] then values
    else MergeAll(values, assets[..|assets| - 1])[assets[|assets| - 1].0 := assets[|assets| - 1].1]
  }

  /** The value of the last pair of `assets` with key `k`. */
  function LastValue(assets: seq<(string, ObjectId)>, k: string): (v: ObjectId)
    requires k in KeysOf(assets)
    ensures exists i :: 0 <= i < |assets| && assets[i] == (k, v)
    decreases |assets|
  {
    var last := assets[|assets| - 1];
    if last.0 == k then last.1
    else
      assert k in KeysOf(assets[..|assets| - 1]) by {
        var i :| 0 <= i < |assets| && assets[i].0 == k;
        assert assets[..|assets| - 1][i].0 == k;
      }
      LastValue(assets[..|assets| - 1], k)
  }

  /** Merging writes each key of `assets` with its last value there, keeps
      every other key, and adds nothing else. */
  lemma {:induction false} MergeLastWins(values: map<string, ObjectId>, assets: seq<(string, ObjectId)>)
    ensures MergeAll(values, assets).Keys == values.Keys + KeysOf(assets)
    ensures forall k :: k in KeysOf(assets) ==> MergeAll(values, assets)[k] == LastValue(assets, k)
    ensures forall k :: k in values && k !in KeysOf(assets) ==> MergeAll(values, assets)[k] == values[k]
    decreases |assets|
  {
    if assets != [] {
      var front, last := assets[..|assets| - 1], assets[|assets| - 1];
      MergeLastWins(values, front);
      assert assets == front + [last];
      KeysOfAppend(front, last);
      var merged := MergeAll(values, assets);
      assert merged == MergeAll(values, front)[last.0 := last.1];
      forall k | k in KeysOf(assets)
        ensures merged[k] == LastValue(assets, k)
      {
        if k != last.0 {
          assert k in KeysOf(front);
        }
      }
    }
  }

  /** Merging pairs whose keys are distinct (the pairs of a map) is the map
      update of `values` by those pairs. */
  lemma MergeDistinctIsOverride(values: map<string, ObjectId>, other: map<string, ObjectId>, assets: seq<(string, ObjectId)>)
    requires forall i :: 0 <= i < |assets| ==> assets[i].0 in other && other[assets[i].0] == assets[i].1
    requires forall k :: k in other ==> k in KeysOf(assets)
    ensures MergeAll(values, assets) == values + other
  {
    MergeLastWins(values, assets);
    forall k | k in KeysOf(assets)
      ensures LastValue(assets, k) == other[k]
    {
      var i :| 0 <= i < |assets| && assets[i] == (k, LastValue(assets, k));
    }
  }

  class ObjectDatabaseContentIndexMap {
    var values: map<string, ObjectId>
    var writeable: WriteableIndex?

    constructor ()
      ensures values == map[] && writeable == null
    {
      values := map[];
      writeable := null;
    }

    /** The indexer's getter: a url not in the map raises `KeyNotFoundException`. */
    method Get(url: string) returns (r: Result<ObjectId, IndexError>)
      ensures r.Ok? <==> url in values
      ensures r.Ok? ==> r.value == values[url]
      ensures r.Err? ==> r.error == KeyNotFound
    {
      if url !in values {
        return Err(KeyNotFound);
      }
      r := Ok(values[url]);
    }

    /** The indexer's setter: writes through to the writeable index when there
        is one, then stores the value. */
    method Set(url: string, value: ObjectId)
      modifies this, writeable
      ensures values == old(values)[url := value]
      ensures writeable == old(writeable)
      ensures writeable != null ==> writeable.assignments == old(writeable.assignments) + [(url, value)]
    {
      if writeable != null {
        writeable.assignments := writeable.assignments + [(url, value)];
      }
      values := values[url := value];
    }

    /** `Merge(assets)`: each pair is written in turn, so the last pair for a
        key wins. */
    method Merge(assets: seq<(string, ObjectId)>)
      modifies this
      ensures values == MergeAll(old(values), assets)
      ensures writeable == old(writeable)
    {
      for i := 0 to |assets|
        invariant values == MergeAll(old(values), assets[..i])
        invariant writeable == old(writeable)
      {
        assert assets[..i + 1][..i] == assets[..i];
        values := values[assets[i].0 := assets[i].1];
      }
      assert assets[..|assets|] == assets;
    }

    /** `Merge(IContentIndexMap)`: merges the pairs the other index enumerates. */
    method MergeFrom(other: ObjectDatabaseContentIndexMap)
      modifies this
      ensures values == old(values) + old(other.values)
      ensures writeable == old(writeable)
    {
      var assets := other.GetMergedIdMap();
      MergeDistinctIsOverride(values, other.values, assets);
      Merge(assets);
    }

    /** `Unmerge`: every listed key is removed, whatever its value. */
    method Unmerge(assets: seq<(string, ObjectId)>)
      modifies this
      ensures values == old(values) - KeysOf(assets)
      ensures writeable == old(writeable)
    {
      for i := 0 to |assets|
        invariant values == old(values) - KeysOf(assets[..i])
        invariant writeable == old(writeable)
      {
        assert KeysOf(assets[..i + 1]) == KeysOf(assets[..i]) + {assets[i].0};
        values := values - {assets[i].0};
      }
      assert assets[..|assets|] == assets;
    }

    /** `TryGetValue`: whether the url is present, and its id (the default,
        all-zero id when it is not). */
    method TryGetValue(url: string) returns (found: bool, objectId: ObjectId)
      ensures found <==> url in values
      ensures found ==> objectId == values[url]
      ensures !found ==> objectId == Empty
    {
      if url in values {
        return true, values[url];
      }
      return false, Empty;
    }

    /** `Contains`. */
    method Contains(url: string) returns (r: bool)
      ensures r <==> url in values
    {
      r := url in values;
    }

    /** `SearchValues`: the pairs satisfying the predicate, each once, in the
        map's enumeration order (left unspecified). */
    method SearchValues(matches: ((string, ObjectId)) -> bool) returns (pairs: seq<(string, ObjectId)>)
      ensures forall i :: 0 <= i < |pairs| ==> pairs[i].0 in values && pairs[i].1 == values[pairs[i].0] && matches(pairs[i])
      ensures forall k :: k in values && matches((k, values[k])) ==> (k, values[k]) in pairs
      ensures DistinctKeys(pairs)
    {
      pairs := [];
      var rest := values.Keys;
      while rest != {}
        invariant rest <= values.Keys
        invariant forall i :: 0 <= i < |pairs| ==> pairs[i].0 in values && pairs[i].0 !in rest && pairs[i].1 == values[pairs[i].0] && matches(pairs[i])
        invariant forall k :: k in values && k !in rest && matches((k, values[k])) ==> (k, values[k]) in pairs
        invariant DistinctKeys(pairs)
        decreases rest
      {
        var k :| k in rest;
        if matches((k, values[k])) {
          pairs := pairs + [(k, values[k])];
        }
        rest := rest - {k};
      }
    }

    /** `GetMergedIdMap`: every pair of the map, each once. */
    method GetMergedIdMap() returns (pairs: seq<(string, ObjectId)>)
      ensures forall i :: 0 <= i < |pairs| ==> pairs[i].0 in values && pairs[i].1 == values[pairs[i].0]
      ensures forall k :: k in values ==> k in KeysOf(pairs)
      ensures DistinctKeys(pairs)
    {
      pairs := [];
      var rest := values.Keys;
      while rest != {}
        invariant rest <= values.Keys
        invariant forall i :: 0 <= i < |pairs| ==> pairs[i].0 in values && pairs[i].0 !in rest && pairs[i].1 == values[pairs[i].0]
        invariant forall k :: k in values && k !in rest ==> k in KeysOf(pairs)
        invariant DistinctKeys(pairs)
        decreases rest
      {
        var k :| k in rest;
        AppendNewKey(pairs, (k, values[k]));
        pairs := pairs + [(k, values[k])];
        rest := rest - {k};
      }
    }
  }
}
