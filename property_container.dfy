/** `PropertyContainer`: a dictionary from property keys to values, created on
    first write, whose keys may carry a default value (optionally kept once
    read) and an update callback. Keys with accessor metadata, validation and
    invalidation metadata, and value-type boxing are not part of this model;
    a key's default value is one fixed value per key. The callbacks are
    recorded in order, not run. */
module PropertyContainers {
  import opened Wrappers

  /** A value of the container: null, or an object with an identity and a
      content that `Equals` compares. */
  datatype Value = Null | Obj(address: nat, content: int)

  /** `DefaultValueMetadata`: the default value, and whether reading it
      stores it. */
  datatype DefaultValue = DefaultValue(value: Value, keepValue: bool)

  /** A `PropertyKey` without accessor metadata. `isReferenceType` holds when
      the property type is a class other than `string`. */
  datatype PropertyKey = PropertyKey(
    name: string,
    defaultValue: Option<DefaultValue>,
    hasUpdateCallback: bool,
    isReferenceType: bool)

  /** Whose callback ran: the container's `PropertyUpdated` event or the
      key's `PropertyUpdateCallback`. */
  datatype Listener = ContainerEvent | KeyCallback

  datatype Notification = Notification(listener: Listener, key: PropertyKey, newValue: Value, oldValue: Value)

  datatype PropertyError = DuplicateKey

  /** `ReferenceEquals`. */
  predicate ReferenceEquals(a: Value, b: Value) {
    (a.Null? && b.Null?) || (a.Obj? && b.Obj? && a.address == b.address)
  }

  /** `object.Equals(a, b)` for boxed values and strings: the same object, or
      two objects with equal contents. */
  predicate ObjectEquals(a: Value, b: Value) {
    ReferenceEquals(a, b) || (a.Obj? && b.Obj? && a.content == b.content)
  }

  /** `ArePropertyValuesEqual`: identity for reference types other than
      `string`, `Equals` otherwise. */
  function ArePropertyValuesEqual(key: PropertyKey, a: Value, b: Value): (r: bool)
    ensures key.isReferenceType ==> (r <==> ReferenceEquals(a, b))
    ensures !key.isReferenceType ==> (r <==> ObjectEquals(a, b))
  {
    if key.isReferenceType then ReferenceEquals(a, b) else ObjectEquals(a, b)
  }

  /** The comparison is reflexive and symmetric, null equals only null, and
      identical objects are always equal. */
  lemma PropertyValuesEqualIsReflexiveAndSymmetric(key: PropertyKey, a: Value, b: Value)
    ensures ArePropertyValuesEqual(key, a, a)
    ensures ArePropertyValuesEqual(key, a, b) == ArePropertyValuesEqual(key, b, a)
    ensures a.Null? ==> (ArePropertyValuesEqual(key, a, b) <==> b.Null?)
    ensures ReferenceEquals(a, b) ==> ArePropertyValuesEqual(key, a, b)
  {
  }

  /** The value a key has when nothing is stored for it: its default value,
      or null. */
  function DefaultOf(key: PropertyKey): Value {
    if key.defaultValue.Some? then key.defaultValue.value.value else Null
  }

  /** Does reading the key store its default value? */
  predicate KeepsDefault(key: PropertyKey) {
    key.defaultValue.Some? && key.defaultValue.value.keepValue
  }

  /** The value of `key` in the stored map, or its default. */
  function Lookup(stored: map<PropertyKey, Value>, key: PropertyKey): (v: Value)
    ensures key in stored ==> v == stored[key]
    ensures key !in stored ==> v == DefaultOf(key)
  {
    if key in stored then stored[key] else DefaultOf(key)
  }

  /** The callbacks a change from `oldValue` to `newValue` runs: none when the
      two values compare equal, otherwise the container's event and the
      key's callback when they exist, in the order given. */
  function Updates(key: PropertyKey, newValue: Value, oldValue: Value, hasListener: bool, keyCallbackFirst: bool): (r: seq<Notification>)
    ensures ArePropertyValuesEqual(key, newValue, oldValue) ==> r == []
    ensures !ArePropertyValuesEqual(key, newValue, oldValue) ==>
              && |r| == (if hasListener then 1 else 0) + (if key.hasUpdateCallback then 1 else 0)
              && (forall i :: 0 <= i < |r| ==> r[i].key == key && r[i].newValue == newValue && r[i].oldValue == oldValue)
              && (Notification(ContainerEvent, key, newValue, oldValue) in r <==> hasListener)
              && (Notification(KeyCallback, key, newValue, oldValue) in r <==> key.hasUpdateCallback)
              && (|r| == 2 ==> r[0].listener == (if keyCallbackFirst then KeyCallback else ContainerEvent))
  {
    if ArePropertyValuesEqual(key, newValue, oldValue) then []
    else
      var event := if hasListener then [Notification(ContainerEvent, key, newValue, oldValue)] else [];
      var callback := if key.hasUpdateCallback then [Notification(KeyCallback, key, newValue, oldValue)] else [];
      if keyCallbackFirst then callback + event else event + callback
  }

  class PropertyContainer {
    /** `properties`: `None` until the first write. */
    var properties: Option<map<PropertyKey, Value>>
    /** Whether a handler is subscribed to `PropertyUpdated`. */
    var hasListener: bool
    /** The callbacks run so far, in order. */
    var notifications: seq<Notification>

    constructor (hasListener: bool)
      ensures properties == None && this.hasListener == hasListener && notifications == []
    {
      properties := None;
      this.hasListener := hasListener;
      notifications := [];
    }

    /** The stored entries; none while the dictionary is not created. */
    function Stored(): (m: map<PropertyKey, Value>)
      reads this
      ensures properties.None? ==> m == map[]
      ensures properties.Some? ==> m == properties.value
    {
      if properties.Some? then properties.value else map[]
    }

    /** `ContainsKey`, for a key without accessor metadata. */
    predicate ContainsKey(key: PropertyKey)
      reads this
      ensures ContainsKey(key) <==> key in Stored()
    {
      properties.Some? && key in properties.value
    }

    /** `GetNonRecursive`: the stored value, else the default, else null;
        never stores anything. */
    function GetNonRecursive(key: PropertyKey): (v: Value)
      reads this
      ensures v == Lookup(Stored(), key)
    {
      if properties.Some? && key in properties.value then properties.value[key]
      else if key.defaultValue.Some? then key.defaultValue.value.value
      else Null
    }

    /** `Get(propertyKey, forceNotToKeep)`: the stored value, else the
        default, else null. A default whose metadata says `KeepValue` is
        stored through `SetObject`, unless `forceNotToKeep`. */
    method GetValue(key: PropertyKey, forceNotToKeep: bool) returns (v: Value)
      modifies this
      ensures v == old(GetNonRecursive(key))
      ensures hasListener == old(hasListener) && notifications == old(notifications)
      ensures key in old(Stored()) || !KeepsDefault(key) || forceNotToKeep ==> properties == old(properties)
      ensures key !in old(Stored()) && KeepsDefault(key) && !forceNotToKeep ==>
                properties == Some(old(Stored())[key := DefaultOf(key)])
      decreases if forceNotToKeep then 0 else 2
    {
      if properties.Some? && key in properties.value {
        return properties.value[key];
      }
      if key.defaultValue.Some? {
        var defaultValue := key.defaultValue.value.value;
        if key.defaultValue.value.keepValue && !forceNotToKeep {
          var _ := SetObject(key, defaultValue, false);
        }
        return defaultValue;
      }
      return Null;
    }

    /** `Get(propertyKey)`, also the indexer's getter. */
    method Get(key: PropertyKey) returns (v: Value)
      modifies this
      ensures v == old(GetNonRecursive(key))
      ensures hasListener == old(hasListener) && notifications == old(notifications)
      ensures key in old(Stored()) || !KeepsDefault(key) ==> properties == old(properties)
      ensures key !in old(Stored()) && KeepsDefault(key) ==> properties == Some(old(Stored())[key := DefaultOf(key)])
    {
      v := GetValue(key, false);
    }

    /** `SetObject(propertyKey, tagValue, tryToAdd)`: creates the dictionary
        if needed, then stores the value; with `tryToAdd` a key already stored
        makes the dictionary's `Add` throw and nothing is stored. When the
        value changed, the container's event and then the key's callback run. */
    method SetObject(key: PropertyKey, value: Value, tryToAdd: bool) returns (r: Outcome<PropertyError>)
      modifies this
      ensures properties.Some? && hasListener == old(hasListener)
      ensures r.Fail? <==> tryToAdd && key in old(Stored())
      ensures r.Fail? ==> r.error == DuplicateKey && Stored() == old(Stored()) && notifications == old(notifications)
      ensures r.Pass? ==> Stored() == old(Stored())[key := value]
      ensures r.Pass? ==>
                notifications == old(notifications) +
                  (if hasListener || key.hasUpdateCallback
                   then Updates(key, value, old(GetNonRecursive(key)), hasListener, false) else [])
      decreases 1
    {
      var oldValue := GetValue(key, true);
      if properties.None? {
        properties := Some(map[]);
      }
      var table := properties.value;
      if hasListener || key.hasUpdateCallback {
        var previousValue := GetNonRecursive(key);
        if tryToAdd && key in table {
          return Fail(DuplicateKey);
        }
        properties := Some(table[key := value]);
        if !ArePropertyValuesEqual(key, value, previousValue) {
          if hasListener {
            notifications := notifications + [Notification(ContainerEvent, key, value, previousValue)];
          }
          if key.hasUpdateCallback {
            notifications := notifications + [Notification(KeyCallback, key, value, previousValue)];
          }
        }
      } else {
        if tryToAdd && key in table {
          return Fail(DuplicateKey);
        }
        properties := Some(table[key := value]);
      }
      r := Pass;
    }

    /** The public `SetObject(propertyKey, tagValue)`, also the indexer's
        setter: always stores. */
    method Set(key: PropertyKey, value: Value)
      modifies this
      ensures Stored() == old(Stored())[key := value] && hasListener == old(hasListener)
      ensures notifications == old(notifications) +
                (if hasListener || key.hasUpdateCallback
                 then Updates(key, value, old(GetNonRecursive(key)), hasListener, false) else [])
    {
      var _ := SetObject(key, value, false);
    }

    /** `Add(key, value)`: fails on a key already stored, leaving the entries
        as they were. */
    method Add(key: PropertyKey, value: Value) returns (r: Outcome<PropertyError>)
      modifies this
      ensures hasListener == old(hasListener)
      ensures r.Fail? <==> key in old(Stored())
      ensures r.Fail? ==> Stored() == old(Stored()) && notifications == old(notifications)
      ensures r.Pass? ==> Stored() == old(Stored())[key := value]
      ensures r.Pass? ==>
                notifications == old(notifications) +
                  (if hasListener || key.hasUpdateCallback
                   then Updates(key, value, DefaultOf(key), hasListener, false) else [])
    {
      r := SetObject(key, value, true);
    }

    /** `Remove`: reads the key first (which stores a `KeepValue` default),
        then removes it. With a listener or a callback the key is read again
        (storing the default once more) and a change is reported, the key's
        callback first. The result is whether an entry was removed. */
    method Remove(key: PropertyKey) returns (removed: bool)
      modifies this
      ensures hasListener == old(hasListener)
      ensures removed <==> key in old(Stored()) || KeepsDefault(key)
      ensures Stored() - {key} == old(Stored()) - {key}
      ensures key in Stored() <==> KeepsDefault(key) && (hasListener || key.hasUpdateCallback)
      ensures key in Stored() ==> Stored()[key] == DefaultOf(key)
      ensures notifications == old(notifications) +
                (if hasListener || key.hasUpdateCallback
                 then Updates(key, DefaultOf(key), old(GetNonRecursive(key)), hasListener, true) else [])
      // Without a `KeepValue` default this is the intended removal ...
      ensures !KeepsDefault(key) ==>
                removed == RemoveStored(old(Stored()), key).0 && Stored() == RemoveStored(old(Stored()), key).1
      // ... with one, a key never stored is reported as removed.
      ensures KeepsDefault(key) && key !in old(Stored()) ==> removed && !RemoveStored(old(Stored()), key).0
    {
      removed := false;
      var previousValue := Get(key);
      if hasListener || key.hasUpdateCallback {
        if properties.Some? {
          removed := key in properties.value;
          properties := Some(properties.value - {key});
        }
        var tagValue := Get(key);
        if !ArePropertyValuesEqual(key, tagValue, previousValue) {
          if key.hasUpdateCallback {
            notifications := notifications + [Notification(KeyCallback, key, tagValue, previousValue)];
          }
          if hasListener {
            notifications := notifications + [Notification(ContainerEvent, key, tagValue, previousValue)];
          }
        }
      } else {
        if properties.Some? {
          removed := key in properties.value;
          properties := Some(properties.value - {key});
        }
      }
    }

    /** `Clear`: empties the dictionary if it exists; no callback runs. */
    method Clear()
      modifies this
      ensures Stored() == map[]
      ensures properties.Some? == old(properties.Some?)
      ensures hasListener == old(hasListener) && notifications == old(notifications)
    {
      if properties.Some? {
        properties := Some(map[]);
      }
    }

    /** `TryGetValue`: the stored value of a stored key, else null. */
    method TryGetValue(key: PropertyKey) returns (found: bool, value: Value)
      modifies this
      ensures found <==> key in old(Stored())
      ensures found ==> value == old(Stored())[key]
      ensures !found ==> value == Null
      ensures properties == old(properties) && hasListener == old(hasListener) && notifications == old(notifications)
    {
      if ContainsKey(key) {
        value := Get(key);
        return true, value;
      }
      return false, Null;
    }

    /** `Count`: counts the enumerated entries one by one; with no accessor
        properties these are the stored entries. */
    method Count() returns (count: nat)
      ensures count == |Stored().Keys|
    {
      count := 0;
      if properties.None? {
        return;
      }
      var rest := properties.value.Keys;
      while rest != {}
        invariant rest <= properties.value.Keys
        invariant count + |rest| == |properties.value.Keys|
        decreases rest
      {
        var k :| k in rest;
        rest := rest - {k};
        count := count + 1;
      }
    }
  }

  /** Removal as `Remove` evidently means it: the result says whether the key
      was stored, afterwards the key is not stored (so it reads as its
      default), and every other key keeps its entry. */
  function RemoveStored(stored: map<PropertyKey, Value>, key: PropertyKey): (r: (bool, map<PropertyKey, Value>))
    ensures r.0 <==> key in stored
    ensures key !in r.1 && Lookup(r.1, key) == DefaultOf(key)
    ensures forall k :: k != key ==> (k in r.1 <==> k in stored)
    ensures forall k :: k in r.1 ==> r.1[k] == stored[k]
  {
    (key in stored, stored - {key})
  }

  /** Removing a key twice: the second removal reports nothing and changes
      nothing; other keys read as before. */
  lemma RemoveStoredIsIdempotent(stored: map<PropertyKey, Value>, key: PropertyKey, other: PropertyKey)
    ensures var (_, once) := RemoveStored(stored, key);
            RemoveStored(once, key) == (false, once)
    ensures other != key ==> Lookup(RemoveStored(stored, key).1, other) == Lookup(stored, other)
  {
    var once := RemoveStored(stored, key).1;
    assert once - {key} == once;
  }

  /** Storing a value and reading it back gives that value, whatever was
      stored or defaulted before, and other keys keep their values. */
  lemma LookupAfterStore(stored: map<PropertyKey, Value>, key: PropertyKey, other: PropertyKey, value: Value)
    ensures Lookup(stored[key := value], key) == value
    ensures other != key ==> Lookup(stored[key := value], other) == Lookup(stored, other)
  {
  }

  /** A callback runs only when the value changes, and then each existing
      listener runs exactly once. */
  lemma UpdatesOnlyOnChange(key: PropertyKey, newValue: Value, oldValue: Value, hasListener: bool, keyCallbackFirst: bool)
    ensures Updates(key, newValue, oldValue, hasListener, keyCallbackFirst) != [] <==>
              !ArePropertyValuesEqual(key, newValue, oldValue) && (hasListener || key.hasUpdateCallback)
  {
  }
}
