/** `Version`: the version of the YAML language named by a `%YAML`
    directive, compared by value. */
module YamlVersions {
  import opened Numerics

  /** A C# `int`. */
  newtype int32 = x: int | -0x8000_0000 <= x < 0x8000_0000

  datatype Version = Version(major: int32, minor: int32)

  /** The object `Equals` is given: null, a `Version`, or anything else. */
  datatype VersionOrOther = NullObject | AVersion(version: Version) | OtherObject

  /** `Equals(object)`: the other object is a version with the same major and
      minor numbers. */
  function Equals(v: Version, obj: VersionOrOther): (r: bool)
    ensures r <==> obj == AVersion(v)
  {
    var other := if obj.AVersion? then obj.version else Version(0, 0);
    obj.AVersion? && v.major == other.major && v.minor == other.minor
  }

  /** `GetHashCode`: `Major ^ Minor`, an `int`'s hash being the value
      itself. */
  function GetHashCode(v: Version): (h: int)
    ensures InRange(h, W32)
  {
    Xor32(v.major as int, v.minor as int)
  }

  /** Equality is reflexive and symmetric, equal versions hash equally, and
      no version equals null or an object of another type. */
  lemma EqualsIsAnEquivalence(a: Version, b: Version)
    ensures Equals(a, AVersion(a))
    ensures Equals(a, AVersion(b)) == Equals(b, AVersion(a))
    ensures Equals(a, AVersion(b)) ==> GetHashCode(a) == GetHashCode(b)
    ensures !Equals(a, NullObject) && !Equals(a, OtherObject)
  {
  }

  /** Swapping the two numbers keeps the hash: `1.2` and `2.1` collide. */
  lemma SwappedVersionsHashEqually(a: int32, b: int32)
    ensures GetHashCode(Version(a, b)) == GetHashCode(Version(b, a))
  {
    var x, y := ToUnsigned(a as int, W32) as bv32, ToUnsigned(b as int, W32) as bv32;
    assert x ^ y == y ^ x;
  }
}
