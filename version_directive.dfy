/** `VersionDirective`: the token of a `%YAML` directive, equal to another
    such token when their versions are equal, wherever they are in the
    input. */
module VersionDirectives {
  import YamlVersions
  import opened YamlNodes

  datatype VersionDirective = VersionDirective(version: YamlVersions.Version, start: Mark, end: Mark)

  /** The object `Equals` is given: null, a `VersionDirective`, or anything
      else. */
  datatype DirectiveOrOther = NullObject | ADirective(directive: VersionDirective) | OtherObject

  /** `VersionDirective(version)`: a token with empty marks. */
  function FromVersion(version: YamlVersions.Version): (d: VersionDirective)
    ensures d.version == version && d.start == d.end
  {
    VersionDirective(version, Mark(0, 0, 0), Mark(0, 0, 0))
  }

  /** `Equals(object)`: the other object is a directive whose version equals
      this one's. */
  function DirectiveEquals(d: VersionDirective, obj: DirectiveOrOther): (r: bool)
    ensures r <==> obj.ADirective? && obj.directive.version == d.version
  {
    obj.ADirective? && YamlVersions.Equals(d.version, YamlVersions.AVersion(obj.directive.version))
  }

  /** `GetHashCode`: the version's hash. */
  function DirectiveHash(d: VersionDirective): (h: int)
    ensures h == YamlVersions.GetHashCode(d.version)
  {
    YamlVersions.GetHashCode(d.version)
  }

  /** The marks play no part in equality; equality is reflexive and
      symmetric; equal directives hash equally; no directive equals null or
      an object of another type. */
  lemma DirectiveEqualsIgnoresMarks(d: VersionDirective, e: VersionDirective)
    ensures DirectiveEquals(d, ADirective(e)) <==> d.version == e.version
    ensures DirectiveEquals(d, ADirective(d))
    ensures DirectiveEquals(d, ADirective(e)) == DirectiveEquals(e, ADirective(d))
    ensures DirectiveEquals(d, ADirective(e)) ==> DirectiveHash(d) == DirectiveHash(e)
    ensures !DirectiveEquals(d, NullObject) && !DirectiveEquals(d, OtherObject)
  {
  }
}
