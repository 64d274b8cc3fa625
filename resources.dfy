/** Godot resources as the plugin sees them: an object with named properties
    and a runtime type name. */
module Resources {

  /** The part of a Godot Variant the plugin inspects: a string, or anything else.
      `Nil` is what `Get` yields for a property the resource does not have. */
  datatype Variant = Nil | Str(s: string) | Other

  /** A loaded resource. It is an object: the inspector edits its properties in place,
      and the buttons compare it by identity. */
  class Resource {
    var props: map<string, Variant>
    const typeName: string

    constructor (props: map<string, Variant>, typeName: string)
      ensures this.props == props && this.typeName == typeName
    {
      this.props := props;
      this.typeName := typeName;
    }
  }

  /** `Resource.Get(key)`: the property's value, or nil when there is none. */
  function Get(props: map<string, Variant>, key: string): Variant
  {
    if key in props then props[key] else Nil
  }

  /** The property holds a string (not some other variant) and that string is not empty. */
  predicate HasValue(v: Variant)
  {
    v.Str? && |v.s| > 0
  }
}
