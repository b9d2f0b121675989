/** A field definition as the field service stores it and the field types read it. */
module Fields {
  import opened Json

  /**
   * The five attributes every field has, and the attributes of its type
   * (`minimal-value`, `placeholder`, `options`, ...) by name.
   */
  datatype Field = Field(
    fieldType: string,
    name: string,
    fieldLabel: string,
    subtitle: string,
    required: bool,
    attrs: map<string, Value>)

  /** `{name, value}`: one field's value in a record as the facade returns it. */
  datatype NamedValue = NamedValue(name: string, value: Value)

  /** `field[key]` for a type attribute: `undefined` when it is absent. */
  function Attr(f: Field, key: string): Value {
    if key in f.attrs then f.attrs[key] else Undefined
  }

  /** `value ?? ""`, the store/read mapping of the string-valued types. */
  function OrEmptyString(v: Arg): (r: Value)
    ensures v.Null? ==> r == Str("")
    ensures !v.Null? ==> r == v
  {
    if v.Null? then Str("") else v
  }

  /**
   * The inclusive bound checks of the date, time and number types: the value
   * must not be below `minimal-value` nor above `maximal-value`, and a bound
   * strictly equal to `none` ("" for dates and times, null for numbers)
   * imposes nothing.
   */
  predicate WithinBounds(f: Field, v: Value, none: Value) {
    (!StrictEquals(Attr(f, "minimal-value"), none) ==> !Less(v, Attr(f, "minimal-value"))) &&
    (!StrictEquals(Attr(f, "maximal-value"), none) ==> !Greater(v, Attr(f, "maximal-value")))
  }

  /** A column of the field table: a caption and its value. */
  type Column = (string, Value)
}
