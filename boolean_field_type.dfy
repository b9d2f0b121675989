/** The `boolean` field type: a checkbox whose empty value is `false`. */
module BooleanFieldType {
  import opened Json
  import opened Fields

  const TypeLabel := "Boolean"

  /** Read mapping: null reads as `false`, any other value as itself. */
  function MapGetValue(f: Field, v: Arg): (r: Arg)
    ensures v.Null? ==> r == Bool(false)
    ensures v.Bool? ==> r == v
  {
    if v.Null? then Bool(false) else v
  }

  /** Store mapping: the same as the read mapping. */
  function MapStoreValue(f: Field, v: Arg): (r: Arg)
    ensures v.Null? ==> r == Bool(false)
    ensures v.Bool? ==> r == v
  {
    if v.Null? then Bool(false) else v
  }

  /** The type has no attributes, so any definition is valid. */
  predicate ValidateField(f: Field) {
    true
  }

  /** Only a boolean is valid; a required field must be ticked. */
  predicate ValidateValue(f: Field, v: Arg) {
    v.Bool? && (f.required ==> v.b)
  }

  /** "Yes" for a truthy value, "No" for anything else, null included; `getValueAsFormat` gives the same text. */
  function GetValueAsText(f: Field, v: Arg): (r: string)
    ensures r == "Yes" || r == "No"
    ensures r == "Yes" <==> Truthy(v)
  {
    if Truthy(Coalesce(v, Bool(false))) then "Yes" else "No"
  }

  /** Only booleans pass, so null, strings and numbers are all rejected; a required field accepts `true` alone. */
  lemma ValidValues(f: Field, v: Arg)
    ensures ValidateValue(f, v) ==> v.Bool?
    ensures f.required ==> (ValidateValue(f, v) <==> v == Bool(true))
    ensures !f.required ==> (ValidateValue(f, v) <==> v.Bool?)
  {
  }

  /**
   * The store and read mappings are lossless on valid values, and the value
   * they give null (`false`) is valid exactly when the field is optional.
   */
  lemma MappingRoundTrip(f: Field, v: Arg)
    ensures ValidateValue(f, v) ==> MapGetValue(f, MapStoreValue(f, v)) == v
    ensures MapGetValue(f, MapStoreValue(f, Null)) == Bool(false)
    ensures ValidateValue(f, MapStoreValue(f, Null)) <==> !f.required
  {
  }
}
