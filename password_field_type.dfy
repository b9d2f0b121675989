/** The `password` field type: any string, never shown in clear. */
module PasswordFieldType {
  import opened Json
  import opened Host
  import opened Fields

  const TypeLabel := "Password"

  /** The ten bullets that stand for a set password. */
  const Mask: string := "●●●●●●●●●●"

  /** `getFieldTableOtherColumn`: the placeholder (the service never asks for it under this name). */
  function GetFieldTableOtherColumn(f: Field): (r: seq<Column>)
    ensures r == [("Placeholder", Attr(f, "placeholder"))]
  {
    [("Placeholder", Attr(f, "placeholder"))]
  }

  /** The mask for a set password and "-" for "" or null: the text never depends on the characters of the value. */
  function GetValueAsText(f: Field, v: Arg): (r: string)
    ensures r == Mask || r == "-"
    ensures r == "-" <==> v.Null? || v == Str("")
  {
    if !StrictEquals(Coalesce(v, Str("")), Str("")) then Mask else "-"
  }

  /** Two set passwords read the same, whatever they are. */
  lemma TextHidesValue(f: Field, a: string, b: string)
    requires a != "" && b != ""
    ensures GetValueAsText(f, Str(a)) == GetValueAsText(f, Str(b)) == Mask
    ensures |Mask| == 10
  {
  }

  /** `mapGetField` and `mapStoreField`: the type keeps its placeholder. */
  function MapField(f: Field): (r: map<string, Value>)
    ensures r.Keys == {"placeholder"} && r["placeholder"] == Attr(f, "placeholder")
  {
    map["placeholder" := Attr(f, "placeholder")]
  }

  function MapGetValue(f: Field, v: Arg): (r: Value)
    ensures v.Null? ==> r == Str("")
    ensures v.Str? ==> r == v
  {
    OrEmptyString(v)
  }

  function MapStoreValue(f: Field, v: Arg): (r: Value)
    ensures v.Null? ==> r == Str("")
    ensures v.Str? ==> r == v
  {
    OrEmptyString(v)
  }

  predicate ValidateField(f: Field) {
    Attr(f, "placeholder").Str?
  }

  /** Any string; a required field rejects "". */
  predicate ValidateValue(f: Field, v: Arg) {
    v.Str? && !(f.required && v.s == "")
  }

  /** There is no format constraint: every non-empty string is valid, no non-string is. */
  lemma ValidValues(f: Field, v: Arg)
    ensures v.Str? && v.s != "" ==> ValidateValue(f, v)
    ensures !v.Str? ==> !ValidateValue(f, v)
    ensures ValidateValue(f, Str("")) <==> !f.required
  {
  }

  /** The mappings are lossless on valid values; null becomes "", which is valid exactly when optional. */
  lemma MappingRoundTrip(f: Field, v: Arg)
    ensures ValidateValue(f, v) ==> MapGetValue(f, MapStoreValue(f, v)) == v
    ensures ValidateValue(f, MapStoreValue(f, Null)) <==> !f.required
  {
  }
}
