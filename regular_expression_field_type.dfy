/**
 * The `regular-expression` field type: a string that the field's own
 * pattern accepts. Compiling and testing a pattern are host operations.
 */
module RegularExpressionFieldType {
  import opened Json
  import opened Host
  import opened Fields

  const TypeLabel := "Regular expression"

  function GetFieldTableAdditionalColumn(f: Field): (r: seq<Column>)
    ensures r == [("Placeholder", Attr(f, "placeholder")), ("Regular expression", Attr(f, "regular-expression"))]
  {
    [("Placeholder", Attr(f, "placeholder")), ("Regular expression", Attr(f, "regular-expression"))]
  }

  /** "-" for "" or null, the value otherwise. */
  function GetValueAsText(f: Field, v: Arg): (r: Value)
    ensures v.Null? || v == Str("") ==> r == Str("-")
    ensures !(v.Null? || v == Str("")) ==> r == v
  {
    if !StrictEquals(Coalesce(v, Str("")), Str("")) then v else Str("-")
  }

  /** `mapGetField` and `mapStoreField`: the type keeps its placeholder and its pattern. */
  function MapField(f: Field): (r: map<string, Value>)
    ensures r.Keys == {"placeholder", "regular-expression"}
    ensures forall k :: k in r ==> r[k] == Attr(f, k)
  {
    map["placeholder" := Attr(f, "placeholder"), "regular-expression" := Attr(f, "regular-expression")]
  }

  function MapGetValue(f: Field, v: Arg): (r: Value)
    ensures v.Null? ==> r == Str("")
    ensures v.Str? ==> r == v
  {
    OrEmptyString(v)
  }

  function MapStoreValue(f: Field, v: Arg): (r: Value)
    ensures v.Null? ==> r == Str("")
    ensures v.Str? ==> r == v
  {
    OrEmptyString(v)
  }

  /** A string placeholder and a non-empty pattern that compiles. */
  predicate ValidateField(env: Env, f: Field) {
    var pattern := Attr(f, "regular-expression");
    Attr(f, "placeholder").Str? && pattern.Str? && pattern.s != "" && env.regexCompiles(pattern.s)
  }

  /** A string; a non-empty one must match the field's pattern; a required field rejects "". */
  predicate ValidateValue(env: Env, f: Field, v: Arg) {
    v.Str? &&
    (v.s != "" ==> env.regexTest(Text(env.numberText, Attr(f, "regular-expression")), v.s)) &&
    !(f.required && v.s == "")
  }

  /** A definition whose pattern does not compile, or is empty, is refused. */
  lemma PatternChecked(env: Env, f: Field)
    ensures ValidateField(env, f) ==> Attr(f, "regular-expression").Str? && env.regexCompiles(Attr(f, "regular-expression").s)
    ensures Attr(f, "regular-expression") == Str("") ==> !ValidateField(env, f)
  {
  }

  /** A non-empty valid value matches the pattern of its field; "" is valid exactly when optional. */
  lemma ValidValues(env: Env, f: Field, v: Arg)
    requires Attr(f, "regular-expression").Str?
    ensures ValidateValue(env, f, v) && v.s != "" ==> env.regexTest(Attr(f, "regular-expression").s, v.s)
    ensures ValidateValue(env, f, Str("")) <==> !f.required
    ensures !v.Str? ==> !ValidateValue(env, f, v)
  {
  }

  /** The mappings are lossless on valid values; null becomes "", which is valid exactly when optional. */
  lemma MappingRoundTrip(env: Env, f: Field, v: Arg)
    ensures ValidateValue(env, f, v) ==> MapGetValue(f, MapStoreValue(f, v)) == v
    ensures ValidateValue(env, f, MapStoreValue(f, Null)) <==> !f.required
  {
  }
}
