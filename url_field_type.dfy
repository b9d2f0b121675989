/**
 * The `url` field type: a value is "" or text that the URL parser of the
 * WHATWG URL Standard (section 4.4) accepts; filters test equality or,
 * with the "contains" attribute, case-insensitive containment.
 */
module UrlFieldType {
  import opened Json
  import opened Host
  import opened Fields

  const TypeLabel := "Url"

  const FilterAttributeContains := "contains"

  function GetFieldTableAdditionalColumn(f: Field): (r: seq<Column>)
    ensures r == [("Placeholder", Attr(f, "placeholder"))]
  {
    [("Placeholder", Attr(f, "placeholder"))]
  }

  function GetValueAsFormat(f: Field, v: Arg): Value {
    v
  }

  function GetValueAsText(f: Field, v: Arg): Value {
    v
  }

  function MapFilterValue(f: Field, v: Arg): (r: Arg)
    ensures r == v
  {
    v
  }

  /** `mapGetField` and `mapStoreField`: the type keeps its placeholder. */
  function MapField(f: Field): (r: map<string, Value>)
    ensures r.Keys == {"placeholder"} && r["placeholder"] == Attr(f, "placeholder")
  {
    map["placeholder" := Attr(f, "placeholder")]
  }

  function MapGetValue(f: Field, v: Arg): (r: Value)
    ensures v.Null? ==> r == Str("")
    ensures v.Str? ==> r == v
  {
    OrEmptyString(v)
  }

  function MapStoreValue(f: Field, v: Arg): (r: Value)
    ensures v.Null? ==> r == Str("")
    ensures v.Str? ==> r == v
  {
    OrEmptyString(v)
  }

  /**
   * With "contains", the lower-cased value must contain the lower-cased
   * filter; otherwise the two must be equal. Null counts as "" on both
   * sides; lower-casing anything but a string throws.
   */
  function MatchFilterValue(env: Env, f: Field, v: Arg, filter: Arg, attribute: Arg): (r: Reply<bool>)
    ensures attribute == Str(FilterAttributeContains) && v.Str? && filter.Str? ==>
              r == Return(Includes(env.lower(v.s), env.lower(filter.s)))
    ensures attribute == Str(FilterAttributeContains) && v.Null? && filter.Str? ==>
              r == Return(Includes(env.lower(""), env.lower(filter.s)))
    ensures attribute != Str(FilterAttributeContains) ==>
              r == Return(StrictEquals(Coalesce(v, Str("")), Coalesce(filter, Str(""))))
    ensures attribute != Str(FilterAttributeContains) && v.Null? && filter.Null? ==> r == Return(true)
  {
    if attribute == Str(FilterAttributeContains) then
      var value, text := Coalesce(v, Str("")), Coalesce(filter, Str(""));
      if value.Str? && text.Str? then Return(Includes(env.lower(value.s), env.lower(text.s))) else Throw
    else Return(StrictEquals(Coalesce(v, Str("")), Coalesce(filter, Str(""))))
  }

  predicate ValidateField(f: Field) {
    Attr(f, "placeholder").Str?
  }

  /**
   * The attribute is null or "contains" and the value a string; without an
   * attribute a non-empty value must parse as a URL, with one the value
   * must not be empty.
   */
  predicate ValidateFilterValue(env: Env, f: Field, v: Arg, attribute: Arg) {
    (attribute.Null? || attribute == Str(FilterAttributeContains)) &&
    v.Str? &&
    !(attribute.Null? && v.s != "" && !env.canParseUrl(v.s)) &&
    !(!attribute.Null? && v.s == "")
  }

  /** A string; a non-empty one must parse as a URL; a required field rejects "". */
  predicate ValidateValue(env: Env, f: Field, v: Arg) {
    v.Str? && (v.s != "" ==> env.canParseUrl(v.s)) && !(f.required && v.s == "")
  }

  /** Without an attribute, a valid filter is exactly a valid value of an optional field. */
  lemma EqualityFilterIsValue(env: Env, f: Field, v: Arg)
    requires !f.required
    ensures ValidateFilterValue(env, f, v, Null) <==> ValidateValue(env, f, v)
  {
  }

  /** A valid "contains" filter is a non-empty string and needs no URL syntax. */
  lemma ContainsFilter(env: Env, f: Field, v: Arg)
    ensures ValidateFilterValue(env, f, v, Str(FilterAttributeContains)) <==> v.Str? && v.s != ""
  {
  }

  /** The mappings are lossless on valid values; null becomes "", which is valid exactly when optional. */
  lemma MappingRoundTrip(env: Env, f: Field, v: Arg)
    ensures ValidateValue(env, f, v) ==> MapGetValue(f, MapStoreValue(f, v)) == v
    ensures ValidateValue(env, f, MapStoreValue(f, Null)) <==> !f.required
  {
  }
}
