/**
 * The `date` field type: a value is "" or a string that the value-format
 * library's `DATE_PATTERN` accepts, within optional bounds that are
 * compared as strings.
 */
module DateFieldType {
  import opened Json
  import opened Host
  import opened Fields

  const TypeLabel := "Date"

  /** The field-table columns: the two bounds as stored. */
  function GetFieldTableAdditionalColumn(f: Field): (r: seq<Column>)
    ensures |r| == 2
    ensures r[0] == ("Minimal value", Attr(f, "minimal-value"))
    ensures r[1] == ("Maximal value", Attr(f, "maximal-value"))
  {
    [("Minimal value", Attr(f, "minimal-value")), ("Maximal value", Attr(f, "maximal-value"))]
  }

  /** A date is formatted as an object that asks for UTC display. */
  function GetValueAsFormat(f: Field, v: Arg): (r: Value)
    ensures r.Obj? && r.props.Keys == {"date", "show-as-utc"}
    ensures Prop(r, "date") == v && Prop(r, "show-as-utc") == Bool(true)
  {
    Obj(map["date" := v, "show-as-utc" := Bool(true)])
  }

  function GetValueAsText(f: Field, v: Arg): Value {
    v
  }

  /** `mapGetField` and `mapStoreField`: the type keeps its two bounds. */
  function MapField(f: Field): (r: map<string, Value>)
    ensures r.Keys == {"minimal-value", "maximal-value"}
    ensures forall k :: k in r ==> r[k] == Attr(f, k)
  {
    map["minimal-value" := Attr(f, "minimal-value"), "maximal-value" := Attr(f, "maximal-value")]
  }

  function MapGetValue(f: Field, v: Arg): (r: Value)
    ensures v.Null? ==> r == Str("")
    ensures v.Str? ==> r == v
  {
    OrEmptyString(v)
  }

  function MapStoreValue(f: Field, v: Arg): (r: Value)
    ensures v.Null? ==> r == Str("")
    ensures v.Str? ==> r == v
  {
    OrEmptyString(v)
  }

  /**
   * A bound is rejected only when it is not a string AND its text fails
   * `DATE_PATTERN`: every string bound passes, and the order of the two
   * bounds is not checked.
   */
  predicate ValidateField(env: Env, f: Field) {
    var min, max := Attr(f, "minimal-value"), Attr(f, "maximal-value");
    !(!min.Str? && !env.datePattern(Text(env.numberText, min))) &&
    !(!max.Str? && !env.datePattern(Text(env.numberText, max)))
  }

  /** A string; a non-empty one must match the pattern and lie within the non-empty bounds; a required field rejects "". */
  predicate ValidateValue(env: Env, f: Field, v: Arg) {
    v.Str? &&
    (v.s != "" ==> env.datePattern(v.s)) &&
    !(f.required && v.s == "") &&
    (v.s != "" ==> WithinBounds(f, v, Str("")))
  }

  /** Any pair of string bounds is accepted, even text that is no date and a minimum above the maximum. */
  lemma StringBoundsAccepted(env: Env, f: Field)
    requires Attr(f, "minimal-value").Str? && Attr(f, "maximal-value").Str?
    ensures ValidateField(env, f)
  {
  }

  /** Non-empty string bounds hold lexicographically for every valid non-empty value. */
  lemma BoundsHold(env: Env, f: Field, v: Arg)
    requires ValidateValue(env, f, v) && v.s != ""
    requires Attr(f, "minimal-value").Str? && Attr(f, "minimal-value").s != ""
    requires Attr(f, "maximal-value").Str? && Attr(f, "maximal-value").s != ""
    ensures CompareStrings(v.s, Attr(f, "minimal-value").s) != Below
    ensures CompareStrings(v.s, Attr(f, "maximal-value").s) != Above
  {
  }

  /** With both bounds "", only the pattern and the required flag constrain a value. */
  lemma EmptyBoundsImposeNothing(env: Env, f: Field, v: Arg)
    requires Attr(f, "minimal-value") == Str("") && Attr(f, "maximal-value") == Str("")
    ensures ValidateValue(env, f, v) <==>
            v.Str? && (v.s != "" ==> env.datePattern(v.s)) && !(f.required && v.s == "")
  {
  }

  /** The mappings are lossless on valid values; null becomes "", which is valid exactly when optional. */
  lemma MappingRoundTrip(env: Env, f: Field, v: Arg)
    ensures ValidateValue(env, f, v) ==> MapGetValue(f, MapStoreValue(f, v)) == v
    ensures ValidateValue(env, f, MapStoreValue(f, Null)) <==> !f.required
  {
  }
}
