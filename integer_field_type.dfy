/** The `integer` field type: an optional integer between optional integer bounds. */
module IntegerFieldType {
  import opened Json
  import opened Host
  import opened Fields

  const TypeLabel := "Integer"

  /** `getFieldTableOtherColumn`: both bounds as text, "" when null (the service never asks for it under this name). */
  function GetFieldTableOtherColumn(env: Env, f: Field): (r: seq<Column>)
    ensures |r| == 2 && r[0].0 == "Minimal value" && r[1].0 == "Maximal value"
    ensures Nullish(Attr(f, "minimal-value")) ==> r[0].1 == Str("")
    ensures Nullish(Attr(f, "maximal-value")) ==> r[1].1 == Str("")
    ensures Attr(f, "minimal-value").Num? ==> r[0].1 == Str(env.numberText(Attr(f, "minimal-value").n))
    ensures Attr(f, "maximal-value").Num? ==> r[1].1 == Str(env.numberText(Attr(f, "maximal-value").n))
  {
    [("Minimal value", Str(Text(env.numberText, Coalesce(Attr(f, "minimal-value"), Str(""))))),
     ("Maximal value", Str(Text(env.numberText, Coalesce(Attr(f, "maximal-value"), Str("")))))]
  }

  /** "-" for null, otherwise the value's text. */
  function GetValueAsText(env: Env, f: Field, v: Arg): (r: Value)
    ensures r.Str?
    ensures v.Null? ==> r == Str("-")
    ensures v.Num? ==> r == Str(env.numberText(v.n))
  {
    Str(Text(env.numberText, Coalesce(v, Str("-"))))
  }

  /** `mapGetField` and `mapStoreField`: the type keeps its two bounds. */
  function MapField(f: Field): (r: map<string, Value>)
    ensures r.Keys == {"minimal-value", "maximal-value"}
    ensures forall k :: k in r ==> r[k] == Attr(f, k)
  {
    map["minimal-value" := Attr(f, "minimal-value"), "maximal-value" := Attr(f, "maximal-value")]
  }

  function MapGetValue(f: Field, v: Arg): Arg {
    v
  }

  function MapStoreValue(f: Field, v: Arg): Arg {
    v
  }

  /** Each bound is null or an integer (an absent bound fails). */
  predicate ValidateField(f: Field) {
    (!Attr(f, "minimal-value").Null? ==> IsInteger(Attr(f, "minimal-value"))) &&
    (!Attr(f, "maximal-value").Null? ==> IsInteger(Attr(f, "maximal-value")))
  }

  /** Null or an integer; a required field rejects null; a non-null value lies within the non-null bounds. */
  predicate ValidateValue(f: Field, v: Arg) {
    (!v.Null? ==> IsInteger(v)) &&
    !(f.required && v.Null?) &&
    (!v.Null? ==> WithinBounds(f, v, Null))
  }

  /** Valid values are integers within the inclusive bounds, or null for an optional field. */
  lemma ValidValues(f: Field, v: Arg)
    ensures ValidateValue(f, v) && !v.Null? ==> v.Num? && v.n == v.n.Floor as real
    ensures ValidateValue(f, v) && v.Num? && Attr(f, "minimal-value").Num? ==> Attr(f, "minimal-value").n <= v.n
    ensures ValidateValue(f, v) && v.Num? && Attr(f, "maximal-value").Num? ==> v.n <= Attr(f, "maximal-value").n
    ensures ValidateValue(f, Null) <==> !f.required
    ensures !ValidateValue(f, Num(0.5))
  {
    assert 0.5.Floor == 0;
  }

  /** The mappings are the identity, so they are lossless on every value. */
  lemma MappingRoundTrip(f: Field, v: Arg)
    ensures MapGetValue(f, MapStoreValue(f, v)) == v
  {
  }
}
