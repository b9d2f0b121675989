/**
 * The `float` field type: an optional finite number between optional
 * bounds, with a mandatory step between 0.000001 and 1 - 0.000001.
 */
module FloatFieldType {
  import opened Json
  import opened Host
  import opened Fields

  const TypeLabel := "Float"

  const StepValue: real := 0.000001
  const MinStepValue: real := StepValue
  const MaxStepValue: real := 1.0 - StepValue

  /** The field-table columns: both bounds ("" when null) and the step, as text. */
  function GetFieldTableAdditionalColumn(env: Env, f: Field): (r: seq<Column>)
    ensures |r| == 3
    ensures r[0].0 == "Minimal value" && r[1].0 == "Maximal value" && r[2].0 == "Step value"
    ensures Nullish(Attr(f, "minimal-value")) ==> r[0].1 == Str("")
    ensures Nullish(Attr(f, "maximal-value")) ==> r[1].1 == Str("")
    ensures Attr(f, "minimal-value").Num? ==> r[0].1 == Str(env.numberText(Attr(f, "minimal-value").n))
    ensures Attr(f, "maximal-value").Num? ==> r[1].1 == Str(env.numberText(Attr(f, "maximal-value").n))
    ensures Attr(f, "step-value").Num? ==> r[2].1 == Str(env.numberText(Attr(f, "step-value").n))
    ensures Attr(f, "step-value").Null? ==> r[2].1 == Str("null")
    ensures Attr(f, "step-value").Undefined? ==> r[2].1 == Str("undefined")
    ensures forall k :: 0 <= k < 3 ==> r[k].1.Str?
  {
    [("Minimal value", Str(Text(env.numberText, Coalesce(Attr(f, "minimal-value"), Str(""))))),
     ("Maximal value", Str(Text(env.numberText, Coalesce(Attr(f, "maximal-value"), Str(""))))),
     ("Step value", Str(Text(env.numberText, Attr(f, "step-value"))))]
  }

  function GetValueAsFormat(f: Field, v: Arg): Value {
    v
  }

  function GetValueAsText(f: Field, v: Arg): Value {
    v
  }

  /** `mapGetField` and `mapStoreField`: the type keeps its bounds and its step. */
  function MapField(f: Field): (r: map<string, Value>)
    ensures r.Keys == {"minimal-value", "maximal-value", "step-value"}
    ensures forall k :: k in r ==> r[k] == Attr(f, k)
  {
    map["minimal-value" := Attr(f, "minimal-value"),
        "maximal-value" := Attr(f, "maximal-value"),
        "step-value" := Attr(f, "step-value")]
  }

  function MapGetValue(f: Field, v: Arg): Arg {
    v
  }

  function MapStoreValue(f: Field, v: Arg): Arg {
    v
  }

  /** Bounds null or finite (an absent bound fails), the step finite and within [0.000001, 1 - 0.000001]. */
  predicate ValidateField(f: Field) {
    var min, max, step := Attr(f, "minimal-value"), Attr(f, "maximal-value"), Attr(f, "step-value");
    (!min.Null? ==> IsFinite(min)) &&
    (!max.Null? ==> IsFinite(max)) &&
    IsFinite(step) && !Less(step, Num(MinStepValue)) && !Greater(step, Num(MaxStepValue))
  }

  /** Null or a finite number; a required field rejects null; a non-null value lies within the non-null bounds. */
  predicate ValidateValue(f: Field, v: Arg) {
    (!v.Null? ==> IsFinite(v)) &&
    !(f.required && v.Null?) &&
    (!v.Null? ==> WithinBounds(f, v, Null))
  }

  /** A definition is valid exactly when its bounds are null or finite and its step is a number in range. */
  lemma ValidDefinition(f: Field)
    ensures ValidateField(f) <==>
              (Attr(f, "minimal-value").Null? || Attr(f, "minimal-value").Num?) &&
              (Attr(f, "maximal-value").Null? || Attr(f, "maximal-value").Num?) &&
              Attr(f, "step-value").Num? && MinStepValue <= Attr(f, "step-value").n <= MaxStepValue
  {
  }

  /** The bounds are inclusive; a null bound, and a null value, escape them. */
  lemma Bounds(f: Field, v: Arg)
    ensures ValidateValue(f, v) && v.Num? && Attr(f, "minimal-value").Num? ==> Attr(f, "minimal-value").n <= v.n
    ensures ValidateValue(f, v) && v.Num? && Attr(f, "maximal-value").Num? ==> v.n <= Attr(f, "maximal-value").n
    ensures Attr(f, "minimal-value").Null? && Attr(f, "maximal-value").Null? && v.Num? ==> ValidateValue(f, v)
    ensures ValidateValue(f, Null) <==> !f.required
    ensures !v.Null? && !v.Num? ==> !ValidateValue(f, v)
  {
  }
}
