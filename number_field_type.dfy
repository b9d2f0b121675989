/**
 * The `number` field type: an optional finite number between optional
 * bounds, with an optional step of at least 0.000001, and "from"/"to"
 * range filters.
 */
module NumberFieldType {
  import opened Json
  import opened Host
  import opened Fields

  const TypeLabel := "Number"

  const FilterAttributeFrom := "from"
  const FilterAttributeTo := "to"
  const StepValue: real := 0.000001

  /** The field-table columns: bounds and step as text, "" when null. */
  function GetFieldTableAdditionalColumn(env: Env, f: Field): (r: seq<Column>)
    ensures |r| == 3
    ensures r[0].0 == "Minimal value" && r[1].0 == "Maximal value" && r[2].0 == "Step value"
    ensures forall k :: 0 <= k < 3 ==> r[k].1.Str?
    ensures Nullish(Attr(f, "step-value")) ==> r[2].1 == Str("")
    ensures Nullish(Attr(f, "minimal-value")) ==> r[0].1 == Str("")
    ensures Nullish(Attr(f, "maximal-value")) ==> r[1].1 == Str("")
    ensures Attr(f, "minimal-value").Num? ==> r[0].1 == Str(env.numberText(Attr(f, "minimal-value").n))
    ensures Attr(f, "maximal-value").Num? ==> r[1].1 == Str(env.numberText(Attr(f, "maximal-value").n))
    ensures Attr(f, "step-value").Num? ==> r[2].1 == Str(env.numberText(Attr(f, "step-value").n))
  {
    [("Minimal value", Str(Text(env.numberText, Coalesce(Attr(f, "minimal-value"), Str(""))))),
     ("Maximal value", Str(Text(env.numberText, Coalesce(Attr(f, "maximal-value"), Str(""))))),
     ("Step value", Str(Text(env.numberText, Coalesce(Attr(f, "step-value"), Str("")))))]
  }

  function GetValueAsFormat(f: Field, v: Arg): Value {
    v
  }

  function GetValueAsText(f: Field, v: Arg): Value {
    v
  }

  // Decimal text, `/^-?\d+(\.\d+)?$/`

  predicate IsDigit(c: char) {
    '0' <= c <= '9'
  }

  predicate IsDigits(s: string) {
    s != "" && forall i :: 0 <= i < |s| ==> IsDigit(s[i])
  }

  /** The text after an optional leading '-'. */
  function Magnitude(s: string): string {
    if s != "" && s[0] == '-' then s[1..] else s
  }

  predicate IsDecimal(s: string) {
    var parts := Split(Magnitude(s), '.');
    IsDigits(parts[0]) && (|parts| == 1 || (|parts| == 2 && IsDigits(parts[1])))
  }

  /** The value of a digit string, most significant digit first. */
  function DigitsValue(s: string): nat
    requires forall i :: 0 <= i < |s| ==> IsDigit(s[i])
    decreases |s|
  {
    if s == "" then 0
    else
      assert IsDigit(s[|s| - 1]);
      DigitsValue(s[..|s| - 1]) * 10 + (s[|s| - 1] as int - '0' as int)
  }

  function Power10(n: nat): (r: nat)
    ensures r >= 1
  {
    if n == 0 then 1 else 10 * Power10(n - 1)
  }

  /** The exact value of decimal text. */
  function ParseDecimal(s: string): real
    requires IsDecimal(s)
  {
    var parts := Split(Magnitude(s), '.');
    var whole := DigitsValue(parts[0]) as real;
    var magnitude := if |parts| == 2 then whole + DigitsValue(parts[1]) as real / Power10(|parts[1]|) as real else whole;
    if s != "" && s[0] == '-' then -magnitude else magnitude
  }

  /** Filter text becomes a number when it is decimal text, and null when it is "null"; anything else is kept. */
  function MapFilterValue(f: Field, v: Arg): (r: Arg)
    ensures v.Str? && IsDecimal(v.s) ==> r == Num(ParseDecimal(v.s))
    ensures v == Str("null") ==> r == Null
    ensures !(v.Str? && (IsDecimal(v.s) || v.s == "null")) ==> r == v
  {
    if v.Str? && IsDecimal(v.s) then Num(ParseDecimal(v.s))
    else if v == Str("null") then Null
    else v
  }

  /** The decimal digits of a natural number. */
  function NatText(n: nat): (s: string)
    ensures IsDigits(s)
    decreases n
  {
    var d := ('0' as int + n % 10) as char;
    if n < 10 then [d] else NatText(n / 10) + [d]
  }

  /** The decimal text of an integer. */
  function IntText(n: int): string {
    if n < 0 then "-" + NatText(-n) else NatText(n)
  }

  lemma {:induction false} NatTextValue(n: nat)
    ensures DigitsValue(NatText(n)) == n
    decreases n
  {
    var s := NatText(n);
    if n >= 10 {
      NatTextValue(n / 10);
      assert s[..|s| - 1] == NatText(n / 10);
    }
  }

  lemma DigitsHaveNoDot(s: string)
    requires IsDigits(s)
    ensures '.' !in s
  {
    forall i | 0 <= i < |s| ensures s[i] != '.' {
      assert IsDigit(s[i]);
    }
  }

  /** The text of every integer is decimal text that maps back to that integer. */
  lemma IntegerFilterRoundTrip(f: Field, n: int)
    ensures IsDecimal(IntText(n))
    ensures MapFilterValue(f, Str(IntText(n))) == Num(n as real)
  {
    var m: nat := if n < 0 then -n else n;
    var s := IntText(n);
    assert Magnitude(s) == NatText(m);
    DigitsHaveNoDot(NatText(m));
    SplitFree(NatText(m), '.');
    NatTextValue(m);
  }

  /** `mapGetField` and `mapStoreField`: the type keeps its bounds and its step. */
  function MapField(f: Field): (r: map<string, Value>)
    ensures r.Keys == {"minimal-value", "maximal-value", "step-value"}
    ensures forall k :: k in r ==> r[k] == Attr(f, k)
  {
    map["minimal-value" := Attr(f, "minimal-value"),
        "maximal-value" := Attr(f, "maximal-value"),
        "step-value" := Attr(f, "step-value")]
  }

  function MapGetValue(f: Field, v: Arg): Arg {
    v
  }

  function MapStoreValue(f: Field, v: Arg): Arg {
    v
  }

  /** "from" keeps values at or above the filter, "to" at or below it; any other attribute asks for strict equality. */
  function MatchFilterValue(f: Field, v: Arg, filter: Arg, attribute: Arg): (r: bool)
    ensures attribute == Str(FilterAttributeFrom) && v.Num? && filter.Num? ==> (r <==> v.n >= filter.n)
    ensures attribute == Str(FilterAttributeTo) && v.Num? && filter.Num? ==> (r <==> v.n <= filter.n)
    ensures attribute.Null? ==> (r <==> StrictEquals(v, filter))
    ensures v.NaN? || filter.NaN? ==> !r
  {
    if attribute == Str(FilterAttributeFrom) then AtLeast(v, filter)
    else if attribute == Str(FilterAttributeTo) then AtMost(v, filter)
    else StrictEquals(v, filter)
  }

  /** Bounds null or finite (an absent bound fails); the step null, or finite and at least 0.000001. */
  predicate ValidateField(f: Field) {
    var min, max, step := Attr(f, "minimal-value"), Attr(f, "maximal-value"), Attr(f, "step-value");
    (!min.Null? ==> IsFinite(min)) &&
    (!max.Null? ==> IsFinite(max)) &&
    (!step.Null? ==> IsFinite(step) && !Less(step, Num(StepValue)))
  }

  predicate IsFilterAttribute(attribute: Arg) {
    attribute.Null? || attribute == Str(FilterAttributeFrom) || attribute == Str(FilterAttributeTo)
  }

  /**
   * The attribute is null, "from" or "to"; the value null or finite, and not
   * null when there is an attribute; a non-null value lies within the bounds.
   */
  predicate ValidateFilterValue(f: Field, v: Arg, attribute: Arg) {
    IsFilterAttribute(attribute) &&
    (!v.Null? ==> IsFinite(v)) &&
    !(!attribute.Null? && v.Null?) &&
    (!v.Null? ==> WithinBounds(f, v, Null))
  }

  /** Null or a finite number; a required field rejects null; a non-null value lies within the non-null bounds. */
  predicate ValidateValue(f: Field, v: Arg) {
    (!v.Null? ==> IsFinite(v)) &&
    !(f.required && v.Null?) &&
    (!v.Null? ==> WithinBounds(f, v, Null))
  }

  /** A definition is valid exactly when its bounds are null or finite and its step is null or a number of at least 0.000001. */
  lemma ValidDefinition(f: Field)
    ensures ValidateField(f) <==>
              (Attr(f, "minimal-value").Null? || Attr(f, "minimal-value").Num?) &&
              (Attr(f, "maximal-value").Null? || Attr(f, "maximal-value").Num?) &&
              (Attr(f, "step-value").Null? || (Attr(f, "step-value").Num? && Attr(f, "step-value").n >= StepValue))
  {
  }

  /** Valid values and valid filters lie within the inclusive bounds; a range filter needs a value. */
  lemma Bounds(f: Field, v: Arg, attribute: Arg)
    ensures ValidateValue(f, v) && v.Num? && Attr(f, "minimal-value").Num? ==> Attr(f, "minimal-value").n <= v.n
    ensures ValidateValue(f, v) && v.Num? && Attr(f, "maximal-value").Num? ==> v.n <= Attr(f, "maximal-value").n
    ensures ValidateValue(f, Null) <==> !f.required
    ensures ValidateFilterValue(f, v, attribute) && !attribute.Null? ==> v.Num?
    ensures ValidateFilterValue(f, v, attribute) ==> ValidateValue(f, v) || (f.required && v.Null?)
  {
  }
}
