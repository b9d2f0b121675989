/**
 * The `select` field type: a value is "" or one of the field's option
 * values; a filter is a list of distinct option values, written as
 * comma-separated text.
 */
module SelectFieldType {
  import opened Json
  import opened Host
  import opened Fields

  const TypeLabel := "Select"

  /** The option list; a definition whose options are not an array reads as having none. */
  function Options(f: Field): seq<Value> {
    var options := Attr(f, "options");
    if options.Arr? then options.items else []
  }

  /** `VALUE_PATTERN.test(s)`: a non-empty string without a comma. */
  predicate IsOptionValueText(s: string) {
    s != "" && ',' !in s
  }

  /** The `value` of every option, in order. */
  function OptionValues(f: Field): (r: seq<Value>)
    ensures |r| == |Options(f)|
    ensures forall k :: 0 <= k < |r| ==> r[k] == Prop(Options(f)[k], "value")
  {
    seq(|Options(f)|, k requires 0 <= k < |Options(f)| => Prop(Options(f)[k], "value"))
  }

  predicate Distinct(xs: seq<Value>) {
    forall i, j :: 0 <= i < j < |xs| ==> xs[i] != xs[j]
  }

  /** An option is an object with a comma-free non-empty string value and a non-empty string label. */
  predicate IsValidOption(o: Value) {
    var value, caption := Prop(o, "value"), Prop(o, "label");
    o.Obj? && value.Str? && IsOptionValueText(value.s) && caption.Str? && caption.s != ""
  }

  /** A non-empty array of valid options whose values are pairwise distinct. */
  predicate ValidateField(f: Field) {
    var options := Attr(f, "options");
    options.Arr? && |options.items| > 0 &&
    (forall k :: 0 <= k < |options.items| ==> IsValidOption(options.items[k])) &&
    Distinct(OptionValues(f))
  }

  /** A string; a non-empty one must be the value of a current option; a required field rejects "". */
  predicate ValidateValue(f: Field, v: Arg) {
    v.Str? &&
    (v.s != "" ==> IsOptionValueText(v.s) && v in OptionValues(f)) &&
    !(f.required && v.s == "")
  }

  /** No option before index `k` has a value strictly equal to `v`. */
  predicate FirstOption(options: seq<Value>, v: Value, k: nat) {
    forall i :: 0 <= i < k && i < |options| ==> !StrictEquals(Prop(options[i], "value"), v)
  }

  /** The first option whose value is strictly equal to `v`. */
  function FindOption(options: seq<Value>, v: Value): (r: Option<Value>)
    ensures r.Some? ==> r.value in options && StrictEquals(Prop(r.value, "value"), v)
    ensures r.None? ==> forall k :: 0 <= k < |options| ==> !StrictEquals(Prop(options[k], "value"), v)
    ensures forall k :: 0 <= k < |options| && StrictEquals(Prop(options[k], "value"), v) && FirstOption(options, v, k) ==>
              r == Some(options[k])
    decreases |options|
  {
    if options == [] then None
    else if StrictEquals(Prop(options[0], "value"), v) then Some(options[0])
    else
      var r := FindOption(options[1..], v);
      assert forall k :: 0 < k < |options| && FirstOption(options, v, k) ==> FirstOption(options[1..], v, k - 1);
      r
  }

  /** In a definition `validateField` accepts, an option's value finds that very option. */
  lemma {:induction false} FindsOwnOption(f: Field, k: nat)
    requires ValidateField(f) && k < |Options(f)|
    ensures FindOption(Options(f), Prop(Options(f)[k], "value")) == Some(Options(f)[k])
  {
    var options, v := Options(f), Prop(Options(f)[k], "value");
    var values := OptionValues(f);
    assert Distinct(values) && IsValidOption(options[k]) && values[k] == v;
    forall i | 0 <= i < k
      ensures !StrictEquals(Prop(options[i], "value"), v)
    {
      assert IsValidOption(options[i]) && values[i] == Prop(options[i], "value") && values[i] != values[k];
    }
    assert v.Str? && StrictEquals(Prop(options[k], "value"), v);
    assert FirstOption(options, v, k);
  }

  /**
   * Null for "" or null; otherwise the label of the matching option, or the
   * value itself when no option matches (a stale selection) or the option
   * has no label. `getValueAsFormat` gives the same.
   */
  function GetValueAsText(f: Field, v: Arg): (r: Value)
    ensures v.Null? || v == Str("") ==> r == Null
    ensures !(v.Null? || v == Str("")) && FindOption(Options(f), v).None? ==> r == v
    ensures !(v.Null? || v == Str("")) && FindOption(Options(f), v).Some? ==>
              r == Coalesce(Prop(FindOption(Options(f), v).value, "label"), v)
  {
    if !StrictEquals(Coalesce(v, Str("")), Str("")) then
      match FindOption(Options(f), v)
      case Some(o) => Coalesce(Prop(o, "label"), v)
      case None => v
    else Null
  }

  /** `{label, value}` of an option. */
  function OptionEntry(o: Value): Value {
    Obj(map["label" := Prop(o, "label"), "value" := Prop(o, "value")])
  }

  /** `mapGetField` and `mapStoreField`: the options, each reduced to its label and value. */
  function MapField(f: Field): (r: map<string, Value>)
    ensures r.Keys == {"options"} && r["options"].Arr? && |r["options"].items| == |Options(f)|
    ensures forall k :: 0 <= k < |Options(f)| ==>
              Prop(r["options"].items[k], "value") == Prop(Options(f)[k], "value") &&
              Prop(r["options"].items[k], "label") == Prop(Options(f)[k], "label")
  {
    map["options" := Arr(OptionEntries(Options(f)))]
  }

  function OptionEntries(options: seq<Value>): (r: seq<Value>)
    ensures |r| == |options| && forall k :: 0 <= k < |r| ==> r[k] == OptionEntry(options[k])
  {
    seq(|options|, k requires 0 <= k < |options| => OptionEntry(options[k]))
  }

  /** Mapping an already mapped definition again changes nothing. */
  lemma MapFieldStable(f: Field)
    ensures MapField(f.(attrs := MapField(f))) == MapField(f)
  {
    var g := f.(attrs := MapField(f));
    assert Options(g) == OptionEntries(Options(f));
    assert OptionEntries(Options(g)) == OptionEntries(Options(f));
  }

  /** An option as the column shows it: its label's text, then its value's text in parentheses. */
  function OptionText(env: Env, o: Value): (r: string)
    ensures Prop(o, "label").Str? && Prop(o, "value").Str? ==> r == Prop(o, "label").s + " (" + Prop(o, "value").s + ")"
  {
    Text(env.numberText, Prop(o, "label")) + " (" + Text(env.numberText, Prop(o, "value")) + ")"
  }

  /** The shown text of every option, in order. */
  function OptionTexts(env: Env, f: Field): (r: seq<string>)
    ensures |r| == |Options(f)| && forall k :: 0 <= k < |r| ==> r[k] == OptionText(env, Options(f)[k])
  {
    seq(|Options(f)|, k requires 0 <= k < |Options(f)| => OptionText(env, Options(f)[k]))
  }

  /** The field-table column: every option as "label (value)", separated by ", ". */
  function GetFieldTableAdditionalColumn(env: Env, f: Field): (r: seq<Column>)
    ensures |r| == 1 && r[0].0 == "Options"
    ensures r[0].1 == Str(Join(OptionTexts(env, f), ", "))
    ensures Options(f) == [] ==> r[0].1 == Str("")
    ensures |Options(f)| == 1 ==> r[0].1 == Str(OptionText(env, Options(f)[0]))
  {
    [("Options", Str(Join(OptionTexts(env, f), ", ")))]
  }

  /** The column shows every option's "label (value)" text. */
  lemma ColumnShowsEveryOption(env: Env, f: Field, k: nat)
    requires k < |Options(f)|
    ensures Includes(GetFieldTableAdditionalColumn(env, f)[0].1.s, OptionText(env, Options(f)[k]))
  {
    JoinIncludes(OptionTexts(env, f), ", ", k);
  }

  function MapGetValue(f: Field, v: Arg): (r: Value)
    ensures v.Null? ==> r == Str("")
    ensures v.Str? ==> r == v
  {
    OrEmptyString(v)
  }

  function MapStoreValue(f: Field, v: Arg): (r: Value)
    ensures v.Null? ==> r == Str("")
    ensures v.Str? ==> r == v
  {
    OrEmptyString(v)
  }

  /** Strings as string values. */
  function Strs(texts: seq<string>): (r: seq<Value>)
    ensures |r| == |texts| && forall k :: 0 <= k < |r| ==> r[k] == Str(texts[k])
  {
    seq(|texts|, k requires 0 <= k < |texts| => Str(texts[k]))
  }

  /** Filter text is split at every comma into a list; any other value is kept. */
  function MapFilterValue(f: Field, v: Arg): (r: Arg)
    ensures v.Str? ==> r == Arr(Strs(Split(v.s, ',')))
    ensures !v.Str? ==> r == v
  {
    if v.Str? then Arr(Strs(Split(v.s, ','))) else v
  }

  /** The attribute must be null; the value a list of distinct strings, each a comma-free option value. */
  predicate ValidateFilterValue(f: Field, v: Arg, attribute: Arg) {
    attribute.Null? && v.Arr? &&
    (forall k :: 0 <= k < |v.items| ==>
       v.items[k].Str? && IsOptionValueText(v.items[k].s) && v.items[k] in OptionValues(f)) &&
    Distinct(v.items)
  }

  predicate Contains(items: seq<Value>, v: Value) {
    exists k :: 0 <= k < |items| && SameValueZero(items[k], v)
  }

  /**
   * An empty or null filter matches only an empty value; a non-empty list
   * matches the values it contains. A string filter is searched as text; an
   * object whose `length` is 0 counts as empty; any other filter throws.
   */
  function MatchFilterValue(env: Env, f: Field, v: Arg, filter: Arg): (r: Reply<bool>)
    ensures (filter.Null? || filter == Arr([])) ==> r == Return(v.Null? || v == Str(""))
    ensures filter.Arr? && filter.items != [] ==> r == Return(Contains(filter.items, Coalesce(v, Str(""))))
    ensures filter.Obj? && StrictEquals(Prop(filter, "length"), Num(0.0)) ==> r == Return(v.Null? || v == Str(""))
    ensures r.Throw? <==> !(filter.Null? || filter.Arr? || filter.Str? || (filter.Obj? && StrictEquals(Prop(filter, "length"), Num(0.0))))
  {
    var value := Coalesce(v, Str(""));
    match Coalesce(filter, Arr([]))
    case Arr(items) => Return(if items == [] then StrictEquals(value, Str("")) else Contains(items, value))
    case Str(s) => Return(if s == "" then StrictEquals(value, Str("")) else Includes(s, Text(env.numberText, value)))
    case Obj(_) =>
      // a plain object has no `includes`: only one whose `length` is 0 returns before calling it
      if StrictEquals(Prop(filter, "length"), Num(0.0)) then Return(StrictEquals(value, Str(""))) else Throw
    case _ => Throw
  }

  /** The texts of a list of strings. */
  function Texts(items: seq<Value>): (r: seq<string>)
    requires forall k :: 0 <= k < |items| ==> items[k].Str?
    ensures |r| == |items| && forall k :: 0 <= k < |r| ==> items[k] == Str(r[k])
  {
    seq(|items|, k requires 0 <= k < |items| => items[k].s)
  }

  /** A valid non-empty filter, written as comma-separated text, maps back to itself. */
  lemma FilterRoundTrip(f: Field, filter: Arg)
    requires ValidateFilterValue(f, filter, Null) && filter.items != []
    ensures MapFilterValue(f, Str(Join(Texts(filter.items), ","))) == filter
  {
    var texts := Texts(filter.items);
    forall k | 0 <= k < |texts| ensures ',' !in texts[k] {
      assert IsOptionValueText(filter.items[k].s);
    }
    SplitJoin(texts, ',');
    assert Strs(texts) == filter.items;
  }

  /** A value that is no current option value is rejected: a stale selection fails. */
  lemma ValidValues(f: Field, v: Arg)
    ensures v.Str? && v.s != "" && v !in OptionValues(f) ==> !ValidateValue(f, v)
    ensures ValidateValue(f, Str("")) <==> !f.required
    ensures !v.Str? ==> !ValidateValue(f, v)
    ensures ValidateField(f) && !f.required ==> forall k :: 0 <= k < |Options(f)| ==> ValidateValue(f, Prop(Options(f)[k], "value"))
  {
  }

  /** The mappings are lossless on valid values; null becomes "", which is valid exactly when optional. */
  lemma MappingRoundTrip(f: Field, v: Arg)
    ensures ValidateValue(f, v) ==> MapGetValue(f, MapStoreValue(f, v)) == v
    ensures ValidateValue(f, MapStoreValue(f, Null)) <==> !f.required
  {
  }
}
