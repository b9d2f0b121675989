/**
 * The field-type registry and the dispatch from a field to the functions of
 * its type. An unknown type fails closed for the validators and passes the
 * value through for the mappings and formatting.
 */
module FieldTypes {
  import opened Json
  import opened Host
  import opened Fields
  import BooleanFieldType
  import ColorFieldType
  import DateFieldType
  import EmailFieldType
  import FloatFieldType
  import IntegerFieldType
  import NumberFieldType
  import PasswordFieldType
  import RegularExpressionFieldType
  import SelectFieldType
  import TimeFieldType
  import UrlFieldType

  datatype Kind =
    | Boolean | Color | Date | Email | Float | Integer | Number
    | Password | RegularExpression | Select | Time | Url

  /** The discriminator a field type registers under (its `getType()`). */
  function TypeName(k: Kind): string {
    match k
    case Boolean => "boolean"
    case Color => "color"
    case Date => "date"
    case Email => "email"
    case Float => "float"
    case Integer => "integer"
    case Number => "number"
    case Password => "password"
    case RegularExpression => "regular-expression"
    case Select => "select"
    case Time => "time"
    case Url => "url"
  }

  function TypeLabel(k: Kind): string {
    match k
    case Boolean => BooleanFieldType.TypeLabel
    case Color => ColorFieldType.TypeLabel
    case Date => DateFieldType.TypeLabel
    case Email => EmailFieldType.TypeLabel
    case Float => FloatFieldType.TypeLabel
    case Integer => IntegerFieldType.TypeLabel
    case Number => NumberFieldType.TypeLabel
    case Password => PasswordFieldType.TypeLabel
    case RegularExpression => RegularExpressionFieldType.TypeLabel
    case Select => SelectFieldType.TypeLabel
    case Time => TimeFieldType.TypeLabel
    case Url => UrlFieldType.TypeLabel
  }

  /** The types registered at construction, in order. */
  const DefaultFieldTypes: seq<Kind> :=
    [Boolean, Color, Date, Email, Float, Integer, Password, RegularExpression, Select, Time, Url]

  /** The index of a kind in the default list; `Number` is not in it. */
  function Rank(k: Kind): nat {
    match k
    case Boolean => 0
    case Color => 1
    case Date => 2
    case Email => 3
    case Float => 4
    case Integer => 5
    case Password => 6
    case RegularExpression => 7
    case Select => 8
    case Time => 9
    case Url => 10
    case Number => 11
  }

  /** The rank of the kind a discriminator names. */
  function RankOfName(t: string): nat {
    if t == "boolean" then 0 else if t == "color" then 1 else if t == "date" then 2
    else if t == "email" then 3 else if t == "float" then 4 else if t == "integer" then 5
    else if t == "password" then 6 else if t == "regular-expression" then 7 else if t == "select" then 8
    else if t == "time" then 9 else if t == "url" then 10 else 11
  }

  /** Discriminators determine the kind: distinct kinds register under distinct names. */
  lemma NameRank(k: Kind)
    ensures RankOfName(TypeName(k)) == Rank(k)
  {
  }

  lemma DefaultRank(i: nat)
    requires i < |DefaultFieldTypes|
    ensures Rank(DefaultFieldTypes[i]) == i
  {
    if i == 0 {} else if i == 1 {} else if i == 2 {} else if i == 3 {} else if i == 4 {}
    else if i == 5 {} else if i == 6 {} else if i == 7 {} else if i == 8 {} else if i == 9 {}
  }

  /** No default type shares its discriminator with one registered before it. */
  lemma DefaultFresh(i: nat)
    requires i < |DefaultFieldTypes|
    ensures Find(DefaultFieldTypes[..i], TypeName(DefaultFieldTypes[i])).None?
  {
    forall k | k in DefaultFieldTypes[..i] ensures TypeName(k) != TypeName(DefaultFieldTypes[i]) {
      var j :| 0 <= j < i && DefaultFieldTypes[j] == k;
      DefaultRank(j);
      DefaultRank(i);
      NameRank(k);
      NameRank(DefaultFieldTypes[i]);
    }
  }

  /** The registered type whose discriminator is `t`, if any. */
  function Find(types: seq<Kind>, t: string): (r: Option<Kind>)
    ensures r.Some? ==> r.value in types && TypeName(r.value) == t
    ensures r.None? ==> forall k :: k in types ==> TypeName(k) != t
    decreases |types|
  {
    if types == [] then None
    else if TypeName(types[0]) == t then Some(types[0])
    else Find(types[1..], t)
  }

  // What each type does; the registry below decides which type a field has.

  function KindValidateField(env: Env, k: Kind, f: Field): bool {
    match k
    case Boolean => BooleanFieldType.ValidateField(f)
    case Color => ColorFieldType.ValidateField(f)
    case Date => DateFieldType.ValidateField(env, f)
    case Email => EmailFieldType.ValidateField(f)
    case Float => FloatFieldType.ValidateField(f)
    case Integer => IntegerFieldType.ValidateField(f)
    case Number => NumberFieldType.ValidateField(f)
    case Password => PasswordFieldType.ValidateField(f)
    case RegularExpression => RegularExpressionFieldType.ValidateField(env, f)
    case Select => SelectFieldType.ValidateField(f)
    case Time => TimeFieldType.ValidateField(env, f)
    case Url => UrlFieldType.ValidateField(f)
  }

  function KindValidateValue(env: Env, k: Kind, f: Field, v: Arg): bool {
    match k
    case Boolean => BooleanFieldType.ValidateValue(f, v)
    case Color => ColorFieldType.ValidateValue(f, v)
    case Date => DateFieldType.ValidateValue(env, f, v)
    case Email => EmailFieldType.ValidateValue(f, v)
    case Float => FloatFieldType.ValidateValue(f, v)
    case Integer => IntegerFieldType.ValidateValue(f, v)
    case Number => NumberFieldType.ValidateValue(f, v)
    case Password => PasswordFieldType.ValidateValue(f, v)
    case RegularExpression => RegularExpressionFieldType.ValidateValue(env, f, v)
    case Select => SelectFieldType.ValidateValue(f, v)
    case Time => TimeFieldType.ValidateValue(env, f, v)
    case Url => UrlFieldType.ValidateValue(env, f, v)
  }

  function KindMapStoreValue(k: Kind, f: Field, v: Arg): Value {
    match k
    case Boolean => BooleanFieldType.MapStoreValue(f, v)
    case Color => ColorFieldType.MapStoreValue(f, v)
    case Date => DateFieldType.MapStoreValue(f, v)
    case Email => EmailFieldType.MapStoreValue(f, v)
    case Float => FloatFieldType.MapStoreValue(f, v)
    case Integer => IntegerFieldType.MapStoreValue(f, v)
    case Number => NumberFieldType.MapStoreValue(f, v)
    case Password => PasswordFieldType.MapStoreValue(f, v)
    case RegularExpression => RegularExpressionFieldType.MapStoreValue(f, v)
    case Select => SelectFieldType.MapStoreValue(f, v)
    case Time => TimeFieldType.MapStoreValue(f, v)
    case Url => UrlFieldType.MapStoreValue(f, v)
  }

  function KindMapGetValue(k: Kind, f: Field, v: Arg): Value {
    match k
    case Boolean => BooleanFieldType.MapGetValue(f, v)
    case Color => ColorFieldType.MapGetValue(f, v)
    case Date => DateFieldType.MapGetValue(f, v)
    case Email => EmailFieldType.MapGetValue(f, v)
    case Float => FloatFieldType.MapGetValue(f, v)
    case Integer => IntegerFieldType.MapGetValue(f, v)
    case Number => NumberFieldType.MapGetValue(f, v)
    case Password => PasswordFieldType.MapGetValue(f, v)
    case RegularExpression => RegularExpressionFieldType.MapGetValue(f, v)
    case Select => SelectFieldType.MapGetValue(f, v)
    case Time => TimeFieldType.MapGetValue(f, v)
    case Url => UrlFieldType.MapGetValue(f, v)
  }

  /** `mapGetField`/`mapStoreField` of a type: the attributes it keeps, or none (null). */
  function KindMapField(k: Kind, f: Field): Option<map<string, Value>> {
    match k
    case Boolean => None
    case Color => None
    case Date => Some(DateFieldType.MapField(f))
    case Email => Some(EmailFieldType.MapField(f))
    case Float => Some(FloatFieldType.MapField(f))
    case Integer => Some(IntegerFieldType.MapField(f))
    case Number => Some(NumberFieldType.MapField(f))
    case Password => Some(PasswordFieldType.MapField(f))
    case RegularExpression => Some(RegularExpressionFieldType.MapField(f))
    case Select => Some(SelectFieldType.MapField(f))
    case Time => Some(TimeFieldType.MapField(f))
    case Url => Some(UrlFieldType.MapField(f))
  }

  /** The attributes a type keeps are kept again when they are mapped a second time. */
  lemma KindMapFieldStable(k: Kind, f: Field)
    ensures KindMapField(k, f).Some? ==> KindMapField(k, f.(attrs := KindMapField(k, f).value)) == KindMapField(k, f)
  {
    if k == Select {
      SelectFieldType.MapFieldStable(f);
    }
  }

  function KindValueAsText(env: Env, k: Kind, f: Field, v: Arg): Value {
    match k
    case Boolean => Str(BooleanFieldType.GetValueAsText(f, v))
    case Color => ColorFieldType.GetValueAsText(f, v)
    case Date => DateFieldType.GetValueAsText(f, v)
    case Email => EmailFieldType.GetValueAsText(f, v)
    case Float => FloatFieldType.GetValueAsText(f, v)
    case Integer => IntegerFieldType.GetValueAsText(env, f, v)
    case Number => NumberFieldType.GetValueAsText(f, v)
    case Password => Str(PasswordFieldType.GetValueAsText(f, v))
    case RegularExpression => RegularExpressionFieldType.GetValueAsText(f, v)
    case Select => SelectFieldType.GetValueAsText(f, v)
    case Time => TimeFieldType.GetValueAsText(f, v)
    case Url => UrlFieldType.GetValueAsText(f, v)
  }

  /**
   * `getValueAsFormat` of a type. The integer, password and regular-expression
   * types define no such method, so calling it throws.
   */
  function KindValueAsFormat(k: Kind, f: Field, v: Arg): Reply<Value> {
    match k
    case Boolean => Return(Str(BooleanFieldType.GetValueAsText(f, v)))
    case Color => Return(ColorFieldType.GetValueAsFormat(f, v))
    case Date => Return(DateFieldType.GetValueAsFormat(f, v))
    case Email => Return(EmailFieldType.GetValueAsFormat(f, v))
    case Float => Return(FloatFieldType.GetValueAsFormat(f, v))
    case Integer => Throw
    case Number => Return(NumberFieldType.GetValueAsFormat(f, v))
    case Password => Throw
    case RegularExpression => Throw
    case Select => Return(SelectFieldType.GetValueAsText(f, v))
    case Time => Return(TimeFieldType.GetValueAsFormat(f, v))
    case Url => Return(UrlFieldType.GetValueAsFormat(f, v))
  }

  /**
   * `getFieldTableAdditionalColumn` of a type; none (null) for the boolean and
   * colour types. The integer and password types name theirs
   * `getFieldTableOtherColumn`, so calling it throws.
   */
  function KindTableColumn(env: Env, k: Kind, f: Field): Reply<seq<Column>> {
    match k
    case Boolean => Return([])
    case Color => Return([])
    case Date => Return(DateFieldType.GetFieldTableAdditionalColumn(f))
    case Email => Return(EmailFieldType.GetFieldTableAdditionalColumn(f))
    case Float => Return(FloatFieldType.GetFieldTableAdditionalColumn(env, f))
    case Integer => Throw
    case Number => Return(NumberFieldType.GetFieldTableAdditionalColumn(env, f))
    case Password => Throw
    case RegularExpression => Return(RegularExpressionFieldType.GetFieldTableAdditionalColumn(f))
    case Select => Return(SelectFieldType.GetFieldTableAdditionalColumn(env, f))
    case Time => Return(TimeFieldType.GetFieldTableAdditionalColumn(f))
    case Url => Return(UrlFieldType.GetFieldTableAdditionalColumn(f))
  }

  /** For every type, storing a valid value and reading it back gives the value itself. */
  lemma KindRoundTrip(env: Env, k: Kind, f: Field, v: Arg)
    requires KindValidateValue(env, k, f, v)
    ensures KindMapGetValue(k, f, KindMapStoreValue(k, f, v)) == v
  {
    match k
    case Boolean => BooleanFieldType.MappingRoundTrip(f, v);
    case Color => ColorFieldType.MappingRoundTrip(f, v);
    case Date => DateFieldType.MappingRoundTrip(env, f, v);
    case Email => EmailFieldType.MappingRoundTrip(f, v);
    case Float =>
    case Integer => IntegerFieldType.MappingRoundTrip(f, v);
    case Number =>
    case Password => PasswordFieldType.MappingRoundTrip(f, v);
    case RegularExpression => RegularExpressionFieldType.MappingRoundTrip(env, f, v);
    case Select => SelectFieldType.MappingRoundTrip(f, v);
    case Time => TimeFieldType.MappingRoundTrip(env, f, v);
    case Url => UrlFieldType.MappingRoundTrip(env, f, v);
  }

  /** A column is kept when its value is neither null nor "". */
  predicate Filled(c: Column) {
    !StrictEquals(Coalesce(c.1, Str("")), Str(""))
  }

  /** The filled columns, in order. */
  function KeepFilled(cs: seq<Column>): (r: seq<Column>)
    ensures |r| <= |cs|
    ensures forall k :: 0 <= k < |r| ==> Filled(r[k]) && r[k] in cs
    ensures forall k :: 0 <= k < |cs| && Filled(cs[k]) ==> cs[k] in r
    decreases |cs|
  {
    if cs == [] then []
    else if Filled(cs[0]) then [cs[0]] + KeepFilled(cs[1..])
    else KeepFilled(cs[1..])
  }

  lemma {:induction false} KeepFilledAppend(a: seq<Column>, b: seq<Column>)
    ensures KeepFilled(a + b) == KeepFilled(a) + KeepFilled(b)
    decreases |a|
  {
    if a == [] {
      assert a + b == b;
    } else {
      KeepFilledAppend(a[1..], b);
      assert (a + b)[0] == a[0] && (a + b)[1..] == a[1..] + b;
      if Filled(a[0]) {
        calc {
          KeepFilled(a + b);
          [a[0]] + KeepFilled(a[1..] + b);
          [a[0]] + (KeepFilled(a[1..]) + KeepFilled(b));
          ([a[0]] + KeepFilled(a[1..])) + KeepFilled(b);
        }
      } else {
        calc {
          KeepFilled(a + b);
          KeepFilled(a[1..] + b);
          KeepFilled(a[1..]) + KeepFilled(b);
        }
      }
    }
  }

  /**
   * Subtitle and Required, then the type's own columns `own`, without the
   * empty ones; null when nothing is left. Every filled column of `own` is
   * kept, in its order, after the first two, and nothing else is added.
   */
  function TableColumn(f: Field, own: seq<Column>): (r: Option<seq<Column>>)
    ensures r.Some? ==> r.value != [] && forall k :: 0 <= k < |r.value| ==> Filled(r.value[k])
    ensures f.subtitle != "" ==> r.Some? && r.value[0] == ("Subtitle", Str(f.subtitle))
    ensures f.required ==> r.Some? && ("Required", Str("Yes")) in r.value
    ensures forall c :: c in own && Filled(c) ==> r.Some? && c in r.value
    ensures r.Some? ==> forall c :: c in r.value ==> c in own || c == ("Subtitle", Str(f.subtitle)) || c == ("Required", Str("Yes"))
    ensures r.Some? ==> |KeepFilled(own)| <= |r.value| && r.value[|r.value| - |KeepFilled(own)|..] == KeepFilled(own)
    ensures f.subtitle == "" && !f.required && (forall c :: c in own ==> !Filled(c)) ==> r.None?
  {
    var head := [("Subtitle", Str(f.subtitle)), ("Required", Str(if f.required then "Yes" else ""))];
    KeepFilledAppend(head, own);
    var kept := KeepFilled(head + own);
    if |kept| > 0 then Some(kept) else None
  }

  class FieldTypeService {
    /** The registered types, in registration order (the order of the `Map`). */
    var types: seq<Kind>
    const env: Env
    /** The value formatter the service was created with; `None` when it was created without one. */
    const formatter: Option<Value -> string>

    /** No discriminator is registered twice. */
    ghost predicate Valid()
      reads this
    {
      forall i, j :: 0 <= i < j < |types| ==> types[i] != types[j]
    }

    /** Registers the default types in order; a failed registration is only logged. */
    constructor (env: Env, formatter: Option<Value -> string>)
      ensures Valid() && this.env == env && this.formatter == formatter
      ensures types == DefaultFieldTypes
    {
      this.env := env;
      this.formatter := formatter;
      types := [];
      new;
      var i := 0;
      while i < |DefaultFieldTypes|
        invariant 0 <= i <= |DefaultFieldTypes|
        invariant Valid() && types == DefaultFieldTypes[..i]
      {
        DefaultFresh(i);
        var _ := AddFieldType(DefaultFieldTypes[i]);
        assert DefaultFieldTypes[..i] + [DefaultFieldTypes[i]] == DefaultFieldTypes[..i + 1];
        i := i + 1;
      }
    }

    /** Adds a type, or throws when its discriminator is already registered. */
    method AddFieldType(k: Kind) returns (r: Reply<()>)
      requires Valid()
      modifies this
      ensures Valid()
      ensures old(Find(types, TypeName(k))).Some? ==> r.Throw? && types == old(types)
      ensures old(Find(types, TypeName(k))).None? ==> r.Return? && types == old(types) + [k]
    {
      if Find(types, TypeName(k)).Some? {
        return Throw;
      }
      types := types + [k];
      r := Return(());
    }

    /** The type registered under `t`, or null; never throws. */
    function GetFieldType(t: string): (r: Option<Kind>)
      reads this
      ensures r.Some? ==> r.value in types && TypeName(r.value) == t
      ensures r.None? ==> forall k :: k in types ==> TypeName(k) != t
    {
      Find(types, t)
    }

    /** The registered types, in registration order. */
    function GetFieldTypes(): seq<Kind>
      reads this
    {
      types
    }

    /** `getType`: the discriminator of the field's type, which is the field's own `type` whether or not it is registered. */
    function GetType(f: Field): (r: string)
      reads this
      ensures r == f.fieldType
    {
      match GetFieldType(f.fieldType)
      case Some(k) => TypeName(k)
      case None => f.fieldType
    }

    /** The label of the field's type, or the raw `type` for an unknown type. */
    function GetTypeLabel(f: Field): (r: string)
      reads this
      ensures GetFieldType(f.fieldType).None? ==> r == f.fieldType
      ensures GetFieldType(f.fieldType).Some? ==> r == TypeLabel(GetFieldType(f.fieldType).value)
    {
      match GetFieldType(f.fieldType)
      case Some(k) => TypeLabel(k)
      case None => f.fieldType
    }

    /** The type's own columns: none for an unknown type; throws for a type whose own columns cannot be asked for. */
    function OwnColumns(f: Field): (r: Reply<seq<Column>>)
      reads this
      ensures r.Throw? <==> GetFieldType(f.fieldType) in {Some(Integer), Some(Password)}
      ensures GetFieldType(f.fieldType).None? ==> r == Return([])
    {
      match GetFieldType(f.fieldType)
      case Some(k) => KindTableColumn(env, k, f)
      case None => Return([])
    }

    /**
     * The field-table column: Subtitle and Required first, then the type's
     * own columns, with every null or "" value dropped; null when nothing is
     * left. Throws for a type whose own columns cannot be asked for.
     */
    function GetFieldTableAdditionalColumn(f: Field): (r: Reply<Option<seq<Column>>>)
      reads this
      ensures r.Throw? <==> GetFieldType(f.fieldType) in {Some(Integer), Some(Password)}
      ensures r.Return? && r.value.Some? ==> r.value.value != [] && forall k :: 0 <= k < |r.value.value| ==> Filled(r.value.value[k])
      ensures r.Return? && f.subtitle != "" ==> r.value.Some? && r.value.value[0] == ("Subtitle", Str(f.subtitle))
      ensures r.Return? && f.required ==> r.value.Some? && ("Required", Str("Yes")) in r.value.value
      ensures r.Return? ==> forall c :: c in OwnColumns(f).value && Filled(c) ==> r.value.Some? && c in r.value.value
      ensures r.Return? && r.value.Some? ==> forall c :: c in r.value.value ==>
                c in OwnColumns(f).value || c == ("Subtitle", Str(f.subtitle)) || c == ("Required", Str("Yes"))
      ensures r.Return? && f.subtitle == "" && !f.required && (forall c :: c in OwnColumns(f).value ==> !Filled(c)) ==> r.value.None?
      ensures f.subtitle == "" && !f.required && GetFieldType(f.fieldType).None? ==> r == Return(None)
    {
      match OwnColumns(f)
      case Return(own) => Return(TableColumn(f, own))
      case Throw => Throw
    }

    /**
     * The value in the type's format, or unchanged for an unknown type; throws
     * for a type without `getValueAsFormat`.
     */
    function GetValueAsFormat(f: Field, v: Arg): (r: Reply<Value>)
      reads this
      ensures GetFieldType(f.fieldType).None? ==> r.Return? && r.value == v
      ensures r.Throw? <==> GetFieldType(f.fieldType) in {Some(Integer), Some(Password), Some(RegularExpression)}
    {
      match GetFieldType(f.fieldType)
      case Some(k) => KindValueAsFormat(k, f, v)
      case None => Reply<Value>.Return(v)
    }

    /**
     * The formatter's text of the type's text for the value (of the value
     * itself for an unknown type); throws when the service has no formatter.
     */
    function GetValueAsText(f: Field, v: Arg): (r: Reply<string>)
      reads this
      ensures r.Throw? <==> formatter.None?
      ensures r.Return? && GetFieldType(f.fieldType).None? ==> r.value == formatter.value(v)
    {
      match formatter
      case None => Throw
      case Some(format) =>
        Return(format(match GetFieldType(f.fieldType)
                      case Some(k) => KindValueAsText(env, k, f, v)
                      case None => v))
    }

    /**
     * The registry passes a registered type's text through the formatter:
     * a password field shows the same text for any two set passwords.
     */
    lemma PasswordTextHidden(f: Field, a: string, b: string)
      requires GetFieldType(f.fieldType) == Some(Password) && a != "" && b != ""
      ensures GetValueAsText(f, Str(a)) == GetValueAsText(f, Str(b))
    {
      PasswordFieldType.TextHidesValue(f, a, b);
    }

    /** `mapGetField` and `mapStoreField`: the type's attributes of the field; null for an unknown type. */
    function MapField(f: Field): (r: Option<map<string, Value>>)
      reads this
      ensures GetFieldType(f.fieldType).None? ==> r.None?
    {
      match GetFieldType(f.fieldType)
      case Some(k) => KindMapField(k, f)
      case None => None
    }

    /** A definition stored with its mapped attributes reads back with the same attributes. */
    lemma MapFieldStable(f: Field)
      ensures MapField(f).Some? ==> MapField(f.(attrs := MapField(f).value)) == MapField(f)
      ensures MapField(f).None? ==> MapField(f.(attrs := map[])).None?
    {
      if GetFieldType(f.fieldType).Some? {
        KindMapFieldStable(GetFieldType(f.fieldType).value, f);
      }
    }

    /** The read mapping of the field's type; unchanged for an unknown type. */
    function MapGetValue(f: Field, v: Arg): (r: Value)
      reads this
      ensures GetFieldType(f.fieldType).None? ==> r == v
    {
      match GetFieldType(f.fieldType)
      case Some(k) => KindMapGetValue(k, f, v)
      case None => v
    }

    /** The store mapping of the field's type; unchanged for an unknown type. */
    function MapStoreValue(f: Field, v: Arg): (r: Value)
      reads this
      ensures GetFieldType(f.fieldType).None? ==> r == v
    {
      match GetFieldType(f.fieldType)
      case Some(k) => KindMapStoreValue(k, f, v)
      case None => v
    }

    /** The type's definition check; false for an unknown type. */
    function ValidateField(f: Field): (ok: bool)
      reads this
      ensures GetFieldType(f.fieldType).None? ==> !ok
    {
      match GetFieldType(f.fieldType)
      case Some(k) => KindValidateField(env, k, f)
      case None => false
    }

    /** False for a required field with a null value, before any dispatch; false for an unknown type; the type's check otherwise. */
    function ValidateValue(f: Field, v: Arg): (ok: bool)
      reads this
      ensures f.required && v.Null? ==> !ok
      ensures GetFieldType(f.fieldType).None? ==> !ok
      ensures ok ==> KindValidateValue(env, GetFieldType(f.fieldType).value, f, v)
    {
      if f.required && v.Null? then false
      else match GetFieldType(f.fieldType)
           case Some(k) => KindValidateValue(env, k, f, v)
           case None => false
    }

    /** A value that validates survives the store mapping and the read mapping unchanged. */
    lemma StoreReadRoundTrip(f: Field, v: Arg)
      ensures ValidateValue(f, v) ==> MapGetValue(f, MapStoreValue(f, v)) == v
    {
      if ValidateValue(f, v) {
        KindRoundTrip(env, GetFieldType(f.fieldType).value, f, v);
      }
    }
  }
}
