# flux-field-value-storage in Dafny

This project models the core of `flux-field-value-storage`, a schema engine
for records whose fields are defined at run time. Its parts:

- **Field service** (`FieldStore`, over `FieldPositions`). It keeps the
  *fields* collection: one document per field, holding an `_id`, a numeric
  `position`, the five base keys (`type`, `name`, `label`, `subtitle`,
  `required`) and the attributes of the field's type.
  - Reading sorts the fields by position.
  - Deleting or moving a field renumbers them, so that the i-th field sits
    at `start + (i + 1) * step`.
  - `setFieldPositions` assigns the targets by the order of a list of names.
  - `storeField` guards its input, refuses renames onto another field's
    name and type changes, and upserts the definition with only the
    attributes its type keeps.
- **Value service** (`ValueStore`). It keeps the *values* collection: one
  document per record and field id. A record is the set of documents that
  share a `name` and a record `id`.
  - `getValue` sorts a record's entries by field id.
  - `getValues` groups all documents by record id.
  - `storeValue` replaces a record's documents. It keeps the record id and
    the document ids of the field ids the record already had.
- **Field-type registry** (`FieldTypes`). It registers the default types in
  order and refuses a second registration of a discriminator. It
  dispatches validation, the read and store mappings, attribute mapping,
  text and format rendering, and field-table columns to the field's type.
  - An unknown type fails closed for validation and passes values through
    otherwise.
  - A required field with a null value is refused before any dispatch.
- **Field types**, one module each: boolean, color, date, email, float,
  integer, number, password, regular expression, select, time and url.
  Each module holds the type's definition check, value check, mappings,
  text, format, filter handling and table columns.
- **Storage facade** (`Storage.FluxFieldValueStorage`).
  - Deleting a field also deletes the value documents of its id.
  - Records are read back projected onto the live fields, in position
    order.
  - A submission is stored only after every entry has been resolved to a
    live field by name and every live field's resolved value has passed
    its type's check. Values are stored through the store mapping, in
    field order, under field ids.

JavaScript values are modelled by `Json.Value`. It distinguishes
`undefined` from `null` and has finite numbers (`real`), infinities and
NaN. Absent type attributes read as `undefined`.

The collections are sequences of documents in natural (insertion) order.
The classes `FieldStore.FieldService`, `ValueStore.ValueService`,
`FieldTypes.FieldTypeService` and `Storage.FluxFieldValueStorage` hold them
as fields that their methods update.

What the code takes from its surroundings is passed in as parameters:

- **`Host.Env`** holds the host and library operations:
  - the `DATE_PATTERN` and `TIME_PATTERN` tests;
  - `URL.canParse` (section 4.4 of the WHATWG URL Standard);
  - compiling and testing a `RegExp`;
  - `toLowerCase`;
  - the text of a number.
- **The value formatter** is an optional constant of the type service, set
  by its constructor as `FieldTypeService.new(flux_value_format)` sets it.
- **`Host.Config`** holds `FIELD_NAME_PATTERN` and the `FIELD_POSITION_*`
  constants.
- **Fresh ids:** each `crypto.randomUUID()` result is a parameter, with a
  precondition that it is unused.

Three type methods that the registry calls do not exist in the code, and
the model follows the code:

- The integer and password types define `getFieldTableOtherColumn`, not
  `getFieldTableAdditionalColumn`.
- The integer, password and regular-expression types define no
  `getValueAsFormat`.

So the registry's `getFieldTableAdditionalColumn` and `getValueAsFormat`
throw for those types.

## Model

| member | source | states |
|---|---|---|
| BooleanFieldType.MapGetValue | src/FieldType/BooleanFieldType.mjs:111-113 | null reads as `false`; a boolean reads as itself |
| BooleanFieldType.MapStoreValue | src/FieldType/BooleanFieldType.mjs:128-130 | null is stored as `false`; a boolean as itself |
| BooleanFieldType.GetValueAsText | src/FieldType/BooleanFieldType.mjs:70-84 | the text is "Yes" exactly for a truthy value, "No" otherwise (format and text agree) |
| BooleanFieldType.ValidValues | src/FieldType/BooleanFieldType.mjs:145-155 | only booleans validate; a required field accepts exactly `true`, an optional one any boolean |
| BooleanFieldType.MappingRoundTrip | src/FieldType/BooleanFieldType.mjs:111-155 | store then read gives back every valid value; null becomes `false`, valid exactly when optional |
| BooleanFieldType.ValidateField | src/FieldType/BooleanFieldType.mjs:136-138 | every definition is accepted |
| BooleanFieldType.ValidateValue | src/FieldType/BooleanFieldType.mjs:145-155 | a boolean, and `true` when the field is required |
| ColorFieldType.HexDigit | src/FieldType/ColorFieldType.mjs:9 | every nibble has a lowercase hex digit |
| ColorFieldType.HexValue | src/FieldType/ColorFieldType.mjs:9 | a lowercase hex digit has a value below 16 whose digit is itself |
| ColorFieldType.HexValueOfDigit | src/FieldType/ColorFieldType.mjs:9 | digit and value are inverse |
| ColorFieldType.Serialize | src/FieldType/ColorFieldType.mjs:9 | every 8-bit colour serializes to text `COLOR_PATTERN` accepts |
| ColorFieldType.Parse | src/FieldType/ColorFieldType.mjs:9 | text parses to a colour exactly when `COLOR_PATTERN` accepts it |
| ColorFieldType.ParseSerialize | src/FieldType/ColorFieldType.mjs:9 | parsing a serialized colour gives the colour back |
| ColorFieldType.SerializeParse | src/FieldType/ColorFieldType.mjs:9 | every accepted text is the serialization of the colour it parses to |
| ColorFieldType.UpperCaseRejected | src/FieldType/ColorFieldType.mjs:9 | a colour with an upper-case hex digit is refused |
| ColorFieldType.MapGetValue | src/FieldType/ColorFieldType.mjs:110-112 | null reads as ""; a string as itself |
| ColorFieldType.MapStoreValue | src/FieldType/ColorFieldType.mjs:127-129 | null is stored as ""; a string as itself |
| ColorFieldType.ValidValues | src/FieldType/ColorFieldType.mjs:144-158 | non-strings (null included) never validate; every serialized colour does; "" exactly when optional |
| ColorFieldType.MappingRoundTrip | src/FieldType/ColorFieldType.mjs:110-158 | store then read gives back every valid value; null becomes "", valid exactly when optional |
| ColorFieldType.GetValueAsFormat | src/FieldType/ColorFieldType.mjs:72-74 | the value itself |
| ColorFieldType.GetValueAsText | src/FieldType/ColorFieldType.mjs:81-83 | the value itself |
| ColorFieldType.ValidateField | src/FieldType/ColorFieldType.mjs:135-137 | every definition is accepted |
| ColorFieldType.ValidateValue | src/FieldType/ColorFieldType.mjs:144-158 | a string; a non-empty one is a lowercase `#rrggbb` colour; "" is refused when required |
| DateFieldType.GetFieldTableAdditionalColumn | src/FieldType/DateFieldType.mjs:54-65 | the columns are the minimal and maximal value, as stored |
| DateFieldType.GetValueAsFormat | src/FieldType/DateFieldType.mjs:93-98 | the format is `{date: value, "show-as-utc": true}` |
| DateFieldType.MapField | src/FieldType/DateFieldType.mjs:131-156 | exactly the two bound attributes are kept, with their values |
| DateFieldType.MapGetValue | src/FieldType/DateFieldType.mjs:143-145 | null reads as ""; a string as itself |
| DateFieldType.MapStoreValue | src/FieldType/DateFieldType.mjs:163-165 | null is stored as ""; a string as itself |
| DateFieldType.StringBoundsAccepted | src/FieldType/DateFieldType.mjs:171-181 | any two string bounds pass the definition check, whatever their text or order |
| DateFieldType.BoundsHold | src/FieldType/DateFieldType.mjs:188-210 | a valid non-empty value is not below a non-empty minimum nor above a non-empty maximum, as strings |
| DateFieldType.EmptyBoundsImposeNothing | src/FieldType/DateFieldType.mjs:188-210 | with "" bounds a value is valid iff it is a string, matches the pattern when non-empty, and is non-empty when required |
| DateFieldType.MappingRoundTrip | src/FieldType/DateFieldType.mjs:143-210 | store then read gives back every valid value; null becomes "", valid exactly when optional |
| DateFieldType.GetValueAsText | src/FieldType/DateFieldType.mjs:105-107 | the value itself |
| DateFieldType.ValidateField | src/FieldType/DateFieldType.mjs:171-181 | each bound is a string, or its text matches the date pattern |
| DateFieldType.ValidateValue | src/FieldType/DateFieldType.mjs:188-210 | a string; a non-empty one matches the date pattern and is not below a non-empty minimum nor above a non-empty maximum; "" is refused when required |
| EmailFieldType.Compose | src/FieldType/EmailFieldType.mjs:9 | a local part, '@' and '.'-joined labels form an address `EMAIL_PATTERN` accepts, splitting back at '@' |
| EmailFieldType.Decompose | src/FieldType/EmailFieldType.mjs:9 | every accepted address is its local part, '@' and its labels joined by '.' |
| EmailFieldType.GetFieldTableAdditionalColumn | src/FieldType/EmailFieldType.mjs:48-55 | the one column is the placeholder |
| EmailFieldType.MapField | src/FieldType/EmailFieldType.mjs:137-141 | exactly the placeholder attribute is kept |
| EmailFieldType.MapGetValue | src/FieldType/EmailFieldType.mjs:148-150 | null reads as ""; a string as itself |
| EmailFieldType.MapStoreValue | src/FieldType/EmailFieldType.mjs:167-169 | null is stored as ""; a string as itself |
| EmailFieldType.MatchFilterValue | src/FieldType/EmailFieldType.mjs:177-183 | a null filter matches all; a null value matches no other filter; strings match by lower-cased containment; otherwise it throws |
| EmailFieldType.ValidValues | src/FieldType/EmailFieldType.mjs:219-233 | non-strings never validate; every composed address does; "" exactly when optional |
| EmailFieldType.MappingRoundTrip | src/FieldType/EmailFieldType.mjs:148-233 | store then read gives back every valid value; null becomes "", valid exactly when optional |
| EmailFieldType.GetValueAsFormat | src/FieldType/EmailFieldType.mjs:83-85 | the value itself |
| EmailFieldType.GetValueAsText | src/FieldType/EmailFieldType.mjs:92-94 | the value itself |
| EmailFieldType.MapFilterValue | src/FieldType/EmailFieldType.mjs:129-131 | the filter as given |
| EmailFieldType.ValidateField | src/FieldType/EmailFieldType.mjs:189-195 | the placeholder is a string |
| EmailFieldType.ValidateFilterValue | src/FieldType/EmailFieldType.mjs:202-212 | null, or a non-empty string |
| EmailFieldType.ValidateValue | src/FieldType/EmailFieldType.mjs:219-233 | a string; a non-empty one matches `EMAIL_PATTERN`; "" is refused when required |
| FloatFieldType.GetFieldTableAdditionalColumn | src/FieldType/FloatFieldType.mjs:70-85 | three text columns: minimal, maximal and step value; a nullish bound shows as "", a number as its text; the step as its text, "null" or "undefined" |
| FloatFieldType.MapField | src/FieldType/FloatFieldType.mjs:150-156 | exactly the bounds and the step are kept |
| FloatFieldType.ValidDefinition | src/FieldType/FloatFieldType.mjs:192-206 | a definition is valid exactly when its bounds are null or finite and its step is a number within [0.000001, 1 - 0.000001] |
| FloatFieldType.Bounds | src/FieldType/FloatFieldType.mjs:213-231 | valid numbers lie within the inclusive bounds; null bounds accept any finite number; null is valid exactly when optional; other kinds never |
| FloatFieldType.GetValueAsFormat | src/FieldType/FloatFieldType.mjs:114-116 | the value itself |
| FloatFieldType.GetValueAsText | src/FieldType/FloatFieldType.mjs:123-125 | the value itself |
| FloatFieldType.MapGetValue | src/FieldType/FloatFieldType.mjs:163-165 | the stored value unchanged |
| FloatFieldType.MapStoreValue | src/FieldType/FloatFieldType.mjs:184-186 | the value unchanged |
| FloatFieldType.ValidateField | src/FieldType/FloatFieldType.mjs:192-206 | bounds null or finite; the step finite and within [0.000001, 1 - 0.000001] |
| FloatFieldType.ValidateValue | src/FieldType/FloatFieldType.mjs:213-231 | null or finite; null is refused when required; a number lies within the non-null bounds |
| IntegerFieldType.GetFieldTableOtherColumn | src/FieldType/IntegerFieldType.mjs:55-66 | two text columns, minimal and maximal value; a nullish bound shows as "", a number as its text |
| IntegerFieldType.GetValueAsText | src/FieldType/IntegerFieldType.mjs:87-89 | "-" for null, the number's text otherwise |
| IntegerFieldType.MapField | src/FieldType/IntegerFieldType.mjs:114-119 | exactly the two bounds are kept |
| IntegerFieldType.ValidValues | src/FieldType/IntegerFieldType.mjs:171-189 | a valid non-null value is an integer within the inclusive bounds; null valid exactly when optional; 0.5 never |
| IntegerFieldType.MappingRoundTrip | src/FieldType/IntegerFieldType.mjs:126-148 | the mappings are the identity, lossless on every value |
| IntegerFieldType.MapGetValue | src/FieldType/IntegerFieldType.mjs:126-128 | the stored value unchanged |
| IntegerFieldType.MapStoreValue | src/FieldType/IntegerFieldType.mjs:146-148 | the value unchanged |
| IntegerFieldType.ValidateField | src/FieldType/IntegerFieldType.mjs:154-164 | each bound null or an integer |
| IntegerFieldType.ValidateValue | src/FieldType/IntegerFieldType.mjs:171-189 | null or an integer; null is refused when required; an integer lies within the non-null bounds |
| NumberFieldType.GetFieldTableAdditionalColumn | src/FieldType/NumberFieldType.mjs:67-82 | three text columns: minimal, maximal and step value; each nullish one shows as "", a number as its text |
| NumberFieldType.MapFilterValue | src/FieldType/NumberFieldType.mjs:192-194 | decimal text becomes its number, "null" becomes null, anything else is kept |
| NumberFieldType.NatText | src/FieldType/NumberFieldType.mjs:192-194 | the text of a natural number is a digit string |
| NumberFieldType.NatTextValue | src/FieldType/NumberFieldType.mjs:192-194 | the digits of n read back as n |
| NumberFieldType.IntegerFilterRoundTrip | src/FieldType/NumberFieldType.mjs:192-194 | the text of every integer is decimal and maps back to that integer |
| NumberFieldType.MapField | src/FieldType/NumberFieldType.mjs:200-206 | exactly the bounds and the step are kept |
| NumberFieldType.MatchFilterValue | src/FieldType/NumberFieldType.mjs:245-256 | "from" keeps values at or above the filter, "to" at or below; no attribute asks for strict equality; NaN matches nothing |
| NumberFieldType.ValidDefinition | src/FieldType/NumberFieldType.mjs:262-276 | a definition is valid exactly when its bounds are null or finite and its step is null or a number of at least 0.000001 |
| NumberFieldType.Bounds | src/FieldType/NumberFieldType.mjs:284-334 | valid values lie within the inclusive bounds; null valid exactly when optional; a range filter needs a number; a valid filter is a valid value or null for a required field |
| NumberFieldType.GetValueAsFormat | src/FieldType/NumberFieldType.mjs:110-112 | the value itself |
| NumberFieldType.GetValueAsText | src/FieldType/NumberFieldType.mjs:119-121 | the value itself |
| NumberFieldType.MapGetValue | src/FieldType/NumberFieldType.mjs:213-215 | the stored value unchanged |
| NumberFieldType.MapStoreValue | src/FieldType/NumberFieldType.mjs:234-236 | the value unchanged |
| NumberFieldType.ValidateField | src/FieldType/NumberFieldType.mjs:262-276 | bounds null or finite; the step null, or finite and at least 0.000001 |
| NumberFieldType.ValidateFilterValue | src/FieldType/NumberFieldType.mjs:284-309 | the attribute null, "from" or "to"; the value null or finite, not null with an attribute, and within the non-null bounds |
| NumberFieldType.ValidateValue | src/FieldType/NumberFieldType.mjs:316-334 | null or finite; null is refused when required; a number lies within the non-null bounds |
| PasswordFieldType.GetFieldTableOtherColumn | src/FieldType/PasswordFieldType.mjs:45-52 | the one column is the placeholder |
| PasswordFieldType.GetValueAsText | src/FieldType/PasswordFieldType.mjs:73-75 | the text is "-" exactly for null or "", the ten-bullet mask otherwise |
| PasswordFieldType.TextHidesValue | src/FieldType/PasswordFieldType.mjs:73-75 | any two set passwords read as the same mask |
| PasswordFieldType.MapField | src/FieldType/PasswordFieldType.mjs:96-100 | exactly the placeholder attribute is kept |
| PasswordFieldType.MapGetValue | src/FieldType/PasswordFieldType.mjs:107-109 | null reads as ""; a string as itself |
| PasswordFieldType.MapStoreValue | src/FieldType/PasswordFieldType.mjs:126-128 | null is stored as ""; a string as itself |
| PasswordFieldType.ValidValues | src/FieldType/PasswordFieldType.mjs:147-157 | every non-empty string validates, no non-string does, "" exactly when optional |
| PasswordFieldType.MappingRoundTrip | src/FieldType/PasswordFieldType.mjs:107-157 | store then read gives back every valid value; null becomes "", valid exactly when optional |
| PasswordFieldType.ValidateField | src/FieldType/PasswordFieldType.mjs:134-140 | the placeholder is a string |
| PasswordFieldType.ValidateValue | src/FieldType/PasswordFieldType.mjs:147-157 | a string; "" is refused when required |
| RegularExpressionFieldType.GetFieldTableAdditionalColumn | src/FieldType/RegularExpressionFieldType.mjs:54-65 | the columns are the placeholder and the pattern |
| RegularExpressionFieldType.GetValueAsText | src/FieldType/RegularExpressionFieldType.mjs:86-88 | "-" for null or "", the value otherwise |
| RegularExpressionFieldType.MapField | src/FieldType/RegularExpressionFieldType.mjs:110-115 | exactly the placeholder and the pattern are kept |
| RegularExpressionFieldType.MapGetValue | src/FieldType/RegularExpressionFieldType.mjs:122-124 | null reads as ""; a string as itself |
| RegularExpressionFieldType.MapStoreValue | src/FieldType/RegularExpressionFieldType.mjs:142-144 | null is stored as ""; a string as itself |
| RegularExpressionFieldType.PatternChecked | src/FieldType/RegularExpressionFieldType.mjs:150-166 | a valid definition has a string pattern that compiles; an empty pattern is refused |
| RegularExpressionFieldType.ValidValues | src/FieldType/RegularExpressionFieldType.mjs:173-187 | a valid non-empty value matches the field's pattern; "" valid exactly when optional; non-strings never |
| RegularExpressionFieldType.MappingRoundTrip | src/FieldType/RegularExpressionFieldType.mjs:122-187 | store then read gives back every valid value; null becomes "", valid exactly when optional |
| RegularExpressionFieldType.ValidateField | src/FieldType/RegularExpressionFieldType.mjs:150-166 | the placeholder is a string; the pattern a non-empty string that compiles |
| RegularExpressionFieldType.ValidateValue | src/FieldType/RegularExpressionFieldType.mjs:173-187 | a string; a non-empty one matches the field's pattern; "" is refused when required |
| SelectFieldType.OptionValues | src/FieldType/SelectFieldType.mjs:259-273 | the option values, one per option, in order |
| SelectFieldType.FindOption | src/FieldType/SelectFieldType.mjs:117-119 | the option found has a value strictly equal to the one sought, and it is the first such option; none found means no option has it |
| SelectFieldType.FindsOwnOption | src/FieldType/SelectFieldType.mjs:117-119 | in a definition that `validateField` accepts, each option's value finds that option |
| SelectFieldType.GetValueAsText | src/FieldType/SelectFieldType.mjs:105-119 | null for null or ""; the matching option's label, or the value itself when no option matches or the label is missing |
| SelectFieldType.MapField | src/FieldType/SelectFieldType.mjs:167-174 | only the options are kept, one entry per option with its value and label |
| SelectFieldType.OptionEntries | src/FieldType/SelectFieldType.mjs:167-174 | one `{label, value}` entry per option, in order |
| SelectFieldType.MapFieldStable | src/FieldType/SelectFieldType.mjs:167-174 | mapping an already mapped definition changes nothing |
| SelectFieldType.GetFieldTableAdditionalColumn | src/FieldType/SelectFieldType.mjs:70-77 | one column "Options": the options' texts in order, joined by ", "; "" when there are none, the one option's text when there is one |
| SelectFieldType.OptionText | src/FieldType/SelectFieldType.mjs:74 | an option with string label and value shows as "label (value)" |
| SelectFieldType.OptionTexts | src/FieldType/SelectFieldType.mjs:74 | one text per option, in order, each the option's "label (value)" |
| SelectFieldType.ColumnShowsEveryOption | src/FieldType/SelectFieldType.mjs:70-77 | every option's "label (value)" text occurs in the column |
| SelectFieldType.MapGetValue | src/FieldType/SelectFieldType.mjs:181-183 | null reads as ""; a string as itself |
| SelectFieldType.MapStoreValue | src/FieldType/SelectFieldType.mjs:203-205 | null is stored as ""; a string as itself |
| SelectFieldType.MapFilterValue | src/FieldType/SelectFieldType.mjs:159-161 | filter text becomes the list of its comma-separated parts; anything else is kept |
| SelectFieldType.MatchFilterValue | src/FieldType/SelectFieldType.mjs:213-222 | an empty or null filter, or an object whose `length` is 0, matches only an empty value; a list matches the values it holds; any other non-list, non-string filter throws |
| SelectFieldType.FilterRoundTrip | src/FieldType/SelectFieldType.mjs:159-161 | a valid non-empty filter, written as comma-separated text, maps back to itself |
| SelectFieldType.ValidValues | src/FieldType/SelectFieldType.mjs:259-273 | a value that is no current option value is refused; "" exactly when optional; every option of a valid optional field validates |
| SelectFieldType.MappingRoundTrip | src/FieldType/SelectFieldType.mjs:181-273 | store then read gives back every valid value; null becomes "", valid exactly when optional |
| SelectFieldType.ValidateField | src/FieldType/SelectFieldType.mjs:228-234 | a non-empty array of options, each an object with a comma-free non-empty string value and a non-empty label, the values distinct |
| SelectFieldType.ValidateFilterValue | src/FieldType/SelectFieldType.mjs:242-252 | no attribute; an array of distinct option values of the field |
| SelectFieldType.ValidateValue | src/FieldType/SelectFieldType.mjs:259-273 | a string; a non-empty one is the value of an option; "" is refused when required |
| TimeFieldType.GetFieldTableAdditionalColumn | src/FieldType/TimeFieldType.mjs:56-67 | the columns are the minimal and maximal value, as stored |
| TimeFieldType.GetValueAsFormat | src/FieldType/TimeFieldType.mjs:95-100 | the format is `{time: value, "show-as-utc": true}` |
| TimeFieldType.MapField | src/FieldType/TimeFieldType.mjs:160-165 | exactly the two bound attributes are kept |
| TimeFieldType.MapGetValue | src/FieldType/TimeFieldType.mjs:172-174 | null reads as ""; a string as itself |
| TimeFieldType.MapStoreValue | src/FieldType/TimeFieldType.mjs:192-194 | null is stored as ""; a string as itself |
| TimeFieldType.MatchFilterValue | src/FieldType/TimeFieldType.mjs:202-208 | a null filter matches everything; a string filter matches exactly an equal value |
| TimeFieldType.StringBoundsAccepted | src/FieldType/TimeFieldType.mjs:214-224 | any two string bounds pass the definition check |
| TimeFieldType.BoundsHold | src/FieldType/TimeFieldType.mjs:231-282 | valid non-empty values and non-null filters lie within non-empty string bounds |
| TimeFieldType.FilterIsValue | src/FieldType/TimeFieldType.mjs:231-282 | a valid non-null filter is a valid value of the field |
| TimeFieldType.MappingRoundTrip | src/FieldType/TimeFieldType.mjs:172-282 | store then read gives back every valid value; null becomes "", valid exactly when optional |
| TimeFieldType.GetValueAsText | src/FieldType/TimeFieldType.mjs:107-109 | the value itself |
| TimeFieldType.MapFilterValue | src/FieldType/TimeFieldType.mjs:152-154 | the filter as given |
| TimeFieldType.ValidateField | src/FieldType/TimeFieldType.mjs:214-224 | each bound is a string, or its text matches the time pattern |
| TimeFieldType.ValidateFilterValue | src/FieldType/TimeFieldType.mjs:231-253 | null, or a non-empty string matching the time pattern within the non-empty bounds |
| TimeFieldType.ValidateValue | src/FieldType/TimeFieldType.mjs:260-282 | a string; a non-empty one matches the time pattern and lies within the non-empty bounds; "" is refused when required |
| UrlFieldType.GetFieldTableAdditionalColumn | src/FieldType/UrlFieldType.mjs:48-55 | the one column is the placeholder |
| UrlFieldType.MapFilterValue | src/FieldType/UrlFieldType.mjs:140-142 | filters are kept as given |
| UrlFieldType.MapField | src/FieldType/UrlFieldType.mjs:148-152 | exactly the placeholder attribute is kept |
| UrlFieldType.MapGetValue | src/FieldType/UrlFieldType.mjs:159-161 | null reads as ""; a string as itself |
| UrlFieldType.MapStoreValue | src/FieldType/UrlFieldType.mjs:178-180 | null is stored as ""; a string as itself |
| UrlFieldType.MatchFilterValue | src/FieldType/UrlFieldType.mjs:189-197 | "contains" tests lower-cased containment (null as ""); otherwise strict equality with null as "" |
| UrlFieldType.EqualityFilterIsValue | src/FieldType/UrlFieldType.mjs:217-256 | without an attribute, a valid filter is exactly a valid value of an optional field |
| UrlFieldType.ContainsFilter | src/FieldType/UrlFieldType.mjs:217-235 | a "contains" filter is valid exactly when it is a non-empty string |
| UrlFieldType.MappingRoundTrip | src/FieldType/UrlFieldType.mjs:159-256 | store then read gives back every valid value; null becomes "", valid exactly when optional |
| UrlFieldType.GetValueAsFormat | src/FieldType/UrlFieldType.mjs:83-85 | the value itself |
| UrlFieldType.GetValueAsText | src/FieldType/UrlFieldType.mjs:92-94 | the value itself |
| UrlFieldType.ValidateField | src/FieldType/UrlFieldType.mjs:203-209 | the placeholder is a string |
| UrlFieldType.ValidateFilterValue | src/FieldType/UrlFieldType.mjs:217-235 | the attribute null or "contains"; a string; without an attribute a non-empty one is a URL; with one it is non-empty |
| UrlFieldType.ValidateValue | src/FieldType/UrlFieldType.mjs:242-256 | a string; a non-empty one is a URL; "" is refused when required |
| FieldTypes.NameRank | src/FieldType/FieldTypeService.mjs:47-55 | the discriminator of a type determines its kind |
| FieldTypes.DefaultRank | src/FieldType/DEFAULT_FIELD_TYPES.mjs:22-38 | each default type sits at its own index of the default list |
| FieldTypes.DefaultFresh | src/FieldType/FieldTypeService.mjs:32-41 | no default type repeats the discriminator of one registered before it, so construction never throws |
| FieldTypes.Find | src/FieldType/FieldTypeService.mjs:110-112 | the type found is registered under the discriminator; none means no registered type has it |
| FieldTypes.KindMapFieldStable | src/FieldType/FieldTypeService.mjs:231-281 | the attributes a type keeps are kept again on a second mapping |
| FieldTypes.KindRoundTrip | src/FieldType/FieldTypeService.mjs:250-301 | for every type, store then read gives back every value that type validates |
| FieldTypes.KeepFilled | src/FieldType/FieldTypeService.mjs:97-99 | the kept columns are the filled ones of the input, every filled one kept |
| FieldTypes.KeepFilledAppend | src/FieldType/FieldTypeService.mjs:97-99 | filtering distributes over concatenation |
| FieldTypes.TableColumn | src/FieldType/FieldTypeService.mjs:83-104 | a result holds filled columns only; a subtitle comes first; a required field shows "Required: Yes"; every filled column of the type's own is kept, in order, at the end; nothing else appears; null when subtitle, required and every own column are empty |
| FieldTypes.FieldTypeService.OwnColumns | src/FieldType/FieldTypeService.mjs:93-97 | the type's own columns; none for an unknown type; throws exactly for the integer and password types |
| FieldTypes.FieldTypeService.constructor | src/FieldType/FieldTypeService.mjs:32-41 | the registry holds the default types, in order, and the service keeps the formatter it was given, or none |
| FieldTypes.FieldTypeService.AddFieldType | src/FieldType/FieldTypeService.mjs:47-55 | a taken discriminator throws and changes nothing; otherwise the type is appended |
| FieldTypes.FieldTypeService.GetFieldType | src/FieldType/FieldTypeService.mjs:110-112 | the registered type with that discriminator, or null when there is none |
| FieldTypes.FieldTypeService.GetType | src/FieldType/FieldTypeService.mjs:141-151 | the discriminator is the field's own `type`, registered or not |
| FieldTypes.FieldTypeService.GetTypeLabel | src/FieldType/FieldTypeService.mjs:157-167 | the type's label, or the raw `type` of an unknown type |
| FieldTypes.FieldTypeService.GetFieldTableAdditionalColumn | src/FieldType/FieldTypeService.mjs:83-104 | throws exactly for the integer and password types; otherwise filled columns, subtitle first, "Required: Yes" when required, every filled own column and nothing else besides, null when all are empty |
| FieldTypes.FieldTypeService.GetValueAsFormat | src/FieldType/FieldTypeService.mjs:174-187 | an unknown type passes the value through; throws exactly for the integer, password and regular-expression types |
| FieldTypes.FieldTypeService.GetValueAsText | src/FieldType/FieldTypeService.mjs:194-205 | throws exactly when the service has no formatter; an unknown type formats the value itself |
| FieldTypes.FieldTypeService.PasswordTextHidden | src/FieldType/FieldTypeService.mjs:194-205 | through the registry and the formatter, any two set passwords show the same text |
| FieldTypes.FieldTypeService.MapField | src/FieldType/FieldTypeService.mjs:231-281 | an unknown type keeps no attributes (null) |
| FieldTypes.FieldTypeService.MapFieldStable | src/FieldType/FieldTypeService.mjs:231-281 | a definition stored with its mapped attributes maps to the same attributes |
| FieldTypes.FieldTypeService.MapGetValue | src/FieldType/FieldTypeService.mjs:250-263 | an unknown type reads the value unchanged |
| FieldTypes.FieldTypeService.MapStoreValue | src/FieldType/FieldTypeService.mjs:288-301 | an unknown type stores the value unchanged |
| FieldTypes.FieldTypeService.ValidateField | src/FieldType/FieldTypeService.mjs:307-319 | an unknown type's definition is refused |
| FieldTypes.FieldTypeService.ValidateValue | src/FieldType/FieldTypeService.mjs:326-343 | a required field with null and an unknown type are refused; acceptance implies the type's own check |
| FieldTypes.FieldTypeService.StoreReadRoundTrip | src/FieldType/FieldTypeService.mjs:250-343 | a value that validates survives the store mapping and the read mapping unchanged |
| FieldTypes.FieldTypeService.GetFieldTypes | src/FieldType/FieldTypeService.mjs:117-119 | the registered types, in registration order |
| FieldPositions.ByPositionTotal | src/Field/FieldService.mjs:198-200 | the position order is a total preorder |
| FieldPositions.SortByPosition | src/Field/FieldService.mjs:198-200 | the fields sorted by position, a permutation of the collection |
| FieldPositions.TargetFormula | src/Field/FieldService.mjs:651-671 | the i-th target is `start + (i + 1) * step` |
| FieldPositions.TargetIncreasing | src/Field/FieldService.mjs:651-671 | later targets are at least a step higher |
| FieldPositions.Densified | src/Field/FieldService.mjs:651-671 | an order with every field moved to its rank's target is dense |
| FieldPositions.DensifiedStrict | src/Field/FieldService.mjs:651-671 | a densified order has no two fields at one position |
| FieldPositions.IndexOfId | src/Field/FieldService.mjs:663-669 | the first document with the id, or the length when there is none |
| FieldPositions.SetPosition | src/Field/FieldService.mjs:663-669 | `updateOne` changes the position of the documents with that id and nothing else |
| FieldPositions.Changed | src/Field/FieldService.mjs:657-669 | every id updated is that of a field whose position differed from its target |
| FieldPositions.RepositionDense | src/Field/FieldService.mjs:651-671 | after renumbering, the fields are in their old order and the i-th sits at its target |
| FieldPositions.RenumberedAll | src/Field/FieldService.mjs:651-671 | the loop over the fields in position order gives the renumbering by rank |
| FieldPositions.RunNext | src/Field/FieldService.mjs:657-669 | one loop step advances the running position and moves the next field there unless it sits there |
| FieldPositions.RepositionIdempotent | src/Field/FieldService.mjs:651-671 | renumbering dense fields changes nothing and issues no update |
| FieldPositions.RepositionKeepsFields | src/Field/FieldService.mjs:651-671 | renumbering keeps every id, name and definition |
| FieldPositions.RepositionedAt | src/Field/FieldService.mjs:651-671 | renumbering moves each document in place, keeping its id and definition |
| FieldPositions.FindByName | src/Field/FieldService.mjs:76-78 | the field found carries the name; none found means no field has it |
| FieldPositions.FindUnique | src/Field/FieldService.mjs:76-78 | with unique names, a name finds its own field |
| FieldPositions.Highest | src/Field/FieldService.mjs:642-646 | the largest position, none exactly for no fields |
| FieldPositions.NextPosition | src/Field/FieldService.mjs:642-646 | a step above every stored position, and `start + step` with no fields |
| FieldPositions.NextTarget | src/Field/FieldService.mjs:642-646 | with dense fields, the next position is the next rank's target |
| FieldPositions.AppendDense | src/Field/FieldService.mjs:620-633 | a field stored at the next position of dense fields sorts last and keeps them dense |
| FieldPositions.Picked | src/Field/FieldService.mjs:543-544 | the field each listed name finds, in list order |
| FieldPositions.PickedAll | src/Field/FieldService.mjs:541-559 | the loop over the picked fields assigns the positions by name |
| FieldPositions.PickedNext | src/Field/FieldService.mjs:541-559 | one loop step moves the field the next name finds to the next target unless it was read there |
| FieldPositions.AssignedAbsent | src/Field/FieldService.mjs:541-559 | a field the list does not name keeps its position |
| FieldPositions.AssignedOnce | src/Field/FieldService.mjs:541-559 | a field named once, at index k, ends at the k-th target |
| FieldPositions.ArrangedOrder | src/Field/FieldService.mjs:528-562 | with distinct names, the field named at index k ends at the k-th target; unnamed fields are untouched |
| FieldPositions.ArrangedIdempotent | src/Field/FieldService.mjs:528-562 | sending back the fields' own order when dense changes nothing and issues no update |
| FieldPositions.RepeatedNameSharesPosition | src/Field/FieldService.mjs:528-562 | a repeated name passes the guards and can leave two fields at one position |
| FieldPositions.MoveUpSwaps | src/Field/FieldService.mjs:497-522 | with `0 < move < step`, moving a non-first field up swaps it with its predecessor and leaves the fields dense |
| FieldPositions.MoveDownSwaps | src/Field/FieldService.mjs:466-491 | with `0 < move < step`, moving a non-last field down swaps it with its successor and leaves the fields dense |
| FieldPositions.MoveFirstUpKeepsOrder | src/Field/FieldService.mjs:497-522 | moving the first field up leaves the dense fields as they are |
| FieldPositions.MoveLastDownKeepsOrder | src/Field/FieldService.mjs:466-491 | moving the last field down leaves the dense fields as they are |
| FieldStore.InputField | src/Field/FieldService.mjs:620-633 | the definition carries the input's base keys, and every other key as an attribute |
| FieldStore.Upsert | src/Field/FieldService.mjs:620-635 | `replaceOne` with upsert: the document is present afterwards, replacing the one with its id or appended; other documents stay |
| FieldStore.FoundAtId | src/Field/FieldService.mjs:605-622 | the field found by name sits at the index its id leads to |
| FieldStore.StoreExisting | src/Field/FieldService.mjs:569-637 | storing under an existing name replaces that field in place with its id and position; others stay |
| FieldStore.StoreNew | src/Field/FieldService.mjs:569-637 | storing under a new name appends the field with the fresh id one step above all positions; dense fields stay dense |
| FieldStore.StoreUnique | src/Field/FieldService.mjs:569-637 | storing keeps ids and names unique |
| FieldStore.ReplaceUnique | src/Field/FieldService.mjs:598-637 | replacing the field stored under the name keeps ids and names unique |
| FieldStore.AppendUnique | src/Field/FieldService.mjs:598-637 | appending under an unused id and name keeps ids and names unique |
| FieldStore.StoreFinds | src/Field/FieldService.mjs:569-637 | after storing, the stored name finds the stored document |
| FieldStore.WithoutName | src/Field/FieldService.mjs:57-59 | `deleteMany({name})` keeps exactly the fields with another name |
| FieldStore.WithoutNameUnique | src/Field/FieldService.mjs:57-59 | deleting keeps ids and names unique |
| FieldStore.DeleteFieldEffect | src/Field/FieldService.mjs:52-64 | after `deleteField` no field has the name and the fields are dense |
| FieldStore.DeleteKeepsOthers | src/Field/FieldService.mjs:52-64 | after `deleteField` every field of another name remains with its id and definition |
| FieldStore.KeysKept | src/Field/FieldService.mjs:193-216 | the list `getFields` builds is in position order and holds every id once |
| FieldStore.RenumberAll | src/Field/FieldService.mjs:651-671 | the loop of `#repositionFields`: its collection and the ids it updates |
| FieldStore.AssignByNames | src/Field/FieldService.mjs:541-559 | the loop of `setFieldPositions`: its collection and the ids it updates |
| FieldStore.FieldService.constructor | src/Field/FieldService.mjs:43-46 | the service starts over the stored fields, with unique ids and names, and no update issued |
| FieldStore.FieldService.Shown | src/Field/FieldService.mjs:71-96 | a field as returned: same id, position and base keys; attributes from the read mapping, or none |
| FieldStore.FieldService.Lookup | src/Field/FieldService.mjs:71-80 | nothing for an invalid name; otherwise found exactly when a field has the name |
| FieldStore.FieldService.GetField | src/Field/FieldService.mjs:71-96 | null exactly when the lookup fails; otherwise that field with mapped or dropped attributes |
| FieldStore.FieldService.GetFields | src/Field/FieldService.mjs:193-216 | every field once, in ascending position, as `Shown` returns it |
| FieldStore.FieldService.Reposition | src/Field/FieldService.mjs:651-671 | the collection becomes its renumbering; the updates are those of the misplaced fields |
| FieldStore.FieldService.DeleteField | src/Field/FieldService.mjs:52-64 | succeeds exactly for a valid name; then the fields of that name are deleted and the rest renumbered |
| FieldStore.FieldService.MoveFieldUp | src/Field/FieldService.mjs:497-522 | succeeds exactly for a stored valid name; the field goes a step and a move down, then all are renumbered |
| FieldStore.FieldService.MoveFieldDown | src/Field/FieldService.mjs:466-491 | succeeds exactly for a stored valid name; the field goes a step and a move up, then all are renumbered |
| FieldStore.FieldService.SetFieldPositions | src/Field/FieldService.mjs:528-562 | succeeds exactly when the guards pass; then the fields are arranged by the list |
| FieldStore.FieldService.StoredField | src/Field/FieldService.mjs:620-633 | the written definition is the input with only the attributes its type keeps |
| FieldStore.FieldService.WriteField | src/Field/FieldService.mjs:620-635 | the upsert stores the definition under the previous id or the fresh one; the name then finds it |
| FieldStore.FieldService.KeptStable | src/Field/FieldService.mjs:620-633 | the attributes a stored definition keeps read back as themselves |
| FieldStore.FieldService.StoreField | src/Field/FieldService.mjs:569-637 | true exactly when every guard passes; nothing written otherwise; a stored field reads back by name as written |
| FieldStore.StoredRow | src/Field/FieldService.mjs:620-635 | the document written: the previous field's id and position, or the fresh id and the next position |
| FieldStore.Stored | src/Field/FieldService.mjs:620-635 | the collection after the upsert of that document |
| FieldStore.NamedOrNull | src/Field/FieldService.mjs:339 | null when no entry has the name; otherwise the value of the first entry that has it, null for undefined |
| FieldStore.FieldService.TextOf | src/Field/FieldService.mjs:334-341 | throws exactly when the type service has no formatter; otherwise a row carries the field's name and label, and the text of the value of the first entry with the field's name |
| FieldStore.FieldService.GetValueAsText | src/Field/FieldService.mjs:330-345 | throws exactly when there is a field and the type service has no formatter; otherwise one row per field, in position order, with the field's name and label and the text of the value its name finds |
| ValueStore.FilterOneId | src/Value/ValueService.mjs:37-59 | `deleteMany` keeps names and record ids paired |
| ValueStore.ByFieldIdTotal | src/Value/ValueService.mjs:86-90 | the field-id order is a total preorder |
| ValueStore.ByNameFieldIdTotal | src/Value/ValueService.mjs:111-114 | the name then field-id order is a total preorder |
| ValueStore.SortByFieldId | src/Value/ValueService.mjs:86-90 | sorted by field id, a permutation of the documents |
| ValueStore.SortByNameFieldId | src/Value/ValueService.mjs:111-114 | sorted by name then field id, a permutation of the documents |
| ValueStore.FindEntry | src/FluxFieldValueStorage.mjs:198 | the first entry with the field id; none found means no entry has it |
| ValueStore.PreviousRowId | src/Value/ValueService.mjs:175 | a document id exactly when the previous record has an entry for the field id, and it is the first such entry's |
| ValueStore.Written | src/Value/ValueService.mjs:170-179 | one document per submitted entry, under the record id and name, with the previous or a fresh document id and `value ?? null` |
| ValueStore.RewriteRecord | src/Value/ValueService.mjs:161-179 | after a write the record's documents are exactly the written ones and other records are untouched |
| ValueStore.StoreKeepsOneId | src/Value/ValueService.mjs:161-179 | writing a record under its own or an unused record id keeps names and record ids paired |
| ValueStore.IndexOfRecord | src/Value/ValueService.mjs:115 | the group with the record id, or the number of groups |
| ValueStore.GatherShape | src/Value/ValueService.mjs:114-128 | a reduce step changes only the document's group, creating it when needed |
| ValueStore.GatherGroups | src/Value/ValueService.mjs:114-128 | one more document keeps the grouping a partition |
| ValueStore.GroupingGroups | src/Value/ValueService.mjs:110-129 | the reduce partitions the documents by record id, each group's entries in order |
| ValueStore.GroupRows | src/Value/ValueService.mjs:114-128 | the loop of the reduce gives the grouping |
| ValueStore.GroupsNamedOnce | src/Value/ValueService.mjs:110-129 | a group's name is the name of every document with its record id |
| ValueStore.FoundRecord | src/Value/ValueService.mjs:81-105 | a name's documents sorted by field id: all of them, the first with the name and a record id |
| ValueStore.ValueService.constructor | src/Value/ValueService.mjs:29-31 | the service starts over the stored documents, whose names and record ids are paired |
| ValueStore.ValueService.DeleteValue | src/Value/ValueService.mjs:37-45 | for a valid name, the record's documents are deleted; otherwise nothing changes |
| ValueStore.ValueService.DeleteValueField | src/Value/ValueService.mjs:51-59 | for a non-empty field id, its documents are deleted; otherwise nothing changes |
| ValueStore.ValueService.GetValue | src/Value/ValueService.mjs:81-105 | null for an invalid or absent name; otherwise the record, with all its entries in field-id order |
| ValueStore.ValueService.GetValues | src/Value/ValueService.mjs:110-129 | the documents in name and field-id order, partitioned by record id, each group named after its documents |
| ValueStore.ValueService.StoreValue | src/Value/ValueService.mjs:149-181 | true exactly when the guards pass; then the record's documents are replaced by the written ones under the kept or fresh record id |
| ValueStore.ValueService.WriteRecord | src/Value/ValueService.mjs:161-179 | `deleteValue` then `insertMany` under the previous record id or the fresh one |
| ValueStore.Gather | src/Value/ValueService.mjs:114-128 | one reduce step: the document's entry is pushed onto its record's group, created when missing |
| ValueStore.Grouping | src/Value/ValueService.mjs:110-129 | the reduce over the documents in order |
| Storage.StoredOrNull | src/FluxFieldValueStorage.mjs:198 | null when no entry has the field id; otherwise the value of the first entry with it, null for undefined |
| Storage.ReadCell | src/FluxFieldValueStorage.mjs:194-200 | the field's name, with its stored value through the read mapping |
| Storage.ProjectionOf | src/FluxFieldValueStorage.mjs:180-207 | the record's name and one entry per live field, in order, named after the field |
| Storage.Project | src/FluxFieldValueStorage.mjs:191-201 | the inner loop builds the projection |
| Storage.ProjectAll | src/FluxFieldValueStorage.mjs:255-282 | every record projected, in order |
| Storage.Definitions | src/FluxFieldValueStorage.mjs:146-153 | each live field without its id and position |
| Storage.EntryMap | src/FluxFieldValueStorage.mjs:418-423 | a key exactly per entry field id, holding an entry's value |
| Storage.LastNaming | src/FluxFieldValueStorage.mjs:427-434 | the last entry naming the field, or none when no entry does |
| Storage.Decision | src/FluxFieldValueStorage.mjs:427-456 | never a fault; a submission carries the submitted name |
| Storage.Plan | src/FluxFieldValueStorage.mjs:402-456 | failed guards are refused; a fault exactly when keeping with no stored record; a submission keeps the name |
| Storage.PlanDecides | src/FluxFieldValueStorage.mjs:402-456 | past the guards and the fault, the outcome is the decision over name, seed and entries |
| Storage.CollectedNames | src/FluxFieldValueStorage.mjs:427-434 | the first loop succeeds exactly when every entry names a live field |
| Storage.CollectedResolves | src/FluxFieldValueStorage.mjs:427-440 | the loop's map resolves every live field to its last naming entry, else the seed, else null |
| Storage.CollectedFrom | src/FluxFieldValueStorage.mjs:427-434 | one step of the first loop |
| Storage.CollectValues | src/FluxFieldValueStorage.mjs:427-434 | the first loop computes the collected map |
| Storage.StoreCell | src/FluxFieldValueStorage.mjs:439-455 | a cell exactly when the resolved value validates, holding the id and the stored value |
| Storage.StoreCells | src/FluxFieldValueStorage.mjs:437-456 | cells exactly when every live field validates, one per field, in order |
| Storage.SubmissionIs | src/FluxFieldValueStorage.mjs:458-463 | the record built from the cells is the submission |
| Storage.Decide | src/FluxFieldValueStorage.mjs:427-456 | the two loops compute the decision |
| Storage.ResolvedAll | src/FluxFieldValueStorage.mjs:427-440 | every live field resolves as `Resolution` says |
| Storage.DecisionSubmits | src/FluxFieldValueStorage.mjs:427-456 | submitted exactly when every entry names a live field and every live field's resolution validates |
| Storage.DecisionValid | src/FluxFieldValueStorage.mjs:437-456 | with all entries named, submitted exactly when every resolution validates |
| Storage.DecisionCells | src/FluxFieldValueStorage.mjs:437-463 | a submission holds one cell per live field, in order, with the store mapping of its resolution |
| Storage.PlanSubmits | src/FluxFieldValueStorage.mjs:402-464 | handed over exactly when the guards pass, no fault, every entry names a live field and every resolution validates |
| Storage.PlanCells | src/FluxFieldValueStorage.mjs:402-464 | the handed-over record holds one cell per live field, in position order |
| Storage.Submitted | src/FluxFieldValueStorage.mjs:437-456 | one cell per live field with its id and the stored form of its resolution |
| Storage.UnnamedResolution | src/FluxFieldValueStorage.mjs:418-440 | an unnamed field resolves to null without keeping, and to its stored value (or null) when keeping |
| Storage.NamedResolution | src/FluxFieldValueStorage.mjs:427-440 | a named field resolves to its last naming entry's value, whatever the seed |
| Storage.StoreDefined | src/FluxFieldValueStorage.mjs:449-455 | no store mapping produces `undefined` |
| Storage.WrittenCells | src/FluxFieldValueStorage.mjs:458-463 | the documents written for a submission: one per live field, in order, with its id and stored value |
| Storage.FindsOnlyEntry | src/FluxFieldValueStorage.mjs:198 | the search finds the only entry with the field id |
| Storage.EntryFor | src/FluxFieldValueStorage.mjs:198 | in a record written for the live fields, each field's entry is its own document's |
| Storage.ReadsBack | src/FluxFieldValueStorage.mjs:180-207 | a stored record reads back every live field as the value it resolved to |
| Storage.FluxFieldValueStorage.constructor | src/FluxFieldValueStorage.mjs:75-77 | the facade holds the two services it delegates to, with or without a formatter in the type service |
| Storage.FluxFieldValueStorage.Live | src/FluxFieldValueStorage.mjs:146-153 | the live fields in position order, attributes mapped |
| Storage.FluxFieldValueStorage.LiveUnique | src/FluxFieldValueStorage.mjs:146-153 | the live fields have distinct ids and names |
| Storage.FluxFieldValueStorage.DeleteField | src/FluxFieldValueStorage.mjs:83-100 | the field service deletes the field; the value documents of its id go only when it existed |
| Storage.FluxFieldValueStorage.GetField | src/FluxFieldValueStorage.mjs:116-129 | null exactly when the lookup fails; otherwise the definition with mapped attributes |
| Storage.FluxFieldValueStorage.GetFields | src/FluxFieldValueStorage.mjs:146-153 | every field once, in position order, names preserved as a multiset |
| Storage.FluxFieldValueStorage.LiveNames | src/FluxFieldValueStorage.mjs:146-153 | the listed names are the stored names, each once per field |
| Storage.FluxFieldValueStorage.LiveIs | src/FluxFieldValueStorage.mjs:146-153 | the list `getFields` returns is the live list |
| Storage.FluxFieldValueStorage.GetValue | src/FluxFieldValueStorage.mjs:180-207 | null exactly when the value service has no record; otherwise that record projected onto the live fields |
| Storage.FluxFieldValueStorage.GetValues | src/FluxFieldValueStorage.mjs:255-282 | every record the value service lists, in order, projected |
| Storage.FluxFieldValueStorage.StoreValue | src/FluxFieldValueStorage.mjs:402-464 | refused gives false and no change; a fault throws with no change; a submission is handed to the value service |
| Storage.FluxFieldValueStorage.Prepare | src/FluxFieldValueStorage.mjs:402-456 | the guards, the stored record and the loops compute the plan |
| Storage.FluxFieldValueStorage.DecideLive | src/FluxFieldValueStorage.mjs:425-456 | the two loops over the fields `getFields` lists |
| Storage.FluxFieldValueStorage.Hand | src/FluxFieldValueStorage.mjs:458-463 | false for a refusal; otherwise the value service's answer and write |
| Storage.EntryMapLast | src/FluxFieldValueStorage.mjs:418-423 | every field id maps to the value of the last entry carrying it |
| Storage.Collected | src/FluxFieldValueStorage.mjs:427-434 | the first loop: each submitted value under the id of the live field its entry names; nothing when one names no live field |
| Storage.Resolution | src/FluxFieldValueStorage.mjs:427-440 | the last naming entry's value, else the seed's value for the id, else null |
| Storage.Submission | src/FluxFieldValueStorage.mjs:458-463 | the name and one stored cell per live field, in order |
| Storage.NamedProjection | src/Field/FieldService.mjs:339 | with distinct field names, a live field's name finds its own entry of a projected record |
| Storage.TextRow | src/Field/FieldService.mjs:334-341 | the text shown for a live field is the text of its stored value through the read mapping |
| Storage.FluxFieldValueStorage.StoreFieldAsWritten | src/FluxFieldValueStorage.mjs:391-395 | the facade's call as written: its caller's first argument reaches the service's name guard and no definition reaches the object guard |
| Storage.FluxFieldValueStorage.StoreFieldAsWrittenRefuses | src/FluxFieldValueStorage.mjs:391-395 | the facade's `storeField(field)` refuses every call, whatever its caller passes |
| Storage.FluxFieldValueStorage.StoreField | src/Field/FieldService.mjs:569-637 | forwarding name and definition: true exactly when the service's guards pass; nothing written otherwise; a stored field reads back as written |
| Storage.FluxFieldValueStorage.GetValueAsText | src/FluxFieldValueStorage.mjs:213-225 | null exactly when there is no record; throws exactly when there is a record and a field and the type service has no formatter; otherwise one row per live field with its name, label and the text of its stored value through the read mapping |
| Storage.CreatedTypeServiceThrows | src/FluxFieldValueStorage.mjs:485-492 | with no formatter, as the facade creates its type service, every text throws |

## Findings

| source | as written | input that shows it | evidently intended | confidence | as-written member | corrected member |
|---|---|---|---|---|---|---|
| src/FluxFieldValueStorage.mjs:391-395 | the facade's `storeField(field)` takes one parameter and forwards it alone to the field service's `storeField(name, field)`; its caller (src/Request/HandleFieldRequest.mjs:487-490) passes the name first and the definition second, so the name arrives as `name`, the definition is dropped, and the service's object guard (src/Field/FieldService.mjs:574-576) refuses the missing definition | a PUT of a field with a name matching the field-name pattern, e.g. `a`, and any body, e.g. `{type: "email", name: "a", label: "A", subtitle: "", required: false, placeholder: ""}` | the facade takes the current name and the definition and forwards both | high, not executed | Storage.FluxFieldValueStorage.StoreFieldAsWrittenRefuses | Storage.FluxFieldValueStorage.StoreField |
| src/FluxFieldValueStorage.mjs:489 | the facade creates its type service with `FieldTypeService.new()` and no formatter, so `this.#flux_value_format.formatValue` (src/FieldType/FieldTypeService.mjs:199) throws a TypeError; the facade's `getValueAsText(name)` throws for every stored record once a field exists | a stored field `a` and a stored value record `v`, then `getValueAsText("v")` | the facade gives its type service a value formatter, and `getValueAsText` returns one text row per field | high, not executed | Storage.CreatedTypeServiceThrows | Storage.FluxFieldValueStorage.GetValueAsText |

## Left out

- Asynchrony and concurrency. Each call runs to completion with no
  interleaving, and database calls are atomic.
- The MongoDB driver. Collections are sequences of documents in natural
  order, and `sort` is an insertion sort of that order. Its contract is
  sortedness and a permutation; the order among ties is not stated, and a
  server may break ties differently.
- Errors raised by the database (an `insertMany` with a duplicate `_id`, a
  lost connection) are not modelled.
- `crypto.randomUUID()` results are parameters that the caller chooses
  unused. Randomness itself is not modelled.
- The date and time patterns, `URL.canParse`, `RegExp`, `toLowerCase`,
  and number-to-text are parameters in `Host.Env`, and the value formatter
  is a parameter of the type service. Their behaviour is not modelled.
- `FIELD_NAME_PATTERN` and the `FIELD_POSITION_*` constants are parameters
  in `Host.Config`. The constants file is not part of this model.
- The user-interface helpers are not modelled: `getFieldInputs`,
  `getValueInputs`, `getFieldTable`, `getValueTable`, `getFormatType` and
  `getFormatValueType`, and the type methods that build inputs and filter
  inputs. They build form descriptions, not stored state.
- The facade's pass-through methods `deleteValue`, `moveFieldDown`,
  `moveFieldUp` and `setFieldPositions` are not modelled separately. Each
  only forwards its arguments to a service method that is modelled.
- SelectFieldType.Options reads a definition whose `options` is not an
  array as having no options, and a `null` option inside the array as an
  option without a value or label. The source calls `find`, `map` and
  `some` on such options and throws, reading `option.value` of `null`. This affects only definitions that `validateField`
  refused, since `storeField` validates before it writes; the throw on such
  a definition is not captured.
- RegularExpressionFieldType.ValidateValue asks `Host.Env.regexTest` for the
  field's pattern text even when the pattern does not compile, or is not a
  string. The source's `new RegExp(...)` throws on a pattern that does not
  compile, and compiles `undefined` as the empty pattern. As with the
  options above, only definitions that `validateField` refused are
  affected; the throw is not captured.
- The date-time, multiline-text, multiple-select and text field types are
  in the default list, but their sources are not part of this model. The
  registry holds the other default types in their order.
- The number type is not in the default list. It is modelled and can be
  added with `AddFieldType`.
- Arguments of the wrong JavaScript type for a name or an id (numbers,
  objects) are excluded by the Dafny types `string` and `seq`. Object
  inputs are modelled by `Json.Value` with every case.
- The `getValues` result is ordered by its groups' first documents. Key
  order of `Object.values` (integer-like keys first) is not modelled.
- Keys inherited from `Object.prototype` are not modelled. An input key such
  as `__proto__` is treated as an ordinary key.
- Relational comparisons between a string and a non-string are modelled
  as unordered: both `<` and `>` are false, so such a bound never refuses
  the value. JavaScript converts the string to a number first, so a
  numeric string against a number bound is ordered there; that case is not
  captured.
- The facade creates its services lazily, on first use. The model passes
  them to its constructor instead, so a facade may hold a type service
  with or without a formatter. The one the source creates has none (see
  "## Findings"); `Storage.FluxFieldValueStorage.GetValueAsText` states
  both outcomes.
- The service methods compute their loops over local values and assign the
  collection once afterwards. The written documents and the order of
  writes are recorded, but not the intermediate states another reader
  could observe.
