/**
 * The `color` field type. A value is "" or a valid lowercase simple color
 * (section 2.3.6 of the WHATWG HTML Living Standard): a '#' followed by
 * six lowercase hexadecimal digits.
 */
module ColorFieldType {
  import opened Json
  import opened Host
  import opened Fields

  const TypeLabel := "Color"

  predicate IsLowerHexDigit(c: char) {
    '0' <= c <= '9' || 'a' <= c <= 'f'
  }

  /** `/^#[\da-f]{6}$/.test(s)` */
  predicate IsLowercaseSimpleColor(s: string) {
    |s| == 7 && s[0] == '#' && forall i :: 1 <= i < 7 ==> IsLowerHexDigit(s[i])
  }

  /** A colour as its three 8-bit components. */
  datatype Rgb = Rgb(red: nat, green: nat, blue: nat)

  predicate IsRgb(c: Rgb) {
    c.red < 256 && c.green < 256 && c.blue < 256
  }

  function HexDigit(n: nat): (c: char)
    requires n < 16
    ensures IsLowerHexDigit(c)
  {
    if n < 10 then ('0' as int + n) as char else ('a' as int + n - 10) as char
  }

  function HexValue(c: char): (n: nat)
    requires IsLowerHexDigit(c)
    ensures n < 16 && HexDigit(n) == c
  {
    if c <= '9' then c as int - '0' as int else c as int - 'a' as int + 10
  }

  lemma HexValueOfDigit(n: nat)
    requires n < 16
    ensures HexValue(HexDigit(n)) == n
  {
  }

  /** The serialization of a simple color: '#' and two lowercase hex digits per component. */
  function Serialize(c: Rgb): (s: string)
    requires IsRgb(c)
    ensures IsLowercaseSimpleColor(s)
  {
    ['#', HexDigit(c.red / 16), HexDigit(c.red % 16),
          HexDigit(c.green / 16), HexDigit(c.green % 16),
          HexDigit(c.blue / 16), HexDigit(c.blue % 16)]
  }

  /** Reads the components back out of a lowercase simple color; anything else has none. */
  function Parse(s: string): (r: Option<Rgb>)
    ensures r.Some? <==> IsLowercaseSimpleColor(s)
    ensures r.Some? ==> IsRgb(r.value)
  {
    if IsLowercaseSimpleColor(s) then
      Some(Rgb(HexValue(s[1]) * 16 + HexValue(s[2]),
               HexValue(s[3]) * 16 + HexValue(s[4]),
               HexValue(s[5]) * 16 + HexValue(s[6])))
    else None
  }

  /** Every colour serializes to a valid value and parses back to itself. */
  lemma ParseSerialize(c: Rgb)
    requires IsRgb(c)
    ensures Parse(Serialize(c)) == Some(c)
  {
    var s := Serialize(c);
    HexValueOfDigit(c.red / 16);
    HexValueOfDigit(c.red % 16);
    HexValueOfDigit(c.green / 16);
    HexValueOfDigit(c.green % 16);
    HexValueOfDigit(c.blue / 16);
    HexValueOfDigit(c.blue % 16);
  }

  lemma ByteDigits(hi: nat, lo: nat)
    requires hi < 16 && lo < 16
    ensures (hi * 16 + lo) / 16 == hi && (hi * 16 + lo) % 16 == lo
  {
  }

  /** Every valid value is the serialization of the colour it parses to. */
  lemma SerializeParse(s: string)
    requires IsLowercaseSimpleColor(s)
    ensures Serialize(Parse(s).value) == s
  {
    ByteDigits(HexValue(s[1]), HexValue(s[2]));
    ByteDigits(HexValue(s[3]), HexValue(s[4]));
    ByteDigits(HexValue(s[5]), HexValue(s[6]));
    var t := Serialize(Parse(s).value);
    assert forall i | 0 <= i < 7 :: t[i] == s[i];
  }

  /** An upper-case hex digit is not a lowercase simple color. */
  lemma UpperCaseRejected(s: string)
    requires |s| == 7 && s[0] == '#' && exists i :: 1 <= i < 7 && 'A' <= s[i] <= 'F'
    ensures !IsLowercaseSimpleColor(s)
  {
  }

  function MapGetValue(f: Field, v: Arg): (r: Value)
    ensures v.Null? ==> r == Str("")
    ensures v.Str? ==> r == v
  {
    OrEmptyString(v)
  }

  function MapStoreValue(f: Field, v: Arg): (r: Value)
    ensures v.Null? ==> r == Str("")
    ensures v.Str? ==> r == v
  {
    OrEmptyString(v)
  }

  /** The type has no attributes (its `mapGetField`/`mapStoreField` give none), so any definition is valid. */
  predicate ValidateField(f: Field) {
    true
  }

  /** A string that is "" or a lowercase simple color; a required field rejects "". */
  predicate ValidateValue(f: Field, v: Arg) {
    v.Str? && (v.s != "" ==> IsLowercaseSimpleColor(v.s)) && !(f.required && v.s == "")
  }

  function GetValueAsText(f: Field, v: Arg): Value {
    v
  }

  function GetValueAsFormat(f: Field, v: Arg): Value {
    v
  }

  /** Valid values: every serialized colour, "" exactly when optional, and no non-string (null included). */
  lemma ValidValues(f: Field, v: Arg, c: Rgb)
    requires IsRgb(c)
    ensures !v.Str? ==> !ValidateValue(f, v)
    ensures ValidateValue(f, Str(Serialize(c)))
    ensures ValidateValue(f, Str("")) <==> !f.required
  {
  }

  /** The mappings are lossless on valid values; null becomes "", which is valid exactly when optional. */
  lemma MappingRoundTrip(f: Field, v: Arg)
    ensures ValidateValue(f, v) ==> MapGetValue(f, MapStoreValue(f, v)) == v
    ensures ValidateValue(f, MapStoreValue(f, Null)) <==> !f.required
  {
  }
}
