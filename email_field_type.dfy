/**
 * The `email` field type. A value is "" or a valid email address in the
 * sense of section 4.10.5.1.5 of the WHATWG HTML Living Standard: a local
 * part of permitted characters, '@', and dot-separated domain labels of one
 * to 63 letters, digits and hyphens that neither start nor end with a hyphen.
 */
module EmailFieldType {
  import opened Json
  import opened Host
  import opened Fields

  const TypeLabel := "Email"

  predicate IsAlphanumeric(c: char) {
    'a' <= c <= 'z' || 'A' <= c <= 'Z' || '0' <= c <= '9'
  }

  /** `[a-zA-Z0-9.!#$%&'*+/=?^_`{|}~-]` */
  predicate IsLocalChar(c: char) {
    IsAlphanumeric(c) || c in ".!#$%&'*+/=?^_`{|}~-"
  }

  /** `[a-zA-Z0-9](?:[a-zA-Z0-9-]{0,61}[a-zA-Z0-9])?` */
  predicate IsLabel(l: string) {
    1 <= |l| <= 63 && IsAlphanumeric(l[0]) && IsAlphanumeric(l[|l| - 1]) &&
    forall i :: 0 < i < |l| - 1 ==> IsAlphanumeric(l[i]) || l[i] == '-'
  }

  predicate IsLocalPart(p: string) {
    p != "" && forall i :: 0 <= i < |p| ==> IsLocalChar(p[i])
  }

  /** Every part of `labels` is a label. */
  predicate AreLabels(labels: seq<string>) {
    forall k :: 0 <= k < |labels| ==> IsLabel(labels[k])
  }

  /**
   * `EMAIL_PATTERN.test(s)`. Neither the local part nor a label can hold '@',
   * and a label cannot hold '.', so the address splits into exactly two parts
   * at '@' and its domain into labels at '.'.
   */
  predicate IsValidEmail(s: string) {
    var parts := Split(s, '@');
    |parts| == 2 && IsLocalPart(parts[0]) && AreLabels(Split(parts[1], '.'))
  }

  lemma JoinAvoids(parts: seq<string>, sep: string, c: char)
    requires c !in sep && forall k :: 0 <= k < |parts| ==> c !in parts[k]
    ensures c !in Join(parts, sep)
    decreases |parts|
  {
    if |parts| > 1 {
      JoinAvoids(parts[1..], sep, c);
    }
  }

  /** A local part, '@' and a non-empty list of labels joined by '.' always form a valid address, and split back apart. */
  lemma {:induction false} Compose(local: string, labels: seq<string>)
    requires IsLocalPart(local) && |labels| >= 1 && AreLabels(labels)
    ensures IsValidEmail(local + "@" + Join(labels, "."))
    ensures Split(local + "@" + Join(labels, "."), '@') == [local, Join(labels, ".")]
  {
    var domain := Join(labels, ".");
    assert forall i :: 0 <= i < |local| ==> local[i] != '@' by {
      forall i | 0 <= i < |local| ensures local[i] != '@' {
        assert IsLocalChar(local[i]);
      }
    }
    forall k | 0 <= k < |labels| ensures '@' !in labels[k] && '.' !in labels[k] {
      var l := labels[k];
      assert IsLabel(l);
      assert forall i :: 0 <= i < |l| ==> l[i] != '@' && l[i] != '.' by {
        forall i | 0 <= i < |l| ensures l[i] != '@' && l[i] != '.' {
          assert i == 0 || i == |l| - 1 || 0 < i < |l| - 1;
        }
      }
    }
    JoinAvoids(labels, ".", '@');
    SplitHead(local, '@', domain);
    SplitFree(domain, '@');
    SplitJoin(labels, '.');
    assert local + "@" + domain == local + ['@'] + domain;
  }

  /** A valid address is its local part, '@' and its labels joined by '.'. */
  lemma Decompose(s: string)
    requires IsValidEmail(s)
    ensures s == Split(s, '@')[0] + "@" + Join(Split(Split(s, '@')[1], '.'), ".")
  {
    JoinSplit(s, '@');
    JoinSplit(Split(s, '@')[1], '.');
  }

  function GetFieldTableAdditionalColumn(f: Field): (r: seq<Column>)
    ensures r == [("Placeholder", Attr(f, "placeholder"))]
  {
    [("Placeholder", Attr(f, "placeholder"))]
  }

  function GetValueAsFormat(f: Field, v: Arg): Value {
    v
  }

  function GetValueAsText(f: Field, v: Arg): Value {
    v
  }

  function MapFilterValue(f: Field, v: Arg): Value {
    v
  }

  /** `mapGetField` and `mapStoreField`: the type keeps its placeholder. */
  function MapField(f: Field): (r: map<string, Value>)
    ensures r.Keys == {"placeholder"} && r["placeholder"] == Attr(f, "placeholder")
  {
    map["placeholder" := Attr(f, "placeholder")]
  }

  function MapGetValue(f: Field, v: Arg): (r: Value)
    ensures v.Null? ==> r == Str("")
    ensures v.Str? ==> r == v
  {
    OrEmptyString(v)
  }

  function MapStoreValue(f: Field, v: Arg): (r: Value)
    ensures v.Null? ==> r == Str("")
    ensures v.Str? ==> r == v
  {
    OrEmptyString(v)
  }

  /**
   * A null filter matches everything; otherwise the value must contain the
   * filter, both lower-cased. A null value matches no non-null filter;
   * lower-casing anything but a string throws.
   */
  function MatchFilterValue(env: Env, f: Field, v: Arg, filter: Arg): (r: Reply<bool>)
    ensures filter.Null? ==> r == Return(true)
    ensures !filter.Null? && v.Null? ==> r == Return(false)
    ensures v.Str? && filter.Str? ==> r == Return(Includes(env.lower(v.s), env.lower(filter.s)))
    ensures r.Throw? <==> !filter.Null? && !v.Null? && !(v.Str? && filter.Str?)
  {
    if filter.Null? then Return(true)
    else if v.Null? then Return(false)
    else if v.Str? && filter.Str? then Return(Includes(env.lower(v.s), env.lower(filter.s)))
    else Throw
  }

  predicate ValidateField(f: Field) {
    Attr(f, "placeholder").Str?
  }

  /** A filter is null or a non-empty string. */
  predicate ValidateFilterValue(f: Field, v: Arg) {
    v.Null? || (v.Str? && v.s != "")
  }

  /** A string that is "" or a valid address; a required field rejects "". */
  predicate ValidateValue(f: Field, v: Arg) {
    v.Str? && (v.s != "" ==> IsValidEmail(v.s)) && !(f.required && v.s == "")
  }

  /** Non-strings never validate; a composed address always does; "" exactly when optional. */
  lemma ValidValues(f: Field, v: Arg, local: string, labels: seq<string>)
    requires IsLocalPart(local) && |labels| >= 1 && AreLabels(labels)
    ensures !v.Str? ==> !ValidateValue(f, v)
    ensures ValidateValue(f, Str(local + "@" + Join(labels, ".")))
    ensures ValidateValue(f, Str("")) <==> !f.required
  {
    Compose(local, labels);
  }

  /** The mappings are lossless on valid values; null becomes "", which is valid exactly when optional. */
  lemma MappingRoundTrip(f: Field, v: Arg)
    ensures ValidateValue(f, v) ==> MapGetValue(f, MapStoreValue(f, v)) == v
    ensures ValidateValue(f, MapStoreValue(f, Null)) <==> !f.required
  {
  }
}
