/**
 * The JavaScript values that field definitions, stored values and filter
 * values are made of: JSON plus `undefined` and the non-finite numbers,
 * together with the few language operations the services rely on
 * (`??`, property access, strict equality, relational comparison,
 * conversion to text, substring search and `split`/`join` on one character).
 */
module Json {

  datatype Value =
    | Undefined
    | Null
    | Bool(b: bool)
    | Num(n: real)                // a finite number
    | Infinity(negative: bool)
    | NaN
    | Str(s: string)
    | Arr(items: seq<Value>)
    | Obj(props: map<string, Value>)

  /** An argument that JavaScript's `x = null` default has filled in: never `undefined`. */
  type Arg = v: Value | !v.Undefined? witness Null

  function OrNull(v: Value): Arg {
    if v.Undefined? then Null else v
  }

  predicate Nullish(v: Value) {
    v.Undefined? || v.Null?
  }

  /** `v ?? fallback` */
  function Coalesce(v: Value, fallback: Value): Value {
    if Nullish(v) then fallback else v
  }

  /** `v[key]` and `v?.[key]`: a missing property (or a non-object) reads as `undefined`. */
  function Prop(v: Value, key: string): Value {
    if v.Obj? && key in v.props then v.props[key] else Undefined
  }

  /** `typeof v === "object" && v !== null` (arrays are objects too). */
  predicate IsObject(v: Value) {
    v.Obj? || v.Arr?
  }

  /** `Number.isFinite(v)` */
  predicate IsFinite(v: Value) {
    v.Num?
  }

  /** `Number.isInteger(v)` */
  predicate IsInteger(v: Value) {
    v.Num? && v.n.Floor as real == v.n
  }

  /** A non-empty string, the shape most guards ask for. */
  predicate IsNonEmptyString(v: Value) {
    v.Str? && v.s != ""
  }

  predicate Truthy(v: Value) {
    match v
    case Undefined => false
    case Null => false
    case Bool(b) => b
    case Num(n) => n != 0.0
    case Infinity(_) => true
    case NaN => false
    case Str(s) => s != ""
    case Arr(_) => true
    case Obj(_) => true
  }

  /**
   * `a === b`. Two arrays or objects are distinct references here, so they
   * are never strictly equal; `NaN` is not equal to itself.
   */
  predicate StrictEquals(a: Value, b: Value) {
    match (a, b)
    case (Undefined, Undefined) => true
    case (Null, Null) => true
    case (Bool(x), Bool(y)) => x == y
    case (Num(x), Num(y)) => x == y
    case (Infinity(x), Infinity(y)) => x == y
    case (Str(x), Str(y)) => x == y
    case _ => false
  }

  /** The equality `Array.prototype.includes` and `Set` use: `===`, except that `NaN` equals `NaN`. */
  predicate SameValueZero(a: Value, b: Value) {
    StrictEquals(a, b) || (a.NaN? && b.NaN?)
  }

  /** The outcome of a JavaScript relational comparison. */
  datatype Order = Below | Same | Above | Unordered

  /** Lexicographic comparison of strings, character by character. */
  function CompareStrings(a: string, b: string): Order {
    if a == [] && b == [] then Same
    else if a == [] then Below
    else if b == [] then Above
    else if a[0] < b[0] then Below
    else if a[0] > b[0] then Above
    else CompareStrings(a[1..], b[1..])
  }

  datatype Numeric = Finite(r: real) | PlusInfinity | MinusInfinity | NotANumber

  /**
   * The numeric conversion a relational operator applies when not both
   * operands are strings. Strings, arrays and objects convert to NaN here.
   */
  function ToNumeric(v: Value): Numeric {
    match v
    case Undefined => NotANumber
    case Null => Finite(0.0)
    case Bool(b) => Finite(if b then 1.0 else 0.0)
    case Num(n) => Finite(n)
    case Infinity(negative) => if negative then MinusInfinity else PlusInfinity
    case NaN => NotANumber
    case Str(_) => NotANumber
    case Arr(_) => NotANumber
    case Obj(_) => NotANumber
  }

  function CompareNumeric(a: Numeric, b: Numeric): Order {
    match (a, b)
    case (NotANumber, _) => Unordered
    case (_, NotANumber) => Unordered
    case (Finite(x), Finite(y)) => if x < y then Below else if x > y then Above else Same
    case (MinusInfinity, MinusInfinity) => Same
    case (PlusInfinity, PlusInfinity) => Same
    case (MinusInfinity, _) => Below
    case (_, PlusInfinity) => Below
    case (PlusInfinity, _) => Above
    case (_, MinusInfinity) => Above
  }

  function Compare(a: Value, b: Value): Order {
    if a.Str? && b.Str? then CompareStrings(a.s, b.s) else CompareNumeric(ToNumeric(a), ToNumeric(b))
  }

  /** `a < b` */
  predicate Less(a: Value, b: Value) {
    Compare(a, b) == Below
  }

  /** `a > b` */
  predicate Greater(a: Value, b: Value) {
    Compare(a, b) == Above
  }

  /** `a >= b` */
  predicate AtLeast(a: Value, b: Value) {
    Compare(a, b) == Above || Compare(a, b) == Same
  }

  /** `a <= b` */
  predicate AtMost(a: Value, b: Value) {
    Compare(a, b) == Below || Compare(a, b) == Same
  }

  /** String comparison is a total order: exactly one of below, same, above. */
  lemma {:induction false} CompareStringsTotal(a: string, b: string)
    ensures CompareStrings(a, b) != Unordered
    ensures CompareStrings(a, b) == Same <==> a == b
    ensures CompareStrings(a, b) == Below <==> CompareStrings(b, a) == Above
  {
    if a != [] && b != [] && a[0] == b[0] {
      CompareStringsTotal(a[1..], b[1..]);
      if a[1..] == b[1..] {
        assert a == [a[0]] + a[1..] && b == [b[0]] + b[1..];
      }
    }
  }

  /** String comparison is transitive: "no later than" chains. */
  lemma {:induction false} CompareStringsTransitive(a: string, b: string, c: string)
    requires CompareStrings(a, b) != Above && CompareStrings(b, c) != Above
    ensures CompareStrings(a, c) != Above
  {
    if a != [] && b != [] && c != [] && a[0] == b[0] && b[0] == c[0] {
      CompareStringsTransitive(a[1..], b[1..], c[1..]);
    }
  }

  /**
   * The text JavaScript's `String(v)` and template literals produce. The
   * shortest-round-trip decimal text of a finite number is a foreign
   * operation, given as `numberText`.
   */
  function Text(numberText: real -> string, v: Value): string
    decreases v
  {
    match v
    case Undefined => "undefined"
    case Null => "null"
    case Bool(b) => if b then "true" else "false"
    case Num(n) => numberText(n)
    case Infinity(negative) => if negative then "-Infinity" else "Infinity"
    case NaN => "NaN"
    case Str(s) => s
    case Arr(items) =>
      Join(seq(|items|, k requires 0 <= k < |items| =>
                 if Nullish(items[k]) then "" else Text(numberText, items[k])), ",")
    case Obj(_) => "[object Object]"
  }

  predicate StartsWith(s: string, prefix: string) {
    |prefix| <= |s| && s[..|prefix|] == prefix
  }

  /** `hay.includes(needle)` */
  predicate Includes(hay: string, needle: string)
    decreases |hay|
  {
    StartsWith(hay, needle) || (hay != [] && Includes(hay[1..], needle))
  }

  /** `s.split(sep)` for a one-character separator: always at least one part. */
  function Split(s: string, sep: char): (parts: seq<string>)
    ensures |parts| >= 1
    ensures forall k :: 0 <= k < |parts| ==> sep !in parts[k]
    decreases |s|
  {
    if s == [] then [""]
    else
      var rest := Split(s[1..], sep);
      if s[0] == sep then [""] + rest else [[s[0]] + rest[0]] + rest[1..]
  }

  /** `parts.join(sep)`: the empty list joins to "". */
  function Join(parts: seq<string>, sep: string): string
    decreases |parts|
  {
    if parts == [] then ""
    else if |parts| == 1 then parts[0]
    else parts[0] + sep + Join(parts[1..], sep)
  }

  /** Text found in a suffix is found in the whole. */
  lemma {:induction false} IncludesAfter(a: string, b: string, needle: string)
    requires Includes(b, needle)
    ensures Includes(a + b, needle)
    decreases |a|
  {
    if a == [] {
      assert a + b == b;
    } else {
      IncludesAfter(a[1..], b, needle);
      assert (a + b)[1..] == a[1..] + b;
    }
  }

  /** Every part occurs in the joined text. */
  lemma {:induction false} JoinIncludes(parts: seq<string>, sep: string, k: nat)
    requires k < |parts|
    ensures Includes(Join(parts, sep), parts[k])
    decreases |parts|
  {
    var joined := Join(parts, sep);
    if k == 0 {
      if |parts| > 1 {
        assert joined == parts[0] + (sep + Join(parts[1..], sep));
      }
      assert joined[..|parts[0]|] == parts[0];
    } else {
      JoinIncludes(parts[1..], sep, k - 1);
      assert joined == (parts[0] + sep) + Join(parts[1..], sep);
      IncludesAfter(parts[0] + sep, Join(parts[1..], sep), parts[k]);
    }
  }

  /** Joining the parts of a split gives back the string. */
  lemma {:induction false} JoinSplit(s: string, sep: char)
    ensures Join(Split(s, sep), [sep]) == s
    decreases |s|
  {
    if s != [] {
      JoinSplit(s[1..], sep);
      var rest := Split(s[1..], sep);
      if s[0] != sep {
        if |rest| == 1 {
          assert Split(s, sep) == [[s[0]] + rest[0]];
        } else {
          var parts := Split(s, sep);
          assert parts[1..] == rest[1..];
          assert Join(parts, [sep]) == [s[0]] + (rest[0] + [sep] + Join(rest[1..], [sep]));
        }
      }
    }
  }

  /** Splitting a separator-free string gives that string alone. */
  lemma {:induction false} SplitFree(p: string, sep: char)
    requires sep !in p
    ensures Split(p, sep) == [p]
    decreases |p|
  {
    if p != [] {
      SplitFree(p[1..], sep);
      assert [p[0]] + p[1..] == p;
    }
  }

  /** A separator-free part followed by the separator splits off as one part. */
  lemma {:induction false} SplitHead(p: string, sep: char, rest: string)
    requires sep !in p
    ensures Split(p + [sep] + rest, sep) == [p] + Split(rest, sep)
    decreases |p|
  {
    if p == [] {
      assert p + [sep] + rest == [sep] + rest;
      assert ([sep] + rest)[1..] == rest;
    } else {
      var s := p + [sep] + rest;
      assert s[1..] == p[1..] + [sep] + rest;
      SplitHead(p[1..], sep, rest);
      assert [p[0]] + p[1..] == p;
    }
  }

  /** Splitting the join of separator-free parts gives back the parts. */
  lemma {:induction false} SplitJoin(parts: seq<string>, sep: char)
    requires |parts| >= 1
    requires forall k :: 0 <= k < |parts| ==> sep !in parts[k]
    ensures Split(Join(parts, [sep]), sep) == parts
    decreases |parts|
  {
    if |parts| == 1 {
      SplitFree(parts[0], sep);
    } else {
      SplitJoin(parts[1..], sep);
      SplitHead(parts[0], sep, Join(parts[1..], [sep]));
      assert [parts[0]] + parts[1..] == parts;
    }
  }
}
