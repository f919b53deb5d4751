/**
 * The meaning of the validation attributes that the two model classes declare
 * (`Required`, `MaxLength`, `MinLength`, `Range`), as the validator of
 * System.ComponentModel.DataAnnotations applies them when a request body is bound.
 * Every attribute of every property is checked; the result is the set of
 * properties that have at least one failing attribute.
 */
module DataAnnotations {
  import opened Wrappers

  /** The properties that carry validation attributes. */
  datatype Field = Title | Description | Price | CategoryId

  /** `int.MaxValue` of C#, the upper bound used by both `Range` attributes. */
  const IntMaxValue: int := 0x7FFF_FFFF

  /** A validation attribute with its arguments. */
  datatype Rule =
    | Required
    | MaxLength(maxLength: nat)
    | MinLength(minLength: nat)
    | Range(minimum: int, maximum: int)

  /** The value of a property: a nullable string or a number (a value type, never null). */
  datatype Value = Text(text: Option<string>) | Number(number: int)

  /** One attribute applied to the value of one property. */
  datatype Check = Check(field: Field, rule: Rule, value: Value)

  /** The length rules apply to strings, `Range` to numbers, `Required` to both. */
  predicate Applies(rule: Rule, value: Value)
  {
    match rule
    case Required => true
    case MaxLength(_) => value.Text?
    case MinLength(_) => value.Text?
    case Range(_, _) => value.Number?
  }

  /** `char.IsWhiteSpace`: the Unicode space, line and paragraph separators and the controls U+0009..U+000D and U+0085. */
  predicate IsWhiteSpace(c: char)
  {
    || ('\t' <= c <= '\r')
    || c == ' ' || c == '\U{0085}' || c == '\U{00A0}' || c == '\U{1680}'
    || ('\U{2000}' <= c <= '\U{200A}')
    || c == '\U{2028}' || c == '\U{2029}' || c == '\U{202F}' || c == '\U{205F}' || c == '\U{3000}'
  }

  /** `string.IsNullOrWhiteSpace` on a non-null string. */
  predicate IsBlank(s: string)
  {
    forall i :: 0 <= i < |s| ==> IsWhiteSpace(s[i])
  }

  /** A character outside the Basic Multilingual Plane, which a .NET string stores as two UTF-16 code units. */
  predicate IsSupplementary(c: char)
  {
    c >= '\U{10000}'
  }

  /** `string.Length`: the number of UTF-16 code units, which is what the length attributes compare. */
  function Utf16Length(s: string): (n: nat)
    ensures |s| <= n <= 2 * |s|
  {
    if s == [] then 0 else (if IsSupplementary(s[0]) then 2 else 1) + Utf16Length(s[1..])
  }

  /** On text without supplementary characters, `string.Length` is the number of characters. */
  lemma {:induction false} Utf16LengthOfBasicText(s: string)
    requires forall i :: 0 <= i < |s| ==> !IsSupplementary(s[i])
    ensures Utf16Length(s) == |s|
  {
    if s != [] {
      assert forall i :: 0 <= i < |s[1..]| ==> s[1..][i] == s[i + 1];
      Utf16LengthOfBasicText(s[1..]);
    }
  }

  /**
   * Whether one attribute accepts one value. `Required` rejects null and, for
   * strings, empty or whitespace-only text; the other attributes accept null.
   */
  predicate IsValid(rule: Rule, value: Value)
    requires Applies(rule, value)
  {
    match rule
    case Required => !(value.Text? && (value.text.None? || IsBlank(value.text.value)))
    case MaxLength(n) => value.text.None? || Utf16Length(value.text.value) <= n
    case MinLength(n) => value.text.None? || Utf16Length(value.text.value) >= n
    case Range(lo, hi) => lo <= value.number <= hi
  }

  predicate AllApply(checks: seq<Check>)
  {
    forall i :: 0 <= i < |checks| ==> Applies(checks[i].rule, checks[i].value)
  }

  /**
   * The fields reported as invalid: every check is run (no short-circuit on the
   * first failure), and a field is reported when any of its checks fails.
   */
  function Violations(checks: seq<Check>): (fields: set<Field>)
    requires AllApply(checks)
    ensures forall f :: f in fields <==>
      exists i :: 0 <= i < |checks| && checks[i].field == f && !IsValid(checks[i].rule, checks[i].value)
  {
    if checks == [] then {}
    else
      var rest := Violations(checks[1..]);
      assert forall i :: 0 < i < |checks| ==> checks[i] == checks[1..][i - 1];
      if IsValid(checks[0].rule, checks[0].value) then rest else {checks[0].field} + rest
  }

  /** Checks of one field never affect whether another field is reported. */
  lemma {:induction false} ViolationsOfConcatenation(a: seq<Check>, b: seq<Check>)
    requires AllApply(a) && AllApply(b)
    ensures AllApply(a + b)
    ensures Violations(a + b) == Violations(a) + Violations(b)
  {
    var ab := a + b;
    assert forall i :: 0 <= i < |a| ==> ab[i] == a[i];
    assert forall i :: |a| <= i < |ab| ==> ab[i] == b[i - |a|];
    forall f | f in Violations(b)
      ensures f in Violations(ab)
    {
      var i :| 0 <= i < |b| && b[i].field == f && !IsValid(b[i].rule, b[i].value);
      assert ab[|a| + i] == b[i];
    }
  }
}
