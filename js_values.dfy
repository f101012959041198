/** The parts of JavaScript's value semantics that the product manager relies on:
    truthiness of strings and numbers, strict (`===`) and loose (`==`) equality of
    ids, `String.prototype.trim`, and the string-to-number conversion that loose
    equality applies when it compares a string with a number. Numbers are integers. */
module JsValues {

  datatype Option<T> = None | Some(value: T)

  /** A primitive as it can stand in a product's `id`: a number or a string. */
  datatype Value = Num(n: int) | Str(s: string)

  /** `!!v`: the empty string and zero are falsy, everything else is truthy. */
  predicate Truthy(v: Value) {
    match v
    case Num(n) => n != 0
    case Str(s) => s != ""
  }

  /** `a === b` on primitives: same type and same value. */
  predicate StrictEq(a: Value, b: Value) {
    a == b
  }

  /** `a == b` on primitives: values of one type compare directly; a string
      compared with a number is converted to a number first (NaN equals nothing). */
  function LooseEq(a: Value, b: Value): (eq: bool)
    ensures a.Num? == b.Num? ==> (eq <==> StrictEq(a, b))
    ensures a.Num? && b.Str? ==> (eq <==> StringToNumber(b.s) == Some(a.n))
    ensures a.Str? && b.Num? ==> (eq <==> StringToNumber(a.s) == Some(b.n))
  {
    match (a, b)
    case (Num(x), Num(y)) => x == y
    case (Str(x), Str(y)) => x == y
    case (Num(x), Str(y)) => StringToNumber(y) == Some(x)
    case (Str(x), Num(y)) => StringToNumber(x) == Some(y)
  }

  lemma LooseEqSymmetric(a: Value, b: Value)
    ensures LooseEq(a, b) <==> LooseEq(b, a)
  {
  }

  /** White space and line terminators, the characters `trim` removes. */
  predicate IsWhitespace(c: char) {
    || c in {'\t', '\n', '\U{000B}', '\U{000C}', '\r', ' ', '\U{00A0}', '\U{1680}'}
    || ('\U{2000}' <= c <= '\U{200A}')
    || c in {'\U{2028}', '\U{2029}', '\U{202F}', '\U{205F}', '\U{3000}', '\U{FEFF}'}
  }

  /** Removes leading white space. */
  function TrimStart(s: string): (t: string)
    ensures |t| <= |s| && t == s[|s| - |t|..]
    ensures forall k :: 0 <= k < |s| - |t| ==> IsWhitespace(s[k])
    ensures t == [] || !IsWhitespace(t[0])
  {
    if s != [] && IsWhitespace(s[0]) then TrimStart(s[1..]) else s
  }

  /** Removes trailing white space. */
  function TrimEnd(s: string): (t: string)
    ensures |t| <= |s| && t == s[..|t|]
    ensures forall k :: |t| <= k < |s| ==> IsWhitespace(s[k])
    ensures t == [] || !IsWhitespace(t[|t| - 1])
  {
    if s != [] && IsWhitespace(s[|s| - 1]) then TrimEnd(s[..|s| - 1]) else s
  }

  /** `t` is what is left of `s` once the white space before index `lead` and
      after `t` is cut away, and `t` neither starts nor ends with white space. */
  predicate TrimmedFrom(t: string, s: string, lead: nat) {
    && lead + |t| <= |s|
    && t == s[lead..lead + |t|]
    && (forall k :: 0 <= k < lead ==> IsWhitespace(s[k]))
    && (forall k :: lead + |t| <= k < |s| ==> IsWhitespace(s[k]))
    && (t == [] || (!IsWhitespace(t[0]) && !IsWhitespace(t[|t| - 1])))
  }

  /** `s.trim()` */
  function Trim(s: string): (t: string)
    ensures TrimmedFrom(t, s, |s| - |TrimStart(s)|)
    ensures t == [] <==> forall k :: 0 <= k < |s| ==> IsWhitespace(s[k])
  {
    TrimEnd(TrimStart(s))
  }

  /** Trimming is determined by `TrimmedFrom`: any string cut out of `s` as
      `TrimmedFrom` describes is `Trim(s)`. */
  lemma TrimUnique(s: string, t: string, lead: nat)
    requires TrimmedFrom(t, s, lead)
    ensures t == Trim(s)
  {
  }

  lemma TrimIdempotent(s: string)
    ensures Trim(Trim(s)) == Trim(s)
  {
    var t := Trim(s);
    assert TrimmedFrom(t, t, 0);
    TrimUnique(t, t, 0);
  }

  predicate IsDigit(c: char) {
    '0' <= c <= '9'
  }

  predicate AllDigits(d: string) {
    forall k :: 0 <= k < |d| ==> IsDigit(d[k])
  }

  /** The value of a string of decimal digits, most significant first. */
  function DecimalValue(d: string): nat
    requires AllDigits(d)
  {
    if d == [] then 0 else 10 * DecimalValue(d[..|d| - 1]) + (d[|d| - 1] as int - '0' as int)
  }

  /** ToNumber applied to a string: white space around the number is ignored, the
      empty (or all-white-space) string is 0, and an optionally signed run of
      decimal digits is its value. Anything else is NaN here (`None`). */
  function StringToNumber(s: string): Option<int> {
    var t := Trim(s);
    if t == [] then Some(0)
    else if AllDigits(t) then Some(DecimalValue(t))
    else if |t| > 1 && (t[0] == '-' || t[0] == '+') && AllDigits(t[1..]) then
      var v: int := DecimalValue(t[1..]);
      Some(if t[0] == '-' then -v else v)
    else None
  }

  /** The decimal rendering of a natural number, as `String(n)` gives it. */
  function NatToDecimal(n: nat): (d: string)
    ensures d != [] && AllDigits(d)
  {
    var last := ['0' + ((n % 10) as char)];
    if n < 10 then last else NatToDecimal(n / 10) + last
  }

  /** The decimal rendering of an integer, as `String(n)` gives it. */
  function IntToDecimal(n: int): string {
    if n < 0 then "-" + NatToDecimal(-n) else NatToDecimal(n)
  }

  lemma {:induction false} DecimalRoundTrip(n: nat)
    ensures DecimalValue(NatToDecimal(n)) == n
  {
    var d := NatToDecimal(n);
    if n >= 10 {
      DecimalRoundTrip(n / 10);
      assert d[..|d| - 1] == NatToDecimal(n / 10);
    }
  }

  /** A string holding the decimal rendering of a number loosely equals that
      number: an id stored as the string "51" is found by the number 51. */
  lemma NumberStringLooselyEqualsNumber(n: int)
    ensures StringToNumber(IntToDecimal(n)) == Some(n)
    ensures LooseEq(Str(IntToDecimal(n)), Num(n))
  {
    var s := IntToDecimal(n);
    assert !IsWhitespace(s[0]) && !IsWhitespace(s[|s| - 1]);
    assert TrimmedFrom(s, s, 0);
    TrimUnique(s, s, 0);
    if n < 0 {
      DecimalRoundTrip(-n);
      assert s[1..] == NatToDecimal(-n);
      assert !IsDigit(s[0]);
    } else {
      DecimalRoundTrip(n);
    }
  }
}
