/** The JavaScript values that flow through the pipeline, `String(v)`, truthiness,
    and `Number(s)` on strings. */
module Values {
  import opened Text

  datatype Option<T> = None | Some(value: T)

  /** The scalar JavaScript values the pipeline meets. Numbers are restricted to
      integers and NaN: a fractional or infinite double, such as a tier average in the
      home page's JSON, is not representable, since its `String()` text (the shortest
      round-trip decimal) is not modelled. */
  datatype JsValue = Undefined | Null | Bool(b: bool) | Int(i: int) | NaN | Str(s: string)

  predicate IsNullish(v: JsValue) {
    v.Undefined? || v.Null?
  }

  /** JavaScript truthiness: `undefined`, `null`, `false`, `0`, `NaN` and `""` are falsy. */
  predicate Truthy(v: JsValue) {
    match v
    case Undefined => false
    case Null => false
    case Bool(b) => b
    case Int(i) => i != 0
    case NaN => false
    case Str(s) => s != ""
  }

  predicate IsDigit(c: char) {
    '0' <= c <= '9'
  }

  predicate AllDigits(s: string) {
    forall i :: 0 <= i < |s| ==> IsDigit(s[i])
  }

  function DigitChar(d: nat): char
    requires d < 10
  {
    ('0' as int + d) as char
  }

  function DigitOf(c: char): nat
    requires IsDigit(c)
  {
    c as int - '0' as int
  }

  /** Decimal notation of a natural number, without leading zeros. */
  function NatToString(n: nat): (r: string)
    ensures r != [] && AllDigits(r)
  {
    if n < 10 then [DigitChar(n)] else NatToString(n / 10) + [DigitChar(n % 10)]
  }

  /** `String(n)` for an integer-valued number. */
  function IntToString(i: int): (r: string)
    ensures r != []
    ensures r[0] == '-' || IsDigit(r[0])
  {
    if i < 0 then "-" + NatToString(-i) else NatToString(i)
  }

  /** `String(v)`. */
  function ToStr(v: JsValue): string {
    match v
    case Undefined => "undefined"
    case Null => "null"
    case Bool(b) => if b then "true" else "false"
    case Int(i) => IntToString(i)
    case NaN => "NaN"
    case Str(s) => s
  }

  /** The result of `Number(s)`, as an exact value; rounding to a double is not modelled. */
  datatype JsNumber = NotANumber | Finite(x: real) | Infinity | NegInfinity

  /** `Number.isFinite(n)` as an optional value: the `number | null` of the source. */
  function AsFinite(n: JsNumber): (r: Option<real>)
    ensures r.Some? <==> n.Finite?
  {
    if n.Finite? then Some(n.x) else None
  }

  function Negate(n: JsNumber): JsNumber {
    match n
    case NotANumber => NotANumber
    case Finite(x) => Finite(-x)
    case Infinity => NegInfinity
    case NegInfinity => Infinity
  }

  /** Value of a string of decimal digits, read left to right. */
  function DigitsValue(d: string): nat
    requires AllDigits(d)
  {
    if d == [] then 0 else DigitsValue(d[..|d| - 1]) * 10 + DigitOf(d[|d| - 1])
  }

  /** The longest prefix of `s` made of decimal digits. */
  function LeadingDigits(s: string): (r: string)
    ensures |r| <= |s| && r == s[..|r|] && AllDigits(r)
    ensures |r| < |s| ==> !IsDigit(s[|r|])
  {
    if s != [] && IsDigit(s[0]) then [s[0]] + LeadingDigits(s[1..]) else []
  }

  function Pow10(n: nat): (r: real)
    ensures r >= 1.0
  {
    if n == 0 then 1.0 else 10.0 * Pow10(n - 1)
  }

  function Scale(x: real, e: int): real {
    if e >= 0 then x * Pow10(e) else x / Pow10(-e)
  }

  /** The exponent part of a decimal literal: empty (exponent 0), or `e`/`E`, an
      optional sign and at least one digit, with nothing after them. */
  function ParseExponent(t: string): Option<int> {
    if t == [] then Some(0)
    else if t[0] != 'e' && t[0] != 'E' then None
    else
      var neg := |t| > 1 && t[1] == '-';
      var digits := if |t| > 1 && (t[1] == '-' || t[1] == '+') then t[2..] else t[1..];
      if digits == [] || !AllDigits(digits) then None
      else if neg then Some(-(DigitsValue(digits) as int))
      else Some(DigitsValue(digits) as int)
  }

  /** An unsigned StrDecimalLiteral of ECMAScript: `Infinity`, or digits with an
      optional fraction (at least one digit in all) and an optional exponent. */
  function ParseUnsigned(u: string): JsNumber {
    if u == "Infinity" then Infinity
    else
      var a := LeadingDigits(u);
      var r1 := u[|a|..];
      var hasDot := r1 != [] && r1[0] == '.';
      var b := if hasDot then LeadingDigits(r1[1..]) else [];
      var r2 := if hasDot then r1[1 + |b|..] else r1;
      if a == [] && b == [] then NotANumber
      else match ParseExponent(r2)
        case None => NotANumber
        case Some(e) => Finite(DecimalValue(a, b, e))
  }

  /** The value of `a.b` times ten to the power `e`. */
  function DecimalValue(a: string, b: string, e: int): real
    requires AllDigits(a) && AllDigits(b)
  {
    Scale(DigitsValue(a) as real + DigitsValue(b) as real / Pow10(|b|), e)
  }

  /** `Number(s)` for a string: the trimmed string, empty meaning 0, an optional sign,
      then an unsigned decimal literal. */
  function ParseNumber(s: string): JsNumber {
    var t := Trim(s);
    if t == [] then Finite(0.0)
    else if t[0] == '-' then Negate(ParseUnsigned(t[1..]))
    else ParseUnsigned(if t[0] == '+' then t[1..] else t)
  }

  lemma {:induction false} DigitsValueOfNat(n: nat)
    ensures DigitsValue(NatToString(n)) == n
  {
    var s := NatToString(n);
    if n >= 10 {
      DigitsValueOfNat(n / 10);
      assert s[..|s| - 1] == NatToString(n / 10);
    }
  }

  lemma NoSpaceInDigits(s: string)
    requires AllDigits(s)
    ensures forall i :: 0 <= i < |s| ==> !IsSpace(s[i])
  {
  }

  lemma {:induction false} LeadingDigitsAll(s: string)
    requires AllDigits(s)
    ensures LeadingDigits(s) == s
  {
    if s != [] {
      LeadingDigitsAll(s[1..]);
    }
  }

  lemma ParseUnsignedDigits(d: string)
    requires d != [] && AllDigits(d)
    ensures ParseUnsigned(d) == Finite(DigitsValue(d) as real)
  {
    LeadingDigitsAll(d);
    assert d[|d|..] == [];
  }

  lemma ParseDigits(d: string)
    requires d != [] && AllDigits(d)
    ensures ParseNumber(d) == Finite(DigitsValue(d) as real)
  {
    NoSpaceInDigits(d);
    TrimNoSpaces(d);
    ParseUnsignedDigits(d);
  }

  lemma ParseMinus(s: string)
    requires Trim(s) == s && s != [] && s[0] == '-'
    ensures ParseNumber(s) == Negate(ParseUnsigned(s[1..]))
  {
  }

  lemma TrimSignedDigits(s: string)
    requires s != [] && s[0] == '-' && AllDigits(s[1..])
    ensures Trim(s) == s
  {
    assert forall k :: 1 <= k < |s| ==> s[k] == s[1..][k - 1];
    TrimNoSpaces(s);
  }

  lemma ParseMinusDigits(s: string)
    requires s != [] && s[0] == '-' && s[1..] != [] && AllDigits(s[1..])
    ensures ParseNumber(s) == Finite(-(DigitsValue(s[1..]) as real))
  {
    TrimSignedDigits(s);
    ParseMinus(s);
    ParseUnsignedDigits(s[1..]);
  }

  /** `String(i)` has no surrounding white space. */
  lemma IntTextTrimmed(i: int)
    ensures Trim(IntToString(i)) == IntToString(i)
  {
    var s := IntToString(i);
    if i < 0 {
      assert s[1..] == NatToString(-i);
      TrimSignedDigits(s);
    } else {
      NoSpaceInDigits(s);
      TrimNoSpaces(s);
    }
  }

  /** `Number(String(i))` gives `i` back: integers survive the text round trip. */
  lemma {:induction false} ParseIntRoundTrip(i: int)
    ensures ParseNumber(IntToString(i)) == Finite(i as real)
  {
    var s := IntToString(i);
    if i < 0 {
      assert s[0] == '-' && s[1..] == NatToString(-i);
      ParseMinusDigits(s);
      DigitsValueOfNat(-i);
    } else {
      ParseDigits(NatToString(i));
      DigitsValueOfNat(i);
    }
  }

  /** A trimmed string that starts with a letter is not a number, except `Infinity`:
      in particular `null`, `none`, `undefined` and `nan` in any case parse to NaN. */
  lemma ParseLetterIsNaN(s: string)
    requires Trim(s) != [] && Trim(s) != "Infinity"
    requires 'a' <= Trim(s)[0] <= 'z' || 'A' <= Trim(s)[0] <= 'Z'
    ensures ParseNumber(s) == NotANumber
  {
    var t := Trim(s);
    assert LeadingDigits(t) == [];
    assert t[0..] == t;
  }
}
