/** Request values as the validator and the ORM see them, and the PHP-level
    operations the controllers apply to them: the (string) cast, truthiness,
    `array_filter` and the `$fillable` allow-lists. */
module Values {

  datatype Option<T> = None | Some(value: T)

  /** A decoded JSON request value. */
  datatype Value = VNull | VBool(b: bool) | VInt(i: int) | VStr(s: string)

  /** A request body or a validated subset of it: field name to value. */
  type Payload = map<string, Value>

  predicate IsDigit(c: char) { '0' <= c <= '9' }

  predicate IsDigitString(s: string) { forall i :: 0 <= i < |s| ==> IsDigit(s[i]) }

  function DigitChar(d: nat): (c: char)
    requires d < 10
    ensures IsDigit(c) && c as int - '0' as int == d
  {
    (d + '0' as int) as char
  }

  /** Decimal representation of a natural number, without leading zeros. */
  function NatToDecimal(n: nat): (r: string)
    ensures |r| >= 1 && IsDigitString(r)
    ensures |r| > 1 ==> r[0] != '0'
    decreases n
  {
    if n < 10 then [DigitChar(n)] else NatToDecimal(n / 10) + [DigitChar(n % 10)]
  }

  /** The value of a string of decimal digits. */
  function DecimalValue(s: string): (n: nat)
    requires IsDigitString(s)
    decreases |s|
  {
    if s == [] then 0 else 10 * DecimalValue(s[..|s| - 1]) + (s[|s| - 1] as int - '0' as int)
  }

  /** Printing a number and reading it back gives the number. */
  lemma {:induction false} DecimalRoundTrip(n: nat)
    ensures DecimalValue(NatToDecimal(n)) == n
    decreases n
  {
    if n >= 10 {
      var r := NatToDecimal(n);
      assert r[..|r| - 1] == NatToDecimal(n / 10);
      DecimalRoundTrip(n / 10);
    }
  }

  /** PHP's `(string)` cast: null and false become "", true becomes "1". */
  function AsString(v: Value): (r: string)
    ensures v.VStr? ==> r == v.s
    ensures v.VInt? && v.i >= 0 ==> IsDigitString(r) && DecimalValue(r) == v.i
  {
    match v
    case VNull => ""
    case VBool(b) => if b then "1" else ""
    case VInt(i) =>
      if i < 0 then "-" + NatToDecimal(-i)
      else DecimalRoundTrip(i); NatToDecimal(i)
    case VStr(s) => s
  }

  /** PHP's `(bool)` cast, which `array_filter` without a callback applies. */
  predicate Truthy(v: Value)
  {
    match v
    case VNull => false
    case VBool(b) => b
    case VInt(i) => i != 0
    case VStr(s) => s != "" && s != "0"
  }

  /** PHP 8's loose `$v == null`: null, false, 0 and "" compare equal to
      null; the string "0" does not (it is compared as a string with ""). */
  predicate LooseNull(v: Value)
  {
    match v
    case VNull => true
    case VBool(b) => !b
    case VInt(i) => i == 0
    case VStr(s) => s == ""
  }

  /** PHP 8's loose `$v == 0`: null, false and 0 compare equal to 0, and so
      does a string of zeros (a numeric string compared as a number); any
      other string is compared with "0" as a string. */
  predicate LooseZero(v: Value)
  {
    match v
    case VNull => true
    case VBool(b) => !b
    case VInt(i) => i == 0
    case VStr(s) => |s| > 0 && forall k :: 0 <= k < |s| ==> s[k] == '0'
  }

  /** `$v == 0` is not the negation of `(bool) $v`: "" is neither, and a
      string of two or more zeros is both. */
  lemma LooseZeroVersusTruthy(v: Value)
    ensures !Truthy(v) && !LooseZero(v) <==> v == VStr("")
    ensures Truthy(v) && LooseZero(v) <==> v.VStr? && |v.s| >= 2 && forall k :: 0 <= k < |v.s| ==> v.s[k] == '0'
  {
    if v.VStr? && |v.s| >= 2 && forall k :: 0 <= k < |v.s| ==> v.s[k] == '0' {
      assert v.s[0] == '0';
      assert v.s != "0" by { assert |v.s| != |"0"|; }
    }
  }

  /** `$v != null ? $v : ""`, the controllers' way of never sending null. */
  function OrEmpty(v: Value): (r: Value)
    ensures r != VNull
    ensures LooseNull(v) ==> r == VStr("")
    ensures !LooseNull(v) ==> r == v
  {
    if LooseNull(v) then VStr("") else v
  }

  /** `$v ?? $d`: only null (or a missing attribute) is replaced. */
  function Coalesce(v: Value, d: Value): (r: Value)
    ensures v != VNull ==> r == v
    ensures v == VNull ==> r == d
  {
    if v == VNull then d else v
  }

  /** The two ways the controllers drop "empty" values disagree on exactly
      one value: `array_filter` drops "0", `!= null` keeps it. */
  lemma LooseNullVersusTruthy(v: Value)
    ensures LooseNull(v) ==> !Truthy(v)
    ensures !Truthy(v) && !LooseNull(v) <==> v == VStr("0")
  {
  }

  /** `array_filter($data)`: keeps exactly the entries whose value is truthy. */
  function ArrayFilter(d: Payload): (r: Payload)
    ensures r.Keys <= d.Keys
    ensures forall k :: k in d ==> (k in r <==> Truthy(d[k]))
    ensures forall k :: k in r ==> r[k] == d[k]
  {
    map k | k in d && Truthy(d[k]) :: d[k]
  }

  /** Mass assignment through `$fillable`: keys outside the allow-list are dropped. */
  function Only(d: Payload, allowed: set<string>): (r: Payload)
    ensures r.Keys == d.Keys * allowed
    ensures forall k :: k in r ==> r[k] == d[k]
  {
    map k | k in d && k in allowed :: d[k]
  }

  /** An allow-list that covers every key drops nothing. */
  lemma OnlyAllowed(d: Payload, allowed: set<string>)
    requires d.Keys <= allowed
    ensures Only(d, allowed) == d
  {
  }

  /** Filtering twice drops nothing more: no kept value is falsy. */
  lemma ArrayFilterIdempotent(d: Payload)
    ensures ArrayFilter(ArrayFilter(d)) == ArrayFilter(d)
  {
  }

  /** Null, false, 0, "" and "0" never survive `array_filter`. */
  lemma ArrayFilterDropsFalsy(d: Payload, k: string)
    requires k in d && d[k] in {VNull, VBool(false), VInt(0), VStr(""), VStr("0")}
    ensures k !in ArrayFilter(d)
  {
  }

  /** A stand-in for Laravel's `email` rule: some character before and after an '@'. */
  predicate IsEmail(s: string)
  {
    exists i :: 0 < i < |s| - 1 && s[i] == '@'
  }
}
