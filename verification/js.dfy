/** The few JavaScript value semantics the server's decisions depend on:
    truthiness, `String(x)`, `Number(x)`, `parseInt(x, 10)`, `trim`,
    case mapping and `startsWith`. */
module Js {
  import opened Options

  /** A JavaScript number restricted to the integers (fractions are outside
      the model), with NaN and the two infinities kept apart. */
  datatype Number = NaN | Finite(v: int) | PosInf | NegInf

  /** A JSON-ish JavaScript value as it reaches a handler: a request body
      field, a query parameter or a token claim. `Object` is any non-null
      plain object whose contents no decision inspects. */
  datatype JsVal = Undefined | Null | Bool(b: bool) | Num(n: Number) | Str(s: string) | Object

  /** JavaScript truthiness: what `if (x)`, `!x` and `x || d` test. */
  predicate Truthy(v: JsVal) {
    match v
    case Undefined => false
    case Null => false
    case Bool(b) => b
    case Num(n) => !n.NaN? && n != Finite(0)
    case Str(s) => s != ""
    case Object => true
  }

  /** `x || d` */
  function OrElse(v: JsVal, d: JsVal): (r: JsVal)
    ensures Truthy(v) ==> r == v
    ensures !Truthy(v) ==> r == d
  {
    if Truthy(v) then v else d
  }

  /** `x ?? d`: only null and undefined fall back. */
  function Coalesce(v: JsVal, d: JsVal): (r: JsVal)
    ensures r == d <==> v.Undefined? || v.Null? || v == d
  {
    if v.Undefined? || v.Null? then d else v
  }

  // ---------------------------------------------------------------------
  // Decimal digits

  predicate IsDigit(c: char) {
    '0' <= c <= '9'
  }

  predicate AllDigits(s: string) {
    forall i :: 0 <= i < |s| ==> IsDigit(s[i])
  }

  function DigitChar(d: int): (c: char)
    requires 0 <= d < 10
    ensures IsDigit(c) && c as int - '0' as int == d
  {
    ('0' as int + d) as char
  }

  function DigitValue(c: char): (d: int)
    requires IsDigit(c)
    ensures 0 <= d < 10 && DigitChar(d) == c
  {
    c as int - '0' as int
  }

  /** The decimal spelling of a natural number, most significant digit first,
      without leading zeros. */
  function NatToDigits(n: nat): (r: string)
    ensures |r| >= 1 && AllDigits(r)
    ensures (r[0] == '0') <==> n == 0
    decreases n
  {
    if n < 10 then [DigitChar(n)] else NatToDigits(n / 10) + [DigitChar(n % 10)]
  }

  /** The value of a string of decimal digits (leading zeros allowed). */
  function DigitsValue(s: string): nat
    requires AllDigits(s)
  {
    if s == [] then 0 else DigitsValue(s[..|s| - 1]) * 10 + DigitValue(s[|s| - 1])
  }

  /** Reading back the digits of `n` yields `n`. */
  lemma {:induction false} DigitsRoundTrip(n: nat)
    ensures DigitsValue(NatToDigits(n)) == n
    decreases n
  {
    if n >= 10 {
      var s := NatToDigits(n);
      assert s == NatToDigits(n / 10) + [DigitChar(n % 10)];
      assert s[..|s| - 1] == NatToDigits(n / 10);
      DigitsRoundTrip(n / 10);
    }
  }

  /** `String(n)` for an integer `n`. */
  function IntToString(n: int): (r: string)
    ensures |r| >= 1
    ensures n >= 0 ==> AllDigits(r)
    ensures n < 0 ==> r[0] == '-' && AllDigits(r[1..])
  {
    if n < 0 then "-" + NatToDigits(-n) else NatToDigits(n)
  }

  /** Distinct integers print differently: `String` is injective on integers. */
  lemma IntToStringInjective(a: int, b: int)
    requires IntToString(a) == IntToString(b)
    ensures a == b
  {
    StringToNumberOfIntToString(a);
    StringToNumberOfIntToString(b);
  }

  function NumberToString(n: Number): string {
    match n
    case NaN => "NaN"
    case Finite(v) => IntToString(v)
    case PosInf => "Infinity"
    case NegInf => "-Infinity"
  }

  /** `String(x)` */
  function ToStr(v: JsVal): string {
    match v
    case Undefined => "undefined"
    case Null => "null"
    case Bool(b) => if b then "true" else "false"
    case Num(n) => NumberToString(n)
    case Str(s) => s
    case Object => "[object Object]"
  }

  // ---------------------------------------------------------------------
  // Whitespace and trimming

  /** The characters `String.prototype.trim` removes: ECMAScript WhiteSpace
      and LineTerminator. */
  predicate IsSpace(c: char) {
    || c == '\t' || c == '\n' || c == '\U{000B}' || c == '\U{000C}' || c == '\r'
    || c == ' ' || c == '\U{00A0}' || c == '\U{1680}'
    || ('\U{2000}' <= c <= '\U{200A}')
    || c == '\U{2028}' || c == '\U{2029}' || c == '\U{202F}' || c == '\U{205F}'
    || c == '\U{3000}' || c == '\U{FEFF}'
  }

  function TrimStart(s: string): (r: string)
    ensures |r| <= |s| && r == s[|s| - |r|..]
    ensures r == [] || !IsSpace(r[0])
    ensures forall i :: 0 <= i < |s| - |r| ==> IsSpace(s[i])
  {
    if s != [] && IsSpace(s[0]) then TrimStart(s[1..]) else s
  }

  function TrimEnd(s: string): (r: string)
    ensures |r| <= |s| && r == s[..|r|]
    ensures r == [] || !IsSpace(r[|r| - 1])
    ensures forall i :: |r| <= i < |s| ==> IsSpace(s[i])
  {
    if s != [] && IsSpace(s[|s| - 1]) then TrimEnd(s[..|s| - 1]) else s
  }

  /** `s.trim()` */
  function Trim(s: string): string {
    TrimEnd(TrimStart(s))
  }

  lemma TrimStartNoSpace(s: string)
    requires s == [] || !IsSpace(s[0])
    ensures TrimStart(s) == s
  {
  }

  lemma TrimEndNoSpace(s: string)
    requires s == [] || !IsSpace(s[|s| - 1])
    ensures TrimEnd(s) == s
  {
  }

  /** A string with no space at either end is its own trim. */
  lemma TrimOfTrimmed(s: string)
    requires s == [] || (!IsSpace(s[0]) && !IsSpace(s[|s| - 1]))
    ensures Trim(s) == s
  {
    TrimStartNoSpace(s);
    TrimEndNoSpace(s);
  }

  /** Trimming twice is trimming once. */
  lemma TrimIdempotent(s: string)
    ensures Trim(Trim(s)) == Trim(s)
  {
    var t := TrimStart(s);
    var r := TrimEnd(t);
    if r != [] {
      assert r[0] == t[0];
    }
    TrimOfTrimmed(r);
  }

  // ---------------------------------------------------------------------
  // Number(x) and parseInt(x, 10)

  /** `Number(s)` for a string: surrounding whitespace is ignored, the empty
      string is 0, an optionally signed run of decimal digits is its value and
      an optionally signed `Infinity` is infinite; everything else is NaN. */
  function StringToNumber(s: string): Number {
    NumericLiteral(Trim(s))
  }

  /** The value of an already trimmed numeric string. */
  function NumericLiteral(t: string): (r: Number)
    ensures r.Finite? && r.v != 0 ==> t != ""
  {
    if t == "" then Finite(0)
    else if t == "Infinity" || t == "+Infinity" then PosInf
    else if t == "-Infinity" then NegInf
    else if AllDigits(t) then Finite(DigitsValue(t))
    else if |t| > 1 && (t[0] == '+' || t[0] == '-') && AllDigits(t[1..]) then
      (if t[0] == '-' then Finite(-(DigitsValue(t[1..]) as int)) else Finite(DigitsValue(t[1..])))
    else NaN
  }

  /** A trimmed string starting with anything but a digit, a sign or the
      `I` of `Infinity` is not a number. */
  lemma NumericLiteralNaN(t: string)
    requires t != "" && !IsDigit(t[0]) && t[0] != '+' && t[0] != '-' && t[0] != 'I'
    ensures NumericLiteral(t) == NaN
  {
  }

  lemma NumericLiteralOfDigits(n: nat)
    ensures NumericLiteral(NatToDigits(n)) == Finite(n)
  {
    var s := NatToDigits(n);
    DigitsRoundTrip(n);
    assert s != "Infinity" && s != "+Infinity" && s != "-Infinity" by {
      assert IsDigit(s[0]);
    }
  }

  lemma NumericLiteralOfNegative(n: int)
    requires n < 0
    ensures NumericLiteral(IntToString(n)) == Finite(n)
  {
    var d := NatToDigits(-n);
    var s := IntToString(n);
    assert s == "-" + d;
    assert s[1..] == d;
    DigitsRoundTrip(-n);
    assert !IsDigit(s[0]);
    assert s != "-Infinity" by {
      assert IsDigit(s[1]);
    }
  }

  /** `Number(String(n)) == n`: an integer survives printing and reading. */
  lemma StringToNumberOfIntToString(n: int)
    ensures StringToNumber(IntToString(n)) == Finite(n)
  {
    var s := IntToString(n);
    assert !IsSpace(s[0]) && !IsSpace(s[|s| - 1]);
    TrimOfTrimmed(s);
    if n >= 0 {
      NumericLiteralOfDigits(n);
    } else {
      NumericLiteralOfNegative(n);
    }
  }

  /** `Number(String(n))` on a string value is `n` again. */
  lemma ToNumberOfPrintedInt(n: int)
    ensures ToNumber(Str(IntToString(n))) == Finite(n)
  {
    StringToNumberOfIntToString(n);
  }

  /** `Number(x)` */
  function ToNumber(v: JsVal): Number {
    match v
    case Undefined => NaN
    case Null => Finite(0)
    case Bool(b) => if b then Finite(1) else Finite(0)
    case Num(n) => n
    case Str(s) => StringToNumber(s)
    case Object => NaN
  }

  /** Sequelize's `findByPk(Number(id))` on a table keyed by integers: only
      a finite number can name a row. */
  function FindByPk<V>(table: map<int, V>, id: JsVal): (r: Option<V>)
    ensures r.Some? <==> ToNumber(id).Finite? && ToNumber(id).v in table
    ensures r.Some? ==> r.value == table[ToNumber(id).v]
  {
    var n := ToNumber(id);
    if n.Finite? && n.v in table then Some(table[n.v]) else None
  }

  /** `Number.isFinite(n)` */
  predicate IsFinite(n: Number) {
    n.Finite?
  }

  /** The longest run of decimal digits at the start of `s`. */
  function LeadingDigits(s: string): (r: string)
    ensures AllDigits(r) && |r| <= |s| && r == s[..|r|]
    ensures |r| < |s| ==> !IsDigit(s[|r|])
  {
    if s != [] && IsDigit(s[0]) then [s[0]] + LeadingDigits(s[1..]) else []
  }

  /** `parseInt(s, 10)`: leading whitespace, an optional sign, then the
      longest run of digits; None stands for NaN (no digit at all). */
  function ParseInt10(s: string): Option<int> {
    SignedDigitsPrefix(TrimStart(s))
  }

  /** The integer at the start of `t`: an optional sign and the longest run
      of digits after it, or None when there is no digit there. */
  function SignedDigitsPrefix(t: string): (r: Option<int>)
    ensures r.Some? ==> exists i :: 0 <= i < |t| && IsDigit(t[i])
  {
    var signed := t != [] && (t[0] == '+' || t[0] == '-');
    var rest := if signed then t[1..] else t;
    var digits := LeadingDigits(rest);
    if digits == [] then None
    else
      assert IsDigit(t[if signed then 1 else 0]);
      Some(if signed && t[0] == '-' then -(DigitsValue(digits) as int) else DigitsValue(digits))
  }

  /** A string of digits is its own leading run of digits. */
  lemma {:induction false} LeadingDigitsOfDigits(s: string)
    requires AllDigits(s)
    ensures LeadingDigits(s) == s
  {
    if s != [] {
      LeadingDigitsOfDigits(s[1..]);
    }
  }

  lemma ParseIntOfDigits(n: nat)
    ensures ParseInt10(NatToDigits(n)) == Some(n)
  {
    var s := NatToDigits(n);
    assert !IsSpace(s[0]);
    TrimStartNoSpace(s);
    assert !(s[0] == '+' || s[0] == '-');
    LeadingDigitsOfDigits(s);
    DigitsRoundTrip(n);
    assert SignedDigitsPrefix(s) == Some(n);
  }

  lemma LeadingDigitsAfterSign(d: string)
    requires d != [] && AllDigits(d)
    ensures LeadingDigits(("-" + d)[1..]) == d
  {
    var t := "-" + d;
    assert t[1..] == d;
    LeadingDigitsOfDigits(d);
  }

  lemma SignedDigitsPrefixNegative(d: string)
    requires d != [] && AllDigits(d)
    ensures SignedDigitsPrefix("-" + d) == Some(-(DigitsValue(d) as int))
  {
    LeadingDigitsAfterSign(d);
    var t := "-" + d;
    assert t[0] == '-';
  }

  lemma ParseIntOfNegative(n: int)
    requires n < 0
    ensures ParseInt10(IntToString(n)) == Some(n)
  {
    var d := NatToDigits(-n);
    var s := "-" + d;
    assert IntToString(n) == s;
    assert !IsSpace(s[0]);
    TrimStartNoSpace(s);
    assert ParseInt10(s) == SignedDigitsPrefix(s);
    SignedDigitsPrefixNegative(d);
    DigitsRoundTrip(-n);
    assert DigitsValue(d) as int == -n;
  }

  /** `parseInt(String(n), 10) == n` for every integer `n`. */
  lemma ParseIntOfIntToString(n: int)
    ensures ParseInt10(IntToString(n)) == Some(n)
  {
    if n >= 0 {
      ParseIntOfDigits(n);
    } else {
      ParseIntOfNegative(n);
    }
  }

  // ---------------------------------------------------------------------
  // Case mapping (ASCII letters only) and prefixes

  function LowerChar(c: char): char {
    if 'A' <= c <= 'Z' then (c as int + 32) as char else c
  }

  function UpperChar(c: char): char {
    if 'a' <= c <= 'z' then (c as int - 32) as char else c
  }

  /** `s.toLowerCase()` on ASCII letters. */
  function Lower(s: string): (r: string)
    ensures |r| == |s|
    ensures forall i :: 0 <= i < |s| ==> r[i] == LowerChar(s[i])
  {
    seq(|s|, i requires 0 <= i < |s| => LowerChar(s[i]))
  }

  /** `s.toUpperCase()` on ASCII letters. */
  function Upper(s: string): (r: string)
    ensures |r| == |s|
    ensures forall i :: 0 <= i < |s| ==> r[i] == UpperChar(s[i])
  {
    seq(|s|, i requires 0 <= i < |s| => UpperChar(s[i]))
  }

  lemma LowerIdempotent(s: string)
    ensures Lower(Lower(s)) == Lower(s)
  {
  }

  /** Lower-casing keeps whitespace whitespace and everything else not. */
  lemma LowerCharSpace(c: char)
    ensures IsSpace(LowerChar(c)) == IsSpace(c)
  {
  }

  lemma {:induction false} TrimStartLower(s: string)
    ensures TrimStart(Lower(s)) == Lower(TrimStart(s))
    decreases |s|
  {
    if s != [] {
      LowerCharSpace(s[0]);
      if IsSpace(s[0]) {
        assert Lower(s)[1..] == Lower(s[1..]);
        TrimStartLower(s[1..]);
      }
    }
  }

  lemma {:induction false} TrimEndLower(s: string)
    ensures TrimEnd(Lower(s)) == Lower(TrimEnd(s))
    decreases |s|
  {
    if s != [] {
      LowerCharSpace(s[|s| - 1]);
      if IsSpace(s[|s| - 1]) {
        assert Lower(s)[..|s| - 1] == Lower(s[..|s| - 1]);
        TrimEndLower(s[..|s| - 1]);
      }
    }
  }

  /** `s.toLowerCase().trim()` and `s.trim().toLowerCase()` agree. */
  lemma TrimLowerCommute(s: string)
    ensures Trim(Lower(s)) == Lower(Trim(s))
  {
    TrimStartLower(s);
    TrimEndLower(TrimStart(s));
  }

  /** `s.startsWith(p)` */
  predicate StartsWith(s: string, p: string) {
    |p| <= |s| && s[..|p|] == p
  }
}
