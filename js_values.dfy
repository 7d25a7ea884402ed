/** The few JavaScript value notions the modelled code relies on: the shape of
    a dynamically typed value, truthiness, the decimal rendering of an integer
    inside a template string, and the `\s` class of regular expressions. */
module JsValues {
  import opened Wrappers

  /** A JavaScript value as the request-handling code sees it. Numbers are
      modelled as integers; objects carry their own properties. */
  datatype Json =
    | Undefined
    | Null
    | Bool(b: bool)
    | Num(n: int)
    | Str(s: string)
    | Arr(items: seq<Json>)
    | Obj(fields: map<string, Json>)

  /** JavaScript truthiness: `undefined`, `null`, `false`, `0` and `""` are
      falsy; every array and object, even an empty one, is truthy. */
  predicate Truthy(v: Json) {
    match v
    case Undefined => false
    case Null => false
    case Bool(b) => b
    case Num(n) => n != 0
    case Str(s) => s != ""
    case Arr(_) => true
    case Obj(_) => true
  }

  predicate IsDigit(c: char) {
    '0' <= c <= '9'
  }

  function DigitChar(d: nat): (c: char)
    requires d < 10
    ensures IsDigit(c)
  {
    ('0' as int + d) as char
  }

  function DigitValue(c: char): (d: nat)
    requires IsDigit(c)
    ensures d < 10 && DigitChar(d) == c
  {
    c as int - '0' as int
  }

  /** Decimal digits of a natural number, most significant first. */
  function NatToString(n: nat): (r: string)
    ensures 0 < |r|
    ensures forall i :: 0 <= i < |r| ==> IsDigit(r[i])
    ensures n < 10 <==> |r| == 1
  {
    if n < 10 then [DigitChar(n)] else NatToString(n / 10) + [DigitChar(n % 10)]
  }

  /** `${n}` for an integer `n`: its digits, after a minus sign when negative.
      The rendering never contains a colon or a star, which is what the cache
      keys built from it rely on. */
  function IntToString(n: int): (r: string)
    ensures 0 < |r|
    ensures forall i :: 0 <= i < |r| ==> IsDigit(r[i]) || r[i] == '-'
    ensures (r[0] == '-') <==> n < 0
  {
    if n < 0 then "-" + NatToString(-n) else NatToString(n)
  }

  // `parseInt(s, 10)`.

  /** The string without its leading white space. */
  function TrimStart(s: string): string {
    if s != [] && IsSpace(s[0]) then TrimStart(s[1..]) else s
  }

  /** The longest run of decimal digits that begins the string. */
  function LeadingDigits(s: string): string {
    if s != [] && IsDigit(s[0]) then [s[0]] + LeadingDigits(s[1..]) else []
  }

  /** The value of a string of decimal digits, most significant first
      (applied only to runs of digits). */
  function DigitsValue(s: string): nat {
    if s == [] then 0
    else 10 * DigitsValue(s[..|s| - 1]) + (if IsDigit(s[|s| - 1]) then DigitValue(s[|s| - 1]) else 0)
  }

  /** `parseInt(s, 10)`: leading white space is skipped, then an optional
      sign and the longest run of digits are read; without a digit the
      result is NaN (`None`). What follows the digits is ignored. */
  function ParseInt10(s: string): (r: Option<int>)
    ensures s == [] ==> r == None
    ensures s != [] && IsDigit(s[0]) ==> r.Some? && r.value >= 0
    ensures s != [] && !IsSpace(s[0]) && !IsDigit(s[0]) && s[0] != '-' && s[0] != '+' ==> r == None
  {
    var t := TrimStart(s);
    var digits := LeadingDigits(Unsigned(t));
    if digits == [] then None
    else
      var value: int := DigitsValue(digits);
      if t[0] == '-' then Some(-value) else Some(value)
  }

  /** The string after an optional leading sign. */
  function Unsigned(t: string): string {
    if t != [] && (t[0] == '-' || t[0] == '+') then t[1..] else t
  }

  lemma {:induction false} NatToStringValue(n: nat)
    ensures DigitsValue(NatToString(n)) == n
  {
    var r := NatToString(n);
    if n >= 10 {
      NatToStringValue(n / 10);
      assert r[..|r| - 1] == NatToString(n / 10);
    }
  }

  lemma {:induction false} LeadingDigitsOfDigits(d: string, rest: string)
    requires forall i :: 0 <= i < |d| ==> IsDigit(d[i])
    requires rest == [] || !IsDigit(rest[0])
    ensures LeadingDigits(d + rest) == d
  {
    if d != [] {
      assert (d + rest)[1..] == d[1..] + rest;
      LeadingDigitsOfDigits(d[1..], rest);
    }
  }

  /** `parseInt` reads back the rendering of any integer, whatever non-digit
      text follows it. */
  lemma ParseRendered(n: int, rest: string)
    requires rest == [] || !IsDigit(rest[0])
    ensures ParseInt10(IntToString(n) + rest) == Some(n)
  {
    var m: nat := if n < 0 then -n else n;
    var digits := NatToString(m);
    var sign := if n < 0 then "-" else "";
    assert IntToString(n) == sign + digits;
    var s := sign + (digits + rest);
    assert IntToString(n) + rest == s;
    ParseDigits(digits, rest, n < 0);
    NatToStringValue(m);
    assert ParseInt10(s).Some? && ParseInt10(s).value == n;
  }

  lemma ParseDigits(digits: string, rest: string, negative: bool)
    requires digits != [] && forall i :: 0 <= i < |digits| ==> IsDigit(digits[i])
    requires rest == [] || !IsDigit(rest[0])
    ensures var s := (if negative then "-" else "") + (digits + rest);
      ParseInt10(s).Some? && ParseInt10(s).value == if negative then -(DigitsValue(digits) as int) else DigitsValue(digits) as int
  {
    var s := (if negative then "-" else "") + (digits + rest);
    SignedStart(digits, rest, negative);
    LeadingDigitsOfDigits(digits, rest);
    ParseOf(s, digits);
  }

  lemma ParseOf(s: string, digits: string)
    requires digits != [] && forall i :: 0 <= i < |digits| ==> IsDigit(digits[i])
    requires TrimStart(s) == s && LeadingDigits(Unsigned(s)) == digits
    ensures ParseInt10(s).Some?
    ensures ParseInt10(s).value == if s[0] == '-' then -(DigitsValue(digits) as int) else DigitsValue(digits) as int
  {
  }

  lemma SignedStart(digits: string, rest: string, negative: bool)
    requires digits != [] && IsDigit(digits[0])
    ensures var s := (if negative then "-" else "") + (digits + rest);
      TrimStart(s) == s && Unsigned(s) == digits + rest && (s[0] == '-' <==> negative)
  {
    var s := (if negative then "-" else "") + (digits + rest);
    assert s[0] == if negative then '-' else digits[0];
  }

  /** Leading white space does not change what `parseInt` reads. */
  lemma ParseSkipsSpace(c: char, s: string)
    requires IsSpace(c)
    ensures ParseInt10([c] + s) == ParseInt10(s)
  {
    assert ([c] + s)[1..] == s;
  }

  /** The characters matched by `\s` in a JavaScript regular expression:
      the ASCII white space, no-break space, the Unicode space separators,
      the line and paragraph separators and the byte order mark. */
  predicate IsSpace(c: char) {
    || c == ' ' || c == '\t' || c == '\n' || c == '\U{B}' || c == '\U{C}' || c == '\r'
    || c == '\U{A0}' || c == '\U{1680}'
    || ('\U{2000}' <= c <= '\U{200A}')
    || c == '\U{2028}' || c == '\U{2029}' || c == '\U{202F}' || c == '\U{205F}'
    || c == '\U{3000}' || c == '\U{FEFF}'
  }
}
