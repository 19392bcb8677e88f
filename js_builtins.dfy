/**
 * The handful of JavaScript built-ins the route service and the controllers
 * lean on, stated over Dafny's mathematical types: Math.floor / Math.ceil /
 * Math.round on numbers (as `real`), the truthiness default `x || d`,
 * parseInt with no radix, the `\s` character class and String.prototype.trim.
 */
module JsBuiltins {

  /** A value that may be `undefined` or `null`. */
  datatype Option<T> = None | Some(value: T)

  /** An operation that either yields a value or throws a TypeError. */
  datatype Outcome<T> = Ok(value: T) | TypeError

  // ---------------------------------------------------------------------------
  // Math.floor, Math.ceil, Math.round
  // ---------------------------------------------------------------------------

  /** Math.floor: the greatest integer not above x. */
  function Floor(x: real): (r: int)
    ensures r as real <= x < r as real + 1.0
  {
    x.Floor
  }

  /** Math.ceil: the least integer not below x. */
  function Ceil(x: real): (r: int)
    ensures x <= r as real < x + 1.0
  {
    -((-x).Floor)
  }

  /** Math.round: the nearest integer, halves rounded up (towards +infinity). */
  function Round(x: real): (r: int)
    ensures x - 0.5 < r as real <= x + 0.5
  {
    (x + 0.5).Floor
  }

  lemma FloorMonotone(x: real, y: real)
    requires x <= y
    ensures Floor(x) <= Floor(y)
  {
  }

  lemma CeilMonotone(x: real, y: real)
    requires x <= y
    ensures Ceil(x) <= Ceil(y)
  {
  }

  // ---------------------------------------------------------------------------
  // Truthiness: `x || d`
  // ---------------------------------------------------------------------------

  /** A string is truthy unless it is missing or empty. */
  predicate TruthyString(s: Option<string>)
  {
    s.Some? && s.value != ""
  }

  /** A number is truthy unless it is missing or zero (NaN is not modelled). */
  predicate TruthyNumber(x: Option<real>)
  {
    x.Some? && x.value != 0.0
  }

  /** An integer id is truthy unless it is missing or zero. */
  predicate TruthyInt(x: Option<int>)
  {
    x.Some? && x.value != 0
  }

  // ---------------------------------------------------------------------------
  // The `\s` class of regular expressions, also what trim() and parseInt skip
  // (WhiteSpace and LineTerminator of ECMA-262).
  // ---------------------------------------------------------------------------

  predicate IsWhitespace(c: char)
  {
    var k := c as int;
    k == 0x09 || k == 0x0A || k == 0x0B || k == 0x0C || k == 0x0D || k == 0x20
    || k == 0xA0 || k == 0x1680 || (0x2000 <= k <= 0x200A)
    || k == 0x2028 || k == 0x2029 || k == 0x202F || k == 0x205F
    || k == 0x3000 || k == 0xFEFF
  }

  /** Drops leading whitespace. */
  function TrimStart(s: string): (r: string)
    ensures |r| <= |s| && r == s[|s| - |r|..]
    ensures forall i :: 0 <= i < |s| - |r| ==> IsWhitespace(s[i])
    ensures r == [] || !IsWhitespace(r[0])
  {
    if s != [] && IsWhitespace(s[0]) then TrimStart(s[1..]) else s
  }

  /** Drops trailing whitespace. */
  function TrimEnd(s: string): (r: string)
    ensures |r| <= |s| && r == s[..|r|]
    ensures forall i :: |r| <= i < |s| ==> IsWhitespace(s[i])
    ensures r == [] || !IsWhitespace(r[|r| - 1])
  {
    if s != [] && IsWhitespace(s[|s| - 1]) then TrimEnd(s[..|s| - 1]) else s
  }

  /** String.prototype.trim. */
  function Trim(s: string): string
  {
    TrimEnd(TrimStart(s))
  }

  /** trim() gives the empty string exactly for all-whitespace input. */
  lemma TrimEmptyIff(s: string)
    ensures Trim(s) == "" <==> forall i :: 0 <= i < |s| ==> IsWhitespace(s[i])
  {
    var t := TrimStart(s);
    if Trim(s) == "" {
      forall i | 0 <= i < |s| ensures IsWhitespace(s[i]) {
        if i >= |s| - |t| {
          assert s[i] == t[i - (|s| - |t|)];
        }
      }
    } else {
      var r := Trim(s);
      assert r[0] == t[0];
      assert t[0] == s[|s| - |t|];
    }
  }

  // ---------------------------------------------------------------------------
  // parseInt(string) with no radix
  // ---------------------------------------------------------------------------

  /** The value of a hexadecimal digit, or -1 for any other character. */
  function HexValue(c: char): int
  {
    if '0' <= c <= '9' then c as int - '0' as int
    else if 'a' <= c <= 'f' then c as int - 'a' as int + 10
    else if 'A' <= c <= 'F' then c as int - 'A' as int + 10
    else -1
  }

  predicate IsDigit(c: char, radix: int)
  {
    0 <= HexValue(c) < radix
  }

  /** Length of the longest prefix of s made of radix digits. */
  function DigitPrefixLength(s: string, radix: int): (k: nat)
    ensures k <= |s|
    ensures forall i :: 0 <= i < k ==> IsDigit(s[i], radix)
    ensures k < |s| ==> !IsDigit(s[k], radix)
  {
    if s != [] && IsDigit(s[0], radix) then 1 + DigitPrefixLength(s[1..], radix) else 0
  }

  /** The value of a string of radix digits, most significant first. */
  function DigitsValue(s: string, radix: nat): nat
  {
    if s == [] then 0
    else DigitsValue(s[..|s| - 1], radix) * radix
         + (var d := HexValue(s[|s| - 1]); if d < 0 then 0 else d)
  }

  /**
   * The digits after the sign: radix 16 on a "0x"/"0X" prefix, radix 10
   * otherwise, then the longest run of digits. None when there is none.
   */
  function ParseUnsigned(u: string): Option<nat>
  {
    var hex := |u| >= 2 && u[0] == '0' && (u[1] == 'x' || u[1] == 'X');
    var radix := if hex then 16 else 10;
    var body := if hex then u[2..] else u;
    var k := DigitPrefixLength(body, radix);
    if k == 0 then None else Some(DigitsValue(body[..k], radix))
  }

  /**
   * parseInt(s): skip leading whitespace, take an optional sign, then read
   * the digits. None stands for NaN (no digit at all).
   */
  function ParseInt(s: string): Option<int>
  {
    var t := TrimStart(s);
    if |t| > 0 && t[0] == '-' then
      match ParseUnsigned(t[1..])
      case None => None
      case Some(v) => Some(-(v as int))
    else if |t| > 0 && t[0] == '+' then
      match ParseUnsigned(t[1..])
      case None => None
      case Some(v) => Some(v as int)
    else
      match ParseUnsigned(t)
      case None => None
      case Some(v) => Some(v as int)
  }

  /** The decimal numeral of n, as String(n) writes it. */
  function DecimalString(n: nat): (s: string)
    ensures |s| >= 1
    ensures forall i :: 0 <= i < |s| ==> '0' <= s[i] <= '9'
    ensures n > 0 ==> s[0] != '0'
    decreases n
  {
    var last := ['0' + (n % 10) as char];
    if n < 10 then last else DecimalString(n / 10) + last
  }

  lemma {:induction false} DecimalDigitsValue(n: nat)
    ensures DigitsValue(DecimalString(n), 10) == n
    decreases n
  {
    var s := DecimalString(n);
    if n >= 10 {
      DecimalDigitsValue(n / 10);
      assert s[..|s| - 1] == DecimalString(n / 10);
    }
  }

  /** parseInt reads back exactly the integer that String(n) printed. */
  lemma ParseIntOfDecimal(n: nat)
    ensures ParseInt(DecimalString(n)) == Some(n)
  {
    var s := DecimalString(n);
    assert !IsWhitespace(s[0]);
    assert TrimStart(s) == s;
    assert !(|s| > 0 && s[0] == '-');
    assert !(|s| > 0 && s[0] == '+');
    UnsignedOfDecimal(n);
  }

  /** ... and the negative numeral gives back the negated integer. */
  lemma ParseIntOfNegativeDecimal(n: nat)
    ensures ParseInt("-" + DecimalString(n)) == Some(-(n as int))
  {
    UnsignedOfDecimal(n);
    NegatedDigits(DecimalString(n), n);
  }

  lemma NegatedDigits(u: string, v: nat)
    requires ParseUnsigned(u) == Some(v)
    ensures ParseInt("-" + u) == Some(-(v as int))
  {
    ParseIntAfterMinus(u);
  }

  /** A leading minus sign negates whatever the digits after it read as. */
  lemma ParseIntAfterMinus(u: string)
    ensures ParseInt("-" + u) == match ParseUnsigned(u)
                                 case None => None
                                 case Some(v) => Some(-(v as int))
  {
    var m := "-" + u;
    assert m[0] == '-' && !IsWhitespace(m[0]);
    assert TrimStart(m) == m;
    assert m[1..] == u;
  }

  lemma UnsignedOfDecimal(n: nat)
    ensures ParseUnsigned(DecimalString(n)) == Some(n)
  {
    var s := DecimalString(n);
    DigitRunIsPrefix(s, 10);
    assert s[..|s|] == s;
    DecimalDigitsValue(n);
  }

  lemma {:induction false} DigitRunIsPrefix(s: string, radix: int)
    requires forall i :: 0 <= i < |s| ==> IsDigit(s[i], radix)
    ensures DigitPrefixLength(s, radix) == |s|
  {
    if s != [] {
      DigitRunIsPrefix(s[1..], radix);
    }
  }
}
