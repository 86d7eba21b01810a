/**
 * Decimal text for block ids: `std::to_string` on the labeler's 64-bit counter
 * writes it, `std::stoll` in the instrumentors reads it back.
 */
module Decimal {
  import opened Wrappers
  import opened Strings

  const Int64Min: int := -0x8000_0000_0000_0000
  const Int64Max: int := 0x7FFF_FFFF_FFFF_FFFF
  const U64Modulus: int := 0x1_0000_0000_0000_0000

  /** A `uint64_t` value. */
  type U64 = x: int | 0 <= x < U64Modulus

  predicate IsDigit(c: char) {
    '0' <= c <= '9'
  }

  predicate AllDigits(s: string) {
    forall i :: 0 <= i < |s| ==> IsDigit(s[i])
  }

  function DigitChar(d: nat): (c: char)
    requires d < 10
    ensures IsDigit(c) && c as int - '0' as int == d
  {
    ('0' as int + d) as char
  }

  /** `std::to_string(n)` for an unsigned `n`: its decimal digits, no sign, no leading zero. */
  function ToDecimal(n: nat): (s: string)
    ensures |s| >= 1 && AllDigits(s)
    ensures s[0] == '0' ==> n == 0 && s == "0"
  {
    if n < 10 then [DigitChar(n)] else ToDecimal(n / 10) + [DigitChar(n % 10)]
  }

  /** The number a string of decimal digits spells. */
  function DigitsValue(s: string): nat
    requires AllDigits(s)
  {
    if s == [] then 0 else DigitsValue(s[..|s| - 1]) * 10 + (s[|s| - 1] as int - '0' as int)
  }

  /** Reading the digits back gives the number that was written. */
  lemma {:induction false} DigitsValueOfDecimal(n: nat)
    ensures DigitsValue(ToDecimal(n)) == n
  {
    if n >= 10 {
      DigitsValueOfDecimal(n / 10);
      var s := ToDecimal(n);
      assert s[..|s| - 1] == ToDecimal(n / 10);
    }
  }

  /** Distinct ids get distinct annotations. */
  lemma ToDecimalInjective(a: nat, b: nat)
    ensures ToDecimal(a) == ToDecimal(b) <==> a == b
  {
    if ToDecimal(a) == ToDecimal(b) {
      DigitsValueOfDecimal(a);
      DigitsValueOfDecimal(b);
    }
  }

  /** The longest prefix of `s` made of decimal digits. */
  function DigitPrefix(s: string): (d: string)
    ensures |d| <= |s| && d == s[..|d|] && AllDigits(d)
    ensures |d| < |s| ==> !IsDigit(s[|d|])
  {
    if s != [] && IsDigit(s[0]) then [s[0]] + DigitPrefix(s[1..]) else []
  }

  /** What `strtoll` and `strtoull` scan: after leading white space, an optional sign and the longest run of digits. */
  function Scan(s: string): (r: (bool, string))
    ensures AllDigits(r.1)
  {
    var t := TrimLeft(s);
    var negative := |t| > 0 && t[0] == '-';
    var u := if |t| > 0 && (t[0] == '-' || t[0] == '+') then t[1..] else t;
    (negative, DigitPrefix(u))
  }

  /**
   * `std::stoll(s)`: the scanned number, whatever follows ignored.  `None` stands
   * for the two exceptions it throws: no digits (`invalid_argument`) and a value
   * outside `int64_t` (`out_of_range`).
   */
  function Stoll(s: string): (r: Option<int>)
    ensures r.Some? ==> Int64Min <= r.value <= Int64Max
  {
    var (negative, d) := Scan(s);
    if d == [] then None
    else
      var mag: int := DigitsValue(d);
      var v := if negative then 0 - mag else mag;
      if Int64Min <= v <= Int64Max then Some(v) else None
  }

  /**
   * `std::stoull(s)`: the same scan; a magnitude above `2^64 - 1` is out of
   * range, and a minus sign negates modulo `2^64`, as `strtoull` does.
   */
  function Stoull(s: string): (r: Option<U64>)
  {
    var (negative, d) := Scan(s);
    if d == [] then None
    else
      var mag: int := DigitsValue(d);
      if mag >= U64Modulus then None
      else if negative then Some((U64Modulus - mag) % U64Modulus)
      else Some(mag)
  }

  /** A text with no digit where `stoll` looks for one is rejected. */
  lemma StollNeedsDigits(s: string)
    requires s == [] || (!IsDigit(s[0]) && !IsSpace(s[0]) && s[0] != '-' && s[0] != '+')
    ensures Stoll(s) == None
  {
  }

  /** Scanning digits, with or without a leading minus sign, reads the sign and all of the digits. */
  lemma ScanSignedDigits(minus: bool, s: string)
    requires s != [] && AllDigits(s)
    ensures Scan(if minus then "-" + s else s) == (minus, s)
  {
    var t := if minus then "-" + s else s;
    assert t[0] == (if minus then '-' else s[0]);
    assert TrimLeft(t) == t;
    if minus {
      assert t[1..] == s;
    }
    DigitPrefixOfDigits(s);
  }

  /** The identity contract between the passes: `stoll(to_string(n)) == n` for every id in range. */
  lemma StollOfDecimal(n: nat)
    requires n <= Int64Max
    ensures Stoll(ToDecimal(n)) == Some(n)
  {
    ScanSignedDigits(false, ToDecimal(n));
    DigitsValueOfDecimal(n);
  }

  /** `stoull(to_string(n)) == n` for every unsigned 64-bit `n`. */
  lemma StoullOfDecimal(n: nat)
    requires n < U64Modulus
    ensures Stoull(ToDecimal(n)) == Some(n)
  {
    ScanSignedDigits(false, ToDecimal(n));
    DigitsValueOfDecimal(n);
  }

  /** A leading minus sign wraps: `stoull("-n")` is `2^64 - n` for `0 < n < 2^64`. */
  lemma StoullNegative(n: nat)
    requires 0 < n < U64Modulus
    ensures Stoull("-" + ToDecimal(n)) == Some(U64Modulus - n)
  {
    ScanSignedDigits(true, ToDecimal(n));
    DigitsValueOfDecimal(n);
    WrapSmall(U64Modulus - n);
  }

  /** A value already below `2^64` is its own remainder. */
  lemma WrapSmall(x: int)
    requires 0 <= x < U64Modulus
    ensures x % U64Modulus == x
  {
  }

  lemma {:induction false} DigitPrefixOfDigits(s: string)
    requires AllDigits(s)
    ensures DigitPrefix(s) == s
  {
    if s != [] {
      DigitPrefixOfDigits(s[1..]);
    }
  }
}
