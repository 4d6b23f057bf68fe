/** Integers as the source renders and parses them: decimal text (PHP `%d`,
    Rust `{}`), Rust's `u64::from_str`, and the fixed-width wrap-around of
    Rust's unsigned arithmetic and `as` casts. */
module Numbers {
  import opened Wrappers

  const TWO_32: int := 0x1_0000_0000
  const TWO_64: int := 0x1_0000_0000_0000_0000

  /** An octet, and a byte string (a PHP binary string, a Rust `Vec<u8>`). */
  type byte = x: int | 0 <= x < 256
  type Bytes = seq<byte>

  /** Values of Rust's `u32` and `u64`. */
  predicate IsU32(n: int) { 0 <= n < TWO_32 }
  predicate IsU64(n: int) { 0 <= n < TWO_64 }

  const TWO_16: int := 0x1_0000
  type u16 = x: int | 0 <= x < TWO_16
  type u32 = x: int | 0 <= x < TWO_32
  type u64 = x: int | 0 <= x < TWO_64

  /** Rust `as u64` applied to an `i64`, and `wrapping_add` / `fetch_add` on
      a `u64`: the result modulo 2^64. */
  function WrapU64(n: int): (r: nat)
    ensures IsU64(r)
    ensures IsU64(n) ==> r == n
    ensures (r - n) % TWO_64 == 0
  {
    n % TWO_64
  }

  predicate IsDigit(c: char) { '0' <= c <= '9' }

  predicate AllDigits(s: string) { forall i :: 0 <= i < |s| ==> IsDigit(s[i]) }

  function DigitChar(d: nat): (c: char)
    requires d < 10
    ensures IsDigit(c)
  {
    (d + '0' as int) as char
  }

  function DigitValue(c: char): (d: nat)
    requires IsDigit(c)
    ensures d < 10 && DigitChar(d) == c
  {
    c as int - '0' as int
  }

  /** The shortest decimal text of `n`: no sign, no leading zero. */
  function NatToDecimal(n: nat): (s: string)
    ensures |s| >= 1 && AllDigits(s)
    ensures s[0] == '0' ==> n == 0 && s == "0"
  {
    if n < 10 then [DigitChar(n)] else NatToDecimal(n / 10) + [DigitChar(n % 10)]
  }

  /** PHP `%d` and Rust `{}` on a signed integer. */
  function IntToDecimal(i: int): (s: string)
    ensures |s| >= 1
    ensures i >= 0 ==> s == NatToDecimal(i)
    ensures i < 0 ==> s == "-" + NatToDecimal(-i)
  {
    if i >= 0 then NatToDecimal(i) else "-" + NatToDecimal(-i)
  }

  /** The value of a string of decimal digits (leading zeros allowed). */
  function DecimalValue(s: string): nat
    requires AllDigits(s)
  {
    if |s| == 0 then 0 else 10 * DecimalValue(s[..|s| - 1]) + DigitValue(s[|s| - 1])
  }

  /** Reading back the decimal text gives the number. */
  lemma {:induction false} DecimalValueOfNatToDecimal(n: nat)
    ensures DecimalValue(NatToDecimal(n)) == n
  {
    var s := NatToDecimal(n);
    if n >= 10 {
      DecimalValueOfNatToDecimal(n / 10);
      assert s[..|s| - 1] == NatToDecimal(n / 10);
    }
  }

  /** Distinct numbers have distinct decimal texts. */
  lemma NatToDecimalInjective(m: nat, n: nat)
    requires NatToDecimal(m) == NatToDecimal(n)
    ensures m == n
  {
    DecimalValueOfNatToDecimal(m);
    DecimalValueOfNatToDecimal(n);
  }

  /** Distinct integers have distinct `%d` texts. */
  lemma IntToDecimalInjective(i: int, j: int)
    requires IntToDecimal(i) == IntToDecimal(j)
    ensures i == j
  {
    if i >= 0 && j >= 0 {
      NatToDecimalInjective(i, j);
    } else if i < 0 && j < 0 {
      assert IntToDecimal(i)[1..] == NatToDecimal(-i);
      assert IntToDecimal(j)[1..] == NatToDecimal(-j);
      NatToDecimalInjective(-i, -j);
    }
  }

  /** Rust's `str::parse::<u64>()`: one optional leading `+`, then at least
      one ASCII digit and nothing else; values of 2^64 and above overflow.
      A `-` is never accepted for an unsigned type. */
  function ParseU64(s: string): (r: Option<nat>)
    ensures r.Some? ==> IsU64(r.value)
  {
    var digits := if |s| > 0 && s[0] == '+' then s[1..] else s;
    if |digits| == 0 || !AllDigits(digits) then None
    else if DecimalValue(digits) < TWO_64 then Some(DecimalValue(digits))
    else None
  }

  /** Every `u64` rendered in decimal parses back to itself, with or
      without a leading `+`. */
  lemma ParseU64OfDecimal(n: nat)
    requires IsU64(n)
    ensures ParseU64(NatToDecimal(n)) == Some(n)
    ensures ParseU64("+" + NatToDecimal(n)) == Some(n)
  {
    DecimalValueOfNatToDecimal(n);
    assert ("+" + NatToDecimal(n))[1..] == NatToDecimal(n);
  }

  /** Numbers of 2^64 and above do not parse as a `u64`. */
  lemma ParseU64Overflow(n: nat)
    requires !IsU64(n)
    ensures ParseU64(NatToDecimal(n)) == None
  {
    DecimalValueOfNatToDecimal(n);
  }

  /** The empty string, a lone sign and any text holding a character other
      than a digit (after the optional `+`) fail to parse. */
  lemma ParseU64Rejects(s: string, i: nat)
    requires i < |s| && !IsDigit(s[i]) && !(i == 0 && s[0] == '+' && |s| > 1)
    ensures ParseU64(s) == None
  {
    if s[0] == '+' && i > 0 {
      assert s[1..][i - 1] == s[i];
    }
  }
}
