/**
 * `parse_int::parse::<u32>` for the strings that configuration conversion
 * hands it, which always carry the "0o" prefix: the rest goes to
 * `u32::from_str_radix(rest, 8)`.
 */
module ParseInt {
  import opened Wrappers
  import opened Text

  const U32_LIMIT: int := 0x1_0000_0000

  type U32 = n: int | 0 <= n < U32_LIMIT

  predicate IsOctalDigit(c: char) { '0' <= c <= '7' }

  predicate AllOctal(ds: string) {
    forall i :: 0 <= i < |ds| ==> IsOctalDigit(ds[i])
  }

  function DigitValue(c: char): (v: nat)
    requires IsOctalDigit(c)
    ensures v < 8
  {
    c as int - '0' as int
  }

  function OctalDigit(v: nat): (c: char)
    requires v < 8
    ensures IsOctalDigit(c) && DigitValue(c) == v
  {
    (v + '0' as int) as char
  }

  /**
   * The number the octal digits stand for. The source accumulates from the
   * left with checked arithmetic; since every partial value is at most the
   * final one, it overflows exactly when this value does not fit.
   */
  function OctalValue(ds: string): nat
    requires AllOctal(ds)
  {
    if ds == [] then 0 else OctalValue(ds[..|ds| - 1]) * 8 + DigitValue(ds[|ds| - 1])
  }

  /** The digits of `src`: what follows one optional leading '+'. */
  function Unsigned(src: string): (d: string)
    ensures |d| <= |src| && d == src[|src| - |d|..]
  {
    if src != [] && src[0] == '+' then src[1..] else src
  }

  /** The texts `from_str_radix` accepts in base 8 for a `u32`. */
  predicate IsOctalLiteral(src: string) {
    var d := Unsigned(src);
    d != [] && AllOctal(d) && OctalValue(d) < U32_LIMIT
  }

  /**
   * `u32::from_str_radix(src, 8)`: an optional '+', then one or more octal
   * digits whose value fits in 32 bits.
   */
  function FromStrRadix8(src: string): (r: Option<U32>)
    ensures r.Some? ==> src != [] && src != "+"
    ensures r.Some? <==> IsOctalLiteral(src)
    ensures r.Some? ==> r.value == OctalValue(Unsigned(src))
  {
    if src == [] then None
    else
      var digits := Unsigned(src);
      if digits == [] || !AllOctal(digits) then None
      else if OctalValue(digits) < U32_LIMIT then Some(OctalValue(digits))
      else None
  }

  /** `parse_int::parse::<u32>` on a "0o"-prefixed string: octal after the prefix. */
  function Parse(s: string): (r: Option<U32>)
    requires StartsWith(s, "0o")
    ensures r.Some? <==> IsOctalLiteral(s[2..])
    ensures r.Some? ==> r.value == OctalValue(Unsigned(s[2..]))
  {
    FromStrRadix8(s[2..])
  }

  /** The octal digits of `n`, most significant first, without leading zeros. */
  function OctalDigits(n: nat): (ds: string)
    ensures ds != [] && AllOctal(ds)
  {
    if n < 8 then [OctalDigit(n)] else OctalDigits(n / 8) + [OctalDigit(n % 8)]
  }

  lemma {:induction false} OctalDigitsValue(n: nat)
    ensures OctalValue(OctalDigits(n)) == n
  {
    if n >= 8 {
      var ds := OctalDigits(n);
      assert ds[..|ds| - 1] == OctalDigits(n / 8);
      OctalDigitsValue(n / 8);
    }
  }

  /** Every 32-bit value written in octal parses back to itself. */
  lemma OctalRoundTrip(n: U32)
    ensures FromStrRadix8(OctalDigits(n)) == Some(n)
  {
    OctalDigitsValue(n);
    assert IsOctalDigit(OctalDigits(n)[0]);
  }

  /** A leading '+' is allowed and changes nothing. */
  lemma PlusSignIgnored(ds: string)
    requires ds != [] && IsOctalDigit(ds[0])
    ensures FromStrRadix8("+" + ds) == FromStrRadix8(ds)
  {
    assert ("+" + ds)[1..] == ds;
  }

  /** Values of 2^32 and above do not parse. */
  lemma OverflowRejected(ds: string)
    requires ds != [] && AllOctal(ds) && OctalValue(ds) >= U32_LIMIT
    ensures FromStrRadix8(ds) == None
  {
  }
}
