/**
 * Integer widths, radix rendering and parsing as the source's `format!`
 * calls, `{:X}` and `str::parse::<u64>` perform them, and the string facts
 * the key and display formats rely on.
 */
module Fmt {
  import opened Wrappers

  /** Rust's fixed-width unsigned integers. */
  type U16 = n: nat | n < 0x1_0000
  type U32 = n: nat | n < 0x1_0000_0000
  type U64 = n: nat | n < 0x1_0000_0000_0000_0000

  const TWO_POW_32: nat := 0x1_0000_0000
  const TWO_POW_64: nat := 0x1_0000_0000_0000_0000

  function Pow2(k: nat): (p: nat)
    ensures p >= 1
  {
    if k == 0 then 1 else 2 * Pow2(k - 1)
  }

  /** `Pow2` turns sums of exponents into products. */
  lemma {:induction false} Pow2Add(a: nat, b: nat)
    ensures Pow2(a + b) == Pow2(a) * Pow2(b)
    decreases b
  {
    if b > 0 {
      Pow2Add(a, b - 1);
      assert Pow2(a + b) == 2 * Pow2(a + b - 1);
      assert Pow2(b) == 2 * Pow2(b - 1);
    }
  }

  lemma Pow2Of16()
    ensures Pow2(16) == 0x1_0000
  {
    assert Pow2(4) == 16;
    Pow2Add(4, 4);
    Pow2Add(8, 8);
  }

  lemma Pow2Of32()
    ensures Pow2(32) == TWO_POW_32
  {
    Pow2Of16();
    Pow2Add(16, 16);
  }

  lemma Pow2Of64()
    ensures Pow2(64) == TWO_POW_64
  {
    Pow2Of32();
    Pow2Add(32, 32);
  }

  /** `a << k` on a u64: the bits shifted past bit 63 are lost. */
  function Shl64(a: nat, k: nat): U64
  {
    (a * Pow2(k)) % TWO_POW_64
  }

  /** The character of digit `d`; letters are upper case, as `{:X}` prints them. */
  function DigitChar(d: nat): (c: char)
    requires d < 16
    ensures DigitValue(c) == Some(d)
  {
    if d < 10 then (48 + d) as char else (55 + d) as char
  }

  /** The value of a digit character, or None for any other character. */
  function DigitValue(c: char): Option<nat>
  {
    if '0' <= c <= '9' then Some(c as nat - 48)
    else if 'A' <= c <= 'F' then Some(c as nat - 55)
    else None
  }

  predicate IsDigit(c: char, base: nat)
  {
    DigitValue(c).Some? && DigitValue(c).value < base
  }

  predicate AllDigits(s: string, base: nat)
  {
    forall i :: 0 <= i < |s| ==> IsDigit(s[i], base)
  }

  /** `n` written in `base` with no leading zeros; zero is "0". */
  function Radix(n: nat, base: nat): (s: string)
    requires 2 <= base <= 16
    ensures |s| >= 1 && AllDigits(s, base)
    decreases n
  {
    if n < base then [DigitChar(n)]
    else Radix(n / base, base) + [DigitChar(n % base)]
  }

  /** The number a string of digits denotes, most significant digit first. */
  function DigitsValue(s: string, base: nat): nat
    requires AllDigits(s, base)
    decreases |s|
  {
    if s == [] then 0
    else DigitsValue(s[..|s| - 1], base) * base + DigitValue(s[|s| - 1]).value
  }

  /** Decimal, as `{}` renders an unsigned integer. */
  function Dec(n: nat): string
  {
    Radix(n, 10)
  }

  /** Upper-case hexadecimal without leading zeros, as `{:X}` renders it. */
  function UpperHex(n: nat): string
  {
    Radix(n, 16)
  }

  lemma {:induction false} RadixRoundTrip(n: nat, base: nat)
    requires 2 <= base <= 16
    ensures DigitsValue(Radix(n, base), base) == n
    decreases n
  {
    if n >= base {
      DivLess(n, base);
      RadixRoundTrip(n / base, base);
      RadixRoundTripStep(n, base);
    }
  }

  /** One more digit: the value of `Radix(n)` follows from that of `Radix(n / base)`. */
  lemma RadixRoundTripStep(n: nat, base: nat)
    requires 2 <= base <= n && base <= 16
    requires DigitsValue(Radix(n / base, base), base) == n / base
    ensures DigitsValue(Radix(n, base), base) == n
  {
    var q, r := n / base, n % base;
    DivMod(n, base);
    assert Radix(n, base) == Radix(q, base) + [DigitChar(r)];
    DigitsValueSnoc(Radix(q, base), r, base);
  }

  lemma DivLess(n: nat, base: nat)
    requires 2 <= base <= n
    ensures n / base < n
  {
    var q := n / base;
    assert q * base <= n;
    assert q * base == 2 * q + q * (base - 2);
    assert q * (base - 2) >= 0;
  }

  lemma DigitsValueSnoc(p: string, d: nat, base: nat)
    requires 2 <= base <= 16 && d < base && AllDigits(p, base)
    ensures AllDigits(p + [DigitChar(d)], base)
    ensures DigitsValue(p + [DigitChar(d)], base) == DigitsValue(p, base) * base + d
  {
    var s := p + [DigitChar(d)];
    assert s[..|s| - 1] == p;
  }

  lemma DivMod(n: nat, base: nat)
    requires base > 0
    ensures (n / base) * base + n % base == n
  {
  }

  /** Rendering is injective: distinct numbers never print alike. */
  lemma RadixInjective(a: nat, b: nat, base: nat)
    requires 2 <= base <= 16
    requires Radix(a, base) == Radix(b, base)
    ensures a == b
  {
    RadixRoundTrip(a, base);
    RadixRoundTrip(b, base);
  }

  /** The first digit is never '0' unless the number is zero itself. */
  lemma {:induction false} RadixNoLeadingZero(n: nat, base: nat)
    requires 2 <= base <= 16
    ensures Radix(n, base)[0] == '0' <==> n == 0
    decreases n
  {
    if n >= base {
      var q := n / base;
      DivLess(n, base);
      DivMod(n, base);
      assert q != 0;
      RadixNoLeadingZero(q, base);
      assert Radix(n, base)[0] == Radix(q, base)[0];
    }
  }

  /** A character that is not a digit never occurs in a rendered number. */
  lemma RadixAvoids(n: nat, base: nat, c: char)
    requires 2 <= base <= 16
    requires DigitValue(c).None?
    ensures c !in Radix(n, base)
  {
    var s := Radix(n, base);
    forall i | 0 <= i < |s|
      ensures s[i] != c
    {
      assert IsDigit(s[i], base);
    }
  }

  /**
   * Rust's `u64::from_str`: an optional '+', then one or more decimal
   * digits whose value fits in 64 bits.
   */
  function ParseU64(s: string): Option<U64>
  {
    var digits := if |s| > 0 && s[0] == '+' then s[1..] else s;
    if |digits| == 0 || !AllDigits(digits, 10) then None
    else
      var v := DigitsValue(digits, 10);
      if v < TWO_POW_64 then Some(v) else None
  }

  lemma ParseU64Dec(n: U64)
    ensures ParseU64(Dec(n)) == Some(n)
  {
    RadixRoundTrip(n, 10);
    assert DigitValue(Dec(n)[0]).Some?;
  }

  /** Parsing forgets leading zeros, so distinct strings can denote the same id. */
  lemma ParseU64NotInjective()
    ensures ParseU64("05") == ParseU64("5") == Some(5)
  {
    assert "05"[..1] == "0";
  }

  /** Position of the first `c` in `s`, or `|s|` when there is none. */
  function IndexOf(s: string, c: char): (i: nat)
    ensures i <= |s|
    ensures i < |s| ==> s[i] == c
    ensures forall j :: 0 <= j < i ==> s[j] != c
  {
    if s == [] then 0
    else if s[0] == c then 0
    else 1 + IndexOf(s[1..], c)
  }

  lemma {:induction false} IndexOfAfter(a: string, c: char, rest: string)
    requires c !in a
    ensures IndexOf(a + [c] + rest, c) == |a|
  {
    if a != [] {
      assert (a + [c] + rest)[1..] == a[1..] + [c] + rest;
      IndexOfAfter(a[1..], c, rest);
    }
  }

  /**
   * A string built as `a + [c] + b` with no `c` in `a` splits uniquely at
   * its first `c`.
   */
  lemma SplitAtFirst(a: string, b: string, a': string, b': string, c: char)
    requires c !in a && c !in a'
    requires a + [c] + b == a' + [c] + b'
    ensures a == a' && b == b'
  {
    IndexOfAfter(a, c, b);
    IndexOfAfter(a', c, b');
    var s := a + [c] + b;
    assert a == s[..|a|] && a' == s[..|a'|];
    assert b == s[|a| + 1..] && b' == s[|a'| + 1..];
  }

  /**
   * A string built as `a + [c] + b` with no `c` in `b` splits uniquely at
   * its last `c`.
   */
  lemma SplitAtLast(a: string, b: string, a': string, b': string, c: char)
    requires c !in b && c !in b'
    requires a + [c] + b == a' + [c] + b'
    ensures a == a' && b == b'
  {
    var s := a + [c] + b;
    assert s[|a|] == c;
    assert forall k :: 0 <= k < |b| ==> s[|a| + 1 + k] == b[k];
    assert forall k :: 0 <= k < |b'| ==> s[|a'| + 1 + k] == b'[k];
    assert s[|a'|] == c;
    assert |b| == |b'|;
    assert a == s[..|a|] && a' == s[..|a'|];
    assert b == s[|a| + 1..] && b' == s[|a'| + 1..];
  }
}
