/** Reading and printing of unsigned numbers as the C library does it (`strtoul`, `%d`, `%x`). */
module Numerals {
  const ULONG_MAX := 0xFFFF_FFFF_FFFF_FFFF

  /** The value of a digit, or 36 if the character is none. */
  function DigitValue(c: char): (d: nat)
    ensures d <= 36
  {
    if '0' <= c <= '9' then c as int - '0' as int
    else if 'a' <= c <= 'z' then c as int - 'a' as int + 10
    else if 'A' <= c <= 'Z' then c as int - 'A' as int + 10
    else 36
  }

  predicate IsSpace(c: char) {
    c == ' ' || '\t' <= c <= '\r'
  }

  function SkipSpace(s: string, i: nat): (j: nat)
    requires i <= |s|
    ensures i <= j <= |s|
    decreases |s| - i
  {
    if i < |s| && IsSpace(s[i]) then SkipSpace(s, i + 1) else i
  }

  /** Reads digits of the base from `i` on: the number built up and where the digits end. */
  function ScanDigits(s: string, i: nat, base: nat, acc: nat): (r: (nat, nat))
    requires i <= |s| && base <= 36
    ensures i <= r.1 <= |s|
    decreases |s| - i
  {
    if i < |s| && DigitValue(s[i]) < base then ScanDigits(s, i + 1, base, acc * base + DigitValue(s[i]))
    else (acc, i)
  }

  /** A `0x` prefix at `i` that is followed by a hexadecimal digit. */
  predicate HexPrefix(s: string, i: nat) {
    i + 2 < |s| && s[i] == '0' && (s[i + 1] == 'x' || s[i + 1] == 'X') && DigitValue(s[i + 2]) < 16
  }

  /** `strtoul` from index `i`: the value and the index after the number, which is `i` itself if
      there is none. Base 0 lets a prefix choose; too large a number gives the largest one. */
  function Strtoul(s: string, i: nat, base: nat): (r: (nat, nat))
    requires i <= |s| && base <= 36
    ensures i <= r.1 <= |s|
  {
    var a := SkipSpace(s, i);
    var signed := a < |s| && (s[a] == '-' || s[a] == '+');
    var b := if signed then a + 1 else a;
    var hex := (base == 0 || base == 16) && HexPrefix(s, b);
    var radix := if base != 0 then base else if hex then 16 else if b < |s| && s[b] == '0' then 8 else 10;
    var start := if hex then b + 2 else b;
    var (v, e) := ScanDigits(s, start, radix, 0);
    if e == start then (0, i)
    else if v > ULONG_MAX then (ULONG_MAX, e)
    else if signed && s[a] == '-' && v > 0 then (ULONG_MAX + 1 - v, e)
    else (v, e)
  }

  function DigitChar(d: nat): (c: char)
    requires d < 16
    ensures DigitValue(c) == d && !('A' <= c <= 'F')
  {
    if d < 10 then (d + '0' as int) as char else (d - 10 + 'a' as int) as char
  }

  function Quot(n: nat, base: nat): (q: nat)
    requires base == 10 || base == 16
    ensures n >= base ==> 0 < q < n
  {
    if base == 10 then n / 10 else n / 16
  }

  function Rem(n: nat, base: nat): (r: nat)
    requires base == 10 || base == 16
    ensures r < base && Quot(n, base) * base + r == n
  {
    if base == 10 then n % 10 else n % 16
  }

  /** The shortest decimal or hexadecimal numeral of a number. */
  function Digits(n: nat, base: nat): (t: string)
    requires base == 10 || base == 16
    ensures t != "" && forall i | 0 <= i < |t| :: DigitValue(t[i]) < base
    decreases n
  {
    if n < base then [DigitChar(n)] else Digits(Quot(n, base), base) + [DigitChar(Rem(n, base))]
  }

  /** The number that a numeral stands for, on top of what was read before. */
  function Value(t: string, base: nat, acc: nat): nat {
    if t == "" then acc else Value(t[1..], base, acc * base + DigitValue(t[0]))
  }

  lemma {:induction false} ValueSnoc(t: string, c: char, base: nat, acc: nat)
    ensures Value(t + [c], base, acc) == Value(t, base, acc) * base + DigitValue(c)
    decreases |t|
  {
    if t == "" {
      assert Value([c][1..], base, acc * base + DigitValue(c)) == acc * base + DigitValue(c);
    } else {
      assert (t + [c])[1..] == t[1..] + [c];
      ValueSnoc(t[1..], c, base, acc * base + DigitValue(t[0]));
    }
  }

  /** A printed number reads as itself. */
  lemma {:induction false} ValueOfDigits(n: nat, base: nat)
    requires base == 10 || base == 16
    ensures Value(Digits(n, base), base, 0) == n
    decreases n
  {
    if n >= base {
      ValueOfDigits(Quot(n, base), base);
      ValueSnoc(Digits(Quot(n, base), base), DigitChar(Rem(n, base)), base, 0);
    } else {
      assert Value([DigitChar(n)][1..], base, n) == n;
    }
  }

  /** Only zero is printed with a leading zero. */
  lemma {:induction false} NoLeadingZero(n: nat, base: nat)
    requires base == 10 || base == 16
    ensures Digits(n, base)[0] == '0' ==> n == 0
    decreases n
  {
    if n >= base {
      NoLeadingZero(Quot(n, base), base);
      assert Quot(n, base) > 0;
    }
  }

  /** The text `t` stands in `s` at `i`. */
  ghost predicate Has(s: string, i: nat, t: string) {
    i + |t| <= |s| && forall k | 0 <= k < |t| :: s[i + k] == t[k]
  }

  /** A numeral that ends where no digit follows is read whole. */
  lemma {:induction false} ScanNumeral(s: string, i: nat, t: string, base: nat, acc: nat)
    requires base <= 36 && Has(s, i, t) && forall k | 0 <= k < |t| :: DigitValue(t[k]) < base
    requires i + |t| < |s| ==> DigitValue(s[i + |t|]) >= base
    ensures ScanDigits(s, i, base, acc) == (Value(t, base, acc), i + |t|)
    decreases |t|
  {
    if t != "" {
      assert s[i + 0] == t[0];
      assert Has(s, i + 1, t[1..]) by {
        forall k | 0 <= k < |t[1..]| ensures s[i + 1 + k] == t[1..][k] { assert s[i + (k + 1)] == t[k + 1]; }
      }
      ScanNumeral(s, i + 1, t[1..], base, acc * base + DigitValue(t[0]));
    }
  }

  /** A hexadecimal numeral without prefix, up to a character that is neither digit nor `x`. */
  lemma ReadHex(s: string, i: nat, t: string)
    requires t != "" && Has(s, i, t) && forall k | 0 <= k < |t| :: DigitValue(t[k]) < 16
    requires i + |t| < |s| ==> DigitValue(s[i + |t|]) >= 16 && s[i + |t|] != 'x' && s[i + |t|] != 'X'
    requires Value(t, 16, 0) <= ULONG_MAX
    ensures Strtoul(s, i, 16) == (Value(t, 16, 0), i + |t|)
  {
    assert s[i + 0] == t[0] && (|t| > 1 ==> s[i + 1] == t[1]);
    assert !HexPrefix(s, i);
    ScanNumeral(s, i, t, 16, 0);
  }

  /** A printed decimal number, read with the base left open, is not mistaken for octal. */
  lemma ReadDecimal(s: string, i: nat, n: nat)
    requires n <= ULONG_MAX && Has(s, i, Digits(n, 10))
    requires var e := i + |Digits(n, 10)|; e < |s| ==> DigitValue(s[e]) == 36
    ensures Strtoul(s, i, 0) == (n, i + |Digits(n, 10)|)
  {
    var t := Digits(n, 10);
    assert s[i + 0] == t[0] && (|t| > 1 ==> s[i + 1] == t[1]);
    assert !HexPrefix(s, i);
    NoLeadingZero(n, 10);
    ValueOfDigits(n, 10);
    ScanNumeral(s, i, t, if n == 0 then 8 else 10, 0);
  }

  // What may stand around the digits

  /** Letters count on from ten in the order of the alphabet, in both cases; white space is the blank
      and the five control characters from the tab to the carriage return. */
  lemma Characters(c: char)
    ensures 'a' <= c < 'z' ==> DigitValue((c as int + 1) as char) == DigitValue(c) + 1
    ensures 'A' <= c <= 'Z' ==> DigitValue(c) == DigitValue((c as int - 'A' as int + 'a' as int) as char)
    ensures DigitValue('a') == 10 && DigitValue('z') == 35
    ensures IsSpace(c) <==> c as int in {0x20, 9, 10, 11, 12, 13}
  {
  }

  /** White space in front changes nothing but the index handed back if there is no number. */
  lemma SpaceIgnored(s: string, i: nat, k: nat, base: nat)
    requires i <= k <= |s| && base <= 36 && forall j | i <= j < k :: IsSpace(s[j])
    ensures var (v, e) := Strtoul(s, k, base); Strtoul(s, i, base) == (v, if e == k then i else e)
  {
    SpaceSkipped(s, i, k);
  }

  lemma {:induction false} SpaceSkipped(s: string, i: nat, k: nat)
    requires i <= k <= |s| && forall j | i <= j < k :: IsSpace(s[j])
    ensures SkipSpace(s, i) == SkipSpace(s, k)
    decreases k - i
  {
    if i < k {
      SpaceSkipped(s, i + 1, k);
    }
  }

  /** One sign is allowed, directly in front of the number; a minus negates modulo 2^64. */
  lemma SignApplies(s: string, i: nat, base: nat)
    requires i < |s| && base <= 36 && (s[i] == '+' || s[i] == '-')
    ensures i + 1 < |s| && (IsSpace(s[i + 1]) || s[i + 1] == '+' || s[i + 1] == '-') ==> Strtoul(s, i, base) == (0, i)
    ensures i + 1 < |s| && DigitValue(s[i + 1]) < 36 ==>
              var (v, e), (w, z) := Strtoul(s, i, base), Strtoul(s, i + 1, base);
              && e == (if z == i + 1 then i else z)
              && (s[i] == '+' ==> v == w)
              && (s[i] == '-' && w < ULONG_MAX ==> (v + w) % (ULONG_MAX + 1) == 0 && v <= ULONG_MAX)
              && (s[i] == '-' && w == ULONG_MAX ==> v == 1 || v == ULONG_MAX)
  {
  }

  /** Behind `0x` or `0X` the digits are hexadecimal, and too large a number is the largest one. */
  lemma ReadPrefixed(s: string, i: nat, t: string, base: nat)
    requires (base == 0 || base == 16) && i + 2 <= |s| && s[i] == '0' && (s[i + 1] == 'x' || s[i + 1] == 'X')
    requires Has(s, i + 2, t) && t != "" && forall k | 0 <= k < |t| :: DigitValue(t[k]) < 16
    requires var e := i + 2 + |t|; e < |s| ==> DigitValue(s[e]) >= 16
    ensures Strtoul(s, i, base) == (if Value(t, 16, 0) <= ULONG_MAX then Value(t, 16, 0) else ULONG_MAX, i + 2 + |t|)
  {
    assert s[i + 2 + 0] == t[0];
    ScanNumeral(s, i + 2, t, 16, 0);
  }

  /** Without a digit behind it the prefix is a zero and an `x`. */
  lemma PrefixAlone(s: string, i: nat, base: nat)
    requires (base == 0 || base == 16) && i + 2 <= |s| && s[i] == '0' && (s[i + 1] == 'x' || s[i + 1] == 'X')
    requires i + 2 < |s| ==> DigitValue(s[i + 2]) >= 16
    ensures Strtoul(s, i, base) == (0, i + 1)
  {
    ScanNumeral(s, i, "0", if base == 0 then 8 else 16, 0);
  }

  /** With the base left open a leading zero makes a number octal. */
  lemma ReadOctal(s: string, i: nat, t: string)
    requires t != "" && t[0] == '0' && Has(s, i, t) && forall k | 0 <= k < |t| :: DigitValue(t[k]) < 8
    requires i + |t| < |s| ==> DigitValue(s[i + |t|]) == 36 || 8 <= DigitValue(s[i + |t|]) < 10
    ensures Strtoul(s, i, 0) == (if Value(t, 8, 0) <= ULONG_MAX then Value(t, 8, 0) else ULONG_MAX, i + |t|)
  {
    assert s[i + 0] == t[0] && (|t| > 1 ==> s[i + 1] == t[1]);
    assert !HexPrefix(s, i);
    ScanNumeral(s, i, t, 8, 0);
  }
}
