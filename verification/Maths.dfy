/** The bitwise integer square root (`isqrt`), computed in 32-bit words. */
module Maths {
  /** A 32-bit unsigned word; the verifier checks that no operation leaves its range. */
  newtype uint32 = x: int | 0 <= x < 0x1_0000_0000

  function Pow2(k: nat): (r: nat)
    ensures r >= 1
  {
    if k == 0 then 1 else 2 * Pow2(k - 1)
  }

  /** `a << k` before any truncation. */
  function Shl(a: nat, k: nat): nat {
    a * Pow2(k)
  }

  /** `a | (1 << j)`: sets bit `j` of `a`. */
  function SetBit(a: nat, j: nat): nat {
    if (a / Pow2(j)) % 2 == 1 then a else a + Pow2(j)
  }

  /** A multiple of 2^(j+1) has bit `j` clear. */
  lemma SetBitOfMultiple(a: nat, q: nat, j: nat)
    requires a == q * Pow2(j + 1)
    ensures SetBit(a, j) == a + Pow2(j) == (2 * q + 1) * Pow2(j)
  {
    var p := Pow2(j);
    assert a == (2 * q) * p by { assert q * (2 * p) == (2 * q) * p; }
    assert a / p == 2 * q by { DivExact(2 * q, p); }
    assert (2 * q + 1) * p == (2 * q) * p + p;
  }

  lemma MulSmall(d: int, p: nat)
    requires d != 0
    ensures d * p >= p || d * p <= 0 - p
  {
    var e := if d > 0 then d - 1 else -d - 1;
    assert e * p >= 0;
    assert d * p == if d > 0 then e * p + p else -(e * p + p);
  }

  lemma DivExact(q: nat, p: nat)
    requires p > 0
    ensures q * p / p == q
  {
    var n := q * p;
    var r := n / p;
    assert n == r * p + n % p;
    assert (q - r) * p == n % p;
    if r != q { MulSmall(q - r, p); }
  }

  lemma SquareStep(a: nat, p: nat, top: nat)
    requires 1 <= p && a + 2 * p <= top <= 0x1_0000
    ensures a * (2 * p) <= a * a + a * (2 * p) + p * p == (a + p) * (a + p) <= 0xFFFF * 0xFFFF
  {
    var t := a + p;
    assert t <= 0xFFFF;
    assert t * t <= 0xFFFF * 0xFFFF by { MulMono(t, 0xFFFF); }
  }

  lemma MulMono(x: nat, y: nat)
    requires x <= y
    ensures x * x <= y * y
  {
    assert y * y - x * x == (y - x) * (y + x);
  }

  /** At the head of each iteration: `c` is the square of `a`, `s` is 4^j, the low
      j+1 bits of `a` are clear and the root lies in [a, a + 2^(j+1)). */
  ghost predicate Bracket(i: nat, a: nat, c: nat, s: nat, j: nat, max: nat, q: nat) {
    && c == a * a <= i < (a + Pow2(j + 1)) * (a + Pow2(j + 1))
    && s == Pow2(j) * Pow2(j)
    && a == q * Pow2(j + 1)
    && a + Pow2(j + 1) <= Pow2(max + 1)
  }

  lemma PowersFor(max: nat)
    requires max == 15 || max == 7
    ensures Pow2(max + 1) == if max == 15 then 0x1_0000 else 0x100
    ensures Pow2(max * 2) == Pow2(max) * Pow2(max) == if max == 15 then 0x4000_0000 else 0x4000
  {
    assert Pow2(4) == 16;
    assert Pow2(8) == 256;
    assert Pow2(12) == 4096;
    assert Pow2(16) == 65536;
    assert Pow2(15) == 32768 && Pow2(7) == 128;
    assert Pow2(14) == 16384 && Pow2(20) == 16 * Pow2(16) && Pow2(24) == 16 * Pow2(20);
    assert Pow2(28) == 16 * Pow2(24) && Pow2(30) == 4 * Pow2(28);
  }

  lemma QuarterOf(j: nat)
    requires j > 0
    ensures Pow2(j) * Pow2(j) / 4 == Pow2(j - 1) * Pow2(j - 1)
  {
    var p := Pow2(j - 1);
    assert (2 * p) * (2 * p) == (p * p) * 4;
  }

  ghost predicate IsRoot(i: nat, a: nat) {
    a * a <= i < (a + 1) * (a + 1)
  }

  /** The trial square of one iteration. */
  function Trial(a: nat, c: nat, s: nat, j: nat): nat {
    c + Shl(a, j + 1) + s
  }

  lemma Start(i: nat, max: nat)
    requires i < 0x1_0000_0000 && max == if i >= 0x10000 then 15 else 7
    ensures Bracket(i, 0, 0, Shl(1, max * 2), max, max, 0) && Shl(1, max * 2) < 0x8000_0000
  {
    PowersFor(max);
  }

  lemma TrialIsSquare(a: nat, c: nat, s: nat, j: nat, max: nat, q: nat)
    requires max == 15 || max == 7
    requires j <= max && c == a * a && s == Pow2(j) * Pow2(j)
    requires a == q * Pow2(j + 1) && a + Pow2(j + 1) <= Pow2(max + 1)
    ensures var t := a + Pow2(j);
      && Shl(a, j + 1) <= c + Shl(a, j + 1) <= Trial(a, c, s, j) == t * t < 0x1_0000_0000
      && SetBit(a, j) == t == (2 * q + 1) * Pow2(j) < 0x1_0000 && a == (2 * q) * Pow2(j)
  {
    var p := Pow2(j);
    PowersFor(max);
    SquareStep(a, p, Pow2(max + 1));
    SetBitOfMultiple(a, q, j);
    assert q * (2 * p) == (2 * q) * p;
  }

  /** One iteration halves the bracket: the trial square decides which half holds the root. */
  lemma Halve(i: nat, a: nat, c: nat, s: nat, j: nat, max: nat, q: nat)
    requires max == 15 || max == 7
    requires j <= max && Bracket(i, a, c, s, j, max, q)
    ensures Shl(a, j + 1) <= c + Shl(a, j + 1) <= Trial(a, c, s, j) < 0x1_0000_0000
    ensures SetBit(a, j) < 0x1_0000
    ensures var d := Trial(a, c, s, j);
      if d == i then IsRoot(i, SetBit(a, j))
      else if j == 0 then IsRoot(i, if d < i then SetBit(a, j) else a)
      else if d < i then Bracket(i, SetBit(a, j), d, s / 4, j - 1, max, 2 * q + 1)
      else Bracket(i, a, c, s / 4, j - 1, max, 2 * q)
  {
    var p, t := Pow2(j), a + Pow2(j);
    TrialIsSquare(a, c, s, j, max, q);
    if j > 0 { QuarterOf(j); }
    assert t + p == a + Pow2(j + 1);
    if Trial(a, c, s, j) == i { assert (t + 1) * (t + 1) == t * t + 2 * t + 1; }
  }

  method Isqrt(i: uint32) returns (a: uint32)
    ensures IsRoot(i as int, a as int)
  {
    var max := if i >= 0x10000 then 15 else 7;
    Start(i as int, max);
    a := 0;
    var c: uint32 := 0;
    var s: uint32 := Shl(1, max * 2) as uint32;
    var j := max;
    ghost var q: nat := 0;
    while true
      invariant 0 <= j <= max && (max == 15 || max == 7)
      invariant Bracket(i as int, a as int, c as int, s as int, j, max, q)
      decreases j
    {
      Halve(i as int, a as int, c as int, s as int, j, max, q);
      var d: uint32 := c + Shl(a as int, j + 1) as uint32 + s;
      q := if d < i then 2 * q + 1 else 2 * q;
      if d <= i {
        c := d;
        a := SetBit(a as int, j) as uint32;
      }
      if d != i {
        s := s / 4;
        j := j - 1;
      }
      if j < 0 || d == i {
        break;
      }
    }
  }
}
