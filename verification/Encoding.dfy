/** UTF-8 checking and repair (`verify_encoding`), on raw bytes. */
module Encoding {
  import opened Bytes
  import opened Sequences

  /** Which ASCII bytes the caller lets through: `fixPaths` rejects control characters
      and, on Windows, the characters that no path may contain. */
  datatype Policy = Policy(fixPaths: bool, windows: bool)

  /** `?<>"|\b*:` */
  const WINDOWS_INVALID: set<byte> := {0x3f, 0x3c, 0x3e, 0x22, 0x7c, 0x08, 0x2a, 0x3a}

  predicate ValidPathCharacter(c: byte, windows: bool) {
    !(c < 32) && !(windows && c in WINDOWS_INVALID)
  }

  predicate AllowedAscii(c: byte, p: Policy) {
    Ascii(c) && (!p.fixPaths || ValidPathCharacter(c, p.windows))
  }

  /** One accepted unit: an allowed ASCII byte or a two- or three-byte sequence. */
  predicate IsUnit(u: bytes, p: Policy) {
    || (|u| == 1 && AllowedAscii(u[0], p))
    || (|u| == 2 && Lead2(u[0]) && Continuation(u[1]))
    || (|u| == 3 && Lead3(u[0]) && Continuation(u[1]) && Continuation(u[2]))
  }

  /** `s` splits into accepted units. */
  ghost predicate WellFormed(s: bytes, p: Policy)
    decreases |s|
  {
    s == [] || exists k | 1 <= k <= 3 && k <= |s| :: IsUnit(s[..k], p) && WellFormed(s[k..], p)
  }

  /** `convert_to_utf8`: the two-byte form of a byte read as Latin-1. */
  function Latin1(c: byte): (r: bytes) {
    [0xc0 + c / 0x40, 0x80 + c % 0x40]
  }

  /** The length of the accepted unit at `i`, or 0 if there is none. */
  function UnitAt(s: bytes, i: nat, p: Policy): (k: nat)
    requires i < |s|
    ensures i + k <= |s| && k <= 3
  {
    if Ascii(s[i]) then (if AllowedAscii(s[i], p) then 1 else 0)
    else if i + 2 <= |s| && Lead2(s[i]) && Continuation(s[i + 1]) then 2
    else if i + 3 <= |s| && Lead3(s[i]) && Continuation(s[i + 1]) && Continuation(s[i + 2]) then 3
    else 0
  }

  /** What is written for the unit or the offending byte at `i`. */
  function Written(s: bytes, i: nat, p: Policy): bytes
    requires i < |s|
  {
    var k := UnitAt(s, i, p);
    if k > 0 then s[i..i + k] else if Ascii(s[i]) then [0x5f] else Latin1(s[i])
  }

  /** How far one iteration advances. */
  function Advance(s: bytes, i: nat, p: Policy): (n: nat)
    requires i < |s|
    ensures 1 <= n <= |s| - i
  {
    if UnitAt(s, i, p) == 0 then 1 else UnitAt(s, i, p)
  }

  /** The repaired text from index `i` on. */
  function Repaired(s: bytes, i: nat, p: Policy): (r: bytes)
    requires i <= |s|
    decreases |s| - i
  {
    if i == |s| then []
    else Written(s, i, p) + Repaired(s, i + Advance(s, i, p), p)
  }

  /** The unit at an index is the only one that can start there. */
  lemma UnitIsUnique(s: bytes, i: nat, k: nat, p: Policy)
    requires i + k <= |s| && 1 <= k
    ensures IsUnit(s[i..i + k], p) <==> UnitAt(s, i, p) == k
  {
    var u := s[i..i + k];
    assert u[0] == s[i];
    if k >= 2 { assert u[1] == s[i + 1]; }
    if k >= 3 { assert u[2] == s[i + 2]; }
  }

  /** Well-formedness can be decided greedily, one unit at a time. */
  lemma WellFormedStep(s: bytes, i: nat, p: Policy)
    requires i < |s|
    ensures WellFormed(s[i..], p) <==> UnitAt(s, i, p) > 0 && WellFormed(s[i + UnitAt(s, i, p)..], p)
  {
    var t := s[i..];
    if WellFormed(t, p) {
      var k :| 1 <= k <= 3 && k <= |t| && IsUnit(t[..k], p) && WellFormed(t[k..], p);
      assert t[..k] == s[i..i + k] && t[k..] == s[i + k..];
      UnitIsUnique(s, i, k, p);
    }
    var k := UnitAt(s, i, p);
    if k > 0 && WellFormed(s[i + k..], p) {
      UnitIsUnique(s, i, k, p);
      assert t[..k] == s[i..i + k] && t[k..] == s[i + k..];
    }
  }

  lemma PrependUnit(u: bytes, t: bytes, p: Policy)
    requires IsUnit(u, p) && WellFormed(t, p)
    ensures WellFormed(u + t, p)
  {
    var k := |u|;
    assert (u + t)[..k] == u && (u + t)[k..] == t;
  }

  lemma Latin1IsUnit(c: byte, p: Policy)
    requires !Ascii(c)
    ensures IsUnit(Latin1(c), p)
  {
  }

  lemma UnderscoreIsUnit(p: Policy)
    ensures IsUnit([0x5f], p)
  {
  }

  lemma WrittenIsUnit(s: bytes, i: nat, p: Policy)
    requires i < |s|
    ensures IsUnit(Written(s, i, p), p)
  {
    var k := UnitAt(s, i, p);
    if k > 0 {
      UnitIsUnique(s, i, k, p);
    } else if Ascii(s[i]) {
      UnderscoreIsUnit(p);
    } else {
      Latin1IsUnit(s[i], p);
    }
  }

  /** The repaired text is well formed and at most twice as long. */
  lemma {:induction false} RepairedIsWellFormed(s: bytes, i: nat, p: Policy)
    requires i <= |s|
    ensures WellFormed(Repaired(s, i, p), p)
    ensures |Repaired(s, i, p)| <= 2 * (|s| - i)
    decreases |s| - i
  {
    if i < |s| {
      var n := Advance(s, i, p);
      RepairedIsWellFormed(s, i + n, p);
      RepairStep(s, i, n, Repaired(s, i + n, p), p);
    }
  }

  lemma RepairStep(s: bytes, i: nat, n: nat, rest: bytes, p: Policy)
    requires i < |s| && n == Advance(s, i, p) && rest == Repaired(s, i + n, p)
    requires WellFormed(rest, p) && |rest| <= 2 * (|s| - i - n)
    ensures WellFormed(Repaired(s, i, p), p) && |Repaired(s, i, p)| <= 2 * (|s| - i)
  {
    var u := Written(s, i, p);
    WrittenIsUnit(s, i, p);
    PrependUnit(u, rest, p);
    WrittenBound(s, i, p);
  }

  lemma WrittenBound(s: bytes, i: nat, p: Policy)
    requires i < |s|
    ensures |Written(s, i, p)| <= 2 * Advance(s, i, p)
  {
  }

  /** An offending byte is never rewritten to what was there. */
  lemma BadByteChanges(s: bytes, i: nat, rest: bytes, p: Policy)
    requires i < |s| && UnitAt(s, i, p) == 0
    ensures Written(s, i, p) + rest != s[i..]
  {
    var w := Written(s, i, p);
    if w + rest == s[i..] {
      assert (w + rest)[0] == s[i];
      if Ascii(s[i]) {
        UnderscoreIsUnit(p);
      } else {
        assert (w + rest)[1] == s[i + 1];
        Latin1IsUnit(s[i], p);
      }
    }
  }

  /** The greedy answer: an accepted unit at every index reached. */
  predicate ValidFrom(s: bytes, i: nat, p: Policy)
    requires i <= |s|
    decreases |s| - i
  {
    i == |s| || (UnitAt(s, i, p) > 0 && ValidFrom(s, i + Advance(s, i, p), p))
  }

  lemma {:induction false} ValidIsWellFormed(s: bytes, i: nat, p: Policy)
    requires i <= |s|
    ensures ValidFrom(s, i, p) <==> WellFormed(s[i..], p)
    decreases |s| - i
  {
    if i < |s| {
      WellFormedStep(s, i, p);
      ValidIsWellFormed(s, i + Advance(s, i, p), p);
    }
  }

  lemma SamePrefix(u: bytes, x: bytes, y: bytes)
    ensures u + x == u + y <==> x == y
  {
    assert (u + x)[|u|..] == x && (u + y)[|u|..] == y;
  }

  lemma CutAt(s: bytes, i: nat, k: nat)
    requires i + k <= |s|
    ensures s[i..] == s[i..i + k] + s[i + k..]
  {
  }

  /** A kept unit does not decide whether the text changes. */
  lemma KeptUnit(s: bytes, i: nat, rest: bytes, p: Policy)
    requires i < |s| && UnitAt(s, i, p) > 0
    ensures Written(s, i, p) + rest == s[i..] <==> rest == s[i + Advance(s, i, p)..]
  {
    var k := UnitAt(s, i, p);
    SamePrefix(s[i..i + k], rest, s[i + k..]);
    CutAt(s, i, k);
  }

  /** Repair leaves the text alone exactly when it was acceptable. */
  lemma {:induction false} RepairedFixpoint(s: bytes, i: nat, p: Policy)
    requires i <= |s|
    ensures ValidFrom(s, i, p) <==> Repaired(s, i, p) == s[i..]
    decreases |s| - i
  {
    if i < |s| {
      var next := i + Advance(s, i, p);
      var rest := Repaired(s, next, p);
      assert Repaired(s, i, p) == Written(s, i, p) + rest;
      RepairedFixpoint(s, next, p);
      if UnitAt(s, i, p) == 0 {
        BadByteChanges(s, i, rest, p);
      } else {
        KeptUnit(s, i, rest, p);
      }
    }
  }

  /** The loop body: what to write, how far to advance and whether the input was acceptable there. */
  method ReadUnit(s: bytes, i: nat, p: Policy) returns (out: bytes, n: nat, ok: bool)
    requires i < |s|
    ensures out == Written(s, i, p) && n == Advance(s, i, p) && ok == (UnitAt(s, i, p) > 0)
  {
    var left := |s| - i;
    forall c: byte ensures SameTests(c) {
      MasksAreRanges(c);
    }
    if And(s[i], 0x80) == 0 {
      if !p.fixPaths || ValidPathCharacter(s[i], p.windows) {
        return [s[i]], 1, true;
      } else {
        return [0x5f], 1, false;
      }
    }
    if left < 2 {
      return Latin1(s[i]), 1, false;
    }
    if And(s[i], 0xe0) == 0xc0 && And(s[i + 1], 0xc0) == 0x80 {
      return [s[i], s[i + 1]], 2, true;
    }
    if left < 3 {
      return Latin1(s[i]), 1, false;
    }
    if And(s[i], 0xf0) == 0xe0 && And(s[i + 1], 0xc0) == 0x80 && And(s[i + 2], 0xc0) == 0x80 {
      return [s[i], s[i + 1], s[i + 2]], 3, true;
    }
    if left < 4 {
      return Latin1(s[i]), 1, false;
    }
    // The four-byte test that follows here repeats the three-byte mask and so never succeeds.
    assert !(And(s[i], 0xf0) == 0xe0 && And(s[i + 1], 0xc0) == 0x80 && And(s[i + 2], 0xc0) == 0x80);
    return Latin1(s[i]), 1, false;
  }

  predicate SameTests(c: byte) {
    && (Ascii(c) <==> And(c, 0x80) == 0) && (Continuation(c) <==> And(c, 0xc0) == 0x80)
    && (Lead2(c) <==> And(c, 0xe0) == 0xc0) && (Lead3(c) <==> And(c, 0xf0) == 0xe0)
  }

  /** A byte from 0xF0 on has no place in an accepted string: four-byte units are refused. */
  lemma {:induction false} HighByteIsRefused(s: bytes, i: nat, p: Policy)
    requires i < |s| && s[i] >= 0xf0
    ensures !WellFormed(s, p)
    decreases |s|
  {
    var n := UnitAt(s, 0, p);
    WellFormedStep(s, 0, p);
    assert s[0..] == s;
    if n > 0 && i >= n {
      HighByteIsRefused(s[n..], i - n, p);
    }
  }

  /** What becomes of ASCII text: the same length, and an underscore for each character that is not
      let through. */
  lemma {:induction false} AsciiRepaired(s: bytes, i: nat, p: Policy)
    requires i <= |s| && forall k | i <= k < |s| :: Ascii(s[k])
    ensures |Repaired(s, i, p)| == |s| - i
    ensures forall k | i <= k < |s| :: Repaired(s, i, p)[k - i] == if AllowedAscii(s[k], p) then s[k] else 0x5f
    decreases |s| - i
  {
    if i < |s| {
      AsciiRepaired(s, i + 1, p);
      AsciiStep(s, i, p);
      var r, rest := Repaired(s, i, p), Repaired(s, i + 1, p);
      forall k | i <= k < |s| ensures r[k - i] == if AllowedAscii(s[k], p) then s[k] else 0x5f {
        if k > i { assert r[k - i] == rest[k - i - 1] == rest[k - (i + 1)]; }
      }
    }
  }

  lemma AsciiStep(s: bytes, i: nat, p: Policy)
    requires i < |s| && Ascii(s[i])
    ensures Repaired(s, i, p) == [if AllowedAscii(s[i], p) then s[i] else 0x5f] + Repaired(s, i + 1, p)
  {
    assert s[i..i + 1] == [s[i]];
  }

  /** What is let through: all of ASCII, or in paths no control characters but the last one, and on
      Windows none of seven others. */
  lemma LetThrough(c: byte, p: Policy)
    ensures AllowedAscii(c, p) <==>
            c <= 0x7f && (p.fixPaths ==> ' ' <= c as char)
            && (p.fixPaths && p.windows ==> c as char !in {'?', '<', '>', '"', '|', '*', ':'})
  {
  }

  /** What becomes of a four-byte unit: each of its bytes is taken for Latin-1. */
  lemma FourByteUnit(u: bytes, p: Policy)
    requires |u| == 4 && 0xf0 <= u[0] < 0xf8 && forall k | 1 <= k < 4 :: Continuation(u[k])
    ensures !WellFormed(u, p)
    ensures Repaired(u, 0, p) == Latin1(u[0]) + Latin1(u[1]) + Latin1(u[2]) + Latin1(u[3])
  {
    HighByteIsRefused(u, 0, p);
    forall k | 0 <= k < 4 ensures UnitAt(u, k, p) == 0 {
    }
    assert Repaired(u, 4, p) == [];
    assert Repaired(u, 3, p) == Latin1(u[3]) + Repaired(u, 4, p);
    assert Repaired(u, 2, p) == Latin1(u[2]) + Repaired(u, 3, p);
    assert Repaired(u, 1, p) == Latin1(u[1]) + Repaired(u, 2, p);
    assert Repaired(u, 0, p) == Latin1(u[0]) + Repaired(u, 1, p);
  }

  /** U+1F600, an ordinary four-byte character. */
  lemma SmileyIsRewritten(u: bytes, p: Policy)
    requires u == [0xf0, 0x9f, 0x98, 0x80]
    ensures !WellFormed(u, p)
    ensures Repaired(u, 0, p) == [0xc3, 0xb0, 0xc2, 0x9f, 0xc2, 0x98, 0xc2, 0x80]
  {
    FourByteUnit(u, p);
    assert Latin1(u[0]) == [0xc3, 0xb0] && Latin1(u[1]) == [0xc2, 0x9f];
    assert Latin1(u[2]) == [0xc2, 0x98] && Latin1(u[3]) == [0xc2, 0x80];
  }

  /** What the loop ends with when it stands at `i` having written `tmp`. */
  ghost function Onto(tmp: bytes, s: bytes, i: nat, p: Policy): bytes
    requires i <= |s|
    decreases |s| - i
  {
    if i == |s| then tmp else Onto(tmp + Written(s, i, p), s, i + Advance(s, i, p), p)
  }

  lemma {:induction false} OntoAppends(tmp: bytes, s: bytes, i: nat, p: Policy)
    requires i <= |s|
    ensures Onto(tmp, s, i, p) == tmp + Repaired(s, i, p)
    decreases |s| - i
  {
    if i < |s| {
      var u, j := Written(s, i, p), i + Advance(s, i, p);
      OntoAppends(tmp + u, s, j, p);
      OntoStep(tmp, s, i, u, Repaired(s, j, p), p);
    }
  }

  lemma OntoStep(tmp: bytes, s: bytes, i: nat, u: bytes, rest: bytes, p: Policy)
    requires i < |s| && u == Written(s, i, p) && rest == Repaired(s, i + Advance(s, i, p), p)
    requires Onto(tmp + u, s, i + Advance(s, i, p), p) == tmp + u + rest
    ensures Onto(tmp, s, i, p) == tmp + Repaired(s, i, p)
  {
    Regroup(tmp, u, rest);
  }

  /** The loop of `verify_encoding`. */
  method Scan(target: bytes, p: Policy) returns (valid: bool, tmp: bytes)
    ensures valid == ValidFrom(target, 0, p) && tmp == Repaired(target, 0, p)
  {
    tmp, valid := [], true;
    var i := 0;
    while i != |target|
      invariant i <= |target|
      invariant Onto(tmp, target, i, p) == Onto([], target, 0, p)
      invariant ValidFrom(target, 0, p) == (valid && ValidFrom(target, i, p))
      decreases |target| - i
    {
      var out, n, ok := ReadUnit(target, i, p);
      tmp := tmp + out;
      valid := valid && ok;
      i := i + n;
    }
    OntoAppends([], target, 0, p);
  }

  /** Accepts exactly the well-formed texts and repairs the others. */
  method VerifyEncoding(target: bytes, p: Policy) returns (valid: bool, result: bytes)
    ensures valid <==> WellFormed(target, p)
    ensures valid ==> result == target
    ensures !valid ==> result == Repaired(target, 0, p) != target
    ensures WellFormed(result, p) && |result| <= 2 * |target|
  {
    assert target[0..] == target;
    RepairedIsWellFormed(target, 0, p);
    RepairedFixpoint(target, 0, p);
    ValidIsWellFormed(target, 0, p);
    var tmp;
    valid, tmp := Scan(target, p);
    result := if valid then target else tmp;
  }
}
