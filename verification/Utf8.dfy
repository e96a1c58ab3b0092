/**
 The wide-string codecs of `CBuffer`: `WStrToUtf8`, `Utf8ToWStr`, `WStrToAscii`, `AsciiToWStr`.
 Section 3 of RFC 3629 gives the byte patterns. The bit operations of the source
 select bit fields, so they read as division and remainder here.
 */
module Utf8 {
  import opened Bytes
  import opened Sequences

  /** A wide character; `wchar_t` has 16 bits on Windows and 32 elsewhere, where it may be signed. */
  type wchar = w: int | -0x8000_0000 <= w < 0x1_0000_0000
  type wstring = seq<wchar>

  /** Replacement character written for malformed input. */
  const ERR: wchar := 0xFFFD

  /** The cast of a unit to `char`. */
  function LowByte(w: wchar): byte {
    if 0 <= w < 0x100 then w else w % 0x100
  }

  function EncodeUnit(w: wchar): (r: bytes)
    ensures 1 <= |r| <= 3
  {
    if w <= 0x7f then [LowByte(w)]
    else if w <= 0x7ff then [0xc0 + w / 0x40 % 0x20, 0x80 + w % 0x40]
    else if w <= 0xffff then [0xe0 + w / 0x1000 % 0x10, 0x80 + w / 0x40 % 0x40, 0x80 + w % 0x40]
    else [0x3f]
  }

  function Encode(s: wstring): bytes {
    if s == [] then [] else EncodeUnit(s[0]) + Encode(s[1..])
  }

  /** The decoder between two bytes: the output, the partial character and the bytes it still needs. */
  datatype State = State(dest: wstring, w: wchar, need: nat)

  /** `(w << 6) | (c & 0x3f)` in a `wchar_t` of the given width. */
  function Extend(w: wchar, c: byte, wide: bool): wchar {
    (w * 0x40 + c % 0x40) % (if wide then 0x1_0000_0000 else 0x1_0000)
  }

  function Step(st: State, c: byte, wide: bool): State {
    if c <= 0x7f then State((if st.need > 0 then st.dest + [ERR] else st.dest) + [c], st.w, 0)
    else if c <= 0xbf then
      if st.need > 0 then
        var w := Extend(st.w, c, wide);
        State(if st.need == 1 then st.dest + [w] else st.dest, w, st.need - 1)
      else State(st.dest + [ERR], st.w, 0)
    else if c <= 0xdf then State(st.dest, c % 0x20, 1)
    else if c <= 0xef then State(st.dest, c % 0x10, 2)
    else if c <= 0xf7 then State(st.dest, c % 0x08, 3)
    else State(st.dest + [ERR], st.w, 0)
  }

  function Run(st: State, src: bytes, wide: bool): State
    decreases |src|
  {
    if src == [] then st else Run(Step(st, src[0], wide), src[1..], wide)
  }

  function Finish(st: State): wstring {
    if st.need > 0 then st.dest + [ERR] else st.dest
  }

  function Decode(src: bytes, wide: bool): wstring {
    Finish(Run(State([], 0, 0), src, wide))
  }

  /** No unit is negative. A negative one would be cut to its low byte, which need not even start
      a character. */
  predicate Unsigned(s: wstring) {
    forall i | 0 <= i < |s| :: 0 <= s[i]
  }

  /** What the codec keeps of an unsigned string: units above 0xFFFF become question marks. */
  function Representable(s: wstring): (r: wstring)
    ensures |r| == |s|
  {
    if s == [] then [] else [if s[0] <= 0xffff then s[0] else 0x3f] + Representable(s[1..])
  }

  lemma {:induction false} RepresentableAt(s: wstring, i: nat)
    requires i < |s|
    ensures Representable(s)[i] == if s[i] <= 0xffff then s[i] else 0x3f
  {
    if i > 0 {
      RepresentableAt(s[1..], i - 1);
    }
  }

  lemma RepresentableIff(s: wstring)
    ensures Representable(s) == s <==> forall i | 0 <= i < |s| :: s[i] <= 0xffff
  {
    forall i | 0 <= i < |s| ensures Representable(s)[i] == if s[i] <= 0xffff then s[i] else 0x3f {
      RepresentableAt(s, i);
    }
  }

  lemma RunShort(st: State, e: bytes, wide: bool)
    requires 1 <= |e| <= 3
    ensures var s1 := Step(st, e[0], wide);
      Run(st, e, wide) ==
        if |e| == 1 then s1
        else if |e| == 2 then Step(s1, e[1], wide)
        else Step(Step(s1, e[1], wide), e[2], wide)
  {
    var s1 := Step(st, e[0], wide);
    assert Run(st, e, wide) == Run(s1, e[1..], wide);
    if |e| > 1 {
      var s2 := Step(s1, e[1], wide);
      assert Run(s1, e[1..], wide) == Run(s2, e[2..], wide) by { assert e[1..][1..] == e[2..]; }
      if |e| > 2 {
        assert Run(s2, e[2..], wide) == Run(Step(s2, e[2], wide), [], wide) by { assert e[2..][1..] == []; }
      }
    }
  }

  /** The bit fields of a unit put together again. */
  lemma Reassemble2(u: wchar, wide: bool)
    requires 0x80 <= u <= 0x7ff
    ensures var e := EncodeUnit(u);
      0xc0 <= e[0] <= 0xdf && 0x80 <= e[1] <= 0xbf && Extend(e[0] % 0x20, e[1], wide) == u
  {
    var x, z := u / 0x40, u % 0x40;
    assert x < 0x20 && (0xc0 + x) % 0x20 == x && (0x80 + z) % 0x40 == z;
  }

  lemma Reassemble3(u: wchar, wide: bool)
    requires 0x800 <= u <= 0xffff
    ensures var e := EncodeUnit(u);
      && 0xe0 <= e[0] <= 0xef && 0x80 <= e[1] <= 0xbf && 0x80 <= e[2] <= 0xbf
      && Extend(Extend(e[0] % 0x10, e[1], wide), e[2], wide) == u
  {
    var x, y, z := u / 0x1000, u / 0x40 % 0x40, u % 0x40;
    assert x < 0x10 && u == 0x1000 * x + 0x40 * y + z;
    Digits(x, y, z, wide);
  }

  lemma Digits(x: nat, y: nat, z: nat, wide: bool)
    requires x < 0x10 && y < 0x40 && z < 0x40
    ensures (0xe0 + x) % 0x10 == x
    ensures Extend(x, 0x80 + y, wide) == 0x40 * x + y
    ensures Extend(0x40 * x + y, 0x80 + z, wide) == 0x1000 * x + 0x40 * y + z
  {
    assert (0x80 + y) % 0x40 == y && (0x80 + z) % 0x40 == z;
  }

  /** Decoding one encoded unit appends exactly that unit. */
  lemma DecodeUnit(st: State, u: wchar, wide: bool)
    requires st.need == 0 && 0 <= u
    ensures var r := Run(st, EncodeUnit(u), wide);
      r.need == 0 && r.dest == st.dest + [if u <= 0xffff then u else 0x3f]
  {
    RunShort(st, EncodeUnit(u), wide);
    if 0x80 <= u <= 0x7ff { Reassemble2(u, wide); }
    if 0x800 <= u <= 0xffff { Reassemble3(u, wide); }
  }

  lemma {:induction false} RunConcat(st: State, a: bytes, b: bytes, wide: bool)
    ensures Run(st, a + b, wide) == Run(Run(st, a, wide), b, wide)
    decreases |a|
  {
    if a == [] {
      assert a + b == b;
    } else {
      assert (a + b)[0] == a[0] && (a + b)[1..] == a[1..] + b;
      RunConcat(Step(st, a[0], wide), a[1..], b, wide);
    }
  }

  lemma UnitThenRest(st: State, u: wchar, e: bytes, rest: bytes, wide: bool) returns (st': State)
    requires st.need == 0 && 0 <= u && e == EncodeUnit(u)
    ensures st'.need == 0 && st'.dest == st.dest + [if u <= 0xffff then u else 0x3f]
    ensures Run(st, e + rest, wide) == Run(st', rest, wide)
  {
    st' := Run(st, e, wide);
    DecodeUnit(st, u, wide);
    RunConcat(st, e, rest, wide);
  }

  lemma {:induction false} RunEncoded(st: State, s: wstring, wide: bool)
    requires st.need == 0 && Unsigned(s)
    ensures var r := Run(st, Encode(s), wide); r.need == 0 && r.dest == st.dest + Representable(s)
    decreases |s|
  {
    if s != [] {
      var u, tail := s[0], s[1..];
      assert Unsigned(tail);
      var e, rest := EncodeUnit(u), Encode(tail);
      var st' := UnitThenRest(st, u, e, rest, wide);
      RunEncoded(st', tail, wide);
      Regroup(st.dest, [if u <= 0xffff then u else 0x3f], Representable(tail));
      assert Encode(s) == e + rest;
    }
  }

  /** Decoding undoes encoding for every representable string, whatever the width of `wchar_t`. */
  lemma RoundTrip(s: wstring, wide: bool)
    requires Unsigned(s)
    ensures Decode(Encode(s), wide) == Representable(s)
  {
    RunEncoded(State([], 0, 0), s, wide);
  }

  lemma {:induction false} RunUnsigned(st: State, src: bytes, wide: bool)
    requires Unsigned(st.dest)
    ensures Unsigned(Run(st, src, wide).dest)
    decreases |src|
  {
    if src != [] {
      RunUnsigned(Step(st, src[0], wide), src[1..], wide);
    }
  }

  /** The decoder never outputs a negative unit. */
  lemma DecodeUnsigned(src: bytes, wide: bool)
    ensures Unsigned(Decode(src, wide))
  {
    RunUnsigned(State([], 0, 0), src, wide);
  }

  /** So exactly the strings of units from 0 to 0xFFFF come back. */
  lemma RoundTripIff(s: wstring, wide: bool)
    ensures Decode(Encode(s), wide) == s <==> forall i | 0 <= i < |s| :: 0 <= s[i] <= 0xffff
  {
    DecodeUnsigned(Encode(s), wide);
    if Unsigned(s) {
      RoundTrip(s, wide);
      RepresentableIff(s);
    }
  }

  /** Every output unit, and the one that a pending character may still produce, has used up a byte. */
  lemma {:induction false} RunBound(st: State, src: bytes, wide: bool)
    ensures var r := Run(st, src, wide);
      |r.dest| + (if r.need > 0 then 1 else 0) <= |st.dest| + (if st.need > 0 then 1 else 0) + |src|
    decreases |src|
  {
    if src != [] {
      RunBound(Step(st, src[0], wide), src[1..], wide);
    }
  }

  /** On any bytes at all the decoder never outputs more units than it reads. */
  lemma DecodeBound(src: bytes, wide: bool)
    ensures |Decode(src, wide)| <= |src|
  {
    RunBound(State([], 0, 0), src, wide);
  }

  lemma {:induction false} EncodeSnoc(s: wstring, w: wchar)
    ensures Encode(s + [w]) == Encode(s) + EncodeUnit(w)
  {
    if s == [] {
      assert Encode([w][1..]) == [];
    } else {
      assert (s + [w])[1..] == s[1..] + [w];
      EncodeSnoc(s[1..], w);
    }
  }

  method WStrToUtf8(src: wstring) returns (dest: bytes)
    ensures dest == Encode(src)
  {
    dest := [];
    for i := 0 to |src|
      invariant dest == Encode(src[..i])
    {
      var w := src[i];
      assert src[..i + 1] == src[..i] + [w];
      EncodeSnoc(src[..i], w);
      if w <= 0x7f {
        dest := dest + [LowByte(w)];
      } else if w <= 0x7ff {
        dest := dest + [0xc0 + w / 0x40 % 0x20, 0x80 + w % 0x40];
      } else if w <= 0xffff {
        dest := dest + [0xe0 + w / 0x1000 % 0x10, 0x80 + w / 0x40 % 0x40, 0x80 + w % 0x40];
      } else {
        dest := dest + [0x3f];
      }
    }
    assert src[..|src|] == src;
  }

  method Utf8ToWStr(src: bytes, wide: bool) returns (dest: wstring)
    ensures dest == Decode(src, wide)
    ensures |dest| <= |src|
  {
    dest := [];
    var w: wchar, need: nat := 0, 0;
    for i := 0 to |src|
      invariant Run(State(dest, w, need), src[i..], wide) == Run(State([], 0, 0), src, wide)
    {
      var c := src[i];
      assert src[i..][1..] == src[i + 1..];
      if c <= 0x7f {
        if need > 0 {
          dest := dest + [ERR];
          need := 0;
        }
        dest := dest + [c];
      } else if c <= 0xbf {
        if need > 0 {
          w := Extend(w, c, wide);
          need := need - 1;
          if need == 0 {
            dest := dest + [w];
          }
        } else {
          dest := dest + [ERR];
        }
      } else if c <= 0xdf {
        need, w := 1, c % 0x20;
      } else if c <= 0xef {
        need, w := 2, c % 0x10;
      } else if c <= 0xf7 {
        need, w := 3, c % 0x08;
      } else {
        dest := dest + [ERR];
        need := 0;
      }
    }
    if need > 0 {
      dest := dest + [ERR];
    }
    DecodeBound(src, wide);
  }

  /** `WStrToAscii`: units above 0xFF become question marks. */
  function ToAscii(s: wstring): (r: bytes)
    ensures |r| == |s|
  {
    if s == [] then [] else [if s[0] <= 0xff then LowByte(s[0]) else 0x3f] + ToAscii(s[1..])
  }

  /** `AsciiToWStr`: every byte becomes one unit. */
  function FromAscii(s: bytes): (r: wstring)
    ensures |r| == |s| && forall i | 0 <= i < |s| :: r[i] == s[i]
  {
    if s == [] then [] else [s[0]] + FromAscii(s[1..])
  }

  lemma {:induction false} AsciiRoundTrip(s: wstring)
    ensures FromAscii(ToAscii(s)) == s <==> forall i | 0 <= i < |s| :: 0 <= s[i] <= 0xff
  {
    forall i | 0 <= i < |s| ensures ToAscii(s)[i] == if s[i] <= 0xff then LowByte(s[i]) else 0x3f {
      ToAsciiAt(s, i);
    }
    if FromAscii(ToAscii(s)) == s {
      assert forall i | 0 <= i < |s| :: s[i] == ToAscii(s)[i];
    }
  }

  lemma {:induction false} ToAsciiAt(s: wstring, i: nat)
    requires i < |s|
    ensures ToAscii(s)[i] == if s[i] <= 0xff then LowByte(s[i]) else 0x3f
  {
    if i > 0 {
      ToAsciiAt(s[1..], i - 1);
    }
  }
}
