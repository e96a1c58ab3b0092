/**
 The encoder and the decoder against section 3 of RFC 3629 and against the checker of encodings,
 and what the decoder makes of malformed bytes.
 */
module Utf8Forms {
  import opened Bytes
  import opened Utf8
  import opened Sequences
  import Encoding

  /** The forms of one, two and three bytes, each for its range of units. */
  lemma UnitForm(u: wchar, windows: bool)
    requires 0 <= u <= 0xffff
    ensures var e := EncodeUnit(u);
      && (u < 0x80 ==> e == [u])
      && (0x80 <= u < 0x800 ==>
            |e| == 2 && Lead2(e[0]) && Continuation(e[1]) && u == (e[0] as int - 0xc0) * 0x40 + (e[1] as int - 0x80))
      && (0x800 <= u ==>
            && |e| == 3 && Lead3(e[0]) && Continuation(e[1]) && Continuation(e[2])
            && u == (e[0] as int - 0xe0) * 0x1000 + (e[1] as int - 0x80) * 0x40 + (e[2] as int - 0x80))
  {
    assert 0x80 <= u < 0x800 ==> u == 0x40 * (u / 0x40) + u % 0x40 && u / 0x40 % 0x20 == u / 0x40;
    assert 0x800 <= u ==> u == 0x1000 * (u / 0x1000) + 0x40 * (u / 0x40 % 0x40) + u % 0x40
                          && u / 0x1000 % 0x10 == u / 0x1000;
  }

  /** What the encoder writes, the checker of encodings accepts. */
  lemma {:induction false} EncodedIsWellFormed(s: wstring, windows: bool)
    requires Unsigned(s)
    ensures Encoding.WellFormed(Encode(s), Encoding.Policy(false, windows))
    decreases |s|
  {
    if s != [] {
      var p := Encoding.Policy(false, windows);
      EncodedIsWellFormed(s[1..], windows);
      if s[0] <= 0xffff { UnitForm(s[0], windows); }
      Encoding.PrependUnit(EncodeUnit(s[0]), Encode(s[1..]), p);
    }
  }

  /** A bad byte is replaced by the encoding of the character with that number. */
  lemma Latin1IsEncoded(c: byte)
    requires !Ascii(c)
    ensures Encoding.Latin1(c) == EncodeUnit(c)
  {
    assert c / 0x40 % 0x20 == c / 0x40;
  }

  /** A unit of four bytes, which the encoder never writes, decodes to its number, of which a
      16-bit `wchar_t` keeps the low bits. */
  lemma FourByteDecodes(e: bytes, wide: bool)
    requires |e| == 4 && 0xf0 <= e[0] < 0xf8 && forall k | 1 <= k < 4 :: Continuation(e[k])
    ensures
      var v := (e[0] as int - 0xf0) * 0x40000 + (e[1] as int - 0x80) * 0x1000
               + (e[2] as int - 0x80) * 0x40 + (e[3] as int - 0x80);
      Decode(e, wide) == [if wide then v else v % 0x1_0000]
  {
    var s0 := State([], 0, 0);
    var s1 := Step(s0, e[0], wide);
    assert s1 == State([], e[0] as int - 0xf0, 3);
    var s2 := Step(s1, e[1], wide);
    Shifted(s1.w, e[1], wide, 8);
    var s3 := Step(s2, e[2], wide);
    Shifted(s2.w, e[2], wide, 0x200);
    var s4 := Step(s3, e[3], wide);
    LastShift(s3.w, e[3], wide);
    RunShort(s0, e[..3], wide);
    RunConcat(s0, e[..3], [e[3]], wide);
    assert e == e[..3] + [e[3]] && [e[3]][1..] == [];
  }

  lemma Shifted(w: wchar, c: byte, wide: bool, n: nat)
    requires 0 <= w < n && Continuation(c) && n <= 0x400
    ensures Extend(w, c, wide) == w * 0x40 + (c as int - 0x80) < n * 0x40
  {
    assert c % 0x40 == c as int - 0x80;
  }

  lemma LastShift(w: wchar, c: byte, wide: bool)
    requires 0 <= w < 0x8000 && Continuation(c)
    ensures var v := w * 0x40 + (c as int - 0x80); Extend(w, c, wide) == if wide then v else v % 0x1_0000
  {
    assert c % 0x40 == c as int - 0x80;
  }

  /** What has been output already does not matter. */
  lemma {:induction false} RunBehind(st: State, d: wstring, src: bytes, wide: bool)
    ensures Run(st.(dest := d + st.dest), src, wide) == Run(st, src, wide).(dest := d + Run(st, src, wide).dest)
    decreases |src|
  {
    if src != [] {
      var next := Step(st, src[0], wide);
      StepBehind(st, d, src[0], wide);
      RunBehind(next, d, src[1..], wide);
    }
  }

  lemma StepBehind(st: State, d: wstring, c: byte, wide: bool)
    ensures Step(st.(dest := d + st.dest), c, wide) == Step(st, c, wide).(dest := d + Step(st, c, wide).dest)
  {
  }

  lemma RunCons(st: State, c: byte, rest: bytes, wide: bool)
    ensures Run(st, [c] + rest, wide) == Run(Step(st, c, wide), rest, wide)
  {
    assert ([c] + rest)[1..] == rest;
  }

  /** A byte that cannot start a character gives one replacement character. */
  lemma StrayByte(c: byte, rest: bytes, wide: bool)
    requires Continuation(c) || c >= 0xf8
    ensures Decode([c] + rest, wide) == [ERR] + Decode(rest, wide)
  {
    var st := State([], 0, 0);
    RunCons(st, c, rest, wide);
    assert [] + [ERR] == [ERR] == [ERR] + [];
    assert Step(st, c, wide) == st.(dest := [ERR] + st.dest);
    RunBehind(st, [ERR], rest, wide);
    Regroup([ERR], Run(st, rest, wide).dest, [ERR]);
  }

  /** A character cut off after its first byte disappears without a trace if another character of
      several bytes follows, and gives one replacement character otherwise. */
  lemma CutOff(c: byte, s: wstring, wide: bool)
    requires 0xc0 <= c < 0xf8 && Unsigned(s)
    ensures Decode([c] + Encode(s), wide) ==
            if s != [] && 0x80 <= s[0] <= 0xffff then Representable(s) else [ERR] + Representable(s)
  {
    var st := Step(State([], 0, 0), c, wide);
    RunCons(State([], 0, 0), c, Encode(s), wide);
    if s == [] {
      assert Run(st, [], wide) == st && st.dest == [] && st.need > 0;
      assert [] + [ERR] == [ERR] + Representable([]);
    } else {
      CutOffRun(st, s, if 0x80 <= s[0] <= 0xffff then [] else [ERR], wide);
      assert [] + Representable(s) == Representable(s);
    }
  }

  lemma CutOffRun(st: State, s: wstring, d: wstring, wide: bool)
    requires st.dest == [] && st.need > 0 && s != [] && Unsigned(s)
    requires d == if 0x80 <= s[0] <= 0xffff then [] else [ERR]
    ensures Run(st, Encode(s), wide).need == 0 && Run(st, Encode(s), wide).dest == d + Representable(s)
  {
    var from := State(d, st.w, 0);
    CutOffBy(st, from, s[0], wide);
    SameStart(st, from, EncodeUnit(s[0]) + Encode(s[1..]), wide);
    RunEncoded(from, s, wide);
  }

  /** A new first byte ends a pending character, which shows only if it is an ASCII one. */
  lemma CutOffBy(st: State, from: State, u: wchar, wide: bool)
    requires st.dest == [] && st.need > 0 && 0 <= u
    requires from == State(if 0x80 <= u <= 0xffff then [] else [ERR], st.w, 0)
    ensures Step(st, EncodeUnit(u)[0], wide) == Step(from, EncodeUnit(u)[0], wide)
  {
    if u <= 0xffff { UnitForm(u, wide); }
  }

  lemma SameStart(st: State, from: State, src: bytes, wide: bool)
    requires src != [] && Step(st, src[0], wide) == Step(from, src[0], wide)
    ensures Run(st, src, wide) == Run(from, src, wide)
  {
  }
}
