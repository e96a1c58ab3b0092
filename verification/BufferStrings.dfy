/** Length-prefixed strings in a buffer (`WriteString`, `ReadString`). */
module BufferStrings {
  import opened Options
  import opened Bytes
  import opened Utf8
  import opened Buffer
  import opened BufferRuns

  datatype StrSet = AsciiSet | Utf8WithBom | Utf8Plain

  const BOM: bytes := [0xEF, 0xBB, 0xBF]

  /** A sequence that starts with the byte order mark. */
  predicate Marked(s: seq<int>) {
    |s| >= 3 && s[0] == 0xEF && s[1] == 0xBB && s[2] == 0xBF
  }

  /** The bytes stored for a string. */
  function Raw(s: wstring, cs: StrSet): bytes {
    match cs
    case AsciiSet => ToAscii(s)
    case Utf8WithBom => BOM + Encode(s)
    case Utf8Plain => Encode(s)
  }

  /** The string read from stored bytes: a byte order mark overrides the requested set. */
  function Text(raw: bytes, cs: StrSet, wide: bool): wstring {
    if Marked(raw) then Decode(raw[3..], wide)
    else if cs.Utf8Plain? then Decode(raw, wide)
    else FromAscii(raw)
  }

  /** A string survives being stored and read back. */
  predicate Survives(s: wstring, cs: StrSet) {
    match cs
    case AsciiSet => (forall i | 0 <= i < |s| :: 0 <= s[i] <= 0xff) && !Marked(s)
    case Utf8WithBom => forall i | 0 <= i < |s| :: 0 <= s[i] <= 0xffff
    case Utf8Plain => (forall i | 0 <= i < |s| :: 0 <= s[i] <= 0xffff) && !(s != [] && s[0] == 0xFEFF)
  }

  lemma UnitMark(u: wchar)
    requires 0 <= u
    ensures Marked(EncodeUnit(u)) <==> u == 0xFEFF
    ensures |EncodeUnit(u)| < 3 ==> EncodeUnit(u)[0] != 0xEF
  {
    assert 0x800 <= u <= 0xffff ==> u == 0x1000 * (u / 0x1000 % 0x10) + 0x40 * (u / 0x40 % 0x40) + u % 0x40;
  }

  /** Plain UTF-8 starts with the bytes of a byte order mark only if the text starts with U+FEFF. */
  lemma EncodedMark(s: wstring)
    requires Unsigned(s)
    ensures Marked(Encode(s)) <==> s != [] && s[0] == 0xFEFF
    ensures Marked(Encode(s)) ==> Encode(s)[3..] == Encode(s[1..])
  {
    if s != [] {
      UnitMark(s[0]);
      var e, t := EncodeUnit(s[0]), Encode(s[1..]);
      assert Encode(s) == e + t && (e + t)[0] == e[0];
    }
  }

  lemma AsciiMark(s: wstring)
    requires forall i | 0 <= i < |s| :: 0 <= s[i] <= 0xff
    ensures Marked(ToAscii(s)) <==> Marked(s)
  {
    if |s| >= 3 {
      ToAsciiAt(s, 0);
      ToAsciiAt(s, 1);
      ToAsciiAt(s, 2);
    }
  }

  /** Whatever the bytes, no negative unit is read. */
  lemma TextUnsigned(raw: bytes, cs: StrSet, wide: bool)
    ensures Unsigned(Text(raw, cs, wide))
  {
    DecodeUnsigned(raw, wide);
    if |raw| >= 3 { DecodeUnsigned(raw[3..], wide); }
  }

  lemma PlainSurvival(s: wstring, wide: bool)
    requires Unsigned(s)
    ensures Text(Encode(s), Utf8Plain, wide) == s <==> Survives(s, Utf8Plain)
  {
    EncodedMark(s);
    if Marked(Encode(s)) {
      RoundTrip(s[1..], wide);
    } else {
      RoundTripIff(s, wide);
    }
  }

  lemma BomSurvival(s: wstring, wide: bool)
    ensures Text(BOM + Encode(s), Utf8WithBom, wide) == s <==> Survives(s, Utf8WithBom)
  {
    assert (BOM + Encode(s))[3..] == Encode(s);
    RoundTripIff(s, wide);
  }

  lemma AsciiSurvival(s: wstring, wide: bool)
    ensures Text(ToAscii(s), AsciiSet, wide) == s <==> Survives(s, AsciiSet)
  {
    var raw := ToAscii(s);
    if Marked(raw) {
      DecodeBound(raw[3..], wide);
    } else {
      AsciiRoundTrip(s);
    }
    if forall i | 0 <= i < |s| :: 0 <= s[i] <= 0xff { AsciiMark(s); }
  }

  /** Exactly which strings survive each character set. */
  lemma SurvivalIsExact(s: wstring, cs: StrSet, wide: bool)
    ensures Text(Raw(s, cs), cs, wide) == s <==> Survives(s, cs)
  {
    match cs
    case AsciiSet => AsciiSurvival(s, wide);
    case Utf8WithBom => BomSurvival(s, wide);
    case Utf8Plain =>
      if Unsigned(s) { PlainSurvival(s, wide); } else { TextUnsigned(Raw(s, cs), cs, wide); }
  }

  /** A length prefix, which keeps the low `n` bytes of the length, and the bytes themselves. */
  function WriteRawAt(v: View, raw: bytes, n: nat): (w: View)
    requires v.pos <= |v.content|
  {
    WriteAt(WriteAt(v, LittleEndian(|raw|, n)), raw)
  }

  function ReadRawAt(v: View, n: nat): (View, Option<bytes>)
    requires v.pos <= |v.content|
  {
    var (v', len) := ReadValueAt(v, n, false);
    if len.None? then (v', None) else ReadAt(v', len)
  }

  /** `WriteString` on views. */
  function WriteStringAt(v: View, s: wstring, cs: StrSet, n: nat): (w: View)
    requires v.pos <= |v.content|
  {
    WriteRawAt(v, Raw(s, cs), n)
  }

  /** `ReadString` on views; `None` is the exception of a read past the end. */
  function ReadStringAt(v: View, cs: StrSet, n: nat, wide: bool): (View, Option<wstring>)
    requires v.pos <= |v.content|
  {
    var (v', raw) := ReadRawAt(v, n);
    (v', if raw.None? then None else Some(Text(raw.value, cs, wide)))
  }

  /** Writing behind a prefix leaves the prefix where it was. */
  lemma PrefixStays(v: View, prefix: bytes, raw: bytes)
    requires v.pos <= |v.content|
    ensures var w, p, q := WriteAt(WriteAt(v, prefix), raw), v.pos, v.pos + |prefix|;
      w.backed && q <= |w.content| && w.content[p..q] == prefix
  {
    var w, p := WriteAt(WriteAt(v, prefix), raw), v.pos;
    assert forall i | 0 <= i < |prefix| :: w.content[p + i] == prefix[i];
  }

  lemma PrefixReads(w: View, p: nat, n: nat, x: nat)
    requires w.backed && p + n <= |w.content| && x < Pow256(n) && w.content[p..p + n] == LittleEndian(x, n)
    ensures ReadValueAt(w.(pos := p), n, false) == (w.(pos := p + n), Some(x))
  {
    NumberOfLittleEndian(x, n);
  }

  /** A length that reads as the number of bytes behind it yields those bytes. */
  lemma ReadsRaw(w: View, p: nat, n: nat, raw: bytes)
    requires p + n <= |w.content|
    requires ReadValueAt(w.(pos := p), n, false) == (w.(pos := p + n), Some(|raw|))
    requires ReadAt(w.(pos := p + n), Some(|raw|)) == (w, Some(raw))
    ensures ReadRawAt(w.(pos := p), n) == (w, Some(raw))
  {
  }

  /** Reading from where bytes were written gives them back and leaves the cursor where
      writing left it. */
  lemma StoredRaw(v: View, raw: bytes, n: nat)
    requires v.pos <= |v.content| && |raw| < Pow256(n)
    ensures var w := WriteRawAt(v, raw, n); ReadRawAt(w.(pos := v.pos), n) == (w, Some(raw))
  {
    PrefixStays(v, LittleEndian(|raw|, n), raw);
    PrefixReads(WriteRawAt(v, raw, n), v.pos, n, |raw|);
    StoredBehind(WriteAt(v, LittleEndian(|raw|, n)), v.pos, n, raw, WriteRawAt(v, raw, n));
  }

  lemma StoredBehind(mid: View, p: nat, n: nat, raw: bytes, w: View)
    requires mid.pos == p + n <= |mid.content| && w == WriteAt(mid, raw)
    requires ReadValueAt(w.(pos := p), n, false) == (w.(pos := p + n), Some(|raw|))
    ensures ReadRawAt(w.(pos := p), n) == (w, Some(raw))
  {
    ReadBack(mid, raw);
    ReadsRaw(w, p, n, raw);
  }

  /** Write then read from the same position returns the text exactly if it survives. */
  lemma StringRoundTrip(v: View, s: wstring, cs: StrSet, n: nat, wide: bool)
    requires v.pos <= |v.content| && |Raw(s, cs)| < Pow256(n)
    ensures var w := WriteStringAt(v, s, cs, n);
      ReadStringAt(w.(pos := v.pos), cs, n, wide) == (w, Some(s)) <==> Survives(s, cs)
  {
    StoredRaw(v, Raw(s, cs), n);
    SurvivalIsExact(s, cs, wide);
  }

  method WriteString(b: CBuffer, s: wstring, cs: StrSet, n: nat) returns (ok: bool)
    requires b.Valid() && (n == 1 || n == 2 || n == 4)
    modifies b, b.data
    ensures b.Valid() && b.kind == old(b.kind) && b.readOnly == old(b.readOnly)
    ensures b.data == old(b.data) || (b.data != null && fresh(b.data))
    ensures old(b.Growable()) ==> ok
    ensures ok ==> b.Abs() == WriteStringAt(old(b.Abs()), s, cs, n)
  {
    var raw: bytes;
    if cs == AsciiSet {
      raw := ToAscii(s);
    } else {
      raw := WStrToUtf8(s);
    }
    if cs == Utf8WithBom {
      raw := BOM + raw;
    }
    ghost var v, k := b.Abs(), 0;
    ok, k := WriteValue(b, |raw|, n, false);
    if !ok {
      return;
    }
    assert Image(|raw|, n, false)[..n] == LittleEndian(|raw|, n);
    ok := b.SetData(Some(raw), |raw|);
  }

  method ReadString(b: CBuffer, cs: StrSet, n: nat, wide: bool) returns (r: Option<wstring>)
    requires b.Valid() && (n == 1 || n == 2 || n == 4)
    modifies b`position
    ensures b.Valid() && ReadStringAt(old(b.Abs()), cs, n, wide) == (b.Abs(), r)
  {
    var len := ReadValue(b, n, false);
    if len.None? {
      return None;
    }
    var data := b.GetData(len);
    if data.None? {
      return None;
    }
    var raw, set' := data.value, cs;
    if Marked(raw) {
      set', raw := Utf8Plain, raw[3..];
    } else if set' == Utf8WithBom {
      set' := AsciiSet;
    }
    var text: wstring;
    if set' == AsciiSet {
      text := FromAscii(raw);
    } else {
      text := Utf8ToWStr(raw, wide);
    }
    return Some(text);
  }
}
