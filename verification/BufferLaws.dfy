/**
 What the operations of a buffer mean to each other: the bytes not yet read behave like a queue, and
 numbers lie in memory in the byte order asked for.
 */
module BufferLaws {
  import opened Options
  import opened Bytes
  import opened Sequences
  import opened Buffer
  import opened BufferRuns
  import opened Utf8
  import opened BufferStrings

  /** What a reader still has before it. */
  function Unread(v: View): bytes
    requires v.pos <= |v.content|
  {
    v.content[v.pos..]
  }

  /** Appending adds to the end of it, whoever reads where. */
  lemma AppendUnread(v: View, d: bytes)
    requires v.pos <= |v.content|
    ensures var w := Apply(v, Append(d)).0; w.pos == v.pos && w.backed && Unread(w) == Unread(v) + d
  {
  }

  /** Reading takes it from the front, as much as asked for or all there is. */
  lemma ReadUnread(v: View, count: Option<nat>)
    requires v.pos <= |v.content| && v.backed
    ensures var (w, o) := Apply(v, Read(count));
      if count.Some? && count.value > |Unread(v)| then w == v && o == Failed
      else
        && w.content == v.content && o.Got? && o.d + Unread(w) == Unread(v)
        && |o.d| == (if count.None? then |Unread(v)| else count.value)
  {
  }

  /** Writing at the cursor replaces what would have been read next. */
  lemma WriteUnread(v: View, d: bytes)
    requires v.pos <= |v.content|
    ensures var w := Apply(v, Write(d)).0;
      && w.backed && w.content[..v.pos] == v.content[..v.pos] && w.content[v.pos..w.pos] == d
      && Unread(w) == if |d| <= |Unread(v)| then Unread(v)[|d|..] else []
  {
    var w := Apply(v, Write(d)).0;
    assert forall i | 0 <= i < |Unread(w)| :: Unread(w)[i] == w.content[w.pos + i];
  }

  /** Dropping what has been read already changes nothing for the reader; dropping more loses the
      front of what has not. */
  lemma ShiftUnread(v: View, k: nat)
    requires v.pos <= |v.content|
    ensures var (w, o) := Apply(v, Shift(k));
      if k > |v.content| then w == v && o == Failed
      else
        && o == Done && w.backed == v.backed && w.content == v.content[k..]
        && Unread(w) == (if k <= v.pos then Unread(v) else v.content[k..])
        && w.pos == (if k <= v.pos then v.pos - k else 0)
  {
  }

  /** Moving the cursor chooses what is read next. */
  lemma SeekUnread(v: View, to: Option<nat>)
    requires v.pos <= |v.content|
    ensures var (w, o) := Apply(v, Seek(to));
      && w.content == v.content && w.backed == v.backed
      && if to.Some? && to.value > |v.content| then w == v && o == Failed
         else o == Done && Unread(w) == if to.None? then [] else v.content[to.value..]
  {
  }

  /** Writing and inserting elsewhere leave the cursor at its index. */
  lemma ElsewhereUnread(v: View, off: nat, d: bytes)
    requires v.pos <= off <= |v.content|
    ensures var w := Apply(v, InsertAt(off, d)).0;
      w.pos == v.pos && w.backed && Unread(w) == Unread(v)[..off - v.pos] + d + Unread(v)[off - v.pos..]
    ensures var w := Apply(v, Put(Some(off), d)).0;
      w.pos == v.pos && w.backed && Unread(w) == Overwrite(Unread(v), off - v.pos, d)
    ensures Apply(v, Put(None, d)) == Apply(v, Append(d))
  {
    OverwriteBehind(v.content, v.pos, off, d);
    assert Overwrite(v.content, |v.content|, d) == v.content + d;
  }

  /** Behind the cursor too: an insertion pushes bytes over it that have been read already. */
  lemma BehindUnread(v: View, off: nat, d: bytes)
    requires off <= v.pos <= |v.content|
    ensures var w := Apply(v, InsertAt(off, d)).0;
      w.pos == v.pos && w.backed && Unread(w) == (d + v.content[off..])[v.pos - off..]
    ensures var w := Apply(v, Put(Some(off), d)).0;
      && w.pos == v.pos && w.backed
      && Unread(w) == if off + |d| <= v.pos then Unread(v) else Overwrite(Unread(v), 0, d[v.pos - off..])
  {
    var w := Apply(v, Put(Some(off), d)).0;
    if off + |d| > v.pos {
      var u := Overwrite(Unread(v), 0, d[v.pos - off..]);
      assert |u| == |Unread(w)| && forall i | 0 <= i < |u| :: u[i] == Unread(w)[i];
    }
  }

  lemma OverwriteBehind(c: bytes, p: nat, off: nat, d: bytes)
    requires p <= off <= |c|
    ensures Overwrite(c, off, d)[p..] == Overwrite(c[p..], off - p, d)
  {
    var x, y := Overwrite(c, off, d)[p..], Overwrite(c[p..], off - p, d);
    assert |x| == |y| && forall i | 0 <= i < |x| :: x[i] == y[i];
  }

  /** Looking at an offset changes nothing. */
  lemma PeekUnread(v: View, off: nat, len: nat)
    requires v.pos <= |v.content| && v.backed
    ensures Apply(v, Peek(off, len)) ==
            (v, if off + len > |v.content| then Failed else Got(v.content[off..off + len]))
  {
  }

  // Numbers

  /** Byte `k` of a number of `n` bytes, the lowest first or the highest, is its digit of weight
      256 to the k. */
  lemma ByteOfNumber(v: nat, n: nat, k: nat) returns (hi: nat, lo: nat)
    requires k < n
    ensures Image(v, n, false)[k] == Image(v, n, true)[n - 1 - k]
    ensures lo < Pow256(k) && v == (hi * 256 + Image(v, n, false)[k]) * Pow256(k) + lo
  {
    hi, lo := DigitOf(v, n, k);
  }

  lemma {:induction false} DigitOf(v: nat, n: nat, k: nat) returns (hi: nat, lo: nat)
    requires k < n
    ensures lo < Pow256(k) && v == (hi * 256 + LittleEndian(v, n)[k]) * Pow256(k) + lo
    decreases n
  {
    if k == 0 {
      hi, lo := v / 256, 0;
    } else {
      var low;
      hi, low := DigitOf(v / 256, n - 1, k - 1);
      lo := 256 * low + v % 256;
      ScaleUp(hi * 256 + LittleEndian(v, n)[k], Pow256(k - 1));
    }
  }

  lemma ScaleUp(d: nat, p: nat)
    ensures 256 * (d * p) == d * (256 * p)
  {
  }

  /** A write of a number stores that image, at the cursor; a read takes it from there. */
  lemma NumberUnread(v: View, x: nat, n: nat, big: bool)
    requires v.pos <= |v.content| && n > 0 && x < Pow256(n)
    ensures var w := Apply(v, PutNumber(x, n, big)).0;
      && w.content[v.pos..w.pos] == Image(x, n, big)
      && Apply(w.(pos := v.pos), GetNumber(n, big)) == (w, Num(x))
  {
    ImageRoundTrip(x, n, big);
    StoredImage(v, Image(x, n, big), n, big);
  }

  lemma StoredImage(v: View, d: bytes, n: nat, big: bool)
    requires v.pos <= |v.content| && |d| == n
    ensures var w := WriteAt(v, d);
      && w.pos == v.pos + n && w.content[v.pos..w.pos] == d
      && ReadValueAt(w.(pos := v.pos), n, big) == (w, Some(FromImage(d, big)))
  {
    assert WriteAt(v, d).content[v.pos..v.pos + n] == d;
  }

  /** With too few bytes left a number cannot be read; in big-endian order the bytes that are left
      are used up all the same. */
  lemma ShortNumber(v: View, n: nat, big: bool)
    requires v.pos <= |v.content| && v.backed && n > |Unread(v)|
    ensures var (w, o) := Apply(v, GetNumber(n, big));
      o == Failed && w.content == v.content && Unread(w) == if big then [] else Unread(v)
  {
  }

  // Strings

  /** Text that carries no mark is read byte by byte even where a mark is expected. */
  lemma UnmarkedText(s: wstring, wide: bool)
    requires Survives(s, AsciiSet)
    ensures Text(ToAscii(s), Utf8WithBom, wide) == s
  {
    AsciiMark(s);
    AsciiRoundTrip(s);
  }

  /** A mark is obeyed whatever is expected. */
  lemma MarkedText(s: wstring, cs: StrSet, wide: bool)
    ensures Text(BOM + Encode(s), cs, wide) == s <==> Survives(s, Utf8WithBom)
  {
    assert (BOM + Encode(s))[3..] == Encode(s);
    RoundTripIff(s, wide);
  }
}
