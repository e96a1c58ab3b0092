/**
 The growable cursor buffer (`CBuffer`): a block of memory with a used size and a
 read/write position. Every operation is specified on the plain byte sequence it
 stands for, so reallocation never shows. Sizes are assumed not to overflow `size_t`.
 */
module Buffer {
  import opened Options
  import opened Bytes

  /** What a buffer stands for. `backed` only matters to a read of nothing from a buffer that
      has no memory yet: its null pointer is indistinguishable from a failure. */
  datatype View = View(content: bytes, pos: nat, backed: bool)

  function Min(a: nat, b: nat): nat {
    if a < b then a else b
  }

  function Max(a: nat, b: nat): nat {
    if a < b then b else a
  }

  /** Writes `d` over `c` from `off` on, lengthening `c` if it runs past its end. */
  function Overwrite(c: bytes, off: nat, d: bytes): (r: bytes)
    requires off <= |c|
    ensures |r| == Max(|c|, off + |d|)
    ensures forall i | 0 <= i < |r| :: r[i] == if off <= i < off + |d| then d[i - off] else c[i]
  {
    c[..off] + d + c[Min(off + |d|, |c|)..]
  }

  function Insert(c: bytes, off: nat, d: bytes): (r: bytes)
    requires off <= |c|
    ensures |r| == |c| + |d|
    ensures forall i | 0 <= i < |r| ::
              r[i] == if i < off then c[i] else if i < off + |d| then d[i - off] else c[i - |d|]
  {
    c[..off] + d + c[off..]
  }

  /** Room for `n` bytes made at `off` and not filled: up to the old end it still shows what was
      there before, beyond it anything. */
  ghost predicate Opened(c: bytes, off: nat, n: nat, r: bytes) {
    && |r| == |c| + n
    && (forall i | 0 <= i < Min(|c|, off + n) :: r[i] == c[i])
    && (forall i | off + n <= i < |r| :: r[i] == c[i - n])
  }

  /** Writing into a block that has grown just enough is the same as extending the content. */
  lemma GrownOverwrite(c: bytes, grown: bytes, off: nat, d: bytes)
    requires off <= |c| && |grown| == Max(|c|, off + |d|) && forall i | 0 <= i < |c| :: grown[i] == c[i]
    ensures Overwrite(grown, off, d) == Overwrite(c, off, d)
  {
  }

  lemma FilledIsInserted(c: bytes, open: bytes, off: nat, d: bytes)
    requires off <= |c| && Opened(c, off, |d|, open)
    ensures Overwrite(open, off, d) == Insert(c, off, d)
  {
    var x, y := Overwrite(open, off, d), Insert(c, off, d);
    assert |x| == |y|;
    forall i | 0 <= i < |x| ensures x[i] == y[i] {
      if i < off {
        assert open[i] == c[i];
      } else if i >= off + |d| {
        assert open[i] == c[i - |d|];
      }
    }
  }

  datatype Kind = Normal | Fixed | Derived

  class CBuffer {
    var data: array?<byte>
    var size: nat      // bytes in use
    var length: nat    // bytes allocated
    var position: nat  // read/write cursor
    var kind: Kind
    var readOnly: bool

    ghost predicate Valid()
      reads this
    {
      && position <= size <= length
      && if data == null then length == 0 else data.Length == length
    }

    ghost function Contents(): (c: bytes)
      requires Valid()
      reads this, data
      ensures |c| == size
    {
      if data == null then [] else data[..size]
    }

    ghost function Abs(): View
      requires Valid()
      reads this, data
    {
      View(Contents(), position, data != null)
    }

    /** Writes can always be satisfied, by reallocation if need be. */
    predicate Growable()
      reads this
    {
      kind == Normal && !readOnly
    }

    /** A write of `len` bytes at `off` can be satisfied. */
    predicate CanWrite(off: nat, len: nat)
      reads this
    {
      !readOnly && (kind == Normal || (off + len <= length && data != null))
    }

    constructor ()
      ensures Valid() && Abs() == View([], 0, false) && Growable()
    {
      data, size, length, position, kind, readOnly := null, 0, 0, 0, Normal, false;
    }

    /** `AllocBuffer`: a block of the given length. Whether `malloc` gives a pointer for a block of
        nothing is up to it. */
    method AllocBuffer(len: nat, used: bool, fixed: bool, nullForNothing: bool)
      modifies this
      ensures Valid() && length == len && position == 0 && size == (if used then len else 0)
      ensures data == null <==> len == 0 && nullForNothing
      ensures data != null ==> fresh(data)
      ensures kind == (if fixed then Fixed else Normal) && readOnly == old(readOnly)
    {
      position, length := 0, len;
      if len == 0 && nullForNothing {
        data := null;
      } else {
        data := new byte[len];
      }
      size := if used then len else 0;
      kind := if fixed then Fixed else Normal;
    }

    method SetSize(newSize: nat, expand: bool, preAlloc: nat) returns (ok: bool)
      requires Valid()
      modifies this
      ensures Valid() && kind == old(kind) && readOnly == old(readOnly)
      ensures ok == (newSize + preAlloc <= old(length) || (expand && kind != Derived && !readOnly))
      ensures !ok ==> unchanged(this)
      ensures data == old(data) || (data != null && fresh(data))
      ensures newSize + preAlloc > 0 && ok ==> data != null
      ensures ok ==> size == newSize && position == Min(old(position), newSize)
      ensures ok ==> forall i | 0 <= i < Min(newSize, old(size)) :: Contents()[i] == old(Contents())[i]
    {
      if length < newSize + preAlloc {
        if !expand || kind == Derived || readOnly {
          return false;
        }
        var grown := new byte[newSize + preAlloc];
        if data != null {
          forall i | 0 <= i < size {
            grown[i] := data[i];
          }
        }
        length, data := newSize + preAlloc, grown;
      }
      size := newSize;
      if size < position {
        position := size;
      }
      return true;
    }

    method PrepareWrite(off: nat, len: nat) returns (ok: bool)
      requires Valid() && off <= size
      modifies this
      ensures Valid() && kind == old(kind) && readOnly == old(readOnly)
      ensures ok == old(CanWrite(off, len))
      ensures !ok ==> unchanged(this)
      ensures data == old(data) || (data != null && fresh(data))
      ensures ok ==> data != null && size == Max(old(size), off + len) && position == old(position)
      ensures ok ==> forall i | 0 <= i < old(size) :: Contents()[i] == old(Contents())[i]
    {
      if readOnly {
        return false;
      }
      if off + len > length || data == null {
        if kind != Normal {
          return false;
        }
        var preAlloc := Max(Min(len * 10, size / 2), 16);
        ok := SetSize(off + len, true, preAlloc);
        return;
      }
      if off + len > size {
        size := off + len;
      }
      return true;
    }

    /** `memcpy` of `d` into the block. */
    method Copy(off: nat, d: bytes)
      requires Valid() && data != null && off + |d| <= size
      modifies data
      ensures Contents() == Overwrite(old(Contents()), off, d)
    {
      forall i | 0 <= i < |d| {
        data[off + i] := d[i];
      }
    }

    /** The same after the block has grown for it; `c` is the content before that. */
    method Store(off: nat, d: bytes, ghost c: bytes)
      requires Valid() && data != null && off <= |c| && size == Max(|c|, off + |d|)
      requires forall i | 0 <= i < |c| :: Contents()[i] == c[i]
      modifies data
      ensures Contents() == Overwrite(c, off, d)
    {
      GrownOverwrite(c, Contents(), off, d);
      Copy(off, d);
    }

    method SetPosition(pos: Option<nat>) returns (ok: bool)
      requires Valid()
      modifies this
      ensures Valid() && ok == (pos.None? || pos.value <= size)
      ensures Abs() == old(Abs()).(pos := if !ok then old(position) else if pos.None? then size else pos.value)
      ensures data == old(data) && size == old(size) && kind == old(kind) && readOnly == old(readOnly)
    {
      if pos.Some? && pos.value > size {
        return false;
      }
      position := if pos.None? then size else pos.value;
      return true;
    }

    /** Reads at the cursor; no length means all that is left. `None` is the null pointer. */
    method GetData(len: Option<nat>) returns (r: Option<bytes>)
      requires Valid()
      modifies this`position
      ensures Valid() && ReadAt(old(Abs()), len) == (Abs(), r)
    {
      var n := if len.None? then size - position else len.value;
      if position + n > size || data == null {
        return None;
      }
      r := Some(data[position..position + n]);
      assert data[..size][position..position + n] == data[position..position + n];
      position := position + n;
    }

    /** Writes at the cursor. Without a source the bytes are only reserved. */
    method SetData(src: Option<bytes>, len: nat) returns (ok: bool)
      requires Valid() && (src.Some? ==> |src.value| == len)
      modifies this, data
      ensures Valid() && kind == old(kind) && readOnly == old(readOnly)
      ensures data == old(data) || (data != null && fresh(data))
      ensures ok == old(CanWrite(position, len))
      ensures !ok ==> Abs() == old(Abs())
      ensures ok && src.Some? ==> Abs() == WriteAt(old(Abs()), src.value)
      ensures ok && src.None? ==> data != null && position == old(position) + len && size == Max(old(size), position)
      ensures ok && src.None? ==> forall i | 0 <= i < old(size) :: Contents()[i] == old(Contents())[i]
    {
      ghost var c := Contents();
      ok := PrepareWrite(position, len);
      if !ok {
        return;
      }
      if src.Some? {
        Store(position, src.value, c);
      }
      position := position + len;
    }

    /** Writes at an offset (no offset: at the end); without a source it writes zeros. */
    method SetDataAt(at: Option<nat>, src: Option<bytes>, len: nat) returns (ok: bool)
      requires Valid() && (src.Some? ==> |src.value| == len) && (at.Some? ==> at.value <= size)
      modifies this, data
      ensures Valid() && kind == old(kind) && readOnly == old(readOnly)
      ensures data == old(data) || (data != null && fresh(data))
      ensures var off := if at.None? then old(size) else at.value;
        && ok == old(CanWrite(off, len))
        && (!ok ==> Abs() == old(Abs()))
        && (ok ==> Abs() == PutAt(old(Abs()), off, if src.Some? then src.value else seq(len, _ => 0)))
    {
      var off := if at.None? then size else at.value;
      ghost var c := Contents();
      ok := PrepareWrite(off, len);
      if !ok {
        return;
      }
      Store(off, if src.Some? then src.value else seq(len, _ => 0), c);
    }

    method GetDataAt(off: nat, len: nat) returns (r: Option<bytes>)
      requires Valid()
      ensures r == if off + len > size || data == null then None else Some(Contents()[off..off + len])
    {
      if off + len > size || data == null {
        return None;
      }
      assert data[..size][off..off + len] == data[off..off + len];
      return Some(data[off..off + len]);
    }

    method AppendData(d: bytes) returns (ok: bool)
      requires Valid()
      modifies this, data
      ensures Valid() && kind == old(kind) && readOnly == old(readOnly)
      ensures data == old(data) || (data != null && fresh(data))
      ensures ok == old(CanWrite(size, |d|))
      ensures Abs() == if ok then PutAt(old(Abs()), old(size), d) else old(Abs())
    {
      var off := size;
      ghost var c := Contents();
      ok := PrepareWrite(off, |d|);
      if ok {
        Store(off, d, c);
      }
    }

    /** Makes room at `off` by moving the tail up, then fills the room if there is a source. */
    method InsertData(off: nat, src: Option<bytes>, len: nat) returns (ok: bool)
      requires Valid() && off <= size && (src.Some? ==> |src.value| == len)
      modifies this, data
      ensures Valid() && kind == old(kind) && readOnly == old(readOnly)
      ensures data == old(data) || (data != null && fresh(data))
      ensures ok == old(CanWrite(size, len))
      ensures !ok ==> Abs() == old(Abs())
      ensures ok && src.Some? ==> Abs() == View(Insert(old(Contents()), off, src.value), old(position), true)
      ensures ok && src.None? ==>
                data != null && position == old(position) && Opened(old(Contents()), off, len, Contents())
    {
      ghost var c := Contents();
      var was := size;
      ok := PrepareWrite(size, len);
      if !ok {
        return;
      }
      MoveUp(off, was, len, c);
      if src.Some? {
        FilledIsInserted(c, Contents(), off, src.value);
        Copy(off, src.value);
      }
    }

    /** `memmove` of the tail [off, end) up by `n`. */
    method MoveUp(off: nat, end: nat, n: nat, ghost c: bytes)
      requires Valid() && data != null && off <= end && end + n == size
      requires |c| == end && forall i | 0 <= i < end :: data[i] == c[i]
      modifies data
      ensures Opened(c, off, n, Contents())
    {
      forall i | off <= i < end {
        data[i + n] := data[i];
      }
    }

    /** Drops the first `k` bytes. */
    method ShiftData(k: nat) returns (ok: bool)
      requires Valid()
      modifies this, data
      ensures Valid() && kind == old(kind) && readOnly == old(readOnly) && data == old(data)
      ensures ok == (k <= old(size))
      ensures Abs() == if ok then Dropped(old(Abs()), k) else old(Abs())
    {
      if k > size {
        return false;
      }
      size := size - k;
      if data != null {
        forall i | 0 <= i < size {
          data[i] := data[i + k];
        }
      }
      position := if position > k then position - k else 0;
      return true;
    }
  }

  /** The read operation on views. */
  function ReadAt(v: View, len: Option<nat>): (View, Option<bytes>)
    requires v.pos <= |v.content|
  {
    var n := if len.None? then |v.content| - v.pos else len.value;
    if v.pos + n > |v.content| || !v.backed then (v, None)
    else (v.(pos := v.pos + n), Some(v.content[v.pos..v.pos + n]))
  }

  /** The write operation on views. */
  function WriteAt(v: View, d: bytes): View
    requires v.pos <= |v.content|
  {
    View(Overwrite(v.content, v.pos, d), v.pos + |d|, true)
  }

  /** The write at an offset on views: the cursor stays. */
  function PutAt(v: View, off: nat, d: bytes): View
    requires off <= |v.content|
  {
    View(Overwrite(v.content, off, d), v.pos, true)
  }

  function Dropped(v: View, k: nat): View
    requires k <= |v.content|
  {
    View(v.content[k..], if v.pos > k then v.pos - k else 0, v.backed)
  }
}
