/**
 Numbers in a buffer (`WriteValue`, `ReadValue`) and whole runs of operations: any sequence of
 operations on a growable buffer acts like the same splices on a plain byte sequence.
 */
module BufferRuns {
  import opened Options
  import opened Bytes
  import opened Buffer
  import opened Sequences

  function Pow256(n: nat): (r: nat)
    ensures r >= 1
  {
    if n == 0 then 1 else 256 * Pow256(n - 1)
  }

  /** The low `n` bytes of a number, lowest byte first. */
  function LittleEndian(v: nat, n: nat): (r: bytes)
    ensures |r| == n
  {
    if n == 0 then [] else [v % 256] + LittleEndian(v / 256, n - 1)
  }

  function Number(d: bytes): nat {
    if d == [] then 0 else d[0] + 256 * Number(d[1..])
  }

  function Image(v: nat, n: nat, big: bool): (r: bytes)
    ensures |r| == n
  {
    if big then Reversed(LittleEndian(v, n)) else LittleEndian(v, n)
  }

  function FromImage(d: bytes, big: bool): nat {
    Number(if big then Reversed(d) else d)
  }

  lemma {:induction false} NumberOfLittleEndian(v: nat, n: nat)
    requires v < Pow256(n)
    ensures Number(LittleEndian(v, n)) == v
    decreases n
  {
    if n > 0 {
      NumberOfLittleEndian(v / 256, n - 1);
    }
  }

  /** Reading back a number in the byte order it was written in. */
  lemma ImageRoundTrip(v: nat, n: nat, big: bool)
    requires v < Pow256(n)
    ensures FromImage(Image(v, n, big), big) == v
  {
    NumberOfLittleEndian(v, n);
    assert Reversed(Reversed(LittleEndian(v, n))) == LittleEndian(v, n);
  }

  /** Two writes in a row are one write of both. */
  lemma WriteAppend(v: View, a: bytes, b: bytes)
    requires v.pos <= |v.content|
    ensures WriteAt(WriteAt(v, a), b) == WriteAt(v, a + b)
  {
    var x, y := WriteAt(WriteAt(v, a), b).content, WriteAt(v, a + b).content;
    assert |x| == |y|;
    assert forall i | 0 <= i < |x| :: x[i] == y[i];
  }

  /** What was just written can be read back from where it was written. */
  lemma ReadBack(v: View, d: bytes)
    requires v.pos <= |v.content|
    ensures var w := WriteAt(v, d); ReadAt(w.(pos := v.pos), Some(|d|)) == (w, Some(d))
  {
    var w := WriteAt(v, d);
    assert w.content[v.pos..v.pos + |d|] == d;
  }

  /** `ReadValue` on views: a big-endian read that fails has used up the bytes that were there. */
  function ReadValueAt(v: View, n: nat, big: bool): (View, Option<nat>)
    requires v.pos <= |v.content|
  {
    if v.pos + n <= |v.content| && v.backed then
      (v.(pos := v.pos + n), Some(FromImage(v.content[v.pos..v.pos + n], big)))
    else (if big && v.backed then v.(pos := |v.content|) else v, None)
  }

  lemma ReversedGrows(c: bytes, p: nat, k: nat)
    requires p + k < |c|
    ensures Reversed(c[p..p + k + 1]) == [c[p + k]] + Reversed(c[p..p + k])
  {
    assert c[p..p + k + 1] == c[p..p + k] + [c[p + k]];
    ReversedConcat(c[p..p + k], [c[p + k]]);
  }

  function WriteSome(v: View, d: bytes): View
    requires v.pos <= |v.content|
  {
    if d == [] then v else WriteAt(v, d)
  }

  lemma WriteOneMore(v: View, d: bytes, k: nat, x: byte)
    requires v.pos <= |v.content| && k < |d| && d[k] == x
    ensures var w := WriteSome(v, d[..k]);
      w.pos <= |w.content| && WriteAt(w, [x]) == WriteSome(v, d[..k + 1])
  {
    assert d[..k + 1] == d[..k] + [x];
    if k > 0 { WriteAppend(v, d[..k], [x]); }
  }

  /** The big-endian loop: writes the image from its last byte to its first. On failure
      the first `k` bytes of the number have been written. */
  method WriteBackwards(b: CBuffer, image: bytes) returns (ok: bool, ghost k: nat)
    requires b.Valid()
    modifies b, b.data
    ensures b.Valid() && b.kind == old(b.kind) && b.readOnly == old(b.readOnly)
    ensures b.data == old(b.data) || (b.data != null && fresh(b.data))
    ensures old(b.Growable()) ==> ok
    ensures k <= |image| && ok == (k == |image|)
    ensures b.Abs() == WriteSome(old(b.Abs()), Reversed(image)[..k])
  {
    ghost var v, order := b.Abs(), Reversed(image);
    k := 0;
    var i := |image|;
    while i > 0
      invariant 0 <= i <= |image| && k == |image| - i && b.Valid()
      invariant b.kind == old(b.kind) && b.readOnly == old(b.readOnly)
      invariant b.data == old(b.data) || (b.data != null && fresh(b.data))
      invariant b.Abs() == WriteSome(v, order[..k])
    {
      WriteOneMore(v, order, k, image[i - 1]);
      ok := b.SetData(Some([image[i - 1]]), 1);
      if !ok {
        return;
      }
      k, i := k + 1, i - 1;
    }
    ok := true;
  }

  /** Writes an `n`-byte number; failure can only be for lack of room. */
  method WriteValue(b: CBuffer, v: nat, n: nat, big: bool) returns (ok: bool, ghost k: nat)
    requires b.Valid() && 0 < n
    modifies b, b.data
    ensures b.Valid() && b.kind == old(b.kind) && b.readOnly == old(b.readOnly)
    ensures b.data == old(b.data) || (b.data != null && fresh(b.data))
    ensures old(b.Growable()) ==> ok
    ensures ok == (k == n) && k <= n && (!big && !ok ==> k == 0)
    ensures b.Abs() == WriteSome(old(b.Abs()), Image(v, n, big)[..k])
  {
    var image := LittleEndian(v, n);
    if big {
      ok, k := WriteBackwards(b, image);
    } else {
      ok := b.SetData(Some(image), n);
      k := if ok then n else 0;
      assert image[..n] == image;
    }
  }

  /** The big-endian loop: fills the image from its last byte to its first. */
  /** The bytes read so far, in the order in which they are stored. */
  ghost predicate ReadInto(image: bytes, c: bytes, p: nat, k: nat) {
    p + k <= |c| && image == Reversed(c[p..p + k])
  }

  lemma ReadOneMore(image: bytes, c: bytes, p: nat, k: nat, x: byte)
    requires ReadInto(image, c, p, k) && p + k < |c| && x == c[p + k]
    ensures ReadInto([x] + image, c, p, k + 1)
  {
    ReversedGrows(c, p, k);
  }

  method ReadByte(b: CBuffer) returns (r: Option<byte>)
    requires b.Valid()
    modifies b`position
    ensures b.Valid() && r.Some? == (old(b.position) < b.size && b.data != null)
    ensures b.position == if r.Some? then old(b.position) + 1 else old(b.position)
    ensures r.Some? ==> r.value == b.Contents()[old(b.position)]
  {
    var d := b.GetData(Some(1));
    return if d.None? then None else Some(d.value[0]);
  }

  method ReadBackwards(b: CBuffer, n: nat) returns (r: Option<bytes>)
    requires b.Valid() && 0 < n
    modifies b`position
    ensures b.Valid()
    ensures var v := old(b.Abs());
      if v.pos + n <= |v.content| && v.backed
      then b.Abs() == v.(pos := v.pos + n) && r == Some(Reversed(v.content[v.pos..v.pos + n]))
      else b.Abs() == (if v.backed then v.(pos := |v.content|) else v) && r.None?
  {
    ghost var c, p := b.Contents(), b.position;
    var image: bytes := [];
    var i := n;
    while i > 0
      invariant 0 <= i <= n && b.Valid() && b.position == p + (n - i) && b.Contents() == c
      invariant ReadInto(image, c, p, n - i)
      invariant i < n ==> b.data != null
    {
      var x := ReadByte(b);
      if x.None? {
        return None;
      }
      ReadOneMore(image, c, p, n - i, x.value);
      image := [x.value] + image;
      i := i - 1;
    }
    return Some(image);
  }

  method ReadValue(b: CBuffer, n: nat, big: bool) returns (r: Option<nat>)
    requires b.Valid() && 0 < n
    modifies b`position
    ensures b.Valid() && ReadValueAt(old(b.Abs()), n, big) == (b.Abs(), r)
  {
    var d;
    if big {
      d := ReadBackwards(b, n);
    } else {
      d := b.GetData(Some(n));
    }
    return if d.None? then None else Some(Number(d.value));
  }

  datatype Op =
    | Write(d: bytes)
    | Put(at: Option<nat>, d: bytes)
    | Append(d: bytes)
    | InsertAt(off: nat, d: bytes)
    | Shift(k: nat)
    | Seek(to: Option<nat>)
    | Read(count: Option<nat>)
    | Peek(off: nat, len: nat)
    | PutNumber(v: nat, n: nat, big: bool)
    | GetNumber(n: nat, big: bool)

  datatype Outcome = Done | Failed | Got(d: bytes) | Num(v: nat)

  /** What the source asserts of its callers. */
  predicate Allowed(v: View, op: Op) {
    && v.pos <= |v.content|
    && match op
       case Put(at, _) => at.Some? ==> at.value <= |v.content|
       case InsertAt(off, _) => off <= |v.content|
       case PutNumber(_, n, _) => n > 0
       case GetNumber(n, _) => n > 0
       case _ => true
  }

  /** The plain meaning of an operation. */
  function Apply(v: View, op: Op): (r: (View, Outcome))
    requires Allowed(v, op)
    ensures r.0.pos <= |r.0.content|
  {
    match op
    case Write(d) => (WriteAt(v, d), Done)
    case Put(at, d) => (PutAt(v, if at.None? then |v.content| else at.value, d), Done)
    case Append(d) => (View(v.content + d, v.pos, true), Done)
    case InsertAt(off, d) => (View(Insert(v.content, off, d), v.pos, true), Done)
    case Shift(k) => if k > |v.content| then (v, Failed) else (Dropped(v, k), Done)
    case Seek(to) =>
      if to.None? then (v.(pos := |v.content|), Done)
      else if to.value > |v.content| then (v, Failed)
      else (v.(pos := to.value), Done)
    case Read(len) =>
      var (v', d) := ReadAt(v, len);
      (v', if d.None? then Failed else Got(d.value))
    case Peek(off, len) =>
      (v, if off + len > |v.content| || !v.backed then Failed else Got(v.content[off..off + len]))
    case PutNumber(x, n, big) => (WriteAt(v, Image(x, n, big)), Done)
    case GetNumber(n, big) =>
      var (v', x) := ReadValueAt(v, n, big);
      (v', if x.None? then Failed else Num(x.value))
  }

  /** Every operation of a run is allowed when its turn comes. */
  predicate AllAllowed(v: View, ops: seq<Op>)
    decreases |ops|
  {
    ops == [] || (Allowed(v, ops[0]) && AllAllowed(Apply(v, ops[0]).0, ops[1..]))
  }

  function ApplyAll(v: View, ops: seq<Op>): (View, seq<Outcome>)
    requires AllAllowed(v, ops)
    decreases |ops|
  {
    if ops == [] then (v, [])
    else
      var (v', o) := Apply(v, ops[0]);
      var (v'', os) := ApplyAll(v', ops[1..]);
      (v'', [o] + os)
  }

  /** A read of nothing from a buffer without memory, whose null pointer counts as a failure. */
  predicate NullRead(v: View, op: Op) {
    !v.backed &&
    match op
    case Read(len) => len.None? || len.value == 0
    case Peek(off, len) => off + len == 0
    case _ => false
  }

  /** That is the only difference from the same operation on a plain sequence with a position. A
      buffer without memory is empty. */
  lemma PlainButNullReads(v: View, op: Op)
    requires Allowed(v, op) && (v.backed || v.content == [])
    ensures var (w, o), (w', o') := Apply(v, op), Apply(v.(backed := true), op);
      (w.content == w'.content && w.pos == w'.pos && o == o') <==> !NullRead(v, op)
  {
  }

  /** A new buffer, and a read of nothing. */
  lemma NewBufferNullRead(v: View, ops: seq<Op>)
    requires v == View([], 0, false) && ops == [Read(Some(0))]
    ensures AllAllowed(v, ops) && ApplyAll(v, ops) == (v, [Failed])
  {
    assert Apply(v, ops[0]) == (v, Failed);
    assert ops[1..] == [];
    assert ApplyAll(v, ops[1..]) == (v, []);
    assert [Failed] + [] == [Failed];
  }

  method Perform(b: CBuffer, op: Op) returns (o: Outcome)
    requires b.Valid() && b.Growable() && Allowed(b.Abs(), op)
    modifies b, b.data
    ensures b.Valid() && b.Growable()
    ensures b.data == old(b.data) || (b.data != null && fresh(b.data))
    ensures (b.Abs(), o) == Apply(old(b.Abs()), op)
  {
    var ok := true;
    match op {
      case Write(d) => ok := b.SetData(Some(d), |d|);
      case Put(at, d) => ok := b.SetDataAt(at, Some(d), |d|);
      case Append(d) =>
        ghost var c := b.Contents();
        ok := b.AppendData(d);
        assert Overwrite(c, |c|, d) == c + d;
      case InsertAt(off, d) => ok := b.InsertData(off, Some(d), |d|);
      case Shift(k) => ok := b.ShiftData(k);
      case Seek(to) => ok := b.SetPosition(to);
      case Read(len) =>
        var d := b.GetData(len);
        return if d.None? then Failed else Got(d.value);
      case Peek(off, len) =>
        var d := b.GetDataAt(off, len);
        return if d.None? then Failed else Got(d.value);
      case PutNumber(v, n, big) =>
        ghost var k;
        ok, k := WriteValue(b, v, n, big);
        assert Image(v, n, big)[..n] == Image(v, n, big);
      case GetNumber(n, big) =>
        var v := ReadValue(b, n, big);
        return if v.None? then Failed else Num(v.value);
    }
    return if ok then Done else Failed;
  }

  /** Any allowed run on a growable buffer has exactly the plain meaning of its operations. */
  method PerformAll(b: CBuffer, ops: seq<Op>) returns (os: seq<Outcome>)
    requires b.Valid() && b.Growable() && AllAllowed(b.Abs(), ops)
    modifies b, b.data
    ensures b.Valid() && b.Growable()
    ensures b.data == old(b.data) || (b.data != null && fresh(b.data))
    ensures (b.Abs(), os) == ApplyAll(old(b.Abs()), ops)
    decreases |ops|
  {
    if ops == [] {
      return [];
    }
    var o := Perform(b, ops[0]);
    var rest := PerformAll(b, ops[1..]);
    os := [o] + rest;
  }
}
