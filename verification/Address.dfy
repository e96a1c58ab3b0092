/**
 `CAddress`: sixteen bytes and an address family, printed, parsed and converted in place.
 Mapped addresses are those of section 2.5.5.2 of RFC 4291.
 */
module Address {
  import opened Options
  import opened Bytes
  import opened Sequences
  import opened Numerals
  import opened AddressText

  datatype Family = NoFamily | IPv4 | IPv6

  datatype Addr = Addr(af: Family, ip: bytes)

  /** How many of the bytes count. */
  function Len(af: Family): nat {
    if af == IPv6 then 16 else 4
  }

  /** `operator==` */
  predicate Same(a: Addr, b: Addr)
    requires |a.ip| == 16 && |b.ip| == 16
  {
    a.af == b.af && a.ip[..Len(a.af)] == b.ip[..Len(a.af)]
  }

  function ToText(a: Addr): string
    requires |a.ip| == 16
  {
    match a.af
    case NoFamily => ""
    case IPv4 => Dotted(a.ip[..4])
    case IPv6 => Print6(GroupsOf(a.ip))
  }

  /** The family and the bytes that a text stands for. */
  function FromText(s: string): (r: Option<(Family, bytes)>)
    ensures r.Some? ==> r.value.0 != NoFamily && |r.value.1| == Len(r.value.0)
  {
    if '.' in s then var b := Aton(s); if b.None? then None else Some((IPv4, b.value))
    else if ':' in s then var g := Pton(s); if g.None? then None else Some((IPv6, GroupBytes(g.value)))
    else None
  }

  /** `FromString`, success or not: the family is set first, then the bytes as far as they can be
      read. A failed attempt leaves what it has read, over zeros. */
  function Parsed(a: Addr, s: string): (r: (Addr, bool))
    requires |a.ip| == 16
    ensures |r.0.ip| == 16
  {
    var ok := FromText(s).Some?;
    if '.' in s then
      var b := StoredParts([], s, 0, 4, AnyReader(s));
      (Addr(IPv4, (if ok then FromText(s).value.1 else b + ZeroBytes(4 - |b|)) + a.ip[4..]), ok)
    else if ':' in s then
      var g := StoredGroups(s, Scan(0, [], None), HexReader(s));
      (Addr(IPv6, if ok then FromText(s).value.1 else OverZeros(g)), ok)
    else (a, false)
  }

  function OverZeros(g: seq<group>): (r: bytes)
    requires |g| <= 8
    ensures |r| == 16
  {
    GroupBytes(g) + ZeroBytes(16 - 2 * |g|)
  }

  predicate IsMapped(a: Addr)
    requires |a.ip| == 16
  {
    a.af == IPv6 && a.ip[10] == 0xFF && a.ip[11] == 0xFF && forall i | 0 <= i < 10 :: a.ip[i] == 0
  }

  /** `Convert`. Going back to IPv4 clears the bytes from 4 on except the last one. */
  function Converted(a: Addr, af: Family): (r: (Addr, bool))
    requires |a.ip| == 16
    ensures |r.0.ip| == 16
  {
    if af == a.af then (a, true)
    else if af == IPv6 && a.af == IPv4 then
      (Addr(IPv6, [0, 0, 0, 0, 0, 0, 0, 0, 0, 0, 0xFF, 0xFF] + a.ip[..4]), true)
    else if af == IPv4 && IsMapped(a) then
      (Addr(IPv4, a.ip[12..] + [0, 0, 0, 0, 0, 0, 0, 0, 0, 0, 0] + a.ip[15..]), true)
    else (a, false)
  }

  /** An IPv4 address made IPv6 and IPv4 again is the same address. */
  lemma MapAndBack(a: Addr)
    requires |a.ip| == 16 && a.af == IPv4
    ensures var (m, ok) := Converted(a, IPv6);
      && ok && IsMapped(m) && m.ip[..10] == ZeroBytes(10) && m.ip[10..] == [0xFF, 0xFF] + a.ip[..4]
      && Converted(m, IPv4).1 && Same(Converted(m, IPv4).0, a)
  {
    var m := Converted(a, IPv6).0;
    assert m.ip[12..] == a.ip[..4];
    assert m.ip[10..] == [0xFF, 0xFF] + m.ip[12..];
    var b := Converted(m, IPv4).0;
    assert b.ip[..4] == m.ip[12..];
  }

  /** The other way round: only mapped addresses can become IPv4, and they come back unchanged. */
  lemma UnmapAndBack(a: Addr)
    requires |a.ip| == 16 && a.af == IPv6
    ensures Converted(a, IPv4).1 <==> IsMapped(a)
    ensures !IsMapped(a) ==> Converted(a, IPv4) == (a, false)
    ensures IsMapped(a) ==> Converted(Converted(a, IPv4).0, IPv6) == (a, true)
  {
    if IsMapped(a) {
      var v4 := Converted(a, IPv4).0;
      assert v4.ip[..4] == a.ip[12..];
      assert a.ip == a.ip[..12] + a.ip[12..];
      assert a.ip[..12] == [0, 0, 0, 0, 0, 0, 0, 0, 0, 0, 0xFF, 0xFF];
    }
  }

  /** No other conversion does anything. */
  lemma OtherConversions(a: Addr, af: Family)
    requires |a.ip| == 16 && (af == a.af || af == NoFamily || a.af == NoFamily)
    ensures Converted(a, af) == (a, af == a.af)
  {
  }

  /** A text of parts with junk behind them is refused, but the parts stay behind, over zeros, and so
      does the family. */
  lemma RefusedTextLeavesParts(a: Addr, b: bytes, more: string)
    requires |a.ip| == 16 && 2 <= |b| <= 4
    ensures Parsed(a, Dotted(b) + ("," + more)) == (Addr(IPv4, b + ZeroBytes(4 - |b|) + a.ip[4..]), false)
  {
    JunkText(Dotted(b) + ("," + more), Dotted(b), b, more);
  }

  lemma JunkText(s: string, text: string, b: bytes, more: string)
    requires 2 <= |b| <= 4 && text == Dotted(b) && s == text + ("," + more)
    ensures '.' in s && Aton(s).None? && StoredParts([], s, 0, 4, AnyReader(s)) == b
  {
    DottedPrefix(s, text, b, ",", more);
    AnyReaderReads(s);
    PartsBeforeJunk(s, 0, b, |text|, 4, [], AnyReader(s));
    DottedHasDot(b);
    assert [] + b == b;
  }

  /** An accepted text sets the family and its bytes; one without a dot and a colon is refused and
      changes nothing. */
  lemma AcceptedText(a: Addr, s: string)
    requires |a.ip| == 16
    ensures Parsed(a, s).1 <==> FromText(s).Some?
    ensures FromText(s).Some? ==>
              var (af, b) := FromText(s).value; Parsed(a, s).0 == Addr(af, b + a.ip[|b|..])
    ensures '.' !in s && ':' !in s ==> Parsed(a, s) == (a, false)
  {
  }

  /** A text of groups with a letter behind them that is no digit is refused, but the family and the
      groups stay behind, over zeros. */
  lemma RefusedTextLeavesGroups(a: Addr, l: seq<string>, more: string)
    requires |a.ip| == 16 && l != [] && |l| <= 8 && forall k | 0 <= k < |l| :: GroupText(l[k])
    requires more != "" && 16 <= DigitValue(more[0]) < 36 && '.' !in more
    ensures Parsed(a, Colons(l) + (":" + more)) == (Addr(IPv6, OverZeros(Values(l))), false)
  {
    GroupsBeforeLetter(l, more, Colons(l) + (":" + more));
    NoDotInColons(l);
    NoDotInText(Colons(l), more);
    RefusedGroups(a, Colons(l) + (":" + more), Values(l));
  }

  lemma NoDotInText(text: string, more: string)
    requires '.' !in text && '.' !in more
    ensures ':' in text + (":" + more) && '.' !in text + (":" + more)
  {
    assert (text + (":" + more))[|text|] == ':';
  }

  lemma RefusedGroups(a: Addr, s: string, g: seq<group>)
    requires |a.ip| == 16 && ':' in s && '.' !in s && Pton(s).None? && |g| <= 8
    requires g == StoredGroups(s, Scan(0, [], None), HexReader(s))
    ensures Parsed(a, s) == (Addr(IPv6, OverZeros(g)), false)
  {
    assert FromText(s).None?;
  }

  /** All sixteen bytes come back exactly if the unused ones were as `Convert` leaves them: clear,
      but for the last, which it forgets and which therefore repeats the address's last byte. */
  lemma AllBytesComeBack(a: Addr)
    requires |a.ip| == 16 && a.af == IPv4
    ensures Converted(Converted(a, IPv6).0, IPv4).0 == a <==>
            (forall i | 4 <= i < 15 :: a.ip[i] == 0) && a.ip[15] == a.ip[3]
  {
    MapAndBack(a);
    var m := Converted(a, IPv6).0;
    var b := Converted(m, IPv4).0;
    assert m.ip[12..] == a.ip[..4];
    assert forall i | 0 <= i < 16 :: b.ip[i] == if i < 4 then a.ip[i] else if i < 15 then 0 else a.ip[3];
    assert b.ip == a.ip <==> forall i | 0 <= i < 16 :: b.ip[i] == a.ip[i];
  }

  /** The byte that `Convert` forgets to clear: equality holds, but not of all sixteen bytes. */
  lemma LastByteStays()
    ensures var a := Addr(IPv4, [1, 2, 3, 4, 0, 0, 0, 0, 0, 0, 0, 0, 0, 0, 0, 0]);
      var b := Converted(Converted(a, IPv6).0, IPv4).0;
      Same(b, a) && b.ip[15] == 4 && a.ip != b.ip
  {
    var a := Addr(IPv4, [1, 2, 3, 4, 0, 0, 0, 0, 0, 0, 0, 0, 0, 0, 0, 0]);
    MapAndBack(a);
    var m := Converted(a, IPv6).0;
    assert m.ip[15] == a.ip[3] == 4;
    assert Converted(m, IPv4).0.ip[15] == m.ip[15];
  }

  lemma {:induction false} DottedHasDot(b: bytes)
    requires |b| >= 2
    ensures '.' in Dotted(b)
  {
    assert Dotted(b)[|Digits(b[0], 10)|] == '.';
  }

  lemma {:induction false} ColonsHaveColon(l: seq<string>)
    requires |l| >= 2
    ensures ':' in Colons(l)
  {
    assert Colons(l)[|l[0]|] == ':';
  }

  lemma {:induction false} NoDotInColons(l: seq<string>)
    requires l != [] && forall k | 0 <= k < |l| :: GroupText(l[k])
    ensures '.' !in Colons(l)
    decreases |l|
  {
    assert GroupText(l[0]);
    assert forall k | 0 <= k < |l[0]| :: l[0][k] != '.';
    if |l| > 1 {
      NoDotInColons(l[1..]);
    }
  }

  /** Every address survives `ToString` and `FromString`. */
  lemma TextRoundTrip(a: Addr)
    requires |a.ip| == 16 && a.af != NoFamily
    ensures FromText(ToText(a)) == Some((a.af, a.ip[..Len(a.af)]))
  {
    if a.af == IPv4 {
      DottedHasDot(a.ip[..4]);
      RoundTrip4(a.ip[..4]);
    } else {
      var g := GroupsOf(a.ip);
      HexTextsRead(g);
      ColonsHaveColon(HexTexts(g));
      NoDotInColons(HexTexts(g));
      RoundTrip6(g);
      GroupsRoundTrip(a.ip);
      assert a.ip[..16] == a.ip;
    }
  }

  // The parsers in place

  lemma {:induction false} GroupBytesConcat(a: seq<group>, b: seq<group>)
    ensures GroupBytes(a + b) == GroupBytes(a) + GroupBytes(b)
    decreases |a|
  {
    if a == [] {
      assert a + b == b;
    } else {
      assert (a + b)[1..] == a[1..] + b;
      GroupBytesConcat(a[1..], b);
    }
  }

  function ZeroBytes(n: nat): (r: bytes)
    ensures |r| == n && forall i | 0 <= i < n :: r[i] == 0
  {
    seq(n, _ => 0)
  }

  lemma {:induction false} GroupBytesZeros(n: nat)
    ensures GroupBytes(Zeros(n)) == ZeroBytes(2 * n)
  {
    if n > 0 {
      assert Zeros(n)[1..] == Zeros(n - 1);
      GroupBytesZeros(n - 1);
    }
  }

  /** What the dotted loop ends with when it stands at `i` having stored `acc`. */
  ghost function PartsOnto(acc: bytes, s: string, i: nat, left: nat, read: NumberReader): Option<bytes>
    requires Sane(read, s) && i <= |s|
  {
    var r := Parts(s, i, left, read);
    if r.None? then None else Some(acc + r.value)
  }

  lemma PartsOntoStep(acc: bytes, s: string, i: nat, left: nat, read: NumberReader)
    requires Sane(read, s) && i < |s| && 0 < left
    ensures var (x, p) := read(i);
      PartsOnto(acc, s, i, left, read) ==
        if x > 255 || p == i || (p < |s| && s[p] != '.') then None
        else PartsOnto(acc + [x], s, if p < |s| then p + 1 else p, left - 1, read)
    ensures var (x, p) := read(i);
      StoredParts(acc, s, i, left, read) ==
        if x > 255 || p == i then acc
        else if p < |s| && s[p] != '.' then acc + [x]
        else StoredParts(acc + [x], s, if p < |s| then p + 1 else p, left - 1, read)
  {
    var (x, p) := read(i);
    if !(x > 255 || p == i || (p < |s| && s[p] != '.')) {
      var rest := Parts(s, if p < |s| then p + 1 else p, left - 1, read);
      if rest.Some? { assert acc + ([x] + rest.value) == (acc + [x]) + rest.value; }
    }
  }

  lemma PartsOntoNothing(s: string, read: NumberReader)
    requires Sane(read, s)
    ensures PartsOnto([], s, 0, 4, read) == Parts(s, 0, 4, read)
  {
    var r := Parts(s, 0, 4, read);
    if r.Some? { assert [] + r.value == r.value; }
  }

  lemma PartsOntoEnd(acc: bytes, s: string, i: nat, left: nat, read: NumberReader)
    requires Sane(read, s) && i <= |s| && (left == 0 || i == |s|)
    ensures PartsOnto(acc, s, i, left, read) == Some(acc) && StoredParts(acc, s, i, left, read) == acc
  {
    assert acc + [] == acc;
  }

  /** The array starts with the bytes and is zero behind them, up to the fourth. */
  ghost predicate Starts4(to: seq<byte>, b: bytes)
    requires |to| >= 4
  {
    |b| <= 4 && to[..|b|] == b && forall k | |b| <= k < 4 :: to[k] == 0
  }

  lemma StartsMore4(to: seq<byte>, b: bytes, x: byte)
    requires |to| >= 4 && |b| < 4 && Starts4(to, b)
    ensures Starts4(to[|b| := x], b + [x])
  {
    var now := to[|b| := x];
    forall k | 0 <= k <= |b| ensures now[..|b| + 1][k] == (b + [x])[k] {
      if k < |b| { assert to[..|b|][k] == b[k]; }
    }
  }

  /** The loop of `_inet_aton` stands at `from` with the parts `b` stored. */
  ghost predicate Standing(b: bytes, s: string, from: nat, read: NumberReader)
    requires Sane(read, s)
  {
    && |b| <= 4 && from <= |s|
    && PartsOnto(b, s, from, 4 - |b|, read) == Parts(s, 0, 4, read)
    && StoredParts(b, s, from, 4 - |b|, read) == StoredParts([], s, 0, 4, read)
  }

  lemma StandingAtEnd(b: bytes, s: string, from: nat, read: NumberReader)
    requires Sane(read, s) && Standing(b, s, from, read) && (|b| == 4 || from == |s|)
    ensures Parts(s, 0, 4, read) == Some(b) && StoredParts([], s, 0, 4, read) == b
  {
    PartsOntoEnd(b, s, from, 4 - |b|, read);
  }

  /** A number of one byte moves the loop on to behind its dot. */
  lemma StandingNext(b: bytes, s: string, from: nat, read: NumberReader, x: byte, p: nat, left: nat)
    requires Sane(read, s) && Standing(b, s, from, read) && left == 4 - |b| > 0 && from < |s|
    requires read(from) == (x as int, p) && p != from && (p < |s| ==> s[p] == '.')
    ensures Standing(b + [x], s, if p < |s| then p + 1 else p, read)
  {
    PartsOntoStep(b, s, from, left, read);
    assert 4 - |b + [x]| == left - 1;
  }

  /** A number that is none or too large, or has something else behind it, ends it. */
  lemma StandingFails(b: bytes, s: string, from: nat, read: NumberReader, x: nat, p: nat, left: nat)
    requires Sane(read, s) && Standing(b, s, from, read) && left == 4 - |b| > 0 && from < |s|
    requires read(from) == (x, p) && (x > 255 || p == from || (p < |s| && s[p] != '.'))
    ensures Parts(s, 0, 4, read).None?
    ensures StoredParts([], s, 0, 4, read) == if x > 255 || p == from then b else b + [x]
  {
    PartsOntoStep(b, s, from, left, read);
  }

  /** The body of the loop of `_inet_aton`: stores a number and moves past the dot behind it. */
  method ReadPart(s: string, from: nat, to: array<byte>, i: nat, ghost b: bytes, ghost read: NumberReader)
    returns (next: Option<nat>, ghost b': bytes)
    requires i == |b| < 4 <= to.Length && from < |s| && Starts4(to[..], b)
    requires Sane(read, s) && read(from) == Strtoul(s, from, 0) && Standing(b, s, from, read)
    modifies to
    ensures Starts4(to[..], b') && forall k | 4 <= k < to.Length :: to[k] == old(to[k])
    ensures next.None? ==> Parts(s, 0, 4, read).None? && StoredParts([], s, 0, 4, read) == b'
    ensures next.Some? ==> |b'| == i + 1 && Standing(b', s, next.value, read)
  {
    var (x, p) := Strtoul(s, from, 0);
    if x > 255 || p == from {
      StandingFails(b, s, from, read, x, p, 4 - i);
      return None, b;
    }
    StartsMore4(to[..], b, x);
    to[i] := x;
    assert to[..] == old(to[..])[i := x];
    b' := b + [x];
    if p < |s| {
      if s[p] != '.' {
        StandingFails(b, s, from, read, x, p, 4 - i);
        return None, b';
      }
    }
    StandingNext(b, s, from, read, x, p, 4 - i);
    if p < |s| {
      p := p + 1;
    }
    return Some(p), b';
  }

  method Clear4(to: array<byte>)
    requires to.Length >= 4
    modifies to
    ensures Starts4(to[..], []) && forall k | 4 <= k < to.Length :: to[k] == old(to[k])
  {
    to[0], to[1], to[2], to[3] := 0, 0, 0, 0;
  }

  /** The loop of `_inet_aton`. */
  method ReadParts(s: string, to: array<byte>, ghost read: NumberReader) returns (ok: bool, i: nat)
    requires to.Length >= 4 && Sane(read, s) && forall p: nat | p <= |s| :: read(p) == Strtoul(s, p, 0)
    modifies to
    ensures ok <==> Parts(s, 0, 4, read).Some?
    ensures ok ==> i == |StoredParts([], s, 0, 4, read)| && Parts(s, 0, 4, read) == Some(StoredParts([], s, 0, 4, read))
    ensures Starts4(to[..], StoredParts([], s, 0, 4, read))
    ensures forall k | 4 <= k < to.Length :: to[k] == old(to[k])
  {
    Clear4(to);
    var from: nat := 0;
    i := 0;
    ghost var b: bytes := [];
    PartsOntoNothing(s, read);
    while i < 4 && from < |s|
      invariant i == |b| <= 4 && Starts4(to[..], b) && Standing(b, s, from, read)
      invariant forall k | 4 <= k < to.Length :: to[k] == old(to[k])
    {
      var next;
      next, b := ReadPart(s, from, to, i, b, read);
      if next.None? {
        return false, i;
      }
      i, from := i + 1, next.value;
    }
    StandingAtEnd(b, s, from, read);
    ok := true;
  }

  /** `_inet_aton` */
  method InetAton(s: string, to: array<byte>) returns (ok: bool)
    requires to.Length >= 4
    modifies to
    ensures ok <==> Aton(s).Some?
    ensures ok ==> to[..4] == Aton(s).value
    ensures !ok ==> Starts4(to[..], StoredParts([], s, 0, 4, AnyReader(s)))
    ensures forall k | 4 <= k < to.Length :: to[k] == old(to[k])
  {
    var i;
    ok, i := ReadParts(s, to, AnyReader(s));
    if s == "" || !ok {
      return false;
    }
    NonEmptyParts(s);
    SpreadParts(s, to, i);
  }

  /** The switch on the class of the network. */
  method SpreadParts(s: string, to: array<byte>, i: nat)
    requires to.Length >= 4 && s != "" && Parts(s, 0, 4, AnyReader(s)).Some? && Parts(s, 0, 4, AnyReader(s)).value != []
    requires i == |Parts(s, 0, 4, AnyReader(s)).value| && Starts4(to[..], Parts(s, 0, 4, AnyReader(s)).value)
    modifies to
    ensures to[..4] == Aton(s).value
    ensures forall k | 4 <= k < to.Length :: to[k] == old(to[k])
  {
    ghost var b := to[..4];
    assert to[..][..i] == b[..i];
    assert b == Parts(s, 0, 4, AnyReader(s)).value + seq(4 - i, _ => 0);
    var class_ := to[0] / 64;
    if class_ < 2 {
      if i == 3 {
        to[3] := to[2];
        to[2] := to[1];
        to[1] := 0;
      } else if i == 2 {
        to[3] := to[1];
        to[1] := 0;
      }
    } else if class_ == 2 {
      if i == 3 {
        to[3] := to[2];
        to[2] := 0;
      }
    }
  }

  lemma NonEmptyParts(s: string)
    requires s != "" && Parts(s, 0, 4, AnyReader(s)).Some?
    ensures Parts(s, 0, 4, AnyReader(s)).value != []
  {
  }

  /** The array holds the bytes of the groups and is zero behind them. */
  ghost predicate Starts16(to: seq<byte>, g: seq<group>)
    requires |to| == 16
  {
    2 * |g| <= 16 && to[..2 * |g|] == GroupBytes(g) && forall k | 2 * |g| <= k < 16 :: to[k] == 0
  }

  lemma OneGroup(x: group)
    ensures GroupBytes([x]) == [x / 0x100, x % 0x100]
  {
    assert [x][1..] == [];
  }

  lemma StartsMore16(to: seq<byte>, g: seq<group>, x: group)
    requires |to| == 16 && |g| < 8 && Starts16(to, g)
    ensures Starts16(to[2 * |g| := x / 0x100][2 * |g| + 1 := x % 0x100], g + [x])
  {
    AppendGroup(g, x);
    var i := 2 * |g|;
    var now := to[i := x / 0x100][i + 1 := x % 0x100];
    assert now[..i + 2] == to[..i] + [x / 0x100, x % 0x100];
  }

  /** The body of the IPv6 loop: stores one group and moves past what follows it. */
  method ReadGroup(s: string, cur: Scan, to: array<byte>, i: nat) returns (next: Option<Scan>)
    requires to.Length == 16 && i == 2 * |cur.groups| < 16 && cur.p < |s| && IpCharOk(s[cur.p])
    requires Starts16(to[..], cur.groups)
    modifies to
    ensures next == ScanGroup(s, cur, HexReader(s))
    ensures next.Some? ==> Starts16(to[..], next.value.groups)
    ensures next.None? ==> Starts16(to[..], cur.groups + StoredLast(s, cur, HexReader(s)))
  {
    var (x, p) := Strtoul(s, cur.p, 16);
    assert (x, p) == HexReader(s)(cur.p);
    if x > 0xFFFF || (!(p < |s| && s[p] == ':') && !Delimiter(s, p)) {
      assert cur.groups + [] == cur.groups;
      return None;
    }
    StartsMore16(to[..], cur.groups, x);
    to[i], to[i + 1] := x / 0x100, x % 0x100;
    assert to[..] == old(to[..])[i := x / 0x100][i + 1 := x % 0x100];
    var groups := cur.groups + [x];
    if p < |s| && s[p] == ':' {
      p := p + 1;
      if p < |s| && s[p] == ':' {
        if cur.ellipsis.Some? {
          return None;
        }
        return Some(Scan(p + 1, groups, Some(|groups|)));
      }
    }
    return Some(Scan(p, groups, cur.ellipsis));
  }

  /** The IPv6 loop: reads groups into the cleared bytes until the text ends or is malformed. */
  method ReadGroups(s: string, to: array<byte>) returns (st: Option<Scan>)
    requires to.Length == 16 && Starts16(to[..], [])
    modifies to
    ensures st == ScanGroups(s, Scan(0, [], None), HexReader(s))
    ensures Starts16(to[..], StoredGroups(s, Scan(0, [], None), HexReader(s)))
  {
    ghost var read := HexReader(s);
    var cur, i := Scan(0, [], None), 0;
    while i < 16 && cur.p < |s| && IpCharOk(s[cur.p])
      invariant cur.p <= |s| && i == 2 * |cur.groups| <= 16 && Starts16(to[..], cur.groups)
      invariant ScanGroups(s, cur, read) == ScanGroups(s, Scan(0, [], None), read)
      invariant StoredGroups(s, cur, read) == StoredGroups(s, Scan(0, [], None), read)
      decreases 16 - i
    {
      var next := ReadGroup(s, cur, to, i);
      if next.None? {
        return None;
      }
      cur, i := next.value, i + 2;
    }
    st := Some(cur);
  }

  lemma AppendGroup(g: seq<group>, x: group)
    ensures GroupBytes(g + [x]) == GroupBytes(g) + [x / 0x100, x % 0x100]
  {
    GroupBytesConcat(g, [x]);
    OneGroup(x);
  }

  /** `_inet_pton` for IPv6 */
  method InetPton(s: string, to: array<byte>) returns (ok: bool)
    requires to.Length == 16
    modifies to
    ensures ok <==> Pton(s).Some?
    ensures ok ==> to[..] == GroupBytes(Pton(s).value)
    ensures !ok ==> Starts16(to[..], StoredGroups(s, Scan(0, [], None), HexReader(s)))
  {
    forall k | 0 <= k < 16 {
      to[k] := 0;
    }
    assert Starts16(to[..], []);
    var st := ReadGroups(s, to);
    if st.Some? {
      ScannedAreStored(s, Scan(0, [], None), HexReader(s));
    }
    if st.None? || st.value.p == 0 || !Delimiter(s, st.value.p) {
      return false;
    }
    PlaceGroups(to, st.value);
    return true;
  }

  /** The end of `_inet_pton`: groups that were left out are zeros at the ellipsis. */
  method PlaceGroups(to: array<byte>, st: Scan)
    requires to.Length == 16 && Starts16(to[..], st.groups) && InPlace(st)
    modifies to
    ensures to[..] == GroupBytes(Place(st.groups, st.ellipsis))
  {
    var i, e := 2 * |st.groups|, if st.ellipsis.None? then 0 else 2 * st.ellipsis.value;
    ghost var b := to[..];
    PlaceBytes(st.groups, st.ellipsis, b, i, e);
    if i < 16 {
      OpenGap(to, i, e);
    } else {
      assert b == b[..e] + ZeroBytes(0) + b[e..i];
    }
  }

  /** The `memmove` and `memset` that put the missing groups at the ellipsis. */
  method OpenGap(to: array<byte>, i: nat, e: nat)
    requires to.Length == 16 && e <= i <= 16
    modifies to
    ensures to[..] == old(to[..e]) + ZeroBytes(16 - i) + old(to[e..i])
  {
    forall k | e <= k < i {
      to[k + 16 - i] := to[k];
    }
    forall k | e <= k < e + 16 - i {
      to[k] := 0;
    }
  }

  lemma PlaceBytes(g: seq<group>, ellipsis: Option<nat>, b: bytes, i: nat, e: nat)
    requires |b| == 16 && |g| <= 8 && i == 2 * |g| && b[..i] == GroupBytes(g)
    requires if ellipsis.None? then e == 0 else ellipsis.value <= |g| && e == 2 * ellipsis.value
    ensures b[..e] + ZeroBytes(16 - i) + b[e..i] == GroupBytes(Place(g, ellipsis))
  {
    var k := if ellipsis.None? then 0 else ellipsis.value;
    CutBytes(g, k, b);
    GroupBytesZeros(8 - |g|);
    var zeros := Zeros(8 - |g|);
    PlacedBetween(g[..k], zeros, g[k..], b[..e], ZeroBytes(16 - i), b[e..i], Place(g, ellipsis));
  }

  lemma CutBytes(g: seq<group>, k: nat, b: bytes)
    requires k <= |g| && 2 * |g| <= |b| && b[..2 * |g|] == GroupBytes(g)
    ensures b[..2 * k] == GroupBytes(g[..k]) && b[2 * k..2 * |g|] == GroupBytes(g[k..])
  {
    SplitGroups(g, k);
    SplitPrefix(b, 2 * |g|, GroupBytes(g[..k]), GroupBytes(g[k..]));
  }

  lemma PlacedBetween(
    x: seq<group>, z: seq<group>, y: seq<group>, front: bytes, zeros: bytes, back: bytes, whole: seq<group>)
    requires front == GroupBytes(x) && zeros == GroupBytes(z) && back == GroupBytes(y) && whole == x + z + y
    ensures front + zeros + back == GroupBytes(whole)
  {
    ThreeParts(x, z, y);
  }

  lemma ThreeParts(x: seq<group>, z: seq<group>, y: seq<group>)
    ensures GroupBytes(x + z + y) == GroupBytes(x) + GroupBytes(z) + GroupBytes(y)
  {
    GroupBytesConcat(x, z);
    GroupBytesConcat(x + z, y);
  }

  lemma SplitGroups(g: seq<group>, k: nat)
    requires k <= |g|
    ensures GroupBytes(g) == GroupBytes(g[..k]) + GroupBytes(g[k..])
  {
    assert g == g[..k] + g[k..];
    GroupBytesConcat(g[..k], g[k..]);
  }

  lemma SplitPrefix(b: bytes, i: nat, x: bytes, y: bytes)
    requires i <= |b| && b[..i] == x + y
    ensures b[..|x|] == x && b[|x|..i] == y
  {
    assert b[..i][..|x|] == x && b[..i][|x|..] == y;
  }

  /** What the printing loop ends with when it has printed `acc` and `g` is left. */
  ghost function PrintOnto(acc: string, g: seq<group>): string
    decreases |g|
  {
    if g == [] then acc else PrintOnto((if acc == "" then "" else acc + ":") + Digits(g[0], 16), g[1..])
  }

  lemma {:induction false} PrintOntoIs(acc: string, g: seq<group>)
    requires acc != "" && g != []
    ensures PrintOnto(acc, g) == acc + (":" + Colons(HexTexts(g)))
    decreases |g|
  {
    var d := Digits(g[0], 16);
    if |g| == 1 {
      OneText(g);
      assert acc + ":" + d == acc + (":" + d);
      assert PrintOnto(acc + ":" + d, []) == acc + ":" + d;
    } else {
      PrintOntoIs(acc + ":" + d, g[1..]);
      MoreTexts(g);
      var rest := ":" + Colons(HexTexts(g[1..]));
      Regroup(acc + ":", d, rest);
      Regroup(acc, ":", d + rest);
    }
  }

  lemma OneText(g: seq<group>)
    requires |g| == 1
    ensures Colons(HexTexts(g)) == Digits(g[0], 16)
  {
    assert HexTexts(g) == [Digits(g[0], 16)];
  }

  lemma MoreTexts(g: seq<group>)
    requires |g| > 1
    ensures Colons(HexTexts(g)) == Digits(g[0], 16) + (":" + Colons(HexTexts(g[1..])))
  {
    assert HexTexts(g)[1..] == HexTexts(g[1..]);
  }

  lemma PrintAll(g: seq<group>)
    requires |g| == 8
    ensures PrintOnto("", g) == Print6(g)
  {
    var d := Digits(g[0], 16);
    assert "" + d == d;
    PrintOntoIs(d, g[1..]);
    MoreTexts(g);
  }

  /** `_inet_ntop` for IPv6: the printing loop. */
  method InetNtop6(ip: bytes) returns (s: string)
    requires |ip| == 16
    ensures s == Print6(GroupsOf(ip))
  {
    s := "";
    ghost var g := GroupsOf(ip);
    var i := 0;
    while i < 16
      invariant 0 <= i <= 16 && i % 2 == 0 && (i == 0 <==> s == "")
      invariant PrintOnto(s, g[i / 2..]) == PrintOnto("", g)
    {
      var w: group := ip[i] as int * 0x100 + ip[i + 1] as int;
      GroupAt(ip, i / 2);
      assert g[i / 2..][0] == w && g[i / 2..][1..] == g[(i + 2) / 2..];
      if i > 0 {
        s := s + ":";
      }
      s := s + Digits(w, 16);
      i := i + 2;
    }
    PrintAll(g);
  }

  lemma {:induction false} GroupAt(b: bytes, k: nat)
    requires |b| % 2 == 0 && 2 * k + 1 < |b|
    ensures GroupsOf(b)[k] == b[2 * k] as int * 0x100 + b[2 * k + 1] as int
    decreases k
  {
    if k > 0 {
      GroupAt(b[2..], k - 1);
    }
  }

  lemma Bytes4(now: seq<byte>, was: seq<byte>, b: bytes)
    requires |now| == |was| == 16 && Starts4(now, b) && forall k | 4 <= k < 16 :: now[k] == was[k]
    ensures now == b + ZeroBytes(4 - |b|) + was[4..]
  {
    forall k | 0 <= k < 16 ensures now[k] == (b + ZeroBytes(4 - |b|) + was[4..])[k] {
      if k < |b| { assert now[..|b|][k] == now[k]; }
    }
  }

  lemma Bytes16(now: seq<byte>, g: seq<group>)
    requires |now| == 16 && Starts16(now, g)
    ensures now == GroupBytes(g) + ZeroBytes(16 - 2 * |g|)
  {
    forall k | 0 <= k < 16 ensures now[k] == (GroupBytes(g) + ZeroBytes(16 - 2 * |g|))[k] {
      if k < 2 * |g| { assert now[..2 * |g|][k] == now[k]; }
    }
  }

  class CAddress {
    const ip: array<byte>
    var af: Family

    ghost predicate Valid() {
      ip.Length == 16
    }

    ghost function Abs(): Addr
      requires Valid()
      reads this, ip
    {
      Addr(af, ip[..])
    }

    constructor (af: Family)
      ensures Valid() && fresh(ip) && Abs() == Addr(af, ZeroBytes(16))
    {
      this.af := af;
      var zeros := new byte[16](_ => 0);
      ip := zeros;
      new;
      assert ip[..] == ZeroBytes(16);
    }

    method ToString() returns (s: string)
      requires Valid()
      ensures s == ToText(Abs())
    {
      match af
      case NoFamily => s := "";
      case IPv4 =>
        s := Dotted(ip[..4]);
        assert ip[..][..4] == ip[..4];
      case IPv6 => s := InetNtop6(ip[..]);
    }

    /** On success the address is the one the text stands for. */
    method FromString(s: string) returns (ok: bool)
      requires Valid()
      modifies this`af, ip
      ensures (Abs(), ok) == Parsed(old(Abs()), s)
      ensures ok ==> af == FromText(s).value.0 && ip[..Len(af)] == FromText(s).value.1
    {
      if '.' in s {
        af := IPv4;
        ok := FromString4(s);
      } else if ':' in s {
        af := IPv6;
        ok := FromString6(s);
      } else {
        ok := false;
      }
    }

    method FromString4(s: string) returns (ok: bool)
      requires Valid() && '.' in s
      modifies ip
      ensures (ip[..], ok) == (Parsed(old(Abs()), s).0.ip, Parsed(old(Abs()), s).1)
      ensures ok ==> ip[..4] == FromText(s).value.1
    {
      ghost var was := ip[..];
      ok := InetAton(s, ip);
      if ok {
        assert ip[..] == ip[..4] + was[4..];
      } else {
        Bytes4(ip[..], was, StoredParts([], s, 0, 4, AnyReader(s)));
      }
    }

    method FromString6(s: string) returns (ok: bool)
      requires Valid() && '.' !in s && ':' in s
      modifies ip
      ensures (ip[..], ok) == (Parsed(old(Abs()), s).0.ip, Parsed(old(Abs()), s).1)
      ensures ok ==> ip[..16] == FromText(s).value.1
    {
      ok := InetPton(s, ip);
      if ok {
        assert ip[..16] == ip[..];
      } else {
        Bytes16(ip[..], StoredGroups(s, Scan(0, [], None), HexReader(s)));
      }
    }

    method IsMappedIPv4() returns (r: bool)
      requires Valid()
      ensures r == IsMapped(Abs())
    {
      r := af == IPv6 && ip[10] == 0xFF && ip[11] == 0xFF
        && ip[0] == 0 && ip[1] == 0 && ip[2] == 0 && ip[3] == 0 && ip[4] == 0
        && ip[5] == 0 && ip[6] == 0 && ip[7] == 0 && ip[8] == 0 && ip[9] == 0;
    }

    method Convert(to: Family) returns (ok: bool)
      requires Valid()
      modifies this`af, ip
      ensures (Abs(), ok) == Converted(old(Abs()), to)
    {
      if to == af {
        return true;
      }
      match to {
      case IPv6 =>
        if af != IPv4 {
          return false;
        }
        ip[12], ip[13], ip[14], ip[15] := ip[0], ip[1], ip[2], ip[3];
        ip[10], ip[11] := 0xFF, 0xFF;
        forall i | 0 <= i < 10 {
          ip[i] := 0;
        }
        assert ip[..] == [0, 0, 0, 0, 0, 0, 0, 0, 0, 0, 0xFF, 0xFF] + old(ip[..])[..4];
      case IPv4 =>
        var mapped := IsMappedIPv4();
        if !mapped {
          return false;
        }
        ip[0], ip[1], ip[2], ip[3] := ip[12], ip[13], ip[14], ip[15];
        forall i | 4 <= i < 15 {
          ip[i] := 0;
        }
        assert ip[..] == old(ip[..])[12..] + [0, 0, 0, 0, 0, 0, 0, 0, 0, 0, 0] + old(ip[..])[15..];
      case NoFamily => return false;
      }
      af := to;
      ok := true;
    }
  }

  /** Printing any address and parsing the text gives an equal address. */
  method PrintThenParse(a: CAddress) returns (b: CAddress, ok: bool)
    requires a.Valid() && a.af != NoFamily
    ensures fresh(b) && b.Valid() && ok && Same(b.Abs(), a.Abs())
  {
    var s := a.ToString();
    b := new CAddress(NoFamily);
    TextRoundTrip(a.Abs());
    ok := b.FromString(s);
    assert b.ip[..][..Len(b.af)] == b.ip[..Len(b.af)];
  }
}
