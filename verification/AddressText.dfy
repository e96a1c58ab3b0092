/**
 The text forms of IPv4 and IPv6 addresses, section 2.2 of RFC 4291, as functions on strings.
 Strings are NUL-free, so the terminating NUL is the index `|s|`.
 */
module AddressText {
  import opened Options
  import opened Bytes
  import opened Numerals

  // IPv4

  /** Decimal numbers with dots between them; four of them are the form `%d.%d.%d.%d`. */
  function Dotted(b: bytes): string
    requires b != []
  {
    if |b| == 1 then Digits(b[0], 10) else Digits(b[0], 10) + ("." + Dotted(b[1..]))
  }

  /** Reads a number at an index of the text: its value and where it ends. */
  type NumberReader = nat -> (nat, nat)

  ghost predicate Sane(read: NumberReader, s: string) {
    forall i: nat | i <= |s| :: i <= read(i).1 <= |s|
  }

  /** `strtoul` with base 16. */
  function HexReader(s: string): (read: NumberReader)
    ensures Sane(read, s)
  {
    (i: nat) => if i <= |s| then Strtoul(s, i, 16) else (0, i)
  }

  /** One iteration: `None` if the text is malformed. */

  /** `strtoul` with the base left open. */
  function AnyReader(s: string): (read: NumberReader)
    ensures Sane(read, s)
  {
    (i: nat) => if i <= |s| then Strtoul(s, i, 0) else (0, i)
  }

  /** The parts of a dotted text from index `i` on, at most `left` of them. */
  function Parts(s: string, i: nat, left: nat, read: NumberReader): (r: Option<bytes>)
    requires Sane(read, s) && i <= |s|
    ensures r.Some? ==> |r.value| <= left
    decreases left
  {
    if left == 0 || i == |s| then Some([])
    else
      var (x, p) := read(i);
      if x > 255 || p == i then None
      else if p < |s| && s[p] != '.' then None
      else
        var rest := Parts(s, if p < |s| then p + 1 else p, left - 1, read);
        if rest.None? then None else Some([x] + rest.value)
  }

  /** The parts stored by the time the loop of `_inet_aton` ends, in success or failure. */
  function StoredParts(acc: bytes, s: string, i: nat, left: nat, read: NumberReader): (r: bytes)
    requires Sane(read, s) && i <= |s|
    ensures |acc| <= |r| <= |acc| + left
    decreases left
  {
    if left == 0 || i == |s| then acc
    else
      var (x, p) := read(i);
      if x > 255 || p == i then acc
      else if p < |s| && s[p] != '.' then acc + [x]
      else StoredParts(acc + [x], s, if p < |s| then p + 1 else p, left - 1, read)
  }

  /** Fewer than four parts are spread out according to the class of the network. */
  function Spread(p: bytes): (r: bytes)
    requires 1 <= |p| <= 4
    ensures |r| == 4
  {
    var b := p + seq(4 - |p|, _ => 0);
    if b[0] < 0x80 then
      if |p| == 3 then [b[0], 0, b[1], b[2]]
      else if |p| == 2 then [b[0], 0, b[2], b[1]]
      else b
    else if b[0] < 0xc0 && |p| == 3 then [b[0], b[1], 0, b[2]]
    else b
  }

  /** `_inet_aton` */
  function Aton(s: string): (r: Option<bytes>)
    ensures r.Some? ==> |r.value| == 4
  {
    if s == "" then None
    else
      var p := Parts(s, 0, 4, AnyReader(s));
      if p.None? || p.value == [] then None else Some(Spread(p.value))
  }

  /** The dotted form of `b` takes up `s[i..e]`. */
  ghost predicate DottedAt(s: string, i: nat, b: bytes, e: nat)
    requires b != []
    decreases |b|
  {
    var p := i + |Digits(b[0], 10)|;
    && Has(s, i, Digits(b[0], 10))
    && if |b| == 1 then p == e else p < |s| && s[p] == '.' && DottedAt(s, p + 1, b[1..], e)
  }

  lemma HasSplit(s: string, i: nat, a: string, b: string)
    requires Has(s, i, a + b)
    ensures Has(s, i, a) && Has(s, i + |a|, b)
  {
    assert forall k | 0 <= k < |a| :: (a + b)[k] == a[k];
    assert forall k | 0 <= k < |b| :: (a + b)[|a| + k] == b[k];
    forall k | 0 <= k < |b| ensures s[i + |a| + k] == b[k] {
      assert s[i + (|a| + k)] == (a + b)[|a| + k];
    }
  }

  /** A text followed by one character and more text. */
  lemma HasThree(s: string, i: nat, a: string, c: string, b: string)
    requires |c| == 1 && Has(s, i, a + (c + b))
    ensures Has(s, i, a) && i + |a| < |s| && s[i + |a|] == c[0] && Has(s, i + |a| + 1, b)
  {
    HasSplit(s, i, a, c + b);
    HasSplit(s, i + |a|, c, b);
    assert s[i + |a| + 0] == c[0];
  }

  lemma {:induction false} DottedIsAt(s: string, i: nat, b: bytes)
    requires b != [] && Has(s, i, Dotted(b))
    ensures DottedAt(s, i, b, i + |Dotted(b)|)
    decreases |b|
  {
    if |b| > 1 {
      HasThree(s, i, Digits(b[0], 10), ".", Dotted(b[1..]));
      DottedIsAt(s, i + |Digits(b[0], 10)| + 1, b[1..]);
    }
  }

  /** The reader reads every printed number that ends at the end of the text or at something that
      is neither digit nor letter. */
  ghost predicate ReadsPrinted(read: NumberReader, s: string) {
    && Sane(read, s)
    && forall i: nat, n: byte {:trigger PrintedAt(s, i, n)} | PrintedAt(s, i, n) ::
         i < i + |Digits(n, 10)| <= |s| && read(i) == (n, i + |Digits(n, 10)|)
  }

  ghost predicate PrintedAt(s: string, i: nat, n: byte) {
    var e := i + |Digits(n, 10)|;
    Has(s, i, Digits(n, 10)) && (e < |s| ==> DigitValue(s[e]) == 36)
  }

  lemma AnyReaderReads(s: string)
    ensures ReadsPrinted(AnyReader(s), s)
  {
    var read := AnyReader(s);
    forall i: nat, n: byte | PrintedAt(s, i, n)
      ensures i < i + |Digits(n, 10)| <= |s| && read(i) == (n, i + |Digits(n, 10)|)
    {
      ReadDecimal(s, i, n);
    }
  }

  lemma PartsStep(s: string, i: nat, left: nat, x: byte, p: nat, rest: bytes, read: NumberReader)
    requires Sane(read, s) && 0 < left && i < p <= |s| && read(i) == (x, p) && (p < |s| ==> s[p] == '.')
    requires Parts(s, if p < |s| then p + 1 else p, left - 1, read) == Some(rest)
    ensures Parts(s, i, left, read) == Some([x] + rest)
  {
  }

  /** The parts of a printed address read back, up to the end of the text or, if they are all that
      is wanted, another dot. */
  lemma {:induction false} PartsOf(s: string, i: nat, b: bytes, e: nat, left: nat, read: NumberReader)
    requires ReadsPrinted(read, s) && 1 <= |b| <= left && DottedAt(s, i, b, e)
    requires e == |s| || (|b| == left && e < |s| && s[e] == '.')
    ensures i <= |s| && Parts(s, i, left, read) == Some(b)
    decreases |b|
  {
    var p := i + |Digits(b[0], 10)|;
    assert PrintedAt(s, i, b[0]);
    if |b| > 1 {
      PartsOf(s, p + 1, b[1..], e, left - 1, read);
    } else {
      assert Parts(s, if e < |s| then e + 1 else e, left - 1, read) == Some([]) && b[1..] == [];
    }
    PartsStep(s, i, left, b[0], p, b[1..], read);
    assert [b[0]] + b[1..] == b;
  }

  lemma AtonIs(s: string, b: bytes)
    requires s != "" && 1 <= |b| <= 4 && Parts(s, 0, 4, AnyReader(s)) == Some(b)
    ensures Aton(s) == Some(Expanded(b))
  {
    SpreadForms(b);
  }

  /** A dotted text, and what may stand behind it. */
  lemma DottedReads(s: string, b: bytes, e: nat)
    requires 1 <= |b| <= 4 && DottedAt(s, 0, b, e) && s != ""
    requires e == |s| || (|b| == 4 && e < |s| && s[e] == '.')
    ensures Aton(s) == Some(Expanded(b))
  {
    AnyReaderReads(s);
    PartsOf(s, 0, b, e, 4, AnyReader(s));
    AtonIs(s, b);
  }

  /** One to four bytes in dotted form. */
  lemma DottedTexts(s: string, b: bytes)
    requires 1 <= |b| <= 4 && s == Dotted(b)
    ensures Aton(s) == Some(Expanded(b))
  {
    HasSelf(s);
    DottedWhole(s, b);
    DottedReads(s, b, |s|);
  }

  lemma DottedWhole(s: string, b: bytes)
    requires b != [] && Has(s, 0, Dotted(b)) && |s| == |Dotted(b)|
    ensures s != "" && DottedAt(s, 0, b, |s|)
  {
    DottedIsAt(s, 0, b);
  }

  /** Every IPv4 address survives printing and parsing. */
  lemma RoundTrip4(b: bytes)
    requires |b| == 4
    ensures Aton(Dotted(b)) == Some(b)
  {
    DottedTexts(Dotted(b), b);
  }

  /** After a fourth part and a dot the rest of the text is not looked at. */
  lemma FourPartsAndMore(b: bytes, more: string)
    requires |b| == 4
    ensures Aton(Dotted(b) + ("." + more)) == Some(b)
  {
    var s := Dotted(b) + ("." + more);
    DottedPrefix(s, Dotted(b), b, ".", more);
    DottedReads(s, b, |Dotted(b)|);
  }

  lemma DottedPrefix(s: string, text: string, b: bytes, c: string, more: string)
    requires b != [] && |c| == 1 && text == Dotted(b) && s == text + (c + more)
    ensures DottedAt(s, 0, b, |text|) && |text| < |s| && s[|text|] == c[0]
  {
    HasSelf(s);
    HasThree(s, 0, text, c, more);
    DottedIsAt(s, 0, b);
  }

  lemma HasSelf(s: string)
    ensures Has(s, 0, s)
  {
  }

  /** What one to four parts stand for: fewer than four are a network and a host in it, or a network
      alone, by the class of the first. */
  function Expanded(b: bytes): bytes
    requires 1 <= |b| <= 4
  {
    var a := b[0];
    if |b| == 4 then b
    else if |b| == 1 then [a, 0, 0, 0]
    else if |b| == 2 then (if a < 128 then [a, 0, 0, b[1]] else [a, b[1], 0, 0])
    else if a < 128 then [a, 0, b[1], b[2]]
    else if a < 192 then [a, b[1], 0, b[2]]
    else [a, b[1], b[2], 0]
  }

  lemma SpreadForms(b: bytes)
    requires 1 <= |b| <= 4
    ensures Spread(b) == Expanded(b)
  {
    var z := b + seq(4 - |b|, _ => 0);
    assert |b| == 1 ==> z == [b[0], 0, 0, 0];
    assert |b| == 2 ==> z == [b[0], b[1], 0, 0];
    assert |b| == 3 ==> z == [b[0], b[1], b[2], 0];
    assert |b| == 4 ==> z == b;
  }

  /** Parts with something else than a dot behind them: refused, but stored. */
  lemma {:induction false} PartsBeforeJunk(
    s: string, i: nat, b: bytes, e: nat, left: nat, acc: bytes, read: NumberReader)
    requires ReadsPrinted(read, s) && 1 <= |b| <= left && DottedAt(s, i, b, e)
    requires e < |s| && s[e] != '.' && DigitValue(s[e]) == 36
    ensures i <= |s| && Parts(s, i, left, read).None? && StoredParts(acc, s, i, left, read) == acc + b
    decreases |b|
  {
    var p := i + |Digits(b[0], 10)|;
    assert PrintedAt(s, i, b[0]);
    if |b| > 1 {
      PartsBeforeJunk(s, p + 1, b[1..], e, left - 1, acc + [b[0]], read);
      assert acc + [b[0]] + b[1..] == acc + b;
    } else {
      assert acc + [b[0]] == acc + b;
    }
  }

  /** A number of one byte from `i` on; the next part, if any, starts at `j`, behind a dot. */
  predicate PartBetween(s: string, i: nat, x: byte, j: nat, read: NumberReader)
    requires Sane(read, s)
  {
    i < |s| &&
    var (v, p) := read(i);
    v == x && p > i && if p == |s| then j == p else s[p] == '.' && j == p + 1
  }

  /** The parts `b` lie between the cuts, and end with the text unless there are `left` of them. */
  ghost predicate CutInto(s: string, left: nat, cuts: seq<nat>, b: bytes, read: NumberReader)
    requires Sane(read, s)
  {
    && |cuts| == |b| + 1 && |b| <= left
    && (forall k | 0 <= k < |b| :: PartBetween(s, cuts[k], b[k], cuts[k + 1], read))
    && (|b| == left || cuts[|b|] == |s|)
  }

  lemma {:induction false} PartsAreCut(s: string, i: nat, left: nat, read: NumberReader) returns (cuts: seq<nat>)
    requires Sane(read, s) && i <= |s| && Parts(s, i, left, read).Some?
    ensures CutInto(s, left, cuts, Parts(s, i, left, read).value, read) && cuts[0] == i
    decreases left
  {
    if left == 0 || i == |s| {
      cuts := [i];
    } else {
      var (x, p) := read(i);
      var more := PartsAreCut(s, if p < |s| then p + 1 else p, left - 1, read);
      cuts := [i] + more;
    }
  }

  lemma {:induction false} CutsAreParts(s: string, left: nat, cuts: seq<nat>, b: bytes, read: NumberReader)
    requires Sane(read, s) && CutInto(s, left, cuts, b, read) && cuts[0] <= |s|
    ensures Parts(s, cuts[0], left, read) == Some(b)
    decreases |b|
  {
    if b != [] {
      assert PartBetween(s, cuts[0], b[0], cuts[1], read);
      forall k | 0 <= k < |b[1..]| ensures PartBetween(s, cuts[1..][k], b[1..][k], cuts[1..][k + 1], read) {
        assert PartBetween(s, cuts[k + 1], b[k + 1], cuts[k + 2], read);
      }
      CutsAreParts(s, left - 1, cuts[1..], b[1..], read);
      assert [b[0]] + b[1..] == b;
    }
  }

  /** Exactly which texts are accepted: one to four numbers in any notation that `strtoul` takes,
      with dots between them, a dot behind the last of fewer than four allowed, and anything at all
      behind a dot after the fourth. */
  lemma AtonAccepts(s: string, a: bytes)
    ensures Aton(s) == Some(a) <==>
            exists cuts, b :: CutInto(s, 4, cuts, b, AnyReader(s)) && cuts[0] == 0 && b != [] && a == Spread(b)
  {
    var read := AnyReader(s);
    if Aton(s) == Some(a) {
      var cuts := PartsAreCut(s, 0, 4, read);
      assert CutInto(s, 4, cuts, Parts(s, 0, 4, read).value, read);
    }
    if cuts, b :| CutInto(s, 4, cuts, b, read) && cuts[0] == 0 && b != [] && a == Spread(b) {
      assert PartBetween(s, cuts[0], b[0], cuts[1], read);
      CutsAreParts(s, 4, cuts, b, read);
    }
  }

  // IPv6

  type group = g: int | 0 <= g < 0x1_0000

  function GroupBytes(g: seq<group>): (r: bytes)
    ensures |r| == 2 * |g|
  {
    if g == [] then [] else [g[0] / 0x100, g[0] % 0x100] + GroupBytes(g[1..])
  }

  /** The 16-bit groups of an even number of bytes. */
  function GroupsOf(b: bytes): (r: seq<group>)
    requires |b| % 2 == 0
    ensures 2 * |r| == |b|
  {
    if b == [] then [] else [b[0] as int * 0x100 + b[1] as int] + GroupsOf(b[2..])
  }

  lemma {:induction false} GroupsRoundTrip(b: bytes)
    requires |b| % 2 == 0
    ensures GroupBytes(GroupsOf(b)) == b
    decreases |b|
  {
    if b != [] {
      var x := b[0] as int * 0x100 + b[1] as int;
      assert x / 0x100 == b[0] && x % 0x100 == b[1];
      GroupsRoundTrip(b[2..]);
      assert GroupsOf(b)[1..] == GroupsOf(b[2..]);
      assert b == [b[0], b[1]] + b[2..];
    }
  }

  predicate Alnum(c: char) {
    DigitValue(c) < 36
  }

  /** A character that can start a group. */
  predicate IpCharOk(c: char) {
    c == ':' || DigitValue(c) < 16
  }

  /** The text may end before index `p`. */
  predicate Delimiter(s: string, p: nat) {
    p >= |s| || !(s[p] == ':' || Alnum(s[p]))
  }

  /** Where the loop stands: the cursor, the groups read and, after `::`, how many came before it. */
  datatype Scan = Scan(p: nat, groups: seq<group>, ellipsis: Option<nat>)

  /** The ellipsis stands behind a group that has been read. */
  predicate InPlace(st: Scan) {
    st.ellipsis.Some? ==> st.ellipsis.value <= |st.groups|
  }

  function ScanGroup(s: string, st: Scan, read: NumberReader): (r: Option<Scan>)
    requires Sane(read, s) && st.p < |s| && IpCharOk(s[st.p])
    ensures r.Some? ==> st.p <= r.value.p <= |s| && |r.value.groups| == |st.groups| + 1
    ensures r.Some? && InPlace(st) ==> InPlace(r.value)
  {
    var (x, p) := read(st.p);
    if x > 0xFFFF || !((p < |s| && s[p] == ':') || Delimiter(s, p)) then None
    else
      var groups := st.groups + [x];
      if p < |s| && s[p] == ':' then
        if p + 1 < |s| && s[p + 1] == ':' then
          if st.ellipsis.Some? then None else Some(Scan(p + 2, groups, Some(|groups|)))
        else Some(Scan(p + 1, groups, st.ellipsis))
      else Some(Scan(p, groups, st.ellipsis))
  }

  function ScanGroups(s: string, st: Scan, read: NumberReader): (r: Option<Scan>)
    requires Sane(read, s) && st.p <= |s| && |st.groups| <= 8
    ensures r.Some? ==> r.value.p <= |s| && |r.value.groups| <= 8
    ensures r.Some? && InPlace(st) ==> InPlace(r.value)
    decreases 8 - |st.groups|
  {
    if |st.groups| < 8 && st.p < |s| && IpCharOk(s[st.p]) then
      var next := ScanGroup(s, st, read);
      if next.None? then None else ScanGroups(s, next.value, read)
    else Some(st)
  }

  /** The groups stored by the time the loop of `_inet_pton` ends, in success or failure. */
  function StoredGroups(s: string, st: Scan, read: NumberReader): (r: seq<group>)
    requires Sane(read, s) && st.p <= |s| && |st.groups| <= 8
    ensures |r| <= 8
    decreases 8 - |st.groups|
  {
    if |st.groups| < 8 && st.p < |s| && IpCharOk(s[st.p]) then
      var next := ScanGroup(s, st, read);
      if next.Some? then StoredGroups(s, next.value, read) else st.groups + StoredLast(s, st, read)
    else st.groups
  }

  /** A group that cannot be read is not stored; one before a second ellipsis is. */
  function StoredLast(s: string, st: Scan, read: NumberReader): (r: seq<group>)
    requires Sane(read, s) && st.p < |s|
    ensures |r| <= 1
  {
    var (x, p) := read(st.p);
    if x > 0xFFFF || !((p < |s| && s[p] == ':') || Delimiter(s, p)) then [] else [x]
  }

  /** A group that is too large is not stored, nor anything behind it. */
  lemma LargeGroupNotStored(s: string, st: Scan, read: NumberReader)
    requires Sane(read, s) && st.p < |s| && |st.groups| < 8 && IpCharOk(s[st.p]) && read(st.p).0 > 0xFFFF
    ensures ScanGroups(s, st, read).None? && StoredGroups(s, st, read) == st.groups
  {
    assert st.groups + [] == st.groups;
  }

  /** The group in front of a second ellipsis is. */
  lemma SecondEllipsisStores(s: string, st: Scan, x: group, p: nat, read: NumberReader)
    requires Sane(read, s) && st.p < |s| && |st.groups| < 8 && IpCharOk(s[st.p]) && read(st.p) == (x, p)
    requires st.ellipsis.Some? && p + 1 < |s| && s[p] == ':' && s[p + 1] == ':'
    ensures ScanGroups(s, st, read).None? && StoredGroups(s, st, read) == st.groups + [x]
  {
  }

  lemma {:induction false} ScannedAreStored(s: string, st: Scan, read: NumberReader)
    requires Sane(read, s) && st.p <= |s| && |st.groups| <= 8 && ScanGroups(s, st, read).Some?
    ensures StoredGroups(s, st, read) == ScanGroups(s, st, read).value.groups
    decreases 8 - |st.groups|
  {
    if |st.groups| < 8 && st.p < |s| && IpCharOk(s[st.p]) {
      ScannedAreStored(s, ScanGroup(s, st, read).value, read);
    }
  }

  function Zeros(n: nat): (r: seq<group>)
    ensures |r| == n
  {
    seq(n, _ => 0)
  }

  /** Missing groups are zeros at the ellipsis, or in front if there is none. */
  function Place(g: seq<group>, ellipsis: Option<nat>): (r: seq<group>)
    requires |g| <= 8
    ensures |r| == 8
  {
    var e := if ellipsis.Some? && ellipsis.value <= |g| then ellipsis.value else 0;
    g[..e] + Zeros(8 - |g|) + g[e..]
  }

  /** `_inet_pton` for IPv6, as groups. */
  function Pton(s: string): (r: Option<seq<group>>)
    ensures r.Some? ==> |r.value| == 8
  {
    var st := ScanGroups(s, Scan(0, [], None), HexReader(s));
    if st.None? || st.value.p == 0 || !Delimiter(s, st.value.p) then None
    else Some(Place(st.value.groups, st.value.ellipsis))
  }

  // Texts of groups

  /** A group as text: any number of hexadecimal digits with a 16-bit value. */
  predicate GroupText(t: string) {
    t != "" && (forall k | 0 <= k < |t| :: DigitValue(t[k]) < 16) && Value(t, 16, 0) <= 0xFFFF
  }

  function Values(l: seq<string>): (r: seq<group>)
    requires forall k | 0 <= k < |l| :: GroupText(l[k])
    ensures |r| == |l|
  {
    if l == [] then []
    else
      assert GroupText(l[0]);
      var v: group := Value(l[0], 16, 0);
      [v] + Values(l[1..])
  }

  /** Groups with colons between them. */
  function Colons(l: seq<string>): string
    requires l != []
  {
    if |l| == 1 then l[0] else l[0] + (":" + Colons(l[1..]))
  }

  /** The groups `l` with colons between them take up `s[i..e]`. */
  ghost predicate ColonsAt(s: string, i: nat, l: seq<string>, e: nat)
    requires l != []
    decreases |l|
  {
    var p := i + |l[0]|;
    && Has(s, i, l[0])
    && if |l| == 1 then p == e else p < |s| && s[p] == ':' && ColonsAt(s, p + 1, l[1..], e)
  }

  lemma {:induction false} ColonsAreAt(s: string, i: nat, l: seq<string>)
    requires l != [] && Has(s, i, Colons(l))
    ensures ColonsAt(s, i, l, i + |Colons(l)|)
    decreases |l|
  {
    if |l| > 1 {
      HasThree(s, i, l[0], ":", Colons(l[1..]));
      ColonsAreAt(s, i + |l[0]| + 1, l[1..]);
    }
  }

  /** The reader reads every group that ends at the end of the text or before something that is neither
      a letter nor a digit. */
  ghost predicate ReadsGroups(read: NumberReader, s: string) {
    && Sane(read, s)
    && forall p: nat, t {:trigger Has(s, p, t)} | GroupEnds(s, p, t) ::
         p < |s| && IpCharOk(s[p]) && s[p] != ':' && read(p) == (Value(t, 16, 0), p + |t|)
  }

  ghost predicate GroupEnds(s: string, p: nat, t: string) {
    GroupText(t) && Has(s, p, t) && (p + |t| == |s| || DigitValue(s[p + |t|]) == 36)
  }

  /** The text ends at `e`, or something that is neither a colon nor a letter or digit stands there. */
  predicate Ends(s: string, e: nat) {
    e == |s| || (e < |s| && s[e] != ':' && DigitValue(s[e]) == 36)
  }

  lemma HexReaderReads(s: string)
    ensures ReadsGroups(HexReader(s), s)
  {
    var read := HexReader(s);
    forall p: nat, t | GroupEnds(s, p, t)
      ensures p < |s| && IpCharOk(s[p]) && s[p] != ':' && read(p) == (Value(t, 16, 0), p + |t|)
    {
      assert s[p + 0] == t[0];
      ReadHex(s, p, t);
    }
  }

  /** What an iteration does once a number has been read that ends at a colon or at the end. */
  function AfterNumber(s: string, st: Scan, x: group, e: nat): Scan {
    if e + 1 < |s| && s[e + 1] == ':' then Scan(e + 2, st.groups + [x], Some(|st.groups| + 1))
    else Scan(if e >= |s| then e else e + 1, st.groups + [x], st.ellipsis)
  }

  lemma ScanGroupIs(s: string, st: Scan, x: group, e: nat, read: NumberReader)
    requires Sane(read, s) && st.p < |s| && IpCharOk(s[st.p]) && read(st.p) == (x, e)
    requires e == |s| || s[e] == ':'
    requires e + 1 < |s| && s[e + 1] == ':' ==> st.ellipsis.None?
    ensures ScanGroup(s, st, read) == Some(AfterNumber(s, st, x, e)) && AfterNumber(s, st, x, e).p <= |s|
  {
  }

  lemma StepIs(s: string, st: Scan, x: group, e: nat, read: NumberReader)
    requires Sane(read, s) && |st.groups| < 8 && st.p < |s| && IpCharOk(s[st.p]) && read(st.p) == (x, e)
    requires e == |s| || s[e] == ':'
    requires e + 1 < |s| && s[e + 1] == ':' ==> st.ellipsis.None?
    ensures AfterNumber(s, st, x, e).p <= |s|
    ensures ScanGroups(s, st, read) == ScanGroups(s, AfterNumber(s, st, x, e), read)
  {
    ScanGroupIs(s, st, x, e, read);
  }

  lemma GroupReads(s: string, p: nat, t: string, read: NumberReader)
    requires ReadsGroups(read, s) && GroupEnds(s, p, t)
    ensures p < |s| && IpCharOk(s[p]) && s[p] != ':' && read(p) == (Value(t, 16, 0), p + |t|)
    ensures Value(t, 16, 0) <= 0xFFFF
  {
    assert Has(s, p, t);
  }

  lemma ScanStops(s: string, p: nat, groups: seq<group>, ellipsis: Option<nat>, read: NumberReader)
    requires Sane(read, s) && |groups| <= 8 && Ends(s, p)
    ensures ScanGroups(s, Scan(p, groups, ellipsis), read) == Some(Scan(p, groups, ellipsis))
  {
  }

  lemma LastScanned(s: string, st: Scan, x: group, e: nat, read: NumberReader)
    requires Sane(read, s) && st.p < |s| && IpCharOk(s[st.p]) && read(st.p) == (x, e) && Ends(s, e)
    ensures ScanGroup(s, st, read) == Some(Scan(e, st.groups + [x], st.ellipsis))
  {
  }

  /** The last group. */
  lemma LastGroup(s: string, st: Scan, t: string, read: NumberReader)
    requires ReadsGroups(read, s) && GroupText(t) && |st.groups| < 8
    requires Has(s, st.p, t) && Ends(s, st.p + |t|)
    ensures Value(t, 16, 0) <= 0xFFFF && st.p <= |s|
    ensures ScanGroups(s, st, read) == Some(Scan(st.p + |t|, st.groups + [Value(t, 16, 0)], st.ellipsis))
  {
    GroupReads(s, st.p, t, read);
    var end := Scan(st.p + |t|, st.groups + [Value(t, 16, 0)], st.ellipsis);
    LastScanned(s, st, Value(t, 16, 0), end.p, read);
    ScanStops(s, end.p, end.groups, end.ellipsis, read);
  }

  lemma ValuesStep(g: seq<group>, l: seq<string>)
    requires l != [] && forall k | 0 <= k < |l| :: GroupText(l[k])
    ensures GroupText(l[0]) && forall k | 0 <= k < |l[1..]| :: GroupText(l[1..][k])
    ensures g + Values(l) == g + [Value(l[0], 16, 0)] + Values(l[1..])
    ensures |l| == 1 ==> g + Values(l) == g + [Value(l[0], 16, 0)]
  {
    assert g + [Value(l[0], 16, 0)] + Values(l[1..]) == g + ([Value(l[0], 16, 0)] + Values(l[1..]));
  }

  /** Groups up to the end of the text, or to something that is none. */
  lemma {:induction false} GroupsToEnd(s: string, st: Scan, l: seq<string>, e: nat, read: NumberReader)
    requires ReadsGroups(read, s)
    requires l != [] && (forall k | 0 <= k < |l| :: GroupText(l[k])) && |st.groups| + |l| <= 8
    requires ColonsAt(s, st.p, l, e) && Ends(s, e)
    ensures st.p <= |s| && ScanGroups(s, st, read) == Some(Scan(e, st.groups + Values(l), st.ellipsis))
    decreases |l|
  {
    ValuesStep(st.groups, l);
    if |l| > 1 {
      var p, g := st.p + |l[0]|, st.groups + [Value(l[0], 16, 0)];
      GroupReads(s, st.p, l[0], read);
      FirstIsNoColon(s, p + 1, l[1..], e, read);
      StepIs(s, st, Value(l[0], 16, 0), p, read);
      GroupsToEnd(s, Scan(p + 1, g, st.ellipsis), l[1..], e, read);
    } else {
      LastGroup(s, st, l[0], read);
    }
  }

  lemma FirstIsNoColon(s: string, i: nat, l: seq<string>, e: nat, read: NumberReader)
    requires ReadsGroups(read, s) && l != [] && GroupText(l[0]) && ColonsAt(s, i, l, e)
    requires e == |s| || (e < |s| && DigitValue(s[e]) == 36)
    ensures i < |s| && s[i] != ':'
  {
    GroupReads(s, i, l[0], read);
  }

  /** In `n` iterations the loop comes from `a` to `b`. */
  ghost predicate Goes(s: string, read: NumberReader, a: Scan, b: Scan, n: nat)
    requires Sane(read, s)
    decreases n
  {
    if n == 0 then a == b
    else
      && |a.groups| < 8 && a.p < |s| && IpCharOk(s[a.p])
      && var next := ScanGroup(s, a, read);
         next.Some? && Goes(s, read, next.value, b, n - 1)
  }

  lemma {:induction false} GoesMeans(s: string, read: NumberReader, a: Scan, b: Scan, n: nat)
    requires Sane(read, s) && Goes(s, read, a, b, n) && a.p <= |s| && |a.groups| <= 8
    ensures b.p <= |s| && |b.groups| <= 8
    ensures ScanGroups(s, a, read) == ScanGroups(s, b, read) && StoredGroups(s, a, read) == StoredGroups(s, b, read)
    decreases n
  {
    if n > 0 {
      GoesMeans(s, read, ScanGroup(s, a, read).value, b, n - 1);
    }
  }

  /** Where it stands behind the groups `v` and the colon at `e`, or the ellipsis there. */
  function Passed(s: string, st: Scan, v: seq<group>, e: nat): Scan {
    if e + 1 < |s| && s[e + 1] == ':' then Scan(e + 2, st.groups + v, Some(|st.groups| + |v|))
    else Scan(e + 1, st.groups + v, st.ellipsis)
  }

  /** Groups up to a colon or an ellipsis. */
  lemma {:induction false} GroupsPass(s: string, st: Scan, l: seq<string>, e: nat, read: NumberReader)
    requires ReadsGroups(read, s)
    requires l != [] && (forall k | 0 <= k < |l| :: GroupText(l[k])) && |st.groups| + |l| <= 8
    requires ColonsAt(s, st.p, l, e) && e < |s| && s[e] == ':'
    requires e + 1 < |s| && s[e + 1] == ':' ==> st.ellipsis.None?
    ensures st.p <= |s| && Goes(s, read, st, Passed(s, st, Values(l), e), |l|)
    decreases |l|
  {
    ValuesParts(l);
    if |l| > 1 {
      FirstPasses(s, st, l, e, read);
      var next := Scan(st.p + |l[0]| + 1, st.groups + [Values(l)[0]], st.ellipsis);
      GroupsPass(s, next, l[1..], e, read);
      FirstOfMany(s, st, l, e, read);
    } else {
      GroupPasses(s, st, l[0], read);
      OnlyOne(s, st, l, e, read);
    }
  }

  lemma ValuesParts(l: seq<string>)
    requires l != [] && forall k | 0 <= k < |l| :: GroupText(l[k])
    ensures forall k | 0 <= k < |l[1..]| :: GroupText(l[1..][k])
    ensures Values(l)[0] == Value(l[0], 16, 0) && Values(l)[1..] == Values(l[1..])
  {
  }

  lemma FirstPasses(s: string, st: Scan, l: seq<string>, e: nat, read: NumberReader)
    requires ReadsGroups(read, s) && |l| > 1 && (forall k | 0 <= k < |l| :: GroupText(l[k]))
    requires ColonsAt(s, st.p, l, e) && e < |s| && s[e] == ':'
    ensures st.p < |s| && IpCharOk(s[st.p]) && ColonsAt(s, st.p + |l[0]| + 1, l[1..], e)
    ensures ScanGroup(s, st, read) == Some(Scan(st.p + |l[0]| + 1, st.groups + [Values(l)[0]], st.ellipsis))
  {
    FirstIsNoColon(s, st.p + |l[0]| + 1, l[1..], e, read);
    GroupPasses(s, st, l[0], read);
  }

  lemma FirstOfMany(s: string, st: Scan, l: seq<string>, e: nat, read: NumberReader)
    requires Sane(read, s) && |l| > 1 && (forall k | 0 <= k < |l| :: GroupText(l[k]))
    requires |st.groups| < 8 && st.p < |s| && IpCharOk(s[st.p])
    requires var next := Scan(st.p + |l[0]| + 1, st.groups + [Values(l)[0]], st.ellipsis);
      ScanGroup(s, st, read) == Some(next) && Goes(s, read, next, Passed(s, next, Values(l)[1..], e), |l| - 1)
    ensures Goes(s, read, st, Passed(s, st, Values(l), e), |l|)
  {
    var next := Scan(st.p + |l[0]| + 1, st.groups + [Values(l)[0]], st.ellipsis);
    PassedOn(s, st, l, e);
    GoesOn(s, read, st, next, Passed(s, st, Values(l), e), |l| - 1);
  }

  lemma OnlyOne(s: string, st: Scan, l: seq<string>, e: nat, read: NumberReader)
    requires Sane(read, s) && |l| == 1 && GroupText(l[0])
    requires |st.groups| < 8 && st.p < |s| && IpCharOk(s[st.p])
    requires ScanGroup(s, st, read) == Some(Passed(s, st, [Value(l[0], 16, 0)], e))
    ensures Goes(s, read, st, Passed(s, st, Values(l), e), 1)
  {
    assert Values(l) == [Value(l[0], 16, 0)];
    GoesOn(s, read, st, Passed(s, st, Values(l), e), Passed(s, st, Values(l), e), 0);
  }

  lemma PassedOn(s: string, st: Scan, l: seq<string>, e: nat)
    requires |l| > 1 && forall k | 0 <= k < |l| :: GroupText(l[k])
    ensures var v := Values(l);
      Passed(s, Scan(st.p + |l[0]| + 1, st.groups + [v[0]], st.ellipsis), v[1..], e) == Passed(s, st, v, e)
  {
    var v := Values(l);
    assert st.groups + [v[0]] + v[1..] == st.groups + v;
  }

  lemma GoesOn(s: string, read: NumberReader, a: Scan, next: Scan, b: Scan, n: nat)
    requires Sane(read, s) && |a.groups| < 8 && a.p < |s| && IpCharOk(s[a.p])
    requires ScanGroup(s, a, read) == Some(next) && Goes(s, read, next, b, n)
    ensures Goes(s, read, a, b, n + 1)
  {
  }

  lemma GroupPasses(s: string, st: Scan, t: string, read: NumberReader)
    requires ReadsGroups(read, s) && GroupText(t)
    requires var e := st.p + |t|;
      Has(s, st.p, t) && e < |s| && s[e] == ':' && (e + 1 < |s| && s[e + 1] == ':' ==> st.ellipsis.None?)
    ensures Value(t, 16, 0) <= 0xFFFF && st.p < |s| && IpCharOk(s[st.p])
    ensures ScanGroup(s, st, read) == Some(Passed(s, st, [Value(t, 16, 0)], st.p + |t|))
  {
    GroupReads(s, st.p, t, read);
    ScanGroupIs(s, st, Value(t, 16, 0), st.p + |t|, read);
  }

  /** A letter that is no digit ends the loop behind any groups, and the text is refused. */
  lemma GroupsBeforeLetter(l: seq<string>, more: string, s: string)
    requires l != [] && |l| <= 8 && (forall k | 0 <= k < |l| :: GroupText(l[k]))
    requires more != "" && 16 <= DigitValue(more[0]) < 36 && s == Colons(l) + (":" + more)
    ensures Pton(s).None? && StoredGroups(s, Scan(0, [], None), HexReader(s)) == Values(l)
  {
    LetterBehind(Colons(l), more, s);
    ColonsAreAt(s, 0, l);
    LetterEnds(s, l, |Colons(l)|);
  }

  lemma LetterBehind(text: string, more: string, s: string)
    requires more != "" && s == text + (":" + more)
    ensures Has(s, 0, text) && |text| + 1 < |s| && s[|text|] == ':' && s[|text| + 1] == more[0]
  {
    assert s[..|text|] == text;
  }

  lemma LetterEnds(s: string, l: seq<string>, e: nat)
    requires l != [] && |l| <= 8 && (forall k | 0 <= k < |l| :: GroupText(l[k]))
    requires ColonsAt(s, 0, l, e) && e + 1 < |s| && s[e] == ':' && 16 <= DigitValue(s[e + 1]) < 36
    ensures Pton(s).None? && StoredGroups(s, Scan(0, [], None), HexReader(s)) == Values(l)
  {
    HexReaderReads(s);
    LetterStops(s, l, e, HexReader(s));
    assert !Delimiter(s, e + 1);
    assert [] + Values(l) == Values(l);
  }

  lemma LetterStops(s: string, l: seq<string>, e: nat, read: NumberReader)
    requires ReadsGroups(read, s)
    requires l != [] && |l| <= 8 && (forall k | 0 <= k < |l| :: GroupText(l[k]))
    requires ColonsAt(s, 0, l, e) && e + 1 < |s| && s[e] == ':' && 16 <= DigitValue(s[e + 1]) < 36
    ensures StoredGroups(s, Scan(0, [], None), read) == [] + Values(l)
    ensures ScanGroups(s, Scan(0, [], None), read) == Some(Scan(e + 1, [] + Values(l), None))
  {
    var end := Scan(e + 1, [] + Values(l), None);
    GroupsPass(s, Scan(0, [], None), l, e, read);
    GoesMeans(s, read, Scan(0, [], None), end, |l|);
    assert !IpCharOk(s[end.p]);
  }

  /** Groups up to `::`. */
  lemma GroupsToEllipsis(s: string, st: Scan, l: seq<string>, e: nat, read: NumberReader)
    requires ReadsGroups(read, s)
    requires l != [] && (forall k | 0 <= k < |l| :: GroupText(l[k])) && |st.groups| + |l| <= 8
    requires st.ellipsis.None? && ColonsAt(s, st.p, l, e) && e + 2 <= |s| && s[e] == ':' && s[e + 1] == ':'
    ensures st.p <= |s|
    ensures ScanGroups(s, st, read) ==
            ScanGroups(s, Scan(e + 2, st.groups + Values(l), Some(|st.groups| + |l|)), read)
  {
    GroupsPass(s, st, l, e, read);
    GoesMeans(s, read, st, Scan(e + 2, st.groups + Values(l), Some(|st.groups| + |l|)), |l|);
  }

  /** More groups than there is room for: the loop stops at a group and not at a delimiter. */
  lemma {:induction false} GroupsOverflow(s: string, st: Scan, l: seq<string>, e: nat, read: NumberReader)
    requires ReadsGroups(read, s) && l != [] && forall k | 0 <= k < |l| :: GroupText(l[k])
    requires |st.groups| <= 8 < |st.groups| + |l|
    requires ColonsAt(s, st.p, l, e) && (e == |s| || (e < |s| && DigitValue(s[e]) == 36))
    ensures st.p <= |s| && ScanGroups(s, st, read).Some? && !Delimiter(s, ScanGroups(s, st, read).value.p)
    decreases |l|
  {
    GroupReads(s, st.p, l[0], read);
    if |st.groups| < 8 {
      var p, x := st.p + |l[0]|, Value(l[0], 16, 0);
      StepIs(s, st, x, p, read);
      FirstIsNoColon(s, p + 1, l[1..], e, read);
      GroupsOverflow(s, Scan(p + 1, st.groups + [x], st.ellipsis), l[1..], e, read);
    }
  }

  /** The groups that count in front of an ellipsis: nothing counts as a group of zero. */
  function Front(l: seq<string>): nat {
    if l == [] then 1 else |l|
  }

  /** The text of L, then `::`, then R. */
  function Elided(l: seq<string>, r: seq<string>): string {
    TextOf(l) + ("::" + TextOf(r))
  }

  function TextOf(l: seq<string>): string {
    if l == [] then "" else Colons(l)
  }

  /** The text has the shape `L::R` up to `z`, with the ellipsis at `e`. */
  ghost predicate ElidedAt(s: string, l: seq<string>, e: nat, r: seq<string>, z: nat) {
    && e + 2 <= |s| && s[e] == ':' && s[e + 1] == ':'
    && (if l == [] then e == 0 else ColonsAt(s, 0, l, e))
    && (if r == [] then e + 2 == z else ColonsAt(s, e + 2, r, z))
  }

  /** Nothing, or something that begins neither with a colon nor with a letter or a digit. */
  predicate Closing(more: string) {
    more == "" || (more[0] != ':' && DigitValue(more[0]) == 36)
  }

  /** After `::` the groups of R run to the end. */
  lemma AfterEllipsis(s: string, st: Scan, r: seq<string>, z: nat, read: NumberReader)
    requires ReadsGroups(read, s)
    requires (forall k | 0 <= k < |r| :: GroupText(r[k])) && |st.groups| + |r| <= 8
    requires Ends(s, z) && if r == [] then st.p == z else ColonsAt(s, st.p, r, z)
    ensures st.p <= |s| && ScanGroups(s, st, read) == Some(Scan(z, st.groups + Values(r), st.ellipsis))
  {
    if r == [] {
      ScanStops(s, z, st.groups, st.ellipsis, read);
      assert st.groups + [] == st.groups;
    } else {
      GroupsToEnd(s, st, r, z, read);
    }
  }

  /** A text that begins with `::` counts a first group of zero. */
  lemma LeadingEllipsis(s: string, read: NumberReader)
    requires Sane(read, s) && |s| >= 2 && s[0] == ':' && s[1] == ':' && read(0) == (0, 0)
    ensures ScanGroups(s, Scan(0, [], None), read) == ScanGroups(s, Scan(2, [0], Some(1)), read)
  {
    StepIs(s, Scan(0, [], None), 0, 0, read);
    assert [] + [0] == [0];
  }

  lemma NothingAtColon(s: string)
    requires s != "" && s[0] == ':'
    ensures HexReader(s)(0) == (0, 0)
  {
  }

  lemma PlaceAt(g: seq<group>, r: seq<group>)
    requires |g| + |r| <= 8
    ensures Place(g + r, Some(|g|)) == g + Zeros(8 - |g| - |r|) + r
  {
    assert (g + r)[..|g|] == g && (g + r)[|g|..] == r;
  }

  lemma PtonIs(s: string, g: seq<group>, r: seq<group>, z: nat)
    requires |g| + |r| <= 8 && 0 < z && Ends(s, z)
    requires ScanGroups(s, Scan(0, [], None), HexReader(s)) == Some(Scan(z, g + r, Some(|g|)))
    ensures Pton(s) == Some(g + Zeros(8 - |g| - |r|) + r)
  {
    PlaceAt(g, r);
  }

  lemma ElidedIs(lt: string, rt: string, more: string)
    ensures var s, e := lt + ("::" + rt) + more, |lt|;
      && |s| == e + 2 + |rt| + |more| && s[e] == ':' && s[e + 1] == ':'
      && Has(s, 0, lt) && Has(s, e + 2, rt) && (Closing(more) ==> Ends(s, e + 2 + |rt|))
  {
    var s := lt + ("::" + rt) + more;
    HasSplit(s, 0, lt + ("::" + rt), more);
    HasSplit(s, 0, lt, "::" + rt);
    HasSplit(s, |lt|, "::", rt);
    assert s[|lt| + 0] == "::"[0] && s[|lt| + 1] == "::"[1];
    assert more != "" ==> s[|lt| + 2 + |rt|] == more[0];
  }

  lemma ElidedPartsOf(s: string, l: seq<string>, r: seq<string>)
    requires var e := |TextOf(l)|;
      && |s| >= e + 2 && s[e] == ':' && s[e + 1] == ':'
      && Has(s, 0, TextOf(l)) && Has(s, e + 2, TextOf(r))
    ensures ElidedAt(s, l, |TextOf(l)|, r, |TextOf(l)| + 2 + |TextOf(r)|)
  {
    if l != [] { ColonsAreAt(s, 0, l); }
    if r != [] { ColonsAreAt(s, |TextOf(l)| + 2, r); }
  }

  lemma ElidedParts(l: seq<string>, r: seq<string>, more: string)
    requires Closing(more)
    ensures var z := |TextOf(l)| + 2 + |TextOf(r)|;
      ElidedAt(Elided(l, r) + more, l, |TextOf(l)|, r, z) && Ends(Elided(l, r) + more, z)
  {
    ElidedIs(TextOf(l), TextOf(r), more);
    ElidedPartsOf(Elided(l, r) + more, l, r);
  }

  /** What the loop makes of `L::R`: with nothing in front of the ellipsis it counts one zero group there. */
  lemma ScanElided(l: seq<string>, r: seq<string>, s: string, e: nat, z: nat, read: NumberReader)
    requires (forall k | 0 <= k < |l| :: GroupText(l[k])) && (forall k | 0 <= k < |r| :: GroupText(r[k]))
    requires Front(l) + |r| <= 8 && ElidedAt(s, l, e, r, z) && Ends(s, z)
    requires ReadsGroups(read, s) && (l == [] ==> read(0) == (0, 0))
    ensures var g := if l == [] then [0] else Values(l);
      ScanGroups(s, Scan(0, [], None), read) == Some(Scan(z, g + Values(r), Some(|g|)))
  {
    if l == [] {
      LeadingEllipsis(s, read);
      AfterEllipsis(s, Scan(2, [0], Some(1)), r, z, read);
    } else {
      GroupsToEllipsis(s, Scan(0, [], None), l, e, read);
      assert [] + Values(l) == Values(l);
      AfterEllipsis(s, Scan(e + 2, Values(l), Some(|l|)), r, z, read);
    }
  }

  lemma ScanElidedHex(l: seq<string>, r: seq<string>, s: string, e: nat, z: nat)
    requires (forall k | 0 <= k < |l| :: GroupText(l[k])) && (forall k | 0 <= k < |r| :: GroupText(r[k]))
    requires Front(l) + |r| <= 8 && ElidedAt(s, l, e, r, z) && Ends(s, z)
    ensures var g := if l == [] then [0] else Values(l);
      ScanGroups(s, Scan(0, [], None), HexReader(s)) == Some(Scan(z, g + Values(r), Some(|g|)))
  {
    HexReaderReads(s);
    if l == [] { NothingAtColon(s); }
    ScanElided(l, r, s, e, z, HexReader(s));
  }

  lemma ElidedReads(l: seq<string>, r: seq<string>, s: string, z: nat)
    requires (forall k | 0 <= k < |l| :: GroupText(l[k])) && (forall k | 0 <= k < |r| :: GroupText(r[k]))
    requires Front(l) + |r| <= 8 && 0 < z && Ends(s, z)
    requires var g := if l == [] then [0] else Values(l);
      ScanGroups(s, Scan(0, [], None), HexReader(s)) == Some(Scan(z, g + Values(r), Some(|g|)))
    ensures Pton(s) == Some(Values(l) + Zeros(8 - |l| - |r|) + Values(r))
  {
    if l == [] {
      PtonIs(s, [0], Values(r), z);
      assert [0] + Zeros(7 - |r|) == Values(l) + Zeros(8 - |r|);
    } else {
      PtonIs(s, Values(l), Values(r), z);
    }
  }

  /** `L::R` means L, zeros and R, for any L and R of at most seven groups together. With eight
      groups and some of them in front, the ellipsis means nothing. What comes behind a character
      that cannot belong to an address is not looked at. */
  lemma EllipsisMeansZeros(l: seq<string>, r: seq<string>, more: string)
    requires (forall k | 0 <= k < |l| :: GroupText(l[k])) && (forall k | 0 <= k < |r| :: GroupText(r[k]))
    requires Front(l) + |r| <= 8 && Closing(more)
    ensures Pton(Elided(l, r) + more) == Some(Values(l) + Zeros(8 - |l| - |r|) + Values(r))
  {
    var e, z := |TextOf(l)|, |TextOf(l)| + 2 + |TextOf(r)|;
    ElidedParts(l, r, more);
    ScanElidedHex(l, r, Elided(l, r) + more, e, z);
    ElidedReads(l, r, Elided(l, r) + more, z);
  }

  lemma ElidedOverflow(l: seq<string>, r: seq<string>, s: string, e: nat, z: nat, read: NumberReader)
    requires (forall k | 0 <= k < |l| :: GroupText(l[k])) && (forall k | 0 <= k < |r| :: GroupText(r[k]))
    requires Front(l) + |r| > 8 && ElidedAt(s, l, e, r, z) && Ends(s, z)
    requires ReadsGroups(read, s) && (l == [] ==> read(0) == (0, 0))
    ensures var st := ScanGroups(s, Scan(0, [], None), read); st.Some? && !Delimiter(s, st.value.p)
  {
    if l == [] {
      LeadingEllipsis(s, read);
      GroupsOverflow(s, Scan(2, [0], Some(1)), r, z, read);
    } else if |l| <= 8 {
      GroupsToEllipsis(s, Scan(0, [], None), l, e, read);
      assert [] + Values(l) == Values(l);
      GroupsOverflow(s, Scan(e + 2, Values(l), Some(|l|)), r, z, read);
    } else {
      GroupsOverflow(s, Scan(0, [], None), l, e, read);
    }
  }

  /** Exactly which texts with an ellipsis are accepted. */
  lemma ElidedAccepted(l: seq<string>, r: seq<string>, more: string)
    requires (forall k | 0 <= k < |l| :: GroupText(l[k])) && (forall k | 0 <= k < |r| :: GroupText(r[k]))
    requires Closing(more)
    ensures Pton(Elided(l, r) + more).Some? <==> Front(l) + |r| <= 8
  {
    var e, z := |TextOf(l)|, |TextOf(l)| + 2 + |TextOf(r)|;
    ElidedParts(l, r, more);
    if Front(l) + |r| <= 8 {
      EllipsisMeansZeros(l, r, more);
    } else {
      ElidedRefused(l, r, Elided(l, r) + more, e, z);
    }
  }

  lemma ElidedRefused(l: seq<string>, r: seq<string>, s: string, e: nat, z: nat)
    requires (forall k | 0 <= k < |l| :: GroupText(l[k])) && (forall k | 0 <= k < |r| :: GroupText(r[k]))
    requires Front(l) + |r| > 8 && ElidedAt(s, l, e, r, z) && Ends(s, z)
    ensures Pton(s).None?
  {
    HexReaderReads(s);
    if l == [] { NothingAtColon(s); }
    ElidedOverflow(l, r, s, e, z, HexReader(s));
  }

  lemma PlainIs(text: string, more: string)
    requires Closing(more)
    ensures Has(text + more, 0, text) && Ends(text + more, |text|)
  {
    HasSplit(text + more, 0, text, more);
  }

  lemma PlainParts(l: seq<string>, more: string)
    requires l != [] && GroupText(l[0]) && Closing(more)
    ensures Colons(l) != "" && ColonsAt(Colons(l) + more, 0, l, |Colons(l)|) && Ends(Colons(l) + more, |Colons(l)|)
  {
    PlainIs(Colons(l), more);
    ColonsAreAt(Colons(l) + more, 0, l);
  }

  lemma ScanPlainHex(l: seq<string>, s: string, z: nat)
    requires 1 <= |l| <= 8 && (forall k | 0 <= k < |l| :: GroupText(l[k])) && ColonsAt(s, 0, l, z) && Ends(s, z)
    ensures ScanGroups(s, Scan(0, [], None), HexReader(s)) == Some(Scan(z, Values(l), None))
  {
    HexReaderReads(s);
    GroupsToEnd(s, Scan(0, [], None), l, z, HexReader(s));
    assert [] + Values(l) == Values(l);
  }

  /** Groups without an ellipsis are right-justified; in particular fewer than eight are accepted. */
  lemma PlainGroups(l: seq<string>, more: string)
    requires 1 <= |l| <= 8 && (forall k | 0 <= k < |l| :: GroupText(l[k])) && Closing(more)
    ensures Pton(Colons(l) + more) == Some(Zeros(8 - |l|) + Values(l))
  {
    PlainParts(l, more);
    PlainReads(l, Colons(l) + more, |Colons(l)|);
  }

  lemma PlainReads(l: seq<string>, s: string, z: nat)
    requires 1 <= |l| <= 8 && (forall k | 0 <= k < |l| :: GroupText(l[k]))
    requires ColonsAt(s, 0, l, z) && Ends(s, z) && 0 < z
    ensures Pton(s) == Some(Zeros(8 - |l|) + Values(l))
  {
    ScanPlainHex(l, s, z);
    PlaceNone(Values(l));
  }

  /** So the groups of a text without an ellipsis are accepted up to eight of them; section 2.2 of
      RFC 4291 wants exactly eight. */
  lemma PlainAccepted(l: seq<string>, more: string)
    requires l != [] && (forall k | 0 <= k < |l| :: GroupText(l[k])) && Closing(more)
    ensures Pton(Colons(l) + more).Some? <==> |l| <= 8
  {
    if |l| <= 8 {
      PlainGroups(l, more);
    } else {
      PlainParts(l, more);
      PlainRefused(l, Colons(l) + more, |Colons(l)|);
    }
  }

  lemma PlainRefused(l: seq<string>, s: string, z: nat)
    requires |l| > 8 && (forall k | 0 <= k < |l| :: GroupText(l[k])) && ColonsAt(s, 0, l, z) && Ends(s, z)
    ensures Pton(s).None?
  {
    HexReaderReads(s);
    GroupsOverflow(s, Scan(0, [], None), l, z, HexReader(s));
  }

  /** A text that begins with nothing that belongs to an address is refused. */
  lemma NoGroupAtAll(s: string)
    requires Ends(s, 0)
    ensures Pton(s).None?
  {
  }

  lemma PlaceNone(g: seq<group>)
    requires |g| <= 8
    ensures Place(g, None) == Zeros(8 - |g|) + g
  {
    assert g[..0] + Zeros(8 - |g|) == Zeros(8 - |g|) && g[0..] == g;
  }

  /** `%x` of each group. */
  function HexTexts(g: seq<group>): (r: seq<string>)
    ensures |r| == |g|
  {
    if g == [] then [] else [Digits(g[0], 16)] + HexTexts(g[1..])
  }

  lemma {:induction false} HexTextsRead(g: seq<group>)
    ensures (forall k | 0 <= k < |g| :: GroupText(HexTexts(g)[k])) && Values(HexTexts(g)) == g
    decreases |g|
  {
    if g != [] {
      var l := HexTexts(g);
      HexTextsRead(g[1..]);
      ValueOfDigits(g[0], 16);
      assert l[1..] == HexTexts(g[1..]);
      forall k | 0 <= k < |g| ensures GroupText(l[k]) {
        if k > 0 { assert l[k] == HexTexts(g[1..])[k - 1]; }
      }
      assert [g[0]] + g[1..] == g;
    }
  }

  /** The printed form of an IPv6 address: eight groups, nothing elided. */
  function Print6(g: seq<group>): string
    requires |g| == 8
  {
    Colons(HexTexts(g))
  }

  /** Every IPv6 address survives printing and parsing. */
  lemma RoundTrip6(g: seq<group>)
    requires |g| == 8
    ensures Pton(Print6(g)) == Some(g)
  {
    HexTextsRead(g);
    PlainGroups(HexTexts(g), "");
    assert Print6(g) + "" == Print6(g);
    assert Zeros(0) + g == g;
  }
}
