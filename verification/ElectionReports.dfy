/** What one report does to the candidates of the election, case by case. */
module ElectionReports {
  import opened Bytes
  import opened Options
  import opened Ordering
  import opened MergeSorting
  import opened Election

  /** The first entry with the fewest votes. */
  predicate OldestLeast(s: seq<Entry>, j: nat) {
    && j < |s| && (forall i | 0 <= i < |s| :: s[j].votes <= s[i].votes)
    && (forall i | 0 <= i < j :: s[j].votes < s[i].votes)
  }

  /** A candidate's first vote. */
  function Newcomer(ip: Address, k: Key): Entry {
    Entry(ip, 1, Bits(k, 16), {k})
  }

  /** The state after a vote for a candidate that has just been appended. */
  lemma NewcomerVotes(s: State, r: seq<Entry>, ip: Address, k: Key)
    requires r != [] && r[|r| - 1] == Entry(ip, 0, {}, {})
    ensures Vote(s.(entries := r), |r| - 1, k).entries == r[..|r| - 1] + [Newcomer(ip, k)]
  {
    assert BitA(k, 16) in Bits(k, 16);
    assert {} + Bits(k, 16) == Bits(k, 16) && {} + {k} == {k};
  }

  /** An address that cannot be an external one changes nothing. */
  lemma UnusableReport(s: State, ip: Address, k: Key, random: nat)
    requires !Usable(ip)
    ensures Report(s, ip, k, random) == s
  {
  }

  /** A listed address gets one more vote, unless the filter already reports the voter; the other
      candidates keep theirs. */
  lemma ListedReport(s: State, ip: Address, k: Key, random: nat, j: nat)
    requires Usable(ip) && j == IndexOf(s.entries, ip) < |s.entries| && s.entries[j].votes < 0xFFFF
    ensures var e, t := s.entries[j], Report(s, ip, k, random);
      if Bits(k, 16) <= e.voters then t == s
      else t.entries == s.entries[j := Entry(ip, e.votes + 1, e.voters + Bits(k, 16), e.who + {k})]
  {
    ReportCases(s, ip, k, random, j, Admit(s, ip, k, random));
  }

  /** So a voter's second vote for an address never counts. */
  lemma SecondVote(s: State, ip: Address, k: Key, random: nat, j: nat, reports: Reports)
    requires Inv(s, reports) && Usable(ip) && j == IndexOf(s.entries, ip) < |s.entries| && k in s.entries[j].who
    ensures Report(s, ip, k, random) == s
  {
    assert GoodEntry(s.entries[j], reports);
    ReportCases(s, ip, k, random, j, Admit(s, ip, k, random));
  }

  /** With a free slot an unlisted address is appended with one vote. */
  lemma RoomyReport(calls: seq<Call>, ip: Address, k: Key, random: nat)
    requires var s := RunAll(INITIAL, calls); Usable(ip) && !Listed(s.entries, ip) && |s.entries| <= 20
    ensures var s := RunAll(INITIAL, calls); Report(s, ip, k, random).entries == s.entries + [Newcomer(ip, k)]
  {
    var s := RunAll(INITIAL, calls);
    AdmissionIsOpen(calls, ip, k, random);
    var r := s.entries + [Entry(ip, 0, {}, {})];
    ReportCases(s, ip, k, random, IndexOf(s.entries, ip), Some(r));
    NewcomerVotes(s, r, ip, k);
  }

  /** With no free slot and an unlucky draw it is dropped. */
  lemma DroppedReport(s: State, ip: Address, k: Key, random: nat)
    requires Usable(ip) && !Listed(s.entries, ip) && |s.entries| > 20 && random < 0x7FFF_FFFF
    ensures Report(s, ip, k, random) == s
  {
    ReportCases(s, ip, k, random, IndexOf(s.entries, ip), None);
  }

  /** With no free slot and a lucky draw: the first of the candidates with the fewest votes goes,
      every other one stays with its votes, in ascending order of them, and the new address comes
      last, with one vote. */
  lemma EvictingReport(calls: seq<Call>, ip: Address, k: Key, random: nat, j: nat)
    requires var s := RunAll(INITIAL, calls);
      Usable(ip) && !Listed(s.entries, ip) && |s.entries| > 20 && OldestLeast(s.entries, j)
    requires random >= 0x7FFF_FFFF
    ensures var s, t := RunAll(INITIAL, calls), Report(RunAll(INITIAL, calls), ip, k, random).entries;
      && |t| == |s.entries| && t[|t| - 1] == Newcomer(ip, k) && Sorted(t[..|t| - 1], ByVotes())
      && !Listed(t, s.entries[j].addr)
      && (forall i | 0 <= i < |s.entries| && i != j :: s.entries[i] in t[..|t| - 1])
  {
    var s := RunAll(INITIAL, calls);
    RunKeeps(INITIAL, calls, {});
    AdmissionIsOpen(calls, ip, k, random);
    var sorted := MergeSorted(s.entries, ByVotes());
    var r := sorted[1..] + [Entry(ip, 0, {}, {})];
    ReportCases(s, ip, k, random, IndexOf(s.entries, ip), Some(r));
    NewcomerVotes(s, r, ip, k);
    assert r[..|r| - 1] == sorted[1..];
    Survivors(s.entries, ip, j);
    GoneForGood(s.entries, ip, k, j);
  }

  /** Those that survive the eviction. */
  lemma Survivors(s: seq<Entry>, ip: Address, j: nat)
    requires Distinct(s) && OldestLeast(s, j)
    ensures var sorted := MergeSorted(s, ByVotes());
      && |sorted| == |s| && sorted[0] == s[j] && Sorted(sorted[1..], ByVotes())
      && (forall i | 0 <= i < |s| && i != j :: s[i] in sorted[1..])
  {
    var sorted := MergeSorted(s, ByVotes());
    EvictedIsOldestLeast(s);
    OthersStay(s, sorted, j);
    assert Sorted(sorted, ByVotes()) by {
      ByVotesIsOrder();
      MergeSortedSorts(s, ByVotes(), ByVotes());
    }
  }

  lemma OthersStay(s: seq<Entry>, sorted: seq<Entry>, j: nat)
    requires Distinct(s) && j < |s| && sorted != [] && sorted[0] == s[j] && multiset(sorted) == multiset(s)
    ensures forall i | 0 <= i < |s| && i != j :: s[i] in sorted[1..]
  {
    assert sorted == [sorted[0]] + sorted[1..];
    forall i | 0 <= i < |s| && i != j ensures s[i] in sorted[1..] {
      assert s[i] in multiset(s);
      assert s[i] in sorted;
    }
  }

  /** The evicted one is no longer listed. */
  lemma GoneForGood(s: seq<Entry>, ip: Address, k: Key, j: nat)
    requires Distinct(s) && OldestLeast(s, j) && !Listed(s, ip)
    ensures !Listed(MergeSorted(s, ByVotes())[1..] + [Newcomer(ip, k)], s[j].addr)
  {
    var sorted := MergeSorted(s, ByVotes());
    Survivors(s, ip, j);
    MergeSortedPermutes(s, ByVotes());
    DistinctPermuted(s, sorted);
    assert forall i | 1 <= i < |sorted| :: sorted[0].addr != sorted[i].addr;
  }

  /** The private and special ranges in dotted form, RFC 1918 and RFC 3927 among them. */
  lemma LocalByBytes(a: nat, b: nat, c: nat, d: nat)
    requires a < 256 && b < 256 && c < 256 && d < 256
    ensures var ip := V4(a * 0x100_0000 + b * 0x1_0000 + c * 0x100 + d);
      && (IsLocal(ip) <==>
            a == 10 || (a == 172 && 16 <= b < 32) || (a == 192 && b == 168) || (a == 169 && b == 254) || a == 127)
      && (IsAny(ip) <==> a == 0 && b == 0 && c == 0 && d == 0)
      && (IsLoopback(ip) <==> a == 127 && b == 0 && c == 0 && d == 1)
      && (Usable(ip) <==> !IsAny(ip) && !IsLocal(ip))
  {
  }

  /** In version 6 they are the unspecified address, the loopback address, section 2.5 of RFC 4291,
      and the unspecified version 4 address in mapped form: eighty high bits, the mark and the rest. */
  lemma SixByParts(high: nat, mark: nat, low: nat)
    requires mark < 0x1_0000 && low < 0x1_0000_0000
    ensures Usable(V6((high * 0x1_0000 + mark) * 0x1_0000_0000 + low)) <==>
            high != 0 || (mark == 0 && low > 1) || (mark == 0xFFFF && low != 0) || (mark != 0 && mark != 0xFFFF)
  {
  }

  /** Of the hash of a voter the filters see two bytes, and the filter of a candidate seven bits of each. */
  lemma SeenOfKey(k: Key)
    ensures Bits(k, 16) == {k[0] % 128, k[2] % 128}
    ensures Bits(k, 32) == {k[0] as int, k[2] as int}
  {
    HighByteDrops(k[0], k[1]);
    HighByteDrops(k[2], k[3]);
  }

  lemma HighByteDrops(low: byte, high: byte)
    ensures (low + 0x100 * high) % 128 == low % 128 && (low + 0x100 * high) % 256 == low
  {
  }

  /** So a voter whose hash agrees there, in either order, with that of one whose vote was counted
      is taken for it, and its report changes nothing. */
  lemma MistakenVoter(s: State, ip: Address, k: Key, other: Key, random: nat, j: nat, reports: Reports)
    requires Inv(s, reports) && Usable(ip) && j == IndexOf(s.entries, ip) < |s.entries| && other in s.entries[j].who
    requires {k[0] % 128, k[2] % 128} == {other[0] % 128, other[2] % 128}
    ensures Report(s, ip, k, random) == s
  {
    assert GoodEntry(s.entries[j], reports);
    SeenOfKey(k);
    SeenOfKey(other);
    ReportCases(s, ip, k, random, j, Admit(s, ip, k, random));
  }
}
