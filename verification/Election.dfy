/**
 The external-address election of the DHT wrapper (`SetAddress`): nodes report the address they
 see us under, at most 21 candidates are kept, and the first candidate with the most votes wins.
 Voters are remembered in Bloom filters, modelled bit for bit.
 */
module Election {
  import opened Bytes
  import opened Options
  import opened Ordering
  import opened MergeSorting

  datatype Address = V4(ip: nat) | V6(ip: nat)

  const ANY := V4(0)

  predicate IsAny(a: Address) {
    if a.V4? then a.ip == 0 else a.ip == 0 || a.ip == 0xFFFF_0000_0000
  }

  predicate IsLocal(a: Address) {
    if a.V6? then a.ip == 1
    else
      || 0x0a00_0000 <= a.ip < 0x0b00_0000  // 10.x.x.x
      || 0xac10_0000 <= a.ip < 0xac20_0000  // 172.16.x.x
      || 0xc0a8_0000 <= a.ip < 0xc0a9_0000  // 192.168.x.x
      || 0xa9fe_0000 <= a.ip < 0xa9ff_0000  // 169.254.x.x
      || 0x7f00_0000 <= a.ip < 0x8000_0000  // 127.x.x.x
  }

  predicate IsLoopback(a: Address) {
    if a.V4? then a.ip == 0x7f00_0001 else a.ip == 1
  }

  /** Only such addresses are worth a vote. */
  predicate Usable(a: Address) {
    !IsAny(a) && !IsLocal(a) && !IsLoopback(a)
  }

  /** The identity of a voter: the SHA-1 of its address. */
  type Key = k: bytes | |k| == 20 witness seq(20, _ => 0)

  /** The two bits a key stands for in a filter of `n` bytes. */
  function Bits(k: Key, n: nat): (r: set<int>)
    requires n > 0
    ensures r != {} && forall b | b in r :: 0 <= b < n * 8
  {
    {BitA(k, n), BitB(k, n)}
  }

  function BitA(k: Key, n: nat): (b: int)
    requires n > 0
    ensures 0 <= b < n * 8
  {
    (k[0] + 0x100 * k[1]) % (n * 8)
  }

  function BitB(k: Key, n: nat): (b: int)
    requires n > 0
    ensures 0 <= b < n * 8
  {
    (k[2] + 0x100 * k[3]) % (n * 8)
  }

  /** A candidate. `who` is history: the keys whose votes were counted. */
  datatype Entry = Entry(addr: Address, votes: nat, voters: set<int>, who: set<Key>)

  /** `add_vote`: refused if the filter already reports the key. The counter has 16 bits. */
  function AddVote(e: Entry, k: Key): (Entry, bool) {
    if Bits(k, 16) <= e.voters then (e, false)
    else (e.(votes := (e.votes + 1) % 0x1_0000, voters := e.voters + Bits(k, 16), who := e.who + {k}), true)
  }

  function ByVotes(): (Entry, Entry) -> bool {
    (a: Entry, b: Entry) => a.votes <= b.votes
  }

  /** `std::max_element`: the first of the entries with the most votes. */
  function FirstMax(s: seq<Entry>): (m: nat)
    requires s != []
    ensures m < |s|
    ensures forall i | 0 <= i < |s| :: s[i].votes <= s[m].votes
    ensures forall i | 0 <= i < m :: s[i].votes < s[m].votes
  {
    if |s| == 1 then 0
    else
      var m := FirstMax(s[..|s| - 1]);
      if s[m].votes < s[|s| - 1].votes then |s| - 1 else m
  }

  /** Where the address is listed, or the length of the list. */
  function IndexOf(s: seq<Entry>, a: Address): (r: nat)
    ensures r <= |s| && (r < |s| ==> s[r].addr == a)
    ensures forall i | 0 <= i < r :: s[i].addr != a
  {
    if s == [] || s[0].addr == a then 0 else 1 + IndexOf(s[1..], a)
  }

  /** `m_external_address_voters` is the filter of those who already added an address. */
  datatype State = State(entries: seq<Entry>, address: Address, adders: set<int>)

  const SLOTS := 20
  const HALF := 0x7FFF_FFFF  // UINT_MAX / 2

  const INITIAL := State([], ANY, {})

  /** The list after room has been made and a candidate without votes appended, if at all. */
  function Admit(s: State, ip: Address, k: Key, random: nat): (r: Option<seq<Entry>>)
    ensures r.Some? ==> r.value != [] && r.value[|r.value| - 1] == Entry(ip, 0, {}, {})
  {
    if Bits(k, 32) <= s.adders then None
    else if |s.entries| <= SLOTS then Some(s.entries + [Entry(ip, 0, {}, {})])
    else if random < HALF then None
    else Some(MergeSorted(s.entries, ByVotes())[1..] + [Entry(ip, 0, {}, {})])
  }

  /** The election after a vote has been counted. */
  function Elect(s: State): State
    requires s.entries != []
  {
    var winner := s.entries[FirstMax(s.entries)].addr;
    if winner == s.address then s else s.(address := winner, adders := {})
  }

  /** One vote for the candidate at `j`. */
  function Vote(s: State, j: nat, k: Key): State
    requires j < |s.entries|
  {
    var (e, counted) := AddVote(s.entries[j], k);
    if counted then Elect(s.(entries := s.entries[j := e])) else s
  }

  /** One report: `ip` is the address reported, `k` the reporter. */
  function Report(s: State, ip: Address, k: Key, random: nat): State {
    if !Usable(ip) then s
    else
      var i := IndexOf(s.entries, ip);
      if i < |s.entries| then Vote(s, i, k)
      else
        match Admit(s, ip, k, random)
        case None => s
        case Some(entries) => Vote(s.(entries := entries), |entries| - 1, k)
  }

  class CDHTPrivate {
    var entries: seq<Entry>
    var address: Address
    var adders: set<int>

    ghost function Abs(): State
      reads this
    {
      State(entries, address, adders)
    }

    constructor ()
      ensures Abs() == INITIAL
    {
      entries, address, adders := [], ANY, {};
    }

    method MaxElement() returns (m: nat)
      requires entries != []
      ensures m == FirstMax(entries)
    {
      m := 0;
      var i := 1;
      while i < |entries|
        invariant 1 <= i <= |entries| && m == FirstMax(entries[..i])
      {
        assert entries[..i + 1][..i] == entries[..i];
        if entries[m].votes < entries[i].votes {
          m := i;
        }
        i := i + 1;
      }
      assert entries[..i] == entries;
    }

    /** The search loop of `SetAddress`. */
    method Find(ip: Address) returns (i: nat)
      ensures i == IndexOf(entries, ip)
    {
      i := 0;
      while i < |entries| && entries[i].addr != ip
        invariant 0 <= i <= |entries| && forall j | 0 <= j < i :: entries[j].addr != ip
      {
        i := i + 1;
      }
    }

    /** The part of `SetAddress` from the vote on. */
    method CountVote(i: nat, k: Key) returns (changed: bool)
      requires i < |entries|
      modifies this
      ensures Abs() == Vote(old(Abs()), i, k)
      ensures changed <==> address != old(address)
    {
      changed := false;
      var (e, counted) := AddVote(entries[i], k);
      if !counted {
        return;
      }
      entries := entries[i := e];
      var m := MaxElement();
      if entries[m].addr == address {
        return;
      }
      address := entries[m].addr;
      adders := {};
      changed := true;
    }

    method SetAddress(ip: Address, k: Key, random: nat) returns (changed: bool)
      modifies this
      ensures Abs() == Report(old(Abs()), ip, k, random)
      ensures changed <==> address != old(address)
    {
      if IsAny(ip) || IsLocal(ip) || IsLoopback(ip) {
        return false;
      }
      var i := Find(ip);
      if i == |entries| {
        var admitted := MakeRoom(ip, k, random);
        if !admitted {
          return false;
        }
        i := |entries| - 1;
      }
      changed := CountVote(i, k);
    }

    /** The part of `SetAddress` that lists a new address. */
    method MakeRoom(ip: Address, k: Key, random: nat) returns (admitted: bool)
      modifies this`entries
      ensures admitted == Admit(old(Abs()), ip, k, random).Some?
      ensures entries == if admitted then Admit(old(Abs()), ip, k, random).value else old(entries)
    {
      if Bits(k, 32) <= adders {
        return false;
      }
      if |entries| > 20 {
        if random < HALF {
          return false;
        }
        entries := MergeSorted(entries, ByVotes());
        entries := entries[1..];
      }
      entries := entries + [Entry(ip, 0, {}, {})];
      return true;
    }
  }

  /** Everything that has been reported, by whom. */
  type Reports = set<(Address, Key)>

  ghost function Reporters(reports: Reports, a: Address): set<Key> {
    set r | r in reports && r.0 == a :: r.1
  }

  /** A candidate's count is the number of voters counted, all of whom reported it; every
      counted vote has set a bit of the filter, so the 16-bit counter cannot wrap. */
  ghost predicate GoodEntry(e: Entry, reports: Reports) {
    && Usable(e.addr)
    && 1 <= e.votes == |e.who| <= |e.voters|
    && (forall b | b in e.voters :: 0 <= b < 128)
    && (forall k | k in e.who :: Bits(k, 16) <= e.voters && (e.addr, k) in reports)
  }

  ghost predicate Distinct(s: seq<Entry>) {
    forall i, j | 0 <= i < j < |s| :: s[i].addr != s[j].addr
  }

  ghost predicate Inv(s: State, reports: Reports) {
    && Distinct(s.entries) && |s.entries| <= 21
    && (forall i | 0 <= i < |s.entries| :: GoodEntry(s.entries[i], reports))
    && s.address == if s.entries == [] then ANY else s.entries[FirstMax(s.entries)].addr
  }

  function Below(n: nat): (r: set<int>)
    ensures |r| == n && forall b :: b in r <==> 0 <= b < n
  {
    if n == 0 then {} else Below(n - 1) + {n - 1}
  }

  lemma SubsetSize<T>(a: set<T>, b: set<T>)
    requires a <= b
    ensures |a| <= |b|
  {
    assert b == a + (b - a);
  }

  lemma FilterSize(voters: set<int>)
    requires forall b | b in voters :: 0 <= b < 128
    ensures |voters| <= 128
  {
    SubsetSize(voters, Below(128));
  }

  lemma VoteIsGood(e: Entry, k: Key, reports: Reports)
    requires GoodEntry(e, reports) || (Usable(e.addr) && e == Entry(e.addr, 0, {}, {}))
    requires !(Bits(k, 16) <= e.voters)
    ensures GoodEntry(AddVote(e, k).0, reports + {(e.addr, k)}) && AddVote(e, k).0.votes == e.votes + 1 <= 128
  {
    var b := if BitA(k, 16) in e.voters then BitB(k, 16) else BitA(k, 16);
    var voters := e.voters + Bits(k, 16);
    assert b !in e.voters && b in Bits(k, 16);
    SubsetSize(e.voters + {b}, voters);
    FilterSize(voters);
  }

  lemma ByVotesIsOrder()
    ensures TotalPreorder(ByVotes())
  {
  }

  /** Distinctness survives reordering. */
  lemma DistinctPermuted(s: seq<Entry>, t: seq<Entry>)
    requires Distinct(s) && multiset(s) == multiset(t)
    ensures Distinct(t)
  {
    forall i, j | 0 <= i < j < |t| ensures t[i].addr != t[j].addr {
      assert t[i] in multiset(t) && t[j] in multiset(t);
      var a :| 0 <= a < |s| && s[a] == t[i];
      var b :| 0 <= b < |s| && s[b] == t[j];
      if a == b {
        Twice(t, i, j);
        Once(s, t[i]);
      }
    }
  }

  lemma Twice(t: seq<Entry>, i: nat, j: nat)
    requires i < j < |t| && t[i] == t[j]
    ensures multiset(t)[t[i]] >= 2
  {
    CutMultiset(t, j);
    assert t[i] in t[..j] && t[j] in t[j..];
  }

  lemma {:induction false} Once(s: seq<Entry>, x: Entry)
    requires Distinct(s)
    ensures multiset(s)[x] <= 1
    decreases |s|
  {
    if s != [] {
      assert s == [s[0]] + s[1..];
      Once(s[1..], x);
      if s[0] == x {
        assert x !in s[1..];
      }
    }
  }

  /** The entry that is evicted is the first of those with the fewest votes, and the rest stay. */
  lemma EvictedIsOldestLeast(s: seq<Entry>)
    requires s != []
    ensures var t := MergeSorted(s, ByVotes());
      && |t| == |s| && multiset(t) == multiset(s)
      && exists j | 0 <= j < |s| ::
           && t[0] == s[j]
           && (forall i | 0 <= i < |s| :: s[j].votes <= s[i].votes)
           && (forall i | 0 <= i < j :: s[j].votes < s[i].votes)
  {
    var le := ByVotes();
    var t := MergeSorted(s, le);
    ByVotesIsOrder();
    MergeSortedSorts(s, le, le);
    MergeSortedPermutes(s, le);
    MergeSortedStable(s, le, t[0]);
    assert Class(t, t[0], le)[0] == t[0];
    var j := FirstOfClass(s, t[0], le);
    forall i | 0 <= i < |s| ensures s[j].votes <= s[i].votes {
      assert s[i] in multiset(t);
      var k :| 0 <= k < |t| && t[k] == s[i];
      assert k == 0 || le(t[0], t[k]);
    }
  }

  lemma {:induction false} FirstOfClass(s: seq<Entry>, v: Entry, le: (Entry, Entry) -> bool) returns (j: nat)
    requires le == ByVotes() && Class(s, v, le) != []
    ensures j < |s| && Class(s, v, le)[0] == s[j] && s[j].votes == v.votes
    ensures forall i | 0 <= i < j :: s[i].votes != v.votes
    decreases |s|
  {
    if le(s[0], v) && le(v, s[0]) {
      j := 0;
    } else {
      var k := FirstOfClass(s[1..], v, le);
      j := k + 1;
    }
  }

  /** All entries are good but the last, which awaits its first vote. */
  ghost predicate Awaiting(r: seq<Entry>, ip: Address, reports: Reports) {
    && Distinct(r) && 1 <= |r| <= 21 && r[|r| - 1] == Entry(ip, 0, {}, {})
    && forall i | 0 <= i < |r| - 1 :: GoodEntry(r[i], reports)
  }

  lemma AdmitIsGood(s: State, ip: Address, k: Key, random: nat, reports: Reports, r: seq<Entry>)
    requires Inv(s, reports) && IndexOf(s.entries, ip) == |s.entries| && Admit(s, ip, k, random) == Some(r)
    ensures Awaiting(r, ip, reports)
  {
    if |s.entries| > SLOTS {
      MergeSortedPermutes(s.entries, ByVotes());
      SurvivorsAreGood(s.entries, MergeSorted(s.entries, ByVotes()), ip, reports);
      AppendNew(MergeSorted(s.entries, ByVotes())[1..], ip, reports);
    } else {
      AppendNew(s.entries, ip, reports);
    }
  }

  lemma AppendNew(s: seq<Entry>, ip: Address, reports: Reports)
    requires Distinct(s) && forall i | 0 <= i < |s| :: s[i].addr != ip && GoodEntry(s[i], reports)
    ensures var r := s + [Entry(ip, 0, {}, {})];
      Distinct(r) && forall i | 0 <= i < |r| - 1 :: GoodEntry(r[i], reports)
  {
  }

  lemma SurvivorsAreGood(s: seq<Entry>, t: seq<Entry>, ip: Address, reports: Reports)
    requires Distinct(s) && multiset(s) == multiset(t) && forall i | 0 <= i < |s| :: s[i].addr != ip
    requires forall i | 0 <= i < |s| :: GoodEntry(s[i], reports)
    ensures Distinct(t) && forall i | 0 <= i < |t| :: t[i].addr != ip && GoodEntry(t[i], reports)
  {
    DistinctPermuted(s, t);
    forall i | 0 <= i < |t| ensures t[i].addr != ip && GoodEntry(t[i], reports) {
      assert t[i] in multiset(s);
    }
  }

  lemma MoreReports(e: Entry, reports: Reports, more: Reports)
    requires GoodEntry(e, reports) && reports <= more
    ensures GoodEntry(e, more)
  {
  }

  lemma VoteKeeps(s: State, j: nat, k: Key, reports: Reports)
    requires Distinct(s.entries) && |s.entries| <= 21 && j < |s.entries|
    requires forall i | 0 <= i < |s.entries| && i != j :: GoodEntry(s.entries[i], reports)
    requires var e := s.entries[j];
      && (GoodEntry(e, reports) || (Usable(e.addr) && e == Entry(e.addr, 0, {}, {})))
      && !(Bits(k, 16) <= e.voters)
    ensures Inv(Vote(s, j, k), reports + {(s.entries[j].addr, k)})
  {
    VoteIsGood(s.entries[j], k, reports);
    var more := reports + {(s.entries[j].addr, k)};
    forall i | 0 <= i < |s.entries| && i != j ensures GoodEntry(s.entries[i], more) {
      MoreReports(s.entries[i], reports, more);
    }
  }

  lemma InvMoreReports(s: State, reports: Reports, more: Reports)
    requires Inv(s, reports) && reports <= more
    ensures Inv(s, more)
  {
    forall i | 0 <= i < |s.entries| ensures GoodEntry(s.entries[i], more) {
      MoreReports(s.entries[i], reports, more);
    }
  }

  lemma ListedKeeps(s: State, ip: Address, k: Key, reports: Reports)
    requires Inv(s, reports) && IndexOf(s.entries, ip) < |s.entries|
    ensures Inv(Vote(s, IndexOf(s.entries, ip), k), reports + {(ip, k)})
  {
    var i := IndexOf(s.entries, ip);
    if Bits(k, 16) <= s.entries[i].voters {
      InvMoreReports(s, reports, reports + {(ip, k)});
    } else {
      VoteKeeps(s, i, k, reports);
    }
  }

  /** An empty filter reports nobody, so the first vote is always counted. */
  lemma FirstVoteKeeps(s: State, r: seq<Entry>, ip: Address, k: Key, reports: Reports)
    requires Usable(ip) && Awaiting(r, ip, reports)
    ensures Inv(Vote(s.(entries := r), |r| - 1, k), reports + {(ip, k)})
  {
    assert BitA(k, 16) in Bits(k, 16);
    VoteKeeps(s.(entries := r), |r| - 1, k, reports);
  }

  /** What a report comes to, case by case. */
  lemma ReportCases(s: State, ip: Address, k: Key, random: nat, i: nat, r: Option<seq<Entry>>)
    requires i == IndexOf(s.entries, ip) && r == Admit(s, ip, k, random)
    ensures Report(s, ip, k, random) ==
            if !Usable(ip) then s
            else if i < |s.entries| then Vote(s, i, k)
            else if r.Some? then Vote(s.(entries := r.value), |r.value| - 1, k)
            else s
  {
  }

  /** Every report keeps the invariant. */
  lemma ReportKeeps(s: State, ip: Address, k: Key, random: nat, reports: Reports)
    requires Inv(s, reports)
    ensures Inv(Report(s, ip, k, random), reports + {(ip, k)})
  {
    var i, r, t := IndexOf(s.entries, ip), Admit(s, ip, k, random), Report(s, ip, k, random);
    ReportCases(s, ip, k, random, i, r);
    if Usable(ip) && i < |s.entries| {
      ListedKeeps(s, ip, k, reports);
    } else if Usable(ip) && r.Some? {
      AdmitIsGood(s, ip, k, random, reports, r.value);
      AdmittedKeeps(s, t, r.value, ip, k, reports);
    } else {
      InvMoreReports(s, reports, reports + {(ip, k)});
    }
  }

  lemma AdmittedKeeps(s: State, t: State, r: seq<Entry>, ip: Address, k: Key, reports: Reports)
    requires Usable(ip) && Awaiting(r, ip, reports) && t == Vote(s.(entries := r), |r| - 1, k)
    ensures Inv(t, reports + {(ip, k)})
  {
    FirstVoteKeeps(s, r, ip, k, reports);
  }

  datatype Call = Call(ip: Address, k: Key, random: nat)

  function RunAll(s: State, calls: seq<Call>): State
    decreases |calls|
  {
    if calls == [] then s else RunAll(Report(s, calls[0].ip, calls[0].k, calls[0].random), calls[1..])
  }

  ghost function AllReports(calls: seq<Call>): Reports {
    set i | 0 <= i < |calls| :: (calls[i].ip, calls[i].k)
  }

  lemma {:induction false} RunKeeps(s: State, calls: seq<Call>, reports: Reports)
    requires Inv(s, reports)
    ensures Inv(RunAll(s, calls), reports + AllReports(calls))
    decreases |calls|
  {
    if calls == [] {
      assert AllReports(calls) == {};
      assert reports + {} == reports;
    } else {
      var c := calls[0];
      ReportKeeps(s, c.ip, c.k, c.random, reports);
      RunKeeps(Report(s, c.ip, c.k, c.random), calls[1..], reports + {(c.ip, c.k)});
      assert AllReports(calls) == {(c.ip, c.k)} + AllReports(calls[1..]) by {
        forall r | r in AllReports(calls) ensures r in {(c.ip, c.k)} + AllReports(calls[1..]) {
          var i :| 0 <= i < |calls| && r == (calls[i].ip, calls[i].k);
          if i > 0 { assert calls[i] == calls[1..][i - 1]; }
        }
        forall r | r in AllReports(calls[1..]) ensures r in AllReports(calls) {
          var i :| 0 <= i < |calls[1..]| && r == (calls[1..][i].ip, calls[1..][i].k);
          assert calls[i + 1] == calls[1..][i];
        }
      }
      assert reports + {(c.ip, c.k)} + AllReports(calls[1..]) == reports + AllReports(calls);
    }
  }

  lemma WhoReported(e: Entry, reports: Reports)
    requires GoodEntry(e, reports)
    ensures e.who <= Reporters(reports, e.addr) && e.votes <= |Reporters(reports, e.addr)| && e.votes <= 128
  {
    var all := Reporters(reports, e.addr);
    forall k | k in e.who ensures k in all {
      assert (e.addr, k) in reports;
    }
    SubsetSize(e.who, all);
    FilterSize(e.voters);
  }

  /** After any sequence of reports: at most 21 distinct usable candidates, each with between one
      and 128 votes and no more than the number of voters that reported it; and the elected
      address is the first candidate with the most votes. */
  lemma ElectionHolds(calls: seq<Call>)
    ensures var s := RunAll(INITIAL, calls);
      && Distinct(s.entries) && |s.entries| <= 21
      && (forall i | 0 <= i < |s.entries| ::
            && Usable(s.entries[i].addr)
            && 1 <= s.entries[i].votes <= 128
            && s.entries[i].votes <= |Reporters(AllReports(calls), s.entries[i].addr)|)
      && s.address == (if s.entries == [] then ANY else s.entries[FirstMax(s.entries)].addr)
  {
    RunKeeps(INITIAL, calls, {});
    var s := RunAll(INITIAL, calls);
    assert {} + AllReports(calls) == AllReports(calls);
    forall i | 0 <= i < |s.entries|
      ensures 1 <= s.entries[i].votes <= |Reporters(AllReports(calls), s.entries[i].addr)| && s.entries[i].votes <= 128
    {
      WhoReported(s.entries[i], AllReports(calls));
    }
  }

  /** Nothing ever sets a bit of the filter that is to let each voter add only one address,
      so that rule is never applied. */
  lemma {:induction false} AddersStayEmpty(s: State, calls: seq<Call>)
    requires s.adders == {}
    ensures RunAll(s, calls).adders == {}
    decreases |calls|
  {
    if calls != [] {
      AddersStayEmpty(Report(s, calls[0].ip, calls[0].k, calls[0].random), calls[1..]);
    }
  }

  /** When a new address gets in: whoever reports it, and whatever the voter added before, only
      the number of slots and the random draw decide. */
  lemma AdmissionIsOpen(calls: seq<Call>, ip: Address, k: Key, random: nat)
    ensures var s := RunAll(INITIAL, calls);
      Admit(s, ip, k, random).Some? <==> |s.entries| <= SLOTS || random >= HALF
  {
    AddersStayEmpty(INITIAL, calls);
    assert BitA(k, 32) in Bits(k, 32);
  }

  predicate Listed(entries: seq<Entry>, ip: Address) {
    exists i | 0 <= i < |entries| :: entries[i].addr == ip
  }

  lemma VoteKeepsAddress(s: State, j: nat, k: Key, i: nat)
    requires j < |s.entries| && i < |s.entries|
    ensures Listed(Vote(s, j, k).entries, s.entries[i].addr)
    ensures |Vote(s, j, k).entries| == |s.entries|
  {
    assert Vote(s, j, k).entries[i].addr == s.entries[i].addr;
  }

  lemma AdmittedIsListed(s: State, r: seq<Entry>, ip: Address, k: Key, random: nat)
    requires Usable(ip) && IndexOf(s.entries, ip) == |s.entries| && Admit(s, ip, k, random) == Some(r)
    ensures Listed(Report(s, ip, k, random).entries, ip)
  {
    VoteKeepsAddress(s.(entries := r), |r| - 1, k, |r| - 1);
  }

  /** So after a report the address is listed exactly if it was before or was let in. */
  lemma ListedAfterReport(calls: seq<Call>, ip: Address, k: Key, random: nat)
    requires Usable(ip)
    ensures var s := RunAll(INITIAL, calls);
      Listed(Report(s, ip, k, random).entries, ip) <==>
      Listed(s.entries, ip) || |s.entries| <= SLOTS || random >= HALF
  {
    AdmissionIsOpen(calls, ip, k, random);
    ListedOrAdmitted(RunAll(INITIAL, calls), ip, k, random);
  }

  lemma ListedOrAdmitted(s: State, ip: Address, k: Key, random: nat)
    requires Usable(ip)
    ensures Listed(Report(s, ip, k, random).entries, ip) <==> Listed(s.entries, ip) || Admit(s, ip, k, random).Some?
  {
    var i := IndexOf(s.entries, ip);
    if i < |s.entries| {
      VoteKeepsAddress(s, i, k, i);
    } else {
      var r := Admit(s, ip, k, random);
      if r.Some? {
        AdmittedIsListed(s, r.value, ip, k, random);
      }
    }
  }

  /** With slots to spare no listed address goes. */
  lemma RoomKeepsListed(s: State, ip: Address, k: Key, random: nat, i: nat)
    requires |s.entries| <= SLOTS && i < |s.entries|
    ensures Listed(Report(s, ip, k, random).entries, s.entries[i].addr)
    ensures |Report(s, ip, k, random).entries| <= |s.entries| + 1
  {
    var j, r := IndexOf(s.entries, ip), Admit(s, ip, k, random);
    ReportCases(s, ip, k, random, j, r);
    if Usable(ip) && j < |s.entries| {
      VoteKeepsAddress(s, j, k, i);
    } else if Usable(ip) && r.Some? {
      assert r.value[i] == s.entries[i] && |r.value| == |s.entries| + 1;
      VoteKeepsAddress(s.(entries := r.value), |s.entries|, k, i);
    }
  }

  /** One voter adding two addresses, which the rule was to prevent. */
  lemma OneVoterAddsTwo(a: Address, b: Address, k: Key, random: nat)
    requires Usable(a) && Usable(b)
    ensures var s := RunAll(INITIAL, [Call(a, k, random), Call(b, k, random)]);
      Listed(s.entries, a) && Listed(s.entries, b)
  {
    var s1 := Report(INITIAL, a, k, random);
    var s2 := Report(s1, b, k, random);
    TwoCalls(Call(a, k, random), Call(b, k, random));
    ListedAfterReport([], a, k, random);
    assert |s1.entries| <= 1 by { FirstReport(a, k, random); }
    ListedAfterReport([Call(a, k, random)], b, k, random);
    var i :| 0 <= i < |s1.entries| && s1.entries[i].addr == a;
    RoomKeepsListed(s1, b, k, random, i);
  }

  lemma TwoCalls(c: Call, d: Call)
    ensures var s1 := Report(INITIAL, c.ip, c.k, c.random);
      && RunAll(INITIAL, []) == INITIAL && RunAll(INITIAL, [c]) == s1
      && RunAll(INITIAL, [c, d]) == Report(s1, d.ip, d.k, d.random)
  {
    var s1 := Report(INITIAL, c.ip, c.k, c.random);
    assert [c][1..] == [] && [c, d][1..] == [d] && [d][1..] == [];
    assert RunAll(s1, [d]) == RunAll(Report(s1, d.ip, d.k, d.random), []);
  }

  lemma FirstReport(a: Address, k: Key, random: nat)
    ensures |Report(INITIAL, a, k, random).entries| <= 1
  {
    var t := INITIAL.(entries := [Entry(a, 0, {}, {})]);
    VoteKeepsAddress(t, 0, k, 0);
  }
}
