/**
 The bounded log (`CLog`) and the incremental `GetLog` request. A client that always asks
 with the id of the last line it received gets every line at most once and in order.
 */
module LogPolling {
  /** A log line; ids come from one ever-growing counter shared by all logs. */
  datatype Line = Line(id: nat, stamp: int, flag: nat, text: string)

  /** The newest `limit` lines; none if the limit is negative. */
  function Trimmed(s: seq<Line>, limit: int): seq<Line> {
    if limit < 0 then [] else if |s| <= limit then s else s[|s| - limit..]
  }

  /** The index of the first line with the given id, or -1. */
  function IndexOf(s: seq<Line>, id: nat): (r: int)
    ensures -1 <= r < |s|
    ensures r >= 0 ==> s[r].id == id
    ensures forall i | 0 <= i < (if r < 0 then |s| else r) :: s[i].id != id
  {
    if s == [] then -1
    else if s[0].id == id then 0
    else var r := IndexOf(s[1..], id); if r < 0 then -1 else r + 1
  }

  /** The lines after the one with id `last`; all lines if `last` is 0 or unknown. */
  function Since(s: seq<Line>, last: nat): seq<Line> {
    if last == 0 then s else s[IndexOf(s, last) + 1..]
  }

  class CLog {
    var lines: seq<Line>
    var limit: int

    constructor ()
      ensures lines == [] && limit == 1000
    {
      lines, limit := [], 1000;
    }

    method SetLogLimit(n: int)
      modifies this
      ensures limit == n && lines == old(lines)
    {
      limit := n;
    }

    /** With a negative limit the loop would go on to remove from the empty list, which is not
        defined: that is the failure reported here. */
    method AddLogLine(line: Line) returns (ok: bool)
      modifies this
      ensures lines == Trimmed(old(lines) + [line], limit) && limit == old(limit)
      ensures ok == (limit >= 0)
    {
      lines := lines + [line];
      ghost var all := lines;
      while limit < |lines|
        invariant limit == old(limit)
        invariant |lines| <= |all| && lines == all[|all| - |lines|..]
        invariant |lines| < |all| ==> limit <= |lines|
        decreases |lines|
      {
        if lines == [] {
          return false;
        }
        lines := lines[1..];
      }
      return true;
    }

    /** The "GetLog" branch of the request handler. */
    method GetLog(last: nat) returns (entries: seq<Line>)
      ensures entries == Since(lines, last)
    {
      var log := lines;
      var index := -1;
      if last != 0 {
        var i := 0;
        while i < |log|
          invariant 0 <= i <= |log| && index == -1
          invariant forall k | 0 <= k < i :: log[k].id != last
        {
          if last == log[i].id {
            index := i;
            break;
          }
          i := i + 1;
        }
        assert index == IndexOf(log, last);
      }
      entries := [];
      var i := index + 1;
      while i < |log|
        invariant index + 1 <= i <= |log| && entries == log[index + 1..i]
      {
        entries := entries + [log[i]];
        i := i + 1;
      }
    }
  }

  /** One log and one polling client, with the history of the run: `added` is every line ever
      logged, `got` the positions in it of the lines received, `seen` the position after the
      last of them, and `lost` the positions evicted before the client had reached them. */
  datatype State = State(lines: seq<Line>, limit: int, received: seq<Line>, last: nat,
                         added: seq<Line>, got: seq<int>, seen: nat, lost: set<int>)

  datatype Event = Add(line: Line) | SetLimit(n: int) | Poll

  const INITIAL := State([], 1000, [], 0, [], [], 0, {})

  /** Ids are drawn from a counter, so a new line's id exceeds every earlier one; and nothing can
      be logged while the limit is negative. */
  predicate Enabled(s: State, e: Event) {
    e.Add? ==> s.limit >= 0 && e.line.id > 0 && forall i | 0 <= i < |s.added| :: s.added[i].id < e.line.id
  }

  /** How many of the lines ever logged are gone from the log. */
  function Gone(s: State): int {
    |s.added| - |s.lines|
  }

  /** The first position that the client has not reached and that is still in the log. */
  function From(s: State): int {
    if s.seen > Gone(s) then s.seen else Gone(s)
  }

  /** The positions lo, lo + 1, ..., hi - 1. */
  function Positions(lo: int, hi: int): (r: seq<int>)
    ensures |r| == (if lo < hi then hi - lo else 0) && forall i | 0 <= i < |r| :: r[i] == lo + i
    ensures forall i :: i in r <==> lo <= i < hi
    decreases hi - lo
  {
    if lo >= hi then [] else Positions(lo, hi - 1) + [hi - 1]
  }

  function Next(s: State, e: Event): State
    requires |s.lines| <= |s.added|
  {
    match e
    case Add(line) =>
      var t := s.(lines := Trimmed(s.lines + [line], s.limit), added := s.added + [line]);
      t.(lost := s.lost + set i | i in Positions(From(s), Gone(t)))
    case SetLimit(n) => s.(limit := n)
    case Poll =>
      var entries := Since(s.lines, s.last);
      if entries == [] then s
      else s.(received := s.received + entries, last := entries[|entries| - 1].id,
              got := s.got + Positions(|s.added| - |entries|, |s.added|), seen := |s.added|)
  }

  ghost predicate Increasing(s: seq<Line>) {
    forall i, j | 0 <= i < j < |s| :: s[i].id < s[j].id
  }

  ghost predicate IsRun(s: State, events: seq<Event>, t: State)
    decreases |events|
  {
    if events == [] then s == t
    else |s.lines| <= |s.added| && Enabled(s, events[0]) && IsRun(Next(s, events[0]), events[1..], t)
  }

  /** The log holds the newest lines and the client's `last` is the id at the position it has reached. */
  ghost predicate LogInv(s: State) {
    && Increasing(s.added) && (forall i | 0 <= i < |s.added| :: s.added[i].id > 0)
    && |s.lines| <= |s.added| && s.lines == s.added[Gone(s)..]
    && s.seen <= |s.added| && s.last == if s.seen == 0 then 0 else s.added[s.seen - 1].id
  }

  /** Received positions ascend and the received lines are the ones at those positions. */
  ghost predicate InOrder(received: seq<Line>, got: seq<int>, added: seq<Line>, seen: nat) {
    && |received| == |got|
    && (forall k | 0 <= k < |got| :: 0 <= got[k] < seen <= |added| && received[k] == added[got[k]])
    && (forall j, k | 0 <= j < k < |got| :: got[j] < got[k])
  }

  /** Every position passed was received, or evicted before the client reached it. */
  ghost predicate Accounted(got: seq<int>, seen: int, gone: int, lost: set<int>) {
    && (forall i | i in lost :: 0 <= i < gone && i !in got)
    && (forall i | 0 <= i < seen :: i in got || i in lost)
    && (forall i | seen <= i < gone :: i in lost)
  }

  ghost predicate ClientInv(s: State) {
    InOrder(s.received, s.got, s.added, s.seen) && Accounted(s.got, s.seen, Gone(s), s.lost)
  }

  /** A poll returns exactly the lines after the last one received that are still in the log. */
  lemma SinceIsSuffix(s: State)
    requires LogInv(s)
    ensures Since(s.lines, s.last) == s.added[From(s)..]
  {
    var e := Gone(s);
    assert forall i | 0 <= i < |s.lines| :: s.lines[i] == s.added[e + i];
    if s.seen > e {
      assert s.lines[s.seen - 1 - e].id == s.last;
      assert IndexOf(s.lines, s.last) == s.seen - 1 - e;
    } else if s.seen > 0 {
      assert IndexOf(s.lines, s.last) == -1;
    }
  }

  lemma AddKeepsLog(s: State, line: Line)
    requires LogInv(s) && Enabled(s, Add(line))
    ensures LogInv(Next(s, Add(line))) && Gone(s) <= Gone(Next(s, Add(line)))
  {
    SuffixGrows(s.added, Gone(s), line);
    TrimmedSuffix(s.added + [line], Gone(s), s.limit);
    assert Increasing(s.added + [line]);
  }

  /** Trimming a suffix leaves a suffix. */
  lemma TrimmedSuffix(s: seq<Line>, k: nat, limit: nat)
    requires k <= |s|
    ensures var t := Trimmed(s[k..], limit); |t| <= |s| - k && t == s[|s| - |t|..]
  {
  }

  lemma SuffixGrows(s: seq<Line>, k: nat, line: Line)
    requires k <= |s|
    ensures s[k..] + [line] == (s + [line])[k..]
  {
  }

  lemma AddKeepsClient(s: State, line: Line)
    requires LogInv(s) && ClientInv(s) && LogInv(Next(s, Add(line))) && Gone(s) <= Gone(Next(s, Add(line)))
    ensures ClientInv(Next(s, Add(line)))
  {
    var t := Next(s, Add(line));
    assert forall i | i in s.got :: i < s.seen;
    forall i | t.seen <= i < Gone(t) ensures i in t.lost {
      assert i in Positions(From(s), Gone(t)) || i in s.lost;
    }
  }

  lemma InOrderExtends(received: seq<Line>, got: seq<int>, added: seq<Line>, seen: nat, from: nat)
    requires InOrder(received, got, added, seen) && seen <= from <= |added|
    ensures InOrder(received + added[from..], got + Positions(from, |added|), added, |added|)
  {
  }

  lemma AccountedExtends(got: seq<int>, seen: nat, gone: nat, lost: set<int>, from: nat, n: nat)
    requires Accounted(got, seen, gone, lost) && gone <= n && from == if seen > gone then seen else gone
    ensures Accounted(got + Positions(from, n), n, gone, lost)
  {
    var all := got + Positions(from, n);
    assert forall i :: i in all <==> i in got || from <= i < n;
  }

  /** A poll in terms of positions. */
  lemma PollIs(s: State)
    requires LogInv(s)
    ensures Next(s, Poll) ==
            if From(s) == |s.added| then s
            else s.(received := s.received + s.added[From(s)..], last := s.added[|s.added| - 1].id,
                    got := s.got + Positions(From(s), |s.added|), seen := |s.added|)
  {
    SinceIsSuffix(s);
    PollAs(s, From(s));
  }

  lemma PollAs(s: State, from: nat)
    requires |s.lines| <= |s.added| && from <= |s.added| && Since(s.lines, s.last) == s.added[from..]
    ensures Next(s, Poll) ==
            if from == |s.added| then s
            else s.(received := s.received + s.added[from..], last := s.added[|s.added| - 1].id,
                    got := s.got + Positions(from, |s.added|), seen := |s.added|)
  {
    LastOfSuffix(s.added, from);
  }

  lemma LastOfSuffix(s: seq<Line>, k: nat)
    requires k <= |s|
    ensures |s[k..]| == |s| - k && (k < |s| ==> s[k..][|s[k..]| - 1] == s[|s| - 1])
  {
  }

  lemma PollKeepsLog(s: State)
    requires LogInv(s)
    ensures LogInv(Next(s, Poll)) && Gone(Next(s, Poll)) == Gone(s) && Next(s, Poll).limit == s.limit
  {
    PollIs(s);
  }

  lemma PollKeepsClient(s: State)
    requires LogInv(s) && ClientInv(s)
    ensures ClientInv(Next(s, Poll))
  {
    PollIs(s);
    if From(s) != |s.added| {
      InOrderExtends(s.received, s.got, s.added, s.seen, From(s));
      AccountedExtends(s.got, s.seen, Gone(s), s.lost, From(s), |s.added|);
    }
  }

  lemma {:induction false} InvHolds(s: State, events: seq<Event>, t: State)
    requires LogInv(s) && ClientInv(s) && IsRun(s, events, t)
    ensures LogInv(t) && ClientInv(t)
    decreases |events|
  {
    if events != [] {
      match events[0] {
        case Add(line) =>
          AddKeepsLog(s, line);
          AddKeepsClient(s, line);
        case SetLimit(_) =>
        case Poll =>
          PollKeepsLog(s);
          PollKeepsClient(s);
      }
      InvHolds(Next(s, events[0]), events[1..], t);
    }
  }

  lemma ReceivedIncreasing(received: seq<Line>, got: seq<int>, added: seq<Line>, seen: nat)
    requires InOrder(received, got, added, seen) && Increasing(added)
    ensures Increasing(received)
  {
  }

  lemma ReceivedIffGot(received: seq<Line>, got: seq<int>, added: seq<Line>, seen: nat, i: nat)
    requires InOrder(received, got, added, seen) && Increasing(added) && i < |added|
    ensures i in got <==> added[i] in received
  {
    if i in got {
      var k :| 0 <= k < |got| && got[k] == i;
      assert received[k] == added[i];
    }
    if added[i] in received {
      var k :| 0 <= k < |received| && received[k] == added[i];
      assert got[k] == i;
    }
  }

  /** Over every run of logging, limit changes and polls: what the client has received is
      strictly increasing, so in order and without repetition, and every line ever logged is
      received, or newer than the client's last id and still in the log, or was evicted
      before the client reached it. */
  lemma Delivery(events: seq<Event>, t: State)
    requires IsRun(INITIAL, events, t)
    ensures Increasing(t.received)
    ensures forall i | 0 <= i < |t.added| ::
              t.added[i] in t.received || (i >= Gone(t) && t.added[i].id > t.last) || i in t.lost
    ensures forall i | i in t.lost :: 0 <= i < Gone(t) <= |t.added| && t.added[i] !in t.received
  {
    InvHolds(INITIAL, events, t);
    ReceivedIncreasing(t.received, t.got, t.added, t.seen);
    forall i | 0 <= i < |t.added| ensures i in t.got <==> t.added[i] in t.received {
      ReceivedIffGot(t.received, t.got, t.added, t.seen, i);
    }
  }

  /** Right after a poll the client has every line that is still in the log and is newer
      than the last line it had before. */
  lemma PollCatchesUp(events: seq<Event>, t: State)
    requires IsRun(INITIAL, events, t)
    ensures |t.lines| <= |t.added| && forall l | l in t.lines && l.id > t.last :: l in Next(t, Poll).received
  {
    InvHolds(INITIAL, events, t);
    PollIs(t);
    forall l | l in t.lines && l.id > t.last ensures l in Next(t, Poll).received {
      NewerIsAhead(t, l);
    }
  }

  lemma NewerIsAhead(t: State, l: Line)
    requires LogInv(t) && l in t.lines && l.id > t.last
    ensures From(t) < |t.added| && l in t.added[From(t)..]
  {
    var i :| 0 <= i < |t.lines| && t.lines[i] == l;
    var k := Gone(t) + i;
    assert t.added[k] == l && k >= t.seen;
    assert t.added[From(t)..][k - From(t)] == l;
  }
  // How much is evicted

  /** A line that is added is the last one then, and the log holds as many lines as there are and
      the limit allows, none of them changed. */
  lemma AddKeepsAsMuch(s: State, line: Line)
    requires LogInv(s) && Enabled(s, Add(line))
    ensures var t := Next(s, Add(line));
      && |t.lines| == (if |s.lines| + 1 <= s.limit then |s.lines| + 1 else s.limit)
      && t.lines == (s.lines + [line])[|s.lines| + 1 - |t.lines|..]
  {
    TrimmedEnds(s.lines + [line], s.limit);
  }

  lemma TrimmedEnds(s: seq<Line>, limit: nat)
    ensures var t := Trimmed(s, limit);
      && |t| == (if |s| <= limit then |s| else limit)
      && t == s[|s| - |t|..]
  {
    assert s[0..] == s;
  }

  /** The limit has never been below `floor`. */
  predicate LimitsFrom(events: seq<Event>, floor: nat) {
    floor <= 1000 && forall k | 0 <= k < |events| && events[k].SetLimit? :: events[k].n >= floor
  }

  ghost predicate KeptFrom(s: State, floor: nat) {
    s.limit >= floor && (Gone(s) > 0 ==> Gone(s) + floor <= |s.added|)
  }

  lemma {:induction false} RunKeepsFrom(s: State, events: seq<Event>, t: State, floor: nat)
    requires LogInv(s) && KeptFrom(s, floor) && LimitsFrom(events, floor) && IsRun(s, events, t)
    ensures LogInv(t) && KeptFrom(t, floor)
    decreases |events|
  {
    if events != [] {
      StepKeepsFrom(s, events[0], floor);
      RunKeepsFrom(Next(s, events[0]), events[1..], t, floor);
    }
  }

  lemma StepKeepsFrom(s: State, e: Event, floor: nat)
    requires LogInv(s) && KeptFrom(s, floor) && Enabled(s, e) && (e.SetLimit? ==> e.n >= floor)
    ensures LogInv(Next(s, e)) && KeptFrom(Next(s, e), floor)
  {
    match e
    case Add(line) =>
      AddKeepsLog(s, line);
      AddKeepsAsMuch(s, line);
    case SetLimit(_) =>
    case Poll => PollKeepsLog(s);
  }

  /** Over every run: a line that is gone from the log, and so every line that the client has lost,
      has at least as many newer lines behind it as the limit ever allowed for. */
  lemma LostOnlyToTheLimit(events: seq<Event>, t: State, floor: nat)
    requires IsRun(INITIAL, events, t) && LimitsFrom(events, floor)
    ensures Gone(t) > 0 ==> Gone(t) + floor <= |t.added|
    ensures forall i | i in t.lost :: i + floor < |t.added|
  {
    RunKeepsFrom(INITIAL, events, t, floor);
    Delivery(events, t);
  }

  /** With the initial limit that is a thousand lines. */
  lemma LostAfterAThousand(events: seq<Event>, t: State)
    requires IsRun(INITIAL, events, t) && forall k | 0 <= k < |events| :: !events[k].SetLimit?
    ensures forall i | i in t.lost :: i + 1000 < |t.added|
  {
    LostOnlyToTheLimit(events, t, 1000);
  }
}
