/**
 The four splitting functions (`SplitStrx`, `SubStrAt`, `FindNth`, `CountSep`) and
 `JoinStrx`. All of them resume one character after a separator's first character,
 whatever its length.
 */
module Splitting {
  import opened Options
  import opened Sequences

  /** A separator starts at `i`; in multi mode any one of its characters separates. */
  predicate HitAt(s: string, sep: string, multi: bool, i: nat) {
    if multi then i < |s| && s[i] in sep
    else i + |sep| <= |s| && s[i..i + |sep|] == sep
  }

  /** `String.find` (or `find_first_of`): the least hit at or after `pos`. */
  function NextHit(s: string, sep: string, multi: bool, pos: nat): (r: Option<nat>)
    ensures r.Some? ==> pos <= r.value && HitAt(s, sep, multi, r.value)
    decreases |s| - pos
  {
    if HitAt(s, sep, multi, pos) then Some(pos)
    else if pos >= |s| then None
    else NextHit(s, sep, multi, pos + 1)
  }

  /** No hit is skipped. */
  lemma {:induction false} NextHitIsLeast(s: string, sep: string, multi: bool, pos: nat)
    ensures var r := NextHit(s, sep, multi, pos);
      forall i: nat | pos <= i && (r.Some? ==> i < r.value) :: !HitAt(s, sep, multi, i)
    decreases |s| - pos
  {
    if !HitAt(s, sep, multi, pos) && pos < |s| {
      NextHitIsLeast(s, sep, multi, pos + 1);
    }
  }

  /** What is left of `s` from `pos` on. One past the end there is nothing, and `substr` throws;
      only the empty separator leads there. */
  function Rest(s: string, pos: nat): string {
    if pos <= |s| then s[pos..] else ""
  }

  /** The pieces of `s` from `pos` on. */
  function Pieces(s: string, sep: string, multi: bool, pos: nat): (r: seq<string>)
    requires pos <= |s| + 1
    ensures |r| > 0
    decreases |s| + 1 - pos
  {
    match NextHit(s, sep, multi, pos)
    case Some(i) => [s[pos..i]] + Pieces(s, sep, multi, i + 1)
    case None => [Rest(s, pos)]
  }

  /** Where the k-th piece from `pos` on ends. */
  function PieceEnd(s: string, sep: string, multi: bool, pos: nat, k: nat): (r: nat)
    requires pos <= |s| + 1
    ensures r <= |s|
    decreases |s| + 1 - pos
  {
    match NextHit(s, sep, multi, pos)
    case Some(i) => if k == 0 then i else PieceEnd(s, sep, multi, i + 1, k - 1)
    case None => |s|
  }

  /** Where the k-th piece from `pos` on starts. */
  function PieceStart(s: string, sep: string, multi: bool, pos: nat, k: nat): nat
    requires pos <= |s| + 1
  {
    if k == 0 then pos else PieceEnd(s, sep, multi, pos, k - 1) + 1
  }

  function NonEmpty(list: seq<string>): seq<string> {
    if list == [] then []
    else (if list[0] == "" then [] else [list[0]]) + NonEmpty(list[1..])
  }

  /** Nothing but the empty ones is left out. */
  lemma {:induction false} NonEmptyIsFilter(list: seq<string>, x: string)
    ensures multiset(NonEmpty(list))[x] == if x == "" then 0 else multiset(list)[x]
  {
    if list != [] {
      NonEmptyIsFilter(list[1..], x);
      assert list == [list[0]] + list[1..];
    }
  }

  /** And the others keep their order. */
  lemma {:induction false} NonEmptyConcat(a: seq<string>, b: seq<string>)
    ensures NonEmpty(a + b) == NonEmpty(a) + NonEmpty(b)
  {
    if a == [] {
      assert a + b == b;
    } else {
      assert (a + b)[1..] == a[1..] + b;
      NonEmptyConcat(a[1..], b);
    }
  }

  /** The pieces that are stored: all of them, or only the non-empty ones. */
  function Kept(keepEmpty: bool, list: seq<string>): seq<string> {
    if keepEmpty then list else NonEmpty(list)
  }

  /** What the splitting loop still makes of its list when it stands at `pos`. */
  ghost function StoredOnto(list: seq<string>, s: string, sep: string, keepEmpty: bool, multi: bool, pos: nat)
    : seq<string>
    requires pos <= |s| + 1
    decreases |s| + 1 - pos
  {
    match NextHit(s, sep, multi, pos)
    case Some(i) =>
      StoredOnto(if keepEmpty || i > pos then list + [s[pos..i]] else list, s, sep, keepEmpty, multi, i + 1)
    case None => if keepEmpty || pos < |s| then list + [Rest(s, pos)] else list
  }

  /** It stores exactly the pieces that are to be kept. */
  lemma {:induction false} StoredIsKept(list: seq<string>, s: string, sep: string, keepEmpty: bool, multi: bool,
                                        pos: nat)
    requires pos <= |s| + 1
    ensures StoredOnto(list, s, sep, keepEmpty, multi, pos) == list + Kept(keepEmpty, Pieces(s, sep, multi, pos))
    decreases |s| + 1 - pos
  {
    match NextHit(s, sep, multi, pos)
    case Some(i) =>
      var more := if keepEmpty || i > pos then list + [s[pos..i]] else list;
      StoredIsKept(more, s, sep, keepEmpty, multi, i + 1);
      StoredOntoStep(list, s, sep, keepEmpty, multi, pos, i);
      PiecesStep(s, sep, multi, pos, i);
      KeptCons(list, keepEmpty, s[pos..i], Pieces(s, sep, multi, i + 1));
    case None =>
      KeptCons(list, keepEmpty, Rest(s, pos), []);
  }

  lemma StoredOntoStep(list: seq<string>, s: string, sep: string, keepEmpty: bool, multi: bool, pos: nat, i: nat)
    requires pos <= |s| + 1 && NextHit(s, sep, multi, pos) == Some(i)
    ensures var more := if keepEmpty || i > pos then list + [s[pos..i]] else list;
      StoredOnto(list, s, sep, keepEmpty, multi, pos) == StoredOnto(more, s, sep, keepEmpty, multi, i + 1)
  {
  }

  lemma PiecesStep(s: string, sep: string, multi: bool, pos: nat, i: nat)
    requires pos <= |s| + 1 && NextHit(s, sep, multi, pos) == Some(i)
    ensures Pieces(s, sep, multi, pos) == [s[pos..i]] + Pieces(s, sep, multi, i + 1)
  {
  }

  lemma KeptCons(list: seq<string>, keepEmpty: bool, x: string, rest: seq<string>)
    ensures list + Kept(keepEmpty, [x] + rest) ==
            (if keepEmpty || x != "" then list + [x] else list) + Kept(keepEmpty, rest)
    ensures rest == [] ==> Kept(keepEmpty, rest) == [] && [x] + rest == [x]
  {
    assert ([x] + rest)[1..] == rest;
    assert list + ([x] + Kept(keepEmpty, rest)) == (list + [x]) + Kept(keepEmpty, rest);
    assert [] + Kept(keepEmpty, rest) == Kept(keepEmpty, rest);
  }

  /** The pieces are the stretches between consecutive boundaries. */
  lemma {:induction false} PieceIsStretch(s: string, sep: string, multi: bool, pos: nat, k: nat)
    requires pos <= |s| + 1 && k < |Pieces(s, sep, multi, pos)|
    ensures var i, j := PieceStart(s, sep, multi, pos, k), PieceEnd(s, sep, multi, pos, k);
      && Pieces(s, sep, multi, pos)[k] == (if i <= j then s[i..j] else "")
      && (pos <= |s| && (sep != "" || multi) ==> i <= j)
    decreases k
  {
    if k > 0 {
      var next := NextHit(s, sep, multi, pos).value + 1;
      var rest := Pieces(s, sep, multi, next);
      assert Pieces(s, sep, multi, pos)[k] == rest[k - 1];
      PieceIsStretch(s, sep, multi, next, k - 1);
      assert PieceStart(s, sep, multi, pos, k) == PieceStart(s, sep, multi, next, k - 1);
    }
  }

  /** All start positions of a separator at or after `pos`, overlapping ones included. */
  function Hits(s: string, sep: string, multi: bool, pos: nat): set<nat> {
    set i: nat | pos <= i <= |s| && HitAt(s, sep, multi, i)
  }

  /** There is one piece more than there are (possibly overlapping) separators. */
  lemma {:induction false} PieceCount(s: string, sep: string, multi: bool, pos: nat)
    requires pos <= |s| + 1
    ensures |Pieces(s, sep, multi, pos)| == 1 + |Hits(s, sep, multi, pos)|
    decreases |s| + 1 - pos
  {
    HitsFrom(s, sep, multi, pos);
    match NextHit(s, sep, multi, pos)
    case Some(i) =>
      PieceCount(s, sep, multi, i + 1);
    case None =>
  }

  lemma HitsFrom(s: string, sep: string, multi: bool, pos: nat)
    ensures var r := NextHit(s, sep, multi, pos);
      if r.None? then |Hits(s, sep, multi, pos)| == 0
      else |Hits(s, sep, multi, pos)| == 1 + |Hits(s, sep, multi, r.value + 1)|
  {
    NextHitIsLeast(s, sep, multi, pos);
    var r := NextHit(s, sep, multi, pos);
    if r.Some? {
      assert Hits(s, sep, multi, pos) == {r.value} + Hits(s, sep, multi, r.value + 1);
    } else {
      assert Hits(s, sep, multi, pos) == {};
    }
  }

  /** `None` is the exception of `substr` past the end. */
  method SplitStr(s: string, sep: string, keepEmpty: bool, multi: bool) returns (r: Option<seq<string>>)
    ensures r.None? <==> sep == "" && !multi && keepEmpty
    ensures r.Some? ==> r.value == Kept(keepEmpty, Pieces(s, sep, multi, 0))
  {
    var list: seq<string> := [];
    var pos := 0;
    while true
      invariant pos <= |s| + 1 && (pos == |s| + 1 ==> sep == "" && !multi)
      invariant StoredOnto(list, s, sep, keepEmpty, multi, pos) == StoredOnto([], s, sep, keepEmpty, multi, 0)
      decreases |s| + 1 - pos
    {
      var hit := NextHit(s, sep, multi, pos);
      if hit.Some? {
        if keepEmpty || hit.value - pos > 0 {
          list := list + [s[pos..hit.value]];
        }
        pos := hit.value + 1;
      } else {
        if keepEmpty || pos < |s| {
          if pos > |s| {
            return None;
          }
          list := list + [s[pos..]];
        }
        break;
      }
    }
    StoredIsKept([], s, sep, keepEmpty, multi, 0);
    return Some(list);
  }

  /** The k-th piece from `pos` on, or the empty string if there is none. */
  ghost function PieceOr(s: string, sep: string, pos: nat, k: int): string
    requires pos <= |s| + 1
  {
    var all := Pieces(s, sep, false, pos);
    if 0 <= k < |all| then all[k] else ""
  }

  /** With the empty separator every position is a hit. */
  lemma {:induction false} EmptySeparator(s: string, pos: nat)
    requires pos <= |s| + 1
    ensures |Pieces(s, "", false, pos)| == |s| + 2 - pos
    decreases |s| + 1 - pos
  {
    if pos <= |s| {
      assert NextHit(s, "", false, pos) == Some(pos);
      EmptySeparator(s, pos + 1);
    }
  }

  /** `None` is the exception of `substr` past the end: the empty separator, and the index of the
      piece behind the last character. */
  method SubStrAt(s: string, sep: string, index: int) returns (r: Option<string>)
    ensures r.None? <==> sep == "" && index == |s| + 1
    ensures r.Some? ==> r.value == PieceOr(s, sep, 0, index)
  {
    var pos, left := 0, index;
    while true
      invariant pos <= |s| + 1 && PieceOr(s, sep, pos, left) == PieceOr(s, sep, 0, index)
      invariant pos == |s| + 1 ==> sep == ""
      invariant sep == "" ==> pos + left == index
      decreases |s| + 1 - pos
    {
      var hit := NextHit(s, sep, false, pos);
      if hit.Some? {
        if left == 0 {
          return Some(s[pos..hit.value]);
        }
        pos := hit.value + 1;
      } else {
        if left == 0 {
          if pos > |s| {
            return None;
          }
          return Some(s[pos..]);
        }
        break;
      }
      left := left - 1;
    }
    return Some("");
  }

  method FindNth(s: string, sep: string, index: int) returns (r: nat)
    ensures r == if index == 0 then 0 else if index < 0 then |s| else PieceEnd(s, sep, false, 0, index - 1)
  {
    if index == 0 {
      return 0;
    }
    var pos, left := 0, index;
    while true
      invariant pos <= |s| + 1 && left <= index && (index > 0 ==> left > 0) && (index < 0 ==> left < 0)
      invariant index > 0 ==>
                  PieceEnd(s, sep, false, pos, left - 1) == PieceEnd(s, sep, false, 0, index - 1)
      decreases |s| + 1 - pos
    {
      left := left - 1;
      var hit := NextHit(s, sep, false, pos);
      if hit.Some? {
        if left == 0 {
          return hit.value;
        }
        pos := hit.value + 1;
      } else {
        break;
      }
    }
    return |s|;
  }

  method CountSep(s: string, sep: string) returns (n: nat)
    ensures n == |Pieces(s, sep, false, 0)|
    ensures sep == "" ==> n == |s| + 2
  {
    if sep == "" {
      EmptySeparator(s, 0);
    }
    var pos := 0;
    n := 0;
    while true
      invariant pos <= |s| + 1
      invariant n + |Pieces(s, sep, false, pos)| == |Pieces(s, sep, false, 0)|
      decreases |s| + 1 - pos
    {
      n := n + 1;
      var hit := NextHit(s, sep, false, pos);
      if hit.Some? {
        pos := hit.value + 1;
      } else {
        break;
      }
    }
  }

  /** Appending the pieces of `list` to `acc`; a separator is only added after non-empty text. */
  function Joined(acc: string, list: seq<string>, sep: string): string
    decreases |list|
  {
    if list == [] then acc
    else Joined((if acc != "" then acc + sep else acc) + list[0], list[1..], sep)
  }

  method JoinStr(list: seq<string>, sep: string) returns (r: string)
    ensures r == Joined("", list, sep)
  {
    r := "";
    for k := 0 to |list|
      invariant Joined(r, list[k..], sep) == Joined("", list, sep)
    {
      if r != "" {
        r := r + sep;
      }
      r := r + list[k];
      assert list[k..][1..] == list[k + 1..];
    }
  }

  /** After some text, joining the remaining pieces restores the remaining string. */
  lemma {:induction false} JoinRest(acc: string, s: string, sep: string, pos: nat)
    requires |sep| == 1 && pos <= |s| && acc != ""
    ensures Joined(acc, Pieces(s, sep, false, pos), sep) == acc + sep + s[pos..]
    decreases |s| - pos
  {
    match NextHit(s, sep, false, pos)
    case Some(i) =>
      JoinedStep(acc, s[pos..i], Pieces(s, sep, false, i + 1), sep);
      JoinRest(acc + sep + s[pos..i], s, sep, i + 1);
      CutBehind(acc + sep, s, sep, pos, i);
    case None =>
      JoinedStep(acc, s[pos..], [], sep);
  }

  lemma CutBehind(before: string, s: string, sep: string, pos: nat, i: nat)
    requires |sep| == 1 && pos <= i && HitAt(s, sep, false, i)
    ensures before + s[pos..i] + sep + s[i + 1..] == before + s[pos..]
  {
    CutAtHit(s, sep, pos, i);
    Regroup(before, s[pos..i], sep);
    Regroup(before, s[pos..i] + sep, s[i + 1..]);
  }

  lemma JoinedStep(acc: string, x: string, rest: seq<string>, sep: string)
    requires acc != ""
    ensures Joined(acc, [x] + rest, sep) == Joined(acc + sep + x, rest, sep)
    ensures rest == [] ==> Joined(acc, [x], sep) == acc + sep + x
  {
    assert ([x] + rest)[1..] == rest && [x][1..] == [];
  }

  lemma CutAtHit(s: string, sep: string, pos: nat, i: nat)
    requires |sep| == 1 && pos <= i && HitAt(s, sep, false, i)
    ensures s[pos..] == s[pos..i] + sep + s[i + 1..]
  {
    assert s[i + 0] == sep[0];
  }

  lemma {:induction false} JoinNotLonger(s: string, sep: string, pos: nat)
    requires |sep| == 1 && pos <= |s|
    ensures |Joined("", Pieces(s, sep, false, pos), sep)| <= |s| - pos
    decreases |s| - pos
  {
    var list := Pieces(s, sep, false, pos);
    match NextHit(s, sep, false, pos)
    case Some(i) =>
      assert list[0] == s[pos..i] && list[1..] == Pieces(s, sep, false, i + 1);
      assert "" + list[0] == list[0];
      if i == pos { JoinNotLonger(s, sep, i + 1); } else { JoinRest(s[pos..i], s, sep, i + 1); }
    case None =>
      assert Joined("", list, sep) == s[pos..];
  }

  /** Splitting at a one-character separator and joining again restores exactly
      the strings that do not begin with the separator. */
  lemma SplitThenJoin(s: string, sep: string)
    requires |sep| == 1
    ensures Joined("", Pieces(s, sep, false, 0), sep) == s <==> !(sep <= s)
  {
    var list := Pieces(s, sep, false, 0);
    NextHitIsLeast(s, sep, false, 0);
    assert sep <= s <==> HitAt(s, sep, false, 0);
    match NextHit(s, sep, false, 0)
    case Some(i) =>
      assert list[0] == s[..i] && list[1..] == Pieces(s, sep, false, i + 1);
      assert "" + list[0] == list[0];
      if i == 0 {
        JoinNotLonger(s, sep, 1);
      } else {
        JoinRest(s[..i], s, sep, i + 1);
        CutAtHit(s, sep, 0, i);
        assert s[0..] == s && s[0..i] == s[..i];
      }
    case None =>
      assert Joined("", list, sep) == s;
  }
  /** Joining adds to what is there. */
  lemma {:induction false} JoinedStarts(acc: string, list: seq<string>, sep: string)
    ensures acc <= Joined(acc, list, sep)
    decreases |list|
  {
    if list != [] {
      JoinedStarts((if acc != "" then acc + sep else acc) + list[0], list[1..], sep);
    }
  }

  /** After some text, joining never gives less than the separator and the remaining string. */
  lemma {:induction false} JoinGrows(acc: string, s: string, sep: string, pos: nat)
    requires sep != "" && pos <= |s| && acc != ""
    ensures |Joined(acc, Pieces(s, sep, false, pos), sep)| >= |acc| + |sep| + |s| - pos
    decreases |s| - pos
  {
    match NextHit(s, sep, false, pos)
    case Some(i) =>
      JoinedStep(acc, s[pos..i], Pieces(s, sep, false, i + 1), sep);
      var more := acc + sep + s[pos..i];
      assert |more| == |acc| + |sep| + i - pos;
      JoinGrows(more, s, sep, i + 1);
    case None =>
      JoinedStep(acc, s[pos..], [], sep);
  }

  /** After separators from the very start on, the string cannot come back. */
  lemma {:induction false} NotRestored(s: string, sep: string, z: nat)
    requires |sep| >= 2 && 0 < z <= |s| && HitAt(s, sep, false, 0)
    ensures Joined("", Pieces(s, sep, false, z), sep) != s
    decreases |s| - z
  {
    FirstPiece(s, sep, z);
    match NextHit(s, sep, false, z)
    case Some(i) =>
      if i == z {
        NotRestored(s, sep, z + 1);
      } else if Joined("", Pieces(s, sep, false, z), sep) == s {
        var rest := Pieces(s, sep, false, i + 1);
        JoinedStep(s[z..i], rest[0], rest[1..], sep);
        assert rest == [rest[0]] + rest[1..];
        JoinedStarts(s[z..i] + sep + rest[0], rest[1..], sep);
        ShiftedHit(s, sep, z, i, rest[0]);
      }
    case None =>
  }

  /** What joining makes of the first piece. */
  lemma FirstPiece(s: string, sep: string, pos: nat)
    requires sep != "" && pos <= |s|
    ensures var j := Joined("", Pieces(s, sep, false, pos), sep);
      match NextHit(s, sep, false, pos)
      case Some(i) => pos <= i < |s| && j == Joined(s[pos..i], Pieces(s, sep, false, i + 1), sep)
      case None => j == s[pos..]
  {
    var list := Pieces(s, sep, false, pos);
    match NextHit(s, sep, false, pos)
    case Some(i) =>
      assert list[0] == s[pos..i] && list[1..] == Pieces(s, sep, false, i + 1);
      assert "" + list[0] == list[0];
    case None =>
      assert list[1..] == [] && "" + list[0] == list[0];
      assert Joined(list[0], [], sep) == list[0];
  }

  /** If the string began with what stands from `z` on, there would be a separator at `z`. */
  lemma ShiftedHit(s: string, sep: string, z: nat, i: nat, x: string)
    requires HitAt(s, sep, false, 0) && HitAt(s, sep, false, i) && z <= i
    requires s[z..i] + sep + x <= s
    ensures HitAt(s, sep, false, z)
  {
    var t := s[z..i] + sep + x;
    forall k | 0 <= k < |sep| ensures s[z + k] == sep[k] {
      assert s[0 + k] == sep[k] && t[k] == s[k];
      if k < i - z {
        assert t[k] == s[z + k];
      } else {
        assert t[k] == sep[k - (i - z)] == s[i + (k - (i - z))];
      }
    }
  }

  /** A longer separator must not occur at all. */
  lemma LongSplitThenJoin(s: string, sep: string)
    requires |sep| >= 2
    ensures Joined("", Pieces(s, sep, false, 0), sep) == s <==> NextHit(s, sep, false, 0).None?
  {
    FirstPiece(s, sep, 0);
    match NextHit(s, sep, false, 0)
    case Some(i) =>
      if i == 0 {
        assert s[0..0] == "";
        NotRestored(s, sep, 1);
      } else {
        JoinGrows(s[0..i], s, sep, i + 1);
      }
    case None => assert s[0..] == s;
  }

  /** When splitting and joining fit together, for every separator that can be split at: one
      character must not stand in front, more must not occur. */
  lemma SplitThenJoinAny(s: string, sep: string)
    requires sep != ""
    ensures Joined("", Pieces(s, sep, false, 0), sep) == s <==>
            if |sep| == 1 then !(sep <= s) else forall i: nat :: !HitAt(s, sep, false, i)
  {
    if |sep| == 1 {
      SplitThenJoin(s, sep);
    } else {
      LongSplitThenJoin(s, sep);
      NextHitIsLeast(s, sep, false, 0);
    }
  }

  /** Hits that overlap: there are two separators in three characters. */
  lemma OverlappingHits(s: string, sep: string)
    requires s == "aaa" && sep == "aa"
    ensures Pieces(s, sep, false, 0) == ["", "", "a"]
  {
    assert NextHit(s, sep, false, 0) == Some(0) && NextHit(s, sep, false, 1) == Some(1);
    assert NextHit(s, sep, false, 2) == None by { assert !HitAt(s, sep, false, 2) && !HitAt(s, sep, false, 3); }
    assert s[0..0] == "" && s[1..1] == "" && s[2..] == "a";
    assert Pieces(s, sep, false, 2) == [s[2..]];
    assert Pieces(s, sep, false, 1) == [s[1..1]] + Pieces(s, sep, false, 2);
    assert Pieces(s, sep, false, 0) == [s[0..0]] + Pieces(s, sep, false, 1);
  }
}
