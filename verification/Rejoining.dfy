/** Joining texts (`JoinStrx`) and splitting the result again. */
module Rejoining {
  import opened Options
  import opened Sequences
  import opened Splitting

  /** The texts of the list with separators between them. */
  function Between(list: seq<string>, sep: string): string
    requires list != []
  {
    if |list| == 1 then list[0] else list[0] + (sep + Between(list[1..], sep))
  }

  /** That is what joining gives if the first text is not empty. */
  lemma {:induction false} JoinedIsBetween(acc: string, list: seq<string>, sep: string)
    requires list != [] && (acc != "" || |list| == 1)
    ensures Joined(acc, list[1..], sep) ==
            if |list| == 1 then acc else acc + (sep + Between(list[1..], sep))
    decreases |list|
  {
    if |list| > 1 {
      var rest := list[1..];
      JoinedIsBetween(acc + sep + rest[0], rest, sep);
      if |rest| > 1 {
        Regroup(acc, sep, rest[0]);
        Regroup(acc, sep + rest[0], sep + Between(rest[1..], sep));
        Regroup(sep, rest[0], sep + Between(rest[1..], sep));
      } else {
        Regroup(acc, sep, rest[0]);
      }
    }
  }

  /** The separator's one character is not in the text. */
  predicate Free(x: string, sep: string)
    requires |sep| == 1
  {
    forall k | 0 <= k < |x| :: x[k] != sep[0]
  }

  lemma HitIs(s: string, sep: string, i: nat)
    requires |sep| == 1
    ensures HitAt(s, sep, false, i) <==> i < |s| && s[i] == sep[0]
  {
    if i < |s| { assert s[i..i + 1] == [s[i]]; }
  }

  lemma {:induction false} NextHitSkips(s: string, sep: string, pos: nat, i: nat)
    requires |sep| == 1 && pos <= i <= |s| && (i < |s| ==> s[i] == sep[0])
    requires forall k | pos <= k < i :: s[k] != sep[0]
    ensures NextHit(s, sep, false, pos) == if i < |s| then Some(i) else None
    decreases i - pos
  {
    HitIs(s, sep, pos);
    if pos < i { NextHitSkips(s, sep, pos + 1, i); }
  }

  /** The first of the texts, and what stands behind it. */
  lemma BetweenStarts(s: string, pos: nat, list: seq<string>, sep: string, i: nat)
    requires |sep| == 1 && list != [] && pos <= |s| && s[pos..] == Between(list, sep) && i == pos + |list[0]|
    ensures i <= |s| && s[pos..i] == list[0]
    ensures if |list| == 1 then i == |s|
            else i < |s| && s[i] == sep[0] && s[i + 1..] == Between(list[1..], sep)
  {
    var b := s[pos..];
    assert b[..|list[0]|] == list[0];
    if |list| > 1 {
      assert b[|list[0]|] == sep[0] && b[|list[0]| + 1..] == Between(list[1..], sep);
    }
  }

  lemma {:induction false} PiecesOfBetween(s: string, pos: nat, list: seq<string>, sep: string)
    requires |sep| == 1 && list != [] && pos <= |s| && s[pos..] == Between(list, sep)
    requires forall k | 0 <= k < |list| :: Free(list[k], sep)
    ensures Pieces(s, sep, false, pos) == list
    decreases |list|
  {
    var i := pos + |list[0]|;
    BetweenStarts(s, pos, list, sep, i);
    FirstOfBetween(s, pos, i, list[0], sep);
    if |list| > 1 {
      PiecesOfBetween(s, i + 1, list[1..], sep);
    }
    HeadAndTail(list);
  }

  lemma HeadAndTail(list: seq<string>)
    requires list != []
    ensures list == [list[0]] + list[1..] && (|list| == 1 ==> list == [list[0]])
  {
  }

  lemma FirstOfBetween(s: string, pos: nat, i: nat, x: string, sep: string)
    requires |sep| == 1 && pos <= i <= |s| && s[pos..i] == x && Free(x, sep) && (i < |s| ==> s[i] == sep[0])
    ensures Pieces(s, sep, false, pos) == if i < |s| then [x] + Pieces(s, sep, false, i + 1) else [x]
  {
    FreeStretch(s, pos, i, x, sep);
    if i < |s| {
      PiecesStep(s, sep, false, pos, i);
    } else {
      assert s[pos..] == x;
    }
  }

  lemma FreeStretch(s: string, pos: nat, i: nat, x: string, sep: string)
    requires |sep| == 1 && pos <= i <= |s| && s[pos..i] == x && Free(x, sep) && (i < |s| ==> s[i] == sep[0])
    ensures NextHit(s, sep, false, pos) == if i < |s| then Some(i) else None
  {
    forall k | pos <= k < i ensures s[k] != sep[0] {
      assert s[k] == x[k - pos];
    }
    NextHitSkips(s, sep, pos, i);
  }

  /** Joining texts without the separator and splitting again gives the same texts, if the first of
      several is not empty. */
  lemma JoinThenSplit(list: seq<string>, sep: string)
    requires |sep| == 1 && list != [] && (|list| == 1 || list[0] != "")
    requires forall k | 0 <= k < |list| :: Free(list[k], sep)
    ensures Pieces(Joined("", list, sep), sep, false, 0) == list
  {
    var s := Joined("", list, sep);
    assert "" + list[0] == list[0];
    JoinedIsBetween(list[0], list, sep);
    assert s == Between(list, sep);
    assert s[0..] == s;
    PiecesOfBetween(s, 0, list, sep);
  }
}
