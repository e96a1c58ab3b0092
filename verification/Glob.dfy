/**
 Wildcard matching (`wildcmpex`): a two-pointer loop that only ever backtracks to
 the most recent star, proved equal to the declarative meaning of `*` and `?`.
 C strings are sequences here, so the terminating NUL is the index `|s|`.
 */
module Glob {
  import opened Options

  /** The meaning of a pattern: `*` stands for any run, `?` for any one character. */
  ghost predicate Matches(p: string, s: string)
    decreases |p| + |s|
  {
    if p == "" then s == ""
    else if p[0] == '*' then Matches(p[1..], s) || (s != "" && Matches(p, s[1..]))
    else s != "" && (p[0] == '?' || p[0] == s[0]) && Matches(p[1..], s[1..])
  }

  /** One non-star pattern character against one string character. */
  predicate CharOk(w: char, c: char) {
    w == c || w == '?'
  }

  /** `Matches` on the windows `p[w..n]` and `s[i..e]`. */
  ghost predicate Window(p: string, w: nat, n: nat, s: string, i: nat, e: nat)
    requires w <= n <= |p| && i <= e <= |s|
    decreases n - w + e - i
  {
    if w == n then i == e
    else if p[w] == '*' then Window(p, w + 1, n, s, i, e) || (i < e && Window(p, w, n, s, i + 1, e))
    else i < e && CharOk(p[w], s[i]) && Window(p, w + 1, n, s, i + 1, e)
  }

  lemma {:induction false} WindowIsMatches(p: string, w: nat, n: nat, s: string, i: nat, e: nat)
    requires w <= n <= |p| && i <= e <= |s|
    ensures Window(p, w, n, s, i, e) <==> Matches(p[w..n], s[i..e])
    decreases n - w + e - i
  {
    if w < n {
      assert p[w..n][1..] == p[w + 1..n];
      if p[w] == '*' {
        WindowIsMatches(p, w + 1, n, s, i, e);
      }
      if i < e {
        assert s[i..e][1..] == s[i + 1..e];
        WindowIsMatches(p, w, n, s, i + 1, e);
        WindowIsMatches(p, w + 1, n, s, i + 1, e);
      }
    }
  }

  /** The star-free block `p[m..w]` matches character by character at `s[k..]`. */
  ghost predicate Block(p: string, m: nat, w: nat, s: string, k: nat)
    requires m <= w <= |p|
  {
    k + (w - m) <= |s| && forall j | m <= j < w :: CharOk(p[j], s[k + j - m])
  }

  ghost predicate StarFree(p: string, m: nat, w: nat)
    requires w <= |p|
  {
    forall j | m <= j < w :: p[j] != '*'
  }

  /** A star-free block consumes exactly as many characters as it has. */
  lemma {:induction false} BlockStep(p: string, m: nat, w: nat, n: nat, s: string, k: nat, e: nat)
    requires m <= w <= n <= |p| && k <= e <= |s| && StarFree(p, m, w)
    ensures Window(p, m, n, s, k, e) <==>
            k + (w - m) <= e && Block(p, m, w, s, k) && Window(p, w, n, s, k + (w - m), e)
    decreases w - m
  {
    if m < w && k < e {
      BlockStep(p, m + 1, w, n, s, k + 1, e);
      assert CharOk(p[m], s[k]) && Block(p, m + 1, w, s, k + 1) <==> Block(p, m, w, s, k) by {
        if CharOk(p[m], s[k]) && Block(p, m + 1, w, s, k + 1) {
          forall j | m <= j < w ensures CharOk(p[j], s[k + j - m]) {
            if j > m { assert CharOk(p[j], s[(k + 1) + j - (m + 1)]); }
          }
        }
        if Block(p, m, w, s, k) {
          assert CharOk(p[m], s[k + m - m]);
          forall j | m + 1 <= j < w ensures CharOk(p[j], s[(k + 1) + j - (m + 1)]) {
            assert CharOk(p[j], s[k + j - m]);
          }
        }
      }
    }
  }

  /** Some position at or after `c` still matches `p[m..n]` up to `e`. */
  ghost predicate From(p: string, m: nat, n: nat, s: string, c: nat, e: nat)
    requires m <= n <= |p| && e <= |s|
  {
    exists k :: c <= k <= e && Window(p, m, n, s, k, e)
  }

  /** A star hands the rest of the pattern to some later position. */
  lemma {:induction false} StarStep(p: string, w: nat, n: nat, s: string, i: nat, e: nat)
    requires w < n <= |p| && p[w] == '*' && i <= e <= |s|
    ensures Window(p, w, n, s, i, e) <==> From(p, w + 1, n, s, i, e)
    decreases e - i
  {
    if i < e {
      StarStep(p, w, n, s, i + 1, e);
    }
  }

  lemma {:induction false} OnlyStarsMatchEmpty(p: string, w: nat, n: nat, s: string, e: nat)
    requires w <= n <= |p| && e <= |s|
    ensures Window(p, w, n, s, e, e) <==> forall j | w <= j < n :: p[j] == '*'
    decreases n - w
  {
    if w < n {
      OnlyStarsMatchEmpty(p, w + 1, n, s, e);
    }
  }

  /** The two questions a run answers: does all of `p` match all of `s`, and, when `p`
      ends in a star, which prefixes of `s` does the pattern before that star match. */
  ghost predicate Question(p: string, n: nat, s: string, e: nat) {
    || (n == |p| && e == |s|)
    || (n + 1 == |p| && p[n] == '*' && e <= |s|)
  }

  /** The loop invariant: no candidate before `c` for the pattern after the last star is needed. */
  ghost predicate Reduced(p: string, m: nat, s: string, c: nat)
  {
    forall n: nat, e: nat | Question(p, n, s, e) && m <= n ::
      Window(p, 0, n, s, 0, e) <==> From(p, m, n, s, c, e)
  }

  /** Reaching a star at `w` while in an anchored first block. */
  lemma FirstStar(p: string, w: nat, s: string, i: nat)
    requires w < |p| && p[w] == '*' && StarFree(p, 0, w) && Block(p, 0, w, s, 0) && i == w
    ensures Reduced(p, w + 1, s, i)
  {
    forall n: nat, e: nat | Question(p, n, s, e) && w + 1 <= n
      ensures Window(p, 0, n, s, 0, e) <==> From(p, w + 1, n, s, i, e)
    {
      BlockStep(p, 0, w, n, s, 0, e);
      if i <= e { StarStep(p, w, n, s, i, e); }
    }
  }

  /** Reaching the next star at `w`: moving the anchor forward loses no match. */
  lemma NextStar(p: string, m: nat, w: nat, s: string, c: nat, i: nat)
    requires m <= w < |p| && p[w] == '*' && StarFree(p, m, w) && Block(p, m, w, s, c) && i == c + (w - m)
    requires Reduced(p, m, s, c)
    ensures Reduced(p, w + 1, s, i)
  {
    forall n: nat, e: nat | Question(p, n, s, e) && w + 1 <= n
      ensures Window(p, 0, n, s, 0, e) <==> From(p, w + 1, n, s, i, e)
    {
      if From(p, m, n, s, c, e) {
        var k :| c <= k <= e && Window(p, m, n, s, k, e);
        BlockStep(p, m, w, n, s, k, e);
        StarStep(p, w, n, s, k + (w - m), e);
      }
      if From(p, w + 1, n, s, i, e) {
        StarStep(p, w, n, s, i, e);
        BlockStep(p, m, w, n, s, c, e);
      }
    }
  }

  /** A mismatch at `w` rules out the current candidate `c`. */
  lemma Mismatch(p: string, m: nat, w: nat, s: string, c: nat, i: nat)
    requires m <= w <= |p| && StarFree(p, m, w) && Block(p, m, w, s, c) && i == c + (w - m) < |s|
    requires w < |p| ==> p[w] != '*' && !CharOk(p[w], s[i])
    requires Reduced(p, m, s, c)
    ensures Reduced(p, m, s, c + 1)
  {
    forall n: nat, e: nat | Question(p, n, s, e) && m <= n
      ensures Window(p, 0, n, s, 0, e) <==> From(p, m, n, s, c + 1, e)
    {
      if c <= e && Window(p, m, n, s, c, e) {
        var x := if w < n then w else n;
        BlockStep(p, m, x, n, s, c, e);
      }
    }
  }

  /** Where a successful match ends: at the least position from which a trailing star
      takes over, or at the end of the string if the pattern does not end in a star. */
  ghost predicate EndsAt(p: string, s: string, r: nat) {
    if p != "" && p[|p| - 1] == '*' then
      && r <= |s|
      && Matches(p[..|p| - 1], s[..r])
      && forall e | 0 <= e < r :: !Matches(p[..|p| - 1], s[..e])
    else r == |s|
  }

  /** A block after the last star matched up to `i`: either it is the first block of all,
      anchored at 0, or the invariant has reduced the questions to it. */
  ghost predicate Placed(p: string, m: nat, w: nat, s: string, c: nat, i: nat) {
    && m <= w <= |p| && StarFree(p, m, w) && Block(p, m, w, s, c) && i == c + (w - m)
    && if m == 0 then c == 0 else m < |p| && Reduced(p, m, s, c)
  }

  /** Such a block answers every question that ends no later than `i`. */
  lemma PlacedAnswers(p: string, m: nat, w: nat, s: string, c: nat, i: nat, n: nat, e: nat)
    requires Placed(p, m, w, s, c, i) && Question(p, n, s, e) && w <= n && e <= i
    ensures Window(p, 0, n, s, 0, e) <==> e == i && forall j | w <= j < n :: p[j] == '*'
  {
    OnlyStarsMatchEmpty(p, w, n, s, e);
    if m == 0 {
      BlockStep(p, 0, w, n, s, 0, e);
    } else {
      if From(p, m, n, s, c, e) {
        var k :| c <= k <= e && Window(p, m, n, s, k, e);
        BlockStep(p, m, w, n, s, k, e);
      }
      if e == i { BlockStep(p, m, w, n, s, c, e); }
    }
  }

  /** A final star after such a block always succeeds. */
  lemma FinalStar(p: string, m: nat, w: nat, s: string, c: nat, i: nat)
    requires Placed(p, m, w, s, c, i) && w + 1 == |p| && p[w] == '*'
    ensures Matches(p, s)
  {
    var n, e := |p|, |s|;
    assert p[0..n] == p && s[0..e] == s;
    WindowIsMatches(p, 0, n, s, 0, e);
    assert Window(p, n, n, s, e, e);
    StarStep(p, w, n, s, i, e);
    BlockStep(p, m, w, n, s, c, e);
    if m > 0 { assert From(p, m, n, s, c, e); }
  }

  /** With the string used up, the rest of the pattern must be stars. */
  lemma StringUsedUp(p: string, m: nat, w: nat, s: string, c: nat, i: nat)
    requires Placed(p, m, w, s, c, i) && i == |s|
    ensures Matches(p, s) <==> forall j | w <= j < |p| :: p[j] == '*'
  {
    assert p[0..|p|] == p && s[0..|s|] == s;
    WindowIsMatches(p, 0, |p|, s, 0, |s|);
    PlacedAnswers(p, m, w, s, c, i, |p|, |s|);
  }

  lemma PlacedEnd(p: string, m: nat, w: nat, s: string, c: nat, i: nat)
    requires Placed(p, m, w, s, c, i)
    requires (w + 1 == |p| && p[w] == '*') || (i == |s| && forall j | w <= j < |p| :: p[j] == '*')
    ensures EndsAt(p, s, i)
  {
    if p != "" && p[|p| - 1] == '*' {
      var n := |p| - 1;
      forall e: nat | e <= i
        ensures Matches(p[..n], s[..e]) <==> e == i
      {
        assert p[0..n] == p[..n] && s[0..e] == s[..e];
        WindowIsMatches(p, 0, n, s, 0, e);
        PlacedAnswers(p, m, w, s, c, i, n, e);
      }
    }
  }

  /** An anchored first block that breaks leaves nothing to match. */
  lemma NoFirstBlock(p: string, w: nat, s: string)
    requires w <= |p| && w < |s| && StarFree(p, 0, w) && Block(p, 0, w, s, 0)
    requires w < |p| ==> p[w] != '*' && !CharOk(p[w], s[w])
    ensures !Matches(p, s)
  {
    assert p[0..|p|] == p && s[0..|s|] == s;
    WindowIsMatches(p, 0, |p|, s, 0, |s|);
    BlockStep(p, 0, w, |p|, s, 0, |s|);
  }

  method WildCmp(p: string, s: string) returns (r: Option<nat>)
    ensures r.Some? <==> Matches(p, s)
    ensures r.Some? ==> EndsAt(p, s, r.value)
  {
    var w, i := 0, 0;
    while i < |s| && !(w < |p| && p[w] == '*')
      invariant 0 <= w == i <= |p| && i <= |s|
      invariant StarFree(p, 0, w) && Block(p, 0, w, s, 0)
    {
      if w == |p| || !CharOk(p[w], s[i]) {
        NoFirstBlock(p, w, s);
        return None;
      }
      w, i := w + 1, i + 1;
    }
    ghost var m, c := 0, 0;  // anchor after the last star, current candidate
    var mp, cp := 0, 0;
    ghost var starred := false;
    while i < |s|
      invariant m <= w <= |p| && i <= |s| && i == c + (w - m)
      invariant StarFree(p, m, w) && Block(p, m, w, s, c)
      invariant if starred then 0 < m == mp < |p| && cp == c + 1 && Reduced(p, m, s, c)
                else m == 0 && c == 0 && (i < |s| ==> w < |p| && p[w] == '*')
      decreases !starred, |p| - m, |s| - c, |p| - w
    {
      if w < |p| && p[w] == '*' {
        if w + 1 == |p| {
          FinalStar(p, m, w, s, c, i);
          PlacedEnd(p, m, w, s, c, i);
          return Some(i);
        }
        if starred { NextStar(p, m, w, s, c, i); } else { FirstStar(p, w, s, i); }
        w := w + 1;
        mp, cp := w, i + 1;
        m, c, starred := w, i, true;
      } else if w < |p| && CharOk(p[w], s[i]) {
        w, i := w + 1, i + 1;
      } else {
        Mismatch(p, m, w, s, c, i);
        w, i := mp, cp;
        cp := cp + 1;
        c := c + 1;
      }
    }
    ghost var w0 := w;
    while w < |p| && p[w] == '*'
      invariant w0 <= w <= |p| && forall j | w0 <= j < w :: p[j] == '*'
    {
      w := w + 1;
    }
    StringUsedUp(p, m, w0, s, c, i);
    if w < |p| {
      return None;
    }
    PlacedEnd(p, m, w0, s, c, i);
    return Some(i);
  }
}
