/** What the sorting templates ask of their comparison callbacks. */
module Ordering {
  ghost predicate TotalPreorder<T(!new)>(le: (T, T) -> bool) {
    && (forall x, y :: le(x, y) || le(y, x))
    && (forall x, y, z :: le(x, y) && le(y, z) ==> le(x, z))
  }

  /** A callback decides an order if its answer is always a correct one; ties may go either
      way, so both the strict and the non-strict comparison decide the same order. */
  ghost predicate Decides<T(!new)>(cmp: (T, T) -> bool, le: (T, T) -> bool) {
    forall x, y :: if cmp(x, y) then le(x, y) else le(y, x)
  }

  ghost predicate Sorted<T>(s: seq<T>, le: (T, T) -> bool) {
    forall i, j | 0 <= i < j < |s| :: le(s[i], s[j])
  }

  /** The elements of `s` equivalent to `v`, in their order of appearance. */
  ghost function Class<T>(s: seq<T>, v: T, le: (T, T) -> bool): seq<T> {
    if s == [] then []
    else (if le(s[0], v) && le(v, s[0]) then [s[0]] else []) + Class(s[1..], v, le)
  }

  lemma {:induction false} ClassConcat<T>(s: seq<T>, t: seq<T>, v: T, le: (T, T) -> bool)
    ensures Class(s + t, v, le) == Class(s, v, le) + Class(t, v, le)
  {
    if s == [] {
      assert s + t == t;
    } else {
      assert (s + t)[1..] == s[1..] + t;
      ClassConcat(s[1..], t, v, le);
    }
  }

  /** No element of `s` is equivalent to `v` when all are strictly above it. */
  lemma {:induction false} ClassAbove<T>(s: seq<T>, v: T, le: (T, T) -> bool)
    requires forall i | 0 <= i < |s| :: !le(s[i], v)
    ensures Class(s, v, le) == []
  {
    if s != [] {
      ClassAbove(s[1..], v, le);
    }
  }

  /** Cutting a sequence in two splits its multiset. */
  lemma CutMultiset<T>(s: seq<T>, k: nat)
    requires k <= |s|
    ensures multiset(s[..k]) + multiset(s[k..]) == multiset(s)
  {
    assert s == s[..k] + s[k..];
  }
}
