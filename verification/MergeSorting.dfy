/**
 `MergeSort`: every recursive call shares one scratch list. The in-place methods are
 proved equal to the function `MergeSorted`, and that function is proved to be a
 sorted permutation, stable when the callback is the non-strict order.
 */
module MergeSorting {
  import opened Ordering
  import opened Sequences

  function Merge<T>(x: seq<T>, y: seq<T>, cmp: (T, T) -> bool): (r: seq<T>)
    ensures |r| == |x| + |y|
    decreases |x| + |y|
  {
    if x == [] then y
    else if y == [] then x
    else if cmp(x[0], y[0]) then [x[0]] + Merge(x[1..], y, cmp)
    else [y[0]] + Merge(x, y[1..], cmp)
  }

  function MergeSorted<T>(s: seq<T>, cmp: (T, T) -> bool): (r: seq<T>)
    ensures |r| == |s|
    decreases |s|
  {
    if |s| <= 1 then s
    else Merge(MergeSorted(s[..|s| / 2], cmp), MergeSorted(s[|s| / 2..], cmp), cmp)
  }

  lemma {:induction false} MergePermutes<T>(x: seq<T>, y: seq<T>, cmp: (T, T) -> bool)
    ensures multiset(Merge(x, y, cmp)) == multiset(x) + multiset(y)
    decreases |x| + |y|
  {
    if x == [] || y == [] {
    } else if cmp(x[0], y[0]) {
      assert x == [x[0]] + x[1..];
      MergePermutes(x[1..], y, cmp);
    } else {
      assert y == [y[0]] + y[1..];
      MergePermutes(x, y[1..], cmp);
    }
  }

  lemma {:induction false} MergeFrom<T>(x: seq<T>, y: seq<T>, cmp: (T, T) -> bool, k: nat)
    requires k < |x| + |y|
    ensures Merge(x, y, cmp)[k] in x || Merge(x, y, cmp)[k] in y
  {
    MergePermutes(x, y, cmp);
    assert Merge(x, y, cmp)[k] in multiset(Merge(x, y, cmp));
  }

  lemma {:induction false} MergeSorts<T(!new)>(x: seq<T>, y: seq<T>, cmp: (T, T) -> bool, le: (T, T) -> bool)
    requires TotalPreorder(le) && Decides(cmp, le) && Sorted(x, le) && Sorted(y, le)
    ensures Sorted(Merge(x, y, cmp), le)
    decreases |x| + |y|
  {
    if x == [] || y == [] {
    } else {
      var first := cmp(x[0], y[0]);
      var h := if first then x[0] else y[0];
      var x', y' := if first then x[1..] else x, if first then y else y[1..];
      MergeSorts(x', y', cmp, le);
      var rest := Merge(x', y', cmp);
      forall k | 0 <= k < |rest| ensures le(h, rest[k]) {
        MergeFrom(x', y', cmp, k);
        assert forall z | z in x :: le(x[0], z);
        assert forall z | z in y :: le(y[0], z);
      }
      assert Merge(x, y, cmp) == [h] + rest;
    }
  }

  /** Ties come out left part first, so each equivalence class keeps its order. */
  lemma {:induction false} MergeStable<T(!new)>(x: seq<T>, y: seq<T>, le: (T, T) -> bool, v: T)
    requires TotalPreorder(le) && Sorted(x, le) && Sorted(y, le)
    ensures Class(Merge(x, y, le), v, le) == Class(x, v, le) + Class(y, v, le)
    decreases |x| + |y|
  {
    if x == [] || y == [] {
    } else {
      if le(x[0], y[0]) {
        MergeStable(x[1..], y, le, v);
        HeadClass(x[0], Merge(x[1..], y, le), v, le);
        HeadClass(x[0], x[1..], v, le);
      } else {
        MergeStable(x, y[1..], le, v);
        HeadClass(y[0], Merge(x, y[1..], le), v, le);
        HeadClass(y[0], y[1..], v, le);
        RightFirst(x, y[0], y[1..], le, v);
      }
    }
  }

  lemma HeadClass<T>(h: T, rest: seq<T>, v: T, le: (T, T) -> bool)
    ensures Class([h] + rest, v, le) == Class([h], v, le) + Class(rest, v, le)
    ensures rest == ([h] + rest)[1..]
  {
    assert ([h] + rest)[1..] == rest && [h][1..] == [];
  }

  /** A right head that goes first has no equal on the left. */
  lemma RightFirst<T(!new)>(x: seq<T>, h: T, rest: seq<T>, le: (T, T) -> bool, v: T)
    requires TotalPreorder(le) && Sorted(x, le) && x != [] && !le(x[0], h)
    ensures Class([h], v, le) + (Class(x, v, le) + Class(rest, v, le)) ==
            Class(x, v, le) + (Class([h], v, le) + Class(rest, v, le))
  {
    if le(h, v) && le(v, h) {
      forall i | 0 <= i < |x| ensures !le(x[i], v) {
        assert i == 0 || le(x[0], x[i]);
      }
      ClassAbove(x, v, le);
    } else {
      assert [h][1..] == [] && Class([h], v, le) == [];
    }
  }

  lemma {:induction false} MergeSortedPermutes<T>(s: seq<T>, cmp: (T, T) -> bool)
    ensures multiset(MergeSorted(s, cmp)) == multiset(s)
    decreases |s|
  {
    if |s| > 1 {
      var x, y := s[..|s| / 2], s[|s| / 2..];
      MergeSortedPermutes(x, cmp);
      MergeSortedPermutes(y, cmp);
      MergePermutes(MergeSorted(x, cmp), MergeSorted(y, cmp), cmp);
      CutMultiset(s, |s| / 2);
    }
  }

  lemma {:induction false} MergeSortedSorts<T(!new)>(s: seq<T>, cmp: (T, T) -> bool, le: (T, T) -> bool)
    requires TotalPreorder(le) && Decides(cmp, le)
    ensures Sorted(MergeSorted(s, cmp), le)
    decreases |s|
  {
    if |s| > 1 {
      var x, y := s[..|s| / 2], s[|s| / 2..];
      MergeSortedSorts(x, cmp, le);
      MergeSortedSorts(y, cmp, le);
      MergeSorts(MergeSorted(x, cmp), MergeSorted(y, cmp), cmp, le);
    }
  }

  lemma {:induction false} MergeSortedStable<T(!new)>(s: seq<T>, le: (T, T) -> bool, v: T)
    requires TotalPreorder(le)
    ensures Class(MergeSorted(s, le), v, le) == Class(s, v, le)
    decreases |s|
  {
    if |s| > 1 {
      var x, y := s[..|s| / 2], s[|s| / 2..];
      MergeSortedStable(x, le, v);
      MergeSortedStable(y, le, v);
      SortedMerge(x, y, le, le, v);
      MergeCut(s, x, y, le);
      CutClass(s, x, y, v, le);
    }
  }

  /** The non-strict merge of two halves, sorted by any callback, keeps them in order. */
  lemma SortedMerge<T(!new)>(x: seq<T>, y: seq<T>, cmp: (T, T) -> bool, le: (T, T) -> bool, v: T)
    requires TotalPreorder(le) && Decides(cmp, le)
    ensures var x', y' := MergeSorted(x, cmp), MergeSorted(y, cmp);
      Class(Merge(x', y', le), v, le) == Class(x', v, le) + Class(y', v, le)
  {
    MergeSortedSorts(x, cmp, le);
    MergeSortedSorts(y, cmp, le);
    MergeStable(MergeSorted(x, cmp), MergeSorted(y, cmp), le, v);
  }

  lemma CutClass<T>(s: seq<T>, x: seq<T>, y: seq<T>, v: T, le: (T, T) -> bool)
    requires |s| > 1 && x == s[..|s| / 2] && y == s[|s| / 2..]
    ensures Class(s, v, le) == Class(x, v, le) + Class(y, v, le)
  {
    ClassConcat(x, y, v, le);
    assert s == x + y;
  }

  /** The strict comparison of an order. */
  ghost predicate Strict<T(!new)>(lt: (T, T) -> bool, le: (T, T) -> bool) {
    forall x, y :: lt(x, y) == !le(y, x)
  }

  /** With the strict comparison the right part goes first on ties. */
  lemma {:induction false} StrictMergeSwaps<T(!new)>(x: seq<T>, y: seq<T>, lt: (T, T) -> bool, le: (T, T) -> bool)
    requires Strict(lt, le)
    ensures Merge(x, y, lt) == Merge(y, x, le)
    decreases |x| + |y|
  {
    if x != [] && y != [] {
      StrictMergeSwaps(x[1..], y, lt, le);
      StrictMergeSwaps(x, y[1..], lt, le);
    } else {
      assert x + y == y + x;
    }
  }

  lemma {:induction false} ShortClass<T>(s: seq<T>, v: T, le: (T, T) -> bool)
    requires |s| <= 1
    ensures Reversed(Class(s, v, le)) == Class(s, v, le)
  {
    if s != [] {
      assert s[1..] == [] && Class(s[1..], v, le) == [];
      assert |Class(s, v, le)| <= 1;
    }
  }

  /** So it turns every class of equal elements round. */
  lemma {:induction false} StrictReverses<T(!new)>(s: seq<T>, lt: (T, T) -> bool, le: (T, T) -> bool, v: T)
    requires TotalPreorder(le) && Strict(lt, le)
    ensures Class(MergeSorted(s, lt), v, le) == Reversed(Class(s, v, le))
    decreases |s|
  {
    if |s| > 1 {
      var x, y := s[..|s| / 2], s[|s| / 2..];
      StrictReverses(x, lt, le, v);
      StrictReverses(y, lt, le, v);
      StrictMerge(s, x, y, lt, le, v);
      CutClass(s, x, y, v, le);
      ReversedConcat(Class(x, v, le), Class(y, v, le));
    } else {
      ShortClass(s, v, le);
    }
  }

  lemma StrictMerge<T(!new)>(s: seq<T>, x: seq<T>, y: seq<T>, lt: (T, T) -> bool, le: (T, T) -> bool, v: T)
    requires TotalPreorder(le) && Strict(lt, le) && |s| > 1 && x == s[..|s| / 2] && y == s[|s| / 2..]
    ensures Class(MergeSorted(s, lt), v, le) == Class(MergeSorted(y, lt), v, le) + Class(MergeSorted(x, lt), v, le)
  {
    StrictMergeSwaps(MergeSorted(x, lt), MergeSorted(y, lt), lt, le);
    SortedMerge(y, x, lt, le, v);
    MergeCut(s, x, y, lt);
  }

  /** Which lists a strict callback keeps in order: those whose classes of equal elements read
      the same backwards. */
  lemma StrictStableIff<T(!new)>(s: seq<T>, lt: (T, T) -> bool, le: (T, T) -> bool)
    requires TotalPreorder(le) && Strict(lt, le)
    ensures (forall v :: Class(MergeSorted(s, lt), v, le) == Class(s, v, le)) <==>
            (forall v :: Reversed(Class(s, v, le)) == Class(s, v, le))
  {
    forall v ensures Class(MergeSorted(s, lt), v, le) == Reversed(Class(s, v, le)) {
      StrictReverses(s, lt, le, v);
    }
  }

  /** With the strict order as callback ties swap: stability really needs the non-strict one. */
  lemma StrictIsNotStable()
    ensures var lt := (a: (int, int), b: (int, int)) => a.0 < b.0;
      var le := (a: (int, int), b: (int, int)) => a.0 <= b.0;
      && Decides(lt, le) && TotalPreorder(le)
      && MergeSorted([(1, 1), (1, 2)], lt) == [(1, 2), (1, 1)]
      && Class([(1, 2), (1, 1)], (1, 0), le) != Class([(1, 1), (1, 2)], (1, 0), le)
  {
    var lt := (a: (int, int), b: (int, int)) => a.0 < b.0;
    var s := [(1, 1), (1, 2)];
    assert s[..1] == [(1, 1)] && s[1..] == [(1, 2)];
    assert MergeSorted(s[..1], lt) == [(1, 1)] && MergeSorted(s[1..], lt) == [(1, 2)];
    var le := (a: (int, int), b: (int, int)) => a.0 <= b.0;
    assert Class(s, (1, 0), le)[0] == (1, 1);
    assert Class([(1, 2), (1, 1)], (1, 0), le)[0] == (1, 2);
  }

  /** What the first loop still produces after it has stored `acc`. */
  ghost function MergeOnto<T>(acc: seq<T>, x: seq<T>, y: seq<T>, cmp: (T, T) -> bool): seq<T>
    decreases |x| + |y|
  {
    if x == [] || y == [] then acc + (x + y)
    else if cmp(x[0], y[0]) then MergeOnto(acc + [x[0]], x[1..], y, cmp)
    else MergeOnto(acc + [y[0]], x, y[1..], cmp)
  }

  lemma {:induction false} MergeOntoIsMerge<T>(acc: seq<T>, x: seq<T>, y: seq<T>, cmp: (T, T) -> bool)
    ensures MergeOnto(acc, x, y, cmp) == acc + Merge(x, y, cmp)
    decreases |x| + |y|
  {
    if x == [] || y == [] {
      assert x + y == Merge(x, y, cmp);
    } else if cmp(x[0], y[0]) {
      MergeOntoIsMerge(acc + [x[0]], x[1..], y, cmp);
    } else {
      MergeOntoIsMerge(acc + [y[0]], x, y[1..], cmp);
    }
  }

  /** `Cpy(res, lst, r, a)`: stores the next element of the merge. */
  method Store<T>(lst: array<T>, res: array<T>, r: nat, a: nat)
    requires lst != res && r < res.Length && a < lst.Length
    modifies res
    ensures res[..r + 1] == old(res[..r]) + [lst[a]]
  {
    res[r] := lst[a];
  }

  /** The first loop of `MergeSortAux`: takes the smaller head until one run is used up. */
  method MergeHeads<T>(lst: array<T>, res: array<T>, begin: nat, middle: nat, end: nat, cmp: (T, T) -> bool)
    returns (a: nat, b: nat, r: nat)
    requires lst != res && begin <= middle <= end <= lst.Length && end - begin <= res.Length
    modifies res
    ensures begin <= a <= middle <= b <= end && r == a - begin + b - middle
    ensures a == middle || b == end
    ensures res[..r] + (lst[a..middle] + lst[b..end]) == Merge(lst[begin..middle], lst[middle..end], cmp)
  {
    a, b, r := begin, middle, 0;
    ghost var x, y := lst[a..middle], lst[b..end];  // what is left of each run
    ghost var goal := MergeOnto([], x, y, cmp);
    MergeOntoIsMerge([], x, y, cmp);
    assert res[..0] == [];
    while a < middle && b < end
      invariant begin <= a <= middle <= b <= end && r == a - begin + b - middle
      invariant x == lst[a..middle] && y == lst[b..end]
      invariant MergeOnto(res[..r], x, y, cmp) == goal
    {
      if cmp(lst[a], lst[b]) {
        Store(lst, res, r, a);
        r, a, x := r + 1, a + 1, x[1..];
      } else {
        Store(lst, res, r, b);
        r, b, y := r + 1, b + 1, y[1..];
      }
    }
  }

  /** One of the two loops that copy what is left of a run. */
  method Drain<T>(lst: array<T>, res: array<T>, r: nat, from: nat, stop: nat) returns (r': nat)
    requires lst != res && from <= stop <= lst.Length && r + (stop - from) <= res.Length
    modifies res
    ensures r' == r + (stop - from)
    ensures res[..r'] == old(res[..r]) + lst[from..stop]
  {
    var a := from;
    r' := r;
    while a < stop
      invariant from <= a <= stop && r' == r + (a - from)
      invariant forall k | 0 <= k < r :: res[k] == old(res[k])
      invariant forall k | r <= k < r' :: res[k] == lst[from + k - r]
    {
      res[r'] := lst[a];
      r', a := r' + 1, a + 1;
    }
  }

  /** Replaces `s[i..j]` by `t`. */
  ghost function Splice<T>(s: seq<T>, i: nat, j: nat, t: seq<T>): (r: seq<T>)
    requires i <= j <= |s| && |t| == j - i
    ensures |r| == |s|
  {
    s[..i] + t + s[j..]
  }

  /** Merges the sorted runs `lst[begin..middle]` and `lst[middle..end]` through the scratch list. */
  method MergeSortAux<T>(lst: array<T>, res: array<T>, begin: nat, middle: nat, end: nat, cmp: (T, T) -> bool)
    requires lst != res && begin <= middle <= end <= lst.Length && end - begin <= res.Length
    modifies lst, res
    ensures var s := old(lst[..]); lst[..] == Splice(s, begin, end, Merge(s[begin..middle], s[middle..end], cmp))
  {
    ghost var s := lst[..];
    assert s[begin..middle] == lst[begin..middle] && s[middle..end] == lst[middle..end];
    var a, b, r := MergeHeads(lst, res, begin, middle, end, cmp);
    r := Drain(lst, res, r, a, middle);
    r := Drain(lst, res, r, b, end);
    ghost var merged := res[..end - begin];
    assert merged == Merge(s[begin..middle], s[middle..end], cmp);
    CopyBack(lst, res, begin, end);
  }

  /** The last loop of `MergeSortAux`. */
  method CopyBack<T>(lst: array<T>, res: array<T>, begin: nat, end: nat)
    requires lst != res && begin <= end <= lst.Length && end - begin <= res.Length
    modifies lst
    ensures lst[..] == Splice(old(lst[..]), begin, end, res[..end - begin])
  {
    var a, r := begin, 0;
    while a < end
      invariant begin <= a <= end && r == a - begin
      invariant forall k | 0 <= k < lst.Length && !(begin <= k < a) :: lst[k] == old(lst[k])
      invariant forall k | begin <= k < a :: lst[k] == res[k - begin]
    {
      lst[a] := res[r];
      a, r := a + 1, r + 1;
    }
  }

  /** Sorting `s[i..j]`, then `s[j..k]`, then merging the two, only replaces `s[i..k]`. */
  lemma SpliceHalves<T>(s: seq<T>, i: nat, j: nat, k: nat, x: seq<T>, y: seq<T>, m: seq<T>)
    requires i <= j <= k <= |s| && |x| == j - i && |y| == k - j && |m| == k - i
    ensures Splice(s, i, j, x)[j..k] == s[j..k]
    ensures var t := Splice(Splice(s, i, j, x), j, k, y);
      t[i..j] == x && t[j..k] == y && Splice(t, i, k, m) == Splice(s, i, k, m)
  {
    var s1 := Splice(s, i, j, x);
    assert s1[..i] == s[..i] && s1[i..j] == x && s1[j..k] == s[j..k] && s1[k..] == s[k..];
    var t := Splice(s1, j, k, y);
    assert t[..i] == s1[..i] && t[i..j] == s1[i..j] && t[j..k] == y && t[k..] == s1[k..];
  }

  /** Sorting both halves and merging them sorts the range. */
  lemma RangeSorted<T>(s: seq<T>, s1: seq<T>, s2: seq<T>, s3: seq<T>, i: nat, j: nat, k: nat, cmp: (T, T) -> bool)
    requires i <= j <= k <= |s| && k - i > 1 && j == i + (k - i) / 2
    requires s1 == Splice(s, i, j, MergeSorted(s[i..j], cmp))
    requires s2 == Splice(s1, j, k, MergeSorted(s1[j..k], cmp))
    requires s3 == Splice(s2, i, k, Merge(s2[i..j], s2[j..k], cmp))
    ensures s3 == Splice(s, i, k, MergeSorted(s[i..k], cmp))
  {
    var x, y, m := MergeSorted(s[i..j], cmp), MergeSorted(s[j..k], cmp), MergeSorted(s[i..k], cmp);
    SpliceHalves(s, i, j, k, x, y, m);
    MergeHalves(s, i, j, k, cmp);
  }

  lemma MergeHalves<T>(s: seq<T>, i: nat, j: nat, k: nat, cmp: (T, T) -> bool)
    requires i <= j <= k <= |s| && k - i > 1 && j == i + (k - i) / 2
    ensures MergeSorted(s[i..k], cmp) == Merge(MergeSorted(s[i..j], cmp), MergeSorted(s[j..k], cmp), cmp)
  {
    MergeCut(s[i..k], s[i..j], s[j..k], cmp);
  }

  lemma MergeCut<T>(run: seq<T>, x: seq<T>, y: seq<T>, cmp: (T, T) -> bool)
    requires |run| > 1 && x == run[..|run| / 2] && y == run[|run| / 2..]
    ensures MergeSorted(run, cmp) == Merge(MergeSorted(x, cmp), MergeSorted(y, cmp), cmp)
  {
  }

  method MergeSortRange<T>(lst: array<T>, res: array<T>, begin: nat, end: nat, cmp: (T, T) -> bool)
    requires lst != res && begin <= end <= lst.Length <= res.Length
    modifies lst, res
    ensures var s := old(lst[..]); lst[..] == Splice(s, begin, end, MergeSorted(s[begin..end], cmp))
    decreases end - begin
  {
    ghost var s0 := lst[..];
    var s := end - begin;
    if s > 1 {
      var middle := begin + s / 2;
      MergeSortRange(lst, res, begin, middle, cmp);
      ghost var s1 := lst[..];
      MergeSortRange(lst, res, middle, end, cmp);
      ghost var s2 := lst[..];
      MergeSortAux(lst, res, begin, middle, end, cmp);
      RangeSorted(s0, s1, s2, lst[..], begin, middle, end, cmp);
    } else {
      assert Splice(s0, begin, end, s0[begin..end]) == s0;
    }
  }

  /** The public entry point: sorts the whole list with a scratch copy of it. */
  method MergeSort<T(!new)>(lst: array<T>, cmp: (T, T) -> bool, ghost le: (T, T) -> bool)
    requires TotalPreorder(le) && Decides(cmp, le)
    modifies lst
    ensures Sorted(lst[..], le) && multiset(lst[..]) == old(multiset(lst[..]))
    ensures (forall x, y :: cmp(x, y) == le(x, y)) ==>
              forall v :: Class(lst[..], v, le) == Class(old(lst[..]), v, le)
    ensures Strict(cmp, le) ==> forall v :: Class(lst[..], v, le) == Reversed(Class(old(lst[..]), v, le))
  {
    var res := new T[lst.Length](i requires 0 <= i < lst.Length reads lst => lst[i]);
    ghost var was := lst[..];
    MergeSortRange(lst, res, 0, lst.Length, cmp);
    assert was[0..lst.Length] == was && lst[..] == MergeSorted(was, cmp);
    MergeSortedSorts(was, cmp, le);
    MergeSortedPermutes(was, cmp);
    if forall x, y :: cmp(x, y) == le(x, y) {
      forall v ensures Class(lst[..], v, le) == Class(was, v, le) {
        SameComparison(was, cmp, le);
        MergeSortedStable(was, le, v);
      }
    }
    if Strict(cmp, le) {
      forall v ensures Class(lst[..], v, le) == Reversed(Class(was, v, le)) {
        StrictReverses(was, cmp, le, v);
      }
    }
  }

  lemma {:induction false} MergeSameComparison<T(!new)>(x: seq<T>, y: seq<T>, f: (T, T) -> bool, g: (T, T) -> bool)
    requires forall a, b :: f(a, b) == g(a, b)
    ensures Merge(x, y, f) == Merge(x, y, g)
    decreases |x| + |y|
  {
    if x != [] && y != [] {
      MergeSameComparison(x[1..], y, f, g);
      MergeSameComparison(x, y[1..], f, g);
    }
  }

  lemma {:induction false} SameComparison<T(!new)>(s: seq<T>, f: (T, T) -> bool, g: (T, T) -> bool)
    requires forall a, b :: f(a, b) == g(a, b)
    ensures MergeSorted(s, f) == MergeSorted(s, g)
    decreases |s|
  {
    if |s| > 1 {
      SameComparison(s[..|s| / 2], f, g);
      SameComparison(s[|s| / 2..], f, g);
      MergeSameComparison(MergeSorted(s[..|s| / 2], f), MergeSorted(s[|s| / 2..], f), f, g);
    }
  }
}
