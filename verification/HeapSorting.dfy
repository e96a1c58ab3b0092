/** `HeapSort`: an in-place heap sort driven by an exchange and a comparison callback. */
module HeapSorting {
  import opened Ordering

  /** `c` is a child of node `i` in the implicit binary tree. */
  predicate Child(i: int, c: int) {
    c == 2 * i + 1 || c == 2 * i + 2
  }

  /** Every node in [lo, hi] other than `hole` dominates its children in [lo, hi]. */
  ghost predicate HeapBut<T>(s: seq<T>, lo: int, hi: int, hole: int, le: (T, T) -> bool)
    requires 0 <= lo && hi < |s|
  {
    forall i, c | lo <= i && i != hole && Child(i, c) && c <= hi :: le(s[c], s[i])
  }

  ghost predicate Heap<T>(s: seq<T>, lo: int, hi: int, le: (T, T) -> bool)
    requires 0 <= lo && hi < |s|
  {
    HeapBut(s, lo, hi, -1, le)
  }

  /** The parent of the hole dominates the hole's children. */
  ghost predicate Bridged<T>(s: seq<T>, lo: int, hi: int, hole: int, le: (T, T) -> bool)
    requires 0 <= lo && hi < |s|
  {
    forall p, c | lo <= p && Child(p, hole) && Child(hole, c) && c <= hi :: le(s[c], s[p])
  }

  /** The root of a heap is a largest element. */
  lemma {:induction false} RootIsLargest<T(!new)>(s: seq<T>, hi: int, le: (T, T) -> bool, k: int)
    requires TotalPreorder(le) && 0 <= k <= hi < |s| && Heap(s, 0, hi, le)
    ensures le(s[k], s[0])
    decreases k
  {
    if k > 0 {
      var p := (k - 1) / 2;
      assert Child(p, k);
      RootIsLargest(s, hi, le, p);
    }
  }

  /** Exchanging a hole with its larger child moves the hole one level down. */
  lemma SiftStep<T(!new)>(s: seq<T>, t: seq<T>, lo: int, hi: int, r: int, r2: int, le: (T, T) -> bool)
    requires TotalPreorder(le) && 0 <= lo <= r && Child(r, r2) && r2 <= hi < |s|
    requires HeapBut(s, lo, hi, r, le) && Bridged(s, lo, hi, r, le)
    requires forall c | Child(r, c) && c <= hi :: le(s[c], s[r2])
    requires le(s[r], s[r2])
    requires t == s[r := s[r2]][r2 := s[r]]
    ensures HeapBut(t, lo, hi, r2, le) && Bridged(t, lo, hi, r2, le)
  {
    forall i, c | lo <= i && i != r2 && Child(i, c) && c <= hi ensures le(t[c], t[i]) {
      if i != r && c == r { assert Child(i, r) && Child(r, r2); }
    }
    forall p, c | lo <= p && Child(p, r2) && Child(r2, c) && c <= hi ensures le(t[c], t[p]) {
      assert p == r;
    }
  }

  lemma NoHoleLeft<T(!new)>(s: seq<T>, lo: int, hi: int, r: int, le: (T, T) -> bool)
    requires 0 <= lo <= r && hi < |s| && HeapBut(s, lo, hi, r, le)
    requires forall c | Child(r, c) && c <= hi :: le(s[c], s[r])
    ensures Heap(s, lo, hi, le)
  {
  }

  lemma LargerChild<T(!new)>(s: seq<T>, hi: int, r: int, r2: int, cmp: (T, T) -> bool, le: (T, T) -> bool)
    requires TotalPreorder(le) && Decides(cmp, le) && 0 <= r && 2 * r < hi < |s|
    requires r2 == if 2 * r + 1 != hi && cmp(s[2 * r + 1], s[2 * r + 2]) then 2 * r + 2 else 2 * r + 1
    ensures forall c | Child(r, c) && c <= hi :: le(s[c], s[r2])
    ensures if cmp(s[r], s[r2]) then le(s[r], s[r2]) else forall c | Child(r, c) && c <= hi :: le(s[c], s[r])
  {
    assert le(s[r2], s[r2]);
  }

  /** The hole at `r` is the only place where the heap on [lo, hi] may be broken. */
  ghost predicate HeapWithHole<T>(s: seq<T>, lo: int, hi: int, r: int, le: (T, T) -> bool)
    requires 0 <= lo && hi < |s|
  {
    HeapBut(s, lo, hi, r, le) && Bridged(s, lo, hi, r, le)
  }

  /** The child that the sift compares with node `r`: the second one if it exists and is larger. */
  function PickChild<T>(s: seq<T>, last: int, r: int, cmp: (T, T) -> bool): (r2: int)
    requires 0 <= r && 2 * r < last < |s|
    ensures r < r2 <= last && Child(r, r2)
  {
    if 2 * r + 1 != last && cmp(s[2 * r + 1], s[2 * r + 2]) then 2 * r + 2 else 2 * r + 1
  }

  function Swapped<T>(s: seq<T>, i: int, j: int): seq<T>
    requires 0 <= i < |s| && 0 <= j < |s|
  {
    s[i := s[j]][j := s[i]]
  }

  method Exchange<T>(a: array<T>, i: nat, j: nat)
    requires i < a.Length && j < a.Length
    modifies a
    ensures a[..] == Swapped(old(a[..]), j, i)
    ensures multiset(a[..]) == old(multiset(a[..]))
  {
    a[i], a[j] := a[j], a[i];
  }

  /** One sift step either finds the hole filled or moves it to the picked child. */
  lemma SiftCases<T(!new)>(s: seq<T>, lo: int, hi: int, r: int, cmp: (T, T) -> bool, le: (T, T) -> bool)
    requires TotalPreorder(le) && Decides(cmp, le)
    requires 0 <= lo <= r && 2 * r < hi < |s| && HeapWithHole(s, lo, hi, r, le)
    ensures var r2 := PickChild(s, hi, r, cmp);
      if cmp(s[r], s[r2]) then HeapWithHole(Swapped(s, r, r2), lo, hi, r2, le) else Heap(s, lo, hi, le)
  {
    var r2 := PickChild(s, hi, r, cmp);
    LargerChild(s, hi, r, r2, cmp, le);
    if cmp(s[r], s[r2]) {
      SiftStep(s, Swapped(s, r, r2), lo, hi, r, r2, le);
    } else {
      NoHoleLeft(s, lo, hi, r, le);
    }
  }

  /** The loop body of `HeapSortAux`. */
  method SiftDown<T>(a: array<T>, last: int, r: int, cmp: (T, T) -> bool) returns (r2: int, placed: bool)
    requires 0 <= r && 2 * r < last < a.Length
    modifies a
    ensures r2 == PickChild(old(a[..]), last, r, cmp)
    ensures placed == !cmp(old(a[r]), old(a[r2]))
    ensures a[..] == if placed then old(a[..]) else Swapped(old(a[..]), r, r2)
    ensures multiset(a[..]) == old(multiset(a[..]))
  {
    r2 := 2 * r + 1;
    if r2 != last {
      if cmp(a[r2], a[r2 + 1]) {
        r2 := r2 + 1;
      }
    }
    placed := !cmp(a[r], a[r2]);
    if !placed {
      Exchange(a, r2, r);
    }
  }

  lemma NothingAbove<T>(s: seq<T>, lo: int, hi: int, le: (T, T) -> bool)
    requires 0 <= lo && hi < |s| && HeapBut(s, lo, hi, lo, le)
    ensures HeapWithHole(s, lo, hi, lo, le)
  {
  }

  lemma Childless<T(!new)>(s: seq<T>, lo: int, hi: int, r: int, le: (T, T) -> bool)
    requires 0 <= lo <= r && hi < |s| && HeapWithHole(s, lo, hi, r, le) && 2 * r >= hi
    ensures Heap(s, lo, hi, le)
  {
    NoHoleLeft(s, lo, hi, r, le);
  }

  /** Sifts `a[first]` down: restores the heap on [first, last] given that it held below `first`. */
  method HeapSortAux<T(!new)>(a: array<T>, first: int, last: int, cmp: (T, T) -> bool, ghost le: (T, T) -> bool)
    requires TotalPreorder(le) && Decides(cmp, le)
    requires 0 <= first && -1 <= last < a.Length < 0x8000_0000
    requires HeapBut(a[..], first, last, first, le)
    modifies a
    ensures Heap(a[..], first, last, le)
    ensures multiset(a[..]) == old(multiset(a[..]))
    ensures forall k | 0 <= k < a.Length && !(first <= k <= last) :: a[k] == old(a[k])
  {
    var r := first;
    NothingAbove(a[..], first, last, le);
    while r < 0x8000_0000 && 2 * r < last
      invariant first <= r && (r <= last || r == first)
      invariant HeapWithHole(a[..], first, last, r, le)
      invariant multiset(a[..]) == old(multiset(a[..]))
      invariant forall k | 0 <= k < a.Length && !(first <= k <= last) :: a[k] == old(a[k])
      decreases last - r
    {
      SiftCases(a[..], first, last, r, cmp, le);
      var r2, placed := SiftDown(a, last, r, cmp);
      if placed {
        return;
      }
      r := r2;
    }
    Childless(a[..], first, last, r, le);
  }

  /** `a[r..]` is the sorted tail and nothing before it is larger. */
  ghost predicate TailDone<T>(s: seq<T>, r: int, le: (T, T) -> bool)
    requires 0 <= r <= |s|
  {
    && Sorted(s[r..], le)
    && forall i, j | 0 <= i < r <= j < |s| :: le(s[i], s[j])
  }

  /** Reordering the part before the tail keeps the tail done. */
  lemma ReorderHead<T>(s: seq<T>, t: seq<T>, r: int, le: (T, T) -> bool)
    requires 0 <= r <= |s| == |t| && s[r..] == t[r..] && multiset(s) == multiset(t)
    requires TailDone(s, r, le)
    ensures TailDone(t, r, le)
  {
    CutMultiset(s, r);
    CutMultiset(t, r);
    assert multiset(s[..r]) == multiset(s) - multiset(s[r..]);
    assert multiset(t[..r]) == multiset(t) - multiset(t[r..]);
    forall i, j | 0 <= i < r <= j < |t| ensures le(t[i], t[j]) {
      assert t[i] == t[..r][i] && t[..r][i] in multiset(s[..r]);
      var k :| 0 <= k < r && s[..r][k] == t[i];
      assert t[j] == t[r..][j - r] == s[r..][j - r] == s[j];
    }
  }

  lemma MoveRoot<T(!new)>(s: seq<T>, t: seq<T>, r: int, le: (T, T) -> bool)
    requires TotalPreorder(le) && 0 < r < |s| && Heap(s, 0, r, le) && TailDone(s, r + 1, le)
    requires t == Swapped(s, 0, r)
    ensures HeapBut(t, 0, r - 1, 0, le) && TailDone(t, r, le)
  {
    forall i | 0 <= i <= r ensures le(s[i], s[0]) {
      RootIsLargest(s, r, le, i);
    }
    assert t[r..] == [s[0]] + s[r + 1..];
  }

  lemma SortedAll<T(!new)>(s: seq<T>, le: (T, T) -> bool)
    requires |s| > 0 && TailDone(s, 1, le)
    ensures Sorted(s, le)
  {
    forall i, j | 0 <= i < j < |s| ensures le(s[i], s[j]) {
      if i > 0 { assert le(s[1..][i - 1], s[1..][j - 1]); }
    }
  }

  method HeapSort<T(!new)>(a: array<T>, cmp: (T, T) -> bool, ghost le: (T, T) -> bool)
    requires TotalPreorder(le) && Decides(cmp, le)
    requires a.Length < 0x8000_0000  // the size is kept in an int
    modifies a
    ensures Sorted(a[..], le) && multiset(a[..]) == old(multiset(a[..]))
  {
    var n := a.Length;
    if n > 0 {
      var r := n / 2;
      while r > 0
        invariant 0 <= r <= n / 2
        invariant Heap(a[..], r, n - 1, le)
        invariant multiset(a[..]) == old(multiset(a[..]))
      {
        r := r - 1;
        HeapSortAux(a, r, n - 1, cmp, le);
      }
      r := n - 1;
      while r > 0
        invariant 0 <= r < n
        invariant Heap(a[..], 0, r, le) && TailDone(a[..], r + 1, le)
        invariant multiset(a[..]) == old(multiset(a[..]))
      {
        ghost var s := a[..];
        Exchange(a, r, 0);
        ghost var t := a[..];
        MoveRoot(s, t, r, le);
        HeapSortAux(a, 0, r - 1, cmp, le);
        ReorderHead(t, a[..], r, le);
        r := r - 1;
      }
      SortedAll(a[..], le);
    }
  }
}
