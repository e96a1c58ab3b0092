/** Case-insensitive searching forwards and backwards (`findnex`, `rfindnex`); `npos` is `None`. */
module Search {
  import opened Options

  /** ASCII letters lose their case, everything else is left alone. */
  function Fold(c: char): char {
    if 'A' <= c <= 'Z' then (c as int + 32) as char else c
  }

  predicate SameChar(a: char, b: char) {
    Fold(a) == Fold(b)
  }

  /** The needle occurs in `s` at index `i`, ignoring ASCII case. */
  ghost predicate OccursAt(s: string, needle: string, i: nat) {
    i + |needle| <= |s| && forall j | 0 <= j < |needle| :: SameChar(s[i + j], needle[j])
  }

  /** Characters agree if they are equal or the two cases of one ASCII letter. */
  lemma SameCharMeans(a: char, b: char)
    ensures SameChar(a, b) <==> a == b || CasesOfOne(a, b) || CasesOfOne(b, a)
  {
  }

  predicate CasesOfOne(upper: char, lower: char) {
    'A' <= upper <= 'Z' && 'a' <= lower <= 'z' && upper as int - 'A' as int == lower as int - 'a' as int
  }

  /** An occurrence may stand anywhere, at either end too: between any two texts. */
  lemma OccursMeans(s: string, needle: string, i: nat)
    ensures OccursAt(s, needle, i) <==>
            exists a, m, b :: s == a + m + b && |a| == i && Alike(m, needle)
  {
    if OccursAt(s, needle, i) {
      var j := i + |needle|;
      assert s == s[..i] + s[i..j] + s[j..] && Alike(s[i..j], needle);
    }
    forall a, m, b | s == a + m + b && |a| == i && Alike(m, needle) ensures OccursAt(s, needle, i) {
      forall j | 0 <= j < |needle| ensures SameChar(s[i + j], needle[j]) { assert s[i + j] == m[j]; }
    }
  }

  predicate Alike(a: string, b: string) {
    |a| == |b| && forall j | 0 <= j < |a| :: SameChar(a[j], b[j])
  }

  /** Finds the first of the `size` characters from `from` on that equals `c`. */
  method MemChr(s: string, from: nat, c: char, size: nat) returns (r: Option<nat>)
    requires from + size <= |s|
    ensures r.Some? ==> from <= r.value < from + size && SameChar(s[r.value], c)
    ensures forall k | from <= k < (if r.Some? then r.value else from + size) :: !SameChar(s[k], c)
  {
    var i, left := from, size;
    while 0 < left
      invariant from <= i && i + left == from + size
      invariant forall k | from <= k < i :: !SameChar(s[k], c)
    {
      if SameChar(s[i], c) {
        return Some(i);
      }
      i, left := i + 1, left - 1;
    }
    return None;
  }

  /** Compares `size` characters; a difference is reported with the sign of the first differing pair. */
  method MemCmp(s: string, i: nat, t: string, size: nat) returns (r: int)
    requires i + size <= |s| && size <= |t|
    ensures r == 0 <==> forall j | 0 <= j < size :: SameChar(s[i + j], t[j])
    ensures r != 0 ==> exists j | 0 <= j < size ::
              && !SameChar(s[i + j], t[j]) && (forall k | 0 <= k < j :: SameChar(s[i + k], t[k]))
              && r == if s[i + j] < t[j] then -1 else 1
  {
    var j := 0;
    while j < size
      invariant j <= size
      invariant forall k | 0 <= k < j :: SameChar(s[i + k], t[k])
    {
      if !SameChar(s[i + j], t[j]) {
        return if s[i + j] < t[j] then -1 else 1;
      }
      j := j + 1;
    }
    return 0;
  }

  /** The least index at or after `off` where the needle occurs. */
  method FindStr(s: string, needle: string, off: nat) returns (r: Option<nat>)
    ensures r.Some? ==> off <= r.value && OccursAt(s, needle, r.value)
    ensures forall k: nat | off <= k && (r.Some? ==> k < r.value) :: !OccursAt(s, needle, k)
  {
    var size, count := |s|, |needle|;
    if count == 0 && off <= size {
      return Some(off);
    }
    if off < size && count <= size - off {
      var togo: nat := size - off - (count - 1);
      var next: nat := off;
      var test := MemChr(s, next, needle[0], togo);
      while test.Some?
        invariant off <= next && next + togo == size - (count - 1)
        invariant forall k: nat | off <= k < next :: !OccursAt(s, needle, k)
        invariant test.Some? ==> next <= test.value < next + togo
        invariant forall k | next <= k < (if test.Some? then test.value else next + togo) ::
                    !SameChar(s[k], needle[0])
        decreases togo
      {
        var at := test.value;
        var order := MemCmp(s, at, needle, count);
        Skip(s, needle, next, at);
        if order == 0 {
          return Some(at);
        }
        togo := togo - (at - next + 1);
        next := at + 1;
        test := MemChr(s, next, needle[0], togo);
      }
      Skip(s, needle, next, next + togo);
    }
    return None;
  }

  /** The needle occurs nowhere in a stretch that never has its first character. */
  lemma Skip(s: string, needle: string, lo: nat, hi: nat)
    requires needle != "" && lo <= hi <= |s|
    requires forall k | lo <= k < hi :: !SameChar(s[k], needle[0])
    ensures forall k: nat | lo <= k < hi :: !OccursAt(s, needle, k)
  {
    forall k: nat | lo <= k < hi ensures !OccursAt(s, needle, k) {
      assert !SameChar(s[k + 0], needle[0]);
    }
  }

  /** The greatest index at or before `off` where the needle occurs. */
  method RFindStr(s: string, needle: string, off: nat) returns (r: Option<nat>)
    ensures r.Some? ==> r.value <= off && OccursAt(s, needle, r.value)
    ensures forall k: nat | k <= off && (r.Some? ==> r.value < k) :: !OccursAt(s, needle, k)
  {
    var size, count := |s|, |needle|;
    if count == 0 {
      return Some(if off < size then off else size);
    }
    if count <= size {
      var test: nat := if off < size - count then off else size - count;
      while true
        invariant test <= off && test + count <= size
        invariant forall k: nat | test < k <= off :: !OccursAt(s, needle, k)
        decreases test
      {
        if SameChar(s[test], needle[0]) {
          var order := MemCmp(s, test, needle, count);
          if order == 0 {
            return Some(test);
          }
        } else {
          assert !SameChar(s[test + 0], needle[0]);
        }
        if test == 0 {
          break;
        }
        test := test - 1;
      }
    }
    return None;
  }
}
