/** Stable sorting, as `Array.prototype.sort` with a comparator does it: `le(a, b)`
    says that the comparator puts `a` no later than `b` (`compare(a, b) <= 0`).
    `InsertionSort` is the specification; `SortInPlace` sorts an array in place and
    is proved to produce exactly `InsertionSort` of the old contents. */
module Sorting {
  import opened Collections

  /** A comparator that is consistent: total and transitive. */
  ghost predicate TotalPreorder<T(!new)>(le: (T, T) -> bool) {
    && (forall x, y :: le(x, y) || le(y, x))
    && (forall x, y, z :: le(x, y) && le(y, z) ==> le(x, z))
  }

  ghost predicate SortedBy<T>(s: seq<T>, le: (T, T) -> bool) {
    forall i, j :: 0 <= i < j < |s| ==> le(s[i], s[j])
  }

  /** Places `x` after the last element of `t` that may precede it. */
  function Insert<T>(t: seq<T>, x: T, le: (T, T) -> bool): (r: seq<T>)
    ensures |r| == |t| + 1
    ensures multiset(r) == multiset(t) + multiset{x}
  {
    if t == [] then [x]
    else if le(t[|t| - 1], x) then t + [x]
    else
      assert t == t[..|t| - 1] + [t[|t| - 1]];
      Insert(t[..|t| - 1], x, le) + [t[|t| - 1]]
  }

  /** Stable insertion sort: the specification of every sort in the library. */
  function InsertionSort<T>(s: seq<T>, le: (T, T) -> bool): (r: seq<T>)
    ensures |r| == |s|
    ensures multiset(r) == multiset(s)
  {
    if s == [] then []
    else
      assert s == s[..|s| - 1] + [s[|s| - 1]];
      Insert(InsertionSort(s[..|s| - 1], le), s[|s| - 1], le)
  }

  lemma {:induction false} InsertSorted<T(!new)>(t: seq<T>, x: T, le: (T, T) -> bool)
    requires TotalPreorder(le)
    requires SortedBy(t, le)
    ensures SortedBy(Insert(t, x, le), le)
  {
    if t != [] && !le(t[|t| - 1], x) {
      var t' := t[..|t| - 1];
      assert SortedBy(t', le);
      InsertSorted(t', x, le);
      var r' := Insert(t', x, le);
      assert multiset(r') == multiset(t') + multiset{x};
      forall i | 0 <= i < |r'| ensures le(r'[i], t[|t| - 1]) {
        assert r'[i] in multiset(r');
        if r'[i] == x {
        } else {
          assert r'[i] in multiset(t');
          var k :| 0 <= k < |t'| && t'[k] == r'[i];
        }
      }
    }
  }

  /** The result of `InsertionSort` is ordered by `le` when `le` is a total preorder. */
  lemma {:induction false} InsertionSortSorted<T(!new)>(s: seq<T>, le: (T, T) -> bool)
    requires TotalPreorder(le)
    ensures SortedBy(InsertionSort(s, le), le)
  {
    if s != [] {
      InsertionSortSorted(s[..|s| - 1], le);
      InsertSorted(InsertionSort(s[..|s| - 1], le), s[|s| - 1], le);
    }
  }

  /** `x` and `k` compare equal. */
  predicate Tied<T>(le: (T, T) -> bool, x: T, k: T) {
    le(x, k) && le(k, x)
  }

  lemma {:induction false} InsertStable<T(!new)>(t: seq<T>, x: T, k: T, le: (T, T) -> bool)
    requires TotalPreorder(le)
    ensures Filter(Insert(t, x, le), y => Tied(le, y, k))
         == Filter(t, y => Tied(le, y, k)) + Filter([x], y => Tied(le, y, k))
  {
    var tie := y => Tied(le, y, k);
    if t == [] {
    } else if le(t[|t| - 1], x) {
      FilterConcat(t, [x], tie);
    } else {
      var t', last := t[..|t| - 1], t[|t| - 1];
      assert t == t' + [last];
      InsertStable(t', x, k, le);
      FilterConcat(Insert(t', x, le), [last], tie);
      FilterConcat(t', [last], tie);
      assert !(tie(x) && tie(last));
    }
  }

  /** Stability: elements that compare equal keep the order they had in the input. */
  lemma {:induction false} InsertionSortStable<T(!new)>(s: seq<T>, k: T, le: (T, T) -> bool)
    requires TotalPreorder(le)
    ensures Filter(InsertionSort(s, le), y => Tied(le, y, k)) == Filter(s, y => Tied(le, y, k))
  {
    if s != [] {
      var s', x := s[..|s| - 1], s[|s| - 1];
      assert s == s' + [x];
      InsertionSortStable(s', k, le);
      InsertStable(InsertionSort(s', le), x, k, le);
      FilterConcat(s', [x], y => Tied(le, y, k));
    }
  }

  /** Inserting after a prefix of a sorted run: one step of the shifting loop. */
  lemma InsertShift<T>(t: seq<T>, j: nat, x: T, le: (T, T) -> bool)
    requires 0 < j <= |t|
    requires !le(t[j - 1], x)
    ensures Insert(t[..j], x, le) + t[j..] == Insert(t[..j - 1], x, le) + t[j - 1..]
  {
    assert t[..j][..j - 1] == t[..j - 1];
    assert t[j - 1..] == [t[j - 1]] + t[j..];
  }

  /** Insertion sort in place; the array ends up holding `InsertionSort` of its old contents. */
  method SortInPlace<T>(a: array<T>, le: (T, T) -> bool)
    modifies a
    ensures a[..] == InsertionSort(old(a[..]), le)
  {
    ghost var orig := a[..];
    var i := 0;
    while i < a.Length
      invariant 0 <= i <= a.Length
      invariant a[..i] == InsertionSort(orig[..i], le)
      invariant a[i..] == orig[i..]
    {
      ghost var before := a[..];
      InsertAt(a, i, le);
      SortStep(orig, before, a[..], i, le);
      i := i + 1;
    }
    assert a[..] == a[..a.Length] && orig == orig[..a.Length];
  }

  /** One round of the outer loop: inserting the next element extends the sorted prefix. */
  lemma SortStep<T>(orig: seq<T>, before: seq<T>, after: seq<T>, i: nat, le: (T, T) -> bool)
    requires i < |orig| == |before| == |after|
    requires before[..i] == InsertionSort(orig[..i], le) && before[i..] == orig[i..]
    requires after[..i + 1] == Insert(before[..i], before[i], le)
    requires after[i + 1..] == before[i + 1..]
    ensures after[..i + 1] == InsertionSort(orig[..i + 1], le)
    ensures after[i + 1..] == orig[i + 1..]
  {
    var p := orig[..i + 1];
    assert p[..|p| - 1] == orig[..i] && p[|p| - 1] == orig[i];
    assert InsertionSort(p, le) == Insert(InsertionSort(orig[..i], le), orig[i], le);
    assert before[i] == orig[i] by { assert before[i] == before[i..][0]; }
    SliceTail(before, i);
    SliceTail(orig, i);
  }

  lemma SliceTail<T>(s: seq<T>, i: nat)
    requires i < |s|
    ensures s[i + 1..] == s[i..][1..]
  {
  }

  /** Moves `a[i]` left past the elements of the sorted prefix `a[..i]` that must
      follow it, as the inner loop of insertion sort does. */
  method InsertAt<T>(a: array<T>, i: nat, le: (T, T) -> bool)
    requires i < a.Length
    modifies a
    ensures a[..i + 1] == Insert(old(a[..i]), old(a[i]), le)
    ensures a[i + 1..] == old(a[i + 1..])
  {
    var x := a[i];
    ghost var t := a[..i];
    ghost var rest := a[i + 1..];
    var j := i;
    assert t[..j] == t && t[j..] == [];
    while j > 0 && !le(a[j - 1], x)
      invariant 0 <= j <= i
      invariant Shifting(a[..], t, j, i, rest)
      invariant Insert(t, x, le) == Insert(t[..j], x, le) + t[j..]
    {
      InsertShift(t, j, x, le);
      ShiftStep(a[..], t, j, i, rest);
      a[j] := a[j - 1];
      j := j - 1;
    }
    assert j == 0 || le(t[..j][j - 1], x);
    assert Insert(t[..j], x, le) == t[..j] + [x];
    ghost var before := a[..];
    a[j] := x;
    assert a[..] == before[j := x];
    Spliced(a[..i + 1], t, j, x);
  }

  /** The state of the shifting loop: `b` agrees with the sorted prefix `t` before
      `j`, holds `t` moved one place right after `j`, and the rest unchanged. */
  ghost predicate Shifting<T>(b: seq<T>, t: seq<T>, j: nat, i: nat, rest: seq<T>) {
    && |b| == i + 1 + |rest| && |t| == i && j <= i
    && (forall k :: 0 <= k < j ==> b[k] == t[k])
    && (forall k :: j < k <= i ==> b[k] == t[k - 1])
    && b[i + 1..] == rest
  }

  lemma ShiftStep<T>(b: seq<T>, t: seq<T>, j: nat, i: nat, rest: seq<T>)
    requires Shifting(b, t, j, i, rest) && j > 0
    ensures Shifting(b[j := b[j - 1]], t, j - 1, i, rest)
  {
    assert b[j := b[j - 1]][i + 1..] == b[i + 1..];
  }

  /** A sequence that agrees with `t` before `j`, holds `x` at `j` and `t` shifted by
      one after it is `t` with `x` inserted at `j`. */
  lemma Spliced<T>(r: seq<T>, t: seq<T>, j: nat, x: T)
    requires |r| == |t| + 1 && j <= |t|
    requires forall k :: 0 <= k < j ==> r[k] == t[k]
    requires r[j] == x
    requires forall k :: j < k < |r| ==> r[k] == t[k - 1]
    ensures r == t[..j] + [x] + t[j..]
  {
  }

  /** Copies `s` into a fresh array and sorts it there (`Array.from(s).sort(...)`). */
  method SortedCopy<T>(s: seq<T>, le: (T, T) -> bool) returns (r: seq<T>)
    ensures r == InsertionSort(s, le)
  {
    var a := new T[|s|](k requires 0 <= k < |s| => s[k]);
    assert a[..] == s;
    SortInPlace(a, le);
    r := a[..];
  }
}
