/** Sequence helpers shared by the library model: an Option type, order-preserving
    filtering, first-occurrence de-duplication, occurrence counting and the
    `Array.prototype.slice(0, limit)` cut used by the analytics. */
module Collections {

  datatype Option<+T> = None | Some(value: T) {
    /** The value, or `default` when there is none (`x ?? default`). */
    function GetOr(default: T): T {
      match this
      case Some(v) => v
      case None => default
    }
  }

  /** `Array.prototype.filter`: the elements satisfying `p`, in their original order. */
  function Filter<T(!new)>(s: seq<T>, p: T -> bool): (r: seq<T>)
    ensures |r| <= |s|
    ensures forall i :: 0 <= i < |r| ==> p(r[i])
    ensures forall x :: x in r <==> x in s && p(x)
  {
    if s == [] then []
    else if p(s[0]) then [s[0]] + Filter(s[1..], p)
    else Filter(s[1..], p)
  }

  /** Filtering distributes over concatenation, so the kept elements keep their order. */
  lemma {:induction false} FilterConcat<T(!new)>(a: seq<T>, b: seq<T>, p: T -> bool)
    ensures Filter(a + b, p) == Filter(a, p) + Filter(b, p)
  {
    if a == [] {
      assert a + b == b;
    } else {
      assert (a + b)[1..] == a[1..] + b;
      FilterConcat(a[1..], b, p);
    }
  }

  /** `r` is `s` with some elements left out: the elements of `r` occur in `s` in
      the same order. */
  predicate IsSubsequence<T(==)>(r: seq<T>, s: seq<T>)
    decreases |s|
  {
    || r == []
    || (s != [] && ((r[0] == s[0] && IsSubsequence(r[1..], s[1..])) || IsSubsequence(r, s[1..])))
  }

  /** The filter only leaves elements out: what it keeps is in input order. */
  lemma {:induction false} FilterSubsequence<T(!new)>(s: seq<T>, p: T -> bool)
    ensures IsSubsequence(Filter(s, p), s)
  {
    if s != [] {
      FilterSubsequence(s[1..], p);
      if p(s[0]) {
        assert Filter(s, p)[1..] == Filter(s[1..], p);
      }
    }
  }

  /** Each value occurs in the filtered sequence exactly as often as in the input when
      it satisfies `p`, and not at all otherwise: nothing is added, lost or duplicated. */
  lemma {:induction false} FilterMultiset<T(!new)>(s: seq<T>, p: T -> bool)
    ensures forall x :: multiset(Filter(s, p))[x] == if p(x) then multiset(s)[x] else 0
  {
    if s != [] {
      FilterMultiset(s[1..], p);
      assert s == [s[0]] + s[1..];
      assert multiset(s) == multiset{s[0]} + multiset(s[1..]);
    }
  }

  /** The filter drops nothing exactly when every element satisfies `p`. */
  lemma FilterKeepsAll<T(!new)>(s: seq<T>, p: T -> bool)
    ensures |Filter(s, p)| == |s| <==> forall i :: 0 <= i < |s| ==> p(s[i])
    ensures (forall i :: 0 <= i < |s| ==> p(s[i])) ==> Filter(s, p) == s
  {
    if forall i :: 0 <= i < |s| ==> p(s[i]) {
      FilterAllKept(s, p);
    } else {
      var k :| 0 <= k < |s| && !p(s[k]);
      FilterDrops(s, p, k);
    }
  }

  lemma {:induction false} FilterAllKept<T(!new)>(s: seq<T>, p: T -> bool)
    requires forall i :: 0 <= i < |s| ==> p(s[i])
    ensures Filter(s, p) == s
  {
    if s != [] {
      var t := s[1..];
      assert forall i :: 0 <= i < |t| ==> p(t[i]) by {
        forall i | 0 <= i < |t| ensures p(t[i]) {
          assert t[i] == s[i + 1];
        }
      }
      FilterAllKept(t, p);
      assert s == [s[0]] + t;
    }
  }

  lemma {:induction false} FilterDrops<T(!new)>(s: seq<T>, p: T -> bool, k: nat)
    requires k < |s| && !p(s[k])
    ensures |Filter(s, p)| < |s|
  {
    if k > 0 {
      assert s[1..][k - 1] == s[k];
      FilterDrops(s[1..], p, k - 1);
    }
  }

  /** Nothing passes a filter that no element satisfies. */
  lemma {:induction false} FilterNone<T(!new)>(s: seq<T>, p: T -> bool)
    requires forall i :: 0 <= i < |s| ==> !p(s[i])
    ensures Filter(s, p) == []
  {
    if s != [] {
      assert forall i :: 0 <= i < |s[1..]| ==> s[1..][i] == s[i + 1];
      FilterNone(s[1..], p);
    }
  }

  /** Two successive filters are one filter by the conjunction. */
  lemma {:induction false} FilterFilter<T(!new)>(s: seq<T>, p: T -> bool, q: T -> bool)
    ensures Filter(Filter(s, p), q) == Filter(s, x => p(x) && q(x))
  {
    if s != [] {
      FilterFilter(s[1..], p, q);
    }
  }

  /** Filtering depends only on the values the predicate takes. */
  lemma {:induction false} FilterSame<T(!new)>(s: seq<T>, p: T -> bool, q: T -> bool)
    requires forall x :: p(x) == q(x)
    ensures Filter(s, p) == Filter(s, q)
  {
    if s != [] {
      FilterSame(s[1..], p, q);
    }
  }

  /** Two successive filters are one filter by any predicate that is their conjunction. */
  lemma {:induction false} FilterFilterBy<T(!new)>(s: seq<T>, p: T -> bool, q: T -> bool, pq: T -> bool)
    requires forall x :: pq(x) == (p(x) && q(x))
    ensures Filter(Filter(s, p), q) == Filter(s, pq)
  {
    if s != [] {
      FilterFilterBy(s[1..], p, q, pq);
    }
  }

  /** Filtering by `p` and by its negation splits the input: their lengths add up. */
  lemma {:induction false} FilterSplit<T(!new)>(s: seq<T>, p: T -> bool)
    ensures |Filter(s, p)| + |Filter(s, x => !p(x))| == |s|
  {
    if s != [] {
      FilterSplit(s[1..], p);
    }
  }

  /** `Array.prototype.findIndex`: the first index whose element satisfies `p`, or -1. */
  function FindIndex<T>(s: seq<T>, p: T -> bool): (i: int)
    ensures -1 <= i < |s|
    ensures i >= 0 ==> p(s[i])
    ensures forall j :: 0 <= j < |s| && (i < 0 || j < i) ==> !p(s[j])
  {
    if s == [] then -1
    else if p(s[0]) then 0
    else
      var k := FindIndex(s[1..], p);
      assert forall j :: 1 <= j < |s| ==> s[j] == s[1..][j - 1];
      if k < 0 then -1 else k + 1
  }

  /** `Array.prototype.find`: the first element satisfying `p`, if any. */
  function Find<T>(s: seq<T>, p: T -> bool): (r: Option<T>)
    ensures r.None? <==> forall j :: 0 <= j < |s| ==> !p(s[j])
    ensures r.Some? ==> r.value in s && p(r.value)
  {
    var i := FindIndex(s, p);
    if i < 0 then None else Some(s[i])
  }

  /** No two elements of `s` share a `key`. */
  ghost predicate UniqueBy<T, K>(s: seq<T>, key: T -> K) {
    forall i, j :: 0 <= i < j < |s| ==> key(s[i]) != key(s[j])
  }

  /** Filtering cannot create a clash of keys. */
  lemma {:induction false} FilterUniqueBy<T(!new), K>(s: seq<T>, p: T -> bool, key: T -> K)
    requires UniqueBy(s, key)
    ensures UniqueBy(Filter(s, p), key)
  {
    if s != [] {
      var rest := Filter(s[1..], p);
      assert UniqueBy(s[1..], key) by {
        forall i, j | 0 <= i < j < |s[1..]| ensures key(s[1..][i]) != key(s[1..][j]) {
          assert s[1..][i] == s[i + 1] && s[1..][j] == s[j + 1];
        }
      }
      FilterUniqueBy(s[1..], p, key);
      if p(s[0]) {
        forall j | 0 <= j < |rest| ensures key(s[0]) != key(rest[j]) {
          assert rest[j] in s[1..];
          var k :| 0 <= k < |s[1..]| && s[1..][k] == rest[j];
          assert s[k + 1] == rest[j];
        }
        var r := [s[0]] + rest;
        forall i, j | 0 <= i < j < |r| ensures key(r[i]) != key(r[j]) {
          if i == 0 {
            assert r[j] == rest[j - 1];
          } else {
            assert r[i] == rest[i - 1] && r[j] == rest[j - 1];
          }
        }
      }
    }
  }

  /** Appending an element whose key is new keeps the keys unique. */
  lemma AppendUniqueBy<T, K>(s: seq<T>, x: T, key: T -> K)
    requires UniqueBy(s, key)
    requires forall i :: 0 <= i < |s| ==> key(s[i]) != key(x)
    ensures UniqueBy(s + [x], key)
  {
    var r := s + [x];
    forall i, j | 0 <= i < j < |r| ensures key(r[i]) != key(r[j]) {
      assert r[i] == s[i];
      if j < |s| { assert r[j] == s[j]; }
    }
  }

  /** Replacing one element by one with the same key keeps the keys unique. */
  lemma UpdateUniqueBy<T, K>(s: seq<T>, i: nat, x: T, key: T -> K)
    requires UniqueBy(s, key)
    requires i < |s| && key(x) == key(s[i])
    ensures UniqueBy(s[i := x], key)
  {
    var r := s[i := x];
    forall a, b | 0 <= a < b < |r| ensures key(r[a]) != key(r[b]) {
      assert key(r[a]) == key(s[a]) && key(r[b]) == key(s[b]);
    }
  }

  /** Elements of `s` in order of first occurrence, each once; this is what a `Set`
      filled by iterating over `s` enumerates. */
  function Distinct<T(==,!new)>(s: seq<T>): (r: seq<T>)
    ensures forall x :: x in r <==> x in s
    ensures NoDuplicates(r)
    ensures |r| <= |s|
  {
    if s == [] then []
    else
      var d := Distinct(s[..|s| - 1]);
      assert forall x :: x in s[..|s| - 1] ==> x in s;
      assert s == s[..|s| - 1] + [s[|s| - 1]];
      if s[|s| - 1] in d then d else d + [s[|s| - 1]]
  }

  /** Appending one element extends the first-occurrence order only when it is new. */
  lemma DistinctAppend<T(!new)>(s: seq<T>, x: T)
    ensures Distinct(s + [x]) == if x in s then Distinct(s) else Distinct(s) + [x]
  {
    assert (s + [x])[..|s|] == s;
  }

  ghost predicate NoDuplicates<T>(s: seq<T>) {
    forall i, j :: 0 <= i < j < |s| ==> s[i] != s[j]
  }

  /** A sequence has no duplicates exactly when no value occurs in it twice. */
  lemma NoDuplicatesMultiset<T>(s: seq<T>)
    ensures NoDuplicates(s) <==> forall x :: multiset(s)[x] <= 1
  {
    if NoDuplicates(s) {
      NoDuplicatesCounts(s);
    } else {
      var i, j :| 0 <= i < j < |s| && s[i] == s[j];
      RepeatCount(s, i, j);
    }
  }

  lemma {:induction false} NoDuplicatesCounts<T>(s: seq<T>)
    requires NoDuplicates(s)
    ensures forall x :: multiset(s)[x] <= 1
  {
    if s != [] {
      var t := s[1..];
      assert NoDuplicates(t) by {
        forall i, j | 0 <= i < j < |t| ensures t[i] != t[j] {
          assert t[i] == s[i + 1] && t[j] == s[j + 1];
        }
      }
      assert s[0] !in t by {
        forall j | 0 <= j < |t| ensures t[j] != s[0] {
          assert t[j] == s[j + 1];
        }
      }
      NoDuplicatesCounts(t);
      assert s == [s[0]] + t;
      assert multiset(s) == multiset{s[0]} + multiset(t);
    }
  }

  /** A value at two positions occurs at least twice. */
  lemma RepeatCount<T>(s: seq<T>, i: nat, j: nat)
    requires i < j < |s| && s[i] == s[j]
    ensures multiset(s)[s[i]] >= 2
  {
    assert s == s[..j] + s[j..];
    assert s[i] in s[..j] && s[j] in s[j..];
    assert multiset(s)[s[i]] == multiset(s[..j])[s[i]] + multiset(s[j..])[s[i]];
  }

  /** Reordering a sequence keeps it free of duplicates. */
  lemma NoDuplicatesPermutation<T>(a: seq<T>, b: seq<T>)
    requires NoDuplicates(a) && multiset(a) == multiset(b)
    ensures NoDuplicates(b)
  {
    NoDuplicatesMultiset(a);
    NoDuplicatesMultiset(b);
  }

  /** Sum, over the keys listed in `keys`, of how often each occurs in `s`. */
  function SumCounts<T(==)>(keys: seq<T>, s: seq<T>): nat {
    if keys == [] then 0 else multiset(s)[keys[0]] + SumCounts(keys[1..], s)
  }

  lemma {:induction false} SumCountsAppend<T>(keys: seq<T>, a: seq<T>, b: seq<T>)
    ensures SumCounts(keys, a + b) == SumCounts(keys, a) + SumCounts(keys, b)
  {
    if keys != [] {
      SumCountsAppend(keys[1..], a, b);
    }
  }

  lemma {:induction false} SumCountsSingle<T>(keys: seq<T>, x: T)
    requires NoDuplicates(keys)
    ensures SumCounts(keys, [x]) == if x in keys then 1 else 0
  {
    if keys != [] {
      SumCountsSingle(keys[1..], x);
      if keys[0] == x {
        assert x !in keys[1..] by {
          forall j | 0 <= j < |keys[1..]| ensures keys[1..][j] != x {
            assert keys[1..][j] == keys[j + 1];
          }
        }
      }
    }
  }

  /** Summing the occurrence counts over a duplicate-free list of keys that covers
      every element of `s` gives back `|s|`. */
  lemma {:induction false} SumCountsCovers<T>(keys: seq<T>, s: seq<T>)
    requires NoDuplicates(keys)
    requires forall x :: x in s ==> x in keys
    ensures SumCounts(keys, s) == |s|
  {
    if s == [] {
      assert [] + [] == s;
      SumCountsAppend(keys, [], []);
    } else {
      assert s == [s[0]] + s[1..];
      assert s[0] in keys;
      assert forall x :: x in s[1..] ==> x in s;
      SumCountsAppend(keys, [s[0]], s[1..]);
      SumCountsSingle(keys, s[0]);
      SumCountsCovers(keys, s[1..]);
    }
  }

  /** The counts of the distinct elements of `s` add up to `|s|`. */
  lemma DistinctCountsSum<T(!new)>(s: seq<T>)
    ensures SumCounts(Distinct(s), s) == |s|
  {
    SumCountsCovers(Distinct(s), s);
  }

  /** One more element of `t` after `s`. */
  lemma ConcatPrefixStep<T>(s: seq<T>, t: seq<T>, j: nat)
    requires j < |t|
    ensures s + t[..j + 1] == (s + t[..j]) + [t[j]]
  {
    assert t[..j + 1] == t[..j] + [t[j]];
  }

  /** `counts` holds, for every value of `s`, how often it occurs in `s`; a key
      that does not occur in `s` maps to 0. */
  ghost predicate Tally<K>(counts: map<K, nat>, s: seq<K>) {
    && (forall k :: k in s ==> k in counts)
    && (forall k :: k in counts ==> counts[k] == multiset(s)[k])
  }

  /** `counts[k] = (counts[k] || 0) + 1`. */
  function Bump<K(!new)>(counts: map<K, nat>, k: K): (r: map<K, nat>)
    ensures forall j :: j in r <==> j in counts || j == k
  {
    counts[k := (if k in counts then counts[k] else 0) + 1]
  }

  /** Counting one more value keeps the tally exact. */
  lemma TallyBump<K(!new)>(counts: map<K, nat>, s: seq<K>, x: K)
    requires Tally(counts, s)
    ensures Tally(Bump(counts, x), s + [x])
  {
    assert multiset(s + [x]) == multiset(s) + multiset{x};
  }

  /** A tally whose keys are exactly the values of `s`. */
  ghost predicate ExactTally<K>(counts: map<K, nat>, s: seq<K>) {
    Tally(counts, s) && forall k :: k in counts ==> k in s
  }

  lemma ExactTallyBump<K(!new)>(counts: map<K, nat>, s: seq<K>, x: K)
    requires ExactTally(counts, s)
    ensures ExactTally(Bump(counts, x), s + [x])
  {
    TallyBump(counts, s, x);
  }

  /** End index of `s.slice(0, limit)`: a negative limit counts from the end. */
  function SliceEnd(len: nat, limit: int): (e: nat)
    ensures e <= len
    ensures 0 <= limit ==> e == if limit < len then limit else len
    ensures limit < 0 ==> e == if len + limit > 0 then len + limit else 0
  {
    if limit >= 0 then (if limit < len then limit else len)
    else if len + limit > 0 then len + limit else 0
  }

  /** `s.slice(0, limit)`. */
  function SliceTo<T>(s: seq<T>, limit: int): (r: seq<T>)
    ensures |r| == SliceEnd(|s|, limit)
    ensures r == s[..|r|]
  {
    s[..SliceEnd(|s|, limit)]
  }

  /** A prefix holds no element more often than the whole sequence. */
  lemma PrefixWithin<T>(s: seq<T>, n: nat)
    requires n <= |s|
    ensures multiset(s[..n]) <= multiset(s)
  {
    assert s == s[..n] + s[n..];
  }
}
