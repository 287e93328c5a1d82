/** The ordering policy shared by every ranked list of the engine: a stable sort, descending
    by a numeric key. java.util.Collections.sort and List.sort are stable, so for a given
    key the order they produce is unique, and the insertion sort below produces exactly it. */
module Sorting {

  predicate SortedDesc<T>(s: seq<T>, key: T -> real)
  {
    forall i, j :: 0 <= i < j < |s| ==> key(s[i]) >= key(s[j])
  }

  /** Places x after every element whose key is at least key(x): equal keys keep input order. */
  function Insert<T>(x: T, s: seq<T>, key: T -> real): (r: seq<T>)
    ensures |r| == |s| + 1
    ensures multiset(r) == multiset(s) + multiset{x}
  {
    if s == [] || key(x) > key(s[0]) then [x] + s
    else
      assert s == [s[0]] + s[1..];
      [s[0]] + Insert(x, s[1..], key)
  }

  function SortDesc<T>(s: seq<T>, key: T -> real): (r: seq<T>)
    ensures |r| == |s|
    ensures multiset(r) == multiset(s)
    ensures SortedDesc(r, key)
  {
    if s == [] then []
    else
      var sorted := SortDesc(s[..|s| - 1], key);
      InsertKeepsSorted(s[|s| - 1], sorted, key);
      assert s == s[..|s| - 1] + [s[|s| - 1]];
      Insert(s[|s| - 1], sorted, key)
  }

  lemma {:induction false} InsertKeepsSorted<T>(x: T, s: seq<T>, key: T -> real)
    requires SortedDesc(s, key)
    ensures SortedDesc(Insert(x, s, key), key)
  {
    if s != [] && !(key(x) > key(s[0])) {
      var tail := Insert(x, s[1..], key);
      InsertKeepsSorted(x, s[1..], key);
      forall y | y in tail ensures key(s[0]) >= key(y) {
        assert y in multiset(tail);
        assert y == x || y in s[1..];
      }
      assert Insert(x, s, key) == [s[0]] + tail;
    }
  }

  /** An element no greater than everything already sorted goes last. */
  lemma {:induction false} InsertAtEnd<T>(x: T, s: seq<T>, key: T -> real)
    requires forall i :: 0 <= i < |s| ==> key(s[i]) >= key(x)
    ensures Insert(x, s, key) == s + [x]
  {
    if s != [] {
      InsertAtEnd(x, s[1..], key);
      assert [s[0]] + (s[1..] + [x]) == s + [x];
    }
  }

  /** Sorting an already sorted list changes nothing: the sort is stable. */
  lemma {:induction false} SortSortedIsIdentity<T>(s: seq<T>, key: T -> real)
    requires SortedDesc(s, key)
    ensures SortDesc(s, key) == s
  {
    if s != [] {
      var n := |s| - 1;
      assert SortedDesc(s[..n], key);
      SortSortedIsIdentity(s[..n], key);
      InsertAtEnd(s[n], s[..n], key);
      assert s[..n] + [s[n]] == s;
    }
  }

  /** The total of f over a list (built from the back, like a running total). */
  function Sum<T>(s: seq<T>, f: T -> real): real
  {
    if s == [] then 0.0 else Sum(s[..|s| - 1], f) + f(s[|s| - 1])
  }

  lemma {:induction false} SumCons<T>(x: T, s: seq<T>, f: T -> real)
    ensures Sum([x] + s, f) == f(x) + Sum(s, f)
  {
    if s != [] {
      var n := |s| - 1;
      assert ([x] + s)[..|s|] == [x] + s[..n];
      SumCons(x, s[..n], f);
    }
  }

  lemma {:induction false} SumInsert<T>(x: T, s: seq<T>, key: T -> real, f: T -> real)
    ensures Sum(Insert(x, s, key), f) == Sum(s, f) + f(x)
  {
    if s == [] || key(x) > key(s[0]) {
      SumCons(x, s, f);
    } else {
      SumInsert(x, s[1..], key, f);
      SumCons(s[0], Insert(x, s[1..], key), f);
      SumCons(s[0], s[1..], f);
      assert [s[0]] + s[1..] == s;
    }
  }

  /** Sorting moves entries around but keeps every total over them. */
  lemma {:induction false} SumSort<T>(s: seq<T>, key: T -> real, f: T -> real)
    ensures Sum(SortDesc(s, key), f) == Sum(s, f)
  {
    if s != [] {
      var n := |s| - 1;
      SumSort(s[..n], key, f);
      SumInsert(s[n], SortDesc(s[..n], key), key, f);
    }
  }

  /** No two positions of s agree on f. */
  predicate InjectiveOn<T, K(==)>(s: seq<T>, f: T -> K)
  {
    forall i, j :: 0 <= i < j < |s| ==> f(s[i]) != f(s[j])
  }

  lemma MultiplicityTwo<T>(s: seq<T>, i: int, j: int)
    requires 0 <= i < j < |s| && s[i] == s[j]
    ensures multiset(s)[s[i]] >= 2
  {
    assert s == s[..j] + [s[j]] + s[j + 1..];
    assert s[i] in s[..j];
  }

  lemma {:induction false} InjectiveNoRepeat<T, K>(s: seq<T>, f: T -> K, x: T)
    requires InjectiveOn(s, f)
    ensures multiset(s)[x] <= 1
  {
    if s != [] {
      var n := |s| - 1;
      assert s == s[..n] + [s[n]];
      InjectiveNoRepeat(s[..n], f, x);
      if s[n] == x {
        forall k | 0 <= k < n ensures s[k] != x {
          assert f(s[k]) != f(s[n]);
        }
        assert x !in s[..n];
      }
    }
  }

  /** A rearrangement of a list whose entries have pairwise different f-values still has. */
  lemma PermutationKeepsInjective<T, K>(s: seq<T>, t: seq<T>, f: T -> K)
    requires multiset(s) == multiset(t) && InjectiveOn(s, f)
    ensures InjectiveOn(t, f)
  {
    forall i, j | 0 <= i < j < |t| ensures f(t[i]) != f(t[j]) {
      assert t[i] in multiset(s) && t[j] in multiset(s);
      var a :| 0 <= a < |s| && s[a] == t[i];
      var b :| 0 <= b < |s| && s[b] == t[j];
      if t[i] == t[j] {
        MultiplicityTwo(t, i, j);
        InjectiveNoRepeat(s, f, t[i]);
        assert false;
      }
      assert a != b;
    }
  }

  /** Inserting at the first position whose key is below key(x) is what Insert does: the
      shape of an in-place insertion step. */
  lemma {:induction false} InsertPosition<T>(x: T, s: seq<T>, key: T -> real, p: int)
    requires 0 <= p <= |s|
    requires forall q :: 0 <= q < p ==> key(x) <= key(s[q])
    requires p < |s| ==> key(x) > key(s[p])
    ensures Insert(x, s, key) == s[..p] + [x] + s[p..]
    decreases p, 1
  {
    if p == 0 {
      assert s[..0] + [x] + s[0..] == [x] + s;
    } else {
      var t := s[1..];
      assert Insert(x, s, key) == [s[0]] + Insert(x, t, key) by {
        assert key(x) <= key(s[0]);
      }
      InsertPositionTail(x, s, key, p);
      SplitAfterHead(s, p);
      Regroup(s[0], t[..p - 1], x, t[p - 1..]);
    }
  }

  /** Cutting a list at p > 0 is cutting its tail at p - 1 and putting the head back. */
  lemma SplitAfterHead<T>(s: seq<T>, p: int)
    requires 0 < p <= |s|
    ensures s[..p] == [s[0]] + s[1..][..p - 1] && s[p..] == s[1..][p - 1..]
  {
    assert s[..p] == [s[0]] + s[1..][..p - 1];
  }

  lemma {:induction false} InsertPositionTail<T>(x: T, s: seq<T>, key: T -> real, p: int)
    requires 0 < p <= |s|
    requires forall q :: 0 <= q < p ==> key(x) <= key(s[q])
    requires p < |s| ==> key(x) > key(s[p])
    ensures Insert(x, s[1..], key) == s[1..][..p - 1] + [x] + s[1..][p - 1..]
    decreases p, 0
  {
    var t := s[1..];
    assert forall q :: 0 <= q < p - 1 ==> t[q] == s[q + 1];
    InsertPosition(x, t, key, p - 1);
  }

  lemma SumAppend<T>(s: seq<T>, x: T, f: T -> real)
    ensures Sum(s + [x], f) == Sum(s, f) + f(x)
  {
    assert (s + [x])[..|s|] == s;
  }

  /** Replacing one element changes a total by the difference of the two values. */
  lemma {:induction false} SumUpdate<T>(s: seq<T>, i: int, x: T, f: T -> real)
    requires 0 <= i < |s|
    ensures Sum(s[i := x], f) == Sum(s, f) - f(s[i]) + f(x)
  {
    var n := |s| - 1;
    assert s[i := x][..n] == if i == n then s[..n] else s[..n][i := x];
    if i < n {
      SumUpdate(s[..n], i, x, f);
    }
  }
  lemma Regroup<T>(a: T, front: seq<T>, x: T, back: seq<T>)
    ensures [a] + (front + [x] + back) == [a] + front + [x] + back
  {
  }
  lemma PrefixStep<T>(s: seq<T>, i: int)
    requires 0 <= i < |s|
    ensures s[..i + 1] == s[..i] + [s[i]]
    ensures multiset(s[..i + 1]) == multiset(s[..i]) + multiset{s[i]}
  {
  }
  lemma Whole<T>(s: seq<T>)
    ensures s[..|s|] == s
  {
  }
  lemma PrefixOfPrefix<T>(s: seq<T>, n: int, m: int)
    requires 0 <= m <= n <= |s|
    ensures s[..n][..m] == s[..m]
  {
  }

  /** Sorting one more element is inserting it into the sorted prefix. */
  lemma SortStep<T>(s: seq<T>, i: int, key: T -> real)
    requires 0 <= i < |s|
    ensures SortDesc(s[..i + 1], key) == Insert(s[i], SortDesc(s[..i], key), key)
  {
    assert s[..i + 1][..i] == s[..i];
  }

  /** The union of the bags f gives for the elements of a list (built from the back). */
  function Union<T, U>(s: seq<T>, f: T -> multiset<U>): multiset<U>
  {
    if s == [] then multiset{} else Union(s[..|s| - 1], f) + f(s[|s| - 1])
  }

  lemma UnionAppend<T, U>(s: seq<T>, x: T, f: T -> multiset<U>)
    ensures Union(s + [x], f) == Union(s, f) + f(x)
  {
    assert (s + [x])[..|s|] == s;
  }

  /** An element whose bag gains extra makes the whole union gain exactly extra. */
  lemma {:induction false} UnionGrow<T, U>(s: seq<T>, i: int, x: T, extra: multiset<U>, f: T -> multiset<U>)
    requires 0 <= i < |s| && f(x) == f(s[i]) + extra
    ensures Union(s[i := x], f) == Union(s, f) + extra
  {
    var n := |s| - 1;
    var t := s[i := x];
    if i == n {
      assert t[..n] == s[..n];
    } else {
      assert t[..n] == s[..n][i := x];
      UnionGrow(s[..n], i, x, extra, f);
    }
  }

  lemma {:induction false} UnionCons<T, U>(x: T, s: seq<T>, f: T -> multiset<U>)
    ensures Union([x] + s, f) == f(x) + Union(s, f)
  {
    if s != [] {
      var n := |s| - 1;
      assert ([x] + s)[..|s|] == [x] + s[..n];
      UnionCons(x, s[..n], f);
    }
  }

  lemma {:induction false} UnionInsert<T, U>(x: T, s: seq<T>, key: T -> real, f: T -> multiset<U>)
    ensures Union(Insert(x, s, key), f) == Union(s, f) + f(x)
  {
    if s == [] || key(x) > key(s[0]) {
      UnionCons(x, s, f);
    } else {
      var t := s[1..];
      assert Insert(x, s, key) == [s[0]] + Insert(x, t, key);
      UnionInsert(x, t, key, f);
      UnionCons(s[0], Insert(x, t, key), f);
      assert [s[0]] + t == s;
      UnionCons(s[0], t, f);
      BagAssociative(f(s[0]), Union(t, f), f(x));
    }
  }

  lemma BagAssociative<U>(a: multiset<U>, b: multiset<U>, c: multiset<U>)
    ensures a + (b + c) == (a + b) + c
  {
  }

  /** Sorting keeps the union of the elements' bags. */
  lemma {:induction false} UnionSort<T, U>(s: seq<T>, key: T -> real, f: T -> multiset<U>)
    ensures Union(SortDesc(s, key), f) == Union(s, f)
  {
    if s != [] {
      var n := |s| - 1;
      UnionSort(s[..n], key, f);
      UnionInsert(s[n], SortDesc(s[..n], key), key, f);
    }
  }

  /** Every element's bag is part of the union. */
  lemma {:induction false} UnionContains<T, U>(s: seq<T>, i: int, f: T -> multiset<U>)
    requires 0 <= i < |s|
    ensures f(s[i]) <= Union(s, f)
  {
    var n := |s| - 1;
    if i < n {
      assert s[..n][i] == s[i];
      UnionContains(s[..n], i, f);
    }
  }

  /** Entries drawn without replacement from a list with pairwise different f-values still
      have pairwise different f-values. */
  lemma SubBagKeepsInjective<T, K>(s: seq<T>, t: seq<T>, f: T -> K)
    requires multiset(t) <= multiset(s) && InjectiveOn(s, f)
    ensures InjectiveOn(t, f)
  {
    forall i, j | 0 <= i < j < |t| ensures f(t[i]) != f(t[j]) {
      assert t[i] in multiset(s) && t[j] in multiset(s);
      var a :| 0 <= a < |s| && s[a] == t[i];
      var b :| 0 <= b < |s| && s[b] == t[j];
      if t[i] == t[j] {
        MultiplicityTwo(t, i, j);
        InjectiveNoRepeat(s, f, t[i]);
        assert false;
      }
      assert a != b;
    }
  }
}
