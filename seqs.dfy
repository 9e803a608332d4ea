/** Sequence vocabulary shared by the sampling engine and the statistics:
    masks (which positions a draw keeps), sortedness, the sorted copy of a
    sequence, prefixes and distinctness. */
module Seqs {

  function MinNat(a: nat, b: nat): nat { if a <= b then a else b }

  function MaxNat(a: nat, b: nat): nat { if a <= b then b else a }

  /** Number of positions a mask keeps. */
  function CountTrue(mask: seq<bool>): (c: nat)
    ensures c <= |mask|
  {
    if mask == [] then 0
    else CountTrue(mask[..|mask| - 1]) + (if mask[|mask| - 1] then 1 else 0)
  }

  /** The elements of `s` whose mask entry is set, in their original order. */
  function Keep<T>(s: seq<T>, mask: seq<bool>): (r: seq<T>)
    requires |mask| == |s|
    ensures |r| == CountTrue(mask)
  {
    if s == [] then []
    else Keep(s[..|s| - 1], mask[..|mask| - 1]) + (if mask[|mask| - 1] then [s[|s| - 1]] else [])
  }

  /** What a selection keeps is a sub-multiset of what it selects from. */
  lemma {:induction false} KeepSubMultiset<T>(s: seq<T>, mask: seq<bool>)
    requires |mask| == |s|
    ensures multiset(Keep(s, mask)) <= multiset(s)
  {
    if s != [] {
      var n := |s| - 1;
      KeepSubMultiset(s[..n], mask[..n]);
      assert s == s[..n] + [s[n]];
    }
  }

  /** A mask that keeps every position keeps the whole sequence. */
  lemma {:induction false} KeepAll<T>(s: seq<T>, mask: seq<bool>)
    requires |mask| == |s| && CountTrue(mask) == |s|
    ensures Keep(s, mask) == s
  {
    if s != [] {
      var n := |s| - 1;
      assert CountTrue(mask[..n]) <= n;
      KeepAll(s[..n], mask[..n]);
      assert s == s[..n] + [s[n]];
    }
  }

  /** Every kept element satisfies what every element of `s` satisfies. */
  lemma KeepMember<T>(s: seq<T>, mask: seq<bool>, x: T)
    requires |mask| == |s| && x in Keep(s, mask)
    ensures x in s
  {
    KeepSubMultiset(s, mask);
    assert x in multiset(Keep(s, mask));
  }

  /** Extending a sequence and its mask by one position. */
  lemma KeepSnoc<T>(s: seq<T>, mask: seq<bool>, x: T, b: bool)
    requires |mask| == |s|
    ensures Keep(s + [x], mask + [b]) == Keep(s, mask) + (if b then [x] else [])
    ensures CountTrue(mask + [b]) == CountTrue(mask) + (if b then 1 else 0)
  {
    assert (s + [x])[..|s|] == s;
    assert (mask + [b])[..|mask|] == mask;
  }

  /** The first `n` elements, or all of them when there are fewer. */
  function Take<T>(s: seq<T>, n: nat): (r: seq<T>)
    ensures |r| == MinNat(n, |s|)
    ensures r == s[..|r|]
  {
    if n <= |s| then s[..n] else s
  }

  predicate Distinct<T(==)>(s: seq<T>)
  {
    forall i, j :: 0 <= i < j < |s| ==> s[i] != s[j]
  }

  lemma {:induction false} DistinctCountsOnce<T>(s: seq<T>, x: T)
    requires Distinct(s)
    ensures multiset(s)[x] <= 1
  {
    if s != [] {
      var n := |s| - 1;
      assert s == s[..n] + [s[n]];
      DistinctCountsOnce(s[..n], x);
      if s[n] == x {
        assert x !in s[..n];
      }
    }
  }

  /** Reordering a sequence without repetitions cannot introduce one. */
  lemma DistinctPreserved<T>(a: seq<T>, b: seq<T>)
    requires Distinct(a) && multiset(a) == multiset(b)
    ensures Distinct(b)
  {
    forall i, j | 0 <= i < j < |b| ensures b[i] != b[j] {
      if b[i] == b[j] {
        assert b == b[..i] + [b[i]] + b[i + 1..j] + [b[j]] + b[j + 1..];
        assert multiset(b)[b[i]] >= 2;
        DistinctCountsOnce(a, b[i]);
        assert false;
      }
    }
  }

  predicate Sorted(s: seq<real>)
  {
    forall i, j :: 0 <= i < j < |s| ==> s[i] <= s[j]
  }

  lemma SortedBelowAll(s: seq<real>, x: real)
    requires Sorted(s) && x in multiset(s)
    ensures s[0] <= x <= s[|s| - 1]
  {
  }

  /** `x` placed into a sorted sequence at its place. */
  function Insert(x: real, s: seq<real>): (r: seq<real>)
    requires Sorted(s)
    ensures Sorted(r)
    ensures multiset(r) == multiset(s) + multiset{x}
    ensures |r| == |s| + 1
  {
    if s == [] then [x]
    else if x <= s[0] then [x] + s
    else
      var rest := Insert(x, s[1..]);
      assert s == [s[0]] + s[1..];
      HeadBelowRest(s[0], s[1..], x, rest);
      [s[0]] + rest
  }

  lemma HeadBelowRest(h: real, t: seq<real>, x: real, rest: seq<real>)
    requires Sorted([h] + t) && h < x && Sorted(rest)
    requires multiset(rest) == multiset(t) + multiset{x}
    ensures Sorted([h] + rest)
  {
    forall k | 0 <= k < |rest| ensures h <= rest[k] {
      assert rest[k] in multiset(rest);
      if rest[k] != x {
        assert rest[k] in multiset(t);
        var m :| 0 <= m < |t| && t[m] == rest[k];
        assert ([h] + t)[0] == h && ([h] + t)[m + 1] == t[m];
      }
    }
  }

  /** Insertion sort: one ascending arrangement of `s`, which shows there is one. */
  function InsertionSort(s: seq<real>): (r: seq<real>)
    ensures Sorted(r)
    ensures multiset(r) == multiset(s)
  {
    if s == [] then []
    else
      var n := |s| - 1;
      assert s == s[..n] + [s[n]];
      Insert(s[n], InsertionSort(s[..n]))
  }

  /** The ascending sorted copy of `s`: what `std::sort` leaves in a copy.
      It is characterised by being sorted and a permutation of `s`; such an
      arrangement exists (`InsertionSort`) and is unique (`SortedUnique`). */
  ghost function SortedCopy(s: seq<real>): (r: seq<real>)
    ensures Sorted(r)
    ensures multiset(r) == multiset(s)
    ensures |r| == |s|
  {
    var w := InsertionSort(s);
    var r :| Sorted(r) && multiset(r) == multiset(s);
    assert |r| == |multiset(r)| == |multiset(s)| == |s|;
    r
  }

  /** A multiset has one ascending arrangement: any sorted permutation of `s` is its sorted copy. */
  lemma {:induction false} SortedUnique(a: seq<real>, b: seq<real>)
    requires Sorted(a) && Sorted(b) && multiset(a) == multiset(b)
    ensures a == b
  {
    if a != [] {
      assert |a| == |multiset(a)| == |b|;
      assert a[0] in multiset(b) && b[0] in multiset(a);
      SortedBelowAll(b, a[0]);
      SortedBelowAll(a, b[0]);
      assert a[0] == b[0];
      assert a == [a[0]] + a[1..];
      assert b == [b[0]] + b[1..];
      assert multiset(a) == multiset{a[0]} + multiset(a[1..]);
      assert multiset(b) == multiset{a[0]} + multiset(b[1..]);
      assert multiset(a[1..]) == multiset(a) - multiset{a[0]};
      assert multiset(b[1..]) == multiset(b) - multiset{a[0]};
      SortedUnique(a[1..], b[1..]);
    }
  }

  lemma SortedCopyIs(s: seq<real>, t: seq<real>)
    requires Sorted(t) && multiset(t) == multiset(s)
    ensures SortedCopy(s) == t
  {
    SortedUnique(SortedCopy(s), t);
  }

  /** Two sequences without repetitions and with no common element join into one. */
  lemma DistinctAppend<T>(a: seq<T>, b: seq<T>)
    requires Distinct(a) && Distinct(b)
    requires forall x :: x in a ==> x !in b
    ensures Distinct(a + b)
  {
    forall i, j | 0 <= i < j < |a + b| ensures (a + b)[i] != (a + b)[j] {
      if i < |a| && |a| <= j {
        assert (a + b)[i] in a && (a + b)[j] in b;
      }
    }
  }

  /** `s` without its element at `i`; the later elements move down by one. */
  function Erase<T>(s: seq<T>, i: nat): (r: seq<T>)
    requires i < |s|
    ensures |r| == |s| - 1
    ensures forall j :: 0 <= j < i ==> r[j] == s[j]
    ensures forall j :: i <= j < |r| ==> r[j] == s[j + 1]
  {
    s[..i] + s[i + 1..]
  }
}
