/** The three standard-library algorithms the sampling engine and the
    statistics are built on, with randomness modelled as choice:
    `std::sample` (selection sampling, which keeps the relative order of what
    it selects), `std::shuffle` (Fisher-Yates, any permutation) and
    `std::sort` (ascending by a key, ties in any order). */
module Algorithms {
  import opened Seqs

  /** `s` is non-decreasing by `key`. */
  predicate SortedBy<X>(s: seq<X>, key: X -> real)
  {
    forall i, j :: 0 <= i < j < |s| ==> key(s[i]) <= key(s[j])
  }

  /** `std::sample` over a forward range: `min(k, |s|)` elements, each position
      at most once, in their original order. Which positions is a choice. */
  method Sample<T>(s: seq<T>, k: nat) returns (picked: seq<T>, ghost mask: seq<bool>)
    ensures |mask| == |s| && CountTrue(mask) == MinNat(k, |s|)
    ensures picked == Keep(s, mask)
  {
    var want := MinNat(k, |s|);
    picked, mask := [], [];
    var i := 0;
    while i < |s|
      invariant 0 <= i <= |s| && |mask| == i
      invariant picked == Keep(s[..i], mask)
      invariant CountTrue(mask) <= want && want - CountTrue(mask) <= |s| - i
    {
      var need := want - |picked|;
      var take: bool;
      if need == 0 {
        take := false;
      } else if need == |s| - i {
        take := true;
      } else {
        take :| true;
      }
      KeepSnoc(s[..i], mask, s[i], take);
      assert s[..i + 1] == s[..i] + [s[i]];
      if take {
        picked := picked + [s[i]];
      }
      mask := mask + [take];
      i := i + 1;
    }
    assert s[..i] == s;
  }

  /** `std::shuffle` in place: Fisher-Yates with the swap partner a choice. */
  method Shuffle<T>(a: array<T>)
    modifies a
    ensures multiset(a[..]) == multiset(old(a[..]))
  {
    var i := a.Length;
    while i > 1
      invariant 0 <= i <= a.Length
      invariant multiset(a[..]) == multiset(old(a[..]))
    {
      i := i - 1;
      var j :| 0 <= j <= i;
      a[i], a[j] := a[j], a[i];
    }
  }

  /** A shuffled copy of `s`: some permutation of it. */
  method ShuffleSeq<T>(s: seq<T>) returns (r: seq<T>)
    ensures |r| == |s| && multiset(r) == multiset(s)
  {
    var a := new T[|s|](i requires 0 <= i < |s| => s[i]);
    assert a[..] == s;
    Shuffle(a);
    r := a[..];
  }

  /** The insertion step's picture: the prefix `s[..i+1]` is sorted except
      that the element at `j` may still be out of place to its left. */
  predicate SortedButAt<X>(s: seq<X>, key: X -> real, i: nat, j: nat)
    requires j <= i < |s|
  {
    (forall k, l :: 0 <= k < l <= i && k != j && l != j ==> key(s[k]) <= key(s[l])) &&
    (forall l :: j < l <= i ==> key(s[j]) <= key(s[l]))
  }

  /** A sorted prefix `s[..i]` is the insertion step's picture with `j == i`. */
  lemma InsertionStart<X>(s: seq<X>, key: X -> real, i: nat)
    requires i < |s| && SortedBy(s[..i], key)
    ensures SortedButAt(s, key, i, i)
  {
    forall k, l | 0 <= k < l < i ensures key(s[k]) <= key(s[l]) {
      assert s[..i][k] == s[k] && s[..i][l] == s[l];
    }
  }

  lemma InsertionDone<X>(s: seq<X>, key: X -> real, i: nat, j: nat)
    requires j <= i < |s| && SortedButAt(s, key, i, j)
    requires j == 0 || key(s[j - 1]) <= key(s[j])
    ensures SortedBy(s[..i + 1], key)
  {
    forall k, l | 0 <= k < l <= i ensures key(s[k]) <= key(s[l]) {
      if k == j {
      } else if l == j {
        if k < j - 1 {
          assert key(s[k]) <= key(s[j - 1]);
        }
      }
    }
  }

  lemma InsertionSwap<X>(s: seq<X>, key: X -> real, i: nat, j: nat)
    requires 0 < j <= i < |s| && SortedButAt(s, key, i, j)
    requires key(s[j - 1]) > key(s[j])
    ensures SortedButAt(s[j - 1 := s[j]][j := s[j - 1]], key, i, j - 1)
  {
  }

  /** Exchanges two cells, leaving the others. */
  method Swap<X>(a: array<X>, p: nat, q: nat)
    requires p < a.Length && q < a.Length
    modifies a
    ensures a[..] == old(a[..])[p := old(a[q])][q := old(a[p])]
    ensures multiset(a[..]) == multiset(old(a[..]))
  {
    a[p], a[q] := a[q], a[p];
  }

  /** One insertion step: `a[i]` moved left by adjacent swaps until the
      prefix `a[..i + 1]` is sorted. */
  method InsertOne<X>(a: array<X>, key: X -> real, i: nat)
    requires i < a.Length && SortedBy(a[..i], key)
    modifies a
    ensures SortedBy(a[..i + 1], key)
    ensures multiset(a[..]) == multiset(old(a[..]))
  {
    var j := i;
    InsertionStart(a[..], key, i);
    while j > 0 && key(a[j - 1]) > key(a[j])
      invariant 0 <= j <= i
      invariant multiset(a[..]) == multiset(old(a[..]))
      invariant SortedButAt(a[..], key, i, j)
    {
      InsertionSwap(a[..], key, i, j);
      Swap(a, j - 1, j);
      j := j - 1;
    }
    InsertionDone(a[..], key, i, j);
  }

  /** `std::sort` in place by a key: insertion by adjacent swaps. */
  method SortByKey<X>(a: array<X>, key: X -> real)
    modifies a
    ensures SortedBy(a[..], key)
    ensures multiset(a[..]) == multiset(old(a[..]))
  {
    var i := 0;
    while i < a.Length
      invariant 0 <= i <= a.Length
      invariant SortedBy(a[..i], key)
      invariant multiset(a[..]) == multiset(old(a[..]))
    {
      InsertOne(a, key, i);
      i := i + 1;
    }
    assert a[..] == a[..a.Length];
  }

  /** `std::sort` on a vector the caller owns: a sorted permutation. */
  method SortCopyByKey<X>(s: seq<X>, key: X -> real) returns (r: seq<X>)
    ensures |r| == |s| && SortedBy(r, key) && multiset(r) == multiset(s)
  {
    var a := new X[|s|](i requires 0 <= i < |s| => s[i]);
    assert a[..] == s;
    SortByKey(a, key);
    r := a[..];
  }

  /** Sorting an array of reals leaves its ascending sorted copy. */
  method SortReals(a: array<real>)
    modifies a
    ensures a[..] == SortedCopy(old(a[..]))
  {
    SortByKey(a, x => x);
    SortedCopyIs(old(a[..]), a[..]);
  }

  /** A sorted copy made by the in-place sort. */
  method SortedSeq(s: seq<real>) returns (r: seq<real>)
    ensures r == SortedCopy(s) && Sorted(r) && multiset(r) == multiset(s)
  {
    var a := new real[|s|](i requires 0 <= i < |s| => s[i]);
    assert a[..] == s;
    SortReals(a);
    r := a[..];
  }
}
