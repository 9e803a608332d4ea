/** The legacy `nr::Numera` (numera/Numera.cpp): a growable list of numbers
    with its extremes and its median. Reading numbers from a file is not
    part of this model. */
module LegacyNumera {
  import opened Seqs
  import opened BasicStats

  class Numera {
    var numbers: seq<real>
    var fileName: string

    /** The default constructor: no numbers, no file. */
    constructor()
      ensures numbers == [] && fileName == ""
    {
      numbers := [];
      fileName := "";
    }

    /** `add(number)`: appends one number. */
    method Add(x: real)
      modifies this
      ensures numbers == old(numbers) + [x] && fileName == old(fileName)
    {
      numbers := numbers + [x];
    }

    /** `add(nums)`: appends all of `nums`, in order. */
    method AddAll(nums: seq<real>)
      modifies this
      ensures numbers == old(numbers) + nums && fileName == old(fileName)
    {
      numbers := numbers + nums;
    }

    /** `count()`: how many numbers are stored. */
    function Count(): (c: nat)
      reads this
      ensures c == |numbers|
    {
      |numbers|
    }

    /** `min()`: 0.0 when empty, else the least stored number. */
    function Min(): (r: real)
      reads this
      ensures numbers == [] ==> r == 0.0
      ensures numbers != [] ==> r in numbers && forall x :: x in numbers ==> r <= x
    {
      if numbers == [] then 0.0 else Least(numbers)
    }

    /** `max()`: 0.0 when empty, else the greatest stored number. */
    function Max(): (r: real)
      reads this
      ensures numbers == [] ==> r == 0.0
      ensures numbers != [] ==> r in numbers && forall x :: x in numbers ==> x <= r
    {
      if numbers == [] then 0.0 else Greatest(numbers)
    }

    /** `median()`: 0.0 when empty, else the middle of a sorted copy. The
        stored numbers keep their order. */
    method Median() returns (m: real)
      ensures numbers == [] ==> m == 0.0
      ensures numbers != [] ==> m == MiddleOf(SortedCopy(numbers)) && Min() <= m <= Max()
    {
      m := BasicStats.Median(numbers);
      if numbers != [] {
        MedianBetweenExtremes(numbers);
      }
    }
  }

  /** The count test: three numbers added, a count of 3. */
  method CountAfterThreeAdds() returns (c: nat)
    ensures c == 3
  {
    var n := new Numera();
    n.Add(10.0);
    n.Add(20.0);
    n.Add(30.0);
    c := n.Count();
  }

  /** The extremes test: `{5, 10, 2, 8}` has minimum 2 and maximum 10. */
  method ExtremesExample() returns (lo: real, hi: real)
    ensures lo == 2.0 && hi == 10.0
  {
    var n := new Numera();
    n.AddAll([5.0, 10.0, 2.0, 8.0]);
    lo := n.Min();
    hi := n.Max();
    ExtremesOf(n.numbers);
  }

  lemma ExtremesOf(s: seq<real>)
    requires s == [5.0, 10.0, 2.0, 8.0]
    ensures Least(s) == 2.0 && Greatest(s) == 10.0
  {
    var lo, hi := Least(s), Greatest(s);
    assert s[1] == 10.0 && s[2] == 2.0 && s[1] in s && s[2] in s;
    var i :| 0 <= i < 4 && s[i] == lo;
    var j :| 0 <= j < 4 && s[j] == hi;
  }

  /** The median tests: `{3, 1, 5}` gives 3 and `{4, 2, 8, 6}` gives 5. */
  method MedianExamples(xs: seq<real>, ys: seq<real>) returns (odd: real, even: real)
    requires xs == [3.0, 1.0, 5.0] && ys == [4.0, 2.0, 8.0, 6.0]
    ensures odd == 3.0 && even == 5.0
  {
    var a := new Numera();
    a.AddAll(xs);
    assert a.numbers == xs;
    odd := a.Median();
    OddMedian(xs);
    var b := new Numera();
    b.AddAll(ys);
    assert b.numbers == ys;
    even := b.Median();
    EvenMedian(ys);
  }

  lemma OddMedian(xs: seq<real>)
    requires xs == [3.0, 1.0, 5.0]
    ensures MiddleOf(SortedCopy(xs)) == 3.0
  {
    OddPermutation(xs);
    SortedIs(xs, [1.0, 3.0, 5.0]);
  }

  lemma OddPermutation(xs: seq<real>)
    requires xs == [3.0, 1.0, 5.0]
    ensures multiset(xs) == multiset([1.0, 3.0, 5.0])
  {
  }

  lemma EvenMedian(ys: seq<real>)
    requires ys == [4.0, 2.0, 8.0, 6.0]
    ensures MiddleOf(SortedCopy(ys)) == 5.0
  {
    EvenPermutation(ys);
    SortedIs(ys, [2.0, 4.0, 6.0, 8.0]);
  }

  lemma EvenPermutation(ys: seq<real>)
    requires ys == [4.0, 2.0, 8.0, 6.0]
    ensures multiset(ys) == multiset([2.0, 4.0, 6.0, 8.0])
  {
  }

  /** Names the sorted copy without exposing the literal it was built from. */
  lemma SortedIs(s: seq<real>, t: seq<real>)
    requires Sorted(t) && multiset(s) == multiset(t)
    ensures SortedCopy(s) == t
  {
    SortedCopyIs(s, t);
  }
}
