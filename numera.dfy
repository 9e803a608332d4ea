/** The modern `nr::Numera` (Numera/Numera.cpp): a list of numbers with its
    file name, its extremes and its median. Several accessors of this class
    are stubs in the source and are modelled as they are written: `at`,
    `front` and `back` always return 0.0, `empty` always answers false, and
    `pop_back` and `remove_at` change nothing. */
module ModernNumera {
  import opened Seqs
  import opened Algorithms
  import opened BasicStats

  class Numera {
    var numbers: seq<real>
    var fileName: string

    /** The default constructor. */
    constructor()
      ensures numbers == [] && fileName == ""
    {
      numbers := [];
      fileName := "";
    }

    /** `Numera(std::vector<double> nums)`: the numbers, no file name. */
    constructor FromVector(nums: seq<real>)
      ensures numbers == nums && fileName == ""
    {
      numbers := nums;
      fileName := "";
    }

    /** The copy constructor: both fields copied. */
    constructor Copy(other: Numera)
      ensures numbers == other.numbers && fileName == other.fileName
    {
      numbers := other.numbers;
      fileName := other.fileName;
    }

    /** `operator=`: copies both fields unless `other` is this object, which
        leaves it as it is; either way it ends up equal to `other`. */
    method Assign(other: Numera)
      modifies this
      ensures numbers == old(other.numbers) && fileName == old(other.fileName)
    {
      if this != other {
        numbers := other.numbers;
        fileName := other.fileName;
      }
    }

    /** `add(double)`: appends one number. */
    method Add(x: real)
      modifies this
      ensures numbers == old(numbers) + [x] && fileName == old(fileName)
    {
      numbers := numbers + [x];
    }

    /** `add(std::vector<double>)`: appends all of `nums`, in order. */
    method AddAll(nums: seq<real>)
      modifies this
      ensures numbers == old(numbers) + nums && fileName == old(fileName)
    {
      numbers := numbers + nums;
    }

    /** `size()`: how many numbers are stored. */
    function Size(): (n: nat)
      reads this
      ensures n == |numbers|
    {
      |numbers|
    }

    /** `min()`: 0.0 when empty, else the least stored number. */
    function Min(): (r: real)
      reads this
      ensures numbers == [] ==> r == 0.0
      ensures numbers != [] ==> r in numbers && forall x :: x in numbers ==> r <= x
    {
      if numbers == [] then 0.0 else Least(numbers)
    }

    /** `max()`: 0.0 when empty, else the greatest stored number. */
    function Max(): (r: real)
      reads this
      ensures numbers == [] ==> r == 0.0
      ensures numbers != [] ==> r in numbers && forall x :: x in numbers ==> x <= r
    {
      if numbers == [] then 0.0 else Greatest(numbers)
    }

    /** `median()`: 0.0 when empty; else a sorted copy's middle element, or
        the mean of its two middle elements. The stored numbers keep their
        order, and the median lies between `Min()` and `Max()`. */
    method Median() returns (m: real)
      ensures numbers == [] ==> m == 0.0
      ensures numbers != [] ==> m == MiddleOf(SortedCopy(numbers)) && Min() <= m <= Max()
    {
      if numbers == [] {
        return 0.0;
      }
      var copy := SortedSeq(numbers);
      var size := |copy|;
      if size % 2 == 1 {
        m := copy[size / 2];
      } else {
        m := (copy[size / 2 - 1] + copy[size / 2]) / 2.0;
      }
      MedianBetweenExtremes(numbers);
    }

    /** `at(index)`: a stub that returns 0.0 whatever the index. */
    function At(index: nat): (r: real)
      ensures r == 0.0
    {
      0.0
    }

    /** `front()`: a stub that returns 0.0. */
    function Front(): (r: real)
      ensures r == 0.0
    {
      0.0
    }

    /** `back()`: a stub that returns 0.0. */
    function Back(): (r: real)
      ensures r == 0.0
    {
      0.0
    }

    /** `clear()`: no numbers left; the file name stays. */
    method Clear()
      modifies this
      ensures numbers == [] && fileName == old(fileName)
    {
      numbers := [];
    }

    /** `empty()`: a stub that answers false, even with no numbers stored. */
    function Empty(): (e: bool)
      ensures !e
    {
      false
    }

    /** `pop_back()`: a stub that changes nothing. */
    method PopBack()
      modifies this
      ensures numbers == old(numbers) && fileName == old(fileName)
    {
    }

    /** `remove_at(index)`: a stub that changes nothing. */
    method RemoveAt(index: nat)
      modifies this
      ensures numbers == old(numbers) && fileName == old(fileName)
    {
    }
  }

  /** The extremes test: `{5, 10, 2, 8}` has minimum 2 and maximum 10. */
  method ExtremesExample(nums: seq<real>) returns (lo: real, hi: real)
    requires nums == [5.0, 10.0, 2.0, 8.0]
    ensures lo == 2.0 && hi == 10.0
  {
    var n := new Numera();
    n.AddAll(nums);
    lo := n.Min();
    hi := n.Max();
    assert n.numbers[1] == 10.0 && n.numbers[2] == 2.0 && n.numbers[1] in n.numbers && n.numbers[2] in n.numbers;
  }

  /** A copy is independent: adding to it leaves the original as it was. */
  method CopyIsIndependent(original: Numera) returns (copy: Numera)
    ensures fresh(copy)
    ensures copy.numbers == original.numbers + [1.0] && original.numbers == old(original.numbers)
  {
    copy := new Numera.Copy(original);
    copy.Add(1.0);
  }
}
