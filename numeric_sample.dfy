/** `NumericSample<T>` (Numera/Core/NumericSample.h): a one-dimensional data
    set that owns a `std::vector<T>` and forwards the container operations to it. */
module NumericSampleCore {
  import opened Wrappers
  import opened Seqs

  /** What `std::vector::at` throws on a bad index. */
  datatype AccessError = OutOfRange

  class NumericSample<T> {
    var container: seq<T>

    constructor ()
      ensures container == []
    {
      container := [];
    }

    /** `explicit NumericSample(container_type vec)`. */
    constructor FromVector(vec: seq<T>)
      ensures container == vec
    {
      container := vec;
    }

    /** The copy constructor: an independent copy of the other sample's elements. */
    constructor Copy(other: NumericSample<T>)
      ensures container == other.container
    {
      container := other.container;
    }

    /** The iterator-range constructor: `std::copy` of `[begin, end)` onto the
        back of an empty vector. */
    constructor FromRange(src: array<T>, begin: nat, end: nat)
      requires begin <= end <= src.Length
      ensures container == src[begin..end]
    {
      var copied := [];
      var i := begin;
      while i < end
        invariant begin <= i <= end
        invariant copied == src[begin..i]
      {
        copied := copied + [src[i]];
        i := i + 1;
      }
      container := copied;
    }

    /** `operator[]`, read: unchecked, so the index must be in range. */
    method Get(index: nat) returns (x: T)
      requires index < |container|
      ensures x == container[index]
    {
      x := container[index];
    }

    /** `operator[]`, written through the returned reference. */
    method Set(index: nat, x: T)
      requires index < |container|
      modifies this
      ensures container == old(container)[index := x]
    {
      container := container[index := x];
    }

    method PushBack(value: T)
      modifies this
      ensures container == old(container) + [value]
    {
      container := container + [value];
    }

    method Add(element: T)
      modifies this
      ensures container == old(container) + [element]
    {
      container := container + [element];
    }

    /** `add(container_type)`: every element appended, in order. */
    method AddAll(elements: seq<T>)
      modifies this
      ensures container == old(container) + elements
    {
      container := container + elements;
    }

    /** `erase(begin() + index)`; an index past the end is undefined behaviour. */
    method RemoveAt(index: nat)
      requires index < |container|
      modifies this
      ensures container == Erase(old(container), index)
    {
      container := container[..index] + container[index + 1..];
    }

    /** `at`: bounds-checked. */
    method At(index: nat) returns (r: Result<T, AccessError>)
      ensures index < |container| ==> r == Success(container[index])
      ensures index >= |container| ==> r == Failure(OutOfRange)
    {
      if index < |container| {
        r := Success(container[index]);
      } else {
        r := Failure(OutOfRange);
      }
    }

    method Size() returns (n: nat)
      ensures n == |container|
    {
      n := |container|;
    }

    method Clear()
      modifies this
      ensures container == []
    {
      container := [];
    }

    method Empty() returns (e: bool)
      ensures e <==> |container| == 0
    {
      e := container == [];
    }

    /** `front`: undefined on an empty sample. */
    method Front() returns (x: T)
      requires container != []
      ensures x == container[0]
    {
      x := container[0];
    }

    /** `back`: undefined on an empty sample. */
    method Back() returns (x: T)
      requires container != []
      ensures x == container[|container| - 1]
    {
      x := container[|container| - 1];
    }
  }

  /** The removal in the tests: `{1, 2, 3}` without index 1 is `{1, 3}`. */
  lemma RemoveMiddle()
    ensures Erase([1.0, 2.0, 3.0], 1) == [1.0, 3.0]
  {
    assert Erase([1.0, 2.0, 3.0], 1)[1] == 3.0;
  }
}
