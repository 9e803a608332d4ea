/** `VectorData<T>` (Numera/Core/VectorData.h): a data set over a
    `std::vector<T>` field `vec` that its methods change in place. */
module VectorDataCore {
  import opened Wrappers
  import opened Seqs
  import opened NumericSampleCore

  class VectorData<T> {
    var vec: seq<T>

    constructor ()
      ensures vec == []
    {
      vec := [];
    }

    /** `VectorData(container_type vec)`. */
    constructor FromVector(v: seq<T>)
      ensures vec == v
    {
      vec := v;
    }

    /** `operator[]`, read: unchecked. */
    method Get(index: nat) returns (x: T)
      requires index < |vec|
      ensures x == vec[index]
    {
      x := vec[index];
    }

    /** `operator[]`, written through the returned reference. */
    method Set(index: nat, x: T)
      requires index < |vec|
      modifies this
      ensures vec == old(vec)[index := x]
    {
      vec := vec[index := x];
    }

    method Add(element: T)
      modifies this
      ensures vec == old(vec) + [element]
    {
      vec := vec + [element];
    }

    /** `add(container_type)`: `vec.insert(vec.end(), …)`. */
    method AddAll(elements: seq<T>)
      modifies this
      ensures vec == old(vec) + elements
    {
      vec := vec + elements;
    }

    method RemoveAt(index: nat)
      requires index < |vec|
      modifies this
      ensures vec == Erase(old(vec), index)
    {
      vec := vec[..index] + vec[index + 1..];
    }

    /** `at`: bounds-checked. */
    method At(index: nat) returns (r: Result<T, AccessError>)
      ensures index < |vec| ==> r == Success(vec[index])
      ensures index >= |vec| ==> r == Failure(OutOfRange)
    {
      if index < |vec| {
        r := Success(vec[index]);
      } else {
        r := Failure(OutOfRange);
      }
    }

    method Size() returns (n: nat)
      ensures n == |vec|
    {
      n := |vec|;
    }

    method Clear()
      modifies this
      ensures vec == []
    {
      vec := [];
    }

    method Empty() returns (e: bool)
      ensures e <==> |vec| == 0
    {
      e := vec == [];
    }
  }
}
