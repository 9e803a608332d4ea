/** `nr::CSVDataStore` (Numera/Core/CsvData.h): an ordered map from a key to
    a vector of values. Keys are `std::string`s ordered as `std::map` orders
    them, values are `double`s. An iterator into the map is modelled by the
    key it points at, or by the end position. */
module CsvData {
  import opened Wrappers
  import BasicStats
  import NumericSampleCore

  /** `std::string`'s `operator<`: lexicographic, a proper prefix first. */
  predicate KeyLess(a: string, b: string)
  {
    if b == [] then false
    else if a == [] then true
    else if a[0] != b[0] then a[0] < b[0]
    else KeyLess(a[1..], b[1..])
  }

  /** No key is less than itself. */
  lemma {:induction false} KeyLessIrreflexive(a: string)
    ensures !KeyLess(a, a)
  {
    if a != [] {
      KeyLessIrreflexive(a[1..]);
    }
  }

  /** Of two different keys exactly one is the lesser. */
  lemma {:induction false} KeyLessTotal(a: string, b: string)
    requires a != b
    ensures KeyLess(a, b) != KeyLess(b, a)
  {
    if a != [] && b != [] && a[0] == b[0] {
      assert a == [a[0]] + a[1..] && b == [b[0]] + b[1..];
      KeyLessTotal(a[1..], b[1..]);
    }
  }

  /** A position in the map: at a key, or past the last key. */
  datatype Cursor = At(key: string) | End

  /** Whether `k` lies in the half-open range `[first, last)` of the key order. */
  predicate InSpan(k: string, first: Cursor, last: Cursor)
  {
    first.At? && !KeyLess(k, first.key) && (last.End? || KeyLess(k, last.key))
  }

  /** The map an initializer list builds: each pair inserted in turn, so a
      later pair with the same key replaces an earlier one. */
  function FromPairs(init: seq<(string, seq<real>)>): map<string, seq<real>>
  {
    if init == [] then map[]
    else
      var n := |init| - 1;
      FromPairs(init[..n])[init[n].0 := init[n].1]
  }

  /** The keys of the built map are exactly the keys of the list. */
  lemma {:induction false} FromPairsKeys(init: seq<(string, seq<real>)>, k: string)
    ensures k in FromPairs(init) <==> exists i :: 0 <= i < |init| && init[i].0 == k
  {
    if init != [] {
      var n := |init| - 1;
      FromPairsKeys(init[..n], k);
      if exists i :: 0 <= i < |init| && init[i].0 == k {
        var i :| 0 <= i < |init| && init[i].0 == k;
        if i < n {
          assert init[..n][i].0 == k;
        }
      }
    }
  }

  /** A key is bound to the vector of the last pair that carries it. */
  lemma {:induction false} FromPairsLastWins(init: seq<(string, seq<real>)>, i: nat)
    requires i < |init| && forall j :: i < j < |init| ==> init[j].0 != init[i].0
    ensures init[i].0 in FromPairs(init) && FromPairs(init)[init[i].0] == init[i].1
  {
    var n := |init| - 1;
    if i < n {
      assert init[..n][i] == init[i];
      FromPairsLastWins(init[..n], i);
    }
  }

  class CSVDataStore {
    var container: map<string, seq<real>>

    /** The default constructor: no keys. */
    constructor()
      ensures container == map[]
    {
      container := map[];
    }

    /** The constructor from a `std::map`: a copy of it. */
    constructor FromMap(data: map<string, seq<real>>)
      ensures container == data
    {
      container := data;
    }

    /** The initializer-list constructor: `container[key] = vec` for every pair. */
    constructor FromList(init: seq<(string, seq<real>)>)
      ensures container == FromPairs(init)
    {
      container := map[];
      new;
      InsertPairs(init);
    }

    /** The initializer-list assignment: clear, then `container[key] = vec` for every pair. */
    method Assign(init: seq<(string, seq<real>)>)
      modifies this
      ensures container == FromPairs(init)
    {
      container := map[];
      InsertPairs(init);
    }

    /** The loop both initializer-list members share, from an empty map. */
    method InsertPairs(init: seq<(string, seq<real>)>)
      requires container == map[]
      modifies this
      ensures container == FromPairs(init)
    {
      var i := 0;
      while i < |init|
        invariant 0 <= i <= |init|
        invariant container == FromPairs(init[..i])
      {
        assert init[..i + 1][..i] == init[..i];
        container := container[init[i].0 := init[i].1];
        i := i + 1;
      }
      assert init[..i] == init;
    }

    /** Non-const `operator[]`: the key's vector, after inserting an empty
        one when the key is missing. */
    method Index(key: string) returns (v: seq<real>)
      modifies this
      ensures key in old(container) ==> container == old(container) && v == old(container)[key]
      ensures key !in old(container) ==> container == old(container)[key := []] && v == []
    {
      if key !in container {
        container := container[key := []];
      }
      v := container[key];
    }

    /** A write through the reference non-const `operator[]` returns,
        `store[key] = vec`: the key, inserted when missing, now maps to `vec`
        and every other key keeps its vector. */
    method IndexAssign(key: string, vec: seq<real>)
      modifies this
      ensures container == old(container)[key := vec]
      ensures At(key) == Success(vec)
      ensures forall k :: k != key ==> At(k) == old(At(k))
    {
      var _ := Index(key);
      container := container[key := vec];
    }

    /** `at(key)` and const `operator[]`: the key's vector, or
        `std::out_of_range` when the key is missing. Nothing is inserted. */
    function At(key: string): (r: Result<seq<real>, NumericSampleCore.AccessError>)
      reads this
      ensures r.Success? <==> key in container
      ensures r.Success? ==> r.value == container[key]
    {
      if key in container then Success(container[key]) else Failure(NumericSampleCore.OutOfRange)
    }

    /** `add(key, value)`: `container[key].push_back(value)`, which creates the
        key with an empty vector first when it is missing. */
    method Add(key: string, value: real)
      modifies this
      ensures container == old(container)[key := (if key in old(container) then old(container)[key] else []) + [value]]
    {
      var vec := if key in container then container[key] else [];
      container := container[key := vec + [value]];
    }

    /** `size()`: the number of keys, not of values. */
    function Size(): (n: nat)
      reads this
      ensures n == |container.Keys|
    {
      |container|
    }

    method Clear()
      modifies this
      ensures container == map[]
    {
      container := map[];
    }

    /** `empty()`: no keys. */
    function Empty(): (e: bool)
      reads this
      ensures e <==> Size() == 0
    {
      container == map[]
    }

    /** `remove_at(key)`: `erase(key)`, which does nothing for a missing key. */
    method RemoveKey(key: string)
      modifies this
      ensures container == old(container) - {key}
    {
      container := container - {key};
    }

    /** `remove_at(it)`: `erase(it)`, which needs an iterator at an element. */
    method RemoveAtCursor(it: Cursor)
      requires it.At? && it.key in container
      modifies this
      ensures container == old(container) - {it.key}
    {
      container := container - {it.key};
    }

    /** `remove_at(it_begin, it_end)`: `erase` of the half-open range, which
        needs valid iterators with the first not after the second. */
    method RemoveRange(first: Cursor, last: Cursor)
      requires first.At? ==> first.key in container
      requires last.At? ==> last.key in container
      requires first.End? ==> last.End?
      requires first.At? && last.At? ==> !KeyLess(last.key, first.key)
      modifies this
      ensures forall k :: k in container <==> k in old(container) && !InSpan(k, first, last)
      ensures forall k :: k in container ==> container[k] == old(container)[k]
    {
      container := map k | k in container && !InSpan(k, first, last) :: container[k];
    }

    /** `min()`: the least value of any vector; `invalid_argument` with no keys. */
    method Min() returns (r: Result<real, BasicStats.StatsError>)
      requires BasicStats.SomeValue(container)
      ensures r.Failure? <==> container == map[]
      ensures r.Failure? ==> r.error == BasicStats.InvalidArgument
      ensures r.Success? ==> (exists k :: k in container && r.value in container[k]) &&
                             forall k, x :: k in container && x in container[k] ==> r.value <= x
    {
      r := BasicStats.MinOfGroups(container);
    }

    /** `max()`: the greatest value of any vector; `invalid_argument` with no keys. */
    method Max() returns (r: Result<real, BasicStats.StatsError>)
      requires BasicStats.SomeValue(container)
      ensures r.Failure? <==> container == map[]
      ensures r.Failure? ==> r.error == BasicStats.InvalidArgument
      ensures r.Success? ==> (exists k :: k in container && r.value in container[k]) &&
                             forall k, x :: k in container && x in container[k] ==> x <= r.value
    {
      r := BasicStats.MaxOfGroups(container);
    }

    /** `mean()`: a stub that returns 1. */
    function Mean(): (r: real)
      ensures r == 1.0
    {
      1.0
    }

    /** `median()`: a stub that returns 1. */
    function Median(): (r: real)
      ensures r == 1.0
    {
      1.0
    }
  }

  /** The `add` test: two values under "x" and one under "y" make two keys. */
  method AddExample() returns (s: CSVDataStore)
    ensures s.Size() == 2
    ensures "x" in s.container && s.container["x"] == [10.0, 20.0]
    ensures "y" in s.container && s.container["y"] == [5.5]
  {
    s := new CSVDataStore();
    s.Add("x", 10.0);
    s.Add("x", 20.0);
    s.Add("y", 5.5);
    assert s.container.Keys == {"x", "y"};
  }

  /** The range-removal test: erasing from "A" up to, not including, "C"
      leaves only "C". */
  method RemoveRangeExample() returns (s: CSVDataStore)
    ensures s.container == map["C" := [3.0]]
  {
    s := new CSVDataStore();
    s.Add("A", 1.0);
    s.Add("B", 2.0);
    s.Add("C", 3.0);
    assert KeyLess("A", "C") && KeyLess("A", "B") && KeyLess("B", "C");
    KeyLessIrreflexive("A");
    KeyLessIrreflexive("C");
    assert !KeyLess("B", "A") && !KeyLess("C", "A");
    assert s.container["C"] == [3.0];
    s.RemoveRange(At("A"), At("C"));
    assert InSpan("A", At("A"), At("C")) && InSpan("B", At("A"), At("C"));
    assert !InSpan("C", At("A"), At("C"));
    assert s.container.Keys == {"C"} && s.container["C"] == [3.0];
  }

  /** The extremes test: `{"hello": {1, 2, 3}, "hi": {0, 4, 5}}` has minimum 0 and maximum 5. */
  method ExtremesExample() returns (lo: Result<real, BasicStats.StatsError>, hi: Result<real, BasicStats.StatsError>)
    ensures lo == Success(0.0) && hi == Success(5.0)
  {
    var m := map["hello" := [1.0, 2.0, 3.0], "hi" := [0.0, 4.0, 5.0]];
    var s := new CSVDataStore.FromMap(m);
    ExampleBounds(m);
    lo := s.Min();
    hi := s.Max();
    assert m["hi"][0] in m["hi"] && m["hi"][2] in m["hi"];
    var k :| k in m && lo.value in m[k];
    var j :| j in m && hi.value in m[j];
  }

  lemma ExampleBounds(m: map<string, seq<real>>)
    requires m == map["hello" := [1.0, 2.0, 3.0], "hi" := [0.0, 4.0, 5.0]]
    ensures "hi" in m && m["hi"][0] == 0.0 && m["hi"][2] == 5.0
    ensures forall k, x :: k in m && x in m[k] ==> 0.0 <= x <= 5.0
  {
  }
}
