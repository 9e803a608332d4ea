/** The selection statistics of `nr` (Numera/stats/BasicStats.h): extremes,
    median, quartiles, mode, modes and the range (`Scope`). Values are
    `double`s in the source and `real`s here; the mean family is not part
    of this model. */
module BasicStats {
  import opened Wrappers
  import opened Seqs
  import opened Algorithms

  /** The two exceptions the statistics throw: `std::invalid_argument` and `std::logic_error`. */
  datatype StatsError = InvalidArgument | LogicError

  /** The value `std::min_element` points at. */
  function Least(s: seq<real>): (m: real)
    requires s != []
    ensures m in s && forall x :: x in s ==> m <= x
  {
    if |s| == 1 then s[0]
    else
      var m := Least(s[..|s| - 1]);
      assert forall x :: x in s ==> x in s[..|s| - 1] || x == s[|s| - 1];
      if s[|s| - 1] < m then s[|s| - 1] else m
  }

  /** The value `std::max_element` points at. */
  function Greatest(s: seq<real>): (m: real)
    requires s != []
    ensures m in s && forall x :: x in s ==> x <= m
  {
    if |s| == 1 then s[0]
    else
      var m := Greatest(s[..|s| - 1]);
      assert forall x :: x in s ==> x in s[..|s| - 1] || x == s[|s| - 1];
      if m < s[|s| - 1] then s[|s| - 1] else m
  }

  /** `min` over an iterator range or a container: `invalid_argument` when empty. */
  function Min(data: seq<real>): (r: Result<real, StatsError>)
    ensures r.Failure? <==> data == []
    ensures r.Failure? ==> r.error == InvalidArgument
    ensures r.Success? ==> r.value in data && forall x :: x in data ==> r.value <= x
  {
    if data == [] then Failure(InvalidArgument) else Success(Least(data))
  }

  /** `max` over an iterator range or a container: `invalid_argument` when empty. */
  function Max(data: seq<real>): (r: Result<real, StatsError>)
    ensures r.Failure? <==> data == []
    ensures r.Failure? ==> r.error == InvalidArgument
    ensures r.Success? ==> r.value in data && forall x :: x in data ==> x <= r.value
  {
    if data == [] then Failure(InvalidArgument) else Success(Greatest(data))
  }

  /** The least value is the first of the sorted copy. */
  lemma MinIsFirstSorted(data: seq<real>)
    requires data != []
    ensures Min(data) == Success(SortedCopy(data)[0])
  {
    var s := SortedCopy(data);
    var lo := Least(data);
    assert lo in multiset(s);
    SortedBelowAll(s, lo);
    assert s[0] in multiset(data);
    assert s[0] in data;
  }

  /** The greatest value is the last of the sorted copy. */
  lemma MaxIsLastSorted(data: seq<real>)
    requires data != []
    ensures Max(data) == Success(SortedCopy(data)[|data| - 1])
  {
    var s := SortedCopy(data);
    var hi := Greatest(data);
    assert hi in multiset(s);
    SortedBelowAll(s, hi);
    assert s[|s| - 1] in multiset(data);
    assert s[|s| - 1] in data;
  }

  /** The map forms of `min` and `max` throw on an empty map and skip empty
      vectors; a map whose vectors are all empty makes them dereference the
      end of an empty vector, so that case is excluded. */
  predicate SomeValue<K>(data: map<K, seq<real>>)
  {
    data == map[] || exists k :: k in data && data[k] != []
  }

  /** `min` over a map of vectors: the least value of any group. */
  method MinOfGroups<K>(data: map<K, seq<real>>) returns (r: Result<real, StatsError>)
    requires SomeValue(data)
    ensures r.Failure? <==> data == map[]
    ensures r.Failure? ==> r.error == InvalidArgument
    ensures r.Success? ==> (exists k :: k in data && r.value in data[k]) &&
                           forall k, x :: k in data && x in data[k] ==> r.value <= x
  {
    if data == map[] {
      return Failure(InvalidArgument);
    }
    var out: seq<real> := [];
    ghost var from: seq<K> := [];
    var remaining := data.Keys;
    while remaining != {}
      invariant remaining <= data.Keys && |from| == |out|
      invariant forall j :: 0 <= j < |out| ==> from[j] in data && out[j] in data[from[j]]
      invariant forall k :: k in data && k !in remaining && data[k] != [] ==> Least(data[k]) in out
      decreases |remaining|
    {
      var k :| k in remaining;
      if data[k] != [] {
        out := out + [Least(data[k])];
        from := from + [k];
      }
      remaining := remaining - {k};
    }
    var k0 :| k0 in data && data[k0] != [];
    assert Least(data[k0]) in out;
    var m := Least(out);
    var j :| 0 <= j < |out| && out[j] == m;
    assert from[j] in data && m in data[from[j]];
    forall k, x | k in data && x in data[k] ensures m <= x {
      assert Least(data[k]) in out;
    }
    r := Success(m);
  }

  /** `max` over a map of vectors: the greatest value of any group. */
  method MaxOfGroups<K>(data: map<K, seq<real>>) returns (r: Result<real, StatsError>)
    requires SomeValue(data)
    ensures r.Failure? <==> data == map[]
    ensures r.Failure? ==> r.error == InvalidArgument
    ensures r.Success? ==> (exists k :: k in data && r.value in data[k]) &&
                           forall k, x :: k in data && x in data[k] ==> x <= r.value
  {
    if data == map[] {
      return Failure(InvalidArgument);
    }
    var out: seq<real> := [];
    ghost var from: seq<K> := [];
    var remaining := data.Keys;
    while remaining != {}
      invariant remaining <= data.Keys && |from| == |out|
      invariant forall j :: 0 <= j < |out| ==> from[j] in data && out[j] in data[from[j]]
      invariant forall k :: k in data && k !in remaining && data[k] != [] ==> Greatest(data[k]) in out
      decreases |remaining|
    {
      var k :| k in remaining;
      if data[k] != [] {
        out := out + [Greatest(data[k])];
        from := from + [k];
      }
      remaining := remaining - {k};
    }
    var k0 :| k0 in data && data[k0] != [];
    assert Greatest(data[k0]) in out;
    var m := Greatest(out);
    var j :| 0 <= j < |out| && out[j] == m;
    assert from[j] in data && m in data[from[j]];
    forall k, x | k in data && x in data[k] ensures x <= m {
      assert Greatest(data[k]) in out;
    }
    r := Success(m);
  }

  /** The median of a sorted, non-empty sequence: its middle element, or the
      mean of its two middle elements when the length is even. */
  function MiddleOf(sorted: seq<real>): real
    requires sorted != []
  {
    var n := |sorted|;
    if n % 2 == 1 then sorted[n / 2] else (sorted[n / 2 - 1] + sorted[n / 2]) / 2.0
  }

  /** The median splits a sorted sequence: the lower half lies at or below it,
      the upper half at or above it. */
  lemma MedianSplits(s: seq<real>)
    requires s != [] && Sorted(s)
    ensures forall i :: 0 <= i < |s| / 2 ==> s[i] <= MiddleOf(s)
    ensures forall i :: (|s| + 1) / 2 <= i < |s| ==> MiddleOf(s) <= s[i]
    ensures s[0] <= MiddleOf(s) <= s[|s| - 1]
  {
    var n := |s|;
    if n % 2 == 0 {
      assert s[n / 2 - 1] <= s[n / 2];
    }
  }

  /** The median lies between the least and the greatest value. */
  lemma MedianBetweenExtremes(data: seq<real>)
    requires data != []
    ensures Least(data) <= MiddleOf(SortedCopy(data)) <= Greatest(data)
  {
    MinIsFirstSorted(data);
    MaxIsLastSorted(data);
    MedianSplits(SortedCopy(data));
  }

  /** `median` of a container: `value_type{}` (0.0) when empty, else the
      middle of a sorted copy. */
  method Median(data: seq<real>) returns (m: real)
    ensures data == [] ==> m == 0.0
    ensures data != [] ==> m == MiddleOf(SortedCopy(data))
  {
    if data == [] {
      return 0.0;
    }
    var sorted := SortedSeq(data);
    var n := |sorted|;
    if n % 2 == 1 {
      m := sorted[n / 2];
    } else {
      m := (sorted[n / 2 - 1] + sorted[n / 2]) / 2.0;
    }
  }

  /** `median` over an iterator range: `invalid_argument` when empty. */
  method MedianOfRange(data: seq<real>) returns (r: Result<real, StatsError>)
    ensures r.Failure? <==> data == []
    ensures r.Failure? ==> r.error == InvalidArgument
    ensures r.Success? ==> r.value == MiddleOf(SortedCopy(data))
  {
    if data == [] {
      return Failure(InvalidArgument);
    }
    var m := Median(data);
    r := Success(m);
  }

  /** The lower quartile: the median of the `n / 2` smallest values. */
  ghost function LowerQuartileOf(data: seq<real>): (r: Result<real, StatsError>)
    ensures r.Failure? <==> |data| < 2
    ensures data == [] ==> r == Failure(InvalidArgument)
    ensures |data| == 1 ==> r == Failure(LogicError)
  {
    if data == [] then Failure(InvalidArgument)
    else if |data| / 2 == 0 then Failure(LogicError)
    else Success(MiddleOf(SortedCopy(data)[..|data| / 2]))
  }

  /** Where the upper half starts: past the median when the length is odd. */
  function UpperStart(n: nat): nat
  {
    if n % 2 == 0 then n / 2 else n / 2 + 1
  }

  /** The upper quartile: the median of the sorted values from `UpperStart(n)` on. */
  ghost function UpperQuartileOf(data: seq<real>): (r: Result<real, StatsError>)
    ensures r.Failure? <==> |data| < 2
    ensures data == [] ==> r == Failure(InvalidArgument)
    ensures |data| == 1 ==> r == Failure(LogicError)
  {
    if data == [] then Failure(InvalidArgument)
    else if |data| / 2 == 0 then Failure(LogicError)
    else Success(MiddleOf(SortedCopy(data)[UpperStart(|data|)..]))
  }

  /** `lower_quartile` (container and iterator forms). */
  method LowerQuartile(data: seq<real>) returns (r: Result<real, StatsError>)
    ensures r == LowerQuartileOf(data)
  {
    if data == [] {
      return Failure(InvalidArgument);
    }
    var sorted := SortedSeq(data);
    var mid := |sorted| / 2;
    if mid == 0 {
      return Failure(LogicError);
    }
    var lower := sorted[..mid];
    var m := Median(lower);
    SortedSlice(sorted, 0, mid);
    SortedCopyIs(lower, lower);
    r := Success(m);
  }

  /** `upper_quartile` (container and iterator forms). */
  method UpperQuartile(data: seq<real>) returns (r: Result<real, StatsError>)
    ensures r == UpperQuartileOf(data)
  {
    if data == [] {
      return Failure(InvalidArgument);
    }
    var sorted := SortedSeq(data);
    var n := |sorted|;
    var mid := n / 2;
    if mid == 0 {
      return Failure(LogicError);
    }
    var start := if n % 2 == 0 then mid else mid + 1;
    assert start == UpperStart(|data|);
    var upper := sorted[start..];
    var m := Median(upper);
    SortedSlice(sorted, start, n);
    SortedCopyIs(upper, upper);
    assert m == MiddleOf(SortedCopy(data)[UpperStart(|data|)..]);
    r := Success(m);
  }

  /** A slice of a sorted sequence is sorted. */
  lemma SortedSlice(s: seq<real>, i: nat, j: nat)
    requires Sorted(s) && i <= j <= |s|
    ensures Sorted(s[i..j])
  {
    var t := s[i..j];
    forall a, b | 0 <= a < b < |t| ensures t[a] <= t[b] {
      assert t[a] == s[i + a] && t[b] == s[i + b];
    }
  }

  /** Over a sorted sequence of at least two values, the median of the lower
      half, the median and the median of the upper half come in that order. */
  lemma HalvesBracketMiddle(s: seq<real>)
    requires Sorted(s) && 2 <= |s|
    ensures MiddleOf(s[..|s| / 2]) <= MiddleOf(s) <= MiddleOf(s[UpperStart(|s|)..])
  {
    var n, h, u := |s|, |s| / 2, UpperStart(|s|);
    var lower, upper := s[..h], s[u..];
    SortedSlice(s, 0, h);
    SortedSlice(s, u, n);
    MedianSplits(lower);
    MedianSplits(upper);
    MedianSplits(s);
    assert lower[h - 1] == s[h - 1];
    assert upper[0] == s[u];
  }

  /** The quartiles bracket the median: lower quartile <= median <= upper quartile. */
  lemma QuartilesBracketMedian(data: seq<real>)
    requires 2 <= |data|
    ensures LowerQuartileOf(data).value <= MiddleOf(SortedCopy(data)) <= UpperQuartileOf(data).value
  {
    HalvesBracketMiddle(SortedCopy(data));
  }

  /** Both quartiles read off a known sorted copy. */
  lemma QuartilesOfSorted(data: seq<real>, sorted: seq<real>)
    requires 2 <= |data| && SortedCopy(data) == sorted
    ensures LowerQuartileOf(data) == Success(MiddleOf(sorted[..|data| / 2]))
    ensures UpperQuartileOf(data) == Success(MiddleOf(sorted[UpperStart(|data|)..]))
  {
  }

  /** The quartile tests: `{54, 63, 48, 29, 27, 32, 41}` has lower quartile 29
      and upper quartile 54. */
  lemma QuartileExample(data: seq<real>)
    requires data == [54.0, 63.0, 48.0, 29.0, 27.0, 32.0, 41.0]
    ensures LowerQuartileOf(data) == Success(29.0)
    ensures UpperQuartileOf(data) == Success(54.0)
  {
    TestDataPermutation(data);
    SortedTestData(data);
    QuartilesOfSeven(data);
  }

  lemma TestDataPermutation(data: seq<real>)
    requires data == [54.0, 63.0, 48.0, 29.0, 27.0, 32.0, 41.0]
    ensures multiset(data) == multiset([27.0, 29.0, 32.0, 41.0, 48.0, 54.0, 63.0])
  {
  }

  lemma SortedTestData(data: seq<real>)
    requires multiset(data) == multiset([27.0, 29.0, 32.0, 41.0, 48.0, 54.0, 63.0])
    ensures SortedCopy(data) == [27.0, 29.0, 32.0, 41.0, 48.0, 54.0, 63.0]
  {
    SortedCopyIs(data, [27.0, 29.0, 32.0, 41.0, 48.0, 54.0, 63.0]);
  }

  lemma QuartilesOfSeven(data: seq<real>)
    requires |data| == 7 && SortedCopy(data) == [27.0, 29.0, 32.0, 41.0, 48.0, 54.0, 63.0]
    ensures LowerQuartileOf(data) == Success(29.0)
    ensures UpperQuartileOf(data) == Success(54.0)
  {
    QuartilesOfSorted(data, SortedCopy(data));
    assert |data| / 2 == 3 && UpperStart(|data|) == 4;
    SevenSplit(SortedCopy(data));
  }

  lemma SevenSplit(s: seq<real>)
    requires s == [27.0, 29.0, 32.0, 41.0, 48.0, 54.0, 63.0]
    ensures MiddleOf(s[..3]) == 29.0 && MiddleOf(s[4..]) == 54.0
  {
    assert s[..3][1] == s[1];
    assert s[4..][1] == s[5];
  }

  /** How often `v` occurs in `data`. */
  ghost function Occurrences<T>(data: seq<T>, v: T): nat
  {
    multiset(data)[v]
  }

  /** `v` is the one value that occurs more often than any other, and more than once. */
  ghost predicate IsUniqueMode<T>(data: seq<T>, v: T)
  {
    v in data && Occurrences(data, v) > 1 &&
    forall w :: w in data && w != v ==> Occurrences(data, w) < Occurrences(data, v)
  }

  /** `v` occurs more than once and no value occurs more often. */
  ghost predicate IsModal<T>(data: seq<T>, v: T)
  {
    v in data && Occurrences(data, v) > 1 &&
    forall w :: w in data ==> Occurrences(data, w) <= Occurrences(data, v)
  }

  /** The counting loop `++freq[v]` shared by `mode` and `modes`: a key for
      every value of `data`, mapped to how often it occurs. */
  method Frequencies<T(==)>(data: seq<T>) returns (freq: map<T, nat>)
    ensures forall v :: v in freq <==> v in data
    ensures forall v :: v in freq ==> freq[v] == Occurrences(data, v) && freq[v] >= 1
  {
    freq := map[];
    var i := 0;
    while i < |data|
      invariant 0 <= i <= |data|
      invariant forall v :: v in freq <==> v in data[..i]
      invariant forall v :: v in freq ==> freq[v] == multiset(data[..i])[v] && freq[v] >= 1
    {
      var v := data[i];
      assert data[..i + 1] == data[..i] + [v];
      var c := if v in freq then freq[v] else 0;
      freq := freq[v := c + 1];
      i := i + 1;
    }
    assert data[..|data|] == data;
  }

  /** `mode`: the unique most frequent value, or `nullopt` when the data is
      empty, when several values share the highest count or when no value
      repeats. The frequency map is visited in an unspecified order. */
  method Mode<T(==)>(data: seq<T>) returns (r: Option<T>)
    ensures r.Some? ==> IsUniqueMode(data, r.value)
    ensures r.None? ==> forall v :: !IsUniqueMode(data, v)
  {
    if data == [] {
      return None;
    }
    var freq := Frequencies(data);
    var maxCount: nat := 0;
    var result := data[0];  // stands in for `T{}`; the first key visited overwrites it
    var unique := true;
    var remaining := freq.Keys;
    ghost var done: set<T> := {};
    while remaining != {}
      invariant remaining !! done && remaining + done == freq.Keys
      invariant forall k :: k in done ==> freq[k] <= maxCount
      invariant done == {} ==> maxCount == 0
      invariant done != {} ==> result in done && freq[result] == maxCount
      invariant done != {} ==> (unique <==> forall k :: k in done && k != result ==> freq[k] < maxCount)
      decreases |remaining|
    {
      var k :| k in remaining;
      if freq[k] > maxCount {
        maxCount := freq[k];
        result := k;
        unique := true;
      } else if freq[k] == maxCount {
        unique := false;
      }
      remaining := remaining - {k};
      done := done + {k};
    }
    assert data[0] in freq;
    ModeVerdict(data, freq, maxCount, result, unique);
    if !unique || maxCount == 1 {
      return None;
    }
    r := Some(result);
  }

  /** What the visit of the frequency map leaves behind decides the mode. */
  lemma ModeVerdict<T>(data: seq<T>, freq: map<T, nat>, maxCount: nat, result: T, unique: bool)
    requires forall v :: v in freq <==> v in data
    requires forall v :: v in freq ==> freq[v] == Occurrences(data, v) && freq[v] >= 1
    requires result in freq && freq[result] == maxCount
    requires forall k :: k in freq ==> freq[k] <= maxCount
    requires unique <==> forall k :: k in freq && k != result ==> freq[k] < maxCount
    ensures unique && maxCount != 1 ==> IsUniqueMode(data, result)
    ensures !unique || maxCount == 1 ==> forall v :: !IsUniqueMode(data, v)
  {
  }

  /** `modes`: every value that occurs most often, each once, in the order
      the frequency map is visited; empty when no value repeats. */
  method Modes<T(==)>(data: seq<T>) returns (r: seq<T>)
    ensures Distinct(r)
    ensures forall v :: v in r <==> IsModal(data, v)
  {
    if data == [] {
      return [];
    }
    var freq := Frequencies(data);
    var maxCount := HighestCount(freq);
    assert data[0] in freq;
    ModalVerdict(data, freq, maxCount);
    if maxCount <= 1 {
      return [];
    }
    r := KeysWithCount(freq, maxCount);
  }

  /** The first visit of `modes`: the highest count in the frequency map. */
  method HighestCount<T(==)>(freq: map<T, nat>) returns (maxCount: nat)
    ensures forall k :: k in freq ==> freq[k] <= maxCount
    ensures freq != map[] ==> exists k :: k in freq && freq[k] == maxCount
  {
    maxCount := 0;
    var remaining := freq.Keys;
    while remaining != {}
      invariant remaining <= freq.Keys
      invariant forall k :: k in freq.Keys - remaining ==> freq[k] <= maxCount
      invariant remaining == freq.Keys ==> maxCount == 0
      invariant remaining != freq.Keys ==> exists k :: k in freq && freq[k] == maxCount
      decreases |remaining|
    {
      var k :| k in remaining;
      if remaining == freq.Keys || freq[k] >= maxCount {
        assert MaxNat(maxCount, freq[k]) == freq[k];
      }
      maxCount := MaxNat(maxCount, freq[k]);
      remaining := remaining - {k};
    }
  }

  /** The second visit of `modes`: every key whose count is `c`, each once. */
  method KeysWithCount<T(==)>(freq: map<T, nat>, c: nat) returns (r: seq<T>)
    ensures Distinct(r)
    ensures forall v :: v in r <==> v in freq && freq[v] == c
  {
    r := [];
    var remaining := freq.Keys;
    ghost var done: set<T> := {};
    while remaining != {}
      invariant remaining !! done && remaining + done == freq.Keys
      invariant Distinct(r)
      invariant forall v :: v in r <==> v in done && freq[v] == c
      decreases |remaining|
    {
      var k :| k in remaining;
      if freq[k] == c {
        r := r + [k];
      }
      remaining := remaining - {k};
      done := done + {k};
    }
  }

  /** The highest count decides which values are modal. */
  lemma ModalVerdict<T>(data: seq<T>, freq: map<T, nat>, maxCount: nat)
    requires forall v :: v in freq <==> v in data
    requires forall v :: v in freq ==> freq[v] == Occurrences(data, v) && freq[v] >= 1
    requires forall k :: k in freq ==> freq[k] <= maxCount
    requires data != [] ==> exists k :: k in freq && freq[k] == maxCount
    ensures forall v :: IsModal(data, v) <==> v in freq && freq[v] == maxCount && maxCount > 1
  {
    forall v ensures IsModal(data, v) <==> v in freq && freq[v] == maxCount && maxCount > 1 {
      if v in freq && freq[v] == maxCount && maxCount > 1 {
        forall w | w in data ensures Occurrences(data, w) <= Occurrences(data, v) {
          assert w in freq;
        }
      }
      if IsModal(data, v) {
        var k :| k in freq && freq[k] == maxCount;
        assert v in freq && k in data;
      }
    }
  }

  /** The unique mode is the only modal value, and a value that is the only
      modal value is the unique mode: `mode` answers exactly when `modes`
      has one element. */
  lemma UniqueModeIsSoleModal<T>(data: seq<T>, v: T)
    ensures IsUniqueMode(data, v) <==> IsModal(data, v) && forall w :: IsModal(data, w) ==> w == v
  {
    if IsModal(data, v) && forall w :: IsModal(data, w) ==> w == v {
      forall w | w in data && w != v ensures Occurrences(data, w) < Occurrences(data, v) {
        if Occurrences(data, w) == Occurrences(data, v) {
          assert IsModal(data, w);
        }
      }
    }
  }

  /** The mode test on `{1, 2, 2, 3, 4}`: the mode is 2 and so are the modes. */
  method ModeOfSingleRepeat(a: seq<int>) returns (m: Option<int>, ms: seq<int>)
    requires a == [1, 2, 2, 3, 4]
    ensures m == Some(2) && ms == [2]
  {
    CountsOfA(a);
    m := Mode(a);
    ms := Modes(a);
    assert IsUniqueMode(a, 2);
    OnlyOne(ms, 2);
  }

  /** The mode test on `{1, 2, 3, 4, 5}`: no value repeats, so neither a mode nor modes. */
  method ModeOfNoRepeat(b: seq<int>) returns (m: Option<int>, ms: seq<int>)
    requires b == [1, 2, 3, 4, 5]
    ensures m == None && ms == []
  {
    CountsOfB(b);
    m := Mode(b);
    ms := Modes(b);
    if ms != [] {
      HeadIn(ms);
      assert false;
    }
  }

  /** The mode test on `{1, 1, 2, 2, 3}`: a tie, so no mode, and the modes 1 and 2 in either order. */
  method ModeOfTie(c: seq<int>) returns (m: Option<int>, ms: seq<int>)
    requires c == [1, 1, 2, 2, 3]
    ensures m == None && (ms == [1, 2] || ms == [2, 1])
  {
    CountsOfC(c);
    m := Mode(c);
    ms := Modes(c);
    assert IsModal(c, 1) && IsModal(c, 2);
    OnlyTwo(ms, 1, 2);
  }

  lemma CountsOfA(a: seq<int>)
    requires a == [1, 2, 2, 3, 4]
    ensures Occurrences(a, 2) == 2 && forall v :: v in a && v != 2 ==> Occurrences(a, v) == 1
  {
    assert multiset(a) == multiset{1, 2, 2, 3, 4};
  }

  lemma CountsOfB(b: seq<int>)
    requires b == [1, 2, 3, 4, 5]
    ensures forall v :: v in b ==> Occurrences(b, v) == 1
  {
    assert multiset(b) == multiset{1, 2, 3, 4, 5};
  }

  lemma CountsOfC(c: seq<int>)
    requires c == [1, 1, 2, 2, 3]
    ensures Occurrences(c, 1) == 2 && Occurrences(c, 2) == 2 && Occurrences(c, 3) == 1
    ensures forall v :: v in c ==> v == 1 || v == 2 || v == 3
  {
    assert multiset(c) == multiset{1, 1, 2, 2, 3};
  }

  /** A sequence without repetitions whose only element is `x` is `[x]`. */
  lemma OnlyOne<T>(s: seq<T>, x: T)
    requires Distinct(s) && forall v :: v in s <==> v == x
    ensures s == [x]
  {
    assert x in s;
    if |s| > 1 {
      FirstThreeDiffer(s);
      assert false;
    }
  }

  /** A sequence without repetitions whose elements are exactly `x` and `y` lists both once. */
  lemma OnlyTwo<T>(s: seq<T>, x: T, y: T)
    requires x != y && Distinct(s) && forall v :: v in s <==> v == x || v == y
    ensures s == [x, y] || s == [y, x]
  {
    assert x in s && y in s;
    if |s| > 2 {
      FirstThreeDiffer(s);
      assert false;
    }
  }

  lemma HeadIn<T>(s: seq<T>)
    requires s != []
    ensures s[0] in s
  {
  }

  lemma FirstThreeDiffer<T>(s: seq<T>)
    requires Distinct(s) && 1 < |s|
    ensures s[0] != s[1] && s[0] in s && s[1] in s
    ensures 2 < |s| ==> s[0] != s[2] && s[1] != s[2] && s[2] in s
  {
  }

  /** `Scope`: `max - min`, which throws on empty data like both of them. */
  function Scope(data: seq<real>): (r: Result<real, StatsError>)
    ensures r.Failure? <==> data == []
  {
    if data == [] then Failure(InvalidArgument)
    else Success(Max(data).value - Min(data).value)
  }

  /** The range is the largest difference between two values, so it is never negative. */
  lemma ScopeIsLargestGap(data: seq<real>)
    requires data != []
    ensures 0.0 <= Scope(data).value
    ensures forall x, y :: x in data && y in data ==> x - y <= Scope(data).value
    ensures exists x, y :: x in data && y in data && x - y == Scope(data).value
  {
    var hi, lo := Max(data).value, Min(data).value;
    assert hi in data && lo in data && hi - lo == Scope(data).value;
  }
}
