/** `nr::ProbabilitySampling` (Numera/stats/ProbabilitySampling.h): simple
    random, systematic and stratified sampling, over a vector and over a
    `NumericSample`. The generator is not modelled: which positions a draw
    keeps, how a shuffle permutes and where the systematic walk starts are
    choices the verifier must accept whatever they are. */
module ProbabilitySampling {
  import opened Wrappers
  import opened Seqs
  import opened Algorithms
  import opened Strata
  import opened Apportionment
  import opened NumericSampleCore
  import opened Arith
  import opened SizeT

  /** The failures the samplers can run into: `reserve((n + step - 1) / step)`
      with `step == 0`, and the `std::length_error` of a `reserve` beyond
      `max_size()`. */
  datatype SamplingError = DivisionByZero | LengthError

  /** Every `stride`-th element of `s`, from position `start` on. */
  function Strided<T>(s: seq<T>, start: nat, stride: nat): seq<T>
    requires stride > 0
    decreases |s| - start
  {
    if start >= |s| then [] else [s[start]] + Strided(s, start + stride, stride)
  }

  /** A walk from `start` with stride `stride` visits `ceil((|s| - start) / stride)` positions. */
  lemma {:induction false} StridedLength<T>(s: seq<T>, start: nat, stride: nat)
    requires stride > 0
    ensures |Strided(s, start, stride)| == if start < |s| then (|s| - start + stride - 1) / stride else 0
    decreases |s| - start
  {
    if start < |s| {
      StridedLength(s, start + stride, stride);
      var x := |s| - start - 1;
      if start + stride < |s| {
        assert |s| - (start + stride) + stride - 1 == x;
        DivShift(x, stride);
      } else {
        DivExact(x + stride, stride, 1);
      }
    }
  }

  /** Element `j` of the walk is `s[start + j * stride]`. */
  lemma {:induction false} StridedAt<T>(s: seq<T>, start: nat, stride: nat, j: nat)
    requires stride > 0 && j < |Strided(s, start, stride)|
    ensures start + j * stride < |s| && Strided(s, start, stride)[j] == s[start + j * stride]
    decreases |s| - start
  {
    if j > 0 {
      StridedAt(s, start + stride, stride, j - 1);
      assert start + stride + (j - 1) * stride == start + j * stride;
    }
  }

  /** A walk over a sorted sequence is sorted. */
  lemma StridedSorted(s: seq<real>, start: nat, stride: nat)
    requires stride > 0 && Sorted(s)
    ensures Sorted(Strided(s, start, stride))
  {
    var w := Strided(s, start, stride);
    forall i, j | 0 <= i < j < |w| ensures w[i] <= w[j] {
      StridedAt(s, start, stride, i);
      StridedAt(s, start, stride, j);
      MulLess(i, j, stride);
    }
  }

  /** `simple_random`: `std::sample` of `min(sampleSize, n)` positions, then a
      shuffle of what was drawn. */
  method SimpleRandom<T>(data: seq<T>, sampleSize: nat) returns (out: seq<T>, ghost mask: seq<bool>)
    ensures sampleSize == 0 || data == [] ==> out == []
    ensures sampleSize > 0 && data != [] ==>
      |mask| == |data| && CountTrue(mask) == MinNat(sampleSize, |data|) && multiset(out) == multiset(Keep(data, mask))
  {
    if sampleSize == 0 || data == [] {
      return [], [];
    }
    var size := MinNat(sampleSize, |data|);
    var picked;
    picked, mask := Sample(data, size);
    out := ShuffleSeq(picked);
  }

  /** A shuffled draw has the drawn size and takes no element more often than `data` holds it. */
  lemma ShuffledDraw<T>(data: seq<T>, mask: seq<bool>, out: seq<T>)
    requires |mask| == |data| && multiset(out) == multiset(Keep(data, mask))
    ensures |out| == CountTrue(mask)
    ensures multiset(out) <= multiset(data)
  {
    assert |out| == |multiset(out)| == |multiset(Keep(data, mask))| == |Keep(data, mask)|;
    KeepSubMultiset(data, mask);
  }

  /** What a systematic walk over `population` returns: the start lies in
      the range the source draws it from, the walk divides by zero exactly
      when `sample` exceeds the population, and otherwise the result is the
      walk from `start` with stride `step + 1`. */
  ghost predicate WalkFrom<T>(population: seq<T>, sample: nat, start: nat, r: Result<seq<T>, SamplingError>)
    requires sample > 0
  {
    var step := |population| / sample;
    (step > 1 ==> start <= MinNat(step, |population|) - 1) && (step <= 1 ==> start == 0) &&
    (sample > |population| <==> r.Failure?) &&
    (r.Success? ==> r.value == Strided(population, start, step + 1))
  }

  /** The walk shared by both `systematic` overloads, over the population
      (a copy of the data, sorted or not): `step = n / sample`, a start in
      `[0, min(step, n) - 1]` when `step > 1`, and a loop that does `i++`
      inside `population[i++]` as well as `i += step`, so the stride is `step + 1`. */
  method SystematicWalk<T>(population: seq<T>, sample: nat) returns (r: Result<seq<T>, SamplingError>, ghost start: nat)
    requires population != [] && sample > 0
    ensures WalkFrom(population, sample, start, r)
  {
    var n := |population|;
    var first := 0;
    var step := n / sample;
    if step > 1 {
      first :| 0 <= first <= MinNat(step, n) - 1;
    }
    start := first;
    DivZero(n, sample);
    if step == 0 {
      return Failure(DivisionByZero), start;
    }
    var out := Walk(population, first, step);
    r := Success(out);
  }

  /** The loop of the walk: `out.push_back(population[i++])`, then `i += step`. */
  method Walk<T>(population: seq<T>, first: nat, step: nat) returns (out: seq<T>)
    ensures out == Strided(population, first, step + 1)
  {
    out := [];
    var i := first;
    while i < |population|
      invariant out + Strided(population, i, step + 1) == Strided(population, first, step + 1)
      decreases |population| - i
    {
      assert Strided(population, i, step + 1) == [population[i]] + Strided(population, i + step + 1, step + 1);
      out := out + [population[i]];
      i := i + 1;
      i := i + step;
    }
  }

  /** `systematic` over a vector: the walk over an unsorted copy. */
  method Systematic<T>(data: seq<T>, sample: nat) returns (r: Result<seq<T>, SamplingError>, ghost start: nat)
    ensures data == [] || sample == 0 ==> r == Success([])
    ensures data != [] && sample > 0 ==> WalkFrom(data, sample, start, r)
  {
    if data == [] || sample == 0 {
      return Success([]), 0;
    }
    r, start := SystematicWalk(data, sample);
  }

  /** The systematic test: 15 elements and `sample = 4` give `step = 3`, a
      start in `{0, 1, 2}` and 4 elements whatever the start. */
  lemma SystematicFifteenByFour<T>(data: seq<T>, start: nat)
    requires |data| == 15 && start <= |data| / 4 - 1
    ensures |Strided(data, start, |data| / 4 + 1)| == 4
  {
    StridedLength(data, start, 4);
  }

  /** A walk over a sorted population is sorted. */
  lemma SortedWalk(population: seq<real>, sample: nat, start: nat, r: Result<seq<real>, SamplingError>)
    requires sample > 0 && Sorted(population) && WalkFrom(population, sample, start, r)
    ensures r.Success? ==> Sorted(r.value)
  {
    if r.Success? {
      StridedSorted(population, start, |population| / sample + 1);
    }
  }

  /** `systematic` over a `NumericSample`: the walk over a sorted copy, so
      the result is non-decreasing. */
  method SystematicSorted(data: NumericSample<real>, sample: nat) returns (r: Result<seq<real>, SamplingError>, ghost start: nat)
    ensures data.container == [] || sample == 0 ==> r == Success([])
    ensures data.container != [] && sample > 0 ==>
      WalkFrom(SortedCopy(data.container), sample, start, r) && (r.Success? ==> Sorted(r.value))
  {
    if data.container == [] || sample == 0 {
      return Success([]), 0;
    }
    var population := SortedSeq(data.container);
    r, start := SystematicWalk(population, sample);
    SortedWalk(population, sample, start, r);
  }

  /** `simple_random` over a `NumericSample`: the same draw over its elements. */
  method SimpleRandomSample<T>(data: NumericSample<T>, sampleSize: nat) returns (out: seq<T>, ghost mask: seq<bool>)
    ensures sampleSize == 0 || data.container == [] ==> out == []
    ensures sampleSize > 0 && data.container != [] ==>
      |mask| == |data.container| && CountTrue(mask) == MinNat(sampleSize, |data.container|) &&
      multiset(out) == multiset(Keep(data.container, mask))
  {
    out, mask := SimpleRandom(data.container, sampleSize);
  }

  /** What a stratified draw promises once the guard has passed: `strata`
      enumerates the label groups, `finalK` holds the apportioned quotas,
      every group gives `min(quota, |group|)` of its own positions, and the
      output is a shuffle of the values at the chosen positions. */
  ghost predicate StratifiedDraw<T>(data: seq<T>, labels: seq<nat>, t: nat, out: seq<T>,
                                    strata: seq<Stratum>, finalK: map<nat, nat>, bumped: set<nat>, masks: seq<seq<bool>>)
  {
    0 < |data| && |labels| == |data| &&
    GroupsOf(labels, strata) && Apportioned(strata, |data|, t, finalK, bumped) &&
    MasksFit(strata, masks) &&
    (forall k :: 0 <= k < |strata| ==> CountTrue(masks[k]) == MinNat(finalK[strata[k].mark], |strata[k].idxs|)) &&
    InRange(Chosen(strata, masks), |data|) &&
    multiset(out) == multiset(Gather(data, Chosen(strata, masks)))
  }

  /** `stratified`: group the positions by label, apportion `sampleSize`
      over the groups, reserve `sampleSize` places in the output vector of
      `double`s (which throws beyond its `max_size()`), draw each group's
      capped quota, shuffle. */
  method Stratified<T>(data: seq<T>, labels: seq<nat>, sampleSize: nat)
    returns (r: Result<seq<T>, SamplingError>, ghost strata: seq<Stratum>, ghost finalK: map<nat, nat>, ghost bumped: set<nat>, ghost masks: seq<seq<bool>>)
    ensures data == [] || |labels| != |data| || sampleSize == 0 ==> r == Success([])
    ensures data != [] && |labels| == |data| && sampleSize > 0 ==>
      (r.Failure? <==> sampleSize > DoubleVectorMax) && (r.Failure? ==> r.error == LengthError) &&
      (r.Success? ==> StratifiedDraw(data, labels, sampleSize, r.value, strata, finalK, bumped, masks))
  {
    if data == [] || |labels| != |data| || sampleSize == 0 {
      return Success([]), [], map[], {}, [];
    }
    var groups := Group(labels);
    GroupSizesSum(labels, groups);
    assert labels[0] in LabelSeq(groups);
    var quota;
    quota, bumped := Apportion(groups, |data|, sampleSize);
    strata, finalK := groups, quota;
    if sampleSize > DoubleVectorMax {
      return Failure(LengthError), strata, finalK, bumped, [];
    }
    forall k | 0 <= k < |groups| ensures InRange(groups[k].idxs, |data|) {
      GroupNonEmpty(labels, groups, k);
    }
    var drawn;
    drawn, masks := DrawFromStrata(data, groups, Quotas(groups, quota));
    var out := ShuffleSeq(drawn);
    r := Success(out);
  }

  /** `stratified` over a `NumericSample`: the same algorithm over its elements. */
  method StratifiedSample<T>(data: NumericSample<T>, labels: seq<nat>, sampleSize: nat)
    returns (r: Result<seq<T>, SamplingError>, ghost strata: seq<Stratum>, ghost finalK: map<nat, nat>, ghost bumped: set<nat>, ghost masks: seq<seq<bool>>)
    ensures data.container == [] || |labels| != |data.container| || sampleSize == 0 ==> r == Success([])
    ensures data.container != [] && |labels| == |data.container| && sampleSize > 0 ==>
      (r.Failure? <==> sampleSize > DoubleVectorMax) && (r.Failure? ==> r.error == LengthError) &&
      (r.Success? ==> StratifiedDraw(data.container, labels, sampleSize, r.value, strata, finalK, bumped, masks))
  {
    r, strata, finalK, bumped, masks := Stratified(data.container, labels, sampleSize);
  }

  /** A stratified draw yields each group's capped quota, takes no position
      twice, and every value it yields is a value of the data. */
  lemma StratifiedSize<T>(data: seq<T>, labels: seq<nat>, t: nat, out: seq<T>,
                          strata: seq<Stratum>, finalK: map<nat, nat>, bumped: set<nat>, masks: seq<seq<bool>>)
    requires StratifiedDraw(data, labels, t, out, strata, finalK, bumped, masks)
    ensures |out| == CappedTotal(strata, Quotas(strata, finalK))
    ensures Distinct(Chosen(strata, masks))
    ensures forall x :: x in out ==> x in data
  {
    var chosen := Chosen(strata, masks);
    var drawn := Gather(data, chosen);
    ChosenSize(strata, Quotas(strata, finalK), masks);
    ChosenDistinct(labels, strata, masks);
    assert |out| == |multiset(out)| == |multiset(drawn)| == |drawn|;
    forall x | x in out ensures x in data {
      assert x in multiset(drawn);
      var i :| 0 <= i < |drawn| && drawn[i] == x;
      assert data[chosen[i]] == x;
    }
  }

  /** The draw has exactly the requested size when the request is at most
      the population and every group is large enough for its share
      `|group| * t / n` to reach one element. */
  lemma StratifiedExact<T>(data: seq<T>, labels: seq<nat>, t: nat, out: seq<T>,
                           strata: seq<Stratum>, finalK: map<nat, nat>, bumped: set<nat>, masks: seq<seq<bool>>)
    requires StratifiedDraw(data, labels, t, out, strata, finalK, bumped, masks)
    requires t <= |data|
    requires forall k :: 0 <= k < |strata| ==> |data| <= |strata[k].idxs| * t
    ensures |out| == t
  {
    StratifiedSize(data, labels, t, out, strata, finalK, bumped, masks);
    GroupSizesSum(labels, strata);
    ExactSize(strata, |data|, t, finalK, bumped);
  }

  /** Every group of the test labels has at least three positions. */
  lemma TestGroupsLarge(strata: seq<Stratum>, k: nat)
    requires GroupsOf(TestLabels(), strata) && k < |strata|
    ensures 3 <= |strata[k].idxs|
  {
    var labels := TestLabels();
    var l := strata[k].mark;
    var p :| 0 <= p < |labels| && labels[p] == l;
    if p < 4 {
      ThreeOf(labels, l, 0, 1, 2);
    } else if p < 9 {
      ThreeOf(labels, l, 4, 5, 6);
    } else if p < 12 {
      ThreeOf(labels, l, 9, 10, 11);
    } else {
      ThreeOf(labels, l, 12, 13, 14);
    }
  }

  /** The stratified test: 8 drawn from those 18 labels gives 8 elements,
      whatever order the groups are visited in and however the ties fall. */
  lemma StratifiedEightOfEighteen<T>(data: seq<T>, out: seq<T>,
                                     strata: seq<Stratum>, finalK: map<nat, nat>, bumped: set<nat>, masks: seq<seq<bool>>)
    requires |data| == 18
    requires StratifiedDraw(data, TestLabels(), 8, out, strata, finalK, bumped, masks)
    ensures |out| == 8
  {
    forall k | 0 <= k < |strata| ensures |data| <= |strata[k].idxs| * 8 {
      TestGroupsLarge(strata, k);
    }
    StratifiedExact(data, TestLabels(), 8, out, strata, finalK, bumped, masks);
  }
}
