/** The legacy `nr::Sampling` (numera/sampling/sampling.cpp): simple random,
    systematic and stratified sampling over a vector of `double`s. Unlike the
    modern engine, its systematic sampler takes the stride itself (`step`)
    and its stratified sampler draws the same count from every group. The
    overloads taking a `Numera` object are stubs that return an empty vector. */
module LegacySampling {
  import opened Seqs
  import opened Algorithms
  import opened Strata
  import opened Arith
  import opened Wrappers
  import opened SizeT
  import PS = ProbabilitySampling
  import LegacyNumera

  /** `simple_random`: `std::sample` of `min(sampleSize, n)` values, then a
      shuffle; the same draw as the modern engine's. */
  method SimpleRandom(data: seq<real>, sampleSize: nat) returns (out: seq<real>, ghost mask: seq<bool>)
    ensures sampleSize == 0 || data == [] ==> out == []
    ensures sampleSize > 0 && data != [] ==>
      |mask| == |data| && CountTrue(mask) == MinNat(sampleSize, |data|) && multiset(out) == multiset(Keep(data, mask))
  {
    out, mask := PS.SimpleRandom(data, sampleSize);
  }

  /** The legacy loop `for (size_t i = start; i < n; i += step)` from
      position `i`: the counter is a `size_t`, so `i + step` wraps modulo
      2^64. While `step + n <= 2^64` no sum wraps and the walk climbs by
      `step`; beyond that, a sum that wraps lands `2^64 - step` below `i`,
      so the walk descends. */
  function WrapStrided(s: seq<real>, i: nat, step: nat): seq<real>
    requires 0 < step <= SizeMax && |s| <= DoubleVectorMax
    decreases if step + |s| <= Modulus then |s| - i else if i < |s| then i + 1 else 0
  {
    if i >= |s| then [] else [s[i]] + WrapStrided(s, AddWrap(i, step), step)
  }

  /** Every `d`-th element of `s` downwards from position `i`, as far as position `i % d`. */
  function Descending(s: seq<real>, i: nat, d: nat): seq<real>
    requires d > 0
    decreases i
  {
    if i >= |s| then [] else if i < d then [s[i]] else [s[i]] + Descending(s, i - d, d)
  }

  /** A sequence whose elements never increase. */
  predicate NonIncreasing(s: seq<real>)
  {
    forall i, j :: 0 <= i < j < |s| ==> s[j] <= s[i]
  }

  /** While `step + |s| <= 2^64` no counter wraps: the walk is the plain
      strided walk. */
  lemma {:induction false} WrapStridedClimbs(s: seq<real>, i: nat, step: nat)
    requires 0 < step <= SizeMax && |s| <= DoubleVectorMax && step + |s| <= Modulus
    ensures WrapStrided(s, i, step) == PS.Strided(s, i, step)
    decreases |s| - i
  {
    if i < |s| {
      assert AddWrap(i, step) == i + step;
      assert WrapStrided(s, i, step) == [s[i]] + WrapStrided(s, i + step, step);
      WrapStridedClimbs(s, i + step, step);
    }
  }

  /** Once `step + |s| > 2^64`, every step from a position of `s` either wraps
      back by `2^64 - step` or leaves the range: the walk descends. */
  lemma {:induction false} WrapStridedDescends(s: seq<real>, i: nat, step: nat)
    requires 0 < step <= SizeMax && |s| <= DoubleVectorMax && step + |s| > Modulus
    ensures WrapStrided(s, i, step) == Descending(s, i, Modulus - step)
    decreases i
  {
    var d := Modulus - step;
    if i < |s| {
      if i >= d {
        assert AddWrap(i, step) == i - d;
        WrapStridedDescends(s, i - d, step);
      } else {
        assert AddWrap(i, step) == i + step >= |s|;
      }
    }
  }

  /** A descending walk from a position of `s` yields `i / d + 1` values. */
  lemma {:induction false} DescendingLength(s: seq<real>, i: nat, d: nat)
    requires d > 0 && i < |s|
    ensures |Descending(s, i, d)| == i / d + 1
    decreases i
  {
    if i >= d {
      DescendingLength(s, i - d, d);
      DivShift(i - d, d);
    } else {
      DivExact(i, d, 0);
    }
  }

  /** `j * d` as `j` additions, which the solver unfolds without nonlinear arithmetic. */
  function Times(j: nat, d: nat): nat
  {
    if j == 0 then 0 else Times(j - 1, d) + d
  }

  lemma {:induction false} TimesIsProduct(j: nat, d: nat)
    ensures Times(j, d) == j * d
  {
    if j > 0 {
      TimesIsProduct(j - 1, d);
      MulPred(j, d);
    }
  }

  /** Element `j` of a descending walk lies `Times(j, d)` below its start. */
  lemma {:induction false} DescendingOffset(s: seq<real>, i: nat, d: nat, j: nat)
    requires d > 0 && j < |Descending(s, i, d)|
    ensures Times(j, d) <= i
    ensures Descending(s, i, d)[j] == s[i - Times(j, d)]
    decreases i
  {
    assert i < |s|;
    if j > 0 {
      var rest := Descending(s, i - d, d);
      assert i >= d && Descending(s, i, d) == [s[i]] + rest;
      assert Descending(s, i, d)[j] == rest[j - 1];
      DescendingOffset(s, i - d, d, j - 1);
      assert Times(j, d) == Times(j - 1, d) + d;
    }
  }

  /** Element `j` of a descending walk is the element `j * d` below its start. */
  lemma DescendingAt(s: seq<real>, i: nat, d: nat, j: nat)
    requires d > 0 && j < |Descending(s, i, d)|
    ensures j * d <= i && Descending(s, i, d)[j] == s[i - j * d]
  {
    DescendingOffset(s, i, d, j);
    TimesIsProduct(j, d);
  }

  /** A descending walk over a sorted sequence never increases. */
  lemma DescendingSorted(s: seq<real>, i: nat, d: nat)
    requires d > 0 && Sorted(s)
    ensures NonIncreasing(Descending(s, i, d))
  {
    var w := Descending(s, i, d);
    forall p, q | 0 <= p < q < |w| ensures w[q] <= w[p] {
      DescendingAt(s, i, d, p);
      DescendingAt(s, i, d, q);
      MulLess(p, q, d);
    }
  }

  /** What the legacy walk returns: the start lies in `[0, min(step, n) - 1]`
      (and is 0 when `step == 1`), and the result is the `size_t` walk from there. */
  ghost predicate StepWalk(population: seq<real>, step: nat, start: nat, out: seq<real>)
    requires 0 < step <= SizeMax && |population| <= DoubleVectorMax
  {
    (step > 1 ==> start <= MinNat(step, |population|) - 1) && (step == 1 ==> start == 0) &&
    out == WrapStrided(population, start, step)
  }

  /** The loop shared by `systematic` and `systematic_sorted`:
      `for (i = start; i < n; i += step) out.push_back(population[i])`, with
      `i` and `step` of type `size_t`. */
  method Walk(population: seq<real>, step: nat) returns (out: seq<real>, ghost start: nat)
    requires population != [] && 0 < step <= SizeMax && |population| <= DoubleVectorMax
    ensures StepWalk(population, step, start, out)
  {
    var n := |population|;
    var first: nat := 0;
    if step > 1 {
      first :| first <= MinNat(step, n) - 1;
    }
    start := first;
    out := [];
    var i: nat := first;
    while i < n
      invariant out + WrapStrided(population, i, step) == WrapStrided(population, start, step)
      decreases if step + n <= Modulus then n - i else if i < n then i + 1 else 0
    {
      out := out + [population[i]];
      i := AddWrap(i, step);
    }
  }

  /** `systematic`: the walk over a copy of the data; empty data or `step == 0` give nothing. */
  method Systematic(data: seq<real>, step: nat) returns (out: seq<real>, ghost start: nat)
    requires step <= SizeMax && |data| <= DoubleVectorMax
    ensures data == [] || step == 0 ==> out == []
    ensures data != [] && step > 0 ==> StepWalk(data, step, start, out)
  {
    if data == [] || step == 0 {
      return [], 0;
    }
    out, start := Walk(data, step);
  }

  /** `systematic_sorted`: the walk over a sorted copy. While no counter
      wraps the result is non-decreasing; a `step` above `2^64 - n` walks
      the sorted copy downwards, so the result is non-increasing. */
  method SystematicSorted(data: seq<real>, step: nat) returns (out: seq<real>, ghost start: nat)
    requires step <= SizeMax && |data| <= DoubleVectorMax
    ensures data == [] || step == 0 ==> out == []
    ensures data != [] && step > 0 ==> StepWalk(SortedCopy(data), step, start, out)
    ensures data != [] && 0 < step && step + |data| <= Modulus ==> Sorted(out)
    ensures data != [] && 0 < step && step + |data| > Modulus ==> NonIncreasing(out)
  {
    if data == [] || step == 0 {
      return [], 0;
    }
    var population := SortedSeq(data);
    assert |population| == |multiset(data)| == |data|;
    out, start := Walk(population, step);
    if step + |data| <= Modulus {
      WrapStridedClimbs(population, start, step);
      PS.StridedSorted(population, start, step);
    } else {
      WrapStridedDescends(population, start, step);
      DescendingSorted(population, start, Modulus - step);
    }
  }

  /** The `reserve((n + step - 1) / step)` of both walks, computed in
      `size_t`, never asks for more than `n` places, so it never throws. */
  lemma ReserveFits(n: nat, step: nat)
    requires 0 < n <= DoubleVectorMax && 0 < step <= SizeMax
    ensures Wrap(n + step - 1) / step <= n
  {
    if n + step - 1 <= SizeMax {
      DivShift(n - 1, step);
      DivAtMost(n - 1, step);
    } else {
      DivExact(n + step - 1 - Modulus, step, 0);
    }
  }

  /** While no counter wraps, a walk yields `ceil((n - start) / step)`
      values: at least one, and never more than the `(n + step - 1) / step`
      the source reserves. Once `step > 2^64 - n` it yields
      `start / (2^64 - step) + 1` values. */
  lemma WalkSize(population: seq<real>, step: nat, start: nat, out: seq<real>)
    requires population != [] && 0 < step <= SizeMax && |population| <= DoubleVectorMax
    requires StepWalk(population, step, start, out)
    ensures step + |population| <= Modulus ==>
      |out| == (|population| - start + step - 1) / step && 1 <= |out| <= (|population| + step - 1) / step
    ensures step + |population| > Modulus ==> |out| == start / (Modulus - step) + 1
  {
    var n := |population|;
    if step + n <= Modulus {
      WrapStridedClimbs(population, start, step);
      PS.StridedLength(population, start, step);
      DivMonotone(n - start + step - 1, n + step - 1, step);
      DivMonotone(step, n - start + step - 1, step);
      DivExact(step, step, 1);
    } else {
      WrapStridedDescends(population, start, step);
      DescendingLength(population, start, Modulus - step);
    }
  }

  /** While no counter wraps, element `j` of a walk is the population's
      element `start + j * step`. */
  lemma WalkAt(population: seq<real>, step: nat, start: nat, out: seq<real>, j: nat)
    requires 0 < step <= SizeMax && |population| <= DoubleVectorMax && step + |population| <= Modulus
    requires StepWalk(population, step, start, out) && j < |out|
    ensures start + j * step < |population| && out[j] == population[start + j * step]
  {
    WrapStridedClimbs(population, start, step);
    PS.StridedAt(population, start, step, j);
  }

  /** Once `step > 2^64 - n`, element `j` of a walk is the population's
      element `j * (2^64 - step)` below `start`. */
  lemma WalkAtWrapped(population: seq<real>, step: nat, start: nat, out: seq<real>, j: nat)
    requires 0 < step <= SizeMax && |population| <= DoubleVectorMax && step + |population| > Modulus
    requires StepWalk(population, step, start, out) && j < |out|
    ensures var d := Modulus - step; j * d <= start < |population| && out[j] == population[start - j * d]
  {
    var d := Modulus - step;
    WrapStridedDescends(population, start, step);
    DescendingAt(population, start, d, j);
  }

  /** `systematic_sorted({1.0, 2.0, 3.0}, SIZE_MAX)` from start 2: each
      `i += SIZE_MAX` steps one position down, so the walk yields `{3, 2, 1}`. */
  lemma WrapExample()
    ensures WrapStrided([1.0, 2.0, 3.0], 2, SizeMax) == [3.0, 2.0, 1.0]
  {
    var s := [1.0, 2.0, 3.0];
    WrapStridedDescends(s, 2, SizeMax);
    assert Descending(s, 0, 1) == [1.0];
    assert Descending(s, 1, 1) == [2.0, 1.0];
  }

  /** What a legacy stratified draw promises once the guards have passed:
      `strata` enumerates the label groups, every group gives
      `min(samplePerStratum, |group|)` of its own positions, and the output is
      a shuffle of the values at the chosen positions. */
  ghost predicate PerStratumDraw(data: seq<real>, labels: seq<nat>, k: nat, out: seq<real>,
                                 strata: seq<Stratum>, masks: seq<seq<bool>>)
  {
    |labels| == |data| && GroupsOf(labels, strata) && MasksFit(strata, masks) &&
    (forall m :: 0 <= m < |strata| ==> CountTrue(masks[m]) == MinNat(k, |strata[m].idxs|)) &&
    InRange(Chosen(strata, masks), |data|) &&
    multiset(out) == multiset(Gather(data, Chosen(strata, masks)))
  }

  /** The same quota for each of `count` groups. */
  function Uniform(count: nat, k: nat): (ks: seq<nat>)
    ensures |ks| == count && forall m :: 0 <= m < count ==> ks[m] == k
  {
    seq(count, _ => k)
  }

  /** `stratified`: empty for empty data, mismatched labels or a zero
      quota; otherwise group the positions by label and reserve
      `groups.size() * samplePerStratum` places, a `size_t` product that
      wraps modulo 2^64 and throws when what is left exceeds `max_size()`;
      then draw `min(samplePerStratum, |group|)` positions from every group
      (a group with nothing to draw is skipped, which draws nothing) and
      shuffle. */
  method Stratified(data: seq<real>, labels: seq<nat>, samplePerStratum: nat)
    returns (r: Result<seq<real>, PS.SamplingError>, ghost strata: seq<Stratum>, ghost masks: seq<seq<bool>>)
    ensures data == [] || |labels| != |data| || samplePerStratum == 0 ==> r == Success([])
    ensures data != [] && |labels| == |data| && samplePerStratum > 0 ==>
      GroupsOf(labels, strata) &&
      (r.Failure? <==> Wrap(|strata| * samplePerStratum) > DoubleVectorMax) &&
      (r.Failure? ==> r.error == PS.LengthError) &&
      (r.Success? ==> PerStratumDraw(data, labels, samplePerStratum, r.value, strata, masks))
  {
    if data == [] || |labels| != |data| || samplePerStratum == 0 {
      return Success([]), [], [];
    }
    var groups := Group(labels);
    strata := groups;
    if Wrap(|groups| * samplePerStratum) > DoubleVectorMax {
      return Failure(PS.LengthError), strata, [];
    }
    forall m | 0 <= m < |groups| ensures InRange(groups[m].idxs, |data|) {
      GroupNonEmpty(labels, groups, m);
    }
    var drawn;
    drawn, masks := DrawFromStrata(data, groups, Uniform(|groups|, samplePerStratum));
    var out := ShuffleSeq(drawn);
    r := Success(out);
  }

  /** With the same quota everywhere, the groups together yield at most
      `k` per group, and exactly `k` per group when every group holds `k`. */
  lemma {:induction false} UniformTotal(strata: seq<Stratum>, k: nat)
    ensures CappedTotal(strata, Uniform(|strata|, k)) <= k * |strata|
    ensures (forall m :: 0 <= m < |strata| ==> k <= |strata[m].idxs|) ==>
      CappedTotal(strata, Uniform(|strata|, k)) == k * |strata|
  {
    if strata != [] {
      var n := |strata| - 1;
      assert Uniform(|strata|, k)[..n] == Uniform(n, k);
      UniformTotal(strata[..n], k);
      Distribute(k, n, 1);
    }
  }

  /** A stratified draw takes no position twice, yields each group's capped
      quota, so at most `samplePerStratum` per group, and exactly that many per
      group when every group is large enough. */
  lemma StratifiedSize(data: seq<real>, labels: seq<nat>, k: nat, out: seq<real>,
                       strata: seq<Stratum>, masks: seq<seq<bool>>)
    requires PerStratumDraw(data, labels, k, out, strata, masks)
    ensures Distinct(Chosen(strata, masks))
    ensures |out| == CappedTotal(strata, Uniform(|strata|, k)) && |out| <= k * |strata|
    ensures (forall m :: 0 <= m < |strata| ==> k <= |strata[m].idxs|) ==> |out| == k * |strata|
    ensures forall x :: x in out ==> x in data
  {
    var chosen := Chosen(strata, masks);
    var drawn := Gather(data, chosen);
    ChosenSize(strata, Uniform(|strata|, k), masks);
    ChosenDistinct(labels, strata, masks);
    UniformTotal(strata, k);
    assert |out| == |multiset(out)| == |multiset(drawn)| == |drawn|;
    forall x | x in out ensures x in data {
      assert x in multiset(drawn);
      var i :| 0 <= i < |drawn| && drawn[i] == x;
      assert data[chosen[i]] == x;
    }
  }

  /** `simple_random` over a `Numera`: a stub that returns an empty vector. */
  method SimpleRandomOf(data: LegacyNumera.Numera, sampleSize: nat) returns (out: seq<real>)
    ensures out == []
  {
    out := [];
  }

  /** `systematic` over a `Numera`: a stub that returns an empty vector. */
  method SystematicOf(data: LegacyNumera.Numera, step: nat) returns (out: seq<real>)
    ensures out == []
  {
    out := [];
  }

  /** `stratified` over a `Numera`: a stub that returns an empty vector. */
  method StratifiedOf(data: LegacyNumera.Numera, labels: seq<nat>, samplePerStratum: nat) returns (out: seq<real>)
    ensures out == []
  {
    out := [];
  }
}
