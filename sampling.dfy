/** `nr::Sampling` (Numera/stats/Sampling.cpp): the `double`-only copy of
    the modern sampling engine. Its `simple_random`, `systematic` and
    `stratified` run the same steps as the vector overloads of
    `ProbabilitySampling`, so they are modelled by those methods;
    `systematic_sorted` strides over a sorted copy. */
module Sampling {
  import opened Seqs
  import opened Algorithms
  import opened Strata
  import opened Apportionment
  import PS = ProbabilitySampling
  import opened Wrappers
  import SizeT

  /** `simple_random`: `min(sampleSize, n)` positions drawn without repetition, then shuffled. */
  method SimpleRandom(data: seq<real>, sampleSize: nat) returns (out: seq<real>, ghost mask: seq<bool>)
    ensures sampleSize == 0 || data == [] ==> out == []
    ensures sampleSize > 0 && data != [] ==>
      |mask| == |data| && CountTrue(mask) == MinNat(sampleSize, |data|) && multiset(out) == multiset(Keep(data, mask))
  {
    out, mask := PS.SimpleRandom(data, sampleSize);
  }

  /** `systematic`: the walk with stride `n / sample + 1` over the data as given. */
  method Systematic(data: seq<real>, sample: nat) returns (r: Result<seq<real>, PS.SamplingError>, ghost start: nat)
    ensures data == [] || sample == 0 ==> r == Success([])
    ensures data != [] && sample > 0 ==> PS.WalkFrom(data, sample, start, r)
  {
    r, start := PS.Systematic(data, sample);
  }

  /** `systematic_sorted`: the same walk over a sorted copy, so its output is non-decreasing. */
  method SystematicSorted(data: seq<real>, sample: nat) returns (r: Result<seq<real>, PS.SamplingError>, ghost start: nat)
    ensures data == [] || sample == 0 ==> r == Success([])
    ensures data != [] && sample > 0 ==>
      PS.WalkFrom(SortedCopy(data), sample, start, r) && (r.Success? ==> Sorted(r.value))
  {
    if data == [] || sample == 0 {
      return Success([]), 0;
    }
    var population := SortedSeq(data);
    r, start := PS.SystematicWalk(population, sample);
    PS.SortedWalk(population, sample, start, r);
  }

  /** `stratified`: grouping, largest-remainder apportionment, the `reserve(sampleSize)`
      that throws beyond `max_size()`, a capped draw per group, a shuffle. */
  method Stratified(data: seq<real>, labels: seq<nat>, sampleSize: nat)
    returns (r: Result<seq<real>, PS.SamplingError>, ghost strata: seq<Stratum>, ghost finalK: map<nat, nat>, ghost bumped: set<nat>, ghost masks: seq<seq<bool>>)
    ensures data == [] || |labels| != |data| || sampleSize == 0 ==> r == Success([])
    ensures data != [] && |labels| == |data| && sampleSize > 0 ==>
      (r.Failure? <==> sampleSize > SizeT.DoubleVectorMax) && (r.Failure? ==> r.error == PS.LengthError) &&
      (r.Success? ==> PS.StratifiedDraw(data, labels, sampleSize, r.value, strata, finalK, bumped, masks))
  {
    r, strata, finalK, bumped, masks := PS.Stratified(data, labels, sampleSize);
  }
}
