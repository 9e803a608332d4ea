/** Largest-remainder apportionment of a sample size `t` over the strata of a
    population of size `n`, as the modern stratified samplers compute it.
    The source works in `double`: `target = size * t / n`, `base = floor(target)`
    raised to 1, `fraction = target - base`. Every fraction has the same
    denominator `n`, so here the fraction is kept as its exact numerator
    `size * t - base * n` and the arithmetic is on integers. */
module Apportionment {
  import opened Seqs
  import opened Algorithms
  import opened Strata
  import opened Arith

  /** The base quota of a stratum of `s` elements: the integer part of
      `s * t / n`, but at least 1 when the stratum is not empty. */
  function Base(s: nat, n: nat, t: nat): (b: nat)
    requires n > 0
    ensures s > 0 ==> 1 <= b
    ensures s == 0 ==> b == 0
  {
    var q := s * t / n;
    if q == 0 && s > 0 then 1 else q
  }

  /** The base is within one unit of `s * t / n`: at most it, and less than
      one below it, unless the at-least-one rule raised it from 0. */
  lemma BaseBounds(s: nat, n: nat, t: nat)
    requires n > 0
    ensures s * t < Base(s, n, t) * n + n
    ensures Base(s, n, t) * n <= s * t || (Base(s, n, t) == 1 && s * t < n)
  {
    var x := s * t;
    DivBounds(x, n);
  }

  /** The fractional remainder `s * t / n - base`, scaled by `n`. It is
      negative exactly when the at-least-one rule raised the base. */
  function Num(s: nat, n: nat, t: nat): (f: int)
    requires n > 0
    ensures f < n
    ensures f < 0 ==> Base(s, n, t) == 1
  {
    BaseBounds(s, n, t);
    s * t - Base(s, n, t) * n
  }

  /** An entry of `fractional_targets`: the remainder's numerator and the stratum's label. */
  datatype Target = Target(num: int, mark: nat)

  /** The sort key that puts larger remainders first. */
  function Descending(x: Target): real
  {
    -(x.num as real)
  }

  function TargetsOf(strata: seq<Stratum>, n: nat, t: nat): (r: seq<Target>)
    requires n > 0
    ensures |r| == |strata|
  {
    seq(|strata|, k requires 0 <= k < |strata| => Target(Num(|strata[k].idxs|, n, t), strata[k].mark))
  }

  /** Sum of the base quotas. */
  function SumBase(strata: seq<Stratum>, n: nat, t: nat): nat
    requires n > 0
  {
    if strata == [] then 0
    else
      var m := |strata| - 1;
      SumBase(strata[..m], n, t) + Base(|strata[m].idxs|, n, t)
  }

  /** The units still to hand out: `max(0, t - Σbase)`. */
  function Leftover(t: nat, sumBase: nat): nat
  {
    if t > sumBase then t - sumBase else 0
  }

  /** The labels of the first `r` sorted targets: the strata that get one more. */
  function FirstMarks(sorted: seq<Target>, r: nat): set<nat>
    requires r <= |sorted|
  {
    set i | 0 <= i < r :: sorted[i].mark
  }

  /** What the apportionment promises: every stratum gets its base quota, plus
      one for the `bumped` strata; there are as many of those as the leftover;
      and no stratum left out has a larger remainder than one bumped. */
  ghost predicate Apportioned(strata: seq<Stratum>, n: nat, t: nat, finalK: map<nat, nat>, bumped: set<nat>)
    requires n > 0
  {
    (forall l :: l in finalK <==> l in LabelSeq(strata)) &&
    (forall l :: l in bumped ==> l in LabelSeq(strata)) &&
    |bumped| == Leftover(t, SumBase(strata, n, t)) &&
    (forall k :: 0 <= k < |strata| ==>
       strata[k].mark in finalK &&
       finalK[strata[k].mark] == Base(|strata[k].idxs|, n, t) + (if strata[k].mark in bumped then 1 else 0)) &&
    (forall i, j :: 0 <= i < |strata| && 0 <= j < |strata| && strata[i].mark in bumped && strata[j].mark !in bumped ==>
       Num(|strata[i].idxs|, n, t) >= Num(|strata[j].idxs|, n, t))
  }

  /** Each base quota overshoots `s * t` by less than `n`, so summed over the
      strata the bases fall short of `t` by fewer units than there are strata. */
  lemma {:induction false} SumBaseBelow(strata: seq<Stratum>, n: nat, t: nat)
    requires n > 0
    ensures t * SumSizes(strata) + |strata| <= SumBase(strata, n, t) * n + |strata| * n
  {
    if strata != [] {
      var m := |strata| - 1;
      SumBaseBelow(strata[..m], n, t);
      var s, b := |strata[m].idxs|, Base(|strata[m].idxs|, n, t);
      var sizes, bases := SumSizes(strata[..m]), SumBase(strata[..m], n, t);
      assert SumSizes(strata) == sizes + s;
      assert SumBase(strata, n, t) == bases + b;
      BaseBounds(s, n, t);
      Distribute(t, sizes, s);
      Distribute(n, bases, b);
      Distribute(n, m, 1);
    }
  }

  /** The leftover is smaller than the number of strata, so the loop that hands
      it out never reads past the end of `fractional_targets`. */
  lemma LeftoverBound(strata: seq<Stratum>, n: nat, t: nat)
    requires n > 0 && SumSizes(strata) == n && 0 < |strata|
    ensures Leftover(t, SumBase(strata, n, t)) < |strata|
  {
    SumBaseBelow(strata, n, t);
    var sb, m := SumBase(strata, n, t), |strata|;
    Distribute(n, sb, m);
    assert t * n < (sb + m) * n;
    if sb + m <= t {
      MulMonotone(sb + m, t, n);
    }
  }

  lemma TargetMarksDistinct(strata: seq<Stratum>, n: nat, t: nat)
    requires n > 0 && Distinct(LabelSeq(strata))
    ensures forall i, j :: 0 <= i < j < |strata| ==> TargetsOf(strata, n, t)[i].mark != TargetsOf(strata, n, t)[j].mark
  {
    forall i, j | 0 <= i < j < |strata| ensures TargetsOf(strata, n, t)[i].mark != TargetsOf(strata, n, t)[j].mark {
      assert LabelSeq(strata)[i] != LabelSeq(strata)[j];
    }
  }

  /** A sorted permutation of targets with distinct labels has distinct labels. */
  lemma SortedTargetsDistinct(targets: seq<Target>, sorted: seq<Target>)
    requires multiset(sorted) == multiset(targets)
    requires forall i, j :: 0 <= i < j < |targets| ==> targets[i].mark != targets[j].mark
    ensures forall i, j :: 0 <= i < j < |sorted| ==> sorted[i].mark != sorted[j].mark
  {
    assert Distinct(targets);
    DistinctPreserved(targets, sorted);
    forall i, j | 0 <= i < j < |sorted| ensures sorted[i].mark != sorted[j].mark {
      assert sorted[i] in multiset(targets) && sorted[j] in multiset(targets);
      var p :| 0 <= p < |targets| && targets[p] == sorted[i];
      var q :| 0 <= q < |targets| && targets[q] == sorted[j];
      assert p != q;
    }
  }

  /** Bumping the first `r` entries of targets sorted by descending remainder
      bumps strata whose remainders are at least those of every other stratum. */
  lemma LargestRemainders(strata: seq<Stratum>, n: nat, t: nat, sorted: seq<Target>, r: nat)
    requires n > 0 && Distinct(LabelSeq(strata)) && r <= |sorted|
    requires multiset(sorted) == multiset(TargetsOf(strata, n, t))
    requires SortedBy(sorted, Descending)
    ensures forall i, j ::
      (0 <= i < |strata| && 0 <= j < |strata| &&
       strata[i].mark in FirstMarks(sorted, r) && strata[j].mark !in FirstMarks(sorted, r)) ==>
      Num(|strata[i].idxs|, n, t) >= Num(|strata[j].idxs|, n, t)
  {
    var targets := TargetsOf(strata, n, t);
    forall i, j | 0 <= i < |strata| && 0 <= j < |strata| &&
      strata[i].mark in FirstMarks(sorted, r) && strata[j].mark !in FirstMarks(sorted, r)
      ensures Num(|strata[i].idxs|, n, t) >= Num(|strata[j].idxs|, n, t)
    {
      var p :| 0 <= p < r && sorted[p].mark == strata[i].mark;
      assert sorted[p] in multiset(targets);
      var p' :| 0 <= p' < |targets| && targets[p'] == sorted[p];
      assert LabelSeq(strata)[p'] == LabelSeq(strata)[i];
      assert targets[j] in multiset(sorted);
      var q :| 0 <= q < |sorted| && sorted[q] == targets[j];
      assert q >= r;
      assert Descending(sorted[p]) <= Descending(sorted[q]);
    }
  }

  lemma PrefixStep(strata: seq<Stratum>, n: nat, t: nat, k: nat)
    requires n > 0 && k < |strata|
    ensures LabelSeq(strata[..k + 1]) == LabelSeq(strata[..k]) + [strata[k].mark]
    ensures TargetsOf(strata[..k + 1], n, t) == TargetsOf(strata[..k], n, t) + [Target(Num(|strata[k].idxs|, n, t), strata[k].mark)]
    ensures SumBase(strata[..k + 1], n, t) == SumBase(strata[..k], n, t) + Base(|strata[k].idxs|, n, t)
  {
    assert strata[..k + 1][..k] == strata[..k];
  }

  /** The loop over the groups that fills `final_k_values` with base quotas,
      sums them and records each stratum's remainder in `fractional_targets`. */
  method BaseQuotas(strata: seq<Stratum>, n: nat, t: nat) returns (finalK: map<nat, nat>, targets: seq<Target>, total: nat)
    requires n > 0 && Distinct(LabelSeq(strata))
    ensures targets == TargetsOf(strata, n, t)
    ensures total == SumBase(strata, n, t)
    ensures forall l :: l in finalK <==> l in LabelSeq(strata)
    ensures forall m :: 0 <= m < |strata| ==> strata[m].mark in finalK && finalK[strata[m].mark] == Base(|strata[m].idxs|, n, t)
  {
    targets := [];
    finalK := map[];
    total := 0;
    var k := 0;
    while k < |strata|
      invariant 0 <= k <= |strata|
      invariant targets == TargetsOf(strata[..k], n, t)
      invariant total == SumBase(strata[..k], n, t)
      invariant QuotaMap(finalK, strata[..k], n, t, {})
    {
      var base, fraction := StratumTarget(|strata[k].idxs|, n, t);
      BaseStep(finalK, strata, n, t, k);
      finalK := finalK[strata[k].mark := base];
      total := total + base;
      targets := targets + [Target(fraction, strata[k].mark)];
      PrefixStep(strata, n, t, k);
      k := k + 1;
    }
    assert strata[..k] == strata;
  }

  /** One stratum's share: `target = s * t / n`, its floor raised to 1 for a
      non-empty stratum, and what is left of the target (scaled by `n`). */
  method StratumTarget(s: nat, n: nat, t: nat) returns (base: nat, fraction: int)
    requires n > 0
    ensures base == Base(s, n, t) && fraction == Num(s, n, t)
  {
    base := s * t / n;
    if base == 0 && s > 0 {
      base := 1;
    }
    fraction := s * t - base * n;
  }

  /** `finalK` holds, for every stratum, its base quota plus one when its mark is in `bumped`. */
  ghost predicate QuotaMap(finalK: map<nat, nat>, strata: seq<Stratum>, n: nat, t: nat, bumped: set<nat>)
    requires n > 0
  {
    (forall l :: l in finalK <==> l in LabelSeq(strata)) &&
    forall m :: 0 <= m < |strata| ==>
      strata[m].mark in finalK &&
      finalK[strata[m].mark] == Base(|strata[m].idxs|, n, t) + (if strata[m].mark in bumped then 1 else 0)
  }

  /** Recording the base quota of stratum `k` extends the map to the prefix `strata[..k + 1]`. */
  lemma BaseStep(finalK: map<nat, nat>, strata: seq<Stratum>, n: nat, t: nat, k: nat)
    requires n > 0 && k < |strata| && Distinct(LabelSeq(strata))
    requires QuotaMap(finalK, strata[..k], n, t, {})
    ensures QuotaMap(finalK[strata[k].mark := Base(|strata[k].idxs|, n, t)], strata[..k + 1], n, t, {})
  {
    var l, b := strata[k].mark, Base(|strata[k].idxs|, n, t);
    var before, after := strata[..k], strata[..k + 1];
    var g := finalK[l := b];
    PrefixStep(strata, n, t, k);
    assert forall x :: x in LabelSeq(after) <==> x in LabelSeq(before) || x == l;
    forall m | 0 <= m < |after|
      ensures after[m].mark in g && g[after[m].mark] == Base(|after[m].idxs|, n, t)
    {
      if m < k {
        assert after[m] == before[m] == strata[m];
        assert LabelSeq(strata)[m] != LabelSeq(strata)[k];
      }
    }
  }

  /** One more bump on a mark not bumped yet adds one to its quota only. */
  lemma BumpStep(finalK: map<nat, nat>, strata: seq<Stratum>, n: nat, t: nat, bumped: set<nat>, l: nat)
    requires n > 0 && QuotaMap(finalK, strata, n, t, bumped)
    requires l in LabelSeq(strata) && l !in bumped
    ensures QuotaMap(finalK[l := finalK[l] + 1], strata, n, t, bumped + {l})
  {
  }

  lemma HandOutStep(strata: seq<Stratum>, n: nat, t: nat, sorted: seq<Target>, i: nat)
    requires n > 0 && i < |sorted|
    requires multiset(sorted) == multiset(TargetsOf(strata, n, t))
    requires forall i, j :: 0 <= i < j < |sorted| ==> sorted[i].mark != sorted[j].mark
    ensures sorted[i].mark in LabelSeq(strata) && sorted[i].mark !in FirstMarks(sorted, i)
    ensures FirstMarks(sorted, i + 1) == FirstMarks(sorted, i) + {sorted[i].mark}
  {
    var targets := TargetsOf(strata, n, t);
    assert sorted[i] in multiset(targets);
    var p :| 0 <= p < |targets| && targets[p] == sorted[i];
    assert LabelSeq(strata)[p] == sorted[i].mark;
  }

  /** The loop that adds one to the quota of each of the first `remainder`
      labels of the sorted targets. */
  method HandOut(strata: seq<Stratum>, n: nat, t: nat, sorted: seq<Target>, remainder: nat, base: map<nat, nat>)
    returns (finalK: map<nat, nat>, ghost bumped: set<nat>)
    requires n > 0 && Distinct(LabelSeq(strata)) && remainder <= |sorted|
    requires multiset(sorted) == multiset(TargetsOf(strata, n, t))
    requires forall i, j :: 0 <= i < j < |sorted| ==> sorted[i].mark != sorted[j].mark
    requires forall l :: l in base <==> l in LabelSeq(strata)
    requires forall m :: 0 <= m < |strata| ==> strata[m].mark in base && base[strata[m].mark] == Base(|strata[m].idxs|, n, t)
    ensures bumped == FirstMarks(sorted, remainder) && |bumped| == remainder
    ensures forall l :: l in bumped ==> l in LabelSeq(strata)
    ensures forall l :: l in finalK <==> l in LabelSeq(strata)
    ensures forall m :: 0 <= m < |strata| ==>
      strata[m].mark in finalK &&
      finalK[strata[m].mark] == Base(|strata[m].idxs|, n, t) + (if strata[m].mark in bumped then 1 else 0)
  {
    finalK, bumped := base, {};
    var i := 0;
    while i < remainder
      invariant 0 <= i <= remainder
      invariant bumped == FirstMarks(sorted, i) && |bumped| == i
      invariant forall l :: l in bumped ==> l in LabelSeq(strata)
      invariant QuotaMap(finalK, strata, n, t, bumped)
    {
      var mark := sorted[i].mark;
      HandOutStep(strata, n, t, sorted, i);
      BumpStep(finalK, strata, n, t, bumped, mark);
      finalK := finalK[mark := finalK[mark] + 1];
      bumped := bumped + {mark};
      i := i + 1;
    }
  }

  /** Lines 136-179 of the stratified sampler: base quotas and remainders per
      stratum, the leftover, the sort by descending remainder and the bumps. */
  method Apportion(strata: seq<Stratum>, n: nat, t: nat) returns (finalK: map<nat, nat>, ghost bumped: set<nat>)
    requires n > 0 && SumSizes(strata) == n && 0 < |strata| && Distinct(LabelSeq(strata))
    ensures Apportioned(strata, n, t, finalK, bumped)
  {
    var base, targets, total := BaseQuotas(strata, n, t);
    var remainder := if t > total then t - total else 0;
    LeftoverBound(strata, n, t);

    var sorted := SortCopyByKey(targets, Descending);
    TargetMarksDistinct(strata, n, t);
    SortedTargetsDistinct(targets, sorted);
    finalK, bumped := HandOut(strata, n, t, sorted, remainder, base);
    LargestRemainders(strata, n, t, sorted, remainder);
  }

  /** The quotas before the cap, summed over the strata. */
  function QuotaSum(strata: seq<Stratum>, finalK: map<nat, nat>): nat
    requires forall k :: 0 <= k < |strata| ==> strata[k].mark in finalK
  {
    if strata == [] then 0
    else
      var m := |strata| - 1;
      QuotaSum(strata[..m], finalK) + finalK[strata[m].mark]
  }

  /** How many of the strata are bumped. */
  function BumpCount(strata: seq<Stratum>, bumped: set<nat>): nat
  {
    if strata == [] then 0
    else
      var m := |strata| - 1;
      BumpCount(strata[..m], bumped) + (if strata[m].mark in bumped then 1 else 0)
  }

  function MarkSet(strata: seq<Stratum>): set<nat>
  {
    set k | 0 <= k < |strata| :: strata[k].mark
  }

  lemma {:induction false} QuotaSplit(strata: seq<Stratum>, n: nat, t: nat, finalK: map<nat, nat>, bumped: set<nat>)
    requires n > 0
    requires forall k :: 0 <= k < |strata| ==>
      strata[k].mark in finalK &&
      finalK[strata[k].mark] == Base(|strata[k].idxs|, n, t) + (if strata[k].mark in bumped then 1 else 0)
    ensures QuotaSum(strata, finalK) == SumBase(strata, n, t) + BumpCount(strata, bumped)
  {
    if strata != [] {
      var m := |strata| - 1;
      QuotaSplit(strata[..m], n, t, finalK, bumped);
    }
  }

  /** Counting the bumped strata one by one counts each bumped label once. */
  lemma {:induction false} BumpCountCard(strata: seq<Stratum>, bumped: set<nat>)
    requires Distinct(LabelSeq(strata))
    ensures BumpCount(strata, bumped) == |bumped * MarkSet(strata)|
  {
    if strata != [] {
      var m := |strata| - 1;
      assert LabelSeq(strata[..m]) == LabelSeq(strata)[..m];
      BumpCountCard(strata[..m], bumped);
      var x := strata[m].mark;
      assert MarkSet(strata) == MarkSet(strata[..m]) + {x};
      assert x !in MarkSet(strata[..m]) by {
        forall k | 0 <= k < m ensures strata[k].mark != x {
          assert LabelSeq(strata)[k] != LabelSeq(strata)[m];
        }
      }
      if x in bumped {
        assert bumped * MarkSet(strata) == (bumped * MarkSet(strata[..m])) + {x};
      } else {
        assert bumped * MarkSet(strata) == bumped * MarkSet(strata[..m]);
      }
    }
  }

  /** Before the cap the quotas add up to `max(t, Σbase)`: the leftover is
      handed out in full, and nothing is taken back when the bases overshoot. */
  lemma QuotaTotal(strata: seq<Stratum>, n: nat, t: nat, finalK: map<nat, nat>, bumped: set<nat>)
    requires n > 0 && Distinct(LabelSeq(strata)) && Apportioned(strata, n, t, finalK, bumped)
    ensures QuotaSum(strata, finalK) == if t > SumBase(strata, n, t) then t else SumBase(strata, n, t)
  {
    QuotaSplit(strata, n, t, finalK, bumped);
    BumpCountCard(strata, bumped);
    assert bumped * MarkSet(strata) == bumped by {
      forall l | l in bumped ensures l in MarkSet(strata) {
        var k :| 0 <= k < |strata| && LabelSeq(strata)[k] == l;
      }
    }
  }

  /** The quotas in iteration order, as the draw loop reads them from `final_k_values`. */
  function Quotas(strata: seq<Stratum>, finalK: map<nat, nat>): (ks: seq<nat>)
    requires forall k :: 0 <= k < |strata| ==> strata[k].mark in finalK
    ensures |ks| == |strata|
    ensures forall k :: 0 <= k < |strata| ==> ks[k] == finalK[strata[k].mark]
  {
    seq(|strata|, k requires 0 <= k < |strata| => finalK[strata[k].mark])
  }

  /** When no stratum is so small that its share `s * t / n` falls below 1,
      no base is raised and the bases together ask for at most `t`. */
  lemma {:induction false} SumBaseAtMost(strata: seq<Stratum>, n: nat, t: nat)
    requires n > 0
    requires forall k :: 0 <= k < |strata| ==> n <= |strata[k].idxs| * t
    ensures SumBase(strata, n, t) * n <= t * SumSizes(strata)
  {
    if strata != [] {
      var m := |strata| - 1;
      SumBaseAtMost(strata[..m], n, t);
      var s, b := |strata[m].idxs|, Base(|strata[m].idxs|, n, t);
      var sizes, bases := SumSizes(strata[..m]), SumBase(strata[..m], n, t);
      assert SumSizes(strata) == sizes + s;
      assert SumBase(strata, n, t) == bases + b;
      BaseBounds(s, n, t);
      assert n <= s * t;
      assert b * n <= s * t;
      Distribute(t, sizes, s);
      Distribute(n, bases, b);
    }
  }

  /** Asking for the whole population gives every stratum its own size. */
  lemma BaseWhole(s: nat, n: nat)
    requires n > 0
    ensures Base(s, n, n) == s
  {
    DivExact(s * n, n, s);
  }

  lemma {:induction false} SumBaseWhole(strata: seq<Stratum>, n: nat)
    requires n > 0
    ensures SumBase(strata, n, n) == SumSizes(strata)
  {
    if strata != [] {
      var m := |strata| - 1;
      SumBaseWhole(strata[..m], n);
      BaseWhole(|strata[m].idxs|, n);
    }
  }

  /** Under the same condition, and with `t <= n`, no quota exceeds its
      stratum, so the draw's cap `min(k, |group|)` never bites. */
  lemma QuotaFits(strata: seq<Stratum>, n: nat, t: nat, finalK: map<nat, nat>, bumped: set<nat>, k: nat)
    requires n > 0 && SumSizes(strata) == n && t <= n && Apportioned(strata, n, t, finalK, bumped)
    requires forall k :: 0 <= k < |strata| ==> n <= |strata[k].idxs| * t
    requires k < |strata|
    ensures strata[k].mark in finalK && finalK[strata[k].mark] <= |strata[k].idxs|
  {
    var s, b := |strata[k].idxs|, Base(|strata[k].idxs|, n, t);
    BaseBounds(s, n, t);
    assert n <= s * t;
    assert b * n <= s * t;
    MulMonotone(t, n, s);
    MulCancel(b, s, n);
    if t == n {
      SumBaseWhole(strata, n);
      assert |bumped| == 0;
    } else {
      assert 0 < s;
      MulCancel(t, n, s);
      MulMonotone(t + 1, n, s);
      Distribute(s, t, 1);
      MulCancel(b, s, n);
    }
  }

  /** With no cap biting, the draw's total is the quotas' total. */
  lemma {:induction false} CappedIsQuotaSum(strata: seq<Stratum>, finalK: map<nat, nat>)
    requires forall k :: 0 <= k < |strata| ==> strata[k].mark in finalK && finalK[strata[k].mark] <= |strata[k].idxs|
    ensures CappedTotal(strata, Quotas(strata, finalK)) == QuotaSum(strata, finalK)
  {
    if strata != [] {
      var m := |strata| - 1;
      assert Quotas(strata, finalK)[..m] == Quotas(strata[..m], finalK);
      CappedIsQuotaSum(strata[..m], finalK);
    }
  }

  /** The stratified sample has exactly the requested size whenever the
      request does not exceed the population and every stratum is large
      enough for its share to reach one element. */
  lemma ExactSize(strata: seq<Stratum>, n: nat, t: nat, finalK: map<nat, nat>, bumped: set<nat>)
    requires n > 0 && SumSizes(strata) == n && t <= n && Distinct(LabelSeq(strata))
    requires Apportioned(strata, n, t, finalK, bumped)
    requires forall k :: 0 <= k < |strata| ==> n <= |strata[k].idxs| * t
    ensures CappedTotal(strata, Quotas(strata, finalK)) == t
  {
    SumBaseAtMost(strata, n, t);
    MulCancel(SumBase(strata, n, t), t, n);
    QuotaTotal(strata, n, t, finalK, bumped);
    forall k | 0 <= k < |strata| ensures strata[k].mark in finalK && finalK[strata[k].mark] <= |strata[k].idxs| {
      QuotaFits(strata, n, t, finalK, bumped, k);
    }
    CappedIsQuotaSum(strata, finalK);
  }
}
