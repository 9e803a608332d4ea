/** Grouping positions by stratum mark and drawing from every group: the
    part of stratified sampling that the modern and the legacy engines share.
    The source keeps the groups in an `unordered_map<size_t, vector<size_t>>`
    and iterates over it; the iteration order is left open here. */
module Strata {
  import opened Seqs
  import opened Algorithms

  /** One entry of the `groups` map: a mark and the positions that carry it. */
  datatype Stratum = Stratum(mark: nat, idxs: seq<nat>)

  /** The labels that occur. */
  function LabelSet(labels: seq<nat>): set<nat>
  {
    set p | 0 <= p < |labels| :: labels[p]
  }

  /** The positions carrying mark `l`, in ascending order. */
  function IndicesOf(labels: seq<nat>, l: nat): (r: seq<nat>)
    ensures forall p :: p in r ==> p < |labels| && labels[p] == l
  {
    if labels == [] then []
    else
      var n := |labels| - 1;
      IndicesOf(labels[..n], l) + (if labels[n] == l then [n] else [])
  }

  /** Every position carrying `l` is listed. */
  lemma {:induction false} IndicesOfComplete(labels: seq<nat>, l: nat, p: nat)
    requires p < |labels| && labels[p] == l
    ensures p in IndicesOf(labels, l)
  {
    var n := |labels| - 1;
    if p < n {
      assert labels[..n][p] == l;
      IndicesOfComplete(labels[..n], l, p);
    }
  }

  /** A label that does not occur has no positions. */
  lemma IndicesOfAbsent(labels: seq<nat>, l: nat)
    requires l !in LabelSet(labels)
    ensures IndicesOf(labels, l) == []
  {
    var r := IndicesOf(labels, l);
    assert forall i :: 0 <= i < |r| ==> r[i] in r;
  }

  predicate Increasing(s: seq<nat>)
  {
    forall i, j :: 0 <= i < j < |s| ==> s[i] < s[j]
  }

  /** A group lists its positions in the order the loop visits them. */
  lemma {:induction false} IndicesOfIncreasing(labels: seq<nat>, l: nat)
    ensures Increasing(IndicesOf(labels, l))
  {
    if labels != [] {
      var n := |labels| - 1;
      var prefix := IndicesOf(labels[..n], l);
      IndicesOfIncreasing(labels[..n], l);
      var r := IndicesOf(labels, l);
      forall i, j | 0 <= i < j < |r| ensures r[i] < r[j] {
        assert r[i] == prefix[i] && prefix[i] in prefix;
        if j >= |prefix| {
          assert r[j] == n;
        }
      }
    }
  }

  function LabelSeq(strata: seq<Stratum>): (r: seq<nat>)
    ensures |r| == |strata|
  {
    seq(|strata|, k requires 0 <= k < |strata| => strata[k].mark)
  }

  /** `strata` is an enumeration of the groups of `labels`: each mark once,
      with the positions that carry it. */
  predicate GroupsOf(labels: seq<nat>, strata: seq<Stratum>)
  {
    Distinct(LabelSeq(strata)) &&
    (forall k :: 0 <= k < |strata| ==> strata[k].idxs == IndicesOf(labels, strata[k].mark)) &&
    (forall p :: 0 <= p < |labels| ==> labels[p] in LabelSeq(strata)) &&
    (forall k :: 0 <= k < |strata| ==> strata[k].mark in LabelSet(labels))
  }

  /** The grouping loop: `groups[strataLabels[i]].push_back(i)` for every `i`. */
  method GroupByLabel(labels: seq<nat>) returns (groups: map<nat, seq<nat>>)
    ensures groups.Keys == LabelSet(labels)
    ensures forall l :: l in groups ==> groups[l] == IndicesOf(labels, l)
  {
    groups := map[];
    var i := 0;
    while i < |labels|
      invariant 0 <= i <= |labels|
      invariant Grouped(groups, labels[..i])
    {
      var l := labels[i];
      GroupStep(groups, labels, i);
      var idxs := if l in groups then groups[l] else [];
      groups := groups[l := idxs + [i]];
      i := i + 1;
    }
    assert labels[..i] == labels;
  }

  /** Adding position `i` keeps the groups those of the prefix `labels[..i + 1]`. */
  /** `groups` maps every label of `labels` to its positions. */
  predicate Grouped(groups: map<nat, seq<nat>>, labels: seq<nat>)
  {
    groups.Keys == LabelSet(labels) && forall l :: l in groups ==> groups[l] == IndicesOf(labels, l)
  }

  lemma GroupStep(groups: map<nat, seq<nat>>, labels: seq<nat>, i: nat)
    requires i < |labels| && Grouped(groups, labels[..i])
    ensures var l := labels[i];
            Grouped(groups[l := (if l in groups then groups[l] else []) + [i]], labels[..i + 1])
  {
    var l := labels[i];
    LabelSetSnoc(labels, i);
    if l !in groups {
      IndicesOfAbsent(labels[..i], l);
    }
    forall m ensures IndicesOf(labels[..i + 1], m) == IndicesOf(labels[..i], m) + (if l == m then [i] else []) {
      IndicesOfSnoc(labels, i, m);
    }
  }

  lemma IndicesOfSnoc(labels: seq<nat>, i: nat, l: nat)
    requires i < |labels|
    ensures IndicesOf(labels[..i + 1], l) == IndicesOf(labels[..i], l) + (if labels[i] == l then [i] else [])
  {
    assert labels[..i + 1][..i] == labels[..i];
  }

  lemma LabelSetSnoc(labels: seq<nat>, i: nat)
    requires i < |labels|
    ensures LabelSet(labels[..i + 1]) == LabelSet(labels[..i]) + {labels[i]}
  {
    assert labels[..i + 1] == labels[..i] + [labels[i]];
  }

  /** The labels of the stratified and quota tests: four 1s, five 0s, three 2s and six 3s. */
  function TestLabels(): (r: seq<nat>)
    ensures |r| == 18
  {
    seq(18, p => if p < 4 then 1 else if p < 9 then 0 else if p < 12 then 2 else 3)
  }

  /** Three positions carrying `l` put three entries in its group. */
  lemma ThreeOf(labels: seq<nat>, l: nat, a: nat, b: nat, c: nat)
    requires a < b < c < |labels| && labels[a] == l && labels[b] == l && labels[c] == l
    ensures 3 <= |IndicesOf(labels, l)|
  {
    var r := IndicesOf(labels, l);
    IndicesOfComplete(labels, l, a);
    IndicesOfComplete(labels, l, b);
    IndicesOfComplete(labels, l, c);
    var i :| 0 <= i < |r| && r[i] == a;
    var j :| 0 <= j < |r| && r[j] == b;
    var k :| 0 <= k < |r| && r[k] == c;
  }

  /** Iteration over the groups map: every entry once, in an order left open. */
  method IterationOrder(groups: map<nat, seq<nat>>) returns (strata: seq<Stratum>)
    ensures Distinct(LabelSeq(strata))
    ensures forall l :: l in groups <==> l in LabelSeq(strata)
    ensures forall k :: 0 <= k < |strata| ==> strata[k].mark in groups && strata[k].idxs == groups[strata[k].mark]
  {
    strata := [];
    var remaining := groups.Keys;
    while remaining != {}
      invariant remaining <= groups.Keys
      invariant Distinct(LabelSeq(strata))
      invariant forall l :: l in groups <==> l in LabelSeq(strata) || l in remaining
      invariant forall l :: l in remaining ==> l !in LabelSeq(strata)
      invariant forall k :: 0 <= k < |strata| ==> strata[k].mark in groups && strata[k].idxs == groups[strata[k].mark]
      decreases |remaining|
    {
      var l :| l in remaining;
      assert LabelSeq(strata + [Stratum(l, groups[l])]) == LabelSeq(strata) + [l];
      strata := strata + [Stratum(l, groups[l])];
      remaining := remaining - {l};
    }
  }

  /** The grouping of the stratified samplers: the map, then its iteration. */
  method Group(labels: seq<nat>) returns (strata: seq<Stratum>)
    ensures GroupsOf(labels, strata)
  {
    var groups := GroupByLabel(labels);
    strata := IterationOrder(groups);
    forall p | 0 <= p < |labels| ensures labels[p] in LabelSeq(strata) {
      assert labels[p] in groups;
    }
  }

  /** Every group is non-empty and lists positions of `labels`. */
  lemma GroupNonEmpty(labels: seq<nat>, strata: seq<Stratum>, k: nat)
    requires GroupsOf(labels, strata) && k < |strata|
    ensures 0 < |strata[k].idxs|
    ensures forall i :: 0 <= i < |strata[k].idxs| ==> strata[k].idxs[i] < |labels| && labels[strata[k].idxs[i]] == strata[k].mark
  {
    var l := strata[k].mark;
    var p :| 0 <= p < |labels| && labels[p] == l;
    IndicesOfComplete(labels, l, p);
    assert forall i :: 0 <= i < |strata[k].idxs| ==> strata[k].idxs[i] in strata[k].idxs;
  }

  /** Sum of the group sizes. */
  function SumSizes(strata: seq<Stratum>): nat
  {
    if strata == [] then 0
    else SumSizes(strata[..|strata| - 1]) + |strata[|strata| - 1].idxs|
  }

  /** Number of occurrences of `x` in `s`. */
  function Occ(s: seq<nat>, x: nat): (c: nat)
    ensures c <= |s|
  {
    if s == [] then 0
    else Occ(s[..|s| - 1], x) + (if s[|s| - 1] == x then 1 else 0)
  }

  lemma {:induction false} OccDistinct(s: seq<nat>, x: nat)
    requires Distinct(s)
    ensures Occ(s, x) == if x in s then 1 else 0
  {
    if s != [] {
      var n := |s| - 1;
      assert s == s[..n] + [s[n]];
      OccDistinct(s[..n], x);
    }
  }

  /** Sum of the sizes the groups of `labels` for the labels `ls` would have. */
  function Total(labels: seq<nat>, ls: seq<nat>): nat
  {
    if ls == [] then 0
    else Total(labels, ls[..|ls| - 1]) + |IndicesOf(labels, ls[|ls| - 1])|
  }

  lemma {:induction false} TotalSnoc(labels: seq<nat>, x: nat, ls: seq<nat>)
    ensures Total(labels + [x], ls) == Total(labels, ls) + Occ(ls, x)
  {
    if ls != [] {
      var n := |ls| - 1;
      TotalSnoc(labels, x, ls[..n]);
      assert (labels + [x])[..|labels|] == labels;
    }
  }

  lemma {:induction false} TotalCovers(labels: seq<nat>, ls: seq<nat>)
    requires Distinct(ls)
    requires forall p :: 0 <= p < |labels| ==> labels[p] in ls
    ensures Total(labels, ls) == |labels|
  {
    if labels == [] {
      TotalEmpty(ls);
    } else {
      var n := |labels| - 1;
      assert labels == labels[..n] + [labels[n]];
      TotalCovers(labels[..n], ls);
      TotalSnoc(labels[..n], labels[n], ls);
      OccDistinct(ls, labels[n]);
    }
  }

  lemma {:induction false} TotalEmpty(ls: seq<nat>)
    ensures Total([], ls) == 0
  {
    if ls != [] {
      TotalEmpty(ls[..|ls| - 1]);
    }
  }

  lemma {:induction false} SumSizesIsTotal(labels: seq<nat>, strata: seq<Stratum>)
    requires forall k :: 0 <= k < |strata| ==> strata[k].idxs == IndicesOf(labels, strata[k].mark)
    ensures SumSizes(strata) == Total(labels, LabelSeq(strata))
  {
    if strata != [] {
      var n := |strata| - 1;
      SumSizesIsTotal(labels, strata[..n]);
      assert LabelSeq(strata)[..n] == LabelSeq(strata[..n]);
    }
  }

  /** The groups partition the positions: their sizes add up to the data size. */
  lemma GroupSizesSum(labels: seq<nat>, strata: seq<Stratum>)
    requires GroupsOf(labels, strata)
    ensures SumSizes(strata) == |labels|
  {
    SumSizesIsTotal(labels, strata);
    TotalCovers(labels, LabelSeq(strata));
  }

  /** Every listed position is a position of a sequence of length `n`. */
  predicate InRange(ps: seq<nat>, n: nat)
  {
    forall i :: 0 <= i < |ps| ==> ps[i] < n
  }

  predicate Drawable(strata: seq<Stratum>, n: nat)
  {
    forall k :: 0 <= k < |strata| ==> InRange(strata[k].idxs, n)
  }

  /** One draw mask per group, as long as the group. */
  predicate MasksFit(strata: seq<Stratum>, masks: seq<seq<bool>>)
  {
    |masks| == |strata| && forall k :: 0 <= k < |strata| ==> |masks[k]| == |strata[k].idxs|
  }

  /** The positions a draw keeps, group after group in iteration order. */
  function Chosen(strata: seq<Stratum>, masks: seq<seq<bool>>): seq<nat>
    requires MasksFit(strata, masks)
  {
    if strata == [] then []
    else
      var n := |strata| - 1;
      Chosen(strata[..n], masks[..n]) + Keep(strata[n].idxs, masks[n])
  }

  /** The data values at the listed positions. */
  function Gather<T>(data: seq<T>, ps: seq<nat>): (r: seq<T>)
    requires InRange(ps, |data|)
    ensures |r| == |ps|
  {
    seq(|ps|, i requires 0 <= i < |ps| => data[ps[i]])
  }

  lemma GatherAppend<T>(data: seq<T>, a: seq<nat>, b: seq<nat>)
    requires InRange(a, |data|) && InRange(b, |data|)
    ensures InRange(a + b, |data|)
    ensures Gather(data, a + b) == Gather(data, a) + Gather(data, b)
  {
  }

  lemma {:induction false} KeepInRange(idxs: seq<nat>, mask: seq<bool>, n: nat)
    requires |mask| == |idxs| && InRange(idxs, n)
    ensures InRange(Keep(idxs, mask), n)
  {
    var kept := Keep<nat>(idxs, mask);
    forall i | 0 <= i < |kept| ensures kept[i] < n {
      assert kept[i] in kept;
      KeepMember<nat>(idxs, mask, kept[i]);
      var j :| 0 <= j < |idxs| && idxs[j] == kept[i];
    }
  }

  lemma ChosenStep(strata: seq<Stratum>, masks: seq<seq<bool>>, mask: seq<bool>, k: nat)
    requires k < |strata| && MasksFit(strata[..k], masks) && |mask| == |strata[k].idxs|
    ensures MasksFit(strata[..k + 1], masks + [mask])
    ensures Chosen(strata[..k + 1], masks + [mask]) == Chosen(strata[..k], masks) + Keep(strata[k].idxs, mask)
  {
    assert strata[..k + 1][..k] == strata[..k];
    assert (masks + [mask])[..k] == masks;
  }

  /** `for (auto id : picked) out.push_back(data[id])`. */
  method PushValues<T>(out: seq<T>, data: seq<T>, picked: seq<nat>) returns (r: seq<T>)
    requires InRange(picked, |data|)
    ensures r == out + Gather(data, picked)
  {
    r := out;
    var j := 0;
    while j < |picked|
      invariant 0 <= j <= |picked|
      invariant r == out + Gather(data, picked[..j])
    {
      assert picked[..j + 1] == picked[..j] + [picked[j]];
      GatherAppend(data, picked[..j], [picked[j]]);
      r := r + [data[picked[j]]];
      j := j + 1;
    }
    assert picked[..j] == picked;
  }

  /** The draw loop: for every group in turn, `std::sample` of
      `min(k, |group|)` of its positions, then `data[id]` for each. */
  method DrawFromStrata<T>(data: seq<T>, strata: seq<Stratum>, ks: seq<nat>)
    returns (out: seq<T>, ghost masks: seq<seq<bool>>)
    requires |ks| == |strata| && Drawable(strata, |data|)
    ensures MasksFit(strata, masks)
    ensures forall k :: 0 <= k < |strata| ==> CountTrue(masks[k]) == MinNat(ks[k], |strata[k].idxs|)
    ensures InRange(Chosen(strata, masks), |data|)
    ensures out == Gather(data, Chosen(strata, masks))
  {
    out, masks := [], [];
    var k := 0;
    while k < |strata|
      invariant 0 <= k <= |strata|
      invariant MasksFit(strata[..k], masks)
      invariant forall m :: 0 <= m < k ==> CountTrue(masks[m]) == MinNat(ks[m], |strata[m].idxs|)
      invariant InRange(Chosen(strata[..k], masks), |data|)
      invariant out == Gather(data, Chosen(strata[..k], masks))
    {
      var idxs := strata[k].idxs;
      var picked, mask := Sample(idxs, MinNat(ks[k], |idxs|));
      DrawStep(data, strata, ks, masks, mask, k);
      out := PushValues(out, data, picked);
      masks := masks + [mask];
      k := k + 1;
    }
    assert strata[..k] == strata;
  }

  /** The draw of group `k` extends what the loop over the groups before it established. */
  lemma DrawStep<T>(data: seq<T>, strata: seq<Stratum>, ks: seq<nat>, masks: seq<seq<bool>>, mask: seq<bool>, k: nat)
    requires k < |strata| && |ks| == |strata| && Drawable(strata, |data|)
    requires MasksFit(strata[..k], masks) && InRange(Chosen(strata[..k], masks), |data|)
    requires forall m :: 0 <= m < k ==> CountTrue(masks[m]) == MinNat(ks[m], |strata[m].idxs|)
    requires |mask| == |strata[k].idxs| && CountTrue(mask) == MinNat(ks[k], |strata[k].idxs|)
    ensures InRange(Keep(strata[k].idxs, mask), |data|)
    ensures MasksFit(strata[..k + 1], masks + [mask])
    ensures forall m :: 0 <= m < k + 1 ==> CountTrue((masks + [mask])[m]) == MinNat(ks[m], |strata[m].idxs|)
    ensures InRange(Chosen(strata[..k + 1], masks + [mask]), |data|)
    ensures Gather(data, Chosen(strata[..k + 1], masks + [mask])) ==
            Gather(data, Chosen(strata[..k], masks)) + Gather(data, Keep(strata[k].idxs, mask))
  {
    var idxs := strata[k].idxs;
    assert InRange(idxs, |data|);
    KeepInRange(idxs, mask, |data|);
    GatherAppend(data, Chosen(strata[..k], masks), Keep(idxs, mask));
    ChosenStep(strata, masks, mask, k);
  }

  /** How many elements the draw yields: each group gives `min(k, |group|)`. */
  function CappedTotal(strata: seq<Stratum>, ks: seq<nat>): nat
    requires |ks| == |strata|
  {
    if strata == [] then 0
    else
      var n := |strata| - 1;
      CappedTotal(strata[..n], ks[..n]) + MinNat(ks[n], |strata[n].idxs|)
  }

  /** The draw yields exactly the capped quotas' total. */
  lemma {:induction false} ChosenSize(strata: seq<Stratum>, ks: seq<nat>, masks: seq<seq<bool>>)
    requires |ks| == |strata| && MasksFit(strata, masks)
    requires forall k :: 0 <= k < |strata| ==> CountTrue(masks[k]) == MinNat(ks[k], |strata[k].idxs|)
    ensures |Chosen(strata, masks)| == CappedTotal(strata, ks)
  {
    if strata != [] {
      var n := |strata| - 1;
      ChosenSize(strata[..n], ks[..n], masks[..n]);
    }
  }

  /** A chosen position carries the label of one of the groups. */
  lemma {:induction false} ChosenLabels(labels: seq<nat>, strata: seq<Stratum>, masks: seq<seq<bool>>, p: nat)
    requires MasksFit(strata, masks)
    requires forall k :: 0 <= k < |strata| ==> strata[k].idxs == IndicesOf(labels, strata[k].mark)
    requires p in Chosen(strata, masks)
    ensures p < |labels| && labels[p] in LabelSeq(strata)
  {
    var n := |strata| - 1;
    assert LabelSeq(strata) == LabelSeq(strata[..n]) + [strata[n].mark];
    if p in Chosen(strata[..n], masks[..n]) {
      ChosenLabels(labels, strata[..n], masks[..n], p);
    } else {
      KeepMember(strata[n].idxs, masks[n], p);
    }
  }

  lemma {:induction false} KeepIncreasing(s: seq<nat>, mask: seq<bool>)
    requires |mask| == |s| && Increasing(s)
    ensures Increasing(Keep(s, mask))
  {
    if s != [] {
      var n := |s| - 1;
      var prefix := Keep(s[..n], mask[..n]);
      KeepIncreasing(s[..n], mask[..n]);
      forall i | 0 <= i < |prefix| ensures prefix[i] < s[n] {
        KeepMember(s[..n], mask[..n], prefix[i]);
      }
      assert Keep(s, mask) == prefix + (if mask[n] then [s[n]] else []);
    }
  }

  /** No position is drawn twice: groups list distinct positions and the
      groups of different labels are disjoint. */
  lemma {:induction false} ChosenDistinct(labels: seq<nat>, strata: seq<Stratum>, masks: seq<seq<bool>>)
    requires MasksFit(strata, masks) && Distinct(LabelSeq(strata))
    requires forall k :: 0 <= k < |strata| ==> strata[k].idxs == IndicesOf(labels, strata[k].mark)
    ensures Distinct(Chosen(strata, masks))
  {
    if strata != [] {
      var n := |strata| - 1;
      assert LabelSeq(strata) == LabelSeq(strata[..n]) + [strata[n].mark];
      assert LabelSeq(strata[..n]) == LabelSeq(strata)[..n];
      ChosenDistinct(labels, strata[..n], masks[..n]);
      var a, b := Chosen(strata[..n], masks[..n]), Keep(strata[n].idxs, masks[n]);
      IndicesOfIncreasing(labels, strata[n].mark);
      KeepIncreasing(strata[n].idxs, masks[n]);
      assert strata[n].mark !in LabelSeq(strata[..n]) by {
        forall i | 0 <= i < n ensures LabelSeq(strata[..n])[i] != strata[n].mark {
          assert LabelSeq(strata)[i] == LabelSeq(strata[..n])[i] == strata[i].mark;
          assert LabelSeq(strata)[n] == strata[n].mark;
          assert LabelSeq(strata)[i] != LabelSeq(strata)[n];
        }
      }
      forall p | p in a ensures p !in b {
        ChosenLabels(labels, strata[..n], masks[..n], p);
        if p in b {
          KeepMember(strata[n].idxs, masks[n], p);
        }
      }
      DistinctAppend(a, b);
    }
  }
}
