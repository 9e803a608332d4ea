/** `nr::NonProbabilitySampling` (Numera/stats/NonProbabilitySampling.h):
    quota, haphazard and convenience sampling, over a vector and over a
    `NumericSample`. Quota sampling visits an `unordered_map` of groups,
    whose order is left open; haphazard sampling shuffles, and the shuffle
    may be any permutation. */
module NonProbabilitySampling {
  import opened Seqs
  import opened Algorithms
  import opened Strata
  import opened NumericSampleCore
  import opened Wrappers

  /** The one failure the samplers can run into: the `std::length_error` of a
      `reserve` beyond the vector's `max_size()`. */
  datatype ReserveError = LengthError

  /** The values whose label is `l`, in the order of the data. */
  function ValuesOf<T>(data: seq<T>, labels: seq<nat>, l: nat): seq<T>
    requires |labels| == |data|
  {
    if data == [] then []
    else
      var n := |data| - 1;
      ValuesOf(data[..n], labels[..n], l) + (if labels[n] == l then [data[n]] else [])
  }

  /** A group holds as many values as there are positions with its label. */
  lemma {:induction false} ValuesCount<T>(data: seq<T>, labels: seq<nat>, l: nat)
    requires |labels| == |data|
    ensures |ValuesOf(data, labels, l)| == |IndicesOf(labels, l)|
  {
    if data != [] {
      ValuesCount(data[..|data| - 1], labels[..|data| - 1], l);
    }
  }

  /** Every value of a group is a value of the data at a position carrying the group's label. */
  lemma {:induction false} ValuesFromData<T>(data: seq<T>, labels: seq<nat>, l: nat, x: T)
    requires |labels| == |data| && x in ValuesOf(data, labels, l)
    ensures exists p :: 0 <= p < |data| && labels[p] == l && data[p] == x
  {
    var n := |data| - 1;
    if x in ValuesOf(data[..n], labels[..n], l) {
      ValuesFromData(data[..n], labels[..n], l, x);
      var p :| 0 <= p < n && labels[..n][p] == l && data[..n][p] == x;
      assert labels[p] == l && data[p] == x;
    } else {
      assert labels[n] == l && data[n] == x;
    }
  }

  /** `groups` maps every label of `labels` to its values. */
  ghost predicate ValuesGrouped<T>(groups: map<nat, seq<T>>, data: seq<T>, labels: seq<nat>)
    requires |labels| == |data|
  {
    groups.Keys == LabelSet(labels) && forall l :: l in groups ==> groups[l] == ValuesOf(data, labels, l)
  }

  /** The grouping loop: `groups[labels[i]].push_back(data[i])` for every `i`. */
  method GroupValues<T>(data: seq<T>, labels: seq<nat>) returns (groups: map<nat, seq<T>>)
    requires |labels| == |data|
    ensures groups.Keys == LabelSet(labels)
    ensures forall l :: l in groups ==> groups[l] == ValuesOf(data, labels, l)
  {
    groups := map[];
    var i := 0;
    while i < |data|
      invariant 0 <= i <= |data|
      invariant ValuesGrouped(groups, data[..i], labels[..i])
    {
      var l := labels[i];
      ValuesStep(groups, data, labels, i);
      var vec := if l in groups then groups[l] else [];
      groups := groups[l := vec + [data[i]]];
      i := i + 1;
    }
    assert data[..i] == data && labels[..i] == labels;
  }

  /** Adding position `i` keeps the groups those of the prefixes up to `i + 1`. */
  lemma ValuesStep<T>(groups: map<nat, seq<T>>, data: seq<T>, labels: seq<nat>, i: nat)
    requires |labels| == |data| && i < |data|
    requires ValuesGrouped(groups, data[..i], labels[..i])
    ensures var l := labels[i];
            ValuesGrouped(groups[l := (if l in groups then groups[l] else []) + [data[i]]], data[..i + 1], labels[..i + 1])
  {
    var l := labels[i];
    LabelSetSnoc(labels, i);
    assert data[..i + 1][..i] == data[..i] && labels[..i + 1][..i] == labels[..i];
    if l !in groups {
      IndicesOfAbsent(labels[..i], l);
      ValuesCount(data[..i], labels[..i], l);
    }
  }

  /** What one group contributes: its first `min(quota, |group|)` values, or
      nothing when its label has no quota. */
  function Block<T>(data: seq<T>, labels: seq<nat>, quotas: map<nat, nat>, l: nat): seq<T>
    requires |labels| == |data|
  {
    if l in quotas then Take(ValuesOf(data, labels, l), quotas[l]) else []
  }

  /** The blocks of the groups, one after the other in the order `order`. */
  function Blocks<T>(data: seq<T>, labels: seq<nat>, quotas: map<nat, nat>, order: seq<nat>): seq<T>
    requires |labels| == |data|
  {
    if order == [] then []
    else
      var n := |order| - 1;
      Blocks(data, labels, quotas, order[..n]) + Block(data, labels, quotas, order[n])
  }

  /** How many values the group of `l` contributes. */
  function Taken(labels: seq<nat>, quotas: map<nat, nat>, l: nat): nat
  {
    if l in quotas then MinNat(quotas[l], |IndicesOf(labels, l)|) else 0
  }

  /** The sum of `Taken` over the labels of `order`. */
  function TakenTotal(labels: seq<nat>, quotas: map<nat, nat>, order: seq<nat>): nat
  {
    if order == [] then 0
    else TakenTotal(labels, quotas, order[..|order| - 1]) + Taken(labels, quotas, order[|order| - 1])
  }

  /** `quotaSample`: empty for empty data, mismatched labels or no quotas;
      otherwise, for every group in the map's order, its first
      `min(quota, |group|)` values. `order` is the order the groups were visited in. */
  method QuotaSample<T>(data: seq<T>, labels: seq<nat>, quotas: map<nat, nat>)
    returns (out: seq<T>, ghost order: seq<nat>)
    ensures data == [] || |labels| != |data| || quotas == map[] ==> out == []
    ensures data != [] && |labels| == |data| && quotas != map[] ==>
      Distinct(order) && (forall l :: l in order <==> l in LabelSet(labels)) &&
      out == Blocks(data, labels, quotas, order)
  {
    if data == [] || |labels| != |data| || quotas == map[] {
      return [], [];
    }
    var groups := GroupValues(data, labels);
    out, order := VisitGroups(data, labels, quotas, groups);
  }

  /** The loop over the groups of `quotaSample`, in the map's order. */
  method VisitGroups<T>(data: seq<T>, labels: seq<nat>, quotas: map<nat, nat>, groups: map<nat, seq<T>>)
    returns (out: seq<T>, ghost order: seq<nat>)
    requires |labels| == |data|
    requires forall l :: l in groups ==> groups[l] == ValuesOf(data, labels, l)
    ensures Distinct(order) && (forall l :: l in order <==> l in groups)
    ensures out == Blocks(data, labels, quotas, order)
  {
    out, order := [], [];
    var remaining := groups.Keys;
    while remaining != {}
      invariant remaining <= groups.Keys
      invariant Distinct(order)
      invariant forall l :: l in groups <==> l in order || l in remaining
      invariant forall l :: l in remaining ==> l !in order
      invariant out == Blocks(data, labels, quotas, order)
      decreases |remaining|
    {
      var l :| l in remaining;
      var vec := groups[l];
      BlockIs(data, labels, quotas, l, vec);
      BlocksSnoc(data, labels, quotas, order, l);
      if l in quotas && vec != [] {
        out := PushFirst(out, vec, MinNat(quotas[l], |vec|));
      }
      DistinctAppend(order, [l]);
      order := order + [l];
      remaining := remaining - {l};
    }
  }

  /** `for (i = 0; i < k; ++i) out.push_back(vec[i])`. */
  method PushFirst<T>(out: seq<T>, vec: seq<T>, k: nat) returns (r: seq<T>)
    requires k <= |vec|
    ensures r == out + vec[..k]
  {
    r := out;
    var i := 0;
    while i < k
      invariant 0 <= i <= k
      invariant r == out + vec[..i]
    {
      r := r + [vec[i]];
      i := i + 1;
    }
  }

  /** The block of a group is the prefix the quota loop pushes, or nothing. */
  lemma BlockIs<T>(data: seq<T>, labels: seq<nat>, quotas: map<nat, nat>, l: nat, vec: seq<T>)
    requires |labels| == |data| && vec == ValuesOf(data, labels, l)
    ensures Block(data, labels, quotas, l) ==
            if l in quotas && vec != [] then vec[..MinNat(quotas[l], |vec|)] else []
  {
  }

  lemma BlocksSnoc<T>(data: seq<T>, labels: seq<nat>, quotas: map<nat, nat>, order: seq<nat>, l: nat)
    requires |labels| == |data|
    ensures Blocks(data, labels, quotas, order + [l]) == Blocks(data, labels, quotas, order) + Block(data, labels, quotas, l)
  {
    assert (order + [l])[..|order|] == order;
  }

  /** The blocks together hold `sum of min(quota, |group|)` values. */
  lemma {:induction false} BlocksSize<T>(data: seq<T>, labels: seq<nat>, quotas: map<nat, nat>, order: seq<nat>)
    requires |labels| == |data|
    ensures |Blocks(data, labels, quotas, order)| == TakenTotal(labels, quotas, order)
  {
    if order != [] {
      var n := |order| - 1;
      BlocksSize(data, labels, quotas, order[..n]);
      ValuesCount(data, labels, order[n]);
    }
  }

  /** Every value of a quota sample is a value of the data whose label has a quota. */
  lemma {:induction false} BlocksFromData<T>(data: seq<T>, labels: seq<nat>, quotas: map<nat, nat>, order: seq<nat>, x: T)
    requires |labels| == |data| && x in Blocks(data, labels, quotas, order)
    ensures exists p :: 0 <= p < |data| && labels[p] in quotas && data[p] == x
  {
    var n := |order| - 1;
    if x in Blocks(data, labels, quotas, order[..n]) {
      BlocksFromData(data, labels, quotas, order[..n], x);
    } else {
      var l := order[n];
      var vs := ValuesOf(data, labels, l);
      assert x in vs[..|Take(vs, quotas[l])|];
      ValuesFromData(data, labels, l, x);
    }
  }

  lemma {:induction false} TakenTotalAppend(labels: seq<nat>, quotas: map<nat, nat>, a: seq<nat>, b: seq<nat>)
    ensures TakenTotal(labels, quotas, a + b) == TakenTotal(labels, quotas, a) + TakenTotal(labels, quotas, b)
  {
    if b != [] {
      var n := |b| - 1;
      assert (a + b)[..|a + b| - 1] == a + b[..n];
      TakenTotalAppend(labels, quotas, a, b[..n]);
    } else {
      assert a + b == a;
    }
  }

  /** The order the groups are visited in does not change how many values are taken. */
  lemma {:induction false} TakenTotalReordered(labels: seq<nat>, quotas: map<nat, nat>, a: seq<nat>, b: seq<nat>)
    requires multiset(a) == multiset(b)
    ensures TakenTotal(labels, quotas, a) == TakenTotal(labels, quotas, b)
    decreases |a|
  {
    if a == [] {
      assert |b| == |multiset(b)| == 0;
    } else {
      var n := |a| - 1;
      var x := a[n];
      assert x in multiset(a);
      assert x in b;
      var i :| 0 <= i < |b| && b[i] == x;
      var rest := b[..i] + b[i + 1..];
      WithoutOne(b, i);
      WithoutLast(a);
      assert multiset(a[..n]) == multiset(rest);
      TakenTotalReordered(labels, quotas, a[..n], rest);
      TakenTotalSplit(labels, quotas, b, i);
    }
  }

  lemma WithoutLast(a: seq<nat>)
    requires a != []
    ensures multiset(a[..|a| - 1]) == multiset(a) - multiset{a[|a| - 1]}
  {
    assert a == a[..|a| - 1] + [a[|a| - 1]];
  }

  /** Taking one label out of the middle of `b` takes its count out of the total. */
  lemma TakenTotalSplit(labels: seq<nat>, quotas: map<nat, nat>, b: seq<nat>, i: nat)
    requires i < |b|
    ensures TakenTotal(labels, quotas, b) == TakenTotal(labels, quotas, b[..i] + b[i + 1..]) + Taken(labels, quotas, b[i])
  {
    assert b == b[..i] + ([b[i]] + b[i + 1..]);
    TakenTotalAppend(labels, quotas, b[..i], [b[i]] + b[i + 1..]);
    TakenTotalAppend(labels, quotas, [b[i]], b[i + 1..]);
    TakenTotalAppend(labels, quotas, b[..i], b[i + 1..]);
    assert TakenTotal(labels, quotas, [b[i]]) == Taken(labels, quotas, b[i]) by {
      assert [b[i]][..0] == [];
    }
  }

  lemma WithoutOne(s: seq<nat>, i: nat)
    requires i < |s|
    ensures s == s[..i] + [s[i]] + s[i + 1..]
    ensures multiset(s[..i] + s[i + 1..]) == multiset(s) - multiset{s[i]}
  {
    assert s == s[..i] + [s[i]] + s[i + 1..];
  }

  /** Two sequences without repetitions that list the same elements are permutations of each other. */
  lemma SameElements(a: seq<nat>, b: seq<nat>)
    requires Distinct(a) && Distinct(b) && forall x :: x in a <==> x in b
    ensures multiset(a) == multiset(b)
  {
    forall x ensures multiset(a)[x] == multiset(b)[x] {
      DistinctCountsOnce(a, x);
      DistinctCountsOnce(b, x);
      if x in a {
        assert x in multiset(a) && x in multiset(b);
      } else {
        assert x !in multiset(a) && x !in multiset(b);
      }
    }
  }

  /** A quota sample holds `sum of min(quota, |group|)` values, whatever
      the order the groups were visited in, and only values of the data. */
  lemma QuotaSize<T>(data: seq<T>, labels: seq<nat>, quotas: map<nat, nat>, order: seq<nat>, canonical: seq<nat>)
    requires |labels| == |data| && Distinct(order) && Distinct(canonical)
    requires forall l :: l in order <==> l in LabelSet(labels)
    requires forall l :: l in canonical <==> l in LabelSet(labels)
    ensures |Blocks(data, labels, quotas, order)| == TakenTotal(labels, quotas, canonical)
  {
    BlocksSize(data, labels, quotas, order);
    SameElements(order, canonical);
    TakenTotalReordered(labels, quotas, order, canonical);
  }

  /** The quota test: quotas 2, 2, 1 and 3 for the labels 0 to 3 over 18
      values give 8 values, whatever the order the groups are visited in. */
  lemma QuotaEightOfEighteen<T>(data: seq<T>, quotas: map<nat, nat>, order: seq<nat>)
    requires |data| == 18 && quotas == map[0 := 2, 1 := 2, 2 := 1, 3 := 3]
    requires Distinct(order) && forall l :: l in order <==> l in LabelSet(TestLabels())
    ensures |Blocks(data, TestLabels(), quotas, order)| == 8
  {
    var labels := TestLabels();
    var canonical: seq<nat> := [1, 0, 2, 3];
    TestLabelSet(labels, canonical);
    QuotaSize(data, labels, quotas, order, canonical);
    TestGroupsLarge(labels);
    TestTotal(labels, quotas, canonical);
  }

  /** Each of the four groups of the test has at least three members. */
  lemma TestGroupsLarge(labels: seq<nat>)
    requires labels == TestLabels()
    ensures forall l :: 0 <= l < 4 ==> 3 <= |IndicesOf(labels, l)|
  {
    ThreeOf(labels, 1, 0, 1, 2);
    ThreeOf(labels, 0, 4, 5, 6);
    ThreeOf(labels, 2, 9, 10, 11);
    ThreeOf(labels, 3, 12, 13, 14);
  }

  lemma TestLabelSet(labels: seq<nat>, canonical: seq<nat>)
    requires labels == TestLabels() && canonical == [1, 0, 2, 3]
    ensures Distinct(canonical) && forall l :: l in canonical <==> l in LabelSet(labels)
  {
    assert labels[0] == 1 && labels[4] == 0 && labels[9] == 2 && labels[12] == 3;
    forall l ensures l in canonical <==> l in LabelSet(labels) {
      if l in LabelSet(labels) {
        var p :| 0 <= p < |labels| && labels[p] == l;
      }
    }
  }

  lemma TestTotal(labels: seq<nat>, quotas: map<nat, nat>, canonical: seq<nat>)
    requires quotas == map[0 := 2, 1 := 2, 2 := 1, 3 := 3] && canonical == [1, 0, 2, 3]
    requires forall l :: 0 <= l < 4 ==> 3 <= |IndicesOf(labels, l)|
    ensures TakenTotal(labels, quotas, canonical) == 8
  {
    assert Taken(labels, quotas, 1) == 2 && Taken(labels, quotas, 0) == 2;
    assert Taken(labels, quotas, 2) == 1 && Taken(labels, quotas, 3) == 3;
    assert [1][..0] == [] && [1, 0][..1] == [1] && [1, 0, 2][..2] == [1, 0] && canonical[..3] == [1, 0, 2];
    assert TakenTotal(labels, quotas, [1]) == 2;
    assert TakenTotal(labels, quotas, [1, 0]) == 4;
    assert TakenTotal(labels, quotas, [1, 0, 2]) == 5;
  }


  /** `haphazardSample`: empty for empty data or a zero size; otherwise a
      shuffled copy, whole when `sampleSize >= n` and cut to its first
      `sampleSize` values otherwise. */
  method HaphazardSample<T>(data: seq<T>, sampleSize: nat) returns (out: seq<T>, ghost shuffled: seq<T>)
    ensures data == [] || sampleSize == 0 ==> out == []
    ensures data != [] && sampleSize > 0 ==>
      multiset(shuffled) == multiset(data) && out == Take(shuffled, sampleSize)
  {
    if data == [] || sampleSize == 0 {
      return [], [];
    }
    var s := ShuffleSeq(data);
    shuffled := s;
    if sampleSize >= |s| {
      return s, shuffled;
    }
    out := s[..sampleSize];
  }

  /** A haphazard sample has `min(sampleSize, n)` values, takes none more
      often than the data holds it, and is a permutation of the whole data
      when `sampleSize >= n`. */
  lemma HaphazardSize<T>(data: seq<T>, sampleSize: nat, out: seq<T>, shuffled: seq<T>)
    requires multiset(shuffled) == multiset(data) && out == Take(shuffled, sampleSize)
    ensures |out| == MinNat(sampleSize, |data|)
    ensures multiset(out) <= multiset(data)
    ensures sampleSize >= |data| ==> multiset(out) == multiset(data)
  {
    assert |shuffled| == |multiset(shuffled)| == |multiset(data)| == |data|;
    assert shuffled == out + shuffled[|out|..];
  }

  /** `convenienceSample`: `reserve(sampleSize)`, which throws when that is
      beyond `maxSize` (the vector's `max_size()`, which depends on the element
      type), then the loop that pushes `data[i]` while `i < n` and fewer than
      `sampleSize` values are out, which leaves the first `min(sampleSize, n)`
      values in order. */
  method ConvenienceSample<T>(data: seq<T>, sampleSize: nat, maxSize: nat) returns (r: Result<seq<T>, ReserveError>)
    ensures r.Failure? <==> data != [] && sampleSize > maxSize
    ensures r.Success? ==> r.value == Take(data, sampleSize)
  {
    if data == [] || sampleSize == 0 {
      return Success([]);
    }
    if sampleSize > maxSize {
      return Failure(LengthError);
    }
    var out := [];
    var i := 0;
    while i < |data| && |out| < sampleSize
      invariant 0 <= i <= |data| && i <= sampleSize
      invariant out == data[..i]
    {
      out := out + [data[i]];
      i := i + 1;
    }
    r := Success(out);
  }

  /** The convenience test: 10 values, 5 asked for gives the first 5; 20
      asked for gives all 10 in order. */
  lemma ConvenienceExample<T>(data: seq<T>)
    requires |data| == 10
    ensures Take(data, 5) == data[..5] && |Take(data, 5)| == 5
    ensures Take(data, 20) == data
  {
  }

  /** `quotaSample` over a `NumericSample`: the same values, in a new sample. */
  method QuotaSampleOf<T>(data: NumericSample<T>, labels: seq<nat>, quotas: map<nat, nat>)
    returns (out: NumericSample<T>, ghost order: seq<nat>)
    ensures fresh(out)
    ensures data.container == [] || |labels| != |data.container| || quotas == map[] ==> out.container == []
    ensures data.container != [] && |labels| == |data.container| && quotas != map[] ==>
      Distinct(order) && (forall l :: l in order <==> l in LabelSet(labels)) &&
      out.container == Blocks(data.container, labels, quotas, order)
  {
    var values;
    values, order := QuotaSample(data.container, labels, quotas);
    out := new NumericSample.FromVector(values);
  }

  /** `haphazardSample` over a `NumericSample`: the same draw, in a new sample. */
  method HaphazardSampleOf<T>(data: NumericSample<T>, sampleSize: nat)
    returns (out: NumericSample<T>, ghost shuffled: seq<T>)
    ensures fresh(out)
    ensures data.container == [] || sampleSize == 0 ==> out.container == []
    ensures data.container != [] && sampleSize > 0 ==>
      multiset(shuffled) == multiset(data.container) && out.container == Take(shuffled, sampleSize)
  {
    var values;
    values, shuffled := HaphazardSample(data.container, sampleSize);
    out := new NumericSample.FromVector(values);
  }

  /** `convenienceSample` over a `NumericSample`: the same prefix, in a new
      sample, after the same `reserve`. */
  method ConvenienceSampleOf<T>(data: NumericSample<T>, sampleSize: nat, maxSize: nat)
    returns (r: Result<NumericSample<T>, ReserveError>)
    ensures r.Failure? <==> data.container != [] && sampleSize > maxSize
    ensures r.Success? ==> fresh(r.value) && r.value.container == Take(data.container, sampleSize)
  {
    var values := ConvenienceSample(data.container, sampleSize, maxSize);
    if values.Failure? {
      return Failure(values.error);
    }
    var out := new NumericSample.FromVector(values.value);
    r := Success(out);
  }
}
