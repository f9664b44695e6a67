/** Greedy growth makes the fewest blocks. */
module AirbandPlannerFewest {
  import opened Sorting
  import opened AirbandPlanner
  import opened AirbandPlannerProofs

  // ----- the fewest blocks ------------------------------------------------------------------

  /** cs[k..j] may stand as one block: a single channel always may. */
  predicate Fits(cs: seq<Channel>, k: nat, j: nat, half: real, most: nat)
  {
    k < j <= |cs| && j - k <= most && (j == k + 1 || Extent(cs, k, j) <= Room(half))
  }

  /** `split` lists the sizes of consecutive blocks, each of which may stand, that use up cs[k..]. */
  ghost predicate IsSplit(cs: seq<Channel>, k: nat, split: seq<nat>, half: real, most: nat)
    decreases |split|
  {
    if split == [] then k == |cs|
    else Fits(cs, k, k + split[0], half, most) && IsSplit(cs, k + split[0], split[1..], half, most)
  }

  ghost predicate NoGiveBack(cs: seq<Channel>, k: nat, half: real, most: nat)
    requires k <= |cs|
    decreases |cs| - k
  {
    k == |cs| ||
    (EndFrom(cs, k, half, most) == GrownEnd(cs, k, k + 1, half, most) &&
     NoGiveBack(cs, EndFrom(cs, k, half, most), half, most))
  }

  /** How many blocks the greedy growth alone makes of cs[k..]. */
  ghost function GreedyCount(cs: seq<Channel>, k: nat, half: real, most: nat): nat
    requires k <= |cs|
    decreases |cs| - k
  {
    if k == |cs| then 0 else 1 + GreedyCount(cs, GrownEnd(cs, k, k + 1, half, most), half, most)
  }

  lemma {:induction false} GrowthReaches(cs: seq<Channel>, k: nat, j: nat, end: nat, half: real, most: nat)
    requires k < j <= end && Fits(cs, k, end, half, most)
    ensures end <= GrownEnd(cs, k, j, half, most)
    decreases |cs| - j
  {
    hide Extent;
    if j < end {
      ExtentGrows(cs, k, j + 1, end);
      GrowthReaches(cs, k, j + 1, end, half, most);
    }
  }

  /** A later start never stops earlier. */
  lemma StaysAhead(cs: seq<Channel>, k: nat, k': nat, half: real, most: nat)
    requires LowerEdgesAscend(cs) && 1 <= most && k <= k' < |cs|
    ensures GrownEnd(cs, k, k + 1, half, most) <= GrownEnd(cs, k', k' + 1, half, most)
  {
    hide High;
    var end := GrownEnd(cs, k, k + 1, half, most);
    if k' + 1 < end {
      GrownFits(cs, k, k + 1, half, most);
      GrownWithin(cs, k, k + 1, half, most);
      LaterStartIsShorter(cs, k, k', end);
      GrowthReaches(cs, k', k' + 1, end, half, most);
    }
  }

  lemma LaterStartIsShorter(cs: seq<Channel>, k: nat, k': nat, end: nat)
    requires LowerEdgesAscend(cs) && k <= k' < end <= |cs|
    ensures Extent(cs, k', end) <= Extent(cs, k, end)
  {
    HighIsHighest(cs[k..end], 0.0);
    HighIsHighest(cs[k'..end], 0.0);
    forall i | 0 <= i < end - k' ensures cs[k'..end][i].HighEdge() <= High(cs[k..end], 0.0) {
      assert cs[k..end][i + (k' - k)] == cs[k'..end][i];
    }
  }

  lemma {:induction false} LaterStartNeedsNoMore(cs: seq<Channel>, k: nat, k': nat, half: real, most: nat)
    requires LowerEdgesAscend(cs) && 1 <= most && k <= k' <= |cs|
    ensures GreedyCount(cs, k', half, most) <= GreedyCount(cs, k, half, most)
    decreases |cs| - k
  {
    hide GrownEnd;
    if k' < |cs| {
      StaysAhead(cs, k, k', half, most);
      LaterStartNeedsNoMore(cs, GrownEnd(cs, k, k + 1, half, most), GrownEnd(cs, k', k' + 1, half, most), half, most);
    }
  }

  lemma {:induction false} GreedyIsFewest(cs: seq<Channel>, k: nat, split: seq<nat>, half: real, most: nat)
    requires LowerEdgesAscend(cs) && 1 <= most && k <= |cs| && IsSplit(cs, k, split, half, most)
    ensures GreedyCount(cs, k, half, most) <= |split|
    decreases |split|
  {
    hide GrownEnd, Extent;
    if split != [] {
      var j := k + split[0];
      GreedyIsFewest(cs, j, split[1..], half, most);
      GrowthReaches(cs, k, k + 1, j, half, most);
      LaterStartNeedsNoMore(cs, j, GrownEnd(cs, k, k + 1, half, most), half, most);
    }
  }

  lemma {:induction false} CutIsGreedy(cs: seq<Channel>, order: seq<nat>, k: nat, half: real, most: nat)
    requires |order| == |cs| && k <= |cs| && NoGiveBack(cs, k, half, most)
    ensures |CutFrom(cs, order, k, half, most)| == GreedyCount(cs, k, half, most)
    decreases |cs| - k
  {
    hide GrownEnd, EndFrom, BlockFrom;
    if k < |cs| {
      CutIsGreedy(cs, order, EndFrom(cs, k, half, most), half, most);
    }
  }

  /** Greedy is optimal: when lower edges ascend and no block gives a channel back, no split of the
      frequency order into consecutive blocks that may stand has fewer blocks than the plan. */
  lemma PlanIsMinimal(channels: seq<Channel>, deviceRateHz: real, usableFraction: real,
                      maxPerBlock: nat, split: seq<nat>)
    requires deviceRateHz > 0.0
    requires (OrderIsFrequencyOrder(channels);
      var cs, half := At(channels, Order(channels)), Half(deviceRateHz, usableFraction);
      var most := if maxPerBlock < 1 then 1 else if maxPerBlock > 64 then 64 else maxPerBlock;
      LowerEdgesAscend(cs) && NoGiveBack(cs, 0, half, most) && IsSplit(cs, 0, split, half, most))
    ensures |Plan(channels, deviceRateHz, usableFraction, maxPerBlock)| <= |split|
  {
    hide CutFrom, NoGiveBack, IsSplit, LowerEdgesAscend;
    OrderIsFrequencyOrder(channels);
    var cs, half := At(channels, Order(channels)), Half(deviceRateHz, usableFraction);
    var most := MostPerBlock(maxPerBlock);
    CutIsGreedy(cs, Order(channels), 0, half, most);
    GreedyIsFewest(cs, 0, split, half, most);
  }

  /** Equal bandwidths are enough for lower edges to ascend. */
  lemma EqualWidthsAscend(channels: seq<Channel>, width: real)
    requires forall i :: 0 <= i < |channels| ==> channels[i].bandwidthHz == width
    ensures Indices(channels, Order(channels)) && LowerEdgesAscend(At(channels, Order(channels)))
  {
    OrderIsFrequencyOrder(channels);
    var order := Order(channels);
    forall i, j | 0 <= i < j < |order|
      ensures At(channels, order)[i].LowEdge() <= At(channels, order)[j].LowEdge()
    {
      assert FreqAt(channels, order[i]) <= FreqAt(channels, order[j]);
    }
  }

  // ----- the fewest blocks of any kind ------------------------------------------------------

  /** The channels the labels put in block b. */
  function Chosen(cs: seq<Channel>, labels: seq<nat>, b: nat): (ms: seq<Channel>)
    requires |labels| == |cs|
    ensures forall c :: c in ms ==> c in cs
  {
    if cs == [] then []
    else
      var n := |cs| - 1;
      Chosen(cs[..n], labels[..n], b) + (if labels[n] == b then [cs[n]] else [])
  }

  /** Channels that may stand as one block, neighbours in frequency or not. */
  predicate MayStand(ms: seq<Channel>, half: real, most: nat)
  {
    |ms| <= most && (|ms| <= 1 || High(ms, 0.0) - ms[0].LowEdge() <= Room(half))
  }

  /** Every channel is given a block, and every block may stand. */
  ghost predicate IsPartition(cs: seq<Channel>, labels: seq<nat>, half: real, most: nat)
  {
    |labels| == |cs| && forall b: nat :: MayStand(Chosen(cs, labels, b), half, most)
  }

  function Names(labels: seq<nat>): set<nat> { set b | b in labels }

  predicate UpperEdgesAscend(cs: seq<Channel>)
  {
    forall i, j :: 0 <= i < j < |cs| ==> cs[i].HighEdge() <= cs[j].HighEdge()
  }

  predicate EdgesAscend(cs: seq<Channel>)
  {
    && LowerEdgesAscend(cs) && UpperEdgesAscend(cs)
    && forall i :: 0 <= i < |cs| ==> cs[i].HighEdge() > 0.0
  }

  lemma {:induction false} ChosenCounts(cs: seq<Channel>, labels: seq<nat>, b: nat)
    requires |labels| == |cs|
    ensures |Chosen(cs, labels, b)| == multiset(labels)[b]
  {
    if cs != [] {
      var n := |cs| - 1;
      ChosenCounts(cs[..n], labels[..n], b);
      assert labels == labels[..n] + [labels[n]];
    }
  }

  lemma {:induction false} ChosenHolds(cs: seq<Channel>, labels: seq<nat>, i: nat)
    requires |labels| == |cs| && LowerEdgesAscend(cs) && i < |cs|
    ensures var ms := Chosen(cs, labels, labels[i]);
      cs[i] in ms && ms[0].LowEdge() <= cs[i].LowEdge()
  {
    var n := |cs| - 1;
    if i < n {
      assert cs[..n][i] == cs[i] && labels[..n][i] == labels[i];
      ChosenHolds(cs[..n], labels[..n], i);
    } else {
      var before := Chosen(cs[..n], labels[..n], labels[n]);
      if before != [] { assert before[0] in cs[..n]; }
    }
  }

  /** Two channels of one block fit the room between them. */
  ghost predicate PairsFit(cs: seq<Channel>, k: nat, labels: seq<nat>, half: real)
    requires |labels| == |cs|
  {
    forall i, j :: k <= i < j < |cs| && labels[i] == labels[j] ==> cs[j].HighEdge() - cs[i].LowEdge() <= Room(half)
  }

  ghost predicate SizesFit(k: nat, labels: seq<nat>, most: nat)
    requires k <= |labels|
  {
    forall b: nat :: multiset(labels[k..])[b] <= most
  }

  lemma PartitionFits(cs: seq<Channel>, labels: seq<nat>, half: real, most: nat)
    requires LowerEdgesAscend(cs) && IsPartition(cs, labels, half, most)
    ensures PairsFit(cs, 0, labels, half) && SizesFit(0, labels, most)
  {
    hide High, LowerEdgesAscend, Chosen;
    forall b: nat ensures multiset(labels[0..])[b] <= most {
      ChosenCounts(cs, labels, b);
      assert labels[0..] == labels && MayStand(Chosen(cs, labels, b), half, most);
    }
    forall i, j | 0 <= i < j < |cs| && labels[i] == labels[j] ensures cs[j].HighEdge() - cs[i].LowEdge() <= Room(half) {
      var ms := Chosen(cs, labels, labels[i]);
      ChosenCounts(cs, labels, labels[i]);
      ChosenHolds(cs, labels, i);
      ChosenHolds(cs, labels, j);
      TwoOfALabel(labels, i, j);
      HighIsHighest(ms, 0.0);
      var at :| 0 <= at < |ms| && ms[at] == cs[j];
      assert MayStand(ms, half, most);
    }
  }

  lemma TwoOfALabel(labels: seq<nat>, i: nat, j: nat)
    requires i < j < |labels| && labels[i] == labels[j]
    ensures multiset(labels)[labels[i]] >= 2
  {
    assert labels == labels[..j] + [labels[j]] + labels[j + 1..];
    assert labels[i] in labels[..j];
  }

  /** The first channel not yet in the run of k's block changes places with a later one that is. */
  function Swapped(labels: seq<nat>, e: nat, b: nat): (s: seq<nat>)
    requires e < |labels| && b < |labels|
    ensures |s| == |labels|
  {
    labels[e := labels[b]][b := labels[e]]
  }

  lemma SwapKeepsSizes(labels: seq<nat>, k: nat, e: nat, b: nat)
    requires k <= e < b < |labels|
    ensures multiset(Swapped(labels, e, b)[k..]) == multiset(labels[k..])
    ensures Names(Swapped(labels, e, b)[k..]) == Names(labels[k..])
  {
    var s, t := labels[k..], Swapped(labels, e, b)[k..];
    var u: seq<nat> := s[e - k := labels[b]];
    assert t == u[b - k := labels[e]];
    MultisetMembers(s, t);
  }

  /** Swapping keeps every pair of one block within the room. */
  lemma SwapKeepsPairs(cs: seq<Channel>, k: nat, e: nat, b: nat, labels: seq<nat>, half: real)
    requires |labels| == |cs| && EdgesAscend(cs) && PairsFit(cs, k, labels, half)
    requires k < e < b < |cs| && labels[e] != labels[k] == labels[b]
    requires forall i :: k <= i < e ==> labels[i] == labels[k]
    ensures PairsFit(cs, k, Swapped(labels, e, b), half)
  {
    var s := Swapped(labels, e, b);
    forall i, j | k <= i < j < |cs| && s[i] == s[j] ensures cs[j].HighEdge() - cs[i].LowEdge() <= Room(half) {
      if j == e {
        assert cs[e].HighEdge() <= cs[b].HighEdge();
        assert labels[i] == labels[b];
      } else if i == e {
        assert cs[k].LowEdge() <= cs[e].LowEdge() && labels[k] == labels[j];
      } else if j == b {
        assert cs[k].LowEdge() <= cs[i].LowEdge() || i == k;
        assert labels[k] == labels[b];
      } else if i == b {
        assert cs[e].LowEdge() <= cs[b].LowEdge() && labels[e] == labels[j];
      } else {
        assert labels[i] == labels[j];
      }
    }
  }

  /** A block that is a run of neighbours is a consecutive block that may stand. */
  lemma RunFits(cs: seq<Channel>, k: nat, e: nat, labels: seq<nat>, half: real, most: nat)
    requires |labels| == |cs| && EdgesAscend(cs) && PairsFit(cs, k, labels, half) && k < e <= |cs|
    requires SizesFit(k, labels, most) && forall i :: k <= i < e ==> labels[i] == labels[k]
    ensures Fits(cs, k, e, half, most)
  {
    hide High;
    AllAlike(labels[k..], e - k);
    assert multiset(labels[k..])[labels[k]] <= most;
    if e > k + 1 {
      HighIs(cs[k..e], 0.0, e - k - 1);
      assert labels[k] == labels[e - 1];
    }
  }

  lemma {:induction false} AllAlike(s: seq<nat>, n: nat)
    requires 0 < n <= |s| && forall i :: 0 <= i < n ==> s[i] == s[0]
    ensures multiset(s)[s[0]] >= n
  {
    assert s == s[..n] + s[n..];
    AllOne(s[..n]);
  }

  lemma {:induction false} AllOne(s: seq<nat>)
    requires s != [] && forall i :: 0 <= i < |s| ==> s[i] == s[0]
    ensures multiset(s)[s[0]] == |s|
  {
    if |s| > 1 {
      assert s == s[..|s| - 1] + [s[|s| - 1]];
      AllOne(s[..|s| - 1]);
    }
  }

  lemma RunLeaves(labels: seq<nat>, k: nat, e: nat, most: nat)
    requires k < e <= |labels| && SizesFit(k, labels, most)
    requires forall i :: k <= i < e ==> labels[i] == labels[k]
    requires labels[k] !in labels[e..]
    ensures |Names(labels[k..])| == 1 + |Names(labels[e..])| && SizesFit(e, labels, most)
  {
    assert labels[k..] == labels[k..e] + labels[e..];
    assert Names(labels[k..]) == {labels[k]} + Names(labels[e..]) by {
      assert labels[k] in labels[k..e];
    }
    forall b: nat ensures multiset(labels[e..])[b] <= most {
      assert multiset(labels[k..])[b] <= most;
    }
  }

  lemma SwapKeepsRun(labels: seq<nat>, k: nat, e: nat, b: nat, most: nat)
    requires k < e < b < |labels| && labels[b] == labels[k] && SizesFit(k, labels, most)
    requires forall i :: k <= i < e ==> labels[i] == labels[k]
    ensures forall i :: k <= i < e + 1 ==> Swapped(labels, e, b)[i] == Swapped(labels, e, b)[k]
    ensures SizesFit(k, Swapped(labels, e, b), most)
  {
    SwapKeepsSizes(labels, k, e, b);
  }

  lemma FewerPairs(cs: seq<Channel>, k: nat, e: nat, labels: seq<nat>, half: real)
    requires |labels| == |cs| && k <= e && PairsFit(cs, k, labels, half)
    ensures PairsFit(cs, e, labels, half)
  {
  }

  /** Greedy growth makes no more blocks than there are in ANY way of putting the channels into blocks
      that may stand: a block that is not a run of neighbours is made one by swaps, and the first run
      then ends no later than the greedy block. */
  lemma {:induction false} GreedyIsFewestOfAll(cs: seq<Channel>, k: nat, e: nat, labels: seq<nat>,
                                               half: real, most: nat)
    requires |labels| == |cs| && EdgesAscend(cs) && PairsFit(cs, k, labels, half) && 1 <= most
    requires k < e <= |cs| && SizesFit(k, labels, most) && forall i :: k <= i < e ==> labels[i] == labels[k]
    ensures GreedyCount(cs, k, half, most) <= |Names(labels[k..])|
    decreases |cs| - k, |cs| - e
  {
    hide GrownEnd, Extent, LowerEdgesAscend, UpperEdgesAscend, PairsFit, SizesFit, Names, Swapped, Fits;
    if e < |cs| && labels[e] == labels[k] {
      GreedyIsFewestOfAll(cs, k, e + 1, labels, half, most);
    } else if labels[k] in labels[e..] {
      var b :| e <= b < |cs| && labels[b] == labels[k];
      SwapKeepsSizes(labels, k, e, b);
      SwapKeepsPairs(cs, k, e, b, labels, half);
      SwapKeepsRun(labels, k, e, b, most);
      GreedyIsFewestOfAll(cs, k, e + 1, Swapped(labels, e, b), half, most);
    } else {
      RunFits(cs, k, e, labels, half, most);
      RunLeaves(labels, k, e, most);
      assert e <= GrownEnd(cs, k, k + 1, half, most) by { GrowthReaches(cs, k, k + 1, e, half, most); }
      LaterStartNeedsNoMore(cs, e, GrownEnd(cs, k, k + 1, half, most), half, most);
      if e < |cs| {
        FewerPairs(cs, k, e, labels, half);
        GreedyIsFewestOfAll(cs, e, e + 1, labels, half, most);
      }
    }
  }

  lemma EqualWidthsAscendBothSides(channels: seq<Channel>, width: real)
    requires forall i :: 0 <= i < |channels| ==> channels[i].bandwidthHz == width
    ensures Indices(channels, Order(channels)) && EdgesAscend(At(channels, Order(channels)))
  {
    OrderIsFrequencyOrder(channels);
    EqualWidthsAscend(channels, width);
    var order := Order(channels);
    forall i, j | 0 <= i < j < |order|
      ensures At(channels, order)[i].HighEdge() <= At(channels, order)[j].HighEdge()
    {
      assert FreqAt(channels, order[i]) <= FreqAt(channels, order[j]);
    }
    forall i | 0 <= i < |order| ensures At(channels, order)[i].HighEdge() > 0.0 {
      assert order[i] in order;
    }
  }

  /** Nor is there any other way: with equal bandwidths and nothing given back, no way of putting the
      channels into blocks that may stand, neighbours or not, has fewer blocks than the plan. */
  lemma PlanIsMinimalOfAll(channels: seq<Channel>, deviceRateHz: real, usableFraction: real,
                           maxPerBlock: nat, width: real, labels: seq<nat>)
    requires deviceRateHz > 0.0 && forall i :: 0 <= i < |channels| ==> channels[i].bandwidthHz == width
    requires (OrderIsFrequencyOrder(channels);
      var cs, half := At(channels, Order(channels)), Half(deviceRateHz, usableFraction);
      var most := if maxPerBlock < 1 then 1 else if maxPerBlock > 64 then 64 else maxPerBlock;
      NoGiveBack(cs, 0, half, most) && IsPartition(cs, labels, half, most))
    ensures |Plan(channels, deviceRateHz, usableFraction, maxPerBlock)| <= |Names(labels)|
  {
    hide CutFrom, NoGiveBack, PairsFit, SizesFit, LowerEdgesAscend, UpperEdgesAscend, Names, Chosen;
    OrderIsFrequencyOrder(channels);
    EqualWidthsAscendBothSides(channels, width);
    var cs, half := At(channels, Order(channels)), Half(deviceRateHz, usableFraction);
    var most := MostPerBlock(maxPerBlock);
    CutIsGreedy(cs, Order(channels), 0, half, most);
    PartitionFits(cs, labels, half, most);
    assert labels[0..] == labels;
    if cs != [] { GreedyIsFewestOfAll(cs, 0, 1, labels, half, most); }
  }
}
