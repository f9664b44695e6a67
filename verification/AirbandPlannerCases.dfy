/** Plans that give channels back although a centre would clear them all. */
module AirbandPlannerCases {
  import opened Sorting
  import opened AirbandPlanner
  import opened AirbandPlannerProofs
  import opened AirbandPlannerFewest

  // ----- channels given back for a near miss ------------------------------------------------

  /** Usable channels already in frequency order. */
  ghost predicate InFrequencyOrder(cs: seq<Channel>)
  {
    (forall i :: 0 <= i < |cs| ==> cs[i].Playable()) && forall i, j :: 0 <= i < j < |cs| ==> cs[i].freqHz < cs[j].freqHz
  }

  function Numbers(n: nat): (s: seq<nat>)
    ensures |s| == n && forall i :: 0 <= i < n ==> s[i] == i
  {
    seq(n, i requires 0 <= i < n => i)
  }

  lemma {:induction false} AllAreUsable(cs: seq<Channel>, n: nat)
    requires InFrequencyOrder(cs) && n <= |cs|
    ensures Usable(cs, n) == Numbers(n)
  {
    if n > 0 { AllAreUsable(cs, n - 1); }
  }

  lemma OrderIsItself(cs: seq<Channel>)
    requires InFrequencyOrder(cs)
    ensures Order(cs) == Numbers(|cs|) && Indices(cs, Order(cs)) && At(cs, Order(cs)) == cs
  {
    AllAreUsable(cs, |cs|);
    SortKeepsSorted(Numbers(|cs|), ByFrequency(cs));
  }

  /** Channels that would stand as one block, but whose centre is not clear, do not become one. */
  lemma GivenBack(cs: seq<Channel>, deviceRateHz: real, usableFraction: real, maxPerBlock: nat)
    requires InFrequencyOrder(cs) && |cs| >= 2 && deviceRateHz > 0.0
    requires Fits(cs, 0, |cs|, Half(deviceRateHz, usableFraction), MostPerBlock(maxPerBlock))
    requires Centre(cs, 0, |cs|, Half(deviceRateHz, usableFraction)).clear < 0.0
    ensures var blocks := Plan(cs, deviceRateHz, usableFraction, maxPerBlock);
      && |blocks| >= 2 && |blocks[0].members| < |cs|
      && GrownEnd(cs, 0, 1, Half(deviceRateHz, usableFraction), MostPerBlock(maxPerBlock)) == |cs|
  {
    hide Centre, Extent, Half, BlockFrom, KeptEnd;
    var half, most := Half(deviceRateHz, usableFraction), MostPerBlock(maxPerBlock);
    OrderIsItself(cs);
    GrowthReaches(cs, 0, 1, |cs|, half, most);
    KeptEndGivesBack(cs, 0, |cs|, half);
    CutUnfolds(cs, Order(cs), 0, half, most);
    var end := EndFrom(cs, 0, half, most);
    CutUnfolds(cs, Order(cs), end, half, most);
  }

  lemma WholeBlock(cs: seq<Channel>, lo: real, hi: real, half: real, most: nat)
    requires cs != [] && |cs| <= most && cs[0].LowEdge() == lo && High(cs, 0.0) == High(cs, lo) == hi
    requires hi - lo <= Room(half)
    ensures Fits(cs, 0, |cs|, half, most) && Centre(cs, 0, |cs|, half) == CentreOf(cs, lo, hi, half)
  {
    hide High, CentreOf;
    assert cs[0..|cs|] == cs;
  }

  /** Two channels a microhertz too close to share the spike between them. */
  function NearlyApart(): seq<Channel>
  {
    [Channel(1000000.0, true, 0.0, Am), Channel(1003999.999999, true, 0.0, Am)]
  }

  lemma NearlyApartCentre()
    ensures var ms, lo, hi, half := NearlyApart(), 1000000.0, 1003999.999999, 100000.0;
      && CentreOf(ms, lo, hi, half).clear < 0.0
      && 1006000.999999 in Candidates(ms, lo, hi, half) && Clear(ms, 1006000.999999)
  {
    hide Clearance, Candidates, Pick, CentreOf;
    var ms, lo, hi, half := NearlyApart(), 1000000.0, 1003999.999999, 100000.0;
    var mid, beside := 0.5 * (lo + hi), 1006000.999999;
    ClearanceIsLeast(ms, mid);
    assert DcClearance(ms[1], mid) == -0.0000005;
    NearMissAtTheMiddle(ms, lo, hi, half);
    ClearanceIsLeast(ms, beside);
    assert DcClearance(ms[0], beside) > 0.0 && DcClearance(ms[1], beside) == 1.0;
    SidesHold(ms, 1, hi - half, lo + half);
    CandidatesHold(ms, lo, hi, half);
  }

  /** A capture of 200 kHz could hold them both and a candidate centre is clear of both, but the near miss
      at their middle is chosen, and the second is given back to a block of its own. */
  lemma NearMissLosesAClearCentre()
    ensures var cs := NearlyApart();
      && |Plan(cs, 200000.0, 1.0, 64)| >= 2 && |Plan(cs, 200000.0, 1.0, 64)[0].members| < 2
      && GrownEnd(cs, 0, 1, 100000.0, 64) == 2
      && 1006000.999999 in Candidates(cs, 1000000.0, 1003999.999999, 100000.0) && Clear(cs, 1006000.999999)
  {
    hide *;
    CaptureIs();
    NearlyApartCentre();
    NearlyApartAscends();
    NearlyApartHigh(0.0);
    NearlyApartHigh(1000000.0);
    WholeBlock(NearlyApart(), 1000000.0, 1003999.999999, 100000.0, 64);
    GivenBack(NearlyApart(), 200000.0, 1.0, 64);
  }

  lemma NearlyApartAscends()
    ensures InFrequencyOrder(NearlyApart()) && |NearlyApart()| == 2 && NearlyApart()[0].LowEdge() == 1000000.0
  {
  }

  lemma NearlyApartHigh(base: real)
    requires base <= 1000000.0
    ensures High(NearlyApart(), base) == 1003999.999999
  {
    hide High;
    HighIs(NearlyApart(), base, 1);
  }

  lemma NearerMissAscends()
    ensures InFrequencyOrder(NearerMiss()) && |NearerMiss()| == 4 && NearerMiss()[0].LowEdge() == 1000000.0
  {
  }

  lemma NearerMissHigh(base: real)
    requires base <= 1000000.0
    ensures High(NearerMiss(), base) == 1020000.0
  {
    hide High;
    HighIs(NearerMiss(), base, 3);
  }

  lemma CaptureIs()
    ensures Half(200000.0, 1.0) == 100000.0 && MostPerBlock(64) == 64 && Room(100000.0) == 196000.0
  {
  }

  /** Four channels whose middle is hopeless, with a clear gap on one side of it, and on the other, nearer,
      a gap that misses by half a microhertz. */
  function NearerMiss(): seq<Channel>
  {
    [Channel(1000000.0, true, 0.0, Am), Channel(1010000.0, true, 0.0, Am),
     Channel(1013999.999999, true, 0.0, Am), Channel(1020000.0, true, 0.0, Am)]
  }

  const MISS: real := 1011999.9999995

  lemma MissScores()
    ensures Score(NearerMiss(), MISS) == -0.0000005
    ensures forall x :: Abs(x - 1010000.0) < 1999.0 ==> Score(NearerMiss(), x) < -1.0
  {
    hide Clearance;
    var ms := NearerMiss();
    ClearanceIsLeast(ms, MISS);
    assert DcClearance(ms[1], MISS) == DcClearance(ms[2], MISS) == -0.0000005;
    forall x | Abs(x - 1010000.0) < 1999.0 ensures Score(ms, x) < -1.0 {
      ClearanceIsLeast(ms, x);
      assert Clearance(ms, x) <= DcClearance(ms[1], x);
    }
  }

  /** The only candidate that far from the middle or nearer, and not hopeless, is the miss. */
  lemma OnlyTheMiss(x: real)
    requires x in Candidates(NearerMiss(), 1000000.0, 1020000.0, 100000.0) && Abs(x - 1010000.0) <= 1999.9999995
    ensures x == MISS || Score(NearerMiss(), x) < -0.0000015
  {
    hide Candidates, Clearance;
    var ms := NearerMiss();
    var i := CandidateIs(ms, 1000000.0, 1020000.0, 100000.0, x);
    MissScores();
    ClearanceIsLeast(ms, x);
    assert Clearance(ms, x) <= DcClearance(ms[1], x);
  }

  lemma NearerMissCentre()
    ensures CentreOf(NearerMiss(), 1000000.0, 1020000.0, 100000.0).clear < 0.0
    ensures 1005000.0 in Candidates(NearerMiss(), 1000000.0, 1020000.0, 100000.0) && Clear(NearerMiss(), 1005000.0)
  {
    hide Candidates, Score, Clearance, CentreOf;
    var ms, lo, hi, half := NearerMiss(), 1000000.0, 1020000.0, 100000.0;
    var cands, mid := Candidates(ms, lo, hi, half), 1010000.0;
    GapsHold(ms, 0, hi - half, lo + half);
    GapsHold(ms, 1, hi - half, lo + half);
    GapsAreCandidates(ms, lo, hi, half);
    ClearanceIsLeast(ms, 1005000.0);
    MissScores();
    assert MISS in cands;
    var i :| 0 <= i < |cands| && cands[i] == MISS;
    var n := FindFirstNearest(ms, cands, mid, i, -0.0000015);
    OnlyTheMiss(cands[n]);
    ScoreAtMostZero(ms, cands[n]);
    assert FirstNearest(ms, cands, mid, n, -TIE) && Unrivalled(ms, cands, mid, n);
    ClearsExactlyWhen(ms, lo, hi, half, n);
  }

  lemma {:induction false} GapsHold(ms: seq<Channel>, i: nat, cLo: real, cHi: real)
    requires i + 1 < |ms| && cLo <= 0.5 * (ms[i].freqHz + ms[i + 1].freqHz) <= cHi
    ensures 0.5 * (ms[i].freqHz + ms[i + 1].freqHz) in Gaps(ms, cLo, cHi)
  {
    if i + 2 < |ms| { GapsHold(ms[..|ms| - 1], i, cLo, cHi); }
  }

  lemma GapsAreCandidates(ms: seq<Channel>, lo: real, hi: real, half: real)
    requires ms != [] && hi - half <= lo + half
    ensures forall x :: x in Gaps(ms, hi - half, lo + half) ==> x in Candidates(ms, lo, hi, half)
  {
    hide Gaps, Sides;
  }

  /** ... and one of those four is given back, though the gap on the other side is clear of them all. */
  lemma NearerMissGivesBack()
    ensures var cs := NearerMiss();
      && |Plan(cs, 200000.0, 1.0, 64)| >= 2 && |Plan(cs, 200000.0, 1.0, 64)[0].members| < 4
      && GrownEnd(cs, 0, 1, 100000.0, 64) == 4
      && 1005000.0 in Candidates(cs, 1000000.0, 1020000.0, 100000.0) && Clear(cs, 1005000.0)
  {
    hide *;
    CaptureIs();
    NearerMissCentre();
    NearerMissAscends();
    NearerMissHigh(0.0);
    NearerMissHigh(1000000.0);
    WholeBlock(NearerMiss(), 1000000.0, 1020000.0, 100000.0, 64);
    GivenBack(NearerMiss(), 200000.0, 1.0, 64);
  }

  // ----- a clear centre no candidate finds --------------------------------------------------

  /** Two channels that just fit a capture of 10000.5 Hz, their guards half a hertz apart. */
  function HalfAHertzApart(): seq<Channel>
  {
    [Channel(1000000.0, true, 0.0, Am), Channel(1005000.5, true, 2000.0, Am)]
  }

  lemma NoneInTheGap(x: real)
    requires x in Candidates(HalfAHertzApart(), 1000000.0, 1006000.5, 5000.25)
    ensures Score(HalfAHertzApart(), x) < -TIE
  {
    hide Clearance, Candidates;
    var ms := HalfAHertzApart();
    var i := CandidateIs(ms, 1000000.0, 1006000.5, 5000.25, x);
    CandidatesWithin(ms, 1000000.0, 1006000.5, 5000.25);
    ClearanceIsLeast(ms, x);
    assert i == 0 || i == 1;
    assert Off(ms[0]) == 2001.0 && Off(ms[1]) == 3001.0;
    assert Clearance(ms, x) <= DcClearance(ms[0], x) && Clearance(ms, x) <= DcClearance(ms[1], x);
  }

  lemma HalfAHertzApartCentre()
    ensures var ms, lo, hi, half := HalfAHertzApart(), 1000000.0, 1006000.5, 5000.25;
      && (forall x :: x in Candidates(ms, lo, hi, half) ==> Score(ms, x) < -TIE)
      && CentreOf(ms, lo, hi, half).clear < 0.0
      && Clear(ms, 1002000.25)
  {
    hide Clearance, Candidates, CentreOf, Score;
    var ms, lo, hi, half := HalfAHertzApart(), 1000000.0, 1006000.5, 5000.25;
    ClearanceIsLeast(ms, 1002000.25);
    assert DcClearance(ms[0], 1002000.25) == DcClearance(ms[1], 1002000.25) == 0.25;
    forall x | x in Candidates(ms, lo, hi, half) ensures Score(ms, x) < -TIE {
      NoneInTheGap(x);
    }
    ClearsExactlyWhen(ms, lo, hi, half, 0);
  }

  lemma HalfAHertzApartAscends()
    ensures var cs := HalfAHertzApart(); InFrequencyOrder(cs) && |cs| == 2 && cs[0].LowEdge() == 1000000.0
  {
  }

  lemma NarrowCaptureIs()
    ensures Half(10000.5, 1.0) == 5000.25 && MostPerBlock(64) == 64 && Room(5000.25) == 6000.5
  {
  }

  lemma HalfAHertzApartHigh(base: real)
    requires base <= 1000000.0
    ensures High(HalfAHertzApart(), base) == 1006000.5
  {
    hide High;
    HighIs(HalfAHertzApart(), base, 1);
  }

  /** The candidates beside a channel keep a hertz off its guard, so a gap of half a hertz between two
      guards is missed when its middle is not midway between the channels: the second is given back,
      though its block has an allowed centre clear of both. */
  lemma SubHertzGapIsMissed()
    ensures var cs := HalfAHertzApart();
      && |Plan(cs, 10000.5, 1.0, 64)| >= 2 && |Plan(cs, 10000.5, 1.0, 64)[0].members| < 2
      && GrownEnd(cs, 0, 1, 5000.25, 64) == 2
      && 1006000.5 - 5000.25 <= 1002000.25 <= 1000000.0 + 5000.25 && Clear(cs, 1002000.25)
      && forall x :: x in Candidates(cs, 1000000.0, 1006000.5, 5000.25) ==> Score(cs, x) < -TIE
  {
    hide *;
    NarrowCaptureIs();
    HalfAHertzApartAscends();
    HalfAHertzApartHigh(0.0);
    HalfAHertzApartHigh(1000000.0);
    HalfAHertzApartCentre();
    WholeBlock(HalfAHertzApart(), 1000000.0, 1006000.5, 5000.25, 64);
    GivenBack(HalfAHertzApart(), 10000.5, 1.0, 64);
  }

  // ----- a block and its mirror image -------------------------------------------------------

  /** Candidates that score more than a tolerance below the choice so far change nothing. */
  lemma {:induction false} Rests(ms: seq<Channel>, before: seq<real>, after: seq<real>, mid: real, first: real)
    requires forall i :: 0 <= i < |after| ==> Score(ms, after[i]) < Pick(ms, before, mid, first).score - TIE
    ensures Pick(ms, before + after, mid, first) == Pick(ms, before, mid, first)
  {
    hide Score, Clearance;
    var n := |after| - 1;
    if after == [] {
      assert before + after == before;
    } else {
      assert (before + after)[..|before + after| - 1] == before + after[..n];
      Rests(ms, before, after[..n], mid, first);
    }
  }

  lemma Takes(ms: seq<Channel>, before: seq<real>, c: real, mid: real, first: real)
    requires Better(Pick(ms, before, mid, first), c, Score(ms, c), mid)
    ensures Pick(ms, before + [c], mid, first) == Choice(c, Score(ms, c), Clearance(ms, c))
  {
    hide Score, Clearance, Better;
    assert (before + [c])[..|before|] == before;
  }

  lemma GapsStep(ms: seq<Channel>, c: Channel, cLo: real, cHi: real)
    requires ms != []
    ensures Gaps(ms + [c], cLo, cHi) == Gaps(ms, cLo, cHi) + Within(0.5 * (ms[|ms| - 1].freqHz + c.freqHz), cLo, cHi)
  {
    hide Within;
    assert (ms + [c])[..|ms|] == ms;
  }

  lemma GapsOfSix(ms: seq<Channel>, cLo: real, cHi: real)
    requires |ms| == 6
    ensures Gaps(ms, cLo, cHi) ==
      Within(0.5 * (ms[0].freqHz + ms[1].freqHz), cLo, cHi) + Within(0.5 * (ms[1].freqHz + ms[2].freqHz), cLo, cHi) +
      Within(0.5 * (ms[2].freqHz + ms[3].freqHz), cLo, cHi) + Within(0.5 * (ms[3].freqHz + ms[4].freqHz), cLo, cHi) +
      Within(0.5 * (ms[4].freqHz + ms[5].freqHz), cLo, cHi)
  {
    hide Gaps, Within;
    assert ms[..1] + [ms[1]] == ms[..2] && ms[..2] + [ms[2]] == ms[..3] && ms[..3] + [ms[3]] == ms[..4];
    assert ms[..4] + [ms[4]] == ms[..5] && ms[..5] + [ms[5]] == ms;
    NoGaps(ms[..1], cLo, cHi);
    GapsStep(ms[..1], ms[1], cLo, cHi);
    GapsStep(ms[..2], ms[2], cLo, cHi);
    GapsStep(ms[..3], ms[3], cLo, cHi);
    GapsStep(ms[..4], ms[4], cLo, cHi);
    GapsStep(ms[..5], ms[5], cLo, cHi);
  }

  lemma NoGaps(ms: seq<Channel>, cLo: real, cHi: real)
    requires |ms| == 1
    ensures Gaps(ms, cLo, cHi) == []
  {
  }

  /** Six channels: of the gaps between them one is clear, one misses by half a tolerance and is nearer
      the middle, and one misses by 1.2 tolerances and is nearer still. */
  function Rivals(): seq<Channel>
  {
    [Channel(1000000.0, true, 0.0, Am), Channel(1004000.5, true, 0.0, Am), Channel(1005000.5, true, 0.0, Am),
     Channel(1009000.4999976, true, 0.0, Am), Channel(1013000.4999966, true, 0.0, Am),
     Channel(1013100.4999966, true, 0.0, Am)]
  }

  /** The same six, mirrored about their middle. */
  function Mirrored(): seq<Channel>
  {
    [Channel(1000000.0, true, 0.0, Am), Channel(1000100.0, true, 0.0, Am), Channel(1004099.999999, true, 0.0, Am),
     Channel(1008099.9999966, true, 0.0, Am), Channel(1009099.9999966, true, 0.0, Am),
     Channel(1013100.4999966, true, 0.0, Am)]
  }

  const RIVALS_HIGH: real := 1013100.4999966
  const RIVALS_MID: real := 1006550.2499983
  const RIVALS_LOW_END: real := 1001550.4999966
  const RIVALS_HIGH_END: real := 1011550.0

  lemma MirrorImage()
    ensures |Rivals()| == |Mirrored()| == 6
    ensures forall i :: 0 <= i < 6 ==>
      Mirrored()[i] == Rivals()[5 - i].(freqHz := 2.0 * RIVALS_MID - Rivals()[5 - i].freqHz)
  {
  }

  predicate Hopeless(ms: seq<Channel>, x: real) { Score(ms, x) < -0.4 }

  lemma HopelessBeside(ms: seq<Channel>, i: nat, x: real)
    requires i < |ms| && ms[i].bandwidthHz == 0.0 && Abs(ms[i].freqHz - x) < 1999.6
    ensures Hopeless(ms, x)
  {
    hide Clearance;
    ClearanceIsLeast(ms, x);
    assert Clearance(ms, x) <= DcClearance(ms[i], x);
  }

  lemma ScoreBetween(ms: seq<Channel>, i: nat, x: real, score: real)
    requires i < |ms| && score == DcClearance(ms[i], x) <= 0.0
    requires forall j :: 0 <= j < |ms| ==> score <= DcClearance(ms[j], x)
    ensures Score(ms, x) == score == Clearance(ms, x)
  {
    hide Clearance, DcClearance;
    ClearanceIsLeast(ms, x);
  }

  lemma RivalsScores()
    ensures var ms := Rivals();
      && Score(ms, 1002000.25) == 0.0 && Clear(ms, 1002000.25)
      && Hopeless(ms, 1004500.5)
      && Score(ms, 1007000.4999988) == -1.2e-6
      && Score(ms, 1011000.4999971) == Clearance(ms, 1011000.4999971) == -0.5e-6
  {
    hide Clearance, Score, Hopeless;
    var ms := Rivals();
    ScoreAtMostZero(ms, 1002000.25);
    ClearanceIsLeast(ms, 1002000.25);
    HopelessBeside(ms, 1, 1004500.5);
    ScoreBetween(ms, 2, 1007000.4999988, -1.2e-6);
    ScoreBetween(ms, 3, 1011000.4999971, -0.5e-6);
  }

  lemma MirroredScores()
    ensures var ms := Mirrored();
      && Score(ms, 1011100.2499966) == 0.0 && Clear(ms, 1011100.2499966)
      && Hopeless(ms, 1008599.9999966)
      && Score(ms, 1006099.9999978) == -1.2e-6
      && Score(ms, 1002099.9999995) == -0.5e-6
  {
    hide Clearance, Score, Hopeless;
    var ms := Mirrored();
    ScoreAtMostZero(ms, 1011100.2499966);
    ClearanceIsLeast(ms, 1011100.2499966);
    HopelessBeside(ms, 3, 1008599.9999966);
    ScoreBetween(ms, 2, 1006099.9999978, -1.2e-6);
    ScoreBetween(ms, 2, 1002099.9999995, -0.5e-6);
  }

  /** The channel that makes a point beside another hopeless. */
  lemma RivalsSides(x: real)
    requires x in Sides(Rivals(), RIVALS_LOW_END, RIVALS_HIGH_END)
    ensures Hopeless(Rivals(), x)
  {
    hide Sides, Hopeless;
    var ms := Rivals();
    SidesWithin(ms, RIVALS_LOW_END, RIVALS_HIGH_END);
    var i := SideIs(ms, RIVALS_LOW_END, RIVALS_HIGH_END, x);
    assert Off(ms[i]) == 2001.0;
    var below, above := [0, 0, 1, 2, 3, 4], [1, 2, 3, 4, 4, 4];
    HopelessBeside(ms, if x < ms[i].freqHz then below[i] else above[i], x);
  }

  lemma MirroredSides(x: real)
    requires x in Sides(Mirrored(), RIVALS_LOW_END, RIVALS_HIGH_END)
    ensures Hopeless(Mirrored(), x)
  {
    hide Sides, Hopeless;
    var ms := Mirrored();
    SidesWithin(ms, RIVALS_LOW_END, RIVALS_HIGH_END);
    var i := SideIs(ms, RIVALS_LOW_END, RIVALS_HIGH_END, x);
    assert Off(ms[i]) == 2001.0;
    var below, above := [1, 1, 1, 2, 3, 4], [1, 2, 3, 4, 5, 5];
    HopelessBeside(ms, if x < ms[i].freqHz then below[i] else above[i], x);
  }

  /** What is chosen once the middle and the ends were hopeless. */
  lemma StartIsHopeless(ms: seq<Channel>, ends: seq<real>, mid: real, first: real)
    requires forall x :: x in ends ==> Hopeless(ms, x)
    ensures Pick(ms, ends, mid, first).score < -0.4
  {
    hide Score, Clearance;
    PickIsCandidate(ms, ends, mid, first);
  }

  lemma RivalsEnds()
    ensures forall x :: x in [RIVALS_MID, RIVALS_LOW_END, RIVALS_HIGH_END] ==>
      Hopeless(Rivals(), x) && Hopeless(Mirrored(), x)
  {
    hide Hopeless;
    HopelessBeside(Rivals(), 2, RIVALS_MID);
    HopelessBeside(Rivals(), 0, RIVALS_LOW_END);
    HopelessBeside(Rivals(), 4, RIVALS_HIGH_END);
    HopelessBeside(Mirrored(), 3, RIVALS_MID);
    HopelessBeside(Mirrored(), 1, RIVALS_LOW_END);
    HopelessBeside(Mirrored(), 5, RIVALS_HIGH_END);
  }

  lemma RivalsGaps()
    ensures Gaps(Rivals(), RIVALS_LOW_END, RIVALS_HIGH_END) ==
      [1002000.25, 1004500.5, 1007000.4999988, 1011000.4999971]
    ensures Gaps(Mirrored(), RIVALS_LOW_END, RIVALS_HIGH_END) ==
      [1002099.9999995, 1006099.9999978, 1008599.9999966, 1011100.2499966]
  {
    hide Gaps;
    GapsOfSix(Rivals(), RIVALS_LOW_END, RIVALS_HIGH_END);
    GapsOfSix(Mirrored(), RIVALS_LOW_END, RIVALS_HIGH_END);
  }

  /** Tried in the order clear, hopeless, rival, near: the near miss takes over from the clear one. */
  lemma NearTakesOver(ms: seq<Channel>, ends: seq<real>, g: real, h: real, r: real, n: real, sides: seq<real>,
                      mid: real, first: real)
    requires Pick(ms, ends, mid, first).score < -0.4
    requires Score(ms, g) == 0.0 && Hopeless(ms, h) && Score(ms, r) == -1.2e-6 && Score(ms, n) == -0.5e-6
    requires Abs(n - mid) < Abs(g - mid)
    requires forall x :: x in sides ==> Hopeless(ms, x)
    ensures Pick(ms, ends + [g, h, r, n] + sides, mid, first) == Choice(n, Score(ms, n), Clearance(ms, n))
  {
    hide Pick, Score, Clearance;
    Takes(ms, ends, g, mid, first);
    Rests(ms, ends + [g], [h, r], mid, first);
    Takes(ms, ends + [g] + [h, r], n, mid, first);
    assert forall i :: 0 <= i < |sides| ==> Hopeless(ms, sides[i]);
    Rests(ms, ends + [g] + [h, r] + [n], sides, mid, first);
    assert ends + [g] + [h, r] + [n] == ends + [g, h, r, n];
  }

  /** Tried in the order near, rival, hopeless, clear: the clear one takes over from the rival. */
  lemma ClearTakesOver(ms: seq<Channel>, ends: seq<real>, n: real, r: real, h: real, g: real, sides: seq<real>,
                       mid: real, first: real)
    requires Pick(ms, ends, mid, first).score < -0.4
    requires Score(ms, g) == 0.0 && Hopeless(ms, h) && Score(ms, r) == -1.2e-6 && Score(ms, n) == -0.5e-6
    requires Abs(r - mid) < Abs(n - mid)
    requires forall x :: x in sides ==> Hopeless(ms, x)
    ensures Pick(ms, ends + [n, r, h, g] + sides, mid, first) == Choice(g, Score(ms, g), Clearance(ms, g))
  {
    hide Pick, Score, Clearance;
    Takes(ms, ends, n, mid, first);
    Takes(ms, ends + [n], r, mid, first);
    Rests(ms, ends + [n] + [r], [h], mid, first);
    Takes(ms, ends + [n] + [r] + [h], g, mid, first);
    assert forall i :: 0 <= i < |sides| ==> Hopeless(ms, sides[i]);
    Rests(ms, ends + [n] + [r] + [h] + [g], sides, mid, first);
    assert ends + [n] + [r] + [h] + [g] == ends + [n, r, h, g];
  }

  lemma CandidatesAre(ms: seq<Channel>, lo: real, hi: real, half: real)
    requires ms != [] && hi - half <= 0.5 * (lo + hi) <= lo + half
    ensures Candidates(ms, lo, hi, half) ==
      [0.5 * (lo + hi), hi - half, lo + half] + Gaps(ms, hi - half, lo + half) + Sides(ms, hi - half, lo + half)
  {
    hide Gaps, Sides;
  }

  lemma RivalsCentre()
    ensures CentreOf(Rivals(), 1000000.0, RIVALS_HIGH, 11550.0).clear < 0.0
    ensures 1002000.25 in Candidates(Rivals(), 1000000.0, RIVALS_HIGH, 11550.0)
  {
    hide Candidates, Gaps, Sides, Pick, Score, Clearance, Clear, Hopeless, Rivals, Mirrored;
    var ms, ends := Rivals(), [RIVALS_MID, RIVALS_LOW_END, RIVALS_HIGH_END];
    var sides := Sides(ms, RIVALS_LOW_END, RIVALS_HIGH_END);
    MirrorImage();
    CandidatesAre(ms, 1000000.0, RIVALS_HIGH, 11550.0);
    RivalsGaps();
    RivalsScores();
    RivalsEnds();
    StartIsHopeless(ms, ends, RIVALS_MID, RIVALS_MID);
    forall x | x in sides ensures Hopeless(ms, x) { RivalsSides(x); }
    NearTakesOver(ms, ends, 1002000.25, 1004500.5, 1007000.4999988, 1011000.4999971, sides, RIVALS_MID, RIVALS_MID);
  }

  lemma MirroredCentre()
    ensures CentreOf(Mirrored(), 1000000.0, RIVALS_HIGH, 11550.0).clear >= 0.0
  {
    hide Candidates, Gaps, Sides, Pick, Score, Clearance, Hopeless, Rivals, Mirrored;
    var ms, ends := Mirrored(), [RIVALS_MID, RIVALS_LOW_END, RIVALS_HIGH_END];
    var sides := Sides(ms, RIVALS_LOW_END, RIVALS_HIGH_END);
    MirrorImage();
    CandidatesAre(ms, 1000000.0, RIVALS_HIGH, 11550.0);
    RivalsGaps();
    MirroredScores();
    RivalsEnds();
    StartIsHopeless(ms, ends, RIVALS_MID, RIVALS_MID);
    forall x | x in sides ensures Hopeless(ms, x) { MirroredSides(x); }
    ClearTakesOver(ms, ends, 1002099.9999995, 1006099.9999978, 1008599.9999966, 1011100.2499966, sides,
                   RIVALS_MID, RIVALS_MID);
  }

  lemma RivalsAscend()
    ensures InFrequencyOrder(Rivals()) && |Rivals()| == 6 && Rivals()[0].LowEdge() == 1000000.0
  {
  }

  lemma MirroredAscend()
    ensures InFrequencyOrder(Mirrored()) && |Mirrored()| == 6 && Mirrored()[0].LowEdge() == 1000000.0
  {
  }

  lemma HighOfSix(ms: seq<Channel>, base: real)
    requires |ms| == 6 && base <= 1000000.0 && ms[5].freqHz == RIVALS_HIGH
    requires forall i :: 0 <= i < 6 ==> ms[i].bandwidthHz == 0.0 && ms[i].freqHz <= RIVALS_HIGH
    ensures High(ms, base) == RIVALS_HIGH
  {
    hide High;
    HighIs(ms, base, 5);
  }

  lemma RivalsFit()
    ensures High(Rivals(), 0.0) == High(Rivals(), 1000000.0) == RIVALS_HIGH
    ensures High(Mirrored(), 0.0) == High(Mirrored(), 1000000.0) == RIVALS_HIGH
    ensures Half(23100.0, 1.0) == 11550.0 && MostPerBlock(64) == 64 && RIVALS_HIGH - 1000000.0 <= Room(11550.0)
  {
    hide High;
    HighOfSix(Rivals(), 0.0);
    HighOfSix(Rivals(), 1000000.0);
    HighOfSix(Mirrored(), 0.0);
    HighOfSix(Mirrored(), 1000000.0);
  }

  /** Channels that would stand as one block, and whose centre is clear, become one. */
  lemma KeptWhole(cs: seq<Channel>, deviceRateHz: real, usableFraction: real, maxPerBlock: nat)
    requires InFrequencyOrder(cs) && cs != [] && deviceRateHz > 0.0
    requires Fits(cs, 0, |cs|, Half(deviceRateHz, usableFraction), MostPerBlock(maxPerBlock))
    requires Centre(cs, 0, |cs|, Half(deviceRateHz, usableFraction)).clear >= 0.0
    ensures var blocks := Plan(cs, deviceRateHz, usableFraction, maxPerBlock);
      |blocks| == 1 && blocks[0].members == Numbers(|cs|)
  {
    hide Centre, Extent, Half, BlockFrom;
    var half, most := Half(deviceRateHz, usableFraction), MostPerBlock(maxPerBlock);
    OrderIsItself(cs);
    GrowthReaches(cs, 0, 1, |cs|, half, most);
    assert EndFrom(cs, 0, half, most) == |cs|;
    CutUnfolds(cs, Order(cs), 0, half, most);
    BlockMembers(cs, Order(cs), 0, half, most);
    PlanConserves(cs, deviceRateHz, usableFraction, maxPerBlock);
  }

  /** Where a near miss has a rival, the order the candidates are tried in decides: middle, ends, then gaps
      and points beside members from low to high. One block gives a channel back and its mirror image,
      with the same clearances at the mirrored centres, stands whole. */
  lemma OrderDecidesAmongRivals()
    ensures forall i :: 0 <= i < 6 ==>
      Mirrored()[i] == Rivals()[5 - i].(freqHz := 2.0 * RIVALS_MID - Rivals()[5 - i].freqHz)
    ensures |Plan(Rivals(), 23100.0, 1.0, 64)| >= 2 && |Plan(Rivals(), 23100.0, 1.0, 64)[0].members| < 6
    ensures |Plan(Mirrored(), 23100.0, 1.0, 64)| == 1
    ensures 1002000.25 in Candidates(Rivals(), 1000000.0, RIVALS_HIGH, 11550.0) && Clear(Rivals(), 1002000.25)
  {
    hide *;
    MirrorImage();
    RivalsFit();
    RivalsAscend();
    MirroredAscend();
    RivalsScores();
    RivalsCentre();
    MirroredCentre();
    WholeBlock(Rivals(), 1000000.0, RIVALS_HIGH, 11550.0, 64);
    GivenBack(Rivals(), 23100.0, 1.0, 64);
    WholeBlock(Mirrored(), 1000000.0, RIVALS_HIGH, 11550.0, 64);
    KeptWhole(Mirrored(), 23100.0, 1.0, 64);
  }
}
