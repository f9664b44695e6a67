/** The airband block planner: channels cut, lowest frequency first, into blocks one radio capture
    can hold, each block's centre kept off the capture's DC spike. A C++ double is a real here. */
module AirbandPlanner {
  import opened Sorting
  import opened Sequences

  datatype Mode = Am | Nfm

  /** `isFinite` is what std::isfinite says of the channel's frequency. */
  datatype Channel = Channel(freqHz: real, isFinite: bool, bandwidthHz: real, mode: Mode)
  {
    predicate Playable() { isFinite && freqHz > 0.0 }
    function HalfWidth(): real { 0.5 * Max(0.0, bandwidthHz) }
    function LowEdge(): real { freqHz - HalfWidth() }
    function HighEdge(): real { freqHz + HalfWidth() }
  }

  datatype Block = Block(centreHz: real, members: seq<nat>)

  datatype Choice = Choice(best: real, score: real, clear: real)

  const MAX_BLOCK_CHANNELS: nat := 64
  const DC_GUARD_HZ: real := 2000.0
  const TIE: real := 1e-6
  const HUGE: real := 1e300

  function Abs(x: real): real { if x < 0.0 then -x else x }
  function Max(x: real, y: real): real { if x < y then y else x }
  function Min(x: real, y: real): real { if y < x then y else x }
  function Clamp(x: real, lo: real, hi: real): real { if x < lo then lo else if hi < x then hi else x }

  /** std::round: to the nearest whole number, halves away from zero. */
  function Round(x: real): real
  {
    if x < 0.0 then -((0.5 - x).Floor as real) else (x + 0.5).Floor as real
  }

  function DcClearance(c: Channel, centreHz: real): real
  {
    Abs(c.freqHz - centreHz) - 0.5 * c.bandwidthHz - DC_GUARD_HZ
  }

  // ----- the centre of one block ------------------------------------------------------------

  function High(ms: seq<Channel>, base: real): real
  {
    if ms == [] then base else Max(High(ms[..|ms| - 1], base), ms[|ms| - 1].HighEdge())
  }

  /** The least clearance of any member, no more than HUGE. */
  function Clearance(ms: seq<Channel>, centreHz: real): real
  {
    if ms == [] then HUGE
    else Min(Clearance(ms[..|ms| - 1], centreHz), DcClearance(ms[|ms| - 1], centreHz))
  }

  function Score(ms: seq<Channel>, centreHz: real): real { Min(Clearance(ms, centreHz), 0.0) }

  function Within(g: real, cLo: real, cHi: real): seq<real> { if cLo <= g <= cHi then [g] else [] }

  /** The midpoints between neighbouring members that every member allows. */
  function Gaps(ms: seq<Channel>, cLo: real, cHi: real): seq<real>
  {
    if |ms| < 2 then []
    else
      Gaps(ms[..|ms| - 1], cLo, cHi) +
      Within(0.5 * (ms[|ms| - 2].freqHz + ms[|ms| - 1].freqHz), cLo, cHi)
  }

  function Off(c: Channel): real { c.HalfWidth() + DC_GUARD_HZ + 1.0 }

  /** The points just clear of each member, either side. */
  function Sides(ms: seq<Channel>, cLo: real, cHi: real): seq<real>
  {
    if ms == [] then []
    else
      var c := ms[|ms| - 1];
      Sides(ms[..|ms| - 1], cLo, cHi) +
      Within(c.freqHz - Off(c), cLo, cHi) + Within(c.freqHz + Off(c), cLo, cHi)
  }

  function Ends(mid: real, cLo: real, cHi: real): seq<real>
  {
    [Clamp(mid, cLo, cHi), cLo, cHi]
  }

  function Candidates(ms: seq<Channel>, lo: real, hi: real, half: real): (cands: seq<real>)
    requires ms != []
    ensures cands != []
  {
    var cLo, cHi := hi - half, lo + half;
    if cLo <= cHi then
      Ends(0.5 * (lo + hi), cLo, cHi) + Gaps(ms, cLo, cHi) + Sides(ms, cLo, cHi)
    else
      [ms[0].freqHz + 0.5 * ms[0].bandwidthHz + DC_GUARD_HZ]
  }

  predicate Better(so: Choice, c: real, score: real, mid: real)
  {
    || score > so.score + TIE
    || (Abs(score - so.score) <= TIE && Abs(c - mid) < Abs(so.best - mid))
  }

  function Pick(ms: seq<Channel>, cands: seq<real>, mid: real, first: real): Choice
  {
    if cands == [] then Choice(first, -HUGE, -HUGE)
    else
      var so := Pick(ms, cands[..|cands| - 1], mid, first);
      var c := cands[|cands| - 1];
      if Better(so, c, Score(ms, c), mid) then Choice(c, Score(ms, c), Clearance(ms, c)) else so
  }

  function CentreOf(ms: seq<Channel>, lo: real, hi: real, half: real): Choice
    requires ms != []
  {
    var cands := Candidates(ms, lo, hi, half);
    Pick(ms, cands, 0.5 * (lo + hi), cands[0])
  }

  predicate Indices(channels: seq<Channel>, members: seq<nat>)
  {
    forall i :: 0 <= i < |members| ==> members[i] < |channels|
  }

  /** The member channels themselves. */
  function At(channels: seq<Channel>, members: seq<nat>): (ms: seq<Channel>)
    requires Indices(channels, members)
    ensures |ms| == |members|
  {
    seq(|members|, i requires 0 <= i < |members| => channels[members[i]])
  }

  method CollectGaps(channels: seq<Channel>, members: seq<nat>, cLo: real, cHi: real)
    returns (cand: seq<real>)
    requires members != [] && Indices(channels, members)
    ensures cand == Gaps(At(channels, members), cLo, cHi)
  {
    ghost var ms := At(channels, members);
    cand := [];
    var m := 0;
    while m + 1 < |members|
      invariant 0 <= m < |members|
      invariant cand == Gaps(ms[..m + 1], cLo, cHi)
    {
      var g := 0.5 * (channels[members[m]].freqHz + channels[members[m + 1]].freqHz);
      assert ms[..m + 2][..m + 1] == ms[..m + 1];
      if cLo <= g <= cHi { cand := cand + [g]; }
      m := m + 1;
    }
    assert ms[..m + 1] == ms;
  }

  lemma NoSides(cLo: real, cHi: real)
    ensures Sides([], cLo, cHi) == []
  {
  }

  lemma SidesStep(ms: seq<Channel>, cLo: real, cHi: real)
    requires ms != []
    ensures var c := ms[|ms| - 1];
      Sides(ms, cLo, cHi) ==
      Sides(ms[..|ms| - 1], cLo, cHi) + Within(c.freqHz - Off(c), cLo, cHi) + Within(c.freqHz + Off(c), cLo, cHi)
  {
    hide Within, Off;
  }

  method CollectSides(channels: seq<Channel>, members: seq<nat>, cLo: real, cHi: real)
    returns (cand: seq<real>)
    requires Indices(channels, members)
    ensures cand == Sides(At(channels, members), cLo, cHi)
  {
    hide Sides;
    ghost var ms := At(channels, members);
    cand := [];
    var m := 0;
    NoSides(cLo, cHi);
    assert ms[..0] == [];
    while m < |members|
      invariant 0 <= m <= |members|
      invariant cand == Sides(ms[..m], cLo, cHi)
    {
      var c := channels[members[m]];
      var off := 0.5 * Max(0.0, c.bandwidthHz) + DC_GUARD_HZ + 1.0;
      assert ms[..m + 1][..m] == ms[..m];
      SidesStep(ms[..m + 1], cLo, cHi);
      if cLo <= c.freqHz - off <= cHi { cand := cand + [c.freqHz - off]; }
      if cLo <= c.freqHz + off <= cHi { cand := cand + [c.freqHz + off]; }
      m := m + 1;
    }
    assert ms[..m] == ms;
  }

  /** The centres worth trying, in the order they are tried. */
  method Collect(channels: seq<Channel>, members: seq<nat>, lo: real, hi: real, half: real)
    returns (cand: seq<real>)
    requires members != [] && Indices(channels, members)
    ensures cand == Candidates(At(channels, members), lo, hi, half)
  {
    hide Gaps, Sides, Ends;
    var cLo := hi - half;
    var cHi := lo + half;
    if cLo <= cHi {
      var gaps := CollectGaps(channels, members, cLo, cHi);
      var sides := CollectSides(channels, members, cLo, cHi);
      cand := Ends(0.5 * (lo + hi), cLo, cHi) + gaps + sides;
    } else {
      // No centre keeps every edge inside: a guard off the first channel's upper edge instead.
      var c := channels[members[0]];
      cand := [c.freqHz + 0.5 * c.bandwidthHz + DC_GUARD_HZ];
    }
  }

  method LeastClearance(channels: seq<Channel>, members: seq<nat>, centreHz: real) returns (clear: real)
    requires Indices(channels, members)
    ensures clear == Clearance(At(channels, members), centreHz)
  {
    ghost var ms := At(channels, members);
    clear := HUGE;
    var m := 0;
    while m < |members|
      invariant 0 <= m <= |members|
      invariant clear == Clearance(ms[..m], centreHz)
    {
      assert ms[..m + 1][..m] == ms[..m];
      clear := Min(clear, DcClearance(channels[members[m]], centreHz));
      m := m + 1;
    }
    assert ms[..m] == ms;
  }

  method BestCentre(channels: seq<Channel>, members: seq<nat>, lo: real, hi: real, half: real)
    returns (best: real, clearOut: real)
    requires members != [] && Indices(channels, members)
    ensures best == CentreOf(At(channels, members), lo, hi, half).best
    ensures clearOut == CentreOf(At(channels, members), lo, hi, half).clear
  {
    hide Clearance, Candidates, At;
    ghost var ms := At(channels, members);
    var mid := 0.5 * (lo + hi);
    var cand := Collect(channels, members, lo, hi, half);
    best := cand[0];
    var bestScore := -HUGE;
    var bestClear := -HUGE;
    var i := 0;
    while i < |cand|
      invariant 0 <= i <= |cand|
      invariant Choice(best, bestScore, bestClear) == Pick(ms, cand[..i], mid, cand[0])
    {
      var c := cand[i];
      var clear := LeastClearance(channels, members, c);
      var score := Min(clear, 0.0);
      assert cand[..i + 1][..i] == cand[..i];
      if score > bestScore + TIE || (Abs(score - bestScore) <= TIE && Abs(c - mid) < Abs(best - mid)) {
        best := c;
        bestScore := score;
        bestClear := clear;
      }
      i := i + 1;
    }
    assert cand[..i] == cand;
    clearOut := bestClear;
  }

  // ----- the cut into blocks ----------------------------------------------------------------

  /** The input's own numbering of the channels that have a usable frequency. */
  function Usable(channels: seq<Channel>, n: nat): seq<nat>
    requires n <= |channels|
  {
    if n == 0 then [] else Usable(channels, n - 1) + (if channels[n - 1].Playable() then [n - 1] else [])
  }

  function FreqAt(channels: seq<Channel>, i: nat): real
  {
    if i < |channels| then channels[i].freqHz else 0.0
  }

  function ByFrequency(channels: seq<Channel>): (nat, nat) -> bool
  {
    (a: nat, b: nat) => FreqAt(channels, a) < FreqAt(channels, b)
  }

  function Order(channels: seq<Channel>): seq<nat>
  {
    StableSort(Usable(channels, |channels|), ByFrequency(channels))
  }

  function Room(half: real): real { 2.0 * half - 2.0 * DC_GUARD_HZ }

  /** Lowest-frequency member's lower edge to the highest upper edge, of cs[k..j]. */
  function Extent(cs: seq<Channel>, k: nat, j: nat): real
    requires k < j <= |cs|
  {
    High(cs[k..j], 0.0) - cs[k].LowEdge()
  }

  /** Where the block starting at k, grown to j so far, stops growing. */
  function GrownEnd(cs: seq<Channel>, k: nat, j: nat, half: real, most: nat): (end: nat)
    requires k < j <= |cs|
    ensures j <= end <= |cs|
    decreases |cs| - j
  {
    if j < |cs| && j - k < most && Extent(cs, k, j + 1) <= Room(half)
    then GrownEnd(cs, k, j + 1, half, most)
    else j
  }

  function Centre(cs: seq<Channel>, k: nat, j: nat, half: real): Choice
    requires k < j <= |cs|
  {
    var lo := cs[k].LowEdge();
    CentreOf(cs[k..j], lo, High(cs[k..j], lo), half)
  }

  /** Where it ends once it has given back what it must to clear the spike. */
  function KeptEnd(cs: seq<Channel>, k: nat, j: nat, half: real): (end: nat)
    requires k < j <= |cs|
    ensures k < end <= j
  {
    if Centre(cs, k, j, half).clear >= 0.0 || j == k + 1 then j else KeptEnd(cs, k, j - 1, half)
  }

  lemma KeptEndGivesBack(cs: seq<Channel>, k: nat, j: nat, half: real)
    requires k + 1 < j <= |cs| && Centre(cs, k, j, half).clear < 0.0
    ensures KeptEnd(cs, k, j, half) == KeptEnd(cs, k, j - 1, half)
  {
  }

  function EndFrom(cs: seq<Channel>, k: nat, half: real, most: nat): (end: nat)
    requires k < |cs|
    ensures k < end <= |cs|
  {
    KeptEnd(cs, k, GrownEnd(cs, k, k + 1, half, most), half)
  }

  function BlockFrom(cs: seq<Channel>, order: seq<nat>, k: nat, half: real, most: nat): Block
    requires |order| == |cs| && k < |cs|
  {
    var end := EndFrom(cs, k, half, most);
    Block(Round(Centre(cs, k, end, half).best), order[k..end])
  }

  function CutFrom(cs: seq<Channel>, order: seq<nat>, k: nat, half: real, most: nat): seq<Block>
    requires |order| == |cs| && k <= |cs|
    decreases |cs| - k
  {
    if k == |cs| then []
    else [BlockFrom(cs, order, k, half, most)] + CutFrom(cs, order, EndFrom(cs, k, half, most), half, most)
  }

  function MostPerBlock(maxPerBlock: nat): nat
  {
    if maxPerBlock < 1 then 1 else if maxPerBlock > MAX_BLOCK_CHANNELS then MAX_BLOCK_CHANNELS else maxPerBlock
  }

  function Half(deviceRateHz: real, usableFraction: real): real { 0.5 * usableFraction * deviceRateHz }

  lemma {:induction false} UsableAreValid(channels: seq<Channel>, n: nat)
    requires n <= |channels|
    ensures forall i: nat :: i in Usable(channels, n) <==> i < n && channels[i].Playable()
    ensures Ascending(Usable(channels, n), (a: nat, b: nat) => a < b)
  {
    if n > 0 {
      UsableAreValid(channels, n - 1);
      var s := Usable(channels, n - 1);
      assert forall i :: 0 <= i < |s| ==> s[i] in s;
    }
  }

  /** The planner's order is THE frequency order: exactly the channels with a finite positive
      frequency, each once, ascending by frequency and by position where frequencies are equal. */
  lemma OrderIsFrequencyOrder(channels: seq<Channel>)
    ensures Indices(channels, Order(channels))
    ensures forall i: nat :: i in Order(channels) <==> i < |channels| && channels[i].Playable()
    ensures forall i, j :: 0 <= i < j < |Order(channels)| ==>
      var a, b := Order(channels)[i], Order(channels)[j];
      || channels[a].freqHz < channels[b].freqHz
      || (channels[a].freqHz == channels[b].freqHz && a < b)
  {
    hide StableSort, Usable;
    var usable, less := Usable(channels, |channels|), ByFrequency(channels);
    var before := (a: nat, b: nat) => a < b;
    UsableAreValid(channels, |channels|);
    SortPermutes(usable, less);
    MultisetMembers(Order(channels), usable);
    SortIsStable(usable, less, before);
    forall i | 0 <= i < |Order(channels)| ensures Order(channels)[i] < |channels| {
      assert Order(channels)[i] in usable;
    }
    forall i, j | 0 <= i < j < |Order(channels)|
      ensures StableBefore(less, before, Order(channels)[i], Order(channels)[j])
    { }
  }

  function Plan(channels: seq<Channel>, deviceRateHz: real, usableFraction: real, maxPerBlock: nat): seq<Block>
  {
    if deviceRateHz <= 0.0 then []
    else
      OrderIsFrequencyOrder(channels);
      CutFrom(At(channels, Order(channels)), Order(channels), 0, Half(deviceRateHz, usableFraction),
              MostPerBlock(maxPerBlock))
  }

  method HighestEdge(channels: seq<Channel>, members: seq<nat>, base: real) returns (high: real)
    requires Indices(channels, members)
    ensures high == High(At(channels, members), base)
  {
    ghost var ms := At(channels, members);
    high := base;
    var m := 0;
    while m < |members|
      invariant 0 <= m <= |members|
      invariant high == High(ms[..m], base)
    {
      assert ms[..m + 1][..m] == ms[..m];
      high := Max(high, channels[members[m]].HighEdge());
      m := m + 1;
    }
    assert ms[..m] == ms;
  }

  method PlanAirbandBlocks(channels: seq<Channel>, deviceRateHz: real, usableFraction: real, maxPerBlock: nat)
    returns (blocks: seq<Block>)
    ensures blocks == Plan(channels, deviceRateHz, usableFraction, maxPerBlock)
  {
    hide BlockFrom, EndFrom;
    blocks := [];
    if !(deviceRateHz > 0.0) { return; }
    var most := MostPerBlock(maxPerBlock);
    var order: seq<nat> := [];
    for i := 0 to |channels|
      invariant order == Usable(channels, i)
    {
      if channels[i].isFinite && channels[i].freqHz > 0.0 { order := order + [i]; }
    }
    order := StableSort(order, ByFrequency(channels));
    OrderIsFrequencyOrder(channels);
    ghost var cs := At(channels, order);
    var half := 0.5 * usableFraction * deviceRateHz;

    var k := 0;
    while k < |order|
      invariant 0 <= k <= |order|
      invariant blocks + CutFrom(cs, order, k, half, most) == CutFrom(cs, order, 0, half, most)
    {
      var b := NextBlock(channels, order, k, half, most);
      CutUnfolds(cs, order, k, half, most);
      Associates(blocks, [b], CutFrom(cs, order, k + |b.members|, half, most));
      k := k + |b.members|;
      blocks := blocks + [b];
    }
    assert CutFrom(cs, order, |cs|, half, most) == [];
  }

  lemma CutUnfolds(cs: seq<Channel>, order: seq<nat>, k: nat, half: real, most: nat)
    requires |order| == |cs| && k < |cs|
    ensures var b := BlockFrom(cs, order, k, half, most);
      && k + |b.members| == EndFrom(cs, k, half, most) <= |cs|
      && CutFrom(cs, order, k, half, most) == [b] + CutFrom(cs, order, k + |b.members|, half, most)
  {
    hide Centre;
    var end := EndFrom(cs, k, half, most);
    assert |order[k..end]| == end - k;
  }

  method NextBlock(channels: seq<Channel>, order: seq<nat>, k: nat, half: real, most: nat)
    returns (b: Block)
    requires Indices(channels, order) && k < |order|
    ensures b == BlockFrom(At(channels, order), order, k, half, most)
  {
    hide CentreOf;
    var grown := Grow(channels, order, k, half, most);
    var members, centre := GiveBack(channels, order, k, k + |grown|, half);
    b := Block(centre, members);
  }

  lemma HighStep(ms: seq<Channel>, base: real)
    requires ms != []
    ensures High(ms, base) == Max(High(ms[..|ms| - 1], base), ms[|ms| - 1].HighEdge())
  {
  }

  /** Grows the block that starts at order[k]. */
  method Grow(channels: seq<Channel>, order: seq<nat>, k: nat, half: real, most: nat)
    returns (members: seq<nat>)
    requires Indices(channels, order) && k < |order|
    ensures members == order[k..GrownEnd(At(channels, order), k, k + 1, half, most)]
  {
    hide High;
    ghost var cs := At(channels, order);
    var room := 2.0 * half - 2.0 * DC_GUARD_HZ;
    members := [order[k]];
    var lo := channels[order[k]].LowEdge();
    var j := k + 1;
    while j < |order| && |members| < most
      invariant k < j <= |order|
      invariant members == order[k..j]
      invariant GrownEnd(cs, k, j, half, most) == GrownEnd(cs, k, k + 1, half, most)
      decreases |order| - j
    {
      var nhi := HighestEdge(channels, members, 0.0);
      assert At(channels, members) == cs[k..j] == cs[k..j + 1][..j - k];
      HighStep(cs[k..j + 1], 0.0);
      nhi := Max(nhi, channels[order[j]].HighEdge());
      if nhi - lo > room { break; }
      members := members + [order[j]];
      j := j + 1;
    }
  }

  /** Chooses the centre, giving back the block's last channel until the spike is cleared. */
  method GiveBack(channels: seq<Channel>, order: seq<nat>, k: nat, grown: nat, half: real)
    returns (members: seq<nat>, centreHz: real)
    requires Indices(channels, order) && k < grown <= |order|
    ensures var end := KeptEnd(At(channels, order), k, grown, half);
      members == order[k..end] && centreHz == Round(Centre(At(channels, order), k, end, half).best)
  {
    hide CentreOf;
    ghost var cs := At(channels, order);
    var j := grown;
    members := order[k..j];
    var c, clear := CentreMembers(channels, order, k, j, members, half);
    while clear < 0.0 && |members| > 1
      invariant k < j <= grown && members == order[k..j]
      invariant KeptEnd(cs, k, j, half) == KeptEnd(cs, k, grown, half)
      invariant clear == Centre(cs, k, j, half).clear
      invariant c == Centre(cs, k, j, half).best
      decreases j
    {
      KeptEndGivesBack(cs, k, j, half);
      j := j - 1;
      members := members[..|members| - 1];
      c, clear := CentreMembers(channels, order, k, j, members, half);
    }
    // Centres are whole numbers of hertz.
    centreHz := Round(c);
  }

  method CentreMembers(channels: seq<Channel>, order: seq<nat>, k: nat, j: nat, members: seq<nat>, half: real)
    returns (c: real, clear: real)
    requires Indices(channels, order) && k < j <= |order| && members == order[k..j]
    ensures c == Centre(At(channels, order), k, j, half).best
    ensures clear == Centre(At(channels, order), k, j, half).clear
  {
    var lo := channels[order[k]].LowEdge();
    var hi := HighestEdge(channels, members, lo);
    assert At(channels, members) == At(channels, order)[k..j];
    c, clear := BestCentre(channels, members, lo, hi, half);
  }
}
