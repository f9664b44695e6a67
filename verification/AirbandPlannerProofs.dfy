/** What the block planner promises, proved of its specification functions. */
module AirbandPlannerProofs {
  import opened Sorting
  import opened AirbandPlanner

  // ----- conservation -----------------------------------------------------------------------

  function Members(blocks: seq<Block>): seq<nat>
  {
    if blocks == [] then [] else blocks[0].members + Members(blocks[1..])
  }

  /** A growing block stops at the limit, so no block is longer. */
  lemma {:induction false} GrownWithin(cs: seq<Channel>, k: nat, j: nat, half: real, most: nat)
    requires k < j <= |cs| && 1 <= most && j - k <= most
    ensures GrownEnd(cs, k, j, half, most) - k <= most
    decreases |cs| - j
  {
    hide Extent;
    if j < |cs| && j - k < most {
      GrownWithin(cs, k, j + 1, half, most);
    }
  }

  ghost predicate Sized(blocks: seq<Block>, most: nat)
  {
    forall i :: 0 <= i < |blocks| ==> 1 <= |blocks[i].members| <= most
  }

  lemma {:induction false} CutConserves(cs: seq<Channel>, order: seq<nat>, k: nat, half: real, most: nat)
    requires |order| == |cs| && k <= |cs| && 1 <= most
    ensures Members(CutFrom(cs, order, k, half, most)) == order[k..]
    ensures Sized(CutFrom(cs, order, k, half, most), most)
    decreases |cs| - k
  {
    hide BlockFrom, CentreOf;
    if k < |cs| {
      CutUnfolds(cs, order, k, half, most);
      BlockMembers(cs, order, k, half, most);
      var b := BlockFrom(cs, order, k, half, most);
      CutConserves(cs, order, k + |b.members|, half, most);
      var rest := CutFrom(cs, order, k + |b.members|, half, most);
      assert ([b] + rest)[1..] == rest;
      assert order[k..] == order[k..k + |b.members|] + order[k + |b.members|..];
    }
  }

  lemma BlockMembers(cs: seq<Channel>, order: seq<nat>, k: nat, half: real, most: nat)
    requires |order| == |cs| && k < |cs| && 1 <= most
    ensures var b := BlockFrom(cs, order, k, half, most);
      && b.members == order[k..EndFrom(cs, k, half, most)]
      && 1 <= |b.members| <= most
  {
    hide CentreOf;
    GrownWithin(cs, k, k + 1, half, most);
  }

  /** Conservation: the blocks, read one after another, are exactly the frequency order (see
      OrderIsFrequencyOrder), and each holds at least one channel, no more than the caller's limit and
      never more than 64; no limit at all is a limit of one. */
  lemma PlanConserves(channels: seq<Channel>, deviceRateHz: real, usableFraction: real, maxPerBlock: nat)
    requires deviceRateHz > 0.0
    ensures var blocks := Plan(channels, deviceRateHz, usableFraction, maxPerBlock);
      && Members(blocks) == Order(channels)
      && Sized(blocks, 64)
      && Sized(blocks, if maxPerBlock == 0 then 1 else maxPerBlock)
  {
    hide CutFrom;
    OrderIsFrequencyOrder(channels);
    CutConserves(At(channels, Order(channels)), Order(channels), 0,
                 Half(deviceRateHz, usableFraction), MostPerBlock(maxPerBlock));
  }

  // ----- the centre: what is chosen ---------------------------------------------------------

  lemma {:induction false} HighIsHighest(ms: seq<Channel>, base: real)
    ensures base <= High(ms, base)
    ensures forall i :: 0 <= i < |ms| ==> ms[i].HighEdge() <= High(ms, base)
    ensures High(ms, base) == base || exists i :: 0 <= i < |ms| && High(ms, base) == ms[i].HighEdge()
  {
    if ms != [] {
      var n := |ms| - 1;
      HighIsHighest(ms[..n], base);
      assert forall i :: 0 <= i < n ==> ms[..n][i] == ms[i];
      if High(ms, base) != base && High(ms, base) != ms[n].HighEdge() {
        var i :| 0 <= i < n && High(ms[..n], base) == ms[..n][i].HighEdge();
        assert ms[i].HighEdge() == High(ms, base);
      }
    }
  }

  lemma {:induction false} ClearanceIsLeast(ms: seq<Channel>, c: real)
    ensures Clearance(ms, c) <= HUGE
    ensures forall i :: 0 <= i < |ms| ==> Clearance(ms, c) <= DcClearance(ms[i], c)
    ensures Clearance(ms, c) == HUGE || exists i :: 0 <= i < |ms| && Clearance(ms, c) == DcClearance(ms[i], c)
  {
    if ms != [] {
      var n := |ms| - 1;
      ClearanceIsLeast(ms[..n], c);
      assert forall i :: 0 <= i < n ==> ms[..n][i] == ms[i];
      if Clearance(ms, c) != HUGE && Clearance(ms, c) != DcClearance(ms[n], c) {
        var i :| 0 <= i < n && Clearance(ms[..n], c) == DcClearance(ms[..n][i], c);
        assert DcClearance(ms[i], c) == Clearance(ms, c);
      }
    }
  }

  /** Gap midpoints and points beside members are tried only inside the range given. */
  lemma {:induction false} GapsWithin(ms: seq<Channel>, cLo: real, cHi: real)
    ensures forall x :: x in Gaps(ms, cLo, cHi) ==> cLo <= x <= cHi
  {
    if |ms| >= 2 {
      GapsWithin(ms[..|ms| - 1], cLo, cHi);
    }
  }

  lemma {:induction false} SidesWithin(ms: seq<Channel>, cLo: real, cHi: real)
    ensures forall x :: x in Sides(ms, cLo, cHi) ==> cLo <= x <= cHi
  {
    if ms != [] {
      SidesWithin(ms[..|ms| - 1], cLo, cHi);
    }
  }

  /** Every candidate lies where the edges lo and hi are both within half of it. */
  lemma CandidatesWithin(ms: seq<Channel>, lo: real, hi: real, half: real)
    requires ms != [] && hi - half <= lo + half
    ensures forall x :: x in Candidates(ms, lo, hi, half) ==> hi - half <= x <= lo + half
  {
    hide Gaps, Sides;
    GapsWithin(ms, hi - half, lo + half);
    SidesWithin(ms, hi - half, lo + half);
  }

  /** Pick never invents: either nothing was ever taken, or the result is a candidate with its own
      true clearance and score. */
  lemma {:induction false} PickIsCandidate(ms: seq<Channel>, cands: seq<real>, mid: real, first: real)
    ensures var p := Pick(ms, cands, mid, first);
      || p == Choice(first, -HUGE, -HUGE)
      || (p.best in cands && p.clear == Clearance(ms, p.best) && p.score == Score(ms, p.best))
  {
    if cands != [] {
      PickIsCandidate(ms, cands[..|cands| - 1], mid, first);
    }
  }

  /** Despite the tie tolerance the score falls short of the best by at most one tolerance a candidate. */
  lemma {:induction false} PickIsNearlyBest(ms: seq<Channel>, cands: seq<real>, mid: real, first: real)
    ensures forall i :: 0 <= i < |cands| ==>
      Score(ms, cands[i]) <= Pick(ms, cands, mid, first).score + |cands| as real * TIE
  {
    hide Score, Clearance;
    if cands != [] {
      var n := |cands| - 1;
      var rest := cands[..n];
      PickIsNearlyBest(ms, rest, mid, first);
      var so, p := Pick(ms, rest, mid, first), Pick(ms, cands, mid, first);
      assert so.score <= p.score + TIE;
      forall i | 0 <= i < |cands| ensures Score(ms, cands[i]) <= p.score + |cands| as real * TIE {
        if i < n {
          assert rest[i] == cands[i];
          assert Score(ms, rest[i]) <= so.score + n as real * TIE;
        }
      }
    }
  }

  /** The chosen centre is one of the candidates, and no candidate's score passes the one it was chosen
      with by more than a tolerance for each candidate. The score and clearance reported are its own,
      except when every candidate overlaps a guard so far (by 1e300) that none was ever taken. */
  lemma CentreIsNearlyBest(ms: seq<Channel>, lo: real, hi: real, half: real)
    requires ms != []
    ensures var cands, p := Candidates(ms, lo, hi, half), CentreOf(ms, lo, hi, half);
      && p.best in cands
      && (forall c :: c in cands ==> Score(ms, c) <= p.score + |cands| as real * TIE)
      && ((p.score == Score(ms, p.best) && p.clear == Clearance(ms, p.best)) ||
          (p.score == p.clear == -1e300 && forall c :: c in cands ==> Score(ms, c) <= -1e300 + |cands| as real * TIE))
  {
    hide Score, Clearance, Candidates;
    var cands := Candidates(ms, lo, hi, half);
    PickIsNearlyBest(ms, cands, 0.5 * (lo + hi), cands[0]);
    PickIsCandidate(ms, cands, 0.5 * (lo + hi), cands[0]);
    assert cands[0] in cands;
  }

  predicate Clear(ms: seq<Channel>, c: real) { Clearance(ms, c) >= 0.0 }

  lemma ScoreAtMostZero(ms: seq<Channel>, c: real)
    ensures Score(ms, c) <= 0.0
    ensures Score(ms, c) == 0.0 <==> Clear(ms, c)
  {
  }

  // ----- the centre: which candidate wins ---------------------------------------------------

  /** The n-th candidate is the nearest to the middle, and the first of the equally near, of those that
      score at least `floor`. */
  ghost predicate FirstNearest(ms: seq<Channel>, cands: seq<real>, mid: real, n: nat, floor: real)
  {
    && n < |cands| && Score(ms, cands[n]) >= floor
    && forall j :: 0 <= j < |cands| && Score(ms, cands[j]) >= floor ==> Ahead(cands, mid, n, j)
  }

  predicate Ahead(cands: seq<real>, mid: real, n: nat, j: nat)
    requires n < |cands| && j < |cands|
  {
    Abs(cands[n] - mid) <= Abs(cands[j] - mid) && (j < n ==> Abs(cands[n] - mid) < Abs(cands[j] - mid))
  }

  /** A candidate within a tolerance of clear that is the first nearest of all those no more than a
      tolerance worse than itself. */
  ghost predicate Prevails(ms: seq<Channel>, cands: seq<real>, mid: real, n: nat)
  {
    n < |cands| && Score(ms, cands[n]) >= -TIE && FirstNearest(ms, cands, mid, n, Score(ms, cands[n]) - TIE)
  }

  /** Such a candidate is the one chosen, whatever the others are. */
  lemma {:induction false} PickPrevails(ms: seq<Channel>, cands: seq<real>, mid: real, first: real, n: nat)
    requires Prevails(ms, cands, mid, n)
    ensures Pick(ms, cands, mid, first) == Choice(cands[n], Score(ms, cands[n]), Clearance(ms, cands[n]))
  {
    hide Score, Clearance, Ahead;
    var m := |cands| - 1;
    var rest := cands[..m];
    var so := Pick(ms, rest, mid, first);
    assert forall j :: 0 <= j < m ==> rest[j] == cands[j];
    ScoreAtMostZero(ms, cands[m]);
    if n < m {
      RestPrevails(ms, cands, mid, n);
      PickPrevails(ms, rest, mid, first, n);
      if Score(ms, cands[m]) >= Score(ms, cands[n]) - TIE { AheadMeans(cands, mid, n, m); }
    } else {
      PickIsCandidate(ms, rest, mid, first);
      if so != Choice(first, -HUGE, -HUGE) {
        var j :| 0 <= j < m && rest[j] == so.best;
        ScoreAtMostZero(ms, cands[j]);
        if Score(ms, cands[j]) >= Score(ms, cands[m]) - TIE { AheadMeans(cands, mid, m, j); }
      }
    }
  }

  lemma AheadMeans(cands: seq<real>, mid: real, n: nat, j: nat)
    requires n < |cands| && j < |cands| && Ahead(cands, mid, n, j)
    ensures Abs(cands[n] - mid) <= Abs(cands[j] - mid)
    ensures j < n ==> Abs(cands[n] - mid) < Abs(cands[j] - mid)
  {
  }

  lemma RestPrevails(ms: seq<Channel>, cands: seq<real>, mid: real, n: nat)
    requires Prevails(ms, cands, mid, n) && n < |cands| - 1
    ensures Prevails(ms, cands[..|cands| - 1], mid, n)
  {
    hide Score;
    var rest := cands[..|cands| - 1];
    forall j | 0 <= j < |rest| && Score(ms, rest[j]) >= Score(ms, rest[n]) - TIE ensures Ahead(rest, mid, n, j) {
      assert rest[j] == cands[j] && Ahead(cands, mid, n, j);
    }
  }

  /** Of the candidates that score so much, one is the first nearest. */
  lemma {:induction false} FindFirstNearest(ms: seq<Channel>, cands: seq<real>, mid: real, i: nat, floor: real)
    returns (n: nat)
    requires i < |cands| && Score(ms, cands[i]) >= floor
    ensures FirstNearest(ms, cands, mid, n, floor)
  {
    hide Score;
    n := i;
    for j := 0 to |cands|
      invariant n < |cands| && Score(ms, cands[n]) >= floor && (n < j || n == i)
      invariant forall k :: 0 <= k < j && Score(ms, cands[k]) >= floor ==> Ahead(cands, mid, n, k)
    {
      if Score(ms, cands[j]) >= floor && !Ahead(cands, mid, n, j) { n := j; }
    }
  }

  /** No candidate scoring within a tolerance below the n-th, and itself more than a tolerance from clear,
      is as near the middle. A clear candidate has no such rivals. */
  ghost predicate Unrivalled(ms: seq<Channel>, cands: seq<real>, mid: real, n: nat)
    requires n < |cands|
  {
    forall j :: 0 <= j < |cands| && Score(ms, cands[n]) - TIE <= Score(ms, cands[j]) < -TIE ==> Ahead(cands, mid, n, j)
  }

  /** When a block clears the spike, exactly. Take the candidate nearest the middle, the first of equals,
      of those clear or within a tolerance of it. With none, the block is not clear. When that one is
      clear it is chosen. And when it has no rivals it is chosen whether clear or not, so that the block
      is clear exactly when it is. */
  lemma ClearsExactlyWhen(ms: seq<Channel>, lo: real, hi: real, half: real, n: nat)
    requires ms != []
    ensures var cands, mid, p := Candidates(ms, lo, hi, half), 0.5 * (lo + hi), CentreOf(ms, lo, hi, half);
      && ((forall j :: 0 <= j < |cands| ==> Score(ms, cands[j]) < -TIE) ==> p.clear < 0.0)
      && (FirstNearest(ms, cands, mid, n, -TIE) && (Clear(ms, cands[n]) || Unrivalled(ms, cands, mid, n)) ==>
            p.best == cands[n] && p.clear == Clearance(ms, cands[n]) && (p.clear >= 0.0 <==> Clear(ms, cands[n])))
  {
    hide Score, Clearance, Candidates, Pick, Ahead;
    var cands, mid, p := Candidates(ms, lo, hi, half), 0.5 * (lo + hi), CentreOf(ms, lo, hi, half);
    PickIsCandidate(ms, cands, mid, cands[0]);
    if p.clear >= 0.0 {
      var j :| 0 <= j < |cands| && cands[j] == p.best;
      ScoreAtMostZero(ms, cands[j]);
    }
    if FirstNearest(ms, cands, mid, n, -TIE) && (Clear(ms, cands[n]) || Unrivalled(ms, cands, mid, n)) {
      ScoreAtMostZero(ms, cands[n]);
      assert Prevails(ms, cands, mid, n);
      PickPrevails(ms, cands, mid, cands[0], n);
    }
  }

  /** The first nearest nearly clear candidate, if there is one, is clear or has no rivals. */
  ghost predicate NoRival(ms: seq<Channel>, cands: seq<real>, mid: real)
  {
    forall n: nat | n < |cands| && FirstNearest(ms, cands, mid, n, -TIE) ::
      Clear(ms, cands[n]) || Unrivalled(ms, cands, mid, n)
  }

  /** So, unless that one is a near miss with a rival: a block is clear exactly when some candidate is
      nearly clear and the first nearest of those is clear. */
  lemma ClearsWithoutRival(ms: seq<Channel>, lo: real, hi: real, half: real)
    requires ms != [] && NoRival(ms, Candidates(ms, lo, hi, half), 0.5 * (lo + hi))
    ensures var cands, mid := Candidates(ms, lo, hi, half), 0.5 * (lo + hi);
      CentreOf(ms, lo, hi, half).clear >= 0.0 <==>
      exists n: nat :: n < |cands| && FirstNearest(ms, cands, mid, n, -TIE) && Clear(ms, cands[n])
  {
    hide Score, Clearance, Candidates, CentreOf, Ahead, FirstNearest, Unrivalled;
    var cands, mid := Candidates(ms, lo, hi, half), 0.5 * (lo + hi);
    if i :| 0 <= i < |cands| && Score(ms, cands[i]) >= -TIE {
      var n := FindFirstNearest(ms, cands, mid, i, -TIE);
      NearestIsInRange(ms, cands, mid, n, -TIE);
      ClearsExactlyWhen(ms, lo, hi, half, n);
      forall k: nat | k < |cands| && FirstNearest(ms, cands, mid, k, -TIE) && Clear(ms, cands[k])
        ensures CentreOf(ms, lo, hi, half).clear >= 0.0
      {
        ClearsExactlyWhen(ms, lo, hi, half, k);
      }
    } else {
      ClearsExactlyWhen(ms, lo, hi, half, 0);
      if k: nat :| k < |cands| && FirstNearest(ms, cands, mid, k, -TIE) && Clear(ms, cands[k]) {
        NearestIsInRange(ms, cands, mid, k, -TIE);
      }
    }
  }

  lemma NearestIsInRange(ms: seq<Channel>, cands: seq<real>, mid: real, n: nat, floor: real)
    requires FirstNearest(ms, cands, mid, n, floor)
    ensures n < |cands| && Score(ms, cands[n]) >= floor
  {
  }

  /** The centre chosen is the clear candidate nearest the middle, if there is one and no near miss (an
      overlap of a tolerance or less) is nearer; and, unless the nearest near miss has a rival, only
      then. */
  lemma CentreIsNearest(ms: seq<Channel>, lo: real, hi: real, half: real, n: nat)
    requires ms != [] && FirstNearest(ms, Candidates(ms, lo, hi, half), 0.5 * (lo + hi), n, 0.0)
    ensures var cands, mid, p := Candidates(ms, lo, hi, half), 0.5 * (lo + hi), CentreOf(ms, lo, hi, half);
      && (FirstNearest(ms, cands, mid, n, -TIE) ==> p.best == cands[n] && p.clear >= 0.0)
      && (NoRival(ms, cands, mid) && p.best == cands[n] ==> FirstNearest(ms, cands, mid, n, -TIE))
  {
    hide Score, Clearance, Candidates, CentreOf, Ahead, Unrivalled, FirstNearest;
    var cands, mid := Candidates(ms, lo, hi, half), 0.5 * (lo + hi);
    NearestIsInRange(ms, cands, mid, n, 0.0);
    ScoreAtMostZero(ms, cands[n]);
    ClearsExactlyWhen(ms, lo, hi, half, n);
    if NoRival(ms, cands, mid) {
      var m := FindFirstNearest(ms, cands, mid, n, -TIE);
      NearestIsInRange(ms, cands, mid, m, -TIE);
      ScoreAtMostZero(ms, cands[m]);
      ClearsExactlyWhen(ms, lo, hi, half, m);
      if Score(ms, cands[m]) == 0.0 { NearestIsOne(ms, cands, mid, n, m); }
    }
  }

  lemma NearestIsOne(ms: seq<Channel>, cands: seq<real>, mid: real, n: nat, m: nat)
    requires FirstNearest(ms, cands, mid, n, 0.0) && FirstNearest(ms, cands, mid, m, -TIE) && Score(ms, cands[m]) == 0.0
    ensures n == m
  {
    hide Score;
    assert Ahead(cands, mid, n, m) && Ahead(cands, mid, m, n);
  }

  /** No candidate overlaps the guard by the tolerance or less. */
  ghost predicate NoNearMiss(ms: seq<Channel>, cands: seq<real>)
  {
    forall i :: 0 <= i < |cands| ==> Score(ms, cands[i]) == 0.0 || Score(ms, cands[i]) < -TIE
  }

  /** With no near miss at all, a block is clear whenever any candidate is. */
  lemma ClearsWithoutNearMiss(ms: seq<Channel>, lo: real, hi: real, half: real)
    requires ms != [] && NoNearMiss(ms, Candidates(ms, lo, hi, half))
    ensures CentreOf(ms, lo, hi, half).clear >= 0.0 <==> exists c :: c in Candidates(ms, lo, hi, half) && Clear(ms, c)
  {
    hide Score, Clearance, Candidates, CentreOf, Ahead;
    var cands, mid := Candidates(ms, lo, hi, half), 0.5 * (lo + hi);
    ClearsExactlyWhen(ms, lo, hi, half, 0);
    if i :| 0 <= i < |cands| && Score(ms, cands[i]) >= -TIE {
      var n := FindFirstNearest(ms, cands, mid, i, -TIE);
      ScoreAtMostZero(ms, cands[n]);
      assert cands[n] in cands;
      ClearsExactlyWhen(ms, lo, hi, half, n);
    } else {
      forall c | c in cands ensures !Clear(ms, c) { ScoreAtMostZero(ms, c); }
    }
  }

  /** A middle that is clear, or within a tolerance of it, is never left for another candidate; so the
      block is then clear exactly when its middle is. */
  lemma MiddleIsKept(ms: seq<Channel>, lo: real, hi: real, half: real)
    requires ms != [] && hi - half <= lo + half && Score(ms, 0.5 * (lo + hi)) >= -TIE
    ensures CentreOf(ms, lo, hi, half).best == 0.5 * (lo + hi)
    ensures CentreOf(ms, lo, hi, half).clear == Clearance(ms, 0.5 * (lo + hi))
  {
    hide Score, Clearance;
    var cands, mid := Candidates(ms, lo, hi, half), 0.5 * (lo + hi);
    assert cands[0] == Clamp(mid, hi - half, lo + half) == mid;
    assert FirstNearest(ms, cands, mid, 0, -TIE) && Unrivalled(ms, cands, mid, 0);
    ClearsExactlyWhen(ms, lo, hi, half, 0);
  }

  lemma NearMissAtTheMiddle(ms: seq<Channel>, lo: real, hi: real, half: real)
    requires ms != [] && hi - half <= lo + half
    requires -TIE <= Clearance(ms, 0.5 * (lo + hi)) < 0.0
    ensures CentreOf(ms, lo, hi, half).best == 0.5 * (lo + hi)
    ensures CentreOf(ms, lo, hi, half).clear < 0.0
  {
    MiddleIsKept(ms, lo, hi, half);
  }

  // ----- the centre: what the candidates miss -----------------------------------------------

  lemma {:induction false} SidesHold(ms: seq<Channel>, i: nat, cLo: real, cHi: real)
    requires i < |ms|
    ensures cLo <= ms[i].freqHz - Off(ms[i]) <= cHi ==> ms[i].freqHz - Off(ms[i]) in Sides(ms, cLo, cHi)
    ensures cLo <= ms[i].freqHz + Off(ms[i]) <= cHi ==> ms[i].freqHz + Off(ms[i]) in Sides(ms, cLo, cHi)
  {
    hide Off;
    var n := |ms| - 1;
    SidesStep(ms, cLo, cHi);
    hide Sides;
    if i < n {
      SidesHold(ms[..n], i, cLo, cHi);
    }
  }

  /** The last point, from the left up to x, just clear of a member wholly left of x. */
  lemma LastRightSide(ms: seq<Channel>, x: real, i: nat) returns (m: nat)
    requires i < |ms| && ms[i].freqHz + Off(ms[i]) <= x
    ensures m < |ms| && ms[i].freqHz + Off(ms[i]) <= ms[m].freqHz + Off(ms[m]) <= x
    ensures forall j :: 0 <= j < |ms| && ms[j].freqHz + Off(ms[j]) <= x ==>
      ms[j].freqHz + Off(ms[j]) <= ms[m].freqHz + Off(ms[m])
  {
    hide Off;
    m := i;
    for n := 0 to |ms|
      invariant m < |ms| && ms[i].freqHz + Off(ms[i]) <= ms[m].freqHz + Off(ms[m]) <= x
      invariant forall j :: 0 <= j < n && ms[j].freqHz + Off(ms[j]) <= x ==>
        ms[j].freqHz + Off(ms[j]) <= ms[m].freqHz + Off(ms[m])
    {
      if ms[m].freqHz + Off(ms[m]) < ms[n].freqHz + Off(ms[n]) <= x { m := n; }
    }
  }

  lemma FirstLeftSide(ms: seq<Channel>, x: real, i: nat) returns (m: nat)
    requires i < |ms| && x <= ms[i].freqHz - Off(ms[i])
    ensures m < |ms| && x <= ms[m].freqHz - Off(ms[m]) <= ms[i].freqHz - Off(ms[i])
    ensures forall j :: 0 <= j < |ms| && x <= ms[j].freqHz - Off(ms[j]) ==>
      ms[m].freqHz - Off(ms[m]) <= ms[j].freqHz - Off(ms[j])
  {
    hide Off;
    m := i;
    for n := 0 to |ms|
      invariant m < |ms| && x <= ms[m].freqHz - Off(ms[m]) <= ms[i].freqHz - Off(ms[i])
      invariant forall j :: 0 <= j < n && x <= ms[j].freqHz - Off(ms[j]) ==>
        ms[m].freqHz - Off(ms[m]) <= ms[j].freqHz - Off(ms[j])
    {
      if x <= ms[n].freqHz - Off(ms[n]) < ms[m].freqHz - Off(ms[m]) { m := n; }
    }
  }

  ghost predicate NonNegativeWidths(ms: seq<Channel>)
  {
    forall i :: 0 <= i < |ms| ==> ms[i].bandwidthHz >= 0.0
  }

  /** Off the guard by a hertz, as a point either side. */
  ghost predicate Beside(c: Channel, x: real)
  {
    x <= c.freqHz - Off(c) || c.freqHz + Off(c) <= x
  }

  lemma ClearIfBeside(ms: seq<Channel>, x: real)
    requires NonNegativeWidths(ms) && forall i :: 0 <= i < |ms| ==> Beside(ms[i], x)
    ensures Clear(ms, x)
  {
    ClearanceIsLeast(ms, x);
  }

  lemma BesideIfClear(ms: seq<Channel>, x: real)
    requires NonNegativeWidths(ms) && Clearance(ms, x) >= 1.0
    ensures forall i :: 0 <= i < |ms| ==> Beside(ms[i], x)
  {
    ClearanceIsLeast(ms, x);
  }

  lemma SomebodyOverlaps(ms: seq<Channel>, x: real) returns (i: nat)
    requires NonNegativeWidths(ms) && !Clear(ms, x)
    ensures i < |ms| && ms[i].freqHz - Off(ms[i]) < x < ms[i].freqHz + Off(ms[i])
  {
    ClearanceIsLeast(ms, x);
    i :| 0 <= i < |ms| && DcClearance(ms[i], x) < 0.0;
  }

  lemma CandidatesHold(ms: seq<Channel>, lo: real, hi: real, half: real)
    requires ms != [] && hi - half <= lo + half
    ensures 0.5 * (lo + hi) in Candidates(ms, lo, hi, half)
    ensures forall x :: x in Sides(ms, hi - half, lo + half) ==> x in Candidates(ms, lo, hi, half)
  {
    assert Candidates(ms, lo, hi, half)[0] == 0.5 * (lo + hi);
  }

  /** The candidates are enough: of ALL the centres the members allow, if any keeps every channel a
      hertz clear of the guard, some candidate is clear and no farther from the block's middle. */
  lemma CandidatesSuffice(ms: seq<Channel>, lo: real, hi: real, half: real, x: real) returns (c: real)
    requires ms != [] && NonNegativeWidths(ms)
    requires hi - half <= x <= lo + half && Clearance(ms, x) >= 1.0
    ensures c in Candidates(ms, lo, hi, half) && Clear(ms, c)
    ensures Abs(c - 0.5 * (lo + hi)) <= Abs(x - 0.5 * (lo + hi))
  {
    hide Off, Clear, Clearance, Candidates, Sides, NonNegativeWidths;
    c := 0.5 * (lo + hi);
    CandidatesHold(ms, lo, hi, half);
    BesideIfClear(ms, x);
    if !Clear(ms, c) {
      var i := SomebodyOverlaps(ms, c);
      assert Beside(ms[i], x);
      var m: nat;
      if ms[i].freqHz + Off(ms[i]) <= x {
        m := LastRightSide(ms, x, i);
        c := ms[m].freqHz + Off(ms[m]);
      } else {
        m := FirstLeftSide(ms, x, i);
        c := ms[m].freqHz - Off(ms[m]);
      }
      SidesHold(ms, m, hi - half, lo + half);
      forall j | 0 <= j < |ms| ensures Beside(ms[j], c) {
        assert Beside(ms[j], x);
      }
      ClearIfBeside(ms, c);
    }
  }

  /** So a block is left overlapping the spike, and gives a channel back, only when every centre its
      members allow comes within a hertz of somebody's guard, or a near miss is no farther from the
      middle than it. */
  lemma GiveBackIsForced(ms: seq<Channel>, lo: real, hi: real, half: real, x: real)
    requires ms != [] && NonNegativeWidths(ms)
    requires CentreOf(ms, lo, hi, half).clear < 0.0
    requires hi - half <= x <= lo + half
    ensures var mid := 0.5 * (lo + hi);
      || Clearance(ms, x) < 1.0
      || exists c :: c in Candidates(ms, lo, hi, half) && -TIE <= Score(ms, c) < 0.0 && Abs(c - mid) <= Abs(x - mid)
  {
    hide Clearance, Score, CentreOf, Candidates, Ahead, NonNegativeWidths;
    var cands, mid := Candidates(ms, lo, hi, half), 0.5 * (lo + hi);
    if Clearance(ms, x) >= 1.0 {
      var c := CandidatesSuffice(ms, lo, hi, half, x);
      var i :| 0 <= i < |cands| && cands[i] == c;
      ScoreAtMostZero(ms, c);
      var n := FindFirstNearest(ms, cands, mid, i, -TIE);
      ClearsExactlyWhen(ms, lo, hi, half, n);
      ScoreAtMostZero(ms, cands[n]);
      AheadMeans(cands, mid, n, i);
      assert cands[n] in cands;
    }
  }

  /** The point a guard above the channel's upper edge. */
  function Past(c: Channel): real { c.freqHz + 0.5 * c.bandwidthHz + DC_GUARD_HZ }

  /** One of finitely many points is clear: the range's lower end, or a point past a member inside it. */
  ghost predicate SomePointIsClear(ms: seq<Channel>, cLo: real, cHi: real)
  {
    || Clear(ms, cLo)
    || exists i :: 0 <= i < |ms| && cLo <= Past(ms[i]) <= cHi && Clear(ms, Past(ms[i]))
  }

  ghost predicate SomeCentreIsClear(ms: seq<Channel>, cLo: real, cHi: real)
  {
    exists x :: cLo <= x <= cHi && Clear(ms, x)
  }

  lemma ClearMeans(ms: seq<Channel>, x: real)
    ensures Clear(ms, x) <==>
      forall i :: 0 <= i < |ms| ==>
        x <= ms[i].freqHz - 0.5 * ms[i].bandwidthHz - DC_GUARD_HZ || Past(ms[i]) <= x
  {
    ClearanceIsLeast(ms, x);
    forall i | 0 <= i < |ms|
      ensures DcClearance(ms[i], x) >= 0.0 <==>
        x <= ms[i].freqHz - 0.5 * ms[i].bandwidthHz - DC_GUARD_HZ || Past(ms[i]) <= x
    { }
  }

  /** The last point past a member from the left up to x. */
  lemma LastPast(ms: seq<Channel>, x: real, i: nat) returns (m: nat)
    requires i < |ms| && Past(ms[i]) <= x
    ensures m < |ms| && Past(ms[i]) <= Past(ms[m]) <= x
    ensures forall j :: 0 <= j < |ms| && Past(ms[j]) <= x ==> Past(ms[j]) <= Past(ms[m])
  {
    hide Past;
    m := i;
    for n := 0 to |ms|
      invariant m < |ms| && Past(ms[i]) <= Past(ms[m]) <= x
      invariant forall j :: 0 <= j < n && Past(ms[j]) <= x ==> Past(ms[j]) <= Past(ms[m])
    {
      if Past(ms[m]) < Past(ms[n]) <= x { m := n; }
    }
  }

  /** Of ALL the centres the members allow, some is clear exactly when one of those points is. */
  lemma PointsDecide(ms: seq<Channel>, cLo: real, cHi: real)
    requires cLo <= cHi
    ensures SomeCentreIsClear(ms, cLo, cHi) <==> SomePointIsClear(ms, cLo, cHi)
  {
    hide Clear, Clearance;
    if x :| cLo <= x <= cHi && Clear(ms, x) {
      if !Clear(ms, cLo) {
        ClearMeans(ms, x);
        ClearMeans(ms, cLo);
        var i :| 0 <= i < |ms| && ms[i].freqHz - 0.5 * ms[i].bandwidthHz - DC_GUARD_HZ < cLo < Past(ms[i]);
        var m := LastPast(ms, x, i);
        ClearMeans(ms, Past(ms[m]));
        assert Clear(ms, Past(ms[m]));
      }
    }
  }

  /** A block is left overlapping the spike, although some centre its members allow would clear it,
      exactly when one of those points is clear and the first nearest nearly clear candidate, if there
      is one at all, is not (unless that one is a near miss with a rival). */
  lemma LeavesAClearCentre(ms: seq<Channel>, lo: real, hi: real, half: real)
    requires ms != [] && hi - half <= lo + half && NoRival(ms, Candidates(ms, lo, hi, half), 0.5 * (lo + hi))
    ensures var cands, mid := Candidates(ms, lo, hi, half), 0.5 * (lo + hi);
      CentreOf(ms, lo, hi, half).clear < 0.0 && SomeCentreIsClear(ms, hi - half, lo + half) <==>
      && SomePointIsClear(ms, hi - half, lo + half)
      && !exists n: nat :: n < |cands| && FirstNearest(ms, cands, mid, n, -TIE) && Clear(ms, cands[n])
  {
    hide *;
    ClearsWithoutRival(ms, lo, hi, half);
    PointsDecide(ms, hi - half, lo + half);
  }

  lemma {:induction false} GapIs(ms: seq<Channel>, cLo: real, cHi: real, x: real) returns (i: nat)
    requires x in Gaps(ms, cLo, cHi)
    ensures i + 1 < |ms| && x == 0.5 * (ms[i].freqHz + ms[i + 1].freqHz)
  {
    var n := |ms| - 1;
    if x in Gaps(ms[..n], cLo, cHi) { i := GapIs(ms[..n], cLo, cHi, x); } else { i := n - 1; }
  }

  lemma {:induction false} SideIs(ms: seq<Channel>, cLo: real, cHi: real, x: real) returns (i: nat)
    requires x in Sides(ms, cLo, cHi)
    ensures i < |ms| && (x == ms[i].freqHz - Off(ms[i]) || x == ms[i].freqHz + Off(ms[i]))
  {
    hide Off;
    var n := |ms| - 1;
    if x in Sides(ms[..n], cLo, cHi) { i := SideIs(ms[..n], cLo, cHi, x); } else { i := n; }
  }

  /** What a candidate can be. */
  lemma CandidateIs(ms: seq<Channel>, lo: real, hi: real, half: real, x: real) returns (i: nat)
    requires ms != [] && hi - half <= lo + half && x in Candidates(ms, lo, hi, half)
    ensures i < |ms|
    ensures
      || x == 0.5 * (lo + hi) || x == hi - half || x == lo + half
      || (i + 1 < |ms| && x == 0.5 * (ms[i].freqHz + ms[i + 1].freqHz))
      || x == ms[i].freqHz - Off(ms[i]) || x == ms[i].freqHz + Off(ms[i])
  {
    hide Off, Gaps, Sides;
    var cLo, cHi := hi - half, lo + half;
    i := 0;
    if x in Gaps(ms, cLo, cHi) { i := GapIs(ms, cLo, cHi, x); }
    else if x in Sides(ms, cLo, cHi) { i := SideIs(ms, cLo, cHi, x); }
  }

  // ----- a single channel -------------------------------------------------------------------

  /** A channel the capture can hold, alone in its block, is clear exactly when it is narrow enough to
      leave a guard between itself and the far end of half the capture. One wider than that, but not
      wider than the capture, is left overlapping the spike. */
  lemma LoneChannelIsClear(c: Channel, half: real)
    requires 0.0 <= c.bandwidthHz <= 2.0 * half
    ensures CentreOf([c], c.LowEdge(), c.HighEdge(), half).clear >= 0.0 <==> c.bandwidthHz <= half - DC_GUARD_HZ
  {
    hide Clearance, Candidates, CentreOf;
    var ms, lo, hi := [c], c.LowEdge(), c.HighEdge();
    var cands, mid := Candidates(ms, lo, hi, half), 0.5 * (lo + hi);
    assert mid == c.freqHz;
    forall j | 0 <= j < |cands|
      ensures Clearance(ms, cands[j]) <= half - DC_GUARD_HZ - c.bandwidthHz
      ensures c.bandwidthHz <= half - DC_GUARD_HZ ==> cands[j] == mid || Clear(ms, cands[j])
      ensures cands[j] == mid ==> Clearance(ms, cands[j]) <= -DC_GUARD_HZ
    {
      LoneCandidate(c, half, cands[j]);
    }
    if c.bandwidthHz <= half - DC_GUARD_HZ {
      EndIsCandidate(ms, lo, hi, half);
      assert lo + half != mid;
      forall j | 0 <= j < |cands| ensures Score(ms, cands[j]) == 0.0 || Score(ms, cands[j]) < -TIE {
        ScoreAtMostZero(ms, cands[j]);
      }
      assert lo + half in cands && Clear(ms, lo + half);
      ClearsWithoutNearMiss(ms, lo, hi, half);
    } else {
      LoneIsNotClear(ms, lo, hi, half);
    }
  }

  lemma LoneIsNotClear(ms: seq<Channel>, lo: real, hi: real, half: real)
    requires ms != [] && forall j :: 0 <= j < |Candidates(ms, lo, hi, half)| ==>
      Clearance(ms, Candidates(ms, lo, hi, half)[j]) < 0.0
    ensures CentreOf(ms, lo, hi, half).clear < 0.0
  {
    hide Clearance, Candidates, Pick;
    PickIsCandidate(ms, Candidates(ms, lo, hi, half), 0.5 * (lo + hi), Candidates(ms, lo, hi, half)[0]);
  }

  lemma EndIsCandidate(ms: seq<Channel>, lo: real, hi: real, half: real)
    requires ms != [] && hi - half <= lo + half
    ensures lo + half in Candidates(ms, lo, hi, half)
  {
    hide Gaps, Sides;
    assert Candidates(ms, lo, hi, half)[2] == lo + half;
  }

  lemma LoneCandidate(c: Channel, half: real, x: real)
    requires 0.0 <= c.bandwidthHz <= 2.0 * half && x in Candidates([c], c.LowEdge(), c.HighEdge(), half)
    ensures Clearance([c], x) <= half - DC_GUARD_HZ - c.bandwidthHz
    ensures c.bandwidthHz <= half - DC_GUARD_HZ ==> x == c.freqHz || Clear([c], x)
    ensures x == c.freqHz ==> Clearance([c], x) <= -DC_GUARD_HZ
  {
    hide Clearance, Candidates;
    var ms := [c];
    CandidatesWithin(ms, c.LowEdge(), c.HighEdge(), half);
    var i := CandidateIs(ms, c.LowEdge(), c.HighEdge(), half, x);
    ClearanceIsLeast(ms, x);
    assert ms[0] == c;
    assert Clearance(ms, x) <= DcClearance(ms[0], x);
  }

  /** A channel wider than the capture gets a centre just off it: its edge is a guard away. */
  lemma WideChannelIsCleared(c: Channel, half: real)
    requires c.bandwidthHz >= 0.0 && c.HighEdge() - half > c.LowEdge() + half
    ensures var p := CentreOf([c], c.LowEdge(), c.HighEdge(), half);
      p.best - c.HighEdge() == DC_GUARD_HZ && p.clear == 0.0
  {
    hide Clearance, Pick;
    var x := c.HighEdge() + DC_GUARD_HZ;
    ClearanceIsLeast([c], x);
    assert DcClearance([c][0], x) == 0.0;
    assert Candidates([c], c.LowEdge(), c.HighEdge(), half) == [x];
    PickOfOne([c], x, 0.5 * (c.LowEdge() + c.HighEdge()));
  }

  lemma PickOfOne(ms: seq<Channel>, x: real, mid: real)
    requires Score(ms, x) > TIE - HUGE
    ensures Pick(ms, [x], mid, x) == Choice(x, Score(ms, x), Clearance(ms, x))
  {
    hide Clearance, Score;
    assert [x][..0] == [];
  }

  // ----- clearance of the blocks ------------------------------------------------------------

  /** What is kept, exactly: as many as can be of those grown to, with a clear centre, or one alone. */
  lemma {:induction false} KeptExactly(cs: seq<Channel>, k: nat, j: nat, half: real, end: nat)
    requires k < j <= |cs|
    ensures end == KeptEnd(cs, k, j, half) <==>
      && k < end <= j && (end == k + 1 || Centre(cs, k, end, half).clear >= 0.0)
      && forall e :: end < e <= j ==> Centre(cs, k, e, half).clear < 0.0
  {
    hide CentreOf;
    if !(Centre(cs, k, j, half).clear >= 0.0 || j == k + 1) {
      KeptExactly(cs, k, j - 1, half, end);
    }
  }

  lemma {:induction false} GrownFits(cs: seq<Channel>, k: nat, j: nat, half: real, most: nat)
    requires k < j <= |cs| && (j == k + 1 || Extent(cs, k, j) <= Room(half))
    ensures var end := GrownEnd(cs, k, j, half, most);
      end == k + 1 || Extent(cs, k, end) <= Room(half)
    decreases |cs| - j
  {
    hide Extent;
    if j < |cs| && j - k < most && Extent(cs, k, j + 1) <= Room(half) {
      GrownFits(cs, k, j + 1, half, most);
    }
  }

  lemma ExtentGrows(cs: seq<Channel>, k: nat, j: nat, j': nat)
    requires k < j <= j' <= |cs|
    ensures Extent(cs, k, j) <= Extent(cs, k, j')
  {
    HighIsHighest(cs[k..j], 0.0);
    HighIsHighest(cs[k..j'], 0.0);
    forall i | 0 <= i < j - k ensures cs[k..j][i].HighEdge() <= High(cs[k..j'], 0.0) {
      assert cs[k..j'][i] == cs[k..j][i];
    }
  }

  lemma ExtentFits(cs: seq<Channel>, k: nat, half: real, most: nat)
    requires k < |cs|
    ensures var end := EndFrom(cs, k, half, most);
      end == k + 1 || Extent(cs, k, end) <= Room(half)
  {
    hide Extent, CentreOf;
    var grown := GrownEnd(cs, k, k + 1, half, most);
    GrownFits(cs, k, k + 1, half, most);
    ExtentGrows(cs, k, EndFrom(cs, k, half, most), grown);
  }

  /** An accepted centre keeps every member off the guard and inside the capture. */
  lemma CentreFacts(ms: seq<Channel>, lo: real, hi: real, half: real)
    requires ms != [] && hi - half <= lo + half && CentreOf(ms, lo, hi, half).clear >= 0.0
    ensures var c := CentreOf(ms, lo, hi, half).best;
      && hi - half <= c <= lo + half
      && forall i :: 0 <= i < |ms| ==> DcClearance(ms[i], c) >= 0.0
  {
    hide Clearance, Candidates;
    var cands := Candidates(ms, lo, hi, half);
    PickIsCandidate(ms, cands, 0.5 * (lo + hi), cands[0]);
    CandidatesWithin(ms, lo, hi, half);
    ClearanceIsLeast(ms, CentreOf(ms, lo, hi, half).best);
  }

  /** What a block's centre gives one of its channels; `lowest` is the block's first channel. */
  ghost predicate WellPlaced(c: Channel, lowest: Channel, centreHz: real, half: real)
  {
    && Abs(c.freqHz - centreHz) - 0.5 * c.bandwidthHz >= 1999.5
    && c.HighEdge() - centreHz <= half + 0.5
    && centreHz - c.LowEdge() <= half + 0.5 + Max(0.0, lowest.LowEdge() - c.LowEdge())
  }

  lemma BlockIsWellPlaced(cs: seq<Channel>, order: seq<nat>, k: nat, half: real, most: nat, i: nat)
    requires |order| == |cs| && k < |cs|
    requires EndFrom(cs, k, half, most) > k + 1 && k <= i < EndFrom(cs, k, half, most)
    ensures WellPlaced(cs[i], cs[k], BlockFrom(cs, order, k, half, most).centreHz, half)
  {
    hide CentreOf, High, KeptEnd, GrownEnd;
    var end := EndFrom(cs, k, half, most);
    var ms, lo := cs[k..end], cs[k].LowEdge();
    KeptExactly(cs, k, GrownEnd(cs, k, k + 1, half, most), half, end);
    ExtentFits(cs, k, half, most);
    var hi := High(ms, lo);
    HighIsHighest(ms, 0.0);
    HighIsHighest(ms, lo);
    assert ms[0] == cs[k] && ms[i - k] == cs[i];
    CentreFacts(ms, lo, hi, half);
    assert DcClearance(ms[i - k], CentreOf(ms, lo, hi, half).best) >= 0.0;
    assert ms[i - k].HighEdge() <= hi;
  }

  /** Every block of the cut is the greedy block of its own starting place. */
  lemma {:induction false} CutBlocks(cs: seq<Channel>, order: seq<nat>, k: nat, half: real, most: nat, b: Block)
    returns (at: nat)
    requires |order| == |cs| && k <= |cs| && b in CutFrom(cs, order, k, half, most)
    ensures k <= at < |cs| && b == BlockFrom(cs, order, at, half, most)
    decreases |cs| - k
  {
    hide BlockFrom, EndFrom;
    CutUnfolds(cs, order, k, half, most);
    if b == BlockFrom(cs, order, k, half, most) {
      at := k;
    } else {
      at := CutBlocks(cs, order, k + |BlockFrom(cs, order, k, half, most).members|, half, most, b);
    }
  }

  /** Where in the frequency order a block of the plan, and one of its members, stand. */
  lemma Locate(channels: seq<Channel>, deviceRateHz: real, usableFraction: real, maxPerBlock: nat, b: Block, m: nat)
    returns (k: nat, i: nat)
    requires b in Plan(channels, deviceRateHz, usableFraction, maxPerBlock) && m in b.members
    ensures Indices(channels, Order(channels))
    ensures var cs, half := At(channels, Order(channels)), Half(deviceRateHz, usableFraction);
      var most := MostPerBlock(maxPerBlock);
      && k <= i < |cs| && b == BlockFrom(cs, Order(channels), k, half, most)
      && i < EndFrom(cs, k, half, most) == k + |b.members|
      && Order(channels)[i] == m && Order(channels)[k] == b.members[0]
  {
    hide CutFrom, EndFrom, BlockFrom, At, Order, StableSort;
    OrderIsFrequencyOrder(channels);
    var order, half, most := Order(channels), Half(deviceRateHz, usableFraction), MostPerBlock(maxPerBlock);
    k := CutBlocks(At(channels, order), order, 0, half, most, b);
    BlockMembers(At(channels, order), order, k, half, most);
    var n :| 0 <= n < |b.members| && b.members[n] == m;
    i := k + n;
  }

  /** Why a block that ends before e is no longer: it has as many channels as it may, there are no more,
      one more would leave no room for the guards, or with one more no centre would do. */
  ghost predicate StopsBefore(cs: seq<Channel>, k: nat, e: nat, half: real, maxPerBlock: nat)
    requires k < e <= |cs|
  {
    || e - k == (if maxPerBlock < 1 then 1 else if maxPerBlock > 64 then 64 else maxPerBlock)
    || e == |cs|
    || High(cs[k..e + 1], 0.0) - cs[k].LowEdge() > 2.0 * half - 4000.0
    || Centre(cs, k, e + 1, half).clear < 0.0
  }

  /** No block of the plan stops for any other reason. */
  lemma BlocksAreMaximal(channels: seq<Channel>, deviceRateHz: real, usableFraction: real, maxPerBlock: nat, b: Block)
    returns (k: nat)
    requires b in Plan(channels, deviceRateHz, usableFraction, maxPerBlock)
    ensures Indices(channels, Order(channels))
    ensures var cs, end := At(channels, Order(channels)), k + |b.members|;
      && k < end <= |cs| && b.members == Order(channels)[k..end]
      && StopsBefore(cs, k, end, Half(deviceRateHz, usableFraction), maxPerBlock)
  {
    hide CutFrom, EndFrom, BlockFrom, At, Order;
    OrderIsFrequencyOrder(channels);
    var order, half, most := Order(channels), Half(deviceRateHz, usableFraction), MostPerBlock(maxPerBlock);
    k := CutBlocks(At(channels, order), order, 0, half, most, b);
    BlockMembers(At(channels, order), order, k, half, most);
    EndStops(At(channels, order), k, half, maxPerBlock);
  }

  lemma EndStops(cs: seq<Channel>, k: nat, half: real, maxPerBlock: nat)
    requires k < |cs|
    ensures StopsBefore(cs, k, EndFrom(cs, k, half, MostPerBlock(maxPerBlock)), half, maxPerBlock)
  {
    hide Centre, High;
    var most := MostPerBlock(maxPerBlock);
    var grown := GrownEnd(cs, k, k + 1, half, most);
    var end := EndFrom(cs, k, half, most);
    KeptExactly(cs, k, grown, half, end);
    GrowthStops(cs, k, k + 1, half, most);
    GrownWithin(cs, k, k + 1, half, most);
  }

  lemma {:induction false} GrowthStops(cs: seq<Channel>, k: nat, j: nat, half: real, most: nat)
    requires k < j <= |cs|
    ensures var e := GrownEnd(cs, k, j, half, most);
      e == |cs| || e - k >= most || Extent(cs, k, e + 1) > Room(half)
    decreases |cs| - j
  {
    hide Extent;
    if j < |cs| && j - k < most && Extent(cs, k, j + 1) <= Room(half) { GrowthStops(cs, k, j + 1, half, most); }
  }

  /** The centre of a block is a whole number of hertz, the one nearest the centre chosen for its channels;
      of two as near, the one farther from zero. */
  lemma BlockCentreIsWhole(channels: seq<Channel>, deviceRateHz: real, usableFraction: real, maxPerBlock: nat, b: Block)
    returns (k: nat)
    requires b in Plan(channels, deviceRateHz, usableFraction, maxPerBlock)
    ensures Indices(channels, Order(channels))
    ensures var cs, end := At(channels, Order(channels)), k + |b.members|;
      && k < end <= |cs| && b.members == Order(channels)[k..end]
      && NearestWhole(b.centreHz, Centre(cs, k, end, Half(deviceRateHz, usableFraction)).best)
  {
    hide CutFrom, EndFrom, At, Order, Centre, Round, NearestWhole;
    OrderIsFrequencyOrder(channels);
    var order, half, most := Order(channels), Half(deviceRateHz, usableFraction), MostPerBlock(maxPerBlock);
    k := CutBlocks(At(channels, order), order, 0, half, most, b);
    BlockMembers(At(channels, order), order, k, half, most);
    RoundIsNearestWhole(Centre(At(channels, order), k, k + |b.members|, half).best);
  }

  predicate NearestWhole(whole: real, x: real)
  {
    && whole == whole.Floor as real
    && -0.5 <= whole - x <= 0.5
    && (whole - x == 0.5 ==> x > 0.0) && (x - whole == 0.5 ==> x < 0.0)
  }

  lemma RoundIsNearestWhole(x: real)
    ensures NearestWhole(Round(x), x)
  {
    hide NearestWhole;
    if x < 0.0 {
      WholeIsNearest(-((0.5 - x).Floor), x);
    } else {
      WholeIsNearest((x + 0.5).Floor, x);
    }
  }

  lemma WholeIsNearest(n: int, x: real)
    requires -0.5 <= n as real - x <= 0.5
    requires n as real - x == 0.5 ==> x > 0.0
    requires x - n as real == 0.5 ==> x < 0.0
    ensures NearestWhole(n as real, x)
  {
  }

  /** In every block of two or more channels each channel's edge is a guard less half a hertz from
      the rounded centre, and the block's upper edges (and its lower ones, as far as none lies below
      the first channel's) are inside the capture, to half a hertz. */
  lemma BlocksClearTheSpike(channels: seq<Channel>, deviceRateHz: real, usableFraction: real,
                            maxPerBlock: nat, b: Block, m: nat)
    requires b in Plan(channels, deviceRateHz, usableFraction, maxPerBlock) && |b.members| >= 2
    requires m in b.members
    ensures m < |channels| && b.members[0] < |channels|
    ensures WellPlaced(channels[m], channels[b.members[0]], b.centreHz, Half(deviceRateHz, usableFraction))
  {
    hide Plan, BlockFrom, WellPlaced, EndFrom;
    var k, i := Locate(channels, deviceRateHz, usableFraction, maxPerBlock, b, m);
    var order := Order(channels);
    BlockIsWellPlaced(At(channels, order), order, k, Half(deviceRateHz, usableFraction), MostPerBlock(maxPerBlock), i);
  }

  function WideInTheMiddle(): seq<Channel>
  {
    [Channel(1000000.0, true, 0.0, Am), Channel(1010000.0, true, 60000.0, Am), Channel(1100000.0, true, 0.0, Am)]
  }

  lemma HighIs(ms: seq<Channel>, base: real, m: nat)
    requires m < |ms| && base <= ms[m].HighEdge()
    requires forall i :: 0 <= i < |ms| ==> ms[i].HighEdge() <= ms[m].HighEdge()
    ensures High(ms, base) == ms[m].HighEdge()
  {
    HighIsHighest(ms, base);
  }

  lemma WideHigh(base: real)
    requires base <= 1000000.0
    ensures High(WideInTheMiddle()[0..2], base) == 1040000.0
    ensures High(WideInTheMiddle()[0..3], base) == 1100000.0
  {
    hide High;
    HighIs(WideInTheMiddle()[0..2], base, 1);
    HighIs(WideInTheMiddle()[0..3], base, 2);
  }

  lemma WideGrows()
    ensures GrownEnd(WideInTheMiddle(), 0, 1, 52500.0, MAX_BLOCK_CHANNELS) == 3
  {
    hide High;
    var cs := WideInTheMiddle();
    WideHigh(0.0);
    assert GrownEnd(cs, 0, 3, 52500.0, MAX_BLOCK_CHANNELS) == 3;
    assert GrownEnd(cs, 0, 2, 52500.0, MAX_BLOCK_CHANNELS) == 3;
  }

  lemma WideCentre()
    ensures Centre(WideInTheMiddle(), 0, 3, 52500.0).best == 1050000.0
    ensures Centre(WideInTheMiddle(), 0, 3, 52500.0).clear >= 0.0
  {
    hide High, CentreOf;
    var cs, mid := WideInTheMiddle(), 1050000.0;
    WideHigh(1000000.0);
    assert cs[0..3] == cs;
    ClearanceIsLeast(cs, mid);
    MiddleIsKept(cs, 1000000.0, 1100000.0, 52500.0);
  }

  /** The allowance for a low-reaching channel is needed: the first channel's lower edge is not the
      block's lowest when a later channel is wide enough, and that channel's lower edge can then lie
      outside the capture, here by 17.5 kHz. */
  lemma LowerEdgeCanFallOutside()
    ensures var cs, half := WideInTheMiddle(), 52500.0;
      var b := BlockFrom(cs, [0, 1, 2], 0, half, MAX_BLOCK_CHANNELS);
      b.members == [0, 1, 2] && b.centreHz - cs[1].LowEdge() == half + 17500.0
  {
    hide Centre, GrownEnd;
    WideGrows();
    WideCentre();
    var order: seq<nat> := [0, 1, 2];
    assert order[0..3] == order;
  }

  /** The capture centred on x holds the channel's lower edge. */
  predicate HoldsLowEdge(c: Channel, x: real, half: real) { x - c.LowEdge() <= half }

  /** The range the centres are taken from is one every member allows exactly when no member's lower edge
      is below lo, the first member's. */
  lemma RangeIsAllowedExactly(c: Channel, lo: real, hi: real, half: real)
    requires hi - half <= lo + half
    ensures lo <= c.LowEdge() <==> forall x :: hi - half <= x <= lo + half ==> HoldsLowEdge(c, x, half)
  {
    if forall x :: hi - half <= x <= lo + half ==> HoldsLowEdge(c, x, half) {
      assert HoldsLowEdge(c, lo + half, half);
    }
  }

  /** No member's lower edge is below the first's. */
  ghost predicate FirstIsLowest(channels: seq<Channel>, members: seq<nat>)
    requires Indices(channels, members) && members != []
  {
    forall i :: 0 <= i < |members| ==> channels[members[0]].LowEdge() <= channels[members[i]].LowEdge()
  }

  predicate LowerEdgesAscend(cs: seq<Channel>)
  {
    forall i, j :: 0 <= i < j < |cs| ==> cs[i].LowEdge() <= cs[j].LowEdge()
  }

  lemma MembersAreValid(channels: seq<Channel>, deviceRateHz: real, usableFraction: real, maxPerBlock: nat, b: Block)
    requires b in Plan(channels, deviceRateHz, usableFraction, maxPerBlock)
    ensures Indices(channels, b.members)
  {
    hide Plan, EndFrom, BlockFrom;
    forall i | 0 <= i < |b.members| ensures b.members[i] < |channels| {
      var k, j := Locate(channels, deviceRateHz, usableFraction, maxPerBlock, b, b.members[i]);
    }
  }

  /** ... so in a block whose first channel's lower edge is its lowest every channel is inside the capture,
      to half a hertz. */
  lemma BlocksFitTheCapture(channels: seq<Channel>, deviceRateHz: real, usableFraction: real,
                            maxPerBlock: nat, b: Block, m: nat)
    requires b in Plan(channels, deviceRateHz, usableFraction, maxPerBlock) && |b.members| >= 2 && m in b.members
    requires (MembersAreValid(channels, deviceRateHz, usableFraction, maxPerBlock, b);
      FirstIsLowest(channels, b.members))
    ensures m < |channels|
    ensures b.centreHz - Half(deviceRateHz, usableFraction) - 0.5 <= channels[m].LowEdge()
    ensures channels[m].HighEdge() <= b.centreHz + Half(deviceRateHz, usableFraction) + 0.5
  {
    hide Plan;
    BlocksClearTheSpike(channels, deviceRateHz, usableFraction, maxPerBlock, b, m);
    var i :| 0 <= i < |b.members| && b.members[i] == m;
  }

  /** Ascending lower edges make every block such a one. */
  lemma AscendingFirstIsLowest(channels: seq<Channel>, deviceRateHz: real, usableFraction: real,
                               maxPerBlock: nat, b: Block)
    requires (OrderIsFrequencyOrder(channels); LowerEdgesAscend(At(channels, Order(channels))))
    requires b in Plan(channels, deviceRateHz, usableFraction, maxPerBlock) && b.members != []
    ensures Indices(channels, b.members) && FirstIsLowest(channels, b.members)
  {
    hide Plan, EndFrom, BlockFrom;
    MembersAreValid(channels, deviceRateHz, usableFraction, maxPerBlock, b);
    forall i | 0 <= i < |b.members| ensures channels[b.members[0]].LowEdge() <= channels[b.members[i]].LowEdge() {
      var k, j := Locate(channels, deviceRateHz, usableFraction, maxPerBlock, b, b.members[i]);
      assert At(channels, Order(channels))[k].LowEdge() <= At(channels, Order(channels))[j].LowEdge();
    }
  }
}
