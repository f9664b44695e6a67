/** What the Worker stores of a health text, said with its limits, prefixes and endings written out. */
module HealthReport {
  import opened Sorting
  import opened Decimals
  import opened Texts
  import opened HealthCodec
  import opened HealthCodecProofs
  import opened HealthWords
  import opened HealthVocabulary
  import opened Wrappers

  // ----- pieces -----------------------------------------------------------------------------

  predicate InDigits(s: string) { forall i :: 0 <= i < |s| ==> s[i] in "0123456789" }

  lemma DigitsAre(s: string)
    ensures InDigits(s) <==> AllDigits(s)
  {
    assert forall c :: c in "0123456789" <==> IsDigit(c);
  }

  /** The most a count can come to. */
  function Saturated(n: nat): nat { if n > 999 then 999 else n }

  /** The piece is a legal token, "=", and one to four digits worth at least 1. */
  ghost predicate IsPair(voc: seq<string>, piece: string, t: string, digits: string, n: nat)
  {
    && t in voc && piece == t + "=" + digits && 1 <= |digits| <= 4 && InDigits(digits)
    && AllDigits(digits) && n == Saturated(Value(digits)) && n >= 1
  }

  /** What is read of a piece, exactly. */
  lemma PieceIsRead(voc: seq<string>, piece: string, t: string, n: nat)
    requires WellFormed(voc)
    ensures ReadPiece(voc, piece) == Some((t, n)) <==> exists digits :: IsPair(voc, piece, t, digits, n)
  {
    hide Value;
    var eq := IndexOf(piece, '=');
    if ReadPiece(voc, piece) == Some((t, n)) {
      var digits := piece[eq + 1..];
      DigitsAre(digits);
      assert piece == t + "=" + digits;
      assert IsPair(voc, piece, t, digits, n);
    }
    if digits :| IsPair(voc, piece, t, digits, n) {
      var k :| 0 <= k < |voc| && voc[k] == t;
      IndexOfFirst(t, '=', digits);
      assert piece == t + ['='] + digits;
    }
  }

  // ----- families ---------------------------------------------------------------------------

  predicate IsSlow(t: string) { "slow." <= t }
  predicate IsRecovered(t: string) { "recovered." <= t }
  predicate IsFailure(t: string) { !("slow." <= t) && !("recovered." <= t) }

  lemma FamiliesAre(t: string)
    ensures FamilyOf(t) == Slow <==> IsSlow(t)
    ensures FamilyOf(t) == Recovered <==> IsRecovered(t)
    ensures FamilyOf(t) == Base <==> IsFailure(t)
    ensures IsRadioFail(t) <==> "radio_fail." <= t
    ensures IsRadioFail(t) ==> IsFailure(t)
  {
    if IsSlow(t) { assert t[0] == 's'; }
    if IsRecovered(t) { assert t[0] == 'r' && t[1] == 'e'; }
    if IsRadioFail(t) { assert t[0] == 'r' && t[1] == 'a'; }
  }

  /** The legal tokens of a family that were sent, and those that were stored. */
  function Sent(voc: seq<string>, pieces: seq<string>, family: string -> bool): set<string>
  {
    set t | t in voc && family(t) && Total(voc, pieces, t) > 0
  }

  function Stored(counts: Counts, family: string -> bool): set<string> { set t | t in counts && family(t) }

  /** The pieces' ledger of a family that is cut afterwards is exactly what was sent. */
  lemma LedgersAreSent(voc: seq<string>, pieces: seq<string>)
    ensures Fold(voc, pieces).slow.Keys == Sent(voc, pieces, IsSlow)
    ensures Fold(voc, pieces).recovered.Keys == Sent(voc, pieces, IsRecovered)
    ensures forall t :: t in Fold(voc, pieces).slow ==> Fold(voc, pieces).slow[t] == Saturated(Total(voc, pieces, t))
    ensures forall t :: t in Fold(voc, pieces).recovered ==>
      Fold(voc, pieces).recovered[t] == Saturated(Total(voc, pieces, t))
  {
    hide Fold, FamilyOf, Total, IsSlow, IsRecovered, IsFailure;
    FoldIsOk(voc, pieces);
    forall t
      ensures t in Fold(voc, pieces).slow <==> t in Sent(voc, pieces, IsSlow)
      ensures t in Fold(voc, pieces).recovered <==> t in Sent(voc, pieces, IsRecovered)
      ensures t in Fold(voc, pieces).slow ==> Fold(voc, pieces).slow[t] == Saturated(Total(voc, pieces, t))
      ensures t in Fold(voc, pieces).recovered ==>
        Fold(voc, pieces).recovered[t] == Saturated(Total(voc, pieces, t))
    {
      FamiliesAre(t);
      CountsAreSaturatedSums(voc, pieces, t);
    }
  }

  /** The counts stored of what was parsed. */
  lemma CountsAreFinal(voc: seq<string>, v: string)
    requires Parse(voc, v).Some?
    ensures Parse(voc, v).value.counts == Final(voc, Fold(voc, Split(v, ',')))
  {
    hide Final, Encode, ReadPiece;
    if v == "" { NothingSent(voc); }
  }

  lemma StoredParts(voc: seq<string>, v: string)
    requires Parse(voc, v).Some?
    ensures var counts, st := Parse(voc, v).value.counts, Fold(voc, Split(v, ','));
      && Stored(counts, IsSlow) == SlowKept(voc, st.slow) <= st.slow.Keys
      && Stored(counts, IsRecovered) == RecoveredKept(voc, st.recovered) <= st.recovered.Keys
      && Stored(counts, IsFailure) == st.base.Keys
      && (forall t :: t in counts && IsSlow(t) ==> counts[t] == st.slow[t])
      && (forall t :: t in counts && IsRecovered(t) ==> counts[t] == st.recovered[t])
      && (forall t :: t in counts && IsFailure(t) ==> counts[t] == st.base[t])
  {
    hide Final, SlowKept, RecoveredKept, FamilyOf, Fold, Parse, IsSlow, IsRecovered, IsFailure;
    var counts, st := Parse(voc, v).value.counts, Fold(voc, Split(v, ','));
    FoldIsOk(voc, Split(v, ','));
    CountsAreFinal(voc, v);
    FinalParts(voc, st);
    forall t
      ensures t in Stored(counts, IsSlow) <==> t in SlowKept(voc, st.slow)
      ensures t in Stored(counts, IsRecovered) <==> t in RecoveredKept(voc, st.recovered)
      ensures t in Stored(counts, IsFailure) <==> t in st.base
    {
      FamiliesAre(t);
    }
  }

  // ----- the worst are stored ---------------------------------------------------------------

  /** a stands before b in the written order. */
  ghost predicate Before(voc: seq<string>, a: string, b: string)
  {
    exists i, j :: 0 <= i < j < |voc| && voc[i] == a && voc[j] == b
  }

  lemma RankIsBefore(voc: seq<string>, a: string, b: string)
    requires Rank(voc, a) < Rank(voc, b) && b in voc
    ensures Before(voc, a, b)
  {
    hide Rank;
    var i, j := Rank(voc, a), Rank(voc, b);
    assert voc[i] == a && voc[j] == b;
  }

  predicate Ends(t: string, e: string) { |t| >= |e| && t[|t| - |e|..] == e }

  /** More of it, or as much of it and earlier in the written order. */
  ghost predicate Outnumbers(voc: seq<string>, a: string, na: nat, b: string, nb: nat)
  {
    na > nb || (na == nb && Before(voc, a, b))
  }

  /** Five seconds is worse than one, one than a quarter; on the same, the count and the order decide. */
  ghost predicate WorseSlow(voc: seq<string>, a: string, na: nat, b: string, nb: nat)
  {
    && (Ends(b, ".5s") ==> Ends(a, ".5s"))
    && (Ends(b, ".1s") ==> Ends(a, ".5s") || Ends(a, ".1s"))
    && (Ends(a, ".5s") && Ends(b, ".5s") ==> Outnumbers(voc, a, na, b, nb))
    && (Ends(a, ".1s") && Ends(b, ".1s") ==> Outnumbers(voc, a, na, b, nb))
    && (Ends(a, ".250ms") && Ends(b, ".250ms") ==> Outnumbers(voc, a, na, b, nb))
  }

  /** A slow token of the vocabulary names a tier, and its ending is that tier. */
  lemma TierEnds(n: string, w: string)
    requires w in HEALTH_SLOW_TIERS
    ensures var t := n + "." + w;
      && (SlowTier(t) == 2 <==> Ends(t, ".5s")) && (SlowTier(t) == 1 <==> Ends(t, ".1s"))
      && (SlowTier(t) == 0 <==> Ends(t, ".250ms")) && 0 <= SlowTier(t) <= 2
  {
    var t := n + "." + w;
    LastDot(n, w);
    assert t[|n| + 1..] == w;
    TiersAre(w);
    assert t[|t| - |w| - 1..] == "." + w;
    if w == "5s" { assert t[|t| - 2] == '5'; }
    else if w == "1s" { assert t[|t| - 2] == '1'; }
    else { assert t[|t| - 2] == 'm'; }
  }

  lemma TiersAre(w: string)
    requires w in HEALTH_SLOW_TIERS
    ensures w in ["250ms", "1s", "5s"]
    ensures Rank(HEALTH_SLOW_TIERS, w) == if w == "250ms" then 0 else if w == "1s" then 1 else 2
  {
    assert HEALTH_SLOW_TIERS[1..] == ["1s", "5s"] && HEALTH_SLOW_TIERS[1..][1..] == ["5s"];
  }

  lemma LastDot(n: string, w: string)
    requires w in HEALTH_SLOW_TIERS
    ensures LastIndexOf(n + "." + w, '.') == |n|
  {
    TierWord(w);
    LastIndexIs(n, w);
  }

  lemma TierWord(w: string)
    requires w in HEALTH_SLOW_TIERS
    ensures '.' !in w
  {
  }

  lemma {:induction false} LastIndexIs(n: string, w: string)
    requires '.' !in w
    ensures LastIndexOf(n + "." + w, '.') == |n|
    decreases |w|
  {
    var t := n + "." + w;
    if w == "" {
      assert t[|t| - 1] == '.';
    } else {
      assert t[|t| - 1] == w[|w| - 1] && t[..|t| - 1] == n + "." + w[..|w| - 1];
      LastIndexIs(n, w[..|w| - 1]);
    }
  }

  lemma {:induction false} WrittenFrom(events: seq<Event>, t: string) returns (i: nat)
    requires t in Written(events)
    ensures i < |events| && t in Expanded([events[i].name], events[i].qualifiers)
  {
    if t in Expanded([events[0].name], events[0].qualifiers) {
      i := 0;
    } else {
      i := WrittenFrom(events[1..], t);
      i := i + 1;
    }
  }

  /** Every slow token of the Worker's vocabulary is a name and a tier. */
  lemma SlowHasTier(t: string) returns (n: string, w: string)
    requires t in Written(HEALTH_EVENTS) && IsSlow(t)
    ensures t == n + "." + w && w in HEALTH_SLOW_TIERS
  {
    hide Written, Expanded, EVENT_NAMES, EVENT_QUALIFIERS, Words, Word, Qualified, HEALTH_SLOW_TIERS, SLOW_PLACES;
    var i := WrittenFrom(HEALTH_EVENTS, t);
    EventsAreWellFormed();
    var ev := HEALTH_EVENTS[i];
    NameIsItsStem(ev);
    ExpandedIsDistinct([ev.name], ev.qualifiers, ev.name);
    SlowStem(t);
    SlowEvent(i);
    ExpandedTwice(["slow"], SLOW_PLACES, HEALTH_SLOW_TIERS);
    AllAreWords();
    SlowNames();
    QualifiedIsDistinct(["slow"], SLOW_PLACES);
    QualifiedIsDistinct(Qualified(["slow"], SLOW_PLACES), HEALTH_SLOW_TIERS);
    n, w :| n in Qualified(["slow"], SLOW_PLACES) && w in HEALTH_SLOW_TIERS && t == n + "." + w;
  }

  lemma NameIsItsStem(ev: Event)
    requires WellFormedEvent(ev)
    ensures Stem(ev.name) == ev.name && Unseparated(ev.name) && NoRepeats([ev.name])
  {
  }

  lemma SlowStem(t: string)
    requires IsSlow(t)
    ensures Stem(t) == "slow"
  {
    assert t[0] == 's' && t[1] == 'l' && t[2] == 'o' && t[3] == 'w' && t[4] == '.';
    assert IndexOf(t, '.') == 4;
    assert t[..4] == "slow."[..4];
  }

  lemma SlowNames()
    ensures NoRepeats(["slow"]) && Unseparated("slow")
  {
  }

  lemma SlowEvent(i: nat)
    requires i < |HEALTH_EVENTS| && HEALTH_EVENTS[i].name == "slow"
    ensures HEALTH_EVENTS[i].qualifiers == [SLOW_PLACES, HEALTH_SLOW_TIERS]
  {
    hide SLOW_PLACES, HEALTH_SLOW_TIERS;
    EventNamesDiffer();
    assert EVENT_NAMES[14] == "slow";
  }

  lemma OrderIsWorse(m: Counts, a: string, b: string)
    requires a in Written(HEALTH_EVENTS) && b in Written(HEALTH_EVENTS) && IsSlow(a) && IsSlow(b)
    requires a in m && b in m && SlowOrder(Written(HEALTH_EVENTS), m)(a, b)
    ensures WorseSlow(Written(HEALTH_EVENTS), a, m[a], b, m[b])
  {
    hide Written, SlowTier, Rank, Before, Ends, IsSlow;
    var voc := Written(HEALTH_EVENTS);
    var n, w := SlowHasTier(a);
    TierEnds(n, w);
    n, w := SlowHasTier(b);
    TierEnds(n, w);
    if Rank(voc, a) < Rank(voc, b) { RankIsBefore(voc, a, b); }
  }

  /** Of the slow tokens sent all are stored, or eight; with their saturated sums; and none left out is
      worse than one stored. */
  lemma StoredSlowAreTheWorst(v: string)
    requires Parse(Written(HEALTH_EVENTS), v).Some?
    ensures var voc, pieces := Written(HEALTH_EVENTS), Split(v, ',');
      var counts := Parse(voc, v).value.counts;
      var sent, stored := Sent(voc, pieces, IsSlow), Stored(counts, IsSlow);
      && stored <= sent && |stored| == (if |sent| < 8 then |sent| else 8)
      && (forall t :: t in stored ==> counts[t] == Saturated(Total(voc, pieces, t)))
      && forall k, d :: k in stored && d in sent - stored ==>
           WorseSlow(voc, k, Saturated(Total(voc, pieces, k)), d, Saturated(Total(voc, pieces, d)))
  {
    hide Written, Parse, Total, WorseSlow, IsSlow, SlowKept, RecoveredKept, SlowOrder, RecoveredOrder, Fold;
    var voc, pieces := Written(HEALTH_EVENTS), Split(v, ',');
    var counts := Parse(voc, v).value.counts;
    var st, sent, stored := Fold(voc, pieces), Sent(voc, pieces, IsSlow), Stored(counts, IsSlow);
    VocabularyIsWellFormed();
    LedgersAreSent(voc, pieces);
    StoredParts(voc, v);
    StoredAreTheWorst(voc, pieces);
    forall k, d | k in stored && d in sent - stored
      ensures WorseSlow(voc, k, Saturated(Total(voc, pieces, k)), d, Saturated(Total(voc, pieces, d)))
    {
      OrderIsWorse(st.slow, k, d);
    }
  }

  /** The same of the recovered ones, where count and order alone decide. */
  lemma StoredRecoveredAreTheWorst(v: string)
    requires Parse(Written(HEALTH_EVENTS), v).Some?
    ensures var voc, pieces := Written(HEALTH_EVENTS), Split(v, ',');
      var counts := Parse(voc, v).value.counts;
      var sent, stored := Sent(voc, pieces, IsRecovered), Stored(counts, IsRecovered);
      && stored <= sent && |stored| == (if |sent| < 8 then |sent| else 8)
      && (forall t :: t in stored ==> counts[t] == Saturated(Total(voc, pieces, t)))
      && forall k, d :: k in stored && d in sent - stored ==>
           Outnumbers(voc, k, Saturated(Total(voc, pieces, k)), d, Saturated(Total(voc, pieces, d)))
  {
    hide Written, Parse, Total, Before, IsRecovered, SlowKept, RecoveredKept, SlowOrder, Fold, Rank;
    var voc, pieces := Written(HEALTH_EVENTS), Split(v, ',');
    var counts := Parse(voc, v).value.counts;
    var st, sent, stored := Fold(voc, pieces), Sent(voc, pieces, IsRecovered), Stored(counts, IsRecovered);
    VocabularyIsWellFormed();
    LedgersAreSent(voc, pieces);
    StoredParts(voc, v);
    StoredAreTheWorst(voc, pieces);
    forall k, d | k in stored && d in sent - stored
      ensures Outnumbers(voc, k, Saturated(Total(voc, pieces, k)), d, Saturated(Total(voc, pieces, d)))
    {
      assert RecoveredOrder(voc, st.recovered)(k, d);
      if Rank(voc, k) < Rank(voc, d) { RankIsBefore(voc, k, d); }
    }
  }

  // ----- failures, and whether anything is reported at all ----------------------------------

  predicate IsRadio(t: string) { "radio_fail." <= t }

  /** Of the failures at most 24 are stored, at most 8 of them radio failures, each with its saturated sum;
      and one that was sent is missing only when there are 24 already, or when it is a radio failure and
      there are 8 of those. */
  lemma StoredFailures(voc: seq<string>, v: string)
    requires Parse(voc, v).Some?
    ensures var pieces, counts := Split(v, ','), Parse(voc, v).value.counts;
      var sent, stored, radio := Sent(voc, pieces, IsFailure), Stored(counts, IsFailure), Stored(counts, IsRadio);
      && stored <= sent && |stored| <= 24 && |radio| <= 8
      && (forall t :: t in stored ==> counts[t] == Saturated(Total(voc, pieces, t)))
      && forall t :: t in sent - stored ==> |stored| == 24 || (IsRadio(t) && |radio| == 8)
  {
    hide Parse, Total, IsFailure, IsSlow, IsRecovered, IsRadio, SlowKept, RecoveredKept, Fold, FamilyOf, IsRadioFail;
    var pieces, counts := Split(v, ','), Parse(voc, v).value.counts;
    var st := Fold(voc, pieces);
    FoldIsOk(voc, pieces);
    StoredParts(voc, v);
    assert |st.base| == |st.base.Keys|;
    assert Stored(counts, IsRadio) == RadioFails(st.base) by {
      forall t ensures t in Stored(counts, IsRadio) <==> t in RadioFails(st.base) {
        FamiliesAre(t);
        RadioIs(t);
        assert t in Stored(counts, IsFailure) <==> t in st.base;
      }
    }
    forall t
      ensures t in st.base ==> t in Sent(voc, pieces, IsFailure) && st.base[t] == Saturated(Total(voc, pieces, t))
      ensures t in Sent(voc, pieces, IsFailure) && t !in st.base ==>
        |st.base| == 24 || (IsRadio(t) && |RadioFails(st.base)| == 8)
    {
      FamiliesAre(t);
      RadioIs(t);
      CountsAreSaturatedSums(voc, pieces, t);
    }
  }

  lemma RadioIs(t: string)
    ensures IsRadio(t) <==> IsRadioFail(t)
  {
  }

  /** Some piece is a legal pair. */
  ghost predicate SomethingLegal(voc: seq<string>, pieces: seq<string>)
  {
    exists i :: 0 <= i < |pieces| && ReadPiece(voc, pieces[i]).Some?
  }

  /** A text is reported exactly when it is no longer than 832 and is empty or has a legal pair in it. */
  lemma ReportedExactly(voc: seq<string>, v: string)
    requires NoRepeats(voc)
    ensures Parse(voc, v).Some? <==> |v| <= 832 && (v == "" || SomethingLegal(voc, Split(v, ',')))
  {
    hide Final, Fold, ReadPiece, Encode, Split, SomethingLegal, Ok;
    if v != "" && |v| <= 832 {
      var pieces := Split(v, ',');
      FoldIsOk(voc, pieces);
      EmptyFinal(voc, Fold(voc, pieces));
      if SomethingLegal(voc, pieces) {
        LegalIsKept(voc, pieces);
      } else {
        NothingLegal(voc, pieces);
        NothingKept(voc);
      }
    }
  }

  lemma {:induction false} NothingLegal(voc: seq<string>, pieces: seq<string>)
    requires !SomethingLegal(voc, pieces)
    ensures Fold(voc, pieces) == EMPTY
  {
    hide ReadPiece;
    if pieces != [] {
      var n := |pieces| - 1;
      assert forall i :: 0 <= i < n ==> pieces[..n][i] == pieces[i];
      NothingLegal(voc, pieces[..n]);
    }
  }

  lemma NothingKept(voc: seq<string>)
    ensures EMPTY.base == map[] && SlowKept(voc, EMPTY.slow) == {} && RecoveredKept(voc, EMPTY.recovered) == {}
  {
    WorstIsSubset(voc, {}, SlowOrder(voc, map[]), MAX_HEALTH_SLOW_TOKENS);
    WorstIsSubset(voc, {}, RecoveredOrder(voc, map[]), MAX_HEALTH_RECOVERED_TOKENS);
  }

  lemma LegalIsKept(voc: seq<string>, pieces: seq<string>)
    requires NoRepeats(voc) && SomethingLegal(voc, pieces)
    ensures var st := Fold(voc, pieces);
      st.base != map[] || SlowKept(voc, st.slow) != {} || RecoveredKept(voc, st.recovered) != {}
  {
    hide Fold, ReadPiece, FamilyOf, SlowKept, RecoveredKept, Total, SlowOrder, RecoveredOrder, IsRadioFail;
    var st := Fold(voc, pieces);
    var i :| 0 <= i < |pieces| && ReadPiece(voc, pieces[i]).Some?;
    var t := ReadPiece(voc, pieces[i]).value.0;
    TotalHas(voc, pieces, i);
    CountsAreSaturatedSums(voc, pieces, t);
    StoredAreTheWorst(voc, pieces);
    FoldIsOk(voc, pieces);
    SomeInLedger(st, t);
  }

  lemma SomeInLedger(st: State, t: string)
    requires st.radioFails == |RadioFails(st.base)|
    requires t in Ledger(st, FamilyOf(t)) || Refused(st, t)
    ensures st.base != map[] || |st.slow| > 0 || |st.recovered| > 0
  {
    if t in st.slow { assert |st.slow.Keys| > 0; }
    if t in st.recovered { assert |st.recovered.Keys| > 0; }
    if st.base == map[] { assert RadioFails(st.base) == {}; }
  }

  lemma {:induction false} TotalHas(voc: seq<string>, pieces: seq<string>, i: nat)
    requires i < |pieces| && ReadPiece(voc, pieces[i]).Some?
    ensures Total(voc, pieces, ReadPiece(voc, pieces[i]).value.0) > 0
  {
    hide ReadPiece;
    ReadIsLegal(voc, pieces[i]);
    var n := |pieces| - 1;
    if i < n {
      assert pieces[..n][i] == pieces[i];
      TotalHas(voc, pieces[..n], i);
    }
  }
}
