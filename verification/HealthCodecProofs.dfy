/** What the failure-count codec promises: its output is a fixed point of it, is never longer than
    its input, and in the families that keep their worst does not depend on the order of the input. */
module HealthCodecProofs {
  import opened Sorting
  import opened Decimals
  import opened Texts
  import opened HealthCodec
  import opened Wrappers

  // ----- splitting and joining --------------------------------------------------------------

  function Size(pieces: seq<string>): nat
  {
    if pieces == [] then 0 else |pieces[0]| + 1 + Size(pieces[1..])
  }

  lemma {:induction false} SizeOfInit(pieces: seq<string>)
    requires pieces != []
    ensures Size(pieces) == Size(pieces[..|pieces| - 1]) + |pieces[|pieces| - 1]| + 1
  {
    var n := |pieces| - 1;
    if n > 0 {
      SizeOfInit(pieces[1..]);
      assert pieces[..n][1..] == pieces[1..][..n - 1];
    }
  }

  lemma {:induction false} SplitSize(s: string, c: char)
    ensures Size(Split(s, c)) == |s| + 1
    decreases |s|
  {
    var i := IndexOf(s, c);
    if i < |s| {
      SplitSize(s[i + 1..], c);
      assert Split(s, c)[1..] == Split(s[i + 1..], c);
    }
  }

  lemma {:induction false} JoinSize(pieces: seq<string>, c: char)
    requires pieces != []
    ensures |Join(pieces, c)| + 1 == Size(pieces)
  {
    if |pieces| > 1 {
      JoinSize(pieces[1..], c);
    }
  }

  /** The printed pair is read back as itself. */
  lemma PieceReadsBack(voc: seq<string>, t: string, n: nat)
    requires WellFormed(voc) && t in voc && 1 <= n <= MAX_HEALTH_COUNT
    ensures ReadPiece(voc, Piece(t, n)) == Some((t, n))
    ensures ',' !in Piece(t, n)
  {
    var k :| 0 <= k < |voc| && voc[k] == t;
    IndexOfFirst(t, '=', Decimal(n));
    assert Piece(t, n) == t + ['='] + Decimal(n);
    assert Piece(t, n)[..|t|] == t && Piece(t, n)[|t| + 1..] == Decimal(n);
    ValueOfDecimal(n);
    ThreeDigits(n);
  }

  lemma ThreeDigits(n: nat)
    requires n <= MAX_HEALTH_COUNT
    ensures |Decimal(n)| <= 3
  {
    assert Value("99") == 99 && Value("999") == 999 by {
      assert "999"[..2] == "99" && "99"[..1] == "9" && "9"[..0] == "";
    }
    DecimalIsShortest("999", n);
  }

  // ----- length -----------------------------------------------------------------------------

  function Cost(m: Counts, t: string): nat { if t in m then |t| + 2 + |Decimal(m[t])| else 0 }

  function Weight(voc: seq<string>, m: Counts): nat
  {
    if voc == [] then 0 else Cost(m, voc[0]) + Weight(voc[1..], m)
  }

  function Weigh(voc: seq<string>, st: State): nat
  {
    Weight(voc, st.base) + Weight(voc, st.slow) + Weight(voc, st.recovered)
  }

  lemma {:induction false} WeightElsewhere(voc: seq<string>, m: Counts, t: string, x: nat)
    requires t !in voc
    ensures Weight(voc, m[t := x]) == Weight(voc, m)
  {
    if voc != [] {
      WeightElsewhere(voc[1..], m, t, x);
    }
  }

  lemma {:induction false} WeightAfter(voc: seq<string>, m: Counts, t: string, x: nat)
    requires NoRepeats(voc) && t in voc
    ensures Weight(voc, m[t := x]) + Cost(m, t) == Weight(voc, m) + |t| + 2 + |Decimal(x)|
  {
    if voc[0] == t {
      WeightElsewhere(voc[1..], m, t, x);
    } else {
      WeightAfter(voc[1..], m, t, x);
    }
  }

  /** Merging a count never adds more text than the piece it was read from. */
  lemma MergeWeight(voc: seq<string>, m: Counts, t: string, n: nat, digits: string)
    requires NoRepeats(voc) && t in voc && IsCount(digits)
    requires 1 <= n == Least(Value(digits), MAX_HEALTH_COUNT)
    ensures Weight(voc, Merge(m, t, n)) <= Weight(voc, m) + |t| + 1 + |digits| + 1
  {
    var x := Least(Count(m, t) + n, MAX_HEALTH_COUNT);
    WeightAfter(voc, m, t, x);
    ThreeDigits(x);
    if t !in m {
      assert x == n;
      DecimalIsShortest(digits, n);
    }
  }

  lemma StepWeight(voc: seq<string>, st: State, piece: string)
    requires NoRepeats(voc)
    ensures Weigh(voc, Step(voc, st, piece)) <= Weigh(voc, st) + |piece| + 1
  {
    hide Weight, FamilyOf, Merge, IsRadioFail;
    match ReadPiece(voc, piece)
    case None =>
    case Some((t, n)) =>
      var digits := piece[IndexOf(piece, '=') + 1..];
      match FamilyOf(t)
      case Base => MergeWeight(voc, st.base, t, n, digits);
      case Slow => MergeWeight(voc, st.slow, t, n, digits);
      case Recovered => MergeWeight(voc, st.recovered, t, n, digits);
  }

  lemma {:induction false} NothingWeighsNothing(voc: seq<string>)
    ensures Weight(voc, map[]) == 0
  {
    if voc != [] { NothingWeighsNothing(voc[1..]); }
  }

  lemma {:induction false} FoldWeight(voc: seq<string>, pieces: seq<string>)
    requires NoRepeats(voc)
    ensures Weigh(voc, Fold(voc, pieces)) <= Size(pieces)
  {
    hide Step;
    if pieces == [] {
      NothingWeighsNothing(voc);
    } else {
      var n := |pieces| - 1;
      FoldWeight(voc, pieces[..n]);
      StepWeight(voc, Fold(voc, pieces[..n]), pieces[n]);
      SizeOfInit(pieces);
    }
  }

  lemma {:induction false} WeightOfUnion(voc: seq<string>, u: Counts, a: Counts, b: Counts, c: Counts)
    requires forall t :: Cost(u, t) <= Cost(a, t) + Cost(b, t) + Cost(c, t)
    ensures Weight(voc, u) <= Weight(voc, a) + Weight(voc, b) + Weight(voc, c)
  {
    if voc != [] {
      WeightOfUnion(voc[1..], u, a, b, c);
      assert Cost(u, voc[0]) <= Cost(a, voc[0]) + Cost(b, voc[0]) + Cost(c, voc[0]);
    }
  }

  lemma CostOfFinal(voc: seq<string>, st: State, t: string)
    requires Ok(voc, st)
    ensures Cost(Final(voc, st), t) <= Cost(st.base, t) + Cost(st.slow, t) + Cost(st.recovered, t)
  {
    hide Final, SlowKept, RecoveredKept, Ok;
    FinalParts(voc, st);
  }

  lemma FinalWeight(voc: seq<string>, st: State)
    requires Ok(voc, st)
    ensures Weight(voc, Final(voc, st)) <= Weigh(voc, st)
  {
    hide Final, SlowKept, RecoveredKept, Weight, Cost, Ok;
    forall t ensures Cost(Final(voc, st), t) <= Cost(st.base, t) + Cost(st.slow, t) + Cost(st.recovered, t) {
      CostOfFinal(voc, st, t);
    }
    WeightOfUnion(voc, Final(voc, st), st.base, st.slow, st.recovered);
  }

  lemma NothingPrinted(m: Counts)
    ensures Printed([], m) == [] && Size([]) == 0
  {
  }

  lemma PrintedTail(tokens: seq<string>, m: Counts)
    requires tokens != [] && forall i :: 0 <= i < |tokens| ==> tokens[i] in m
    ensures Printed(tokens, m)[1..] == Printed(tokens[1..], m)
    ensures Size(Printed(tokens, m)) == |tokens[0]| + 2 + |Decimal(m[tokens[0]])| + Size(Printed(tokens[1..], m))
  {
  }

  lemma {:induction false} PrintedSize(voc: seq<string>, m: Counts)
    ensures (ListedIn(voc, m.Keys); Size(Printed(Listed(voc, m.Keys), m)) == Weight(voc, m))
  {
    hide Printed, Size;
    ListedIn(voc, m.Keys);
    if voc == [] {
      assert Printed([], m) == [] && Size([]) == 0 by { NothingPrinted(m); }
    } else {
      PrintedSize(voc[1..], m);
      ListedIn(voc[1..], m.Keys);
      var all, rest := Listed(voc, m.Keys), Listed(voc[1..], m.Keys);
      if voc[0] in m {
        assert all[1..] == rest;
        PrintedTail(all, m);
      } else {
        assert all == rest;
      }
    }
  }

  lemma EncodeSize(voc: seq<string>, m: Counts)
    requires m != map[] && forall t :: t in m ==> t in voc
    ensures |Encode(voc, m)| + 1 == Weight(voc, m)
  {
    ListedIn(voc, m.Keys);
    var t :| t in m;
    assert t in Listed(voc, m.Keys);
    PrintedSize(voc, m);
    JoinSize(Printed(Listed(voc, m.Keys), m), ',');
  }

  /** The stored text is never longer than what was sent, so it keeps the same limit. */
  lemma ParseNeverLengthens(voc: seq<string>, v: string)
    requires WellFormed(voc)
    ensures Parse(voc, v).Some? ==> |Parse(voc, v).value.text| <= |v| <= MAX_HEALTH_CHARS
  {
    hide Final, Encode, Fold, Weight, Ok;
    if Parse(voc, v).Some? && v != "" {
      var st := Fold(voc, Split(v, ','));
      FoldIsOk(voc, Split(v, ','));
      FinalIsLegal(voc, st);
      EncodeSize(voc, Final(voc, st));
      FinalWeight(voc, st);
      FoldWeight(voc, Split(v, ','));
      SplitSize(v, ',');
    }
  }

  // ----- the fixed point --------------------------------------------------------------------

  function Part(c: Counts, f: Family): Counts { map t | t in c && FamilyOf(t) == f :: c[t] }

  function StateOf(c: Counts): State
  {
    State(Part(c, Base), Part(c, Slow), Part(c, Recovered), |RadioFails(Part(c, Base))|)
  }

  /** Counts a record may hold: legal tokens, counts 1 to 999, every cap met. */
  ghost predicate Canonical(voc: seq<string>, c: Counts)
  {
    && (forall t :: t in c ==> t in voc && 1 <= c[t] <= MAX_HEALTH_COUNT)
    && |Part(c, Base)| <= MAX_HEALTH_BASE_TOKENS
    && |RadioFails(Part(c, Base))| <= MAX_HEALTH_RADIO_FAIL_TOKENS
    && |Part(c, Slow)| <= MAX_HEALTH_SLOW_TOKENS
    && |Part(c, Recovered)| <= MAX_HEALTH_RECOVERED_TOKENS
  }

  lemma SubsetSize<T>(a: set<T>, b: set<T>)
    requires a <= b
    ensures |a| <= |b|
  {
    assert b == a + (b - a);
  }

  /** A new token of canonical counts is never refused while they are read back. */
  lemma NotRefused(voc: seq<string>, c: Counts, c1: Counts, t: string)
    requires Canonical(voc, c) && t in c && t !in c1
    requires forall u :: u in c1 ==> u in c && c1[u] == c[u]
    ensures !Refused(StateOf(c1), t)
  {
    hide FamilyOf, IsRadioFail;
    var b, b1 := Part(c, Base), Part(c1, Base);
    if FamilyOf(t) == Base {
      SubsetSize(b1.Keys + {t}, b.Keys);
      assert |b1.Keys + {t}| == |b1| + 1;
      if IsRadioFail(t) {
        SubsetSize(RadioFails(b1) + {t}, RadioFails(b));
      }
    }
  }

  lemma PartAfter(c: Counts, f: Family, t: string, n: nat)
    requires t !in c && 1 <= n <= MAX_HEALTH_COUNT
    ensures Part(c[t := n], f) == if FamilyOf(t) == f then Merge(Part(c, f), t, n) else Part(c, f)
  {
    hide FamilyOf;
  }

  lemma TallyNew(c: Counts, t: string, n: nat)
    requires t !in c && 1 <= n <= MAX_HEALTH_COUNT && !Refused(StateOf(c), t)
    ensures Tally(StateOf(c), t, n) == StateOf(c[t := n])
  {
    hide FamilyOf, IsRadioFail, Merge, RadioFails, Refused, Part;
    PartAfter(c, Base, t, n);
    PartAfter(c, Slow, t, n);
    PartAfter(c, Recovered, t, n);
    RadioFailsAfter(Part(c, Base), t, n);
    assert t !in Part(c, Base) by { PartHas(c, t); }
  }

  lemma PartHas(c: Counts, t: string)
    requires t !in c
    ensures t !in Part(c, Base)
  {
  }

  /** Reading back some of a record's printed pairs rebuilds exactly that part of its ledger. */
  lemma {:induction false} FoldOfPrinted(voc: seq<string>, tokens: seq<string>, c: Counts)
    requires WellFormed(voc) && Canonical(voc, c) && NoRepeats(tokens)
    requires forall i :: 0 <= i < |tokens| ==> tokens[i] in c
    ensures Fold(voc, Printed(tokens, c)) == StateOf(Limit(c, Elements(tokens)))
  {
    hide Tally, StateOf, Canonical, WellFormed, ReadPiece, Piece;
    if tokens == [] {
      NothingYet(c);
    } else {
      var n := |tokens| - 1;
      var t, c1 := tokens[n], Limit(c, Elements(tokens[..n]));
      FoldOfPrinted(voc, tokens[..n], c);
      assert Printed(tokens, c)[..n] == Printed(tokens[..n], c);
      InCanonical(voc, c, t);
      PieceReadsBack(voc, t, c[t]);
      assert t !in tokens[..n];
      NotRefused(voc, c, c1, t);
      TallyNew(c1, t, c[t]);
      assert Limit(c, Elements(tokens)) == c1[t := c[t]];
    }
  }

  lemma InCanonical(voc: seq<string>, c: Counts, t: string)
    requires Canonical(voc, c) && t in c
    ensures t in voc && 1 <= c[t] <= MAX_HEALTH_COUNT
  {
  }

  lemma NothingYet(c: Counts)
    ensures StateOf(Limit(c, Elements([]))) == EMPTY
  {
    assert Limit(c, Elements([])) == map[];
    assert Part(map[], Base) == map[] && Part(map[], Slow) == map[] && Part(map[], Recovered) == map[];
    assert RadioFails(map[]) == {};
  }

  lemma FinalOfCanonical(voc: seq<string>, c: Counts)
    requires Canonical(voc, c)
    ensures Final(voc, StateOf(c)) == c
  {
    hide FamilyOf, SlowOrder, RecoveredOrder;
    assert |Part(c, Slow).Keys| <= MAX_HEALTH_SLOW_TOKENS && |Part(c, Recovered).Keys| <= MAX_HEALTH_RECOVERED_TOKENS;
    assert Limit(Part(c, Slow), Part(c, Slow).Keys) == Part(c, Slow);
    assert Limit(Part(c, Recovered), Part(c, Recovered).Keys) == Part(c, Recovered);
  }

  lemma WorstSize(voc: seq<string>, tokens: set<string>, worse: (string, string) -> bool, most: nat)
    ensures |Worst(voc, tokens, worse, most)| <= most
  {
    var sorted := StableSort(Listed(voc, tokens), worse);
    if |sorted| <= most { ElementsBound(sorted); } else { ElementsBound(sorted[..most]); }
  }

  lemma {:induction false} ElementsBound(s: seq<string>)
    ensures |Elements(s)| <= |s|
  {
    if s != [] {
      var n := |s| - 1;
      ElementsBound(s[..n]);
      assert Elements(s) == Elements(s[..n]) + {s[n]};
    }
  }

  ghost predicate All(m: Counts, f: Family) { forall t :: t in m ==> FamilyOf(t) == f }

  lemma PartsOfUnion(a: Counts, b: Counts, c: Counts)
    requires All(a, Base) && All(b, Slow) && All(c, Recovered)
    ensures Part(a + b + c, Base) == a
    ensures Part(a + b + c, Slow) == b
    ensures Part(a + b + c, Recovered) == c
  {
    hide FamilyOf;
  }

  lemma LimitKeys(m: Counts, tokens: set<string>)
    requires tokens <= m.Keys
    ensures Limit(m, tokens).Keys == tokens && |Limit(m, tokens)| == |tokens|
  {
    assert Limit(m, tokens).Keys == tokens;
    assert |Limit(m, tokens)| == |Limit(m, tokens).Keys|;
  }

  lemma PartsOfFinal(voc: seq<string>, st: State)
    requires Ok(voc, st)
    ensures var c := Final(voc, st);
      && Part(c, Base) == st.base
      && Part(c, Slow) == Limit(st.slow, SlowKept(voc, st.slow))
      && Part(c, Recovered) == Limit(st.recovered, RecoveredKept(voc, st.recovered))
  {
    hide FamilyOf, SlowKept, RecoveredKept, Part;
    PartsOfUnion(st.base, Limit(st.slow, SlowKept(voc, st.slow)),
                 Limit(st.recovered, RecoveredKept(voc, st.recovered)));
  }

  lemma FinalIsCanonical(voc: seq<string>, st: State)
    requires Ok(voc, st)
    ensures Canonical(voc, Final(voc, st))
  {
    hide Final, FamilyOf, Worst, Part, Limit, SlowOrder, RecoveredOrder, IsLedger, RadioFails;
    FinalIsLegal(voc, st);
    PartsOfFinal(voc, st);
    WorstIsSubset(voc, st.slow.Keys, SlowOrder(voc, st.slow), MAX_HEALTH_SLOW_TOKENS);
    WorstIsSubset(voc, st.recovered.Keys, RecoveredOrder(voc, st.recovered), MAX_HEALTH_RECOVERED_TOKENS);
    WorstSize(voc, st.slow.Keys, SlowOrder(voc, st.slow), MAX_HEALTH_SLOW_TOKENS);
    WorstSize(voc, st.recovered.Keys, RecoveredOrder(voc, st.recovered), MAX_HEALTH_RECOVERED_TOKENS);
    LimitKeys(st.slow, SlowKept(voc, st.slow));
    LimitKeys(st.recovered, RecoveredKept(voc, st.recovered));
  }

  lemma SplitOfEncoded(voc: seq<string>, c: Counts)
    requires WellFormed(voc) && Canonical(voc, c) && c != map[]
    ensures (ListedIn(voc, c.Keys); Split(Encode(voc, c), ',') == Printed(Listed(voc, c.Keys), c))
  {
    hide ReadPiece, Piece, Split, Join, Part, RadioFails;
    ListedIn(voc, c.Keys);
    var tokens := Listed(voc, c.Keys);
    var t :| t in c;
    assert t in tokens;
    forall i | 0 <= i < |tokens| ensures ',' !in Printed(tokens, c)[i] {
      InCanonical(voc, c, tokens[i]);
      PieceReadsBack(voc, tokens[i], c[tokens[i]]);
    }
    SplitOfJoin(Printed(tokens, c), ',');
  }

  lemma FoldOfEncoded(voc: seq<string>, c: Counts)
    requires WellFormed(voc) && Canonical(voc, c) && c != map[]
    ensures Fold(voc, Split(Encode(voc, c), ',')) == StateOf(c)
  {
    hide Fold, StateOf, Encode, Part, RadioFails;
    ListedIn(voc, c.Keys);
    ListedAscends(voc, c.Keys);
    SplitOfEncoded(voc, c);
    var tokens := Listed(voc, c.Keys);
    FoldOfPrinted(voc, tokens, c);
    assert Elements(tokens) == c.Keys;
    assert Limit(c, Elements(tokens)) == c;
  }

  /** Canonical counts, encoded, parse back to themselves whenever the text fits the limit. */
  lemma EncodeParsesBack(voc: seq<string>, c: Counts)
    requires WellFormed(voc) && Canonical(voc, c) && c != map[] && |Encode(voc, c)| <= MAX_HEALTH_CHARS
    ensures Parse(voc, Encode(voc, c)) == Some(Record(Encode(voc, c), c))
  {
    hide Fold, Final, StateOf, Part, RadioFails, Encode, Split;
    EncodeIsNotEmpty(voc, c);
    FoldOfEncoded(voc, c);
    FinalOfCanonical(voc, c);
  }

  lemma EncodeIsNotEmpty(voc: seq<string>, c: Counts)
    requires c != map[] && forall t :: t in c ==> t in voc
    ensures Encode(voc, c) != ""
  {
    hide Encode;
    EncodeSize(voc, c);
    var t :| t in c;
    WeightHas(voc, c, t);
  }

  lemma {:induction false} WeightHas(voc: seq<string>, c: Counts, t: string)
    requires t in voc && t in c
    ensures Weight(voc, c) >= 2
  {
    if voc[0] != t { WeightHas(voc[1..], c, t); }
  }

  /** Idempotence: whatever was sent, the text stored for it parses to that same text and the same
      counts. */
  lemma ParseIsIdempotent(voc: seq<string>, v: string)
    requires WellFormed(voc)
    ensures Parse(voc, v).Some? ==> Parse(voc, Parse(voc, v).value.text) == Parse(voc, v)
  {
    hide Final, Encode, Fold, Ok, Canonical;
    if Parse(voc, v).Some? && v != "" {
      var st := Fold(voc, Split(v, ','));
      FoldIsOk(voc, Split(v, ','));
      FinalIsCanonical(voc, st);
      ParseNeverLengthens(voc, v);
      EncodeParsesBack(voc, Final(voc, st));
    }
  }

  // ----- the order of the pieces ------------------------------------------------------------

  function Contribution(voc: seq<string>, piece: string, t: string): nat
  {
    match ReadPiece(voc, piece)
    case None => 0
    case Some((u, n)) => if u == t then n else 0
  }

  /** All that the pieces say of one token. */
  function Total(voc: seq<string>, pieces: seq<string>, t: string): nat
  {
    if pieces == [] then 0
    else Total(voc, pieces[..|pieces| - 1], t) + Contribution(voc, pieces[|pieces| - 1], t)
  }

  function Ledger(st: State, f: Family): Counts
  {
    match f case Base => st.base case Slow => st.slow case Recovered => st.recovered
  }

  /** One token's ledger entry is right: its count is the saturated total, or it was never legal, or
      the caps were already full when it was first met. */
  ghost predicate Right(st: State, t: string, total: nat)
  {
    var m := Ledger(st, FamilyOf(t));
    if t in m then total > 0 && m[t] == Least(total, MAX_HEALTH_COUNT)
    else total == 0 || Refused(st, t)
  }

  lemma TallyKeepsRight(st: State, t: string, n: nat, u: string, total: nat)
    requires 1 <= n && Right(st, u, total)
    ensures Right(Tally(st, t, n), u, total + if u == t then n else 0)
  {
    hide FamilyOf, IsRadioFail;
    var st' := Tally(st, t, n);
    if FamilyOf(t) == Base && !Refused(st, t) {
      MergeSize(st.base, t, n);
    }
  }

  lemma MergeSize(m: Counts, t: string, n: nat)
    ensures |Merge(m, t, n)| >= |m|
  {
    assert Merge(m, t, n).Keys == m.Keys + {t};
    SubsetSize(m.Keys, Merge(m, t, n).Keys);
  }

  /** Each merged count is min(999, the sum of the clamped pieces); a legal token is missing only from
      the failure families, and only when it was refused by a full cap. */
  lemma {:induction false} CountsAreSaturatedSums(voc: seq<string>, pieces: seq<string>, t: string)
    ensures Right(Fold(voc, pieces), t, Total(voc, pieces, t))
  {
    hide Right, Tally, ReadPiece;
    if pieces == [] {
      NothingIsRight(t);
    } else {
      var n := |pieces| - 1;
      CountsAreSaturatedSums(voc, pieces[..n], t);
      ReadIsLegal(voc, pieces[n]);
      var st := Fold(voc, pieces[..n]);
      match ReadPiece(voc, pieces[n]) {
        case None =>
        case Some((u, k)) => TallyKeepsRight(st, u, k, t, Total(voc, pieces[..n], t));
      }
    }
  }

  lemma {:induction false} BaseGrows(voc: seq<string>, pieces: seq<string>, i: nat)
    requires i <= |pieces|
    ensures Fold(voc, pieces[..i]).base.Keys <= Fold(voc, pieces).base.Keys
  {
    hide ReadPiece, FamilyOf, Refused;
    var n := |pieces| - 1;
    if i <= n {
      BaseGrows(voc, pieces[..n], i);
      assert pieces[..n][..i] == pieces[..i];
    } else {
      assert pieces[..i] == pieces;
    }
  }

  /** The failure families keep the first met: a legal token is in the ledger for good from the first
      piece of it that the caps let in, and each piece they refuse leaves it out. */
  lemma FirstMetIsKept(voc: seq<string>, pieces: seq<string>, i: nat)
    requires i < |pieces| && ReadPiece(voc, pieces[i]).Some?
    ensures var t := ReadPiece(voc, pieces[i]).value.0;
      var met := Fold(voc, pieces[..i + 1]).base.Keys;
      && (FamilyOf(t) == Base ==> (t in met <==> !Refused(Fold(voc, pieces[..i]), t)))
      && met <= Fold(voc, pieces).base.Keys
  {
    hide ReadPiece, FamilyOf, IsRadioFail;
    assert pieces[..i + 1][..i] == pieces[..i];
    BaseGrows(voc, pieces, i + 1);
  }

  lemma NothingIsRight(t: string)
    ensures Right(EMPTY, t, 0)
  {
  }

  lemma {:induction false} TotalWithout(voc: seq<string>, pieces: seq<string>, i: nat, t: string)
    requires i < |pieces|
    ensures Total(voc, pieces, t) == Total(voc, pieces[..i] + pieces[i + 1..], t) + Contribution(voc, pieces[i], t)
  {
    var n := |pieces| - 1;
    var without := pieces[..i] + pieces[i + 1..];
    if i < n {
      TotalWithout(voc, pieces[..n], i, t);
      assert without[..n - 1] == pieces[..n][..i] + pieces[..n][i + 1..];
      assert without[n - 1] == pieces[n];
    } else {
      assert without == pieces[..n];
    }
  }

  lemma {:induction false} TotalIgnoresOrder(voc: seq<string>, a: seq<string>, b: seq<string>, t: string)
    requires multiset(a) == multiset(b)
    ensures Total(voc, a, t) == Total(voc, b, t)
  {
    MultisetMembers(a, b);
    if a != [] {
      var n := |a| - 1;
      assert a[n] in b;
      var i :| 0 <= i < |b| && b[i] == a[n];
      RemovedMultiset(a, n);
      RemovedMultiset(b, i);
      assert a[..n] + a[n + 1..] == a[..n];
      TotalIgnoresOrder(voc, a[..n], b[..i] + b[i + 1..], t);
      TotalWithout(voc, b, i, t);
    }
  }

  /** A family that keeps its worst never refuses, so its ledger is a function of the totals. */
  lemma LedgersIgnoreOrder(voc: seq<string>, a: seq<string>, b: seq<string>)
    requires multiset(a) == multiset(b)
    ensures Fold(voc, a).slow == Fold(voc, b).slow
    ensures Fold(voc, a).recovered == Fold(voc, b).recovered
  {
    hide FamilyOf, Fold, Total;
    FoldIsOk(voc, a);
    FoldIsOk(voc, b);
    forall t
      ensures t in Fold(voc, a).slow <==> t in Fold(voc, b).slow
      ensures t in Fold(voc, a).slow ==> Fold(voc, a).slow[t] == Fold(voc, b).slow[t]
      ensures t in Fold(voc, a).recovered <==> t in Fold(voc, b).recovered
      ensures t in Fold(voc, a).recovered ==> Fold(voc, a).recovered[t] == Fold(voc, b).recovered[t]
    {
      CountsAreSaturatedSums(voc, a, t);
      CountsAreSaturatedSums(voc, b, t);
      TotalIgnoresOrder(voc, a, b, t);
    }
  }

  lemma BaseEmptyIgnoresOrder(voc: seq<string>, a: seq<string>, b: seq<string>)
    requires multiset(a) == multiset(b) && Fold(voc, a).base == map[]
    ensures Fold(voc, b).base == map[]
  {
    hide FamilyOf, Fold, Total;
    FoldIsOk(voc, a);
    FoldIsOk(voc, b);
    assert RadioFails(map[]) == {};
    forall t | t in Fold(voc, b).base ensures false {
      CountsAreSaturatedSums(voc, a, t);
      CountsAreSaturatedSums(voc, b, t);
      TotalIgnoresOrder(voc, a, b, t);
    }
  }

  /** Order-independence: sending the same pieces in another order is reported exactly when they are,
      and leaves the same `slow` and `recovered` counts stored. */
  lemma ParseIgnoresOrder(voc: seq<string>, v: string, w: string)
    requires multiset(Split(v, ',')) == multiset(Split(w, ','))
    ensures |v| == |w|
    ensures Parse(voc, v).None? <==> Parse(voc, w).None?
    ensures Parse(voc, v).Some? ==>
      && Part(Parse(voc, v).value.counts, Slow) == Part(Parse(voc, w).value.counts, Slow)
      && Part(Parse(voc, v).value.counts, Recovered) == Part(Parse(voc, w).value.counts, Recovered)
  {
    hide Fold, Final, SlowKept, RecoveredKept, Encode, Split, Ok, Part;
    var a, b := Split(v, ','), Split(w, ',');
    SizeIgnoresOrder(a, b);
    SplitSize(v, ',');
    SplitSize(w, ',');
    LedgersIgnoreOrder(voc, a, b);
    FoldIsOk(voc, a);
    FoldIsOk(voc, b);
    PartsOfFinal(voc, Fold(voc, a));
    PartsOfFinal(voc, Fold(voc, b));
    EmptyFinal(voc, Fold(voc, a));
    EmptyFinal(voc, Fold(voc, b));
    if Fold(voc, a).base == map[] { BaseEmptyIgnoresOrder(voc, a, b); }
    if Fold(voc, b).base == map[] { BaseEmptyIgnoresOrder(voc, b, a); }
  }

  /** The legal tokens of the failure families among the pieces. */
  function BaseTokens(voc: seq<string>, pieces: seq<string>): set<string>
  {
    set i | 0 <= i < |pieces| && ReadPiece(voc, pieces[i]).Some? &&
            FamilyOf(ReadPiece(voc, pieces[i]).value.0) == Base ::
      ReadPiece(voc, pieces[i]).value.0
  }

  function RadioTokens(voc: seq<string>, pieces: seq<string>): set<string>
  {
    set t | t in BaseTokens(voc, pieces) && IsRadioFail(t)
  }

  lemma {:induction false} TotalNeedsAPiece(voc: seq<string>, pieces: seq<string>, t: string)
    requires FamilyOf(t) == Base
    ensures Total(voc, pieces, t) > 0 ==> t in BaseTokens(voc, pieces)
  {
    hide ReadPiece, FamilyOf;
    if pieces != [] {
      var n := |pieces| - 1;
      TotalNeedsAPiece(voc, pieces[..n], t);
      if t in BaseTokens(voc, pieces[..n]) {
        var i :| 0 <= i < n && ReadPiece(voc, pieces[..n][i]).Some? && ReadPiece(voc, pieces[..n][i]).value.0 == t;
        assert pieces[i] == pieces[..n][i];
      }
      if Contribution(voc, pieces[n], t) > 0 { assert ReadPiece(voc, pieces[n]).Some?; }
    }
  }

  /** Few enough distinct tokens for no cap to refuse any. */
  ghost predicate CapsAreNotPassed(voc: seq<string>, pieces: seq<string>)
  {
    |BaseTokens(voc, pieces)| <= MAX_HEALTH_BASE_TOKENS && |RadioTokens(voc, pieces)| <= MAX_HEALTH_RADIO_FAIL_TOKENS
  }

  lemma BaseIsAmongTokens(voc: seq<string>, pieces: seq<string>)
    ensures Fold(voc, pieces).base.Keys <= BaseTokens(voc, pieces)
    ensures RadioFails(Fold(voc, pieces).base) <= RadioTokens(voc, pieces)
  {
    hide Fold, BaseTokens, FamilyOf, Total, IsRadioFail;
    FoldIsOk(voc, pieces);
    forall t | t in Fold(voc, pieces).base ensures t in BaseTokens(voc, pieces) {
      CountsAreSaturatedSums(voc, pieces, t);
      TotalNeedsAPiece(voc, pieces, t);
    }
  }

  lemma NoneRefused(voc: seq<string>, pieces: seq<string>, t: string)
    requires CapsAreNotPassed(voc, pieces) && FamilyOf(t) == Base && Total(voc, pieces, t) > 0
    ensures t in Fold(voc, pieces).base
  {
    hide Fold, BaseTokens, FamilyOf, Total, IsRadioFail;
    var st := Fold(voc, pieces);
    FoldIsOk(voc, pieces);
    BaseIsAmongTokens(voc, pieces);
    TotalNeedsAPiece(voc, pieces, t);
    CountsAreSaturatedSums(voc, pieces, t);
    if t !in st.base {
      SubsetSize(st.base.Keys + {t}, BaseTokens(voc, pieces));
      assert |st.base.Keys + {t}| == |st.base| + 1;
      if IsRadioFail(t) {
        SubsetSize(RadioFails(st.base) + {t}, RadioTokens(voc, pieces));
      }
    }
  }

  lemma BaseIgnoresOrder(voc: seq<string>, a: seq<string>, b: seq<string>)
    requires multiset(a) == multiset(b) && CapsAreNotPassed(voc, a) && CapsAreNotPassed(voc, b)
    ensures Fold(voc, a).base == Fold(voc, b).base
  {
    hide Fold, FamilyOf, Total, CapsAreNotPassed;
    FoldIsOk(voc, a);
    FoldIsOk(voc, b);
    forall t
      ensures t in Fold(voc, a).base <==> t in Fold(voc, b).base
      ensures t in Fold(voc, a).base ==> Fold(voc, a).base[t] == Fold(voc, b).base[t]
    {
      CountsAreSaturatedSums(voc, a, t);
      CountsAreSaturatedSums(voc, b, t);
      TotalIgnoresOrder(voc, a, b, t);
      if FamilyOf(t) == Base && Total(voc, a, t) > 0 {
        NoneRefused(voc, a, t);
        NoneRefused(voc, b, t);
      }
    }
  }

  lemma TokensIgnoreOrder(voc: seq<string>, a: seq<string>, b: seq<string>)
    requires multiset(a) == multiset(b)
    ensures BaseTokens(voc, a) <= BaseTokens(voc, b)
  {
    hide ReadPiece, FamilyOf;
    MultisetMembers(a, b);
    forall t | t in BaseTokens(voc, a) ensures t in BaseTokens(voc, b) {
      var i :| 0 <= i < |a| && ReadPiece(voc, a[i]).Some? && FamilyOf(ReadPiece(voc, a[i]).value.0) == Base
        && ReadPiece(voc, a[i]).value.0 == t;
      assert a[i] in b;
      var j :| 0 <= j < |b| && b[j] == a[i];
    }
  }

  /** When the distinct failure tokens sent pass no cap, the whole record ignores the order. */
  lemma RecordIgnoresOrder(voc: seq<string>, v: string, w: string)
    requires multiset(Split(v, ',')) == multiset(Split(w, ',')) && CapsAreNotPassed(voc, Split(v, ','))
    ensures Parse(voc, v) == Parse(voc, w)
  {
    hide Fold, Final, Encode, Split, BaseTokens;
    var a, b := Split(v, ','), Split(w, ',');
    SizeIgnoresOrder(a, b);
    SplitSize(v, ',');
    SplitSize(w, ',');
    TokensIgnoreOrder(voc, a, b);
    TokensIgnoreOrder(voc, b, a);
    assert BaseTokens(voc, a) == BaseTokens(voc, b) && RadioTokens(voc, a) == RadioTokens(voc, b);
    LedgersIgnoreOrder(voc, a, b);
    BaseIgnoresOrder(voc, a, b);
    FinalIsOfLedgers(voc, Fold(voc, a), Fold(voc, b));
  }

  lemma {:induction false} PiecesHoldNone(s: string, c: char)
    ensures forall i :: 0 <= i < |Split(s, c)| ==> c !in Split(s, c)[i]
    decreases |s|
  {
    var i := IndexOf(s, c);
    if i < |s| { PiecesHoldNone(s[i + 1..], c); }
  }

  /** The i-th piece sent first. */
  function MovedFirst(pieces: seq<string>, i: nat): (moved: seq<string>)
    requires i < |pieces|
    ensures |moved| == |pieces| && moved[0] == pieces[i]
  {
    [pieces[i]] + pieces[..i] + pieces[i + 1..]
  }

  lemma MovedIsPermuted(pieces: seq<string>, i: nat)
    requires i < |pieces|
    ensures multiset(MovedFirst(pieces, i)) == multiset(pieces)
    ensures forall p :: p in MovedFirst(pieces, i) <==> p in pieces
  {
    assert pieces == pieces[..i] + [pieces[i]] + pieces[i + 1..];
    MultisetMembers(MovedFirst(pieces, i), pieces);
  }

  /** A legal token of the failure families that comes first is never refused. */
  lemma FirstIsMet(voc: seq<string>, pieces: seq<string>)
    requires pieces != [] && ReadPiece(voc, pieces[0]).Some? && FamilyOf(ReadPiece(voc, pieces[0]).value.0) == Base
    ensures ReadPiece(voc, pieces[0]).value.0 in Fold(voc, pieces).base
  {
    hide ReadPiece, FamilyOf, IsRadioFail;
    assert pieces[..0] == [];
    FirstMetIsKept(voc, pieces, 0);
  }

  /** When a cap is passed, some token sent is missing from the ledger. */
  lemma SomethingIsRefused(voc: seq<string>, pieces: seq<string>) returns (t: string)
    requires !CapsAreNotPassed(voc, pieces)
    ensures t in BaseTokens(voc, pieces) && t !in Fold(voc, pieces).base
  {
    hide Fold, BaseTokens, IsRadioFail, IsLedger;
    var base := Fold(voc, pieces).base;
    FoldIsOk(voc, pieces);
    if BaseTokens(voc, pieces) <= base.Keys {
      SubsetSize(BaseTokens(voc, pieces), base.Keys);
      SubsetSize(RadioTokens(voc, pieces), RadioFails(base));
      assert false;
    }
    t :| t in BaseTokens(voc, pieces) && t !in base;
  }

  lemma BaseIsStored(voc: seq<string>, st: State, t: string)
    requires Ok(voc, st) && FamilyOf(t) == Base
    ensures t in Final(voc, st) <==> t in st.base
  {
    hide Final, SlowKept, RecoveredKept, FamilyOf;
    FinalParts(voc, st);
  }

  /** The caps are what order matters to: when a text's distinct failure tokens pass one, a token it
      leaves out is stored when its piece is sent first. */
  lemma OrderMatters(voc: seq<string>, v: string) returns (w: string)
    requires |v| <= MAX_HEALTH_CHARS && !CapsAreNotPassed(voc, Split(v, ','))
    ensures multiset(Split(w, ',')) == multiset(Split(v, ','))
    ensures Parse(voc, w) != Parse(voc, v)
  {
    hide Fold, Final, Encode, Split, Ok, FamilyOf, CapsAreNotPassed, ReadPiece, MovedFirst;
    var pieces := Split(v, ',');
    var t := SomethingIsRefused(voc, pieces);
    var i :| 0 <= i < |pieces| && ReadPiece(voc, pieces[i]).Some? && FamilyOf(ReadPiece(voc, pieces[i]).value.0) == Base
      && ReadPiece(voc, pieces[i]).value.0 == t;
    var moved := MovedFirst(pieces, i);
    MovedIsPermuted(pieces, i);
    PiecesHoldNone(v, ',');
    forall k | 0 <= k < |moved| ensures ',' !in moved[k] { assert moved[k] in pieces; }
    w := Join(moved, ',');
    SplitOfJoin(moved, ',');
    SameLength(v, w);
    FirstIsMet(voc, moved);
    FoldIsOk(voc, pieces);
    FoldIsOk(voc, moved);
    BaseIsStored(voc, Fold(voc, pieces), t);
    BaseIsStored(voc, Fold(voc, moved), t);
    StoresExactly(voc, v, t);
    StoresExactly(voc, w, t);
  }

  lemma SameLength(v: string, w: string)
    requires multiset(Split(v, ',')) == multiset(Split(w, ','))
    ensures |v| == |w|
  {
    hide Split;
    SizeIgnoresOrder(Split(v, ','), Split(w, ','));
    SplitSize(v, ',');
    SplitSize(w, ',');
  }

  predicate Stores(r: Option<Record>, t: string) { r.Some? && t in r.value.counts }

  lemma StoresExactly(voc: seq<string>, v: string, t: string)
    requires |v| <= MAX_HEALTH_CHARS
    ensures Stores(Parse(voc, v), t) <==> t in Final(voc, Fold(voc, Split(v, ',')))
  {
    hide Final, Encode, ReadPiece;
    if v == "" { NothingSent(voc); }
  }

  lemma NothingSent(voc: seq<string>)
    ensures Final(voc, Fold(voc, Split("", ','))) == map[]
  {
    assert Split("", ',') == [""] && [""][..0] == [];
    assert Fold(voc, [""]) == EMPTY;
  }

  /** So, for a text that is read at all, the record is the same in every order exactly when the distinct
      failure tokens pass no cap. */
  lemma OrderMattersExactly(voc: seq<string>, v: string)
    requires |v| <= MAX_HEALTH_CHARS
    ensures CapsAreNotPassed(voc, Split(v, ',')) <==>
      forall w :: multiset(Split(w, ',')) == multiset(Split(v, ',')) ==> Parse(voc, w) == Parse(voc, v)
  {
    hide Parse, Split, CapsAreNotPassed;
    if CapsAreNotPassed(voc, Split(v, ',')) {
      forall w | multiset(Split(w, ',')) == multiset(Split(v, ',')) ensures Parse(voc, w) == Parse(voc, v) {
        RecordIgnoresOrder(voc, v, w);
      }
    } else {
      var w := OrderMatters(voc, v);
    }
  }

  lemma FinalIsOfLedgers(voc: seq<string>, s: State, t: State)
    requires s.base == t.base && s.slow == t.slow && s.recovered == t.recovered
    ensures Final(voc, s) == Final(voc, t)
  {
    hide Limit, SlowKept, RecoveredKept;
  }

  /** Nothing is stored exactly when each part of the ledger keeps nothing. */
  lemma EmptyFinal(voc: seq<string>, st: State)
    requires Ok(voc, st)
    ensures Final(voc, st) == map[] <==>
      st.base == map[] && SlowKept(voc, st.slow) == {} && RecoveredKept(voc, st.recovered) == {}
  {
    hide Final, SlowKept, RecoveredKept;
    FinalParts(voc, st);
    if Final(voc, st) != map[] {
      var t :| t in Final(voc, st);
      assert t in Final(voc, st).Keys;
    } else {
      assert Final(voc, st).Keys == {};
      assert st.base.Keys == {};
    }
  }

  lemma {:induction false} SizeWithout(pieces: seq<string>, i: nat)
    requires i < |pieces|
    ensures Size(pieces) == Size(pieces[..i] + pieces[i + 1..]) + |pieces[i]| + 1
  {
    if i > 0 {
      SizeWithout(pieces[1..], i - 1);
      assert (pieces[..i] + pieces[i + 1..])[1..] == pieces[1..][..i - 1] + pieces[1..][i..];
    } else {
      assert pieces[..0] + pieces[1..] == pieces[1..];
    }
  }

  lemma {:induction false} SizeIgnoresOrder(a: seq<string>, b: seq<string>)
    requires multiset(a) == multiset(b)
    ensures Size(a) == Size(b)
  {
    MultisetMembers(a, b);
    if a != [] {
      assert a[0] in b;
      var i :| 0 <= i < |b| && b[i] == a[0];
      TailMultiset(a);
      RemovedMultiset(b, i);
      SizeIgnoresOrder(a[1..], b[..i] + b[i + 1..]);
      SizeWithout(b, i);
    }
  }

  /** The tokens kept are the worst ones: as many as the cap allows, each ranking above every token
      that was dropped. */
  lemma WorstAreKept(voc: seq<string>, tokens: set<string>, worse: (string, string) -> bool, most: nat)
    requires NoRepeats(voc) && Decides(worse, voc) && forall t :: t in tokens ==> t in voc
    ensures var kept := Worst(voc, tokens, worse, most);
      && kept <= tokens
      && |kept| == Least(most, |tokens|)
      && forall k, d :: k in kept && d in tokens - kept ==> worse(k, d)
  {
    hide Decides, Listed, NoRepeats;
    var listed := Listed(voc, tokens);
    ListedIn(voc, tokens);
    ListedAscends(voc, tokens);
    SortedStrictly(voc, listed, worse);
    SortPermutes(listed, worse);
    var sorted := StableSort(listed, worse);
    ElementsSize(sorted);
    assert Elements(sorted) == tokens;
    if |tokens| > most {
      ElementsSize(sorted[..most]);
      var kept := Elements(sorted[..most]);
      forall k, d | k in kept && d in tokens - kept ensures worse(k, d) {
        var i :| 0 <= i < most && sorted[i] == k;
        var j :| 0 <= j < |sorted| && sorted[j] == d;
        forall n | 0 <= n < most ensures sorted[n] in kept { assert sorted[..most][n] == sorted[n]; }
      }
    }
  }

  /** The stored `slow` counts are the worst eight of the saturated sums, by tier, count and rank; the
      stored `recovered` counts the worst eight by count and rank. */
  lemma StoredAreTheWorst(voc: seq<string>, pieces: seq<string>)
    requires NoRepeats(voc)
    ensures var st := Fold(voc, pieces);
      && (forall k, d :: k in SlowKept(voc, st.slow) && d in st.slow.Keys - SlowKept(voc, st.slow) ==>
            SlowOrder(voc, st.slow)(k, d))
      && (forall k, d ::
            k in RecoveredKept(voc, st.recovered) && d in st.recovered.Keys - RecoveredKept(voc, st.recovered) ==>
            RecoveredOrder(voc, st.recovered)(k, d))
      && |SlowKept(voc, st.slow)| == Least(MAX_HEALTH_SLOW_TOKENS, |st.slow|)
      && |RecoveredKept(voc, st.recovered)| == Least(MAX_HEALTH_RECOVERED_TOKENS, |st.recovered|)
  {
    hide Worst, SlowOrder, RecoveredOrder, Fold, FamilyOf, Decides;
    var st := Fold(voc, pieces);
    FoldIsOk(voc, pieces);
    LedgersInVocabulary(voc, st);
    OrdersDecide(voc, st.slow);
    OrdersDecide(voc, st.recovered);
    WorstAreKept(voc, st.slow.Keys, SlowOrder(voc, st.slow), MAX_HEALTH_SLOW_TOKENS);
    WorstAreKept(voc, st.recovered.Keys, RecoveredOrder(voc, st.recovered), MAX_HEALTH_RECOVERED_TOKENS);
  }
}
