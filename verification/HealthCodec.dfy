/** The failure-count codec of the telemetry Worker: a strict parser of "token=count,..." that merges,
    saturates and caps, and stores the canonical re-encoding of what it kept. A `char` here is one UTF-16
    unit of a JavaScript string, a surrogate unit standing 0x10_0000 above itself, at U+10D800 to U+10DFFF;
    so lengths are JavaScript's. */
module HealthCodec {
  import opened Sorting
  import opened Decimals
  import opened Texts
  import opened Wrappers

  const MAX_HEALTH_CHARS: nat := 832
  const MAX_HEALTH_BASE_TOKENS: nat := 24
  const MAX_HEALTH_RADIO_FAIL_TOKENS: nat := 8
  const MAX_HEALTH_SLOW_TOKENS: nat := 8
  const MAX_HEALTH_RECOVERED_TOKENS: nat := 8
  const MAX_HEALTH_COUNT: nat := 999
  const HEALTH_SLOW_TIERS: seq<string> := ["250ms", "1s", "5s"]

  type Counts = map<string, nat>

  datatype Family = Base | Slow | Recovered

  /** The record's `health` member: only a string is read at all. */
  datatype Json = Text(s: string) | NotText

  datatype Record = Record(text: string, counts: Counts)

  datatype State = State(base: Counts, slow: Counts, recovered: Counts, radioFails: nat)

  const EMPTY: State := State(map[], map[], map[], 0)

  // ----- strings ----------------------------------------------------------------------------

  function LastIndexOf(s: string, c: char): (i: int)
    ensures -1 <= i < |s|
  {
    if s == [] then -1 else if s[|s| - 1] == c then |s| - 1 else LastIndexOf(s[..|s| - 1], c)
  }

  predicate StartsWith(s: string, prefix: string) { prefix <= s }

  // ----- tokens -----------------------------------------------------------------------------

  function FamilyOf(token: string): Family
  {
    if StartsWith(token, "slow.") then Slow
    else if StartsWith(token, "recovered.") then Recovered
    else Base
  }

  predicate IsRadioFail(token: string) { StartsWith(token, "radio_fail.") }

  /** Where an element first stands; the length when nowhere. */
  function Rank<T(==)>(voc: seq<T>, t: T): (r: nat)
    ensures r <= |voc| && (r < |voc| <==> t in voc) && (r < |voc| ==> voc[r] == t)
  {
    if voc == [] || voc[0] == t then 0 else 1 + Rank(voc[1..], t)
  }

  function SlowTier(token: string): int
  {
    var word := token[LastIndexOf(token, '.') + 1..];
    if word in HEALTH_SLOW_TIERS then Rank(HEALTH_SLOW_TIERS, word) else -1
  }

  /** One to four digits, and nothing else. */
  predicate IsCount(digits: string) { 1 <= |digits| <= 4 && AllDigits(digits) }

  function Least(a: nat, b: nat): nat { if a < b then a else b }

  /** The token and clamped count of a legal piece. */
  function ReadPiece(voc: seq<string>, piece: string): Option<(string, nat)>
  {
    var eq := IndexOf(piece, '=');
    if eq == |piece| then None
    else
      var token, digits := piece[..eq], piece[eq + 1..];
      if token !in voc || !IsCount(digits) then None
      else
        var n := Least(Value(digits), MAX_HEALTH_COUNT);
        if n < 1 then None else Some((token, n))
  }

  // ----- the ledger -------------------------------------------------------------------------

  function Count(m: Counts, t: string): nat { if t in m then m[t] else 0 }

  function Merge(m: Counts, t: string, n: nat): Counts
  {
    m[t := Least(Count(m, t) + n, MAX_HEALTH_COUNT)]
  }

  /** A new token of the failure families that the caps refuse. */
  predicate Refused(st: State, t: string)
  {
    && FamilyOf(t) == Base && t !in st.base
    && (|st.base| >= MAX_HEALTH_BASE_TOKENS ||
        (IsRadioFail(t) && st.radioFails >= MAX_HEALTH_RADIO_FAIL_TOKENS))
  }

  function Tally(st: State, t: string, n: nat): State
  {
    match FamilyOf(t)
    case Slow => st.(slow := Merge(st.slow, t, n))
    case Recovered => st.(recovered := Merge(st.recovered, t, n))
    case Base =>
      if Refused(st, t) then st
      else st.(base := Merge(st.base, t, n),
               radioFails := if t !in st.base && IsRadioFail(t) then st.radioFails + 1 else st.radioFails)
  }

  function Step(voc: seq<string>, st: State, piece: string): State
  {
    match ReadPiece(voc, piece)
    case None => st
    case Some((t, n)) => Tally(st, t, n)
  }

  function Fold(voc: seq<string>, pieces: seq<string>): State
  {
    if pieces == [] then EMPTY
    else Step(voc, Fold(voc, pieces[..|pieces| - 1]), pieces[|pieces| - 1])
  }

  // ----- what is kept -----------------------------------------------------------------------

  /** Higher tier, then higher count, then the earlier in the written order. */
  function SlowOrder(voc: seq<string>, m: Counts): (string, string) -> bool
  {
    (a: string, b: string) =>
      || SlowTier(a) > SlowTier(b)
      || (SlowTier(a) == SlowTier(b) &&
          (Count(m, a) > Count(m, b) || (Count(m, a) == Count(m, b) && Rank(voc, a) < Rank(voc, b))))
  }

  /** Higher count, then the earlier in the written order. */
  function RecoveredOrder(voc: seq<string>, m: Counts): (string, string) -> bool
  {
    (a: string, b: string) =>
      Count(m, a) > Count(m, b) || (Count(m, a) == Count(m, b) && Rank(voc, a) < Rank(voc, b))
  }

  function RankOrder(voc: seq<string>): (string, string) -> bool
  {
    (a: string, b: string) => Rank(voc, a) < Rank(voc, b)
  }

  /** The tokens of a set, in the written order. */
  function Listed(voc: seq<string>, tokens: set<string>): seq<string>
  {
    if voc == [] then []
    else (if voc[0] in tokens then [voc[0]] else []) + Listed(voc[1..], tokens)
  }

  function Elements(s: seq<string>): set<string> { set t | t in s }

  /** The tokens kept of a family that keeps its worst `most`. */
  function Worst(voc: seq<string>, tokens: set<string>, worse: (string, string) -> bool, most: nat): set<string>
  {
    if |tokens| <= most then tokens
    else
      var sorted := StableSort(Listed(voc, tokens), worse);
      if |sorted| <= most then Elements(sorted) else Elements(sorted[..most])
  }

  function SlowKept(voc: seq<string>, m: Counts): set<string>
  {
    Worst(voc, m.Keys, SlowOrder(voc, m), MAX_HEALTH_SLOW_TOKENS)
  }

  function RecoveredKept(voc: seq<string>, m: Counts): set<string>
  {
    Worst(voc, m.Keys, RecoveredOrder(voc, m), MAX_HEALTH_RECOVERED_TOKENS)
  }

  function Limit(m: Counts, tokens: set<string>): Counts { map t | t in m && t in tokens :: m[t] }

  function Final(voc: seq<string>, st: State): Counts
  {
    st.base + Limit(st.slow, SlowKept(voc, st.slow)) + Limit(st.recovered, RecoveredKept(voc, st.recovered))
  }

  function Piece(t: string, n: nat): string { t + "=" + Decimal(n) }

  function Printed(tokens: seq<string>, m: Counts): seq<string>
    requires forall i :: 0 <= i < |tokens| ==> tokens[i] in m
  {
    seq(|tokens|, i requires 0 <= i < |tokens| => Piece(tokens[i], m[tokens[i]]))
  }

  lemma {:induction false} ListedIn(voc: seq<string>, tokens: set<string>)
    ensures forall t :: t in Listed(voc, tokens) <==> t in voc && t in tokens
  {
    if voc != [] { ListedIn(voc[1..], tokens); }
  }

  function Encode(voc: seq<string>, m: Counts): string
  {
    ListedIn(voc, m.Keys);
    Join(Printed(Listed(voc, m.Keys), m), ',')
  }

  function Parse(voc: seq<string>, v: string): Option<Record>
  {
    if |v| > MAX_HEALTH_CHARS then None
    else if v == "" then Some(Record("", map[]))
    else
      var counts := Final(voc, Fold(voc, Split(v, ',')));
      if counts == map[] then None else Some(Record(Encode(voc, counts), counts))
  }

  /** A vocabulary of distinct tokens, none holding a separator. */
  ghost predicate WellFormed(voc: seq<string>)
  {
    NoRepeats(voc) && forall i :: 0 <= i < |voc| ==> ',' !in voc[i] && '=' !in voc[i]
  }

  // ----- the sorts do not depend on the order the maps are walked in -------------------------

  lemma {:induction false} ListedAscends(voc: seq<string>, tokens: set<string>)
    requires NoRepeats(voc)
    ensures Ascending(Listed(voc, tokens), RankOrder(voc))
    ensures NoRepeats(Listed(voc, tokens))
  {
    if voc != [] {
      var rest := Listed(voc[1..], tokens);
      assert forall i, j :: 0 <= i < j < |voc[1..]| ==> voc[1..][i] == voc[i + 1] && voc[1..][j] == voc[j + 1];
      ListedAscends(voc[1..], tokens);
      ListedIn(voc[1..], tokens);
      forall i | 0 <= i < |rest| ensures rest[i] != voc[0] && Rank(voc, rest[i]) == 1 + Rank(voc[1..], rest[i]) {
        assert rest[i] in voc[1..];
        var k :| 0 <= k < |voc[1..]| && voc[1..][k] == rest[i];
        assert voc[k + 1] == rest[i];
      }
      forall i, j | 0 <= i < j < |rest| ensures Rank(voc, rest[i]) < Rank(voc, rest[j]) {
        assert RankOrder(voc[1..])(rest[i], rest[j]);
      }
    }
  }

  lemma {:induction false} SameElements(a: seq<string>, b: seq<string>)
    requires NoRepeats(a) && NoRepeats(b) && forall t :: t in a <==> t in b
    ensures multiset(a) == multiset(b)
  {
    forall t ensures multiset(a)[t] == multiset(b)[t] {
      CountOfDistinct(a, t);
      CountOfDistinct(b, t);
    }
  }

  lemma {:induction false} CountOfDistinct(a: seq<string>, t: string)
    requires NoRepeats(a)
    ensures multiset(a)[t] == if t in a then 1 else 0
  {
    if a != [] {
      assert a == [a[0]] + a[1..];
      CountOfDistinct(a[1..], t);
    }
  }

  /** `order` is a comparator that ties no two different tokens of the vocabulary. */
  ghost predicate Decides(order: (string, string) -> bool, voc: seq<string>)
  {
    && StrictWeakOrder(order)
    && forall a, b :: a in voc && b in voc && a != b ==> order(a, b) || order(b, a)
  }

  lemma OrdersDecide(voc: seq<string>, m: Counts)
    ensures Decides(SlowOrder(voc, m), voc)
    ensures Decides(RecoveredOrder(voc, m), voc)
    ensures Decides(RankOrder(voc), voc)
  {
  }

  /** However a map hands out its keys, sorting them by a deciding order gives one sequence. */
  lemma SortIsCanonical(voc: seq<string>, a: seq<string>, b: seq<string>, order: (string, string) -> bool)
    requires Decides(order, voc) && NoRepeats(a) && NoRepeats(b)
    requires forall t :: t in a <==> t in b
    requires forall t :: t in a ==> t in voc
    ensures StableSort(a, order) == StableSort(b, order)
  {
    SameElements(a, b);
    SortedStrictly(voc, a, order);
    SortedStrictly(voc, b, order);
    SortPermutes(a, order);
    SortPermutes(b, order);
    AscendingIsUnique(StableSort(a, order), StableSort(b, order), order);
  }

  lemma SortedStrictly(voc: seq<string>, a: seq<string>, order: (string, string) -> bool)
    requires Decides(order, voc) && NoRepeats(a) && forall t :: t in a ==> t in voc
    ensures Ascending(StableSort(a, order), order)
    ensures NoRepeats(StableSort(a, order))
    ensures forall t :: t in StableSort(a, order) <==> t in a
  {
    var s := StableSort(a, order);
    SortSorts(a, order);
    SortPermutes(a, order);
    MultisetMembers(s, a);
    forall i, j | 0 <= i < j < |s| ensures s[i] != s[j] && order(s[i], s[j]) {
      if s[i] == s[j] {
        CountOfDistinct(a, s[i]);
        TwiceInMultiset(s, i, j);
      }
      assert s[i] in a && s[j] in a;
    }
  }

  // ----- the parser as it runs --------------------------------------------------------------

  method KeysOf(m: Counts) returns (keys: seq<string>)
    ensures NoRepeats(keys) && forall t :: t in keys <==> t in m
  {
    keys := [];
    var left := m.Keys;
    while left != {}
      invariant left <= m.Keys && NoRepeats(keys)
      invariant forall t :: t in keys <==> t in m && t !in left
      decreases left
    {
      var t :| t in left;
      keys := keys + [t];
      left := left - {t};
    }
  }

  /** The keys of a family that keeps its worst. */
  method KeepWorst(voc: seq<string>, m: Counts, worse: (string, string) -> bool, most: nat)
    returns (kept: seq<string>)
    requires NoRepeats(voc) && Decides(worse, voc) && forall t :: t in m ==> t in voc
    ensures NoRepeats(kept) && Elements(kept) == Worst(voc, m.Keys, worse, most)
  {
    hide Decides, Listed, StableSort;
    kept := KeysOf(m);
    ElementsSize(kept);
    assert Elements(kept) == m.Keys;
    if |kept| > most {
      ListedIn(voc, m.Keys);
      ListedAscends(voc, m.Keys);
      SortIsCanonical(voc, kept, Listed(voc, m.Keys), worse);
      SortedStrictly(voc, kept, worse);
      SortPermutes(kept, worse);
      kept := StableSort(kept, worse);
      kept := kept[..most];
    }
  }

  lemma {:induction false} ElementsSize(s: seq<string>)
    requires NoRepeats(s)
    ensures |Elements(s)| == |s|
  {
    if s != [] {
      var n := |s| - 1;
      ElementsSize(s[..n]);
      assert Elements(s) == Elements(s[..n]) + {s[n]};
    }
  }

  // ----- what every run of the loop keeps ---------------------------------------------------

  function RadioFails(m: Counts): set<string> { set t | t in m && IsRadioFail(t) }

  ghost predicate IsLedger(voc: seq<string>, m: Counts, f: Family)
  {
    forall t :: t in m ==> t in voc && FamilyOf(t) == f && 1 <= m[t] <= MAX_HEALTH_COUNT
  }

  ghost predicate Ok(voc: seq<string>, st: State)
  {
    && IsLedger(voc, st.base, Base) && IsLedger(voc, st.slow, Slow) && IsLedger(voc, st.recovered, Recovered)
    && |st.base| <= MAX_HEALTH_BASE_TOKENS
    && st.radioFails == |RadioFails(st.base)| <= MAX_HEALTH_RADIO_FAIL_TOKENS
  }

  lemma MergeIsLedger(voc: seq<string>, m: Counts, f: Family, t: string, n: nat)
    requires IsLedger(voc, m, f) && t in voc && FamilyOf(t) == f && 1 <= n
    ensures IsLedger(voc, Merge(m, t, n), f)
    ensures Merge(m, t, n).Keys == m.Keys + {t}
    ensures |Merge(m, t, n)| == if t in m then |m| else |m| + 1
  {
    var m' := Merge(m, t, n);
    assert m'.Keys == m.Keys + {t};
    assert |m'| == |m'.Keys|;
    if t in m { assert m'.Keys == m.Keys; }
  }

  lemma RadioFailsAfter(m: Counts, t: string, n: nat)
    ensures |RadioFails(Merge(m, t, n))| == |RadioFails(m)| + if t !in m && IsRadioFail(t) then 1 else 0
  {
    var m' := Merge(m, t, n);
    if t !in m && IsRadioFail(t) {
      assert RadioFails(m') == RadioFails(m) + {t};
    } else {
      assert RadioFails(m') == RadioFails(m);
    }
  }

  lemma TallyKeepsOk(voc: seq<string>, st: State, t: string, n: nat)
    requires Ok(voc, st) && t in voc && 1 <= n <= MAX_HEALTH_COUNT
    ensures Ok(voc, Tally(st, t, n))
  {
    hide IsLedger, Merge, FamilyOf, IsRadioFail;
    match FamilyOf(t)
    case Slow => MergeIsLedger(voc, st.slow, Slow, t, n);
    case Recovered => MergeIsLedger(voc, st.recovered, Recovered, t, n);
    case Base =>
      if !Refused(st, t) {
        MergeIsLedger(voc, st.base, Base, t, n);
        RadioFailsAfter(st.base, t, n);
      }
  }

  lemma ReadIsLegal(voc: seq<string>, piece: string)
    ensures var r := ReadPiece(voc, piece);
      r.Some? ==> r.value.0 in voc && 1 <= r.value.1 <= MAX_HEALTH_COUNT
  {
  }

  /** The ledger after any pieces: legal tokens of the right family, counts 1 to 999, caps kept. */
  lemma {:induction false} FoldIsOk(voc: seq<string>, pieces: seq<string>)
    ensures Ok(voc, Fold(voc, pieces))
  {
    if pieces == [] {
      assert RadioFails(EMPTY.base) == {};
    } else {
      var n := |pieces| - 1;
      FoldIsOk(voc, pieces[..n]);
      StepKeepsOk(voc, Fold(voc, pieces[..n]), pieces[n]);
    }
  }

  lemma StepKeepsOk(voc: seq<string>, st: State, piece: string)
    requires Ok(voc, st)
    ensures Ok(voc, Step(voc, st, piece))
  {
    hide Ok, Tally, ReadPiece;
    ReadIsLegal(voc, piece);
    match ReadPiece(voc, piece)
    case None =>
    case Some((t, n)) => TallyKeepsOk(voc, st, t, n);
  }

  lemma WorstIsSubset(voc: seq<string>, tokens: set<string>, worse: (string, string) -> bool, most: nat)
    ensures Worst(voc, tokens, worse, most) <= tokens
  {
    var sorted := StableSort(Listed(voc, tokens), worse);
    SortPermutes(Listed(voc, tokens), worse);
    MultisetMembers(sorted, Listed(voc, tokens));
    ListedIn(voc, tokens);
  }

  lemma LedgersDisjoint(voc: seq<string>, st: State)
    requires Ok(voc, st)
    ensures st.base.Keys !! st.slow.Keys !! st.recovered.Keys
  {
    hide FamilyOf;
  }

  lemma UnionOfParts(a: Counts, b: Counts, c: Counts, bs: set<string>, cs: set<string>)
    requires a.Keys !! b.Keys !! c.Keys && bs <= b.Keys && cs <= c.Keys
    ensures var u := a + Limit(b, bs) + Limit(c, cs);
      && u.Keys == a.Keys + bs + cs
      && (forall t :: t in a ==> u[t] == a[t])
      && (forall t :: t in bs ==> u[t] == b[t])
      && (forall t :: t in cs ==> u[t] == c[t])
  {
  }

  /** The three parts of the stored counts never meet. */
  lemma FinalParts(voc: seq<string>, st: State)
    requires Ok(voc, st)
    ensures var c := Final(voc, st);
      && SlowKept(voc, st.slow) <= st.slow.Keys && RecoveredKept(voc, st.recovered) <= st.recovered.Keys
      && c.Keys == st.base.Keys + SlowKept(voc, st.slow) + RecoveredKept(voc, st.recovered)
      && (forall t :: t in st.base ==> c[t] == st.base[t])
      && (forall t :: t in SlowKept(voc, st.slow) ==> c[t] == st.slow[t])
      && (forall t :: t in RecoveredKept(voc, st.recovered) ==> c[t] == st.recovered[t])
  {
    hide Worst, FamilyOf, SlowOrder, RecoveredOrder, Limit;
    WorstIsSubset(voc, st.slow.Keys, SlowOrder(voc, st.slow), MAX_HEALTH_SLOW_TOKENS);
    WorstIsSubset(voc, st.recovered.Keys, RecoveredOrder(voc, st.recovered), MAX_HEALTH_RECOVERED_TOKENS);
    LedgersDisjoint(voc, st);
    UnionOfParts(st.base, st.slow, st.recovered, SlowKept(voc, st.slow), RecoveredKept(voc, st.recovered));
  }

  lemma FinalIsLegal(voc: seq<string>, st: State)
    requires Ok(voc, st)
    ensures forall t :: t in Final(voc, st) ==> t in voc && 1 <= Final(voc, st)[t] <= MAX_HEALTH_COUNT
  {
    hide Final, SlowKept, RecoveredKept, FamilyOf;
    FinalParts(voc, st);
  }

  method HealthParse(voc: seq<string>, v: Json) returns (r: Option<Record>)
    requires WellFormed(voc)
    ensures v.NotText? ==> r == None
    ensures v.Text? ==> r == Parse(voc, v.s)
  {
    if v.NotText? || |v.s| > MAX_HEALTH_CHARS { return None; }
    if v.s == "" { return Some(Record("", map[])); }
    var pieces := Split(v.s, ',');
    var base, slow, recovered, radioFails := Ledgers(voc, pieces);
    FoldIsOk(voc, pieces);
    var tokens := Keep(voc, base, slow, recovered, Fold(voc, pieces));
    FinalIsLookup(voc, Fold(voc, pieces));
    ListedElements(voc, Fold(voc, pieces));
    var counts, printed := Publish(base, slow, recovered, tokens, Final(voc, Fold(voc, pieces)));
    if |counts| == 0 { return None; }
    return Some(Record(Join(printed, ','), counts));
  }

  lemma FinalIsLookup(voc: seq<string>, st: State)
    requires Ok(voc, st)
    ensures forall t :: t in Final(voc, st) ==> Final(voc, st)[t] == Lookup(st.base, st.slow, st.recovered, t)
  {
    hide Final, SlowKept, RecoveredKept;
    FinalParts(voc, st);
  }

  lemma ListedElements(voc: seq<string>, st: State)
    requires Ok(voc, st)
    ensures Elements(Listed(voc, Final(voc, st).Keys)) == Final(voc, st).Keys
  {
    hide Final;
    FinalIsLegal(voc, st);
    ListedIn(voc, Final(voc, st).Keys);
  }

  lemma LedgersInVocabulary(voc: seq<string>, st: State)
    requires Ok(voc, st)
    ensures forall t :: t in st.slow ==> t in voc
    ensures forall t :: t in st.recovered ==> t in voc
  {
    hide FamilyOf;
  }

  lemma SortedParts(voc: seq<string>, st: State, base: seq<string>, slow: seq<string>, recovered: seq<string>)
    requires NoRepeats(voc) && Ok(voc, st) && NoRepeats(base) && NoRepeats(slow) && NoRepeats(recovered)
    requires Elements(base) == st.base.Keys
    requires Elements(slow) == SlowKept(voc, st.slow)
    requires Elements(recovered) == RecoveredKept(voc, st.recovered)
    ensures StableSort(base + slow + recovered, RankOrder(voc)) == Listed(voc, Final(voc, st).Keys)
  {
    hide SlowKept, RecoveredKept, RankOrder, Final, Ok, NoRepeats, Elements;
    FinalParts(voc, st);
    FinalIsLegal(voc, st);
    LedgersDisjoint(voc, st);
    DisjointAppend(base, slow);
    DisjointAppend(base + slow, recovered);
    SortedByRank(voc, base + slow + recovered, Final(voc, st).Keys);
  }

  /** The tokens kept, in the written order. */
  method Keep(voc: seq<string>, base: Counts, slow: Counts, recovered: Counts, ghost st: State)
    returns (tokens: seq<string>)
    requires WellFormed(voc) && Ok(voc, st) && st == State(base, slow, recovered, st.radioFails)
    ensures tokens == Listed(voc, Final(voc, st).Keys)
  {
    hide Worst, SlowOrder, RecoveredOrder, RankOrder, Final, FamilyOf, Ok, Decides;
    OrdersDecide(voc, slow);
    OrdersDecide(voc, recovered);
    LedgersInVocabulary(voc, st);
    var baseKeys := KeysOf(base);
    var slowKept := KeepWorst(voc, slow, SlowOrder(voc, slow), MAX_HEALTH_SLOW_TOKENS);
    var recoveredKept := KeepWorst(voc, recovered, RecoveredOrder(voc, recovered), MAX_HEALTH_RECOVERED_TOKENS);
    assert Elements(baseKeys) == base.Keys;
    SortedParts(voc, st, baseKeys, slowKept, recoveredKept);
    tokens := StableSort(baseKeys + slowKept + recoveredKept, RankOrder(voc));
  }

  method Ledgers(voc: seq<string>, pieces: seq<string>)
    returns (base: Counts, slow: Counts, recovered: Counts, radioFails: nat)
    ensures State(base, slow, recovered, radioFails) == Fold(voc, pieces)
  {
    base, slow, recovered, radioFails := map[], map[], map[], 0;
    var i := 0;
    while i < |pieces|
      invariant 0 <= i <= |pieces|
      invariant State(base, slow, recovered, radioFails) == Fold(voc, pieces[..i])
    {
      var piece := pieces[i];
      assert pieces[..i + 1][..i] == pieces[..i];
      i := i + 1;
      var eq := IndexOf(piece, '=');
      if eq == |piece| { continue; }
      var token, digits := piece[..eq], piece[eq + 1..];
      if token !in voc || !IsCount(digits) { continue; }
      var n := Least(Value(digits), MAX_HEALTH_COUNT);
      if n < 1 { continue; }
      var family := FamilyOf(token);
      if family == Base && token !in base {
        if |base| >= MAX_HEALTH_BASE_TOKENS { continue; }
        if StartsWith(token, "radio_fail.") {
          if radioFails >= MAX_HEALTH_RADIO_FAIL_TOKENS { continue; }
          radioFails := radioFails + 1;
        }
      }
      match family
      case Slow => slow := Merge(slow, token, n);
      case Recovered => recovered := Merge(recovered, token, n);
      case Base => base := Merge(base, token, n);
    }
    assert pieces[..i] == pieces;
  }

  lemma DisjointAppend(a: seq<string>, b: seq<string>)
    requires NoRepeats(a) && NoRepeats(b) && Elements(a) !! Elements(b)
    ensures NoRepeats(a + b) && Elements(a + b) == Elements(a) + Elements(b)
  {
    forall i, j | 0 <= i < j < |a + b| ensures (a + b)[i] != (a + b)[j] {
      if i < |a| <= j {
        assert (a + b)[i] in Elements(a) && (a + b)[j] in Elements(b);
      }
    }
  }

  lemma SortedByRank(voc: seq<string>, tokens: seq<string>, kept: set<string>)
    requires NoRepeats(voc) && NoRepeats(tokens) && Elements(tokens) == kept
    requires forall t :: t in kept ==> t in voc
    ensures StableSort(tokens, RankOrder(voc)) == Listed(voc, kept)
  {
    OrdersDecide(voc, map[]);
    ListedIn(voc, kept);
    ListedAscends(voc, kept);
    assert forall t :: t in tokens <==> t in Elements(tokens);
    SortIsCanonical(voc, tokens, Listed(voc, kept), RankOrder(voc));
    SortKeepsSorted(Listed(voc, kept), RankOrder(voc));
  }

  /** A token's count, looked for in each ledger in turn. */
  function Lookup(base: Counts, slow: Counts, recovered: Counts, t: string): nat
  {
    if Count(base, t) != 0 then Count(base, t)
    else if Count(slow, t) != 0 then Count(slow, t)
    else Count(recovered, t)
  }

  /** Writes the kept counts, and their text, in the order of `tokens`. */
  method Publish(base: Counts, slow: Counts, recovered: Counts, tokens: seq<string>, ghost final: Counts)
    returns (counts: Counts, printed: seq<string>)
    requires Elements(tokens) == final.Keys
    requires forall t :: t in final ==> final[t] == Lookup(base, slow, recovered, t)
    ensures forall i :: 0 <= i < |tokens| ==> tokens[i] in final
    ensures counts == final && printed == Printed(tokens, final)
  {
    hide Lookup;
    counts, printed := map[], [];
    assert forall i :: 0 <= i < |tokens| ==> tokens[i] in Elements(tokens);
    for i := 0 to |tokens|
      invariant counts.Keys == Elements(tokens[..i])
      invariant forall t :: t in counts ==> t in final && counts[t] == final[t]
      invariant printed == Printed(tokens, final)[..i]
    {
      var t := tokens[i];
      var n := Lookup(base, slow, recovered, t);
      counts := counts[t := n];
      printed := printed + [t + "=" + Decimal(n)];
    }
    assert tokens[..|tokens|] == tokens;
    assert counts.Keys == final.Keys;
  }
}
