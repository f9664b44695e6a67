/** The Worker's own vocabulary, expanded as it expands it, and the proof that it is one the codec's
    theorems apply to. */
module HealthVocabulary {
  import opened Sorting
  import opened Texts
  import opened Decimals
  import opened HealthCodec
  import opened HealthCodecProofs
  import opened HealthWords
  import opened Wrappers

  datatype Event = Event(name: string, qualifiers: seq<seq<string>>)

  /** What qualifies each event, in the order of EVENT_NAMES. */
  const EVENT_QUALIFIERS: seq<seq<seq<string>>> := [
    [],
    [DRIVERS],
    [DRIVERS],
    [DRIVERS, RADIO_REASONS],
    [SOUND_HOSTS],
    [SOUND_HOSTS, SOUND_REASONS],
    [],
    [],
    [],
    [],
    [],
    [INSTALL_REASONS],
    [LOAD_REASONS],
    [],
    [SLOW_PLACES, HEALTH_SLOW_TIERS],
    [RECOVERED_WHAT]
  ]

  const HEALTH_EVENTS: seq<Event> :=
    seq(16, i requires 0 <= i < 16 => Event(EVENT_NAMES[i], EVENT_QUALIFIERS[i]))

  function Each(name: string, words: seq<string>): seq<string>
  {
    seq(|words|, i requires 0 <= i < |words| => name + "." + words[i])
  }

  /** Each name qualified by each word, the words varying fastest. */
  function Qualified(names: seq<string>, words: seq<string>): seq<string>
  {
    if names == [] then [] else Each(names[0], words) + Qualified(names[1..], words)
  }

  function Expanded(names: seq<string>, qualifiers: seq<seq<string>>): seq<string>
    decreases |qualifiers|
  {
    if qualifiers == [] then names else Expanded(Qualified(names, qualifiers[0]), qualifiers[1..])
  }

  /** Every legal token, in the written order. */
  function Written(events: seq<Event>): seq<string>
  {
    if events == [] then [] else Expanded([events[0].name], events[0].qualifiers) + Written(events[1..])
  }

  /** The rank table as it is filled, token by token, each given the table's size so far. */
  method RankTable(tokens: seq<string>) returns (rank: map<string, nat>)
    requires NoRepeats(tokens)
    ensures forall t :: t in rank <==> t in tokens
    ensures forall t :: t in rank ==> rank[t] == Rank(tokens, t)
  {
    hide Rank;
    rank := map[];
    for i := 0 to |tokens|
      invariant |rank| == i
      invariant forall t :: t in rank ==> rank[t] < i && tokens[rank[t]] == t
      invariant forall k :: 0 <= k < i ==> tokens[k] in rank
    {
      rank := rank[tokens[i] := |rank|];
    }
  }

  ghost predicate WellFormedEvent(ev: Event)
  {
    Word(ev.name) && forall i :: 0 <= i < |ev.qualifiers| ==> Words(ev.qualifiers[i])
  }

  ghost predicate WellFormedEvents(events: seq<Event>)
  {
    && (forall i :: 0 <= i < |events| ==> WellFormedEvent(events[i]))
    && forall i, j :: 0 <= i < j < |events| ==> events[i].name != events[j].name
  }

  function Stem(t: string): string { t[..IndexOf(t, '.')] }

  lemma DottedIsInjective(n: string, w: string, n': string, w': string)
    requires '.' !in w && '.' !in w' && n + "." + w == n' + "." + w'
    ensures n == n' && w == w'
  {
    var t := n + "." + w;
    assert t[|n|] == '.' && t[|n'|] == '.';
    assert forall k :: |n| < k < |t| ==> t[k] == w[k - |n| - 1];
    assert forall k :: |n'| < k < |t| ==> t[k] == w'[k - |n'| - 1];
    assert |n| == |n'|;
    assert n == t[..|n|] && w == t[|n| + 1..];
    assert n' == t[..|n'|] && w' == t[|n'| + 1..];
  }

  lemma StemOfDotted(n: string, w: string)
    ensures Stem(n + "." + w) == Stem(n)
  {
    var s, i := n + "." + w, IndexOf(n, '.');
    assert s[i] == '.' && forall k :: 0 <= k < i ==> s[k] == n[k];
    assert forall k :: 0 <= k < i ==> n[..i][k] == n[k];
    var j := IndexOf(s, '.');
    assert forall k :: 0 <= k < j ==> s[..j][k] == s[k];
    assert i == j;
  }

  /** Distinct names qualified by distinct words are distinct tokens of the same stems. */
  lemma {:induction false} QualifiedIsDistinct(names: seq<string>, words: seq<string>)
    requires NoRepeats(names) && Words(words) && forall i :: 0 <= i < |names| ==> Unseparated(names[i])
    ensures NoRepeats(Qualified(names, words))
    ensures forall t :: t in Qualified(names, words) ==>
      Unseparated(t) && exists n, w :: n in names && w in words && t == n + "." + w
  {
    if names != [] {
      QualifiedIsDistinct(names[1..], words);
      var first, rest := Each(names[0], words), Qualified(names[1..], words);
      forall i | 0 <= i < |first| ensures Unseparated(first[i]) && names[0] in names && words[i] in words { }
      forall i, j | 0 <= i < j < |first| ensures first[i] != first[j] {
        if first[i] == first[j] { DottedIsInjective(names[0], words[i], names[0], words[j]); }
      }
      forall i, t | 0 <= i < |first| && t in rest ensures first[i] != t {
        var n, w :| n in names[1..] && w in words && t == n + "." + w;
        if first[i] == t { DottedIsInjective(names[0], words[i], n, w); }
      }
      DisjointAppendOf(first, rest);
      forall t | t in first + rest
        ensures Unseparated(t) && exists n, w :: n in names && w in words && t == n + "." + w
      {
        if t in first {
          var i :| 0 <= i < |first| && first[i] == t;
          assert t == names[0] + "." + words[i];
        } else {
          var n, w :| n in names[1..] && w in words && t == n + "." + w;
          assert n in names;
        }
      }
    }
  }

  lemma DisjointAppendOf(a: seq<string>, b: seq<string>)
    requires NoRepeats(a) && NoRepeats(b) && forall i, t :: 0 <= i < |a| && t in b ==> a[i] != t
    ensures NoRepeats(a + b)
  {
    assert Elements(a) !! Elements(b);
    DisjointAppend(a, b);
  }

  lemma {:induction false} ExpandedIsDistinct(names: seq<string>, qualifiers: seq<seq<string>>, stem: string)
    requires NoRepeats(names) && forall i :: 0 <= i < |names| ==> Unseparated(names[i]) && Stem(names[i]) == stem
    requires forall i :: 0 <= i < |qualifiers| ==> Words(qualifiers[i])
    ensures NoRepeats(Expanded(names, qualifiers))
    ensures forall t :: t in Expanded(names, qualifiers) ==> Unseparated(t) && Stem(t) == stem
    decreases |qualifiers|
  {
    if qualifiers != [] {
      var more := Qualified(names, qualifiers[0]);
      QualifiedIsDistinct(names, qualifiers[0]);
      forall i | 0 <= i < |more| ensures Unseparated(more[i]) && Stem(more[i]) == stem {
        assert more[i] in more;
        var n, w :| n in names && w in qualifiers[0] && more[i] == n + "." + w;
        StemOfDotted(n, w);
      }
      ExpandedIsDistinct(more, qualifiers[1..], stem);
    }
  }

  lemma {:induction false} WrittenIsWellFormed(events: seq<Event>)
    requires WellFormedEvents(events)
    ensures WellFormed(Written(events))
    ensures forall t :: t in Written(events) ==> exists i :: 0 <= i < |events| && Stem(t) == events[i].name
  {
    if events != [] {
      var ev, rest := events[0], Written(events[1..]);
      WrittenIsWellFormed(events[1..]);
      assert Stem(ev.name) == ev.name;
      var first := Expanded([ev.name], ev.qualifiers);
      ExpandedIsDistinct([ev.name], ev.qualifiers, ev.name);
      forall i, t | 0 <= i < |first| && t in rest ensures first[i] != t {
        assert first[i] in first;
        var k :| 0 <= k < |events[1..]| && Stem(t) == events[1..][k].name;
        assert events[k + 1].name != ev.name;
      }
      DisjointAppendOf(first, rest);
      forall i | 0 <= i < |first + rest| ensures Unseparated((first + rest)[i]) {
        if i < |first| { assert first[i] in first; } else { assert (first + rest)[i] == rest[i - |first|]; }
      }
      forall t | t in first + rest ensures exists i :: 0 <= i < |events| && Stem(t) == events[i].name {
        if t in first {
          assert Stem(t) == events[0].name;
        } else {
          var k :| 0 <= k < |events[1..]| && Stem(t) == events[1..][k].name;
          assert events[k + 1].name == Stem(t);
        }
      }
    }
  }

  lemma QualifiersAreWords()
    ensures forall i :: 0 <= i < 16 ==>
      forall q :: 0 <= q < |EVENT_QUALIFIERS[i]| ==> Words(EVENT_QUALIFIERS[i][q])
  {
    hide Words;
    hide DRIVERS, RADIO_REASONS, SOUND_HOSTS, SOUND_REASONS, INSTALL_REASONS, LOAD_REASONS, SLOW_PLACES;
    hide RECOVERED_WHAT, HEALTH_SLOW_TIERS;
    AllAreWords();
  }

  lemma EventsAreWellFormed()
    ensures WellFormedEvents(HEALTH_EVENTS)
  {
    hide Word, Words, EVENT_QUALIFIERS, EVENT_NAMES;
    NamesAreWords();
    QualifiersAreWords();
  }

  lemma NamesAreWords()
    ensures |EVENT_NAMES| == 16
    ensures forall i :: 0 <= i < 16 ==> Word(EVENT_NAMES[i])
    ensures forall i, j :: 0 <= i < j < 16 ==> EVENT_NAMES[i] != EVENT_NAMES[j]
  {
    hide Word;
    AllAreWords();
  }

  /** The theorems apply: the Worker's vocabulary has no repeats and no separators in its tokens. */
  lemma VocabularyIsWellFormed()
    ensures WellFormed(Written(HEALTH_EVENTS))
  {
    hide Word, Words, Written, EVENT_QUALIFIERS, EVENT_NAMES;
    EventsAreWellFormed();
    WrittenIsWellFormed(HEALTH_EVENTS);
  }

  /** So the Worker's parser is idempotent and never lengthens, over its own vocabulary. */
  lemma WorkerParse(v: string)
    ensures var voc := Written(HEALTH_EVENTS);
      Parse(voc, v).Some? ==>
      && Parse(voc, Parse(voc, v).value.text) == Parse(voc, v)
      && |Parse(voc, v).value.text| <= |v|
  {
    hide Written;
    VocabularyIsWellFormed();
    ParseIsIdempotent(Written(HEALTH_EVENTS), v);
    ParseNeverLengthens(Written(HEALTH_EVENTS), v);
  }

  // ----- the caps can be passed -------------------------------------------------------------

  lemma {:induction false} QualifiedHolds(names: seq<string>, words: seq<string>, n: string, w: string)
    requires n in names && w in words
    ensures n + "." + w in Qualified(names, words)
  {
    if n == names[0] {
      var i :| 0 <= i < |words| && words[i] == w;
      assert Each(names[0], words)[i] == n + "." + w;
    } else {
      QualifiedHolds(names[1..], words, n, w);
    }
  }

  lemma {:induction false} WrittenHolds(events: seq<Event>, i: nat, t: string)
    requires i < |events| && t in Expanded([events[i].name], events[i].qualifiers)
    ensures t in Written(events)
  {
    if i > 0 { WrittenHolds(events[1..], i - 1, t); }
  }

  /** A driver's busy radio. */
  function BusyToken(driver: string): string { "radio_fail." + driver + ".busy" }

  lemma BusyIsWritten(driver: string)
    requires driver in DRIVERS
    ensures BusyToken(driver) in Written(HEALTH_EVENTS)
    ensures IsRadioFail(BusyToken(driver)) && FamilyOf(BusyToken(driver)) == Base
  {
    hide DRIVERS, Written, Qualified;
    assert "busy" == RADIO_REASONS[0];
    QualifiedHolds(["radio_fail"], DRIVERS, "radio_fail", driver);
    QualifiedHolds(Qualified(["radio_fail"], DRIVERS), RADIO_REASONS, "radio_fail" + "." + driver, "busy");
    assert "radio_fail" + "." + driver + "." + "busy" == BusyToken(driver);
    ExpandedTwice(["radio_fail"], DRIVERS, RADIO_REASONS);
    assert BusyToken(driver)[0] == 'r' && BusyToken(driver)[1] == 'a';
    WrittenHolds(HEALTH_EVENTS, 3, BusyToken(driver));
  }

  lemma ExpandedTwice(names: seq<string>, a: seq<string>, b: seq<string>)
    ensures Expanded(names, [a, b]) == Qualified(Qualified(names, a), b)
  {
    hide Qualified;
    assert [a, b][1..] == [b] && [b][1..] == [];
    assert Expanded(Qualified(names, a), [b]) == Qualified(Qualified(names, a), b);
  }

  lemma BusyTokensDiffer(d: string, e: string)
    requires d != e
    ensures BusyToken(d) != BusyToken(e)
  {
    assert BusyToken(d)[11..|BusyToken(d)| - 5] == d;
    assert BusyToken(e)[11..|BusyToken(e)| - 5] == e;
  }

  function BusyPieces(n: nat): seq<string>
    requires n <= |DRIVERS|
  {
    seq(n, i requires 0 <= i < n => Piece(BusyToken(DRIVERS[i]), 1))
  }

  lemma BusyIsRead(i: nat)
    requires i < |DRIVERS|
    ensures ReadPiece(Written(HEALTH_EVENTS), Piece(BusyToken(DRIVERS[i]), 1)) == Some((BusyToken(DRIVERS[i]), 1))
    ensures ',' !in Piece(BusyToken(DRIVERS[i]), 1)
  {
    hide DRIVERS, Written, BusyToken, Piece, ReadPiece;
    VocabularyIsWellFormed();
    BusyIsWritten(DRIVERS[i]);
    PieceReadsBack(Written(HEALTH_EVENTS), BusyToken(DRIVERS[i]), 1);
  }

  /** The radio failures of n drivers are n different tokens. */
  lemma {:induction false} BusyRadioTokens(n: nat)
    requires n <= |DRIVERS|
    ensures |RadioTokens(Written(HEALTH_EVENTS), BusyPieces(n))| >= n
  {
    hide DRIVERS, Written, BusyToken, Piece, ReadPiece, FamilyOf, IsRadioFail;
    var voc := Written(HEALTH_EVENTS);
    if n > 0 {
      BusyRadioTokens(n - 1);
      var t, fewer, more := BusyToken(DRIVERS[n - 1]), BusyPieces(n - 1), BusyPieces(n);
      BusyIsRead(n - 1);
      BusyIsWritten(DRIVERS[n - 1]);
      assert more[n - 1] == Piece(t, 1);
      forall u | u in RadioTokens(voc, fewer) + {t} ensures u in RadioTokens(voc, more) {
        if u != t {
          var i :| 0 <= i < n - 1 && ReadPiece(voc, fewer[i]).Some? && ReadPiece(voc, fewer[i]).value.0 == u;
          assert more[i] == fewer[i];
        }
      }
      forall i | 0 <= i < n - 1 && ReadPiece(voc, fewer[i]).Some? ensures ReadPiece(voc, fewer[i]).value.0 != t {
        BusyIsRead(i);
        AllAreWords();
        BusyTokensDiffer(DRIVERS[i], DRIVERS[n - 1]);
      }
      SubsetSize(RadioTokens(voc, fewer) + {t}, RadioTokens(voc, more));
    }
  }

  lemma {:induction false} SizeBound(pieces: seq<string>, most: nat)
    requires forall i :: 0 <= i < |pieces| ==> |pieces[i]| < most
    ensures Size(pieces) <= |pieces| * most
  {
    if pieces != [] { SizeBound(pieces[1..], most); }
  }

  /** Nine busy radios: a text the Worker reads, whose record depends on the order of its pieces. */
  lemma WorkerOrderMatters() returns (v: string, w: string)
    ensures |v| <= MAX_HEALTH_CHARS && multiset(Split(v, ',')) == multiset(Split(w, ','))
    ensures Parse(Written(HEALTH_EVENTS), v) != Parse(Written(HEALTH_EVENTS), w)
  {
    hide DRIVERS, Written, BusyToken, Piece, ReadPiece, Parse, Split, Join, RadioTokens, BaseTokens;
    NineDrivers();
    var pieces := BusyPieces(9);
    forall i | 0 <= i < 9 ensures ',' !in pieces[i] { BusyIsRead(i); }
    v := Join(pieces, ',');
    SplitOfJoin(pieces, ',');
    JoinSize(pieces, ',');
    SizeBound(pieces, 40);
    BusyRadioTokens(9);
    w := OrderMatters(Written(HEALTH_EVENTS), v);
  }

  lemma NineDrivers()
    ensures |DRIVERS| == 14
    ensures forall i :: 0 <= i < 9 ==> |Piece(BusyToken(DRIVERS[i]), 1)| < 40
  {
    assert Decimal(1) == "1";
    assert forall i :: 0 <= i < 9 ==> |DRIVERS[i]| < 10;
  }
}
