/** The table the generator prints is the table the application reads. */
module AirbandTableProofs {
  import opened Sorting
  import opened Decimals
  import opened Texts
  import opened AirbandTable
  import opened Wrappers
  import opened Sequences

  // ----- cleaned text -----------------------------------------------------------------------

  /** A text with no whitespace in it. */
  predicate Solid(s: string) { s != "" && forall i :: 0 <= i < |s| ==> !IsSpace(s[i]) }

  /** Cleaned text: the only whitespace is single spaces, and none at either end. */
  ghost predicate Neat(s: string)
  {
    && (forall i :: 0 <= i < |s| && IsSpace(s[i]) ==> s[i] == ' ')
    && (s != "" ==> !IsSpace(s[0]) && !IsSpace(s[|s| - 1]))
    && (forall i :: 0 < i < |s| && s[i] == ' ' ==> s[i - 1] != ' ')
  }

  lemma {:induction false} WordsAreSolid(t: string)
    ensures forall i :: 0 <= i < |Words(t)| ==> Solid(Words(t)[i])
    decreases |t|
  {
    if t != "" {
      if IsSpace(t[0]) {
        WordsAreSolid(t[1..]);
      } else {
        WordsAreSolid(t[WordEnd(t)..]);
      }
    }
  }

  lemma {:induction false} JoinIsNeat(words: seq<string>)
    requires forall i :: 0 <= i < |words| ==> Solid(words[i])
    ensures Neat(Join(words, ' '))
    ensures words != [] ==> Join(words, ' ') != ""
  {
    if |words| > 1 { JoinIsNeat(words[1..]); }
  }

  lemma CleanIsNeat(t: string)
    ensures Neat(Clean(t))
  {
    WordsAreSolid(Flattened(t));
    JoinIsNeat(Words(Flattened(t)));
  }

  predicate Blanks(w: string) { forall i :: 0 <= i < |w| ==> IsSpace(w[i]) }

  /** Whitespace parts the words of a text and is no part of any. */
  lemma {:induction false} WordsPart(a: string, w: string, b: string)
    requires w != "" && Blanks(w)
    ensures Words(a + w + b) == Words(a) + Words(b)
    decreases |a|, |w|
  {
    var t := a + w + b;
    if a == "" {
      assert t[0] == w[0] && t[1..] == w[1..] + b;
      if |w| > 1 { WordsPart("", w[1..], b); }
      assert "" + w[1..] + b == w[1..] + b;
      assert |w| == 1 ==> w[1..] + b == b;
    } else if IsSpace(a[0]) {
      assert t[0] == a[0] && t[1..] == a[1..] + w + b;
      WordsPart(a[1..], w, b);
    } else {
      WordEndBefore(a, w, b);
      var n := WordEnd(a);
      assert t[..n] == a[..n] && t[n..] == a[n..] + w + b && t[0] == a[0];
      WordsPart(a[n..], w, b);
      assert Words(t) == [a[..n]] + Words(a[n..] + w + b);
    }
  }

  lemma WordEndBefore(a: string, w: string, b: string)
    requires a != "" && !IsSpace(a[0]) && w != "" && Blanks(w)
    ensures WordEnd(a + w + b) == WordEnd(a) > 0
  {
    var t, n := a + w + b, WordEnd(a);
    assert forall i :: 0 <= i < |a| ==> t[i] == a[i];
    assert t[|a|] == w[0];
    assert IsSpace(t[n]) && forall i :: 0 <= i < n ==> !IsSpace(t[i]);
  }

  /** What cleaning does, from the pieces of any text: a word stays, whitespace alone goes, and whitespace
      between two texts is one space between them, or none where nothing is left of one of them. */
  lemma CleanWord(t: string)
    requires Solid(t)
    ensures Clean(t) == t
  {
    Whitespace();
    assert Flattened(t) == t;
    assert WordEnd(t) == |t|;
    assert t[..|t|] == t && t[|t|..] == "";
    assert Words(t) == [t];
  }

  lemma CleanBlanks(w: string)
    requires Blanks(w)
    ensures Clean(w) == ""
  {
    FlattenedBlanks(w);
    NoWords(Flattened(w));
  }

  lemma FlattenedBlanks(w: string)
    ensures Blanks(w) ==> Blanks(Flattened(w))
  {
    Whitespace();
  }

  lemma {:induction false} NoWords(w: string)
    requires Blanks(w)
    ensures Words(w) == []
  {
    if w != "" { NoWords(w[1..]); }
  }

  lemma CleanParts(a: string, w: string, b: string)
    requires w != "" && Blanks(w)
    ensures Clean(a + w + b) ==
      if Clean(a) == "" then Clean(b) else if Clean(b) == "" then Clean(a) else Clean(a) + " " + Clean(b)
  {
    hide Words, Blanks, Flattened, Solid;
    FlattenedParts(a, w, b);
    FlattenedBlanks(w);
    WordsPart(Flattened(a), Flattened(w), Flattened(b));
    WordsAreSolid(Flattened(a));
    WordsAreSolid(Flattened(b));
    var p, q := Words(Flattened(a)), Words(Flattened(b));
    JoinIsNeat(p);
    JoinIsNeat(q);
    if p != [] && q != [] { JoinOfTwo(p, q); }
    assert [] + q == q && p + [] == p;
  }

  lemma FlattenedParts(a: string, w: string, b: string)
    ensures Flattened(a + w + b) == Flattened(a) + Flattened(w) + Flattened(b)
    ensures |Flattened(w)| == |w|
  {
  }

  lemma {:induction false} JoinOfTwo(p: seq<string>, q: seq<string>)
    requires p != [] && q != []
    ensures Join(p + q, ' ') == Join(p, ' ') + " " + Join(q, ' ')
  {
    if |p| > 1 {
      JoinOfTwo(p[1..], q);
      assert (p + q)[1..] == p[1..] + q;
    } else {
      assert (p + q)[1..] == q;
    }
  }

  /** What counts as whitespace. */
  lemma Whitespace()
    ensures forall c: char :: IsSpace(c) <==>
      (c as int) in [9, 10, 11, 12, 13, 28, 29, 30, 31, 32, 133, 160, 5760, 8192, 8193, 8194, 8195, 8196, 8197, 8198,
                     8199, 8200, 8201, 8202, 8232, 8233, 8239, 8287, 12288]
  {
  }

  /** The cut keeps the first 160 characters. */
  lemma CutIsPrefix(s: string)
    ensures Cut(s) <= s && |Cut(s)| == if |s| < 160 then |s| else 160
  {
  }

  predicate Edging(w: string) { forall i :: 0 <= i < |w| ==> w[i] == ' ' || w[i] == '\t' || w[i] == '\r' }

  /** Trimming takes every space, tab and carriage return off both ends, and nothing else. */
  lemma TrimTakes(s: string) returns (front: string, back: string)
    ensures s == front + Trim(s) + back && Edging(front) && Edging(back)
    ensures Trim(s) != "" ==> !Edging(Trim(s)[..1]) && !Edging(Trim(s)[|Trim(s)| - 1..])
  {
    front := FrontTaken(s);
    var t := TrimFront(s);
    back := BackTaken(t);
    if Trim(s) != "" { assert Trim(s)[0] == t[0]; }
    assert front + t == front + Trim(s) + back;
  }

  lemma {:induction false} FrontTaken(s: string) returns (front: string)
    ensures s == front + TrimFront(s) && Edging(front)
    ensures TrimFront(s) != "" ==> !Edging(TrimFront(s)[..1])
  {
    if s != "" && Trimmed(s[0]) {
      front := FrontTaken(s[1..]);
      front := [s[0]] + front;
      assert s == [s[0]] + s[1..];
    } else {
      front := "";
    }
  }

  lemma {:induction false} BackTaken(s: string) returns (back: string)
    ensures s == TrimBack(s) + back && Edging(back)
    ensures TrimBack(s) != "" ==> !Edging(TrimBack(s)[|TrimBack(s)| - 1..])
  {
    if s != "" && Trimmed(s[|s| - 1]) {
      back := BackTaken(s[..|s| - 1]);
      back := back + [s[|s| - 1]];
      assert s == s[..|s| - 1] + [s[|s| - 1]];
    } else {
      back := "";
    }
  }

  /** Holds neither of the separators the table is built with. */
  predicate Field(s: string) { '\t' !in s && '\n' !in s }

  lemma SolidIsField(s: string)
    requires Solid(s)
    ensures Field(s)
  {
    assert IsSpace('\t') && IsSpace('\n');
  }

  lemma TrimKeeps(s: string)
    requires s != "" ==> !IsSpace(s[0]) && !IsSpace(s[|s| - 1])
    ensures Trim(s) == s
  {
  }

  /** The cut to 160 characters can leave one space at the end, which the parser takes off; nothing
      else of a description is lost. */
  lemma DescriptionLosesAtMostASpace(t: string)
    ensures var c := Cut(Clean(t));
      Trim(c) == c || (c[|c| - 1] == ' ' && Trim(c) == c[..|c| - 1])
  {
    CleanIsNeat(t);
    var s := Clean(t);
    var c := Cut(s);
    if |s| > MAX_DESCRIPTION && Trimmed(c[|c| - 1]) {
      assert c[|c| - 1] == s[|c| - 1] == ' ';
      assert c[|c| - 2] == s[|c| - 2] != ' ';
      assert TrimFront(c) == c;
      assert TrimBack(c) == TrimBack(c[..|c| - 1]);
    }
  }

  // ----- numbers ----------------------------------------------------------------------------

  lemma FixedIsSolid(n: Coordinate)
    ensures Solid(Fixed4(n))
  {
  }

  lemma DecimalIsSolid(n: nat)
    ensures Solid(Decimal(n))
  {
  }

  lemma ParsesWhole(lib: Library, s: string)
    requires s != "" && AllDigits(s) && IsDigit(s[0]) && Trim(s) == s && Value(s) < INT_SPAN / 2
    ensures ParseInt(lib, s) == Some(Value(s))
  {
    hide Trim, AllDigits, Value;
    assert SkipSpace(s) == s;
    hide SkipSpace;
  }

  lemma ChannelReadsBack(lib: Library, k: nat)
    requires k < INT_SPAN / 2
    ensures ParseInt(lib, Decimal(k)) == Some(k)
  {
    hide Trim, Value, ParseInt;
    DecimalIsSolid(k);
    TrimKeeps(Decimal(k));
    ValueOfDecimal(k);
    ParsesWhole(lib, Decimal(k));
  }

  lemma {:induction false} ValueOfTwo(a: string, b: string)
    requires AllDigits(a) && AllDigits(b)
    ensures AllDigits(a + b) && Value(a + b) == Value(a) * Pow10(|b|) + Value(b)
    decreases |b|
  {
    if b == "" {
      assert a + b == a;
    } else {
      var n := |b| - 1;
      ValueOfTwo(a, b[..n]);
      hide Value, AllDigits;
      assert (a + b)[..|a + b| - 1] == a + b[..n];
      TenTimes(Value(a), Pow10(n));
    }
  }

  lemma TenTimes(v: nat, p: nat)
    ensures v * (10 * p) == (v * p) * 10
  {
  }

  lemma FourDigitsAre(n: nat)
    requires n < 10000
    ensures AllDigits(FourDigits(n)) && Value(FourDigits(n)) == n
  {
    hide Digit;
    DigitIs(n / 1000);
    DigitIs(n / 100 % 10);
    DigitIs(n / 10 % 10);
    DigitIs(n % 10);
    var s := FourDigits(n);
    assert s[..3] == [s[0], s[1], s[2]] && s[..3][..2] == [s[0], s[1]];
    assert s[..3][..2][..1] == [s[0]] && s[..3][..2][..1][..0] == [];
    assert Value(s[..3][..2][..1]) == n / 1000;
    assert Value(s[..3][..2]) == n / 100;
    assert Value(s[..3]) == n / 10;
  }

  lemma DigitIs(d: nat)
    requires d < 10
    ensures IsDigit(Digit(d)) && DigitValue(Digit(d)) == d
  {
  }

  lemma TenThousand()
    ensures Pow10(4) == 10000
  {
    assert Pow10(2) == 100;
  }

  /** What was printed to four places reads back exactly. */
  lemma FixedReadsBack(c: Coordinate)
    ensures PlainDecimal(Fixed4(c)) == Some(c.Degrees())
  {
    hide *;
    var w, f := Decimal(c.tenThousandths / 10000), FourDigits(c.tenThousandths % 10000);
    FixedParts(c, w, f);
    var t := w + ['.'] + f;
    var v := c.tenThousandths as real / 10000.0;
    assert PlainUnsigned(t) == Some(v) by { UnsignedReads(c.tenThousandths, w, f); }
    SignedReads(t, c.negative, v);
    DegreesAre(c);
  }

  lemma FixedParts(c: Coordinate, w: string, f: string)
    requires w == Decimal(c.tenThousandths / 10000) && f == FourDigits(c.tenThousandths % 10000)
    ensures Fixed4(c) == if c.negative then ['-'] + (w + ['.'] + f) else w + ['.'] + f
    ensures w != "" && AllDigits(w) && IsDigit(w[0])
  {
    hide Decimal, FourDigits;
  }

  lemma DegreesAre(c: Coordinate)
    ensures c.Degrees() ==
      if c.negative then -(c.tenThousandths as real / 10000.0) else c.tenThousandths as real / 10000.0
  {
  }

  lemma SignedReads(t: string, negative: bool, v: real)
    requires t != "" && IsDigit(t[0]) && PlainUnsigned(t) == Some(v)
    ensures PlainDecimal(if negative then ['-'] + t else t) == Some(if negative then -v else v)
  {
    hide PlainUnsigned;
    assert (['-'] + t)[1..] == t;
  }

  lemma UnsignedReads(n: nat, w: string, f: string)
    requires w == Decimal(n / 10000) && f == FourDigits(n % 10000)
    ensures w + ['.'] + f != "" && (w + ['.'] + f)[0] == w[0]
    ensures PlainUnsigned(w + ['.'] + f) == Some(n as real / 10000.0)
  {
    hide *;
    FourDigitsAre(n % 10000);
    ValueOfTwo(w, f);
    ValueOfDecimal(n / 10000);
    TenThousand();
    FourLong(n % 10000);
    PointReads(w, f);
    assert n / 10000 * 10000 + n % 10000 == n;
  }

  lemma PointReads(w: string, f: string)
    requires w != "" && AllDigits(w) && AllDigits(f) && AllDigits(w + f)
    ensures PlainUnsigned(w + ['.'] + f) == Some(Value(w + f) as real / Pow10(|f|) as real)
    ensures (w + ['.'] + f)[0] == w[0]
  {
    hide Value, Pow10, AllDigits;
    DigitsHoldNoPoint(w);
    IndexOfFirst(w, '.', f);
    var t := w + ['.'] + f;
    assert t[..|w|] == w && t[|w| + 1..] == f;
  }

  lemma FourLong(n: nat)
    requires n < 10000
    ensures |FourDigits(n)| == 4
  {
  }

  lemma DigitsHoldNoPoint(w: string)
    requires AllDigits(w)
    ensures '.' !in w
  {
  }

  lemma CoordinateReadsBack(lib: Library, c: Coordinate)
    ensures ParseDouble(lib, Fixed4(c)) == Some(c.Degrees())
  {
    hide Trim, PlainDecimal;
    FixedIsSolid(c);
    TrimKeeps(Fixed4(c));
    FixedReadsBack(c);
  }

  // ----- what is expected -------------------------------------------------------------------

  predicate Good(r: Row)
  {
    Clean(r.ident) != "" && r.lat.tenThousandths <= 900000 && r.lon.tenThousandths <= 1800000
  }

  /** The frequency a channel's name in kHz stands for: names ending in 5, 10 or 15 within a slot of 25 kHz
      are thirds of the slot, each 5 of the name being 25/3 kHz, from the slot's own frequency up; any
      other name is its own frequency. */
  function NamedHz(khz: int): real
  {
    var past := khz % 25;
    if past in {5, 10, 15} then (3000 * (khz - past) + 5000 * (past - 5)) as real / 3.0 else (1000 * khz) as real
  }

  lemma ChannelIsNamed(khz: int)
    ensures ChannelHz(khz) == NamedHz(khz)
  {
  }

  /** The three thirds of a slot, named 5, 10 and 15, are 25/3 kHz apart, the first on the slot's own
      frequency. */
  lemma ThirdsOfASlot(slot: int)
    requires slot % 25 == 0
    ensures ChannelHz(slot + 5) == ChannelHz(slot) == slot as real * 1000.0
    ensures 3.0 * (ChannelHz(slot + 10) - ChannelHz(slot + 5)) == 25000.0
    ensures 3.0 * (ChannelHz(slot + 15) - ChannelHz(slot + 10)) == 25000.0
    ensures ChannelHz(slot + 20) == ChannelHz(slot) + 20000.0
  {
  }

  function FreqFrom(f: FreqRow): Freq
  {
    Freq(f.khz, NamedHz(f.khz), Clean(f.typ), Trim(Cut(Clean(f.desc))))
  }

  function FreqsFrom(freqs: seq<FreqRow>): seq<Freq>
  {
    seq(|freqs|, i requires 0 <= i < |freqs| => FreqFrom(freqs[i]))
  }

  function AirportFrom(r: Row): Airport
  {
    Airport(Clean(r.ident), Clean(r.iata), Clean(r.local), Clean(r.country), Clean(r.name),
            r.lat.Degrees(), r.lon.Degrees(), FreqsFrom(r.freqs))
  }

  function Expected(rows: seq<Row>): seq<Airport>
  {
    if rows == [] then []
    else (if Good(rows[0]) then [AirportFrom(rows[0])] else []) + Expected(rows[1..])
  }

  /** A bad airport line takes its frequency lines with it. */
  function Skips(rows: seq<Row>): nat
  {
    if rows == [] then 0
    else (if Good(rows[0]) then 0 else 1 + |rows[0].freqs|) + Skips(rows[1..])
  }

  /** What the generator's dictionary, sorted, gives: channels strictly ascending, in the airband. */
  predicate WellGathered(r: Row)
  {
    && (forall i :: 0 <= i < |r.freqs| ==> 0 < r.freqs[i].khz < INT_SPAN / 2)
    && forall i, j :: 0 <= i < j < |r.freqs| ==> r.freqs[i].khz < r.freqs[j].khz
  }

  // ----- one line ---------------------------------------------------------------------------

  lemma {:induction false} JoinedHas(pieces: seq<string>, c: char, d: char)
    requires c != d && forall i :: 0 <= i < |pieces| ==> d !in pieces[i]
    ensures d !in Join(pieces, c)
  {
    if |pieces| > 1 {
      JoinedHas(pieces[1..], c, d);
    }
  }

  lemma {:induction false} TrimBackKeepsSome(s: string)
    requires s != "" && !Trimmed(s[0])
    ensures TrimBack(s) != ""
  {
    if Trimmed(s[|s| - 1]) {
      TrimBackKeepsSome(s[..|s| - 1]);
    }
  }

  /** A line of tab-separated fields starting with a letter is split back into its fields. */
  lemma FieldsReadBack(lib: Library, st: State, fields: seq<string>, line: string)
    requires Sound(st) && |fields| > 1 && line == Join(fields, '\t')
    requires forall i :: 0 <= i < |fields| ==> Field(fields[i])
    requires fields[0] == "A" || fields[0] == "F"
    ensures '\n' !in line
    ensures ReadLine(lib, st, line) ==
      if fields[0] == "A" && |fields| >= 8 then AirportFields(lib, st, fields)
      else if fields[0] == "F" && |fields| >= 3 then FreqFields(lib, st, fields)
      else Skip(st)
  {
    hide AirportFields, FreqFields, Field;
    forall i | 0 <= i < |fields| ensures '\t' !in fields[i] && '\n' !in fields[i] { FieldHas(fields[i]); }
    SplitOfJoin(fields, '\t');
    JoinedHas(fields, '\t', '\n');
    assert line[0] == fields[0][0];
    TrimBackKeepsSome(line);
    assert TrimFront(line) == line;
  }

  lemma FieldHas(s: string)
    requires Field(s)
    ensures '\t' !in s && '\n' !in s
  {
  }

  lemma AirportLineReads(lib: Library, st: State, r: Row)
    requires Sound(st)
    ensures '\n' !in AirportLine(r)
    ensures ReadLine(lib, st, AirportLine(r)) ==
      if Good(r) then st.(out := st.out + [AirportFrom(r).(freqs := [])], haveAirport := true) else Lost(st)
  {
    hide Clean, Fixed4, Neat, Solid, Field, ReadLine;
    var fields := ["A", Clean(r.ident), Clean(r.iata), Clean(r.local), Clean(r.country), Fixed4(r.lat), Fixed4(r.lon),
                   Clean(r.name)];
    AirportFieldsAre(r, fields);
    FieldsReadBack(lib, st, fields, AirportLine(r));
    CoordinateReadsBack(lib, r.lat);
    CoordinateReadsBack(lib, r.lon);
    TrimClean(r.ident);
    TrimClean(r.iata);
    TrimClean(r.local);
    TrimClean(r.country);
    TrimClean(r.name);
  }

  lemma TrimClean(t: string)
    ensures Trim(Clean(t)) == Clean(t)
  {
    hide Clean;
    CleanIsNeat(t);
  }

  lemma CleanIsField(t: string)
    ensures Field(Clean(t))
  {
    hide Clean;
    CleanIsNeat(t);
  }

  lemma AirportFieldsAre(r: Row, fields: seq<string>)
    requires fields == ["A", Clean(r.ident), Clean(r.iata), Clean(r.local), Clean(r.country), Fixed4(r.lat),
                        Fixed4(r.lon), Clean(r.name)]
    ensures forall i :: 0 <= i < |fields| ==> Field(fields[i])
  {
    hide Clean, Fixed4, Field;
    CleanIsField(r.ident);
    CleanIsField(r.iata);
    CleanIsField(r.local);
    CleanIsField(r.country);
    CleanIsField(r.name);
    FixedIsSolid(r.lat);
    FixedIsSolid(r.lon);
    SolidIsField(Fixed4(r.lat));
    SolidIsField(Fixed4(r.lon));
    LetterIsField();
  }

  lemma LetterIsField()
    ensures Field("A") && Field("F")
  {
  }

  lemma CutIsField(s: string)
    requires Field(s)
    ensures Field(Cut(s))
  {
  }

  lemma FreqLineReads(lib: Library, st: State, f: FreqRow)
    requires Sound(st) && 0 < f.khz < INT_SPAN / 2
    ensures '\n' !in FreqLine(f)
    ensures ReadLine(lib, st, FreqLine(f)) == if st.haveAirport then AddFreq(st, FreqFrom(f)) else Skip(st)
  {
    hide Clean, Cut, Neat, Solid, Field, ReadLine, ChannelHz, NamedHz;
    ChannelIsNamed(f.khz);
    var fields := ["F", Decimal(f.khz), Clean(f.typ), Cut(Clean(f.desc))];
    LetterIsField();
    DecimalIsSolid(f.khz);
    SolidIsField(Decimal(f.khz));
    CleanIsField(f.typ);
    CleanIsField(f.desc);
    CutIsField(Clean(f.desc));
    FieldsReadBack(lib, st, fields, FreqLine(f));
    ChannelReadsBack(lib, f.khz);
    TrimClean(f.typ);
  }

  // ----- the whole table --------------------------------------------------------------------

  lemma ReadOneLine(lib: Library, st: State, line: string, rest: string)
    requires Sound(st) && '\n' !in line
    ensures Read(lib, st, line + "\n" + rest) == Read(lib, ReadLine(lib, st, line), rest)
  {
    hide ReadLine;
    assert line + "\n" + rest == line + ['\n'] + rest;
    IndexOfFirst(line, '\n', rest);
  }

  lemma {:induction false} FreqTextReads(lib: Library, st: State, freqs: seq<FreqRow>, rest: string)
    requires Sound(st) && forall i :: 0 <= i < |freqs| ==> 0 < freqs[i].khz < INT_SPAN / 2
    ensures Read(lib, st, FreqText(freqs) + rest) ==
      Read(lib, if st.haveAirport then AddAll(st, FreqsFrom(freqs)) else st.(bad := st.bad + |freqs|), rest)
    decreases |freqs|
  {
    hide Read, ReadLine, FreqLine, FreqFrom;
    if freqs == [] {
      assert FreqText(freqs) + rest == rest;
      if st.haveAirport { AddNone(st); }
    } else {
      var f := freqs[0];
      assert FreqText(freqs) + rest == FreqLine(f) + "\n" + (FreqText(freqs[1..]) + rest);
      FreqLineReads(lib, st, f);
      ReadOneLine(lib, st, FreqLine(f), FreqText(freqs[1..]) + rest);
      var st1 := if st.haveAirport then AddFreq(st, FreqFrom(f)) else Skip(st);
      FreqTextReads(lib, st1, freqs[1..], rest);
      assert FreqsFrom(freqs) == [FreqFrom(f)] + FreqsFrom(freqs[1..]);
      if st.haveAirport { AddTwice(st, FreqFrom(f), FreqsFrom(freqs[1..])); }
    }
  }

  /** The last airport, given more frequencies. */
  function AddAll(st: State, qs: seq<Freq>): State
    requires st.out != []
  {
    var n := |st.out| - 1;
    st.(out := st.out[n := st.out[n].(freqs := st.out[n].freqs + qs)])
  }

  lemma AddNone(st: State)
    requires st.out != []
    ensures AddAll(st, FreqsFrom([])) == st
  {
    var n := |st.out| - 1;
    assert FreqsFrom([]) == [] && st.out[n].freqs + [] == st.out[n].freqs;
    assert st.out[n := st.out[n]] == st.out;
  }

  lemma AddTwice(st: State, q: Freq, qs: seq<Freq>)
    requires st.out != []
    ensures AddAll(AddFreq(st, q), qs) == AddAll(st, [q] + qs)
  {
    var n := |st.out| - 1;
    assert (st.out[n].freqs + [q]) + qs == st.out[n].freqs + ([q] + qs);
  }

  /** What one airport's lines add: the airport, or as many skipped lines. */
  function AfterRow(st: State, r: Row): State
  {
    if Good(r) then st.(out := st.out + [AirportFrom(r)], haveAirport := true)
    else st.(bad := st.bad + 1 + |r.freqs|, haveAirport := false)
  }

  lemma RowReads(lib: Library, st: State, r: Row, rest: string)
    requires Sound(st) && WellGathered(r)
    ensures Read(lib, st, AirportLine(r) + "\n" + (FreqText(r.freqs) + rest)) == Read(lib, AfterRow(st, r), rest)
  {
    hide Read, ReadLine, AirportLine, FreqText, Good, AirportFrom, FreqsFrom, AddAll;
    AirportLineReads(lib, st, r);
    ReadOneLine(lib, st, AirportLine(r), FreqText(r.freqs) + rest);
    FreqTextReads(lib, ReadLine(lib, st, AirportLine(r)), r.freqs, rest);
    if Good(r) { AirportComplete(st, r); }
  }

  lemma {:induction false} BodyReads(lib: Library, st: State, rows: seq<Row>)
    requires Sound(st) && forall i :: 0 <= i < |rows| ==> WellGathered(rows[i])
    ensures var end := Read(lib, st, Body(rows));
      end.out == st.out + Expected(rows) && end.bad == st.bad + Skips(rows)
    decreases |rows|
  {
    hide Read, Body, Expected, Skips, WellGathered, AfterRow;
    NoRows();
    if rows == [] {
      ReadNothing(lib, st);
    } else {
      FirstRow(st, rows);
      RowReads(lib, st, rows[0], Body(rows[1..]));
      BodyReads(lib, AfterRow(st, rows[0]), rows[1..]);
    }
  }

  lemma NoRows()
    ensures Body([]) == "" && Expected([]) == [] && Skips([]) == 0
  {
  }

  lemma FirstRow(st: State, rows: seq<Row>)
    requires rows != []
    ensures Body(rows) == AirportLine(rows[0]) + "\n" + (FreqText(rows[0].freqs) + Body(rows[1..]))
    ensures AfterRow(st, rows[0]).out + Expected(rows[1..]) == st.out + Expected(rows)
    ensures AfterRow(st, rows[0]).bad + Skips(rows[1..]) == st.bad + Skips(rows)
    ensures Sound(AfterRow(st, rows[0]))
  {
    BodyUnfolds(rows);
    OutUnfolds(st, rows);
    hide Body, Expected, Good;
  }

  lemma BodyUnfolds(rows: seq<Row>)
    requires rows != []
    ensures Body(rows) == AirportLine(rows[0]) + "\n" + (FreqText(rows[0].freqs) + Body(rows[1..]))
  {
    hide AirportLine, FreqText;
    Associates(AirportLine(rows[0]) + "\n", FreqText(rows[0].freqs), Body(rows[1..]));
  }

  lemma OutUnfolds(st: State, rows: seq<Row>)
    requires rows != []
    ensures AfterRow(st, rows[0]).out + Expected(rows[1..]) == st.out + Expected(rows)
  {
    hide Good, AirportFrom;
    var kept := if Good(rows[0]) then [AirportFrom(rows[0])] else [];
    assert Expected(rows) == kept + Expected(rows[1..]);
    hide Expected;
    assert (st.out + kept) + Expected(rows[1..]) == st.out + (kept + Expected(rows[1..]));
    assert AfterRow(st, rows[0]).out == st.out + kept;
  }

  lemma AirportComplete(st: State, r: Row)
    ensures AddAll(st.(out := st.out + [AirportFrom(r).(freqs := [])], haveAirport := true), FreqsFrom(r.freqs)) ==
      st.(out := st.out + [AirportFrom(r)], haveAirport := true)
  {
    hide FreqsFrom;
    var a := AirportFrom(r).(freqs := []);
    assert a.freqs + FreqsFrom(r.freqs) == FreqsFrom(r.freqs);
    assert (st.out + [a])[|st.out| := AirportFrom(r)] == st.out + [AirportFrom(r)];
  }

  lemma {:induction false} CommentsAreSkipped(lib: Library, st: State, lines: seq<string>, rest: string)
    requires Sound(st) && forall i :: 0 <= i < |lines| ==> Comment(lines[i])
    ensures Read(lib, st, Lines(lines) + rest) == Read(lib, st, rest)
  {
    hide Read;
    if lines == [] {
      assert Lines(lines) + rest == rest;
    } else {
      assert Lines(lines) + rest == lines[0] + "\n" + (Lines(lines[1..]) + rest);
      ReadOneLine(lib, st, lines[0], Lines(lines[1..]) + rest);
      CommentsAreSkipped(lib, st, lines[1..], rest);
    }
  }

  lemma AscendingStays(r: Row)
    requires WellGathered(r)
    ensures InOrder(AirportFrom(r)) == AirportFrom(r)
  {
    hide FreqFrom;
    var qs := FreqsFrom(r.freqs);
    forall i, j | 0 <= i < j < |qs| ensures !ByChannel()(qs[j], qs[i]) {
      ChannelOf(r.freqs[i]);
      ChannelOf(r.freqs[j]);
    }
    SortKeepsSorted(qs, ByChannel());
  }

  lemma ChannelOf(f: FreqRow)
    ensures FreqFrom(f).channelKhz == f.khz
  {
  }

  lemma {:induction false} SortedStays(out: seq<Airport>)
    requires forall i :: 0 <= i < |out| ==> InOrder(out[i]) == out[i]
    ensures FreqsSorted(out) == out
  {
    hide InOrder;
    if out != [] {
      SortedStays(out[..|out| - 1]);
    }
  }

  lemma {:induction false} ExpectedIsInOrder(rows: seq<Row>)
    requires forall i :: 0 <= i < |rows| ==> WellGathered(rows[i])
    ensures forall i :: 0 <= i < |Expected(rows)| ==> InOrder(Expected(rows)[i]) == Expected(rows)[i]
  {
    hide InOrder, AirportFrom, Good;
    if rows != [] {
      ExpectedIsInOrder(rows[1..]);
      AscendingStays(rows[0]);
    }
  }

  /** Whatever airports are gathered, parsing the printed table gives back, in order, exactly those
      with an ident and coordinates in range, frequencies and all; and it counts as skipped exactly the
      lines of the others. */
  lemma TableReadsBack(lib: Library, comments: seq<string>, rows: seq<Row>)
    requires forall i :: 0 <= i < |rows| ==> WellGathered(rows[i])
    requires forall i :: 0 <= i < |comments| ==> Comment(comments[i])
    ensures FreqsSorted(Read(lib, START, Table(comments, rows)).out) == Expected(rows)
    ensures Read(lib, START, Table(comments, rows)).bad == Skips(rows)
  {
    hide Read, Lines, Body, Expected, Skips, WellGathered, Comment, InOrder, FreqsSorted;
    CommentsAreSkipped(lib, START, comments, Body(rows));
    BodyReads(lib, START, rows);
    ExpectedIsInOrder(rows);
    SortedStays(Expected(rows));
    assert START.out + Expected(rows) == Expected(rows);
  }

  /** With idents and coordinates all in order nothing is skipped. */
  lemma {:induction false} NothingIsSkipped(rows: seq<Row>)
    requires forall i :: 0 <= i < |rows| ==> Good(rows[i])
    ensures Skips(rows) == 0 && |Expected(rows)| == |rows|
    ensures forall i :: 0 <= i < |rows| ==> Expected(rows)[i] == AirportFrom(rows[i])
  {
    hide Good, AirportFrom;
    if rows != [] { NothingIsSkipped(rows[1..]); }
  }

  // ----- whatever is read -------------------------------------------------------------------

  /** Every frequency has a positive channel and is the one its channel stands for; every airport an ident
      and coordinates in range. */
  ghost predicate Tuned(out: seq<Airport>)
  {
    forall i :: 0 <= i < |out| ==>
      && out[i].ident != "" && -90.0 <= out[i].latDeg <= 90.0 && -180.0 <= out[i].lonDeg <= 180.0
      && forall j :: 0 <= j < |out[i].freqs| ==> OnItsChannel(out[i].freqs[j])
  }

  predicate OnItsChannel(q: Freq)
  {
    var past := q.channelKhz % 25;
    && q.channelKhz > 0
    && (past in {5, 10, 15} ==>
          3.0 * (q.hz - 1000.0 * (q.channelKhz - past) as real) == 5000.0 * (past - 5) as real)
    && (past !in {5, 10, 15} ==> q.hz == 1000.0 * q.channelKhz as real)
  }

  lemma NamedIsOnChannel(q: Freq)
    requires q.channelKhz > 0 && q.hz == ChannelHz(q.channelKhz)
    ensures OnItsChannel(q)
  {
  }

  lemma LineTuned(lib: Library, st: State, line: string)
    requires Sound(st) && Tuned(st.out)
    ensures Tuned(ReadLine(lib, st, line).out)
  {
    hide ParseDouble, ParseInt, Trim, ChannelHz, OnItsChannel, Split;
    if line != "" && line[0] != '#' && Trim(line) != "" {
      var f := Split(line, '\t');
      if f[0] == "F" && |f| >= 3 && st.haveAirport {
        var khz := ParseInt(lib, f[1]);
        if khz.Some? && khz.value > 0 {
          NamedIsOnChannel(Freq(khz.value, ChannelHz(khz.value), Trim(f[2]), if |f| >= 4 then Trim(f[3]) else ""));
        }
      }
    }
  }

  lemma {:induction false} ReadTuned(lib: Library, st: State, text: string)
    requires Sound(st) && Tuned(st.out)
    ensures Tuned(Read(lib, st, text).out)
    decreases |text|
  {
    hide ReadLine, Tuned;
    if text != "" {
      var nl := IndexOf(text, '\n');
      LineTuned(lib, st, text[..nl]);
      ReadTuned(lib, ReadLine(lib, st, text[..nl]), if nl < |text| then text[nl + 1..] else "");
    }
  }

  /** Sorting an airport's frequencies puts their channels in ascending order and changes nothing else. */
  lemma InOrderAscends(a: Airport)
    ensures InOrder(a) == a.(freqs := InOrder(a).freqs) && multiset(InOrder(a).freqs) == multiset(a.freqs)
    ensures forall i, j :: 0 <= i < j < |InOrder(a).freqs| ==>
      InOrder(a).freqs[i].channelKhz <= InOrder(a).freqs[j].channelKhz
  {
    SortPermutes(a.freqs, ByChannel());
    SortSorts(a.freqs, ByChannel());
    var qs := InOrder(a).freqs;
    forall i, j | 0 <= i < j < |qs| ensures qs[i].channelKhz <= qs[j].channelKhz { assert !ByChannel()(qs[j], qs[i]); }
  }

  lemma {:induction false} SortedOneByOne(out: seq<Airport>)
    ensures |FreqsSorted(out)| == |out| && forall i :: 0 <= i < |out| ==> FreqsSorted(out)[i] == InOrder(out[i])
  {
    hide InOrder;
    if out != [] { SortedOneByOne(out[..|out| - 1]); }
  }

  /** Of any text at all: every airport returned has an ident and coordinates in range, and its
      frequencies, channels ascending, are the ones their channels stand for. */
  lemma WhateverIsRead(lib: Library, text: string)
    ensures var out := FreqsSorted(Read(lib, START, text).out);
      && Tuned(out)
      && forall k, i, j | 0 <= k < |out| && 0 <= i < j < |out[k].freqs| ::
           out[k].freqs[i].channelKhz <= out[k].freqs[j].channelKhz
  {
    hide Read, InOrder, OnItsChannel;
    var read := Read(lib, START, text).out;
    var out := FreqsSorted(read);
    ReadTuned(lib, START, text);
    SortedOneByOne(read);
    forall k | 0 <= k < |out|
      ensures out[k] == InOrder(read[k]) == read[k].(freqs := out[k].freqs)
      ensures forall j :: 0 <= j < |out[k].freqs| ==> OnItsChannel(out[k].freqs[j])
      ensures forall i, j :: 0 <= i < j < |out[k].freqs| ==> out[k].freqs[i].channelKhz <= out[k].freqs[j].channelKhz
    {
      InOrderAscends(read[k]);
      MultisetMembers(out[k].freqs, read[k].freqs);
      forall j | 0 <= j < |out[k].freqs| ensures OnItsChannel(out[k].freqs[j]) {
        assert out[k].freqs[j] in read[k].freqs;
      }
    }
  }

  // ----- numbers of any kind ----------------------------------------------------------------

  /** What the whole number written is, as the platform's long and then an int hold it. */
  ghost predicate HeldAs(longIs64: bool, written: int, held: int)
  {
    if longIs64 then
      && -2147483648 <= held <= 2147483647
      && (held - (if written > 9223372036854775807 then 9223372036854775807
                  else if written < -9223372036854775808 then -9223372036854775808 else written)) % 4294967296 == 0
    else
      held == if written > 2147483647 then 2147483647 else if written < -2147483648 then -2147483648 else written
  }

  lemma IntIsHeld(lib: Library, v: int)
    ensures HeldAs(lib.longIs64, v, ToInt(Clamp(v, lib.LongMax())))
  {
  }

  predicate CBlanks(w: string) { forall i :: 0 <= i < |w| ==> (w[i] as int) in {9, 10, 11, 12, 13, 32} }

  lemma {:induction false} SkipTakes(s: string) returns (front: string)
    ensures s == front + SkipSpace(s) && CBlanks(front)
    ensures SkipSpace(s) != "" ==> !CBlanks(SkipSpace(s)[..1])
  {
    if s != "" && CSpace(s[0]) {
      front := SkipTakes(s[1..]);
      front := [s[0]] + front;
      assert s == [s[0]] + s[1..];
    } else {
      front := "";
    }
  }

  /** A field is read as a whole number exactly when, blanks aside, it is digits with at most one sign
      before them, and then as that number. */
  lemma WholeNumberReads(lib: Library, s: string)
    ensures var t := SkipSpace(Trim(s));
      var digits := if t != "" && (t[0] == '-' || t[0] == '+') then t[1..] else t;
      if digits != "" && AllDigits(digits)
      then
        var written: int := Value(digits);
        && ParseInt(lib, s).Some?
        && HeldAs(lib.longIs64, if t[0] == '-' then -written else written, ParseInt(lib, s).value)
      else ParseInt(lib, s) == None
  {
    hide HeldAs, Value, ToInt, Clamp, SkipSpace, Trim;
    var t := SkipSpace(Trim(s));
    var digits := if t != "" && (t[0] == '-' || t[0] == '+') then t[1..] else t;
    if digits != "" && AllDigits(digits) {
      var written: int := Value(digits);
      IntIsHeld(lib, if t[0] == '-' then -written else written);
    }
  }

  /** Digits with a point anywhere among or beside them are worth the digits over ten for each after it. */
  lemma DecimalReads(w: string, f: string)
    requires w + f != "" && AllDigits(w) && AllDigits(f)
    ensures PlainDecimal(w + ['.'] + f) == Some(Value(w + f) as real / Pow10(|f|) as real)
    ensures PlainDecimal(['-'] + (w + ['.'] + f)) == Some(-(Value(w + f) as real / Pow10(|f|) as real))
    ensures PlainDecimal(['+'] + (w + ['.'] + f)) == Some(Value(w + f) as real / Pow10(|f|) as real)
    ensures w != "" ==> PlainDecimal(w) == Some(Value(w) as real)
  {
    hide Value, AllDigits, PlainUnsigned;
    var t := w + ['.'] + f;
    assert AllDigits(w + f) by { AllDigitsOf(w, f); }
    PointUnsigned(w, f);
    if w != "" { PlainDigits(w); }
    FirstOfDigits(w);
    assert (['-'] + t)[1..] == t && (['+'] + t)[1..] == t;
  }

  lemma AllDigitsOf(w: string, f: string)
    requires AllDigits(w) && AllDigits(f)
    ensures AllDigits(w + f)
  {
  }

  lemma FirstOfDigits(w: string)
    requires AllDigits(w)
    ensures w != "" ==> w[0] != '+' && w[0] != '-'
  {
  }

  lemma PointUnsigned(w: string, f: string)
    requires w + f != "" && AllDigits(w) && AllDigits(f) && AllDigits(w + f)
    ensures PlainUnsigned(w + ['.'] + f) == Some(Value(w + f) as real / Pow10(|f|) as real)
  {
    hide Value, Pow10, AllDigits;
    DigitsHoldNoPoint(w);
    IndexOfFirst(w, '.', f);
    var t := w + ['.'] + f;
    assert t[..|w|] == w && t[|w| + 1..] == f;
  }

  lemma PlainDigits(w: string)
    requires w != "" && AllDigits(w)
    ensures PlainUnsigned(w) == Some(Value(w) as real)
  {
    hide Value, AllDigits;
    DigitsHoldNoPoint(w);
    IndexOfFirst(w, '.', "");
    assert w[..|w|] + "" == w && Pow10(0) == 1;
  }
}
