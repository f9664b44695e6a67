/** The airport frequency table: written as text by the generator, parsed by the application. */
module AirbandTable {
  import opened Sorting
  import opened Decimals
  import opened Texts
  import opened Wrappers
  import opened Sequences

  const MAX_DESCRIPTION: nat := 160
  const INT_SPAN: int := 0x1_0000_0000

  // ----- the generator ----------------------------------------------------------------------

  /** One frequency of an airport as gathered: its channel in kHz, its type, its joined descriptions. */
  datatype FreqRow = FreqRow(khz: nat, typ: string, desc: string)

  /** A coordinate as printed to four places; one just below zero prints as -0.0000. */
  datatype Coordinate = Coordinate(negative: bool, tenThousandths: nat)
  {
    function Degrees(): real { (if negative then -(tenThousandths as real) else tenThousandths as real) / 10000.0 }
  }

  datatype Row = Row(ident: string, iata: string, local: string, country: string, lat: Coordinate, lon: Coordinate,
                     name: string, freqs: seq<FreqRow>)

  predicate IsSpace(c: char) { IsPythonSpace(c as int) }

  function WordEnd(t: string): (n: nat)
    ensures n <= |t| && (n < |t| ==> IsSpace(t[n])) && forall i :: 0 <= i < n ==> !IsSpace(t[i])
  {
    if t == "" || IsSpace(t[0]) then 0 else 1 + WordEnd(t[1..])
  }

  /** t.split() */
  function Words(t: string): seq<string>
    decreases |t|
  {
    if t == "" then []
    else if IsSpace(t[0]) then Words(t[1..])
    else [t[..WordEnd(t)]] + Words(t[WordEnd(t)..])
  }

  function Blank(c: char): char { if c == '\t' || c == '\r' || c == '\n' then ' ' else c }

  function Flattened(t: string): string { seq(|t|, i requires 0 <= i < |t| => Blank(t[i])) }

  /** clean: one line of plain text, runs of whitespace folded to a space. */
  function Clean(t: string): string { Join(Words(Flattened(t)), ' ') }

  function Cut(s: string): string { if |s| <= MAX_DESCRIPTION then s else s[..MAX_DESCRIPTION] }

  function FourDigits(n: nat): string
    requires n < 10000
  {
    [Digit(n / 1000), Digit(n / 100 % 10), Digit(n / 10 % 10), Digit(n % 10)]
  }

  /** '%.4f' */
  function Fixed4(c: Coordinate): string
  {
    (if c.negative then "-" else "") + Decimal(c.tenThousandths / 10000) + "." + FourDigits(c.tenThousandths % 10000)
  }

  function AirportLine(r: Row): string
  {
    Join(["A", Clean(r.ident), Clean(r.iata), Clean(r.local), Clean(r.country), Fixed4(r.lat), Fixed4(r.lon),
          Clean(r.name)], '\t')
  }

  function FreqLine(f: FreqRow): string
  {
    Join(["F", Decimal(f.khz), Clean(f.typ), Cut(Clean(f.desc))], '\t')
  }

  function FreqText(freqs: seq<FreqRow>): string
  {
    if freqs == [] then "" else FreqLine(freqs[0]) + "\n" + FreqText(freqs[1..])
  }

  function Body(rows: seq<Row>): string
  {
    if rows == [] then "" else AirportLine(rows[0]) + "\n" + FreqText(rows[0].freqs) + Body(rows[1..])
  }

  /** The lines at the top of the table: where it comes from, and when it was built. */
  predicate Comment(line: string) { line != "" && line[0] == '#' && '\n' !in line }

  function Lines(lines: seq<string>): string
  {
    if lines == [] then "" else lines[0] + "\n" + Lines(lines[1..])
  }

  function Table(comments: seq<string>, rows: seq<Row>): string { Lines(comments) + Body(rows) }

  /** The generator's writing loops. */
  method WriteTable(comments: seq<string>, rows: seq<Row>) returns (out: string)
    ensures out == Table(comments, rows)
  {
    hide AirportLine, FreqText;
    out := Lines(comments);
    var i := 0;
    assert rows[0..] == rows;
    while i < |rows|
      invariant 0 <= i <= |rows|
      invariant out + Body(rows[i..]) == Table(comments, rows)
    {
      ghost var before, rest := out, Body(rows[i + 1..]);
      out := out + AirportLine(rows[i]) + "\n";
      out := WriteFreqs(out, rows[i].freqs);
      assert rows[i..][1..] == rows[i + 1..];
      assert before + (AirportLine(rows[i]) + "\n" + FreqText(rows[i].freqs) + rest) == out + rest;
      i := i + 1;
    }
  }

  method WriteFreqs(before: string, freqs: seq<FreqRow>) returns (out: string)
    ensures out == before + FreqText(freqs)
  {
    hide FreqLine;
    out := before;
    var j := 0;
    assert freqs[0..] == freqs;
    while j < |freqs|
      invariant 0 <= j <= |freqs|
      invariant out + FreqText(freqs[j..]) == before + FreqText(freqs)
    {
      assert freqs[j..][1..] == freqs[j + 1..];
      out := out + FreqLine(freqs[j]) + "\n";
      j := j + 1;
    }
  }

  // ----- the parser -------------------------------------------------------------------------

  datatype Freq = Freq(channelKhz: int, hz: real, typ: string, desc: string)

  datatype Airport = Airport(ident: string, iata: string, local: string, country: string, name: string,
                             latDeg: real, lonDeg: real, freqs: seq<Freq>)

  predicate Trimmed(c: char) { c == ' ' || c == '\t' || c == '\r' }

  function TrimFront(s: string): string { if s != "" && Trimmed(s[0]) then TrimFront(s[1..]) else s }

  function TrimBack(s: string): string { if s != "" && Trimmed(s[|s| - 1]) then TrimBack(s[..|s| - 1]) else s }

  function Trim(s: string): string { TrimBack(TrimFront(s)) }

  predicate CSpace(c: char) { c == ' ' || '\t' <= c <= '\r' }

  function SkipSpace(s: string): string { if s != "" && CSpace(s[0]) then SkipSpace(s[1..]) else s }

  /** What differs between the platforms' C libraries, or is not modelled: whether long has 64 bits or 32,
      and what strtod makes of a text other than sign, digits and point (exponents, hexadecimal, names);
      none stands for a text not taken whole, and for a value that is not finite. */
  datatype Library = Library(longIs64: bool, other: string -> Option<real>)
  {
    function LongMax(): int { if longIs64 then 0x7FFF_FFFF_FFFF_FFFF else 0x7FFF_FFFF }
  }

  function Clamp(v: int, max: int): int { if v > max then max else if v < -max - 1 then -max - 1 else v }

  /** static_cast<int> of a long. */
  function ToInt(v: int): int { (v + INT_SPAN / 2) % INT_SPAN - INT_SPAN / 2 }

  /** strtol in base 10, when it takes the whole text; then the cast to int. */
  function ParseInt(lib: Library, s: string): Option<int>
  {
    var t := SkipSpace(Trim(s));
    if t == "" then None
    else
      var signed := t[0] == '-' || t[0] == '+';
      var digits := if signed then t[1..] else t;
      if digits == "" || !AllDigits(digits) then None
      else
        var v: int := Value(digits);
        Some(ToInt(Clamp(if t[0] == '-' then -v else v, lib.LongMax())))
  }

  function Pow10(n: nat): (p: nat)
    ensures p > 0
  {
    if n == 0 then 1 else 10 * Pow10(n - 1)
  }

  /** Digits, and perhaps a point among or beside them. */
  function PlainUnsigned(t: string): Option<real>
  {
    var point := IndexOf(t, '.');
    var digits := t[..point] + (if point < |t| then t[point + 1..] else "");
    if digits == "" || !AllDigits(digits) then None
    else Some(Value(digits) as real / Pow10(|digits| - point) as real)
  }

  /** The same, perhaps with a sign. */
  function PlainDecimal(s: string): Option<real>
  {
    if s != "" && s[0] == '+' then PlainUnsigned(s[1..])
    else if s != "" && s[0] == '-' then
      match PlainUnsigned(s[1..])
      case Some(v) => Some(-v)
      case None => None
    else PlainUnsigned(s)
  }

  /** strtod, when it takes the whole text and gives a finite number. */
  function Strtod(lib: Library, s: string): Option<real>
  {
    match PlainDecimal(SkipSpace(s))
    case Some(v) => Some(v)
    case None => lib.other(s)
  }

  function ParseDouble(lib: Library, s: string): Option<real>
  {
    if Trim(s) == "" then None else Strtod(lib, Trim(s))
  }

  function ChannelHz(channelKhz: int): real
  {
    // The channel is positive wherever this is used, so the remainder is C++'s too.
    var r := channelKhz % 25;
    var slot := (channelKhz - r) as real * 1000.0;
    if r == 5 then slot
    else if r == 10 then slot + 25000.0 / 3.0
    else if r == 15 then slot + 50000.0 / 3.0
    else channelKhz as real * 1000.0
  }

  datatype State = State(out: seq<Airport>, bad: nat, haveAirport: bool)

  const START: State := State([], 0, false)

  function Skip(st: State): State { st.(bad := st.bad + 1) }

  function Lost(st: State): State { st.(bad := st.bad + 1, haveAirport := false) }

  function AirportOf(f: seq<string>, lat: real, lon: real): Airport
    requires |f| >= 8
  {
    Airport(Trim(f[1]), Trim(f[2]), Trim(f[3]), Trim(f[4]), Trim(f[7]), lat, lon, [])
  }

  predicate InRange(v: real, limit: real) { -limit <= v <= limit }

  function AirportFields(lib: Library, st: State, f: seq<string>): State
    requires |f| >= 8
  {
    var lat, lon := ParseDouble(lib, f[5]), ParseDouble(lib, f[6]);
    if lat.None? || lon.None? || !InRange(lat.value, 90.0) || !InRange(lon.value, 180.0) then Lost(st)
    else if Trim(f[1]) == "" then Lost(st)
    else st.(out := st.out + [AirportOf(f, lat.value, lon.value)], haveAirport := true)
  }

  predicate Sound(st: State) { st.haveAirport ==> st.out != [] }

  function FreqFields(lib: Library, st: State, f: seq<string>): State
    requires |f| >= 3 && Sound(st)
  {
    var khz := ParseInt(lib, f[1]);
    if !st.haveAirport || khz.None? || khz.value <= 0 then Skip(st)
    else
      var q := Freq(khz.value, ChannelHz(khz.value), Trim(f[2]), if |f| >= 4 then Trim(f[3]) else "");
      AddFreq(st, q)
  }

  function AddFreq(st: State, q: Freq): State
    requires st.out != []
  {
    var last := st.out[|st.out| - 1];
    st.(out := st.out[|st.out| - 1 := last.(freqs := last.freqs + [q])])
  }

  function ReadLine(lib: Library, st: State, line: string): (st': State)
    requires Sound(st)
    ensures Sound(st')
  {
    if line == "" || line[0] == '#' || Trim(line) == "" then st
    else
      var f := Split(line, '\t');
      if f[0] == "A" && |f| >= 8 then AirportFields(lib, st, f)
      else if f[0] == "F" && |f| >= 3 then FreqFields(lib, st, f)
      else Skip(st)
  }

  function Read(lib: Library, st: State, text: string): (st': State)
    requires Sound(st)
    ensures Sound(st')
    decreases |text|
  {
    if text == "" then st
    else
      var nl := IndexOf(text, '\n');
      Read(lib, ReadLine(lib, st, text[..nl]), if nl < |text| then text[nl + 1..] else "")
  }

  function ByChannel(): (Freq, Freq) -> bool { (a: Freq, b: Freq) => a.channelKhz < b.channelKhz }

  function InOrder(a: Airport): Airport { a.(freqs := StableSort(a.freqs, ByChannel())) }

  function FreqsSorted(out: seq<Airport>): seq<Airport>
  {
    if out == [] then [] else FreqsSorted(out[..|out| - 1]) + [InOrder(out[|out| - 1])]
  }

  method TrimText(s: string) returns (t: string)
    ensures t == Trim(s)
  {
    t := s;
    while t != "" && Trimmed(t[0])
      invariant TrimFront(t) == TrimFront(s)
      decreases |t|
    {
      t := t[1..];
    }
    while t != "" && Trimmed(t[|t| - 1])
      invariant TrimBack(t) == Trim(s)
      decreases |t|
    {
      t := t[..|t| - 1];
    }
  }

  method SplitTabs(line: string) returns (out: seq<string>)
    ensures out == Split(line, '\t')
  {
    hide Split;
    out := [];
    var start, i := 0, 0;
    assert line[0..] == line;
    while i < |line|
      invariant 0 <= start <= i <= |line|
      invariant forall k :: start <= k < i ==> line[k] != '\t'
      invariant out + Split(line[start..], '\t') == Split(line, '\t')
    {
      if line[i] == '\t' {
        AtTab(line, start, i);
        Associates(out, [line[start..i]], Split(line[i + 1..], '\t'));
        out := out + [line[start..i]];
        start := i + 1;
      }
      i := i + 1;
    }
    NoTab(line[start..]);
    assert line[start..i] == line[start..];
    out := out + [line[start..i]];
  }

  lemma AtTab(line: string, start: nat, i: nat)
    requires start <= i < |line| && line[i] == '\t' && forall k :: start <= k < i ==> line[k] != '\t'
    ensures Split(line[start..], '\t') == [line[start..i]] + Split(line[i + 1..], '\t')
  {
    assert line[start..] == line[start..i] + ['\t'] + line[i + 1..];
    IndexOfFirst(line[start..i], '\t', line[i + 1..]);
  }

  lemma NoTab(s: string)
    requires '\t' !in s
    ensures Split(s, '\t') == [s]
  {
  }

  method ParseAirbandTable(lib: Library, text: string) returns (out: seq<Airport>, skipped: nat)
    ensures out == FreqsSorted(Read(lib, START, text).out) && skipped == Read(lib, START, text).bad
  {
    hide Read, ReadLine, InOrder, From, IndexOf;
    var st := START;
    var pos := 0;
    FromStart(text);
    while pos < |text|
      invariant 0 <= pos <= |text| + 1 && Sound(st)
      invariant Read(lib, st, From(text, pos)) == Read(lib, START, text)
      decreases |text| + 1 - pos
    {
      var nl := pos + IndexOf(text[pos..], '\n');
      var line := text[pos..nl];
      NextLine(lib, st, text, pos);
      pos := nl + 1;
      st := ReadOne(lib, st, line);
    }
    FromEnd(text, pos);
    ReadNothing(lib, st);
    skipped := st.bad;
    out := SortFreqs(st.out);
  }

  method SortFreqs(airports: seq<Airport>) returns (out: seq<Airport>)
    ensures out == FreqsSorted(airports)
  {
    out := [];
    for i := 0 to |airports|
      invariant out == FreqsSorted(airports[..i])
    {
      assert airports[..i + 1][..i] == airports[..i];
      out := out + [InOrder(airports[i])];
    }
    assert airports[..|airports|] == airports;
  }

  lemma ReadStep(lib: Library, st: State, text: string)
    requires Sound(st) && text != ""
    ensures var nl := IndexOf(text, '\n');
      Read(lib, st, text) == Read(lib, ReadLine(lib, st, text[..nl]), if nl < |text| then text[nl + 1..] else "")
  {
  }

  lemma ReadNothing(lib: Library, st: State)
    requires Sound(st)
    ensures Read(lib, st, "") == st
  {
  }

  function From(text: string, pos: nat): string { if pos <= |text| then text[pos..] else "" }

  lemma FromStart(text: string)
    ensures From(text, 0) == text
  {
  }

  lemma FromEnd(text: string, pos: nat)
    requires pos >= |text|
    ensures From(text, pos) == ""
  {
  }

  lemma NextLine(lib: Library, st: State, text: string, pos: nat)
    requires Sound(st) && pos < |text|
    ensures var nl := pos + IndexOf(text[pos..], '\n');
      Read(lib, st, From(text, pos)) == Read(lib, ReadLine(lib, st, text[pos..nl]), From(text, nl + 1))
  {
    hide Read, ReadLine, IndexOf;
    var rest, nl := text[pos..], pos + IndexOf(text[pos..], '\n');
    assert text[pos..nl] == rest[..nl - pos];
    assert nl < |text| ==> rest[nl - pos + 1..] == text[nl + 1..];
    ReadStep(lib, st, rest);
  }

  method ReadOne(lib: Library, st: State, line: string) returns (st': State)
    requires Sound(st)
    ensures st' == ReadLine(lib, st, line)
  {
    if line == "" || line[0] == '#' { return st; }
    var trimmed := TrimText(line);
    if trimmed == "" { return st; }
    var f := SplitTabs(line);
    if f[0] == "A" && |f| >= 8 {
      var lat, lon := ParseDouble(lib, f[5]), ParseDouble(lib, f[6]);
      if lat.None? || lon.None? || !InRange(lat.value, 90.0) || !InRange(lon.value, 180.0) {
        return State(st.out, st.bad + 1, false);
      }
      var ident := TrimText(f[1]);
      if ident == "" { return State(st.out, st.bad + 1, false); }
      st' := State(st.out + [AirportOf(f, lat.value, lon.value)], st.bad, true);
    } else if f[0] == "F" && |f| >= 3 {
      var khz := ParseInt(lib, f[1]);
      if !st.haveAirport || khz.None? || khz.value <= 0 { return Skip(st); }
      var typ := TrimText(f[2]);
      var desc := "";
      if |f| >= 4 { desc := TrimText(f[3]); }
      st' := AddFreq(st, Freq(khz.value, ChannelHz(khz.value), typ, desc));
    } else {
      st' := Skip(st);
    }
  }
}
