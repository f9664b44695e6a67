/** Sources are read back: whatever tokens are written down, with whatever blanks and comments between
    them, are the tokens the lexer finds. */
module I18nLexerProofs {
  import opened I18nLexer

  // ----- a literal, written -----------------------------------------------------------------

  /** A piece of a literal: a character as it stands, or an escape of any kind. */
  datatype Unit =
    | Plain(p: Point)
    | Escape(p: Point, b: Byte)          // one of the simple escapes, and its byte
    | Octal(digits: Text)
    | Hex(digits: Text)
    | Named(digits: Text, long: bool)    // a universal character name
    | Splice(crlf: bool)
    | Return                             // a splice by a carriage return alone
    | Other(p: Point)                    // a backslash before anything else

  /** The value of digits read onto v. */
  function Accumulated(d: Text, base: nat, v: nat): nat
    requires base > 0 && AreDigits(d, base)
  {
    if d == [] then v else Accumulated(d[1..], base, v * base + DigitOf(d[0], base))
  }

  predicate AreDigits(d: Text, base: nat)
    requires base > 0
  {
    forall i :: 0 <= i < |d| ==> DigitOf(d[i], base) >= 0
  }

  function Width(long: bool): nat { if long then 8 else 4 }

  /** The simple escapes, each with the byte it stands for. */
  predicate StandsFor(p: Point, b: Byte)
  {
    || (p == 'n' as int && b == 10) || (p == 't' as int && b == 9) || (p == 'r' as int && b == 13)
    || (p == 'a' as int && b == 7) || (p == 'b' as int && b == 8) || (p == 'f' as int && b == 12)
    || (p == 'v' as int && b == 11) || (p == '\\' as int && b == 92) || (p == '\'' as int && b == 39)
    || (p == '"' as int && b == 34) || (p == '?' as int && b == 63)
  }

  predicate FitUnit(u: Unit, quote: Point)
  {
    match u
    case Plain(p) => p != quote && p != NEWLINE && p != BACKSLASH
    case Escape(p, b) => StandsFor(p, b)
    case Octal(d) => 1 <= |d| <= 3 && AreDigits(d, 8)
    case Hex(d) => AreDigits(d, 16)
    case Named(d, long) => |d| <= Width(long) && AreDigits(d, 16)
    case Splice(_) => true
    case Return => true
    case Other(p) =>
      && (forall b :: !StandsFor(p, b)) && p != NEWLINE && p != RETURN
      && p != 'x' as int && p != 'u' as int && p != 'U' as int && !Between(p, '0', '7')
  }

  function WriteUnit(u: Unit): Text
  {
    match u
    case Plain(p) => [p]
    case Escape(p, _) => [BACKSLASH, p]
    case Octal(d) => [BACKSLASH] + d
    case Hex(d) => [BACKSLASH, 'x' as int] + d
    case Named(d, long) => [BACKSLASH, if long then 'U' as int else 'u' as int] + d
    case Splice(crlf) => if crlf then [BACKSLASH, RETURN, NEWLINE] else [BACKSLASH, NEWLINE]
    case Return => [BACKSLASH, RETURN]
    case Other(p) => [BACKSLASH, p]
  }

  function UnitBytes(u: Unit): seq<Byte>
  {
    match u
    case Plain(p) => Encode(p)
    case Escape(_, b) => [b]
    case Octal(d) => if AreDigits(d, 8) then [Accumulated(d, 8, 0) % 256] else []
    case Hex(d) => if AreDigits(d, 16) then [Accumulated(d, 16, 0) % 256] else []
    case Named(d, _) => if AreDigits(d, 16) then Utf8(Accumulated(d, 16, 0)) else []
    case Splice(_) => []
    case Return => []
    case Other(p) => Encode(p)
  }

  predicate NoDigitNext(t: Text, base: nat)
    requires base > 0
  {
    t == [] || DigitOf(t[0], base) < 0
  }

  /** What follows does not prolong the unit: hexadecimal escapes take every digit there is, octal ones
      three, universal names four or eight. */
  predicate Stops(u: Unit, t: Text)
  {
    match u
    case Octal(d) => |d| == 3 || NoDigitNext(t, 8)
    case Hex(_) => NoDigitNext(t, 16)
    case Named(d, long) => |d| == Width(long) || NoDigitNext(t, 16)
    case Return => t == [] || t[0] != NEWLINE
    case _ => true
  }

  function WriteUnits(us: seq<Unit>): Text { if us == [] then [] else WriteUnit(us[0]) + WriteUnits(us[1..]) }

  function Bytes(us: seq<Unit>): seq<Byte> { if us == [] then [] else UnitBytes(us[0]) + Bytes(us[1..]) }

  /** Units that fit a literal of this quote, none prolonged by the next, or by what ends them. */
  predicate FitUnits(us: seq<Unit>, quote: Point, end: Point)
  {
    us == [] || (FitUnit(us[0], quote) && Stops(us[0], WriteUnits(us[1..]) + [end]) && FitUnits(us[1..], quote, end))
  }

  lemma {:induction false} DigitsRead(d: Text, t: Text, base: nat, most: nat, v: nat)
    requires base > 0 && AreDigits(d, base) && |d| <= most && (|d| == most || NoDigitNext(t, base))
    ensures Digits(d + t, base, most, v) == Number(Accumulated(d, base, v), t)
    decreases |d|
  {
    hide DigitOf;
    if d == [] {
      assert d + t == t;
    } else {
      assert (d + t)[1..] == d[1..] + t;
      DigitsRead(d[1..], t, base, most - 1, v * base + DigitOf(d[0], base));
    }
  }

  lemma HexReads(d: Text, t: Text)
    requires FitUnit(Hex(d), QUOTE) && Stops(Hex(d), t)
    ensures Escaped(['x' as int] + d + t) == Quoted([Accumulated(d, 16, 0) % 256], t)
  {
    hide Digits, Utf8, Encode, AreDigits, NoDigitNext;
    var s := ['x' as int] + d + t;
    assert s[1..] == d + t;
    DigitsRead(d, t, 16, |s|, 0);
  }

  lemma NamedReads(d: Text, long: bool, t: Text)
    requires FitUnit(Named(d, long), QUOTE) && Stops(Named(d, long), t)
    ensures Escaped([if long then 'U' as int else 'u' as int] + d + t) == Quoted(Utf8(Accumulated(d, 16, 0)), t)
  {
    hide Digits, Utf8, Encode, AreDigits, NoDigitNext;
    var s := [if long then 'U' as int else 'u' as int] + d + t;
    assert s[1..] == d + t;
    DigitsRead(d, t, 16, Width(long), 0);
  }

  lemma OctalDigitIs(p: Point)
    requires DigitOf(p, 8) >= 0
    ensures DigitOf(p, 8) == p - '0' as int && Between(p, '0', '7') && !IsSimple(p) && p != NEWLINE && p != RETURN
    ensures p != 'x' as int && p != 'u' as int && p != 'U' as int
  {
  }

  lemma OctalReads(d: Text, t: Text)
    requires FitUnit(Octal(d), QUOTE) && Stops(Octal(d), t)
    ensures Escaped(d + t) == Quoted([Accumulated(d, 8, 0) % 256], t)
  {
    hide Digits, Utf8, Encode, DigitOf, Between, IsSimple;
    var s := d + t;
    assert s[0] == d[0] && s[1..] == d[1..] + t;
    OctalDigitIs(d[0]);
    DigitsRead(d[1..], t, 8, 2, DigitOf(d[0], 8));
    assert Accumulated(d, 8, 0) == Accumulated(d[1..], 8, DigitOf(d[0], 8));
  }

  lemma SpliceReads(crlf: bool, t: Text)
    ensures Escaped((if crlf then [RETURN, NEWLINE] else [NEWLINE]) + t) == Quoted([], t)
  {
    hide Encode, Utf8, Digits;
    var e := (if crlf then [RETURN, NEWLINE] else [NEWLINE]) + t;
    if crlf { assert e[2..] == t; } else { assert e[1..] == t; }
  }

  lemma ReturnReads(t: Text)
    requires Stops(Return, t)
    ensures Escaped([RETURN] + t) == Quoted([], t)
  {
    hide Encode, Utf8, Digits;
    var e := [RETURN] + t;
    assert e[1..] == t && (t != [] ==> e[1] == t[0]);
  }

  lemma SimpleIs(p: Point)
    ensures IsSimple(p) <==> exists b :: StandsFor(p, b)
    ensures IsSimple(p) ==> StandsFor(p, Simple(p))
    ensures forall b, c :: StandsFor(p, b) && StandsFor(p, c) ==> b == c
  {
    if IsSimple(p) { assert StandsFor(p, Simple(p)); }
  }

  lemma CharacterEscapeReads(u: Unit, t: Text)
    requires (u.Escape? || u.Other?) && FitUnit(u, QUOTE)
    ensures Escaped([u.p] + t) == Quoted(UnitBytes(u), t)
  {
    hide Encode, Utf8, Digits, DigitOf, IsSimple, Simple, StandsFor;
    SimpleIs(u.p);
    var e := [u.p] + t;
    assert e[1..] == t;
  }

  lemma EscapeReads(u: Unit, t: Text)
    requires FitUnit(u, QUOTE) && !u.Plain? && Stops(u, t)
    ensures WriteUnit(u)[0] == BACKSLASH && |WriteUnit(u)| > 1
    ensures Escaped(WriteUnit(u)[1..] + t) == Quoted(UnitBytes(u), t)
  {
    hide Escaped, Encode, Utf8, Accumulated, DigitOf;
    var w := WriteUnit(u)[1..];
    match u
    case Hex(d) =>
      assert w == ['x' as int] + d;
      HexReads(d, t);
    case Named(d, long) =>
      assert w == [if long then 'U' as int else 'u' as int] + d;
      NamedReads(d, long, t);
    case Octal(d) =>
      assert w == d;
      OctalReads(d, t);
    case Escape(p, _) =>
      assert w == [p];
      CharacterEscapeReads(u, t);
    case Other(p) =>
      assert w == [p];
      CharacterEscapeReads(u, t);
    case Return =>
      assert w == [RETURN];
      ReturnReads(t);
    case Splice(crlf) =>
      assert w == if crlf then [RETURN, NEWLINE] else [NEWLINE];
      SpliceReads(crlf, t);
  }

  lemma PlainReads(p: Point, quote: Point, t: Text)
    requires FitUnit(Plain(p), quote) && quote != BACKSLASH
    ensures QuotedAt([p] + t, quote) == Prepend(Encode(p), QuotedAt(t, quote))
  {
    hide QuotedAt, Escaped, Encode;
    var s := [p] + t;
    assert s[1..] == t;
    QuotedStep(s, quote);
  }

  lemma BackslashReads(w: Text, q: Quoted, quote: Point, t: Text)
    requires |w| > 1 && w[0] == BACKSLASH && quote != BACKSLASH && Escaped(w[1..] + t) == q && q.rest == t
    ensures QuotedAt(w + t, quote) == Prepend(q.body, QuotedAt(t, quote))
  {
    hide QuotedAt, Escaped, Encode;
    var s := w + t;
    assert s[1..] == w[1..] + t;
    QuotedStep(s, quote);
  }

  lemma UnitReads(u: Unit, quote: Point, t: Text)
    requires FitUnit(u, quote) && quote != BACKSLASH && Stops(u, t)
    ensures QuotedAt(WriteUnit(u) + t, quote) == Prepend(UnitBytes(u), QuotedAt(t, quote))
  {
    hide QuotedAt, Escaped, Encode, Stops, Prepend;
    if u.Plain? {
      PlainReads(u.p, quote, t);
    } else {
      EscapeReads(u, t);
      BackslashReads(WriteUnit(u), Quoted(UnitBytes(u), t), quote, t);
    }
  }

  lemma StopsBefore(u: Unit, t: Text, rest: Text)
    requires t != [] && Stops(u, t)
    ensures Stops(u, t + rest)
  {
    hide DigitOf;
    assert (t + rest)[0] == t[0];
  }

  /** A literal, whatever its escapes, is read back as its bytes, and reading stops at its end. */
  lemma {:induction false} UnitsReadBack(us: seq<Unit>, quote: Point, rest: Text)
    requires FitUnits(us, quote, quote) && quote != BACKSLASH
    ensures QuotedAt(WriteUnits(us) + [quote] + rest, quote) == Quoted(Bytes(us), rest)
  {
    hide WriteUnit, UnitBytes, FitUnit, Stops;
    var t := [quote] + rest;
    if us == [] {
      assert WriteUnits(us) + [quote] + rest == t && t[1..] == rest;
    } else {
      var t1 := WriteUnits(us[1..]) + [quote] + rest;
      assert WriteUnits(us) + [quote] + rest == WriteUnit(us[0]) + t1;
      StopsBefore(us[0], WriteUnits(us[1..]) + [quote], rest);
      UnitReads(us[0], quote, t1);
      UnitsReadBack(us[1..], quote, rest);
    }
  }

  function OctalText(b: Byte): Text { ['0' as int + b / 64, '0' as int + b / 8 % 8, '0' as int + b % 8] }

  lemma OctalTextIs(b: Byte)
    ensures AreDigits(OctalText(b), 8) && |OctalText(b)| == 3 && Accumulated(OctalText(b), 8, 0) == b
  {
    hide DigitOf, Accumulated;
    OctalDigitsAre(b);
    var d := OctalText(b);
    var v := b / 64 * 8 + b / 8 % 8;
    assert d == [d[0]] + ([d[1]] + ([d[2]] + []));
    FirstAccumulates(d[0], [d[1]] + ([d[2]] + []), 8, 0);
    FirstAccumulates(d[1], [d[2]] + [], 8, b / 64);
    FirstAccumulates(d[2], [], 8, v);
    assert v * 8 + b % 8 == b;
    NoneAccumulates(8, b);
  }

  lemma FirstAccumulates(p: Point, d: Text, base: nat, v: nat)
    requires base > 0 && DigitOf(p, base) >= 0 && AreDigits(d, base)
    ensures AreDigits([p] + d, base)
    ensures Accumulated([p] + d, base, v) == Accumulated(d, base, v * base + DigitOf(p, base))
  {
    hide DigitOf;
    assert ([p] + d)[1..] == d;
  }

  lemma NoneAccumulates(base: nat, v: nat)
    requires base > 0
    ensures Accumulated([], base, v) == v
  {
  }

  lemma OctalDigitsAre(b: Byte)
    ensures var d := OctalText(b);
      DigitOf(d[0], 8) == b / 64 && DigitOf(d[1], 8) == b / 8 % 8 && DigitOf(d[2], 8) == b % 8
  {
  }

  function Octals(b: seq<Byte>): seq<Unit> { seq(|b|, i requires 0 <= i < |b| => Octal(OctalText(b[i]))) }

  /** Every byte string can be written in a literal of either quote, and comes back. */
  lemma {:induction false} OctalsAreAnyBytes(b: seq<Byte>, quote: Point, end: Point)
    ensures FitUnits(Octals(b), quote, end) && Bytes(Octals(b)) == b
  {
    hide AreDigits, Accumulated, OctalText;
    if b != [] {
      OctalsAreAnyBytes(b[1..], quote, end);
      assert Octals(b)[1..] == Octals(b[1..]);
      OctalTextIs(b[0]);
    }
  }

  /** A literal left open ends at its line's end, unless the next line starts with a quote, which is
      taken as its own. */
  lemma {:induction false} OpenLiteralEndsWithItsLine(us: seq<Unit>, quote: Point, rest: Text)
    requires FitUnits(us, quote, NEWLINE) && quote != BACKSLASH && quote != NEWLINE
    ensures QuotedAt(WriteUnits(us) + [NEWLINE] + rest, quote).body == Bytes(us)
    ensures QuotedAt(WriteUnits(us) + [NEWLINE] + rest, quote).rest == rest <==> rest == [] || rest[0] != quote
  {
    hide WriteUnit, UnitBytes, FitUnit, Stops;
    var t := [NEWLINE] + rest;
    if us == [] {
      assert WriteUnits(us) + [NEWLINE] + rest == t && t[1..] == rest;
      if rest != [] { assert |rest[1..]| < |rest|; }
    } else {
      var t1 := WriteUnits(us[1..]) + [NEWLINE] + rest;
      assert WriteUnits(us) + [NEWLINE] + rest == WriteUnit(us[0]) + t1;
      StopsBefore(us[0], WriteUnits(us[1..]) + [NEWLINE], rest);
      UnitReads(us[0], quote, t1);
      OpenLiteralEndsWithItsLine(us[1..], quote, rest);
    }
  }

  // ----- a source, written ------------------------------------------------------------------

  /** What a source is made of. The first three are blanks; a numeral gives no token either. */
  datatype Part =
    | Space(p: Point)
    | Line(text: Text)
    | Block(text: Text)
    | Numeral(text: Text)
    | Word(name: Text)
    | Mark(p: Point)
    | Literal(prefix: Text, units: seq<Unit>)
    | Raw(prefix: Text, delim: Text, text: Text)
    | Character(units: seq<Unit>)
  {
    predicate IsBlank() { Space? || Line? || Block? }
  }

  /** A comment line's text: no newline but after a backslash, and no backslash at its end. */
  predicate LineText(t: Text)
    decreases |t|
  {
    if t == [] then true
    else if t[0] == BACKSLASH then |t| > 1 && LineText(if t[1] == NEWLINE then t[2..] else t[1..])
    else t[0] != NEWLINE && LineText(t[1..])
  }

  predicate NumeralTail(last: Point, t: Text)
    decreases |t|
  {
    t == [] || (GoesOn(last, t) && NumeralTail(t[0], t[1..]))
  }

  predicate WordText(t: Text) { t != [] && IsIdentStart(t[0]) && forall i :: 0 <= i < |t| ==> IsIdentChar(t[i]) }

  function RawClose(delim: Text): Text { [CLOSE] + delim + [QUOTE] }

  predicate Spelled(name: Text, s: string) { |name| == |s| && forall i :: 0 <= i < |s| ==> name[i] == s[i] as int }

  /** What makes a quote after it start a raw literal, or an ordinary one. */
  predicate IsRawPrefix(name: Text)
  {
    || Spelled(name, "R") || Spelled(name, "LR") || Spelled(name, "uR") || Spelled(name, "UR")
    || Spelled(name, "u8R")
  }

  predicate IsLiteralPrefix(name: Text)
  {
    Spelled(name, "L") || Spelled(name, "u") || Spelled(name, "U") || Spelled(name, "u8")
  }

  lemma PrefixesAre(name: Text)
    ensures IsRaw(name) <==> IsRawPrefix(name)
    ensures IsPrefix(name) <==> IsLiteralPrefix(name)
  {
    SpelledIs(name, "R");
    SpelledIs(name, "LR");
    SpelledIs(name, "uR");
    SpelledIs(name, "UR");
    SpelledIs(name, "u8R");
    SpelledIs(name, "L");
    SpelledIs(name, "u");
    SpelledIs(name, "U");
    SpelledIs(name, "u8");
  }

  lemma SpelledIs(name: Text, s: string)
    requires forall i :: 0 <= i < |s| ==> s[i] < 0x80 as char
    ensures Spelled(name, s) <==> name == Points(s)
  {
  }

  predicate Fit(wide: Point -> bool, part: Part)
  {
    match part
    case Space(p) => IsSpace(p)
    case Line(text) => LineText(text)
    case Block(text) => Find(text, [STAR, SLASH]) < 0
    case Numeral(text) => text != [] && StartsNumber(wide, text) && NumeralTail(text[0], text[1..])
    case Word(name) => WordText(name)
    case Mark(p) => p != QUOTE && p != APOSTROPHE && !IsDecimal(p) && !IsIdentStart(p) && !IsSpace(p)
    case Literal(prefix, units) => (prefix == [] || IsLiteralPrefix(prefix)) && FitUnits(units, QUOTE, QUOTE)
    case Raw(prefix, delim, text) =>
      IsRawPrefix(prefix) && OPEN !in delim && CLOSE !in delim && Find(text, RawClose(delim)) < 0
    case Character(units) => FitUnits(units, APOSTROPHE, APOSTROPHE)
  }

  function Write(part: Part): Text
  {
    match part
    case Space(p) => [p]
    case Line(text) => [SLASH, SLASH] + text + [NEWLINE]
    case Block(text) => [SLASH, STAR] + text + [STAR, SLASH]
    case Numeral(text) => text
    case Word(name) => name
    case Mark(p) => [p]
    case Literal(prefix, units) => prefix + [QUOTE] + WriteUnits(units) + [QUOTE]
    case Raw(prefix, delim, text) => prefix + [QUOTE] + delim + [OPEN] + text + RawClose(delim)
    case Character(units) => [APOSTROPHE] + WriteUnits(units) + [APOSTROPHE]
  }

  function TokensOf(part: Part): seq<Token>
  {
    match part
    case Space(_) => []
    case Line(_) => []
    case Block(_) => []
    case Numeral(_) => []
    case Word(name) => [Ident(name)]
    case Mark(p) => [Punct(p)]
    case Literal(_, units) => [Str(Bytes(units))]
    case Raw(_, _, text) => [Str(EncodeAll(text))]
    case Character(_) => [Punct(APOSTROPHE)]
  }

  /** What may follow a part directly without running into it. */
  predicate Safe(wide: Point -> bool, part: Part, rest: Text)
  {
    rest == [] ||
    match part
    case Word(name) => !IsIdentChar(rest[0]) && (rest[0] == QUOTE ==> !IsRawPrefix(name) && !IsLiteralPrefix(name))
    case Mark(p) => (p == SLASH ==> rest[0] != SLASH && rest[0] != STAR) && (p == DOT ==> !IsDigit(wide, rest[0]))
    case Numeral(text) => text != [] && !GoesOn(text[|text| - 1], rest)
    case _ => true
  }

  function WriteAll(parts: seq<Part>): Text { if parts == [] then [] else Write(parts[0]) + WriteAll(parts[1..]) }

  function AllTokens(parts: seq<Part>): seq<Token>
  {
    if parts == [] then [] else TokensOf(parts[0]) + AllTokens(parts[1..])
  }

  predicate Apart(wide: Point -> bool, parts: seq<Part>)
  {
    parts == [] || (Fit(wide, parts[0]) && Safe(wide, parts[0], WriteAll(parts[1..])) && Apart(wide, parts[1..]))
  }

  // ----- each part --------------------------------------------------------------------------

  lemma StepTo(wide: Point -> bool, s: Text, toks: seq<Token>, rest: Text)
    requires s != [] && Next(wide, s) == Step(toks, rest)
    ensures Tokens(wide, s) == toks + Tokens(wide, rest)
  {
    hide Next;
  }

  lemma {:induction false} LineEnds(t: Text, rest: Text)
    requires LineText(t)
    ensures AfterLine(t + [NEWLINE] + rest) == [NEWLINE] + rest
    decreases |t|
  {
    var s := t + [NEWLINE] + rest;
    if t == [] {
      assert s == [NEWLINE] + rest;
    } else if t[0] == BACKSLASH && t[1] == NEWLINE {
      assert s[2..] == t[2..] + [NEWLINE] + rest;
      LineEnds(t[2..], rest);
    } else {
      assert s[1..] == t[1..] + [NEWLINE] + rest;
      LineEnds(t[1..], rest);
    }
  }

  lemma LineReads(wide: Point -> bool, t: Text, rest: Text)
    requires LineText(t)
    ensures Tokens(wide, Write(Line(t)) + rest) == Tokens(wide, rest)
  {
    hide Tokens, LineText;
    var s := Write(Line(t)) + rest;
    var tail := [NEWLINE] + rest;
    var t1 := t + [NEWLINE] + rest;
    assert s[1..][1..] == t1;
    LineEnds(t, rest);
    assert AfterLine(s) == AfterLine(t1);
    StepTo(wide, s, [], tail);
    assert tail[1..] == rest;
    StepTo(wide, tail, [], rest);
  }

  lemma {:induction false} FindsFirst(text: Text, pat: Text, rest: Text)
    requires pat != [] && Find(text, pat) < 0 && pat[0] !in pat[1..]
    ensures Find(text + pat + rest, pat) == |text|
  {
    var s := text + pat + rest;
    var n := |pat|;
    if text == [] {
      assert s[..n] == pat;
    } else {
      if |text| >= n {
        assert s[..n] == text[..n];
      } else {
        assert s[..n][|text|] == pat[0];
        assert pat[|text|] == pat[1..][|text| - 1];
      }
      assert s[1..] == text[1..] + pat + rest;
      FindsFirst(text[1..], pat, rest);
    }
  }

  lemma BlockReads(wide: Point -> bool, t: Text, rest: Text)
    requires Find(t, [STAR, SLASH]) < 0
    ensures Tokens(wide, Write(Block(t)) + rest) == Tokens(wide, rest)
  {
    hide Tokens, Find;
    var s := Write(Block(t)) + rest;
    var t1 := t + [STAR, SLASH] + rest;
    assert s[2..] == t1;
    FindsFirst(t, [STAR, SLASH], rest);
    assert t1[|t| + 2..] == rest;
    StepTo(wide, s, [], rest);
  }

  lemma {:induction false} NumberEnds(last: Point, t: Text, rest: Text)
    requires NumeralTail(last, t) && !GoesOn(if t == [] then last else t[|t| - 1], rest)
    ensures AfterNumber(last, t + rest) == rest
    decreases |t|
  {
    if t == [] {
      assert t + rest == rest;
    } else {
      assert (t + rest)[1..] == t[1..] + rest;
      NumberEnds(t[0], t[1..], rest);
    }
  }

  lemma NumeralReads(wide: Point -> bool, t: Text, rest: Text)
    requires Fit(wide, Numeral(t)) && Safe(wide, Numeral(t), rest)
    ensures Tokens(wide, t + rest) == Tokens(wide, rest)
  {
    hide Tokens, GoesOn;
    var s := t + rest;
    assert s[1..] == t[1..] + rest;
    EmptyStops(t[|t| - 1]);
    NumberEnds(t[0], t[1..], rest);
    StepTo(wide, s, [], rest);
  }

  lemma EmptyStops(last: Point)
    ensures !GoesOn(last, [])
  {
  }

  lemma {:induction false} WordEnds(t: Text, rest: Text)
    requires (forall i :: 0 <= i < |t| ==> IsIdentChar(t[i])) && (rest == [] || !IsIdentChar(rest[0]))
    ensures WordLength(t + rest) == |t| && (t + rest)[..|t|] == t && (t + rest)[|t|..] == rest
  {
    assert forall k :: 0 <= k < |t| ==> (t + rest)[k] == t[k];
    assert rest != [] ==> (t + rest)[|t|] == rest[0];
  }

  /** A word, or what it begins. */
  lemma WordSteps(wide: Point -> bool, name: Text, rest: Text)
    requires WordText(name) && (rest == [] || !IsIdentChar(rest[0]))
    ensures Next(wide, name + rest) == WordAt(name, rest)
  {
    hide WordAt;
    WordEnds(name, rest);
    assert (name + rest)[0] == name[0];
  }

  lemma WordReads(wide: Point -> bool, name: Text, rest: Text)
    requires WordText(name) && Safe(wide, Word(name), rest)
    ensures Tokens(wide, name + rest) == [Ident(name)] + Tokens(wide, rest)
  {
    hide Tokens, Next, IsRaw, IsPrefix, IsRawPrefix, IsLiteralPrefix;
    PrefixesAre(name);
    WordSteps(wide, name, rest);
    StepTo(wide, name + rest, [Ident(name)], rest);
  }

  lemma MarkReads(wide: Point -> bool, p: Point, rest: Text)
    requires Fit(wide, Mark(p)) && Safe(wide, Mark(p), rest)
    ensures Tokens(wide, [p] + rest) == [Punct(p)] + Tokens(wide, rest)
  {
    hide Tokens, IsSpace, IsDigit;
    var s := [p] + rest;
    assert s[1..] == rest;
    StepTo(wide, s, [Punct(p)], rest);
  }

  lemma PrefixIsWord(name: Text)
    requires IsPrefix(name) || IsRaw(name)
    ensures WordText(name) && (IsPrefix(name) ==> !IsRaw(name))
  {
    if IsPrefix(name) {
      assert |name| > 1 ==> name[1] == '8' as int;
    } else {
      assert name[|name| - 1] == 'R' as int;
    }
  }

  /** A quote, or a prefix and a quote, starts a literal. */
  lemma QuoteSteps(wide: Point -> bool, prefix: Text, t: Text)
    requires prefix == [] || IsPrefix(prefix)
    ensures Next(wide, prefix + ([QUOTE] + t)) == Step([Str(QuotedAt(t, QUOTE).body)], QuotedAt(t, QUOTE).rest)
  {
    hide QuotedAt, IsRaw, IsPrefix;
    var quoted := [QUOTE] + t;
    assert quoted[1..] == t;
    if prefix == [] {
      assert prefix + quoted == quoted;
    } else {
      PrefixIsWord(prefix);
      WordSteps(wide, prefix, quoted);
    }
  }

  lemma RawSteps(wide: Point -> bool, prefix: Text, t: Text)
    requires IsRaw(prefix)
    ensures Next(wide, prefix + ([QUOTE] + t)) == RawAt(t)
  {
    hide RawAt, IsRaw, IsPrefix, Next;
    var quoted := [QUOTE] + t;
    assert quoted[1..] == t;
    PrefixIsWord(prefix);
    WordSteps(wide, prefix, quoted);
  }

  lemma Regroup(a: Text, b: Text, c: Text, d: Text, e: Text)
    ensures a + b + c + d + e == a + (b + (c + d + e))
  {
  }

  lemma LiteralReads(wide: Point -> bool, prefix: Text, units: seq<Unit>, rest: Text)
    requires Fit(wide, Literal(prefix, units))
    ensures Tokens(wide, Write(Literal(prefix, units)) + rest) == [Str(Bytes(units))] + Tokens(wide, rest)
  {
    hide Tokens, QuotedAt, WriteUnits, Bytes, IsRaw, IsPrefix, IsRawPrefix, IsLiteralPrefix, FitUnits, Next;
    PrefixesAre(prefix);
    var t := WriteUnits(units) + [QUOTE] + rest;
    var s := Write(Literal(prefix, units)) + rest;
    Regroup(prefix, [QUOTE], WriteUnits(units), [QUOTE], rest);
    UnitsReadBack(units, QUOTE, rest);
    QuoteSteps(wide, prefix, t);
    StepTo(wide, s, [Str(Bytes(units))], rest);
  }

  lemma RawEnds(delim: Text, text: Text, rest: Text)
    requires OPEN !in delim && CLOSE !in delim && Find(text, RawClose(delim)) < 0
    ensures RawAt(delim + [OPEN] + (text + RawClose(delim) + rest)) == Step([Str(EncodeAll(text))], rest)
  {
    hide Find, EncodeAll;
    var inner := text + RawClose(delim) + rest;
    var t := delim + [OPEN] + inner;
    NotFound(delim, OPEN);
    FindsFirst(delim, [OPEN], inner);
    assert t[..|delim|] == delim && t[|delim| + 1..] == inner;
    FindsFirst(text, RawClose(delim), rest);
    assert inner[..|text|] == text && inner[|text| + |RawClose(delim)|..] == rest;
  }

  lemma RawReads(wide: Point -> bool, prefix: Text, delim: Text, text: Text, rest: Text)
    requires Fit(wide, Raw(prefix, delim, text))
    ensures Tokens(wide, Write(Raw(prefix, delim, text)) + rest) == [Str(EncodeAll(text))] + Tokens(wide, rest)
  {
    hide Tokens, Find, EncodeAll, IsRaw, IsPrefix, IsRawPrefix, IsLiteralPrefix, Next, RawClose, RawAt;
    PrefixesAre(prefix);
    var t := delim + [OPEN] + (text + RawClose(delim) + rest);
    var s := Write(Raw(prefix, delim, text)) + rest;
    assert s == prefix + ([QUOTE] + t);
    RawSteps(wide, prefix, t);
    RawEnds(delim, text, rest);
    StepTo(wide, s, [Str(EncodeAll(text))], rest);
  }

  lemma {:induction false} NotFound(t: Text, p: Point)
    requires p !in t
    ensures Find(t, [p]) < 0
  {
    if t != [] {
      assert t[..1][0] == t[0];
      NotFound(t[1..], p);
    }
  }

  lemma ApostropheSteps(wide: Point -> bool, t: Text)
    ensures Next(wide, [APOSTROPHE] + t) == Step([Punct(APOSTROPHE)], QuotedAt(t, APOSTROPHE).rest)
  {
    hide QuotedAt;
    assert ([APOSTROPHE] + t)[1..] == t;
  }

  lemma CharacterReads(wide: Point -> bool, units: seq<Unit>, rest: Text)
    requires FitUnits(units, APOSTROPHE, APOSTROPHE)
    ensures Tokens(wide, Write(Character(units)) + rest) == [Punct(APOSTROPHE)] + Tokens(wide, rest)
  {
    hide Tokens, QuotedAt, WriteUnits, Bytes, FitUnits, Next;
    var w, q := WriteUnits(units), [APOSTROPHE];
    UnitsReadBack(units, APOSTROPHE, rest);
    Regroup([], q, w, q, rest);
    assert [] + q + w + q + rest == Write(Character(units)) + rest;
    assert [] + (q + (w + q + rest)) == q + (w + q + rest);
    ApostropheSteps(wide, w + q + rest);
    StepTo(wide, q + (w + q + rest), [Punct(APOSTROPHE)], rest);
  }

  lemma SpaceReads(wide: Point -> bool, p: Point, rest: Text)
    requires IsSpace(p)
    ensures Tokens(wide, [p] + rest) == Tokens(wide, rest)
  {
    hide Tokens;
    var s := [p] + rest;
    assert s[1..] == rest;
    StepTo(wide, s, [], rest);
  }

  lemma PartReads(wide: Point -> bool, part: Part, rest: Text)
    requires Fit(wide, part) && Safe(wide, part, rest)
    ensures Tokens(wide, Write(part) + rest) == TokensOf(part) + Tokens(wide, rest)
  {
    hide Tokens, Bytes, EncodeAll, RawClose, WriteUnits, Find, WordText, IsSpace, LineText;
    match part
    case Space(p) => SpaceReads(wide, p, rest);
    case Line(text) => LineReads(wide, text, rest);
    case Block(text) => BlockReads(wide, text, rest);
    case Numeral(text) => NumeralReads(wide, text, rest);
    case Word(name) => WordReads(wide, name, rest);
    case Mark(p) => MarkReads(wide, p, rest);
    case Literal(prefix, units) => LiteralReads(wide, prefix, units, rest);
    case Raw(prefix, delim, text) => RawReads(wide, prefix, delim, text, rest);
    case Character(units) => CharacterReads(wide, units, rest);
  }

  // ----- the whole source -------------------------------------------------------------------

  /** Whatever is written, with nothing running into what follows it, is read back token by token. */
  lemma {:induction false} SourceReadsBack(wide: Point -> bool, parts: seq<Part>)
    requires Apart(wide, parts)
    ensures Tokens(wide, WriteAll(parts)) == AllTokens(parts)
  {
    hide Tokens, Write, TokensOf, Fit, Safe;
    if parts == [] {
      NothingReads(wide);
    } else {
      PartReads(wide, parts[0], WriteAll(parts[1..]));
      SourceReadsBack(wide, parts[1..]);
    }
  }

  lemma NothingReads(wide: Point -> bool)
    ensures Tokens(wide, []) == []
  {
  }

  /** No whitespace is a digit. */
  ghost predicate Sane(wide: Point -> bool) { forall p :: IsSpace(p) ==> !wide(p) }

  /** Every token has a whitespace character after it, or nothing. */
  predicate Spaced(parts: seq<Part>)
  {
    forall i :: 0 <= i < |parts| && !parts[i].IsBlank() ==> i + 1 == |parts| || parts[i + 1].Space?
  }

  lemma {:induction false} SpacedIsApart(wide: Point -> bool, parts: seq<Part>)
    requires Sane(wide) && Spaced(parts) && forall i :: 0 <= i < |parts| ==> Fit(wide, parts[i])
    ensures Apart(wide, parts)
  {
    if parts != [] {
      var rest := parts[1..];
      assert forall i :: 0 <= i < |rest| ==> rest[i] == parts[i + 1];
      SpacedIsApart(wide, rest);
      SpaceKeepsApart(wide, parts[0], rest);
    }
  }

  lemma SpaceKeepsApart(wide: Point -> bool, part: Part, rest: seq<Part>)
    requires Sane(wide) && (!part.IsBlank() ==> rest == [] || (rest[0].Space? && IsSpace(rest[0].p)))
    requires Fit(wide, part)
    ensures Safe(wide, part, WriteAll(rest))
  {
    hide IsRawPrefix, IsLiteralPrefix, IsSpace, Find, NumeralTail, LineText;
    if !part.IsBlank() && rest != [] {
      var p := rest[0].p;
      assert WriteAll(rest)[0] == p;
      SpaceIsNothingElse(p);
    }
  }

  lemma SpaceIsNothingElse(p: Point)
    requires IsSpace(p)
    ensures !IsIdentChar(p) && !IsDecimal(p) && !Sign(p) && p != DOT
    ensures p != SLASH && p != STAR && p != QUOTE && p != APOSTROPHE
  {
  }

  /** Tokens separated by whitespace, and any comments after it, are read back. */
  lemma SpacedReadsBack(wide: Point -> bool, parts: seq<Part>)
    requires Sane(wide) && Spaced(parts) && forall i :: 0 <= i < |parts| ==> Fit(wide, parts[i])
    ensures Tokens(wide, WriteAll(parts)) == AllTokens(parts)
  {
    SpacedIsApart(wide, parts);
    SourceReadsBack(wide, parts);
  }

  // ----- the keys ---------------------------------------------------------------------------

  predicate AsksForKey(name: Text) { Spelled(name, "tr") || Spelled(name, "trId") || Spelled(name, "FOX_TR_NOOP") }

  lemma KeyNamesAre(name: Text)
    ensures IsKeyName(name) <==> AsksForKey(name)
  {
    SpelledIs(name, "tr");
    SpelledIs(name, "trId");
    SpelledIs(name, "FOX_TR_NOOP");
  }

  /** A call whose whole argument is literals, its closing parenthesis at j. */
  predicate IsCall(t: seq<Token>, j: nat)
  {
    && 2 < j < |t|
    && t[0].Ident? && AsksForKey(t[0].name) && t[1] == Punct('(' as int) && t[j] == Punct(')' as int)
    && forall k :: 2 <= k < j ==> t[k].Str?
  }

  function CallKey(name: Text, strs: seq<Token>): seq<seq<Byte>>
    requires forall k :: 0 <= k < |strs| ==> strs[k].Str?
  {
    var key := KeyText(name, Joined(strs));
    if key == [] then [] else [key]
  }

  lemma CallGivesKey(t: seq<Token>, j: nat)
    requires IsCall(t, j)
    ensures KeyAt(t) == CallKey(t[0].name, t[2..j])
  {
    hide KeyText, IsKeyName, AsksForKey, Joined;
    KeyNamesAre(t[0].name);
    var n := Literals(t[2..]);
    assert t[2..][j - 2] == t[j];
    assert forall k :: 2 <= k < j ==> t[2..][k - 2] == t[k];
  }

  /** The k-th token calls for this key. */
  ghost predicate CallsFor(t: seq<Token>, k: nat, key: seq<Byte>)
  {
    k < |t| && exists j: nat :: IsCall(t[k..], j) && CallKey(t[k].name, t[k..][2..j]) == [key]
  }

  /** The keys of a source are those its calls ask for, and no others. */
  lemma {:induction false} KeysAreTheCalls(t: seq<Token>, key: seq<Byte>)
    ensures key in Keys(t) <==> exists k: nat :: CallsFor(t, k, key)
  {
    hide KeyAt, IsCall, CallKey;
    if t != [] {
      var rest := t[1..];
      KeysAreTheCalls(rest, key);
      KeyAtFront(t, key);
      if key in Keys(rest) {
        var k: nat :| CallsFor(rest, k, key);
        CallsForShift(t, k, key);
        assert CallsFor(t, k + 1, key);
      }
      if k: nat :| CallsFor(t, k, key) {
        if k > 0 {
          CallsForShift(t, k - 1, key);
          assert CallsFor(rest, k - 1, key);
        }
      }
    }
  }

  lemma CallsForShift(t: seq<Token>, k: nat, key: seq<Byte>)
    requires t != []
    ensures CallsFor(t[1..], k, key) <==> CallsFor(t, k + 1, key)
  {
    hide IsCall, CallKey;
    if k + 1 <= |t| { assert t[1..][k..] == t[k + 1..]; }
  }

  lemma KeyAtFront(t: seq<Token>, key: seq<Byte>)
    requires t != []
    ensures key in KeyAt(t) <==> CallsFor(t, 0, key)
  {
    hide KeyText, IsKeyName, AsksForKey, Joined;
    if t[0].Ident? { KeyNamesAre(t[0].name); }
    assert t[0..] == t;
    if KeyAt(t) != [] {
      var j: nat :| IsCall(t, j) && CallKey(t[0].name, t[2..j]) != [];
      CallGivesKey(t, j);
    }
    if CallsFor(t, 0, key) {
      var j: nat :| IsCall(t[0..], j) && CallKey(t[0].name, t[0..][2..j]) == [key];
      CallGivesKey(t, j);
    }
  }

  /** For anything but tr the text after "##" is not part of the key. */
  lemma {:induction false} IdIsCutOff(name: Text, shown: seq<Byte>, id: seq<Byte>)
    requires Find(shown + [35], [35, 35]) < 0
    ensures KeyText(name, shown + [35, 35] + id) == if Spelled(name, "tr") then shown + [35, 35] + id else shown
  {
    SpelledIs(name, "tr");
    hide Points;
    MarksFound(shown, id);
    assert (shown + [HASH, HASH] + id)[..|shown|] == shown;
  }

  lemma {:induction false} MarksFound(shown: seq<Byte>, id: seq<Byte>)
    requires Find(shown + [HASH], [HASH, HASH]) < 0
    ensures Find(shown + [HASH, HASH] + id, [HASH, HASH]) == |shown|
  {
    var s := shown + [HASH, HASH] + id;
    if shown == [] {
      assert s[..2] == [HASH, HASH];
    } else {
      assert s[..2] == (shown + [HASH])[..2];
      assert (shown + [HASH])[1..] == shown[1..] + [HASH];
      assert s[1..] == shown[1..] + [HASH, HASH] + id;
      MarksFound(shown[1..], id);
    }
  }

  /** What stands before an identifier does not look past it. */
  lemma {:induction false} KeysSplit(a: seq<Token>, b: seq<Token>)
    requires b == [] || b[0].Ident?
    ensures Keys(a + b) == Keys(a) + Keys(b)
  {
    hide KeyAt;
    if a == [] {
      assert a + b == b;
    } else {
      assert (a + b)[1..] == a[1..] + b;
      KeysSplit(a[1..], b);
      KeyStops(a, b);
    }
  }

  lemma KeyStops(a: seq<Token>, b: seq<Token>)
    requires a != [] && (b == [] || b[0].Ident?)
    ensures KeyAt(a + b) == KeyAt(a)
  {
    hide KeyText, IsKeyName, Joined;
    if |a| >= 2 {
      var n := Literals(a[2..]);
      var m := Literals((a + b)[2..]);
      assert (a + b)[2..] == a[2..] + b;
      assert forall k :: 0 <= k < |a| - 2 ==> (a + b)[2..][k] == a[2..][k];
      assert b != [] ==> (a + b)[2..][|a| - 2] == b[0];
      assert n == m;
      assert a[2..2 + n] == (a + b)[2..2 + n];
    }
  }

  lemma {:induction false} NoNamesNoKeys(t: seq<Token>, rest: seq<Token>)
    requires forall k :: 0 <= k < |t| ==> !t[k].Ident?
    ensures Keys(t + rest) == Keys(rest)
  {
    if t == [] {
      assert t + rest == rest;
    } else {
      assert (t + rest)[1..] == t[1..] + rest;
      NoNamesNoKeys(t[1..], rest);
    }
  }

  lemma CallKeys(name: Text, strs: seq<Token>, rest: seq<Token>)
    requires AsksForKey(name) && strs != [] && forall k :: 0 <= k < |strs| ==> strs[k].Str?
    ensures Keys([Ident(name), Punct(OPEN)] + strs + [Punct(CLOSE)] + rest) == CallKey(name, strs) + Keys(rest)
  {
    hide AsksForKey, CallKey, Keys, KeyAt;
    var inner := [Punct(OPEN)] + strs + [Punct(CLOSE)];
    var t := [Ident(name), Punct(OPEN)] + strs + [Punct(CLOSE)] + rest;
    var j := 2 + |strs|;
    assert t[2..j] == strs;
    assert forall k :: 2 <= k < j ==> t[k] == strs[k - 2];
    CallGivesKey(t, j);
    assert t[1..] == inner + rest;
    NoNamesNoKeys(inner, rest);
    FirstKey(t);
  }

  lemma FirstKey(t: seq<Token>)
    requires t != []
    ensures Keys(t) == KeyAt(t) + Keys(t[1..])
  {
  }

  // ----- calls in a source ------------------------------------------------------------------

  predicate IsArgument(part: Part) { part.IsBlank() || part.Literal? || part.Raw? }

  predicate IsKeyCall(name: Text, gap: seq<Part>, args: seq<Part>)
  {
    && AsksForKey(name) && (forall i :: 0 <= i < |gap| ==> gap[i].IsBlank())
    && (forall i :: 0 <= i < |args| ==> IsArgument(args[i]))
    && exists i :: 0 <= i < |args| && !args[i].IsBlank()
  }

  function CallParts(name: Text, gap: seq<Part>, args: seq<Part>): seq<Part>
  {
    [Word(name)] + gap + [Mark(OPEN)] + args + [Mark(CLOSE)]
  }

  /** The bytes of an argument: those of its literals, one after the other. */
  function ArgumentBytes(args: seq<Part>): seq<Byte>
  {
    if args == [] then []
    else
      (match args[0]
       case Literal(_, units) => Bytes(units)
       case Raw(_, _, text) => EncodeAll(text)
       case _ => []) + ArgumentBytes(args[1..])
  }

  lemma {:induction false} ArgumentTokens(args: seq<Part>)
    requires forall i :: 0 <= i < |args| ==> IsArgument(args[i])
    ensures var t := AllTokens(args);
      (forall k :: 0 <= k < |t| ==> t[k].Str?) && Joined(t) == ArgumentBytes(args)
    ensures AllTokens(args) == [] <==> forall i :: 0 <= i < |args| ==> args[i].IsBlank()
  {
    hide Bytes, EncodeAll;
    if args != [] {
      ArgumentTokens(args[1..]);
      var t := AllTokens(args[1..]);
      assert forall i :: 0 < i < |args| ==> args[i] == args[1..][i - 1];
      if args[0].IsBlank() {
        assert AllTokens(args) == t;
      } else {
        assert AllTokens(args) == TokensOf(args[0]) + t && |TokensOf(args[0])| == 1;
        assert AllTokens(args)[1..] == t;
      }
    }
  }

  lemma {:induction false} BlanksGiveNothing(gap: seq<Part>)
    requires forall i :: 0 <= i < |gap| ==> gap[i].IsBlank()
    ensures AllTokens(gap) == []
  {
    if gap != [] { BlanksGiveNothing(gap[1..]); }
  }

  lemma {:induction false} TokensConcat(a: seq<Part>, b: seq<Part>)
    ensures AllTokens(a + b) == AllTokens(a) + AllTokens(b)
  {
    hide TokensOf;
    if a == [] {
      assert a + b == b;
    } else {
      assert (a + b)[1..] == a[1..] + b;
      TokensConcat(a[1..], b);
    }
  }

  lemma CallTokens(name: Text, gap: seq<Part>, args: seq<Part>)
    requires forall i :: 0 <= i < |gap| ==> gap[i].IsBlank()
    ensures AllTokens(CallParts(name, gap, args)) == [Ident(name), Punct(OPEN)] + AllTokens(args) + [Punct(CLOSE)]
  {
    BlanksGiveNothing(gap);
    hide AllTokens;
    TokensConcat([Word(name)] + gap + [Mark(OPEN)] + args, [Mark(CLOSE)]);
    TokensConcat([Word(name)] + gap + [Mark(OPEN)], args);
    TokensConcat([Word(name)] + gap, [Mark(OPEN)]);
    TokensConcat([Word(name)], gap);
    assert AllTokens([Word(name)] + gap + [Mark(OPEN)]) == [Ident(name), Punct(OPEN)];
  }

  /** A call of tr, trId or FOX_TR_NOOP, its argument adjacent literals written in any way with blanks
      and comments anywhere among them, adds one key where it stands: what the compiler would join. */
  lemma CallReadsBack(wide: Point -> bool, before: seq<Part>, name: Text, gap: seq<Part>, args: seq<Part>,
                      after: seq<Part>)
    requires IsKeyCall(name, gap, args) && Apart(wide, before + CallParts(name, gap, args) + after)
    ensures var key := KeyText(name, ArgumentBytes(args));
      Keys(Tokens(wide, WriteAll(before + CallParts(name, gap, args) + after))) ==
      Keys(AllTokens(before)) + (if key == [] then [] else [key]) + Keys(AllTokens(after))
  {
    hide Apart, Tokens, WriteAll, Keys, KeyText, AsksForKey, CallParts, AllTokens, Joined, ArgumentBytes;
    var call := CallParts(name, gap, args);
    SourceReadsBack(wide, before + call + after);
    TokensConcat(before + call, after);
    TokensConcat(before, call);
    CallTokens(name, gap, args);
    ArgumentTokens(args);
    var t, rest := AllTokens(call) + AllTokens(after), AllTokens(after);
    assert AllTokens(before + call + after) == AllTokens(before) + t;
    KeysSplit(AllTokens(before), t);
    CallKeys(name, AllTokens(args), rest);
  }

  lemma KeyNameIsWord(name: Text)
    requires AsksForKey(name)
    ensures WordText(name)
  {
    if Spelled(name, "FOX_TR_NOOP") {
      forall i | 0 <= i < |name| ensures IsIdentChar(name[i]) { assert name[i] == "FOX_TR_NOOP"[i] as int; }
    }
  }

  /** Blanks and literals run into nothing. */
  lemma {:induction false} RunIsApart(wide: Point -> bool, run: seq<Part>, after: seq<Part>)
    requires (forall i :: 0 <= i < |run| ==> IsArgument(run[i]) && Fit(wide, run[i])) && Apart(wide, after)
    ensures Apart(wide, run + after)
  {
    hide Fit, WriteAll;
    if run == [] {
      assert run + after == after;
    } else {
      assert (run + after)[1..] == run[1..] + after;
      RunIsApart(wide, run[1..], after);
    }
  }

  lemma BracketIsApart(wide: Point -> bool, p: Point, after: seq<Part>)
    requires (p == OPEN || p == CLOSE) && Apart(wide, after)
    ensures Apart(wide, [Mark(p)] + after)
  {
    hide WriteAll;
    assert ([Mark(p)] + after)[1..] == after;
  }

  /** Calls need no whitespace: the pieces of one never run into each other. */
  lemma CallIsApart(wide: Point -> bool, name: Text, gap: seq<Part>, args: seq<Part>, after: seq<Part>)
    requires IsKeyCall(name, gap, args) && Apart(wide, after)
    requires forall i :: 0 <= i < |gap| ==> Fit(wide, gap[i])
    requires forall i :: 0 <= i < |args| ==> Fit(wide, args[i])
    ensures Apart(wide, CallParts(name, gap, args) + after)
  {
    hide Apart, Fit, WriteAll, AsksForKey;
    var tail := [Mark(CLOSE)] + after;
    BracketIsApart(wide, CLOSE, after);
    RunIsApart(wide, args, tail);
    BracketIsApart(wide, OPEN, args + tail);
    var inner := [Mark(OPEN)] + (args + tail);
    RunIsApart(wide, gap, inner);
    assert CallParts(name, gap, args) + after == [Word(name)] + (gap + inner);
    KeyNameIsWord(name);
    CallStarts(wide, name, gap, inner);
  }

  lemma CallStarts(wide: Point -> bool, name: Text, gap: seq<Part>, inner: seq<Part>)
    requires WordText(name) && Apart(wide, gap + inner) && inner != [] && inner[0] == Mark(OPEN)
    requires forall i :: 0 <= i < |gap| ==> gap[i].IsBlank() && Fit(wide, gap[i])
    ensures Apart(wide, [Word(name)] + (gap + inner))
  {
    hide WordText, WriteAll, Safe, Fit;
    var rest := gap + inner;
    assert ([Word(name)] + rest)[1..] == rest;
    assert Fit(wide, Word(name)) by { WordFits(wide, name); }
    WordBefore(wide, name, rest);
  }

  lemma WordFits(wide: Point -> bool, name: Text)
    requires WordText(name)
    ensures Fit(wide, Word(name))
  {
  }

  lemma WordBefore(wide: Point -> bool, name: Text, rest: seq<Part>)
    requires rest != [] && (rest[0] == Mark(OPEN) || (rest[0].IsBlank() && Fit(wide, rest[0])))
    ensures Safe(wide, Word(name), WriteAll(rest))
  {
    hide IsRawPrefix, IsLiteralPrefix, Find, LineText, IsSpace;
    var first := rest[0];
    assert WriteAll(rest)[0] == Write(first)[0];
    if first.Space? { SpaceIsNothingElse(first.p); }
  }
}
