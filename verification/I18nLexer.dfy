/** The lexer that finds translation keys in C++ sources. */
module I18nLexer {
  import opened Texts
  import opened Sequences

  /** A code point of a file decoded as UTF-8; 0xDC80 to 0xDCFF each stand for a stray byte. */
  type Point = p: int | 0 <= p < 0xD800 || 0xDC80 <= p <= 0xDCFF || 0xE000 <= p < 0x11_0000

  type Text = seq<Point>

  type Byte = b: int | 0 <= b < 256

  datatype Token = Str(body: seq<Byte>) | Ident(name: Text) | Punct(p: Point)

  const NEWLINE: Point := '\n' as int
  const RETURN: Point := '\r' as int
  const BACKSLASH: Point := '\\' as int
  const QUOTE: Point := '"' as int
  const APOSTROPHE: Point := '\'' as int
  const SLASH: Point := '/' as int
  const STAR: Point := '*' as int
  const DOT: Point := '.' as int
  const OPEN: Point := '(' as int
  const CLOSE: Point := ')' as int
  const HASH: Byte := '#' as int

  // ----- characters -------------------------------------------------------------------------

  predicate Between(p: Point, a: char, b: char) { a as int <= p <= b as int }

  predicate IsDecimal(p: Point) { Between(p, '0', '9') }

  predicate IsIdentStart(p: Point) { Between(p, 'a', 'z') || Between(p, 'A', 'Z') || p == '_' as int }

  predicate IsIdentChar(p: Point) { IsIdentStart(p) || IsDecimal(p) }

  /** str.isdigit: wide says which characters outside ASCII it takes. */
  predicate IsDigit(wide: Point -> bool, p: Point) { if p < 0x80 then IsDecimal(p) else wide(p) }

  predicate IsSpace(p: Point) { IsPythonSpace(p) }

  /** The value of a digit in base 8 or 16, or -1. */
  function DigitOf(p: Point, base: nat): (v: int)
    requires base > 0
    ensures -1 <= v < base
  {
    var v := if Between(p, '0', '9') then p - '0' as int
             else if Between(p, 'a', 'f') then p - 'a' as int + 10
             else if Between(p, 'A', 'F') then p - 'A' as int + 10
             else -1;
    if v < base then v else -1
  }

  /** UTF-8, a stray byte standing for itself. */
  function Encode(p: Point): seq<Byte>
  {
    if p < 0x80 then [p]
    else if 0xDC80 <= p <= 0xDCFF then [p - 0xDC00]
    else if p < 0x800 then [0xC0 + p / 0x40, 0x80 + p % 0x40]
    else if p < 0x1_0000 then [0xE0 + p / 0x1000, 0x80 + p / 0x40 % 0x40, 0x80 + p % 0x40]
    else [0xF0 + p / 0x4_0000, 0x80 + p / 0x1000 % 0x40, 0x80 + p / 0x40 % 0x40, 0x80 + p % 0x40]
  }

  function EncodeAll(t: Text): seq<Byte>
  {
    if t == [] then [] else Encode(t[0]) + EncodeAll(t[1..])
  }

  /** What a universal character name adds; '?' when there is no such character. */
  function Utf8(v: nat): seq<Byte>
  {
    if v >= 0x11_0000 || 0xD800 <= v < 0xE000 then ['?' as int] else Encode(v)
  }

  predicate IsSimple(p: Point)
  {
    p in ['n' as int, 't' as int, 'r' as int, 'a' as int, 'b' as int, 'f' as int, 'v' as int,
          BACKSLASH, APOSTROPHE, QUOTE, '?' as int]
  }

  function Simple(p: Point): Byte
    requires IsSimple(p)
  {
    if p == 'n' as int then 10 else if p == 't' as int then 9 else if p == 'r' as int then 13
    else if p == 'a' as int then 7 else if p == 'b' as int then 8 else if p == 'f' as int then 12
    else if p == 'v' as int then 11 else p
  }

  // ----- literals ---------------------------------------------------------------------------

  datatype Number = Number(value: nat, rest: Text)

  /** Digits read onto v, at most so many. */
  function Digits(s: Text, base: nat, most: nat, v: nat): (r: Number)
    requires base > 0
    ensures |r.rest| <= |s|
    decreases most
  {
    if most == 0 || s == [] || DigitOf(s[0], base) < 0 then Number(v, s)
    else Digits(s[1..], base, most - 1, v * base + DigitOf(s[0], base))
  }

  datatype Quoted = Quoted(body: seq<Byte>, rest: Text)

  /** An escape sequence, past its backslash. */
  function Escaped(s: Text): (q: Quoted)
    requires s != []
    ensures |q.rest| < |s|
  {
    var c := s[0];
    if IsSimple(c) then Quoted([Simple(c)], s[1..])
    else if c == NEWLINE then Quoted([], s[1..])
    else if c == RETURN then Quoted([], if |s| > 1 && s[1] == NEWLINE then s[2..] else s[1..])
    else if c == 'x' as int then
      var n := Digits(s[1..], 16, |s|, 0);
      Quoted([n.value % 256], n.rest)
    else if c == 'u' as int || c == 'U' as int then
      var n := Digits(s[1..], 16, if c == 'u' as int then 4 else 8, 0);
      Quoted(Utf8(n.value), n.rest)
    else if Between(c, '0', '7') then
      var n := Digits(s[1..], 8, 2, c - '0' as int);
      Quoted([n.value % 256], n.rest)
    else Quoted(Encode(c), s[1..])
  }

  function PastQuote(s: Text, quote: Point): (r: Text)
    ensures |r| <= |s|
  {
    if s != [] && s[0] == quote then s[1..] else s
  }

  function Prepend(b: seq<Byte>, q: Quoted): Quoted { q.(body := b + q.body) }

  /** The body of a literal and what follows it; s starts past the opening quote. */
  function QuotedAt(s: Text, quote: Point): (q: Quoted)
    ensures |q.rest| <= |s|
    decreases |s|
  {
    if s == [] || s[0] == quote then Quoted([], PastQuote(s, quote))
    else if s[0] == NEWLINE then Quoted([], PastQuote(s[1..], quote))
    else if s[0] != BACKSLASH || |s| == 1 then Prepend(Encode(s[0]), QuotedAt(s[1..], quote))
    else
      var e := Escaped(s[1..]);
      Prepend(e.body, QuotedAt(e.rest, quote))
  }

  method ReadDigits(src: Text, start: nat, base: nat, most: nat, first: nat) returns (v: nat, i: nat)
    requires start <= |src| && base > 0
    ensures start <= i <= |src|
    ensures Digits(src[start..], base, most, first) == Number(v, src[i..])
  {
    hide Digits, DigitOf;
    i, v := start, first;
    var k := 0;
    while k < most && i < |src| && DigitOf(src[i], base) >= 0
      invariant start <= i <= |src| && k <= most
      invariant Digits(src[start..], base, most, first) == Digits(src[i..], base, most - k, v)
    {
      Drops(src, i, 1);
      DigitsStep(src[i..], base, most - k, v);
      v := v * base + DigitOf(src[i], base);
      i := i + 1;
      k := k + 1;
    }
    DigitsStep(src[i..], base, most - k, v);
  }

  lemma DigitsStep(s: Text, base: nat, most: nat, v: nat)
    requires base > 0
    ensures Digits(s, base, most, v) ==
      if most == 0 || s == [] || DigitOf(s[0], base) < 0 then Number(v, s)
      else Digits(s[1..], base, most - 1, v * base + DigitOf(s[0], base))
  {
  }

  method ReadEscape(src: Text, start: nat) returns (bytes: seq<Byte>, i: nat)
    requires start < |src|
    ensures start < i <= |src|
    ensures Escaped(src[start..]) == Quoted(bytes, src[i..])
  {
    hide Digits, Utf8, Encode;
    var c := src[start];
    i := start + 1;
    Drops(src, start, 1);
    if IsSimple(c) {
      bytes := [Simple(c)];
    } else if c == NEWLINE {
      bytes := [];
    } else if c == RETURN {
      bytes := [];
      if i < |src| && src[i] == NEWLINE {
        Drops(src, start, 2);
        i := i + 1;
      }
    } else if c == 'x' as int {
      var v;
      v, i := ReadDigits(src, i, 16, |src| - start, 0);
      bytes := [v % 256];
    } else if c == 'u' as int || c == 'U' as int {
      var v;
      v, i := ReadDigits(src, i, 16, if c == 'u' as int then 4 else 8, 0);
      bytes := Utf8(v);
    } else if Between(c, '0', '7') {
      var v;
      v, i := ReadDigits(src, i, 8, 2, c - '0' as int);
      bytes := [v % 256];
    } else {
      bytes := Encode(c);
    }
  }

  method ReadQuoted(src: Text, start: nat, quote: Point) returns (out: seq<Byte>, i: nat)
    requires start <= |src|
    ensures start <= i <= |src|
    ensures QuotedAt(src[start..], quote) == Quoted(out, src[i..])
  {
    hide Escaped, Encode, QuotedAt;
    i, out := start, [];
    while i < |src| && src[i] != quote
      invariant start <= i <= |src|
      invariant QuotedAt(src[start..], quote) == Prepend(out, QuotedAt(src[i..], quote))
      decreases |src| - i
    {
      ghost var before := out;
      Drops(src, i, 1);
      QuotedStep(src[i..], quote);
      var c := src[i];
      i := i + 1;
      if c == NEWLINE {
        assert QuotedAt(src[start..], quote) == Quoted(out, PastQuote(src[i..], quote));
        break;
      }
      if c != BACKSLASH || i >= |src| {
        out := out + Encode(c);
        Again(before, Encode(c), QuotedAt(src[i..], quote));
        continue;
      }
      var bytes;
      bytes, i := ReadEscape(src, i);
      out := out + bytes;
      Again(before, bytes, QuotedAt(src[i..], quote));
    }
    if i == |src| || src[i] == quote { QuotedStep(src[i..], quote); }
    assert QuotedAt(src[start..], quote) == Quoted(out, PastQuote(src[i..], quote));
    if i < |src| && src[i] == quote {
      Drops(src, i, 1);
      i := i + 1;
    }
  }

  lemma QuotedStep(s: Text, quote: Point)
    ensures QuotedAt(s, quote) ==
      if s == [] || s[0] == quote then Quoted([], PastQuote(s, quote))
      else if s[0] == NEWLINE then Quoted([], PastQuote(s[1..], quote))
      else if s[0] != BACKSLASH || |s| == 1 then Prepend(Encode(s[0]), QuotedAt(s[1..], quote))
      else Prepend(Escaped(s[1..]).body, QuotedAt(Escaped(s[1..]).rest, quote))
  {
    hide Escaped, Encode;
  }

  lemma Again(a: seq<Byte>, b: seq<Byte>, q: Quoted)
    ensures Prepend(a, Prepend(b, q)) == Prepend(a + b, q)
  {
    assert a + (b + q.body) == (a + b) + q.body;
  }

  // ----- tokens -----------------------------------------------------------------------------

  /** Where pat first stands in s, or -1. */
  function Find<T(==)>(s: seq<T>, pat: seq<T>): (k: int)
    ensures -1 <= k && (k >= 0 ==> k + |pat| <= |s|)
  {
    if |s| < |pat| then -1
    else if s[..|pat|] == pat then 0
    else if s == [] then -1
    else
      var k := Find(s[1..], pat);
      if k < 0 then -1 else k + 1
  }

  function AfterLine(s: Text): (r: Text)
    ensures |r| <= |s| && (s != [] && s[0] != NEWLINE ==> |r| < |s|)
    decreases |s|
  {
    if s == [] || s[0] == NEWLINE then s
    else if s[0] == BACKSLASH && |s| > 1 && s[1] == NEWLINE then AfterLine(s[2..])
    else AfterLine(s[1..])
  }

  function AfterBlock(s: Text): (r: Text)
    ensures |r| <= |s|
  {
    var end := Find(s, [STAR, SLASH]);
    if end < 0 then [] else s[end + 2..]
  }

  predicate StartsNumber(wide: Point -> bool, s: Text)
    requires s != []
  {
    IsDecimal(s[0]) || (s[0] == DOT && |s| > 1 && IsDigit(wide, s[1]))
  }

  predicate Exponent(p: Point) { p == 'e' as int || p == 'E' as int || p == 'p' as int || p == 'P' as int }

  predicate Sign(p: Point) { p == '+' as int || p == '-' as int }

  /** Whether a number goes on over s, last being its character before. */
  predicate GoesOn(last: Point, s: Text)
  {
    && s != []
    && ((Sign(s[0]) && Exponent(last)) || IsIdentChar(s[0]) || s[0] == DOT
        || (s[0] == APOSTROPHE && |s| > 1 && IsIdentChar(s[1])))
  }

  function AfterNumber(last: Point, s: Text): (r: Text)
    ensures |r| <= |s|
    decreases |s|
  {
    if GoesOn(last, s) then AfterNumber(s[0], s[1..]) else s
  }

  function WordLength(s: Text): (n: nat)
    ensures n <= |s| && (n < |s| ==> !IsIdentChar(s[n]))
    ensures forall k :: 0 <= k < n ==> IsIdentChar(s[k])
  {
    if s == [] || !IsIdentChar(s[0]) then 0 else 1 + WordLength(s[1..])
  }

  function Points(s: string): (t: Text)
    requires forall i :: 0 <= i < |s| ==> s[i] < 0x80 as char
    ensures |t| == |s| && forall i :: 0 <= i < |s| ==> t[i] == s[i] as int
  {
    seq(|s|, i requires 0 <= i < |s| => s[i] as int)
  }

  predicate IsRaw(name: Text)
  {
    name == Points("R") || name == Points("LR") || name == Points("uR") || name == Points("UR") || name == Points("u8R")
  }

  predicate IsPrefix(name: Text)
  {
    name == Points("L") || name == Points("u") || name == Points("U") || name == Points("u8")
  }

  datatype Step = Step(tokens: seq<Token>, rest: Text)

  /** A raw literal, past its quote. With no parenthesis the lexer gives up. */
  function RawAt(s: Text): (st: Step)
    ensures |st.rest| <= |s|
  {
    var op := Find(s, [OPEN]);
    if op < 0 then Step([], [])
    else
      var close := [CLOSE] + s[..op] + [QUOTE];
      var body := s[op + 1..];
      var end := Find(body, close);
      if end < 0 then Step([Str(EncodeAll(body))], [])
      else Step([Str(EncodeAll(body[..end]))], body[end + |close|..])
  }

  function WordAt(name: Text, rest: Text): (st: Step)
    ensures |st.rest| <= |rest|
  {
    if rest != [] && rest[0] == QUOTE && IsRaw(name) then RawAt(rest[1..])
    else if rest != [] && rest[0] == QUOTE && IsPrefix(name) then
      var q := QuotedAt(rest[1..], QUOTE);
      Step([Str(q.body)], q.rest)
    else Step([Ident(name)], rest)
  }

  /** One round of the lexer: the tokens it adds, none or one, and what it leaves. */
  function Next(wide: Point -> bool, s: Text): (st: Step)
    requires s != []
    ensures |st.rest| < |s|
  {
    var c := s[0];
    if c == SLASH && |s| > 1 && s[1] == SLASH then Step([], AfterLine(s))
    else if c == SLASH && |s| > 1 && s[1] == STAR then Step([], AfterBlock(s[2..]))
    else if c == QUOTE then
      var q := QuotedAt(s[1..], QUOTE);
      Step([Str(q.body)], q.rest)
    else if c == APOSTROPHE then Step([Punct(APOSTROPHE)], QuotedAt(s[1..], APOSTROPHE).rest)
    else if StartsNumber(wide, s) then Step([], AfterNumber(c, s[1..]))
    else if IsIdentStart(c) then WordAt(s[..WordLength(s)], s[WordLength(s)..])
    else if IsSpace(c) then Step([], s[1..])
    else Step([Punct(c)], s[1..])
  }

  function Tokens(wide: Point -> bool, s: Text): seq<Token>
    decreases |s|
  {
    if s == [] then [] else
    var st := Next(wide, s);
    st.tokens + Tokens(wide, st.rest)
  }

  method SkipLine(src: Text, start: nat) returns (i: nat)
    requires start <= |src|
    ensures start <= i <= |src| && AfterLine(src[start..]) == src[i..]
  {
    hide AfterLine;
    i := start;
    while i < |src| && src[i] != NEWLINE
      invariant start <= i <= |src|
      invariant AfterLine(src[start..]) == AfterLine(src[i..])
    {
      AfterLineStep(src[i..]);
      Drops(src, i, 1);
      if src[i] == BACKSLASH && i + 1 < |src| && src[i + 1] == NEWLINE {
        Drops(src, i, 2);
        i := i + 1;
      }
      i := i + 1;
    }
    AfterLineStep(src[i..]);
  }

  lemma AfterLineStep(s: Text)
    ensures AfterLine(s) ==
      if s == [] || s[0] == NEWLINE then s
      else if s[0] == BACKSLASH && |s| > 1 && s[1] == NEWLINE then AfterLine(s[2..])
      else AfterLine(s[1..])
  {
  }

  method SkipNumber(src: Text, start: nat) returns (i: nat)
    requires 0 < start <= |src|
    ensures start <= i <= |src| && AfterNumber(src[start - 1], src[start..]) == src[i..]
  {
    i := start;
    while i < |src|
      invariant start <= i <= |src|
      invariant AfterNumber(src[start - 1], src[start..]) == AfterNumber(src[i - 1], src[i..])
    {
      var d := src[i];
      Drops(src, i, 1);
      if Sign(d) && Exponent(src[i - 1]) {
        i := i + 1;
      } else if IsIdentChar(d) || d == DOT || (d == APOSTROPHE && i + 1 < |src| && IsIdentChar(src[i + 1])) {
        i := i + 1;
      } else {
        break;
      }
    }
  }

  method SkipWord(src: Text, start: nat) returns (i: nat)
    requires start <= |src|
    ensures i == start + WordLength(src[start..])
  {
    i := start;
    while i < |src| && IsIdentChar(src[i])
      invariant start <= i <= |src|
      invariant start + WordLength(src[start..]) == i + WordLength(src[i..])
    {
      Drops(src, i, 1);
      i := i + 1;
    }
  }

  /** lex, one round of its loop. */
  method ReadToken(wide: Point -> bool, src: Text, start: nat) returns (toks: seq<Token>, i: nat)
    requires start < |src|
    ensures start < i <= |src|
    ensures Next(wide, src[start..]) == Step(toks, src[i..])
  {
    hide AfterLine, AfterBlock, AfterNumber, QuotedAt, WordAt, IsSpace, Find, IsDigit;
    toks, i := [], start;
    var c := src[i];
    Drops(src, start, 1);
    if c == SLASH && i + 1 < |src| && src[i + 1] == SLASH {
      i := SkipLine(src, i);
    } else if c == SLASH && i + 1 < |src| && src[i + 1] == STAR {
      Drops(src, start, 2);
      i := SkipBlock(src, i + 2);
    } else if c == QUOTE {
      var body;
      body, i := ReadQuoted(src, i + 1, QUOTE);
      toks := [Str(body)];
    } else if c == APOSTROPHE {
      var body;
      body, i := ReadQuoted(src, i + 1, APOSTROPHE);
      toks := [Punct(APOSTROPHE)];
    } else if IsDecimal(c) || (c == DOT && i + 1 < |src| && IsDigit(wide, src[i + 1])) {
      i := SkipNumber(src, i + 1);
    } else if IsIdentStart(c) {
      i := SkipWord(src, start);
      Drops(src, start, i - start);
      assert src[start..][..i - start] == src[start..i];
      toks, i := ReadWord(src, start, i);
    } else if IsSpace(c) {
      i := i + 1;
    } else {
      toks, i := [Punct(c)], i + 1;
    }
  }

  method SkipBlock(src: Text, start: nat) returns (i: nat)
    requires start <= |src|
    ensures start <= i <= |src| && AfterBlock(src[start..]) == src[i..]
  {
    var end := Find(src[start..], [STAR, SLASH]);
    i := if end < 0 then |src| else start + end + 2;
    if end >= 0 { Drops(src, start, end + 2); }
  }

  method ReadWord(src: Text, start: nat, stop: nat) returns (toks: seq<Token>, i: nat)
    requires start < stop <= |src|
    ensures stop <= i <= |src|
    ensures WordAt(src[start..stop], src[stop..]) == Step(toks, src[i..])
  {
    hide IsRaw, IsPrefix, QuotedAt, RawAt;
    var name := src[start..stop];
    i := stop;
    if i < |src| && src[i] == QUOTE {
      Drops(src, i, 1);
      if IsRaw(name) {
        toks, i := ReadRaw(src, i + 1);
        return;
      }
      if IsPrefix(name) {
        var body;
        body, i := ReadQuoted(src, i + 1, QUOTE);
        toks := [Str(body)];
        return;
      }
    }
    toks := [Ident(name)];
  }

  method ReadRaw(src: Text, start: nat) returns (toks: seq<Token>, i: nat)
    requires start <= |src|
    ensures start <= i <= |src|
    ensures RawAt(src[start..]) == Step(toks, src[i..])
  {
    hide Find, EncodeAll;
    var op := Find(src[start..], [OPEN]);
    if op < 0 { return [], |src|; }
    var delim := src[start..start + op];
    assert delim == src[start..][..op];
    var close := [CLOSE] + delim + [QUOTE];
    var from := start + op + 1;
    Drops(src, start, op + 1);
    var end := Find(src[from..], close);
    var stop := if end < 0 then |src| else from + end;
    assert src[from..stop] == if end < 0 then src[from..] else src[from..][..end];
    toks := [Str(EncodeAll(src[from..stop]))];
    i := if end < 0 then |src| else stop + |close|;
    if end >= 0 { Drops(src, from, end + |close|); }
  }

  method Lex(wide: Point -> bool, src: Text) returns (toks: seq<Token>)
    ensures toks == Tokens(wide, src)
  {
    hide Next;
    toks := [];
    var i := 0;
    assert src[0..] == src;
    while i < |src|
      invariant 0 <= i <= |src|
      invariant toks + Tokens(wide, src[i..]) == Tokens(wide, src)
    {
      var more, after := ReadToken(wide, src, i);
      Associates(toks, more, Tokens(wide, src[after..]));
      toks := toks + more;
      i := after;
    }
  }

  // ----- keys -------------------------------------------------------------------------------

  predicate IsKeyName(name: Text)
  {
    name == Points("tr") || name == Points("trId") || name == Points("FOX_TR_NOOP")
  }

  /** How many literals stand at the front. */
  function Literals(t: seq<Token>): (n: nat)
    ensures n <= |t| && (n < |t| ==> !t[n].Str?) && forall k :: 0 <= k < n ==> t[k].Str?
  {
    if t == [] || !t[0].Str? then 0 else 1 + Literals(t[1..])
  }

  /** The bodies of literals, joined. */
  function Joined(t: seq<Token>): seq<Byte>
    requires forall k :: 0 <= k < |t| ==> t[k].Str?
  {
    if t == [] then [] else t[0].body + Joined(t[1..])
  }

  /** The key a call asks for: for anything but tr, the part before "##". */
  function KeyText(name: Text, joined: seq<Byte>): seq<Byte>
  {
    var h := Find(joined, [HASH, HASH]);
    if name == Points("tr") || h < 0 then joined else joined[..h]
  }

  /** The key, if any, of a call whose name is the first token. */
  function KeyAt(t: seq<Token>): seq<seq<Byte>>
    requires t != []
  {
    if !t[0].Ident? || !IsKeyName(t[0].name) || |t| < 2 || t[1] != Punct(OPEN) then []
    else
      var n := Literals(t[2..]);
      if n == 0 || 2 + n >= |t| || t[2 + n] != Punct(CLOSE) then []
      else
        var key := KeyText(t[0].name, Joined(t[2..2 + n]));
        if key == [] then [] else [key]
  }

  function Keys(t: seq<Token>): seq<seq<Byte>>
  {
    if t == [] then [] else KeyAt(t) + Keys(t[1..])
  }

  method ExtractKeys(wide: Point -> bool, src: Text) returns (keys: seq<seq<Byte>>)
    ensures keys == Keys(Tokens(wide, src))
  {
    hide KeyAt, Tokens;
    var t := Lex(wide, src);
    keys := [];
    assert t[0..] == t;
    for k := 0 to |t|
      invariant keys + Keys(t[k..]) == Keys(t)
    {
      var more := ReadKey(t, k);
      Drops(t, k, 1);
      Associates(keys, more, Keys(t[k + 1..]));
      keys := keys + more;
    }
  }

  method ReadKey(t: seq<Token>, k: nat) returns (more: seq<seq<Byte>>)
    requires k < |t|
    ensures more == KeyAt(t[k..])
  {
    hide Find, IsKeyName;
    if !t[k].Ident? || !IsKeyName(t[k].name) { return []; }
    if k + 1 >= |t| || t[k + 1] != Punct(OPEN) { return []; }
    var joined, j := ReadLiterals(t, k + 2);
    Drops(t, k, 2);
    if j == k + 2 || j >= |t| || t[j] != Punct(CLOSE) { return []; }
    assert t[k..][2..2 + (j - k - 2)] == t[k + 2..j];
    if t[k].name != Points("tr") {
      var h := Find(joined, [HASH, HASH]);
      if h >= 0 { joined := joined[..h]; }
    }
    more := if joined == [] then [] else [joined];
  }

  method ReadLiterals(t: seq<Token>, start: nat) returns (joined: seq<Byte>, j: nat)
    requires start <= |t|
    ensures j == start + Literals(t[start..])
    ensures forall k :: start <= k < j ==> t[k].Str?
    ensures joined == Joined(t[start..j])
  {
    hide Literals, Joined;
    joined, j := [], start;
    NoneJoined(t[start..j]);
    while j < |t| && t[j].Str?
      invariant start <= j <= |t|
      invariant forall k :: start <= k < j ==> t[k].Str?
      invariant start + Literals(t[start..]) == j + Literals(t[j..])
      invariant joined == Joined(t[start..j])
    {
      LiteralsAt(t, j);
      JoinedOne(t[start..j], t[j], t[start..j + 1]);
      joined := joined + t[j].body;
      j := j + 1;
    }
    LiteralsAt(t, j);
  }

  lemma LiteralsAt(t: seq<Token>, j: nat)
    requires j <= |t|
    ensures Literals(t[j..]) == if j < |t| && t[j].Str? then 1 + Literals(t[j + 1..]) else 0
  {
    if j < |t| { Drops(t, j, 1); }
  }

  lemma NoneJoined(t: seq<Token>)
    requires t == []
    ensures Joined(t) == []
  {
  }

  lemma {:induction false} JoinedOne(t: seq<Token>, last: Token, all: seq<Token>)
    requires last.Str? && (forall k :: 0 <= k < |t| ==> t[k].Str?) && all == t + [last]
    ensures Joined(all) == Joined(t) + last.body
  {
    if t == [] {
      NoneJoined(all[1..]);
    } else {
      assert all[1..] == t[1..] + [last];
      JoinedOne(t[1..], last, all[1..]);
    }
  }
}
