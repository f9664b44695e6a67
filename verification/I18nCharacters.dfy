/** The characters the lexer works on: what each class holds, and what the bytes of a key mean, by a UTF-8
    decoder (section 3 of RFC 3629) that knows nothing of the encoder. */
module I18nCharacters {
  import opened Texts
  import opened Wrappers
  import opened I18nLexer
  import opened I18nLexerProofs

  // ----- classes ----------------------------------------------------------------------------

  predicate OneOf(p: Point, s: string) { p < 0x80 && p as char in s }

  lemma ClassesAre(p: Point)
    ensures IsDecimal(p) <==> OneOf(p, "0123456789")
    ensures IsIdentStart(p) <==>
      OneOf(p, "ABCDEFGHIJKLMNOPQRSTUVWXYZ") || OneOf(p, "abcdefghijklmnopqrstuvwxyz") || OneOf(p, "_")
    ensures IsIdentChar(p) <==> OneOf(p, "0123456789") || IsIdentStart(p)
    ensures Exponent(p) <==> OneOf(p, "eEpP")
    ensures Sign(p) <==> OneOf(p, "+-")
  {
    LettersAre(p);
  }

  /** What follows a point to start a number: an ASCII digit, or one of the others Python takes for digits. */
  lemma DigitMarksAre(wide: Point -> bool, p: Point)
    ensures p <= 127 ==> (IsDigit(wide, p) <==> OneOf(p, "0123456789"))
    ensures p >= 128 ==> (IsDigit(wide, p) <==> wide(p))
  {
  }

  lemma LettersAre(p: Point)
    ensures IsIdentStart(p) <==>
      OneOf(p, "ABCDEFGHIJKLMNOPQRSTUVWXYZ") || OneOf(p, "abcdefghijklmnopqrstuvwxyz") || OneOf(p, "_")
  {
    CapitalsAre(p);
    SmallAre(p);
  }

  lemma CapitalsAre(p: Point)
    ensures Between(p, 'A', 'Z') <==> OneOf(p, "ABCDEFGHIJKLMNOPQRSTUVWXYZ")
  {
    var s := "ABCDEFGHIJKLMNOPQRSTUVWXYZ";
    if Between(p, 'A', 'Z') { assert s[p - 65] == p as char; }
    assert forall i :: 0 <= i < 26 ==> 'A' <= s[i] <= 'Z';
  }

  lemma SmallAre(p: Point)
    ensures Between(p, 'a', 'z') <==> OneOf(p, "abcdefghijklmnopqrstuvwxyz")
  {
    var s := "abcdefghijklmnopqrstuvwxyz";
    if Between(p, 'a', 'z') { assert s[p - 97] == p as char; }
    assert forall i :: 0 <= i < 26 ==> 'a' <= s[i] <= 'z';
  }

  lemma SpacesAre(p: Point)
    ensures IsSpace(p) <==>
      p in [9, 10, 11, 12, 13, 28, 29, 30, 31, 32, 133, 160, 5760, 8192, 8193, 8194, 8195, 8196, 8197, 8198, 8199,
            8200, 8201, 8202, 8232, 8233, 8239, 8287, 12288]
  {
  }

  lemma CodesAre()
    ensures NEWLINE == 10 && RETURN == 13 && QUOTE == 34 && HASH == 35 && APOSTROPHE == 39 && OPEN == 40
    ensures CLOSE == 41 && STAR == 42 && DOT == 46 && SLASH == 47 && BACKSLASH == 92
  {
  }

  /** A digit's value is its place among the digits. */
  lemma DigitsAre(p: Point, v: nat)
    requires v < 16
    ensures DigitOf(p, 16) == v <==>
      p == "0123456789abcdef"[v] as int || p == "0123456789ABCDEF"[v] as int
    ensures DigitOf(p, 8) == v <==> v < 8 && p == "0123456789abcdef"[v] as int
  {
  }

  // ----- UTF-8 ------------------------------------------------------------------------------

  predicate Continues(b: Byte) { 0x80 <= b <= 0xBF }

  /** How many bytes a sequence with this first byte has; none for a byte that starts none. */
  function SequenceLength(b: Byte): nat
  {
    if b <= 0x7F then 1 else if 0xC2 <= b <= 0xDF then 2 else if 0xE0 <= b <= 0xEF then 3
    else if 0xF0 <= b <= 0xF4 then 4 else 0
  }

  predicate Sequence(b: seq<Byte>)
  {
    b != [] && |b| == SequenceLength(b[0]) && forall i :: 0 < i < |b| ==> Continues(b[i])
  }

  /** The low six bits of a byte that continues a sequence. */
  function Six(b: Byte): int { b as int - 128 }

  /** The number a sequence's free bits make. */
  function NumberOf(b: seq<Byte>): int
    requires Sequence(b)
  {
    if |b| == 1 then b[0]
    else if |b| == 2 then (b[0] as int - 192) * 64 + Six(b[1])
    else if |b| == 3 then (b[0] as int - 224) * 4096 + Six(b[1]) * 64 + Six(b[2])
    else (b[0] as int - 240) * 262144 + Six(b[1]) * 4096 + Six(b[2]) * 64 + Six(b[3])
  }

  /** A Unicode character: no surrogate, and so no stray byte. */
  predicate IsCharacter(p: int) { 0 <= p < 0xD800 || 0xE000 <= p < 0x11_0000 }

  /** Neither longer than it need be, nor a surrogate, nor too large. */
  predicate WellEncoded(b: seq<Byte>)
  {
    && Sequence(b) && IsCharacter(NumberOf(b))
    && (|b| == 3 ==> NumberOf(b) >= 0x800) && (|b| == 4 ==> NumberOf(b) >= 0x1_0000)
  }

  function Decode(b: seq<Byte>): Option<seq<int>>
  {
    if b == [] then Some([])
    else
      var n := SequenceLength(b[0]);
      if n == 0 || n > |b| || !WellEncoded(b[..n]) then None
      else
        match Decode(b[n..])
        case None => None
        case Some(rest) => Some([NumberOf(b[..n])] + rest)
  }

  lemma TwoBytes(p: Point)
    requires 0x80 <= p < 0x800
    ensures WellEncoded(Encode(p)) && NumberOf(Encode(p)) == p
  {
  }

  lemma ThreeBytes(p: Point)
    requires 0x800 <= p < 0x1_0000 && IsCharacter(p)
    ensures WellEncoded(Encode(p)) && NumberOf(Encode(p)) == p
  {
    var b := Encode(p);
    assert b == [0xE0 + p / 0x1000, 0x80 + p / 0x40 % 0x40, 0x80 + p % 0x40];
    assert p / 0x40 / 0x40 == p / 0x1000;
  }

  lemma FourBytes(p: Point)
    requires 0x1_0000 <= p
    ensures WellEncoded(Encode(p)) && NumberOf(Encode(p)) == p
  {
    var b := Encode(p);
    assert b == [0xF0 + p / 0x4_0000, 0x80 + p / 0x1000 % 0x40, 0x80 + p / 0x40 % 0x40, 0x80 + p % 0x40];
    assert p / 0x40 / 0x40 == p / 0x1000 && p / 0x1000 / 0x40 == p / 0x4_0000;
  }

  lemma CharacterDecodes(p: Point, rest: seq<Byte>)
    requires IsCharacter(p)
    ensures Decode(Encode(p) + rest) ==
      match Decode(rest) case None => None case Some(more) => Some([p as int] + more)
  {
    var b := Encode(p);
    if 0x80 <= p < 0x800 { TwoBytes(p); }
    else if 0x800 <= p < 0x1_0000 { ThreeBytes(p); }
    else if p >= 0x1_0000 { FourBytes(p); }
    hide Encode, NumberOf;
    OneSequence(b, p, rest);
  }

  lemma OneSequence(b: seq<Byte>, p: int, rest: seq<Byte>)
    requires WellEncoded(b) && NumberOf(b) == p
    ensures Decode(b + rest) == match Decode(rest) case None => None case Some(more) => Some([p] + more)
  {
    hide NumberOf;
    assert (b + rest)[..|b|] == b && (b + rest)[|b|..] == rest;
  }

  /** A stray byte stands for itself; so does nothing else above 0x7F. */
  lemma StrayIs(p: Point)
    ensures 0xDC80 <= p <= 0xDCFF ==> Encode(p) == [p - 0xDC00]
    ensures p < 0x80 ==> Encode(p) == [p]
  {
  }

  /** A universal name of no character gives a question mark; of any other, what the character gives. */
  lemma NamedIs(v: nat)
    ensures Utf8(v) == if IsCharacter(v) then Encode(v) else [63]
  {
  }

  // ----- what a literal's bytes mean --------------------------------------------------------

  /** The unit stands for characters, one or none. */
  predicate Spells(u: Unit)
  {
    match u
    case Plain(p) => IsCharacter(p)
    case Escape(p, b) => StandsFor(p, b)
    case Octal(d) => AreDigits(d, 8) && Accumulated(d, 8, 0) % 256 < 128
    case Hex(d) => AreDigits(d, 16) && Accumulated(d, 16, 0) % 256 < 128
    case Named(d, _) => AreDigits(d, 16) && IsCharacter(Accumulated(d, 16, 0))
    case Splice(_) => true
    case Return => true
    case Other(p) => IsCharacter(p)
  }

  function CharactersOf(u: Unit): seq<int>
    requires Spells(u)
  {
    match u
    case Plain(p) => [p as int]
    case Escape(_, b) => [b as int]
    case Octal(d) => [Accumulated(d, 8, 0) % 256]
    case Hex(d) => [Accumulated(d, 16, 0) % 256]
    case Named(d, _) => [Accumulated(d, 16, 0) as int]
    case Splice(_) => []
    case Return => []
    case Other(p) => [p as int]
  }

  function Characters(us: seq<Unit>): seq<int>
    requires forall i :: 0 <= i < |us| ==> Spells(us[i])
  {
    if us == [] then [] else CharactersOf(us[0]) + Characters(us[1..])
  }

  lemma UnitDecodes(u: Unit, rest: seq<Byte>)
    requires Spells(u)
    ensures Decode(UnitBytes(u) + rest) ==
      match Decode(rest) case None => None case Some(more) => Some(CharactersOf(u) + more)
  {
    hide Decode, Encode, Utf8, Accumulated, AreDigits;
    match u
    case Plain(p) => CharacterDecodes(p, rest);
    case Escape(_, b) =>
      StrayIs(b);
      CharacterDecodes(b, rest);
    case Octal(d) =>
      StrayIs(Accumulated(d, 8, 0) % 256);
      CharacterDecodes(Accumulated(d, 8, 0) % 256, rest);
    case Hex(d) =>
      StrayIs(Accumulated(d, 16, 0) % 256);
      CharacterDecodes(Accumulated(d, 16, 0) % 256, rest);
    case Named(d, _) =>
      NamedIs(Accumulated(d, 16, 0));
      CharacterDecodes(Accumulated(d, 16, 0), rest);
    case Other(p) => CharacterDecodes(p, rest);
    case Splice(_) => NoneAdded(rest);
    case Return => NoneAdded(rest);
  }

  lemma NoneAdded(rest: seq<Byte>)
    ensures [] + rest == rest
    ensures Decode(rest).Some? ==> [] + Decode(rest).value == Decode(rest).value
  {
  }

  /** The bytes of a literal decode, as UTF-8, to the characters written in it: as they stand, by an escape,
      by number or by name. */
  lemma {:induction false} BytesAreCharacters(us: seq<Unit>)
    requires forall i :: 0 <= i < |us| ==> Spells(us[i])
    ensures Decode(Bytes(us)) == Some(Characters(us))
  {
    hide UnitBytes, CharactersOf, Spells, Decode;
    if us == [] {
      NothingDecodes();
    } else {
      UnitDecodes(us[0], Bytes(us[1..]));
      BytesAreCharacters(us[1..]);
    }
  }

  lemma NothingDecodes()
    ensures Decode([]) == Some([])
  {
  }

  /** So a literal of characters is read back as them, to its end. */
  lemma LiteralSpells(us: seq<Unit>, quote: Point, rest: Text)
    requires FitUnits(us, quote, quote) && quote != BACKSLASH && forall i :: 0 <= i < |us| ==> Spells(us[i])
    ensures var q := QuotedAt(WriteUnits(us) + [quote] + rest, quote);
      Decode(q.body) == Some(Characters(us)) && q.rest == rest
  {
    hide Decode, QuotedAt, WriteUnits, FitUnits, Bytes, Characters, Spells;
    UnitsReadBack(us, quote, rest);
    BytesAreCharacters(us);
  }

  /** And a raw literal's text, when no stray byte is in it. */
  lemma {:induction false} RawSpells(t: Text)
    requires forall i :: 0 <= i < |t| ==> IsCharacter(t[i])
    ensures Decode(EncodeAll(t)).Some? && |Decode(EncodeAll(t)).value| == |t|
    ensures forall i :: 0 <= i < |t| ==> Decode(EncodeAll(t)).value[i] == t[i]
  {
    hide Decode, Encode;
    if t == [] {
      NothingDecodes();
    } else {
      CharacterDecodes(t[0], EncodeAll(t[1..]));
      RawSpells(t[1..]);
    }
  }
}
