/** The head of a crash report: how writeReport writes it, and how a later run decides, from whatever
    part of it reached the disk, whether it is the whole report of a death. */
module ReportHead {
  import opened Decimals
  import opened Texts
  import opened Sequences

  const ABSORBED_FAULT: string := "fault in a third-party SDR module, absorbed"
  const CHILD_DEATH: string := "SDR device enumeration child process died"
  const CONTAINED_FAULT: string := "child process fault (contained)"

  // ----- writing ----------------------------------------------------------------------------

  predicate IsPrintable(c: char) { ' ' <= c < 0x7F as char }

  /** copyPrintable: printable ASCII, cut to what fits `cap` bytes with the terminator. */
  function Printable(src: string, cap: nat): (s: string)
    requires cap > 0
    ensures |s| < cap && forall i :: 0 <= i < |s| ==> IsPrintable(s[i])
  {
    var n := if |src| < cap then |src| else cap - 1;
    seq(n, i requires 0 <= i < n => if IsPrintable(src[i]) then src[i] else '?')
  }

  method CopyPrintable(dst: array<char>, src: string)
    requires dst.Length > 0
    modifies dst
    ensures var s := Printable(src, dst.Length);
      dst[..|s|] == s && dst[|s|] == '\0'
  {
    var at := 0;
    while at < |src| && at + 1 < dst.Length
      invariant 0 <= at <= |src| && at < dst.Length
      invariant forall i :: 0 <= i < at ==> dst[i] == if IsPrintable(src[i]) then src[i] else '?'
    {
      dst[at] := if IsPrintable(src[at]) then src[at] else '?';
      at := at + 1;
    }
    dst[at] := '\0';
  }

  /** Character by character: the codes 32 to 126 stay, any other is a question mark. */
  lemma PrintableIs(src: string, cap: nat, i: nat)
    requires 0 < cap && i < |src| && i < cap - 1
    ensures |Printable(src, cap)| == if |src| < cap then |src| else cap - 1
    ensures Printable(src, cap)[i] == if 32 <= src[i] as int <= 126 then src[i] else '?'
  {
  }

  predicate OneLine(s: string) { '\n' !in s }

  /** The sanitised suffix cannot add a line to the header. */
  lemma SuffixIsOneLine(src: string, cap: nat)
    requires cap > 0
    ensures OneLine(Printable(src, cap))
  {
  }

  function HexDigit(v: nat): char { var d := v % 16; if d < 10 then '0' + d as char else 'A' + (d - 10) as char }

  /** Fixed-width upper-case hexadecimal. */
  function Hex(v: nat, digits: nat): string
  {
    if digits == 0 then "" else Hex(v / 16, digits - 1) + [HexDigit(v)]
  }

  function HexValue(s: string): nat
  {
    if s == "" then 0 else 16 * HexValue(s[..|s| - 1]) + IndexOf("0123456789ABCDEF", s[|s| - 1])
  }

  function Sixteens(n: nat): (p: nat)
    ensures p > 0
  {
    if n == 0 then 1 else 16 * Sixteens(n - 1)
  }

  lemma HexDigitIs(v: nat)
    ensures "0123456789ABCDEF"[v % 16] == HexDigit(v) && IndexOf("0123456789ABCDEF", HexDigit(v)) == v % 16
  {
    var d, all := v % 16, "0123456789ABCDEF";
    assert all[d] == HexDigit(v);
    assert forall k :: 0 <= k < d ==> all[k] != all[d];
  }

  lemma {:induction false} HexIsUpper(v: nat, digits: nat)
    ensures |Hex(v, digits)| == digits && forall i :: 0 <= i < digits ==> Hex(v, digits)[i] in "0123456789ABCDEF"
  {
    hide HexDigit, IndexOf;
    if digits > 0 {
      HexIsUpper(v / 16, digits - 1);
      HexDigitIs(v);
    }
  }

  lemma HexValueOf(s: string, c: char)
    ensures HexValue(s + [c]) == 16 * HexValue(s) + IndexOf("0123456789ABCDEF", c)
  {
    hide IndexOf;
    assert (s + [c])[..|s|] == s;
  }

  /** The digits of a code, upper-case hexadecimal and as many as asked for, are worth the code when it is
      small enough for them. */
  lemma {:induction false} HexReadsBack(v: nat, digits: nat)
    ensures |Hex(v, digits)| == digits && forall i :: 0 <= i < digits ==> Hex(v, digits)[i] in "0123456789ABCDEF"
    ensures v < Sixteens(digits) ==> HexValue(Hex(v, digits)) == v
  {
    hide HexDigit, IndexOf, HexValue;
    HexIsUpper(v, digits);
    if digits > 0 {
      HexReadsBack(v / 16, digits - 1);
      HexDigitIs(v);
      HexValueOf(Hex(v / 16, digits - 1), HexDigit(v));
    } else {
      assert HexValue("") == 0 by { NoHex(); }
    }
  }

  lemma NoHex()
    ensures HexValue("") == 0
  {
  }

  /** So a 32-bit code's eight digits are the whole of it. */
  lemma CodeReadsBack(v: nat)
    requires v <= 0xFFFF_FFFF
    ensures HexValue(Hex(v, 8)) == v
  {
    hide Hex, HexValue;
    HexReadsBack(v, 8);
    assert Sixteens(4) == 65536;
    assert Sixteens(8) == 4294967296;
  }

  datatype Fault = Fault(reason: string, suffix: string, code: nat, address: string, signature: string, thread: nat)

  function Lines(f: Fault): seq<string>
  {
    ["kind: crash",
     "reason: " + f.reason + f.suffix,
     "code: 0x" + Hex(f.code, 8),
     "address: " + f.address,
     "signature: " + f.signature]
  }

  function Text(lines: seq<string>): string
  {
    if lines == [] then "" else lines[0] + "\n" + Text(lines[1..])
  }

  /** The header as the calls of writeReport put it out. */
  method WriteHeader(f: Fault) returns (out: string)
    ensures out == Text(Lines(f)) + "thread: " + Decimal(f.thread) + "\n"
  {
    out := "kind: crash\n";
    out := out + "reason: ";
    out := out + f.reason;
    out := out + f.suffix;
    out := out + "\ncode: 0x";
    out := out + Hex(f.code, 8);
    out := out + "\naddress: ";
    out := out + f.address;
    out := out + "\nsignature: ";
    out := out + f.signature;
    HeaderText(f);
    assert out + "\n" == Text(Lines(f));
    out := out + "\nthread: ";
    out := out + Decimal(f.thread);
    out := out + "\n";
  }

  lemma HeaderText(f: Fault)
    ensures Text(Lines(f)) == "kind: crash\n" + "reason: " + f.reason + f.suffix + "\ncode: 0x" + Hex(f.code, 8)
      + "\naddress: " + f.address + "\nsignature: " + f.signature + "\n"
  {
    FiveLines("kind: crash", "reason: " + f.reason + f.suffix, "code: 0x" + Hex(f.code, 8),
              "address: " + f.address, "signature: " + f.signature);
    Joined(f.reason, f.suffix, Hex(f.code, 8), f.address, f.signature);
  }

  lemma FiveLines(a: string, b: string, c: string, d: string, e: string)
    ensures Text([a, b, c, d, e]) == a + "\n" + (b + "\n" + (c + "\n" + (d + "\n" + (e + "\n"))))
  {
    assert [a, b, c, d, e][1..] == [b, c, d, e];
    assert [b, c, d, e][1..] == [c, d, e];
    assert [c, d, e][1..] == [d, e];
    assert [d, e][1..] == [e];
    assert [e][1..] == [];
    assert Text([e]) == e + "\n";
    assert Text([d, e]) == d + "\n" + Text([e]);
    assert Text([c, d, e]) == c + "\n" + Text([d, e]);
    assert Text([b, c, d, e]) == b + "\n" + Text([c, d, e]);
  }

  lemma Joined(reason: string, suffix: string, code: string, address: string, signature: string)
    ensures "kind: crash" + "\n" + ("reason: " + reason + suffix + "\n" + ("code: 0x" + code + "\n" +
        ("address: " + address + "\n" + ("signature: " + signature + "\n"))))
      == "kind: crash\n" + "reason: " + reason + suffix + "\ncode: 0x" + code
        + "\naddress: " + address + "\nsignature: " + signature + "\n"
  {
    Flat("kind: crash", "reason: " + reason + suffix, "code: 0x" + code, "address: " + address,
         "signature: " + signature);
    assert "kind: crash" + "\n" == "kind: crash\n" && "\n" + "code: 0x" == "\ncode: 0x";
    assert "\n" + "address: " == "\naddress: " && "\n" + "signature: " == "\nsignature: ";
    var a, b, c := "kind: crash\n" + ("reason: " + reason + suffix), "\ncode: 0x", "\naddress: ";
    assert a == "kind: crash\n" + "reason: " + reason + suffix;
    Associates(a, b, code);
    Associates(a + b + code, c, address);
    Associates(a + b + code + c + address, "\nsignature: ", signature);
  }

  lemma Flat(k: string, r: string, c: string, d: string, e: string)
    ensures k + "\n" + (r + "\n" + (c + "\n" + (d + "\n" + (e + "\n"))))
      == (k + "\n") + r + ("\n" + c) + ("\n" + d) + ("\n" + e) + "\n"
  {
  }

  // ----- reading ----------------------------------------------------------------------------

  datatype Seen = Seen(kind: bool, signature: bool, absorbed: bool)

  const NOTHING: Seen := Seen(false, false, false)

  function StripCr(line: string): string
  {
    if line != "" && line[|line| - 1] == '\r' then line[..|line| - 1] else line
  }

  /** The reason of a fault the process survived: its own absorbed one, or a child's. */
  predicate Survived(reason: string)
  {
    ABSORBED_FAULT <= reason || CHILD_DEATH <= reason || CONTAINED_FAULT <= reason
  }

  predicate IsHexDigit(c: char) { '0' <= c <= '9' || 'A' <= c <= 'F' || 'a' <= c <= 'f' }

  predicate IsSignature(s: string) { |s| == 16 && forall i :: 0 <= i < |s| ==> IsHexDigit(s[i]) }

  function Note(seen: Seen, line: string, complete: bool): Seen
  {
    if line == "kind: crash" then seen.(kind := true)
    else if "reason: " <= line then seen.(absorbed := Survived(line[8..]))
    else if complete && "signature: " <= line then seen.(signature := IsSignature(line[11..]))
    else seen
  }

  function Scan(s: string, seen: Seen): Seen
    decreases |s|
  {
    if s == "" then seen
    else
      var eol := IndexOf(s, '\n');
      var line := StripCr(s[..eol]);
      if "--- " <= line then seen
      else Scan(if eol < |s| then s[eol + 1..] else "", Note(seen, line, eol < |s|))
  }

  predicate IsWhole(seen: Seen) { seen.kind && seen.signature && !seen.absorbed }

  lemma ScanStops(s: string, seen: Seen)
    requires s != "" && "--- " <= StripCr(s[..IndexOf(s, '\n')])
    ensures Scan(s, seen) == seen
  {
  }

  lemma ScanGoesOn(s: string, seen: Seen)
    requires s != "" && !("--- " <= StripCr(s[..IndexOf(s, '\n')]))
    ensures var eol := IndexOf(s, '\n');
      Scan(s, seen) == Scan(if eol < |s| then s[eol + 1..] else "", Note(seen, StripCr(s[..eol]), eol < |s|))
  {
  }

  lemma HexDigitsAre()
    ensures forall c :: IsHexDigit(c) <==> c in "0123456789ABCDEFabcdef"
  {
  }

  lemma SignatureIs(s: string)
    ensures IsSignature(s) <==> |s| == 16 && forall i :: 0 <= i < 16 ==> s[i] in "0123456789ABCDEFabcdef"
  {
    HexDigitsAre();
  }

  method HexSignature(sig: string) returns (hex: bool)
    ensures hex <==> |sig| == 16 && forall i :: 0 <= i < 16 ==> sig[i] in "0123456789ABCDEFabcdef"
  {
    HexDigitsAre();
    hex := |sig| == 16;
    for i := 0 to |sig|
      invariant hex <==> |sig| == 16 && forall k :: 0 <= k < i ==> sig[k] in "0123456789ABCDEFabcdef"
    {
      if !IsHexDigit(sig[i]) { hex := false; }
    }
  }

  /** What is left of the head at pos; nothing past its end. */
  function From(head: string, pos: nat): string { if pos <= |head| then head[pos..] else "" }

  method IsWholeFatalReportHead(head: string) returns (whole: bool)
    ensures whole == IsWhole(Scan(head, NOTHING))
  {
    hide Scan, IsSignature, Survived, StripCr;
    var sawKind, sawSignature, absorbed := false, false, false;
    var pos := 0;
    while pos < |head|
      invariant 0 <= pos <= |head| + 1
      invariant Scan(head, NOTHING) == Scan(From(head, pos), Seen(sawKind, sawSignature, absorbed))
      decreases |head| + 1 - pos
    {
      ghost var s := head[pos..];
      var eol := pos + IndexOf(head[pos..], '\n');
      var complete := eol < |head|;
      var line := StripCr(head[pos..eol]);
      assert head[pos..eol] == s[..eol - pos];
      assert complete ==> s[eol - pos + 1..] == head[eol + 1..];
      pos := eol + 1;
      if "--- " <= line {
        ScanStops(s, Seen(sawKind, sawSignature, absorbed));
        return sawKind && sawSignature && !absorbed;
      }
      ScanGoesOn(s, Seen(sawKind, sawSignature, absorbed));
      if line == "kind: crash" {
        sawKind := true;
      } else if "reason: " <= line {
        absorbed := Survived(line[8..]);
      } else if complete && "signature: " <= line {
        SignatureIs(line[11..]);
        sawSignature := HexSignature(line[11..]);
      }
    }
    assert From(head, pos) == "";
    assert Scan("", Seen(sawKind, sawSignature, absorbed)) == Seen(sawKind, sawSignature, absorbed) by {
      ScanNothing(Seen(sawKind, sawSignature, absorbed));
    }
    return sawKind && sawSignature && !absorbed;
  }

  lemma ScanNothing(seen: Seen)
    ensures Scan("", seen) == seen
  {
  }

  // ----- every prefix of a written report ---------------------------------------------------

  lemma FirstLine(line: string, rest: string)
    requires OneLine(line)
    ensures IndexOf(line + "\n" + rest, '\n') == |line|
    ensures (line + "\n" + rest)[..|line|] == line && (line + "\n" + rest)[|line| + 1..] == rest
  {
    assert line + "\n" + rest == line + ['\n'] + rest;
    IndexOfFirst(line, '\n', rest);
  }

  lemma ScanLine(line: string, rest: string, seen: Seen)
    requires OneLine(line) && !("--- " <= StripCr(line))
    ensures Scan(line + "\n" + rest, seen) == Scan(rest, Note(seen, StripCr(line), true))
  {
    FirstLine(line, rest);
  }

  /** A cut line is read, but as one that is not complete. */
  lemma ScanPartial(line: string, seen: Seen)
    requires OneLine(line)
    ensures Scan(line, seen) in {seen, Note(seen, StripCr(line), false)}
    ensures Scan(line, seen).signature == seen.signature
  {
    assert line[..|line|] == line;
  }

  /** Lines the reader goes through: single, and none the start of the next section. */
  ghost predicate Readable(lines: seq<string>)
  {
    forall i :: 0 <= i < |lines| ==> OneLine(lines[i]) && !("--- " <= StripCr(lines[i]))
  }

  lemma {:induction false} CutBeforeSignature(lines: seq<string>, k: nat, seen: Seen)
    requires Readable(lines) && k < |Text(lines)| && !seen.signature
    requires forall i :: 0 <= i < |lines| - 1 ==> !("signature: " <= StripCr(lines[i]))
    ensures !Scan(Text(lines)[..k], seen).signature
  {
    hide Scan, Note, StripCr;
    var line, rest := lines[0], Text(lines[1..]);
    if k <= |line| {
      assert Text(lines)[..k] == line[..k];
      ScanPartial(line[..k], seen);
    } else {
      var cut := rest[..k - |line| - 1];
      assert Text(lines)[..k] == line + "\n" + cut;
      ScanLine(line, cut, seen);
      NoteElse(seen, StripCr(line));
      CutBeforeSignature(lines[1..], k - |line| - 1, Note(seen, StripCr(line), true));
    }
  }

  lemma NoteElse(seen: Seen, line: string)
    requires !("signature: " <= line)
    ensures Note(seen, line, true).signature == seen.signature
  {
  }

  function NoteAll(seen: Seen, lines: seq<string>): Seen
    decreases |lines|
  {
    if lines == [] then seen else NoteAll(Note(seen, StripCr(lines[0]), true), lines[1..])
  }

  lemma {:induction false} ScanLines(lines: seq<string>, rest: string, seen: Seen)
    requires Readable(lines)
    ensures Scan(Text(lines) + rest, seen) == Scan(rest, NoteAll(seen, lines))
  {
    hide Scan, Note, StripCr;
    if lines == [] {
      assert Text(lines) + rest == rest;
    } else {
      assert Text(lines) + rest == lines[0] + "\n" + (Text(lines[1..]) + rest);
      ScanLine(lines[0], Text(lines[1..]) + rest, seen);
      ScanLines(lines[1..], rest, Note(seen, StripCr(lines[0]), true));
    }
  }

  /** Nothing after the signature changes the answer: the thread line is not looked at, and the next
      section's first line stops the reader. */
  lemma RestIsIgnored(thread: string, rest: string, k: nat, seen: Seen)
    requires OneLine(thread) && "--- " <= rest && k <= |"thread: " + thread + "\n" + rest|
    ensures Scan(("thread: " + thread + "\n" + rest)[..k], seen) == seen
  {
    var line := "thread: " + thread;
    var all := line + "\n" + rest;
    assert all == "thread: " + thread + "\n" + rest;
    assert OneLine(line);
    if k <= |line| {
      assert all[..k] == line[..k];
      ScanPartial(line[..k], seen);
      ThreadLine(line[..k], thread, seen, false);
    } else {
      var cut := rest[..k - |line| - 1];
      assert all[..k] == line + "\n" + cut;
      ThreadLine(line, thread, seen, true);
      ScanLine(line, cut, seen);
      DashesStop(cut, rest, seen);
    }
  }

  lemma ThreadLine(part: string, thread: string, seen: Seen, complete: bool)
    requires part <= "thread: " + thread
    ensures Note(seen, StripCr(part), complete) == seen && !("--- " <= StripCr(part))
  {
    if part != "" { assert part[0] == 't'; }
    var line := StripCr(part);
    assert line <= part;
    assert "kind: crash"[0] == 'k' && "reason: "[0] == 'r' && "signature: "[0] == 's' && "--- "[0] == '-';
  }

  lemma DashesStop(cut: string, rest: string, seen: Seen)
    requires cut <= rest && "--- " <= rest
    ensures Scan(cut, seen) == seen
  {
    if |cut| >= 4 {
      assert "--- " <= cut;
      var eol := IndexOf(cut, '\n');
      assert cut[0] == '-' && cut[1] == '-' && cut[2] == '-' && cut[3] == ' ';
      assert eol >= 4;
      assert "--- " <= cut[..eol];
      assert "--- " <= StripCr(cut[..eol]);
    } else {
      assert cut == "--- "[..|cut|];
      if cut != "" {
        assert cut[0] == '-' && cut[|cut| - 1] == '-';
        assert cut[..|cut|] == cut && StripCr(cut) == cut;
        assert "kind: crash"[0] == 'k' && "reason: "[0] == 'r' && "signature: "[0] == 's';
      }
    }
  }

  /** Dropping a line's '\r' does not change which reasons it starts with. */
  lemma SurvivedStripped(s: string)
    ensures Survived(StripCr(s)) <==> Survived(s)
  {
    if s != "" && s[|s| - 1] == '\r' {
      var t := StripCr(s);
      assert s == t + "\r";
    }
  }

  /** What a report's fields have to be: one line each, and a signature of 16 hex digits. */
  ghost predicate WellFormed(f: Fault)
  {
    OneLine(f.reason) && OneLine(f.suffix) && OneLine(f.address) && IsSignature(f.signature)
  }

  lemma {:induction false} HexIsOneLine(v: nat, digits: nat)
    ensures OneLine(Hex(v, digits))
  {
    if digits > 0 { HexIsOneLine(v / 16, digits - 1); }
  }

  lemma OneLineJoined(a: string, b: string)
    requires OneLine(a) && OneLine(b)
    ensures OneLine(a + b)
  {
  }

  /** A line that starts with some other letter is no signature line and no section. */
  lemma OtherLetter(line: string, c: char)
    requires |line| >= 2 && line[0] == c && c != '-'
    ensures !("--- " <= StripCr(line))
    ensures c != 's' ==> !("signature: " <= StripCr(line))
  {
    assert StripCr(line)[0] == c;
    assert "--- "[0] == '-' && "signature: "[0] == 's';
  }

  lemma LinesAreReadable(f: Fault)
    requires WellFormed(f)
    ensures Readable(Lines(f))
    ensures forall i :: 0 <= i < 4 ==> !("signature: " <= StripCr(Lines(f)[i]))
  {
    hide OneLine, StripCr, Hex, IsSignature;
    HexIsOneLine(f.code, 8);
    SignatureIsOneLine(f.signature);
    Literals();
    var l := Lines(f);
    OneLineJoined("reason: ", f.reason);
    OneLineJoined("reason: " + f.reason, f.suffix);
    OneLineJoined("code: 0x", Hex(f.code, 8));
    OneLineJoined("address: ", f.address);
    OneLineJoined("signature: ", f.signature);
    OtherLetter(l[0], 'k');
    OtherLetter(l[1], 'r');
    OtherLetter(l[2], 'c');
    OtherLetter(l[3], 'a');
    OtherLetter(l[4], 's');
  }

  lemma SignatureIsOneLine(s: string)
    requires IsSignature(s)
    ensures OneLine(s)
  {
  }

  lemma Literals()
    ensures OneLine("kind: crash") && OneLine("reason: ") && OneLine("code: 0x")
    ensures OneLine("address: ") && OneLine("signature: ")
  {
  }

  lemma StripPrefixed(head: string, tail: string)
    requires head != "" && head[|head| - 1] != '\r'
    ensures StripCr(head + tail) == head + StripCr(tail)
  {
    var s := head + tail;
    if tail != "" && tail[|tail| - 1] == '\r' {
      assert s[|s| - 1] == '\r';
      assert s[..|s| - 1] == head + tail[..|tail| - 1];
    } else if tail == "" {
      assert s == head;
    }
  }

  lemma NotedReason(seen: Seen, what: string)
    ensures Note(seen, StripCr("reason: " + what), true) == seen.(absorbed := Survived(what))
  {
    StripPrefixed("reason: ", what);
    SurvivedStripped(what);
    var line := "reason: " + StripCr(what);
    assert line[0] == 'r' && "kind: crash"[0] == 'k';
    assert line[8..] == StripCr(what);
  }

  lemma NotedSignature(seen: Seen, sig: string)
    requires IsSignature(sig)
    ensures Note(seen, StripCr("signature: " + sig), true) == seen.(signature := true)
  {
    var line := "signature: " + sig;
    assert line[|line| - 1] == sig[15];
    assert line[0] == 's' && "kind: crash"[0] == 'k' && "reason: "[0] == 'r';
    assert line[11..] == sig;
  }

  lemma NotedKind()
    ensures Note(NOTHING, StripCr("kind: crash"), true) == Seen(true, false, false)
  {
  }

  lemma NotedOther(seen: Seen, line: string)
    requires line != "" && line[0] in {'c', 'a'}
    ensures Note(seen, StripCr(line), true) == seen
  {
    assert "kind: crash"[0] == 'k' && "reason: "[0] == 'r' && "signature: "[0] == 's';
  }

  lemma HeaderNoted(f: Fault)
    requires WellFormed(f)
    ensures NoteAll(NOTHING, Lines(f)) == Seen(true, true, Survived(f.reason + f.suffix))
  {
    var l := Lines(f);
    var s1 := Seen(true, false, false);
    hide Note, NoteAll, Survived, Hex;
    assert Note(NOTHING, StripCr(l[0]), true) == s1 by { NotedKind(); }
    assert l[1] == "reason: " + (f.reason + f.suffix);
    NotedReason(s1, f.reason + f.suffix);
    var s2 := Seen(true, false, Survived(f.reason + f.suffix));
    NotedOther(s2, l[2]);
    NotedOther(s2, l[3]);
    NotedSignature(s2, f.signature);
    FiveNotes(NOTHING, l[0], l[1], l[2], l[3], l[4]);
    assert l == [l[0], l[1], l[2], l[3], l[4]];
  }

  lemma FiveNotes(seen: Seen, a: string, b: string, c: string, d: string, e: string)
    ensures NoteAll(seen, [a, b, c, d, e]) ==
      Note(Note(Note(Note(Note(seen, StripCr(a), true), StripCr(b), true), StripCr(c), true), StripCr(d), true),
           StripCr(e), true)
  {
    hide Note, StripCr;
    var s1 := Note(seen, StripCr(a), true);
    var s2 := Note(s1, StripCr(b), true);
    var s3 := Note(s2, StripCr(c), true);
    assert [a, b, c, d, e][1..] == [b, c, d, e] && [b, c, d, e][1..] == [c, d, e];
    assert [c, d, e][1..] == [d, e] && [d, e][1..] == [e] && [e][1..] == [];
    var s4 := Note(s3, StripCr(d), true);
    assert NoteAll(s4, [e]) == NoteAll(Note(s4, StripCr(e), true), []);
    assert NoteAll(s3, [d, e]) == NoteAll(s4, [e]);
    assert NoteAll(s2, [c, d, e]) == NoteAll(s3, [d, e]);
    assert NoteAll(s1, [b, c, d, e]) == NoteAll(s2, [c, d, e]);
  }

  /** The whole report: the header, then sections the first of which starts with dashes. */
  function Report(f: Fault, rest: string): string
  {
    Text(Lines(f)) + ("thread: " + Decimal(f.thread) + "\n" + rest)
  }

  /** However much of a report reached the disk, it is taken for the whole report of a death exactly
      when the newline ending its signature line did, and its reason is none of the three of a fault the
      process survived. */
  lemma PrefixIsJudgedRightly(f: Fault, rest: string, k: nat)
    requires WellFormed(f) && "--- " <= rest && k <= |Report(f, rest)|
    ensures var reason := f.reason + f.suffix;
      IsWhole(Scan(Report(f, rest)[..k], NOTHING)) <==>
      && k >= |Text(Lines(f))|
      && !("fault in a third-party SDR module, absorbed" <= reason)
      && !("SDR device enumeration child process died" <= reason)
      && !("child process fault (contained)" <= reason)
  {
    hide Scan, Lines, Survived, WellFormed;
    SurvivedReasons(f.reason + f.suffix);
    LinesAreReadable(f);
    var header := Text(Lines(f));
    if k < |header| {
      assert Report(f, rest)[..k] == header[..k];
      LinesCount(f);
      CutBeforeSignature(Lines(f), k, NOTHING);
    } else {
      var tail := "thread: " + Decimal(f.thread) + "\n" + rest;
      assert Report(f, rest)[..k] == header + tail[..k - |header|];
      ScanLines(Lines(f), tail[..k - |header|], NOTHING);
      HeaderNoted(f);
      RestIsIgnored(Decimal(f.thread), rest, k - |header|, NoteAll(NOTHING, Lines(f)));
    }
  }

  lemma SurvivedReasons(reason: string)
    ensures Survived(reason) <==>
      || "fault in a third-party SDR module, absorbed" <= reason
      || "SDR device enumeration child process died" <= reason
      || "child process fault (contained)" <= reason
  {
  }

  lemma LinesCount(f: Fault)
    ensures |Lines(f)| == 5
  {
  }

  /** Whatever text the suffix is made from, newlines and all, it changes neither how many lines the header
      has nor how any prefix of the report is judged. */
  lemma AnySuffixIsJudgedRightly(f: Fault, src: string, rest: string, k: nat)
    requires f.suffix == Printable(src, 128)
    requires OneLine(f.reason) && OneLine(f.address) && IsSignature(f.signature)
    requires "--- " <= rest && k <= |Report(f, rest)|
    ensures |Lines(f)| == 5 && forall i :: 0 <= i < 5 ==> OneLine(Lines(f)[i])
    ensures var reason := f.reason + f.suffix;
      IsWhole(Scan(Report(f, rest)[..k], NOTHING)) <==>
      && k >= |Text(Lines(f))|
      && !("fault in a third-party SDR module, absorbed" <= reason)
      && !("SDR device enumeration child process died" <= reason)
      && !("child process fault (contained)" <= reason)
  {
    hide Scan, Survived, OneLine, IsSignature, Report, Text, Printable, Lines;
    SuffixIsOneLine(src, 128);
    LinesCount(f);
    LinesAreReadable(f);
    PrefixIsJudgedRightly(f, rest, k);
  }
}
