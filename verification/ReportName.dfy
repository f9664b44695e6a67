/** The names of crash reports: written byte by byte into a fixed buffer on the fault path, and read
    back from the right to find which process wrote a report. */
module ReportName {
  import opened Decimals
  import opened Sequences
  import opened Wrappers

  const LONG_MAX_32: nat := 0xFFFF_FFFF
  const ULL_MAX: nat := 0xFFFF_FFFF_FFFF_FFFF

  datatype LocalTime = LocalTime(year: nat, month: nat, day: nat, hour: nat, minute: nat, second: nat)

  function Reverse(s: string): string
  {
    if s == [] then [] else Reverse(s[1..]) + [s[0]]
  }

  lemma {:induction false} ReverseAppend(s: string, c: char)
    ensures Reverse(s + [c]) == [c] + Reverse(s)
  {
    if s != [] {
      ReverseAppend(s[1..], c);
      assert (s + [c])[1..] == s[1..] + [c];
    }
  }

  lemma {:induction false} ReverseAt(s: string)
    ensures |Reverse(s)| == |s|
    ensures forall i :: 0 <= i < |s| ==> Reverse(s)[i] == s[|s| - 1 - i]
  {
    if s != [] { ReverseAt(s[1..]); }
  }

  /** What of a text fits a buffer of `cap` bytes with its terminator. */
  function Clip(s: string, cap: nat): string
    requires cap > 0
  {
    if |s| < cap then s else s[..cap - 1]
  }

  function Two(v: nat): string { [Digit(v / 10 % 10), Digit(v % 10)] }

  /** Two digits or neither: a pair that does not fit is left out whole. */
  function WithPair(s: string, v: nat, cap: nat): string
  {
    if |s| + 2 < cap then s + Two(v) else s
  }

  /** The fixed buffer a name is built in, `at` being how much of it is used. */
  class NameBuffer {
    const dst: array<char>
    var at: nat

    ghost predicate Valid()
      reads this
    {
      at < dst.Length
    }

    ghost function Text(): string
      reads this, dst
      requires Valid()
    {
      dst[..at]
    }

    constructor (cap: nat)
      requires cap > 0
      ensures Valid() && fresh(dst) && dst.Length == cap && Text() == ""
    {
      dst := new char[cap];
      at := 0;
    }

    method Put(c: char)
      requires Valid()
      modifies this`at, dst
      ensures Valid() && Text() == Clip(old(Text()) + [c], dst.Length)
    {
      if at + 1 < dst.Length {
        dst[at] := c;
        at := at + 1;
      }
    }

    method Str(s: string)
      requires Valid()
      modifies this`at, dst
      ensures Valid() && Text() == Clip(old(Text()) + s, dst.Length)
    {
      ghost var before := Text();
      var i := 0;
      while i < |s| && at + 1 < dst.Length
        invariant 0 <= i <= |s| && Valid()
        invariant Text() == before + s[..i]
      {
        dst[at] := s[i];
        at := at + 1;
        i := i + 1;
      }
      if i < |s| {
        assert (before + s)[..dst.Length - 1] == before + s[..i];
      } else {
        assert s[..i] == s;
      }
    }

    /** appendPad2. */
    method Pair(v: nat)
      requires Valid()
      modifies this`at, dst
      ensures Valid() && Text() == WithPair(old(Text()), v, dst.Length)
    {
      if at + 2 >= dst.Length { return; }
      dst[at] := Digit(v / 10 % 10);
      dst[at + 1] := Digit(v % 10);
      at := at + 2;
    }

    /** appendDecimal, and appendDec: the digits gathered backwards in `room` bytes, then copied. */
    method Dec(value: nat, room: nat)
      requires Valid() && |Decimal(value)| <= room
      modifies this`at, dst
      ensures Valid() && Text() == Clip(old(Text()) + Decimal(value), dst.Length)
    {
      hide Decimal, Clip, Reverse;
      var digits, n := Gather(value, room);
      ghost var before, all := Text(), Decimal(value);
      ReverseAt(digits[..n]);
      assert forall k :: 0 <= k < n ==> digits[k] == all[|all| - 1 - k];
      while n > 0 && at + 1 < dst.Length
        invariant 0 <= n <= |all| && n <= digits.Length && Valid()
        invariant forall k :: 0 <= k < n ==> digits[k] == all[|all| - 1 - k]
        invariant Text() == before + all[..|all| - n]
      {
        ghost var k := |all| - n;
        n := n - 1;
        dst[at] := digits[n];
        at := at + 1;
        assert all[..k + 1] == all[..k] + [all[k]];
      }
      ClipOf(before, all, |all| - n, dst.Length);
    }
  }

  /** The digits of what is left, none when nothing is. */
  function Left(v: nat): string { if v == 0 then "" else Decimal(v) }

  lemma LastDigit(v: nat)
    requires v > 0
    ensures Left(v) == Left(v / 10) + [Digit(v % 10)]
  {
  }

  method Gather(value: nat, room: nat) returns (digits: array<char>, n: nat)
    requires |Decimal(value)| <= room
    ensures fresh(digits) && n <= digits.Length && Reverse(digits[..n]) == Decimal(value)
  {
    hide Reverse, Digit, Left, Decimal;
    digits := new char[room];
    n := 0;
    var v := value;
    LeftIs(value);
    ghost var gathered: seq<char> := [];
    if v == 0 {
      digits[0] := Digit(0);
      n := 1;
      gathered := [Digit(0)];
    } else {
      while v != 0 && n < room
        invariant n == |gathered| <= room && digits[..n] == gathered
        invariant Left(value) == Left(v) + Reverse(gathered)
        decreases room - n
      {
        GatherStep(v, gathered);
        digits[n] := Digit(v % 10);
        gathered := gathered + [Digit(v % 10)];
        v := v / 10;
        n := n + 1;
      }
      AllGathered(value, v, gathered, room);
    }
    assert digits[..n] == gathered;
  }

  lemma AllGathered(value: nat, v: nat, g: seq<char>, room: nat)
    requires Left(value) == Left(v) + Reverse(g) && Left(value) == Decimal(value) && |Decimal(value)| <= room
    requires v == 0 || |g| >= room
    ensures v == 0 && Reverse(g) == Decimal(value)
  {
    hide Left, Reverse, Decimal;
    LeftIs(v);
    ReverseAt(g);
  }

  lemma GatherStep(v: nat, g: seq<char>)
    requires v > 0
    ensures Left(v) + Reverse(g) == Left(v / 10) + Reverse(g + [Digit(v % 10)])
  {
    hide Left, Reverse;
    LastDigit(v);
    ReverseAppend(g, Digit(v % 10));
    Associates(Left(v / 10), [Digit(v % 10)], Reverse(g));
  }

  lemma LeftIs(v: nat)
    ensures Reverse([]) == [] && Reverse([Digit(0)]) == [Digit(0)] && Decimal(0) == [Digit(0)]
    ensures if v == 0 then Left(v) == "" else Left(v) == Decimal(v) && |Left(v)| > 0
    ensures Left(v) + [] == Left(v)
  {
    assert [Digit(0)][1..] == [];
  }

  /** A text added as far as it fits, whether all of it or what fills the buffer. */
  lemma ClipOf(s: string, t: string, k: nat, cap: nat)
    requires k <= |t| && cap > 0 && |s| + k < cap && (k == |t| || |s| + k + 1 == cap)
    ensures s + t[..k] == Clip(s + t, cap)
  {
    if k == |t| { assert t[..k] == t; } else { assert (s + t)[..cap - 1] == s + t[..k]; }
  }

  // ----- the paths that are built -----------------------------------------------------------

  function Stamp(t: LocalTime): string
  {
    Two(t.year / 100) + Two(t.year % 100) + Two(t.month) + Two(t.day) + "-" +
    Two(t.hour) + Two(t.minute) + Two(t.second)
  }

  /** "<prefix><stamp>-<pid>-<seq>.txt" */
  function Name(prefix: string, stamp: string, pid: nat, seqNo: nat): string
  {
    prefix + stamp + "-" + Decimal(pid) + "-" + Decimal(seqNo) + ".txt"
  }

  lemma ThirtyTwoBits(v: nat)
    requires v <= LONG_MAX_32
    ensures |Decimal(v)| <= 10
  {
    TenDigits(v);
  }

  lemma TenDigits(v: nat)
    requires v < 10_000_000_000
    ensures |Decimal(v)| <= 10
  {
    assert v / 10 / 10 / 10 / 10 / 10 < 100_000;
    FiveDigits(v / 10 / 10 / 10 / 10 / 10);
    assert |Decimal(v)| <= 1 + |Decimal(v / 10)|;
    assert |Decimal(v / 10)| <= 1 + |Decimal(v / 10 / 10)|;
    assert |Decimal(v / 10 / 10)| <= 1 + |Decimal(v / 10 / 10 / 10)|;
    assert |Decimal(v / 10 / 10 / 10)| <= 1 + |Decimal(v / 10 / 10 / 10 / 10)|;
    assert |Decimal(v / 10 / 10 / 10 / 10)| <= 1 + |Decimal(v / 10 / 10 / 10 / 10 / 10)|;
  }

  lemma FiveDigits(v: nat)
    requires v < 100_000
    ensures |Decimal(v)| <= 5
  {
    assert |Decimal(v / 10 / 10 / 10 / 10)| == 1;
    assert |Decimal(v / 10 / 10 / 10)| <= 2;
    assert |Decimal(v / 10 / 10)| <= 3;
    assert |Decimal(v / 10)| <= 4;
  }

  lemma SixtyFourBits(v: nat)
    requires v <= ULL_MAX
    ensures |Decimal(v)| <= 20
  {
    var w := v / 10 / 10 / 10 / 10 / 10 / 10 / 10 / 10 / 10 / 10;
    assert w < 10_000_000_000;
    TenDigits(w);
    FiveMore(v);
    FiveMore(v / 10 / 10 / 10 / 10 / 10);
  }

  lemma FiveMore(v: nat)
    ensures |Decimal(v)| <= 5 + |Decimal(v / 10 / 10 / 10 / 10 / 10)|
  {
    assert |Decimal(v)| <= 1 + |Decimal(v / 10)|;
    assert |Decimal(v / 10)| <= 1 + |Decimal(v / 10 / 10)|;
    assert |Decimal(v / 10 / 10)| <= 1 + |Decimal(v / 10 / 10 / 10)|;
    assert |Decimal(v / 10 / 10 / 10)| <= 1 + |Decimal(v / 10 / 10 / 10 / 10)|;
    assert |Decimal(v / 10 / 10 / 10 / 10)| <= 1 + |Decimal(v / 10 / 10 / 10 / 10 / 10)|;
  }

  /** Cutting, then adding and cutting again, is cutting the whole. */
  lemma ClipTwice(a: string, b: string, cap: nat)
    requires cap > 0
    ensures Clip(Clip(a, cap) + b, cap) == Clip(a + b, cap)
  {
    if |a| >= cap { assert (a + b)[..cap - 1] == a[..cap - 1]; }
  }

  function WithYear(s: string, st: LocalTime, cap: nat): string
  {
    if |s| + 4 < cap then WithPair(WithPair(s, st.year / 100, cap), st.year % 100, cap) else s
  }

  function WithDay(s: string, st: LocalTime, cap: nat): string
    requires cap > 0
  {
    Clip(WithPair(WithPair(s, st.month, cap), st.day, cap) + "-", cap)
  }

  function WithTime(s: string, st: LocalTime, cap: nat): string
  {
    WithPair(WithPair(WithPair(s, st.hour, cap), st.minute, cap), st.second, cap)
  }

  function Tail(pid: nat, seqNo: nat): string { "-" + Decimal(pid) + "-" + Decimal(seqNo) + ".txt" }

  /** A Windows path in a buffer of this size: every part cut to what fits, but a pair of the stamp's
      digits that does not fit left out whole. */
  function WindowsPath(dir: string, prefix: string, st: LocalTime, pid: nat, seqNo: nat, cap: nat): string
    requires cap > 0
  {
    var head := Clip(dir + "\\" + prefix, cap);
    Clip(WithTime(WithDay(WithYear(head, st, cap), st, cap), st, cap) + Tail(pid, seqNo), cap)
  }

  lemma StampFits(head: string, st: LocalTime, cap: nat)
    requires |head| + 15 < cap
    ensures WithTime(WithDay(WithYear(head, st, cap), st, cap), st, cap) == head + Stamp(st)
  {
    hide Two;
    var year := head + Two(st.year / 100) + Two(st.year % 100);
    PairsAreTwo(st);
    assert WithYear(head, st, cap) == year;
    var day := year + Two(st.month) + Two(st.day) + "-";
    assert WithDay(year, st, cap) == day;
    assert WithTime(day, st, cap) == day + Two(st.hour) + Two(st.minute) + Two(st.second);
    StampParts(st, head);
  }

  lemma PairsAreTwo(st: LocalTime)
    ensures forall v :: |Two(v)| == 2
  {
  }

  lemma StampParts(st: LocalTime, head: string)
    ensures head + Two(st.year / 100) + Two(st.year % 100) + Two(st.month) + Two(st.day) + "-" +
      Two(st.hour) + Two(st.minute) + Two(st.second) == head + Stamp(st)
  {
    hide Two;
  }

  lemma StampIsFifteen(st: LocalTime)
    ensures |Stamp(st)| == 15
  {
  }

  lemma TwoReads(v: nat)
    ensures |Two(v)| == 2 && AllDigits(Two(v)) && Value(Two(v)) == v % 100
  {
    hide Value, AllDigits, Digit;
    TwoDigits(v / 10 % 10, v % 10);
    LastTwo(v);
  }

  lemma LastTwo(v: nat)
    ensures v / 10 % 10 * 10 + v % 10 == v % 100
  {
    var q, h := v / 100, v % 100;
    assert v == 10 * (10 * q + h / 10) + h % 10;
    assert v / 10 == 10 * q + h / 10;
  }

  lemma TwoDigits(a: nat, b: nat)
    requires a < 10 && b < 10
    ensures AllDigits([Digit(a), Digit(b)]) && Value([Digit(a), Digit(b)]) == a * 10 + b
  {
    var s := [Digit(a), Digit(b)];
    assert s[..1] == [Digit(a)] && s[..1][..0] == [];
    assert Value(s[..1]) == a;
  }

  /** The stamp reads back: the year in four digits, month and day in two each, a dash, then hour, minute
      and second in two each. */
  lemma StampReadsBack(st: LocalTime)
    requires st.year < 10000 && st.month < 100 && st.day < 100 && st.hour < 100 && st.minute < 100 && st.second < 100
    ensures var s := Stamp(st);
      && |s| == 15 && s[8] == '-' && AllDigits(s[..8]) && AllDigits(s[9..])
      && Value(s[..2]) * 100 + Value(s[2..4]) == st.year && Value(s[4..6]) == st.month && Value(s[6..8]) == st.day
      && Value(s[9..11]) == st.hour && Value(s[11..13]) == st.minute && Value(s[13..15]) == st.second
  {
    hide *;
    StampSlices(st);
    FieldsAre(st);
    AllDigitsOfFour(Two(st.year / 100), Two(st.year % 100), Two(st.month), Two(st.day));
    AllDigitsOfFour(Two(st.hour), Two(st.minute), Two(st.second), []);
  }

  lemma FieldsAre(st: LocalTime)
    requires st.year < 10000 && st.month < 100 && st.day < 100 && st.hour < 100 && st.minute < 100 && st.second < 100
    ensures AllDigits(Two(st.year / 100)) && AllDigits(Two(st.year % 100)) && AllDigits([])
    ensures AllDigits(Two(st.month)) && AllDigits(Two(st.day))
    ensures AllDigits(Two(st.hour)) && AllDigits(Two(st.minute)) && AllDigits(Two(st.second))
    ensures Value(Two(st.year / 100)) * 100 + Value(Two(st.year % 100)) == st.year
    ensures Value(Two(st.month)) == st.month && Value(Two(st.day)) == st.day
    ensures Value(Two(st.hour)) == st.hour && Value(Two(st.minute)) == st.minute && Value(Two(st.second)) == st.second
  {
    hide Value, Two;
    TwoReads(st.year / 100);
    TwoReads(st.year % 100);
    TwoReads(st.month);
    TwoReads(st.day);
    TwoReads(st.hour);
    TwoReads(st.minute);
    TwoReads(st.second);
  }

  lemma StampSlices(st: LocalTime)
    ensures var s := Stamp(st);
      && |s| == 15 && s[8] == '-'
      && s[..2] == Two(st.year / 100) && s[2..4] == Two(st.year % 100)
      && s[4..6] == Two(st.month) && s[6..8] == Two(st.day)
      && s[9..11] == Two(st.hour) && s[11..13] == Two(st.minute) && s[13..15] == Two(st.second)
      && s[..8] == Two(st.year / 100) + Two(st.year % 100) + Two(st.month) + Two(st.day)
      && s[9..] == Two(st.hour) + Two(st.minute) + Two(st.second) + []
  {
    PairsAreTwo(st);
    hide Two;
  }

  lemma AllDigitsOfFour(a: string, b: string, c: string, d: string)
    requires AllDigits(a) && AllDigits(b) && AllDigits(c) && (d == [] || AllDigits(d))
    ensures AllDigits(a + b + c + d)
  {
  }

  /** A Windows path that fits is written whole; one that does not still starts with as much of its folder
      and prefix as fits. */
  lemma WindowsPathIsWhole(dir: string, prefix: string, st: LocalTime, pid: nat, seqNo: nat, cap: nat)
    requires cap > 0
    ensures var path := WindowsPath(dir, prefix, st, pid, seqNo, cap);
      var whole := dir + "\\" + Name(prefix, Stamp(st), pid, seqNo);
      && |path| < cap && Clip(dir + "\\" + prefix, cap) <= path
      && (|whole| < cap ==> path == whole)
  {
    hide Stamp, WithYear, WithDay, WithTime, Name, Tail;
    var head := Clip(dir + "\\" + prefix, cap);
    var stamped := WithTime(WithDay(WithYear(head, st, cap), st, cap), st, cap);
    StampKeepsHead(head, st, cap);
    Assembled(dir, "\\", prefix, Stamp(st), pid, seqNo);
    StampIsFifteen(st);
    TailHas(pid, seqNo);
    if |dir + "\\" + Name(prefix, Stamp(st), pid, seqNo)| < cap {
      StampFits(head, st, cap);
    }
  }

  lemma TailHas(pid: nat, seqNo: nat)
    ensures |Tail(pid, seqNo)| > 0
  {
  }

  lemma StampKeepsHead(head: string, st: LocalTime, cap: nat)
    requires |head| < cap
    ensures head <= WithTime(WithDay(WithYear(head, st, cap), st, cap), st, cap)
    ensures |WithTime(WithDay(WithYear(head, st, cap), st, cap), st, cap)| < cap
  {
    hide Two;
    PairsAreTwo(st);
  }

  method PutStamp(out: NameBuffer, st: LocalTime)
    requires out.Valid()
    modifies out`at, out.dst
    ensures out.Valid()
    ensures var cap := out.dst.Length;
      out.Text() == WithTime(WithDay(WithYear(old(out.Text()), st, cap), st, cap), st, cap)
  {
    hide WithPair;
    if out.at + 4 < out.dst.Length {
      out.Pair(st.year / 100);
      out.Pair(st.year % 100);
    }
    out.Pair(st.month);
    out.Pair(st.day);
    out.Put('-');
    out.Pair(st.hour);
    out.Pair(st.minute);
    out.Pair(st.second);
  }

  method PutHead(out: NameBuffer, dir: string, slash: char, prefix: string)
    requires out.Valid() && out.at == 0
    modifies out`at, out.dst
    ensures out.Valid() && out.Text() == Clip(dir + [slash] + prefix, out.dst.Length)
  {
    assert out.Text() == "";
    out.Str(dir);
    out.Put(slash);
    ClipTwice(dir, [slash], out.dst.Length);
    out.Str(prefix);
    ClipTwice(dir + [slash], prefix, out.dst.Length);
  }

  lemma Assembled(dir: string, slash: string, prefix: string, stamp: string, pid: nat, seqNo: nat)
    ensures dir + slash + prefix + stamp + Tail(pid, seqNo) == dir + slash + Name(prefix, stamp, pid, seqNo)
  {
  }

  /** buildReportPath on Windows. */
  method BuildReportPathWindows(out: NameBuffer, dir: string, prefix: string, st: LocalTime, pid: nat, seqNo: nat)
    requires out.Valid() && out.at == 0 && pid <= LONG_MAX_32 && seqNo <= LONG_MAX_32
    modifies out`at, out.dst
    ensures out.Valid() && out.dst[out.at] == '\0'
    ensures out.Text() == WindowsPath(dir, prefix, st, pid, seqNo, out.dst.Length)
  {
    hide Clip, WithYear, WithDay, WithTime;
    ThirtyTwoBits(pid);
    ThirtyTwoBits(seqNo);
    PutHead(out, dir, '\\', prefix);
    PutStamp(out, st);
    PutTail(out, pid, seqNo, 16);
  }

  /** buildReportPath on Linux, where the stamp is the epoch's seconds: the path, cut to what fits. */
  method BuildReportPathPosix(out: NameBuffer, dir: string, prefix: string, seconds: nat, pid: nat, seqNo: nat)
    requires out.Valid() && out.at == 0 && seconds <= ULL_MAX && pid <= ULL_MAX && seqNo <= ULL_MAX
    modifies out`at, out.dst
    ensures out.Valid() && out.dst[out.at] == '\0'
    ensures out.Text() == Clip(dir + "/" + Name(prefix, Decimal(seconds), pid, seqNo), out.dst.Length)
  {
    hide Clip, Name, Tail;
    SixtyFourBits(seconds);
    SixtyFourBits(pid);
    SixtyFourBits(seqNo);
    PutHead(out, dir, '/', prefix);
    out.Dec(seconds, 24);
    ClipTwice(dir + "/" + prefix, Decimal(seconds), out.dst.Length);
    PutTail(out, pid, seqNo, 24);
    ClipTwice(dir + "/" + prefix + Decimal(seconds), Tail(pid, seqNo), out.dst.Length);
    Assembled(dir, "/", prefix, Decimal(seconds), pid, seqNo);
  }

  /** "-<pid>-<seq>.txt", and the terminator. */
  method PutTail(out: NameBuffer, pid: nat, seqNo: nat, room: nat)
    requires out.Valid() && |Decimal(pid)| <= room && |Decimal(seqNo)| <= room
    modifies out`at, out.dst
    ensures out.Valid() && out.dst[out.at] == '\0'
    ensures out.Text() == Clip(old(out.Text()) + Tail(pid, seqNo), out.dst.Length)
  {
    hide Clip;
    ghost var head, cap := out.Text(), out.dst.Length;
    out.Put('-');
    out.Dec(pid, room);
    ClipTwice(head + "-", Decimal(pid), cap);
    out.Put('-');
    ClipTwice(head + "-" + Decimal(pid), "-", cap);
    out.Dec(seqNo, room);
    ClipTwice(head + "-" + Decimal(pid) + "-", Decimal(seqNo), cap);
    out.Str(".txt");
    ClipTwice(head + "-" + Decimal(pid) + "-" + Decimal(seqNo), ".txt", cap);
    TailOn(head, pid, seqNo);
    ghost var text := out.Text();
    out.dst[out.at] := '\0';
    assert out.Text() == text;
  }

  lemma TailOn(head: string, pid: nat, seqNo: nat)
    ensures head + "-" + Decimal(pid) + "-" + Decimal(seqNo) + ".txt" == head + Tail(pid, seqNo)
  {
  }

  // ----- reading a name back ----------------------------------------------------------------

  /** s.rfind(c, from): the last place, no later than `from`, where c stands. */
  function RFind(s: string, c: char, from: int): (i: int)
    requires from < |s|
    ensures -1 <= i <= from || (from < -1 && i == -1)
    ensures i >= 0 ==> s[i] == c
    ensures forall k :: i < k <= from && 0 <= k ==> s[k] != c
    decreases from + 1
  {
    if from < 0 then -1 else if s[from] == c then from else RFind(s, c, from - 1)
  }

  /** A report's name: `head` up to the process id's dash, then the digits of the id and of the
      sequence number. */
  ghost predicate Parts(name: string, head: string, pid: string, seqNo: string)
  {
    && name == head + "-" + pid + "-" + seqNo + ".txt"
    && "crash-" <= name
    && pid != "" && AllDigits(pid) && seqNo != "" && AllDigits(seqNo)
  }

  ghost predicate IsReportName(name: string) { exists head, p, q :: Parts(name, head, p, q) }

  function Least(a: nat, b: nat): nat { if a < b then a else b }

  method ReportNamePid(name: string) returns (pid: Option<nat>)
    ensures forall head, p, q :: Parts(name, head, p, q) ==>
      pid == Some(if Value(p) > 18446744073709551615 then 18446744073709551615 else Value(p))
    ensures pid.Some? <==> IsReportName(name)
  {
    hide Parts, RFind, Value, IsDigit;
    if |name| <= 10 || name[..6] != "crash-" || name[|name| - 4..] != ".txt" {
      forall head, p, q | Parts(name, head, p, q) ensures false { LongEnough(name, head, p, q); }
      return None;
    }
    var stem := name[..|name| - 4];
    var seqDash := RFind(stem, '-', |stem| - 1);
    var pidDash := if seqDash < 0 then -1 else RFind(stem, '-', seqDash - 1);
    forall head, p, q | Parts(name, head, p, q) ensures Shaped(stem, seqDash, pidDash, p, q) {
      Dashes(name, head, p, q, seqDash, pidDash);
    }
    if seqDash < 0 || seqDash + 1 >= |stem| { return None; }
    if pidDash < 0 || pidDash + 1 >= seqDash { return None; }
    var i := pidDash + 1;
    while i < |stem|
      invariant pidDash < i <= |stem|
      invariant forall k :: pidDash < k < i && k != seqDash ==> IsDigit(stem[k])
    {
      if i != seqDash && !IsDigit(stem[i]) {
        forall head, p, q | Parts(name, head, p, q) ensures false { NoStranger(stem, seqDash, pidDash, p, q, i); }
        return None;
      }
      i := i + 1;
    }
    var digits := stem[pidDash + 1..seqDash];
    assert AllDigits(digits);
    WellShaped(name, stem, seqDash, pidDash);
    return Some(Least(Value(digits), ULL_MAX));
  }

  /** The stem's last two fields are p and q. */
  ghost predicate Shaped(stem: string, seqDash: int, pidDash: int, p: string, q: string)
  {
    && 0 <= pidDash < pidDash + 1 < seqDash < seqDash + 1 < |stem|
    && p == stem[pidDash + 1..seqDash] && q == stem[seqDash + 1..]
    && AllDigits(p) && AllDigits(q)
  }

  lemma NoStranger(stem: string, seqDash: int, pidDash: int, p: string, q: string, i: int)
    requires Shaped(stem, seqDash, pidDash, p, q) && pidDash < i < |stem| && i != seqDash
    ensures IsDigit(stem[i])
  {
    if i < seqDash { assert p[i - pidDash - 1] == stem[i]; } else { assert q[i - seqDash - 1] == stem[i]; }
  }

  lemma WellShaped(name: string, stem: string, seqDash: int, pidDash: int)
    requires |name| > 10 && name[..6] == "crash-" && name[|name| - 4..] == ".txt" && stem == name[..|name| - 4]
    requires 0 <= pidDash < pidDash + 1 < seqDash < seqDash + 1 < |stem|
    requires stem[seqDash] == '-' && stem[pidDash] == '-'
    requires forall k :: pidDash < k < |stem| && k != seqDash ==> IsDigit(stem[k])
    ensures IsReportName(name)
  {
    assert name == stem + ".txt";
    var p, q := stem[pidDash + 1..seqDash], stem[seqDash + 1..];
    assert stem == stem[..pidDash] + "-" + p + "-" + q;
    forall i | 0 <= i < |p| ensures IsDigit(p[i]) { assert p[i] == stem[pidDash + 1 + i]; }
    forall i | 0 <= i < |q| ensures IsDigit(q[i]) { assert q[i] == stem[seqDash + 1 + i]; }
    assert Parts(name, stem[..pidDash], stem[pidDash + 1..seqDash], stem[seqDash + 1..]);
  }

  lemma LongEnough(name: string, head: string, p: string, q: string)
    requires Parts(name, head, p, q)
    ensures |name| > 10 && name[..6] == "crash-" && name[|name| - 4..] == ".txt"
  {
    assert name[..6] == "crash-";
    assert name[|head|] == '-';
    assert |head| >= 5 by {
      assert name[0] == 'c' && name[1] == 'r' && name[2] == 'a' && name[3] == 's' && name[4] == 'h';
    }
  }

  lemma Dashes(name: string, head: string, p: string, q: string, seqDash: int, pidDash: int)
    requires Parts(name, head, p, q) && |name| > 10
    requires var stem := name[..|name| - 4];
      seqDash == RFind(stem, '-', |stem| - 1) && pidDash == if seqDash < 0 then -1 else RFind(stem, '-', seqDash - 1)
    ensures Shaped(name[..|name| - 4], seqDash, pidDash, p, q) && pidDash == |head|
  {
    var stem := name[..|name| - 4];
    assert stem == head + "-" + p + "-" + q;
    var d := |head| + 1 + |p|;
    assert stem[d] == '-' && stem[|head|] == '-';
    forall k | d < k < |stem| ensures stem[k] != '-' { assert stem[k] == q[k - d - 1]; }
    assert seqDash == d;
    forall k | |head| < k < d ensures stem[k] != '-' { assert stem[k] == p[k - |head| - 1]; }
    assert pidDash == |head|;
  }

  // ----- the two agree ----------------------------------------------------------------------

  /** A name holds one process id and one sequence number, whatever its stamp. */
  lemma PartsAreUnique(name: string, head: string, p: string, q: string, head': string, p': string, q': string)
    requires Parts(name, head, p, q) && Parts(name, head', p', q')
    ensures p == p' && q == q' && head == head'
  {
    LongEnough(name, head, p, q);
    var stem := name[..|name| - 4];
    var seqDash := RFind(stem, '-', |stem| - 1);
    var pidDash := if seqDash < 0 then -1 else RFind(stem, '-', seqDash - 1);
    Dashes(name, head, p, q, seqDash, pidDash);
    Dashes(name, head', p', q', seqDash, pidDash);
    assert head == name[..|head|] && head' == name[..|head|];
  }

  lemma NameParts(stamp: string, pid: nat, seqNo: nat)
    ensures Parts(Name("crash-", stamp, pid, seqNo), "crash-" + stamp, Decimal(pid), Decimal(seqNo))
  {
    var name := Name("crash-", stamp, pid, seqNo);
    assert name == ("crash-" + stamp) + "-" + Decimal(pid) + "-" + Decimal(seqNo) + ".txt";
    assert "crash-" <= name;
  }

  /** The name a process gave its report names that process, and no reading of it names another. */
  lemma NameNamesItsProcess(stamp: string, pid: nat, seqNo: nat, head: string, p: string, q: string)
    requires Parts(Name("crash-", stamp, pid, seqNo), head, p, q)
    ensures Value(p) == pid && Value(q) == seqNo
  {
    NameParts(stamp, pid, seqNo);
    PartsAreUnique(Name("crash-", stamp, pid, seqNo), "crash-" + stamp, Decimal(pid), Decimal(seqNo), head, p, q);
    ValueOfDecimal(pid);
    ValueOfDecimal(seqNo);
  }

  /** Two reports share a name only when process id and sequence number are both the same, whatever
      the clock said; so the reports of one process never overwrite one another. */
  lemma NamesAreUnique(stamp: string, pid: nat, seqNo: nat, stamp': string, pid': nat, seqNo': nat)
    requires Name("crash-", stamp, pid, seqNo) == Name("crash-", stamp', pid', seqNo')
    ensures pid == pid' && seqNo == seqNo' && stamp == stamp'
  {
    NameParts(stamp, pid, seqNo);
    NameParts(stamp', pid', seqNo');
    PartsAreUnique(Name("crash-", stamp, pid, seqNo), "crash-" + stamp, Decimal(pid), Decimal(seqNo),
                   "crash-" + stamp', Decimal(pid'), Decimal(seqNo'));
    DecimalIsInjective(pid, pid');
    DecimalIsInjective(seqNo, seqNo');
    assert ("crash-" + stamp)[6..] == stamp && ("crash-" + stamp')[6..] == stamp';
  }

  /** Reading back, end to end: the reader recovers the process id from a name the writer built. */
  method ReadBack(stamp: string, pid: nat, seqNo: nat) returns (r: Option<nat>)
    requires pid <= 18446744073709551615
    ensures r == Some(pid)
  {
    r := ReportNamePid(Name("crash-", stamp, pid, seqNo));
    NameParts(stamp, pid, seqNo);
    ValueOfDecimal(pid);
  }
}
