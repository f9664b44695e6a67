/** What every run of the fault path promises. */
module FaultPathProofs {
  import opened Wrappers
  import opened FaultPath
  import opened FaultPathSteps

  /** Ownership: in every run a handler between taking the fault path and letting it go is on the thread
      the word names, and there is no other such handler, on this thread or any. */
  lemma OwnershipIsExact(cfg: Config, actions: seq<Action>, t: Thread, i: nat, u: Thread, j: nat)
    ensures var s := Run(cfg, actions);
      i < |Stack(s, t)| && j < |Stack(s, u)| && Holding(Stack(s, t)[i]) && Holding(Stack(s, u)[j]) ==>
      s.word == t == u && i == j
  {
    hide FrameOk, Named, Run;
    RunIsOk(cfg, actions);
    var s := Run(cfg, actions);
    if i < |Stack(s, t)| && j < |Stack(s, u)| && Holding(Stack(s, t)[i]) && Holding(Stack(s, u)[j]) {
      OneHolder(cfg, s, t, i, u, j);
      assert Holds(Stack(s, t));
    }
  }

  /** ... and a word that is not 0 names a thread with such a handler: the last one to take the path. */
  lemma WordNamesAHolder(cfg: Config, actions: seq<Action>)
    ensures var s := Run(cfg, actions);
      s.word != 0 ==>
      && s.word > 0
      && exists i :: 0 <= i < |Stack(s, s.word)| &&
           Holding(Stack(s, s.word)[i]) && Stack(s, s.word)[i].ticket == s.holder
  {
    hide Run;
    RunIsOk(cfg, actions);
    var s := Run(cfg, actions);
    if s.word != 0 {
      assert Holds(Stack(s, s.word));
      var i :| 0 <= i < |Stack(s, s.word)| && Holding(Stack(s, s.word)[i]);
      assert FrameOk(cfg, s, s.word, Stack(s, s.word)[i]);
    }
  }

  /** No handler that re-entered or gave up waiting ever wrote the shared buffers, none of its bytes are in
      them or in a completed report, and no report that completed mixes two writers' bytes. */
  lemma ReportsAreWhole(cfg: Config, actions: seq<Action>)
    ensures Run(cfg, actions).wrote !! Run(cfg, actions).refused
    ensures AllWrote(Run(cfg, actions).buffer, Run(cfg, actions).wrote)
    ensures AllReportsWrote(Run(cfg, actions).reports, Run(cfg, actions).wrote)
    ensures Unmixed(Run(cfg, actions).reports, Run(cfg, actions).completed)
  {
    RunIsOk(cfg, actions);
  }

  /** The cannot-run line is built by at most one handler, whatever else faults meanwhile. */
  lemma CannotRunLineOnce(cfg: Config, actions: seq<Action>)
    ensures |Run(cfg, actions).builders| <= 1
    ensures forall t, i | 0 <= i < |Stack(Run(cfg, actions), t)| :: Stack(Run(cfg, actions), t)[i].pc == Building ==>
      Stack(Run(cfg, actions), t)[i].ticket in Run(cfg, actions).builders
  {
    hide Run;
    RunIsOk(cfg, actions);
    var s := Run(cfg, actions);
    forall t, i | 0 <= i < |Stack(s, t)| ensures FrameOk(cfg, s, t, Stack(s, t)[i]) { }
  }

  // ----- how the process ends ---------------------------------------------------------------

  /** The code a process ends with for a fatal fault of this kind: on Windows an exception's own code,
      or a sentinel; on Linux a signal's number, or the low seven bits of a sentinel, and never 0. */
  ghost predicate EndsFor(platform: Platform, kind: Kind, code: nat)
  {
    match platform
    case Windows => (
      match kind
      case Fault(c) => (c != 0 ==> code == c) && (c == 0 ==> code == 0xE0000001)
      case Terminate => code == 0xE0000003
      case PureCall => code == 0xE0000004
      case InvalidParameter => code == 0xE0000005
      case Abort => code == 0xE0000006)
    case Posix => (
      match kind
      case Fault(c) => 1 <= code <= 127 && ((c - code) % 128 == 0 || (c % 128 == 0 && code == 1))
      case Terminate => code == 1
      case PureCall => code == 2
      case InvalidParameter => code == 3
      case Abort => code == 6)
  }

  /** The code of a handler that could not run: 0xE0000002, or on Linux 0xE2. */
  ghost predicate EndsCannotRun(platform: Platform, code: nat)
  {
    code == if platform.Windows? then 3758096386 else 226
  }

  lemma ExitCodeIsForKind(platform: Platform, kind: Kind)
    ensures EndsFor(platform, kind, ExitCode(platform, kind))
    ensures EndsCannotRun(platform, CannotRunCode(platform))
  {
  }

  /** The two codes tell the two ends apart, but for one exception code on Windows. */
  lemma CannotRunIsApart(platform: Platform, kind: Kind, code: nat, other: nat)
    requires EndsFor(platform, kind, code) && EndsCannotRun(platform, other)
    ensures code == other <==> platform.Windows? && kind == Fault(0xE0000002)
    ensures platform.Posix? && kind.Fault? && 1 <= kind.code <= 64 ==> code == kind.code
  {
  }

  /** With exitAfterReport the process ends with the code of the first fatal fault to take the path,
      after that fault's report is complete, or else with the cannot-run code; and with the latter
      only when some fatal fault re-entered or gave up waiting. */
  lemma ExitIsFirstFault(cfg: Config, actions: seq<Action>)
    ensures var s := Run(cfg, actions);
      cfg.exitAfterReport && s.ended.Some? ==>
      && s.ended.value.Code?
      && (|| (EndsCannotRun(cfg.platform, s.ended.value.code) && (s.reentered || s.timedOut))
          || (s.first.Some? && EndsFor(cfg.platform, s.first.value.kind, s.ended.value.code)
              && s.first.value.ticket in s.completed))
  {
    hide EndsFor, EndsCannotRun, ExitCode, CannotRunCode, Run;
    RunIsOk(cfg, actions);
    var s := Run(cfg, actions);
    if s.first.Some? { ExitCodeIsForKind(cfg.platform, s.first.value.kind); }
    ExitCodeIsForKind(cfg.platform, Terminate);
  }

  /** ... so a run in which nobody re-entered or gave up ends with the first fault's own code. */
  lemma UndisturbedExit(cfg: Config, actions: seq<Action>)
    ensures var s := Run(cfg, actions);
      cfg.exitAfterReport && s.ended.Some? && !s.reentered && !s.timedOut ==>
      && s.first.Some? && s.first.value.ticket in s.completed
      && s.ended.value.Code? && EndsFor(cfg.platform, s.first.value.kind, s.ended.value.code)
  {
    hide EndsFor, EndsCannotRun, Run;
    ExitIsFirstFault(cfg, actions);
  }

  // ----- what entered -----------------------------------------------------------------------

  /** A fault as it entered: where, what, and after how many milliseconds. */
  datatype Arrival = Arrival(thread: Thread, entry: Entry, at: nat)

  function Ticks(actions: seq<Action>): nat
  {
    if actions == [] then 0
    else Ticks(actions[..|actions| - 1]) + if actions[|actions| - 1].Tick? then 1 else 0
  }

  function Arrivals(actions: seq<Action>): seq<Arrival>
  {
    if actions == [] then []
    else
      var before, a := actions[..|actions| - 1], actions[|actions| - 1];
      Arrivals(before) + if a.Enter? then [Arrival(a.thread, a.entry, Ticks(before))] else []
  }

  /** Every frame, and the first fault, is one that entered, as it entered. */
  ghost predicate AsArrived(s: State, arrivals: seq<Arrival>)
  {
    && (forall t, i | 0 <= i < |Stack(s, t)| :: FrameArrived(t, Stack(s, t)[i], arrivals))
    && (s.first.Some? ==>
          s.first.value.ticket < |arrivals| && arrivals[s.first.value.ticket].thread == s.first.value.thread
          && arrivals[s.first.value.ticket].entry == Fatal(s.first.value.kind))
  }

  predicate FrameArrived(t: Thread, f: Frame, arrivals: seq<Arrival>)
  {
    f.ticket < |arrivals| && arrivals[f.ticket] == Arrival(t, f.entry, f.since)
  }

  /** The stack but for its top frame, which keeps its name, its fault and its time, or goes. */
  ghost predicate TopChanged(st: seq<Frame>, st': seq<Frame>)
    requires st != []
  {
    var n := |st| - 1;
    || st' == st[..n]
    || (|st'| == |st| && st'[..n] == st[..n] && st'[n].ticket == st[n].ticket && st'[n].entry == st[n].entry
        && st'[n].since == st[n].since)
  }

  lemma TopIsChanged(s: State, t: Thread, f: Frame)
    requires Stack(s, t) != [] && f.ticket == Top(s, t).ticket && f.entry == Top(s, t).entry
    requires f.since == Top(s, t).since
    ensures TopChanged(Stack(s, t), Stack(s, t)) && TopChanged(Stack(s, t), Stack(Popped(s, t), t))
    ensures TopChanged(Stack(s, t), Stack(WithTop(s, t, f), t))
    ensures forall u :: u != t ==>
      Stack(WithTop(s, t, f), u) == Stack(s, u) && Stack(Popped(s, t), u) == Stack(s, u)
  {
  }

  lemma AdvanceChangesTop(cfg: Config, s: State, t: Thread, more: bool, back: bool)
    requires Stack(s, t) != []
    ensures var f, s' := Top(s, t), Advance(cfg, s, t, Top(s, t), more, back);
      && s'.next == s.next && s'.now == s.now && TopChanged(Stack(s, t), Stack(s', t))
      && (forall u :: u != t ==> Stack(s', u) == Stack(s, u))
      && (s'.first == s.first || (f.entry.Fatal? && s'.first == Some(First(t, f.ticket, f.entry.kind))))
  {
    hide GivesUp, ExitCode, CannotRunCode, TopChanged, Stack, WithTop, Popped;
    var f, s' := Top(s, t), Advance(cfg, s, t, Top(s, t), more, back);
    ChangesFields(cfg, s, t, more, back);
    var g :| IsTop(s, t, g) && s'.stacks in {s.stacks, WithTop(s, t, g).stacks, Popped(s, t).stacks};
    TopIsChanged(s, t, g);
    SameStack(s', s);
    SameStack(s', WithTop(s, t, g));
    SameStack(s', Popped(s, t));
  }

  ghost predicate IsTop(s: State, t: Thread, g: Frame)
    requires Stack(s, t) != []
  {
    g.ticket == Top(s, t).ticket && g.entry == Top(s, t).entry && g.since == Top(s, t).since
  }

  lemma SameStack(a: State, b: State)
    ensures a.stacks == b.stacks ==> forall u :: Stack(a, u) == Stack(b, u)
  {
  }

  lemma ChangesFields(cfg: Config, s: State, t: Thread, more: bool, back: bool)
    requires Stack(s, t) != []
    ensures var f, s' := Top(s, t), Advance(cfg, s, t, Top(s, t), more, back);
      && s'.next == s.next && s'.now == s.now
      && (s'.first == s.first || (f.entry.Fatal? && s'.first == Some(First(t, f.ticket, f.entry.kind))))
      && exists g :: IsTop(s, t, g) && s'.stacks in {s.stacks, WithTop(s, t, g).stacks, Popped(s, t).stacks}
  {
    hide Poll, ExitCode, CannotRunCode;
    var f, s' := Top(s, t), Advance(cfg, s, t, Top(s, t), more, back);
    if f.pc == Trying {
      PollChangesFields(cfg, s, t);
    } else {
      var g :=
        match f.pc
        case Lining => f.(pc := Writing)
        case Writing => f.(pc := Written)
        case Written => f.(pc := Releasing)
        case Releasing => f.(pc := Released)
        case CannotRun => f.(pc := if s.cannotRunEntries == 0 then Building else Dying)
        case _ => f.(pc := Dying);
      assert IsTop(s, t, g);
      assert s'.stacks in {s.stacks, WithTop(s, t, g).stacks, Popped(s, t).stacks};
    }
  }

  lemma PollChangesFields(cfg: Config, s: State, t: Thread)
    requires Stack(s, t) != []
    ensures var f, s' := Top(s, t), Poll(cfg, s, t, Top(s, t));
      && s'.next == s.next && s'.now == s.now && s'.ended == s.ended
      && (s'.first == s.first || (f.entry.Fatal? && s'.first == Some(First(t, f.ticket, f.entry.kind))))
      && exists g :: IsTop(s, t, g) && s'.stacks in {WithTop(s, t, g).stacks, Popped(s, t).stacks}
  {
    hide GivesUp;
    var f, s' := Top(s, t), Poll(cfg, s, t, Top(s, t));
    var g :=
      if s.word == 0 then f.(pc := if f.entry.Fatal? then Lining else Writing)
      else if s.word == t || GivesUp(cfg.platform, s.now, f) then f.(pc := CannotRun)
      else f.(polls := f.polls + 1);
    assert IsTop(s, t, g);
    assert s'.stacks in {WithTop(s, t, g).stacks, Popped(s, t).stacks};
  }

  lemma AdvanceArrived(cfg: Config, s: State, t: Thread, more: bool, back: bool, arrivals: seq<Arrival>)
    requires AsArrived(s, arrivals) && Stack(s, t) != []
    ensures var s' := Advance(cfg, s, t, Top(s, t), more, back);
      AsArrived(s', arrivals) && s'.next == s.next && s'.now == s.now
  {
    hide Advance;
    var st, s' := Stack(s, t), Advance(cfg, s, t, Top(s, t), more, back);
    AdvanceChangesTop(cfg, s, t, more, back);
    assert FrameArrived(t, st[|st| - 1], arrivals);
    forall u, i | 0 <= i < |Stack(s', u)| ensures FrameArrived(u, Stack(s', u)[i], arrivals) {
      if u != t || i < |st| - 1 {
        assert Stack(s', u)[i] == Stack(s, u)[i];
        assert FrameArrived(u, Stack(s, u)[i], arrivals);
      }
    }
  }

  lemma EnterArrived(cfg: Config, s: State, t: Thread, entry: Entry, arrivals: seq<Arrival>)
    requires AsArrived(s, arrivals) && s.ended.None? && s.next == |arrivals|
    ensures AsArrived(Do(cfg, s, Enter(t, entry)), arrivals + [Arrival(t, entry, s.now)])
  {
    var s' := Do(cfg, s, Enter(t, entry));
    var more := arrivals + [Arrival(t, entry, s.now)];
    forall u, i | 0 <= i < |Stack(s', u)| ensures FrameArrived(u, Stack(s', u)[i], more) {
      if u != t || i < |Stack(s, t)| {
        assert Stack(s', u)[i] == Stack(s, u)[i];
        assert FrameArrived(u, Stack(s, u)[i], arrivals);
      }
    }
  }

  lemma OnlyMoreArrived(s: State, s': State, a: seq<Arrival>, b: seq<Arrival>)
    requires AsArrived(s, a) && a <= b && s'.stacks == s.stacks && s'.first == s.first
    ensures AsArrived(s', b)
  {
    forall u, i | 0 <= i < |Stack(s', u)| ensures FrameArrived(u, Stack(s', u)[i], b) {
      assert Stack(s', u)[i] == Stack(s, u)[i] && FrameArrived(u, Stack(s, u)[i], a);
    }
  }

  /** Every handler of a run is one that entered, on its thread, for its fault and at its time; so is the
      first fault, whose kind the process ends with; and the clock shows the milliseconds gone by. */
  lemma {:induction false} FramesAreAsEntered(cfg: Config, actions: seq<Action>)
    ensures AsArrived(Run(cfg, actions), Arrivals(actions))
    ensures Run(cfg, actions).ended.None? ==>
      Run(cfg, actions).next == |Arrivals(actions)| && Run(cfg, actions).now == Ticks(actions)
  {
    hide Advance, AsArrived;
    if actions == [] {
      assert AsArrived(INITIAL, []) by { NobodyArrived(); }
    } else {
      var n := |actions| - 1;
      var s, arrivals := Run(cfg, actions[..n]), Arrivals(actions[..n]);
      FramesAreAsEntered(cfg, actions[..n]);
      if s.ended.Some? {
        OnlyMoreArrived(s, s, arrivals, Arrivals(actions));
      } else {
        match actions[n]
        case Tick =>
          assert Arrivals(actions) == arrivals;
          OnlyMoreArrived(s, Do(cfg, s, Tick), arrivals, arrivals);
        case Enter(t, entry) => EnterArrived(cfg, s, t, entry, arrivals);
        case Step(t, more, back) =>
          assert Arrivals(actions) == arrivals;
          if Stack(s, t) != [] { AdvanceArrived(cfg, s, t, more, back, arrivals); }
      }
    }
  }

  lemma NobodyArrived()
    ensures AsArrived(INITIAL, [])
  {
  }

  /** A single fault is never refused the path. */
  lemma {:induction false} NobodyElse(cfg: Config, actions: seq<Action>)
    requires |Arrivals(actions)| <= 1
    ensures !Run(cfg, actions).reentered && !Run(cfg, actions).timedOut
  {
    hide Inv, AsArrived;
    if actions != [] {
      var n := |actions| - 1;
      var s := Run(cfg, actions[..n]);
      NobodyElse(cfg, actions[..n]);
      if s.ended.None? {
        RunIsOk(cfg, actions[..n]);
        FramesAreAsEntered(cfg, actions[..n]);
        match actions[n]
        case Step(t, more, back) => if Stack(s, t) != [] { FreeForOne(cfg, s, t, more, back); }
        case _ =>
      }
    }
  }

  lemma FreeForOne(cfg: Config, s: State, t: Thread, more: bool, back: bool)
    requires Inv(cfg, s) && s.next <= 1 && Stack(s, t) != [] && !s.reentered && !s.timedOut
    ensures var s' := Advance(cfg, s, t, Top(s, t), more, back); !s'.reentered && !s'.timedOut
  {
    hide ExitCode, CannotRunCode, GivesUp, Inv;
    if Top(s, t).pc == Trying && s.word != 0 { TwoEntered(cfg, s, t); }
  }

  lemma TwoEntered(cfg: Config, s: State, t: Thread)
    requires Inv(cfg, s) && Stack(s, t) != [] && Top(s, t).pc == Trying && s.word != 0
    ensures s.next >= 2
  {
    hide ExitCode, Unmixed, Uniform;
    var st := Stack(s, t);
    assert FrameOk(cfg, s, t, st[|st| - 1]) && s.word > 0;
    var u: Thread := s.word;
    assert Holds(Stack(s, u));
    var i :| 0 <= i < |Stack(s, u)| && Holding(Stack(s, u)[i]);
    assert FrameOk(cfg, s, u, Stack(s, u)[i]);
    assert Stack(s, u)[i].ticket != st[|st| - 1].ticket;
  }

  /** So a process with exitAfterReport and a single fault, if it is fatal and however its thread is
      interleaved with time, ends with that fault's own code and no other. */
  lemma LoneFaultExit(cfg: Config, actions: seq<Action>, t: Thread, kind: Kind, at: nat)
    requires cfg.exitAfterReport && Arrivals(actions) == [Arrival(t, Fatal(kind), at)]
    requires Run(cfg, actions).ended.Some?
    ensures Run(cfg, actions).ended.value.Code? && EndsFor(cfg.platform, kind, Run(cfg, actions).ended.value.code)
  {
    hide Run, EndsFor;
    NobodyElse(cfg, actions);
    UndisturbedExit(cfg, actions);
    FramesAreAsEntered(cfg, actions);
  }

  predicate AbortArrived(arrivals: seq<Arrival>)
  {
    exists n :: 0 <= n < |arrivals| && arrivals[n].entry == Fatal(Abort)
  }

  /** Without exitAfterReport the handlers end the process only when one cannot run, or with 3 after an
      abort's report on Windows; otherwise the system does, its own way, after the path is let go. */
  lemma {:induction false} EndWithoutExit(cfg: Config, actions: seq<Action>)
    ensures var s := Run(cfg, actions);
      !cfg.exitAfterReport && s.ended.Some? && s.ended.value.Code? ==>
      || (EndsCannotRun(cfg.platform, s.ended.value.code) && (s.reentered || s.timedOut))
      || (cfg.platform.Windows? && s.ended.value.code == 3 && AbortArrived(Arrivals(actions)))
  {
    hide FramesOk, Named, Owned, EndOk, HistoryOk, Advance, EndsCannotRun;
    if actions != [] {
      var n := |actions| - 1;
      var s := Run(cfg, actions[..n]);
      EndWithoutExit(cfg, actions[..n]);
      if s.ended.None? {
        RunIsOk(cfg, actions[..n]);
        match actions[n]
        case Step(t, more, back) =>
          if Stack(s, t) != [] && !cfg.exitAfterReport {
            EndsOneWay(cfg, s, t, more, back);
            FramesAreAsEntered(cfg, actions[..n]);
            assert Arrivals(actions) == Arrivals(actions[..n]);
            var st := Stack(s, t);
            assert FrameArrived(t, st[|st| - 1], Arrivals(actions[..n]));
            assert Arrivals(actions)[st[|st| - 1].ticket].entry == Top(s, t).entry;
          }
        case _ =>
      }
    }
  }

  lemma EndsOneWay(cfg: Config, s: State, t: Thread, more: bool, back: bool)
    requires FramesOk(cfg, s) && Stack(s, t) != [] && s.ended.None? && !cfg.exitAfterReport
    ensures var s' := Advance(cfg, s, t, Top(s, t), more, back);
      s'.ended.Some? && s'.ended.value.Code? ==>
      || (EndsCannotRun(cfg.platform, s'.ended.value.code) && (s'.reentered || s'.timedOut))
      || (cfg.platform.Windows? && s'.ended.value.code == 3 && Top(s, t).entry == Fatal(Abort))
  {
    hide Poll, ExitCode, Uniform;
    var st := Stack(s, t);
    assert FrameOk(cfg, s, t, st[|st| - 1]);
    if Top(s, t).pc == Trying { PollChangesFields(cfg, s, t); }
  }

  /** With exitAfterReport the path, once a fatal fault has it, is never released: no later fault,
      fatal or absorbed, ever takes it. */
  lemma FirstFaultKeepsThePath(cfg: Config, actions: seq<Action>)
    ensures var s := Run(cfg, actions);
      cfg.exitAfterReport && s.first.Some? ==> s.word == s.first.value.thread && s.holder == s.first.value.ticket
  {
    RunIsOk(cfg, actions);
  }

  /** A waiter's wait is bounded. On Linux it tries at most 2001 times: every pass of the loop is a nap,
      and naps are counted. On Windows it may nap only while less than ten seconds have passed since it
      came, whatever the clock does between its passes; the first pass after that is its last. */
  lemma WaitIsBounded(cfg: Config, actions: seq<Action>, t: Thread, i: nat, more: bool, back: bool)
    ensures var s := Run(cfg, actions);
      cfg.platform.Posix? && i < |Stack(s, t)| && Stack(s, t)[i].pc == Trying ==> Stack(s, t)[i].polls <= 2000
    ensures var s := Run(cfg, actions);
      s.ended.None? && Stack(s, t) != [] && Top(s, t).pc == Trying && GivesUp(cfg.platform, s.now, Top(s, t)) ==>
      Left(Do(cfg, s, Step(t, more, back)), t, Top(s, t).ticket)
  {
    hide Run;
    RunIsOk(cfg, actions);
    var s := Run(cfg, actions);
    if i < |Stack(s, t)| { assert FrameOk(cfg, s, t, Stack(s, t)[i]); }
    if s.ended.None? && Stack(s, t) != [] && Top(s, t).pc == Trying && GivesUp(cfg.platform, s.now, Top(s, t)) {
      LeavesTheWait(cfg, s, t, more, back);
    }
  }

  /** A waiter that finds another thread holding the path gives up exactly when it has waited its time,
      ten seconds since it entered by the clock on Windows, 2000 naps on Linux; otherwise it naps, and
      counts it. */
  lemma WaitsItsTime(cfg: Config, actions: seq<Action>, t: Thread, more: bool, back: bool)
    ensures var s := Run(cfg, actions);
      s.ended.None? && Stack(s, t) != [] && Top(s, t).pc == Trying && s.word != 0 && s.word != t ==>
      var f, s' := Top(s, t), Do(cfg, s, Step(t, more, back));
      && f.ticket < |Arrivals(actions)| &&
      var waited := if cfg.platform.Windows? then Ticks(actions) - Arrivals(actions)[f.ticket].at >= 10000
                    else f.polls >= 2000;
      && (waited ==> Left(s', t, f.ticket))
      && (waited && f.entry.Fatal? ==> s'.timedOut && Stack(s', t) != [] && Top(s', t).pc == CannotRun)
      && (!waited ==> Stack(s', t) != [] && Top(s', t) == f.(polls := f.polls + 1))
  {
    hide Run, Stack;
    RunIsOk(cfg, actions);
    FramesAreAsEntered(cfg, actions);
    var s := Run(cfg, actions);
    if s.ended.None? && Stack(s, t) != [] && Top(s, t).pc == Trying && s.word != 0 && s.word != t {
      var st := Stack(s, t);
      assert FrameArrived(t, st[|st| - 1], Arrivals(actions));
      if GivesUp(cfg.platform, s.now, Top(s, t)) { LeavesTheWait(cfg, s, t, more, back); }
      TriesOnce(cfg, s, t, more, back);
    }
  }

  lemma TriesOnce(cfg: Config, s: State, t: Thread, more: bool, back: bool)
    requires s.ended.None? && Stack(s, t) != [] && Top(s, t).pc == Trying && s.word != 0 && s.word != t
    ensures var f, s' := Top(s, t), Do(cfg, s, Step(t, more, back));
      if GivesUp(cfg.platform, s.now, f)
      then f.entry.Fatal? ==> s'.timedOut && Stack(s', t) != [] && Top(s', t).pc == CannotRun
      else Stack(s', t) != [] && Top(s', t) == f.(polls := f.polls + 1)
  {
    hide GivesUp;
  }

  /** The frame with this ticket no longer waits on top of its thread. */
  predicate Left(s: State, t: Thread, ticket: nat)
  {
    Stack(s, t) == [] || Top(s, t).ticket != ticket || Top(s, t).pc != Trying
  }

  lemma LeavesTheWait(cfg: Config, s: State, t: Thread, more: bool, back: bool)
    requires Named(s) && s.ended.None? && Stack(s, t) != [] && Top(s, t).pc == Trying
    requires GivesUp(cfg.platform, s.now, Top(s, t))
    ensures Left(Do(cfg, s, Step(t, more, back)), t, Top(s, t).ticket)
  {
    hide GivesUp, ExitCode;
    var st := Stack(s, t);
    if |st| > 1 { assert st[|st| - 2].ticket != st[|st| - 1].ticket; }
  }

  // ----- progress ---------------------------------------------------------------------------

  /** How many steps the top frame's own business can still take, with nothing more to write. */
  function Rank(f: Frame): nat
  {
    match f.pc
    case Trying => 4
    case CannotRun => 3
    case Building => 2
    case Dying => 1
    case Lining => 3
    case Writing => 2
    case _ => 1
  }

  function Steps(t: Thread, n: nat): (steps: seq<Action>)
    ensures |steps| == n && forall i :: 0 <= i < n ==> steps[i] == Step(t, false, true)
  {
    seq(n, i requires 0 <= i < n => Step(t, false, true))
  }

  lemma RunOn(cfg: Config, actions: seq<Action>, a: Action)
    ensures Run(cfg, actions + [a]) == Do(cfg, Run(cfg, actions), a)
  {
    hide Do;
    assert (actions + [a])[..|actions|] == actions;
  }

  lemma {:induction false} EndedStays(cfg: Config, actions: seq<Action>, t: Thread, n: nat)
    requires Run(cfg, actions).ended.Some?
    ensures Run(cfg, actions + Steps(t, n)).ended.Some?
  {
    hide Run;
    if n == 0 {
      assert actions + Steps(t, 0) == actions;
    } else {
      EndedStays(cfg, actions, t, n - 1);
      assert actions + Steps(t, n) == actions + Steps(t, n - 1) + [Step(t, false, true)];
      RunOn(cfg, actions + Steps(t, n - 1), Step(t, false, true));
    }
  }

  /** The i-th frame of t is a fatal handler that holds the path. */
  predicate FatalHolds(s: State, t: Thread, i: nat)
  {
    i < |Stack(s, t)| && Holding(Stack(s, t)[i]) && Stack(s, t)[i].entry.Fatal?
  }

  /** One step of the thread brings the end nearer: the holder goes on, or, if it faulted again, the
      frames on top of it come to their own end. */
  lemma StepBringsTheEnd(cfg: Config, s: State, t: Thread, i: nat)
    requires Inv(cfg, s) && cfg.exitAfterReport && s.ended.None? && FatalHolds(s, t, i)
    ensures var s' := Do(cfg, s, Step(t, false, true));
      || s'.ended.Some?
      || (FatalHolds(s', t, i) && |Stack(s', t)| + Rank(Top(s', t)) < |Stack(s, t)| + Rank(Top(s, t)))
  {
    hide Uniform, ExitCode, Unmixed, EndOk, HistoryOk, Named, Owned;
    var st, f := Stack(s, t), Top(s, t);
    assert FrameOk(cfg, s, t, st[i]) && FrameOk(cfg, s, t, f);
    if i < |st| - 1 && Holding(f) { OneHolder(cfg, s, t, i, t, |st| - 1); }
    if f.pc == Trying { TriesInVain(cfg, s, t, i); }
  }

  /** On the holder's own thread a new handler is refused at once. */
  lemma TriesInVain(cfg: Config, s: State, t: Thread, i: nat)
    requires s.ended.None? && FatalHolds(s, t, i) && Top(s, t).pc == Trying && s.word == t
    ensures var s' := Do(cfg, s, Step(t, false, true));
      FatalHolds(s', t, i) && |Stack(s', t)| + Rank(Top(s', t)) < |Stack(s, t)| + Rank(Top(s, t))
  {
    hide GivesUp, ExitCode, Rank, Holding, Do, Poll;
    var st, f, s' := Stack(s, t), Top(s, t), Do(cfg, s, Step(t, false, true));
    HoldingIsNotTrying(st[i]);
    var n := |st| - 1;
    assert st == st[..n] + [f];
    RefusedStack(cfg, s, t);
    RankOfTop(f);
    if f.entry.Absorbed? {
      assert Stack(s', t) == st[..n] && n > 0;
      RankIsSmall(st[..n][n - 1]);
    } else {
      RankOfTop(f.(pc := CannotRun));
      assert Stack(s', t) == st[..n] + [f.(pc := CannotRun)];
    }
  }

  lemma HoldingIsNotTrying(f: Frame)
    ensures Holding(f) ==> f.pc != Trying
  {
  }

  lemma RankOfTop(f: Frame)
    ensures f.pc == Trying ==> Rank(f) == 4
    ensures f.pc == CannotRun ==> Rank(f) == 3
  {
  }

  /** What a refusal leaves of the thread's stack. */
  lemma RefusedStack(cfg: Config, s: State, t: Thread)
    requires s.ended.None? && Stack(s, t) != [] && Top(s, t).pc == Trying && s.word == t
    ensures var st, f := Stack(s, t), Top(s, t);
      Stack(Do(cfg, s, Step(t, false, true)), t) ==
      st[..|st| - 1] + if f.entry.Absorbed? then [] else [f.(pc := CannotRun)]
  {
    hide GivesUp, ExitCode;
  }

  lemma {:induction false} ThreadEnds(cfg: Config, actions: seq<Action>, t: Thread, i: nat, n: nat)
    requires cfg.exitAfterReport && FatalHolds(Run(cfg, actions), t, i)
    requires Stack(Run(cfg, actions), t) != [] && |Stack(Run(cfg, actions), t)| + Rank(Top(Run(cfg, actions), t)) <= n
    ensures Run(cfg, actions + Steps(t, n)).ended.Some?
    decreases n
  {
    hide Run, Do, FatalHolds, Rank;
    var s, a := Run(cfg, actions), Step(t, false, true);
    RankIsSmall(Top(s, t));
    if s.ended.Some? {
      EndedStays(cfg, actions, t, n);
    } else {
      RunIsOk(cfg, actions);
      StepBringsTheEnd(cfg, s, t, i);
      RunOn(cfg, actions, a);
      assert actions + Steps(t, n) == actions + [a] + Steps(t, n - 1);
      if Run(cfg, actions + [a]).ended.Some? {
        EndedStays(cfg, actions + [a], t, n - 1);
      } else {
        StackHasHolder(Run(cfg, actions + [a]), t, i);
        ThreadEnds(cfg, actions + [a], t, i, n - 1);
      }
    }
  }

  /** Progress: with exitAfterReport, once a fatal fault has taken the path its own thread alone, however
      often it faults again on the way, ends the process in at most four steps more than it has handlers
      stacked, once there is nothing more to write; and then with one of the two codes. */
  lemma FirstFaultEndsTheProcess(cfg: Config, actions: seq<Action>)
    ensures var s := Run(cfg, actions);
      cfg.exitAfterReport && s.first.Some? ==>
      var t := s.first.value.thread;
      var end := Run(cfg, actions + Steps(t, |Stack(s, t)| + 4)).ended;
      && end.Some?
      && (s.ended.None? ==>
            (end.value.Code? &&
             (EndsFor(cfg.platform, s.first.value.kind, end.value.code) ||
              EndsCannotRun(cfg.platform, end.value.code))))
  {
    hide EndsFor, EndsCannotRun, Run, Inv, Rank, Do, FatalHolds, Stack;
    var s := Run(cfg, actions);
    if cfg.exitAfterReport && s.first.Some? {
      var t := s.first.value.thread;
      var more := actions + Steps(t, |Stack(s, t)| + 4);
      var i := HolderIsFatal(cfg, actions);
      StackHasHolder(s, t, i);
      RankIsSmall(Top(s, t));
      ThreadEnds(cfg, actions, t, i, |Stack(s, t)| + 4);
      ExitIsFirstFault(cfg, more);
      FirstStays(cfg, actions, t, |Stack(s, t)| + 4);
    }
  }

  lemma StackHasHolder(s: State, t: Thread, i: nat)
    requires FatalHolds(s, t, i)
    ensures Stack(s, t) != []
  {
  }

  lemma RankIsSmall(f: Frame)
    ensures 1 <= Rank(f) <= 4
  {
  }

  lemma HolderIsFatal(cfg: Config, actions: seq<Action>) returns (i: nat)
    requires cfg.exitAfterReport && Run(cfg, actions).first.Some?
    ensures FatalHolds(Run(cfg, actions), Run(cfg, actions).first.value.thread, i)
  {
    hide Run;
    RunIsOk(cfg, actions);
    WordNamesAHolder(cfg, actions);
    var s := Run(cfg, actions);
    i :| 0 <= i < |Stack(s, s.word)| && Holding(Stack(s, s.word)[i]) && Stack(s, s.word)[i].ticket == s.holder;
    assert FrameOk(cfg, s, s.word, Stack(s, s.word)[i]);
  }

  lemma FirstStaysOnce(cfg: Config, s: State, a: Action)
    requires s.first.Some?
    ensures Do(cfg, s, a).first == s.first
  {
    hide ExitCode, GivesUp;
  }

  lemma {:induction false} FirstStays(cfg: Config, actions: seq<Action>, t: Thread, n: nat)
    requires Run(cfg, actions).first.Some?
    ensures Run(cfg, actions + Steps(t, n)).first == Run(cfg, actions).first
  {
    hide Run, Do;
    if n == 0 {
      assert actions + Steps(t, 0) == actions;
    } else {
      FirstStays(cfg, actions, t, n - 1);
      assert actions + Steps(t, n) == actions + Steps(t, n - 1) + [Step(t, false, true)];
      RunOn(cfg, actions + Steps(t, n - 1), Step(t, false, true));
      FirstStaysOnce(cfg, Run(cfg, actions + Steps(t, n - 1)), Step(t, false, true));
    }
  }
}
