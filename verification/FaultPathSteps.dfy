/** The fault path's invariant, and that every step of every run keeps it. */
module FaultPathSteps {
  import opened Wrappers
  import opened FaultPath

  // ----- the invariant ----------------------------------------------------------------------

  predicate Stuck(f: Frame) { f.pc in {CannotRun, Building, Dying} }

  ghost predicate FrameOk(cfg: Config, s: State, t: Thread, f: Frame)
  {
    && f.ticket < s.next
    && (f.pc == Trying ==> f.ticket !in s.refused && f.ticket !in s.wrote)
    && (f.pc == Trying && cfg.platform.Posix? ==> f.polls <= NAPS)
    && (Holding(f) ==> s.word == t && s.holder == f.ticket && f.ticket !in s.refused && Uniform(s.buffer, f.ticket))
    && (Holding(f) && f.entry.Fatal? && cfg.exitAfterReport ==>
        s.first == Some(First(t, f.ticket, f.entry.kind)) && f.pc != Releasing)
    && (f.pc in {Written, Releasing} ==> f.ticket in s.completed)
    && (f.pc == Released ==> f.entry.Fatal? && !cfg.exitAfterReport && f.ticket !in s.refused)
    && (Stuck(f) ==> f.ticket in s.refused && f.ticket !in s.wrote && (s.reentered || s.timedOut))
    && (f.pc == Building ==> f.ticket in s.builders)
    && (s.first.Some? && s.first.value.ticket == f.ticket ==> f.entry.Fatal?)
  }

  ghost predicate FramesOk(cfg: Config, s: State)
  {
    forall t, i :: 0 <= i < |Stack(s, t)| ==> FrameOk(cfg, s, t, Stack(s, t)[i])
  }

  /** No ticket names two frames. */
  ghost predicate Named(s: State)
  {
    forall t, i, u, j | 0 <= i < |Stack(s, t)| && 0 <= j < |Stack(s, u)| ::
      Stack(s, t)[i].ticket == Stack(s, u)[j].ticket ==> t == u && i == j
  }

  ghost predicate Holds(st: seq<Frame>) { exists i :: 0 <= i < |st| && Holding(st[i]) }

  /** The ownership word names a thread exactly while that thread is between taking the path and
      letting it go. */
  ghost predicate Owned(s: State) { forall t: Thread :: s.word == t <==> Holds(Stack(s, t)) }

  ghost predicate EndOk(cfg: Config, s: State)
  {
    && (cfg.exitAfterReport && s.first.Some? ==> s.word == s.first.value.thread && s.holder == s.first.value.ticket)
    && (s.ended.Some? && cfg.exitAfterReport ==> RightEnd(cfg, s))
  }

  ghost predicate RightEnd(cfg: Config, s: State)
    requires s.ended.Some?
  {
    || (s.ended.value == Code(CannotRunCode(cfg.platform)) && (s.reentered || s.timedOut))
    || (s.first.Some? && s.ended.value == Code(ExitCode(cfg.platform, s.first.value.kind))
        && s.first.value.ticket in s.completed)
  }

  predicate AllWrote(b: seq<nat>, wrote: set<nat>) { forall i :: 0 <= i < |b| ==> b[i] in wrote }

  predicate AllReportsWrote(reports: seq<seq<nat>>, wrote: set<nat>)
  {
    forall k :: 0 <= k < |reports| ==> AllWrote(reports[k], wrote)
  }

  ghost predicate HistoryOk(s: State)
  {
    && s.wrote !! s.refused && AllWrote(s.buffer, s.wrote) && AllReportsWrote(s.reports, s.wrote)
    && (forall x :: x in s.wrote || x in s.refused || x in s.completed ==> x < s.next)
    && Unmixed(s.reports, s.completed)
    && |s.builders| == (if s.cannotRunEntries == 0 then 0 else 1)
    && (s.first.Some? ==> s.first.value.ticket < s.next)
    && s.word >= 0
  }

  ghost predicate Inv(cfg: Config, s: State)
  {
    FramesOk(cfg, s) && Named(s) && Owned(s) && EndOk(cfg, s) && HistoryOk(s)
  }

  // ----- every step keeps it ----------------------------------------------------------------

  lemma InitialIsOk(cfg: Config)
    ensures Inv(cfg, INITIAL)
  {
  }

  lemma EnterFrames(cfg: Config, s: State, t: Thread, entry: Entry)
    requires Inv(cfg, s) && s.ended.None?
    ensures FramesOk(cfg, Do(cfg, s, Enter(t, entry))) && Named(Do(cfg, s, Enter(t, entry)))
  {
    hide Uniform, ExitCode;
    var s' := Do(cfg, s, Enter(t, entry));
    var st, st' := Stack(s, t), Stack(s', t);
    assert forall u :: u != t ==> Stack(s', u) == Stack(s, u);
    assert forall i :: 0 <= i < |st| ==> st'[i] == st[i];
    assert st'[|st|].ticket == s.next;
    forall u, i | 0 <= i < |Stack(s', u)| ensures FrameOk(cfg, s', u, Stack(s', u)[i]) {
      if u != t || i < |st| { assert FrameOk(cfg, s, u, Stack(s, u)[i]); }
    }
  }

  lemma EnterKeeps(cfg: Config, s: State, t: Thread, entry: Entry)
    requires Inv(cfg, s) && s.ended.None?
    ensures Inv(cfg, Do(cfg, s, Enter(t, entry)))
  {
    hide FrameOk, FramesOk, Named, Unmixed;
    EnterFrames(cfg, s, t, entry);
    var s' := Do(cfg, s, Enter(t, entry));
    forall u: Thread ensures Holds(Stack(s', u)) <==> Holds(Stack(s, u)) {
      if u == t { HoldsPushed(Stack(s, t), Frame(entry, s.next, Trying, s.now, 0)); }
    }
  }

  lemma HoldsPushed(st: seq<Frame>, f: Frame)
    ensures Holds(st + [f]) <==> Holds(st) || Holding(f)
  {
    var st' := st + [f];
    assert forall i :: 0 <= i < |st| ==> st'[i] == st[i];
    assert st'[|st|] == f;
    if i :| 0 <= i < |st| && Holding(st[i]) { assert Holding(st'[i]); }
    if Holding(f) { assert Holding(st'[|st|]); }
  }

  /** A step may add only its own ticket to the sets, and leaves a holder what it holds. */
  ghost predicate Only(s: State, s': State, x: nat)
  {
    && s'.next == s.next
    && s'.refused <= s.refused + {x} && s'.wrote <= s.wrote + {x}
    && s.completed <= s'.completed && s.builders <= s'.builders && s.refused <= s'.refused
    && (s.reentered ==> s'.reentered) && (s.timedOut ==> s'.timedOut)
    && (s.first.Some? ==> s'.first == s.first)
    && (s.first.None? && s'.first.Some? ==> s'.first.value.ticket == x)
  }

  lemma OtherFrame(cfg: Config, s: State, s': State, x: nat, u: Thread, g: Frame)
    requires FrameOk(cfg, s, u, g) && g.ticket != x && Only(s, s', x)
    requires Holding(g) ==> s'.word == s.word && s'.holder == s.holder && s'.buffer == s.buffer
    ensures FrameOk(cfg, s', u, g)
  {
  }

  /** The frames after a step that changes, or ends, the top frame of t. */
  lemma FramesAfter(cfg: Config, s: State, s': State, t: Thread, f: Option<Frame>)
    requires FramesOk(cfg, s) && Named(s) && Stack(s, t) != []
    requires var x := Stack(s, t)[|Stack(s, t)| - 1].ticket;
      && Only(s, s', x)
      && (f.Some? ==> f.value.ticket == x && FrameOk(cfg, s', t, f.value))
      && (forall u, i | 0 <= i < |Stack(s, u)| :: Holding(Stack(s, u)[i]) && Stack(s, u)[i].ticket != x ==>
          s'.word == s.word && s'.holder == s.holder && s'.buffer == s.buffer)
    requires s'.stacks == (if f.Some? then WithTop(s, t, f.value) else Popped(s, t)).stacks
    ensures FramesOk(cfg, s') && Named(s')
  {
    hide FrameOk, Only;
    var st, st' := Stack(s, t), Stack(s', t);
    var n := |st| - 1;
    assert forall u :: u != t ==> Stack(s', u) == Stack(s, u);
    assert forall i :: 0 <= i < n ==> st'[i] == st[i];
    forall u, i | 0 <= i < |Stack(s', u)| ensures FrameOk(cfg, s', u, Stack(s', u)[i]) {
      if u != t || i < n {
        assert Stack(s', u)[i] == Stack(s, u)[i];
        assert Stack(s, u)[i].ticket != Stack(s, t)[n].ticket;
        OtherFrame(cfg, s, s', st[n].ticket, u, Stack(s, u)[i]);
      }
    }
  }

  /** Only the holder's own frame holds: any other frame's step finds the path as it was. */
  lemma OneHolder(cfg: Config, s: State, t: Thread, i: nat, u: Thread, j: nat)
    requires FramesOk(cfg, s) && Named(s)
    requires i < |Stack(s, t)| && j < |Stack(s, u)| && Holding(Stack(s, t)[i]) && Holding(Stack(s, u)[j])
    ensures t == u && i == j
  {
    assert FrameOk(cfg, s, t, Stack(s, t)[i]) && FrameOk(cfg, s, u, Stack(s, u)[j]);
  }

  lemma HoldsAfter(st: seq<Frame>, f: Frame)
    requires st != [] && (Holding(st[|st| - 1]) <==> Holding(f))
    ensures Holds(st[..|st| - 1] + [f]) <==> Holds(st)
  {
    assert st == st[..|st| - 1] + [st[|st| - 1]];
    HoldsPushed(st[..|st| - 1], f);
    HoldsPushed(st[..|st| - 1], st[|st| - 1]);
  }

  lemma HoldsPopped(st: seq<Frame>)
    requires st != [] && !Holding(st[|st| - 1])
    ensures Holds(st[..|st| - 1]) <==> Holds(st)
  {
    assert st == st[..|st| - 1] + [st[|st| - 1]];
    HoldsPushed(st[..|st| - 1], st[|st| - 1]);
  }

  /** A step that leaves the word, and whether its frame holds, as they were. */
  lemma OwnedAfter(s: State, s': State, t: Thread, f: Option<Frame>)
    requires Owned(s) && Stack(s, t) != [] && s'.word == s.word
    requires var top := Stack(s, t)[|Stack(s, t)| - 1];
      if f.Some? then Holding(top) <==> Holding(f.value) else !Holding(top)
    requires s'.stacks == (if f.Some? then WithTop(s, t, f.value) else Popped(s, t)).stacks
    ensures Owned(s')
  {
    hide Holds, Holding;
    if f.Some? { HoldsAfter(Stack(s, t), f.value); } else { HoldsPopped(Stack(s, t)); }
    forall u: Thread ensures s'.word == u <==> Holds(Stack(s', u)) {
      assert u != t ==> Stack(s', u) == Stack(s, u);
    }
  }

  function Top(s: State, t: Thread): Frame
    requires Stack(s, t) != []
  {
    Stack(s, t)[|Stack(s, t)| - 1]
  }

  lemma AcquireKeeps(cfg: Config, s: State, t: Thread)
    requires Inv(cfg, s) && s.ended.None? && Stack(s, t) != [] && Top(s, t).pc == Trying && s.word == 0
    ensures Inv(cfg, Poll(cfg, s, t, Top(s, t)))
  {
    hide Holds, ExitCode, Unmixed;
    var f := Top(s, t);
    var s' := Poll(cfg, s, t, f);
    assert FrameOk(cfg, s, t, f);
    var f' := f.(pc := if f.entry.Fatal? then Lining else Writing);
    FramesAfter(cfg, s, s', t, Some(f'));
    var st := Stack(s, t);
    HoldsPushed(st[..|st| - 1], f');
    forall u: Thread ensures s'.word == u <==> Holds(Stack(s', u)) {
      assert u != t ==> Stack(s', u) == Stack(s, u);
    }
  }

  lemma RefuseKeeps(cfg: Config, s: State, t: Thread)
    requires Inv(cfg, s) && s.ended.None? && Stack(s, t) != [] && Top(s, t).pc == Trying && s.word != 0
    requires s.word == t || GivesUp(cfg.platform, s.now, Top(s, t))
    ensures Inv(cfg, Poll(cfg, s, t, Top(s, t)))
  {
    hide Holds, ExitCode, Unmixed;
    var f := Top(s, t);
    var s' := Poll(cfg, s, t, f);
    assert FrameOk(cfg, s, t, f);
    var f' := if f.entry.Absorbed? then None else Some(f.(pc := CannotRun));
    FramesAfter(cfg, s, s', t, f');
    OwnedAfter(s, s', t, f');
  }

  lemma NapKeeps(cfg: Config, s: State, t: Thread)
    requires Inv(cfg, s) && s.ended.None? && Stack(s, t) != [] && Top(s, t).pc == Trying && s.word != 0
    requires s.word != t && !GivesUp(cfg.platform, s.now, Top(s, t))
    ensures Inv(cfg, Poll(cfg, s, t, Top(s, t)))
  {
    hide Holds, ExitCode, Unmixed;
    var f := Top(s, t);
    assert FrameOk(cfg, s, t, f);
    var f' := Some(f.(polls := f.polls + 1));
    FramesAfter(cfg, s, Poll(cfg, s, t, f), t, f');
    OwnedAfter(s, Poll(cfg, s, t, f), t, f');
  }

  lemma LineKeeps(cfg: Config, s: State, t: Thread, more: bool, back: bool)
    requires Inv(cfg, s) && s.ended.None? && Stack(s, t) != [] && Top(s, t).pc == Lining
    ensures Inv(cfg, Advance(cfg, s, t, Top(s, t), more, back))
  {
    hide Holds, ExitCode, Unmixed;
    var f := Top(s, t);
    var s' := Advance(cfg, s, t, f, more, back);
    assert FrameOk(cfg, s, t, f);
    FramesAfter(cfg, s, s', t, Some(f.(pc := Writing)));
    OwnedAfter(s, s', t, Some(f.(pc := Writing)));
  }

  lemma WriteKeeps(cfg: Config, s: State, t: Thread, back: bool)
    requires Inv(cfg, s) && s.ended.None? && Stack(s, t) != [] && Top(s, t).pc == Writing
    ensures Inv(cfg, Advance(cfg, s, t, Top(s, t), true, back))
  {
    hide Holds, ExitCode, Unmixed;
    var f := Top(s, t);
    var s' := Advance(cfg, s, t, f, true, back);
    assert FrameOk(cfg, s, t, f);
    var st := Stack(s, t);
    assert st == st[..|st| - 1] + [f];
    assert s'.stacks == WithTop(s, t, f).stacks by { SameStacks(s, t); }
    FramesAfter(cfg, s, s', t, Some(f));
    OwnedAfter(s, s', t, Some(f));
  }

  lemma SameStacks(s: State, t: Thread)
    requires Stack(s, t) != []
    ensures WithTop(s, t, Top(s, t)).stacks == s.stacks
  {
    var st := Stack(s, t);
    assert st[..|st| - 1] + [st[|st| - 1]] == st;
  }

  lemma WriteDoneKeeps(cfg: Config, s: State, t: Thread, back: bool)
    requires Inv(cfg, s) && s.ended.None? && Stack(s, t) != [] && Top(s, t).pc == Writing
    ensures Inv(cfg, Advance(cfg, s, t, Top(s, t), false, back))
  {
    hide Holds, ExitCode;
    var f := Top(s, t);
    var s' := Advance(cfg, s, t, f, false, back);
    assert FrameOk(cfg, s, t, f);
    FramesAfter(cfg, s, s', t, Some(f.(pc := Written)));
    OwnedAfter(s, s', t, Some(f.(pc := Written)));
  }

  lemma FinishKeeps(cfg: Config, s: State, t: Thread, more: bool, back: bool)
    requires Inv(cfg, s) && s.ended.None? && Stack(s, t) != [] && Top(s, t).pc == Written
    ensures Inv(cfg, Advance(cfg, s, t, Top(s, t), more, back))
  {
    hide Holds, ExitCode, Unmixed;
    var f := Top(s, t);
    var s' := Advance(cfg, s, t, f, more, back);
    assert FrameOk(cfg, s, t, f);
    if s'.ended.Some? {
      EndedFrames(cfg, s, s');
    } else {
      FramesAfter(cfg, s, s', t, Some(f.(pc := Releasing)));
      OwnedAfter(s, s', t, Some(f.(pc := Releasing)));
    }
  }

  /** Ending the process changes nothing the frames depend on. */
  lemma EndedFrames(cfg: Config, s: State, s': State)
    requires FramesOk(cfg, s) && Named(s) && Owned(s) && s' == s.(ended := s'.ended)
    ensures FramesOk(cfg, s') && Named(s') && Owned(s')
  {
    hide Holds;
    forall u, i | 0 <= i < |Stack(s', u)| ensures FrameOk(cfg, s', u, Stack(s', u)[i]) {
      assert FrameOk(cfg, s, u, Stack(s, u)[i]);
    }
    assert forall u: Thread :: Stack(s', u) == Stack(s, u);
  }

  lemma ReleaseKeeps(cfg: Config, s: State, t: Thread, more: bool, back: bool)
    requires Inv(cfg, s) && s.ended.None? && Stack(s, t) != [] && Top(s, t).pc == Releasing
    ensures Inv(cfg, Advance(cfg, s, t, Top(s, t), more, back))
  {
    hide ExitCode, Unmixed;
    var f := Top(s, t);
    var s' := Advance(cfg, s, t, f, more, back);
    assert FrameOk(cfg, s, t, f);
    var f' := if f.entry.Absorbed? then None else Some(f.(pc := Released));
    FramesAfter(cfg, s, s', t, f');
    forall u: Thread ensures s'.word == u <==> Holds(Stack(s', u)) {
      forall i | 0 <= i < |Stack(s', u)| ensures !Holding(Stack(s', u)[i]) {
        if u != t { assert Stack(s', u)[i] == Stack(s, u)[i]; }
      }
    }
  }

  lemma ReleasedKeeps(cfg: Config, s: State, t: Thread, more: bool, back: bool)
    requires Inv(cfg, s) && s.ended.None? && Stack(s, t) != [] && Top(s, t).pc == Released
    ensures Inv(cfg, Advance(cfg, s, t, Top(s, t), more, back))
  {
    hide Holds, ExitCode, Unmixed;
    var f := Top(s, t);
    var s' := Advance(cfg, s, t, f, more, back);
    assert FrameOk(cfg, s, t, f);
    if s'.ended.Some? {
      EndedFrames(cfg, s, s');
    } else {
      FramesAfter(cfg, s, s', t, None);
      OwnedAfter(s, s', t, None);
    }
  }

  lemma CannotRunKeeps(cfg: Config, s: State, t: Thread, more: bool, back: bool)
    requires Inv(cfg, s) && s.ended.None? && Stack(s, t) != [] && Top(s, t).pc == CannotRun
    ensures Inv(cfg, Advance(cfg, s, t, Top(s, t), more, back))
  {
    hide Holds, ExitCode, Unmixed;
    var f := Top(s, t);
    var s' := Advance(cfg, s, t, f, more, back);
    assert FrameOk(cfg, s, t, f);
    assert s.cannotRunEntries == 0 ==> s.builders == {};
    var f' := f.(pc := if s.cannotRunEntries == 0 then Building else Dying);
    FramesAfter(cfg, s, s', t, Some(f'));
    OwnedAfter(s, s', t, Some(f'));
  }

  lemma DyingKeeps(cfg: Config, s: State, t: Thread, more: bool, back: bool)
    requires Inv(cfg, s) && s.ended.None? && Stack(s, t) != [] && Top(s, t).pc in {Building, Dying}
    ensures Inv(cfg, Advance(cfg, s, t, Top(s, t), more, back))
  {
    hide Holds, ExitCode, Unmixed;
    var f := Top(s, t);
    var s' := Advance(cfg, s, t, f, more, back);
    assert FrameOk(cfg, s, t, f);
    if s'.ended.Some? {
      EndedFrames(cfg, s, s');
    } else {
      FramesAfter(cfg, s, s', t, Some(f.(pc := Dying)));
      OwnedAfter(s, s', t, Some(f.(pc := Dying)));
    }
  }

  lemma StepKeeps(cfg: Config, s: State, t: Thread, more: bool, back: bool)
    requires Inv(cfg, s) && s.ended.None? && Stack(s, t) != []
    ensures Inv(cfg, Advance(cfg, s, t, Top(s, t), more, back))
  {
    hide Inv, Poll;
    var f := Top(s, t);
    match f.pc {
      case Trying =>
        if s.word == 0 { AcquireKeeps(cfg, s, t); }
        else if s.word == t || GivesUp(cfg.platform, s.now, f) { RefuseKeeps(cfg, s, t); }
        else { NapKeeps(cfg, s, t); }
      case Lining => LineKeeps(cfg, s, t, more, back);
      case Writing => if more { WriteKeeps(cfg, s, t, back); } else { WriteDoneKeeps(cfg, s, t, back); }
      case Written => FinishKeeps(cfg, s, t, more, back);
      case Releasing => ReleaseKeeps(cfg, s, t, more, back);
      case Released => ReleasedKeeps(cfg, s, t, more, back);
      case CannotRun => CannotRunKeeps(cfg, s, t, more, back);
      case _ => DyingKeeps(cfg, s, t, more, back);
    }
  }

  lemma TickKeeps(cfg: Config, s: State)
    requires Inv(cfg, s) && s.ended.None?
    ensures Inv(cfg, Do(cfg, s, Tick))
  {
    hide Holds, ExitCode, Unmixed;
    var s' := Do(cfg, s, Tick);
    forall u, i | 0 <= i < |Stack(s', u)| ensures FrameOk(cfg, s', u, Stack(s', u)[i]) {
      assert FrameOk(cfg, s, u, Stack(s, u)[i]);
    }
    assert forall u: Thread :: Stack(s', u) == Stack(s, u);
  }

  /** Every state every run reaches satisfies the invariant. */
  lemma {:induction false} RunIsOk(cfg: Config, actions: seq<Action>)
    ensures Inv(cfg, Run(cfg, actions))
  {
    hide Inv, Advance;
    if actions == [] {
      InitialIsOk(cfg);
    } else {
      var n := |actions| - 1;
      RunIsOk(cfg, actions[..n]);
      var s := Run(cfg, actions[..n]);
      if s.ended.None? {
        match actions[n]
        case Tick => TickKeeps(cfg, s);
        case Enter(t, entry) => EnterKeeps(cfg, s, t, entry);
        case Step(t, more, back) => if Stack(s, t) != [] { StepKeeps(cfg, s, t, more, back); }
      }
    }
  }
}
