/** The crash handlers' fault path as a state machine: one ownership word taken by compare-and-swap,
    shared by the fatal entry points and the absorbed-fault reporters, with waiting, timing out,
    same-thread re-entry and the once-only exit when a handler cannot run. */
module FaultPath {
  import opened Wrappers

  datatype Platform = Windows | Posix

  type Thread = t: int | t > 0 witness 1

  const OTHER_THREAD_WAIT_MS: nat := 10000
  const NAP_MS: nat := 5
  const NAPS: nat := OTHER_THREAD_WAIT_MS / NAP_MS

  /** The fatal entry points. `Fault` is an exception's code on Windows, a signal's number on Linux;
      `Abort` is the SIGABRT net, a handler of its own on Windows only. */
  datatype Kind = Fault(code: nat) | Terminate | PureCall | InvalidParameter | Abort

  datatype Entry = Fatal(kind: Kind) | Absorbed

  /** What finish() is given, and on Linux the status it makes of it. */
  function FaultCode(platform: Platform, kind: Kind): nat
  {
    match platform
    case Windows => (
      match kind
      case Fault(code) => if code != 0 then code else 0xE0000001
      case Terminate => 0xE0000003
      case PureCall => 0xE0000004
      case InvalidParameter => 0xE0000005
      case Abort => 0xE0000006)
    case Posix => (
      match kind
      case Fault(code) => code
      case Terminate => 0xE1000001
      case PureCall => 0xE1000002
      case InvalidParameter => 0xE1000003
      case Abort => 6)
  }

  function ExitCode(platform: Platform, kind: Kind): nat
  {
    var code := FaultCode(platform, kind);
    if platform.Windows? then code
    else if code == 0 || code % 0x80 == 0 then 1 else code % 0x80
  }

  function CannotRunCode(platform: Platform): nat { if platform.Windows? then 0xE0000002 else 0xE2 }

  /** Where a frame of the handler stands. */
  datatype Pc =
    | Trying                  // in acquireFaultPath
    | Lining                  // holds the path; the parent's line is next
    | Writing                 // inside writeReport
    | Written                 // writeReport has returned; finish is next
    | Releasing               // releaseFaultPath is next
    | Released                // the path is free again; the process goes its own way
    | CannotRun               // in handlerCannotRun, before its counter
    | Building                // building the cannot-run line
    | Dying                   // about to terminate the process

  /** One activation of a handler; a thread that faults again stacks another on top. `ticket` is its
      name in the history below. */
  datatype Frame = Frame(entry: Entry, ticket: nat, pc: Pc, since: nat, polls: nat)

  datatype First = First(thread: Thread, ticket: nat, kind: Kind)

  datatype Config = Config(platform: Platform, exitAfterReport: bool)

  /** How the process ended: with a code of the handlers', or as the system ends it. */
  datatype End = Code(code: nat) | ByDefault

  datatype State = State(
    word: int,                          // the ownership word: a thread, or 0 when free
    cannotRunEntries: nat,
    buffer: seq<nat>,                   // whose bytes the shared static buffers hold
    stacks: map<Thread, seq<Frame>>,
    now: nat,
    ended: Option<End>,
    // History, for stating properties of whole runs.
    next: nat,                          // the next ticket
    holder: nat,                        // ticket of the last frame to take the path
    reports: seq<seq<nat>>,             // completed reports, as they stood in the buffers
    completed: set<nat>,                // tickets of frames whose report is complete
    wrote: set<nat>,                    // tickets of frames that ever wrote the buffers
    refused: set<nat>,                  // tickets that re-entered or timed out
    builders: set<nat>,                 // tickets that built the cannot-run line
    first: Option<First>,               // the first fatal fault to take the path
    reentered: bool,                    // a fatal fault found its own thread holding the path
    timedOut: bool)                     // a fatal fault stopped waiting

  const INITIAL: State :=
    State(0, 0, [], map[], 0, None, 0, 0, [], {}, {}, {}, {}, None, false, false)

  /** What may happen next. `more` and `back` are choices the model leaves open: whether the
      report has more to write, and whether the handler's caller comes back. */
  datatype Action =
    | Tick
    | Enter(thread: Thread, entry: Entry)
    | Step(thread: Thread, more: bool, back: bool)

  function Stack(s: State, t: Thread): seq<Frame> { if t in s.stacks then s.stacks[t] else [] }

  function WithTop(s: State, t: Thread, f: Frame): State
    requires Stack(s, t) != []
  {
    var st := Stack(s, t);
    s.(stacks := s.stacks[t := st[..|st| - 1] + [f]])
  }

  function Popped(s: State, t: Thread): State
    requires Stack(s, t) != []
  {
    var st := Stack(s, t);
    s.(stacks := s.stacks[t := st[..|st| - 1]])
  }

  /** Has this waiter waited long enough to give up? Windows reads a clock; Linux counts its naps. */
  predicate GivesUp(platform: Platform, now: nat, f: Frame)
  {
    if platform.Windows? then now >= f.since + OTHER_THREAD_WAIT_MS else f.polls >= NAPS
  }

  /** One pass of acquireFaultPath's loop: the compare-and-swap, then what it answers. */
  function Poll(cfg: Config, s: State, t: Thread, f: Frame): State
    requires Stack(s, t) != []
  {
    if s.word == 0 then
      var s' := WithTop(s, t, f.(pc := if f.entry.Fatal? then Lining else Writing));
      s'.(word := t, holder := f.ticket, buffer := [],
          first := if f.entry.Fatal? && s.first.None?
                   then Some(First(t, f.ticket, f.entry.kind)) else s.first)
    else if s.word == t || GivesUp(cfg.platform, s.now, f) then
      var s' := s.(refused := s.refused + {f.ticket});
      if f.entry.Absorbed? then Popped(s', t)
      else WithTop(s', t, f.(pc := CannotRun)).(
             reentered := s.reentered || s.word == t, timedOut := s.timedOut || s.word != t)
    else
      WithTop(s, t, f.(polls := f.polls + 1))
  }

  /** The next thing the top frame of t does. */
  function Advance(cfg: Config, s: State, t: Thread, f: Frame, more: bool, back: bool): State
    requires Stack(s, t) != []
  {
    match f.pc
    case Trying => Poll(cfg, s, t, f)
    case Lining => WithTop(s, t, f.(pc := Writing))
    case Writing =>
      if more then s.(buffer := s.buffer + [f.ticket], wrote := s.wrote + {f.ticket})
      else WithTop(s, t, f.(pc := Written)).(reports := s.reports + [s.buffer], completed := s.completed + {f.ticket})
    case Written =>
      if f.entry.Fatal? && cfg.exitAfterReport then s.(ended := Some(Code(ExitCode(cfg.platform, f.entry.kind))))
      else if f.entry == Fatal(Abort) && cfg.platform.Windows? then s.(ended := Some(Code(3)))
      else WithTop(s, t, f.(pc := Releasing))
    case Releasing =>
      var s' := if f.entry.Absorbed? then Popped(s, t) else WithTop(s, t, f.(pc := Released));
      s'.(word := 0)
    case Released => if back then Popped(s, t) else s.(ended := Some(ByDefault))
    case CannotRun =>
      var s' := WithTop(s, t, f.(pc := if s.cannotRunEntries == 0 then Building else Dying));
      s'.(cannotRunEntries := s.cannotRunEntries + 1,
          builders := if s.cannotRunEntries == 0 then s.builders + {f.ticket} else s.builders)
    case Building => WithTop(s, t, f.(pc := Dying))
    case Dying => s.(ended := Some(Code(CannotRunCode(cfg.platform))))
  }

  function Do(cfg: Config, s: State, a: Action): State
  {
    if s.ended.Some? then s
    else
      match a
      case Tick => s.(now := s.now + 1)
      case Enter(t, entry) =>
        s.(stacks := s.stacks[t := Stack(s, t) + [Frame(entry, s.next, Trying, s.now, 0)]], next := s.next + 1)
      case Step(t, more, back) =>
        var st := Stack(s, t);
        if st == [] then s else Advance(cfg, s, t, st[|st| - 1], more, back)
  }

  /** The state after a run: any number of faults, on any threads, interleaved in any way. */
  function Run(cfg: Config, actions: seq<Action>): State
  {
    if actions == [] then INITIAL
    else Do(cfg, Run(cfg, actions[..|actions| - 1]), actions[|actions| - 1])
  }

  /** Between taking the path and letting it go. */
  predicate Holding(f: Frame) { f.pc in {Lining, Writing, Written, Releasing} }

  predicate Uniform(b: seq<nat>, ticket: nat) { forall i :: 0 <= i < |b| ==> b[i] == ticket }

  /** Each completed report holds the bytes of one writer, and a writer that completed. */
  ghost predicate Unmixed(reports: seq<seq<nat>>, completed: set<nat>)
  {
    forall k :: 0 <= k < |reports| ==> exists x :: x in completed && Uniform(reports[k], x)
  }
}
