/** The `--serve` session protocol: a command thread and a tracer thread that
    share one client stream, one session recording and a handful of flags.

    Every step below is one atomic action of the program: one line written under
    the session mutex, or one access to a shared flag.  A run is any sequence of
    labels whose steps are enabled, so it covers every interleaving of the two
    threads; the engine is an arbitrary emitter that returns an arbitrary code. */
module ServeProtocol {
  import opened Common

  // ---------------------------------------------------------------- the wire

  /** The command a reply names. */
  datatype Asked = ToStart | ToLaunch | ToStop | ToPause | ToQuit | ToUnknown

  /** One line of the client stream or of the session recording.  `Refused` and
      `Skipped` are the same `session state:"skip"` line; the model keeps apart
      the one that is written instead of starting (a target of the wrong
      bitness) and the one that ends a session that did start.  Likewise `Ack` and
      `Err` are the `cmd` and `err` lines by which the command thread answers,
      `LaunchAck` and `LaunchErr` those by which the tracer answers a `launch`, and
      `Broke` the `err` line of a session that failed or got no thread. */
  datatype Line =
    | Header
    | Event(body: int)
    | End(events: nat, truncated: bool, lost: nat, skip: nat)
    | Started
    | Refused
    | Skipped(code: nat)
    | Stopped(count: nat, dropped: nat)
    | Failed(count: nat)
    | Ack(to: Asked)
    | Err(to: Asked)
    | LaunchAck
    | LaunchErr
    | Broke

  /** What the client may send, together with the verdict of the argument
      checks, which are not part of this model. */
  datatype Command =
    | Malformed
    | Quit
    | Stop
    | PauseBad
    | Pause(on: bool)
    | Unknown
    | Start(verdict: Verdict)
    | Launch(parses: bool)

  datatype Verdict = Rejected | WrongBitness | Accepted

  // ---------------------------------------------------------------- the state

  /** Where `serve_stop` returns to: its three callers. */
  datatype Return = ToDispatch(cmd: Command) | ToIdle | ToClose

  datatype CommandPc =
    | CIdle
    | CReap(cmd: Command)
    | CDispatch(cmd: Command, reaped: bool)
    | CPauseAck
    | CStarted
    | CRefused
    | CReset(launch: bool)
    | CCreate
    | CMark
    | CStop(ret: Return)
    | CJoin(ret: Return)
    | CAnnounce(ret: Return)
    | CAnnounceFailed(ret: Return)
    | CDrain
    | CClose
    | CDone

  datatype TracerPc =
    | NoThread
    | TEntry
    | TLaunched
    | TLaunchAcked
    | TRefuse
    | TAbandon
    | TOpen
    | TEngine
    | TNote
    | TCount
    | TFooter
    | TTail
    | TEnding
    | TAnnounceFailed
    | TAnnounced
    | TLeave
    | TExited

  /** The per-session recorder, `rec_t`: the pause gate and the counters of the
      client writer. */
  datatype Recorder = Recorder(paused: bool, dropped: nat, events: nat, truncated: bool)

  /** The session recording of `--record`, one writer for every session. */
  datatype Recording = Recording(lines: seq<Line>, events: nat, truncated: bool)

  /** The flags of `serve_session_t`, and how many tracer threads exist. */
  datatype Session = Session(
    joinable: bool,
    running: bool,
    stop: bool,
    announced: bool,
    launch: bool,
    rc: int,
    events: nat,
    threads: int)

  datatype State = State(
    c: CommandPc,
    t: TracerPc,
    ses: Session,
    rec: Recorder,
    out: seq<Line>,
    file: Option<Recording>)

  function Init(record: bool): State {
    State(CIdle, NoThread, Session(false, false, false, false, false, 0, 0, 0),
          Recorder(false, 0, 0, false), [],
          if record then Some(Recording([Header], 0, false)) else None)
  }

  datatype Label =
    | Receive(cmd: Command)      // fgets returned a line
    | EndOfInput                 // fgets returned NULL
    | CommandStep                // the command thread's only possible step
    | Create(ok: bool, forLaunch: bool)
    | Drained(interrupted: bool) // the wait at end of input is over
    | LaunchOutcome(verdict: Verdict)
    | Open                       // the tracer opens its recorder
    | Emit(body: int)            // one rec_emit
    | EngineTruncates            // one rec_truncated
    | EngineReturns(code: int)
    | TracerStep                 // the tracer thread's only possible step

  // ---------------------------------------------------------------- writing

  function Say(s: State, line: Line): State { s.(out := s.out + [line]) }

  /** `rec_emit`: a paused recorder counts and marks, an open one writes the
      same line to the client and to the session recording. */
  function RecEmit(s: State, body: int): State {
    if s.rec.paused then
      s.(rec := s.rec.(dropped := s.rec.dropped + 1, truncated := true),
         file := match s.file
                 case None => None
                 case Some(f) => Some(f.(truncated := true)))
    else
      s.(rec := s.rec.(events := s.rec.events + 1),
         out := s.out + [Event(body)],
         file := match s.file
                 case None => None
                 case Some(f) => Some(f.(lines := f.lines + [Event(body)], events := f.events + 1)))
  }

  function SkipCode(rc: int): nat { if rc > 0 then rc else 0 }

  /** The terminal `session` line of a session whose code is not negative. */
  function Terminal(s: State): Line {
    if s.ses.rc > 0 then Skipped(s.ses.rc) else Stopped(s.ses.events, s.rec.dropped)
  }

  // ---------------------------------------------------------------- command thread

  function Resume(s: State, ret: Return): State {
    match ret
    case ToDispatch(cmd) => s.(c := CDispatch(cmd, true))
    case ToIdle => s.(c := CIdle)
    case ToClose => s.(c := CClose)
  }

  function AskedBy(cmd: Command): Asked {
    match cmd
    case Quit => ToQuit
    case Stop => ToStop
    case PauseBad | Pause(_) => ToPause
    case Start(_) => ToStart
    case Launch(_) => ToLaunch
    case Malformed | Unknown => ToUnknown
  }

  /** A reply to a command that changes no session. */
  function Reply(s: State, cmd: Command, ok: bool): State {
    Say(s, if ok then Ack(AskedBy(cmd)) else Err(AskedBy(cmd))).(c := CIdle)
  }

  /** `stop`, `pause`, `start` and `launch` with the jack free (`joinable` = 0). */
  function DispatchFree(s: State, cmd: Command, reaped: bool): State {
    if cmd.Start? && cmd.verdict.Accepted? then Say(s, Ack(ToStart)).(c := CStarted)
    else if cmd.Start? && cmd.verdict.WrongBitness? then Say(s, Ack(ToStart)).(c := CRefused)
    else if cmd.Launch? && cmd.parses then s.(c := CReset(true))
    else Reply(s, cmd, reaped && (cmd.Stop? || cmd.Pause?))
  }

  /** The same commands while a session holds the jack. */
  function DispatchHeld(s: State, cmd: Command): State {
    match cmd
    case Stop => Say(s, Ack(ToStop)).(c := CStop(ToIdle))
    case Pause(on) => s.(rec := s.rec.(paused := on), c := CPauseAck)
    case _ => Reply(s, cmd, false)
  }

  function Dispatch(s: State, cmd: Command, reaped: bool): State {
    if cmd.Quit? then Say(s, Ack(ToQuit)).(c := CDrain)
    else if s.ses.joinable then DispatchHeld(s, cmd)
    else DispatchFree(s, cmd, reaped)
  }

  /** The recording's own footer, written once when the loop ends. */
  function CloseFile(s: State): State {
    match s.file
    case None => s
    case Some(f) =>
      s.(file := Some(f.(lines := f.lines + [End(f.events, f.truncated, 0, SkipCode(s.ses.rc))])))
  }

  predicate CommandEnabled(s: State) {
    match s.c
    case CReap(_) | CDispatch(_, _) | CPauseAck | CStarted | CRefused | CReset(_) => true
    case CMark | CStop(_) | CAnnounce(_) | CAnnounceFailed(_) | CClose => true
    case CJoin(_) => s.t.TExited?
    case CIdle | CCreate | CDrain | CDone => false
  }

  function CommandNext(s: State): State
    requires CommandEnabled(s)
  {
    match s.c
    case CReap(cmd) =>
      if s.ses.joinable && !s.ses.running then s.(c := CStop(ToDispatch(cmd)))
      else s.(c := CDispatch(cmd, false))
    case CDispatch(cmd, reaped) => Dispatch(s, cmd, reaped)
    case CPauseAck => Say(s, Ack(ToPause)).(c := CIdle)
    case CStarted => Say(s, Started).(c := CReset(false))
    case CRefused => Say(s, Refused).(c := CIdle)
    case CReset(launch) =>
      s.(ses := Session(s.ses.joinable, true, false, false, launch, 0, 0, s.ses.threads), c := CCreate)
    case CMark => s.(ses := s.ses.(joinable := true), c := CIdle)
    case CStop(_) | CJoin(_) | CAnnounce(_) | CAnnounceFailed(_) => StopNext(s)
    case CClose => CloseFile(s).(c := CDone)
  }

  /** The steps of `serve_stop`: raise the flag, join, announce if the tracer has
      not. */
  function StopNext(s: State): State
    requires s.c.CStop? || s.c.CJoin? || s.c.CAnnounce? || s.c.CAnnounceFailed?
  {
    match s.c
    case CStop(ret) => s.(ses := s.ses.(stop := true), c := CJoin(ret))
    case CJoin(ret) =>
      s.(ses := s.ses.(joinable := false, threads := s.ses.threads - 1), t := NoThread, c := CAnnounce(ret))
    case CAnnounce(ret) =>
      if s.ses.announced then Resume(s, ret)
      else if s.ses.rc < 0 then Say(s, Broke).(c := CAnnounceFailed(ret))
      else Resume(Say(s, Terminal(s)), ret)
    case CAnnounceFailed(ret) => Resume(Say(s, Failed(s.ses.events)), ret)
  }

  // ---------------------------------------------------------------- tracer thread

  predicate TracerEnabled(s: State) {
    match s.t
    case TEntry | TLaunchAcked | TRefuse | TAbandon | TNote | TCount | TFooter => true
    case TTail | TEnding | TAnnounceFailed | TAnnounced | TLeave => true
    case NoThread | TLaunched | TOpen | TEngine | TExited => false
  }

  function TracerNext(s: State): State
    requires TracerEnabled(s)
  {
    match s.t
    case TEntry => s.(t := if s.ses.launch then TLaunched else TOpen)
    case TLaunchAcked => Say(s, Started).(t := TOpen)
    case TRefuse => Say(s, Refused).(t := TAbandon)
    case TAbandon => s.(ses := s.ses.(announced := true), t := TLeave)
    case TNote => s.(t := TCount)
    case TCount => s.(ses := s.ses.(events := s.rec.events), t := TFooter)
    case TFooter =>
      Say(s, End(s.rec.events, s.rec.truncated, s.rec.dropped, SkipCode(s.ses.rc))).(t := TTail)
    case TTail => s.(t := if s.ses.stop then TLeave else TEnding)
    case TEnding =>
      if s.ses.rc < 0 then Say(s, Broke).(t := TAnnounceFailed)
      else Say(s, Terminal(s)).(t := TAnnounced)
    case TAnnounceFailed => Say(s, Failed(s.ses.events)).(t := TAnnounced)
    case TAnnounced => s.(ses := s.ses.(announced := true), t := TLeave)
    case TLeave => s.(ses := s.ses.(running := false), t := TExited)
  }

  // ---------------------------------------------------------------- runs

  predicate Enabled(s: State, l: Label) {
    match l
    case Receive(_) => s.c.CIdle?
    case EndOfInput => s.c.CIdle?
    case CommandStep => CommandEnabled(s)
    case Create(_, forLaunch) => s.c.CCreate? && forLaunch == s.ses.launch
    case Drained(interrupted) => s.c.CDrain? && (interrupted || !(s.ses.joinable && s.ses.running))
    case LaunchOutcome(_) => s.t.TLaunched?
    case Open => s.t.TOpen?
    case Emit(_) => s.t.TEngine? || (s.t.TNote? && s.ses.rc > 0)
    case EngineTruncates => s.t.TEngine?
    case EngineReturns(_) => s.t.TEngine?
    case TracerStep => TracerEnabled(s)
  }

  function Step(s: State, l: Label): State
    requires Enabled(s, l)
  {
    match l
    case Receive(cmd) => s.(c := CReap(cmd))
    case EndOfInput => s.(c := CDrain)
    case CommandStep => CommandNext(s)
    case Create(ok, _) =>
      if ok then s.(ses := s.ses.(threads := s.ses.threads + 1), t := TEntry, c := CMark)
      else Say(s, Broke).(ses := s.ses.(running := false), c := CIdle)
    case Drained(_) => s.(c := if s.ses.joinable then CStop(ToClose) else CClose)
    case LaunchOutcome(verdict) =>
      (match verdict
       case Rejected => Say(s, LaunchErr).(t := TAbandon)
       case WrongBitness => Say(s, LaunchAck).(t := TRefuse)
       case Accepted => Say(s, LaunchAck).(t := TLaunchAcked))
    case Open => Say(s, Header).(rec := Recorder(false, 0, 0, false), t := TEngine)
    case Emit(body) =>
      if s.t.TNote? then RecEmit(s, body).(t := TCount) else RecEmit(s, body)
    case EngineTruncates => s.(rec := s.rec.(truncated := true))
    case EngineReturns(code) => s.(ses := s.ses.(rc := code), t := TNote)
    case TracerStep => TracerNext(s)
  }

  /** The state a run ends in, if all its steps were enabled. */
  function After(record: bool, run: seq<Label>): Option<State> {
    if run == [] then Some(Init(record))
    else
      var last := |run| - 1;
      match After(record, run[..last])
      case None => None
      case Some(s) => if Enabled(s, run[last]) then Some(Step(s, run[last])) else None
  }

  // ---------------------------------------------------------------- the law of the stream

  /** How far a reader of the client stream has come: between sessions, after
      `started`, inside a [header .. end] slice, after its footer. */
  datatype Phase =
    | Closed
    | Announced
    | Streaming(count: nat)
    | Footed(count: nat, lost: nat)
    | Broken

  /** The grammar of the client stream: a session is `started`, one header, its
      event lines, one footer that counts them, and exactly one terminal line
      that agrees with the footer.  Acknowledgements and refusals of commands
      may fall anywhere. */
  function Read(p: Phase, line: Line): Phase {
    match (p, line)
    case (_, Ack(_)) => p
    case (_, Err(_)) => p
    case (_, LaunchAck) => p
    case (_, LaunchErr) => p
    case (_, Broke) => p
    case (Closed, Started) => Announced
    case (Closed, Refused) => Closed
    case (Announced, Header) => Streaming(0)
    case (Streaming(n), Event(_)) => Streaming(n + 1)
    case (Streaming(n), End(e, truncated, lost, _)) =>
      if e == n && (lost > 0 ==> truncated) then Footed(n, lost) else Broken
    case (Footed(n, lost), Stopped(e, dropped)) =>
      if e == n && dropped == lost then Closed else Broken
    case (Footed(n, _), Failed(e)) => if e == n then Closed else Broken
    case (Footed(_, _), Skipped(_)) => Closed
    case _ => Broken
  }

  function Scan(lines: seq<Line>): Phase {
    if lines == [] then Closed
    else Read(Scan(lines[..|lines| - 1]), lines[|lines| - 1])
  }

  lemma {:induction false} ScanSay(lines: seq<Line>, line: Line)
    ensures Scan(lines + [line]) == Read(Scan(lines), line)
  {
    assert (lines + [line])[..|lines|] == lines;
  }

  /** The only way a `started` is left without its terminal line: the thread of
      a `start` could not be created. */
  predicate FailedStart(l: Label) { l.Create? && !l.ok && !l.forLaunch }

  // ---------------------------------------------------------------- the invariant

  predicate ThreadMayLive(c: CommandPc) {
    match c
    case CIdle | CReap(_) | CDispatch(_, _) | CPauseAck | CMark | CStop(_) | CJoin(_) | CDrain => true
    case _ => false
  }

  /** What the flags say about the threads. */
  predicate Flags(s: State) {
    && (s.t != NoThread <==> s.ses.joinable || s.c.CMark?)
    && (s.t != NoThread ==> ThreadMayLive(s.c))
    && (s.c.CMark? ==> !s.ses.joinable)
    && (s.c.CStop? || s.c.CJoin? || s.c.CPauseAck? ==> s.ses.joinable)
    && (s.t != NoThread ==> (s.ses.running <==> !s.t.TExited?))
    && (s.t != NoThread && s.ses.stop ==> s.c.CJoin?)
    && (s.t != NoThread && s.ses.announced ==> s.t.TLeave? || s.t.TExited?)
    && ((s.t.TLeave? || s.t.TExited?) && !s.ses.announced ==> s.ses.stop)
    && (s.c.CCreate? ==> s.ses.running && !s.ses.stop && !s.ses.announced)
    && (s.rec.dropped > 0 ==> s.rec.truncated)
    && (s.t.TFooter? ==> s.ses.events == s.rec.events)
    && s.ses.threads == (if s.t == NoThread then 0 else 1)
  }

  /** Where a reader of the stream must stand, given where the threads stand. */
  function Expected(s: State): Phase {
    match s.t
    case NoThread =>
      (match s.c
       case CAnnounce(_) => if s.ses.announced then Closed else Footed(s.ses.events, s.rec.dropped)
       case CAnnounceFailed(_) => Footed(s.ses.events, s.rec.dropped)
       case CReset(launch) => if launch then Closed else Announced
       case CCreate => if s.ses.launch then Closed else Announced
       case _ => Closed)
    case TEntry => if s.ses.launch then Closed else Announced
    case TLaunched | TLaunchAcked | TRefuse | TAbandon => Closed
    case TOpen => Announced
    case TEngine | TNote | TCount | TFooter => Streaming(s.rec.events)
    case TTail | TEnding | TAnnounceFailed => Footed(s.ses.events, s.rec.dropped)
    case TAnnounced => Closed
    case TLeave | TExited => if s.ses.announced then Closed else Footed(s.ses.events, s.rec.dropped)
  }

  /** In a healthy run the reader stands where the threads say.  After a failed
      `start` it is stuck behind a `started` that nothing will ever close. */
  predicate Placed(s: State, p: Phase, healthy: bool) {
    if healthy then p == Expected(s)
    else p == Broken || (p == Announced && Expected(s) == Closed)
  }

  predicate Inv(s: State, healthy: bool) { Flags(s) && Placed(s, Scan(s.out), healthy) }

  /** What a reader at phase `p` makes of the line a step wrote, if it wrote one. */
  function ReadOn(s: State, s': State, p: Phase): Phase {
    if |s'.out| > |s.out| then Read(p, s'.out[|s.out|]) else p
  }

  lemma {:induction false} FlagsOfCommand(s: State)
    requires Flags(s) && CommandEnabled(s)
    ensures Flags(CommandNext(s))
  {}

  lemma {:induction false} FlagsOfTracer(s: State)
    requires Flags(s) && TracerEnabled(s)
    ensures Flags(TracerNext(s))
  {}

  lemma {:induction false} FlagsKept(s: State, l: Label)
    requires Flags(s) && Enabled(s, l)
    ensures Flags(Step(s, l))
  {
    hide CommandNext, CommandEnabled, TracerNext, TracerEnabled;
    match l
    case CommandStep => FlagsOfCommand(s);
    case TracerStep => FlagsOfTracer(s);
    case _ =>
  }

  lemma {:induction false} CommandPlaced(s: State)
    requires Flags(s) && CommandEnabled(s)
    ensures Expected(CommandNext(s)) == ReadOn(s, CommandNext(s), Expected(s))
  {
    hide StopNext, Dispatch;
    if s.c.CStop? || s.c.CJoin? || s.c.CAnnounce? || s.c.CAnnounceFailed? { StopPlaced(s); }
    if s.c.CDispatch? { DispatchPlaced(s); }
  }

  lemma {:induction false} DispatchPlaced(s: State)
    requires Flags(s) && s.c.CDispatch?
    ensures var s' := Dispatch(s, s.c.cmd, s.c.reaped); Expected(s') == ReadOn(s, s', Expected(s))
  {
    hide Dispatch;
    DispatchSays(s);
  }

  /** Dispatching writes at most an answer, and moves the command thread only. */
  lemma {:induction false} DispatchSays(s: State)
    requires s.c.CDispatch?
    ensures var s' := Dispatch(s, s.c.cmd, s.c.reaped);
            && s'.t == s.t && s'.ses == s.ses && s'.rec.dropped == s.rec.dropped && s'.rec.events == s.rec.events
            && (|s'.out| > |s.out| ==> s'.out[|s.out|].Ack? || s'.out[|s.out|].Err?)
            && (s'.c.CReset? ==> s'.c.launch)
            && !(s'.c.CAnnounce? || s'.c.CAnnounceFailed? || s'.c.CCreate?)
  {}

  lemma {:induction false} StopPlaced(s: State)
    requires Flags(s) && CommandEnabled(s)
    requires s.c.CStop? || s.c.CJoin? || s.c.CAnnounce? || s.c.CAnnounceFailed?
    ensures Expected(StopNext(s)) == ReadOn(s, StopNext(s), Expected(s))
  {}

  lemma {:induction false} TracerPlaced(s: State)
    requires Flags(s) && TracerEnabled(s)
    ensures Expected(TracerNext(s)) == ReadOn(s, TracerNext(s), Expected(s))
  {}

  lemma {:induction false} StepPlaced(s: State, l: Label)
    requires Flags(s) && Enabled(s, l)
    ensures !FailedStart(l) ==> Expected(Step(s, l)) == ReadOn(s, Step(s, l), Expected(s))
    ensures FailedStart(l) ==>
              Expected(s) == Announced && Expected(Step(s, l)) == Closed
              && ReadOn(s, Step(s, l), Announced) == Announced
  {
    hide CommandNext, CommandEnabled, TracerNext, TracerEnabled;
    match l
    case CommandStep => CommandPlaced(s);
    case TracerStep => TracerPlaced(s);
    case _ =>
  }

  /** A step writes at most one line, at the end. */
  predicate Appends(s: State, s': State) {
    || s'.out == s.out
    || (|s'.out| == |s.out| + 1 && s'.out == s.out + [s'.out[|s.out|]])
  }

  lemma {:induction false} StepAppends(s: State, l: Label)
    requires Enabled(s, l)
    ensures Appends(s, Step(s, l))
  {
    hide CommandNext, CommandEnabled, TracerNext, TracerEnabled;
    match l
    case CommandStep => CommandAppends(s);
    case TracerStep => TracerAppends(s);
    case _ =>
  }

  lemma {:induction false} CommandAppends(s: State)
    requires CommandEnabled(s)
    ensures Appends(s, CommandNext(s))
  {}

  lemma {:induction false} TracerAppends(s: State)
    requires TracerEnabled(s)
    ensures Appends(s, TracerNext(s))
  {}

  lemma {:induction false} ScanOn(s: State, s': State)
    requires Appends(s, s')
    ensures Scan(s'.out) == ReadOn(s, s', Scan(s.out))
  {
    if |s'.out| > |s.out| {
      ScanSay(s.out, s'.out[|s.out|]);
    }
  }

  lemma {:induction false} ExpectedIsSound(s: State)
    ensures Expected(s) != Broken
  {}

  lemma {:induction false} StepKeeps(s: State, l: Label, healthy: bool)
    requires Inv(s, healthy) && Enabled(s, l)
    ensures Inv(Step(s, l), healthy && !FailedStart(l))
  {
    hide Enabled, Step, Flags, Expected;
    ExpectedIsSound(Step(s, l));
    FlagsKept(s, l);
    StepPlaced(s, l);
    StepAppends(s, l);
    ScanOn(s, Step(s, l));
  }

  predicate Healthy(run: seq<Label>) { forall i :: 0 <= i < |run| ==> !FailedStart(run[i]) }

  lemma {:induction false} InitInv(record: bool)
    ensures Inv(Init(record), true)
  {}

  lemma {:induction false} RunKeeps(record: bool, run: seq<Label>)
    requires After(record, run).Some?
    ensures Inv(After(record, run).value, Healthy(run))
  {
    hide Step, Enabled, Inv;
    if run == [] {
      InitInv(record);
    } else {
      var before := run[..|run| - 1];
      RunKeeps(record, before);
      StepKeeps(After(record, before).value, run[|run| - 1], Healthy(before));
      assert Healthy(run) <==> Healthy(before) && !FailedStart(run[|run| - 1]);
    }
  }

  // ---------------------------------------------------------------- what the grammar means

  predicate IsTerminal(line: Line) { line.Stopped? || line.Failed? || line.Skipped? }

  predicate SessionMark(line: Line) { line.Started? || IsTerminal(line) }

  /** No `started` and no terminal line in lines[from..]. */
  predicate Quiet(lines: seq<Line>, from: nat) {
    forall k :: from <= k < |lines| ==> !SessionMark(lines[k])
  }

  /** Line j is the first session mark after the `started` at i, and ends it. */
  predicate Ends(lines: seq<Line>, i: nat, j: nat) {
    && i < j < |lines|
    && lines[i].Started?
    && IsTerminal(lines[j])
    && Quiet(lines[..j], i + 1)
  }

  lemma {:induction false} ScanPrefix(lines: seq<Line>, n: nat)
    requires n <= |lines| && Scan(lines) != Broken
    ensures Scan(lines[..n]) != Broken
    decreases |lines| - n
  {
    if n == |lines| {
      assert lines[..n] == lines;
    } else {
      ScanPrefix(lines, n + 1);
      assert lines[..n + 1][..n] == lines[..n];
    }
  }

  /** Inside a session there is a `started` that nothing has ended yet. */
  lemma {:induction false} OpenSession(lines: seq<Line>) returns (i: nat)
    requires Scan(lines) != Broken && Scan(lines) != Closed
    ensures i < |lines| && lines[i].Started? && Quiet(lines, i + 1)
  {
    var last := |lines| - 1;
    if lines[last].Started? {
      i := last;
    } else {
      i := OpenSession(lines[..last]);
      assert !SessionMark(lines[last]);
      assert forall k :: i < k < last ==> lines[k] == lines[..last][k];
    }
  }

  /** Every `started` has its own terminal line, before any later `started`. */
  lemma {:induction false} StartedIsEnded(lines: seq<Line>, i: nat) returns (j: nat)
    requires Scan(lines) != Broken
    requires i < |lines| && lines[i].Started?
    ensures Ends(lines, i, j) || (Quiet(lines, i + 1) && Scan(lines) != Closed)
  {
    var last := |lines| - 1;
    if i == last {
      j := i;
    } else {
      ScanPrefix(lines, last);
      j := StartedIsEnded(lines[..last], i);
      assert forall k :: 0 <= k < last ==> lines[k] == lines[..last][k];
      if Ends(lines[..last], i, j) {
        assert lines[..last][..j] == lines[..j];
      } else if IsTerminal(lines[last]) {
        j := last;
      }
    }
  }

  /** Every terminal line ends a session of its own. */
  lemma {:induction false} TerminalEndsOne(lines: seq<Line>, j: nat) returns (i: nat)
    requires Scan(lines) != Broken
    requires j < |lines| && IsTerminal(lines[j])
    ensures Ends(lines, i, j)
  {
    ScanPrefix(lines, j);
    ScanPrefix(lines, j + 1);
    assert lines[..j + 1][..j] == lines[..j];
    i := OpenSession(lines[..j]);
    assert lines[i] == lines[..j][i];
  }

  function EventLines(lines: seq<Line>): seq<Line> {
    if lines == [] then []
    else
      var last := |lines| - 1;
      EventLines(lines[..last]) + (if lines[last].Event? then [lines[last]] else [])
  }

  lemma {:induction false} EventLinesSplit(a: seq<Line>, b: seq<Line>)
    ensures EventLines(a + b) == EventLines(a) + EventLines(b)
  {
    if b == [] {
      assert a + b == a;
    } else {
      var last := |b| - 1;
      assert (a + b)[..|a + b| - 1] == a + b[..last];
      EventLinesSplit(a, b[..last]);
    }
  }

  predicate NoSliceMark(lines: seq<Line>, from: nat) {
    forall k :: from <= k < |lines| ==> !lines[k].Header? && !lines[k].End?
  }

  lemma {:induction false} StreamingStep(p: Phase, line: Line)
    requires Read(p, line).Streaming?
    ensures line.Header? ==> Read(p, line).count == 0
    ensures !line.Header? ==>
              p.Streaming? && !line.End? && Read(p, line).count == p.count + (if line.Event? then 1 else 0)
  {}

  /** A reader inside a slice has one open header, and has counted the event
      lines since. */
  lemma {:induction false} OpenSlice(lines: seq<Line>) returns (h: nat)
    requires Scan(lines).Streaming?
    ensures h < |lines| && lines[h].Header? && NoSliceMark(lines, h + 1)
    ensures |EventLines(lines[h..])| == Scan(lines).count
  {
    hide Read;
    var last := |lines| - 1;
    StreamingStep(Scan(lines[..last]), lines[last]);
    if lines[last].Header? {
      h := last;
      assert lines[h..] == [lines[last]];
    } else {
      h := OpenSlice(lines[..last]);
      assert forall k :: 0 <= k < last ==> lines[k] == lines[..last][k];
      assert lines[h..] == lines[..last][h..] + [lines[last]];
      EventLinesSplit(lines[..last][h..], [lines[last]]);
    }
  }

  /** The footer at e closes the slice opened by the header at h. */
  predicate Slice(lines: seq<Line>, h: nat, e: nat) {
    && h < e < |lines|
    && lines[h].Header?
    && lines[e].End?
    && NoSliceMark(lines[..e], h + 1)
  }

  /** Every footer closes one slice and states exactly the number of event lines
      in it. */
  lemma {:induction false} FooterCountsItsSlice(lines: seq<Line>, e: nat) returns (h: nat)
    requires Scan(lines) != Broken
    requires e < |lines| && lines[e].End?
    ensures Slice(lines, h, e)
    ensures lines[e].events == |EventLines(lines[h..e])|
    ensures lines[e].lost > 0 ==> lines[e].truncated
  {
    ScanPrefix(lines, e);
    ScanPrefix(lines, e + 1);
    assert lines[..e + 1][..e] == lines[..e];
    h := OpenSlice(lines[..e]);
    assert lines[..e][h..] == lines[h..e];
  }

  // ---------------------------------------------------------------- main theorems

  /** At most one tracer exists, in every state of every run, and a thread is
      only ever created when there is none. */
  lemma {:induction false} AtMostOneTracer(record: bool, run: seq<Label>)
    requires After(record, run).Some?
    ensures var s := After(record, run).value;
            && 0 <= s.ses.threads <= 1
            && (s.ses.joinable ==> s.ses.threads == 1)
            && (s.c.CCreate? ==> s.ses.threads == 0)
  {
    RunKeeps(record, run);
  }

  /** Over every interleaving in which no `start` fails to get its thread, the
      client stream obeys the grammar at every moment. */
  lemma {:induction false} StreamAlwaysReadable(record: bool, run: seq<Label>)
    requires After(record, run).Some? && Healthy(run)
    ensures Scan(After(record, run).value.out) != Broken
  {
    hide Step, Enabled;
    RunKeeps(record, run);
  }

  /** A free jack means that every session has been closed; and a session that
      ended by itself has said so before its thread is gone, without waiting for
      the next command. */
  lemma {:induction false} EndedSessionsAreClosed(record: bool, run: seq<Label>)
    requires After(record, run).Some? && Healthy(run)
    ensures var s := After(record, run).value;
            && (s.t == NoThread && (s.c.CIdle? || s.c.CClose? || s.c.CDone?) ==> Scan(s.out) == Closed)
            && (s.t.TExited? && !s.ses.stop ==> Scan(s.out) == Closed)
  {
    hide Step, Enabled;
    RunKeeps(record, run);
  }

  /** At the end of a run the stream is complete exactly when no `start` lost its
      thread: the failed `pthread_create` is the only way to leave a `started`
      without its terminal line. */
  lemma {:induction false} CompleteIffEveryStartGotItsThread(record: bool, run: seq<Label>)
    requires After(record, run).Some? && After(record, run).value.c.CDone?
    ensures Scan(After(record, run).value.out) == Closed <==> Healthy(run)
  {
    RunKeeps(record, run);
  }

  /** The same in terms of positions: started lines and terminal lines of a
      finished run are in one-to-one correspondence. */
  lemma {:induction false} StartedAndTerminalPairUp(record: bool, run: seq<Label>)
    requires After(record, run).Some? && After(record, run).value.c.CDone? && Healthy(run)
    ensures var out := After(record, run).value.out;
            && (forall i {:trigger out[i]} :: 0 <= i < |out| && out[i].Started? ==> exists j :: Ends(out, i, j))
            && (forall j {:trigger out[j]} :: 0 <= j < |out| && IsTerminal(out[j]) ==> exists i :: Ends(out, i, j))
  {
    RunKeeps(record, run);
    var out := After(record, run).value.out;
    forall i | 0 <= i < |out| && out[i].Started? ensures exists j :: Ends(out, i, j) {
      var j := StartedIsEnded(out, i);
    }
    forall j | 0 <= j < |out| && IsTerminal(out[j]) ensures exists i :: Ends(out, i, j) {
      var i := TerminalEndsOne(out, j);
    }
  }
}
