/** What comes of a session and of a command, read off the labels of the run: how
    each session ends, which sessions begin, and how each command is answered. */
module ServeOutcomes {
  import opened Common
  import opened ServeProtocol
  import opened ServeConservation
  import opened ServeCommands

  // ---------------------------------------------------------------- how sessions end

  /** What the engines returned, session by session. */
  function Codes(run: seq<Label>): seq<int> {
    if run == [] then [] else CodesOn(run[|run| - 1], Codes(run[..|run| - 1]))
  }

  function CodesOn(l: Label, codes: seq<int>): seq<int> {
    if l.EngineReturns? then codes + [l.code] else codes
  }

  function Terminals(lines: seq<Line>): seq<Line> {
    if lines == [] then []
    else
      var last := |lines| - 1;
      Terminals(lines[..last]) + (if IsTerminal(lines[last]) then [lines[last]] else [])
  }

  /** The terminal line a step wrote, if it wrote one. */
  function TerminalsOn(s: State, s': State, terminals: seq<Line>): seq<Line> {
    if |s'.out| > |s.out| && IsTerminal(s'.out[|s.out|]) then terminals + [s'.out[|s.out|]] else terminals
  }

  /** The terminal line that tells an engine's code: a positive one is a skip with
      that code, a negative one a failure, and 0 a stop. */
  predicate Tells(line: Line, code: int) {
    && (line.Skipped? <==> code > 0)
    && (line.Skipped? ==> line.code == code)
    && (line.Failed? <==> code < 0)
    && (line.Stopped? <==> code == 0)
  }

  /** A footer is written and its terminal line is not. */
  predicate Owing(s: State) {
    match s.t
    case TTail | TEnding | TAnnounceFailed => true
    case TLeave | TExited => !s.ses.announced
    case NoThread => (s.c.CAnnounce? && !s.ses.announced) || s.c.CAnnounceFailed?
    case _ => false
  }

  predicate Returned(t: TracerPc) { t.TNote? || t.TCount? || t.TFooter? }

  predicate Verdicts(s: State, codes: seq<int>, footers: seq<Line>, terminals: seq<Line>) {
    && |codes| == |footers| + (if Returned(s.t) then 1 else 0)
    && |footers| == |terminals| + (if Owing(s) then 1 else 0)
    && (Returned(s.t) || Owing(s) ==> s.ses.rc == codes[|codes| - 1])
    && (s.t.TAnnounceFailed? || s.c.CAnnounceFailed? ==> s.ses.rc < 0)
    && (forall i :: 0 <= i < |footers| ==>
          footers[i].End? && footers[i].skip == if codes[i] > 0 then codes[i] else 0)
    && (forall i :: 0 <= i < |terminals| ==> Tells(terminals[i], codes[i]))
  }

  lemma {:induction false} VerdictsOfCommand(s: State, codes: seq<int>, footers: seq<Line>, terminals: seq<Line>)
    requires Flags(s) && Verdicts(s, codes, footers, terminals) && CommandEnabled(s)
    ensures var s' := CommandNext(s);
            Verdicts(s', codes, FootersOn(s, s', footers), TerminalsOn(s, s', terminals))
  {
    hide StopNext;
    if s.c.CStop? || s.c.CJoin? || s.c.CAnnounce? || s.c.CAnnounceFailed? {
      VerdictsOfStop(s, codes, footers, terminals);
    }
  }

  lemma {:induction false} VerdictsOfStop(s: State, codes: seq<int>, footers: seq<Line>, terminals: seq<Line>)
    requires Flags(s) && Verdicts(s, codes, footers, terminals) && CommandEnabled(s)
    requires s.c.CStop? || s.c.CJoin? || s.c.CAnnounce? || s.c.CAnnounceFailed?
    ensures var s' := StopNext(s);
            Verdicts(s', codes, FootersOn(s, s', footers), TerminalsOn(s, s', terminals))
  {}

  lemma {:induction false} VerdictsOfTracer(s: State, codes: seq<int>, footers: seq<Line>, terminals: seq<Line>)
    requires Flags(s) && Verdicts(s, codes, footers, terminals) && TracerEnabled(s)
    ensures var s' := TracerNext(s);
            Verdicts(s', codes, FootersOn(s, s', footers), TerminalsOn(s, s', terminals))
  {}

  lemma {:induction false} VerdictsKept(s: State, l: Label, codes: seq<int>, footers: seq<Line>, terminals: seq<Line>)
    requires Flags(s) && Verdicts(s, codes, footers, terminals) && Enabled(s, l)
    ensures var s' := Step(s, l);
            Verdicts(s', CodesOn(l, codes), FootersOn(s, s', footers), TerminalsOn(s, s', terminals))
  {
    hide CommandNext, CommandEnabled, TracerNext, TracerEnabled;
    match l
    case CommandStep => VerdictsOfCommand(s, codes, footers, terminals);
    case TracerStep => VerdictsOfTracer(s, codes, footers, terminals);
    case _ =>
  }

  lemma {:induction false} TerminalsSay(lines: seq<Line>, line: Line)
    ensures Terminals(lines + [line]) == Terminals(lines) + (if IsTerminal(line) then [line] else [])
  {
    assert (lines + [line])[..|lines|] == lines;
  }

  lemma {:induction false} TerminalsOut(s: State, s': State)
    requires Appends(s, s')
    ensures Terminals(s'.out) == TerminalsOn(s, s', Terminals(s.out))
  {
    if |s'.out| > |s.out| { TerminalsSay(s.out, s'.out[|s.out|]); }
  }

  lemma {:induction false} RunKeepsVerdicts(record: bool, run: seq<Label>)
    requires After(record, run).Some?
    ensures var s := After(record, run).value;
            Flags(s) && Verdicts(s, Codes(run), Footers(s.out), Terminals(s.out))
  {
    hide Step, Enabled, Flags, Verdicts, Footers, Terminals;
    if run == [] {
      NothingOwed(record);
    } else {
      var last := |run| - 1;
      RunKeepsVerdicts(record, run[..last]);
      var s := After(record, run[..last]).value;
      var s' := Step(s, run[last]);
      StepAppends(s, run[last]);
      OutOn(s, s');
      TerminalsOut(s, s');
      FlagsKept(s, run[last]);
      VerdictsKept(s, run[last], Codes(run[..last]), Footers(s.out), Terminals(s.out));
    }
  }

  lemma {:induction false} NothingOwed(record: bool)
    ensures Flags(Init(record)) && Verdicts(Init(record), [], Footers(Init(record).out), Terminals(Init(record).out))
  {}

  /** In every run, the i-th terminal line and the i-th footer tell what the i-th
      engine returned: `skip` with the code for a positive one, a failure for a
      negative one, `stopped` for 0; and the footer carries the code if it is
      positive, and 0 otherwise. */
  lemma {:induction false} SessionsEndByTheirCode(record: bool, run: seq<Label>)
    requires After(record, run).Some?
    ensures var s := After(record, run).value;
            var codes, footers, terminals := Codes(run), Footers(s.out), Terminals(s.out);
            && |terminals| <= |footers| <= |codes| <= |terminals| + 1
            && (s.c.CDone? ==> |codes| == |footers| == |terminals|)
            && (forall i :: 0 <= i < |footers| ==>
                  footers[i].End? && footers[i].skip == if codes[i] > 0 then codes[i] else 0)
            && (forall i :: 0 <= i < |terminals| ==>
                  && (terminals[i].Skipped? <==> codes[i] > 0)
                  && (terminals[i].Skipped? ==> terminals[i].code == codes[i])
                  && (terminals[i].Failed? <==> codes[i] < 0)
                  && (terminals[i].Stopped? <==> codes[i] == 0))
  {
    hide Step, Enabled, Footers, Terminals, Codes;
    RunKeepsVerdicts(record, run);
  }

  // ---------------------------------------------------------------- the recording's own footer

  /** The code of the last session that was begun: 0 until its engine returns. */
  function LastCode(run: seq<Label>): int {
    if run == [] then 0
    else
      match run[|run| - 1]
      case Create(_, _) => 0
      case EngineReturns(code) => code
      case _ => LastCode(run[..|run| - 1])
  }

  lemma {:induction false} StepKeepsCode(s: State, l: Label)
    requires Flags(s) && Enabled(s, l) && (s.c.CCreate? ==> s.ses.rc == 0)
    ensures var s' := Step(s, l);
            && (s'.c.CCreate? ==> s'.ses.rc == 0)
            && (!s'.c.CCreate? ==> s'.ses.rc == if l.EngineReturns? then l.code else if l.Create? then 0 else s.ses.rc)
            && (s.c.CCreate? ==> !l.EngineReturns? && (l.Create? || s'.c.CCreate?))
  {
    hide CommandNext, TracerNext, TracerEnabled, RecEmit;
    match l
    case CommandStep => CommandKeepsCode(s);
    case TracerStep => TracerKeepsCode(s);
    case Emit(body) => EmitKeepsCode(s, body);
    case _ =>
  }

  lemma {:induction false} CommandKeepsCode(s: State)
    requires CommandEnabled(s)
    ensures var s' := CommandNext(s); s'.ses.rc == if s'.c.CCreate? then 0 else s.ses.rc
  {}

  lemma {:induction false} TracerKeepsCode(s: State)
    requires TracerEnabled(s)
    ensures TracerNext(s).ses.rc == s.ses.rc && TracerNext(s).c == s.c
  {}

  lemma {:induction false} EmitKeepsCode(s: State, body: int)
    ensures RecEmit(s, body).ses == s.ses && RecEmit(s, body).c == s.c
  {}

  lemma {:induction false} CodeIsTheLast(record: bool, run: seq<Label>)
    requires After(record, run).Some?
    ensures var s := After(record, run).value; s.ses.rc == if s.c.CCreate? then 0 else LastCode(run)
  {
    hide Step, Enabled;
    if run != [] {
      var last := |run| - 1;
      CodeIsTheLast(record, run[..last]);
      RunKeeps(record, run[..last]);
      StepKeepsCode(After(record, run[..last]).value, run[last]);
    }
  }

  /** A finished recording says how the last session begun ended: its code if that
      is positive, and 0 otherwise, also when it got no thread. */
  lemma {:induction false} RecordingTellsTheLastCode(run: seq<Label>)
    requires After(true, run).Some? && After(true, run).value.c.CDone?
    ensures var s := After(true, run).value;
            && s.file.Some? && s.file.value.lines != []
            && var footer := s.file.value.lines[|s.file.value.lines| - 1];
               footer.End? && footer.skip == if LastCode(run) > 0 then LastCode(run) else 0
  {
    hide Step, Enabled;
    RecordingHoldsEverySession(run);
    CodeIsTheLast(true, run);
  }

  // ---------------------------------------------------------------- which sessions begin

  datatype Begun = Begun(started: nat, refused: nat, acked: nat, launchAcked: nat, launchFailed: nat)

  /** The lines that say whether sessions begin. */
  function BegunBy(lines: seq<Line>): Begun {
    if lines == [] then Begun(0, 0, 0, 0, 0)
    else BegunOn(lines[|lines| - 1], BegunBy(lines[..|lines| - 1]))
  }

  function BegunOn(line: Line, b: Begun): Begun {
    match line
    case Started => b.(started := b.started + 1)
    case Refused => b.(refused := b.refused + 1)
    case Ack(to) => if to == ToStart then b.(acked := b.acked + 1) else b
    case LaunchAck => b.(launchAcked := b.launchAcked + 1)
    case LaunchErr => b.(launchFailed := b.launchFailed + 1)
    case _ => b
  }

  datatype Asks = Asks(creates: nat, accepted: nat, wrong: nat, rejected: nat)

  /** The threads asked for by a `start`, and the verdicts on launched targets. */
  function AskedFor(run: seq<Label>): Asks {
    if run == [] then Asks(0, 0, 0, 0) else AskedOn(run[|run| - 1], AskedFor(run[..|run| - 1]))
  }

  function AskedOn(l: Label, a: Asks): Asks {
    match l
    case Create(_, forLaunch) => if forLaunch then a else a.(creates := a.creates + 1)
    case LaunchOutcome(verdict) =>
      (match verdict
       case Accepted => a.(accepted := a.accepted + 1)
       case WrongBitness => a.(wrong := a.wrong + 1)
       case Rejected => a.(rejected := a.rejected + 1))
    case _ => a
  }

  /** The lines and the labels agree, up to what is about to be written. */
  predicate BegunFor(s: State, b: Begun, a: Asks) {
    var starting := if s.c == CReset(false) || (s.c.CCreate? && !s.ses.launch) then 1 else 0;
    var launching := if s.t.TLaunchAcked? then 1 else 0;
    && b.started + launching == a.creates + starting + a.accepted
    && b.launchAcked == a.accepted + a.wrong
    && b.launchFailed == a.rejected
    && b.started + b.refused + launching + (if s.t.TRefuse? then 1 else 0)
         + (if s.c.CStarted? || s.c.CRefused? then 1 else 0) == b.acked + b.launchAcked
  }

  function BegunNow(s: State, s': State, b: Begun): Begun {
    if |s'.out| > |s.out| then BegunOn(s'.out[|s.out|], b) else b
  }

  lemma {:induction false} BegunOfCommand(s: State, b: Begun, a: Asks)
    requires Flags(s) && BegunFor(s, b, a) && CommandEnabled(s)
    ensures BegunFor(CommandNext(s), BegunNow(s, CommandNext(s), b), a)
  {
    hide StopNext, Dispatch;
    if s.c.CStop? || s.c.CJoin? || s.c.CAnnounce? || s.c.CAnnounceFailed? { BegunOfStop(s, b, a); }
    if s.c.CDispatch? { BegunOfDispatch(s, b, a); }
  }

  lemma {:induction false} BegunOfDispatch(s: State, b: Begun, a: Asks)
    requires Flags(s) && BegunFor(s, b, a) && s.c.CDispatch?
    ensures var s' := Dispatch(s, s.c.cmd, s.c.reaped); BegunFor(s', BegunNow(s, s', b), a)
  {}

  lemma {:induction false} BegunOfStop(s: State, b: Begun, a: Asks)
    requires Flags(s) && BegunFor(s, b, a) && CommandEnabled(s)
    requires s.c.CStop? || s.c.CJoin? || s.c.CAnnounce? || s.c.CAnnounceFailed?
    ensures BegunFor(StopNext(s), BegunNow(s, StopNext(s), b), a)
  {}

  lemma {:induction false} BegunOfTracer(s: State, b: Begun, a: Asks)
    requires Flags(s) && BegunFor(s, b, a) && TracerEnabled(s)
    ensures BegunFor(TracerNext(s), BegunNow(s, TracerNext(s), b), a)
  {}

  lemma {:induction false} BegunKept(s: State, l: Label, b: Begun, a: Asks)
    requires Flags(s) && BegunFor(s, b, a) && Enabled(s, l)
    ensures BegunFor(Step(s, l), BegunNow(s, Step(s, l), b), AskedOn(l, a))
  {
    hide CommandNext, CommandEnabled, TracerNext, TracerEnabled;
    match l
    case CommandStep => BegunOfCommand(s, b, a);
    case TracerStep => BegunOfTracer(s, b, a);
    case _ =>
  }

  lemma {:induction false} BegunOut(s: State, s': State)
    requires Appends(s, s')
    ensures BegunBy(s'.out) == BegunNow(s, s', BegunBy(s.out))
  {
    if |s'.out| > |s.out| { assert s'.out[..|s.out|] == s.out; }
  }

  lemma {:induction false} RunKeepsBegun(record: bool, run: seq<Label>)
    requires After(record, run).Some?
    ensures var s := After(record, run).value; Flags(s) && BegunFor(s, BegunBy(s.out), AskedFor(run))
  {
    hide Step, Enabled, Flags, BegunFor, BegunBy;
    if run == [] {
      NothingBegun(record);
    } else {
      var last := |run| - 1;
      RunKeepsBegun(record, run[..last]);
      var s := After(record, run[..last]).value;
      StepAppends(s, run[last]);
      BegunOut(s, Step(s, run[last]));
      FlagsKept(s, run[last]);
      BegunKept(s, run[last], BegunBy(s.out), AskedFor(run[..last]));
    }
  }

  lemma {:induction false} NothingBegun(record: bool)
    ensures Flags(Init(record)) && BegunFor(Init(record), BegunBy(Init(record).out), Asks(0, 0, 0, 0))
  {}

  /** In a finished run there is one `started` for every thread a `start` asked for
      and every accepted launch, one refusal for every other session acknowledged,
      and every launch was answered by its verdict. */
  lemma {:induction false} SessionsBeginAsAsked(record: bool, run: seq<Label>)
    requires After(record, run).Some? && After(record, run).value.c.CDone?
    ensures var b, a := BegunBy(After(record, run).value.out), AskedFor(run);
            && b.started == a.creates + a.accepted
            && b.started + b.refused == b.acked + b.launchAcked
            && b.launchAcked == a.accepted + a.wrong
            && b.launchFailed == a.rejected
  {
    hide Step, Enabled, BegunBy, AskedFor;
    RunKeepsBegun(record, run);
  }

  // ---------------------------------------------------------------- how commands are answered

  /** The command thread's answers on the stream. */
  function Answers(lines: seq<Line>): seq<Line> {
    if lines == [] then []
    else
      var last := lines[|lines| - 1];
      Answers(lines[..|lines| - 1]) + (if last.Ack? || last.Err? then [last] else [])
  }

  function AnswersOn(s: State, s': State, answers: seq<Line>): seq<Line> {
    if |s'.out| > |s.out| && (s'.out[|s.out|].Ack? || s'.out[|s.out|].Err?) then answers + [s'.out[|s.out|]] else answers
  }

  lemma {:induction false} AnswersOut(s: State, s': State)
    requires Appends(s, s')
    ensures Answers(s'.out) == AnswersOn(s, s', Answers(s.out))
  {
    if |s'.out| > |s.out| { assert s'.out[..|s.out|] == s.out; }
  }

  /** A turn of the command thread: it has fetched `cmd` with the jack held or not,
      has answered `given` so far, and has asked for a thread or not. */
  datatype Turn = Turn(cmd: Command, held: bool, given: seq<Line>, created: bool)

  /** The session commands once dispatched with the jack free. */
  predicate Allowed(cmd: Command) {
    match cmd
    case Start(verdict) => verdict.Accepted?
    case Launch(parses) => parses
    case _ => false
  }

  /** What the answer means. */
  predicate Settles(k: Turn, free: bool) {
    match k.cmd
    case Quit => k.given == [Ack(ToQuit)]
    case Stop => k.given == [if k.held then Ack(ToStop) else Err(ToStop)]
    case Pause(_) => k.given == [if k.held then Ack(ToPause) else Err(ToPause)]
    case PauseBad => k.given == [Err(ToPause)]
    case Malformed => k.given == [Err(ToUnknown)]
    case Unknown => k.given == [Err(ToUnknown)]
    case Start(verdict) => k.given == [if free && !verdict.Rejected? then Ack(ToStart) else Err(ToStart)]
    case Launch(parses) => k.given == if free && parses then [] else [Err(ToLaunch)]
  }

  /** Where a turn may stand.  `free` is whether the jack was free at the dispatch. */
  predicate TurnAt(k: Turn, s: State, free: bool) {
    match s.c
    case CReap(cmd) => cmd == k.cmd && k.given == [] && !k.created && s.ses.joinable == k.held
    case CStop(ret) => TurnStopping(k, s, ret, free)
    case CJoin(ret) => TurnStopping(k, s, ret, free)
    case CAnnounce(ret) => TurnStopping(k, s, ret, free)
    case CAnnounceFailed(ret) => TurnStopping(k, s, ret, free)
    case CDispatch(cmd, reaped) =>
      cmd == k.cmd && k.given == [] && !k.created && (s.ses.joinable ==> k.held) && reaped == (k.held && !s.ses.joinable)
    case CPauseAck => k.cmd.Pause? && k.held && k.given == [] && !k.created && !free
    case CIdle => Settles(k, free) && k.created == (free && Allowed(k.cmd)) && (!free ==> k.held)
                  && (!free && !k.cmd.Stop? ==> s.ses.joinable)
    case CStarted => Settles(k, free) && free && Allowed(k.cmd) && !k.created && k.cmd.Start?
    case CReset(launch) => Settles(k, free) && free && Allowed(k.cmd) && !k.created && launch == k.cmd.Launch?
    case CCreate => Settles(k, free) && free && Allowed(k.cmd) && !k.created && s.ses.launch == k.cmd.Launch?
    case CMark => Settles(k, free) && free && Allowed(k.cmd) && k.created
    case CRefused => Settles(k, free) && free && !Allowed(k.cmd) && !k.created
    case CDrain | CClose | CDone => k.cmd.Quit? && Settles(k, free) && !k.created
  }

  predicate TurnStopping(k: Turn, s: State, ret: Return, free: bool) {
    match ret
    case ToDispatch(cmd) => cmd == k.cmd && k.held && k.given == [] && !k.created
    case ToIdle => k.cmd.Stop? && k.held && Settles(k, free) && !k.created && !free
    case ToClose => k.cmd.Quit? && Settles(k, free) && !k.created
  }

  function TurnOn(k: Turn, s: State, l: Label, s': State): Turn {
    k.(given := AnswersOn(s, s', k.given), created := k.created || l.Create?)
  }

  /** Whether the jack was free at the dispatch, once it is known. */
  function FreeOn(s: State, l: Label, free: bool): bool {
    if l.CommandStep? && s.c.CDispatch? then !s.ses.joinable else free
  }

  lemma {:induction false} TurnOfDispatch(k: Turn, s: State, free: bool)
    requires TurnAt(k, s, free) && s.c.CDispatch?
    ensures var s' := Step(s, CommandStep); TurnAt(TurnOn(k, s, CommandStep, s'), s', !s.ses.joinable)
  {}

  lemma {:induction false} TurnOfCommand(k: Turn, s: State, free: bool)
    requires Flags(s) && TurnAt(k, s, free) && CommandEnabled(s) && !s.c.CDispatch?
    ensures var s' := CommandNext(s); TurnAt(TurnOn(k, s, CommandStep, s'), s', free)
  {}

  lemma {:induction false} TurnOfTracer(k: Turn, s: State, free: bool)
    requires TurnAt(k, s, free) && TracerEnabled(s)
    ensures var s' := TracerNext(s); TurnAt(TurnOn(k, s, TracerStep, s'), s', free)
  {
    hide TurnAt;
    TracerKeepsJack(s);
    SameTurn(k, s, TracerNext(s), free);
  }

  lemma {:induction false} TracerKeepsJack(s: State)
    requires TracerEnabled(s)
    ensures var s' := TracerNext(s);
            && s'.c == s.c && s'.ses.joinable == s.ses.joinable && s'.ses.launch == s.ses.launch
            && (|s'.out| > |s.out| ==> !s'.out[|s.out|].Ack? && !s'.out[|s.out|].Err?)
  {}

  lemma {:induction false} SameTurn(k: Turn, s: State, s': State, free: bool)
    requires TurnAt(k, s, free) && s'.c == s.c && s'.ses.joinable == s.ses.joinable && s'.ses.launch == s.ses.launch
    ensures TurnAt(k, s', free)
  {}

  lemma {:induction false} TurnOfOther(k: Turn, s: State, l: Label, free: bool)
    requires TurnAt(k, s, free) && Enabled(s, l) && !Fetches(l) && !l.CommandStep? && !l.TracerStep?
    ensures var s' := Step(s, l); TurnAt(TurnOn(k, s, l, s'), s', free)
  {
    hide TurnAt, TurnOn;
    if l.Create? || l.Drained? {
      TurnOfCreate(k, s, l, free);
    } else {
      OthersKeepJack(s, l);
      SameTurn(k, s, Step(s, l), free);
      GivenSame(k, s, l);
    }
  }

  lemma {:induction false} TurnOfCreate(k: Turn, s: State, l: Label, free: bool)
    requires TurnAt(k, s, free) && Enabled(s, l) && (l.Create? || l.Drained?)
    ensures var s' := Step(s, l); TurnAt(TurnOn(k, s, l, s'), s', free)
  {}

  lemma {:induction false} OthersKeepJack(s: State, l: Label)
    requires Enabled(s, l) && !Fetches(l) && !l.CommandStep? && !l.TracerStep? && !l.Create? && !l.Drained?
    ensures var s' := Step(s, l);
            && s'.c == s.c && s'.ses.joinable == s.ses.joinable && s'.ses.launch == s.ses.launch
            && (|s'.out| > |s.out| ==> !s'.out[|s.out|].Ack? && !s'.out[|s.out|].Err?)
  {}

  lemma {:induction false} GivenSame(k: Turn, s: State, l: Label)
    requires Enabled(s, l) && !l.Create?
    requires var s' := Step(s, l); |s'.out| > |s.out| ==> !s'.out[|s.out|].Ack? && !s'.out[|s.out|].Err?
    ensures TurnOn(k, s, l, Step(s, l)) == k
  {}

  lemma {:induction false} TurnKept(k: Turn, s: State, l: Label, free: bool)
    requires Flags(s) && TurnAt(k, s, free) && Enabled(s, l) && !Fetches(l)
    ensures var s' := Step(s, l); TurnAt(TurnOn(k, s, l, s'), s', FreeOn(s, l, free))
  {
    hide CommandNext, TracerNext, TracerEnabled, TurnAt, Flags, TurnOn;
    if l.CommandStep? {
      if s.c.CDispatch? { TurnOfDispatch(k, s, free); } else { TurnOfCommand(k, s, free); }
    } else if l.TracerStep? {
      TurnOfTracer(k, s, free);
    } else {
      TurnOfOther(k, s, l, free);
    }
  }

  predicate Creates(labels: seq<Label>) { exists i :: 0 <= i < |labels| && labels[i].Create? }

  lemma {:induction false} CreatesSnoc(labels: seq<Label>, l: Label)
    ensures Creates(labels + [l]) <==> Creates(labels) || l.Create?
  {
    if Creates(labels) {
      var i :| 0 <= i < |labels| && labels[i].Create?;
      assert (labels + [l])[i].Create?;
    }
    if l.Create? { assert (labels + [l])[|labels|].Create?; }
  }

  lemma {:induction false} TurnRuns(record: bool, run: seq<Label>, more: seq<Label>) returns (k: Turn, free: bool)
    requires After(record, run).Some? && After(record, run).value.c.CReap?
    requires After(record, run + more).Some? && forall i :: 0 <= i < |more| ==> !Fetches(more[i])
    ensures var s, s' := After(record, run).value, After(record, run + more).value;
            && k.cmd == s.c.cmd && k.held == s.ses.joinable && k.created == Creates(more)
            && Answers(s'.out) == Answers(s.out) + k.given
            && Flags(s') && TurnAt(k, s', free)
    decreases |more|
  {
    hide Step, Enabled, After, Flags, TurnAt, Creates, Answers, Fetches;
    var s := After(record, run).value;
    if more == [] {
      assert run + more == run;
      k, free := Turn(s.c.cmd, s.ses.joinable, [], false), true;
      RunKeeps(record, run);
      TurnBegins(s);
    } else {
      var last := |more| - 1;
      var l := more[last];
      Shorter(record, run, more);
      k, free := TurnRuns(record, run, more[..last]);
      var s1 := After(record, run + more[..last]).value;
      var s' := Step(s1, l);
      TurnKept(k, s1, l, free);
      FlagsKept(s1, l);
      StepAppends(s1, l);
      AnswersOut(s1, s');
      CreatesSnoc(more[..last], l);
      assert more[..last] + [l] == more;
      GivenOn(k, s1, l, s', Answers(s.out));
      k, free := TurnOn(k, s1, l, s'), FreeOn(s1, l, free);
    }
  }

  lemma {:induction false} GivenOn(k: Turn, s: State, l: Label, s': State, before: seq<Line>)
    ensures AnswersOn(s, s', before + k.given) == before + TurnOn(k, s, l, s').given
  {}

  lemma {:induction false} TurnBegins(s: State)
    requires s.c.CReap?
    ensures TurnAt(Turn(s.c.cmd, s.ses.joinable, [], false), s, true) && !Creates([])
  {}

  /** From the fetching of a command until the command thread is done with it, whatever
      the tracer does meanwhile: exactly one answer is written for it (none yet for a
      launch that goes ahead).  `stop` and `pause` are acknowledged exactly if a
      session held the jack when they were fetched, even if it has ended by itself
      since.  A `start` is acknowledged exactly if its arguments are and no session
      holds the jack; if one does, it still does afterwards.  A thread is asked for
      exactly for an acceptable `start` or a `launch` that finds the jack free. */
  lemma {:induction false} CommandsAreAnswered(record: bool, run: seq<Label>, more: seq<Label>) returns (free: bool)
    requires After(record, run).Some? && After(record, run).value.c.CReap?
    requires After(record, run + more).Some?
    requires var c := After(record, run + more).value.c; c.CIdle? || c.CDrain?
    requires forall i :: 0 <= i < |more| ==> !Fetches(more[i])
    ensures var s, s' := After(record, run).value, After(record, run + more).value;
            var cmd, held := s.c.cmd, s.ses.joinable;
            && (!held && !cmd.Quit? ==> free)
            && (!free && !cmd.Stop? && !cmd.Quit? ==> s'.ses.joinable)
            && Answers(s'.out) == Answers(s.out) +
                 (match cmd
                  case Stop => [if held then Ack(ToStop) else Err(ToStop)]
                  case Pause(_) => [if held then Ack(ToPause) else Err(ToPause)]
                  case PauseBad => [Err(ToPause)]
                  case Start(verdict) => [if free && !verdict.Rejected? then Ack(ToStart) else Err(ToStart)]
                  case Launch(parses) => if free && parses then [] else [Err(ToLaunch)]
                  case Quit => [Ack(ToQuit)]
                  case Malformed => [Err(ToUnknown)]
                  case Unknown => [Err(ToUnknown)])
            && (Creates(more) <==> free && (cmd == Start(Accepted) || cmd == Launch(true)))
  {
    hide Step, Enabled, After, Flags, Creates, Answers, Fetches;
    var k;
    k, free := TurnRuns(record, run, more);
  }
}
