/** What the commands of a client do to the stream, over every continuation of
    every run: a pause holds until it is lifted, without one nothing is lost, and
    a stop returns only when the session is closed. */
module ServeCommands {
  import opened Common
  import opened ServeProtocol
  import opened ServeConservation

  /** The command being worked on before it is dispatched, if any. */
  function Pending(c: CommandPc): Option<Command> {
    match c
    case CReap(cmd) => Some(cmd)
    case CDispatch(cmd, _) => Some(cmd)
    case CStop(ret) => Awaiting(ret)
    case CJoin(ret) => Awaiting(ret)
    case CAnnounce(ret) => Awaiting(ret)
    case CAnnounceFailed(ret) => Awaiting(ret)
    case _ => None
  }

  function Awaiting(ret: Return): Option<Command> { if ret.ToDispatch? then Some(ret.cmd) else None }

  predicate Asks(cmd: Command, on: bool) { cmd.Pause? && cmd.on == on }

  /** The recorder's gate is set to `on`, and no command is on its way to change it. */
  predicate Gate(s: State, on: bool) {
    s.rec.paused == on && (Pending(s.c).Some? ==> !Asks(Pending(s.c).value, !on))
  }

  /** A label that may change the gate away from `on`. */
  predicate Turns(l: Label, on: bool) {
    (l.Receive? && Asks(l.cmd, !on)) || (l.Open? && on)
  }

  lemma {:induction false} StepKeepsGate(s: State, l: Label, on: bool)
    requires Gate(s, on) && Enabled(s, l) && !Turns(l, on)
    ensures Gate(Step(s, l), on)
  {
    hide TracerNext, TracerEnabled, RecEmit;
    match l
    case CommandStep => CommandKeepsGate(s, on);
    case TracerStep => TracerKeepsGate(s, on);
    case Emit(body) => EmitKeepsGate(s, body);
    case _ =>
  }

  lemma {:induction false} CommandKeepsGate(s: State, on: bool)
    requires Gate(s, on) && CommandEnabled(s)
    ensures Gate(CommandNext(s), on)
  {}

  lemma {:induction false} TracerKeepsGate(s: State, on: bool)
    requires Gate(s, on) && TracerEnabled(s)
    ensures Gate(TracerNext(s), on)
  {}

  lemma {:induction false} EmitKeepsGate(s: State, body: int)
    ensures RecEmit(s, body).rec.paused == s.rec.paused && RecEmit(s, body).c == s.c
  {}

  predicate NoTurn(labels: seq<Label>, on: bool) {
    forall i :: 0 <= i < |labels| ==> !Turns(labels[i], on)
  }

  /** Everything the engine emitted, from the labels alone. */
  function Emitted(run: seq<Label>): seq<Line> {
    if run == [] then []
    else
      var last := |run| - 1;
      Emitted(run[..last]) + (if run[last].Emit? then [Event(run[last].body)] else [])
  }

  lemma {:induction false} Shorter(record: bool, run: seq<Label>, more: seq<Label>)
    requires more != [] && After(record, run + more).Some?
    ensures var last := |more| - 1;
            && After(record, run + more[..last]).Some?
            && Enabled(After(record, run + more[..last]).value, more[last])
            && After(record, run + more).value == Step(After(record, run + more[..last]).value, more[last])
  {
    hide Step, Enabled;
    var last := |more| - 1;
    assert (run + more)[..|run + more| - 1] == run + more[..last];
  }

  /** Over any continuation of any run that does not turn it, a gate that is set
      stays set; while it is closed no event line is written, and while it is open
      every emission is. */
  lemma {:induction false} GateHolds(record: bool, run: seq<Label>, more: seq<Label>, on: bool)
    requires After(record, run).Some? && Gate(After(record, run).value, on)
    requires After(record, run + more).Some? && NoTurn(more, on)
    ensures var s, s' := After(record, run).value, After(record, run + more).value;
            && Gate(s', on)
            && EventLines(s'.out) == EventLines(s.out) + (if on then [] else Emitted(more))
    decreases |more|
  {
    hide Step, Enabled, Turns, Gate, After, EventLines, Emitted, EventsOn;
    if more == [] {
      assert run + more == run;
      NothingEmitted();
    } else {
      var last := |more| - 1;
      Shorter(record, run, more);
      GateHolds(record, run, more[..last], on);
      var s, l := After(record, run + more[..last]).value, more[last];
      StepKeepsGate(s, l, on);
      StepAppends(s, l);
      OutOn(s, Step(s, l));
      StepDelivers(s, l);
      GateValue(s, on);
      EmittedSnoc(more[..last], l);
      assert more[..last] + [l] == more;
    }
  }

  lemma {:induction false} NothingEmitted()
    ensures Emitted([]) == []
  {}

  lemma {:induction false} EmittedSnoc(labels: seq<Label>, l: Label)
    ensures Emitted(labels + [l]) == Emitted(labels) + (if l.Emit? then [Event(l.body)] else [])
  {
    assert (labels + [l])[..|labels|] == labels;
  }

  lemma {:induction false} GateValue(s: State, on: bool)
    requires Gate(s, on)
    ensures s.rec.paused == on
  {}

  /** If the client never asks for a pause, it receives everything that was
      emitted, in order. */
  lemma {:induction false} WithoutPauseNothingIsLost(record: bool, run: seq<Label>)
    requires After(record, run).Some?
    requires forall i :: 0 <= i < |run| ==> !(run[i].Receive? && Asks(run[i].cmd, true))
    ensures EventLines(After(record, run).value.out) == Emitted(run)
  {
    hide Step, Enabled;
    assert After(record, []) == Some(Init(record));
    assert [] + run == run;
    GateHolds(record, [], run, false);
  }

  // ---------------------------------------------------------------- how long a pause holds

  predicate Opens(labels: seq<Label>) { exists i :: 0 <= i < |labels| && labels[i].Open? }

  predicate NoPause(labels: seq<Label>) {
    forall i :: 0 <= i < |labels| ==> !(labels[i].Receive? && labels[i].cmd.Pause?)
  }

  function Headers(lines: seq<Line>): nat {
    if lines == [] then 0 else Headers(lines[..|lines| - 1]) + (if lines[|lines| - 1].Header? then 1 else 0)
  }

  lemma {:induction false} HeadersSay(lines: seq<Line>, line: Line)
    ensures Headers(lines + [line]) == Headers(lines) + (if line.Header? then 1 else 0)
  {
    assert (lines + [line])[..|lines|] == lines;
  }

  lemma {:induction false} StepHeader(s: State, l: Label)
    requires Enabled(s, l)
    ensures |Step(s, l).out| > |s.out| && Step(s, l).out[|s.out|].Header? <==> l.Open?
  {}

  lemma {:induction false} HeaderIffOpen(s: State, l: Label)
    requires Enabled(s, l)
    ensures Headers(Step(s, l).out) == Headers(s.out) + (if l.Open? then 1 else 0)
  {
    hide Step, Enabled;
    StepAppends(s, l);
    StepHeader(s, l);
    var s' := Step(s, l);
    if |s'.out| > |s.out| { HeadersSay(s.out, s'.out[|s.out|]); }
  }

  /** No pause command of either kind is on its way. */
  predicate Settled(c: CommandPc) { Pending(c).Some? ==> !Pending(c).value.Pause? }

  lemma {:induction false} StepStaysSettled(s: State, l: Label)
    requires Settled(s.c) && Enabled(s, l) && !(l.Receive? && l.cmd.Pause?)
    ensures Settled(Step(s, l).c)
    ensures Step(s, l).rec.paused == (s.rec.paused && !l.Open?)
  {
    hide TracerNext, TracerEnabled, RecEmit;
    match l
    case TracerStep => TracerKeepsGate(s, s.rec.paused); TracerKeepsCommand(s);
    case Emit(body) => EmitKeepsGate(s, body);
    case _ =>
  }

  lemma {:induction false} OpensSnoc(labels: seq<Label>, l: Label)
    ensures Opens(labels + [l]) <==> Opens(labels) || l.Open?
  {
    if Opens(labels) {
      var i :| 0 <= i < |labels| && labels[i].Open?;
      assert (labels + [l])[i].Open?;
    }
    if l.Open? { assert (labels + [l])[|labels|].Open?; }
  }

  /** Until the next pause command, a pause holds exactly as long as no recorder is
      opened; and the client sees that, since opening one writes its header. */
  lemma {:induction false} PauseHoldsUntilOpen(record: bool, run: seq<Label>, more: seq<Label>)
    requires After(record, run).Some? && After(record, run + more).Some? && NoPause(more)
    requires var s := After(record, run).value; s.rec.paused && Settled(s.c)
    ensures var s, s' := After(record, run).value, After(record, run + more).value;
            && Settled(s'.c)
            && (s'.rec.paused <==> !Opens(more))
            && Headers(s'.out) >= Headers(s.out)
            && (s'.rec.paused <==> Headers(s'.out) == Headers(s.out))
    decreases |more|
  {
    hide Step, Enabled, After, Settled, Opens, Headers;
    if more == [] {
      assert run + more == run;
      NothingOpens();
    } else {
      var last := |more| - 1;
      var l := more[last];
      Shorter(record, run, more);
      PauseHoldsUntilOpen(record, run, more[..last]);
      StepStaysSettled(After(record, run + more[..last]).value, l);
      HeaderIffOpen(After(record, run + more[..last]).value, l);
      OpensSnoc(more[..last], l);
      assert more[..last] + [l] == more;
    }
  }

  lemma {:induction false} NothingOpens()
    ensures !Opens([])
  {}

  /** The session's recorder has yet to be opened. */
  predicate Early(t: TracerPc) { t.TEntry? || t.TLaunched? || t.TLaunchAcked? || t.TOpen? }

  predicate BeginsSession(cmd: Command) { cmd.Start? || cmd.Launch? }

  /** No session is on its way. */
  predicate NoneBeginning(c: CommandPc) {
    && !(c.CStarted? || c.CReset? || c.CCreate?)
    && (Pending(c).Some? ==> !BeginsSession(Pending(c).value))
  }

  predicate NoSession(labels: seq<Label>) {
    forall i :: 0 <= i < |labels| ==> !(labels[i].Receive? && BeginsSession(labels[i].cmd))
  }

  lemma {:induction false} StepBeginsNone(s: State, l: Label)
    requires NoneBeginning(s.c) && Enabled(s, l) && !(l.Receive? && BeginsSession(l.cmd))
    ensures NoneBeginning(Step(s, l).c)
    ensures var t, t' := s.t, Step(s, l).t;
            && (Early(t') || l.Open? ==> Early(t))
            && (InSlice(t') ==> InSlice(t) || l.Open?)
            && (l.Open? ==> !Early(t'))
            && (l.Emit? ==> InSlice(t))
  {
    hide CommandNext, TracerNext, RecEmit;
    match l
    case CommandStep => CommandBeginsNone(s);
    case TracerStep => TracerBeginsNone(s);
    case Emit(body) => EmitKeepsGate(s, body); EmitKeepsTracer(s, body);
    case _ =>
  }

  lemma {:induction false} EmitKeepsTracer(s: State, body: int)
    ensures RecEmit(s, body).t == s.t
  {}

  lemma {:induction false} CommandBeginsNone(s: State)
    requires NoneBeginning(s.c) && CommandEnabled(s)
    ensures NoneBeginning(CommandNext(s).c)
    ensures CommandNext(s).t == s.t || CommandNext(s).t == NoThread
  {}

  lemma {:induction false} TracerBeginsNone(s: State)
    requires TracerEnabled(s)
    ensures TracerNext(s).c == s.c
    ensures Early(TracerNext(s).t) ==> Early(s.t)
    ensures InSlice(TracerNext(s).t) ==> InSlice(s.t)
  {}

  /** What has become of a pause that was applied with the tracer at t0. */
  predicate PauseTold(t0: TracerPc, s: State, more: seq<Label>, before: seq<Line>, now: seq<Line>) {
    && NoneBeginning(s.c)
    && (Opens(more) ==> Early(t0))
    && (Early(s.t) ==> Early(t0) && !Opens(more))
    && (Early(t0) && !Opens(more) ==> Emitted(more) == [] && !InSlice(s.t))
    && now == before + (if Opens(more) then Emitted(more) else [])
  }

  lemma {:induction false} StepTellsPause(t0: TracerPc, s: State, l: Label, more: seq<Label>, before: seq<Line>, now: seq<Line>)
    requires PauseTold(t0, s, more, before, now) && Enabled(s, l) && !(l.Receive? && BeginsSession(l.cmd))
    requires s.rec.paused <==> !Opens(more)
    ensures PauseTold(t0, Step(s, l), more + [l], before,
                      now + (if l.Emit? && !s.rec.paused then [Event(l.body)] else []))
  {
    hide Step, Enabled, NoneBeginning, Early, InSlice, Opens, Emitted;
    StepBeginsNone(s, l);
    OpensSnoc(more, l);
    EmittedSnoc(more, l);
  }

  lemma {:induction false} PauseIsTold(record: bool, run: seq<Label>, more: seq<Label>)
    requires After(record, run).Some? && After(record, run + more).Some? && NoPause(more) && NoSession(more)
    requires var s := After(record, run).value; s.rec.paused && Settled(s.c) && NoneBeginning(s.c)
    ensures var s, s' := After(record, run).value, After(record, run + more).value;
            PauseTold(s.t, s', more, EventLines(s.out), EventLines(s'.out))
    decreases |more|
  {
    hide Step, Enabled, After, Settled, Opens, NoneBeginning, PauseTold, Early, InSlice;
    var t0 := After(record, run).value.t;
    var before := EventLines(After(record, run).value.out);
    if more == [] {
      assert run + more == run;
      NothingTold(After(record, run).value, before);
    } else {
      var last := |more| - 1;
      var l := more[last];
      Shorter(record, run, more);
      PauseIsTold(record, run, more[..last]);
      PauseHoldsUntilOpen(record, run, more[..last]);
      var s := After(record, run + more[..last]).value;
      StepTellsPause(t0, s, l, more[..last], before, EventLines(s.out));
      StepAppends(s, l);
      OutOn(s, Step(s, l));
      StepDelivers(s, l);
      assert more[..last] + [l] == more;
    }
  }

  lemma {:induction false} NothingTold(s: State, before: seq<Line>)
    requires NoneBeginning(s.c) && s.rec.paused
    ensures PauseTold(s.t, s, [], before, before)
  {}

  /** A pause sent to a held jack, and what the client gets until it sends another
      pause or begins another session.  The pause is applied before it is
      acknowledged.  If the session's header was on the stream by then, the pause
      holds; if not, it holds exactly until that header appears.  While it holds no
      event line is written, and once it is lost every emission is. */
  lemma {:induction false} PauseHoldsIff(record: bool, run: seq<Label>, more: seq<Label>)
    requires After(record, run).Some?
    requires var s := After(record, run).value;
             s.c.CDispatch? && s.c.cmd == Pause(true) && s.ses.joinable
    requires After(record, run + [CommandStep] + more).Some? && NoPause(more) && NoSession(more)
    ensures var s, s' := After(record, run).value, After(record, run + [CommandStep] + more).value;
            && (s'.rec.paused <==> !Early(s.t) || Headers(s'.out) == Headers(s.out))
            && (!Early(s.t) ==> Headers(s'.out) == Headers(s.out))
            && EventLines(s'.out) == EventLines(s.out) + (if s'.rec.paused then [] else Emitted(more))
  {
    hide After, Enabled, Opens, Early, Headers, EventLines, Emitted, Settled, NoneBeginning;
    var run1 := run + [CommandStep];
    Prefix(record, run1, more);
    Shorter(record, run, [CommandStep]);
    assert [CommandStep][..0] == [] && run + [] == run;
    var s, s1 := After(record, run).value, After(record, run1).value;
    PauseApplied(s);
    PauseHoldsUntilOpen(record, run1, more);
    PauseIsTold(record, run1, more);
  }

  /** A resume sent to a held jack opens the gate: until the next pause, every emission
      is written, in order. */
  lemma {:induction false} ResumeDelivers(record: bool, run: seq<Label>, more: seq<Label>)
    requires After(record, run).Some?
    requires var s := After(record, run).value;
             s.c.CDispatch? && s.c.cmd == Pause(false) && s.ses.joinable
    requires After(record, run + [CommandStep] + more).Some?
    requires forall i :: 0 <= i < |more| ==> !(more[i].Receive? && Asks(more[i].cmd, true))
    ensures var s, s' := After(record, run).value, After(record, run + [CommandStep] + more).value;
            !s'.rec.paused && EventLines(s'.out) == EventLines(s.out) + Emitted(more)
  {
    hide After, Enabled, EventLines, Emitted;
    var run1 := run + [CommandStep];
    Prefix(record, run1, more);
    Shorter(record, run, [CommandStep]);
    assert [CommandStep][..0] == [] && run + [] == run;
    ResumeApplied(After(record, run).value);
    GateHolds(record, run1, more, false);
  }

  lemma {:induction false} ResumeApplied(s: State)
    requires s.c.CDispatch? && s.c.cmd == Pause(false) && s.ses.joinable
    ensures Gate(Step(s, CommandStep), false) && Step(s, CommandStep).out == s.out
  {}

  /** Which of the two it is can be read off the stream: inside a slice the recorder
      is open, and after a `started` without a header it is not. */
  lemma {:induction false} StreamShowsOpening(record: bool, run: seq<Label>)
    requires After(record, run).Some? && Healthy(run) && After(record, run).value.ses.joinable
    ensures var s := After(record, run).value;
            && (Scan(s.out).Streaming? || Scan(s.out).Footed? ==> !Early(s.t))
            && (Scan(s.out).Announced? ==> Early(s.t))
  {
    hide Step, Enabled, Scan;
    RunKeeps(record, run);
  }

  /** The pause is written to the recorder, silently, before the acknowledgement. */
  lemma {:induction false} PauseApplied(s: State)
    requires s.c.CDispatch? && s.c.cmd == Pause(true) && s.ses.joinable
    ensures var s' := Step(s, CommandStep);
            s'.rec.paused && s'.out == s.out && s'.t == s.t && Settled(s'.c) && NoneBeginning(s'.c)
  {}

  // ---------------------------------------------------------------- stop

  /** The command thread is ending the session for a `stop`, or has done so. */
  predicate Ending(s: State) {
    match s.c
    case CStop(ret) => ret.ToIdle?
    case CJoin(ret) => ret.ToIdle?
    case CAnnounce(ret) => ret.ToIdle?
    case CAnnounceFailed(ret) => ret.ToIdle?
    case CIdle => s.t == NoThread
    case _ => false
  }

  /** Fetching a command, or the end of input: what an idle command thread does next. */
  predicate Fetches(l: Label) { l.Receive? || l.EndOfInput? }

  lemma {:induction false} StepKeepsEnding(s: State, l: Label)
    requires Flags(s) && Ending(s) && Enabled(s, l) && !Fetches(l)
    ensures Ending(Step(s, l))
  {
    hide TracerNext;
    if l.TracerStep? { TracerKeepsCommand(s); }
  }

  lemma {:induction false} TracerKeepsCommand(s: State)
    requires TracerEnabled(s)
    ensures TracerNext(s).c == s.c && s.t != NoThread && TracerNext(s).t != NoThread
  {}

  lemma {:induction false} EndingHolds(record: bool, run: seq<Label>, more: seq<Label>)
    requires After(record, run).Some? && Ending(After(record, run).value)
    requires After(record, run + more).Some? && forall i :: 0 <= i < |more| ==> !Fetches(more[i])
    ensures Ending(After(record, run + more).value)
    decreases |more|
  {
    hide Step, Enabled, Ending, Fetches, Flags, After;
    if more == [] {
      assert run + more == run;
    } else {
      var last := |more| - 1;
      Shorter(record, run, more);
      EndingHolds(record, run, more[..last]);
      RunKeeps(record, run + more[..last]);
      StepKeepsEnding(After(record, run + more[..last]).value, more[last]);
    }
  }

  /** A `stop` dispatched while a session holds the jack: by the time the command
      thread fetches its next command, the tracer is gone, the jack is free and
      the session has its terminal line on the stream. */
  lemma {:induction false} StopEndsTheSession(record: bool, run: seq<Label>, more: seq<Label>)
    requires After(record, run).Some? && After(record, run).value.c.CDispatch?
    requires After(record, run).value.c.cmd == Stop && After(record, run).value.ses.joinable
    requires After(record, run + [CommandStep] + more).Some?
    requires forall i :: 0 <= i < |more| ==> !Fetches(more[i])
    requires After(record, run + [CommandStep] + more).value.c.CIdle?
    ensures var s := After(record, run + [CommandStep] + more).value;
            && s.t == NoThread && !s.ses.joinable && s.ses.threads == 0
            && (Healthy(run + [CommandStep] + more) ==> Scan(s.out) == Closed)
  {
    hide Enabled, After, Fetches, Scan;
    var full := run + [CommandStep] + more;
    RunKeeps(record, full);
    Prefix(record, run + [CommandStep], more);
    Shorter(record, run, [CommandStep]);
    assert [CommandStep][..0] == [] && run + [] == run;
    EndingHolds(record, run + [CommandStep], more);
  }

  lemma {:induction false} Prefix(record: bool, run: seq<Label>, more: seq<Label>)
    requires After(record, run + more).Some?
    ensures After(record, run).Some?
    decreases |more|
  {
    hide After, Step, Enabled;
    if more == [] {
      assert run + more == run;
    } else {
      Shorter(record, run, more);
      Prefix(record, run, more[..|more| - 1]);
    }
  }
}
