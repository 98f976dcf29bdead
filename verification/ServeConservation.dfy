/** Nothing the engine emits is lost without being counted: the footers of the
    client stream, the labels of the run and the session recording agree. */
module ServeConservation {
  import opened Common
  import opened ServeProtocol

  // ---------------------------------------------------------------- emissions against footers

  /** What one session did, from the labels of the run alone: how often it called
      `rec_emit`, and whether its engine ever reported truncation. */
  datatype Account = Account(emissions: nat, cut: bool)

  function Accounts(run: seq<Label>): seq<Account> {
    if run == [] then [] else AccountsOn(run[|run| - 1], Accounts(run[..|run| - 1]))
  }

  function AccountsOn(l: Label, accounts: seq<Account>): seq<Account> {
    if l.Open? then accounts + [Account(0, false)]
    else if accounts == [] then []
    else
      var last := |accounts| - 1;
      match l
      case Emit(_) => accounts[last := accounts[last].(emissions := accounts[last].emissions + 1)]
      case EngineTruncates => accounts[last := accounts[last].(cut := true)]
      case _ => accounts
  }

  function Footers(lines: seq<Line>): seq<Line> {
    if lines == [] then []
    else
      var last := |lines| - 1;
      Footers(lines[..last]) + (if lines[last].End? then [lines[last]] else [])
  }

  lemma {:induction false} FootersSay(lines: seq<Line>, line: Line)
    ensures Footers(lines + [line]) == Footers(lines) + (if line.End? then [line] else [])
    ensures EventLines(lines + [line]) == EventLines(lines) + (if line.Event? then [line] else [])
  {
    assert (lines + [line])[..|lines|] == lines;
  }

  /** A slice of the client stream is open. */
  predicate InSlice(t: TracerPc) { t.TEngine? || t.TNote? || t.TCount? || t.TFooter? }

  /** A footer that tells the truth about its session: nothing uncounted, and
      marked truncated exactly when something was dropped or the engine said so. */
  predicate Accounted(footer: Line, account: Account) {
    && footer.End?
    && footer.events + footer.lost == account.emissions
    && (footer.truncated <==> footer.lost > 0 || account.cut)
  }

  predicate Ledger(s: State, footers: seq<Line>, accounts: seq<Account>) {
    && (if InSlice(s.t)
        then && |accounts| == |footers| + 1
             && s.rec.events + s.rec.dropped == accounts[|footers|].emissions
             && (s.rec.truncated <==> s.rec.dropped > 0 || accounts[|footers|].cut)
        else |accounts| == |footers|)
    && (forall i :: 0 <= i < |footers| ==> Accounted(footers[i], accounts[i]))
  }

  /** The footer a step wrote, if it wrote one. */
  function FootersOn(s: State, s': State, footers: seq<Line>): seq<Line> {
    if |s'.out| > |s.out| && s'.out[|s.out|].End? then footers + [s'.out[|s.out|]] else footers
  }

  lemma {:induction false} LedgerOfCommand(s: State, footers: seq<Line>, accounts: seq<Account>)
    requires Ledger(s, footers, accounts) && CommandEnabled(s) && Flags(s)
    ensures Ledger(CommandNext(s), FootersOn(s, CommandNext(s), footers), accounts)
  {}

  lemma {:induction false} LedgerOfTracer(s: State, footers: seq<Line>, accounts: seq<Account>)
    requires Ledger(s, footers, accounts) && TracerEnabled(s)
    ensures Ledger(TracerNext(s), FootersOn(s, TracerNext(s), footers), accounts)
  {}

  lemma {:induction false} LedgerKept(s: State, l: Label, footers: seq<Line>, accounts: seq<Account>)
    requires Ledger(s, footers, accounts) && Enabled(s, l) && Flags(s)
    ensures Ledger(Step(s, l), FootersOn(s, Step(s, l), footers), AccountsOn(l, accounts))
  {
    hide CommandNext, CommandEnabled, TracerNext, TracerEnabled;
    match l
    case CommandStep => LedgerOfCommand(s, footers, accounts);
    case TracerStep => LedgerOfTracer(s, footers, accounts);
    case _ =>
  }

  // ---------------------------------------------------------------- the session recording

  function TotalLost(footers: seq<Line>): nat {
    if footers == [] then 0
    else
      var last := |footers| - 1;
      TotalLost(footers[..last]) + (if footers[last].End? then footers[last].lost else 0)
  }

  /** The recording holds one header and the event lines of all sessions; it is
      marked truncated exactly when some emission was swallowed by a pause. */
  predicate FileTells(f: Recording, events: seq<Line>, dropped: nat, footer: seq<Line>) {
    && f.lines == [Header] + events + footer
    && f.events == |events|
    && (f.truncated <==> dropped > 0)
  }

  function DroppedNow(s: State): nat { if InSlice(s.t) then s.rec.dropped else 0 }

  function FileFooter(s: State): seq<Line> {
    if s.c.CDone? && s.file.Some?
    then [End(s.file.value.events, s.file.value.truncated, 0, SkipCode(s.ses.rc))]
    else []
  }

  predicate FileMatches(s: State, events: seq<Line>, lost: nat) {
    s.file.Some? ==> FileTells(s.file.value, events, lost + DroppedNow(s), FileFooter(s))
  }

  function EventsOn(s: State, s': State, events: seq<Line>): seq<Line> {
    if |s'.out| > |s.out| && s'.out[|s.out|].Event? then events + [s'.out[|s.out|]] else events
  }

  function LostOn(s: State, s': State, lost: nat): nat {
    if |s'.out| > |s.out| && s'.out[|s.out|].End? then lost + s'.out[|s.out|].lost else lost
  }

  lemma {:induction false} FileOfCommand(s: State, events: seq<Line>, lost: nat)
    requires FileMatches(s, events, lost) && CommandEnabled(s) && Flags(s)
    ensures var s' := CommandNext(s); FileMatches(s', EventsOn(s, s', events), LostOn(s, s', lost))
  {}

  lemma {:induction false} FileOfTracer(s: State, events: seq<Line>, lost: nat)
    requires FileMatches(s, events, lost) && TracerEnabled(s) && Flags(s)
    ensures var s' := TracerNext(s); FileMatches(s', EventsOn(s, s', events), LostOn(s, s', lost))
  {}

  lemma {:induction false} FileKept(s: State, l: Label, events: seq<Line>, lost: nat)
    requires FileMatches(s, events, lost) && Enabled(s, l) && Flags(s)
    ensures var s' := Step(s, l); FileMatches(s', EventsOn(s, s', events), LostOn(s, s', lost))
  {
    hide CommandNext, CommandEnabled, TracerNext, TracerEnabled;
    match l
    case CommandStep => FileOfCommand(s, events, lost);
    case TracerStep => FileOfTracer(s, events, lost);
    case _ =>
  }

  // ---------------------------------------------------------------- runs

  predicate Books(s: State, run: seq<Label>) {
    && Flags(s)
    && Ledger(s, Footers(s.out), Accounts(run))
    && FileMatches(s, EventLines(s.out), TotalLost(Footers(s.out)))
  }

  lemma {:induction false} OutOn(s: State, s': State)
    requires Appends(s, s')
    ensures Footers(s'.out) == FootersOn(s, s', Footers(s.out))
    ensures EventLines(s'.out) == EventsOn(s, s', EventLines(s.out))
    ensures TotalLost(Footers(s'.out)) == LostOn(s, s', TotalLost(Footers(s.out)))
  {
    if |s'.out| > |s.out| {
      FootersSay(s.out, s'.out[|s.out|]);
      var f := Footers(s.out);
      assert (f + [s'.out[|s.out|]])[..|f|] == f;
    }
  }

  lemma {:induction false} InitBooks(record: bool)
    ensures Books(Init(record), [])
  {}

  lemma {:induction false} RunKeepsBooks(record: bool, run: seq<Label>)
    requires After(record, run).Some?
    ensures Books(After(record, run).value, run)
  {
    hide Step, Enabled, Flags, Ledger, FileMatches;
    if run == [] {
      InitBooks(record);
    } else {
      var last := |run| - 1;
      RunKeepsBooks(record, run[..last]);
      var s := After(record, run[..last]).value;
      var s' := Step(s, run[last]);
      StepAppends(s, run[last]);
      OutOn(s, s');
      FlagsKept(s, run[last]);
      LedgerKept(s, run[last], Footers(s.out), Accounts(run[..last]));
      FileKept(s, run[last], EventLines(s.out), TotalLost(Footers(s.out)));
    }
  }

  // ---------------------------------------------------------------- main theorems

  /** In every run, the i-th footer states `events` and `lost` that add up to the
      number of times the i-th session emitted, and it is marked truncated exactly
      when any of those was swallowed or the engine reported truncation. */
  lemma {:induction false} EveryEmissionIsAccounted(record: bool, run: seq<Label>)
    requires After(record, run).Some?
    ensures var s := After(record, run).value;
            var footers := Footers(s.out);
            var accounts := Accounts(run);
            && |footers| <= |accounts| <= |footers| + 1
            && (forall i :: 0 <= i < |footers| ==> Accounted(footers[i], accounts[i]))
            && (s.c.CDone? ==> |footers| == |accounts|)
  {
    RunKeepsBooks(record, run);
  }

  /** A finished session recording is one header, the event lines of every
      session in the order the client saw them, and one footer that counts them
      and is marked truncated exactly when a pause swallowed something. */
  lemma {:induction false} RecordingHoldsEverySession(run: seq<Label>)
    requires After(true, run).Some? && After(true, run).value.c.CDone?
    ensures var s := After(true, run).value;
            && s.file.Some?
            && s.file.value.lines ==
                 [Header] + EventLines(s.out)
                 + [End(|EventLines(s.out)|, TotalLost(Footers(s.out)) > 0, 0, SkipCode(s.ses.rc))]
  {
    RunKeepsBooks(true, run);
    RecordingStaysOpen(run);
  }

  lemma {:induction false} StepKeepsFile(s: State, l: Label)
    requires Enabled(s, l)
    ensures s.file.Some? <==> Step(s, l).file.Some?
  {}

  lemma {:induction false} RecordingStaysOpen(run: seq<Label>)
    requires After(true, run).Some?
    ensures After(true, run).value.file.Some?
  {
    hide Step, Enabled;
    if run != [] {
      var last := |run| - 1;
      RecordingStaysOpen(run[..last]);
      StepKeepsFile(After(true, run[..last]).value, run[last]);
    }
  }

  // ---------------------------------------------------------------- what is delivered

  /** The bodies emitted while the recorder was not paused, in order. */
  function Delivered(record: bool, run: seq<Label>): seq<Line>
    requires After(record, run).Some?
  {
    if run == [] then []
    else
      var last := |run| - 1;
      Delivered(record, run[..last])
      + (if run[last].Emit? && !After(record, run[..last]).value.rec.paused then [Event(run[last].body)] else [])
  }

  lemma {:induction false} StepDelivers(s: State, l: Label)
    requires Enabled(s, l)
    ensures EventsOn(s, Step(s, l), EventLines(s.out))
         == EventLines(s.out) + (if l.Emit? && !s.rec.paused then [Event(l.body)] else [])
  {
    hide CommandNext, CommandEnabled, TracerNext, TracerEnabled, EventLines;
    match l
    case CommandStep => CommandSaysNoEvent(s);
    case TracerStep => TracerSaysNoEvent(s);
    case _ =>
  }

  lemma {:induction false} CommandSaysNoEvent(s: State)
    requires CommandEnabled(s)
    ensures var s' := CommandNext(s); |s'.out| > |s.out| ==> !s'.out[|s.out|].Event?
  {}

  lemma {:induction false} TracerSaysNoEvent(s: State)
    requires TracerEnabled(s)
    ensures var s' := TracerNext(s); |s'.out| > |s.out| ==> !s'.out[|s.out|].Event?
  {}

  /** The event lines of the client stream are the bodies emitted outside a pause:
      none altered, none repeated, none out of order. */
  lemma {:induction false} EventsAreTheDelivered(record: bool, run: seq<Label>)
    requires After(record, run).Some?
    ensures EventLines(After(record, run).value.out) == Delivered(record, run)
  {
    hide Step, Enabled;
    if run != [] {
      var last := |run| - 1;
      var s := After(record, run[..last]).value;
      EventsAreTheDelivered(record, run[..last]);
      StepAppends(s, run[last]);
      OutOn(s, Step(s, run[last]));
      StepDelivers(s, run[last]);
    }
  }

  // ---------------------------------------------------------------- two runs the code allows

  lemma {:induction false} Extend(run: seq<Label>, s: State, l: Label) returns (run': seq<Label>)
    requires After(false, run) == Some(s) && Enabled(s, l)
    ensures run' == run + [l] && After(false, run') == Some(Step(s, l))
  {
    run' := run + [l];
    assert run'[..|run|] == run;
  }

  /** A `start` that is accepted, up to the point where the thread is created. */
  lemma {:induction false} StartAccepted() returns (run: seq<Label>)
    ensures run == [Receive(Start(Accepted)), CommandStep, CommandStep, CommandStep, CommandStep]
    ensures After(false, run) == Some(State(CCreate, NoThread,
                                            Session(false, true, false, false, false, 0, 0, 0),
                                            Recorder(false, 0, 0, false), [Ack(ToStart), Started], None))
  {
    run := [];
    var s := Init(false);
    assert After(false, run) == Some(s);
    run := Extend(run, s, Receive(Start(Accepted)));
    s := s.(c := CReap(Start(Accepted)));
    run := Extend(run, s, CommandStep);
    s := s.(c := CDispatch(Start(Accepted), false));
    run := Extend(run, s, CommandStep);
    s := s.(c := CStarted, out := s.out + [Ack(ToStart)]);
    run := Extend(run, s, CommandStep);
    s := s.(c := CReset(false), out := s.out + [Started]);
    run := Extend(run, s, CommandStep);
    assert [] + [Ack(ToStart)] + [Started] == [Ack(ToStart), Started];
  }

  /** The thread cannot be created, the input ends: `started` stays open. */
  lemma {:induction false} StartWithoutThread() returns (run: seq<Label>)
    ensures Create(false, false) in run && After(false, run).Some?
    ensures var s := After(false, run).value; s.c.CDone? && s.out == [Ack(ToStart), Started, Broke]
  {
    hide After;
    run := StartAccepted();
    var s := After(false, run).value;
    run := Extend(run, s, Create(false, false));
    s := s.(c := CIdle, out := s.out + [Broke], ses := s.ses.(running := false));
    run := Extend(run, s, EndOfInput);
    s := s.(c := CDrain);
    run := Extend(run, s, Drained(false));
    s := s.(c := CClose);
    run := Extend(run, s, CommandStep);
  }

  /** Opening the recorder clears the pause flag, so a pause acknowledged before
      the tracer has opened it does not hold: the next emission is written. */
  lemma {:induction false} EarlyPauseIsLost(body: int) returns (run: seq<Label>)
    ensures After(false, run).Some?
    ensures After(false, run).value.out == [Ack(ToStart), Started, Ack(ToPause), Header, Event(body)]
    ensures Receive(Pause(true)) in run && Receive(Pause(false)) !in run
  {
    hide After;
    run := StartAccepted();
    var s := After(false, run).value;
    run := Extend(run, s, Create(true, false));
    s := s.(c := CMark, t := TEntry, ses := s.ses.(threads := 1));
    run := Extend(run, s, CommandStep);
    s := s.(c := CIdle, ses := s.ses.(joinable := true));
    run := Extend(run, s, Receive(Pause(true)));
    run := PauseThenOpen(run, s.(c := CReap(Pause(true))), body);
  }

  lemma {:induction false} PauseThenOpen(run: seq<Label>, from: State, body: int) returns (run': seq<Label>)
    requires After(false, run) == Some(from)
    requires from.c == CReap(Pause(true)) && from.t == TEntry
    requires from.ses.joinable && from.ses.running && !from.ses.launch && from.file.None?
    ensures run' == run + [CommandStep, CommandStep, CommandStep, TracerStep, Open, Emit(body)]
    ensures After(false, run').Some?
    ensures After(false, run').value.out == from.out + [Ack(ToPause), Header, Event(body)]
  {
    hide After;
    var s := from;
    run' := Extend(run, s, CommandStep);
    s := s.(c := CDispatch(Pause(true), false));
    run' := Extend(run', s, CommandStep);
    s := s.(c := CPauseAck, rec := s.rec.(paused := true));
    run' := Extend(run', s, CommandStep);
    s := s.(c := CIdle, out := s.out + [Ack(ToPause)]);
    run' := Extend(run', s, TracerStep);
    s := s.(t := TOpen);
    run' := Extend(run', s, Open);
    s := s.(t := TEngine, out := s.out + [Header], rec := Recorder(false, 0, 0, false));
    run' := Extend(run', s, Emit(body));
  }
}
