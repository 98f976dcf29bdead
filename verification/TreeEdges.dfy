/** Caller edges from depths alone (`tree_export_dot`): the log of emitted calls
    keeps a thread, a depth and an address per line, and the exporter rebuilds
    who called whom. */
module TreeEdges {
  import opened Common
  import opened TreeFilter

  const DEPTH_SLOTS: nat := 64

  /** One line of the capture. */
  datatype Entry = Entry(tid: nat, depth: nat, addr: nat)

  function Clamp(depth: nat): (d: nat)
    ensures d < DEPTH_SLOTS
  {
    if depth < 63 then depth else 63
  }

  // ---------------------------------------------------------------- reading the log

  /** The address last logged by this thread at this clamped depth; 0 if none. */
  function Latest(log: seq<Entry>, tid: nat, d: nat): nat {
    if log == [] then 0
    else
      var last := log[|log| - 1];
      if last.tid == tid && Clamp(last.depth) == d then last.addr else Latest(log[..|log| - 1], tid, d)
  }

  /** The caller the exporter assigns to a line that follows `log`; 0 is none. */
  function Parent(log: seq<Entry>, e: Entry): nat {
    if Clamp(e.depth) > 0 then Latest(log, e.tid, Clamp(e.depth) - 1) else 0
  }

  /** The recovered edges, in order. */
  function Recovered(log: seq<Entry>): seq<(nat, nat)> {
    if log == [] then []
    else
      var before, e := log[..|log| - 1], log[|log| - 1];
      Recovered(before) + (if Parent(before, e) != 0 then [(Parent(before, e), e.addr)] else [])
  }

  // ---------------------------------------------------------------- the runs that write it

  /** A step of one thread of the traced program. */
  datatype Step = Step(tid: nat, event: Event)

  /** All threads, and the log so far. */
  datatype World = World(threads: map<nat, Thread>, log: seq<Entry>)

  function ThreadOf(w: World, tid: nat): Thread {
    if tid in w.threads then w.threads[tid] else NEW_THREAD
  }

  function NextWorld(f: Filter, w: World, s: Step): World {
    var t := ThreadOf(w, s.tid);
    World(w.threads[s.tid := Next(f, t, s.event)],
          w.log + match s.event
                  case Unwind(_) => []
                  case Call(frame) =>
                    var d := OnCall(f, t, frame);
                    if d.emit then [Entry(s.tid, Nat(d.eff), frame.addr)] else [])
  }

  function Nat(i: int): nat { if i < 0 then 0 else i }

  function RunAll(f: Filter, steps: seq<Step>): World {
    if steps == [] then World(map[], [])
    else NextWorld(f, RunAll(f, steps[..|steps| - 1]), steps[|steps| - 1])
  }

  /** The true calls behind the emitted lines that are not roots: the frame on
      top of the stack called the one being entered. */
  function TrueCalls(f: Filter, steps: seq<Step>): seq<(nat, nat)> {
    if steps == [] then []
    else
      var w, s := RunAll(f, steps[..|steps| - 1]), steps[|steps| - 1];
      var t := ThreadOf(w, s.tid);
      TrueCalls(f, steps[..|steps| - 1]) +
      match s.event
      case Unwind(_) => []
      case Call(frame) =>
        var d := OnCall(f, t, frame);
        if d.emit && d.eff > 0 && t.stack != [] then [(t.stack[|t.stack| - 1].addr, frame.addr)] else []
  }

  /** The frame the exporter's 64 slots still reach from a call at depth eff: its
      caller, or the frame at depth 62 for a call deeper than 63. */
  function Ancestor(stack: seq<Frame>, eff: int): (r: Option<Frame>)
    ensures 0 < eff <= 63 && stack != [] ==> r == Some(stack[|stack| - 1])
  {
    var k := |stack| - eff + Clamp(Nat(eff)) - 1;
    if 0 <= k < |stack| then Some(stack[k]) else None
  }

  /** The calls behind the emitted lines that are not roots, each from the frame the
      slots reach. */
  function SlotCalls(f: Filter, steps: seq<Step>): seq<(nat, nat)> {
    if steps == [] then []
    else
      var w, s := RunAll(f, steps[..|steps| - 1]), steps[|steps| - 1];
      SlotCalls(f, steps[..|steps| - 1]) +
      match s.event
      case Unwind(_) => []
      case Call(frame) => SlotCall(f, ThreadOf(w, s.tid), frame)
  }

  function SlotCall(f: Filter, t: Thread, frame: Frame): (call: seq<(nat, nat)>)
    ensures |call| <= 1
  {
    var d := OnCall(f, t, frame);
    var from := Ancestor(t.stack, d.eff);
    if d.emit && d.eff > 0 && from.Some? then [(from.value.addr, frame.addr)] else []
  }

  // ---------------------------------------------------------------- the invariant

  predicate NoModule(f: Filter) { f.module' == "" }

  /** The bottom of what a thread shows: its focused frame, or its first frame. */
  function Bottom(f: Filter, t: Thread): int { if f.focus == "" then 0 else t.focus }

  /** A live frame that was emitted: within the extent shown, above the cap and of
      an admitted module. */
  predicate Shown(f: Filter, t: Thread, k: nat) {
    && (f.focus != "" ==> t.focus != NO_FOCUS)
    && 0 <= Bottom(f, t) <= k < |t.stack|
    && (f.maxDepth > 0 ==> k - Bottom(f, t) < f.maxDepth)
    && Matches(t.stack[k].mod, f.module')
  }

  /** Every live emitted frame less than 63 levels deep is still the latest line
      of its thread at its depth. */
  predicate Remembers(f: Filter, log: seq<Entry>, tid: nat, t: Thread) {
    forall k :: 0 <= k < |t.stack| && Shown(f, t, k) && k - Bottom(f, t) < 63 ==>
      Latest(log, tid, k - Bottom(f, t)) == t.stack[k].addr
  }

  lemma {:induction false} LatestSnoc(log: seq<Entry>, e: Entry, tid: nat, d: nat)
    ensures Latest(log + [e], tid, d) ==
              if e.tid == tid && Clamp(e.depth) == d then e.addr else Latest(log, tid, d)
  {
    assert (log + [e])[..|log|] == log;
  }

  lemma {:induction false} CallRemembers(f: Filter, log: seq<Entry>, tid: nat, t: Thread, frame: Frame)
    requires Tracks(f, t) && Remembers(f, log, tid, t)
    ensures var d := OnCall(f, t, frame);
            var log' := if d.emit then log + [Entry(tid, Nat(d.eff), frame.addr)] else log;
            Remembers(f, log', tid, Next(f, t, Call(frame)))
  {
    hide Latest, Outermost, Contains;
    var d := OnCall(f, t, frame);
    var t' := Next(f, t, Call(frame));
    var e := Entry(tid, Nat(d.eff), frame.addr);
    var log' := if d.emit then log + [e] else log;
    forall k | 0 <= k < |t'.stack| && Shown(f, t', k) && k - Bottom(f, t') < 63
      ensures Latest(log', tid, k - Bottom(f, t')) == t'.stack[k].addr
    {
      if d.emit { LatestSnoc(log, e, tid, k - Bottom(f, t')); }
      if k < |t.stack| { assert Shown(f, t, k); }
    }
  }

  lemma {:induction false} UnwindRemembers(f: Filter, log: seq<Entry>, tid: nat, t: Thread, to: nat)
    requires Tracks(f, t) && Remembers(f, log, tid, t)
    ensures Remembers(f, log, tid, Next(f, t, Unwind(to)))
  {
    hide Latest, Outermost, Matches;
    var t' := Next(f, t, Unwind(to));
    forall k | 0 <= k < |t'.stack| && Shown(f, t', k) && k - Bottom(f, t') < 63
      ensures Latest(log, tid, k - Bottom(f, t')) == t'.stack[k].addr
    {
      assert Shown(f, t, k);
    }
  }

  lemma {:induction false} OthersRemember(f: Filter, log: seq<Entry>, e: Entry, tid: nat, t: Thread)
    requires Remembers(f, log, tid, t) && e.tid != tid
    ensures Remembers(f, log + [e], tid, t)
  {
    hide Latest;
    forall k | 0 <= k < |t.stack| && Shown(f, t, k) && k - Bottom(f, t) < 63
      ensures Latest(log + [e], tid, k - Bottom(f, t)) == t.stack[k].addr
    {
      LatestSnoc(log, e, tid, k - Bottom(f, t));
    }
  }

  lemma {:induction false} StepKeepsThread(f: Filter, w: World, s: Step, tid: nat)
    requires Tracks(f, ThreadOf(w, s.tid)) && Remembers(f, w.log, s.tid, ThreadOf(w, s.tid))
    requires Tracks(f, ThreadOf(w, tid)) && Remembers(f, w.log, tid, ThreadOf(w, tid))
    ensures var w' := NextWorld(f, w, s);
            Tracks(f, ThreadOf(w', tid)) && Remembers(f, w'.log, tid, ThreadOf(w', tid))
  {
    hide Tracks, Remembers, Next, OnCall;
    var t, w' := ThreadOf(w, s.tid), NextWorld(f, w, s);
    match s.event
    case Unwind(to) =>
      assert w'.log == w.log;
      if tid == s.tid {
        UnwindTracks(f, t, to);
        UnwindRemembers(f, w.log, tid, t, to);
      }
    case Call(frame) =>
      if !OnCall(f, t, frame).emit { assert w'.log == w.log; }
      if tid == s.tid {
        CallTracks(f, t, frame);
        CallRemembers(f, w.log, tid, t, frame);
      } else if OnCall(f, t, frame).emit {
        OthersRemember(f, w.log, w'.log[|w.log|], tid, ThreadOf(w, tid));
      }
  }

  lemma {:induction false} RunRemembers(f: Filter, steps: seq<Step>, tid: nat)
    ensures var w := RunAll(f, steps);
            Tracks(f, ThreadOf(w, tid)) && Remembers(f, w.log, tid, ThreadOf(w, tid))
    decreases |steps|
  {
    hide Tracks, Remembers, NextWorld;
    if steps == [] {
      NothingToRemember(f, tid);
    } else {
      var before, s := steps[..|steps| - 1], steps[|steps| - 1];
      RunRemembers(f, before, s.tid);
      RunRemembers(f, before, tid);
      StepKeepsThread(f, RunAll(f, before), s, tid);
    }
  }

  lemma {:induction false} NothingToRemember(f: Filter, tid: nat)
    ensures Tracks(f, NEW_THREAD) && Remembers(f, [], tid, NEW_THREAD)
  {}

  // ---------------------------------------------------------------- parents are callers

  /** In every run of every number of threads, under any depth cap, focus and
      module filter, the exporter's parent of the next emitted call is the frame its
      slots reach, provided that frame was emitted: the true caller up to depth 63. */
  lemma {:induction false} ParentIsTheAncestor(f: Filter, steps: seq<Step>, tid: nat, frame: Frame)
    requires var d := OnCall(f, ThreadOf(RunAll(f, steps), tid), frame); d.emit && d.eff > 0
    ensures var w := RunAll(f, steps);
            var t := ThreadOf(w, tid);
            var d := OnCall(f, t, frame);
            var from := Ancestor(t.stack, d.eff);
            && from.Some? && from.value in t.stack
            && (Matches(from.value.mod, f.module') ==>
                  Parent(w.log, Entry(tid, d.eff, frame.addr)) == from.value.addr)
            && (d.eff <= 63 ==> from.value == t.stack[|t.stack| - 1])
  {
    hide Latest, Outermost, Matches;
    var w := RunAll(f, steps);
    var t := ThreadOf(w, tid);
    var d := OnCall(f, t, frame);
    RunRemembers(f, steps, tid);
    var k := |t.stack| - d.eff + Clamp(d.eff) - 1;
    if Matches(t.stack[k].mod, f.module') { assert Shown(f, t, k); }
  }

  /** Every address belongs to one module. */
  predicate OneModule(steps: seq<Step>, modOf: nat -> Option<string>) {
    forall i :: 0 <= i < |steps| && steps[i].event.Call? ==>
      steps[i].event.frame.mod == modOf(steps[i].event.frame.addr)
  }

  /** Live frames carry their address's module; logged addresses are of an
      admitted module. */
  predicate ModulesKept(f: Filter, modOf: nat -> Option<string>, t: Thread, log: seq<Entry>) {
    && (forall k :: 0 <= k < |t.stack| ==> t.stack[k].mod == modOf(t.stack[k].addr))
    && (forall i :: 0 <= i < |log| ==> Matches(modOf(log[i].addr), f.module'))
  }

  lemma {:induction false} RunKeepsModules(f: Filter, steps: seq<Step>, tid: nat, modOf: nat -> Option<string>)
    requires OneModule(steps, modOf)
    ensures ModulesKept(f, modOf, ThreadOf(RunAll(f, steps), tid), RunAll(f, steps).log)
    decreases |steps|
  {
    hide Outermost, Contains;
    if steps != [] {
      var before, s := steps[..|steps| - 1], steps[|steps| - 1];
      RunKeepsModules(f, before, tid, modOf);
      RunKeepsModules(f, before, s.tid, modOf);
    }
  }

  lemma {:induction false} LatestIsLogged(log: seq<Entry>, tid: nat, d: nat)
    ensures Latest(log, tid, d) == 0 || exists i :: 0 <= i < |log| && log[i].addr == Latest(log, tid, d)
  {
    if log != [] {
      var before := log[..|log| - 1];
      LatestIsLogged(before, tid, d);
      if Latest(before, tid, d) != 0 {
        var i :| 0 <= i < |before| && before[i].addr == Latest(before, tid, d);
        assert log[i].addr == before[i].addr;
      }
      assert log[|log| - 1].addr == log[|log| - 1].addr;
    }
  }

  /** At every depth and under every filter, the exporter draws an edge from the frame
      its slots reach (up to depth 63, the true caller) exactly when that frame's
      module passes the module filter and its address is not 0. */
  lemma {:induction false} ParentIsAncestorIffShown(f: Filter, steps: seq<Step>, tid: nat, frame: Frame,
                                                    modOf: nat -> Option<string>)
    requires OneModule(steps, modOf)
    requires var d := OnCall(f, ThreadOf(RunAll(f, steps), tid), frame); d.emit && d.eff > 0
    ensures var w := RunAll(f, steps);
            var t := ThreadOf(w, tid);
            var d := OnCall(f, t, frame);
            var from := Ancestor(t.stack, d.eff);
            var parent := Parent(w.log, Entry(tid, d.eff, frame.addr));
            && from.Some?
            && (parent != 0 && parent == from.value.addr <==>
                  from.value.addr != 0 && Matches(from.value.mod, f.module'))
            && (d.eff <= 63 ==> t.stack != [] && from.value == t.stack[|t.stack| - 1])
  {
    hide Latest, Outermost, Matches, FilterCall, RunAll;
    var w := RunAll(f, steps);
    var d := OnCall(f, ThreadOf(w, tid), frame);
    ParentIsTheAncestor(f, steps, tid, frame);
    RunKeepsModules(f, steps, tid, modOf);
    LatestIsLogged(w.log, tid, Clamp(d.eff) - 1);
  }

  /** Edges out of address 0 are the exporter's "no parent". */
  function Named(calls: seq<(nat, nat)>): seq<(nat, nat)> {
    if calls == [] then []
    else
      var last := calls[|calls| - 1];
      Named(calls[..|calls| - 1]) + (if last.0 != 0 then [last] else [])
  }

  lemma {:induction false} NamedSnoc(calls: seq<(nat, nat)>, c: (nat, nat))
    ensures Named(calls + [c]) == Named(calls) + (if c.0 != 0 then [c] else [])
  {
    assert (calls + [c])[..|calls|] == calls;
  }

  predicate Shallow(log: seq<Entry>) { forall i :: 0 <= i < |log| ==> log[i].depth <= 63 }

  /** What the exporter recovers from the log of any run, of any depth, is exactly the
      calls of that run from the frames its slots reach, in order; within its 64
      levels those are the true calls. */
  lemma {:induction false} RecoveredAreTheTrueCalls(f: Filter, steps: seq<Step>)
    requires NoModule(f)
    ensures Recovered(RunAll(f, steps).log) == Named(SlotCalls(f, steps))
    ensures Shallow(RunAll(f, steps).log) ==> SlotCalls(f, steps) == TrueCalls(f, steps)
    decreases |steps|
  {
    hide Recovered, RunAll, SlotCalls, TrueCalls, Named, Shallow;
    if steps == [] {
      NothingCalled(f);
    } else {
      var before, s := steps[..|steps| - 1], steps[|steps| - 1];
      assert before + [s] == steps;
      RecoveredAreTheTrueCalls(f, before);
      LastCallRecovered(f, before, s);
      LastCallShallow(f, before, s);
    }
  }

  lemma {:induction false} NothingCalled(f: Filter)
    ensures Recovered(RunAll(f, []).log) == [] && SlotCalls(f, []) == [] == TrueCalls(f, []) && Named([]) == []
  {}

  lemma {:induction false} AnyModule(f: Filter, mod: Option<string>)
    requires NoModule(f)
    ensures Matches(mod, f.module')
  {}

  lemma {:induction false} LastCallRecovered(f: Filter, before: seq<Step>, s: Step)
    requires NoModule(f)
    requires Recovered(RunAll(f, before).log) == Named(SlotCalls(f, before))
    ensures Recovered(RunAll(f, before + [s]).log) == Named(SlotCalls(f, before + [s]))
  {
    hide Recovered, FilterCall, Next, RunAll, SlotCalls, SlotCall, TrueCalls, Parent;
    var log := RunAll(f, before).log;
    var t := ThreadOf(RunAll(f, before), s.tid);
    StepUnfold(f, before, s);
    if s.event.Call? && OnCall(f, t, s.event.frame).emit {
      var frame := s.event.frame;
      EntryRecovered(f, before, s.tid, frame);
      RecoveredSnoc(log, Entry(s.tid, Nat(OnCall(f, t, frame).eff), frame.addr));
    }
  }

  lemma {:induction false} LastCallShallow(f: Filter, before: seq<Step>, s: Step)
    requires Shallow(RunAll(f, before).log) ==> SlotCalls(f, before) == TrueCalls(f, before)
    ensures Shallow(RunAll(f, before + [s]).log) ==> SlotCalls(f, before + [s]) == TrueCalls(f, before + [s])
  {
    hide FilterCall, Next, RunAll, SlotCalls, TrueCalls;
    StepUnfold(f, before, s);
    var log, all := RunAll(f, before).log, RunAll(f, before + [s]).log;
    if Shallow(all) {
      assert forall i :: 0 <= i < |log| ==> log[i] == all[i];
      if |all| > |log| { assert all[|log|].depth <= 63; }
    }
  }

  /** What one more step adds to the log and to the calls. */
  lemma {:induction false} StepUnfold(f: Filter, before: seq<Step>, s: Step)
    ensures var w := RunAll(f, before);
            var t := ThreadOf(w, s.tid);
            if s.event.Call? && OnCall(f, t, s.event.frame).emit then
              var frame, d := s.event.frame, OnCall(f, t, s.event.frame);
              && RunAll(f, before + [s]).log == w.log + [Entry(s.tid, Nat(d.eff), frame.addr)]
              && SlotCalls(f, before + [s]) == SlotCalls(f, before) + SlotCall(f, t, frame)
              && TrueCalls(f, before + [s]) == TrueCalls(f, before)
                   + (if d.eff > 0 && t.stack != [] then [(t.stack[|t.stack| - 1].addr, frame.addr)] else [])
            else
              && RunAll(f, before + [s]).log == w.log
              && SlotCalls(f, before + [s]) == SlotCalls(f, before)
              && TrueCalls(f, before + [s]) == TrueCalls(f, before)
  {
    hide FilterCall, Next, Ancestor;
    assert (before + [s])[..|before|] == before;
  }

  /** The edge recovered for one emitted call is its call. */
  lemma {:induction false} EntryRecovered(f: Filter, steps: seq<Step>, tid: nat, frame: Frame)
    requires OnCall(f, ThreadOf(RunAll(f, steps), tid), frame).emit && NoModule(f)
    ensures var w := RunAll(f, steps);
            var t := ThreadOf(w, tid);
            var parent := Parent(w.log, Entry(tid, Nat(OnCall(f, t, frame).eff), frame.addr));
            var calls := SlotCalls(f, steps);
            Named(calls + SlotCall(f, t, frame)) == Named(calls) + (if parent != 0 then [(parent, frame.addr)] else [])
  {
    hide Latest, FilterCall, RunAll, SlotCalls, Matches, Ancestor;
    var t := ThreadOf(RunAll(f, steps), tid);
    var calls := SlotCalls(f, steps);
    var eff := OnCall(f, t, frame).eff;
    if eff > 0 {
      ParentIsTheAncestor(f, steps, tid, frame);
      var from := Ancestor(t.stack, eff).value;
      AnyModule(f, from.mod);
      NamedSnoc(calls, (from.addr, frame.addr));
    } else {
      assert calls + [] == calls;
    }
  }

  /** How many lines are below a root. */
  function DeepLines(log: seq<Entry>): nat {
    if log == [] then 0
    else DeepLines(log[..|log| - 1]) + (if log[|log| - 1].depth > 0 then 1 else 0)
  }

  /** There is one call for every line at depth above 0. */
  lemma {:induction false} OneCallPerDeepLine(f: Filter, steps: seq<Step>)
    ensures |TrueCalls(f, steps)| == |SlotCalls(f, steps)| == DeepLines(RunAll(f, steps).log)
    decreases |steps|
  {
    hide FilterCall, Next, RunAll, SlotCalls, TrueCalls, Ancestor, DeepLines;
    if steps == [] {
      NoLines(f);
    } else {
      var before, s := steps[..|steps| - 1], steps[|steps| - 1];
      assert before + [s] == steps;
      OneCallPerDeepLine(f, before);
      StepUnfold(f, before, s);
      var t := ThreadOf(RunAll(f, before), s.tid);
      if s.event.Call? && OnCall(f, t, s.event.frame).emit {
        var d := OnCall(f, t, s.event.frame);
        DeepSnoc(RunAll(f, before).log, Entry(s.tid, Nat(d.eff), s.event.frame.addr));
        if d.eff > 0 { ParentIsTheAncestor(f, before, s.tid, s.event.frame); }
      }
    }
  }

  lemma {:induction false} NoLines(f: Filter)
    ensures TrueCalls(f, []) == [] == SlotCalls(f, []) && DeepLines(RunAll(f, []).log) == 0
  {}

  lemma {:induction false} DeepSnoc(log: seq<Entry>, e: Entry)
    ensures DeepLines(log + [e]) == DeepLines(log) + (if e.depth > 0 then 1 else 0)
  {
    assert (log + [e])[..|log|] == log;
  }

  lemma {:induction false} Extend(f: Filter, steps: seq<Step>, w: World, s: Step) returns (steps': seq<Step>)
    requires RunAll(f, steps) == w
    ensures steps' == steps + [s] && RunAll(f, steps') == NextWorld(f, w, s)
  {
    steps' := steps + [s];
    assert steps'[..|steps|] == steps;
  }

  function InModule(addr: nat): Frame { Frame(addr, None, Some("m")) }

  lemma {:induction false} ModuleVerdicts(t: Thread, addr: nat)
    requires t.focus == NO_FOCUS
    ensures OnCall(Filter(0, "", "m"), t, InModule(addr)) == Decision(true, |t.stack|, NO_FOCUS)
    ensures OnCall(Filter(0, "", "m"), t, Frame(addr, None, None)) == Decision(false, |t.stack|, NO_FOCUS)
  {
    assert "m" <= "m"[0..];
    assert Matches(Some("m"), "m") && !Matches(None, "m");
  }

  /** A module filter may hide the caller; then the parent is a stale line.  Here
      0xA calls 0xD, then 0xB of another module, which calls 0xC: the exporter
      reports that 0xD called 0xC. */
  lemma {:induction false} ModuleFilterMisattributes() returns (steps: seq<Step>)
    ensures steps == [Step(1, Call(InModule(0xA))), Step(1, Call(InModule(0xD))), Step(1, Unwind(1)),
                      Step(1, Call(Frame(0xB, None, None))), Step(1, Call(InModule(0xC)))]
    ensures var log := RunAll(Filter(0, "", "m"), steps).log;
            && log == [Entry(1, 0, 0xA), Entry(1, 1, 0xD), Entry(1, 2, 0xC)]
            && Parent(log[..2], log[2]) == 0xD
  {
    hide OnCall, RunAll, Matches;
    var f := Filter(0, "", "m");
    var a, d, b := InModule(0xA), InModule(0xD), Frame(0xB, None, None);
    var w := World(map[], []);
    var s1 := NEW_THREAD.stack + [a];
    var s2 := s1 + [d];
    var s3 := s2[..1];
    var s4 := s3 + [b];
    NoSteps(f);
    ModuleVerdicts(NEW_THREAD, 0xA);
    steps := Extend(f, [], w, Step(1, Call(a)));
    w := World(map[1 := Thread(s1, NO_FOCUS)], [Entry(1, 0, 0xA)]);
    assert RunAll(f, steps).threads == w.threads && RunAll(f, steps).log == w.log;
    ModuleVerdicts(w.threads[1], 0xD);
    steps := Extend(f, steps, w, Step(1, Call(d)));
    w := World(map[1 := Thread(s2, NO_FOCUS)], [Entry(1, 0, 0xA), Entry(1, 1, 0xD)]);
    assert RunAll(f, steps).threads == w.threads && RunAll(f, steps).log == w.log;
    steps := Extend(f, steps, w, Step(1, Unwind(1)));
    w := w.(threads := map[1 := Thread(s3, NO_FOCUS)]);
    assert RunAll(f, steps).threads == w.threads && RunAll(f, steps).log == w.log;
    ModuleVerdicts(w.threads[1], 0xB);
    steps := Extend(f, steps, w, Step(1, Call(b)));
    w := w.(threads := map[1 := Thread(s4, NO_FOCUS)]);
    assert RunAll(f, steps).threads == w.threads && RunAll(f, steps).log == w.log;
    ModuleVerdicts(w.threads[1], 0xC);
    steps := Extend(f, steps, w, Step(1, Call(InModule(0xC))));
    var log := RunAll(f, steps).log;
    assert log[..2] == w.log;
  }

  lemma {:induction false} NoSteps(f: Filter)
    ensures RunAll(f, []) == World(map[], [])
  {}

  // ---------------------------------------------------------------- the exporter

  datatype Edge = Edge(from: nat, to: nat, count: nat)

  /** One thread's slots of latest addresses. */
  datatype Slots = Slots(tid: nat, at: seq<nat>)

  function Total(edges: seq<Edge>): nat {
    if edges == [] then 0 else Total(edges[..|edges| - 1]) + edges[|edges| - 1].count
  }

  /** The table holds each recovered edge once, with its exact multiplicity. */
  predicate Tally(edges: seq<Edge>, calls: seq<(nat, nat)>) {
    && (forall i, j :: 0 <= i < j < |edges| ==> (edges[i].from, edges[i].to) != (edges[j].from, edges[j].to))
    && (forall i :: 0 <= i < |edges| ==>
          edges[i].count == multiset(calls)[(edges[i].from, edges[i].to)] > 0)
    && (forall c :: c in calls ==> exists i :: 0 <= i < |edges| && (edges[i].from, edges[i].to) == c)
    && Total(edges) == |calls|
  }

  predicate SlotsMatch(stacks: seq<Slots>, log: seq<Entry>) {
    && (forall i, j :: 0 <= i < j < |stacks| ==> stacks[i].tid != stacks[j].tid)
    && (forall i :: 0 <= i < |stacks| ==> |stacks[i].at| == DEPTH_SLOTS)
    && (forall i, d :: 0 <= i < |stacks| && 0 <= d < DEPTH_SLOTS ==>
          stacks[i].at[d] == Latest(log, stacks[i].tid, d))
    && (forall k :: 0 <= k < |log| ==> exists i :: 0 <= i < |stacks| && stacks[i].tid == log[k].tid)
  }

  predicate NamedFrames(steps: seq<Step>) {
    forall i :: 0 <= i < |steps| && steps[i].event.Call? ==> steps[i].event.frame.addr != 0
  }

  predicate NamedStack(t: Thread) { forall k :: 0 <= k < |t.stack| ==> t.stack[k].addr != 0 }

  lemma {:induction false} StacksAreNamed(f: Filter, steps: seq<Step>, tid: nat)
    requires NamedFrames(steps)
    ensures NamedStack(ThreadOf(RunAll(f, steps), tid))
    decreases |steps|
  {
    if steps != [] { StacksAreNamed(f, steps[..|steps| - 1], tid); }
  }

  lemma {:induction false} AllNamed(f: Filter, steps: seq<Step>)
    requires NamedFrames(steps)
    ensures Named(SlotCalls(f, steps)) == SlotCalls(f, steps)
    decreases |steps|
  {
    hide Next, FilterCall, RunAll, SlotCalls, TrueCalls, NamedFrames;
    if steps == [] {
      NothingCalled(f);
    } else {
      var before, s := steps[..|steps| - 1], steps[|steps| - 1];
      assert before + [s] == steps;
      FewerFrames(steps);
      AllNamed(f, before);
      StepUnfold(f, before, s);
      StacksAreNamed(f, before, s.tid);
      if s.event.Call? {
        var calls, call := SlotCalls(f, before), SlotCall(f, ThreadOf(RunAll(f, before), s.tid), s.event.frame);
        if call != [] { NamedSnoc(calls, call[0]); } else { assert calls + call == calls; }
      }
    }
  }

  lemma {:induction false} FewerFrames(steps: seq<Step>)
    requires steps != [] && NamedFrames(steps)
    ensures NamedFrames(steps[..|steps| - 1])
  {}

  /** For every run without a module filter the exported table counts the calls from
      the frames the slots reach.  With nonzero addresses its counts add up to the
      number of lines below a root; and within 64 levels it counts the true calls. */
  lemma {:induction false} EdgesCountTheRun(f: Filter, steps: seq<Step>, edges: seq<Edge>)
    requires NoModule(f) && Tally(edges, Recovered(RunAll(f, steps).log))
    ensures Tally(edges, Named(SlotCalls(f, steps)))
    ensures NamedFrames(steps) ==> Total(edges) == DeepLines(RunAll(f, steps).log)
    ensures NamedFrames(steps) && Shallow(RunAll(f, steps).log) ==> Tally(edges, TrueCalls(f, steps))
  {
    hide RunAll, TrueCalls, SlotCalls, Recovered, Latest, NamedFrames, Shallow;
    RecoveredAreTheTrueCalls(f, steps);
    if NamedFrames(steps) { AllNamed(f, steps); }
    OneCallPerDeepLine(f, steps);
  }

  /** `tree_export_dot`, the edge table. */
  method TreeExportDot(log: seq<Entry>) returns (edges: seq<Edge>)
    ensures Tally(edges, Recovered(log))
  {
    hide Tally, SlotsMatch, Latest, Recovered;
    edges := [];
    var stacks: seq<Slots> := [];
    NothingTallied();
    assert log[..0] == [];
    for i := 0 to |log|
      invariant SlotsMatch(stacks, log[..i])
      invariant Tally(edges, Recovered(log[..i]))
    {
      var e := log[i];
      assert log[..i + 1] == log[..i] + [e] && log[..i + 1][..i] == log[..i];
      RecoveredSnoc(log[..i], e);
      var parent;
      stacks, parent := Enter(stacks, e, log[..i]);
      if parent != 0 {
        edges := Count(edges, parent, e.addr, Recovered(log[..i]));
      }
    }
    assert log[..|log|] == log;
  }

  lemma {:induction false} RecoveredSnoc(log: seq<Entry>, e: Entry)
    ensures Recovered(log + [e]) ==
              if Parent(log, e) != 0 then Recovered(log) + [(Parent(log, e), e.addr)] else Recovered(log)
  {
    assert (log + [e])[..|log|] == log;
  }

  lemma {:induction false} NothingTallied()
    ensures Tally([], Recovered([])) && SlotsMatch([], [])
  {}

  /** Look the thread up, read the slot above, store the address. */
  method Enter(stacks: seq<Slots>, e: Entry, ghost log: seq<Entry>) returns (stacks': seq<Slots>, parent: nat)
    requires SlotsMatch(stacks, log)
    ensures SlotsMatch(stacks', log + [e])
    ensures parent == Parent(log, e)
  {
    var k := 0;
    while k < |stacks| && stacks[k].tid != e.tid
      invariant k <= |stacks| && forall j :: 0 <= j < k ==> stacks[j].tid != e.tid
    {
      k := k + 1;
    }
    stacks' := stacks;
    if k == |stacks| {
      SlotsAdded(stacks, log, e.tid);
      stacks' := stacks + [Slots(e.tid, seq(DEPTH_SLOTS, _ => 0))];
    }
    var d := Clamp(e.depth);
    parent := if d > 0 then stacks'[k].at[d - 1] else 0;
    SlotStored(stacks', log, e, k);
    stacks' := stacks'[k := Slots(e.tid, stacks'[k].at[d := e.addr])];
  }

  lemma {:induction false} SlotsAdded(stacks: seq<Slots>, log: seq<Entry>, tid: nat)
    requires SlotsMatch(stacks, log) && forall j :: 0 <= j < |stacks| ==> stacks[j].tid != tid
    ensures SlotsMatch(stacks + [Slots(tid, seq(DEPTH_SLOTS, _ => 0))], log)
  {
    NeverLogged(log, tid);
    var stacks' := stacks + [Slots(tid, seq(DEPTH_SLOTS, _ => 0))];
    forall k | 0 <= k < |log| ensures exists i :: 0 <= i < |stacks'| && stacks'[i].tid == log[k].tid {
      var i :| 0 <= i < |stacks| && stacks[i].tid == log[k].tid;
      assert stacks'[i].tid == log[k].tid;
    }
  }

  lemma {:induction false} SlotStored(stacks: seq<Slots>, log: seq<Entry>, e: Entry, k: nat)
    requires SlotsMatch(stacks, log) && k < |stacks| && stacks[k].tid == e.tid
    ensures SlotsMatch(stacks[k := Slots(e.tid, stacks[k].at[Clamp(e.depth) := e.addr])], log + [e])
  {
    hide Latest;
    var stacks' := stacks[k := Slots(e.tid, stacks[k].at[Clamp(e.depth) := e.addr])];
    forall i, d | 0 <= i < |stacks'| && 0 <= d < DEPTH_SLOTS
      ensures stacks'[i].at[d] == Latest(log + [e], stacks'[i].tid, d)
    {
      LatestSnoc(log, e, stacks'[i].tid, d);
    }
    forall j | 0 <= j < |log + [e]| ensures exists i :: 0 <= i < |stacks'| && stacks'[i].tid == (log + [e])[j].tid {
      if j < |log| {
        var i :| 0 <= i < |stacks| && stacks[i].tid == log[j].tid;
        assert stacks'[i].tid == log[j].tid;
      } else {
        assert stacks'[k].tid == e.tid;
      }
    }
  }

  /** Look the edge up; count it, or add it with count one. */
  method Count(edges: seq<Edge>, from: nat, to: nat, ghost calls: seq<(nat, nat)>) returns (edges': seq<Edge>)
    requires Tally(edges, calls)
    ensures Tally(edges', calls + [(from, to)])
  {
    hide Tally;
    var e := 0;
    while e < |edges| && !(edges[e].from == from && edges[e].to == to)
      invariant e <= |edges| && forall j :: 0 <= j < e ==> (edges[j].from, edges[j].to) != (from, to)
    {
      e := e + 1;
    }
    if e == |edges| {
      TallyNew(edges, calls, from, to);
      edges' := edges + [Edge(from, to, 1)];
    } else {
      TallyAgain(edges, calls, e);
      edges' := edges[e := edges[e].(count := edges[e].count + 1)];
    }
  }

  lemma {:induction false} TotalUpdate(edges: seq<Edge>, e: nat)
    requires e < |edges|
    ensures Total(edges[e := edges[e].(count := edges[e].count + 1)]) == Total(edges) + 1
  {
    var last := |edges| - 1;
    var edges' := edges[e := edges[e].(count := edges[e].count + 1)];
    if e < last {
      TotalUpdate(edges[..last], e);
      assert edges'[..last] == edges[..last][e := edges[e].(count := edges[e].count + 1)];
    } else {
      assert edges'[..last] == edges[..last];
    }
  }

  lemma {:induction false} TallyNew(edges: seq<Edge>, calls: seq<(nat, nat)>, from: nat, to: nat)
    requires Tally(edges, calls) && forall j :: 0 <= j < |edges| ==> (edges[j].from, edges[j].to) != (from, to)
    ensures Tally(edges + [Edge(from, to, 1)], calls + [(from, to)])
  {
    var edges', c := edges + [Edge(from, to, 1)], (from, to);
    assert edges'[..|edges|] == edges;
    assert c !in calls;
    assert multiset(calls + [c]) == multiset(calls) + multiset{c};
    forall x | x in calls + [c] ensures exists i :: 0 <= i < |edges'| && (edges'[i].from, edges'[i].to) == x {
      if x in calls {
        var i :| 0 <= i < |edges| && (edges[i].from, edges[i].to) == x;
        assert (edges'[i].from, edges'[i].to) == x;
      } else {
        assert (edges'[|edges|].from, edges'[|edges|].to) == x;
      }
    }
  }

  lemma {:induction false} TallyAgain(edges: seq<Edge>, calls: seq<(nat, nat)>, e: nat)
    requires Tally(edges, calls) && e < |edges|
    ensures Tally(edges[e := edges[e].(count := edges[e].count + 1)], calls + [(edges[e].from, edges[e].to)])
  {
    var c := (edges[e].from, edges[e].to);
    var edges' := edges[e := edges[e].(count := edges[e].count + 1)];
    TotalUpdate(edges, e);
    assert multiset(calls + [c]) == multiset(calls) + multiset{c};
    forall x | x in calls + [c] ensures exists i :: 0 <= i < |edges'| && (edges'[i].from, edges'[i].to) == x {
      var i :| 0 <= i < |edges| && (edges[i].from, edges[i].to) == x;
      assert (edges'[i].from, edges'[i].to) == x;
    }
  }

  lemma {:induction false} NeverLogged(log: seq<Entry>, tid: nat)
    requires forall k :: 0 <= k < |log| ==> log[k].tid != tid
    ensures forall d :: Latest(log, tid, d) == 0
  {
    if log != [] { NeverLogged(log[..|log| - 1], tid); }
  }
}
