/** The call-tree filter (`asmspy_treefilter.h`): one integer per thread stands
    for the whole call stack.  The stack itself is kept here beside it, as what
    the integer has to agree with. */
module TreeFilter {
  import opened Common

  const NO_FOCUS: int := -1

  /** A null filter is the one that lets everything through, Filter(0, "", ""). */
  datatype Filter = Filter(maxDepth: int, focus: string, module': string)

  /** `asmspy_tf_match`; `None` is an unresolved name. */
  predicate Matches(hay: Option<string>, needle: string) {
    needle == "" || (hay.Some? && Contains(hay.value, needle))
  }

  // ---------------------------------------------------------------- the code

  /** Whether a call is emitted, at which depth, and the focus state after it. */
  datatype Decision = Decision(emit: bool, eff: int, focus: int)

  function FilterCall(f: Filter, name: Option<string>, mod: Option<string>, depth: int, focus: int): Decision {
    if f.focus != "" && focus == NO_FOCUS && !Matches(name, f.focus) then Decision(false, depth, focus)
    else
      var focus' := if f.focus != "" && focus == NO_FOCUS then depth else focus;
      var base := if f.focus != "" then focus' else 0;
      var d := if depth - base < 0 then 0 else depth - base;
      if f.maxDepth > 0 && d >= f.maxDepth then Decision(false, depth, focus')
      else if f.module' != "" && !Matches(mod, f.module') then Decision(false, depth, focus')
      else Decision(true, d, focus')
  }

  function FilterRet(f: Filter, depth: int, focus: int): int {
    if f.focus != "" && focus != NO_FOCUS && depth <= focus then NO_FOCUS else focus
  }

  /** The per-thread focus state, updated through a pointer by the two calls. */
  class FocusState {
    var focusDepth: int

    constructor ()
      ensures focusDepth == NO_FOCUS
    {
      focusDepth := NO_FOCUS;
    }

    /** `asmspy_tree_filter_call`. */
    method TreeFilterCall(f: Filter, name: Option<string>, mod: Option<string>, depth: int)
      returns (emit: bool, eff: int)
      modifies this
      ensures Decision(emit, eff, focusDepth) == FilterCall(f, name, mod, depth, old(focusDepth))
    {
      var base := 0;
      emit, eff := false, depth;
      if f.focus != "" {
        if focusDepth == NO_FOCUS {
          if !Matches(name, f.focus) { return; }
          focusDepth := depth;
        }
        base := focusDepth;
      }
      var d := depth - base;
      if d < 0 { d := 0; }
      if f.maxDepth > 0 && d >= f.maxDepth { return; }
      if f.module' != "" && !Matches(mod, f.module') { return; }
      emit, eff := true, d;
    }

    /** `asmspy_tree_filter_ret`. */
    method TreeFilterRet(f: Filter, depth: int)
      modifies this
      ensures focusDepth == FilterRet(f, depth, old(focusDepth))
    {
      if f.focus == "" { return; }
      if focusDepth != NO_FOCUS && depth <= focusDepth { focusDepth := NO_FOCUS; }
    }
  }

  // ---------------------------------------------------------------- the stack it stands for

  datatype Frame = Frame(addr: nat, name: Option<string>, mod: Option<string>)

  /** A thread: its real call stack, and the integer the filter keeps. */
  datatype Thread = Thread(stack: seq<Frame>, focus: int)

  const NEW_THREAD: Thread := Thread([], NO_FOCUS)

  /** A call pushes whether or not it is emitted; an unwind pops one or more frames. */
  datatype Event = Call(frame: Frame) | Unwind(to: nat)

  function OnCall(f: Filter, t: Thread, frame: Frame): Decision {
    FilterCall(f, frame.name, frame.mod, |t.stack|, t.focus)
  }

  function Next(f: Filter, t: Thread, e: Event): Thread {
    match e
    case Call(frame) => Thread(t.stack + [frame], OnCall(f, t, frame).focus)
    case Unwind(to) =>
      if to < |t.stack| then Thread(t.stack[..to], FilterRet(f, to, t.focus)) else t
  }

  function Run(f: Filter, events: seq<Event>): Thread {
    if events == [] then NEW_THREAD
    else Next(f, Run(f, events[..|events| - 1]), events[|events| - 1])
  }

  /** The index of the outermost frame whose name matches the focus, or none. */
  function Outermost(needle: string, stack: seq<Frame>): (i: int)
    ensures i == NO_FOCUS || 0 <= i < |stack|
    ensures i == NO_FOCUS ==> forall k :: 0 <= k < |stack| ==> !Matches(stack[k].name, needle)
    ensures i != NO_FOCUS ==> Matches(stack[i].name, needle)
    ensures i != NO_FOCUS ==> forall k :: 0 <= k < i ==> !Matches(stack[k].name, needle)
  {
    if stack == [] then NO_FOCUS
    else
      var last := |stack| - 1;
      var i := Outermost(needle, stack[..last]);
      if i != NO_FOCUS then i
      else if Matches(stack[last].name, needle) then last
      else NO_FOCUS
  }

  /** The integer is the index of the outermost matching frame. */
  predicate Tracks(f: Filter, t: Thread) {
    t.focus == if f.focus == "" then NO_FOCUS else Outermost(f.focus, t.stack)
  }

  lemma {:induction false} OutermostIs(needle: string, stack: seq<Frame>, i: nat)
    requires i < |stack| && Matches(stack[i].name, needle)
    requires forall k :: 0 <= k < i ==> !Matches(stack[k].name, needle)
    ensures Outermost(needle, stack) == i
  {
    var j := Outermost(needle, stack);
    assert j != NO_FOCUS ==> j >= i;
  }

  lemma {:induction false} CallTracks(f: Filter, t: Thread, frame: Frame)
    requires Tracks(f, t)
    ensures Tracks(f, Next(f, t, Call(frame)))
  {
    hide Matches;
    assert (t.stack + [frame])[..|t.stack|] == t.stack;
  }

  lemma {:induction false} UnwindTracks(f: Filter, t: Thread, to: nat)
    requires Tracks(f, t)
    ensures Tracks(f, Next(f, t, Unwind(to)))
  {
    hide Matches;
    if to < |t.stack| && f.focus != "" {
      var i := t.focus;
      if i != NO_FOCUS && i < to {
        OutermostIs(f.focus, t.stack[..to], i);
      } else {
        assert forall k :: 0 <= k < to ==> !Matches(t.stack[..to][k].name, f.focus);
      }
    }
  }

  /** After every sequence of calls and unwinds the integer equals the index of
      the outermost matching frame of the real stack. */
  lemma {:induction false} FocusTracksTheStack(f: Filter, events: seq<Event>)
    ensures Tracks(f, Run(f, events))
  {
    if events != [] {
      var last := |events| - 1;
      FocusTracksTheStack(f, events[..last]);
      match events[last]
      case Call(frame) => CallTracks(f, Run(f, events[..last]), frame);
      case Unwind(to) => UnwindTracks(f, Run(f, events[..last]), to);
    }
  }

  // ---------------------------------------------------------------- what is emitted

  /** The frame a call's depth counts from: the outermost matching frame of the
      stack the call completes, or the bottom when nothing is focused. */
  function Base(f: Filter, stack: seq<Frame>): int {
    if f.focus == "" then 0 else Outermost(f.focus, stack)
  }

  predicate InScope(f: Filter, stack: seq<Frame>) { f.focus == "" || Outermost(f.focus, stack) != NO_FOCUS }

  /** What the view promises, in terms of the stack including the call itself. */
  predicate ShouldEmit(f: Filter, stack: seq<Frame>)
    requires stack != []
  {
    var depth := |stack| - 1 - Base(f, stack);
    && InScope(f, stack)
    && (f.maxDepth > 0 ==> depth < f.maxDepth)
    && (f.module' == "" || Bears(stack[|stack| - 1].mod, f.module'))
  }

  /** The name is known and contains the pattern. */
  predicate Bears(name: Option<string>, needle: string) { name.Some? && Contains(name.value, needle) }

  /** In every run, the next call is emitted exactly when it lies within the
      extent of a focused frame and passes the depth and module tests, at its
      depth below that frame; the guard against a negative depth never fires. */
  lemma {:induction false} EmittedExactlyInScope(f: Filter, events: seq<Event>, frame: Frame)
    ensures var t := Run(f, events);
            var stack := t.stack + [frame];
            var d := OnCall(f, t, frame);
            && (d.emit <==> ShouldEmit(f, stack))
            && (d.emit ==> d.eff == |t.stack| - Base(f, stack) >= 0)
            && (InScope(f, stack) ==> |t.stack| - Base(f, stack) >= 0)
            && (InScope(f, stack) <==> f.focus == "" || exists k :: 0 <= k < |stack| && Bears(stack[k].name, f.focus))
            && (f.focus != "" && InScope(f, stack) ==>
                  Bears(stack[Base(f, stack)].name, f.focus)
                  && forall k :: 0 <= k < Base(f, stack) ==> !Bears(stack[k].name, f.focus))
  {
    hide Contains, Run;
    var t := Run(f, events);
    var stack := t.stack + [frame];
    FocusTracksTheStack(f, events);
    assert stack[..|t.stack|] == t.stack;
  }
}
