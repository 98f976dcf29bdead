/** The scrollback of the log panes: a ring of the last lines (`log_push_aux`) and
    the viewport arithmetic (`asmspy_log_window`). */
module RingLog {

  const LOG_CAP: nat := 2048

  /** A line and the datum that travels with it. */
  datatype Line = Line(text: string, aux: nat)

  // ---------------------------------------------------------------- the window

  /** `asmspy_log_window`: the top line and the number of lines. */
  function Window(total: nat, count: int, bottom: int, h: int): (int, int) {
    if count <= 0 || h < 1 then (0, 0)
    else
      var oldest, newest := total - count, total - 1;
      var b0 := if bottom > newest then newest else bottom;
      var b := if b0 < oldest then oldest else b0;
      var top := if b - h + 1 < oldest then oldest else b - h + 1;
      (top, b - top + 1)
  }

  function Clamp(x: int, lo: int, hi: int): int { if x < lo then lo else if x > hi then hi else x }

  function Min(a: int, b: int): int { if a < b then a else b }

  /** The window is the run of lines that ends at the clamped bottom, as many as
      the pane is high or the buffer still holds above it. */
  lemma {:induction false} WindowIsTheTail(total: nat, count: int, bottom: int, h: int)
    requires 0 < count <= total && h >= 1
    ensures var (top, n) := Window(total, count, bottom, h);
            var last := Clamp(bottom, total - count, total - 1);
            && top + n - 1 == last
            && n == Min(h, last - (total - count) + 1)
            && n >= 1 && total - count <= top && last < total
  {}

  lemma {:induction false} EmptyWindow(total: nat, bottom: int, h: int)
    ensures Window(total, 0, bottom, h) == (0, 0)
  {}

  // ---------------------------------------------------------------- the ring

  /** Where line number L of the history lives while it is buffered. */
  function Slot(l: nat): (s: nat)
    ensures s < LOG_CAP
  {
    l % LOG_CAP
  }

  class LogBuffer {
    const lines: array<Line>
    var head: nat
    var count: nat
    var total: nat
    ghost var history: seq<Line>

    constructor ()
      ensures Valid() && history == [] && fresh(lines)
    {
      lines := new Line[LOG_CAP](_ => Line("", 0));
      head, count, total, history := 0, 0, 0, [];
    }

    /** The last `count` lines of the history are in their slots. */
    ghost predicate Valid()
      reads this, lines
    {
      && lines.Length == LOG_CAP
      && total == |history|
      && count == (if total < LOG_CAP then total else LOG_CAP)
      && head == Slot(total)
      && (forall i :: total - count <= i < total ==> lines[Slot(i)] == history[i])
    }

    /** `log_push_aux`. */
    method Push(text: string, aux: nat)
      requires Valid()
      modifies this, lines
      ensures Valid() && history == old(history) + [Line(text, aux)]
    {
      hide Slot;
      SlotAfter(total);
      lines[head] := Line(text, aux);
      head := (head + 1) % LOG_CAP;
      if count < LOG_CAP { count := count + 1; }
      total := total + 1;
      history := history + [Line(text, aux)];
      forall i | total - count <= i < total ensures lines[Slot(i)] == history[i] {
        if i < total - 1 { OtherSlot(i, total - 1); }
      }
    }

    /** `draw_log_cursor`: the lines drawn, top to bottom. */
    method Draw(h: int, bottom: int) returns (drawn: seq<Line>)
      requires Valid()
      ensures h < 1 || history == [] ==> drawn == []
      ensures h >= 1 && history != [] ==>
                var oldest := if |history| < LOG_CAP then 0 else |history| - LOG_CAP;
                var last := Clamp(bottom, oldest, |history| - 1);
                var n := Min(h, last - oldest + 1);
                1 <= n <= last + 1 && drawn == history[last + 1 - n..last + 1]
    {
      hide Slot, Window, Min, Clamp;
      drawn := [];
      if h < 1 { return; }
      var (top, n) := Window(total, count, bottom, h);
      if count == 0 {
        EmptyWindow(total, bottom, h);
        return;
      }
      WindowIsTheTail(total, count, bottom, h);
      for r := 0 to n
        invariant drawn == history[top..top + r]
      {
        drawn := drawn + [lines[Slot(top + r)]];
      }
    }
  }

  lemma {:induction false} SlotAfter(l: nat)
    ensures (Slot(l) + 1) % LOG_CAP == Slot(l + 1)
  {}

  /** Two line numbers less than a ring apart live in different slots. */
  lemma {:induction false} OtherSlot(i: nat, j: nat)
    requires i < j < i + LOG_CAP
    ensures Slot(i) != Slot(j)
  {}
}
