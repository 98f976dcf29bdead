/** The walk common to the picker's process tree (`picker_emit`, `picker_build_tree`)
    and the topology's (`topo_emit_proc`, `topo_build_rows`): over an arbitrary parent
    relation, cycles and self-parents included, guarded by `emitted`. */
module ProcessForest {
  import opened Common

  /** Something to draw; siblings are ordered by class, then by weight, then by id.
      The picker's processes are all of one class and weight; the topology weighs by
      the negated invocation count, and its threads have their leader in a class
      before the others. */
  datatype Proc = Proc(pid: int, ppid: int, weight: int, class': int)

  /** The row of a process: which one, and how deep its prefix is. */
  datatype Row = Row(k: nat, depth: nat)

  /** A row as it is drawn: a process, or a thread under its process. */
  datatype Drawing = ProcessRow(k: nat, depth: nat) | ThreadRow(task: nat, depth: nat)

  /** What the rows draw. */
  datatype Tree = Node(k: nat, kids: seq<Tree>)

  predicate Leq(a: Proc, b: Proc) {
    if a.class' != b.class' then a.class' < b.class'
    else if a.weight != b.weight then a.weight < b.weight
    else a.pid <= b.pid
  }

  predicate ChildOf(procs: seq<Proc>, j: nat, k: nat)
    requires j < |procs| && k < |procs|
  {
    j != k && procs[j].ppid == procs[k].pid
  }

  predicate Listed(procs: seq<Proc>, k: nat)
    requires k < |procs|
  {
    exists j :: 0 <= j < |procs| && procs[j].pid == procs[k].ppid
  }

  /** The rows of a tree, in preorder. */
  function Flatten(t: Tree, depth: nat): seq<Row>
    decreases t, 1
  {
    [Row(t.k, depth)] + FlattenAll(t.kids, depth + 1)
  }

  function FlattenAll(ts: seq<Tree>, depth: nat): seq<Row>
    decreases ts, 0
  {
    if ts == [] then [] else FlattenAll(ts[..|ts| - 1], depth) + Flatten(ts[|ts| - 1], depth)
  }

  lemma {:induction false} FlattenSnoc(ts: seq<Tree>, t: Tree, depth: nat)
    ensures FlattenAll(ts + [t], depth) == FlattenAll(ts, depth) + Flatten(t, depth)
  {
    assert (ts + [t])[..|ts|] == ts;
  }

  predicate InOrder(procs: seq<Proc>, ts: seq<Tree>) {
    && (forall i :: 0 <= i < |ts| ==> ts[i].k < |procs|)
    && (forall i, j :: 0 <= i < j < |ts| ==> Leq(procs[ts[i].k], procs[ts[j].k]))
  }

  /** A faithful tree: every node hangs under one whose pid is its parent pid, and
      siblings are in order. */
  predicate Faithful(procs: seq<Proc>, t: Tree)
    decreases t
  {
    && t.k < |procs|
    && InOrder(procs, t.kids)
    && forall i :: 0 <= i < |t.kids| ==> ChildOf(procs, t.kids[i].k, t.k) && Faithful(procs, t.kids[i])
  }

  // ---------------------------------------------------------------- sorting indexes

  predicate SortedIdx(procs: seq<Proc>, s: seq<nat>) {
    && (forall i :: 0 <= i < |s| ==> s[i] < |procs|)
    && (forall i, j :: 0 <= i < j < |s| ==> Leq(procs[s[i]], procs[s[j]]))
  }

  lemma {:induction false} InsertSorted(procs: seq<Proc>, r: seq<nat>, u: nat, x: nat)
    requires SortedIdx(procs, r) && u <= |r| && x < |procs|
    requires forall j :: u <= j < |r| ==> !Leq(procs[r[j]], procs[x])
    requires u > 0 ==> Leq(procs[r[u - 1]], procs[x])
    ensures SortedIdx(procs, r[..u] + [x] + r[u..])
  {
    var r' := r[..u] + [x] + r[u..];
    forall i, j | 0 <= i < j < |r'| ensures Leq(procs[r'[i]], procs[r'[j]]) {
      if i < u - 1 && j == u { assert Leq(procs[r[i]], procs[r[u - 1]]); }
      if i == u { assert !Leq(procs[r[j - 1]], procs[x]); }
    }
  }

  lemma {:induction false} InsertPermutes(r: seq<nat>, u: nat, x: nat)
    requires u <= |r|
    ensures multiset(r[..u] + [x] + r[u..]) == multiset(r) + multiset{x}
  {
    assert r == r[..u] + r[u..];
  }

  /** A sorted permutation, standing for the library sort. */
  method SortIdx(procs: seq<Proc>, s: seq<nat>) returns (r: seq<nat>)
    requires forall i :: 0 <= i < |s| ==> s[i] < |procs|
    ensures SortedIdx(procs, r) && multiset(r) == multiset(s)
  {
    hide SortedIdx, Leq;
    r := [];
    EmptySorted(procs);
    for i := 0 to |s|
      invariant SortedIdx(procs, r) && multiset(r) == multiset(s[..i])
    {
      var u := InsertionPoint(procs, r, s[i]);
      assert s[..i + 1] == s[..i] + [s[i]];
      InsertSorted(procs, r, u, s[i]);
      InsertPermutes(r, u, s[i]);
      r := r[..u] + [s[i]] + r[u..];
    }
    assert s[..|s|] == s;
  }

  predicate Distinct(s: seq<nat>) { forall i, j :: 0 <= i < j < |s| ==> s[i] != s[j] }

  /** Increasing indexes below n. */
  predicate Ascending(s: seq<nat>, n: nat) {
    && (forall i :: 0 <= i < |s| ==> s[i] < n)
    && (forall i, j :: 0 <= i < j < |s| ==> s[i] < s[j])
  }

  lemma {:induction false} AscendingOnce(s: seq<nat>, n: nat, x: nat)
    requires Ascending(s, n)
    ensures multiset(s)[x] <= 1
  {
    if s != [] {
      var last := |s| - 1;
      AscendingOnce(s[..last], s[last], x);
      assert s == s[..last] + [s[last]];
      if x == s[last] { assert x !in s[..last]; }
    }
  }

  lemma {:induction false} AscendingPermuted(s: seq<nat>, n: nat, t: seq<nat>)
    requires Ascending(s, n) && multiset(t) == multiset(s)
    ensures Distinct(t)
  {
    forall i, j | 0 <= i < j < |t| ensures t[i] != t[j] {
      AscendingOnce(s, n, t[i]);
      assert t == t[..j] + t[j..] && t[..j][i] == t[i] && t[j..][0] == t[j];
      assert t[i] in multiset(t[..j]) && t[j] in multiset(t[j..]);
      assert multiset(t)[t[i]] == multiset(t[..j])[t[i]] + multiset(t[j..])[t[i]];
    }
  }

  lemma {:induction false} EmptySorted(procs: seq<Proc>)
    ensures SortedIdx(procs, [])
  {}

  method InsertionPoint(procs: seq<Proc>, r: seq<nat>, x: nat) returns (u: nat)
    requires SortedIdx(procs, r) && x < |procs|
    ensures u <= |r|
    ensures forall j :: u <= j < |r| ==> !Leq(procs[r[j]], procs[x])
    ensures u > 0 ==> Leq(procs[r[u - 1]], procs[x])
  {
    u := |r|;
    while u > 0 && !Leq(procs[r[u - 1]], procs[x])
      invariant u <= |r|
      invariant forall j :: u <= j < |r| ==> !Leq(procs[r[j]], procs[x])
    {
      u := u - 1;
    }
  }

  // ---------------------------------------------------------------- thread rows

  /** The threads drawn under a process: its tasks, if it has more than one. */
  function Threads(members: seq<nat>): seq<nat> { if |members| > 1 then members else [] }

  function ThreadRows(block: seq<nat>, depth: nat): (out: seq<Drawing>)
    ensures |out| == |block| && forall i :: 0 <= i < |block| ==> out[i] == ThreadRow(block[i], depth)
  {
    seq(|block|, i requires 0 <= i < |block| => ThreadRow(block[i], depth))
  }

  /** Every process row, followed by its block of threads one level deeper. */
  function Expand(rows: seq<Row>, blocks: seq<seq<nat>>): seq<Drawing>
    requires |rows| == |blocks|
  {
    if rows == [] then []
    else
      var last := |rows| - 1;
      Expand(rows[..last], blocks[..last])
      + [ProcessRow(rows[last].k, rows[last].depth)] + ThreadRows(blocks[last], rows[last].depth + 1)
  }

  /** A block holds exactly the threads of its process, in order. */
  predicate BlockOk(items: seq<Proc>, members: seq<nat>, block: seq<nat>) {
    SortedIdx(items, block) && multiset(block) == multiset(Threads(members))
  }

  /** What has been drawn is the process rows with their blocks. */
  predicate Written(items: seq<Proc>, members: seq<seq<nat>>, rows: seq<Row>, blocks: seq<seq<nat>>, out: seq<Drawing>) {
    && |rows| == |blocks|
    && out == Expand(rows, blocks)
    && forall i :: 0 <= i < |rows| ==> rows[i].k < |members| && BlockOk(items, members[rows[i].k], blocks[i])
  }

  lemma {:induction false} WrittenSnoc(items: seq<Proc>, members: seq<seq<nat>>, rows: seq<Row>, blocks: seq<seq<nat>>,
                                       out: seq<Drawing>, k: nat, depth: nat, block: seq<nat>)
    requires Written(items, members, rows, blocks, out) && k < |members| && BlockOk(items, members[k], block)
    ensures Written(items, members, rows + [Row(k, depth)], blocks + [block],
                    out + [ProcessRow(k, depth)] + ThreadRows(block, depth + 1))
  {
    hide BlockOk;
    var rows', blocks' := rows + [Row(k, depth)], blocks + [block];
    assert rows'[..|rows|] == rows && blocks'[..|rows|] == blocks;
  }

  lemma {:induction false} NothingWritten(items: seq<Proc>, members: seq<seq<nat>>)
    ensures Written(items, members, [], [], [])
  {}

  // ---------------------------------------------------------------- marks

  /** A process is marked exactly when it has its one row. */
  predicate Marked(np: nat, emitted: seq<bool>, rows: seq<Row>) {
    && |emitted| == np
    && (forall i :: 0 <= i < |rows| ==> rows[i].k < np && emitted[rows[i].k])
    && (forall i, j :: 0 <= i < j < |rows| ==> rows[i].k != rows[j].k)
    && (forall k :: 0 <= k < np && emitted[k] ==> HasRow(rows, k))
  }

  predicate HasRow(rows: seq<Row>, k: nat) { exists i :: 0 <= i < |rows| && rows[i].k == k }

  lemma {:induction false} MarkOne(np: nat, emitted: seq<bool>, rows: seq<Row>, k: nat, depth: nat)
    requires Marked(np, emitted, rows) && k < np && !emitted[k]
    ensures Marked(np, emitted[k := true], rows + [Row(k, depth)])
  {
    var rows' := rows + [Row(k, depth)];
    forall x | 0 <= x < np && emitted[k := true][x] ensures HasRow(rows', x) {
      if x == k {
        assert rows'[|rows|].k == k;
      } else {
        var i :| 0 <= i < |rows| && rows[i].k == x;
        assert rows'[i].k == x;
      }
    }
  }

  /** Marks are never taken back. */
  predicate Grew(before: seq<bool>, after: seq<bool>) {
    |before| == |after| && forall j :: 0 <= j < |before| && before[j] ==> after[j]
  }

  /** Every child of x has been drawn. */
  predicate Complete(procs: seq<Proc>, emitted: seq<bool>, x: nat)
    requires x < |procs| == |emitted|
  {
    forall j :: 0 <= j < |procs| && ChildOf(procs, j, x) ==> emitted[j]
  }

  /** Every process marked since, other than those in `open`, is complete. */
  predicate NewComplete(procs: seq<Proc>, before: seq<bool>, after: seq<bool>, open: set<nat>)
    requires |procs| == |before| == |after|
  {
    forall x :: 0 <= x < |procs| && after[x] && !before[x] && x !in open ==> Complete(procs, after, x)
  }

  lemma {:induction false} CompleteOnward(procs: seq<Proc>, a: seq<bool>, b: seq<bool>, c: seq<bool>, open: set<nat>)
    requires |procs| == |a| && Grew(a, b) && Grew(b, c)
    requires NewComplete(procs, a, b, open) && NewComplete(procs, b, c, {})
    ensures Grew(a, c) && NewComplete(procs, a, c, open)
  {
    forall x | 0 <= x < |procs| && c[x] && !a[x] && x !in open ensures Complete(procs, c, x) {
      if b[x] { assert Complete(procs, b, x); }
    }
  }

  function Unmarked(emitted: seq<bool>): set<nat> {
    set k: nat | k < |emitted| && !emitted[k]
  }

  lemma {:induction false} FewerUnmarked(before: seq<bool>, after: seq<bool>, k: nat)
    requires Grew(before, after) && k < |before| && !before[k] && after[k]
    ensures Unmarked(after) < Unmarked(before)
  {
    assert k in Unmarked(before) && k !in Unmarked(after);
  }

  lemma {:induction false} NotMoreUnmarked(before: seq<bool>, after: seq<bool>)
    requires Grew(before, after)
    ensures Unmarked(after) == Unmarked(before) || Unmarked(after) < Unmarked(before)
  {}

  lemma {:induction false} FewerUnmarkedNow(before: seq<bool>, k: nat)
    requires k < |before| && !before[k]
    ensures Unmarked(before[k := true]) < Unmarked(before)
  {
    FewerUnmarked(before, before[k := true], k);
  }

  lemma {:induction false} NothingNew(procs: seq<Proc>, emitted: seq<bool>)
    requires |procs| == |emitted|
    ensures Grew(emitted, emitted) && NewComplete(procs, emitted, emitted, {})
  {}

  lemma {:induction false} KeepMarks(was: seq<bool>, now: seq<bool>, ci: seq<nat>, j: nat)
    requires Grew(was, now) && j <= |ci| && forall i :: 0 <= i < j ==> ci[i] < |was| && was[ci[i]]
    ensures forall i :: 0 <= i < j ==> now[ci[i]]
  {}

  // ---------------------------------------------------------------- kids

  /** Trees drawn so far from the sorted list ci[..j]. */
  predicate From(procs: seq<Proc>, ts: seq<Tree>, ci: seq<nat>, j: nat)
    requires j <= |ci| && forall y :: 0 <= y < |ci| ==> ci[y] < |procs|
  {
    && InOrder(procs, ts)
    && (forall i :: 0 <= i < |ts| ==> ts[i].k in ci && Faithful(procs, ts[i]))
    && (forall i, y :: 0 <= i < |ts| && j <= y < |ci| ==> Leq(procs[ts[i].k], procs[ci[y]]))
  }

  lemma {:induction false} FromSnoc(procs: seq<Proc>, ts: seq<Tree>, ci: seq<nat>, j: nat, t: Tree)
    requires SortedIdx(procs, ci) && j < |ci| && From(procs, ts, ci, j)
    requires t.k == ci[j] && Faithful(procs, t)
    ensures From(procs, ts + [t], ci, j + 1)
  {
    hide Faithful;
  }

  lemma {:induction false} FromSkip(procs: seq<Proc>, ts: seq<Tree>, ci: seq<nat>, j: nat)
    requires j < |ci| && (forall y :: 0 <= y < |ci| ==> ci[y] < |procs|) && From(procs, ts, ci, j)
    ensures From(procs, ts, ci, j + 1)
  {}

  lemma {:induction false} FromNothing(procs: seq<Proc>, ci: seq<nat>, depth: nat)
    requires forall y :: 0 <= y < |ci| ==> ci[y] < |procs|
    ensures From(procs, [], ci, 0) && FlattenAll([], depth) == []
  {}

  lemma {:induction false} FromChildren(procs: seq<Proc>, k: nat, kids: seq<Tree>, ci: seq<nat>)
    requires k < |procs| && (forall y :: 0 <= y < |ci| ==> ci[y] < |procs| && ChildOf(procs, ci[y], k))
    requires From(procs, kids, ci, |ci|)
    ensures Faithful(procs, Node(k, kids))
  {}

  // ---------------------------------------------------------------- the walk

  /** A walk over `procs`; process k has the tasks members[k], which are indexes into
      `items`.  The picker's processes have none. */
  class Forest {
    const procs: seq<Proc>
    const items: seq<Proc>
    const members: seq<seq<nat>>
    var emitted: seq<bool>
    var out: seq<Drawing>
    ghost var rows: seq<Row>
    ghost var blocks: seq<seq<nat>>

    constructor (procs: seq<Proc>, items: seq<Proc>, members: seq<seq<nat>>)
      ensures this.procs == procs && this.items == items && this.members == members
      ensures rows == [] && blocks == [] && out == [] && emitted == seq(|procs|, _ => false)
    {
      this.procs, this.items, this.members := procs, items, members;
      emitted := seq(|procs|, _ => false);
      out, rows, blocks := [], [], [];
    }

    /** The drawing agrees with the rows, and the tasks are items. */
    ghost predicate Consistent()
      reads this
    {
      && |members| == |procs|
      && (forall k, i :: 0 <= k < |members| && 0 <= i < |members[k]| ==> members[k][i] < |items|)
      && Written(items, members, rows, blocks, out)
    }

    /** `picker_emit` / `topo_emit_proc`: draw process k and its descendants that
        have not been drawn yet. */
    method Emit(k: nat, depth: nat) returns (ghost t: Tree)
      requires Consistent() && Marked(|procs|, emitted, rows) && k < |procs| == |emitted|
      modifies this
      ensures Consistent() && |emitted| == |procs| && emitted[k]
      ensures Marked(|procs|, emitted, rows) && Grew(old(emitted), emitted)
      ensures NewComplete(procs, old(emitted), emitted, {})
      ensures old(emitted[k]) ==> rows == old(rows) && emitted == old(emitted)
      ensures !old(emitted[k]) ==> rows == old(rows) + Flatten(t, depth) && t.k == k && Faithful(procs, t)
      decreases Unmarked(emitted), 1
    {
      hide Marked, NewComplete, Complete, Faithful, From, Unmarked, SortedIdx, ChildOf, Grew, Written, BlockOk;
      if emitted[k] {
        NothingNew(procs, emitted);
        return Node(k, []);
      }
      MarkOne(|procs|, emitted, rows, k, depth);
      emitted := emitted[k := true];
      ghost var first := emitted;
      var ti := SortedThreads(k);
      WrittenSnoc(items, members, rows, blocks, out, k, depth, ti);
      rows, blocks := rows + [Row(k, depth)], blocks + [ti];
      out := out + [ProcessRow(k, depth)];
      var ci := Children(k);
      DrawThreads(ti, depth + 1);
      FewerUnmarkedNow(old(emitted), k);
      ghost var kids := EmitAll(ci, depth + 1);
      t := Node(k, kids);
      FromChildren(procs, k, kids, ci);
      NowComplete(procs, old(emitted), first, emitted, k, ci);
    }

    /** The loop over a sorted list of children, or of roots. */
    method EmitAll(ci: seq<nat>, depth: nat) returns (ghost ts: seq<Tree>)
      requires Consistent() && Marked(|procs|, emitted, rows) && |procs| == |emitted|
      requires SortedIdx(procs, ci) && forall y :: 0 <= y < |ci| ==> ci[y] < |procs|
      modifies this
      ensures Consistent() && |emitted| == |procs|
      ensures Marked(|procs|, emitted, rows) && Grew(old(emitted), emitted)
      ensures NewComplete(procs, old(emitted), emitted, {})
      ensures forall i :: 0 <= i < |ci| ==> emitted[ci[i]]
      ensures From(procs, ts, ci, |ci|)
      ensures rows == old(rows) + FlattenAll(ts, depth)
      decreases Unmarked(emitted), 2
    {
      hide Marked, NewComplete, Complete, Faithful, From, Unmarked, SortedIdx, Grew, FlattenAll, Flatten, Written;
      ts := [];
      FromNothing(procs, ci, depth);
      NothingNew(procs, emitted);
      var j := 0;
      while j < |ci|
        invariant Consistent() && j <= |ci| && |emitted| == |procs|
        invariant Marked(|procs|, emitted, rows) && Grew(old(emitted), emitted)
        invariant NewComplete(procs, old(emitted), emitted, {})
        invariant forall i :: 0 <= i < j ==> emitted[ci[i]]
        invariant From(procs, ts, ci, j)
        invariant rows == old(rows) + FlattenAll(ts, depth)
      {
        ghost var was := emitted;
        NotMoreUnmarked(old(emitted), was);
        ghost var t := Emit(ci[j], depth);
        CompleteOnward(procs, old(emitted), was, emitted, {});
        KeepMarks(was, emitted, ci, j);
        if !was[ci[j]] {
          FlattenSnoc(ts, t, depth);
          FromSnoc(procs, ts, ci, j, t);
          ts := ts + [t];
        } else {
          FromSkip(procs, ts, ci, j);
        }
        j := j + 1;
      }
    }

    /** The last loop: whatever the roots did not reach becomes a root. */
    method EmitRest(ghost reached: seq<bool>) returns (ghost ts: seq<Tree>)
      requires Consistent() && Marked(|procs|, emitted, rows) && |procs| == |emitted| && reached == emitted
      modifies this
      ensures Consistent() && |emitted| == |procs| && Marked(|procs|, emitted, rows)
      ensures forall k :: 0 <= k < |procs| ==> emitted[k]
      ensures forall i :: 0 <= i < |ts| ==> Faithful(procs, ts[i]) && ts[i].k < |procs| && !reached[ts[i].k]
      ensures rows == old(rows) + FlattenAll(ts, 0)
    {
      hide Marked, NewComplete, Faithful, From, FlattenAll, Flatten, Written;
      ts := [];
      FromNothing(procs, [], 0);
      for k := 0 to |procs|
        invariant Consistent() && |emitted| == |procs| && Marked(|procs|, emitted, rows) && Grew(reached, emitted)
        invariant forall j :: 0 <= j < k ==> emitted[j]
        invariant forall i :: 0 <= i < |ts| ==> Faithful(procs, ts[i]) && ts[i].k < |procs| && !reached[ts[i].k]
        invariant rows == old(rows) + FlattenAll(ts, 0)
      {
        if !emitted[k] {
          ghost var t := Emit(k, 0);
          FlattenSnoc(ts, t, 0);
          ts := ts + [t];
        }
      }
    }

    /** The threads to draw under process k, in order. */
    method SortedThreads(k: nat) returns (ti: seq<nat>)
      requires k < |members| && forall i :: 0 <= i < |members[k]| ==> members[k][i] < |items|
      ensures BlockOk(items, members[k], ti)
    {
      if |members[k]| > 1 {
        ti := SortIdx(items, members[k]);
      } else {
        ti := [];
      }
    }

    /** The loop that draws them. */
    method DrawThreads(ti: seq<nat>, depth: nat)
      modifies this`out
      ensures out == old(out) + ThreadRows(ti, depth)
    {
      for j := 0 to |ti|
        invariant out == old(out) + ThreadRows(ti[..j], depth)
      {
        out := out + [ThreadRow(ti[j], depth)];
        assert ThreadRows(ti[..j + 1], depth) == ThreadRows(ti[..j], depth) + [ThreadRow(ti[j], depth)];
      }
      assert ti[..|ti|] == ti;
    }

    /** The processes whose parent is not listed, each once, in order. */
    method Roots() returns (roots: seq<nat>)
      ensures SortedIdx(procs, roots)
      ensures forall y :: 0 <= y < |roots| ==> roots[y] < |procs| && !Listed(procs, roots[y])
      ensures forall k :: 0 <= k < |procs| && !Listed(procs, k) ==> k in roots
      ensures Distinct(roots)
    {
      hide SortedIdx;
      var found: seq<nat> := [];
      for k := 0 to |procs|
        invariant Ascending(found, k)
        invariant forall y :: 0 <= y < |found| ==> found[y] < |procs| && !Listed(procs, found[y])
        invariant forall i :: 0 <= i < k && !Listed(procs, i) ==> i in found
      {
        var j := 0;
        while j < |procs| && procs[j].pid != procs[k].ppid
          invariant j <= |procs| && forall i :: 0 <= i < j ==> procs[i].pid != procs[k].ppid
        {
          j := j + 1;
        }
        if j == |procs| { found := found + [k]; }
      }
      roots := SortIdx(procs, found);
      SameMembers(roots, found);
      AscendingPermuted(found, |procs|, roots);
    }

    /** The unemitted processes whose parent is k, each once, in order. */
    method Children(k: nat) returns (ci: seq<nat>)
      requires k < |procs| == |emitted|
      ensures SortedIdx(procs, ci)
      ensures forall y :: 0 <= y < |ci| ==> ci[y] < |procs| && !emitted[ci[y]] && ChildOf(procs, ci[y], k)
      ensures forall j :: 0 <= j < |procs| && !emitted[j] && ChildOf(procs, j, k) ==> j in ci
      ensures Distinct(ci)
    {
      hide SortedIdx;
      var found: seq<nat> := [];
      for j := 0 to |procs|
        invariant Ascending(found, j)
        invariant forall y :: 0 <= y < |found| ==> found[y] < |procs| && !emitted[found[y]] && ChildOf(procs, found[y], k)
        invariant forall i :: 0 <= i < j && !emitted[i] && ChildOf(procs, i, k) ==> i in found
      {
        if j != k && !emitted[j] && procs[j].ppid == procs[k].pid { found := found + [j]; }
      }
      ci := SortIdx(procs, found);
      SameMembers(ci, found);
      AscendingPermuted(found, |procs|, ci);
    }
  }

  /** Once the children that were unmarked have been drawn, k itself is complete. */
  lemma {:induction false} NowComplete(procs: seq<Proc>, before: seq<bool>, first: seq<bool>, after: seq<bool>, k: nat, ci: seq<nat>)
    requires k < |procs| == |before| && first == before[k := true] && Grew(first, after)
    requires forall y :: 0 <= y < |ci| ==> ci[y] < |procs| && after[ci[y]]
    requires forall j :: 0 <= j < |procs| && !first[j] && ChildOf(procs, j, k) ==> j in ci
    requires NewComplete(procs, first, after, {})
    ensures Grew(before, after) && after[k] && NewComplete(procs, before, after, {})
  {
    assert Complete(procs, after, k);
  }

  // ---------------------------------------------------------------- the whole tree

  /** Process k is n generations below a process whose parent is not listed. */
  predicate Descends(procs: seq<Proc>, k: nat, n: nat)
    requires k < |procs|
    decreases n
  {
    if n == 0 then !Listed(procs, k)
    else exists p :: 0 <= p < |procs| && ChildOf(procs, k, p) && Descends(procs, p, n - 1)
  }

  /** A mark on every root, and on every child of a marked process, reaches every
      descendant of a root. */
  lemma {:induction false} DescendantsMarked(procs: seq<Proc>, emitted: seq<bool>, k: nat, n: nat)
    requires k < |procs| == |emitted| && Descends(procs, k, n)
    requires forall r :: 0 <= r < |procs| && !Listed(procs, r) ==> emitted[r]
    requires forall x :: 0 <= x < |procs| && emitted[x] ==> Complete(procs, emitted, x)
    ensures emitted[k]
    decreases n
  {
    if n > 0 {
      var p :| 0 <= p < |procs| && ChildOf(procs, k, p) && Descends(procs, p, n - 1);
      DescendantsMarked(procs, emitted, p, n - 1);
    }
  }

  /** What the drawing promises: `trees` are faithful; the first `m` start at the
      processes without a listed parent, in order; the others start inside
      parent cycles, out of reach of any such process. */
  ghost predicate Drawn(procs: seq<Proc>, trees: seq<Tree>, m: nat) {
    && m <= |trees|
    && (forall i :: 0 <= i < |trees| ==> Faithful(procs, trees[i]))
    && InOrder(procs, trees[..m])
    && (forall i :: 0 <= i < m ==> !Listed(procs, trees[i].k))
    && (forall i, n: nat :: m <= i < |trees| ==> !Descends(procs, trees[i].k, n))
  }

  /** Every process has exactly one row. */
  predicate Permutation(rows: seq<Row>, np: nat) {
    && (forall i :: 0 <= i < |rows| ==> rows[i].k < np)
    && (forall i, j :: 0 <= i < j < |rows| ==> rows[i].k != rows[j].k)
    && (forall k :: 0 <= k < np ==> HasRow(rows, k))
  }

  /** The drawing common to `picker_build_tree` and `topo_build_rows`: every process
      exactly once, each followed by its threads. */
  method BuildTree(procs: seq<Proc>, items: seq<Proc>, members: seq<seq<nat>>)
    returns (out: seq<Drawing>, ghost rows: seq<Row>, ghost blocks: seq<seq<nat>>, ghost trees: seq<Tree>, ghost m: nat)
    requires |members| == |procs|
    requires forall k, i :: 0 <= k < |members| && 0 <= i < |members[k]| ==> members[k][i] < |items|
    ensures Permutation(rows, |procs|)
    ensures rows == FlattenAll(trees, 0)
    ensures Drawn(procs, trees, m)
    ensures Written(items, members, rows, blocks, out)
  {
    hide NewComplete, Complete, FlattenAll, SortedIdx, Grew, Drawn, From, Listed, Written, BlockOk;
    var f := new Forest(procs, items, members);
    ghost var none := f.emitted;
    NothingWritten(items, members);
    assert Marked(|procs|, f.emitted, f.rows);
    var roots := f.Roots();
    ghost var first := f.EmitAll(roots, 0);
    ghost var reached := f.emitted;
    ghost var rest := f.EmitRest(reached);
    out, rows, blocks, trees, m := f.out, f.rows, f.blocks, first + rest, |first|;
    FlattenConcat(first, rest, 0);
    NothingNew(procs, none);
    AllDrawn(procs, none, reached, roots, first, rest);
  }

  lemma {:induction false} FlattenConcat(a: seq<Tree>, b: seq<Tree>, depth: nat)
    ensures FlattenAll(a + b, depth) == FlattenAll(a, depth) + FlattenAll(b, depth)
    decreases |b|
  {
    if b == [] {
      assert a + b == a;
    } else {
      var last := |b| - 1;
      assert (a + b)[..|a + b| - 1] == a + b[..last];
      FlattenConcat(a, b[..last], depth);
    }
  }

  lemma {:induction false} AllDrawn(procs: seq<Proc>, none: seq<bool>, reached: seq<bool>, roots: seq<nat>,
                                    first: seq<Tree>, rest: seq<Tree>)
    requires |procs| == |none| == |reached|
    requires forall k :: 0 <= k < |procs| ==> !none[k]
    requires NewComplete(procs, none, reached, {})
    requires forall y :: 0 <= y < |roots| ==> roots[y] < |procs| && !Listed(procs, roots[y]) && reached[roots[y]]
    requires forall k :: 0 <= k < |procs| && !Listed(procs, k) ==> k in roots
    requires From(procs, first, roots, |roots|)
    requires forall i :: 0 <= i < |rest| ==> Faithful(procs, rest[i]) && rest[i].k < |procs| && !reached[rest[i].k]
    ensures Drawn(procs, first + rest, |first|)
  {
    hide Faithful, Listed;
    var trees := first + rest;
    assert trees[..|first|] == first;
    forall i, n: nat | |first| <= i < |trees| ensures !Descends(procs, trees[i].k, n) {
      assert trees[i] == rest[i - |first|];
      if Descends(procs, trees[i].k, n) { DescendantsMarked(procs, reached, trees[i].k, n); }
    }
  }

  // ---------------------------------------------------------------- sums over rows

  function SumRows(rows: seq<Row>, f: seq<nat>): nat
    requires forall i :: 0 <= i < |rows| ==> rows[i].k < |f|
  {
    if rows == [] then 0 else SumRows(rows[..|rows| - 1], f) + f[rows[|rows| - 1].k]
  }

  function Sum(f: seq<nat>): nat { if f == [] then 0 else Sum(f[..|f| - 1]) + f[|f| - 1] }

  lemma {:induction false} SumRowsSplit(a: seq<Row>, b: seq<Row>, f: seq<nat>)
    requires forall i :: 0 <= i < |a| ==> a[i].k < |f|
    requires forall i :: 0 <= i < |b| ==> b[i].k < |f|
    ensures SumRows(a + b, f) == SumRows(a, f) + SumRows(b, f)
  {
    if b == [] {
      assert a + b == a;
    } else {
      assert (a + b)[..|a + b| - 1] == a + b[..|b| - 1];
      SumRowsSplit(a, b[..|b| - 1], f);
    }
  }

  lemma {:induction false} SumRowsPrefix(rows: seq<Row>, f: seq<nat>)
    requires f != [] && forall i :: 0 <= i < |rows| ==> rows[i].k < |f| - 1
    ensures SumRows(rows, f) == SumRows(rows, f[..|f| - 1])
  {
    if rows != [] { SumRowsPrefix(rows[..|rows| - 1], f); }
  }

  lemma {:induction false} SumWithout(rows: seq<Row>, i: nat, f: seq<nat>)
    requires i < |rows| && forall j :: 0 <= j < |rows| ==> rows[j].k < |f|
    ensures SumRows(rows, f) == SumRows(rows[..i] + rows[i + 1..], f) + f[rows[i].k]
  {
    var a, x, b := rows[..i], [rows[i]], rows[i + 1..];
    assert rows == (a + x) + b && x[..0] == [];
    SumRowsSplit(a + x, b, f);
    SumRowsSplit(a, x, f);
    SumRowsSplit(a, b, f);
  }

  /** Summing over the rows of a permutation is summing over the processes; in
      particular there are as many rows as processes. */
  lemma {:induction false} RowsSumToTotal(rows: seq<Row>, f: seq<nat>)
    requires Permutation(rows, |f|)
    ensures SumRows(rows, f) == Sum(f)
    ensures |rows| == |f|
    decreases |f|
  {
    if f == [] {
      var any := if rows == [] then 0 else rows[0].k;
      assert rows == [];
    } else {
      var np := |f| - 1;
      assert HasRow(rows, np);
      var i :| 0 <= i < |rows| && rows[i].k == np;
      RemoveRow(rows, i, np);
      LastRowRemoved(rows, i, f);
    }
  }

  lemma {:induction false} LastRowRemoved(rows: seq<Row>, i: nat, f: seq<nat>)
    requires f != [] && i < |rows| && rows[i].k == |f| - 1
    requires forall j :: 0 <= j < |rows| ==> rows[j].k < |f|
    requires Permutation(rows[..i] + rows[i + 1..], |f| - 1)
    ensures SumRows(rows, f) == Sum(f)
    ensures |rows| == |f|
    decreases |f|, 0
  {
    hide SumRows, HasRow;
    var rest := rows[..i] + rows[i + 1..];
    RowsSumToTotal(rest, f[..|f| - 1]);
    SumRowsPrefix(rest, f);
    SumWithout(rows, i, f);
  }

  lemma {:induction false} RemoveRow(rows: seq<Row>, i: nat, np: nat)
    requires Permutation(rows, np + 1) && i < |rows| && rows[i].k == np
    ensures Permutation(rows[..i] + rows[i + 1..], np)
  {
    var rest := rows[..i] + rows[i + 1..];
    forall k | 0 <= k < np ensures HasRow(rest, k) {
      assert HasRow(rows, k);
      var j :| 0 <= j < |rows| && rows[j].k == k;
      assert rest[if j < i then j else j - 1] == rows[j];
    }
  }
}
