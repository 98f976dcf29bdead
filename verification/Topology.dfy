/** The two users of the forest walk: the picker's rows (`picker_build_tree`) and the
    topology of processes and threads (`topo_build_rows`). */
module Topology {
  import opened Common
  import opened ProcessForest
  import opened ForestLayout

  // ---------------------------------------------------------------- the picker

  /** A process of the picker's list. */
  datatype Listing = Listing(pid: int, ppid: int)

  /** The picker orders siblings by pid alone. */
  function AsProcs(listed: seq<Listing>): (procs: seq<Proc>)
    ensures |procs| == |listed|
    ensures forall k :: 0 <= k < |listed| ==> procs[k] == Proc(listed[k].pid, listed[k].ppid, 0, 0)
  {
    seq(|listed|, k requires 0 <= k < |listed| => Proc(listed[k].pid, listed[k].ppid, 0, 0))
  }

  /** The process rows of a drawing. */
  function Rows(out: seq<Drawing>): seq<Row> {
    if out == [] then []
    else
      var last := out[|out| - 1];
      Rows(out[..|out| - 1]) + (if last.ProcessRow? then [Row(last.k, last.depth)] else [])
  }

  lemma {:induction false} RowsOfThreads(out: seq<Drawing>, block: seq<nat>, depth: nat)
    ensures Rows(out + ThreadRows(block, depth)) == Rows(out)
    decreases |block|
  {
    if block == [] {
      assert out + ThreadRows(block, depth) == out;
    } else {
      var last := |block| - 1;
      var all := out + ThreadRows(block, depth);
      assert ThreadRows(block, depth)[..last] == ThreadRows(block[..last], depth);
      assert all[..|all| - 1] == out + ThreadRows(block[..last], depth);
      RowsOfThreads(out, block[..last], depth);
    }
  }

  /** The process rows of a drawing are the rows it was made from. */
  lemma {:induction false} RowsOfExpand(rows: seq<Row>, blocks: seq<seq<nat>>)
    requires |rows| == |blocks|
    ensures Rows(Expand(rows, blocks)) == rows
  {
    if rows != [] {
      var last := |rows| - 1;
      var before, row := Expand(rows[..last], blocks[..last]), [ProcessRow(rows[last].k, rows[last].depth)];
      RowsOfExpand(rows[..last], blocks[..last]);
      assert (before + row)[..|before|] == before;
      RowsOfThreads(before + row, blocks[last], rows[last].depth + 1);
    }
  }

  /** `picker_build_tree`: every process once; each row hangs under its parent's, one
      level deeper, siblings by pid, and the top level holds first the processes whose
      parent is not listed and then some that none of these leads to. */
  method PickerBuildTree(listed: seq<Listing>) returns (out: seq<Drawing>)
    ensures |out| == |listed| && forall i :: 0 <= i < |out| ==> out[i].ProcessRow? && out[i].k < |listed|
    ensures forall i, j :: 0 <= i < j < |out| ==> out[i].k != out[j].k
    ensures Outline(seq(|listed|, k requires 0 <= k < |listed| => Proc(listed[k].pid, listed[k].ppid, 0, 0)), Rows(out))
  {
    hide Drawn, FlattenAll, Outline, Permutation, Written, AsProcs;
    var none: seq<seq<nat>> := seq(|listed|, _ => []);
    ghost var rows, blocks, trees, m;
    out, rows, blocks, trees, m := BuildTree(AsProcs(listed), [], none);
    PickerRows(none, rows, blocks, out);
    DrawnOutline(AsProcs(listed), trees, m);
    assert AsProcs(listed) == seq(|listed|, k requires 0 <= k < |listed| => Proc(listed[k].pid, listed[k].ppid, 0, 0));
  }

  /** Without threads the drawing is its process rows. */
  lemma {:induction false} PickerRows(none: seq<seq<nat>>, rows: seq<Row>, blocks: seq<seq<nat>>, out: seq<Drawing>)
    requires forall k :: 0 <= k < |none| ==> none[k] == []
    requires Permutation(rows, |none|) && Written([], none, rows, blocks, out)
    ensures Rows(out) == rows && |out| == |none|
    ensures forall i :: 0 <= i < |out| ==> out[i].ProcessRow? && out[i].k < |none|
    ensures forall i, j :: 0 <= i < j < |out| ==> out[i].k != out[j].k
  {
    hide SumRows, Expand, Rows;
    NoThreads(rows, blocks);
    RowsOfExpand(rows, blocks);
    RowsSumToTotal(rows, seq(|none|, _ => 0));
  }

  function ProcessRows(rows: seq<Row>): (out: seq<Drawing>)
    ensures |out| == |rows| && forall i :: 0 <= i < |rows| ==> out[i] == ProcessRow(rows[i].k, rows[i].depth)
  {
    seq(|rows|, i requires 0 <= i < |rows| => ProcessRow(rows[i].k, rows[i].depth))
  }

  lemma {:induction false} NoThreads(rows: seq<Row>, blocks: seq<seq<nat>>)
    requires |rows| == |blocks| && forall i :: 0 <= i < |blocks| ==> blocks[i] == []
    ensures Expand(rows, blocks) == ProcessRows(rows)
  {
    if rows != [] {
      var last := |rows| - 1;
      NoThreads(rows[..last], blocks[..last]);
      assert ProcessRows(rows) == ProcessRows(rows[..last]) + [ProcessRow(rows[last].k, rows[last].depth)];
    }
  }

  // ---------------------------------------------------------------- the topology

  /** One task of the snapshot. */
  datatype Task = Task(tid: int, tgid: int, ppid: int, leader: bool, inv: nat)

  /** One process: the tasks that share a tgid. */
  datatype Agg = Agg(tgid: int, ppid: int, inv: nat, members: seq<nat>)

  function TotalInv(tasks: seq<Task>): nat {
    if tasks == [] then 0 else TotalInv(tasks[..|tasks| - 1]) + tasks[|tasks| - 1].inv
  }

  function InvOf(tasks: seq<Task>, g: int): nat {
    if tasks == [] then 0
    else InvOf(tasks[..|tasks| - 1], g) + (if tasks[|tasks| - 1].tgid == g then tasks[|tasks| - 1].inv else 0)
  }

  /** The parent of a process: its leader's latest word, else its first task's. */
  function PpidOf(tasks: seq<Task>, g: int): int
    requires HasTask(tasks, g)
  {
    var before, t := tasks[..|tasks| - 1], tasks[|tasks| - 1];
    if t.tgid == g && (t.leader || !HasTask(before, g)) then t.ppid else PpidOf(before, g)
  }

  predicate HasTask(tasks: seq<Task>, g: int) {
    tasks != [] && (tasks[|tasks| - 1].tgid == g || HasTask(tasks[..|tasks| - 1], g))
  }

  /** The tasks of a process, by their position in the snapshot. */
  function MembersOf(tasks: seq<Task>, g: int): (ids: seq<nat>)
    ensures Ascending(ids, |tasks|)
    ensures forall i :: 0 <= i < |tasks| && tasks[i].tgid == g ==> i in ids
    ensures forall i :: i in ids ==> i < |tasks| && tasks[i].tgid == g
  {
    if tasks == [] then []
    else
      var last := |tasks| - 1;
      MembersOf(tasks[..last], g) + (if tasks[last].tgid == g then [last] else [])
  }

  function Invs(aggs: seq<Agg>): (f: seq<nat>)
    ensures |f| == |aggs| && forall k :: 0 <= k < |aggs| ==> f[k] == aggs[k].inv
  {
    seq(|aggs|, k requires 0 <= k < |aggs| => aggs[k].inv)
  }

  /** One aggregate per tgid, with the exact sum of its tasks. */
  ghost predicate Aggregates(aggs: seq<Agg>, tasks: seq<Task>) {
    && (forall i, j :: 0 <= i < j < |aggs| ==> aggs[i].tgid != aggs[j].tgid)
    && (forall i :: 0 <= i < |aggs| ==>
          && HasTask(tasks, aggs[i].tgid)
          && aggs[i].inv == InvOf(tasks, aggs[i].tgid)
          && aggs[i].ppid == PpidOf(tasks, aggs[i].tgid)
          && aggs[i].members == MembersOf(tasks, aggs[i].tgid))
    && (forall g :: HasTask(tasks, g) ==> exists i :: 0 <= i < |aggs| && aggs[i].tgid == g)
    && Sum(Invs(aggs)) == TotalInv(tasks)
  }

  lemma {:induction false} SumSnoc(f: seq<nat>, x: nat)
    ensures Sum(f + [x]) == Sum(f) + x
  {
    assert (f + [x])[..|f|] == f;
  }

  lemma {:induction false} SumUpdate(f: seq<nat>, k: nat, x: nat)
    requires k < |f|
    ensures Sum(f[k := f[k] + x]) == Sum(f) + x
  {
    var last := |f| - 1;
    if k < last {
      SumUpdate(f[..last], k, x);
      assert f[k := f[k] + x][..last] == f[..last][k := f[k] + x];
    } else {
      assert f[k := f[k] + x][..last] == f[..last];
    }
  }

  lemma {:induction false} NoTaskNoInv(tasks: seq<Task>, g: int)
    requires !HasTask(tasks, g)
    ensures InvOf(tasks, g) == 0 && MembersOf(tasks, g) == []
  {
    if tasks != [] { NoTaskNoInv(tasks[..|tasks| - 1], g); }
  }

  /** What one more task does to the sums of a tgid. */
  lemma {:induction false} TaskSnoc(tasks: seq<Task>, t: Task, g: int)
    ensures HasTask(tasks + [t], g) <==> HasTask(tasks, g) || t.tgid == g
    ensures InvOf(tasks + [t], g) == InvOf(tasks, g) + (if t.tgid == g then t.inv else 0)
    ensures TotalInv(tasks + [t]) == TotalInv(tasks) + t.inv
    ensures MembersOf(tasks + [t], g) == MembersOf(tasks, g) + (if t.tgid == g then [|tasks|] else [])
    ensures HasTask(tasks + [t], g) ==>
              PpidOf(tasks + [t], g) ==
                if t.tgid == g && (t.leader || !HasTask(tasks, g)) then t.ppid else PpidOf(tasks, g)
  {
    assert (tasks + [t])[..|tasks|] == tasks;
  }

  lemma {:induction false} AggregateNew(aggs: seq<Agg>, tasks: seq<Task>, t: Task)
    requires Aggregates(aggs, tasks) && forall j :: 0 <= j < |aggs| ==> aggs[j].tgid != t.tgid
    ensures Aggregates(aggs + [Agg(t.tgid, t.ppid, t.inv, [|tasks|])], tasks + [t])
  {
    hide InvOf, PpidOf, HasTask, TotalInv, Sum, MembersOf;
    var aggs' := aggs + [Agg(t.tgid, t.ppid, t.inv, [|tasks|])];
    NoTaskNoInv(tasks, t.tgid);
    forall i | 0 <= i < |aggs'| ensures && HasTask(tasks + [t], aggs'[i].tgid)
                                         && aggs'[i].inv == InvOf(tasks + [t], aggs'[i].tgid)
                                         && aggs'[i].ppid == PpidOf(tasks + [t], aggs'[i].tgid)
                                         && aggs'[i].members == MembersOf(tasks + [t], aggs'[i].tgid)
    {
      TaskSnoc(tasks, t, aggs'[i].tgid);
    }
    forall g | HasTask(tasks + [t], g) ensures exists i :: 0 <= i < |aggs'| && aggs'[i].tgid == g {
      TaskSnoc(tasks, t, g);
      if HasTask(tasks, g) {
        var i :| 0 <= i < |aggs| && aggs[i].tgid == g;
        assert aggs'[i].tgid == g;
      } else {
        assert aggs'[|aggs|].tgid == g;
      }
    }
    TaskSnoc(tasks, t, t.tgid);
    assert Invs(aggs') == Invs(aggs) + [t.inv];
    SumSnoc(Invs(aggs), t.inv);
  }

  lemma {:induction false} AggregateAgain(aggs: seq<Agg>, tasks: seq<Task>, t: Task, k: nat)
    requires Aggregates(aggs, tasks) && k < |aggs| && aggs[k].tgid == t.tgid
    ensures var a := Agg(t.tgid, if t.leader then t.ppid else aggs[k].ppid, aggs[k].inv + t.inv, aggs[k].members + [|tasks|]);
            Aggregates(aggs[k := a], tasks + [t])
  {
    hide InvOf, PpidOf, HasTask, TotalInv, Sum, MembersOf;
    var a := Agg(t.tgid, if t.leader then t.ppid else aggs[k].ppid, aggs[k].inv + t.inv, aggs[k].members + [|tasks|]);
    var aggs' := aggs[k := a];
    forall i | 0 <= i < |aggs'| ensures && HasTask(tasks + [t], aggs'[i].tgid)
                                         && aggs'[i].inv == InvOf(tasks + [t], aggs'[i].tgid)
                                         && aggs'[i].ppid == PpidOf(tasks + [t], aggs'[i].tgid)
                                         && aggs'[i].members == MembersOf(tasks + [t], aggs'[i].tgid)
    {
      TaskSnoc(tasks, t, aggs'[i].tgid);
    }
    forall g | HasTask(tasks + [t], g) ensures exists i :: 0 <= i < |aggs'| && aggs'[i].tgid == g {
      TaskSnoc(tasks, t, g);
      var i :| 0 <= i < |aggs| && aggs[i].tgid == g;
      assert aggs'[i].tgid == g;
    }
    TaskSnoc(tasks, t, t.tgid);
    assert Invs(aggs') == Invs(aggs)[k := Invs(aggs)[k] + t.inv];
    SumUpdate(Invs(aggs), k, t.inv);
  }

  /** The parent of a process: its last leader's word, or its first task's if it has
      no leader. */
  lemma {:induction false} ParentIsTheLeaders(tasks: seq<Task>, g: int) returns (j: nat)
    requires HasTask(tasks, g)
    ensures j < |tasks| && tasks[j].tgid == g && PpidOf(tasks, g) == tasks[j].ppid
    ensures tasks[j].leader ==> forall i :: j < i < |tasks| ==> !(tasks[i].tgid == g && tasks[i].leader)
    ensures !tasks[j].leader ==> forall i :: 0 <= i < |tasks| && tasks[i].tgid == g ==> i >= j && !tasks[i].leader
  {
    var last := |tasks| - 1;
    var before, t := tasks[..last], tasks[last];
    HasTaskMeans(before, g);
    if t.tgid == g && (t.leader || !HasTask(before, g)) {
      j := last;
    } else {
      j := ParentIsTheLeaders(before, g);
      assert forall i :: 0 <= i < last ==> tasks[i] == before[i];
    }
  }

  lemma {:induction false} HasTaskMeans(tasks: seq<Task>, g: int)
    ensures HasTask(tasks, g) <==> exists i :: 0 <= i < |tasks| && tasks[i].tgid == g
  {
    if tasks != [] {
      var before := tasks[..|tasks| - 1];
      HasTaskMeans(before, g);
      if HasTask(before, g) {
        var i :| 0 <= i < |before| && before[i].tgid == g;
        assert tasks[i].tgid == g;
      }
    }
  }

  /** The folding loop of `topo_build_rows`. */
  method Aggregate(tasks: seq<Task>) returns (aggs: seq<Agg>)
    ensures Aggregates(aggs, tasks)
  {
    hide Aggregates;
    aggs := [];
    NoAggregates();
    for i := 0 to |tasks|
      invariant Aggregates(aggs, tasks[..i])
    {
      var t := tasks[i];
      assert tasks[..i + 1] == tasks[..i] + [t];
      var k := 0;
      while k < |aggs| && aggs[k].tgid != t.tgid
        invariant k <= |aggs| && forall j :: 0 <= j < k ==> aggs[j].tgid != t.tgid
      {
        k := k + 1;
      }
      if k == |aggs| {
        AggregateNew(aggs, tasks[..i], t);
        aggs := aggs + [Agg(t.tgid, t.ppid, t.inv, [i])];
      } else {
        AggregateAgain(aggs, tasks[..i], t, k);
        aggs := aggs[k := Agg(t.tgid, if t.leader then t.ppid else aggs[k].ppid, aggs[k].inv + t.inv, aggs[k].members + [i])];
      }
    }
    assert tasks[..|tasks|] == tasks;
  }

  lemma {:induction false} NoAggregates()
    ensures Aggregates([], [])
  {}

  /** The order of the topology's siblings: most active first. */
  function Ranked(aggs: seq<Agg>): (procs: seq<Proc>)
    ensures |procs| == |aggs|
    ensures forall k :: 0 <= k < |aggs| ==> procs[k] == Proc(aggs[k].tgid, aggs[k].ppid, 0 - aggs[k].inv, 0)
  {
    seq(|aggs|, k requires 0 <= k < |aggs| => Proc(aggs[k].tgid, aggs[k].ppid, 0 - aggs[k].inv, 0))
  }

  /** The order of a process's threads: the leader, then the most active. */
  function Items(tasks: seq<Task>): (items: seq<Proc>)
    ensures |items| == |tasks|
    ensures forall i :: 0 <= i < |tasks| ==>
              items[i] == Proc(tasks[i].tid, tasks[i].tgid, 0 - tasks[i].inv, if tasks[i].leader then 0 else 1)
  {
    seq(|tasks|, i requires 0 <= i < |tasks| =>
      Proc(tasks[i].tid, tasks[i].tgid, 0 - tasks[i].inv, if tasks[i].leader then 0 else 1))
  }

  function MemberLists(aggs: seq<Agg>): (members: seq<seq<nat>>)
    ensures |members| == |aggs| && forall k :: 0 <= k < |aggs| ==> members[k] == aggs[k].members
  {
    seq(|aggs|, k requires 0 <= k < |aggs| => aggs[k].members)
  }

  /** The invocations of a list of tasks. */
  function SumTasks(tasks: seq<Task>, ids: seq<nat>): nat
    requires forall i :: 0 <= i < |ids| ==> ids[i] < |tasks|
  {
    if ids == [] then 0 else SumTasks(tasks, ids[..|ids| - 1]) + tasks[ids[|ids| - 1]].inv
  }

  lemma {:induction false} SumTasksWithout(tasks: seq<Task>, ids: seq<nat>, i: nat)
    requires i < |ids| && forall j :: 0 <= j < |ids| ==> ids[j] < |tasks|
    ensures SumTasks(tasks, ids) == SumTasks(tasks, ids[..i] + ids[i + 1..]) + tasks[ids[i]].inv
    decreases |ids|
  {
    var last := |ids| - 1;
    var rest := ids[..i] + ids[i + 1..];
    if i == last {
      assert rest == ids[..last];
    } else {
      SumTasksWithout(tasks, ids[..last], i);
      LastStays(ids, i);
    }
  }

  lemma {:induction false} LastStays(ids: seq<nat>, i: nat)
    requires i < |ids| - 1
    ensures var last := |ids| - 1;
            var rest := ids[..i] + ids[i + 1..];
            rest[..|rest| - 1] == ids[..last][..i] + ids[..last][i + 1..] && rest[|rest| - 1] == ids[last]
  {
    var last := |ids| - 1;
    var rest := ids[..i] + ids[i + 1..];
    assert forall k :: 0 <= k < i ==> rest[k] == ids[k] == ids[..last][..i][k];
    assert forall k :: i <= k < last - 1 ==> rest[k] == ids[k + 1] == ids[..last][i + 1..][k - i];
  }

  lemma {:induction false} SumTasksPermuted(tasks: seq<Task>, a: seq<nat>, b: seq<nat>)
    requires multiset(a) == multiset(b)
    requires forall i :: 0 <= i < |a| ==> a[i] < |tasks|
    requires forall i :: 0 <= i < |b| ==> b[i] < |tasks|
    ensures SumTasks(tasks, a) == SumTasks(tasks, b)
    decreases |a|
  {
    hide SumTasks;
    SumOfNone(tasks);
    SameMembers(a, b);
    if a != [] {
      var last := |a| - 1;
      var i :| 0 <= i < |b| && b[i] == a[last];
      RestPermuted(a, b, i);
      SumTasksPermuted(tasks, a[..last], b[..i] + b[i + 1..]);
      SumTasksWithout(tasks, b, i);
      SumTasksWithout(tasks, a, last);
      assert a[..last] + a[last + 1..] == a[..last];
    }
  }

  lemma {:induction false} SumOfNone(tasks: seq<Task>)
    ensures SumTasks(tasks, []) == 0
  {}

  lemma {:induction false} SumTasksPrefix(tasks: seq<Task>, n: nat, ids: seq<nat>)
    requires n <= |tasks| && forall i :: 0 <= i < |ids| ==> ids[i] < n
    ensures SumTasks(tasks, ids) == SumTasks(tasks[..n], ids)
  {
    if ids != [] { SumTasksPrefix(tasks, n, ids[..|ids| - 1]); }
  }

  /** The tasks of a process carry all its invocations. */
  lemma {:induction false} MembersCarryAll(tasks: seq<Task>, g: int)
    ensures SumTasks(tasks, MembersOf(tasks, g)) == InvOf(tasks, g)
  {
    if tasks != [] {
      var last := |tasks| - 1;
      var ids := MembersOf(tasks[..last], g);
      MembersCarryAll(tasks[..last], g);
      SumTasksPrefix(tasks, last, ids);
      assert (ids + [last])[..|ids|] == ids && ids + [] == ids;
    }
  }

  /** The leader first, then the more active, then the lower id. */
  predicate ThreadBefore(a: Task, b: Task) {
    || (a.leader && !b.leader)
    || (a.leader == b.leader && a.inv > b.inv)
    || (a.leader == b.leader && a.inv == b.inv && a.tid <= b.tid)
  }

  /** Under a process drawn with its threads stand exactly its tasks, each once, and
      their invocations add up to the process's own. */
  ghost predicate ThreadsAddUp(aggs: seq<Agg>, tasks: seq<Task>, rows: seq<Row>, blocks: seq<seq<nat>>) {
    && |rows| == |blocks|
    && forall i :: 0 <= i < |rows| ==>
         && rows[i].k < |aggs|
         && (forall j :: 0 <= j < |blocks[i]| ==> blocks[i][j] < |tasks|)
         && Distinct(blocks[i])
         && (forall x, y :: 0 <= x < y < |blocks[i]| ==> ThreadBefore(tasks[blocks[i][x]], tasks[blocks[i][y]]))
         && (if |aggs[rows[i].k].members| > 1
             then (forall t :: t in blocks[i] <==> 0 <= t < |tasks| && tasks[t].tgid == aggs[rows[i].k].tgid)
                  && SumTasks(tasks, blocks[i]) == aggs[rows[i].k].inv
             else blocks[i] == [])
  }

  lemma {:induction false} BlockAddsUp(agg: Agg, tasks: seq<Task>, block: seq<nat>)
    requires agg.members == MembersOf(tasks, agg.tgid) && agg.inv == InvOf(tasks, agg.tgid)
    requires BlockOk(Items(tasks), agg.members, block)
    ensures (forall j :: 0 <= j < |block| ==> block[j] < |tasks|) && Distinct(block)
    ensures forall x, y :: 0 <= x < y < |block| ==> ThreadBefore(tasks[block[x]], tasks[block[y]])
    ensures if |agg.members| > 1
            then (forall t :: t in block <==> 0 <= t < |tasks| && tasks[t].tgid == agg.tgid)
                 && SumTasks(tasks, block) == agg.inv
            else block == []
  {
    hide SumTasks, InvOf, MembersOf;
    SameMembers(block, Threads(agg.members));
    if |agg.members| > 1 {
      AscendingPermuted(agg.members, |tasks|, block);
      SumTasksPermuted(tasks, block, agg.members);
      MembersCarryAll(tasks, agg.tgid);
    }
  }

  /** Every thread row stands below the row of its process, with nothing but other
      threads between, one level deeper. */
  ghost predicate ThreadsBelow(out: seq<Drawing>, aggs: seq<Agg>, tasks: seq<Task>) {
    forall i :: 0 <= i < |out| && out[i].ThreadRow? ==> exists j :: 0 <= j < i && ThreadOf(out, aggs, tasks, i, j)
  }

  predicate ThreadOf(out: seq<Drawing>, aggs: seq<Agg>, tasks: seq<Task>, i: nat, j: nat)
    requires j < i < |out| && out[i].ThreadRow?
  {
    && out[j].ProcessRow? && out[j].k < |aggs| && out[i].task < |tasks|
    && tasks[out[i].task].tgid == aggs[out[j].k].tgid
    && out[i].depth == out[j].depth + 1
    && forall m :: j < m < i ==> out[m].ThreadRow?
  }

  lemma {:induction false} ExpandBelow(out: seq<Drawing>, k: nat, depth: nat, block: seq<nat>, aggs: seq<Agg>, tasks: seq<Task>)
    requires ThreadsBelow(out, aggs, tasks) && k < |aggs|
    requires forall x :: 0 <= x < |block| ==> block[x] < |tasks| && tasks[block[x]].tgid == aggs[k].tgid
    ensures ThreadsBelow(out + [ProcessRow(k, depth)] + ThreadRows(block, depth + 1), aggs, tasks)
  {
    var all := out + [ProcessRow(k, depth)] + ThreadRows(block, depth + 1);
    assert forall m :: 0 <= m < |out| ==> all[m] == out[m];
    assert all[|out|] == ProcessRow(k, depth);
    assert forall m :: |out| < m < |all| ==> all[m] == ThreadRow(block[m - |out| - 1], depth + 1);
    forall i | 0 <= i < |all| && all[i].ThreadRow? ensures exists j :: 0 <= j < i && ThreadOf(all, aggs, tasks, i, j) {
      if i < |out| {
        var j :| 0 <= j < i && ThreadOf(out, aggs, tasks, i, j);
        assert ThreadOf(all, aggs, tasks, i, j);
      } else {
        assert ThreadOf(all, aggs, tasks, i, |out|);
      }
    }
  }

  lemma {:induction false} AllBelow(rows: seq<Row>, blocks: seq<seq<nat>>, aggs: seq<Agg>, tasks: seq<Task>)
    requires ThreadsAddUp(aggs, tasks, rows, blocks)
    ensures ThreadsBelow(Expand(rows, blocks), aggs, tasks)
    decreases |rows|
  {
    hide ThreadsBelow, ThreadBefore, SumTasks, Distinct;
    if rows == [] {
      NoneBelow(aggs, tasks);
    } else {
      var last := |rows| - 1;
      AllBelow(rows[..last], blocks[..last], aggs, tasks);
      forall x | 0 <= x < |blocks[last]|
        ensures blocks[last][x] < |tasks| && tasks[blocks[last][x]].tgid == aggs[rows[last].k].tgid
      {
        assert blocks[last][x] in blocks[last];
      }
      ExpandBelow(Expand(rows[..last], blocks[..last]), rows[last].k, rows[last].depth, blocks[last], aggs, tasks);
    }
  }

  lemma {:induction false} NoneBelow(aggs: seq<Agg>, tasks: seq<Task>)
    ensures ThreadsBelow([], aggs, tasks)
  {}

  /** `topo_build_rows`: one process row per tgid, laid out as a forest with the most
      active siblings first; together they carry every invocation of every task, and
      each is followed by its threads, one level deeper, which carry those of their
      process. */
  method TopoBuildRows(tasks: seq<Task>)
    returns (aggs: seq<Agg>, out: seq<Drawing>, ghost blocks: seq<seq<nat>>)
    ensures Aggregates(aggs, tasks)
    ensures Permutation(Rows(out), |aggs|) && |Rows(out)| == |aggs|
    ensures Outline(seq(|aggs|, k requires 0 <= k < |aggs| => Proc(aggs[k].tgid, aggs[k].ppid, 0 - aggs[k].inv, 0)), Rows(out))
    ensures SumRows(Rows(out), Invs(aggs)) == TotalInv(tasks)
    ensures ThreadsAddUp(aggs, tasks, Rows(out), blocks)
    ensures ThreadsBelow(out, aggs, tasks)
  {
    hide Drawn, FlattenAll, Permutation, SumRows, ThreadsAddUp, MembersOf, InvOf, Outline, BlockOk, ThreadsBelow;
    aggs := Aggregate(tasks);
    ghost var rows, trees, m;
    out, rows, blocks, trees, m := BuildTree(Ranked(aggs), Items(tasks), MemberLists(aggs));
    RowsOfExpand(rows, blocks);
    RowsSumToTotal(rows, Invs(aggs));
    BlocksAddUp(aggs, tasks, rows, blocks, out);
    AllBelow(rows, blocks, aggs, tasks);
    DrawnOutline(Ranked(aggs), trees, m);
    assert Ranked(aggs) == seq(|aggs|, k requires 0 <= k < |aggs| => Proc(aggs[k].tgid, aggs[k].ppid, 0 - aggs[k].inv, 0));
  }

  lemma {:induction false} BlocksAddUp(aggs: seq<Agg>, tasks: seq<Task>, rows: seq<Row>, blocks: seq<seq<nat>>,
                                       out: seq<Drawing>)
    requires Aggregates(aggs, tasks) && Written(Items(tasks), MemberLists(aggs), rows, blocks, out)
    ensures ThreadsAddUp(aggs, tasks, rows, blocks)
  {
    hide SumTasks, InvOf, MembersOf, BlockOk, Expand, Distinct;
    forall i | 0 <= i < |rows|
      ensures && rows[i].k < |aggs|
              && (forall j :: 0 <= j < |blocks[i]| ==> blocks[i][j] < |tasks|)
              && Distinct(blocks[i])
              && (forall x, y :: 0 <= x < y < |blocks[i]| ==> ThreadBefore(tasks[blocks[i][x]], tasks[blocks[i][y]]))
              && (if |aggs[rows[i].k].members| > 1
                  then (forall t :: t in blocks[i] <==> 0 <= t < |tasks| && tasks[t].tgid == aggs[rows[i].k].tgid)
                       && SumTasks(tasks, blocks[i]) == aggs[rows[i].k].inv
                  else blocks[i] == [])
    {
      BlockAddsUp(aggs[rows[i].k], tasks, blocks[i]);
    }
  }
}
