/** The in-place run-length compaction of the sorted instruction offsets in
    `region_render`: distinct offsets to the front, each with its count. */
module OffsetCompaction {

  /** How often x occurs in the first n elements. */
  function Count(s: seq<nat>, n: nat, x: nat): nat
    requires n <= |s|
  {
    if n == 0 then 0 else Count(s, n - 1, x) + (if s[n - 1] == x then 1 else 0)
  }

  function Sum(s: seq<nat>): nat { if s == [] then 0 else Sum(s[..|s| - 1]) + s[|s| - 1] }

  predicate Sorted(s: seq<nat>) { forall i, j :: 0 <= i < j < |s| ==> s[i] <= s[j] }

  /** The runs of the first n elements: strictly increasing values, exact counts. */
  predicate Runs(was: seq<nat>, n: nat, vals: seq<nat>, cnts: seq<nat>)
    requires n <= |was|
  {
    && |vals| == |cnts| <= n
    && (forall i, j :: 0 <= i < j < |vals| ==> vals[i] < vals[j])
    && (forall i :: 0 <= i < |vals| ==> cnts[i] == Count(was, n, vals[i]) > 0)
    && (forall k :: 0 <= k < n ==> was[k] in vals)
    && (n > 0 ==> vals != [] && vals[|vals| - 1] == was[n - 1])
    && Sum(cnts) == n
  }

  lemma {:induction false} CountAbsent(s: seq<nat>, n: nat, x: nat)
    requires n <= |s| && forall k :: 0 <= k < n ==> s[k] != x
    ensures Count(s, n, x) == 0
  {
    if n > 0 { CountAbsent(s, n - 1, x); }
  }

  lemma {:induction false} SumSnoc(s: seq<nat>, x: nat)
    ensures Sum(s + [x]) == Sum(s) + x
  {
    assert (s + [x])[..|s|] == s;
  }

  lemma {:induction false} NewRun(was: seq<nat>, n: nat, vals: seq<nat>, cnts: seq<nat>)
    requires n < |was| && Sorted(was) && Runs(was, n, vals, cnts) && (n > 0 ==> was[n] != was[n - 1])
    ensures Runs(was, n + 1, vals + [was[n]], cnts + [1])
  {
    assert n > 0 ==> was[n - 1] < was[n];
    forall k | 0 <= k < n ensures was[k] < was[n] { assert was[k] <= was[n - 1]; }
    CountAbsent(was, n, was[n]);
    SumSnoc(cnts, 1);
    var vals' := vals + [was[n]];
    forall i | 0 <= i < |vals| ensures vals[i] < was[n] {
      assert vals[i] <= vals[|vals| - 1];
    }
    forall k | 0 <= k < n + 1 ensures was[k] in vals' {
      if k < n { assert was[k] in vals; } else { assert vals'[|vals|] == was[k]; }
    }
  }

  lemma {:induction false} SameRun(was: seq<nat>, n: nat, vals: seq<nat>, cnts: seq<nat>)
    requires 0 < n < |was| && Runs(was, n, vals, cnts) && was[n] == was[n - 1]
    ensures Runs(was, n + 1, vals, cnts[|cnts| - 1 := cnts[|cnts| - 1] + 1])
  {
    var last := |cnts| - 1;
    var cnts' := cnts[last := cnts[last] + 1];
    assert cnts'[..last] == cnts[..last];
    forall i | 0 <= i < last ensures cnts'[i] == Count(was, n + 1, vals[i]) {
      assert vals[i] < vals[last];
    }
  }

  /** The compaction loop.  It reads slots i and i - 1 after it may have written
      slots below nd; the second invariant is that it never reads a slot that no
      longer holds the sorted input. */
  method Compact(offs: array<nat>, cnts: array<nat>) returns (nd: nat)
    requires Sorted(offs[..]) && cnts.Length == offs.Length && cnts != offs
    modifies offs, cnts
    ensures nd <= offs.Length
    ensures Runs(old(offs[..]), offs.Length, offs[..nd], cnts[..nd])
  {
    hide Runs, Sorted;
    ghost var was: seq<nat> := offs[..];
    nd := 0;
    NoRuns(was);
    assert offs[..0] == [] && cnts[..0] == [];
    for i := 0 to offs.Length
      invariant nd <= i
      invariant forall k :: (if i == 0 then 0 else i - 1) <= k < offs.Length ==> offs[k] == was[k]
      invariant Runs(was, i, offs[..nd], cnts[..nd])
    {
      if i == 0 || offs[i] != offs[i - 1] {
        NewRun(was, i, offs[..nd], cnts[..nd]);
        ghost var vals, counts: seq<nat> := offs[..nd], cnts[..nd];
        offs[nd] := offs[i];
        cnts[nd] := 1;
        assert offs[..nd + 1] == vals + [was[i]] && cnts[..nd + 1] == counts + [1];
        nd := nd + 1;
      } else {
        RunsOpen(was, i, offs[..nd], cnts[..nd]);
        SameRun(was, i, offs[..nd], cnts[..nd]);
        ghost var counts: seq<nat> := cnts[..nd];
        cnts[nd - 1] := cnts[nd - 1] + 1;
        assert cnts[..nd] == counts[nd - 1 := counts[nd - 1] + 1];
      }
    }
  }

  lemma {:induction false} NoRuns(was: seq<nat>)
    ensures Runs(was, 0, [], [])
  {}

  lemma {:induction false} RunsOpen(was: seq<nat>, n: nat, vals: seq<nat>, cnts: seq<nat>)
    requires 0 < n <= |was| && Runs(was, n, vals, cnts)
    ensures |vals| > 0 && |cnts| == |vals|
  {}
}
