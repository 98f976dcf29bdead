/** What the drawn rows say, without the trees behind them: who hangs under whom, in
    which order siblings stand, and which rows are roots. */
module ForestLayout {
  import opened Common
  import opened ProcessForest

  // ---------------------------------------------------------------- parents

  /** Row j is the nearest row above i of smaller depth; it is one level up, and
      belongs to the parent of i's process. */
  predicate Hangs(procs: seq<Proc>, rows: seq<Row>, i: nat, j: nat)
    requires j < i < |rows| && forall r :: 0 <= r < |rows| ==> rows[r].k < |procs|
  {
    && rows[j].depth == rows[i].depth - 1
    && procs[rows[i].k].ppid == procs[rows[j].k].pid
    && forall m :: j < m < i ==> rows[m].depth >= rows[i].depth
  }

  /** Every row lies at depth d or deeper, and every deeper one hangs under another. */
  predicate HangsFrom(procs: seq<Proc>, rows: seq<Row>, d: nat) {
    && (forall r :: 0 <= r < |rows| ==> rows[r].k < |procs| && rows[r].depth >= d)
    && (forall i :: 0 <= i < |rows| && rows[i].depth > d ==> exists j :: 0 <= j < i && Hangs(procs, rows, i, j))
  }

  lemma {:induction false} HangsConcat(procs: seq<Proc>, a: seq<Row>, b: seq<Row>, d: nat)
    requires HangsFrom(procs, a, d) && HangsFrom(procs, b, d)
    ensures HangsFrom(procs, a + b, d)
  {
    var rows := a + b;
    assert forall r :: 0 <= r < |rows| ==> rows[r] == if r < |a| then a[r] else b[r - |a|];
    forall i | 0 <= i < |rows| && rows[i].depth > d ensures exists j :: 0 <= j < i && Hangs(procs, rows, i, j) {
      if i < |a| {
        var j :| 0 <= j < i && Hangs(procs, a, i, j);
        assert Hangs(procs, rows, i, j);
      } else {
        var j :| 0 <= j < i - |a| && Hangs(procs, b, i - |a|, j);
        assert Hangs(procs, rows, i, j + |a|);
      }
    }
  }

  lemma {:induction false} HangsShift(procs: seq<Proc>, top: Row, below: seq<Row>, i: nat, j: nat)
    requires top.k < |procs| && forall r :: 0 <= r < |below| ==> below[r].k < |procs|
    requires j < i < |below| && Hangs(procs, below, i, j)
    ensures Hangs(procs, [top] + below, i + 1, j + 1)
  {
    var rows := [top] + below;
    assert forall m :: j + 1 < m < i + 1 ==> rows[m] == below[m - 1];
  }

  lemma {:induction false} HangsFirst(procs: seq<Proc>, rows: seq<Row>, i: nat)
    requires 0 < i < |rows| && forall r :: 0 <= r < |rows| ==> rows[r].k < |procs|
    requires rows[i].depth == rows[0].depth + 1 && procs[rows[i].k].ppid == procs[rows[0].k].pid
    requires forall m :: 0 < m < |rows| ==> rows[m].depth >= rows[i].depth
    ensures Hangs(procs, rows, i, 0)
  {}

  /** A row put above rows one level deeper, whose topmost ones are its children. */
  lemma {:induction false} HangsUnder(procs: seq<Proc>, top: Row, below: seq<Row>)
    requires top.k < |procs| && HangsFrom(procs, below, top.depth + 1)
    requires forall i :: 0 <= i < |below| && below[i].depth == top.depth + 1 ==>
               procs[below[i].k].ppid == procs[top.k].pid
    ensures HangsFrom(procs, [top] + below, top.depth)
  {
    hide Hangs;
    var rows := [top] + below;
    assert forall r :: 0 < r < |rows| ==> rows[r] == below[r - 1];
    forall i | 0 <= i < |rows| && rows[i].depth > top.depth
      ensures exists j :: 0 <= j < i && Hangs(procs, rows, i, j)
    {
      if rows[i].depth == top.depth + 1 {
        HangsFirst(procs, rows, i);
      } else {
        var j :| 0 <= j < i - 1 && Hangs(procs, below, i - 1, j);
        HangsShift(procs, top, below, i - 1, j);
      }
    }
  }

  // ---------------------------------------------------------------- siblings

  /** Rows i and j hang under the same row, or start trees. */
  predicate Siblings(rows: seq<Row>, i: nat, j: nat)
    requires i < j < |rows|
  {
    rows[i].depth == rows[j].depth && forall m :: i < m < j ==> rows[m].depth >= rows[i].depth
  }

  predicate SiblingsOrdered(procs: seq<Proc>, rows: seq<Row>, d: nat) {
    && (forall r :: 0 <= r < |rows| ==> rows[r].k < |procs|)
    && (forall i, j :: 0 <= i < j < |rows| && rows[i].depth > d && Siblings(rows, i, j) ==>
          Leq(procs[rows[i].k], procs[rows[j].k]))
  }

  lemma {:induction false} SiblingsConcat(procs: seq<Proc>, a: seq<Row>, b: seq<Row>, d: nat)
    requires SiblingsOrdered(procs, a, d) && SiblingsOrdered(procs, b, d) && b != [] && b[0].depth == d
    ensures SiblingsOrdered(procs, a + b, d)
  {
    hide Leq;
    var rows := a + b;
    assert forall r :: 0 <= r < |rows| ==> rows[r] == if r < |a| then a[r] else b[r - |a|];
    assert rows[|a|].depth == d;
    forall i, j | 0 <= i < j < |rows| && rows[i].depth > d && Siblings(rows, i, j)
      ensures Leq(procs[rows[i].k], procs[rows[j].k])
    {
      if j < |a| {
        assert Siblings(a, i, j);
      } else if i >= |a| {
        assert forall m :: i - |a| < m < j - |a| ==> b[m] == rows[m + |a|];
        assert Siblings(b, i - |a|, j - |a|);
      }
    }
  }

  /** The rows at depth d stand in order. */
  predicate OrderedAt(procs: seq<Proc>, rows: seq<Row>, d: nat) {
    && (forall r :: 0 <= r < |rows| ==> rows[r].k < |procs|)
    && (forall i, j :: 0 <= i < j < |rows| && rows[i].depth == d && rows[j].depth == d ==>
          Leq(procs[rows[i].k], procs[rows[j].k]))
  }

  lemma {:induction false} SiblingsUnder(procs: seq<Proc>, top: Row, below: seq<Row>)
    requires top.k < |procs| && SiblingsOrdered(procs, below, top.depth + 1) && OrderedAt(procs, below, top.depth + 1)
    ensures SiblingsOrdered(procs, [top] + below, top.depth)
  {
    hide Leq;
    var rows := [top] + below;
    assert forall r :: 0 < r < |rows| ==> rows[r] == below[r - 1];
    forall i, j | 0 <= i < j < |rows| && rows[i].depth > top.depth && Siblings(rows, i, j)
      ensures Leq(procs[rows[i].k], procs[rows[j].k])
    {
      assert rows[i] == below[i - 1] && rows[j] == below[j - 1];
      assert forall m :: i - 1 < m < j - 1 ==> below[m] == rows[m + 1];
      assert Siblings(below, i - 1, j - 1);
    }
  }

  // ---------------------------------------------------------------- trees

  /** The rows at depth d are the tops of these trees, in order. */
  predicate Tops(rows: seq<Row>, ts: seq<Tree>, d: nat) {
    forall i :: 0 <= i < |rows| && rows[i].depth == d ==> IsTop(rows[i].k, ts)
  }

  predicate IsTop(k: nat, ts: seq<Tree>) { exists x :: 0 <= x < |ts| && ts[x].k == k }

  predicate AllFaithful(procs: seq<Proc>, ts: seq<Tree>) {
    forall i :: 0 <= i < |ts| ==> Faithful(procs, ts[i])
  }

  lemma {:induction false} TreeLayout(procs: seq<Proc>, t: Tree, d: nat)
    requires Faithful(procs, t)
    ensures var rows := Flatten(t, d);
            && rows != [] && rows[0] == Row(t.k, d)
            && (forall i :: 0 < i < |rows| ==> rows[i].depth > d)
            && HangsFrom(procs, rows, d) && SiblingsOrdered(procs, rows, d)
    decreases t, 1
  {
    hide HangsFrom, SiblingsOrdered, OrderedAt, Leq;
    var below := FlattenAll(t.kids, d + 1);
    ListLayout(procs, t.kids, d + 1);
    ListOrder(procs, t.kids, d + 1);
    DeeperAll(procs, below, d + 1);
    forall i | 0 <= i < |below| && below[i].depth == d + 1
      ensures below[i].k < |procs| && procs[below[i].k].ppid == procs[t.k].pid
    {
      assert IsTop(below[i].k, t.kids);
      var x :| 0 <= x < |t.kids| && t.kids[x].k == below[i].k;
    }
    HangsUnder(procs, Row(t.k, d), below);
    SiblingsUnder(procs, Row(t.k, d), below);
  }

  lemma {:induction false} DeeperAll(procs: seq<Proc>, rows: seq<Row>, d: nat)
    requires HangsFrom(procs, rows, d)
    ensures forall r :: 0 <= r < |rows| ==> rows[r].depth >= d
  {}

  lemma {:induction false} ListLayout(procs: seq<Proc>, ts: seq<Tree>, d: nat)
    requires AllFaithful(procs, ts)
    ensures var rows := FlattenAll(ts, d);
            HangsFrom(procs, rows, d) && SiblingsOrdered(procs, rows, d) && Tops(rows, ts, d)
    decreases ts, 0
  {
    hide HangsFrom, SiblingsOrdered, Faithful, Flatten;
    if ts == [] {
      NothingHangs(procs, d);
    } else {
      var before, t := ts[..|ts| - 1], ts[|ts| - 1];
      ListLayout(procs, before, d);
      TreeLayout(procs, t, d);
      HangsConcat(procs, FlattenAll(before, d), Flatten(t, d), d);
      SiblingsConcat(procs, FlattenAll(before, d), Flatten(t, d), d);
      TopsSnoc(before, t, d);
      assert before + [t] == ts;
    }
  }

  lemma {:induction false} NothingHangs(procs: seq<Proc>, d: nat)
    ensures HangsFrom(procs, [], d) && SiblingsOrdered(procs, [], d)
  {}

  lemma {:induction false} TopsSnoc(ts: seq<Tree>, t: Tree, d: nat)
    requires Tops(FlattenAll(ts, d), ts, d)
    requires var rows := Flatten(t, d);
             rows != [] && rows[0].k == t.k && forall i :: 0 < i < |rows| ==> rows[i].depth > d
    ensures Tops(FlattenAll(ts + [t], d), ts + [t], d)
  {
    hide Flatten;
    FlattenSnoc(ts, t, d);
    var a: seq<Row>, b: seq<Row>, all := FlattenAll(ts, d), Flatten(t, d), ts + [t];
    var rows := a + b;
    forall i | 0 <= i < |rows| && rows[i].depth == d ensures IsTop(rows[i].k, all) {
      if i < |a| {
        var x :| 0 <= x < |ts| && ts[x].k == a[i].k;
        assert all[x].k == a[i].k;
      } else {
        assert rows[i] == b[i - |a|];
        assert all[|ts|].k == rows[i].k;
      }
    }
  }

  /** The tops of trees in order are rows in order. */
  lemma {:induction false} ListOrder(procs: seq<Proc>, ts: seq<Tree>, d: nat)
    requires AllFaithful(procs, ts) && InOrder(procs, ts)
    ensures OrderedAt(procs, FlattenAll(ts, d), d)
    decreases ts, 0
  {
    hide Leq, Faithful, Flatten, HangsFrom, SiblingsOrdered;
    if ts != [] {
      var before, t := ts[..|ts| - 1], ts[|ts| - 1];
      var a: seq<Row>, b: seq<Row> := FlattenAll(before, d), Flatten(t, d);
      ListOrder(procs, before, d);
      ListLayout(procs, before, d);
      TreeLayout(procs, t, d);
      KnownProcs(procs, b, d);
      var rows := a + b;
      forall i, j | 0 <= i < j < |rows| && rows[i].depth == d && rows[j].depth == d
        ensures Leq(procs[rows[i].k], procs[rows[j].k])
      {
        if j >= |a| {
          assert rows[j] == b[j - |a|] == b[0];
          assert i < |a|;
          var x :| 0 <= x < |before| && before[x].k == a[i].k;
          assert Leq(procs[ts[x].k], procs[ts[|ts| - 1].k]);
        }
      }
    }
  }

  lemma {:induction false} KnownProcs(procs: seq<Proc>, rows: seq<Row>, d: nat)
    requires HangsFrom(procs, rows, d)
    ensures forall r :: 0 <= r < |rows| ==> rows[r].k < |procs|
  {}

  // ---------------------------------------------------------------- the whole drawing

  /** In order: by class, then by weight, then by id. */
  predicate Precedes(a: Proc, b: Proc) {
    || a.class' < b.class'
    || (a.class' == b.class' && a.weight < b.weight)
    || (a.class' == b.class' && a.weight == b.weight && a.pid <= b.pid)
  }

  lemma {:induction false} SameOrder()
    ensures forall a, b :: Leq(a, b) <==> Precedes(a, b)
  {}

  /** What the rows of a forest say. */
  ghost predicate Outline(procs: seq<Proc>, rows: seq<Row>) {
    && (forall r :: 0 <= r < |rows| ==> rows[r].k < |procs|)
    // below the top level every row hangs under its parent's
    && (forall i :: 0 <= i < |rows| && rows[i].depth > 0 ==> exists j :: 0 <= j < i && Hangs(procs, rows, i, j))
    // siblings are in order
    && (forall i, j :: 0 <= i < j < |rows| && rows[i].depth > 0 && Siblings(rows, i, j) ==>
          Precedes(procs[rows[i].k], procs[rows[j].k]))
    // the top level: first the processes whose parent is not listed, in order, then
    // some that no such process leads to
    && (forall i :: 0 <= i < |rows| && !Listed(procs, rows[i].k) ==> rows[i].depth == 0)
    && (forall i, n: nat :: 0 <= i < |rows| && rows[i].depth == 0 && Listed(procs, rows[i].k) ==>
          !Descends(procs, rows[i].k, n))
    && (forall i, j :: 0 <= i < j < |rows| && rows[i].depth == 0 && rows[j].depth == 0 && !Listed(procs, rows[j].k) ==>
          !Listed(procs, rows[i].k) && Precedes(procs[rows[i].k], procs[rows[j].k]))
  }

  /** The rows of the trees drawn have this outline. */
  lemma {:induction false} DrawnOutline(procs: seq<Proc>, trees: seq<Tree>, m: nat)
    requires Drawn(procs, trees, m)
    ensures Outline(procs, FlattenAll(trees, 0))
  {
    hide Leq, Precedes, Descends, Flatten, FlattenAll;
    SameOrder();
    var first, rest := trees[..m], trees[m..];
    var a, b := FlattenAll(first, 0), FlattenAll(rest, 0);
    assert trees == first + rest;
    FlattenConcat(first, rest, 0);
    ListLayout(procs, trees, 0);
    ListLayout(procs, first, 0);
    ListLayout(procs, rest, 0);
    ListOrder(procs, first, 0);
    forall i, n: nat | 0 <= i < |rest| ensures rest[i].k < |procs| && !Descends(procs, rest[i].k, n) {
      assert rest[i] == trees[m + i];
    }
    TopLevel(procs, a, first, b, rest);
    ListedBelow(procs, a + b);
  }

  /** A row that hangs under another is of a process whose parent is listed. */
  lemma {:induction false} ListedBelow(procs: seq<Proc>, rows: seq<Row>)
    requires HangsFrom(procs, rows, 0)
    ensures forall i :: 0 <= i < |rows| && !Listed(procs, rows[i].k) ==> rows[i].depth == 0
  {
    forall i | 0 <= i < |rows| && rows[i].depth > 0 ensures Listed(procs, rows[i].k) {
      var j :| 0 <= j < i && Hangs(procs, rows, i, j);
      assert procs[rows[j].k].pid == procs[rows[i].k].ppid;
    }
  }

  lemma {:induction false} TopLevel(procs: seq<Proc>, a: seq<Row>, first: seq<Tree>, b: seq<Row>, rest: seq<Tree>)
    requires (forall r :: 0 <= r < |a| ==> a[r].k < |procs|) && (forall r :: 0 <= r < |b| ==> b[r].k < |procs|)
    requires Tops(a, first, 0) && Tops(b, rest, 0) && OrderedAt(procs, a, 0)
    requires forall i :: 0 <= i < |first| ==> first[i].k < |procs| && !Listed(procs, first[i].k)
    requires forall i, n: nat :: 0 <= i < |rest| ==> rest[i].k < |procs| && !Descends(procs, rest[i].k, n)
    ensures var rows := a + b;
            && (forall i, n: nat :: 0 <= i < |rows| && rows[i].depth == 0 && Listed(procs, rows[i].k) ==>
                  !Descends(procs, rows[i].k, n))
            && (forall i, j :: 0 <= i < j < |rows| && rows[i].depth == 0 && rows[j].depth == 0
                               && !Listed(procs, rows[j].k) ==>
                  !Listed(procs, rows[i].k) && Leq(procs[rows[i].k], procs[rows[j].k]))
  {
    hide Leq, Listed;
    var rows := a + b;
    forall i | 0 <= i < |rows| && rows[i].depth == 0
      ensures if i < |a| then !Listed(procs, rows[i].k) else forall n: nat :: !Descends(procs, rows[i].k, n)
    {
      if i < |a| {
        var x :| 0 <= x < |first| && first[x].k == a[i].k;
      } else {
        assert rows[i] == b[i - |a|];
        var x :| 0 <= x < |rest| && rest[x].k == b[i - |a|].k;
      }
    }
    forall i | |a| <= i < |rows| && rows[i].depth == 0 ensures Listed(procs, rows[i].k) {
      RootDescends(procs, rows[i].k);
    }
  }

  lemma {:induction false} RootDescends(procs: seq<Proc>, k: nat)
    requires k < |procs|
    ensures !Listed(procs, k) ==> Descends(procs, k, 0)
  {}
}
