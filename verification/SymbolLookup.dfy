/** Address lookup (`sym_at`) and the two-tier refresh of the JIT map.  Addresses
    and sizes are 64-bit. */
module SymbolLookup {
  import opened Common
  import opened JitDump

  // ---------------------------------------------------------------- lookup

  predicate Sorted(v: seq<Sym>) { forall i, j :: 0 <= i < j < |v| ==> v[i].addr <= v[j].addr }

  /** How many entries start at or below the query. */
  function UpperBound(v: seq<Sym>, q: nat): (u: nat)
    requires Sorted(v)
    ensures u <= |v|
    ensures forall i :: 0 <= i < u ==> v[i].addr <= q
    ensures forall i :: u <= i < |v| ==> v[i].addr > q
  {
    if v == [] then 0
    else if v[|v| - 1].addr <= q then |v|
    else UpperBound(v[..|v| - 1], q)
  }

  lemma {:induction false} UpperBoundIs(v: seq<Sym>, q: nat, u: nat)
    requires Sorted(v) && u <= |v|
    requires forall i :: 0 <= i < u ==> v[i].addr <= q
    requires forall i :: u <= i < |v| ==> v[i].addr > q
    ensures UpperBound(v, q) == u
  {
    var w := UpperBound(v, q);
    var atW, atU := if w < |v| then v[w].addr else 0, if u < |v| then v[u].addr else 0;
    assert w >= u && u >= w;
  }

  /** The test the code makes on the last entry at or below the query; the sum
      wraps at 64 bits. */
  predicate Accepts(s: Sym, q: nat) {
    if s.size > 0 then q < (s.addr + s.size) % WRAP else q == s.addr
  }

  function Lookup(v: seq<Sym>, q: nat): Option<nat>
    requires Sorted(v)
  {
    var u := UpperBound(v, q);
    if u > 0 && Accepts(v[u - 1], q) then Some(u - 1) else None
  }

  /** `sym_at`: the binary search. */
  method SymAt(v: seq<Sym>, query: nat) returns (r: Option<nat>)
    requires Sorted(v)
    ensures r == Lookup(v, query)
  {
    var lo, hi := 0, |v|;
    while lo < hi
      invariant 0 <= lo <= hi <= |v|
      invariant forall i :: 0 <= i < lo ==> v[i].addr <= query
      invariant forall i :: hi <= i < |v| ==> v[i].addr > query
    {
      var mid := lo + (hi - lo) / 2;
      if v[mid].addr <= query { lo := mid + 1; } else { hi := mid; }
    }
    UpperBoundIs(v, query, lo);
    if lo == 0 { return None; }
    r := if Accepts(v[lo - 1], query) then Some(lo - 1) else None;
  }

  // ---------------------------------------------------------------- what the entries cover

  function End(s: Sym): nat { s.addr + (if s.size > 0 then s.size else 1) }

  /** The addresses an entry names: its extent, or its start alone if unsized. */
  predicate Covers(s: Sym, q: nat) { s.addr <= q < End(s) && q < WRAP }

  /** Fields of 64 bits. */
  predicate Words(v: seq<Sym>) { forall i :: 0 <= i < |v| ==> v[i].addr < WRAP && v[i].size < WRAP }

  predicate Covered(v: seq<Sym>, q: nat) { exists i :: 0 <= i < |v| && Covers(v[i], q) }

  /** An extent whose end does not fit 64 bits: the sum wraps below the start, and
      the test then accepts nothing. */
  predicate Wraps(s: Sym) { s.size > 0 && s.addr + s.size >= WRAP }

  /** Where the code sees an entry end. */
  function SeenEnd(s: Sym): nat { if Wraps(s) then s.addr else End(s) }

  /** Where an entry ends within the address space. */
  function Top(s: Sym): nat { if End(s) < WRAP then End(s) else WRAP }

  /** Entry j (which may be i itself) reaches beyond the seen end of entry i, into a
      gap before the next start: there the last start at or below the query does
      not decide. */
  predicate Shadowed(v: seq<Sym>, j: nat, i: nat)
    requires j <= i < |v|
  {
    SeenEnd(v[i]) < Top(v[j]) && (i + 1 < |v| ==> SeenEnd(v[i]) < v[i + 1].addr)
  }

  predicate Unshadowed(v: seq<Sym>) {
    forall j, i :: 0 <= j <= i < |v| ==> !Shadowed(v, j, i)
  }

  predicate FindsAll(v: seq<Sym>)
    requires Sorted(v)
  {
    forall q: nat :: q < WRAP ==> (Lookup(v, q).Some? <==> Covered(v, q))
  }

  lemma {:induction false} AcceptedIsSeen(s: Sym, q: nat)
    requires s.addr < WRAP && s.size < WRAP && s.addr <= q < WRAP
    ensures Accepts(s, q) <==> q < SeenEnd(s)
    ensures Accepts(s, q) <==> Covers(s, q) && !Wraps(s)
  {
    if Wraps(s) { assert (s.addr + s.size) % WRAP == s.addr + s.size - WRAP; }
  }

  /** The binary search finds every covered address exactly when no entry is
      shadowed. */
  lemma {:induction false} SearchAgreesWithScanIff(v: seq<Sym>)
    requires Sorted(v) && Words(v)
    ensures FindsAll(v) <==> Unshadowed(v)
  {
    if Unshadowed(v) {
      forall q: nat | q < WRAP ensures Lookup(v, q).Some? <==> Covered(v, q) { FoundIfUnshadowed(v, q); }
    } else {
      var j, i :| 0 <= j <= i < |v| && Shadowed(v, j, i);
      MissedIfShadowed(v, j, i);
    }
  }

  lemma {:induction false} FoundIfUnshadowed(v: seq<Sym>, q: nat)
    requires Sorted(v) && Words(v) && Unshadowed(v) && q < WRAP
    ensures Lookup(v, q).Some? <==> Covered(v, q)
  {
    hide Accepts;
    var i := UpperBound(v, q) - 1;
    if i >= 0 { AcceptedIsSeen(v[i], q); }
    if Covered(v, q) {
      var j :| 0 <= j < |v| && Covers(v[j], q);
      assert j <= i;
      assert !Shadowed(v, j, i);
    }
  }

  lemma {:induction false} MissedIfShadowed(v: seq<Sym>, j: nat, i: nat)
    requires Sorted(v) && Words(v) && j <= i < |v| && Shadowed(v, j, i)
    ensures !FindsAll(v)
  {
    hide Accepts;
    var q := SeenEnd(v[i]);
    assert Covers(v[j], q);
    UpperBoundIs(v, q, i + 1);
    AcceptedIsSeen(v[i], q);
    assert Lookup(v, q).None? && Covered(v, q) && q < WRAP;
  }

  predicate Disjoint(v: seq<Sym>) {
    forall i, j :: 0 <= i < j < |v| ==> End(v[i]) <= v[j].addr || End(v[j]) <= v[i].addr
  }

  /** On disjoint extents the search names exactly the entry that covers, unless
      its end wraps; then it names none. */
  lemma {:induction false} DisjointLookup(v: seq<Sym>, q: nat, i: nat)
    requires Sorted(v) && Words(v) && Disjoint(v) && i < |v| && q < WRAP
    ensures Lookup(v, q) == Some(i) <==> Covers(v[i], q) && !Wraps(v[i])
  {
    hide Accepts;
    if Covers(v[i], q) { UpperBoundIs(v, q, i + 1); }
    if v[i].addr <= q { AcceptedIsSeen(v[i], q); }
  }

  // ---------------------------------------------------------------- the two-tier refresh

  /** The perf-map lines that survive: those no jitdump entry already names. */
  function Kept(dump: seq<Sym>, lines: seq<Sym>): (kept: seq<Sym>)
    requires Sorted(dump)
    ensures forall k :: 0 <= k < |kept| ==> kept[k] in lines && Lookup(dump, kept[k].addr).None?
  {
    if lines == [] then []
    else
      var rest := Kept(dump, lines[..|lines| - 1]);
      if Lookup(dump, lines[|lines| - 1].addr).None? then rest + [lines[|lines| - 1]] else rest
  }

  /** A merged map is any sorted arrangement of the dump and the surviving lines:
      the library sort promises no more. */
  predicate Merged(v: seq<Sym>, dump: seq<Sym>, lines: seq<Sym>)
    requires Sorted(dump)
  {
    Sorted(v) && multiset(v) == multiset(dump + Kept(dump, lines))
  }

  lemma {:induction false} MergedMembers(v: seq<Sym>, dump: seq<Sym>, lines: seq<Sym>, s: Sym)
    requires Sorted(dump) && Merged(v, dump, lines)
    ensures s in v <==> s in dump || s in Kept(dump, lines)
  {
    assert s in v <==> s in multiset(v);
    assert s in dump + Kept(dump, lines) <==> s in multiset(dump + Kept(dump, lines));
  }

  predicate Overlap(a: Sym, b: Sym) { a.addr < End(b) && b.addr < End(a) }

  /** Entries that overlap are the same entry. */
  predicate Unambiguous(dump: seq<Sym>) {
    forall i, j :: 0 <= i < j < |dump| && Overlap(dump[i], dump[j]) ==> dump[i] == dump[j]
  }

  predicate NoneWraps(dump: seq<Sym>) { forall i :: 0 <= i < |dump| ==> !Wraps(dump[i]) }

  /** Address q resolves to the entry s. */
  predicate ResolvesTo(v: seq<Sym>, q: nat, s: Sym)
    requires Sorted(v)
  {
    Lookup(v, q).Some? && Lookup(v, q).value < |v| && v[Lookup(v, q).value] == s
  }

  lemma {:induction false} SameEntry(dump: seq<Sym>, i: nat, j: nat, q: nat)
    requires Unambiguous(dump) && i < |dump| && j < |dump| && Covers(dump[i], q) && Covers(dump[j], q)
    ensures dump[i] == dump[j]
  {}

  lemma {:induction false} DumpNames(dump: seq<Sym>, i: nat, q: nat)
    requires Sorted(dump) && Words(dump) && Unambiguous(dump) && i < |dump| && Covers(dump[i], q) && !Wraps(dump[i])
    ensures Lookup(dump, q).Some?
  {
    hide Unambiguous, Accepts;
    var u := UpperBound(dump, q) - 1;
    assert i <= u;
    SameEntry(dump, i, u, dump[u].addr);
    AcceptedIsSeen(dump[u], q);
  }

  /** Whatever the perf-map says, and however ties are sorted, an address that a
      jitdump entry covers resolves to that entry, exactly if its end does not wrap. */
  lemma {:induction false} DumpWins(v: seq<Sym>, dump: seq<Sym>, lines: seq<Sym>, i: nat, q: nat)
    requires Sorted(v) && Sorted(dump) && Words(dump) && Unambiguous(dump) && Merged(v, dump, lines)
    requires i < |dump| && Covers(dump[i], q)
    ensures ResolvesTo(v, q, dump[i]) <==> !Wraps(dump[i])
  {
    hide Merged, Unambiguous, Kept, Accepts;
    var d := dump[i];
    var u := UpperBound(v, q) - 1;
    AcceptedIsSeen(d, q);
    if !Wraps(d) {
      MergedMembers(v, dump, lines, d);
      var a :| 0 <= a < |v| && v[a] == d;
      assert a <= u;
      var e := v[u];
      assert Covers(d, e.addr);
      DumpNames(dump, i, e.addr);
      MergedMembers(v, dump, lines, e);
      var j :| 0 <= j < |dump| && dump[j] == e;
      SameEntry(dump, i, j, e.addr);
    }
  }

  lemma {:induction false} DisjointIsUnambiguous(dump: seq<Sym>)
    requires Disjoint(dump)
    ensures Unambiguous(dump)
  {}

  /** In particular for disjoint extents. */
  lemma {:induction false} DisjointDumpWins(v: seq<Sym>, dump: seq<Sym>, lines: seq<Sym>, i: nat, q: nat)
    requires Sorted(v) && Sorted(dump) && Words(dump) && Disjoint(dump) && Merged(v, dump, lines)
    requires i < |dump| && Covers(dump[i], q)
    ensures ResolvesTo(v, q, dump[i]) <==> !Wraps(dump[i])
  {
    DisjointIsUnambiguous(dump);
    DumpWins(v, dump, lines, i, q);
  }

  ghost predicate DumpAlwaysWins(v: seq<Sym>, dump: seq<Sym>)
    requires Sorted(v)
  {
    forall i, q: nat :: 0 <= i < |dump| && Covers(dump[i], q) ==> ResolvesTo(v, q, dump[i])
  }

  /** In any merged map, every address a jitdump entry covers resolves to that
      entry exactly when no two different entries overlap and none wraps. */
  lemma {:induction false} DumpWinsIffUnambiguous(v: seq<Sym>, dump: seq<Sym>, lines: seq<Sym>)
    requires Sorted(v) && Sorted(dump) && Words(dump) && Merged(v, dump, lines)
    ensures DumpAlwaysWins(v, dump) <==> Unambiguous(dump) && NoneWraps(dump)
  {
    hide Merged, Accepts;
    if !NoneWraps(dump) {
      var i :| 0 <= i < |dump| && Wraps(dump[i]);
      var q := dump[i].addr;
      AcceptedIsSeen(dump[i], q);
      assert Covers(dump[i], q) && !ResolvesTo(v, q, dump[i]);
    } else if Unambiguous(dump) {
      forall i, q: nat | 0 <= i < |dump| && Covers(dump[i], q) ensures ResolvesTo(v, q, dump[i]) {
        DumpWins(v, dump, lines, i, q);
      }
    } else {
      var i, j :| 0 <= i < j < |dump| && Overlap(dump[i], dump[j]) && dump[i] != dump[j];
      var q := dump[j].addr;
      assert Covers(dump[i], q) && Covers(dump[j], q);
      assert !(ResolvesTo(v, q, dump[i]) && ResolvesTo(v, q, dump[j]));
    }
  }

  lemma {:induction false} UnambiguousIsUnshadowed(dump: seq<Sym>)
    requires Sorted(dump) && Unambiguous(dump) && NoneWraps(dump)
    ensures Unshadowed(dump)
  {
    forall j, i | 0 <= j <= i < |dump| ensures !Shadowed(dump, j, i) {
      if j < i { assert Overlap(dump[j], dump[i]) ==> dump[j] == dump[i]; }
    }
  }

  lemma {:induction false} KeptCounts(dump: seq<Sym>, lines: seq<Sym>, s: Sym)
    requires Sorted(dump)
    ensures multiset(Kept(dump, lines))[s] == if Lookup(dump, s.addr).None? then multiset(lines)[s] else 0
  {
    hide Lookup;
    if lines != [] {
      var last := |lines| - 1;
      KeptCounts(dump, lines[..last], s);
      assert lines == lines[..last] + [lines[last]];
    }
  }

  /** What a merged map holds, entry by entry: every jitdump entry, and of the text
      map exactly the lines whose start no jitdump entry covers, each as often as it
      stands there. */
  lemma {:induction false} MergedHolds(v: seq<Sym>, dump: seq<Sym>, lines: seq<Sym>, s: Sym)
    requires Sorted(dump) && Words(dump) && Unshadowed(dump) && Merged(v, dump, lines) && s.addr < WRAP
    ensures multiset(v)[s] == multiset(dump)[s] + (if exists i :: 0 <= i < |dump| && Covers(dump[i], s.addr)
                                                   then 0 else multiset(lines)[s])
  {
    hide Lookup, Kept, Unshadowed, Covers;
    KeptCounts(dump, lines, s);
    FoundIfUnshadowed(dump, s.addr);
    assert multiset(dump + Kept(dump, lines))[s] == multiset(dump)[s] + multiset(Kept(dump, lines))[s];
  }

  /** In a map of which no two different entries overlap and none wraps, every covered
      address resolves to the entry that covers it. */
  lemma {:induction false} EntryResolves(v: seq<Sym>, i: nat, q: nat)
    requires Sorted(v) && Words(v) && Unambiguous(v) && NoneWraps(v) && i < |v| && Covers(v[i], q)
    ensures ResolvesTo(v, q, v[i])
  {
    UnchangedIsMerged(v);
    DumpWins(v, v, [], i, q);
  }

  /** A process with a text map alone, as most runtimes write: the map holds exactly
      its lines, and if no two different lines overlap and none wraps, every address a
      line covers resolves to that line. */
  lemma {:induction false} TextMapAlone(v: seq<Sym>, lines: seq<Sym>)
    requires Merged(v, [], lines) && Words(lines)
    ensures multiset(v) == multiset(lines)
    ensures Unambiguous(lines) && NoneWraps(lines) ==>
              forall i, q: nat :: 0 <= i < |lines| && Covers(lines[i], q) ==> ResolvesTo(v, q, lines[i])
  {
    hide Kept, Overlap, Covers, Lookup, Wraps;
    forall s: Sym ensures multiset(v)[s] == multiset(lines)[s] {
      KeptCounts([], lines, s);
      NothingFound(s.addr);
      assert [] + Kept([], lines) == Kept([], lines);
    }
    SameMembers(v, lines);
    SameMembers(lines, v);
    if Unambiguous(lines) && NoneWraps(lines) {
      AlsoUnambiguous(v, lines);
      forall i, q: nat | 0 <= i < |lines| && Covers(lines[i], q) ensures ResolvesTo(v, q, lines[i]) {
        var j :| 0 <= j < |v| && v[j] == lines[i];
        EntryResolves(v, j, q);
      }
    }
  }

  lemma {:induction false} NothingFound(q: nat)
    ensures Lookup([], q).None?
  {}

  lemma {:induction false} AlsoUnambiguous(v: seq<Sym>, lines: seq<Sym>)
    requires Words(lines) && Unambiguous(lines) && NoneWraps(lines) && forall i :: 0 <= i < |v| ==> v[i] in lines
    ensures Words(v) && Unambiguous(v) && NoneWraps(v)
  {
    forall i, j | 0 <= i < j < |v| && Overlap(v[i], v[j]) ensures v[i] == v[j] {
      var x :| 0 <= x < |lines| && lines[x] == v[i];
      var y :| 0 <= y < |lines| && lines[y] == v[j];
      assert x < y ==> Overlap(lines[x], lines[y]);
      assert y < x ==> Overlap(lines[y], lines[x]);
    }
  }

  /** Without disjoint extents the order of ties decides: two entries at one
      start resolve the same address to either of them. */
  lemma {:induction false} StaleTwin()
    ensures var stale, fresh' := Sym(0x1000, 0x40, [1]), Sym(0x1000, 0x40, [2]);
            && Merged([stale, fresh'], [stale, fresh'], []) && Merged([fresh', stale], [stale, fresh'], [])
            && Lookup([stale, fresh'], 0x1000) == Some(1)
            && Lookup([fresh', stale], 0x1000) == Some(1)
  {
    var stale, fresh' := Sym(0x1000, 0x40, [1]), Sym(0x1000, 0x40, [2]);
    assert Kept([stale, fresh'], []) == [];
    assert [stale, fresh'] + [] == [stale, fresh'];
    assert multiset([stale, fresh']) == multiset([fresh', stale]);
  }

  // ---------------------------------------------------------------- refreshing

  function Insert(v: seq<Sym>, s: Sym): (w: seq<Sym>)
    requires Sorted(v)
    ensures Sorted(w) && multiset(w) == multiset(v) + multiset{s}
  {
    var u := UpperBound(v, s.addr);
    assert v == v[..u] + v[u..];
    v[..u] + [s] + v[u..]
  }

  /** One sorted permutation, standing for the library sort. */
  method SortByAddr(v: seq<Sym>) returns (w: seq<Sym>)
    ensures Sorted(w) && multiset(w) == multiset(v)
  {
    w := [];
    for i := 0 to |v|
      invariant Sorted(w) && multiset(w) == multiset(v[..i])
    {
      assert v[..i + 1] == v[..i] + [v[i]];
      w := Insert(w, v[i]);
    }
    assert v[..|v|] == v;
  }

  /** The entries of the dump file, if there is one and it is a dump. */
  function DumpTable(file: Option<seq<byte>>): seq<Sym> {
    if file.None? then [] else Table(Decode(file.value))
  }

  function Lines(perfMap: Option<seq<Sym>>): seq<Sym> {
    if perfMap.None? then [] else perfMap.value
  }

  /** `asmspy_jitmap_refresh`: the dump file and the well-formed perf-map lines,
      either of which may be missing.  `dump` is the sorted first tier. */
  method Refresh(jit: SymbolMap, file: Option<seq<byte>>, perfMap: Option<seq<Sym>>)
    returns (n: int, ghost dump: seq<Sym>)
    modifies jit
    ensures n == -1 <==> perfMap.None? && (file.None? || Start(file.value).None?)
    ensures n != -1 ==> n == |jit.v|
    ensures Sorted(dump) && multiset(dump) == multiset(DumpTable(file))
    ensures Merged(jit.v, dump, Lines(perfMap))
  {
    hide Sorted, Decode, Table, Merged;
    jit.v := [];
    var dumped := -1;
    if file.Some? { dumped := jit.JitdumpRead(file.value); }
    NotADump(file);
    assert jit.v == DumpTable(file);
    jit.v := SortByAddr(jit.v);
    dump := jit.v;
    if perfMap.None? && dumped < 0 {
      UnchangedIsMerged(dump);
      return -1, dump;
    }
    if perfMap.Some? {
      AddLines(jit, perfMap.value);
    } else {
      assert Kept(dump, []) == [];
    }
    assert jit.v == dump + Kept(dump, Lines(perfMap));
    jit.v := SortByAddr(jit.v);
    ArrangedIsMerged(jit.v, dump, Lines(perfMap));
    n := |jit.v|;
  }

  lemma {:induction false} NotADump(file: Option<seq<byte>>)
    ensures file.None? || Start(file.value).None? ==> DumpTable(file) == []
  {}

  lemma {:induction false} UnchangedIsMerged(dump: seq<Sym>)
    requires Sorted(dump)
    ensures Merged(dump, dump, [])
  {
    assert dump + Kept(dump, []) == dump;
  }

  lemma {:induction false} ArrangedIsMerged(v: seq<Sym>, dump: seq<Sym>, lines: seq<Sym>)
    requires Sorted(v) && Sorted(dump) && multiset(v) == multiset(dump + Kept(dump, lines))
    ensures Merged(v, dump, lines)
  {}

  /** The loop over the text map: a line whose start the dump names is skipped. */
  method AddLines(jit: SymbolMap, lines: seq<Sym>)
    requires Sorted(jit.v)
    modifies jit
    ensures jit.v == old(jit.v) + Kept(old(jit.v), lines)
  {
    hide Sorted, Lookup;
    var ndump := |jit.v|;
    ghost var dump := jit.v;
    for i := 0 to |lines|
      invariant jit.v == dump + Kept(dump, lines[..i])
    {
      assert lines[..i + 1][..i] == lines[..i];
      assert jit.v[..ndump] == dump;
      var named := SymAt(jit.v[..ndump], lines[i].addr);
      if named.None? { jit.v := jit.v + [lines[i]]; }
    }
    assert lines[..|lines|] == lines;
  }
}
