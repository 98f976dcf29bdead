/** What the two rankings say about the samples themselves: which qualify, what each
    symbol's entry carries, and which symbols are admitted. */
module RegionSamples {
  import opened Common
  import opened RegionRank

  // ---------------------------------------------------------------- over verdicts

  /** Sample j is the first that qualifies for the address. */
  predicate FirstFor(v: seq<Option<Hit>>, j: nat, addr: nat) {
    && j < |v| && Qualifies(v[j], addr)
    && forall i :: 0 <= i < j ==> !Qualifies(v[i], addr)
  }

  predicate Qualifies(o: Option<Hit>, addr: nat) { o.Some? && o.value.sym.start == addr }

  /** The candidate carries what that sample said of the symbol. */
  predicate Carries(c: Cand, v: seq<Option<Hit>>, j: nat) {
    && FirstFor(v, j, c.addr)
    && var s := v[j].value.sym; c.size == s.size && c.name == s.name && c.mod == s.mod
  }

  predicate Carried(c: Cand, v: seq<Option<Hit>>) { exists j :: 0 <= j < |v| && Carries(c, v, j) }

  predicate InTable(table: seq<Cand>, addr: nat) { exists i :: 0 <= i < |table| && table[i].addr == addr }

  predicate SeenBefore(v: seq<Option<Hit>>, j: nat, addr: nat)
    requires j <= |v|
  {
    exists x :: 0 <= x < j && Qualifies(v[x], addr)
  }

  /** A qualifying sample's symbol is missing only if the table is full of symbols seen
      before it. */
  predicate Admits(table: seq<Cand>, v: seq<Option<Hit>>, cap: nat) {
    forall j :: 0 <= j < |v| && v[j].Some? && !InTable(table, v[j].value.sym.start) ==>
      |table| == cap && forall i :: 0 <= i < |table| ==> SeenBefore(v, j, table[i].addr)
  }

  lemma {:induction false} CarriedOn(c: Cand, c': Cand, v: seq<Option<Hit>>, o: Option<Hit>)
    requires Carried(c, v) && c'.addr == c.addr && c'.size == c.size && c'.name == c.name && c'.mod == c.mod
    ensures Carried(c', v + [o])
  {
    var j :| 0 <= j < |v| && Carries(c, v, j);
    assert forall i :: 0 <= i <= j ==> (v + [o])[i] == v[i];
    assert Carries(c', v + [o], j);
  }

  lemma {:induction false} NewCarried(v: seq<Option<Hit>>, h: Hit)
    requires forall i :: 0 <= i < |v| ==> !Qualifies(v[i], h.sym.start)
    ensures Carried(Cand(h.sym.start, h.sym.size, h.sym.name, h.sym.mod, h.weight, 1), v + [Some(h)])
  {
    var w := v + [Some(h)];
    assert forall i :: 0 <= i < |v| ==> w[i] == v[i];
    assert Carries(Cand(h.sym.start, h.sym.size, h.sym.name, h.sym.mod, h.weight, 1), w, |v|);
  }

  /** Every entry is carried, and admission is first come, first served. */
  predicate Sound(table: seq<Cand>, v: seq<Option<Hit>>, cap: nat) {
    && |table| <= cap
    && (forall i :: 0 <= i < |table| ==> Carried(table[i], v))
    && Admits(table, v, cap)
  }

  /** A candidate that is carried has been seen. */
  lemma {:induction false} CarriedIsSeen(c: Cand, v: seq<Option<Hit>>)
    requires Carried(c, v)
    ensures SeenBefore(v, |v|, c.addr)
  {
    var j :| 0 <= j < |v| && Carries(c, v, j);
  }

  lemma {:induction false} SeenLater(v: seq<Option<Hit>>, o: Option<Hit>, j: nat, addr: nat)
    requires j <= |v| && SeenBefore(v, j, addr)
    ensures SeenBefore(v + [o], j, addr)
  {
    var x :| 0 <= x < j && Qualifies(v[x], addr);
    assert Qualifies((v + [o])[x], addr);
  }

  /** The admission property when the addresses of the table stay, or grow. */
  lemma {:induction false} AdmitsOn(table: seq<Cand>, table': seq<Cand>, v: seq<Option<Hit>>, o: Option<Hit>, cap: nat)
    requires Sound(table, v, cap) && |table| <= |table'| <= cap
    requires forall i :: 0 <= i < |table| ==> table'[i].addr == table[i].addr
    requires |table'| > |table| ==> |table| < cap
    requires o.Some? ==> InTable(table', o.value.sym.start) || |table| == cap
    ensures Admits(table', v + [o], cap)
  {
    hide Qualifies, Carried, SeenBefore;
    var w := v + [o];
    forall j | 0 <= j < |w| && w[j].Some? && !InTable(table', w[j].value.sym.start)
      ensures |table'| == cap && forall i :: 0 <= i < |table'| ==> SeenBefore(w, j, table'[i].addr)
    {
      if j < |v| {
        assert w[j] == v[j];
        StillMissing(table, table', v[j].value.sym.start);
        forall i | 0 <= i < |table'| ensures SeenBefore(w, j, table'[i].addr) {
          SeenLater(v, o, j, table[i].addr);
        }
      } else {
        forall i | 0 <= i < |table'| ensures SeenBefore(w, j, table'[i].addr) {
          CarriedIsSeen(table[i], v);
          SeenLater(v, o, j, table[i].addr);
        }
      }
    }
  }

  lemma {:induction false} StillMissing(table: seq<Cand>, table': seq<Cand>, addr: nat)
    requires |table| <= |table'| && forall i :: 0 <= i < |table| ==> table'[i].addr == table[i].addr
    requires !InTable(table', addr)
    ensures !InTable(table, addr)
  {
    assert forall i :: 0 <= i < |table| ==> table[i].addr == table'[i].addr;
  }

  lemma {:induction false} NotYetSeen(table: seq<Cand>, v: seq<Option<Hit>>, cap: nat, addr: nat)
    requires Sound(table, v, cap) && |table| < cap && !InTable(table, addr)
    ensures forall i :: 0 <= i < |v| ==> !Qualifies(v[i], addr)
  {}

  lemma {:induction false} AddSound(table: seq<Cand>, v: seq<Option<Hit>>, h: Hit, cap: nat)
    requires Sound(table, v, cap)
    ensures Sound(Add(table, h, cap), v + [Some(h)], cap)
  {
    hide Carried, Qualifies, Admits, InTable;
    var table', j := Add(table, h, cap), Find(table, h.sym.start);
    Located(table, table', h.sym.start);
    forall i | 0 <= i < |table| ensures Carried(table'[i], v + [Some(h)]) {
      CarriedOn(table[i], table'[i], v, Some(h));
    }
    if j == |table| < cap {
      NotYetSeen(table, v, cap, h.sym.start);
      NewCarried(v, h);
    }
    AdmitsOn(table, table', v, Some(h), cap);
  }

  lemma {:induction false} Located(table: seq<Cand>, table': seq<Cand>, addr: nat)
    ensures InTable(table, addr) <==> Find(table, addr) < |table|
    ensures (exists i :: 0 <= i < |table'| && table'[i].addr == addr) ==> InTable(table', addr)
    ensures |table'| > 0 && table'[|table'| - 1].addr == addr ==> InTable(table', addr)
    ensures Find(table, addr) < |table| <= |table'| && table'[Find(table, addr)].addr == addr ==> InTable(table', addr)
  {
    if Find(table, addr) < |table| { assert table[Find(table, addr)].addr == addr; }
  }

  lemma {:induction false} SkipSound(table: seq<Cand>, v: seq<Option<Hit>>, cap: nat)
    requires Sound(table, v, cap)
    ensures Sound(table, v + [None], cap)
  {
    hide Carried, Qualifies, Admits;
    forall i | 0 <= i < |table| ensures Carried(table[i], v + [None]) { CarriedOn(table[i], table[i], v, None); }
    AdmitsOn(table, table, v, None, cap);
  }

  lemma {:induction false} FoldSound(v: seq<Option<Hit>>, cap: nat)
    ensures Sound(Fold(Hits(v), cap), v, cap)
  {
    hide Sound, Add;
    if v == [] {
      NothingSound(cap);
    } else {
      var before, o := v[..|v| - 1], v[|v| - 1];
      FoldSound(before, cap);
      assert before + [o] == v;
      if o.Some? {
        AddSound(Fold(Hits(before), cap), before, o.value, cap);
        assert Hits(v)[..|Hits(v)| - 1] == Hits(before);
      } else {
        SkipSound(Fold(Hits(before), cap), before, cap);
      }
    }
  }

  lemma {:induction false} NothingSound(cap: nat)
    ensures Sound(Fold(Hits([]), cap), [], cap)
  {}

  lemma {:induction false} RankingSound(v: seq<Option<Hit>>, cap: nat)
    ensures Sound(Ranking(v, cap), v, cap)
  {
    hide Sort, Fold, Hits, Carried, Ranked, SeenBefore, InTable;
    var table, r := Fold(Hits(v), cap), Ranking(v, cap);
    FoldSound(v, cap);
    FoldDistinct(Hits(v), cap);
    SortRanks(table);
    SameMembers(r, table);
    SameMembers(table, r);
    SameAddresses(table, r);
    forall i | 0 <= i < |r| ensures Carried(r[i], v) {
      assert r[i] in table;
      var x :| 0 <= x < |table| && table[x] == r[i];
    }
    forall j | 0 <= j < |v| && v[j].Some? && !InTable(r, v[j].value.sym.start)
      ensures |r| == cap && forall i :: 0 <= i < |r| ==> SeenBefore(v, j, r[i].addr)
    {
      forall i | 0 <= i < |r| ensures SeenBefore(v, j, r[i].addr) {
        assert r[i] in table;
        var x :| 0 <= x < |table| && table[x] == r[i];
      }
    }
  }

  lemma {:induction false} SameAddresses(a: seq<Cand>, b: seq<Cand>)
    requires forall c :: c in a <==> c in b
    ensures forall addr :: InTable(a, addr) <==> InTable(b, addr)
  {
    forall addr ensures InTable(a, addr) <==> InTable(b, addr) {
      if InTable(a, addr) {
        var i :| 0 <= i < |a| && a[i].addr == addr;
        assert a[i] in b;
        var j :| 0 <= j < |b| && b[j] == a[i];
      }
      if InTable(b, addr) {
        var i :| 0 <= i < |b| && b[i].addr == addr;
        assert b[i] in a;
        var j :| 0 <= j < |a| && a[j] == b[i];
      }
    }
  }

  /** Highest weight first, ties by ascending address. */
  predicate InRankOrder(r: seq<Cand>) {
    forall i, j :: 0 <= i < j < |r| ==>
      r[i].arrivals > r[j].arrivals || (r[i].arrivals == r[j].arrivals && r[i].addr < r[j].addr)
  }

  /** What holds of the ranking of any verdicts. */
  lemma {:induction false} VerdictRanking(v: seq<Option<Hit>>, cap: nat)
    ensures var r := Ranking(v, cap);
            && InRankOrder(r) && Sound(r, v, cap)
            && (forall i :: 0 <= i < |r| ==>
                  r[i].arrivals == WeightOf(Hits(v), r[i].addr) && r[i].sites == CountOf(Hits(v), r[i].addr))
            && (cap >= |v| ==> forall j :: 0 <= j < |v| && v[j].Some? ==> InTable(r, v[j].value.sym.start))
  {
    hide Ranking, Seen, WeightOf, CountOf, Carried;
    var r := Ranking(v, cap);
    RankingSound(v, cap);
    RankingIsExact(v, cap);
    FewHits(v);
    assert Ranked(r);
    forall j | cap >= |v| && 0 <= j < |v| && v[j].Some? ensures InTable(r, v[j].value.sym.start) {
      QualifiedIsSeen(v, j);
      assert v[j].value.sym.start in Seen(Hits(v))[..|r|];
    }
  }

  lemma {:induction false} QualifiedIsSeen(v: seq<Option<Hit>>, j: nat)
    requires j < |v| && v[j].Some?
    ensures v[j].value.sym.start in Seen(Hits(v))
  {
    var last := |v| - 1;
    if j < last {
      QualifiedIsSeen(v[..last], j);
    }
    if v[last].Some? { assert Hits(v)[..|Hits(v)| - 1] == Hits(v[..last]); }
  }

  // ---------------------------------------------------------------- entry arrivals

  /** A call or jump that lands on the start of a sized symbol of an admitted module. */
  predicate Arrives(e: Branch, a: nat, resolve: Resolver, needle: string) {
    && !e.isReturn && e.toAddr == a
    && resolve(a).Some?
    && var s := resolve(a).value;
       s.start == a && s.size > 0 && (needle == "" || Contains(s.mod, needle))
  }

  function ArrivalsAt(edges: seq<Branch>, a: nat, resolve: Resolver, needle: string): nat {
    if edges == [] then 0
    else
      var e := edges[|edges| - 1];
      ArrivalsAt(edges[..|edges| - 1], a, resolve, needle) + (if Arrives(e, a, resolve, needle) then e.count else 0)
  }

  function SitesAt(edges: seq<Branch>, a: nat, resolve: Resolver, needle: string): nat {
    if edges == [] then 0
    else
      SitesAt(edges[..|edges| - 1], a, resolve, needle)
      + (if Arrives(edges[|edges| - 1], a, resolve, needle) then 1 else 0)
  }

  lemma {:induction false} EntryQualifies(e: Branch, a: nat, resolve: Resolver, needle: string)
    ensures var o := EntryVerdict(e, resolve, needle);
            && (Qualifies(o, a) <==> Arrives(e, a, resolve, needle))
            && (Qualifies(o, a) ==> o.value == Hit(resolve(a).value, e.count))
  {}

  lemma {:induction false} EntrySums(edges: seq<Branch>, a: nat, resolve: Resolver, needle: string)
    ensures var hits := Hits(EntryVerdicts(edges, resolve, needle));
            && WeightOf(hits, a) == ArrivalsAt(edges, a, resolve, needle)
            && CountOf(hits, a) == SitesAt(edges, a, resolve, needle)
  {
    hide EntryVerdict, Arrives;
    if edges != [] {
      var before, e := edges[..|edges| - 1], edges[|edges| - 1];
      var v := EntryVerdicts(edges, resolve, needle);
      EntrySums(before, a, resolve, needle);
      EntryQualifies(e, a, resolve, needle);
      assert v[..|v| - 1] == EntryVerdicts(before, resolve, needle) && v[|v| - 1] == EntryVerdict(e, resolve, needle);
      SumsSnoc(v, a);
    }
  }

  lemma {:induction false} SumsSnoc(v: seq<Option<Hit>>, a: nat)
    requires v != []
    ensures var before, o := Hits(v[..|v| - 1]), v[|v| - 1];
            && WeightOf(Hits(v), a) == WeightOf(before, a) + (if Qualifies(o, a) then o.value.weight else 0)
            && CountOf(Hits(v), a) == CountOf(before, a) + (if Qualifies(o, a) then 1 else 0)
  {
    if v[|v| - 1].Some? { assert Hits(v)[..|Hits(v)| - 1] == Hits(v[..|v| - 1]); }
  }

  /** An entry is a symbol that edges arrive at, with the symbol's own fields, the sum
      of their counts and their number. */
  ghost predicate EntryTells(c: Cand, edges: seq<Branch>, resolve: Resolver, needle: string) {
    && resolve(c.addr).Some?
    && (exists j :: 0 <= j < |edges| && Arrives(edges[j], c.addr, resolve, needle))
    && (var s := resolve(c.addr).value; c.size == s.size && c.name == s.name && c.mod == s.mod)
    && c.arrivals == ArrivalsAt(edges, c.addr, resolve, needle)
    && c.sites == SitesAt(edges, c.addr, resolve, needle)
  }

  /** The table has no room left, and some edge before j arrives at each of its symbols. */
  ghost predicate FullBefore(r: seq<Cand>, edges: seq<Branch>, j: nat, resolve: Resolver, needle: string, cap: nat)
    requires j <= |edges|
  {
    && |r| == cap && cap < |edges|
    && forall i :: 0 <= i < |r| ==> ArrivedBefore(edges, j, r[i].addr, resolve, needle)
  }

  predicate ArrivedBefore(edges: seq<Branch>, j: nat, a: nat, resolve: Resolver, needle: string)
    requires j <= |edges|
  {
    exists x :: 0 <= x < j && Arrives(edges[x], a, resolve, needle)
  }

  /** The ranking of entry arrivals, in terms of the edges: strict order; every entry
      tells its symbol's arrivals exactly; a symbol with arrivals is missing only if
      the table is full of symbols seen before; so with room for every edge the ranking
      holds exactly the symbols that edges arrive at. */
  lemma {:induction false} EntryRanking(edges: seq<Branch>, resolve: Resolver, needle: string, cap: nat)
    ensures var r := Ranking(EntryVerdicts(edges, resolve, needle), cap);
            && InRankOrder(r) && |r| <= cap
            && (forall i :: 0 <= i < |r| ==> EntryTells(r[i], edges, resolve, needle))
            && (forall j :: 0 <= j < |edges| && Arrives(edges[j], edges[j].toAddr, resolve, needle) ==>
                  InTable(r, edges[j].toAddr) || FullBefore(r, edges, j, resolve, needle, cap))
  {
    hide Ranking, EntryVerdict, Hits, WeightOf, CountOf, Arrives, InTable;
    var v := EntryVerdicts(edges, resolve, needle);
    var r := Ranking(v, cap);
    VerdictRanking(v, cap);
    forall i | 0 <= i < |r| ensures EntryTells(r[i], edges, resolve, needle) {
      EntrySums(edges, r[i].addr, resolve, needle);
      var j :| 0 <= j < |v| && Carries(r[i], v, j);
      EntryQualifies(edges[j], r[i].addr, resolve, needle);
      ArrivesResolved(edges[j], r[i].addr, resolve, needle);
    }
    forall j | 0 <= j < |edges| && Arrives(edges[j], edges[j].toAddr, resolve, needle) && !InTable(r, edges[j].toAddr)
      ensures FullBefore(r, edges, j, resolve, needle, cap)
    {
      EntryFull(r, edges, j, resolve, needle, cap);
    }
  }

  lemma {:induction false} EntryFull(r: seq<Cand>, edges: seq<Branch>, j: nat, resolve: Resolver, needle: string, cap: nat)
    requires j < |edges| && Arrives(edges[j], edges[j].toAddr, resolve, needle) && !InTable(r, edges[j].toAddr)
    requires var v := EntryVerdicts(edges, resolve, needle);
             && Admits(r, v, cap)
             && (cap >= |v| ==> forall x :: 0 <= x < |v| && v[x].Some? ==> InTable(r, v[x].value.sym.start))
    ensures FullBefore(r, edges, j, resolve, needle, cap)
  {
    hide EntryVerdict, Arrives, InTable;
    var v := EntryVerdicts(edges, resolve, needle);
    EntryQualifies(edges[j], edges[j].toAddr, resolve, needle);
    assert v[j].Some? && v[j].value.sym.start == edges[j].toAddr && |v| == |edges|;
    assert |r| == cap;
    forall i | 0 <= i < |r| ensures ArrivedBefore(edges, j, r[i].addr, resolve, needle) {
      assert SeenBefore(v, j, r[i].addr);
      var x :| 0 <= x < j && Qualifies(v[x], r[i].addr);
      EntryQualifies(edges[x], r[i].addr, resolve, needle);
    }
  }

  lemma {:induction false} ArrivesResolved(e: Branch, a: nat, resolve: Resolver, needle: string)
    requires Arrives(e, a, resolve, needle)
    ensures resolve(a).Some? && resolve(a).value.start == a
  {}

  // ---------------------------------------------------------------- residency

  /** A sample inside a sized symbol that starts at a, of an admitted module; the end
      of the symbol is computed in 64 bits. */
  predicate Resides(h: IpHit, a: nat, resolve: Resolver, needle: string) {
    && resolve(h.ip).Some?
    && var s := resolve(h.ip).value;
       && s.start == a && s.size > 0
       && a <= h.ip < (a + s.size) % 0x1_0000_0000_0000_0000
       && (needle == "" || Contains(s.mod, needle))
  }

  function ResidenceAt(ips: seq<IpHit>, a: nat, resolve: Resolver, needle: string): nat {
    if ips == [] then 0
    else
      var h := ips[|ips| - 1];
      ResidenceAt(ips[..|ips| - 1], a, resolve, needle) + (if Resides(h, a, resolve, needle) then h.count else 0)
  }

  function OffsetsAt(ips: seq<IpHit>, a: nat, resolve: Resolver, needle: string): nat {
    if ips == [] then 0
    else
      OffsetsAt(ips[..|ips| - 1], a, resolve, needle) + (if Resides(ips[|ips| - 1], a, resolve, needle) then 1 else 0)
  }

  lemma {:induction false} ResidencyQualifies(h: IpHit, a: nat, resolve: Resolver, needle: string)
    ensures var o := ResidencyVerdict(h, resolve, needle);
            && (Qualifies(o, a) <==> Resides(h, a, resolve, needle))
            && (Qualifies(o, a) ==> o.value == Hit(resolve(h.ip).value, h.count))
  {}

  lemma {:induction false} ResidencySums(ips: seq<IpHit>, a: nat, resolve: Resolver, needle: string)
    ensures var hits := Hits(ResidencyVerdicts(ips, resolve, needle));
            && WeightOf(hits, a) == ResidenceAt(ips, a, resolve, needle)
            && CountOf(hits, a) == OffsetsAt(ips, a, resolve, needle)
  {
    hide ResidencyVerdict, Resides;
    if ips != [] {
      var before, h := ips[..|ips| - 1], ips[|ips| - 1];
      var v := ResidencyVerdicts(ips, resolve, needle);
      ResidencySums(before, a, resolve, needle);
      ResidencyQualifies(h, a, resolve, needle);
      assert v[..|v| - 1] == ResidencyVerdicts(before, resolve, needle) && v[|v| - 1] == ResidencyVerdict(h, resolve, needle);
      SumsSnoc(v, a);
    }
  }

  /** Sample j is the first inside the symbol at a, and c carries what was resolved there. */
  predicate FirstResident(c: Cand, ips: seq<IpHit>, j: nat, resolve: Resolver, needle: string)
    requires j < |ips|
  {
    && Resides(ips[j], c.addr, resolve, needle)
    && (forall x :: 0 <= x < j ==> !Resides(ips[x], c.addr, resolve, needle))
    && var s := resolve(ips[j].ip).value; c.size == s.size && c.name == s.name && c.mod == s.mod
  }

  ghost predicate ResidencyTells(c: Cand, ips: seq<IpHit>, resolve: Resolver, needle: string) {
    && (exists j :: 0 <= j < |ips| && FirstResident(c, ips, j, resolve, needle))
    && c.arrivals == ResidenceAt(ips, c.addr, resolve, needle)
    && c.sites == OffsetsAt(ips, c.addr, resolve, needle)
  }

  ghost predicate FullOfResidents(r: seq<Cand>, ips: seq<IpHit>, j: nat, resolve: Resolver, needle: string, cap: nat)
    requires j <= |ips|
  {
    && |r| == cap && cap < |ips|
    && forall i :: 0 <= i < |r| ==> ResidedBefore(ips, j, r[i].addr, resolve, needle)
  }

  predicate ResidedBefore(ips: seq<IpHit>, j: nat, a: nat, resolve: Resolver, needle: string)
    requires j <= |ips|
  {
    exists x :: 0 <= x < j && Resides(ips[x], a, resolve, needle)
  }

  /** The ranking of residency samples, likewise; an entry carries what the resolver
      said at the first sample inside its symbol. */
  lemma {:induction false} ResidencyRanking(ips: seq<IpHit>, resolve: Resolver, needle: string, cap: nat)
    ensures var r := Ranking(ResidencyVerdicts(ips, resolve, needle), cap);
            && InRankOrder(r) && |r| <= cap
            && (forall i :: 0 <= i < |r| ==> ResidencyTells(r[i], ips, resolve, needle))
            && (forall j, a :: 0 <= j < |ips| && Resides(ips[j], a, resolve, needle) ==>
                  InTable(r, a) || FullOfResidents(r, ips, j, resolve, needle, cap))
  {
    hide Ranking, ResidencyVerdict, Hits, WeightOf, CountOf, Resides, InTable;
    var v := ResidencyVerdicts(ips, resolve, needle);
    var r := Ranking(v, cap);
    VerdictRanking(v, cap);
    forall i | 0 <= i < |r| ensures ResidencyTells(r[i], ips, resolve, needle) {
      ResidencySums(ips, r[i].addr, resolve, needle);
      var j :| 0 <= j < |v| && Carries(r[i], v, j);
      forall x | 0 <= x <= j ensures Qualifies(v[x], r[i].addr) <==> Resides(ips[x], r[i].addr, resolve, needle) {
        ResidencyQualifies(ips[x], r[i].addr, resolve, needle);
      }
      ResidencyQualifies(ips[j], r[i].addr, resolve, needle);
      ResidesResolved(ips[j], r[i].addr, resolve, needle);
      assert FirstResident(r[i], ips, j, resolve, needle);
    }
    forall j, a | 0 <= j < |ips| && Resides(ips[j], a, resolve, needle) && !InTable(r, a)
      ensures FullOfResidents(r, ips, j, resolve, needle, cap)
    {
      ResidencyFull(r, ips, j, a, resolve, needle, cap);
    }
  }

  lemma {:induction false} ResidencyFull(r: seq<Cand>, ips: seq<IpHit>, j: nat, a: nat, resolve: Resolver, needle: string, cap: nat)
    requires j < |ips| && Resides(ips[j], a, resolve, needle) && !InTable(r, a)
    requires var v := ResidencyVerdicts(ips, resolve, needle);
             && Admits(r, v, cap)
             && (cap >= |v| ==> forall x :: 0 <= x < |v| && v[x].Some? ==> InTable(r, v[x].value.sym.start))
    ensures FullOfResidents(r, ips, j, resolve, needle, cap)
  {
    hide ResidencyVerdict, Resides, InTable;
    var v := ResidencyVerdicts(ips, resolve, needle);
    ResidencyQualifies(ips[j], a, resolve, needle);
    assert v[j].Some? && v[j].value.sym.start == a && |v| == |ips|;
    assert |r| == cap;
    forall i | 0 <= i < |r| ensures ResidedBefore(ips, j, r[i].addr, resolve, needle) {
      assert SeenBefore(v, j, r[i].addr);
      var x :| 0 <= x < j && Qualifies(v[x], r[i].addr);
      ResidencyQualifies(ips[x], r[i].addr, resolve, needle);
    }
  }

  lemma {:induction false} ResidesResolved(h: IpHit, a: nat, resolve: Resolver, needle: string)
    requires Resides(h, a, resolve, needle)
    ensures resolve(h.ip).Some?
  {}
}
