/** Ranking candidate regions (`asmspy_autoregion_rank`, `asmspy_autoregion_rank_ip`):
    fold the samples into a bounded table, then sort it in place. */
module RegionRank {
  import opened Common

  datatype Symbol = Symbol(start: nat, size: nat, name: string, mod: string)

  /** What the resolver says about an address. */
  type Resolver = nat -> Option<Symbol>

  /** An observed branch: where it went, whether it returned, how often. */
  datatype Branch = Branch(toAddr: nat, isReturn: bool, count: nat)

  datatype IpHit = IpHit(ip: nat, count: nat)

  /** A qualifying sample: it adds `weight` to the symbol. */
  datatype Hit = Hit(sym: Symbol, weight: nat)

  datatype Cand = Cand(addr: nat, size: nat, name: string, mod: string, arrivals: nat, sites: nat)

  // ---------------------------------------------------------------- which samples qualify

  predicate PassesModule(mod: string, needle: string) { needle == "" || Contains(mod, needle) }

  /** An entry arrival: not a return, and it lands on the start of a sized symbol
      of an admitted module. */
  function EntryVerdict(b: Branch, resolve: Resolver, needle: string): Option<Hit> {
    if b.isReturn then None
    else
      match resolve(b.toAddr)
      case None => None
      case Some(s) =>
        if b.toAddr != s.start || s.size == 0 || !PassesModule(s.mod, needle) then None
        else Some(Hit(s, b.count))
  }

  /** A residency sample: inside a sized symbol of an admitted module; the end of
      the symbol is computed in 64 bits. */
  function ResidencyVerdict(h: IpHit, resolve: Resolver, needle: string): Option<Hit> {
    match resolve(h.ip)
    case None => None
    case Some(s) =>
      if s.size == 0 || h.ip < s.start || h.ip >= (s.start + s.size) % WRAP || !PassesModule(s.mod, needle)
      then None
      else Some(Hit(s, h.count))
  }

  function Hits(verdicts: seq<Option<Hit>>): seq<Hit> {
    if verdicts == [] then []
    else
      var last := verdicts[|verdicts| - 1];
      if last.Some? then Hits(verdicts[..|verdicts| - 1]) + [last.value] else Hits(verdicts[..|verdicts| - 1])
  }

  // ---------------------------------------------------------------- the fold

  function Find(table: seq<Cand>, addr: nat): (j: nat)
    ensures j <= |table| && (j < |table| ==> table[j].addr == addr)
    ensures forall i :: 0 <= i < j ==> table[i].addr != addr
  {
    if table == [] then 0 else if table[0].addr == addr then 0 else 1 + Find(table[1..], addr)
  }

  function Add(table: seq<Cand>, h: Hit, cap: nat): seq<Cand> {
    var j := Find(table, h.sym.start);
    if j < |table| then
      table[j := table[j].(arrivals := table[j].arrivals + h.weight, sites := table[j].sites + 1)]
    else if |table| >= cap then table
    else table + [Cand(h.sym.start, h.sym.size, h.sym.name, h.sym.mod, h.weight, 1)]
  }

  function Fold(hits: seq<Hit>, cap: nat): seq<Cand> {
    if hits == [] then [] else Add(Fold(hits[..|hits| - 1], cap), hits[|hits| - 1], cap)
  }

  /** All the weight, and all the samples, that fell on one symbol. */
  function WeightOf(hits: seq<Hit>, addr: nat): nat {
    if hits == [] then 0
    else WeightOf(hits[..|hits| - 1], addr) +
         (if hits[|hits| - 1].sym.start == addr then hits[|hits| - 1].weight else 0)
  }

  function CountOf(hits: seq<Hit>, addr: nat): nat {
    if hits == [] then 0
    else CountOf(hits[..|hits| - 1], addr) + (if hits[|hits| - 1].sym.start == addr then 1 else 0)
  }

  /** The symbols in the order they were first seen. */
  function Seen(hits: seq<Hit>): (addrs: seq<nat>)
    ensures forall i, j :: 0 <= i < j < |addrs| ==> addrs[i] != addrs[j]
    ensures |addrs| <= |hits|
  {
    if hits == [] then []
    else
      var before, a := Seen(hits[..|hits| - 1]), hits[|hits| - 1].sym.start;
      if a in before then before else before + [a]
  }

  function Min(a: nat, b: nat): nat { if a < b then a else b }

  /** The table holds exactly the first `cap` distinct symbols, each with the
      exact weight and count of all its samples. */
  predicate Exact(table: seq<Cand>, hits: seq<Hit>, cap: nat) {
    && |table| == Min(cap, |Seen(hits)|)
    && forall i :: 0 <= i < |table| ==>
         && table[i].addr == Seen(hits)[i]
         && table[i].arrivals == WeightOf(hits, table[i].addr)
         && table[i].sites == CountOf(hits, table[i].addr)
  }

  lemma {:induction false} UnseenWeighsNothing(hits: seq<Hit>, addr: nat)
    requires addr !in Seen(hits)
    ensures WeightOf(hits, addr) == 0 && CountOf(hits, addr) == 0
  {
    if hits != [] { UnseenWeighsNothing(hits[..|hits| - 1], addr); }
  }

  lemma {:induction false} AddExact(table: seq<Cand>, before: seq<Hit>, h: Hit, cap: nat)
    requires Exact(table, before, cap)
    ensures Exact(Add(table, h, cap), before + [h], cap)
  {
    var hits := before + [h];
    assert hits[..|before|] == before;
    var a := h.sym.start;
    var j := Find(table, a);
    if j < |table| {
      assert Seen(hits) == Seen(before);
    } else if |table| < cap {
      assert a !in Seen(before);
      UnseenWeighsNothing(before, a);
    }
  }

  lemma {:induction false} FoldExact(hits: seq<Hit>, cap: nat)
    ensures Exact(Fold(hits, cap), hits, cap)
  {
    hide Exact, Add;
    if hits == [] {
      EmptyExact(cap);
    } else {
      var last := |hits| - 1;
      FoldExact(hits[..last], cap);
      AddExact(Fold(hits[..last], cap), hits[..last], hits[last], cap);
      assert hits[..last] + [hits[last]] == hits;
    }
  }

  lemma {:induction false} EmptyExact(cap: nat)
    ensures Exact([], [], cap)
  {}

  // ---------------------------------------------------------------- the sort

  /** More arrivals first, ties by ascending address. */
  predicate Before(a: Cand, b: Cand) {
    a.arrivals > b.arrivals || (a.arrivals == b.arrivals && a.addr < b.addr)
  }

  predicate Ranked(s: seq<Cand>) { forall i, j :: 0 <= i < j < |s| ==> Before(s[i], s[j]) }

  function Insert(s: seq<Cand>, key: Cand): seq<Cand> {
    if s == [] || !Before(key, s[|s| - 1]) then s + [key]
    else Insert(s[..|s| - 1], key) + [s[|s| - 1]]
  }

  function Sort(s: seq<Cand>): seq<Cand> {
    if s == [] then [] else Insert(Sort(s[..|s| - 1]), s[|s| - 1])
  }

  predicate DistinctAddrs(s: seq<Cand>) {
    forall i, j :: 0 <= i < j < |s| ==> s[i].addr != s[j].addr
  }

  lemma {:induction false} InsertMembers(s: seq<Cand>, key: Cand)
    ensures multiset(Insert(s, key)) == multiset(s) + multiset{key}
  {
    if s != [] && Before(key, s[|s| - 1]) {
      InsertMembers(s[..|s| - 1], key);
      assert s == s[..|s| - 1] + [s[|s| - 1]];
    }
  }

  lemma {:induction false} MemberOf(s: seq<Cand>, t: seq<Cand>, x: Cand)
    requires multiset(t) == multiset(s) + multiset{x}
    ensures forall c :: c in t <==> c in s || c == x
  {
    assert forall c :: c in t <==> c in multiset(t);
    assert forall c :: c in s <==> c in multiset(s);
  }

  lemma {:induction false} InsertRanked(s: seq<Cand>, key: Cand)
    requires Ranked(s) && forall i :: 0 <= i < |s| ==> s[i].addr != key.addr
    ensures Ranked(Insert(s, key))
  {
    if s != [] {
      var last := |s| - 1;
      if Before(key, s[last]) {
        InsertRanked(s[..last], key);
        InsertMembers(s[..last], key);
        MemberOf(s[..last], Insert(s[..last], key), key);
        var t := Insert(s[..last], key);
        forall i | 0 <= i < |t| ensures Before(t[i], s[last]) {
          assert t[i] in t;
          if t[i] != key {
            var j :| 0 <= j < last && s[..last][j] == t[i];
            assert Before(s[j], s[last]);
          }
        }
      } else {
        assert forall i :: 0 <= i < last ==> Before(s[i], s[last]);
      }
    }
  }

  lemma {:induction false} NothingRanked()
    ensures Ranked([])
  {}

  /** The sort ranks strictly and keeps every candidate. */
  lemma {:induction false} SortRanks(s: seq<Cand>)
    requires DistinctAddrs(s)
    ensures Ranked(Sort(s)) && multiset(Sort(s)) == multiset(s)
  {
    hide Ranked, Insert, Before;
    if s == [] {
      NothingRanked();
    } else {
      var last := |s| - 1;
      SortRanks(s[..last]);
      var t := Sort(s[..last]);
      SameMembers(t, s[..last]);
      forall i | 0 <= i < |t| ensures t[i].addr != s[last].addr {
        var j :| 0 <= j < last && s[..last][j] == t[i];
      }
      InsertRanked(t, s[last]);
      InsertMembers(t, s[last]);
      assert s == s[..last] + [s[last]];
    }
  }

  lemma {:induction false} SortNothing()
    ensures Sort([]) == []
  {}

  lemma {:induction false} SortSnoc(s: seq<Cand>, c: Cand)
    ensures Sort(s + [c]) == Insert(Sort(s), c)
  {
    assert (s + [c])[..|s|] == s;
  }

  lemma {:induction false} SortOne(c: Cand)
    ensures Sort([c]) == [c]
  {
    SortSnoc([], c);
    assert [] + [c] == [c];
  }

  /** The key goes below an element it ranks before. */
  lemma {:induction false} InsertBelow(s: seq<Cand>, j: nat, key: Cand)
    requires 0 < j <= |s| && Before(key, s[j - 1])
    ensures Insert(s[..j], key) + s[j..] == Insert(s[..j - 1], key) + s[j - 1..]
  {
    assert s[..j][..j - 1] == s[..j - 1];
    assert s[j - 1..] == [s[j - 1]] + s[j..];
  }

  lemma {:induction false} Assembled(s: seq<Cand>, sorted: seq<Cand>, j: nat, key: Cand)
    requires j <= |sorted| && |s| == |sorted| + 1 && s[j] == key
    requires forall k :: 0 <= k < j ==> s[k] == sorted[k]
    requires forall k :: j < k < |s| ==> s[k] == sorted[k - 1]
    ensures s == sorted[..j] + [key] + sorted[j..]
  {}

  lemma {:induction false} InsertHere(s: seq<Cand>, j: nat, key: Cand)
    requires j <= |s| && (j > 0 ==> !Before(key, s[j - 1]))
    ensures Insert(s[..j], key) == s[..j] + [key]
  {}

  /** The insertion sort of the first n slots, in place. */
  method SortInPlace(out: array<Cand>, n: nat)
    requires n <= out.Length
    modifies out
    ensures out[..n] == Sort(old(out[..n]))
    ensures out[n..] == old(out[n..])
  {
    hide Sort, Insert;
    ghost var was := out[..];
    if n == 0 {
      SortNothing();
      return;
    }
    var i := 1;
    SortOne(was[0]);
    assert out[..1] == [was[0]] == was[..1];
    while i < n
      invariant 1 <= i <= n
      invariant out[..i] == Sort(was[..i])
      invariant forall k :: i <= k < out.Length ==> out[k] == was[k]
    {
      SortSnoc(was[..i], was[i]);
      assert was[..i + 1] == was[..i] + [was[i]];
      InsertAt(out, i);
      i := i + 1;
    }
    assert was[..n] == old(out[..n]);
  }

  /** The inner loop: shift the larger ones up, put the key in the hole. */
  method InsertAt(out: array<Cand>, i: nat)
    requires i < out.Length
    modifies out
    ensures out[..i + 1] == Insert(old(out[..i]), old(out[i]))
    ensures forall k :: i < k < out.Length ==> out[k] == old(out[k])
  {
    hide Insert, Before;
    ghost var sorted := out[..i];
    var key := out[i];
    assert sorted[..i] == sorted && sorted[i..] == [];
    var j := i;
    while j > 0 && Before(key, out[j - 1])
      invariant 0 <= j <= i
      invariant forall k :: 0 <= k < j ==> out[k] == sorted[k]
      invariant forall k :: j < k <= i ==> out[k] == sorted[k - 1]
      invariant Insert(sorted, key) == Insert(sorted[..j], key) + sorted[j..]
      invariant forall k :: i < k < out.Length ==> out[k] == old(out[k])
    {
      InsertBelow(sorted, j, key);
      out[j] := out[j - 1];
      j := j - 1;
    }
    InsertHere(sorted, j, key);
    out[j] := key;
    Assembled(out[..i + 1], sorted, j, key);
  }

  // ---------------------------------------------------------------- the ranking

  function Ranking(verdicts: seq<Option<Hit>>, cap: nat): seq<Cand> { Sort(Fold(Hits(verdicts), cap)) }

  /** The fold and the sort of both rank functions. */
  method Rank(verdicts: seq<Option<Hit>>, out: array<Cand>) returns (n: nat)
    modifies out
    ensures n <= out.Length && out[..n] == Ranking(verdicts, out.Length)
  {
    n := 0;
    assert verdicts[..0] == [] && out[..0] == [];
    if out.Length == 0 {
      NothingFits(Hits(verdicts));
      return 0;
    }
    for i := 0 to |verdicts|
      invariant n <= out.Length && out[..n] == Fold(Hits(verdicts[..i]), out.Length)
    {
      assert verdicts[..i + 1][..i] == verdicts[..i] && verdicts[..i + 1][i] == verdicts[i];
      if verdicts[i].Some? {
        ghost var hits := Hits(verdicts[..i]);
        assert (hits + [verdicts[i].value])[..|hits|] == hits;
        n := FoldIn(out, n, verdicts[i].value);
      }
    }
    assert verdicts[..|verdicts|] == verdicts;
    SortInPlace(out, n);
  }

  /** One turn of the folding loop. */
  method FoldIn(out: array<Cand>, n: nat, h: Hit) returns (n': nat)
    requires n <= out.Length
    modifies out
    ensures n' <= out.Length && out[..n'] == Add(old(out[..n]), h, out.Length)
  {
    var j := 0;
    ghost var table := out[..n];
    while j < n && out[j].addr != h.sym.start
      invariant j <= n && forall i :: 0 <= i < j ==> table[i].addr != h.sym.start
    {
      j := j + 1;
    }
    assert j < n ==> table[j] == out[j];
    assert Find(table, h.sym.start) == j;
    n' := n;
    if j < n {
      out[j] := out[j].(arrivals := out[j].arrivals + h.weight, sites := out[j].sites + 1);
    } else if n < out.Length {
      out[n] := Cand(h.sym.start, h.sym.size, h.sym.name, h.sym.mod, h.weight, 1);
      n' := n + 1;
    }
  }

  lemma {:induction false} NothingFits(hits: seq<Hit>)
    ensures Fold(hits, 0) == []
  {
    if hits != [] { NothingFits(hits[..|hits| - 1]); }
  }

  function Judge<T>(xs: seq<T>, verdict: T -> Option<Hit>): (v: seq<Option<Hit>>)
    ensures |v| == |xs| && forall i :: 0 <= i < |v| ==> v[i] == verdict(xs[i])
  {
    seq(|xs|, i requires 0 <= i < |xs| => verdict(xs[i]))
  }

  function EntryVerdicts(edges: seq<Branch>, resolve: Resolver, needle: string): seq<Option<Hit>> {
    Judge(edges, e => EntryVerdict(e, resolve, needle))
  }

  function ResidencyVerdicts(ips: seq<IpHit>, resolve: Resolver, needle: string): seq<Option<Hit>> {
    Judge(ips, h => ResidencyVerdict(h, resolve, needle))
  }

  /** `asmspy_autoregion_rank`. */
  method AutoregionRank(edges: seq<Branch>, resolve: Resolver, needle: string, out: array<Cand>) returns (n: nat)
    modifies out
    ensures n <= out.Length && out[..n] == Ranking(EntryVerdicts(edges, resolve, needle), out.Length)
  {
    n := Rank(EntryVerdicts(edges, resolve, needle), out);
  }

  /** `asmspy_autoregion_rank_ip`. */
  method AutoregionRankIp(ips: seq<IpHit>, resolve: Resolver, needle: string, out: array<Cand>) returns (n: nat)
    modifies out
    ensures n <= out.Length && out[..n] == Ranking(ResidencyVerdicts(ips, resolve, needle), out.Length)
  {
    n := Rank(ResidencyVerdicts(ips, resolve, needle), out);
  }

  // ---------------------------------------------------------------- what the ranking is

  lemma {:induction false} FoldDistinct(hits: seq<Hit>, cap: nat)
    ensures DistinctAddrs(Fold(hits, cap))
  {
    FoldExact(hits, cap);
  }

  /** The ranking is strictly ordered, holds exactly the first `cap` distinct
      symbols seen, and gives each the exact weight and number of its samples. */
  lemma {:induction false} RankingIsExact(verdicts: seq<Option<Hit>>, cap: nat)
    ensures var r, hits := Ranking(verdicts, cap), Hits(verdicts);
            && Ranked(r)
            && |r| == Min(cap, |Seen(hits)|)
            && (forall i :: 0 <= i < |r| ==>
                  && r[i].addr in Seen(hits)[..|r|]
                  && r[i].arrivals == WeightOf(hits, r[i].addr)
                  && r[i].sites == CountOf(hits, r[i].addr))
            && (forall a :: a in Seen(hits)[..|r|] ==> exists i :: 0 <= i < |r| && r[i].addr == a)
  {
    hide Before, Sort, Fold, Seen, WeightOf, CountOf, Ranked, Hits;
    var hits := Hits(verdicts);
    var table, r := Fold(hits, cap), Ranking(verdicts, cap);
    FoldExact(hits, cap);
    FoldDistinct(hits, cap);
    SortRanks(table);
    SameMembers(r, table);
    ExactWhenPermuted(table, r, hits, cap);
  }

  /** A permutation of an exact table is as exact. */
  lemma {:induction false} ExactWhenPermuted(table: seq<Cand>, r: seq<Cand>, hits: seq<Hit>, cap: nat)
    requires Exact(table, hits, cap) && |r| == |table| && forall c :: c in r <==> c in table
    ensures |r| == Min(cap, |Seen(hits)|)
    ensures forall i :: 0 <= i < |r| ==>
              && r[i].addr in Seen(hits)[..|r|]
              && r[i].arrivals == WeightOf(hits, r[i].addr)
              && r[i].sites == CountOf(hits, r[i].addr)
    ensures forall a :: a in Seen(hits)[..|r|] ==> exists i :: 0 <= i < |r| && r[i].addr == a
  {
    hide Seen, WeightOf, CountOf;
    forall i | 0 <= i < |r|
      ensures && r[i].addr in Seen(hits)[..|r|]
              && r[i].arrivals == WeightOf(hits, r[i].addr)
              && r[i].sites == CountOf(hits, r[i].addr)
    {
      assert r[i] in table;
      var j :| 0 <= j < |table| && table[j] == r[i];
      assert Seen(hits)[..|r|][j] == table[j].addr;
    }
    forall a | a in Seen(hits)[..|r|] ensures exists i :: 0 <= i < |r| && r[i].addr == a {
      var j :| 0 <= j < |r| && Seen(hits)[..|r|][j] == a;
      assert table[j] in r;
      var i :| 0 <= i < |r| && r[i] == table[j];
    }
  }

  // ---------------------------------------------------------------- independence of input order

  lemma {:induction false} SumsSplit(a: seq<Hit>, b: seq<Hit>, addr: nat)
    ensures WeightOf(a + b, addr) == WeightOf(a, addr) + WeightOf(b, addr)
    ensures CountOf(a + b, addr) == CountOf(a, addr) + CountOf(b, addr)
  {
    if b == [] {
      assert a + b == a;
    } else {
      assert (a + b)[..|a + b| - 1] == a + b[..|b| - 1];
      SumsSplit(a, b[..|b| - 1], addr);
    }
  }

  lemma {:induction false} SumsWithout(hits: seq<Hit>, i: nat, addr: nat)
    requires i < |hits|
    ensures var rest := hits[..i] + hits[i + 1..];
            && WeightOf(hits, addr) == WeightOf(rest, addr) + WeightOf([hits[i]], addr)
            && CountOf(hits, addr) == CountOf(rest, addr) + CountOf([hits[i]], addr)
            && multiset(hits) == multiset(rest) + multiset{hits[i]}
  {
    assert hits == (hits[..i] + [hits[i]]) + hits[i + 1..];
    SumsSplit(hits[..i] + [hits[i]], hits[i + 1..], addr);
    SumsSplit(hits[..i], [hits[i]], addr);
    SumsSplit(hits[..i], hits[i + 1..], addr);
  }

  lemma {:induction false} SumsIgnoreOrder(a: seq<Hit>, b: seq<Hit>, addr: nat)
    requires multiset(a) == multiset(b)
    ensures WeightOf(a, addr) == WeightOf(b, addr) && CountOf(a, addr) == CountOf(b, addr)
    decreases |a|
  {
    SameMembers(a, b);
    if a != [] {
      var last := |a| - 1;
      assert a[last] in b;
      var i :| 0 <= i < |b| && b[i] == a[last];
      SumsWithout(b, i, addr);
      SumsWithout(a, last, addr);
      assert a[..last] + a[last + 1..] == a[..last];
      RestPermuted(a, b, i);
      SumsIgnoreOrder(a[..last], b[..i] + b[i + 1..], addr);
    }
  }

  lemma {:induction false} SeenIffHit(hits: seq<Hit>, addr: nat)
    ensures addr in Seen(hits) <==> CountOf(hits, addr) > 0
  {
    if hits != [] { SeenIffHit(hits[..|hits| - 1], addr); }
  }

  /** The part of a candidate that does not depend on which sample named it. */
  predicate Agree(a: Cand, b: Cand) { a.addr == b.addr && a.arrivals == b.arrivals && a.sites == b.sites }

  predicate Matched(c: Cand, s: seq<Cand>) { exists j :: 0 <= j < |s| && Agree(c, s[j]) }

  predicate Within(r: seq<Cand>, s: seq<Cand>) { forall i :: 0 <= i < |r| ==> Matched(r[i], s) }

  /** Two strict rankings of the same addresses and weights are the same list. */
  lemma {:induction false} RankingUnique(r: seq<Cand>, s: seq<Cand>)
    requires Ranked(r) && Ranked(s) && Within(r, s) && Within(s, r)
    ensures |r| == |s| && forall i :: 0 <= i < |r| ==> Agree(r[i], s[i])
    decreases |r|
  {
    if r != [] && s != [] {
      FirstAgrees(r, s);
      TailsMatch(r, s);
      TailsMatch(s, r);
      RankingUnique(r[1..], s[1..]);
      forall i | 0 <= i < |r| ensures Agree(r[i], s[i]) {
        if i > 0 { assert r[i] == r[1..][i - 1] && s[i] == s[1..][i - 1]; }
      }
    } else {
      NothingWithin(r, s);
      NothingWithin(s, r);
    }
  }

  lemma {:induction false} NothingWithin(r: seq<Cand>, s: seq<Cand>)
    requires Within(r, s)
    ensures s == [] ==> r == []
  {
    if r != [] { assert Matched(r[0], s); }
  }

  lemma {:induction false} FirstAgrees(r: seq<Cand>, s: seq<Cand>)
    requires r != [] && s != [] && Ranked(r) && Ranked(s) && Within(r, s) && Within(s, r)
    ensures Agree(r[0], s[0])
  {
    hide Ranked, Before;
    assert Matched(r[0], s) && Matched(s[0], r);
    var j :| 0 <= j < |s| && Agree(r[0], s[j]);
    var i :| 0 <= i < |r| && Agree(s[0], r[i]);
    NotBothBefore(r, s, i, j);
  }

  lemma {:induction false} NotBothBefore(r: seq<Cand>, s: seq<Cand>, i: nat, j: nat)
    requires Ranked(r) && Ranked(s) && i < |r| && j < |s|
    requires Agree(r[0], s[j]) && Agree(s[0], r[i])
    ensures i == 0 || j == 0
  {
    if i > 0 { assert Before(r[0], r[i]); }
  }

  lemma {:induction false} TailsMatch(r: seq<Cand>, s: seq<Cand>)
    requires r != [] && s != [] && Ranked(r) && Agree(r[0], s[0]) && Within(r, s)
    ensures Within(r[1..], s[1..])
  {
    forall i | 0 <= i < |r[1..]| ensures Matched(r[1..][i], s[1..]) {
      assert Matched(r[i + 1], s);
      var j :| 0 <= j < |s| && Agree(r[i + 1], s[j]);
      assert Before(r[0], r[i + 1]);
      assert Agree(r[1..][i], s[1..][j - 1]);
    }
  }

  lemma {:induction false} RankedWithin(v: seq<Option<Hit>>, w: seq<Option<Hit>>, cap: nat)
    requires multiset(Hits(v)) == multiset(Hits(w)) && cap >= |Hits(w)|
    ensures Within(Ranking(v, cap), Ranking(w, cap))
  {
    hide Ranking, Before, Ranked;
    RankingIsExact(v, cap);
    RankingIsExact(w, cap);
    var r, s := Ranking(v, cap), Ranking(w, cap);
    forall i | 0 <= i < |r| ensures Matched(r[i], s) {
      var a := r[i].addr;
      SumsIgnoreOrder(Hits(v), Hits(w), a);
      SeenIffHit(Hits(v), a);
      SeenIffHit(Hits(w), a);
      assert Seen(Hits(w))[..|s|] == Seen(Hits(w));
      var j :| 0 <= j < |s| && s[j].addr == a;
      assert Agree(r[i], s[j]);
    }
  }

  /** With room for every sample, the ranking (addresses, weights and site counts)
      is the same for every order of the input. */
  lemma {:induction false} RankingIgnoresInputOrder(v: seq<Option<Hit>>, w: seq<Option<Hit>>, cap: nat)
    requires multiset(Hits(v)) == multiset(Hits(w)) && cap >= |Hits(v)|
    ensures var r, s := Ranking(v, cap), Ranking(w, cap);
            |r| == |s| && forall i :: 0 <= i < |r| ==> Agree(r[i], s[i])
  {
    hide Ranking, Before, Ranked, Within;
    SameMembers(Hits(v), Hits(w));
    RankingIsExact(v, cap);
    RankingIsExact(w, cap);
    RankedWithin(v, w, cap);
    RankedWithin(w, v, cap);
    RankingUnique(Ranking(v, cap), Ranking(w, cap));
  }

  lemma {:induction false} HitsSplit(a: seq<Option<Hit>>, b: seq<Option<Hit>>)
    ensures Hits(a + b) == Hits(a) + Hits(b)
  {
    if b == [] {
      assert a + b == a;
    } else {
      assert (a + b)[..|a + b| - 1] == a + b[..|b| - 1];
      HitsSplit(a, b[..|b| - 1]);
    }
  }

  lemma {:induction false} JudgeWithout<T>(xs: seq<T>, i: nat, verdict: T -> Option<Hit>)
    requires i < |xs|
    ensures var rest := xs[..i] + xs[i + 1..];
            && multiset(Hits(Judge(xs, verdict))) ==
                 multiset(Hits(Judge(rest, verdict))) + multiset(Hits([verdict(xs[i])]))
            && multiset(rest) == multiset(xs) - multiset{xs[i]}
  {
    var a, x, b := Judge(xs[..i], verdict), [verdict(xs[i])], Judge(xs[i + 1..], verdict);
    assert xs == xs[..i] + [xs[i]] + xs[i + 1..];
    assert Judge(xs, verdict) == (a + x) + b;
    assert Judge(xs[..i] + xs[i + 1..], verdict) == a + b;
    HitsSplit(a + x, b);
    HitsSplit(a, x);
    HitsSplit(a, b);
  }

  lemma {:induction false} JudgePermutes<T>(xs: seq<T>, ys: seq<T>, verdict: T -> Option<Hit>)
    requires multiset(xs) == multiset(ys)
    ensures multiset(Hits(Judge(xs, verdict))) == multiset(Hits(Judge(ys, verdict)))
    decreases |xs|
  {
    hide Hits;
    SameMembers(xs, ys);
    if xs == [] {
      assert ys == [];
    } else {
      var last := |xs| - 1;
      assert xs[last] in ys;
      var i :| 0 <= i < |ys| && ys[i] == xs[last];
      JudgeWithout(ys, i, verdict);
      JudgeWithout(xs, last, verdict);
      assert xs[..last] + xs[last + 1..] == xs[..last];
      RestPermuted(xs, ys, i);
      JudgePermutes(xs[..last], ys[..i] + ys[i + 1..], verdict);
    }
  }

  lemma {:induction false} FewHits(v: seq<Option<Hit>>)
    ensures |Hits(v)| <= |v|
  {
    if v != [] { FewHits(v[..|v| - 1]); }
  }

  /** Both rankings, in terms of the samples themselves: sized by the input, they
      do not depend on the order in which the sampler delivered it. */
  lemma {:induction false} RankIgnoresSampleOrder(edges: seq<Branch>, edges': seq<Branch>, ips: seq<IpHit>, ips': seq<IpHit>,
                                                  resolve: Resolver, needle: string, cap: nat)
    requires multiset(edges) == multiset(edges') && multiset(ips) == multiset(ips')
    requires cap >= |edges| && cap >= |ips|
    ensures var r, s := Ranking(EntryVerdicts(edges, resolve, needle), cap), Ranking(EntryVerdicts(edges', resolve, needle), cap);
            |r| == |s| && forall i :: 0 <= i < |r| ==> Agree(r[i], s[i])
    ensures var r, s := Ranking(ResidencyVerdicts(ips, resolve, needle), cap), Ranking(ResidencyVerdicts(ips', resolve, needle), cap);
            |r| == |s| && forall i :: 0 <= i < |r| ==> Agree(r[i], s[i])
  {
    hide Ranking, Hits, Agree, Judge, EntryVerdict, ResidencyVerdict;
    JudgePermutes(edges, edges', e => EntryVerdict(e, resolve, needle));
    FewHits(EntryVerdicts(edges, resolve, needle));
    RankingIgnoresInputOrder(EntryVerdicts(edges, resolve, needle), EntryVerdicts(edges', resolve, needle), cap);
    JudgePermutes(ips, ips', h => ResidencyVerdict(h, resolve, needle));
    FewHits(ResidencyVerdicts(ips, resolve, needle));
    RankingIgnoresInputOrder(ResidencyVerdicts(ips, resolve, needle), ResidencyVerdicts(ips', resolve, needle), cap);
  }
}
