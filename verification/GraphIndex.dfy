/** The open-addressed index over an append-only table (`asmspy_ghash.h`) and the
    find-or-append that the call-graph engine builds on it.  A slot holds a table
    index plus one; 0 is empty.  Probing is linear and cyclic. */
module GraphIndex {

  const SLOT_MODULUS: nat := 0x1_0000_0000

  // ---------------------------------------------------------------- probing

  /** The slot `d` steps after `home` in a cyclic table of `cap` slots. */
  function At(home: nat, d: nat, cap: nat): (i: nat)
    requires home < cap && d < cap
    ensures i < cap
  {
    if home + d < cap then home + d else home + d - cap
  }

  /** The number of steps from `home` to slot `i`. */
  function Distance(home: nat, i: nat, cap: nat): (d: nat)
    requires home < cap && i < cap
    ensures d < cap && At(home, d, cap) == i
  {
    if home <= i then i - home else i + cap - home
  }

  /** No empty slot among the first `d` slots probed from `home`. */
  predicate Occupied(slots: seq<nat>, home: nat, d: nat)
    requires home < |slots| && d <= |slots|
  {
    forall e :: 0 <= e < d ==> slots[At(home, e, |slots|)] != 0
  }

  /** Probing from `home` meets the value `v` before any empty slot. */
  predicate Reaches(slots: seq<nat>, home: nat, v: nat)
    requires home < |slots|
  {
    exists d :: 0 <= d < |slots| && slots[At(home, d, |slots|)] == v && Occupied(slots, home, d)
  }

  /** `slots` indexes entries 0..|homes| whose probes start at `homes`: every
      entry is stored once, and is reached before an empty slot. */
  predicate Indexes(slots: seq<nat>, homes: seq<nat>) {
    && (forall k :: 0 <= k < |homes| ==> homes[k] < |slots|)
    && (forall i :: 0 <= i < |slots| ==> slots[i] <= |homes|)
    && (forall i, j :: 0 <= i < j < |slots| && slots[i] == slots[j] ==> slots[i] == 0)
    && (forall k :: 0 <= k < |homes| ==> Reaches(slots, homes[k], k + 1))
  }

  predicate PowerOfTwo(n: nat) { n == 1 || (n > 1 && n % 2 == 0 && PowerOfTwo(n / 2)) }

  /** `h & (cap - 1)` for a power of two `cap`. */
  function Home(h: nat, cap: nat): (i: nat)
    requires cap > 0
    ensures i < cap
  {
    h % cap
  }

  function Homes(hashes: seq<nat>, cap: nat): (homes: seq<nat>)
    requires cap > 0
    ensures |homes| == |hashes|
    ensures forall k :: 0 <= k < |homes| ==> homes[k] == Home(hashes[k], cap)
  {
    seq(|hashes|, k requires 0 <= k < |hashes| => Home(hashes[k], cap))
  }

  lemma {:induction false} HomesSnoc(hashes: seq<nat>, h: nat, cap: nat)
    requires cap > 0
    ensures Homes(hashes + [h], cap) == Homes(hashes, cap) + [Home(h, cap)]
  {}

  // ---------------------------------------------------------------- an empty slot remains

  lemma {:induction false} FewValues(slots: seq<nat>, n: nat, m: nat)
    requires m <= |slots|
    requires forall i :: 0 <= i < m ==> 0 < slots[i] <= n
    requires forall i, j :: 0 <= i < j < m ==> slots[i] != slots[j]
    ensures m <= n
  {
    CountImage(slots, m);
    SubsetSize(set i | 0 <= i < m :: slots[i], UpTo(n));
  }

  function UpTo(n: nat): (s: set<nat>)
    ensures |s| == n && forall v: nat :: v in s <==> 1 <= v <= n
  {
    if n == 0 then {} else UpTo(n - 1) + {n}
  }

  lemma {:induction false} CountImage(slots: seq<nat>, m: nat)
    requires m <= |slots|
    requires forall i, j :: 0 <= i < j < m ==> slots[i] != slots[j]
    ensures |set i | 0 <= i < m :: slots[i]| == m
  {
    if m > 0 {
      CountImage(slots, m - 1);
      assert (set i | 0 <= i < m :: slots[i]) == (set i | 0 <= i < m - 1 :: slots[i]) + {slots[m - 1]};
    }
  }

  lemma {:induction false} SubsetSize<T>(a: set<T>, b: set<T>)
    requires a <= b
    ensures |a| <= |b|
  {
    assert b == a + (b - a);
  }

  /** Below full load an empty slot always remains, so every probe stops. */
  lemma {:induction false} EmptySlotRemains(slots: seq<nat>, homes: seq<nat>) returns (z: nat)
    requires Indexes(slots, homes) && |homes| < |slots|
    ensures z < |slots| && slots[z] == 0
  {
    if forall i :: 0 <= i < |slots| ==> slots[i] != 0 {
      FewValues(slots, |homes|, |slots|);
      assert false;
    }
    z :| z < |slots| && slots[z] == 0;
  }

  /** Storing the next entry in the first empty slot of its probe keeps the index. */
  lemma {:induction false} PutKeeps(slots: seq<nat>, homes: seq<nat>, home: nat, d: nat)
    requires Indexes(slots, homes)
    requires home < |slots| && d < |slots|
    requires slots[At(home, d, |slots|)] == 0 && Occupied(slots, home, d)
    ensures Indexes(slots[At(home, d, |slots|) := |homes| + 1], homes + [home])
  {
    var i := At(home, d, |slots|);
    var slots' := slots[i := |homes| + 1];
    var homes' := homes + [home];
    forall k | 0 <= k < |homes'| ensures Reaches(slots', homes'[k], k + 1) {
      if k < |homes| {
        var e :| 0 <= e < |slots| && slots[At(homes[k], e, |slots|)] == k + 1 && Occupied(slots, homes[k], e);
        assert slots'[At(homes[k], e, |slots|)] == k + 1 && Occupied(slots', homes[k], e);
      } else {
        assert slots'[At(home, d, |slots|)] == k + 1 && Occupied(slots', home, d);
      }
    }
  }

  // ---------------------------------------------------------------- the index

  function HashAll<K>(keys: seq<K>, hash: K -> nat): (hs: seq<nat>)
    ensures |hs| == |keys| && forall k :: 0 <= k < |keys| ==> hs[k] == hash(keys[k])
  {
    seq(|keys|, k requires 0 <= k < |keys| => hash(keys[k]))
  }

  predicate Distinct<K(==)>(keys: seq<K>) {
    forall i, j :: 0 <= i < j < |keys| ==> keys[i] != keys[j]
  }

  /** The linear scan the index speeds up: the first position of `key`, or -1. */
  function ScanFor<K(==)>(keys: seq<K>, key: K): (r: int)
    ensures -1 <= r < |keys|
    ensures r >= 0 ==> keys[r] == key && key !in keys[..r]
    ensures r < 0 <==> key !in keys
  {
    if key !in keys then -1
    else if keys[0] == key then 0
    else 1 + ScanFor(keys[1..], key)
  }

  /** Once a probe has met an empty slot, nothing further is reached from there. */
  lemma {:induction false} ProbeEnds(slots: seq<nat>, home: nat, d: nat, v: nat)
    requires home < |slots| && d < |slots|
    requires slots[At(home, d, |slots|)] == 0 && v != 0
    requires forall e :: 0 <= e < d ==> slots[At(home, e, |slots|)] != v
    ensures !Reaches(slots, home, v)
  {}

  /** The first `d` slots probed from `home` hold entries with other keys. */
  predicate Passed<K(==)>(slots: seq<nat>, keys: seq<K>, key: K, home: nat, d: nat)
    requires home < |slots| && d <= |slots|
  {
    forall e :: 0 <= e < d ==>
      var v := slots[At(home, e, |slots|)]; 0 < v <= |keys| && keys[v - 1] != key
  }

  /** A key whose probe met only other keys and then an empty slot is absent. */
  lemma {:induction false} AbsentKey<K>(slots: seq<nat>, keys: seq<K>, hash: K -> nat, key: K, d: nat)
    requires 0 < |slots| && d < |slots|
    requires Indexes(slots, Homes(HashAll(keys, hash), |slots|))
    requires var home := Home(hash(key), |slots|);
             slots[At(home, d, |slots|)] == 0 && Passed(slots, keys, key, home, d)
    ensures key !in keys
  {
    forall k | 0 <= k < |keys| ensures keys[k] != key {
      if keys[k] == key { ProbeEnds(slots, Home(hash(key), |slots|), d, k + 1); }
    }
  }

  lemma {:induction false} OnlyPosition<K>(keys: seq<K>, key: K, k: nat)
    requires Distinct(keys) && k < |keys| && keys[k] == key
    ensures ScanFor(keys, key) == k
  {}

  /** From every home an empty slot is `dz` steps away. */
  lemma {:induction false} ProbeBound(slots: seq<nat>, homes: seq<nat>, home: nat) returns (dz: nat)
    requires Indexes(slots, homes) && |homes| < |slots| && home < |slots|
    ensures dz < |slots| && slots[At(home, dz, |slots|)] == 0
    ensures At(home, 0, |slots|) == home
    ensures forall i :: 0 <= i < |slots| ==> slots[i] <= |homes|
  {
    var z := EmptySlotRemains(slots, homes);
    dz := Distance(home, z, |slots|);
  }

  /** One more step of the probe loop; it cannot pass the empty slot at `dz`. */
  lemma {:induction false} NextSlot(home: nat, d: nat, dz: nat, cap: nat)
    requires home < cap && d < dz < cap
    ensures At(home, d + 1, cap) == if At(home, d, cap) + 1 == cap then 0 else At(home, d, cap) + 1
  {}

  /** A power of two of slots that index the entries at less than 70 % load. */
  predicate CoversSlots(slots: seq<nat>, hashes: seq<nat>) {
    && PowerOfTwo(|slots|)
    && |hashes| * 10 < |slots| * 7
    && |slots| > 0
    && Indexes(slots, Homes(hashes, |slots|))
  }

  lemma {:induction false} PutCovers(slots: seq<nat>, hashes: seq<nat>, h64: nat, d: nat)
    requires CoversSlots(slots, hashes) && (|hashes| + 1) * 10 < |slots| * 7 && d < |slots|
    requires var home := Home(h64, |slots|); slots[At(home, d, |slots|)] == 0 && Occupied(slots, home, d)
    ensures CoversSlots(slots[At(Home(h64, |slots|), d, |slots|) := |hashes| + 1], hashes + [h64])
  {
    hide Indexes, Homes, At, Occupied, PowerOfTwo;
    PutKeeps(slots, Homes(hashes, |slots|), Home(h64, |slots|), d);
    HomesSnoc(hashes, h64, |slots|);
  }

  /** The cast to a 32-bit slot. */
  function Stored(v: nat): nat { v % SLOT_MODULUS }

  lemma {:induction false} FitsSlot(v: nat)
    requires v < SLOT_MODULUS
    ensures Stored(v) == v
  {}

  class Index {
    var slot: array<nat>
    var cap: nat

    constructor ()
      ensures cap == 0 && fresh(slot)
    {
      slot := new nat[0];
      cap := 0;
    }

    /** An allocated index covers exactly the entries whose hashes are given, at
        less than 70 % load. */
    ghost predicate Covers(hashes: seq<nat>)
      reads this, slot
    {
      cap > 0 ==> slot.Length == cap && CoversSlots(slot[..], hashes)
    }

    /** `asmspy_gh_find`: on an allocated index, exactly the linear scan's answer. */
    method Find<K(==)>(key: K, keys: seq<K>, hash: K -> nat) returns (r: int)
      requires Covers(HashAll(keys, hash)) && Distinct(keys)
      ensures cap == 0 ==> r == -1
      ensures cap > 0 ==> r == ScanFor(keys, key)
    {
      hide Indexes, Distinct, At, Home, ScanFor, PowerOfTwo;
      if cap == 0 { return -1; }
      ghost var slots := slot[..];
      ghost var home, d := Home(hash(key), cap), 0;
      ghost var dz := ProbeBound(slots, Homes(HashAll(keys, hash), cap), home);
      var i := Home(hash(key), cap);
      while slot[i] != 0
        invariant i < cap && d <= dz && i == At(home, d, cap)
        invariant Passed(slots, keys, key, home, d)
        decreases dz - d
      {
        var k := slot[i] - 1;
        if keys[k] == key {
          OnlyPosition(keys, key, k);
          return k;
        }
        NextSlot(home, d, dz, cap);
        i := if i + 1 == cap then 0 else i + 1;
        d := d + 1;
      }
      AbsentKey(slots, keys, hash, key, d);
      r := -1;
    }

    /** `asmspy_gh_put` of entry number |hashes|. */
    method Put(h64: nat, idx: nat, ghost hashes: seq<nat>)
      requires Covers(hashes) && idx == |hashes| && idx + 1 < SLOT_MODULUS
      requires cap > 0 ==> (idx + 1) * 10 < cap * 7
      modifies slot
      ensures Covers(hashes + [h64])
    {
      hide CoversSlots, Home, At, Occupied, Stored;
      if cap == 0 { return; }
      FitsSlot(idx + 1);
      ghost var slots: seq<nat> := slot[..];
      var i, d := FirstEmpty(h64, hashes);
      PutCovers(slots, hashes, h64, d);
      slot[i] := Stored(idx + 1);
      assert slot[..] == slots[i := idx + 1];
    }

    /** The probe loop of put and of rehash. */
    method FirstEmpty(h64: nat, ghost hashes: seq<nat>) returns (i: nat, ghost d: nat)
      requires cap > 0 && Covers(hashes)
      ensures d < cap && i == At(Home(h64, cap), d, cap)
      ensures slot[i] == 0 && Occupied(slot[..], Home(h64, cap), d)
    {
      hide Indexes, At, Home, Homes, PowerOfTwo;
      ghost var home := Home(h64, cap);
      ghost var dz := ProbeBound(slot[..], Homes(hashes, cap), home);
      i, d := Home(h64, cap), 0;
      while slot[i] != 0
        invariant i < cap && d <= dz && i == At(home, d, cap)
        invariant Occupied(slot[..], home, d)
        decreases dz - d
      {
        NextSlot(home, d, dz, cap);
        i := if i + 1 == cap then 0 else i + 1;
        d := d + 1;
      }
    }

    /** `asmspy_gh_grow` for a table of n entries; `granted` says whether the
        allocation succeeds, should one be needed.  On success there is room for
        one more entry; on failure the index is dropped. */
    method Grow(hashes: seq<nat>, granted: bool) returns (ok: bool)
      requires Covers(hashes) && |hashes| + 1 < SLOT_MODULUS
      modifies this
      ensures Covers(hashes)
      ensures ok ==> cap > 0 && (|hashes| + 1) * 10 < cap * 7
      ensures !ok ==> cap == 0 && !granted
      ensures slot == old(slot) || fresh(slot)
      ensures old(cap) > 0 && (|hashes| + 1) * 10 < old(cap) * 7 ==> ok && cap == old(cap) && slot == old(slot)
    {
      var n := |hashes|;
      if cap > 0 && (n + 1) * 10 < cap * 7 { return true; }
      var nc := if cap > 0 then cap * 2 else 128;
      assert PowerOfTwo(nc) by {
        assert PowerOfTwo(1) && PowerOfTwo(2) && PowerOfTwo(4) && PowerOfTwo(8);
        assert PowerOfTwo(16) && PowerOfTwo(32) && PowerOfTwo(64) && PowerOfTwo(128);
        assert (cap * 2) / 2 == cap;
      }
      while (n + 1) * 10 >= nc * 7
        invariant nc > 0 && PowerOfTwo(nc)
        decreases (n + 1) * 10 - nc * 7
      {
        assert (nc * 2) / 2 == nc;
        nc := nc * 2;
      }
      if !granted {
        slot := new nat[0];
        cap := 0;
        return false;
      }
      slot := new nat[nc](_ => 0);
      cap := nc;
      Rehash(hashes);
      ok := true;
    }

    /** The re-insertion loop of `asmspy_gh_grow`. */
    method Rehash(hashes: seq<nat>)
      requires cap > 0 && slot.Length == cap && PowerOfTwo(cap)
      requires forall i :: 0 <= i < cap ==> slot[i] == 0
      requires (|hashes| + 1) * 10 < cap * 7 && |hashes| < SLOT_MODULUS
      modifies slot
      ensures Covers(hashes)
    {
      for k := 0 to |hashes|
        invariant Covers(hashes[..k])
      {
        Put(hashes[k], k, hashes[..k]);
        assert hashes[..k] + [hashes[k]] == hashes[..k + 1];
      }
      assert hashes[..|hashes|] == hashes;
    }
  }

  // ---------------------------------------------------------------- find or append

  /** A table and its index, as the engine keeps for nodes and for edges. */
  class IndexedTable<K(==)> {
    const hash: K -> nat
    var keys: seq<K>
    const index: Index

    constructor (hash: K -> nat)
      ensures Valid() && keys == [] && this.hash == hash && fresh(index) && fresh(index.slot)
    {
      this.hash := hash;
      keys := [];
      index := new Index();
    }

    /** No key twice, and the index, if there is one, covers the whole table. */
    ghost predicate Valid()
      reads this, index, index.slot
    {
      Distinct(keys) && index.Covers(HashAll(keys, hash))
    }

    /** `gnode_get`: probe if the index is allocated, scan if not; append when
        absent.  `granted` is the outcome of any allocation the index asks for.
        The answer never depends on it. */
    method GetOrAdd(key: K, granted: bool) returns (k: nat)
      requires Valid() && |keys| + 2 < SLOT_MODULUS
      modifies this, index, index.slot
      ensures Valid()
      ensures index.slot == old(index.slot) || fresh(index.slot)
      ensures keys == if key in old(keys) then old(keys) else old(keys) + [key]
      ensures k == ScanFor(keys, key)
    {
      hide Distinct, Indexes, PowerOfTwo;
      var hit := -1;
      if index.cap > 0 {
        hit := index.Find(key, keys, hash);
      } else {
        hit := ScanFor(keys, key);
      }
      if hit >= 0 { return hit; }
      var ok := index.Grow(HashAll(keys, hash), granted);
      if ok {
        index.Put(hash(key), |keys|, HashAll(keys, hash));
      }
      AppendFresh(keys, key, hash);
      k := |keys|;
      keys := keys + [key];
    }
  }

  lemma {:induction false} AppendFresh<K>(keys: seq<K>, key: K, hash: K -> nat)
    requires Distinct(keys) && key !in keys
    ensures Distinct(keys + [key]) && ScanFor(keys + [key], key) == |keys|
    ensures HashAll(keys + [key], hash) == HashAll(keys, hash) + [hash(key)]
  {
    OnlyPosition(keys + [key], key, |keys|);
  }

  /** The distinct keys of a run, in the order they were first asked for. */
  function FirstAsked<K(==,!new)>(asked: seq<K>): (keys: seq<K>)
    ensures Distinct(keys)
    ensures forall k :: k in keys <==> k in asked
  {
    if asked == [] then []
    else
      var before, key := FirstAsked(asked[..|asked| - 1]), asked[|asked| - 1];
      assert asked == asked[..|asked| - 1] + [key];
      if key in before then before else before + [key]
  }

  lemma {:induction false} NothingAsked<K(!new)>()
    ensures FirstAsked<K>([]) == []
  {}

  lemma {:induction false} FirstAskedSnoc<K(!new)>(asked: seq<K>, key: K)
    ensures FirstAsked(asked + [key]) ==
              if key in FirstAsked(asked) then FirstAsked(asked) else FirstAsked(asked) + [key]
  {
    assert (asked + [key])[..|asked|] == asked;
  }

  lemma {:induction false} ScanPrefix<K>(keys: seq<K>, key: K, more: K)
    requires key in keys
    ensures ScanFor(keys + [more], key) == ScanFor(keys, key)
  {
    if keys[0] != key {
      ScanPrefix(keys[1..], key, more);
      assert (keys + [more])[1..] == keys[1..] + [more];
    }
  }

  /** The keys stand in the order in which they were first asked for. */
  lemma {:induction false} FirstAskedInOrder<K(!new)>(asked: seq<K>)
    ensures var keys := FirstAsked(asked);
            forall i, j :: 0 <= i < j < |keys| ==> ScanFor(asked, keys[i]) < ScanFor(asked, keys[j])
  {
    hide ScanFor, FirstAsked;
    NothingAsked<K>();
    if asked != [] {
      var before, key := asked[..|asked| - 1], asked[|asked| - 1];
      var keys, old' := FirstAsked(asked), FirstAsked(before);
      FirstAskedInOrder(before);
      assert asked == before + [key];
      forall i | 0 <= i < |old'| ensures ScanFor(asked, old'[i]) == ScanFor(before, old'[i]) < |before| {
        ScanPrefix(before, old'[i], key);
      }
      FirstAskedSnoc(before, key);
      if key !in before { LastAsked(before, key); }
      forall i, j | 0 <= i < j < |keys| ensures ScanFor(asked, keys[i]) < ScanFor(asked, keys[j]) {
        assert keys[i] == old'[i];
        if j < |old'| { assert keys[j] == old'[j]; }
      }
    }
  }

  lemma {:induction false} LastAsked<K>(before: seq<K>, key: K)
    requires key !in before
    ensures ScanFor(before + [key], key) == |before|
  {
    if before != [] {
      LastAsked(before[1..], key);
      assert (before + [key])[1..] == before[1..] + [key];
    }
  }

  /** Over any sequence of requests, with the index losing its memory at
      arbitrary points, the table is the list of distinct keys in first-asked
      order: no key is stored twice, and no failure leaves a trace. */
  method InternAll<K(==,!new)>(asked: seq<K>, granted: seq<bool>, hash: K -> nat) returns (table: IndexedTable<K>)
    requires |granted| == |asked| && |asked| + 2 < SLOT_MODULUS
    ensures fresh(table) && table.Valid() && table.keys == FirstAsked(asked)
  {
    hide Distinct, FirstAsked, ScanFor, CoversSlots, HashAll;
    table := new IndexedTable(hash);
    NothingAsked<K>();
    assert asked[..0] == [];
    for i := 0 to |asked|
      invariant fresh(table) && fresh(table.index) && fresh(table.index.slot)
      invariant table.Valid() && table.keys == FirstAsked(asked[..i]) && |table.keys| <= i
    {
      assert asked[..i + 1] == asked[..i] + [asked[i]];
      FirstAskedSnoc(asked[..i], asked[i]);
      var k := table.GetOrAdd(asked[i], granted[i]);
    }
    assert asked[..|asked|] == asked;
  }
}
