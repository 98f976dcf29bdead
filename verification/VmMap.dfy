/** The address-space map of a session (`asmspy_vmmap.h`, `serve_vmmap_emit`):
    ranked, capped, digested, and emitted only when it changed. */
module VmMap {
  import opened Common

  const VMMAP_CAP: nat := 256

  /** One mapping; the strings are C strings, without NUL. */
  datatype Span = Span(base: nat, len: nat, perms: seq<byte>, name: seq<byte>, path: seq<byte>)

  predicate CString(s: seq<byte>) { forall i :: 0 <= i < |s| ==> s[i] != 0 }

  predicate Legal(s: Span) {
    s.base < WRAP && s.len < WRAP && CString(s.perms) && CString(s.name) && CString(s.path)
  }

  // ---------------------------------------------------------------- rank, then cap

  predicate Executable(s: Span) { |s.perms| > 2 && s.perms[2] == 0x78 }

  /** `asmspy_vmmap_rank`: executable first, then longer, then lower. */
  predicate Before(x: Span, y: Span) {
    if Executable(x) != Executable(y) then Executable(x)
    else if x.len != y.len then x.len > y.len
    else x.base < y.base
  }

  predicate Ranked(v: seq<Span>) { forall i, j :: 0 <= i < j < |v| ==> Before(v[i], v[j]) }

  predicate DistinctBases(v: seq<Span>) { forall i, j :: 0 <= i < j < |v| ==> v[i].base != v[j].base }

  /** What the library sort promises: nothing stands before what ranks before it. */
  predicate Sorted(v: seq<Span>) { forall i, j :: 0 <= i < j < |v| ==> !Before(v[j], v[i]) }

  /** Two strict rankings of the same rows are the same list. */
  lemma {:induction false} RankingUnique(a: seq<Span>, b: seq<Span>)
    requires Ranked(a) && Ranked(b) && multiset(a) == multiset(b)
    ensures a == b
    decreases |a|
  {
    hide Before;
    SameMembers(a, b);
    SameMembers(b, a);
    if a != [] {
      FirstIsFirst(a, b);
      assert a == [a[0]] + a[1..] && b == [b[0]] + b[1..];
      TailMultiset(a);
      TailMultiset(b);
      RankingUnique(a[1..], b[1..]);
    }
  }

  lemma {:induction false} TailMultiset(a: seq<Span>)
    requires a != []
    ensures multiset(a[1..]) == multiset(a) - multiset{a[0]}
  {
    assert a == [a[0]] + a[1..];
  }

  lemma {:induction false} FirstIsFirst(a: seq<Span>, b: seq<Span>)
    requires a != [] && b != [] && Ranked(a) && Ranked(b)
    requires a[0] in b && b[0] in a
    ensures a[0] == b[0]
  {
    var j :| 0 <= j < |b| && b[j] == a[0];
    var i :| 0 <= i < |a| && a[i] == b[0];
    if i > 0 { assert Before(a[0], a[i]); }
    if j > 0 { assert Before(b[0], b[j]); }
  }

  function Capped(v: seq<Span>): seq<Span> { if |v| <= VMMAP_CAP then v else v[..VMMAP_CAP] }

  lemma {:induction false} BasesWithout(rows: seq<Span>, i: nat)
    requires DistinctBases(rows) && i < |rows|
    ensures var rest := rows[..i] + rows[i + 1..];
            && DistinctBases(rest)
            && multiset(rest) == multiset(rows) - multiset{rows[i]}
            && forall k :: 0 <= k < |rest| ==> rest[k].base != rows[i].base
  {
    Without(rows, i);
  }

  lemma {:induction false} PermutedBases(rows: seq<Span>, v: seq<Span>)
    requires DistinctBases(rows) && multiset(v) == multiset(rows)
    ensures DistinctBases(v)
    decreases |v|
  {
    SameMembers(v, rows);
    if v != [] {
      var last := |v| - 1;
      var i :| 0 <= i < |rows| && rows[i] == v[last];
      BasesWithout(rows, i);
      assert v[..last] + [v[last]] == v;
      PermutedSnoc(rows[..i] + rows[i + 1..], v[..last], v[last]);
    }
  }

  lemma {:induction false} PermutedSnoc(rest: seq<Span>, v: seq<Span>, x: Span)
    requires DistinctBases(rest) && multiset(v + [x]) - multiset{x} == multiset(rest)
    requires forall k :: 0 <= k < |rest| ==> rest[k].base != x.base
    ensures DistinctBases(v + [x])
    decreases |v| + 1, 0
  {
    assert multiset(v) == multiset(v + [x]) - multiset{x};
    PermutedBases(rest, v);
    SameMembers(v, rest);
  }

  lemma {:induction false} SortedIsRanked(rows: seq<Span>, v: seq<Span>)
    requires DistinctBases(rows) && Sorted(v) && multiset(v) == multiset(rows)
    ensures Ranked(v)
  {
    PermutedBases(rows, v);
  }

  /** Executable before not, then longer before shorter, then lower before higher. */
  predicate Better(x: Span, y: Span) {
    var xe, ye := |x.perms| > 2 && x.perms[2] == 0x78, |y.perms| > 2 && y.perms[2] == 0x78;
    || (xe && !ye)
    || (xe == ye && x.len > y.len)
    || (xe == ye && x.len == y.len && x.base < y.base)
  }

  lemma {:induction false} RankedIsBetter(v: seq<Span>)
    requires Ranked(v)
    ensures forall i, j :: 0 <= i < j < |v| ==> Better(v[i], v[j])
  {
    forall i, j | 0 <= i < j < |v| ensures Better(v[i], v[j]) { assert Before(v[i], v[j]); }
  }

  /** What the parse keeps of rows with distinct bases, given any result the
      library sort may produce: the best 256, or all if there are fewer, best first,
      and the same whatever the order of the rows. */
  lemma {:induction false} KeepsTheBest(rows: seq<Span>, rows': seq<Span>, sorted: seq<Span>, sorted': seq<Span>)
    requires DistinctBases(rows) && multiset(rows) == multiset(rows')
    requires Sorted(sorted) && multiset(sorted) == multiset(rows)
    requires Sorted(sorted') && multiset(sorted') == multiset(rows')
    ensures Capped(sorted) == Capped(sorted')
    ensures |Capped(sorted)| == if |rows| < 256 then |rows| else 256
    ensures Capped(sorted) <= sorted
    ensures forall i, j :: 0 <= i < j < |sorted| ==> Better(sorted[i], sorted[j])
  {
    hide Before, Sorted;
    PermutedBases(rows, rows');
    SortedIsRanked(rows, sorted);
    SortedIsRanked(rows', sorted');
    RankingUnique(sorted, sorted');
    SameMembers(sorted, rows);
    RankedIsBetter(sorted);
  }

  /** The end of `asmspy_vmmap_parse`: sort all the rows, then cap.  The insertion
      sort stands for the library sort. */
  method SortThenCap(rows: seq<Span>) returns (kept: seq<Span>, ghost sorted: seq<Span>)
    ensures Sorted(sorted) && multiset(sorted) == multiset(rows) && kept == Capped(sorted)
  {
    hide Before;
    var v: seq<Span> := [];
    for i := 0 to |rows|
      invariant Sorted(v) && multiset(v) == multiset(rows[..i])
    {
      var u := InsertionPoint(v, rows[i]);
      assert rows[..i + 1] == rows[..i] + [rows[i]];
      assert v == v[..u] + v[u..];
      v := v[..u] + [rows[i]] + v[u..];
    }
    assert rows[..|rows|] == rows;
    sorted := v;
    kept := if |v| > VMMAP_CAP then v[..VMMAP_CAP] else v;
  }

  method InsertionPoint(v: seq<Span>, s: Span) returns (u: nat)
    requires Sorted(v)
    ensures u <= |v|
    ensures forall k :: 0 <= k < u ==> !Before(s, v[k])
    ensures forall k :: u <= k < |v| ==> !Before(v[k], s)
  {
    u := |v|;
    while u > 0 && Before(s, v[u - 1])
      invariant u <= |v|
      invariant forall k :: u <= k < |v| ==> Before(s, v[k])
    {
      u := u - 1;
    }
    if u > 0 {
      forall k | 0 <= k < u ensures !Before(s, v[k]) {
        assert k < u - 1 ==> !Before(v[u - 1], v[k]);
      }
    }
  }

  // ---------------------------------------------------------------- the bytes of the digest

  lemma {:induction false} LittleInjective(v: nat, w: nat, n: nat)
    requires v < Pow256(n) && w < Pow256(n) && Little(v, n) == Little(w, n)
    ensures v == w
    decreases n
  {
    if n > 0 {
      assert Little(v, n)[0] == v % 256 && Little(w, n)[0] == w % 256;
      assert Little(v, n)[1..] == Little(v / 256, n - 1) && Little(w, n)[1..] == Little(w / 256, n - 1);
      LittleInjective(v / 256, w / 256, n - 1);
    }
  }

  /** What the address space is, as far as the gate is concerned. */
  datatype Content = Content(total: nat, readable: bool, spans: seq<Span>)

  predicate LegalContent(c: Content) {
    c.total < WRAP && forall i :: 0 <= i < |c.spans| ==> Legal(c.spans[i])
  }

  function Terminated(s: seq<byte>): seq<byte> { s + [0] }

  function RowBytes(s: Span): seq<byte> {
    Little(s.base, 8) + Little(s.len, 8) + Terminated(s.perms) + Terminated(s.name) + Terminated(s.path)
  }

  function RowsBytes(spans: seq<Span>): seq<byte> {
    if spans == [] then [] else RowBytes(spans[0]) + RowsBytes(spans[1..])
  }

  /** The bytes `asmspy_vmmap_digest` feeds to the hash. */
  function DigestBytes(c: Content): seq<byte> {
    Little(c.total, 8) + Little(0, 8) + [if c.readable then 1 else 0] + RowsBytes(c.spans)
  }

  /** `asmspy_vmmap_digest` up to the hash: the updates, in order. */
  method DigestUpdates(c: Content) returns (fed: seq<byte>)
    ensures fed == DigestBytes(c)
  {
    hide RowBytes, Little;
    fed := Little(c.total, 8) + Little(0, 8) + [if c.readable then 1 else 0];
    ghost var hdr := fed;
    var i := 0;
    assert c.spans[0..] == c.spans;
    while i < |c.spans|
      invariant i <= |c.spans|
      invariant fed + RowsBytes(c.spans[i..]) == hdr + RowsBytes(c.spans)
    {
      assert c.spans[i..][1..] == c.spans[i + 1..];
      assert fed + RowsBytes(c.spans[i..]) == (fed + RowBytes(c.spans[i])) + RowsBytes(c.spans[i + 1..]);
      fed := fed + RowBytes(c.spans[i]);
      i := i + 1;
    }
    assert fed == fed + RowsBytes(c.spans[i..]);
  }

  lemma {:induction false} SplitEqual(a: seq<byte>, x: seq<byte>, b: seq<byte>, y: seq<byte>)
    requires |a| == |b| && a + x == b + y
    ensures a == b && x == y
  {
    assert (a + x)[..|a|] == a && (b + y)[..|b|] == b;
    assert (a + x)[|a|..] == x && (b + y)[|b|..] == y;
  }

  /** A NUL ends a string: nothing after it can be mistaken for part of it. */
  lemma {:induction false} StringSplit(s: seq<byte>, x: seq<byte>, t: seq<byte>, y: seq<byte>)
    requires CString(s) && CString(t) && Terminated(s) + x == Terminated(t) + y
    ensures s == t && x == y
  {
    var whole := Terminated(s) + x;
    assert whole[|s|] == 0 && whole[|t|] == 0;
    assert forall k :: 0 <= k < |s| ==> whole[k] == s[k];
    assert forall k :: 0 <= k < |t| ==> whole[k] == t[k];
    assert |s| == |t|;
    SplitEqual(Terminated(s), x, Terminated(t), y);
    assert s == Terminated(s)[..|s|] && t == Terminated(t)[..|t|];
  }

  lemma {:induction false} RowSplit(s: Span, x: seq<byte>, t: Span, y: seq<byte>)
    requires Legal(s) && Legal(t) && RowBytes(s) + x == RowBytes(t) + y
    ensures s == t && x == y
  {
    hide CString, Little, Terminated;
    var s3, t3 := Terminated(s.path) + x, Terminated(t.path) + y;
    var s2, t2 := Terminated(s.name) + s3, Terminated(t.name) + t3;
    var s1, t1 := Terminated(s.perms) + s2, Terminated(t.perms) + t2;
    assert RowBytes(s) + x == Little(s.base, 8) + (Little(s.len, 8) + s1);
    assert RowBytes(t) + y == Little(t.base, 8) + (Little(t.len, 8) + t1);
    SplitEqual(Little(s.base, 8), Little(s.len, 8) + s1, Little(t.base, 8), Little(t.len, 8) + t1);
    SplitEqual(Little(s.len, 8), s1, Little(t.len, 8), t1);
    StringSplit(s.perms, s2, t.perms, t2);
    StringSplit(s.name, s3, t.name, t3);
    StringSplit(s.path, x, t.path, y);
    FieldBounds();
    LittleInjective(s.base, t.base, 8);
    LittleInjective(s.len, t.len, 8);
  }

  lemma {:induction false} RowsInjective(a: seq<Span>, b: seq<Span>)
    requires forall i :: 0 <= i < |a| ==> Legal(a[i])
    requires forall i :: 0 <= i < |b| ==> Legal(b[i])
    requires RowsBytes(a) == RowsBytes(b)
    ensures a == b
    decreases |a|
  {
    hide Legal, RowBytes;
    if a != [] && b != [] {
      RowSplit(a[0], RowsBytes(a[1..]), b[0], RowsBytes(b[1..]));
      RowsInjective(a[1..], b[1..]);
      assert a == [a[0]] + a[1..] && b == [b[0]] + b[1..];
    } else {
      RowsNonEmpty(a);
      RowsNonEmpty(b);
    }
  }

  lemma {:induction false} RowsNonEmpty(a: seq<Span>)
    ensures a != [] ==> |RowsBytes(a)| > 0
  {}

  /** The byte stream determines the total, the readable flag and every span. */
  lemma {:induction false} DigestBytesInjective(c: Content, d: Content)
    requires LegalContent(c) && LegalContent(d) && DigestBytes(c) == DigestBytes(d)
    ensures c == d
  {
    hide Little, RowsBytes;
    var x, y := [if c.readable then 1 else 0] + RowsBytes(c.spans), [if d.readable then 1 else 0] + RowsBytes(d.spans);
    assert DigestBytes(c) == Little(c.total, 8) + (Little(0, 8) + x);
    assert DigestBytes(d) == Little(d.total, 8) + (Little(0, 8) + y);
    SplitEqual(Little(c.total, 8), Little(0, 8) + x, Little(d.total, 8), Little(0, 8) + y);
    SplitEqual(Little(0, 8), x, Little(0, 8), y);
    assert x[0] == (if c.readable then 1 else 0) && y[0] == (if d.readable then 1 else 0);
    assert x[1..] == RowsBytes(c.spans) && y[1..] == RowsBytes(d.spans);
    FieldBounds();
    LittleInjective(c.total, d.total, 8);
    RowsInjective(c.spans, d.spans);
  }

  // ---------------------------------------------------------------- the change gate

  /** One look at the target's maps, and whether the client has paused emission at
      that moment.  Maps that can be read may still not fit the event's buffer. */
  datatype Look =
    | Unreadable(paused: bool)
    | Readable(total: nat, spans: seq<Span>, fits: bool, paused: bool)

  function Shows(look: Look): Content {
    match look
    case Unreadable(_) => Content(0, false, [])
    case Readable(total, spans, _, _) => Content(total, true, spans)
  }

  predicate Fits(look: Look) { look.Unreadable? || look.fits }

  /** A map on its way out: its version, and whether a pause swallowed it. */
  datatype Event = Event(version: nat, content: Content, swallowed: bool)

  /** The note that replaces a map that does not fit: how many spans it had. */
  datatype Note = Note(spans: nat, swallowed: bool)

  /** SHA-256, taken as free of collisions. */
  type Hash = seq<byte> -> int

  ghost predicate CollisionFree(hash: Hash) {
    forall a, b :: hash(a) == hash(b) ==> a == b
  }

  datatype Gate = Gate(have: bool, last: int, version: nat, events: seq<Event>, notes: seq<Note>)

  const FRESH_GATE: Gate := Gate(false, 0, 0, [], [])

  function Digest(hash: Hash, c: Content): int { hash(DigestBytes(c)) }

  function Refresh(hash: Hash, g: Gate, look: Look): Gate {
    var d := Digest(hash, Shows(look));
    if !Fits(look) then g.(notes := g.notes + [Note(|look.spans|, look.paused)])
    else if g.have && d == g.last then g
    else Gate(true, d, g.version + 1, g.events + [Event(g.version, Shows(look), look.paused)], g.notes)
  }

  function Run(hash: Hash, looks: seq<Look>): Gate {
    if looks == [] then FRESH_GATE else Refresh(hash, Run(hash, looks[..|looks| - 1]), looks[|looks| - 1])
  }

  /** The session's gate, `serve_vmmap_emit`. */
  class VmGate {
    var vmHave: bool
    var vmLast: int
    var vmVersion: nat
    var events: seq<Event>
    var notes: seq<Note>

    /** The per-session reset. */
    constructor ()
      ensures Value() == FRESH_GATE
    {
      vmHave, vmLast, vmVersion, events, notes := false, 0, 0, [], [];
    }

    function Value(): Gate
      reads this
    {
      Gate(vmHave, vmLast, vmVersion, events, notes)
    }

    method VmmapEmit(hash: Hash, look: Look)
      modifies this
      ensures Value() == Refresh(hash, old(Value()), look)
    {
      if look.Unreadable? {
        var none := Digest(hash, Content(0, false, []));
        if vmHave && none == vmLast { return; }
        vmLast := none;
        vmHave := true;
        events := events + [Event(vmVersion, Content(0, false, []), look.paused)];
        vmVersion := vmVersion + 1;
        return;
      }
      if !look.fits {
        notes := notes + [Note(|look.spans|, look.paused)];
        return;
      }
      var dg := Digest(hash, Content(look.total, true, look.spans));
      if vmHave && dg == vmLast { return; }
      vmLast := dg;
      vmHave := true;
      events := events + [Event(vmVersion, Content(look.total, true, look.spans), look.paused)];
      vmVersion := vmVersion + 1;
    }
  }

  // ---------------------------------------------------------------- what the gate computes

  predicate LegalLooks(looks: seq<Look>) {
    forall i :: 0 <= i < |looks| ==> LegalContent(Shows(looks[i]))
  }

  /** The last map seen that fitted, if any. */
  function LastFit(looks: seq<Look>): (current: seq<Content>)
    ensures |current| <= 1
  {
    if looks == [] then []
    else if Fits(looks[|looks| - 1]) then [Shows(looks[|looks| - 1])]
    else LastFit(looks[..|looks| - 1])
  }

  /** The last look shows a map that fits and differs from the one before. */
  predicate Changes(looks: seq<Look>) {
    looks != [] && Fits(looks[|looks| - 1]) && LastFit(looks[..|looks| - 1]) != [Shows(looks[|looks| - 1])]
  }

  /** The changes of the map, numbered from 0: no digest, no memory, only the maps
      compared with each other. */
  function ChangeLog(looks: seq<Look>): seq<Event> {
    if looks == [] then []
    else
      var last, log := looks[|looks| - 1], ChangeLog(looks[..|looks| - 1]);
      if Changes(looks) then log + [Event(|log|, Shows(last), last.paused)] else log
  }

  /** A note for every look that did not fit. */
  function Misfits(looks: seq<Look>): seq<Note> {
    if looks == [] then []
    else
      var last, notes := looks[|looks| - 1], Misfits(looks[..|looks| - 1]);
      if Fits(last) then notes else notes + [Note(|last.spans|, last.paused)]
  }

  /** The gate's memory is the digest of the last map that fitted, and its events are
      the changes. */
  predicate GateInv(hash: Hash, g: Gate, looks: seq<Look>) {
    && g.events == ChangeLog(looks)
    && g.notes == Misfits(looks)
    && g.version == |g.events|
    && g.have == (LastFit(looks) != [])
    && (g.have ==> LegalContent(LastFit(looks)[0]) && g.last == Digest(hash, LastFit(looks)[0]))
  }

  /** What one more look does to the three. */
  lemma {:induction false} OneMoreLook(looks: seq<Look>, look: Look)
    ensures var all := looks + [look];
            && LastFit(all) == (if Fits(look) then [Shows(look)] else LastFit(looks))
            && ChangeLog(all) == ChangeLog(looks)
                 + (if Fits(look) && LastFit(looks) != [Shows(look)]
                    then [Event(|ChangeLog(looks)|, Shows(look), look.paused)] else [])
            && Misfits(all) == Misfits(looks) + (if Fits(look) then [] else [Note(|look.spans|, look.paused)])
  {
    assert (looks + [look])[..|looks|] == looks;
  }

  lemma {:induction false} RefreshKeeps(hash: Hash, g: Gate, looks: seq<Look>, look: Look)
    requires CollisionFree(hash) && LegalContent(Shows(look)) && GateInv(hash, g, looks)
    ensures GateInv(hash, Refresh(hash, g, look), looks + [look])
  {
    hide LegalContent, DigestBytes, LastFit, ChangeLog, Misfits;
    OneMoreLook(looks, look);
    if Fits(look) && g.have && Digest(hash, Shows(look)) == g.last {
      DigestBytesInjective(Shows(look), LastFit(looks)[0]);
      assert LastFit(looks) == [Shows(look)];
    }
  }

  /** Over every sequence of looks, fitting or not, paused or not, the digest gate
      emits exactly the changes of the map, numbered 0, 1, 2, ..., and one note for
      every map that did not fit. */
  lemma {:induction false} RunKeeps(hash: Hash, looks: seq<Look>)
    requires CollisionFree(hash) && LegalLooks(looks)
    ensures GateInv(hash, Run(hash, looks), looks)
    ensures Run(hash, looks).events == ChangeLog(looks)
  {
    hide Refresh, LegalContent, ChangeLog, Misfits, LastFit;
    if looks == [] {
      FreshInv(hash);
    } else {
      var before, look := looks[..|looks| - 1], looks[|looks| - 1];
      RunKeeps(hash, before);
      RefreshKeeps(hash, Run(hash, before), before, look);
      assert before + [look] == looks;
    }
  }

  lemma {:induction false} FreshInv(hash: Hash)
    ensures GateInv(hash, FRESH_GATE, [])
  {}

  /** The log of changes: it ends with the current map, no two in a row are equal,
      and it is numbered from 0. */
  lemma {:induction false} LogIsCurrent(looks: seq<Look>)
    ensures var log := ChangeLog(looks);
            && LastFit(looks) == (if log == [] then [] else [log[|log| - 1].content])
            && (forall i :: 0 <= i < |log| ==> log[i].version == i)
            && (forall i :: 0 < i < |log| ==> log[i].content != log[i - 1].content)
  {
    if looks != [] { LogIsCurrent(looks[..|looks| - 1]); }
  }

  // ---------------------------------------------------------------- what the client holds

  /** What the client receives: the events no pause swallowed. */
  function Delivered(events: seq<Event>): seq<Event> {
    if events == [] then []
    else
      var last := events[|events| - 1];
      if last.swallowed then Delivered(events[..|events| - 1]) else Delivered(events[..|events| - 1]) + [last]
  }

  /** The map the client holds: the last one it received. */
  function Held(events: seq<Event>): seq<Content> {
    var got := Delivered(events);
    if got == [] then [] else [got[|got| - 1].content]
  }

  lemma {:induction false} HeldSnoc(events: seq<Event>, e: Event)
    ensures Held(events + [e]) == if e.swallowed then Held(events) else [e.content]
  {
    assert (events + [e])[..|events|] == events;
  }

  /** Two looks show the same map exactly if neither could be read, or both could and
      have the same total and the same spans: an unreadable target is never taken for
      an empty one. */
  lemma {:induction false} ShowTheSameIff(a: Look, b: Look)
    ensures Shows(a) == Shows(b) <==>
              || (a.Unreadable? && b.Unreadable?)
              || (a.Readable? && b.Readable? && a.total == b.total && a.spans == b.spans)
  {}

  /** The look at which the current map first showed. */
  function LastChange(looks: seq<Look>): (i: nat)
    requires LastFit(looks) != []
    ensures i < |looks| && Changes(looks[..i + 1])
    ensures LastFit(looks) == [Shows(looks[i])]
  {
    var last := |looks| - 1;
    assert looks[..last + 1] == looks;
    if Changes(looks) then last
    else
      var i := LastChange(looks[..last]);
      assert looks[..last][..i + 1] == looks[..i + 1];
      i
  }

  lemma {:induction false} HeldIffOnLog(looks: seq<Look>)
    ensures Held(ChangeLog(looks)) == LastFit(looks) <==>
              || LastFit(looks) == []
              || !looks[LastChange(looks)].paused
              || Held(ChangeLog(looks[..LastChange(looks)])) == LastFit(looks)
  {
    if looks != [] {
      var last := |looks| - 1;
      if Changes(looks) {
        var log := ChangeLog(looks[..last]);
        HeldSnoc(log, Event(|log|, Shows(looks[last]), looks[last].paused));
      } else {
        HeldIffOnLog(looks[..last]);
        if LastFit(looks) != [] { assert looks[..last][..LastChange(looks)] == looks[..LastChange(looks)]; }
      }
    }
  }

  /** Whatever fits and whatever is paused: the client holds the current map exactly
      when the look at which that map first showed was not paused, or when the map
      the client held by then was already the same, the target having returned to
      it. */
  lemma {:induction false} ClientIsCurrentIff(hash: Hash, looks: seq<Look>)
    requires CollisionFree(hash) && LegalLooks(looks)
    ensures Held(Run(hash, looks).events) == LastFit(looks) <==>
              || LastFit(looks) == []
              || !looks[LastChange(looks)].paused
              || Held(Run(hash, looks[..LastChange(looks)]).events) == LastFit(looks)
  {
    hide LegalContent, GateInv, Run, Held;
    RunKeeps(hash, looks);
    if LastFit(looks) != [] { RunKeeps(hash, looks[..LastChange(looks)]); }
    HeldIffOnLog(looks);
  }

  /** So without a pause, the client always holds the last map that fitted, never
      receives the same map twice in a row, and sees the versions 0, 1, 2, ... */
  lemma {:induction false} ClientIsCurrent(hash: Hash, looks: seq<Look>)
    requires CollisionFree(hash) && LegalLooks(looks)
    requires forall i :: 0 <= i < |looks| ==> !looks[i].paused
    ensures var got := Delivered(Run(hash, looks).events);
            && Held(Run(hash, looks).events) == LastFit(looks)
            && (forall i :: 0 <= i < |got| ==> got[i].version == i)
            && (forall i :: 0 < i < |got| ==> got[i].content != got[i - 1].content)
  {
    hide LegalContent, GateInv, Run;
    RunKeeps(hash, looks);
    NeverSwallowed(looks);
    AllDelivered(ChangeLog(looks));
    LogIsCurrent(looks);
  }

  predicate NoneSwallowed(events: seq<Event>) {
    forall i :: 0 <= i < |events| ==> !events[i].swallowed
  }

  lemma {:induction false} NeverSwallowed(looks: seq<Look>)
    requires forall i :: 0 <= i < |looks| ==> !looks[i].paused
    ensures NoneSwallowed(ChangeLog(looks))
  {
    if looks != [] { NeverSwallowed(looks[..|looks| - 1]); }
  }

  lemma {:induction false} AllDelivered(events: seq<Event>)
    requires NoneSwallowed(events)
    ensures Delivered(events) == events
  {
    if events != [] {
      AllDelivered(events[..|events| - 1]);
      assert events == events[..|events| - 1] + [events[|events| - 1]];
    }
  }

  // ---------------------------------------------------------------- what the client can tell

  predicate Numbered(events: seq<Event>) { forall i :: 0 <= i < |events| ==> events[i].version == i }

  /** The version the client expects next. */
  function Next(got: seq<Event>): nat { if got == [] then 0 else got[|got| - 1].version + 1 }

  /** Some map arrives under another version than the one expected. */
  predicate GapVisible(got: seq<Event>) {
    exists k :: 0 <= k < |got| && got[k].version != Next(got[..k])
  }

  predicate Swallowed(events: seq<Event>) { exists i :: 0 <= i < |events| && events[i].swallowed }

  /** A swallowed event precedes a delivered one. */
  predicate SwallowedBefore(events: seq<Event>) {
    exists j :: 0 <= j < |events| && !events[j].swallowed && Swallowed(events[..j])
  }

  lemma {:induction false} GapSnoc(got: seq<Event>, e: Event)
    ensures GapVisible(got + [e]) <==> GapVisible(got) || e.version != Next(got)
  {
    var all := got + [e];
    assert all[..|got|] == got && all[|got|] == e;
    assert forall k :: 0 <= k < |got| ==> all[k] == got[k] && all[..k] == got[..k];
    if GapVisible(got) {
      var k :| 0 <= k < |got| && got[k].version != Next(got[..k]);
      assert all[k].version != Next(all[..k]);
    }
  }

  lemma {:induction false} SwallowedBeforeSnoc(events: seq<Event>, e: Event)
    ensures SwallowedBefore(events + [e]) <==> SwallowedBefore(events) || (!e.swallowed && Swallowed(events))
  {
    var all := events + [e];
    assert all[..|events|] == events && all[|events|] == e;
    assert forall j :: 0 <= j < |events| ==> all[j] == events[j] && all[..j] == events[..j];
    if SwallowedBefore(events) {
      var j :| 0 <= j < |events| && !events[j].swallowed && Swallowed(events[..j]);
      assert !all[j].swallowed && Swallowed(all[..j]);
    }
  }

  lemma {:induction false} SwallowedSnoc(events: seq<Event>, e: Event)
    ensures Swallowed(events + [e]) <==> Swallowed(events) || e.swallowed
  {
    var all := events + [e];
    if Swallowed(events) {
      var i :| 0 <= i < |events| && events[i].swallowed;
      assert all[i].swallowed;
    }
    assert all[|events|] == e;
  }

  lemma {:induction false} GapOnLog(events: seq<Event>)
    requires Numbered(events)
    ensures GapVisible(Delivered(events)) <==> SwallowedBefore(events)
    ensures Next(Delivered(events)) <= |events|
    ensures Next(Delivered(events)) == |events| <==> events == [] || !events[|events| - 1].swallowed
    ensures Swallowed(events) <==> SwallowedBefore(events) || (events != [] && events[|events| - 1].swallowed)
  {
    hide GapVisible, SwallowedBefore, Swallowed;
    if events == [] {
      NothingSwallowed();
    } else {
      var before, e := events[..|events| - 1], events[|events| - 1];
      assert events == before + [e];
      GapOnLog(before);
      GapSnoc(Delivered(before), e);
      SwallowedBeforeSnoc(before, e);
      SwallowedSnoc(before, e);
    }
  }

  lemma {:induction false} NothingSwallowed()
    ensures !GapVisible([]) && !SwallowedBefore([]) && !Swallowed([])
  {}

  /** The client sees a gap in the versions exactly when a swallowed map precedes
      one that it received; a change swallowed last leaves no trace. */
  lemma {:induction false} GapIffSwallowedBefore(hash: Hash, looks: seq<Look>)
    requires CollisionFree(hash) && LegalLooks(looks)
    ensures GapVisible(Delivered(Run(hash, looks).events)) <==> SwallowedBefore(Run(hash, looks).events)
  {
    hide LegalContent, GateInv, Run, GapVisible, SwallowedBefore;
    RunKeeps(hash, looks);
    LogIsCurrent(looks);
    GapOnLog(ChangeLog(looks));
  }

  /** Every one of these looks shows the map b, or does not fit. */
  predicate Unchanging(looks: seq<Look>, b: Content) {
    forall i :: 0 <= i < |looks| ==> !Fits(looks[i]) || Shows(looks[i]) == b
  }

  lemma {:induction false} NothingNew(looks: seq<Look>, more: seq<Look>, b: Content)
    requires LastFit(looks) == [b] && Unchanging(more, b)
    ensures ChangeLog(looks + more) == ChangeLog(looks) && LastFit(looks + more) == [b]
    decreases |more|
  {
    if more == [] {
      assert looks + more == looks;
    } else {
      var last := |more| - 1;
      assert (looks + more)[..|looks + more| - 1] == looks + more[..last];
      NothingNew(looks, more[..last], b);
    }
  }

  /** The gate advances even when a pause swallows the event, and the change is not
      repeated: over any number of further looks that show the same map or do not
      fit, paused or not, nothing is delivered, and the client keeps the map from
      before. */
  lemma {:induction false} SwallowedChangeIsNotRepeated(hash: Hash, looks: seq<Look>, change: Look, more: seq<Look>)
    requires CollisionFree(hash) && LegalLooks(looks + [change] + more)
    requires Changes(looks + [change]) && change.paused && Unchanging(more, Shows(change))
    ensures Delivered(Run(hash, looks + [change] + more).events) == Delivered(Run(hash, looks).events)
  {
    hide LegalContent, GateInv, Run;
    var all := looks + [change] + more;
    assert forall i :: 0 <= i < |looks| ==> looks[i] == all[i];
    RunKeeps(hash, all);
    RunKeeps(hash, looks);
    assert (looks + [change])[..|looks|] == looks;
    NothingNew(looks + [change], more, Shows(change));
    var log := ChangeLog(looks);
    assert ChangeLog(looks + [change])[..|log|] == log;
  }
}
