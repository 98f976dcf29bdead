/** The binary jitdump reader (`jitdump_read`): records with corrupt lengths and
    truncated tails, and code that moves after it was loaded. */
module JitDump {
  import opened Common

  /** An entry of a symbol map. */
  datatype Sym = Sym(addr: nat, size: nat, name: seq<byte>)

  /** The two record types that matter; the others are skipped by their length. */
  datatype Record =
    | Load(index: nat, addr: nat, size: nat, name: seq<byte>)
    | Move(index: nat, addr: nat, size: nat)

  const MAGIC: nat := 0x4A695444
  const FILE_HEADER: nat := 40
  const RECORD_HEADER: nat := 16
  const LOAD_FIXED: nat := 40
  const MOVE_FIXED: nat := 48
  const CODE_LOAD: nat := 0
  const CODE_MOVE: nat := 1
  const NAME_CAP: nat := 256

  // ---------------------------------------------------------------- bytes

  /** A little-endian field of n bytes. */
  function Field(b: seq<byte>, p: nat, n: nat): nat
    requires p + n <= |b|
    decreases n
  {
    if n == 0 then 0 else b[p] + 256 * Field(b, p + 1, n - 1)
  }

  /** The name at p, within `room` bytes: it must end in a NUL before the room or
      the file does. */
  function NameAt(b: seq<byte>, p: nat, room: nat): Option<seq<byte>>
    decreases room
  {
    if room == 0 || p >= |b| then None
    else if b[p] == 0 then Some([])
    else
      match NameAt(b, p + 1, room - 1)
      case None => None
      case Some(rest) => Some([b[p]] + rest)
  }

  function Clipped(name: seq<byte>): seq<byte> {
    if |name| < NAME_CAP then name else name[..NAME_CAP - 1]
  }

  // ---------------------------------------------------------------- records

  /** What the reader makes of the bytes at one record header. */
  datatype Step =
    | Halt                                   // leave the loop
    | Skip(next: nat)                        // nothing to keep
    | Keep(record: Record, next: nat)

  function StepAt(b: seq<byte>, pos: nat): (s: Step)
    ensures !s.Halt? ==> pos + RECORD_HEADER <= |b| && s.next >= pos + RECORD_HEADER
  {
    if pos + RECORD_HEADER > |b| then Halt
    else
      var id, total := Field(b, pos, 4), Field(b, pos + 4, 4);
      var body, next := pos + RECORD_HEADER, pos + total;
      if total < RECORD_HEADER then Halt
      else if id == CODE_LOAD && total >= RECORD_HEADER + LOAD_FIXED then
        if body + LOAD_FIXED > |b| then Halt
        else
          match NameAt(b, body + LOAD_FIXED, total - RECORD_HEADER - LOAD_FIXED)
          case None => Skip(next)
          case Some(name) =>
            if name == [] then Skip(next)
            else Keep(Load(Field(b, body + 32, 8), Field(b, body + 16, 8), Field(b, body + 24, 8), Clipped(name)), next)
      else if id == CODE_MOVE && total >= RECORD_HEADER + MOVE_FIXED then
        if body + MOVE_FIXED > |b| then Halt
        else Keep(Move(Field(b, body + 40, 8), Field(b, body + 24, 8), Field(b, body + 32, 8)), next)
      else Skip(next)
  }

  /** The records from position pos on. */
  function Records(b: seq<byte>, pos: nat): seq<Record>
    decreases if pos <= |b| then |b| - pos else 0
  {
    match StepAt(b, pos)
    case Halt => []
    case Skip(next) => Records(b, next)
    case Keep(record, next) => [record] + Records(b, next)
  }

  /** Where the records start, or `None` for a file that is not a jitdump. */
  function Start(b: seq<byte>): Option<nat> {
    if |b| < FILE_HEADER || Field(b, 0, 4) != MAGIC || Field(b, 8, 4) < FILE_HEADER then None
    else Some(Field(b, 8, 4))
  }

  function Decode(b: seq<byte>): seq<Record> {
    if Start(b).None? then [] else Records(b, Start(b).value)
  }

  // ---------------------------------------------------------------- truncation

  lemma {:induction false} FieldOfPrefix(b: seq<byte>, n: nat, p: nat, k: nat)
    requires n <= |b| && p + k <= n
    ensures Field(b[..n], p, k) == Field(b, p, k)
    decreases k
  {
    if k > 0 { FieldOfPrefix(b, n, p + 1, k - 1); }
  }

  /** A name that a truncated file still shows is the whole file's; one that it
      no longer shows ran past the cut. */
  lemma {:induction false} NameOfPrefix(b: seq<byte>, n: nat, p: nat, room: nat)
    requires n <= |b|
    ensures NameAt(b[..n], p, room) == NameAt(b, p, room)
         || (NameAt(b[..n], p, room).None? && n < p + room)
    decreases room
  {
    if room > 0 && p < n { NameOfPrefix(b, n, p + 1, room - 1); }
  }

  lemma {:induction false} StepOfPrefix(b: seq<byte>, n: nat, pos: nat)
    requires n <= |b|
    ensures var s, w := StepAt(b[..n], pos), StepAt(b, pos);
            s == w || s.Halt? || (s.Skip? && s.next > n)
  {
    hide Field, NameAt, Clipped;
    if pos + RECORD_HEADER <= n {
      FieldOfPrefix(b, n, pos, 4);
      FieldOfPrefix(b, n, pos + 4, 4);
      var total, body := Field(b, pos + 4, 4), pos + RECORD_HEADER;
      if body + LOAD_FIXED <= n {
        FieldOfPrefix(b, n, body + 16, 8);
        FieldOfPrefix(b, n, body + 24, 8);
        FieldOfPrefix(b, n, body + 32, 8);
        if total >= RECORD_HEADER + LOAD_FIXED {
          NameOfPrefix(b, n, body + LOAD_FIXED, total - RECORD_HEADER - LOAD_FIXED);
        }
      }
      if body + MOVE_FIXED <= n { FieldOfPrefix(b, n, body + 40, 8); }
    }
  }

  lemma {:induction false} RecordsOfPrefix(b: seq<byte>, n: nat, pos: nat)
    requires n <= |b|
    ensures Records(b[..n], pos) <= Records(b, pos)
    decreases if pos <= |b| then |b| - pos else 0
  {
    hide StepAt;
    StepOfPrefix(b, n, pos);
    var s := StepAt(b[..n], pos);
    if !s.Halt? {
      if s == StepAt(b, pos) {
        RecordsOfPrefix(b, n, s.next);
      } else {
        PastTheEnd(b[..n], s.next);
      }
    }
  }

  lemma {:induction false} PastTheEnd(b: seq<byte>, pos: nat)
    requires pos > |b|
    ensures Records(b, pos) == []
  {}

  /** Reading any prefix of a dump, as when the runtime is still appending to it,
      yields a prefix of the whole dump's records. */
  lemma {:induction false} TruncatedDump(b: seq<byte>, n: nat)
    requires n <= |b|
    ensures Decode(b[..n]) <= Decode(b)
  {
    if n >= FILE_HEADER {
      FieldOfPrefix(b, n, 0, 4);
      FieldOfPrefix(b, n, 8, 4);
      if Start(b).Some? { RecordsOfPrefix(b, n, Start(b).value); }
    }
  }

  // ---------------------------------------------------------------- moves

  /** The code indexes of the loads, in order: entry k of the map is the k-th load. */
  function Indexes(rs: seq<Record>): (ids: seq<nat>) {
    if rs == [] then []
    else
      var last := |rs| - 1;
      Indexes(rs[..last]) + (if rs[last].Load? then [rs[last].index] else [])
  }

  /** The newest load with this code index. */
  function Newest(ids: seq<nat>, index: nat): (k: Option<nat>)
    ensures k.Some? ==> k.value < |ids| && ids[k.value] == index
    ensures k.Some? ==> forall i :: k.value < i < |ids| ==> ids[i] != index
    ensures k.None? <==> index !in ids
  {
    if ids == [] then None
    else if ids[|ids| - 1] == index then Some(|ids| - 1)
    else Newest(ids[..|ids| - 1], index)
  }

  /** The map after these records: a load appends, a move overwrites the address
      and size of the newest load with its index. */
  function Table(rs: seq<Record>): (v: seq<Sym>)
    ensures |v| == |Indexes(rs)|
  {
    if rs == [] then []
    else
      var last := |rs| - 1;
      var v := Table(rs[..last]);
      match rs[last]
      case Load(_, addr, size, name) => v + [Sym(addr, size, name)]
      case Move(index, addr, size) =>
        match Newest(Indexes(rs[..last]), index)
        case None => v
        case Some(k) => v[k := v[k].(addr := addr, size := size)]
  }

  /** `found` with `seen` in front of it. */
  function After(seen: seq<byte>, found: Option<seq<byte>>): Option<seq<byte>> {
    if found.None? then None else Some(seen + found.value)
  }

  lemma {:induction false} NothingSeen(found: Option<seq<byte>>)
    ensures After([], found) == found
  {
    if found.Some? { assert [] + found.value == found.value; }
  }

  lemma {:induction false} NameUnfold(b: seq<byte>, p: nat, room: nat, seen: seq<byte>)
    ensures After(seen, NameAt(b, p, room)) ==
              if room == 0 || p >= |b| then None
              else if b[p] == 0 then Some(seen)
              else After(seen + [b[p]], NameAt(b, p + 1, room - 1))
  {
    assert seen + [] == seen;
    if room > 0 && p < |b| && b[p] != 0 && NameAt(b, p + 1, room - 1).Some? {
      assert seen + ([b[p]] + NameAt(b, p + 1, room - 1).value) == (seen + [b[p]]) + NameAt(b, p + 1, room - 1).value;
    }
  }

  /** The loop that reads a name, bounded by the record and clipped to its buffer. */
  method ReadName(b: seq<byte>, start: nat, limit: nat) returns (terminated: bool, name: seq<byte>)
    ensures terminated <==> NameAt(b, start, limit).Some?
    ensures terminated ==> name == Clipped(NameAt(b, start, limit).value)
  {
    hide NameAt;
    var p: nat, room: nat := start, limit;
    terminated, name := false, [];
    ghost var seen: seq<byte> := [];
    NothingSeen(NameAt(b, start, limit));
    while room > 0 && p < |b|
      invariant After(seen, NameAt(b, p, room)) == NameAt(b, start, limit)
      invariant name == Clipped(seen)
      decreases room
    {
      NameUnfold(b, p, room, seen);
      if b[p] == 0 {
        terminated := true;
        return;
      }
      if |name| + 1 < NAME_CAP { name := name + [b[p]]; }
      seen := seen + [b[p]];
      p, room := p + 1, room - 1;
    }
    NameUnfold(b, p, room, seen);
  }

  /** One turn of the record loop. */
  method ReadRecord(b: seq<byte>, pos: nat) returns (step: Step)
    ensures step == StepAt(b, pos)
  {
    hide Field, NameAt;
    if pos + RECORD_HEADER > |b| { return Halt; }
    var id, total := Field(b, pos, 4), Field(b, pos + 4, 4);
    if total < RECORD_HEADER { return Halt; }
    var body := pos + RECORD_HEADER;
    if id == CODE_LOAD && total >= RECORD_HEADER + LOAD_FIXED {
      if body + LOAD_FIXED > |b| { return Halt; }
      var terminated, name := ReadName(b, body + LOAD_FIXED, total - RECORD_HEADER - LOAD_FIXED);
      if terminated && |name| > 0 {
        return Keep(Load(Field(b, body + 32, 8), Field(b, body + 16, 8), Field(b, body + 24, 8), name), pos + total);
      }
    } else if id == CODE_MOVE && total >= RECORD_HEADER + MOVE_FIXED {
      if body + MOVE_FIXED > |b| { return Halt; }
      return Keep(Move(Field(b, body + 40, 8), Field(b, body + 24, 8), Field(b, body + 32, 8)), pos + total);
    }
    step := Skip(pos + total);
  }

  /** A map that the dump is read into. */
  class SymbolMap {
    var v: seq<Sym>

    constructor ()
      ensures v == []
    {
      v := [];
    }

    /** `jitdump_read`: the entries added, or -1 for a file that is not a dump. */
    method JitdumpRead(b: seq<byte>) returns (added: int)
      modifies this
      ensures Start(b).None? ==> added == -1 && v == old(v)
      ensures Start(b).Some? ==> v == old(v) + Table(Decode(b)) && added == |Table(Decode(b))|
    {
      hide Field, StepAt, Records, Table, Indexes;
      if |b| < FILE_HEADER || Field(b, 0, 4) != MAGIC || Field(b, 8, 4) < FILE_HEADER { return -1; }
      var before := |v|;
      ghost var done: seq<Record> := [];
      var loads: seq<nat> := [];
      var pos := Field(b, 8, 4);
      ghost var start := pos;
      NothingRead();
      while true
        invariant v == old(v) + Table(done)
        invariant loads == Indexes(done)
        invariant Records(b, start) == done + Records(b, pos)
        decreases if pos <= |b| then |b| - pos else 0
      {
        var step := ReadRecord(b, pos);
        RecordsUnfold(b, pos);
        if step.Halt? { break; }
        if step.Keep? {
          loads := Apply(step.record, before, loads, done);
          done := done + [step.record];
        }
        pos := step.next;
      }
      assert Records(b, start) == done;
      added := |v| - before;
    }

    /** The effect of one record on the map and on the list of loads. */
    method Apply(r: Record, before: nat, loads: seq<nat>, ghost done: seq<Record>) returns (loads': seq<nat>)
      requires before <= |v| && v[before..] == Table(done) && loads == Indexes(done)
      modifies this
      ensures v == old(v)[..before] + Table(done + [r])
      ensures loads' == Indexes(done + [r])
    {
      hide Table, Indexes, Newest;
      TableSnoc(done, r);
      loads' := loads;
      match r {
        case Load(index, addr, size, name) =>
          v := v + [Sym(addr, size, name)];
          loads' := loads + [index];
        case Move(index, addr, size) =>
          var k := FindNewest(loads, index);
          if k.Some? {
            var vi := before + k.value;
            v := v[vi := v[vi].(addr := addr, size := size)];
          }
      }
    }
  }

  /** What one more record does to the table and to the loads. */
  lemma {:induction false} TableSnoc(done: seq<Record>, r: Record)
    ensures Indexes(done + [r]) == if r.Load? then Indexes(done) + [r.index] else Indexes(done)
    ensures Table(done + [r]) ==
              match r
              case Load(_, addr, size, name) => Table(done) + [Sym(addr, size, name)]
              case Move(index, addr, size) =>
                match Newest(Indexes(done), index)
                case None => Table(done)
                case Some(k) => Table(done)[k := Table(done)[k].(addr := addr, size := size)]
  {
    hide Newest;
    assert (done + [r])[..|done|] == done;
  }

  lemma {:induction false} NothingRead()
    ensures Table([]) == [] && Indexes([]) == []
  {}

  lemma {:induction false} RecordsUnfold(b: seq<byte>, pos: nat)
    ensures Records(b, pos) == match StepAt(b, pos)
                               case Halt => []
                               case Skip(next) => Records(b, next)
                               case Keep(record, next) => [record] + Records(b, next)
  {}

  /** The backward search over the loads. */
  method FindNewest(ids: seq<nat>, index: nat) returns (k: Option<nat>)
    ensures k == Newest(ids, index)
  {
    hide Newest;
    var i := |ids|;
    while i > 0
      invariant 0 <= i <= |ids|
      invariant forall j :: i <= j < |ids| ==> ids[j] != index
    {
      i := i - 1;
      if ids[i] == index { return Some(i); }
    }
    k := None;
  }

  // ---------------------------------------------------------------- where methods end up

  /** Follow one loaded method through the records after its load: moves of its
      index carry it along until the index is loaded again. */
  function Settled(s: Sym, index: nat, rest: seq<Record>): Sym
    decreases |rest|
  {
    if rest == [] then s
    else if rest[0].index != index then Settled(s, index, rest[1..])
    else
      match rest[0]
      case Load(_, _, _, _) => s
      case Move(_, addr, size) => Settled(s.(addr := addr, size := size), index, rest[1..])
  }

  predicate Reloaded(index: nat, rest: seq<Record>) {
    exists i :: 0 <= i < |rest| && rest[i].Load? && rest[i].index == index
  }

  lemma {:induction false} SettledSnoc(s: Sym, index: nat, rest: seq<Record>, r: Record)
    ensures Settled(s, index, rest + [r]) ==
              if Reloaded(index, rest) || r.index != index || r.Load? then Settled(s, index, rest)
              else Settled(s, index, rest).(addr := r.addr, size := r.size)
    decreases |rest|
  {
    if rest == [] {
      assert rest + [r] == [r];
    } else {
      var s' := if rest[0].Move? && rest[0].index == index
                then s.(addr := rest[0].addr, size := rest[0].size) else s;
      assert (rest + [r])[1..] == rest[1..] + [r];
      SettledSnoc(s', index, rest[1..], r);
      assert Reloaded(index, rest) <==> (rest[0].Load? && rest[0].index == index) || Reloaded(index, rest[1..]) by {
        if Reloaded(index, rest[1..]) {
          var i :| 0 <= i < |rest[1..]| && rest[1..][i].Load? && rest[1..][i].index == index;
          assert rest[i + 1].Load? && rest[i + 1].index == index;
        }
      }
    }
  }

  /** The position of the k-th load. */
  function LoadAt(rs: seq<Record>, k: nat): (i: nat)
    requires k < |Indexes(rs)|
    ensures i < |rs| && rs[i].Load? && rs[i].index == Indexes(rs)[k]
  {
    var last := |rs| - 1;
    if k < |Indexes(rs[..last])| then LoadAt(rs[..last], k) else last
  }

  lemma {:induction false} LaterLoads(rs: seq<Record>, k: nat)
    requires k < |Indexes(rs)|
    ensures Reloaded(Indexes(rs)[k], rs[LoadAt(rs, k) + 1..]) <==>
              exists j :: k < j < |Indexes(rs)| && Indexes(rs)[j] == Indexes(rs)[k]
  {
    var last := |rs| - 1;
    var i, ids, ids' := LoadAt(rs, k), Indexes(rs), Indexes(rs[..last]);
    if k < |ids'| {
      LaterLoads(rs[..last], k);
      assert rs[i + 1..] == rs[..last][i + 1..] + [rs[last]];
      ReloadedSnoc(ids[k], rs[..last][i + 1..], rs[last]);
      if rs[last].Load? && rs[last].index == ids[k] { assert ids[|ids'|] == ids[k]; }
      assert forall j :: k < j < |ids'| ==> ids[j] == ids'[j];
    }
  }

  lemma {:induction false} ReloadedSnoc(index: nat, rest: seq<Record>, r: Record)
    ensures Reloaded(index, rest + [r]) <==> Reloaded(index, rest) || (r.Load? && r.index == index)
  {
    if Reloaded(index, rest) {
      var i :| 0 <= i < |rest| && rest[i].Load? && rest[i].index == index;
      assert (rest + [r])[i] == rest[i];
    }
    if r.Load? && r.index == index { assert (rest + [r])[|rest|] == r; }
  }

  /** What the last record does to an entry that was there before it. */
  lemma {:induction false} EntryStep(rs: seq<Record>, k: nat)
    requires rs != [] && k < |Table(rs[..|rs| - 1])|
    ensures var before, r := rs[..|rs| - 1], rs[|rs| - 1];
            var ids := Indexes(before);
            && k < |Table(rs)| && k < |ids|
            && LoadAt(rs, k) == LoadAt(before, k)
            && Table(rs)[k] == if r.Move? && ids[k] == r.index && forall j :: k < j < |ids| ==> ids[j] != ids[k]
                               then Table(before)[k].(addr := r.addr, size := r.size)
                               else Table(before)[k]
  {
    hide Newest;
  }

  /** Every loaded method ends at the address and size of the last move of its
      code index before that index is loaded again, or where it was loaded. */
  lemma {:induction false} MethodsEndAtTheirLastMove(rs: seq<Record>, k: nat)
    requires k < |Table(rs)|
    ensures var i := LoadAt(rs, k);
            Table(rs)[k] == Settled(Sym(rs[i].addr, rs[i].size, rs[i].name), rs[i].index, rs[i + 1..])
    decreases |rs|, 1
  {
    hide Settled, Reloaded, Newest;
    var last := |rs| - 1;
    var before, r := rs[..last], rs[last];
    var i := LoadAt(rs, k);
    if k < |Table(before)| {
      EntryAfter(rs, k);
    } else {
      assert rs[i + 1..] == [];
      NothingAfter(Sym(rs[i].addr, rs[i].size, rs[i].name), rs[i].index);
    }
  }

  lemma {:induction false} NothingAfter(s: Sym, index: nat)
    ensures Settled(s, index, []) == s
  {}

  lemma {:induction false} EntryAfter(rs: seq<Record>, k: nat)
    requires rs != [] && k < |Table(rs[..|rs| - 1])|
    ensures k < |Table(rs)|
    ensures var i := LoadAt(rs, k);
            Table(rs)[k] == Settled(Sym(rs[i].addr, rs[i].size, rs[i].name), rs[i].index, rs[i + 1..])
    decreases |rs|, 0
  {
    hide Settled, Reloaded, Newest, Table, Indexes, LoadAt;
    var last := |rs| - 1;
    var before, r := rs[..last], rs[last];
    EntryStep(rs, k);
    MethodsEndAtTheirLastMove(before, k);
    var i := LoadAt(before, k);
    assert rs[i] == before[i] && rs[i + 1..] == before[i + 1..] + [r];
    SettledSnoc(Sym(rs[i].addr, rs[i].size, rs[i].name), rs[i].index, before[i + 1..], r);
    LaterLoads(before, k);
  }
}
