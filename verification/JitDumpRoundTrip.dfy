/** A writer of the jitdump layout of the Linux perf specification, and the proof
    that the reader recovers exactly what was written. */
module JitDumpRoundTrip {
  import opened Common
  import opened JitDump

  /** A record as a runtime writes it: what the reader keeps, and the fields and
      payload it skips. */
  datatype Written =
    | WrittenLoad(record: Record, time: nat, pid: nat, tid: nat, vma: nat, code: seq<byte>)
    | WrittenMove(record: Record, time: nat, pid: nat, tid: nat, vma: nat, oldAddr: nat)
    | WrittenOther(id: nat, time: nat, payload: seq<byte>)

  function RecordHeader(id: nat, total: nat, time: nat): (b: seq<byte>)
    ensures |b| == RECORD_HEADER
  {
    Little(id, 4) + Little(total, 4) + Little(time, 8)
  }

  function LoadFixed(w: Written): (b: seq<byte>)
    requires w.WrittenLoad? && w.record.Load?
    ensures |b| == LOAD_FIXED
  {
    Little(w.pid, 4) + Little(w.tid, 4) + Little(w.vma, 8)
    + Little(w.record.addr, 8) + Little(w.record.size, 8) + Little(w.record.index, 8)
  }

  function MoveFixed(w: Written): (b: seq<byte>)
    requires w.WrittenMove? && w.record.Move?
    ensures |b| == MOVE_FIXED
  {
    Little(w.pid, 4) + Little(w.tid, 4) + Little(w.vma, 8) + Little(w.oldAddr, 8)
    + Little(w.record.addr, 8) + Little(w.record.size, 8) + Little(w.record.index, 8)
  }

  predicate Word(v: nat) { v < WRAP }

  predicate NameOk(name: seq<byte>) {
    forall i :: 0 <= i < |name| ==> name[i] != 0
  }

  function Size(w: Written): nat
    requires Shaped(w)
  {
    match w
    case WrittenLoad(r, _, _, _, _, code) => RECORD_HEADER + LOAD_FIXED + |r.name| + 1 + |code|
    case WrittenMove(_, _, _, _, _, _) => RECORD_HEADER + MOVE_FIXED
    case WrittenOther(_, _, payload) => RECORD_HEADER + |payload|
  }

  predicate Shaped(w: Written) {
    match w
    case WrittenLoad(r, _, _, _, _, _) => r.Load?
    case WrittenMove(r, _, _, _, _, _) => r.Move?
    case WrittenOther(_, _, _) => true
  }

  predicate Writable(w: Written)
    requires Shaped(w)
  {
    && Size(w) < 0x1_0000_0000
    && (match w
        case WrittenLoad(r, _, _, _, _, _) => NameOk(r.name) && Word(r.addr) && Word(r.size) && Word(r.index)
        case WrittenMove(r, _, _, _, _, _) => Word(r.addr) && Word(r.size) && Word(r.index)
        case WrittenOther(id, _, _) => CODE_MOVE < id < 0x1_0000_0000)
  }

  function Encode(w: Written): (b: seq<byte>)
    requires Shaped(w)
    ensures |b| == Size(w)
  {
    match w
    case WrittenLoad(r, time, _, _, _, code) =>
      RecordHeader(CODE_LOAD, Size(w), time) + LoadFixed(w) + (r.name + [0] + code)
    case WrittenMove(_, time, _, _, _, _) => RecordHeader(CODE_MOVE, Size(w), time) + MoveFixed(w)
    case WrittenOther(id, time, payload) => RecordHeader(id, Size(w), time) + payload
  }

  function EncodeAll(ws: seq<Written>): seq<byte>
    requires forall i :: 0 <= i < |ws| ==> Shaped(ws[i])
  {
    if ws == [] then [] else Encode(ws[0]) + EncodeAll(ws[1..])
  }

  /** What the reader should see of one record: names clipped to its buffer, a load
      without a name and every other record type passed over. */
  function Seen(w: Written): seq<Record>
    requires Shaped(w)
  {
    match w
    case WrittenLoad(r, _, _, _, _, _) => if r.name == [] then [] else [r.(name := if |r.name| <= 255 then r.name else r.name[..255])]
    case WrittenMove(r, _, _, _, _, _) => [r]
    case WrittenOther(_, _, _) => []
  }

  function Kept(ws: seq<Written>): seq<Record>
    requires forall i :: 0 <= i < |ws| ==> Shaped(ws[i])
  {
    if ws == [] then [] else Seen(ws[0]) + Kept(ws[1..])
  }

  /** Reading a record yields what should be seen of it and moves past all of it. */
  predicate ReadAs(s: Step, seen: seq<Record>, next: nat) {
    s == if seen == [] then Skip(next) else Keep(seen[0], next)
  }

  // ---------------------------------------------------------------- fields in place

  lemma {:induction false} FieldReads(b: seq<byte>, p: nat, v: nat, n: nat)
    requires v < Pow256(n) && Holds(b, p, Little(v, n))
    ensures Field(b, p, n) == v
    decreases n
  {
    if n > 0 {
      HoldsSplit(b, p, [v % 256], Little(v / 256, n - 1));
      assert b[p..p + 1][0] == b[p];
      FieldReads(b, p + 1, v / 256, n - 1);
    }
  }

  lemma {:induction false} HeaderReads(b: seq<byte>, p: nat, id: nat, total: nat, time: nat)
    requires id < 0x1_0000_0000 && total < 0x1_0000_0000 && Holds(b, p, RecordHeader(id, total, time))
    ensures p + RECORD_HEADER <= |b| && Field(b, p, 4) == id && Field(b, p + 4, 4) == total
  {
    hide Little, Field;
    FieldBounds();
    HoldsSplit(b, p, Little(id, 4) + Little(total, 4), Little(time, 8));
    HoldsSplit(b, p, Little(id, 4), Little(total, 4));
    FieldReads(b, p, id, 4);
    FieldReads(b, p + 4, total, 4);
  }

  /** Three 64-bit fields in a row, as both record types end. */
  lemma {:induction false} TripleReads(b: seq<byte>, p: nat, head: seq<byte>, x: nat, y: nat, z: nat)
    requires Word(x) && Word(y) && Word(z)
    requires Holds(b, p, head + Little(x, 8) + Little(y, 8) + Little(z, 8))
    ensures p + |head| + 24 <= |b|
    ensures Field(b, p + |head|, 8) == x
    ensures Field(b, p + |head| + 8, 8) == y
    ensures Field(b, p + |head| + 16, 8) == z
  {
    hide Little, Field;
    FieldBounds();
    HoldsSplit(b, p, head + Little(x, 8) + Little(y, 8), Little(z, 8));
    HoldsSplit(b, p, head + Little(x, 8), Little(y, 8));
    HoldsSplit(b, p, head, Little(x, 8));
    FieldReads(b, p + |head|, x, 8);
    FieldReads(b, p + |head| + 8, y, 8);
    FieldReads(b, p + |head| + 16, z, 8);
  }

  lemma {:induction false} NameReads(b: seq<byte>, p: nat, name: seq<byte>, room: nat)
    requires Holds(b, p, name + [0]) && room > |name| && forall i :: 0 <= i < |name| ==> name[i] != 0
    ensures NameAt(b, p, room) == Some(name)
    decreases |name|
  {
    HoldsSplit(b, p, name, [0]);
    assert b[p + |name|] == b[p + |name|..p + |name| + 1][0];
    if name != [] {
      assert b[p] == b[p..p + |name|][0];
      assert name + [0] == [name[0]] + (name[1..] + [0]);
      HoldsSplit(b, p, [name[0]], name[1..] + [0]);
      NameReads(b, p + 1, name[1..], room - 1);
      assert [name[0]] + name[1..] == name;
    }
  }

  // ---------------------------------------------------------------- one record

  lemma {:induction false} LoadReads(b: seq<byte>, p: nat, w: Written)
    requires Shaped(w) && Writable(w) && w.WrittenLoad? && Holds(b, p, Encode(w))
    ensures ReadAs(StepAt(b, p), Seen(w), p + Size(w))
  {
    hide Field, NameAt, Little, RecordHeader, Holds;
    var r := w.record;
    var header, name := RecordHeader(CODE_LOAD, Size(w), w.time), r.name + [0];
    assert Encode(w) == (header + LoadFixed(w)) + (name + w.code);
    HoldsSplit(b, p, header + LoadFixed(w), name + w.code);
    HoldsSplit(b, p + RECORD_HEADER + LOAD_FIXED, name, w.code);
    HoldsSplit(b, p, header, LoadFixed(w));
    HeaderReads(b, p, CODE_LOAD, Size(w), w.time);
    TripleReads(b, p + RECORD_HEADER, Little(w.pid, 4) + Little(w.tid, 4) + Little(w.vma, 8), r.addr, r.size, r.index);
    NameReads(b, p + RECORD_HEADER + LOAD_FIXED, r.name, Size(w) - RECORD_HEADER - LOAD_FIXED);
  }

  lemma {:induction false} MoveReads(b: seq<byte>, p: nat, w: Written)
    requires Shaped(w) && Writable(w) && w.WrittenMove? && Holds(b, p, Encode(w))
    ensures ReadAs(StepAt(b, p), Seen(w), p + Size(w))
  {
    hide Field, NameAt, Little, RecordHeader, Holds;
    var r, header := w.record, RecordHeader(CODE_MOVE, Size(w), w.time);
    HoldsSplit(b, p, header, MoveFixed(w));
    HeaderReads(b, p, CODE_MOVE, Size(w), w.time);
    TripleReads(b, p + RECORD_HEADER, Little(w.pid, 4) + Little(w.tid, 4) + Little(w.vma, 8) + Little(w.oldAddr, 8),
                r.addr, r.size, r.index);
  }

  lemma {:induction false} OtherSkips(b: seq<byte>, p: nat, w: Written)
    requires Shaped(w) && Writable(w) && w.WrittenOther? && Holds(b, p, Encode(w))
    ensures ReadAs(StepAt(b, p), Seen(w), p + Size(w))
  {
    hide Field, NameAt, Little, RecordHeader, Holds;
    HoldsSplit(b, p, RecordHeader(w.id, Size(w), w.time), w.payload);
    HeaderReads(b, p, w.id, Size(w), w.time);
  }

  // ---------------------------------------------------------------- the whole file

  lemma {:induction false} RecordsRead(b: seq<byte>, p: nat, ws: seq<Written>)
    requires forall i :: 0 <= i < |ws| ==> Shaped(ws[i]) && Writable(ws[i])
    requires p <= |b| && b[p..] == EncodeAll(ws)
    ensures Records(b, p) == Kept(ws)
    decreases |ws|
  {
    hide StepAt, Encode, Records, NameOk, Word;
    RecordsUnfold(b, p);
    if ws == [] {
      EndOfFile(b, p);
    } else {
      var w := ws[0];
      assert Holds(b, p, Encode(w)) by { assert b[p..][..Size(w)] == b[p..p + Size(w)]; }
      assert b[p + Size(w)..] == b[p..][Size(w)..];
      match w {
        case WrittenLoad(_, _, _, _, _, _) => LoadReads(b, p, w);
        case WrittenMove(_, _, _, _, _, _) => MoveReads(b, p, w);
        case WrittenOther(_, _, _) => OtherSkips(b, p, w);
      }
      RecordsRead(b, p + Size(w), ws[1..]);
    }
  }

  lemma {:induction false} EndOfFile(b: seq<byte>, p: nat)
    requires p == |b|
    ensures StepAt(b, p) == Halt
  {}

  /** A dump header of `total` bytes: magic, version, its own size, and the rest. */
  function FileHeader(version: nat, rest: seq<byte>): seq<byte> {
    Little(MAGIC, 4) + Little(version, 4) + Little(12 + |rest|, 4) + rest
  }

  /** Reading back a written dump, with a header of any legal size and any skipped
      fields, payloads and foreign records, yields exactly the loads and moves
      that were written, in order. */
  lemma {:induction false} DumpRoundTrip(version: nat, rest: seq<byte>, ws: seq<Written>)
    requires 28 <= |rest| && 12 + |rest| < 0x1_0000_0000
    requires forall i :: 0 <= i < |ws| ==> Shaped(ws[i]) && Writable(ws[i])
    ensures Decode(FileHeader(version, rest) + EncodeAll(ws)) == Kept(ws)
  {
    hide Field, Little, Records, NameOk, Word;
    var header := FileHeader(version, rest);
    var b := header + EncodeAll(ws);
    assert Holds(b, 0, header);
    FieldBounds();
    HoldsSplit(b, 0, Little(MAGIC, 4) + Little(version, 4) + Little(12 + |rest|, 4), rest);
    HoldsSplit(b, 0, Little(MAGIC, 4) + Little(version, 4), Little(12 + |rest|, 4));
    HoldsSplit(b, 0, Little(MAGIC, 4), Little(version, 4));
    FieldReads(b, 0, MAGIC, 4);
    FieldReads(b, 8, 12 + |rest|, 4);
    assert b[|header|..] == EncodeAll(ws);
    RecordsRead(b, |header|, ws);
  }
}
