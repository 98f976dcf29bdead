/** Where the records of a dump lie in the file, byte by byte, and exactly which of
    them a reader still sees when the file is cut. */
module JitDumpCut {
  import opened Common
  import opened JitDump

  /** A record kept by the reader, where its header starts, and where the part of it
      that the reader needs ends: after the name's NUL, or after the fixed fields. */
  datatype Placed = Placed(record: Record, at: nat, end: nat)

  function EndOf(b: seq<byte>, pos: nat): nat
    requires StepAt(b, pos).Keep?
  {
    if StepAt(b, pos).record.Load?
    then pos + 57 + |NameAt(b, pos + 56, Field(b, pos + 4, 4) - 56).value|
    else pos + 64
  }

  function PlacedFrom(b: seq<byte>, pos: nat): seq<Placed>
    decreases if pos <= |b| then |b| - pos else 0
  {
    match StepAt(b, pos)
    case Halt => []
    case Skip(next) => PlacedFrom(b, next)
    case Keep(record, next) => [Placed(record, pos, EndOf(b, pos))] + PlacedFrom(b, next)
  }

  function PlacedIn(b: seq<byte>): seq<Placed> {
    if Start(b).None? then [] else PlacedFrom(b, Start(b).value)
  }

  // ---------------------------------------------------------------- names

  lemma {:induction false} NameMeans(b: seq<byte>, p: nat, room: nat)
    requires NameAt(b, p, room).Some?
    ensures var name := NameAt(b, p, room).value;
            && |name| < room && p + |name| < |b| && b[p + |name|] == 0
            && b[p..p + |name|] == name && 0 !in name
    decreases room
  {
    if b[p] != 0 {
      NameMeans(b, p + 1, room - 1);
      var rest := NameAt(b, p + 1, room - 1).value;
      assert b[p..p + 1 + |rest|] == [b[p]] + b[p + 1..p + 1 + |rest|];
    }
  }

  /** A cut file shows a name exactly if its NUL lies before the cut. */
  lemma {:induction false} NameCut(b: seq<byte>, n: nat, p: nat, room: nat)
    requires n <= |b|
    ensures var cut, whole := NameAt(b[..n], p, room), NameAt(b, p, room);
            cut == if whole.Some? && p + |whole.value| < n then whole else None
    decreases room
  {
    if room > 0 && p < n {
      NameCut(b, n, p + 1, room - 1);
    } else if NameAt(b, p, room).Some? {
      NameMeans(b, p, room);
    }
  }

  // ---------------------------------------------------------------- where things lie

  /** The bytes of a kept record. */
  ghost predicate LiesAt(b: seq<byte>, x: Placed) {
    && x.at + 16 <= x.end <= |b|
    && (match x.record
        case Load(index, addr, size, name) =>
          && x.end >= x.at + 58
          && Field(b, x.at, 4) == 0
          && Field(b, x.at + 32, 8) == addr && Field(b, x.at + 40, 8) == size && Field(b, x.at + 48, 8) == index
          && b[x.end - 1] == 0 && 0 !in b[x.at + 56..x.end - 1]
          && name == (if x.end - 1 <= x.at + 56 + 255 then b[x.at + 56..x.end - 1] else b[x.at + 56..x.at + 56 + 255])
        case Move(index, addr, size) =>
          && x.end == x.at + 64
          && Field(b, x.at, 4) == 1
          && Field(b, x.at + 40, 8) == addr && Field(b, x.at + 48, 8) == size && Field(b, x.at + 56, 8) == index)
  }

  lemma {:induction false} StepLies(b: seq<byte>, pos: nat)
    requires StepAt(b, pos).Keep?
    ensures LiesAt(b, Placed(StepAt(b, pos).record, pos, EndOf(b, pos)))
    ensures EndOf(b, pos) <= StepAt(b, pos).next
  {
    hide Field, NameAt;
    if StepAt(b, pos).record.Load? {
      NameMeans(b, pos + 56, Field(b, pos + 4, 4) - 56);
    }
  }

  /** Every record kept lies where the format says: a load has its code address, size
      and index at bytes 32, 40 and 48 of the record and its name from byte 56 to a NUL,
      clipped to 255 bytes; a move has its new address, size and index at 40, 48, 56. */
  lemma {:induction false} RecordsLie(b: seq<byte>, pos: nat)
    ensures var placed := PlacedFrom(b, pos);
            && |placed| == |Records(b, pos)|
            && (forall i :: 0 <= i < |placed| ==>
                  placed[i].record == Records(b, pos)[i] && placed[i].at >= pos && LiesAt(b, placed[i]))
            && (forall i, j :: 0 <= i < j < |placed| ==> placed[i].end <= placed[j].at)
    decreases if pos <= |b| then |b| - pos else 0
  {
    hide StepAt, LiesAt, EndOf;
    RecordsUnfold(b, pos);
    match StepAt(b, pos)
    case Halt =>
    case Skip(next) => RecordsLie(b, next);
    case Keep(record, next) =>
      StepLies(b, pos);
      RecordsLie(b, next);
  }

  // ---------------------------------------------------------------- the cut

  /** What a cut makes of one step: the same, if what the step needs lies before the
      cut; otherwise nothing from here on. */
  lemma {:induction false} StepCut(b: seq<byte>, n: nat, pos: nat)
    requires n <= |b|
    ensures var s, w := StepAt(b[..n], pos), StepAt(b, pos);
            && (w.Halt? ==> s.Halt?)
            && (s != w ==> (s.Halt? || (s.Skip? && s.next > n)) && w.next > n)
            && (w.Keep? ==> (s == w <==> EndOf(b, pos) <= n))
            && (w.Keep? && s == w ==> EndOf(b[..n], pos) == EndOf(b, pos))
  {
    hide Field, NameAt, Clipped;
    if pos + 16 <= n {
      FieldOfPrefix(b, n, pos, 4);
      FieldOfPrefix(b, n, pos + 4, 4);
      var total, body := Field(b, pos + 4, 4), pos + 16;
      if body + LOAD_FIXED <= n {
        FieldOfPrefix(b, n, body + 16, 8);
        FieldOfPrefix(b, n, body + 24, 8);
        FieldOfPrefix(b, n, body + 32, 8);
        if total >= RECORD_HEADER + LOAD_FIXED {
          NameCut(b, n, body + LOAD_FIXED, total - RECORD_HEADER - LOAD_FIXED);
          if NameAt(b, body + LOAD_FIXED, total - RECORD_HEADER - LOAD_FIXED).Some? {
            NameMeans(b, body + LOAD_FIXED, total - RECORD_HEADER - LOAD_FIXED);
          }
        }
      }
      if body + MOVE_FIXED <= n { FieldOfPrefix(b, n, body + 40, 8); }
    }
  }

  lemma {:induction false} PastTheCut(b: seq<byte>, pos: nat)
    requires pos > |b|
    ensures PlacedFrom(b, pos) == []
  {}

  lemma {:induction false} LaterEnds(b: seq<byte>, n: nat, pos: nat)
    requires pos > n
    ensures forall i :: 0 <= i < |PlacedFrom(b, pos)| ==> PlacedFrom(b, pos)[i].end > n
  {
    hide LiesAt, PlacedFrom;
    RecordsLie(b, pos);
    forall i | 0 <= i < |PlacedFrom(b, pos)| ensures PlacedFrom(b, pos)[i].end > n {
      EndsAfter(b, PlacedFrom(b, pos)[i]);
    }
  }

  lemma {:induction false} EndsAfter(b: seq<byte>, x: Placed)
    requires LiesAt(b, x)
    ensures x.end > x.at
  {}

  predicate ShowsUpTo(cut: seq<Placed>, whole: seq<Placed>, n: nat) {
    && cut <= whole
    && forall i :: 0 <= i < |whole| ==> (i < |cut| <==> whole[i].end <= n)
  }

  lemma {:induction false} PlacedCut(b: seq<byte>, n: nat, pos: nat)
    requires n <= |b|
    ensures ShowsUpTo(PlacedFrom(b[..n], pos), PlacedFrom(b, pos), n)
    decreases if pos <= |b| then |b| - pos else 0
  {
    hide StepAt, EndOf;
    StepCut(b, n, pos);
    var s, w := StepAt(b[..n], pos), StepAt(b, pos);
    if s == w {
      if !w.Halt? { PlacedCut(b, n, w.next); }
    } else {
      if s.Skip? { PastTheCut(b[..n], s.next); }
      LaterEnds(b, n, w.next);
    }
  }

  /** Reading a cut dump yields exactly the records of the whole dump whose needed part
      lies before the cut: every load whose name's NUL, and every move whose fixed
      fields, were written. */
  lemma {:induction false} CutDump(b: seq<byte>, n: nat)
    requires n <= |b|
    ensures var placed := PlacedIn(b);
            && |placed| == |Decode(b)|
            && (forall i :: 0 <= i < |placed| ==> placed[i].record == Decode(b)[i] && LiesAt(b, placed[i]))
            && Decode(b[..n]) <= Decode(b)
            && (forall i :: 0 <= i < |placed| ==> (i < |Decode(b[..n])| <==> placed[i].end <= n))
  {
    hide PlacedFrom, Records, LiesAt;
    TruncatedDump(b, n);
    if Start(b).Some? {
      var start := Start(b).value;
      RecordsLie(b, start);
      if n >= FILE_HEADER {
        FieldOfPrefix(b, n, 0, 4);
        FieldOfPrefix(b, n, 8, 4);
        PlacedCut(b, n, start);
        RecordsLie(b[..n], start);
      } else {
        LaterEnds(b, n, start);
      }
    }
  }

  // ---------------------------------------------------------------- what is a dump

  function Word32(a: int, b: int, c: int, d: int): int { a + 0x100 * b + 0x1_0000 * c + 0x100_0000 * d }

  /** A dump starts with the bytes "DTiJ" and states a header of at least 40 bytes; the
      reader refuses everything else. */
  lemma {:induction false} DumpIff(b: seq<byte>)
    ensures Start(b).Some? <==>
              && |b| >= 40
              && b[0] == 0x44 && b[1] == 0x54 && b[2] == 0x69 && b[3] == 0x4A
              && Word32(b[8], b[9], b[10], b[11]) >= 40
  {
    if |b| >= 40 {
      FourBytes(b, 0);
      FourBytes(b, 8);
    }
  }

  lemma {:induction false} FourBytes(b: seq<byte>, p: nat)
    requires p + 4 <= |b|
    ensures Field(b, p, 4) == Word32(b[p], b[p + 1], b[p + 2], b[p + 3])
  {
    assert Field(b, p + 4, 0) == 0;
    assert Field(b, p + 3, 1) == b[p + 3];
    assert Field(b, p + 2, 2) == Word32(b[p + 2], b[p + 3], 0, 0);
  }
}
