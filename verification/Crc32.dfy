/** The table-driven CRC-32 that verifies separate debug files (`crc32_file`),
    against the bit-at-a-time register of section 8 of RFC 1952.  A 32-bit word
    is the sequence of its bits, least significant first. */
module Crc32 {
  import opened Common

  type Word = w: seq<bool> | |w| == 32 witness seq(32, _ => false)

  function Zeros(n: nat): (z: seq<bool>)
    ensures |z| == n && forall i :: 0 <= i < n ==> !z[i]
  {
    seq(n, _ => false)
  }

  function Xor(a: Word, b: Word): (c: Word)
    ensures forall i :: 0 <= i < 32 ==> c[i] == (a[i] != b[i])
  {
    seq(32, i requires 0 <= i < 32 => a[i] != b[i])
  }

  /** c >> n */
  function Down(c: Word, n: nat): (d: Word)
    requires n <= 32
    ensures forall i :: 0 <= i < 32 ==> d[i] == (i + n < 32 && c[i + n])
  {
    c[n..] + Zeros(n)
  }

  /** The `width` low bits of a number. */
  function Bits(v: nat, width: nat): (bits: seq<bool>)
    ensures |bits| == width
  {
    if width == 0 then [] else [v % 2 == 1] + Bits(v / 2, width - 1)
  }

  function Value(bits: seq<bool>): nat {
    if bits == [] then 0 else (if bits[0] then 1 else 0) + 2 * Value(bits[1..])
  }

  /** At most 32 bits as a word. */
  function Low(bits: seq<bool>): (w: Word)
    requires |bits| <= 32
  {
    bits + Zeros(32 - |bits|)
  }

  const POLYNOMIAL: Word := Bits(0xedb88320, 32)
  const ONES: Word := Bits(0xffffffff, 32)

  // ---------------------------------------------------------------- the reference

  /** One step of the reflected shift register. */
  function Shift(c: Word): Word {
    if c[0] then Xor(POLYNOMIAL, Down(c, 1)) else Down(c, 1)
  }

  /** The register after a message given bit by bit. */
  function Feed(c: Word, bits: seq<bool>): Word
    decreases |bits|
  {
    if bits == [] then c else Feed(Shift(Xor(c, Low([bits[0]]))), bits[1..])
  }

  function Message(file: seq<byte>): seq<bool> {
    if file == [] then [] else Bits(file[0], 8) + Message(file[1..])
  }

  function Checksum(message: seq<bool>): Word { Xor(Feed(ONES, message), ONES) }

  // ---------------------------------------------------------------- linearity

  function Shifts(c: Word, n: nat): Word
    decreases n
  {
    if n == 0 then c else Shifts(Shift(c), n - 1)
  }

  lemma {:induction false} Same(a: Word, b: Word)
    requires forall i :: 0 <= i < 32 ==> a[i] == b[i]
    ensures a == b
  {}

  lemma {:induction false} ShiftLinear(a: Word, b: Word)
    ensures Shift(Xor(a, b)) == Xor(Shift(a), Shift(b))
  {
    Same(Shift(Xor(a, b)), Xor(Shift(a), Shift(b)));
  }

  lemma {:induction false} ShiftsLinear(a: Word, b: Word, n: nat)
    ensures Shifts(Xor(a, b), n) == Xor(Shifts(a, n), Shifts(b, n))
    decreases n
  {
    if n > 0 {
      ShiftLinear(a, b);
      ShiftsLinear(Shift(a), Shift(b), n - 1);
    }
  }

  lemma {:induction false} ShiftSplit(c: Word, bits: seq<bool>)
    requires 0 < |bits| <= 32
    ensures Shift(Xor(c, Low(bits))) == Xor(Shift(Xor(c, Low([bits[0]]))), Low(bits[1..]))
  {
    Same(Shift(Xor(c, Low(bits))), Xor(Shift(Xor(c, Low([bits[0]]))), Low(bits[1..])));
  }

  lemma {:induction false} AddNothing(c: Word)
    ensures Xor(c, Low([])) == c
  {
    Same(Xor(c, Low([])), c);
  }

  /** Feeding up to 32 bits one by one is adding them all and then shifting. */
  lemma {:induction false} FeedIsShifts(c: Word, bits: seq<bool>)
    requires |bits| <= 32
    ensures Feed(c, bits) == Shifts(Xor(c, Low(bits)), |bits|)
    decreases |bits|
  {
    hide Shift, Xor, Low;
    if bits == [] {
      AddNothing(c);
    } else {
      ShiftSplit(c, bits);
      FeedIsShifts(Shift(Xor(c, Low([bits[0]]))), bits[1..]);
    }
  }

  /** Shifting a register whose low bits are clear only moves it down. */
  lemma {:induction false} HighBitsMove(c: Word, n: nat)
    requires n <= 32 && forall i :: 0 <= i < n ==> !c[i]
    ensures Shifts(c, n) == Down(c, n)
    decreases n
  {
    if n == 0 {
      Same(c, Down(c, 0));
    } else {
      HighBitsMove(Down(c, 1), n - 1);
      Same(Down(Down(c, 1), n - 1), Down(c, n));
    }
  }

  lemma {:induction false} FeedConcat(c: Word, a: seq<bool>, b: seq<bool>)
    ensures Feed(c, a + b) == Feed(Feed(c, a), b)
    decreases |a|
  {
    if a == [] {
      assert a + b == b;
    } else {
      assert (a + b)[1..] == a[1..] + b;
      FeedConcat(Shift(Xor(c, Low([a[0]]))), a[1..], b);
    }
  }

  // ---------------------------------------------------------------- the table

  /** Entry i of the table: eight shifts of the number i alone. */
  function Entry(i: nat): Word { Shifts(Bits(i, 32), 8) }

  function Pow2(n: nat): nat { if n == 0 then 1 else 2 * Pow2(n - 1) }

  lemma {:induction false} ValueOfBits(bits: seq<bool>, width: nat)
    requires |bits| <= width
    ensures Value(bits) < Pow2(|bits|)
    ensures Bits(Value(bits), width) == bits + Zeros(width - |bits|)
    decreases width
  {
    if bits == [] {
      BitsOfZero(width);
    } else {
      var rest := Value(bits[1..]);
      ValueOfBits(bits[1..], width - 1);
      assert Value(bits) / 2 == rest && (Value(bits) % 2 == 1) == bits[0];
      assert [bits[0]] + (bits[1..] + Zeros(width - |bits|)) == bits + Zeros(width - |bits|);
    }
  }

  lemma {:induction false} BitsOfZero(width: nat)
    ensures Bits(0, width) == Zeros(width)
  {
    if width > 0 {
      BitsOfZero(width - 1);
      assert [false] + Zeros(width - 1) == Zeros(width);
    }
  }

  /** The index (crc ^ b) & 0xff. */
  function Index(c: Word, b: byte): (i: nat)
    ensures i < 256 && Bits(i, 32) == Low(Xor(c, Low(Bits(b, 8)))[..8])
  {
    var low := Xor(c, Low(Bits(b, 8)))[..8];
    ValueOfBits(low, 32);
    assert Pow2(8) == 2 * (2 * (2 * (2 * Pow2(4))));
    Value(low)
  }

  /** One turn of the loop: the low byte through the table, the rest moved down. */
  lemma {:induction false} TableStep(c: Word, b: byte)
    ensures Feed(c, Bits(b, 8)) == Xor(Entry(Index(c, b)), Down(c, 8))
  {
    hide Shifts, Feed, Bits;
    var x := Xor(c, Low(Bits(b, 8)));
    var low: Word, high: Word := Low(x[..8]), Zeros(8) + x[8..];
    FeedIsShifts(c, Bits(b, 8));
    Same(x, Xor(low, high));
    ShiftsLinear(low, high, 8);
    HighBitsMove(high, 8);
    Same(Down(high, 8), Down(c, 8));
  }

  /** `crc32_file` over the bytes of the file: exactly the bit-at-a-time checksum,
      for every length. */
  method Crc32File(file: seq<byte>) returns (crc: Word)
    ensures crc == Checksum(Message(file))
  {
    hide Feed, Shifts, Xor, Down, Bits;
    var tab := new Word[256];
    FillTable(tab);
    crc := ONES;
    var i := 0;
    FeedNothing(ONES);
    while i < |file|
      invariant i <= |file|
      invariant forall j :: 0 <= j < 256 ==> tab[j] == Entry(j)
      invariant crc == Feed(ONES, Message(file[..i]))
    {
      TableStep(crc, file[i]);
      MessageSnoc(file[..i], file[i]);
      FeedConcat(ONES, Message(file[..i]), Bits(file[i], 8));
      assert file[..i + 1] == file[..i] + [file[i]];
      crc := Xor(tab[Index(crc, file[i])], Down(crc, 8));
      i := i + 1;
    }
    assert file[..i] == file;
    crc := Xor(crc, ONES);
  }

  lemma {:induction false} FeedNothing(c: Word)
    ensures Feed(c, Message([])) == c
  {}

  lemma {:induction false} MessageSnoc(file: seq<byte>, b: byte)
    ensures Message(file + [b]) == Message(file) + Bits(b, 8)
  {
    if file == [] {
      assert [b][1..] == [];
    } else {
      assert (file + [b])[1..] == file[1..] + [b];
      MessageSnoc(file[1..], b);
    }
  }

  /** The table-building loops. */
  method FillTable(tab: array<Word>)
    requires tab.Length == 256
    modifies tab
    ensures forall i :: 0 <= i < 256 ==> tab[i] == Entry(i)
  {
    hide Shifts, Bits;
    for i := 0 to 256
      invariant forall j :: 0 <= j < i ==> tab[j] == Entry(j)
    {
      tab[i] := EightShifts(Bits(i, 32));
    }
  }

  method EightShifts(start: Word) returns (c: Word)
    ensures c == Shifts(start, 8)
  {
    c := start;
    for k := 0 to 8
      invariant Shifts(c, 8 - k) == Shifts(start, 8)
    {
      c := Shift(c);
    }
  }

  // ---------------------------------------------------------------- which checksum it is

  /** The exponents of the generator polynomial of RFC 1952, below x^32. */
  const EXPONENTS: seq<nat> := [26, 23, 22, 16, 12, 11, 10, 8, 7, 5, 4, 2, 1, 0]

  /** The four lowest bits, and the rest. */
  lemma {:induction false} Nibble(v: nat, width: nat)
    requires width >= 4
    ensures Bits(v, width) == Low4(v) + Bits(v / 16, width - 4)
  {
    assert Bits(v, width) == [v % 2 == 1] + Bits(v / 2, width - 1);
    assert Bits(v / 2, width - 1) == [v / 2 % 2 == 1] + Bits(v / 4, width - 2);
    assert Bits(v / 4, width - 2) == [v / 4 % 2 == 1] + Bits(v / 8, width - 3);
    assert Bits(v / 8, width - 3) == [v / 8 % 2 == 1] + Bits(v / 16, width - 4);
  }

  function Low4(v: nat): seq<bool> { [v % 2 == 1, v / 2 % 2 == 1, v / 4 % 2 == 1, v / 8 % 2 == 1] }

  lemma {:induction false} NoBits(v: nat)
    ensures Bits(v, 0) == []
  {}

  lemma {:induction false} PolynomialHigh()
    ensures Bits(0xedb8, 16) == [false, false, false, true] + [true, true, false, true] + [true, false, true, true] + [false, true, true, true]
  {
    hide Bits;
    Nibble(0xedb8, 16);
    Nibble(0xedb, 12);
    Nibble(0xed, 8);
    Nibble(0xe, 4);
    NoBits(0);
  }

  lemma {:induction false} PolynomialLow()
    ensures Bits(0xedb88320, 32) == [false, false, false, false] + [false, true, false, false] + [true, true, false, false] + [false, false, false, true] + Bits(0xedb8, 16)
  {
    hide Bits;
    Nibble(0xedb88320, 32);
    Nibble(0xedb8832, 28);
    Nibble(0xedb883, 24);
    Nibble(0xedb88, 20);
  }

  lemma {:induction false} PolynomialBits()
    ensures POLYNOMIAL == [false, false, false, false] + [false, true, false, false] + [true, true, false, false] + [false, false, false, true] + [false, false, false, true] + [true, true, false, true] + [true, false, true, true] + [false, true, true, true]
  {
    hide Bits;
    PolynomialLow();
    PolynomialHigh();
  }

  lemma {:induction false} OnesHigh()
    ensures Bits(0xffff, 16) == [true, true, true, true] + [true, true, true, true] + [true, true, true, true] + [true, true, true, true]
  {
    hide Bits;
    Nibble(0xffff, 16);
    Nibble(0xfff, 12);
    Nibble(0xff, 8);
    Nibble(0xf, 4);
    NoBits(0);
  }

  lemma {:induction false} OnesLow()
    ensures Bits(0xffffffff, 32) == [true, true, true, true] + [true, true, true, true] + [true, true, true, true] + [true, true, true, true] + Bits(0xffff, 16)
  {
    hide Bits;
    Nibble(0xffffffff, 32);
    Nibble(0xfffffff, 28);
    Nibble(0xffffff, 24);
    Nibble(0xfffff, 20);
  }

  lemma {:induction false} OnesBits()
    ensures ONES == [true, true, true, true] + [true, true, true, true] + [true, true, true, true] + [true, true, true, true] + [true, true, true, true] + [true, true, true, true] + [true, true, true, true] + [true, true, true, true]
  {
    hide Bits;
    OnesLow();
    OnesHigh();
  }

  /** The constant is that polynomial, reflected: bit i is the coefficient of
      x^(31 - i); and the register starts and ends inverted in every bit. */
  lemma {:induction false} PolynomialIsTheStandard()
    ensures forall i :: 0 <= i < 32 ==> (POLYNOMIAL[i] <==> 31 - i in EXPONENTS)
    ensures forall i :: 0 <= i < 32 ==> ONES[i]
  {
    hide POLYNOMIAL, ONES;
    PolynomialBits();
    OnesBits();
  }

  lemma {:induction false} ShiftsSnoc(c: Word, n: nat)
    ensures Shifts(c, n + 1) == Shift(Shifts(c, n))
    decreases n
  {
    if n > 0 { ShiftsSnoc(Shift(c), n - 1); }
  }

  lemma {:induction false} NoMessage()
    ensures Message([]) == []
  {}

  lemma {:induction false} ByteOf(v: byte)
    requires v == 0xff || v == 0x7f
    ensures Bits(v, 8) == [true, true, true, true, true, true, true, v == 0xff]
  {
    hide Bits;
    Nibble(v, 8);
    Nibble(v / 16, 4);
    NoBits(v / 16 / 16);
  }

  /** A four-byte message whose bits are all set, the last one perhaps not. */
  lemma {:induction false} FourBytes(last: byte)
    requires last == 0xff || last == 0x7f
    ensures var bits := Message([0xff, 0xff, 0xff, last]);
            |bits| == 32 && (forall i :: 0 <= i < 31 ==> bits[i]) && (bits[31] <==> last == 0xff)
  {
    hide Bits, Message;
    ByteOf(last);
    ByteOf(0xff);
    MessageSnoc([0xff, 0xff, 0xff], last);
    MessageSnoc([0xff, 0xff], 0xff);
    MessageSnoc([0xff], 0xff);
    MessageSnoc([], 0xff);
    NoMessage();
    assert [0xff, 0xff, 0xff] + [last] == [0xff, 0xff, 0xff, last] && [0xff, 0xff] + [0xff] == [0xff, 0xff, 0xff];
    assert [0xff] + [0xff] == [0xff, 0xff] && [] + [0xff] == [0xff];
  }

  /** Known answers: four bytes FF have the checksum FFFFFFFF, and FF FF FF 7F the
      complement of the polynomial, 12477CDF. */
  lemma {:induction false} KnownAnswers()
    ensures forall i :: 0 <= i < 32 ==> Checksum(Message([0xff, 0xff, 0xff, 0xff]))[i]
    ensures forall i :: 0 <= i < 32 ==>
              (Checksum(Message([0xff, 0xff, 0xff, 0x7f]))[i] <==> 31 - i !in EXPONENTS)
  {
    hide Feed, Shifts, Shift, Bits, Message;
    PolynomialIsTheStandard();
    FourBytes(0xff);
    FourBytes(0x7f);
    var all, most := Message([0xff, 0xff, 0xff, 0xff]), Message([0xff, 0xff, 0xff, 0x7f]);
    FeedIsShifts(ONES, all);
    FeedIsShifts(ONES, most);
    var none, top := Xor(ONES, Low(all)), Xor(ONES, Low(most));
    HighBitsMove(none, 32);
    HighBitsMove(top, 31);
    ShiftsSnoc(top, 31);
    LastShift(Down(top, 31));
  }

  lemma {:induction false} LastShift(c: Word)
    requires c[0] && forall i :: 0 < i < 32 ==> !c[i]
    ensures Shift(c) == POLYNOMIAL
  {
    Same(Shift(c), POLYNOMIAL);
  }

  // ---------------------------------------------------------------- what the check detects

  predicate NonZero(w: Word) { exists i :: 0 <= i < 32 && w[i] }

  lemma {:induction false} DifferMeansNonZero(a: Word, b: Word)
    ensures a != b <==> NonZero(Xor(a, b))
  {
    if forall i :: 0 <= i < 32 ==> a[i] == b[i] { Same(a, b); }
  }

  /** The register never forgets a difference: a step maps only zero to zero. */
  lemma {:induction false} ShiftKeepsDifference(d: Word)
    requires NonZero(d)
    ensures NonZero(Shift(d))
  {
    PolynomialIsTheStandard();
    assert 31 - 31 in EXPONENTS;
    if d[0] {
      assert Shift(d)[31];
    } else {
      var i :| 0 <= i < 32 && d[i];
      assert Shift(d)[i - 1];
    }
  }

  lemma {:induction false} ShiftInjective(a: Word, b: Word)
    requires a != b
    ensures Shift(a) != Shift(b)
  {
    hide Shift, Xor, NonZero;
    DifferMeansNonZero(a, b);
    ShiftKeepsDifference(Xor(a, b));
    ShiftLinear(a, b);
    DifferMeansNonZero(Shift(a), Shift(b));
  }

  lemma {:induction false} ShiftsInjective(a: Word, b: Word, n: nat)
    requires a != b
    ensures Shifts(a, n) != Shifts(b, n)
    decreases n
  {
    if n > 0 {
      ShiftInjective(a, b);
      ShiftsInjective(Shift(a), Shift(b), n - 1);
    }
  }

  lemma {:induction false} XorInjective(a: Word, b: Word, k: Word)
    requires a != b
    ensures Xor(a, k) != Xor(b, k) && Xor(k, a) != Xor(k, b)
  {
    hide NonZero;
    DifferMeansNonZero(a, b);
    DifferMeansNonZero(Xor(a, k), Xor(b, k));
    DifferMeansNonZero(Xor(k, a), Xor(k, b));
    Same(Xor(Xor(a, k), Xor(b, k)), Xor(a, b));
    Same(Xor(Xor(k, a), Xor(k, b)), Xor(a, b));
  }

  lemma {:induction false} FeedInjective(a: Word, b: Word, bits: seq<bool>)
    requires a != b
    ensures Feed(a, bits) != Feed(b, bits)
    decreases |bits|
  {
    hide Shift, Xor, Low;
    if bits != [] {
      var low := Low([bits[0]]);
      XorInjective(a, b, low);
      ShiftInjective(Xor(a, low), Xor(b, low));
      FeedInjective(Shift(Xor(a, low)), Shift(Xor(b, low)), bits[1..]);
    }
  }

  /** Any corruption confined to 32 consecutive bits, anywhere in a message of any
      length, changes the checksum. */
  lemma {:induction false} BurstIsDetected(before: seq<bool>, x: seq<bool>, y: seq<bool>, after: seq<bool>)
    requires |x| == |y| <= 32 && x != y
    ensures Checksum(before + x + after) != Checksum(before + y + after)
  {
    hide Feed, Shifts, Xor, Low;
    var c := Feed(ONES, before);
    FeedConcat(ONES, before + x, after);
    FeedConcat(ONES, before, x);
    FeedConcat(ONES, before + y, after);
    FeedConcat(ONES, before, y);
    FeedIsShifts(c, x);
    FeedIsShifts(c, y);
    LowInjective(x, y);
    XorInjective(Low(x), Low(y), c);
    ShiftsInjective(Xor(c, Low(x)), Xor(c, Low(y)), |x|);
    FeedInjective(Feed(c, x), Feed(c, y), after);
    XorInjective(Feed(Feed(c, x), after), Feed(Feed(c, y), after), ONES);
  }

  lemma {:induction false} LowInjective(x: seq<bool>, y: seq<bool>)
    requires |x| == |y| <= 32 && x != y
    ensures Low(x) != Low(y)
  {
    assert Low(x)[..|x|] == x && Low(y)[..|y|] == y;
  }
}
