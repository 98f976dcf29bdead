/** The printer and the reader of the control channel undo each other: an escaped
    string, read through a buffer of any size, comes back as itself exactly when it
    needs no \u escape and no replacement character, and fits. */
module ControlRoundTrip {
  import opened Common
  import opened Escape
  import opened ControlReader

  function Quoted(body: seq<byte>): seq<byte> { [QUOTE] + body + [QUOTE] }

  // ---------------------------------------------------------------- positions in a text

  lemma {:induction false} HoldsOne(text: seq<byte>, p: nat, b: byte)
    ensures Holds(text, p, [b]) <==> p < |text| && text[p] == b
  {}

  // ---------------------------------------------------------------- quoted tokens

  /** A body that no scan for the closing quote leaves early. */
  predicate Safe(b: seq<byte>) {
    || b == []
    || (b[0] == BACKSLASH && |b| >= 2 && Safe(b[2..]))
    || (b[0] != BACKSLASH && b[0] != QUOTE && Safe(b[1..]))
  }

  function ReadBody(b: seq<byte>): seq<byte> {
    if b == [] then []
    else if b[0] == BACKSLASH && |b| >= 2 then [Unescape(b[1])] + ReadBody(b[2..])
    else [b[0]] + ReadBody(b[1..])
  }

  /** Scanning and reading a quoted body depends on the body alone. */
  lemma {:induction false} TokenInContext(text: seq<byte>, p: nat, b: seq<byte>)
    requires Safe(b) && Holds(text, p, b) && At(text, p + |b|) == QUOTE
    ensures TokenEnd(text, p) == p + |b| && Unquoted(text, p) == ReadBody(b)
    decreases |b|
  {
    if b != [] {
      var n := if b[0] == BACKSLASH then 2 else 1;
      assert b == b[..n] + b[n..];
      HoldsSplit(text, p, b[..n], b[n..]);
      TokenInContext(text, p + n, b[n..]);
      assert text[p] == text[p..p + |b|][0];
      if n == 2 { assert text[p + 1] == text[p..p + |b|][1]; }
    }
  }

  lemma {:induction false} SafeByte(c: byte, rest: seq<byte>)
    requires Safe(rest) && c != BACKSLASH && c != QUOTE
    ensures Safe([c] + rest) && ReadBody([c] + rest) == [c] + ReadBody(rest)
  {
    assert ([c] + rest)[1..] == rest;
  }

  lemma {:induction false} SafePlain(a: seq<byte>, rest: seq<byte>)
    requires Safe(rest)
    requires forall k :: 0 <= k < |a| ==> a[k] != BACKSLASH && a[k] != QUOTE
    ensures Safe(a + rest) && ReadBody(a + rest) == a + ReadBody(rest)
  {
    hide Safe, ReadBody;
    if a == [] {
      assert a + rest == rest && a + ReadBody(rest) == ReadBody(rest);
    } else {
      SafePlain(a[1..], rest);
      SafeByte(a[0], a[1..] + rest);
      assert [a[0]] + (a[1..] + rest) == a + rest;
      assert [a[0]] + (a[1..] + ReadBody(rest)) == a + ReadBody(rest);
    }
  }

  lemma {:induction false} SafeEscape(e: byte, rest: seq<byte>)
    requires Safe(rest)
    ensures Safe([BACKSLASH, e] + rest)
    ensures ReadBody([BACKSLASH, e] + rest) == [Unescape(e)] + ReadBody(rest)
  {
    assert ([BACKSLASH, e] + rest)[2..] == rest;
  }

  lemma {:induction false} JsonCharIsSafe(c: seq<byte>, rest: seq<byte>)
    requires JsonChar(c) && Safe(rest)
    ensures Safe(c + rest)
  {
    if c[0] == BACKSLASH {
      SafePlain(c[2..], rest);
      SafeEscape(c[1], c[2..] + rest);
      assert [BACKSLASH, c[1]] + (c[2..] + rest) == c + rest;
    } else {
      SafePlain(c, rest);
    }
  }

  /** Every legal JSON body is safe to scan. */
  lemma {:induction false} JsonBodyIsSafe(s: seq<byte>)
    requires JsonBody(s)
    ensures Safe(s)
  {
    hide JsonChar;
    if s != [] {
      var n :| 1 <= n <= 6 && n <= |s| && JsonChar(s[..n]) && JsonBody(s[n..]);
      JsonBodyIsSafe(s[n..]);
      JsonCharIsSafe(s[..n], s[n..]);
      assert s[..n] + s[n..] == s;
    }
  }

  // ---------------------------------------------------------------- strings read back

  function ReadUnit(src: seq<byte>): seq<byte>
    requires src != []
  {
    if src[0] < 0x20 then UnitOut(src)[1..] else SanitizedUnit(src)
  }

  lemma {:induction false} ReadsUnit(src: seq<byte>, rest: seq<byte>)
    requires src != [] && Safe(rest)
    ensures ReadBody(UnitOut(src) + rest) == ReadUnit(src) + ReadBody(rest)
    ensures Safe(UnitOut(src) + rest)
  {
    hide Safe, ReadBody;
    var c, out := src[0], UnitOut(src);
    if c == QUOTE || c == BACKSLASH {
      SafeEscape(c, rest);
    } else if c < 0x20 {
      SafePlain(out[2..], rest);
      SafeEscape(out[1], out[2..] + rest);
      assert [BACKSLASH, out[1]] + (out[2..] + rest) == out + rest;
      assert [out[1]] + (out[2..] + ReadBody(rest)) == out[1..] + ReadBody(rest);
    } else {
      SafePlain(out, rest);
    }
  }

  /** Bytes that the reader gets back: well-formed UTF-8 without control characters. */
  predicate Clean(src: seq<byte>) {
    Utf8(src) && forall k :: 0 <= k < |src| ==> src[k] >= 0x20
  }

  /** What the reader makes of the whole escaped text. */
  function Echo(src: seq<byte>): seq<byte> {
    if src == [] then [] else ReadUnit(src) + Echo(src[UnitLen(src)..])
  }

  lemma {:induction false} ReadsEscaped(src: seq<byte>, room: int)
    requires room >= 6 * |src| + 2
    ensures Safe(Escaped(src, room)) && ReadBody(Escaped(src, room)) == Echo(src)
  {
    hide UnitOut, UnitLen, ReadUnit;
    if src != [] {
      var n, out := UnitLen(src), UnitOut(src);
      ReadsEscaped(src[n..], room - |out|);
      ReadsUnit(src, Escaped(src[n..], room - |out|));
    }
  }

  lemma {:induction false} Utf8Peel(src: seq<byte>)
    requires src != []
    ensures Utf8(src) <==> Utf8Len(src) > 0 && Utf8(src[Utf8Len(src)..])
  {
    if Utf8(src) {
      var n :| 1 <= n <= 4 && n <= |src| && Utf8Char(src[..n]) && Utf8(src[n..]);
      Utf8LenIsTheGrammar(src, n);
    }
    if Utf8Len(src) > 0 {
      var n := Utf8Len(src);
      Utf8LenIsTheGrammar(src, n);
      if Utf8(src[n..]) { Utf8Prepend(src[..n], src[n..]); }
      assert src[..n] + src[n..] == src;
    }
  }

  /** One unit comes back as itself exactly when it is a character that is not a
      control character; otherwise already its first bytes differ. */
  lemma {:induction false} UnitEchoes(src: seq<byte>, rest: seq<byte>)
    requires src != []
    ensures src[0] >= 0x20 && Utf8Len(src) > 0 ==> ReadUnit(src) == src[..Utf8Len(src)] && UnitLen(src) == Utf8Len(src)
    ensures src[0] < 0x20 || Utf8Len(src) == 0 ==> ReadUnit(src) + rest != src
  {
    if src[0] < 0x20 {
      assert (ReadUnit(src) + rest)[0] == 0x75;
    } else if Utf8Len(src) == 0 {
      assert (ReadUnit(src) + rest)[..3] == REPLACEMENT;
      ReplacementIsUtf8(src);
    }
  }

  lemma {:induction false} ReplacementIsUtf8(src: seq<byte>)
    ensures |src| >= 3 && src[..3] == REPLACEMENT ==> Utf8Len(src) == 3
  {
    if |src| >= 3 { assert src[0] == src[..3][0] && src[1] == src[..3][1] && src[2] == src[..3][2]; }
  }

  lemma {:induction false} HighTails(src: seq<byte>, k: nat)
    requires src != [] && src[0] >= 0x20 && k < Utf8Len(src)
    ensures src[k] >= 0x20
  {}

  lemma {:induction false} CleanPeel(src: seq<byte>)
    requires src != []
    ensures Clean(src) <==> src[0] >= 0x20 && Utf8Len(src) > 0 && Clean(src[Utf8Len(src)..])
  {
    Utf8Peel(src);
    var n := Utf8Len(src);
    if src[0] >= 0x20 && n > 0 {
      forall k | 0 <= k < n ensures src[k] >= 0x20 { HighTails(src, k); }
      assert forall k :: n <= k < |src| ==> src[k] == src[n..][k - n];
    }
  }

  lemma {:induction false} EmptyIsClean()
    ensures Clean([])
  {}

  lemma {:induction false} SamePrefix(a: seq<byte>, x: seq<byte>, y: seq<byte>)
    ensures a + x == a + y <==> x == y
  {
    assert (a + x)[|a|..] == x && (a + y)[|a|..] == y;
  }

  lemma {:induction false} EchoIffClean(src: seq<byte>)
    ensures Echo(src) == src <==> Clean(src)
  {
    hide UnitLen, Utf8Len, ReadUnit, Clean;
    if src == [] {
      EmptyIsClean();
    } else {
      var n := UnitLen(src);
      EchoIffClean(src[n..]);
      UnitEchoes(src, Echo(src[n..]));
      CleanPeel(src);
      assert src == src[..n] + src[n..];
      SamePrefix(src[..n], Echo(src[n..]), src[n..]);
    }
  }

  // ---------------------------------------------------------------- the reader's buffer

  /** The first byte or two of a replacement character. */
  predicate ReplacementStart(tail: seq<byte>) { tail == [0xEF] || tail == [0xEF, 0xBF] }

  predicate CutAt(src: seq<byte>, k: nat) {
    k <= |src| && Clean(src[..k]) && ReplacementStart(src[k..])
  }

  /** Clean but for its end, which is what a clipped replacement character leaves:
      bytes that are no character, replaced by one that begins with them. */
  predicate CutReplacement(src: seq<byte>) { exists k :: 0 <= k <= |src| && CutAt(src, k) }

  /** A string that comes back through a buffer of `cap` bytes. */
  predicate Survives(src: seq<byte>, cap: nat) {
    |src| < cap && (Clean(src) || (|src| == cap - 1 && CutReplacement(src)))
  }

  lemma {:induction false} LenOfPrefix(src: seq<byte>, k: nat)
    requires k <= |src|
    ensures Utf8Len(src[..k]) > 0 ==> Utf8Len(src) == Utf8Len(src[..k])
    ensures 0 < Utf8Len(src) <= k ==> Utf8Len(src[..k]) == Utf8Len(src)
  {
    assert k <= 4 ==> forall i :: 0 <= i < k ==> src[..k][i] == src[i];
  }

  /** A start of a replacement character never lies within another character. */
  lemma {:induction false} TailsAreTails(src: seq<byte>, k: nat)
    requires k < |src| && 0 < Utf8Len(src) && ReplacementStart(src[k..])
    ensures Utf8Len(src) <= k
  {
    assert src[k] == src[k..][0] && src[0..] == src;
  }

  lemma {:induction false} CutPeel(src: seq<byte>, k: nat)
    requires src != [] && src[0] >= 0x20 && Utf8Len(src) > 0
    ensures var n := Utf8Len(src); CutAt(src, k) <==> n <= k && CutAt(src[n..], k - n)
  {
    hide Utf8Len, Clean, Utf8;
    var n := Utf8Len(src);
    if k <= |src| && ReplacementStart(src[k..]) {
      TailsAreTails(src, k);
      LenOfPrefix(src, k);
      CleanPeel(src[..k]);
      assert src[..k][n..] == src[n..][..k - n] && src[k..] == src[n..][k - n..];
    }
    if n <= k <= |src| { assert src[k..] == src[n..][k - n..]; }
  }

  lemma {:induction false} CutReplacementPeel(src: seq<byte>)
    requires src != [] && src[0] >= 0x20 && Utf8Len(src) > 0
    ensures CutReplacement(src) <==> CutReplacement(src[Utf8Len(src)..])
  {
    hide CutAt, Utf8Len;
    var n := Utf8Len(src);
    if CutReplacement(src) {
      var k :| 0 <= k <= |src| && CutAt(src, k);
      CutPeel(src, k);
      assert CutAt(src[n..], k - n);
    }
    if CutReplacement(src[n..]) {
      var k :| 0 <= k <= |src[n..]| && CutAt(src[n..], k);
      CutPeel(src, k + n);
      assert CutAt(src, k + n);
    }
  }

  lemma {:induction false} CutReplacementHere(src: seq<byte>)
    requires src != [] && (src[0] < 0x20 || Utf8Len(src) == 0)
    ensures CutReplacement(src) <==> ReplacementStart(src)
  {
    hide Utf8Len, Clean;
    if CutReplacement(src) {
      var k :| 0 <= k <= |src| && CutAt(src, k);
      assert src[0..] == src;
      if k > 0 {
        assert src[..k][0] == src[0];
        LenOfPrefix(src, k);
        CleanPeel(src[..k]);
      }
    }
    if ReplacementStart(src) {
      EmptyIsClean();
      assert src[..0] == [] && src[0..] == src;
      assert CutAt(src, 0);
    }
  }

  lemma {:induction false} FirstThree(src: seq<byte>, all: seq<byte>)
    ensures src <= all && |src| >= 3 ==> src[..3] == all[..3]
  {}

  /** Where the first unit does not come back, the source is a prefix of what does
      only if it is the start of a replacement character. */
  lemma {:induction false} SpoiledPrefix(src: seq<byte>, rest: seq<byte>)
    requires src != [] && (src[0] < 0x20 || Utf8Len(src) == 0)
    ensures src <= ReadUnit(src) + rest <==> ReplacementStart(src)
  {
    hide Utf8Len;
    var all := ReadUnit(src) + rest;
    if src[0] < 0x20 {
      assert all[0] == 0x75;
    } else {
      assert all[..3] == REPLACEMENT && all[0] == 0xEF && all[1] == 0xBF && all[2] == 0xBD;
      FirstThree(src, all);
      assert src <= all && |src| <= 2 ==> src == all[..|src|];
      ReplacementIsUtf8(src);
    }
  }

  lemma {:induction false} PrefixCancel(a: seq<byte>, x: seq<byte>, y: seq<byte>)
    ensures a + x <= a + y <==> x <= y
  {
    if a + x <= a + y { assert (a + x)[|a|..] == x && (a + y)[|a|..] == y; assert (a + y)[..|a + x|][|a|..] == y[..|x|]; }
    if x <= y { assert a + y == (a + x) + y[|x|..]; }
  }

  /** What the reader decodes is never shorter than the source, and begins with it
      exactly when the source is clean or ends in a cut replacement character. */
  lemma {:induction false} EchoBeginsIff(src: seq<byte>)
    ensures |Echo(src)| >= |src|
    ensures src <= Echo(src) <==> Clean(src) || CutReplacement(src)
  {
    hide UnitLen, Utf8Len, ReadUnit, Clean, CutReplacement;
    if src == [] {
      EmptyIsClean();
    } else {
      var n := UnitLen(src);
      EchoBeginsIff(src[n..]);
      UnitGrows(src);
      CleanPeel(src);
      assert src == src[..n] + src[n..];
      if src[0] >= 0x20 && Utf8Len(src) > 0 {
        UnitEchoes(src, Echo(src[n..]));
        CutReplacementPeel(src);
        PrefixCancel(src[..n], src[n..], Echo(src[n..]));
      } else {
        SpoiledPrefix(src, Echo(src[n..]));
        CutReplacementHere(src);
      }
    }
  }

  lemma {:induction false} UnitGrows(src: seq<byte>)
    requires src != []
    ensures |ReadUnit(src)| >= UnitLen(src)
  {}

  /** What comes out of a buffer of `cap` bytes is the source exactly when the source
      survives. */
  lemma {:induction false} ClippedEchoIff(src: seq<byte>, cap: nat)
    requires cap > 0
    ensures Clipped(Echo(src), cap) == src <==> Survives(src, cap)
  {
    hide Clean, CutReplacement, Echo;
    var e := Echo(src);
    EchoBeginsIff(src);
    EchoIffClean(src);
    if |src| == |e| && src <= e { assert e[..|src|] == e; }
    if |e| >= cap && |src| == cap - 1 { assert src <= e <==> e[..cap - 1] == src; }
  }

  /** Escaping a string, quoting it anywhere in a text and reading it with `sj_str`
      into a buffer of any size returns the original exactly when it fits and is
      well-formed UTF-8 without control characters, or fills the buffer and ends in
      a cut replacement character. */
  lemma {:induction false} StringRoundTrip(src: seq<byte>, room: int, text: seq<byte>, p: nat, cap: nat)
    requires room >= 6 * |src| + 2 && cap > 0
    requires Holds(text, p, Quoted(Escaped(src, room)))
    ensures TokenEnd(text, p + 1) == p + 1 + |Escaped(src, room)|
    ensures Unquoted(text, p + 1) == Echo(src)
    ensures Clipped(Unquoted(text, p + 1), cap) == src <==> Survives(src, cap)
  {
    hide Holds, Survives, Echo;
    ReadsEscaped(src, room);
    ClippedEchoIff(src, cap);
    QuotedToken(text, p, Escaped(src, room));
  }

  /** The odd case exists: a lone 0xEF byte is not UTF-8, yet its replacement,
      clipped to a buffer of two bytes, looks like it. */
  lemma {:induction false} ClippedReplacement()
    ensures !Clean([0xEF]) && Survives([0xEF], 2)
    ensures Clipped(ReadBody(Escaped([0xEF], 8)), 2) == [0xEF]
  {
    Utf8Peel([0xEF]);
    CutReplacementHere([0xEF]);
    ReadsEscaped([0xEF], 8);
    ClippedEchoIff([0xEF], 2);
  }

  /** How the scanner sees a quoted body. */
  lemma {:induction false} QuotedToken(text: seq<byte>, p: nat, body: seq<byte>)
    requires Safe(body) && Holds(text, p, Quoted(body))
    ensures p + |body| + 2 <= |text| && text[p] == QUOTE
    ensures TokenEnd(text, p + 1) == p + 1 + |body| && text[p + 1..p + 1 + |body|] == body
    ensures AfterToken(text, p + 1) == p + |body| + 2
    ensures Unquoted(text, p + 1) == ReadBody(body)
  {
    HoldsSplit(text, p, [QUOTE] + body, [QUOTE]);
    HoldsSplit(text, p, [QUOTE], body);
    HoldsOne(text, p, QUOTE);
    HoldsOne(text, p + 1 + |body|, QUOTE);
    TokenInContext(text, p + 1, body);
  }

  // ---------------------------------------------------------------- which escapes are read

  /** A body without the escapes `sj_str` does not know: \b, \f and \u. */
  predicate KnownEscapes(b: seq<byte>) {
    || b == []
    || (b[0] == BACKSLASH && |b| >= 2 && b[1] !in [0x62, 0x66, 0x75] && KnownEscapes(b[2..]))
    || (b[0] != BACKSLASH && KnownEscapes(b[1..]))
  }

  lemma {:induction false} ReadsNoLess(b: seq<byte>)
    requires Decode(b).Some?
    ensures |ReadBody(b)| >= |Decode(b).value|
  {
    if b != [] {
      if b[0] != BACKSLASH {
        ReadsNoLess(b[1..]);
      } else if ShortEscape(b[1]) {
        ReadsNoLess(b[2..]);
      } else {
        ReadsNoLess(b[6..]);
        ReadsUnicode(b);
      }
    }
  }

  /** The reader drops the backslash of a \u escape and keeps its five characters. */
  lemma {:induction false} ReadsUnicode(b: seq<byte>)
    requires |b| >= 6 && b[0] == BACKSLASH && forall k :: 1 <= k < 6 ==> b[k] != BACKSLASH
    ensures |ReadBody(b)| == 5 + |ReadBody(b[6..])|
  {
    assert b[2..][1..] == b[3..] && b[3..][1..] == b[4..] && b[4..][1..] == b[5..] && b[5..][1..] == b[6..];
    assert ReadBody(b[5..]) == [b[5]] + ReadBody(b[6..]);
    assert ReadBody(b[4..]) == [b[4]] + ReadBody(b[5..]);
    assert ReadBody(b[3..]) == [b[3]] + ReadBody(b[4..]);
    assert ReadBody(b[2..]) == [b[2]] + ReadBody(b[3..]);
  }

  /** `sj_str` reads a string as JSON means it exactly when it contains none of the
      escapes \b, \f and \u: all others, \n, \r and \t included, are read as section
      7 of RFC 8259 has them. */
  lemma {:induction false} ReadsAsJsonIff(b: seq<byte>)
    requires Decode(b).Some?
    ensures ReadBody(b) == Decode(b).value <==> KnownEscapes(b)
  {
    if b != [] {
      if b[0] != BACKSLASH {
        ReadsAsJsonIff(b[1..]);
        SamePrefix([b[0]], ReadBody(b[1..]), Decode(b[1..]).value);
      } else if ShortEscape(b[1]) {
        ReadsAsJsonIff(b[2..]);
        SamePrefix([ShortValue(b[1])], ReadBody(b[2..]), Decode(b[2..]).value);
        assert ReadBody(b)[0] == Unescape(b[1]) && Decode(b).value[0] == ShortValue(b[1]);
      } else {
        ReadsUnicode(b);
        ReadsNoLess(b[6..]);
      }
    }
  }
}
