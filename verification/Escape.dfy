/** The JSON string escaper of the NDJSON writer, `asmtrace_escape`, measured
    against the grammars it promises to respect: UTF-8 as in section 4 of
    RFC 3629 and string bodies as in section 7 of RFC 8259. */
module Escape {
  import opened Common

  const QUOTE: byte := 0x22
  const BACKSLASH: byte := 0x5C

  /** U+FFFD, the replacement character. */
  const REPLACEMENT: seq<byte> := [0xEF, 0xBF, 0xBD]

  // ---------------------------------------------------------------- UTF-8

  predicate Tail(b: byte) { 0x80 <= b <= 0xBF }

  /** One character, by the ABNF of RFC 3629. */
  predicate Utf8Char(s: seq<byte>) {
    || (|s| == 1 && s[0] <= 0x7F)
    || (|s| == 2 && 0xC2 <= s[0] <= 0xDF && Tail(s[1]))
    || (|s| == 3 && Tail(s[2])
        && (|| (s[0] == 0xE0 && 0xA0 <= s[1] <= 0xBF)
            || (0xE1 <= s[0] <= 0xEC && Tail(s[1]))
            || (s[0] == 0xED && 0x80 <= s[1] <= 0x9F)
            || (0xEE <= s[0] <= 0xEF && Tail(s[1]))))
    || (|s| == 4 && Tail(s[2]) && Tail(s[3])
        && (|| (s[0] == 0xF0 && 0x90 <= s[1] <= 0xBF)
            || (0xF1 <= s[0] <= 0xF3 && Tail(s[1]))
            || (s[0] == 0xF4 && 0x80 <= s[1] <= 0x8F)))
  }

  /** A string of characters. */
  predicate Utf8(s: seq<byte>) {
    s == [] || exists n :: 1 <= n <= 4 && n <= |s| && Utf8Char(s[..n]) && Utf8(s[n..])
  }

  /** (b & 0xC0) == 0x80 */
  predicate Continues(b: byte) { b / 64 == 2 }

  /** `asmtrace_utf8_len`. */
  function Utf8Len(s: seq<byte>): (n: nat)
    ensures n <= 4 && n <= |s|
  {
    if |s| == 0 then 0
    else if s[0] < 0x80 then 1
    else if s[0] < 0xC2 then 0
    else if s[0] < 0xE0 then (if |s| < 2 || !Continues(s[1]) then 0 else 2)
    else if s[0] < 0xF0 then
      if |s| < 3 || !Continues(s[1]) || !Continues(s[2]) then 0
      else if s[0] == 0xE0 && s[1] < 0xA0 then 0
      else if s[0] == 0xED && s[1] >= 0xA0 then 0
      else 3
    else if s[0] < 0xF5 then
      if |s| < 4 || !Continues(s[1]) || !Continues(s[2]) || !Continues(s[3]) then 0
      else if s[0] == 0xF0 && s[1] < 0x90 then 0
      else if s[0] == 0xF4 && s[1] >= 0x90 then 0
      else 4
    else 0
  }

  /** The validator accepts exactly the characters of the grammar. */
  lemma {:induction false} Utf8LenIsTheGrammar(s: seq<byte>, n: nat)
    requires 1 <= n <= |s|
    ensures Utf8Char(s[..n]) <==> Utf8Len(s) == n
  {
    assert n <= 4 ==> forall k :: 0 <= k < n ==> s[..n][k] == s[k];
  }

  lemma {:induction false} Utf8Prepend(c: seq<byte>, rest: seq<byte>)
    requires Utf8Char(c) && Utf8(rest)
    ensures Utf8(c + rest)
  {
    assert (c + rest)[..|c|] == c && (c + rest)[|c|..] == rest;
  }

  // ---------------------------------------------------------------- JSON string bodies

  predicate Hex(b: byte) { 0x30 <= b <= 0x39 || 0x61 <= b <= 0x66 || 0x41 <= b <= 0x46 }

  /** The two-character escapes: " \ / b f n r t. */
  predicate ShortEscape(b: byte) { b in [0x22, 0x5C, 0x2F, 0x62, 0x66, 0x6E, 0x72, 0x74] }

  /** One `char` of RFC 8259: an unescaped character or an escape. */
  predicate JsonChar(s: seq<byte>) {
    || (Utf8Char(s) && s[0] >= 0x20 && s[0] != QUOTE && s[0] != BACKSLASH)
    || (|s| == 2 && s[0] == BACKSLASH && ShortEscape(s[1]))
    || (|s| == 6 && s[0] == BACKSLASH && s[1] == 0x75
        && Hex(s[2]) && Hex(s[3]) && Hex(s[4]) && Hex(s[5]))
  }

  predicate JsonBody(s: seq<byte>) {
    s == [] || exists n :: 1 <= n <= 6 && n <= |s| && JsonChar(s[..n]) && JsonBody(s[n..])
  }

  lemma {:induction false} JsonPrepend(c: seq<byte>, rest: seq<byte>)
    requires JsonChar(c) && JsonBody(rest)
    ensures JsonBody(c + rest)
  {
    assert (c + rest)[..|c|] == c && (c + rest)[|c|..] == rest;
  }

  lemma {:induction false} AsciiIsUtf8(s: seq<byte>)
    requires forall k :: 0 <= k < |s| ==> s[k] <= 0x7F
    ensures Utf8(s)
  {
    if s != [] {
      AsciiIsUtf8(s[1..]);
      Utf8Prepend([s[0]], s[1..]);
      assert [s[0]] + s[1..] == s;
    }
  }

  lemma {:induction false} Utf8First(a: seq<byte>) returns (n: nat)
    requires a != [] && Utf8(a)
    ensures 1 <= n <= |a| && Utf8Char(a[..n]) && Utf8(a[n..])
  {
    hide Utf8Char;
    n :| 1 <= n <= 4 && n <= |a| && Utf8Char(a[..n]) && Utf8(a[n..]);
  }

  lemma {:induction false} Utf8Concat(a: seq<byte>, b: seq<byte>)
    requires Utf8(a) && Utf8(b)
    ensures Utf8(a + b)
  {
    hide Utf8Char, Utf8;
    if a == [] {
      assert a + b == b;
    } else {
      var n := Utf8First(a);
      var c, rest := a[..n], a[n..];
      Utf8Concat(rest, b);
      Utf8Prepend(c, rest + b);
      assert c + (rest + b) == a + b;
    }
  }

  lemma {:induction false} JsonCharIsUtf8(c: seq<byte>)
    requires JsonChar(c)
    ensures Utf8(c)
  {
    hide Utf8;
    if Utf8Char(c) {
      AsciiIsUtf8([]);
      Utf8Prepend(c, []);
      assert c + [] == c;
    } else {
      AsciiIsUtf8(c);
    }
  }

  /** A legal body is well-formed UTF-8. */
  lemma {:induction false} JsonBodyIsUtf8(s: seq<byte>)
    requires JsonBody(s)
    ensures Utf8(s)
  {
    hide JsonChar, Utf8;
    if s == [] {
      AsciiIsUtf8(s);
    } else {
      var n :| 1 <= n <= 6 && n <= |s| && JsonChar(s[..n]) && JsonBody(s[n..]);
      JsonBodyIsUtf8(s[n..]);
      JsonCharIsUtf8(s[..n]);
      Utf8Concat(s[..n], s[n..]);
      assert s[..n] + s[n..] == s;
    }
  }

  // ---------------------------------------------------------------- the escaper

  function HexDigit(v: nat): (b: byte)
    requires v < 16
    ensures Hex(b) && HexValue(b) == v
  {
    if v < 10 then 0x30 + v else 0x61 + v - 10
  }

  function HexValue(b: byte): (v: nat)
    requires Hex(b)
    ensures v < 16
  {
    if b <= 0x39 then b - 0x30 else if b >= 0x61 then b - 0x61 + 10 else b - 0x41 + 10
  }

  /** How many bytes one turn of the loop consumes. */
  function UnitLen(src: seq<byte>): (n: nat)
    requires src != []
    ensures 1 <= n <= |src|
  {
    if src[0] < 0x80 || Utf8Len(src) == 0 then 1 else Utf8Len(src)
  }

  /** What one turn of the loop writes. */
  function UnitOut(src: seq<byte>): (out: seq<byte>)
    requires src != []
    ensures 1 <= |out| <= 6
  {
    var c := src[0];
    if c == QUOTE || c == BACKSLASH then [BACKSLASH, c]
    else if c < 0x20 then [BACKSLASH, 0x75, 0x30, 0x30, HexDigit(c / 16), HexDigit(c % 16)]
    else if c < 0x80 then [c]
    else if Utf8Len(src) == 0 then REPLACEMENT
    else src[..Utf8Len(src)]
  }

  /** The text written for `src` into `room` bytes that include the final NUL. */
  function Escaped(src: seq<byte>, room: int): (out: seq<byte>) {
    if src != [] && 7 < room
    then UnitOut(src) + Escaped(src[UnitLen(src)..], room - |UnitOut(src)|)
    else []
  }

  /** One turn of the loop moves one unit from the source to the output. */
  lemma {:induction false} EscapedStep(done: seq<byte>, src: seq<byte>, i: nat, room: int)
    requires i < |src| && 7 < room
    ensures var out := UnitOut(src[i..]);
            var i' := i + UnitLen(src[i..]);
            done + Escaped(src[i..], room) == (done + out) + Escaped(src[i'..], room - |out|)
  {
    assert src[i..][UnitLen(src[i..])..] == src[i + UnitLen(src[i..])..];
  }

  /** `asmtrace_escape`, for a source without NUL (a null source is the empty one). */
  method AsmtraceEscape(dst: array<byte>, src: seq<byte>)
    modifies dst
    ensures var out := Escaped(src, dst.Length);
            dst.Length > 0 ==> && |out| < dst.Length
                               && dst[..|out|] == out
                               && dst[|out|] == 0
                               && forall k :: |out| < k < dst.Length ==> dst[k] == old(dst[k])
  {
    if dst.Length == 0 { return; }
    var o := EscapeLoop(dst, src);
    dst[o] := 0;
  }

  method EscapeLoop(dst: array<byte>, src: seq<byte>) returns (o: nat)
    requires dst.Length > 0
    modifies dst
    ensures o < dst.Length && dst[..o] == Escaped(src, dst.Length)
    ensures forall k :: o <= k < dst.Length ==> dst[k] == old(dst[k])
  {
    hide UnitOut, UnitLen;
    var i: nat := 0;
    o := 0;
    assert src[0..] == src;
    while i < |src| && o + 7 < dst.Length
      invariant i <= |src| && o < dst.Length
      invariant dst[..o] + Escaped(src[i..], dst.Length - o) == Escaped(src, dst.Length)
      invariant forall k :: o <= k < dst.Length ==> dst[k] == old(dst[k])
      decreases |src| - i
    {
      EscapedStep(dst[..o], src, i, dst.Length - o);
      var out := UnitOut(src[i..]);
      i := i + UnitLen(src[i..]);
      Write(dst, o, out);
      o := o + |out|;
    }
  }

  method Write(dst: array<byte>, o: nat, bytes: seq<byte>)
    requires o + |bytes| <= dst.Length
    modifies dst
    ensures dst[..o + |bytes|] == old(dst[..o]) + bytes
    ensures forall k :: o + |bytes| <= k < dst.Length ==> dst[k] == old(dst[k])
  {
    for k := 0 to |bytes|
      invariant dst[..o + k] == old(dst[..o]) + bytes[..k]
      invariant forall j :: o + k <= j < dst.Length ==> dst[j] == old(dst[j])
    {
      dst[o + k] := bytes[k];
    }
  }

  // ---------------------------------------------------------------- what the text is

  /** The output and its NUL fit, whatever the source and the buffer. */
  lemma {:induction false} EscapedFits(src: seq<byte>, room: int)
    requires room > 0
    ensures |Escaped(src, room)| < room
  {
    if src != [] && 7 < room { EscapedFits(src[UnitLen(src)..], room - |UnitOut(src)|); }
  }

  lemma {:induction false} UnitIsJsonChar(src: seq<byte>)
    requires src != []
    ensures if src[0] >= 0x80 && Utf8Len(src) == 0 then JsonChar(REPLACEMENT) else JsonChar(UnitOut(src))
  {
    if src[0] >= 0x80 && Utf8Len(src) != 0 { Utf8LenIsTheGrammar(src, Utf8Len(src)); }
  }

  /** For every byte string and every buffer the output is a legal string body,
      hence also well-formed UTF-8: no escape and no character is cut. */
  lemma {:induction false} EscapedIsJsonBody(src: seq<byte>, room: int)
    ensures JsonBody(Escaped(src, room)) && Utf8(Escaped(src, room))
  {
    if src != [] && 7 < room {
      EscapedIsJsonBody(src[UnitLen(src)..], room - |UnitOut(src)|);
      UnitIsJsonChar(src);
      JsonPrepend(UnitOut(src), Escaped(src[UnitLen(src)..], room - |UnitOut(src)|));
    }
    JsonBodyIsUtf8(Escaped(src, room));
  }

  // ---------------------------------------------------------------- what the text says

  function ShortValue(b: byte): (v: byte)
    requires ShortEscape(b)
  {
    if b == 0x62 then 0x08 else if b == 0x66 then 0x0C else if b == 0x6E then 0x0A
    else if b == 0x72 then 0x0D else if b == 0x74 then 0x09 else b
  }

  /** A JSON reader of string bodies (its \u escapes limited to ASCII). */
  function Decode(s: seq<byte>): Option<seq<byte>> {
    if s == [] then Some([])
    else if s[0] == QUOTE || s[0] < 0x20 then None
    else if s[0] != BACKSLASH then Prepend([s[0]], Decode(s[1..]))
    else if |s| >= 2 && ShortEscape(s[1]) then Prepend([ShortValue(s[1])], Decode(s[2..]))
    else if |s| >= 6 && s[1] == 0x75 && s[2] == s[3] == 0x30 && Hex(s[4]) && Hex(s[5]) && HexValue(s[4]) < 8
    then Prepend([16 * HexValue(s[4]) + HexValue(s[5])], Decode(s[6..]))
    else None
  }

  function Prepend(a: seq<byte>, b: Option<seq<byte>>): Option<seq<byte>> {
    if b.None? then None else Some(a + b.value)
  }

  /** The source with every byte that starts no character replaced by U+FFFD. */
  function Sanitized(src: seq<byte>): seq<byte> {
    if src == [] then []
    else if Utf8Len(src) == 0 then REPLACEMENT + Sanitized(src[1..])
    else src[..Utf8Len(src)] + Sanitized(src[Utf8Len(src)..])
  }

  function SanitizedUnit(src: seq<byte>): seq<byte>
    requires src != []
  {
    if Utf8Len(src) == 0 then REPLACEMENT else src[..Utf8Len(src)]
  }

  lemma {:induction false} DecodeHighBytes(a: seq<byte>, rest: seq<byte>)
    requires forall k :: 0 <= k < |a| ==> a[k] >= 0x80
    ensures Decode(a + rest) == Prepend(a, Decode(rest))
  {
    if a == [] {
      assert a + rest == rest;
      if Decode(rest).Some? { assert a + Decode(rest).value == Decode(rest).value; }
    } else {
      DecodeHighBytes(a[1..], rest);
      assert (a + rest)[1..] == a[1..] + rest;
      assert [a[0]] + a[1..] == a;
      if Decode(rest).Some? { assert [a[0]] + (a[1..] + Decode(rest).value) == a + Decode(rest).value; }
    }
  }

  lemma {:induction false} DecodeUnit(src: seq<byte>, rest: seq<byte>)
    requires src != []
    ensures Decode(UnitOut(src) + rest) == Prepend(SanitizedUnit(src), Decode(rest))
  {
    var c, out := src[0], UnitOut(src);
    if c >= 0x80 {
      DecodeHighBytes(out, rest);
    } else {
      assert SanitizedUnit(src) == [c];
      assert (out + rest)[|out|..] == rest;
    }
  }

  lemma {:induction false} DecodeNothing(src: seq<byte>)
    ensures Decode([]) == Some([]) && [] <= Sanitized(src) && (src == [] ==> Sanitized(src) == [])
  {}

  lemma {:induction false} SanitizedPeel(src: seq<byte>)
    requires src != []
    ensures Sanitized(src) == SanitizedUnit(src) + Sanitized(src[UnitLen(src)..])
  {}

  /** Reading the output back gives a prefix of the sanitized source: all of it, or
      as much as leaves fewer than eight bytes of the buffer free; and all of it
      when the buffer has six bytes for every source byte and two more. */
  lemma {:induction false} EscapedDecodes(src: seq<byte>, room: int)
    ensures var d := Decode(Escaped(src, room));
            && d.Some? && d.value <= Sanitized(src)
            && (d.value == Sanitized(src) || |Escaped(src, room)| + 7 >= room)
            && (room >= 6 * |src| + 2 ==> d.value == Sanitized(src))
  {
    hide UnitOut, UnitLen, Decode, Utf8Len;
    if src == [] || room <= 7 {
      DecodeNothing(src);
    } else {
      var n, out := UnitLen(src), UnitOut(src);
      EscapedDecodes(src[n..], room - |out|);
      DecodeUnit(src, Escaped(src[n..], room - |out|));
      SanitizedPeel(src);
    }
  }
}
