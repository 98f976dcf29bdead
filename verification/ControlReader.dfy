/** The minimal JSON reader of the control channel (`sj_find`, `sj_str`,
    `sj_str_array`) over NUL-terminated text: reading at the end of the text
    yields NUL. */
module ControlReader {
  import opened Common
  import opened Escape

  const SPACE: byte := 0x20
  const TAB: byte := 0x09
  const COLON: byte := 0x3A
  const COMMA: byte := 0x2C
  const LBRACE: byte := 0x7B
  const RBRACE: byte := 0x7D
  const LBRACKET: byte := 0x5B
  const RBRACKET: byte := 0x5D

  function At(text: seq<byte>, i: nat): byte { if i < |text| then text[i] else 0 }

  // ---------------------------------------------------------------- scanning

  /** Where the quoted token that starts at `p` stops: its closing quote, or the
      end of the text. */
  function TokenEnd(text: seq<byte>, p: nat): (e: nat)
    requires p <= |text|
    ensures p <= e <= |text|
    ensures e < |text| ==> text[e] == QUOTE
    decreases |text| - p
  {
    if p == |text| || text[p] == QUOTE then p
    else if text[p] == BACKSLASH && p + 1 < |text| then TokenEnd(text, p + 2)
    else TokenEnd(text, p + 1)
  }

  function SkipBlanks(text: seq<byte>, p: nat): (q: nat)
    requires p <= |text|
    ensures p <= q <= |text|
    decreases |text| - p
  {
    if p < |text| && (text[p] == SPACE || text[p] == TAB) then SkipBlanks(text, p + 1) else p
  }

  /** Past the quoted token whose first character is at `p`. */
  function AfterToken(text: seq<byte>, p: nat): (e: nat)
    requires p <= |text|
    ensures p <= e <= |text|
  {
    var e := TokenEnd(text, p);
    if e < |text| then e + 1 else e
  }

  /** The answer of `sj_find` from position `p` at nesting `depth`. */
  function FindFrom(text: seq<byte>, key: seq<byte>, p: nat, depth: int): (r: Option<nat>)
    requires p <= |text|
    ensures r.Some? ==> r.value <= |text|
    decreases |text| - p
  {
    if p == |text| then None
    else if text[p] == LBRACE || text[p] == LBRACKET then FindFrom(text, key, p + 1, depth + 1)
    else if text[p] == RBRACE || text[p] == RBRACKET then FindFrom(text, key, p + 1, depth - 1)
    else if text[p] != QUOTE then FindFrom(text, key, p + 1, depth)
    else
      var after := AfterToken(text, p + 1);
      var colon := SkipBlanks(text, after);
      if At(text, colon) != COLON then FindFrom(text, key, after, depth)
      else
        var value := SkipBlanks(text, colon + 1);
        if depth == 1 && text[p + 1..TokenEnd(text, p + 1)] == key then Some(value)
        else FindFrom(text, key, value, depth)
  }

  /** `sj_find`. */
  method SjFind(text: seq<byte>, key: seq<byte>) returns (r: Option<nat>)
    requires 0 !in text
    ensures r == FindFrom(text, key, 0, 0)
  {
    var depth := 0;
    var p: nat := 0;
    while p < |text|
      invariant p <= |text|
      invariant FindFrom(text, key, 0, 0) == FindFrom(text, key, p, depth)
    {
      if text[p] == LBRACE || text[p] == LBRACKET {
        depth, p := depth + 1, p + 1;
        continue;
      }
      if text[p] == RBRACE || text[p] == RBRACKET {
        depth, p := depth - 1, p + 1;
        continue;
      }
      if text[p] != QUOTE {
        p := p + 1;
        continue;
      }
      var ks := p + 1;
      var e := ScanToken(text, ks);
      p := if e < |text| then e + 1 else e;
      var q := Blanks(text, p);
      if At(text, q) != COLON { continue; }
      q := Blanks(text, q + 1);
      if depth == 1 && e - ks == |key| && text[ks..e] == key { return Some(q); }
      p := q;
    }
    r := None;
  }

  method ScanToken(text: seq<byte>, start: nat) returns (p: nat)
    requires start <= |text|
    ensures p == TokenEnd(text, start)
  {
    p := start;
    while p < |text| && text[p] != QUOTE
      invariant start <= p <= |text|
      invariant TokenEnd(text, start) == TokenEnd(text, p)
    {
      if text[p] == BACKSLASH && p + 1 < |text| { p := p + 1; }
      p := p + 1;
    }
  }

  method Blanks(text: seq<byte>, start: nat) returns (p: nat)
    requires start <= |text|
    ensures p == SkipBlanks(text, start)
  {
    p := start;
    while p < |text| && (text[p] == SPACE || text[p] == TAB)
      invariant start <= p <= |text|
      invariant SkipBlanks(text, start) == SkipBlanks(text, p)
    {
      p := p + 1;
    }
  }

  // ---------------------------------------------------------------- reading a string

  function Unescape(e: byte): byte {
    if e == 0x6E then 0x0A else if e == 0x74 then 0x09 else if e == 0x72 then 0x0D else e
  }

  /** All the bytes `sj_str` decodes from position `v` up to the closing quote. */
  function Unquoted(text: seq<byte>, v: nat): seq<byte>
    requires v <= |text|
    decreases |text| - v
  {
    if v == |text| || text[v] == QUOTE then []
    else if text[v] == BACKSLASH && v + 1 < |text| then [Unescape(text[v + 1])] + Unquoted(text, v + 2)
    else [text[v]] + Unquoted(text, v + 1)
  }

  /** What survives in a buffer of `cap` bytes with its NUL. */
  function Clipped(s: seq<byte>, cap: nat): (kept: seq<byte>)
    ensures kept <= s && (cap > 0 ==> |kept| < cap)
  {
    if |s| < cap then s else if cap == 0 then [] else s[..cap - 1]
  }

  lemma {:induction false} UnquotedStep(text: seq<byte>, v: nat, seen: seq<byte>)
    requires v < |text| && text[v] != QUOTE
    ensures var escaped := text[v] == BACKSLASH && v + 1 < |text|;
            seen + Unquoted(text, v) ==
              if escaped then (seen + [Unescape(text[v + 1])]) + Unquoted(text, v + 2)
              else (seen + [text[v]]) + Unquoted(text, v + 1)
  {}

  lemma {:induction false} UnquotedEnd(text: seq<byte>, v: nat)
    requires v == |text| || (v < |text| && text[v] == QUOTE)
    ensures Unquoted(text, v) == []
  {}

  lemma {:induction false} ClippedNothing(cap: nat)
    ensures Clipped([], cap) == []
  {}

  /** One more byte is kept exactly if it leaves room for the NUL. */
  lemma {:induction false} ClippedSnoc(seen: seq<byte>, c: byte, cap: nat)
    ensures var kept := Clipped(seen, cap);
            Clipped(seen + [c], cap) == if |kept| + 1 < cap then kept + [c] else kept
  {}

  /** `sj_str`; `None` is a null pointer, and `n` is how many bytes were stored
      before the NUL. */
  method SjStr(text: seq<byte>, at: Option<nat>, buf: array<byte>) returns (rc: int, n: nat)
    requires at.Some? ==> at.value <= |text|
    modifies buf
    ensures rc == 0 <==> at.Some? && At(text, at.value) == QUOTE
    ensures rc == 0 || rc == -1
    ensures rc == 0 && buf.Length > 0 ==>
              var s := Clipped(Unquoted(text, at.value + 1), buf.Length);
              n == |s| < buf.Length && buf[..n] == s && buf[n] == 0
    ensures rc != 0 ==> buf[..] == old(buf[..])
  {
    hide Unquoted, Clipped, Unescape;
    if at.None? || At(text, at.value) != QUOTE { return -1, 0; }
    var v, o: nat := at.value + 1, 0;
    ghost var all := Unquoted(text, v);
    ghost var seen: seq<byte> := [];
    ClippedNothing(buf.Length);
    assert all == seen + all && buf[..0] == [];
    while v < |text| && text[v] != QUOTE
      invariant v <= |text|
      invariant all == seen + Unquoted(text, v)
      invariant o == |Clipped(seen, buf.Length)| <= buf.Length
      invariant buf[..o] == Clipped(seen, buf.Length)
    {
      UnquotedStep(text, v, seen);
      var c := text[v];
      v := v + 1;
      if c == BACKSLASH && v < |text| {
        c := Unescape(text[v]);
        v := v + 1;
      }
      ClippedSnoc(seen, c, buf.Length);
      seen := seen + [c];
      if o + 1 < buf.Length {
        buf[o] := c;
        o := o + 1;
      }
    }
    UnquotedEnd(text, v);
    assert all == seen;
    if buf.Length > 0 {
      buf[o] := 0; // o is below the capacity, so the clamp of the source is the identity
    }
    rc, n := 0, o;
  }

  // ---------------------------------------------------------------- reading an array of strings

  /** The buffer of one element of `launch_argv`. */
  const ARG_CAP: nat := 256

  function SkipSpace(text: seq<byte>, p: nat): (q: nat)
    requires p <= |text|
    ensures p <= q <= |text|
    decreases |text| - p
  {
    if p < |text| && text[p] in [SPACE, TAB, 0x0A, 0x0D] then SkipSpace(text, p + 1) else p
  }

  /** The elements `sj_str_array` has when it is done, having read `out` before `p`. */
  function ArrayFrom(text: seq<byte>, p: nat, out: seq<seq<byte>>, maxN: nat): Option<seq<seq<byte>>>
    requires p <= |text|
    decreases |text| - p
  {
    var v := SkipSpace(text, p);
    if At(text, v) == RBRACKET then Some(out)
    else if At(text, v) != QUOTE || |out| >= maxN then None
    else
      var e := TokenEnd(text, v + 1);
      if e == |text| then None
      else
        var out' := out + [Clipped(Unquoted(text, v + 1), ARG_CAP)];
        var w := SkipSpace(text, e + 1);
        if At(text, w) == COMMA then ArrayFrom(text, w + 1, out', maxN)
        else if At(text, w) == RBRACKET then Some(out')
        else None
  }

  /** `sj_str_array`: the elements, or `None` for the -1 of a null pointer, a
      malformed array, too many elements or none. */
  method SjStrArray(text: seq<byte>, at: Option<nat>, maxN: nat) returns (r: Option<seq<seq<byte>>>)
    requires at.Some? ==> at.value <= |text|
    ensures at.None? || At(text, at.value) != LBRACKET ==> r == None
    ensures at.Some? && At(text, at.value) == LBRACKET ==>
              var all := ArrayFrom(text, at.value + 1, [], maxN);
              r == if all == Some([]) then None else all
  {
    hide Clipped, Unquoted, TokenEnd, SkipSpace;
    if at.None? || At(text, at.value) != LBRACKET { return None; }
    var v: nat := at.value + 1;
    ghost var start := v;
    var out: seq<seq<byte>> := [];
    while true
      invariant v <= |text|
      invariant ArrayFrom(text, start, [], maxN) == ArrayFrom(text, v, out, maxN)
      decreases |text| - v
    {
      v := Space(text, v);
      if At(text, v) == RBRACKET { break; }
      if At(text, v) != QUOTE || |out| >= maxN { return None; }
      var e := ScanToken(text, v + 1);
      if e == |text| { return None; }
      var item := StringAt(text, v);
      out := out + [item];
      v := Space(text, e + 1);
      if At(text, v) == COMMA {
        v := v + 1;
        continue;
      }
      if At(text, v) == RBRACKET { break; }
      return None;
    }
    r := if out == [] then None else Some(out);
  }

  /** One element, read into its own buffer of 256 bytes. */
  method StringAt(text: seq<byte>, v: nat) returns (item: seq<byte>)
    requires At(text, v) == QUOTE
    ensures item == Clipped(Unquoted(text, v + 1), ARG_CAP)
  {
    var buf := new byte[ARG_CAP];
    var rc, n := SjStr(text, Some(v), buf);
    item := buf[..n];
  }

  method Space(text: seq<byte>, start: nat) returns (p: nat)
    requires start <= |text|
    ensures p == SkipSpace(text, start)
  {
    p := start;
    while p < |text| && text[p] in [SPACE, TAB, 0x0A, 0x0D]
      invariant start <= p <= |text|
      invariant SkipSpace(text, start) == SkipSpace(text, p)
    {
      p := p + 1;
    }
  }
}
