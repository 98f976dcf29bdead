/** Searching a control line and reading an argument vector: any JSON object, of any
    nesting and with blanks wherever the reader allows them, is searched correctly, and
    any printed argument vector is read element by element. */
module ControlSearch {
  import opened Common
  import opened Escape
  import opened ControlReader
  import opened ControlRoundTrip

  // ---------------------------------------------------------------- JSON texts

  /** A JSON value as it is written, blanks included; string bodies and keys are kept
      as they are printed. */
  datatype Json =
    | Str(body: seq<byte>)
    | Atom(text: seq<byte>)
    | Arr(items: seq<Item>)
    | Obj(members: seq<Member>)

  datatype Item = Item(lead: seq<byte>, value: Json, trail: seq<byte>)

  /** lead "key" before : after value trail */
  datatype Member = Member(lead: seq<byte>, key: seq<byte>, before: seq<byte>, after: seq<byte>, value: Json, trail: seq<byte>)

  /** Characters of numbers and of the three literals. */
  predicate AtomByte(b: byte) {
    0x30 <= b <= 0x39 || 0x61 <= b <= 0x7A || b == 0x45 || b == 0x2B || b == 0x2D || b == 0x2E
  }

  predicate Blank(b: byte) { b == SPACE || b == TAB }

  /** White space as JSON has it; around a colon the reader knows blanks only. */
  predicate White(s: seq<byte>) { forall k :: 0 <= k < |s| ==> Blank(s[k]) || s[k] == 0x0A || s[k] == 0x0D }

  predicate Blanks(s: seq<byte>) { forall k :: 0 <= k < |s| ==> Blank(s[k]) }

  predicate Legal(j: Json) {
    match j
    case Str(body) => JsonBody(body)
    case Atom(text) => text != [] && forall k :: 0 <= k < |text| ==> AtomByte(text[k])
    case Arr(items) => forall k :: 0 <= k < |items| ==> White(items[k].lead) && White(items[k].trail) && Legal(items[k].value)
    case Obj(members) => forall k :: 0 <= k < |members| ==> LegalFrame(members[k]) && Legal(members[k].value)
  }

  predicate LegalFrame(m: Member) {
    White(m.lead) && Blanks(m.before) && Blanks(m.after) && White(m.trail) && JsonBody(m.key)
  }

  function Print(j: Json): (s: seq<byte>)
    ensures |s| > 0 || j.Atom?
    decreases j, 1
  {
    match j
    case Str(body) => Quoted(body)
    case Atom(text) => text
    case Arr(items) => [LBRACKET] + PrintItems(items) + [RBRACKET]
    case Obj(members) => [LBRACE] + PrintMembers(members) + [RBRACE]
  }

  function PrintItem(item: Item): seq<byte>
    decreases item, 2
  {
    item.lead + (Print(item.value) + item.trail)
  }

  function PrintItems(items: seq<Item>): seq<byte>
    decreases items, 0
  {
    if items == [] then []
    else if |items| == 1 then PrintItem(items[0])
    else PrintItem(items[0]) + [COMMA] + PrintItems(items[1..])
  }

  /** A key with its colon, up to the value. */
  function PrintKey(m: Member): seq<byte> { Quoted(m.key) + (m.before + ([COLON] + m.after)) }

  function PrintMember(m: Member): seq<byte>
    decreases m, 2
  {
    m.lead + (PrintKey(m) + (Print(m.value) + m.trail))
  }

  function PrintMembers(members: seq<Member>): seq<byte>
    decreases members, 0
  {
    if members == [] then []
    else if |members| == 1 then PrintMember(members[0])
    else PrintMember(members[0]) + [COMMA] + PrintMembers(members[1..])
  }

  // ---------------------------------------------------------------- gaps

  lemma {:induction false} CloserAt(text: seq<byte>, p: nat, b: byte)
    requires Holds(text, p, [b])
    ensures p < |text| && text[p] == b && At(text, p) == b
  {}

  /** What ends a value inside an array or an object. */
  predicate Stop(b: byte) { b == COMMA || b == RBRACE || b == RBRACKET }

  /** No colon follows, so a string that ends here is not a key. */
  predicate NoColon(text: seq<byte>, p: nat) { p <= |text| && At(text, SkipBlanks(text, p)) != COLON }

  lemma {:induction false} GapPeel(text: seq<byte>, p: nat, gap: seq<byte>)
    requires gap != [] && Holds(text, p, gap)
    ensures p < |text| && text[p] == gap[0] && Holds(text, p + 1, gap[1..])
  {
    assert gap == [gap[0]] + gap[1..];
    HoldsSplit(text, p, [gap[0]], gap[1..]);
    HoldsOne(text, p, gap[0]);
  }

  lemma {:induction false} WhiteThenStop(text: seq<byte>, p: nat, gap: seq<byte>)
    requires Holds(text, p, gap) && White(gap) && Stop(At(text, p + |gap|))
    ensures NoColon(text, p)
    decreases |gap|
  {
    if gap != [] {
      GapPeel(text, p, gap);
      WhiteThenStop(text, p + 1, gap[1..]);
    }
  }

  lemma {:induction false} BlanksSkipped(text: seq<byte>, p: nat, gap: seq<byte>)
    requires Holds(text, p, gap) && Blanks(gap) && !Blank(At(text, p + |gap|))
    ensures SkipBlanks(text, p) == p + |gap|
    decreases |gap|
  {
    if gap != [] {
      GapPeel(text, p, gap);
      BlanksSkipped(text, p + 1, gap[1..]);
    }
  }

  /** Not white space, or the end of the text. */
  predicate Inked(b: byte) { !Blank(b) && b != 0x0A && b != 0x0D }

  lemma {:induction false} WhiteSkipped(text: seq<byte>, p: nat, gap: seq<byte>)
    requires Holds(text, p, gap) && White(gap) && Inked(At(text, p + |gap|))
    ensures SkipSpace(text, p) == p + |gap|
    decreases |gap|
  {
    if gap != [] {
      GapPeel(text, p, gap);
      WhiteSkipped(text, p + 1, gap[1..]);
    }
  }

  // ---------------------------------------------------------------- crossing values

  /** A byte the search passes over. */
  predicate Dull(b: byte) { AtomByte(b) || b == COMMA || Blank(b) || b == 0x0A || b == 0x0D }

  lemma {:induction false} SkipDull(text: seq<byte>, key: seq<byte>, p: nat, depth: int, a: seq<byte>)
    requires Holds(text, p, a) && forall k :: 0 <= k < |a| ==> Dull(a[k])
    ensures FindFrom(text, key, p, depth) == FindFrom(text, key, p + |a|, depth)
    decreases |a|
  {
    if a != [] {
      GapPeel(text, p, a);
      SkipDull(text, key, p + 1, depth, a[1..]);
    }
  }

  /** A string that no colon follows is not a key. */
  lemma {:induction false} SkipString(text: seq<byte>, key: seq<byte>, p: nat, depth: int, body: seq<byte>)
    requires JsonBody(body) && Holds(text, p, Quoted(body)) && NoColon(text, p + |Quoted(body)|)
    ensures FindFrom(text, key, p, depth) == FindFrom(text, key, p + |Quoted(body)|, depth)
  {
    hide JsonBody, Holds, Safe, TokenEnd, SkipBlanks;
    JsonBodyIsSafe(body);
    QuotedToken(text, p, body);
  }

  /** A key, with blanks around its colon: it is the answer if it is the one sought, at
      the top level. */
  lemma {:induction false} MeetKey(text: seq<byte>, key: seq<byte>, p: nat, depth: int, m: Member)
    requires LegalFrame(m) && Holds(text, p, PrintKey(m)) && !Blank(At(text, p + |PrintKey(m)|))
    ensures p + |PrintKey(m)| <= |text|
    ensures FindFrom(text, key, p, depth) ==
              if depth == 1 && m.key == key then Some(p + |PrintKey(m)|)
              else FindFrom(text, key, p + |PrintKey(m)|, depth)
  {
    hide JsonBody, Holds, Safe, TokenEnd, SkipBlanks, Blanks;
    var q := Quoted(m.key);
    JsonBodyIsSafe(m.key);
    HoldsSplit(text, p, q, m.before + ([COLON] + m.after));
    HoldsSplit(text, p + |q|, m.before, [COLON] + m.after);
    HoldsSplit(text, p + |q| + |m.before|, [COLON], m.after);
    CloserAt(text, p + |q| + |m.before|, COLON);
    BlanksSkipped(text, p + |q|, m.before);
    BlanksSkipped(text, p + |q| + |m.before| + 1, m.after);
    QuotedToken(text, p, m.key);
  }

  lemma {:induction false} FirstByte(j: Json)
    requires Legal(j)
    ensures Print(j) != [] && !Blank(Print(j)[0])
  {}

  lemma {:induction false} CrossBrackets(text: seq<byte>, key: seq<byte>, p: nat, q: nat, depth: int)
    requires p < q < |text| && text[p] in [LBRACE, LBRACKET] && text[q] in [RBRACE, RBRACKET]
    requires FindFrom(text, key, p + 1, depth + 1) == FindFrom(text, key, q, depth + 1)
    ensures FindFrom(text, key, p, depth) == FindFrom(text, key, q + 1, depth)
  {}

  /** Scanning crosses any value below the top level without an answer. */
  lemma {:induction false} SkipValue(text: seq<byte>, key: seq<byte>, p: nat, depth: int, j: Json)
    requires Legal(j) && depth >= 1 && Holds(text, p, Print(j)) && NoColon(text, p + |Print(j)|)
    ensures FindFrom(text, key, p, depth) == FindFrom(text, key, p + |Print(j)|, depth)
    decreases j, 1
  {
    hide FindFrom, Holds, At, JsonBody, NoColon;
    match j
    case Str(body) => SkipString(text, key, p, depth, body);
    case Atom(a) => SkipDull(text, key, p, depth, a);
    case Arr(items) =>
      Bracketed(text, p, LBRACKET, PrintItems(items), RBRACKET);
      SkipItems(text, key, p + 1, depth + 1, items);
      CrossBrackets(text, key, p, p + 1 + |PrintItems(items)|, depth);
    case Obj(members) =>
      Bracketed(text, p, LBRACE, PrintMembers(members), RBRACE);
      SkipMembers(text, key, p + 1, depth + 1, members);
      CrossBrackets(text, key, p, p + 1 + |PrintMembers(members)|, depth);
  }

  lemma {:induction false} Bracketed(text: seq<byte>, p: nat, open: byte, inner: seq<byte>, close: byte)
    requires Holds(text, p, [open] + inner + [close])
    ensures p + 1 + |inner| < |text| && text[p] == open && text[p + 1 + |inner|] == close
    ensures At(text, p) == open && Holds(text, p + 1, inner) && At(text, p + 1 + |inner|) == close
  {
    HoldsSplit(text, p, [open] + inner, [close]);
    HoldsSplit(text, p, [open], inner);
    CloserAt(text, p, open);
    CloserAt(text, p + 1 + |inner|, close);
  }

  lemma {:induction false} SkipItem(text: seq<byte>, key: seq<byte>, p: nat, depth: int, item: Item)
    requires White(item.lead) && White(item.trail) && Legal(item.value) && depth >= 1
    requires Holds(text, p, PrintItem(item)) && Stop(At(text, p + |PrintItem(item)|))
    ensures FindFrom(text, key, p, depth) == FindFrom(text, key, p + |PrintItem(item)|, depth)
    decreases item, 3
  {
    hide FindFrom, Holds, Legal, Print, NoColon;
    var v := p + |item.lead|;
    HoldsSplit(text, p, item.lead, Print(item.value) + item.trail);
    HoldsSplit(text, v, Print(item.value), item.trail);
    SkipDull(text, key, p, depth, item.lead);
    WhiteThenStop(text, v + |Print(item.value)|, item.trail);
    SkipValue(text, key, v, depth, item.value);
    SkipDull(text, key, v + |Print(item.value)|, depth, item.trail);
  }

  lemma {:induction false} SkipItems(text: seq<byte>, key: seq<byte>, p: nat, depth: int, items: seq<Item>)
    requires forall k :: 0 <= k < |items| ==> White(items[k].lead) && White(items[k].trail) && Legal(items[k].value)
    requires depth >= 1 && Holds(text, p, PrintItems(items)) && At(text, p + |PrintItems(items)|) == RBRACKET
    ensures FindFrom(text, key, p, depth) == FindFrom(text, key, p + |PrintItems(items)|, depth)
    decreases items, 0
  {
    hide FindFrom, Holds, Legal, PrintItem, White;
    if |items| == 1 {
      SkipItem(text, key, p, depth, items[0]);
    } else if items != [] {
      var first := PrintItem(items[0]);
      HoldsSplit(text, p, first + [COMMA], PrintItems(items[1..]));
      HoldsSplit(text, p, first, [COMMA]);
      CloserAt(text, p + |first|, COMMA);
      SkipItem(text, key, p, depth, items[0]);
      SkipDull(text, key, p + |first|, depth, [COMMA]);
      SkipItems(text, key, p + |first| + 1, depth, items[1..]);
    }
  }

  /** Where a member's key starts, and where its value. */
  function KeyAt(m: Member, p: nat): nat { p + |m.lead| }

  function ValueAt(m: Member, p: nat): nat { KeyAt(m, p) + |PrintKey(m)| }

  /** The pieces of a printed member. */
  lemma {:induction false} MemberPieces(text: seq<byte>, p: nat, m: Member)
    requires LegalFrame(m) && Legal(m.value)
    requires Holds(text, p, PrintMember(m)) && Stop(At(text, p + |PrintMember(m)|))
    ensures Holds(text, p, m.lead) && Holds(text, KeyAt(m, p), PrintKey(m))
    ensures Holds(text, ValueAt(m, p), Print(m.value)) && !Blank(At(text, ValueAt(m, p)))
    ensures NoColon(text, ValueAt(m, p) + |Print(m.value)|)
    ensures Holds(text, ValueAt(m, p) + |Print(m.value)|, m.trail)
    ensures ValueAt(m, p) + |Print(m.value)| + |m.trail| == p + |PrintMember(m)|
  {
    hide Holds, Print, PrintKey, Legal, NoColon, Blank, At;
    HoldsSplit(text, p, m.lead, PrintKey(m) + (Print(m.value) + m.trail));
    HoldsSplit(text, KeyAt(m, p), PrintKey(m), Print(m.value) + m.trail);
    HoldsSplit(text, ValueAt(m, p), Print(m.value), m.trail);
    FirstByte(m.value);
    HoldsFirst(text, ValueAt(m, p), Print(m.value));
    WhiteThenStop(text, ValueAt(m, p) + |Print(m.value)|, m.trail);
  }

  lemma {:induction false} HoldsFirst(text: seq<byte>, p: nat, part: seq<byte>)
    requires Holds(text, p, part) && part != []
    ensures At(text, p) == part[0]
  {
    assert text[p] == text[p..p + |part|][0];
  }

  /** Crossing one member: an answer exactly if it has the key, at the top level. */
  lemma {:induction false} CrossMember(text: seq<byte>, key: seq<byte>, p: nat, depth: int, m: Member)
    requires LegalFrame(m) && Legal(m.value) && depth >= 1
    requires Holds(text, p, PrintMember(m)) && Stop(At(text, p + |PrintMember(m)|))
    ensures FindFrom(text, key, p, depth) ==
              if depth == 1 && m.key == key then Some(ValueAt(m, p))
              else FindFrom(text, key, p + |PrintMember(m)|, depth)
    decreases m, 3
  {
    hide FindFrom, Holds, Legal, Print, PrintKey, PrintMember, NoColon, Blank, At, Stop, JsonBody;
    MemberPieces(text, p, m);
    SkipDull(text, key, p, depth, m.lead);
    MeetKey(text, key, KeyAt(m, p), depth, m);
    SkipValue(text, key, ValueAt(m, p), depth, m.value);
    SkipDull(text, key, ValueAt(m, p) + |Print(m.value)|, depth, m.trail);
  }

  /** The first member of a printed list, and the rest. */
  lemma {:induction false} SplitMembers(text: seq<byte>, p: nat, members: seq<Member>)
    requires members != []
    requires Holds(text, p, PrintMembers(members)) && At(text, p + |PrintMembers(members)|) == RBRACE
    ensures var first := PrintMember(members[0]);
            && Holds(text, p, first) && Stop(At(text, p + |first|))
            && (|members| == 1 ==> |PrintMembers(members)| == |first|)
            && (|members| > 1 ==>
                  && Holds(text, p + |first|, [COMMA])
                  && Holds(text, p + |first| + 1, PrintMembers(members[1..]))
                  && |first| + 1 + |PrintMembers(members[1..])| == |PrintMembers(members)|)
  {
    hide Holds, PrintMember, At;
    if |members| > 1 {
      var first := PrintMember(members[0]);
      HoldsSplit(text, p, first + [COMMA], PrintMembers(members[1..]));
      HoldsSplit(text, p, first, [COMMA]);
      CloserAt(text, p + |first|, COMMA);
    }
  }

  lemma {:induction false} SkipMembers(text: seq<byte>, key: seq<byte>, p: nat, depth: int, members: seq<Member>)
    requires forall k :: 0 <= k < |members| ==> LegalFrame(members[k]) && Legal(members[k].value)
    requires depth >= 2 && Holds(text, p, PrintMembers(members)) && At(text, p + |PrintMembers(members)|) == RBRACE
    ensures FindFrom(text, key, p, depth) == FindFrom(text, key, p + |PrintMembers(members)|, depth)
    decreases members, 0
  {
    hide FindFrom, Holds, At, Stop, Legal, LegalFrame, PrintMember, PrintKey;
    if members != [] {
      var first := PrintMember(members[0]);
      SplitMembers(text, p, members);
      CrossMember(text, key, p, depth, members[0]);
      if |members| > 1 {
        SkipDull(text, key, p + |first|, depth, [COMMA]);
        SkipMembers(text, key, p + |first| + 1, depth, members[1..]);
      }
    }
  }

  // ---------------------------------------------------------------- the search

  /** The position of the value of the first member with this key, in a member list
      printed at p. */
  function FirstValue(members: seq<Member>, key: seq<byte>, p: nat): Option<nat> {
    if members == [] then None
    else if members[0].key == key then Some(ValueAt(members[0], p))
    else FirstValue(members[1..], key, p + |PrintMember(members[0])| + 1)
  }

  lemma {:induction false} FindInMembers(text: seq<byte>, key: seq<byte>, p: nat, members: seq<Member>)
    requires forall k :: 0 <= k < |members| ==> LegalFrame(members[k]) && Legal(members[k].value)
    requires Holds(text, p, PrintMembers(members)) && At(text, p + |PrintMembers(members)|) == RBRACE
    ensures FindFrom(text, key, p, 1) ==
              if FirstValue(members, key, p).Some? then FirstValue(members, key, p)
              else FindFrom(text, key, p + |PrintMembers(members)|, 1)
    decreases members
  {
    hide FindFrom, Holds, At, Stop, Legal, LegalFrame, PrintMember, PrintKey, ValueAt;
    if members != [] {
      var first := PrintMember(members[0]);
      SplitMembers(text, p, members);
      CrossMember(text, key, p, 1, members[0]);
      if |members| > 1 {
        SkipDull(text, key, p + |first|, 1, [COMMA]);
        FindInMembers(text, key, p + |first| + 1, members[1..]);
      }
    }
  }

  lemma {:induction false} NothingLeft(text: seq<byte>, key: seq<byte>, p: nat, depth: int)
    requires p <= |text| && QUOTE !in text[p..]
    ensures FindFrom(text, key, p, depth) == None
    decreases |text| - p
  {
    if p < |text| {
      assert text[p] == text[p..][0] && text[p + 1..] == text[p..][1..];
      NothingLeft(text, key, p + 1, depth + 1);
      NothingLeft(text, key, p + 1, depth - 1);
      NothingLeft(text, key, p + 1, depth);
    }
  }

  /** `sj_find` on a JSON object, with blanks around its colons and white space between
      its members, followed by anything without a quote (the end of the line): the
      value of the first top-level member with this key, and nothing else. */
  lemma {:induction false} FindsFirstTopLevelMember(members: seq<Member>, key: seq<byte>, tail: seq<byte>)
    requires Legal(Obj(members)) && QUOTE !in tail
    ensures FindFrom(Print(Obj(members)) + tail, key, 0, 0) == FirstValue(members, key, 1)
  {
    hide PrintMembers, FirstValue, Holds, At;
    var inner := PrintMembers(members);
    var text := Print(Obj(members)) + tail;
    StandsFirst(Print(Obj(members)), tail);
    Bracketed(text, 0, LBRACE, inner, RBRACE);
    FindInMembers(text, key, 1, members);
    var end := 2 + |inner|;
    assert text[end..] == tail;
    NothingLeft(text, key, end, 0);
  }

  lemma {:induction false} StandsFirst(a: seq<byte>, b: seq<byte>)
    ensures Holds(a + b, 0, a)
  {
    assert (a + b)[0..|a|] == a;
  }

  /** What `FirstValue` means: no member with the key, or the position of the
      value of the first one. */
  lemma {:induction false} FirstValueIsTheFirst(members: seq<Member>, key: seq<byte>, p: nat, text: seq<byte>)
    returns (i: nat)
    requires forall k :: 0 <= k < |members| ==> LegalFrame(members[k]) && Legal(members[k].value)
    requires Holds(text, p, PrintMembers(members)) && At(text, p + |PrintMembers(members)|) == RBRACE
    ensures i <= |members| && forall k :: 0 <= k < i ==> members[k].key != key
    ensures FirstValue(members, key, p).None? <==> i == |members|
    ensures i < |members| ==> && members[i].key == key
                              && Holds(text, FirstValue(members, key, p).value, Print(members[i].value))
    decreases members
  {
    hide Holds, At, Stop, Blank, Legal, LegalFrame, Print, PrintMember, PrintKey, NoColon, ValueAt, KeyAt;
    i := 0;
    if members != [] {
      SplitMembers(text, p, members);
      if members[0].key == key {
        MemberPieces(text, p, members[0]);
      } else if |members| == 1 {
        assert members[1..] == [];
        i := 1;
      } else {
        i := FirstValueIsTheFirst(members[1..], key, p + |PrintMember(members[0])| + 1, text);
        i := i + 1;
      }
    }
  }

  // ---------------------------------------------------------------- argument vectors

  /** What the reader makes of a printed argument vector. */
  function ReadArgs(argv: seq<seq<byte>>): seq<seq<byte>> {
    if argv == [] then [] else [Clipped(Echo(argv[0]), ARG_CAP)] + ReadArgs(argv[1..])
  }

  predicate Roomy(a: seq<byte>, room: int) { room >= 6 * |a| + 2 }

  /** An element that prints this argument, with any white space around it. */
  predicate PrintsArg(item: Item, a: seq<byte>, room: int) {
    Roomy(a, room) && White(item.lead) && White(item.trail) && item.value == Str(Escaped(a, room))
  }

  predicate PrintsArgs(items: seq<Item>, argv: seq<seq<byte>>, room: int) {
    |items| == |argv| && forall k :: 0 <= k < |argv| ==> PrintsArg(items[k], argv[k], room)
  }

  /** One element and what comes after it: only a comma or the closing bracket will do. */
  lemma {:induction false} ReadsItem(text: seq<byte>, p: nat, item: Item, a: seq<byte>, room: int,
                                     out: seq<seq<byte>>, maxN: nat)
    requires PrintsArg(item, a, room) && Holds(text, p, PrintItem(item))
    requires Inked(At(text, p + |PrintItem(item)|))
    ensures var q, arg := p + |PrintItem(item)|, Clipped(Echo(a), ARG_CAP);
            && q <= |text|
            && ArrayFrom(text, p, out, maxN) ==
                 if |out| >= maxN then None
                 else if At(text, q) == COMMA then ArrayFrom(text, q + 1, out + [arg], maxN)
                 else if At(text, q) == RBRACKET then Some(out + [arg])
                 else None
  {
    hide Holds, Unquoted, TokenEnd, SkipSpace, Escaped, Survives, Safe, ReadBody, Echo, Clipped, White;
    var v, body := p + |item.lead|, Quoted(Escaped(a, room));
    HoldsSplit(text, p, item.lead, body + item.trail);
    HoldsSplit(text, v, body, item.trail);
    StringRoundTrip(a, room, text, v, ARG_CAP);
    ReadsEscaped(a, room);
    QuotedToken(text, v, Escaped(a, room));
    WhiteSkipped(text, p, item.lead);
    WhiteSkipped(text, v + |body|, item.trail);
    HoldsFits(text, v + |body|, item.trail);
  }

  lemma {:induction false} HoldsFits(text: seq<byte>, p: nat, part: seq<byte>)
    requires Holds(text, p, part)
    ensures p + |part| <= |text|
  {}

  lemma {:induction false} ReadsItems(text: seq<byte>, p: nat, items: seq<Item>, argv: seq<seq<byte>>, room: int,
                                      out: seq<seq<byte>>, maxN: nat)
    requires argv != [] && PrintsArgs(items, argv, room)
    requires Holds(text, p, PrintItems(items))
    requires var next := At(text, p + |PrintItems(items)|); Inked(next) && next != COMMA
    ensures ArrayFrom(text, p, out, maxN) ==
              if |out| + |argv| <= maxN && At(text, p + |PrintItems(items)|) == RBRACKET
              then Some(out + ReadArgs(argv)) else None
    decreases argv
  {
    hide Holds, ArrayFrom, Echo, Clipped, PrintItem, At, PrintsArg, Inked;
    CommaIsInked();
    var first, arg, rest := PrintItem(items[0]), Clipped(Echo(argv[0]), ARG_CAP), argv[1..];
    if |argv| > 1 {
      ItemThenRest(text, p, first, PrintItems(items[1..]));
      ReadsItem(text, p, items[0], argv[0], room, out, maxN);
      ReadsItems(text, p + |first| + 1, items[1..], rest, room, out + [arg], maxN);
      assert (out + [arg]) + ReadArgs(rest) == out + ([arg] + ReadArgs(rest));
    } else {
      ReadsItem(text, p, items[0], argv[0], room, out, maxN);
      assert ReadArgs(argv) == [arg];
    }
  }

  lemma {:induction false} ItemThenRest(text: seq<byte>, p: nat, first: seq<byte>, rest: seq<byte>)
    requires Holds(text, p, first + [COMMA] + rest)
    ensures Holds(text, p, first) && At(text, p + |first|) == COMMA
    ensures Holds(text, p + |first| + 1, rest)
  {
    HoldsSplit(text, p, first + [COMMA], rest);
    HoldsSplit(text, p, first, [COMMA]);
    CloserAt(text, p + |first|, COMMA);
  }

  lemma {:induction false} CommaIsInked()
    ensures Inked(COMMA) && Inked(RBRACKET)
  {}

  /** A printed argument vector of any strings, with any white space around them, is
      refused if it is too long, and read back otherwise; what is read is the vector
      itself exactly when every argument survives its 256-byte buffer. */
  lemma {:induction false} ArgvRoundTrip(text: seq<byte>, p: nat, items: seq<Item>, argv: seq<seq<byte>>, room: int, maxN: nat)
    requires PrintsArgs(items, argv, room) && Holds(text, p, Print(Arr(items)))
    ensures At(text, p) == LBRACKET
    ensures ArrayFrom(text, p + 1, [], maxN) == if |argv| <= maxN then Some(ReadArgs(argv)) else None
    ensures ReadArgs(argv) == argv <==> forall k :: 0 <= k < |argv| ==> Survives(argv[k], ARG_CAP)
  {
    hide Survives, Clipped, Echo, Holds, PrintsArg, ArrayFrom;
    Bracketed(text, p, LBRACKET, PrintItems(items), RBRACKET);
    if argv == [] {
      EmptyArray(text, p + 1, maxN);
    } else {
      ReadsItems(text, p + 1, items, argv, room, [], maxN);
      assert [] + ReadArgs(argv) == ReadArgs(argv);
    }
    ArgsSurviveIff(argv);
  }

  /** A vector that is not closed, or whose elements are not followed by a comma or the
      bracket, is refused, whatever came before. */
  lemma {:induction false} BrokenVectorIsRefused(text: seq<byte>, p: nat, items: seq<Item>, argv: seq<seq<byte>>, room: int, maxN: nat)
    requires argv != [] && PrintsArgs(items, argv, room)
    requires At(text, p) == LBRACKET && Holds(text, p + 1, PrintItems(items))
    requires var next := At(text, p + 1 + |PrintItems(items)|); Inked(next) && next != COMMA && next != RBRACKET
    ensures ArrayFrom(text, p + 1, [], maxN) == None
  {
    hide Holds, PrintsArg, ArrayFrom, At, Inked;
    ReadsItems(text, p + 1, items, argv, room, [], maxN);
  }

  lemma {:induction false} EmptyArray(text: seq<byte>, p: nat, maxN: nat)
    requires p < |text| && text[p] == RBRACKET
    ensures ArrayFrom(text, p, [], maxN) == Some([])
  {}

  lemma {:induction false} ArgsSurviveIff(argv: seq<seq<byte>>)
    ensures ReadArgs(argv) == argv <==> forall k :: 0 <= k < |argv| ==> Survives(argv[k], ARG_CAP)
  {
    hide Survives, Clipped, Echo;
    if argv != [] {
      var item, rest := Clipped(Echo(argv[0]), ARG_CAP), ReadArgs(argv[1..]);
      ArgsSurviveIff(argv[1..]);
      ClippedEchoIff(argv[0], ARG_CAP);
      assert argv == [argv[0]] + argv[1..];
      assert ReadArgs(argv)[0] == item && ReadArgs(argv)[1..] == rest;
      assert forall k :: 0 < k < |argv| ==> argv[k] == argv[1..][k - 1];
    }
  }
}
