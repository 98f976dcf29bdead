/** What several modules share: bytes, 64-bit words, little-endian fields, parts of
    a text, and optional values. */
module Common {

  type byte = x: int | 0 <= x < 256

  datatype Option<+T> = None | Some(value: T)

  /** One more than the greatest 64-bit value. */
  const WRAP: nat := 0x1_0000_0000_0000_0000

  predicate Contains(hay: string, needle: string) {
    exists i :: 0 <= i <= |hay| && needle <= hay[i..]
  }

  // ---------------------------------------------------------------- little-endian fields

  function Little(v: nat, n: nat): (b: seq<byte>)
    ensures |b| == n
    decreases n
  {
    if n == 0 then [] else [v % 256] + Little(v / 256, n - 1)
  }

  function Pow256(n: nat): nat { if n == 0 then 1 else 256 * Pow256(n - 1) }

  lemma {:induction false} FieldBounds()
    ensures Pow256(4) == 0x1_0000_0000 && Pow256(8) == WRAP
  {
    assert Pow256(4) == 256 * (256 * (256 * 256));
    assert Pow256(8) == 256 * (256 * (256 * (256 * Pow256(4))));
  }

  // ---------------------------------------------------------------- parts of a text

  /** `part` stands in `text` at position `p`. */
  predicate Holds(text: seq<byte>, p: nat, part: seq<byte>) {
    p + |part| <= |text| && text[p..p + |part|] == part
  }

  lemma {:induction false} HoldsSplit(text: seq<byte>, p: nat, a: seq<byte>, b: seq<byte>)
    ensures Holds(text, p, a + b) <==> Holds(text, p, a) && Holds(text, p + |a|, b)
  {
    if p + |a| + |b| <= |text| {
      var whole := text[p..p + |a + b|];
      assert whole[..|a|] == text[p..p + |a|] && whole[|a|..] == text[p + |a|..p + |a| + |b|];
      assert whole == whole[..|a|] + whole[|a|..];
      assert (a + b)[..|a|] == a && (a + b)[|a|..] == b;
    }
  }

  // ---------------------------------------------------------------- permutations

  lemma {:induction false} SameMembers<T>(a: seq<T>, b: seq<T>)
    requires multiset(a) == multiset(b)
    ensures forall i :: 0 <= i < |a| ==> a[i] in b
    ensures forall x :: x in a <==> x in b
    ensures |a| == |b|
  {
    assert forall x :: x in a <==> x in multiset(a);
    assert forall x :: x in b <==> x in multiset(b);
    assert |multiset(a)| == |multiset(b)|;
  }

  lemma {:induction false} Without<T>(a: seq<T>, i: nat)
    requires i < |a|
    ensures multiset(a[..i] + a[i + 1..]) == multiset(a) - multiset{a[i]}
  {
    assert a == a[..i] + [a[i]] + a[i + 1..];
  }

  /** Permutations stay permutations when the same element is taken out of both. */
  lemma {:induction false} RestPermuted<T>(a: seq<T>, b: seq<T>, i: nat)
    requires a != [] && i < |b| && b[i] == a[|a| - 1] && multiset(a) == multiset(b)
    ensures multiset(a[..|a| - 1]) == multiset(b[..i] + b[i + 1..])
  {
    var last := |a| - 1;
    Without(a, last);
    Without(b, i);
    assert a[..last] + a[last + 1..] == a[..last];
  }
}
