/** Byte strings, 32-bit big-endian numbers and the canonical byte order. */
module Bytes {

  type byte = x: int | 0 <= x < 256

  const U32_MAX := 0xffff_ffff

  function U32be(n: nat): (b: seq<byte>)
    requires n <= U32_MAX
    ensures |b| == 4
  {
    [n / 0x100 / 0x100 / 0x100, n / 0x100 / 0x100 % 0x100, n / 0x100 % 0x100, n % 0x100]
  }

  function FromU32be(b: seq<byte>): (n: nat)
    requires |b| == 4
    ensures n <= U32_MAX
  {
    var b0: int, b1: int, b2: int, b3: int := b[0], b[1], b[2], b[3];
    ((b0 * 0x100 + b1) * 0x100 + b2) * 0x100 + b3
  }

  lemma U32RoundTrip(n: nat)
    requires n <= U32_MAX
    ensures FromU32be(U32be(n)) == n
  {
  }

  lemma U32Unique(b: seq<byte>)
    requires |b| == 4
    ensures U32be(FromU32be(b)) == b
  {
    var b0: int, b1: int, b2: int, b3: int := b[0], b[1], b[2], b[3];
    var n := FromU32be(b);
    assert n / 0x100 == (b0 * 0x100 + b1) * 0x100 + b2;
    assert n / 0x100 / 0x100 == b0 * 0x100 + b1;
  }

  function Ascii(s: string): (b: seq<byte>)
    requires forall i :: 0 <= i < |s| ==> s[i] < 128 as char
    ensures |b| == |s| && forall i :: 0 <= i < |b| ==> b[i] < 128 && b[i] == s[i] as int
  {
    seq(|s|, i requires 0 <= i < |s| => s[i] as int)
  }

  /** Strict lexicographic order. */
  predicate Less(a: seq<byte>, b: seq<byte>) {
    b != [] && (a == [] || a[0] < b[0] || (a[0] == b[0] && Less(a[1..], b[1..])))
  }

  lemma {:induction false} LessTotal(a: seq<byte>, b: seq<byte>)
    ensures a != b ==> Less(a, b) || Less(b, a)
    ensures Less(a, b) ==> a != b && !Less(b, a)
  {
    if a != [] && b != [] {
      LessTotal(a[1..], b[1..]);
      assert a == [a[0]] + a[1..] && b == [b[0]] + b[1..];
    }
  }

  lemma {:induction false} LessTransitive(a: seq<byte>, b: seq<byte>, c: seq<byte>)
    requires Less(a, b) && Less(b, c)
    ensures Less(a, c)
  {
    if a != [] && a[0] == b[0] == c[0] {
      LessTransitive(a[1..], b[1..], c[1..]);
    }
  }

  lemma {:induction false} LessAfterPrefix(p: seq<byte>, a: seq<byte>, b: seq<byte>)
    ensures Less(p + a, p + b) == Less(a, b)
  {
    if p == [] {
      assert p + a == a && p + b == b;
    } else {
      LessAfterPrefix(p[1..], a, b);
      assert (p + a)[1..] == p[1..] + a && (p + b)[1..] == p[1..] + b;
    }
  }

  /** The loop of compareUtf8 decides the order above. */
  method CompareUtf8(a: seq<byte>, b: seq<byte>) returns (order: int)
    ensures order < 0 <==> Less(a, b)
    ensures order > 0 <==> Less(b, a)
    ensures order == 0 <==> a == b
  {
    var shared := if |a| < |b| then |a| else |b|;
    var i := 0;
    while i < shared
      invariant 0 <= i <= shared
      invariant a[..i] == b[..i]
    {
      if a[i] != b[i] {
        assert a == a[..i] + a[i..] && b == a[..i] + b[i..];
        LessAfterPrefix(a[..i], a[i..], b[i..]);
        LessAfterPrefix(a[..i], b[i..], a[i..]);
        return if a[i] < b[i] then -1 else 1;
      }
      i := i + 1;
    }
    assert a == a[..i] + a[i..] && b == a[..i] + b[i..];
    LessAfterPrefix(a[..i], a[i..], b[i..]);
    LessAfterPrefix(a[..i], b[i..], a[i..]);
    return if |a| == |b| then 0 else if |a| < |b| then -1 else 1;
  }

  type Digest = s: seq<byte> | |s| == 32 witness seq(32, _ => 0)

  /** The hash tells the given inputs apart. */
  ghost predicate CollisionFree(hash: seq<byte> -> Digest, inputs: set<seq<byte>>) {
    forall x, y :: x in inputs && y in inputs && hash(x) == hash(y) ==> x == y
  }
}
