/** Bytes and the big-endian integers of the RPC wire format. */
module Bytes {
  import opened Common

  type byte = b: int | 0 <= b < 256

  function Pow256(n: nat): (p: nat)
    ensures p > 0
  {
    if n == 0 then 1 else 256 * Pow256(n - 1)
  }

  /** The low `n` bytes of `v`, most significant first. */
  function Be(v: nat, n: nat): (s: seq<byte>)
    ensures |s| == n
  {
    if n == 0 then [] else Be(v / 256, n - 1) + [v % 256]
  }

  /** The number that `s` spells, most significant byte first. */
  function FromBe(s: seq<byte>): (v: nat)
    ensures v < Pow256(|s|)
  {
    if s == [] then 0 else 256 * FromBe(s[..|s| - 1]) + s[|s| - 1]
  }

  /** Encoding then decoding a number that fits gives it back. */
  lemma {:induction false} FromBeOfBe(v: nat, n: nat)
    requires v < Pow256(n)
    ensures FromBe(Be(v, n)) == v
  {
    if n > 0 {
      FromBeOfBe(v / 256, n - 1);
      var s := Be(v, n);
      assert s[..n - 1] == Be(v / 256, n - 1);
    }
  }

  /** Decoding then encoding gives the same bytes back. */
  lemma {:induction false} BeOfFromBe(s: seq<byte>)
    ensures Be(FromBe(s), |s|) == s
  {
    if s != [] {
      BeOfFromBe(s[..|s| - 1]);
      assert FromBe(s) / 256 == FromBe(s[..|s| - 1]);
      assert s == s[..|s| - 1] + [s[|s| - 1]];
    }
  }

  /** Most significant byte first. */
  lemma BigEndian()
    ensures Be(0x0102_0304, 4) == [1, 2, 3, 4] && FromBe([1, 2, 3, 4]) == 0x0102_0304
  {
    assert Be(0x0102_0304, 4) == [1, 2, 3, 4];
    assert 0x0102_0304 < Pow256(4) by { Widths(); }
    FromBeOfBe(0x0102_0304, 4);
  }

  lemma Widths()
    ensures Pow256(1) == 0x100 && Pow256(4) == 0x1_0000_0000 && Pow256(8) == 0x1_0000_0000_0000_0000
  {
    assert Pow256(2) == 0x1_0000;
    assert Pow256(3) == 0x100_0000;
    assert Pow256(4) == 0x1_0000_0000;
    assert Pow256(5) == 0x100_0000_0000;
    assert Pow256(6) == 0x1_0000_0000_0000;
    assert Pow256(7) == 0x100_0000_0000_0000;
  }

  /** `v >> 8 * k`. */
  function Shr(v: nat, k: nat): nat {
    if k == 0 then v else Shr(v / 256, k - 1)
  }

  lemma {:induction false} ShrStep(v: nat, k: nat)
    ensures Shr(v, k) / 256 == Shr(v, k + 1)
  {
    if k > 0 {
      ShrStep(v / 256, k - 1);
    }
  }

  /** `append_u64_be` and `append_u32_be`: one byte per shift, highest first. */
  method AppendBe(out: seq<byte>, v: nat, n: nat) returns (r: seq<byte>)
    ensures r == out + Be(v, n)
  {
    r := out;
    var k: nat := n;
    while k > 0
      invariant k <= n
      invariant r == out + Be(Shr(v, k), n - k)
    {
      k := k - 1;
      ShrStep(v, k);
      r := r + [Shr(v, k) % 256];
    }
  }

  /** `read_u64_be` and `read_u32_be`: shift in one byte after another. */
  method ReadBe(p: seq<byte>) returns (v: nat)
    ensures v == FromBe(p)
  {
    v := 0;
    for i := 0 to |p|
      invariant v == FromBe(p[..i])
    {
      assert p[..i + 1][..i] == p[..i];
      v := 256 * v + p[i];
    }
    assert p[..|p|] == p;
  }

  /** The concatenation of a list of byte strings. */
  function Concat(parts: seq<seq<byte>>): seq<byte> {
    if parts == [] then [] else parts[0] + Concat(parts[1..])
  }

  lemma {:induction false} ConcatAppend(a: seq<seq<byte>>, b: seq<seq<byte>>)
    ensures Concat(a + b) == Concat(a) + Concat(b)
  {
    if a == [] {
      assert a + b == b;
    } else {
      ConcatAppend(a[1..], b);
      assert (a + b)[1..] == a[1..] + b;
      Assoc(a[0], Concat(a[1..]), Concat(b));
    }
  }

  lemma {:induction false} ConcatSnoc(a: seq<seq<byte>>, b: seq<byte>)
    ensures Concat(a + [b]) == Concat(a) + b
  {
    ConcatAppend(a, [b]);
    var one: seq<seq<byte>> := [b];
    assert one[1..] == [];
    assert Concat(one) == b + [];
  }

  ghost predicate EndsWith(s: seq<byte>, t: seq<byte>) {
    |t| <= |s| && s[|s| - |t|..] == t
  }
}
