/**
 * Request frames of the RPC protocol: what `build_packet` in the client produces and
 * what the server's parser must accept.
 */
module RpcFrame {
  import opened Common
  import opened Bytes

  const MAGIC0: byte := 0x0a
  const MAGIC1: byte := 0x0b
  const MAGIC2: byte := 0x0c

  const REQUEST: byte := 1
  const RESPONSE: byte := 2
  const REQ_ERROR: byte := 3

  datatype Message = Message(id: nat, service: seq<byte>, func: seq<byte>, params: seq<byte>)
  {
    /** What the packet builder asserts of its arguments. */
    ghost predicate Encodable() {
      && 0 < id < Pow256(8)
      && |service| < 0x100
      && |func| < 0x100
      && |params| < Pow256(4)
    }
  }

  /** Everything up to and including the request id. */
  function Head(id: nat): (s: seq<byte>)
    ensures |s| == 11
  {
    [MAGIC0, MAGIC1, REQUEST] + Be(id, 8)
  }

  /** A length byte and the name it announces. */
  function Name(s: seq<byte>): (r: seq<byte>)
    requires |s| < 0x100
    ensures |r| == |s| + 1
  {
    [|s|] + s
  }

  /** Everything before the closing two bytes. */
  function Body(m: Message): seq<byte>
    requires |m.service| < 0x100 && |m.func| < 0x100
  {
    Head(m.id) + [0] + Name(m.service) + Name(m.func) + Be(|m.params|, 4) + m.params
  }

  function Packet(m: Message): seq<byte>
    requires |m.service| < 0x100 && |m.func| < 0x100
  {
    Body(m) + [MAGIC1, MAGIC2]
  }

  /** `build_packet`; `None` where the client's assertions (or `struct.pack`) raise. */
  method BuildPacket(m: Message) returns (pkt: Option<seq<byte>>)
    ensures m.Encodable() ==> pkt == Some(Packet(m))
    ensures !m.Encodable() ==> pkt == None
  {
    Widths();
    if !(0 < m.id <= 0xFFFF_FFFF_FFFF_FFFF) || |m.service| > 0xFF || |m.func| > 0xFF || |m.params| > 0xFFFF_FFFF {
      return None;
    }
    var p := [MAGIC0, MAGIC1];
    p := p + [REQUEST];
    p := AppendBe(p, m.id, 8);
    assert p == Head(m.id);
    p := p + [0];
    p := p + [|m.service|];
    p := p + m.service;
    assert p == Head(m.id) + [0] + Name(m.service);
    p := p + [|m.func|];
    p := p + m.func;
    assert p == Head(m.id) + [0] + Name(m.service) + Name(m.func);
    p := AppendBe(p, |m.params|, 4);
    p := p + m.params;
    p := p + [MAGIC1, MAGIC2];
    return Some(p);
  }

  /** Where each field of a packet sits. */
  ghost predicate HasLayout(p: seq<byte>, m: Message) {
    var ls, lf, lp := |m.service|, |m.func|, |m.params|;
    && |p| == 20 + ls + lf + lp
    && p[0] == MAGIC0 && p[1] == MAGIC1 && p[2] == REQUEST
    && p[3..11] == Be(m.id, 8)
    && p[11] == 0
    && p[12] == ls
    && p[13..13 + ls] == m.service
    && p[13 + ls] == lf
    && p[14 + ls..14 + ls + lf] == m.func
    && p[14 + ls + lf..18 + ls + lf] == Be(lp, 4)
    && p[18 + ls + lf..18 + ls + lf + lp] == m.params
    && p[18 + ls + lf + lp] == MAGIC1
    && p[19 + ls + lf + lp] == MAGIC2
  }

  lemma PacketHasLayout(m: Message)
    requires |m.service| < 0x100 && |m.func| < 0x100
    ensures HasLayout(Packet(m), m)
  {
  }

  /** One packet, byte by byte. */
  lemma PacketSpelled()
    ensures Packet(Message(258, [115, 118], [102], [9])) ==
      [10, 11, 1, 0, 0, 0, 0, 0, 0, 1, 2, 0, 2, 115, 118, 1, 102, 0, 0, 0, 1, 9, 11, 12]
  {
    NumbersSpelled();
    hide Be;
    var m := Message(258, [115, 118], [102], [9]);
    assert Head(258) == [10, 11, 1, 0, 0, 0, 0, 0, 0, 1, 2];
    assert Name(m.service) == [2, 115, 118] && Name(m.func) == [1, 102];
    hide Head, Name;
    assert Body(m) == [10, 11, 1, 0, 0, 0, 0, 0, 0, 1, 2] + [0] + [2, 115, 118] + [1, 102] + [0, 0, 0, 1] + [9];
    hide Body;
  }

  /** Numbers in the fields of ids and lengths. */
  lemma NumbersSpelled()
    ensures Be(258, 8) == [0, 0, 0, 0, 0, 0, 1, 2] && Be(1, 4) == [0, 0, 0, 1] && Be(0, 4) == [0, 0, 0, 0]
  {
    assert Be(0, 3) == [0, 0, 0];
    assert Be(0, 4) == [0, 0, 0, 0] && Be(1, 4) == [0, 0, 0, 1];
    hide Be;
    WiderBe(258, 7);
    WiderBe(1, 6);
    WiderBe(0, 5);
    WiderBe(0, 4);
  }

  lemma WiderBe(v: nat, n: nat)
    ensures Be(v, n + 1) == Be(v / 256, n) + [v % 256]
  {
  }

  /** `p` and `q` have the same first `k` bytes. */
  ghost predicate Agree(p: seq<byte>, q: seq<byte>, k: nat) {
    k <= |p| && k <= |q| && forall i :: 0 <= i < k ==> p[i] == q[i]
  }

  lemma SliceAgrees(p: seq<byte>, q: seq<byte>, k: nat, a: nat, b: nat)
    requires Agree(p, q, k) && a <= b <= k
    ensures p[a..b] == q[a..b]
  {
  }

  lemma BeInjective(v: nat, w: nat, n: nat)
    requires v < Pow256(n) && w < Pow256(n) && Be(v, n) == Be(w, n)
    ensures v == w
  {
    FromBeOfBe(v, n);
    FromBeOfBe(w, n);
  }

  lemma NamesAgree(p: seq<byte>, m: Message, q: seq<byte>, n: Message, k: nat)
    requires m.Encodable() && n.Encodable() && HasLayout(p, m) && HasLayout(q, n)
    requires Agree(p, q, k) && 14 + |m.service| + |m.func| <= k
    ensures m.id == n.id && m.service == n.service && m.func == n.func
  {
    SliceAgrees(p, q, k, 3, 11);
    BeInjective(m.id, n.id, 8);
    assert |m.service| == |n.service|;
    SliceAgrees(p, q, k, 13, 13 + |m.service|);
    assert |m.func| == |n.func|;
    SliceAgrees(p, q, k, 14 + |m.service|, 14 + |m.service| + |m.func|);
  }

  /**
   * Two packets that agree up to the parameter length of the first agree on every
   * length, hence on where every field sits.
   */
  lemma LayoutAgrees(p: seq<byte>, m: Message, q: seq<byte>, n: Message, k: nat)
    requires m.Encodable() && n.Encodable() && HasLayout(p, m) && HasLayout(q, n)
    requires Agree(p, q, k) && 18 + |m.service| + |m.func| <= k
    ensures m.id == n.id && m.service == n.service && m.func == n.func && |m.params| == |n.params|
  {
    NamesAgree(p, m, q, n, k);
    SliceAgrees(p, q, k, 14 + |m.service| + |m.func|, 18 + |m.service| + |m.func|);
    BeInjective(|m.params|, |n.params|, 4);
  }

  /** The encoding is injective and no packet is a proper prefix of another. */
  lemma PacketPrefixFree(m: Message, n: Message)
    requires m.Encodable() && n.Encodable()
    requires Packet(m) <= Packet(n)
    ensures m == n
  {
    PacketHasLayout(m);
    PacketHasLayout(n);
    var p, q := Packet(m), Packet(n);
    hide Packet;
    LayoutAgrees(p, m, q, n, |p|);
    var k := 18 + |m.service| + |m.func|;
    SliceAgrees(p, q, |p|, k, k + |m.params|);
  }
}
