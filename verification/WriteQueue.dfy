/** The queue of pending writes of a connection, as values. */
module WriteQueue {
  import opened Common
  import opened Bytes

  /** A queued buffer; `id` stands for its completion callback. */
  datatype WriteMeta = WriteMeta(id: nat, buffer: seq<byte>, offset: nat)

  const IOV_MAX: nat := 1024

  ghost predicate Sound(m: WriteMeta) {
    m.offset <= |m.buffer|
  }

  /** Only the front buffer may be partly sent. */
  ghost predicate SoundQueue(q: seq<WriteMeta>) {
    && (forall i :: 0 <= i < |q| ==> Sound(q[i]))
    && (forall i :: 1 <= i < |q| ==> q[i].offset == 0)
  }

  function Rest(m: WriteMeta): seq<byte> {
    if m.offset <= |m.buffer| then m.buffer[m.offset..] else []
  }

  /** The bytes still to be sent. */
  function Unsent(q: seq<WriteMeta>): seq<byte> {
    if q == [] then [] else Rest(q[0]) + Unsent(q[1..])
  }

  /** All bytes of these buffers. */
  function AllBytes(q: seq<WriteMeta>): seq<byte> {
    if q == [] then [] else q[0].buffer + AllBytes(q[1..])
  }

  function Min(a: nat, b: nat): nat {
    if a < b then a else b
  }

  /** What one `writev` offers to the kernel. */
  function Offered(q: seq<WriteMeta>): seq<byte> {
    Unsent(q[..Min(|q|, IOV_MAX)])
  }

  lemma {:induction false} UnsentAppend(a: seq<WriteMeta>, b: seq<WriteMeta>)
    ensures Unsent(a + b) == Unsent(a) + Unsent(b)
  {
    hide Rest;
    if a == [] {
      assert a + b == b && Unsent(a) == [];
    } else {
      UnsentAppend(a[1..], b);
      assert (a + b)[1..] == a[1..] + b;
      Assoc(Rest(a[0]), Unsent(a[1..]), Unsent(b));
    }
  }

  lemma {:induction false} AllBytesAppend(a: seq<WriteMeta>, b: seq<WriteMeta>)
    ensures AllBytes(a + b) == AllBytes(a) + AllBytes(b)
  {
    if a == [] {
      assert a + b == b && AllBytes(a) == [];
    } else {
      AllBytesAppend(a[1..], b);
      assert (a + b)[1..] == a[1..] + b;
      Assoc(a[0].buffer, AllBytes(a[1..]), AllBytes(b));
    }
  }

  lemma {:induction false} Snoc(q: seq<WriteMeta>, m: WriteMeta)
    ensures Unsent(q + [m]) == Unsent(q) + Rest(m)
    ensures AllBytes(q + [m]) == AllBytes(q) + m.buffer
  {
    UnsentAppend(q, [m]);
    AllBytesAppend(q, [m]);
    assert [m][1..] == [];
    assert Unsent([m]) == Rest(m) + [];
    assert AllBytes([m]) == m.buffer + [];
  }

  lemma {:induction false} UnsentOfFresh(q: seq<WriteMeta>)
    requires forall i :: 0 <= i < |q| ==> q[i].offset == 0
    ensures Unsent(q) == AllBytes(q)
  {
    if q != [] {
      UnsentOfFresh(q[1..]);
      assert Rest(q[0]) == q[0].buffer;
    }
  }

  /** What is offered begins what is unsent. */
  lemma {:induction false} OfferedIsPrefix(q: seq<WriteMeta>)
    ensures Offered(q) <= Unsent(q)
  {
    var k := Min(|q|, IOV_MAX);
    assert q == q[..k] + q[k..];
    UnsentAppend(q[..k], q[k..]);
  }

  /** The queue after `n` of its bytes have been sent. */
  function Advance(q: seq<WriteMeta>, n: nat): (r: seq<WriteMeta>)
    ensures |r| <= |q|
    decreases |q|
  {
    if q == [] || n == 0 then q
    else if n >= |Rest(q[0])| then Advance(q[1..], n - |Rest(q[0])|)
    else [q[0].(offset := q[0].offset + n)] + q[1..]
  }

  lemma AdvanceStep(q: seq<WriteMeta>, n: nat)
    ensures q == [] || n == 0 ==> Advance(q, n) == q
    ensures q != [] && n > 0 && n >= |Rest(q[0])| ==> Advance(q, n) == Advance(q[1..], n - |Rest(q[0])|)
    ensures q != [] && 0 < n < |Rest(q[0])| ==> Advance(q, n) == [q[0].(offset := q[0].offset + n)] + q[1..]
  {
  }

  /** Sending takes exactly the first `n` bytes off, at whatever boundary they end. */
  lemma {:induction false} AdvanceSends(q: seq<WriteMeta>, n: nat)
    requires SoundQueue(q) && n <= |Unsent(q)|
    ensures SoundQueue(Advance(q, n)) && Unsent(Advance(q, n)) == Unsent(q)[n..]
    decreases |q|
  {
    AdvanceStep(q, n);
    hide Advance, Rest;
    if q == [] || n == 0 {
    } else if n >= |Rest(q[0])| {
      AdvanceSends(q[1..], n - |Rest(q[0])|);
      hide SoundQueue;
      DropMore(Rest(q[0]), Unsent(q[1..]), n);
    } else {
      PartOfFirst(q, n);
    }
  }

  lemma DropMore(a: seq<byte>, b: seq<byte>, n: nat)
    requires |a| <= n <= |a| + |b|
    ensures (a + b)[n..] == b[n - |a|..]
  {
  }

  lemma {:induction false} PartOfFirst(q: seq<WriteMeta>, n: nat)
    requires SoundQueue(q) && q != [] && 0 < n < |Rest(q[0])|
    ensures var r := [q[0].(offset := q[0].offset + n)] + q[1..];
      SoundQueue(r) && Unsent(r) == Unsent(q)[n..]
  {
    var m := q[0].(offset := q[0].offset + n);
    var r := [m] + q[1..];
    RestOfPart(q[0], n);
    hide Rest;
    assert r[0] == m && r[1..] == q[1..];
    assert SoundQueue(r);
    hide SoundQueue;
    DropPart(Rest(q[0]), Unsent(q[1..]), n);
  }

  lemma RestOfPart(m: WriteMeta, n: nat)
    requires n < |Rest(m)|
    ensures Rest(m.(offset := m.offset + n)) == Rest(m)[n..] && m.offset + n <= |m.buffer|
  {
  }

  lemma DropPart(a: seq<byte>, b: seq<byte>, n: nat)
    requires n <= |a|
    ensures (a + b)[n..] == a[n..] + b
  {
  }

  /** Every queued buffer has unsent bytes. */
  ghost predicate Pending(q: seq<WriteMeta>) {
    forall i :: 0 <= i < |q| ==> q[i].offset < |q[i].buffer|
  }

  lemma {:induction false} AdvanceKeepsPending(q: seq<WriteMeta>, n: nat)
    requires Pending(q)
    ensures Pending(Advance(q, n))
    decreases |q|
  {
    if q != [] && n >= |Rest(q[0])| {
      AdvanceKeepsPending(q[1..], n - |Rest(q[0])|);
    }
  }

  /** The same buffers with the same callbacks, however much of them is sent. */
  ghost predicate SameWrites(a: seq<WriteMeta>, b: seq<WriteMeta>) {
    |a| == |b| && forall i :: 0 <= i < |a| ==> a[i].id == b[i].id && a[i].buffer == b[i].buffer
  }

  /** The buffers that leave the queue are a prefix of it, and the others keep their identity. */
  lemma {:induction false} AdvanceKeepsOrder(q: seq<WriteMeta>, n: nat)
    ensures SameWrites(Advance(q, n), q[|q| - |Advance(q, n)|..])
    decreases |q|
  {
    if q == [] || n == 0 {
    } else if n >= |Rest(q[0])| {
      var r := Advance(q[1..], n - |Rest(q[0])|);
      AdvanceKeepsOrder(q[1..], n - |Rest(q[0])|);
      assert q[1..][|q| - 1 - |r|..] == q[|q| - |r|..];
    } else {
      assert q[|q| - |q|..] == q;
    }
  }

  /** A buffer leaves exactly when its last byte and a byte of its own or a later one are sent. */
  lemma {:induction false} LeavesWhenSent(q: seq<WriteMeta>, n: nat, i: nat)
    requires i < |q|
    ensures i < |q| - |Advance(q, n)| <==> |Unsent(q[..i + 1])| <= n && |Unsent(q[..i])| < n
    decreases |q|
  {
    assert q[..i + 1][1..] == q[1..][..i];
    if q == [] || n == 0 {
    } else if n >= |Rest(q[0])| {
      if i > 0 {
        LeavesWhenSent(q[1..], n - |Rest(q[0])|, i - 1);
        assert q[..i][1..] == q[1..][..i - 1];
        assert q[1..][..i - 1 + 1] == q[1..][..i];
      }
    } else {
      assert |Unsent(q[..i + 1])| >= |Rest(q[0])|;
    }
  }
}
