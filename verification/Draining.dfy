/** Whether a queue of pending writes, some of which may be empty, can run empty. */
module Draining {
  import opened Bytes
  import opened WriteQueue
  import opened ConnectionSpec

  ghost predicate Blank(q: seq<WriteMeta>, i: nat)
    requires i < |q|
  {
    Rest(q[i]) == []
  }

  /** `IOV_MAX` buffers in a row, from `i` on, have no unsent bytes. */
  ghost predicate BlankStretch(q: seq<WriteMeta>, i: nat) {
    i + IOV_MAX <= |q| && forall j :: i <= j < i + IOV_MAX ==> Blank(q, j)
  }

  /** The last buffer has unsent bytes, and no `IOV_MAX` buffers in a row are without. */
  ghost predicate Drainable(q: seq<WriteMeta>) {
    q != [] ==> !Blank(q, |q| - 1) && forall i: nat :: !BlankStretch(q, i)
  }

  lemma {:induction false} BlankAfter(q: seq<WriteMeta>, n: nat, i: nat)
    requires i < |Advance(q, n)|
    ensures Blank(Advance(q, n), i) <==> Blank(q, |q| - |Advance(q, n)| + i)
    decreases |q|
  {
    hide *;
    AdvanceStep(q, n);
    if q != [] && n > 0 {
      var r := Advance(q, n);
      if n >= |Rest(q[0])| {
        BlankAfter(q[1..], n - |Rest(q[0])|, i);
        BlankBehind(q, |q| - 1 - |r| + i);
      } else {
        PartOfFront(q, n, i);
      }
    }
  }

  lemma BlankBehind(q: seq<WriteMeta>, i: nat)
    requires i + 1 < |q|
    ensures Blank(q[1..], i) <==> Blank(q, i + 1)
  {
  }

  lemma PartOfFront(q: seq<WriteMeta>, n: nat, i: nat)
    requires i < |q| && n < |Rest(q[0])|
    ensures var r := [q[0].(offset := q[0].offset + n)] + q[1..];
      Blank(r, i) <==> Blank(q, i)
  {
    assert i == 0 ==> Rest(q[0])[n..] == Rest(q[0].(offset := q[0].offset + n));
  }

  /** The buffers that stay have unsent bytes exactly if they had some before. */
  lemma AdvanceKeepsBlanks(q: seq<WriteMeta>, n: nat)
    ensures var r := Advance(q, n);
      forall i :: 0 <= i < |r| ==> (Blank(r, i) <==> Blank(q, |q| - |r| + i))
  {
    hide Blank, Advance;
    var r := Advance(q, n);
    forall i | 0 <= i < |r|
      ensures Blank(r, i) <==> Blank(q, |q| - |r| + i)
    {
      BlankAfter(q, n, i);
    }
  }

  lemma {:induction false} PrefixIsShorter(q: seq<WriteMeta>, i: nat, j: nat)
    requires i <= j <= |q|
    ensures |Unsent(q[..i])| <= |Unsent(q[..j])|
    ensures (forall k :: i <= k < j ==> Blank(q, k)) ==> |Unsent(q[..i])| == |Unsent(q[..j])|
  {
    assert q[..j] == q[..i] + q[i..j];
    UnsentAppend(q[..i], q[i..j]);
    if forall k :: i <= k < j ==> Blank(q, k) {
      UnsentEmptyIff(q[i..j]);
      forall k | 0 <= k < |q[i..j]|
        ensures Rest(q[i..j][k]) == []
      {
        assert Blank(q, i + k);
      }
    }
  }

  /** A blank stretch is never passed: one `writev` reaches no byte behind it. */
  lemma {:induction false} StretchStays(q: seq<WriteMeta>, n: nat, i: nat)
    requires BlankStretch(q, i) && n <= |Offered(q)|
    ensures |q| - |Advance(q, n)| <= i
    ensures BlankStretch(Advance(q, n), i - (|q| - |Advance(q, n)|))
  {
    var r := Advance(q, n);
    var k := |q| - |r|;
    AdvanceKeepsBlanks(q, n);
    LeavesWhenSent(q, n, i);
    assert Offered(q) == Unsent(q[..IOV_MAX]);
    if i <= IOV_MAX {
      PrefixIsShorter(q, i, IOV_MAX);
    } else {
      PrefixIsShorter(q, IOV_MAX, i);
    }
    hide Advance, Rest, Unsent, Offered;
    assert k <= i;
    forall j | i - k <= j < i - k + IOV_MAX
      ensures Blank(r, j)
    {
      assert Blank(q, k + j);
    }
  }

  /** An empty last buffer never leaves, because the loop stops when no sent bytes are left. */
  lemma {:induction false} LastStays(q: seq<WriteMeta>, n: nat)
    requires q != [] && Blank(q, |q| - 1) && n <= |Offered(q)|
    ensures var r := Advance(q, n); r != [] && Blank(r, |r| - 1)
  {
    AdvanceKeepsBlanks(q, n);
    LeavesWhenSent(q, n, |q| - 1);
    OfferedIsPrefix(q);
    PrefixIsShorter(q, |q| - 1, |q|);
    assert q[..|q|] == q;
  }

  lemma {:induction false} StretchWasThere(q: seq<WriteMeta>, n: nat, i: nat)
    requires BlankStretch(Advance(q, n), i)
    ensures BlankStretch(q, |q| - |Advance(q, n)| + i)
  {
    var r := Advance(q, n);
    var k := |q| - |r|;
    AdvanceKeepsBlanks(q, n);
    hide Advance, Blank;
    forall j | k + i <= j < k + i + IOV_MAX
      ensures Blank(q, j)
    {
      assert Blank(r, j - k);
    }
  }

  /** Whatever one `writev` sends, the queue can run empty afterwards exactly if it could before. */
  lemma {:induction false} SendKeepsDrainable(q: seq<WriteMeta>, n: nat)
    requires n <= |Offered(q)|
    ensures Drainable(Advance(q, n)) <==> Drainable(q)
  {
    var r := Advance(q, n);
    AdvanceKeepsBlanks(q, n);
    hide Advance, Offered, Blank, BlankStretch;
    if Drainable(q) && r != [] {
      forall i: nat
        ensures !BlankStretch(r, i)
      {
        if BlankStretch(r, i) {
          StretchWasThere(q, n, i);
        }
      }
    }
    if !Drainable(q) {
      if Blank(q, |q| - 1) {
        LastStays(q, n);
      } else {
        var i: nat :| BlankStretch(q, i);
        StretchStays(q, n, i);
        StretchIsNotEmpty(r, i - (|q| - |r|));
      }
    }
  }

  lemma StretchIsNotEmpty(q: seq<WriteMeta>, i: nat)
    requires BlankStretch(q, i)
    ensures q != [] && !Drainable(q)
  {
  }

  lemma {:induction false} NothingOffered(q: seq<WriteMeta>)
    requires q != [] && Offered(q) == []
    ensures !Drainable(q)
  {
    var k := Min(|q|, IOV_MAX);
    UnsentEmptyIff(q[..k]);
    hide Rest, Unsent;
    forall j | 0 <= j < k
      ensures Blank(q, j)
    {
      assert Rest(q[..k][j]) == [];
    }
    assert |q| > IOV_MAX ==> BlankStretch(q, 0);
  }

  /** While it can run empty and is not, there is something to offer. */
  lemma DrainableOffers(q: seq<WriteMeta>)
    requires Drainable(q) && q != []
    ensures Offered(q) != []
  {
    hide Drainable, Offered;
    if Offered(q) == [] {
      NothingOffered(q);
    }
  }

  // ----- runs of handleWrite -----

  ghost predicate OnlyWrites(ops: seq<Op>) {
    forall i :: 0 <= i < |ops| ==> ops[i].HandleWrite?
  }

  /** Some run of `handleWrite` empties the queue without failing the connection. */
  ghost predicate RunsEmpty(c: Conn) {
    exists ops :: OnlyWrites(ops) && CanRun(c, ops) && Run(c, ops).live && Run(c, ops).queue == []
  }

  lemma {:induction false} WriteKeepsDrainable(c: Conn, r: WriteResult)
    requires Possible(c, HandleWrite(r))
    ensures var d := Apply(c, HandleWrite(r));
      && (d.live && r != Failed ==> (Drainable(d.queue) <==> Drainable(c.queue)))
      && (d.live && r == Failed ==> d == c)
  {
    if r.Sent? {
      SendKeepsDrainable(c.queue, r.n);
    }
    ClosedIsClosed(c);
    hide Offered, Advance, Drainable, Callbacks, AfterClose, AfterFailAll, DrainedEpoll;
  }

  lemma {:induction false} RunKeepsDrainable(c: Conn, ops: seq<Op>)
    requires OnlyWrites(ops) && CanRun(c, ops) && Run(c, ops).live
    ensures Drainable(Run(c, ops).queue) <==> Drainable(c.queue)
    decreases |ops|
  {
    if ops != [] {
      var d := Apply(c, ops[0]);
      WriteKeepsDrainable(c, ops[0].r);
      if !d.live {
        ClosedStays(d, ops[1..]);
      }
      hide Apply, Possible, Drainable;
      assert forall i :: 0 <= i < |ops[1..]| ==> ops[1..][i] == ops[i + 1];
      RunKeepsDrainable(d, ops[1..]);
    }
  }

  lemma {:induction false} SendAllOffered(c: Conn)
    requires Inv(c) && c.live && Drainable(c.queue) && c.queue != []
    ensures var op := HandleWrite(Sent(|Offered(c.queue)|));
      var d := Apply(c, op);
      && Possible(c, op) && Inv(d) && d.live && Drainable(d.queue) && |Unsent(d.queue)| < |Unsent(c.queue)|
  {
    DrainableOffers(c.queue);
    var n := |Offered(c.queue)|;
    var op := HandleWrite(Sent(n));
    ApplyKeepsInv(c, op);
    WriteKeepsDrainable(c, Sent(n));
    OfferedIsPrefix(c.queue);
    AdvanceSends(c.queue, n);
    hide Offered, Unsent, Advance, Inv, Drainable, Callbacks, DrainedEpoll;
  }

  lemma {:induction false} Drain(c: Conn) returns (ops: seq<Op>)
    requires Inv(c) && c.live && Drainable(c.queue)
    ensures OnlyWrites(ops) && CanRun(c, ops) && Run(c, ops).live && Run(c, ops).queue == []
    decreases |Unsent(c.queue)|
  {
    if c.queue == [] {
      ops := [];
    } else {
      SendAllOffered(c);
      var op := HandleWrite(Sent(|Offered(c.queue)|));
      hide Inv, Drainable, Possible, Apply, Unsent, Offered;
      var rest := Drain(Apply(c, op));
      ops := [op] + rest;
      assert ops[1..] == rest;
    }
  }

  /**
   * Exactly when a queue can run empty: if it is empty, or its last buffer has unsent
   * bytes and no `IOV_MAX` buffers in a row are without.
   */
  lemma {:induction false} RunsEmptyIff(c: Conn)
    requires Inv(c) && c.live
    ensures RunsEmpty(c) <==> Drainable(c.queue)
  {
    hide Inv, CanRun, Run;
    if Drainable(c.queue) {
      var ops := Drain(c);
    } else if RunsEmpty(c) {
      var ops :| OnlyWrites(ops) && CanRun(c, ops) && Run(c, ops).live && Run(c, ops).queue == [];
      RunKeepsDrainable(c, ops);
    }
  }

  /** Such a queue is empty as soon as its last byte has been sent, however it was sent. */
  lemma {:induction false} EmptyWhenAllSent(c: Conn, ops: seq<Op>)
    requires Drainable(c.queue) && OnlyWrites(ops) && CanRun(c, ops) && Run(c, ops).live
    ensures Unsent(Run(c, ops).queue) == [] ==> Run(c, ops).queue == []
  {
    RunKeepsDrainable(c, ops);
    hide CanRun, Run, Drainable, Unsent, Offered;
    var q := Run(c, ops).queue;
    if q != [] {
      DrainableOffers(q);
      OfferedIsPrefix(q);
    }
  }

  /** Buffers that all have bytes, as commands and responses do, always drain. */
  lemma NoBlanksDrain(q: seq<WriteMeta>)
    requires forall i :: 0 <= i < |q| ==> !Blank(q, i)
    ensures Drainable(q)
  {
    forall i: nat
      ensures !BlankStretch(q, i)
    {
      if i + IOV_MAX <= |q| {
        assert !Blank(q, i);
      }
    }
  }

  // ----- an empty buffer behind one byte, and one byte behind an empty buffer -----

  const ONE: WriteMeta := WriteMeta(0, [7], 0)
  const NONE: WriteMeta := WriteMeta(1, [], 0)
  const ANOTHER: WriteMeta := WriteMeta(2, [8], 0)

  lemma UnsentOfOne()
    ensures Offered([ONE, NONE]) == [7] && Offered([NONE, ANOTHER]) == [8]
    ensures |AllBytes([ONE, NONE])| == 1 && |AllBytes([ANOTHER])| == 1
  {
    assert [ONE, NONE][1..] == [NONE] && [NONE][1..] == [] && [NONE, ANOTHER][1..] == [ANOTHER] && [ANOTHER][1..] == [];
    assert [ONE, NONE][..2] == [ONE, NONE] && [NONE, ANOTHER][..2] == [NONE, ANOTHER];
    assert Unsent([NONE]) == [] + Unsent([]) && Unsent([ANOTHER]) == [8] + Unsent([]);
    assert Unsent([NONE, ANOTHER]) == [] + Unsent([ANOTHER]) && Unsent([ONE, NONE]) == [7] + Unsent([NONE]);
    assert AllBytes([NONE]) == [] + AllBytes([]) && AllBytes([ANOTHER]) == [8] + AllBytes([]);
    assert AllBytes([ONE, NONE]) == [7] + AllBytes([NONE]);
  }

  const STUCK_RUN: seq<Op> := [Write([ONE, NONE])] + ([HandleWrite(Sent(1))] + [])

  /**
   * One byte and an empty buffer: the byte is sent and reported, the empty buffer stays in
   * the queue and is never reported by any run of `handleWrite`.
   */
  lemma {:induction false} EmptyBufferStays()
    ensures CanRun(READING_CONN, STUCK_RUN)
    ensures var c := Run(READING_CONN, STUCK_RUN);
      && c.live && c.queue == [NONE] && c.callbacks == [Callback(0, true)] && !RunsEmpty(c)
  {
    NewHasInv();
    UnsentOfOne();
    var c := AfterWrite(READING_CONN, [ONE, NONE]);
    assert c.queue == [ONE, NONE] && c.live && c.callbacks == [];
    var d := AfterSent(c, 1);
    assert [ONE, NONE][1..] == [NONE];
    assert Advance([ONE, NONE], 1) == [NONE];
    assert Callbacks([ONE, NONE][..1], true) == [Callback(0, true)] by {
      assert [ONE, NONE][..1] == [ONE] && [ONE][1..] == [];
    }
    hide Offered, Advance, Callbacks, AllBytes, Unsent, Inv, AfterWrite, AfterSent, Drainable;
    RunNothing(d);
    RunFirst(c, HandleWrite(Sent(1)), d, []);
    RunFirst(READING_CONN, Write([ONE, NONE]), c, [HandleWrite(Sent(1))] + []);
    RunKeepsInv(READING_CONN, STUCK_RUN);
    RunsEmptyIff(d);
    NoneIsStuck();
  }

  lemma NoneIsStuck()
    ensures !Drainable([NONE])
  {
    assert Blank([NONE], 0);
  }

  /** But a byte that is written behind it takes the empty buffer along. */
  lemma {:induction false} LaterByteFreesIt()
    ensures Drainable([NONE, ANOTHER]) && Offered([NONE, ANOTHER]) == [8] && Advance([NONE, ANOTHER], 1) == []
  {
    var q := [NONE, ANOTHER];
    UnsentOfOne();
    assert q[1..] == [ANOTHER] && [ANOTHER][1..] == [];
    assert Rest(NONE) == [] && Rest(ANOTHER) == [8];
    AdvanceStep(q, 1);
    AdvanceStep([ANOTHER], 1);
    assert Advance([], 0) == [];
    assert !Blank(q, 1) && |q| == 2;
    hide Advance, Offered;
    assert forall i: nat :: !BlankStretch(q, i);
  }
}
