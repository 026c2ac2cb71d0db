/**
 * What the frame automaton means.  A parser state stands for the bytes of the frame it
 * is in the middle of; a byte is accepted exactly when those bytes and it can still be
 * continued to a packet, and a request is delivered exactly when they are one.
 */
module RpcMeaning {
  import opened Bytes
  import opened RpcFrame
  import opened RpcAutomaton

  /** The bytes of the unfinished frame. */
  function Partial(s: Snapshot): seq<byte>
    requires |s.service| < 0x100 && |s.func| < 0x100
  {
    match s.status
    case Soa => []
    case Sob => [MAGIC0]
    case FrameType => [MAGIC0, MAGIC1]
    case RequestId => [MAGIC0, MAGIC1, REQUEST] + s.buffer
    case ErrorCode => Head(s.id)
    case ServiceLen => Head(s.id) + [0]
    case ServiceName => Head(s.id) + [0] + s.buffer + s.service
    case FuncLen => Head(s.id) + [0] + Name(s.service)
    case FuncName => Head(s.id) + [0] + Name(s.service) + s.buffer + s.func
    case ParamLen => Head(s.id) + [0] + Name(s.service) + Name(s.func) + s.buffer
    case ParamString => Head(s.id) + [0] + Name(s.service) + Name(s.func) + s.buffer + s.params
    case Eob => Body(Message(s.id, s.service, s.func, s.params))
    case Eoc => Body(Message(s.id, s.service, s.func, s.params)) + [MAGIC1]
  }

  /** `p` can be continued to a packet. */
  ghost predicate Viable(p: seq<byte>) {
    exists m: Message :: m.Encodable() && p <= Packet(m)
  }

  /** The first bytes of a frame that the parser discards are looked at again here. */
  predicate LooksAgain(st: Status) {
    st in {Sob, Eob, Eoc}
  }

  function Fill(n: nat, b: byte): (s: seq<byte>)
    ensures |s| == n
  {
    seq(n, _ => b)
  }

  /** Some packet that continues the unfinished frame. */
  function Continuation(s: Snapshot): Message
    requires Valid(s)
  {
    match s.status
    case Soa | Sob | FrameType => Message(1, [], [], [])
    case RequestId => Message(FromBe(s.buffer + Fill(8 - |s.buffer|, 1)), [], [], [])
    case ServiceName => Message(s.id, s.service + Fill(s.buffer[0] - |s.service|, 0), [], [])
    case FuncName => Message(s.id, s.service, s.func + Fill(s.buffer[0] - |s.func|, 0), [])
    case ParamLen => Message(s.id, s.service, s.func, Fill(FromBe(s.buffer + Fill(4 - |s.buffer|, 0)), 0))
    case ParamString => Message(s.id, s.service, s.func, s.params + Fill(FromBe(s.buffer) - |s.params|, 0))
    case _ => Message(s.id, s.service, s.func, s.params)
  }

  lemma {:induction false} ContinuationOfId(s: Snapshot)
    requires Valid(s) && s.status == RequestId
    ensures Continuation(s).Encodable() && Partial(s) <= Packet(Continuation(s))
  {
    Widths();
    var full := s.buffer + Fill(8 - |s.buffer|, 1);
    BeOfFromBe(full);
    assert full[|full| - 1] == 1;
    var m := Continuation(s);
    assert m.Encodable();
    hide Be, FromBe;
    assert Packet(m) == [MAGIC0, MAGIC1, REQUEST] + s.buffer
      + (Fill(8 - |s.buffer|, 1) + [0] + Name([]) + Name([]) + Be(0, 4) + [MAGIC1, MAGIC2]);
  }

  lemma ContinuationOfService(s: Snapshot)
    requires Valid(s) && s.status == ServiceName
    ensures Continuation(s).Encodable() && Partial(s) <= Packet(Continuation(s))
  {
    Widths();
    var m := Continuation(s);
    assert Packet(m) == Partial(s)
      + (Fill(s.buffer[0] - |s.service|, 0) + Name(m.func) + Be(|m.params|, 4) + m.params + [MAGIC1, MAGIC2]);
  }

  lemma ContinuationOfFunc(s: Snapshot)
    requires Valid(s) && s.status == FuncName
    ensures Continuation(s).Encodable() && Partial(s) <= Packet(Continuation(s))
  {
    Widths();
    var m := Continuation(s);
    assert Packet(m) == Partial(s)
      + (Fill(s.buffer[0] - |s.func|, 0) + Be(|m.params|, 4) + m.params + [MAGIC1, MAGIC2]);
  }

  lemma ContinuationOfParams(s: Snapshot)
    requires Valid(s) && s.status in {ParamLen, ParamString}
    ensures Continuation(s).Encodable() && Partial(s) <= Packet(Continuation(s))
  {
    Widths();
    var m := Continuation(s);
    if s.status == ParamLen {
      var full := s.buffer + Fill(4 - |s.buffer|, 0);
      BeOfFromBe(full);
      assert FromBe(full) < Pow256(4);
      assert Be(|m.params|, 4) == full;
    } else {
      BeOfFromBe(s.buffer);
      assert FromBe(s.buffer) < Pow256(4);
      assert |m.params| == FromBe(s.buffer);
      assert Be(|m.params|, 4) == s.buffer;
    }
  }

  lemma PartialIsShort(s: Snapshot)
    requires Valid(s)
    ensures Continuation(s).Encodable() && Partial(s) <= Packet(Continuation(s))
    ensures |Partial(s)| < |Packet(Continuation(s))|
  {
    Widths();
    if s.status == RequestId {
      ContinuationOfId(s);
    } else if s.status == ServiceName {
      ContinuationOfService(s);
    } else if s.status == FuncName {
      ContinuationOfFunc(s);
    } else if s.status in {ParamLen, ParamString} {
      ContinuationOfParams(s);
    }
  }

  /** No state the parser can be in is a dead end. */
  lemma PartialIsViable(s: Snapshot)
    requires Valid(s)
    ensures Viable(Partial(s))
  {
    PartialIsShort(s);
  }

  lemma SettleKeepsPartial(s: Snapshot)
    requires Valid(s)
    ensures Partial(Settle(s)) == Partial(s)
  {
    if Gathers(s.status) && Need(s) == 0 {
      EmptyField(s);
      assert Settle(s) == Finish(s).next;
    } else {
      assert Settle(s) == s;
    }
  }

  lemma EmptyField(s: Snapshot)
    requires Valid(s) && Gathers(s.status) && Need(s) == 0
    ensures var t := Finish(s).next; |t.service| < 0x100 && |t.func| < 0x100 && Partial(t) == Partial(s)
  {
    if s.status == ParamString {
      BeOfFromBe(s.buffer);
      hide Valid, Be, FromBe, Name, Head;
      assert Partial(s) == Partial(Finish(s).next);
    } else {
      assert s.status in {ServiceName, FuncName};
      assert s.buffer == [0];
      hide Valid, Head;
      assert Partial(s) == Partial(Finish(s).next);
    }
  }

  lemma GatherExtends(t: Snapshot, b: byte)
    requires Valid(t) && Gathers(t.status) && |Gathered(t)| < Need(t)
    ensures var g := Gather(t, [b]); |g.service| < 0x100 && |g.func| < 0x100 && Partial(g) == Partial(t) + [b]
  {
  }

  lemma FinishedId(g: Snapshot)
    requires g.status == RequestId && |g.buffer| == 8 && FromBe(g.buffer) != 0 && |g.service| < 0x100 && |g.func| < 0x100
    ensures Partial(Finish(g).next) == Partial(g)
  {
    BeOfFromBe(g.buffer);
    hide Be, FromBe;
  }

  lemma FinishedName(g: Snapshot)
    requires g.status in {ServiceName, FuncName} && |g.service| < 0x100 && |g.func| < 0x100
    requires g.buffer == [if g.status == ServiceName then |g.service| else |g.func|]
    ensures Partial(Finish(g).next) == Partial(g)
  {
    hide Head;
  }

  lemma FinishedParams(g: Snapshot)
    requires g.status in {ParamLen, ParamString} && |g.service| < 0x100 && |g.func| < 0x100
    requires g.status == ParamLen ==> g.params == []
    requires g.status == ParamString ==> |g.buffer| == 4 && FromBe(g.buffer) == |g.params|
    ensures Partial(Finish(g).next) == Partial(g)
  {
    if g.status == ParamString {
      BeOfFromBe(g.buffer);
    }
    hide Head, Name, Be, FromBe;
  }

  lemma FinishExtends(t: Snapshot, g: Snapshot, b: byte)
    requires Valid(t) && Gathers(t.status) && |Gathered(t)| + 1 == Need(t) && g == Gather(t, [b])
    requires |g.service| < 0x100 && |g.func| < 0x100 && Finish(g).events == []
    ensures var n := Finish(g).next; |n.service| < 0x100 && |n.func| < 0x100 && Partial(n) == Partial(g)
  {
    hide Partial, FromBe;
    if t.status == RequestId {
      FinishedId(g);
    } else if t.status in {ServiceName, FuncName} {
      assert |t.buffer| == 1;
      FinishedName(g);
    } else {
      FinishedParams(g);
    }
  }

  /** A byte that raises no event is added to the frame. */
  lemma {:induction false} QuietStep(s: Snapshot, b: byte)
    requires Valid(s) && s.status != Soa && Step(s, b).events == []
    ensures Valid(Step(s, b).next) && Partial(Step(s, b).next) == Partial(s) + [b]
  {
    StepValid(s, b);
    SettleKeepsPartial(s);
    SettledNeeds(s);
    var t := Settle(s);
    if Gathers(t.status) {
      GatherExtends(t, b);
      if |Gathered(t)| + 1 == Need(t) {
        hide Settle, Valid, Finish, Partial;
        GatherValid(t, [b]);
        FinishExtends(t, Gather(t, [b]), b);
      } else {
        hide Settle, Valid, Partial;
        GatherValid(t, [b]);
      }
    } else {
      hide Settle;
    }
  }

  /** A request is delivered only at the last byte of its own packet. */
  lemma CompleteStep(s: Snapshot, b: byte, m: Message)
    requires Valid(s) && Step(s, b).events == [Complete(m)]
    ensures Step(s, b).next == FRESH && m.Encodable() && Partial(s) + [b] == Packet(m)
  {
    SettleKeepsPartial(s);
    var t := Settle(s);
    CompletesAtEoc(s, b, m);
    hide Settle, Step, Partial, Valid;
    EndOfPacket(t, m);
  }

  lemma CompletesAtEoc(s: Snapshot, b: byte, m: Message)
    requires Valid(s) && Step(s, b).events == [Complete(m)]
    ensures var t := Settle(s);
      t.status == Eoc && m == Message(t.id, t.service, t.func, t.params) && b == MAGIC2 && Step(s, b).next == FRESH
  {
    hide Valid, Settle;
  }

  lemma EndOfPacket(t: Snapshot, m: Message)
    requires Valid(t) && t.status == Eoc && m == Message(t.id, t.service, t.func, t.params)
    ensures m.Encodable() && Partial(t) + [MAGIC2] == Packet(m)
  {
    assert m.Encodable();
    hide Valid, Body;
  }

  /** The rejected frame, and whether its last byte is looked at again. */
  lemma ErrorStep(s: Snapshot, b: byte)
    requires Valid(s) && Step(s, b).events == [Error]
    ensures s.status != Soa
    ensures Step(s, b).next == if LooksAgain(Settle(s).status) then Restart(b) else FRESH
  {
    assert FRESH.status == Soa;
  }

  lemma EventsOfStep(s: Snapshot, b: byte)
    requires Valid(s)
    ensures var ev := Step(s, b).events; ev == [] || ev == [Error] || (|ev| == 1 && ev[0].Complete?)
  {
  }

  /** `p` cannot be continued when it differs from the fixed bytes of a packet. */
  lemma EarlyMismatch(p: seq<byte>)
    requires |p| > 0
    requires
      || p[0] != MAGIC0
      || (|p| > 1 && p[1] != MAGIC1)
      || (|p| > 2 && p[2] != REQUEST)
      || (|p| > 10 && p[3..11] == Be(0, 8))
      || (|p| > 11 && p[11] != 0)
    ensures !Viable(p)
  {
    forall m: Message | m.Encodable() && p <= Packet(m)
      ensures false
    {
      PacketHasLayout(m);
      var q := Packet(m);
      if |p| > 10 && p[3..11] == Be(0, 8) {
        assert p[3..11] == q[3..11];
        Widths();
        BeInjective(0, m.id, 8);
      }
    }
  }

  /** Nor when it differs from the closing bytes that its own lengths call for. */
  lemma LateMismatch(m: Message, k: nat, b: byte)
    requires m.Encodable() && |Body(m)| <= k < |Packet(m)| && Packet(m)[k] != b
    ensures !Viable(Packet(m)[..k] + [b])
  {
    var q, p := Packet(m), Packet(m)[..k] + [b];
    PacketHasLayout(m);
    assert k >= 16 + |m.service| + |m.func| + |m.params|;
    hide Packet, Body, HasLayout;
    forall n: Message | n.Encodable() && p <= Packet(n)
      ensures false
    {
      PacketHasLayout(n);
      var r := Packet(n);
      assert forall i :: 0 <= i < k ==> q[i] == p[i] == r[i];
      LayoutAgrees(q, m, r, n, k);
      assert false;
    }
  }

  /** A byte is rejected only when the frame with it cannot be continued. */
  lemma RejectedIsDead(s: Snapshot, b: byte)
    requires Valid(s) && Step(s, b).events == [Error]
    ensures !Viable(Partial(s) + [b])
  {
    SettleKeepsPartial(s);
    SettledNeeds(s);
    RejectedWhere(s, b);
    var t := Settle(s);
    hide Settle, Step;
    if t.status == RequestId {
      hide Partial;
      RejectedId(t, b);
    } else if t.status in {Eob, Eoc} {
      hide Partial;
      RejectedEnd(t, b, Message(t.id, t.service, t.func, t.params));
    } else {
      EarlyMismatch(Partial(t) + [b]);
    }
  }

  /** Where in a frame a byte is rejected, and which bytes are. */
  lemma RejectedWhere(s: Snapshot, b: byte)
    requires Valid(s) && Step(s, b).events == [Error]
    ensures var t := Settle(s);
      match t.status
      case RequestId => |t.buffer| + 1 == 8 && FromBe(t.buffer + [b]) == 0
      case Sob => b != MAGIC1
      case FrameType => b != REQUEST
      case ErrorCode => b != 0
      case Eob => b != MAGIC1
      case Eoc => b != MAGIC2
      case _ => false
  {
    hide Settle, Valid;
  }

  lemma RejectedId(t: Snapshot, b: byte)
    requires Valid(t) && t.status == RequestId && |t.buffer| < 8
    requires |t.buffer| + 1 == 8 && FromBe(t.buffer + [b]) == 0
    ensures !Viable(Partial(t) + [b])
  {
    var g := t.buffer + [b];
    BeOfFromBe(g);
    var p := Partial(t) + [b];
    assert p[3..11] == g;
    EarlyMismatch(p);
  }

  lemma RejectedEnd(t: Snapshot, b: byte, m: Message)
    requires Valid(t) && t.status in {Eob, Eoc} && m == Message(t.id, t.service, t.func, t.params)
    requires b != if t.status == Eob then MAGIC1 else MAGIC2
    ensures !Viable(Partial(t) + [b])
  {
    var k := |Body(m)| + if t.status == Eob then 0 else 1;
    assert Partial(t) == Packet(m)[..k];
    LateMismatch(m, k, b);
  }

  /**
   * The reference in terms of packets alone.  Inside a frame whose bytes so far are `p`,
   * the next byte completes a request exactly when `p + [b]` is its packet, raises an
   * error exactly when no packet begins with `p + [b]`, and otherwise extends the frame.
   */
  lemma StepMeaning(s: Snapshot, b: byte)
    requires Valid(s)
    ensures var o, p := Step(s, b), Partial(s) + [b];
      && Valid(o.next)
      && (s.status == Soa ==> o == Outcome(Restart(b), []))
      && (s.status != Soa ==>
           && (o.events == [Error] <==> !Viable(p))
           && (forall m: Message :: o.events == [Complete(m)] <==> m.Encodable() && p == Packet(m))
           && (o.events == [] ==> Partial(o.next) == p)
           && (o.events == [Error] ==> o.next == if LooksAgain(Settle(s).status) then Restart(b) else FRESH)
           && (o.events != [] && o.events != [Error] ==> o.next == FRESH))
  {
    var o, p := Step(s, b), Partial(s) + [b];
    StepValid(s, b);
    EventsOfStep(s, b);
    if s.status == Soa {
      return;
    }
    if o.events == [] {
      QuietStep(s, b);
      PartialIsViable(o.next);
      forall m: Message | m.Encodable() && p == Packet(m)
        ensures false
      {
        NoStateHoldsAPacket(o.next, m);
      }
    } else if o.events == [Error] {
      RejectedIsDead(s, b);
      ErrorStep(s, b);
    } else {
      var m := o.events[0].m;
      CompleteStep(s, b, m);
      assert p <= Packet(m);
      forall n: Message | n.Encodable() && p == Packet(n)
        ensures n == m
      {
        PacketPrefixFree(n, m);
      }
    }
  }

  /** An unfinished frame is shorter than any packet that begins with it. */
  lemma NoStateHoldsAPacket(s: Snapshot, m: Message)
    requires Valid(s) && m.Encodable()
    ensures Partial(s) != Packet(m)
  {
    var n := Continuation(s);
    PartialIsShort(s);
    if Partial(s) == Packet(m) {
      PacketPrefixFree(m, n);
    }
  }
}
