/** Whole request streams through the parser: chunks, packets, garbage and what is delivered. */
module RpcStreams {
  import opened Bytes
  import opened RpcFrame
  import opened RpcAutomaton
  import opened RpcMeaning

  /** The parser fed chunk by chunk, as the read callback does it. */
  function RunChunks(s: Snapshot, chunks: seq<seq<byte>>): (o: Outcome)
    requires Valid(s)
    ensures Valid(o.next)
    decreases |chunks|
  {
    if chunks == [] then Outcome(s, [])
    else
      var o := Run(s, chunks[0]);
      Then(o.events, RunChunks(o.next, chunks[1..]))
  }

  /** Chunking invariance: only the bytes matter, not how they were cut. */
  lemma {:induction false} ChunkingInvariance(s: Snapshot, chunks: seq<seq<byte>>)
    requires Valid(s)
    ensures RunChunks(s, chunks) == Run(s, Concat(chunks))
    decreases |chunks|
  {
    hide Valid, Step;
    if chunks != [] {
      ChunkingInvariance(Run(s, chunks[0]).next, chunks[1..]);
      RunAppend(s, chunks[0], Concat(chunks[1..]));
    }
  }

  lemma RunLast(s: Snapshot, a: seq<byte>, b: byte)
    requires Valid(s)
    ensures var r := Run(s, a);
      && Valid(Step(r.next, b).next)
      && Run(s, a + [b]) == Outcome(Step(r.next, b).next, r.events + Step(r.next, b).events)
  {
    hide Valid, Step;
    RunAppend(s, a, [b]);
    var t := Run(s, a).next;
    StepValid(t, b);
    assert [b][1..] == [];
    assert Step(t, b).events + [] == Step(t, b).events;
  }

  /** Taking a string apart at its ends. */
  lemma Ends(p: seq<byte>, k: nat)
    requires 1 <= k < |p|
    ensures p[..k] == [p[0]] + p[1..k] && p[..k][1..] == p[1..k]
    ensures p[..k + 1] == p[..k] + [p[k]] && p[1..k + 1] == p[1..k] + [p[k]]
    ensures k + 1 == |p| ==> p[..k + 1] == p && p[1..k + 1] == p[1..]
    ensures p == [p[0]] + p[1..]
  {
  }

  lemma SobIsValid()
    ensures Valid(FRESH) && Valid(Restart(MAGIC0)) && Partial(Restart(MAGIC0)) == [MAGIC0]
    ensures Restart(MAGIC0).status == Sob
  {
    Widths();
  }

  /** Inside a packet the parser is quiet and holds exactly what it has read. */
  lemma {:induction false} RunInsidePacket(m: Message, k: nat)
    requires m.Encodable() && 1 <= k < |Packet(m)|
    ensures var r := Run(Restart(MAGIC0), Packet(m)[1..k]);
      Valid(Restart(MAGIC0)) && r.events == [] && Partial(r.next) == Packet(m)[..k]
  {
    hide Valid, Step, Packet, Partial, Restart, Settle, HasLayout;
    SobIsValid();
    PacketHasLayout(m);
    var p := Packet(m);
    if k == 1 {
      FirstByte(m);
      assert p[1..1] == [];
      assert p[..1] == [MAGIC0];
    } else {
      RunInsidePacket(m, k - 1);
      hide Run;
      Ends(p, k - 1);
      RunLast(Restart(MAGIC0), p[1..k - 1], p[k - 1]);
      QuietInside(Run(Restart(MAGIC0), p[1..k - 1]).next, p[k - 1], m, k);
    }
  }

  lemma FirstByte(m: Message)
    requires m.Encodable()
    ensures |Packet(m)| > 2 && Packet(m)[0] == MAGIC0
  {
    PacketHasLayout(m);
  }

  lemma QuietInside(s: Snapshot, b: byte, m: Message, k: nat)
    requires Valid(s) && m.Encodable() && 1 < k < |Packet(m)|
    requires Partial(s) == Packet(m)[..k - 1] && b == Packet(m)[k - 1]
    ensures Step(s, b).events == [] && Valid(Step(s, b).next) && Partial(Step(s, b).next) == Packet(m)[..k]
  {
    var p := Packet(m);
    assert p[..k] == p[..k - 1] + [b];
    assert p[..k] <= p;
    assert s.status != Soa;
    hide Valid, Step, Packet, Partial, Settle;
    StepMeaning(s, b);
    EventsOfStep(s, b);
    var o := Step(s, b);
    if o.events != [] && o.events != [Error] {
      var n := o.events[0].m;
      assert o.events == [Complete(n)];
      assert Packet(n) == p[..k];
      PacketPrefixFree(n, m);
      assert false;
    }
  }

  /** The rest of a packet after its first byte delivers the request. */
  lemma RunRestOfPacket(m: Message)
    requires m.Encodable()
    ensures |Packet(m)| > 1 && Packet(m)[0] == MAGIC0 && Valid(Restart(MAGIC0))
    ensures Run(Restart(MAGIC0), Packet(m)[1..]) == Outcome(FRESH, [Complete(m)])
  {
    SobIsValid();
    FirstByte(m);
    var p := Packet(m);
    var k := |p| - 1;
    RunInsidePacket(m, k);
    hide Valid, Step, Packet, Partial, Restart, Settle, Run;
    Ends(p, k);
    RunLast(Restart(MAGIC0), p[1..k], p[k]);
    LastByte(Run(Restart(MAGIC0), p[1..k]).next, m);
  }

  /** The last byte of a packet that the parser holds otherwise. */
  lemma LastByte(s: Snapshot, m: Message)
    requires Valid(s) && m.Encodable() && |Packet(m)| > 2 && Partial(s) == Packet(m)[..|Packet(m)| - 1]
    ensures Step(s, Packet(m)[|Packet(m)| - 1]) == Outcome(FRESH, [Complete(m)])
  {
    var p := Packet(m);
    var b := p[|p| - 1];
    assert s.status != Soa;
    hide Valid, Step, Packet, Partial, Settle;
    assert p == p[..|p| - 1] + [b];
    StepMeaning(s, b);
    assert Step(s, b).events == [Complete(m)];
  }

  /** States from which the first byte of a frame starts that frame. */
  predicate AtBoundary(s: Snapshot)
    requires Valid(s)
  {
    Settle(s).status in {Soa, Sob, Eob, Eoc}
  }

  /** A packet read at a boundary is delivered, after at most one error for what came before. */
  lemma RunPacket(s: Snapshot, m: Message)
    requires Valid(s) && AtBoundary(s) && m.Encodable()
    ensures Run(s, Packet(m)) == Outcome(FRESH, (if Settle(s).status == Soa then [] else [Error]) + [Complete(m)])
  {
    RunRestOfPacket(m);
    BoundaryStep(s);
    hide Valid, Step, Packet, Settle;
    var p := Packet(m);
    assert p == [p[0]] + p[1..];
  }

  /** The length of the unfinished frame after `k` bytes is not `k` and cannot become so. */
  lemma {:induction false} NeverCatchesUp(s: Snapshot, k: nat, bs: seq<byte>)
    requires Valid(s) && k >= 1 && |Partial(s)| != k
    ensures |Partial(Run(s, bs).next)| != k + |bs|
    decreases |bs|
  {
    if bs != [] {
      StepLength(s, bs[0]);
      hide Valid, Step, Partial;
      NeverCatchesUp(Step(s, bs[0]).next, k + 1, bs[1..]);
    }
  }

  lemma StepLength(s: Snapshot, b: byte)
    requires Valid(s)
    ensures var n := Step(s, b).next;
      Valid(n) && (|Partial(n)| == |Partial(s)| + 1 || |Partial(n)| <= 1)
  {
    assert |Partial(Restart(b))| <= 1 && |Partial(FRESH)| == 0;
    hide Valid, Step, Partial, Settle, Restart;
    StepMeaning(s, b);
    EventsOfStep(s, b);
  }

  /**
   * Resynchronisation, exactly: whatever the parser was in the middle of, a packet that
   * comes next is delivered by its own last byte if and only if the parser stands where
   * the first byte may start a frame.
   */
  lemma PacketIsDeliveredIff(s: Snapshot, m: Message)
    requires Valid(s) && m.Encodable()
    ensures var p := Packet(m); var k := |p| - 1;
      k > 0 && (Step(Run(s, p[..k]).next, p[k]).events == [Complete(m)] <==> AtBoundary(s))
  {
    hide Valid, Step, Packet, Run, AtBoundary;
    if AtBoundary(s) {
      CaughtPacket(s, m);
    } else {
      MissedPacket(s, m);
    }
  }

  lemma CaughtPacket(s: Snapshot, m: Message)
    requires Valid(s) && AtBoundary(s) && m.Encodable()
    ensures var p := Packet(m); var k := |p| - 1;
      k > 0 && Step(Run(s, p[..k]).next, p[k]).events == [Complete(m)]
  {
    SobIsValid();
    FirstByte(m);
    var p := Packet(m);
    var k := |p| - 1;
    RunInsidePacket(m, k);
    BoundaryStep(s);
    hide Valid, Step, Packet, Partial, Settle, Restart, AtBoundary;
    Ends(p, k);
    assert Run(s, p[..k]).next == Run(Restart(MAGIC0), p[1..k]).next;
    hide Run;
    LastByte(Run(s, p[..k]).next, m);
  }

  lemma BoundaryStep(s: Snapshot)
    requires Valid(s) && AtBoundary(s)
    ensures Step(s, MAGIC0) == Outcome(Restart(MAGIC0), if Settle(s).status == Soa then [] else [Error])
  {
  }

  lemma MissedPacket(s: Snapshot, m: Message)
    requires Valid(s) && m.Encodable() && !AtBoundary(s)
    ensures var p := Packet(m); var k := |p| - 1;
      k > 0 && Step(Run(s, p[..k]).next, p[k]).events != [Complete(m)]
  {
    FirstByte(m);
    var p := Packet(m);
    var k := |p| - 1;
    OffBoundary(s);
    hide Valid, Step, Packet, Partial, Settle, AtBoundary;
    Ends(p, k);
    var t := Step(s, MAGIC0).next;
    assert Run(s, p[..k]).next == Run(t, p[1..k]).next;
    hide Run;
    NeverCatchesUp(t, 1, p[1..k]);
    TooShortOrLong(Run(t, p[1..k]).next, m);
  }

  lemma TooShortOrLong(u: Snapshot, m: Message)
    requires Valid(u) && m.Encodable() && |Packet(m)| > 2 && |Partial(u)| != |Packet(m)| - 1
    ensures Step(u, Packet(m)[|Packet(m)| - 1]).events != [Complete(m)]
  {
    hide Valid, Step, Packet, Partial;
    var b := Packet(m)[|Packet(m)| - 1];
    if Step(u, b).events == [Complete(m)] {
      CompleteStep(u, b, m);
      assert false;
    }
  }

  lemma OffBoundary(s: Snapshot)
    requires Valid(s) && !AtBoundary(s)
    ensures Valid(Step(s, MAGIC0).next) && |Partial(Step(s, MAGIC0).next)| != 1
  {
    StepValid(s, MAGIC0);
    EventsOfStep(s, MAGIC0);
    var o := Step(s, MAGIC0);
    if o.events == [] {
      assert |Partial(s)| >= 2;
      hide Step, Partial, Valid, Settle;
      QuietStep(s, MAGIC0);
    }
  }

  function Packets(ms: seq<Message>): seq<seq<byte>>
    requires forall m :: m in ms ==> |m.service| < 0x100 && |m.func| < 0x100
  {
    if ms == [] then [] else [Packet(ms[0])] + Packets(ms[1..])
  }

  function Completions(ms: seq<Message>): seq<Event> {
    if ms == [] then [] else [Complete(ms[0])] + Completions(ms[1..])
  }

  ghost predicate AllEncodable(ms: seq<Message>) {
    forall m :: m in ms ==> m.Encodable()
  }

  /** Packets back to back parse to exactly their requests, in order. */
  lemma {:induction false} RunPackets(ms: seq<Message>)
    requires AllEncodable(ms)
    ensures Valid(FRESH) && Run(FRESH, Concat(Packets(ms))) == Outcome(FRESH, Completions(ms))
  {
    SobIsValid();
    if ms != [] {
      assert AtBoundary(FRESH) && Settle(FRESH).status == Soa;
      hide Valid, Step, Packet, Settle, AtBoundary;
      RunPacket(FRESH, ms[0]);
      RunPackets(ms[1..]);
      RunAppend(FRESH, Packet(ms[0]), Concat(Packets(ms[1..])));
      assert [] + [Complete(ms[0])] == [Complete(ms[0])];
    }
  }

  /** The request round trip: any chunking of any packets delivers exactly those requests. */
  lemma RequestRoundTrip(ms: seq<Message>, chunks: seq<seq<byte>>)
    requires AllEncodable(ms) && Concat(chunks) == Concat(Packets(ms))
    ensures Valid(FRESH) && RunChunks(FRESH, chunks) == Outcome(FRESH, Completions(ms))
  {
    RunPackets(ms);
    ChunkingInvariance(FRESH, chunks);
  }

  /** No `0x0a` is directly followed by `0x0b`. */
  ghost predicate NoMagic(g: seq<byte>) {
    forall i :: 0 <= i < |g| - 1 ==> !(g[i] == MAGIC0 && g[i + 1] == MAGIC1)
  }

  function Count(g: seq<byte>): nat {
    if g == [] then 0 else Count(g[..|g| - 1]) + if g[|g| - 1] == MAGIC0 then 1 else 0
  }

  function Errors(n: nat): seq<Event> {
    if n == 0 then [] else Errors(n - 1) + [Error]
  }

  /** After garbage the parser has raised an error for every `0x0a` but one it still holds. */
  lemma {:induction false} RunGarbage(g: seq<byte>)
    requires NoMagic(g)
    ensures Valid(FRESH)
    ensures var held := g != [] && g[|g| - 1] == MAGIC0;
      Run(FRESH, g) == Outcome(if held then Restart(MAGIC0) else FRESH, Errors(Count(g) - if held then 1 else 0))
  {
    SobIsValid();
    if g != [] {
      var a, b := g[..|g| - 1], g[|g| - 1];
      assert g == a + [b];
      RunGarbage(a);
      RunLast(FRESH, a, b);
      if a != [] && a[|a| - 1] == MAGIC0 {
        assert a[|a| - 1] == g[|g| - 2];
        assert Step(Restart(MAGIC0), b) == Outcome(Restart(b), [Error]);
      } else {
        assert Step(FRESH, b) == Outcome(Restart(b), []);
        assert Run(FRESH, a).events + [] == Run(FRESH, a).events;
      }
    }
  }

  /** Garbage before a packet costs one error per `0x0a` and never the packet. */
  lemma {:induction false} Resynchronisation(g: seq<byte>, m: Message)
    requires NoMagic(g) && m.Encodable()
    ensures Valid(FRESH) && Run(FRESH, g + Packet(m)) == Outcome(FRESH, Errors(Count(g)) + [Complete(m)])
  {
    var held := g != [] && g[|g| - 1] == MAGIC0;
    assert held ==> Count(g) > 0;
    hide Valid, Step, Packet, Settle, AtBoundary, Restart, NoMagic, Count, Run;
    RunGarbage(g);
    AfterGarbage(held);
    RunPacket(Run(FRESH, g).next, m);
    RunAppend(FRESH, g, Packet(m));
    EventsJoin(Count(g) - (if held then 1 else 0), held, m);
  }

  lemma EventsJoin(n: nat, held: bool, m: Message)
    ensures Errors(n) + ((if held then [Error] else []) + [Complete(m)])
         == (if held then Errors(n + 1) else Errors(n)) + [Complete(m)]
  {
    if held {
      assert Errors(n) + ([Error] + [Complete(m)]) == (Errors(n) + [Error]) + [Complete(m)];
    } else {
      assert [] + [Complete(m)] == [Complete(m)];
    }
  }

  lemma AfterGarbage(held: bool)
    ensures var s := if held then Restart(MAGIC0) else FRESH;
      Valid(s) && AtBoundary(s) && (Settle(s).status == Soa <==> !held)
  {
    SobIsValid();
  }

  /** The requests among some events. */
  function Requests(events: seq<Event>): seq<Message> {
    if events == [] then []
    else
      var e := events[|events| - 1];
      Requests(events[..|events| - 1]) + if e.Complete? then [e.m] else []
  }

  /** A stream that has these frames, in order, with these gaps around them. */
  function Interleave(gaps: seq<seq<byte>>, frames: seq<seq<byte>>): seq<byte>
    requires |gaps| == |frames| + 1
    decreases |frames|
  {
    if frames == [] then gaps[0]
    else
      var k := |frames| - 1;
      Interleave(gaps[..k + 1], frames[..k]) + frames[k] + gaps[k + 1]
  }

  /** Only the last gap matters for what ends the stream. */
  lemma {:induction false} InterleaveLast(gaps: seq<seq<byte>>, frames: seq<seq<byte>>, x: seq<byte>, y: seq<byte>)
    requires |gaps| == |frames| + 1 && gaps[|frames|] == x + y
    ensures Interleave(gaps, frames) == Interleave(gaps[..|frames|] + [x], frames) + y
  {
    var k := |frames|;
    var other := gaps[..k] + [x];
    assert other[..k] == gaps[..k];
    if frames != [] {
      var front := Interleave(gaps[..k], frames[..k - 1]) + frames[k - 1];
      assert Interleave(gaps, frames) == front + gaps[k];
      assert Interleave(other, frames) == front + x;
    }
  }

  lemma {:induction false} GapsAfterByte(a: seq<byte>, b: byte, gaps: seq<seq<byte>>, frames: seq<seq<byte>>, p: seq<byte>, q: seq<byte>)
    returns (longer: seq<seq<byte>>)
    requires |gaps| == |frames| + 1 && a == Interleave(gaps, frames) && EndsWith(gaps[|frames|], p)
    requires q == p + [b] || q == [b] || q == []
    ensures |longer| == |frames| + 1 && a + [b] == Interleave(longer, frames) && EndsWith(longer[|frames|], q)
  {
    var k := |frames|;
    longer := gaps[..k] + [gaps[k] + [b]];
    InterleaveLast(longer, frames, gaps[k], [b]);
    assert longer[..k] + [gaps[k]] == gaps;
    var l := gaps[k] + [b];
    if q == p + [b] {
      assert l[|l| - |q|..] == gaps[k][|gaps[k]| - |p|..] + [b];
    }
  }

  lemma {:induction false} GapsAfterFrame(a: seq<byte>, b: byte, gaps: seq<seq<byte>>, frames: seq<seq<byte>>, p: seq<byte>)
    returns (longer: seq<seq<byte>>)
    requires |gaps| == |frames| + 1 && a == Interleave(gaps, frames) && EndsWith(gaps[|frames|], p)
    ensures |longer| == |frames| + 2 && a + [b] == Interleave(longer, frames + [p + [b]])
    ensures EndsWith(longer[|frames| + 1], [])
  {
    var k := |frames|;
    var x := gaps[k][..|gaps[k]| - |p|];
    assert gaps[k] == x + p;
    InterleaveLast(gaps, frames, x, p);
    longer := gaps[..k] + [x] + [[]];
    assert longer[..k + 1] == gaps[..k] + [x];
    assert (frames + [p + [b]])[..k] == frames;
    var front := Interleave(gaps[..k] + [x], frames);
    assert (front + p) + [b] == front + (p + [b]) + [];
  }

  lemma {:induction false} PacketsSnoc(ms: seq<Message>, m: Message)
    requires AllEncodable(ms) && m.Encodable()
    ensures AllEncodable(ms + [m]) && Packets(ms + [m]) == Packets(ms) + [Packet(m)] && |Packets(ms)| == |ms|
  {
    hide Packet;
    if ms == [] {
      assert ms + [m] == [m];
    } else {
      PacketsSnoc(ms[1..], m);
      assert (ms + [m])[1..] == ms[1..] + [m];
    }
  }

  /** These gaps account for every byte of a stream that delivered these requests. */
  ghost predicate Accounts(gaps: seq<seq<byte>>, bs: seq<byte>, ms: seq<Message>, held: seq<byte>) {
    && AllEncodable(ms)
    && |gaps| == |ms| + 1 && |Packets(ms)| == |ms|
    && bs == Interleave(gaps, Packets(ms))
    && EndsWith(gaps[|ms|], held)
  }

  /**
   * Nothing is made up: for any stream, the delivered requests are packets that occur in
   * it, in order and without overlap, and what the parser still holds is its end.
   */
  lemma {:induction false} DeliveredRequestsOccur(bs: seq<byte>) returns (gaps: seq<seq<byte>>)
    ensures Valid(FRESH)
    ensures var r := Run(FRESH, bs); Accounts(gaps, bs, Requests(r.events), Partial(r.next))
  {
    SobIsValid();
    if bs == [] {
      gaps := [[]];
    } else {
      hide Accounts, Requests, Partial, Step, Valid;
      var a, b := bs[..|bs| - 1], bs[|bs| - 1];
      assert bs == a + [b];
      var before := DeliveredRequestsOccur(a);
      RunLast(FRESH, a, b);
      hide Run;
      var r := Run(FRESH, a);
      gaps := GapsAfter(a, b, before, r.next, r.events);
    }
  }

  lemma {:induction false} GapsAfter(a: seq<byte>, b: byte, gaps: seq<seq<byte>>, s: Snapshot, events: seq<Event>)
    returns (longer: seq<seq<byte>>)
    requires Valid(s) && Accounts(gaps, a, Requests(events), Partial(s))
    ensures var o := Step(s, b);
      Valid(o.next) && Accounts(longer, a + [b], Requests(events + o.events), Partial(o.next))
  {
    var ms, o := Requests(events), Step(s, b);
    assert Partial(Restart(b)) in {[], [b]} && Partial(FRESH) == [];
    assert s.status == Soa ==> o.events == [];
    hide Valid, Step, Packet, Settle, Partial, Restart, Run, Requests;
    StepMeaning(s, b);
    EventsOfStep(s, b);
    RequestsOf(events, o.events);
    if o.events == [] || o.events == [Error] {
      longer := GapsAfterByte(a, b, gaps, Packets(ms), Partial(s), Partial(o.next));
    } else {
      var m := o.events[0].m;
      assert o.events == [Complete(m)];
      PacketsSnoc(ms, m);
      longer := GapsAfterFrame(a, b, gaps, Packets(ms), Partial(s));
    }
  }

  lemma RequestsOf(events: seq<Event>, more: seq<Event>)
    requires more == [] || more == [Error] || (|more| == 1 && more[0].Complete?)
    ensures Requests(events + more) == if more == [] || more == [Error] then Requests(events) else Requests(events) + [more[0].m]
  {
    if more == [] {
      assert events + more == events;
    } else {
      assert (events + more)[..|events|] == events;
    }
  }
}
