/**
 * `MPSCQueue` as its threads execute it, one shared access a step, for any number of
 * producers and one consumer.  `head` and `tail` are the stored ring indices; `heads`
 * and `tails` count how often they have been advanced, `log` lists the reservations.
 */
module MpscQueue {
  import opened Common
  import opened Ring

  /** Items are only moved, so an integer stands for a value of any type. */
  type Item = int

  datatype Slot = Slot(mark: nat, item: Option<Item>)

  /** Where a producer is inside `push`; `at` is the reservation count when it read `head`. */
  datatype Producer =
    | Idle
    | HasHead(v: Item, head: nat, at: nat)
    | HasRoom(v: Item, head: nat, at: nat)
    | Reserved(v: Item, head: nat, ticket: nat)
    | Written(v: Item, head: nat, ticket: nat)

  /** Where the consumer is inside `pop`. */
  datatype Consumer =
    | Away
    | HasTail(tail: nat)
    | Waiting(tail: nat)
    | Ready(tail: nat)
    | Taken(tail: nat, item: Option<Item>)
    | Released(tail: nat, item: Option<Item>)

  datatype Entry = Entry(producer: nat, v: Item)

  datatype State = State(
    cap: nat, head: nat, tail: nat, slots: seq<Slot>,
    producers: seq<Producer>, consumer: Consumer,
    heads: nat, tails: nat, log: seq<Entry>,
    pushed: seq<seq<Item>>, popped: seq<Option<Item>>)

  function Invalid(cap: nat): nat {
    cap + 1
  }

  ghost predicate Init(s: State) {
    && s.cap > 0 && s.head == 0 && s.tail == 0 && s.heads == 0 && s.tails == 0
    && |s.slots| == s.cap && (forall i :: 0 <= i < s.cap ==> s.slots[i].mark == Invalid(s.cap))
    && (forall p :: 0 <= p < |s.producers| ==> s.producers[p] == Idle)
    && s.consumer == Away && s.log == [] && s.popped == []
    && |s.pushed| == |s.producers| && (forall p :: 0 <= p < |s.pushed| ==> s.pushed[p] == [])
  }

  datatype Action =
    | LoadHead(p: nat, v: Item)
    | CheckTail(p: nat)
    | Cas(p: nat)
    | CasFails(p: nat)
    | WriteItem(p: nat)
    | Publish(p: nat)
    | PopLoadTail
    | PopLoadHead
    | PopSpin
    | PopTake
    | PopRelease
    | PopStoreTail

  /** Less than a whole lap of reservations since this producer read `head`. */
  predicate NoLap(s: State, p: nat)
    requires p < |s.producers| && s.producers[p].HasRoom?
  {
    s.heads - s.producers[p].at < s.cap
  }

  predicate Enabled(s: State, a: Action) {
    && s.cap > 0 && |s.slots| == s.cap && |s.pushed| == |s.producers| && s.head < s.cap && s.tail < s.cap
    && match a
       case LoadHead(p, v) => p < |s.producers| && s.producers[p].Idle?
       case CheckTail(p) => p < |s.producers| && s.producers[p].HasHead?
       case Cas(p) => p < |s.producers| && s.producers[p].HasRoom? && s.producers[p].head == s.head && NoLap(s, p)
       case CasFails(p) => p < |s.producers| && s.producers[p].HasRoom?
       case WriteItem(p) => p < |s.producers| && s.producers[p].Reserved? && s.producers[p].head < s.cap
       case Publish(p) => p < |s.producers| && s.producers[p].Written? && s.producers[p].head < s.cap
       case PopLoadTail => s.consumer.Away?
       case PopLoadHead => s.consumer.HasTail?
       case PopSpin => s.consumer.Waiting? && s.consumer.tail < s.cap
       case PopTake => s.consumer.Ready? && s.consumer.tail < s.cap
       case PopRelease => s.consumer.Taken? && s.consumer.tail < s.cap
       case PopStoreTail => s.consumer.Released?
  }

  /** The successful compare-and-swap of producer `p`, whether or not it may be safe. */
  function Reserve(s: State, p: nat): State
    requires s.cap > 0 && p < |s.producers| && s.producers[p].HasRoom?
  {
    var pr := s.producers[p];
    s.(head := Ix(pr.head + 1, s.cap), heads := s.heads + 1,
       log := s.log + [Entry(p, pr.v)],
       producers := s.producers[p := Reserved(pr.v, pr.head, s.heads)])
  }

  function Next(s: State, a: Action): State
    requires Enabled(s, a)
  {
    match a
    case LoadHead(p, v) =>
      s.(producers := s.producers[p := HasHead(v, s.head, s.heads)])
    case CheckTail(p) =>
      var pr := s.producers[p];
      s.(producers := s.producers[p :=
        if Ix(pr.head + 1, s.cap) == s.tail then Idle else HasRoom(pr.v, pr.head, pr.at)])
    case Cas(p) => Reserve(s, p)
    case CasFails(p) =>
      s.(producers := s.producers[p := HasHead(s.producers[p].v, s.head, s.heads)])
    case WriteItem(p) =>
      var pr := s.producers[p];
      s.(slots := s.slots[pr.head := s.slots[pr.head].(item := Some(pr.v))],
         producers := s.producers[p := Written(pr.v, pr.head, pr.ticket)])
    case Publish(p) =>
      var pr := s.producers[p];
      s.(slots := s.slots[pr.head := s.slots[pr.head].(mark := pr.head)],
         producers := s.producers[p := Idle],
         pushed := s.pushed[p := s.pushed[p] + [pr.v]])
    case PopLoadTail => s.(consumer := HasTail(s.tail))
    case PopLoadHead =>
      s.(consumer := if s.consumer.tail == s.head then Away else Waiting(s.consumer.tail))
    case PopSpin =>
      var t := s.consumer.tail;
      s.(consumer := if s.slots[t].mark == Invalid(s.cap) then Waiting(t) else Ready(t))
    case PopTake =>
      var t := s.consumer.tail;
      s.(consumer := Taken(t, s.slots[t].item))
    case PopRelease =>
      var c := s.consumer;
      s.(slots := s.slots[c.tail := s.slots[c.tail].(mark := Invalid(s.cap))],
         consumer := Released(c.tail, c.item))
    case PopStoreTail =>
      var c := s.consumer;
      s.(tail := Ix(c.tail + 1, s.cap), tails := s.tails + 1, consumer := Away, popped := s.popped + [c.item])
  }

  // ----- the invariant -----

  predicate Holds(pr: Producer) {
    pr.Reserved? || pr.Written?
  }

  /** The counters and the ring: never more than `cap - 1` positions are in use. */
  ghost predicate Counters(s: State) {
    && s.cap > 0 && |s.slots| == s.cap
    && s.head == Ix(s.heads, s.cap) && s.tail == Ix(s.tails, s.cap)
    && s.tails <= s.heads && s.heads - s.tails <= s.cap - 1
    && |s.log| == s.heads && |s.pushed| == |s.producers|
  }

  /** What producer `p` knows. */
  ghost predicate ProducerOk(s: State, p: nat)
    requires Counters(s) && p < |s.producers|
  {
    match s.producers[p]
    case Idle => true
    case HasHead(v, h, at) => at <= s.heads && h == Ix(at, s.cap) && at <= s.tails + s.cap - 1
    case HasRoom(v, h, at) => at <= s.heads && h == Ix(at, s.cap) && at + 2 <= s.tails + s.cap
    case Reserved(v, h, k) =>
      && s.tails <= k < s.heads && h == Ix(k, s.cap)
      && s.log[k] == Entry(p, v) && s.slots[h].mark == Invalid(s.cap)
    case Written(v, h, k) =>
      && s.tails <= k < s.heads && h == Ix(k, s.cap)
      && s.log[k] == Entry(p, v) && s.slots[h] == Slot(Invalid(s.cap), Some(v))
  }

  ghost predicate ProducersOk(s: State)
    requires Counters(s)
  {
    forall p :: 0 <= p < |s.producers| ==> ProducerOk(s, p)
  }

  /** No two producers share a reserved position. */
  ghost predicate Unshared(s: State) {
    forall p, q :: 0 <= p < q < |s.producers| && Holds(s.producers[p]) && Holds(s.producers[q]) ==>
      s.producers[p].ticket != s.producers[q].ticket
  }

  ghost predicate HeldBySome(s: State, k: nat) {
    exists p :: 0 <= p < |s.producers| && Holds(s.producers[p]) && s.producers[p].ticket == k
  }

  /** A position in use is published with its own item, or a producer is about to do so. */
  ghost predicate PositionOk(s: State, k: nat)
    requires Counters(s) && k < s.heads
  {
    var slot := s.slots[Ix(k, s.cap)];
    if slot.mark == Invalid(s.cap) then HeldBySome(s, k) || (k == s.tails && s.consumer.Released?)
    else slot == Slot(Ix(k, s.cap), Some(s.log[k].v))
  }

  ghost predicate PositionsOk(s: State)
    requires Counters(s)
  {
    && (forall k :: s.tails <= k < s.heads ==> PositionOk(s, k))
    && (forall k :: s.heads <= k < s.tails + s.cap ==> s.slots[Ix(k, s.cap)].mark == Invalid(s.cap))
  }

  ghost predicate ConsumerOk(s: State)
    requires Counters(s)
  {
    && (!s.consumer.Away? ==> s.consumer.tail == s.tail)
    && (s.consumer.Waiting? || s.consumer.Ready? || s.consumer.Taken? || s.consumer.Released? ==> s.tails < s.heads)
    && (s.consumer.Ready? || s.consumer.Taken? ==> s.slots[s.tail].mark != Invalid(s.cap))
    && (s.consumer.Taken? || s.consumer.Released? ==> s.consumer.item == Some(s.log[s.tails].v))
    && (s.consumer.Released? ==> s.slots[s.tail].mark == Invalid(s.cap) && !HeldBySome(s, s.tails))
  }

  /** The values that producer `p` reserved room for, in order. */
  function By(log: seq<Entry>, p: nat): seq<Item> {
    if log == [] then []
    else By(log[..|log| - 1], p) + if log[|log| - 1].producer == p then [log[|log| - 1].v] else []
  }

  ghost predicate HistoryOk(s: State) {
    && |s.popped| == s.tails && s.tails <= |s.log| && |s.pushed| == |s.producers|
    && (forall k :: 0 <= k < s.tails ==> s.popped[k] == Some(s.log[k].v))
    && (forall k :: 0 <= k < |s.log| ==> s.log[k].producer < |s.producers|)
    && (forall p :: 0 <= p < |s.producers| ==>
         By(s.log, p) == s.pushed[p] + if Holds(s.producers[p]) then [s.producers[p].v] else [])
  }

  ghost predicate Inv(s: State) {
    && Counters(s) && ProducersOk(s) && Unshared(s) && PositionsOk(s) && ConsumerOk(s) && HistoryOk(s)
  }

  // ----- every step keeps the invariant -----

  /** Steps that only change what a producer without a reservation knows. */
  lemma KeepsInvLocal(s: State, a: Action)
    requires Inv(s) && Enabled(s, a) && (a.LoadHead? || a.CheckTail? || a.CasFails?)
    ensures Inv(Next(s, a))
  {
    hide By, Ix;
    var t := Next(s, a);
    var p := a.p;
    assert forall q :: 0 <= q < |s.producers| && q != p ==> t.producers[q] == s.producers[q];
    assert !Holds(t.producers[p]) && !Holds(s.producers[p]);
    SameHolders(s, t);
    if a.CheckTail? {
      RoomIsReal(s, p);
    }
    forall q | 0 <= q < |t.producers|
      ensures ProducerOk(t, q)
    {
      assert ProducerOk(s, q);
    }
    forall k | t.tails <= k < t.heads
      ensures PositionOk(t, k)
    {
      assert PositionOk(s, k);
    }
  }

  lemma SameHolders(s: State, t: State)
    requires |s.producers| == |t.producers|
    requires forall q :: 0 <= q < |s.producers| ==>
      Holds(s.producers[q]) == Holds(t.producers[q])
      && (Holds(s.producers[q]) ==> s.producers[q].ticket == t.producers[q].ticket)
    ensures forall k :: HeldBySome(s, k) == HeldBySome(t, k)
  {
    forall k
      ensures HeldBySome(s, k) == HeldBySome(t, k)
    {
      if HeldBySome(s, k) {
        var q :| 0 <= q < |s.producers| && Holds(s.producers[q]) && s.producers[q].ticket == k;
        assert Holds(t.producers[q]);
      }
      if HeldBySome(t, k) {
        var q :| 0 <= q < |s.producers| && Holds(t.producers[q]) && t.producers[q].ticket == k;
        assert Holds(s.producers[q]);
      }
    }
  }

  /** A fresh reading of `head` is one short of the tail's index exactly when the ring is full. */
  lemma RoomIsReal(s: State, p: nat)
    requires Inv(s) && p < |s.producers| && s.producers[p].HasHead?
    ensures var pr := s.producers[p];
      && (Ix(pr.head + 1, s.cap) != s.tail ==> pr.at + 2 <= s.tails + s.cap)
      && (pr.at >= s.tails ==> (Ix(pr.head + 1, s.cap) == s.tail <==> pr.at + 1 == s.tails + s.cap))
  {
    assert ProducerOk(s, p);
    var at, cap := s.producers[p].at, s.cap;
    hide By, ProducersOk, PositionsOk, Ix;
    IxNext(at, cap);
    if at + 1 == s.tails + cap {
      IxLap(s.tails, cap);
    } else if at >= s.tails {
      IxInjective(s.tails, at + 1, cap);
    }
  }

  /** A reservation that is possible: the swap's index matches and the ring is not full. */
  ghost predicate CanReserve(s: State, p: nat) {
    && Inv(s) && p < |s.producers| && s.producers[p].HasRoom? && s.producers[p].head == s.head
    && s.heads + 2 <= s.tails + s.cap
  }

  lemma ReserveCounters(s: State, p: nat)
    requires CanReserve(s, p)
    ensures Counters(Reserve(s, p)) && s.slots[s.head].mark == Invalid(s.cap)
  {
    hide Ix, HistoryOk;
    assert ProducerOk(s, p);
    IxNext(s.heads, s.cap);
  }

  lemma ReserveProducers(s: State, p: nat)
    requires CanReserve(s, p)
    ensures Counters(Reserve(s, p)) && ProducersOk(Reserve(s, p)) && Unshared(Reserve(s, p))
  {
    ReserveCounters(s, p);
    var t := Reserve(s, p);
    hide Ix, HistoryOk, PositionsOk, ConsumerOk, By;
    forall q | 0 <= q < |t.producers|
      ensures ProducerOk(t, q)
    {
      assert ProducerOk(s, q);
    }
    forall q | 0 <= q < |s.producers| && Holds(s.producers[q])
      ensures s.producers[q].ticket < s.heads
    {
      assert ProducerOk(s, q);
    }
  }

  lemma ReserveHolders(s: State, p: nat, k: nat)
    requires p < |s.producers| && s.producers[p].HasRoom? && s.cap > 0
    ensures HeldBySome(Reserve(s, p), k) <==> HeldBySome(s, k) || k == s.heads
  {
    var t := Reserve(s, p);
    assert Holds(t.producers[p]) && t.producers[p].ticket == s.heads;
    if HeldBySome(s, k) {
      var q :| 0 <= q < |s.producers| && Holds(s.producers[q]) && s.producers[q].ticket == k;
      assert Holds(t.producers[q]);
    }
  }

  lemma ReservePositions(s: State, p: nat)
    requires CanReserve(s, p)
    ensures Counters(Reserve(s, p)) && PositionsOk(Reserve(s, p)) && ConsumerOk(Reserve(s, p))
  {
    ReserveCounters(s, p);
    var t := Reserve(s, p);
    hide Ix, HistoryOk, ProducersOk, Unshared, By, HeldBySome;
    WindowInjective(s.tails, s.cap);
    forall k | t.tails <= k < t.heads
      ensures PositionOk(t, k)
    {
      ReserveHolders(s, p, k);
      assert k < s.heads ==> PositionOk(s, k);
    }
    ReserveHolders(s, p, s.tails);
  }

  /** A reservation keeps the invariant when the ring is not full at that moment. */
  lemma KeepsInvReserve(s: State, p: nat)
    requires CanReserve(s, p)
    ensures Inv(Reserve(s, p))
  {
    ReserveProducers(s, p);
    ReservePositions(s, p);
    ReserveHistory(s, p);
    hide Reserve, ProducersOk, PositionsOk, ConsumerOk, Unshared, HistoryOk;
  }

  lemma ReserveHistory(s: State, p: nat)
    requires Counters(s) && HistoryOk(s) && p < |s.producers| && s.producers[p].HasRoom?
    ensures HistoryOk(Reserve(s, p))
  {
    assert Reserve(s, p).log[..|s.log|] == s.log;
  }

  /** With no full lap since `head` was read, an equal index means that nothing was reserved since. */
  lemma NoLapMeansFresh(s: State, p: nat)
    requires Inv(s) && p < |s.producers| && s.producers[p].HasRoom? && s.producers[p].head == s.head && NoLap(s, p)
    ensures s.producers[p].at == s.heads && s.heads + 2 <= s.tails + s.cap
  {
    assert ProducerOk(s, p);
    hide Ix;
    if s.producers[p].at < s.heads {
      IxInjective(s.producers[p].at, s.heads, s.cap);
    }
  }

  lemma KeepsInvWrite(s: State, p: nat)
    requires Inv(s) && Enabled(s, WriteItem(p))
    ensures Inv(Next(s, WriteItem(p)))
  {
    var t := Next(s, WriteItem(p));
    hide Ix, By;
    assert ProducerOk(s, p);
    SameHolders(s, t);
    WindowInjective(s.tails, s.cap);
    forall q | 0 <= q < |t.producers|
      ensures ProducerOk(t, q)
    {
      assert ProducerOk(s, q);
    }
    forall k | t.tails <= k < t.heads
      ensures PositionOk(t, k)
    {
      assert PositionOk(s, k);
    }
  }

  lemma KeepsInvPublish(s: State, p: nat)
    requires Inv(s) && Enabled(s, Publish(p))
    ensures Inv(Next(s, Publish(p)))
  {
    var t := Next(s, Publish(p));
    var ticket := s.producers[p].ticket;
    hide Ix, By;
    assert ProducerOk(s, p);
    WindowInjective(s.tails, s.cap);
    assert HeldBySome(s, ticket);
    forall q | 0 <= q < |t.producers|
      ensures ProducerOk(t, q)
    {
      assert ProducerOk(s, q);
      if q != p && Holds(s.producers[q]) {
        assert s.producers[q].ticket != ticket;
      }
    }
    forall k | t.tails <= k < t.heads
      ensures PositionOk(t, k)
    {
      assert PositionOk(s, k);
      if HeldBySome(s, k) && k != ticket {
        var q :| 0 <= q < |s.producers| && Holds(s.producers[q]) && s.producers[q].ticket == k;
        assert Holds(t.producers[q]) && t.producers[q].ticket == k;
      }
    }
    assert HistoryOk(t);
  }

  lemma KeepsInvPop(s: State, a: Action)
    requires Inv(s) && Enabled(s, a) && (a.PopLoadTail? || a.PopLoadHead? || a.PopSpin? || a.PopTake?)
    ensures Inv(Next(s, a))
  {
    var t := Next(s, a);
    hide Ix, By;
    SameHolders(s, t);
    if a.PopLoadHead? && s.tails == s.heads {
      assert t.consumer == Away;
    }
    if s.tails < s.heads {
      assert PositionOk(s, s.tails);
    }
    forall q | 0 <= q < |t.producers|
      ensures ProducerOk(t, q)
    {
      assert ProducerOk(s, q);
    }
    forall k | t.tails <= k < t.heads
      ensures PositionOk(t, k)
    {
      assert PositionOk(s, k);
    }
  }

  lemma KeepsInvRelease(s: State)
    requires Inv(s) && Enabled(s, PopRelease)
    ensures Inv(Next(s, PopRelease))
  {
    var t := Next(s, PopRelease);
    hide Ix, By;
    SameHolders(s, t);
    WindowInjective(s.tails, s.cap);
    forall q | 0 <= q < |t.producers|
      ensures ProducerOk(t, q)
    {
      assert ProducerOk(s, q);
    }
    forall q | 0 <= q < |s.producers| && Holds(s.producers[q])
      ensures s.producers[q].ticket != s.tails
    {
      assert ProducerOk(s, q);
    }
    forall k | t.tails <= k < t.heads
      ensures PositionOk(t, k)
    {
      assert PositionOk(s, k);
    }
  }

  lemma KeepsInvStoreTail(s: State)
    requires Inv(s) && Enabled(s, PopStoreTail)
    ensures Inv(Next(s, PopStoreTail))
  {
    var t := Next(s, PopStoreTail);
    hide Ix, By;
    SameHolders(s, t);
    IxNext(s.tails, s.cap);
    IxLap(s.tails, s.cap);
    assert Counters(t);
    forall q | 0 <= q < |t.producers|
      ensures ProducerOk(t, q)
    {
      assert ProducerOk(s, q);
    }
    forall k | t.tails <= k < t.heads
      ensures PositionOk(t, k)
    {
      assert PositionOk(s, k);
    }
  }

  /** Every step of every thread keeps the invariant. */
  lemma StepKeepsInv(s: State, a: Action)
    requires Inv(s) && Enabled(s, a)
    ensures Inv(Next(s, a))
  {
    hide Inv, NoLap;
    match a
    case LoadHead(_, _) => KeepsInvLocal(s, a);
    case CheckTail(_) => KeepsInvLocal(s, a);
    case CasFails(_) => KeepsInvLocal(s, a);
    case Cas(p) =>
      NoLapMeansFresh(s, p);
      KeepsInvReserve(s, p);
    case WriteItem(p) => KeepsInvWrite(s, p);
    case Publish(p) => KeepsInvPublish(s, p);
    case PopRelease => KeepsInvRelease(s);
    case PopStoreTail => KeepsInvStoreTail(s);
    case _ => KeepsInvPop(s, a);
  }

  lemma InitHasInv(s: State)
    requires Init(s)
    ensures Inv(s)
  {
    assert Ix(0, s.cap) == 0;
  }

  // ----- runs -----

  /** The state after a run; `None` if some step of it cannot be taken. */
  function Execute(s: State, actions: seq<Action>): Option<State>
    decreases |actions|
  {
    if actions == [] then Some(s)
    else if Enabled(s, actions[0]) then Execute(Next(s, actions[0]), actions[1..])
    else None
  }

  /** Safety over whole runs: any number of producers, any capacity, any interleaving. */
  lemma {:induction false} RunKeepsInv(s: State, actions: seq<Action>)
    requires Inv(s)
    ensures Execute(s, actions).Some? ==> Inv(Execute(s, actions).value)
    decreases |actions|
  {
    hide Inv, Enabled, Next;
    if actions != [] {
      if Enabled(s, actions[0]) {
        StepKeepsInv(s, actions[0]);
        RunKeepsInv(Next(s, actions[0]), actions[1..]);
      }
    }
  }

  function Values(log: seq<Entry>): seq<Item> {
    seq(|log|, i requires 0 <= i < |log| => log[i].v)
  }

  /** The queue that the ring stands for, in the order of reservation. */
  function Queue(s: State): seq<Item>
    requires s.tails <= |s.log|
  {
    Values(s.log[s.tails..])
  }

  /**
   * When `push` gives up: on a full queue, if the producer has read the current head, and
   * on any queue at all, if the consumer has meanwhile passed the head that it read and
   * stands, laps later, on the index behind it.
   */
  ghost predicate GivesUp(s: State, p: nat)
    requires Counters(s) && p < |s.producers| && s.producers[p].HasHead?
  {
    var at := s.producers[p].at;
    || (|Queue(s)| == s.cap - 1 && at == s.heads)
    || (at < s.tails && Ix(at + 1, s.cap) == Ix(s.tails, s.cap))
  }

  lemma GivesUpIff(s: State, p: nat)
    requires Inv(s) && Enabled(s, CheckTail(p))
    ensures Next(s, CheckTail(p)).producers[p] == Idle <==> GivesUp(s, p)
  {
    assert ProducerOk(s, p);
    RoomIsReal(s, p);
    IxNext(s.producers[p].at, s.cap);
    hide Ix, By, ProducersOk, PositionsOk;
  }

  /**
   * The ring refines a FIFO of at most `cap - 1` items: a reservation enqueues, the store
   * of `tail` dequeues, `pop` gives up exactly on an empty queue, and `push` as stated.
   */
  lemma {:induction false} StepRefinesFifo(s: State, a: Action)
    requires Inv(s) && Enabled(s, a)
    ensures |Queue(s)| < s.cap
    ensures var t := Next(s, a);
      && t.tails <= |t.log|
      && match a
         case Cas(p) => Queue(t) == Queue(s) + [s.producers[p].v] && t.popped == s.popped
         case PopStoreTail =>
           Queue(s) != [] && Queue(t) == Queue(s)[1..] && t.popped == s.popped + [Some(Queue(s)[0])]
         case PopLoadHead =>
           Queue(t) == Queue(s) && t.popped == s.popped && (t.consumer == Away <==> Queue(s) == [])
         case CheckTail(p) =>
           Queue(t) == Queue(s) && t.popped == s.popped && (t.producers[p] == Idle <==> GivesUp(s, p))
         case _ => Queue(t) == Queue(s) && t.popped == s.popped
  {
    if a.PopLoadHead? {
      IndicesTellEmpty(s);
    } else if a.CheckTail? {
      GivesUpIff(s, a.p);
    }
    hide Ix, By, ProducersOk, PositionsOk, Unshared, HistoryOk, NoLap, GivesUp;
    if a.Cas? {
      QueueGrows(s.log, s.tails, Entry(a.p, s.producers[a.p].v));
    } else if a.PopStoreTail? {
      QueueShrinks(s.log, s.tails);
    }
  }

  lemma QueueGrows(log: seq<Entry>, k: nat, e: Entry)
    requires k <= |log|
    ensures Values((log + [e])[k..]) == Values(log[k..]) + [e.v]
  {
    assert (log + [e])[k..] == log[k..] + [e];
  }

  lemma QueueShrinks(log: seq<Entry>, k: nat)
    requires k < |log|
    ensures Values(log[k..]) != [] && Values(log[k + 1..]) == Values(log[k..])[1..] && Values(log[k..])[0] == log[k].v
  {
    assert log[k..][1..] == log[k + 1..];
  }

  /** The test of `empty` and of `pop`: equal indices mean an empty queue, never a full one. */
  lemma IndicesTellEmpty(s: State)
    requires Inv(s)
    ensures s.head == s.tail <==> Queue(s) == []
  {
    hide Ix;
    if s.tails < s.heads {
      IxInjective(s.tails, s.heads, s.cap);
    }
  }

  /** What has come out is what was reserved first, unchanged, and no item comes out twice. */
  lemma PoppedInOrder(s: State)
    requires Inv(s)
    ensures |s.popped| + |Queue(s)| == |s.log|
    ensures forall k :: 0 <= k < |s.popped| ==> s.popped[k] == Some(s.log[k].v)
    ensures forall k :: 0 <= k < |Queue(s)| ==> Queue(s)[k] == s.log[|s.popped| + k].v
  {
  }

  lemma {:induction false} ByPrefix(log: seq<Entry>, k: nat, p: nat)
    requires k <= |log|
    ensures By(log[..k], p) <= By(log, p)
    decreases |log|
  {
    if k == |log| {
      assert log[..k] == log;
    } else {
      ByPrefix(log[..|log| - 1], k, p);
      assert log[..|log| - 1][..k] == log[..k];
    }
  }

  /**
   * Order per producer: what has come out of a producer's items is the beginning of what
   * it has finished pushing, so nothing comes out early, twice or out of order.
   */
  lemma {:induction false} OrderPerProducer(s: State, p: nat)
    requires Inv(s) && p < |s.producers|
    ensures By(s.log[..s.tails], p) <= s.pushed[p]
  {
    assert ProducerOk(s, p);
    hide ProducersOk, PositionsOk, Unshared, ConsumerOk, Ix, By;
    if Holds(s.producers[p]) {
      HeldIsLast(s.log, s.producers[p].ticket, s.tails, p, s.pushed[p]);
    } else {
      assert s.pushed[p] + [] == s.pushed[p];
      ByPrefix(s.log, s.tails, p);
    }
  }

  /** What was reserved before a held position is what the producer has finished pushing. */
  lemma {:induction false} HeldIsLast(log: seq<Entry>, k: nat, tails: nat, p: nat, pushed: seq<Item>)
    requires tails <= k < |log| && log[k].producer == p && By(log, p) == pushed + [log[k].v]
    ensures By(log[..tails], p) <= pushed
  {
    ByPrefix(log, k + 1, p);
    assert log[..k + 1][..k] == log[..k];
    assert By(log[..k + 1], p) == By(log[..k], p) + [log[k].v];
    ByPrefix(log[..k], tails, p);
    assert log[..k][..tails] == log[..tails];
    hide By;
    WithoutLast(By(log[..k], p), pushed, log[k].v);
  }

  lemma WithoutLast(a: seq<Item>, b: seq<Item>, v: Item)
    requires a + [v] <= b + [v]
    ensures a <= b
  {
    assert forall i :: 0 <= i < |a| ==> a[i] == (a + [v])[i] == (b + [v])[i];
  }

  /** When nobody is pushing and the queue is empty, everything pushed has come out. */
  lemma {:induction false} AllDelivered(s: State, p: nat)
    requires Inv(s) && p < |s.producers| && s.producers[p].Idle? && Queue(s) == []
    ensures By(s.log[..s.tails], p) == s.pushed[p] && |s.popped| == |s.log|
  {
    assert s.log[..s.tails] == s.log;
  }

  // ----- what the callers gave -----

  /**
   * The arguments of producer `p`'s calls of `push` in a run, read off its calls, without
   * those whose push gave up; `before` are the ones from before the run.
   */
  ghost function Given(s: State, actions: seq<Action>, p: nat, before: seq<Item>): seq<Item>
    decreases |actions|
  {
    if actions == [] || !Enabled(s, actions[0]) then before
    else Given(Next(s, actions[0]), actions[1..], p, GivenAfter(s, actions[0], p, before))
  }

  ghost function GivenAfter(s: State, a: Action, p: nat, before: seq<Item>): seq<Item>
    requires Enabled(s, a)
  {
    match a
    case LoadHead(q, v) => if q == p then before + [v] else before
    case CheckTail(q) => if q == p && Next(s, a).producers[p].Idle? then ButLast(before) else before
    case _ => before
  }

  /** What a producer is in the middle of pushing. */
  function InHand(pr: Producer): seq<Item> {
    if pr.Idle? then [] else [pr.v]
  }

  lemma {:induction false} StepKeepsGiven(s: State, a: Action, p: nat, before: seq<Item>)
    requires Enabled(s, a) && p < |s.producers| && before == s.pushed[p] + InHand(s.producers[p])
    ensures var t := Next(s, a);
      p < |t.producers| && p < |t.pushed| && GivenAfter(s, a, p, before) == t.pushed[p] + InHand(t.producers[p])
  {
    hide Ix;
    if a.LoadHead? && a.p == p {
      assert before + [a.v] == s.pushed[p] + [a.v];
    } else if a.CheckTail? && a.p == p {
      assert before == s.pushed[p] + [s.producers[p].v] && ButLast(before) == s.pushed[p] + [];
    } else if a.Publish? && a.p == p {
      assert (s.pushed[p] + [s.producers[p].v]) + [] == before;
    }
  }

  /** What a producer has pushed and what it is pushing are the arguments of its calls, in order. */
  lemma {:induction false} PushedIsGiven(s: State, actions: seq<Action>, p: nat, before: seq<Item>)
    requires p < |s.producers| == |s.pushed| && before == s.pushed[p] + InHand(s.producers[p])
    ensures match Execute(s, actions)
      case None => true
      case Some(t) =>
        && p < |t.producers| == |t.pushed|
        && t.pushed[p] + InHand(t.producers[p]) == Given(s, actions, p, before)
    decreases |actions|
  {
    if actions != [] && Enabled(s, actions[0]) {
      StepKeepsGiven(s, actions[0], p, before);
      assert |Next(s, actions[0]).producers| == |Next(s, actions[0]).pushed|;
      var t := Next(s, actions[0]);
      hide Enabled, Next, GivenAfter, InHand;
      PushedIsGiven(t, actions[1..], p, GivenAfter(s, actions[0], p, before));
    }
  }

  /**
   * From the first call to the last pop: whatever the schedule, what has been popped of a
   * producer's items is the beginning of the arguments of its calls, in order, and once
   * the producer is idle and the queue is empty it is all of them.
   */
  lemma {:induction false} GivenIsPopped(s: State, actions: seq<Action>, p: nat)
    requires Init(s) && p < |s.producers|
    ensures match Execute(s, actions)
      case None => true
      case Some(t) =>
        && p < |t.producers| && t.tails == |t.popped| <= |t.log|
        && (forall k :: 0 <= k < |t.popped| ==> t.popped[k] == Some(t.log[k].v))
        && By(t.log[..t.tails], p) <= Given(s, actions, p, [])
        && (t.producers[p].Idle? && t.tails == |t.log| ==> By(t.log, p) == Given(s, actions, p, []))
  {
    InitHasInv(s);
    RunKeepsInv(s, actions);
    PushedIsGiven(s, actions, p, []);
    if Execute(s, actions).Some? {
      var t := Execute(s, actions).value;
      hide Execute, Given, ProducersOk, PositionsOk, Unshared, ConsumerOk, By, Ix, Init;
      OrderPerProducer(t, p);
      assert t.pushed[p] + [] == t.pushed[p];
    }
  }

  // ----- progress -----

  ghost predicate NoNewPush(actions: seq<Action>) {
    forall i :: 0 <= i < |actions| ==> !actions[i].LoadHead?
  }

  /** A run without new pushes. */
  ghost predicate Leads(s: State, actions: seq<Action>, t: State) {
    NoNewPush(actions) && Execute(s, actions) == Some(t)
  }

  lemma LeadsNowhere(s: State)
    ensures Leads(s, [], s)
  {
  }

  lemma {:induction false} LeadsOn(s: State, a: Action, t: State, rest: seq<Action>, u: State)
    requires Enabled(s, a) && !a.LoadHead? && t == Next(s, a) && Leads(t, rest, u)
    ensures Leads(s, [a] + rest, u)
  {
    hide Enabled, Next;
    assert ([a] + rest)[1..] == rest;
  }

  lemma {:induction false} LeadsFurther(s: State, a: seq<Action>, t: State, b: seq<Action>, u: State)
    requires Leads(s, a, t) && Leads(t, b, u)
    ensures Leads(s, a + b, u)
  {
    hide Execute;
    ExecuteAppend(s, a, b);
  }

  /** How far producer `p` is from the end of its push, as long as nobody else reserves. */
  function Remaining(s: State, p: nat): nat
    requires p < |s.producers|
  {
    match s.producers[p]
    case Idle => 0
    case Written(_, _, _) => 1
    case Reserved(_, _, _) => 2
    case HasRoom(_, _, at) => if at == s.heads then 3 else 5
    case HasHead(_, _, at) => if at == s.heads then 4 else 6
  }

  /** The next step of a producer that runs alone. */
  lemma {:induction false} ProducerStep(s: State, p: nat) returns (a: Action)
    requires Inv(s) && p < |s.producers| && s.producers[p] != Idle
    ensures Enabled(s, a) && !a.LoadHead?
    ensures var t := Next(s, a);
      Inv(t) && t.consumer == s.consumer && t.tails == s.tails
      && |t.producers| == |s.producers| && (forall q :: 0 <= q < |s.producers| && q != p ==> t.producers[q] == s.producers[q])
      && Remaining(t, p) < Remaining(s, p)
  {
    assert ProducerOk(s, p);
    a := match s.producers[p]
      case Written(_, _, _) => Publish(p)
      case Reserved(_, _, _) => WriteItem(p)
      case HasRoom(_, _, at) => if at == s.heads then Cas(p) else CasFails(p)
      case HasHead(_, _, _) => CheckTail(p);
    StepKeepsInv(s, a);
    hide Inv, Ix, By, ProducersOk, PositionsOk, HistoryOk;
  }

  /** A producer that runs alone comes to the end of its push. */
  lemma {:induction false} ProducerFinishes(s: State, p: nat) returns (actions: seq<Action>, t: State)
    requires Inv(s) && p < |s.producers|
    ensures Leads(s, actions, t) && Inv(t) && t.consumer == s.consumer && t.tails == s.tails
    ensures |t.producers| == |s.producers| && t.producers[p] == Idle
    ensures forall q :: 0 <= q < |s.producers| && q != p ==> t.producers[q] == s.producers[q]
    decreases Remaining(s, p)
  {
    if s.producers[p] == Idle {
      actions, t := [], s;
      LeadsNowhere(s);
    } else {
      var a := ProducerStep(s, p);
      hide Inv, Enabled, Next, Remaining, Leads;
      var rest, u := ProducerFinishes(Next(s, a), p);
      LeadsOn(s, a, Next(s, a), rest, u);
      actions, t := [a] + rest, u;
    }
  }

  /** All producers finish, one after another. */
  lemma {:induction false} ProducersFinish(s: State, k: nat) returns (actions: seq<Action>, t: State)
    requires Inv(s) && k <= |s.producers| && forall q :: 0 <= q < k ==> s.producers[q] == Idle
    ensures Leads(s, actions, t) && Inv(t)
    ensures forall q :: 0 <= q < |t.producers| ==> t.producers[q] == Idle
    decreases |s.producers| - k
  {
    hide Inv, Leads;
    if k == |s.producers| {
      actions, t := [], s;
      LeadsNowhere(s);
    } else {
      var first, u := ProducerFinishes(s, k);
      var rest, v := ProducersFinish(u, k + 1);
      LeadsFurther(s, first, u, rest, v);
      actions, t := first + rest, v;
    }
  }

  /** How far the consumer is from its next look at the ring. */
  function Stage(s: State): nat {
    match s.consumer
    case Away => if s.tails == s.heads then 0 else 6
    case HasTail(_) => 5
    case Waiting(_) => 4
    case Ready(_) => 3
    case Taken(_, _) => 2
    case Released(_, _) => 1
  }

  ghost predicate AtRest(s: State) {
    s.consumer == Away && s.tails == s.heads && forall q :: 0 <= q < |s.producers| ==> s.producers[q] == Idle
  }

  /** With all producers idle every reserved slot is published, so the consumer never spins. */
  lemma {:induction false} ConsumerStep(s: State) returns (a: Action)
    requires Inv(s) && !AtRest(s) && forall q :: 0 <= q < |s.producers| ==> s.producers[q] == Idle
    ensures Enabled(s, a) && !a.LoadHead? && Inv(Next(s, a)) && Next(s, a).producers == s.producers
    ensures var t := Next(s, a); t.heads == s.heads && s.tails <= s.heads && t.tails <= t.heads
    ensures var t := Next(s, a); t.tails > s.tails || (t.tails == s.tails && Stage(t) < Stage(s))
  {
    a := match s.consumer
      case Away => PopLoadTail
      case HasTail(_) => PopLoadHead
      case Waiting(_) => PopSpin
      case Ready(_) => PopTake
      case Taken(_, _) => PopRelease
      case Released(_, _) => PopStoreTail;
    if s.consumer.HasTail? {
      IndicesTellEmpty(s);
    } else if s.consumer.Waiting? {
      assert PositionOk(s, s.tails);
    }
    StepKeepsInv(s, a);
    hide Ix, By, ProducersOk, PositionsOk, HistoryOk, Unshared;
  }

  lemma {:induction false} ConsumerFinishes(s: State) returns (actions: seq<Action>, t: State)
    requires Inv(s) && s.tails <= s.heads && forall q :: 0 <= q < |s.producers| ==> s.producers[q] == Idle
    ensures Leads(s, actions, t) && Inv(t) && AtRest(t)
    decreases s.heads - s.tails, Stage(s)
  {
    if AtRest(s) {
      actions, t := [], s;
      LeadsNowhere(s);
    } else {
      var a := ConsumerStep(s);
      hide Inv, Enabled, Next, AtRest, Leads, Stage;
      var rest, u := ConsumerFinishes(Next(s, a));
      LeadsOn(s, a, Next(s, a), rest, u);
      actions, t := [a] + rest, u;
    }
  }

  /**
   * Every reserved slot can be released: from every reachable state there is a run without
   * new pushes after which every push and pop has ended, the queue is empty and all that
   * was ever reserved has been popped, each producer's items in its order.
   */
  lemma {:induction false} EverythingCanFinish(s: State) returns (actions: seq<Action>, t: State)
    requires Inv(s)
    ensures Leads(s, actions, t) && Inv(t) && AtRest(t) && Queue(t) == []
    ensures |t.popped| == |t.log| && forall k :: 0 <= k < |t.log| ==> t.popped[k] == Some(t.log[k].v)
    ensures forall p :: 0 <= p < |t.producers| ==> p < |t.pushed| && By(t.log, p) == t.pushed[p]
  {
    var first, u := ProducersFinish(s, 0);
    assert u.tails <= u.heads;
    var rest, v := ConsumerFinishes(u);
    LeadsFurther(s, first, u, rest, v);
    actions, t := first + rest, v;
    hide Leads, ProducersOk, PositionsOk, Unshared, ConsumerOk, By, Ix;
    forall p | 0 <= p < |t.producers|
      ensures p < |t.pushed| && By(t.log, p) == t.pushed[p]
    {
      assert t.pushed[p] + [] == t.pushed[p];
    }
  }

  /** A consumer spins only on a slot that a producer holds between its reservation and its publication. */
  lemma SpinHasHolder(s: State)
    requires Inv(s) && s.consumer.Waiting? && s.slots[s.consumer.tail].mark == Invalid(s.cap)
    ensures HeldBySome(s, s.tails)
  {
    assert PositionOk(s, s.tails);
  }

  /** A spin ends as soon as that one producer has finished: no other thread is needed. */
  lemma {:induction false} SpinEnds(s: State) returns (p: nat, actions: seq<Action>, t: State)
    requires Inv(s) && s.consumer.Waiting? && s.slots[s.consumer.tail].mark == Invalid(s.cap)
    ensures p < |s.producers| && Holds(s.producers[p]) && s.producers[p].ticket == s.tails
    ensures Leads(s, actions, t) && t.consumer == s.consumer
    ensures forall q :: 0 <= q < |s.producers| && q != p ==> q < |t.producers| && t.producers[q] == s.producers[q]
    ensures Enabled(t, PopSpin) && Next(t, PopSpin).consumer.Ready?
  {
    SpinHasHolder(s);
    p :| 0 <= p < |s.producers| && Holds(s.producers[p]) && s.producers[p].ticket == s.tails;
    actions, t := ProducerFinishes(s, p);
    SpinIsOver(s, t, p);
    hide Leads;
  }

  lemma {:induction false} SpinIsOver(s: State, t: State, p: nat)
    requires Inv(s) && Inv(t) && s.consumer.Waiting? && t.consumer == s.consumer && t.tails == s.tails
    requires p < |s.producers| == |t.producers| && Holds(s.producers[p]) && s.producers[p].ticket == s.tails
    requires t.producers[p] == Idle
    requires forall q :: 0 <= q < |s.producers| && q != p ==> t.producers[q] == s.producers[q]
    ensures Enabled(t, PopSpin) && Next(t, PopSpin).consumer.Ready?
  {
    hide Ix, By, HistoryOk;
    assert PositionOk(t, t.tails);
  }

  // ----- the guard on the compare-and-swap -----

  /**
   * Exactly when a compare-and-swap whose index matches is sound: the ring must still
   * have room at that moment, which the earlier check alone does not promise.
   */
  lemma CasIsSafeIff(s: State, p: nat)
    requires Inv(s) && p < |s.producers| && s.producers[p].HasRoom? && s.producers[p].head == s.head
    ensures Inv(Reserve(s, p)) <==> s.heads - s.tails < s.cap - 1
  {
    hide ProducersOk, PositionsOk, Unshared, HistoryOk, ConsumerOk, Ix;
    if s.heads - s.tails < s.cap - 1 {
      KeepsInvReserve(s, p);
    }
  }

  /** A producer that has read `head` and not yet swapped it. */
  predicate Racing(pr: Producer) {
    pr.HasHead? || pr.HasRoom?
  }

  ghost predicate Alone(s: State) {
    |s.producers| == 1 && (Racing(s.producers[0]) ==> s.producers[0].at == s.heads)
  }

  lemma StepKeepsAlone(s: State, a: Action)
    requires Enabled(s, a) && Alone(s)
    ensures Alone(Next(s, a))
  {
  }

  /** With a single producer the guard holds by itself, in every run. */
  lemma {:induction false} SingleProducerNeverLaps(s: State, actions: seq<Action>)
    requires s.cap > 0 && Alone(s)
    ensures match Execute(s, actions)
      case None => true
      case Some(t) => Alone(t) && (t.producers[0].HasRoom? && t.cap > 0 ==> NoLap(t, 0))
    decreases |actions|
  {
    if actions != [] {
      if Enabled(s, actions[0]) {
        StepKeepsAlone(s, actions[0]);
        assert Next(s, actions[0]).cap == s.cap;
        hide Enabled, Next, Alone;
        SingleProducerNeverLaps(Next(s, actions[0]), actions[1..]);
      }
    }
  }

  // ----- two runs of two producers -----

  function Start2(): State {
    State(2, 0, 0, [Slot(3, None), Slot(3, None)], [Idle, Idle], Away, 0, 0, [], [[], []], [])
  }

  lemma {:induction false} ExecuteAppend(s: State, a: seq<Action>, b: seq<Action>)
    requires Execute(s, a).Some?
    ensures Execute(s, a + b) == Execute(Execute(s, a).value, b)
    decreases |a|
  {
    hide Enabled, Next;
    if a == [] {
      assert a + b == b;
    } else {
      ExecuteAppend(Next(s, a[0]), a[1..], b);
      assert (a + b)[1..] == a[1..] + b;
    }
  }

  lemma {:induction false} ExecuteFirst(s: State, a: Action, t: State, rest: seq<Action>)
    requires Enabled(s, a) && Next(s, a) == t
    ensures Execute(s, [a] + rest) == Execute(t, rest)
  {
    hide Enabled, Next;
    assert ([a] + rest)[1..] == rest;
  }

  /** The whole push of `v` by producer 1, and a whole pop. */
  function PushOf(v: Item): seq<Action> {
    [LoadHead(1, v), CheckTail(1), Cas(1), WriteItem(1), Publish(1)]
  }

  function WholePop(): seq<Action> {
    [PopLoadTail, PopLoadHead, PopSpin, PopTake, PopRelease, PopStoreTail]
  }

  /** Producer 1 has pushed 20 while producer 0 stands still with a head that it read before. */
  function OnePushed(first: Producer): State {
    State(2, 1, 0, [Slot(0, Some(20)), Slot(3, None)], [first, Idle], Away, 1, 0, [Entry(1, 20)], [[], [20]], [])
  }

  /** And the consumer has popped it. */
  function OnePopped(first: Producer): State {
    State(2, 1, 1, [Slot(3, Some(20)), Slot(3, None)], [first, Idle], Away, 1, 1, [Entry(1, 20)], [[], [20]], [Some(20)])
  }

  /** Producer 1 has reserved a slot for 20. */
  function OneReserved(first: Producer): State {
    State(2, 1, 0, [Slot(3, None), Slot(3, None)], [first, Reserved(20, 0, 0)], Away, 1, 0, [Entry(1, 20)], [[], []], [])
  }

  lemma {:induction false} OneReservation(first: Producer)
    ensures Execute(Start2().(producers := [first, Idle]), PushOf(20))
         == Execute(OneReserved(first), [WriteItem(1), Publish(1)])
  {
    var s := Start2().(producers := [first, Idle]);
    assert Ix(1, 2) == 1;
    hide Execute, Ix;
    var s1 := s.(producers := [first, HasHead(20, 0, 0)]);
    var s2 := s.(producers := [first, HasRoom(20, 0, 0)]);
    ExecuteFirst(s, LoadHead(1, 20), s1, [CheckTail(1), Cas(1), WriteItem(1), Publish(1)]);
    ExecuteFirst(s1, CheckTail(1), s2, [Cas(1), WriteItem(1), Publish(1)]);
    ExecuteFirst(s2, Cas(1), OneReserved(first), [WriteItem(1), Publish(1)]);
  }

  lemma {:induction false} OnePublication(first: Producer)
    ensures Execute(OneReserved(first), [WriteItem(1), Publish(1)]) == Some(OnePushed(first))
  {
    var s := OneReserved(first);
    hide Execute, Ix;
    var s1 := s.(slots := [Slot(3, Some(20)), Slot(3, None)], producers := [first, Written(20, 0, 0)]);
    ExecuteFirst(s, WriteItem(1), s1, [Publish(1)]);
    assert [Publish(1)] + [] == [Publish(1)] && [WriteItem(1)] + [Publish(1)] == [WriteItem(1), Publish(1)];
    assert s1.pushed[1] + [20] == [20] && s1.pushed[1 := [20]] == [[], [20]];
    ExecuteFirst(s1, Publish(1), OnePushed(first), []);
    ExecuteNothing(OnePushed(first));
  }

  lemma OnePush(first: Producer)
    ensures Execute(Start2().(producers := [first, Idle]), PushOf(20)) == Some(OnePushed(first))
  {
    hide *;
    OneReservation(first);
    OnePublication(first);
  }

  lemma ExecuteNothing(s: State)
    ensures Execute(s, []) == Some(s)
  {
  }

  lemma {:induction false} OnePop(first: Producer)
    ensures Execute(OnePushed(first), WholePop()) == Some(OnePopped(first))
  {
    var s := OnePushed(first);
    assert Ix(1, 2) == 1;
    hide Execute, Ix;
    var s1 := s.(consumer := HasTail(0));
    var s2 := s.(consumer := Waiting(0));
    var s3 := s.(consumer := Ready(0));
    var s4 := s.(consumer := Taken(0, Some(20)));
    var s5 := s.(consumer := Released(0, Some(20)), slots := [Slot(3, Some(20)), Slot(3, None)]);
    ExecuteFirst(s, PopLoadTail, s1, [PopLoadHead, PopSpin, PopTake, PopRelease, PopStoreTail]);
    ExecuteFirst(s1, PopLoadHead, s2, [PopSpin, PopTake, PopRelease, PopStoreTail]);
    ExecuteFirst(s2, PopSpin, s3, [PopTake, PopRelease, PopStoreTail]);
    ExecuteFirst(s3, PopTake, s4, [PopRelease, PopStoreTail]);
    ExecuteFirst(s4, PopRelease, s5, [PopStoreTail]);
    ExecuteFirst(s5, PopStoreTail, OnePopped(first), []);
    ExecuteNothing(OnePopped(first));
  }

  /** While producer 0 stands still, an item goes through the ring. */
  lemma {:induction false} OneGoesThrough(first: Producer)
    ensures Execute(Start2().(producers := [first, Idle]), PushOf(20) + WholePop()) == Some(OnePopped(first))
  {
    hide *;
    OnePush(first);
    OnePop(first);
    ExecuteAppend(Start2().(producers := [first, Idle]), PushOf(20), WholePop());
  }

  lemma {:induction false} StartLoaded()
    ensures Init(Start2())
    ensures Execute(Start2(), [LoadHead(0, 10)]) == Some(Start2().(producers := [HasHead(10, 0, 0), Idle]))
    ensures Execute(Start2(), [LoadHead(0, 10), CheckTail(0)]) == Some(Start2().(producers := [HasRoom(10, 0, 0), Idle]))
  {
    var s, t := Start2(), Start2().(producers := [HasHead(10, 0, 0), Idle]);
    assert Ix(1, 2) == 1;
    hide Execute, Ix;
    var u := Start2().(producers := [HasRoom(10, 0, 0), Idle]);
    ExecuteFirst(s, LoadHead(0, 10), t, []);
    ExecuteNothing(t);
    assert [LoadHead(0, 10)] + [] == [LoadHead(0, 10)];
    ExecuteFirst(s, LoadHead(0, 10), t, [CheckTail(0)]);
    ExecuteFirst(t, CheckTail(0), u, []);
    ExecuteNothing(u);
    assert [CheckTail(0)] + [] == [CheckTail(0)];
  }

  const GIVE_UP_RUN: seq<Action> := [LoadHead(0, 10)] + (PushOf(20) + WholePop())

  /** `push` returns false on an empty queue: its head is stale and the tail has come to stand behind it. */
  lemma {:induction false} PushGivesUpOnEmptyQueue() returns (s: State)
    ensures Init(Start2()) && Execute(Start2(), GIVE_UP_RUN) == Some(s)
    ensures Inv(s) && Queue(s) == [] && Enabled(s, CheckTail(0)) && Next(s, CheckTail(0)).producers[0] == Idle
  {
    s := OnePopped(HasHead(10, 0, 0));
    assert Ix(1, 2) == 1;
    hide Execute, Ix, Inv, Init, PushOf, WholePop;
    StartLoaded();
    OneGoesThrough(HasHead(10, 0, 0));
    ExecuteAppend(Start2(), [LoadHead(0, 10)], PushOf(20) + WholePop());
    InitHasInv(Start2());
    RunKeepsInv(Start2(), GIVE_UP_RUN);
  }

  // ----- what the guard keeps out -----

  /** A producer stopped between its check and its swap while another one goes round the ring. */
  const LAP_RUN: seq<Action> :=
    [LoadHead(0, 10), CheckTail(0)] + (PushOf(20) + WholePop()) + [LoadHead(1, 30), CheckTail(1), Cas(1)]

  /** The check has passed and the index matches, but a lap has gone by: two items are lost from view. */
  ghost predicate Lapped(s: State) {
    && s.cap > 0 && s.tails <= |s.log| && |s.producers| == 2
    && s.producers[0].HasRoom? && s.producers[0].head == s.head && !NoLap(s, 0)
    && var t := Reserve(s, 0); t.head == t.tail && Queue(t) == [30, 10]
  }

  function TwoReserved(): State {
    State(2, 0, 1, [Slot(3, Some(20)), Slot(3, None)], [HasRoom(10, 0, 0), Reserved(30, 1, 1)], Away, 2, 1,
          [Entry(1, 20), Entry(1, 30)], [[], [20]], [Some(20)])
  }

  lemma {:induction false} SecondReservation()
    ensures Execute(OnePopped(HasRoom(10, 0, 0)), [LoadHead(1, 30), CheckTail(1), Cas(1)]) == Some(TwoReserved())
  {
    var first := HasRoom(10, 0, 0);
    var s := OnePopped(first);
    assert Ix(2, 2) == 0;
    hide Execute, Ix;
    var s1 := s.(producers := [first, HasHead(30, 1, 1)]);
    var s2 := s.(producers := [first, HasRoom(30, 1, 1)]);
    ExecuteFirst(s, LoadHead(1, 30), s1, [CheckTail(1), Cas(1)]);
    ExecuteFirst(s1, CheckTail(1), s2, [Cas(1)]);
    ExecuteFirst(s2, Cas(1), TwoReserved(), []);
    ExecuteNothing(TwoReserved());
  }

  lemma TwoReservedIsLapped()
    ensures Lapped(TwoReserved())
  {
    assert Ix(1, 2) == 1;
    assert Reserve(TwoReserved(), 0).log[1..] == [Entry(1, 30), Entry(0, 10)];
  }

  /** Without the guard on the swap there is a run after which a full queue looks empty. */
  lemma {:induction false} LapLosesItems()
    ensures Init(Start2()) && Execute(Start2(), LAP_RUN) == Some(TwoReserved())
    ensures Inv(TwoReserved()) && Lapped(TwoReserved())
  {
    hide Execute, Inv, Init, Lapped, Start2, PushOf, WholePop, TwoReserved, OnePopped;
    StartLoaded();
    var first := HasRoom(10, 0, 0);
    OneGoesThrough(first);
    SecondReservation();
    ExecuteAppend(Start2(), [LoadHead(0, 10), CheckTail(0)], PushOf(20) + WholePop());
    ExecuteAppend(Start2(), [LoadHead(0, 10), CheckTail(0)] + (PushOf(20) + WholePop()), [LoadHead(1, 30), CheckTail(1), Cas(1)]);
    InitHasInv(Start2());
    RunKeepsInv(Start2(), LAP_RUN);
    TwoReservedIsLapped();
  }
}
