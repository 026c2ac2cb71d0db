/**
 * `LockFreeQueue` as its two threads execute it, one shared access a step: one producer,
 * one consumer.  `heads` and `tails` count how often the stored indices have been advanced.
 */
module SpscQueue {
  import opened Common
  import opened Ring

  type Item = int

  datatype Producer =
    | Idle
    | HasHead(v: Item, head: nat)
    | HasRoom(v: Item, head: nat)
    | Wrote(v: Item, head: nat)

  datatype Consumer =
    | Away
    | HasTail(tail: nat)
    | NotEmpty(tail: nat)
    | Taken(tail: nat, item: Option<Item>)

  datatype State = State(
    cap: nat, head: nat, tail: nat, data: seq<Option<Item>>,
    producer: Producer, consumer: Consumer,
    heads: nat, tails: nat, pushed: seq<Item>, popped: seq<Option<Item>>)

  ghost predicate Init(s: State) {
    && s.cap > 0 && s.head == 0 && s.tail == 0 && s.heads == 0 && s.tails == 0 && |s.data| == s.cap
    && s.producer == Idle && s.consumer == Away && s.pushed == [] && s.popped == []
  }

  datatype Action = LoadHead(v: Item) | CheckTail | WriteItem | StoreHead | LoadTail | CheckHead | TakeItem | StoreTail

  predicate Enabled(s: State, a: Action) {
    && s.cap > 0 && |s.data| == s.cap && s.head < s.cap && s.tail < s.cap
    && match a
       case LoadHead(_) => s.producer.Idle?
       case CheckTail => s.producer.HasHead?
       case WriteItem => s.producer.HasRoom? && s.producer.head < s.cap
       case StoreHead => s.producer.Wrote?
       case LoadTail => s.consumer.Away?
       case CheckHead => s.consumer.HasTail?
       case TakeItem => s.consumer.NotEmpty? && s.consumer.tail < s.cap
       case StoreTail => s.consumer.Taken?
  }

  function Next(s: State, a: Action): State
    requires Enabled(s, a)
  {
    match a
    case LoadHead(v) => s.(producer := HasHead(v, s.head))
    case CheckTail =>
      var p := s.producer;
      s.(producer := if Ix(p.head + 1, s.cap) == s.tail then Idle else HasRoom(p.v, p.head))
    case WriteItem =>
      var p := s.producer;
      s.(data := s.data[p.head := Some(p.v)], producer := Wrote(p.v, p.head))
    case StoreHead =>
      var p := s.producer;
      s.(head := Ix(p.head + 1, s.cap), heads := s.heads + 1, pushed := s.pushed + [p.v], producer := Idle)
    case LoadTail => s.(consumer := HasTail(s.tail))
    case CheckHead =>
      s.(consumer := if s.consumer.tail == s.head then Away else NotEmpty(s.consumer.tail))
    case TakeItem => s.(consumer := Taken(s.consumer.tail, s.data[s.consumer.tail]))
    case StoreTail =>
      var c := s.consumer;
      s.(tail := Ix(c.tail + 1, s.cap), tails := s.tails + 1, popped := s.popped + [c.item], consumer := Away)
  }

  ghost predicate Counters(s: State) {
    && s.cap > 0 && |s.data| == s.cap && s.tails <= s.heads < s.tails + s.cap
    && s.head == Ix(s.heads, s.cap) && s.tail == Ix(s.tails, s.cap)
    && |s.pushed| == s.heads && |s.popped| == s.tails
  }

  ghost predicate Inv(s: State) {
    && Counters(s)
    && (forall k :: s.tails <= k < s.heads ==> s.data[Ix(k, s.cap)] == Some(s.pushed[k]))
    && (forall k :: 0 <= k < s.tails ==> s.popped[k] == Some(s.pushed[k]))
    && (!s.producer.Idle? ==> s.producer.head == s.head)
    && (s.producer.HasRoom? || s.producer.Wrote? ==> s.heads + 1 < s.tails + s.cap)
    && (s.producer.Wrote? ==> s.data[s.head] == Some(s.producer.v))
    && (!s.consumer.Away? ==> s.consumer.tail == s.tail)
    && (s.consumer.NotEmpty? || s.consumer.Taken? ==> s.tails < s.heads)
    && (s.consumer.Taken? ==> s.consumer.item == Some(s.pushed[s.tails]))
  }

  /** The two comparisons of stored indices say what they are meant to say. */
  lemma IndicesTell(s: State)
    requires Counters(s)
    ensures Ix(s.head + 1, s.cap) == s.tail <==> s.heads + 1 == s.tails + s.cap
    ensures s.tail == s.head <==> s.tails == s.heads
  {
    hide Ix;
    IxNext(s.heads, s.cap);
    IxNext(s.tails, s.cap);
    if s.heads + 1 < s.tails + s.cap {
      IxInjective(s.tails, s.heads + 1, s.cap);
    } else {
      IxLap(s.tails, s.cap);
    }
    if s.tails < s.heads {
      IxInjective(s.tails, s.heads, s.cap);
    }
  }

  lemma {:induction false} StepKeepsInv(s: State, a: Action)
    requires Inv(s) && Enabled(s, a)
    ensures Inv(Next(s, a))
  {
    hide Ix;
    IndicesTell(s);
    IxNext(s.heads, s.cap);
    IxNext(s.tails, s.cap);
    WindowInjective(s.tails, s.cap);
  }

  // ----- runs -----

  ghost predicate CanRun(s: State, actions: seq<Action>)
    decreases |actions|
  {
    actions != [] ==> Enabled(s, actions[0]) && CanRun(Next(s, actions[0]), actions[1..])
  }

  ghost function Run(s: State, actions: seq<Action>): State
    requires CanRun(s, actions)
    decreases |actions|
  {
    if actions == [] then s else Run(Next(s, actions[0]), actions[1..])
  }

  /** No assumption on the schedule: the invariant holds after every interleaving. */
  lemma {:induction false} RunKeepsInv(s: State, actions: seq<Action>)
    requires Inv(s) && CanRun(s, actions)
    ensures Inv(Run(s, actions))
    decreases |actions|
  {
    hide Inv, Next, Enabled;
    if actions != [] {
      StepKeepsInv(s, actions[0]);
      RunKeepsInv(Next(s, actions[0]), actions[1..]);
    }
  }

  lemma InitHasInv(s: State)
    requires Init(s)
    ensures Inv(s)
  {
  }

  // ----- refinement -----

  /** The queue that the two indices delimit. */
  ghost function Contents(s: State): seq<Item>
    requires Counters(s)
  {
    s.pushed[s.tails..]
  }

  /**
   * Each step is a step of a FIFO of at most `cap - 1` items: publishing the head appends
   * the item of the push, publishing the tail takes off the item that the pop returns, no
   * other step changes anything, and a push or a pop gives up exactly on a full or an
   * empty queue.
   */
  lemma {:induction false} StepRefinesFifo(s: State, a: Action)
    requires Inv(s) && Enabled(s, a)
    ensures Counters(s) && Counters(Next(s, a))
    ensures |Contents(s)| < s.cap
    ensures Contents(Next(s, a)) ==
      if a.StoreHead? then Contents(s) + [s.producer.v]
      else if a.StoreTail? && Contents(s) != [] then Contents(s)[1..]
      else Contents(s)
    ensures a.StoreTail? ==> Contents(s) != [] && s.consumer.item == Some(Contents(s)[0])
    ensures a.CheckTail? ==> (Next(s, a).producer.Idle? <==> |Contents(s)| == s.cap - 1)
    ensures a.CheckHead? ==> (Next(s, a).consumer.Away? <==> Contents(s) == [])
  {
    StepKeepsInv(s, a);
    IndicesTell(s);
    hide Ix;
    if a.StoreHead? {
      assert (s.pushed + [s.producer.v])[s.tails..] == s.pushed[s.tails..] + [s.producer.v];
    } else if a.StoreTail? {
      assert s.pushed[s.tails + 1..] == s.pushed[s.tails..][1..];
    }
  }

  /** After any run the popped items are the first pushed ones, unchanged, in order and once. */
  lemma {:induction false} PoppedInOrder(s: State, actions: seq<Action>)
    requires Init(s) && CanRun(s, actions)
    ensures var t := Run(s, actions);
      |t.popped| <= |t.pushed| && forall k :: 0 <= k < |t.popped| ==> t.popped[k] == Some(t.pushed[k])
  {
    InitHasInv(s);
    RunKeepsInv(s, actions);
    hide Run, CanRun, Init;
  }

  // ----- what the caller gave -----

  /**
   * The arguments of the calls of `push` in a run, read off the calls, without those whose
   * push gave up; `before` are the ones from before the run.
   */
  ghost function Given(s: State, actions: seq<Action>, before: seq<Item>): seq<Item>
    requires CanRun(s, actions)
    decreases |actions|
  {
    if actions == [] then before
    else Given(Next(s, actions[0]), actions[1..], GivenAfter(s, actions[0], before))
  }

  ghost function GivenAfter(s: State, a: Action, before: seq<Item>): seq<Item>
    requires Enabled(s, a)
  {
    match a
    case LoadHead(v) => before + [v]
    case CheckTail => if Next(s, a).producer.Idle? then ButLast(before) else before
    case _ => before
  }

  function InHand(p: Producer): seq<Item> {
    if p.Idle? then [] else [p.v]
  }

  lemma {:induction false} StepKeepsGiven(s: State, a: Action, before: seq<Item>)
    requires Enabled(s, a) && before == s.pushed + InHand(s.producer)
    ensures var t := Next(s, a); GivenAfter(s, a, before) == t.pushed + InHand(t.producer)
  {
    hide Ix;
    if a.LoadHead? {
      assert before + [a.v] == s.pushed + [a.v];
    } else if a.CheckTail? {
      assert ButLast(before) == s.pushed + [];
    } else if a.StoreHead? {
      assert (s.pushed + [s.producer.v]) + [] == before;
    }
  }

  lemma {:induction false} PushedIsGiven(s: State, actions: seq<Action>, before: seq<Item>)
    requires CanRun(s, actions) && before == s.pushed + InHand(s.producer)
    ensures var t := Run(s, actions); t.pushed + InHand(t.producer) == Given(s, actions, before)
    decreases |actions|
  {
    if actions != [] {
      hide Enabled, Next, GivenAfter, InHand;
      StepKeepsGiven(s, actions[0], before);
      PushedIsGiven(Next(s, actions[0]), actions[1..], GivenAfter(s, actions[0], before));
    }
  }

  /** After any run the popped items are the first arguments of the calls of `push`, in order. */
  lemma {:induction false} GivenIsPopped(s: State, actions: seq<Action>)
    requires Init(s) && CanRun(s, actions)
    ensures var t := Run(s, actions); var given := Given(s, actions, []);
      |t.popped| <= |given| && forall k :: 0 <= k < |t.popped| ==> t.popped[k] == Some(given[k])
  {
    PoppedInOrder(s, actions);
    PushedIsGiven(s, actions, []);
    hide Run, CanRun, Given;
  }

  // ----- progress -----

  ghost predicate AtRest(s: State) {
    s.producer == Idle && s.consumer == Away && s.tails == s.heads
  }

  /** How far the push in progress is from its end. */
  function Pending(s: State): nat {
    match s.producer
    case Idle => 0
    case Wrote(_, _) => 1
    case HasRoom(_, _) => 2
    case HasHead(_, _) => 3
  }

  /** And how far the consumer is from its next look at the ring. */
  function Stage(s: State): nat {
    match s.consumer
    case Away => if s.tails == s.heads then 0 else 4
    case Taken(_, _) => 1
    case NotEmpty(_) => 2
    case HasTail(_) => 3
  }

  lemma {:induction false} HelpfulStep(s: State) returns (a: Action)
    requires Inv(s) && !AtRest(s)
    ensures Enabled(s, a) && !a.LoadHead? && Inv(Next(s, a))
    ensures var t := Next(s, a);
      || (t.producer != s.producer && Pending(t) < Pending(s))
      || (t.producer == s.producer && t.heads == s.heads && (t.tails > s.tails || (t.tails == s.tails && Stage(t) < Stage(s))))
  {
    a := match s.producer
      case HasHead(_, _) => CheckTail
      case HasRoom(_, _) => WriteItem
      case Wrote(_, _) => StoreHead
      case Idle =>
        (match s.consumer
         case Away => LoadTail
         case HasTail(_) => CheckHead
         case NotEmpty(_) => TakeItem
         case Taken(_, _) => StoreTail);
    StepKeepsInv(s, a);
    IndicesTell(s);
    hide Ix;
  }

  /** From every reachable state the push and the pop in progress can end, and the queue can be emptied. */
  lemma {:induction false} EverythingCanFinish(s: State) returns (actions: seq<Action>)
    requires Inv(s)
    ensures forall i :: 0 <= i < |actions| ==> !actions[i].LoadHead?
    ensures CanRun(s, actions) && AtRest(Run(s, actions)) && |Run(s, actions).popped| == |Run(s, actions).pushed|
    decreases Pending(s), s.heads - s.tails, Stage(s)
  {
    if AtRest(s) {
      actions := [];
    } else {
      var a := HelpfulStep(s);
      assert s.tails <= s.heads && Next(s, a).tails <= Next(s, a).heads;
      hide Inv, Enabled, Next, AtRest, Pending, Stage;
      var rest := EverythingCanFinish(Next(s, a));
      actions := [a] + rest;
      assert actions[1..] == rest;
    }
  }
}
