/** The reading side of a connection over a whole stream of replies, however it is cut. */
module RedisReplies {
  import opened Common
  import opened Bytes
  import opened Resp
  import opened RespStreams
  import opened RespEncoding
  import opened RedisReader

  ghost predicate AllWellFormed(rs: seq<Value>) {
    forall r :: r in rs ==> WellFormed(r)
  }

  /**
   * The first `k` bytes of the stream do not end before an element of an array, or leave
   * no room for a zero byte behind them.
   */
  ghost predicate CleanCut(rs: seq<Value>, k: nat) {
    k == BUFFER_SIZE || !CutBeforeElement(EncodeAll(rs), |EncodeAll(rs[..Whole(rs, k)])|, k)
  }

  /**
   * `rs` are the replies that have not been delivered: their bytes are those held and
   * those still on the `wire`, and none of them is held whole.
   */
  ghost predicate Reassembled(r: Reader, wire: seq<byte>, rs: seq<Value>) {
    r.held + wire == EncodeAll(rs) && Whole(rs, |r.held|) == 0 && !r.lost
  }

  lemma {:induction false} EncodeAllAppend(a: seq<Value>, b: seq<Value>)
    ensures EncodeAll(a + b) == EncodeAll(a) + EncodeAll(b)
  {
    hide Encode;
    if a == [] {
      assert a + b == b && EncodeAll(a) == [];
    } else {
      EncodeAllAppend(a[1..], b);
      assert (a + b)[1..] == a[1..] + b;
      Assoc(Encode(a[0]), EncodeAll(a[1..]), EncodeAll(b));
    }
  }

  /** Where the complete replies end, and that the next one lacks bytes. */
  lemma {:induction false} WholeEnds(rs: seq<Value>, k: nat)
    requires k <= |EncodeAll(rs)|
    ensures var w := Whole(rs, k);
      && |EncodeAll(rs[..w])| <= k
      && Whole(rs[w..], k - |EncodeAll(rs[..w])|) == 0
    decreases |rs|
  {
    WholeStep(rs, k);
    if rs != [] && |Encode(rs[0])| <= k {
      hide Encode;
      WholeEnds(rs[1..], k - |Encode(rs[0])|);
      hide EncodeAll, Whole;
      AllOfFirst(rs, Whole(rs, k));
      assert rs[1..][Whole(rs, k) - 1..] == rs[Whole(rs, k)..];
    } else {
      assert rs[..0] == [] && rs[0..] == rs;
      hide Encode;
    }
  }

  /** Replies behind those that have arrived change nothing. */
  lemma {:induction false} MoreReplies(r: Reader, wire: seq<byte>, rs: seq<Value>, v: Value)
    requires Reassembled(r, wire, rs)
    ensures Reassembled(r, wire + Encode(v), rs + [v])
  {
    hide *;
    ReassembledIff(r, wire, rs);
    EncodeSnoc(rs, v);
    Assoc(r.held, wire, Encode(v));
    StillNone(rs, v, |r.held|);
    ReassembledIff(r, wire + Encode(v), rs + [v]);
  }

  lemma {:induction false} StillNone(rs: seq<Value>, v: Value, k: nat)
    requires Whole(rs, k) == 0 && k <= |EncodeAll(rs)|
    ensures Whole(rs + [v], k) == 0
  {
    EncodeIsNotEmpty(v);
    WholeStep(rs, k);
    WholeStep(rs + [v], k);
    hide Encode, Whole;
  }

  /** The buffer is full with a reply that is not complete only if that reply does not fit in it. */
  lemma {:induction false} FullMeansTooLong(r: Reader, wire: seq<byte>, rs: seq<Value>)
    requires Reassembled(r, wire, rs) && |r.held| >= BUFFER_SIZE
    ensures rs != [] && |Encode(rs[0])| > BUFFER_SIZE
  {
    WholeStep(rs, |r.held|);
    hide EncodeAll, Encode;
  }

  /** The stream without its first replies is the stream of the others. */
  lemma {:induction false} StreamSplit(rs: seq<Value>, m: nat)
    requires m <= |rs|
    ensures var c := |EncodeAll(rs[..m])|; c <= |EncodeAll(rs)| && EncodeAll(rs)[c..] == EncodeAll(rs[m..])
  {
    assert rs == rs[..m] + rs[m..];
    EncodeAllAppend(rs[..m], rs[m..]);
  }

  /** A cut between replies, or in one that is no array, is never before an element. */
  lemma {:induction false} FlatIsClean(rs: seq<Value>, k: nat)
    requires AllWellFormed(rs) && k <= |EncodeAll(rs)|
    requires var w := Whole(rs, k); w < |rs| && |EncodeAll(rs[..w])| < k ==> !rs[w].Array? || rs[w].elements == []
    ensures CleanCut(rs, k)
  {
    var w, d := Whole(rs, k), EncodeAll(rs);
    var c := |EncodeAll(rs[..w])|;
    WholeEnds(rs, k);
    StreamSplit(rs, w);
    hide EncodeAll, Encode, Whole, BeforeType, ParseValue, WellFormed;
    if c < k {
      WholeStep(rs[w..], k - c);
      assert rs[w..][0] == rs[w] && rs[w] in rs;
      FirstParses(d, c, rs[w..]);
      OnlyArraysAreCut(d, c, k);
    }
  }

  /** One turn on a buffer that begins with a reply, exactly: a cut that is not clean costs a byte. */
  lemma {:induction false} TurnOfReplies(rs: seq<Value>, k: nat, promises: seq<nat>)
    requires AllWellFormed(rs) && k <= |EncodeAll(rs)| && k <= BUFFER_SIZE && Whole(rs, k) <= |promises|
    ensures var w := Whole(rs, k);
      var next := |EncodeAll(rs[..w])|;
      && ReadFrom(EncodeAll(rs)[..k] + Zeros(BUFFER_SIZE - k), k, 0, promises)
         == Turn(if CleanCut(rs, k) then next else next + 1, promises[w..], Paired(promises[..w], rs[..w]), false)
      && (!CleanCut(rs, k) ==> next < k)
  {
    var z := BUFFER_SIZE - k;
    assert Padded(EncodeAll(rs), k, z) == EncodeAll(rs)[..k] + Zeros(z);
    hide EncodeAll, Encode, Whole, BeforeType, ParseValue, WellFormed, ReadFrom, Padded, Paired;
    assert EncodeAll(rs)[0..] == EncodeAll(rs);
    TurnOf(EncodeAll(rs), 0, rs, k, z, promises);
  }

  /**
   * `n` more bytes of the stream: every reply that they complete goes to the next promise,
   * in order, and exactly the bytes of the reply that they do not complete are held, if
   * and only if they are cut cleanly.
   */
  lemma {:induction false} ReceiveReassembles(r: Reader, wire: seq<byte>, rs: seq<Value>, n: nat)
    requires AllWellFormed(rs) && Reassembled(r, wire, rs)
    requires n <= |wire| && |r.held| + n <= BUFFER_SIZE
    requires Whole(rs, |r.held| + n) <= |r.promises|
    ensures var w := Whole(rs, |r.held| + n);
      var t := AfterRead(r, wire[..n]);
      && (Reassembled(t, wire[n..], rs[w..]) <==> CleanCut(rs, |r.held| + n))
      && t.promises == r.promises[w..]
      && t.resolved == r.resolved + Paired(r.promises[..w], rs[..w])
  {
    hide *;
    ReassembledIff(r, wire, rs);
    var k := |r.held| + n;
    var w := Whole(rs, k);
    var d, bytes := EncodeAll(rs), wire[..n];
    var next := |EncodeAll(rs[..w])|;
    var pos := if CleanCut(rs, k) then next else next + 1;
    Split(r.held, wire, n, d);
    TurnOfReplies(rs, k, r.promises);
    WholeEnds(rs, k);
    StreamSplit(rs, w);
    AfterReadIs(r, bytes, Turn(pos, r.promises[w..], Paired(r.promises[..w], rs[..w]), false));
    Kept(r.held + bytes, wire[n..], pos, d);
    ReassembledIff(AfterRead(r, bytes), wire[n..], rs[w..]);
    SuffixLength(d, pos, next);
  }

  lemma SuffixLength(d: seq<byte>, a: nat, b: nat)
    requires a <= |d| && b <= |d|
    ensures d[a..] == d[b..] <==> a == b
  {
    if a != b {
      assert |d[a..]| != |d[b..]|;
    }
  }

  lemma ReassembledIff(r: Reader, wire: seq<byte>, rs: seq<Value>)
    ensures Reassembled(r, wire, rs)
       <==> r.held + wire == EncodeAll(rs) && Whole(rs, |r.held|) == 0 && !r.lost
  {
    hide EncodeAll, Whole;
  }

  lemma AfterReadIs(r: Reader, bytes: seq<byte>, t: Turn)
    requires |r.held| + |bytes| <= BUFFER_SIZE
    requires ReadFrom(r.held + bytes + Zeros(BUFFER_SIZE - |r.held| - |bytes|), |r.held + bytes|, 0, r.promises) == t
    ensures AfterRead(r, bytes)
         == Reader(Keep(r.held + bytes, t.pos), t.promises, r.resolved + t.resolved, r.lost || t.lost)
  {
    hide ReadFrom, Zeros, Keep;
  }

  lemma Split(held: seq<byte>, wire: seq<byte>, n: nat, d: seq<byte>)
    requires held + wire == d && n <= |wire|
    ensures held + wire[..n] == d[..|held| + n] && (held + wire[..n]) + wire[n..] == d
  {
  }

  lemma Kept(held: seq<byte>, wire: seq<byte>, next: nat, d: seq<byte>)
    requires held + wire == d && next <= |held|
    ensures Keep(held, next) + wire == d[next..] && |Keep(held, next)| == |held| - next
  {
  }

  // ----- any chunking -----

  /** Every chunk is something that `read` can return: not empty, and no more than the room there is. */
  ghost predicate CanRead(r: Reader, chunks: seq<seq<byte>>)
    decreases |chunks|
  {
    chunks != [] ==>
      && 0 < |chunks[0]| <= BUFFER_SIZE - |r.held|
      && CanRead(AfterRead(r, chunks[0]), chunks[1..])
  }

  ghost function AfterReads(r: Reader, chunks: seq<seq<byte>>): Reader
    requires CanRead(r, chunks)
    decreases |chunks|
  {
    if chunks == [] then r else AfterReads(AfterRead(r, chunks[0]), chunks[1..])
  }

  /** Every chunk is cut cleanly. */
  ghost predicate CleanChunks(r: Reader, chunks: seq<seq<byte>>, rs: seq<Value>)
    requires CanRead(r, chunks)
    decreases |chunks|
  {
    chunks != [] ==>
      var k := |r.held| + |chunks[0]|;
      && CleanCut(rs, k)
      && CleanChunks(AfterRead(r, chunks[0]), chunks[1..], rs[Whole(rs, k)..])
  }

  /** However the rest of the stream is cut, as long as it is cleanly, all its replies are delivered in order. */
  lemma {:induction false} ChunksAreDelivered(r: Reader, chunks: seq<seq<byte>>, rs: seq<Value>)
    requires AllWellFormed(rs) && Reassembled(r, Concat(chunks), rs) && |rs| <= |r.promises|
    requires CanRead(r, chunks) && CleanChunks(r, chunks, rs)
    ensures AfterReads(r, chunks)
         == Reader([], r.promises[|rs|..], r.resolved + Paired(r.promises[..|rs|], rs), false)
    decreases |chunks|
  {
    hide EncodeAll, WellFormed, Encode, AfterRead, Whole, Paired, AllWellFormed, CleanCut;
    if chunks == [] {
      NothingLeft(r, rs);
      hide *;
      assert r.promises[0..] == r.promises && r.promises[..0] == [];
      assert r.resolved + Paired([], []) == r.resolved by { hide Paired; }
    } else {
      var n, wire := |chunks[0]|, Concat(chunks);
      assert wire[..n] == chunks[0] && wire[n..] == Concat(chunks[1..]);
      hide Reassembled, Concat;
      var w := Whole(rs, |r.held| + n);
      ReceiveReassembles(r, wire, rs, n);
      WellFormedRest(rs, w);
      ChunksAreDelivered(AfterRead(r, chunks[0]), chunks[1..], rs[w..]);
      hide CanRead;
      PairedTwice(r.resolved, r.promises, rs, w);
    }
  }

  lemma WellFormedRest(rs: seq<Value>, m: nat)
    requires AllWellFormed(rs) && m <= |rs|
    ensures AllWellFormed(rs[m..]) && AllWellFormed(rs[..m])
  {
    hide WellFormed;
  }

  /** When nothing is on the wire any more, nothing is left to deliver. */
  lemma {:induction false} NothingLeft(r: Reader, rs: seq<Value>)
    requires Reassembled(r, [], rs)
    ensures r.held == [] && rs == []
  {
    assert r.held == EncodeAll(rs);
    AllWhole(rs);
    hide Whole;
  }

  lemma {:induction false} AllWhole(rs: seq<Value>)
    ensures Whole(rs, |EncodeAll(rs)|) == |rs|
  {
    hide Encode;
    if rs != [] {
      AllWhole(rs[1..]);
    }
  }

  lemma {:induction false} PairedTwice(given: seq<Resolution>, ps: seq<nat>, vs: seq<Value>, w: nat)
    requires w <= |vs| <= |ps|
    ensures (given + Paired(ps[..w], vs[..w])) + Paired(ps[w..][..|vs| - w], vs[w..]) == given + Paired(ps[..|vs|], vs)
    ensures ps[w..][|vs| - w..] == ps[|vs|..]
  {
  }

  /** A stream without arrays is cut cleanly by any chunks. */
  lemma {:induction false} FlatChunksAreClean(r: Reader, chunks: seq<seq<byte>>, rs: seq<Value>)
    requires AllWellFormed(rs) && Reassembled(r, Concat(chunks), rs) && |rs| <= |r.promises| && CanRead(r, chunks)
    requires forall i :: 0 <= i < |rs| ==> !rs[i].Array?
    ensures CleanChunks(r, chunks, rs)
    decreases |chunks|
  {
    hide EncodeAll, WellFormed, Encode, AfterRead, Whole, Paired, AllWellFormed, CleanCut;
    if chunks != [] {
      var n, wire := |chunks[0]|, Concat(chunks);
      assert wire[..n] == chunks[0] && wire[n..] == Concat(chunks[1..]);
      assert |r.held| + n <= |EncodeAll(rs)|;
      hide Reassembled, Concat;
      var w := Whole(rs, |r.held| + n);
      FlatIsClean(rs, |r.held| + n);
      ReceiveReassembles(r, wire, rs, n);
      WellFormedRest(rs, w);
      FlatChunksAreClean(AfterRead(r, chunks[0]), chunks[1..], rs[w..]);
    }
  }

  /**
   * A whole stream of replies in any chunks that `read` can return, none of them cut
   * before an element of an array, resolves the promises that wait for them; without
   * arrays that is any chunks at all.
   */
  lemma {:induction false} AnyChunking(promises: seq<nat>, chunks: seq<seq<byte>>, rs: seq<Value>)
    requires AllWellFormed(rs) && Concat(chunks) == EncodeAll(rs) && |rs| <= |promises|
    requires CanRead(Reader([], promises, [], false), chunks)
    requires CleanChunks(Reader([], promises, [], false), chunks, rs) || forall i :: 0 <= i < |rs| ==> !rs[i].Array?
    ensures AfterReads(Reader([], promises, [], false), chunks)
         == Reader([], promises[|rs|..], Paired(promises[..|rs|], rs), false)
  {
    var r := Reader([], promises, [], false);
    WholeStep(rs, 0);
    hide AllWellFormed, EncodeAll, CanRead, AfterReads, Paired, Concat, Whole, CleanChunks;
    assert [] + Concat(chunks) == Concat(chunks);
    if forall i :: 0 <= i < |rs| ==> !rs[i].Array? {
      FlatChunksAreClean(r, chunks, rs);
    }
    ChunksAreDelivered(r, chunks, rs);
    assert [] + Paired(promises[..|rs|], rs) == Paired(promises[..|rs|], rs);
  }
}
