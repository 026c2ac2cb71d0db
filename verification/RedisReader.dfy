/** Reassembly of replies from the read buffer, and the promises they resolve. */
module RedisReader {
  import opened Bytes
  import opened Decimal
  import opened Resp
  import opened RespStreams
  import opened RespEncoding
  import opened ReadBuffer
  import Net = ConnectionSpec

  const BUFFER_SIZE: nat := 4096

  /** A promise, by number, and the value it is given. */
  datatype Resolution = Resolution(promise: nat, v: Value)

  /**
   * What one call of the read callback does.  `lost` says that a reply found no promise,
   * or that a bulk length below -1 moved the source's cursor backwards; nothing is modelled
   * from there on.
   */
  datatype Turn = Turn(pos: nat, promises: seq<nat>, resolved: seq<Resolution>, lost: bool)

  /** The read callback from `pos` on; it parses all of `buf`, of which `size` bytes are data. */
  function ReadFrom(buf: seq<byte>, size: nat, pos: nat, promises: seq<nat>): (t: Turn)
    requires size <= |buf|
    ensures |t.resolved| + |t.promises| == |promises|
    decreases |buf| - pos
  {
    if pos >= size then Turn(pos, promises, [], false)
    else
      match ParseValue(buf, pos)
      case Fail(Incomplete) => Turn(pos, promises, [], false)
      case Fail(Malformed) => Turn(pos + 1, promises, [], false)
      case Fail(NegativeLength) => Turn(pos, promises, [], true)
      case Ok(v, q) =>
        if promises == [] then Turn(q, [], [], true)
        else
          var t := ReadFrom(buf, size, q, promises[1..]);
          t.(resolved := [Resolution(promises[0], v)] + t.resolved)
  }

  function Prefixed(given: seq<Resolution>, t: Turn): Turn {
    t.(resolved := given + t.resolved)
  }

  /** One reply of the loop, after what it has `given` to promises so far. */
  lemma {:induction false} OneReply(buf: seq<byte>, size: nat, pos: nat, promises: seq<nat>, given: seq<Resolution>)
    requires pos < size <= |buf|
    ensures Prefixed(given, ReadFrom(buf, size, pos, promises)) ==
      match ParseValue(buf, pos)
      case Fail(Incomplete) => Turn(pos, promises, given, false)
      case Fail(Malformed) => Turn(pos + 1, promises, given, false)
      case Fail(NegativeLength) => Turn(pos, promises, given, true)
      case Ok(v, q) =>
        if promises == [] then Turn(q, [], given, true)
        else Prefixed(given + [Resolution(promises[0], v)], ReadFrom(buf, size, q, promises[1..]))
  {
    hide ParseValue;
    assert given + [] == given;
    if ParseValue(buf, pos).Ok? && promises != [] {
      var one := [Resolution(promises[0], ParseValue(buf, pos).v)];
      var t := ReadFrom(buf, size, ParseValue(buf, pos).pos, promises[1..]);
      assert given + (one + t.resolved) == (given + one) + t.resolved;
    }
  }

  lemma PrefixedNone(t: Turn)
    ensures Prefixed([], t) == t
  {
    assert [] + t.resolved == t.resolved;
  }

  lemma NoMoreReplies(buf: seq<byte>, size: nat, pos: nat, promises: seq<nat>)
    requires size <= |buf| && size <= pos
    ensures ReadFrom(buf, size, pos, promises) == Turn(pos, promises, [], false)
  {
  }

  /** The reading side of a connection; `resolved` records what was given to promises. */
  datatype Reader = Reader(held: seq<byte>, promises: seq<nat>, resolved: seq<Resolution>, lost: bool)

  function Keep(held: seq<byte>, consumed: nat): seq<byte> {
    if consumed >= |held| then [] else held[consumed..]
  }

  /** `handleRead` when `bytes` came in. */
  function AfterRead(r: Reader, bytes: seq<byte>): Reader
    requires |r.held| + |bytes| <= BUFFER_SIZE
  {
    var held := r.held + bytes;
    var t := ReadFrom(held + Zeros(BUFFER_SIZE - |held|), |held|, 0, r.promises);
    Reader(Keep(held, t.pos), t.promises, r.resolved + t.resolved, r.lost || t.lost)
  }

  /** The promises of the write callbacks that report `success`. */
  function Reported(calls: seq<Net.Callback>, success: bool): seq<nat> {
    if calls == [] then []
    else (if calls[0].success == success then [calls[0].id] else []) + Reported(calls[1..], success)
  }

  class RedisConnection {
    const readBuffer: SimpleBuffer
    var promises: seq<nat>
    ghost var failed: seq<nat>
    ghost var resolved: seq<Resolution>
    ghost var lost: bool

    ghost predicate Valid()
      reads this, readBuffer, readBuffer.buffer
    {
      readBuffer.Valid() && readBuffer.buffer.Length == BUFFER_SIZE
    }

    ghost function State(): Reader
      reads this, readBuffer, readBuffer.buffer
      requires Valid()
    {
      Reader(readBuffer.Held(), promises, resolved, lost)
    }

    constructor ()
      ensures Valid() && fresh(readBuffer) && fresh(readBuffer.buffer)
      ensures State() == Reader([], [], [], false) && failed == []
    {
      readBuffer := new SimpleBuffer(BUFFER_SIZE);
      promises, failed, resolved, lost := [], [], [], false;
    }

    /** The write callback of `execute`. */
    method OnWritten(call: Net.Callback)
      modifies `promises, `failed
      ensures promises == old(promises) + Reported([call], true)
      ensures failed == old(failed) + Reported([call], false)
    {
      assert [call][1..] == [];
      if !call.success {
        failed := failed + [call.id];
      } else {
        promises := promises + [call.id];
      }
    }

    /** `ClientImpl::read`. */
    method Read(buf: seq<byte>, size: nat) returns (pos: nat)
      requires size <= |buf|
      modifies `promises, `resolved, `lost
      ensures var t := ReadFrom(buf, size, 0, old(promises));
        && pos == t.pos && promises == t.promises && resolved == old(resolved) + t.resolved
        && lost == (old(lost) || t.lost)
    {
      pos := 0;
      ghost var all := ReadFrom(buf, size, 0, promises);
      ghost var given: seq<Resolution> := [];
      hide ParseValue, ReadFrom;
      while pos < size
        invariant pos <= |buf| && lost == old(lost) && resolved == old(resolved) + given
        invariant all == Prefixed(given, ReadFrom(buf, size, pos, promises))
        decreases |buf| - pos
      {
        var start := pos;
        OneReply(buf, size, pos, promises, given);
        var result := ParseValueAt(buf, pos);
        match result
        case Fail(Incomplete) =>
          pos := start;
          return;
        case Fail(Malformed) =>
          pos := start + 1;
          return;
        case Fail(NegativeLength) =>
          lost := true;
          return;
        case Ok(v, q) =>
          pos := q;
          if promises == [] {
            lost := true;
            return;
          }
          var promise := promises[0];
          promises := promises[1..];
          given := given + [Resolution(promise, v)];
          resolved := resolved + [Resolution(promise, v)];
      }
      NoMoreReplies(buf, size, pos, promises);
    }

    /** `handleRead` when `read` returns data; it was offered the room behind the data. */
    method HandleRead(bytes: seq<byte>)
      requires Valid() && 0 < |bytes| <= BUFFER_SIZE - readBuffer.dataSize
      modifies `promises, `resolved, `lost, readBuffer`dataSize, readBuffer.buffer
      ensures Valid() && State() == AfterRead(old(State()), bytes)
    {
      hide ReadFrom;
      readBuffer.Fill(bytes);
      var buf := readBuffer.buffer[..];
      ghost var held := readBuffer.Held();
      assert buf == held + Zeros(BUFFER_SIZE - |held|);
      hide Zeros;
      var consumed := Read(buf, readBuffer.dataSize);
      if consumed > readBuffer.dataSize {
        consumed := readBuffer.dataSize;
      }
      readBuffer.Read(consumed);
    }
  }

  // ----- what a stream of replies becomes -----

  /** How many of these replies are complete within `k` bytes. */
  function Whole(rs: seq<Value>, k: nat): (w: nat)
    ensures w <= |rs|
  {
    if rs == [] || |Encode(rs[0])| > k then 0 else 1 + Whole(rs[1..], k - |Encode(rs[0])|)
  }

  /** Promises and the values that these sent replies give them. */
  function Paired(ps: seq<nat>, vs: seq<Value>): (r: seq<Resolution>)
    requires |vs| <= |ps|
    ensures |r| == |vs|
  {
    seq(|vs|, i requires 0 <= i < |vs| => Resolution(ps[i], AsRead(vs[i])))
  }

  /** The first of `rs` that is not complete is cut before an element of an array of it. */
  ghost predicate CutBeforeElement(d: seq<byte>, pos: nat, k: nat) {
    pos < k && BeforeType(d, pos, k)
  }

  lemma {:induction false} EncodeIsNotEmpty(v: Value)
    ensures Encode(v) != []
  {
    hide ToString, EncodeAll;
  }

  /** The turn that these replies deserve: the complete ones resolve the first promises. */
  ghost function TurnOn(d: seq<byte>, pos: nat, rs: seq<Value>, k: nat, z: nat, promises: seq<nat>): Turn
    requires pos <= k && Whole(rs, k - pos) <= |promises|
  {
    var w := Whole(rs, k - pos);
    var next := pos + |EncodeAll(rs[..w])|;
    Turn(if z > 0 && CutBeforeElement(d, next, k) then next + 1 else next,
         promises[w..], Paired(promises[..w], rs[..w]), false)
  }

  lemma {:induction false} TurnOnNone(d: seq<byte>, pos: nat, rs: seq<Value>, k: nat, z: nat, promises: seq<nat>)
    requires pos <= k && Whole(rs, k - pos) == 0
    ensures TurnOn(d, pos, rs, k, z, promises)
         == Turn(if z > 0 && CutBeforeElement(d, pos, k) then pos + 1 else pos, promises, [], false)
  {
    hide CutBeforeElement, Encode, Whole;
    assert rs[..0] == [] && promises[..0] == [] && promises[0..] == promises;
    assert EncodeAll([]) == [];
  }

  lemma {:induction false} TurnOnFirst(d: seq<byte>, pos: nat, rs: seq<Value>, k: nat, z: nat, promises: seq<nat>)
    requires pos <= k && rs != [] && pos + |Encode(rs[0])| <= k && 0 < Whole(rs, k - pos) <= |promises|
    ensures var q := pos + |Encode(rs[0])|;
      && Whole(rs[1..], k - q) < |promises|
      && TurnOn(d, pos, rs, k, z, promises)
         == Prefixed([Resolution(promises[0], AsRead(rs[0]))], TurnOn(d, q, rs[1..], k, z, promises[1..]))
  {
    var w := Whole(rs, k - pos);
    assert Whole(rs[1..], k - pos - |Encode(rs[0])|) == w - 1;
    hide CutBeforeElement, Encode, EncodeAll, Whole, Paired;
    AllOfFirst(rs, w);
    PairedFirst(promises, rs, w);
  }

  /**
   * One turn, exactly: the complete replies resolve the first promises in order, and the
   * cursor stops at the reply that is not complete, unless zero padding is taken for an
   * element of it.
   */
  lemma {:induction false} TurnOf(d: seq<byte>, pos: nat, rs: seq<Value>, k: nat, z: nat, promises: seq<nat>)
    requires pos <= k <= |d| && d[pos..] == EncodeAll(rs) && forall r :: r in rs ==> WellFormed(r)
    requires Whole(rs, k - pos) <= |promises|
    ensures ReadFrom(Padded(d, k, z), k, pos, promises) == TurnOn(d, pos, rs, k, z, promises)
    decreases |rs|
  {
    hide ParseValue, BeforeType, Encode, EncodeAll, Padded, WellFormed, ReadFrom, TurnOn, Whole;
    var p := Padded(d, k, z);
    PrefixedNone(ReadFrom(p, k, pos, promises));
    WholeStep(rs, k - pos);
    if pos < k {
      assert rs[0] in rs;
      FirstParses(d, pos, rs);
      var q := pos + |Encode(rs[0])|;
      ParseOfPadded(d, pos, k, z);
      OneReply(p, k, pos, promises, []);
      if q <= k {
        var first := [Resolution(promises[0], AsRead(rs[0]))];
        assert [] + first == first;
        TurnOf(d, q, rs[1..], k, z, promises[1..]);
        TurnOnFirst(d, pos, rs, k, z, promises);
      } else {
        TurnOnNone(d, pos, rs, k, z, promises);
      }
    } else {
      TurnOnNone(d, pos, rs, k, z, promises);
      NoMoreReplies(p, k, pos, promises);
    }
  }

  lemma {:induction false} WholeStep(rs: seq<Value>, k: nat)
    ensures rs == [] || k == 0 || |Encode(rs[0])| > k ==> Whole(rs, k) == 0
    ensures rs != [] && |Encode(rs[0])| <= k ==> Whole(rs, k) == 1 + Whole(rs[1..], k - |Encode(rs[0])|)
    ensures rs == [] <==> EncodeAll(rs) == []
  {
    if rs != [] {
      EncodeIsNotEmpty(rs[0]);
      hide Encode;
    }
  }

  lemma {:induction false} PairedFirst(ps: seq<nat>, vs: seq<Value>, w: nat)
    requires 0 < w <= |ps| && w <= |vs|
    ensures Paired(ps[..w], vs[..w]) == [Resolution(ps[0], AsRead(vs[0]))] + Paired(ps[1..][..w - 1], vs[1..][..w - 1])
    ensures ps[1..][w - 1..] == ps[w..]
  {
  }

  /** The first reply, in the stream and of the stream. */
  lemma {:induction false} FirstParses(d: seq<byte>, pos: nat, rs: seq<Value>)
    requires pos <= |d| && d[pos..] == EncodeAll(rs) && rs != [] && WellFormed(rs[0])
    ensures var q := pos + |Encode(rs[0])|;
      q <= |d| && ParseValue(d, pos) == Ok(AsRead(rs[0]), q) && d[q..] == EncodeAll(rs[1..])
  {
    var a, b := Encode(rs[0]), EncodeAll(rs[1..]);
    assert d[pos..] == a + b by { hide Encode; }
    hide Encode, EncodeAll, ParseValue, WellFormed;
    assert d == d[..pos] + a + b;
    ParseOfEncode(d[..pos], rs[0], b);
  }

  lemma {:induction false} AllOfFirst(rs: seq<Value>, w: nat)
    requires 0 < w <= |rs|
    ensures |EncodeAll(rs[..w])| == |Encode(rs[0])| + |EncodeAll(rs[1..][..w - 1])|
    ensures rs[..w][1..] == rs[1..][..w - 1]
  {
    hide Encode;
    assert rs[..w][1..] == rs[1..][..w - 1];
  }

  /** More complete replies than promises: the first one without a promise is dropped, and the turn ends behind it. */
  lemma {:induction false} TurnRunsOut(d: seq<byte>, pos: nat, rs: seq<Value>, k: nat, z: nat, promises: seq<nat>)
    requires pos <= k <= |d| && d[pos..] == EncodeAll(rs) && forall r :: r in rs ==> WellFormed(r)
    requires Whole(rs, k - pos) > |promises|
    ensures var n := |promises|;
      ReadFrom(Padded(d, k, z), k, pos, promises)
      == Turn(pos + |EncodeAll(rs[..n + 1])|, [], Paired(promises, rs[..n]), true)
    decreases |rs|
  {
    hide ParseValue, BeforeType, Encode, EncodeAll, Padded, WellFormed, ReadFrom, Whole, Paired;
    var p := Padded(d, k, z);
    PrefixedNone(ReadFrom(p, k, pos, promises));
    WholeStep(rs, k - pos);
    assert rs[0] in rs;
    FirstParses(d, pos, rs);
    var q := pos + |Encode(rs[0])|;
    ParseOfPadded(d, pos, k, z);
    OneReply(p, k, pos, promises, []);
    AllOfFirst(rs, |promises| + 1);
    if promises == [] {
      NoneOfRest(rs[1..]);
      PairedNone(rs);
    } else {
      TurnRunsOut(d, q, rs[1..], k, z, promises[1..]);
      var first := [Resolution(promises[0], AsRead(rs[0]))];
      assert [] + first == first;
      PairedFirst(promises, rs, |promises|);
      assert promises[..|promises|] == promises && promises[1..][..|promises| - 1] == promises[1..];
    }
  }

  lemma NoneOfRest(rs: seq<Value>)
    ensures |EncodeAll(rs[..0])| == 0
  {
  }

  lemma PairedNone(rs: seq<Value>)
    ensures Paired([], rs[..0]) == []
  {
  }
}
