/** Response frames: the server's encoders and the client's receiver. */
module RpcResponse {
  import opened Common
  import opened Bytes
  import opened RpcFrame

  datatype Frame = Frame(kind: byte, id: nat, body: seq<byte>, extra: byte)
  {
    /** A frame that the layout can carry and the client takes. */
    ghost predicate Encodable() {
      && kind in {RESPONSE, REQ_ERROR}
      && id < Pow256(8)
      && |body| < Pow256(4)
    }
  }

  function FrameHead(f: Frame): (s: seq<byte>)
    ensures |s| == 16 && s[0] == MAGIC0 && s[1] == MAGIC1 && s[2] == f.kind
    ensures s[3..11] == Be(f.id, 8) && s[11] == f.extra && s[12..16] == Be(|f.body|, 4)
  {
    var id, len := Be(f.id, 8), Be(|f.body|, 4);
    var s := [MAGIC0, MAGIC1, f.kind] + id + [f.extra] + len;
    assert s[3..11] == id && s[12..16] == len;
    s
  }

  /** The bytes of a response; a body length over 32 bits is cut to its low bytes. */
  function FrameBytes(f: Frame): (s: seq<byte>)
    ensures |s| == 18 + |f.body|
  {
    FrameHead(f) + f.body + [MAGIC1, MAGIC2]
  }

  function ErrorFrame(id: nat, code: byte): Frame {
    Frame(REQ_ERROR, id, [], code)
  }

  function ResponseFrame(id: nat, body: seq<byte>): Frame {
    Frame(RESPONSE, id, body, 0)
  }

  method BuildErrorResponse(id: nat, code: byte) returns (res: seq<byte>)
    ensures res == FrameBytes(ErrorFrame(id, code))
  {
    res := [MAGIC0, MAGIC1];
    res := res + [REQ_ERROR];
    res := AppendBe(res, id, 8);
    res := res + [code];
    res := AppendBe(res, 0, 4);
    res := res + [MAGIC1, MAGIC2];
  }

  method BuildResponse(body: seq<byte>, id: nat) returns (res: seq<byte>)
    ensures res == FrameBytes(ResponseFrame(id, body))
  {
    res := [MAGIC0, MAGIC1];
    res := res + [RESPONSE];
    res := AppendBe(res, id, 8);
    res := res + [0];
    res := AppendBe(res, |body|, 4);
    res := res + body;
    res := res + [MAGIC1, MAGIC2];
  }

  /** A response and an error, byte by byte. */
  lemma FramesSpelled()
    ensures FrameBytes(ResponseFrame(258, [9])) == [10, 11, 2, 0, 0, 0, 0, 0, 0, 1, 2, 0, 0, 0, 0, 1, 9, 11, 12]
    ensures FrameBytes(ErrorFrame(258, 100)) == [10, 11, 3, 0, 0, 0, 0, 0, 0, 1, 2, 100, 0, 0, 0, 0, 11, 12]
  {
    NumbersSpelled();
    hide Be;
    assert FrameHead(ResponseFrame(258, [9])) == [10, 11, 2, 0, 0, 0, 0, 0, 0, 1, 2, 0, 0, 0, 0, 1];
    assert FrameHead(ErrorFrame(258, 100)) == [10, 11, 3, 0, 0, 0, 0, 0, 0, 1, 2, 100, 0, 0, 0, 0];
    hide FrameHead;
  }

  /** The first place at or after `i` where a frame may start; `|buf|` when there is none. */
  function FindStart(buf: seq<byte>, i: nat): (pos: nat)
    requires i <= |buf|
    ensures i <= pos <= |buf|
    ensures pos < |buf| ==> pos + 1 < |buf| && buf[pos] == MAGIC0 && buf[pos + 1] == MAGIC1
    ensures forall k :: i <= k < pos && k + 1 < |buf| ==> !(buf[k] == MAGIC0 && buf[k + 1] == MAGIC1)
    decreases |buf| - i
  {
    if i + 1 >= |buf| then |buf|
    else if buf[i] == MAGIC0 && buf[i + 1] == MAGIC1 then i
    else FindStart(buf, i + 1)
  }

  /** What one attempt makes of a buffer that begins with the two start bytes. */
  function TryAligned(buf: seq<byte>): (Option<Frame>, seq<byte>)
    requires |buf| >= 2
  {
    if |buf| < 3 then (None, buf)
    else if buf[2] != RESPONSE && buf[2] != REQ_ERROR then (None, buf[1..])
    else if |buf| < 16 then (None, buf)
    else
      var len := FromBe(buf[12..16]);
      if |buf| < 18 + len then (None, buf)
      else if buf[16 + len..18 + len] != [MAGIC1, MAGIC2] then (None, buf[2..])
      else (Some(Frame(buf[2], FromBe(buf[3..11]), buf[16..16 + len], buf[11])), buf[18 + len..])
  }

  /** One attempt on any buffer: the frame, if there is one, and the buffer it leaves. */
  function TryParse(buf: seq<byte>): (Option<Frame>, seq<byte>) {
    if |buf| < 2 then (None, buf)
    else
      var pos := FindStart(buf, 0);
      if pos == |buf| then (None, if buf[|buf| - 1] == MAGIC0 then buf[|buf| - 1..] else [])
      else TryAligned(buf[pos..])
  }

  /** A frame is only ever read off bytes that spell it, after bytes where none starts. */
  lemma {:induction false} TryParseSound(buf: seq<byte>)
    ensures var (frame, rest) := TryParse(buf);
      match frame
      case None => EndsWith(buf, rest)
      case Some(f) =>
        var pos := FindStart(buf, 0);
        f.Encodable() && pos <= |buf| && buf[pos..] == FrameBytes(f) + rest
  {
    var pos := FindStart(buf, 0);
    if |buf| >= 2 && pos < |buf| {
      var b := buf[pos..];
      hide TryAligned, FrameBytes, FindStart, EndsWith;
      AlignedSound(b);
      var (frame, rest) := TryAligned(b);
      if frame == None {
        EndOfEnd(buf, pos, rest);
      }
    }
  }

  lemma EndOfEnd(buf: seq<byte>, pos: nat, rest: seq<byte>)
    requires pos <= |buf| && EndsWith(buf[pos..], rest)
    ensures EndsWith(buf, rest)
  {
    assert buf[|buf| - |rest|..] == buf[pos..][|buf| - pos - |rest|..];
  }

  lemma {:induction false} AlignedSound(b: seq<byte>)
    requires |b| >= 2 && b[0] == MAGIC0 && b[1] == MAGIC1
    ensures var (frame, rest) := TryAligned(b);
      match frame
      case None => EndsWith(b, rest)
      case Some(f) => f.Encodable() && b == FrameBytes(f) + rest
  {
    var (frame, rest) := TryAligned(b);
    assert b == b[0..];
    if frame.Some? {
      var f := frame.value;
      var len := FromBe(b[12..16]);
      assert len < Pow256(4) && f.id < Pow256(8);
      BeOfFromBe(b[12..16]);
      BeOfFromBe(b[3..11]);
      assert FrameHead(f) == b[..16];
      hide FrameHead, Be, FromBe;
      assert b == b[..16] + b[16..16 + len] + b[16 + len..18 + len] + b[18 + len..];
    }
  }

  /** Bytes that do not begin with the two start bytes are no beginning of a frame. */
  lemma NoStartNoFrame(b: seq<byte>, more: seq<byte>, f: Frame)
    requires b != [] && (b[0] != MAGIC0 || (|b| > 1 && b[1] != MAGIC1))
    ensures !(FrameBytes(f) <= b + more)
  {
    assert FrameBytes(f)[0] == MAGIC0 && FrameBytes(f)[1] == MAGIC1;
    assert (b + more)[0] == b[0] && (|b| > 1 ==> (b + more)[1] == b[1]);
  }

  lemma {:induction false} FrameEnds(f: Frame)
    requires f.Encodable()
    ensures var p, len := FrameBytes(f), |f.body|;
      p[2] == f.kind && FromBe(p[12..16]) == len && p[16 + len..18 + len] == [MAGIC1, MAGIC2]
  {
    var p := FrameBytes(f);
    assert p[12..16] == FrameHead(f)[12..16];
    FromBeOfBe(|f.body|, 4);
    hide FrameHead, Be, FromBe;
  }

  lemma SliceOfPrefix(p: seq<byte>, b: seq<byte>, more: seq<byte>, i: nat, j: nat)
    requires p <= b + more && i <= j <= |p| && j <= |b|
    ensures p[i..j] == b[i..j]
  {
    assert p[i..j] == (b + more)[i..j];
  }

  /** Nor are bytes that an attempt at the front rejects, for their kind or for their end. */
  lemma {:induction false} RejectedIsNoFrame(b: seq<byte>, more: seq<byte>, f: Frame)
    requires |b| >= 3 && b[0] == MAGIC0 && b[1] == MAGIC1 && f.Encodable()
    requires TryAligned(b).0 == None && TryAligned(b).1 != b
    ensures !(FrameBytes(f) <= b + more)
  {
    var p := FrameBytes(f);
    if p <= b + more {
      FrameEnds(f);
      hide FrameBytes, FromBe;
      SliceOfPrefix(p, b, more, 2, 3);
      assert p[2..3] == [f.kind] && b[2..3] == [b[2]];
      if |b| >= 16 {
        SliceOfPrefix(p, b, more, 12, 16);
        if |b| >= 18 + |f.body| {
          SliceOfPrefix(p, b, more, 16 + |f.body|, 18 + |f.body|);
        }
      }
    }
  }

  /**
   * No frame is ever skipped: whatever comes later, none begins at a byte that an attempt
   * without a frame has dropped.
   */
  lemma {:induction false} NoFrameIsSkipped(buf: seq<byte>, p: nat, more: seq<byte>, f: Frame)
    requires TryParse(buf).0 == None && p < |buf| - |TryParse(buf).1| && f.Encodable()
    ensures !(FrameBytes(f) <= buf[p..] + more)
  {
    var pos := FindStart(buf, 0);
    var b := buf[p..];
    assert b[0] == buf[p] && (|b| > 1 ==> b[1] == buf[p + 1]);
    if pos == |buf| || p < pos {
      NoStartNoFrame(b, more, f);
    } else if p == pos {
      RejectedIsNoFrame(b, more, f);
    } else {
      assert p == pos + 1;
      NoStartNoFrame(b, more, f);
    }
  }

  /** A whole frame at the front of the buffer is taken, and nothing else. */
  lemma {:induction false} TryParseWhole(f: Frame, rest: seq<byte>)
    requires f.Encodable()
    ensures TryParse(FrameBytes(f) + rest) == (Some(f), rest)
  {
    var buf := FrameBytes(f) + rest;
    var len := |f.body|;
    FromBeOfBe(f.id, 8);
    FromBeOfBe(len, 4);
    assert buf[..16] == FrameHead(f);
    assert buf[3..11] == FrameHead(f)[3..11];
    assert buf[12..16] == FrameHead(f)[12..16];
    hide FrameHead, Be, FromBe;
    assert buf[16..16 + len] == f.body;
    assert buf[16 + len..18 + len] == [MAGIC1, MAGIC2];
    assert buf[18 + len..] == rest;
    assert FindStart(buf, 0) == 0;
    assert buf[0..] == buf;
  }

  /** The beginning of a frame is left alone until the rest of it is there. */
  lemma {:induction false} TryParsePart(f: Frame, k: nat)
    requires f.Encodable() && k < |FrameBytes(f)|
    ensures TryParse(FrameBytes(f)[..k]) == (None, FrameBytes(f)[..k])
  {
    var buf := FrameBytes(f)[..k];
    var len := |f.body|;
    if k >= 2 {
      FromBeOfBe(len, 4);
      assert FindStart(buf, 0) == 0;
      assert buf[0..] == buf;
      if k >= 16 {
        assert buf[..16] == FrameHead(f);
        assert buf[12..16] == FrameHead(f)[12..16];
      }
    }
  }

  function FramesBytes(fs: seq<Frame>): seq<byte> {
    if fs == [] then [] else FrameBytes(fs[0]) + FramesBytes(fs[1..])
  }

  ghost predicate AllEncodable(fs: seq<Frame>) {
    forall f :: f in fs ==> f.Encodable()
  }

  /** `buf` begins the stream of `fs`. */
  ghost predicate OnStream(buf: seq<byte>, fs: seq<Frame>) {
    AllEncodable(fs) && buf <= FramesBytes(fs)
  }

  lemma {:induction false} PrefixOfConcat(p: seq<byte>, a: seq<byte>, b: seq<byte>)
    requires p <= a + b
    ensures |p| < |a| ==> p == a[..|p|]
    ensures |p| >= |a| ==> p == a + p[|a|..] && p[|a|..] <= b
  {
    if |p| >= |a| {
      assert p[..|a|] == (a + b)[..|a|] == a;
      assert p[|a|..] == (a + b)[|a|..|p|] == b[..|p| - |a|];
    }
  }

  /** On a stream of frames an attempt takes the first frame as soon as it is whole. */
  lemma {:induction false} TryParseOnStream(buf: seq<byte>, fs: seq<Frame>)
    requires OnStream(buf, fs)
    ensures var (frame, rest) := TryParse(buf);
      match frame
      case Some(f) => fs != [] && f == fs[0] && buf == FrameBytes(f) + rest && OnStream(rest, fs[1..])
      case None => rest == buf && (fs != [] ==> |buf| < |FrameBytes(fs[0])|)
  {
    hide TryParse, FrameBytes;
    if fs == [] {
      EmptyBuffer();
    } else {
      PrefixOfConcat(buf, FrameBytes(fs[0]), FramesBytes(fs[1..]));
      if |buf| < |FrameBytes(fs[0])| {
        TryParsePart(fs[0], |buf|);
      } else {
        TryParseWhole(fs[0], buf[|FrameBytes(fs[0])|..]);
      }
    }
  }

  lemma EmptyBuffer()
    ensures TryParse([]) == (None, [])
  {
  }

  /** All that repeated attempts take from a buffer. */
  function Drain(buf: seq<byte>): (r: (seq<Frame>, seq<byte>))
    decreases |buf|
  {
    var (frame, rest) := TryParse(buf);
    if frame.Some? && |rest| < |buf| then
      var r := Drain(rest);
      ([frame.value] + r.0, r.1)
    else
      ([], rest)
  }

  function DrainChunks(buf: seq<byte>, chunks: seq<seq<byte>>): (seq<Frame>, seq<byte>)
    decreases |chunks|
  {
    if chunks == [] then ([], buf)
    else
      var d := Drain(buf + chunks[0]);
      var r := DrainChunks(d.1, chunks[1..]);
      (d.0 + r.0, r.1)
  }

  lemma {:induction false} DrainOnStream(buf: seq<byte>, fs: seq<Frame>)
    requires OnStream(buf, fs)
    ensures var (got, rest) := Drain(buf);
      got <= fs && OnStream(rest, fs[|got|..]) && buf == FramesBytes(got) + rest
      && (|got| < |fs| ==> |rest| < |FrameBytes(fs[|got|])|)
    decreases |buf|
  {
    hide TryParse, FrameBytes;
    TryParseOnStream(buf, fs);
    var (frame, rest) := TryParse(buf);
    if frame.Some? {
      LongerThan(fs[0]);
      DrainOnStream(rest, fs[1..]);
      var (got, left) := Drain(rest);
      assert ([fs[0]] + got)[1..] == got;
      assert fs[1..][|got|..] == fs[1 + |got|..];
      assert FramesBytes([fs[0]] + got) + left == FrameBytes(fs[0]) + (FramesBytes(got) + left);
    } else {
      assert fs[0..] == fs;
    }
  }

  lemma LongerThan(f: Frame)
    ensures |FrameBytes(f)| > 0
  {
  }

  /**
   * However the stream is cut, at any moment what has come of it gives its first frames,
   * and less than the next frame is left in the buffer.
   */
  lemma {:induction false} DrainChunksOnStream(buf: seq<byte>, fs: seq<Frame>, chunks: seq<seq<byte>>)
    requires OnStream(buf + Concat(chunks), fs)
    requires fs != [] ==> |buf| < |FrameBytes(fs[0])|
    ensures var (got, rest) := DrainChunks(buf, chunks);
      && got <= fs && buf + Concat(chunks) == FramesBytes(got) + rest
      && (|got| < |fs| ==> |rest| < |FrameBytes(fs[|got|])|)
    decreases |chunks|
  {
    hide Drain, FrameBytes;
    if chunks == [] {
      assert buf + [] == buf && FramesBytes([]) + buf == buf;
    } else {
      var b, tail := buf + chunks[0], Concat(chunks[1..]);
      Assoc(buf, chunks[0], tail);
      hide FramesBytes;
      var (got, rest) := Drain(b);
      DrainedPart(b, tail, fs);
      DrainChunksOnStream(rest, fs[|got|..], chunks[1..]);
      var (more, left) := DrainChunks(rest, chunks[1..]);
      FramesBytesAppend(got, more);
      hide DrainChunks, OnStream, Concat;
      MoreOfStream(fs, got, more);
      Assoc(FramesBytes(got), rest, tail);
      Assoc(FramesBytes(got), FramesBytes(more), left);
    }
  }

  /** What one chunk gives, with the rest of the stream behind it. */
  lemma {:induction false} DrainedPart(b: seq<byte>, tail: seq<byte>, fs: seq<Frame>)
    requires OnStream(b + tail, fs)
    ensures var (got, rest) := Drain(b);
      && got <= fs && b == FramesBytes(got) + rest && OnStream(rest + tail, fs[|got|..])
      && (|got| < |fs| ==> |rest| < |FrameBytes(fs[|got|])|)
  {
    hide Drain, FramesBytes, FrameBytes;
    assert b <= b + tail;
    DrainOnStream(b, fs);
    var (got, rest) := Drain(b);
    assert fs == got + fs[|got|..];
    FramesBytesAppend(got, fs[|got|..]);
    Assoc(FramesBytes(got), rest, tail);
    PrefixOfConcat(b + tail, FramesBytes(got), FramesBytes(fs[|got|..]));
    CancelLeft(FramesBytes(got), rest + tail, (b + tail)[|FramesBytes(got)|..]);
  }

  lemma MoreOfStream(fs: seq<Frame>, got: seq<Frame>, more: seq<Frame>)
    requires got <= fs && more <= fs[|got|..]
    ensures got + more <= fs
    ensures |got + more| < |fs| ==> fs[|got|..][|more|] == fs[|got + more|]
  {
  }

  /** The response round trip: any chunking of the server's frames gives back these frames. */
  lemma {:induction false} ResponseRoundTrip(fs: seq<Frame>, chunks: seq<seq<byte>>)
    requires AllEncodable(fs) && Concat(chunks) == FramesBytes(fs)
    ensures DrainChunks([], chunks) == (fs, [])
  {
    hide DrainChunks, FrameBytes, Concat;
    if fs != [] {
      LongerThan(fs[0]);
    }
    assert [] + Concat(chunks) == Concat(chunks);
    assert OnStream([] + Concat(chunks), fs);
    DrainChunksOnStream([], fs, chunks);
    var (got, rest) := DrainChunks([], chunks);
    assert fs == got + fs[|got|..];
    FramesBytesAppend(got, fs[|got|..]);
    CancelLeft(FramesBytes(got), rest, FramesBytes(fs[|got|..]));
    FirstIsShorter(fs[|got|..]);
    assert got == fs && rest == [];
  }

  lemma FirstIsShorter(fs: seq<Frame>)
    ensures fs != [] ==> |FrameBytes(fs[0])| <= |FramesBytes(fs)|
    ensures fs == [] ==> FramesBytes(fs) == []
  {
  }

  lemma CancelLeft(a: seq<byte>, b: seq<byte>, c: seq<byte>)
    requires a + b == a + c
    ensures b == c
  {
    assert (a + b)[|a|..] == b;
    assert (a + c)[|a|..] == c;
  }

  lemma {:induction false} FramesBytesAppend(a: seq<Frame>, b: seq<Frame>)
    ensures FramesBytes(a + b) == FramesBytes(a) + FramesBytes(b)
  {
    hide FrameBytes;
    if a == [] {
      assert a + b == b;
    } else {
      FramesBytesAppend(a[1..], b);
      assert (a + b)[1..] == a[1..] + b;
      Assoc(FrameBytes(a[0]), FramesBytes(a[1..]), FramesBytes(b));
    }
  }

  datatype Received = Got(frame: Frame) | TimedOut | ServerClosed

  /** What one call of `_recv_frame` returns, what it leaves, and how many chunks it has read. */
  datatype Call = Call(r: Received, buf: seq<byte>, pending: map<nat, Frame>, used: nat)

  /**
   * `_recv_frame`, where `chunks` is what the socket will hand over: an empty chunk is the
   * server closing, no chunk a timeout.
   */
  function Receive(buf: seq<byte>, pending: map<nat, Frame>, wanted: nat, chunks: seq<seq<byte>>): Call {
    if wanted in pending then Call(Got(pending[wanted]), buf, pending - {wanted}, 0)
    else ReadUntil(buf, pending, wanted, chunks)
  }

  /** Its loop: frames that are not `wanted` are kept. */
  function ReadUntil(buf: seq<byte>, pending: map<nat, Frame>, wanted: nat, chunks: seq<seq<byte>>): (c: Call)
    ensures c.used <= |chunks|
    decreases |chunks|, |buf|
  {
    TryParseShrinks(buf);
    var (frame, rest) := TryParse(buf);
    match frame
    case Some(f) =>
      if f.id == wanted then Call(Got(f), rest, pending, 0)
      else ReadUntil(rest, pending[f.id := f], wanted, chunks)
    case None =>
      if chunks == [] then Call(TimedOut, rest, pending, 0)
      else if chunks[0] == [] then Call(ServerClosed, rest, pending, 1)
      else
        var c := ReadUntil(rest + chunks[0], pending, wanted, chunks[1..]);
        c.(used := c.used + 1)
  }

  lemma {:induction false} TryParseShrinks(buf: seq<byte>)
    ensures TryParse(buf).0.Some? ==> |TryParse(buf).1| < |buf|
  {
    TryParseSound(buf);
    hide TryParse;
  }

  /** Every kept frame is filed under its own id. */
  ghost predicate Filed(pending: map<nat, Frame>) {
    forall id :: id in pending ==> pending[id].id == id
  }

  /** On any bytes at all, what a call returns has the id asked for, and what it keeps stays filed. */
  lemma {:induction false} OnlyTheRequested(buf: seq<byte>, pending: map<nat, Frame>, wanted: nat, chunks: seq<seq<byte>>)
    requires Filed(pending)
    ensures var c := Receive(buf, pending, wanted, chunks);
      Filed(c.pending) && (c.r.Got? ==> c.r.frame.id == wanted && wanted !in c.pending)
  {
    if wanted !in pending {
      OnlyTheRequestedInLoop(buf, pending, wanted, chunks);
    }
  }

  lemma {:induction false} OnlyTheRequestedInLoop(buf: seq<byte>, pending: map<nat, Frame>, wanted: nat, chunks: seq<seq<byte>>)
    requires Filed(pending) && wanted !in pending
    ensures var c := ReadUntil(buf, pending, wanted, chunks);
      Filed(c.pending) && (c.r.Got? ==> c.r.frame.id == wanted && wanted !in c.pending)
    decreases |chunks|, |buf|
  {
    TryParseShrinks(buf);
    var (frame, rest) := TryParse(buf);
    hide TryParse;
    if frame.Some? {
      if frame.value.id != wanted {
        OnlyTheRequestedInLoop(rest, pending[frame.value.id := frame.value], wanted, chunks);
      }
    } else if chunks != [] && chunks[0] != [] {
      OnlyTheRequestedInLoop(rest + chunks[0], pending, wanted, chunks[1..]);
    }
  }

  /** Frames by request id; of two with one id the later one stays. */
  function ById(fs: seq<Frame>): map<nat, Frame> {
    if fs == [] then map[] else map[fs[0].id := fs[0]] + ById(fs[1..])
  }

  /** No two different frames carry one id. */
  ghost predicate OnePerId(fs: seq<Frame>) {
    forall i, j :: 0 <= i < |fs| && 0 <= j < |fs| && fs[i].id == fs[j].id ==> fs[i] == fs[j]
  }

  /** The table loses a frame exactly when two different frames share an id. */
  lemma {:induction false} ByIdKeepsAllIff(fs: seq<Frame>)
    ensures (forall f :: f in fs ==> f.id in ById(fs) && ById(fs)[f.id] == f) <==> OnePerId(fs)
  {
    if OnePerId(fs) {
      ByIdKeeps(fs);
    } else {
      var i, j :| 0 <= i < |fs| && 0 <= j < |fs| && fs[i].id == fs[j].id && fs[i] != fs[j];
      assert fs[i] in fs && fs[j] in fs;
    }
  }

  lemma {:induction false} ByIdHas(fs: seq<Frame>)
    ensures forall f :: f in fs ==> f.id in ById(fs)
    ensures forall id :: id in ById(fs) ==> ById(fs)[id] in fs && ById(fs)[id].id == id
  {
    if fs != [] {
      ByIdHas(fs[1..]);
    }
  }

  lemma {:induction false} ByIdKeeps(fs: seq<Frame>)
    requires OnePerId(fs)
    ensures forall f :: f in fs ==> f.id in ById(fs) && ById(fs)[f.id] == f
  {
    ByIdHas(fs);
    hide ById;
    forall f | f in fs
      ensures ById(fs)[f.id] == f
    {
      var i :| 0 <= i < |fs| && fs[i] == f;
      var j :| 0 <= j < |fs| && fs[j] == ById(fs)[f.id];
    }
  }

  /** The client's receiving half. */
  class RpcClient {
    /** Bytes received and not yet parsed. */
    var buf: seq<byte>
    /** Frames that arrived before they were asked for. */
    var pending: map<nat, Frame>

    constructor ()
      ensures buf == [] && pending == map[]
    {
      buf, pending := [], map[];
    }

    /** `_try_parse_frame`. */
    method TryParseFrame() returns (frame: Option<Frame>)
      modifies `buf
      ensures (frame, buf) == TryParse(old(buf))
    {
      if |buf| < 2 {
        return None;
      }
      var pos := 0;
      while pos + 1 < |buf| && !(buf[pos] == MAGIC0 && buf[pos + 1] == MAGIC1)
        invariant pos < |buf|
        invariant FindStart(buf, 0) == FindStart(buf, pos)
      {
        pos := pos + 1;
      }
      if pos + 1 >= |buf| {
        if buf[|buf| - 1] == MAGIC0 {
          buf := buf[|buf| - 1..];
        } else {
          buf := [];
        }
        return None;
      }
      if pos > 0 {
        buf := buf[pos..];
      } else {
        assert buf[0..] == buf;
      }
      frame := TryParseAligned();
    }

    method TryParseAligned() returns (frame: Option<Frame>)
      requires |buf| >= 2
      modifies `buf
      ensures (frame, buf) == TryAligned(old(buf))
    {
      if |buf| < 3 {
        return None;
      }
      var kind := buf[2];
      if kind != RESPONSE && kind != REQ_ERROR {
        buf := buf[1..];
        return None;
      }
      if |buf| < 16 {
        return None;
      }
      var id := ReadBe(buf[3..11]);
      var code := buf[11];
      var len := ReadBe(buf[12..16]);
      var total := 18 + len;
      if |buf| < total {
        return None;
      }
      var body := buf[16..16 + len];
      if buf[16 + len..18 + len] != [MAGIC1, MAGIC2] {
        buf := buf[2..];
        return None;
      }
      buf := buf[total..];
      return Some(Frame(kind, id, body, code));
    }

    /** `_recv_frame`. */
    method RecvFrame(wanted: nat, chunks: seq<seq<byte>>) returns (r: Received, used: nat)
      modifies this
      ensures Call(r, buf, pending, used) == Receive(old(buf), old(pending), wanted, chunks)
    {
      used := 0;
      if wanted in pending {
        r := Got(pending[wanted]);
        pending := pending - {wanted};
        return;
      }
      ghost var all := ReadUntil(buf, pending, wanted, chunks);
      assert chunks[0..] == chunks;
      hide TryParse;
      while true
        invariant used <= |chunks|
        invariant var c := ReadUntil(buf, pending, wanted, chunks[used..]); all == c.(used := c.used + used)
        decreases |chunks| - used, |buf|
      {
        TryParseShrinks(buf);
        var frame := TryParseFrame();
        if frame.Some? {
          if frame.value.id == wanted {
            r := Got(frame.value);
            return;
          }
          pending := pending[frame.value.id := frame.value];
          continue;
        }
        if used == |chunks| {
          r := TimedOut;
          return;
        }
        var chunk := chunks[used];
        assert chunks[used..][1..] == chunks[used + 1..];
        used := used + 1;
        if chunk == [] {
          r := ServerClosed;
          return;
        }
        buf := buf + chunk;
      }
    }
  }

  /** What a call does on a stream of frames, `k` of which it reads off. */
  ghost predicate Serves(c: Call, k: nat, pending: map<nat, Frame>, wanted: nat, chunks: seq<seq<byte>>, fs: seq<Frame>) {
    && c.used <= |chunks| && k <= |fs| && AllEncodable(fs)
    && OnStream(c.buf + Concat(chunks[c.used..]), fs[k..])
    && match c.r
       case Got(f) =>
         && 0 < k && f == fs[k - 1] && f.id == wanted && c.pending == pending + ById(fs[..k - 1])
         && forall i :: 0 <= i < k - 1 ==> fs[i].id != wanted
       case TimedOut => c.used == |chunks| && Missed(c, k, pending, wanted, fs)
       case ServerClosed => 0 < c.used && chunks[c.used - 1] == [] && Missed(c, k, pending, wanted, fs)
  }

  /** No frame with the id has come, and the next frame is not whole. */
  ghost predicate Missed(c: Call, k: nat, pending: map<nat, Frame>, wanted: nat, fs: seq<Frame>)
    requires k <= |fs|
  {
    && c.pending == pending + ById(fs[..k])
    && (forall i :: 0 <= i < k ==> fs[i].id != wanted)
    && (k < |fs| ==> |c.buf| < |FrameBytes(fs[k])|)
  }

  /** The whole stream is there: what is held and what will come are these frames. */
  ghost predicate WholeStream(buf: seq<byte>, chunks: seq<seq<byte>>, fs: seq<Frame>) {
    AllEncodable(fs) && buf + Concat(chunks) == FramesBytes(fs)
  }

  /** One attempt within the receiving loop. */
  lemma {:induction false} Attempt(buf: seq<byte>, chunks: seq<seq<byte>>, fs: seq<Frame>)
    requires OnStream(buf + Concat(chunks), fs)
    ensures var (frame, rest) := TryParse(buf);
      match frame
      case Some(f) =>
        && fs != [] && f == fs[0] && OnStream(rest + Concat(chunks), fs[1..])
        && (WholeStream(buf, chunks, fs) ==> WholeStream(rest, chunks, fs[1..]))
      case None => rest == buf && (fs != [] ==> |buf| < |FrameBytes(fs[0])|)
  {
    var more := Concat(chunks);
    assert buf <= buf + more;
    assert OnStream(buf, fs);
    TryParseOnStream(buf, fs);
    var (frame, rest) := TryParse(buf);
    hide TryParse, FrameBytes, Concat, AllEncodable;
    if frame.Some? {
      assert AllEncodable(fs[1..]) by { OthersEncodable(fs); }
      assert FramesBytes(fs) == FrameBytes(fs[0]) + FramesBytes(fs[1..]);
      hide FramesBytes;
      TakeFront(FrameBytes(fs[0]), rest, more, FramesBytes(fs[1..]));
    }
  }

  lemma OthersEncodable(fs: seq<Frame>)
    requires fs != [] && AllEncodable(fs)
    ensures AllEncodable(fs[1..])
  {
  }

  lemma TakeFront(front: seq<byte>, rest: seq<byte>, more: seq<byte>, others: seq<byte>)
    requires (front + rest) + more <= front + others
    ensures rest + more <= others
    ensures (front + rest) + more == front + others ==> rest + more == others
  {
    Assoc(front, rest, more);
    var all := front + others;
    assert all[|front|..] == others;
    assert ((front + rest) + more)[|front|..] == rest + more;
  }

  lemma {:induction false} NextChunk(buf: seq<byte>, chunks: seq<seq<byte>>, fs: seq<Frame>)
    requires chunks != []
    ensures (buf + chunks[0]) + Concat(chunks[1..]) == buf + Concat(chunks)
    ensures WholeStream(buf, chunks, fs) <==> WholeStream(buf + chunks[0], chunks[1..], fs)
  {
    hide FramesBytes, AllEncodable;
    assert (buf + chunks[0]) + Concat(chunks[1..]) == buf + (chunks[0] + Concat(chunks[1..]));
  }

  /** Frames that were kept before and the first one make one table with the later ones. */
  lemma KeptFirst(pending: map<nat, Frame>, fs: seq<Frame>, k: nat)
    requires k < |fs|
    ensures pending[fs[0].id := fs[0]] + ById(fs[1..][..k]) == pending + ById(fs[..k + 1])
  {
    assert fs[..k + 1][1..] == fs[1..][..k];
    hide ById;
  }

  lemma {:induction false} ServesAfterFrame(c: Call, k: nat, pending: map<nat, Frame>, wanted: nat, chunks: seq<seq<byte>>, fs: seq<Frame>)
    requires fs != [] && AllEncodable(fs) && fs[0].id != wanted
    requires Serves(c, k, pending[fs[0].id := fs[0]], wanted, chunks, fs[1..])
    ensures Serves(c, k + 1, pending, wanted, chunks, fs)
  {
    hide OnStream, AllEncodable, FrameBytes, Concat, ById;
    assert fs[1..][k..] == fs[k + 1..];
    KeptFirst(pending, fs, if c.r.Got? then k - 1 else k);
    assert forall i :: 1 <= i < |fs| ==> fs[i] == fs[1..][i - 1];
  }

  lemma {:induction false} ServesAfterChunk(c: Call, k: nat, pending: map<nat, Frame>, wanted: nat, chunks: seq<seq<byte>>, fs: seq<Frame>)
    requires chunks != [] && Serves(c, k, pending, wanted, chunks[1..], fs)
    ensures Serves(c.(used := c.used + 1), k, pending, wanted, chunks, fs)
  {
    hide OnStream, AllEncodable, FrameBytes, Concat, ById;
    assert chunks[1..][c.used..] == chunks[c.used + 1..];
    assert Missed(c, k, pending, wanted, fs) ==> Missed(c.(used := c.used + 1), k, pending, wanted, fs);
  }

  /**
   * On a stream of frames a call reads off frames up to the first one with the id, keeps
   * all others, and gives up only at the end of the chunks or at an empty one, with the
   * next frame not whole.
   */
  lemma {:induction false} ReadUntilServes(buf: seq<byte>, pending: map<nat, Frame>, wanted: nat, chunks: seq<seq<byte>>, fs: seq<Frame>)
      returns (k: nat)
    requires OnStream(buf + Concat(chunks), fs)
    ensures var c := ReadUntil(buf, pending, wanted, chunks);
      && Serves(c, k, pending, wanted, chunks, fs)
      && (WholeStream(buf, chunks, fs) ==> WholeStream(c.buf, chunks[c.used..], fs[k..]))
    decreases |chunks|, |buf|
  {
    Attempt(buf, chunks, fs);
    TryParseShrinks(buf);
    var (frame, rest) := TryParse(buf);
    var c := ReadUntil(buf, pending, wanted, chunks);
    assert AllEncodable(fs) && chunks[0..] == chunks && fs[0..] == fs;
    hide TryParse, OnStream, WholeStream, FrameBytes, Concat;
    if frame.Some? {
      if frame.value.id == wanted {
        k := 1;
        FirstServes(c, pending, wanted, chunks, fs);
      } else {
        var j := ReadUntilServes(rest, pending[fs[0].id := fs[0]], wanted, chunks, fs[1..]);
        hide ReadUntil, Serves;
        ServesAfterFrame(c, j, pending, wanted, chunks, fs);
        k := j + 1;
        assert fs[1..][j..] == fs[j + 1..];
      }
    } else if chunks == [] || chunks[0] == [] {
      k := 0;
      hide ReadUntil;
      if chunks != [] {
        NextChunk(buf, chunks, fs);
        assert buf + chunks[0] == buf;
      }
      NothingKept(pending, fs);
    } else {
      NextChunk(buf, chunks, fs);
      k := ReadUntilServes(buf + chunks[0], pending, wanted, chunks[1..], fs);
      var d := ReadUntil(buf + chunks[0], pending, wanted, chunks[1..]);
      hide ReadUntil, Serves;
      ServesAfterChunk(d, k, pending, wanted, chunks, fs);
      assert chunks[1..][d.used..] == chunks[d.used + 1..];
    }
  }

  lemma NothingKept(pending: map<nat, Frame>, fs: seq<Frame>)
    ensures fs[..0] == [] && pending + ById(fs[..0]) == pending
  {
  }

  lemma FirstServes(c: Call, pending: map<nat, Frame>, wanted: nat, chunks: seq<seq<byte>>, fs: seq<Frame>)
    requires fs != [] && AllEncodable(fs) && c.r == Got(fs[0]) && fs[0].id == wanted && c.pending == pending && c.used == 0
    requires OnStream(c.buf + Concat(chunks), fs[1..])
    ensures Serves(c, 1, pending, wanted, chunks, fs)
  {
    NothingKept(pending, fs);
    assert chunks[0..] == chunks;
    hide OnStream, Concat, ById, AllEncodable;
  }

  // ----- the requested frame is returned -----

  ghost predicate NeverCloses(chunks: seq<seq<byte>>) {
    forall i :: 0 <= i < |chunks| ==> chunks[i] != []
  }

  /** A call that fails has read the whole stream, and no frame of it has the id. */
  lemma {:induction false} FailureMeansAbsent(c: Call, k: nat, pending: map<nat, Frame>, wanted: nat, chunks: seq<seq<byte>>, fs: seq<Frame>)
    requires Serves(c, k, pending, wanted, chunks, fs) && NeverCloses(chunks)
    requires WholeStream(c.buf, chunks[c.used..], fs[k..]) && !c.r.Got?
    ensures k == |fs| && forall i :: 0 <= i < |fs| ==> fs[i].id != wanted
  {
    hide OnStream, AllEncodable, FrameBytes, ById;
    assert c.r == TimedOut;
    assert c.buf + Concat([]) == c.buf;
  }

  /**
   * When the whole stream comes and the server does not close, a call returns a frame if
   * and only if one with the id has been kept or is in the stream.
   */
  lemma {:induction false} GotIff(buf: seq<byte>, pending: map<nat, Frame>, wanted: nat, chunks: seq<seq<byte>>, fs: seq<Frame>)
    requires WholeStream(buf, chunks, fs) && NeverCloses(chunks)
    ensures Receive(buf, pending, wanted, chunks).r.Got?
       <==> wanted in pending || exists i :: 0 <= i < |fs| && fs[i].id == wanted
  {
    if wanted !in pending {
      var k := ReadUntilServes(buf, pending, wanted, chunks, fs);
      var c := ReadUntil(buf, pending, wanted, chunks);
      hide ReadUntil, WholeStream, OnStream, AllEncodable, FrameBytes, ById, Concat;
      if !c.r.Got? {
        FailureMeansAbsent(c, k, pending, wanted, chunks, fs);
      }
    }
  }

  /** What the client keeps and what is still to come, by id. */
  function Table(pending: map<nat, Frame>, fs: seq<Frame>): map<nat, Frame> {
    pending + ById(fs)
  }

  /** All frames, kept or to come, have ids of their own. */
  ghost predicate Distinct(pending: map<nat, Frame>, fs: seq<Frame>) {
    && (forall i, j :: 0 <= i < j < |fs| ==> fs[i].id != fs[j].id)
    && (forall i :: 0 <= i < |fs| ==> fs[i].id !in pending)
  }

  lemma {:induction false} ByIdAt(fs: seq<Frame>)
    requires Distinct(map[], fs)
    ensures forall i :: 0 <= i < |fs| ==> fs[i].id in ById(fs) && ById(fs)[fs[i].id] == fs[i]
    ensures forall id :: id in ById(fs) ==> exists i :: 0 <= i < |fs| && fs[i].id == id
  {
    ByIdHas(fs);
    ByIdKeeps(fs);
    hide ById;
    forall id | id in ById(fs)
      ensures exists i :: 0 <= i < |fs| && fs[i].id == id
    {
      var i :| 0 <= i < |fs| && fs[i] == ById(fs)[id];
    }
  }

  lemma MapAssoc(a: map<nat, Frame>, b: map<nat, Frame>, c: map<nat, Frame>)
    ensures a + (b + c) == (a + b) + c
  {
  }

  lemma {:induction false} ByIdSplit(fs: seq<Frame>, k: nat)
    requires k <= |fs|
    ensures ById(fs) == ById(fs[..k]) + ById(fs[k..])
  {
    if k == 0 {
      assert fs[0..] == fs && fs[..0] == [];
    } else {
      ByIdSplit(fs[1..], k - 1);
      assert fs[..k][1..] == fs[1..][..k - 1] && fs[1..][k - 1..] == fs[k..];
      MapAssoc(map[fs[0].id := fs[0]], ById(fs[..k][1..]), ById(fs[k..]));
    }
  }

  lemma RemoveMiddle(p: map<nat, Frame>, a: map<nat, Frame>, f: Frame, b: map<nat, Frame>)
    requires f.id !in p && f.id !in a && f.id !in b
    ensures var all := p + (a + (map[f.id := f] + b));
      f.id in all && all[f.id] == f && (p + a) + b == all - {f.id}
  {
  }

  lemma {:induction false} ByIdAround(fs: seq<Frame>, k: nat)
    requires 0 < k <= |fs|
    ensures ById(fs) == ById(fs[..k - 1]) + (map[fs[k - 1].id := fs[k - 1]] + ById(fs[k..]))
  {
    ByIdSplit(fs, k - 1);
    assert fs[k - 1..][1..] == fs[k..];
  }

  /** The ids before and behind the frame at `k - 1` are others. */
  lemma {:induction false} OthersAreDistinct(pending: map<nat, Frame>, fs: seq<Frame>, k: nat)
    requires 0 < k <= |fs| && Distinct(pending, fs)
    ensures Distinct(pending + ById(fs[..k - 1]), fs[k..])
    ensures fs[k - 1].id !in ById(fs[..k - 1]) && fs[k - 1].id !in ById(fs[k..])
  {
    ByIdAt(fs[..k - 1]);
    ByIdAt(fs[k..]);
    hide ById;
  }

  /** After the frame at `k - 1` has been returned, all others are still kept or to come. */
  lemma {:induction false} OthersRemain(pending: map<nat, Frame>, fs: seq<Frame>, k: nat)
    requires 0 < k <= |fs| && Distinct(pending, fs)
    ensures var id, kept := fs[k - 1].id, pending + ById(fs[..k - 1]);
      && Distinct(kept, fs[k..])
      && id in Table(pending, fs) && Table(pending, fs)[id] == fs[k - 1]
      && Table(kept, fs[k..]) == Table(pending, fs) - {id}
  {
    assert fs[k - 1].id !in pending;
    hide ById, Distinct;
    ByIdAround(fs, k);
    OthersAreDistinct(pending, fs, k);
    RemoveMiddle(pending, ById(fs[..k - 1]), fs[k - 1], ById(fs[k..]));
  }

  /**
   * The requested frame is returned and none is lost: with an id of its own each, a call
   * returns the frame with the id asked for, wherever it is, and all others stay.
   */
  lemma {:induction false} RequestedIsReturned(buf: seq<byte>, pending: map<nat, Frame>, wanted: nat, chunks: seq<seq<byte>>, fs: seq<Frame>)
      returns (k: nat)
    requires WholeStream(buf, chunks, fs) && NeverCloses(chunks) && Distinct(pending, fs)
    requires wanted in Table(pending, fs)
    ensures var c := Receive(buf, pending, wanted, chunks);
      && c.r == Got(Table(pending, fs)[wanted])
      && c.used <= |chunks| && k <= |fs| && WholeStream(c.buf, chunks[c.used..], fs[k..])
      && Distinct(c.pending, fs[k..]) && Table(c.pending, fs[k..]) == Table(pending, fs) - {wanted}
  {
    if wanted in pending {
      k := 0;
      assert chunks[0..] == chunks && fs[0..] == fs;
      ByIdAt(fs);
      hide WholeStream, NeverCloses, ById;
    } else {
      hide *;
      k := ReadUntilServes(buf, pending, wanted, chunks, fs);
      ReceiveReads(buf, pending, wanted, chunks);
      ReturnedFrame(ReadUntil(buf, pending, wanted, chunks), k, pending, wanted, chunks, fs);
    }
  }

  lemma ReceiveReads(buf: seq<byte>, pending: map<nat, Frame>, wanted: nat, chunks: seq<seq<byte>>)
    requires wanted !in pending
    ensures Receive(buf, pending, wanted, chunks) == ReadUntil(buf, pending, wanted, chunks)
  {
    hide ReadUntil;
  }

  lemma {:induction false} ReturnedFrame(c: Call, k: nat, pending: map<nat, Frame>, wanted: nat, chunks: seq<seq<byte>>, fs: seq<Frame>)
    requires Serves(c, k, pending, wanted, chunks, fs) && c.used <= |chunks| && k <= |fs|
    requires WholeStream(c.buf, chunks[c.used..], fs[k..]) && NeverCloses(chunks) && Distinct(pending, fs)
    requires wanted in Table(pending, fs) && wanted !in pending
    ensures c.r == Got(Table(pending, fs)[wanted])
    ensures Distinct(c.pending, fs[k..]) && Table(c.pending, fs[k..]) == Table(pending, fs) - {wanted}
  {
    if !c.r.Got? {
      FailureMeansAbsent(c, k, pending, wanted, chunks, fs);
      ByIdAt(fs);
    } else {
      hide WholeStream, NeverCloses, OnStream, AllEncodable, FrameBytes, ById, Concat, Distinct, Table;
      OthersRemain(pending, fs, k);
    }
  }

  /** Calls for these ids, one after another. */
  function ReceiveAll(buf: seq<byte>, pending: map<nat, Frame>, ids: seq<nat>, chunks: seq<seq<byte>>): (r: seq<Received>)
    ensures |r| == |ids|
    decreases |ids|
  {
    if ids == [] then []
    else
      var c := Receive(buf, pending, ids[0], chunks);
      [c.r] + ReceiveAll(c.buf, c.pending, ids[1..], chunks[c.used..])
  }

  /** In whatever order the frames are asked for, every call returns its own. */
  lemma {:induction false} EveryCallReturns(buf: seq<byte>, pending: map<nat, Frame>, ids: seq<nat>, chunks: seq<seq<byte>>, fs: seq<Frame>)
    requires WholeStream(buf, chunks, fs) && NeverCloses(chunks) && Distinct(pending, fs)
    requires forall i :: 0 <= i < |ids| ==> ids[i] in Table(pending, fs)
    requires forall i, j :: 0 <= i < j < |ids| ==> ids[i] != ids[j]
    ensures forall i :: 0 <= i < |ids| ==> ReceiveAll(buf, pending, ids, chunks)[i] == Got(Table(pending, fs)[ids[i]])
    decreases |ids|
  {
    hide WholeStream, Distinct, Table, Receive;
    if ids != [] {
      var k := RequestedIsReturned(buf, pending, ids[0], chunks, fs);
      var c := Receive(buf, pending, ids[0], chunks);
      assert forall i :: 0 <= i < |ids[1..]| ==> ids[1..][i] == ids[i + 1];
      EveryCallReturns(c.buf, c.pending, ids[1..], chunks[c.used..], fs[k..]);
      forall i | 0 <= i < |ids|
        ensures ReceiveAll(buf, pending, ids, chunks)[i] == Got(Table(pending, fs)[ids[i]])
      {
        if i > 0 {
          assert ids[i] == ids[1..][i - 1] && ids[i] in Table(c.pending, fs[k..]);
        }
      }
    }
  }

  /** Two frames with one id: a client that waits for a third frame keeps the second and loses the first. */
  lemma {:induction false} LaterFrameReplaces(a: Frame, b: Frame, c: Frame)
    requires a.Encodable() && b.Encodable() && c.Encodable() && a.id == b.id != c.id
    ensures var call := Receive([], map[], c.id, [FrameBytes(a) + FrameBytes(b) + FrameBytes(c)]);
      call.r == Got(c) && call.pending == map[a.id := b]
  {
    var fs, chunks := [a, b, c], [FrameBytes(a) + FrameBytes(b) + FrameBytes(c)];
    ThreeFrames(a, b, c);
    assert chunks[1..] == [] && [] + Concat(chunks) == chunks[0] + [];
    hide FrameBytes;
    assert WholeStream([], chunks, fs) && OnStream([] + Concat(chunks), fs);
    GotIff([], map[], c.id, chunks, fs);
    var k := ReadUntilServes([], map[], c.id, chunks, fs);
    assert fs[2].id == c.id;
    hide ReadUntil, OnStream, WholeStream, FramesBytes, Concat;
    assert k == 3;
    assert fs[..2] == [a, b] && [a, b][1..] == [b] && [b][1..] == [];
    assert ById([b]) == map[b.id := b] + map[];
  }

  lemma {:induction false} ThreeFrames(a: Frame, b: Frame, c: Frame)
    ensures FramesBytes([a, b, c]) == FrameBytes(a) + FrameBytes(b) + FrameBytes(c)
  {
    hide FrameBytes;
    assert [a, b, c][1..] == [b, c] && [b, c][1..] == [c] && [c][1..] == [];
    assert FramesBytes([c]) == FrameBytes(c) + [];
    assert FramesBytes([b, c]) == FrameBytes(b) + FramesBytes([c]);
  }
}
