/** The encoder that the parser inverts, for commands and for replies of any shape. */
module RespEncoding {
  import opened Common
  import opened Bytes
  import opened Decimal
  import opened Resp
  import opened RespStreams

  predicate NoCrlf(s: seq<byte>) {
    forall i :: 0 <= i < |s| - 1 ==> !(s[i] == CR && s[i + 1] == LF)
  }

  /** Values that the protocol can carry. */
  ghost predicate WellFormed(v: Value) {
    match v
    case SimpleString(s) => NoCrlf(s)
    case Error(s) => NoCrlf(s)
    case Integer(n) => InRange(n)
    case BulkString(s) => |s| <= LLONG_MAX
    case Null => true
    case Array(es) => |es| <= LLONG_MAX && forall e :: e in es ==> WellFormed(e)
    case NullArray => true
  }

  function Header(kind: byte, n: int): seq<byte> {
    [kind] + ToString(n) + CRLF
  }

  function Encode(v: Value): seq<byte> {
    match v
    case SimpleString(s) => [PLUS_SIGN] + s + CRLF
    case Error(s) => [MINUS_SIGN] + s + CRLF
    case Integer(n) => Header(COLON, n)
    case BulkString(s) => Header(DOLLAR, |s|) + s + CRLF
    case Null => Header(DOLLAR, -1)
    case Array(es) => Header(STAR, |es|) + EncodeAll(es)
    case NullArray => Header(STAR, -1)
  }

  function EncodeAll(es: seq<Value>): seq<byte> {
    if es == [] then [] else Encode(es[0]) + EncodeAll(es[1..])
  }

  /** What a sent value is read as: null arrays, at any depth, as empty ones. */
  function AsRead(v: Value): Value {
    match v
    case Array(es) => Array(AllAsRead(es))
    case NullArray => Array([])
    case _ => v
  }

  function AllAsRead(es: seq<Value>): seq<Value> {
    if es == [] then [] else [AsRead(es[0])] + AllAsRead(es[1..])
  }

  /** No null array in it, at any depth. */
  ghost predicate NoNullArray(v: Value) {
    !v.NullArray? && (v.Array? ==> forall e :: e in v.elements ==> NoNullArray(e))
  }

  lemma {:induction false} ReadAsIs(v: Value)
    requires NoNullArray(v)
    ensures AsRead(v) == v
    decreases v, 0
  {
    if v.Array? {
      AllReadAsIs(v.elements);
    }
  }

  lemma {:induction false} AllReadAsIs(es: seq<Value>)
    requires forall e :: e in es ==> NoNullArray(e)
    ensures AllAsRead(es) == es
    decreases es, 1
  {
    if es != [] {
      ReadAsIs(es[0]);
      AllReadAsIs(es[1..]);
    }
  }

  function Bulks(args: seq<seq<byte>>): (vs: seq<Value>)
    ensures |vs| == |args|
  {
    seq(|args|, i requires 0 <= i < |args| => BulkString(args[i]))
  }

  /** `buildRESPCommand`. */
  method BuildRESPCommand(args: seq<seq<byte>>) returns (cmd: seq<byte>)
    ensures cmd == Encode(Array(Bulks(args)))
  {
    cmd := [STAR] + ToString(|args|) + CRLF;
    ghost var header := cmd;
    hide ToString, Encode;
    for i := 0 to |args|
      invariant cmd == header + EncodeAll(Bulks(args[..i]))
    {
      var arg := args[i];
      cmd := cmd + ([DOLLAR] + ToString(|arg|) + CRLF);
      cmd := cmd + (arg + CRLF);
      BulksStep(args, i);
    }
    assert args[..|args|] == args;
    EncodeArray(Bulks(args));
  }

  lemma EncodeArray(es: seq<Value>)
    ensures Encode(Array(es)) == Header(STAR, |es|) + EncodeAll(es)
  {
    hide ToString, EncodeAll;
  }

  lemma {:induction false} BulksStep(args: seq<seq<byte>>, i: nat)
    requires i < |args|
    ensures EncodeAll(Bulks(args[..i + 1]))
         == EncodeAll(Bulks(args[..i])) + ([DOLLAR] + ToString(|args[i]|) + CRLF) + (args[i] + CRLF)
  {
    hide ToString;
    assert Bulks(args[..i + 1]) == Bulks(args[..i]) + [BulkString(args[i])];
    EncodeSnoc(Bulks(args[..i]), BulkString(args[i]));
  }

  lemma {:induction false} EncodeSnoc(es: seq<Value>, e: Value)
    ensures EncodeAll(es + [e]) == EncodeAll(es) + Encode(e)
  {
    hide Encode;
    if es == [] {
      assert ([] + [e])[1..] == [];
    } else {
      EncodeSnoc(es[1..], e);
      assert (es + [e])[1..] == es[1..] + [e];
    }
  }

  // ----- parsing what was encoded -----

  /** A line in any surroundings. */
  lemma {:induction false} ReadLineOf(pre: seq<byte>, text: seq<byte>, suf: seq<byte>)
    requires NoCrlf(text)
    ensures ReadLine(pre + text + CRLF + suf, |pre|) == Line(text, |pre| + |text| + 2)
  {
    var d := pre + text + CRLF + suf;
    var e := |pre| + |text|;
    assert d[e] == CR && d[e + 1] == LF;
    forall k | |pre| <= k < e
      ensures !(d[k] == CR && d[k + 1] == LF)
    {
      if k + 1 < e {
        assert d[k] == text[k - |pre|] && d[k + 1] == text[k + 1 - |pre|];
      }
    }
    assert FindCrlf(d, |pre|) == e;
    assert d[|pre|..e] == text;
  }

  lemma {:induction false} ToStringHasNoCrlf(n: int)
    ensures NoCrlf(ToString(n))
  {
    ToStringIsPlain(n);
    forall i | 0 <= i < |ToString(n)| - 1
      ensures ToString(n)[i] != CR
    {
      assert ToString(n)[i] in ToString(n);
    }
  }

  /** The header of a value with a number in it. */
  lemma {:induction false} ReadHeader(pre: seq<byte>, kind: byte, n: int, suf: seq<byte>)
    requires InRange(n)
    ensures var d := pre + Header(kind, n) + suf;
      && |pre| < |d| && d[|pre|] == kind
      && ReadLine(d, |pre| + 1) == Line(ToString(n), |pre| + |Header(kind, n)|)
      && Stoll(ToString(n)) == Some(n)
  {
    ToStringHasNoCrlf(n);
    StollOfToString(n);
    hide ToString, Stoll, ReadLine;
    ReadLineOf(pre + [kind], ToString(n), suf);
    assert pre + Header(kind, n) + suf == (pre + [kind]) + ToString(n) + CRLF + suf;
  }

  /**
   * The round trip in context: whatever stands before and after it, an encoded value is
   * read back whole, a null array as an empty one, and the cursor stops exactly behind it.
   */
  lemma {:induction false} ParseOfEncode(pre: seq<byte>, v: Value, suf: seq<byte>)
    requires WellFormed(v)
    ensures ParseValue(pre + Encode(v) + suf, |pre|) == Ok(AsRead(v), |pre| + |Encode(v)|)
    decreases v, 0
  {
    hide ParseValue;
    match v
    case SimpleString(s) => ParseOfText(pre, PLUS_SIGN, s, suf);
    case Error(s) => ParseOfText(pre, MINUS_SIGN, s, suf);
    case Integer(n) => ParseOfInteger(pre, n, suf);
    case BulkString(s) => ParseOfBulk(pre, s, suf);
    case Null => ParseOfNull(pre, suf);
    case Array(es) =>
      EncodeArray(es);
      ParseOfEncodeAll(pre + Header(STAR, |es|), es, suf);
      ArrayOfElements(pre, es, suf);
    case NullArray => ParseOfNullArray(pre, suf);
  }

  /** An array is its header and its elements. */
  lemma {:induction false} ArrayOfElements(pre: seq<byte>, es: seq<Value>, suf: seq<byte>)
    requires |es| <= LLONG_MAX
    requires var h := pre + Header(STAR, |es|);
      ParseElements(h + EncodeAll(es) + suf, |h|, |es|) == Ok(Array(AllAsRead(es)), |h| + |EncodeAll(es)|)
    ensures ParseValue(pre + Encode(Array(es)) + suf, |pre|) == Ok(AsRead(Array(es)), |pre| + |Encode(Array(es))|)
  {
    var h, body, text := Header(STAR, |es|), EncodeAll(es), ToString(|es|);
    EncodeArray(es);
    ReadHeader(pre, STAR, |es|, body + suf);
    assert AsRead(Array(es)) == Array(AllAsRead(es));
    hide *;
    ArrayInContext(pre, h, body, suf, text, |es|, Array(AllAsRead(es)));
  }

  /** An array parses as its elements do once its header has been read. */
  lemma {:induction false} ArrayInContext(pre: seq<byte>, h: seq<byte>, body: seq<byte>, suf: seq<byte>, text: seq<byte>, n: nat, v: Value)
    requires h != [] && ParseElements((pre + h) + body + suf, |pre + h|, n) == Ok(v, |pre + h| + |body|)
    requires var d := pre + h + (body + suf);
      d[|pre|] == STAR && ReadLine(d, |pre| + 1) == Line(text, |pre| + |h|) && Stoll(text) == Some(n)
    ensures ParseValue(pre + (h + body) + suf, |pre|) == Ok(v, |pre| + |h + body|)
  {
    hide *;
    Regroup(pre, h, body, suf);
    var d := pre + (h + body) + suf;
    assert ReadLine(d, |pre| + 1) == Line(text, |pre| + |h|);
    assert ParseElements(d, |pre| + |h|, n) == Ok(v, |pre| + |h| + |body|);
    ArrayAt(d, |pre|, text, |pre| + |h|, n);
  }

  lemma ArrayAt(data: seq<byte>, pos: nat, text: seq<byte>, p: nat, n: nat)
    requires pos < p <= |data| && data[pos] == STAR
    requires ReadLine(data, pos + 1) == Line(text, p) && Stoll(text) == Some(n)
    ensures ParseValue(data, pos) == ParseElements(data, p, n)
  {
    hide ReadLine, Stoll, ParseElements;
  }

  /** A part of a sequence, seen with its surroundings. */
  lemma Regroup(pre: seq<byte>, a: seq<byte>, b: seq<byte>, suf: seq<byte>)
    ensures pre + (a + b) + suf == pre + a + (b + suf)
    ensures pre + (a + b) + suf == (pre + a) + b + suf
    ensures |pre + a| == |pre| + |a|
  {
  }

  lemma {:induction false} ParseOfInteger(pre: seq<byte>, n: int, suf: seq<byte>)
    requires InRange(n)
    ensures ParseValue(pre + Encode(Integer(n)) + suf, |pre|) == Ok(Integer(n), |pre| + |Encode(Integer(n))|)
  {
    ReadHeader(pre, COLON, n, suf);
    hide ReadLine, Stoll, Header;
  }

  lemma {:induction false} ParseOfNull(pre: seq<byte>, suf: seq<byte>)
    ensures ParseValue(pre + Encode(Null) + suf, |pre|) == Ok(Null, |pre| + |Encode(Null)|)
  {
    ReadHeader(pre, DOLLAR, -1, suf);
    hide ReadLine, Stoll, Header;
  }

  lemma {:induction false} ParseOfNullArray(pre: seq<byte>, suf: seq<byte>)
    ensures ParseValue(pre + Encode(NullArray) + suf, |pre|) == Ok(Array([]), |pre| + |Encode(NullArray)|)
  {
    ReadHeader(pre, STAR, -1, suf);
    hide ReadLine, Stoll, Header;
  }

  /** A null array, byte by byte: five bytes that are read as an empty array. */
  lemma {:induction false} NullArrayReads(pre: seq<byte>, suf: seq<byte>)
    ensures ParseValue(pre + [42, 45, 49, 13, 10] + suf, |pre|) == Ok(Array([]), |pre| + 5)
  {
    assert ToString(-1) == [MINUS] + Text(1) && Text(1) == [49];
    assert Header(STAR, -1) == [42, 45, 49, 13, 10];
    assert Encode(NullArray) == [42, 45, 49, 13, 10];
    hide *;
    ParseOfNullArray(pre, suf);
  }

  /**
   * A line of any text, in any surroundings: what it is read as and, where it does not
   * stand for a value, how the parse fails.
   */
  lemma {:induction false} LineReads(pre: seq<byte>, kind: byte, text: seq<byte>, suf: seq<byte>)
    requires NoCrlf(text)
    ensures var r := ParseValue(pre + [kind] + text + CRLF + suf, |pre|);
      var q := |pre| + |text| + 3;
      && (kind == 43 ==> r == Ok(SimpleString(text), q))
      && (kind == 45 ==> r == Ok(Error(text), q))
      && (kind == 58 ==> r == if Stoll(text) == None then Fail(Malformed) else Ok(Integer(Stoll(text).value), q))
      && (kind == 36 ==>
            match Stoll(text)
            case None => r == Fail(Malformed)
            case Some(n) =>
              && (n == -1 ==> r == Ok(Null, q))
              && (n < -1 ==> r == Fail(NegativeLength))
              && (n >= 0 ==>
                    r == if |suf| >= n + 2 && suf[n] == 13 && suf[n + 1] == 10 then Ok(BulkString(suf[..n]), q + n + 2)
                         else Fail(Incomplete)))
      && (kind == 42 ==>
            match Stoll(text)
            case None => r == Fail(Malformed)
            case Some(n) => (n in {-1, 0} ==> r == Ok(Array([]), q)) && (n < -1 ==> r == Fail(Malformed)))
      && (kind !in {43, 45, 58, 36, 42} ==> r == Fail(Malformed))
  {
    var d := pre + [kind] + text + CRLF + suf;
    ReadLineOf(pre + [kind], text, suf);
    assert d[|pre|] == kind && |pre + [kind]| == |pre| + 1;
    hide ReadLine, Stoll;
    if kind == DOLLAR && Stoll(text).Some? && Stoll(text).value >= 0 {
      var p := |pre| + |text| + 3;
      BulkReads(d, |pre|, text, p, Stoll(text).value);
      assert d[p..] == suf;
    }
  }

  /** A bulk string is what stands between its length line and its own end of line, and it needs both. */
  lemma BulkReads(data: seq<byte>, pos: nat, text: seq<byte>, p: nat, n: nat)
    requires pos < p <= |data| && data[pos] == DOLLAR
    requires ReadLine(data, pos + 1) == Line(text, p) && Stoll(text) == Some(n)
    ensures var suf := data[p..];
      ParseValue(data, pos) ==
        if |suf| >= n + 2 && suf[n] == CR && suf[n + 1] == LF then Ok(BulkString(suf[..n]), p + n + 2)
        else Fail(Incomplete)
  {
    var suf := data[p..];
    if |suf| >= n + 2 {
      assert suf[n] == data[p + n] && suf[n + 1] == data[p + n + 1] && suf[..n] == data[p..p + n];
    }
    hide ReadLine, Stoll;
  }

  lemma {:induction false} ParseOfText(pre: seq<byte>, kind: byte, s: seq<byte>, suf: seq<byte>)
    requires NoCrlf(s) && kind in {PLUS_SIGN, MINUS_SIGN}
    ensures ParseValue(pre + ([kind] + s + CRLF) + suf, |pre|)
         == Ok(if kind == PLUS_SIGN then SimpleString(s) else Error(s), |pre| + |s| + 3)
  {
    var d := pre + ([kind] + s + CRLF) + suf;
    ReadLineOf(pre + [kind], s, suf);
    assert d == (pre + [kind]) + s + CRLF + suf;
    assert d[|pre|] == kind;
    hide ReadLine, Stoll;
  }

  lemma {:induction false} ParseOfBulk(pre: seq<byte>, s: seq<byte>, suf: seq<byte>)
    requires |s| <= LLONG_MAX
    ensures ParseValue(pre + Encode(BulkString(s)) + suf, |pre|) == Ok(BulkString(s), |pre| + |Encode(BulkString(s))|)
  {
    var h := Header(DOLLAR, |s|);
    var text := ToString(|s|);
    ReadHeader(pre, DOLLAR, |s|, s + CRLF + suf);
    assert Encode(BulkString(s)) == h + (s + CRLF) by { hide Header; }
    hide Encode, Header, ReadLine, Stoll, ParseValue, ToString;
    Regroup(pre, h, s + CRLF, suf);
    assert s + CRLF + suf == (s + CRLF) + suf;
    assert (pre + h) + s + CRLF + suf == (pre + h) + (s + CRLF) + suf;
    BulkAt(pre + h, s, suf);
    BulkInContext(pre + (h + (s + CRLF)) + suf, |pre|, text, |pre + h|, s);
  }

  lemma BulkInContext(data: seq<byte>, pos: nat, text: seq<byte>, p: nat, s: seq<byte>)
    requires pos < p && p + |s| + 2 <= |data| && data[pos] == DOLLAR
    requires ReadLine(data, pos + 1) == Line(text, p) && Stoll(text) == Some(|s|)
    requires data[p..p + |s|] == s && data[p + |s|] == CR && data[p + |s| + 1] == LF
    ensures ParseValue(data, pos) == Ok(BulkString(s), p + |s| + 2)
  {
    hide ReadLine, Stoll;
  }

  lemma {:induction false} BulkAt(pre: seq<byte>, s: seq<byte>, suf: seq<byte>)
    ensures var d, p := pre + s + CRLF + suf, |pre|;
      && p + |s| + 2 <= |d|
      && d[p..p + |s|] == s
      && d[p + |s|] == CR && d[p + |s| + 1] == LF
  {
    var d, p := pre + s + CRLF + suf, |pre|;
    assert d[p..p + |s|] == s;
  }

  lemma {:induction false} ParseOfEncodeAll(pre: seq<byte>, es: seq<Value>, suf: seq<byte>)
    requires forall e :: e in es ==> WellFormed(e)
    ensures ParseElements(pre + EncodeAll(es) + suf, |pre|, |es|) == Ok(Array(AllAsRead(es)), |pre| + |EncodeAll(es)|)
    decreases es, 1
  {
    hide ParseValue, Encode;
    if es != [] {
      assert es[0] in es;
      ParseOfEncode(pre, es[0], EncodeAll(es[1..]) + suf);
      ParseOfEncodeAll(pre + Encode(es[0]), es[1..], suf);
      ElementsOfFirst(pre, es, suf);
    }
  }

  lemma {:induction false} ElementsOfFirst(pre: seq<byte>, es: seq<Value>, suf: seq<byte>)
    requires es != []
    requires ParseValue(pre + Encode(es[0]) + (EncodeAll(es[1..]) + suf), |pre|) == Ok(AsRead(es[0]), |pre| + |Encode(es[0])|)
    requires var p := pre + Encode(es[0]);
      ParseElements(p + EncodeAll(es[1..]) + suf, |p|, |es| - 1) == Ok(Array(AllAsRead(es[1..])), |p| + |EncodeAll(es[1..])|)
    ensures ParseElements(pre + EncodeAll(es) + suf, |pre|, |es|) == Ok(Array(AllAsRead(es)), |pre| + |EncodeAll(es)|)
  {
    hide *;
    EncodeFirst(es);
    var a, b := Encode(es[0]), EncodeAll(es[1..]);
    Regroup(pre, a, b, suf);
    ElementsAt(pre + (a + b) + suf, |pre|, AsRead(es[0]), AllAsRead(es[1..]), |es|, |pre| + |a|, |pre| + |a| + |b|);
    AllAsReadFirst(es);
  }

  lemma EncodeFirst(es: seq<Value>)
    requires es != []
    ensures EncodeAll(es) == Encode(es[0]) + EncodeAll(es[1..])
  {
    hide Encode;
  }

  lemma AllAsReadFirst(es: seq<Value>)
    requires es != []
    ensures AllAsRead(es) == [AsRead(es[0])] + AllAsRead(es[1..])
  {
    hide AsRead;
  }

  lemma ElementsAt(data: seq<byte>, pos: nat, v: Value, vs: seq<Value>, n: nat, q: nat, end: nat)
    requires n > 0 && pos <= |data| && q <= |data| && ParseValue(data, pos) == Ok(v, q)
    requires ParseElements(data, q, n - 1) == Ok(Array(vs), end)
    ensures ParseElements(data, pos, n) == Ok(Array([v] + vs), end)
  {
    hide ParseValue;
  }

  /** The first element that does not parse decides how the array fails. */
  lemma {:induction false} FirstFailureCounts(pre: seq<byte>, n: nat, es: seq<Value>, suf: seq<byte>)
    requires |es| < n <= LLONG_MAX && forall e :: e in es ==> WellFormed(e)
    ensures var d := pre + Header(STAR, n) + (EncodeAll(es) + suf);
      var q := |pre| + |Header(STAR, n)| + |EncodeAll(es)|;
      q <= |d| && (ParseValue(d, q).Fail? ==> ParseValue(d, |pre|) == ParseValue(d, q))
  {
    hide *;
    HeaderOfLength(n);
    var h := Header(STAR, n);
    ReadHeader(pre, STAR, n, EncodeAll(es) + suf);
    FailsBehind(pre, h, pre + h, n, es, suf);
  }

  lemma HeaderOfLength(n: nat)
    requires n <= LLONG_MAX
    ensures InRange(n) && Header(STAR, n) != []
  {
    hide ToString;
  }

  lemma FailsBehind(pre: seq<byte>, h: seq<byte>, p: seq<byte>, n: nat, es: seq<Value>, suf: seq<byte>)
    requires |es| < n && (forall e :: e in es ==> WellFormed(e)) && p == pre + h && h != []
    requires var d := p + (EncodeAll(es) + suf);
      d[|pre|] == STAR && ReadLine(d, |pre| + 1) == Line(ToString(n), |pre| + |h|) && Stoll(ToString(n)) == Some(n)
    ensures var d := p + (EncodeAll(es) + suf);
      var q := |pre| + |h| + |EncodeAll(es)|;
      q <= |d| && (ParseValue(d, q).Fail? ==> ParseValue(d, |pre|) == ParseValue(d, q))
  {
    hide *;
    ElementsAfter(p, es, suf);
    var d := p + (EncodeAll(es) + suf);
    assert |p| == |pre| + |h|;
    FailsAt(d, |pre|, ToString(n), |p|, |p| + |EncodeAll(es)|, |es|, n);
  }

  lemma ElementsAfter(p: seq<byte>, es: seq<Value>, suf: seq<byte>)
    requires forall e :: e in es ==> WellFormed(e)
    ensures var d := p + (EncodeAll(es) + suf); var q := |p| + |EncodeAll(es)|;
      q <= |d| && ParseElements(d, |p|, |es|) == Ok(Array(AllAsRead(es)), q)
  {
    hide *;
    ParseOfEncodeAll(p, es, suf);
    Assoc(p, EncodeAll(es), suf);
  }

  lemma FailsAt(data: seq<byte>, pos: nat, text: seq<byte>, p: nat, q: nat, k: nat, n: nat)
    requires pos < p <= |data| && data[pos] == STAR && k < n
    requires ReadLine(data, pos + 1) == Line(text, p) && Stoll(text) == Some(n)
    requires ParseElements(data, p, k).Ok? && ParseElements(data, p, k).pos == q
    ensures q <= |data| && (ParseValue(data, q).Fail? ==> ParseValue(data, pos) == ParseValue(data, q))
  {
    hide *;
    if ParseValue(data, q).Fail? {
      ElementsFail(data, p, k, n);
      ArrayIsElements(data, pos, text, p, n);
    }
  }

  lemma ArrayIsElements(data: seq<byte>, pos: nat, text: seq<byte>, p: nat, n: nat)
    requires pos < p <= |data| && data[pos] == STAR
    requires ReadLine(data, pos + 1) == Line(text, p) && Stoll(text) == Some(n)
    ensures ParseValue(data, pos) == ParseElements(data, p, n)
  {
    hide ReadLine, Stoll, ParseElements;
  }

  lemma {:induction false} ElementsFail(data: seq<byte>, pos: nat, k: nat, n: nat)
    requires pos <= |data| && k < n && ParseElements(data, pos, k).Ok?
    requires ParseValue(data, ParseElements(data, pos, k).pos).Fail?
    ensures ParseElements(data, pos, n) == ParseValue(data, ParseElements(data, pos, k).pos)
    decreases k
  {
    hide ParseValue;
    if k > 0 {
      ElementsFail(data, ParseValue(data, pos).pos, k - 1, n - 1);
    }
  }

  /** The command round trip. */
  lemma CommandRoundTrip(pre: seq<byte>, args: seq<seq<byte>>, suf: seq<byte>)
    requires |args| <= LLONG_MAX && forall a :: a in args ==> |a| <= LLONG_MAX
    ensures var cmd := Encode(Array(Bulks(args)));
      ParseValue(pre + cmd + suf, |pre|) == Ok(Array(Bulks(args)), |pre| + |cmd|)
  {
    var v := Array(Bulks(args));
    assert WellFormed(v) by {
      forall e | e in Bulks(args)
        ensures WellFormed(e)
      {
        var i :| 0 <= i < |args| && Bulks(args)[i] == e;
        assert args[i] in args;
      }
    }
    CommandReadsAsIs(args);
    hide ParseValue, Encode, WellFormed, AsRead;
    ParseOfEncode(pre, v, suf);
  }

  lemma {:induction false} CommandReadsAsIs(args: seq<seq<byte>>)
    ensures AsRead(Array(Bulks(args))) == Array(Bulks(args))
  {
    var v := Array(Bulks(args));
    assert NoNullArray(v) by {
      forall e | e in Bulks(args)
        ensures NoNullArray(e)
      {
        var i :| 0 <= i < |args| && Bulks(args)[i] == e;
      }
    }
    hide NoNullArray, AsRead;
    ReadAsIs(v);
  }

  /** Every strict prefix of an encoded value, arrays in arrays included, asks for more bytes. */
  lemma PrefixAsksForMore(v: Value, k: nat)
    requires WellFormed(v) && k < |Encode(v)|
    ensures ParseValue(Encode(v)[..k], 0) == Fail(Incomplete)
  {
    hide *;
    assert [] + Encode(v) + [] == Encode(v);
    ParseOfEncode([], v, []);
    StrictPrefixIsIncomplete(Encode(v), 0, k);
  }

  lemma PrefixReadsAlike(v: Value, w: Value)
    requires WellFormed(v) && WellFormed(w) && Encode(v) <= Encode(w)
    ensures Encode(v) == Encode(w) && AsRead(v) == AsRead(w)
  {
    hide ParseValue, Encode, WellFormed, AsRead;
    var suf := Encode(w)[|Encode(v)|..];
    assert [] + Encode(w) + [] == [] + Encode(v) + suf;
    ParseOfEncode([], v, suf);
    ParseOfEncode([], w, []);
  }

  /** Encodings are injective and prefix-free, null arrays included. */
  lemma {:induction false} EncodingIsPrefixFree(v: Value, w: Value)
    requires WellFormed(v) && WellFormed(w) && Encode(v) <= Encode(w)
    ensures v == w
    decreases v, 0
  {
    PrefixReadsAlike(v, w);
    if v.Array? && w.Array? {
      EncodeArray(v.elements);
      EncodeArray(w.elements);
      AllAsReadCount(v.elements);
      AllAsReadCount(w.elements);
      assert AllAsRead(v.elements) == AllAsRead(w.elements);
      hide Encode, EncodeAll, Header, AllAsRead;
      var h := Header(STAR, |v.elements|);
      Begins(h, EncodeAll(v.elements), h, EncodeAll(w.elements));
      AllEncodedAlike(v.elements, w.elements);
    } else if v.NullArray? || w.NullArray? {
      AllAsReadCount(if v.Array? then v.elements else if w.Array? then w.elements else []);
      NoElementsEncode();
      hide Encode;
    } else {
      hide Encode;
    }
  }

  lemma NoElementsEncode()
    ensures Encode(Array([])) != Encode(NullArray)
  {
    assert Text(1) == [49];
    assert ToString(-1) == [MINUS] + Text(1) && ToString(0) == [48];
    assert Header(STAR, -1)[1] == 45 && Header(STAR, 0)[1] == 48;
    hide ToString, Header;
  }

  lemma {:induction false} AllAsReadCount(es: seq<Value>)
    ensures |AllAsRead(es)| == |es|
  {
    if es != [] {
      AllAsReadCount(es[1..]);
    }
  }

  lemma {:induction false} AllEncodedAlike(es: seq<Value>, fs: seq<Value>)
    requires |es| == |fs| && EncodeAll(es) == EncodeAll(fs)
    requires (forall e :: e in es ==> WellFormed(e)) && forall f :: f in fs ==> WellFormed(f)
    ensures es == fs
    decreases es, 1
  {
    hide Encode, WellFormed;
    if es != [] {
      var a, b := Encode(es[0]), Encode(fs[0]);
      assert a + EncodeAll(es[1..]) == b + EncodeAll(fs[1..]);
      Begins(a, EncodeAll(es[1..]), b, EncodeAll(fs[1..]));
      if |a| <= |b| {
        EncodingIsPrefixFree(es[0], fs[0]);
      } else {
        PrefixReadsAlike(fs[0], es[0]);
      }
      AllEncodedAlike(es[1..], fs[1..]);
    }
  }

  lemma Begins(a: seq<byte>, x: seq<byte>, b: seq<byte>, y: seq<byte>)
    requires a + x == b + y
    ensures |a| <= |b| ==> a <= b && (|a| == |b| ==> x == y)
    ensures |b| <= |a| ==> b <= a
  {
    assert a == (a + x)[..|a|] && b == (b + y)[..|b|];
    assert x == (a + x)[|a|..] && y == (b + y)[|b|..];
  }

  /** The array of 1 and 2; its first element ends after eight bytes. */
  const TWO_INTEGERS: Value := Array([Integer(1), Integer(2)])

  /**
   * Why replies in the read buffer must not be arrays: with zero bytes behind the
   * received ones, an array cut between two elements is taken for garbage, although the
   * same bytes without the zeros ask for more.
   */
  lemma {:induction false} ArrayCutBetweenElements(z: nat)
    requires z > 0
    ensures var d := Encode(TWO_INTEGERS);
      && WellFormed(TWO_INTEGERS)
      && 8 < |d| && ParseValue(d, 0).Ok?
      && ParseValue(Padded(d, 8, z), 0) == Fail(Malformed)
      && ParseValue(d[..8], 0) == Fail(Incomplete)
  {
    TwoIntegersBytes();
    var d := Encode(TWO_INTEGERS);
    ReadLineOf([STAR], [50], d[4..]);
    assert d == [STAR] + [50] + CRLF + d[4..];
    StollOfToString(2);
    assert d == d[..4] + Encode(Integer(1)) + d[8..];
    ReadAsIs(Integer(1));
    ParseOfEncode(d[..4], Integer(1), d[8..]);
    assert d == [] + d + [];
    ParseOfEncode([], TWO_INTEGERS, []);
    BeforeSecond(d);
    hide ParseValue, BeforeType, Padded, Encode, ReadLine, Stoll, WellFormed, ToString, AsRead;
    ParseOfPadded(d, 0, 8, z);
    StrictPrefixIsIncomplete(d, 0, 8);
  }

  lemma BeforeSecond(d: seq<byte>)
    requires |d| > 8 && d[0] == STAR && ReadLine(d, 1) == Line([50], 4) && Stoll([50]) == Some(2)
    requires ParseValue(d, 4) == Ok(Integer(1), 8)
    ensures BeforeType(d, 0, 8)
  {
    hide ParseValue, ReadLine, Stoll;
    assert BeforeType(d, 8, 8);
    assert ElementBeforeType(d, 8, 1, 8);
    assert ElementBeforeType(d, 4, 2, 8);
  }

  lemma TwoIntegersBytes()
    ensures Encode(TWO_INTEGERS) == [STAR, 50, 13, 10, COLON, 49, 13, 10, COLON, 50, 13, 10]
    ensures ToString(2) == [50] && Encode(Integer(1)) == [COLON, 49, 13, 10] && WellFormed(TWO_INTEGERS)
  {
    var es := [Integer(1), Integer(2)];
    assert es[1..] == [Integer(2)] && es[1..][1..] == [];
    assert ToString(1) == [49] && ToString(2) == [50];
    assert Encode(Integer(1)) == [COLON, 49, 13, 10];
    assert Encode(Integer(2)) == [COLON, 50, 13, 10];
    assert EncodeAll([]) == [];
    assert EncodeAll(es[1..]) == Encode(Integer(2)) + EncodeAll(es[1..][1..]);
    assert EncodeAll(es) == Encode(Integer(1)) + EncodeAll(es[1..]);
    EncodeArray(es);
    assert Header(STAR, 2) == [STAR, 50, 13, 10];
  }
}
