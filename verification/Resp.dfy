/** The RESP parser, with its cursor, and the command builder. */
module Resp {
  import opened Common
  import opened Bytes
  import opened Decimal

  const CR: byte := 13
  const LF: byte := 10
  const PLUS_SIGN: byte := 43
  const MINUS_SIGN: byte := 45
  const COLON: byte := 58
  const DOLLAR: byte := 36
  const STAR: byte := 42

  const CRLF: seq<byte> := [CR, LF]

  /** `NullArray` is only sent; the parser reads it as an empty array. */
  datatype Value =
    | SimpleString(s: seq<byte>)
    | Error(s: seq<byte>)
    | Integer(n: int)
    | BulkString(s: seq<byte>)
    | Null
    | Array(elements: seq<Value>)
    | NullArray

  /**
   * Why a parse throws: more bytes are needed, or any other exception.  A bulk length
   * below -1 moves the cursor backwards in the source and is not modelled further.
   */
  datatype Failure = Incomplete | Malformed | NegativeLength

  datatype Outcome = Ok(v: Value, pos: nat) | Fail(why: Failure)

  datatype Line = Line(text: seq<byte>, pos: nat) | NoLine

  /** `data.find("\r\n", i)`; the length of `data` when there is none. */
  function FindCrlf(data: seq<byte>, i: nat): (e: nat)
    requires i <= |data|
    ensures i <= e <= |data|
    ensures e < |data| ==> e + 2 <= |data| && data[e] == CR && data[e + 1] == LF
    ensures forall k :: i <= k < e && k + 1 < |data| ==> !(data[k] == CR && data[k + 1] == LF)
    decreases |data| - i
  {
    if i + 1 >= |data| then |data|
    else if data[i] == CR && data[i + 1] == LF then i
    else FindCrlf(data, i + 1)
  }

  function ReadLine(data: seq<byte>, pos: nat): (r: Line)
    requires pos <= |data|
    ensures r.Line? ==> pos + 2 <= r.pos <= |data|
  {
    var e := FindCrlf(data, pos);
    if e == |data| then NoLine else Line(data[pos..e], e + 2)
  }

  function ParseValue(data: seq<byte>, pos: nat): (r: Outcome)
    ensures r.Ok? ==> pos < r.pos <= |data|
    decreases |data| - pos, 0
  {
    if pos >= |data| then Fail(Incomplete)
    else if data[pos] == DOLLAR then ParseBulkString(data, pos + 1)
    else if data[pos] == STAR then
      match ReadLine(data, pos + 1)
      case NoLine => Fail(Incomplete)
      case Line(text, p) =>
        match Stoll(text)
        case None => Fail(Malformed)
        case Some(len) =>
          if len == -1 then Ok(Array([]), p)
          else if len < -1 then Fail(Malformed)
          else ParseElements(data, p, len)
    else ParseLine(data, pos)
  }

  /** Simple strings, errors, integers, and types that do not exist. */
  function ParseLine(data: seq<byte>, pos: nat): (r: Outcome)
    requires pos < |data|
    ensures r.Ok? ==> pos < r.pos <= |data|
  {
    if data[pos] !in {PLUS_SIGN, MINUS_SIGN, COLON} then Fail(Malformed)
    else
      match ReadLine(data, pos + 1)
      case NoLine => Fail(Incomplete)
      case Line(text, p) =>
        if data[pos] == PLUS_SIGN then Ok(SimpleString(text), p)
        else if data[pos] == MINUS_SIGN then Ok(Error(text), p)
        else match Stoll(text)
             case None => Fail(Malformed)
             case Some(n) => Ok(Integer(n), p)
  }

  function ParseBulkString(data: seq<byte>, pos: nat): (r: Outcome)
    requires pos <= |data|
    ensures r.Ok? ==> pos < r.pos <= |data|
  {
    match ReadLine(data, pos)
    case NoLine => Fail(Incomplete)
    case Line(text, p) =>
      match Stoll(text)
      case None => Fail(Malformed)
      case Some(len) =>
        if len == -1 then Ok(Null, p)
        else if len < -1 then Fail(NegativeLength)
        else if p + len > |data| then Fail(Incomplete)
        else if p + len + 2 > |data| || data[p + len] != CR || data[p + len + 1] != LF then Fail(Incomplete)
        else Ok(BulkString(data[p..p + len]), p + len + 2)
  }

  /** The next `n` values, as an array. */
  function ParseElements(data: seq<byte>, pos: nat, n: nat): (r: Outcome)
    requires pos <= |data|
    ensures r.Ok? ==> r.v.Array? && pos <= r.pos <= |data|
    decreases |data| - pos, 1
  {
    if n == 0 then Ok(Array([]), pos)
    else
      match ParseValue(data, pos)
      case Fail(why) => Fail(why)
      case Ok(v, q) => Prepend([v], ParseElements(data, q, n - 1))
  }

  function Prepend(vs: seq<Value>, r: Outcome): (o: Outcome)
    requires r.Ok? ==> r.v.Array?
    ensures o.Ok? <==> r.Ok?
    ensures r.Ok? ==> o.v.Array? && o.pos == r.pos
  {
    match r
    case Fail(why) => Fail(why)
    case Ok(v, q) => Ok(Array(vs + v.elements), q)
  }

  // ----- the parser as the source runs it: `pos` goes in and comes out -----

  method ReadLineAt(data: seq<byte>, pos: nat) returns (r: Line)
    requires pos <= |data|
    ensures r == ReadLine(data, pos)
  {
    var start := pos;
    var end := FindCrlf(data, pos);
    if end == |data| {
      return NoLine;
    }
    r := Line(data[start..end], end + 2);
  }

  method ParseValueAt(data: seq<byte>, pos: nat) returns (r: Outcome)
    ensures r == ParseValue(data, pos)
    decreases |data| - pos, 1
  {
    if pos >= |data| {
      return Fail(Incomplete);
    }
    var kind := data[pos];
    if kind == PLUS_SIGN || kind == MINUS_SIGN || kind == COLON {
      var line := ReadLineAt(data, pos + 1);
      if line == NoLine {
        return Fail(Incomplete);
      }
      if kind == PLUS_SIGN {
        return Ok(SimpleString(line.text), line.pos);
      }
      if kind == MINUS_SIGN {
        return Ok(Error(line.text), line.pos);
      }
      var n := Stoll(line.text);
      return if n == None then Fail(Malformed) else Ok(Integer(n.value), line.pos);
    } else if kind == DOLLAR {
      r := ParseBulkStringAt(data, pos + 1);
    } else if kind == STAR {
      r := ParseArrayAt(data, pos + 1);
    } else {
      r := Fail(Malformed);
    }
  }

  method ParseBulkStringAt(data: seq<byte>, pos: nat) returns (r: Outcome)
    requires pos <= |data|
    ensures r == ParseBulkString(data, pos)
  {
    var line := ReadLineAt(data, pos);
    if line == NoLine {
      return Fail(Incomplete);
    }
    var len := Stoll(line.text);
    if len == None {
      return Fail(Malformed);
    }
    if len.value == -1 {
      return Ok(Null, line.pos);
    }
    if len.value < -1 {
      return Fail(NegativeLength);
    }
    var p := line.pos;
    if p + len.value > |data| {
      return Fail(Incomplete);
    }
    var content := data[p..p + len.value];
    p := p + len.value;
    if p + 2 > |data| || data[p] != CR || data[p + 1] != LF {
      return Fail(Incomplete);
    }
    p := p + 2;
    r := Ok(BulkString(content), p);
  }

  method ParseArrayAt(data: seq<byte>, pos: nat) returns (r: Outcome)
    requires 0 < pos <= |data| && data[pos - 1] == STAR
    ensures r == ParseValue(data, pos - 1)
    decreases |data| - pos, 3
  {
    var line := ReadLineAt(data, pos);
    if line == NoLine {
      return Fail(Incomplete);
    }
    var len := Stoll(line.text);
    if len == None {
      return Fail(Malformed);
    }
    if len.value == -1 {
      return Ok(Array([]), line.pos);
    }
    if len.value < -1 {
      return Fail(Malformed);
    }
    r := ParseElementsAt(data, line.pos, len.value);
  }

  /** The loop of `parse_array`. */
  method ParseElementsAt(data: seq<byte>, pos: nat, len: nat) returns (r: Outcome)
    requires pos <= |data|
    ensures r == ParseElements(data, pos, len)
    decreases |data| - pos, 2
  {
    var elements: seq<Value> := [];
    var p := pos;
    ghost var all := ParseElements(data, pos, len);
    hide ParseValue;
    for i := 0 to len
      invariant pos <= p <= |data|
      invariant all == Prepend(elements, ParseElements(data, p, len - i))
    {
      var element := ParseValueAt(data, p);
      if element.Fail? {
        return element;
      }
      PrependTwice(elements, element.v, ParseElements(data, element.pos, len - i - 1));
      elements := elements + [element.v];
      p := element.pos;
    }
    assert elements + [] == elements;
    r := Ok(Array(elements), p);
  }

  lemma PrependTwice(vs: seq<Value>, v: Value, r: Outcome)
    requires r.Ok? ==> r.v.Array?
    ensures Prepend(vs, Prepend([v], r)) == Prepend(vs + [v], r)
  {
    if r.Ok? {
      assert vs + ([v] + r.v.elements) == (vs + [v]) + r.v.elements;
    }
  }
}
