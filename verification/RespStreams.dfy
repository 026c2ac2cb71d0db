/**
 * The parser on data that is cut or padded: what was received so far of a longer stream,
 * and the zero bytes that follow it in the read buffer.
 */
module RespStreams {
  import opened Common
  import opened Bytes
  import opened Decimal
  import opened Resp

  function Zeros(n: nat): (z: seq<byte>)
    ensures |z| == n
  {
    seq(n, _ => 0)
  }

  /** The read buffer after `k` bytes of `data`, with `z` zero bytes behind them. */
  function Padded(data: seq<byte>, k: nat, z: nat): (p: seq<byte>)
    requires k <= |data|
    ensures |p| == k + z
  {
    data[..k] + Zeros(z)
  }

  /**
   * `k` lies where the value at `pos` is about to read a type byte: at its beginning, or
   * before an element of an array in it.
   */
  ghost predicate BeforeType(data: seq<byte>, pos: nat, k: nat)
    decreases |data| - pos, 0
  {
    || k == pos
    || (pos < |data| && data[pos] == STAR
        && match ReadLine(data, pos + 1)
           case NoLine => false
           case Line(text, p) =>
             match Stoll(text)
             case None => false
             case Some(len) => len > 0 && ElementBeforeType(data, p, len, k))
  }

  ghost predicate ElementBeforeType(data: seq<byte>, pos: nat, n: nat, k: nat)
    requires pos <= |data|
    decreases |data| - pos, 1
  {
    && n > 0
    && (BeforeType(data, pos, k)
        || match ParseValue(data, pos)
           case Fail(_) => false
           case Ok(_, q) => ElementBeforeType(data, q, n - 1, k))
  }

  /** A line that ends within the received part is read the same; one that does not is not there. */
  lemma {:induction false} LineOfPadded(data: seq<byte>, pos: nat, k: nat, z: nat)
    requires pos <= k <= |data|
    ensures var full := ReadLine(data, pos);
      ReadLine(Padded(data, k, z), pos) == if full.Line? && full.pos <= k then full else NoLine
  {
    var p := Padded(data, k, z);
    var e, f := FindCrlf(data, pos), FindCrlf(p, pos);
    assert forall i :: 0 <= i < k ==> p[i] == data[i];
    assert forall i :: k <= i < |p| ==> p[i] == 0;
    if e < |data| && e + 2 <= k {
      assert p[e] == CR && p[e + 1] == LF;
      assert p[pos..e] == data[pos..e];
    }
  }

  /** What a value that ends at `q` parses to when only `k` bytes of it are there. */
  ghost function CutOutcome(whole: Outcome, k: nat, z: nat, beforeType: bool): Outcome
    requires whole.Ok?
  {
    if whole.pos <= k then whole
    else if z > 0 && beforeType then Fail(Malformed)
    else Fail(Incomplete)
  }

  lemma {:induction false} BulkOfPadded(data: seq<byte>, pos: nat, k: nat, z: nat)
    requires pos <= k <= |data| && ParseBulkString(data, pos).Ok?
    ensures ParseBulkString(Padded(data, k, z), pos) == CutOutcome(ParseBulkString(data, pos), k, z, false)
  {
    var p := Padded(data, k, z);
    LineOfPadded(data, pos, k, z);
    var line := ReadLine(data, pos);
    hide ReadLine, Stoll;
    if line.pos <= k {
      var len := Stoll(line.text).value;
      if len >= 0 {
        var h := line.pos;
        if h + len + 2 <= k {
          assert p[h..h + len] == data[h..h + len];
        } else if h + len + 2 <= |p| {
          assert p[h + len + 1] == 0;
        }
      }
    }
  }

  lemma {:induction false} LineValueOfPadded(data: seq<byte>, pos: nat, k: nat, z: nat)
    requires pos < k <= |data| && ParseLine(data, pos).Ok?
    ensures ParseLine(Padded(data, k, z), pos) == CutOutcome(ParseLine(data, pos), k, z, false)
  {
    LineOfPadded(data, pos + 1, k, z);
    hide ReadLine, Stoll;
    assert Padded(data, k, z)[pos] == data[pos];
  }

  /**
   * The parser on a received prefix, exactly: a value that is all there parses as it does
   * in the whole stream, whatever follows; a cut before a type byte that the padding
   * then supplies is taken for an unknown type; every other cut asks for more bytes.
   */
  lemma {:induction false} ParseOfPadded(data: seq<byte>, pos: nat, k: nat, z: nat)
    requires pos <= k <= |data| && ParseValue(data, pos).Ok?
    ensures ParseValue(Padded(data, k, z), pos) == CutOutcome(ParseValue(data, pos), k, z, BeforeType(data, pos, k))
    decreases |data| - pos, 0
  {
    var p := Padded(data, k, z);
    if pos == k {
      if z > 0 {
        assert p[pos] == 0;
      }
      return;
    }
    assert p[pos] == data[pos];
    if data[pos] == DOLLAR {
      BulkOfPadded(data, pos + 1, k, z);
    } else if data[pos] == STAR {
      LineOfPadded(data, pos + 1, k, z);
      var line := ReadLine(data, pos + 1);
      hide ReadLine, Stoll, ParseElements;
      var len := Stoll(line.text).value;
      if len >= 0 {
        if line.pos <= k {
          ElementsOfPadded(data, line.pos, len, k, z);
        } else {
          NotBefore(data, line.pos, len, k);
        }
      }
    } else {
      LineValueOfPadded(data, pos, k, z);
    }
  }

  lemma {:induction false} NotBefore(data: seq<byte>, pos: nat, n: nat, k: nat)
    requires k < pos <= |data|
    ensures !ElementBeforeType(data, pos, n, k)
    decreases |data| - pos, 1
  {
    hide ParseValue, Stoll, ReadLine;
    if n > 0 {
      ValueNotBefore(data, pos, k);
      if ParseValue(data, pos).Ok? {
        NotBefore(data, ParseValue(data, pos).pos, n - 1, k);
      }
    }
  }

  lemma {:induction false} ValueNotBefore(data: seq<byte>, pos: nat, k: nat)
    requires k < pos <= |data|
    ensures !BeforeType(data, pos, k)
    decreases |data| - pos, 0
  {
    hide Stoll, ReadLine, ElementBeforeType;
    if pos < |data| && data[pos] == STAR {
      var line := ReadLine(data, pos + 1);
      if line.Line? && Stoll(line.text).Some? && Stoll(line.text).value > 0 {
        NotBefore(data, line.pos, Stoll(line.text).value, k);
      }
    }
  }

  lemma {:induction false} ValueInside(data: seq<byte>, pos: nat, k: nat)
    requires ParseValue(data, pos).Ok? && ParseValue(data, pos).pos <= k
    ensures !BeforeType(data, pos, k)
    decreases |data| - pos, 0
  {
    hide Stoll, ReadLine, ElementBeforeType, ParseElements;
    if data[pos] == STAR {
      var line := ReadLine(data, pos + 1);
      var len := Stoll(line.text).value;
      if len > 0 {
        ElementsInside(data, line.pos, len, k);
      }
    }
  }

  lemma {:induction false} ElementsInside(data: seq<byte>, pos: nat, n: nat, k: nat)
    requires pos <= |data| && ParseElements(data, pos, n).Ok? && ParseElements(data, pos, n).pos <= k
    ensures !ElementBeforeType(data, pos, n, k)
    decreases |data| - pos, 1
  {
    if n > 0 {
      var first := ParseValue(data, pos);
      assert first.Ok?;
      hide ParseValue, BeforeType;
      ElementsInside(data, first.pos, n - 1, k);
      ValueInside(data, pos, k);
    }
  }

  lemma {:induction false} ElementsOfPadded(data: seq<byte>, pos: nat, n: nat, k: nat, z: nat)
    requires pos <= k <= |data| && ParseElements(data, pos, n).Ok?
    ensures ParseElements(Padded(data, k, z), pos, n)
         == CutOutcome(ParseElements(data, pos, n), k, z, ElementBeforeType(data, pos, n, k))
    decreases |data| - pos, 1
  {
    if n > 0 {
      var first := ParseValue(data, pos);
      assert first.Ok?;
      ParseOfPadded(data, pos, k, z);
      hide ParseValue, BeforeType;
      if first.pos <= k {
        ElementsOfPadded(data, first.pos, n - 1, k, z);
        ValueInside(data, pos, k);
      } else {
        NotBefore(data, first.pos, n - 1, k);
      }
    }
  }

  /** Appending bytes changes no result but a request for more. */
  lemma {:induction false} LineOfMore(data: seq<byte>, more: seq<byte>, pos: nat)
    requires pos <= |data| && ReadLine(data, pos).Line?
    ensures ReadLine(data + more, pos) == ReadLine(data, pos)
  {
    var e := FindCrlf(data, pos);
    var d := data + more;
    assert d[e] == CR && d[e + 1] == LF;
    assert forall i :: 0 <= i < |data| ==> d[i] == data[i];
    assert FindCrlf(d, pos) == e;
    assert d[pos..e] == data[pos..e];
  }

  lemma {:induction false} BulkOfMore(data: seq<byte>, more: seq<byte>, pos: nat)
    requires pos <= |data| && ParseBulkString(data, pos) != Fail(Incomplete)
    ensures ParseBulkString(data + more, pos) == ParseBulkString(data, pos)
  {
    LineOfMore(data, more, pos);
    var line := ReadLine(data, pos);
    hide ReadLine, Stoll;
    if Stoll(line.text).Some? && Stoll(line.text).value >= 0 {
      var h, len := line.pos, Stoll(line.text).value;
      assert (data + more)[h..h + len] == data[h..h + len];
    }
  }

  /** A parse that does not ask for more bytes is unchanged by more bytes. */
  lemma {:induction false} ParseOfMore(data: seq<byte>, more: seq<byte>, pos: nat)
    requires ParseValue(data, pos) != Fail(Incomplete)
    ensures ParseValue(data + more, pos) == ParseValue(data, pos)
    decreases |data| - pos, 0
  {
    assert (data + more)[pos] == data[pos];
    if data[pos] == DOLLAR {
      BulkOfMore(data, more, pos + 1);
    } else if data[pos] == STAR {
      LineOfMore(data, more, pos + 1);
      var line := ReadLine(data, pos + 1);
      hide ReadLine, Stoll, ParseElements;
      if Stoll(line.text).Some? && Stoll(line.text).value >= 0 {
        ElementsOfMore(data, more, line.pos, Stoll(line.text).value);
      }
    } else if data[pos] in {PLUS_SIGN, MINUS_SIGN, COLON} {
      LineOfMore(data, more, pos + 1);
      hide ReadLine, Stoll;
    }
  }

  lemma {:induction false} ElementsOfMore(data: seq<byte>, more: seq<byte>, pos: nat, n: nat)
    requires pos <= |data| && ParseElements(data, pos, n) != Fail(Incomplete)
    ensures ParseElements(data + more, pos, n) == ParseElements(data, pos, n)
    decreases |data| - pos, 1
  {
    if n > 0 {
      var first := ParseValue(data, pos);
      assert first != Fail(Incomplete);
      ParseOfMore(data, more, pos);
      hide ParseValue;
      if first.Ok? {
        ElementsOfMore(data, more, first.pos, n - 1);
      }
    }
  }

  /** Every strict prefix of a value, nested arrays included, asks for more bytes. */
  lemma StrictPrefixIsIncomplete(data: seq<byte>, pos: nat, k: nat)
    requires ParseValue(data, pos).Ok? && pos <= k < ParseValue(data, pos).pos
    ensures ParseValue(data[..k], pos) == Fail(Incomplete)
  {
    hide ParseValue, BeforeType;
    assert Padded(data, k, 0) == data[..k];
    ParseOfPadded(data, pos, k, 0);
  }

  lemma {:induction false} ElementsCount(data: seq<byte>, pos: nat, n: nat)
    requires pos <= |data| && ParseElements(data, pos, n).Ok?
    ensures |ParseElements(data, pos, n).v.elements| == n
    decreases n
  {
    if n > 0 {
      var first := ParseValue(data, pos);
      assert first.Ok?;
      hide ParseValue;
      ElementsCount(data, first.pos, n - 1);
    }
  }

  /** Only an array that has elements can be cut before a type byte once its own type byte is there. */
  lemma {:induction false} OnlyArraysAreCut(data: seq<byte>, pos: nat, k: nat)
    requires ParseValue(data, pos).Ok? && pos < k
    requires var v := ParseValue(data, pos).v; v.Array? ==> v.elements == []
    ensures !BeforeType(data, pos, k)
  {
    hide ReadLine, Stoll, ElementBeforeType, ParseElements;
    if data[pos] == STAR {
      var line := ReadLine(data, pos + 1);
      if Stoll(line.text).value > 0 {
        ElementsCount(data, line.pos, Stoll(line.text).value);
      }
    }
  }
}
