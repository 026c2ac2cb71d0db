/** Decimal numbers as `std::to_string` writes them and `std::stoll` reads them. */
module Decimal {
  import opened Common
  import opened Bytes

  const MINUS: byte := 45
  const PLUS: byte := 43

  const LLONG_MIN: int := -0x8000_0000_0000_0000
  const LLONG_MAX: int := 0x7fff_ffff_ffff_ffff

  predicate IsDigit(b: byte) {
    48 <= b <= 57
  }

  predicate IsSpace(b: byte) {
    b == 32 || 9 <= b <= 13
  }

  function SkipSpace(s: seq<byte>): seq<byte> {
    if s != [] && IsSpace(s[0]) then SkipSpace(s[1..]) else s
  }

  /** The digits that `s` begins with. */
  function Digits(s: seq<byte>): (d: seq<byte>)
    ensures forall b :: b in d ==> IsDigit(b)
  {
    if s != [] && IsDigit(s[0]) then [s[0]] + Digits(s[1..]) else []
  }

  function Number(d: seq<byte>): nat
    requires forall b :: b in d ==> IsDigit(b)
  {
    if d == [] then 0
    else
      var last := d[|d| - 1];
      assert IsDigit(last) by { assert last in d; }
      10 * Number(d[..|d| - 1]) + (last as int - 48)
  }

  predicate InRange(n: int) {
    LLONG_MIN <= n <= LLONG_MAX
  }

  /**
   * `std::stoll`: white space, a sign, digits, and anything after them; `None` where it
   * throws because there is no digit or the number does not fit.
   */
  function Stoll(s: seq<byte>): (r: Option<int>)
    ensures r.Some? ==> InRange(r.value)
  {
    var t := SkipSpace(s);
    var negative := t != [] && t[0] == MINUS;
    var d := Digits(if t != [] && (t[0] == MINUS || t[0] == PLUS) then t[1..] else t);
    var n: int := if negative then -(Number(d) as int) else Number(d) as int;
    if d == [] || !InRange(n) then None else Some(n)
  }

  function Text(n: nat): (s: seq<byte>)
    ensures s != [] && forall b :: b in s ==> IsDigit(b)
  {
    if n < 10 then [48 + n] else Text(n / 10) + [48 + n % 10]
  }

  /** `std::to_string`. */
  function ToString(n: int): seq<byte> {
    if n < 0 then [MINUS] + Text(-n) else Text(n)
  }

  lemma {:induction false} DigitsOfDigits(s: seq<byte>)
    requires forall b :: b in s ==> IsDigit(b)
    ensures Digits(s) == s
  {
    if s != [] {
      assert forall b :: b in s[1..] ==> b in s;
      DigitsOfDigits(s[1..]);
    }
  }

  lemma {:induction false} NumberOfText(n: nat)
    ensures Number(Text(n)) == n
  {
    if n < 10 {
      assert Text(n)[..0] == [];
    } else {
      NumberOfText(n / 10);
      assert Text(n)[..|Text(n)| - 1] == Text(n / 10);
    }
  }

  /** What `to_string` writes, `stoll` reads. */
  lemma {:induction false} StollOfToString(n: int)
    requires InRange(n)
    ensures Stoll(ToString(n)) == Some(n)
  {
    var m: nat := if n < 0 then -n else n;
    var s := ToString(n);
    DigitsOfDigits(Text(m));
    NumberOfText(m);
    if n < 0 {
      assert s[1..] == Text(m);
    } else {
      assert s[0] in s && IsDigit(s[0]);
    }
    assert SkipSpace(s) == s;
  }

  lemma {:induction false} ToStringIsPlain(n: int)
    ensures forall b :: b in ToString(n) ==> b == MINUS || IsDigit(b)
  {
  }

  // ----- what `stoll` reads, on any text -----

  lemma {:induction false} SkipsSpace(ws: seq<byte>, t: seq<byte>)
    requires (forall b :: b in ws ==> IsSpace(b)) && (t != [] ==> !IsSpace(t[0]))
    ensures SkipSpace(ws + t) == t
  {
    if ws == [] {
      assert ws + t == t;
    } else {
      assert ws[0] in ws && forall b :: b in ws[1..] ==> b in ws;
      assert (ws + t)[1..] == ws[1..] + t;
      SkipsSpace(ws[1..], t);
    }
  }

  lemma {:induction false} TakesDigits(ds: seq<byte>, junk: seq<byte>)
    requires (forall b :: b in ds ==> IsDigit(b)) && (junk != [] ==> !IsDigit(junk[0]))
    ensures Digits(ds + junk) == ds
  {
    if ds == [] {
      assert ds + junk == junk;
    } else {
      assert ds[0] in ds && forall b :: b in ds[1..] ==> b in ds;
      assert (ds + junk)[1..] == ds[1..] + junk;
      TakesDigits(ds[1..], junk);
    }
  }

  function Signed(negative: bool, n: nat): int {
    if negative then -(n as int) else n
  }

  /**
   * White space, a sign or none, digits and anything that is no digit behind them: the
   * number is read if it fits in 64 bits, and there is none without digits.
   */
  lemma {:induction false} StollReads(ws: seq<byte>, sign: seq<byte>, ds: seq<byte>, junk: seq<byte>)
    requires (forall b :: b in ws ==> IsSpace(b)) && sign in {[], [43], [45]}
    requires (forall b :: b in ds ==> IsDigit(b)) && (junk != [] ==> !IsDigit(junk[0]))
    requires ds == [] && sign == [] && junk != [] ==> !IsSpace(junk[0]) && junk[0] != 43 && junk[0] != 45
    ensures var n := Signed(sign == [45], Number(ds));
      Stoll(ws + (sign + (ds + junk))) ==
        if ds != [] && -0x8000_0000_0000_0000 <= n <= 0x7fff_ffff_ffff_ffff then Some(n) else None
  {
    var body := ds + junk;
    var t := sign + body;
    TakesDigits(ds, junk);
    assert ds != [] ==> ds[0] in ds && body[0] == ds[0];
    assert ds == [] ==> body == junk;
    if sign == [] {
      assert t == body;
    } else {
      assert t[0] == sign[0] && t[1..] == body;
    }
    hide Digits, Number, SkipSpace;
    SkipsSpace(ws, t);
  }

  /** Nothing else is read as a number. */
  lemma {:induction false} StollOnlyNumbers(s: seq<byte>) returns (ws: seq<byte>, sign: seq<byte>, ds: seq<byte>, junk: seq<byte>)
    requires Stoll(s).Some?
    ensures s == ws + (sign + (ds + junk)) && (forall b :: b in ws ==> IsSpace(b)) && sign in {[], [43], [45]}
    ensures ds != [] && (forall b :: b in ds ==> IsDigit(b)) && (junk != [] ==> !IsDigit(junk[0]))
    ensures Stoll(s) == Some(Signed(sign == [45], Number(ds)))
  {
    var t := SkipSpace(s);
    ws := SpaceBefore(s);
    sign := if t != [] && (t[0] == MINUS || t[0] == PLUS) then [t[0]] else [];
    var body := t[|sign|..];
    assert sign != [] ==> t[1..] == body;
    assert sign == [] ==> t == body;
    ds := Digits(body);
    junk := AfterDigits(body);
    assert t == sign + body;
  }

  lemma {:induction false} SpaceBefore(s: seq<byte>) returns (ws: seq<byte>)
    ensures s == ws + SkipSpace(s) && forall b :: b in ws ==> IsSpace(b)
  {
    if s != [] && IsSpace(s[0]) {
      var rest := SpaceBefore(s[1..]);
      ws := [s[0]] + rest;
      assert s == [s[0]] + s[1..];
      Assoc([s[0]], rest, SkipSpace(s[1..]));
    } else {
      ws := [];
    }
  }

  lemma {:induction false} AfterDigits(s: seq<byte>) returns (junk: seq<byte>)
    ensures s == Digits(s) + junk && (junk != [] ==> !IsDigit(junk[0]))
  {
    if s != [] && IsDigit(s[0]) {
      junk := AfterDigits(s[1..]);
      assert s == [s[0]] + s[1..];
      Assoc([s[0]], Digits(s[1..]), junk);
    } else {
      junk := s;
    }
  }
}
