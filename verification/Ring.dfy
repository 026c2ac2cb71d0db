/** Positions of an unbounded sequence and the ring indices they share. */
module Ring {
  /** The ring index of a position: `k % cap`, as `IxIsRemainder` shows. */
  function Ix(k: nat, cap: nat): (i: nat)
    requires cap > 0
    ensures i < cap
  {
    if k < cap then k else Ix(k - cap, cap)
  }

  lemma Distributes(a: int, b: int, c: int)
    ensures (a - b) * c == a * c - b * c
  {
  }

  lemma AtLeastOnce(d: int, c: nat)
    requires d >= 1
    ensures d * c >= c
  {
  }

  lemma Euclid(k: int, cap: nat)
    requires cap > 0
    ensures k == (k / cap) * cap + k % cap && 0 <= k % cap < cap
  {
  }

  lemma RemainderUnique(q: int, r: nat, k: nat, cap: nat)
    requires cap > 0 && r < cap && k == q * cap + r
    ensures k % cap == r
  {
    var q2 := k / cap;
    Euclid(k, cap);
    Distributes(q, q2, cap);
    if q2 < q {
      AtLeastOnce(q - q2, cap);
    } else if q2 > q {
      Distributes(q2, q, cap);
      AtLeastOnce(q2 - q, cap);
    }
  }

  lemma {:induction false} IxIsRemainder(k: nat, cap: nat)
    requires cap > 0
    ensures Ix(k, cap) == k % cap
  {
    if k < cap {
      RemainderUnique(0, k, k, cap);
    } else {
      IxIsRemainder(k - cap, cap);
      var q, r := (k - cap) / cap, (k - cap) % cap;
      Euclid(k - cap, cap);
      Distributes(q, -1, cap);
      RemainderUnique(q + 1, r, k, cap);
    }
  }

  lemma {:induction false} IxNext(k: nat, cap: nat)
    requires cap > 0
    ensures Ix(Ix(k, cap) + 1, cap) == Ix(k + 1, cap)
  {
    if k >= cap {
      IxNext(k - cap, cap);
    }
  }

  /** Positions less than a lap apart have different indices. */
  lemma {:induction false} IxInjective(j: nat, k: nat, cap: nat)
    requires cap > 0 && j < k < j + cap
    ensures Ix(j, cap) != Ix(k, cap)
  {
    if j >= cap {
      IxInjective(j - cap, k - cap, cap);
    }
  }

  lemma WindowInjective(lo: nat, cap: nat)
    requires cap > 0
    ensures forall j, k {:trigger Ix(j, cap), Ix(k, cap)} ::
      lo <= j < lo + cap && lo <= k < lo + cap && Ix(j, cap) == Ix(k, cap) ==> j == k
  {
    forall j, k | lo <= j < lo + cap && lo <= k < lo + cap && Ix(j, cap) == Ix(k, cap)
      ensures j == k
    {
      hide Ix;
      if j < k {
        IxInjective(j, k, cap);
      } else if k < j {
        IxInjective(k, j, cap);
      }
    }
  }

  lemma IxLap(k: nat, cap: nat)
    requires cap > 0
    ensures Ix(k + cap, cap) == Ix(k, cap)
  {
  }
}
