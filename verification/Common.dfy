/** What several parts share. */
module Common {
  datatype Option<+T> = None | Some(value: T)

  /** The numbers from `a` up to `b`. */
  function Numbers(a: nat, b: nat): (n: seq<nat>)
    requires a <= b
    ensures |n| == b - a
  {
    seq(b - a, i requires 0 <= i < b - a => a + i)
  }

  lemma NumbersJoin(a: nat, b: nat, c: nat)
    requires a <= b <= c
    ensures Numbers(a, b) + Numbers(b, c) == Numbers(a, c)
  {
  }

  function ButLast<T>(q: seq<T>): seq<T> {
    if q == [] then [] else q[..|q| - 1]
  }

  lemma Assoc<T>(a: seq<T>, b: seq<T>, c: seq<T>)
    ensures a + (b + c) == (a + b) + c
  {
  }

  lemma NothingAdded<T>(q: seq<T>)
    ensures q + [] == q && [] + q == q
  {
  }
}
