/** Unsigned 32-bit counters, which wrap around. */
module Unsigned {
  const COUNT_LIMIT: nat := 0x1_0000_0000

  type Count = n: nat | n < COUNT_LIMIT witness 0

  function Add(a: Count, n: nat): Count { (a + n) % COUNT_LIMIT }

  function Minus(a: Count, b: Count): Count { if a >= b then a - b else a - b + COUNT_LIMIT }

  /** Counters that count up to m and n tell the difference, as long as that is below the limit. */
  lemma CountsDiffer(m: nat, n: nat)
    requires n <= m < n + COUNT_LIMIT
    ensures Minus(m % COUNT_LIMIT, n % COUNT_LIMIT) == m - n
  {
  }

  /** More pushes raise the difference of two counters, more pulls lower it, also when a counter wraps around. */
  lemma CountsMove(pushed: Count, pulled: Count, n: nat)
    ensures Minus(pushed, pulled) + n < COUNT_LIMIT ==> Minus(Add(pushed, n), pulled) == Minus(pushed, pulled) + n
    ensures n <= Minus(pushed, pulled) ==> Minus(pushed, Add(pulled, n)) == Minus(pushed, pulled) - n
  {
  }

  lemma CountOn(m: nat, n: nat)
    ensures Add(m % COUNT_LIMIT, n) == (m + n) % COUNT_LIMIT
  {
  }
}
