/** Round-robin choice of an I/O context. */
module ServicePool {

  /** The wrapped counter after `k` calls, and how often it has wrapped. */
  function Index(k: nat, n: nat): (i: nat)
    requires n > 0
    ensures i < n
  {
    if k == 0 then 0 else if Index(k - 1, n) + 1 == n then 0 else Index(k - 1, n) + 1
  }

  function Rounds(k: nat, n: nat): nat
    requires n > 0
  {
    if k == 0 then 0 else Rounds(k - 1, n) + if Index(k - 1, n) + 1 == n then 1 else 0
  }

  class ServicePool {
    const size: nat
    var nextServiceIndex: nat
    var calls: nat

    /** `calls` counts the calls so far. */
    ghost predicate Valid()
      reads this
    {
      size > 0 && nextServiceIndex == Index(calls, size)
    }

    constructor (size: nat)
      requires size > 0
      ensures Valid() && this.size == size && calls == 0
    {
      this.size, nextServiceIndex, calls := size, 0, 0;
    }

    /** Call k returns context k mod size. */
    method GetService() returns (service: nat)
      requires Valid()
      modifies this
      ensures Valid() && calls == old(calls) + 1
      ensures service == old(calls) % size
    {
      service := nextServiceIndex;
      IndexIsRemainder(calls, size);
      nextServiceIndex := nextServiceIndex + 1;
      if nextServiceIndex == size {
        nextServiceIndex := 0;
      }
      calls := calls + 1;
    }
  }

  lemma {:induction false} RoundsAndIndex(k: nat, n: nat)
    requires n > 0
    ensures k == Rounds(k, n) * n + Index(k, n)
  {
    if k > 0 {
      RoundsAndIndex(k - 1, n);
      assert (Rounds(k - 1, n) + 1) * n == Rounds(k - 1, n) * n + n;
    }
  }

  /** The wrapped counter is the remainder, the number of wraps the quotient. */
  lemma IndexIsRemainder(k: nat, n: nat)
    requires n > 0
    ensures Index(k, n) == k % n && Rounds(k, n) == k / n
  {
    RoundsAndIndex(k, n);
    QuotientUnique(k, n, Rounds(k, n), Index(k, n));
  }

  lemma QuotientUnique(x: nat, n: nat, q: nat, r: nat)
    requires n > 0 && x == q * n + r && r < n
    ensures x / n == q && x % n == r
  {
    var d := x / n - q;
    assert d * n == r - x % n;
    MultipleOutOfRange(d, n);
  }

  lemma MultipleOutOfRange(d: int, n: int)
    requires n >= 0
    ensures d > 0 ==> d * n >= n
    ensures d < 0 ==> d * n <= -n
  {
  }

  /** How often context `i` is used in the first `m` calls. */
  function Uses(m: nat, n: nat, i: nat): nat
    requires n > 0
  {
    if m == 0 then 0 else Uses(m - 1, n, i) + if Index(m - 1, n) == i then 1 else 0
  }

  lemma {:induction false} UsesByRounds(m: nat, n: nat, i: nat)
    requires n > 0 && i < n
    ensures Uses(m, n, i) == Rounds(m, n) + if i < Index(m, n) then 1 else 0
  {
    if m > 0 {
      UsesByRounds(m - 1, n, i);
    }
  }

  /** After m calls every context has been used m / size times, the first m % size of them once more. */
  lemma EvenlyUsed(m: nat, n: nat, i: nat)
    requires n > 0 && i < n
    ensures Uses(m, n, i) == m / n + if i < m % n then 1 else 0
  {
    UsesByRounds(m, n, i);
    IndexIsRemainder(m, n);
  }
}
