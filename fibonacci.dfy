/** utils/fibonacci.go: the naive recursive Fibonacci used for retry delays. */
module Fibonacci {

  /** FibonacciRecursion: n itself for every n <= 1 (negative n included), else the sum of the two predecessors. */
  function FibonacciRecursion(n: int): int
    decreases if n < 0 then 0 else n
  {
    if n <= 1 then n
    else FibonacciRecursion(n - 1) + FibonacciRecursion(n - 2)
  }

  /** The base case covers every n <= 1, so negative arguments come back unchanged. */
  lemma BaseCase(n: int)
    requires n <= 1
    ensures FibonacciRecursion(n) == n
  {
  }

  lemma Recurrence(n: int)
    requires n >= 2
    ensures FibonacciRecursion(n) == FibonacciRecursion(n - 1) + FibonacciRecursion(n - 2)
  {
  }

  /** Non-negative on non-negative arguments, and at least 1 from 1 on. */
  lemma {:induction false} Bounds(n: int)
    requires n >= 0
    ensures FibonacciRecursion(n) >= 0
    ensures n >= 1 ==> FibonacciRecursion(n) >= 1
  {
    if n >= 2 {
      Bounds(n - 1);
      Bounds(n - 2);
    }
  }

  /** Non-decreasing on the non-negative integers. */
  lemma {:induction false} Monotone(m: int, n: int)
    requires 0 <= m <= n
    ensures FibonacciRecursion(m) <= FibonacciRecursion(n)
    decreases n - m
  {
    if m < n {
      Monotone(m, n - 1);
      if n >= 2 {
        Bounds(n - 2);
      }
    }
  }

  /** The first values used as delays. */
  lemma FirstValues()
    ensures FibonacciRecursion(1) == 1 && FibonacciRecursion(2) == 1 && FibonacciRecursion(3) == 2
    ensures FibonacciRecursion(4) == 3 && FibonacciRecursion(5) == 5
  {
  }

  /** The same value computed with two accumulators instead of recursion. */
  method FibonacciIterative(n: int) returns (r: int)
    ensures r == FibonacciRecursion(n)
  {
    if n <= 1 {
      return n;
    }
    var prev, cur := 0, 1;
    var k := 1;
    while k < n
      invariant 1 <= k <= n
      invariant prev == FibonacciRecursion(k - 1) && cur == FibonacciRecursion(k)
    {
      prev, cur := cur, prev + cur;
      k := k + 1;
    }
    r := cur;
  }
}
