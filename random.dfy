/**
 * The random source. The engine draws from a process-wide generator
 * (`Math.random`); here the draws are handed in as a finite sequence of
 * values in [0, 1), consumed front to back. A member that needs more draws
 * than it was given reports `Exhausted`.
 */
module Random {

  /** One `Math.random()` result. */
  type Unit = u: real | 0.0 <= u < 1.0

  /** A value computed from the draws, with the draws left over; or the draws ran out. */
  datatype Drawn<T> = Drawn(value: T, rest: seq<Unit>) | Exhausted

  /** `Math.floor(Math.random() * n)`: an index below `n`, or 0 when `n` is 0. */
  function RandRange(u: Unit, n: nat): (k: nat)
    ensures n > 0 ==> k < n
    ensures n == 0 ==> k == 0
  {
    ScaledBelow(u, n);
    (u * n as real).Floor
  }

  lemma ScaledBelow(u: Unit, n: nat)
    ensures 0.0 <= u * n as real
    ensures n > 0 ==> u * n as real < n as real
  {
    if n > 0 {
      assert n as real - u * n as real == (1.0 - u) * n as real;
    }
  }

  /** `rest` is what is left of `draws` after some were taken from the front. */
  predicate IsSuffix(rest: seq<Unit>, draws: seq<Unit>) {
    |rest| <= |draws| && rest == draws[|draws| - |rest|..]
  }

  /** What is left after the draws of the tail is also left after all of them. */
  lemma SuffixOfTail(rest: seq<Unit>, draws: seq<Unit>)
    requires draws != [] && IsSuffix(rest, draws[1..])
    ensures IsSuffix(rest, draws)
  {
    var k := |draws| - |rest|;
    forall i | 0 <= i < |rest| ensures rest[i] == draws[k + i] {
      assert rest[i] == draws[1..][k - 1 + i];
    }
  }
}
