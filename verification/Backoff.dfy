/**
 The exponential backoff of the retry loop, in int64 nanoseconds.
 */
module Backoff {

  const SECOND: int := 1_000_000_000
  const TWO63: int := 0x8000_0000_0000_0000
  const TWO64: int := 0x1_0000_0000_0000_0000

  /** The value an int64 register holds after a computation whose exact result is x. */
  function Int64(x: int): int {
    (x + TWO63) % TWO64 - TWO63
  }

  predicate FitsInt64(x: int) {
    -TWO63 <= x < TWO63
  }

  function Pow2(n: nat): nat {
    if n == 0 then 1 else 2 * Pow2(n - 1)
  }

  /** The backoff before jitter, exactly. */
  function Base(attempt: nat): int {
    Pow2(attempt) * SECOND
  }

  /** j may be the jitter of a duration when the clock reads k: 0.2 * (k / 100) of it, up to a
      five-hundredth of the duration either way and truncation. The rounding of the three
      float64 operations is far inside that. */
  predicate JitterAt(duration: int, k: nat, j: int) {
    j >= 0 && duration * k - duration - 500 <= 500 * j <= duration * k + duration
  }

  /** j may be the jitter of a duration at some reading of the clock. */
  ghost predicate IsJitter(duration: int, j: int) {
    exists k: nat :: k < 100 && JitterAt(duration, k, j)
  }

  /** The pause the code computes, one int64 operation at a time. */
  function Pause(attempt: nat, j: int): int {
    Int64(Int64(Base(attempt)) + j)
  }

  function Sum(xs: seq<int>): int {
    if xs == [] then 0 else Sum(xs[..|xs| - 1]) + xs[|xs| - 1]
  }

  lemma FitsIsExact(x: int)
    requires FitsInt64(x)
    ensures Int64(x) == x
  {
  }

  lemma {:induction false} Pow2Mono(a: nat, b: nat)
    requires a <= b
    ensures Pow2(a) <= Pow2(b)
    decreases b - a
  {
    if a < b {
      Pow2Mono(a + 1, b);
    }
  }

  lemma BaseBounds(attempt: nat)
    requires attempt <= 32
    ensures SECOND <= Base(attempt) <= 0x1_0000_0000 * SECOND
  {
    Pow2Mono(0, attempt);
    Pow2Mono(attempt, 32);
    Pow2At32();
  }

  lemma Pow2Double(n: nat)
    ensures Pow2(n + 8) == 256 * Pow2(n)
  {
    assert Pow2(n + 4) == 16 * Pow2(n) by {
      assert Pow2(n + 2) == 4 * Pow2(n);
    }
    assert Pow2(n + 6) == 4 * Pow2(n + 4);
  }

  lemma Pow2At32()
    ensures Pow2(32) == 0x1_0000_0000 && Pow2(33) == 0x2_0000_0000
  {
    Pow2Double(0);
    Pow2Double(8);
    Pow2Double(16);
    Pow2Double(24);
  }

  /** The jitter adds at most a fifth. */
  lemma JitterBounds(duration: int, j: int)
    requires duration >= 0 && IsJitter(duration, j)
    ensures 0 <= 5 * j <= duration
  {
    var k: nat :| k < 100 && JitterAt(duration, k, j);
    MulBound(duration, k);
  }

  lemma MulBound(d: int, k: nat)
    requires d >= 0 && k < 100
    ensures 0 <= d * k <= 99 * d
  {
  }

  lemma PauseIs(attempt: nat, j: int)
    requires attempt <= 32 && 0 <= 5 * j <= Pow2(attempt) * 1_000_000_000
    ensures FitsInt64(Base(attempt) + j)
    ensures Pause(attempt, j) == Base(attempt) + j == Pow2(attempt) * 1_000_000_000 + j
  {
    BaseBounds(attempt);
    FitsIsExact(Base(attempt));
    FitsIsExact(Base(attempt) + j);
  }

  lemma PauseFits(attempt: nat, j: int)
    requires attempt <= 32 && IsJitter(Base(attempt), j)
    ensures FitsInt64(Base(attempt) + j)
    ensures Pause(attempt, j) == Base(attempt) + j
  {
    BaseBounds(attempt);
    JitterBounds(Base(attempt), j);
    PauseIs(attempt, j);
  }

  /** Once the attempt index is 33, every jitter at the clock's last reading pushes the sum past 2^63. */
  lemma PauseOverflows(j: int)
    requires JitterAt(Base(33), 99, j)
    ensures !FitsInt64(Base(33) + j)
    ensures Pause(33, j) != Base(33) + j
  {
    Pow2At32();
    FitsIsExact(Base(33));
  }

  /** A retry loop with limit maxRetry pauses after attempts 0 .. maxRetry-1. No jitter can
      make any of those computations overflow if and only if maxRetry is at most 33. */
  lemma NeverOverflowsIff(maxRetry: nat)
    ensures (forall a: nat, j: int :: a < maxRetry && IsJitter(Base(a), j) ==> Pause(a, j) == Base(a) + j) <==> maxRetry <= 33
  {
    if maxRetry <= 33 {
      forall a: nat, j: int | a < maxRetry && IsJitter(Base(a), j) ensures Pause(a, j) == Base(a) + j {
        PauseFits(a, j);
      }
    } else {
      Pow2At32();
      var j := Base(33) * 99 / 500;
      assert JitterAt(Base(33), 99, j);
      PauseOverflows(j);
      assert IsJitter(Base(33), j);
    }
  }

  /** The pauses of an item that fails n times before its next attempt. */
  function Pauses(n: nat, jitter: nat -> int): seq<int> {
    if n == 0 then [] else Pauses(n - 1, jitter) + [Pause(n - 1, jitter(n - 1))]
  }

  lemma PausesNext(n: nat, jitter: nat -> int)
    ensures Pauses(0, jitter) == []
    ensures Pauses(n + 1, jitter) == Pauses(n, jitter) + [Pause(n, jitter(n))]
  {
  }

  /** Each pause is 2^i seconds, 1, 2, 4 and so on, and its own jitter of at most a fifth. */
  lemma {:induction false} PausesAre(n: nat, jitter: nat -> int)
    ensures |Pauses(n, jitter)| == n
    ensures forall i: nat :: i < n && i <= 32 && 0 <= 5 * jitter(i) <= Pow2(i) * 1_000_000_000 ==>
              Pauses(n, jitter)[i] == Pow2(i) * 1_000_000_000 + jitter(i)
  {
    hide Pow2;
    hide Pause;
    if n > 0 {
      PausesAre(n - 1, jitter);
      if n - 1 <= 32 && 0 <= 5 * jitter(n - 1) <= Pow2(n - 1) * 1_000_000_000 {
        PauseIs(n - 1, jitter(n - 1));
      }
    }
  }

  /** The truncated exact fraction 0.2 * (k / 100) of the duration is a jitter, and every jitter is
      within a five-hundredth of the duration of it. */
  lemma JitterIsAFifthOfTheReading(duration: nat, k: nat)
    requires k < 100
    ensures JitterAt(duration, k, (duration * k) / 500)
    ensures forall j :: JitterAt(duration, k, j) ==>
              j >= 0 && duration * k - duration - 500 <= 500 * j <= duration * k + duration
  {
    MulBound(duration, k);
    var x := duration * k;
    assert x - 500 < 500 * (x / 500) <= x;
  }

  /** n pauses last between 2^n - 1 seconds and 1.2 times that. */
  lemma {:induction false} TotalPause(n: nat, jitter: nat -> int)
    requires n <= 33
    requires forall i: nat :: i < n ==> IsJitter(Base(i), jitter(i))
    ensures |Pauses(n, jitter)| == n
    ensures (Pow2(n) - 1) * SECOND <= Sum(Pauses(n, jitter))
    ensures 5 * Sum(Pauses(n, jitter)) <= 6 * (Pow2(n) - 1) * SECOND
  {
    if n > 0 {
      TotalPause(n - 1, jitter);
      var d, j := Base(n - 1), jitter(n - 1);
      assert Sum(Pauses(n, jitter)) == Sum(Pauses(n - 1, jitter)) + d + j by {
        PauseFits(n - 1, j);
        SumSnoc(Pauses(n - 1, jitter), Pause(n - 1, j));
      }
      assert 0 <= 5 * j <= d by {
        BaseBounds(n - 1);
        JitterBounds(d, j);
      }
    }
  }

  lemma SumSnoc(xs: seq<int>, x: int)
    ensures Sum(xs + [x]) == Sum(xs) + x
  {
    assert (xs + [x])[..|xs|] == xs;
  }
}
