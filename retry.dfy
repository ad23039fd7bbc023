/**
 * The retry schedule of `fetchWithRetry`. The request itself, the response
 * status check and the JSON decoding are one abstract attempt: attempt `i`
 * either succeeds with a value or fails with an error. Between a failed
 * attempt and the next one the loop waits `delays[i]` milliseconds; the
 * waiting itself is not modelled, only how long it would be.
 */
module Retry {

  datatype Outcome = Success(data: string) | Failure(error: string)

  /** What the call settles with: a value, a thrown error, or `undefined` when no attempt is made. */
  datatype Settled = Returned(data: string) | Threw(error: string) | Undefined

  /** The default number of attempts. */
  const DefaultRetries: int := 5

  /** `delays[i]`; past the end of the table it is `undefined`, which `setTimeout` reads as 0. */
  function Delay(i: nat): (r: nat)
    ensures i < 5 ==> r == 1000 * Pow2(i)
    ensures 5 <= i ==> r == 0
  {
    assert Pow2(1) == 2 && Pow2(2) == 4 && Pow2(3) == 8 && Pow2(4) == 16;
    if i == 0 then 1000
    else if i == 1 then 2000
    else if i == 2 then 4000
    else if i == 3 then 8000
    else if i == 4 then 16000
    else 0
  }

  /** The waits after the first `n` failed attempts. */
  function Waits(n: nat): seq<nat> {
    seq(n, i requires 0 <= i < n => Delay(i))
  }

  /**
   * The loop: attempt `i` for `i` from 0 while `i < retries`, return the first
   * success, rethrow the failure of the last attempt, and wait `delays[i]`
   * after any other failure. `attempts` counts the attempts made and `waits`
   * the waits, in order.
   */
  method FetchWithRetry(attempt: nat -> Outcome, retries: int) returns (result: Settled, attempts: nat, waits: seq<nat>)
    ensures result.Undefined? <==> retries <= 0
    ensures retries <= 0 ==> attempts == 0
    ensures retries > 0 ==> 1 <= attempts <= retries && waits == Waits(attempts - 1)
    ensures forall i :: 0 <= i < attempts - 1 ==> attempt(i).Failure?
    ensures result.Returned? ==> attempt(attempts - 1) == Success(result.data)
    ensures result.Threw? ==> attempts == retries && attempt(attempts - 1) == Failure(result.error)
    ensures retries <= 0 ==> waits == []
  {
    waits := [];
    attempts := 0;
    var i := 0;
    while i < retries
      invariant 0 <= i && (retries > 0 ==> i < retries) && (retries <= 0 ==> i == 0)
      invariant attempts == i
      invariant waits == Waits(i)
      invariant forall j :: 0 <= j < i ==> attempt(j).Failure?
      decreases retries - i
    {
      attempts := attempts + 1;
      match attempt(i)
      case Success(data) =>
        return Returned(data), attempts, waits;
      case Failure(error) =>
        if i == retries - 1 {
          return Threw(error), attempts, waits;
        }
        waits := waits + [Delay(i)];
        i := i + 1;
    }
    result := Undefined;
  }

  /**
   * With the default of five attempts at most four waits happen, of 1, 2, 4
   * and 8 seconds: the last entry of the table, 16 seconds, is never used,
   * and the total wait is at most 15 seconds.
   */
  lemma DefaultSchedule(n: nat)
    requires n <= DefaultRetries - 1
    ensures forall w :: w in Waits(n) ==> w in {1000, 2000, 4000, 8000}
    ensures 16000 !in Waits(n)
    ensures Sum(Waits(n)) <= 15000
  {
    SumWaits(n);
  }

  function Sum(s: seq<nat>): nat {
    if s == [] then 0 else Sum(s[..|s| - 1]) + s[|s| - 1]
  }

  /** The waits after `n <= 5` failures sum to `1000 * (2^n - 1)` milliseconds. */
  lemma {:induction false} SumWaits(n: nat)
    requires n <= 5
    ensures Sum(Waits(n)) == 1000 * (Pow2(n) - 1)
  {
    if n > 0 {
      assert Waits(n)[..n - 1] == Waits(n - 1);
      SumWaits(n - 1);
    }
  }

  function Pow2(n: nat): nat {
    if n == 0 then 1 else 2 * Pow2(n - 1)
  }
}
