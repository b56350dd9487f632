/**
 * The linear dial back-off of the TCP client: 100 ms at first, 100 ms more
 * after every failed retry while below one second.
 */
module Backoff {
  import opened Time

  const InitialBackoff: int := 100 * Millisecond
  const BackoffStep: int := 100 * Millisecond
  const MaxBackoff: int := Second

  /** The back-off after one more failed retry: it stays or grows by one
      step, and it grows exactly while below the cap. */
  function Next(b: int): (r: int)
    ensures r == b || r == b + BackoffStep
    ensures r > b <==> b < MaxBackoff
  {
    if b < Second then b + BackoffStep else b
  }

  /** The back-off a worker sleeps before its (k+1)-th dial retry. */
  function AfterRetries(k: nat): int
  {
    if k == 0 then InitialBackoff else Next(AfterRetries(k - 1))
  }

  /** Every back-off a worker can hold: a whole number of steps in [100 ms, 1 s]. */
  predicate Valid(b: int)
  {
    InitialBackoff <= b <= MaxBackoff && b % BackoffStep == 0
  }

  lemma NextValid(b: int)
    requires Valid(b)
    ensures Valid(Next(b))
    ensures Next(b) >= b
  {
  }

  /** The schedule is 100 ms, 200 ms, ..., 900 ms, then 1 s for ever. */
  lemma {:induction false} Schedule(k: nat)
    ensures AfterRetries(k) == if k < 9 then (k + 1) * BackoffStep else MaxBackoff
    ensures Valid(AfterRetries(k))
  {
    if k > 0 {
      Schedule(k - 1);
    }
  }
}
