/**
 * The bounded retry loop shared by the page fetcher and the webhook sender:
 * attempts are numbered from 1, the loop stops at the first success or after
 * the last allowed attempt, and waits between a failed attempt and the next.
 */
module Retry {
  import opened Wrappers

  /** The first attempt in `from..retries` that succeeds, if any. */
  function FirstSuccessFrom(ok: nat -> bool, from: nat, retries: int): (r: Option<nat>)
    ensures r.Some? ==> from <= r.value <= retries && ok(r.value)
    ensures r.Some? ==> forall a :: from <= a < r.value ==> !ok(a)
    ensures r.None? ==> forall a :: from <= a <= retries ==> !ok(a)
    decreases retries - from
  {
    if retries < from then None
    else if ok(from) then Some(from)
    else FirstSuccessFrom(ok, from + 1, retries)
  }

  /** The first successful attempt of a loop allowed `retries` attempts. */
  function FirstSuccess(ok: nat -> bool, retries: int): Option<nat>
  {
    FirstSuccessFrom(ok, 1, retries)
  }

  /** How many attempts the loop makes: up to the first success, else all of them (none when `retries <= 0`). */
  function AttemptsMade(ok: nat -> bool, retries: int): (n: nat)
    ensures n <= retries || n == 0
    ensures retries >= 1 <==> n >= 1
    ensures forall a :: 1 <= a < n ==> !ok(a)
    ensures n >= 1 ==> ok(n) || n == retries
  {
    match FirstSuccess(ok, retries)
    case Some(a) => a
    case None => if retries > 0 then retries else 0
  }

  /** How many times the loop waits: after every failed attempt but the last allowed one. */
  function Waits(ok: nat -> bool, retries: int): nat
  {
    var n := AttemptsMade(ok, retries);
    if n == 0 then 0 else n - 1
  }

  /** `Math.pow(2, n)` for natural n. */
  function Pow2(n: nat): (p: nat)
    ensures p >= 1
  {
    if n == 0 then 1 else 2 * Pow2(n - 1)
  }
}
