/** The retry loop of an update. Times are in msec. */
module UpdateRetry {
  import opened Wrappers

  const INITIAL_UPDATE_RETRY_MSEC: nat := 50

  const UPDATE_RETRY_GROWTH_FACTOR: nat := 5

  const MAX_UPDATE_RETRY_MSEC: nat := 15 * 1000

  const MIN_TIMEOUT_MSEC: nat := 1000

  const MAX_TIMEOUT_MSEC: nat := 60 * 1000

  const MAX_ATTEMPTS: nat := 8

  function Distance(a: nat, b: nat): nat {
    if a <= b then b - a else a - b
  }

  /** `Timeouts.clamp()`, where `None` is `null`: the nearest timeout that is allowed, and the longest by default. */
  function Clamp(timeout: Option<nat>): (r: nat)
    ensures MIN_TIMEOUT_MSEC <= r <= MAX_TIMEOUT_MSEC
    ensures timeout.None? ==> r == MAX_TIMEOUT_MSEC
    ensures timeout.Some? ==> forall t :: MIN_TIMEOUT_MSEC <= t <= MAX_TIMEOUT_MSEC ==>
      Distance(timeout.value, r) <= Distance(timeout.value, t)
    ensures timeout.Some? && MIN_TIMEOUT_MSEC <= timeout.value <= MAX_TIMEOUT_MSEC ==> r == timeout.value
  {
    if timeout.None? then MAX_TIMEOUT_MSEC
    else if timeout.value < MIN_TIMEOUT_MSEC then MIN_TIMEOUT_MSEC
    else if timeout.value > MAX_TIMEOUT_MSEC then MAX_TIMEOUT_MSEC
    else timeout.value
  }

  /** The delay after a given one. */
  function Longer(delay: nat): nat {
    if delay * UPDATE_RETRY_GROWTH_FACTOR < MAX_UPDATE_RETRY_MSEC then delay * UPDATE_RETRY_GROWTH_FACTOR
    else MAX_UPDATE_RETRY_MSEC
  }

  /** The delay after lost attempt `k`, counting from 1. */
  function Delay(k: nat): nat {
    if k <= 1 then INITIAL_UPDATE_RETRY_MSEC else Longer(Delay(k - 1))
  }

  /** A delay is five times the one before, up to a quarter of a minute. */
  lemma {:induction false} Delays(k: nat)
    ensures Delay(1) == 50 && Delay(2) == 250 && Delay(3) == 1250 && Delay(4) == 6250
    ensures k >= 5 ==> Delay(k) == 15000
  {
    if k > 5 { Delays(k - 1); }
  }

  /** The total of all delays after `k` lost attempts. */
  function Slept(k: nat): nat {
    if k == 0 then 0 else Slept(k - 1) + Delay(k)
  }

  /** A clock, read when an update starts and then before each attempt, advances by at least each delay. */
  ghost predicate Advances(now: nat -> int) {
    now(0) <= now(1) && forall k: nat :: k >= 1 ==> now(k + 1) >= now(k) + Delay(k)
  }

  lemma {:induction false} AtLeastSlept(now: nat -> int, k: nat)
    requires Advances(now)
    ensures now(k + 1) >= now(0) + Slept(k)
  {
    if k > 0 { AtLeastSlept(now, k - 1); }
  }

  /** Eight delays take longer than any timeout; seven do not take as long as the longest one. */
  lemma EightAreEnough()
    ensures Slept(MAX_ATTEMPTS - 1) < MAX_TIMEOUT_MSEC <= Slept(MAX_ATTEMPTS)
  {
    assert Delay(3) == 1250 && Delay(5) == 15000 && Delay(7) == 15000 && Delay(8) == 15000;
    assert Slept(3) == 1550 && Slept(5) == 22800 && Slept(7) == 52800;
  }

  lemma NextDelay(k: nat)
    ensures Delay(k + 1) == if k == 0 then INITIAL_UPDATE_RETRY_MSEC else Longer(Delay(k))
  {
  }

  /** The loop of `update()`. `wins(k)` tells whether attempt `k` gets a result other than a lost race. Every
      attempt starts before the deadline; it ends with the first one that wins, or when the time is over. */
  method Update(timeout: Option<nat>, now: nat -> int, wins: nat -> bool) returns (attempts: nat, success: bool)
    requires Advances(now)
    ensures attempts <= MAX_ATTEMPTS
    ensures forall k :: 1 <= k <= attempts ==> now(k) < now(0) + Clamp(timeout)
    ensures forall k :: 1 <= k < attempts ==> !wins(k)
    ensures success ==> attempts >= 1 && wins(attempts)
    ensures !success ==> now(attempts + 1) >= now(0) + Clamp(timeout) && (attempts >= 1 ==> !wins(attempts))
  {
    hide Slept, Delay;
    var timeoutTime := now(0) + Clamp(timeout);
    NextDelay(0);
    var retryDelay := INITIAL_UPDATE_RETRY_MSEC;
    attempts := 0;
    while true
      invariant attempts <= MAX_ATTEMPTS
      invariant retryDelay == Delay(attempts + 1)
      invariant forall k :: 1 <= k <= attempts ==> now(k) < timeoutTime && !wins(k)
      decreases MAX_ATTEMPTS - attempts
    {
      AtLeastSlept(now, attempts);
      EightAreEnough();
      NextDelay(attempts + 1);
      if now(attempts + 1) >= timeoutTime {
        return attempts, false;
      }
      attempts := attempts + 1;
      if wins(attempts) {
        return attempts, true;
      }
      var delayed := retryDelay * UPDATE_RETRY_GROWTH_FACTOR;
      retryDelay := if delayed < MAX_UPDATE_RETRY_MSEC then delayed else MAX_UPDATE_RETRY_MSEC;
    }
  }
}
