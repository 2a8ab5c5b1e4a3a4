/** The two polling loops against the clock: sleeps take exactly as long as asked, commands
    a fixed time or none, and `present(t)` says whether the lock key exists at instant t
    (bridge/paper/src/main/kotlin/net/aethernet/cloud/RedisClient.kt, AetherPaperPlugin.kt). */
module WaitLoops {

  /** How many polls fit before the deadline: the quotient rounded up, none if it has passed. */
  function Polls(timeoutMs: int, pollMs: int): (n: nat)
    requires pollMs > 0
    ensures timeoutMs <= 0 ==> n == 0
    ensures timeoutMs > 0 ==> (n - 1) * pollMs < timeoutMs <= n * pollMs
  {
    if timeoutMs <= 0 then 0 else (timeoutMs - 1) / pollMs + 1
  }

  /** RedisClient.waitForKeyDeletion, where looking takes `checkMs`: a round is a look and a
      sleep. With a poll interval of zero it is the looking that lets time pass. */
  method WaitForKeyDeletion(present: int -> bool, start: int, timeoutMs: int, pollMs: nat, checkMs: nat)
    returns (released: bool, checks: nat, end: int)
    requires pollMs + checkMs > 0
    ensures var round := pollMs + checkMs;
            var n := Polls(timeoutMs, round);
            && checks <= n
            && (released ==> 0 < checks && end == start + (checks - 1) * round < start + timeoutMs && !present(end))
            && (!released ==> checks == n)
            && (released <==> exists k | 0 <= k < n :: !present(start + k * round))
            && (timeoutMs > 0 && (forall t | start + timeoutMs - round <= t < start + timeoutMs :: !present(t)) ==>
                  released)
  {
    var round := pollMs + checkMs;
    var deadline := start + timeoutMs;
    ghost var n := Polls(timeoutMs, round);
    checks, end := 0, start;
    while end < deadline
      invariant checks <= n && end == start + checks * round
      invariant forall k | 0 <= k < checks :: present(start + k * round)
      decreases deadline - end
    {
      Steps(checks, n, round, timeoutMs);
      checks := checks + 1;
      if !present(end) {
        assert !present(start + (checks - 1) * round);
        return true, checks, end;
      }
      end := end + checkMs + pollMs;
    }
    if n > 0 {
      Steps(n - 1, checks, round, timeoutMs);
      LastPoll(start, timeoutMs, round, n);
      assert present(start + (n - 1) * round);
    }
    return false, checks, end;
  }

  /** A poll whose instant is before the deadline is one of the polls that fit. */
  lemma Steps(k: nat, n: nat, pollMs: int, timeoutMs: int)
    requires pollMs > 0 && k * pollMs < timeoutMs <= n * pollMs
    ensures k < n
  {
    if k >= n {
      assert k * pollMs >= n * pollMs by { Monotone(n, k, pollMs); }
    }
  }

  lemma Monotone(a: nat, b: nat, m: int)
    requires a <= b && m > 0
    ensures a * m <= b * m
  {
  }

  /** The last poll falls within one interval of the deadline. */
  lemma LastPoll(start: int, timeoutMs: int, pollMs: int, n: nat)
    requires pollMs > 0 && n > 0 && (n - 1) * pollMs < timeoutMs <= n * pollMs
    ensures start + timeoutMs - pollMs <= start + (n - 1) * pollMs < start + timeoutMs
  {
    assert n * pollMs == (n - 1) * pollMs + pollMs;
  }

  const POLL_MS := 10
  const PRELOGIN_TIMEOUT_MS := 2_000

  ghost predicate GoneFrom(present: int -> bool, r: int) {
    forall t | r <= t :: !present(t)
  }

  /** AetherPaperPlugin.onPreLogin: the lock is looked at once more after the loop, and a lock
      that is gone for good by the deadline never costs a login. */
  method OnPreLogin(present: int -> bool, start: int) returns (admitted: bool, looks: nat, end: int)
    ensures admitted <==> !present(end)
    ensures start <= end <= start + 2_000 && (end - start) % 10 == 0
    ensures forall t | start <= t < end && (t - start) % 10 == 0 :: present(t)
    ensures looks <= 202
    ensures !admitted ==> end == start + 2_000
    ensures (exists r | start <= r <= start + 2_000 :: GoneFrom(present, r)) ==> admitted
  {
    var deadline := start + PRELOGIN_TIMEOUT_MS;
    end, looks := start, 1;
    while present(end) && end < deadline
      invariant start <= end <= deadline && (end - start) % POLL_MS == 0
      invariant looks * POLL_MS == end - start + POLL_MS
      invariant forall t | start <= t < end && (t - start) % POLL_MS == 0 :: present(t)
      decreases deadline - end
    {
      end := end + POLL_MS;
      looks := looks + 1;
    }
    admitted := !present(end);
    looks := looks + 1;
  }
}
