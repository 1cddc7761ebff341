/** Instants are natural numbers that never run backwards. */
module Clock {
  /** Time since an earlier instant, never below zero, as `Instant` computes it. */
  function Elapsed(since: nat, now: nat): nat {
    if now >= since then now - since else 0
  }
}
