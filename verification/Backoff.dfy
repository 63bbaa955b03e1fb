/** Reconnection delays: exponential, capped. */
module Backoff {
  datatype Config = Config(reconnectAttempts: nat, initialReconnectDelay: nat, maxReconnectDelay: nat)

  const DEFAULT_CONFIG := Config(10, 1000, 30000)

  function Pow2(n: nat): nat {
    if n == 0 then 1 else 2 * Pow2(n - 1)
  }

  function ReconnectDelay(attempt: nat, c: Config): nat {
    var delay := c.initialReconnectDelay * Pow2(attempt);
    if delay <= c.maxReconnectDelay then delay else c.maxReconnectDelay
  }

  lemma {:induction false} DelaysNeverDecrease(i: nat, j: nat, c: Config)
    requires i <= j
    ensures ReconnectDelay(i, c) <= ReconnectDelay(j, c) <= c.maxReconnectDelay
    decreases j - i
  {
    if i < j {
      DelaysNeverDecrease(i + 1, j, c);
      assert Pow2(i + 1) == 2 * Pow2(i);
      assert c.initialReconnectDelay * Pow2(i + 1) == 2 * (c.initialReconnectDelay * Pow2(i));
    }
  }

  // The first delay is the initial one, each further one twice the last, none above the maximum.
  lemma DelaysDouble(attempt: nat, c: Config)
    ensures ReconnectDelay(0, c) == if c.initialReconnectDelay <= c.maxReconnectDelay then c.initialReconnectDelay else c.maxReconnectDelay
    ensures var d := 2 * ReconnectDelay(attempt, c);
      ReconnectDelay(attempt + 1, c) == if d <= c.maxReconnectDelay then d else c.maxReconnectDelay
  {
    assert Pow2(0) == 1 && Pow2(attempt + 1) == 2 * Pow2(attempt);
    assert c.initialReconnectDelay * Pow2(attempt + 1) == 2 * (c.initialReconnectDelay * Pow2(attempt));
  }

  function Sum(delays: seq<nat>): nat {
    if delays == [] then 0 else Sum(delays[..|delays| - 1]) + delays[|delays| - 1]
  }

  // The delays of the timers armed since the last reset.
  ghost predicate IsBackoff(delays: seq<nat>, c: Config) {
    |delays| <= c.reconnectAttempts && forall i :: 0 <= i < |delays| ==> delays[i] == ReconnectDelay(i, c)
  }

  lemma OneMoreArmed(delays: seq<nat>, c: Config)
    requires IsBackoff(delays, c) && |delays| < c.reconnectAttempts
    ensures IsBackoff(delays + [ReconnectDelay(|delays|, c)], c)
  {
  }

  lemma {:induction false} DefaultTotals(delays: seq<nat>)
    requires IsBackoff(delays, DEFAULT_CONFIG)
    ensures |delays| <= 10 && Sum(delays) <= 181000 && (|delays| == 10 ==> Sum(delays) == 181000)
    ensures IsBackoff([1000, 2000, 4000, 8000, 16000, 30000, 30000, 30000, 30000, 30000], DEFAULT_CONFIG)
  {
    DefaultDelays();
    DefaultPartialSums(delays, |delays|);
  }

  lemma DefaultDelays()
    ensures forall i :: 0 <= i < 10 ==>
      ReconnectDelay(i, DEFAULT_CONFIG) == [1000, 2000, 4000, 8000, 16000, 30000, 30000, 30000, 30000, 30000][i]
  {
    assert Pow2(0) == 1 && Pow2(1) == 2 && Pow2(2) == 4 && Pow2(3) == 8 && Pow2(4) == 16 && Pow2(5) == 32;
    forall i | 5 <= i < 10 ensures ReconnectDelay(i, DEFAULT_CONFIG) == 30000 {
      DelaysNeverDecrease(5, i, DEFAULT_CONFIG);
    }
  }

  lemma {:induction false} DefaultPartialSums(delays: seq<nat>, n: nat)
    requires IsBackoff(delays, DEFAULT_CONFIG) && n <= |delays|
    ensures Sum(delays[..n]) == [0, 1000, 3000, 7000, 15000, 31000, 61000, 91000, 121000, 151000, 181000][n]
    ensures delays[..|delays|] == delays
  {
    if n > 0 {
      DefaultPartialSums(delays, n - 1);
      DefaultDelays();
      assert delays[..n][..n - 1] == delays[..n - 1];
    }
  }
}
