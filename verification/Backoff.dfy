// Reconnect pacing: the saturating exponential delay and the loop that uses it.
// Times are whole milliseconds.
module Backoff {
  import opened Common

  const U64_MAX: nat := 0xFFFF_FFFF_FFFF_FFFF
  const U32_MAX: nat := 0xFFFF_FFFF

  /** A connection that held this long counts as recovered. */
  const RECOVERED_MS: nat := 30_000

  function Pow2(n: nat): (p: nat)
    ensures p >= 1
  {
    if n == 0 then 1 else 2 * Pow2(n - 1)
  }

  datatype Policy = Policy(base: nat, max: nat) {

    /**
     * The delay before retry `attempt`: the base, truncated to 64 bits, times a
     * power of two that stops growing at 2^32, saturating, under the ceiling.
     */
    function Delay(attempt: nat): nat {
      var factor := Pow2(Min(attempt, 32));
      var millis := Min((base % (U64_MAX + 1)) * factor, U64_MAX);
      Min(millis, max)
    }
  }

  const DEFAULT := Policy(100, 30_000)

  lemma {:induction false} Pow2Monotone(a: nat, b: nat)
    requires a <= b
    ensures Pow2(a) <= Pow2(b)
  {
    if a < b {
      Pow2Monotone(a, b - 1);
    }
  }

  lemma ProductGrows(x: nat, y: nat, z: nat)
    requires y <= z
    ensures x * y <= x * z
  {
  }

  /** The delay never shrinks from one attempt to a later one, and never passes the ceiling. */
  lemma DelayIsMonotone(p: Policy, a: nat, b: nat)
    requires a <= b
    ensures p.Delay(a) <= p.Delay(b) <= p.max
  {
    Pow2Monotone(Min(a, 32), Min(b, 32));
    ProductGrows(p.base % (U64_MAX + 1), Pow2(Min(a, 32)), Pow2(Min(b, 32)));
  }

  /**
   * The delays one by one: the base first, then twice the one before, for 32 retries,
   * saturating at 2^64 - 1 and under the ceiling.
   */
  lemma DelayDoubles(p: Policy, a: nat)
    ensures p.Delay(0) == Min(p.base % 0x1_0000_0000_0000_0000, p.max)
    ensures p.Delay(a + 1) == if a < 32 then Min(Min(2 * p.Delay(a), 0xFFFF_FFFF_FFFF_FFFF), p.max) else p.Delay(a)
  {
    assert (p.base % (U64_MAX + 1)) * Pow2(0) == p.base % (U64_MAX + 1);
    if a < 32 {
      var base, factor := p.base % (U64_MAX + 1), Pow2(a);
      assert Pow2(a + 1) == 2 * factor;
      assert base * (2 * factor) == 2 * (base * factor);
    }
  }

  /** The ceiling is reached exactly when 2^32 times the base does. */
  lemma DelayReachesCeiling(p: Policy)
    ensures (exists a: nat :: p.Delay(a) == p.max)
       <==> Min((p.base % (U64_MAX + 1)) * Pow2(32), U64_MAX) >= p.max
  {
    if exists a: nat :: p.Delay(a) == p.max {
      var a: nat :| p.Delay(a) == p.max;
      DelayIsMonotone(p, a, Max(a, 32));
    }
    assert p.Delay(32) == Min(Min((p.base % (U64_MAX + 1)) * Pow2(32), U64_MAX), p.max);
  }

  lemma SmallPowers()
    ensures Pow2(0) == 1 && Pow2(1) == 2 && Pow2(2) == 4 && Pow2(3) == 8 && Pow2(4) == 16
    ensures Pow2(5) == 32 && Pow2(6) == 64 && Pow2(8) == 256 && Pow2(9) == 512
  {
  }

  lemma {:induction false} PowerOfSum(a: nat, b: nat)
    ensures Pow2(a + b) == Pow2(a) * Pow2(b)
  {
    if a > 0 {
      PowerOfSum(a - 1, b);
      assert Pow2(a + b) == 2 * Pow2(a - 1 + b);
    }
  }

  lemma BigPower()
    ensures Pow2(32) == 0x1_0000_0000
  {
    SmallPowers();
    PowerOfSum(8, 8);
    PowerOfSum(16, 16);
  }

  /** The default delays: doubling from 100 ms to 25.6 s, then 30 s for good. */
  lemma DefaultDelays(a: nat)
    ensures DEFAULT.Delay(a) == if a < 9 then 100 * Pow2(a) else 30_000
  {
    if a < 9 {
      Pow2Monotone(a, 8);
      assert Pow2(8) == 256 by { SmallPowers(); }
    } else {
      Pow2Monotone(9, Min(a, 32));
      assert Pow2(9) == 512 by { SmallPowers(); }
      Pow2Monotone(Min(a, 32), 32);
      assert Pow2(32) == 0x1_0000_0000 by { BigPower(); }
    }
  }

  // --------------------------------------------------------- the reconnect loop

  /**
   * One failed poll: how long the connection had held, if it was ever made, and
   * the time that passed before the failure besides.
   */
  datatype Drop = Drop(held: Option<nat>, waited: nat)

  /** The retry counter, the reconnects made and the time that has passed. */
  datatype Pace = Pace(attempt: nat, reconnects: nat, elapsed: nat)

  /** Only a connection that held long enough resets the counter. */
  function AttemptAt(attempt: nat, drop: Drop): nat {
    if drop.held.Some? && drop.held.value >= RECOVERED_MS then 0 else attempt
  }

  /** The error branch: reset or not, sleep, count up, poll again. */
  function Reconnect(s: Pace, drop: Drop): Pace {
    var attempt := AttemptAt(s.attempt, drop);
    Pace(
      Min(attempt + 1, U32_MAX),
      s.reconnects + 1,
      s.elapsed + drop.waited + drop.held.GetOr(0) + DEFAULT.Delay(attempt))
  }

  /**
   * What one failed poll does. After a connection that held for 30 s or more the next
   * poll comes 100 ms later; otherwise the delay is that of the counter, and it counts on.
   */
  lemma ReconnectMeans(s: Pace, drop: Drop)
    ensures Reconnect(s, drop) ==
      match drop.held
      case Some(h) =>
        if h >= 30_000 then Pace(1, s.reconnects + 1, s.elapsed + drop.waited + h + 100)
        else Pace(Min(s.attempt + 1, 0xFFFF_FFFF), s.reconnects + 1,
                  s.elapsed + drop.waited + h + DEFAULT.Delay(s.attempt))
      case None =>
        Pace(Min(s.attempt + 1, 0xFFFF_FFFF), s.reconnects + 1,
             s.elapsed + drop.waited + DEFAULT.Delay(s.attempt))
  {
    DefaultDelays(0);
  }

  function ReconnectAll(s: Pace, drops: seq<Drop>): Pace {
    if drops == [] then s else Reconnect(ReconnectAll(s, drops[..|drops| - 1]), drops[|drops| - 1])
  }

  lemma CounterAfter(s: Pace, drop: Drop)
    ensures Reconnect(s, drop).attempt
         == if drop.held.Some? && drop.held.value >= 30_000 then 1 else Min(s.attempt + 1, 0xFFFF_FFFF)
  {
    ReconnectMeans(s, drop);
  }

  /**
   * The counter counts the drops since the last connection that held, that one
   * included, whatever came before it; connections that do not hold never reset it.
   */
  lemma {:induction false} CounterCountsSinceRecovery(s: Pace, drops: seq<Drop>, i: nat)
    requires i <= |drops|
    requires forall j | i <= j < |drops| && drops[j].held.Some? :: drops[j].held.value < 30_000
    requires i > 0 ==> drops[i - 1].held.Some? && drops[i - 1].held.value >= 30_000
    requires i == 0 ==> s.attempt <= 0xFFFF_FFFF
    ensures ReconnectAll(s, drops).attempt
         == Min(if i > 0 then |drops| - i + 1 else s.attempt + |drops|, 0xFFFF_FFFF)
  {
    hide Reconnect;
    if drops != [] {
      var n := |drops| - 1;
      CounterAfter(ReconnectAll(s, drops[..n]), drops[n]);
      if i <= n {
        CounterCountsSinceRecovery(s, drops[..n], i);
      }
    }
  }

  /** An eviction storm is paced: from the tenth short connection in a row on, every retry waits 30 s. */
  lemma StormWaitsLongest(s: Pace, drops: seq<Drop>, drop: Drop)
    requires s.attempt <= 0xFFFF_FFFF && |drops| >= 9
    requires forall j | 0 <= j < |drops| && drops[j].held.Some? :: drops[j].held.value < 30_000
    requires drop.held.Some? ==> drop.held.value < 30_000
    ensures var before, after := ReconnectAll(s, drops), ReconnectAll(s, drops + [drop]);
      after.elapsed == before.elapsed + drop.waited + drop.held.GetOr(0) + 30_000
  {
    CounterCountsSinceRecovery(s, drops, 0);
    ReconnectMeans(ReconnectAll(s, drops), drop);
    DefaultDelays(ReconnectAll(s, drops).attempt);
    assert (drops + [drop])[..|drops|] == drops;
  }

  /** How far the reconnects made at each counter value run ahead of one per 6 s. */
  function Credit(attempt: nat): nat {
    if attempt >= 6 then 29_700
    else [0, 5_900, 11_700, 17_300, 22_500, 26_900][attempt]
  }

  lemma ReconnectPaysItsWay(s: Pace, drop: Drop)
    ensures var r := Reconnect(s, drop);
      6_000 * (r.reconnects - s.reconnects) + Credit(s.attempt) <= (r.elapsed - s.elapsed) + Credit(r.attempt)
  {
    var attempt := AttemptAt(s.attempt, drop);
    DefaultDelays(attempt);
    SmallPowers();
    if attempt >= 7 {
      DefaultDelays(6);
      DelayIsMonotone(DEFAULT, 6, attempt);
    }
  }

  /**
   * The amortised bound: from a fresh counter, N reconnects take at least
   * 6000 N - 29700 ms, however connections come and go.
   */
  lemma {:induction false} ReconnectsArePaced(s: Pace, drops: seq<Drop>)
    ensures var r := ReconnectAll(s, drops);
      6_000 * |drops| + Credit(s.attempt) <= (r.elapsed - s.elapsed) + Credit(r.attempt)
    ensures 6_000 * |drops| <= (ReconnectAll(s, drops).elapsed - s.elapsed) + 29_700
    ensures ReconnectAll(s, drops).reconnects == s.reconnects + |drops|
  {
    if drops != [] {
      var n := |drops| - 1;
      ReconnectsArePaced(s, drops[..n]);
      ReconnectPaysItsWay(ReconnectAll(s, drops[..n]), drops[n]);
    }
  }

  /** Failures in a row, with nothing between them, from a fresh counter. */
  lemma {:induction false} Storm(drops: seq<Drop>)
    requires |drops| <= 9 && forall i | 0 <= i < |drops| :: drops[i] == Drop(None, 0)
    ensures ReconnectAll(Pace(0, 0, 0), drops) == Pace(|drops|, |drops|, 100 * (Pow2(|drops|) - 1))
  {
    if drops != [] {
      var n := |drops| - 1;
      Storm(drops[..n]);
      DefaultDelays(n);
    }
  }

  /** The constant is the best possible: six failures in a row attain it. */
  lemma BoundIsTight(drops: seq<Drop>)
    requires |drops| == 6 && forall i | 0 <= i < |drops| :: drops[i] == Drop(None, 0)
    ensures 6_000 * |drops| == ReconnectAll(Pace(0, 0, 0), drops).elapsed + 29_700
  {
    Storm(drops);
    SmallPowers();
  }
}
