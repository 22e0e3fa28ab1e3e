/** Exponential backoff in saturating 64-bit arithmetic. */
module Backoff {
  import opened Prelude

  const MAX_U64: U64 := U64_SPAN - 1
  const MAX_U32: U32 := U32_SPAN - 1
  const NANOS_PER_MS := 1_000_000

  datatype Config = Config(initial: U64, max: U64)

  function Pow2(n: nat): nat {
    if n == 0 then 1 else 2 * Pow2(n - 1)
  }

  /** `initial.saturating_mul(2_u64.saturating_pow(attempt)).min(max)` */
  function Nominal(cfg: Config, attempt: nat): nat {
    Min(Min(cfg.initial * Min(Pow2(attempt), MAX_U64), MAX_U64), cfg.max)
  }

  /** The nominal delay with up to 5% taken off and the clock's residue put back. */
  function Jittered(d: nat, nanos: nat): nat
    requires d >= 10
  {
    var jitter := d / 10;
    Min(d - jitter / 2 + nanos % jitter, MAX_U64)
  }

  /** The attempt counter after so many calls; it sticks at its largest value. */
  function Attempt(calls: nat): U32 {
    Min(calls, MAX_U32)
  }

  /** The delay a call returns; None stands for the division by zero that a nominal delay below
      10 ms runs into. */
  function Returned(cfg: Config, attempt: nat, nanos: nat): Option<nat> {
    var d := Nominal(cfg, attempt);
    if d < 10 then None else Some(Jittered(d, nanos))
  }

  class ExponentialBackoff {
    const cfg: Config
    var attempt: U32
    var lastBackoff: Option<nat>

    constructor (initial: U64, max: U64)
      ensures cfg == Config(initial, max) && attempt == 0 && lastBackoff == None
    {
      cfg := Config(initial, max);
      attempt, lastBackoff := 0, None;
    }

    /** A call that divides by zero leaves the state as it was. */
    method NextBackoff(nanos: nat, now: nat) returns (r: Option<nat>)
      modifies this
      ensures r == Returned(cfg, old(attempt), nanos)
      ensures r.None? ==> attempt == old(attempt) && lastBackoff == old(lastBackoff)
      ensures r.Some? ==> attempt == (if old(attempt) < MAX_U32 then old(attempt) + 1 else MAX_U32)
      ensures r.Some? ==> attempt == Attempt(old(attempt) + 1) && lastBackoff == Some(now)
    {
      hide Nominal;
      var delay := Nominal(cfg, attempt);
      var jitter := delay / 10;
      if jitter == 0 {
        return None;
      }
      var jittered := Min(delay - jitter / 2 + nanos % jitter, MAX_U64);
      attempt := if attempt < MAX_U32 then attempt + 1 else attempt;
      lastBackoff := Some(now);
      return Some(jittered);
    }

    method Reset()
      modifies this
      ensures attempt == 0 && lastBackoff == None
    {
      attempt, lastBackoff := 0, None;
    }

    method IsReadyToRetry(now: nat) returns (ready: bool)
      ensures ready == Ready(cfg, attempt, lastBackoff, now)
    {
      match lastBackoff
      case None => return true;
      case Some(last) =>
        var delay := Nominal(cfg, attempt);
        return Elapsed(now, last) >= delay * NANOS_PER_MS;
    }
  }

  function Ready(cfg: Config, attempt: nat, last: Option<nat>, now: nat): bool {
    last.None? || Elapsed(now, last.value) >= Nominal(cfg, attempt) * NANOS_PER_MS
  }

  lemma {:induction false} Pow2Monotone(m: nat, n: nat)
    requires m <= n
    ensures 1 <= Pow2(m) <= Pow2(n)
    decreases n
  {
    if n == 0 {
    } else if m < n {
      Pow2Monotone(m, n - 1);
    } else {
      Pow2Monotone(n - 1, n - 1);
    }
  }

  lemma Regroup(a: nat, b: nat)
    ensures 2 * (a * b) == (2 * a) * b
  {
  }

  lemma {:induction false} Pow2Sum(m: nat, n: nat)
    ensures Pow2(m + n) == Pow2(m) * Pow2(n)
  {
    if m == 0 {
    } else {
      Pow2Sum(m - 1, n);
      Regroup(Pow2(m - 1), Pow2(n));
    }
  }

  lemma Pow2Of64()
    ensures Pow2(64) == U64_SPAN
  {
    assert Pow2(8) == 256 by {
      assert Pow2(4) == 16;
      Pow2Sum(4, 4);
    }
    Pow2Sum(8, 8);
    Pow2Sum(16, 16);
    Pow2Sum(32, 32);
  }

  /** Saturation never shows: after any number of calls, even once the attempt counter itself has
      saturated, the nominal delay is the exact doubling, capped. */
  lemma NominalExact(cfg: Config, calls: nat)
    ensures Nominal(cfg, Attempt(calls)) == Min(cfg.initial * Pow2(calls), cfg.max)
  {
    hide Pow2;
    var a := Attempt(calls);
    if calls >= 64 {
      Pow2Of64();
      Pow2Monotone(64, calls);
      Pow2Monotone(64, a);
      assert Min(Pow2(a), MAX_U64) == MAX_U64;
      if cfg.initial > 0 {
        TimesMonotone(1, cfg.initial, MAX_U64);
        TimesMonotone(1, cfg.initial, Pow2(calls));
      }
    } else {
      Pow2Of64();
      Pow2Monotone(calls, 63);
      Pow2Halved();
    }
  }

  lemma Pow2Halved()
    ensures Pow2(63) < U64_SPAN
  {
    Pow2Of64();
  }

  /** The clock residue never divides by zero exactly when both bounds are at least 10 ms. */
  lemma NeverDividesByZeroIff(cfg: Config)
    ensures (forall calls: nat :: Nominal(cfg, Attempt(calls)) >= 10) <==> cfg.initial >= 10 && cfg.max >= 10
  {
    if cfg.initial >= 10 && cfg.max >= 10 {
      forall calls: nat
        ensures Nominal(cfg, Attempt(calls)) >= 10
      {
        NominalExact(cfg, calls);
        Pow2Monotone(0, calls);
        TimesMonotone(1, Pow2(calls), cfg.initial);
      }
    } else {
      NominalExact(cfg, 0);
      assert Pow2(0) == 1;
      assert Nominal(cfg, Attempt(0)) < 10;
    }
  }

  /** A delay lies within 5% of its nominal value. */
  lemma JitterBound(d: nat, nanos: nat)
    requires 10 <= d <= MAX_U64
    ensures 19 * d <= 20 * Jittered(d, nanos) <= 21 * d
  {
    var j := d / 10;
    assert 0 <= nanos % j < j;
  }

  /** The clock decides within that range: each value from half the jitter below the nominal delay
      is returned for some residue, and no other, short of the largest 64-bit number. */
  lemma JitterIff(d: nat, v: nat)
    requires 10 <= d <= MAX_U64 && v < MAX_U64
    ensures (exists nanos :: Jittered(d, nanos) == v)
            <==> d - d / 10 / 2 <= v < d - d / 10 / 2 + d / 10
  {
    var j := d / 10;
    var low := d - j / 2;
    if low <= v < low + j {
      SmallResidue(v - low, j);
      assert Jittered(d, v - low) == v;
    }
    forall nanos: nat
      ensures 0 <= nanos % j < j
    {
    }
  }

  lemma SmallResidue(r: nat, k: nat)
    requires r < k
    ensures r % k == r
  {
  }

  /** While the next doubling is not capped, the nominal delay doubles. */
  lemma NominalDoubles(cfg: Config, calls: nat)
    requires cfg.initial >= 10 && cfg.initial * Pow2(calls + 1) <= cfg.max
    ensures 10 <= Nominal(cfg, Attempt(calls))
    ensures Nominal(cfg, Attempt(calls + 1)) == 2 * Nominal(cfg, Attempt(calls)) <= MAX_U64
  {
    hide Nominal;
    var p := Pow2(calls);
    assert Pow2(calls + 1) == 2 * p;
    NominalExact(cfg, calls);
    NominalExact(cfg, calls + 1);
    Pow2Monotone(0, calls);
    TimesMonotone(1, p, cfg.initial);
    Doubled(cfg.initial, p);
  }

  lemma Doubled(i: nat, p: nat)
    ensures i * (2 * p) == 2 * (i * p)
  {
  }

  /** Delays strictly increase, whatever the jitter, while doubling is not capped. */
  lemma StrictlyIncreasing(cfg: Config, calls: nat, nanos1: nat, nanos2: nat)
    requires cfg.initial >= 10 && cfg.initial * Pow2(calls + 1) <= cfg.max
    ensures var d1, d2 := Nominal(cfg, Attempt(calls)), Nominal(cfg, Attempt(calls + 1));
            10 <= d1 && 10 <= d2 && Jittered(d1, nanos1) < Jittered(d2, nanos2)
  {
    hide Nominal, Jittered;
    NominalDoubles(cfg, calls);
    JitterBound(Nominal(cfg, Attempt(calls)), nanos1);
    JitterBound(Nominal(cfg, Attempt(calls + 1)), nanos2);
  }

  /** The sum of the first delays after a reset, one clock reading for each. */
  function TotalDelay(cfg: Config, nanos: seq<nat>): nat {
    if nanos == [] then 0 else
      var k := |nanos| - 1;
      var d := Nominal(cfg, Attempt(k));
      TotalDelay(cfg, nanos[..k]) + (if d >= 10 then Jittered(d, nanos[k]) else 0)
  }

  /** The first `n` uncapped delays sum to within 5% of `initial * (2^n - 1)`. */
  lemma {:induction false} TotalDelayBound(cfg: Config, nanos: seq<nat>)
    requires cfg.initial >= 10
    requires nanos != [] ==> cfg.initial * Pow2(|nanos| - 1) <= cfg.max
    ensures var exact := cfg.initial * (Pow2(|nanos|) - 1);
            19 * exact <= 20 * TotalDelay(cfg, nanos) <= 21 * exact
  {
    if nanos == [] {
      assert Pow2(0) == 1;
    } else {
      var k := |nanos| - 1;
      UncappedNominal(cfg, k);
      if k > 0 {
        UncappedBefore(cfg, k);
      }
      TotalDelayBound(cfg, nanos[..k]);
      JitterBound(Nominal(cfg, Attempt(k)), nanos[k]);
      var p := Pow2(k);
      assert Pow2(|nanos|) == 2 * p;
      hide Nominal, Jittered, Pow2;
      GeometricStep(cfg.initial, p);
    }
  }

  lemma UncappedNominal(cfg: Config, k: nat)
    requires cfg.initial >= 10 && cfg.initial * Pow2(k) <= cfg.max
    ensures Nominal(cfg, Attempt(k)) == cfg.initial * Pow2(k) >= 10
  {
    hide Nominal;
    NominalExact(cfg, k);
    Pow2Monotone(0, k);
    TimesMonotone(1, Pow2(k), cfg.initial);
  }

  lemma UncappedBefore(cfg: Config, k: nat)
    requires k > 0 && cfg.initial * Pow2(k) <= cfg.max
    ensures cfg.initial * Pow2(k - 1) <= cfg.max
  {
    Pow2Monotone(k - 1, k);
    TimesMonotone(Pow2(k - 1), Pow2(k), cfg.initial);
  }

  lemma GeometricStep(i: nat, p: nat)
    ensures i * (2 * p - 1) == i * (p - 1) + i * p
  {
  }

  /** While doubling is not capped, a delay never exceeds the next nominal one. */
  lemma UncappedReadyWaits(cfg: Config, calls: nat, nanos: nat)
    requires cfg.initial >= 10 && cfg.initial * Pow2(calls + 1) <= cfg.max
    ensures var d := Nominal(cfg, Attempt(calls));
            d >= 10 && Jittered(d, nanos) <= Nominal(cfg, Attempt(calls + 1))
  {
    hide Nominal, Jittered;
    NominalDoubles(cfg, calls);
    JitterBound(Nominal(cfg, Attempt(calls)), nanos);
  }

  /** At the cap it may: from 30 ms on, some clock residue asks for more than the cap. */
  lemma CappedReadyMayBeEarly(cfg: Config, calls: nat)
    requires 30 <= cfg.max < MAX_U64 && cfg.initial * Pow2(calls) >= cfg.max
    ensures Nominal(cfg, Attempt(calls)) == cfg.max
    ensures exists nanos :: Jittered(cfg.max, nanos) > Nominal(cfg, Attempt(calls + 1))
  {
    hide Nominal, Pow2;
    NominalExact(cfg, calls);
    var jitter := cfg.max / 10;
    assert (jitter - 1) % jitter == jitter - 1;
    assert Jittered(cfg.max, jitter - 1) > cfg.max;
    NominalExact(cfg, calls + 1);
  }

  /** Below 30 ms the jitter only ever shortens a delay. */
  lemma SmallDelaysOnlyShrink(d: nat, nanos: nat)
    requires 10 <= d < 30
    ensures Jittered(d, nanos) <= d
  {
    var jitter := d / 10;
    assert 0 <= nanos % jitter < jitter;
  }

  lemma NominalGrows(cfg: Config, calls: nat)
    ensures var d, d' := Nominal(cfg, Attempt(calls)), Nominal(cfg, Attempt(calls + 1));
            d <= d' <= cfg.max && (d' == 2 * d || d' == cfg.max)
  {
    hide Nominal;
    var p := Pow2(calls);
    assert Pow2(calls + 1) == 2 * p;
    NominalExact(cfg, calls);
    NominalExact(cfg, calls + 1);
    Doubled(cfg.initial, p);
  }

  /** Under such a cap no delay exceeds the next nominal one. */
  lemma DelayWithinNext(cfg: Config, calls: nat, nanos: nat)
    requires cfg.max < 30 || cfg.max == MAX_U64
    requires Nominal(cfg, Attempt(calls)) >= 10
    ensures Jittered(Nominal(cfg, Attempt(calls)), nanos) <= Nominal(cfg, Attempt(calls + 1))
  {
    var d := Nominal(cfg, Attempt(calls));
    NominalGrows(cfg, calls);
    JitterBound(d, nanos);
    if d < 30 {
      SmallDelaysOnlyShrink(d, nanos);
    }
  }

  /** Ready means exactly: never called since the last reset, or the exact doubling, capped, has
      passed since. */
  lemma ReadyIff(cfg: Config, calls: nat, last: Option<nat>, now: nat)
    ensures Ready(cfg, Attempt(calls), last, now)
            <==> (last.Some? ==> Elapsed(now, last.value) >= Min(cfg.initial * Pow2(calls), cfg.max) * 1_000_000)
  {
    hide Nominal, Pow2;
    NominalExact(cfg, calls);
  }

  /** The call after `calls` others is reached: none of them, itself included, divides by zero. */
  ghost predicate Reached(cfg: Config, calls: nat) {
    forall k: nat :: k <= calls ==> Nominal(cfg, Attempt(k)) >= 10
  }

  lemma ReachedIff(cfg: Config, calls: nat)
    ensures Reached(cfg, calls) <==> cfg.initial >= 10 && cfg.max >= 10
  {
    NeverDividesByZeroIff(cfg);
    NominalExact(cfg, 0);
    assert Pow2(0) == 1;
    if Reached(cfg, calls) {
      assert Nominal(cfg, Attempt(0)) >= 10;
    }
  }

  /** After every call that can be reached, whatever the clock says, "ready" means that the delay
      it returned has been waited. */
  ghost predicate ReadyMeansWaited(cfg: Config) {
    forall calls: nat, nanos: nat, last: nat, now: nat ::
      Reached(cfg, calls) && Ready(cfg, Attempt(calls + 1), Some(last), now) ==>
        var r := Returned(cfg, Attempt(calls), nanos);
        r.Some? && Elapsed(now, last) >= r.value * NANOS_PER_MS
  }

  /** It holds exactly for caps below 30 ms, for the largest cap, and where the first call
      already divides by zero. */
  lemma ReadyMeansWaitedIff(cfg: Config)
    ensures ReadyMeansWaited(cfg) <==> cfg.initial < 10 || cfg.max < 30 || cfg.max == MAX_U64
  {
    hide Nominal, Jittered, Reached, Attempt;
    if cfg.initial < 10 || cfg.max < 30 || cfg.max == MAX_U64 {
      forall calls: nat, nanos: nat, last: nat, now: nat
        | Reached(cfg, calls) && Ready(cfg, Attempt(calls + 1), Some(last), now)
        ensures var r := Returned(cfg, Attempt(calls), nanos);
                r.Some? && Elapsed(now, last) >= r.value * NANOS_PER_MS
      {
        ReachedIff(cfg, calls);
        ReachedReturns(cfg, calls);
        DelayWithinNext(cfg, calls, nanos);
      }
    } else {
      EarlyReady(cfg);
    }
  }

  lemma ReachedReturns(cfg: Config, calls: nat)
    requires Reached(cfg, calls)
    ensures Nominal(cfg, Attempt(calls)) >= 10
  {
  }

  /** Once the cap is reached, waiting for the cap is ready, and some delay asked for more. */
  lemma EarlyReady(cfg: Config)
    requires cfg.initial >= 10 && 30 <= cfg.max < MAX_U64
    ensures !ReadyMeansWaited(cfg)
  {
    hide Nominal, Jittered, Reached, Attempt, Pow2;
    Pow2Of64();
    TimesMonotone(1, cfg.initial, Pow2(64));
    ReachedIff(cfg, 64);
    CappedReadyMayBeEarly(cfg, 64);
    var d' := Nominal(cfg, Attempt(64 + 1));
    var nanos :| Jittered(cfg.max, nanos) > d';
    var now := d' * NANOS_PER_MS;
    assert Ready(cfg, Attempt(64 + 1), Some(0), now);
    assert Returned(cfg, Attempt(64), nanos) == Some(Jittered(cfg.max, nanos));
  }
}

/** The fixed-window rate limiter: a 32-bit counter, restarted once a second. */
module FixedWindow {
  import opened Prelude

  /** Time stamps count nanoseconds. */
  const SECOND: nat := 1_000_000_000

  datatype State = State(count: U32, lastReset: nat)

  function Restarted(s: State, now: nat): State {
    if Elapsed(now, s.lastReset) >= SECOND then State(0, now) else s
  }

  function Allows(max: U32, s: State, now: nat): bool {
    Restarted(s, now).count < max
  }

  datatype Event = Call(now: nat) | Reset(now: nat)

  function Next(s: State, e: Event): State {
    match e
    case Call(now) =>
      var r := Restarted(s, now);
      r.(count := (r.count + 1) % U32_SPAN)
    case Reset(now) => State(0, now)
  }

  class RateLimiter {
    const maxPerSecond: U32
    var messageCount: U32
    var lastReset: nat

    ghost function Model(): State
      reads this
    {
      State(messageCount, lastReset)
    }

    constructor (maxPerSecond: U32, now: nat)
      ensures this.maxPerSecond == maxPerSecond && Model() == State(0, now)
    {
      this.maxPerSecond := maxPerSecond;
      messageCount, lastReset := 0, now;
    }

    method AllowMessage(now: nat) returns (ok: bool)
      modifies this
      ensures ok == Allows(maxPerSecond, old(Model()), now)
      ensures Model() == Next(old(Model()), Call(now))
    {
      if Elapsed(now, lastReset) >= SECOND {
        messageCount := 0;
        lastReset := now;
      }
      var currentCount := messageCount;
      messageCount := (messageCount + 1) % U32_SPAN;
      return currentCount < maxPerSecond;
    }

    method Reset(now: nat)
      modifies this
      ensures Model() == Next(old(Model()), Event.Reset(now))
    {
      messageCount, lastReset := 0, now;
    }
  }

  // ----- runs -----

  /** The state after the events `es`, the limiter having been created at `start`. */
  function Run(start: nat, es: seq<Event>): State {
    if es == [] then State(0, start) else Next(Run(start, es[..|es| - 1]), es[|es| - 1])
  }

  function Last(start: nat, es: seq<Event>): nat {
    if es == [] then start else es[|es| - 1].now
  }

  ghost predicate InOrder(start: nat, es: seq<Event>) {
    forall i :: 0 <= i < |es| ==> Last(start, es[..i]) <= es[i].now
  }

  function Opens(s: State, now: nat): bool {
    Elapsed(now, s.lastReset) >= SECOND
  }

  /** How many calls the current counter window has seen, without wrapping. */
  function WindowCalls(start: nat, es: seq<Event>): nat {
    if es == [] then 0 else
      var front, e := es[..|es| - 1], es[|es| - 1];
      if e.Reset? then 0
      else if Opens(Run(start, front), e.now) then 1
      else WindowCalls(start, front) + 1
  }

  /** How many calls at times from `a` to `b` are accepted. */
  function Accepts(max: U32, start: nat, es: seq<Event>, a: nat, b: nat): nat {
    if es == [] then 0 else
      var front, e := es[..|es| - 1], es[|es| - 1];
      Accepts(max, start, front, a, b)
      + (if e.Call? && a <= e.now <= b && Allows(max, Run(start, front), e.now) then 1 else 0)
  }

  /** The event gives the counter a fresh start other than by a second having passed: a reset, or
      a call that finds the counter wrapped around to 0. */
  function Refreshes(s: State, calls: nat, e: Event): bool {
    e.Reset? || (!Opens(s, e.now) && calls > 0 && calls % U32_SPAN == 0)
  }

  /** How many such fresh starts fall at times from `a` to `b`. */
  function FreshStarts(start: nat, es: seq<Event>, a: nat, b: nat): nat {
    if es == [] then 0 else
      var front, e := es[..|es| - 1], es[|es| - 1];
      FreshStarts(start, front, a, b)
      + (if a <= e.now <= b && Refreshes(Run(start, front), WindowCalls(start, front), e) then 1 else 0)
  }

  /** Calls since the counter last started from 0. */
  function Lap(calls: nat): nat {
    if calls == 0 then 0 else (calls - 1) % U32_SPAN + 1
  }

  lemma LapGrows(calls: nat)
    ensures Lap(calls + 1) == calls % U32_SPAN + 1
    ensures Lap(calls + 1) == if calls > 0 && calls % U32_SPAN == 0 then 1 else Lap(calls) + 1
    ensures (calls + 1) % U32_SPAN == (calls % U32_SPAN + 1) % U32_SPAN
  {
    var q, r := calls / U32_SPAN, calls % U32_SPAN;
    assert calls == q * U32_SPAN + r;
    if r > 0 {
      assert (calls - 1) % U32_SPAN == r - 1;
    } else if calls > 0 {
      assert calls - 1 == (q - 1) * U32_SPAN + (U32_SPAN - 1);
    }
  }

  /** What the closed second from `a` has let through, `n`, after `k` fresh starts within it:
      up to the limit for each window it has met, and for each fresh start. */
  ghost predicate BurstInv(max: U32, s: State, calls: nat, k: nat, n: nat, a: nat, last: nat) {
    && s.count == calls % U32_SPAN
    && s.lastReset <= last
    && (calls > 0 ==> last < s.lastReset + SECOND)
    && (last < a ==> n == 0 && k == 0)
    && n <= (2 + k) * max
    && (last <= a + SECOND ==> n <= (1 + k) * max + Min(Lap(calls), max))
    && (last <= a + SECOND && s.lastReset <= a ==> n <= k * max + Min(Lap(calls), max))
  }

  lemma BurstStep(max: U32, s: State, calls: nat, k: nat, n: nat, a: nat, last: nat, e: Event)
    requires BurstInv(max, s, calls, k, n, a, last) && last <= e.now
    ensures var within := a <= e.now <= a + SECOND;
            var calls' := if e.Reset? then 0 else if Opens(s, e.now) then 1 else calls + 1;
            var k' := k + (if within && Refreshes(s, calls, e) then 1 else 0);
            var n' := n + (if e.Call? && within && Allows(max, s, e.now) then 1 else 0);
            BurstInv(max, Next(s, e), calls', k', n', a, e.now)
  {
    OneMoreTimes(k, max);
    OneMoreTimes(k + 1, max);
    OneMoreTimes(k + 2, max);
    LapGrows(calls);
  }

  lemma FrontInOrder(start: nat, es: seq<Event>)
    requires InOrder(start, es) && es != []
    ensures InOrder(start, es[..|es| - 1])
    ensures Last(start, es[..|es| - 1]) <= es[|es| - 1].now == Last(start, es)
  {
    var front := es[..|es| - 1];
    assert forall i :: 0 <= i < |front| ==> front[..i] == es[..i];
  }

  /** That invariant, of a run. */
  ghost predicate RunBurst(max: U32, start: nat, es: seq<Event>, a: nat) {
    BurstInv(max, Run(start, es), WindowCalls(start, es), FreshStarts(start, es, a, a + SECOND),
             Accepts(max, start, es, a, a + SECOND), a, Last(start, es))
  }

  lemma RunBurstStep(max: U32, start: nat, es: seq<Event>, a: nat)
    requires es != [] && RunBurst(max, start, es[..|es| - 1], a)
    requires Last(start, es[..|es| - 1]) <= es[|es| - 1].now
    ensures RunBurst(max, start, es, a)
  {
    var front, e := es[..|es| - 1], es[|es| - 1];
    var s, calls := Run(start, front), WindowCalls(start, front);
    hide BurstInv, Allows, Refreshes, Next, Opens;
    BurstStep(max, s, calls, FreshStarts(start, front, a, a + SECOND),
              Accepts(max, start, front, a, a + SECOND), a, Last(start, front), e);
  }

  lemma {:induction false} BurstHolds(max: U32, start: nat, es: seq<Event>, a: nat)
    requires InOrder(start, es)
    ensures RunBurst(max, start, es, a)
  {
    if es == [] {
    } else {
      hide RunBurst, Last, InOrder;
      FrontInOrder(start, es);
      BurstHolds(max, start, es[..|es| - 1], a);
      RunBurstStep(max, start, es, a);
    }
  }

  /** Any closed second holds at most twice the limit, because it can meet at most two counter
      windows, and once more the limit for each reset or wrap-around within it. */
  lemma BurstBound(max: U32, start: nat, es: seq<Event>, a: nat)
    requires InOrder(start, es)
    ensures Accepts(max, start, es, a, a + SECOND) <= (2 + FreshStarts(start, es, a, a + SECOND)) * max
  {
    BurstHolds(max, start, es, a);
  }

  /** The last instant of the first counter window. */
  const LATE: nat := SECOND - 1

  function Copies(n: nat, t: nat): seq<Event> {
    seq(n, i => Call(t))
  }

  /** Calls late in the first window, then calls at the start of the second. */
  function TwoBursts(m: nat, n: nat): seq<Event> {
    Copies(m, LATE) + Copies(n, SECOND)
  }

  lemma TwoBurstsSnoc(m: nat, n: nat)
    requires m + n > 0
    ensures var es := TwoBursts(m, n);
            && es != [] && es[|es| - 1] == Call(if n > 0 then SECOND else LATE)
            && es[..|es| - 1] == (if n > 0 then TwoBursts(m, n - 1) else TwoBursts(m - 1, 0))
            && Last(0, es[..|es| - 1]) <= es[|es| - 1].now
  {
    var es := TwoBursts(m, n);
    assert es[..m + n - 1] == if n > 0 then TwoBursts(m, n - 1) else TwoBursts(m - 1, 0);
  }

  /** So far `n` accepts in the closed second from `LATE`, without a reset or a wrap-around. */
  ghost predicate Sent(max: U32, es: seq<Event>, s: State, n: nat) {
    && Run(0, es) == s && WindowCalls(0, es) == s.count && InOrder(0, es)
    && Accepts(max, 0, es, LATE, LATE + SECOND) == n
    && FreshStarts(0, es, LATE, LATE + SECOND) == 0
  }

  /** A call that the counter window still has room for, or that opens a new one. */
  lemma SentMore(max: U32, es: seq<Event>, s: State, n: nat)
    requires es != [] && es[|es| - 1].Call? && Sent(max, es[..|es| - 1], s, n)
    requires var now := es[|es| - 1].now;
             && Last(0, es[..|es| - 1]) <= now && LATE <= now <= LATE + SECOND && s.lastReset <= now
             && 0 < max && s.count <= max && (s.count < max || Opens(s, now))
    ensures var now := es[|es| - 1].now;
            Sent(max, es, if Opens(s, now) then State(1, now) else State(s.count + 1, s.lastReset), n + 1)
  {
    SentInOrder(es, es[..|es| - 1]);
    hide InOrder, Last;
  }

  lemma SentInOrder(es: seq<Event>, front: seq<Event>)
    requires es != [] && front == es[..|es| - 1] && InOrder(0, front) && Last(0, front) <= es[|es| - 1].now
    ensures InOrder(0, es)
  {
    assert forall i :: 0 <= i < |front| ==> front[..i] == es[..i];
  }

  lemma {:induction false} FirstBurst(max: U32, m: nat)
    requires m <= max
    ensures Sent(max, TwoBursts(m, 0), State(m, 0), m)
  {
    if m == 0 {
    } else {
      hide TwoBursts, Sent;
      FirstBurst(max, m - 1);
      TwoBurstsSnoc(m, 0);
      SentMore(max, TwoBursts(m, 0), State(m - 1, 0), m - 1);
    }
  }

  lemma OpensAtSecond(m: U32, n: U32)
    ensures Opens(State(m, 0), SECOND) && !Opens(State(n, SECOND), SECOND)
  {
  }

  lemma WindowOpens(max: U32)
    requires 0 < max
    ensures Sent(max, TwoBursts(max, 1), State(1, SECOND), max + 1)
  {
    hide TwoBursts, Sent, Last, Opens;
    FirstBurst(max, max);
    TwoBurstsSnoc(max, 1);
    OpensAtSecond(max, 1);
    SentMore(max, TwoBursts(max, 1), State(max, 0), max);
  }

  lemma {:induction false} SecondBurst(max: U32, n: U32)
    requires 1 <= n <= max
    ensures Sent(max, TwoBursts(max, n), State(n, SECOND), max + n)
  {
    if n == 1 {
      WindowOpens(max);
    } else {
      hide TwoBursts, Sent, Last, Opens;
      SecondBurst(max, n - 1);
      TwoBurstsSnoc(max, n);
      OpensAtSecond(max, n - 1);
      SentMore(max, TwoBursts(max, n), State(n - 1, SECOND), max + n - 1);
    }
  }

  /** The factor two is reached without any reset or wrap-around, for every limit. */
  lemma BurstBoundIsTight(max: U32)
    ensures exists es ::
              && InOrder(0, es) && FreshStarts(0, es, LATE, LATE + SECOND) == 0
              && Accepts(max, 0, es, LATE, LATE + SECOND) == 2 * max
  {
    hide Accepts, FreshStarts, InOrder;
    if max == 0 {
      FirstBurst(max, 0);
      assert InOrder(0, TwoBursts(0, 0));
    } else {
      SecondBurst(max, max);
      assert InOrder(0, TwoBursts(max, max));
    }
  }

  /** A reset forgets everything: the limiter goes on as one created at that moment. */
  lemma {:induction false} ResetStartsAfresh(start: nat, before: seq<Event>, now: nat, es: seq<Event>)
    ensures Run(start, before + [Reset(now)] + es) == Run(now, es)
  {
    var all := before + [Reset(now)] + es;
    if es == [] {
      assert all[..|all| - 1] == before;
    } else {
      assert all[..|all| - 1] == before + [Reset(now)] + es[..|es| - 1];
      ResetStartsAfresh(start, before, now, es[..|es| - 1]);
    }
  }

  /** Only calls, all in the second after `start`. */
  ghost predicate OneWindow(start: nat, es: seq<Event>) {
    forall i :: 0 <= i < |es| ==> es[i].Call? && start <= es[i].now < start + SECOND
  }

  /** Inside one counter window the wrapping counter lets the limit through once per 2^32 calls. */
  lemma {:induction false} OneWindowAccepts(max: U32, start: nat, es: seq<Event>)
    requires OneWindow(start, es)
    ensures Run(start, es) == State(|es| % U32_SPAN, start)
    ensures Accepts(max, start, es, start, start + SECOND)
            == |es| / U32_SPAN * max + Min(|es| % U32_SPAN, max)
  {
    if es == [] {
    } else {
      hide Min;
      OneWindowAccepts(max, start, es[..|es| - 1]);
      WrapStep(max, |es| - 1);
    }
  }

  lemma WrapStep(max: U32, n: nat)
    ensures (n + 1) % U32_SPAN == (n % U32_SPAN + 1) % U32_SPAN
    ensures (n + 1) / U32_SPAN * max + Min((n + 1) % U32_SPAN, max)
            == n / U32_SPAN * max + Min(n % U32_SPAN, max) + (if n % U32_SPAN < max then 1 else 0)
  {
    var q, r := n / U32_SPAN, n % U32_SPAN;
    if r + 1 == U32_SPAN {
      assert n + 1 == (q + 1) * U32_SPAN;
      assert (q + 1) * max == q * max + max;
    } else {
      assert (n + 1) / U32_SPAN == q && (n + 1) % U32_SPAN == r + 1;
    }
  }

  /** So the per-window limit holds exactly up to 2^32 calls. */
  lemma WindowLimitIff(max: U32, start: nat, es: seq<Event>)
    requires OneWindow(start, es)
    ensures Accepts(max, start, es, start, start + SECOND) <= max <==> max == 0 || |es| <= U32_SPAN
  {
    OneWindowAccepts(max, start, es);
    Laps(|es| / U32_SPAN, |es| % U32_SPAN, max);
  }

  /** After `q` full laps of the counter and `r` more calls. */
  lemma Laps(q: nat, r: nat, max: nat)
    ensures q * max + Min(r, max) <= max <==> max == 0 || q == 0 || (q == 1 && r == 0)
  {
    if q >= 2 {
      assert q * max == 2 * max + (q - 2) * max;
    }
  }
}
