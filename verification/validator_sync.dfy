/** Latency tracking, retries and broadcast totals of the validator links. */
module ValidatorSync {
  import opened Prelude
  import Backoff

  /** The moving average in integer arithmetic; 0 means "no sample yet". */
  function Smoothed(latency: nat, sample: nat): nat {
    if latency == 0 then sample else (latency * 70 + sample * 30) / 100
  }

  class PeerInfo {
    var messagesSent: nat
    var bytesSent: nat
    var lastSeen: nat
    var latency: nat

    constructor (now: nat)
      ensures messagesSent == bytesSent == latency == 0 && lastSeen == now
    {
      messagesSent, bytesSent, latency, lastSeen := 0, 0, 0, now;
    }

    method RecordSent(now: nat, bytes: nat, sample: nat)
      modifies this
      ensures messagesSent == old(messagesSent) + 1 && bytesSent == old(bytesSent) + bytes && lastSeen == now
      ensures latency == Smoothed(old(latency), sample)
    {
      messagesSent := messagesSent + 1;
      bytesSent := bytesSent + bytes;
      lastSeen := now;
      if latency == 0 {
        latency := sample;
      } else {
        latency := (latency * 70 + sample * 30) / 100;
      }
    }
  }

  /** The latency after the given samples, starting from `start`. */
  function After(start: nat, samples: seq<nat>): nat {
    if samples == [] then start else Smoothed(After(start, samples[..|samples| - 1]), samples[|samples| - 1])
  }

  /** From a fresh peer, the latency never leaves the range of the samples. */
  lemma {:induction false} LatencyInRange(samples: seq<nat>, lo: nat, hi: nat)
    requires samples != [] && forall i :: 0 <= i < |samples| ==> lo <= samples[i] <= hi
    ensures lo <= After(0, samples) <= hi
  {
    if |samples| == 1 {
      assert samples[..0] == [];
    } else {
      LatencyInRange(samples[..|samples| - 1], lo, hi);
    }
  }

  /** The values a constant sample leaves alone: rounding down stops up to 3 short of it. */
  lemma FixedPointIff(latency: nat, x: nat)
    ensures Smoothed(latency, x) == latency <==> x - 3 <= latency <= x && (latency > 0 || x == 0)
  {
  }

  function Gap(latency: nat, x: nat): nat {
    if latency <= x then x - latency else latency - x
  }

  /** Under a constant sample each step closes three tenths of the gap, up to rounding. */
  lemma GapShrinks(latency: nat, x: nat)
    ensures var l := Smoothed(latency, x);
            && 10 * Gap(l, x) <= 7 * Gap(latency, x) + 9
            && (x - 3 <= latency <= x ==> x - 3 <= l <= x)
            && (!(x - 3 <= latency <= x) ==> Gap(l, x) < Gap(latency, x))
            && (latency >= x ==> l >= x)
  {
  }

  /** From the first sample on, seven tenths of the signed gap remain, rounded up; neither slower
      nor faster. */
  lemma GapExact(latency: nat, x: nat)
    requires latency > 0
    ensures 7 * (x - latency) <= 10 * (x - Smoothed(latency, x)) < 7 * (x - latency) + 10
  {
  }

  /** A constant sample brings the latency to within 3 below it, in at most as many steps as the
      gap, and keeps it there. */
  lemma {:induction false} Converges(start: nat, x: nat, samples: seq<nat>)
    requires forall i :: 0 <= i < |samples| ==> samples[i] == x
    requires |samples| >= Gap(start, x)
    ensures x - 3 <= After(start, samples) <= x
  {
    Approaches(start, x, samples);
  }

  lemma {:induction false} Approaches(start: nat, x: nat, samples: seq<nat>)
    requires forall i :: 0 <= i < |samples| ==> samples[i] == x
    ensures var l := After(start, samples);
            x - 3 <= l <= x || Gap(l, x) + |samples| <= Gap(start, x)
  {
    if samples == [] {
    } else {
      Approaches(start, x, samples[..|samples| - 1]);
      GapShrinks(After(start, samples[..|samples| - 1]), x);
    }
  }

  // ----- sending with retries -----

  const BACKOFF_CAP: nat := 5_000_000_000

  /** The pause after failed attempt `i`: doubling, capped at five seconds from the second on. */
  function Pause(first: nat, i: nat): nat {
    if i == 0 then first else Min(first * Backoff.Pow2(i), BACKOFF_CAP)
  }

  lemma PauseDoubles(first: nat, i: nat)
    ensures Min(2 * Pause(first, i), BACKOFF_CAP) == Pause(first, i + 1)
  {
    assert Backoff.Pow2(0) == 1;
    assert Backoff.Pow2(i + 1) == 2 * Backoff.Pow2(i);
    assert first * (2 * Backoff.Pow2(i)) == 2 * (first * Backoff.Pow2(i));
  }

  /** Tries until an attempt succeeds; `attempts[i]` is what attempt `i` would send, if it succeeds. */
  method SendWithRetry(attempts: seq<Option<nat>>, firstPause: nat)
    returns (sent: Option<nat>, failures: nat, pauses: seq<nat>)
    ensures failures <= |attempts| && forall i :: 0 <= i < failures ==> attempts[i].None?
    ensures if failures < |attempts| then sent.Some? && sent == attempts[failures] else sent == None
    ensures |pauses| == if failures < |attempts| || failures == 0 then failures else failures - 1
    ensures forall i :: 0 <= i < |pauses| ==> pauses[i] == Pause(firstPause, i)
    ensures pauses != [] ==> pauses[0] == firstPause
    ensures forall i :: 0 < i < |pauses| ==> pauses[i] == Min(2 * pauses[i - 1], 5_000_000_000)
  {
    sent, failures, pauses := None, 0, [];
    var backoff := firstPause;
    for attempt := 0 to |attempts|
      invariant failures == attempt && forall i :: 0 <= i < attempt ==> attempts[i].None?
      invariant |pauses| == if attempt < |attempts| || attempt == 0 then attempt else attempt - 1
      invariant attempt < |attempts| ==> backoff == Pause(firstPause, attempt)
      invariant forall i :: 0 <= i < |pauses| ==> pauses[i] == Pause(firstPause, i)
      invariant pauses != [] ==> pauses[0] == firstPause
      invariant forall i :: 0 < i < |pauses| ==> pauses[i] == Min(2 * pauses[i - 1], 5_000_000_000)
      invariant pauses != [] && attempt < |attempts| ==> backoff == Min(2 * pauses[|pauses| - 1], 5_000_000_000)
    {
      if attempts[attempt].Some? {
        return attempts[attempt], failures, pauses;
      }
      failures := failures + 1;
      if attempt < |attempts| - 1 {
        pauses := pauses + [backoff];
        PauseDoubles(firstPause, attempt);
        backoff := Min(2 * backoff, BACKOFF_CAP);
      }
    }
  }

  // ----- broadcast totals -----

  datatype Totals = Totals(successful: nat, failed: nat, average: nat, least: nat, greatest: nat, bytes: nat)

  datatype Receipt = Receipt(latency: nat, bytes: nat)

  function Receipts(outcomes: seq<Option<Receipt>>): seq<Receipt> {
    if outcomes == [] then [] else
      var last := outcomes[|outcomes| - 1];
      Receipts(outcomes[..|outcomes| - 1]) + (if last.Some? then [last.value] else [])
  }

  function SumLatency(rs: seq<Receipt>): nat {
    if rs == [] then 0 else SumLatency(rs[..|rs| - 1]) + rs[|rs| - 1].latency
  }

  function SumBytes(rs: seq<Receipt>): nat {
    if rs == [] then 0 else SumBytes(rs[..|rs| - 1]) + rs[|rs| - 1].bytes
  }

  /** What is reported of the latencies: their mean rounded down, the greatest, and the least, or 0
      if every latency is 2^64-1; and zeros when there are none. */
  ghost predicate LatenciesReported(rs: seq<Receipt>, least: nat, average: nat, greatest: nat) {
    && (rs != [] ==> average == SumLatency(rs) / |rs|)
    && (forall i :: 0 <= i < |rs| ==> least <= rs[i].latency <= greatest)
    && (rs != [] ==> least <= average <= greatest)
    && (rs != [] ==> (exists i :: 0 <= i < |rs| && rs[i].latency == greatest))
    && ((exists i :: 0 <= i < |rs| && rs[i].latency < U64_SPAN - 1) ==>
          exists i :: 0 <= i < |rs| && rs[i].latency == least)
    && ((forall i :: 0 <= i < |rs| ==> rs[i].latency == U64_SPAN - 1) ==> least == 0)
    && (rs == [] ==> average == least == greatest == 0)
  }

  /** Gathers the outcomes of a broadcast; a least latency of 2^64-1 is reported as 0. */
  method Aggregate(outcomes: seq<Option<Receipt>>) returns (t: Totals)
    requires forall i :: 0 <= i < |outcomes| && outcomes[i].Some? ==> outcomes[i].value.latency < U64_SPAN
    ensures var rs := Receipts(outcomes);
            && t.successful == |rs| && t.successful + t.failed == |outcomes|
            && t.bytes == SumBytes(rs)
            && LatenciesReported(rs, t.least, t.average, t.greatest)
  {
    var successful: nat, failed: nat, total: nat, bytes: nat := 0, 0, 0, 0;
    var least: nat, greatest: nat := U64_SPAN - 1, 0;
    ghost var rs: seq<Receipt> := [];
    for i := 0 to |outcomes|
      invariant rs == Receipts(outcomes[..i])
      invariant successful == |rs| && successful + failed == i
      invariant total == SumLatency(rs) && bytes == SumBytes(rs)
      invariant Extremes(rs, least, greatest)
    {
      ReceiptsStep(outcomes, i);
      hide Extremes, Receipts, SumLatency, SumBytes;
      match outcomes[i]
      case Some(r) =>
        ExtremesSnoc(rs, least, greatest, r);
        SumsSnoc(rs, r);
        successful := successful + 1;
        total := total + r.latency;
        least := Min(least, r.latency);
        greatest := Max(greatest, r.latency);
        bytes := bytes + r.bytes;
        rs := rs + [r];
      case None =>
        failed := failed + 1;
    }
    assert outcomes[..|outcomes|] == outcomes;
    var average := if successful > 0 then total / successful else 0;
    hide Extremes, Receipts, SumLatency, SumBytes, LatenciesReported;
    Summary(rs, least, greatest);
    t := Totals(successful, failed, average, if least == U64_SPAN - 1 then 0 else least, greatest, bytes);
  }

  lemma ReceiptsStep(outcomes: seq<Option<Receipt>>, i: nat)
    requires i < |outcomes|
    ensures Receipts([]) == []
    ensures Receipts(outcomes[..i + 1])
            == Receipts(outcomes[..i]) + (if outcomes[i].Some? then [outcomes[i].value] else [])
  {
    assert outcomes[..i + 1][..i] == outcomes[..i];
  }

  lemma SumsSnoc(rs: seq<Receipt>, r: Receipt)
    ensures SumLatency(rs + [r]) == SumLatency(rs) + r.latency && SumBytes(rs + [r]) == SumBytes(rs) + r.bytes
  {
    assert (rs + [r])[..|rs|] == rs;
  }

  lemma Summary(rs: seq<Receipt>, least: nat, greatest: nat)
    requires Extremes(rs, least, greatest)
    ensures LatenciesReported(rs, if least == U64_SPAN - 1 then 0 else least,
                              if rs == [] then 0 else SumLatency(rs) / |rs|, greatest)
  {
    hide SumLatency;
    if rs != [] {
      SumBetween(rs, least, greatest);
      Quotient(SumLatency(rs), |rs|, least, greatest);
    }
  }

  /** The least and the greatest latency, or the starting values when there is none. */
  ghost predicate Extremes(rs: seq<Receipt>, least: nat, greatest: nat) {
    && least < U64_SPAN
    && (rs == [] ==> least == U64_SPAN - 1 && greatest == 0)
    && (forall j :: 0 <= j < |rs| ==> least <= rs[j].latency <= greatest)
    && (rs != [] ==> exists j :: 0 <= j < |rs| && rs[j].latency == greatest)
    && (rs != [] ==> exists j :: 0 <= j < |rs| && rs[j].latency == least)
  }

  lemma ExtremesSnoc(rs: seq<Receipt>, least: nat, greatest: nat, r: Receipt)
    requires Extremes(rs, least, greatest) && r.latency < U64_SPAN
    ensures Extremes(rs + [r], Min(least, r.latency), Max(greatest, r.latency))
  {
    var all := rs + [r];
    assert all[|rs|] == r && forall j :: 0 <= j < |rs| ==> all[j] == rs[j];
    if rs != [] {
      var g :| 0 <= g < |rs| && rs[g].latency == greatest;
      var l :| 0 <= l < |rs| && rs[l].latency == least;
      assert all[g].latency == greatest && all[l].latency == least;
    }
  }

  lemma {:induction false} SumBetween(rs: seq<Receipt>, lo: nat, hi: nat)
    requires forall i :: 0 <= i < |rs| ==> lo <= rs[i].latency <= hi
    ensures |rs| * lo <= SumLatency(rs) <= |rs| * hi
  {
    if rs == [] {
    } else {
      SumBetween(rs[..|rs| - 1], lo, hi);
      OneMoreTimes(|rs| - 1, lo);
      OneMoreTimes(|rs| - 1, hi);
    }
  }

  lemma Quotient(total: nat, n: nat, lo: nat, hi: nat)
    requires n > 0 && n * lo <= total <= n * hi
    ensures lo <= total / n <= hi
  {
    var q := total / n;
    assert q < lo ==> (q + 1) * n <= lo * n;
    assert q > hi ==> q * n >= (hi + 1) * n;
  }
}
