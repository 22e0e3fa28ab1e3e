/** The sliding-window rate limiter: a queue of accepted time stamps per peer. */
module SlidingLimiter {
  import opened Prelude

  type Peer = nat

  datatype Config = Config(limit: nat, window: nat)

  type Queues = map<Peer, seq<nat>>

  datatype Event = Check(peer: Peer, now: nat) | ClearPeer(peer: Peer) | ClearAll

  function QueueOf(qs: Queues, p: Peer): seq<nat> {
    if p in qs then qs[p] else []
  }

  function DropOld(q: seq<nat>, now: nat, window: nat): seq<nat> {
    if q != [] && Elapsed(now, q[0]) > window then DropOld(q[1..], now, window) else q
  }

  function Allowed(cfg: Config, qs: Queues, p: Peer, now: nat): bool {
    |DropOld(QueueOf(qs, p), now, cfg.window)| < cfg.limit
  }

  function Next(cfg: Config, qs: Queues, e: Event): Queues {
    match e
    case Check(p, now) =>
      var q := DropOld(QueueOf(qs, p), now, cfg.window);
      qs[p := if Allowed(cfg, qs, p, now) then q + [now] else q]
    case ClearPeer(p) => qs - {p}
    case ClearAll => map[]
  }

  class RateLimiter {
    const cfg: Config
    var peerMessages: Queues

    constructor (limit: nat, window: nat)
      ensures cfg == Config(limit, window) && peerMessages == map[]
    {
      cfg := Config(limit, window);
      peerMessages := map[];
    }

    method CheckRateLimit(p: Peer, now: nat) returns (ok: bool)
      modifies this
      ensures ok == Allowed(cfg, old(peerMessages), p, now)
      ensures peerMessages == Next(cfg, old(peerMessages), Check(p, now))
    {
      var entry := if p in peerMessages then peerMessages[p] else [];
      while entry != [] && Elapsed(now, entry[0]) > cfg.window
        invariant DropOld(entry, now, cfg.window) == DropOld(QueueOf(old(peerMessages), p), now, cfg.window)
        decreases |entry|
      {
        entry := entry[1..];
      }
      if |entry| >= cfg.limit {
        peerMessages := peerMessages[p := entry];
        return false;
      }
      peerMessages := peerMessages[p := entry + [now]];
      return true;
    }

    method ForgetPeer(p: Peer)
      modifies this
      ensures peerMessages == Next(cfg, old(peerMessages), ClearPeer(p))
    {
      peerMessages := peerMessages - {p};
    }

    method ForgetAll()
      modifies this
      ensures peerMessages == Next(cfg, old(peerMessages), ClearAll)
    {
      peerMessages := map[];
    }
  }

  // ----- runs -----

  function Run(cfg: Config, es: seq<Event>): Queues {
    if es == [] then map[] else Next(cfg, Run(cfg, es[..|es| - 1]), es[|es| - 1])
  }

  /** The latest time at which anything was checked. */
  function Last(es: seq<Event>): nat {
    if es == [] then 0 else
      var e := es[|es| - 1];
      var t := Last(es[..|es| - 1]);
      if e.Check? then Max(t, e.now) else t
  }

  ghost predicate InOrder(es: seq<Event>) {
    forall i :: 0 <= i < |es| && es[i].Check? ==> Last(es[..i]) <= es[i].now
  }

  /** The times at which the limiter accepted a message from `p` since `p` was last cleared. */
  function Accepted(cfg: Config, es: seq<Event>, p: Peer): seq<nat> {
    if es == [] then [] else
      var front := es[..|es| - 1];
      match es[|es| - 1]
      case Check(q, now) =>
        if q == p && Allowed(cfg, Run(cfg, front), p, now) then Accepted(cfg, front, p) + [now]
        else Accepted(cfg, front, p)
      case ClearPeer(q) => if q == p then [] else Accepted(cfg, front, p)
      case ClearAll => []
  }

  /** How many of the times lie in the closed interval from `a` to `b`. */
  function Within(ts: seq<nat>, a: int, b: int): nat {
    if ts == [] then 0 else Within(ts[..|ts| - 1], a, b) + (if a <= ts[|ts| - 1] <= b then 1 else 0)
  }

  /** The limiter that forgets nothing: it counts accepted messages of age at most the window. */
  ghost predicate NaivelyAllowed(cfg: Config, accepted: seq<nat>, now: nat) {
    Within(accepted, now - cfg.window, now) < cfg.limit
  }

  lemma {:induction false} WithinAppend(a: seq<nat>, b: seq<nat>, lo: int, hi: int)
    ensures Within(a + b, lo, hi) == Within(a, lo, hi) + Within(b, lo, hi)
  {
    if b == [] {
      assert a + b == a;
    } else {
      assert (a + b)[..|a + b| - 1] == a + b[..|b| - 1];
      WithinAppend(a, b[..|b| - 1], lo, hi);
    }
  }

  lemma {:induction false} WithinAllOrNone(ts: seq<nat>, lo: int, hi: int)
    ensures (forall i :: 0 <= i < |ts| ==> lo <= ts[i] <= hi) ==> Within(ts, lo, hi) == |ts|
    ensures (forall i :: 0 <= i < |ts| ==> ts[i] < lo || hi < ts[i]) ==> Within(ts, lo, hi) == 0
  {
    if ts == [] {
    } else {
      WithinAllOrNone(ts[..|ts| - 1], lo, hi);
    }
  }

  /** `kept` is `q` without exactly the entries older than the window. */
  ghost predicate OldDropped(q: seq<nat>, kept: seq<nat>, now: nat, window: nat) {
    var k := |q| - |kept|;
    && 0 <= k && kept == q[k..]
    && (forall i :: 0 <= i < k ==> q[i] + window < now)
    && (forall i :: k <= i < |q| ==> now - window <= q[i] <= now)
  }

  lemma OldDroppedCons(q: seq<nat>, kept: seq<nat>, now: nat, window: nat)
    requires q != [] && q[0] + window < now && OldDropped(q[1..], kept, now, window)
    ensures OldDropped(q, kept, now, window)
  {
    var rest := q[1..];
    assert forall i :: 1 <= i < |q| ==> q[i] == rest[i - 1];
    assert q[|q| - |kept|..] == rest[|rest| - |kept|..];
  }

  /** Popping drops exactly the entries older than the window. */
  lemma {:induction false} DropOldExact(q: seq<nat>, now: nat, window: nat)
    requires Monotone(q) && (q == [] || q[|q| - 1] <= now)
    ensures OldDropped(q, DropOld(q, now, window), now, window)
  {
    if q == [] || Elapsed(now, q[0]) <= window {
    } else {
      hide OldDropped;
      DropOldExact(q[1..], now, window);
      OldDroppedCons(q, DropOld(q[1..], now, window), now, window);
    }
  }

  /** The queue is a suffix of the accepted times; what it has lost was already too old. */
  ghost predicate QueueInv(cfg: Config, accepted: seq<nat>, q: seq<nat>, last: nat) {
    var k := |accepted| - |q|;
    && Monotone(accepted) && (accepted == [] || accepted[|accepted| - 1] <= last)
    && 0 <= k && q == accepted[k..]
    && forall i :: 0 <= i < k ==> accepted[i] + cfg.window < last
  }

  lemma KeptQueue(cfg: Config, accepted: seq<nat>, q: seq<nat>, last: nat, now: nat)
    requires QueueInv(cfg, accepted, q, last) && last <= now
    ensures QueueInv(cfg, accepted, DropOld(q, now, cfg.window), now)
    ensures var kept := DropOld(q, now, cfg.window);
            forall i :: 0 <= i < |kept| ==> now - cfg.window <= kept[i] <= now
  {
    hide DropOld;
    SuffixInOrder(cfg, accepted, q, last);
    DropOldExact(q, now, cfg.window);
    KeptSuffix(cfg, accepted, q, last, DropOld(q, now, cfg.window), now);
  }

  lemma SuffixInOrder(cfg: Config, accepted: seq<nat>, q: seq<nat>, last: nat)
    requires QueueInv(cfg, accepted, q, last)
    ensures Monotone(q) && (q == [] || q[|q| - 1] <= last)
  {
  }

  lemma KeptSuffix(cfg: Config, accepted: seq<nat>, q: seq<nat>, last: nat, kept: seq<nat>, now: nat)
    requires QueueInv(cfg, accepted, q, last) && last <= now && OldDropped(q, kept, now, cfg.window)
    ensures QueueInv(cfg, accepted, kept, now)
    ensures forall i :: 0 <= i < |kept| ==> now - cfg.window <= kept[i] <= now
  {
    var k, m := |accepted| - |q|, |accepted| - |kept|;
    assert forall i :: k <= i < |accepted| ==> accepted[i] == q[i - k];
    assert forall i :: 0 <= i < |kept| ==> kept[i] == q[i + m - k];
  }

  /** With only young entries left, the length of the queue is the naive count. */
  lemma CountMatches(cfg: Config, accepted: seq<nat>, kept: seq<nat>, now: nat)
    requires QueueInv(cfg, accepted, kept, now)
    requires forall i :: 0 <= i < |kept| ==> now - cfg.window <= kept[i] <= now
    ensures |kept| < cfg.limit <==> NaivelyAllowed(cfg, accepted, now)
  {
    hide Within, QueueInv;
    var gone := Gone(cfg, accepted, kept, now);
    WithinAppend(gone, kept, now - cfg.window, now);
    WithinAllOrNone(gone, now - cfg.window, now);
    WithinAllOrNone(kept, now - cfg.window, now);
  }

  lemma Gone(cfg: Config, accepted: seq<nat>, kept: seq<nat>, now: nat) returns (gone: seq<nat>)
    requires QueueInv(cfg, accepted, kept, now)
    ensures accepted == gone + kept
    ensures forall i :: 0 <= i < |gone| ==> gone[i] < now - cfg.window
  {
    gone := accepted[..|accepted| - |kept|];
  }

  lemma PushedQueue(cfg: Config, accepted: seq<nat>, kept: seq<nat>, now: nat)
    requires QueueInv(cfg, accepted, kept, now)
    ensures QueueInv(cfg, accepted + [now], kept + [now], now)
  {
    var k := |accepted| - |kept|;
    assert (accepted + [now])[k..] == accepted[k..] + [now];
  }

  lemma {:induction false} RunQueue(cfg: Config, es: seq<Event>, p: Peer)
    requires InOrder(es)
    ensures QueueInv(cfg, Accepted(cfg, es, p), QueueOf(Run(cfg, es), p), Last(es))
  {
    if es == [] {
      assert QueueInv(cfg, [], [], 0);
    } else {
      hide QueueInv, DropOld, Next, QueueOf, Allowed, Last, InOrder;
      var front, e := es[..|es| - 1], es[|es| - 1];
      FrontInOrder(es);
      RunQueue(cfg, front, p);
      var accepted, q := Accepted(cfg, front, p), QueueOf(Run(cfg, front), p);
      QueueAfter(cfg, Run(cfg, front), e, p);
      match e
      case Check(peer, now) =>
        if peer == p {
          KeptQueue(cfg, accepted, q, Last(front), now);
          PushedQueue(cfg, accepted, DropOld(q, now, cfg.window), now);
        } else {
          LaterQueue(cfg, accepted, q, Last(front), now);
        }
      case _ => EmptyQueue(cfg, Last(front));
    }
  }

  lemma QueueAfter(cfg: Config, qs: Queues, e: Event, p: Peer)
    ensures var q, q' := QueueOf(qs, p), QueueOf(Next(cfg, qs, e), p);
            match e
            case Check(peer, now) =>
              var kept := DropOld(q, now, cfg.window);
              q' == if peer != p then q else if Allowed(cfg, qs, p, now) then kept + [now] else kept
            case ClearPeer(peer) => q' == if peer == p then [] else q
            case ClearAll => q' == []
  {
  }

  lemma FrontInOrder(es: seq<Event>)
    requires InOrder(es) && es != []
    ensures InOrder(es[..|es| - 1])
    ensures var last := Last(es[..|es| - 1]);
            if es[|es| - 1].Check? then last <= es[|es| - 1].now == Last(es) else last == Last(es)
  {
    var front := es[..|es| - 1];
    assert forall i :: 0 <= i < |front| ==> es[..i] == front[..i];
  }

  lemma LaterQueue(cfg: Config, accepted: seq<nat>, q: seq<nat>, last: nat, now: nat)
    requires QueueInv(cfg, accepted, q, last) && last <= now
    ensures QueueInv(cfg, accepted, q, now)
  {
  }

  lemma EmptyQueue(cfg: Config, last: nat)
    ensures QueueInv(cfg, [], [], last)
  {
  }

  /** The popping limiter decides exactly as the one that keeps its whole history. */
  lemma RefinesNaive(cfg: Config, es: seq<Event>, p: Peer, now: nat)
    requires InOrder(es) && Last(es) <= now
    ensures Allowed(cfg, Run(cfg, es), p, now) <==> NaivelyAllowed(cfg, Accepted(cfg, es, p), now)
  {
    var accepted, q := Accepted(cfg, es, p), QueueOf(Run(cfg, es), p);
    RunQueue(cfg, es, p);
    KeptQueue(cfg, accepted, q, Last(es), now);
    CountMatches(cfg, accepted, DropOld(q, now, cfg.window), now);
  }

  lemma WithinOne(t: nat, lo: int, hi: int)
    ensures Within([t], lo, hi) == if lo <= t <= hi then 1 else 0
    ensures Within([], lo, hi) == 0
  {
  }

  lemma {:induction false} WithinNarrower(ts: seq<nat>, lo: int, hi: int, lo': int, hi': int)
    requires lo' <= lo && (hi <= hi' || forall i :: 0 <= i < |ts| ==> ts[i] <= hi')
    ensures Within(ts, lo, hi) <= Within(ts, lo', hi')
  {
    if ts == [] {
    } else {
      WithinNarrower(ts[..|ts| - 1], lo, hi, lo', hi');
    }
  }

  lemma AcceptedBy(cfg: Config, es: seq<Event>, p: Peer)
    requires InOrder(es)
    ensures forall i :: 0 <= i < |Accepted(cfg, es, p)| ==> Accepted(cfg, es, p)[i] <= Last(es)
  {
    RunQueue(cfg, es, p);
  }

  lemma NaiveMeaning(cfg: Config, accepted: seq<nat>, now: nat)
    ensures NaivelyAllowed(cfg, accepted, now) <==> Within(accepted, now - cfg.window, now) < cfg.limit
  {
  }

  /** Any closed interval as long as the window holds at most `limit` accepts since a clear. */
  lemma {:induction false} WindowBound(cfg: Config, es: seq<Event>, p: Peer, a: nat)
    requires InOrder(es)
    ensures Within(Accepted(cfg, es, p), a, a + cfg.window) <= cfg.limit
  {
    WithinOne(0, a, a + cfg.window);
    if es == [] {
    } else {
      hide Within, Allowed, InOrder, Last, Run;
      var front, e := es[..|es| - 1], es[|es| - 1];
      FrontInOrder(es);
      WindowBound(cfg, front, p, a);
      if e.Check? && e.peer == p && Allowed(cfg, Run(cfg, front), p, e.now) {
        AcceptedWithin(cfg, front, p, a, e.now);
      }
    }
  }

  /** One more accept keeps to the limit. */
  lemma AcceptedWithin(cfg: Config, es: seq<Event>, p: Peer, a: nat, now: nat)
    requires InOrder(es) && Last(es) <= now && Allowed(cfg, Run(cfg, es), p, now)
    requires Within(Accepted(cfg, es, p), a, a + cfg.window) <= cfg.limit
    ensures Within(Accepted(cfg, es, p) + [now], a, a + cfg.window) <= cfg.limit
  {
    hide Within, Allowed, InOrder, Last, Run, Accepted, NaivelyAllowed;
    var ts := Accepted(cfg, es, p);
    RefinesNaive(cfg, es, p, now);
    WithinAppend(ts, [now], a, a + cfg.window);
    WithinOne(now, a, a + cfg.window);
    if a <= now <= a + cfg.window {
      AcceptedBy(cfg, es, p);
      NaiveMeaning(cfg, ts, now);
      WithinNarrower(ts, a, a + cfg.window, now - cfg.window, now);
    }
  }

  /** The events that concern `p`. */
  function Only(es: seq<Event>, p: Peer): seq<Event> {
    if es == [] then [] else
      var e := es[|es| - 1];
      Only(es[..|es| - 1], p) + (if e.ClearAll? || e.peer == p then [e] else [])
  }

  /** Other peers never matter: `p` is treated as if it were alone. */
  lemma {:induction false} PeersIndependent(cfg: Config, es: seq<Event>, p: Peer)
    ensures QueueOf(Run(cfg, es), p) == QueueOf(Run(cfg, Only(es, p)), p)
    ensures Accepted(cfg, es, p) == Accepted(cfg, Only(es, p), p)
  {
    if es == [] {
    } else {
      var front, e := es[..|es| - 1], es[|es| - 1];
      PeersIndependent(cfg, front, p);
      if e.ClearAll? || e.peer == p {
        assert Only(es, p)[..|Only(front, p)|] == Only(front, p);
      } else {
        assert Only(es, p) == Only(front, p);
      }
    }
  }
}

/** Reputation scores in saturating `u8` arithmetic. */
module Decay {
  import opened Prelude

  type U8 = x: int | 0 <= x < 256

  function SatAdd(a: U8, b: U8): U8 { Min(a + b, 255) }

  function SatSub(a: U8, b: U8): U8 { Max(a - b, 0) }

  function SatMul(a: U8, b: U8): U8 { if a * b < 256 then a * b else 255 }

  const NEUTRAL: U8 := 50

  /** The score after `hours` whole hours; the cast `hours as u8` wraps at 256. */
  function Decayed(rate: U8, score: U8, hours: nat): U8 {
    var decay := SatMul(hours % 256, rate);
    if score > NEUTRAL then Max(SatSub(score, decay), NEUTRAL) else Min(SatAdd(score, decay), NEUTRAL)
  }

  function Distance(score: U8): nat {
    if score > NEUTRAL then score - NEUTRAL else NEUTRAL - score
  }

  /** Saturation never shows: decay moves the score towards 50 by `rate` per (wrapped) hour,
      stays on its own side, and stops at 50. */
  lemma DecayExact(rate: U8, score: U8, hours: nat)
    ensures var d := Decayed(rate, score, hours);
            && Distance(d) == Distance(score) - Min(Distance(score), (hours % 256) * rate)
            && (score >= NEUTRAL ==> NEUTRAL <= d <= score)
            && (score <= NEUTRAL ==> score <= d <= NEUTRAL)
  {
    assert (hours % 256) * rate >= 0;
  }

  /** Below 256 hours, more elapsed time never leaves a score further from 50. */
  lemma MoreTimeIsCloser(rate: U8, score: U8, h1: nat, h2: nat)
    requires h1 <= h2 < 256
    ensures Distance(Decayed(rate, score, h2)) <= Distance(Decayed(rate, score, h1))
  {
    DecayExact(rate, score, h1);
    DecayExact(rate, score, h2);
    TimesMonotone(h1, h2, rate);
  }

  /** Without that limit the law holds exactly where decay does nothing: the hour count wraps. */
  lemma MoreTimeIsCloserIff(rate: U8, score: U8)
    ensures (forall h1: nat, h2: nat :: h1 <= h2 ==>
               Distance(Decayed(rate, score, h2)) <= Distance(Decayed(rate, score, h1)))
            <==> rate == 0 || score == NEUTRAL
  {
    if rate == 0 || score == NEUTRAL {
      forall h1: nat, h2: nat | h1 <= h2
        ensures Distance(Decayed(rate, score, h2)) <= Distance(Decayed(rate, score, h1))
      {
        DecayExact(rate, score, h1);
        DecayExact(rate, score, h2);
      }
    } else {
      DecayExact(rate, score, 1);
      DecayExact(rate, score, 256);
      assert Distance(Decayed(rate, score, 256)) > Distance(Decayed(rate, score, 1));
    }
  }

  /** When two stages, of `h1` and `h2` hours, do what one of `h1 + h2 + carry` hours does: the
      counts do not wrap and there is no carry to lose, or whatever is lost no longer matters. */
  predicate StagesAgree(rate: U8, score: U8, h1: nat, h2: nat, carry: nat) {
    var staged := h1 % 256 + h2 % 256;
    || rate == 0
    || (staged + carry < 256 && (carry == 0 || staged * rate >= Distance(score)))
    || (staged + carry >= 256 && (staged + carry - 256) * rate >= Distance(score))
  }

  lemma StageArithmetic(d: nat, rate: nat, a: nat, b: nat, carry: nat)
    requires a < 256 && b < 256 && carry <= 1 && d <= 255
    ensures var s := a + b + carry; var w := if s < 256 then s else s - 256;
            var left := d - Min(d, a * rate);
            left - Min(left, b * rate) == d - Min(d, w * rate)
            <==> || rate == 0
                 || (s < 256 && (carry == 0 || (a + b) * rate >= d))
                 || (s >= 256 && (s - 256) * rate >= d)
  {
    var s := a + b + carry;
    assert a * rate + b * rate == (a + b) * rate;
    if s < 256 {
      assert s * rate == (a + b) * rate + carry * rate;
    } else {
      TimesMonotone(255, a + b, rate);
    }
  }

  lemma StagesDistance(rate: U8, score: U8, h1: nat, h2: nat, carry: nat)
    requires carry <= 1
    ensures Distance(Decayed(rate, Decayed(rate, score, h1), h2)) == Distance(Decayed(rate, score, h1 + h2 + carry))
            <==> StagesAgree(rate, score, h1, h2, carry)
  {
    hide Decayed;
    DecayExact(rate, score, h1);
    DecayExact(rate, Decayed(rate, score, h1), h2);
    DecayExact(rate, score, h1 + h2 + carry);
    HourSum(h1, h2, carry);
    StageArithmetic(Distance(score), rate, h1 % 256, h2 % 256, carry);
  }

  /** Decaying in two stages, which may lose an hour to their part hours, equals decaying at
      once exactly unless that hour, or a wrap of the hour count, still matters. */
  lemma CarriedStagesIff(rate: U8, score: U8, h1: nat, h2: nat, carry: nat)
    requires carry <= 1
    ensures Decayed(rate, Decayed(rate, score, h1), h2) == Decayed(rate, score, h1 + h2 + carry)
            <==> StagesAgree(rate, score, h1, h2, carry)
  {
    hide Decayed, StagesAgree;
    StagesDistance(rate, score, h1, h2, carry);
    SameSide(rate, score, h1, h2, h1 + h2 + carry);
  }

  /** Over whole hours: exactly unless the hour count wraps before the score has reached 50
      anyway. */
  lemma StagesIff(rate: U8, score: U8, h1: nat, h2: nat)
    ensures Decayed(rate, Decayed(rate, score, h1), h2) == Decayed(rate, score, h1 + h2)
            <==> || h1 % 256 + h2 % 256 < 256
                 || rate == 0
                 || ((h1 + h2) % 256) * rate >= Distance(score)
  {
    hide Decayed;
    CarriedStagesIff(rate, score, h1, h2, 0);
    HourSum(h1, h2, 0);
  }

  lemma HourSum(h1: nat, h2: nat, carry: nat)
    requires carry <= 1
    ensures var s := h1 % 256 + h2 % 256 + carry; (h1 + h2 + carry) % 256 == if s < 256 then s else s - 256
  {
    var q1, q2 := h1 / 256, h2 / 256;
    assert h1 + h2 + carry == 256 * (q1 + q2) + (h1 % 256 + h2 % 256 + carry);
  }

  /** The score on one side of 50 is known by its distance. */
  lemma SameDistance(score: U8, a: U8, b: U8)
    requires (score >= NEUTRAL ==> a >= NEUTRAL && b >= NEUTRAL) && (score <= NEUTRAL ==> a <= NEUTRAL && b <= NEUTRAL)
    ensures a == b <==> Distance(a) == Distance(b)
  {
  }

  lemma SameSide(rate: U8, score: U8, h1: nat, h2: nat, h: nat)
    ensures var twice := Decayed(rate, Decayed(rate, score, h1), h2);
            twice == Decayed(rate, score, h) <==> Distance(twice) == Distance(Decayed(rate, score, h))
  {
    hide Decayed;
    DecayExact(rate, score, h1);
    DecayExact(rate, Decayed(rate, score, h1), h2);
    DecayExact(rate, score, h);
    SameDistance(score, Decayed(rate, Decayed(rate, score, h1), h2), Decayed(rate, score, h));
  }
}

/** Reputation scores and the lazily expiring blocklist. */
module Reputation {
  import opened Prelude
  import opened Decay

  type Peer = nat

  datatype Config = Config(decayRate: U8, banThreshold: U8, banDuration: nat)

  datatype Score = Score(score: U8, lastUpdate: nat, good: nat, bad: nat)

  datatype Ban = Ban(reason: string, bannedAt: nat, duration: nat)

  datatype State = State(scores: map<Peer, Score>, blocklist: map<Peer, Ban>)

  const INIT := State(map[], map[])

  datatype Op =
    | Increase(peer: Peer, amount: U8)
    | Decrease(peer: Peer, amount: U8, reason: string)
    | BanPeer(peer: Peer, reason: string)
    | Unban(peer: Peer)
    | IsBanned(peer: Peer)
    | Cleanup
    | ClearAll

  type Event = Timed<Op>

  /** Time stamps count nanoseconds. */
  function Hours(now: nat, since: nat): nat {
    Elapsed(now, since) / 1_000_000_000 / 3600
  }

  function EntryOf(s: State, p: Peer, now: nat): Score {
    if p in s.scores then s.scores[p] else Score(NEUTRAL, now, 0, 0)
  }

  function Current(cfg: Config, e: Score, now: nat): U8 {
    Decayed(cfg.decayRate, e.score, Hours(now, e.lastUpdate))
  }

  function GetScore(cfg: Config, s: State, p: Peer, now: nat): U8 {
    if p in s.scores then Current(cfg, s.scores[p], now) else NEUTRAL
  }

  function Banned(cfg: Config, s: State, p: Peer, reason: string, now: nat): State {
    State(s.scores[p := EntryOf(s, p, now).(score := 0, lastUpdate := now)],
          s.blocklist[p := Ban(reason, now, cfg.banDuration)])
  }

  function Unbanned(s: State, p: Peer, now: nat): State {
    if p in s.blocklist
    then State(s.scores[p := EntryOf(s, p, now).(score := NEUTRAL, lastUpdate := now)], s.blocklist - {p})
    else s
  }

  function Active(b: Ban, now: nat): bool {
    Elapsed(now, b.bannedAt) < b.duration
  }

  function Lowered(cfg: Config, s: State, p: Peer, amount: U8, now: nat): U8 {
    SatSub(Current(cfg, EntryOf(s, p, now), now), amount)
  }

  function Next(cfg: Config, s: State, e: Event): State {
    match e.op
    case Increase(p, amount) =>
      var was := EntryOf(s, p, e.now);
      s.(scores := s.scores[p := was.(score := Min(SatAdd(Current(cfg, was, e.now), amount), 100),
                                      lastUpdate := e.now, good := was.good + 1)])
    case Decrease(p, amount, reason) =>
      var was := EntryOf(s, p, e.now);
      var low := Lowered(cfg, s, p, amount, e.now);
      var s' := s.(scores := s.scores[p := was.(score := low, lastUpdate := e.now, bad := was.bad + 1)]);
      if low < cfg.banThreshold then Banned(cfg, s', p, reason, e.now) else s'
    case BanPeer(p, reason) => Banned(cfg, s, p, reason, e.now)
    case Unban(p) => Unbanned(s, p, e.now)
    case IsBanned(p) => if p in s.blocklist && !Active(s.blocklist[p], e.now) then Unbanned(s, p, e.now) else s
    case Cleanup => s.(blocklist := map p | p in s.blocklist && Active(s.blocklist[p], e.now) :: s.blocklist[p])
    case ClearAll => INIT
  }

  function SaysBanned(s: State, p: Peer, now: nat): bool {
    p in s.blocklist && Active(s.blocklist[p], now)
  }

  class PeerReputation {
    const cfg: Config
    var scores: map<Peer, Score>
    var blocklist: map<Peer, Ban>

    ghost function Model(): State
      reads this
    {
      State(scores, blocklist)
    }

    constructor (cfg: Config)
      ensures this.cfg == cfg && Model() == INIT
    {
      this.cfg := cfg;
      scores, blocklist := map[], map[];
    }

    method IncreaseReputation(now: nat, p: Peer, amount: U8)
      modifies this
      ensures Model() == Next(cfg, old(Model()), At(now, Increase(p, amount)))
    {
      var entry := if p in scores then scores[p] else Score(NEUTRAL, now, 0, 0);
      var current := Current(cfg, entry, now);
      entry := entry.(score := Min(SatAdd(current, amount), 100), lastUpdate := now, good := entry.good + 1);
      scores := scores[p := entry];
    }

    method DecreaseReputation(now: nat, p: Peer, amount: U8, reason: string)
      modifies this
      ensures Model() == Next(cfg, old(Model()), At(now, Decrease(p, amount, reason)))
    {
      var entry := if p in scores then scores[p] else Score(NEUTRAL, now, 0, 0);
      var current := Current(cfg, entry, now);
      entry := entry.(score := SatSub(current, amount), lastUpdate := now, bad := entry.bad + 1);
      scores := scores[p := entry];
      if entry.score < cfg.banThreshold {
        AddBan(now, p, reason);
      }
    }

    method AddBan(now: nat, p: Peer, reason: string)
      modifies this
      ensures Model() == Next(cfg, old(Model()), At(now, BanPeer(p, reason)))
    {
      blocklist := blocklist[p := Ban(reason, now, cfg.banDuration)];
      var entry := if p in scores then scores[p] else Score(NEUTRAL, now, 0, 0);
      scores := scores[p := entry.(score := 0, lastUpdate := now)];
    }

    method RemoveBan(now: nat, p: Peer)
      modifies this
      ensures Model() == Next(cfg, old(Model()), At(now, Unban(p)))
    {
      if p in blocklist {
        blocklist := blocklist - {p};
        var entry := if p in scores then scores[p] else Score(NEUTRAL, now, 0, 0);
        scores := scores[p := entry.(score := NEUTRAL, lastUpdate := now)];
      }
    }

    method CheckBanned(now: nat, p: Peer) returns (banned: bool)
      modifies this
      ensures Model() == Next(cfg, old(Model()), At(now, Op.IsBanned(p)))
      ensures banned == SaysBanned(old(Model()), p, now)
    {
      if p in blocklist {
        var entry := blocklist[p];
        if Elapsed(now, entry.bannedAt) < entry.duration {
          return true;
        }
        RemoveBan(now, p);
      }
      return false;
    }

    method CleanupExpiredBans(now: nat) returns (removed: nat)
      modifies this
      ensures Model() == Next(cfg, old(Model()), At(now, Cleanup))
      ensures removed == |old(blocklist)| - |blocklist|
    {
      ghost var all := blocklist;
      var todo, kept: map<Peer, Ban> := blocklist.Keys, map[];
      removed := 0;
      while todo != {}
        invariant todo <= all.Keys && blocklist == all && scores == old(scores)
        invariant kept == map p | p in all && p !in todo && Active(all[p], now) :: all[p]
        invariant removed + |kept| == |all| - |todo|
        decreases todo
      {
        var p :| p in todo;
        var entry := blocklist[p];
        if Elapsed(now, entry.bannedAt) >= entry.duration {
          removed := removed + 1;
        } else {
          kept := kept[p := entry];
        }
        todo := todo - {p};
      }
      blocklist := kept;
    }

    method ForgetAll()
      modifies this
      ensures Model() == INIT
    {
      scores, blocklist := map[], map[];
    }
  }

  // ----- the score a caller reads -----

  lemma NoDecay(rate: U8, score: U8, hours: nat)
    requires rate == 0 || hours == 0
    ensures Decayed(rate, score, hours) == score
  {
  }

  lemma LoweredReads(cfg: Config, s: State, p: Peer, amount: U8, now: nat)
    ensures Lowered(cfg, s, p, amount, now) == Max(GetScore(cfg, s, p, now) - amount, 0)
    ensures Current(cfg, EntryOf(s, p, now), now) == GetScore(cfg, s, p, now)
  {
    hide Decayed;
    NoDecay(cfg.decayRate, NEUTRAL, 0);
  }

  /** The event stores a score for `p`. */
  predicate Stores(s: State, e: Event, p: Peer) {
    match e.op
    case Increase(q, _) => q == p
    case Decrease(q, _, _) => q == p
    case BanPeer(q, _) => q == p
    case Unban(q) => q == p && p in s.blocklist
    case IsBanned(q) => q == p && p in s.blocklist && !SaysBanned(s, p, e.now)
    case Cleanup => false
    case ClearAll => false
  }

  /** Right after an event, a score that reads `g` before it reads: more by the amount, at most
      100; less by the amount, or 0 if that is below the threshold; 0 after a ban; 50 after the
      end of one. */
  function ReadAfter(cfg: Config, s: State, e: Event, p: Peer, g: nat): nat {
    if e.op.ClearAll? then 50
    else if !Stores(s, e, p) then g
    else match e.op
      case Increase(_, amount) => Min(g + amount, 100)
      case Decrease(_, amount, _) => if Max(g - amount, 0) < cfg.banThreshold then 0 else Max(g - amount, 0)
      case BanPeer(_, _) => 0
      case _ => 50
  }

  /** What an event does to the entry of `p`: stored now, or left alone. */
  lemma EntryAfter(cfg: Config, s: State, e: Event, p: Peer)
    ensures var s' := Next(cfg, s, e);
            && (Stores(s, e, p) ==>
                  && p in s'.scores && s'.scores[p].lastUpdate == e.now
                  && s'.scores[p].score == ReadAfter(cfg, s, e, p, GetScore(cfg, s, p, e.now)))
            && (!Stores(s, e, p) && !e.op.ClearAll? ==>
                  (p in s'.scores <==> p in s.scores) && (p in s.scores ==> s'.scores[p] == s.scores[p]))
  {
    if (e.op.Increase? || e.op.Decrease?) && e.op.peer == p {
      LoweredReads(cfg, s, p, e.op.amount, e.now);
    }
    hide Current, Lowered, GetScore, Active;
  }

  /** What a caller reads of any peer after any event, then and at any later time. */
  lemma ReadExact(cfg: Config, s: State, e: Event, p: Peer, t: nat)
    requires e.now <= t
    ensures var s' := Next(cfg, s, e);
            && GetScore(cfg, s', p, e.now) == ReadAfter(cfg, s, e, p, GetScore(cfg, s, p, e.now))
            && GetScore(cfg, s', p, t) == if Stores(s, e, p) || e.op.ClearAll?
                                          then Decayed(cfg.decayRate, GetScore(cfg, s', p, e.now), Hours(t, e.now))
                                          else GetScore(cfg, s, p, t)
  {
    EntryAfter(cfg, s, e, p);
    hide Stores, Decayed;
    if Stores(s, e, p) {
      NoDecay(cfg.decayRate, Next(cfg, s, e).scores[p].score, 0);
    }
    DecayExact(cfg.decayRate, NEUTRAL, Hours(t, e.now));
  }

  /** A decrease bans exactly when it leaves less than the threshold. */
  lemma DecreaseBansIff(cfg: Config, s: State, p: Peer, amount: U8, reason: string, now: nat)
    ensures Next(cfg, s, At(now, Decrease(p, amount, reason))).blocklist
            == if GetScore(cfg, s, p, now) - amount < cfg.banThreshold && cfg.banThreshold > 0
               then s.blocklist[p := Ban(reason, now, cfg.banDuration)] else s.blocklist
  {
    LoweredReads(cfg, s, p, amount, now);
    hide Lowered, GetScore;
  }

  // ----- runs -----

  function Run(cfg: Config, es: seq<Event>): State {
    if es == [] then INIT else Next(cfg, Run(cfg, es[..|es| - 1]), es[|es| - 1])
  }

  /** The step bans `p`, by request or because its score fell below the threshold. */
  function Bans(cfg: Config, s: State, e: Event, p: Peer): (b: bool)
    ensures b ==> e.op.BanPeer? || e.op.Decrease?
  {
    match e.op
    case BanPeer(q, _) => q == p
    case Decrease(q, amount, _) => q == p && Max(GetScore(cfg, s, p, e.now) - amount, 0) < cfg.banThreshold
    case _ => false
  }

  /** A peer is listed after a step exactly if the step bans it, or it was listed and the step
      neither lifts its ban nor finds that it has run out. */
  lemma ListedIff(cfg: Config, s: State, e: Event, p: Peer)
    ensures p in Next(cfg, s, e).blocklist
            <==> || Bans(cfg, s, e, p)
                 || (p in s.blocklist && e.op != Unban(p) && e.op != ClearAll
                     && (e.op == IsBanned(p) || e.op == Cleanup ==> SaysBanned(s, p, e.now)))
  {
    if e.op.Decrease? && e.op.peer == p {
      LoweredReads(cfg, s, p, e.op.amount, e.now);
    }
    hide Lowered, GetScore, EntryOf;
  }

  /** The latest ban of `p`, unless an explicit unban or a clear followed. */
  function LastBan(cfg: Config, es: seq<Event>, p: Peer): Option<Ban> {
    if es == [] then None else
      var front := es[..|es| - 1];
      BanAfter(cfg, Run(cfg, front), LastBan(cfg, front, p), es[|es| - 1], p)
  }

  /** The blocklist agrees with the ban history up to bans that had already expired by `last`. */
  ghost predicate Agrees(cfg: Config, s: State, ban: Option<Ban>, p: Peer, last: nat) {
    && (p in s.blocklist ==> ban == Some(s.blocklist[p]))
    && (ban.Some? ==> ban.value.duration == cfg.banDuration)
    && (ban.Some? && p !in s.blocklist ==> Elapsed(last, ban.value.bannedAt) >= cfg.banDuration)
  }

  /** What the event makes of the latest ban `ban` of `p`. */
  function BanAfter(cfg: Config, s: State, ban: Option<Ban>, e: Event, p: Peer): Option<Ban> {
    if Bans(cfg, s, e, p) then Some(Ban(e.op.reason, e.now, cfg.banDuration))
    else if e.op == Unban(p) || e.op == ClearAll then None
    else ban
  }

  lemma StepAgrees(cfg: Config, s: State, ban: Option<Ban>, e: Event, p: Peer, last: nat)
    requires Agrees(cfg, s, ban, p, e.now) && e.now <= last
    ensures Agrees(cfg, Next(cfg, s, e), BanAfter(cfg, s, ban, e, p), p, last)
  {
    if e.op.Decrease? && e.op.peer == p {
      LoweredReads(cfg, s, p, e.op.amount, e.now);
    }
    hide Lowered, GetScore, EntryOf;
  }

  lemma {:induction false} BlocklistAgrees(cfg: Config, es: seq<Event>, p: Peer, last: nat)
    requires InOrder(es) && (es == [] || es[|es| - 1].now <= last)
    ensures Agrees(cfg, Run(cfg, es), LastBan(cfg, es, p), p, last)
  {
    if es == [] {
    } else {
      hide Agrees, Next, BanAfter;
      var front, e := es[..|es| - 1], es[|es| - 1];
      BlocklistAgrees(cfg, front, p, e.now);
      StepAgrees(cfg, Run(cfg, front), LastBan(cfg, front, p), e, p, last);
    }
  }

  /** However expiry checks and clean-ups are interleaved, a peer counts as banned exactly while
      its latest ban, not since lifted, is younger than the ban duration. */
  lemma {:induction false} LazyBlocklist(cfg: Config, es: seq<Event>, p: Peer, now: nat)
    requires InOrder(es) && (es == [] || es[|es| - 1].now <= now)
    ensures SaysBanned(Run(cfg, es), p, now)
            <==> LastBan(cfg, es, p).Some? && Elapsed(now, LastBan(cfg, es, p).value.bannedAt) < cfg.banDuration
    ensures p in Run(cfg, es).blocklist ==> LastBan(cfg, es, p) == Some(Run(cfg, es).blocklist[p])
  {
    BlocklistAgrees(cfg, es, p, now);
  }

  /** Every stored score, and every score ever read, stays within 0 to 100. */
  lemma {:induction false} ScoresInRange(cfg: Config, es: seq<Event>)
    ensures forall p :: p in Run(cfg, es).scores ==> Run(cfg, es).scores[p].score <= 100
    ensures forall p, now :: GetScore(cfg, Run(cfg, es), p, now) <= 100
  {
    if es == [] {
    } else {
      ScoresInRange(cfg, es[..|es| - 1]);
    }
  }

  /** How often `p` was praised, and how often blamed, since everything was cleared. */
  function Praise(es: seq<Event>, p: Peer): nat {
    if es == [] || es[|es| - 1].op.ClearAll? then 0 else
      var op := es[|es| - 1].op;
      Praise(es[..|es| - 1], p) + (if op.Increase? && op.peer == p then 1 else 0)
  }

  function Blame(es: seq<Event>, p: Peer): nat {
    if es == [] || es[|es| - 1].op.ClearAll? then 0 else
      var op := es[|es| - 1].op;
      Blame(es[..|es| - 1], p) + (if op.Decrease? && op.peer == p then 1 else 0)
  }

  lemma StepCounts(cfg: Config, s: State, e: Event, p: Peer)
    requires !e.op.ClearAll?
    ensures var was, now := EntryOf(s, p, 0), EntryOf(Next(cfg, s, e), p, 0);
            && now.good == was.good + (if e.op.Increase? && e.op.peer == p then 1 else 0)
            && now.bad == was.bad + (if e.op.Decrease? && e.op.peer == p then 1 else 0)
  {
    hide Current, Lowered, Active;
  }

  /** The counters of good and bad behaviour miss nothing, bans and expiries in between included. */
  lemma {:induction false} BehaviourCounted(cfg: Config, es: seq<Event>, p: Peer)
    ensures var entry := EntryOf(Run(cfg, es), p, 0);
            entry.good == Praise(es, p) && entry.bad == Blame(es, p)
  {
    if es == [] || es[|es| - 1].op.ClearAll? {
    } else {
      hide Next, EntryOf;
      BehaviourCounted(cfg, es[..|es| - 1], p);
      StepCounts(cfg, Run(cfg, es[..|es| - 1]), es[|es| - 1], p);
    }
  }

  // ----- part hours -----

  const HOUR: nat := 3_600_000_000_000

  lemma HoursExact(now: nat, since: nat)
    ensures Hours(now, since) == Elapsed(now, since) / HOUR
  {
  }

  /** Whether the part hours before and after `t1` make up a whole one. */
  function Carry(t0: nat, t1: nat, t2: nat): (c: nat)
    ensures c <= 1
  {
    if Elapsed(t1, t0) % HOUR + Elapsed(t2, t1) % HOUR >= HOUR then 1 else 0
  }

  /** That hour is what counting from `t0` to `t1` and on to `t2` loses. */
  lemma PartHoursLost(t0: nat, t1: nat, t2: nat)
    requires t0 <= t1 <= t2
    ensures Hours(t2, t0) == Hours(t1, t0) + Hours(t2, t1) + Carry(t0, t1, t2)
  {
    hide Hours;
    HoursExact(t1, t0);
    HoursExact(t2, t1);
    HoursExact(t2, t0);
  }

  /** An update that adds nothing still stores the time: exactly when this changes what is read
      later. */
  lemma UpdateHarmlessIff(cfg: Config, s: State, p: Peer, t1: nat, t2: nat)
    requires p in s.scores && s.scores[p].score <= 100 && s.scores[p].lastUpdate <= t1 <= t2
    ensures var t0 := s.scores[p].lastUpdate;
            GetScore(cfg, Next(cfg, s, At(t1, Increase(p, 0))), p, t2) == GetScore(cfg, s, p, t2)
            <==> StagesAgree(cfg.decayRate, s.scores[p].score, Hours(t1, t0), Hours(t2, t1), Carry(t0, t1, t2))
  {
    hide Decayed, Hours, Carry, StagesAgree;
    var e := s.scores[p];
    DecayExact(cfg.decayRate, e.score, Hours(t1, e.lastUpdate));
    PartHoursLost(e.lastUpdate, t1, t2);
    CarriedStagesIff(cfg.decayRate, e.score, Hours(t1, e.lastUpdate), Hours(t2, t1), Carry(e.lastUpdate, t1, t2));
  }

  /** The state after updates of `p` that add nothing, at the given times. */
  function Touched(cfg: Config, s: State, p: Peer, times: seq<nat>): State {
    if times == [] then s else
      Next(cfg, Touched(cfg, s, p, times[..|times| - 1]), At(times[|times| - 1], Increase(p, 0)))
  }

  function LastTouch(since: nat, times: seq<nat>): nat {
    if times == [] then since else times[|times| - 1]
  }

  ghost predicate Hourly(since: nat, times: seq<nat>) {
    forall k :: 0 <= k < |times| ==> Elapsed(times[k], LastTouch(since, times[..k])) < HOUR
  }

  lemma TouchFreezes(cfg: Config, s: State, p: Peer, now: nat)
    requires p in s.scores && s.scores[p].score <= 100 && Elapsed(now, s.scores[p].lastUpdate) < HOUR
    ensures var s' := Next(cfg, s, At(now, Increase(p, 0)));
            p in s'.scores && s'.scores[p].score == s.scores[p].score && s'.scores[p].lastUpdate == now
  {
    HoursExact(now, s.scores[p].lastUpdate);
    NoDecay(cfg.decayRate, s.scores[p].score, 0);
  }

  /** Less than an hour apart, however many and over however long, they keep a score from decaying. */
  lemma {:induction false} FrequentTouchesFreeze(cfg: Config, s: State, p: Peer, times: seq<nat>)
    requires p in s.scores && s.scores[p].score <= 100
    requires Hourly(s.scores[p].lastUpdate, times)
    ensures var s' := Touched(cfg, s, p, times);
            && p in s'.scores && s'.scores[p].score == s.scores[p].score
            && s'.scores[p].lastUpdate == LastTouch(s.scores[p].lastUpdate, times)
  {
    if times == [] {
    } else {
      hide Next, LastTouch;
      var front := times[..|times| - 1];
      assert forall k :: 0 <= k < |front| ==> front[..k] == times[..k];
      FrequentTouchesFreeze(cfg, s, p, front);
      TouchFreezes(cfg, Touched(cfg, s, p, front), p, times[|times| - 1]);
      assert LastTouch(s.scores[p].lastUpdate, times) == times[|times| - 1];
    }
  }

  function Updates(op: Op, p: Peer): bool {
    (op.Increase? || op.Decrease?) && op.peer == p
  }

  /** Each update of `p` comes less than an hour after the last time its score was stored. */
  ghost predicate UpdatedHourly(cfg: Config, es: seq<Event>, p: Peer) {
    forall k :: 0 <= k < |es| && Updates(es[k].op, p) && p in Run(cfg, es[..k]).scores ==>
      Elapsed(es[k].now, Run(cfg, es[..k]).scores[p].lastUpdate) < HOUR
  }

  ghost predicate SameFor(s: State, s': State, p: Peer) {
    && (p in s.scores <==> p in s'.scores) && (p in s.scores ==> s.scores[p] == s'.scores[p])
    && (p in s.blocklist <==> p in s'.blocklist) && (p in s.blocklist ==> s.blocklist[p] == s'.blocklist[p])
  }

  function Concerns(op: Op, p: Peer): bool {
    op.Cleanup? || op.ClearAll? || op.peer == p
  }

  lemma OthersUntouched(cfg: Config, s: State, e: Event, p: Peer)
    requires !Concerns(e.op, p)
    ensures SameFor(s, Next(cfg, s, e), p)
  {
    hide Current, Lowered, EntryOf;
  }

  lemma SameAfterUpdate(cfg: Config, s: State, s': State, e: Event, p: Peer)
    requires SameFor(s, s', p) && Updates(e.op, p)
    requires p in s.scores ==> Elapsed(e.now, s.scores[p].lastUpdate) < HOUR
    ensures SameFor(Next(cfg, s, e), Next(cfg.(decayRate := 0), s', e), p)
  {
    SameCurrent(cfg, s, s', p, e.now);
    hide Current, EntryOf;
    if e.op.Decrease? {
      var low := Lowered(cfg, s, p, e.op.amount, e.now);
      var entry := EntryOf(s, p, e.now);
      entry := entry.(score := low, lastUpdate := e.now, bad := entry.bad + 1);
      SameBanned(cfg, s.(scores := s.scores[p := entry]), s'.(scores := s'.scores[p := entry]), p, e.op.reason, e.now);
    }
    hide Banned;
  }

  lemma SameAfterBan(cfg: Config, s: State, s': State, e: Event, p: Peer)
    requires SameFor(s, s', p) && Concerns(e.op, p) && !Updates(e.op, p)
    ensures SameFor(Next(cfg, s, e), Next(cfg.(decayRate := 0), s', e), p)
  {
    hide Lowered, Banned, Unbanned, Active;
    match e.op
    case BanPeer(_, reason) => SameBanned(cfg, s, s', p, reason, e.now);
    case Unban(_) => SameUnbanned(s, s', p, e.now);
    case IsBanned(_) => SameUnbanned(s, s', p, e.now);
    case _ =>
  }

  lemma SameBanned(cfg: Config, s: State, s': State, p: Peer, reason: string, now: nat)
    requires SameFor(s, s', p)
    ensures SameFor(Banned(cfg, s, p, reason, now), Banned(cfg.(decayRate := 0), s', p, reason, now), p)
  {
  }

  lemma SameUnbanned(s: State, s': State, p: Peer, now: nat)
    requires SameFor(s, s', p)
    ensures SameFor(Unbanned(s, p, now), Unbanned(s', p, now), p)
  {
  }

  lemma StepWithoutDecay(cfg: Config, s: State, s': State, e: Event, p: Peer)
    requires SameFor(s, s', p)
    requires Updates(e.op, p) && p in s.scores ==> Elapsed(e.now, s.scores[p].lastUpdate) < HOUR
    ensures SameFor(Next(cfg, s, e), Next(cfg.(decayRate := 0), s', e), p)
  {
    if !Concerns(e.op, p) {
      OthersUntouched(cfg, s, e, p);
      OthersUntouched(cfg.(decayRate := 0), s', e, p);
      hide Next;
    } else if Updates(e.op, p) {
      hide Next, SameFor;
      SameAfterUpdate(cfg, s, s', e, p);
    } else {
      hide Next, SameFor;
      SameAfterBan(cfg, s, s', e, p);
    }
  }

  lemma SameCurrent(cfg: Config, s: State, s': State, p: Peer, now: nat)
    requires SameFor(s, s', p) && (p in s.scores ==> Elapsed(now, s.scores[p].lastUpdate) < HOUR)
    ensures EntryOf(s, p, now) == EntryOf(s', p, now)
    ensures Current(cfg, EntryOf(s, p, now), now) == Current(cfg.(decayRate := 0), EntryOf(s', p, now), now)
  {
    hide Decayed, Hours;
    var was := EntryOf(s, p, now);
    HoursExact(now, was.lastUpdate);
    NoDecay(cfg.decayRate, was.score, 0);
    NoDecay(0, was.score, Hours(now, was.lastUpdate));
  }

  /** Then `p` has the score, and is banned, as if the decay rate were 0. */
  lemma {:induction false} HourlyUpdatesNeverDecay(cfg: Config, es: seq<Event>, p: Peer)
    requires UpdatedHourly(cfg, es, p)
    ensures SameFor(Run(cfg, es), Run(cfg.(decayRate := 0), es), p)
  {
    if es == [] {
    } else {
      hide Next, SameFor, Updates;
      var front, e := es[..|es| - 1], es[|es| - 1];
      assert forall k :: 0 <= k < |front| ==> front[..k] == es[..k];
      HourlyUpdatesNeverDecay(cfg, front, p);
      StepWithoutDecay(cfg, Run(cfg, front), Run(cfg.(decayRate := 0), front), e, p);
    }
  }

  // ----- bans that have run out -----

  /** After a ban has run out, asking resets the score to 50 and cleaning up leaves it to its own
      decay. The two agree exactly for a peer without a score, or when decay alone has brought
      its score to 50. */
  lemma ExpiryLeavesTwoScores(cfg: Config, s: State, p: Peer, now: nat)
    requires p in s.blocklist && !Active(s.blocklist[p], now)
    ensures var asked, cleaned := Next(cfg, s, At(now, IsBanned(p))), Next(cfg, s, At(now, Cleanup));
            && !SaysBanned(asked, p, now) && !SaysBanned(cleaned, p, now)
            && GetScore(cfg, asked, p, now) == NEUTRAL
            && GetScore(cfg, cleaned, p, now) == GetScore(cfg, s, p, now)
            && (GetScore(cfg, asked, p, now) == GetScore(cfg, cleaned, p, now)
                <==> p in s.scores ==>
                       Distance(s.scores[p].score) <= Hours(now, s.scores[p].lastUpdate) % 256 * cfg.decayRate)
  {
    hide Decayed;
    DecayExact(cfg.decayRate, NEUTRAL, 0);
    if p in s.scores {
      DecayExact(cfg.decayRate, s.scores[p].score, Hours(now, s.scores[p].lastUpdate));
    }
  }

  /** In every run a listed peer has a score, so the exception above never applies to a run. */
  lemma {:induction false} BannedHasScore(cfg: Config, es: seq<Event>)
    ensures Run(cfg, es).blocklist.Keys <= Run(cfg, es).scores.Keys
  {
    if es == [] {
    } else {
      BannedHasScore(cfg, es[..|es| - 1]);
    }
  }
}
