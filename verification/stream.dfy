/** The whole pipeline: batch, encode, frame, unframe, parse. */
module Stream {
  import opened Prelude
  import opened Lists
  import opened WireFormat
  import opened Compressor
  import opened Batcher

  /** What a receiver gets from one batch sent through a compressor. */
  function Deliver(c: Snappy, g: seq<Bytes>): Option<seq<Bytes>> {
    match Frame(c, Encode(g))
    case Err(_) => None
    case Ok(w) =>
      match Unframe(c, w)
      case Err(_) => None
      case Ok(b) => match Decode(b) case Err(_) => None case Ok(ms) => Some(ms)
  }

  /** What a receiver gets from a run's batches, one after the other. */
  function DeliverAll(c: Snappy, gs: seq<seq<Bytes>>): Option<seq<Bytes>> {
    if gs == [] then Some([]) else
      match DeliverAll(c, gs[..|gs| - 1])
      case None => None
      case Some(front) =>
        match Deliver(c, gs[|gs| - 1])
        case None => None
        case Some(last) => Some(front + last)
  }

  /** A batch Snappy does not refuse and whose sizes survive the casts. */
  ghost predicate Sendable(c: Snappy, g: seq<Bytes>) {
    Frame(c, Encode(g)).Ok? && Fits(g)
  }

  lemma DeliverIff(c: Snappy, g: seq<Bytes>)
    requires Lossless(c)
    ensures Deliver(c, g) == Some(g) <==> Sendable(c, g)
    ensures Deliver(c, g).Some? ==> |Deliver(c, g).value| <= |g|
  {
    hide Encode, Decode, Frame, Unframe, Fits;
    if Frame(c, Encode(g)).Ok? {
      FrameRoundTrip(c, Encode(g));
      RoundTripIff(g);
      if Decode(Encode(g)).Ok? {
        DecodeNeverInvents(g);
      }
    }
  }

  lemma {:induction false} DeliverAllIff(c: Snappy, gs: seq<seq<Bytes>>)
    requires Lossless(c)
    ensures DeliverAll(c, gs) == Some(Flatten(gs)) <==> forall g :: g in gs ==> Sendable(c, g)
    ensures DeliverAll(c, gs).Some? ==> |DeliverAll(c, gs).value| <= |Flatten(gs)|
  {
    hide Deliver, Sendable;
    if gs == [] {
    } else {
      var front, g := gs[..|gs| - 1], gs[|gs| - 1];
      assert gs == front + [g];
      DeliverAllIff(c, front);
      DeliverIff(c, g);
      if DeliverAll(c, gs) == Some(Flatten(gs)) {
        var a, b := DeliverAll(c, front).value, Deliver(c, g).value;
        assert a + b == Flatten(front) + g && |a| <= |Flatten(front)| && |b| <= |g|;
        SameSplit(a, b, Flatten(front), g);
      }
    }
  }

  lemma SameSplit<T>(a: seq<T>, b: seq<T>, x: seq<T>, y: seq<T>)
    requires a + b == x + y && |a| <= |x| && |b| <= |y|
    ensures a == x && b == y
  {
    assert |a + b| == |x + y|;
    assert a == (a + b)[..|a|] && x == (x + y)[..|x|];
    assert b == (a + b)[|a|..] && y == (x + y)[|x|..];
  }

  /** For every interleaving of `add_message` and `flush`: what the receiver gets from all
      returned batches, followed by what is still pending, is exactly what was added, in order;
      and this holds if and only if every returned batch could be sent. */
  lemma StreamRoundTripIff(cfg: Config, c: Snappy, es: seq<Event>)
    requires Lossless(c)
    ensures var t := Run(cfg, es); var got := DeliverAll(c, Groups(t.batches));
            (got.Some? && got.value + t.state.pending == Added(es))
            <==> forall g :: g in Groups(t.batches) ==> Sendable(c, g)
  {
    hide Sendable;
    var t := Run(cfg, es);
    var got := DeliverAll(c, Groups(t.batches));
    Conservation(cfg, es);
    DeliverAllIff(c, Groups(t.batches));
    if got.Some? && got.value + t.state.pending == Added(es) {
      SameSplit(got.value, t.state.pending, Flatten(Groups(t.batches)), t.state.pending);
    }
  }

  lemma {:induction false} InFlatten<T>(gs: seq<seq<T>>, i: nat, x: T)
    requires i < |gs| && x in gs[i]
    ensures x in Flatten(gs)
  {
    if i == |gs| - 1 {
    } else {
      InFlatten(gs[..|gs| - 1], i, x);
    }
  }

  lemma GroupFits(cfg: Config, es: seq<Event>, i: nat)
    requires i < |Groups(Run(cfg, es).batches)| && cfg.maxMessages < U32_SPAN
    requires forall m :: m in Added(es) ==> |m| < U32_SPAN
    ensures Fits(Groups(Run(cfg, es).batches)[i])
  {
    hide Run, Added;
    var t := Run(cfg, es);
    var gs := Groups(t.batches);
    BatchLimits(cfg, es);
    assert t.batches[i] in t.batches;
    Conservation(cfg, es);
    forall j | 0 <= j < |gs[i]|
      ensures |gs[i][j]| < U32_SPAN
    {
      InFlatten(gs, i, gs[i][j]);
      assert gs[i][j] in Added(es);
    }
  }

  /** The guarantee a caller can check up front: messages below 2^32 bytes, a message limit
      below 2^32, and a compressor that refuses nothing. */
  lemma StreamRoundTrip(cfg: Config, c: Snappy, es: seq<Event>)
    requires Lossless(c) && (forall x :: c.compress(x).Some?)
    requires cfg.maxMessages < U32_SPAN
    requires forall m :: m in Added(es) ==> |m| < U32_SPAN
    ensures var t := Run(cfg, es); var got := DeliverAll(c, Groups(t.batches));
            got.Some? && got.value + t.state.pending == Added(es)
  {
    hide Encode, Fits, Run, Added, DeliverAll;
    var gs := Groups(Run(cfg, es).batches);
    forall g | g in gs
      ensures Sendable(c, g)
    {
      var i :| 0 <= i < |gs| && gs[i] == g;
      GroupFits(cfg, es, i);
    }
    StreamRoundTripIff(cfg, c, es);
  }
}

/** How many batches next-fit opens, against the best any packing of the same messages can do. */
module NextFit {
  import opened Prelude
  import opened Lists
  import opened WireFormat
  import opened Batcher

  /** Payload with every message counted as at most `cap` bytes. */
  function CapSum(cap: nat, ms: seq<Bytes>): nat {
    if ms == [] then 0 else Min(|ms[0]|, cap) + CapSum(cap, ms[1..])
  }

  lemma {:induction false} CapSumAppend(cap: nat, a: seq<Bytes>, b: seq<Bytes>)
    ensures CapSum(cap, a + b) == CapSum(cap, a) + CapSum(cap, b)
  {
    if a == [] {
      assert a + b == b;
    } else {
      assert (a + b)[1..] == a[1..] + b;
      CapSumAppend(cap, a[1..], b);
    }
  }

  /** The capped sum reaches the cap as soon as the plain sum does, and never exceeds it. */
  lemma {:induction false} CapSumBounds(cap: nat, ms: seq<Bytes>)
    ensures Min(cap, Payload(ms)) <= CapSum(cap, ms) <= Payload(ms)
  {
    if ms == [] {
    } else {
      CapSumBounds(cap, ms[1..]);
    }
  }

  lemma CapSumRemove(cap: nat, ms: seq<Bytes>, i: nat)
    requires i < |ms|
    ensures CapSum(cap, ms) == Min(|ms[i]|, cap) + CapSum(cap, ms[..i] + ms[i + 1..])
  {
    assert ms == ms[..i] + ms[i..] && ms[i..][1..] == ms[i + 1..];
    CapSumAppend(cap, ms[..i], ms[i..]);
    CapSumAppend(cap, ms[..i], ms[i + 1..]);
  }

  lemma RemoveAt<T>(a: seq<T>, i: nat)
    requires i < |a|
    ensures multiset(a[..i] + a[i + 1..]) == multiset(a) - multiset{a[i]}
  {
    assert a == a[..i] + [a[i]] + a[i + 1..];
  }

  lemma PermutationTail<T>(a: seq<T>, b: seq<T>, i: nat)
    requires a != [] && i < |b| && b[i] == a[0] && multiset(a) == multiset(b)
    ensures multiset(a[1..]) == multiset(b[..i] + b[i + 1..])
  {
    RemoveAt(a, 0);
    RemoveAt(b, i);
    assert a[..0] + a[1..] == a[1..];
  }

  lemma {:induction false} CapSumPermuted(cap: nat, a: seq<Bytes>, b: seq<Bytes>)
    requires multiset(a) == multiset(b)
    ensures CapSum(cap, a) == CapSum(cap, b)
  {
    if a == [] {
      assert |b| == |multiset(b)| == 0;
    } else {
      hide CapSum;
      assert a[0] in multiset(b);
      var i :| 0 <= i < |b| && b[i] == a[0];
      var rest := b[..i] + b[i + 1..];
      PermutationTail(a, b, i);
      CapSumPermuted(cap, a[1..], rest);
      CapSumRemove(cap, b, i);
      CapSumRemove(cap, a, 0);
      assert a[..0] + a[1..] == a[1..];
    }
  }

  /** Automatic batches closed because the next message would not fit. */
  function ClosedBySize(cfg: Config, bs: seq<Batch>): nat {
    if bs == [] then 0 else
      var b := bs[|bs| - 1];
      ClosedBySize(cfg, bs[..|bs| - 1]) + (if b.automatic && |b.messages| < cfg.maxMessages then 1 else 0)
  }

  /** Automatic batches closed because they held `max_messages` messages. */
  function ClosedByCount(cfg: Config, bs: seq<Batch>): nat {
    if bs == [] then 0 else
      var b := bs[|bs| - 1];
      ClosedByCount(cfg, bs[..|bs| - 1]) + (if b.automatic && |b.messages| >= cfg.maxMessages then 1 else 0)
  }

  function Automatic(bs: seq<Batch>): nat {
    if bs == [] then 0 else
      Automatic(bs[..|bs| - 1]) + (if bs[|bs| - 1].automatic then 1 else 0)
  }

  lemma {:induction false} AutomaticSplits(cfg: Config, bs: seq<Batch>)
    ensures Automatic(bs) == ClosedBySize(cfg, bs) + ClosedByCount(cfg, bs)
  {
    if bs == [] {
    } else {
      AutomaticSplits(cfg, bs[..|bs| - 1]);
    }
  }

  /** One step: the bytes that pay for a batch closed by size. */
  lemma StepPays(cfg: Config, s: State, e: Event)
    requires StateInv(cfg, s)
    ensures var g := Returned(cfg, s, e); var s' := Next(cfg, s, e); var cap := cfg.maxSize;
            && (e.Add? && g != [] && |g| < cfg.maxMessages ==>
                  cap + CapSum(cap, s.pending) <= 2 * CapSum(cap, g) + CapSum(cap, s'.pending))
            && CapSum(cap, s.pending) <= 2 * CapSum(cap, g) + CapSum(cap, s'.pending)
  {
    var cap := cfg.maxSize;
    if e.Add? {
      var ms := s.pending + [e.message];
      PayloadAppend(s.pending, [e.message]);
      CapSumAppend(cap, s.pending, [e.message]);
      CapSumBounds(cap, ms);
      assert Flushed(s).pending + [e.message] == [e.message];
      assert CapSum(cap, []) == 0;
    }
  }

  lemma MaxOfOne(n: nat)
    ensures Max(1, n) == if n == 0 then 1 else n
  {
  }

  lemma CountSnoc(cfg: Config, bs: seq<Batch>, b: Batch)
    ensures ClosedBySize(cfg, bs + [b])
            == ClosedBySize(cfg, bs) + (if b.automatic && |b.messages| < cfg.maxMessages then 1 else 0)
    ensures ClosedByCount(cfg, bs + [b])
            == ClosedByCount(cfg, bs) + (if b.automatic && |b.messages| >= cfg.maxMessages then 1 else 0)
  {
    assert (bs + [b])[..|bs|] == bs;
  }

  /** The arithmetic of one step, with `n` batches closed so far and one more if `closed`. */
  lemma PotentialStep(n: nat, cap: nat, sent: nat, pending: nat, g: nat, pending': nat, closed: bool)
    requires n * cap <= 2 * sent + pending
    requires (if closed then cap else 0) + pending <= 2 * g + pending'
    ensures (n + if closed then 1 else 0) * cap <= 2 * (sent + g) + pending'
  {
    OneMoreTimes(n, cap);
  }

  /** The bytes of a run that can pay for batches: sent bytes count twice. */
  ghost predicate Paid(cfg: Config, t: Trace) {
    var cap := cfg.maxSize;
    ClosedBySize(cfg, t.batches) * cap <= 2 * CapSum(cap, Flatten(Groups(t.batches))) + CapSum(cap, t.state.pending)
  }

  lemma StepPaid(cfg: Config, t: Trace, e: Event)
    requires Paid(cfg, t) && StateInv(cfg, t.state)
    ensures var g, s' := Returned(cfg, t.state, e), Next(cfg, t.state, e);
            Paid(cfg, Trace(s', if g == [] then t.batches else t.batches + [Batch(g, e.Add?)]))
  {
    var g, s', cap := Returned(cfg, t.state, e), Next(cfg, t.state, e), cfg.maxSize;
    var n, sent := ClosedBySize(cfg, t.batches), CapSum(cap, Flatten(Groups(t.batches)));
    StepPays(cfg, t.state, e);
    CapSumBounds(cap, []);
    hide Next, Returned, StateInv, CapSum, ClosedBySize, Flatten, Groups;
    if g == [] {
      PotentialStep(n, cap, sent, CapSum(cap, t.state.pending), 0, CapSum(cap, s'.pending), false);
    } else {
      var b := Batch(g, e.Add?);
      GroupsSnoc(t.batches, b);
      CapSumAppend(cap, Flatten(Groups(t.batches)), g);
      CountSnoc(cfg, t.batches, b);
      PotentialStep(n, cap, sent, CapSum(cap, t.state.pending), CapSum(cap, g), CapSum(cap, s'.pending),
                    e.Add? && |g| < cfg.maxMessages);
    }
  }

  /** The potential behind the bound, over every run with any manual flushes in it. */
  lemma {:induction false} SizePotential(cfg: Config, es: seq<Event>)
    ensures Paid(cfg, Run(cfg, es))
  {
    if es == [] {
    } else {
      hide Paid, Next, Returned, StateInv;
      SizePotential(cfg, es[..|es| - 1]);
      StateInvHolds(cfg, es[..|es| - 1]);
      StepPaid(cfg, Run(cfg, es[..|es| - 1]), es[|es| - 1]);
    }
  }

  ghost predicate Filled(cfg: Config, bs: seq<Batch>) {
    ClosedByCount(cfg, bs) * Max(1, cfg.maxMessages) <= |Flatten(Groups(bs))|
  }

  lemma StepFilled(cfg: Config, bs: seq<Batch>, b: Batch)
    requires Filled(cfg, bs) && b.messages != []
    ensures Filled(cfg, bs + [b])
  {
    hide ClosedByCount, Flatten, Groups;
    GroupsSnoc(bs, b);
    CountSnoc(cfg, bs, b);
    OneMoreTimes(ClosedByCount(cfg, bs), Max(1, cfg.maxMessages));
  }

  /** Batches closed by count hold `max(1, max_messages)` messages each. */
  lemma {:induction false} CountPotential(cfg: Config, es: seq<Event>)
    ensures Filled(cfg, Run(cfg, es).batches)
  {
    if es == [] {
    } else {
      hide Next, Returned, Filled;
      var t, e := Run(cfg, es[..|es| - 1]), es[|es| - 1];
      CountPotential(cfg, es[..|es| - 1]);
      var g := Returned(cfg, t.state, e);
      if g != [] {
        StepFilled(cfg, t.batches, Batch(g, e.Add?));
      }
    }
  }

  /** In terms of what was added: batches closed by size cost at most twice the payload bytes added,
      batches closed by count at most the messages added. */
  lemma NextFitBounds(cfg: Config, es: seq<Event>)
    ensures var bs := Run(cfg, es).batches;
            && ClosedBySize(cfg, bs) * cfg.maxSize <= 2 * Payload(Added(es))
            && ClosedByCount(cfg, bs) * Max(1, cfg.maxMessages) <= |Added(es)|
  {
    var t := Run(cfg, es);
    var sent := Flatten(Groups(t.batches));
    SizePotential(cfg, es);
    CountPotential(cfg, es);
    Conservation(cfg, es);
    PayloadAppend(sent, t.state.pending);
    CapSumBounds(cfg.maxSize, sent);
    CapSumBounds(cfg.maxSize, t.state.pending);
  }

  /** A packing of `ms`: the same messages, in any order, cut into batches within the limits. */
  ghost predicate Packing(cfg: Config, parts: seq<seq<Bytes>>, ms: seq<Bytes>) {
    && (forall p :: p in parts ==> Legal(cfg, p))
    && multiset(Flatten(parts)) == multiset(ms)
  }

  lemma LegalCap(cfg: Config, p: seq<Bytes>)
    requires Legal(cfg, p)
    ensures CapSum(cfg.maxSize, p) <= cfg.maxSize
  {
    CapSumBounds(cfg.maxSize, p);
    if |p| == 1 {
      assert p == [p[0]] && CapSum(cfg.maxSize, p[1..]) == 0;
    }
  }

  lemma {:induction false} PackingHolds(cfg: Config, parts: seq<seq<Bytes>>)
    requires forall p :: p in parts ==> Legal(cfg, p)
    ensures CapSum(cfg.maxSize, Flatten(parts)) <= |parts| * cfg.maxSize
    ensures |Flatten(parts)| <= |parts| * Max(1, cfg.maxMessages)
  {
    if parts == [] {
    } else {
      hide CapSum, Max;
      var front, p, cap := parts[..|parts| - 1], parts[|parts| - 1], cfg.maxSize;
      assert p in parts;
      PackingHolds(cfg, front);
      CapSumAppend(cap, Flatten(front), p);
      LegalCap(cfg, p);
      OneMoreTimes(|front|, cap);
      OneMoreTimes(|front|, Max(1, cfg.maxMessages));
    }
  }

  lemma CancelFactor(a: nat, b: nat, k: nat)
    requires k > 0 && a * k <= b * k
    ensures a <= b
  {
    if a > b {
      TimesMonotone(b + 1, a, k);
      OneMoreTimes(b, k);
      assert false;
    }
  }

  lemma CancelHalf(r: nat, n: nat, k: nat, x: nat)
    requires k > 0 && r * k <= 2 * x && x <= n * k
    ensures r <= 2 * n
  {
    assert (2 * n) * k == 2 * (n * k);
    CancelFactor(r, 2 * n, k);
  }

  /** With no room for a single byte, every message leaves as its own batch. */
  lemma {:induction false} ZeroSizeRun(cfg: Config, es: seq<Event>)
    requires cfg.maxSize == 0
    ensures var t := Run(cfg, es); t.state.pending == [] && Automatic(t.batches) == |t.batches| == |Added(es)|
  {
    if es == [] {
    } else {
      ZeroSizeRun(cfg, es[..|es| - 1]);
    }
  }

  lemma SizeCompetitive(cfg: Config, es: seq<Event>, parts: seq<seq<Bytes>>)
    requires Packing(cfg, parts, Added(es)) && cfg.maxSize > 0
    ensures ClosedBySize(cfg, Run(cfg, es).batches) <= 2 * |parts|
  {
    hide ClosedBySize, CapSum;
    var t, n, cap := Run(cfg, es), |parts|, cfg.maxSize;
    var sent := Flatten(Groups(t.batches));
    PackingHolds(cfg, parts);
    Conservation(cfg, es);
    CapSumAppend(cap, sent, t.state.pending);
    CapSumPermuted(cap, Added(es), Flatten(parts));
    SizePotential(cfg, es);
    CancelHalf(ClosedBySize(cfg, t.batches), n, cap, CapSum(cap, Flatten(parts)));
  }

  lemma CountCompetitive(cfg: Config, es: seq<Event>, parts: seq<seq<Bytes>>)
    requires Packing(cfg, parts, Added(es))
    ensures ClosedByCount(cfg, Run(cfg, es).batches) <= |parts|
  {
    hide ClosedByCount, Max;
    var t := Run(cfg, es);
    PackingHolds(cfg, parts);
    assert |Added(es)| == |multiset(Added(es))| == |Flatten(parts)|;
    Conservation(cfg, es);
    CountPotential(cfg, es);
    MaxOfOne(cfg.maxMessages);
    CancelFactor(ClosedByCount(cfg, t.batches), |parts|, Max(1, cfg.maxMessages));
  }

  lemma ZeroSizeCompetitive(cfg: Config, es: seq<Event>, parts: seq<seq<Bytes>>)
    requires Packing(cfg, parts, Added(es)) && cfg.maxSize == 0 && cfg.maxMessages <= 3
    ensures Automatic(Run(cfg, es).batches) <= 3 * |parts|
  {
    PackingHolds(cfg, parts);
    assert |Added(es)| == |multiset(Added(es))| == |Flatten(parts)|;
    ZeroSizeRun(cfg, es);
    TimesMonotone(Max(1, cfg.maxMessages), 3, |parts|);
  }

  /** Next-fit opens at most three times as many batches as any packing of the messages added. */
  lemma ThreeCompetitive(cfg: Config, es: seq<Event>, parts: seq<seq<Bytes>>)
    requires Packing(cfg, parts, Added(es))
    requires cfg.maxSize > 0 || cfg.maxMessages <= 3
    ensures Automatic(Run(cfg, es).batches) <= 3 * |parts|
  {
    if cfg.maxSize == 0 {
      ZeroSizeCompetitive(cfg, es, parts);
    } else {
      AutomaticSplits(cfg, Run(cfg, es).batches);
      SizeCompetitive(cfg, es, parts);
      CountCompetitive(cfg, es, parts);
    }
  }

  function EmptyMessages(n: nat): seq<Bytes> {
    seq(n, i => [])
  }

  function AddAll(ms: seq<Bytes>): seq<Event> {
    seq(|ms|, i requires 0 <= i < |ms| => Add(ms[i]))
  }

  lemma {:induction false} AddedAll(ms: seq<Bytes>)
    ensures Added(AddAll(ms)) == ms
  {
    if ms == [] {
    } else {
      var front := ms[..|ms| - 1];
      assert AddAll(ms)[..|ms| - 1] == AddAll(front);
      AddedAll(front);
    }
  }

  lemma {:induction false} EmptyPayload(n: nat)
    ensures Payload(EmptyMessages(n)) == 0
  {
    if n == 0 {
    } else {
      assert EmptyMessages(n)[1..] == EmptyMessages(n - 1);
      EmptyPayload(n - 1);
    }
  }

  /** Outside that condition the bound fails: `max_messages` empty messages fit in one batch,
      but leave in one batch each. */
  lemma NotCompetitive(cfg: Config)
    requires cfg.maxSize == 0 && cfg.maxMessages > 3
    ensures exists es, parts ::
              Packing(cfg, parts, Added(es)) && Automatic(Run(cfg, es).batches) > 3 * |parts|
  {
    var ms := EmptyMessages(cfg.maxMessages);
    var es, parts := AddAll(ms), [ms];
    AddedAll(ms);
    EmptyPayload(cfg.maxMessages);
    assert parts[..0] == [] && Flatten(parts) == [] + ms == ms;
    assert Packing(cfg, parts, Added(es));
    ZeroSizeRun(cfg, es);
    assert Automatic(Run(cfg, es).batches) > 3 * |parts|;
  }

  /** The competitive bound holds of every run against every packing exactly when a batch may
      hold a byte, or at most three messages. */
  lemma CompetitiveIff(cfg: Config)
    ensures (forall es, parts :: Packing(cfg, parts, Added(es)) ==> Automatic(Run(cfg, es).batches) <= 3 * |parts|)
            <==> cfg.maxSize > 0 || cfg.maxMessages <= 3
  {
    hide Packing, Added, Automatic, Run;
    if cfg.maxSize > 0 || cfg.maxMessages <= 3 {
      forall es, parts | Packing(cfg, parts, Added(es))
        ensures Automatic(Run(cfg, es).batches) <= 3 * |parts|
      {
        ThreeCompetitive(cfg, es, parts);
      }
    } else {
      NotCompetitive(cfg);
    }
  }
}
