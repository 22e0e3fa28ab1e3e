/** The online next-fit message batcher. */
module Batcher {
  import opened Prelude
  import opened Lists
  import opened WireFormat

  datatype Config = Config(maxSize: nat, maxMessages: nat)

  datatype Stats = Stats(batches: nat, messages: nat, avgMessages: real, avgSize: real)

  datatype State = State(pending: seq<Bytes>, size: nat, stats: Stats)

  const EMPTY := State([], 0, Stats(0, 0, 0.0, 0.0))

  datatype Event = Add(message: Bytes) | Flush

  /** The statistics after emitting `g`: counters, and running means over exact reals. */
  function Record(s: Stats, g: seq<Bytes>): Stats {
    var k := s.batches + 1;
    Stats(k, s.messages + |g|,
          (s.messages + |g|) as real / k as real,
          (s.avgSize * (k - 1) as real + |Encode(g)| as real) / k as real)
  }

  function Flushed(s: State): State {
    if s.pending == [] then s else State([], 0, Record(s.stats, s.pending))
  }

  function Overflows(cfg: Config, s: State, m: Bytes): bool {
    s.pending != [] && (s.size + |m| > cfg.maxSize || |s.pending| >= cfg.maxMessages)
  }

  function Pushed(s: State, m: Bytes): State {
    s.(pending := s.pending + [m], size := s.size + |m|)
  }

  function IsReady(cfg: Config, s: State): bool {
    s.size >= cfg.maxSize || |s.pending| >= cfg.maxMessages
  }

  function Next(cfg: Config, s: State, e: Event): State {
    match e
    case Flush => Flushed(s)
    case Add(m) =>
      if Overflows(cfg, s, m) then Pushed(Flushed(s), m)
      else if IsReady(cfg, Pushed(s, m)) then Flushed(Pushed(s, m))
      else Pushed(s, m)
  }

  /** The messages of the batch that `e` makes the batcher return; [] when it returns none. */
  function Returned(cfg: Config, s: State, e: Event): seq<Bytes> {
    match e
    case Flush => s.pending
    case Add(m) =>
      if Overflows(cfg, s, m) then s.pending
      else if IsReady(cfg, Pushed(s, m)) then s.pending + [m]
      else []
  }

  class MessageBatcher {
    const cfg: Config
    var pending: seq<Bytes>
    var currentSize: nat
    var stats: Stats

    ghost function Model(): State
      reads this
    {
      State(pending, currentSize, stats)
    }

    constructor (maxBatchSize: nat, maxMessages: nat)
      ensures cfg == Config(maxBatchSize, maxMessages) && Model() == EMPTY
    {
      cfg := Config(maxBatchSize, maxMessages);
      pending, currentSize, stats := [], 0, Stats(0, 0, 0.0, 0.0);
    }

    method AddMessage(message: Bytes) returns (r: Option<Bytes>)
      modifies this
      ensures Model() == Next(cfg, old(Model()), Add(message))
      ensures var g := Returned(cfg, old(Model()), Add(message));
              r == if g == [] then None else Some(Encode(g))
    {
      var messageSize := |message|;
      if |pending| != 0 && (currentSize + messageSize > cfg.maxSize || |pending| >= cfg.maxMessages) {
        var batch := FlushPending();
        pending := pending + [message];
        currentSize := messageSize;
        return Some(batch);
      }
      pending := pending + [message];
      currentSize := currentSize + messageSize;
      if currentSize >= cfg.maxSize || |pending| >= cfg.maxMessages {
        var batch := FlushPending();
        return Some(batch);
      }
      return None;
    }

    method FlushPending() returns (batch: Bytes)
      modifies this
      ensures Model() == Next(cfg, old(Model()), Flush)
      ensures batch == if old(pending) == [] then [] else Encode(old(pending))
      ensures Decode(batch) == Ok(old(pending)) <==> old(pending) != [] && Fits(old(pending))
    {
      RoundTripIff(pending);
      EmptyIsNotABatch();
      hide Le32, Decode, Fits;
      if |pending| == 0 {
        return [];
      }
      batch := Le32(|pending|);
      for i := 0 to |pending|
        invariant pending == old(pending) && Model() == old(Model())
        invariant batch + EncodeBody(pending[i..]) == Encode(pending)
      {
        assert pending[i..][1..] == pending[i + 1..];
        batch := batch + Le32(|pending[i]|) + pending[i];
      }
      assert pending[|pending|..] == [];
      var k := stats.batches + 1;
      var total := stats.messages + |pending|;
      stats := Stats(k, total, total as real / k as real,
                     (stats.avgSize * (k - 1) as real + |batch| as real) / k as real);
      pending := [];
      currentSize := 0;
    }
  }

  /** A batch in a run's history, and whether an `Add` rather than a manual flush emitted it. */
  datatype Batch = Batch(messages: seq<Bytes>, automatic: bool)

  datatype Trace = Trace(state: State, batches: seq<Batch>)

  function Run(cfg: Config, es: seq<Event>): Trace {
    if es == [] then Trace(EMPTY, []) else
      var t := Run(cfg, es[..|es| - 1]);
      var e := es[|es| - 1];
      var g := Returned(cfg, t.state, e);
      Trace(Next(cfg, t.state, e), if g == [] then t.batches else t.batches + [Batch(g, e.Add?)])
  }

  function Added(es: seq<Event>): seq<Bytes> {
    if es == [] then [] else
      var e := es[|es| - 1];
      Added(es[..|es| - 1]) + (if e.Add? then [e.message] else [])
  }

  function Groups(bs: seq<Batch>): seq<seq<Bytes>> {
    seq(|bs|, i requires 0 <= i < |bs| => bs[i].messages)
  }

  lemma GroupsSnoc(bs: seq<Batch>, b: Batch)
    ensures Groups(bs + [b]) == Groups(bs) + [b.messages]
    ensures Flatten(Groups(bs + [b])) == Flatten(Groups(bs)) + b.messages
  {
    assert Groups(bs + [b]) == Groups(bs) + [b.messages];
    FlattenSnoc(Groups(bs), b.messages);
  }

  /** Within the limits: one message, or a payload of at most `maxSize`; and few enough messages. */
  predicate Legal(cfg: Config, g: seq<Bytes>) {
    1 <= |g| <= Max(1, cfg.maxMessages) && (|g| == 1 || Payload(g) <= cfg.maxSize)
  }

  /** What holds of the batcher's state after every run. */
  ghost predicate StateInv(cfg: Config, s: State) {
    && s.size == Payload(s.pending)
    && (s.pending == [] || (|s.pending| < cfg.maxMessages && Legal(cfg, s.pending)))
  }

  lemma {:induction false} StateInvHolds(cfg: Config, es: seq<Event>)
    ensures StateInv(cfg, Run(cfg, es).state)
  {
    if es == [] {
    } else {
      var s := Run(cfg, es[..|es| - 1]).state;
      var e := es[|es| - 1];
      StateInvHolds(cfg, es[..|es| - 1]);
      if e.Add? {
        PayloadAppend(s.pending, [e.message]);
        PayloadAppend([], [e.message]);
      }
    }
  }

  /** Every batch ever returned is within the limits. */
  lemma {:induction false} BatchLimits(cfg: Config, es: seq<Event>)
    ensures forall b :: b in Run(cfg, es).batches ==> Legal(cfg, b.messages)
  {
    if es == [] {
    } else {
      var s := Run(cfg, es[..|es| - 1]).state;
      var e := es[|es| - 1];
      StateInvHolds(cfg, es[..|es| - 1]);
      BatchLimits(cfg, es[..|es| - 1]);
      if e.Add? {
        PayloadAppend(s.pending, [e.message]);
      }
    }
  }

  lemma StepConserves(cfg: Config, s: State, e: Event)
    ensures Returned(cfg, s, e) + Next(cfg, s, e).pending == s.pending + (if e.Add? then [e.message] else [])
  {
  }

  lemma Regroup<T>(done: seq<T>, g: seq<T>, rest: seq<T>, before: seq<T>, x: seq<T>)
    requires g + rest == before + x
    ensures (done + g) + rest == (done + before) + x
  {
    assert (done + g) + rest == done + (g + rest);
    assert (done + before) + x == done + (before + x);
  }

  /** Nothing added is lost, duplicated or reordered. */
  lemma {:induction false} Conservation(cfg: Config, es: seq<Event>)
    ensures var t := Run(cfg, es); Flatten(Groups(t.batches)) + t.state.pending == Added(es)
  {
    hide Next, Returned;
    if es == [] {
    } else {
      var t := Run(cfg, es[..|es| - 1]);
      var e := es[|es| - 1];
      Conservation(cfg, es[..|es| - 1]);
      var g := Returned(cfg, t.state, e);
      var done := Flatten(Groups(t.batches));
      StepConserves(cfg, t.state, e);
      if g != [] {
        GroupsSnoc(t.batches, Batch(g, e.Add?));
      }
      assert Flatten(Groups(Run(cfg, es).batches)) == done + g;
      Regroup(done, g, Next(cfg, t.state, e).pending, t.state.pending, if e.Add? then [e.message] else []);
    }
  }

  /** Bytes on the wire for a list of batches, headers included. */
  function WireBytes(bs: seq<Batch>): nat {
    if bs == [] then 0 else
      WireBytes(bs[..|bs| - 1]) + |Encode(bs[|bs| - 1].messages)|
  }

  lemma {:induction false} WireBytesExact(bs: seq<Batch>)
    ensures WireBytes(bs) == Payload(Flatten(Groups(bs))) + 4 * |Flatten(Groups(bs))| + 4 * |bs|
  {
    if bs == [] {
    } else {
      var front, b := bs[..|bs| - 1], bs[|bs| - 1];
      assert bs == front + [b];
      WireBytesExact(front);
      GroupsSnoc(front, b);
      EncodedLength(b.messages);
      PayloadAppend(Flatten(Groups(front)), b.messages);
    }
  }

  lemma DivideThenMultiply(x: real, k: real)
    requires k > 0.0
    ensures x / k * k == x
  {
  }

  /** Mean times count is the true total, for messages and for wire bytes. */
  ghost predicate MeansExact(st: Stats, bytes: nat) {
    && st.avgMessages * st.batches as real == st.messages as real
    && st.avgSize * st.batches as real == bytes as real
  }

  lemma RecordExact(st: Stats, g: seq<Bytes>, bytes: nat)
    requires MeansExact(st, bytes)
    ensures var st' := Record(st, g);
            && st'.batches == st.batches + 1 && st'.messages == st.messages + |g|
            && MeansExact(st', bytes + |Encode(g)|)
  {
    hide Encode;
    var k := st.batches + 1;
    DivideThenMultiply((st.messages + |g|) as real, k as real);
    DivideThenMultiply((bytes + |Encode(g)|) as real, k as real);
  }

  lemma StepStats(cfg: Config, s: State, e: Event)
    ensures var g := Returned(cfg, s, e);
            Next(cfg, s, e).stats == if g == [] then s.stats else Record(s.stats, g)
  {
  }

  /** The statistics `st` are those of the batches `bs`. */
  ghost predicate StatsOf(st: Stats, bs: seq<Batch>) {
    st.batches == |bs| && st.messages == |Flatten(Groups(bs))| && MeansExact(st, WireBytes(bs))
  }

  lemma StatsOfSnoc(st: Stats, bs: seq<Batch>, b: Batch)
    requires StatsOf(st, bs)
    ensures StatsOf(Record(st, b.messages), bs + [b])
  {
    hide Record, MeansExact, Flatten, Groups, Encode;
    assert (bs + [b])[..|bs|] == bs;
    GroupsSnoc(bs, b);
    RecordExact(st, b.messages, WireBytes(bs));
  }

  lemma {:induction false} RunStats(cfg: Config, es: seq<Event>)
    ensures StatsOf(Run(cfg, es).state.stats, Run(cfg, es).batches)
  {
    if es == [] {
    } else {
      hide StatsOf, Next, Returned, Record;
      var t, e := Run(cfg, es[..|es| - 1]), es[|es| - 1];
      RunStats(cfg, es[..|es| - 1]);
      StepStats(cfg, t.state, e);
      StatsOfSnoc(t.state.stats, t.batches, Batch(Returned(cfg, t.state, e), e.Add?));
    }
  }

  /** Both running means are exact after every run; a batch weighs its payload, 4 bytes per
      message and 4 bytes for the count. */
  lemma ExactMeans(cfg: Config, es: seq<Event>)
    ensures var t := Run(cfg, es); var ms := Flatten(Groups(t.batches));
            && t.state.stats.batches == |t.batches|
            && t.state.stats.messages == |ms|
            && MeansExact(t.state.stats, Payload(ms) + 4 * |ms| + 4 * |t.batches|)
  {
    hide Run, MeansExact, Flatten, Groups, Payload, WireBytes;
    RunStats(cfg, es);
    WireBytesExact(Run(cfg, es).batches);
  }
}
