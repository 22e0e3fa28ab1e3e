/** Runs on which next-fit opens almost three times as many batches as needed. */
module NextFitLowerBound {
  import opened Prelude
  import opened Lists
  import opened WireFormat
  import opened Batcher
  import opened NextFit

  // ----- runs of adds -----

  /** Adding `ms` leaves `pending` behind after `k` batches. */
  ghost predicate Reaches(cfg: Config, ms: seq<Bytes>, pending: seq<Bytes>, k: nat) {
    var t := Run(cfg, AddAll(ms));
    t.state.pending == pending && t.state.size == Payload(pending) && Automatic(t.batches) == k
  }

  /** What one add does to the messages pending. */
  lemma AddStep(cfg: Config, s: State, m: Bytes)
    requires s.size == Payload(s.pending)
    ensures var size := Payload(s.pending) + |m|; var s' := Next(cfg, s, Add(m)); var g := Returned(cfg, s, Add(m));
            && s'.size == Payload(s'.pending)
            && if s.pending != [] && (size > cfg.maxSize || |s.pending| >= cfg.maxMessages)
               then s'.pending == [m] && g != []
               else if size >= cfg.maxSize || |s.pending| + 1 >= cfg.maxMessages
               then s'.pending == [] && g != []
               else s'.pending == s.pending + [m] && g == []
  {
    PayloadAppend(s.pending, [m]);
    PayloadAppend([], [m]);
    hide Record;
  }

  /** A run with one more add. */
  lemma RunAdd(cfg: Config, ms: seq<Bytes>, m: Bytes)
    ensures var t, t' := Run(cfg, AddAll(ms)), Run(cfg, AddAll(ms + [m]));
            && t'.state == Next(cfg, t.state, Add(m))
            && Automatic(t'.batches)
               == Automatic(t.batches) + (if Returned(cfg, t.state, Add(m)) == [] then 0 else 1)
  {
    hide Next, Returned;
    assert AddAll(ms + [m])[..|ms|] == AddAll(ms);
    var t := Run(cfg, AddAll(ms));
    var b := Batch(Returned(cfg, t.state, Add(m)), true);
    assert (t.batches + [b])[..|t.batches|] == t.batches;
  }

  /** The next add closes the batch before it, closes its own, or neither. */
  lemma ReachesAdd(cfg: Config, ms: seq<Bytes>, pending: seq<Bytes>, k: nat, m: Bytes)
    requires Reaches(cfg, ms, pending, k)
    ensures var size := Payload(pending) + |m|;
            if pending != [] && (size > cfg.maxSize || |pending| >= cfg.maxMessages)
            then Reaches(cfg, ms + [m], [m], k + 1)
            else if size >= cfg.maxSize || |pending| + 1 >= cfg.maxMessages
            then Reaches(cfg, ms + [m], [], k + 1)
            else Reaches(cfg, ms + [m], pending + [m], k)
  {
    hide Next, Returned, AddAll, Payload, Run, Automatic;
    AddStep(cfg, Run(cfg, AddAll(ms)).state, m);
    RunAdd(cfg, ms, m);
  }

  // ----- first batches full by count, then batches that just miss their size -----

  function Half(h: nat): Bytes {
    seq(h, i => 0)
  }

  const ONE: Bytes := [0]

  function Pairs(h: nat, n: nat): seq<Bytes> {
    if n == 0 then [] else Pairs(h, n - 1) + [Half(h)] + [ONE]
  }

  /** Empty messages fill `b` batches by count and leave `r` over. */
  lemma {:induction false} EmptiesReach(cfg: Config, total: nat, b: nat, r: nat)
    requires cfg.maxSize > 0 && r < cfg.maxMessages && total == b * cfg.maxMessages + r
    ensures Reaches(cfg, EmptyMessages(total), EmptyMessages(r), b)
    decreases total
  {
    hide Reaches;
    if total == 0 {
      NothingReached(cfg);
      assert b == 0 by {
        TimesMonotone(1, cfg.maxMessages, b);
      }
      assert EmptyMessages(0) == [];
    } else {
      var b', r' := if r > 0 then b else b - 1, if r > 0 then r - 1 else cfg.maxMessages - 1;
      if r == 0 {
        assert b > 0;
        OneMoreTimes(b - 1, cfg.maxMessages);
      }
      EmptiesReach(cfg, total - 1, b', r');
      EmptyPayload(r');
      EmptiesSnoc(total - 1);
      EmptiesSnoc(r');
      ReachesAdd(cfg, EmptyMessages(total - 1), EmptyMessages(r'), b', []);
    }
  }

  lemma EmptiesSnoc(n: nat)
    ensures EmptyMessages(n) + [[]] == EmptyMessages(n + 1) && |EmptyMessages(n)| == n
    ensures EmptyMessages(0) == []
  {
  }

  lemma NothingReached(cfg: Config)
    ensures Reaches(cfg, [], [], 0)
  {
  }

  lemma PairPayload(h: nat)
    ensures Payload([Half(h)]) == h && Payload([Half(h), ONE]) == h + 1
  {
    PayloadAppend([Half(h)], [ONE]);
    assert [Half(h)] + [ONE] == [Half(h), ONE];
  }

  /** A half-size message and a single byte stay pending, closing any pair before them. */
  lemma PairReaches(cfg: Config, ms: seq<Bytes>, before: seq<Bytes>, k: nat, h: nat)
    requires cfg.maxSize == 2 * h && h >= 2 && cfg.maxMessages >= 3
    requires Reaches(cfg, ms, before, k) && (before == [] || before == [Half(h), ONE])
    ensures Reaches(cfg, ms + [Half(h)] + [ONE], [Half(h), ONE], if before == [] then k else k + 1)
  {
    hide Reaches;
    PairPayload(h);
    assert |Half(h)| == h;
    hide Half;
    ReachesAdd(cfg, ms, before, k, Half(h));
    assert before == [] ==> before + [Half(h)] == [Half(h)];
    ReachesAdd(cfg, ms + [Half(h)], [Half(h)], if before == [] then k else k + 1, ONE);
    assert [Half(h)] + [ONE] == [Half(h), ONE];
  }

  lemma {:induction false} PairsReach(cfg: Config, base: seq<Bytes>, k: nat, h: nat, n: nat)
    requires cfg.maxSize == 2 * h && h >= 2 && cfg.maxMessages >= 3 && n >= 1
    requires Reaches(cfg, base, [], k)
    ensures Reaches(cfg, base + Pairs(h, n), [Half(h), ONE], k + n - 1)
  {
    hide Reaches, Half;
    var ms := base + Pairs(h, n - 1);
    assert ms + [Half(h)] + [ONE] == base + Pairs(h, n);
    if n == 1 {
      assert ms == base;
      PairReaches(cfg, ms, [], k, h);
    } else {
      PairsReach(cfg, base, k, h, n - 1);
      PairReaches(cfg, ms, [Half(h), ONE], k + n - 2, h);
    }
  }

  // ----- the same messages, packed tightly -----

  function FullPart(h: nat, n: nat): seq<Bytes>
    requires n >= 2
  {
    [Half(h)] + [Half(h)] + EmptyMessages(n - 2)
  }

  function FullParts(h: nat, n: nat, k: nat): seq<seq<Bytes>>
    requires n >= 2
  {
    if k == 0 then [] else FullParts(h, n, k - 1) + [FullPart(h, n)]
  }

  function Ones(n: nat): seq<Bytes> {
    seq(n, i => ONE)
  }

  /** So many empty messages, half-size messages and one-byte messages, in any order. */
  ghost predicate Holds(h: nat, ms: seq<Bytes>, empties: nat, halves: nat, ones: nat) {
    multiset(ms) == multiset{}[[] := empties] + multiset{}[Half(h) := halves] + multiset{}[ONE := ones]
  }

  lemma HoldsAppend(h: nat, ms: seq<Bytes>, a: nat, b: nat, c: nat, ms': seq<Bytes>, a': nat, b': nat, c': nat)
    requires Holds(h, ms, a, b, c) && Holds(h, ms', a', b', c')
    ensures Holds(h, ms + ms', a + a', b + b', c + c')
  {
  }

  lemma SameMessages(h: nat, ms: seq<Bytes>, ms': seq<Bytes>, a: nat, b: nat, c: nat)
    requires Holds(h, ms, a, b, c) && Holds(h, ms', a, b, c)
    ensures multiset(ms) == multiset(ms')
  {
  }

  lemma HoldsFew(h: nat)
    ensures Holds(h, [], 0, 0, 0) && Holds(h, [[]], 1, 0, 0)
    ensures Holds(h, [Half(h)], 0, 1, 0) && Holds(h, [ONE], 0, 0, 1)
  {
  }

  lemma {:induction false} EmptiesHold(h: nat, n: nat)
    ensures Holds(h, EmptyMessages(n), n, 0, 0)
  {
    hide Holds;
    HoldsFew(h);
    if n == 0 {
      assert EmptyMessages(n) == [];
    } else {
      EmptiesHold(h, n - 1);
      HoldsAppend(h, EmptyMessages(n - 1), n - 1, 0, 0, [[]], 1, 0, 0);
      assert EmptyMessages(n) == EmptyMessages(n - 1) + [[]];
    }
  }

  lemma {:induction false} OnesHold(h: nat, n: nat)
    ensures Holds(h, Ones(n), 0, 0, n) && Payload(Ones(n)) == n
  {
    hide Holds;
    HoldsFew(h);
    if n == 0 {
      assert Ones(n) == [];
    } else {
      OnesHold(h, n - 1);
      HoldsAppend(h, Ones(n - 1), 0, 0, n - 1, [ONE], 0, 0, 1);
      assert Ones(n) == Ones(n - 1) + [ONE];
      PayloadAppend(Ones(n - 1), [ONE]);
    }
  }

  lemma HoldsPair(h: nat, ms: seq<Bytes>, n: nat, half: seq<Bytes>, one: seq<Bytes>)
    requires Holds(h, ms, 0, n, n) && Holds(h, half, 0, 1, 0) && Holds(h, one, 0, 0, 1)
    ensures Holds(h, ms + half + one, 0, n + 1, n + 1)
  {
    hide Holds;
    HoldsAppend(h, ms, 0, n, n, half, 0, 1, 0);
    HoldsAppend(h, ms + half, 0, n + 1, n, one, 0, 0, 1);
  }

  lemma {:induction false} PairsHold(h: nat, n: nat)
    ensures Holds(h, Pairs(h, n), 0, n, n)
  {
    hide Holds, Half;
    HoldsFew(h);
    if n == 0 {
    } else {
      PairsHold(h, n - 1);
      HoldsPair(h, Pairs(h, n - 1), n - 1, [Half(h)], [ONE]);
    }
  }

  lemma FullPartHolds(h: nat, n: nat)
    requires n >= 2
    ensures Holds(h, FullPart(h, n), n - 2, 2, 0)
  {
    hide Holds, Half, EmptyMessages;
    HoldsFew(h);
    HoldsAppend(h, [Half(h)], 0, 1, 0, [Half(h)], 0, 1, 0);
    EmptiesHold(h, n - 2);
    HoldsAppend(h, [Half(h)] + [Half(h)], 0, 2, 0, EmptyMessages(n - 2), n - 2, 0, 0);
  }

  lemma FullPartSize(h: nat, n: nat)
    requires n >= 2
    ensures |FullPart(h, n)| == n && Payload(FullPart(h, n)) == 2 * h
  {
    hide Payload;
    EmptyPayload(n - 2);
    PayloadAppend([Half(h)] + [Half(h)], EmptyMessages(n - 2));
    PayloadAppend([Half(h)], [Half(h)]);
    PairPayload(h);
  }

  function EmptiesIn(n: nat, k: nat): nat
    requires n >= 2
  {
    if k == 0 then 0 else EmptiesIn(n, k - 1) + (n - 2)
  }

  lemma {:induction false} EmptiesInAll(n: nat, k: nat)
    requires n >= 2
    ensures EmptiesIn(n, k) == (n - 2) * k
    decreases k
  {
    if k == 0 {
    } else {
      EmptiesInAll(n, k - 1);
      assert (n - 2) * k == (n - 2) * (k - 1) + (n - 2);
    }
  }

  lemma {:induction false} FullPartsHold(h: nat, n: nat, k: nat)
    requires n >= 2
    ensures Holds(h, Flatten(FullParts(h, n, k)), EmptiesIn(n, k), 2 * k, 0)
    decreases k
  {
    hide Holds, FullPart;
    if k == 0 {
      HoldsFew(h);
    } else {
      var front, part := FullParts(h, n, k - 1), FullPart(h, n);
      FullPartsHold(h, n, k - 1);
      FullPartHolds(h, n);
      hide Flatten;
      FlattenSnoc(front, part);
      HoldsAppend(h, Flatten(front), EmptiesIn(n, k - 1), 2 * (k - 1), 0, part, n - 2, 2, 0);
    }
  }

  lemma {:induction false} FullPartsAlike(h: nat, n: nat, k: nat)
    requires n >= 2
    ensures |FullParts(h, n, k)| == k && forall p :: p in FullParts(h, n, k) ==> p == FullPart(h, n)
    decreases k
  {
    hide FullPart;
    if k == 0 {
    } else {
      FullPartsAlike(h, n, k - 1);
    }
  }

  /** `n` parts of two halves and `n - 2` empty messages, and two parts of `n` single bytes. */
  function Parts(h: nat, n: nat): seq<seq<Bytes>>
    requires n >= 2
  {
    FullParts(h, n, n) + [Ones(n)] + [Ones(n)]
  }

  lemma PartsHold(h: nat, n: nat)
    requires n >= 2
    ensures |Parts(h, n)| == n + 2 && Holds(h, Flatten(Parts(h, n)), EmptiesIn(n, n), 2 * n, 2 * n)
  {
    hide Holds, EmptiesIn, Ones, FullParts, Flatten;
    var full, ones, e := FullParts(h, n, n), Ones(n), EmptiesIn(n, n);
    FullPartsHold(h, n, n);
    FullPartsAlike(h, n, n);
    OnesHold(h, n);
    FlattenSnoc(full, ones);
    FlattenSnoc(full + [ones], ones);
    HoldsAppend(h, Flatten(full), e, 2 * n, 0, ones, 0, 0, n);
    HoldsAppend(h, Flatten(full) + ones, e, 2 * n, n, ones, 0, 0, n);
  }

  lemma PartsLegal(cfg: Config, h: nat)
    requires cfg.maxSize == 2 * h && 2 <= cfg.maxMessages <= h
    ensures forall p :: p in Parts(h, cfg.maxMessages) ==> Legal(cfg, p)
  {
    var n := cfg.maxMessages;
    FullPartsAlike(h, n, n);
    FullPartSize(h, n);
    OnesHold(h, n);
    hide FullParts, FullPart;
    forall p | p in Parts(h, n)
      ensures Legal(cfg, p)
    {
      assert p in FullParts(h, n, n) || p == Ones(n);
    }
  }

  function Messages(h: nat, n: nat): seq<Bytes>
    requires n >= 2
  {
    EmptyMessages(EmptiesIn(n, n)) + Pairs(h, 2 * n)
  }

  /** With `n` messages to a batch, `n + 2` batches are enough and next-fit opens `3n - 3`. */
  lemma AlmostThreefold(cfg: Config, h: nat)
    requires cfg.maxSize == 2 * h && 3 <= cfg.maxMessages <= h
    ensures var n := cfg.maxMessages; var es, parts := AddAll(Messages(h, n)), Parts(h, n);
            && Packing(cfg, parts, Added(es)) && |parts| == n + 2
            && Automatic(Run(cfg, es).batches) == 3 * n - 3
  {
    var n := cfg.maxMessages;
    AddedAll(Messages(h, n));
    PartsLegal(cfg, h);
    MessagesHold(h, n);
    PartsHold(h, n);
    SameMessages(h, Flatten(Parts(h, n)), Messages(h, n), EmptiesIn(n, n), 2 * n, 2 * n);
    MessagesReach(cfg, h);
  }

  lemma MessagesHold(h: nat, n: nat)
    requires n >= 2
    ensures Holds(h, Messages(h, n), EmptiesIn(n, n), 2 * n, 2 * n)
  {
    hide Holds, Pairs, EmptiesIn, EmptyMessages;
    var e := EmptiesIn(n, n);
    EmptiesHold(h, e);
    PairsHold(h, 2 * n);
    HoldsAppend(h, EmptyMessages(e), e, 0, 0, Pairs(h, 2 * n), 0, 2 * n, 2 * n);
  }

  lemma MessagesReach(cfg: Config, h: nat)
    requires cfg.maxSize == 2 * h && 3 <= cfg.maxMessages <= h
    ensures Reaches(cfg, Messages(h, cfg.maxMessages), [Half(h), ONE], 3 * cfg.maxMessages - 3)
  {
    hide Pairs, Reaches, Half;
    var n := cfg.maxMessages;
    var e := EmptiesIn(n, n);
    EmptiesInAll(n, n);
    hide EmptiesIn;
    EmptiesReach(cfg, e, n - 2, 0);
    EmptiesSnoc(0);
    hide EmptyMessages;
    PairsReach(cfg, EmptyMessages(e), n - 2, h, 2 * n);
  }

  lemma NineTimes(p: nat, q: nat)
    requires q > 0 && p < 3 * q
    ensures (3 * (9 * q) - 3) * q > p * (9 * q + 2)
  {
    TimesMonotone(p, 3 * q - 1, 9 * q + 2);
    assert (3 * q - 1) * (9 * q + 2) == 27 * (q * q) - 3 * q - 2;
    assert (27 * q - 3) * q == 27 * (q * q) - 3 * q;
  }

  /** So the factor three of the competitive bound is best possible: every smaller one, `p / q`,
      fails for some configuration in which a batch may hold a byte. */
  lemma ThreeIsBestPossible(p: nat, q: nat)
    requires q > 0 && p < 3 * q
    ensures exists cfg: Config, es: seq<Event>, parts: seq<seq<Bytes>> ::
              cfg.maxSize > 0 && Packing(cfg, parts, Added(es)) && Automatic(Run(cfg, es).batches) * q > p * |parts|
  {
    hide Packing, Run, Automatic, Added, Parts, Messages, AddAll;
    var n := 9 * q;
    var cfg, es, parts := Config(2 * n, n), AddAll(Messages(n, n)), Parts(n, n);
    AlmostThreefold(cfg, n);
    NineTimes(p, q);
    assert Automatic(Run(cfg, es).batches) * q > p * |parts|;
  }
}
