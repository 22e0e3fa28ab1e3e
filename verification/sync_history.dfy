/** The phase and the requests of a run, told from its events. */
module SyncHistory {
  import opened Prelude
  import opened Sync
  import opened SyncObject
  import opened SyncRuns

  // ----- the phase -----

  /** A download of `from` to `to` is complete exactly when as many digests as the range has
      numbers have come in, those buffered before it included. */
  lemma DownloadCompletesIff(cfg: Config, s: State, start: nat, from: U64, to: U64, p: Peer,
                             now: nat, txs: seq<Transaction>, q: Peer)
    requires from <= to && !(from == 0 && to as int == U64_SPAN - 1)
    ensures var s1 := Next(cfg, s, At(start, StartTransactions(from, to, p)));
            var s2 := Next(cfg, s1, At(now, GotTransactions(txs, q)));
            var n := |s.downloaded.Keys + DigestsOf(txs)|;
            if n >= to - from + 1 then s2.phase == ApplyingTransactions(n)
            else s2.phase == DownloadingTransactions(from, to, start)
  {
    hide NextSnapshotRequests, NextTransactionRequests, NextSnapshots, NextRequestId, HasAll;
    StoreKeys(s.downloaded, txs);
    hide DigestsOf, Store;
    var all := Store(s.downloaded, txs);
    assert |all| == |all.Keys|;
    CompleteIff(from, to, start, |all|);
  }

  lemma CompleteIff(from: U64, to: U64, start: nat, n: nat)
    requires from <= to && !(from == 0 && to as int == U64_SPAN - 1)
    ensures HasAll(DownloadingTransactions(from, to, start), n) <==> n >= to - from + 1
  {
    ExpectedIff(from, to);
  }

  /** Some pending request of `s` is no longer pending in `s'`. */
  ghost predicate Dropped(s: State, s': State) {
    || (exists k :: k in s.snapshotRequests && k !in s'.snapshotRequests)
    || (exists k :: k in s.transactionRequests && k !in s'.transactionRequests)
  }

  /** The phase after the events, from what was started, what arrived and what was dropped. */
  ghost function PhaseTold(cfg: Config, es: seq<Event>): Phase {
    if es == [] then Idle else
      var front, e := es[..|es| - 1], es[|es| - 1];
      var before := PhaseTold(cfg, front);
      match e.op
      case StartSnapshot(target, _) =>
        if before.Idle? || before.Synced? then DownloadingSnapshot(target, e.now) else before
      case GotSnapshot(sn, _) => VerifyingSnapshot(sn.sequence)
      case Verdict(q, valid) =>
        if !valid then Idle
        else if Awaiting(front, q).None? then before
        else if forall d :: d in Awaiting(front, q).value.transactions ==> d in DigestsOf(Arrivals(cfg, front))
        then Synced(q)
        else DownloadingTransactions(q, q, e.now)
      case StartTransactions(from, to, _) => DownloadingTransactions(from, to, e.now)
      case GotTransactions(txs, _) =>
        var n := |DigestsOf(Arrivals(cfg, front) + txs)|;
        if before.DownloadingTransactions? && n >= (before.to as int - before.from as int + 1) % U64_SPAN
        then ApplyingTransactions(n)
        else before
      case Complete(q) => Synced(q)
      case Timeouts => if Dropped(Run(cfg, front), Run(cfg, es)) then Idle else before
      case Reset => Idle
  }

  lemma {:induction false} PhaseExact(cfg: Config, es: seq<Event>)
    ensures Run(cfg, es).phase == PhaseTold(cfg, es)
  {
    if es == [] {
    } else {
      hide DigestsOf, Store, Awaiting, Arrivals, Dropped, GivesUp, Expired, TimedOut;
      hide NextSnapshotRequests, NextTransactionRequests, NextSnapshots, NextDownloaded, NextRequestId;
      var front, e := es[..|es| - 1], es[|es| - 1];
      var s := Run(cfg, front);
      PhaseExact(cfg, front);
      if e.op.Verdict? {
        PhaseAfterVerdict(cfg, front, e);
      } else if e.op.GotTransactions? {
        BufferedCount(cfg, front, e.op.transactions);
      } else if e.op.Timeouts? {
        GivesUpIff(cfg, s, e);
      }
    }
  }

  lemma PhaseAfterVerdict(cfg: Config, es: seq<Event>, e: Event)
    requires e.op.Verdict?
    ensures var s := Run(cfg, es); var sn := Awaiting(es, e.op.sequence);
            Next(cfg, s, e).phase
            == if !e.op.valid then Idle
               else if sn.None? then s.phase
               else if forall d :: d in sn.value.transactions ==> d in DigestsOf(Arrivals(cfg, es))
               then Synced(e.op.sequence)
               else DownloadingTransactions(e.op.sequence, e.op.sequence, e.now)
  {
    hide DigestsOf, Awaiting, Arrivals, Run;
    hide NextSnapshotRequests, NextTransactionRequests, NextSnapshots, NextDownloaded, NextRequestId;
    PendingIsAwaiting(cfg, es, e.op.sequence);
    BufferedDigests(cfg, es);
  }

  lemma BufferedDigests(cfg: Config, es: seq<Event>)
    ensures Run(cfg, es).downloaded.Keys == DigestsOf(Arrivals(cfg, es))
  {
    hide DigestsOf, Store;
    DownloadedIsArrivals(cfg, es);
    StoreKeys(map[], Arrivals(cfg, es));
  }

  lemma BufferedCount(cfg: Config, es: seq<Event>, txs: seq<Transaction>)
    ensures |Store(Run(cfg, es).downloaded, txs)| == |DigestsOf(Arrivals(cfg, es) + txs)|
  {
    hide DigestsOf, Store;
    DownloadedIsArrivals(cfg, es);
    StoreAppend(map[], Arrivals(cfg, es), txs);
    StoreKeys(map[], Arrivals(cfg, es) + txs);
    var all := Store(Run(cfg, es).downloaded, txs);
    assert |all| == |all.Keys|;
  }

  /** Handling timeouts gives up exactly when it drops a request. */
  lemma GivesUpIff(cfg: Config, s: State, e: Event)
    requires e.op.Timeouts?
    ensures var ks, ks' := TimedOut(cfg, s.snapshotRequests, e.now), TimedOut(cfg, s.transactionRequests, e.now);
            GivesUp(s.snapshotRequests, ks) || GivesUp(s.transactionRequests, ks') <==> Dropped(s, Next(cfg, s, e))
  {
    DroppedIff(s.snapshotRequests, TimedOut(cfg, s.snapshotRequests, e.now), e.now);
    DroppedIff(s.transactionRequests, TimedOut(cfg, s.transactionRequests, e.now), e.now);
    hide GivesUp, Expired, TimedOut, NextPhase;
  }

  lemma DroppedIff(m: map<nat, Request>, ks: set<nat>, now: nat)
    ensures GivesUp(m, ks) <==> exists k :: k in m && k !in Expired(m, ks, now)
  {
    if GivesUp(m, ks) {
      var k :| k in ks && k in m && m[k].retries >= MAX_RETRIES;
      assert k !in Expired(m, ks, now);
    }
  }

  // ----- snapshots that wait for a verdict -----

  /** A waiting snapshot carries the peer and the time of its arrival. */
  lemma {:induction false} WaitingExact(cfg: Config, es: seq<Event>, q: nat) returns (i: nat)
    requires q in Run(cfg, es).snapshots
    ensures i < |es| && es[i].op.GotSnapshot?
    ensures Run(cfg, es).snapshots[q] == Pending(es[i].op.snapshot, es[i].op.peer, es[i].now)
    ensures Awaiting(es, q) == Some(es[i].op.snapshot)
    ensures forall k :: i < k < |es| ==> !Touches(es[k].op, q)
  {
    hide NextPhase, NextSnapshotRequests, NextTransactionRequests, NextDownloaded, NextRequestId;
    var front, e := es[..|es| - 1], es[|es| - 1];
    if e.op.GotSnapshot? && e.op.snapshot.sequence == q {
      i := |es| - 1;
    } else {
      i := WaitingExact(cfg, front, q);
    }
  }

  // ----- snapshot requests -----

  /** The event asks for snapshot `q`: nothing is in progress, and there is room. */
  predicate AsksFor(cfg: Config, s: State, e: Event, q: nat) {
    && e.op.StartSnapshot? && e.op.target == q
    && (s.phase.Idle? || s.phase.Synced?) && |s.snapshotRequests| < cfg.maxRequests
  }

  /** The last chance of a pending request has run out. */
  predicate RunsOut(cfg: Config, r: Request, now: nat) {
    r.retries == 3 && Elapsed(now, r.requestedAt) > cfg.timeout
  }

  /** A snapshot request is pending after a step exactly if the step asked for it, or it was and
      has neither been answered, nor reset, nor dropped. */
  lemma SnapshotPendingIff(cfg: Config, s: State, e: Event, q: nat)
    requires RequestsOk(cfg, s)
    ensures var m, m' := s.snapshotRequests, Next(cfg, s, e).snapshotRequests;
            && (q in m' <==> || AsksFor(cfg, s, e, q)
                             || (q in m && !e.op.Reset? && !(e.op.GotSnapshot? && e.op.snapshot.sequence == q)
                                 && !(e.op.Timeouts? && RunsOut(cfg, m[q], e.now))))
            && (AsksFor(cfg, s, e, q) ==> m'[q] == Request(e.op.target, e.op.target, e.op.peer, e.now, 0))
            && (q in m' && !AsksFor(cfg, s, e, q) ==>
                  m'[q] == if e.op.Timeouts? && Elapsed(e.now, m[q].requestedAt) > cfg.timeout
                           then m[q].(retries := m[q].retries + 1, requestedAt := e.now) else m[q])
  {
    hide NextPhase, NextTransactionRequests, NextSnapshots, NextDownloaded, NextRequestId;
  }

  /** The last step, among `es`, that asked for snapshot `q`. */
  function LastAsk(cfg: Config, es: seq<Event>, q: nat): (k: Option<nat>)
    ensures k.Some? ==> k.value < |es| && es[k.value].op.StartSnapshot? && es[k.value].op.target == q
  {
    if es == [] then None
    else if AsksFor(cfg, Run(cfg, es[..|es| - 1]), es[|es| - 1], q) then Some(|es| - 1)
    else LastAsk(cfg, es[..|es| - 1], q)
  }

  /** When snapshot `q` was last asked for, or asked for again. */
  function AskedAt(cfg: Config, es: seq<Event>, q: nat): nat {
    if es == [] then 0 else
      var front, e := es[..|es| - 1], es[|es| - 1];
      if || AsksFor(cfg, Run(cfg, front), e, q)
         || SnapshotRetriesOf(cfg, es, q) > SnapshotRetriesOf(cfg, front, q)
      then e.now else AskedAt(cfg, front, q)
  }

  /** A pending snapshot request is the last one made for its sequence, under its own retries. */
  lemma {:induction false} SnapshotRequestExact(cfg: Config, es: seq<Event>, q: nat)
    requires q in Run(cfg, es).snapshotRequests
    ensures var k := LastAsk(cfg, es, q);
            && k.Some?
            && Run(cfg, es).snapshotRequests[q]
               == Request(es[k.value].op.target, es[k.value].op.target, es[k.value].op.peer,
                          AskedAt(cfg, es, q), SnapshotRetriesOf(cfg, es, q))
  {
    if es == [] {
    } else {
      hide Next, AsksFor, Retried, SnapshotRetriesOf;
      var front, e := es[..|es| - 1], es[|es| - 1];
      var s := Run(cfg, front);
      RequestLimits(cfg, front);
      SnapshotPendingIff(cfg, s, e, q);
      RetriesPerSnapshot(cfg, es, q);
      RetriesPerSnapshot(cfg, front, q);
      AsksIsStart(cfg, s, e, q);
      if !AsksFor(cfg, s, e, q) {
        SnapshotRequestExact(cfg, front, q);
      }
    }
  }

  lemma AsksIsStart(cfg: Config, s: State, e: Event, q: nat)
    ensures AsksFor(cfg, s, e, q) ==> e.op.StartSnapshot? && e.op.target == q
  {
  }

  /** An answered request is not retried again until the snapshot is asked for again. */
  lemma {:induction false} AnsweredNotRetried(cfg: Config, es: seq<Event>, i: nat, q: nat)
    requires i < |es| && es[i].op.GotSnapshot? && es[i].op.snapshot.sequence == q
    requires forall k :: i < k < |es| ==> !(es[k].op.StartSnapshot? && es[k].op.target == q)
    ensures q !in Run(cfg, es).snapshotRequests
    decreases |es|
  {
    hide Next;
    var front, e := es[..|es| - 1], es[|es| - 1];
    RequestLimits(cfg, front);
    SnapshotPendingIff(cfg, Run(cfg, front), e, q);
    if i == |es| - 1 {
    } else {
      AnsweredNotRetried(cfg, front, i, q);
    }
  }

  // ----- transaction requests -----

  /** The event makes request `id`. */
  predicate Makes(cfg: Config, s: State, e: Event, id: nat) {
    e.op.StartTransactions? && |s.transactionRequests| < cfg.maxRequests && id == s.nextId
  }

  /** A transaction request is pending after a step exactly if the step made it, or it was and
      has neither been reset nor dropped. */
  lemma TransactionPendingIff(cfg: Config, s: State, e: Event, id: nat)
    requires RequestsOk(cfg, s)
    ensures var m, m' := s.transactionRequests, Next(cfg, s, e).transactionRequests;
            && (id in m' <==> || Makes(cfg, s, e, id)
                              || (id in m && !e.op.Reset? && !(e.op.Timeouts? && RunsOut(cfg, m[id], e.now))))
            && (Makes(cfg, s, e, id) ==> m'[id] == Request(e.op.from, e.op.to, e.op.peer, e.now, 0))
            && (id in m' && !Makes(cfg, s, e, id) ==>
                  m'[id] == if e.op.Timeouts? && Elapsed(e.now, m[id].requestedAt) > cfg.timeout
                            then m[id].(retries := m[id].retries + 1, requestedAt := e.now) else m[id])
            && (id == s.nextId ==> id !in m)
  {
    hide NextPhase, NextSnapshotRequests, NextSnapshots, NextDownloaded, NextRequestId;
  }

  /** The step, among `es`, that made request `id`. */
  function Maker(cfg: Config, es: seq<Event>, id: nat): (k: Option<nat>)
    ensures k.Some? ==> k.value < |es| && es[k.value].op.StartTransactions?
  {
    if es == [] then None
    else if Makes(cfg, Run(cfg, es[..|es| - 1]), es[|es| - 1], id) then Some(|es| - 1)
    else Maker(cfg, es[..|es| - 1], id)
  }

  /** When request `id` was made, or last repeated. */
  function MadeAt(cfg: Config, es: seq<Event>, id: nat): nat {
    if es == [] then 0 else
      var front, e := es[..|es| - 1], es[|es| - 1];
      if Makes(cfg, Run(cfg, front), e, id) || RetriesOf(cfg, es, id) > RetriesOf(cfg, front, id)
      then e.now else MadeAt(cfg, front, id)
  }

  /** A pending transaction request asks for the range, and the peer, it was made for. */
  lemma {:induction false} TransactionRequestExact(cfg: Config, es: seq<Event>, id: nat)
    requires id in Run(cfg, es).transactionRequests
    ensures var k := Maker(cfg, es, id);
            && k.Some?
            && Run(cfg, es).transactionRequests[id]
               == Request(es[k.value].op.from, es[k.value].op.to, es[k.value].op.peer,
                          MadeAt(cfg, es, id), RetriesOf(cfg, es, id))
  {
    if es == [] {
    } else {
      hide Next, Makes, Retried, RetriesOf;
      var front, e := es[..|es| - 1], es[|es| - 1];
      var s := Run(cfg, front);
      RequestLimits(cfg, front);
      TransactionPendingIff(cfg, s, e, id);
      RetriesPerRequest(cfg, es, id);
      RetriesPerRequest(cfg, front, id);
      MakesIsStart(cfg, s, e, id);
      if !Makes(cfg, s, e, id) {
        TransactionRequestExact(cfg, front, id);
      }
    }
  }

  lemma MakesIsStart(cfg: Config, s: State, e: Event, id: nat)
    ensures Makes(cfg, s, e, id) ==> e.op.StartTransactions? && id == s.nextId
  {
  }

  /** How many transaction requests were made. */
  function Made(cfg: Config, es: seq<Event>): nat {
    if es == [] then 0 else
      var s, e := Run(cfg, es[..|es| - 1]), es[|es| - 1];
      Made(cfg, es[..|es| - 1])
      + (if e.op.StartTransactions? && |s.transactionRequests| < cfg.maxRequests then 1 else 0)
  }

  /** Identifiers are handed out one after the other, resets included. */
  lemma {:induction false} IdsAreConsecutive(cfg: Config, es: seq<Event>)
    ensures Run(cfg, es).nextId == Made(cfg, es)
  {
    hide NextPhase, NextSnapshotRequests, NextTransactionRequests, NextSnapshots, NextDownloaded;
    if es == [] {
    } else {
      IdsAreConsecutive(cfg, es[..|es| - 1]);
    }
  }

  // ----- retry actions -----

  /** A retry action repeats what an accepted start asked of the same peer, exactly when the
      timeout has passed since it was last asked and it was retried less than three times. */
  lemma RetriesRepeatRequests(cfg: Config, es: seq<Event>, now: nat, order: seq<nat>, i: nat)
    requires var m := Run(cfg, es).transactionRequests; Order(order, Retried(m, TimedOut(cfg, m, now)))
    requires i < |order|
    ensures var m := Run(cfg, es).transactionRequests; var k := Maker(cfg, es, order[i]);
            && (forall j :: j in order ==> j in m)
            && k.Some?
            && TransactionRetries(order, m)[i]
               == RetryTransactions(es[k.value].op.from, es[k.value].op.to, es[k.value].op.peer)
  {
    assert order[i] in order;
    TransactionRequestExact(cfg, es, order[i]);
  }

  lemma SnapshotRetriesRepeatRequests(cfg: Config, es: seq<Event>, now: nat, order: seq<nat>, i: nat)
    requires var m := Run(cfg, es).snapshotRequests; Order(order, Retried(m, TimedOut(cfg, m, now)))
    requires i < |order|
    ensures var m := Run(cfg, es).snapshotRequests; var k := LastAsk(cfg, es, order[i]);
            && (forall j :: j in order ==> j in m)
            && k.Some? && SnapshotRetries(order, m)[i] == RetrySnapshot(es[k.value].op.target, es[k.value].op.peer)
  {
    assert order[i] in order;
    SnapshotRequestExact(cfg, es, order[i]);
  }

  /** A request is repeated exactly if it is pending, the timeout has passed since it was last
      made, and it was repeated less than three times. */
  lemma RetriedIff(cfg: Config, es: seq<Event>, now: nat, k: nat)
    ensures var m := Run(cfg, es).transactionRequests;
            k in Retried(m, TimedOut(cfg, m, now))
            <==> k in m && Elapsed(now, MadeAt(cfg, es, k)) > cfg.timeout && RetriesOf(cfg, es, k) < 3
    ensures var m := Run(cfg, es).snapshotRequests;
            k in Retried(m, TimedOut(cfg, m, now))
            <==> k in m && Elapsed(now, AskedAt(cfg, es, k)) > cfg.timeout && SnapshotRetriesOf(cfg, es, k) < 3
  {
    if k in Run(cfg, es).transactionRequests {
      TransactionRequestExact(cfg, es, k);
    }
    if k in Run(cfg, es).snapshotRequests {
      SnapshotRequestExact(cfg, es, k);
    }
  }
}
