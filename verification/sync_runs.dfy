/** What holds over every run of the synchronisation protocol. */
module SyncRuns {
  import opened Prelude
  import opened MapSums
  import opened Sync

  function Run(cfg: Config, es: seq<Event>): State {
    if es == [] then INIT else Next(cfg, Run(cfg, es[..|es| - 1]), es[|es| - 1])
  }

  // ----- transactions -----

  function DigestsOf(txs: seq<Transaction>): set<Digest> {
    set i | 0 <= i < |txs| :: txs[i].digest
  }

  /** The digests received since the last reset. */
  function Received(es: seq<Event>): set<Digest> {
    if es == [] then {} else
      var e := es[|es| - 1];
      match e.op
      case GotTransactions(txs, _) => Received(es[..|es| - 1]) + DigestsOf(txs)
      case Reset => {}
      case _ => Received(es[..|es| - 1])
  }

  /** The digests handed over for application since the last reset. */
  function HandedOver(cfg: Config, es: seq<Event>): set<Digest> {
    if es == [] then {} else
      var e := es[|es| - 1];
      if e.op == Reset then {}
      else HandedOver(cfg, es[..|es| - 1]) + Emitted(cfg, Run(cfg, es[..|es| - 1]), e).Keys
  }

  lemma DigestsSnoc(txs: seq<Transaction>, tx: Transaction)
    ensures DigestsOf(txs + [tx]) == DigestsOf(txs) + {tx.digest}
    ensures DigestsOf([]) == {}
  {
    var all := txs + [tx];
    assert forall i :: 0 <= i < |txs| ==> all[i] == txs[i];
    assert all[|txs|] == tx;
    forall d | d in DigestsOf(txs)
      ensures d in DigestsOf(all)
    {
      var i :| 0 <= i < |txs| && txs[i].digest == d;
      assert all[i].digest == d;
    }
  }

  lemma {:induction false} StoreKeys(m: map<Digest, Transaction>, txs: seq<Transaction>)
    ensures Store(m, txs).Keys == m.Keys + DigestsOf(txs)
  {
    if txs == [] {
    } else {
      hide DigestsOf;
      StoreKeys(m, txs[..|txs| - 1]);
      DigestsSnoc(txs[..|txs| - 1], txs[|txs| - 1]);
      assert txs == txs[..|txs| - 1] + [txs[|txs| - 1]];
    }
  }

  lemma StepConserves(cfg: Config, s: State, e: Event)
    ensures var got := if e.op.GotTransactions? then DigestsOf(e.op.transactions) else {};
            e.op != Reset ==>
              s.downloaded.Keys + got == Emitted(cfg, s, e).Keys + Next(cfg, s, e).downloaded.Keys
  {
    hide NextPhase, NextSnapshotRequests, NextTransactionRequests, NextSnapshots, NextRequestId;
    hide DigestsOf, HasAll, Store;
    if e.op.GotTransactions? {
      StoreKeys(s.downloaded, e.op.transactions);
    }
  }

  /** Conservation: what was received is what was handed over together with what is buffered. */
  lemma {:induction false} TransactionConservation(cfg: Config, es: seq<Event>)
    ensures Received(es) == HandedOver(cfg, es) + Run(cfg, es).downloaded.Keys
  {
    if es == [] {
    } else {
      hide DigestsOf, Emitted;
      TransactionConservation(cfg, es[..|es| - 1]);
      var s, e := Run(cfg, es[..|es| - 1]), es[|es| - 1];
      StepConserves(cfg, s, e);
      hide NextPhase, NextSnapshotRequests, NextTransactionRequests, NextSnapshots, NextRequestId, Store, HasAll;
    }
  }

  /** The transaction most recently received under digest `d` since the last hand-over or reset. */
  function LatestOf(txs: seq<Transaction>, d: Digest): Option<Transaction> {
    if txs == [] then None
    else if txs[|txs| - 1].digest == d then Some(txs[|txs| - 1])
    else LatestOf(txs[..|txs| - 1], d)
  }

  lemma {:induction false} StoreLatest(m: map<Digest, Transaction>, txs: seq<Transaction>, d: Digest)
    ensures LatestOf(txs, d).Some? ==> d in Store(m, txs) && Store(m, txs)[d] == LatestOf(txs, d).value
    ensures LatestOf(txs, d).None? ==>
              (d in Store(m, txs) <==> d in m) && (d in m ==> Store(m, txs)[d] == m[d])
  {
    if txs == [] {
    } else {
      StoreLatest(m, txs[..|txs| - 1], d);
    }
  }

  /** All transactions received since the last hand-over or reset, in order of arrival. */
  function Arrivals(cfg: Config, es: seq<Event>): seq<Transaction> {
    if es == [] then [] else
      var s, e := Run(cfg, es[..|es| - 1]), es[|es| - 1];
      match e.op
      case GotTransactions(txs, _) =>
        if HasAll(s.phase, |Store(s.downloaded, txs)|) then [] else Arrivals(cfg, es[..|es| - 1]) + txs
      case Reset => []
      case _ => Arrivals(cfg, es[..|es| - 1])
  }

  lemma {:induction false} StoreAppend(m: map<Digest, Transaction>, a: seq<Transaction>, b: seq<Transaction>)
    ensures Store(m, a + b) == Store(Store(m, a), b)
  {
    if b == [] {
      assert a + b == a;
    } else {
      assert (a + b)[..|a + b| - 1] == a + b[..|b| - 1];
      StoreAppend(m, a, b[..|b| - 1]);
    }
  }

  lemma {:induction false} DownloadedIsArrivals(cfg: Config, es: seq<Event>)
    ensures Run(cfg, es).downloaded == Store(map[], Arrivals(cfg, es))
    ensures KeyedByDigest(Run(cfg, es).downloaded)
  {
    hide NextPhase, NextSnapshotRequests, NextTransactionRequests, NextSnapshots, NextRequestId, HasAll;
    if es == [] {
    } else {
      var s, e := Run(cfg, es[..|es| - 1]), es[|es| - 1];
      DownloadedIsArrivals(cfg, es[..|es| - 1]);
      if e.op.GotTransactions? {
        StoreAppend(map[], Arrivals(cfg, es[..|es| - 1]), e.op.transactions);
        StoreKeyed(s.downloaded, e.op.transactions);
      }
    }
  }

  /** The buffer holds, under each digest, the latest arrival with that digest, and nothing else. */
  lemma BufferHoldsLatest(cfg: Config, es: seq<Event>, d: Digest)
    ensures var m := Run(cfg, es).downloaded;
            (if d in m then Some(m[d]) else None) == LatestOf(Arrivals(cfg, es), d)
  {
    DownloadedIsArrivals(cfg, es);
    StoreLatest(map[], Arrivals(cfg, es), d);
  }

  /** The 64-bit count is the number of sequence numbers from `from` to `to`, exactly when that
      number is neither negative nor 2^64. */
  lemma ExpectedIff(from: U64, to: U64)
    ensures Expected(from, to) == to as int - from as int + 1
            <==> from as int <= to as int + 1 && !(from == 0 && to as int == U64_SPAN - 1)
  {
  }

  /** Every list handed over has no repeats, is as long as the announced count, and covers the
      requested range in number; only the full 64-bit range escapes. */
  lemma HandOverExact(cfg: Config, s: State, e: Event, txs: seq<Transaction>)
    requires e.op.GotTransactions? && HasAll(s.phase, |Store(s.downloaded, e.op.transactions)|)
    requires Listing(txs, Emitted(cfg, s, e))
    ensures Next(cfg, s, e).phase == ApplyingTransactions(|txs|) && Next(cfg, s, e).downloaded == map[]
    ensures |DigestsOf(txs)| == |txs|
    ensures !(s.phase.from == 0 && s.phase.to as int == U64_SPAN - 1) ==>
              |txs| >= s.phase.to as int - s.phase.from as int + 1
  {
    ExpectedIff(s.phase.from, s.phase.to);
    DistinctDigests(txs, |txs|);
    assert txs[..|txs|] == txs;
  }

  lemma {:induction false} DistinctDigests(txs: seq<Transaction>, n: nat)
    requires n <= |txs| && forall i, j :: 0 <= i < j < |txs| ==> txs[i].digest != txs[j].digest
    ensures |DigestsOf(txs[..n])| == n
  {
    if n == 0 {
      DigestsSnoc([], Transaction(0, []));
      assert txs[..n] == [];
    } else {
      hide DigestsOf;
      DistinctDigests(txs, n - 1);
      assert txs[..n] == txs[..n - 1] + [txs[n - 1]];
      DigestsSnoc(txs[..n - 1], txs[n - 1]);
      NotAmong(txs[..n - 1], txs[n - 1].digest);
    }
  }

  lemma NotAmong(txs: seq<Transaction>, d: Digest)
    requires forall i :: 0 <= i < |txs| ==> txs[i].digest != d
    ensures d !in DigestsOf(txs)
  {
  }

  // ----- snapshots -----

  /** The latest snapshot received for `q` that no verdict or reset has consumed since. */
  function Awaiting(es: seq<Event>, q: nat): Option<Snapshot> {
    if es == [] then None else
      var op := es[|es| - 1].op;
      if op.GotSnapshot? && op.snapshot.sequence == q then Some(op.snapshot)
      else if op.Reset? || (op.Verdict? && op.sequence == q) then None
      else Awaiting(es[..|es| - 1], q)
  }

  lemma {:induction false} PendingIsAwaiting(cfg: Config, es: seq<Event>, q: nat)
    ensures var m := Run(cfg, es).snapshots;
            (if q in m then Some(m[q].snapshot) else None) == Awaiting(es, q)
  {
    hide NextPhase, NextSnapshotRequests, NextTransactionRequests, NextDownloaded, NextRequestId;
    if es == [] {
    } else {
      PendingIsAwaiting(cfg, es[..|es| - 1], q);
    }
  }

  /** What `Awaiting` found: an arrival, after which nothing consumed or replaced it. */
  lemma {:induction false} AwaitingSince(es: seq<Event>, q: nat) returns (i: nat)
    requires Awaiting(es, q).Some?
    ensures i < |es| && es[i].op.GotSnapshot? && es[i].op.snapshot == Awaiting(es, q).value
    ensures es[i].op.snapshot.sequence == q
    ensures forall k :: i < k < |es| ==>
              var op := es[k].op;
              !op.Reset? && !(op.Verdict? && op.sequence == q) && !(op.GotSnapshot? && op.snapshot.sequence == q)
  {
    var op := es[|es| - 1].op;
    if op.GotSnapshot? && op.snapshot.sequence == q {
      return |es| - 1;
    }
    i := AwaitingSince(es[..|es| - 1], q);
  }

  /** A snapshot is handed over at step `k` exactly by a positive verdict on a sequence that has
      one waiting; it is the latest received for that sequence; and the protocol is then synced
      exactly when every transaction it lists is buffered. */
  lemma SnapshotApplyExact(cfg: Config, es: seq<Event>, k: nat)
    requires k < |es|
    ensures var s, e := Run(cfg, es[..k]), es[k];
            && Applied(s, e) == (if e.op.Verdict? && e.op.valid then Awaiting(es[..k], e.op.sequence) else None)
            && (Applied(s, e).Some? ==>
                  var s', sn := Next(cfg, s, e), Applied(s, e).value;
                  && sn.sequence == e.op.sequence && e.op.sequence !in s'.snapshots
                  && s'.phase == if forall d :: d in sn.transactions ==> d in s.downloaded
                                 then Synced(sn.sequence)
                                 else DownloadingTransactions(sn.sequence, sn.sequence, e.now))
  {
    var e := es[k];
    if e.op.Verdict? {
      PendingIsAwaiting(cfg, es[..k], e.op.sequence);
      if Awaiting(es[..k], e.op.sequence).Some? {
        var i := AwaitingSince(es[..k], e.op.sequence);
      }
    }
  }

  /** The event changes what waits for a verdict under `q`. */
  predicate Touches(op: Op, q: nat) {
    op.Reset? || (op.Verdict? && op.sequence == q) || (op.GotSnapshot? && op.snapshot.sequence == q)
  }

  /** The last event to touch `q` decides what waits there. */
  lemma {:induction false} LastTouchDecides(es: seq<Event>, q: nat, m: nat)
    requires m < |es| && Touches(es[m].op, q) && forall j :: m < j < |es| ==> !Touches(es[j].op, q)
    ensures Awaiting(es, q) == if es[m].op.GotSnapshot? then Some(es[m].op.snapshot) else None
  {
    if m == |es| - 1 {
    } else {
      LastTouchDecides(es[..|es| - 1], q, m);
    }
  }

  /** Verdicts name only a sequence. One earned by the snapshot that arrived at step `i` applies
      that snapshot exactly if the last event since then to touch its sequence is an arrival of
      that very snapshot. */
  lemma VerdictAppliesItsSnapshotIff(cfg: Config, es: seq<Event>, i: nat, k: nat)
    requires i < k < |es| && es[i].op.GotSnapshot?
    requires es[k].op == Verdict(es[i].op.snapshot.sequence, true)
    ensures var sn := es[i].op.snapshot;
            Applied(Run(cfg, es[..k]), es[k]) == Some(sn)
            <==> exists m :: i <= m < k && es[m].op.GotSnapshot? && es[m].op.snapshot == sn
                             && forall j :: m < j < k ==> !Touches(es[j].op, sn.sequence)
  {
    hide Run, Awaiting;
    var sn := es[i].op.snapshot;
    var past := es[..k];
    SnapshotApplyExact(cfg, es, k);
    if Awaiting(past, sn.sequence) == Some(sn) {
      var m := AwaitingSince(past, sn.sequence);
      assert past[m] == es[m] && past[i] == es[i];
      assert forall j :: m < j < k ==> past[j] == es[j];
      assert m >= i;
      assert es[m].op.snapshot == sn;
    }
    if m :| i <= m < k && es[m].op.GotSnapshot? && es[m].op.snapshot == sn
            && forall j :: m < j < k ==> !Touches(es[j].op, sn.sequence)
    {
      assert past[m] == es[m] && forall j :: m < j < k ==> past[j] == es[j];
      LastTouchDecides(past, sn.sequence, m);
    }
  }

  /** So a verdict earned by one snapshot applies another that arrived after it. */
  lemma VerdictCanApplyAnother(cfg: Config, es: seq<Event>, i: nat, j: nat, k: nat)
    requires i < j < k < |es| && es[i].op.GotSnapshot? && es[j].op.GotSnapshot?
    requires es[i].op.snapshot.sequence == es[j].op.snapshot.sequence
    requires es[k].op == Verdict(es[i].op.snapshot.sequence, true)
    requires forall l :: j < l < k ==> !Touches(es[l].op, es[j].op.snapshot.sequence)
    ensures Applied(Run(cfg, es[..k]), es[k]) == Some(es[j].op.snapshot)
  {
    VerdictAppliesItsSnapshotIff(cfg, es, j, k);
  }

  /** Between two hand-overs of one sequence a new snapshot of it has arrived. */
  lemma ReapplyNeedsArrival(cfg: Config, es: seq<Event>, i: nat, j: nat)
    requires i < j < |es|
    requires Applied(Run(cfg, es[..i]), es[i]).Some? && Applied(Run(cfg, es[..j]), es[j]).Some?
    requires es[i].op.sequence == es[j].op.sequence
    ensures var sn := Applied(Run(cfg, es[..j]), es[j]).value;
            exists k :: i < k < j && es[k].op.GotSnapshot? && es[k].op.snapshot == sn
  {
    hide Run, Next, Awaiting;
    var q := es[j].op.sequence;
    SnapshotApplyExact(cfg, es, j);
    var k := AwaitingSince(es[..j], q);
    assert es[..j][k] == es[k] && es[..j][i] == es[i];
  }

  // ----- requests -----

  function Chances(m: map<nat, Request>): map<nat, nat> {
    map k | k in m :: if m[k].retries <= 4 then 4 - m[k].retries else 0
  }

  function RetriesLeft(m: map<nat, Request>): map<nat, nat> {
    map k | k in m :: if m[k].retries <= 3 then 3 - m[k].retries else 0
  }

  ghost predicate RetriesOk(m: map<nat, Request>) {
    forall k :: k in m ==> m[k].retries <= 3
  }

  lemma Without(m: map<nat, Request>, k: nat)
    ensures Chances(m) - {k} == Chances(m - {k}) && RetriesLeft(m) - {k} == RetriesLeft(m - {k})
  {
  }

  /** Changing one request changes both sums by what changes there. */
  lemma ChangeAt(m: map<nat, Request>, m': map<nat, Request>, k: nat)
    requires m - {k} == m' - {k}
    ensures Total(Chances(m)) + ValueAt(Chances(m'), k) == Total(Chances(m')) + ValueAt(Chances(m), k)
    ensures Total(RetriesLeft(m)) + ValueAt(RetriesLeft(m'), k) == Total(RetriesLeft(m')) + ValueAt(RetriesLeft(m), k)
  {
    Without(m, k);
    Without(m', k);
    hide Chances, RetriesLeft;
    TotalChange(Chances(m), Chances(m'), k);
    TotalChange(RetriesLeft(m), RetriesLeft(m'), k);
  }

  /** One timed-out request: used up, or one retry further. */
  lemma ExpireOne(m: map<nat, Request>, k: nat, now: nat)
    requires k in m && RetriesOk(m)
    ensures var m' := Expired(m, {k}, now);
            && RetriesOk(m') && m'.Keys <= m.Keys
            && Total(Chances(m')) + 1 == Total(Chances(m))
            && Total(RetriesLeft(m')) + |Retried(m, {k})| == Total(RetriesLeft(m))
  {
    var m' := Expired(m, {k}, now);
    ChangeAt(m, m', k);
    assert Retried(m, {k}) == if m[k].retries < 3 then {k} else {};
  }

  lemma ExpireSplit(m: map<nat, Request>, ks: set<nat>, k: nat, now: nat)
    requires k in ks && ks <= m.Keys
    ensures var m1 := Expired(m, {k}, now);
            && ks - {k} <= m1.Keys
            && Expired(m1, ks - {k}, now) == Expired(m, ks, now)
            && Retried(m1, ks - {k}) == Retried(m, ks - {k})
            && |Retried(m, ks)| == |Retried(m, {k})| + |Retried(m, ks - {k})|
  {
    assert Retried(m, ks) == Retried(m, {k}) + Retried(m, ks - {k});
  }

  /** Every timeout uses up exactly one chance, every retry exactly one retry. */
  lemma {:induction false} ExpireCosts(m: map<nat, Request>, ks: set<nat>, now: nat)
    requires ks <= m.Keys && RetriesOk(m)
    ensures var m' := Expired(m, ks, now);
            && RetriesOk(m') && m'.Keys <= m.Keys
            && Total(Chances(m')) + |ks| == Total(Chances(m))
            && Total(RetriesLeft(m')) + |Retried(m, ks)| == Total(RetriesLeft(m))
    decreases ks
  {
    hide Chances, RetriesLeft;
    if ks == {} {
      assert Expired(m, ks, now) == m && Retried(m, ks) == {};
    } else {
      hide Expired, Retried;
      var k :| k in ks;
      ExpireOne(m, k, now);
      ExpireSplit(m, ks, k, now);
      ExpireCosts(Expired(m, {k}, now), ks - {k}, now);
      assert |ks| == |ks - {k}| + 1;
    }
  }

  /** The limits on pending requests that hold in every reachable state. */
  ghost predicate RequestsOk(cfg: Config, s: State) {
    && |s.snapshotRequests| <= cfg.maxRequests && |s.transactionRequests| <= cfg.maxRequests
    && RetriesOk(s.snapshotRequests) && RetriesOk(s.transactionRequests)
    && IdsOk(s.transactionRequests, s.nextId)
  }

  /** Identifiers are used once: those in use lie below the next one. */
  ghost predicate IdsOk(m: map<nat, Request>, nextId: nat) {
    forall id :: id in m ==> id < nextId
  }

  lemma SizeOfSubmap<V>(a: map<nat, V>, b: map<nat, V>)
    requires a.Keys <= b.Keys
    ensures |a| <= |b|
  {
    assert b.Keys == a.Keys + (b.Keys - a.Keys);
    assert |a| == |a.Keys| && |b| == |b.Keys|;
  }

  lemma SizeOfUpdate<V>(a: map<nat, V>, k: nat, v: V)
    ensures |a[k := v]| <= |a| + 1
  {
    assert a[k := v].Keys == a.Keys + {k};
    assert |a| == |a.Keys| && |a[k := v]| == |a[k := v].Keys|;
  }

  lemma ExpiredOk(m: map<nat, Request>, ks: set<nat>, now: nat, nextId: nat)
    requires RetriesOk(m)
    ensures var m' := Expired(m, ks, now);
            RetriesOk(m') && |m'| <= |m| && (IdsOk(m, nextId) ==> IdsOk(m', nextId))
  {
    SizeOfSubmap(Expired(m, ks, now), m);
  }

  lemma AddedOk(m: map<nat, Request>, k: nat, r: Request)
    requires RetriesOk(m) && r.retries == 0
    ensures RetriesOk(m[k := r]) && |m[k := r]| <= |m| + 1
    ensures IdsOk(m, k) ==> IdsOk(m[k := r], k + 1)
  {
    SizeOfUpdate(m, k, r);
  }

  lemma RemovedOk(m: map<nat, Request>, k: nat)
    requires RetriesOk(m)
    ensures RetriesOk(m - {k}) && |m - {k}| <= |m|
  {
    SizeOfSubmap(m - {k}, m);
  }

  lemma EmptyOk(nextId: nat)
    ensures RetriesOk(map[]) && IdsOk(map[], nextId)
  {
  }

  lemma StepSnapshotRequestsOk(cfg: Config, s: State, e: Event)
    requires RetriesOk(s.snapshotRequests) && |s.snapshotRequests| <= cfg.maxRequests
    ensures var m := NextSnapshotRequests(cfg, s, e); RetriesOk(m) && |m| <= cfg.maxRequests
  {
    hide Expired, TimedOut, IsSyncing, RetriesOk, IdsOk;
    var m := s.snapshotRequests;
    if e.op.StartSnapshot? {
      AddedOk(m, e.op.target, Request(e.op.target, e.op.target, e.op.peer, e.now, 0));
    } else if e.op.GotSnapshot? {
      RemovedOk(m, e.op.snapshot.sequence);
    } else if e.op.Timeouts? {
      ExpiredOk(m, TimedOut(cfg, m, e.now), e.now, 0);
    } else {
      EmptyOk(0);
    }
  }

  lemma StepTransactionRequestsOk(cfg: Config, s: State, e: Event)
    requires RetriesOk(s.transactionRequests) && |s.transactionRequests| <= cfg.maxRequests
    requires IdsOk(s.transactionRequests, s.nextId)
    ensures var m := NextTransactionRequests(cfg, s, e);
            RetriesOk(m) && |m| <= cfg.maxRequests && IdsOk(m, NextRequestId(cfg, s, e))
  {
    hide Expired, TimedOut, RetriesOk, IdsOk;
    EmptyOk(s.nextId);
    match e.op
    case StartTransactions(from, to, peer) =>
      AddedOk(s.transactionRequests, s.nextId, Request(from, to, peer, e.now, 0));
    case Timeouts => ExpiredOk(s.transactionRequests, TimedOut(cfg, s.transactionRequests, e.now), e.now, s.nextId);
    case _ =>
  }

  lemma StepRequestsOk(cfg: Config, s: State, e: Event)
    requires RequestsOk(cfg, s)
    ensures RequestsOk(cfg, Next(cfg, s, e))
  {
    hide NextPhase, NextSnapshots, NextDownloaded, NextSnapshotRequests, NextTransactionRequests, NextRequestId;
    hide RetriesOk, IdsOk;
    StepSnapshotRequestsOk(cfg, s, e);
    StepTransactionRequestsOk(cfg, s, e);
  }

  lemma {:induction false} RequestLimits(cfg: Config, es: seq<Event>)
    ensures RequestsOk(cfg, Run(cfg, es))
  {
    if es == [] {
    } else {
      RequestLimits(cfg, es[..|es| - 1]);
      StepRequestsOk(cfg, Run(cfg, es[..|es| - 1]), es[|es| - 1]);
    }
  }

  /** What is left to every pending request together, in timeouts and in retries. */
  ghost function ChancesLeft(s: State): nat {
    Total(Chances(s.snapshotRequests)) + Total(Chances(s.transactionRequests))
  }

  ghost function AllRetriesLeft(s: State): nat {
    Total(RetriesLeft(s.snapshotRequests)) + Total(RetriesLeft(s.transactionRequests))
  }

  /** Requests issued, timeouts handled and retry actions emitted by one step. */
  function Issues(cfg: Config, s: State, e: Event): nat {
    match e.op
    case StartSnapshot(_, _) => if !IsSyncing(s.phase) && |s.snapshotRequests| < cfg.maxRequests then 1 else 0
    case StartTransactions(_, _, _) => if |s.transactionRequests| < cfg.maxRequests then 1 else 0
    case _ => 0
  }

  function Handles(cfg: Config, s: State, e: Event): nat {
    if e.op.Timeouts?
    then |TimedOut(cfg, s.snapshotRequests, e.now)| + |TimedOut(cfg, s.transactionRequests, e.now)|
    else 0
  }

  function Retries(cfg: Config, s: State, e: Event): nat {
    if e.op.Timeouts?
    then |Retried(s.snapshotRequests, TimedOut(cfg, s.snapshotRequests, e.now))|
         + |Retried(s.transactionRequests, TimedOut(cfg, s.transactionRequests, e.now))|
    else 0
  }

  lemma FewerChances(m: map<nat, Request>, k: nat)
    ensures Total(Chances(m - {k})) <= Total(Chances(m)) && Total(RetriesLeft(m - {k})) <= Total(RetriesLeft(m))
  {
    TotalSubmap(Chances(m), Chances(m - {k}));
    TotalSubmap(RetriesLeft(m), RetriesLeft(m - {k}));
  }

  lemma NewChances(m: map<nat, Request>, k: nat, r: Request)
    requires r.retries == 0
    ensures Total(Chances(m[k := r])) <= Total(Chances(m)) + 4
    ensures Total(RetriesLeft(m[k := r])) <= Total(RetriesLeft(m)) + 3
  {
    var m' := m[k := r];
    ChangeAt(m, m', k);
  }

  lemma NoChances()
    ensures Total(Chances(map[])) == 0 && Total(RetriesLeft(map[])) == 0
  {
    assert Chances(map[]) == map[] && RetriesLeft(map[]) == map[];
  }

  /** What one step may do to one map of requests: `ks` timed out and `issued` were added. */
  ghost predicate Spent(m: map<nat, Request>, m': map<nat, Request>, ks: set<nat>, issued: nat) {
    && Total(Chances(m')) + |ks| <= Total(Chances(m)) + 4 * issued
    && Total(RetriesLeft(m')) + |Retried(m, ks)| <= Total(RetriesLeft(m)) + 3 * issued
  }

  /** Handling timeouts spends exactly. */
  ghost predicate SpentExactly(m: map<nat, Request>, m': map<nat, Request>, ks: set<nat>) {
    && Total(Chances(m')) + |ks| == Total(Chances(m))
    && Total(RetriesLeft(m')) + |Retried(m, ks)| == Total(RetriesLeft(m))
  }

  lemma SpentByExpiry(cfg: Config, m: map<nat, Request>, now: nat)
    requires RetriesOk(m)
    ensures var ks := TimedOut(cfg, m, now);
            Spent(m, Expired(m, ks, now), ks, 0) && SpentExactly(m, Expired(m, ks, now), ks)
  {
    ExpireCosts(m, TimedOut(cfg, m, now), now);
  }

  lemma SpentByIssue(m: map<nat, Request>, k: nat, r: Request)
    requires r.retries == 0
    ensures Spent(m, m[k := r], {}, 1)
  {
    NewChances(m, k, r);
    assert Retried(m, {}) == {};
  }

  lemma SpentByRemoval(m: map<nat, Request>, k: nat)
    ensures Spent(m, m - {k}, {}, 0) && Spent(m, m, {}, 0) && Spent(m, map[], {}, 0)
  {
    FewerChances(m, k);
    NoChances();
    assert Retried(m, {}) == {};
  }

  lemma SnapshotBudget(cfg: Config, s: State, e: Event)
    requires RetriesOk(s.snapshotRequests)
    ensures var m, m' := s.snapshotRequests, NextSnapshotRequests(cfg, s, e);
            if e.op.Timeouts? then var ks := TimedOut(cfg, m, e.now); Spent(m, m', ks, 0) && SpentExactly(m, m', ks)
            else Spent(m, m', {}, if e.op.StartSnapshot? then Issues(cfg, s, e) else 0)
  {
    hide Spent, SpentExactly, Expired, TimedOut, RetriesOk, IsSyncing;
    SpentByRemoval(s.snapshotRequests, if e.op.GotSnapshot? then e.op.snapshot.sequence else 0);
    match e.op
    case StartSnapshot(q, peer) => SpentByIssue(s.snapshotRequests, q, Request(q, q, peer, e.now, 0));
    case Timeouts => SpentByExpiry(cfg, s.snapshotRequests, e.now);
    case _ =>
  }

  lemma TransactionBudget(cfg: Config, s: State, e: Event)
    requires RetriesOk(s.transactionRequests)
    ensures var m, m' := s.transactionRequests, NextTransactionRequests(cfg, s, e);
            if e.op.Timeouts? then var ks := TimedOut(cfg, m, e.now); Spent(m, m', ks, 0) && SpentExactly(m, m', ks)
            else Spent(m, m', {}, if e.op.StartTransactions? then Issues(cfg, s, e) else 0)
  {
    hide Spent, SpentExactly, Expired, TimedOut, RetriesOk, IsSyncing;
    SpentByRemoval(s.transactionRequests, 0);
    match e.op
    case StartTransactions(from, to, peer) =>
      SpentByIssue(s.transactionRequests, s.nextId, Request(from, to, peer, e.now, 0));
    case Timeouts => SpentByExpiry(cfg, s.transactionRequests, e.now);
    case _ =>
  }

  /** A step never creates chances it does not issue; handling timeouts uses up exactly as many
      chances as there are timeouts, and exactly as many retries as there are retry actions. */
  lemma StepBudget(cfg: Config, s: State, e: Event)
    requires RequestsOk(cfg, s)
    ensures ChancesLeft(Next(cfg, s, e)) + Handles(cfg, s, e) <= ChancesLeft(s) + 4 * Issues(cfg, s, e)
    ensures AllRetriesLeft(Next(cfg, s, e)) + Retries(cfg, s, e) <= AllRetriesLeft(s) + 3 * Issues(cfg, s, e)
    ensures e.op.Timeouts? ==> ChancesLeft(Next(cfg, s, e)) + Handles(cfg, s, e) == ChancesLeft(s)
    ensures e.op.Timeouts? ==> AllRetriesLeft(Next(cfg, s, e)) + Retries(cfg, s, e) == AllRetriesLeft(s)
  {
    hide NextPhase, NextSnapshots, NextDownloaded, NextSnapshotRequests, NextTransactionRequests, NextRequestId;
    hide Chances, RetriesLeft, Retried, TimedOut, RetriesOk, IdsOk;
    SnapshotBudget(cfg, s, e);
    TransactionBudget(cfg, s, e);
  }

  function Sum(cfg: Config, es: seq<Event>, count: (Config, State, Event) -> nat): nat {
    if es == [] then 0 else
      Sum(cfg, es[..|es| - 1], count) + count(cfg, Run(cfg, es[..|es| - 1]), es[|es| - 1])
  }

  /** Over any run, timeouts handled and chances left never exceed four per request issued, and
      retry actions with retries left never exceed three. */
  lemma {:induction false} RetryBudget(cfg: Config, es: seq<Event>)
    ensures Sum(cfg, es, Handles) + ChancesLeft(Run(cfg, es)) <= 4 * Sum(cfg, es, Issues)
    ensures Sum(cfg, es, Retries) + AllRetriesLeft(Run(cfg, es)) <= 3 * Sum(cfg, es, Issues)
  {
    if es == [] {
      NoChances();
    } else {
      hide Next, Handles, Issues, Retries, ChancesLeft, AllRetriesLeft;
      RetryBudget(cfg, es[..|es| - 1]);
      RequestLimits(cfg, es[..|es| - 1]);
      StepBudget(cfg, Run(cfg, es[..|es| - 1]), es[|es| - 1]);
    }
  }

  /** How often transaction request `id` has been retried. */
  function RetriesOf(cfg: Config, es: seq<Event>, id: nat): nat {
    if es == [] then 0 else
      var s, e := Run(cfg, es[..|es| - 1]), es[|es| - 1];
      RetriesOf(cfg, es[..|es| - 1], id)
      + (if e.op.Timeouts? && id in Retried(s.transactionRequests, TimedOut(cfg, s.transactionRequests, e.now))
         then 1 else 0)
  }

  /** No transaction request is ever retried more than three times; the counter kept with a
      pending one is exact. */
  lemma {:induction false} RetriesPerRequest(cfg: Config, es: seq<Event>, id: nat)
    ensures var s := Run(cfg, es);
            && RetriesOf(cfg, es, id) <= 3
            && (id in s.transactionRequests ==> RetriesOf(cfg, es, id) == s.transactionRequests[id].retries)
            && (id >= s.nextId ==> RetriesOf(cfg, es, id) == 0)
  {
    if es == [] {
    } else {
      var s, e := Run(cfg, es[..|es| - 1]), es[|es| - 1];
      RetriesPerRequest(cfg, es[..|es| - 1], id);
      RequestLimits(cfg, es[..|es| - 1]);
      hide Next;
      StepRetries(cfg, s, e, id);
    }
  }

  /** What one step does to one transaction request. */
  lemma StepRetries(cfg: Config, s: State, e: Event, id: nat)
    requires RequestsOk(cfg, s)
    ensures var m, m' := s.transactionRequests, Next(cfg, s, e).transactionRequests;
            var again := e.op.Timeouts? && id in Retried(m, TimedOut(cfg, m, e.now));
            && (again ==> id in m && m[id].retries < 3)
            && (id in m' ==> (if id in m then m'[id].retries == m[id].retries + (if again then 1 else 0)
                              else m'[id].retries == 0 && id >= s.nextId && !again))
            && s.nextId <= Next(cfg, s, e).nextId
  {
    hide NextPhase, NextSnapshotRequests, NextSnapshots, NextDownloaded;
  }

  /** How often the request for snapshot `q` has been retried since it was last issued. */
  function SnapshotRetriesOf(cfg: Config, es: seq<Event>, q: nat): nat {
    if es == [] then 0 else
      var s, e := Run(cfg, es[..|es| - 1]), es[|es| - 1];
      if e.op.StartSnapshot? && e.op.target == q && Issues(cfg, s, e) > 0 then 0
      else
        SnapshotRetriesOf(cfg, es[..|es| - 1], q)
        + (if e.op.Timeouts? && q in Retried(s.snapshotRequests, TimedOut(cfg, s.snapshotRequests, e.now))
           then 1 else 0)
  }

  /** No snapshot request is retried more than three times before it is issued afresh; the counter
      kept with a pending one is exact. */
  lemma {:induction false} RetriesPerSnapshot(cfg: Config, es: seq<Event>, q: nat)
    ensures var m := Run(cfg, es).snapshotRequests;
            && SnapshotRetriesOf(cfg, es, q) <= 3
            && (q in m ==> SnapshotRetriesOf(cfg, es, q) == m[q].retries)
  {
    if es == [] {
    } else {
      hide Next, Issues, Retried;
      var s, e := Run(cfg, es[..|es| - 1]), es[|es| - 1];
      RetriesPerSnapshot(cfg, es[..|es| - 1], q);
      RequestLimits(cfg, es[..|es| - 1]);
      StepSnapshotRetries(cfg, s, e, q);
    }
  }

  /** What one step does to the request for one snapshot. */
  lemma StepSnapshotRetries(cfg: Config, s: State, e: Event, q: nat)
    requires RequestsOk(cfg, s)
    ensures var m, m' := s.snapshotRequests, Next(cfg, s, e).snapshotRequests;
            var again := e.op.Timeouts? && q in Retried(m, TimedOut(cfg, m, e.now));
            && (again ==> q in m && m[q].retries < 3)
            && (q in m' ==> if e.op.StartSnapshot? && e.op.target == q && Issues(cfg, s, e) > 0 then m'[q].retries == 0
                            else q in m && m'[q].retries == m[q].retries + (if again then 1 else 0))
  {
    hide NextPhase, NextTransactionRequests, NextSnapshots, NextDownloaded;
  }

  // ----- requests that were answered but never removed -----

  /** The state after timeout checks at the given times and nothing else. */
  function AfterChecks(cfg: Config, s: State, times: seq<nat>): State
    decreases |times|
  {
    if times == [] then s else AfterChecks(cfg, Next(cfg, s, At(times[0], Timeouts)), times[1..])
  }

  lemma {:induction false} NothingPending(cfg: Config, s: State, times: seq<nat>)
    requires s.snapshotRequests == map[] && s.transactionRequests == map[]
    ensures AfterChecks(cfg, s, times) == s
    decreases |times|
  {
    if times == [] {
    } else {
      assert Expired(map[], TimedOut(cfg, map[], times[0]), times[0]) == map[];
      assert Next(cfg, s, At(times[0], Timeouts)) == s;
      NothingPending(cfg, s, times[1..]);
    }
  }

  /** Checked often enough from `now` on, one pending request ends in Idle. */
  lemma {:induction false} PendingGivesUp(cfg: Config, s: State, k: nat, now: nat) returns (times: seq<nat>)
    requires RequestsOk(cfg, s) && (k in s.snapshotRequests || k in s.transactionRequests)
    ensures Monotone([now] + times) && AfterChecks(cfg, s, times).phase == Idle
    decreases 3 - (if k in s.snapshotRequests then s.snapshotRequests[k].retries else s.transactionRequests[k].retries)
  {
    var r := if k in s.snapshotRequests then s.snapshotRequests[k] else s.transactionRequests[k];
    var t := Max(now, r.requestedAt + cfg.timeout + 1);
    var s' := Next(cfg, s, At(t, Timeouts));
    StepRequestsOk(cfg, s, At(t, Timeouts));
    assert k in TimedOut(cfg, s.snapshotRequests, t) || k in TimedOut(cfg, s.transactionRequests, t);
    if s'.phase == Idle {
      times := [t];
      assert times[1..] == [] && AfterChecks(cfg, s', []) == s';
    } else {
      var rest := PendingGivesUp(cfg, s', k, t);
      times := [t] + rest;
      assert times[1..] == rest;
      MonotoneCons(now, t, rest);
    }
  }

  lemma MonotoneCons(now: nat, t: nat, rest: seq<nat>)
    requires now <= t && Monotone([t] + rest)
    ensures Monotone([now] + ([t] + rest))
  {
    var later := [t] + rest;
    var all := [now] + later;
    assert forall i :: 1 <= i < |all| ==> all[i] == later[i - 1];
    assert forall i :: 0 <= i < |later| ==> t == later[0] <= later[i];
  }

  /** Being synced, or in the middle of anything, survives every timeout check from now on exactly
      when no request is pending. */
  lemma PhaseSurvivesIff(cfg: Config, s: State, now: nat)
    requires RequestsOk(cfg, s) && s.phase != Idle
    ensures (forall times :: Monotone([now] + times) ==> AfterChecks(cfg, s, times).phase == s.phase)
            <==> s.snapshotRequests == map[] && s.transactionRequests == map[]
  {
    if s.snapshotRequests == map[] && s.transactionRequests == map[] {
      forall times
        ensures AfterChecks(cfg, s, times).phase == s.phase
      {
        NothingPending(cfg, s, times);
      }
    } else {
      assert s.snapshotRequests.Keys != {} || s.transactionRequests.Keys != {};
      var k :| k in s.snapshotRequests || k in s.transactionRequests;
      var times := PendingGivesUp(cfg, s, k, now);
      assert AfterChecks(cfg, s, times).phase != s.phase;
    }
  }

  /** The step enters a downloading phase without asking any peer for anything. */
  predicate DownloadsUnasked(cfg: Config, s: State, e: Event) {
    match e.op
    case StartSnapshot(_, _) => !IsSyncing(s.phase) && |s.snapshotRequests| >= cfg.maxRequests
    case Verdict(_, _) => Applied(s, e).Some? && !AllBuffered(s, Applied(s, e).value)
    case StartTransactions(_, _, _) => |s.transactionRequests| >= cfg.maxRequests
    case _ => false
  }

  /** No timeout check ever ends such a download, exactly when no other request was pending. */
  lemma UnaskedStallsIff(cfg: Config, s: State, e: Event)
    requires RequestsOk(cfg, s) && DownloadsUnasked(cfg, s, e)
    ensures var s' := Next(cfg, s, e);
            && IsSyncing(s'.phase)
            && ((forall times :: Monotone([e.now] + times) ==> AfterChecks(cfg, s', times) == s')
                <==> s.snapshotRequests == map[] && s.transactionRequests == map[])
  {
    var s' := Next(cfg, s, e);
    UnaskedChangesPhase(cfg, s, e);
    hide Next, DownloadsUnasked, RequestsOk, AfterChecks;
    if s.snapshotRequests == map[] && s.transactionRequests == map[] {
      forall times
        ensures AfterChecks(cfg, s', times) == s'
      {
        NothingPending(cfg, s', times);
      }
    } else {
      PhaseSurvivesIff(cfg, s', e.now);
      var times :| Monotone([e.now] + times) && AfterChecks(cfg, s', times).phase != s'.phase;
      assert AfterChecks(cfg, s', times) != s';
    }
  }

  lemma UnaskedChangesPhase(cfg: Config, s: State, e: Event)
    requires RequestsOk(cfg, s) && DownloadsUnasked(cfg, s, e)
    ensures var s' := Next(cfg, s, e);
            && RequestsOk(cfg, s') && IsSyncing(s'.phase) && s'.phase != Idle
            && s'.snapshotRequests == s.snapshotRequests && s'.transactionRequests == s.transactionRequests
  {
    hide RetriesOk, IdsOk, NextSnapshots, NextDownloaded;
  }

  /** A pending transaction request goes only by a reset, or by a timeout after its last retry;
      and nothing but a timeout changes it. */
  lemma RequestRemovedIff(cfg: Config, s: State, e: Event, id: nat)
    requires RequestsOk(cfg, s) && id in s.transactionRequests
    ensures var m, m' := s.transactionRequests, Next(cfg, s, e).transactionRequests;
            && (id !in m' <==> e.op.Reset? || (e.op.Timeouts? && m[id].retries == MAX_RETRIES
                                               && Elapsed(e.now, m[id].requestedAt) > cfg.timeout))
            && (!e.op.Reset? && !e.op.Timeouts? ==> m'[id] == m[id])
  {
    hide NextPhase, NextSnapshotRequests, NextSnapshots, NextDownloaded;
  }

  /** So no answer, however complete, ever removes one: through any events but resets and
      timeout checks a pending request stays as it is. */
  lemma {:induction false} AnsweredStaysPending(cfg: Config, es: seq<Event>, i: nat, id: nat)
    requires i <= |es| && id in Run(cfg, es[..i]).transactionRequests
    requires forall k :: i <= k < |es| ==> !es[k].op.Reset? && !es[k].op.Timeouts?
    ensures var m := Run(cfg, es).transactionRequests;
            id in m && m[id] == Run(cfg, es[..i]).transactionRequests[id]
    decreases |es|
  {
    if i == |es| {
      assert es[..i] == es;
    } else {
      var front := es[..|es| - 1];
      assert front[..i] == es[..i];
      AnsweredStaysPending(cfg, front, i, id);
      RequestLimits(cfg, front);
      RequestRemovedIff(cfg, Run(cfg, front), es[|es| - 1], id);
    }
  }

  /** After a snapshot with missing transactions an arrival starts applying exactly if it brings or
      finds anything at all; what is handed over covers the snapshot exactly if the arrival brings
      everything it lacked. */
  lemma PartialSnapshotUnderfetches(cfg: Config, s: State, e: Event, now: nat, txs: seq<Transaction>, peer: Peer)
    requires e.op.Verdict? && Applied(s, e).Some? && !AllBuffered(s, Applied(s, e).value)
    ensures var s', sn := Next(cfg, s, e), Applied(s, e).value; var got := At(now, GotTransactions(txs, peer));
            && (Next(cfg, s', got).phase.ApplyingTransactions? <==> txs != [] || s.downloaded != map[])
            && Emitted(cfg, s', got).Keys == s.downloaded.Keys + DigestsOf(txs)
            && ((forall d :: d in sn.transactions ==> d in Emitted(cfg, s', got))
                <==> forall d :: d in sn.transactions ==> d in s.downloaded || d in DigestsOf(txs))
  {
    hide DigestsOf, Store;
    assert Expected(e.op.sequence, e.op.sequence) == 1;
    StoreKeys(s.downloaded, txs);
    StoreEmptyIff(s.downloaded, txs);
  }

  lemma StoreEmptyIff(m: map<Digest, Transaction>, txs: seq<Transaction>)
    ensures |Store(m, txs)| == 0 <==> m == map[] && txs == []
  {
    if txs == [] {
    } else {
      assert txs[|txs| - 1].digest in Store(m, txs);
    }
  }
}
