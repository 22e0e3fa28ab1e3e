/** The state synchronisation protocol: six phases, four maps, retries and timeouts. */
module Sync {
  import opened Prelude

  type Peer = nat
  type Digest = nat

  const MAX_RETRIES: nat := 3

  datatype Config = Config(timeout: nat, maxRequests: nat)

  datatype Transaction = Transaction(digest: Digest, body: Bytes)

  datatype Snapshot = Snapshot(sequence: U64, transactions: seq<Digest>, body: Bytes)

  datatype Phase =
    | Idle
    | DownloadingSnapshot(target: U64, startedAt: nat)
    | VerifyingSnapshot(snapshot: U64)
    | DownloadingTransactions(from: U64, to: U64, startedAt: nat)
    | ApplyingTransactions(count: nat)
    | Synced(sequence: U64)

  /** A pending request; for a snapshot both ends are its sequence number. */
  datatype Request = Request(from: U64, to: U64, peer: Peer, requestedAt: nat, retries: nat)

  datatype Pending = Pending(snapshot: Snapshot, peer: Peer, receivedAt: nat)

  datatype State = State(phase: Phase,
                         snapshotRequests: map<nat, Request>, transactionRequests: map<nat, Request>,
                         snapshots: map<nat, Pending>, downloaded: map<Digest, Transaction>, nextId: nat)

  const INIT := State(Idle, map[], map[], map[], map[], 0)

  datatype Op =
    | StartSnapshot(target: U64, peer: Peer)
    | GotSnapshot(snapshot: Snapshot, peer: Peer)
    | Verdict(sequence: U64, valid: bool)
    | StartTransactions(from: U64, to: U64, peer: Peer)
    | GotTransactions(transactions: seq<Transaction>, peer: Peer)
    | Complete(sequence: U64)
    | Timeouts
    | Reset

  type Event = Timed<Op>

  datatype SyncError = AlreadySyncing | TooManyRequests | SnapshotNotFound

  datatype Action =
    | NoAction
    | Verify(snapshot: Snapshot)
    | ApplySnapshot(snapshot: Snapshot)
    | ApplyTransactions(transactions: seq<Transaction>)
    | RetrySnapshot(sequence: nat, peer: Peer)
    | RetryTransactions(from: nat, to: nat, peer: Peer)

  function IsSyncing(p: Phase): bool {
    !p.Idle? && !p.Synced?
  }

  /** `(to - from + 1) as usize` in wrapping 64-bit arithmetic. */
  function Expected(from: U64, to: U64): nat {
    (to as int - from as int + 1) % U64_SPAN
  }

  function Store(m: map<Digest, Transaction>, txs: seq<Transaction>): map<Digest, Transaction> {
    if txs == [] then m else
      var tx := txs[|txs| - 1];
      Store(m, txs[..|txs| - 1])[tx.digest := tx]
  }

  function HasAll(p: Phase, buffered: nat): bool {
    p.DownloadingTransactions? && buffered >= Expected(p.from, p.to)
  }

  function AllBuffered(s: State, sn: Snapshot): bool {
    forall d :: d in sn.transactions ==> d in s.downloaded
  }

  // ----- pending requests and their timeouts -----

  function TimedOut(cfg: Config, m: map<nat, Request>, now: nat): set<nat> {
    set k | k in m && Elapsed(now, m[k].requestedAt) > cfg.timeout
  }

  /** The requests after those in `ks` timed out: retried up to three times, then dropped. */
  function Expired(m: map<nat, Request>, ks: set<nat>, now: nat): map<nat, Request> {
    map k | k in m && !(k in ks && m[k].retries >= MAX_RETRIES)
      :: if k in ks then m[k].(retries := m[k].retries + 1, requestedAt := now) else m[k]
  }

  function Retried(m: map<nat, Request>, ks: set<nat>): set<nat> {
    set k | k in ks && k in m && m[k].retries < MAX_RETRIES
  }

  predicate GivesUp(m: map<nat, Request>, ks: set<nat>) {
    exists k :: k in ks && k in m && m[k].retries >= MAX_RETRIES
  }

  // ----- one step -----

  function NextPhase(cfg: Config, s: State, e: Event): Phase {
    match e.op
    case StartSnapshot(target, _) => if IsSyncing(s.phase) then s.phase else DownloadingSnapshot(target, e.now)
    case GotSnapshot(sn, _) => VerifyingSnapshot(sn.sequence)
    case Verdict(q, valid) =>
      if !valid then Idle
      else if q !in s.snapshots then s.phase
      else if AllBuffered(s, s.snapshots[q].snapshot) then Synced(q)
      else DownloadingTransactions(q, q, e.now)
    case StartTransactions(from, to, _) => DownloadingTransactions(from, to, e.now)
    case GotTransactions(txs, _) =>
      var buffered := |Store(s.downloaded, txs)|;
      if HasAll(s.phase, buffered) then ApplyingTransactions(buffered) else s.phase
    case Complete(q) => Synced(q)
    case Timeouts =>
      if || GivesUp(s.snapshotRequests, TimedOut(cfg, s.snapshotRequests, e.now))
         || GivesUp(s.transactionRequests, TimedOut(cfg, s.transactionRequests, e.now))
      then Idle else s.phase
    case Reset => Idle
  }

  function NextSnapshotRequests(cfg: Config, s: State, e: Event): map<nat, Request> {
    var m := s.snapshotRequests;
    match e.op
    case StartSnapshot(target, peer) =>
      if IsSyncing(s.phase) || |m| >= cfg.maxRequests then m else m[target := Request(target, target, peer, e.now, 0)]
    case GotSnapshot(sn, _) => m - {sn.sequence}
    case Timeouts => Expired(m, TimedOut(cfg, m, e.now), e.now)
    case Reset => map[]
    case _ => m
  }

  function NextTransactionRequests(cfg: Config, s: State, e: Event): map<nat, Request> {
    var m := s.transactionRequests;
    match e.op
    case StartTransactions(from, to, peer) =>
      if |m| >= cfg.maxRequests then m else m[s.nextId := Request(from, to, peer, e.now, 0)]
    case Timeouts => Expired(m, TimedOut(cfg, m, e.now), e.now)
    case Reset => map[]
    case _ => m
  }

  function NextSnapshots(s: State, e: Event): map<nat, Pending> {
    match e.op
    case GotSnapshot(sn, peer) => s.snapshots[sn.sequence := Pending(sn, peer, e.now)]
    case Verdict(q, _) => s.snapshots - {q}
    case Reset => map[]
    case _ => s.snapshots
  }

  function NextDownloaded(s: State, e: Event): map<Digest, Transaction> {
    match e.op
    case GotTransactions(txs, _) =>
      var all := Store(s.downloaded, txs);
      if HasAll(s.phase, |all|) then map[] else all
    case Reset => map[]
    case _ => s.downloaded
  }

  function NextRequestId(cfg: Config, s: State, e: Event): nat {
    if e.op.StartTransactions? && |s.transactionRequests| < cfg.maxRequests then s.nextId + 1 else s.nextId
  }

  function Next(cfg: Config, s: State, e: Event): State {
    State(NextPhase(cfg, s, e), NextSnapshotRequests(cfg, s, e), NextTransactionRequests(cfg, s, e),
          NextSnapshots(s, e), NextDownloaded(s, e), NextRequestId(cfg, s, e))
  }

  /** The transactions a step hands over for application. */
  function Emitted(cfg: Config, s: State, e: Event): map<Digest, Transaction> {
    if e.op.GotTransactions? && HasAll(s.phase, |Store(s.downloaded, e.op.transactions)|)
    then Store(s.downloaded, e.op.transactions)
    else map[]
  }

  /** The snapshot a step hands over for application. */
  function Applied(s: State, e: Event): Option<Snapshot> {
    if e.op.Verdict? && e.op.valid && e.op.sequence in s.snapshots
    then Some(s.snapshots[e.op.sequence].snapshot) else None
  }

  /** A list of the transactions in `m`, in any order, none twice. */
  ghost predicate Listing(txs: seq<Transaction>, m: map<Digest, Transaction>) {
    && |txs| == |m|
    && (forall i :: 0 <= i < |txs| ==> txs[i].digest in m && m[txs[i].digest] == txs[i])
    && (forall i, j :: 0 <= i < j < |txs| ==> txs[i].digest != txs[j].digest)
  }

  ghost predicate KeyedByDigest(m: map<Digest, Transaction>) {
    forall d :: d in m ==> m[d].digest == d
  }

  lemma {:induction false} StoreKeyed(m: map<Digest, Transaction>, txs: seq<Transaction>)
    requires KeyedByDigest(m)
    ensures KeyedByDigest(Store(m, txs))
  {
    if txs == [] {
    } else {
      StoreKeyed(m, txs[..|txs| - 1]);
    }
  }
}

/** The protocol object, its fields updated in place. */
module SyncObject {
  import opened Prelude
  import opened Sync

  /** The keys of `ks` in some order, none twice. */
  ghost predicate Order(order: seq<nat>, ks: set<nat>) {
    && (forall k :: k in ks <==> k in order)
    && (forall i, j :: 0 <= i < j < |order| ==> order[i] != order[j])
  }

  function SnapshotRetries(order: seq<nat>, m: map<nat, Request>): seq<Action>
    requires forall k :: k in order ==> k in m
  {
    seq(|order|, i requires 0 <= i < |order| => assert order[i] in order; RetrySnapshot(order[i], m[order[i]].peer))
  }

  function TransactionRetries(order: seq<nat>, m: map<nat, Request>): seq<Action>
    requires forall k :: k in order ==> k in m
  {
    seq(|order|, i requires 0 <= i < |order| =>
          assert order[i] in order; RetryTransactions(m[order[i]].from, m[order[i]].to, m[order[i]].peer))
  }

  /** Handles the timeouts of one map of requests, one request at a time. */
  method ExpireRequests(cfg: Config, m: map<nat, Request>, now: nat)
    returns (m': map<nat, Request>, retried: seq<nat>, gaveUp: bool)
    ensures var ks := TimedOut(cfg, m, now);
            && m' == Expired(m, ks, now) && Order(retried, Retried(m, ks)) && gaveUp == GivesUp(m, ks)
  {
    var timedOut := set k | k in m && Elapsed(now, m[k].requestedAt) > cfg.timeout;
    var todo := timedOut;
    m', retried, gaveUp := m, [], false;
    assert Expired(m, {}, now) == m;
    while todo != {}
      invariant todo <= timedOut
      invariant m' == Expired(m, timedOut - todo, now)
      invariant Order(retried, Retried(m, timedOut - todo))
      invariant gaveUp == GivesUp(m, timedOut - todo)
      decreases todo
    {
      var k :| k in todo;
      ghost var done := timedOut - todo;
      assert k !in Retried(m, done) && k !in retried;
      var request := m'[k];
      m' := m' - {k};
      if request.retries < MAX_RETRIES {
        request := request.(retries := request.retries + 1, requestedAt := now);
        m' := m'[k := request];
        retried := retried + [k];
      } else {
        gaveUp := true;
      }
      todo := todo - {k};
      assert timedOut - todo == done + {k};
    }
    assert timedOut - {} == timedOut;
  }

  /** What a verdict changes: the phase, and the snapshot it names is no longer waiting. */
  lemma VerdictStep(cfg: Config, s: State, now: nat, q: U64, valid: bool)
    ensures Next(cfg, s, At(now, Verdict(q, valid)))
            == s.(snapshots := s.snapshots - {q},
                  phase := if !valid then Idle
                           else if q !in s.snapshots then s.phase
                           else if AllBuffered(s, s.snapshots[q].snapshot) then Synced(q)
                           else DownloadingTransactions(q, q, now))
  {
  }

  class StateSync {
    const cfg: Config
    var phase: Phase
    var snapshotRequests: map<nat, Request>
    var transactionRequests: map<nat, Request>
    var snapshots: map<nat, Pending>
    var downloaded: map<Digest, Transaction>
    var nextId: nat

    ghost function Model(): State
      reads this
    {
      State(phase, snapshotRequests, transactionRequests, snapshots, downloaded, nextId)
    }

    /** Transactions are filed under their own digests. */
    ghost predicate Valid()
      reads this
    {
      KeyedByDigest(downloaded)
    }

    constructor (timeout: nat, maxRequests: nat)
      ensures Valid()
      ensures cfg == Config(timeout, maxRequests) && Model() == INIT
    {
      cfg := Config(timeout, maxRequests);
      phase, nextId := Idle, 0;
      snapshotRequests, transactionRequests, snapshots, downloaded := map[], map[], map[], map[];
    }

    method StartSnapshotDownload(now: nat, target: U64, peer: Peer) returns (r: Result<(), SyncError>)
      requires Valid()
      modifies this
      ensures Valid()
      ensures Model() == Next(cfg, old(Model()), At(now, StartSnapshot(target, peer)))
      ensures r == if IsSyncing(old(phase)) then Err(AlreadySyncing)
                   else if |old(snapshotRequests)| >= cfg.maxRequests then Err(TooManyRequests) else Ok(())
    {
      if IsSyncing(phase) {
        return Err(AlreadySyncing);
      }
      phase := DownloadingSnapshot(target, now);
      if |snapshotRequests| >= cfg.maxRequests {
        return Err(TooManyRequests);
      }
      snapshotRequests := snapshotRequests[target := Request(target, target, peer, now, 0)];
      return Ok(());
    }

    method HandleSnapshot(now: nat, snapshot: Snapshot, peer: Peer) returns (a: Action)
      requires Valid()
      modifies this
      ensures Valid()
      ensures Model() == Next(cfg, old(Model()), At(now, GotSnapshot(snapshot, peer)))
      ensures a == Verify(snapshot)
    {
      var sequence := snapshot.sequence;
      snapshotRequests := snapshotRequests - {sequence};
      snapshots := snapshots[sequence := Pending(snapshot, peer, now)];
      phase := VerifyingSnapshot(sequence);
      return Verify(snapshot);
    }

    method CompleteSnapshotVerification(now: nat, sequence: U64, valid: bool) returns (r: Result<Action, SyncError>)
      requires Valid()
      modifies this
      ensures Valid()
      ensures Model() == Next(cfg, old(Model()), At(now, Verdict(sequence, valid)))
      ensures var sn := Applied(old(Model()), At(now, Verdict(sequence, valid)));
              r == if !valid then Ok(NoAction)
                   else if sn.Some? then Ok(ApplySnapshot(sn.value)) else Err(SnapshotNotFound)
    {
      VerdictStep(cfg, Model(), now, sequence, valid);
      hide Next, NextPhase, KeyedByDigest;
      if !valid {
        snapshots := snapshots - {sequence};
        phase := Idle;
        return Ok(NoAction);
      }
      if sequence !in snapshots {
        return Err(SnapshotNotFound);
      }
      var snapshot := snapshots[sequence].snapshot;
      snapshots := snapshots - {sequence};
      var missing := MissingFrom(snapshot.transactions, downloaded);
      if missing != [] {
        phase := DownloadingTransactions(sequence, sequence, now);
      } else {
        phase := Synced(sequence);
      }
      return Ok(ApplySnapshot(snapshot));
    }

    method StartTransactionDownload(now: nat, from: U64, to: U64, peer: Peer) returns (r: Result<(), SyncError>)
      requires Valid()
      modifies this
      ensures Valid()
      ensures Model() == Next(cfg, old(Model()), At(now, StartTransactions(from, to, peer)))
      ensures r == if |old(transactionRequests)| >= cfg.maxRequests then Err(TooManyRequests) else Ok(())
    {
      phase := DownloadingTransactions(from, to, now);
      if |transactionRequests| >= cfg.maxRequests {
        return Err(TooManyRequests);
      }
      var id := nextId;
      nextId := nextId + 1;
      transactionRequests := transactionRequests[id := Request(from, to, peer, now, 0)];
      return Ok(());
    }

    method HandleTransactions(now: nat, transactions: seq<Transaction>, peer: Peer) returns (a: Action)
      requires Valid()
      modifies this
      ensures Valid()
      ensures Model() == Next(cfg, old(Model()), At(now, GotTransactions(transactions, peer)))
      ensures var txs := Emitted(cfg, old(Model()), At(now, GotTransactions(transactions, peer)));
              if phase != old(phase) then a.ApplyTransactions? && Listing(a.transactions, txs)
              else a == NoAction && txs == map[]
    {
      for i := 0 to |transactions|
        invariant Model() == old(Model()).(downloaded := downloaded)
        invariant downloaded == Store(old(downloaded), transactions[..i])
      {
        assert transactions[..i + 1][..i] == transactions[..i];
        downloaded := downloaded[transactions[i].digest := transactions[i]];
      }
      assert transactions[..|transactions|] == transactions;
      StoreKeyed(old(downloaded), transactions);
      if phase.DownloadingTransactions? {
        var expectedCount := Expected(phase.from, phase.to);
        if |downloaded| >= expectedCount {
          phase := ApplyingTransactions(|downloaded|);
          var txs := ListTransactions(downloaded);
          downloaded := map[];
          return ApplyTransactions(txs);
        }
      }
      return NoAction;
    }

    method CompleteTransactionApplication(now: nat, sequence: U64)
      requires Valid()
      modifies this
      ensures Valid()
      ensures Model() == Next(cfg, old(Model()), At(now, Complete(sequence)))
    {
      phase := Synced(sequence);
    }

    /** The retry actions come snapshots first, each group in some order of its requests. */
    method HandleTimeouts(now: nat) returns (actions: seq<Action>, ghost snaps: seq<nat>, ghost txs: seq<nat>)
      requires Valid()
      modifies this
      ensures Valid()
      ensures Model() == Next(cfg, old(Model()), At(now, Timeouts))
      ensures Order(snaps, Retried(old(snapshotRequests), TimedOut(cfg, old(snapshotRequests), now)))
      ensures Order(txs, Retried(old(transactionRequests), TimedOut(cfg, old(transactionRequests), now)))
      ensures actions == SnapshotRetries(snaps, old(snapshotRequests))
                         + TransactionRetries(txs, old(transactionRequests))
    {
      var requests, retried, gaveUp := ExpireRequests(cfg, snapshotRequests, now);
      snaps := retried;
      actions := SnapshotRetries(retried, snapshotRequests);
      snapshotRequests := requests;
      if gaveUp {
        phase := Idle;
      }
      requests, retried, gaveUp := ExpireRequests(cfg, transactionRequests, now);
      txs := retried;
      actions := actions + TransactionRetries(retried, transactionRequests);
      transactionRequests := requests;
      if gaveUp {
        phase := Idle;
      }
    }

    method ResetSync(now: nat)
      requires Valid()
      modifies this
      ensures Valid()
      ensures Model() == Next(cfg, old(Model()), At(now, Reset))
    {
      phase := Idle;
      snapshotRequests, transactionRequests, snapshots, downloaded := map[], map[], map[], map[];
    }
  }

  method MissingFrom(digests: seq<Digest>, have: map<Digest, Transaction>) returns (missing: seq<Digest>)
    ensures missing == [] <==> forall d :: d in digests ==> d in have
  {
    missing := [];
    for i := 0 to |digests|
      invariant missing == [] <==> forall d :: d in digests[..i] ==> d in have
    {
      assert digests[..i + 1] == digests[..i] + [digests[i]];
      if digests[i] !in have {
        missing := missing + [digests[i]];
      }
    }
    assert digests[..|digests|] == digests;
  }

  method ListTransactions(m: map<Digest, Transaction>) returns (txs: seq<Transaction>)
    requires KeyedByDigest(m)
    ensures Listing(txs, m)
  {
    txs := [];
    var todo := m.Keys;
    while todo != {}
      invariant todo <= m.Keys && |txs| + |todo| == |m|
      invariant forall i :: 0 <= i < |txs| ==> txs[i].digest in m.Keys - todo && m[txs[i].digest] == txs[i]
      invariant forall i, j :: 0 <= i < j < |txs| ==> txs[i].digest != txs[j].digest
      decreases todo
    {
      var d :| d in todo;
      txs := txs + [m[d]];
      todo := todo - {d};
    }
  }
}
