/** What a node answers and counts, told from the events of a run alone. */
module GossipHistory {
  import opened Prelude
  import opened Gossip
  import opened GossipRuns

  // ----- topics -----

  /** The node is subscribed to `topic` after `n` steps: the last that named it subscribed. */
  ghost function Subscribed(r: Run, topic: string, n: nat): bool
    requires n <= |r.events|
  {
    n > 0 &&
    match r.events[n - 1].op
    case Subscribe(t) => t == topic || Subscribed(r, topic, n - 1)
    case Unsubscribe(t) => t != topic && Subscribed(r, topic, n - 1)
    case _ => Subscribed(r, topic, n - 1)
  }

  /** No other operation opens or closes a topic. */
  lemma {:induction false} SubscribedIff(cfg: Config, r: Run, topic: string, n: nat)
    requires ValidRun(cfg, r) && n <= |r.events|
    ensures topic in r.states[n].topics <==> Subscribed(r, topic, n)
  {
    hide NextCache, NextStats, ReplyTo;
    if n == 0 {
    } else {
      SubscribedIff(cfg, r, topic, n - 1);
      PreparedIsKnown(cfg, r.states[n - 1], r.events[n - 1].op);
    }
  }

  lemma PreparedIsKnown(cfg: Config, s: State, op: Op)
    ensures op.Prepare? && ReplyTo(cfg, s, op).Sent? ==> op.topic in s.topics
  {
  }

  ghost function ReplyAt(cfg: Config, r: Run, k: nat): Reply
    requires k < |r.events| < |r.states|
  {
    ReplyTo(cfg, r.states[k], r.events[k].op)
  }

  /** The node is subscribed to the topic of that kind of message. */
  ghost predicate MayBroadcast(r: Run, kind: Kind, n: nat)
    requires n <= |r.events|
  {
    || (kind == Transaction && Subscribed(r, "silverbitcoin/transactions/1.0.0", n))
    || (kind == Batch && Subscribed(r, "silverbitcoin/batches/1.0.0", n))
    || (kind == WorkPackage && Subscribed(r, "silverbitcoin/work-packages/1.0.0", n))
    || (kind == MinerShare && Subscribed(r, "silverbitcoin/miner-shares/1.0.0", n))
  }

  /** A broadcast succeeds exactly while the topic of its kind is subscribed. */
  lemma BroadcastIff(cfg: Config, r: Run, j: nat)
    requires ValidRun(cfg, r) && j < |r.events| && r.events[j].op.Broadcast?
    ensures var kind := r.events[j].op.kind;
            && (ReplyAt(cfg, r, j) == Done <==> MayBroadcast(r, kind, j))
            && (ReplyAt(cfg, r, j) == Unsupported <==> kind == OtherKind)
            && (ReplyAt(cfg, r, j) == NotSubscribed <==> kind != OtherKind && !MayBroadcast(r, kind, j))
  {
    hide Next, Subscribed;
    var topic := TopicOf(r.events[j].op.kind);
    if topic.Some? {
      SubscribedIff(cfg, r, topic.value, j);
    }
  }

  /** A message is handed over for publishing exactly if its topic is subscribed, it serialises,
      and it takes at most ten mebibytes. */
  lemma PrepareIff(cfg: Config, r: Run, j: nat)
    requires ValidRun(cfg, r) && j < |r.events| && r.events[j].op.Prepare?
    ensures var topic, bytes := r.events[j].op.topic, r.events[j].op.bytes;
            && (forall b :: ReplyAt(cfg, r, j) == Sent(b)
                            <==> Subscribed(r, topic, j) && bytes == Some(b) && |b| <= 10_485_760)
            && (ReplyAt(cfg, r, j) == NotSubscribed <==> !Subscribed(r, topic, j))
            && (ReplyAt(cfg, r, j) == Unserializable <==> Subscribed(r, topic, j) && bytes.None?)
  {
    hide Next, Subscribed;
    SubscribedIff(cfg, r, r.events[j].op.topic, j);
  }

  /** An unsubscription succeeds exactly if there was a subscription. */
  lemma UnsubscribeIff(cfg: Config, r: Run, j: nat)
    requires ValidRun(cfg, r) && j < |r.events| && r.events[j].op.Unsubscribe?
    ensures ReplyAt(cfg, r, j) == if Subscribed(r, r.events[j].op.topic, j) then Done else NotSubscribed
  {
    hide Next, Subscribed;
    SubscribedIff(cfg, r, r.events[j].op.topic, j);
  }

  // ----- sightings -----

  /** A step inserts what it receives, or broadcasts with success, unless it is cached already. */
  lemma InsertedIff(cfg: Config, r: Run, k: nat, x: Id)
    requires ValidRun(cfg, r) && k < |r.events|
    ensures var op := r.events[k].op;
            InsertedAt(r, k) == Some(x)
            <==> x !in r.states[k].cache
                 && ((op.Receive? && op.id == x) || (op.Broadcast? && op.data == x && ReplyAt(cfg, r, k) == Done))
  {
    hide Next, TopicOf;
  }

  /** The step that last inserted `x`, among the first `n` and since the cache was last cleared. */
  ghost function LastInsertion(r: Run, x: Id, n: nat): (k: Option<nat>)
    requires n <= |r.events| < |r.states|
    ensures k.Some? ==> k.value < n && (r.events[k.value].op.Receive? || r.events[k.value].op.Broadcast?)
  {
    if n == 0 || r.events[n - 1].op.ClearCache? then None
    else if InsertedAt(r, n - 1) == Some(x) then Some(n - 1)
    else LastInsertion(r, x, n - 1)
  }

  /** How often `x` has been seen since and with that step. */
  ghost function Sightings(r: Run, x: Id, n: nat): nat
    requires n <= |r.events| < |r.states|
  {
    if n == 0 || r.events[n - 1].op.ClearCache? then 0
    else if InsertedAt(r, n - 1) == Some(x) then 1
    else Sightings(r, x, n - 1) + (if r.events[n - 1].op.Receive? && r.events[n - 1].op.id == x then 1 else 0)
  }

  /** A cached entry is that of the last insertion, and counts every sighting since. */
  lemma {:induction false} EntryExact(cfg: Config, r: Run, x: Id, n: nat)
    requires ValidRun(cfg, r) && n <= |r.events| && x in r.states[n].cache
    ensures var k := LastInsertion(r, x, n); var entry := r.states[n].cache[x];
            && k.Some? && entry.cachedAt == r.events[k.value].now && entry.data == r.events[k.value].op.data
            && entry.seen == Sightings(r, x, n)
  {
    hide Next, Inserted;
    if n == 0 {
    } else {
      StepEntry(cfg, r.states[n - 1], r.events[n - 1], r.states[n], x);
      if InsertedAt(r, n - 1) != Some(x) {
        EntryExact(cfg, r, x, n - 1);
      }
    }
  }

  /** A message not seen before, or not since a clear, is never taken for a duplicate: it is
      delivered exactly if it parses. */
  lemma FirstSighting(cfg: Config, r: Run, j: nat)
    requires ValidRun(cfg, r) && j < |r.events| && r.events[j].op.Receive?
    requires LastInsertion(r, r.events[j].op.id, j).None?
    ensures ReplyAt(cfg, r, j) == if cfg.parses(r.events[j].op.data) then Delivered else Malformed
  {
    hide Next, Inserted;
    if r.events[j].op.id in r.states[j].cache {
      EntryExact(cfg, r, r.events[j].op.id, j);
    }
  }

  lemma StepEntry(cfg: Config, s: State, e: Event, s': State, x: Id)
    requires Next(cfg, s, e, s') && x in s'.cache
    ensures Inserted(s, e.op) == Some(x) ==>
              (e.op.Receive? || e.op.Broadcast?) && s'.cache[x] == Entry(e.op.data, e.now, 1)
    ensures Inserted(s, e.op) != Some(x) ==>
              x in s.cache && !e.op.ClearCache? && s'.cache[x] == if e.op.Receive? && e.op.id == x
                                             then s.cache[x].(seen := s.cache[x].seen + 1) else s.cache[x]
  {
    hide NextTopics, NextStats, TopicOf;
    if Inserted(s, e.op).Some? && Inserted(s, e.op).value != x {
      OthersUntouched(cfg, s, e, s');
    }
  }

  // ----- what a receive evicts -----

  /** The cached ids younger than the time to live. */
  ghost function Live(cfg: Config, c: map<Id, Entry>, now: nat): set<Id> {
    set y | y in c && Elapsed(now, c[y].cachedAt) < cfg.ttl
  }

  /** What a receive of a new id leaves of the others: all of them below the limit; otherwise only
      live ones, and of these all but the tenth that may have to go. */
  lemma ReceiveLeaves(cfg: Config, s: State, e: Event, s': State)
    requires Next(cfg, s, e, s') && e.op.Receive? && e.op.id !in s.cache
    ensures var live, left := Live(cfg, s.cache, e.now), s'.cache.Keys - {e.op.id};
            if |s.cache| < cfg.maxCache then left == s.cache.Keys
            else if |live| < cfg.maxCache then left == live
            else left <= live && |left| == |live| - Min(cfg.maxCache / 10, |live|)
  {
    hide NextTopics, NextStats, OldestRemoved;
    var room := s'.cache - {e.op.id};
    var f := Fresh(cfg, s.cache, e.now);
    assert f.Keys == Live(cfg, s.cache, e.now);
    assert room.Keys == s'.cache.Keys - {e.op.id};
    if |s.cache| >= cfg.maxCache && |f| >= cfg.maxCache {
      RemovedKeys(f, cfg.maxCache / 10, room);
    }
    assert |f| == |f.Keys|;
  }

  lemma RemovedKeys(c: map<Id, Entry>, k: nat, c': map<Id, Entry>)
    requires OldestRemoved(c, k, c')
    ensures c'.Keys <= c.Keys && |c'.Keys| == |c.Keys| - Min(k, |c.Keys|)
  {
    assert |c| == |c.Keys| && |c'| == |c'.Keys|;
  }

  /** A broadcast of a new message takes the place of one id when the cache is full, else of none. */
  lemma BroadcastLeaves(cfg: Config, s: State, e: Event, s': State)
    requires Next(cfg, s, e, s') && e.op.Broadcast? && Inserted(s, e.op).Some?
    ensures var left := s'.cache.Keys - {e.op.data};
            if |s.cache| < cfg.maxCache then left == s.cache.Keys
            else left <= s.cache.Keys && |left| == |s.cache.Keys| - Min(1, |s.cache.Keys|)
  {
    hide NextTopics, NextStats, TopicOf, OldestRemoved;
    var room := s'.cache - {e.op.data};
    assert room.Keys == s'.cache.Keys - {e.op.data};
    if |s.cache| >= cfg.maxCache {
      RemovedKeys(s.cache, 1, room);
    }
  }

  // ----- counters -----

  /** The bytes a step sends: a message handed over for publishing, or a new one broadcast. */
  ghost function SentAt(cfg: Config, r: Run, k: nat): Option<nat>
    requires k < |r.events| < |r.states|
  {
    var op, reply := r.events[k].op, ReplyAt(cfg, r, k);
    if reply.Sent? then Some(|reply.bytes|)
    else if op.Broadcast? && reply == Done && op.data !in r.states[k].cache then Some(|op.data|)
    else None
  }

  /** The bytes a step takes in: those of a receive not answered as a duplicate. */
  ghost function ReceivedAt(cfg: Config, r: Run, k: nat): Option<nat>
    requires k < |r.events| < |r.states|
  {
    if r.events[k].op.Receive? && ReplyAt(cfg, r, k) != Duplicate then Some(|r.events[k].op.data|) else None
  }

  /** The first `n` steps, added up from the replies. */
  ghost function Tally(cfg: Config, r: Run, n: nat): Stats
    requires n <= |r.events| < |r.states|
  {
    if n == 0 then Stats(0, 0, 0, 0, 0) else
      var st, out, got := Tally(cfg, r, n - 1), SentAt(cfg, r, n - 1), ReceivedAt(cfg, r, n - 1);
      Stats(st.sent + (if out.Some? then 1 else 0),
            st.received + (if got.Some? then 1 else 0),
            st.deduplicated + (if ReplyAt(cfg, r, n - 1) == Duplicate then 1 else 0),
            st.bytesSent + (if out.Some? then out.value else 0),
            st.bytesReceived + (if got.Some? then got.value else 0))
  }

  /** The global counters are exactly what the replies of the run add up to. */
  lemma {:induction false} StatsExact(cfg: Config, r: Run, n: nat)
    requires ValidRun(cfg, r) && n <= |r.events|
    ensures r.states[n].stats == Tally(cfg, r, n)
  {
    hide NextTopics, NextCache, TopicOf;
    if n == 0 {
    } else {
      StatsExact(cfg, r, n - 1);
    }
  }

  /** How many messages were handed over for publishing on `topic` since it was last subscribed. */
  ghost function SentOn(cfg: Config, r: Run, topic: string, n: nat): nat
    requires n <= |r.events| < |r.states|
  {
    if n == 0 || r.events[n - 1].op == Unsubscribe(topic) then 0 else
      var op := r.events[n - 1].op;
      SentOn(cfg, r, topic, n - 1)
      + (if op.Prepare? && op.topic == topic && ReplyAt(cfg, r, n - 1).Sent? then 1 else 0)
  }

  /** How many first sightings came in on `topic` since then. */
  ghost function ReceivedOn(cfg: Config, r: Run, topic: string, n: nat): nat
    requires n <= |r.events| < |r.states|
  {
    if n == 0 || r.events[n - 1].op == Unsubscribe(topic) then 0 else
      var op := r.events[n - 1].op;
      ReceivedOn(cfg, r, topic, n - 1)
      + (if op.Receive? && op.topic == topic && ReplyAt(cfg, r, n - 1) != Duplicate && Subscribed(r, topic, n - 1)
         then 1 else 0)
  }

  /** When one of these, or the subscription itself, last happened. */
  ghost function LastActive(cfg: Config, r: Run, topic: string, n: nat): nat
    requires n <= |r.events| < |r.states|
  {
    if n == 0 then 0
    else if || SentOn(cfg, r, topic, n) > SentOn(cfg, r, topic, n - 1)
            || ReceivedOn(cfg, r, topic, n) > ReceivedOn(cfg, r, topic, n - 1)
            || (Subscribed(r, topic, n) && !Subscribed(r, topic, n - 1))
    then r.events[n - 1].now
    else LastActive(cfg, r, topic, n - 1)
  }

  lemma {:induction false} TopicCounts(cfg: Config, r: Run, topic: string, n: nat)
    requires ValidRun(cfg, r) && n <= |r.events|
    ensures var ts, sent, received := r.states[n].topics, SentOn(cfg, r, topic, n), ReceivedOn(cfg, r, topic, n);
            if topic in ts then ts[topic].sent == sent && ts[topic].received == received else sent == received == 0
  {
    hide NextCache, NextStats, TopicOf;
    if n == 0 {
    } else {
      TopicCounts(cfg, r, topic, n - 1);
      SubscribedIff(cfg, r, topic, n - 1);
    }
  }

  /** Only what is counted, and the subscription itself, changes the time stamp. */
  lemma StepActivity(cfg: Config, s: State, e: Event, s': State, topic: string)
    requires Next(cfg, s, e, s') && topic in s'.topics
    ensures var now, ts := s'.topics[topic], s.topics;
            now.lastActivity == if topic !in ts || now.sent > ts[topic].sent || now.received > ts[topic].received
                                then e.now else ts[topic].lastActivity
  {
    hide NextCache, NextStats, TopicOf;
  }

  /** The counters and the time stamp of every subscribed topic are exact. */
  lemma {:induction false} TopicExact(cfg: Config, r: Run, topic: string, n: nat)
    requires ValidRun(cfg, r) && n <= |r.events| && topic in r.states[n].topics
    ensures r.states[n].topics[topic]
            == Topic(SentOn(cfg, r, topic, n), ReceivedOn(cfg, r, topic, n), LastActive(cfg, r, topic, n))
  {
    TopicCounts(cfg, r, topic, n);
    if n == 0 {
    } else {
      hide Next, SentOn, ReceivedOn, Subscribed;
      SubscribedIff(cfg, r, topic, n - 1);
      SubscribedIff(cfg, r, topic, n);
      TopicCounts(cfg, r, topic, n - 1);
      StepActivity(cfg, r.states[n - 1], r.events[n - 1], r.states[n], topic);
      if topic in r.states[n - 1].topics {
        TopicExact(cfg, r, topic, n - 1);
      }
    }
  }
}
