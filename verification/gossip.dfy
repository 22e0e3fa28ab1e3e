/** The gossip protocol: topics, counters and the deduplication cache. */
module Gossip {
  import opened Prelude

  /** A message id is opaque; `broadcast` uses the message bytes themselves. */
  type Id = Bytes

  datatype Config = Config(maxCache: nat, ttl: nat, parses: Bytes -> bool)

  datatype Entry = Entry(data: Bytes, cachedAt: nat, seen: nat)

  datatype Topic = Topic(sent: nat, received: nat, lastActivity: nat)

  datatype Stats = Stats(sent: nat, received: nat, deduplicated: nat, bytesSent: nat, bytesReceived: nat)

  datatype State = State(topics: map<string, Topic>, cache: map<Id, Entry>, stats: Stats)

  const INIT := State(map[], map[], Stats(0, 0, 0, 0, 0))

  const MAX_MESSAGE_BYTES := 10 * 1024 * 1024

  datatype Kind = Transaction | Batch | WorkPackage | MinerShare | OtherKind

  function TopicOf(k: Kind): Option<string> {
    match k
    case Transaction => Some("silverbitcoin/transactions/1.0.0")
    case Batch => Some("silverbitcoin/batches/1.0.0")
    case WorkPackage => Some("silverbitcoin/work-packages/1.0.0")
    case MinerShare => Some("silverbitcoin/miner-shares/1.0.0")
    case OtherKind => None
  }

  datatype Op =
    | Subscribe(topic: string)
    | Unsubscribe(topic: string)
    | Prepare(topic: string, bytes: Option<Bytes>)  // the serialised message, if it serialises
    | Receive(id: Id, topic: string, data: Bytes)
    | Broadcast(kind: Kind, data: Bytes)
    | ClearCache

  type Event = Timed<Op>

  datatype Reply =
    | Done            // Ok, with nothing to hand over
    | Duplicate       // Ok(None)
    | Delivered       // Ok(Some(message))
    | Sent(bytes: Bytes)
    | NotSubscribed
    | Unsupported
    | TooLarge
    | Unserializable
    | Malformed

  // ----- the cache -----

  function Fresh(cfg: Config, c: map<Id, Entry>, now: nat): map<Id, Entry> {
    map x | x in c && Elapsed(now, c[x].cachedAt) < cfg.ttl :: c[x]
  }

  /** `c'` is `c` without some `k` entries, none of them younger than any entry kept. */
  ghost predicate OldestRemoved(c: map<Id, Entry>, k: nat, c': map<Id, Entry>) {
    && c'.Keys <= c.Keys
    && (forall x :: x in c' ==> c'[x] == c[x])
    && |c'| == |c| - Min(k, |c|)
    && forall x, y :: x in c' && y in c && y !in c' ==> c[y].cachedAt <= c[x].cachedAt
  }

  /** Room for one more after a receive: the expired go first, then the oldest tenth. */
  ghost predicate EvictedForReceive(cfg: Config, c: map<Id, Entry>, now: nat, c': map<Id, Entry>) {
    if |c| < cfg.maxCache then c' == c
    else
      var f := Fresh(cfg, c, now);
      if |f| < cfg.maxCache then c' == f else OldestRemoved(f, cfg.maxCache / 10, c')
  }

  /** Room for one more before a broadcast: a single oldest entry. */
  ghost predicate EvictedForBroadcast(cfg: Config, c: map<Id, Entry>, c': map<Id, Entry>) {
    if |c| < cfg.maxCache then c' == c else OldestRemoved(c, 1, c')
  }

  /** The id an operation adds to the cache, if any. */
  function Inserted(s: State, op: Op): Option<Id> {
    match op
    case Receive(id, _, _) => if id in s.cache then None else Some(id)
    case Broadcast(kind, data) =>
      if TopicOf(kind).Some? && TopicOf(kind).value in s.topics && data !in s.cache then Some(data) else None
    case _ => None
  }

  // ----- one step -----

  function ReplyTo(cfg: Config, s: State, op: Op): Reply {
    match op
    case Subscribe(_) => Done
    case Unsubscribe(topic) => if topic in s.topics then Done else NotSubscribed
    case Prepare(topic, bytes) =>
      if topic !in s.topics then NotSubscribed
      else if bytes.None? then Unserializable
      else if |bytes.value| > MAX_MESSAGE_BYTES then TooLarge
      else Sent(bytes.value)
    case Receive(id, _, data) =>
      if id in s.cache then Duplicate else if cfg.parses(data) then Delivered else Malformed
    case Broadcast(kind, _) =>
      if TopicOf(kind).None? then Unsupported
      else if TopicOf(kind).value !in s.topics then NotSubscribed
      else Done
    case ClearCache => Done
  }

  function NextTopics(cfg: Config, s: State, e: Event): map<string, Topic> {
    match e.op
    case Subscribe(topic) => if topic in s.topics then s.topics else s.topics[topic := Topic(0, 0, e.now)]
    case Unsubscribe(topic) => s.topics - {topic}
    case Prepare(topic, _) =>
      if ReplyTo(cfg, s, e.op).Sent?
      then s.topics[topic := s.topics[topic].(sent := s.topics[topic].sent + 1, lastActivity := e.now)]
      else s.topics
    case Receive(id, topic, _) =>
      if id !in s.cache && topic in s.topics
      then s.topics[topic := s.topics[topic].(received := s.topics[topic].received + 1, lastActivity := e.now)]
      else s.topics
    case _ => s.topics
  }

  function NextStats(cfg: Config, s: State, e: Event): Stats {
    var st := s.stats;
    match e.op
    case Prepare(_, bytes) =>
      if ReplyTo(cfg, s, e.op).Sent?
      then st.(sent := st.sent + 1, bytesSent := st.bytesSent + |bytes.value|) else st
    case Receive(id, _, data) =>
      if id in s.cache then st.(deduplicated := st.deduplicated + 1)
      else st.(received := st.received + 1, bytesReceived := st.bytesReceived + |data|)
    case Broadcast(_, data) =>
      if Inserted(s, e.op).Some? then st.(sent := st.sent + 1, bytesSent := st.bytesSent + |data|) else st
    case _ => st
  }

  /** The cache after a step; which of several equally old entries go is left open. */
  ghost predicate NextCache(cfg: Config, s: State, e: Event, c': map<Id, Entry>) {
    match e.op
    case Receive(id, _, data) =>
      if id in s.cache then c' == s.cache[id := s.cache[id].(seen := s.cache[id].seen + 1)]
      else id in c' && c'[id] == Entry(data, e.now, 1) && EvictedForReceive(cfg, s.cache, e.now, c' - {id})
    case Broadcast(_, data) =>
      if Inserted(s, e.op).None? then c' == s.cache
      else data in c' && c'[data] == Entry(data, e.now, 1) && EvictedForBroadcast(cfg, s.cache, c' - {data})
    case ClearCache => c' == map[]
    case _ => c' == s.cache
  }

  ghost predicate Next(cfg: Config, s: State, e: Event, s': State) {
    && s'.topics == NextTopics(cfg, s, e)
    && s'.stats == NextStats(cfg, s, e)
    && NextCache(cfg, s, e, s'.cache)
  }
}

/** The protocol object, its fields updated in place. */
module GossipObject {
  import opened Prelude
  import opened Gossip

  /** Each element pairs an id of `c` with its time, no id twice. */
  ghost predicate Listing(entries: seq<(Id, nat)>, c: map<Id, Entry>) {
    && (forall i :: 0 <= i < |entries| ==> entries[i].0 in c && entries[i].1 == c[entries[i].0].cachedAt)
    && (forall i, j :: 0 <= i < j < |entries| ==> entries[i].0 != entries[j].0)
  }

  ghost predicate ByTime(entries: seq<(Id, nat)>) {
    forall i, j :: 0 <= i < j < |entries| ==> entries[i].1 <= entries[j].1
  }

  ghost function Ids(entries: seq<(Id, nat)>): set<Id> {
    set i | 0 <= i < |entries| :: entries[i].0
  }

  lemma IdsSnoc(entries: seq<(Id, nat)>, e: (Id, nat))
    ensures Ids(entries + [e]) == Ids(entries) + {e.0}
  {
    var all := entries + [e];
    assert forall i :: 0 <= i < |entries| ==> all[i] == entries[i];
    assert all[|entries|] == e;
    forall x | x in Ids(entries) + {e.0}
      ensures x in Ids(all)
    {
      if x in Ids(entries) {
        var i :| 0 <= i < |entries| && entries[i].0 == x;
        assert all[i].0 == x;
      }
    }
  }

  lemma IdsInsert(entries: seq<(Id, nat)>, p: nat, e: (Id, nat))
    requires p <= |entries|
    ensures Ids(entries[..p] + [e] + entries[p..]) == Ids(entries) + {e.0}
  {
    var all := entries[..p] + [e] + entries[p..];
    assert forall i :: 0 <= i < p ==> all[i] == entries[i];
    assert forall i :: p <= i < |entries| ==> all[i + 1] == entries[i];
    assert all[p] == e;
    forall x | x in Ids(entries) + {e.0}
      ensures x in Ids(all)
    {
      if x in Ids(entries) {
        var i :| 0 <= i < |entries| && entries[i].0 == x;
        assert all[if i < p then i else i + 1].0 == x;
      }
    }
  }

  /** Extending a listing's prefix by one adds exactly one new id. */
  lemma PrefixGrows(entries: seq<(Id, nat)>, c: map<Id, Entry>, i: nat)
    requires Listing(entries, c) && i < |entries|
    ensures entries[i].0 !in Ids(entries[..i])
    ensures Ids(entries[..i + 1]) == Ids(entries[..i]) + {entries[i].0}
  {
    assert entries[..i + 1] == entries[..i] + [entries[i]];
    IdsSnoc(entries[..i], entries[i]);
  }

  /** Insertion at its place keeps a listing sorted. */
  lemma InsertKeeps(sorted: seq<(Id, nat)>, p: nat, e: (Id, nat), c: map<Id, Entry>)
    requires Listing(sorted, c) && ByTime(sorted) && p <= |sorted|
    requires e.0 in c && e.1 == c[e.0].cachedAt && e.0 !in Ids(sorted)
    requires forall j :: 0 <= j < p ==> sorted[j].1 <= e.1
    requires forall j :: p <= j < |sorted| ==> e.1 <= sorted[j].1
    ensures var r := sorted[..p] + [e] + sorted[p..]; Listing(r, c) && ByTime(r)
  {
    InsertKeepsListing(sorted, p, e, c);
    hide Listing, Ids;
  }

  lemma InsertKeepsListing(sorted: seq<(Id, nat)>, p: nat, e: (Id, nat), c: map<Id, Entry>)
    requires Listing(sorted, c) && p <= |sorted|
    requires e.0 in c && e.1 == c[e.0].cachedAt && e.0 !in Ids(sorted)
    ensures Listing(sorted[..p] + [e] + sorted[p..], c)
  {
    assert forall j :: 0 <= j < |sorted| ==> sorted[j].0 in Ids(sorted);
  }

  /** The cache's entries in some order. */
  method Collect(c: map<Id, Entry>) returns (entries: seq<(Id, nat)>)
    ensures Listing(entries, c) && Ids(entries) == c.Keys
  {
    entries := [];
    var todo := c.Keys;
    while todo != {}
      invariant todo <= c.Keys && Listing(entries, c) && Ids(entries) == c.Keys - todo
      decreases todo
    {
      var x :| x in todo;
      IdsSnoc(entries, (x, c[x].cachedAt));
      assert forall i :: 0 <= i < |entries| ==> entries[i].0 in Ids(entries);
      entries := entries + [(x, c[x].cachedAt)];
      todo := todo - {x};
    }
  }

  /** A stable sort on the time stamps. */
  method SortByTime(entries: seq<(Id, nat)>, ghost c: map<Id, Entry>) returns (sorted: seq<(Id, nat)>)
    requires Listing(entries, c)
    ensures Listing(sorted, c) && Ids(sorted) == Ids(entries) && ByTime(sorted)
  {
    hide Ids;
    sorted := [];
    assert entries[..0] == sorted;
    for i := 0 to |entries|
      invariant Listing(sorted, c) && ByTime(sorted) && Ids(sorted) == Ids(entries[..i])
    {
      var p := |sorted|;
      while p > 0 && sorted[p - 1].1 > entries[i].1
        invariant 0 <= p <= |sorted|
        invariant forall j :: p <= j < |sorted| ==> sorted[j].1 > entries[i].1
      {
        p := p - 1;
      }
      PrefixGrows(entries, c, i);
      IdsInsert(sorted, p, entries[i]);
      InsertKeeps(sorted, p, entries[i], c);
      sorted := sorted[..p] + [entries[i]] + sorted[p..];
    }
    assert entries[..|entries|] == entries;
  }

  class GossipProtocol {
    const cfg: Config
    var topics: map<string, Topic>
    var cache: map<Id, Entry>
    var stats: Stats

    ghost function Model(): State
      reads this
    {
      State(topics, cache, stats)
    }

    constructor (cfg: Config)
      ensures this.cfg == cfg && Model() == INIT
    {
      this.cfg := cfg;
      topics, cache, stats := map[], map[], Stats(0, 0, 0, 0, 0);
    }

    method Subscribe(now: nat, topic: string)
      modifies this
      ensures Next(cfg, old(Model()), At(now, Op.Subscribe(topic)), Model())
    {
      if topic in topics {
        return;
      }
      topics := topics[topic := Topic(0, 0, now)];
    }

    method Unsubscribe(now: nat, topic: string) returns (r: Reply)
      modifies this
      ensures Next(cfg, old(Model()), At(now, Op.Unsubscribe(topic)), Model())
      ensures r == ReplyTo(cfg, old(Model()), Op.Unsubscribe(topic))
    {
      r := if topic in topics then Done else NotSubscribed;
      topics := topics - {topic};
    }

    method PrepareMessage(now: nat, topic: string, bytes: Option<Bytes>) returns (r: Reply)
      modifies this
      ensures Next(cfg, old(Model()), At(now, Prepare(topic, bytes)), Model())
      ensures r == ReplyTo(cfg, old(Model()), Prepare(topic, bytes))
    {
      if topic !in topics {
        return NotSubscribed;
      }
      if bytes.None? {
        return Unserializable;
      }
      var data := bytes.value;
      if |data| > MAX_MESSAGE_BYTES {
        return TooLarge;
      }
      var info := topics[topic];
      topics := topics[topic := info.(sent := info.sent + 1, lastActivity := now)];
      stats := stats.(sent := stats.sent + 1, bytesSent := stats.bytesSent + |data|);
      return Sent(data);
    }

    method HandleReceivedMessage(now: nat, id: Id, topic: string, data: Bytes) returns (r: Reply)
      modifies this
      ensures Next(cfg, old(Model()), At(now, Receive(id, topic, data)), Model())
      ensures r == ReplyTo(cfg, old(Model()), Receive(id, topic, data))
    {
      if id in cache {
        cache := cache[id := cache[id].(seen := cache[id].seen + 1)];
        stats := stats.(deduplicated := stats.deduplicated + 1);
        return Duplicate;
      }
      if topic in topics {
        var info := topics[topic];
        topics := topics[topic := info.(received := info.received + 1, lastActivity := now)];
      }
      stats := stats.(received := stats.received + 1, bytesReceived := stats.bytesReceived + |data|);
      CacheMessage(now, id, data);
      return if cfg.parses(data) then Delivered else Malformed;
    }

    method CacheMessage(now: nat, id: Id, data: Bytes)
      requires id !in cache
      modifies this`cache
      ensures id in cache && cache[id] == Entry(data, now, 1)
      ensures EvictedForReceive(cfg, old(cache), now, cache - {id})
    {
      var needsEviction := |cache| >= cfg.maxCache;
      if needsEviction {
        EvictOldMessages(now);
      }
      ghost var room := cache;
      cache := cache[id := Entry(data, now, 1)];
      assert cache - {id} == room;
    }

    method EvictOldMessages(now: nat)
      modifies this`cache
      ensures cache.Keys <= old(cache).Keys
      ensures var f := Fresh(cfg, old(cache), now);
              if |f| < cfg.maxCache then cache == f else OldestRemoved(f, cfg.maxCache / 10, cache)
    {
      cache := map x | x in cache && Elapsed(now, cache[x].cachedAt) < cfg.ttl :: cache[x];
      if |cache| >= cfg.maxCache {
        var toRemove := cfg.maxCache / 10;
        var entries := Collect(cache);
        entries := SortByTime(entries, cache);
        RemoveFirst(entries, toRemove);
      }
    }

    /** Removes the ids of the first `k` entries of a list sorted by time. */
    method RemoveFirst(entries: seq<(Id, nat)>, k: nat)
      requires Listing(entries, cache) && Ids(entries) == cache.Keys && ByTime(entries)
      modifies this`cache
      ensures OldestRemoved(old(cache), k, cache)
    {
      hide Ids, OldestRemoved;
      ghost var c := cache;
      NoIds(entries);
      CountIds(entries, c);
      var taken := if k <= |entries| then k else |entries|;
      for i := 0 to taken
        invariant cache.Keys == c.Keys - Ids(entries[..i])
        invariant |cache| == |c| - i
        invariant forall x :: x in cache ==> cache[x] == c[x]
      {
        PrefixGrows(entries, c, i);
        assert (cache - {entries[i].0}).Keys == cache.Keys - {entries[i].0};
        cache := cache - {entries[i].0};
      }
      FirstAreOldest(entries, c, k, cache);
    }

    method ClearCache(now: nat)
      modifies this
      ensures Next(cfg, old(Model()), At(now, Op.ClearCache), Model())
    {
      cache := map[];
    }

    method RemoveOldest()
      modifies this`cache
      ensures OldestRemoved(old(cache), 1, cache)
    {
      if cache == map[] {
        return;
      }
      assert cache.Keys != {} && |cache.Keys| == |cache|;
      var oldest := Oldest(cache);
      assert (cache - {oldest}).Keys == cache.Keys - {oldest};
      cache := cache - {oldest};
    }

    method Broadcast(now: nat, kind: Kind, data: Bytes) returns (r: Reply)
      modifies this
      ensures Next(cfg, old(Model()), At(now, Op.Broadcast(kind, data)), Model())
      ensures r == ReplyTo(cfg, old(Model()), Op.Broadcast(kind, data))
    {
      hide TopicOf, OldestRemoved;
      var topic := TopicOf(kind);
      if topic.None? {
        return Unsupported;
      }
      if topic.value !in topics {
        return NotSubscribed;
      }
      if data in cache {
        return Done;
      }
      if |cache| >= cfg.maxCache {
        RemoveOldest();
      }
      ghost var room := cache;
      cache := cache[data := Entry(data, now, 1)];
      assert cache - {data} == room;
      stats := stats.(sent := stats.sent + 1, bytesSent := stats.bytesSent + |data|);
      return Done;
    }
  }

  lemma NoIds(entries: seq<(Id, nat)>)
    ensures Ids(entries[..0]) == {}
  {
  }

  lemma CountIds(entries: seq<(Id, nat)>, c: map<Id, Entry>)
    requires Listing(entries, c) && Ids(entries) == c.Keys
    ensures |entries| == |c|
  {
    CountPrefix(entries, c, |entries|);
    assert entries[..|entries|] == entries;
  }

  lemma FirstAreOldest(entries: seq<(Id, nat)>, c: map<Id, Entry>, k: nat, c': map<Id, Entry>)
    requires Listing(entries, c) && Ids(entries) == c.Keys && ByTime(entries)
    requires var taken := Min(k, |entries|);
             c'.Keys == c.Keys - Ids(entries[..taken]) && |c'| == |c| - taken
    requires forall x :: x in c' ==> c'[x] == c[x]
    ensures OldestRemoved(c, k, c')
  {
    hide Ids;
    var taken := Min(k, |entries|);
    CountIds(entries, c);
    forall x, y | x in c' && y in c && y !in c'
      ensures c[y].cachedAt <= c[x].cachedAt
    {
      var j := IndexOf(entries[..taken], y);
      var i := IndexOf(entries, x);
      if i < taken {
        AtIndex(entries[..taken], i);
      }
      assert entries[j].1 <= entries[i].1;
    }
  }

  lemma IndexOf(entries: seq<(Id, nat)>, x: Id) returns (i: nat)
    requires x in Ids(entries)
    ensures i < |entries| && entries[i].0 == x
  {
    i :| 0 <= i < |entries| && entries[i].0 == x;
  }

  lemma AtIndex(entries: seq<(Id, nat)>, i: nat)
    requires i < |entries|
    ensures entries[i].0 in Ids(entries)
  {
  }

  lemma {:induction false} CountPrefix(entries: seq<(Id, nat)>, c: map<Id, Entry>, n: nat)
    requires Listing(entries, c) && n <= |entries|
    ensures |Ids(entries[..n])| == n
  {
    if n == 0 {
    } else {
      CountPrefix(entries, c, n - 1);
      PrefixGrows(entries, c, n - 1);
    }
  }

  /** Some entry no younger than any other. */
  method Oldest(c: map<Id, Entry>) returns (oldest: Id)
    requires c != map[]
    ensures oldest in c && forall x :: x in c ==> c[oldest].cachedAt <= c[x].cachedAt
  {
    assert c.Keys != {};
    oldest :| oldest in c;
    var todo := c.Keys;
    while todo != {}
      invariant oldest in c && todo <= c.Keys
      invariant forall x :: x in c.Keys - todo ==> c[oldest].cachedAt <= c[x].cachedAt
      decreases todo
    {
      var x :| x in todo;
      if c[x].cachedAt < c[oldest].cachedAt {
        oldest := x;
      }
      todo := todo - {x};
    }
  }
}
